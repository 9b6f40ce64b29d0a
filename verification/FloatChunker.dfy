/** Splitting of HTML-escaped text into pieces that never cut an entity. */
module FloatChunker {
  import opened Common

  // ---------------------------------------------------------------------------------
  // Escaping
  // ---------------------------------------------------------------------------------

  function Unit(c: char): (u: string)
    ensures 1 <= |u| <= 5
  {
    if c == '&' then "&amp;" else if c == '<' then "&lt;" else if c == '>' then "&gt;" else [c]
  }

  function Escape(t: string): string {
    if t == "" then "" else Unit(t[0]) + Escape(t[1..])
  }

  function Concat(parts: seq<string>): string {
    if parts == [] then "" else parts[0] + Concat(parts[1..])
  }

  lemma {:induction false} EscapeConcat(t: string, u: string)
    ensures Escape(t + u) == Escape(t) + Escape(u)
  {
    if t == "" {
      assert t + u == u;
    } else {
      EscapeConcat(t[1..], u);
      HeadOfConcat(t, u);
      Regroup(Unit(t[0]), Escape(t[1..]), Escape(u));
    }
  }

  lemma EscapeOne(c: char)
    ensures Escape([c]) == Unit(c)
  {
    assert [c][1..] == "";
  }

  /** One more character of the text adds its unit. */
  lemma EscapeAt(t: string, n: nat)
    requires n < |t|
    ensures Escape(t[..n + 1]) == Escape(t[..n]) + Unit(t[n])
  {
    assert t[..n + 1] == t[..n] + [t[n]];
    EscapeConcat(t[..n], [t[n]]);
    EscapeOne(t[n]);
  }

  lemma EscapeSplit(t: string, n: nat)
    requires n <= |t|
    ensures Escape(t) == Escape(t[..n]) + Escape(t[n..])
  {
    assert t == t[..n] + t[n..];
    EscapeConcat(t[..n], t[n..]);
  }

  // ---------------------------------------------------------------------------------
  // The source's searches and cuts
  // ---------------------------------------------------------------------------------

  /** The last index below `hi` at which c occurs, or -1. */
  function LastIndex(s: string, c: char, hi: nat): (i: int)
    requires hi <= |s|
    ensures -1 <= i < hi
    ensures i >= 0 ==> s[i] == c
    ensures forall k | i < k < hi :: s[k] != c
  {
    if hi == 0 then -1 else if s[hi - 1] == c then hi - 1 else LastIndex(s, c, hi - 1)
  }

  /** The first index from `lo` at which c occurs, or -1. */
  function FirstIndex(s: string, c: char, lo: nat): (i: int)
    requires lo <= |s|
    ensures i == -1 || lo <= i < |s|
    ensures i >= 0 ==> s[i] == c && forall k | lo <= k < i :: s[k] != c
    ensures i == -1 ==> forall k | lo <= k < |s| :: s[k] != c
    decreases |s| - lo
  {
    if lo == |s| then -1 else if s[lo] == c then lo else FirstIndex(s, c, lo + 1)
  }

  predicate OccursAt(s: string, sep: string, k: nat) {
    k + |sep| <= |s| && s[k..k + |sep|] == sep
  }

  /** The last start, below `hi`, of an occurrence of `sep` that ends by `hi`, or -1. */
  function LastSeparator(s: string, sep: string, hi: nat): (i: int)
    requires hi <= |s| && sep != ""
    ensures -1 <= i && (i >= 0 ==> i + |sep| <= hi && OccursAt(s, sep, i))
  {
    if hi < |sep| then -1
    else if OccursAt(s, sep, hi - |sep|) then hi - |sep|
    else LastSeparator(s, sep, hi - 1)
  }

  lemma {:induction false} LastSeparatorIsLast(s: string, sep: string, hi: nat, k: nat)
    requires hi <= |s| && sep != "" && LastSeparator(s, sep, hi) < k <= hi - |sep|
    ensures !OccursAt(s, sep, k)
  {
    if k < hi - |sep| {
      LastSeparatorIsLast(s, sep, hi - 1, k);
    }
  }

  /** A positive index at or before `limit` that splits no entity, if there is one. */
  function SafeCut(s: string, limit: nat): (cut: nat)
    ensures limit >= 1 && s != "" ==> 1 <= cut <= |s|
  {
    if limit >= |s| then |s|
    else
      var amp := LastIndex(s, '&', limit);
      if amp == -1 then limit
      else
        var semi := FirstIndex(s, ';', amp);
        if semi == -1 || semi >= limit then
          if amp > 0 then amp else if semi != -1 then semi + 1 else limit
        else limit
  }

  predicate IsSeparator(sep: string) {
    sep == "\n\n" || sep == "\n" || sep == " "
  }

  /** After the last occurrence of the first separator that occurs before the limit. */
  function CutBy(s: string, seps: seq<string>, limit: nat): (cut: nat)
    requires limit <= |s| && forall sep | sep in seps :: IsSeparator(sep)
    ensures limit >= 1 && s != "" ==> 1 <= cut <= |s|
    decreases |seps|
  {
    if seps == [] then SafeCut(s, limit)
    else
      assert IsSeparator(seps[0]) && |seps[0]| > 0;
      var last := LastSeparator(s, seps[0], limit);
      if last != -1 then SafeCut(s, last + |seps[0]|) else CutBy(s, seps[1..], limit)
  }

  /** A paragraph, then a line, then a word boundary. */
  const SEPARATORS := ["\n\n", "\n", " "]

  function NextCut(s: string, limit: nat): (cut: nat)
    ensures limit >= 1 && s != "" ==> 1 <= cut <= |s|
  {
    if |s| <= limit then |s| else CutBy(s, SEPARATORS, limit)
  }

  /** The pieces, as a function of the text. */
  function Chunks(s: string, limit: nat): seq<string>
    requires limit >= 1
    decreases |s|
  {
    if s == "" then []
    else
      var cut := NextCut(s, limit);
      [s[..cut]] + Chunks(s[cut..], limit)
  }

  lemma ChunksStep(s: string, start: nat, limit: nat, cut: nat)
    requires start < |s| && limit >= 1 && cut == NextCut(s[start..], limit)
    ensures start + cut <= |s|
    ensures Chunks(s[start..], limit) == [s[start..start + cut]] + Chunks(s[start + cut..], limit)
  {
    assert s[start..][..cut] == s[start..start + cut];
    assert s[start..][cut..] == s[start + cut..];
  }

  /** The loop of the code. Its defensive branch for a cut of zero is dead. */
  method SplitLoop(escaped: string, limit: nat) returns (parts: seq<string>)
    requires limit >= 1
    ensures parts == Chunks(escaped, limit)
  {
    parts := [];
    var start, length := 0, |escaped|;
    while start < length
      invariant 0 <= start <= length
      invariant Chunks(escaped, limit) == parts + Chunks(escaped[start..], limit)
    {
      var cut := NextCut(escaped[start..], limit);
      if cut <= 0 {
        assert false;
      }
      ChunksStep(escaped, start, limit, cut);
      Regroup(parts, [escaped[start..start + cut]], Chunks(escaped[start + cut..], limit));
      parts := parts + [escaped[start..start + cut]];
      start := start + cut;
    }
    assert escaped[start..] == "";
  }

  method ChunkEscaped(escaped: string, limit: int) returns (result: Option<seq<string>>)
    ensures result == if limit <= 0 then None else Some(Chunks(escaped, limit))
  {
    if limit <= 0 {
      return None;
    }
    var parts := SplitLoop(escaped, limit);
    return Some(parts);
  }

  // ---------------------------------------------------------------------------------
  // Cuts fall between units
  // ---------------------------------------------------------------------------------

  /** k is the length of the escape of some prefix of t. */
  ghost predicate Boundary(t: string, k: int) {
    exists n: nat | n <= |t| :: |Escape(t[..n])| == k
  }

  /** Every position of the escape is inside, or at the start of, the unit of some character. */
  lemma {:induction false} UnitAround(t: string, k: nat) returns (n: nat)
    requires k < |Escape(t)|
    ensures n < |t| && |Escape(t[..n])| <= k < |Escape(t[..n + 1])|
  {
    if k < |Unit(t[0])| {
      n := 0;
      EscapeAt(t, 0);
    } else {
      var m := UnitAround(t[1..], k - |Unit(t[0])|);
      n := m + 1;
      EscapeCons(t, m);
      EscapeCons(t, m + 1);
    }
  }

  lemma EscapeCons(t: string, m: nat)
    requires m < |t|
    ensures Escape(t[..m + 1]) == Unit(t[0]) + Escape(t[1..][..m])
  {
    assert t[..m + 1][0] == t[0] && t[..m + 1][1..] == t[1..][..m];
  }

  lemma InMiddle(s: string, a: string, u: string, b: string)
    requires s == a + u + b
    ensures OccursAt(s, u, |a|)
  {
  }

  lemma CharsOfOccurrence(s: string, u: string, p: nat)
    requires OccursAt(s, u, p)
    ensures forall k | p <= k < p + |u| :: s[k] == u[k - p]
  {
    assert forall k | p <= k < p + |u| :: s[p..p + |u|][k - p] == s[k];
  }

  /** Seen from a character n, the escape around its unit. */
  lemma UnitPosition(t: string, n: nat)
    requires n < |t|
    ensures var p := |Escape(t[..n])|;
            var q := |Escape(t[..n + 1])|;
            q == p + |Unit(t[n])| <= |Escape(t)| && OccursAt(Escape(t), Unit(t[n]), p)
  {
    EscapeAt(t, n);
    EscapeSplit(t, n + 1);
    InMiddle(Escape(t), Escape(t[..n]), Unit(t[n]), Escape(t[n + 1..]));
  }

  lemma EntityShape(c: char)
    requires |Unit(c)| > 1
    ensures Unit(c)[0] == '&' && Unit(c)[|Unit(c)| - 1] == ';'
    ensures forall j | 0 < j < |Unit(c)| :: Unit(c)[j] != '&'
    ensures forall j | 0 <= j < |Unit(c)| - 1 :: Unit(c)[j] != ';'
  {
  }

  lemma LastIndexIs(s: string, c: char, hi: nat, i: nat)
    requires i < hi <= |s| && s[i] == c && forall k | i < k < hi :: s[k] != c
    ensures LastIndex(s, c, hi) == i
  {
  }

  lemma {:induction false} PrefixMonotone(t: string, m: nat, n: nat)
    requires m <= n <= |t|
    ensures |Escape(t[..m])| + (n - m) <= |Escape(t[..n])|
  {
    if m < n {
      PrefixMonotone(t, m, n - 1);
      EscapeAt(t, n - 1);
    }
  }

  /** A cut position strictly inside a unit: the unit is an entity, its ampersand is the last
      one before the cut and its semicolon the first one after it. */
  lemma CutInside(t: string, n: nat, k: nat)
    requires n < |t| && |Escape(t[..n])| < k < |Escape(t[..n + 1])|
    ensures |Escape(t[..n])| < k <= |Escape(t)|
    ensures LastIndex(Escape(t), '&', k) == |Escape(t[..n])|
    ensures FirstIndex(Escape(t), ';', |Escape(t[..n])|) == |Escape(t[..n + 1])| - 1
  {
    UnitPosition(t, n);
    EntityShape(t[n]);
    var s := Escape(t);
    var p := |Escape(t[..n])|;
    CharsOfOccurrence(s, Unit(t[n]), p);
    var q := |Escape(t[..n + 1])|;
    LastIndexIs(s, '&', k, p);
    SemicolonEndsUnit(s, p, q);
  }

  lemma UnitShape(c: char, k: nat)
    requires k < |Unit(c)| && Unit(c)[k] == '&'
    ensures k == 0
    ensures Unit(c)[|Unit(c)| - 1] == ';' && forall j | 0 <= j < |Unit(c)| - 1 :: Unit(c)[j] != ';'
  {
  }

  /** An ampersand of the escape starts an entity, which runs to the first semicolon. */
  lemma AmpersandStartsUnit(t: string, amp: nat) returns (m: nat)
    requires amp < |Escape(t)| && Escape(t)[amp] == '&'
    ensures m < |t| && |Escape(t[..m])| == amp
    ensures FirstIndex(Escape(t), ';', amp) == |Escape(t[..m + 1])| - 1
  {
    m := UnitAround(t, amp);
    UnitPosition(t, m);
    var p := |Escape(t[..m])|;
    CharsOfOccurrence(Escape(t), Unit(t[m]), p);
    UnitShape(t[m], amp - p);
    SemicolonEndsUnit(Escape(t), p, |Escape(t[..m + 1])|);
  }

  lemma SemicolonEndsUnit(s: string, p: nat, q: nat)
    requires p < q <= |s| && s[q - 1] == ';'
    requires forall j | p <= j < q - 1 :: s[j] != ';'
    ensures FirstIndex(s, ';', p) == q - 1
  {
  }

  /** At a boundary, an ampersand before the cut belongs to an entity that ends before it. */
  lemma CutAtBoundary(t: string, n: nat)
    requires 0 < n <= |t|
    ensures |Escape(t[..n])| <= |Escape(t)|
    ensures var k := |Escape(t[..n])|;
            var amp := LastIndex(Escape(t), '&', k);
            amp >= 0 ==> 0 <= FirstIndex(Escape(t), ';', amp) < k
  {
    EscapeSplit(t, n);
    var k := |Escape(t[..n])|;
    var amp := LastIndex(Escape(t), '&', k);
    if amp >= 0 {
      var m := AmpersandStartsUnit(t, amp);
      if n <= m {
        PrefixMonotone(t, n, m);
      } else {
        PrefixMonotone(t, m + 1, n);
      }
    }
  }

  /** On escaped text a safe cut always falls between units: where asked if possible, else
      before the entity in the way, else (an entity at the very start) right after it. */
  lemma SafeCutIsBoundary(t: string, limit: nat)
    requires t != "" && limit >= 1
    ensures Boundary(t, SafeCut(Escape(t), limit))
    ensures SafeCut(Escape(t), limit) <= Max(limit, 5)
    ensures Boundary(t, limit) ==> SafeCut(Escape(t), limit) == limit
  {
    var s := Escape(t);
    if limit >= |s| {
      assert t[..|t|] == t;
      if Boundary(t, limit) {
        var n: nat :| n <= |t| && |Escape(t[..n])| == limit;
        EscapeSplit(t, n);
      }
    } else {
      var n := UnitAround(t, limit);
      var p := |Escape(t[..n])|;
      if p == limit {
        assert n > 0 by {
          assert t[..0] == "";
        }
        CutAtBoundary(t, n);
      } else {
        CutInside(t, n, limit);
        EscapeAt(t, n);
        assert |Escape(t[..n + 1])| <= p + 5;
        if Boundary(t, limit) {
          var m: nat :| m <= |t| && |Escape(t[..m])| == limit;
          if m <= n {
            PrefixMonotone(t, m, n);
          } else {
            PrefixMonotone(t, n + 1, m);
          }
        }
      }
    }
  }

  /** It is the largest boundary within the limit or, with an entity at the very start that is
      longer than the limit, the first boundary after it. */
  lemma SafeCutIsLargest(t: string, limit: nat, m: nat)
    requires t != "" && limit >= 1 && Boundary(t, m)
    ensures m <= limit ==> m <= SafeCut(Escape(t), limit)
    ensures 0 < m && limit < SafeCut(Escape(t), limit) ==> SafeCut(Escape(t), limit) <= m
  {
    SafeCutIsBoundary(t, limit);
    var j: nat :| j <= |t| && |Escape(t[..j])| == m;
    EscapeSplit(t, j);
    if limit < |Escape(t)| {
      var n := UnitAround(t, limit);
      if |Escape(t[..n])| < limit {
        CutInside(t, n, limit);
        if j <= n {
          PrefixMonotone(t, j, n);
        } else {
          PrefixMonotone(t, n + 1, j);
        }
      }
    }
  }

  lemma {:induction false} CutByIsBoundary(t: string, seps: seq<string>, limit: nat)
    requires t != "" && 1 <= limit <= |Escape(t)| && forall sep | sep in seps :: IsSeparator(sep)
    ensures Boundary(t, CutBy(Escape(t), seps, limit)) && CutBy(Escape(t), seps, limit) <= Max(limit, 5)
    decreases |seps|
  {
    if seps == [] {
      SafeCutIsBoundary(t, limit);
    } else {
      assert seps[0] in seps;
      var last := LastSeparator(Escape(t), seps[0], limit);
      if last != -1 {
        SafeCutIsBoundary(t, last + |seps[0]|);
      } else {
        CutByIsBoundary(t, seps[1..], limit);
      }
    }
  }

  lemma NextCutIsBoundary(t: string, limit: nat)
    requires t != "" && limit >= 1
    ensures Boundary(t, NextCut(Escape(t), limit))
    ensures NextCut(Escape(t), limit) <= Max(limit, 5)
  {
    if |Escape(t)| <= limit {
      assert t[..|t|] == t;
    } else {
      CutByIsBoundary(t, SEPARATORS, limit);
    }
  }

  /** The end of an occurrence of a separator is a boundary: blanks and newlines stand for
      themselves in the escape. */
  lemma AfterBlankIsBoundary(t: string, k: nat)
    requires k < |Escape(t)| && (Escape(t)[k] == '\n' || Escape(t)[k] == ' ')
    ensures Boundary(t, k + 1)
  {
    var n := UnitAround(t, k);
    UnitPosition(t, n);
    var p := |Escape(t[..n])|;
    CharsOfOccurrence(Escape(t), Unit(t[n]), p);
    BlankUnit(t[n], k - p);
    assert |Escape(t[..n + 1])| == k + 1;
  }

  lemma BlankUnit(c: char, k: nat)
    requires k < |Unit(c)| && (Unit(c)[k] == '\n' || Unit(c)[k] == ' ')
    ensures |Unit(c)| == 1
  {
  }

  lemma OccurrenceEnds(s: string, sep: string, i: nat)
    requires IsSeparator(sep) && OccursAt(s, sep, i)
    ensures s[i + |sep| - 1] == '\n' || s[i + |sep| - 1] == ' '
  {
    assert s[i + |sep| - 1] == s[i..i + |sep|][|sep| - 1];
  }

  lemma SeparatorEnd(t: string, sep: string, hi: nat)
    requires t != "" && hi <= |Escape(t)| && IsSeparator(sep)
    requires LastSeparator(Escape(t), sep, hi) != -1
    ensures var cut := LastSeparator(Escape(t), sep, hi) + |sep|; SafeCut(Escape(t), cut) == cut
  {
    var i := LastSeparator(Escape(t), sep, hi);
    var k := i + |sep| - 1;
    OccurrenceEnds(Escape(t), sep, i);
    AfterBlankIsBoundary(t, k);
    SafeCutIsBoundary(t, k + 1);
  }

  /** An occurrence of `sep` ends by the limit. */
  ghost predicate HasBy(s: string, sep: string, limit: nat) {
    exists k: nat :: k + |sep| <= limit && OccursAt(s, sep, k)
  }

  /** The last such occurrence ends at `cut`. */
  ghost predicate EndsLast(s: string, sep: string, limit: nat, cut: nat) {
    && |sep| <= cut <= limit && OccursAt(s, sep, cut - |sep|)
    && forall k: nat | cut < k + |sep| <= limit :: !OccursAt(s, sep, k)
  }

  lemma LastSeparatorEnds(t: string, sep: string, limit: nat, cut: nat)
    requires t != "" && limit <= |Escape(t)| && IsSeparator(sep)
    ensures var last := LastSeparator(Escape(t), sep, limit);
            && (last != -1 <==> HasBy(Escape(t), sep, limit))
            && (last != -1 && cut == SafeCut(Escape(t), last + |sep|) ==> EndsLast(Escape(t), sep, limit, cut))
  {
    var s := Escape(t);
    var last := LastSeparator(s, sep, limit);
    forall k: nat | last < k <= limit - |sep|
      ensures !OccursAt(s, sep, k)
    {
      LastSeparatorIsLast(s, sep, limit, k);
    }
    if last != -1 {
      SeparatorEnd(t, sep, limit);
    }
  }

  /** What a cut is like when only the separators from `sep` on are looked for. */
  ghost predicate Preferred(s: string, seps: seq<string>, limit: nat, cut: nat)
    decreases |seps|
  {
    if seps == [] then cut == SafeCut(s, limit)
    else if HasBy(s, seps[0], limit) then EndsLast(s, seps[0], limit, cut)
    else Preferred(s, seps[1..], limit, cut)
  }

  lemma {:induction false} CutByPrefers(t: string, seps: seq<string>, limit: nat)
    requires t != "" && limit <= |Escape(t)| && forall sep | sep in seps :: IsSeparator(sep)
    ensures Preferred(Escape(t), seps, limit, CutBy(Escape(t), seps, limit))
    decreases |seps|
  {
    if seps != [] {
      LastSeparatorEnds(t, seps[0], limit, CutBy(Escape(t), seps, limit));
      CutByPrefers(t, seps[1..], limit);
    }
  }

  /** The cut is just after the last paragraph break that ends within the limit; failing that,
      after the last newline; failing that, after the last blank; and where it is safe at all
      only when there is none of them. */
  lemma CutPrefersSeparators(t: string, limit: nat)
    requires 1 <= limit < |Escape(t)|
    ensures Preferred(Escape(t), SEPARATORS, limit, NextCut(Escape(t), limit))
  {
    CutByPrefers(t, SEPARATORS, limit);
  }

  // ---------------------------------------------------------------------------------
  // The pieces of an escaped text
  // ---------------------------------------------------------------------------------

  function From(cuts: seq<nat>, i: nat): nat
    requires i <= |cuts|
  {
    if i == 0 then 0 else cuts[i - 1]
  }

  /** Piece i is the escape of the raw slice that ends at cuts[i]. */
  predicate SliceAt(t: string, cuts: seq<nat>, parts: seq<string>, i: nat)
    requires i < |parts| == |cuts|
  {
    From(cuts, i) < cuts[i] <= |t| && parts[i] == Escape(t[From(cuts, i)..cuts[i]])
  }

  /** The pieces are the escapes of consecutive non-empty slices that make up t. */
  ghost predicate Slices(t: string, cuts: seq<nat>, parts: seq<string>) {
    && |cuts| == |parts|
    && (forall i: nat | i < |parts| :: SliceAt(t, cuts, parts, i))
    && From(cuts, |cuts|) == |t|
  }

  /** Whole entities only. */
  ghost predicate Aligned(t: string, parts: seq<string>) {
    exists cuts: seq<nat> :: Slices(t, cuts, parts)
  }

  lemma SliceOfRest(t: string, n: nat, from: nat, end: nat)
    requires from <= end && n + end <= |t|
    ensures t[n..][from..end] == t[n + from..n + end]
  {
  }

  /** Cuts of a text seen from n characters earlier, with a cut at n before them. */
  function Shifted(n: nat, cuts: seq<nat>): (all: seq<nat>)
    ensures |all| == |cuts| + 1 && all[0] == n
    ensures forall i | 0 <= i < |cuts| :: all[i + 1] == cuts[i] + n
  {
    [n] + seq(|cuts|, i requires 0 <= i < |cuts| => cuts[i] + n)
  }

  lemma ShiftedSlice(t: string, n: nat, cuts: seq<nat>, parts: seq<string>, first: string, i: nat)
    requires 0 < n <= |t| && i < |parts| == |cuts| && SliceAt(t[n..], cuts, parts, i)
    ensures SliceAt(t, Shifted(n, cuts), [first] + parts, i + 1)
  {
    var all := Shifted(n, cuts);
    var from := From(cuts, i);
    assert From(all, i + 1) == n + from by {
      if i > 0 {
        assert all[i - 1 + 1] == cuts[i - 1] + n;
      }
    }
    SliceOfRest(t, n, from, cuts[i]);
    assert ([first] + parts)[i + 1] == parts[i];
  }

  lemma SlicesCons(t: string, n: nat, cuts: seq<nat>, parts: seq<string>)
    requires 0 < n <= |t| && Slices(t[n..], cuts, parts)
    ensures Aligned(t, [Escape(t[..n])] + parts)
  {
    var all := Shifted(n, cuts);
    var joined := [Escape(t[..n])] + parts;
    forall i: nat | i < |joined|
      ensures SliceAt(t, all, joined, i)
    {
      if i > 0 {
        ShiftedSlice(t, n, cuts, parts, Escape(t[..n]), i - 1);
      }
    }
    if |cuts| > 0 {
      assert all[|cuts| - 1 + 1] == cuts[|cuts| - 1] + n;
    }
    assert Slices(t, all, joined);
  }

  /** The first piece. */
  lemma ChunkHead(t: string, limit: nat) returns (n: nat)
    requires t != "" && limit >= 1
    ensures 0 < n <= |t| && Escape(t) != ""
    ensures Chunks(Escape(t), limit) == [Escape(t[..n])] + Chunks(Escape(t[n..]), limit)
    ensures 1 <= |Escape(t[..n])| <= Max(limit, 5)
    ensures Escape(t) == Escape(t[..n]) + Escape(t[n..])
  {
    var s := Escape(t);
    EscapeAt(t, 0);
    NextCutIsBoundary(t, limit);
    var cut := NextCut(s, limit);
    n :| n <= |t| && |Escape(t[..n])| == cut;
    EscapeSplit(t, n);
    assert n > 0 by {
      assert t[..0] == "";
    }
    assert s[..cut] == Escape(t[..n]) && s[cut..] == Escape(t[n..]);
  }

  /** For every text and every limit: the pieces are non-empty, join to the escaped text, never
      split an entity (each is the escape of a contiguous raw slice), and none is longer than
      the limit, or than one entity if the limit is smaller than that. */
  lemma {:induction false} ChunksOfEscape(t: string, limit: nat)
    requires limit >= 1
    ensures var parts := Chunks(Escape(t), limit);
            && Concat(parts) == Escape(t)
            && (forall p | p in parts :: 1 <= |p| <= Max(limit, 5))
            && Aligned(t, parts)
    decreases |t|
  {
    if t == "" {
      assert Slices(t, [], []);
    } else {
      var n := ChunkHead(t, limit);
      ChunksOfEscape(t[n..], limit);
      var rest := Chunks(Escape(t[n..]), limit);
      var cuts: seq<nat> :| Slices(t[n..], cuts, rest);
      SlicesCons(t, n, cuts, rest);
      assert ([Escape(t[..n])] + rest)[1..] == rest;
    }
  }

  // ---------------------------------------------------------------------------------
  // Counting raw characters
  // ---------------------------------------------------------------------------------

  /** How many raw characters fit in `escapedLen` escaped ones. */
  method RawCountForEscaped(text: string, escapedLen: int) returns (raw: nat)
    ensures raw <= |text|
    ensures escapedLen >= 0 ==> |Escape(text[..raw])| <= escapedLen
    ensures raw < |text| ==> |Escape(text[..raw + 1])| > escapedLen
    ensures forall n: nat | n <= |text| && |Escape(text[..n])| == escapedLen :: raw == n
  {
    var total := 0;
    raw := 0;
    while raw < |text|
      invariant 0 <= raw <= |text| && total == |Escape(text[..raw])|
      invariant escapedLen >= 0 ==> total <= escapedLen
    {
      var unit := Unit(text[raw]);
      EscapeAt(text, raw);
      if total + |unit| > escapedLen {
        break;
      }
      total := total + |unit|;
      raw := raw + 1;
    }
    forall n: nat | n <= |text| && |Escape(text[..n])| == escapedLen
      ensures raw == n
    {
      if n < raw {
        PrefixMonotone(text, n, raw);
      } else if n > raw {
        PrefixMonotone(text, raw + 1, n);
      }
    }
  }
}
