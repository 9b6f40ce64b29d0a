/** Assembling the parts of a float: numbering, the eight-part ceiling, and the marker that
    says how many raw characters did not fit. */
module FloatParts {
  import opened Common
  import opened FloatChunker

  const CHUNK_LIMIT := 4000
  const MAX_PARTS := 8

  // ---------------------------------------------------------------------------------
  // Numbers as the markers print them
  // ---------------------------------------------------------------------------------

  function Digit(d: nat): char
    requires d < 10
  {
    ('0' as int + d) as char
  }

  /** A number below 1000, without leading zeros. */
  function Small(n: nat): string
    requires n < 1000
  {
    if n < 10 then [Digit(n)]
    else if n < 100 then [Digit(n / 10), Digit(n % 10)]
    else Padded(n)
  }

  function Padded(n: nat): string
    requires n < 1000
  {
    [Digit(n / 100), Digit(n / 10 % 10), Digit(n % 10)]
  }

  /** Decimal with a comma between groups of three digits. */
  function Grouped(n: nat): string {
    if n < 1000 then Small(n) else Grouped(n / 1000) + "," + Padded(n % 1000)
  }

  /** The number a reader takes from the marker. */
  function ReadNumber(s: string): nat {
    if s == "" then 0
    else
      var init := ReadNumber(s[..|s| - 1]);
      var c := s[|s| - 1];
      if IsDigit(c) then 10 * init + (c as int - '0' as int) else init
  }

  lemma ReadPush(s: string, c: char)
    ensures ReadNumber(s + [c])
            == if IsDigit(c) then 10 * ReadNumber(s) + (c as int - '0' as int) else ReadNumber(s)
  {
    assert (s + [c])[..|s + [c]| - 1] == s;
  }

  lemma ReadPadded(s: string, n: nat)
    requires n < 1000
    ensures ReadNumber(s + Padded(n)) == 1000 * ReadNumber(s) + n
  {
    var a, b, c := Digit(n / 100), Digit(n / 10 % 10), Digit(n % 10);
    ReadPush(s, a);
    ReadPush(s + [a], b);
    ReadPush(s + [a] + [b], c);
    assert s + Padded(n) == s + [a] + [b] + [c];
    ThreeDigits(ReadNumber(s), n);
  }

  lemma ThreeDigits(r: nat, n: nat)
    requires n < 1000
    ensures 10 * (10 * (10 * r + n / 100) + n / 10 % 10) + n % 10 == 1000 * r + n
  {
    assert n / 10 == 10 * (n / 100) + n / 10 % 10;
  }

  lemma ReadSmall(n: nat)
    requires n < 1000
    ensures ReadNumber(Small(n)) == n
  {
    if n < 10 {
      ReadPush("", Digit(n));
      assert Small(n) == "" + [Digit(n)];
    } else if n < 100 {
      ReadPush("", Digit(n / 10));
      ReadPush([Digit(n / 10)], Digit(n % 10));
      assert Small(n) == "" + [Digit(n / 10)] + [Digit(n % 10)];
    } else {
      ReadPadded("", n);
      assert "" + Padded(n) == Padded(n);
    }
  }

  /** The printed count reads back as the count. */
  lemma {:induction false} GroupedReadsBack(n: nat)
    ensures ReadNumber(Grouped(n)) == n
  {
    if n < 1000 {
      ReadSmall(n);
    } else {
      GroupedReadsBack(n / 1000);
      ReadPush(Grouped(n / 1000), ',');
      ReadPadded(Grouped(n / 1000) + ",", n % 1000);
    }
  }

  /** A smaller count never prints longer. */
  lemma {:induction false} GroupedLengthMonotone(m: nat, n: nat)
    requires m <= n
    ensures 1 <= |Grouped(m)| <= |Grouped(n)|
    decreases n
  {
    if n >= 1000 {
      GroupedLengthMonotone(m / 1000, n / 1000);
    }
  }

  function Pow(base: nat, e: nat): nat {
    if e == 0 then 1 else base * Pow(base, e - 1)
  }

  /** k groups of three digits print in at most 4k - 1 characters. */
  lemma {:induction false} GroupedLengthBound(n: nat, k: nat)
    requires k >= 1 && n < Pow(1000, k)
    ensures |Grouped(n)| <= 4 * k - 1
  {
    if n >= 1000 {
      assert Pow(1000, k) == 1000 * Pow(1000, k - 1);
      assert k > 1 by {
        assert Pow(1000, 0) == 1;
      }
      GroupedLengthBound(n / 1000, k - 1);
    }
  }

  function Marker(i: nat, total: nat): string
    requires i < 1000 && total < 1000
  {
    "[" + Small(i) + "/" + Small(total) + "] "
  }

  /** The marker naming how many raw characters could not be floated. */
  function Suffix(rawRemaining: nat): string {
    "\U{2026} +" + Grouped(rawRemaining) + " chars not floated"
  }

  // ---------------------------------------------------------------------------------
  // Slices and their concatenation
  // ---------------------------------------------------------------------------------

  lemma {:induction false} ConcatAppend(parts: seq<string>, p: string)
    ensures Concat(parts + [p]) == Concat(parts) + p
  {
    if parts == [] {
      assert [p][1..] == [];
    } else {
      ConcatAppend(parts[1..], p);
      assert (parts + [p])[1..] == parts[1..] + [p];
    }
  }

  /** The first k pieces make up the escape of the text before their last cut. */
  lemma {:induction false} SlicesConcat(t: string, cuts: seq<nat>, parts: seq<string>, k: nat)
    requires |cuts| == |parts| && k <= |parts| && forall i: nat | i < k :: SliceAt(t, cuts, parts, i)
    ensures From(cuts, k) <= |t| && Concat(parts[..k]) == Escape(t[..From(cuts, k)])
    ensures From(cuts, k) >= k
  {
    if k > 0 {
      SlicesConcat(t, cuts, parts, k - 1);
      assert SliceAt(t, cuts, parts, k - 1);
      assert parts[..k] == parts[..k - 1] + [parts[k - 1]];
      ConcatAppend(parts[..k - 1], parts[k - 1]);
      var from := From(cuts, k - 1);
      assert t[..cuts[k - 1]] == t[..from] + t[from..cuts[k - 1]];
      EscapeConcat(t[..from], t[from..cuts[k - 1]]);
    }
  }

  function Numbered(bodies: seq<string>, total: nat): seq<string>
    requires |bodies| < 1000 && total < 1000
  {
    seq(|bodies|, i requires 0 <= i < |bodies| => Marker(i + 1, total) + bodies[i])
  }

  /** Eight numbered parts, the last one with the marker of what is missing. */
  function MarkedLast(bodies: seq<string>, dropped: nat): (parts: seq<string>)
    requires |bodies| == MAX_PARTS
    ensures |parts| == MAX_PARTS
  {
    var marked := Numbered(bodies, MAX_PARTS);
    marked[..7] + [marked[7] + Suffix(dropped)]
  }

  /** What the recipient sees of a float of `text` with `dropped` raw characters left out:
      the bodies are whole-entity slices that make up the escape of what was kept, and the
      parts are those bodies with their markers. */
  ghost predicate Shows(text: string, parts: seq<string>, dropped: nat, bodies: seq<string>) {
    && |parts| == |bodies| <= MAX_PARTS
    && dropped <= |text|
    && Concat(bodies) == Escape(text[..|text| - dropped])
    && (|Escape(text)| <= CHUNK_LIMIT ==> bodies == parts == [Escape(text)])
    && (|Escape(text)| > CHUNK_LIMIT ==>
          && Aligned(text[..|text| - dropped], bodies)
          && if dropped == 0 then parts == Numbered(bodies, |bodies|)
             else |bodies| == MAX_PARTS && parts == MarkedLast(bodies, dropped))
  }

  /** What the assembled parts are to be, with nothing dropped just when nothing is missing. */
  ghost predicate Built(text: string, parts: seq<string>, dropped: nat, bodies: seq<string>) {
    && 1 <= |parts| <= MAX_PARTS && Shows(text, parts, dropped, bodies)
    && (dropped == 0 <==> |Concat(bodies)| == |Escape(text)|)
    && forall p | p in parts :: |p| <= Max(CHUNK_LIMIT, 11 + |Suffix(|text|)|)
  }

  method Number(bodies: seq<string>, total: nat) returns (parts: seq<string>)
    requires |bodies| <= MAX_PARTS && total <= MAX_PARTS
    ensures parts == Numbered(bodies, total)
  {
    parts := [];
    for i := 0 to |bodies|
      invariant parts == Numbered(bodies, total)[..i]
    {
      parts := parts + [Marker(i + 1, total) + bodies[i]];
    }
  }

  method TotalLength(parts: seq<string>) returns (n: nat)
    ensures n == |Concat(parts)|
  {
    n := 0;
    for i := 0 to |parts|
      invariant n == |Concat(parts[..i])|
    {
      ConcatAppend(parts[..i], parts[i]);
      assert parts[..i + 1] == parts[..i] + [parts[i]];
      n := n + |parts[i]|;
    }
    assert parts[..|parts|] == parts;
  }

  /** The eighth piece, shortened so that the longest possible marker fits behind it. */
  method ShortenLast(last: string, room: int) returns (kept: string)
    requires last != ""
    ensures kept == if |last| > Max(room, 1) then last[..SafeCut(last, Max(room, 1))] else last
  {
    var lastLimit := room;
    if lastLimit < 1 {
      lastLimit := 1;
    }
    kept := last;
    if |last| > lastLimit {
      var cut := SafeCut(last, lastLimit);
      if cut <= 0 {
        assert false;
      }
      kept := last[..cut];
    }
  }

  /** Shortening an entity-aligned piece keeps it entity-aligned. */
  lemma ShortenIsSlice(t: string, room: int, kept: string) returns (n: nat)
    requires t != "" && var last := Escape(t); kept == if |last| > Max(room, 1) then last[..SafeCut(last, Max(room, 1))] else last
    ensures 0 < n <= |t| && kept == Escape(t[..n])
    ensures |kept| <= Max(room, 5)
  {
    var last := Escape(t);
    if |last| > Max(room, 1) {
      SafeCutIsBoundary(t, Max(room, 1));
      n :| n <= |t| && |Escape(t[..n])| == SafeCut(last, Max(room, 1));
      EscapeSplit(t, n);
      assert n > 0 by {
        assert t[..0] == "";
      }
    } else {
      n := |t|;
      assert t[..n] == t;
    }
  }

  /** Replacing the piece after the first k by a shorter slice from the same start keeps
      everything aligned, with a shorter text. */
  lemma ShortenSlices(text: string, cuts: seq<nat>, base: seq<string>, k: nat, n: nat)
    requires Slices(text, cuts, base) && k < |base|
    requires 0 < n && From(cuts, k) + n <= cuts[k] <= |text|
    ensures var kept := From(cuts, k) + n;
            Slices(text[..kept], cuts[..k] + [kept], base[..k] + [Escape(text[From(cuts, k)..kept])])
  {
    var kept := From(cuts, k) + n;
    var all := cuts[..k] + [kept];
    var parts := base[..k] + [Escape(text[From(cuts, k)..kept])];
    forall i: nat | i < |parts|
      ensures SliceAt(text[..kept], all, parts, i)
    {
      assert From(all, i) == From(cuts, i);
      if i < k {
        assert SliceAt(text, cuts, base, i);
        CutsBelow(text, cuts, base, i, k - 1);
        SliceOfPrefix(text, kept, From(cuts, i), cuts[i]);
      } else {
        SliceOfPrefix(text, kept, From(cuts, k), kept);
      }
    }
  }

  lemma SliceOfPrefix(t: string, kept: nat, from: nat, end: nat)
    requires from <= end <= kept <= |t|
    ensures t[..kept][from..end] == t[from..end]
  {
  }

  lemma AlignedConcat(t: string, parts: seq<string>)
    requires Aligned(t, parts)
    ensures Concat(parts) == Escape(t)
  {
    var cuts: seq<nat> :| Slices(t, cuts, parts);
    SlicesConcat(t, cuts, parts, |parts|);
    assert parts[..|parts|] == parts && t[..|t|] == t;
  }

  /** The first eight of more than eight pieces, the last one shortened, are slices of a
      proper prefix of the text. */
  lemma HeadSlices(text: string, base: seq<string>, last: string, room: int) returns (kept: nat)
    requires Aligned(text, base) && |base| > MAX_PARTS
    requires last == if |base[7]| > Max(room, 1) then base[7][..SafeCut(base[7], Max(room, 1))] else base[7]
    ensures kept < |text| && Aligned(text[..kept], base[..7] + [last])
    ensures Concat(base[..7] + [last]) == Escape(text[..kept])
    ensures |last| <= Max(room, 5)
  {
    var cuts: seq<nat> :| Slices(text, cuts, base);
    kept := EighthShortened(text, cuts, base, last, room);
    ShortenSlices(text, cuts, base, 7, kept - cuts[6]);
    SlicesAlign(text[..kept], cuts[..7] + [kept], base[..7] + [last]);
  }

  lemma SlicesAlign(t: string, cuts: seq<nat>, parts: seq<string>)
    requires Slices(t, cuts, parts)
    ensures Aligned(t, parts) && Concat(parts) == Escape(t)
  {
    AlignedConcat(t, parts);
  }

  lemma EighthShortened(text: string, cuts: seq<nat>, base: seq<string>, last: string, room: int) returns (kept: nat)
    requires Slices(text, cuts, base) && |base| > MAX_PARTS
    requires last == if |base[7]| > Max(room, 1) then base[7][..SafeCut(base[7], Max(room, 1))] else base[7]
    ensures cuts[6] < kept <= cuts[7] < |text| && last == Escape(text[cuts[6]..kept])
    ensures |last| <= Max(room, 5)
  {
    assert SliceAt(text, cuts, base, 7);
    CutsIncrease(text, cuts, base, 8);
    var t := text[cuts[6]..cuts[7]];
    var n := ShortenIsSlice(t, room, last);
    kept := cuts[6] + n;
    assert t[..n] == text[cuts[6]..kept];
  }

  lemma CutsIncrease(t: string, cuts: seq<nat>, parts: seq<string>, i: nat)
    requires Slices(t, cuts, parts) && 0 < i < |parts|
    ensures cuts[i - 1] < cuts[i] <= |t|
  {
    assert SliceAt(t, cuts, parts, i);
  }

  lemma {:induction false} CutsBelow(t: string, cuts: seq<nat>, parts: seq<string>, i: nat, j: nat)
    requires Slices(t, cuts, parts) && i <= j < |parts|
    ensures cuts[i] <= cuts[j]
    decreases j - i
  {
    if i < j {
      CutsBelow(t, cuts, parts, i, j - 1);
      CutsIncrease(t, cuts, parts, j);
    }
  }

  /** How many raw characters the pieces show. */
  method FloatedRaw(text: string, head: seq<string>, ghost kept: nat) returns (raw: nat)
    requires kept <= |text| && Concat(head) == Escape(text[..kept])
    ensures raw == kept
  {
    var floatedEscaped := TotalLength(head);
    raw := RawCountForEscaped(text, floatedEscaped);
    assert |Escape(text[..kept])| == floatedEscaped;
  }

  /** The first eight pieces, the last one shortened. They show the first `kept` characters. */
  method FirstEight(text: string, base: seq<string>, limit: nat) returns (head: seq<string>, ghost kept: nat)
    requires Aligned(text, base) && |base| > MAX_PARTS && 5 <= limit && forall p | p in base :: 1 <= |p| <= limit
    ensures Fitting(head, limit, |text|) && kept < |text|
    ensures Aligned(text[..kept], head) && Concat(head) == Escape(text[..kept])
  {
    var room := limit - |Suffix(|text|)|;
    assert base[7] in base;
    var last := ShortenLast(base[7], room);
    head := base[..7] + [last];
    kept := HeadSlices(text, base, last, room);
    FirstEightFit(base, last, limit, |text|);
  }

  method MarkLast(head: seq<string>, dropped: nat) returns (parts: seq<string>)
    requires |head| == MAX_PARTS
    ensures parts == MarkedLast(head, dropped)
  {
    var marked := Number(head, MAX_PARTS);
    parts := marked[..7] + [marked[7] + Suffix(dropped)];
  }

  /** More than eight pieces: float the first eight, the last one shortened and marked. */
  method Truncate(text: string, base: seq<string>, limit: nat)
    returns (parts: seq<string>, dropped: nat, ghost bodies: seq<string>)
    requires |Escape(text)| > CHUNK_LIMIT && Aligned(text, base) && |base| > MAX_PARTS
    requires 5 <= limit <= CHUNK_LIMIT - 6 && forall p | p in base :: 1 <= |p| <= limit
    ensures |parts| == MAX_PARTS && dropped > 0 && Built(text, parts, dropped, bodies)
  {
    var head;
    ghost var kept;
    head, kept := FirstEight(text, base, limit);
    var floatedRaw := FloatedRaw(text, head, kept);
    dropped := |text| - floatedRaw;
    parts := MarkLast(head, dropped);
    bodies := head;
    TruncatedIsBuilt(text, head, kept, limit);
  }

  lemma FirstEightFit(base: seq<string>, last: string, limit: nat, n: nat)
    requires |base| > MAX_PARTS && (forall p | p in base :: |p| <= limit) && |last| <= Max(limit - |Suffix(n)|, 5)
    ensures Fitting(base[..7] + [last], limit, n)
  {
    forall i | 0 <= i < 7
      ensures |(base[..7] + [last])[i]| <= limit
    {
      assert base[i] in base;
    }
  }

  /** Eight pieces, of which the last one leaves room for the marker. */
  ghost predicate Fitting(head: seq<string>, limit: nat, n: nat) {
    && |head| == MAX_PARTS
    && (forall i | 0 <= i < 7 :: |head[i]| <= limit)
    && |head[7]| <= Max(limit - |Suffix(n)|, 5)
  }

  lemma TruncatedIsBuilt(text: string, head: seq<string>, kept: nat, limit: nat)
    requires |Escape(text)| > CHUNK_LIMIT && kept < |text|
    requires limit <= CHUNK_LIMIT - 6 && Fitting(head, limit, |text|)
    requires Aligned(text[..kept], head) && Concat(head) == Escape(text[..kept])
    ensures Built(text, MarkedLast(head, |text| - kept), |text| - kept, head)
  {
    var dropped := |text| - kept;
    DroppedMeansShorter(text, kept);
    GroupedLengthMonotone(dropped, |text|);
    PartLengths(head, limit, dropped, |text|);
    TruncatedShows(text, head, kept);
  }

  lemma TruncatedShows(text: string, head: seq<string>, kept: nat)
    requires |Escape(text)| > CHUNK_LIMIT && kept < |text| && |head| == MAX_PARTS
    requires Aligned(text[..kept], head) && Concat(head) == Escape(text[..kept])
    ensures Shows(text, MarkedLast(head, |text| - kept), |text| - kept, head)
  {
    assert |text| - (|text| - kept) == kept;
  }

  lemma MarkedLength(head: seq<string>, dropped: nat, i: nat)
    requires |head| == MAX_PARTS && i < MAX_PARTS
    ensures |MarkedLast(head, dropped)[i]| == 6 + |head[i]| + (if i == 7 then |Suffix(dropped)| else 0)
  {
    assert |Marker(i + 1, MAX_PARTS)| == 6;
  }

  lemma PartLengths(head: seq<string>, limit: nat, dropped: nat, n: nat)
    requires Fitting(head, limit, n) && |Suffix(dropped)| <= |Suffix(n)|
    ensures forall p | p in MarkedLast(head, dropped) :: |p| <= Max(limit + 6, 11 + |Suffix(n)|)
  {
    var parts := MarkedLast(head, dropped);
    forall p | p in parts
      ensures |p| <= Max(limit + 6, 11 + |Suffix(n)|)
    {
      var i :| 0 <= i < |parts| && parts[i] == p;
      MarkedLength(head, dropped, i);
    }
  }

  lemma NumberedShows(text: string, base: seq<string>, limit: nat)
    requires |Escape(text)| > CHUNK_LIMIT && Aligned(text, base) && |base| <= MAX_PARTS
    requires limit + 6 <= CHUNK_LIMIT && forall p | p in base :: |p| <= limit
    ensures Built(text, Numbered(base, |base|), 0, base)
  {
    assert text[..|text|] == text;
    AlignedConcat(text, base);
    assert base != [] by {
      assert Concat([]) == "";
    }
    var parts := Numbered(base, |base|);
    forall p | p in parts
      ensures |p| <= CHUNK_LIMIT
    {
      var i :| 0 <= i < |parts| && parts[i] == p;
      assert |Marker(i + 1, |base|)| == 6 && base[i] in base;
    }
  }

  /** A text over one part's budget. */
  method BuildMany(text: string, escaped: string) returns (parts: seq<string>, dropped: nat, ghost bodies: seq<string>)
    requires escaped == Escape(text) && |escaped| > CHUNK_LIMIT
    ensures Built(text, parts, dropped, bodies)
  {
    var limit := CHUNK_LIMIT - |Marker(MAX_PARTS, MAX_PARTS)|;
    assert limit == 3994;
    var chunks := ChunkEscaped(escaped, limit);
    var base := chunks.value;
    ChunksOfEscape(text, limit);
    if |base| <= MAX_PARTS {
      NumberedShows(text, base, limit);
      parts := Number(base, |base|);
      dropped, bodies := 0, base;
    } else {
      parts, dropped, bodies := Truncate(text, base, limit);
    }
  }

  /** Split escaped text into at most eight parts with markers, and say how many raw
      characters were dropped. */
  method BuildParts(text: string, escaped: string) returns (parts: seq<string>, total: nat, dropped: nat, ghost bodies: seq<string>)
    requires escaped == Escape(text)
    ensures |parts| == total && Built(text, parts, dropped, bodies)
    ensures |text| < Pow(10, 2901) ==> forall p | p in parts :: |p| <= CHUNK_LIMIT
  {
    if |text| < Pow(10, 2901) {
      PartsFitTheLimit(text);
    }
    if |escaped| <= CHUNK_LIMIT {
      parts, total, dropped, bodies := [escaped], 1, 0, [escaped];
      assert text[..|text|] == text && bodies[1..] == [];
    } else {
      parts, dropped, bodies := BuildMany(text, escaped);
      total := |parts|;
    }
  }

  lemma DroppedMeansShorter(text: string, kept: nat)
    requires kept < |text|
    ensures |Escape(text[..kept])| < |Escape(text)|
  {
    PrefixMonotone(text, kept, |text|);
    assert text[..|text|] == text;
  }

  /** So every part fits the 4000 characters, for any text of fewer than 10^2901 of them. */
  lemma PartsFitTheLimit(text: string)
    requires |text| < Pow(10, 2901)
    ensures 11 + |Suffix(|text|)| <= CHUNK_LIMIT
  {
    PowPower(967);
    GroupedLengthBound(|text|, 967);
  }

  lemma {:induction false} PowPower(k: nat)
    ensures Pow(1000, k) == Pow(10, 3 * k)
  {
    if k > 0 {
      PowPower(k - 1);
      assert Pow(10, 3 * k) == 10 * Pow(10, 3 * k - 1) == 10 * (10 * Pow(10, 3 * k - 2)) == 10 * (10 * (10 * Pow(10, 3 * k - 3)));
    }
  }
}
