/** The open-thread lease list as a value: what each locked operation of the registry does
    to the stored list, and what holds of every list that operations can produce.

    Several gateway processes interleave these operations. A process reads its clock before
    it takes the lock, so each step carries its own `now`, unrelated to any other step's. */
module Leases {
  import opened Common

  const MAX_OUTBOUND_THREADS := 3
  const DEFAULT_LEASE_MINUTES := 30
  const MAX_LEASE_MINUTES := 24 * 60

  datatype Lease = Lease(
    threadId: string,
    openedBy: string,
    peer: string,
    openedAt: real,
    leaseUntil: real,
    leaseMinutes: int,
    replies: nat,
    resized: bool)

  predicate Live(r: Lease, now: real) { r.leaseUntil > now }

  predicate IsParty(r: Lease, who: string) { who == r.openedBy || who == r.peer }

  /** The two names of the lease are exactly a and b, in either order. */
  predicate IsPair(r: Lease, a: string, b: string) {
    {r.openedBy, r.peer} == {a, b}
  }

  predicate SelfLease(r: Lease) { r.openedBy == r.peer }

  function ClampMinutes(minutes: int): int { Max(1, Min(minutes, MAX_LEASE_MINUTES)) }

  function Minutes(m: int): real { (m * 60) as real }

  // ---------------------------------------------------------------------------------
  // Filters over the stored list
  // ---------------------------------------------------------------------------------

  /** The tests by which operations keep or drop records. */
  datatype Sieve =
    | LiveAt(now: real)
    | OtherThan(threadId: string)
    | NotPartyOf(threadId: string, who: string)
    | OpenedBy(agent: string)
    | NotRecord(gone: Lease)

  predicate Passes(t: Sieve, r: Lease) {
    match t
    case LiveAt(now) => Live(r, now)
    case OtherThan(tid) => r.threadId != tid
    case NotPartyOf(tid, who) => !(r.threadId == tid && IsParty(r, who))
    case OpenedBy(a) => r.openedBy == a
    case NotRecord(gone) => r != gone
  }

  function Keep(s: seq<Lease>, t: Sieve): (k: seq<Lease>)
    ensures |k| <= |s|
  {
    if s == [] then []
    else (if Passes(t, s[0]) then [s[0]] else []) + Keep(s[1..], t)
  }

  lemma {:induction false} KeepMembers(s: seq<Lease>, t: Sieve, r: Lease)
    ensures r in Keep(s, t) <==> r in s && Passes(t, r)
  {
    if s != [] {
      KeepMembers(s[1..], t, r);
    }
  }

  lemma {:induction false} KeepAppend(s: seq<Lease>, u: seq<Lease>, t: Sieve)
    ensures Keep(s + u, t) == Keep(s, t) + Keep(u, t)
  {
    if s == [] {
      assert s + u == u;
    } else {
      var kept := Keep(s[1..], t);
      KeepAppend(s[1..], u, t);
      HeadOfConcat(s, u);
      Regroup(if Passes(t, s[0]) then [s[0]] else [], kept, Keep(u, t));
    }
  }

  lemma {:induction false} KeepCommutes(s: seq<Lease>, t: Sieve, u: Sieve)
    ensures Keep(Keep(s, t), u) == Keep(Keep(s, u), t)
  {
    if s != [] {
      KeepCommutes(s[1..], t, u);
      var h := [s[0]];
      KeepAppend(if Passes(t, s[0]) then h else [], Keep(s[1..], t), u);
      KeepAppend(if Passes(u, s[0]) then h else [], Keep(s[1..], u), t);
    }
  }

  lemma {:induction false} KeepAll(s: seq<Lease>, t: Sieve)
    requires forall r | r in s :: Passes(t, r)
    ensures Keep(s, t) == s
  {
    if s != [] {
      KeepAll(s[1..], t);
    }
  }

  /** A record was dropped exactly when the length changed, which is what the code tests. */
  lemma {:induction false} KeepDropsSome(s: seq<Lease>, t: Sieve)
    ensures |Keep(s, t)| == |s| ==> Keep(s, t) == s
    ensures |Keep(s, t)| != |s| <==> exists r :: r in s && !Passes(t, r)
  {
    if s != [] {
      KeepDropsSome(s[1..], t);
      assert forall r :: r in s <==> r == s[0] || r in s[1..];
    }
  }

  // ---------------------------------------------------------------------------------
  // The operations
  // ---------------------------------------------------------------------------------

  function FirstPair(s: seq<Lease>, opener: string, target: string): Option<Lease> {
    if s == [] then None
    else if IsPair(s[0], opener, target) then Some(s[0])
    else FirstPair(s[1..], opener, target)
  }

  predicate Blocks(r: Lease, opener: string, target: string) {
    r.peer == target && r.openedBy != opener && r.openedBy != target
  }

  function FirstBlocker(s: seq<Lease>, opener: string, target: string): Option<Lease> {
    if s == [] then None
    else if Blocks(s[0], opener, target) then Some(s[0])
    else FirstBlocker(s[1..], opener, target)
  }

  /** What `claim` answers. There is no outcome for its merge branch: see MergeIsUnreachable. */
  datatype Outcome =
    | Traffic(lease: Lease)
    | Busy(blocker: Lease)
    | Capped(threads: seq<string>, peers: seq<string>)
    | Granted(lease: Lease)
    | Degraded
    | BadToken

  function NewLease(tid: string, opener: string, target: string, minutes: int, now: real): Lease {
    var m := ClampMinutes(minutes);
    Lease(tid, opener, target, now, now + Minutes(m), m, 0, false)
  }

  function Ids(s: seq<Lease>): seq<string> {
    if s == [] then [] else [s[0].threadId] + Ids(s[1..])
  }

  function Peers(s: seq<Lease>): seq<string> {
    if s == [] then [] else [s[0].peer] + Peers(s[1..])
  }

  /** The gate's decision, on the live records only. */
  function Decide(live: seq<Lease>, tid: string, opener: string, target: string, minutes: int, now: real): Outcome {
    var pair := FirstPair(live, opener, target);
    var blocker := FirstBlocker(live, opener, target);
    var outbound := Keep(live, OpenedBy(opener));
    if pair.Some? then Traffic(pair.value)
    else if blocker.Some? then Busy(blocker.value)
    else if |outbound| >= MAX_OUTBOUND_THREADS then Capped(Ids(outbound), Peers(outbound))
    else Granted(NewLease(tid, opener, target, minutes, now))
  }

  /** The live records `claim` and `expire` work on: an unreadable file counts as empty. */
  function ReadLive(s: seq<Lease>, now: real, io: FileIO): seq<Lease> {
    if io.readOk then Keep(s, LiveAt(now)) else []
  }

  function ClaimOutcome(s: seq<Lease>, tid: string, opener: string, target: string, minutes: int, now: real, io: FileIO): Outcome {
    if !(ValidToken(tid) && ValidToken(opener) && ValidToken(target)) then BadToken
    else if !io.lockOk then Degraded
    else
      var out := Decide(ReadLive(s, now, io), tid, opener, target, minutes, now);
      if out.Granted? && !io.writeOk then Degraded else out
  }

  function ClaimStore(s: seq<Lease>, tid: string, opener: string, target: string, minutes: int, now: real, io: FileIO): seq<Lease> {
    var out := ClaimOutcome(s, tid, opener, target, minutes, now, io);
    if out.Granted? then ReadLive(s, now, io) + [out.lease] else s
  }

  function Touched(r: Lease, now: real, resize: Option<int>): Lease {
    if resize.Some? && !r.resized then
      var m := ClampMinutes(resize.value);
      r.(replies := r.replies + 1, leaseMinutes := m, leaseUntil := now + Minutes(m), resized := true)
    else r.(replies := r.replies + 1)
  }

  /** Only the first live record with the id is touched. */
  function TouchFirst(s: seq<Lease>, tid: string, now: real, resize: Option<int>): (u: seq<Lease>)
    ensures |u| == |s|
  {
    if s == [] then []
    else if s[0].threadId == tid && Live(s[0], now) then [Touched(s[0], now, resize)] + s[1..]
    else [s[0]] + TouchFirst(s[1..], tid, now, resize)
  }

  function FirstLive(s: seq<Lease>, tid: string, now: real): Option<Lease> {
    if s == [] then None
    else if s[0].threadId == tid && Live(s[0], now) then Some(s[0])
    else FirstLive(s[1..], tid, now)
  }

  /** One locked operation of some process. `sweeps` says whether the unlocked first read of
      `expire` saw a lapsed record; only then does it take the lock. */
  datatype Step =
    | Claim(threadId: string, opener: string, target: string, minutes: int, now: real, io: FileIO)
    | Touch(threadId: string, resize: Option<int>, now: real, io: FileIO)
    | Expire(now: real, sweeps: bool, io: FileIO)
    | Release(threadId: string, io: FileIO)
    | ReleaseIfParty(threadId: string, who: string, io: FileIO)
    | ReleaseIfPartyStatus(threadId: string, who: string, io: FileIO)

  function Apply(s: seq<Lease>, step: Step): seq<Lease> {
    match step
    case Claim(tid, opener, target, minutes, now, io) => ClaimStore(s, tid, opener, target, minutes, now, io)
    case Touch(tid, resize, now, io) => if io == HEALTHY then TouchFirst(s, tid, now, resize) else s
    case Expire(now, sweeps, io) => if sweeps && io.lockOk && io.writeOk then ReadLive(s, now, io) else s
    case Release(tid, io) => if io == HEALTHY then Keep(s, OtherThan(tid)) else s
    case ReleaseIfParty(tid, who, io) => if io == HEALTHY then Keep(s, NotPartyOf(tid, who)) else s
    case ReleaseIfPartyStatus(tid, who, io) => if io == HEALTHY then Keep(s, NotPartyOf(tid, who)) else s
  }

  /** The list after all processes' steps, in the order in which they took the lock. */
  function Run(s: seq<Lease>, steps: seq<Step>): seq<Lease> {
    if steps == [] then s
    else Apply(Run(s, steps[..|steps| - 1]), steps[|steps| - 1])
  }

  // ---------------------------------------------------------------------------------
  // Safety of every interleaving
  // ---------------------------------------------------------------------------------

  /** Two stored leases that must not coexist: same pair, or a second caller on one recipient. */
  predicate Clash(a: Lease, b: Lease) {
    || {a.openedBy, a.peer} == {b.openedBy, b.peer}
    || (a.peer == b.peer && !SelfLease(a) && !SelfLease(b))
  }

  ghost predicate Apart(s: seq<Lease>) {
    forall i, j | 0 <= i < j < |s| :: !Clash(s[i], s[j])
  }

  ghost predicate WithinCap(s: seq<Lease>) {
    forall a: string :: |Keep(s, OpenedBy(a))| <= MAX_OUTBOUND_THREADS
  }

  ghost predicate Safe(s: seq<Lease>) { Apart(s) && WithinCap(s) }

  lemma {:induction false} FirstPairIsExact(s: seq<Lease>, opener: string, target: string)
    ensures FirstPair(s, opener, target).Some? <==> exists r :: r in s && IsPair(r, opener, target)
    ensures FirstPair(s, opener, target).Some? ==>
              FirstPair(s, opener, target).value in s && IsPair(FirstPair(s, opener, target).value, opener, target)
  {
    if s != [] {
      FirstPairIsExact(s[1..], opener, target);
      assert forall r :: r in s <==> r == s[0] || r in s[1..];
    }
  }

  lemma {:induction false} FirstBlockerIsExact(s: seq<Lease>, opener: string, target: string)
    ensures FirstBlocker(s, opener, target).Some? <==> exists r :: r in s && Blocks(r, opener, target)
    ensures FirstBlocker(s, opener, target).Some? ==>
              FirstBlocker(s, opener, target).value in s && Blocks(FirstBlocker(s, opener, target).value, opener, target)
  {
    if s != [] {
      FirstBlockerIsExact(s[1..], opener, target);
      assert forall r :: r in s <==> r == s[0] || r in s[1..];
    }
  }

  lemma {:induction false} KeepApart(s: seq<Lease>, t: Sieve)
    requires Apart(s)
    ensures Apart(Keep(s, t))
  {
    if s != [] {
      var tail := Keep(s[1..], t);
      KeepApart(s[1..], t);
      forall j | 0 <= j < |tail|
        ensures !Clash(s[0], tail[j])
      {
        KeepMembers(s[1..], t, tail[j]);
        var k :| 0 <= k < |s[1..]| && s[1..][k] == tail[j];
        assert s[k + 1] == tail[j];
      }
    }
  }

  lemma {:induction false} KeepWithinCap(s: seq<Lease>, t: Sieve)
    requires WithinCap(s)
    ensures WithinCap(Keep(s, t))
  {
    forall a: string
      ensures |Keep(Keep(s, t), OpenedBy(a))| <= MAX_OUTBOUND_THREADS
    {
      KeepCommutes(s, t, OpenedBy(a));
    }
  }

  /** Touching a record leaves every record's identity alone, and resizes only a live record
      that was never resized before. */
  lemma {:induction false} TouchEffect(s: seq<Lease>, tid: string, now: real, resize: Option<int>, i: nat)
    requires i < |s|
    ensures var u := TouchFirst(s, tid, now, resize)[i];
            || u == s[i]
            || (Live(s[i], now) && s[i].threadId == tid && u == Touched(s[i], now, resize))
  {
    if !(s[0].threadId == tid && Live(s[0], now)) && i > 0 {
      TouchEffect(s[1..], tid, now, resize, i - 1);
    }
  }

  /** A touch moves one record at most: the first live one with the id counts one more reply,
      and on its first resizing touch, never again, gets a new expiry, a minute to a day ahead. */
  lemma {:induction false} TouchMovesOneRecord(s: seq<Lease>, tid: string, now: real, resize: Option<int>)
    ensures FirstLive(s, tid, now).None? ==> TouchFirst(s, tid, now, resize) == s
    ensures FirstLive(s, tid, now).Some? ==>
              exists i :: 0 <= i < |s| && TouchedAt(s, TouchFirst(s, tid, now, resize), i, tid, now, resize)
  {
    if s != [] {
      var u := TouchFirst(s, tid, now, resize);
      if s[0].threadId == tid && Live(s[0], now) {
        assert TouchedAt(s, u, 0, tid, now, resize);
      } else {
        TouchMovesOneRecord(s[1..], tid, now, resize);
        if FirstLive(s, tid, now).Some? {
          var tail := TouchFirst(s[1..], tid, now, resize);
          var i :| 0 <= i < |s[1..]| && TouchedAt(s[1..], tail, i, tid, now, resize);
          TouchedFurtherOn(s, tail, i, tid, now, resize);
        }
      }
    }
  }

  /** u is s with record i touched, and no earlier record of s qualified. */
  ghost predicate TouchedAt(s: seq<Lease>, u: seq<Lease>, i: nat, tid: string, now: real, resize: Option<int>)
    requires i < |s|
  {
    && |u| == |s|
    && (forall j | 0 <= j < |s| && j != i :: u[j] == s[j])
    && (forall j | 0 <= j < i :: !(s[j].threadId == tid && Live(s[j], now)))
    && s[i].threadId == tid && Live(s[i], now)
    && TouchTerms(s[i], u[i], now, resize)
  }

  ghost predicate TouchTerms(r: Lease, u: Lease, now: real, resize: Option<int>) {
    && u.replies == r.replies + 1
    && (u.threadId, u.openedBy, u.peer, u.openedAt) == (r.threadId, r.openedBy, r.peer, r.openedAt)
    && u.resized == (r.resized || resize.Some?)
    && (r.resized || resize.None? ==> u.leaseUntil == r.leaseUntil && u.leaseMinutes == r.leaseMinutes)
    && (!r.resized && resize.Some? ==>
          && u.leaseUntil == now + (60 * u.leaseMinutes) as real
          && u.leaseMinutes == if resize.value < 1 then 1 else if resize.value > 1440 then 1440 else resize.value)
  }

  lemma {:induction false} FirstLiveIsLive(s: seq<Lease>, tid: string, now: real)
    ensures var r := FirstLive(s, tid, now);
            && (r.Some? ==> r.value in s && Live(r.value, now) && r.value.threadId == tid)
            && (r.Some? <==> exists x :: x in s && Live(x, now) && x.threadId == tid)
  {
    if s != [] {
      FirstLiveIsLive(s[1..], tid, now);
      assert forall x :: x in s <==> x == s[0] || x in s[1..];
    }
  }

  /** What a touch step stores. The list moves if and only if the registry works and holds a live
      record of the id, and then it is the first one that moves. */
  ghost predicate TouchStored(s: seq<Lease>, u: seq<Lease>, tid: string, resize: Option<int>, now: real, io: FileIO) {
    && (u != s <==> io == HEALTHY && exists r :: r in s && Live(r, now) && r.threadId == tid)
    && (u != s ==> exists i: nat :: i < |s| && TouchedAt(s, u, i, tid, now, resize))
  }

  lemma TouchStepStores(s: seq<Lease>, tid: string, resize: Option<int>, now: real, io: FileIO)
    ensures TouchStored(s, Apply(s, Step.Touch(tid, resize, now, io)), tid, resize, now, io)
  {
    TouchMovesOneRecord(s, tid, now, resize);
    FirstLiveIsLive(s, tid, now);
  }

  lemma TouchedFurtherOn(s: seq<Lease>, tail: seq<Lease>, i: nat, tid: string, now: real, resize: Option<int>)
    requires s != [] && i < |s[1..]| && TouchedAt(s[1..], tail, i, tid, now, resize)
    requires !(s[0].threadId == tid && Live(s[0], now))
    ensures TouchedAt(s, [s[0]] + tail, i + 1, tid, now, resize)
  {
    var u := [s[0]] + tail;
    forall j | 0 <= j < |s|
      ensures j != i + 1 ==> u[j] == s[j]
      ensures j < i + 1 ==> !(s[j].threadId == tid && Live(s[j], now))
    {
      if j > 0 {
        assert s[j] == s[1..][j - 1] && u[j] == tail[j - 1];
      }
    }
  }

  lemma {:induction false} TouchKeepsOpeners(s: seq<Lease>, tid: string, now: real, resize: Option<int>, a: string)
    ensures |Keep(TouchFirst(s, tid, now, resize), OpenedBy(a))| == |Keep(s, OpenedBy(a))|
  {
    if s != [] {
      TouchKeepsOpeners(s[1..], tid, now, resize, a);
      assert ([Touched(s[0], now, resize)] + s[1..])[1..] == s[1..];
    }
  }

  lemma TouchSafe(s: seq<Lease>, tid: string, now: real, resize: Option<int>)
    requires Safe(s)
    ensures Safe(TouchFirst(s, tid, now, resize))
  {
    var u := TouchFirst(s, tid, now, resize);
    forall i, j | 0 <= i < j < |u|
      ensures !Clash(u[i], u[j])
    {
      TouchEffect(s, tid, now, resize, i);
      TouchEffect(s, tid, now, resize, j);
    }
    forall a: string
      ensures |Keep(u, OpenedBy(a))| <= MAX_OUTBOUND_THREADS
    {
      TouchKeepsOpeners(s, tid, now, resize, a);
    }
  }

  /** A granted lease clashes with nothing that the write keeps. */
  lemma GrantSafe(live: seq<Lease>, tid: string, opener: string, target: string, minutes: int, now: real)
    requires Safe(live)
    requires Decide(live, tid, opener, target, minutes, now).Granted?
    ensures Safe(live + [NewLease(tid, opener, target, minutes, now)])
  {
    var r := NewLease(tid, opener, target, minutes, now);
    FirstPairIsExact(live, opener, target);
    FirstBlockerIsExact(live, opener, target);
    forall i | 0 <= i < |live|
      ensures !Clash(live[i], r)
    {
      assert !IsPair(live[i], opener, target) && !Blocks(live[i], opener, target);
    }
    forall a: string
      ensures |Keep(live + [r], OpenedBy(a))| <= MAX_OUTBOUND_THREADS
    {
      KeepAppend(live, [r], OpenedBy(a));
    }
  }

  lemma StepSafe(s: seq<Lease>, step: Step)
    requires Safe(s)
    ensures Safe(Apply(s, step))
  {
    match step
    case Claim(tid, opener, target, minutes, now, io) =>
      KeepApart(s, LiveAt(now));
      KeepWithinCap(s, LiveAt(now));
      if ClaimOutcome(s, tid, opener, target, minutes, now, io).Granted? {
        GrantSafe(ReadLive(s, now, io), tid, opener, target, minutes, now);
      }
    case Touch(tid, resize, now, io) => TouchSafe(s, tid, now, resize);
    case Expire(now, sweeps, io) =>
      KeepApart(s, LiveAt(now));
      KeepWithinCap(s, LiveAt(now));
    case Release(tid, io) =>
      KeepApart(s, OtherThan(tid));
      KeepWithinCap(s, OtherThan(tid));
    case ReleaseIfParty(tid, who, io) =>
      KeepApart(s, NotPartyOf(tid, who));
      KeepWithinCap(s, NotPartyOf(tid, who));
    case ReleaseIfPartyStatus(tid, who, io) =>
      KeepApart(s, NotPartyOf(tid, who));
      KeepWithinCap(s, NotPartyOf(tid, who));
  }

  /** Whatever the interleaving, the clocks and the I/O faults: no two stored leases share a
      pair, nobody is the peer of two non-self leases, nobody has opened more than three. */
  lemma {:induction false} EveryRunIsSafe(steps: seq<Step>)
    ensures Safe(Run([], steps))
  {
    if steps != [] {
      var before := steps[..|steps| - 1];
      EveryRunIsSafe(before);
      StepSafe(Run([], before), steps[|steps| - 1]);
    }
  }

  // ---------------------------------------------------------------------------------
  // Where a stored lease comes from, and how long it can last
  // ---------------------------------------------------------------------------------

  /** Step i is the claim that granted r. */
  ghost predicate GrantedAt(steps: seq<Step>, i: nat, r: Lease) {
    && i < |steps| && steps[i].Claim?
    && var c := steps[i];
    && r.threadId == c.threadId && r.openedBy == c.opener && r.peer == c.target && r.openedAt == c.now
    && ClaimOutcome(Run([], steps[..i]), c.threadId, c.opener, c.target, c.minutes, c.now, c.io).Granted?
  }

  /** The expiry given by the grant itself. */
  function GrantedUntil(c: Step): real
    requires c.Claim?
  {
    c.now + Minutes(ClampMinutes(c.minutes))
  }

  /** Step j is the touch that resized r, made while its own clock found r still live. */
  ghost predicate ResizedAt(steps: seq<Step>, i: nat, j: nat, r: Lease) {
    && i < j < |steps| && steps[i].Claim?
    && steps[j].Touch? && steps[j].threadId == r.threadId && steps[j].resize.Some?
    && steps[j].now < GrantedUntil(steps[i])
    && r.leaseUntil == steps[j].now + Minutes(ClampMinutes(steps[j].resize.value))
  }

  /** r's expiry is the one its grant gave it, or the one a single later touch gave it. */
  ghost predicate Explained(steps: seq<Step>, i: nat, r: Lease) {
    && GrantedAt(steps, i, r)
    && if r.resized then exists j: nat :: ResizedAt(steps, i, j, r)
       else r.leaseUntil == GrantedUntil(steps[i])
  }

  lemma ExplainedLonger(steps: seq<Step>, i: nat, r: Lease, u: Lease)
    requires steps != [] && Explained(steps[..|steps| - 1], i, r)
    requires u == r.(replies := u.replies)
    ensures Explained(steps, i, u)
  {
    var before := steps[..|steps| - 1];
    assert before[..i] == steps[..i];
    if r.resized {
      var j: nat :| ResizedAt(before, i, j, r);
      assert ResizedAt(steps, i, j, u);
    }
  }

  lemma ExplainedTouch(steps: seq<Step>, i: nat, r: Lease)
    requires steps != [] && Explained(steps[..|steps| - 1], i, r)
    requires var c := steps[|steps| - 1];
             c.Touch? && c.threadId == r.threadId && Live(r, c.now)
    ensures var c := steps[|steps| - 1]; Explained(steps, i, Touched(r, c.now, c.resize))
  {
    var c := steps[|steps| - 1];
    var u := Touched(r, c.now, c.resize);
    if c.resize.Some? && !r.resized {
      assert steps[..|steps| - 1][..i] == steps[..i];
      assert ResizedAt(steps, i, |steps| - 1, u);
    } else {
      ExplainedLonger(steps, i, r, u);
    }
  }

  /** Every stored lease is one grant, extended at most once, and only by a touch that found
      it live: claims never extend a lease and no touch revives one it judges expired. */
  lemma {:induction false} Provenance(steps: seq<Step>, r: Lease)
    requires r in Run([], steps)
    ensures exists i: nat :: Explained(steps, i, r)
  {
    if steps != [] {
      var n := |steps| - 1;
      var before := steps[..n];
      var s := Run([], before);
      var c := steps[n];
      if c.Claim? && r == LeaseAsked(c) && r !in s {
        assert Explained(steps, n, r);
      } else if c.Touch? && r !in s {
        var k :| 0 <= k < |Run([], steps)| && Run([], steps)[k] == r;
        TouchEffect(s, c.threadId, c.now, c.resize, k);
        Provenance(before, s[k]);
        var i: nat :| Explained(before, i, s[k]);
        ExplainedTouch(steps, i, s[k]);
      } else {
        StepMembers(s, c, r);
        Provenance(before, r);
        var i: nat :| Explained(before, i, r);
        ExplainedLonger(steps, i, r, r);
      }
    }
  }

  function LeaseAsked(c: Step): Lease
    requires c.Claim?
  {
    NewLease(c.threadId, c.opener, c.target, c.minutes, c.now)
  }

  /** A step other than a touch stores nothing new but the lease it grants. */
  lemma StepMembers(s: seq<Lease>, step: Step, r: Lease)
    requires r in Apply(s, step)
    ensures || r in s
            || step.Touch?
            || (step.Claim? && r == LeaseAsked(step)
                && ClaimOutcome(s, step.threadId, step.opener, step.target, step.minutes, step.now, step.io).Granted?)
  {
    match step
    case Claim(_, _, _, _, now, _) => KeepMembers(s, LiveAt(now), r);
    case Touch(_, _, _, _) =>
    case Expire(now, _, _) => KeepMembers(s, LiveAt(now), r);
    case Release(tid, _) => KeepMembers(s, OtherThan(tid), r);
    case ReleaseIfParty(tid, who, _) => KeepMembers(s, NotPartyOf(tid, who), r);
    case ReleaseIfPartyStatus(tid, who, _) => KeepMembers(s, NotPartyOf(tid, who), r);
  }

  /** Which stored records a step other than a touch keeps, exactly. A claim or a sweep whose
      read fails takes the list for empty: if its write then succeeds, every record is gone. */
  lemma StepKeepsExactly(s: seq<Lease>, step: Step, r: Lease)
    requires !step.Touch? && r in s
    ensures r in Apply(s, step) <==>
            match step
            case Claim(tid, opener, target, minutes, now, io) =>
              var out := ClaimOutcome(s, tid, opener, target, minutes, now, io);
              !out.Granted? || (io.readOk && Live(r, now)) || r == out.lease
            case Expire(now, sweeps, io) => !(sweeps && io.lockOk && io.writeOk) || (io.readOk && Live(r, now))
            case Release(tid, io) => io != HEALTHY || r.threadId != tid
            case ReleaseIfParty(tid, who, io) => io != HEALTHY || r.threadId != tid || !IsParty(r, who)
            case ReleaseIfPartyStatus(tid, who, io) => io != HEALTHY || r.threadId != tid || !IsParty(r, who)
            case Touch(_, _, _, _) => true
  {
    match step
    case Claim(_, _, _, _, now, _) => KeepMembers(s, LiveAt(now), r);
    case Touch(_, _, _, _) =>
    case Expire(now, _, _) => KeepMembers(s, LiveAt(now), r);
    case Release(tid, _) => KeepMembers(s, OtherThan(tid), r);
    case ReleaseIfParty(tid, who, _) => KeepMembers(s, NotPartyOf(tid, who), r);
    case ReleaseIfPartyStatus(tid, who, _) => KeepMembers(s, NotPartyOf(tid, who), r);
  }

  /** With no assumption on any clock, a lease ends less than two days after it was opened. */
  lemma LeaseLifeIsBounded(steps: seq<Step>, r: Lease)
    requires r in Run([], steps)
    ensures r.leaseUntil - r.openedAt < Minutes(2 * MAX_LEASE_MINUTES)
    ensures !r.resized ==> r.leaseUntil - r.openedAt <= Minutes(MAX_LEASE_MINUTES)
  {
    Provenance(steps, r);
    var i: nat :| Explained(steps, i, r);
    if r.resized {
      var j: nat :| ResizedAt(steps, i, j, r);
    }
  }

  /** So nobody can hold a recipient busy: a refusal names a blocker opened by an earlier
      grant less than two days before the refusing clock. */
  lemma BusyHoldIsBounded(steps: seq<Step>, tid: string, opener: string, target: string, minutes: int, now: real, io: FileIO)
    requires ClaimOutcome(Run([], steps), tid, opener, target, minutes, now, io).Busy?
    ensures var b := ClaimOutcome(Run([], steps), tid, opener, target, minutes, now, io).blocker;
            && now < b.openedAt + Minutes(2 * MAX_LEASE_MINUTES)
            && exists i: nat :: GrantedAt(steps, i, b)
  {
    var s := Run([], steps);
    var b := ClaimOutcome(s, tid, opener, target, minutes, now, io).blocker;
    FirstBlockerIsExact(ReadLive(s, now, io), opener, target);
    KeepMembers(s, LiveAt(now), b);
    LeaseLifeIsBounded(steps, b);
    Provenance(steps, b);
    var i: nat :| Explained(steps, i, b);
    assert GrantedAt(steps, i, b);
  }
}
