/** What the busy gate decides, and what a failed send leaves behind in the lease list. */
module Gate {
  import opened Common
  import opened Leases

  ghost predicate SharesLive(s: seq<Lease>, now: real, a: string, b: string) {
    exists r :: r in s && Live(r, now) && IsPair(r, a, b)
  }

  /** A third party is talking to the target. */
  ghost predicate HeldByThird(s: seq<Lease>, now: real, opener: string, target: string) {
    exists r :: r in s && Live(r, now) && Blocks(r, opener, target)
  }

  function LiveOutbound(s: seq<Lease>, now: real, opener: string): nat {
    |Keep(Keep(s, LiveAt(now)), OpenedBy(opener))|
  }

  predicate Refused(out: Outcome) { out.Busy? || out.Capped? }

  predicate TokensValid(tid: string, opener: string, target: string) {
    ValidToken(tid) && ValidToken(opener) && ValidToken(target)
  }

  /** The gate, restated over the whole stored list without any loop or order. */
  lemma GateIsExact(s: seq<Lease>, tid: string, opener: string, target: string, minutes: int, now: real, io: FileIO)
    requires TokensValid(tid, opener, target) && io.lockOk && io.readOk
    ensures var out := ClaimOutcome(s, tid, opener, target, minutes, now, io);
            && (Refused(out) <==>
                !SharesLive(s, now, opener, target)
                && (HeldByThird(s, now, opener, target) || LiveOutbound(s, now, opener) >= MAX_OUTBOUND_THREADS))
            && (out.Traffic? <==> SharesLive(s, now, opener, target))
            && (out.Busy? <==> !SharesLive(s, now, opener, target) && HeldByThird(s, now, opener, target))
            && (out.Traffic? ==> out.lease in s && Live(out.lease, now) && IsPair(out.lease, opener, target))
            && (out.Busy? ==> out.blocker in s && Live(out.blocker, now) && Blocks(out.blocker, opener, target))
  {
    var live := Keep(s, LiveAt(now));
    FirstPairIsExact(live, opener, target);
    FirstBlockerIsExact(live, opener, target);
    forall r: Lease
      ensures r in live <==> r in s && Live(r, now)
    {
      KeepMembers(s, LiveAt(now), r);
    }
  }

  /** What a grant grants: the pair asked for, from now on, for a minute to a day. */
  lemma GrantTerms(s: seq<Lease>, tid: string, opener: string, target: string, minutes: int, now: real, io: FileIO)
    requires ClaimOutcome(s, tid, opener, target, minutes, now, io).Granted?
    ensures var r := ClaimOutcome(s, tid, opener, target, minutes, now, io).lease;
            && (r.threadId, r.openedBy, r.peer, r.openedAt) == (tid, opener, target, now)
            && r.leaseUntil == now + (60 * r.leaseMinutes) as real
            && r.leaseMinutes == (if minutes < 1 then 1 else if minutes > 1440 then 1440 else minutes)
            && r.replies == 0 && !r.resized && Live(r, now)
            && ClaimStore(s, tid, opener, target, minutes, now, io) == ReadLive(s, now, io) + [r]
  {
  }

  /** What faults do to a claim. Only a bad token is refused with an error, and nothing else is ever in
      the way of the message: without the lock, or with a grant that cannot be written, the claim is
      let go; and when the list cannot be read the claim is granted and starts a new list. */
  lemma FaultedClaim(s: seq<Lease>, tid: string, opener: string, target: string, minutes: int, now: real, io: FileIO)
    ensures var claim := Step.Claim(tid, opener, target, minutes, now, io);
            var out := ClaimOutcome(s, tid, opener, target, minutes, now, io);
            && (out.BadToken? <==> !TokensValid(tid, opener, target))
            && (out.Degraded? <==>
                  TokensValid(tid, opener, target)
                  && (!io.lockOk
                      || (!io.writeOk && ClaimOutcome(s, tid, opener, target, minutes, now, FileIO(true, io.readOk, true)).Granted?)))
            && (out.BadToken? || out.Degraded? || Refused(out) || out.Traffic? ==> Apply(s, claim) == s)
            && (TokensValid(tid, opener, target) && io == FileIO(true, false, true) ==>
                  out.Granted? && Apply(s, claim) == [out.lease])
  {
    if !io.readOk {
      assert Keep([], OpenedBy(opener)) == [];
    }
  }

  /** A refusal at the cap names, thread by thread, live leases that the sender opened. */
  lemma CapNamesItsThreads(s: seq<Lease>, tid: string, opener: string, target: string, minutes: int, now: real, io: FileIO, i: nat)
    requires ClaimOutcome(s, tid, opener, target, minutes, now, io).Capped?
    ensures var out := ClaimOutcome(s, tid, opener, target, minutes, now, io);
            && |out.threads| == |out.peers| == LiveOutbound(s, now, opener) >= MAX_OUTBOUND_THREADS
            && (i < |out.threads| ==>
                  exists r :: r in s && Live(r, now) && r.openedBy == opener && r.threadId == out.threads[i] && r.peer == out.peers[i])
  {
    var live := Keep(s, LiveAt(now));
    var outbound := Keep(live, OpenedBy(opener));
    NamesOf(outbound, 0);
    if i < |outbound| {
      NamesOf(outbound, i);
      KeepMembers(live, OpenedBy(opener), outbound[i]);
      KeepMembers(s, LiveAt(now), outbound[i]);
    }
  }

  lemma {:induction false} NamesOf(s: seq<Lease>, i: nat)
    ensures |Ids(s)| == |Peers(s)| == |s|
    ensures i < |s| ==> Ids(s)[i] == s[i].threadId && Peers(s)[i] == s[i].peer
  {
    if s != [] {
      NamesOf(s[1..], if i > 0 then i - 1 else 0);
    }
  }

  /** The third loop of `claim` extends a lease of this opener with this target. It is never
      reached with such a lease in the list: the pair check answers first. */
  lemma MergeIsUnreachable(live: seq<Lease>, opener: string, target: string)
    requires FirstPair(live, opener, target).None?
    ensures forall r | r in live :: !(r.openedBy == opener && r.peer == target)
  {
    FirstPairIsExact(live, opener, target);
    forall r | r in live
      ensures !(r.openedBy == opener && r.peer == target)
    {
      assert !IsPair(r, opener, target);
    }
  }

  /** Opening a thread never makes its opener busy: whatever the list, the claim, its faults and the
      clocks, a later caller of the opener meets no third party that it would not have met anyway.
      If the claim read the list and the caller's clock is not behind the claim's, it meets exactly
      the same ones. */
  lemma OpeningIsNotBusy(s: seq<Lease>, mine: Step, caller: string, later: real)
    requires mine.Claim?
    ensures HeldByThird(Apply(s, mine), later, caller, mine.opener) ==> HeldByThird(s, later, caller, mine.opener)
    ensures mine.io.readOk && later >= mine.now ==>
              (HeldByThird(Apply(s, mine), later, caller, mine.opener) <==> HeldByThird(s, later, caller, mine.opener))
  {
    var u := Apply(s, mine);
    forall r: Lease | Live(r, later) && Blocks(r, caller, mine.opener)
      ensures r in u ==> r in s
      ensures mine.io.readOk && later >= mine.now ==> (r in s ==> r in u)
    {
      KeepMembers(s, LiveAt(mine.now), r);
    }
  }

  /** Two senders race for a recipient that either alone would get. The lock orders them, and
      the second is refused on account of the first, as long as the first one's lease is live
      by the second one's clock. */
  lemma RaceHasOneWinner(s: seq<Lease>, first: Step, second: Step)
    requires first.Claim? && second.Claim? && first.io == HEALTHY && second.io == HEALTHY
    requires first.target == second.target && first.opener != second.opener
    requires first.target != first.opener && second.target != second.opener
    requires ClaimOutcome(s, first.threadId, first.opener, first.target, first.minutes, first.now, first.io).Granted?
    requires ClaimOutcome(s, second.threadId, second.opener, second.target, second.minutes, second.now, second.io).Granted?
    ensures var won := LeaseAsked(first);
            var u := Apply(s, first);
            var out := ClaimOutcome(u, second.threadId, second.opener, second.target, second.minutes, second.now, second.io);
            && won in u
            && (if Live(won, second.now) then out == Busy(won) && Apply(u, second) == u else out.Granted?)
  {
    var won := LeaseAsked(first);
    var u := Apply(s, first);
    GateIsExact(s, second.threadId, second.opener, second.target, second.minutes, second.now, second.io);
    GateIsExact(u, second.threadId, second.opener, second.target, second.minutes, second.now, second.io);
    forall r: Lease
      ensures r in u <==> r == won || (r in s && Live(r, first.now))
    {
      KeepMembers(s, LiveAt(first.now), r);
    }
    NotTheirPair(won, second.opener, second.target);
    if Live(won, second.now) {
      assert Blocks(won, second.opener, second.target);
    } else {
      LapsedWinnerCountsForNothing(s, first, second);
    }
  }

  lemma NotTheirPair(r: Lease, a: string, b: string)
    requires r.openedBy != a && r.openedBy != b
    ensures !IsPair(r, a, b)
  {
    assert r.openedBy in {r.openedBy, r.peer} && r.openedBy !in {a, b};
  }

  /** By a clock that finds the granted lease lapsed, nobody has more threads open than before. */
  lemma LapsedWinnerCountsForNothing(s: seq<Lease>, first: Step, second: Step)
    requires first.Claim? && second.Claim? && first.io == HEALTHY && IsGrant(s, first)
    requires !Live(LeaseAsked(first), second.now)
    ensures LiveOutbound(Apply(s, first), second.now, second.opener) <= LiveOutbound(s, second.now, second.opener)
  {
    var kept := Keep(s, LiveAt(first.now));
    KeepAppend(kept, [LeaseAsked(first)], LiveAt(second.now));
    assert Keep(Apply(s, first), LiveAt(second.now)) == Keep(kept, LiveAt(second.now));
    KeepCommutes(s, LiveAt(first.now), LiveAt(second.now));
    KeepCommutes(Keep(s, LiveAt(second.now)), LiveAt(first.now), OpenedBy(second.opener));
  }

  /** The relay skips `claim` when the `ref` names a live lease of the very same pair, which it
      looks up without the lock, in a list and at a clock of its own. By then the list may be
      another: the shortcut is what `claim` would do if and only if that lease is still there. */
  lemma RefShortcutIsHarmless(seen: seq<Lease>, ref: string, seenNow: real,
                              s: seq<Lease>, tid: string, opener: string, target: string, minutes: int, now: real)
    requires Apart(s) && TokensValid(tid, opener, target)
    requires var r := FirstLive(seen, ref, seenNow); r.Some? && IsPair(r.value, opener, target)
    ensures var r := FirstLive(seen, ref, seenNow).value;
            && (ClaimOutcome(s, tid, opener, target, minutes, now, HEALTHY) == Traffic(r) <==> r in s && Live(r, now))
            && (r in s && Live(r, now) ==> ClaimStore(s, tid, opener, target, minutes, now, HEALTHY) == s)
  {
    var live := Keep(s, LiveAt(now));
    var r := FirstLive(seen, ref, seenNow).value;
    KeepMembers(s, LiveAt(now), r);
    FirstPairIsExact(live, opener, target);
    if r in live {
      KeepApart(s, LiveAt(now));
      var q := FirstPair(live, opener, target).value;
      var i :| 0 <= i < |live| && live[i] == r;
      var j :| 0 <= j < |live| && live[j] == q;
      assert Clash(live[i], live[j]) && Clash(live[j], live[i]);
    }
  }

  // ---------------------------------------------------------------------------------
  // Rollback of a send whose delivery failed
  // ---------------------------------------------------------------------------------

  predicate Names(step: Step, tid: string) { !step.Expire? && step.threadId == tid }

  predicate IsGrant(s: seq<Lease>, step: Step) {
    step.Claim?
    && ClaimOutcome(s, step.threadId, step.opener, step.target, step.minutes, step.now, step.io).Granted?
  }

  /** The steps that could write: claims that were not granted are left out. */
  function Effective(s: seq<Lease>, steps: seq<Step>): seq<Step> {
    if steps == [] then []
    else
      var init := steps[..|steps| - 1];
      var last := steps[|steps| - 1];
      Effective(s, init) + (if last.Claim? && !IsGrant(Run(s, init), last) then [] else [last])
  }

  /** Removing records first cannot turn a grant into a refusal. */
  lemma GrantSurvives(live: seq<Lease>, t: Sieve, tid: string, opener: string, target: string, minutes: int, now: real)
    requires Decide(live, tid, opener, target, minutes, now).Granted?
    ensures Decide(Keep(live, t), tid, opener, target, minutes, now) == Decide(live, tid, opener, target, minutes, now)
  {
    var fewer := Keep(live, t);
    FirstPairIsExact(live, opener, target);
    FirstPairIsExact(fewer, opener, target);
    FirstBlockerIsExact(live, opener, target);
    FirstBlockerIsExact(fewer, opener, target);
    forall r | r in fewer
      ensures r in live
    {
      KeepMembers(live, t, r);
    }
    KeepCommutes(live, t, OpenedBy(opener));
  }

  /** A sieve that looks at records of one id alone, and drops none that a step could make anew:
      all the records with the id, for steps that do not claim it; one record with the id, for
      steps that do not name it. */
  predicate BlindTo(t: Sieve, step: Step) {
    match t
    case OtherThan(gone) => step.Claim? ==> step.threadId != gone
    case NotRecord(gone) => !Names(step, gone.threadId)
    case _ => false
  }

  lemma {:induction false} TouchOfGone(s: seq<Lease>, tid: string, now: real, resize: Option<int>)
    ensures Keep(TouchFirst(s, tid, now, resize), OtherThan(tid)) == Keep(s, OtherThan(tid))
  {
    if s != [] {
      var h := if s[0].threadId == tid && Live(s[0], now) then Touched(s[0], now, resize) else s[0];
      var tail := if s[0].threadId == tid && Live(s[0], now) then s[1..] else TouchFirst(s[1..], tid, now, resize);
      TouchOfGone(s[1..], tid, now, resize);
      assert TouchFirst(s, tid, now, resize) == [h] + tail && ([h] + tail)[1..] == tail;
    }
  }

  lemma {:induction false} TouchCommutes(s: seq<Lease>, t: Sieve, tid: string, now: real, resize: Option<int>)
    requires forall r: Lease | r.threadId == tid :: Passes(t, r)
    ensures Keep(TouchFirst(s, tid, now, resize), t) == TouchFirst(Keep(s, t), tid, now, resize)
  {
    if s != [] {
      TouchCommutes(s[1..], t, tid, now, resize);
      KeepCons(s[0], s[1..], t);
      TouchCons(s[0], s[1..], tid, now, resize);
      TouchCons(s[0], Keep(s[1..], t), tid, now, resize);
      KeepCons(s[0], TouchFirst(s[1..], tid, now, resize), t);
      KeepCons(Touched(s[0], now, resize), s[1..], t);
      assert s == [s[0]] + s[1..];
    }
  }

  lemma KeepCons(r: Lease, u: seq<Lease>, t: Sieve)
    ensures Keep([r] + u, t) == if Passes(t, r) then [r] + Keep(u, t) else Keep(u, t)
  {
    HeadOfConcat([r], u);
    assert [r][1..] + u == u;
  }

  lemma TouchCons(r: Lease, u: seq<Lease>, tid: string, now: real, resize: Option<int>)
    ensures TouchFirst([r] + u, tid, now, resize)
            == if r.threadId == tid && Live(r, now) then [Touched(r, now, resize)] + u else [r] + TouchFirst(u, tid, now, resize)
  {
    HeadOfConcat([r], u);
    assert [r][1..] + u == u;
  }

  lemma ClaimCommutes(s: seq<Lease>, step: Step, t: Sieve)
    requires BlindTo(t, step) && IsGrant(s, step)
    ensures Keep(Apply(s, step), t) == Apply(Keep(s, t), step)
  {
    var live := ReadLive(s, step.now, step.io);
    KeepCommutes(s, LiveAt(step.now), t);
    GrantSurvives(live, t, step.threadId, step.opener, step.target, step.minutes, step.now);
    KeepAppend(live, [LeaseAsked(step)], t);
    KeepCons(LeaseAsked(step), [], t);
  }

  lemma TouchOfGoneCommutes(s: seq<Lease>, tid: string, now: real, resize: Option<int>)
    ensures Keep(TouchFirst(s, tid, now, resize), OtherThan(tid)) == TouchFirst(Keep(s, OtherThan(tid)), tid, now, resize)
  {
    var kept := Keep(s, OtherThan(tid));
    TouchOfGone(s, tid, now, resize);
    forall r | r in kept
      ensures r.threadId != tid
    {
      KeepMembers(s, OtherThan(tid), r);
    }
    FirstLiveIsLive(kept, tid, now);
    TouchMovesOneRecord(kept, tid, now, resize);
  }

  /** Any effective step that is blind to the sieve works the same before and after it. */
  lemma StepCommutes(s: seq<Lease>, step: Step, t: Sieve)
    requires BlindTo(t, step)
    requires step.Claim? ==> IsGrant(s, step)
    ensures Keep(Apply(s, step), t) == Apply(Keep(s, t), step)
  {
    match step
    case Claim(_, _, _, _, _, _) => ClaimCommutes(s, step, t);
    case Touch(tid, resize, now, io) =>
      if t == OtherThan(tid) {
        TouchOfGoneCommutes(s, tid, now, resize);
      } else {
        TouchCommutes(s, t, tid, now, resize);
      }
    case Expire(now, _, _) => KeepCommutes(s, LiveAt(now), t);
    case Release(tid, _) => KeepCommutes(s, OtherThan(tid), t);
    case ReleaseIfParty(tid, who, _) => KeepCommutes(s, NotPartyOf(tid, who), t);
    case ReleaseIfPartyStatus(tid, who, _) => KeepCommutes(s, NotPartyOf(tid, who), t);
  }

  lemma {:induction false} RunCommutes(s: seq<Lease>, steps: seq<Step>, t: Sieve)
    requires forall step | step in steps :: BlindTo(t, step)
    ensures Keep(Run(s, steps), t) == Run(Keep(s, t), Effective(s, steps))
  {
    if steps != [] {
      var n := |steps| - 1;
      var init, last := steps[..n], steps[n];
      RunCommutes(s, init, t);
      if last.Claim? && !IsGrant(Run(s, init), last) {
        assert Effective(s, steps) == Effective(s, init);
      } else {
        StepCommutes(Run(s, init), last, t);
        var e := Effective(s, init);
        assert (e + [last])[..|e + [last]| - 1] == e;
      }
    }
  }

  lemma {:induction false} RunConcat(s: seq<Lease>, a: seq<Step>, b: seq<Step>)
    ensures Run(s, a + b) == Run(Run(s, a), b)
  {
    if b == [] {
      assert a + b == a;
    } else {
      var n := |b| - 1;
      RunConcat(s, a, b[..n]);
      assert (a + b)[..|a + b| - 1] == a + b[..n];
    }
  }

  /** Nobody else puts a record under our id into the list: what is there is one of ours, as it was
      or touched. */
  lemma {:induction false} OnlyOurs(s: seq<Lease>, steps: seq<Step>, tid: string, me: string, r: Lease)
    requires forall step | step in steps && step.Claim? :: step.threadId != tid
    requires forall x | x in s && x.threadId == tid :: IsParty(x, me)
    requires r in Run(s, steps) && r.threadId == tid
    ensures IsParty(r, me)
  {
    if steps != [] {
      var n := |steps| - 1;
      var before := Run(s, steps[..n]);
      var last := steps[n];
      assert last in steps;
      if last.Touch? {
        var k :| 0 <= k < |Run(s, steps)| && Run(s, steps)[k] == r;
        TouchEffect(before, last.threadId, last.now, last.resize, k);
        OnlyOurs(s, steps[..n], tid, me, before[k]);
      } else {
        StepMembers(before, last, r);
        OnlyOurs(s, steps[..n], tid, me, r);
      }
    }
  }

  ghost predicate Fresh(s: seq<Lease>, tid: string) {
    forall r | r in s :: r.threadId != tid
  }

  /** Right after the claim, dropping our record leaves what the claim had read. */
  lemma ClaimThenDrop(s: seq<Lease>, mine: Step, t: Sieve)
    requires IsGrant(s, mine)
    requires t == NotRecord(LeaseAsked(mine)) || (t == OtherThan(mine.threadId) && Fresh(s, mine.threadId))
    ensures Keep(Apply(s, mine), t) == ReadLive(s, mine.now, mine.io)
  {
    var live := ReadLive(s, mine.now, mine.io);
    KeepAppend(live, [LeaseAsked(mine)], t);
    FirstPairIsExact(live, mine.opener, mine.target);
    forall r | r in live
      ensures Passes(t, r)
    {
      KeepMembers(s, LiveAt(mine.now), r);
      assert !IsPair(r, mine.opener, mine.target);
    }
    KeepAll(live, t);
  }

  /** The list that the others' writes alone would have produced, from a sweep at the clock of our
      claim. A sweep is what every claim does to the list first; if its read failed, it swept all. */
  function WithoutUs(s: seq<Lease>, mine: Step, others: seq<Step>): seq<Lease>
    requires mine.Claim?
  {
    Run(s, [Expire(mine.now, true, mine.io)] + Effective(Apply(s, mine), others))
  }

  /** The list before our rollback. */
  function BeforeRollback(s: seq<Lease>, mine: Step, others: seq<Step>): seq<Lease> {
    Run(Apply(s, mine), others)
  }

  /** And after it; `io` is how the registry behaved during it. */
  function RolledBack(s: seq<Lease>, mine: Step, others: seq<Step>, io: FileIO): seq<Lease>
    requires mine.Claim?
  {
    Apply(BeforeRollback(s, mine, others), ReleaseIfParty(mine.threadId, mine.opener, io))
  }

  lemma DroppedIsWithoutUs(s: seq<Lease>, mine: Step, others: seq<Step>, t: Sieve)
    requires IsGrant(s, mine) && forall step | step in others :: BlindTo(t, step)
    requires t == NotRecord(LeaseAsked(mine)) || (t == OtherThan(mine.threadId) && Fresh(s, mine.threadId))
    ensures Keep(BeforeRollback(s, mine, others), t) == WithoutUs(s, mine, others)
  {
    var claimed := Apply(s, mine);
    RunCommutes(claimed, others, t);
    ClaimThenDrop(s, mine, t);
    SweepIsARun(s, mine.now, mine.io);
    RunConcat(s, [Expire(mine.now, true, mine.io)], Effective(claimed, others));
  }

  ghost predicate HasRecord(s: seq<Lease>, tid: string) {
    exists r | r in s :: r.threadId == tid
  }

  /** A send with a new id whose delivery fails is undone without trace, whatever the others did
      between its claim and its rollback, even touching or releasing its lease: only claiming
      under its id is excluded. It takes a rollback that works, or one that finds nothing left. */
  lemma RollbackLeavesNoTrace(s: seq<Lease>, mine: Step, others: seq<Step>, io: FileIO)
    requires IsGrant(s, mine) && Fresh(s, mine.threadId)
    requires forall step | step in others && step.Claim? :: step.threadId != mine.threadId
    ensures RolledBack(s, mine, others, io) == WithoutUs(s, mine, others)
            <==> io == HEALTHY || !HasRecord(BeforeRollback(s, mine, others), mine.threadId)
  {
    var tid := mine.threadId;
    var end := BeforeRollback(s, mine, others);
    DroppedIsWithoutUs(s, mine, others, OtherThan(tid));
    if io == HEALTHY {
      OursAlone(s, mine, others);
      SameSieve(end, NotPartyOf(tid, mine.opener), OtherThan(tid));
    } else {
      KeepDropsSome(end, OtherThan(tid));
      assert HasRecord(end, tid) <==> exists r :: r in end && !Passes(OtherThan(tid), r);
    }
  }

  lemma OursAlone(s: seq<Lease>, mine: Step, others: seq<Step>)
    requires IsGrant(s, mine) && Fresh(s, mine.threadId)
    requires forall step | step in others && step.Claim? :: step.threadId != mine.threadId
    ensures forall r | r in BeforeRollback(s, mine, others) ::
              Passes(NotPartyOf(mine.threadId, mine.opener), r) == Passes(OtherThan(mine.threadId), r)
  {
    forall x | x in Apply(s, mine) && x.threadId == mine.threadId
      ensures IsParty(x, mine.opener)
    {
      KeepMembers(s, LiveAt(mine.now), x);
    }
    forall r | r in BeforeRollback(s, mine, others) && r.threadId == mine.threadId
      ensures IsParty(r, mine.opener)
    {
      OnlyOurs(Apply(s, mine), others, mine.threadId, mine.opener, r);
    }
  }

  /** A record that the rollback takes although the send did not make it. */
  ghost predicate TakesMore(s: seq<Lease>, tid: string, me: string) {
    exists r | r in s :: r.threadId == tid && IsParty(r, me)
  }

  /** Ids are the caller's to choose, and a rollback may fail. With an id that others do not name
      meanwhile, the send leaves no trace if and only if the rollback works and no other record of
      the caller carries the id, or it fails and our lease has gone by itself. */
  lemma RollbackExactly(s: seq<Lease>, mine: Step, others: seq<Step>, io: FileIO)
    requires IsGrant(s, mine)
    requires forall step | step in others :: !Names(step, mine.threadId)
    ensures RolledBack(s, mine, others, io) == WithoutUs(s, mine, others)
            <==> if io == HEALTHY then !TakesMore(WithoutUs(s, mine, others), mine.threadId, mine.opener)
                 else LeaseAsked(mine) !in BeforeRollback(s, mine, others)
  {
    var r := LeaseAsked(mine);
    var end := BeforeRollback(s, mine, others);
    DroppedIsWithoutUs(s, mine, others, NotRecord(r));
    if io == HEALTHY {
      PartyOrRecord(end, mine.threadId, mine.opener, r);
    } else {
      KeepDropsSome(end, NotRecord(r));
      assert r in end <==> exists x :: x in end && !Passes(NotRecord(r), x);
    }
  }

  /** Dropping one's records with an id, or dropping one of them. */
  lemma PartyOrRecord(end: seq<Lease>, tid: string, me: string, r: Lease)
    requires r.threadId == tid && IsParty(r, me)
    ensures Keep(end, NotPartyOf(tid, me)) == Keep(end, NotRecord(r)) <==> !TakesMore(Keep(end, NotRecord(r)), tid, me)
  {
    var party := NotPartyOf(tid, me);
    if TakesMore(Keep(end, NotRecord(r)), tid, me) {
      var x :| x in Keep(end, NotRecord(r)) && x.threadId == tid && IsParty(x, me);
      KeepMembers(end, party, x);
    } else {
      forall x | x in end
        ensures Passes(party, x) == Passes(NotRecord(r), x)
      {
        KeepMembers(end, NotRecord(r), x);
      }
      SameSieve(end, party, NotRecord(r));
    }
  }

  lemma SweepIsARun(s: seq<Lease>, now: real, io: FileIO)
    requires io.lockOk && io.writeOk
    ensures Run(s, [Expire(now, true, io)]) == ReadLive(s, now, io)
  {
    var sweep := [Expire(now, true, io)];
    assert sweep[..|sweep| - 1] == [];
  }

  lemma {:induction false} SameSieve(s: seq<Lease>, t: Sieve, u: Sieve)
    requires forall r | r in s :: Passes(t, r) == Passes(u, r)
    ensures Keep(s, t) == Keep(s, u)
  {
    if s != [] {
      SameSieve(s[1..], t, u);
    }
  }

  /** Dropping one's records with an id changes nothing if and only if there are none. */
  lemma DropsNothing(s: seq<Lease>, tid: string, me: string)
    ensures Keep(s, NotPartyOf(tid, me)) == s <==> !TakesMore(s, tid, me)
  {
    KeepDropsSome(s, NotPartyOf(tid, me));
    assert TakesMore(s, tid, me) <==> exists r :: r in s && !Passes(NotPartyOf(tid, me), r);
  }

  /** When the send was let through without a grant, on account of an existing thread, the rollback
      removes nothing if and only if it fails or no stored record of the caller carries the message's
      id. */
  lemma RollbackOfTraffic(s: seq<Lease>, mine: Step, others: seq<Step>, io: FileIO)
    requires mine.Claim? && !IsGrant(s, mine)
    ensures RolledBack(s, mine, others, io) == Run(s, others)
            <==> io != HEALTHY || !TakesMore(Run(s, others), mine.threadId, mine.opener)
  {
    DropsNothing(Run(s, others), mine.threadId, mine.opener);
  }

  /** So a follow-up that reuses the id of its own live thread, and then fails, ends that thread. */
  lemma FollowUpUnderItsThreadsId(s: seq<Lease>, mine: Step, r: Lease)
    requires mine.Claim? && mine.io.lockOk && mine.io.readOk && TokensValid(mine.threadId, mine.opener, mine.target)
    requires r in s && Live(r, mine.now) && IsPair(r, mine.opener, mine.target) && r.threadId == mine.threadId
    ensures ClaimOutcome(s, mine.threadId, mine.opener, mine.target, mine.minutes, mine.now, mine.io).Traffic?
    ensures r in Apply(s, mine) && r !in RolledBack(s, mine, [], HEALTHY)
  {
    GateIsExact(s, mine.threadId, mine.opener, mine.target, mine.minutes, mine.now, mine.io);
    assert SharesLive(s, mine.now, mine.opener, mine.target);
    assert mine.opener in {r.openedBy, r.peer} by {
      assert {r.openedBy, r.peer} == {mine.opener, mine.target};
    }
    KeepMembers(Apply(s, mine), NotPartyOf(mine.threadId, mine.opener), r);
  }
}
