/** Several gateways may share the outbox directory, which has no lock, and each has its own reaper.
    Here one item's file is read and settled in separate steps by any number of reapers, in any
    order: what its count of attempts then says, and whether a finished item stays finished. */
module OutboxRaces {
  import opened Common
  import opened Outbox

  /** The item's file in the queue: its count and due time; or emptied by a failed write; or not
      there. */
  datatype File = Queued(attempt: nat, nextRetry: real) | Spoilt | Gone

  /** An attempt in progress: the count and the clock its reaper took and, for the history, how many
      retries of the item had been stored by then. */
  datatype Flight = Flight(attempt: nat, now: real, seen: nat)

  datatype Ending =
    | Success(removeOk: bool)                                // delivered, or dropped
    | Failure(burial: Burial, rewriting: Rewriting)
    | Exception

  datatype Step =
    | ReadFile(p: nat, now: real)                            // and attempt the item, if it is due
    | Settle(p: nat, ending: Ending)

  /** `count` is the count stored last. The rest is history: attempts made, retries stored, attempts
      that changed no file, and attempts that ended the file, one way or another. */
  datatype Race = Race(
    file: File,
    flights: map<nat, Flight>,
    count: nat,
    tried: nat,
    stores: nat,
    unstored: nat,
    ended: nat)

  function Start(nextRetry: real): Race { Race(Queued(0, nextRetry), map[], 0, 0, 0, 0, 0) }

  function Landed(s: Race, p: nat): map<nat, Flight> { s.flights - {p} }

  function Unchanged(s: Race, p: nat): Race { s.(flights := Landed(s, p), unstored := s.unstored + 1) }

  function Ended(s: Race, p: nat, file: File): Race { s.(file := file, flights := Landed(s, p), ended := s.ended + 1) }

  /** The write creates the file if another reaper has removed it meanwhile. */
  function Stores(s: Race, p: nat, f: Flight, backoff: real): Race {
    s.(file := Queued(f.attempt + 1, f.now + Backoff(backoff, f.attempt + 1)), flights := Landed(s, p),
       count := f.attempt + 1, stores := s.stores + 1)
  }

  function Apply(s: Race, step: Step, policy: Policy): Race {
    match step
    case ReadFile(p, now) =>
      if p in s.flights || !s.file.Queued? || s.file.nextRetry > now then s
      else s.(flights := s.flights[p := Flight(s.file.attempt, now, s.stores)], tried := s.tried + 1)
    case Settle(p, ending) =>
      if p !in s.flights then s
      else
        match ending
        case Exception => Unchanged(s, p)
        case Success(removeOk) => if removeOk && s.file != Gone then Ended(s, p, Gone) else Unchanged(s, p)
        case Failure(burial, rewriting) =>
          if s.flights[p].attempt + 1 >= policy.maxAttempts then
            if burial != Blocked && s.file != Gone then Ended(s, p, Gone) else Unchanged(s, p)
          else
            match rewriting
            case Stored => Stores(s, p, s.flights[p], policy.backoff)
            case Unopened => Unchanged(s, p)
            case Truncated => Ended(s, p, Spoilt)
  }

  function Run(s: Race, steps: seq<Step>, policy: Policy): Race {
    if steps == [] then s
    else Apply(Run(s, steps[..|steps| - 1], policy), steps[|steps| - 1], policy)
  }

  // ---------------------------------------------------------------------------------
  // Every run
  // ---------------------------------------------------------------------------------

  /** Every attempt is stored, changed nothing, ended the file, or is in progress. The count never
      exceeds the retries stored; nor does one that a reaper holds, and the two agree unless
      something was stored since it read. */
  ghost predicate Sound(s: Race, maxAttempts: nat) {
    && s.tried == s.stores + s.unstored + s.ended + |s.flights|
    && s.count <= s.stores && s.count < maxAttempts
    && (s.file.Queued? ==> s.file.attempt == s.count)
    && (forall p | p in s.flights :: Held(s, s.flights[p], maxAttempts))
  }

  predicate Held(s: Race, f: Flight, maxAttempts: nat) {
    && f.attempt <= f.seen <= s.stores && f.attempt < maxAttempts
    && (f.seen == s.stores ==> f.attempt == s.count)
  }

  lemma OneFewer(m: map<nat, Flight>, p: nat)
    requires p in m
    ensures |m - {p}| == |m| - 1
  {
    assert m.Keys == (m - {p}).Keys + {p};
  }

  lemma StepIsSound(s: Race, step: Step, policy: Policy)
    requires Sound(s, policy.maxAttempts)
    ensures Sound(Apply(s, step, policy), policy.maxAttempts)
  {
    if step.Settle? {
      if step.p in s.flights {
        SettleIsSound(s, step.p, step.ending, policy);
      }
    } else if Apply(s, step, policy) != s {
      assert Apply(s, step, policy).flights.Keys == s.flights.Keys + {step.p};
    }
  }

  lemma SettleIsSound(s: Race, p: nat, ending: Ending, policy: Policy)
    requires Sound(s, policy.maxAttempts) && p in s.flights
    ensures Sound(Apply(s, Settle(p, ending), policy), policy.maxAttempts)
  {
    OneFewer(s.flights, p);
    assert Held(s, s.flights[p], policy.maxAttempts);
    assert forall q | q in Landed(s, p) :: Held(s, s.flights[q], policy.maxAttempts);
  }

  lemma {:induction false} RunIsSound(nextRetry: real, steps: seq<Step>, policy: Policy)
    requires policy.maxAttempts >= 1
    ensures Sound(Run(Start(nextRetry), steps, policy), policy.maxAttempts)
  {
    if steps != [] {
      RunIsSound(nextRetry, steps[..|steps| - 1], policy);
      StepIsSound(Run(Start(nextRetry), steps[..|steps| - 1], policy), steps[|steps| - 1], policy);
    }
  }

  /** The step stores a retry. */
  predicate IsStore(s: Race, step: Step, policy: Policy) {
    && step.Settle? && step.p in s.flights && step.ending.Failure? && step.ending.rewriting == Stored
    && s.flights[step.p].attempt + 1 < policy.maxAttempts
  }

  /** No retry is stored over a count other than the one its reaper had read. */
  predicate Orderly(nextRetry: real, steps: seq<Step>, policy: Policy) {
    steps == []
    || (var init, last := steps[..|steps| - 1], steps[|steps| - 1];
        var s := Run(Start(nextRetry), init, policy);
        Orderly(nextRetry, init, policy) && (IsStore(s, last, policy) ==> s.flights[last.p].attempt == s.count))
  }

  /** Updates are lost, that is the count falls behind the retries stored, if and only if some retry
      was stored over another count than the one its reaper had read. What is lost is never made up
      for. */
  lemma {:induction false} LostUpdatesExactly(nextRetry: real, steps: seq<Step>, policy: Policy)
    requires policy.maxAttempts >= 1
    ensures var s := Run(Start(nextRetry), steps, policy); s.count == s.stores <==> Orderly(nextRetry, steps, policy)
  {
    if steps != [] {
      var init, last := steps[..|steps| - 1], steps[|steps| - 1];
      LostUpdatesExactly(nextRetry, init, policy);
      RunIsSound(nextRetry, init, policy);
      var s := Run(Start(nextRetry), init, policy);
      if IsStore(s, last, policy) {
        assert Held(s, s.flights[last.p], policy.maxAttempts);
      }
    }
  }

  /** The step gives the item up: its last attempt, by its reaper's count, failed, and the file was
      there to be moved or deleted. */
  predicate IsBurial(s: Race, step: Step, policy: Policy) {
    && step.Settle? && step.p in s.flights && step.ending.Failure? && step.ending.burial != Blocked
    && s.flights[step.p].attempt + 1 >= policy.maxAttempts && s.file != Gone
  }

  /** An item that is given up was attempted the maximum, plus once for every retry whose update was
      lost, for every attempt that changed no file, for every other one that ended the file, and for
      every one still in progress. So it was attempted at most the maximum if and only if there was
      none of these. */
  lemma BuriedAttempts(nextRetry: real, steps: seq<Step>, last: Step, policy: Policy)
    requires policy.maxAttempts >= 1 && IsBurial(Run(Start(nextRetry), steps, policy), last, policy)
    ensures var s := Run(Start(nextRetry), steps, policy);
            var (lostUpdates, others) := (s.stores - s.flights[last.p].attempt, |s.flights| - 1);
            && lostUpdates >= 0 && others >= 0
            && s.tried == policy.maxAttempts + lostUpdates + s.unstored + s.ended + others
            && (s.tried <= policy.maxAttempts <==> lostUpdates == s.unstored == s.ended == others == 0)
  {
    RunIsSound(nextRetry, steps, policy);
    var s := Run(Start(nextRetry), steps, policy);
    assert Held(s, s.flights[last.p], policy.maxAttempts);
    OneFewer(s.flights, last.p);
  }

  // ---------------------------------------------------------------------------------
  // One reaper at a time
  // ---------------------------------------------------------------------------------

  /** No reaper taken the file while another's attempt is in progress. */
  predicate OneAtATime(nextRetry: real, steps: seq<Step>, policy: Policy) {
    steps == []
    || (var init, last := steps[..|steps| - 1], steps[|steps| - 1];
        OneAtATime(nextRetry, init, policy) && (last.ReadFile? ==> |Run(Start(nextRetry), init, policy).flights| == 0))
  }

  ghost predicate Alone(s: Race) {
    && s.count == s.stores && |s.flights| <= 1
    && (forall p | p in s.flights :: s.flights[p].attempt == s.stores && s.file.Queued?)
    && (s.ended > 0 <==> !s.file.Queued?)
  }

  lemma StepAlone(s: Race, step: Step, policy: Policy)
    requires Alone(s) && Sound(s, policy.maxAttempts) && (step.ReadFile? ==> |s.flights| == 0)
    ensures Alone(Apply(s, step, policy))
  {
    if step.Settle? && step.p in s.flights {
      OneFewer(s.flights, step.p);
      assert Landed(s, step.p) == map[];
    } else if step.ReadFile? {
      assert s.flights == map[];
    }
  }

  lemma {:induction false} RunAlone(nextRetry: real, steps: seq<Step>, policy: Policy)
    requires policy.maxAttempts >= 1 && OneAtATime(nextRetry, steps, policy)
    ensures Alone(Run(Start(nextRetry), steps, policy))
  {
    if steps != [] {
      var init := steps[..|steps| - 1];
      RunAlone(nextRetry, init, policy);
      RunIsSound(nextRetry, init, policy);
      StepAlone(Run(Start(nextRetry), init, policy), steps[|steps| - 1], policy);
    }
  }

  /** With one reaper at a time only the unstored attempts exceed the maximum. */
  lemma AloneAttempts(nextRetry: real, steps: seq<Step>, last: Step, policy: Policy)
    requires policy.maxAttempts >= 1 && OneAtATime(nextRetry, steps, policy)
    requires IsBurial(Run(Start(nextRetry), steps, policy), last, policy)
    ensures var s := Run(Start(nextRetry), steps, policy); s.tried == policy.maxAttempts + s.unstored
  {
    RunAlone(nextRetry, steps, policy);
    BuriedAttempts(nextRetry, steps, last, policy);
  }

  // ---------------------------------------------------------------------------------
  // Two at a time
  // ---------------------------------------------------------------------------------

  const RETRY := Failure(Moved, Stored)

  /** Both reapers read the file, both attempts fail, both store the retry. */
  function Both(now: real): seq<Step> {
    [ReadFile(0, now), ReadFile(1, now), Settle(0, RETRY), Settle(1, RETRY)]
  }

  /** When the k-th common retry is due. */
  function DueAt(nextRetry: real, backoff: real, k: nat): real {
    if k == 0 then nextRetry else DueAt(nextRetry, backoff, k - 1) + Backoff(backoff, k)
  }

  function Lockstep(nextRetry: real, backoff: real, k: nat): seq<Step> {
    if k == 0 then [] else Lockstep(nextRetry, backoff, k - 1) + Both(DueAt(nextRetry, backoff, k - 1))
  }

  lemma {:induction false} RunConcat(s: Race, a: seq<Step>, b: seq<Step>, policy: Policy)
    ensures Run(s, a + b, policy) == Run(Run(s, a, policy), b, policy)
  {
    if b == [] {
      assert a + b == a;
    } else {
      RunConcat(s, a, b[..|b| - 1], policy);
      assert (a + b)[..|a + b| - 1] == a + b[..|b| - 1];
    }
  }

  lemma RunMore(s: Race, steps: seq<Step>, step: Step, policy: Policy)
    ensures Run(s, steps + [step], policy) == Apply(Run(s, steps, policy), step, policy)
  {
    assert (steps + [step])[..|steps + [step]| - 1] == steps;
  }

  function InLockstep(due: real, k: nat): Race { Race(Queued(k, due), map[], k, 2 * k, 2 * k, 0, 0) }

  lemma BothRead(due: real, k: nat, policy: Policy)
    ensures Run(InLockstep(due, k), [ReadFile(0, due), ReadFile(1, due)], policy)
            == InLockstep(due, k).(flights := map[0 := Flight(k, due, 2 * k), 1 := Flight(k, due, 2 * k)], tried := 2 * k + 2)
  {
    var s := InLockstep(due, k);
    RunMore(s, [], ReadFile(0, due), policy);
    RunMore(s, [ReadFile(0, due)], ReadFile(1, due), policy);
    assert [] + [ReadFile(0, due)] == [ReadFile(0, due)] && [ReadFile(0, due)] + [ReadFile(1, due)] == [ReadFile(0, due), ReadFile(1, due)];
    assert map[0 := Flight(k, due, 2 * k)][1 := Flight(k, due, 2 * k)] == map[0 := Flight(k, due, 2 * k), 1 := Flight(k, due, 2 * k)];
  }

  lemma BothRetry(due: real, k: nat, policy: Policy)
    requires k + 1 < policy.maxAttempts
    ensures Run(InLockstep(due, k), Both(due), policy) == InLockstep(due + Backoff(policy.backoff, k + 1), k + 1)
  {
    var s := InLockstep(due, k);
    var taken := [ReadFile(0, due), ReadFile(1, due)];
    BothRead(due, k, policy);
    RunMore(s, taken, Settle(0, RETRY), policy);
    RunMore(s, taken + [Settle(0, RETRY)], Settle(1, RETRY), policy);
    assert Both(due) == taken + [Settle(0, RETRY)] + [Settle(1, RETRY)];
    var f := Flight(k, due, 2 * k);
    assert map[0 := f, 1 := f] - {0} == map[1 := f] && map[1 := f] - {1} == map[];
  }

  lemma {:induction false} LockstepCounts(nextRetry: real, k: nat, policy: Policy)
    requires k < policy.maxAttempts
    ensures Run(Start(nextRetry), Lockstep(nextRetry, policy.backoff, k), policy)
            == InLockstep(DueAt(nextRetry, policy.backoff, k), k)
  {
    if k > 0 {
      var due := DueAt(nextRetry, policy.backoff, k - 1);
      LockstepCounts(nextRetry, k - 1, policy);
      RunConcat(Start(nextRetry), Lockstep(nextRetry, policy.backoff, k - 1), Both(due), policy);
      BothRetry(due, k - 1, policy);
    }
  }

  /** Two reapers in lockstep attempt every item twice as often as the maximum before they give it up,
      although every retry is stored and nothing fails but the delivery. */
  lemma LockstepDoubles(nextRetry: real, policy: Policy)
    requires policy.maxAttempts >= 1
    ensures var due := DueAt(nextRetry, policy.backoff, policy.maxAttempts - 1);
            var steps := Lockstep(nextRetry, policy.backoff, policy.maxAttempts - 1) + [ReadFile(0, due), ReadFile(1, due)];
            var s := Run(Start(nextRetry), steps, policy);
            IsBurial(s, Settle(0, RETRY), policy) && s.tried == 2 * policy.maxAttempts && s.unstored == 0
  {
    var k := policy.maxAttempts - 1;
    var due := DueAt(nextRetry, policy.backoff, k);
    LockstepCounts(nextRetry, k, policy);
    RunConcat(Start(nextRetry), Lockstep(nextRetry, policy.backoff, k), [ReadFile(0, due), ReadFile(1, due)], policy);
    BothRead(due, k, policy);
  }

  // ---------------------------------------------------------------------------------
  // Finished items
  // ---------------------------------------------------------------------------------

  /** A file that is gone comes back if and only if a reaper that had read it before writes a retry
      after, even one that it fails to complete. */
  lemma ComesBackExactly(s: Race, step: Step, policy: Policy)
    requires s.file == Gone
    ensures Apply(s, step, policy).file != Gone <==>
            && step.Settle? && step.p in s.flights && step.ending.Failure? && step.ending.rewriting != Unopened
            && s.flights[step.p].attempt + 1 < policy.maxAttempts
  {
  }

  /** With no attempt in progress it stays gone, and is never attempted again. */
  lemma {:induction false} GoneForGood(s: Race, steps: seq<Step>, policy: Policy)
    requires s.file == Gone && s.flights == map[]
    ensures Run(s, steps, policy) == s
  {
    if steps != [] {
      GoneForGood(s, steps[..|steps| - 1], policy);
    }
  }

  /** So a delivered message can be queued again, and sent again, by the reaper that lost the race. */
  lemma DeliveredComesBack(nextRetry: real, policy: Policy)
    requires policy.maxAttempts >= 2
    ensures var steps := [ReadFile(0, nextRetry), ReadFile(1, nextRetry), Settle(0, Success(true)), Settle(1, RETRY)];
            && Run(Start(nextRetry), steps[..3], policy).file == Gone
            && Run(Start(nextRetry), steps, policy).file.Queued?
  {
    var s := Start(nextRetry);
    var steps := [ReadFile(0, nextRetry), ReadFile(1, nextRetry), Settle(0, Success(true)), Settle(1, RETRY)];
    var taken := [ReadFile(0, nextRetry), ReadFile(1, nextRetry)];
    BothRead(nextRetry, 0, policy);
    assert InLockstep(nextRetry, 0) == s;
    RunMore(s, taken, Settle(0, Success(true)), policy);
    RunMore(s, steps[..3], Settle(1, RETRY), policy);
    assert steps[..3] == taken + [Settle(0, Success(true))] && steps == steps[..3] + [Settle(1, RETRY)];
  }
}
