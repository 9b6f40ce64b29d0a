/** Webhook delivery: the loop over a host's addresses inside the loop over attempts, and the
    deadline that the first silent attempt may extend once.

    Computation costs no time here; only contacts and sleeps move the clock. A contact lasts
    at most the timeout it is given. */
module Delivery {
  import opened Common

  const UNCONFIRMED := "unconfirmed"

  /** The `delivery_id` field of an answer. */
  datatype IdField = NoId | NullId | Id(value: string)

  /** What a peer's address does with a request, given time. `reason` is what the shared
      client's status mapping says of the resulting error. */
  datatype Reply =
    | Success(id: IdField)                                      // status below 400, a JSON object
    | Garbage(reason: string)                                   // status below 400, anything else
    | ErrorStatus(token: Option<string>, id: IdField, reason: string)  // status 400 or more
    | Broken(mentionsTimeout: bool, reason: string)             // connection failed without an answer

  datatype Contact = Contact(latency: real, reply: Reply)

  datatype Failure =
    | HttpFailure(token: Option<string>, reason: string)
    | TimedOut
    | OtherFailure(mentionsTimeout: bool, reason: string)

  datatype Attempt = Landed(id: IdField) | Failed(exc: Failure)

  predicate IsArrivalToken(t: Option<string>) {
    t.Some? && t.value in {"duplicate", "replay", "already-delivered"}
  }

  function RefusalReason(token: string): string {
    if token == "busy" || token == "queue-full" then "busy"
    else if token == "rate-limited" then "rate-limited"
    else if token == "unauthorized" then "unauthorized"
    else if token == "bad-request" then "bad-request"
    else UNCONFIRMED
  }

  predicate IsTimeout(exc: Failure) {
    exc.TimedOut? || (exc.OtherFailure? && exc.mentionsTimeout)
  }

  /** Token first, then timeout, then the shared mapping. */
  function FailureReason(exc: Failure): string {
    if exc.HttpFailure? && IsArrivalToken(exc.token) then UNCONFIRMED
    else if exc.HttpFailure? && exc.token.Some? then RefusalReason(exc.token.value)
    else if IsTimeout(exc) then UNCONFIRMED
    else if exc.HttpFailure? then exc.reason
    else if exc.OtherFailure? then exc.reason
    else UNCONFIRMED
  }

  // ---------------------------------------------------------------------------------
  // One attempt over all addresses
  // ---------------------------------------------------------------------------------

  /** The contact produced a body that `_pinned_request` returns rather than raises over. */
  predicate Returns(c: Contact, timeout: real) {
    c.latency <= timeout
    && (c.reply.Success? || c.reply.Garbage? || (c.reply.ErrorStatus? && IsArrivalToken(c.reply.token)))
  }

  /** The peer has the message and said so in time. */
  predicate SaysItLanded(c: Contact, timeout: real) {
    Returns(c, timeout) && !c.reply.Garbage?
  }

  function Read(c: Contact): Attempt
    requires Returns(c, c.latency)
  {
    match c.reply
    case Success(id) => Landed(id)
    case ErrorStatus(_, id, _) => Landed(id)
    case Garbage(reason) => Failed(OtherFailure(false, reason))
  }

  function Raises(c: Contact, timeout: real): Failure
    requires !Returns(c, timeout)
  {
    if c.latency > timeout then TimedOut
    else match c.reply
         case ErrorStatus(token, _, reason) => HttpFailure(token, reason)
         case Broken(m, reason) => OtherFailure(m, reason)
         case Success(_) => TimedOut
         case Garbage(_) => TimedOut
  }

  function ContactTime(c: Contact, timeout: real): real { MinR(MaxR(c.latency, 0.0), timeout) }

  /** The first address that returns a body decides; if none does, the last error stands. */
  function Pinned(contacts: seq<Contact>, timeout: real): Attempt {
    if contacts == [] then Failed(OtherFailure(false, "unreachable"))
    else if Returns(contacts[0], timeout) then Read(contacts[0])
    else if |contacts| == 1 then Failed(Raises(contacts[0], timeout))
    else Pinned(contacts[1..], timeout)
  }

  /** How many addresses an attempt contacts. */
  function Contacted(contacts: seq<Contact>, timeout: real): (n: nat)
    ensures n <= |contacts|
  {
    if contacts == [] then 0
    else if Returns(contacts[0], timeout) then 1
    else 1 + Contacted(contacts[1..], timeout)
  }

  function PinnedTime(contacts: seq<Contact>, timeout: real): real {
    if contacts == [] then 0.0
    else ContactTime(contacts[0], timeout)
         + if Returns(contacts[0], timeout) then 0.0 else PinnedTime(contacts[1..], timeout)
  }

  method PinnedRequest(contacts: seq<Contact>, timeout: real, start: real) returns (r: Attempt, clock: real)
    ensures r == Pinned(contacts, timeout) && clock == start + PinnedTime(contacts, timeout)
  {
    clock := start;
    var last := OtherFailure(false, "unreachable");
    for i := 0 to |contacts|
      invariant Pinned(contacts, timeout) == if i < |contacts| then Pinned(contacts[i..], timeout) else Failed(last)
      invariant start + PinnedTime(contacts, timeout) == clock + PinnedTime(contacts[i..], timeout)
    {
      clock := clock + ContactTime(contacts[i], timeout);
      if Returns(contacts[i], timeout) {
        return Read(contacts[i]), clock;
      }
      last := Raises(contacts[i], timeout);
    }
    r := Failed(last);
  }

  function Times(n: nat, t: real): real {
    if n == 0 then 0.0 else t + Times(n - 1, t)
  }

  lemma {:induction false} TimesIsProduct(n: nat, t: real)
    ensures Times(n, t) == n as real * t
  {
    if n > 0 {
      TimesIsProduct(n - 1, t);
      assert n as real * t == t + (n - 1) as real * t;
    }
  }

  /** Every address may use up the whole timeout. */
  lemma {:induction false} PinnedTimeBound(contacts: seq<Contact>, timeout: real)
    requires timeout >= 0.0
    ensures 0.0 <= PinnedTime(contacts, timeout) <= Times(|contacts|, timeout)
  {
    if contacts != [] {
      PinnedTimeBound(contacts[1..], timeout);
    }
  }


  /** An attempt fails only if no address it contacted said the message landed, except that a
      garbled answer hides what the addresses after it would have said. */
  lemma {:induction false} FailureMeansNoProof(contacts: seq<Contact>, timeout: real)
    ensures Pinned(contacts, timeout).Failed? <==>
              forall i | 0 <= i < Contacted(contacts, timeout) :: !SaysItLanded(contacts[i], timeout)
    ensures Pinned(contacts, timeout).Failed? && Contacted(contacts, timeout) < |contacts| ==>
              contacts[Contacted(contacts, timeout) - 1].reply.Garbage?
  {
    if contacts != [] && !Returns(contacts[0], timeout) {
      var rest := contacts[1..];
      FailureMeansNoProof(rest, timeout);
      var n := Contacted(rest, timeout);
      assert forall i | 0 <= i < n :: rest[i] == contacts[i + 1];
      if Pinned(contacts, timeout).Failed? {
        forall i | 0 <= i < n + 1
          ensures !SaysItLanded(contacts[i], timeout)
        {
          if i > 0 {
            assert !SaysItLanded(rest[i - 1], timeout);
          }
        }
      } else {
        var i :| 0 <= i < n && SaysItLanded(rest[i], timeout);
        assert SaysItLanded(contacts[i + 1], timeout);
      }
    }
  }

  // ---------------------------------------------------------------------------------
  // The attempts
  // ---------------------------------------------------------------------------------

  /** A pause between attempts, and the deadline in force when it was taken. */
  datatype Sleep = Sleep(from: real, until: real, deadline: real)

  /** What the caller gets: an id and no reason, or no id and a reason. */
  datatype Outcome = Outcome(id: Option<string>, reason: Option<string>)

  function Accepted(id: IdField): Outcome {
    match id
    case NoId => Outcome(Some("unknown"), None)
    case NullId => Outcome(None, None)
    case Id(v) => Outcome(Some(v), None)
  }

  datatype Config = Config(T: int, retries: int, pause: real)

  /** The loop's variables. `timeouts` lists the timeout of each attempt made. */
  datatype State = State(clock: real, deadline: real, timeouts: seq<real>, sleeps: seq<Sleep>, extensions: nat)

  function Initial(cfg: Config, start: real): State { State(start, start + cfg.T as real, [], [], 0) }

  function AttemptTimeout(cfg: Config, attempt: nat, st: State): real {
    if attempt == 0 then cfg.T as real else MaxR(1.0, st.deadline - st.clock)
  }

  /** The state once an attempt has ended. */
  function AfterContact(contacts: seq<Contact>, cfg: Config, attempt: nat, st: State): State {
    var timeout := AttemptTimeout(cfg, attempt, st);
    st.(clock := st.clock + PinnedTime(contacts, timeout), timeouts := st.timeouts + [timeout])
  }

  /** A first attempt without an answer moves the deadline. */
  function Extend(cfg: Config, attempt: nat, exc: Failure, st: State): State {
    if attempt == 0 && st.extensions == 0 && IsTimeout(exc)
    then st.(deadline := st.clock + cfg.T as real, extensions := 1)
    else st
  }

  /** The exponential pause, cut so as to leave a second before the deadline. */
  function Nap(cfg: Config, attempt: nat, remaining: real): real {
    MinR(cfg.pause * (Pow2(attempt) as real), MaxR(0.0, remaining - 1.0))
  }

  /** The first pause is the configured one and each is twice the one before, unless it is cut. */
  lemma NapsDouble(cfg: Config, attempt: nat, remaining: real)
    ensures var room := MaxR(0.0, remaining - 1.0);
            && Nap(cfg, 0, remaining) == MinR(cfg.pause, room)
            && (Nap(cfg, attempt, remaining) < room ==>
                  Nap(cfg, attempt + 1, remaining) == MinR(2.0 * Nap(cfg, attempt, remaining), room))
            && (cfg.pause >= 0.0 && Nap(cfg, attempt, remaining) == room ==> Nap(cfg, attempt + 1, remaining) == room)
  {
    var (p, q) := (Pow2(attempt), Pow2(attempt) as real);
    assert Pow2(attempt + 1) as real == 2.0 * q;
    Twice(cfg.pause, q);
    if cfg.pause >= 0.0 {
      NotNegative(cfg.pause, q);
    }
  }

  lemma Twice(x: real, q: real)
    ensures x * (2.0 * q) == 2.0 * (x * q)
  {
  }

  lemma NotNegative(x: real, q: real)
    requires x >= 0.0 && q >= 0.0
    ensures x * q >= 0.0
  {
  }

  function Rest(cfg: Config, attempt: nat, st: State): State {
    var nap := Nap(cfg, attempt, st.deadline - st.clock);
    if nap > 0.001
    then st.(clock := st.clock + nap, sleeps := st.sleeps + [Sleep(st.clock, st.clock + nap, st.deadline)])
    else st
  }

  /** One pass of the loop: the outcome if it ends here, and the state. */
  function Try(contacts: seq<Contact>, cfg: Config, attempt: nat, st: State): (Option<Outcome>, State) {
    if st.deadline - st.clock <= 0.0 then (Some(Outcome(None, Some(UNCONFIRMED))), st)
    else
      var r := Pinned(contacts, AttemptTimeout(cfg, attempt, st));
      var s1 := AfterContact(contacts, cfg, attempt, st);
      if r.Landed? then (Some(Accepted(r.id)), s1)
      else
        var s2 := Extend(cfg, attempt, r.exc, s1);
        if attempt < cfg.retries - 1 && s2.deadline - s2.clock > 0.0 then (None, Rest(cfg, attempt, s2))
        else (Some(Outcome(None, Some(FailureReason(r.exc)))), s2)
  }

  function Loop(world: seq<seq<Contact>>, cfg: Config, attempt: nat, st: State): (Outcome, State)
    requires cfg.retries <= |world|
    decreases cfg.retries - attempt
  {
    if attempt >= cfg.retries then (Outcome(None, Some("unreachable")), st)
    else
      var (out, st') := Try(world[attempt], cfg, attempt, st);
      if out.Some? then (out.value, st') else Loop(world, cfg, attempt + 1, st')
  }

  /** The body of the loop: the outcome if it ends the delivery, else a sleep. */
  method TryOnce(contacts: seq<Contact>, cfg: Config, attempt: nat, start: real, deadline: real, extended: bool, ghost st: State)
    returns (out: Option<Outcome>, clock: real, deadline': real, extended': bool)
    requires start == st.clock && deadline == st.deadline && extended == (st.extensions > 0)
    ensures out == Try(contacts, cfg, attempt, st).0
    ensures var next := Try(contacts, cfg, attempt, st).1;
            clock == next.clock && deadline' == next.deadline && extended' == (next.extensions > 0)
  {
    clock, deadline', extended' := start, deadline, extended;
    if deadline - clock <= 0.0 {
      out := Some(Outcome(None, Some(UNCONFIRMED)));
      return;
    }
    var timeout := if attempt == 0 then cfg.T as real else MaxR(1.0, deadline - clock);
    var r;
    r, clock := PinnedRequest(contacts, timeout, clock);
    if r.Landed? {
      out := Some(Accepted(r.id));
      return;
    }
    if attempt == 0 && !extended && IsTimeout(r.exc) {
      extended' := true;
      deadline' := clock + cfg.T as real;
    }
    if attempt < cfg.retries - 1 && deadline' - clock > 0.0 {
      var sleepTime := Nap(cfg, attempt, deadline' - clock);
      if sleepTime > 0.001 {
        clock := clock + sleepTime;
      }
      out := None;
    } else {
      out := Some(Outcome(None, Some(FailureReason(r.exc))));
    }
  }

  /** Deliver with up to `retries` attempts; world[a] is what the addresses do in attempt a.
      `clock` is the time at the end; st records the deadline, the timeouts and the sleeps. */
  method DeliverWebhook(world: seq<seq<Contact>>, cfg: Config, start: real)
    returns (out: Outcome, clock: real, ghost st: State)
    requires cfg.retries <= |world|
    ensures out == Loop(world, cfg, 0, Initial(cfg, start)).0
    ensures st == Loop(world, cfg, 0, Initial(cfg, start)).1 && clock == st.clock
  {
    var deadline, extended := start + cfg.T as real, false;
    clock, st := start, Initial(cfg, start);
    for attempt := 0 to Max(cfg.retries, 0)
      invariant clock == st.clock && deadline == st.deadline && extended == (st.extensions > 0)
      invariant Loop(world, cfg, 0, Initial(cfg, start)) == Loop(world, cfg, attempt, st)
    {
      var end;
      end, clock, deadline, extended := TryOnce(world[attempt], cfg, attempt, clock, deadline, extended, st);
      st := Try(world[attempt], cfg, attempt, st).1;
      if end.Some? {
        return end.value, clock, st;
      }
    }
    return Outcome(None, Some("unreachable")), clock, st;
  }

  // ---------------------------------------------------------------------------------
  // What the loop guarantees
  // ---------------------------------------------------------------------------------

  /** What the attempts made say about the outcome. */
  ghost predicate OutcomeFits(world: seq<seq<Contact>>, cfg: Config, out: Outcome, st: State)
    requires |st.timeouts| <= |world|
  {
    var n := |st.timeouts|;
    && (forall a | 0 <= a < n - 1 :: Pinned(world[a], st.timeouts[a]).Failed?)
    && if n == 0 then out == Outcome(None, Some(if cfg.retries <= 0 then "unreachable" else UNCONFIRMED))
       else out == match Pinned(world[n - 1], st.timeouts[n - 1])
                   case Landed(id) => Accepted(id)
                   case Failed(exc) => Outcome(None, Some(FailureReason(exc)))
  }

  /** Before an attempt: everything so far failed, and time remains unless this is the first. */
  ghost predicate Underway(world: seq<seq<Contact>>, attempt: nat, st: State) {
    && |st.timeouts| == attempt <= |world|
    && (forall a | 0 <= a < attempt :: Pinned(world[a], st.timeouts[a]).Failed?)
    && (attempt > 0 ==> st.clock < st.deadline)
  }

  /** A delivery is confirmed by the first attempt that landed and by nothing else; a failed
      one reports what the last attempt made really said. */
  lemma {:induction false} OutcomeIsTheFirstLanding(world: seq<seq<Contact>>, cfg: Config, attempt: nat, st: State)
    requires cfg.retries <= |world| && attempt <= Max(cfg.retries, 0) && Underway(world, attempt, st)
    requires attempt > 0 ==> attempt < cfg.retries
    ensures var (out, end) := Loop(world, cfg, attempt, st);
            |end.timeouts| <= Max(cfg.retries, 0) && OutcomeFits(world, cfg, out, end)
    decreases cfg.retries - attempt
  {
    if attempt < cfg.retries {
      var (out, st') := Try(world[attempt], cfg, attempt, st);
      if out.None? {
        OutcomeIsTheFirstLanding(world, cfg, attempt + 1, st');
      }
    }
  }

  /** The same, for a whole delivery. */
  lemma DeliveryOutcome(world: seq<seq<Contact>>, cfg: Config, start: real)
    requires cfg.retries <= |world|
    ensures var (out, end) := Loop(world, cfg, 0, Initial(cfg, start));
            |end.timeouts| <= Max(cfg.retries, 0) && OutcomeFits(world, cfg, out, end)
  {
    OutcomeIsTheFirstLanding(world, cfg, 0, Initial(cfg, start));
  }

  /** A later attempt, given what is left of T from c on, or one second. */
  lemma LateAttemptBound(n: nat, T: real, base: real, c: real, timeout: real)
    requires n >= 1 && base <= c <= base + T
    requires timeout == 1.0 || c + timeout <= base + T
    ensures c + Times(n, timeout) <= base + MaxR(Times(n, T), T + n as real)
  {
    if c + timeout <= base + T {
      TimesMonotone(n - 1, timeout, T);
    } else {
      TimesIsProduct(n, 1.0);
    }
  }

  lemma {:induction false} TimesMonotone(n: nat, a: real, b: real)
    requires a <= b
    ensures Times(n, a) <= Times(n, b)
  {
    if n > 0 {
      TimesMonotone(n - 1, a, b);
    }
  }

  lemma {:induction false} TimesAtLeastOne(n: nat, t: real)
    requires n >= 1 && t >= 0.0
    ensures Times(n, t) >= t
  {
    if n > 1 {
      TimesAtLeastOne(n - 1, t);
    }
  }

  /** The wall-clock ceiling for k addresses and timeout T, counted from the start or, if the
      first attempt was granted an extension, from its end. `kt` is k times T. */
  datatype Limits = Limits(T: real, k: real, kt: real)

  function LimitsOf(cfg: Config, k: nat): Limits { Limits(cfg.T as real, k as real, Times(k, cfg.T as real)) }

  function Ceiling(l: Limits): real { MaxR(l.kt, l.T + l.k) }

  function FirstAttemptCeiling(l: Limits, extensions: nat): real { if extensions == 0 then 0.0 else l.kt }

  /** The deadline stands T after `base`, which is the start or the end of a silent first attempt. */
  ghost predicate OnTime(l: Limits, start: real, attempt: nat, st: State, base: real) {
    && st.deadline == base + l.T
    && start <= base <= start + FirstAttemptCeiling(l, st.extensions)
    && base <= st.clock
    && st.extensions <= 1 && (attempt == 0 ==> base == st.clock == start && st.extensions == 0)
    && st.clock < st.deadline
    && (forall t | t in st.timeouts :: t >= 1.0)
    && (forall s | s in st.sleeps :: s.from < s.until <= s.deadline - 1.0)
  }

  ghost predicate EndsOnTime(l: Limits, start: real, end: State) {
    && start <= end.clock <= start + FirstAttemptCeiling(l, end.extensions) + Ceiling(l)
    && end.extensions <= 1
    && (forall t | t in end.timeouts :: t >= 1.0)
    && (forall s | s in end.sleeps :: s.from < s.until <= s.deadline - 1.0)
  }

  /** A nap keeps clear of the deadline's last second. */
  lemma RestKeepsTime(cfg: Config, attempt: nat, st: State)
    requires st.clock < st.deadline && forall s | s in st.sleeps :: s.from < s.until <= s.deadline - 1.0
    ensures var r := Rest(cfg, attempt, st);
            && st.clock <= r.clock < r.deadline == st.deadline
            && r.timeouts == st.timeouts && r.extensions == st.extensions
            && forall s | s in r.sleeps :: s.from < s.until <= s.deadline - 1.0
  {
  }

  lemma LaterContactClock(contacts: seq<Contact>, T: real, base: real, clock: real, deadline: real)
    requires T >= 1.0 && |contacts| >= 1 && base <= clock < deadline <= base + T
    ensures var t := PinnedTime(contacts, MaxR(1.0, deadline - clock));
            0.0 <= t && clock + t <= base + MaxR(Times(|contacts|, T), T + |contacts| as real)
  {
    var timeout := MaxR(1.0, deadline - clock);
    PinnedTimeBound(contacts, timeout);
    LateAttemptBound(|contacts|, T, base, clock, timeout);
  }

  /** The clock after an attempt. */
  lemma ContactClock(contacts: seq<Contact>, cfg: Config, attempt: nat, st: State, base: real)
    requires cfg.T >= 1 && |contacts| >= 1
    requires st.deadline == base + cfg.T as real && base <= st.clock < st.deadline && (attempt == 0 ==> base == st.clock)
    ensures var after := AfterContact(contacts, cfg, attempt, st).clock;
            && st.clock <= after <= base + MaxR(Times(|contacts|, cfg.T as real), cfg.T as real + |contacts| as real)
            && (attempt == 0 ==> after <= base + Times(|contacts|, cfg.T as real))
  {
    var T := cfg.T as real;
    if attempt == 0 {
      PinnedTimeBound(contacts, T);
    } else {
      LaterContactClock(contacts, T, base, st.clock, st.deadline);
    }
  }

  lemma TryOnTime(contacts: seq<Contact>, cfg: Config, k: nat, start: real, attempt: nat, st: State, base: real) returns (base': real)
    requires cfg.T >= 1 && k >= 1 && |contacts| == k && OnTime(LimitsOf(cfg, k), start, attempt, st, base)
    ensures var (out, st') := Try(contacts, cfg, attempt, st);
            && EndsOnTime(LimitsOf(cfg, k), start, st')
            && (out.None? ==> OnTime(LimitsOf(cfg, k), start, attempt + 1, st', base'))
  {
    ContactClock(contacts, cfg, attempt, st, base);
    TimesAtLeastOne(k, cfg.T as real);
    base' := TryOnTimeFrom(LimitsOf(cfg, k), contacts, cfg, start, attempt, st, base);
  }

  lemma TryOnTimeFrom(l: Limits, contacts: seq<Contact>, cfg: Config, start: real, attempt: nat, st: State, base: real) returns (base': real)
    requires cfg.T >= 1 && l.T == cfg.T as real && l.kt >= l.T && l.k >= 1.0 && OnTime(l, start, attempt, st, base)
    requires var after := AfterContact(contacts, cfg, attempt, st).clock;
             st.clock <= after <= base + Ceiling(l) && (attempt == 0 ==> after <= start + l.kt)
    ensures var (out, st') := Try(contacts, cfg, attempt, st);
            && EndsOnTime(l, start, st')
            && (out.None? ==> OnTime(l, start, attempt + 1, st', base'))
  {
    var r := Pinned(contacts, AttemptTimeout(cfg, attempt, st));
    var s1 := AfterContact(contacts, cfg, attempt, st);
    base' := base;
    if r.Failed? {
      var s2 := Extend(cfg, attempt, r.exc, s1);
      base' := if s2.extensions == s1.extensions then base else s1.clock;
      if s2.clock < s2.deadline {
        RestKeepsTime(cfg, attempt, s2);
      }
    }
  }

  /** However the peer behaves, delivery to k addresses ends within kT + max(kT, T + k), and
      within max(kT, T + k) if the first attempt was answered; the deadline is extended at most
      once; no sleep reaches into the last second before it. */
  lemma {:induction false} DeliveryEndsOnTime(world: seq<seq<Contact>>, cfg: Config, k: nat, start: real, attempt: nat, st: State, base: real)
    requires cfg.T >= 1 && k >= 1 && cfg.retries <= |world| && forall c | c in world :: |c| == k
    requires OnTime(LimitsOf(cfg, k), start, attempt, st, base) && EndsOnTime(LimitsOf(cfg, k), start, st)
    ensures EndsOnTime(LimitsOf(cfg, k), start, Loop(world, cfg, attempt, st).1)
    decreases cfg.retries - attempt
  {
    if attempt < cfg.retries {
      assert world[attempt] in world;
      var (out, st') := Try(world[attempt], cfg, attempt, st);
      var base' := TryOnTime(world[attempt], cfg, k, start, attempt, st, base);
      if out.None? {
        DeliveryEndsOnTime(world, cfg, k, start, attempt + 1, st', base');
      }
    }
  }

  /** The same, for a whole delivery. */
  lemma DeliveryIsBounded(world: seq<seq<Contact>>, cfg: Config, k: nat, start: real)
    requires cfg.T >= 1 && k >= 1 && cfg.retries <= |world| && forall c | c in world :: |c| == k
    ensures EndsOnTime(LimitsOf(cfg, k), start, Loop(world, cfg, 0, Initial(cfg, start)).1)
  {
    DeliveryEndsOnTime(world, cfg, k, start, 0, Initial(cfg, start), start);
  }

  /** When the deadline in force after the first attempt passes: T after the start or, if the first
      attempt got no answer, T after that. */
  function LastDeadline(world: seq<seq<Contact>>, cfg: Config, start: real): real
    requires world != []
  {
    var first := Pinned(world[0], cfg.T as real);
    start + cfg.T as real
    + if first.Failed? && IsTimeout(first.exc) then PinnedTime(world[0], cfg.T as real) else 0.0
  }

  lemma {:induction false} Persists(world: seq<seq<Contact>>, cfg: Config, attempt: nat, st: State)
    requires 1 <= attempt < cfg.retries <= |world| && |st.timeouts| == attempt
    ensures var (out, end) := Loop(world, cfg, attempt, st);
            out.reason.Some? ==> |end.timeouts| == cfg.retries || end.clock >= st.deadline
    decreases cfg.retries - attempt
  {
    var (out, st') := Try(world[attempt], cfg, attempt, st);
    if out.None? {
      Persists(world, cfg, attempt + 1, st');
    }
  }

  /** A delivery is never given up early: when it fails it has made all its attempts, or its last
      deadline has passed. */
  lemma NeverGivenUpEarly(world: seq<seq<Contact>>, cfg: Config, start: real)
    requires cfg.T >= 1 && cfg.retries <= |world|
    ensures var (out, end) := Loop(world, cfg, 0, Initial(cfg, start));
            out.reason.Some? ==>
              |end.timeouts| == Max(cfg.retries, 0) || (cfg.retries > 0 && end.clock >= LastDeadline(world, cfg, start))
  {
    if cfg.retries > 0 {
      var (out, st') := Try(world[0], cfg, 0, Initial(cfg, start));
      if out.None? {
        Persists(world, cfg, 1, st');
      }
    }
  }

  /** An extension is granted to nothing but a first attempt that got no answer. */
  lemma {:induction false} ExtensionNeedsSilence(world: seq<seq<Contact>>, cfg: Config, attempt: nat, st: State)
    requires cfg.retries <= |world| && (attempt == 0 ==> st.extensions == 0)
    ensures var end := Loop(world, cfg, attempt, st).1;
            end.extensions == st.extensions
            || (attempt == 0 && cfg.retries > 0 && Pinned(world[0], cfg.T as real).Failed?
                && IsTimeout(Pinned(world[0], cfg.T as real).exc))
    decreases cfg.retries - attempt
  {
    if attempt < cfg.retries {
      var (out, st') := Try(world[attempt], cfg, attempt, st);
      if out.None? {
        ExtensionNeedsSilence(world, cfg, attempt + 1, st');
      }
    }
  }

  /** The ceiling spelled out. With one address it is 2T + 1, and T + 1 when the first attempt
      was answered. */
  lemma CeilingInFull(cfg: Config, k: nat, extensions: nat)
    requires cfg.T >= 1
    ensures var l := LimitsOf(cfg, k);
            var (T, n) := (cfg.T as real, k as real);
            && FirstAttemptCeiling(l, extensions) + Ceiling(l) == (if extensions == 0 then 0.0 else n * T) + MaxR(n * T, T + n)
            && (k == 1 && extensions == 1 ==> FirstAttemptCeiling(l, extensions) + Ceiling(l) == 2.0 * T + 1.0)
            && (k == 1 && extensions == 0 ==> FirstAttemptCeiling(l, extensions) + Ceiling(l) == T + 1.0)
  {
    TimesIsProduct(k, cfg.T as real);
  }

  // ---------------------------------------------------------------------------------
  // When twice the timeout is really the worst case
  // ---------------------------------------------------------------------------------

  ghost predicate Fits(world: seq<seq<Contact>>, cfg: Config, k: nat) {
    cfg.retries <= |world| && forall c | c in world :: |c| == k
  }

  /** No behaviour of k addresses keeps the delivery for longer than twice the timeout. */
  ghost predicate KeepsTwiceTheTimeout(cfg: Config, k: nat, start: real) {
    forall world | Fits(world, cfg, k) :: Loop(world, cfg, 0, Initial(cfg, start)).1.clock <= start + 2.0 * cfg.T as real
  }

  predicate FewTries(cfg: Config, k: nat) {
    cfg.retries <= 0 || (k == 1 && cfg.retries <= 2) || (k == 2 && cfg.retries <= 1)
  }

  /** The documented worst case of twice the timeout holds if and only if there are so few attempts
      that none can start in the deadline's last second. With the default of three it does not. */
  lemma TwiceTheTimeoutExactly(cfg: Config, k: nat, start: real)
    requires cfg.T >= 1 && k >= 1
    ensures KeepsTwiceTheTimeout(cfg, k, start) <==> FewTries(cfg, k)
  {
    if FewTries(cfg, k) {
      forall world | Fits(world, cfg, k)
        ensures Loop(world, cfg, 0, Initial(cfg, start)).1.clock <= start + 2.0 * cfg.T as real
      {
        FewTriesSuffice(world, cfg, k, start);
      }
    } else {
      var world := WorstWorld(cfg, k, start);
      WorstWorldIsWorse(cfg, k, start);
      assert Fits(world, cfg, k);
    }
  }

  lemma FewTriesSuffice(world: seq<seq<Contact>>, cfg: Config, k: nat, start: real)
    requires cfg.T >= 1 && k >= 1 && Fits(world, cfg, k) && FewTries(cfg, k)
    ensures Loop(world, cfg, 0, Initial(cfg, start)).1.clock <= start + 2.0 * cfg.T as real
  {
    if cfg.retries > 0 {
      var T := cfg.T as real;
      assert world[0] in world;
      PinnedTimeBound(world[0], T);
      assert Times(1, T) == T && Times(2, T) == 2.0 * T;
      if cfg.retries == 2 {
        var (out, st) := Try(world[0], cfg, 0, Initial(cfg, start));
        if out.None? {
          SecondAttemptClock(world[1], cfg, st, start);
        }
      }
    }
  }

  /** The second of two attempts at one address. */
  lemma SecondAttemptClock(contacts: seq<Contact>, cfg: Config, st: State, start: real)
    requires cfg.T >= 1 && cfg.retries == 2 && |contacts| == 1
    requires st.clock < st.deadline <= start + 2.0 * cfg.T as real
    requires st.deadline <= start + cfg.T as real || st.deadline - st.clock >= 1.0
    ensures Try(contacts, cfg, 1, st).0.Some?
    ensures Try(contacts, cfg, 1, st).1.clock <= start + 2.0 * cfg.T as real
  {
    var t := AttemptTimeout(cfg, 1, st);
    PinnedTimeBound(contacts, t);
    assert Times(1, t) == t;
  }

  function Silent(k: nat, latency: real): seq<Contact> {
    if k == 0 then [] else [Contact(latency, Broken(false, "unreachable"))] + Silent(k - 1, latency)
  }

  lemma {:induction false} SilenceTakesAll(k: nat, latency: real, t: real)
    requires k >= 1 && 0.0 <= t < latency
    ensures |Silent(k, latency)| == k
    ensures Pinned(Silent(k, latency), t) == Failed(TimedOut) && PinnedTime(Silent(k, latency), t) == Times(k, t)
  {
    var s := Silent(k, latency);
    assert s[1..] == Silent(k - 1, latency);
    if k > 1 {
      SilenceTakesAll(k - 1, latency, t);
    } else {
      assert Silent(0, latency) == [] && |s| == 1;
    }
  }

  /** What one silent first attempt leaves. */
  function AfterSilence(cfg: Config, k: nat, start: real): State {
    var c := start + Times(k, cfg.T as real);
    Rest(cfg, 0, State(c, c + cfg.T as real, [cfg.T as real], [], 1))
  }

  /** Silence throughout or, with one address, broken once by a connection that fails half a second
      before the deadline. */
  function WorstWorld(cfg: Config, k: nat, start: real): (world: seq<seq<Contact>>)
    requires cfg.retries >= 0
    ensures |world| == cfg.retries
  {
    var st := AfterSilence(cfg, k, start);
    var breaks := [Contact(st.deadline - st.clock - 0.5, Broken(false, "unreachable"))];
    seq(cfg.retries, i => if i == 1 && k == 1 then breaks else Silent(k, cfg.T as real + 1.0))
  }

  lemma {:induction false} ClockNeverFalls(world: seq<seq<Contact>>, cfg: Config, attempt: nat, st: State)
    requires cfg.T >= 1 && cfg.retries <= |world|
    ensures Loop(world, cfg, attempt, st).1.clock >= st.clock
    ensures attempt < cfg.retries ==>
              Loop(world, cfg, attempt, st).1.clock >= Try(world[attempt], cfg, attempt, st).1.clock >= st.clock
    decreases cfg.retries - attempt
  {
    if attempt < cfg.retries {
      PinnedTimeBound(world[attempt], AttemptTimeout(cfg, attempt, st));
      var (out, st') := Try(world[attempt], cfg, attempt, st);
      if out.None? {
        ClockNeverFalls(world, cfg, attempt + 1, st');
      }
    }
  }

  lemma SilentFirst(cfg: Config, k: nat, start: real)
    requires cfg.T >= 1 && k >= 1 && cfg.retries >= 1
    ensures var (out, st) := Try(Silent(k, cfg.T as real + 1.0), cfg, 0, Initial(cfg, start));
            && st.clock >= start + Times(k, cfg.T as real)
            && (cfg.retries >= 2 ==> out.None? && st == AfterSilence(cfg, k, start))
  {
    SilenceTakesAll(k, cfg.T as real + 1.0, cfg.T as real);
    assert [] + [cfg.T as real] == [cfg.T as real];
  }

  lemma RestLeavesASecond(cfg: Config, k: nat, start: real)
    requires cfg.T >= 1
    ensures var st := AfterSilence(cfg, k, start);
            && st.deadline == start + Times(k, cfg.T as real) + cfg.T as real
            && start + Times(k, cfg.T as real) <= st.clock <= st.deadline - 1.0
  {
  }

  lemma WorstWorldIsWorse(cfg: Config, k: nat, start: real)
    requires cfg.T >= 1 && k >= 1 && !FewTries(cfg, k)
    ensures var world := WorstWorld(cfg, k, start);
            Fits(world, cfg, k) && Loop(world, cfg, 0, Initial(cfg, start)).1.clock > start + 2.0 * cfg.T as real
  {
    var T := cfg.T as real;
    var world := WorstWorld(cfg, k, start);
    SilenceTakesAll(k, T + 1.0, T);
    assert world[0] == Silent(k, T + 1.0);
    if k >= 3 {
      SilentFirst(cfg, k, start);
      ClockNeverFalls(world, cfg, 0, Initial(cfg, start));
      ThreeTimes(k, T);
    } else {
      AfterFirstSilence(world, cfg, k, start);
      if k == 2 {
        SilentSecond(world, cfg, start);
      } else {
        BrokenSecond(world, cfg, start);
      }
    }
  }

  lemma ThreeTimes(k: nat, T: real)
    requires k >= 3 && T >= 1.0
    ensures Times(k, T) > 2.0 * T
  {
    TimesAtLeastOne(k - 2, T);
    assert Times(k, T) == T + Times(k - 1, T) == T + (T + Times(k - 2, T));
  }

  lemma AfterFirstSilence(world: seq<seq<Contact>>, cfg: Config, k: nat, start: real)
    requires cfg.T >= 1 && k >= 1 && 2 <= cfg.retries <= |world| && world[0] == Silent(k, cfg.T as real + 1.0)
    ensures Loop(world, cfg, 0, Initial(cfg, start)) == Loop(world, cfg, 1, AfterSilence(cfg, k, start))
  {
    SilentFirst(cfg, k, start);
  }

  /** With two addresses the second attempt starts after 2T already. */
  lemma SilentSecond(world: seq<seq<Contact>>, cfg: Config, start: real)
    requires cfg.T >= 1 && cfg.retries >= 2 && world == WorstWorld(cfg, 2, start)
    ensures Loop(world, cfg, 1, AfterSilence(cfg, 2, start)).1.clock > start + 2.0 * cfg.T as real
  {
    var st := AfterSilence(cfg, 2, start);
    var t := AttemptTimeout(cfg, 1, st);
    RestLeavesASecond(cfg, 2, start);
    TimesIsProduct(2, cfg.T as real);
    assert world[1] == Silent(2, cfg.T as real + 1.0);
    SilenceTakesAll(2, cfg.T as real + 1.0, t);
    TimesAtLeastOne(2, t);
    ClockNeverFalls(world, cfg, 1, st);
  }

  /** A later attempt at one address, broken half a second before the deadline: too late for a sleep. */
  lemma BrokenAttempt(cfg: Config, attempt: nat, st: State)
    requires 0 < attempt < cfg.retries - 1 && st.deadline - st.clock >= 1.0
    ensures var breaks := Contact(st.deadline - st.clock - 0.5, Broken(false, "unreachable"));
            var (out, st') := Try([breaks], cfg, attempt, st);
            out.None? && st'.clock == st.deadline - 0.5 && st'.deadline == st.deadline
  {
    var breaks := Contact(st.deadline - st.clock - 0.5, Broken(false, "unreachable"));
    var t := AttemptTimeout(cfg, attempt, st);
    assert t == st.deadline - st.clock && ContactTime(breaks, t) == st.deadline - st.clock - 0.5;
    assert [breaks][1..] == [] && PinnedTime([breaks], t) == ContactTime(breaks, t) + PinnedTime([], t);
    assert Pinned([breaks], t) == Failed(OtherFailure(false, "unreachable"));
    assert Nap(cfg, attempt, 0.5) <= 0.0;
  }

  /** With one address the third attempt then has a whole second to be silent in. */
  lemma BrokenSecond(world: seq<seq<Contact>>, cfg: Config, start: real)
    requires cfg.T >= 1 && cfg.retries >= 3 && world == WorstWorld(cfg, 1, start)
    ensures Loop(world, cfg, 1, AfterSilence(cfg, 1, start)).1.clock >= start + 2.0 * cfg.T as real + 0.5
  {
    var T := cfg.T as real;
    var st := AfterSilence(cfg, 1, start);
    RestLeavesASecond(cfg, 1, start);
    assert Times(1, T) == T && Times(1, 1.0) == 1.0;
    BrokenAttempt(cfg, 1, st);
    assert world[1] == [Contact(st.deadline - st.clock - 0.5, Broken(false, "unreachable"))];
    var st2 := Try(world[1], cfg, 1, st).1;
    assert world[2] == Silent(1, T + 1.0);
    SilenceTakesAll(1, T + 1.0, 1.0);
    ClockNeverFalls(world, cfg, 2, st2);
  }

  /** For example a silent peer, then one that breaks the connection half a second before the
      deadline, then silence again, take 20.5 seconds with the default configuration. */
  lemma TwiceTheTimeoutIsExceeded()
    ensures var silent := [Contact(100.0, Broken(false, "unreachable"))];
            var breaks := [Contact(8.5, Broken(false, "unreachable"))];
            var cfg := Config(10, 3, 1.0);
            var (out, end) := Loop([silent, breaks, silent], cfg, 0, Initial(cfg, 0.0));
            out == Outcome(None, Some(UNCONFIRMED)) && end.clock == 20.5
  {
    var silent := [Contact(100.0, Broken(false, "unreachable"))];
    var breaks := [Contact(8.5, Broken(false, "unreachable"))];
    var cfg := Config(10, 3, 1.0);
    var world := [silent, breaks, silent];
    assert silent[1..] == [] && breaks[1..] == [] && Pow2(0) == 1 && Pow2(1) == 2;
    assert Pinned(silent, 10.0) == Failed(TimedOut) && PinnedTime(silent, 10.0) == 10.0;
    assert Pinned(breaks, 9.0).Failed? && PinnedTime(breaks, 9.0) == 8.5;
    assert Pinned(silent, 1.0) == Failed(TimedOut) && PinnedTime(silent, 1.0) == 1.0;
    var (_, s1) := Try(silent, cfg, 0, Initial(cfg, 0.0));
    assert Nap(cfg, 0, 10.0) == 1.0 && Nap(cfg, 1, 0.5) == 0.0;
    assert s1.clock == 11.0 && s1.deadline == 20.0;
    var (_, s2) := Try(breaks, cfg, 1, s1);
    assert s2.clock == 19.5 && s2.deadline == 20.0;
    var (out, s3) := Try(silent, cfg, 2, s2);
    assert out == Some(Outcome(None, Some(UNCONFIRMED))) && s3.clock == 20.5;
    assert Loop(world, cfg, 2, s2) == (out.value, s3);
    assert Loop(world, cfg, 1, s1) == Loop(world, cfg, 2, s2);
  }

  // ---------------------------------------------------------------------------------
  // What the caller is told
  // ---------------------------------------------------------------------------------

  /** Some contact that was made said that the message landed. */
  ghost predicate Confirmed(world: seq<seq<Contact>>, timeouts: seq<real>)
    requires |timeouts| <= |world|
  {
    exists a | 0 <= a < |timeouts| :: LandedIn(world[a], timeouts[a])
  }

  ghost predicate LandedIn(contacts: seq<Contact>, timeout: real) {
    exists i | 0 <= i < Contacted(contacts, timeout) :: SaysItLanded(contacts[i], timeout)
  }

  /** A delivery ends without a reason of failure if and only if some address that was contacted, in
      some attempt, said in time that the message landed. */
  lemma ConfirmedExactly(world: seq<seq<Contact>>, cfg: Config, start: real)
    requires cfg.retries <= |world|
    ensures var (out, end) := Loop(world, cfg, 0, Initial(cfg, start));
            |end.timeouts| <= |world| && (out.reason.None? <==> Confirmed(world, end.timeouts))
  {
    DeliveryOutcome(world, cfg, start);
    var (out, end) := Loop(world, cfg, 0, Initial(cfg, start));
    ConfirmedIsLanded(world, end.timeouts);
    NoReasonIsLanded(world, cfg, out, end);
  }

  lemma NoReasonIsLanded(world: seq<seq<Contact>>, cfg: Config, out: Outcome, end: State)
    requires |end.timeouts| <= |world| && OutcomeFits(world, cfg, out, end)
    ensures out.reason.None? <==> exists a | 0 <= a < |end.timeouts| :: Pinned(world[a], end.timeouts[a]).Landed?
  {
    var n := |end.timeouts|;
    if n > 0 {
      var last := Pinned(world[n - 1], end.timeouts[n - 1]);
      assert out.reason.None? <==> last.Landed?;
    }
  }

  lemma ConfirmedIsLanded(world: seq<seq<Contact>>, timeouts: seq<real>)
    requires |timeouts| <= |world|
    ensures Confirmed(world, timeouts) <==> exists a | 0 <= a < |timeouts| :: Pinned(world[a], timeouts[a]).Landed?
  {
    forall a | 0 <= a < |timeouts|
      ensures LandedIn(world[a], timeouts[a]) <==> Pinned(world[a], timeouts[a]).Landed?
    {
      FailureMeansNoProof(world[a], timeouts[a]);
    }
  }

  /** How a contact that did not confirm is reported. */
  function Reported(c: Contact, timeout: real): string {
    if c.latency > timeout then UNCONFIRMED
    else match c.reply
         case Success(_) => UNCONFIRMED
         case Garbage(reason) => reason
         case ErrorStatus(token, _, reason) => if token.Some? then RefusalReason(token.value) else reason
         case Broken(mentionsTimeout, reason) => if mentionsTimeout then UNCONFIRMED else reason
  }

  /** The last address that an attempt contacts. */
  function LastContact(contacts: seq<Contact>, timeout: real): Contact
    requires contacts != []
  {
    contacts[Max(1, Contacted(contacts, timeout)) - 1]
  }

  lemma {:induction false} LastContactDecides(contacts: seq<Contact>, timeout: real)
    requires contacts != [] && Pinned(contacts, timeout).Failed?
    ensures Contacted(contacts, timeout) >= 1
    ensures FailureReason(Pinned(contacts, timeout).exc) == Reported(LastContact(contacts, timeout), timeout)
  {
    if |contacts| == 1 {
      assert Contacted(contacts[1..], timeout) == 0;
    } else if !Returns(contacts[0], timeout) {
      LastContactDecides(contacts[1..], timeout);
    }
  }

  /** A failed delivery reports its last contact: a silence is never reported as a refusal, and a
      body token outranks the status code, whatever the shared mapping says of it. */
  lemma OutcomesKeepTheirMeaning(world: seq<seq<Contact>>, cfg: Config, start: real)
    requires cfg.retries <= |world| && forall a | 0 <= a < |world| :: world[a] != []
    ensures var (out, end) := Loop(world, cfg, 0, Initial(cfg, start));
            var n := |end.timeouts|;
            && n <= |world|
            && (out.reason.Some? && n > 0 ==> out.reason.value == Reported(LastContact(world[n - 1], end.timeouts[n - 1]), end.timeouts[n - 1]))
  {
    DeliveryOutcome(world, cfg, start);
    var end := Loop(world, cfg, 0, Initial(cfg, start)).1;
    var n := |end.timeouts|;
    if n > 0 {
      var last := Pinned(world[n - 1], end.timeouts[n - 1]);
      if last.Failed? {
        LastContactDecides(world[n - 1], end.timeouts[n - 1]);
      }
    }
  }

  /** A confirmed delivery hands the caller no id, which callers read as a failure, if and only if
      the answer that confirmed it has a null `delivery_id`. */
  lemma NullIdReadsAsFailure(world: seq<seq<Contact>>, cfg: Config, start: real)
    requires cfg.retries <= |world|
    ensures var (out, end) := Loop(world, cfg, 0, Initial(cfg, start));
            var n := |end.timeouts|;
            && n <= |world|
            && (out.id.None? <==> out.reason.Some? || (n > 0 && Pinned(world[n - 1], end.timeouts[n - 1]) == Landed(NullId)))
            && (out.id.Some? ==> out.reason.None?)
  {
    DeliveryOutcome(world, cfg, start);
  }
}
