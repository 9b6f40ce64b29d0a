/** Closed-thread anchors as values: the list on disk, the life of one anchor over a run of
    attempts, and the snapshot each process caches of the list. */
module Anchors {
  import opened Common

  datatype Entry = Entry(anchor: string, closedAt: real, closedBy: string, pending: bool)

  datatype Status = Absent | Pending | Final

  predicate Has(s: seq<Entry>, a: string) {
    exists e | e in s :: e.anchor == a
  }

  function StatusOf(s: seq<Entry>, a: string): Status {
    if s == [] then Absent
    else if s[0].anchor == a then (if s[0].pending then Pending else Final)
    else StatusOf(s[1..], a)
  }

  // ---------------------------------------------------------------------------------
  // The three writes
  // ---------------------------------------------------------------------------------

  function Recorded(s: seq<Entry>, a: string, closedBy: string, at: real, pending: bool): seq<Entry> {
    if Has(s, a) then s else s + [Entry(a, at, closedBy, pending)]
  }

  function Promoted(s: seq<Entry>, a: string): seq<Entry> {
    if s == [] then []
    else [if s[0].anchor == a then s[0].(pending := false) else s[0]] + Promoted(s[1..], a)
  }

  function Withdrawn(s: seq<Entry>, a: string): seq<Entry> {
    if s == [] then []
    else (if s[0].anchor == a && s[0].pending then [] else [s[0]]) + Withdrawn(s[1..], a)
  }

  ghost predicate Distinct(s: seq<Entry>) {
    forall i, j | 0 <= i < j < |s| :: s[i].anchor != s[j].anchor
  }

  lemma {:induction false} HasIsStatus(s: seq<Entry>, a: string)
    ensures Has(s, a) <==> StatusOf(s, a) != Absent
  {
    if s != [] {
      HasIsStatus(s[1..], a);
      assert forall e :: e in s <==> e == s[0] || e in s[1..];
    }
  }

  lemma {:induction false} StatusOfAppend(s: seq<Entry>, e: Entry, a: string)
    ensures StatusOf(s + [e], a)
            == if StatusOf(s, a) != Absent then StatusOf(s, a) else StatusOf([e], a)
  {
    if s == [] {
      assert s + [e] == [e];
    } else {
      StatusOfAppend(s[1..], e, a);
      assert (s + [e])[1..] == s[1..] + [e];
    }
  }

  lemma RecordedStatus(s: seq<Entry>, a: string, closedBy: string, at: real, pending: bool, b: string)
    requires Distinct(s)
    ensures Distinct(Recorded(s, a, closedBy, at, pending))
    ensures StatusOf(Recorded(s, a, closedBy, at, pending), b)
            == if b == a && StatusOf(s, a) == Absent then (if pending then Pending else Final) else StatusOf(s, b)
  {
    HasIsStatus(s, a);
    StatusOfAppend(s, Entry(a, at, closedBy, pending), b);
  }

  lemma {:induction false} PromotedStatus(s: seq<Entry>, a: string, b: string)
    requires Distinct(s)
    ensures |Promoted(s, a)| == |s| && forall i | 0 <= i < |s| :: Promoted(s, a)[i].anchor == s[i].anchor
    ensures Distinct(Promoted(s, a))
    ensures StatusOf(Promoted(s, a), b) == if b == a && StatusOf(s, a) == Pending then Final else StatusOf(s, b)
  {
    if s != [] {
      PromotedStatus(s[1..], a, b);
    }
  }

  lemma {:induction false} WithdrawnDistinct(s: seq<Entry>, a: string)
    requires Distinct(s)
    ensures forall e | e in Withdrawn(s, a) :: e in s
    ensures Distinct(Withdrawn(s, a))
  {
    if s != [] {
      WithdrawnDistinct(s[1..], a);
      var tail := Withdrawn(s[1..], a);
      forall j | 0 <= j < |tail|
        ensures tail[j].anchor != s[0].anchor
      {
        assert tail[j] in s[1..];
      }
    }
  }

  lemma {:induction false} WithdrawnStatus(s: seq<Entry>, a: string, b: string)
    requires Distinct(s)
    ensures StatusOf(Withdrawn(s, a), b) == if b == a && StatusOf(s, a) == Pending then Absent else StatusOf(s, b)
  {
    if s != [] {
      WithdrawnStatus(s[1..], a, b);
      HasIsStatus(s[1..], s[0].anchor);
      assert !Has(s[1..], s[0].anchor);
      var tail := Withdrawn(s[1..], a);
      if s[0].anchor == a && s[0].pending {
        assert Withdrawn(s, a) == tail;
      } else {
        assert Withdrawn(s, a) == [s[0]] + tail && ([s[0]] + tail)[1..] == tail;
      }
    }
  }

  /** Promoting changes nothing but the mark of pending entries of that anchor, and withdrawing
      removes exactly those. */
  lemma {:induction false} RewritesKeepTheRest(s: seq<Entry>, a: string, e: Entry)
    ensures e in Withdrawn(s, a) <==> e in s && !(e.anchor == a && e.pending)
    ensures e in Promoted(s, a) <==>
              if e.anchor == a then !e.pending && (e in s || e.(pending := true) in s) else e in s
  {
    if s != [] {
      RewritesKeepTheRest(s[1..], a, e);
    }
  }

  // ---------------------------------------------------------------------------------
  // The life of an anchor over a run
  // ---------------------------------------------------------------------------------

  /** What a bookkeeping call did: its work; nothing, when a token, the lock or the write failed
      (every caller goes on); or, when a record could not read the list but could write, a new
      list with its own entry alone. A rewrite that cannot read does nothing. */
  datatype Book = Done | Skipped | Restarted

  function BookOf(valid: bool, io: FileIO): Book {
    if !valid || !io.lockOk || !io.writeOk then Skipped else if io.readOk then Done else Restarted
  }

  /** What happens to terminal anchors, in the order of the registry lock. */
  datatype Event =
    | Begin(a: string, who: string, at: real, book: Book)    // an attempt records its anchor pending
    | Confirm(a: string, book: Book)                         // its delivery was confirmed: promote
    | Fail(a: string, book: Book)                            // its delivery failed: withdraw
    | Receive(a: string, who: string, at: real, book: Book)  // the recipient records the close
    | Settle(a: string, book: Book)                          // withdraw outside an attempt

  function RecordAs(s: seq<Entry>, a: string, who: string, at: real, pending: bool, book: Book): seq<Entry> {
    match book
    case Done => Recorded(s, a, who, at, pending)
    case Skipped => s
    case Restarted => [Entry(a, at, who, pending)]
  }

  function ApplyEvent(s: seq<Entry>, e: Event): seq<Entry> {
    match e
    case Begin(a, who, at, book) => RecordAs(s, a, who, at, true, book)
    case Receive(a, who, at, book) => RecordAs(s, a, who, at, false, book)
    case Confirm(a, book) => if book == Done then Promoted(s, a) else s
    case Fail(a, book) => if book == Done then Withdrawn(s, a) else s
    case Settle(a, book) => if book == Done then Withdrawn(s, a) else s
  }

  function RunEvents(s: seq<Entry>, es: seq<Event>): seq<Entry> {
    if es == [] then s
    else ApplyEvent(RunEvents(s, es[..|es| - 1]), es[|es| - 1])
  }

  /** What a record marked `mark` does to the status of its own or of another anchor. */
  function NextRecord(was: Status, own: bool, mark: Status, book: Book): Status {
    match book
    case Skipped => was
    case Done => if own && was == Absent then mark else was
    case Restarted => if own then mark else Absent
  }

  /** What an event does to the status of an anchor. */
  function Next(was: Status, e: Event, b: string): Status {
    match e
    case Begin(a, _, _, book) => NextRecord(was, a == b, Pending, book)
    case Receive(a, _, _, book) => NextRecord(was, a == b, Final, book)
    case Confirm(a, book) => if a == b && book == Done && was == Pending then Final else was
    case Fail(a, book) => if a == b && book == Done && was == Pending then Absent else was
    case Settle(a, book) => if a == b && book == Done && was == Pending then Absent else was
  }

  lemma EventStatus(s: seq<Entry>, e: Event, b: string)
    requires Distinct(s)
    ensures Distinct(ApplyEvent(s, e))
    ensures StatusOf(ApplyEvent(s, e), b) == Next(StatusOf(s, b), e, b)
  {
    match e
    case Begin(a, who, at, _) => RecordedStatus(s, a, who, at, true, b);
    case Confirm(a, _) => PromotedStatus(s, a, b);
    case Fail(a, _) =>
      WithdrawnDistinct(s, a);
      WithdrawnStatus(s, a, b);
    case Receive(a, who, at, _) => RecordedStatus(s, a, who, at, false, b);
    case Settle(a, _) =>
      WithdrawnDistinct(s, a);
      WithdrawnStatus(s, a, b);
  }

  lemma {:induction false} RunDistinct(s: seq<Entry>, es: seq<Event>)
    requires Distinct(s)
    ensures Distinct(RunEvents(s, es))
  {
    if es != [] {
      RunDistinct(s, es[..|es| - 1]);
      EventStatus(RunEvents(s, es[..|es| - 1]), es[|es| - 1], "");
    }
  }

  /** The event started a new list. */
  predicate Restarts(e: Event) { e.book == Restarted && (e.Begin? || e.Receive?) }

  /** The event started a new list in which the anchor is not final. */
  predicate Erases(e: Event, a: string) { Restarts(e) && (e.a != a || e.Begin?) }

  /** A pending record of the anchor was made and neither settled nor lost since. */
  predicate Open(es: seq<Event>, a: string) {
    if es == [] then false
    else
      var last := es[|es| - 1];
      if Restarts(last) then last.Begin? && last.a == a
      else if last.a == a && last.book == Done && !last.Receive? then last.Begin?
      else Open(es[..|es| - 1], a)
  }

  /** Event i proves the close: a confirmation that finds the anchor's pending record, or the
      recipient's record at a moment when there is none in its way. */
  predicate Proves(es: seq<Event>, i: nat, a: string)
    requires i < |es|
  {
    && es[i].a == a
    && match es[i]
       case Confirm(_, book) => book == Done && Open(es[..i], a)
       case Receive(_, _, _, book) => book == Restarted || (book == Done && !Open(es[..i], a))
       case _ => false
  }

  /** Something proved the close, and the list was not lost since. */
  ghost predicate Standing(es: seq<Event>, a: string) {
    exists i: nat | i < |es| :: Proves(es, i, a) && forall j | i < j < |es| :: !Erases(es[j], a)
  }

  lemma StandingStep(es: seq<Event>, a: string)
    requires es != []
    ensures Standing(es, a) <==>
            (Standing(es[..|es| - 1], a) && !Erases(es[|es| - 1], a)) || Proves(es, |es| - 1, a)
  {
    var n := |es| - 1;
    var init := es[..n];
    forall i: nat | i < n
      ensures Proves(init, i, a) == Proves(es, i, a)
    {
      assert init[..i] == es[..i];
    }
    if Standing(es, a) {
      var i: nat :| i < |es| && Proves(es, i, a) && forall j | i < j < |es| :: !Erases(es[j], a);
      if i < n {
        assert Proves(init, i, a) && forall j | i < j < n :: !Erases(init[j], a);
      }
    }
    if Standing(init, a) && !Erases(es[n], a) {
      var i: nat :| i < n && Proves(init, i, a) && forall j | i < j < n :: !Erases(init[j], a);
      assert Proves(es, i, a) && forall j | i < j < |es| :: !Erases(es[j], a);
    }
  }

  /** The status of every anchor after every run, overlapping attempts and failing bookkeeping
      included: final exactly when something has proved the close and stands, else pending
      exactly while a pending record is open, else absent. */
  lemma {:induction false} StatusAfterRun(es: seq<Event>, a: string)
    ensures StatusOf(RunEvents([], es), a)
            == if Standing(es, a) then Final else if Open(es, a) then Pending else Absent
  {
    if es != [] {
      var init := es[..|es| - 1];
      StatusAfterRun(init, a);
      RunDistinct([], init);
      EventStatus(RunEvents([], init), es[|es| - 1], a);
      StandingStep(es, a);
    }
  }

  // ---------------------------------------------------------------------------------
  // Runs whose attempts do not overlap and whose bookkeeping works
  // ---------------------------------------------------------------------------------

  /** An attempt on the anchor has begun and not ended. */
  predicate InFlight(es: seq<Event>, a: string) {
    if es == [] then false
    else
      var last := es[|es| - 1];
      if last.a == a && last.Begin? then true
      else if last.a == a && (last.Confirm? || last.Fail?) then false
      else InFlight(es[..|es| - 1], a)
  }

  /** Attempts on one anchor do not overlap, and a settlement happens between attempts. */
  predicate NonOverlapping(es: seq<Event>) {
    if es == [] then true
    else
      var init := es[..|es| - 1];
      var last := es[|es| - 1];
      && NonOverlapping(init)
      && (last.Begin? || last.Settle? ==> !InFlight(init, last.a))
      && (last.Confirm? || last.Fail? ==> InFlight(init, last.a))
  }

  ghost predicate AllDone(es: seq<Event>) { forall e | e in es :: e.book == Done }

  lemma {:induction false} OpenIsInFlight(es: seq<Event>, a: string)
    requires NonOverlapping(es) && AllDone(es)
    ensures Open(es, a) == InFlight(es, a)
  {
    if es != [] {
      assert es[|es| - 1] in es;
      OpenIsInFlight(es[..|es| - 1], a);
    }
  }

  /** In such runs a thread reads closed for the whole of an attempt on its terminator, and an
      attempt that ended leaves nothing pending. */
  lemma ClosedWhileInFlight(es: seq<Event>, a: string)
    requires NonOverlapping(es) && AllDone(es)
    ensures InFlight(es, a) ==> Has(RunEvents([], es), a)
    ensures StatusOf(RunEvents([], es), a) == Pending <==> InFlight(es, a) && !Standing(es, a)
    ensures StatusOf(RunEvents([], es), a) == Absent <==> !InFlight(es, a) && !Standing(es, a)
  {
    StatusAfterRun(es, a);
    OpenIsInFlight(es, a);
    HasIsStatus(RunEvents([], es), a);
  }

  lemma RunOfOne(s: seq<Entry>, e: Event)
    ensures RunEvents(s, [e]) == ApplyEvent(s, e)
  {
    assert [e][..|[e]| - 1] == [];
  }

  lemma RunOfTwo(s: seq<Entry>, e: Event, f: Event)
    ensures RunEvents(s, [e, f]) == ApplyEvent(ApplyEvent(s, e), f)
  {
    assert [e, f][..|[e, f]| - 1] == [e];
    RunOfOne(s, e);
  }

  /** An attempt and its end do not overlap with anything. */
  lemma OneAttempt(e: Event, f: Event)
    requires e.Begin? && (f.Confirm? || f.Fail?) && e.a == f.a
    ensures NonOverlapping([e, f]) && !InFlight([e, f], e.a)
  {
    assert [e, f][..|[e, f]| - 1] == [e] && [e][..|[e]| - 1] == [];
    assert NonOverlapping([]) && NonOverlapping([e]) && InFlight([e], e.a);
  }

  /** When the record failed, the confirmation of the delivery finds nothing to promote: a
      delivered terminator leaves its thread open. */
  lemma UnrecordedCloseIsLost(a: string, sender: string, at: real)
    ensures var es := [Begin(a, sender, at, Skipped), Confirm(a, Done)];
            NonOverlapping(es) && StatusOf(RunEvents([], es), a) == Absent
  {
    OneAttempt(Begin(a, sender, at, Skipped), Confirm(a, Done));
    RunOfTwo([], Begin(a, sender, at, Skipped), Confirm(a, Done));
  }

  /** When the withdrawal failed, the thread stays closed by a terminator that never arrived. */
  lemma UnwithdrawnCloseStays(a: string, sender: string, at: real)
    ensures var es := [Begin(a, sender, at, Done), Fail(a, Skipped)];
            && NonOverlapping(es) && !InFlight(es, a)
            && StatusOf(RunEvents([], es), a) == Pending && Has(RunEvents([], es), a)
  {
    var e, f := Begin(a, sender, at, Done), Fail(a, Skipped);
    OneAttempt(e, f);
    RunOfTwo([], e, f);
    EventStatus([], e, a);
    EventStatus(ApplyEvent([], e), f, a);
    HasIsStatus(RunEvents([], [e, f]), a);
  }

  /** An anchor once final stays final at every later moment if and only if no event starts a
      new list without it. Neither overlapping attempts nor any other failure costs it. */
  lemma {:induction false} FinalIsForever(s: seq<Entry>, es: seq<Event>, a: string)
    requires Distinct(s) && StatusOf(s, a) == Final
    ensures FinalThroughout(s, es, a) <==> forall e | e in es :: !Erases(e, a)
  {
    if es != [] {
      var init, last := es[..|es| - 1], es[|es| - 1];
      FinalIsForever(s, init, a);
      RunDistinct(s, init);
      EventStatus(RunEvents(s, init), last, a);
      assert es == init + [last];
      assert forall e :: e in es <==> e in init || e == last;
      if FinalThroughout(s, init, a) {
        assert FinalThroughout(s, es, a) <==> !Erases(last, a);
      }
    }
  }

  /** The anchor is final before, between and after the events. */
  predicate FinalThroughout(s: seq<Entry>, es: seq<Event>, a: string) {
    StatusOf(RunEvents(s, es), a) == Final && (es != [] ==> FinalThroughout(s, es[..|es| - 1], a))
  }

  /** And it became final by a confirmation that found its pending record, or by its recipient when
      no such record was in the way, never otherwise. */
  lemma FinalOnlyByProof(es: seq<Event>, a: string)
    requires StatusOf(RunEvents([], es), a) == Final
    ensures exists i: nat | i < |es| :: Proves(es, i, a) && forall j | i < j < |es| :: !Erases(es[j], a)
  {
    StatusAfterRun(es, a);
  }

  /** The recipient's record does not by itself make the close survive: made while the
      sender's attempt is in flight it is ignored, and a sender that then sees its attempt
      fail (a lost answer, say) withdraws the only trace. */
  lemma RecipientRecordCanBeLost(a: string, sender: string, recipient: string, at: real)
    ensures var es := [Begin(a, sender, at, Done), Receive(a, recipient, at, Done), Fail(a, Done)];
            NonOverlapping(es) && AllDone(es) && StatusOf(RunEvents([], es), a) == Absent
  {
    var es := [Begin(a, sender, at, Done), Receive(a, recipient, at, Done), Fail(a, Done)];
    var one, two := es[..1], es[..2];
    assert one[..|one| - 1] == [] && two[..|two| - 1] == one && es[..|es| - 1] == two;
    assert NonOverlapping([]) && !InFlight([], a);
    assert NonOverlapping(one) && InFlight(one, a);
    assert NonOverlapping(two) && InFlight(two, a);
    assert Open(one, a);
    forall i: nat | i < |es|
      ensures !Proves(es, i, a)
    {
      assert es[..1] == one;
    }
    StatusAfterRun(es, a);
    OpenIsInFlight(es, a);
  }

  // ---------------------------------------------------------------------------------
  // The cache
  // ---------------------------------------------------------------------------------

  /** The registry file. `stamp` is its modification time, new at every write. A corrupt file
      is one whose reads fail until it is written again. */
  datatype Disk = Disk(present: bool, entries: seq<Entry>, stamp: nat)

  const NO_FILE := Disk(false, [], 0)

  /** One process's snapshot. `degraded` marks a snapshot taken from a read that failed. */
  datatype Cache = Cache(loaded: bool, locked: set<string>, mtime: Option<nat>, degraded: bool)

  const NO_CACHE := Cache(false, {}, None, false)

  function Mtime(d: Disk): Option<nat> { if d.present then Some(d.stamp) else None }

  function Tokens(s: seq<Entry>): set<string> {
    set e | e in s && ValidToken(e.anchor) :: e.anchor
  }

  /** The entries read, and whether the read failed. */
  function ReadDisk(d: Disk, io: FileIO): (seq<Entry>, bool) {
    if io.readOk then (d.entries, false) else ([], true)
  }

  function WriteDisk(d: Disk, s: seq<Entry>): Disk { Disk(true, s, d.stamp + 1) }

  function Hydrated(s: seq<Entry>, d: Disk, degraded: bool): Cache {
    Cache(true, Tokens(s), Mtime(d), degraded)
  }

  function RecordOn(d: Disk, c: Cache, a: string, closedBy: string, at: real, pending: bool, io: FileIO): (Disk, Cache) {
    if !(ValidToken(a) && ValidToken(closedBy)) || !io.lockOk then (d, c)
    else
      var s := ReadDisk(d, io).0;
      if Has(s, a) then (d, Hydrated(s, d, false))
      else if !io.writeOk then (d, c)
      else
        var u := Recorded(s, a, closedBy, at, pending);
        (WriteDisk(d, u), Hydrated(u, WriteDisk(d, u), false))
  }

  /** promote when `promote`, else withdraw. */
  function RewriteOn(d: Disk, c: Cache, a: string, promote: bool, io: FileIO): (Disk, Cache) {
    var (s, failed) := ReadDisk(d, io);
    var u := if promote then Promoted(s, a) else Withdrawn(s, a);
    if !ValidToken(a) || !io.lockOk || failed || u == s || !io.writeOk then (d, c)
    else (WriteDisk(d, u), Hydrated(u, WriteDisk(d, u), false))
  }

  function IsClosedOn(d: Disk, c: Cache, a: string, io: FileIO): (Cache, bool) {
    if !io.lockOk then (c, false)
    else
      var used := if c.loaded && c.mtime == Mtime(d) then c else Hydrated(ReadDisk(d, io).0, d, !io.readOk);
      (used, a in used.locked)
  }

  ghost predicate GoodDisk(d: Disk) {
    && (!d.present ==> d.entries == [])
    && Distinct(d.entries)
    && forall e | e in d.entries :: ValidToken(e.anchor)
  }

  /** A snapshot that carries the file's current modification time shows the file, unless it
      was taken from a failed read. */
  ghost predicate Coherent(d: Disk, c: Cache) {
    && (c.mtime.Some? ==> d.present && c.mtime.value <= d.stamp)
    && (c.loaded && c.mtime == Mtime(d) ==> c.locked == if c.degraded then {} else Tokens(d.entries))
  }

  lemma StaleStaysCoherent(d: Disk, c: Cache, s: seq<Entry>)
    requires Coherent(d, c)
    ensures Coherent(WriteDisk(d, s), c)
  {
  }

  /** No rewrite costs a final anchor, and a record costs one only when it could not read the
      list and could write: it then starts a new list that has its own anchor alone. */
  lemma FinalSurvivesExactly(d: Disk, c: Cache, a: string, closedBy: string, at: real, pending: bool, promote: bool, io: FileIO, b: string)
    requires GoodDisk(d) && StatusOf(d.entries, b) == Final && ValidToken(a) && ValidToken(closedBy)
    ensures StatusOf(RewriteOn(d, c, a, promote, io).0.entries, b) == Final
    ensures StatusOf(RecordOn(d, c, a, closedBy, at, pending, io).0.entries, b) == Final <==>
            io.readOk || !io.lockOk || !io.writeOk || (a == b && !pending)
  {
    PromotedStatus(d.entries, a, b);
    WithdrawnStatus(d.entries, a, b);
    RecordedStatus(ReadDisk(d, io).0, a, closedBy, at, pending, b);
  }

  datatype Op =
    | OpRecord(a: string, closedBy: string, at: real, pending: bool)
    | OpRewrite(a: string, promote: bool)
    | OpIsClosed(a: string)

  /** An operation by process `p`, with the file's behaviour during it. */
  datatype CacheStep = CacheStep(p: nat, op: Op, io: FileIO)

  datatype World = World(disk: Disk, caches: map<nat, Cache>)

  function CacheOf(w: World, p: nat): Cache {
    if p in w.caches then w.caches[p] else NO_CACHE
  }

  function ApplyCache(w: World, st: CacheStep): World {
    var c := CacheOf(w, st.p);
    var (d', c') := OpOn(w.disk, c, st.op, st.io);
    World(d', w.caches[st.p := c'])
  }

  function RunCache(w: World, steps: seq<CacheStep>): World {
    if steps == [] then w
    else ApplyCache(RunCache(w, steps[..|steps| - 1]), steps[|steps| - 1])
  }

  /** The event that an operation is for the anchors' lives, if any. */
  function EventOf(op: Op, io: FileIO): seq<Event> {
    match op
    case OpRecord(a, who, at, pending) =>
      var book := BookOf(ValidToken(a) && ValidToken(who), io);
      if pending then [Begin(a, who, at, book)] else [Receive(a, who, at, book)]
    case OpRewrite(a, promote) =>
      var book := BookOf(ValidToken(a), io);
      if promote then [Confirm(a, book)] else [Fail(a, book)]
    case OpIsClosed(_) => []
  }

  function OpOn(d: Disk, c: Cache, op: Op, io: FileIO): (Disk, Cache) {
    match op
    case OpRecord(a, closedBy, at, pending) => RecordOn(d, c, a, closedBy, at, pending, io)
    case OpRewrite(a, promote) => RewriteOn(d, c, a, promote, io)
    case OpIsClosed(a) => (d, IsClosedOn(d, c, a, io).0)
  }

  /** Whatever fails during it, an operation does to the file what its event does. */
  lemma OperationIsEvent(d: Disk, c: Cache, op: Op, io: FileIO)
    ensures OpOn(d, c, op, io).0.entries == RunEvents(d.entries, EventOf(op, io))
  {
    if !op.OpIsClosed? {
      RunOfOne(d.entries, EventOf(op, io)[0]);
    }
  }

  ghost predicate GoodWorld(w: World) {
    && GoodDisk(w.disk)
    && forall p: nat :: Coherent(w.disk, CacheOf(w, p))
  }

  /** An operation leaves the file well-formed, its own snapshot coherent, and the file either
      untouched or under a fresh modification time. */
  lemma OperationKeeps(d: Disk, c: Cache, op: Op, io: FileIO, d': Disk, c': Cache)
    requires GoodDisk(d) && Coherent(d, c)
    requires (d', c') == OpOn(d, c, op, io)
    ensures GoodDisk(d') && Coherent(d', c')
    ensures d' == d || d' == WriteDisk(d, d'.entries)
    ensures io.readOk && !c.degraded ==> !c'.degraded
  {
    match op
    case OpRecord(a, closedBy, at, pending) => RecordKeeps(d, c, a, closedBy, at, pending, io);
    case OpRewrite(a, promote) => RewriteKeeps(d, c, a, promote, io);
    case OpIsClosed(a) =>
  }

  lemma RecordKeeps(d: Disk, c: Cache, a: string, closedBy: string, at: real, pending: bool, io: FileIO)
    requires GoodDisk(d) && Coherent(d, c)
    ensures var (d', c') := RecordOn(d, c, a, closedBy, at, pending, io);
            && GoodDisk(d') && Coherent(d', c')
            && (d' == d || d' == WriteDisk(d, d'.entries))
            && (!c.degraded ==> !c'.degraded)
  {
    RecordedStatus(ReadDisk(d, io).0, a, closedBy, at, pending, a);
  }

  lemma RewriteKeeps(d: Disk, c: Cache, a: string, promote: bool, io: FileIO)
    requires GoodDisk(d) && Coherent(d, c)
    ensures var (d', c') := RewriteOn(d, c, a, promote, io);
            && GoodDisk(d') && Coherent(d', c')
            && (d' == d || d' == WriteDisk(d, d'.entries))
            && (!c.degraded ==> !c'.degraded)
  {
    var s := ReadDisk(d, io).0;
    PromotedStatus(s, a, a);
    PromotedTokens(s, a);
    WithdrawnDistinct(s, a);
  }

  lemma PromotedTokens(s: seq<Entry>, a: string)
    requires Distinct(s) && forall e | e in s :: ValidToken(e.anchor)
    ensures forall e | e in Promoted(s, a) :: ValidToken(e.anchor)
  {
    PromotedStatus(s, a, a);
    forall e | e in Promoted(s, a)
      ensures ValidToken(e.anchor)
    {
      var i :| 0 <= i < |Promoted(s, a)| && Promoted(s, a)[i] == e;
      assert s[i] in s;
    }
  }

  lemma {:induction false} EveryWorldIsGood(steps: seq<CacheStep>)
    ensures GoodWorld(RunCache(World(NO_FILE, map[]), steps))
  {
    if steps != [] {
      var w := RunCache(World(NO_FILE, map[]), steps[..|steps| - 1]);
      var st := steps[|steps| - 1];
      EveryWorldIsGood(steps[..|steps| - 1]);
      var w' := ApplyCache(w, st);
      OperationKeeps(w.disk, CacheOf(w, st.p), st.op, st.io, w'.disk, CacheOf(w', st.p));
      forall p: nat
        ensures Coherent(w'.disk, CacheOf(w', p))
      {
        if p != st.p {
          StaleStaysCoherent(w.disk, CacheOf(w, p), w'.disk.entries);
        }
      }
    }
  }

  /** A record of another anchor, or of this one as pending, that could lock and write the file
      but not read it. */
  predicate LosesFinal(st: CacheStep, a: string) {
    && st.op.OpRecord? && ValidToken(st.op.a) && ValidToken(st.op.closedBy)
    && st.io.lockOk && !st.io.readOk && st.io.writeOk
    && (st.op.a != a || st.op.pending)
  }

  /** Over every interleaving of the processes: a final anchor stays final at every later moment
      if and only if no process records another anchor, or this one as pending, while it can
      lock and write the file but not read it. */
  lemma {:induction false} FinalAcrossProcesses(before: seq<CacheStep>, later: seq<CacheStep>, a: string)
    requires FinalAfter(before, a)
    ensures FinalInEveryWorld(before, later, a) <==> forall st | st in later :: !LosesFinal(st, a)
  {
    if later == [] {
      assert before + later == before;
    } else {
      var init, last := later[..|later| - 1], later[|later| - 1];
      FinalAcrossProcesses(before, init, a);
      if FinalInEveryWorld(before, init, a) {
        FinalStep(before + init, last, a);
      }
      assert before + later == before + init + [last];
      assert forall st :: st in later <==> st in init || st == last;
    }
  }

  predicate FinalAfter(steps: seq<CacheStep>, a: string) {
    StatusOf(RunCache(World(NO_FILE, map[]), steps).disk.entries, a) == Final
  }

  /** The anchor is final before, between and after the later steps. */
  predicate FinalInEveryWorld(before: seq<CacheStep>, later: seq<CacheStep>, a: string)
    decreases |later|
  {
    FinalAfter(before + later, a) && (later != [] ==> FinalInEveryWorld(before, later[..|later| - 1], a))
  }

  lemma FinalStep(steps: seq<CacheStep>, last: CacheStep, a: string)
    requires FinalAfter(steps, a)
    ensures FinalAfter(steps + [last], a) <==> !LosesFinal(last, a)
  {
    var w := RunCache(World(NO_FILE, map[]), steps);
    assert (steps + [last])[..|steps + [last]| - 1] == steps;
    EveryWorldIsGood(steps);
    OperationIsEvent(w.disk, CacheOf(w, last.p), last.op, last.io);
    RunStatusOfOne(w.disk.entries, EventOf(last.op, last.io), a);
  }

  lemma RunStatusOfOne(s: seq<Entry>, es: seq<Event>, a: string)
    requires Distinct(s) && |es| <= 1
    ensures StatusOf(RunEvents(s, es), a) == if es == [] then StatusOf(s, a) else Next(StatusOf(s, a), es[0], a)
  {
    if es != [] {
      RunOfOne(s, es[0]);
      assert es == [es[0]];
      EventStatus(s, es[0], a);
    }
  }

  /** The snapshot a process would answer from came from a read that failed. */
  predicate AnswersBlind(w: World, p: nat) {
    var c := CacheOf(w, p);
    c.loaded && c.mtime == Mtime(w.disk) && c.degraded
  }

  /** Whichever process wrote last, and however the writes interleave, `is_closed` tells in
      every process whether the anchor is in the file, except from a blind snapshot: that
      one answers no to everything. Stored anchors stay pairwise distinct. */
  lemma IsClosedReadsTheFile(steps: seq<CacheStep>, p: nat, a: string)
    ensures var w := RunCache(World(NO_FILE, map[]), steps);
            && Distinct(w.disk.entries)
            && IsClosedOn(w.disk, CacheOf(w, p), a, HEALTHY).1 == (Has(w.disk.entries, a) && !AnswersBlind(w, p))
  {
    EveryWorldIsGood(steps);
    var w := RunCache(World(NO_FILE, map[]), steps);
    assert Coherent(w.disk, CacheOf(w, p));
    assert a in Tokens(w.disk.entries) <==> Has(w.disk.entries, a);
  }

  /** All the events of the processes' operations, in the order of the lock. */
  function EventsOf(steps: seq<CacheStep>): seq<Event> {
    if steps == [] then []
    else EventsOf(steps[..|steps| - 1]) + EventOf(steps[|steps| - 1].op, steps[|steps| - 1].io)
  }

  lemma RunMore(s: seq<Entry>, es: seq<Event>, more: seq<Event>)
    requires |more| <= 1
    ensures RunEvents(s, es + more) == RunEvents(RunEvents(s, es), more)
  {
    if more == [] {
      assert es + more == es;
    } else {
      assert (es + more)[..|es + more| - 1] == es && more == [more[0]];
      RunOfOne(RunEvents(s, es), more[0]);
    }
  }

  /** The file that the processes leave is the one their events leave. */
  lemma {:induction false} RunCacheIsRunEvents(steps: seq<CacheStep>)
    ensures RunCache(World(NO_FILE, map[]), steps).disk.entries == RunEvents([], EventsOf(steps))
  {
    if steps != [] {
      var init, last := steps[..|steps| - 1], steps[|steps| - 1];
      RunCacheIsRunEvents(init);
      var w := RunCache(World(NO_FILE, map[]), init);
      OperationIsEvent(w.disk, CacheOf(w, last.p), last.op, last.io);
      RunMore([], EventsOf(init), EventOf(last.op, last.io));
    }
  }

  /** So in every process, after every interleaving, the thread reads closed if and only if its close
      stands or a pending record of it is open, except from a blind snapshot. */
  lemma ClosedInEveryProcess(steps: seq<CacheStep>, p: nat, a: string)
    ensures var w := RunCache(World(NO_FILE, map[]), steps);
            IsClosedOn(w.disk, CacheOf(w, p), a, HEALTHY).1
            <==> (Standing(EventsOf(steps), a) || Open(EventsOf(steps), a)) && !BlindAfter(steps, p)
  {
    var w := RunCache(World(NO_FILE, map[]), steps);
    IsClosedReadsTheFile(steps, p, a);
    RunCacheIsRunEvents(steps);
    StatusAfterRun(EventsOf(steps), a);
    HasIsStatus(w.disk.entries, a);
    BlindExactly(steps, p);
  }

  /** In particular every process reads a thread closed while an attempt on its terminator is in
      flight, when attempts do not overlap and the bookkeeping works. */
  lemma InFlightReadsClosed(steps: seq<CacheStep>, p: nat, a: string)
    requires NonOverlapping(EventsOf(steps)) && AllDone(EventsOf(steps)) && InFlight(EventsOf(steps), a)
    requires forall st | st in steps :: st.io.readOk
    ensures var w := RunCache(World(NO_FILE, map[]), steps); IsClosedOn(w.disk, CacheOf(w, p), a, HEALTHY).1
  {
    ClosedInEveryProcess(steps, p, a);
    OpenIsInFlight(EventsOf(steps), a);
    ReadableMeansNotBlind(steps, p);
    BlindExactly(steps, p);
  }

  /** A check that had to read the file and could not. */
  predicate BlindingStep(w: World, st: CacheStep) {
    && st.op.OpIsClosed? && st.io.lockOk && !st.io.readOk
    && !(CacheOf(w, st.p).loaded && CacheOf(w, st.p).mtime == Mtime(w.disk))
  }

  /** A write by anybody, or a record by the process itself that finds its anchor in the file. */
  predicate ClearingStep(w: World, st: CacheStep, p: nat) {
    || ApplyCache(w, st).disk != w.disk
    || (st.p == p && st.op.OpRecord? && ValidToken(st.op.a) && ValidToken(st.op.closedBy)
        && st.io.lockOk && st.io.readOk && Has(w.disk.entries, st.op.a))
  }

  /** The process once could not read the file for a check, and nothing has cleared that since. */
  predicate BlindAfter(steps: seq<CacheStep>, p: nat) {
    steps != []
    && var init, last := steps[..|steps| - 1], steps[|steps| - 1];
       var w := RunCache(World(NO_FILE, map[]), init);
       if last.p == p && BlindingStep(w, last) then true
       else BlindAfter(init, p) && !ClearingStep(w, last, p)
  }

  /** Over every run: a snapshot is blind if and only if the process's last read of the file failed
      and there was no write since. */
  lemma {:induction false} BlindExactly(steps: seq<CacheStep>, p: nat)
    ensures AnswersBlind(RunCache(World(NO_FILE, map[]), steps), p) <==> BlindAfter(steps, p)
  {
    if steps != [] {
      var init, last := steps[..|steps| - 1], steps[|steps| - 1];
      BlindExactly(init, p);
      EveryWorldIsGood(init);
      BlindStep(RunCache(World(NO_FILE, map[]), init), last, p);
    }
  }

  lemma BlindStep(w: World, st: CacheStep, p: nat)
    requires GoodWorld(w)
    ensures AnswersBlind(ApplyCache(w, st), p) <==>
            (st.p == p && BlindingStep(w, st)) || (AnswersBlind(w, p) && !ClearingStep(w, st, p))
  {
    assert Coherent(w.disk, CacheOf(w, p));
    if st.p == p {
      OwnBlindStep(w.disk, CacheOf(w, p), st.op, st.io);
    } else {
      OpKeepsOrWrites(w.disk, CacheOf(w, st.p), st.op, st.io);
    }
  }

  lemma OpKeepsOrWrites(d: Disk, c: Cache, op: Op, io: FileIO)
    ensures OpOn(d, c, op, io).0 == d || OpOn(d, c, op, io).0 == WriteDisk(d, OpOn(d, c, op, io).0.entries)
  {
  }

  /** The same for one process, whose snapshot is c. */
  lemma OwnBlindStep(d: Disk, c: Cache, op: Op, io: FileIO)
    requires Coherent(d, c)
    ensures var (d', c') := OpOn(d, c, op, io);
            var current := c.loaded && c.mtime == Mtime(d);
            c'.loaded && c'.mtime == Mtime(d') && c'.degraded <==>
            || (op.OpIsClosed? && io.lockOk && !io.readOk && !current)
            || (current && c.degraded && d' == d
                && !(op.OpRecord? && ValidToken(op.a) && ValidToken(op.closedBy) && io.lockOk && io.readOk && Has(d.entries, op.a)))
  {
  }

  /** No snapshot is blind while every read succeeds. */
  lemma {:induction false} ReadableMeansNotBlind(steps: seq<CacheStep>, p: nat)
    requires forall st | st in steps :: st.io.readOk
    ensures !CacheOf(RunCache(World(NO_FILE, map[]), steps), p).degraded
  {
    if steps != [] {
      var w := RunCache(World(NO_FILE, map[]), steps[..|steps| - 1]);
      var st := steps[|steps| - 1];
      ReadableMeansNotBlind(steps[..|steps| - 1], p);
      EveryWorldIsGood(steps[..|steps| - 1]);
      assert st in steps;
      var w' := ApplyCache(w, st);
      if p == st.p {
        OperationKeeps(w.disk, CacheOf(w, p), st.op, st.io, w'.disk, CacheOf(w', p));
      }
    }
  }

  /** One failed read is enough for a blind snapshot: a process that first looked while the
      file could not be read keeps answering no after the file is readable again. */
  lemma OneFailedReadBlinds(a: string, closedBy: string, at: real)
    requires ValidToken(a) && ValidToken(closedBy)
    ensures var steps := [CacheStep(0, OpRecord(a, closedBy, at, false), HEALTHY),
                          CacheStep(1, OpIsClosed(a), FileIO(true, false, true))];
            var w := RunCache(World(NO_FILE, map[]), steps);
            && Has(w.disk.entries, a)
            && !IsClosedOn(w.disk, CacheOf(w, 1), a, HEALTHY).1
            && IsClosedOn(w.disk, CacheOf(w, 0), a, HEALTHY).1
  {
    var first := CacheStep(0, OpRecord(a, closedBy, at, false), HEALTHY);
    var second := CacheStep(1, OpIsClosed(a), FileIO(true, false, true));
    var steps := [first, second];
    assert steps[..1] == [first] && [first][..0] == [];
    var w := RunCache(World(NO_FILE, map[]), steps);
    assert RunCache(World(NO_FILE, map[]), [first]) == ApplyCache(World(NO_FILE, map[]), first);
    assert w.disk.entries == [Entry(a, at, closedBy, false)];
    IsClosedReadsTheFile(steps, 0, a);
    IsClosedReadsTheFile(steps, 1, a);
  }
}
