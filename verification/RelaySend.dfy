/** The sending side of one message: the gate before it leaves, and the bookkeeping of leases,
    terminal anchors and the outbox after its delivery succeeded or failed. */
module RelaySend {
  import opened Common
  import opened Leases
  import opened Gate
  import opened LeaseRegistry
  import A = Anchors
  import opened ClosedThreads
  import O = Outbox
  import opened OutboxReaper

  // ---------------------------------------------------------------------------------
  // The terminator's probe over several ids
  // ---------------------------------------------------------------------------------

  /** What one release call meets: the stat before the lock, the stat under it, the file. */
  datatype ReleaseWorld = ReleaseWorld(first: PathState, statOk: bool, io: FileIO)

  const ALL_WELL := ReleaseWorld(Present, true, HEALTHY)

  /** The reason reported for several probes, strongest first. */
  function Strongest(reasons: seq<Reason>): Reason {
    if Released in reasons then Released
    else if RegistryUnavailable in reasons then RegistryUnavailable
    else if NotAParty in reasons then NotAParty
    else NoSuchLease
  }

  function Rank(r: Reason): nat {
    match r
    case Released => 3
    case RegistryUnavailable => 2
    case NotAParty => 1
    case NoSuchLease => 0
  }

  /** The report is one of the answers, and none outranks it. */
  lemma StrongestIsMaximal(reasons: seq<Reason>)
    requires reasons != []
    ensures Strongest(reasons) in reasons
    ensures forall r | r in reasons :: Rank(r) <= Rank(Strongest(reasons))
  {
    if Strongest(reasons) == NoSuchLease {
      assert reasons[0] in reasons && reasons[0] == NoSuchLease;
    }
  }

  /** The registry as the probe of one caller meets it. */
  datatype Site = Site(present: bool, explicitPath: bool, who: string)

  function AnswerTo(s: seq<Lease>, site: Site, id: string, w: ReleaseWorld): Reason {
    StatusReason(s, site.present, site.explicitPath, id, site.who, w.first, w.statOk, w.io)
  }

  /** The list after the calls of a probe, each on the list the ones before left. */
  function Probed(s: seq<Lease>, site: Site, ids: seq<string>, worlds: seq<ReleaseWorld>): seq<Lease>
    requires |worlds| == |ids|
  {
    if ids == [] then s
    else
      var n := |ids| - 1;
      var before := Probed(s, site, ids[..n], worlds[..n]);
      if AnswerTo(before, site, ids[n], worlds[n]) == Released then Keep(before, NotPartyOf(ids[n], site.who)) else before
  }

  function Answers(s: seq<Lease>, site: Site, ids: seq<string>, worlds: seq<ReleaseWorld>): seq<Reason>
    requires |worlds| == |ids|
  {
    if ids == [] then []
    else
      var n := |ids| - 1;
      Answers(s, site, ids[..n], worlds[..n]) + [AnswerTo(Probed(s, site, ids[..n], worlds[..n]), site, ids[n], worlds[n])]
  }

  /** Nothing goes wrong in the call. */
  predicate Works(site: Site, w: ReleaseWorld) { site.present && w == ALL_WELL }

  lemma AnswerIsExact(s: seq<Lease>, site: Site, id: string, w: ReleaseWorld)
    ensures AnswerTo(s, site, id, w) == Released <==> Works(site, w) && HasPartyLease(s, id, site.who)
  {
    ReasonsPartition(s, id, site.who, w.io);
  }

  /** The call that would take the record. */
  ghost predicate Takes(site: Site, ids: seq<string>, worlds: seq<ReleaseWorld>, r: Lease)
    requires |worlds| == |ids|
  {
    IsParty(r, site.who) && exists i | 0 <= i < |ids| :: ids[i] == r.threadId && Works(site, worlds[i])
  }

  /** A probe removes exactly the caller's records under those of the ids whose call worked. */
  lemma {:induction false} ProbedMembers(s: seq<Lease>, site: Site, ids: seq<string>, worlds: seq<ReleaseWorld>, r: Lease)
    requires |worlds| == |ids|
    ensures r in Probed(s, site, ids, worlds) <==> r in s && !Takes(site, ids, worlds, r)
  {
    if ids != [] {
      var n := |ids| - 1;
      var before := Probed(s, site, ids[..n], worlds[..n]);
      ProbedMembers(s, site, ids[..n], worlds[..n], r);
      TakesStep(site, ids, worlds, r);
      AnswerIsExact(before, site, ids[n], worlds[n]);
      KeepMembers(before, NotPartyOf(ids[n], site.who), r);
    }
  }

  lemma TakesStep(site: Site, ids: seq<string>, worlds: seq<ReleaseWorld>, r: Lease)
    requires |worlds| == |ids| && ids != []
    ensures var n := |ids| - 1;
            Takes(site, ids, worlds, r) <==>
            Takes(site, ids[..n], worlds[..n], r) || (IsParty(r, site.who) && ids[n] == r.threadId && Works(site, worlds[n]))
  {
    var n := |ids| - 1;
    if Takes(site, ids, worlds, r) {
      var i :| 0 <= i < |ids| && ids[i] == r.threadId && Works(site, worlds[i]);
      assert i < n ==> ids[..n][i] == r.threadId && Works(site, worlds[..n][i]);
    }
    if Takes(site, ids[..n], worlds[..n], r) {
      var i :| 0 <= i < n && ids[..n][i] == r.threadId && Works(site, worlds[..n][i]);
      assert ids[i] == r.threadId && Works(site, worlds[i]);
    }
  }

  /** It reports a release if and only if it removed something, whatever went wrong. */
  lemma {:induction false} ReleasedMeansRemoved(s: seq<Lease>, site: Site, ids: seq<string>, worlds: seq<ReleaseWorld>)
    requires |worlds| == |ids|
    ensures |Probed(s, site, ids, worlds)| <= |s|
    ensures Strongest(Answers(s, site, ids, worlds)) == Released <==> Probed(s, site, ids, worlds) != s
    ensures Probed(s, site, ids, worlds) != s ==> |Probed(s, site, ids, worlds)| < |s|
  {
    if ids != [] {
      var n := |ids| - 1;
      var before := Probed(s, site, ids[..n], worlds[..n]);
      ReleasedMeansRemoved(s, site, ids[..n], worlds[..n]);
      AnswerIsExact(before, site, ids[n], worlds[n]);
      DropsIffParty(before, ids[n], site.who);
    }
  }

  ghost predicate AnyParty(s: seq<Lease>, ids: seq<string>, who: string) {
    exists id | id in ids :: HasPartyLease(s, id, who)
  }

  ghost predicate AnyId(s: seq<Lease>, ids: seq<string>) {
    exists id | id in ids :: HasId(s, id)
  }

  lemma AnySplits(s: seq<Lease>, ids: seq<string>, who: string)
    requires ids != []
    ensures var init, last := ids[..|ids| - 1], ids[|ids| - 1];
            && (AnyParty(s, ids, who) <==> AnyParty(s, init, who) || HasPartyLease(s, last, who))
            && (AnyId(s, ids) <==> AnyId(s, init) || HasId(s, last))
  {
    var init, last := ids[..|ids| - 1], ids[|ids| - 1];
    assert forall id :: id in ids <==> id in init || id == last;
  }

  lemma ProbedHasFewer(s: seq<Lease>, site: Site, ids: seq<string>, worlds: seq<ReleaseWorld>, id: string)
    requires |worlds| == |ids|
    ensures HasPartyLease(Probed(s, site, ids, worlds), id, site.who) ==> HasPartyLease(s, id, site.who)
  {
    if HasPartyLease(Probed(s, site, ids, worlds), id, site.who) {
      var r :| r in Probed(s, site, ids, worlds) && r.threadId == id && IsParty(r, site.who);
      ProbedMembers(s, site, ids, worlds, r);
    }
  }

  /** What a probe whose calls all work reports is about the list it found: released if the caller
      had a record under any of the ids, not-a-party if others had and the caller had none,
      no-such-lease if nobody had. */
  lemma {:induction false} ProbeReportsTheList(s: seq<Lease>, site: Site, ids: seq<string>, worlds: seq<ReleaseWorld>)
    requires |worlds| == |ids| && forall w | w in worlds :: Works(site, w)
    ensures var rs := Answers(s, site, ids, worlds);
            && (Released in rs <==> AnyParty(s, ids, site.who))
            && (!AnyParty(s, ids, site.who) ==> (NotAParty in rs <==> AnyId(s, ids)))
            && RegistryUnavailable !in rs
            && Strongest(rs) == if AnyParty(s, ids, site.who) then Released else if AnyId(s, ids) then NotAParty else NoSuchLease
  {
    if ids != [] {
      var n := |ids| - 1;
      assert forall w | w in worlds[..n] :: w in worlds;
      assert worlds[n] in worlds;
      ProbeReportsTheList(s, site, ids[..n], worlds[..n]);
      ReleasedMeansRemoved(s, site, ids[..n], worlds[..n]);
      AnySplits(s, ids, site.who);
      ProbedHasFewer(s, site, ids[..n], worlds[..n], ids[n]);
      var before := Probed(s, site, ids[..n], worlds[..n]);
      var r := AnswerTo(before, site, ids[n], worlds[n]);
      ReasonsPartition(before, ids[n], site.who, HEALTHY);
      var rs := Answers(s, site, ids[..n], worlds[..n]);
      assert forall x :: x in rs + [r] <==> x in rs || x == r;
    }
  }

  // ---------------------------------------------------------------------------------
  // One send
  // ---------------------------------------------------------------------------------

  datatype Message = Message(
    taskId: string,
    target: string,
    reply: string,
    ref: Option<string>,
    thread: Option<string>,
    selectorsValid: bool)   // the session tokens, checked only after the gate

  /** Resolving target and key; signing and delivering; storing the message in the outbox; sending a
      failure notice. */
  datatype Stage = Resolving | Delivering | Queueing | Noticing

  /** An undelivered notice: the id of its outbox item, its own message id, the clock. */
  datatype Notice = Notice(queueId: string, msgId: string, now: real)

  /** What the send meets outside this process, in the order in which it meets it. */
  datatype World = World(
    closedIo: FileIO,
    seen: seq<Lease>,        // the leases as an unlocked read returned them
    seenNow: real,
    claimNow: real,
    claimIo: FileIO,
    resolved: bool,          // target and signing key were found
    raises: Option<Stage>,   // the step that raises, should the send get that far; no handler stands around these
    notice: Option<Notice>,  // the failure notice of an unresolved send, if it was composed and could not be delivered
    recordAt: real,
    recordIo: FileIO,
    deliveryId: Option<string>,
    settleIo: FileIO,
    outboxOn: bool,
    queueId: string,
    queueNow: real,
    rollbackIo: FileIO,
    probes: seq<ReleaseWorld>,
    touchNow: real,
    touchIo: FileIO,
    resize: int)

  datatype Verdict = Proceed(claimHeld: bool) | Refuse(why: Outcome)

  datatype Ending =
    | ThreadClosed
    | BusyRefusal(why: Outcome)
    | BadSelector
    | Unresolved
    | Queued
    | DeliveryFailed
    | Delivered(released: Option<Reason>)
    | Raised(at: Stage)

  /** Notices and terminators pass the gate untouched. */
  predicate Exempt(reply: string) { reply == "no" || reply == "end" }

  /** The `ref` names a live lease of this very pair. */
  predicate Shortcut(m: Message, sender: string, w: World) {
    && m.ref.Some? && m.ref.value != ""
    && var r := FirstLive(w.seen, m.ref.value, w.seenNow);
       r.Some? && IsPair(r.value, sender, m.target)
  }

  function MyClaim(m: Message, sender: string, w: World): Step {
    Step.Claim(m.taskId, sender, m.target, DEFAULT_LEASE_MINUTES, w.claimNow, w.claimIo)
  }

  function MyClaimOutcome(s: seq<Lease>, m: Message, sender: string, w: World): Outcome {
    ClaimOutcome(s, m.taskId, sender, m.target, DEFAULT_LEASE_MINUTES, w.claimNow, w.claimIo)
  }

  function GateVerdict(s: seq<Lease>, m: Message, sender: string, w: World): Verdict {
    if Exempt(m.reply) then Proceed(false)
    else if Shortcut(m, sender, w) then Proceed(true)
    else
      var out := MyClaimOutcome(s, m, sender, w);
      if Refused(out) then Refuse(out) else Proceed(out.Granted? || out.Traffic?)
  }

  /** The lease list after the gate. */
  function AfterGate(s: seq<Lease>, m: Message, sender: string, w: World): seq<Lease> {
    if Exempt(m.reply) || Shortcut(m, sender, w) then s else Apply(s, MyClaim(m, sender, w))
  }

  /** What the gate does, by the words of the message and the stored list. A notice or a terminator
      passes and changes nothing, and so does a question whose `ref` names a live lease of its pair.
      Any other question is refused, on a working registry, if and only if the pair shares no live
      lease and the recipient is talking to a third party or the sender has three threads open; let
      through, the pair shares a live lease, a new one for half an hour if there was none. */
  ghost predicate GatedAs(s: seq<Lease>, u: seq<Lease>, m: Message, sender: string, w: World, v: Verdict) {
    var named := if m.ref.Some? && m.ref.value != "" then FirstLive(w.seen, m.ref.value, w.seenNow) else None;
    var shared := SharesLive(s, w.claimNow, sender, m.target);
    var held := HeldByThird(s, w.claimNow, sender, m.target);
    && (m.reply == "no" || m.reply == "end" ==> v == Proceed(false) && u == s)
    && (m.reply == "yes" && named.Some? && IsPair(named.value, sender, m.target) ==> v == Proceed(true) && u == s)
    && (m.reply == "yes" && !(named.Some? && IsPair(named.value, sender, m.target))
        && w.claimIo == HEALTHY && TokensValid(m.taskId, sender, m.target) ==>
          && (v.Refuse? <==> !shared && (held || LiveOutbound(s, w.claimNow, sender) >= 3))
          && (v.Refuse? ==> u == s && if held then v.why.Busy? else v.why.Capped?)
          && (v.Proceed? ==> v.claimHeld && SharesLive(u, w.claimNow, sender, m.target))
          && (v.Proceed? && !shared ==>
                Lease(m.taskId, sender, m.target, w.claimNow, w.claimNow + 1800.0, 30, 0, false) in u))
  }

  lemma GateByReply(s: seq<Lease>, m: Message, sender: string, w: World)
    ensures GatedAs(s, AfterGate(s, m, sender, w), m, sender, w, GateVerdict(s, m, sender, w))
  {
    if m.reply == "yes" && w.claimIo == HEALTHY && TokensValid(m.taskId, sender, m.target) && !Shortcut(m, sender, w) {
      GateIsExact(s, m.taskId, sender, m.target, DEFAULT_LEASE_MINUTES, w.claimNow, w.claimIo);
      var out := MyClaimOutcome(s, m, sender, w);
      if out.Granted? {
        var u := AfterGate(s, m, sender, w);
        assert u[|u| - 1] == out.lease && Live(out.lease, w.claimNow) && IsPair(out.lease, sender, m.target);
      }
    }
  }

  class Relay {
    const name: string
    const leases: LeaseGateway
    const threads: ThreadProcess
    const outbox: Reaping

    constructor (name: string, leases: LeaseGateway, threads: ThreadProcess, outbox: Reaping)
      ensures this.name == name && this.leases == leases && this.threads == threads && this.outbox == outbox
    {
      this.name := name;
      this.leases := leases;
      this.threads := threads;
      this.outbox := outbox;
    }

    /** Claim the door before the message leaves the box. */
    method PassGate(m: Message, w: World) returns (v: Verdict)
      requires leases.file.Valid()
      modifies leases, leases.file
      ensures leases.file.Valid()
      ensures v == GateVerdict(old(leases.file.entries), m, name, w)
      ensures leases.file.entries == AfterGate(old(leases.file.entries), m, name, w)
      ensures v.Refuse? ==> leases.file.entries == old(leases.file.entries)
      ensures GatedAs(old(leases.file.entries), leases.file.entries, m, name, w, v)
      ensures Exempt(m.reply) ==> leases.file.present == old(leases.file.present)
    {
      GateByReply(leases.file.entries, m, name, w);
      if m.reply == "no" || m.reply == "end" {
        return Proceed(false);
      }
      if m.ref.Some? {
        var lease := leases.LeaseFor(m.ref.value, w.seen, w.seenNow);
        if lease.Some? && IsPair(lease.value, name, m.target) {
          return Proceed(true);
        }
      }
      var out := leases.Claim(m.taskId, name, m.target, DEFAULT_LEASE_MINUTES, w.claimNow, w.claimIo);
      if out.BadToken? {
        leases.Degrade();
      }
      if out.Busy? || out.Capped? {
        return Refuse(out);
      }
      return Proceed(out.Granted? || out.Traffic?);
    }

    function SiteHere(): Site
      reads leases.file
    {
      Site(leases.file.present, leases.explicitPath, name)
    }

    /** Release under several ids and report the strongest reason. */
    method Probe(ids: seq<string>, worlds: seq<ReleaseWorld>) returns (reason: Reason, ghost reasons: seq<Reason>)
      requires leases.file.Valid() && |worlds| == |ids|
      modifies leases, leases.file
      ensures leases.file.Valid()
      ensures reasons == Answers(old(leases.file.entries), SiteHere(), ids, worlds) && reason == Strongest(reasons)
      ensures leases.file.entries == Probed(old(leases.file.entries), SiteHere(), ids, worlds)
      ensures leases.file.present == old(leases.file.present)
    {
      ghost var s, site := leases.file.entries, SiteHere();
      reasons := [];
      var released, unavailable, stranger := false, false, false;
      for i := 0 to |ids|
        invariant leases.file.Valid() && leases.file.present == old(leases.file.present)
        invariant leases.file.entries == Probed(s, site, ids[..i], worlds[..i])
        invariant reasons == Answers(s, site, ids[..i], worlds[..i])
        invariant released <==> Released in reasons
        invariant unavailable <==> RegistryUnavailable in reasons
        invariant stranger <==> NotAParty in reasons
      {
        assert ids[..i + 1][..i] == ids[..i] && worlds[..i + 1][..i] == worlds[..i];
        var r := leases.ReleaseIfPartyStatus(ids[i], name, worlds[i].first, worlds[i].statOk, worlds[i].io);
        reasons := reasons + [r];
        released := released || r == Released;
        unavailable := unavailable || r == RegistryUnavailable;
        stranger := stranger || r == NotAParty;
      }
      assert ids[..|ids|] == ids && worlds[..|ids|] == worlds;
      reason := if released then Released else if unavailable then RegistryUnavailable else if stranger then NotAParty else NoSuchLease;
    }

    /** Everything before the POST: the closed-thread guard, the gate, the checks after it. A
        send that ends here with its claim granted keeps it until it expires. */
    method BeforePost(m: Message, w: World) returns (ending: Option<Ending>, claimHeld: bool)
      requires leases.file.Valid()
      modifies leases, leases.file, threads
      ensures leases.file.Valid()
      ensures threads.file.Disk() == old(threads.file.Disk())
      ensures Exempt(m.reply) ==> leases.file.present == old(leases.file.present)
      ensures var closed := m.ref.Some? && A.IsClosedOn(old(threads.file.Disk()), old(threads.Cache()), m.ref.value, w.closedIo).1;
              var s := old(leases.file.entries);
              var v := GateVerdict(s, m, name, w);
              && (ending == Some(ThreadClosed) <==> closed)
              && (closed ==> leases.file.entries == s && !claimHeld)
              && (!closed ==>
                    && leases.file.entries == AfterGate(s, m, name, w)
                    && claimHeld == (v.Proceed? && v.claimHeld)
                    && ending == if v.Refuse? then Some(BusyRefusal(v.why))
                                 else if !m.selectorsValid then Some(BadSelector)
                                 else if w.raises == Some(Resolving) then Some(Raised(Resolving))
                                 else if !w.resolved then Some(Unresolved)
                                 else None)
    {
      claimHeld := false;
      var closed := threads.IsClosed(m.ref, w.closedIo);
      if closed {
        return Some(ThreadClosed), false;
      }
      var v := PassGate(m, w);
      if v.Refuse? {
        return Some(BusyRefusal(v.why)), false;
      }
      claimHeld := v.claimHeld;
      if !m.selectorsValid {
        return Some(BadSelector), claimHeld;
      }
      if w.raises == Some(Resolving) {
        return Some(Raised(Resolving)), claimHeld;
      }
      if !w.resolved {
        return Some(Unresolved), claimHeld;
      }
      return None, claimHeld;
    }

    /** After a failed delivery: the pending close is withdrawn first, then the message is
        queued, or else the claim is rolled back, by id and party. */
    method AfterFailure(m: Message, w: World, claimHeld: bool) returns (ending: Ending)
      requires leases.file.Valid()
      modifies leases, leases.file, threads, threads.file, outbox`queue
      ensures leases.file.Valid() && ending == FailureEnding(w)
      ensures threads.file.Disk() == if m.reply == "end" then SettledDisk(old(threads.file.Disk()), m.taskId, false, w.settleIo)
                                     else old(threads.file.Disk())
      ensures outbox.queue == old(outbox.queue) + if ending == Queued then [QueuedItem(m, name, w)] else []
      ensures leases.file.entries == if claimHeld && ending == DeliveryFailed
                                     then Apply(old(leases.file.entries), Step.ReleaseIfParty(m.taskId, name, w.rollbackIo))
                                     else old(leases.file.entries)
    {
      if m.reply == "end" {
        threads.Rewrite(m.taskId, false, w.settleIo);
      }
      if w.outboxOn {
        if w.raises == Some(Queueing) {
          return Raised(Queueing);
        }
        outbox.QueueMessage(w.queueId, m.taskId, name, m.target, w.queueNow, w.queueNow, m.ref, false,
                            if m.reply == "end" then Some(m.taskId) else None);
        return Queued;
      }
      if w.raises == Some(Noticing) {
        return Raised(Noticing);
      }
      if claimHeld {
        var _ := leases.ReleaseIfParty(m.taskId, name, w.rollbackIo);
      }
      return DeliveryFailed;
    }

    /** After a delivery: a terminator releases its lease and its close becomes real, a
        question touches the lease it answers. */
    method AfterDelivery(m: Message, w: World, deliveryId: string) returns (released: Option<Reason>)
      requires leases.file.Valid() && |w.probes| == 3
      modifies leases, leases.file, threads, threads.file
      ensures leases.file.Valid()
      ensures threads.file.Disk() == if m.reply == "end" then SettledDisk(old(threads.file.Disk()), m.taskId, true, w.settleIo)
                                     else old(threads.file.Disk())
      ensures released.Some? <==> m.reply == "end"
      ensures m.reply != "end" ==>
                leases.file.entries == if m.reply == "yes" && m.ref.Some? && m.ref.value != ""
                                       then Apply(old(leases.file.entries), Step.Touch(m.ref.value, Some(w.resize), w.touchNow, w.touchIo))
                                       else old(leases.file.entries)
      ensures m.reply == "end" ==>
                var (ids, site) := (ReleaseIds(m, deliveryId), old(SiteHere()));
                && leases.file.entries == Probed(old(leases.file.entries), site, ids, w.probes[..|ids|])
                && released == Some(Strongest(Answers(old(leases.file.entries), site, ids, w.probes[..|ids|])))
    {
      released := None;
      if m.reply == "end" {
        var ids := ReleaseIds(m, deliveryId);
        var worlds := w.probes[..|ids|];
        var reason, _ := Probe(ids, worlds);
        released := Some(reason);
        threads.Rewrite(m.taskId, true, w.settleIo);
      } else if m.reply == "yes" && m.ref.Some? && m.ref.value != "" {
        var _ := leases.Touch(m.ref.value, Some(w.resize), w.touchNow, w.touchIo);
      }
    }

    /** The POST and what follows. The close is recorded pending before it. */
    method Post(m: Message, w: World, claimHeld: bool) returns (ending: Ending)
      requires leases.file.Valid() && |w.probes| == 3 && w.resolved
      modifies leases, leases.file, threads, threads.file, outbox`queue
      ensures leases.file.Valid()
      ensures (if ending.Delivered? then Delivered(None) else ending) == PostEnding(w)
      ensures threads.file.Disk() == AnchorsAfter(old(threads.file.Disk()), m, name, w, ending)
      ensures outbox.queue == old(outbox.queue) + if ending == Queued then [QueuedItem(m, name, w)] else []
      ensures ending.Queued? || ending.Raised? ==> leases.file.entries == old(leases.file.entries)
      ensures ending.DeliveryFailed? ==>
                leases.file.entries == if claimHeld then Apply(old(leases.file.entries), Step.ReleaseIfParty(m.taskId, name, w.rollbackIo))
                                       else old(leases.file.entries)
      ensures ending.Delivered? && m.reply == "end" ==>
                var (ids, site) := (ReleaseIds(m, w.deliveryId.value), old(SiteHere()));
                && leases.file.entries == Probed(old(leases.file.entries), site, ids, w.probes[..|ids|])
                && ending.released == Some(Strongest(Answers(old(leases.file.entries), site, ids, w.probes[..|ids|])))
      ensures ending.Delivered? && m.reply != "end" ==>
                && leases.file.entries == (if m.reply == "yes" && m.ref.Some? && m.ref.value != ""
                                           then Apply(old(leases.file.entries), Step.Touch(m.ref.value, Some(w.resize), w.touchNow, w.touchIo))
                                           else old(leases.file.entries))
                && ending.released == None
    {
      if m.reply == "end" {
        ghost var d, c := threads.file.Disk(), threads.Cache();
        var _ := threads.Record(m.taskId, name, w.recordAt, true, w.recordIo);
        DiskIgnoresCache(d, c, m.taskId, name, w.recordAt, w.recordIo);
      }
      if w.raises == Some(Delivering) {
        return Raised(Delivering);
      }
      if w.deliveryId.None? {
        ending := AfterFailure(m, w, claimHeld);
      } else {
        var released := AfterDelivery(m, w, w.deliveryId.value);
        ending := Delivered(released);
      }
    }

    /** One mesh_send, from the closed-thread guard on. */
    method Send(m: Message, w: World) returns (ending: Ending)
      requires leases.file.Valid() && |w.probes| == 3
      modifies leases, leases.file, threads, threads.file, outbox`queue
      ensures leases.file.Valid()
      // Nothing was sent, nothing changed.
      ensures ending.ThreadClosed? || ending.BusyRefusal? ==> leases.file.entries == old(leases.file.entries)
      // Which ending it is.
      ensures (if ending.Delivered? then Delivered(None) else ending)
              == EndingOf(old(threads.file.Disk()), old(threads.Cache()), old(leases.file.entries), m, name, w)
      // Refused later, or queued, or raised: the claim stays until it expires.
      ensures ending.BadSelector? || ending.Unresolved? || ending.Queued? || ending.Raised? ==>
                leases.file.entries == AfterGate(old(leases.file.entries), m, name, w)
      // Failed for good: the claim is rolled back.
      ensures ending.DeliveryFailed? ==>
                var s := AfterGate(old(leases.file.entries), m, name, w);
                leases.file.entries == if GateVerdict(old(leases.file.entries), m, name, w) == Proceed(true)
                                       then Apply(s, Step.ReleaseIfParty(m.taskId, name, w.rollbackIo)) else s
      // The anchors: only a terminator that got as far as the POST touches them.
      ensures threads.file.Disk() == AnchorsAfter(old(threads.file.Disk()), m, name, w, ending)
      // The outbox: a queued terminator carries its own id as anchor, and is not a close.
      // The failure notice of a send that found no target may end up there too.
      ensures outbox.queue == old(outbox.queue) + (if ending.Queued? then [QueuedItem(m, name, w)]
                                                   else if ending.Unresolved? then NoticeItem(m, name, w) else [])
      // A notice answers the message, and goes to the other side of its thread or else to the sender.
      ensures ending.Unresolved? && w.outboxOn && w.notice.Some? ==>
                && |outbox.queue| == |old(outbox.queue)| + 1
                && var n := outbox.queue[|old(outbox.queue)|];
                   && n.isDsn && n.sender == name && n.ref == Some(m.taskId) && n.anchor.None?
                   && n.recipient == if m.ref.Some? && m.ref.value != "" then m.target else name
      // Delivered: a terminator probes for its lease and reports what it found, a question touches
      // the lease it answers.
      ensures ending.Delivered? && m.reply == "end" ==>
                var (ids, site) := (ReleaseIds(m, w.deliveryId.value), old(SiteHere()));
                && leases.file.entries == Probed(old(leases.file.entries), site, ids, w.probes[..|ids|])
                && ending.released == Some(Strongest(Answers(old(leases.file.entries), site, ids, w.probes[..|ids|])))
      ensures ending.Delivered? && m.reply != "end" ==>
                var s := AfterGate(old(leases.file.entries), m, name, w);
                && leases.file.entries == (if m.reply == "yes" && m.ref.Some? && m.ref.value != ""
                                           then Apply(s, Step.Touch(m.ref.value, Some(w.resize), w.touchNow, w.touchIo)) else s)
                && ending.released == None
      ensures ending.Delivered? && m.reply == "yes" && m.ref.Some? && m.ref.value != "" ==>
                TouchStored(AfterGate(old(leases.file.entries), m, name, w), leases.file.entries,
                            m.ref.value, Some(w.resize), w.touchNow, w.touchIo)
    {
      var early, claimHeld := BeforePost(m, w);
      if early.Some? {
        if early.value == Unresolved && w.raises == Some(Noticing) {
          return Raised(Noticing);
        }
        if early.value == Unresolved && w.outboxOn && w.notice.Some? {
          var n := w.notice.value;
          outbox.QueueMessage(n.queueId, n.msgId, name, NoticeTo(m, name), n.now, n.now, Some(m.taskId), true, None);
        }
        return early.value;
      }
      ending := Post(m, w, claimHeld);
      if ending.Delivered? && m.reply == "yes" && m.ref.Some? && m.ref.value != "" {
        TouchStepStores(AfterGate(old(leases.file.entries), m, name, w), m.ref.value, Some(w.resize), w.touchNow, w.touchIo);
      }
    }
  }

  /** How a delivery that failed ends. */
  function FailureEnding(w: World): Ending {
    if w.outboxOn then (if w.raises == Some(Queueing) then Raised(Queueing) else Queued)
    else if w.raises == Some(Noticing) then Raised(Noticing)
    else DeliveryFailed
  }

  function PostEnding(w: World): Ending {
    if w.raises == Some(Delivering) then Raised(Delivering)
    else if w.deliveryId.None? then FailureEnding(w)
    else Delivered(None)
  }

  /** How a send ends, but for what its terminator released. */
  function EndingOf(d: A.Disk, c: A.Cache, s: seq<Lease>, m: Message, sender: string, w: World): Ending {
    var v := GateVerdict(s, m, sender, w);
    if m.ref.Some? && A.IsClosedOn(d, c, m.ref.value, w.closedIo).1 then ThreadClosed
    else if v.Refuse? then BusyRefusal(v.why)
    else if !m.selectorsValid then BadSelector
    else if w.raises == Some(Resolving) then Raised(Resolving)
    else if !w.resolved then (if w.raises == Some(Noticing) then Raised(Noticing) else Unresolved)
    else PostEnding(w)
  }

  /** The send got as far as the POST. */
  predicate Posted(w: World, ending: Ending) {
    ending.Queued? || ending.DeliveryFailed? || ending.Delivered?
    || ending == Raised(Delivering) || ending == Raised(Queueing) || (ending == Raised(Noticing) && w.resolved)
  }

  /** When each ending is reached. On a working registry, busy is exactly what GatedAs refuses. */
  lemma EndingsExactly(d: A.Disk, c: A.Cache, s: seq<Lease>, m: Message, sender: string, w: World)
    ensures var ending := EndingOf(d, c, s, m, sender, w);
            var closed := m.ref.Some? && A.IsClosedOn(d, c, m.ref.value, w.closedIo).1;
            var v := GateVerdict(s, m, sender, w);
            var failed := Posted(w, ending) && w.raises != Some(Delivering) && w.deliveryId.None?;
            && GatedAs(s, AfterGate(s, m, sender, w), m, sender, w, v)
            && (ending == ThreadClosed <==> closed)
            && (ending.BusyRefusal? <==> !closed && v.Refuse?)
            && (ending == BadSelector <==> !closed && v.Proceed? && !m.selectorsValid)
            && (Posted(w, ending) <==> !closed && v.Proceed? && m.selectorsValid && w.raises != Some(Resolving) && w.resolved)
            && (ending.Delivered? <==> Posted(w, ending) && w.raises != Some(Delivering) && w.deliveryId.Some?)
            && (ending == Queued <==> failed && w.outboxOn && w.raises != Some(Queueing))
            && (ending == DeliveryFailed <==> failed && !w.outboxOn && w.raises != Some(Noticing))
            && (ending.Raised? ==> w.raises == Some(ending.at))
  {
    GateByReply(s, m, sender, w);
  }

  /** What each ending leaves of a terminator's close: nothing new before the POST; pending if the
      delivery raised; promoted if it succeeded; withdrawn if it failed, even if something raises
      after that. */
  function AnchorsAfter(d: A.Disk, m: Message, sender: string, w: World, ending: Ending): A.Disk {
    var recorded := A.RecordOn(d, A.NO_CACHE, m.taskId, sender, w.recordAt, true, w.recordIo).0;
    if m.reply != "end" then d
    else match ending
         case Queued => SettledDisk(recorded, m.taskId, false, w.settleIo)
         case DeliveryFailed => SettledDisk(recorded, m.taskId, false, w.settleIo)
         case Delivered(_) => SettledDisk(recorded, m.taskId, true, w.settleIo)
         case Raised(at) =>
           if at == Delivering then recorded
           else if at == Queueing || (at == Noticing && w.resolved) then SettledDisk(recorded, m.taskId, false, w.settleIo)
           else d
         case _ => d
  }

  /** A delivery that raises leaves a terminator's anchor pending, and so its thread closed, although
      nothing was sent and no attempt is left to settle it. */
  lemma RaisedDeliveryLeavesPending(d: A.Disk, m: Message, sender: string, w: World)
    requires A.Distinct(d.entries) && m.reply == "end" && w.recordIo == HEALTHY
    requires ValidToken(m.taskId) && ValidToken(sender) && A.StatusOf(d.entries, m.taskId) == A.Absent
    ensures A.StatusOf(AnchorsAfter(d, m, sender, w, Raised(Delivering)).entries, m.taskId) == A.Pending
  {
    A.RecordedStatus(d.entries, m.taskId, sender, w.recordAt, true, m.taskId);
    A.HasIsStatus(d.entries, m.taskId);
  }

  function SettledDisk(d: A.Disk, a: string, promote: bool, io: FileIO): A.Disk {
    A.RewriteOn(d, A.NO_CACHE, a, promote, io).0
  }

  lemma DiskIgnoresCache(d: A.Disk, c: A.Cache, a: string, who: string, at: real, io: FileIO)
    ensures A.RecordOn(d, c, a, who, at, true, io).0 == A.RecordOn(d, A.NO_CACHE, a, who, at, true, io).0
  {
  }

  function QueuedItem(m: Message, sender: string, w: World): O.Item {
    O.QueueItem(w.queueId, m.taskId, sender, m.target, w.queueNow, w.queueNow, m.ref, false,
                if m.reply == "end" then Some(m.taskId) else None)
  }

  /** Who is told of a failure: the other side of a thread, or else the sender itself. */
  function NoticeTo(m: Message, sender: string): string {
    if m.ref.Some? && m.ref.value != "" then m.target else sender
  }

  function NoticeItem(m: Message, sender: string, w: World): seq<O.Item> {
    if w.outboxOn && w.notice.Some?
    then [O.QueueItem(w.notice.value.queueId, w.notice.value.msgId, sender, NoticeTo(m, sender),
                      w.notice.value.now, w.notice.value.now, Some(m.taskId), true, None)]
    else []
  }

  /** A message queued after its delivery failed closes its own thread when the reaper delivers it, if
      it is a terminator, and nothing otherwise. It is due at once, to the same recipient. */
  lemma QueuedItemCloses(d: A.Disk, c: A.Cache, m: Message, sender: string, w: World, env: O.Env, b: string)
    requires A.Distinct(d.entries) && ValidToken(m.taskId) && ValidToken(sender)
    requires env.ioRecord == HEALTHY && env.ioSettle == HEALTHY
    ensures var item := QueuedItem(m, sender, w);
            var (end, _, result) := O.AttemptOn(d, c, item, env);
            var was, now := A.StatusOf(d.entries, b), A.StatusOf(end.entries, b);
            && (item.recipient, item.ref, item.attempt, item.nextRetry, item.isDsn) == (m.target, m.ref, 0, w.queueNow, false)
            && (result != O.Raised ==>
                  now == if m.reply != "end" || b != m.taskId || was == A.Final then was
                         else if result == O.Delivered then A.Final else A.Absent)
  {
    O.AttemptSettles(d, c, QueuedItem(m, sender, w), env, b);
  }

  /** The ids a terminator may release under: the thread it names and nothing else, or the
      message it answers, the delivery and itself. */
  function ReleaseIds(m: Message, deliveryId: string): (ids: seq<string>)
    ensures |ids| <= 3
  {
    if m.thread.Some? then [m.thread.value]
    else
      (if m.ref.Some? && m.ref.value != "" then [m.ref.value] else [])
      + (if deliveryId != "" then [deliveryId] else [])
      + (if m.taskId != "" then [m.taskId] else [])
  }

  lemma ReleaseIdsExactly(m: Message, deliveryId: string, id: string)
    ensures id in ReleaseIds(m, deliveryId) <==>
            if m.thread.Some? then id == m.thread.value
            else id != "" && (m.ref == Some(id) || id in {deliveryId, m.taskId})
  {
  }

  lemma TakesAll(site: Site, ids: seq<string>, worlds: seq<ReleaseWorld>, r: Lease)
    requires |worlds| == |ids| && forall w | w in worlds :: Works(site, w)
    ensures Takes(site, ids, worlds, r) <==> IsParty(r, site.who) && r.threadId in ids
  {
    forall i | 0 <= i < |ids|
      ensures Works(site, worlds[i])
    {
      assert worlds[i] in worlds;
    }
  }

  /** A terminator whose release calls all work removes exactly the sender's own records under the
      thread it names or, when it names none, under the message it answers, its delivery and itself. */
  lemma TerminatorReleases(s: seq<Lease>, site: Site, m: Message, deliveryId: string, worlds: seq<ReleaseWorld>, r: Lease)
    requires |worlds| == |ReleaseIds(m, deliveryId)| && forall w | w in worlds :: Works(site, w)
    ensures r in Probed(s, site, ReleaseIds(m, deliveryId), worlds) <==>
            r in s && !(IsParty(r, site.who)
                        && if m.thread.Some? then r.threadId == m.thread.value
                           else r.threadId != "" && (m.ref == Some(r.threadId) || r.threadId in {deliveryId, m.taskId}))
  {
    var ids := ReleaseIds(m, deliveryId);
    ProbedMembers(s, site, ids, worlds, r);
    TakesAll(site, ids, worlds, r);
    ReleaseIdsExactly(m, deliveryId, r.threadId);
  }

  /** What a terminator that got as far as the POST does to the anchors: the events of one attempt,
      whatever fails, or the first of them if the delivery raises. When the settling call works its
      own anchor is not left pending by any other ending. */
  lemma SendSettlesItsAnchor(d: A.Disk, m: Message, sender: string, w: World, ending: Ending, b: string)
    requires A.Distinct(d.entries) && ValidToken(m.taskId) && ValidToken(sender)
    requires m.reply == "end" && Posted(w, ending)
    ensures var end := AnchorsAfter(d, m, sender, w, ending);
            var begin := A.Begin(m.taskId, sender, w.recordAt, A.BookOf(true, w.recordIo));
            var settled := A.BookOf(true, w.settleIo);
            && A.Distinct(end.entries)
            && end.entries == A.RunEvents(d.entries,
                 if ending == Raised(Delivering) then [begin]
                 else [begin, if ending.Delivered? then A.Confirm(m.taskId, settled) else A.Fail(m.taskId, settled)])
            && (b == m.taskId && w.settleIo == HEALTHY && ending != Raised(Delivering) ==> A.StatusOf(end.entries, b) != A.Pending)
  {
    var a := m.taskId;
    var (d2, c2) := A.RecordOn(d, A.NO_CACHE, a, sender, w.recordAt, true, w.recordIo);
    O.RecordIsEvent(d, A.NO_CACHE, a, sender, w.recordAt, w.recordIo);
    A.RunOfOne(d.entries, A.Begin(a, sender, w.recordAt, A.BookOf(true, w.recordIo)));
    A.EventStatus(d.entries, A.Begin(a, sender, w.recordAt, A.BookOf(true, w.recordIo)), b);
    if ending != Raised(Delivering) {
      var settled := A.BookOf(true, w.settleIo);
      var second := if ending.Delivered? then A.Confirm(a, settled) else A.Fail(a, settled);
      O.RewriteIsEvent(d2, A.NO_CACHE, a, ending.Delivered?, w.settleIo);
      A.RunOfTwo(d.entries, A.Begin(a, sender, w.recordAt, A.BookOf(true, w.recordIo)), second);
      A.EventStatus(d2.entries, second, b);
    }
  }

  /** What a send leaves of the closes, on a working registry, however it ends. Its own anchor, unless
      the recipient made it final before, is final after a delivered terminator, pending if the
      delivery raised, absent after any other way past the POST, and what it was after a message that
      is no terminator or did not get so far. Every other anchor keeps its status. */
  lemma CloseAfterSend(d: A.Disk, c: A.Cache, s: seq<Lease>, m: Message, sender: string, w: World, b: string)
    requires A.Distinct(d.entries) && ValidToken(m.taskId) && ValidToken(sender)
    requires w.recordIo == HEALTHY && w.settleIo == HEALTHY
    ensures var ending := EndingOf(d, c, s, m, sender, w);
            var was := A.StatusOf(d.entries, b);
            A.StatusOf(AnchorsAfter(d, m, sender, w, ending).entries, b) ==
            if m.reply != "end" || b != m.taskId || was == A.Final || !Posted(w, ending) then was
            else if ending.Delivered? then A.Final
            else if ending == Raised(Delivering) then A.Pending
            else A.Absent
  {
    var ending := EndingOf(d, c, s, m, sender, w);
    if m.reply == "end" && Posted(w, ending) {
      var begin := A.Begin(m.taskId, sender, w.recordAt, A.Done);
      SendSettlesItsAnchor(d, m, sender, w, ending, b);
      A.EventStatus(d.entries, begin, b);
      A.RunOfOne(d.entries, begin);
      if ending != Raised(Delivering) {
        var second := if ending.Delivered? then A.Confirm(m.taskId, A.Done) else A.Fail(m.taskId, A.Done);
        A.RunOfTwo(d.entries, begin, second);
        A.EventStatus(A.ApplyEvent(d.entries, begin), second, b);
      }
    }
  }

  /** The lease list after a send that took hold of a claim, failed, and was rolled back. */
  function AfterFailedSend(s: seq<Lease>, m: Message, sender: string, w: World, others: seq<Step>): seq<Lease> {
    Apply(Run(AfterGate(s, m, sender, w), others), Step.ReleaseIfParty(m.taskId, sender, w.rollbackIo))
  }

  /** The claim was granted, rather than skipped for a live ref or answered with an existing thread. */
  predicate NewlyGranted(s: seq<Lease>, m: Message, sender: string, w: World) {
    !Exempt(m.reply) && !Shortcut(m, sender, w) && MyClaimOutcome(s, m, sender, w).Granted?
  }

  /** The list as the send never having been made would have left it: what the others wrote, after
      the sweep that a granted claim is in any case. */
  function WithoutTheSend(s: seq<Lease>, m: Message, sender: string, w: World, others: seq<Step>): seq<Lease> {
    if NewlyGranted(s, m, sender, w) then WithoutUs(s, MyClaim(m, sender, w), others) else Run(s, others)
  }

  /** The full rollback, as the relay performs it, for every way in which a question gets through the
      gate and every behaviour of the registry. When others do not name its id meanwhile, the failed
      send leaves no trace if and only if the rollback works and no other record of the sender
      carries the id, or it fails and there is no lease of this send left to remove. */
  lemma FailedSendExactly(s: seq<Lease>, m: Message, sender: string, w: World, others: seq<Step>)
    requires GateVerdict(s, m, sender, w) == Proceed(true)
    requires forall step | step in others :: !Names(step, m.taskId)
    ensures AfterFailedSend(s, m, sender, w, others) == WithoutTheSend(s, m, sender, w, others) <==>
            if w.rollbackIo == HEALTHY then !TakesMore(WithoutTheSend(s, m, sender, w, others), m.taskId, sender)
            else NewlyGranted(s, m, sender, w) ==>
                   LeaseAsked(MyClaim(m, sender, w)) !in Run(AfterGate(s, m, sender, w), others)
  {
    if NewlyGranted(s, m, sender, w) {
      RollbackExactly(s, MyClaim(m, sender, w), others, w.rollbackIo);
    } else {
      assert AfterGate(s, m, sender, w) == s;
      DropsNothing(Run(s, others), m.taskId, sender);
    }
  }

  /** And with a new id, even if others touch or release its lease meanwhile: it leaves no trace if
      and only if the rollback works or finds nothing under the id. */
  lemma FailedSendLeavesNoTrace(s: seq<Lease>, m: Message, sender: string, w: World, others: seq<Step>)
    requires NewlyGranted(s, m, sender, w)
    requires Fresh(s, m.taskId) && forall step | step in others && step.Claim? :: step.threadId != m.taskId
    ensures GateVerdict(s, m, sender, w) == Proceed(true)
    ensures AfterFailedSend(s, m, sender, w, others) == WithoutTheSend(s, m, sender, w, others)
            <==> w.rollbackIo == HEALTHY || !HasRecord(Run(AfterGate(s, m, sender, w), others), m.taskId)
  {
    RollbackLeavesNoTrace(s, MyClaim(m, sender, w), others, w.rollbackIo);
  }
}
