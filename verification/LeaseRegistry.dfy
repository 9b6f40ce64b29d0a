/** The lease registry as the gateway processes run it: one shared file, and per process an
    object whose methods read the list under the lock, loop over it and write it back. Each
    method is proved to make exactly the step that Leases.Apply describes. */
module LeaseRegistry {
  import opened Common
  import opened Leases
  import opened Gate

  /** The registry file. An absent file reads as an empty list without any failure. */
  class RegistryFile {
    var present: bool
    var entries: seq<Lease>

    ghost predicate Valid()
      reads this
    {
      !present ==> entries == []
    }

    constructor ()
      ensures Valid() && !present && entries == []
    {
      present := false;
      entries := [];
    }
  }

  /** What an explicit `stat` of the registry path says. */
  datatype PathState = Present | Absent | Unreadable

  datatype Reason = Released | NoSuchLease | NotAParty | RegistryUnavailable

  predicate HasId(s: seq<Lease>, tid: string) {
    exists r | r in s :: r.threadId == tid
  }

  predicate HasPartyLease(s: seq<Lease>, tid: string, who: string) {
    exists r | r in s :: r.threadId == tid && IsParty(r, who)
  }

  /** The reason reported once the path was found present and the lock was tried. */
  function ReasonUnderLock(s: seq<Lease>, tid: string, who: string, io: FileIO): Reason {
    if !io.lockOk || !io.readOk then RegistryUnavailable
    else if HasPartyLease(s, tid, who) then (if io.writeOk then Released else RegistryUnavailable)
    else if HasId(s, tid) then NotAParty
    else NoSuchLease
  }

  function ReasonWhenMissing(state: PathState, explicitPath: bool): Reason
    requires state != Present
  {
    if state == Unreadable || explicitPath then RegistryUnavailable else NoSuchLease
  }

  /** The answer of the reporting form. `first` is the stat made before the lock, `statOk` tells
      whether the one under the lock could be made; `present` is what it then says. */
  function StatusReason(s: seq<Lease>, present: bool, explicitPath: bool, tid: string, who: string,
                        first: PathState, statOk: bool, io: FileIO): Reason {
    if first != Present then ReasonWhenMissing(first, explicitPath)
    else if !io.lockOk then RegistryUnavailable
    else if !statOk then ReasonWhenMissing(Unreadable, explicitPath)
    else if !present then ReasonWhenMissing(Absent, explicitPath)
    else ReasonUnderLock(s, tid, who, io)
  }

  /** Each reason names one situation: the four exclude each other and cover every case. */
  lemma ReasonsPartition(s: seq<Lease>, tid: string, who: string, io: FileIO)
    ensures var reason := ReasonUnderLock(s, tid, who, io);
            && (reason == Released <==> io == HEALTHY && HasPartyLease(s, tid, who))
            && (reason == NotAParty <==>
                  (io.lockOk && io.readOk && HasId(s, tid) && forall r | r in s && r.threadId == tid :: !IsParty(r, who)))
            && (reason == NoSuchLease <==> io.lockOk && io.readOk && forall r | r in s :: r.threadId != tid)
            && (reason == RegistryUnavailable <==>
                  !io.lockOk || !io.readOk || (!io.writeOk && HasPartyLease(s, tid, who)))
            && (Apply(s, ReleaseIfPartyStatus(tid, who, io)) != s ==> reason == Released)
  {
    forall r | r in s && HasPartyLease(s, tid, who) == false
      ensures Passes(NotPartyOf(tid, who), r)
    {
    }
    if !HasPartyLease(s, tid, who) {
      KeepAll(s, NotPartyOf(tid, who));
    }
  }

  /** The same over everything a call can meet: the reason in full, by the two stats, the lock, the
      read, the list and the write. A missing file is "no such lease", unless its path was given. */
  lemma ReasonInFull(s: seq<Lease>, present: bool, explicitPath: bool, tid: string, who: string,
                     first: PathState, statOk: bool, io: FileIO)
    ensures var reason := StatusReason(s, present, explicitPath, tid, who, first, statOk, io);
            var found := first == Present && io.lockOk && statOk && present;
            var missing := first == Absent || (first == Present && io.lockOk && statOk && !present);
            && (reason == Released <==> found && io == HEALTHY && HasPartyLease(s, tid, who))
            && (reason == NotAParty <==> found && io.readOk && HasId(s, tid) && !HasPartyLease(s, tid, who))
            && (reason == NoSuchLease <==> (found && io.readOk && !HasId(s, tid)) || (missing && !explicitPath))
  {
    ReasonsPartition(s, tid, who, io);
    assert HasPartyLease(s, tid, who) ==> HasId(s, tid);
  }

  /** Release removes exactly the caller's own records with that id, colliding ids or not. */
  lemma ReleaseIsPartySafe(s: seq<Lease>, tid: string, who: string, r: Lease)
    ensures r in Apply(s, ReleaseIfParty(tid, who, HEALTHY)) <==> r in s && !(r.threadId == tid && IsParty(r, who))
    ensures Apply(s, ReleaseIfParty(tid, who, HEALTHY)) == Apply(s, ReleaseIfPartyStatus(tid, who, HEALTHY))
  {
    KeepMembers(s, NotPartyOf(tid, who), r);
  }

  lemma DropsIffParty(s: seq<Lease>, tid: string, who: string)
    ensures |Keep(s, NotPartyOf(tid, who))| != |s| <==> HasPartyLease(s, tid, who)
    ensures !HasPartyLease(s, tid, who) ==> Keep(s, NotPartyOf(tid, who)) == s
  {
    KeepDropsSome(s, NotPartyOf(tid, who));
    assert HasPartyLease(s, tid, who) <==> exists r :: r in s && !Passes(NotPartyOf(tid, who), r);
  }

  /** The touch of the list from record i on, one record further. */
  lemma TouchNext(s: seq<Lease>, i: nat, tid: string, now: real, resize: Option<int>)
    requires i < |s|
    ensures s[..i] + TouchFirst(s[i..], tid, now, resize)
            == if s[i].threadId == tid && Live(s[i], now) then s[i := Touched(s[i], now, resize)]
               else s[..i + 1] + TouchFirst(s[i + 1..], tid, now, resize)
  {
    assert s[i..][0] == s[i] && s[i..][1..] == s[i + 1..];
    if s[i].threadId == tid && Live(s[i], now) {
      assert s[i := Touched(s[i], now, resize)] == s[..i] + ([Touched(s[i], now, resize)] + s[i + 1..]);
    } else {
      Regroup(s[..i], [s[i]], TouchFirst(s[i + 1..], tid, now, resize));
      assert s[..i + 1] == s[..i] + [s[i]];
    }
  }

  /** One gateway process. Its counter of fail-open degradations is its own. */
  class LeaseGateway {
    const file: RegistryFile
    const explicitPath: bool
    var failopens: nat

    constructor (file: RegistryFile, explicitPath: bool)
      ensures this.file == file && this.explicitPath == explicitPath && failopens == 0
    {
      this.file := file;
      this.explicitPath := explicitPath;
      failopens := 0;
    }

    method Degrade()
      modifies this`failopens
      ensures failopens == old(failopens) + 1
    {
      failopens := failopens + 1;
    }

    method Read(io: FileIO) returns (records: seq<Lease>)
      modifies this`failopens
      ensures records == if io.readOk then file.entries else []
      ensures failopens == old(failopens) + if io.readOk then 0 else 1
    {
      if io.readOk {
        records := file.entries;
      } else {
        Degrade();
        records := [];
      }
    }

    method Write(records: seq<Lease>, io: FileIO) returns (ok: bool)
      requires file.Valid()
      modifies this`failopens, file
      ensures file.Valid() && ok == io.writeOk
      ensures file.entries == if ok then records else old(file.entries)
      ensures file.present == (ok || old(file.present))
      ensures failopens == old(failopens) + if ok then 0 else 1
    {
      ok := io.writeOk;
      if ok {
        file.present := true;
        file.entries := records;
      } else {
        Degrade();
      }
    }

    method Select(records: seq<Lease>, t: Sieve) returns (kept: seq<Lease>)
      ensures kept == Keep(records, t)
    {
      kept := [];
      for i := 0 to |records|
        invariant kept == Keep(records[..i], t)
      {
        KeepAppend(records[..i], [records[i]], t);
        assert records[..i + 1] == records[..i] + [records[i]];
        if Passes(t, records[i]) {
          kept := kept + [records[i]];
        }
      }
      assert records[..|records|] == records;
    }

    method FindPair(live: seq<Lease>, opener: string, target: string) returns (r: Option<Lease>)
      ensures r == FirstPair(live, opener, target)
    {
      for i := 0 to |live|
        invariant FirstPair(live, opener, target) == FirstPair(live[i..], opener, target)
      {
        if IsPair(live[i], opener, target) {
          return Some(live[i]);
        }
      }
      return None;
    }

    method FindBlocker(live: seq<Lease>, opener: string, target: string) returns (r: Option<Lease>)
      ensures r == FirstBlocker(live, opener, target)
    {
      for i := 0 to |live|
        invariant FirstBlocker(live, opener, target) == FirstBlocker(live[i..], opener, target)
      {
        if Blocks(live[i], opener, target) {
          return Some(live[i]);
        }
      }
      return None;
    }

    /** The merge loop of `claim`. Its branch, which would extend live[i], is dead code. */
    method MergeLoop(live: seq<Lease>, opener: string, target: string)
      requires FirstPair(live, opener, target).None?
    {
      MergeIsUnreachable(live, opener, target);
      for i := 0 to |live| {
        if live[i].openedBy == opener && live[i].peer == target {
          assert false;
        }
      }
    }

    /** Claim the door for `target`, or say who holds it. */
    method Claim(tid: string, opener: string, target: string, minutes: int, now: real, io: FileIO)
      returns (out: Outcome)
      requires file.Valid()
      modifies this`failopens, file
      ensures file.Valid()
      ensures out == ClaimOutcome(old(file.entries), tid, opener, target, minutes, now, io)
      ensures file.entries == Apply(old(file.entries), Step.Claim(tid, opener, target, minutes, now, io))
      ensures io == HEALTHY ==> failopens == old(failopens)
      ensures out.Degraded? ==> failopens > old(failopens)
    {
      if !(ValidToken(tid) && ValidToken(opener) && ValidToken(target)) {
        return BadToken;
      }
      var clamped := ClampMinutes(minutes);
      if !io.lockOk {
        Degrade();
        return Degraded;
      }
      var stored := Read(io);
      var live := Select(stored, LiveAt(now));
      var pair := FindPair(live, opener, target);
      if pair.Some? {
        return Traffic(pair.value);
      }
      var blocker := FindBlocker(live, opener, target);
      if blocker.Some? {
        return Busy(blocker.value);
      }
      MergeLoop(live, opener, target);
      var outbound := Select(live, OpenedBy(opener));
      if |outbound| >= MAX_OUTBOUND_THREADS {
        return Capped(Ids(outbound), Peers(outbound));
      }
      var rec := Lease(tid, opener, target, now, now + Minutes(clamped), clamped, 0, false);
      var ok := Write(live + [rec], io);
      out := if ok then Granted(rec) else Degraded;
    }

    /** The loop of `touch`: it updates one record in place and stops. */
    method TouchLive(records: seq<Lease>, tid: string, now: real, resize: Option<int>)
      returns (touched: seq<Lease>, out: Option<Lease>)
      ensures touched == TouchFirst(records, tid, now, resize)
      ensures out == match FirstLive(records, tid, now)
                     case None => None
                     case Some(r) => Some(Touched(r, now, resize))
    {
      for i := 0 to |records|
        invariant TouchFirst(records, tid, now, resize) == records[..i] + TouchFirst(records[i..], tid, now, resize)
        invariant FirstLive(records, tid, now) == FirstLive(records[i..], tid, now)
      {
        TouchNext(records, i, tid, now, resize);
        if records[i].threadId == tid && Live(records[i], now) {
          var rec := Touched(records[i], now, resize);
          return records[i := rec], Some(rec);
        }
      }
      assert records[..|records|] == records;
      return records, None;
    }

    /** Count a reply on the first live record with the id, resizing it once. The answer is
        the touched record even when writing it back failed. */
    method Touch(tid: string, resize: Option<int>, now: real, io: FileIO) returns (out: Option<Lease>)
      requires file.Valid()
      modifies this`failopens, file
      ensures file.Valid()
      ensures file.entries == Apply(old(file.entries), Step.Touch(tid, resize, now, io))
      ensures out == if !io.lockOk || !io.readOk then None
                     else match FirstLive(old(file.entries), tid, now)
                          case None => None
                          case Some(r) => Some(Touched(r, now, resize))
      ensures TouchStored(old(file.entries), file.entries, tid, resize, now, io)
      ensures io == HEALTHY ==> failopens == old(failopens)
    {
      TouchStepStores(file.entries, tid, resize, now, io);
      out := None;
      if !io.lockOk {
        Degrade();
        return;
      }
      var records := Read(io);
      var touched;
      touched, out := TouchLive(records, tid, now, resize);
      if out.Some? {
        var _ := Write(touched, io);
      } else {
        TouchMovesOneRecord(records, tid, now, resize);
      }
    }

    /** Sweep lapsed leases. `seen` is what the first read, made without the lock, returned. */
    method Expire(seen: seq<Lease>, now: real, io: FileIO) returns (live: seq<Lease>)
      requires file.Valid()
      modifies this`failopens, file
      ensures file.Valid()
      ensures var sweeps := |Keep(seen, LiveAt(now))| != |seen|;
              && file.entries == Apply(old(file.entries), Step.Expire(now, sweeps, io))
              && live == if sweeps && io.lockOk then ReadLive(old(file.entries), now, io) else Keep(seen, LiveAt(now))
      ensures forall r | r in live :: Live(r, now)
    {
      live := Select(seen, LiveAt(now));
      if |live| != |seen| {
        if !io.lockOk {
          Degrade();
        } else {
          var records := Read(io);
          live := Select(records, LiveAt(now));
          var _ := Write(live, io);
        }
      }
      forall r | r in live
        ensures Live(r, now)
      {
        KeepMembers(seen, LiveAt(now), r);
        KeepMembers(old(file.entries), LiveAt(now), r);
      }
    }

    method Release(tid: string, io: FileIO) returns (changed: bool)
      requires file.Valid()
      modifies this`failopens, file
      ensures file.Valid()
      ensures file.entries == Apply(old(file.entries), Step.Release(tid, io))
      ensures changed == (io.lockOk && io.readOk && HasId(old(file.entries), tid))
    {
      if !io.lockOk {
        Degrade();
        return false;
      }
      var records := Read(io);
      var kept := Select(records, OtherThan(tid));
      changed := |kept| != |records|;
      KeepDropsSome(records, OtherThan(tid));
      assert changed <==> exists r :: r in records && !Passes(OtherThan(tid), r);
      if changed {
        var _ := Write(kept, io);
      }
    }

    /** Drop the caller's own records with the id; `found` says whether there was one. */
    method SplitParty(records: seq<Lease>, tid: string, who: string)
      returns (kept: seq<Lease>, matched: bool, found: bool)
      ensures kept == Keep(records, NotPartyOf(tid, who))
      ensures matched == HasId(records, tid)
      ensures found == HasPartyLease(records, tid, who)
    {
      kept, matched, found := [], false, false;
      for i := 0 to |records|
        invariant kept == Keep(records[..i], NotPartyOf(tid, who))
        invariant matched == HasId(records[..i], tid)
        invariant found == HasPartyLease(records[..i], tid, who)
      {
        KeepAppend(records[..i], [records[i]], NotPartyOf(tid, who));
        assert records[..i + 1] == records[..i] + [records[i]];
        if records[i].threadId == tid {
          matched := true;
          if IsParty(records[i], who) {
            found := true;
            continue;
          }
        }
        kept := kept + [records[i]];
      }
      assert records[..|records|] == records;
    }

    /** The boolean form: it answers true even when writing the list back failed. */
    method ReleaseIfParty(tid: string, who: string, io: FileIO) returns (released: bool)
      requires file.Valid()
      modifies this`failopens, file
      ensures file.Valid()
      ensures file.entries == Apply(old(file.entries), Step.ReleaseIfParty(tid, who, io))
      ensures released == (io.lockOk && io.readOk && HasPartyLease(old(file.entries), tid, who))
    {
      if !io.lockOk {
        Degrade();
        return false;
      }
      var records := Read(io);
      var kept, _, found := SplitParty(records, tid, who);
      DropsIffParty(records, tid, who);
      if found {
        var _ := Write(kept, io);
      }
      return found;
    }

    /** The reporting form. */
    method ReleaseIfPartyStatus(tid: string, who: string, first: PathState, statOk: bool, io: FileIO)
      returns (reason: Reason)
      requires file.Valid()
      modifies this`failopens, file
      ensures file.Valid()
      ensures reason == StatusReason(old(file.entries), old(file.present), explicitPath, tid, who, first, statOk, io)
      ensures file.entries == if reason == Released then Keep(old(file.entries), NotPartyOf(tid, who)) else old(file.entries)
      ensures file.present == old(file.present)
      ensures reason == RegistryUnavailable ==> failopens > old(failopens)
    {
      if first != Present {
        reason := ReasonWhenMissing(first, explicitPath);
        if reason == RegistryUnavailable {
          Degrade();
        }
        return;
      }
      if !io.lockOk {
        Degrade();
        return RegistryUnavailable;
      }
      if !statOk || !file.present {
        reason := ReasonWhenMissing(if statOk then Absent else Unreadable, explicitPath);
        if reason == RegistryUnavailable {
          Degrade();
        }
        return;
      }
      if !io.readOk {
        Degrade();
        return RegistryUnavailable;
      }
      var kept, matched, found := SplitParty(file.entries, tid, who);
      if found {
        var ok := Write(kept, io);
        return if ok then Released else RegistryUnavailable;
      }
      return if matched then NotAParty else NoSuchLease;
    }

    /** The live lease with the id, from a read made without the lock. */
    method LeaseFor(tid: string, seen: seq<Lease>, now: real) returns (r: Option<Lease>)
      ensures r == if tid == "" then None else FirstLive(seen, tid, now)
    {
      if tid == "" {
        return None;
      }
      for i := 0 to |seen|
        invariant FirstLive(seen, tid, now) == FirstLive(seen[i..], tid, now)
      {
        if seen[i].threadId == tid && Live(seen[i], now) {
          return Some(seen[i]);
        }
      }
      return None;
    }
  }

  /** The two release forms change the file alike, and on a present readable registry their
      answers differ exactly when a record of the caller could not be written away. */
  lemma ReleaseFormsAgree(s: seq<Lease>, tid: string, who: string, io: FileIO)
    requires io.lockOk && io.readOk
    ensures Apply(s, ReleaseIfParty(tid, who, io)) == Apply(s, ReleaseIfPartyStatus(tid, who, io))
    ensures HasPartyLease(s, tid, who) == (ReasonUnderLock(s, tid, who, io) == Released)
            <==> io.writeOk || !HasPartyLease(s, tid, who)
  {
    ReasonsPartition(s, tid, who, io);
  }
}
