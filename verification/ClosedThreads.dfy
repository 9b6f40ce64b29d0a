/** The closed-thread registry as the gateway processes run it: one shared file, and per
    process the module state that caches it. Each method is proved to do exactly what the
    functions of Anchors describe. */
module ClosedThreads {
  import opened Common
  import opened Anchors

  class AnchorFile {
    var present: bool
    var entries: seq<Entry>
    var stamp: nat

    ghost function Disk(): Anchors.Disk
      reads this
    {
      Anchors.Disk.Disk(present, entries, stamp)
    }

    constructor ()
      ensures Disk() == NO_FILE
    {
      present, entries, stamp := false, [], 0;
    }

    /** An atomic replacement of the file; its modification time is new. */
    method Write(records: seq<Entry>)
      modifies this
      ensures Disk() == WriteDisk(old(Disk()), records)
    {
      present, entries, stamp := true, records, stamp + 1;
    }

    method ModificationTime() returns (t: Option<nat>)
      ensures t == Mtime(Disk())
    {
      t := if present then Some(stamp) else None;
    }

    method Read(io: FileIO) returns (records: seq<Entry>, failed: bool)
      ensures (records, failed) == ReadDisk(Disk(), io)
    {
      failed := !io.readOk;
      records := if failed then [] else entries;
    }
  }

  predicate HasPending(s: seq<Entry>, a: string) {
    exists e | e in s :: e.anchor == a && e.pending
  }

  /** Either rewrite changes the list exactly when it finds a pending entry of the anchor. */
  lemma {:induction false} RewriteChanges(s: seq<Entry>, a: string)
    ensures |Withdrawn(s, a)| <= |s| == |Promoted(s, a)|
    ensures HasPending(s, a) <==> Promoted(s, a) != s
    ensures HasPending(s, a) <==> |Withdrawn(s, a)| != |s|
    ensures !HasPending(s, a) ==> Withdrawn(s, a) == s
  {
    if s != [] {
      RewriteChanges(s[1..], a);
      assert forall e :: e in s <==> e == s[0] || e in s[1..];
      assert Promoted(s, a)[1..] == Promoted(s[1..], a);
      if Promoted(s, a) == s {
        assert Promoted(s[1..], a) == s[1..] && Promoted(s, a)[0] == s[0];
      }
    }
  }

  lemma {:induction false} PromotedAppend(s: seq<Entry>, e: Entry, a: string)
    ensures Promoted(s + [e], a) == Promoted(s, a) + [if e.anchor == a then e.(pending := false) else e]
  {
    if s == [] {
      assert s + [e] == [e];
    } else {
      PromotedAppend(s[1..], e, a);
      HeadOfConcat(s, [e]);
    }
  }

  lemma {:induction false} WithdrawnAppend(s: seq<Entry>, e: Entry, a: string)
    ensures Withdrawn(s + [e], a) == Withdrawn(s, a) + (if e.anchor == a && e.pending then [] else [e])
  {
    if s == [] {
      assert s + [e] == [e];
    } else {
      WithdrawnAppend(s[1..], e, a);
      HeadOfConcat(s, [e]);
      Regroup(if s[0].anchor == a && s[0].pending then [] else [s[0]], Withdrawn(s[1..], a),
              if e.anchor == a && e.pending then [] else [e]);
    }
  }

  lemma RewriteNext(s: seq<Entry>, i: nat, a: string)
    requires i < |s|
    ensures var e, before := s[i], s[..i];
            && Promoted(s[..i + 1], a) == Promoted(before, a) + [if e.anchor == a then e.(pending := false) else e]
            && Withdrawn(s[..i + 1], a) == (if e.anchor == a && e.pending then Withdrawn(before, a) else Withdrawn(before, a) + [e])
            && HasPending(s[..i + 1], a) == (HasPending(before, a) || (e.anchor == a && e.pending))
  {
    assert s[..i + 1] == s[..i] + [s[i]];
    PromotedAppend(s[..i], s[i], a);
    WithdrawnAppend(s[..i], s[i], a);
  }

  class ThreadProcess {
    const file: AnchorFile
    var loaded: bool
    var locked: set<string>
    var mtime: Option<nat>
    ghost var degraded: bool

    ghost function Cache(): Anchors.Cache
      reads this
    {
      Anchors.Cache.Cache(loaded, locked, mtime, degraded)
    }

    constructor (file: AnchorFile)
      ensures this.file == file && Cache() == NO_CACHE
    {
      this.file := file;
      loaded, locked, mtime, degraded := false, {}, None, false;
    }

    method Hydrate(records: seq<Entry>, ghost failedRead: bool)
      modifies this
      ensures Cache() == Hydrated(records, file.Disk(), failedRead)
    {
      locked := {};
      for i := 0 to |records|
        invariant locked == Tokens(records[..i])
      {
        assert records[..i + 1] == records[..i] + [records[i]];
        if ValidToken(records[i].anchor) {
          locked := locked + {records[i].anchor};
        }
      }
      assert records[..|records|] == records;
      loaded := true;
      mtime := file.ModificationTime();
      degraded := failedRead;
    }

    /** Persist an anchor; `ok` is false when the call raised. */
    method Record(a: string, closedBy: string, at: real, pending: bool, io: FileIO) returns (ok: bool)
      modifies this, file
      ensures (file.Disk(), Cache()) == RecordOn(old(file.Disk()), old(Cache()), a, closedBy, at, pending, io)
      ensures ok <==> ValidToken(a) && ValidToken(closedBy) && io.lockOk
                      && (io.writeOk || Has(ReadDisk(old(file.Disk()), io).0, a))
    {
      if !(ValidToken(a) && ValidToken(closedBy)) || !io.lockOk {
        return false;
      }
      var records, _ := file.Read(io);
      for i := 0 to |records|
        invariant forall j | 0 <= j < i :: records[j].anchor != a
        invariant Cache() == old(Cache()) && file.Disk() == old(file.Disk())
      {
        if records[i].anchor == a {
          assert records[i] in records;
          Hydrate(records, false);
          return true;
        }
      }
      records := records + [Entry(a, at, closedBy, pending)];
      if !io.writeOk {
        return false;
      }
      file.Write(records);
      Hydrate(records, false);
      return true;
    }

    /** The loop of the rewrite: the list to store, and whether it differs from the one read. */
    method RewriteLoop(records: seq<Entry>, a: string, promote: bool) returns (kept: seq<Entry>, changed: bool)
      ensures kept == if promote then Promoted(records, a) else Withdrawn(records, a)
      ensures changed == HasPending(records, a)
    {
      kept, changed := [], false;
      for i := 0 to |records|
        invariant kept == if promote then Promoted(records[..i], a) else Withdrawn(records[..i], a)
        invariant changed == HasPending(records[..i], a)
      {
        RewriteNext(records, i, a);
        if records[i].anchor != a {
          kept := kept + [records[i]];
          continue;
        }
        var e := records[i];
        if e.pending {
          changed := true;
          if !promote {
            continue;
          }
          e := e.(pending := false);
        }
        kept := kept + [e];
      }
      assert records[..|records|] == records;
    }

    /** Drop (withdraw) or confirm (promote) the pending entries of an anchor. */
    method Rewrite(a: string, promote: bool, io: FileIO)
      modifies this, file
      ensures (file.Disk(), Cache()) == RewriteOn(old(file.Disk()), old(Cache()), a, promote, io)
    {
      if !ValidToken(a) || !io.lockOk {
        return;
      }
      var records, failed := file.Read(io);
      if failed {
        return;
      }
      var kept, changed := RewriteLoop(records, a, promote);
      RewriteChanges(records, a);
      if !changed || !io.writeOk {
        return;
      }
      file.Write(kept);
      Hydrate(kept, false);
    }

    /** A message without a reference is never checked. */
    method IsClosed(anchor: Option<string>, io: FileIO) returns (closed: bool)
      modifies this
      ensures anchor == None ==> !closed && Cache() == old(Cache())
      ensures anchor.Some? ==> (Cache(), closed) == IsClosedOn(file.Disk(), old(Cache()), anchor.value, io)
      ensures anchor.Some? && io == HEALTHY && GoodDisk(file.Disk()) && old(Coherent(file.Disk(), Cache())) && !old(degraded)
              ==> closed == Has(file.entries, anchor.value)
    {
      if anchor == None || !io.lockOk {
        return false;
      }
      if !loaded {
        var records, _ := file.Read(io);
        Hydrate(records, !io.readOk);
        return anchor.value in locked;
      }
      var current := file.ModificationTime();
      if current != mtime {
        var records, _ := file.Read(io);
        Hydrate(records, !io.readOk);
      }
      assert anchor.value in Tokens(file.entries) <==> exists e :: e in file.entries && ValidToken(e.anchor) && e.anchor == anchor.value;
      return anchor.value in locked;
    }
  }

  /** An operation by one process never breaks another's snapshot: it stays coherent with the
      file the first process left. */
  twostate lemma OthersStayCoherent(other: ThreadProcess)
    requires old(Coherent(other.file.Disk(), other.Cache()))
    requires other.Cache() == old(other.Cache())
    requires || other.file.Disk() == old(other.file.Disk())
             || other.file.Disk() == WriteDisk(old(other.file.Disk()), other.file.entries)
    ensures Coherent(other.file.Disk(), other.Cache())
  {
  }
}
