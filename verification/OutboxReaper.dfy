/** The retry loop as a process runs it, over the directory and the closed-thread registry. */
module OutboxReaper {
  import opened Common
  import opened Anchors
  import opened ClosedThreads
  import opened Outbox

  class Reaping {
    const threads: ThreadProcess
    var queue: seq<Item>
    var dead: seq<Item>
    var enabled: bool

    constructor (threads: ThreadProcess, enabled: bool)
      ensures this.threads == threads && queue == [] && dead == [] && this.enabled == enabled
    {
      this.threads := threads;
      queue, dead := [], [];
      this.enabled := enabled;
    }

    /** Persist a failed delivery. The two clock readings are the two calls the item makes. */
    method QueueMessage(id: string, msgId: string, sender: string, recipient: string, now: real, written: real,
                        ref: Option<string>, isDsn: bool, anchor: Option<string>)
      modifies this`queue
      ensures queue == old(queue) + [QueueItem(id, msgId, sender, recipient, now, written, ref, isDsn, anchor)]
      ensures now <= written ==> forall backoff: real :: OnSchedule(queue[|old(queue)|], backoff)
    {
      queue := queue + [QueueItem(id, msgId, sender, recipient, now, written, ref, isDsn, anchor)];
    }

    method Settle(anchor: Option<string>, promote: bool, io: FileIO)
      modifies threads, threads.file
      ensures (threads.file.Disk(), threads.Cache()) ==
              SettleOn(old(threads.file.Disk()), old(threads.Cache()), anchor, promote, io)
    {
      if anchor.Some? {
        threads.Rewrite(anchor.value, promote, io);
      }
    }

    /** One delivery attempt: the close carried by the item is recorded pending for its
        duration and settled on its outcome. */
    method AttemptItem(item: Item, env: Env) returns (result: Result)
      modifies threads, threads.file
      ensures (threads.file.Disk(), threads.Cache(), result) ==
              AttemptOn(old(threads.file.Disk()), old(threads.Cache()), item, env)
    {
      if item.ref.Some? && !item.isDsn {
        var closed := threads.IsClosed(item.ref, env.ioClosed);
        if closed {
          Settle(item.anchor, false, env.ioSettle);
          return DroppedClosed;
        }
      }
      if env.answer == ResolveRaised {
        return Raised;
      }
      if env.answer == ResolveError {
        Settle(item.anchor, false, env.ioSettle);
        return NotDelivered;
      }
      if item.anchor.Some? {
        var _ := threads.Record(item.anchor.value, item.sender, env.at, true, env.ioRecord);
      }
      if env.answer == DeliveryRaised {
        Settle(item.anchor, false, env.ioSettle);
        return Raised;
      }
      if env.answer == Accepted {
        Settle(item.anchor, true, env.ioSettle);
        return Delivered;
      }
      Settle(item.anchor, false, env.ioSettle);
      return NotDelivered;
    }

    /** The end of an exhausted item: its file is moved, or else deleted, or else the call raises
        before the close is withdrawn and a notice sent. */
    method BuryItem(item: Item, env: Env) returns (change: Change)
      modifies threads, threads.file
      ensures Same(change, Bury(old(threads.file.Disk()), old(threads.Cache()), item, env), threads.file.Disk(), threads.Cache())
      // Moved or deleted or still queued, never delivered; and all but the last tell somebody, once.
      ensures change.dead == if env.burial == Moved then [item.(tried := item.tried + 1)] else []
      ensures change.lost == if env.burial == Deleted then [item.(tried := item.tried + 1)] else []
      ensures change.kept == if env.burial == Blocked then [Unwritten(item, 1)] else []
      ensures change.spoilt == [] && change.delivered == 0 && (change.raised <==> env.burial == Blocked)
      ensures |change.added| == if env.burial != Blocked && !item.isDsn && env.notice.Some? then 1 else 0
    {
      var tried := item.(tried := item.tried + 1);
      if env.burial == Blocked {
        return Change([Unwritten(item, 1)], [], [], [], [], 1, 0, true);
      }
      Settle(item.anchor, false, env.ioDead);
      if env.burial == Moved {
        return Change([], [tried], [], [], Notice(item, env), 1, 0, false);
      }
      return Change([], [], [tried], [], Notice(item, env), 1, 0, false);
    }

    /** The body of the loop: what is left of the item in the queue, what moves to the
        dead-letter folder, what is enqueued, and how the counters move. */
    method RetryItem(item: Item, env: Env, r: Reaper) returns (change: Change)
      modifies threads, threads.file
      ensures Same(change, PassItem(old(threads.file.Disk()), old(threads.Cache()), item, env, r),
                   threads.file.Disk(), threads.Cache())
    {
      if !env.readable || item.nextRetry > r.now {
        return Change([item], [], [], [], [], 0, 0, false);
      }
      var attempt := item.attempt + 1;
      var result := AttemptItem(item, env);
      if result == Raised {
        return Change([Unwritten(item, 1)], [], [], [], [], 1, 0, true);
      }
      if result == Delivered || result == DroppedClosed {
        return if env.removeOk then Change([], [], [], [], [], 1, 1, false)
               else Change([Unwritten(item, 1)], [], [], [], [], 1, 0, true);
      }
      if attempt >= r.maxAttempts {
        change := BuryItem(item, env);
        return;
      }
      match env.rewriting {
        case Stored =>
          var retry := item.(tried := item.tried + 1, attempt := attempt, nextRetry := r.now + Backoff(r.backoff, attempt));
          return Change([retry], [], [], [], [], 1, 0, false);
        case Unopened => return Change([Unwritten(item, 1)], [], [], [], [], 1, 0, false);
        case Truncated => return Change([], [], [], [item.(tried := item.tried + 1)], [], 1, 0, false);
      }
    }

    /** The loop over a listing of the directory. */
    method RetryListing(listing: seq<Item>, envs: seq<Env>, r: Reaper) returns (retried: nat, delivered: nat, raised: bool)
      requires |envs| == |listing|
      modifies this`queue, this`dead, threads, threads.file
      ensures var p := PassOver(old(threads.file.Disk()), old(threads.Cache()), listing, envs, r);
              && queue == p.kept + p.added
              && dead == old(dead) + p.dead
              && threads.file.Disk() == p.disk && threads.Cache() == p.cache
              && retried == p.retried && delivered == p.delivered && raised == p.stopped
    {
      ghost var all := PassOver(threads.file.Disk(), threads.Cache(), listing, envs, r);
      ghost var acc := Untouched(threads.file.Disk(), threads.Cache(), []);
      JoinUnit(all, acc);
      var total := NO_CHANGE;
      var i := 0;
      while i < |listing| && !total.raised
        invariant 0 <= i <= |listing|
        invariant Same(total, acc, threads.file.Disk(), threads.Cache())
        invariant InProgress(all, acc, listing[i..], envs[i..], r)
        invariant dead == old(dead)
      {
        PassUnfolds(all, acc, listing[i..], envs[i..], r);
        ghost var head := PassItem(acc.disk, acc.cache, listing[i], envs[i], r);
        var change := RetryItem(listing[i], envs[i], r);
        SameJoined(total, change, acc, head, threads.file.Disk(), threads.Cache());
        total, acc := Plus(total, change), Join(acc, head);
        i := i + 1;
      }
      PassEnds(all, acc, listing[i..], envs[i..], r);
      queue := total.kept + listing[i..] + total.added;
      dead := dead + total.dead;
      retried, delivered, raised := total.retried, total.delivered, total.raised;
    }

    /** Retry the due items of the directory, listed in any order. `raised` tells that an
        exception ended the pass with the rest of the listing untouched. */
    method RetryOutbox(listing: seq<Item>, envs: seq<Env>, r: Reaper) returns (retried: nat, delivered: nat, raised: bool)
      requires |envs| == |listing| && multiset(listing) == multiset(queue)
      modifies this`queue, this`dead, threads, threads.file
      ensures !enabled ==> retried == delivered == 0 && !raised && queue == old(queue) && dead == old(dead)
                           && threads.file.Disk() == old(threads.file.Disk()) && threads.Cache() == old(threads.Cache())
      ensures enabled ==>
                var p := PassOver(old(threads.file.Disk()), old(threads.Cache()), listing, envs, r);
                && queue == p.kept + p.added
                && dead == old(dead) + p.dead
                && threads.file.Disk() == p.disk && threads.Cache() == p.cache
                && retried == p.retried && delivered == p.delivered && raised == p.stopped
      ensures enabled ==>
                var (d, c) := (old(threads.file.Disk()), old(threads.Cache()));
                && dead == old(dead) + Leavers(d, c, listing, envs, r, true)
                && delivered == |Leavers(d, c, listing, envs, r, false)|
    {
      retried, delivered, raised := 0, 0, false;
      if enabled {
        PassSorts(threads.file.Disk(), threads.Cache(), listing, envs, r, true);
        PassSorts(threads.file.Disk(), threads.Cache(), listing, envs, r, false);
        PassConserves(threads.file.Disk(), threads.Cache(), listing, envs, r, QueueItem("", "", "", "", 0.0, 0.0, None, false, None));
        retried, delivered, raised := RetryListing(listing, envs, r);
      }
    }
  }

  /** What the loop has done to the directory and its counters. */
  datatype Change = Change(
    kept: seq<Item>, dead: seq<Item>, lost: seq<Item>, spoilt: seq<Item>, added: seq<Item>,
    retried: nat, delivered: nat, raised: bool)

  const NO_CHANGE := Change([], [], [], [], [], 0, 0, false)

  function Plus(a: Change, b: Change): Change {
    Change(a.kept + b.kept, a.dead + b.dead, a.lost + b.lost, a.spoilt + b.spoilt, a.added + b.added,
           a.retried + b.retried, a.delivered + b.delivered, b.raised)
  }

  /** The change, together with the registry and the snapshot, is the one the pass describes. */
  ghost predicate Same(change: Change, p: Pass, d: Disk, c: Cache) {
    && change == Change(p.kept, p.dead, p.lost, p.spoilt, p.added, p.retried, p.delivered, p.stopped)
    && d == p.disk && c == p.cache
  }

  lemma SameJoined(total: Change, change: Change, acc: Pass, head: Pass, d: Disk, c: Cache)
    requires Same(total, acc, acc.disk, acc.cache) && Same(change, head, d, c)
    ensures Same(Plus(total, change), Join(acc, head), d, c)
  {
  }

  /** `all` is what is done so far and a pass over the rest, which an exception leaves as it is. */
  ghost predicate InProgress(all: Pass, acc: Pass, items: seq<Item>, envs: seq<Env>, r: Reaper)
    requires |envs| == |items|
  {
    all == if acc.stopped then acc.(kept := acc.kept + items)
           else Join(acc, PassOver(acc.disk, acc.cache, items, envs, r))
  }

  /** One more item of a pass in progress. */
  lemma PassUnfolds(all: Pass, acc: Pass, items: seq<Item>, envs: seq<Env>, r: Reaper)
    requires |envs| == |items| && items != [] && !acc.stopped && InProgress(all, acc, items, envs, r)
    ensures InProgress(all, Join(acc, PassItem(acc.disk, acc.cache, items[0], envs[0], r)), items[1..], envs[1..], r)
  {
    var head := PassItem(acc.disk, acc.cache, items[0], envs[0], r);
    if head.stopped {
      Regroup(acc.kept, head.kept, items[1..]);
    } else {
      JoinAssociates(acc, head, PassOver(head.disk, head.cache, items[1..], envs[1..], r));
    }
  }

  /** The end of a pass. */
  lemma PassEnds(all: Pass, acc: Pass, items: seq<Item>, envs: seq<Env>, r: Reaper)
    requires |envs| == |items| && (items == [] || acc.stopped) && InProgress(all, acc, items, envs, r)
    ensures all == acc.(kept := acc.kept + items)
  {
    if !acc.stopped {
      JoinUnit(acc, Untouched(acc.disk, acc.cache, []));
      assert acc.kept + items == acc.kept;
    }
  }

  lemma JoinAssociates(a: Pass, b: Pass, c: Pass)
    ensures Join(a, Join(b, c)) == Join(Join(a, b), c)
  {
    Regroup(a.kept, b.kept, c.kept);
    Regroup(a.done, b.done, c.done);
    Regroup(a.dead, b.dead, c.dead);
    Regroup(a.lost, b.lost, c.lost);
    Regroup(a.spoilt, b.spoilt, c.spoilt);
    Regroup(a.added, b.added, c.added);
  }

  lemma NothingAdded<T>(s: seq<T>)
    ensures s + [] == s && [] + s == s
  {
  }

  lemma JoinUnit(p: Pass, u: Pass)
    requires u == Untouched(u.disk, u.cache, [])
    ensures Join(u, p) == p
    ensures Join(p, u) == p.(disk := u.disk, cache := u.cache, stopped := false)
  {
    NothingAdded(p.kept);
    NothingAdded(p.done);
    NothingAdded(p.dead);
    NothingAdded(p.lost);
    NothingAdded(p.spoilt);
    NothingAdded(p.added);
  }
}
