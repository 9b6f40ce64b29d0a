/** The outbox as a value: one attempt on one item, one pass of the reaper over the directory,
    and what holds over all passes.

    A pass iterates a listing taken before the loop, so notices it enqueues wait for the next
    pass. The order of the listing plays no role; `queue` stands for the directory. */
module Outbox {
  import opened Common
  import opened Anchors

  /** `tried` and `unstored` are history variables: how often the item was really attempted, and
      how many of these attempts left its file as it was. The file itself only knows `attempt`. */
  datatype Item = Item(
    id: string,
    msgId: string,
    sender: string,
    recipient: string,
    attempt: nat,
    createdAt: real,
    nextRetry: real,
    ref: Option<string>,
    isDsn: bool,
    anchor: Option<string>,
    tried: nat,
    unstored: nat)

  /** How the outside world answers the delivery of an item. */
  datatype Answer = ResolveError | ResolveRaised | DeliveryRaised | Accepted | Refused

  /** What happens to the file of an exhausted item: moved to the dead letters; deleted, because
      it could not be moved; or neither, which raises and ends the pass. */
  datatype Burial = Moved | Deleted | Blocked

  /** What storing a retry does to the item's file, which is opened for writing in place: written;
      not opened, and so as it was; or emptied by the opening and then not written, which is
      swallowed, and after which no pass can read it. */
  datatype Rewriting = Stored | Unopened | Truncated

  /** Everything an attempt meets: whether the file parsed, the answer, the closed-thread
      registry's behaviour at each call, and how the item's own file could be changed. */
  datatype Env = Env(
    readable: bool,
    answer: Answer,
    at: real,
    ioClosed: FileIO,
    ioRecord: FileIO,
    ioSettle: FileIO,
    ioDead: FileIO,
    rewriting: Rewriting,
    removeOk: bool,                     // the file of a finished item could be removed; if not, that raises
    burial: Burial,
    notice: Option<(string, string)>)   // item id and message id of the DSN a dead letter enqueues, if any

  datatype Result = Delivered | DroppedClosed | NotDelivered | Raised

  function QueueItem(id: string, msgId: string, sender: string, recipient: string, now: real, written: real,
                     ref: Option<string>, isDsn: bool, anchor: Option<string>): Item {
    Item(id, msgId, sender, recipient, 0, now, written, ref, isDsn, anchor, 0, 0)
  }

  function SettleOn(d: Disk, c: Cache, anchor: Option<string>, promote: bool, io: FileIO): (Disk, Cache) {
    if anchor.Some? then RewriteOn(d, c, anchor.value, promote, io) else (d, c)
  }

  function AttemptOn(d: Disk, c: Cache, item: Item, env: Env): (Disk, Cache, Result) {
    var (c1, closed) := if item.ref.Some? && !item.isDsn then IsClosedOn(d, c, item.ref.value, env.ioClosed) else (c, false);
    if closed then
      var (d2, c2) := SettleOn(d, c1, item.anchor, false, env.ioSettle);
      (d2, c2, DroppedClosed)
    else if env.answer == ResolveRaised then (d, c1, Raised)
    else if env.answer == ResolveError then
      var (d2, c2) := SettleOn(d, c1, item.anchor, false, env.ioSettle);
      (d2, c2, NotDelivered)
    else
      var (d2, c2) := if item.anchor.Some? then RecordOn(d, c1, item.anchor.value, item.sender, env.at, true, env.ioRecord)
                      else (d, c1);
      var (d3, c3) := SettleOn(d2, c2, item.anchor, env.answer == Accepted, env.ioSettle);
      (d3, c3, match env.answer
               case Accepted => Delivered
               case DeliveryRaised => Raised
               case _ => NotDelivered)
  }

  function Backoff(backoff: real, attempt: nat): real
    requires attempt >= 1
  {
    backoff * (Pow2(attempt - 1) as real)
  }

  /** The result of (part of) a pass: the registry and snapshot it leaves, what became of the
      items, what it enqueued, the two counters it reports, how many attempts left their
      item's file as it was, and whether an exception ended it early. */
  datatype Pass = Pass(
    disk: Disk,
    cache: Cache,
    kept: seq<Item>,
    done: seq<Item>,
    dead: seq<Item>,
    lost: seq<Item>,     // exhausted, but deleted instead of moved to the dead letters
    spoilt: seq<Item>,   // to be retried, but in a file that no pass can read any more
    added: seq<Item>,
    retried: nat,
    delivered: nat,
    stuck: nat,
    stopped: bool)

  function Untouched(d: Disk, c: Cache, kept: seq<Item>): Pass {
    Pass(d, c, kept, [], [], [], [], [], 0, 0, 0, false)
  }

  function Join(a: Pass, b: Pass): Pass {
    Pass(b.disk, b.cache, a.kept + b.kept, a.done + b.done, a.dead + b.dead, a.lost + b.lost, a.spoilt + b.spoilt,
         a.added + b.added, a.retried + b.retried, a.delivered + b.delivered, a.stuck + b.stuck, b.stopped)
  }

  /** What the reaper works with in a pass: one clock reading, and its configuration. */
  datatype Reaper = Reaper(now: real, maxAttempts: nat, backoff: real)

  predicate Due(item: Item, env: Env, now: real) { env.readable && item.nextRetry <= now }

  function Notice(item: Item, env: Env): seq<Item> {
    if item.isDsn || env.notice.None? then []
    else
      var to' := if item.ref.Some? && item.ref.value != "" then item.recipient else item.sender;
      [QueueItem(env.notice.value.0, env.notice.value.1, item.sender, to', env.at, env.at, Some(item.msgId), true, None)]
  }

  /** An item after n attempts that left its file as it was. */
  function Unwritten(item: Item, n: nat): Item { item.(tried := item.tried + n, unstored := item.unstored + n) }

  /** One such attempt. */
  function Stuck(d: Disk, c: Cache, item: Item, stopped: bool): Pass {
    Pass(d, c, [Unwritten(item, 1)], [], [], [], [], [], 1, 0, 1, stopped)
  }

  /** What becomes of an item whose attempts are used up. Its file is moved as it is, so the
      count in it is still the one before this attempt. */
  function Bury(d: Disk, c: Cache, item: Item, env: Env): Pass {
    var tried := item.(tried := item.tried + 1);
    var (d2, c2) := SettleOn(d, c, item.anchor, false, env.ioDead);
    match env.burial
    case Moved => Pass(d2, c2, [], [], [tried], [], [], Notice(item, env), 1, 0, 0, false)
    case Deleted => Pass(d2, c2, [], [], [], [tried], [], Notice(item, env), 1, 0, 0, false)
    case Blocked => Stuck(d, c, item, true)
  }

  /** What becomes of an attempted item. */
  function Fate(d: Disk, c: Cache, item: Item, env: Env, result: Result, r: Reaper): Pass {
    var tried := item.(tried := item.tried + 1);
    var attempt := item.attempt + 1;
    match result
    case Raised => Stuck(d, c, item, true)
    case NotDelivered =>
      if attempt >= r.maxAttempts then Bury(d, c, item, env)
      else (
        match env.rewriting
        case Stored =>
          var retry := tried.(attempt := attempt, nextRetry := r.now + Backoff(r.backoff, attempt));
          Pass(d, c, [retry], [], [], [], [], [], 1, 0, 0, false)
        case Unopened => Stuck(d, c, item, false)
        case Truncated => Pass(d, c, [], [], [], [], [tried], [], 1, 0, 0, false)
      )
    case _ =>
      if env.removeOk then Pass(d, c, [], [tried], [], [], [], [], 1, 1, 0, false) else Stuck(d, c, item, true)
  }

  function PassItem(d: Disk, c: Cache, item: Item, env: Env, r: Reaper): Pass {
    if !Due(item, env, r.now) then Untouched(d, c, [item])
    else
      var (d1, c1, result) := AttemptOn(d, c, item, env);
      Fate(d1, c1, item, env, result, r)
  }

  function PassOver(d: Disk, c: Cache, items: seq<Item>, envs: seq<Env>, r: Reaper): Pass
    requires |envs| == |items|
    decreases |items|
  {
    if items == [] then Untouched(d, c, [])
    else
      var head := PassItem(d, c, items[0], envs[0], r);
      if head.stopped then head.(kept := head.kept + items[1..])
      else Join(head, PassOver(head.disk, head.cache, items[1..], envs[1..], r))
  }

  // ---------------------------------------------------------------------------------
  // Where each item ends up
  // ---------------------------------------------------------------------------------

  /** The delivery of an item is over: it was accepted, or its thread was found closed. */
  predicate Ended(d: Disk, c: Cache, item: Item, env: Env, now: real) {
    && env.readable && item.nextRetry <= now
    && (env.answer == Accepted
        || (item.ref.Some? && !item.isDsn && IsClosedOn(d, c, item.ref.value, env.ioClosed).1))
  }

  /** The delivery of an item failed, as opposed to raising: refused, or its target unresolved. */
  predicate Failed(d: Disk, c: Cache, item: Item, env: Env, now: real) {
    && env.readable && item.nextRetry <= now
    && (env.answer == Refused || env.answer == ResolveError)
    && !(item.ref.Some? && !item.isDsn && IsClosedOn(d, c, item.ref.value, env.ioClosed).1)
  }

  /** The delay after a stored attempt, of which there were n before. */
  lemma NextDelayIs(backoff: real, n: nat)
    ensures Backoff(backoff, n + 1) == backoff * (Pow2(n) as real)
  {
  }

  /** The item with one more attempt on record, and the delay of its count. */
  predicate NextAttempt(item: Item, retry: Item, r: Reaper) {
    && retry == item.(tried := item.tried + 1, attempt := item.attempt + 1, nextRetry := retry.nextRetry)
    && retry.nextRetry == r.now + r.backoff * (Pow2(item.attempt) as real)
  }

  /** Where one item of a pass ends up, from the answer it met, the reading of its thread, the count
      in its file and what could be done to the file. It is done, and counted as delivered, if and
      only if it ended and its file was removed; dead, lost or spoilt if and only if it failed, for
      the last time or not, and its file was moved, deleted or emptied. */
  lemma ItemEndsUp(d: Disk, c: Cache, item: Item, env: Env, r: Reaper)
    ensures var p := PassItem(d, c, item, env, r);
            var ended, failed := Ended(d, c, item, env, r.now), Failed(d, c, item, env, r.now);
            var due := env.readable && item.nextRetry <= r.now;
            var last := item.attempt + 1 >= r.maxAttempts;
            var tried := [item.(tried := item.tried + 1)];
            && p.done == (if ended && env.removeOk then tried else [])
            && p.dead == (if failed && last && env.burial == Moved then tried else [])
            && p.lost == (if failed && last && env.burial == Deleted then tried else [])
            && p.spoilt == (if failed && !last && env.rewriting == Truncated then tried else [])
            && p.delivered == |p.done| && p.retried == (if due then 1 else 0)
            && (p.stopped <==> due && if ended then !env.removeOk else if failed then last && env.burial == Blocked else true)
  {
    var (d1, c1, result) := AttemptOn(d, c, item, env);
    AttemptResult(d, c, item, env);
  }

  lemma FateStays(d: Disk, c: Cache, item: Item, env: Env, result: Result, r: Reaper)
    ensures var p := Fate(d, c, item, env, result, r);
            && |p.kept| == (if p.done == p.dead == p.lost == p.spoilt == [] then 1 else 0)
            && (p.kept != [] ==>
                  if result == NotDelivered && item.attempt + 1 < r.maxAttempts && env.rewriting == Stored
                  then NextAttempt(item, p.kept[0], r)
                  else p.kept[0] == item.(tried := item.tried + 1, unstored := item.unstored + 1))
  {
    NextDelayIs(r.backoff, item.attempt);
  }

  /** And otherwise it is still queued: as it was if it was not due, with its next delay if a failure
      was not the last and the retry was stored, else in a file that does not know of the attempt. */
  lemma ItemStays(d: Disk, c: Cache, item: Item, env: Env, r: Reaper)
    ensures var p := PassItem(d, c, item, env, r);
            var due := env.readable && item.nextRetry <= r.now;
            var failed := Failed(d, c, item, env, r.now);
            && |p.kept| == (if p.done == p.dead == p.lost == p.spoilt == [] then 1 else 0)
            && (p.kept != [] ==>
                  if !due then p.kept[0] == item
                  else if failed && item.attempt + 1 < r.maxAttempts && env.rewriting == Stored
                  then NextAttempt(item, p.kept[0], r)
                  else p.kept[0] == item.(tried := item.tried + 1, unstored := item.unstored + 1))
  {
    var (d1, c1, result) := AttemptOn(d, c, item, env);
    AttemptResult(d, c, item, env);
    FateStays(d1, c1, item, env, result, r);
  }

  /** Who is told. One notice is enqueued for an exhausted item, and for no other: unless the item is
      a notice itself, if the notice could not be delivered. It answers the item's message, and goes
      to the other side of its thread or else to the sender. */
  lemma OneNoticePerExhausted(d: Disk, c: Cache, item: Item, env: Env, r: Reaper)
    ensures var p := PassItem(d, c, item, env, r);
            && |p.added| == (if Failed(d, c, item, env, r.now) && item.attempt + 1 >= r.maxAttempts && env.burial != Blocked
                                && !item.isDsn && env.notice.Some? then 1 else 0)
            && (p.added != [] ==>
                  var n := p.added[0];
                  && n.isDsn && n.attempt == 0 && n.sender == item.sender && n.ref == Some(item.msgId)
                  && n.recipient == if item.ref.Some? && item.ref.value != "" then item.recipient else item.sender)
  {
    var (d1, c1, result) := AttemptOn(d, c, item, env);
    AttemptResult(d, c, item, env);
  }

  /** The item leaves the queue: `dead`, after a last attempt that failed, with its file moved; or done,
      its delivery over, with its file removed. */
  predicate Leaves(d: Disk, c: Cache, item: Item, env: Env, r: Reaper, dead: bool) {
    if dead then Failed(d, c, item, env, r.now) && item.attempt + 1 >= r.maxAttempts && env.burial == Moved
    else Ended(d, c, item, env, r.now) && env.removeOk
  }

  /** The items of a listing that do, up to the one that ends the pass, picked out by what each of
      them met in the registry that the ones before it left. */
  function Leavers(d: Disk, c: Cache, items: seq<Item>, envs: seq<Env>, r: Reaper, dead: bool): seq<Item>
    requires |envs| == |items|
    decreases |items|
  {
    if items == [] then []
    else
      var head := PassItem(d, c, items[0], envs[0], r);
      (if Leaves(d, c, items[0], envs[0], r, dead) then [items[0].(tried := items[0].tried + 1)] else [])
      + if head.stopped then [] else Leavers(head.disk, head.cache, items[1..], envs[1..], r, dead)
  }

  function Left(p: Pass, dead: bool): seq<Item> { if dead then p.dead else p.done }

  lemma ItemLeaves(d: Disk, c: Cache, item: Item, env: Env, r: Reaper, dead: bool)
    ensures var p := PassItem(d, c, item, env, r);
            Left(p, dead) == if Leaves(d, c, item, env, r, dead) then [item.(tried := item.tried + 1)] else []
  {
    ItemEndsUp(d, c, item, env, r);
  }

  /** A pass over a listing, from its first item and the pass over the others. */
  lemma PassFromHead(d: Disk, c: Cache, items: seq<Item>, envs: seq<Env>, r: Reaper, dead: bool, head: Pass, tail: seq<Item>)
    requires |envs| == |items| && items != [] && head == PassItem(d, c, items[0], envs[0], r)
    requires tail == if head.stopped then [] else Left(PassOver(head.disk, head.cache, items[1..], envs[1..], r), dead)
    ensures Left(PassOver(d, c, items, envs, r), dead) == Left(head, dead) + tail
  {
  }

  lemma LeaversFromHead(d: Disk, c: Cache, items: seq<Item>, envs: seq<Env>, r: Reaper, dead: bool, head: Pass, tail: seq<Item>)
    requires |envs| == |items| && items != [] && head == PassItem(d, c, items[0], envs[0], r)
    requires tail == if head.stopped then [] else Leavers(head.disk, head.cache, items[1..], envs[1..], r, dead)
    ensures Leavers(d, c, items, envs, r, dead) == Left(head, dead) + tail
  {
    ItemLeaves(d, c, items[0], envs[0], r, dead);
  }

  /** Over a whole pass: which items it is done with, and which it dead-letters, exactly. */
  lemma {:induction false} PassSorts(d: Disk, c: Cache, items: seq<Item>, envs: seq<Env>, r: Reaper, dead: bool)
    requires |envs| == |items|
    ensures Left(PassOver(d, c, items, envs, r), dead) == Leavers(d, c, items, envs, r, dead)
    decreases |items|
  {
    if items != [] {
      var head := PassItem(d, c, items[0], envs[0], r);
      var tail := if head.stopped then [] else Leavers(head.disk, head.cache, items[1..], envs[1..], r, dead);
      if !head.stopped {
        PassSorts(head.disk, head.cache, items[1..], envs[1..], r, dead);
      }
      PassFromHead(d, c, items, envs, r, dead, head, tail);
      LeaversFromHead(d, c, items, envs, r, dead, head, tail);
    }
  }

  // ---------------------------------------------------------------------------------
  // Measures of a list of items
  // ---------------------------------------------------------------------------------

  /** What an item is, apart from its retry bookkeeping. */
  function Core(item: Item): Item { item.(attempt := 0, nextRetry := 0.0, tried := 0, unstored := 0) }

  /** How often an item occurs; how much work is left in the items; how many attempts on them
      could not be stored. */
  datatype Measure = CountOf(core: Item) | WeightFor(maxAttempts: nat) | Unstored

  function Weight(item: Item, maxAttempts: nat): nat {
    (if item.isDsn then 0 else maxAttempts + 1)
    + (if item.attempt < maxAttempts then maxAttempts - item.attempt else 0)
  }

  function Measured(item: Item, m: Measure): nat {
    match m
    case CountOf(core) => if Core(item) == core then 1 else 0
    case WeightFor(maxAttempts) => Weight(item, maxAttempts)
    case Unstored => item.unstored
  }

  function Sum(s: seq<Item>, m: Measure): nat {
    if s == [] then 0 else Measured(s[0], m) + Sum(s[1..], m)
  }

  lemma {:induction false} SumConcat(a: seq<Item>, b: seq<Item>, m: Measure)
    ensures Sum(a + b, m) == Sum(a, m) + Sum(b, m)
  {
    if a == [] {
      assert a + b == b;
    } else {
      SumConcat(a[1..], b, m);
      HeadOfConcat(a, b);
    }
  }

  lemma SumOfOne(item: Item, m: Measure)
    ensures Sum([item], m) == Measured(item, m)
  {
    assert [item][1..] == [];
  }

  /** Over everything that the items of a pass have become. */
  function SumAfter(p: Pass, m: Measure): nat {
    Sum(p.kept, m) + Sum(p.done, m) + Sum(p.dead, m) + Sum(p.lost, m) + Sum(p.spoilt, m)
  }

  lemma SumOfJoin(a: Pass, b: Pass, m: Measure)
    ensures SumAfter(Join(a, b), m) == SumAfter(a, m) + SumAfter(b, m)
  {
    SumConcat(a.kept, b.kept, m);
    SumConcat(a.done, b.done, m);
    SumConcat(a.dead, b.dead, m);
    SumConcat(a.lost, b.lost, m);
    SumConcat(a.spoilt, b.spoilt, m);
  }

  lemma SumOfStopped(head: Pass, rest: seq<Item>, m: Measure)
    ensures SumAfter(head.(kept := head.kept + rest), m) == SumAfter(head, m) + Sum(rest, m)
  {
    SumConcat(head.kept, rest, m);
  }

  lemma WithoutOne(b: seq<Item>, i: nat)
    requires i < |b|
    ensures multiset(b) == multiset{b[i]} + multiset(b[..i] + b[i + 1..])
  {
    var front, back := b[..i], b[i + 1..];
    assert b == front + ([b[i]] + back);
  }

  lemma Cancel<T>(x: T, a: multiset<T>, b: multiset<T>)
    requires multiset{x} + a == multiset{x} + b
    ensures a == b
  {
    assert a == (multiset{x} + a) - multiset{x};
    assert b == (multiset{x} + b) - multiset{x};
  }

  lemma SameWithoutOne(a: seq<Item>, b: seq<Item>, i: nat)
    requires multiset(a) == multiset(b) && a != [] && i < |b| && b[i] == a[0]
    ensures multiset(a[1..]) == multiset(b[..i] + b[i + 1..])
  {
    WithoutOne(a, 0);
    WithoutOne(b, i);
    assert a[..0] + a[1..] == a[1..];
    Cancel(a[0], multiset(a[1..]), multiset(b[..i] + b[i + 1..]));
  }

  lemma SumWithoutOne(b: seq<Item>, i: nat, m: Measure)
    requires i < |b|
    ensures Sum(b, m) == Measured(b[i], m) + Sum(b[..i] + b[i + 1..], m)
  {
    assert b == b[..i] + b[i..];
    SumConcat(b[..i], b[i..], m);
    SumConcat(b[..i], b[i + 1..], m);
    assert b[i..][1..] == b[i + 1..];
  }

  /** No measure depends on the order of the listing. */
  lemma {:induction false} SumOfPermutation(a: seq<Item>, b: seq<Item>, m: Measure)
    requires multiset(a) == multiset(b)
    ensures Sum(a, m) == Sum(b, m)
  {
    if a == [] {
      assert |b| == |multiset(b)| == |multiset(a)| == 0;
    } else {
      assert a[0] in multiset(b);
      var i :| 0 <= i < |b| && b[i] == a[0];
      SameWithoutOne(a, b, i);
      SumWithoutOne(b, i, m);
      SumOfPermutation(a[1..], b[..i] + b[i + 1..], m);
    }
  }

  // ---------------------------------------------------------------------------------
  // Conservation
  // ---------------------------------------------------------------------------------

  /** Everything that the items of a pass have become. */
  function All(p: Pass): seq<Item> { p.kept + p.done + p.dead + p.lost + p.spoilt }

  lemma SumOfAll(p: Pass, m: Measure)
    ensures SumAfter(p, m) == Sum(All(p), m)
  {
    SumConcat(p.kept, p.done, m);
    SumConcat(p.kept + p.done, p.dead, m);
    SumConcat(p.kept + p.done + p.dead, p.lost, m);
    SumConcat(p.kept + p.done + p.dead + p.lost, p.spoilt, m);
  }

  /** An item of a pass becomes one item, the same but for its bookkeeping. */
  predicate BecomesOne(item: Item, p: Pass) {
    && |All(p)| == 1 && Core(All(p)[0]) == Core(item)
    && All(p)[0].unstored == item.unstored + p.stuck
    && p.delivered == |p.done|
    && |p.added| <= |p.dead| + |p.lost|
    && (p.stopped ==> p.done == p.dead == p.lost == p.spoilt == p.added == [])
  }

  lemma PassItemIsOne(d: Disk, c: Cache, item: Item, env: Env, r: Reaper)
    ensures BecomesOne(item, PassItem(d, c, item, env, r))
  {
    var (d1, c1, result) := AttemptOn(d, c, item, env);
    FateIsOne(d1, c1, item, env, result, r);
  }

  lemma FateIsOne(d: Disk, c: Cache, item: Item, env: Env, result: Result, r: Reaper)
    ensures BecomesOne(item, Fate(d, c, item, env, result, r))
  {
    var p := Fate(d, c, item, env, result, r);
    if result == NotDelivered && item.attempt + 1 >= r.maxAttempts {
      BuryIsOne(d, c, item, env);
    } else if p.stuck == 1 {
      StuckIsOne(d, c, item, p.stopped);
    } else {
      OneOf(item, p, if p.kept != [] then p.kept[0] else item.(tried := item.tried + 1));
    }
  }

  lemma BuryIsOne(d: Disk, c: Cache, item: Item, env: Env)
    ensures BecomesOne(item, Bury(d, c, item, env))
  {
    var p := Bury(d, c, item, env);
    if env.burial == Blocked {
      StuckIsOne(d, c, item, true);
    } else {
      OneOf(item, p, item.(tried := item.tried + 1));
    }
  }

  lemma StuckIsOne(d: Disk, c: Cache, item: Item, stopped: bool)
    ensures BecomesOne(item, Stuck(d, c, item, stopped))
  {
    assert All(Stuck(d, c, item, stopped)) == [Unwritten(item, 1)];
  }

  lemma OneOf(item: Item, p: Pass, x: Item)
    requires All(p) == [x] && Core(x) == Core(item) && x.unstored == item.unstored
    requires p.stuck == 0 && !p.stopped && p.delivered == |p.done| && |p.added| <= |p.dead| + |p.lost|
    ensures BecomesOne(item, p)
  {
  }

  lemma PassItemConserves(d: Disk, c: Cache, item: Item, env: Env, r: Reaper, core: Item)
    ensures SumAfter(PassItem(d, c, item, env, r), CountOf(core)) == Measured(item, CountOf(core))
    ensures BecomesOne(item, PassItem(d, c, item, env, r))
  {
    var p := PassItem(d, c, item, env, r);
    PassItemIsOne(d, c, item, env, r);
    SumOfAll(p, CountOf(core));
    SumOfOne(All(p)[0], CountOf(core));
    assert All(p) == [All(p)[0]];
  }

  /** Every item listed is afterwards still queued, delivered-or-dropped, dead, lost or spoilt, once
      each; and a pass enqueues at most one notice per exhausted item. */
  lemma {:induction false} PassConserves(d: Disk, c: Cache, items: seq<Item>, envs: seq<Env>, r: Reaper, core: Item)
    requires |envs| == |items|
    ensures var p := PassOver(d, c, items, envs, r);
            && Sum(items, CountOf(core)) == SumAfter(p, CountOf(core))
            && p.delivered == |p.done|
            && |p.added| <= |p.dead| + |p.lost|
    decreases |items|
  {
    if items != [] {
      var head := PassItem(d, c, items[0], envs[0], r);
      var rest := items[1..];
      PassItemConserves(d, c, items[0], envs[0], r, core);
      if head.stopped {
        SumOfStopped(head, rest, CountOf(core));
      } else {
        PassConserves(head.disk, head.cache, rest, envs[1..], r, core);
        SumOfJoin(head, PassOver(head.disk, head.cache, rest, envs[1..], r), CountOf(core));
      }
    }
  }

  /** This attempt is the item's last and fails. */
  predicate Exhausts(d: Disk, c: Cache, item: Item, env: Env, r: Reaper) {
    Due(item, env, r.now) && AttemptOn(d, c, item, env).2 == NotDelivered && item.attempt + 1 >= r.maxAttempts
  }

  /** This attempt fails and leaves others. */
  predicate Retries(d: Disk, c: Cache, item: Item, env: Env, r: Reaper) {
    Due(item, env, r.now) && AttemptOn(d, c, item, env).2 == NotDelivered && item.attempt + 1 < r.maxAttempts
  }

  /** No exhausted item of the pass is deleted for want of a move, and no retry empties its file. */
  predicate EveryFileSurvives(d: Disk, c: Cache, items: seq<Item>, envs: seq<Env>, r: Reaper)
    requires |envs| == |items|
    decreases |items|
  {
    items == []
    || (var head := PassItem(d, c, items[0], envs[0], r);
        && (Exhausts(d, c, items[0], envs[0], r) ==> envs[0].burial != Deleted)
        && (Retries(d, c, items[0], envs[0], r) ==> envs[0].rewriting != Truncated)
        && (!head.stopped ==> EveryFileSurvives(head.disk, head.cache, items[1..], envs[1..], r)))
  }

  lemma ItemLostExactly(d: Disk, c: Cache, item: Item, env: Env, r: Reaper)
    ensures var p := PassItem(d, c, item, env, r);
            p.lost == p.spoilt == [] <==>
            (Exhausts(d, c, item, env, r) ==> env.burial != Deleted) && (Retries(d, c, item, env, r) ==> env.rewriting != Truncated)
  {
  }

  /** An item can be lost in exactly two ways: its last attempt failed, its file could not be moved
      to the dead letters, and it was deleted instead; or an earlier attempt failed, and storing
      the retry emptied its file. */
  lemma {:induction false} LostExactly(d: Disk, c: Cache, items: seq<Item>, envs: seq<Env>, r: Reaper)
    requires |envs| == |items|
    ensures var p := PassOver(d, c, items, envs, r);
            p.lost == p.spoilt == [] <==> EveryFileSurvives(d, c, items, envs, r)
    decreases |items|
  {
    if items != [] {
      var head := PassItem(d, c, items[0], envs[0], r);
      ItemLostExactly(d, c, items[0], envs[0], r);
      if !head.stopped {
        LostExactly(head.disk, head.cache, items[1..], envs[1..], r);
      }
    }
  }

  // ---------------------------------------------------------------------------------
  // Draining
  // ---------------------------------------------------------------------------------

  ghost predicate BelowMax(s: seq<Item>, maxAttempts: nat) {
    forall x | x in s :: x.attempt < maxAttempts
  }

  lemma FateDrains(d: Disk, c: Cache, item: Item, env: Env, result: Result, r: Reaper)
    requires item.attempt < r.maxAttempts
    ensures var p, m := Fate(d, c, item, env, result, r), WeightFor(r.maxAttempts);
            && BelowMax(p.kept, r.maxAttempts) && BelowMax(p.added, r.maxAttempts)
            && Sum(p.kept, m) + Sum(p.added, m) + p.retried <= Measured(item, m) + p.stuck
  {
    var p := Fate(d, c, item, env, result, r);
    if result == NotDelivered && item.attempt + 1 >= r.maxAttempts {
      BuryDrains(d, c, item, env, r.maxAttempts);
    } else if p.kept != [] {
      SumOfOne(p.kept[0], WeightFor(r.maxAttempts));
    }
  }

  lemma BuryDrains(d: Disk, c: Cache, item: Item, env: Env, maxAttempts: nat)
    requires item.attempt + 1 == maxAttempts
    ensures var p, m := Bury(d, c, item, env), WeightFor(maxAttempts);
            && BelowMax(p.kept, maxAttempts) && BelowMax(p.added, maxAttempts)
            && Sum(p.kept, m) + Sum(p.added, m) + p.retried <= Measured(item, m) + p.stuck
  {
    SumOfOne(Unwritten(item, 1), WeightFor(maxAttempts));
    if Notice(item, env) != [] {
      SumOfOne(Notice(item, env)[0], WeightFor(maxAttempts));
    }
  }

  lemma PassItemDrains(d: Disk, c: Cache, item: Item, env: Env, r: Reaper)
    requires item.attempt < r.maxAttempts
    ensures var p, m := PassItem(d, c, item, env, r), WeightFor(r.maxAttempts);
            && BelowMax(p.kept, r.maxAttempts) && BelowMax(p.added, r.maxAttempts)
            && Sum(p.kept, m) + Sum(p.added, m) + p.retried <= Measured(item, m) + p.stuck
  {
    SumOfOne(item, WeightFor(r.maxAttempts));
    var (d1, c1, result) := AttemptOn(d, c, item, env);
    FateDrains(d1, c1, item, env, result, r);
  }

  /** Every attempt whose outcome reaches the disk lowers the total weight by one or more,
      even counting the notice that an exhausted item enqueues. */
  lemma {:induction false} PassDrains(d: Disk, c: Cache, items: seq<Item>, envs: seq<Env>, r: Reaper)
    requires |envs| == |items| && BelowMax(items, r.maxAttempts)
    ensures var p, m := PassOver(d, c, items, envs, r), WeightFor(r.maxAttempts);
            && BelowMax(p.kept, r.maxAttempts) && BelowMax(p.added, r.maxAttempts)
            && Sum(p.kept, m) + Sum(p.added, m) + p.retried <= Sum(items, m) + p.stuck
    decreases |items|
  {
    if items != [] {
      var m := WeightFor(r.maxAttempts);
      var head := PassItem(d, c, items[0], envs[0], r);
      PassItemDrains(d, c, items[0], envs[0], r);
      if head.stopped {
        SumConcat(head.kept, items[1..], m);
      } else {
        PassDrains(head.disk, head.cache, items[1..], envs[1..], r);
        var tail := PassOver(head.disk, head.cache, items[1..], envs[1..], r);
        SumConcat(head.kept, tail.kept, m);
        SumConcat(head.added, tail.added, m);
      }
    }
  }

  /** And passes do not idle while something is due: the first due item is attempted. */
  lemma {:induction false} DueMeansAttempt(d: Disk, c: Cache, items: seq<Item>, envs: seq<Env>, r: Reaper)
    requires |envs| == |items|
    requires exists i :: 0 <= i < |items| && Due(items[i], envs[i], r.now)
    ensures PassOver(d, c, items, envs, r).retried >= 1
    decreases |items|
  {
    var head := PassItem(d, c, items[0], envs[0], r);
    if Due(items[0], envs[0], r.now) {
      DueIsTried(d, c, items[0], envs[0], r);
    } else {
      var i :| 0 <= i < |items| && Due(items[i], envs[i], r.now);
      assert Due(items[1..][i - 1], envs[1..][i - 1], r.now);
      DueMeansAttempt(d, c, items[1..], envs[1..], r);
    }
  }

  lemma DueIsTried(d: Disk, c: Cache, item: Item, env: Env, r: Reaper)
    requires Due(item, env, r.now)
    ensures PassItem(d, c, item, env, r).retried == 1
  {
    var (d1, c1, result) := AttemptOn(d, c, item, env);
    FateIsTried(d1, c1, item, env, result, r);
  }

  lemma FateIsTried(d: Disk, c: Cache, item: Item, env: Env, result: Result, r: Reaper)
    ensures Fate(d, c, item, env, result, r).retried == 1
  {
  }

  // ---------------------------------------------------------------------------------
  // The backoff schedule
  // ---------------------------------------------------------------------------------

  /** The sum of the first n delays, backoff * (1 + 2 + 4 + ...). */
  function Delays(backoff: real, n: nat): real {
    if n == 0 then 0.0 else Delays(backoff, n - 1) + Backoff(backoff, n)
  }

  lemma {:induction false} DelaysAreGeometric(backoff: real, n: nat)
    ensures Delays(backoff, n) == backoff * ((Pow2(n) - 1) as real)
  {
    if n > 0 {
      DelaysAreGeometric(backoff, n - 1);
      NextDelay(backoff, Pow2(n - 1));
    }
  }

  lemma NextDelay(backoff: real, q: nat)
    ensures backoff * ((q - 1) as real) + backoff * (q as real) == backoff * ((2 * q - 1) as real)
  {
    var x, y := (q - 1) as real, q as real;
    Distribute(backoff, x, y, (2 * q - 1) as real);
  }

  lemma Distribute(a: real, x: real, y: real, z: real)
    requires z == x + y
    ensures a * x + a * y == a * z
  {
  }

  /** A stored item is not due before its creation plus the delays of its attempts so far. */
  predicate OnSchedule(item: Item, backoff: real) {
    item.nextRetry >= item.createdAt + Delays(backoff, item.attempt)
  }

  ghost predicate AllOnSchedule(s: seq<Item>, r: Reaper) {
    forall x | x in s :: OnSchedule(x, r.backoff) && x.attempt < r.maxAttempts
  }

  /** n delays have passed: backoff * (2^n - 1). */
  predicate WaitedOut(now: real, createdAt: real, backoff: real, n: nat) {
    now >= createdAt + backoff * ((Pow2(n) - 1) as real)
  }

  lemma InFull(now: real, createdAt: real, backoff: real, n: nat)
    requires now >= createdAt + Delays(backoff, n)
    ensures WaitedOut(now, createdAt, backoff, n)
  {
    DelaysAreGeometric(backoff, n);
  }

  /** Every exhausted item has waited out all its delays. */
  ghost predicate AllWaited(s: seq<Item>, r: Reaper) {
    forall x | x in s :: r.maxAttempts >= 1 && WaitedOut(r.now, x.createdAt, r.backoff, r.maxAttempts - 1)
  }

  lemma PassItemKeepsSchedule(d: Disk, c: Cache, item: Item, env: Env, r: Reaper)
    requires OnSchedule(item, r.backoff) && item.attempt < r.maxAttempts
    ensures var p := PassItem(d, c, item, env, r);
            AllOnSchedule(p.kept, r) && AllOnSchedule(p.added, r) && AllWaited(p.dead, r) && AllWaited(p.lost, r)
  {
    var (d1, c1, result) := AttemptOn(d, c, item, env);
    if Due(item, env, r.now) {
      FateKeepsSchedule(d1, c1, item, env, result, r);
    }
  }

  lemma FateKeepsSchedule(d: Disk, c: Cache, item: Item, env: Env, result: Result, r: Reaper)
    requires OnSchedule(item, r.backoff) && item.attempt < r.maxAttempts && item.nextRetry <= r.now
    ensures var p := Fate(d, c, item, env, result, r);
            AllOnSchedule(p.kept, r) && AllOnSchedule(p.added, r) && AllWaited(p.dead, r) && AllWaited(p.lost, r)
  {
    assert Delays(r.backoff, item.attempt + 1) == Delays(r.backoff, item.attempt) + Backoff(r.backoff, item.attempt + 1);
    if result == NotDelivered && item.attempt + 1 >= r.maxAttempts {
      BuryKeepsSchedule(d, c, item, env, r);
    }
  }

  lemma BuryKeepsSchedule(d: Disk, c: Cache, item: Item, env: Env, r: Reaper)
    requires OnSchedule(item, r.backoff) && item.attempt + 1 == r.maxAttempts && item.nextRetry <= r.now
    ensures var p := Bury(d, c, item, env);
            AllOnSchedule(p.kept, r) && AllOnSchedule(p.added, r) && AllWaited(p.dead, r) && AllWaited(p.lost, r)
  {
    InFull(r.now, item.createdAt, r.backoff, item.attempt);
    assert Delays(r.backoff, 0) == 0.0;
  }

  lemma {:induction false} PassKeepsSchedule(d: Disk, c: Cache, items: seq<Item>, envs: seq<Env>, r: Reaper)
    requires |envs| == |items| && AllOnSchedule(items, r)
    ensures var p := PassOver(d, c, items, envs, r);
            AllOnSchedule(p.kept, r) && AllOnSchedule(p.added, r) && AllWaited(p.dead, r) && AllWaited(p.lost, r)
    decreases |items|
  {
    if items != [] {
      var head := PassItem(d, c, items[0], envs[0], r);
      PassItemKeepsSchedule(d, c, items[0], envs[0], r);
      if !head.stopped {
        PassKeepsSchedule(head.disk, head.cache, items[1..], envs[1..], r);
      }
    }
  }

  // ---------------------------------------------------------------------------------
  // True counts
  // ---------------------------------------------------------------------------------

  /** The stored count falls short of the true one by the attempts that were not stored. */
  ghost predicate Counted(s: seq<Item>, maxAttempts: nat) {
    forall x | x in s :: x.tried == x.attempt + x.unstored && x.attempt < maxAttempts
  }

  /** The same once an item is finished; its last attempt is not in its file. */
  ghost predicate Finished(s: seq<Item>, maxAttempts: nat) {
    forall x | x in s :: x.tried == x.attempt + 1 + x.unstored && x.attempt < maxAttempts
  }

  /** An exhausted item was attempted `maxAttempts` times and once more for every attempt that
      could not be stored. */
  ghost predicate Exhausted(s: seq<Item>, maxAttempts: nat) {
    forall x | x in s :: x.tried == maxAttempts + x.unstored
  }

  ghost predicate TrueCounts(p: Pass, maxAttempts: nat) {
    && Counted(p.kept, maxAttempts) && Counted(p.added, maxAttempts) && Finished(p.done, maxAttempts)
    && Exhausted(p.dead, maxAttempts) && Exhausted(p.lost, maxAttempts) && Finished(p.spoilt, maxAttempts)
    && Sum(p.added, Unstored) == 0
  }

  lemma PassItemCounts(d: Disk, c: Cache, item: Item, env: Env, r: Reaper)
    requires item.tried == item.attempt + item.unstored && item.attempt < r.maxAttempts
    ensures var p := PassItem(d, c, item, env, r);
            TrueCounts(p, r.maxAttempts) && SumAfter(p, Unstored) == item.unstored + p.stuck
  {
    var p := PassItem(d, c, item, env, r);
    PassItemIsOne(d, c, item, env, r);
    SumOfAll(p, Unstored);
    SumOfOne(All(p)[0], Unstored);
    assert All(p) == [All(p)[0]];
    PassItemTries(d, c, item, env, r);
  }

  lemma PassItemTries(d: Disk, c: Cache, item: Item, env: Env, r: Reaper)
    requires item.tried == item.attempt + item.unstored && item.attempt < r.maxAttempts
    ensures TrueCounts(PassItem(d, c, item, env, r), r.maxAttempts)
  {
    var (d1, c1, result) := AttemptOn(d, c, item, env);
    FateTries(d1, c1, item, env, result, r);
  }

  lemma FateTries(d: Disk, c: Cache, item: Item, env: Env, result: Result, r: Reaper)
    requires item.tried == item.attempt + item.unstored && item.attempt < r.maxAttempts
    ensures TrueCounts(Fate(d, c, item, env, result, r), r.maxAttempts)
  {
    var p := Fate(d, c, item, env, result, r);
    if result == NotDelivered && item.attempt + 1 >= r.maxAttempts {
      BuryTries(d, c, item, env, r.maxAttempts);
    } else if p.stuck == 1 {
      StuckTries(d, c, item, p.stopped, r.maxAttempts);
    }
  }

  lemma StuckTries(d: Disk, c: Cache, item: Item, stopped: bool, maxAttempts: nat)
    requires item.tried == item.attempt + item.unstored && item.attempt < maxAttempts
    ensures TrueCounts(Stuck(d, c, item, stopped), maxAttempts)
  {
  }

  lemma BuryTries(d: Disk, c: Cache, item: Item, env: Env, maxAttempts: nat)
    requires item.tried == item.attempt + item.unstored && item.attempt + 1 == maxAttempts
    ensures TrueCounts(Bury(d, c, item, env), maxAttempts)
  {
    NoticeIsNew(item, env);
    StuckTries(d, c, item, true, maxAttempts);
  }

  lemma NoticeIsNew(item: Item, env: Env)
    ensures Sum(Notice(item, env), Unstored) == 0
    ensures forall x | x in Notice(item, env) :: x.tried == x.attempt == x.unstored == 0
  {
    if Notice(item, env) != [] {
      SumOfOne(Notice(item, env)[0], Unstored);
    }
  }

  /** Whatever fails in a pass: the unstored attempts on its items grow by the number of attempts
      that left their file as it was, and every item's true count is its stored one plus them. */
  lemma {:induction false} PassCountsTrue(d: Disk, c: Cache, items: seq<Item>, envs: seq<Env>, r: Reaper)
    requires |envs| == |items| && Counted(items, r.maxAttempts)
    ensures var p := PassOver(d, c, items, envs, r);
            TrueCounts(p, r.maxAttempts) && SumAfter(p, Unstored) == Sum(items, Unstored) + p.stuck
    decreases |items|
  {
    if items != [] {
      var head := PassItem(d, c, items[0], envs[0], r);
      PassItemCounts(d, c, items[0], envs[0], r);
      if head.stopped {
        SumOfStopped(head, items[1..], Unstored);
      } else {
        PassCountsTrue(head.disk, head.cache, items[1..], envs[1..], r);
        var tail := PassOver(head.disk, head.cache, items[1..], envs[1..], r);
        SumOfJoin(head, tail, Unstored);
        SumConcat(head.added, tail.added, Unstored);
      }
    }
  }

  /** A world in which nothing raises and every retry can be stored. */
  predicate CleanEnv(env: Env) {
    !env.answer.ResolveRaised? && !env.answer.DeliveryRaised? && env.rewriting.Stored? && env.removeOk && !env.burial.Blocked?
  }

  ghost predicate Clean(envs: seq<Env>) { forall env | env in envs :: CleanEnv(env) }

  lemma {:induction false} CleanStoresAll(d: Disk, c: Cache, items: seq<Item>, envs: seq<Env>, r: Reaper)
    requires |envs| == |items| && Clean(envs)
    ensures var p := PassOver(d, c, items, envs, r); p.stuck == 0 && !p.stopped && p.spoilt == []
    decreases |items|
  {
    if items != [] {
      assert envs[0] in envs && forall env | env in envs[1..] :: env in envs;
      var head := PassItem(d, c, items[0], envs[0], r);
      CleanStoresAll(head.disk, head.cache, items[1..], envs[1..], r);
    }
  }

  // ---------------------------------------------------------------------------------
  // Many passes
  // ---------------------------------------------------------------------------------

  /** One pass of some reaper: its clock, the order in which it lists the directory, what it
      meets, and the closed-thread registry it finds. */
  datatype Round = Round(now: real, listing: seq<Item>, envs: seq<Env>, disk: Disk, cache: Cache)

  /** The configuration shared by all passes. */
  datatype Policy = Policy(maxAttempts: nat, backoff: real)

  function ReaperOf(round: Round, policy: Policy): Reaper { Reaper(round.now, policy.maxAttempts, policy.backoff) }

  function RoundPass(round: Round, policy: Policy): Pass
    requires |round.envs| == |round.listing|
  {
    PassOver(round.disk, round.cache, round.listing, round.envs, ReaperOf(round, policy))
  }

  /** Passes run one after the other, with no new sends between them. */
  ghost predicate Follows(queue: seq<Item>, rounds: seq<Round>, policy: Policy)
    decreases rounds
  {
    if rounds == [] then true
    else
      && multiset(rounds[0].listing) == multiset(queue)
      && |rounds[0].envs| == |rounds[0].listing|
      && var p := RoundPass(rounds[0], policy);
         Follows(p.kept + p.added, rounds[1..], policy)
  }

  /** What all the passes together did. */
  datatype Tally = Tally(
    queue: seq<Item>, done: seq<Item>, dead: seq<Item>, lost: seq<Item>, spoilt: seq<Item>, added: seq<Item>,
    attempts: nat, stuck: nat)

  ghost function TallyOf(queue: seq<Item>, rounds: seq<Round>, policy: Policy): Tally
    requires Follows(queue, rounds, policy)
    decreases rounds
  {
    if rounds == [] then Tally(queue, [], [], [], [], [], 0, 0)
    else
      var p := RoundPass(rounds[0], policy);
      var t := TallyOf(p.kept + p.added, rounds[1..], policy);
      Tally(t.queue, p.done + t.done, p.dead + t.dead, p.lost + t.lost, p.spoilt + t.spoilt, p.added + t.added,
            p.retried + t.attempts, p.stuck + t.stuck)
  }

  function SumOfTally(t: Tally, m: Measure): nat {
    Sum(t.queue, m) + Sum(t.done, m) + Sum(t.dead, m) + Sum(t.lost, m) + Sum(t.spoilt, m)
  }

  lemma SumOfMore(p: Pass, t: Tally, m: Measure)
    ensures Sum(p.done + t.done, m) == Sum(p.done, m) + Sum(t.done, m)
    ensures Sum(p.dead + t.dead, m) == Sum(p.dead, m) + Sum(t.dead, m)
    ensures Sum(p.lost + t.lost, m) == Sum(p.lost, m) + Sum(t.lost, m)
    ensures Sum(p.spoilt + t.spoilt, m) == Sum(p.spoilt, m) + Sum(t.spoilt, m)
    ensures Sum(p.added + t.added, m) == Sum(p.added, m) + Sum(t.added, m)
    ensures Sum(p.kept + p.added, m) == Sum(p.kept, m) + Sum(p.added, m)
  {
    SumConcat(p.done, t.done, m);
    SumConcat(p.dead, t.dead, m);
    SumConcat(p.lost, t.lost, m);
    SumConcat(p.spoilt, t.spoilt, m);
    SumConcat(p.added, t.added, m);
    SumConcat(p.kept, p.added, m);
  }

  /** Over any number of passes: what was queued and what was enqueued on the way is queued,
      delivered-or-dropped, dead, lost or spoilt in the end, once each. */
  lemma {:induction false} RunConserves(queue: seq<Item>, rounds: seq<Round>, policy: Policy, core: Item)
    requires Follows(queue, rounds, policy)
    ensures var t := TallyOf(queue, rounds, policy);
            && Sum(queue, CountOf(core)) + Sum(t.added, CountOf(core)) == SumOfTally(t, CountOf(core))
            && |t.added| <= |t.dead| + |t.lost|
    decreases rounds
  {
    if rounds != [] {
      var first := rounds[0];
      var p := RoundPass(first, policy);
      PassConserves(first.disk, first.cache, first.listing, first.envs, ReaperOf(first, policy), core);
      SumOfPermutation(first.listing, queue, CountOf(core));
      RunConserves(p.kept + p.added, rounds[1..], policy, core);
      SumOfMore(p, TallyOf(p.kept + p.added, rounds[1..], policy), CountOf(core));
    }
  }

  lemma ListingOf(listing: seq<Item>, queue: seq<Item>, item: Item)
    requires multiset(listing) == multiset(queue) && item in listing
    ensures item in queue
  {
    assert item in multiset(queue);
  }

  /** Over any number of passes, whatever raised or could not be stored on the way: a dead or lost
      item was attempted exactly `maxAttempts` times plus its own unstored attempts, so at most
      `maxAttempts` times if and only if it has none; and the unstored attempts of all items
      have grown by the number of attempts that left a file as it was. */
  lemma {:induction false} RunCountsTrue(queue: seq<Item>, rounds: seq<Round>, policy: Policy)
    requires Follows(queue, rounds, policy) && Counted(queue, policy.maxAttempts)
    ensures var t := TallyOf(queue, rounds, policy);
            && Counted(t.queue, policy.maxAttempts) && Finished(t.done, policy.maxAttempts)
            && Exhausted(t.dead, policy.maxAttempts) && Exhausted(t.lost, policy.maxAttempts) && Finished(t.spoilt, policy.maxAttempts)
            && (forall x | x in t.dead + t.lost :: x.tried <= policy.maxAttempts <==> x.unstored == 0)
            && SumOfTally(t, Unstored) == Sum(queue, Unstored) + t.stuck
    decreases rounds
  {
    if rounds != [] {
      var first := rounds[0];
      var p := RoundPass(first, policy);
      forall item | item in first.listing
        ensures item in queue
      {
        ListingOf(first.listing, queue, item);
      }
      PassCountsTrue(first.disk, first.cache, first.listing, first.envs, ReaperOf(first, policy));
      SumOfPermutation(first.listing, queue, Unstored);
      RunCountsTrue(p.kept + p.added, rounds[1..], policy);
      SumOfMore(p, TallyOf(p.kept + p.added, rounds[1..], policy), Unstored);
    }
  }

  /** The outbox drains: however many passes run, whatever their clocks and listings, all of them
      together make no more attempts than the weight of the queue they found, the notices caused
      on the way included, plus the attempts that left their file as it was. */
  lemma {:induction false} OutboxDrains(queue: seq<Item>, rounds: seq<Round>, policy: Policy)
    requires Follows(queue, rounds, policy) && BelowMax(queue, policy.maxAttempts)
    ensures var t, m := TallyOf(queue, rounds, policy), WeightFor(policy.maxAttempts);
            t.attempts + Sum(t.queue, m) <= Sum(queue, m) + t.stuck
    decreases rounds
  {
    if rounds != [] {
      var m := WeightFor(policy.maxAttempts);
      var first := rounds[0];
      var p := RoundPass(first, policy);
      forall item | item in first.listing
        ensures item in queue
      {
        ListingOf(first.listing, queue, item);
      }
      SumOfPermutation(first.listing, queue, m);
      PassDrains(first.disk, first.cache, first.listing, first.envs, ReaperOf(first, policy));
      OutboxDrains(p.kept + p.added, rounds[1..], policy);
      SumConcat(p.kept, p.added, m);
    }
  }

  ghost predicate CleanRounds(rounds: seq<Round>) { forall round | round in rounds :: Clean(round.envs) }

  lemma {:induction false} CleanRoundsStoreAll(queue: seq<Item>, rounds: seq<Round>, policy: Policy)
    requires Follows(queue, rounds, policy) && CleanRounds(rounds)
    ensures TallyOf(queue, rounds, policy).stuck == 0
    decreases rounds
  {
    if rounds != [] {
      var first := rounds[0];
      assert first in rounds && forall round | round in rounds[1..] :: round in rounds;
      var p := RoundPass(first, policy);
      CleanStoresAll(first.disk, first.cache, first.listing, first.envs, ReaperOf(first, policy));
      CleanRoundsStoreAll(p.kept + p.added, rounds[1..], policy);
    }
  }

  /** When nothing raises and every retry can be stored, the passes make at most `weight` attempts
      in all and none tries an item more than `maxAttempts` times. */
  lemma CleanRunsEnd(queue: seq<Item>, rounds: seq<Round>, policy: Policy)
    requires Follows(queue, rounds, policy) && Counted(queue, policy.maxAttempts) && CleanRounds(rounds)
    requires Sum(queue, Unstored) == 0
    ensures var t := TallyOf(queue, rounds, policy);
            && t.attempts <= Sum(queue, WeightFor(policy.maxAttempts))
            && (forall x | x in t.dead + t.lost :: x.tried == policy.maxAttempts)
            && (forall x | x in t.queue + t.done :: x.tried <= policy.maxAttempts)
  {
    OutboxDrains(queue, rounds, policy);
    RunCountsTrue(queue, rounds, policy);
    CleanRoundsStoreAll(queue, rounds, policy);
    NothingUnstored(TallyOf(queue, rounds, policy), policy.maxAttempts);
  }

  lemma NothingUnstored(t: Tally, maxAttempts: nat)
    requires SumOfTally(t, Unstored) == 0
    requires Counted(t.queue, maxAttempts) && Finished(t.done, maxAttempts)
    requires Exhausted(t.dead, maxAttempts) && Exhausted(t.lost, maxAttempts)
    ensures forall x | x in t.dead + t.lost :: x.tried == maxAttempts
    ensures forall x | x in t.queue + t.done :: x.tried <= maxAttempts
  {
    NoneUnstored(t.queue);
    NoneUnstored(t.done);
    NoneUnstored(t.dead);
    NoneUnstored(t.lost);
  }

  lemma {:induction false} NoneUnstored(s: seq<Item>)
    requires Sum(s, Unstored) == 0
    ensures forall x | x in s :: x.unstored == 0
  {
    if s != [] {
      NoneUnstored(s[1..]);
      assert forall x :: x in s <==> x == s[0] || x in s[1..];
    }
  }

  /** A peer that refuses, on a machine that cannot write. */
  function NothingWorks(at: real): Env {
    var io := FileIO(false, false, false);
    Env(true, Refused, at, io, io, io, io, Unopened, false, Blocked, None)
  }

  function BadRound(item: Item, now: real): Round { Round(now, [item], [NothingWorks(now)], NO_FILE, NO_CACHE) }

  function NothingWorksFor(item: Item, now: real, n: nat): seq<Round>
    decreases n
  {
    if n == 0 then [] else [BadRound(item, now)] + NothingWorksFor(Unwritten(item, 1), now, n - 1)
  }

  /** When retries cannot be stored no bound on the attempts exists: for every n there is a run of n
      passes that tries the item n times, its file never changing. */
  lemma {:induction false} UnstoredRetriesNeverEnd(item: Item, now: real, policy: Policy, n: nat)
    requires item.nextRetry <= now && item.attempt + 1 < policy.maxAttempts
    ensures var rounds := NothingWorksFor(item, now, n);
            && Follows([item], rounds, policy)
            && TallyOf([item], rounds, policy).attempts == n
            && TallyOf([item], rounds, policy).queue == [Unwritten(item, n)]
    decreases n
  {
    if n > 0 {
      UnstoredRetry(item, now, policy);
      UnstoredRetriesNeverEnd(Unwritten(item, 1), now, policy, n - 1);
      TallyStep([item], BadRound(item, now), [Unwritten(item, 1)], 1, NothingWorksFor(Unwritten(item, 1), now, n - 1), policy);
      UnstoredAdds(item, n);
    }
  }

  lemma UnstoredAdds(item: Item, n: nat)
    requires n > 0
    ensures Unwritten(Unwritten(item, 1), n - 1) == Unwritten(item, n)
  {
  }

  predicate RoundLeaves(round: Round, policy: Policy, next: seq<Item>, tries: nat)
    requires |round.envs| == |round.listing|
  {
    var p := RoundPass(round, policy);
    p.kept + p.added == next && p.retried == tries
  }

  lemma TallyStep(queue: seq<Item>, round: Round, next: seq<Item>, tries: nat, rest: seq<Round>, policy: Policy)
    requires multiset(round.listing) == multiset(queue) && |round.envs| == |round.listing|
    requires RoundLeaves(round, policy, next, tries) && Follows(next, rest, policy)
    ensures Follows(queue, [round] + rest, policy)
    ensures var t, later := TallyOf(queue, [round] + rest, policy), TallyOf(next, rest, policy);
            t.attempts == tries + later.attempts && t.queue == later.queue
  {
    assert ([round] + rest)[1..] == rest;
  }

  lemma UnstoredRetry(item: Item, now: real, policy: Policy)
    requires item.nextRetry <= now && item.attempt + 1 < policy.maxAttempts
    ensures RoundLeaves(BadRound(item, now), policy, [Unwritten(item, 1)], 1)
  {
    var r := Reaper(now, policy.maxAttempts, policy.backoff);
    AttemptResult(NO_FILE, NO_CACHE, item, NothingWorks(now));
    PassOfOne(NO_FILE, NO_CACHE, item, NothingWorks(now), r);
    assert PassItem(NO_FILE, NO_CACHE, item, NothingWorks(now), r).kept == [Unwritten(item, 1)];
  }

  lemma PassOfOne(d: Disk, c: Cache, item: Item, env: Env, r: Reaper)
    ensures var p, q := PassItem(d, c, item, env, r), PassOver(d, c, [item], [env], r);
            q.kept == p.kept && q.added == p.added && q.retried == p.retried
  {
    var p := PassItem(d, c, item, env, r);
    assert [item][1..] == [] && [env][1..] == [];
    assert PassOver(p.disk, p.cache, [], [], r) == Untouched(p.disk, p.cache, []);
    assert p.kept + [] == p.kept && p.added + [] == p.added;
  }

  /** In every pass of every run, an item that is buried has existed for the sum of all its delays:
      backoff * (2^(maxAttempts - 1) - 1), whatever the clocks of the passes did. */
  lemma NoEarlyBurial(queue: seq<Item>, rounds: seq<Round>, policy: Policy, k: nat, x: Item)
    requires Follows(queue, rounds, policy) && k < |rounds|
    requires forall item | item in queue :: OnSchedule(item, policy.backoff) && item.attempt < policy.maxAttempts
    requires |rounds[k].envs| == |rounds[k].listing|
    requires x in RoundPass(rounds[k], policy).dead || x in RoundPass(rounds[k], policy).lost
    ensures policy.maxAttempts >= 1 && WaitedOut(rounds[k].now, x.createdAt, policy.backoff, policy.maxAttempts - 1)
  {
    ListingOnSchedule(queue, rounds, policy, k);
    RoundBuries(rounds[k], policy);
    var p := RoundPass(rounds[k], policy);
    Waited(if x in p.dead then p.dead else p.lost, rounds[k].now, policy, x);
  }

  lemma RoundBuries(round: Round, policy: Policy)
    requires |round.envs| == |round.listing| && AllOnSchedule(round.listing, ReaperOf(round, policy))
    ensures var p := RoundPass(round, policy); AllWaited(p.dead, ReaperOf(round, policy)) && AllWaited(p.lost, ReaperOf(round, policy))
  {
    PassKeepsSchedule(round.disk, round.cache, round.listing, round.envs, ReaperOf(round, policy));
  }

  lemma Waited(s: seq<Item>, now: real, policy: Policy, x: Item)
    requires AllWaited(s, Reaper(now, policy.maxAttempts, policy.backoff)) && x in s
    ensures policy.maxAttempts >= 1 && WaitedOut(now, x.createdAt, policy.backoff, policy.maxAttempts - 1)
  {
  }

  lemma {:induction false} ListingOnSchedule(queue: seq<Item>, rounds: seq<Round>, policy: Policy, k: nat)
    requires Follows(queue, rounds, policy) && k < |rounds|
    requires forall item | item in queue :: OnSchedule(item, policy.backoff) && item.attempt < policy.maxAttempts
    ensures AllOnSchedule(rounds[k].listing, ReaperOf(rounds[k], policy))
    decreases rounds
  {
    RoundKeepsSchedule(queue, rounds[0], policy);
    if k > 0 {
      var p := RoundPass(rounds[0], policy);
      ListingOnSchedule(p.kept + p.added, rounds[1..], policy, k - 1);
    }
  }

  lemma RoundKeepsSchedule(queue: seq<Item>, round: Round, policy: Policy)
    requires multiset(round.listing) == multiset(queue) && |round.envs| == |round.listing|
    requires forall item | item in queue :: OnSchedule(item, policy.backoff) && item.attempt < policy.maxAttempts
    ensures var p := RoundPass(round, policy);
            && AllOnSchedule(round.listing, ReaperOf(round, policy))
            && (forall item | item in p.kept + p.added :: OnSchedule(item, policy.backoff) && item.attempt < policy.maxAttempts)
  {
    forall item | item in round.listing
      ensures item in queue
    {
      ListingOf(round.listing, queue, item);
    }
    PassKeepsSchedule(round.disk, round.cache, round.listing, round.envs, ReaperOf(round, policy));
  }

  // ---------------------------------------------------------------------------------
  // Closes carried by queued terminators
  // ---------------------------------------------------------------------------------

  predicate ReadsClosed(d: Disk, c: Cache, item: Item, env: Env) {
    item.ref.Some? && !item.isDsn && IsClosedOn(d, c, item.ref.value, env.ioClosed).1
  }

  /** The anchor events of one attempt, in the terms of the anchor's life. */
  function AttemptEvents(item: Item, env: Env, closed: bool): seq<Event>
    requires item.anchor.Some?
  {
    var a := item.anchor.value;
    var settled := BookOf(ValidToken(a), env.ioSettle);
    if closed || env.answer == ResolveError then [Settle(a, settled)]
    else if env.answer == ResolveRaised then []
    else
      [Begin(a, item.sender, env.at, BookOf(ValidToken(a) && ValidToken(item.sender), env.ioRecord)),
       if env.answer == Accepted then Confirm(a, settled) else Fail(a, settled)]
  }

  lemma RewriteIsEvent(d: Disk, c: Cache, a: string, promote: bool, io: FileIO)
    ensures RewriteOn(d, c, a, promote, io).0.entries
            == ApplyEvent(d.entries, if promote then Confirm(a, BookOf(ValidToken(a), io)) else Fail(a, BookOf(ValidToken(a), io)))
  {
    OperationIsEvent(d, c, OpRewrite(a, promote), io);
    RunOfOne(d.entries, EventOf(OpRewrite(a, promote), io)[0]);
  }

  lemma RecordIsEvent(d: Disk, c: Cache, a: string, who: string, at: real, io: FileIO)
    ensures RecordOn(d, c, a, who, at, true, io).0.entries
            == ApplyEvent(d.entries, Begin(a, who, at, BookOf(ValidToken(a) && ValidToken(who), io)))
  {
    OperationIsEvent(d, c, OpRecord(a, who, at, true), io);
    RunOfOne(d.entries, EventOf(OpRecord(a, who, at, true), io)[0]);
  }

  /** The registry after an attempt is the registry after the attempt's events, whatever failed on
      the way: the code goes through the states of the anchor's life and no others. */
  lemma AttemptIsItsEvents(d: Disk, c: Cache, item: Item, env: Env)
    ensures AttemptOn(d, c, item, env).0.entries ==
            if item.anchor.None? then d.entries
            else RunEvents(d.entries, AttemptEvents(item, env, ReadsClosed(d, c, item, env)))
  {
    if item.anchor.Some? {
      var a := item.anchor.value;
      var c1 := if item.ref.Some? && !item.isDsn then IsClosedOn(d, c, item.ref.value, env.ioClosed).0 else c;
      if ReadsClosed(d, c, item, env) || env.answer == ResolveError {
        RewriteIsEvent(d, c1, a, false, env.ioSettle);
        RunOfOne(d.entries, Settle(a, BookOf(ValidToken(a), env.ioSettle)));
      } else if env.answer != ResolveRaised {
        var (d2, c2) := RecordOn(d, c1, a, item.sender, env.at, true, env.ioRecord);
        RecordIsEvent(d, c1, a, item.sender, env.at, env.ioRecord);
        RewriteIsEvent(d2, c2, a, env.answer == Accepted, env.ioSettle);
        var es := AttemptEvents(item, env, false);
        RunOfTwo(d.entries, es[0], es[1]);
      }
    }
  }

  /** The status of an anchor after some events, from its status before. */
  function Nexts(was: Status, es: seq<Event>, b: string): Status {
    if es == [] then was else Next(Nexts(was, es[..|es| - 1], b), es[|es| - 1], b)
  }

  lemma {:induction false} RunStatus(s: seq<Entry>, es: seq<Event>, b: string)
    requires Distinct(s)
    ensures Distinct(RunEvents(s, es)) && StatusOf(RunEvents(s, es), b) == Nexts(StatusOf(s, b), es, b)
  {
    RunDistinct(s, es);
    if es != [] {
      RunStatus(s, es[..|es| - 1], b);
      EventStatus(RunEvents(s, es[..|es| - 1]), es[|es| - 1], b);
    }
  }

  lemma NextsOfTwo(was: Status, e: Event, f: Event, b: string)
    ensures Nexts(was, [e], b) == Next(was, e, b)
    ensures Nexts(was, [e, f], b) == Next(Next(was, e, b), f, b)
  {
    assert [e][..|[e]| - 1] == [] && [e, f][..|[e, f]| - 1] == [e];
  }

  /** The attempt's record found the list unreadable and started a new one. */
  predicate RecordRestarts(item: Item, env: Env) {
    item.anchor.Some? && BookOf(ValidToken(item.anchor.value) && ValidToken(item.sender), env.ioRecord) == Restarted
  }

  function ResultOf(closed: bool, answer: Answer): Result {
    if closed then DroppedClosed
    else match answer
         case ResolveError => NotDelivered
         case ResolveRaised => Raised
         case DeliveryRaised => Raised
         case Accepted => Delivered
         case Refused => NotDelivered
  }

  lemma AttemptResult(d: Disk, c: Cache, item: Item, env: Env)
    ensures AttemptOn(d, c, item, env).2 == ResultOf(ReadsClosed(d, c, item, env), env.answer)
  {
  }

  /** What an attempt does to the status of an anchor. */
  predicate Settles(was: Status, now: Status, item: Item, env: Env, result: Result, b: string) {
    var own := item.anchor == Some(b) && ValidToken(b);
    && (!own && !RecordRestarts(item, env) ==> now == was)
    && (!own ==> now == was || now == Absent)
    && (was == Final && !RecordRestarts(item, env) ==> now == Final)
    && (own && env.ioSettle == HEALTHY && (was != Pending || env.answer != ResolveRaised || result != Raised) ==> now != Pending)
    && (own && env.ioRecord == HEALTHY && env.ioSettle == HEALTHY && result != Raised ==>
          now == if was == Final then Final
                 else if result == Delivered && (was == Pending || ValidToken(item.sender)) then Final
                 else Absent)
  }

  lemma EventsSettle(was: Status, item: Item, env: Env, closed: bool, b: string)
    requires item.anchor.Some?
    ensures Settles(was, Nexts(was, AttemptEvents(item, env, closed), b), item, env, ResultOf(closed, env.answer), b)
  {
    var es := AttemptEvents(item, env, closed);
    if |es| == 1 {
      NextsOfTwo(was, es[0], es[0], b);
    } else if |es| == 2 {
      NextsOfTwo(was, es[0], es[1], b);
      assert es == [es[0], es[1]];
    }
  }

  /** When the registry works, an attempt settles its own anchor: the close is final if it already
      was or if the message was accepted, and there is none otherwise. When only the settling call
      works, the anchor is still not left pending; and only a record that started a new list
      touches another anchor or costs a final one. */
  lemma AttemptSettles(d: Disk, c: Cache, item: Item, env: Env, b: string)
    requires Distinct(d.entries)
    ensures var (d', _, result) := AttemptOn(d, c, item, env);
            Distinct(d'.entries) && Settles(StatusOf(d.entries, b), StatusOf(d'.entries, b), item, env, result, b)
  {
    var closed := ReadsClosed(d, c, item, env);
    AttemptIsItsEvents(d, c, item, env);
    AttemptResult(d, c, item, env);
    if item.anchor.Some? {
      RunStatus(d.entries, AttemptEvents(item, env, closed), b);
      EventsSettle(StatusOf(d.entries, b), item, env, closed, b);
    }
  }

  lemma WithdrawSettles(d: Disk, c: Cache, anchor: Option<string>, io: FileIO, b: string)
    requires Distinct(d.entries)
    ensures var end := SettleOn(d, c, anchor, false, io).0;
            && Distinct(end.entries)
            && (StatusOf(d.entries, b) != Pending ==> StatusOf(end.entries, b) == StatusOf(d.entries, b))
            && (anchor == Some(b) && ValidToken(b) && io == HEALTHY ==> StatusOf(end.entries, b) != Pending)
  {
    if anchor.Some? {
      RewriteIsEvent(d, c, anchor.value, false, io);
      EventStatus(d.entries, Fail(anchor.value, BookOf(ValidToken(anchor.value), io)), b);
    }
  }

  /** None of the items carries the close of the anchor. */
  ghost predicate NoneFor(s: seq<Item>, b: string) { forall x | x in s :: x.anchor != Some(b) }

  /** The anchor is not left pending by an item of which the pass is done: its attempt settled it or,
      for a buried one, its burial withdrew it. */
  ghost predicate SettledBy(p: Pass, b: string, settleWorks: bool, deadWorks: bool) {
    StatusOf(p.disk.entries, b) == Pending ==>
      && (settleWorks ==> NoneFor(p.done, b) && NoneFor(p.dead, b) && NoneFor(p.lost, b))
      && (deadWorks ==> NoneFor(p.dead, b) && NoneFor(p.lost, b))
  }

  lemma PassItemSettles(d: Disk, c: Cache, item: Item, env: Env, r: Reaper, b: string)
    requires Distinct(d.entries)
    ensures var p := PassItem(d, c, item, env, r);
            var was, now := StatusOf(d.entries, b), StatusOf(p.disk.entries, b);
            && Distinct(p.disk.entries)
            && (was != Pending && (item.anchor == Some(b) ==> env.ioSettle == HEALTHY) ==> now != Pending)
            && (was == Final && !RecordRestarts(item, env) ==> now == Final)
            && (ValidToken(b) ==> SettledBy(p, b, env.ioSettle == HEALTHY, env.ioDead == HEALTHY))
  {
    var (d1, c1, result) := AttemptOn(d, c, item, env);
    AttemptSettles(d, c, item, env, b);
    WithdrawSettles(d1, c1, item.anchor, env.ioDead, b);
    if Due(item, env, r.now) {
      FateFinishes(d1, c1, item, env, result, r);
    }
  }

  lemma FateFinishes(d: Disk, c: Cache, item: Item, env: Env, result: Result, r: Reaper)
    ensures var p := Fate(d, c, item, env, result, r);
            && (p.disk == d || p.disk == SettleOn(d, c, item.anchor, false, env.ioDead).0)
            && (p.dead != [] || p.lost != [] ==> p.disk == SettleOn(d, c, item.anchor, false, env.ioDead).0)
            && (forall x | x in p.done || x in p.dead || x in p.lost :: result != Raised && x.anchor == item.anchor)
  {
  }

  /** The settling call works in the attempts on the anchor's own items. */
  ghost predicate OwnSettle(items: seq<Item>, envs: seq<Env>, b: string)
    requires |envs| == |items|
  {
    forall i | 0 <= i < |items| && items[i].anchor == Some(b) :: envs[i].ioSettle == HEALTHY
  }

  ghost predicate NoRestart(items: seq<Item>, envs: seq<Env>)
    requires |envs| == |items|
  {
    forall i | 0 <= i < |items| :: !RecordRestarts(items[i], envs[i])
  }

  lemma RestOfBoth(items: seq<Item>, envs: seq<Env>, b: string)
    requires |envs| == |items| && items != []
    ensures OwnSettle(items, envs, b) ==> OwnSettle(items[1..], envs[1..], b)
    ensures NoRestart(items, envs) ==> NoRestart(items[1..], envs[1..])
  {
    assert forall i | 0 <= i < |items| - 1 :: items[1..][i] == items[i + 1] && envs[1..][i] == envs[i + 1];
  }

  /** If promoting and withdrawing work in the attempts on the anchor's own items, then after a pass
      it is not pending unless it was before, and no terminator that was delivered, died or was lost
      left it pending, whatever else failed. And if no record started a new list, a final close is
      final. */
  lemma PassLeavesNothingPending(d: Disk, c: Cache, items: seq<Item>, envs: seq<Env>, r: Reaper, b: string)
    requires |envs| == |items| && Distinct(d.entries) && OwnSettle(items, envs, b)
    ensures var p := PassOver(d, c, items, envs, r);
            var was, now := StatusOf(d.entries, b), StatusOf(p.disk.entries, b);
            && (was != Pending ==> now != Pending)
            && (was == Final && NoRestart(items, envs) ==> now == Final)
            && (ValidToken(b) ==> SettledBy(p, b, true, false))
  {
    PassKeepsStatus(d, c, items, envs, r, b);
    if ValidToken(b) {
      PassSettles(d, c, items, envs, r, b);
    }
  }

  lemma {:induction false} PassKeepsStatus(d: Disk, c: Cache, items: seq<Item>, envs: seq<Env>, r: Reaper, b: string)
    requires |envs| == |items| && Distinct(d.entries) && OwnSettle(items, envs, b)
    ensures var p := PassOver(d, c, items, envs, r);
            var was, now := StatusOf(d.entries, b), StatusOf(p.disk.entries, b);
            && (was != Pending ==> now != Pending)
            && (was == Final && NoRestart(items, envs) ==> now == Final)
    decreases |items|
  {
    if items != [] {
      var head := PassItem(d, c, items[0], envs[0], r);
      PassItemSettles(d, c, items[0], envs[0], r, b);
      RestOfBoth(items, envs, b);
      if !head.stopped {
        PassKeepsStatus(head.disk, head.cache, items[1..], envs[1..], r, b);
      }
    }
  }

  lemma {:induction false} PassSettles(d: Disk, c: Cache, items: seq<Item>, envs: seq<Env>, r: Reaper, b: string)
    requires |envs| == |items| && Distinct(d.entries) && OwnSettle(items, envs, b) && ValidToken(b)
    ensures SettledBy(PassOver(d, c, items, envs, r), b, true, false)
    decreases |items|
  {
    if items != [] {
      var head := PassItem(d, c, items[0], envs[0], r);
      HeadSettles(d, c, items[0], envs[0], r, b);
      RestOfBoth(items, envs, b);
      if !head.stopped {
        PassSettles(head.disk, head.cache, items[1..], envs[1..], r, b);
        PassKeepsStatus(head.disk, head.cache, items[1..], envs[1..], r, b);
        SettledJoined(head, PassOver(head.disk, head.cache, items[1..], envs[1..], r), b, true, false);
      }
    }
  }

  lemma HeadSettles(d: Disk, c: Cache, item: Item, env: Env, r: Reaper, b: string)
    requires Distinct(d.entries) && ValidToken(b) && (item.anchor == Some(b) ==> env.ioSettle == HEALTHY)
    ensures var p := PassItem(d, c, item, env, r); Distinct(p.disk.entries) && SettledBy(p, b, true, false)
  {
    PassItemSettles(d, c, item, env, r, b);
    if item.anchor != Some(b) {
      PassItemCarries(d, c, item, env, r, b);
    }
  }

  /** Settled by the first part and not pending again, or nothing to settle there; and the same for
      the rest. */
  lemma SettledJoined(head: Pass, tail: Pass, b: string, settleWorks: bool, deadWorks: bool)
    requires SettledBy(tail, b, settleWorks, deadWorks)
    requires || FinishesNone(head, b)
             || (SettledBy(head, b, settleWorks, deadWorks)
                 && (StatusOf(tail.disk.entries, b) == Pending ==> StatusOf(head.disk.entries, b) == Pending))
    ensures SettledBy(Join(head, tail), b, settleWorks, deadWorks)
  {
  }

  /** Nothing that the pass is done with carries the anchor. */
  ghost predicate FinishesNone(p: Pass, b: string) { NoneFor(p.done, b) && NoneFor(p.dead, b) && NoneFor(p.lost, b) }

  /** What a pass finishes carries the anchors of what it listed. */
  lemma PassItemCarries(d: Disk, c: Cache, item: Item, env: Env, r: Reaper, b: string)
    requires item.anchor != Some(b)
    ensures FinishesNone(PassItem(d, c, item, env, r), b)
  {
    var (d1, c1, result) := AttemptOn(d, c, item, env);
    FateFinishes(d1, c1, item, env, result, r);
  }

  lemma {:induction false} PassCarries(d: Disk, c: Cache, items: seq<Item>, envs: seq<Env>, r: Reaper, b: string)
    requires |envs| == |items| && NoneFor(items, b)
    ensures FinishesNone(PassOver(d, c, items, envs, r), b)
    decreases |items|
  {
    if items != [] {
      var head := PassItem(d, c, items[0], envs[0], r);
      PassItemCarries(d, c, items[0], envs[0], r, b);
      if !head.stopped {
        PassCarries(head.disk, head.cache, items[1..], envs[1..], r, b);
      }
    }
  }

  /** For a single item the second withdrawal counts too: once it is buried, a terminator leaves
      nothing pending if its attempt's settlement or its burial's withdrawal worked. */
  lemma {:induction false} BurialSettles(d: Disk, c: Cache, items: seq<Item>, envs: seq<Env>, r: Reaper, k: nat, b: string)
    requires |envs| == |items| && k < |items| && Distinct(d.entries)
    requires items[k].anchor == Some(b) && ValidToken(b)
    requires forall i | 0 <= i < |items| && i != k :: items[i].anchor != Some(b)
    ensures SettledBy(PassOver(d, c, items, envs, r), b, envs[k].ioSettle == HEALTHY, envs[k].ioDead == HEALTHY)
    decreases |items|
  {
    var head := PassItem(d, c, items[0], envs[0], r);
    PassItemSettles(d, c, items[0], envs[0], r, b);
    assert forall i | 0 <= i < |items| - 1 :: items[1..][i] == items[i + 1];
    assert k == 0 ==> OwnSettle(items[1..], envs[1..], b);
    if !head.stopped {
      var tail := PassOver(head.disk, head.cache, items[1..], envs[1..], r);
      if k == 0 {
        PassLeavesNothingPending(head.disk, head.cache, items[1..], envs[1..], r, b);
        PassCarries(head.disk, head.cache, items[1..], envs[1..], r, b);
      } else {
        PassItemCarries(d, c, items[0], envs[0], r, b);
        BurialSettles(head.disk, head.cache, items[1..], envs[1..], r, k - 1, b);
      }
      SettledJoined(head, tail, b, envs[k].ioSettle == HEALTHY, envs[k].ioDead == HEALTHY);
    } else if k > 0 {
      PassItemCarries(d, c, items[0], envs[0], r, b);
    }
  }
}
