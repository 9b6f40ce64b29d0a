/** The receiving gateway: the state that inbound requests share, and the order of its checks.

    Verifying a signature suspends a request, so others may run between the timestamp check
    and the rest; from the rate limit on, a request runs without interruption. The two halves
    are two methods. */
module Adapter {
  import opened Common
  import opened Envelope
  import opened ReceiveWindow
  import A = Anchors
  import opened ClosedThreads

  const INBOX_SIZE := 256

  datatype Status =
    | Accepted        // 202
    | Duplicate       // 200
    | InvalidJson     // 400
    | BadRequest      // 400
    | ThreadClosed    // 400
    | Unauthorized    // 401
    | NotFound        // 404
    | RateLimited     // 429
    | InternalError   // 500
    | Busy            // 503

  /** What authentication made of a request: off, no signature, refused, or a verified name. */
  datatype Auth = Off(claimed: Option<string>) | Missing | Rejected | Verified(name: string)

  /** `timestamp` is None when the header is missing, unreadable or not finite. */
  datatype Request = Request(
    isObject: bool,
    timestamp: Option<real>,
    auth: Auth,
    text: string,
    dsn: bool)

  /** The clock readings and outside behaviour a committed request meets, in order. */
  datatype CommitWorld = CommitWorld(
    rateNow: real,
    closedIo: FileIO,
    recordAt: real,
    recordIo: FileIO,
    eventBuilt: bool,
    seenAt: real,
    expireNow: real)

  class MeshAdapter {
    const name: string
    const ttl: real
    const cap: nat
    const limit: int
    const threads: ThreadProcess
    var seen: seq<Seen>
    var buckets: map<string, Bucket>
    var inbox: seq<string>

    constructor (name: string, ttl: real, cap: nat, limit: int, threads: ThreadProcess)
      ensures this.name == name && this.ttl == ttl && this.cap == cap && this.limit == limit && this.threads == threads
      ensures seen == [] && buckets == map[] && inbox == []
    {
      this.name, this.ttl, this.cap, this.limit, this.threads := name, ttl, cap, limit, threads;
      seen, buckets, inbox := [], map[], [];
    }

    function BucketOf(sender: string): Option<Bucket>
      reads this`buckets
    {
      if sender in buckets then Some(buckets[sender]) else None
    }

    /** The checks a request passes on its own: an object, a fresh timestamp, an authentic
        sender, a readable envelope. `from` is the name the envelope's sender must match. */
    method Validate(req: Request, now: real) returns (e: Option<Envelope>, from: Option<string>, status: Status)
      ensures e.Some? <==>
                && req.isObject && InReplayWindow(req.timestamp, now, ttl)
                && (req.auth.Off? || req.auth.Verified?) && Parse(req.text).Some?
      ensures e.Some? ==> e == Parse(req.text) && status == Status.Accepted
      ensures e.Some? && req.auth.Verified? ==> from == Some(req.auth.name)
      ensures status == if !req.isObject then InvalidJson
                        else if !InReplayWindow(req.timestamp, now, ttl) || req.auth.Missing? || req.auth.Rejected? then Unauthorized
                        else if Parse(req.text).None? then BadRequest
                        else Status.Accepted
    {
      e, from := None, None;
      if !req.isObject {
        return None, None, InvalidJson;
      }
      if !InReplayWindow(req.timestamp, now, ttl) {
        return None, None, Unauthorized;
      }
      match req.auth {
        case Missing => return None, None, Unauthorized;
        case Rejected => return None, None, Unauthorized;
        case Off(claimed) => from := claimed;
        case Verified(n) => from := Some(n);
      }
      e := Parse(req.text);
      status := if e.Some? then Status.Accepted else BadRequest;
    }

    method CheckRateLimit(sender: string, now: real) returns (ok: bool)
      modifies this`buckets
      ensures sender == "" ==> ok && buckets == old(buckets)
      ensures sender != "" ==> (BucketOf(sender), ok) == Tick(old(BucketOf(sender)), now, limit)
      ensures forall s | s != sender :: BucketOf(s) == old(BucketOf(s))
    {
      if limit <= 0 || sender == "" {
        return true;
      }
      if sender !in buckets || now - buckets[sender].start > WINDOW {
        buckets := buckets[sender := Bucket(1, now)];
        return true;
      }
      var b := buckets[sender];
      buckets := buckets[sender := Bucket(b.count + 1, b.start)];
      return b.count + 1 <= limit;
    }

    method ExpireSeenMessages(now: real)
      modifies this`seen
      ensures seen == Newest(Unexpired(old(seen), now, ttl), cap)
    {
      var kept: seq<Seen> := [];
      for i := 0 to |seen|
        invariant seen == old(seen) && kept == Unexpired(seen[..i], now, ttl)
      {
        UnexpiredAppend(seen[..i], [seen[i]], now, ttl);
        assert seen[..i + 1] == seen[..i] + [seen[i]] && [seen[i]][1..] == [];
        if now - seen[i].at <= ttl {
          kept := kept + [seen[i]];
        }
      }
      assert seen[..|seen|] == seen;
      while |kept| > cap
        invariant Newest(kept, cap) == Newest(Unexpired(old(seen), now, ttl), cap)
        decreases |kept|
      {
        kept := kept[1..];
      }
      seen := kept;
    }

    /** The end of a request: a message that cannot be queued is not remembered either. */
    method Enqueue(msgId: string, w: CommitWorld) returns (status: Status)
      modifies this`inbox, this`seen
      ensures status == if !w.eventBuilt then InternalError else if |old(inbox)| >= INBOX_SIZE then Busy else Status.Accepted
      ensures seen == if status == Status.Accepted then Accept(old(seen), msgId, w.seenAt, w.expireNow, ttl, cap) else old(seen)
      ensures inbox == if status == Status.Accepted then old(inbox) + [msgId] else old(inbox)
    {
      if !w.eventBuilt {
        return InternalError;
      }
      if |inbox| >= INBOX_SIZE {
        return Busy;
      }
      inbox := inbox + [msgId];
      seen := seen + [Seen(msgId, w.seenAt)];
      ExpireSeenMessages(w.expireNow);
      return Status.Accepted;
    }

    /** A reply to a closed thread, which neither a notification nor a terminator is. */
    ghost predicate ReadsClosed(e: Envelope, dsn: bool, w: CommitWorld)
      reads this, threads, threads.file
    {
      e.ref.Some? && !dsn && e.reply != "end"
      && A.IsClosedOn(threads.file.Disk(), threads.Cache(), e.ref.value, w.closedIo).1
    }

    /** From the closed-thread guard on: the replay window, the recipient's own record of a close, the
        inbox. The first check that fails gives the answer. */
    method Deliver(e: Envelope, dsn: bool, w: CommitWorld) returns (status: Status)
      modifies this`seen, this`inbox, threads, threads.file
      ensures status == if old(ReadsClosed(e, dsn, w)) then ThreadClosed
                        else if InWindow(old(seen), e.msgId) then Duplicate
                        else if !w.eventBuilt then InternalError
                        else if |old(inbox)| >= INBOX_SIZE then Busy
                        else Status.Accepted
      ensures seen == if status == Status.Accepted then Accept(old(seen), e.msgId, w.seenAt, w.expireNow, ttl, cap) else old(seen)
      ensures inbox == if status == Status.Accepted then old(inbox) + [e.msgId] else old(inbox)
      ensures threads.file.Disk() ==
              if e.reply == "end" && status in {Status.Accepted, InternalError, Busy}
              then A.RecordOn(old(threads.file.Disk()), A.NO_CACHE, e.msgId, e.sender, w.recordAt, false, w.recordIo).0
              else old(threads.file.Disk())
    {
      if e.ref.Some? && !dsn && e.reply != "end" {
        var closed := threads.IsClosed(e.ref, w.closedIo);
        if closed {
          return ThreadClosed;
        }
      }
      if InWindow(seen, e.msgId) {
        return Duplicate;
      }
      if e.reply == "end" {
        var _ := threads.Record(e.msgId, e.sender, w.recordAt, false, w.recordIo);
      }
      status := Enqueue(e.msgId, w);
    }

    /** The rate limit, the match of names, and the rest. */
    method Commit(e: Envelope, from: Option<string>, dsn: bool, w: CommitWorld) returns (status: Status)
      modifies this, threads, threads.file
      // Accepted exactly when every check passes.
      ensures status == Status.Accepted <==>
                && Addressed(e, from, name) && old(RateOk(e.sender, w.rateNow))
                && !old(ReadsClosed(e, dsn, w)) && !InWindow(old(seen), e.msgId)
                && w.eventBuilt && |old(inbox)| < INBOX_SIZE
      // Only then is the id remembered and the message delivered, and then both are.
      ensures status == Status.Accepted ==>
                && seen == Accept(old(seen), e.msgId, w.seenAt, w.expireNow, ttl, cap)
                && |seen| <= cap
                && inbox == old(inbox) + [e.msgId]
      ensures status != Status.Accepted ==> seen == old(seen) && inbox == old(inbox)
      // A busy answer is given only to a message not seen before: its retry is a new message.
      ensures status == Busy ==> |inbox| >= INBOX_SIZE && !InWindow(seen, e.msgId)
      ensures status == Duplicate <==>
                && Addressed(e, from, name) && old(RateOk(e.sender, w.rateNow))
                && !old(ReadsClosed(e, dsn, w)) && InWindow(old(seen), e.msgId)
      // A terminator or a notification is never refused on account of a closed thread.
      ensures status == ThreadClosed ==> e.ref.Some? && !dsn && e.reply != "end"
      ensures status == ThreadClosed ==> old(ReadsClosed(e, dsn, w))
      // The recipient records a close, once, for a terminator that got past the window.
      ensures threads.file.Disk() ==
              if e.reply == "end" && status in {Status.Accepted, InternalError, Busy}
              then A.RecordOn(old(threads.file.Disk()), A.NO_CACHE, e.msgId, e.sender, w.recordAt, false, w.recordIo).0
              else old(threads.file.Disk())
      // Every request of a named sender counts, whatever becomes of it: in its bucket, or in a new one
      // if it had none or one over a minute old.
      ensures var was := old(BucketOf(e.sender));
              BucketOf(e.sender) == if e.sender == "" || limit <= 0 then was
                                    else if was.None? || w.rateNow - was.value.start > 60.0 then Some(Bucket(1, w.rateNow))
                                    else Some(Bucket(was.value.count + 1, was.value.start))
      // No other sender's bucket moves.
      ensures forall s | s != e.sender :: BucketOf(s) == old(BucketOf(s))
      // Which answer it is: the first check that fails gives it.
      ensures status == RateLimited <==>
                var was := old(BucketOf(e.sender));
                e.sender != "" && limit > 0 && was.Some? && w.rateNow - was.value.start <= 60.0 && was.value.count >= limit
      ensures var closed := e.ref.Some? && !dsn && e.reply != "end"
                            && A.IsClosedOn(old(threads.file.Disk()), old(threads.Cache()), e.ref.value, w.closedIo).1;
              status != RateLimited ==>
                status == if from.Some? && from.value != "" && e.sender != from.value then Unauthorized
                          else if e.recipient != name then NotFound
                          else if closed then ThreadClosed
                          else if exists x :: x in old(seen) && x.id == e.msgId then Duplicate
                          else if !w.eventBuilt then InternalError
                          else if |old(inbox)| >= 256 then Busy
                          else Status.Accepted
    {
      var ok := CheckRateLimit(e.sender, w.rateNow);
      if !ok {
        return RateLimited;
      }
      if from.Some? && from.value != "" && e.sender != from.value {
        return Unauthorized;
      }
      if e.recipient != name {
        return NotFound;
      }
      status := Deliver(e, dsn, w);
    }

    predicate RateOk(sender: string, now: real)
      reads this`buckets
    {
      sender == "" || Tick(BucketOf(sender), now, limit).1
    }

    /** Requests of any senders, one after the other. Of one sender's, exactly those pass the rate limit
        that its bucket allows; within a minute, at most twice the limit. */
    method Serve(requests: seq<Read>, ghost who: string, ghost from: real) returns (statuses: seq<Status>)
      requires who != ""
      modifies this, threads, threads.file
      ensures |statuses| == |requests|
      ensures LetThrough(requests, statuses, who) == Passed(old(BucketOf(who)), Clocks(requests, who), limit)
      ensures limit > 0 && WithinMinute(Clocks(requests, who), from) ==> LetThrough(requests, statuses, who) <= 2 * limit
    {
      ghost var first := BucketOf(who);
      statuses := [];
      for i := 0 to |requests|
        invariant |statuses| == i
        invariant LetThrough(requests[..i], statuses, who) == Passed(first, Clocks(requests[..i], who), limit)
        invariant BucketOf(who) == BucketAfter(first, Clocks(requests[..i], who), limit)
      {
        ghost var was := BucketOf(who);
        var status := CommitRead(requests[i]);
        assert requests[..i + 1] == requests[..i] + [requests[i]];
        OneMore(requests[..i], statuses, who, first, limit, requests[i], status, was, BucketOf(who));
        statuses := statuses + [status];
      }
      assert requests[..|requests|] == requests;
      if limit > 0 && WithinMinute(Clocks(requests, who), from) {
        PassedInOneMinute(first, Clocks(requests, who), limit, from);
      }
    }

    /** One of them, as far as the buckets are concerned. */
    method CommitRead(q: Read) returns (status: Status)
      modifies this, threads, threads.file
      ensures forall who | who != "" ::
                if q.e.sender == who then (BucketOf(who), status != RateLimited) == Tick(old(BucketOf(who)), q.w.rateNow, limit)
                else BucketOf(who) == old(BucketOf(who))
    {
      status := Commit(q.e, q.from, q.dsn, q.w);
    }

    /** The processor takes the oldest message. */
    method Take() returns (id: Option<string>)
      modifies this`inbox
      ensures old(inbox) == (if id.Some? then [id.value] else []) + inbox
      ensures id.None? ==> inbox == []
    {
      if inbox == [] {
        return None;
      }
      id := Some(inbox[0]);
      inbox := inbox[1..];
    }
  }

  /** A request that passed the checks of Validate, and what it meets from the rate limit on. */
  datatype Read = Read(e: Envelope, from: Option<string>, dsn: bool, w: CommitWorld)

  /** The clocks at which the requests of one sender reach the rate limit. */
  function Clocks(requests: seq<Read>, who: string): seq<real> {
    if requests == [] then []
    else
      var n := |requests| - 1;
      Clocks(requests[..n], who) + if requests[n].e.sender == who then [requests[n].w.rateNow] else []
  }

  /** How many of them are not refused for their rate. */
  function LetThrough(requests: seq<Read>, statuses: seq<Status>, who: string): nat
    requires |statuses| == |requests|
  {
    if requests == [] then 0
    else
      var n := |requests| - 1;
      LetThrough(requests[..n], statuses[..n], who) + if requests[n].e.sender == who && statuses[n] != RateLimited then 1 else 0
  }

  /** The requests let through agree with the bucket's count, one request further. */
  lemma OneMore(requests: seq<Read>, statuses: seq<Status>, who: string, first: Option<Bucket>, limit: int,
                q: Read, status: Status, was: Option<Bucket>, now: Option<Bucket>)
    requires |statuses| == |requests| && was == BucketAfter(first, Clocks(requests, who), limit)
    requires LetThrough(requests, statuses, who) == Passed(first, Clocks(requests, who), limit)
    requires if q.e.sender == who then (now, status != RateLimited) == Tick(was, q.w.rateNow, limit) else now == was
    ensures now == BucketAfter(first, Clocks(requests + [q], who), limit)
    ensures LetThrough(requests + [q], statuses + [status], who) == Passed(first, Clocks(requests + [q], who), limit)
  {
    var n := |requests|;
    assert (requests + [q])[..n] == requests && (statuses + [status])[..n] == statuses;
    if q.e.sender == who {
      PassedMore(first, Clocks(requests, who), limit, q.w.rateNow);
    } else {
      assert Clocks(requests + [q], who) == Clocks(requests, who);
    }
  }

  predicate Addressed(e: Envelope, from: Option<string>, name: string) {
    (from.Some? && from.value != "" ==> e.sender == from.value) && e.recipient == name
  }
}
