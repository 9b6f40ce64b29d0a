/** The receiving side: the replay window, the rate buckets and the bounded inbox, and the
    order in which an inbound request meets them. */
module ReceiveWindow {
  import opened Common

  // ---------------------------------------------------------------------------------
  // The seen-id window
  // ---------------------------------------------------------------------------------

  /** An accepted message id and the clock at its acceptance, in insertion order. */
  datatype Seen = Seen(id: string, at: real)

  predicate InWindow(w: seq<Seen>, id: string) {
    exists e | e in w :: e.id == id
  }

  function Unexpired(w: seq<Seen>, now: real, ttl: real): (r: seq<Seen>)
    ensures |r| <= |w|
  {
    if w == [] then []
    else (if now - w[0].at > ttl then [] else [w[0]]) + Unexpired(w[1..], now, ttl)
  }

  /** Eviction of the oldest entries over the cap. */
  function Newest(w: seq<Seen>, cap: nat): (r: seq<Seen>)
    ensures |r| <= cap
  {
    if |w| <= cap then w else w[|w| - cap..]
  }

  /** The window after accepting an id: insertion at `at`, then expiry at `now`. */
  function Accept(w: seq<Seen>, id: string, at: real, now: real, ttl: real, cap: nat): (r: seq<Seen>)
    ensures |r| <= cap
  {
    Newest(Unexpired(w + [Seen(id, at)], now, ttl), cap)
  }

  lemma {:induction false} UnexpiredAppend(w: seq<Seen>, u: seq<Seen>, now: real, ttl: real)
    ensures Unexpired(w + u, now, ttl) == Unexpired(w, now, ttl) + Unexpired(u, now, ttl)
  {
    if w == [] {
      assert w + u == u;
    } else {
      UnexpiredAppend(w[1..], u, now, ttl);
      HeadOfConcat(w, u);
      Regroup(if now - w[0].at > ttl then [] else [w[0]], Unexpired(w[1..], now, ttl), Unexpired(u, now, ttl));
    }
  }

  lemma {:induction false} UnexpiredMembers(w: seq<Seen>, now: real, ttl: real, e: Seen)
    ensures e in Unexpired(w, now, ttl) <==> e in w && now - e.at <= ttl
  {
    if w != [] {
      UnexpiredMembers(w[1..], now, ttl, e);
    }
  }

  /** One acceptance, as the clock saw it. */
  datatype Acceptance = Acceptance(id: string, at: real, now: real)

  function Window(w: seq<Seen>, accepted: seq<Acceptance>, ttl: real, cap: nat): seq<Seen> {
    if accepted == [] then w
    else
      var n := |accepted| - 1;
      Accept(Window(w, accepted[..n], ttl, cap), accepted[n].id, accepted[n].at, accepted[n].now, ttl, cap)
  }

  /** An entry with at most `younger` entries behind it. */
  ghost predicate HeldAt(w: seq<Seen>, e: Seen, younger: nat) {
    exists i :: 0 <= i < |w| && w[i] == e && |w| - 1 - i <= younger
  }

  /** Expiry of others moves an unexpired entry no closer to eviction. */
  lemma {:induction false} ExpiryKeepsHeld(w: seq<Seen>, e: Seen, younger: nat, now: real, ttl: real)
    requires HeldAt(w, e, younger) && now - e.at <= ttl
    ensures HeldAt(Unexpired(w, now, ttl), e, younger)
  {
    var i :| 0 <= i < |w| && w[i] == e && |w| - 1 - i <= younger;
    if i == 0 {
      var r := Unexpired(w, now, ttl);
      assert r[0] == e && |r| - 1 - 0 <= younger;
    } else {
      assert w[1..][i - 1] == e;
      ExpiryKeepsHeld(w[1..], e, younger, now, ttl);
      var tail := Unexpired(w[1..], now, ttl);
      var j :| 0 <= j < |tail| && tail[j] == e && |tail| - 1 - j <= younger;
      var r := Unexpired(w, now, ttl);
      assert r[|r| - |tail| + j] == e;
    }
  }

  lemma NewestKeepsHeld(w: seq<Seen>, e: Seen, younger: nat, cap: nat)
    requires HeldAt(w, e, younger) && younger < cap
    ensures HeldAt(Newest(w, cap), e, younger)
  {
    var i :| 0 <= i < |w| && w[i] == e && |w| - 1 - i <= younger;
    var r := Newest(w, cap);
    assert r[i - (|w| - |r|)] == e;
  }

  /** An acceptance pushes an unexpired entry at most one place towards eviction. */
  lemma AcceptPushesOne(w: seq<Seen>, e: Seen, younger: nat, a: Acceptance, ttl: real, cap: nat)
    requires HeldAt(w, e, younger) && a.now - e.at <= ttl && younger + 1 < cap
    ensures HeldAt(Accept(w, a.id, a.at, a.now, ttl, cap), e, younger + 1)
  {
    var i :| 0 <= i < |w| && w[i] == e && |w| - 1 - i <= younger;
    var all := w + [Seen(a.id, a.at)];
    assert all[i] == e;
    assert HeldAt(all, e, younger + 1);
    ExpiryKeepsHeld(all, e, younger + 1, a.now, ttl);
    NewestKeepsHeld(Unexpired(all, a.now, ttl), e, younger + 1, cap);
  }

  /** An accepted id stays in the window while its time to live runs, as long as fewer than
      `cap` other acceptances follow. */
  lemma {:induction false} StaysInWindow(w: seq<Seen>, first: Acceptance, others: seq<Acceptance>, ttl: real, cap: nat)
    requires first.now - first.at <= ttl
    requires forall a | a in others :: a.now - first.at <= ttl
    requires |others| < cap
    ensures HeldAt(Window(Accept(w, first.id, first.at, first.now, ttl, cap), others, ttl, cap), Seen(first.id, first.at), |others|)
  {
    var e := Seen(first.id, first.at);
    if others == [] {
      var all := w + [e];
      assert all[|w|] == e;
      assert HeldAt(all, e, 0);
      ExpiryKeepsHeld(all, e, 0, first.now, ttl);
      NewestKeepsHeld(Unexpired(all, first.now, ttl), e, 0, cap);
    } else {
      var n := |others| - 1;
      StaysInWindow(w, first, others[..n], ttl, cap);
      assert others[n] in others;
      AcceptPushesOne(Window(Accept(w, first.id, first.at, first.now, ttl, cap), others[..n], ttl, cap), e, n, others[n], ttl, cap);
    }
  }

  /** An id accepted once is in the window, and so is not accepted again, while fewer than `cap`
      other acceptances follow and every clock is within ttl of the first one. */
  lemma AcceptedOnce(w: seq<Seen>, first: Acceptance, others: seq<Acceptance>, ttl: real, cap: nat)
    requires first.now <= first.at + ttl && forall a | a in others :: a.now <= first.at + ttl
    requires |others| < cap
    ensures InWindow(Window(Accept(w, first.id, first.at, first.now, ttl, cap), others, ttl, cap), first.id)
  {
    StaysInWindow(w, first, others, ttl, cap);
    var r := Window(Accept(w, first.id, first.at, first.now, ttl, cap), others, ttl, cap);
    var i :| 0 <= i < |r| && r[i] == Seen(first.id, first.at);
    assert r[i] in r;
  }

  // ---------------------------------------------------------------------------------
  // Whole runs of requests
  // ---------------------------------------------------------------------------------

  /** A request at its turn on the window. `passes` says whether all other checks let it
      through; it is accepted if they do and its id is not in the window. */
  datatype Request = Request(id: string, passes: bool, at: real, now: real)

  predicate TakenIn(w: seq<Seen>, r: Request) { r.passes && !InWindow(w, r.id) }

  function WindowAfter(reqs: seq<Request>, ttl: real, cap: nat): seq<Seen> {
    if reqs == [] then []
    else
      var w := WindowAfter(reqs[..|reqs| - 1], ttl, cap);
      var r := reqs[|reqs| - 1];
      if TakenIn(w, r) then Accept(w, r.id, r.at, r.now, ttl, cap) else w
  }

  predicate AcceptedAt(reqs: seq<Request>, i: nat, ttl: real, cap: nat)
    requires i < |reqs|
  {
    TakenIn(WindowAfter(reqs[..i], ttl, cap), reqs[i])
  }

  /** The ids accepted among the requests lo to hi - 1. */
  function IdsBetween(reqs: seq<Request>, lo: nat, hi: nat, ttl: real, cap: nat): set<string>
    requires lo <= hi <= |reqs|
  {
    if hi == lo then {}
    else IdsBetween(reqs, lo, hi - 1, ttl, cap) + if AcceptedAt(reqs, hi - 1, ttl, cap) then {reqs[hi - 1].id} else {}
  }

  lemma {:induction false} IdsOfMore(reqs: seq<Request>, lo: nat, mid: nat, hi: nat, ttl: real, cap: nat)
    requires lo <= mid <= hi <= |reqs|
    ensures IdsBetween(reqs, lo, mid, ttl, cap) <= IdsBetween(reqs, lo, hi, ttl, cap)
  {
    if mid < hi {
      IdsOfMore(reqs, lo, mid, hi - 1, ttl, cap);
    }
  }

  lemma WindowStep(reqs: seq<Request>, i: nat, ttl: real, cap: nat)
    requires i < |reqs|
    ensures var w, r := WindowAfter(reqs[..i], ttl, cap), reqs[i];
            WindowAfter(reqs[..i + 1], ttl, cap) == if AcceptedAt(reqs, i, ttl, cap) then Accept(w, r.id, r.at, r.now, ttl, cap) else w
  {
    assert reqs[..i + 1][..i] == reqs[..i];
  }

  ghost predicate UniqueIds(w: seq<Seen>) {
    forall i, j | 0 <= i < j < |w| :: w[i].id != w[j].id
  }

  lemma {:induction false} ExpiryKeepsUnique(w: seq<Seen>, now: real, ttl: real)
    requires UniqueIds(w)
    ensures UniqueIds(Unexpired(w, now, ttl))
  {
    if w != [] {
      var tail := Unexpired(w[1..], now, ttl);
      ExpiryKeepsUnique(w[1..], now, ttl);
      forall j | 0 <= j < |tail|
        ensures tail[j].id != w[0].id
      {
        UnexpiredMembers(w[1..], now, ttl, tail[j]);
        var k :| 0 <= k < |w[1..]| && w[1..][k] == tail[j];
        assert w[k + 1] == tail[j];
      }
    }
  }

  /** The window never holds an id twice. */
  lemma {:induction false} WindowIsUnique(reqs: seq<Request>, ttl: real, cap: nat)
    ensures UniqueIds(WindowAfter(reqs, ttl, cap))
  {
    if reqs != [] {
      var w, r := WindowAfter(reqs[..|reqs| - 1], ttl, cap), reqs[|reqs| - 1];
      WindowIsUnique(reqs[..|reqs| - 1], ttl, cap);
      if TakenIn(w, r) {
        ExpiryKeepsUnique(w + [Seen(r.id, r.at)], r.now, ttl);
      }
    }
  }

  /** The entry is in the window, and all behind it have one of the given ids. */
  ghost predicate HeldAmong(w: seq<Seen>, e: Seen, ids: set<string>) {
    exists p :: 0 <= p < |w| && w[p] == e && BehindIsIn(w, p, ids)
  }

  ghost predicate BehindIsIn(w: seq<Seen>, p: nat, ids: set<string>) {
    forall q | p < q < |w| :: w[q].id in ids
  }

  lemma {:induction false} BehindIsFew(w: seq<Seen>, p: nat, ids: set<string>)
    requires UniqueIds(w) && p < |w| && BehindIsIn(w, p, ids)
    ensures |w| - 1 - p <= |ids|
    decreases |w|
  {
    if p < |w| - 1 {
      var n := |w| - 1;
      var fewer := ids - {w[n].id};
      BehindIsFew(w[..n], p, fewer);
      assert |fewer| == |ids| - 1;
    }
  }

  lemma {:induction false} ExpiryKeepsAmong(w: seq<Seen>, e: Seen, ids: set<string>, now: real, ttl: real)
    requires HeldAmong(w, e, ids) && now - e.at <= ttl
    ensures HeldAmong(Unexpired(w, now, ttl), e, ids)
  {
    var p :| 0 <= p < |w| && w[p] == e && BehindIsIn(w, p, ids);
    var tail := Unexpired(w[1..], now, ttl);
    if p == 0 {
      forall q | 0 <= q < |tail|
        ensures tail[q].id in ids
      {
        UnexpiredMembers(w[1..], now, ttl, tail[q]);
        var k :| 0 <= k < |w[1..]| && w[1..][k] == tail[q];
        assert w[k + 1] == tail[q];
      }
      HeadIsHeld(e, tail, ids);
    } else {
      assert w[1..][p - 1] == e && BehindIsIn(w[1..], p - 1, ids);
      ExpiryKeepsAmong(w[1..], e, ids, now, ttl);
      HeldFurtherBack(if now - w[0].at > ttl then [] else [w[0]], tail, e, ids);
    }
  }

  lemma HeadIsHeld(e: Seen, tail: seq<Seen>, ids: set<string>)
    requires forall q | 0 <= q < |tail| :: tail[q].id in ids
    ensures HeldAmong([e] + tail, e, ids)
  {
    assert ([e] + tail)[0] == e && BehindIsIn([e] + tail, 0, ids);
  }

  lemma HeldFurtherBack(front: seq<Seen>, tail: seq<Seen>, e: Seen, ids: set<string>)
    requires HeldAmong(tail, e, ids)
    ensures HeldAmong(front + tail, e, ids)
  {
    var j :| 0 <= j < |tail| && tail[j] == e && BehindIsIn(tail, j, ids);
    var r, k := front + tail, |front| + j;
    assert forall q | k < q < |r| :: r[q] == tail[q - |front|];
    assert r[k] == e && BehindIsIn(r, k, ids);
  }

  lemma NewestKeepsAmong(w: seq<Seen>, e: Seen, ids: set<string>, cap: nat)
    requires UniqueIds(w) && HeldAmong(w, e, ids) && |ids| < cap
    ensures HeldAmong(Newest(w, cap), e, ids)
  {
    var p :| 0 <= p < |w| && w[p] == e && BehindIsIn(w, p, ids);
    BehindIsFew(w, p, ids);
    var r := Newest(w, cap);
    var k := p - (|w| - |r|);
    assert r[k] == e && BehindIsIn(r, k, ids);
  }

  lemma AcceptKeepsAmong(w: seq<Seen>, e: Seen, ids: set<string>, r: Request, ttl: real, cap: nat)
    requires UniqueIds(w) && TakenIn(w, r) && HeldAmong(w, e, ids) && r.now - e.at <= ttl && |ids + {r.id}| < cap
    ensures HeldAmong(Accept(w, r.id, r.at, r.now, ttl, cap), e, ids + {r.id})
  {
    var p :| 0 <= p < |w| && w[p] == e && BehindIsIn(w, p, ids);
    var all := w + [Seen(r.id, r.at)];
    assert all[p] == e && BehindIsIn(all, p, ids + {r.id});
    ExpiryKeepsAmong(all, e, ids + {r.id}, r.now, ttl);
    ExpiryKeepsUnique(all, r.now, ttl);
    NewestKeepsAmong(Unexpired(all, r.now, ttl), e, ids + {r.id}, cap);
  }

  lemma FirstIsHeld(w: seq<Seen>, r: Request, ttl: real, cap: nat)
    requires UniqueIds(w) && TakenIn(w, r) && r.now - r.at <= ttl && cap > 0
    ensures HeldAmong(Accept(w, r.id, r.at, r.now, ttl, cap), Seen(r.id, r.at), {})
  {
    var e := Seen(r.id, r.at);
    var all := w + [e];
    assert all[|w|] == e && BehindIsIn(all, |w|, {});
    ExpiryKeepsAmong(all, e, {}, r.now, ttl);
    ExpiryKeepsUnique(all, r.now, ttl);
    NewestKeepsAmong(Unexpired(all, r.now, ttl), e, {}, cap);
  }

  /** From its acceptance on, an entry stays as long as fewer than `cap` distinct ids are accepted
      after it and no clock passes its time to live. */
  lemma {:induction false} HeldBetween(reqs: seq<Request>, i: nat, j: nat, ttl: real, cap: nat)
    requires i < j <= |reqs| && AcceptedAt(reqs, i, ttl, cap)
    requires forall k | i <= k < j :: reqs[k].now <= reqs[i].at + ttl
    requires |IdsBetween(reqs, i + 1, j, ttl, cap)| < cap
    ensures HeldAmong(WindowAfter(reqs[..j], ttl, cap), Seen(reqs[i].id, reqs[i].at), IdsBetween(reqs, i + 1, j, ttl, cap))
    decreases j
  {
    if j == i + 1 {
      WindowIsUnique(reqs[..i], ttl, cap);
      WindowStep(reqs, i, ttl, cap);
      FirstIsHeld(WindowAfter(reqs[..i], ttl, cap), reqs[i], ttl, cap);
    } else {
      var ids := IdsBetween(reqs, i + 1, j - 1, ttl, cap);
      Subset(ids, IdsBetween(reqs, i + 1, j, ttl, cap));
      HeldBetween(reqs, i, j - 1, ttl, cap);
      HeldStep(reqs, j - 1, Seen(reqs[i].id, reqs[i].at), ids, ttl, cap);
    }
  }

  lemma HeldStep(reqs: seq<Request>, k: nat, e: Seen, ids: set<string>, ttl: real, cap: nat)
    requires k < |reqs| && HeldAmong(WindowAfter(reqs[..k], ttl, cap), e, ids) && reqs[k].now - e.at <= ttl
    requires |ids + (if AcceptedAt(reqs, k, ttl, cap) then {reqs[k].id} else {})| < cap
    ensures HeldAmong(WindowAfter(reqs[..k + 1], ttl, cap), e, ids + (if AcceptedAt(reqs, k, ttl, cap) then {reqs[k].id} else {}))
  {
    WindowStep(reqs, k, ttl, cap);
    if AcceptedAt(reqs, k, ttl, cap) {
      WindowIsUnique(reqs[..k], ttl, cap);
      AcceptKeepsAmong(WindowAfter(reqs[..k], ttl, cap), e, ids, reqs[k], ttl, cap);
    } else {
      assert ids + {} == ids;
    }
  }

  lemma Subset<T>(a: set<T>, b: set<T>)
    requires a <= b
    ensures |a| <= |b|
  {
    if a != {} {
      var x :| x in a;
      Subset(a - {x}, b - {x});
    }
  }

  /** At most once, over every run: if two requests with one id are both accepted while no clock in
      between passes the first one's time to live, then at least `cap` other ids were accepted
      between them. */
  lemma {:induction false} TwiceOnlyAfterCapOthers(reqs: seq<Request>, i: nat, j: nat, ttl: real, cap: nat)
    requires i < j < |reqs| && reqs[i].id == reqs[j].id
    requires AcceptedAt(reqs, i, ttl, cap) && AcceptedAt(reqs, j, ttl, cap)
    requires forall k | i <= k < j :: reqs[k].now <= reqs[i].at + ttl
    ensures |IdsBetween(reqs, i + 1, j, ttl, cap) - {reqs[i].id}| >= cap
    decreases j
  {
    if k: nat :| i < k < j && AcceptedAt(reqs, k, ttl, cap) && reqs[k].id == reqs[i].id {
      TwiceOnlyAfterCapOthers(reqs, i, k, ttl, cap);
      IdsOfMore(reqs, i + 1, k, j, ttl, cap);
      Subset(IdsBetween(reqs, i + 1, k, ttl, cap) - {reqs[i].id}, IdsBetween(reqs, i + 1, j, ttl, cap) - {reqs[i].id});
    } else {
      NotAmong(reqs, i + 1, j, reqs[i].id, ttl, cap);
      var ids := IdsBetween(reqs, i + 1, j, ttl, cap);
      assert ids - {reqs[i].id} == ids;
      if |ids| < cap {
        StillInWindow(reqs, i, j, ttl, cap);
      }
    }
  }

  lemma StillInWindow(reqs: seq<Request>, i: nat, j: nat, ttl: real, cap: nat)
    requires i < j <= |reqs| && AcceptedAt(reqs, i, ttl, cap)
    requires forall k | i <= k < j :: reqs[k].now <= reqs[i].at + ttl
    requires |IdsBetween(reqs, i + 1, j, ttl, cap)| < cap
    ensures InWindow(WindowAfter(reqs[..j], ttl, cap), reqs[i].id)
  {
    HeldBetween(reqs, i, j, ttl, cap);
    var w := WindowAfter(reqs[..j], ttl, cap);
    var p :| 0 <= p < |w| && w[p] == Seen(reqs[i].id, reqs[i].at);
    assert w[p] in w;
  }

  lemma {:induction false} NotAmong(reqs: seq<Request>, lo: nat, hi: nat, id: string, ttl: real, cap: nat)
    requires lo <= hi <= |reqs|
    requires forall k: nat | lo <= k < hi && AcceptedAt(reqs, k, ttl, cap) :: reqs[k].id != id
    ensures id !in IdsBetween(reqs, lo, hi, ttl, cap)
  {
    if lo < hi {
      NotAmong(reqs, lo, hi - 1, id, ttl, cap);
    }
  }

  // ---------------------------------------------------------------------------------
  // Timestamps
  // ---------------------------------------------------------------------------------

  /** The check of a request's timestamp, up to ttl behind the clock or ahead of it. */
  predicate InReplayWindow(timestamp: Option<real>, now: real, ttl: real) {
    timestamp.Some? && -ttl <= now - timestamp.value <= ttl
  }

  /** A message first accepted at `at` is accepted again, with its timestamp still in force. */
  ghost predicate Replayed(reqs: seq<Request>, i: nat, j: nat, ts: real, at: real, ttl: real, cap: nat) {
    && i < j < |reqs| && reqs[i].id == reqs[j].id && reqs[i].at == at
    && AcceptedAt(reqs, i, ttl, cap) && AcceptedAt(reqs, j, ttl, cap)
    && (forall k | i <= k <= j :: InReplayWindow(Some(ts), reqs[k].at, ttl) && InReplayWindow(Some(ts), reqs[k].now, ttl))
  }

  /** A replay needs `cap` other ids in between. */
  ghost predicate AtMostOnce(ts: real, at: real, ttl: real, cap: nat) {
    forall reqs: seq<Request>, i: nat, j: nat | Replayed(reqs, i, j, ts, at, ttl, cap) ::
      |IdsBetween(reqs, i + 1, j, ttl, cap) - {reqs[i].id}| >= cap
  }

  /** The window's promise holds for a timestamp that is in force at the first acceptance if and
      only if it is not ahead of that acceptance: the window forgets an id ttl after accepting it,
      while a timestamp ahead of the clock stays in force for longer. */
  lemma AtMostOnceExactly(ts: real, at: real, ttl: real, cap: nat)
    requires InReplayWindow(Some(ts), at, ttl) && cap >= 1
    ensures AtMostOnce(ts, at, ttl, cap) <==> ts <= at
  {
    if ts <= at {
      forall reqs: seq<Request>, i: nat, j: nat | Replayed(reqs, i, j, ts, at, ttl, cap)
        ensures |IdsBetween(reqs, i + 1, j, ttl, cap) - {reqs[i].id}| >= cap
      {
        TwiceOnlyAfterCapOthers(reqs, i, j, ttl, cap);
      }
    } else if cap >= 2 {
      FutureDatedReplay("x", "y", ts, at, ttl, cap);
      assert Replayed(FutureDated("x", "y", ts, at, ttl), 0, 2, ts, at, ttl, cap);
    } else {
      SlowReplay("x", ts, at, ttl, cap);
    }
  }

  /** Even alone, if the clock moves that far between the two readings of one acceptance. */
  lemma SlowReplay(x: string, ts: real, at: real, ttl: real, cap: nat)
    requires at < ts <= at + ttl && cap >= 1
    ensures var reqs := [Request(x, true, at, ts + ttl), Request(x, true, ts + ttl, ts + ttl)];
            Replayed(reqs, 0, 1, ts, at, ttl, cap) && |IdsBetween(reqs, 1, 1, ttl, cap) - {x}| == 0
  {
    var reqs := [Request(x, true, at, ts + ttl), Request(x, true, ts + ttl, ts + ttl)];
    assert reqs[..0] == [] && reqs[..1] == [reqs[0]];
    WindowStep(reqs, 0, ttl, cap);
    assert [] + [Seen(x, at)] == [Seen(x, at)] && [Seen(x, at)][1..] == [];
    assert Unexpired([Seen(x, at)], ts + ttl, ttl) == [];
    assert WindowAfter(reqs[..1], ttl, cap) == [];
  }

  function FutureDated(x: string, y: string, ts: real, at: real, ttl: real): seq<Request> {
    [Request(x, true, at, at), Request(y, true, ts + ttl, ts + ttl), Request(x, true, ts + ttl, ts + ttl)]
  }

  /** A message dated ahead of the clock is accepted twice with a single other one in between. */
  lemma FutureDatedReplay(x: string, y: string, ts: real, at: real, ttl: real, cap: nat)
    requires x != y && at < ts <= at + ttl && cap >= 2
    ensures var reqs := FutureDated(x, y, ts, at, ttl);
            && Replayed(reqs, 0, 2, ts, at, ttl, cap)
            && |IdsBetween(reqs, 1, 2, ttl, cap) - {x}| == 1
  {
    var reqs := FutureDated(x, y, ts, at, ttl);
    FutureDatedWindows(x, y, ts, at, ttl, cap);
    assert IdsBetween(reqs, 1, 1, ttl, cap) == {};
    assert IdsBetween(reqs, 1, 2, ttl, cap) - {x} == {y};
  }

  lemma FutureDatedWindows(x: string, y: string, ts: real, at: real, ttl: real, cap: nat)
    requires x != y && at < ts <= at + ttl && cap >= 2
    ensures var reqs := FutureDated(x, y, ts, at, ttl);
            && WindowAfter(reqs[..0], ttl, cap) == []
            && WindowAfter(reqs[..1], ttl, cap) == [Seen(x, at)]
            && WindowAfter(reqs[..2], ttl, cap) == [Seen(y, ts + ttl)]
  {
    var reqs := FutureDated(x, y, ts, at, ttl);
    assert reqs[..0] == [];
    WindowStep(reqs, 0, ttl, cap);
    OneAccepted(x, at, ttl, cap);
    WindowStep(reqs, 1, ttl, cap);
    OneExpired(x, at, y, ts + ttl, ttl, cap);
  }

  lemma OneAccepted(x: string, at: real, ttl: real, cap: nat)
    requires ttl >= 0.0 && cap >= 1
    ensures Accept([], x, at, at, ttl, cap) == [Seen(x, at)]
  {
    assert [] + [Seen(x, at)] == [Seen(x, at)] && [Seen(x, at)][1..] == [];
  }

  lemma OneExpired(x: string, at: real, y: string, late: real, ttl: real, cap: nat)
    requires ttl >= 0.0 && late - at > ttl && cap >= 1
    ensures Accept([Seen(x, at)], y, late, late, ttl, cap) == [Seen(y, late)]
  {
    var w := [Seen(x, at)] + [Seen(y, late)];
    assert w[1..] == [Seen(y, late)] && w[1..][1..] == [];
    assert Unexpired(w[1..][1..], late, ttl) == [];
    assert Unexpired(w[1..], late, ttl) == [Seen(y, late)];
  }

  // ---------------------------------------------------------------------------------
  // How long the window remembers
  // ---------------------------------------------------------------------------------

  function Entries(accepted: seq<Acceptance>): seq<Seen> {
    seq(|accepted|, i requires 0 <= i < |accepted| => Seen(accepted[i].id, accepted[i].at))
  }

  lemma {:induction false} NothingExpires(w: seq<Seen>, now: real, ttl: real)
    requires forall e | e in w :: now - e.at <= ttl
    ensures Unexpired(w, now, ttl) == w
  {
    if w != [] {
      NothingExpires(w[1..], now, ttl);
    }
  }

  lemma NewestPush(w: seq<Seen>, e: Seen, cap: nat)
    ensures Newest(Newest(w, cap) + [e], cap) == Newest(w + [e], cap)
  {
  }

  /** Every acceptance is made within ttl of every other. */
  ghost predicate WithinTtl(accepted: seq<Acceptance>, ttl: real) {
    forall a, b | a in accepted && b in accepted :: b.now - a.at <= ttl
  }

  /** While nothing expires the window is the `cap` newest acceptances. */
  lemma {:induction false} WindowIsTheNewest(accepted: seq<Acceptance>, ttl: real, cap: nat)
    requires WithinTtl(accepted, ttl)
    ensures Window([], accepted, ttl, cap) == Newest(Entries(accepted), cap)
  {
    if accepted != [] {
      var n := |accepted| - 1;
      var a := accepted[n];
      assert a in accepted && forall x | x in accepted[..n] :: x in accepted;
      WindowIsTheNewest(accepted[..n], ttl, cap);
      var old' := Entries(accepted[..n]);
      var e := Seen(a.id, a.at);
      assert Entries(accepted) == old' + [e];
      forall x | x in Newest(old', cap) + [e]
        ensures a.now - x.at <= ttl
      {
        if x != e {
          EntryClock(accepted[..n], x, a.now, ttl);
        }
      }
      NothingExpires(Newest(old', cap) + [e], a.now, ttl);
      NewestPush(old', e, cap);
    }
  }

  lemma EntryClock(accepted: seq<Acceptance>, e: Seen, now: real, ttl: real)
    requires (forall a | a in accepted :: now - a.at <= ttl) && e in Entries(accepted)
    ensures now - e.at <= ttl
  {
    var i :| 0 <= i < |accepted| && Entries(accepted)[i] == e;
    assert accepted[i] in accepted;
  }

  /** The bound is tight: `cap` later acceptances do push an id out, and a request with it is
      then taken for new. */
  lemma CapOthersEvict(first: Acceptance, others: seq<Acceptance>, ttl: real, cap: nat)
    requires |others| == cap && WithinTtl([first] + others, ttl)
    requires forall a | a in others :: a.id != first.id
    ensures !InWindow(Window([], [first] + others, ttl, cap), first.id)
  {
    WindowIsTheNewest([first] + others, ttl, cap);
    assert Newest(Entries([first] + others), cap) == Entries(others);
    forall e | e in Entries(others)
      ensures e.id != first.id
    {
      var i :| 0 <= i < |Entries(others)| && Entries(others)[i] == e;
      assert others[i] in others;
    }
  }

  // ---------------------------------------------------------------------------------
  // Rate buckets
  // ---------------------------------------------------------------------------------

  const WINDOW := 60.0

  datatype Bucket = Bucket(count: nat, start: real)

  /** The bucket after one request, and whether the request passes. */
  function Tick(b: Option<Bucket>, now: real, limit: int): (Option<Bucket>, bool) {
    if limit <= 0 then (b, true)
    else if b.None? || now - b.value.start > WINDOW then (Some(Bucket(1, now)), true)
    else (Some(Bucket(b.value.count + 1, b.value.start)), b.value.count + 1 <= limit)
  }

  /** How many of the requests at the given clocks pass. */
  function Passed(b: Option<Bucket>, clocks: seq<real>, limit: int): nat
    decreases |clocks|
  {
    if clocks == [] then 0
    else
      var (b', ok) := Tick(b, clocks[0], limit);
      (if ok then 1 else 0) + Passed(b', clocks[1..], limit)
  }

  ghost predicate Nondecreasing(clocks: seq<real>) {
    forall i, j | 0 <= i <= j < |clocks| :: clocks[i] <= clocks[j]
  }

  function BucketAfter(b: Option<Bucket>, clocks: seq<real>, limit: int): Option<Bucket> {
    if clocks == [] then b else Tick(BucketAfter(b, clocks[..|clocks| - 1], limit), clocks[|clocks| - 1], limit).0
  }

  predicate PassesAt(b: Option<Bucket>, clocks: seq<real>, limit: int, i: nat)
    requires i < |clocks|
  {
    Tick(BucketAfter(b, clocks[..i], limit), clocks[i], limit).1
  }

  /** The requests that pass, counted from the end. */
  lemma {:induction false} PassedMore(b: Option<Bucket>, clocks: seq<real>, limit: int, t: real)
    ensures Passed(b, clocks + [t], limit) == Passed(b, clocks, limit) + if Tick(BucketAfter(b, clocks, limit), t, limit).1 then 1 else 0
    ensures BucketAfter(b, clocks + [t], limit) == Tick(BucketAfter(b, clocks, limit), t, limit).0
    decreases |clocks|
  {
    assert (clocks + [t])[..|clocks|] == clocks;
    if clocks == [] {
      assert clocks + [t] == [t] && [t][1..] == [];
    } else {
      HeadOfConcat(clocks, [t]);
      BucketFromHead(b, clocks, limit);
      PassedMore(Tick(b, clocks[0], limit).0, clocks[1..], limit, t);
    }
  }

  lemma {:induction false} BucketFromHead(b: Option<Bucket>, clocks: seq<real>, limit: int)
    requires clocks != []
    ensures BucketAfter(b, clocks, limit) == BucketAfter(Tick(b, clocks[0], limit).0, clocks[1..], limit)
    decreases |clocks|
  {
    var n := |clocks| - 1;
    if n == 0 {
      assert clocks[..n] == [] && clocks[1..] == [];
    } else {
      BucketFromHead(b, clocks[..n], limit);
      assert clocks[..n][1..] == clocks[1..][..n - 1] && clocks[1..][n - 1] == clocks[n];
    }
  }

  /** Within one bucket window exactly the first requests pass, up to the limit. */
  lemma FirstOnesPass(b: Bucket, clocks: seq<real>, limit: int, i: nat)
    requires limit > 0 && i < |clocks| && forall t | t in clocks :: t <= b.start + WINDOW
    ensures PassesAt(Some(b), clocks, limit, i) <==> b.count + i + 1 <= limit
  {
    assert clocks[i] in clocks && forall t | t in clocks[..i] :: t in clocks;
    BucketCounts(b, clocks[..i], limit);
  }

  lemma {:induction false} BucketCounts(b: Bucket, clocks: seq<real>, limit: int)
    requires limit > 0 && forall t | t in clocks :: t <= b.start + WINDOW
    ensures BucketAfter(Some(b), clocks, limit) == Some(Bucket(b.count + |clocks|, b.start))
  {
    if clocks != [] {
      var n := |clocks| - 1;
      assert clocks[n] in clocks && forall t | t in clocks[..n] :: t in clocks;
      BucketCounts(b, clocks[..n], limit);
    }
  }

  /** So their number is what the window still allows. */
  lemma {:induction false} PassedInOneWindow(b: Bucket, clocks: seq<real>, limit: int)
    requires limit > 0 && forall t | t in clocks :: t <= b.start + WINDOW
    ensures Passed(Some(b), clocks, limit) == Min(|clocks|, Max(0, limit - b.count))
    decreases |clocks|
  {
    if clocks != [] {
      assert clocks[0] in clocks && forall t | t in clocks[1..] :: t in clocks;
      PassedInOneWindow(Bucket(b.count + 1, b.start), clocks[1..], limit);
    }
  }

  /** The clocks do not run backwards, and stay within a minute of `from`. */
  ghost predicate WithinMinute(clocks: seq<real>, from: real) {
    Nondecreasing(clocks) && forall t | t in clocks :: from <= t <= from + 60.0
  }

  /** In any minute at most twice the limit passes: the minute meets at most two windows. */
  lemma {:induction false} PassedInOneMinute(b: Option<Bucket>, clocks: seq<real>, limit: int, from: real)
    requires limit > 0 && WithinMinute(clocks, from)
    ensures Passed(b, clocks, limit) <= limit + (if b.Some? then Max(0, limit - b.value.count) else 0)
    ensures Passed(b, clocks, limit) <= 2 * limit
    decreases |clocks|
  {
    if clocks != [] {
      var now := clocks[0];
      var (b', ok) := Tick(b, now, limit);
      var rest := clocks[1..];
      assert now in clocks && forall t | t in rest :: t in clocks;
      assert Nondecreasing(rest) by {
        assert forall i | 0 <= i < |rest| :: rest[i] == clocks[i + 1];
      }
      if b.None? || now - b.value.start > WINDOW {
        forall t | t in rest
          ensures t <= now + WINDOW
        {
        }
        PassedInOneWindow(b'.value, rest, limit);
      } else {
        PassedInOneMinute(b', rest, limit, from);
      }
    }
  }
}
