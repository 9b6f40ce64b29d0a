/** The send loop of a float: parts in order, one request each, under a wall budget. */
module FloatSend {
  import opened Common

  const HTTP_TIMEOUT := 10.0
  const WALL_BUDGET := 15.0

  datatype Verdict = PartAccepted | PartRejected | HttpError | TransportError

  /** How the peer would answer a request: after `latency`, with `verdict`. */
  datatype Answer = Answer(latency: real, verdict: Verdict)

  /** A request ends with its answer or, if that takes longer than its timeout, at the
      timeout with a transport failure. */
  function RequestTime(a: Answer, timeout: real): real { MinR(MaxR(a.latency, 0.0), timeout) }

  predicate Arrives(a: Answer, timeout: real) { a.latency <= timeout && a.verdict == PartAccepted }

  /** How the loop ended. */
  datatype End = AllSent | OutOfBudget | PartFailed

  function Timeout(clock: real, deadline: real): real { MinR(HTTP_TIMEOUT, deadline - clock) }

  /** The clock when part i's turn comes, if all parts before it got their turn. */
  function TurnOf(answers: seq<Answer>, start: real, i: nat): real
    requires i <= |answers|
  {
    if i == 0 then start
    else
      var t := TurnOf(answers, start, i - 1);
      t + RequestTime(answers[i - 1], Timeout(t, start + WALL_BUDGET))
  }

  predicate HasBudget(answers: seq<Answer>, start: real, i: nat)
    requires i <= |answers|
  {
    TurnOf(answers, start, i) < start + WALL_BUDGET
  }

  predicate GoesThrough(answers: seq<Answer>, start: real, i: nat)
    requires i < |answers|
  {
    HasBudget(answers, start, i) && Arrives(answers[i], Timeout(TurnOf(answers, start, i), start + WALL_BUDGET))
  }

  /** Send the parts in order. `wire` is every part put into a request, in order. */
  method Send(parts: seq<string>, answers: seq<Answer>, start: real)
    returns (wire: seq<string>, accepted: nat, clock: real, end: End)
    requires |answers| == |parts|
    // What reaches the chat is a prefix of the parts; at most one more request was made.
    ensures accepted <= |wire| <= accepted + 1 && |wire| <= |parts| && wire == parts[..|wire|]
    // However slow the peer, the loop is over after the wall budget.
    ensures start <= clock <= start + WALL_BUDGET
    // The prefix is as long as budget and answers allow.
    ensures forall i | 0 <= i < accepted :: GoesThrough(answers, start, i)
    ensures accepted < |parts| ==> !GoesThrough(answers, start, accepted)
    ensures end == AllSent <==> accepted == |parts|
    ensures end == OutOfBudget <==> accepted < |parts| && !HasBudget(answers, start, accepted)
    ensures end == PartFailed <==> |wire| == accepted + 1
  {
    wire, accepted, clock, end := [], 0, start, AllSent;
    var deadline := start + WALL_BUDGET;
    for i := 0 to |parts|
      invariant accepted == i && wire == parts[..i] && end == AllSent
      invariant start <= clock <= deadline && clock == TurnOf(answers, start, i)
      invariant forall k | 0 <= k < i :: GoesThrough(answers, start, k)
    {
      var remaining := deadline - clock;
      if remaining <= 0.0 {
        end := OutOfBudget;
        return;
      }
      var timeout := MinR(HTTP_TIMEOUT, remaining);
      wire := wire + [parts[i]];
      clock := clock + RequestTime(answers[i], timeout);
      if !Arrives(answers[i], timeout) {
        end := PartFailed;
        return;
      }
      accepted := accepted + 1;
    }
  }
}
