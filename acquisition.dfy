/**
 * What wait_for_gps computes, stated without its loop: the clock allows a number of polls,
 * the first poll whose reply is not the sentinel ends the wait, and an exhausted budget
 * means failure.
 *
 * The clock is the sequence of time.time() readings the run takes: `clock[0]` is `start`,
 * `clock[i + 1]` the reading at the i-th test of the loop condition. `responses[i]` is
 * what send_at returns to the i-th poll.
 */
module Acquisition {
  import opened Wrappers
  import opened GpsInfo

  /** The readings run up to one that has reached the budget, so the loop ends by them. */
  predicate ClockExpires(clock: seq<int>, timeout: int) {
    |clock| >= 2 && clock[|clock| - 1] - clock[0] >= timeout
  }

  /** The inputs of one run of wait_for_gps: an expiring clock and a reply for every poll it allows. */
  predicate Supplied(timeout: int, clock: seq<int>, responses: seq<Response>) {
    ClockExpires(clock, timeout) && |responses| >= |clock| - 2
  }

  /** The first index from `from` on whose reading has reached the budget. */
  function ExpiryIndex(clock: seq<int>, timeout: int, from: nat): (i: nat)
    requires ClockExpires(clock, timeout) && 1 <= from < |clock|
    ensures from <= i < |clock| && clock[i] - clock[0] >= timeout
    ensures forall j :: from <= j < i ==> clock[j] - clock[0] < timeout
    decreases |clock| - from
  {
    if clock[from] - clock[0] >= timeout then from else ExpiryIndex(clock, timeout, from + 1)
  }

  /** How many times the loop body may run: the polls before the first reading past the budget. */
  function PollBudget(clock: seq<int>, timeout: int): (n: nat)
    requires ClockExpires(clock, timeout)
    ensures n + 1 < |clock| && clock[n + 1] - clock[0] >= timeout
    ensures forall i :: 1 <= i <= n ==> clock[i] - clock[0] < timeout
  {
    ExpiryIndex(clock, timeout, 1) - 1
  }

  /** The first reply from `from` on that get_new_coords does not turn into the sentinel. */
  function FirstNonSentinel(responses: seq<Response>, from: nat): (k: nat)
    requires from <= |responses|
    ensures from <= k <= |responses|
    ensures forall j :: from <= j < k ==> QueryOutcome(responses[j]) == Ok(Sentinel)
    ensures k < |responses| ==> QueryOutcome(responses[k]) != Ok(Sentinel)
    decreases |responses| - from
  {
    if from == |responses| || QueryOutcome(responses[from]) != Ok(Sentinel) then from
    else FirstNonSentinel(responses, from + 1)
  }

  /** The result of a run (`Err` for the exception a poll lets through) and the number of polls made. */
  datatype WaitRun = WaitRun(result: Result<bool, ParseError>, polls: nat)

  /** wait_for_gps as a search: the first non-sentinel poll within the budget decides. */
  function Acquire(timeout: int, clock: seq<int>, responses: seq<Response>): (run: WaitRun)
    requires Supplied(timeout, clock, responses)
    ensures run.polls <= PollBudget(clock, timeout)
  {
    var n := PollBudget(clock, timeout);
    var k := FirstNonSentinel(responses[..n], 0);
    if k == n then WaitRun(Ok(false), n)
    else match QueryOutcome(responses[k])
      case Err(e) => WaitRun(Err(e), k + 1)
      case Ok(_) => WaitRun(Ok(true), k + 1)
  }

  /** Poll `k` is the first to be answered with a fix. */
  predicate FirstFixAt(responses: seq<Response>, k: int) {
    && 0 <= k < |responses|
    && (forall j :: 0 <= j < k ==> QueryOutcome(responses[j]) == Ok(Sentinel))
    && QueryOutcome(responses[k]).Ok?
    && QueryOutcome(responses[k]).value.Parsed?
  }

  /** wait_for_gps returns True exactly when some poll within the budget is answered with a fix
      after only sentinels, and then it has made exactly that poll and no more. */
  lemma AcquireTrueIff(timeout: int, clock: seq<int>, responses: seq<Response>)
    requires Supplied(timeout, clock, responses)
    ensures Acquire(timeout, clock, responses).result == Ok(true) <==>
      exists k :: k < PollBudget(clock, timeout) && FirstFixAt(responses, k)
    ensures forall k :: k < PollBudget(clock, timeout) && FirstFixAt(responses, k) ==>
      Acquire(timeout, clock, responses).polls == k + 1
  {
    var n := PollBudget(clock, timeout);
    var rs := responses[..n];
    var f := FirstNonSentinel(rs, 0);
    forall k | k < n && FirstFixAt(responses, k)
      ensures f == k
    {
      assert rs[k] == responses[k];
      if f < n {
        assert rs[f] == responses[f];
      }
    }
    if Acquire(timeout, clock, responses).result == Ok(true) {
      assert FirstFixAt(responses, f) by {
        forall j | 0 <= j < f
          ensures QueryOutcome(responses[j]) == Ok(Sentinel)
        {
          assert rs[j] == responses[j];
        }
      }
    }
  }

  /** wait_for_gps returns False exactly when every poll the budget allows gets the sentinel;
      it has then used up the whole budget. */
  lemma AcquireFalseIff(timeout: int, clock: seq<int>, responses: seq<Response>)
    requires Supplied(timeout, clock, responses)
    ensures Acquire(timeout, clock, responses).result == Ok(false) <==>
      forall j :: 0 <= j < PollBudget(clock, timeout) ==> QueryOutcome(responses[j]) == Ok(Sentinel)
    ensures Acquire(timeout, clock, responses).result == Ok(false) ==>
      Acquire(timeout, clock, responses).polls == PollBudget(clock, timeout)
  {
    var n := PollBudget(clock, timeout);
    var rs := responses[..n];
    var f := FirstNonSentinel(rs, 0);
    if f == n {
      forall j | 0 <= j < n
        ensures QueryOutcome(responses[j]) == Ok(Sentinel)
      {
        assert rs[j] == responses[j];
      }
    } else {
      assert rs[f] == responses[f];
    }
  }

  /** Every poll (the i-th made after the i-th reading) is made while the elapsed time is still below the budget. */
  lemma AcquireWithinBudget(timeout: int, clock: seq<int>, responses: seq<Response>)
    requires Supplied(timeout, clock, responses)
    ensures forall i :: 1 <= i <= Acquire(timeout, clock, responses).polls ==>
      clock[i] - clock[0] < timeout
  {
  }

  /** With a zero or negative budget and a clock that does not run backwards, no query is
      sent and the result is False. */
  lemma AcquireZeroBudget(timeout: int, clock: seq<int>, responses: seq<Response>)
    requires Supplied(timeout, clock, responses)
    requires timeout <= 0 && clock[1] >= clock[0]
    ensures Acquire(timeout, clock, responses) == WaitRun(Ok(false), 0)
  {
    assert PollBudget(clock, timeout) == 0;
    assert responses[..0] == [];
  }

  /** A run that has seen only sentinels in its first `i` polls, made the next one inside
      the budget and got something else stops there, with that poll's outcome. */
  lemma AcquireStopsAt(timeout: int, clock: seq<int>, responses: seq<Response>, i: nat)
    requires Supplied(timeout, clock, responses) && i + 1 < |clock| && i < |responses|
    requires forall j :: 1 <= j <= i + 1 ==> clock[j] - clock[0] < timeout
    requires forall j :: 0 <= j < i ==> QueryOutcome(responses[j]) == Ok(Sentinel)
    requires QueryOutcome(responses[i]) != Ok(Sentinel)
    ensures Acquire(timeout, clock, responses).polls == i + 1
    ensures Acquire(timeout, clock, responses).result ==
      if QueryOutcome(responses[i]).Err? then Err(QueryOutcome(responses[i]).error) else Ok(true)
  {
    var n := PollBudget(clock, timeout);
    var rs := responses[..n];
    assert rs[i] == responses[i];
  }

  /** A run whose clock reaches the budget after `i` polls that all got sentinels returns False. */
  lemma AcquireExhausted(timeout: int, clock: seq<int>, responses: seq<Response>, i: nat)
    requires Supplied(timeout, clock, responses) && i + 1 < |clock| && i <= |responses|
    requires forall j :: 1 <= j <= i ==> clock[j] - clock[0] < timeout
    requires clock[i + 1] - clock[0] >= timeout
    requires forall j :: 0 <= j < i ==> QueryOutcome(responses[j]) == Ok(Sentinel)
    ensures Acquire(timeout, clock, responses) == WaitRun(Ok(false), i)
  {
    var n := PollBudget(clock, timeout);
    assert n == i;
  }
}
