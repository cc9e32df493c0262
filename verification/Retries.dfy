/** The HTTP request loop with retries and exponential backoff. */
module Retries {

  import opened Basics
  import opened Powers

  /** The Retry-After header: absent, not a number, a number of seconds, or nan or infinity. */
  datatype RetryAfter = NoHeader | Unparsable | Seconds(value: real) | NotFinite

  /** What one request meets. */
  datatype Reply =
    | TransportError
    | Response(status: int, header: RetryAfter)
    | OtherError

  datatype Outcome =
    | Returned(status: int)
    | RaisedTransportError
    | RaisedStatusError(status: int)
    | RaisedSleepError
    | RaisedOtherError

  class Client {
    var sent: nat
    var closes: nat

    constructor ()
      ensures sent == 0 && closes == 0
    {
      sent, closes := 0, 0;
    }

    /** The network decides what request number k of a run meets. */
    method Request(replies: nat -> Reply, k: nat) returns (reply: Reply)
      modifies this`sent
      ensures sent == old(sent) + 1 && reply == replies(k)
    {
      sent := sent + 1;
      reply := replies(k);
    }

    method Close()
      modifies this`closes
      ensures closes == old(closes) + 1
    {
      closes := closes + 1;
    }
  }

  function Backoff(retry: nat): real {
    Pow2(retry) as real
  }

  /** The delay before retry number `attempt`, counted from 1; None is nan or infinity. */
  function GetRetryDelay(header: RetryAfter, attempt: nat): Option<real>
    requires attempt >= 1
  {
    match header
    case Seconds(value) => Some(value)
    case NotFinite => None
    case _ => Some(Backoff(attempt - 1))
  }

  predicate Succeeds(status: int) {
    200 <= status <= 299
  }

  // ---- what a run should be, reply by reply ----

  /** `maxSleep`: the longest delay the platform's sleep accepts, about 292 years with 64-bit nanoseconds. */
  datatype Config = Config(maxRetries: int, statuses: set<int>, maxSleep: real)

  /** Sleeping raises for a delay that is negative, not finite or too long for the platform. */
  predicate CanSleep(config: Config, delay: Option<real>) {
    delay.Some? && 0.0 <= delay.value <= config.maxSleep
  }

  /** The reply is one the caller asked to retry. */
  predicate Retriable(config: Config, reply: Reply) {
    reply.TransportError? || (reply.Response? && reply.status in config.statuses)
  }

  /** Reply k, if it is to be retried, calls for a delay that cannot be slept: the header's or the doubled one. */
  predicate AsksImpossibleDelay(config: Config, reply: Reply, k: nat) {
    || (reply.Response? && reply.header.NotFinite?)
    || DelayAfter(reply, k) < 0.0
    || DelayAfter(reply, k) > config.maxSleep
  }

  /** Reply k is followed by another request. */
  predicate IsRetried(config: Config, reply: Reply, k: nat) {
    Retriable(config, reply) && !AsksImpossibleDelay(config, reply, k) && k < config.maxRetries
  }

  /** How a reply ends the run when it is the last one. */
  function Ending(reply: Reply): Outcome {
    match reply
    case TransportError => RaisedTransportError
    case OtherError => RaisedOtherError
    case Response(status, _) => if Succeeds(status) then Returned(status) else RaisedStatusError(status)
  }

  /** Retry number k + 1 follows reply k, after this delay. */
  function DelayAfter(reply: Reply, k: nat): real {
    if reply.Response? && reply.header.Seconds? then reply.header.value else Backoff(k)
  }

  function Sum(delays: seq<real>): real {
    if delays == [] then 0.0 else Sum(delays[..|delays| - 1]) + delays[|delays| - 1]
  }

  /** The first r replies are retried and reply r is the last. */
  ghost predicate IsRun(config: Config, replies: nat -> Reply, r: nat, delays: seq<real>, out: Outcome) {
    && |delays| == r
    && (forall k :: 0 <= k < r ==>
          IsRetried(config, replies(k), k) && delays[k] == DelayAfter(replies(k), k))
    && (if Retriable(config, replies(r)) && r < config.maxRetries
        then AsksImpossibleDelay(config, replies(r), r) && out == RaisedSleepError
        else out == Ending(replies(r)))
  }

  /** A client given by the caller is left open; one made here is closed exactly once, however the run ends. */
  method SendRequest(config: Config, replies: nat -> Reply, client: Client?)
    returns (active: Client, delays: seq<real>, out: Outcome)
    modifies client
    ensures client != null ==> active == client && active.closes == old(client.closes)
    ensures client != null ==> active.sent == old(client.sent) + |delays| + 1
    ensures client == null ==> fresh(active) && active.closes == 1 && active.sent == |delays| + 1
    ensures IsRun(config, replies, |delays|, delays, out)
  {
    if client == null {
      active := new Client();
    } else {
      active := client;
    }
    delays, out := Attempts(config, replies, active);
    if client == null {
      active.Close();
    }
  }

  /** The loop inside the try block. */
  method Attempts(config: Config, replies: nat -> Reply, active: Client) returns (delays: seq<real>, out: Outcome)
    modifies active`sent
    ensures active.sent == old(active.sent) + |delays| + 1
    ensures IsRun(config, replies, |delays|, delays, out)
  {
    delays := [];
    var attempt: nat := 0;
    while true
      invariant attempt == |delays| && active.sent == old(active.sent) + attempt
      invariant forall k :: 0 <= k < attempt ==>
                  IsRetried(config, replies(k), k) && delays[k] == DelayAfter(replies(k), k)
      decreases config.maxRetries - attempt
    {
      var reply := active.Request(replies, attempt);
      match reply {
        case Response(status, header) =>
          if status in config.statuses && attempt < config.maxRetries {
            attempt := attempt + 1;
            var delay := GetRetryDelay(header, attempt);
            if !CanSleep(config, delay) {
              return delays, RaisedSleepError;
            }
            delays := delays + [delay.value];
          } else if Succeeds(status) {
            return delays, Returned(status);
          } else {
            return delays, RaisedStatusError(status);
          }
        case TransportError =>
          if attempt >= config.maxRetries {
            return delays, RaisedTransportError;
          }
          var delay := Backoff(attempt);
          attempt := attempt + 1;
          if !CanSleep(config, Some(delay)) {
            return delays, RaisedSleepError;
          }
          delays := delays + [delay];
        case OtherError =>
          return delays, RaisedOtherError;
      }
    }
  }

  // ---- consequences ----

  /** At most max_retries + 1 requests are sent, one when max_retries is negative. */
  lemma RetriesAreBounded(config: Config, replies: nat -> Reply, r: nat, delays: seq<real>, out: Outcome)
    requires IsRun(config, replies, r, delays, out)
    ensures r <= if config.maxRetries >= 0 then config.maxRetries else 0
    ensures forall k :: 0 <= k < |delays| ==> 0.0 <= delays[k] <= config.maxSleep
  {
    if r > 0 {
      assert IsRetried(config, replies(r - 1), r - 1);
    }
    forall k | 0 <= k < |delays| ensures 0.0 <= delays[k] <= config.maxSleep {
      assert delays[k] == DelayAfter(replies(k), k);
    }
  }

  /** The replies determine the run. */
  lemma RunsAreDetermined(config: Config, replies: nat -> Reply, r: nat, delays: seq<real>, out: Outcome,
                          r': nat, delays': seq<real>, out': Outcome)
    requires IsRun(config, replies, r, delays, out) && IsRun(config, replies, r', delays', out')
    ensures r == r' && delays == delays' && out == out'
  {
    assert !IsRetried(config, replies(r), r) && !IsRetried(config, replies(r'), r');
  }

  predicate HasSeconds(reply: Reply) {
    reply.Response? && reply.header.Seconds?
  }

  /** Without Retry-After seconds, delay k is 2^(k - 1) whatever caused it, and r retries sleep 2^r - 1. */
  lemma {:induction false} BackoffDoubles(delays: seq<real>, replies: nat -> Reply)
    requires forall k :: 0 <= k < |delays| ==> delays[k] == DelayAfter(replies(k), k) && !HasSeconds(replies(k))
    ensures Sum(delays) == (Pow2(|delays|) - 1) as real
  {
    if delays != [] {
      BackoffDoubles(delays[..|delays| - 1], replies);
    }
  }

  lemma RunSleeps(config: Config, replies: nat -> Reply, r: nat, delays: seq<real>, out: Outcome)
    requires IsRun(config, replies, r, delays, out)
    requires forall k :: 0 <= k < r ==> !HasSeconds(replies(k))
    ensures Sum(delays) == (Pow2(r) - 1) as real
    ensures forall k :: 0 <= k < r ==> delays[k] == Pow2(k) as real
  {
    BackoffDoubles(delays, replies);
    forall k | 0 <= k < r ensures delays[k] == Pow2(k) as real {
      assert delays[k] == DelayAfter(replies(k), k) && !HasSeconds(replies(k));
    }
  }

  ghost predicate AllRetriedBefore(config: Config, replies: nat -> Reply, k: nat) {
    forall j :: 0 <= j < k ==> IsRetried(config, replies(j), j)
  }

  /** Reply k is a success that is not to be retried, and everything before it is. */
  ghost predicate SuccessInReach(config: Config, replies: nat -> Reply, k: nat) {
    && replies(k).Response? && Succeeds(replies(k).status)
    && (replies(k).status in config.statuses ==> k >= config.maxRetries)
    && AllRetriedBefore(config, replies, k)
  }

  /** A response is returned exactly when such a success exists, and it is that one: it passed
      raise_for_status. The caller may even ask for successes to be retried. */
  lemma ReturnsExactlySuccesses(config: Config, replies: nat -> Reply, r: nat, delays: seq<real>, out: Outcome)
    requires IsRun(config, replies, r, delays, out)
    ensures out.Returned? <==> exists k: nat :: SuccessInReach(config, replies, k)
    ensures out.Returned? ==> SuccessInReach(config, replies, r) && out.status == replies(r).status
  {
    if out.Returned? {
      assert SuccessInReach(config, replies, r);
    }
    if k: nat :| SuccessInReach(config, replies, k) {
      assert !IsRetried(config, replies(k), k) && !IsRetried(config, replies(r), r);
      assert k == r;
    }
  }

  /** Without retries the status alone decides: 200 to 299 is returned, everything else raises. */
  lemma PlainRequest(statuses: set<int>, maxSleep: real, reply: Reply, r: nat, delays: seq<real>, out: Outcome)
    requires IsRun(Config(0, statuses, maxSleep), k => reply, r, delays, out)
    ensures r == 0 && delays == []
    ensures out == match reply
                   case TransportError => RaisedTransportError
                   case OtherError => RaisedOtherError
                   case Response(status, _) =>
                     if 200 <= status < 300 then Returned(status) else RaisedStatusError(status)
  {
    RetriesAreBounded(Config(0, statuses, maxSleep), k => reply, r, delays, out);
  }

  /** Reply k is to be retried, after a delay nobody can sleep. */
  ghost predicate BadDelayInReach(config: Config, replies: nat -> Reply, k: nat) {
    && Retriable(config, replies(k)) && k < config.maxRetries && AsksImpossibleDelay(config, replies(k), k)
    && AllRetriedBefore(config, replies, k)
  }

  /** The run ends with the error of the sleep exactly when a reply in reach names such a delay. */
  lemma SleepErrorExactlyWhenBadDelay(config: Config, replies: nat -> Reply, r: nat, delays: seq<real>, out: Outcome)
    requires IsRun(config, replies, r, delays, out)
    ensures out == RaisedSleepError <==> exists k: nat :: BadDelayInReach(config, replies, k)
  {
    if out == RaisedSleepError {
      assert BadDelayInReach(config, replies, r);
    }
    if k: nat :| BadDelayInReach(config, replies, k) {
      assert !IsRetried(config, replies(k), k) && !IsRetried(config, replies(r), r);
      assert k == r;
    }
  }

  /** Busy once, with a wait of minus one second asked for, then fine. */
  function BusyOnce(k: nat): Reply {
    if k == 0 then Response(503, Seconds(-1.0)) else Response(200, NoHeader)
  }

  /** That server makes the call raise at its first reply, with retries left and a success to come. */
  lemma NegativeRetryAfterRaises(maxSleep: real, r: nat, delays: seq<real>, out: Outcome)
    requires IsRun(Config(3, {503}, maxSleep), BusyOnce, r, delays, out)
    ensures out == RaisedSleepError && r == 0
  {
    var config := Config(3, {503}, maxSleep);
    assert BadDelayInReach(config, BusyOnce, 0);
    SleepErrorExactlyWhenBadDelay(config, BusyOnce, r, delays, out);
    assert !IsRetried(config, BusyOnce(0), 0);
  }

  /** Doubling runs into the limit by itself: without waits from the server there are at most n retries when
      2^n seconds cannot be slept, and retriable replies beyond that end with the error of the sleep. */
  lemma DoublingRunsOut(config: Config, replies: nat -> Reply, r: nat, delays: seq<real>, out: Outcome, n: nat)
    requires IsRun(config, replies, r, delays, out) && Backoff(n) > config.maxSleep
    requires forall k: nat :: k <= n ==> !HasSeconds(replies(k))
    ensures r <= n
    ensures n < config.maxRetries && r == n && Retriable(config, replies(n)) ==> out == RaisedSleepError
  {
    assert !HasSeconds(replies(n)) && AsksImpossibleDelay(config, replies(n), n);
    assert !IsRetried(config, replies(n), n);
  }

  /** When everything is retriable, all retries are used and the last reply decides. */
  lemma ExhaustedRunEndsWithLastReply(config: Config, replies: nat -> Reply, r: nat, delays: seq<real>, out: Outcome)
    requires IsRun(config, replies, r, delays, out) && config.maxRetries >= 0
    requires forall k: nat :: k <= config.maxRetries ==> Retriable(config, replies(k))
    requires forall k: nat :: k < config.maxRetries ==> !AsksImpossibleDelay(config, replies(k), k)
    ensures r == config.maxRetries && out == Ending(replies(config.maxRetries))
  {
    RetriesAreBounded(config, replies, r, delays, out);
  }
}
