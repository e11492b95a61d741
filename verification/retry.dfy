/** The retry loop `make_api_request`: up to five GET attempts, a fixed
    exponential backoff after a rate-limit (429) or a non-HTTP exception, an
    immediate re-raise of any other HTTP error, and `None` once the attempts
    run out. The network is replaced by an oracle giving the outcome of
    attempt k; `time.sleep` is recorded as the list of delays taken. */
module Retry {

  /** What one attempt (`requests.get` then `raise_for_status`) produced. */
  datatype Attempt<T> =
    | Ok(response: T)            // the status passed `raise_for_status`
    | HttpFailure(status: int)   // `raise_for_status` raised `HTTPError` with this status
    | OtherFailure               // any other exception (connection reset, timeout, ...)

  /** What `make_api_request` gives its caller. */
  datatype Reply<T> =
    | Response(value: T)   // returned the response
    | Reraised(status: int) // re-raised the `HTTPError`
    | NoResponse           // returned `None` after the last attempt

  /** A reply, the number of attempts made, and the sleeps taken, in order. */
  datatype RequestRun<T> = RequestRun(reply: Reply<T>, attempts: nat, delays: seq<nat>)

  const MaxAttempts: nat := 5
  const TooManyRequests: int := 429

  function Pow2(k: nat): (r: nat)
    ensures r >= 1
  {
    if k == 0 then 1 else 2 * Pow2(k - 1)
  }

  /** The sleep after failed attempt k (0-indexed): `2 ** attempt`. */
  function Backoff(k: nat): nat {
    Pow2(k)
  }

  /** An outcome after which the loop sleeps and tries again. */
  predicate Retryable<T>(a: Attempt<T>) {
    a.OtherFailure? || (a.HttpFailure? && a.status == TooManyRequests)
  }

  /** Every attempt from lo up to (not including) hi fails in a retryable way. */
  predicate RetriedBetween<T>(outcome: nat -> Attempt<T>, lo: int, hi: int) {
    forall j: nat :: lo <= j < hi ==> Retryable(outcome(j))
  }

  lemma RetriedExtend<T>(outcome: nat -> Attempt<T>, lo: nat, hi: int)
    requires Retryable(outcome(lo)) && RetriedBetween(outcome, lo + 1, hi)
    ensures RetriedBetween(outcome, lo, hi)
  {
  }

  /** Every one of the five attempts fails in a retryable way. */
  predicate AllRetryable<T>(outcome: nat -> Attempt<T>) {
    RetriedBetween(outcome, 0, MaxAttempts)
  }

  /** Attempt d is the first one that ends the loop early (a success or a
      fatal HTTP error): a reference description of where the loop stops. */
  predicate FirstDecisive<T>(outcome: nat -> Attempt<T>, d: nat) {
    && d < MaxAttempts
    && !Retryable(outcome(d))
    && RetriedBetween(outcome, 0, d)
  }

  /** The loop from attempt k onwards. */
  function RetryFrom<T(==)>(outcome: nat -> Attempt<T>, k: nat): (r: RequestRun<T>)
    requires k <= MaxAttempts
    ensures k + r.attempts <= MaxAttempts
    ensures k < MaxAttempts ==> 1 <= r.attempts
    ensures r.reply.Response? ==>
      r.attempts >= 1 && outcome(k + r.attempts - 1) == Ok(r.reply.value)
    ensures r.reply.Reraised? ==>
      && r.attempts >= 1
      && outcome(k + r.attempts - 1) == HttpFailure(r.reply.status)
      && r.reply.status != TooManyRequests
    ensures r.reply.NoResponse? ==>
      k + r.attempts == MaxAttempts && RetriedBetween(outcome, k, MaxAttempts)
    decreases MaxAttempts - k
  {
    if k == MaxAttempts then
      RequestRun(NoResponse, 0, [])
    else if Retryable(outcome(k)) then
      var rest := RetryFrom(outcome, k + 1);
      RequestRun(rest.reply, rest.attempts + 1, [Backoff(k)] + rest.delays)
    else if outcome(k).Ok? then
      RequestRun(Response(outcome(k).response), 1, [])
    else
      RequestRun(Reraised(outcome(k).status), 1, [])
  }

  /** The schedule of the loop from attempt k: every attempt before the last
      was retried, and each retry slept `2^j` after attempt j. */
  lemma {:induction false} RetrySchedule<T>(outcome: nat -> Attempt<T>, k: nat)
    requires k <= MaxAttempts
    ensures var r := RetryFrom(outcome, k);
      && RetriedBetween(outcome, k, k + r.attempts - 1)
      && |r.delays| == (if r.reply.NoResponse? then r.attempts else r.attempts - 1)
      && BackoffsFrom(k, r.delays)
    decreases MaxAttempts - k
  {
    if k < MaxAttempts && Retryable(outcome(k)) {
      var rest := RetryFrom(outcome, k + 1);
      var r := RetryFrom(outcome, k);
      assert r == RequestRun(rest.reply, rest.attempts + 1, [Backoff(k)] + rest.delays);
      RetrySchedule(outcome, k + 1);
      RetriedExtend(outcome, k, k + r.attempts - 1);
      BackoffsShift(k, rest.delays);
    }
  }

  /** The j-th sleep in `delays` is the one taken after attempt k + j. */
  predicate BackoffsFrom(k: nat, delays: seq<nat>) {
    forall j :: 0 <= j < |delays| ==> delays[j] == Backoff(k + j)
  }

  lemma BackoffsShift(k: nat, delays: seq<nat>)
    requires BackoffsFrom(k + 1, delays)
    ensures BackoffsFrom(k, [Backoff(k)] + delays)
  {
    forall j | 0 < j < |delays| + 1
      ensures ([Backoff(k)] + delays)[j] == Backoff(k + j)
    {
      assert ([Backoff(k)] + delays)[j] == delays[j - 1];
      assert k + 1 + (j - 1) == k + j;
    }
  }

  /** `make_api_request(url)` for a GET whose attempts end as `outcome` says. */
  function MakeApiRequest<T(==)>(outcome: nat -> Attempt<T>): (r: RequestRun<T>)
    ensures 1 <= r.attempts <= MaxAttempts
    ensures forall j :: 0 <= j < r.attempts - 1 ==> Retryable(outcome(j))
    ensures r.reply.Response? ==> outcome(r.attempts - 1) == Ok(r.reply.value)
    ensures r.reply.Reraised? ==>
      outcome(r.attempts - 1) == HttpFailure(r.reply.status) && r.reply.status != TooManyRequests
    ensures r.reply.NoResponse? <==> AllRetryable(outcome)
    ensures r.reply.NoResponse? ==> r.attempts == MaxAttempts
    ensures |r.delays| == (if r.reply.NoResponse? then r.attempts else r.attempts - 1)
    ensures forall j :: 0 <= j < |r.delays| ==> r.delays[j] == Backoff(j)
  {
    RetrySchedule(outcome, 0);
    RetryFrom(outcome, 0)
  }

  /** The loop stops exactly at the first decisive attempt, having slept once
      after each earlier attempt. */
  lemma StopsAtFirstDecisive<T>(outcome: nat -> Attempt<T>, d: nat)
    requires FirstDecisive(outcome, d)
    ensures var r := MakeApiRequest(outcome);
      && r.attempts == d + 1
      && |r.delays| == d
      && (outcome(d).Ok? ==> r.reply == Response(outcome(d).response))
      && (outcome(d).HttpFailure? ==> r.reply == Reraised(outcome(d).status))
  {
  }

  lemma StopsAtFirstDecisiveAll<T>(outcome: nat -> Attempt<T>)
    ensures forall d :: FirstDecisive(outcome, d) ==>
      && (outcome(d).Ok? ==> MakeApiRequest(outcome).reply == Response(outcome(d).response))
      && (outcome(d).HttpFailure? ==> MakeApiRequest(outcome).reply == Reraised(outcome(d).status))
  {
    forall d | FirstDecisive(outcome, d) {
      StopsAtFirstDecisive(outcome, d);
    }
  }

  /** Either all five attempts are retryable failures, or some attempt is the
      first decisive one. */
  lemma DecisiveOrExhausted<T>(outcome: nat -> Attempt<T>)
    ensures AllRetryable(outcome) || exists d :: FirstDecisive(outcome, d)
  {
    var r := MakeApiRequest(outcome);
    if !r.reply.NoResponse? {
      assert FirstDecisive(outcome, r.attempts - 1);
    }
  }

  function Sum(s: seq<nat>): nat {
    if s == [] then 0 else s[0] + Sum(s[1..])
  }

  /** Five retryable failures in a row: `None` after sleeping 1, 2, 4, 8 and
      16, 31 in all, with no sixth attempt. */
  lemma ExhaustionSchedule<T>(outcome: nat -> Attempt<T>)
    requires AllRetryable(outcome)
    ensures var r := MakeApiRequest(outcome);
      && r.reply == NoResponse
      && r.attempts == 5
      && r.delays == [1, 2, 4, 8, 16]
      && Sum(r.delays) == 31
  {
    var r := MakeApiRequest(outcome);
    assert Pow2(1) == 2 && Pow2(2) == 4 && Pow2(3) == 8 && Pow2(4) == 16;
    assert r.delays == [Backoff(0), Backoff(1), Backoff(2), Backoff(3), Backoff(4)];
    var s: seq<nat> := [1, 2, 4, 8, 16];
    assert s[1..] == [2, 4, 8, 16] && s[1..][1..] == [4, 8, 16];
    assert s[1..][1..][1..] == [8, 16] && s[1..][1..][1..][1..] == [16];
    assert Sum([16]) == 16;
  }

  /** Four transient failures then a success on the fifth attempt: the
      response, after sleeps 1, 2, 4 and 8. */
  lemma SuccessOnLastAttempt<T>(outcome: nat -> Attempt<T>, v: T)
    requires forall j :: 0 <= j < 4 ==> Retryable(outcome(j))
    requires outcome(4) == Ok(v)
    ensures var r := MakeApiRequest(outcome);
      r.reply == Response(v) && r.attempts == 5 && r.delays == [1, 2, 4, 8]
  {
  }
}
