/**
 * The ingestion loop of `main`: walk the batches in order, submit each once,
 * skip a batch the classifier calls retryable, and otherwise add the reported
 * counts to the tally and sleep one pacing slot.
 */
module Ingestion {
  import opened Wrappers
  import opened Batching
  import opened ApiErrors

  /** One CSV row: header name to cell text. */
  type Record = map<string, string>

  /** `BATCH_SIZE`. */
  const DefaultBatchSize: nat := 100

  /** What a run adds up: the two record tallies, the pacing sleeps and the rate-limit waits. */
  datatype Summary = Summary(successful: int, failed: int, paced: nat, rateLimited: nat)

  function Add(a: Summary, b: Summary): Summary
  {
    Summary(a.successful + b.successful, a.failed + b.failed, a.paced + b.paced, a.rateLimited + b.rateLimited)
  }

  const Zero := Summary(0, 0, 0, 0)

  /**
   * What one batch's outcome adds: nothing but a possible rate-limit wait when
   * it is retryable; its counts (0 for a missing field) and one pacing sleep
   * otherwise.
   */
  function Contribution(response: Option<Response>): Summary
  {
    match response
    case None => Zero
    case Some(r) =>
      if IsRetryable(Some(r.status)) then
        Summary(0, 0, 0, if r.status == TooManyRequests then 1 else 0)
      else
        Summary(r.successCount.GetOr(0), r.failedCount.GetOr(0), 1, 0)
  }

  /** The summary of a sequence of outcomes, one per batch in order. */
  function Expected(responses: seq<Option<Response>>): Summary
    decreases |responses|
  {
    if responses == [] then Zero
    else Add(Expected(responses[..|responses| - 1]), Contribution(responses[|responses| - 1]))
  }

  lemma ContributionStep(responses: seq<Option<Response>>, k: nat)
    requires k < |responses|
    ensures Expected(responses[..k + 1]) == Add(Expected(responses[..k]), Contribution(responses[k]))
  {
    assert responses[..k + 1][..k] == responses[..k];
  }

  /** The outcomes the oracle gives for batches 0 .. n-1. */
  function Responses(n: nat, submit: nat -> Option<Response>): seq<Option<Response>>
  {
    seq(n, k requires 0 <= k < n => submit(k))
  }

  /**
   * The loop of `main`. `submit(k)` is the outcome of posting batch `k`.
   * `sent` lists the batches in the order they were posted, `backoffs` the
   * waits chosen on 429 responses, `paced` counts the pacing sleeps.
   */
  method Run(data: seq<Record>, batchSize: nat, submit: nat -> Option<Response>)
    returns (successful: int, failed: int, paced: nat, backoffs: seq<int>, sent: seq<seq<Record>>)
    requires batchSize > 0
    ensures sent == BatchData(data, batchSize)
    ensures Flatten(sent) == data
    ensures Summary(successful, failed, paced, |backoffs|) == Expected(Responses(|sent|, submit))
    ensures forall w :: w in backoffs ==> MinBackoff <= w <= MaxBackoff
  {
    var batches := BatchData(data, batchSize);
    ghost var responses := Responses(|batches|, submit);
    successful, failed, paced, backoffs, sent := 0, 0, 0, [], [];
    for k := 0 to |batches|
      invariant sent == batches[..k]
      invariant Summary(successful, failed, paced, |backoffs|) == Expected(responses[..k])
      invariant forall w :: w in backoffs ==> MinBackoff <= w <= MaxBackoff
    {
      var response := submit(k);
      sent := sent + [batches[k]];
      assert responses[k] == response;
      ContributionStep(responses, k);
      var skip, backoff := HandleApiErrors(response);
      if backoff.Some? {
        backoffs := backoffs + [backoff.value];
      }
      if skip {
        assert Contribution(response) == Summary(0, 0, 0, if backoff.Some? then 1 else 0);
        continue;
      }
      var body := response.value;
      assert Contribution(response) == Summary(body.successCount.GetOr(0), body.failedCount.GetOr(0), 1, 0);
      successful := successful + body.successCount.GetOr(0);
      failed := failed + body.failedCount.GetOr(0);
      paced := paced + 1;
    }
    assert responses[..|batches|] == responses;
    FlattenBatchData(data, batchSize);
  }

  /** Appending one outcome adds its contribution. */
  lemma ExpectedSnoc(init: seq<Option<Response>>, last: Option<Response>)
    ensures Expected(init + [last]) == Add(Expected(init), Contribution(last))
  {
    var s := init + [last];
    assert s[..|s| - 1] == init;
  }

  /** The summary is additive over consecutive runs of batches. */
  lemma {:induction false} ExpectedAppend(a: seq<Option<Response>>, b: seq<Option<Response>>)
    ensures Expected(a + b) == Add(Expected(a), Expected(b))
    decreases |b|
  {
    if b == [] {
      assert a + b == a;
      assert Expected(b) == Zero;
      assert Add(Expected(a), Zero) == Expected(a);
    } else {
      var init, last := b[..|b| - 1], b[|b| - 1];
      assert b == init + [last];
      assert a + b == (a + init) + [last];
      calc {
        Expected(a + b);
        Expected((a + init) + [last]);
        { ExpectedSnoc(a + init, last); }
        Add(Expected(a + init), Contribution(last));
        { ExpectedAppend(a, init); }
        Add(Add(Expected(a), Expected(init)), Contribution(last));
        Add(Expected(a), Add(Expected(init), Contribution(last)));
        { ExpectedSnoc(init, last); }
        Add(Expected(a), Expected(b));
      }
    }
  }

  /** When every outcome is retryable, no record is tallied and no pacing sleep happens. */
  lemma {:induction false} AllRetryableAddsNothing(responses: seq<Option<Response>>)
    requires forall k :: 0 <= k < |responses| ==> IsRetryable(StatusOf(responses[k]))
    ensures Expected(responses).successful == 0
    ensures Expected(responses).failed == 0
    ensures Expected(responses).paced == 0
    decreases |responses|
  {
    if responses != [] {
      var init, last := responses[..|responses| - 1], responses[|responses| - 1];
      assert responses == init + [last];
      forall k | 0 <= k < |init| ensures IsRetryable(StatusOf(init[k])) {
        assert init[k] == responses[k];
      }
      var c := Contribution(last);
      assert c.successful == 0 && c.failed == 0 && c.paced == 0;
      ExpectedSnoc(init, last);
      AllRetryableAddsNothing(init);
    }
  }

  /** The number of outcomes the classifier keeps for processing. */
  function CountProcessed(responses: seq<Option<Response>>): nat
    decreases |responses|
  {
    if responses == [] then 0
    else CountProcessed(responses[1..]) + (if IsRetryable(StatusOf(responses[0])) then 0 else 1)
  }

  /** The pacing sleep happens exactly once per processed batch and never for a skipped one. */
  lemma {:induction false} PacedEqualsProcessed(responses: seq<Option<Response>>)
    ensures Expected(responses).paced == CountProcessed(responses)
    decreases |responses|
  {
    if responses != [] {
      var first, rest := responses[0], responses[1..];
      assert responses == [first] + rest;
      PacedEqualsProcessed(rest);
      ExpectedAppend([first], rest);
      assert [] + [first] == [first];
      ExpectedSnoc([], first);
    }
  }

  /** One pacing sleep per processed batch: the sleeps equal the batches exactly when none was skipped. */
  lemma {:induction false} PacedOncePerProcessedBatch(responses: seq<Option<Response>>)
    ensures Expected(responses).paced <= |responses|
    ensures Expected(responses).paced == |responses| <==>
      forall k :: 0 <= k < |responses| ==> !IsRetryable(StatusOf(responses[k]))
    decreases |responses|
  {
    if responses != [] {
      var n := |responses|;
      var init := responses[..n - 1];
      assert forall k :: 0 <= k < |init| ==> init[k] == responses[k];
      PacedOncePerProcessedBatch(init);
      if Expected(responses).paced == n {
        assert Expected(init).paced == n - 1;
        assert !IsRetryable(StatusOf(responses[n - 1]));
      }
    }
  }

  /** A 2xx response reporting every record of its batch as a success and none as failed. */
  predicate DeliversAll(response: Option<Response>, batch: seq<Record>)
  {
    response.Some? && 200 <= response.value.status < 300 &&
    response.value.successCount == Some(|batch|) && response.value.failedCount == Some(0)
  }

  /** If every batch is delivered in full, the tally counts every record as a success. */
  lemma {:induction false} DeliveredBatchesTallyAll(batches: seq<seq<Record>>, responses: seq<Option<Response>>)
    requires |responses| == |batches|
    requires forall k :: 0 <= k < |batches| ==> DeliversAll(responses[k], batches[k])
    ensures Expected(responses) == Summary(|Flatten(batches)|, 0, |batches|, 0)
    decreases |batches|
  {
    if batches != [] {
      var first, rest := responses[0], responses[1..];
      assert responses == [first] + rest;
      forall k | 0 <= k < |rest| ensures DeliversAll(rest[k], batches[1..][k]) {
        assert rest[k] == responses[k + 1] && batches[1..][k] == batches[k + 1];
      }
      DeliveredBatchesTallyAll(batches[1..], rest);
      ExpectedAppend([first], rest);
      assert [] + [first] == [first];
      ExpectedSnoc([], first);
      assert DeliversAll(first, batches[0]);
      assert Contribution(first) == Summary(|batches[0]|, 0, 1, 0);
      assert Flatten(batches) == batches[0] + Flatten(batches[1..]);
    }
  }

  /**
   * End to end: with an endpoint that delivers every batch in full, the run
   * submits each batch once and counts every record as a success.
   */
  lemma AllDeliveredRun(data: seq<Record>, batchSize: nat, submit: nat -> Option<Response>)
    requires batchSize > 0
    requires forall k :: 0 <= k < |BatchData(data, batchSize)| ==> DeliversAll(submit(k), BatchData(data, batchSize)[k])
    ensures Expected(Responses(|BatchData(data, batchSize)|, submit))
         == Summary(|data|, 0, CeilDiv(|data|, batchSize), 0)
  {
    var batches := BatchData(data, batchSize);
    var responses := Responses(|batches|, submit);
    forall k | 0 <= k < |batches| ensures DeliversAll(responses[k], batches[k]) {
      assert responses[k] == submit(k);
    }
    DeliveredBatchesTallyAll(batches, responses);
    FlattenBatchData(data, batchSize);
    BatchCount(data, batchSize);
  }

  /**
   * 250 records in batches of 100 give three batches of 100, 100 and 50
   * records; delivering them all tallies 250 successes, 0 failures and
   * three pacing sleeps.
   */
  lemma TwoHundredFiftyRecords(data: seq<Record>, submit: nat -> Option<Response>)
    requires |data| == 250
    requires forall k :: 0 <= k < |BatchData(data, DefaultBatchSize)| ==>
      DeliversAll(submit(k), BatchData(data, DefaultBatchSize)[k])
    ensures |BatchData(data, DefaultBatchSize)| == 3
    ensures |BatchData(data, DefaultBatchSize)[0]| == 100
    ensures |BatchData(data, DefaultBatchSize)[1]| == 100
    ensures |BatchData(data, DefaultBatchSize)[2]| == 50
    ensures Expected(Responses(3, submit)) == Summary(250, 0, 3, 0)
  {
    BatchCount(data, DefaultBatchSize);
    FullBatches(data, DefaultBatchSize);
    LastBatch(data, DefaultBatchSize);
    AllDeliveredRun(data, DefaultBatchSize, submit);
  }

  /**
   * 10 records against an endpoint that always answers 500: the one batch is
   * posted once and dropped; nothing is tallied, not even as failed, and no
   * pacing sleep happens.
   */
  lemma ServerErrorsDropTheBatch(data: seq<Record>, submit: nat -> Option<Response>)
    requires |data| == 10
    requires forall k: nat :: submit(k).Some? && submit(k).value.status == 500
    ensures |BatchData(data, DefaultBatchSize)| == 1
    ensures Expected(Responses(1, submit)) == Summary(0, 0, 0, 0)
  {
    BatchCount(data, DefaultBatchSize);
    var responses := Responses(1, submit);
    assert responses[0] == submit(0);
    AllRetryableAddsNothing(responses);
  }

  /** A 404 whose body carries counts is tallied like any other processed response. */
  lemma ClientErrorIsTallied(successCount: int, failedCount: int)
    ensures Expected([Some(Response(404, Some(successCount), Some(failedCount)))])
         == Summary(successCount, failedCount, 1, 0)
  {
    var rs := [Some(Response(404, Some(successCount), Some(failedCount)))];
    assert rs[..0] == [];
  }
}
