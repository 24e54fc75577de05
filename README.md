# Batched record ingestion: a Dafny model

This project models the control logic of a small job. The job reads records
from a CSV file and posts them to a bulk-ingestion HTTP endpoint in batches
of `BATCH_SIZE` (100). It tallies the success and failure counts the endpoint
reports and sleeps one pacing slot after each processed batch. All of it lives
in `app/data_ingestion.py`. Three pieces are modelled:

- **Batcher** (`batching.dfy`, module `Batching`): `batch_data` becomes the
  recursive function `BatchData`. Each step takes the clipped slice
  `data[0:size]` and goes on after it.
- **Response classifier** (`api_errors.dfy`, module `ApiErrors`):
  `handle_api_errors` becomes the method `HandleApiErrors`. It takes the
  outcome of one submission: no response, or a `Response` with a status and
  the already-decoded optional `success_count` / `failed_count`. It returns
  whether the batch is skipped. On 429 it also returns the wait it chose. The
  `random.randint(1, 5)` draw is a nondeterministic choice in 1..5.
  `IsRetryable` is the classification it is proved against.
- **Ingestion loop** (`ingestion.dfy`, module `Ingestion`): the `for` loop
  of `main` becomes the method `Run`. It has the two counters, a count of
  pacing sleeps (`paced`), the list of rate-limit waits (`backoffs`) and the
  list of batches posted (`sent`). The HTTP post is an oracle
  `submit: nat -> Option<Response>`, where `submit(k)` is the outcome of
  posting batch `k`. `Run` is proved equal to the specification function
  `Expected`. `Expected` sums, over the outcomes in batch order, what each
  contributes (`Contribution`):
  - a retryable outcome adds no records and no pacing sleep;
  - a processed outcome adds its counts, with a missing field counted as 0, and one sleep.

`wrappers.dfy` holds the `Option` type.

The model follows what the code does where its own comments and log
messages promise something else:

- A retryable outcome does not cause a retry. The comments and log messages
  of `handle_api_errors` (lines 51, 54, 56, 60-61) speak of retrying, but
  line 82 `continue`s to the *next* batch. The skipped batch is posted once,
  never resubmitted, and counted neither as successful nor as failed
  (`ServerErrorsDropTheBatch`).
- Every status other than 429 and 500 and above is processed the same way.
  That includes 2xx, which line 65 also logs as an error. The comment at
  line 64 says such responses are logged and ignored, but lines 84-86 add
  the counts from their body. A 404 whose body carries counts is therefore
  tallied (`ClientErrorIsTallied`).
- The pacing sleep happens only after a processed batch, never after a skipped one.

## Model

| member | source | states |
|---|---|---|
| `Batching.BatchData` | app/data_ingestion.py:33-36 | there are no batches exactly when the input is empty; every batch is non-empty and holds at most `batch_size` records |
| `Batching.FlattenBatchData` | app/data_ingestion.py:35-36 | concatenating the batches gives back the input exactly, in order |
| `Batching.BatchCount` | app/data_ingestion.py:35 | the number of batches is ceil(len(data) / batch_size) |
| `Batching.BatchAt` | app/data_ingestion.py:35-36 | batch k starts at offset k*batch_size inside the data and is the slice `data[k*B : k*B+B]`, clipped at the end |
| `Batching.FullBatches` | app/data_ingestion.py:35-36 | every batch but the last holds exactly `batch_size` records |
| `Batching.LastBatch` | app/data_ingestion.py:35-36 | the last batch holds `len(data) % B` records, or `B` when that remainder is 0 |
| `ApiErrors.HandleApiErrors` | app/data_ingestion.py:48-66 | skip is true exactly for no response, 429, or status >= 500; a 2xx is never skipped; a backoff is chosen exactly on 429, and it lies in 1..5 |
| `Ingestion.Run` | app/data_ingestion.py:75-89 | the batches are posted once each, in order, and together they are the whole input; the final counters, the number of pacing sleeps and the number of rate-limit waits are those of `Expected` over the oracle's outcomes; every wait is in 1..5 |
| `Ingestion.ExpectedAppend` | app/data_ingestion.py:78-86 | the tally of two consecutive runs of batches is the sum of their tallies |
| `Ingestion.AllRetryableAddsNothing` | app/data_ingestion.py:81-82 | if every outcome is retryable, both counters and the number of pacing sleeps stay 0 |
| `Ingestion.PacedEqualsProcessed` | app/data_ingestion.py:81-89 | the number of pacing sleeps equals the number of batches the classifier keeps; a skipped batch gets none |
| `Ingestion.PacedOncePerProcessedBatch` | app/data_ingestion.py:81-89 | there are never more pacing sleeps than batches; there is one sleep per batch exactly when no batch was skipped |
| `Ingestion.DeliveredBatchesTallyAll` | app/data_ingestion.py:84-86 | if each response is a 2xx that reports every record of its batch as a success, the tally is (all records, 0) with one sleep per batch |
| `Ingestion.AllDeliveredRun` | app/data_ingestion.py:75-89 | with an endpoint that delivers every batch in full, the run counts every input record as a success, none as failed, and sleeps ceil(n/B) times |
| `Ingestion.TwoHundredFiftyRecords` | app/data_ingestion.py:78-89 | 250 records at the default batch size of 100 make batches of 100, 100 and 50; delivering them all gives successful 250, failed 0 and 3 pacing sleeps |
| `Ingestion.ServerErrorsDropTheBatch` | app/data_ingestion.py:59-82 | 10 records against an endpoint that always answers 500 make one batch; it adds nothing to either counter and gets no pacing sleep; by `Run`'s contract it is posted once |
| `Ingestion.ClientErrorIsTallied` | app/data_ingestion.py:63-89 | a 404 whose body carries counts is processed: its counts are added and it gets one pacing sleep |

## Left out

- `read_csv` (lines 23-31): file I/O and CSV parsing. The records are a given sequence of `map<string, string>`. A missing file makes the source return the empty list, which `Run` handles as zero batches (`Batching.BatchData`).
- `ingest_data` and `requests.post` (lines 38-46): the HTTP transport is a foreign call. It is replaced by the `submit` oracle. A raised `RequestException` is the oracle's `None`.
- `response.json()` (line 84): JSON decoding is a foreign call. The body arrives already decoded as two optional integers. A field is either missing (counted as 0) or an integer. These bodies of a processed response are not modelled: a body that is not JSON (`response.json()` raises), a body that is not a JSON object such as a list (`.get` raises AttributeError), a `null` or string field value (`+=` raises TypeError), and a float field value (the counters become floats).
- `time.sleep` (lines 57 and 89) and the float `60 / API_RATE_LIMIT`: these block on the wall clock and use floating point. The model counts pacing sleeps and records the chosen rate-limit waits instead of modelling durations.
- `random.randint(1, 5)` (line 55): only its inclusive 1..5 range is kept, as a nondeterministic choice.
- The logging calls, the logging setup and the configuration constants (lines 9-21). `DefaultBatchSize` stands for `BATCH_SIZE`. `TRANSACTION_API_URL` is never used by the code.
- A batch size of 0 or less: Python's `range` raises at step 0 and yields nothing for a negative step. The model requires `batchSize > 0`.
- Retry controllers (same-batch retry, bounded retry, exponential backoff): the code has none.
