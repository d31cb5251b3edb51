# Volcengine speech-recognition client, modelled in Dafny

This project models the core of `VolcengineASR` in `asr_test.py`. That class
submits an audio file to Volcengine's recognition service. It then polls the
task every two seconds until the service reports success (code 1000) or failure
(any other code below 2000), or until more than `max_wait_time` has elapsed.
Finally it flattens the nested `utterances`/`words` payload into one list of
`{text, start_time, end_time}` records.

The project has five modules:

- `Wrappers` (`wrappers.dfy`): `Option` and `Result`.
- `Wire` (`wire.dfy`): the decoded JSON replies, the output record and the
  error kinds. A key the reply may lack is an `Option`. Reading an absent key
  raises `KeyError` in the source, and here it is `MissingKey(key)`.
- `Client` (`client.dfy`): the client's fields (`NewClient`), the
  `Authorization` header, the upload guard and the raw-content URL
  (`AudioUrl`), the submission and query bodies, and `submit_task`
  (`SubmitTask`, `TaskIdOf`).
- `Normalizer` (`normalizer.dfy`): `_process_results`. The method
  `ProcessResults` keeps the source's two nested loops that append to
  `results`. It is proved equal to the recursive `NormalizedResults`/`Flatten`,
  and the lemmas about the output are stated on `Flatten`.
- `Poller` (`poller.dfy`): `process_audio`. The method `ProcessAudio` keeps the
  source's `while True` loop. It is proved equal to the recursive
  `ProcessAudioRun`/`PollFrom`, and the lemmas about the loop are stated on
  those.

The service, the clock and the side effects are inputs and outputs:

- An `Environment` holds the reply to the submission, the replies to
  successive queries, and the clock readings. `clock[0]` is the `start_time`
  reading. `clock[i + 1]` is the reading taken after query `i`.
- `Bounded` requires that the last reading given is past the deadline. A real
  clock always gets there, and it means the loop ends within the replies
  supplied.
- Every call returns a trace of `Event`s, in order: `Upload`, `PostSubmit`,
  `Sleep(2)` and `PostQuery`.

Three details of the loop are worth stating:

- The loop sleeps before every query, including the first (asr_test.py:106-108).
  So two pending replies and then a success take three sleeps
  (`HelloScenario`).
- The deadline check raises the timeout only when the elapsed time is strictly
  greater than `max_wait_time` (asr_test.py:115).
- The timeout exception carries only a message (asr_test.py:116), so
  `TimedOut` carries nothing.

The header value is `"Bearer; " + token`, with the semicolon, as written at
asr_test.py:16.

## Model

| member | source | states |
|---|---|---|
| `Client.Authorization` | asr_test.py:16 | the header is the prefix `"Bearer; "` followed by the token, so the token is exactly the rest of the header |
| `Client.NewClient` | asr_test.py:11-18 | the client keeps appid, token, cluster and the GitHub settings as given, the fixed service URL, and the bearer header built from the token |
| `Client.RawUrl` | asr_test.py:99 | the URL is the raw-content host, the repository, `/main/`, then the file name, each part at its fixed offset |
| `Client.AudioUrl` | asr_test.py:63-100 | it fails with `MissingUploadCredentials` exactly when the GitHub token or repository is absent or empty; otherwise it gives the raw URL of the file in that repository |
| `Client.SubmitBody` | asr_test.py:23-39 | the submission carries the client's appid/token/cluster, the uid, the audio URL, format `"mp4"` and `with_speaker_info` as the string `"False"` |
| `Client.QueryBody` | asr_test.py:50-55 | the query carries the given task id and the client's appid, token and cluster, the same credentials as every submission body of that client |
| `Client.TaskIdOf` | asr_test.py:46-47 | the handle is exactly the reply's `resp.id`, unchanged; a missing `resp` or `id` is a `MissingKey` error naming that key |
| `Client.SubmitTask` | asr_test.py:20-47 | without upload credentials nothing happens (empty trace); otherwise exactly one upload, then one submission, and the result is the reply's `resp.id` |
| `Normalizer.RecordOf` | asr_test.py:122-126 | a word becomes a record exactly when text, start_time and end_time are all present, and the record copies them unchanged; otherwise the error names the first missing key in that order |
| `Normalizer.FlattenWords` | asr_test.py:121-126 | a successful flattening of one utterance's words has one record per word; every failure is a missing word field |
| `Normalizer.Flatten` | asr_test.py:120-126 | the empty utterance list gives the empty result; a success has Σ per-utterance word counts records; every failure is a missing `words` or word field |
| `Normalizer.NormalizedResults` | asr_test.py:118-127 | a missing `resp` or `utterances` is an error naming that key; otherwise the result is the flattening of the utterances |
| `Normalizer.FlattenWordsOkIff` | asr_test.py:121-125 | one utterance's words flatten without error if and only if every word is complete |
| `Normalizer.FlattenWordsAt` | asr_test.py:121-126 | in a successful flattening of words, position j holds the unchanged copy of word j |
| `Normalizer.FlattenOkIff` | asr_test.py:120-125 | the utterances flatten without error if and only if every utterance has `words` and every word has all three fields |
| `Normalizer.FlattenWordsErrorPersists` | asr_test.py:121-125 | once a prefix of the words fails, the whole list fails with that same error: nothing is skipped |
| `Normalizer.FlattenErrorPersists` | asr_test.py:120-125 | once a prefix of the utterances fails, the whole list fails with that same error: no partial result |
| `Normalizer.FlattenAt` | asr_test.py:119-127 | order and fields are preserved: word j of utterance i is at position (words of utterances before i) + j, as an unchanged copy |
| `Normalizer.MissingWordsAborts` | asr_test.py:120-121 | an utterance without `words`, after complete ones, makes the whole flattening fail with `MissingKey("words")` |
| `Normalizer.IncompleteWordAborts` | asr_test.py:121-126 | a word missing a field, after complete words, makes its utterance's flattening fail with that word's error |
| `Normalizer.FailingUtteranceAborts` | asr_test.py:120-126 | an utterance whose words fail, after complete utterances, makes the whole flattening fail with that error |
| `Normalizer.ProcessResults` | asr_test.py:118-127 | the nested-loop method computes exactly `NormalizedResults` of the reply, on every error path as well |
| `Normalizer.TwoUtteranceExample` | asr_test.py:119-127 | the two-utterance payload `a`(0-100), `b`(100-200) flattens to those two records in that order |
| `Normalizer.MissingWordsFails` | asr_test.py:121 | removing `words` from any utterance makes the flattening fail |
| `Poller.CodeOf` | asr_test.py:110 | the status code is the reply's `resp.code`; a missing `resp` or `code` is a `MissingKey` error naming that key |
| `Poller.Cycle` | asr_test.py:110-116 | code 1000 gives the flattened results and any other code below 2000 fails with that code, whatever the clock says; a code of 2000 or more stays pending exactly when elapsed ≤ max wait, and times out otherwise; a timeout only ever follows a code ≥ 2000 and a late clock |
| `Poller.ProcessAudioRun` | asr_test.py:102-116 | without upload credentials the call fails before any effect; a submission reply without a handle fails after the upload and the submission, with no sleep and no query |
| `Poller.PendingIsOnTime` | asr_test.py:110-116 | a cycle that keeps polling saw a code ≥ 2000 and an on-time clock |
| `Poller.LateIsFinal` | asr_test.py:115-116 | a cycle whose deadline check is late ends the loop |
| `Poller.OnTimeProgressIsPending` | asr_test.py:112-115 | a code ≥ 2000 with an on-time clock keeps polling |
| `Poller.CheckReply` | asr_test.py:110-116 | the branch sequence of one iteration (code 1000, code < 2000, clock) decides exactly as `Cycle` |
| `Poller.ProcessAudio` | asr_test.py:102-116 | the loop method returns exactly the result and the trace of `ProcessAudioRun` |
| `Poller.ProcessAudioDefault` | asr_test.py:102 | a call without a budget behaves as a call with `max_wait_time` = 300 |
| `Poller.CyclesShape` | asr_test.py:106-108 | the polling effects alternate: a 2-second sleep at every even position and the query at every odd one, so exactly one sleep precedes each query |
| `Poller.FirstFinalFrom` | asr_test.py:106-116 | the search for the first final cycle finds a final one, with every cycle before it pending |
| `Poller.FirstFinal` | asr_test.py:106-116 | the cycle that ends the loop is final, and every cycle before it is pending |
| `Poller.FirstFinalDecides` | asr_test.py:106-116 | if cycles before k are pending and cycle k is final, the loop returns cycle k's result after exactly k + 1 sleeps and k + 1 queries |
| `Poller.PollStopsAtFirstFinal` | asr_test.py:106-116 | every run returns the result of its first final cycle, after exactly one sleep and one query per cycle up to it |
| `Poller.SuccessReturnsThatReply` | asr_test.py:110-111 | code 1000 on query k (after pending ones) returns the flattening of that same reply, with no further query, even on a late clock |
| `Poller.FailureCarriesCode` | asr_test.py:112-113 | a code below 2000 and not 1000 on query k fails with that code, with no further query, even on a late clock |
| `Poller.DeadlineBoundsQueries` | asr_test.py:115-116 | if the check after query j is late, the loop ends by cycle j: no query follows a failed deadline check |
| `Poller.PendingKeepsPolling` | asr_test.py:110-116 | codes ≥ 2000 with on-time checks up to query k never stop the loop: it goes on past cycle k |
| `Poller.TimeoutOnlyWhenLate` | asr_test.py:115-116 | a timeout means the last check was late after a code ≥ 2000, and every earlier reply was ≥ 2000 and on time |
| `Poller.TimeoutWhenLate` | asr_test.py:110-116 | conversely, replies of 2000 or more with on-time checks before query j and a late check after it time out after exactly j + 1 sleep-then-query cycles |
| `Poller.ProcessAudioPollsWithHandle` | asr_test.py:102-116 | after a successful submission with handle `id`, the call is one upload, one submission, then a sleep and a query for `id` per cycle up to the first final one, whose result it returns |
| `Poller.HelloScenario` | asr_test.py:102-127 | handle "T1", two in-progress replies, then code 1000 with the single word "hello" (0-500): the call returns that one record, after one upload, one submission and three sleep-then-query cycles |

## Left out

- Network I/O is not modelled: `requests.post`, `json.dumps` and `json.loads`. A
  transport failure or a reply that is not valid JSON has no counterpart here.
  Replies are inputs that are already decoded.
- JSON values of the wrong type (a `code` that is not a number, a `words` that
  is not a list) are not modelled. Only absent keys are. Field types are fixed:
  strings for `text` and `id`, integers for `code` and the offsets.
- The endpoint resolution with `urljoin(self.service_url, '/submit')` and
  `'/query'` (asr_test.py:42, asr_test.py:57) is a library call. The events
  record the body and the Authorization header, not the URL posted to.
- The GitHub upload (asr_test.py:68-96) is a foreign API plus a file read. This
  covers `Github`, `get_repo`, `open`, `get_contents`, `update_file`,
  `create_file` and the bare `except` that chooses between update and create.
  The model records one `Upload(filename)` event at that point, and failures of
  that API are not modelled.
- `os.path.basename` (asr_test.py:76) is a library call. The file name is an
  input.
- `uuid.uuid4()` (asr_test.py:30) is random. The uid is an input string.
- `time.time()` gives float seconds. Readings here are integers in the same unit
  as `max_wait_time`. `time.sleep(2)` is the `Sleep(2)` event.
- `Poller.ProcessAudio`: only runs whose clock passes the deadline within the
  readings given are modelled (the `Bounded` precondition). If the clock never
  advances and the service stays pending, the source loops forever, and no
  finite input describes that.
- `main()` (asr_test.py:129-155) is left out. It is demo configuration and
  printing.
