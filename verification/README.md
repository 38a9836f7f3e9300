# Vitals kiosk: acquisition and capture logic in Dafny

This project models the decision logic of a vitals-capture kiosk and proves properties about it. The kiosk reads numbers from bedside devices over a serial line. It collects samples for six vital channels during a capture window and commits one value per channel. It then validates the result before review. The model covers these parts:

- **Backend** (`backend/src/server.js`):
  - the device-line parser;
  - the in-memory `latest` reading cache and its `collecting` switch;
  - the one-shot `getNextReading` wait;
  - the single-flight `/api/capture-and-save` gate;
  - `/api/save-latest`.

  Modules: `LineParser`, `Csv`, `CaptureServer`.
- **First-generation server** (`src/server.js`): its line handler. Module: `LegacyServer`.
- **Capture store** (`lib/store.ts`):
  - per-channel `VitalState` records;
  - the capture window;
  - the upper-median commit;
  - the getters.

  The end-of-window sweeps of `app/(routes)/capture/page.tsx` are included; their rows below cite the store actions they call as the source and give the page's own lines in the third column. Modules: `VitalStore`, `Median`.
- **Device sources** (`lib/serial/SerialReader.ts`):
  - the chunk-to-lines decoding and the read loop;
  - connect/close;
  - the simulator's run flag.

  Module: `SerialSource`.
- **Source panel** (`components/SerialConnect.tsx`): the fan-out of a reading into per-channel samples, and the connection/simulation flag handlers. Module: `SourceControl`.
- **Schemas** (`lib/validation.ts`): `vitalsSchema`, `patientSchema`, `insuranceSchema` and `additionalInfoSchema` as predicates. Module: `Validation`.
- **Patient short ids** (`lib/shortId.ts`). Module: `ShortId`.
- **Download file names** (`lib/download.ts`, `generateFilename`). Module: `Download`.

Shared vocabulary lives in `Base`, which holds `Option`, and in `Text`. `Text` covers ECMAScript white space and `trim`, `split` and join on one character, and decimal digit strings.

Modelling conventions:
- Every piece of mutable state is an immutable datatype, and every handler, route, listener or store action is a pure transition function.
- `JSON.parse` is an oracle parameter `decode: string -> Option<J>`. It returns `None` where `JSON.parse` throws.
- `Date.now()` and `Math.random()` are parameters.
- A timer is a deadline held in the state plus a clock event.
- A database write is its outcome, `ok`.
- `localStorage` is a `map<string, string>`.
- The clock reading behind `toISOString()` is either the ISO string itself or an `Instant` record.
- Numbers sampled from devices are `real`.
- Numbers matched by the digit patterns are `nat`.

## Model

| member | source | states |
|---|---|---|
| Text.Trim | backend/src/server.js:82 | the result has no ECMAScript white space at either end and is no longer than the input |
| Text.TrimPadded | backend/src/server.js:82 | a string without white space at its ends, padded on either side with any white space, trims back to itself |
| Text.TrimKeeps | src/server.js:17 | trimming drops white space only: every non-space character of the input survives |
| Text.TrimmedFixed | lib/serial/SerialReader.ts:125 | a string already without white space at its ends is left unchanged by trimming |
| Text.Split | lib/serial/SerialReader.ts:122 | `split` on one character yields at least one piece, no piece contains the separator, and joining the pieces with it rebuilds the input |
| Text.SplitJoin | lib/serial/SerialReader.ts:122 | splitting undoes joining when no piece contains the separator, so one line per piece is recovered exactly |
| Text.Decimal | lib/shortId.ts:13 | `String(n)` is a non-empty digit string denoting `n`, with a leading zero only for 0 |
| Text.LeadingZeros | lib/shortId.ts:15 | zeros put in front of a digit string do not change the number it denotes |
| Text.DecimalLength | lib/shortId.ts:15 | `String(n)` has at most 1, 2, 3 or 4 digits exactly when `n` is below 10, 100, 1000 or 10000 |
| Csv.Fields | backend/src/server.js:91-111 | the anchored `k`-field digit pattern matches only texts with exactly `k` comma-separated pieces, and yields `k` values |
| Csv.FieldsOfRender | backend/src/server.js:91-99 | round trip: numbers printed as decimals joined by commas match with their own count and give back the same numbers in order |
| Csv.FieldsOfJoin | backend/src/server.js:91-111 | any comma-free fields of white space, digits and white space, joined by commas, match and yield each field's value in order |
| Csv.FieldsAlphabet | backend/src/server.js:91-111 | a matching text contains nothing but digits, white space and commas |
| Csv.NoSignsOrDecimals | backend/src/server.js:102-108 | a text containing `-`, `+` or `.` matches no field count |
| LineParser.Record | backend/src/server.js:93-110 | the record has exactly the first `k` field names as keys, each bound to the `k`-th value in order |
| LineParser.Parse | backend/src/server.js:81-114 | any reading returned carries the trimmed line as `raw` and the parse time as `t` |
| LineParser.JsonFirst | backend/src/server.js:85-88 | a line whose trimmed text decodes is accepted with exactly the decoded value, whatever its shape |
| LineParser.CsvLine | backend/src/server.js:90-111 | a non-JSON line of exactly 6, 4 or 2 digit fields gives exactly the first 6, 4 or 2 field names, bound to the fields' values in order |
| LineParser.SixNumberLine | backend/src/server.js:82-99 | six numbers printed with any white-space padding come back as `heart_rate, spo, TempC, TempF, alcohol_detected, alcohol_level` with the trimmed line as `raw` |
| LineParser.OtherCountsRejected | backend/src/server.js:113 | a non-JSON line whose comma count gives a field count other than 6, 4 and 2 yields no reading |
| LineParser.SignedOrFractionalRejected | backend/src/server.js:91-113 | a non-JSON line with a sign or a decimal point yields no reading |
| LegacyServer.OnLine | src/server.js:16-38 | the cache is emptied only by a line that decodes to JSON `null`, and it takes a new value only from a line that decodes or matches two digit fields |
| LegacyServer.JsonNullClears | src/server.js:21-22 | the line `null` sets `latest` back to `null`, whatever it held |
| LegacyServer.JsonReplaces | src/server.js:20-24 | a line whose trimmed text decodes to anything but `null` replaces `latest` with exactly the decoded value, with no time stamp, and the pattern is not consulted |
| LegacyServer.TwoFieldsReplace | src/server.js:27-34 | a non-JSON line of two digit fields stores `{ analog, digital, t: now }` with the two values in order |
| LegacyServer.TwoNumbers | src/server.js:27-34 | two printed numbers with any white-space padding come back as `analog` and `digital` |
| LegacyServer.OtherLinesIgnored | src/server.js:37 | any other line leaves `latest` as it was |
| CaptureServer.GetNextReading | backend/src/server.js:161-173 | without a parser the wait is rejected with the no-device error at once; with one it is pending with deadline `now + timeoutMs` |
| CaptureServer.WaitOnLine | backend/src/server.js:169-172 | a pending wait resolves with the reading of the first parseable line; unparseable lines, and all lines after settling, leave it unchanged |
| CaptureServer.WaitOnClock | backend/src/server.js:173-174 | a pending wait whose deadline has passed is rejected with the timeout error; nothing else changes |
| CaptureServer.Start | backend/src/server.js:63-69 | at start-up nothing is cached, collecting is on, no save is pending and the single-flight invariant holds |
| CaptureServer.PauseCollecting | backend/src/server.js:70-73 | collecting is off afterwards and nothing else changes |
| CaptureServer.ResumeCollecting | backend/src/server.js:75-78 | collecting is on afterwards and nothing else changes |
| CaptureServer.CacheOnLine | backend/src/server.js:183-197 | only `latest` can change; it changes only while collecting and only to the line's reading; while collecting, every parseable line becomes `latest` |
| CaptureServer.CaptureOnLine | backend/src/server.js:169-171 | only the capture can change: a pending capture takes a parseable line's reading on to the database write, and any other line or state leaves the server as it was |
| CaptureServer.OnParserLine | backend/src/server.js:169-197 | a line changes only the cache and the pending capture, and only with a live parser. `latest` moves only while collecting and only to the line's reading. A pending capture moves only to saving that reading, and with a parseable line it always does |
| CaptureServer.OnClock | backend/src/server.js:257-262 | once the pending capture's deadline has passed, the route answers 500 with the timeout error, the capture ends and the flag is lowered; before the deadline or with no wait pending nothing changes |
| CaptureServer.OnCaptureSaveSettled | backend/src/server.js:254-262 | a settled capture write answers 200 on success and 500 with the write error on failure; either way the capture ends and the flag is lowered. With no write pending nothing changes |
| CaptureServer.OnCaptureAndSave | backend/src/server.js:245-250 | when a capture is in flight: 409, state unchanged. Without a parser: the no-device failure with the flag lowered again. Otherwise: no answer yet, flag raised, waiting with a 5000 ms deadline |
| CaptureServer.OnSaveLatest | backend/src/server.js:267-270 | with nothing cached: 409 and no change. Otherwise no answer yet: the cached reading joins the pending writes, and collecting and the cache are untouched |
| CaptureServer.OnSaveLatestSettled | backend/src/server.js:270-277 | a settled write leaves the pending list without it. On success the answer is 200 and collecting is paused; on failure it is 500 and collecting is untouched. Nothing else changes |
| CaptureServer.FrozenAfterSave | backend/src/server.js:270-272 | from a successful save-latest on, no sequence of events changes `latest` or resumes collecting |
| CaptureServer.SaveRace | backend/src/server.js:266-272 | a parseable line that arrives during the write replaces `latest`, so the cache freezes on a reading other than the one saved |
| CaptureServer.SavesOverlap | backend/src/server.js:266-270 | a second save-latest while a write is pending is not refused, and both writes are outstanding |
| CaptureServer.NextValid | backend/src/server.js:245-263 | every event keeps `captureInFlight` raised exactly while a capture request is in progress |
| CaptureServer.RunValid | backend/src/server.js:245-263 | that invariant holds after any sequence of events |
| CaptureServer.BusyFailsFast | backend/src/server.js:246 | a capture request while one is in flight is answered 409 and changes nothing |
| CaptureServer.SecondCaptureIsBusy | backend/src/server.js:245-250 | of two capture requests in a row, the first waits and the second gets 409 at once |
| CaptureServer.NoDeviceFailsFast | backend/src/server.js:161-166 | with no capture in flight, a request without a parser fails at once with the no-device error and leaves the flag lowered |
| CaptureServer.PortErrorDuringCapture | backend/src/server.js:49-54 | a port error while a capture waits removes the parser but leaves the flag raised: a new request gets 409, no line reaches the wait, and it ends only on its timeout |
| CaptureServer.FlagClearedOnCompletion | backend/src/server.js:257-262 | whenever the capture route answers on a timeout or a settled write, the flag is lowered and the capture is over |
| CaptureServer.CaptureTakesFirstParsedLine | backend/src/server.js:169-176 | a pending capture moves to saving exactly the reading of the first parseable line and stays waiting on an unparseable one |
| CaptureServer.ParseMissIsSilent | backend/src/server.js:183-197 | an unparseable line changes nothing: neither the cache nor a pending capture |
| CaptureServer.PausedCacheIsFrozen | backend/src/server.js:188-193 | while collecting is paused, lines never change `latest` |
| CaptureServer.PausedForever | backend/src/server.js:70-78 | no event resumes collecting: once paused, `latest` stays frozen after any sequence of events |
| Median.Insert | lib/store.ts:139 | inserting into a sorted sequence keeps it sorted, one longer, and a permutation of the input plus the new element |
| Median.Sort | lib/store.ts:139 | the result is sorted and a permutation of the input |
| Median.UpperMedian | lib/store.ts:139-140 | the element at index `floor(n/2)` of the sorted samples is one of the samples |
| Median.CountPermutation | lib/store.ts:139 | permutations have the same number of elements below, and at most, any value |
| Median.MedianRank | lib/store.ts:139-140 | fewer than or exactly `n/2` samples lie strictly below the median, and more than `n/2` lie at or below it |
| Median.MedianUnique | lib/store.ts:139-140 | only the median has that rank property |
| Median.MedianCharacterised | lib/store.ts:139-140 | `x` is the upper median exactly when at most `floor(n/2)` samples lie below `x` and more than `floor(n/2)` lie at or below it |
| Median.MedianOrderFree | lib/store.ts:139 | the committed value does not depend on the order the samples arrived in |
| Median.MedianBounds | lib/store.ts:139-140 | the median lies between the smallest and the largest sample |
| Median.MedianOfFour | lib/store.ts:139-140 | the samples `[120, 118, 122, 121]` commit `121` |
| Median.MedianOfTwo | lib/store.ts:140 | of two different samples the larger is committed |
| VitalStore.ChannelsDistinct | lib/store.ts:20-27 | the six channels are listed once each, and every channel is listed |
| VitalStore.UpdatePatient | lib/store.ts:93 | keys present in the update overwrite, absent ones keep their value, nothing else changes |
| VitalStore.UpdateVitalValue | lib/store.ts:99-114 | one sample is appended at the end of the channel's samples and becomes its current value. The committed value and every other channel are kept. The status becomes `capturing` or `waiting` by the window flag alone |
| VitalStore.Reopen | lib/store.ts:120-125 | a reopened channel is `capturing` with no samples and keeps its current and committed values |
| VitalStore.StartCapture | lib/store.ts:116-127 | the window opens at `now`, all six channels are reopened, and patient, flags and visit id are kept |
| VitalStore.StopCapture | lib/store.ts:129-132 | the window closes with no start time, and the channels and everything else are untouched |
| VitalStore.CaptureVital | lib/store.ts:134-152 | with no samples the state is returned as it was. Otherwise the channel is `captured` with a committed value that is one of its samples. The samples and every other channel are kept |
| VitalStore.CaptureCommitsMedian | lib/store.ts:139-148 | the committed value is the upper median of the samples, characterised by its rank |
| VitalStore.ResetVital | lib/store.ts:154-159 | the channel is back to `waiting` with no value, no samples and nothing committed, and every other channel is kept |
| VitalStore.SetSerialConnected | lib/store.ts:161 | only the connection flag changes |
| VitalStore.SetSimulating | lib/store.ts:163 | only the simulation flag changes |
| VitalStore.ResetVisit | lib/store.ts:167-184 | every channel is back to its initial record, and the flags, the start time, the visit id and the patient draft are cleared |
| VitalStore.ResetForgets | lib/store.ts:167-184 | the reset state does not depend on the visit, holds no committed value, and passes none of the checks |
| VitalStore.Collect | lib/store.ts:191-195 | visiting the channels collects exactly those visited with a committed value, mapped to that value |
| VitalStore.GetVitalsData | lib/store.ts:187-198 | the data hold exactly the channels with a committed value, each mapped to that value |
| VitalStore.AllCaptured | lib/store.ts:202-203 | `every` holds exactly when each listed channel is `captured` |
| VitalStore.IsVitalsComplete | lib/store.ts:200-204 | complete exactly when the five required channels are `captured`; the weight plays no part |
| VitalStore.IsPatientComplete | lib/store.ts:206-209 | complete exactly when first name, last name and date of birth are all present and non-empty |
| VitalStore.CanContinue | lib/store.ts:211-214 | continuing is allowed exactly when the required channels are captured and the patient is complete |
| VitalStore.StartKeepsCommitted | lib/store.ts:116-127 | opening a window keeps the data `getVitalsData` reports and makes the vitals incomplete |
| VitalStore.Committed | lib/store.ts:134-152 | an empty channel is left as it is; a channel with samples is `captured` with a value and the same samples |
| VitalStore.CaptureAll | lib/store.ts:134-152 | the capture page's `forEach` of `captureVital` over a list of keys (app/(routes)/capture/page.tsx, lines 43-45) changes only the vitals |
| VitalStore.CaptureNonEmpty | lib/store.ts:134-152 | the stop button's `forEach` of `captureVital` over the keys with samples in its snapshot (app/(routes)/capture/page.tsx, lines 59-63) changes only the vitals |
| VitalStore.AutoStop | lib/store.ts:129-152 | the capture page's timeout callback (app/(routes)/capture/page.tsx, lines 40-46), `stopCapture()` then `captureVital` on every key: the window is closed, and nothing but the vitals changes otherwise |
| VitalStore.ManualStop | lib/store.ts:129-152 | the stop button's `handleStopCapture` (app/(routes)/capture/page.tsx, lines 56-64), `stopCapture()` then `captureVital` on the keys with samples: the window is closed, and nothing but the vitals changes otherwise |
| VitalStore.CaptureAllEffect | lib/store.ts:134-152 | the timeout sweep (app/(routes)/capture/page.tsx, lines 43-45): committing each of a list of distinct channels in turn commits exactly those channels and changes nothing else |
| VitalStore.CaptureNonEmptyEffect | lib/store.ts:134-152 | the stop button's sweep over the non-empty channels of its snapshot (app/(routes)/capture/page.tsx, lines 56-64) does the same |
| VitalStore.AutoStopCommits | lib/store.ts:129-152 | when the window runs out (app/(routes)/capture/page.tsx, lines 40-46), every channel is committed and the store is otherwise as `stopCapture` leaves it |
| VitalStore.StopPathsAgree | lib/store.ts:129-152 | the timeout (app/(routes)/capture/page.tsx, lines 40-46) and the stop button (lines 56-64) leave the same store: the window is closed, each channel with samples is committed, and the rest is unchanged |
| VitalStore.SweepCompletes | lib/store.ts:200-204 | if every required channel got a sample, the sweep makes the vitals complete and reports every required channel |
| VitalStore.SampleRevokesCompleteness | lib/store.ts:110 | as written: one more sample on a required channel of a complete store makes it incomplete and blocks continuing, while its reported data are unchanged |
| VitalStore.UpdateVitalValueIntended | lib/store.ts:99-114 | corrected: a `captured` channel ignores samples; any other channel updates as written |
| VitalStore.IntendedKeepsCommits | lib/store.ts:110 | corrected: captured channels stay exactly as they were, and a complete store stays complete |
| VitalStore.IntendedKeepsData | lib/store.ts:187-198 | corrected: the reported data are unchanged by a sample |
| SerialSource.Outcome | lib/serial/SerialReader.ts:124-134 | a piece yields a reading exactly when its trimmed text is non-empty and decodes, and the reading is the decoded trimmed text |
| SerialSource.DeliverPieces | lib/serial/SerialReader.ts:121-135 | the chunk handler's loop delivers, in order, the readings of exactly the pieces that are non-blank and decode |
| SerialSource.ChunkOfRecords | lib/serial/SerialReader.ts:121-129 | a chunk of complete, decodable records, one per line, delivers one reading per record, in order |
| SerialSource.DroppedPiece | lib/serial/SerialReader.ts:125-133 | a blank piece or one that does not decode contributes nothing, and raises no error |
| SerialSource.ReadLoop | lib/serial/SerialReader.ts:115-141 | everything the loop delivers before its last delivery is data |
| SerialSource.RunReadLoop | lib/serial/SerialReader.ts:115-141 | the loop method delivers exactly what the reference definition `ReadLoop` does: per read the chunk's readings, nothing after `done`, one error and nothing after an exception |
| SerialSource.AtMostOneError | lib/serial/SerialReader.ts:136-140 | the error callback fires at most once per loop, and exactly when the last delivery is an error |
| SerialSource.ChunksIndependent | lib/serial/SerialReader.ts:121-122 | two chunks are decoded independently, with nothing carried over between reads |
| SerialSource.OneLineChunk | lib/serial/SerialReader.ts:121-129 | a one-line chunk delivers that line's decoded value if it has one, and nothing otherwise |
| SerialSource.SplitRecordLost | lib/serial/SerialReader.ts:121-122 | a record the decoder accepts whole is lost when it arrives split over two reads whose halves it rejects |
| SerialSource.HalvesLost | lib/serial/SerialReader.ts:121-135 | two one-line chunks neither of which decodes deliver nothing |
| SerialSource.Connect | lib/serial/SerialReader.ts:75-99 | connect throws exactly when the port is not opened, and then leaves the reader disconnected or, without Web Serial, untouched. On success the reader is connected with a port, and the read loop reports an error at once exactly when there is no stream to read |
| SerialSource.FailedConnectFromFresh | lib/serial/SerialReader.ts:95-98 | a failed connect leaves a fresh reader disconnected and without a stream reader |
| SerialSource.Close | lib/serial/SerialReader.ts:164-184 | after close the reader is disconnected, with no stream reader and no port |
| SerialSource.CloseLifecycle | lib/serial/SerialReader.ts:164-184 | close is safe on a reader never opened, idempotent, and undoes any connect |
| SerialSource.StartSimulation | lib/serial/SerialReader.ts:205-215 | start is a no-op while running. Otherwise it leaves the simulator running with an interval of 100 to 200 ms |
| SerialSource.StopSimulation | lib/serial/SerialReader.ts:220-226 | stop leaves the simulator not running with no interval, from any state |
| SerialSource.SimulatorLifecycle | lib/serial/SerialReader.ts:205-226 | start and stop keep "interval set exactly while running", so readings come exactly while running, and both are idempotent |
| SourceControl.FanOut | components/SerialConnect.tsx:26-36 | each required channel gets exactly one more sample, the weight is untouched when the reading has none, and nothing outside the channels changes |
| SourceControl.FanOutAppends | components/SerialConnect.tsx:43-53 | each channel the reading carries gets that value appended and as its current value. Every other channel is unchanged. Committed values are kept |
| SourceControl.HandleConnect | components/SerialConnect.tsx:64-75 | a failed connect keeps both flags and shows an error. A successful one raises the connection flag and lowers the simulation flag, and leaves the simulator as it was. An error is shown exactly when the port had no stream |
| SourceControl.HandleDisconnect | components/SerialConnect.tsx:77-82 | the reader is closed and only the connection flag is lowered |
| SourceControl.HandleSimulate | components/SerialConnect.tsx:84-98 | while simulating, the simulator stops and only the simulation flag is lowered. Otherwise the simulator runs, the simulation flag is raised, the connection flag is lowered and the reader is closed |
| SourceControl.OnReaderError | components/SerialConnect.tsx:38-41 | a read error shows the error and lowers only the connection flag |
| SourceControl.Unmount | components/SerialConnect.tsx:58-61 | unmounting closes the reader and stops the simulator, and leaves the store's flags as they were |
| SourceControl.StepKeepsFlagsExclusive | components/SerialConnect.tsx:64-98 | no handler, read error or reading raises both flags when they were not both raised |
| SourceControl.FlagsNeverBoth | components/SerialConnect.tsx:64-98 | after any sequence of events from a state with exclusive flags, the flags are still exclusive |
| SourceControl.MountedFlagsNeverBoth | components/SerialConnect.tsx:22-98 | from the freshly mounted panel, the two flags are never both raised |
| SourceControl.ConnectLeavesSimulatorRunning | components/SerialConnect.tsx:64-75 | as written: connecting while simulating leaves the reader connected and the simulator still running, while the simulation flag says it is not |
| SourceControl.HandleConnectIntended | components/SerialConnect.tsx:64-75 | corrected: the same store and reader as written, and on success the simulator is stopped |
| SourceControl.StepIntendedCoherent | components/SerialConnect.tsx:64-98 | corrected handlers keep: flags exclusive, the simulator running exactly when its flag says so, never both sources live |
| SourceControl.IntendedSourcesExclusive | components/SerialConnect.tsx:64-98 | with the corrected connect, that holds after any sequence of events |
| SourceControl.MountedIsCoherent | components/SerialConnect.tsx:22-56 | the freshly mounted panel is coherent |
| Validation.VitalsValidExplicit | lib/validation.ts:6-13 | valid exactly when systolic is in [60, 220], diastolic in [30, 140], heart rate in [30, 220], SpO2 in [70, 100] and temperature in [30, 45], all present and inclusive, with the weight absent or in [1, 500] |
| Validation.MandatoryIsRequired | lib/validation.ts:7-12 | the keys the schema insists on are exactly the channels the completeness check requires |
| Validation.SweepPassesSchema | lib/validation.ts:6-13 | a window in which every required channel got a sample and every value was in range ends with data the schema accepts |
| Validation.CommitsPassSchema | lib/validation.ts:6-13 | any store whose channels are the commits of in-range channels, with a sample on every required one, reports data the schema accepts |
| Validation.CommitPassesSchema | lib/validation.ts:6-13 | per channel: a mandatory channel of such a store is reported, and any reported value is in range |
| Validation.CommittedInRange | lib/validation.ts:6-13 | the committed median is in range when every sample is |
| Validation.PatientCompleteIsValid | lib/validation.ts:18-22 | the store's patient check and the schema's required non-empty strings agree |
| Validation.InsuranceValid | lib/validation.ts:27-30 | every insurance draft passes, because both fields are optional strings with no bound |
| Validation.DurationBounds | lib/validation.ts:39-40 | for every value `x`, a duration `x` passes exactly when `0 < x <= 3650` and the rest of the draft passes; leaving duration and unit out passes; the unit `years` fails |
| Validation.FreeTextUnconstrained | lib/validation.ts:36-38 | medications, allergies and symptoms never decide whether a draft passes |
| ShortId.Number | lib/shortId.ts:11 | `Number(text)` is a natural number exactly when the trimmed text is blank or all digits |
| ShortId.MissingReadsZero | lib/shortId.ts:11 | the `'0'` used for a missing counter reads as 0 |
| ShortId.NumberOfDecimal | lib/shortId.ts:11-13 | a stored `String(n)` reads back as `n` |
| ShortId.PadStart | lib/shortId.ts:15 | the result has the target width or the input's length if longer, ends with the input, and is padded in front with the pad character |
| ShortId.Bump | lib/shortId.ts:12 | adding one keeps NaN NaN and adds one to a number |
| ShortId.FormatId | lib/shortId.ts:15 | an id is at least 11 characters and starts with `patient` |
| ShortId.NextShortId | lib/shortId.ts:5-16 | outside a browser the answer is `patient0001` with storage untouched. In a browser only the counter key is written and every other key is kept |
| ShortId.ResetPatientCounter | lib/shortId.ts:21-25 | in a browser the counter is set to `0`; elsewhere storage is untouched |
| ShortId.IssueFromCounter | lib/shortId.ts:11-15 | with counter `n`, the call stores `n + 1` and answers the id of `n + 1` |
| ShortId.IdLength | lib/shortId.ts:15 | ids of counters 1 to 9999 have 11 characters; larger counters keep all their digits |
| ShortId.IdRoundTrip | lib/shortId.ts:15 | the digits after `patient` give the counter back |
| ShortId.IdsDistinct | lib/shortId.ts:15 | different counters give different ids |
| ShortId.ResetThenNext | lib/shortId.ts:21-24 | after a reset the next id is `patient0001` |
| ShortId.FirstTwoIds | lib/shortId.ts:11-15 | with no counter stored, the first two ids are `patient0001` and `patient0002` |
| ShortId.GarbledCounter | lib/shortId.ts:11-15 | a counter that is not a number answers `patient0NaN` and stores `NaN` again |
| Download.Sanitize | lib/download.ts:33 | each colon and full stop becomes a dash, every other character stays, and the length is kept |
| Download.DropLast | lib/download.ts:33 | `slice(0, -5)` is the prefix five characters shorter, or empty for a shorter string |
| Download.GenerateFilename | lib/download.ts:31-35 | the name is the prefix, `vitals` by default, then a dash, the sanitized time with its last five characters cut, and `.json` |
| Download.StampIsClean | lib/download.ts:33 | the time part of a name contains no colon and no full stop, whatever the ISO string |
| Download.TwentyFourChars | lib/download.ts:33 | for a 24-character ISO string the time part is its first 19 characters with colons turned into dashes |
| Download.Iso | lib/download.ts:32-33 | the `toISOString()` form of an instant with a four-digit year has 24 characters, with `.` at index 19 and `Z` last |
| Download.FilenameOfInstant | lib/download.ts:31-35 | for a real instant the name is `prefix-YYYY-MM-DDTHH-MM-SS.json` |
| Download.SameSecondSameName | lib/download.ts:33 | two downloads within the same second get the same name |
| Download.DifferentSecondsDifferentNames | lib/download.ts:33 | instants in different seconds get different names |
| Download.PadInjective | lib/download.ts:33 | zero-padded fields of fixed width determine their value |

## Left out

- Express setup, CORS, static files, and the read-only routes (`/api/sensor`, `/api/sensor/db-latest`, `/api/readings/all`, `/api/debug`): HTTP plumbing with no decision beyond returning what is stored.
- `/api/test-submit` (`backend/src/server.js:291-322`): it does not take part in the `captureInFlight` gate, so a test submission can run concurrently with a capture. The route is not modelled.
- Persistence (`saveReadingToDB`, Supabase, `backend/test-db.js`): a write is reduced to its success or failure. What is stored, and the user-info selection on `req.body.firstName`, are not modelled.
- Serial port construction, the readline parser's line splitting, and the SIGINT handler: hardware I/O. Whether a parser exists is a flag set at start-up and cleared by the port's `error` event.
- Lines are delivered only while the parser exists. After a port error the old parser object keeps its listeners, but no more lines are expected from a failed port.
- A line reaches the cache listener and the capture listener at the same `now`. In the code each calls `Date.now()` separately.
- `JSON.parse` and the JSON grammar are an oracle. `LineParser.CsvLine` and `LineParser.SixNumberLine` assume that the oracle rejects comma-separated digit lists, as `JSON.parse` does.
- The JSON reading's `{ ...obj, t, raw }` spread is kept as the decoded value with `t` and `raw` beside it; the merge of keys is not modelled.
- The Web Serial API, `TextDecoder`, `ReadableStream` and the async mechanics of the read loop:
  - reads are a sequence of results;
  - a chunk is its decoded text, so multi-byte characters split across reads are not modelled;
  - the loop ends only on `done` or an exception. A `close()` during a pending read is seen as one of these.
- A decoded device reading is taken to have all numeric fields. Missing fields, which `JSON.parse` would let through, are not modelled.
- `SerialSimulator.generateSimulatedData`: random values and rounding. The simulator emits on every tick while running; the values are arbitrary `SerialData`.
- Csv.Fields and Csv.FieldValue: a digit field's value is an exact natural number. JavaScript's `+m[i]` rounds values above 2^53 to the nearest double and reads about 309 or more digits as `Infinity`.
- LineParser.Record: the same exact naturals are stored under the field names, where the program stores the rounded doubles.
- LegacyServer.TwoFieldsReplace: `Number(m[1])` and `Number(m[2])` are exact naturals here, rounded doubles in the program.
- LegacyServer.OnLine: the lines `0`, `false` and `""` store a falsy `latest`. `/api/sensor` answers 204 for it as for `null`, but that route is not modelled.
- Floating point: samples, bounds and committed values are real numbers, so NaN, infinities and rounding are not modelled. The sort comparator `a - b` is the order on reals.
- UI components, `downloadJson` and `tailwind.config.ts`: rendering, DOM and configuration.
- zod internals: `.trim()` on the patient and insurance strings is a transform applied after `min(1)`, and its output is not modelled. `PatientValid` checks the length of the untrimmed string, as zod does.
- `visitSchema` is not modelled. It only combines the four schemas.
- `updateInsurance`, `updateAdditional` and the insurance and additional-information drafts in the store, together with their clearing by `resetVisit`, are not modelled. `setCurrentVisitId` is not modelled either. Each only stores what it is given.
- ShortId.Number: only blank text and digit strings, with optional white space around them, are read as numbers. All other text reads as NaN. JavaScript's `Number` also reads signs, fractions, exponents, hexadecimal and `Infinity`, but `getNextShortId` never stores those itself. Counters above 2^53, which JavaScript rounds, stay exact here.
- Download.Iso: only years 0 to 9999 are modelled. `toISOString()` writes other years with six digits and a sign.
- ShortId and Download: whether the code runs in a browser is the flag `inBrowser`; `localStorage` quota and access errors are not modelled.

Three points about the code that a reader might not expect:
- The code does not make a `captured` channel ignore further samples (see Findings).
- `resetVital` returns the channel to `waiting`, not to `capturing`.
- A channel can hold a committed value without being `captured`: it is `capturing` again after `startCapture`, and `waiting` or `capturing` after a later sample.

## Findings

| source | as written | input that shows it | evidently intended | confidence | as-written member | corrected member |
|---|---|---|---|---|---|---|
| lib/store.ts:110 | every sample sets the status to `capturing` or `waiting`, including on a `captured` channel, and keeps the committed value | complete vitals after the sweep. The simulator's next tick, or any device reading after the window closed, calls `updateVitalValue('bpSys', 120)`. `bpSys` becomes `waiting`, `isVitalsComplete()` and `canContinue()` turn false, while `getVitalsData()` still reports every value | a captured channel keeps its commit until it is reset | not executed | VitalStore.SampleRevokesCompleteness | VitalStore.UpdateVitalValueIntended, VitalStore.IntendedKeepsCommits |
| components/SerialConnect.tsx:64-75 | a successful connect lowers `isSimulating` but never calls `simulator.stopSimulation()` | click Simulate, then Connect, and a port opens. The reader is connected, the simulator keeps feeding samples into the store, and the store says it is not simulating | connecting stops the simulator as it lowers its flag | not executed | SourceControl.ConnectLeavesSimulatorRunning | SourceControl.HandleConnectIntended, SourceControl.IntendedSourcesExclusive |

Both rows are kept as written in the main model; the corrected definitions sit next to them with their properties proved.
