# Verification of the orchestration front end and its tools

A Dafny 4.11 model of the self-contained algorithms and protocols of this repository, with proofs.
`dafny verify dfyconfig.toml` checks all of it. One module stands for one source file or for one
protocol between several; code that works by changing things in place is a method or a class, proved
against a function whose properties are then proved as lemmas.

| file | what it is about | main theorems |
|---|---|---|
| `Launchers.dfy`, `LauncherProtocol.dfy`, `LauncherRuns.dfy` | floating launchers that move out of each other's way | `Converges`, `StagedChecksSettle`, `OneFixedPoint`, `SettlesClear`, `NoStacking` |
| `Crc32.dfy`, `BigEndian.dfy`, `Png.dfy`, `PngReader.dfy`, `PngFormat.dfy` | PNG writer, decoder and cropper, and a strict reader of the format | `WordChangeDetected`, `WrittenFileIsRead`, `DecodesWhatIsRead`, `CropExactly`, `DecodeCrop` |
| `CommandStream.dfy`, `CommandProtocol.dfy`, `CommandUi.dfy` | the streamed command, its fallback request and the two callers | `ReadStream`, `OutcomeCases`, `RetryableMeansNoEvent`, `AtMostOnce`, `NothingRanExactly`, `ShownAtStreamEnd`, `SessionIsSafe` |
| `PdfWrap.dfy`, `PdfStrings.dfy`, `PdfBuild.dfy`, `PdfReader.dfy`, `PdfFormat.dfy` | the PDF engine, and a reader of its files | `WrapIsShortest`, `DrawnExactly`, `PageIsRead`, `PageCountIsRead`, `TableShape` |
| `RateLimiter.dfy` | the in-memory limiter | `RejectedExactly`, `MinuteBound`, `MinuteBoundIsReached`, `SweepIsInvisible` |
| `Realtime.dfy` | the shared event stream | `EveryReachableState`, `StaysClosed`, `TimersBounded`, `DelayExactly` |
| `Migrations.dfy`, `MigrationTrace.dfy`, `Lineage.dfy` | migration worklist, its policies and triggers, and catalog comparison | `LiveExactly`, `NothingThrownNothingLost`, `StuckIsLeast`, `TenPassesSuffice`, `DiffIsPatch`, `DiffSwaps`, `ExpectedExactly`, `CleanMeansDocumented` |
| `UseApi.dfy` | the deduplicating cache | `OneRequestPerUrl`, `TableIsExact`, `FetchExactly`, `EveryOutcomeIsValid`, `CacheIsLatest` |
| `DrDrill.dfy` | dump, chunked restore and sequence reset | `DumpAndLoad`, `BudgetKept`, `GeneratedIdsAreFresh`, `LastValueIsPassed` |
| `Health.dfy` | department and company scores | `DepartmentScoreExactly`, `DepartmentMonotone`, `BudgetPullsTowardsItself`, `CompanyClampExactly`, `CompanyMonotone` |
| `Common.dfy` | optional values, brackets in concatenations, splitting, joining and searching text | |

## Assumptions

- `deflate` and `inflate` are parameters; inflating what was deflated gives it back. `JSON.parse`, the
  row encoder and decoder of the dump, and whether a migration applies are parameters too.
- Real sockets, clocks, timers and the database are events or parameters. Clocks are assumed not to run
  backwards where a lemma says so (`Monotone`, `ClockRuns`).
- Numbers are unbounded integers or reals, and 32-bit registers are bit vectors. Four-byte fields that do
  not fit make the PNG writer fail, as `writeUInt32BE` does.

## Where the code differs from its documentation

- `command-bar.tsx` says "nothing ran" after every failure that is not a started stream error.
  `NothingRanExactly` says when that is guaranteed: no event delivered, no POST sent, and a server that
  does no work before its first event is delivered. A reader that rejects after events were delivered
  and a POST whose reply is lost end in the same words although the command may have run.
- `command-stream.ts` says that a failure without events means that no work was done. That depends on
  the server, which is not part of this model: commands run at most once exactly if it does no work
  before its first event is delivered (`AtMostOnce`). A data line holding the literal `null` makes
  `runCommandStream` throw a TypeError, which is no stream error (`EscapesExactly`, `NullEscapes`), and an error event
  with an empty message is not treated as an error (`EmptyErrorIsIgnored`, `ResolvesExactly`).
- A retry exactly at the advertised Retry-After instant can still be refused; `RetryAtTheInstant` says when.
- `dr-drill.ts` says that sequences are advanced past the snapshot's last value; `LastValueIsPassed` says
  exactly when they are not.
- `diff` is not symmetric in its `expected` flag when the two sides attribute a function to different
  owners (`ExpectedSwaps`, `DiffSwaps`).
- `canvas_crop.js` does not clamp its rectangle: to the right of the picture it goes on with later rows,
  to the left with earlier ones (`CropWraps`). `CropExactly` and `NoStrayExactly` say for which
  rectangles that does no harm.
- A carriage return in a PDF literal string is read back as a line feed (`EscRoundTrip`).
- `pdf_engine.js` asks for content that is safe in WinAnsi. Twenty characters that WinAnsiEncoding has are
  printed as question marks all the same (`LostMarks`); `DrawnExactly` says which text is drawn as it is.
  The font dictionaries do not name WinAnsiEncoding, and a reader that therefore uses the standard
  encoding shows nothing for the dashes, quotes and bullets (`StandardExactly`).
- A written PNG file of a picture without pixels, or with a dimension or data chunk of 2^31 or more, is
  no PNG file (`WrittenFileIsRead`).
- `computeScore` does not clamp the credits percentage by itself; `CompanyClampExactly` gives the
  percentages for which the final clamp never acts.
- `scopedDrops` in `embedded-db.ts` is described as dropping what a file creates. It drops by name on
  every table, so a file takes away same-named policies that other files made, even when every file
  applies: `0018_strategy_objectives_krs.sql` makes `org_isolation` on four tables, and
  `0019_decision_memory.sql` on a fifth removes all four (`OrgIsolationIsLost`). A file that fails has
  dropped them too. `LiveExactly` says what is left, `NothingThrownNothingLost` when nothing is lost.

## Model

| member | source | states |
|---|---|---|
| Launchers.IdLessTransitive | apps/web/hooks/use-collision-detection.ts:106-111 | the priority order on ids is transitive |
| Launchers.IdLessIrreflexive | apps/web/hooks/use-collision-detection.ts:101-106 | no launcher outranks itself |
| Launchers.IdLessTotal | apps/web/hooks/use-collision-detection.ts:106-111 | of two launchers with different ids exactly one yields |
| Launchers.IdLessExactly | apps/web/hooks/use-collision-detection.ts:111 | the first code unit in which two ids differ decides, or else the shorter length |
| Launchers.OverlapMeansNear | apps/web/hooks/use-collision-detection.ts:53-60 | two rectangles overlap by a margin exactly if they have points no further apart than that in either direction |
| Launchers.CornerPlaces | apps/web/hooks/use-collision-detection.ts:62-75 | a launcher is 24 from the side and the bottom and 96 from the top |
| Launchers.CollidesExactly | apps/web/hooks/use-collision-detection.ts:92-120 | what stands in the way: a shown element of nonzero size within 16 that is no launcher or has a lower id |
| Launchers.CollisionsAreBlockers | apps/web/hooks/use-collision-detection.ts:169-180 | the collisions counted are those elements, each once |
| Launchers.ObstaclesExactly | apps/web/hooks/use-collision-detection.ts:92-120 | the kept elements are those that could stand in the way of some rectangle, as often as they were found |
| Launchers.FindFloatingElements | apps/web/hooks/use-collision-detection.ts:92-120 | the scan loop keeps exactly the elements that count as obstacles, in order |
| Launchers.ObstaclesCount | apps/web/hooks/use-collision-detection.ts:92-120 | counting overlaps with the kept elements is counting overlaps with all elements that are obstacles |
| Launchers.CollisionsIgnoreOrder | apps/web/hooks/use-collision-detection.ts:92-120 | the order in which the selectors find the elements does not change any collision count |
| Launchers.CandidatesCover | apps/web/hooks/use-collision-detection.ts:194-213 | the saved corner is the first candidate and every corner is a candidate |
| Launchers.ListCandidates | apps/web/hooks/use-collision-detection.ts:198-213 | the candidate loop gives the saved corner followed by the other three in fallback order |
| Launchers.CountOverlaps | apps/web/hooks/use-collision-detection.ts:169-180 | the overlap loop counts the obstacles that come within the margin |
| Launchers.ChooseBest | apps/web/hooks/use-collision-detection.ts:215-231 | the argmin loop returns the candidate picked by the specification function, ties to the earlier one |
| Launchers.BestIsFirstMinimum | apps/web/hooks/use-collision-detection.ts:215-231 | that candidate has the fewest collisions, and strictly fewer than every earlier candidate |
| Launchers.DecideIsBest | apps/web/hooks/use-collision-detection.ts:182-231 | no corner has fewer collisions than the chosen one, and the saved corner is left only for a strictly better one |
| Launchers.CandidateOrder | apps/web/hooks/use-collision-detection.ts:194-213 | for each saved corner, the order in which the four corners are tried |
| Launchers.DecideExactly | apps/web/hooks/use-collision-detection.ts:194-231 | the chosen corner is the first in that order with the fewest elements in the way |
| Launchers.CheckDecides | apps/web/hooks/use-collision-detection.ts:182-242 | whatever result the hook held before, after a check the rendered corner is the decided one; the kept-result shortcuts are harmless |
| Launchers.CheckAtExactly | apps/web/hooks/use-collision-detection.ts:149-164 | less than 250 ms after the last check nothing happens; otherwise the launcher ends where it belongs, with its measured width or 48 |
| Launchers.CollisionHook.constructor | apps/web/hooks/use-collision-detection.ts:131-138 | a mounted hook starts without a collision, in its own corner |
| Launchers.CollisionHook.CheckCollisions | apps/web/hooks/use-collision-detection.ts:146-243 | the throttled check updates result and time stamp as specified, in every branch |
| LauncherProtocol.DecideDependsOnHigherRanks | apps/web/hooks/use-collision-detection.ts:106-111 | a launcher's decision depends only on the page and on launchers with lower ids |
| LauncherProtocol.OneFixedPoint | apps/web/hooks/use-collision-detection.ts:106-111 | for distinct ids there is exactly one configuration in which no launcher wants to move |
| LauncherProtocol.ClearCostsNothing | apps/web/hooks/use-collision-detection.ts:92-180 | with any elements on the page, a corner costs nothing exactly if it is clear of every shown one of nonzero size that is no launcher or has a lower id, and of every launcher with a lower id |
| LauncherProtocol.DecidesForClear | apps/web/hooks/use-collision-detection.ts:182-231 | a launcher with a clear corner decides for the first clear one, its saved corner exactly if that is clear |
| LauncherProtocol.SettlesClear | apps/web/hooks/use-collision-detection.ts:182-231 | in the settled configuration every launcher that can be clear is, and it is in its saved corner exactly if that is clear |
| LauncherRuns.StepChooses | apps/web/hooks/use-collision-detection.ts:146-243 | a check that the throttle lets through chooses the corner decided from what is painted; no other step changes a choice |
| LauncherRuns.StepPaints | apps/web/components/floating-launcher.tsx:113-118 | a paint brings a launcher to its chosen corner; no other step moves it |
| LauncherRuns.ReadsSettled | apps/web/hooks/use-collision-detection.ts:106-111 | once its superiors are painted in their settled corners, every check of a launcher decides for its own |
| LauncherRuns.StaysChosen | apps/web/hooks/use-collision-detection.ts:146-243 | a settled choice stays chosen |
| LauncherRuns.StaysPainted | apps/web/components/floating-launcher.tsx:113-118 | a settled launcher is never painted elsewhere again |
| LauncherRuns.OneRoundSettles | apps/web/hooks/use-collision-detection.ts:256-262 | once its superiors have settled, one effective check with a later paint settles a launcher for good |
| LauncherRuns.Converges | apps/web/hooks/use-collision-detection.ts:256-262 | every fair run, for any number of launchers, from any hook states and painted corners and with checks that read stale paint, reaches the one fixed configuration and stays in it |
| LauncherRuns.RoundsSettle | apps/web/hooks/use-collision-detection.ts:256-262 | a launcher has settled after one round of checks and paints more than it has superiors |
| LauncherRuns.AllSettleInRounds | apps/web/hooks/use-collision-detection.ts:256-262 | as many rounds as launchers settle all of them |
| LauncherRuns.EffectiveNearby | apps/web/hooks/use-collision-detection.ts:150-152 | a check that the throttle stops follows an effective one by less than 250 ms |
| LauncherRuns.StagedChecksSettle | apps/web/hooks/use-collision-detection.ts:262 | up to four launchers mounted together, whose staged checks and paints are each less than 25 ms late, have settled 2550 ms later, whatever other checks come in between |
| LauncherProtocol.CornerGeometry | apps/web/hooks/use-collision-detection.ts:41-75 | two corners are in each other's way exactly under the stated width and height conditions |
| LauncherProtocol.FreeCorner | apps/web/hooks/use-collision-detection.ts:194-231 | with only launchers on a roomy page, a corner costs nothing exactly when no lower id holds it |
| LauncherProtocol.AvoidsSuperiors | apps/web/hooks/use-collision-detection.ts:106-111 | a launcher with fewer than four superiors ends apart from all of them, in its saved corner exactly when none of them holds it |
| LauncherProtocol.NoStacking | apps/web/hooks/use-collision-detection.ts:194-231 | the fixed configuration is free of overlaps exactly when there are at most four launchers |
| LauncherProtocol.KeepsPreference | apps/web/hooks/use-collision-detection.ts:194-197 | each is in its saved corner exactly when no launcher with a lower id holds that corner |
| LauncherProtocol.SharedIdsStack | apps/web/hooks/use-collision-detection.ts:101-111 | launchers that share one id ignore each other and all take their saved corner: distinct ids are needed |
| Crc32.TableEntry | tools/canvas_render.js:13-18 | the inner loop computes eight steps of the register |
| Crc32.BuildTable | tools/canvas_render.js:13-21 | every entry of the table is eight steps from its index |
| Crc32.TableStep | tools/canvas_render.js:25 | the loop body is the table step of the register, masked index included |
| Crc32.ComputeCrc | tools/canvas_render.js:23-27 | the table-driven loop computes the bit-by-bit CRC of section 3.4 of RFC 2083 |
| Crc32.FeedByteIsShift8 | tools/canvas_render.js:25 | a table step is eight shifts of the register with the byte mixed in |
| Crc32.FeedBitsIsShift8 | tools/canvas_render.js:13-21 | feeding the eight bits one by one gives the same register |
| Crc32.CrcIsBitwiseCrc | tools/canvas_render.js:13-27 | table-driven and bit-by-bit CRC agree on every byte string |
| Crc32.Unshift8Shift8 | tools/canvas_render.js:17 | eight register steps can be undone |
| Crc32.RegisterInjective | tools/canvas_render.js:25 | registers that differ stay different whatever bytes follow |
| Crc32.UnnoticedChange | tools/canvas_render.js:23-27 | a change that goes unnoticed has met the same register at its end |
| Crc32.FourBytes | tools/canvas_render.js:23-27 | four table steps are thirty-two shifts with the whole word mixed in |
| Crc32.WordChangeDetected | tools/canvas_render.js:23-27 | replacing any four consecutive bytes by other four always changes the CRC |
| Crc32.ByteChangeDetected | tools/canvas_render.js:23-36 | changing any single byte always changes the CRC |
| BigEndians.BigEndianRoundTrip | tools/canvas_render.js:30-31 | a 32-bit number written big-endian is read back, whatever follows |
| Png.RegisterBytesRead | tools/canvas_render.js:33-34 | the four stored bytes are the CRC, most significant first |
| Png.MakeChunk | tools/canvas_render.js:29-36 | a chunk is length, type, data and CRC; a length that does not fit four bytes throws |
| Png.FillScanlines | tools/canvas_render.js:44-49 | the in-place loop writes one zero filter byte and one row of pixels per scanline |
| Png.WritePng | tools/canvas_render.js:38-57 | the writer produces signature, header, one data chunk and end chunk |
| Png.WalkChunks | tools/canvas_crop.js:11-21 | the walk takes size and data from the chunks it passes and fails on a truncated one |
| Png.FillRow | tools/canvas_crop.js:28-42 | the inner loop copies a row four bytes at a time |
| Png.FillPixels | tools/canvas_crop.js:23-43 | the nested loops fill the picture in place with the unpacked scanlines |
| Png.DecodePng | tools/canvas_crop.js:10-43 | the decoder's steps put together |
| Png.FillCrop | tools/canvas_crop.js:45-57 | the nested crop loops fill the crop in place |
| Png.CropPng | tools/canvas_crop.js:8-73 | decoding, cropping and writing put together |
| Png.WalkUndoesChunks | tools/canvas_crop.js:11-21 | walking the bytes of any list of chunks sees exactly those chunks, in order |
| Png.CollectData | tools/canvas_crop.js:19 | however the data is cut into IDAT chunks, the walk collects all of it |
| Png.UnscanScanlines | tools/canvas_crop.js:23-43 | unpacking the scanlines gives back the pixels, for every size |
| Png.DecodeSplitFile | tools/canvas_crop.js:10-43 | any division of the compressed data into IDAT chunks decodes to the same picture |
| Png.DecodeEncode | tools/canvas_render.js:38-57 | decoding what was written gives back width, height and every pixel |
| PngFormat.CheckIsCrc | tools/canvas_render.js:13-27 | the table-driven CRC is that of the polynomial of section 3.4 of RFC 2083, given by its exponents |
| PngFormat.ReadsChunk | tools/canvas_render.js:29-36 | a strict reader takes a written chunk off the front, its CRC checked, unless it is longer than 2^31 - 1 |
| PngFormat.ReadsRows | tools/canvas_render.js:44-49 | the scanlines are the rows of the picture, each behind filter byte 0 |
| PngFormat.WrittenFileIsRead | tools/canvas_render.js:38-57 | a reader of RFC 2083 that shares no definition with the writer accepts a written file exactly if the picture has pixels and no dimension and no chunk exceeds 2^31 - 1, and then gives back the picture |
| PngFormat.DecodesWhatIsRead | tools/canvas_crop.js:10-43 | every file that this reader accepts, the decoder decodes to the same pixels |
| Png.AbsorbExactly | tools/canvas_crop.js:11-21 | chunk types are compared by their low seven bits; a header needs eight bytes; other chunks are skipped |
| Png.WalkTail | tools/canvas_crop.js:11-21 | too few bytes for a length are an error, a last chunk cut short counts as far as it goes |
| Png.CropPixel | tools/canvas_crop.js:48-57 | every pixel of the crop is the source pixel at the shifted position |
| Png.CropExactly | tools/canvas_crop.js:45-57 | a crop shows the picture inside it and clear pixels outside it, for every picture of a size, exactly if no pixel outside the picture's columns has its offset inside the pixel data |
| Png.StraysByRows | tools/canvas_crop.js:50 | a pixel is read from the picture although its column is outside exactly if it is q picture widths off, q not zero, and its row plus q is a row of the picture |
| Png.NoStrayExactly | tools/canvas_crop.js:45-57 | the same condition on the four coordinates of the rectangle alone |
| Png.DecodeCrop | tools/canvas_crop.js:8-73 | the decoded crop has the requested size and, unless the rectangle runs over, shows the requested rectangle, clear outside the picture; a rectangle within the picture's columns never runs over |
| Png.CropFails | tools/canvas_crop.js:8-73 | there is no crop exactly if the file cannot be decoded, the rectangle is reversed, or a length does not fit in 32 bits |
| Png.CropWraps | tools/canvas_crop.js:50 | nothing is clamped: a pixel q widths to the right, or to the left for negative q, is read q rows further down |
| Png.TamperedChunk | tools/canvas_render.js:29-36 | changing any one byte of a chunk's type or data makes it disagree with its stored CRC |
| CommandStream.TrimBlank | apps/web/lib/command-stream.ts:141 | a trimmed line is empty exactly when the line is blank |
| CommandStream.TrimExactly | apps/web/lib/command-stream.ts:141 | trimming cuts blanks off both ends and nothing else |
| CommandStream.SpaceCodes | apps/web/lib/command-stream.ts:141 | the blanks, by code point |
| CommandStream.LineExactly | apps/web/lib/command-stream.ts:141 | a line is handed on trimmed, unless it is blank |
| CommandStream.RecognisedExactly | apps/web/lib/command-stream.ts:107-128 | a recognised line is the word data and a colon, followed by a stage, task, done or error event; one that throws holds null |
| CommandStream.LinesAtFrameEnd | apps/web/lib/command-stream.ts:135-143 | text before and after a blank line can be read separately |
| CommandStream.HandleFrame | apps/web/lib/command-stream.ts:138-142 | the inner loop hands on exactly the non-blank trimmed lines of a frame, in order, up to one that throws |
| CommandStream.ReadStream | apps/web/lib/command-stream.ts:130-160 | for every split into chunks, the lines handed to `handleEvent` are exactly the non-blank trimmed lines of the whole text, in order, cut short only by one that throws; the outcome is the one they lead to |
| CommandStream.HandledUpToCrash | apps/web/lib/command-stream.ts:107-128 | stopping at a line that throws is the same as skipping all later lines |
| CommandStream.FinalBlankLine | apps/web/lib/command-stream.ts:145-150 | a missing final blank line, or any further blank lines, change neither the lines nor the outcome |
| CommandStream.StartedMeansRecognised | apps/web/lib/command-stream.ts:105-128 | `pipelineStarted` is set exactly when a stage, task, done or error event was read |
| CommandStream.RetryableMeansNoEvent | apps/web/lib/command-stream.ts:152-158 | the error that permits a second request is thrown exactly when the text held no such event and nothing threw |
| CommandStream.NoEventNoResult | apps/web/lib/command-stream.ts:107-128 | without such an event neither result nor error is ever set, and the flag is never cleared |
| CommandStream.StateMeansLast | apps/web/lib/command-stream.ts:121-127 | result and error are those of the last done event and the last error event |
| CommandStream.LastDoneExactly | apps/web/lib/command-stream.ts:121-123 | the result is that of a line with a done event that no other follows |
| CommandStream.LastErrorExactly | apps/web/lib/command-stream.ts:124-127 | the message is that of a line with an error event that no other follows, or the default text if it has none |
| CommandStream.ResolvesExactly | apps/web/lib/command-stream.ts:152-159 | the call resolves with r exactly if nothing throws, the last done event carries r and r is not null, and the last error event, if any, has an empty message |
| CommandStream.EscapesExactly | apps/web/lib/command-stream.ts:109-115 | an exception other than a stream error leaves the call exactly if some data line holds the literal null |
| CommandStream.OutcomeCases | apps/web/lib/command-stream.ts:152-159 | how every call ends, by the text: it throws through, resolves with the last result, or fails, started exactly if there was an event |
| CommandStream.NullEscapes | apps/web/lib/command-stream.ts:115 | a data line holding null is such an input |
| CommandStream.EmptyErrorIsIgnored | apps/web/lib/command-stream.ts:126-152 | an error event with an empty message before a done event: the call resolves |
| CommandStream.EventStays | apps/web/lib/command-stream.ts:130-150 | an event whose line is complete is not taken back by later text |
| CommandProtocol.NextKeepsInv | apps/web/components/command-bar.tsx:91-119 | every event of a submission keeps the protocol's invariant |
| CommandProtocol.AtMostOnce | apps/web/components/command-bar.tsx:104-119 | over all interleavings a command is executed at most once, exactly if no work precedes the first delivered event |
| CommandProtocol.FallbackMeansNoEvent | apps/web/components/command-bar.tsx:108 | the POST is sent at most once and never after a delivered event, whatever the server does |
| CommandProtocol.EndedMeansRead | apps/web/components/command-bar.tsx:91-119 | a run that resolves, or fails after the start, has read the text that makes the stream do so |
| CommandProtocol.ShortRuns | apps/web/components/command-bar.tsx:104-119 | a request that fails or breaks off never leads to a POST; a response that is no stream does at once |
| CommandProtocol.FullRun | apps/web/components/command-bar.tsx:91-119 | any text can be delivered in full, and the call then ends as the text says |
| CommandProtocol.EagerServerRunsTwice | apps/web/lib/command-stream.ts:52-61 | the run that executes a command twice when work precedes the first delivered event |
| CommandProtocol.ActKeepsInv | apps/web/components/executive-agent-context.tsx:211-303 | every action of a session keeps its invariant |
| CommandProtocol.SessionIsSafe | apps/web/components/executive-agent-context.tsx:213-214 | over every session at most one message is in flight and executions never outnumber accepted messages |
| CommandUi.CommandBar.constructor | apps/web/components/command-bar.tsx:85-88 | a fresh command bar shows nothing |
| CommandUi.CommandBar.HandleSubmit | apps/web/components/command-bar.tsx:85-143 | the try and catch sequence: one POST exactly after a failure before the start, the result or message for each way to end, the last ten results kept |
| CommandUi.ShownExactly | apps/web/components/command-bar.tsx:85-143 | over all runs: "your command started" is shown exactly after a stream error with the pipeline started, "nothing ran" exactly after another exception or a lost POST reply, and the unwrapped result after a result or a POST reply |
| CommandUi.ShownAtStreamEnd | apps/web/components/command-bar.tsx:126-137 | at the end of the stream, by the text: one event without a result is enough for "your command started" |
| CommandUi.DroppedMeansNoPost | apps/web/components/command-bar.tsx:135-136 | in every run that ends in "nothing was re-run" no POST was sent |
| CommandUi.NothingRanHolds | apps/web/components/command-bar.tsx:131-137 | a run that shows "nothing ran" executed nothing if no event had been delivered, no POST was sent and the server is not eager |
| CommandUi.NothingRanFails | apps/web/components/command-bar.tsx:131-137 | in every other case some run with the same text received and the same number of POSTs shows it although the command ran; a lost POST reply is one |
| CommandUi.NothingRanExactly | apps/web/components/command-bar.tsx:131-137 | "nothing ran" is guaranteed for a received text and a number of POSTs exactly under that condition |
| CommandUi.NothingRanIsShown | apps/web/components/command-bar.tsx:126-137 | it is shown after any received text when the reader rejects, and after a POST whose reply is lost |
| CommandUi.NothingRanIsWrongAfterEvent | apps/web/components/command-bar.tsx:131-137 | after every text with a delivered event a rejecting reader shows it although the command ran |
| CommandUi.ExecutiveAgent.constructor | apps/web/components/executive-agent-context.tsx:211-214 | a session starts idle |
| CommandUi.ExecutiveAgent.SendMessage | apps/web/components/executive-agent-context.tsx:212-227 | blank text and text sent while loading are ignored; otherwise one submission starts |
| CommandUi.ExecutiveAgent.OnEvent | apps/web/components/executive-agent-context.tsx:236-244 | what happens to a request under way changes that submission only, as the protocol says |
| CommandUi.ExecutiveAgent.OnStreamEnded | apps/web/components/executive-agent-context.tsx:245-260 | the POST is sent exactly when the stream failed before its start, and the protocol step is the one proved safe |
| CommandUi.ExecutiveAgent.Settle | apps/web/components/executive-agent-context.tsx:262-300 | the final message fits how the submission ended, and the gate opens again |
| CommandUi.NoteExactly | apps/web/components/executive-agent-context.tsx:262-300 | over all runs: the dropped note is left exactly after a stream error with the pipeline started, and then no POST was sent; the reply exactly after a result |
| RateLimiter.Limiter.constructor | apps/api/src/app.ts:190 | the table starts empty |
| RateLimiter.Limiter.OnRequest | apps/api/src/app.ts:191-207 | the verdict, the Retry-After value and the whole new table, for counted and uncounted methods |
| RateLimiter.Limiter.Sweep | apps/api/src/app.ts:208-211 | the sweep loop deletes exactly the entries that began more than 60 seconds ago |
| RateLimiter.SweepIsInvisible | apps/api/src/app.ts:208-211 | sweeps at arbitrary times change no verdict and no Retry-After |
| RateLimiter.AdmitNewWindow | apps/api/src/app.ts:196-199 | an admitted request that opens a window keeps the bounds |
| RateLimiter.MinuteBound | apps/api/src/app.ts:191-207 | over every trace with a non-decreasing clock, sweeps included, no closed 60-second interval has more than 119 admitted requests of one IP |
| RateLimiter.MinuteBoundIsReached | apps/api/src/app.ts:196-201 | 119 requests within two milliseconds are admitted by a concrete trace |
| RateLimiter.WindowBound | apps/api/src/app.ts:196-201 | at most 60 requests of one IP are admitted in a window |
| RateLimiter.TableIsHistory | apps/api/src/app.ts:194-200 | after every trace the entry of an IP is its last window: when the request that opened it came, and how many were counted since |
| RateLimiter.RejectedExactly | apps/api/src/app.ts:191-207 | after every trace, sweeps included, a request is rejected exactly if it is no GET, HEAD or OPTIONS and 60 were counted since an opening at most 60 seconds ago; Retry-After is the time to the window's end in whole seconds, at least one |
| RateLimiter.RetryAfterSuffices | apps/api/src/app.ts:201-203 | the advertised delay is 1 to 60 seconds and strictly after it the request is admitted |
| RateLimiter.RetryAtTheInstant | apps/api/src/app.ts:201-203 | a retry exactly at the advertised instant is refused exactly when the window's end is a whole positive number of seconds away |
| RateLimiter.RetryAfterIsLeast | apps/api/src/app.ts:202 | no shorter whole number of seconds would do |
| Realtime.StepKeepsValid | apps/web/lib/realtime-client.ts:37-126 | every handler keeps the invariant of the shared connection |
| Realtime.EveryReachableState | apps/web/lib/realtime-client.ts:37-126 | at most one open connection and it is the recorded one; none without subscribers; with subscribers one is open or a timer is pending; the delay stays within 1000 and 30000 ms |
| Realtime.StaysClosed | apps/web/lib/realtime-client.ts:67-68 | without subscribers no orphaned timer ever opens a connection |
| Realtime.OneAttemptAway | apps/web/lib/realtime-client.ts:95-98 | with subscribers, any pending timer that succeeds restores the one connection |
| Realtime.OrphanedTimer | apps/web/lib/realtime-client.ts:95 | a second subscriber during a retry, then a failure, leaves a pending timer that is no longer recorded |
| Realtime.AttemptsStep | apps/web/lib/realtime-client.ts:67-126 | only a subscription that finds no connection adds to the retries under way |
| Realtime.TimersBounded | apps/web/lib/realtime-client.ts:95-113 | over all runs the pending timers are at most one more than the subscriptions that connected past a pending retry |
| Realtime.BackoffOfOutage | apps/web/lib/realtime-client.ts:89-106 | over every run in which no connection opens and no subscription reconnects, the delay after n fired timers is n steps further in the backoff, whether attempts throw at once or connections fail later |
| Realtime.BackoffValues | apps/web/lib/realtime-client.ts:40-41 | the delays are 1, 2, 4, 8, 16 seconds and then 30 |
| Realtime.DelayExactly | apps/web/lib/realtime-client.ts:76-113 | in every reachable state the delay is 1, 2, 4, 8, 16 or 30 seconds by the number of timers fired since a connection opened or a subscription connected |
| Realtime.ConnectionEvents | apps/web/lib/realtime-client.ts:75-99 | a failed connection is closed and retried after the current delay; one that opens resets the delay to 1000 |
| Realtime.SubscriberEvents | apps/web/lib/realtime-client.ts:110-125 | the first subscriber connects at once, later ones share the connection, the last to leave closes it and clears the recorded timer |
| Realtime.TimerEvents | apps/web/lib/realtime-client.ts:95-98 | a timer doubles the delay up to 30 seconds and connects if somebody listens and nothing is open |
| Realtime.Client.constructor | apps/web/lib/realtime-client.ts:37-42 | the initial module state |
| Realtime.Client.Broadcast | apps/web/lib/realtime-client.ts:44-52 | every subscriber gets the message once |
| Realtime.Client.SetRetryTimer | apps/web/lib/realtime-client.ts:95-98 | a recorded timer is overwritten, not cleared |
| Realtime.Client.Connect | apps/web/lib/realtime-client.ts:67-107 | no second connection, none while parked, a timer when construction throws |
| Realtime.Client.Teardown | apps/web/lib/realtime-client.ts:54-65 | parks the client, clears the recorded timer and closes the connection |
| Realtime.Client.Subscribe | apps/web/lib/realtime-client.ts:110-119 | adding a subscriber revives a parked client and resets the delay |
| Realtime.Client.Unsubscribe | apps/web/lib/realtime-client.ts:120-125 | the last subscriber to leave tears down, once |
| Realtime.Client.OnOpen | apps/web/lib/realtime-client.ts:75-78 | opening resets the delay and tells every subscriber |
| Realtime.Client.OnMessage | apps/web/lib/realtime-client.ts:80-87 | every subscriber gets a frame that parses; any other is ignored |
| Realtime.Client.OnError | apps/web/lib/realtime-client.ts:89-99 | an error closes that connection, tells every subscriber and schedules a retry |
| Realtime.Client.OnTimer | apps/web/lib/realtime-client.ts:95-98 | a timer doubles the delay up to the limit and reconnects |
| Migrations.ApplyMigrations | scripts/lib/embedded-db.ts:129-153 | the loop makes as many passes as make progress while files are pending, ten at most; the thrown list names exactly the unapplied files, each with the message of its last failed attempt; policies and triggers are what all attempts in turn leave behind |
| Migrations.TryFile | scripts/lib/embedded-db.ts:136-145 | one attempt: whatever has a name found in the file is dropped on every table, and only if the file applies do its own drops and creations follow |
| MigrationTrace.LiveExactly | scripts/lib/embedded-db.ts:80-96 | for every sequence of attempts, a policy or trigger is there at the end exactly if some successful attempt made it and no later attempt, failed or not, named or dropped it, or it was there before and none did |
| MigrationTrace.NothingLostExactly | scripts/lib/embedded-db.ts:80-96 | for every sequence of attempts, nothing an attempt made is missing exactly if whatever a later attempt removes is made again then or after it |
| MigrationTrace.NothingLostByFiles | scripts/lib/embedded-db.ts:135-146 | when every file is applied in the end, failed attempts do no harm: only files applied later count |
| MigrationTrace.LostAndRestored | scripts/lib/embedded-db.ts:80-96 | a file that names what another made and does not make it itself takes it away; a third file may bring it back |
| MigrationTrace.OrgIsolationIsLost | supabase/migrations/0019_decision_memory.sql:66 | 0018 makes org_isolation on four tables, 0019 on a fifth; both apply, and the four are gone |
| Migrations.TraceRecorded | scripts/lib/embedded-db.ts:132-148 | the attempts of the passes are on the given files, each on top of what was applied before, and lead to what the passes apply |
| Migrations.CompleteWhenApplied | scripts/lib/embedded-db.ts:132-148 | when every file is applied in the end, every failed attempt is followed by a successful one on that file |
| Migrations.AppliedTraced | scripts/lib/embedded-db.ts:135-146 | the files applied, in order, each apply on top of those before it |
| Migrations.NothingThrownNothingLost | scripts/lib/embedded-db.ts:129-153 | when nothing is thrown, none of the policies and triggers that files made is missing exactly if whatever a file makes, and a file applied later names or drops, is made again by that file or one after it |
| Migrations.OnePass | scripts/lib/embedded-db.ts:133-147 | one pass over the pending files, whole new state; it makes progress exactly if a file is applied |
| Migrations.RemoveApplied | scripts/lib/embedded-db.ts:141 | the files still pending, in order |
| Migrations.ListFailures | scripts/lib/embedded-db.ts:149-153 | the thrown list pairs each pending file with its last error |
| Migrations.StuckForGood | scripts/lib/embedded-db.ts:147 | once a pass makes no progress no later pass would |
| Migrations.StuckHoldsEverything | scripts/lib/embedded-db.ts:132-148 | whatever applies in some order has been applied when the loop is stuck |
| Migrations.StuckIsLeast | scripts/lib/embedded-db.ts:132-148 | stopping for lack of progress leaves the least fixpoint |
| Migrations.OrderDoesNotMatter | scripts/lib/embedded-db.ts:128-129 | the fixpoint is the same for every order of the files |
| Migrations.AppliedAtTurn | scripts/lib/embedded-db.ts:135-146 | a pass applies a file exactly when it applies at its turn |
| Migrations.RuleOfMonotone | scripts/lib/embedded-db.ts:135-146 | applying once all dependencies are applied is a monotone rule, so the fixpoint results hold for it |
| Migrations.DepsApplied | scripts/lib/embedded-db.ts:135-146 | the dependencies of an applied file are applied |
| Migrations.ChainDelays | scripts/lib/embedded-db.ts:132-148 | a dependency chain with b backward links keeps its last file pending through pass b |
| Migrations.PendingHasChain | scripts/lib/embedded-db.ts:132-148 | a file pending after n passes ends a chain with at least n backward links |
| Migrations.TenPassesSuffice | scripts/lib/embedded-db.ts:132-153 | everything applies within ten passes exactly when all dependencies are among the files and no chain has more than nine backward links |
| PdfWrap.TextWidth | tools/pdf_engine.js:14-25 | the loop sums the table widths and scales them |
| PdfWrap.Row2Widths | tools/pdf_engine.js:12 | the widths of the characters from space to slash are those of the Helvetica font metrics, class by class |
| PdfWrap.Row3Widths | tools/pdf_engine.js:12 | so are those from 0 to the question mark |
| PdfWrap.Row4Widths | tools/pdf_engine.js:12 | so are those from the at sign to O |
| PdfWrap.Row5Widths | tools/pdf_engine.js:12 | so are those from P to the underscore |
| PdfWrap.Row6Widths | tools/pdf_engine.js:12 | so are those from the grave accent to o |
| PdfWrap.Row7Widths | tools/pdf_engine.js:12 | so are those from p to the tilde |
| PdfWrap.OtherWidths | tools/pdf_engine.js:19-22 | beyond ASCII a dash counts 500, a bullet 350, a quote 300 and anything else 556 |
| PdfWrap.FitsExactly | tools/pdf_engine.js:67 | a text fits if its width times the size is at most a thousand times the column |
| PdfWrap.WrapText | tools/pdf_engine.js:61-72 | the greedy loop |
| PdfWrap.WrapFits | tools/pdf_engine.js:67 | for any text no line is empty and every line fits unless it is a single word |
| PdfWrap.WrapKeepsWords | tools/pdf_engine.js:61-72 | for any text the lines hold exactly its words, in order |
| PdfWrap.DropWords | tools/pdf_engine.js:61-72 | leaving out the first words of a wrapping never takes more lines |
| PdfWrap.GreedyIsShortest | tools/pdf_engine.js:61-72 | greedy filling is at least as short as any grouping of the same words |
| PdfWrap.WrapIsShortest | tools/pdf_engine.js:61-72 | on single-spaced text no wrapping has fewer lines |
| PdfWrap.WrapIsWrapping | tools/pdf_engine.js:61-72 | on single-spaced text the lines joined by spaces are the text |
| PdfStrings.Encode | tools/pdf_engine.js:28-39 | the encoding loop |
| PdfStrings.EncIsBytes | tools/pdf_engine.js:28-39 | every character becomes one byte, and bytes stay what they are |
| PdfStrings.EscIsEscEach | tools/pdf_engine.js:41 | the three replacements in a row escape each character once |
| PdfStrings.EncOfEsc | tools/pdf_engine.js:28-41 | escaping and encoding commute |
| PdfStrings.ReadEscEach | tools/pdf_engine.js:41 | reading an escaped string by section 7.3.4.2 of ISO 32000-1 stops right behind it and gives the text with normalised line ends |
| PdfStrings.EscRoundTrip | tools/pdf_engine.js:41 | the text itself is read back exactly when it has no carriage return |
| PdfStrings.EncodedRoundTrip | tools/pdf_engine.js:28-41 | and so it is after encoding |
| PdfStrings.ShownExactly | tools/pdf_engine.js:28-39 | in WinAnsiEncoding (annex D.2 of ISO 32000-1) a character is shown as itself exactly if it is printable ASCII, Latin-1 but for its two blanks, or one of seven marks |
| PdfStrings.LostMarks | tools/pdf_engine.js:28-39 | the twenty characters that WinAnsiEncoding has and the writer prints as question marks |
| PdfStrings.DrawnExactly | tools/pdf_engine.js:28-41 | what is drawn for an escaped and encoded string is the text itself exactly if every character is one of those |
| PdfStrings.StandardExactly | tools/pdf_engine.js:170-172 | the font dictionaries name no encoding; read in StandardEncoding, only ASCII without two marks and nine signs are shown as themselves, and the seven marks show nothing |
| PdfBuild.WriteObject | tools/pdf_engine.js:208-223 | the buffers of one object and the sum of their lengths |
| PdfBuild.WriteObjects | tools/pdf_engine.js:200-223 | the loop over the objects: their bytes, and in `offsets` the position of each |
| PdfBuild.WriteEntries | tools/pdf_engine.js:226-229 | the loop over the offsets writes one entry per object |
| PdfBuild.Build | tools/pdf_engine.js:200-232 | the whole file, and in `offsets` the position of every object |
| PdfBuild.DigitsValue | tools/pdf_engine.js:210 | a decimal number denotes the number it was made from |
| PdfFormat.BodyBytes | tools/pdf_engine.js:167-177 | encoding leaves the structural objects as they are |
| PdfFormat.PrefixContains | tools/pdf_engine.js:208-223 | every object stands where its prefix ends |
| PdfFormat.ObjectAtOffset | tools/pdf_engine.js:209 | the bytes at an object's offset are that object |
| PdfFormat.EntryShape | tools/pdf_engine.js:228 | a cross-reference entry has its 20 bytes and right digits exactly when the offset has at most ten digits |
| PdfFormat.TableShape | tools/pdf_engine.js:226-229 | all entries have 20 bytes (section 7.5.4 of ISO 32000-1) exactly when the last object begins below ten billion bytes |
| PdfFormat.EntriesAt | tools/pdf_engine.js:226-229 | entry k of the table is at 20 times k bytes and holds the offset of object k |
| PdfFormat.StartXrefOfFile | tools/pdf_engine.js:225-230 | startxref read from the end of the file is the position of the table |
| PdfFormat.TableIsRead | tools/pdf_engine.js:225-230 | startxref leads to the table and its size (sections 7.5.4 and 7.5.5 of ISO 32000-1) |
| PdfFormat.EntryIsRead | tools/pdf_engine.js:226-229 | every entry read is the byte position of its object's header |
| PdfFormat.RootIsRead | tools/pdf_engine.js:230 | the trailer's Root is the catalog |
| PdfFormat.FontsAreRead | tools/pdf_engine.js:170-172 | objects 3 to 5 are the fonts Helvetica, Helvetica-Bold and Helvetica-Oblique |
| PdfFormat.FreeEntryIsRead | tools/pdf_engine.js:226 | entry 0 of the table heads the free list with generation 65535 |
| PdfFormat.HeaderComment | tools/pdf_engine.js:204-205 | the comment line holds the four characters E2, E3, CF, D3, each in the two bytes of UTF-8 |
| PdfFormat.TreeIsRead | tools/pdf_engine.js:168-169 | Root and Pages lead to the page objects, in order, and Count is their number (section 7.7.3.2 of ISO 32000-1) |
| PdfFormat.PageObjectIsRead | tools/pdf_engine.js:174-177 | each page object leads back to the page tree, is 612 by 792 points, and names the three fonts and its own content stream |
| PdfFormat.StreamIsRead | tools/pdf_engine.js:212-217 | Length is the exact number of bytes between the keywords (section 7.3.8 of ISO 32000-1) |
| PdfFormat.PageStreamIsRead | tools/pdf_engine.js:212-217 | the stream object of page i holds the encoded content of page i |
| PdfFormat.PageIsRead | tools/pdf_engine.js:162-235 | for any number of pages and any contents, a reader that shares no definition with the writer finds for every page, from the end of the file, its size, its three fonts by name and exactly its encoded content |
| PdfFormat.PageCountIsRead | tools/pdf_engine.js:162-235 | header, free entry, trailer and page tree are as ISO 32000-1 asks, and the file announces exactly its pages |
| Lineage.CompareAll | scripts/lineage-parity.ts:302-326 | the loop over the keys of one section |
| Lineage.ComputeDiff | scripts/lineage-parity.ts:283-328 | the two loops of `diff`, extensions first |
| Lineage.Report | scripts/lineage-parity.ts:351-377 | the verdict is true exactly when every difference is expected |
| Lineage.DiffMembers | scripts/lineage-parity.ts:283-328 | a difference is reported exactly when the two sides differ on that key, with the right kind and values |
| Lineage.ExpectedExactly | scripts/lineage-parity.ts:255-281 | which differences are expected, text by text: five extensions, the embedding column between its two types, an index that names pgvector, three functions and those that one of the five owns |
| Lineage.CompareExactly | scripts/lineage-parity.ts:283-328 | what is reported about a key that both sides, or only one, or neither has |
| Lineage.DiffInSections | scripts/lineage-parity.ts:284-300 | the extensions come first, then the six other sections in order |
| Lineage.DiffReportsOnce | scripts/lineage-parity.ts:283-328 | no key of a section is reported twice |
| Lineage.DiffIsPatch | scripts/lineage-parity.ts:283-328 | applying the diff to any section of the left side gives that section of the right side |
| Lineage.IncludesAcrossSpace | scripts/lineage-parity.ts:270 | searching the two joined texts is searching either of them |
| Lineage.ExpectedSwaps | scripts/lineage-parity.ts:255-281 | the expected flag is the same in both directions exactly unless the two sides attribute a function to different owners |
| Lineage.DiffSwaps | scripts/lineage-parity.ts:283-328 | swapping the sides exchanges missing and extra; the flag survives exactly unless the owners clash |
| Lineage.CleanMeansDocumented | scripts/lineage-parity.ts:351-377 | a report is clean exactly when the sides differ in nothing but the documented ways |
| Lineage.CleanMeansNoDrift | scripts/lineage-parity.ts:351-377 | a clean report implies identical policies, row-level security and triggers, and columns identical but for `company_memory.embedding` |
| UseApi.StepKeepsTable | apps/web/lib/use-api.ts:56-82 | every step keeps the request table exact |
| UseApi.StepKeepsCache | apps/web/lib/use-api.ts:69-77 | every step keeps cache entries backed by a successful answer |
| UseApi.StepKeepsLog | apps/web/lib/use-api.ts:48-99 | everything handed to a hook stays justified |
| UseApi.StepKeepsValid | apps/web/lib/use-api.ts:19-129 | every step keeps the whole invariant |
| UseApi.OneRequestPerUrl | apps/web/lib/use-api.ts:56-82 | over every interleaving a URL has at most one outstanding request |
| UseApi.TableIsExact | apps/web/lib/use-api.ts:56-82 | `inflight` holds a URL exactly while a request for it is outstanding |
| UseApi.EveryOutcomeIsValid | apps/web/lib/use-api.ts:48-99 | data from the cache is the answer to a request for that URL that came in less than `revalidateMs` before it was served; other data is the answer to a request for that URL; an error is shown only for a failed one |
| UseApi.WaitersAreServed | apps/web/lib/use-api.ts:56-67 | a hook only ever waits for a request for its own URL, and is given that request's data once it is over |
| UseApi.JoinersAgree | apps/web/lib/use-api.ts:56-67 | hooks that joined one request get the same data |
| UseApi.FailuresAreNotCached | apps/web/lib/use-api.ts:69-77 | a failure never reaches the cache |
| UseApi.FetchExactly | apps/web/lib/use-api.ts:45-82 | in every reachable state a fresh entry is served at once without a request, otherwise an outstanding request is joined, or else one is made |
| UseApi.MutateExactly | apps/web/lib/use-api.ts:111-116 | a mutation drops the entry and serves nothing from the cache, however fresh |
| UseApi.InvalidateExactly | apps/web/lib/use-api.ts:123-129 | the entries that survive are those whose URL does not have the pattern anywhere in it |
| UseApi.RequestEnds | apps/web/lib/use-api.ts:69-81 | an answered request that is over has filled the cache if it succeeded, and the next call can make another |
| UseApi.ResumeExactly | apps/web/lib/use-api.ts:58-99 | data goes to every mounted hook that waited, a failure only to the mounted one that asked |
| UseApi.StepKeepsOneAtATime | apps/web/lib/use-api.ts:56-82 | requests for one URL never overlap: all but the last are over |
| UseApi.StepKeepsLatest | apps/web/lib/use-api.ts:69-77 | every step keeps cache entries the answers to the latest successful request for their URL |
| UseApi.CacheIsLatest | apps/web/lib/use-api.ts:69-77 | over every interleaving, whatever is cached is the answer to the latest request for its URL that succeeded |
| UseApi.ApiCache.constructor | apps/web/lib/use-api.ts:19-20 | both maps start empty |
| UseApi.ApiCache.FetchData | apps/web/lib/use-api.ts:45-82 | cache hit, join or new request, with the whole new state |
| UseApi.ApiCache.OnAnswer | apps/web/lib/use-api.ts:69-77 | only a successful answer fills the cache |
| UseApi.ApiCache.OnFinally | apps/web/lib/use-api.ts:78-80 | the request leaves the table whatever its result |
| UseApi.ApiCache.Mutate | apps/web/lib/use-api.ts:111-116 | the entry is dropped, then fetched or joined |
| UseApi.ApiCache.InvalidateApiCache | apps/web/lib/use-api.ts:123-129 | exactly the keys that contain the pattern are dropped |
| DrDrill.Dump | scripts/dr-drill.ts:189-203 | the page walk writes every row once, in order, and counts the rows, in one query more than there are full pages of 5000 |
| DrDrill.LinesOfDump | scripts/dr-drill.ts:313-316 | splitting a dumped file and dropping empty lines gives back its rows |
| DrDrill.FilterColumns | scripts/dr-drill.ts:286 | the columns in use are exactly the dumped ones that the target has, in the order and multiplicity of the dump |
| DrDrill.InUseMembers | scripts/dr-drill.ts:286 | a column is in use exactly if it is in both lists |
| DrDrill.BuildTuple | scripts/dr-drill.ts:322-329 | each column pushes one parameter and writes its number |
| DrDrill.BuildInsert | scripts/dr-drill.ts:321-330 | the statement inserts the chunk's rows, and its placeholders read 1, 2, 3 and so on up to the number of parameters |
| DrDrill.InsertChunks | scripts/dr-drill.ts:318-337 | every row is inserted exactly once, in file order, cell by cell; statements are full but for the last; a bad line loads nothing |
| DrDrill.LoadTable | scripts/dr-drill.ts:279-337 | skipping, the empty table, the completeness error and the chunked load |
| DrDrill.BudgetKept | scripts/dr-drill.ts:318 | no statement exceeds 60000 parameters exactly when the table has at most 60000 columns in use |
| DrDrill.DumpAndLoad | scripts/dr-drill.ts:445-446 | dump then restore: every row comes back, and in it, under the name of every column that both ends have, the value of the dumped row, NULL if it has none; within the budget exactly with at most 60000 such columns |
| DrDrill.GeneratedIdsAreFresh | scripts/dr-drill.ts:348-357 | after the reset no generated id, however many, equals or precedes a restored id |
| DrDrill.ResetExactly | scripts/dr-drill.ts:348-357 | the sequence is set to the least value that is no less than 1, the snapshot's last value and every restored id, as used exactly if a restored id is positive |
| DrDrill.LastValueIsPassed | scripts/dr-drill.ts:338-357 | the snapshot's last value is passed exactly when it is below 1 or a restored id is positive; otherwise it is handed out again |
| Health.DepartmentHealth | apps/web/lib/health-score.ts:45-103 | accumulated score, label and pushed segments are those of a weighted mean over the dimensions that apply |
| Health.ComputeScore | apps/web/lib/health-score.ts:158-265 | the company score, label and five segments |
| Health.DepartmentScoreExactly | apps/web/lib/health-score.ts:58-101 | the score is the integer nearest to (25 workforce + 30 execution + 10 approvals + 20 budget) / 85, or without a budget / 65, each a percentage of the inputs |
| Health.CompanyScoreExactly | apps/web/lib/health-score.ts:171-185 | the score is the integer nearest to (25 workforce + 30 execution + 20 credits + 10 approvals + 15 goals) / 100, cut off at 0 and 100 |
| Health.ApprovalsExactly | apps/web/lib/health-score.ts:61 | 100, 80, 60, 40, 20 and then 0 by the number of requests waiting |
| Health.LabelExactly | apps/web/lib/health-score.ts:38-43 | the labels begin at 80, 60 and 40 |
| Health.StatusExactly | apps/web/lib/health-score.ts:109-113 | a segment is good from 70 on, critical below 40, neutral at 0 where there is nothing to count |
| Health.SegmentsExactly | apps/web/lib/health-score.ts:63-99 | the segments of a department: names, values, and which may be neutral |
| Health.CompanySegmentsExactly | apps/web/lib/health-score.ts:218-264 | the five segments of a company, neutral at 0 while it has no agents |
| Health.PercentMonotone | apps/web/lib/health-score.ts:59-60 | more of the good part and less of the rest never lowers a percentage |
| Health.MeanStep | apps/web/lib/health-score.ts:84-101 | adding a dimension moves the mean towards its value and not past it |
| Health.MeanInRange | apps/web/lib/health-score.ts:84-101 | a weighted mean lies between the least and the greatest value |
| Health.MeanMonotone | apps/web/lib/health-score.ts:84-101 | a weighted mean is monotone in every dimension |
| Health.DepartmentClampNeverActs | apps/web/lib/health-score.ts:101 | the department score is the rounding of a convex combination of percentages: the clamp never acts, whatever the budget |
| Health.DepartmentMonotone | apps/web/lib/health-score.ts:58-101 | the score never falls as work completes or members become active, and never rises as more approvals wait |
| Health.BudgetPullsTowardsItself | apps/web/lib/health-score.ts:88-101 | setting a budget moves the score to between the unbudgeted score and the rounded budget percentage |
| Health.CompanyClampNeverActs | apps/web/lib/health-score.ts:178-185 | for in-range inputs the company clamp never acts |
| Health.ClampActsExactly | apps/web/lib/health-score.ts:178-185 | for any company the clamp acts exactly if the weighted sum is below -0.5 or at least 100.5 |
| Health.CompanyClampExactly | apps/web/lib/health-score.ts:174-185 | for given credits the clamp acts on no company exactly if the credits percentage is at least -2.5 and below 102.5 |
| Health.CompanyClampActs | apps/web/lib/health-score.ts:174-185 | one company with 300 of 100 credits and everything else done: 140 becomes 100 |
| Health.CreditsPercentMonotone | apps/web/lib/health-score.ts:174 | credits added to the same total, whatever its sign, or unspent ones added to both, never lower their percentage |
| Health.CompanyMonotone | apps/web/lib/health-score.ts:171-185 | the company score never falls as parts complete or the credits percentage grows, nor rises as more approvals wait, for any credits |

## Left out

- LauncherRuns.Converges: the page, viewport, sizes and preferences do not change during a run; a change starts a new run from the states it finds, which the theorem covers.
- LauncherRuns.StagedChecksSettle: launchers mounted at one time, checks and paints each less than 25 ms late; with longer delays or later mounts only `Converges` and `RoundsSettle` apply.
- LauncherProtocol.NoStacking: launchers of the default size and nothing else on the page; `SettlesClear` is about any page and sizes.
- CommandProtocol.AtMostOnce: the server is not modelled beyond the question whether it works before its first event is delivered.
- CommandStream.ReadStream: chunks are decoded text; the UTF-8 decoder, and the `onStage` and `onTask` callbacks, which could throw, are not modelled.
- CommandUi.ExecutiveAgent.Settle: the reply text is a parameter; its extraction from the response, ids, timestamps and persistence are not modelled.
- Png.DecodeCrop: coordinates are integers; `Number` also yields fractions and NaN.
- Png.DecodeEncode: memory limits of `Buffer.alloc` and the file system are not modelled.
- Png.DecodePng: like the source it checks neither the signature nor any CRC.
- PngReader.Read: reads no interlaced, filtered or other than RGBA pictures and no ancillary chunks; the writer makes none.
- PdfReader.ReadPage: expects dictionary keys in one order and generation 0 throughout, which is all that the writer makes.
- PdfWrap.OtherWidths: in the font metrics the dashes are 556 and 1000 wide and the double quotes 333, so a line with those can be wider than measured.
- PdfWrap.TextWidth: lengths are exact reals; a character beyond the basic plane is a single character here.
- PdfFormat.PageIsRead: for files whose last object begins below ten billion bytes, the exact limit of the ten-digit entries (`TableShape`); page contents are the final content streams, so headers and footers are part of them.
- RateLimiter.Limiter.OnRequest: the reply body and its wording are not modelled.
- Realtime.Client.Broadcast: subscribers that subscribe or unsubscribe during a broadcast are not modelled, nor is the order of subscribers; a late subscriber is not told the connection status, as in the source.
- Migrations.ApplyMigrations: `supabaseOrder`, `withoutVector` and the SQL itself; the order, the names found in a file, its effect and whether it applies are parameters, and the last two depend on the files applied before, not on policies or triggers; a drop statement that itself fails, or a file that commits on its own, is not modelled.
- Lineage.Report: the printed text; only the verdict is modelled. Inherited object keys in `key in a` are not modelled.
- UseApi.EveryOutcomeIsValid: after `mutate` a hook may join an older request, so freshness after a mutation is not claimed; loading flags are not modelled.
- DrDrill.DumpAndLoad: the table does not change during the walk; value encoding, `coerce`, drift messages and the other tables of the transaction are not modelled; a statement without columns is counted but would be refused by the server.
- DrDrill.GeneratedIdsAreFresh: sequences count up by one, and ids are exact integers.
- Health.DepartmentMonotone: exact reals instead of floating point; display strings, colours and descriptions are not modelled.
- The element selectors, the removal of duplicate elements and the text of `collidingElements` in `use-collision-detection.ts`; dragging.
- Drawing, rasterising and font parsing in `tools/`, layout and pagination of the PDF engine before its content streams.
- Redis limiters, API routes, the job queue, the credit ledger and the audit chain; React rendering, storage and display formatting.
