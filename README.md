# serial_test, modelled in Dafny

serial_test is a command-line tool that stress-tests a serial device. It
opens a port and sends a fixed command over and over, one round at a time.
Each round waits a short while for a reply that contains an expected
substring. The tool counts rounds, passes and consecutive failures. It stops
with a success exit code when the configured test time is used up, and with
a failure code when too many rounds fail in a row (the circuit breaker).

This project models the tool's sequential core and proves properties of it:

- `codec.dfy` (module `Codec`) models the line codec of `src/codec.rs`:
  - `Decode` cuts the first line, terminated by CR LF or LF CR, off the
    front of a receive buffer held in a `BytesMut` object. It checks that
    the line is UTF-8 and reports an overflow once more than 1024 bytes are
    pending without a terminator.
  - `Encode` appends an item to a send buffer, with CR LF unless the item
    already ends with it.
- `cli.dfy` (module `Cli`) models the configuration in `src/cli.rs`:
  - the test-suite catalogue;
  - the option defaults;
  - the table from verbosity to log level.
- `harness.dfy` (module `Harness`) models the control logic of
  `src/main.rs`:
  - `HandleReader` is the reader task. It raises the match flag on a
    matching line and stops when the stop flag is set.
  - `RoundTest` is one send-and-poll round.
  - `MainLoop` is the counter, breaker and time-expiry loop.
  - `RunMain` maps the loop's result to the process exit code.
- `utf8.dfy` (module `Utf8`) defines bytes, UTF-8 validity and ASCII
  literals. `wrappers.dfy` defines `Option` and `Result`.

Modelling choices:

- **Strings.** A Rust `String` is its UTF-8 bytes, a `seq<Byte>`. Validity
  follows the UTF8-octets grammar in section 4 of RFC 3629. Substring search
  (`str::contains`) is contiguous byte-sequence search, which agrees with
  `str::contains` on valid UTF-8.
- **Flags.** The two shared flags `test_ok` and `child_alive` are the fields
  of a `Flags` object, changed in place. The reader sets `test_ok`
  (main.rs:40-41) and `round_test` clears it (main.rs:65-66). `child_alive`
  is written by the Ctrl-C handler (main.rs:104-105) and by `main`
  (main.rs:173-176); inside `HandleReader` the write of `childAlive` on a
  `stopRaised` step stands for those writers. `child_alive == true` means
  "reader, stop" (main.rs:33), whatever the name suggests.
- **Reader trace.** The reader runs concurrently with the controller, so the
  model takes its interleaving as input:
  - `ReaderStep` records whether the stop flag was raised before a read, and
    what that read yielded. It does not carry `round_test`'s clears of
    `test_ok` (main.rs:65-66), so the final `testOk` of `HandleReader` is the
    reader's own effect on the flag; the clears and their interleaving with
    the reader are modelled on the round side (`RoundTest`).
  - During a round, each `Poll` lists the reader's items handled since the
    previous look at the flag.
  - `RoundInput.beforeClear` lists the items handled between the send and
    the clear.
- **Clock.** The clock is also input. Each main-loop `Iteration` carries the
  elapsed time its time check sees. Each `Poll` carries the time since the
  round's clock started. Both comparisons are strict, as in the source.
  `main_loop`'s `sleep(interval)` (main.rs:144) is counted: `MainLoop`
  returns the number of pauses. `round_test`'s `sleep(round_interval)`
  (main.rs:78) is no more than the step from one `Poll` to the next. No
  time passes in the model.
- **Traces must end.** A trace must end in an expired time check
  (`TimeRunsOut`). A round whose send succeeds must end in a poll past the
  timeout (`PollsSettle`). Those are the input conditions under which the
  source's loops end at all.
- **Reference definitions.** Each loop is tied to a function that states the
  result independently:
  - `HandleReader` to `StopIndex` and `RaiseOnMatch`;
  - `RoundTest` to `RoundPasses`;
  - `MainLoop` to `Run`.
- **Counters.** The counters are proved equal to a tally of round outcomes
  (`Outcomes`, `Tallied`, `RunOver`).

The flag and the clock of a round, as the code orders them:

- `round_test` clears the match flag only after the send (main.rs:60-67),
  so a reply the reader handles in between is lost. `LostMatch` exhibits
  such a round. `RoundTest` applies those items to the flag before clearing
  it and is still proved to return `RoundPasses`, which does not look at
  them; `BeforeClearIgnored` states that independence.
- The round clock starts after the clear (main.rs:68), so the poll times in
  the model are measured from the clear.

An item and the same item followed by CR LF frame identically only when the
item does not already end in CR LF (`FramedAbsorbsTerminator`);
`FramedKeepsSecondTerminator` is the counterexample ("\r\n" against
"\r\n\r\n").

## Model

| member | source | states |
|---|---|---|
| Codec.FirstMarker | src/codec.rs:12-15 | the result is present exactly when some two-byte window is CR LF or LF CR, and is then the index of the first such window |
| Codec.FirstMarkerUnique | src/codec.rs:12-15 | whenever `n` is the first terminator window, the search returns `n` |
| Codec.DecodeFrame | src/codec.rs:11-34 | what is left is always a suffix of the buffer; a returned line plus what is left is the old buffer, and the line is valid UTF-8; an invalid-string error carries exactly the removed bytes, which are not UTF-8; the overflow error and "nothing yet" leave the buffer whole, with more than 1024 and at most 1024 bytes respectively |
| Codec.Decode | src/codec.rs:11-34 | decoding in place returns the result and leaves the buffer described by `DecodeFrame` on the old buffer contents |
| Codec.DecodeAtFirstMarker | src/codec.rs:16-25 | with a first terminator at `n`, exactly `n + 2` bytes are removed whatever the buffer length; valid bytes come back as the line; invalid bytes give the error but are still removed |
| Codec.DecodeWithoutMarker | src/codec.rs:27-33 | without a terminator nothing is removed; the result is "nothing yet" up to 1024 bytes and the overflow error with the length beyond |
| Codec.FirstWindowWins | src/codec.rs:12-20 | "X\n\r\n" yields the line "X\n\r" and leaves "\n" |
| Codec.Framed | src/codec.rs:42-47 | the appended bytes start with the item and always end in CR LF; they are the item alone exactly when it already ends in CR LF, and otherwise the item followed by CR LF |
| Codec.Encode | src/codec.rs:40-49 | the old contents of the send buffer stay as a prefix, followed by the framed item |
| Codec.FramedIdempotent | src/codec.rs:42-47 | framing a framed item changes nothing |
| Codec.FramedAbsorbsTerminator | src/codec.rs:42-47 | an item not ending in CR LF and the same item with CR LF appended frame identically |
| Codec.FramedKeepsSecondTerminator | src/codec.rs:42-43 | without that premise the claim fails: "\r\n\r\n" and "\r\n" frame differently |
| Codec.RoundTrip | src/codec.rs:12-47 | decoding the encoding of a valid item that holds no terminator window and does not end in LF, with any bytes `more` behind it, yields the item plus CR LF and leaves exactly `more` |
| Codec.PartialFrame | src/codec.rs:12-33 | every proper prefix of a framed item, up to 1024 bytes, yields "nothing yet" and stays buffered; once completed, the whole line comes out and the buffer is empty |
| Codec.DecodeWholeLine | src/codec.rs:12-20 | "OK\r\n" decodes in one call to itself and leaves an empty buffer |
| Codec.DecodeLineInTwoParts | src/codec.rs:12-33 | "OK" alone yields nothing and is kept; "OK\r\n" then yields the line and an empty buffer |
| Cli.FromSuite | src/cli.rs:15-28 | every test case's command is a printable `$`-prefixed name of length above one, and its expected reply is that name without `$` followed by ",BG1101" |
| Cli.CatalogueEntries | src/cli.rs:17-26 | Regular maps to ("$QXMONCSTM", "QXMONCSTM,BG1101") and SingleBD to ("$QXMON", "QXMON,BG1101") |
| Cli.SuitesDistinct | src/cli.rs:16-27 | distinct suites have distinct commands and distinct expected replies |
| Cli.LevelFor | src/cli.rs:72-76 | the level is Info exactly for verbosity 0, Debug exactly for 1 and Trace exactly for 2 or more, so never quieter than Info |
| Cli.LevelForMonotone | src/cli.rs:72-76 | more verbosity never gives a quieter level, and two or more give Trace |
| Cli.DefaultOptions | src/cli.rs:33-67 | defaults: baud 921600, test time 10 s, interval 1000 ms, round timeout 30 ms, round interval 5 ms, max fail count 5, verbosity 0 (level Info), test suite Regular |
| Harness.RaiseOnMatch | src/main.rs:37-44 | after the reader handles a sequence of items, the flag is set exactly when it was set before or some item is an `Ok` line containing the expected reply |
| Harness.ReaderOnlyRaises | src/main.rs:37-47 | the reader never clears the flag, and errors, end of stream and non-matching lines leave it unchanged |
| Harness.StopIndex | src/main.rs:32-36 | the number of reads before the reader sees the stop flag; no step before it raised the flag, and the reader stops at once if the flag was already set |
| Harness.HandleReader | src/main.rs:24-49 | the reader loop performs exactly `StopIndex` reads; afterwards the stop flag is set exactly when the loop left early; the match flag is `RaiseOnMatch` over the items read |
| Harness.PollsPassIff | src/main.rs:69-79 | the polling passes exactly when some poll sees a matching item, and no earlier poll saw the timeout |
| Harness.RoundTest | src/main.rs:51-80 | the round returns `RoundPasses`; a failed send returns false and leaves the flag unchanged; after a successful send the flag equals the verdict on return |
| Harness.LostMatch | src/main.rs:60-67 | a round whose only matching reply is handled between the send and the clear fails |
| Harness.BeforeClearIgnored | src/main.rs:60-67 | the verdict `RoundPasses`, which `RoundTest` is proved to return although it applies those items to the flag before the clear, does not depend on the items handled between the send and the clear |
| Harness.MainLoop | src/main.rs:82-146 | the loop's verdict and counters are `Run` of the trace; a run ending on time paused after every round, and one ending on the breaker after every round but the last |
| Harness.TrailingFails | src/main.rs:129-135 | the length of the run of failures ending the history: those rounds all failed, and the round before them passed |
| Harness.RecordTallied | src/main.rs:129-135 | one round's update keeps the counters equal to the tally: `total` is the number of rounds, `success` the number of passes, `continuous_fail` the trailing failures; and `success <= total` |
| Harness.Outcomes | src/main.rs:118-130 | one round starts for each time check before the first expired one, each with the outcome of its round; on a terminating trace such a check exists |
| Harness.RunFromOutcomes | src/main.rs:118-145 | the loop over the trace equals the counter logic `RunOver` applied to the outcomes of the rounds the time allows |
| Harness.RunOverTallies | src/main.rs:129-143 | from any breaker-free history, the counters at the end are the tally of the rounds started; on time, every allowed round was started and none tripped; on the breaker, the last round started is the first that tripped |
| Harness.RunAccounting | src/main.rs:118-135 | the final counters are the tally of the rounds started, with `success <= total` and `continuous_fail <= total`, and a run ending on time started every round the time allowed |
| Harness.BreakerIff | src/main.rs:136-143 | the run ends on the breaker exactly when some round leaves more than `max_fail_count` consecutive failures, and it stops right after the first such round |
| Harness.SixthFailureTrips | src/main.rs:129-143 | with max fail count 5, six failures from the start end the run after six rounds on the breaker, with counters (6, 0, 6) |
| Harness.FifthFailureTolerated | src/main.rs:118-143 | with max fail count 5, five failed rounds followed by expiry end the run on time with counters (5, 0, 5) |
| Harness.AllPassesSucceed | src/main.rs:118-135 | a run where every round passes ends on time, with `success == total` and no consecutive failures |
| Harness.RunMain | src/main.rs:148-176 | `main` selects the suite's test case, runs the loop and exits with success on expiry and failure on the breaker |
| Harness.ExitCodeReflectsBreaker | src/main.rs:167-171 | the exit code is success exactly when no round tripped the breaker |
| Harness.CatalogueCommandsFramed | src/cli.rs:18-25 | no catalogue command holds CR or LF, so `encode` always appends CR LF to it |
| Harness.ReplyPassesRound | src/main.rs:37-41 | for SingleBD, the reply "QXMON,BG1101,extra\r\n" decodes to one line, and a round whose poll sees it passes |

## Left out

- `init_port` (main.rs:17-22): opening and configuring the serial port is device I/O.
- Tokio tasks, `Arc`, `RwLock` and `Mutex` locking, and awaiting the reader handle (main.rs:101, 154-165, 178-180). Concurrency is replaced by the input traces described above.
- The Ctrl-C handler and its `std::process::exit(0)` (main.rs:101-115): OS signals and out-of-band exit. A `ReaderStep.stopRaised` input stands for its write of the stop flag.
- Real time (`Instant::now`, `elapsed`, `tokio::time::sleep`): elapsed times are inputs; `main_loop`'s pause is counted and `round_test`'s poll sleep is the step to the next poll.
- The `Framed`/`split` stream and sink machinery of tokio_util and futures (main.rs:158): only `decode` and `encode` are modelled. The reader sees items the framed stream already produced.
- `std::str::from_utf8`: replaced by the RFC 3629 validity predicate `Utf8.Valid`.
- The error payloads of `io::Error` (kind and message text): the errors are the `CodecError` cases with the data the messages print.
- The send error's content: a round sees only whether `writer.send` succeeded.
- clap parsing, `simple_logger` setup and every `log::` call (cli.rs:31-33, 70-71, 77; throughout main.rs): foreign libraries and side effects. `LevelFor` gives the level passed to the logger.
- build.rs: it runs `git` to build the version string.
- Harness.MainLoop: the counters are unbounded naturals. In the source, `total` and `success` are `i32` and `continuous_fail` is `u32`, so the source's overflow after 2^31 or 2^32 rounds is not modelled.
- Harness.RoundTest: proved only for traces whose last poll is past the timeout (`PollsSettle`); a round that never times out, which the source would poll forever, is not modelled.
- Harness.MainLoop: proved only for traces ending in an expired time check (`TimeRunsOut`); a run that never expires is not modelled.
- Harness.HandleReader: the trace is finite, so a reader that is never told to stop is modelled only up to the end of its trace.
- Harness.HandleReader: the source keeps polling after the end of the stream; the model treats end of stream as one more non-matching item per step.
