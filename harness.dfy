/**
 * The control logic of src/main.rs: the reader's per-line match rule
 * (`handle_reader`), one send-and-poll round (`round_test`), the
 * counter/breaker/time-expiry loop (`main_loop`) and the exit code of
 * `main`. Clock readings and the lines the concurrently running reader
 * delivers are inputs (traces); the two shared flags are fields.
 */
module Harness {
  import opened Wrappers
  import opened Utf8
  import Codec
  import Cli

  const NANOS_PER_MILLI: nat := 1_000_000
  const NANOS_PER_SECOND: nat := 1_000_000_000

  // ---------------------------------------------------------------------
  // The reader

  /** Why the framed stream failed to yield a line. */
  datatype StreamError = CodecFailure(e: Codec.CodecError) | TransportFailure

  /** One `reader.next().await`: a line, an error, or the end of the stream. */
  type ReadItem = Option<Result<seq<Byte>, StreamError>>

  predicate OccursAt(hay: seq<Byte>, needle: seq<Byte>, i: int) {
    0 <= i && i + |needle| <= |hay| && hay[i..i + |needle|] == needle
  }

  /** `str::contains`: `needle` is a contiguous part of `hay`. */
  predicate Contains(hay: seq<Byte>, needle: seq<Byte>) {
    exists i | 0 <= i <= |hay| - |needle| :: OccursAt(hay, needle, i)
  }

  /** The reader's rule: only a line, never an error, can match. */
  predicate Matches(item: ReadItem, expected: seq<Byte>) {
    item.Some? && item.value.Ok? && Contains(item.value.value, expected)
  }

  /**
   * The match flag after the reader has handled `items` in order, starting
   * from `flag`: it is set exactly when it was set already or some item matches.
   */
  function RaiseOnMatch(flag: bool, items: seq<ReadItem>, expected: seq<Byte>): (f: bool)
    ensures f <==> flag || exists i | 0 <= i < |items| :: Matches(items[i], expected)
    decreases |items|
  {
    if items == [] then flag
    else
      var f := RaiseOnMatch(flag || Matches(items[0], expected), items[1..], expected);
      assert forall i | 0 <= i < |items[1..]| :: items[1..][i] == items[i + 1];
      f
  }

  /** `test_ok` (the match signal) and `child_alive` (true means: reader, stop). */
  class Flags {
    var testOk: bool
    var childAlive: bool

    constructor ()
      ensures !testOk && !childAlive
    {
      testOk := false;
      childAlive := false;
    }
  }

  /**
   * One iteration of the reader loop as seen from outside: whether another
   * task set `child_alive` since the previous check, and what the next read
   * yields if the reader gets that far.
   */
  datatype ReaderStep = ReaderStep(stopRaised: bool, item: ReadItem)

  /** How many reads the reader performs before it sees the stop flag. */
  function StopIndex(alive: bool, steps: seq<ReaderStep>): (k: nat)
    ensures k <= |steps|
    ensures forall j | 0 <= j < k :: !steps[j].stopRaised
    ensures k > 0 ==> !alive
    ensures k < |steps| ==> alive || steps[k].stopRaised
    decreases |steps|
  {
    if steps == [] || alive || steps[0].stopRaised then 0
    else 1 + StopIndex(false, steps[1..])
  }

  function Items(steps: seq<ReaderStep>): (items: seq<ReadItem>)
    ensures |items| == |steps|
    ensures forall i | 0 <= i < |steps| :: items[i] == steps[i].item
  {
    seq(|steps|, i requires 0 <= i < |steps| => steps[i].item)
  }

  /**
   * `handle_reader` (main.rs:24-49): before every read it checks the stop
   * flag and leaves when it is true; a line containing the expected reply
   * sets the match flag; anything else changes nothing.
   */
  method HandleReader(flags: Flags, testcase: Cli.TestCase, steps: seq<ReaderStep>) returns (handled: nat)
    modifies flags
    ensures handled == StopIndex(old(flags.childAlive), steps)
    ensures flags.childAlive == (old(flags.childAlive) || handled < |steps|)
    ensures flags.testOk == RaiseOnMatch(old(flags.testOk), Items(steps[..handled]), testcase.expected)
  {
    handled := 0;
    while handled < |steps|
      invariant handled <= |steps|
      invariant forall j | 0 <= j < handled :: !steps[j].stopRaised
      invariant flags.childAlive == old(flags.childAlive)
      invariant handled > 0 ==> !old(flags.childAlive)
      invariant flags.testOk == RaiseOnMatch(old(flags.testOk), Items(steps[..handled]), testcase.expected)
    {
      if steps[handled].stopRaised {
        flags.childAlive := true;  // written by the Ctrl-C handler or by `main`
      }
      if flags.childAlive {
        break;
      }
      var item := steps[handled].item;
      if Matches(item, testcase.expected) {
        flags.testOk := true;
      }
      assert Items(steps[..handled + 1]) == Items(steps[..handled]) + [item];
      handled := handled + 1;
    }
  }

  /** The match flag is only ever raised by the reader, never lowered. */
  lemma ReaderOnlyRaises(flag: bool, items: seq<ReadItem>, expected: seq<Byte>)
    ensures flag ==> RaiseOnMatch(flag, items, expected)
    ensures (forall i | 0 <= i < |items| :: !Matches(items[i], expected)) ==>
              RaiseOnMatch(flag, items, expected) == flag
  {
  }

  // ---------------------------------------------------------------------
  // One round

  /**
   * One look at the flag during a round: the reader's items handled since
   * the previous look, and the time since the flag was cleared, in ns.
   */
  datatype Poll = Poll(arrived: seq<ReadItem>, elapsedNs: nat)

  /**
   * Everything a round observes: whether `writer.send` succeeded, the
   * reader's items handled between the send and the clear of the flag, and
   * the successive polls.
   */
  datatype RoundInput = RoundInput(sendOk: bool, beforeClear: seq<ReadItem>, polls: seq<Poll>)

  /** `round_current.elapsed() > round_timeout` (strict). */
  predicate RoundTimedOut(elapsedNs: nat, roundTimeoutMs: nat) {
    elapsedNs > roundTimeoutMs * NANOS_PER_MILLI
  }

  /** Time moves on: the last poll of the trace is past the round timeout. */
  predicate PollsSettle(polls: seq<Poll>, roundTimeoutMs: nat) {
    |polls| > 0 && RoundTimedOut(polls[|polls| - 1].elapsedNs, roundTimeoutMs)
  }

  predicate Hit(p: Poll, expected: seq<Byte>) { RaiseOnMatch(false, p.arrived, expected) }

  /** The polling loop reports a pass: flag checked first, then the timeout. */
  predicate PollsPass(polls: seq<Poll>, expected: seq<Byte>, roundTimeoutMs: nat)
    decreases |polls|
  {
    if polls == [] then false
    else Hit(polls[0], expected) ||
         (!RoundTimedOut(polls[0].elapsedNs, roundTimeoutMs) && PollsPass(polls[1..], expected, roundTimeoutMs))
  }

  /** What `round_test` returns for a round that observes `r`. */
  predicate RoundPasses(testcase: Cli.TestCase, roundTimeoutMs: nat, r: RoundInput) {
    r.sendOk && PollsPass(r.polls, testcase.expected, roundTimeoutMs)
  }

  /** Poll `i` sees the flag set, and no earlier poll saw the timeout. */
  predicate PassesAt(polls: seq<Poll>, i: nat, expected: seq<Byte>, roundTimeoutMs: nat)
    requires i < |polls|
  {
    Hit(polls[i], expected) && forall j | 0 <= j < i :: !RoundTimedOut(polls[j].elapsedNs, roundTimeoutMs)
  }

  /**
   * A round's polling passes exactly when a matching line is handled before
   * some poll that comes no later than the first poll past the timeout.
   */
  lemma {:induction false} PollsPassIff(polls: seq<Poll>, expected: seq<Byte>, t: nat)
    ensures PollsPass(polls, expected, t) <==> exists i | 0 <= i < |polls| :: PassesAt(polls, i, expected, t)
    decreases |polls|
  {
    if polls != [] {
      PollsPassIff(polls[1..], expected, t);
      if PollsPass(polls, expected, t) {
        if !Hit(polls[0], expected) {
          var i :| 0 <= i < |polls[1..]| && PassesAt(polls[1..], i, expected, t);
          assert PassesAt(polls, i + 1, expected, t) by {
            forall j | 0 <= j < i + 1
              ensures !RoundTimedOut(polls[j].elapsedNs, t)
            {
              if j > 0 { assert polls[j] == polls[1..][j - 1]; }
            }
          }
        } else {
          assert PassesAt(polls, 0, expected, t);
        }
      } else {
        forall i | 0 < i < |polls| && PassesAt(polls, i, expected, t)
          ensures PassesAt(polls[1..], i - 1, expected, t)
        {
          assert polls[1..][i - 1] == polls[i];
        }
      }
    }
  }

  /**
   * `round_test` (main.rs:51-80). A failed send returns false at once and
   * leaves the flag alone. Otherwise the flag is cleared AFTER the send, the
   * clock starts, and each poll checks the flag, then the timeout, and
   * sleeps `round_interval`. On return the flag agrees with the verdict.
   */
  method RoundTest(flags: Flags, opts: Cli.Options, testcase: Cli.TestCase, r: RoundInput) returns (pass: bool)
    requires r.sendOk ==> PollsSettle(r.polls, opts.roundTimeout)
    modifies flags`testOk
    ensures pass == RoundPasses(testcase, opts.roundTimeout, r)
    ensures !r.sendOk ==> flags.testOk == old(flags.testOk)
    ensures r.sendOk ==> flags.testOk == pass
  {
    if !r.sendOk {
      return false;
    }
    // the reader may set the flag before the controller clears it
    flags.testOk := RaiseOnMatch(flags.testOk, r.beforeClear, testcase.expected);
    flags.testOk := false;
    var i := 0;
    while true
      invariant i < |r.polls|
      invariant !flags.testOk
      invariant PollsPass(r.polls, testcase.expected, opts.roundTimeout) ==
                PollsPass(r.polls[i..], testcase.expected, opts.roundTimeout)
      decreases |r.polls| - i
    {
      // the reader's writes that land before this look at the flag
      flags.testOk := RaiseOnMatch(flags.testOk, r.polls[i].arrived, testcase.expected);
      if flags.testOk {
        return true;
      }
      if RoundTimedOut(r.polls[i].elapsedNs, opts.roundTimeout) {
        return false;
      }
      // sleep(round_interval)
      assert r.polls[i..][1..] == r.polls[i + 1..];
      i := i + 1;
    }
  }

  /**
   * The lost match: a reply handled between the send and the clear does not
   * count, so a round whose only matching line arrives that early fails.
   */
  lemma LostMatch(testcase: Cli.TestCase, t: nat)
    ensures var r := RoundInput(true, [Some(Ok(testcase.expected))], [Poll([], t * NANOS_PER_MILLI + 1)]);
            Matches(r.beforeClear[0], testcase.expected) && !RoundPasses(testcase, t, r)
  {
    var e := testcase.expected;
    assert OccursAt(e, e, 0) by { assert e[0..|e|] == e; }
  }

  /**
   * What happens between the send and the clear never decides the round.
   * `RoundPasses` does not read `beforeClear`, so this holds by definition;
   * the proof that matters is `RoundTest`'s `ensures pass == RoundPasses(..)`,
   * over a body that does apply `beforeClear` to the flag before clearing it.
   */
  lemma BeforeClearIgnored(testcase: Cli.TestCase, t: nat, r: RoundInput, early: seq<ReadItem>)
    ensures RoundPasses(testcase, t, r) == RoundPasses(testcase, t, r.(beforeClear := early))
  {
  }

  // ---------------------------------------------------------------------
  // The run

  /**
   * One pass of the `main_loop` loop: the clock reading its time check sees
   * (ns since the run started), and what its round observes.
   */
  datatype Iteration = Iteration(elapsedNs: nat, round: RoundInput)

  /** `current_time.elapsed() > test_seconds` (strict). */
  predicate TestExpired(elapsedNs: nat, testSeconds: nat) {
    elapsedNs > testSeconds * NANOS_PER_SECOND
  }

  /** Time moves on: the last time check of the trace sees the run's time used up. */
  predicate TimeRunsOut(opts: Cli.Options, iters: seq<Iteration>) {
    |iters| > 0 && TestExpired(iters[|iters| - 1].elapsedNs, opts.testSeconds)
  }

  predicate RoundsSettle(opts: Cli.Options, iters: seq<Iteration>) {
    forall k | 0 <= k < |iters| :: iters[k].round.sendOk ==> PollsSettle(iters[k].round.polls, opts.roundTimeout)
  }

  /** `Ok(())` after the time check, `Err(..)` from the breaker. */
  datatype Verdict = TimeUp | BreakerTripped

  datatype Counters = Counters(total: nat, success: nat, continuousFail: nat)

  datatype RunOutcome = RunOutcome(verdict: Verdict, counters: Counters)

  /** The counters after one more round with outcome `pass` (main.rs:129-135). */
  function Record(c: Counters, pass: bool): Counters {
    if pass then Counters(c.total + 1, c.success + 1, 0)
    else Counters(c.total + 1, c.success, c.continuousFail + 1)
  }

  /** The rest of `main_loop` from counters `c`, one iteration per element of `iters`. */
  function RunFrom(opts: Cli.Options, testcase: Cli.TestCase, c: Counters, iters: seq<Iteration>): RunOutcome
    requires TimeRunsOut(opts, iters)
    decreases |iters|
  {
    if TestExpired(iters[0].elapsedNs, opts.testSeconds) then RunOutcome(TimeUp, c)
    else
      var next := Record(c, RoundPasses(testcase, opts.roundTimeout, iters[0].round));
      if next.continuousFail > opts.maxFailCount then RunOutcome(BreakerTripped, next)
      else RunFrom(opts, testcase, next, iters[1..])
  }

  function Run(opts: Cli.Options, testcase: Cli.TestCase, iters: seq<Iteration>): RunOutcome
    requires TimeRunsOut(opts, iters)
  {
    RunFrom(opts, testcase, Counters(0, 0, 0), iters)
  }

  /**
   * `main_loop` (main.rs:82-146). At the top of each iteration the time
   * check may end the run with `Ok`; otherwise `total` goes up, one round
   * runs, `success` or `continuous_fail` is updated, the breaker may end the
   * run with `Err`, and only then the loop pauses for `interval`.
   */
  method MainLoop(flags: Flags, opts: Cli.Options, testcase: Cli.TestCase, iters: seq<Iteration>)
    returns (verdict: Verdict, total: nat, success: nat, continuousFail: nat, pauses: nat)
    requires TimeRunsOut(opts, iters) && RoundsSettle(opts, iters)
    modifies flags`testOk
    ensures RunOutcome(verdict, Counters(total, success, continuousFail)) == Run(opts, testcase, iters)
    ensures verdict == TimeUp ==> pauses == total
    ensures verdict == BreakerTripped ==> pauses + 1 == total
  {
    total, success, continuousFail, pauses := 0, 0, 0, 0;
    var k := 0;
    while true
      invariant k < |iters| && iters[k..][|iters[k..]| - 1] == iters[|iters| - 1]
      invariant Run(opts, testcase, iters) == RunFrom(opts, testcase, Counters(total, success, continuousFail), iters[k..])
      invariant pauses == total
      decreases |iters| - k
    {
      if TestExpired(iters[k].elapsedNs, opts.testSeconds) {
        return TimeUp, total, success, continuousFail, pauses;
      }
      total := total + 1;
      var pass := RoundTest(flags, opts, testcase, iters[k].round);
      if pass {
        success := success + 1;
        continuousFail := 0;
      } else {
        continuousFail := continuousFail + 1;
      }
      if continuousFail > opts.maxFailCount {
        return BreakerTripped, total, success, continuousFail, pauses;
      }
      pauses := pauses + 1;  // sleep(interval)
      assert iters[k..][1..] == iters[k + 1..];
      k := k + 1;
    }
  }

  datatype ExitCode = Success | Failure

  function ExitCodeFor(v: Verdict): ExitCode {
    match v
    case TimeUp => Success
    case BreakerTripped => Failure
  }

  /**
   * The body of `main` once the port is open: select the test case, run the
   * loop, map its result to the exit code, then tell the reader to stop.
   */
  method RunMain(opts: Cli.Options, iters: seq<Iteration>) returns (code: ExitCode)
    requires TimeRunsOut(opts, iters) && RoundsSettle(opts, iters)
    ensures code == ExitCodeFor(Run(opts, Cli.FromSuite(opts.testSuite), iters).verdict)
  {
    var testcase := Cli.FromSuite(opts.testSuite);
    var flags := new Flags();
    var verdict, _, _, _, _ := MainLoop(flags, opts, testcase, iters);
    code := ExitCodeFor(verdict);
    flags.childAlive := true;
  }

  // ---------------------------------------------------------------------
  // The counters, independently of the loop

  /** Number of passed rounds in `s`. */
  function CountPasses(s: seq<bool>): (n: nat)
    ensures n <= |s|
    decreases |s|
  {
    if s == [] then 0
    else CountPasses(s[..|s| - 1]) + (if s[|s| - 1] then 1 else 0)
  }

  /** Length of the run of failures that ends `s`. */
  function TrailingFails(s: seq<bool>): (n: nat)
    ensures n <= |s|
    ensures forall j | |s| - n <= j < |s| :: !s[j]
    ensures n < |s| ==> s[|s| - 1 - n]
    decreases |s|
  {
    if s == [] then 0
    else if s[|s| - 1] then 0
    else TrailingFails(s[..|s| - 1]) + 1
  }

  /** Counters as a function of the outcomes of the rounds run so far. */
  function Tallied(s: seq<bool>): Counters {
    Counters(|s|, CountPasses(s), TrailingFails(s))
  }

  /**
   * One round's update keeps the counters equal to the tally of outcomes:
   * `total` is the number of rounds, `success` the number of passes, and
   * `continuous_fail` the length of the final run of failures (a pass resets
   * it, a failure extends it).
   */
  lemma RecordTallied(s: seq<bool>, pass: bool)
    ensures Record(Tallied(s), pass) == Tallied(s + [pass])
    ensures Tallied(s + [pass]).success <= Tallied(s + [pass]).total
  {
    assert (s + [pass])[..|s|] == s;
  }

  /** The breaker trips after round `j`. */
  predicate TripsAt(s: seq<bool>, j: nat, maxFail: nat)
    requires j < |s|
  {
    TrailingFails(s[..j + 1]) > maxFail
  }

  predicate NoTrip(s: seq<bool>, maxFail: nat) {
    forall j | 0 <= j < |s| :: !TripsAt(s, j, maxFail)
  }

  /**
   * The outcomes of the rounds the trace lets start: one per iteration before
   * the first time check that sees the time used up.
   */
  function Outcomes(opts: Cli.Options, testcase: Cli.TestCase, iters: seq<Iteration>): (outs: seq<bool>)
    ensures |outs| <= |iters|
    ensures forall k | 0 <= k < |outs| ::
              !TestExpired(iters[k].elapsedNs, opts.testSeconds) &&
              outs[k] == RoundPasses(testcase, opts.roundTimeout, iters[k].round)
    ensures |outs| < |iters| ==> TestExpired(iters[|outs|].elapsedNs, opts.testSeconds)
    ensures TimeRunsOut(opts, iters) ==> |outs| < |iters|
    decreases |iters|
  {
    if iters == [] || TestExpired(iters[0].elapsedNs, opts.testSeconds) then []
    else
      var rest := Outcomes(opts, testcase, iters[1..]);
      assert forall k | 0 < k < |iters| :: iters[1..][k - 1] == iters[k];
      [RoundPasses(testcase, opts.roundTimeout, iters[0].round)] + rest
  }

  /**
   * `r` is the outcome of a run whose started rounds had outcomes `all`,
   * of which the first `lo` were already behind it when it was observed.
   */
  predicate Accounts(r: RunOutcome, all: seq<bool>, lo: nat, maxFail: nat) {
    && lo <= r.counters.total <= |all|
    && r.counters == Tallied(all[..r.counters.total])
    && (r.verdict == TimeUp ==> r.counters.total == |all| && NoTrip(all, maxFail))
    && (r.verdict == BreakerTripped ==>
          && r.counters.total > 0
          && TripsAt(all, r.counters.total - 1, maxFail)
          && NoTrip(all[..r.counters.total - 1], maxFail))
  }

  lemma NoTripExtend(done: seq<bool>, pass: bool, maxFail: nat)
    requires NoTrip(done, maxFail) && TrailingFails(done + [pass]) <= maxFail
    ensures NoTrip(done + [pass], maxFail)
  {
    var done' := done + [pass];
    forall j | 0 <= j < |done'|
      ensures !TripsAt(done', j, maxFail)
    {
      if j < |done| {
        assert done'[..j + 1] == done[..j + 1];
        assert !TripsAt(done, j, maxFail);
      } else {
        assert done'[..j + 1] == done';
      }
    }
  }

  lemma AccountsTimeUp(done: seq<bool>, maxFail: nat)
    requires NoTrip(done, maxFail)
    ensures Accounts(RunOutcome(TimeUp, Tallied(done)), done, |done|, maxFail)
  {
    assert done[..|done|] == done;
  }

  /** The two prefixes of `done + [pass] + later` that a breaker outcome after `pass` refers to. */
  lemma SplitAfter(done: seq<bool>, pass: bool, later: seq<bool>)
    ensures |done + [pass]| == |done| + 1 <= |done + [pass] + later|
    ensures (done + [pass] + later)[..|done| + 1] == done + [pass]
    ensures (done + [pass] + later)[..|done|] == done
  {
    assert done + [pass] + later == done + ([pass] + later);
  }

  /** How a breaker outcome is shown to account for `all`: the conjuncts of `Accounts` one by one. */
  lemma AccountsBreaker(r: RunOutcome, all: seq<bool>, lo: nat, maxFail: nat, tripped: seq<bool>, before: seq<bool>)
    requires r.verdict == BreakerTripped && lo < r.counters.total <= |all|
    requires tripped == all[..r.counters.total] && r.counters == Tallied(tripped)
    requires TrailingFails(tripped) > maxFail
    requires before == all[..r.counters.total - 1] && NoTrip(before, maxFail)
    ensures Accounts(r, all, lo, maxFail)
  {
  }

  lemma AccountsTrip(done: seq<bool>, pass: bool, later: seq<bool>, maxFail: nat)
    requires NoTrip(done, maxFail) && TrailingFails(done + [pass]) > maxFail
    ensures Accounts(RunOutcome(BreakerTripped, Tallied(done + [pass])), done + [pass] + later, |done|, maxFail)
  {
    SplitAfter(done, pass, later);
    AccountsBreaker(RunOutcome(BreakerTripped, Tallied(done + [pass])), done + [pass] + later, |done|, maxFail, done + [pass], done);
  }

  /** The loop's counter logic alone, fed with the outcomes of the rounds it starts. */
  function RunOver(c: Counters, outs: seq<bool>, maxFail: nat): RunOutcome
    decreases |outs|
  {
    if outs == [] then RunOutcome(TimeUp, c)
    else
      var next := Record(c, outs[0]);
      if next.continuousFail > maxFail then RunOutcome(BreakerTripped, next)
      else RunOver(next, outs[1..], maxFail)
  }

  /** Time and rounds only decide the outcomes; the loop's counting is `RunOver`. */
  lemma {:induction false} RunFromOutcomes(opts: Cli.Options, testcase: Cli.TestCase, c: Counters, iters: seq<Iteration>)
    requires TimeRunsOut(opts, iters)
    ensures RunFrom(opts, testcase, c, iters) == RunOver(c, Outcomes(opts, testcase, iters), opts.maxFailCount)
    decreases |iters|
  {
    if !TestExpired(iters[0].elapsedNs, opts.testSeconds) {
      var pass := RoundPasses(testcase, opts.roundTimeout, iters[0].round);
      var outs := Outcomes(opts, testcase, iters);
      assert outs[0] == pass && outs[1..] == Outcomes(opts, testcase, iters[1..]);
      if Record(c, pass).continuousFail <= opts.maxFailCount {
        RunFromOutcomes(opts, testcase, Record(c, pass), iters[1..]);
      }
    }
  }

  /** The general form of the counting properties, from any breaker-free history `done`. */
  lemma {:induction false} RunOverTallies(done: seq<bool>, later: seq<bool>, maxFail: nat)
    requires NoTrip(done, maxFail)
    ensures Accounts(RunOver(Tallied(done), later, maxFail), done + later, |done|, maxFail)
    decreases |later|
  {
    if later == [] {
      assert done + later == done;
      AccountsTimeUp(done, maxFail);
    } else {
      var pass := later[0];
      assert done + later == done + [pass] + later[1..];
      RecordTallied(done, pass);
      if TrailingFails(done + [pass]) > maxFail {
        AccountsTrip(done, pass, later[1..], maxFail);
      } else {
        NoTripExtend(done, pass, maxFail);
        RunOverTallies(done + [pass], later[1..], maxFail);
      }
    }
  }

  /**
   * The counters at the end of a run are the tally of the rounds it started:
   * `total` counts them, `success <= total`, and a run that ends on time has
   * started every round the time allowed.
   */
  lemma RunAccounting(opts: Cli.Options, testcase: Cli.TestCase, iters: seq<Iteration>)
    requires TimeRunsOut(opts, iters)
    ensures var r := Run(opts, testcase, iters);
            var outs := Outcomes(opts, testcase, iters);
            && r.counters.total <= |outs|
            && r.counters == Tallied(outs[..r.counters.total])
            && r.counters.success <= r.counters.total
            && r.counters.continuousFail <= r.counters.total
            && (r.verdict == TimeUp ==> r.counters.total == |outs|)
  {
    var outs := Outcomes(opts, testcase, iters);
    RunFromOutcomes(opts, testcase, Counters(0, 0, 0), iters);
    RunOverTallies([], outs, opts.maxFailCount);
    assert [] + outs == outs;
  }

  /**
   * The run fails exactly when, after some round it started, the run of
   * consecutive failures exceeds `max_fail_count`; it then stops right after
   * the first such round.
   */
  lemma BreakerIff(opts: Cli.Options, testcase: Cli.TestCase, iters: seq<Iteration>)
    requires TimeRunsOut(opts, iters)
    ensures var r := Run(opts, testcase, iters);
            var outs := Outcomes(opts, testcase, iters);
            && (r.verdict == BreakerTripped <==> !NoTrip(outs, opts.maxFailCount))
            && (r.verdict == BreakerTripped ==>
                  && 0 < r.counters.total <= |outs|
                  && TripsAt(outs, r.counters.total - 1, opts.maxFailCount)
                  && NoTrip(outs[..r.counters.total - 1], opts.maxFailCount))
  {
    var outs := Outcomes(opts, testcase, iters);
    var r := Run(opts, testcase, iters);
    RunFromOutcomes(opts, testcase, Counters(0, 0, 0), iters);
    RunOverTallies([], outs, opts.maxFailCount);
    assert [] + outs == outs;
    assert Accounts(r, outs, 0, opts.maxFailCount);
    if r.verdict == BreakerTripped {
      assert !NoTrip(outs, opts.maxFailCount) by {
        assert TripsAt(outs, r.counters.total - 1, opts.maxFailCount);
      }
    }
  }

  /** `main` exits with success exactly when the breaker never trips. */
  lemma ExitCodeReflectsBreaker(opts: Cli.Options, testcase: Cli.TestCase, iters: seq<Iteration>)
    requires TimeRunsOut(opts, iters)
    ensures ExitCodeFor(Run(opts, testcase, iters).verdict) == Success <==>
            NoTrip(Outcomes(opts, testcase, iters), opts.maxFailCount)
  {
    BreakerIff(opts, testcase, iters);
  }

  lemma {:induction false} AllFailed(s: seq<bool>)
    requires forall j | 0 <= j < |s| :: !s[j]
    ensures TrailingFails(s) == |s| && CountPasses(s) == 0
    decreases |s|
  {
    if s != [] {
      AllFailed(s[..|s| - 1]);
    }
  }

  lemma {:induction false} AllPassed(s: seq<bool>)
    requires forall j | 0 <= j < |s| :: s[j]
    ensures TrailingFails(s) == 0 && CountPasses(s) == |s|
    decreases |s|
  {
    if s != [] {
      AllPassed(s[..|s| - 1]);
    }
  }

  /**
   * With `max_fail_count = 5`, six failed rounds in a row from the start trip
   * the breaker after the sixth.
   */
  lemma SixthFailureTrips(opts: Cli.Options, testcase: Cli.TestCase, iters: seq<Iteration>)
    requires TimeRunsOut(opts, iters) && opts.maxFailCount == 5
    requires |Outcomes(opts, testcase, iters)| >= 6
    requires forall k | 0 <= k < 6 :: !Outcomes(opts, testcase, iters)[k]
    ensures Run(opts, testcase, iters) == RunOutcome(BreakerTripped, Counters(6, 0, 6))
  {
    var outs := Outcomes(opts, testcase, iters);
    forall j | 1 <= j <= 6
      ensures TrailingFails(outs[..j]) == j && CountPasses(outs[..j]) == 0
    {
      AllFailed(outs[..j]);
    }
    assert TripsAt(outs, 5, 5);
    BreakerIff(opts, testcase, iters);
    var total := Run(opts, testcase, iters).counters.total;
    if total > 6 {
      assert outs[..total - 1][..6] == outs[..6];
      assert TripsAt(outs[..total - 1], 5, 5);
    }
    RunAccounting(opts, testcase, iters);
  }

  /**
   * With `max_fail_count = 5`, five failed rounds do not trip the breaker: a
   * run whose time allows exactly five rounds, all failing, ends on time.
   */
  lemma FifthFailureTolerated(opts: Cli.Options, testcase: Cli.TestCase, iters: seq<Iteration>)
    requires TimeRunsOut(opts, iters) && opts.maxFailCount == 5
    requires |Outcomes(opts, testcase, iters)| == 5
    requires forall k | 0 <= k < 5 :: !Outcomes(opts, testcase, iters)[k]
    ensures Run(opts, testcase, iters) == RunOutcome(TimeUp, Counters(5, 0, 5))
  {
    var outs := Outcomes(opts, testcase, iters);
    forall j | 0 <= j < 5
      ensures !TripsAt(outs, j, 5)
    {
      AllFailed(outs[..j + 1]);
    }
    BreakerIff(opts, testcase, iters);
    RunAccounting(opts, testcase, iters);
    assert outs[..5] == outs;
    AllFailed(outs);
  }

  /** A run in which every round passes ends on time with `success == total`. */
  lemma AllPassesSucceed(opts: Cli.Options, testcase: Cli.TestCase, iters: seq<Iteration>)
    requires TimeRunsOut(opts, iters)
    requires forall k | 0 <= k < |Outcomes(opts, testcase, iters)| :: Outcomes(opts, testcase, iters)[k]
    ensures var r := Run(opts, testcase, iters);
            && r.verdict == TimeUp
            && r.counters.success == r.counters.total == |Outcomes(opts, testcase, iters)|
            && r.counters.continuousFail == 0
  {
    var outs := Outcomes(opts, testcase, iters);
    forall j | 0 <= j < |outs|
      ensures !TripsAt(outs, j, opts.maxFailCount)
    {
      AllPassed(outs[..j + 1]);
    }
    BreakerIff(opts, testcase, iters);
    RunAccounting(opts, testcase, iters);
    assert outs[..|outs|] == outs;
    AllPassed(outs);
  }

  // ---------------------------------------------------------------------
  // The catalogue on the wire

  /** Catalogue commands hold no terminator, so `encode` always appends CR LF. */
  lemma CatalogueCommandsFramed(suite: Cli.TestSuite)
    ensures Codec.NoMarker(Cli.FromSuite(suite).command)
    ensures Codec.Framed(Cli.FromSuite(suite).command) == Cli.FromSuite(suite).command + Codec.CRLF
  {
    var c := Cli.FromSuite(suite).command;
    assert Cli.Printable(c);
    assert !Codec.EndsWithCrlf(c) by { assert c[|c| - 1] != Codec.LF; }
    forall j | 0 <= j < |c|
      ensures !Codec.MarkerAt(c, j)
    {
      assert c[j] != Codec.CR && c[j] != Codec.LF;
    }
  }

  /**
   * Scenario: for the SingleBD suite, the reply "QXMON,BG1101,extra\r\n"
   * decodes to one line, and a round whose poll sees that line passes.
   */
  lemma ReplyPassesRound(reply: seq<Byte>, t: nat, elapsedNs: nat)
    requires reply == Ascii("QXMON,BG1101,extra\r\n")
    ensures Codec.DecodeFrame(reply) == Codec.Decoded(Ok(Some(reply)), [])
    ensures RoundPasses(Cli.FromSuite(Cli.SingleBD), t, RoundInput(true, [], [Poll([Some(Ok(reply))], elapsedNs)]))
  {
    var expected := Cli.FromSuite(Cli.SingleBD).expected;
    Cli.CatalogueEntries();
    var item := reply[..|reply| - 2];
    assert reply == item + Codec.CRLF;
    assert Cli.Printable(item);
    forall j | 0 <= j < |item|
      ensures !Codec.MarkerAt(item, j)
    {
      assert item[j] != Codec.CR && item[j] != Codec.LF;
    }
    AsciiValid(item);
    assert Codec.Framable(item);
    Codec.RoundTrip(item, []);
    assert Codec.Framed(item) + [] == reply;
    assert |expected| == 12;
    assert OccursAt(reply, expected, 0) by {
      assert reply[0..12] == expected;
    }
    var p := Poll([Some(Ok(reply))], elapsedNs);
    assert Matches(p.arrived[0], expected);
    assert Hit(p, expected);
  }
}
