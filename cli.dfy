/**
 * The configuration side of src/cli.rs: the test-case catalogue, the
 * option defaults and the verbosity-to-log-level table.
 */
module Cli {
  import opened Utf8

  type U8 = x: int | 0 <= x < 0x100
  type U32 = x: int | 0 <= x < 0x1_0000_0000
  type U64 = x: int | 0 <= x < 0x1_0000_0000_0000_0000

  datatype TestSuite = Regular | SingleBD

  /** The command a round sends and the substring that makes it pass. */
  datatype TestCase = TestCase(command: seq<Byte>, expected: seq<Byte>)

  const DOLLAR: Byte := 0x24

  /** The acknowledgement the peer appends to the echoed command name. */
  function AckSuffix(): seq<Byte> { Ascii(",BG1101") }

  /** Printable ASCII: in particular neither CR nor LF. */
  predicate Printable(s: seq<Byte>) { forall i | 0 <= i < |s| :: 0x20 <= s[i] <= 0x7E }

  /**
   * `From<TestSuite> for TestCase`. Every command is a printable `$`-prefixed
   * name, and the expected reply is that name followed by ",BG1101".
   */
  function FromSuite(suite: TestSuite): (tc: TestCase)
    ensures |tc.command| > 1 && tc.command[0] == DOLLAR && Printable(tc.command)
    ensures tc.expected == tc.command[1..] + AckSuffix()
  {
    match suite
    case Regular =>
      CatalogueShape("$QXMONCSTM", "QXMONCSTM,BG1101");
      TestCase(Ascii("$QXMONCSTM"), Ascii("QXMONCSTM,BG1101"))
    case SingleBD =>
      CatalogueShape("$QXMON", "QXMON,BG1101");
      TestCase(Ascii("$QXMON"), Ascii("QXMON,BG1101"))
  }

  /** The shape of a catalogue entry follows from the shape of its literals. */
  lemma CatalogueShape(command: string, expected: string)
    requires |command| > 1 && command[0] == '$'
    requires forall i | 0 <= i < |command| :: ' ' <= command[i] <= '~'
    requires expected == command[1..] + ",BG1101"
    ensures forall i | 0 <= i < |expected| :: expected[i] as int < 0x80
    ensures Ascii(command)[0] == DOLLAR && Printable(Ascii(command))
    ensures Ascii(expected) == Ascii(command)[1..] + AckSuffix()
  {
    AsciiDrop(command, 1);
    AsciiConcat(command[1..], ",BG1101");
  }

  /** The catalogue entries, as listed in cli.rs. */
  lemma CatalogueEntries()
    ensures FromSuite(Regular) == TestCase(Ascii("$QXMONCSTM"), Ascii("QXMONCSTM,BG1101"))
    ensures FromSuite(SingleBD) == TestCase(Ascii("$QXMON"), Ascii("QXMON,BG1101"))
  {
  }

  /** Distinct suites send distinct commands (and so expect distinct replies). */
  lemma SuitesDistinct(a: TestSuite, b: TestSuite)
    requires a != b
    ensures FromSuite(a).command != FromSuite(b).command
    ensures FromSuite(a).expected != FromSuite(b).expected
  {
    assert |FromSuite(Regular).command| == 10 && |FromSuite(SingleBD).command| == 6;
  }

  /** `log::Level`, from least to most verbose. */
  datatype Level = Error | Warn | Info | Debug | Trace {
    function Rank(): nat {
      match this
      case Error => 1
      case Warn => 2
      case Info => 3
      case Debug => 4
      case Trace => 5
    }
  }

  /** The level `parse_options` gives the logger for `-v` repeated `verbose` times. */
  function LevelFor(verbose: U8): (l: Level)
    ensures Info.Rank() <= l.Rank()
    ensures l == Info <==> verbose == 0
    ensures l == Debug <==> verbose == 1
    ensures l == Trace <==> verbose >= 2
  {
    match verbose
    case 0 => Info
    case 1 => Debug
    case _ => Trace
  }

  /** More `-v` flags never make the log quieter; two or more give Trace. */
  lemma LevelForMonotone(a: U8, b: U8)
    requires a <= b
    ensures LevelFor(a).Rank() <= LevelFor(b).Rank()
    ensures b >= 2 ==> LevelFor(b) == Trace
  {
  }

  /** The command-line options with the fields the core reads. */
  datatype Options = Options(
    port: string,
    baud: U32,
    testSeconds: U64,    // whole run, seconds
    interval: U64,       // pause between rounds, milliseconds
    roundTimeout: U64,   // per round, milliseconds
    roundInterval: U64,  // pause between polls, milliseconds
    maxFailCount: U32,   // consecutive failures tolerated
    verbose: U8,
    testSuite: TestSuite)

  /** The options when only the (mandatory) port is given. */
  function DefaultOptions(port: string): (o: Options)
    ensures o.port == port && o.verbose == 0 && LevelFor(o.verbose) == Info
    ensures o.baud == 921600 && o.testSeconds == 10 && o.interval == 1000
    ensures o.roundTimeout == 30 && o.roundInterval == 5 && o.maxFailCount == 5
    ensures o.testSuite == Regular
  {
    Options(port, 921600, 10, 1000, 30, 5, 5, 0, Regular)
  }
}
