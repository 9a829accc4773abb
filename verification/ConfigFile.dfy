/** The configuration file of the NTRIP-to-NATS bridge: its text, line by line. */
module ConfigFile {
  import opened Search
  import opened MachineInt
  import opened IntText
  import opened ConfigLines
  import opened TextLines

  datatype Section = Options | NatsDestinations | NtripSources

  datatype Key = ReadBufferBytes | ReconnectMinSec | ReconnectMaxSec | ThroughputLogKb

  datatype Settings = Settings(readBufferBytes: int, reconnectMinSec: int, reconnectMaxSec: int,
                               throughputLogEveryBytes: int,
                               ntripSources: seq<NtripSource>, natsDestinations: seq<string>)

  const DEFAULTS: Settings := Settings(4096, 2, 32, 100 * 1024, [], [])

  // ---------- text ----------

  function TrimLeft(s: string): string {
    if s != "" && IsSpace(s[0]) then TrimLeft(s[1..]) else s
  }

  function TrimRight(s: string): string {
    if s != "" && IsSpace(s[|s| - 1]) then TrimRight(s[..|s| - 1]) else s
  }

  function Trim(s: string): string {
    TrimRight(TrimLeft(s))
  }

  function Lower(c: char): char {
    if 'A' <= c <= 'Z' then (c as int + 32) as char else c
  }

  function ToLower(s: string): (r: string)
    ensures |r| == |s|
  {
    seq(|s|, i requires 0 <= i < |s| => Lower(s[i]))
  }

  // ---------- one line ----------

  function SectionName(section: Section): string {
    match section
    case Options => "options"
    case NatsDestinations => "nats_destinations"
    case NtripSources => "ntrip_sources"
  }

  function SectionHeader(line: string): Result<Section> {
    if |line| < 2 || line[0] != '[' || line[|line| - 1] != ']' then Err(InvalidSectionHeader) else
    var name := ToLower(line[1..|line| - 1]);
    if name == SectionName(Options) then Ok(Options)
    else if name == SectionName(NatsDestinations) then Ok(NatsDestinations)
    else if name == SectionName(NtripSources) then Ok(NtripSources)
    else Err(UnknownSection)
  }

  function KeyName(key: Key): string {
    match key
    case ReadBufferBytes => "read_buffer_bytes"
    case ReconnectMinSec => "reconnect_min_sec"
    case ReconnectMaxSec => "reconnect_max_sec"
    case ThroughputLogKb => "throughput_log_kb"
  }

  function KeyOf(name: string): Option<Key> {
    if name == KeyName(ReadBufferBytes) then Some(ReadBufferBytes)
    else if name == KeyName(ReconnectMinSec) then Some(ReconnectMinSec)
    else if name == KeyName(ReconnectMaxSec) then Some(ReconnectMaxSec)
    else if name == KeyName(ThroughputLogKb) then Some(ThroughputLogKb)
    else None
  }

  function SetOption(st: Settings, key: Key, n: nat): Settings {
    match key
    case ReadBufferBytes => st.(readBufferBytes := n)
    case ReconnectMinSec => st.(reconnectMinSec := n)
    case ReconnectMaxSec => st.(reconnectMaxSec := n)
    case ThroughputLogKb => st.(throughputLogEveryBytes := Wrap32(n * 1024))
  }

  /** Which option a name and a value set, and to what number. */
  function OptionOf(nameText: string, valueText: string): Result<(Key, nat)> {
    var name, value := ToLower(Trim(nameText)), Trim(valueText);
    if name == "" || value == "" then Err(InvalidOptionFormat) else
    match KeyOf(name)
    case None => Err(InvalidOptionKey)
    case Some(key) =>
      match ParsePositiveInt(value)
      case None => Err(InvalidOptionValue)
      case Some(n) => Ok((key, n))
  }

  /** An option line, split at its first equals sign. */
  function OptionLine(line: string): Result<(Key, nat)> {
    match FindChar(line, '=', 0)
    case None => Err(InvalidOptionFormat)
    case Some(eq) =>
      FoundChar(line, '=', 0);
      OptionOf(line[..eq], line[eq + 1..])
  }

  function BodyLine(section: Section, st: Settings, line: string): Result<Settings> {
    match section
    case Options => (
      match OptionLine(line)
      case Err(e) => Err(e)
      case Ok(assignment) => Ok(SetOption(st, assignment.0, assignment.1)))
    case NatsDestinations => (
      match ParseNats(line)
      case Err(e) => Err(e)
      case Ok(server) => Ok(st.(natsDestinations := st.natsDestinations + [server])))
    case NtripSources => (
      match ParseSource(line)
      case Err(e) => Err(e)
      case Ok(src) => Ok(st.(ntripSources := st.ntripSources + [src])))
  }

  // ---------- the whole file ----------

  datatype Outcome = Outcome(section: Section, settings: Settings, error: Option<Error>)

  /** Blank lines and comments. */
  predicate Ignored(line: string) {
    var trimmed := Trim(line);
    trimmed == "" || trimmed[0] == '#'
  }

  function OneLine(section: Section, st: Settings, line: string): Outcome {
    var trimmed := Trim(line);
    if trimmed == "" || trimmed[0] == '#' then Outcome(section, st, None)
    else if trimmed[0] == '[' then
      match SectionHeader(trimmed)
      case Ok(next) => Outcome(next, st, None)
      case Err(e) => Outcome(section, st, Some(e))
    else
      match BodyLine(section, st, trimmed)
      case Ok(after) => Outcome(section, after, None)
      case Err(e) => Outcome(section, st, Some(e))
  }

  /** Every line in turn, up to the first that is refused. */
  function AllLines(section: Section, st: Settings, lines: seq<string>): Outcome
    decreases |lines|
  {
    if lines == [] then Outcome(section, st, None)
    else
      var o := OneLine(section, st, lines[0]);
      if o.error.Some? then o else AllLines(o.section, o.settings, lines[1..])
  }

  /** The checks after the last line. */
  function FinalError(st: Settings): Option<Error> {
    if st.reconnectMinSec > st.reconnectMaxSec then Some(MinAboveMax)
    else if st.natsDestinations == [] then Some(NoNatsDestinations)
    else if st.ntripSources == [] then Some(NoNtripSources)
    else None
  }

  /** What reading a file leaves in the settings, and the error that stopped it, if any. */
  function Parsed(st: Settings, lines: seq<string>): Outcome {
    var o := AllLines(Options, st, lines);
    if o.error.Some? then o else o.(error := FinalError(o.settings))
  }

  class Configuration {
    var readBufferBytes: int
    var reconnectMinSec: int
    var reconnectMaxSec: int
    var throughputLogEveryBytes: int
    var ntripSources: seq<NtripSource>
    var natsDestinations: seq<string>

    ghost function View(): Settings
      reads this
    {
      Settings(readBufferBytes, reconnectMinSec, reconnectMaxSec, throughputLogEveryBytes,
               ntripSources, natsDestinations)
    }

    constructor ()
      ensures View() == DEFAULTS
      ensures readBufferBytes == 4096 && reconnectMinSec == 2 && reconnectMaxSec == 32
      ensures throughputLogEveryBytes == 102400 && ntripSources == [] && natsDestinations == []
    {
      readBufferBytes, reconnectMinSec, reconnectMaxSec, throughputLogEveryBytes := 4096, 2, 32, 100 * 1024;
      ntripSources, natsDestinations := [], [];
    }

    method ParseOptionsBodyLine(line: string) returns (error: Option<Error>)
      modifies this
      ensures var r := BodyLine(Options, old(View()), line);
        if r.Ok? then error == None && View() == r.value else error == Some(r.error) && View() == old(View())
    {
      hide Trim, ToLower, FindFrom, ParsePositiveInt, Wrap32;
      match OptionLine(line)
      case Err(e) => return Some(e);
      case Ok((key, n)) =>
        match key {
          case ReadBufferBytes => readBufferBytes := n;
          case ReconnectMinSec => reconnectMinSec := n;
          case ReconnectMaxSec => reconnectMaxSec := n;
          case ThroughputLogKb =>
            throughputLogEveryBytes := n;
            throughputLogEveryBytes := Wrap32(throughputLogEveryBytes * 1024);
        }
        return None;
    }

    method ParseNatsDestinationsBodyLine(line: string) returns (error: Option<Error>)
      modifies this
      ensures var r := BodyLine(NatsDestinations, old(View()), line);
        if r.Ok? then error == None && View() == r.value else error == Some(r.error) && View() == old(View())
    {
      hide ParseNats;
      match ParseNats(line)
      case Err(e) => return Some(e);
      case Ok(server) =>
        natsDestinations := natsDestinations + [server];
        return None;
    }

    method ParseNtripSourcesBodyLine(line: string) returns (error: Option<Error>)
      modifies this
      ensures var r := BodyLine(NtripSources, old(View()), line);
        if r.Ok? then error == None && View() == r.value else error == Some(r.error) && View() == old(View())
    {
      hide ParseSource;
      match ParseSource(line)
      case Err(e) => return Some(e);
      case Ok(src) =>
        ntripSources := ntripSources + [src];
        return None;
    }

    /** One line of the file in the given section; next is the section for the lines behind it. */
    method ParseLine(section: Section, line: string) returns (next: Section, error: Option<Error>)
      modifies this
      ensures OneLine(section, old(View()), line) == Outcome(next, View(), error)
    {
      hide Trim, SectionHeader, OptionLine, ParseNats, ParseSource, SetOption;
      var trimmed := Trim(line);
      next, error := section, None;
      if trimmed != "" && trimmed[0] != '#' {
        if trimmed[0] == '[' {
          match SectionHeader(trimmed) {
            case Err(e) => error := Some(e);
            case Ok(found) => next := found;
          }
        } else {
          match section {
            case Options => error := ParseOptionsBodyLine(trimmed);
            case NatsDestinations => error := ParseNatsDestinationsBodyLine(trimmed);
            case NtripSources => error := ParseNtripSourcesBodyLine(trimmed);
          }
        }
      }
    }

    method ParseConfiguration(text: string) returns (error: Option<Error>)
      modifies this
      ensures Parsed(old(View()), Lines(text)).settings == View()
      ensures Parsed(old(View()), Lines(text)).error == error
    {
      hide OneLine, NextLine;
      var section, unread := Options, text;
      while unread != ""
        invariant AllLines(section, View(), Lines(unread)) == AllLines(Options, old(View()), Lines(text))
        decreases |unread|
      {
        var (line, rest) := NextLine(unread);
        assert Lines(unread)[0] == line && Lines(unread)[1..] == Lines(rest);
        var next, e := ParseLine(section, line);
        if e.Some? { return e; }
        section, unread := next, rest;
      }
      if reconnectMinSec > reconnectMaxSec { return Some(MinAboveMax); }
      if natsDestinations == [] { return Some(NoNatsDestinations); }
      if ntripSources == [] { return Some(NoNtripSources); }
      return None;
    }
  }

  // ---------- what an accepted file guarantees ----------

  predicate IsServer(server: string) {
    ParseNats(server) == Ok(server)
  }

  /** Kept by every line, accepted or not. */
  predicate Sane(st: Settings) {
    && 1 <= st.readBufferBytes <= INT_MAX && 1 <= st.reconnectMinSec <= INT_MAX && 1 <= st.reconnectMaxSec <= INT_MAX
    && INT_MIN <= st.throughputLogEveryBytes <= INT_MAX && st.throughputLogEveryBytes % 1024 == 0
    && (forall src :: src in st.ntripSources ==> WellFormed(src))
    && forall server :: server in st.natsDestinations ==> IsServer(server)
  }

  lemma WrapKeepsKilobytes(n: nat)
    ensures Wrap32(n * 1024) % 1024 == 0
    ensures n * 1024 <= INT_MAX <==> Wrap32(n * 1024) == n * 1024
  {
    var k := (n * 1024 - INT_MIN) / TWO_32;
    assert n * 1024 == Wrap32(n * 1024) + k * TWO_32;
  }

  lemma OptionIsPositive(line: string)
    requires OptionLine(line).Ok?
    ensures 1 <= OptionLine(line).value.1 <= INT_MAX
  {
    hide Trim, ToLower, FindFrom, Stoi;
    var eq := FindChar(line, '=', 0).value;
    FoundChar(line, '=', 0);
    SpellingHasNoSlash(Trim(line[eq + 1..]), OptionLine(line).value.1);
  }

  lemma OptionKeepsSane(st: Settings, line: string)
    requires Sane(st) && OptionLine(line).Ok?
    ensures var (key, n) := OptionLine(line).value; Sane(SetOption(st, key, n))
  {
    hide OptionLine, WellFormed, IsServer, Wrap32;
    OptionIsPositive(line);
    WrapKeepsKilobytes(OptionLine(line).value.1);
    var wrapped := Wrap32(OptionLine(line).value.1 * 1024);
  }

  lemma SourceIsWellFormed(line: string)
    requires ParseSource(line).Ok?
    ensures WellFormed(ParseSource(line).value)
  {
    hide ParseSource, WellFormed;
    var portText := ParsedIsJoined(line);
  }

  lemma ServerIsCanonical(line: string)
    requires ParseNats(line).Ok?
    ensures IsServer(ParseNats(line).value)
  {
    hide ParseNats, ParsePositiveInt, Decimal, NatsLine;
    var host, portText := NatsWasLine(line);
    var port := ParsePositiveInt(portText).value;
    NatsIsParsed(host, portText, port);
    SpellingHasNoSlash(portText, port);
    DecimalIsParsed(port);
    NatsIsParsed(host, Decimal(port), port);
  }

  lemma LineKeepsSane(section: Section, st: Settings, line: string)
    requires Sane(st)
    ensures Sane(OneLine(section, st, line).settings)
  {
    hide SectionHeader, OptionLine, ParseNats, ParseSource, WellFormed, IsServer, Trim;
    var trimmed := Trim(line);
    if OptionLine(trimmed).Ok? { OptionKeepsSane(st, trimmed); }
    hide SetOption;
    if ParseNats(trimmed).Ok? { ServerIsCanonical(trimmed); }
    if ParseSource(trimmed).Ok? { SourceIsWellFormed(trimmed); }
  }

  lemma {:induction false} LinesKeepSane(section: Section, st: Settings, lines: seq<string>)
    requires Sane(st)
    ensures Sane(AllLines(section, st, lines).settings)
    decreases |lines|
  {
    hide OneLine, Sane;
    if lines != [] {
      LineKeepsSane(section, st, lines[0]);
      var o := OneLine(section, st, lines[0]);
      LinesKeepSane(o.section, o.settings, lines[1..]);
    }
  }

  /** An accepted file gives delays with 1 <= min <= max, at least one server and one source, and only
      sources that can be written back on a line. */
  lemma AcceptedIsUsable(lines: seq<string>)
    requires Parsed(DEFAULTS, lines).error.None?
    ensures var st := Parsed(DEFAULTS, lines).settings;
      && Sane(st) && 1 <= st.reconnectMinSec <= st.reconnectMaxSec
      && st.natsDestinations != [] && st.ntripSources != []
  {
    hide OneLine, WellFormed, IsServer;
    LinesKeepSane(Options, DEFAULTS, lines);
  }

  // ---------- the order of lines ----------

  lemma {:induction false} LinesAppend(section: Section, st: Settings, a: seq<string>, b: seq<string>)
    ensures var o := AllLines(section, st, a);
      AllLines(section, st, a + b) == if o.error.Some? then o else AllLines(o.section, o.settings, b)
    decreases |a|
  {
    hide OneLine;
    if a == [] {
      assert a + b == b;
    } else {
      var o := OneLine(section, st, a[0]);
      LinesAppend(o.section, o.settings, a[1..], b);
      assert (a + b)[1..] == a[1..] + b;
    }
  }

  /** Blank lines and comments make no difference, wherever they stand. */
  lemma IgnoredMakesNoDifference(st: Settings, a: seq<string>, line: string, b: seq<string>)
    requires Ignored(line)
    ensures Parsed(st, a + [line] + b) == Parsed(st, a + b)
  {
    hide Trim, SectionHeader, BodyLine, FinalError;
    LinesAppend(Options, st, a, [line] + b);
    LinesAppend(Options, st, a, b);
    assert a + [line] + b == a + ([line] + b);
    assert ([line] + b)[1..] == b;
  }
}
