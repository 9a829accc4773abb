/** Writing a configuration file and reading it back. */
module ConfigRoundTrip {
  import opened Search
  import opened MachineInt
  import opened IntText
  import opened ConfigLines
  import opened TextLines
  import opened ConfigFile

  /** A line that survives trimming and is neither a comment nor a section header. */
  predicate IsPlain(line: string) {
    line != "" && !IsSpace(line[0]) && !IsSpace(line[|line| - 1]) && line[0] != '#' && line[0] != '['
  }

  /** A source whose line survives trimming and is one line of a text. */
  predicate PrintableSource(src: NtripSource) {
    WellFormed(src) && IsPlain(PrintSource(src)) && '\n' !in PrintSource(src)
  }

  predicate PrintableServer(server: string) {
    IsServer(server) && '\n' !in server
  }

  /** The settings a file can express. The throughput must be whole kilobytes. */
  predicate Printable(st: Settings) {
    && 1 <= st.readBufferBytes <= INT_MAX && 1 <= st.reconnectMinSec <= st.reconnectMaxSec <= INT_MAX
    && 1024 <= st.throughputLogEveryBytes <= INT_MAX && st.throughputLogEveryBytes % 1024 == 0
    && st.natsDestinations != [] && (forall server :: server in st.natsDestinations ==> PrintableServer(server))
    && st.ntripSources != [] && forall src :: src in st.ntripSources ==> PrintableSource(src)
  }

  function OptionText(key: Key, n: nat): string {
    KeyName(key) + "=" + Decimal(n)
  }

  function HeaderText(section: Section): string {
    "[" + SectionName(section) + "]"
  }

  function PrintedSources(sources: seq<NtripSource>): (lines: seq<string>)
    ensures |lines| == |sources|
  {
    seq(|sources|, i requires 0 <= i < |sources| => PrintSource(sources[i]))
  }

  function PrintedOptions(st: Settings): seq<string>
    requires Printable(st)
  {
    [OptionText(ReadBufferBytes, st.readBufferBytes), OptionText(ReconnectMinSec, st.reconnectMinSec),
     OptionText(ReconnectMaxSec, st.reconnectMaxSec), OptionText(ThroughputLogKb, st.throughputLogEveryBytes / 1024)]
  }

  function Printed(st: Settings): seq<string>
    requires Printable(st)
  {
    PrintedOptions(st) + (([HeaderText(NatsDestinations)] + st.natsDestinations)
      + ([HeaderText(NtripSources)] + PrintedSources(st.ntripSources)))
  }

  // ---------- single lines ----------

  lemma TrimIsIdentity(line: string)
    requires line == "" || (!IsSpace(line[0]) && !IsSpace(line[|line| - 1]))
    ensures Trim(line) == line
  {
  }

  lemma LowerCaseStays(s: string)
    requires forall k :: 0 <= k < |s| ==> !('A' <= s[k] <= 'Z')
    ensures ToLower(s) == s
  {
  }

  lemma KeyNameLetters(key: Key)
    ensures var s := KeyName(key);
      |s| == 17 && IsPlain(s) && forall k :: 0 <= k < |s| ==> s[k] != '=' && !('A' <= s[k] <= 'Z')
  {
  }

  lemma KeyNamesDiffer()
    ensures forall key: Key, other: Key :: KeyName(key) == KeyName(other) ==> key == other
  {
    assert KeyName(ReadBufferBytes)[2] == 'a';
    assert KeyName(ReconnectMinSec)[2] == 'c' && KeyName(ReconnectMinSec)[11] == 'i';
    assert KeyName(ReconnectMaxSec)[2] == 'c' && KeyName(ReconnectMaxSec)[11] == 'a';
    assert KeyName(ThroughputLogKb)[2] == 'r';
  }

  lemma KeyNameIsKey(key: Key)
    ensures KeyOf(KeyName(key)) == Some(key)
  {
    KeyNamesDiffer();
    hide KeyName;
  }

  lemma DecimalIsPlain(n: nat)
    ensures IsPlain(Decimal(n))
  {
    DigitIsPlain(Decimal(n)[0]);
    DigitIsPlain(Decimal(n)[|Decimal(n)| - 1]);
    hide IsSpace, IsDigit, Decimal;
  }

  lemma DigitIsPlain(c: char)
    ensures IsDigit(c) ==> !IsSpace(c) && c != '#' && c != '['
  {
  }

  /** A printed option is read back as the option and number it was printed from. */
  lemma OptionComesBack(key: Key, n: nat)
    requires 1 <= n <= INT_MAX
    ensures OptionLine(OptionText(key, n)) == Ok((key, n)) && IsPlain(OptionText(key, n))
  {
    var name, value := KeyName(key), Decimal(n);
    KeyNameLetters(key);
    KeyNameIsKey(key);
    DecimalIsPlain(n);
    DecimalIsParsed(n);
    TrimIsIdentity(name);
    TrimIsIdentity(value);
    LowerCaseStays(name);
    var line := OptionText(key, n);
    assert line == name + "=" + value;
    assert line[..|name|] == name;
    assert line[|name| + 1..] == value;
    hide KeyName, KeyOf, Decimal, ParsePositiveInt, FindFrom, Trim, ToLower, IsSpace;
    assert line[0..|name|] == name;
    CharAt(line, '=', 0, |name|);
  }

  lemma SectionNameLetters(section: Section)
    ensures var s := SectionName(section);
      s != "" && forall k :: 0 <= k < |s| ==> !('A' <= s[k] <= 'Z')
  {
  }

  lemma SectionNamesDiffer(a: Section, b: Section)
    ensures SectionName(a) == SectionName(b) ==> a == b
  {
    assert |SectionName(Options)| == 7 && |SectionName(NatsDestinations)| == 17 && |SectionName(NtripSources)| == 13;
  }

  lemma HeaderComesBack(section: Section)
    ensures SectionHeader(HeaderText(section)) == Ok(section) && Trim(HeaderText(section)) == HeaderText(section)
    ensures HeaderText(section) != "" && HeaderText(section)[0] == '['
  {
    var line := HeaderText(section);
    SectionNameLetters(section);
    LowerCaseStays(SectionName(section));
    SectionNamesDiffer(section, Options);
    SectionNamesDiffer(section, NatsDestinations);
    SectionNamesDiffer(section, NtripSources);
    TrimIsIdentity(line);
    hide SectionName, ToLower, Trim;
    assert line[1..|line| - 1] == SectionName(section);
  }

  // ---------- runs of lines ----------

  lemma PlainLine(section: Section, st: Settings, line: string, after: Settings)
    requires IsPlain(line) && BodyLine(section, st, line) == Ok(after)
    ensures OneLine(section, st, line) == Outcome(section, after, None)
  {
    TrimIsIdentity(line);
    hide BodyLine, Trim;
  }

  lemma OptionIsSet(st: Settings, key: Key, n: nat)
    requires 1 <= n <= INT_MAX
    ensures OneLine(Options, st, OptionText(key, n)) == Outcome(Options, SetOption(st, key, n), None)
  {
    OptionComesBack(key, n);
    hide OptionLine, OptionText, SetOption, IsPlain;
    PlainLine(Options, st, OptionText(key, n), SetOption(st, key, n));
  }

  lemma HeaderSwitches(section: Section, st: Settings, next: Section)
    ensures OneLine(section, st, HeaderText(next)) == Outcome(next, st, None)
  {
    HeaderComesBack(next);
    hide SectionHeader, HeaderText, Trim, BodyLine;
  }

  lemma ServerIsPlain(server: string)
    requires IsServer(server)
    ensures IsPlain(server)
  {
    hide ParseNats, ParsePositiveInt;
    var host, portText := NatsWasLine(server);
    var port := ParsePositiveInt(portText).value;
    NatsIsParsed(host, portText, port);
    DecimalIsPlain(port);
    hide Decimal, IsSpace;
    var line := NatsLine(host, Decimal(port));
    assert line[|line| - 1] == Decimal(port)[|Decimal(port)| - 1];
    NatsStarts(host + ":" + Decimal(port));
  }

  lemma NatsStarts(rest: string)
    ensures (NATS + rest)[0] == 'n' && !IsSpace('n')
  {
  }

  lemma {:induction false} ServersComeBack(st: Settings, servers: seq<string>)
    requires forall server :: server in servers ==> PrintableServer(server)
    ensures AllLines(NatsDestinations, st, servers)
         == Outcome(NatsDestinations, st.(natsDestinations := st.natsDestinations + servers), None)
    decreases |servers|
  {
    hide ParseNats, IsPlain, OneLine;
    if servers == [] {
      assert st.natsDestinations + servers == st.natsDestinations;
    } else {
      assert PrintableServer(servers[0]);
      ServerIsPlain(servers[0]);
      var next := st.(natsDestinations := st.natsDestinations + [servers[0]]);
      PlainLine(NatsDestinations, st, servers[0], next);
      ServersComeBack(next, servers[1..]);
      assert next.natsDestinations + servers[1..] == st.natsDestinations + servers;
    }
  }

  lemma {:induction false} SourcesComeBack(st: Settings, sources: seq<NtripSource>)
    requires forall src :: src in sources ==> PrintableSource(src)
    ensures AllLines(NtripSources, st, PrintedSources(sources))
         == Outcome(NtripSources, st.(ntripSources := st.ntripSources + sources), None)
    decreases |sources|
  {
    hide ParseSource, PrintSource, IsPlain, OneLine, WellFormed;
    if sources == [] {
      assert st.ntripSources + sources == st.ntripSources;
    } else {
      assert PrintableSource(sources[0]);
      var line := PrintSource(sources[0]);
      PrintedSourceIsParsed(sources[0]);
      var next := st.(ntripSources := st.ntripSources + [sources[0]]);
      PlainLine(NtripSources, st, line, next);
      SourcesComeBack(next, sources[1..]);
      assert PrintedSources(sources)[1..] == PrintedSources(sources[1..]);
      assert next.ntripSources + sources[1..] == st.ntripSources + sources;
    }
  }

  /** The first line of some lines, then the others. */
  lemma LineThenLines(section: Section, st: Settings, line: string, rest: seq<string>)
    requires OneLine(section, st, line).error.None?
    ensures var o := OneLine(section, st, line);
      AllLines(section, st, [line] + rest) == AllLines(o.section, o.settings, rest)
  {
    hide OneLine;
    assert ([line] + rest)[1..] == rest;
  }

  lemma OptionsComeBack(start: Settings, st: Settings)
    requires Printable(st)
    ensures AllLines(Options, start, PrintedOptions(st))
         == Outcome(Options, start.(readBufferBytes := st.readBufferBytes, reconnectMinSec := st.reconnectMinSec,
                                    reconnectMaxSec := st.reconnectMaxSec,
                                    throughputLogEveryBytes := st.throughputLogEveryBytes), None)
  {
    hide OneLine, OptionText, IsPlain, IsServer, WellFormed, Wrap32;
    var kb := st.throughputLogEveryBytes / 1024;
    WrapKeepsKilobytes(kb);
    var s1 := SetOption(start, ReadBufferBytes, st.readBufferBytes);
    var s2 := SetOption(s1, ReconnectMinSec, st.reconnectMinSec);
    var s3 := SetOption(s2, ReconnectMaxSec, st.reconnectMaxSec);
    var l1, l2 := OptionText(ReadBufferBytes, st.readBufferBytes), OptionText(ReconnectMinSec, st.reconnectMinSec);
    var l3, l4 := OptionText(ReconnectMaxSec, st.reconnectMaxSec), OptionText(ThroughputLogKb, kb);
    OptionIsSet(start, ReadBufferBytes, st.readBufferBytes);
    OptionIsSet(s1, ReconnectMinSec, st.reconnectMinSec);
    OptionIsSet(s2, ReconnectMaxSec, st.reconnectMaxSec);
    OptionIsSet(s3, ThroughputLogKb, kb);
    LineThenLines(Options, start, l1, [l2, l3, l4]);
    LineThenLines(Options, s1, l2, [l3, l4]);
    LineThenLines(Options, s2, l3, [l4]);
    LineThenLines(Options, s3, l4, []);
    assert PrintedOptions(st) == [l1] + [l2, l3, l4];
    assert [l2, l3, l4] == [l2] + [l3, l4];
    assert [l3, l4] == [l3] + [l4] && [l4] == [l4] + [];
  }

  /** Settings written to a file are what reading the file gives, whatever the options were before. */
  lemma FileRoundTrip(start: Settings, st: Settings)
    requires Printable(st) && start.natsDestinations == [] && start.ntripSources == []
    ensures Parsed(start, Lines(Text(Printed(st)))) == Outcome(NtripSources, st, None)
  {
    hide Lines, Text, Parsed, Printed, Printable, AreLines;
    PrintedAreLines(st);
    LinesOfText(Printed(st));
    PrintedComesBack(start, st);
  }

  lemma OptionIsLine(key: Key, n: nat)
    ensures '\n' !in OptionText(key, n)
  {
    KeyNameIsLine(key);
    DecimalIsLine(n);
    hide KeyName, Decimal;
  }

  lemma KeyNameIsLine(key: Key)
    ensures '\n' !in KeyName(key)
  {
  }

  lemma DecimalIsLine(n: nat)
    ensures '\n' !in Decimal(n)
  {
    hide Decimal;
  }

  lemma HeaderIsLine(section: Section)
    ensures '\n' !in HeaderText(section)
  {
  }

  lemma LinesTogether(a: seq<string>, b: seq<string>)
    requires AreLines(a) && AreLines(b)
    ensures AreLines(a + b)
  {
  }

  lemma OptionsAreLines(st: Settings)
    requires Printable(st)
    ensures AreLines(PrintedOptions(st))
  {
    hide OptionText, PrintableSource, PrintableServer;
    OptionIsLine(ReadBufferBytes, st.readBufferBytes);
    OptionIsLine(ReconnectMinSec, st.reconnectMinSec);
    OptionIsLine(ReconnectMaxSec, st.reconnectMaxSec);
    OptionIsLine(ThroughputLogKb, st.throughputLogEveryBytes / 1024);
  }

  lemma ServersAreLines(servers: seq<string>)
    requires forall server :: server in servers ==> PrintableServer(server)
    ensures AreLines(servers)
  {
    hide IsServer;
  }

  lemma SourcesAreLines(sources: seq<NtripSource>)
    requires forall src :: src in sources ==> PrintableSource(src)
    ensures AreLines(PrintedSources(sources))
  {
    hide PrintSource, IsPlain, WellFormed;
    forall line | line in PrintedSources(sources) ensures '\n' !in line {
      var i :| 0 <= i < |sources| && line == PrintedSources(sources)[i];
      assert PrintableSource(sources[i]);
    }
  }

  lemma PrintedAreLines(st: Settings)
    requires Printable(st)
    ensures AreLines(Printed(st))
  {
    hide PrintedOptions, HeaderText, PrintSource, IsServer, WellFormed, IsPlain;
    OptionsAreLines(st);
    HeaderIsLine(NatsDestinations);
    HeaderIsLine(NtripSources);
    var servers := [HeaderText(NatsDestinations)] + st.natsDestinations;
    var sources := [HeaderText(NtripSources)] + PrintedSources(st.ntripSources);
    assert AreLines([HeaderText(NatsDestinations)]) && AreLines([HeaderText(NtripSources)]);
    ServersAreLines(st.natsDestinations);
    SourcesAreLines(st.ntripSources);
    LinesTogether([HeaderText(NatsDestinations)], st.natsDestinations);
    LinesTogether([HeaderText(NtripSources)], PrintedSources(st.ntripSources));
    LinesTogether(servers, sources);
    LinesTogether(PrintedOptions(st), servers + sources);
  }

  lemma PrintedComesBack(start: Settings, st: Settings)
    requires Printable(st) && start.natsDestinations == [] && start.ntripSources == []
    ensures Parsed(start, Printed(st)) == Outcome(NtripSources, st, None)
  {
    hide OneLine, HeaderText, IsServer, WellFormed, IsPlain, PrintedOptions, AllLines, PrintedSources;
    var s1 := start.(readBufferBytes := st.readBufferBytes, reconnectMinSec := st.reconnectMinSec,
                     reconnectMaxSec := st.reconnectMaxSec, throughputLogEveryBytes := st.throughputLogEveryBytes);
    var s2 := s1.(natsDestinations := st.natsDestinations);
    var servers := [HeaderText(NatsDestinations)] + st.natsDestinations;
    var sources := [HeaderText(NtripSources)] + PrintedSources(st.ntripSources);
    OptionsComeBack(start, st);
    LinesAppend(Options, start, PrintedOptions(st), servers + sources);
    HeaderSwitches(Options, s1, NatsDestinations);
    LineThenLines(Options, s1, HeaderText(NatsDestinations), st.natsDestinations);
    ServersComeBack(s1, st.natsDestinations);
    assert [] + st.natsDestinations == st.natsDestinations;
    LinesAppend(Options, s1, servers, sources);
    HeaderSwitches(NatsDestinations, s2, NtripSources);
    LineThenLines(NatsDestinations, s2, HeaderText(NtripSources), PrintedSources(st.ntripSources));
    SourcesComeBack(s2, st.ntripSources);
    assert [] + st.ntripSources == st.ntripSources;
  }

  // ---------- which option lines are accepted ----------

  predicate Splits(line: string, name: string, value: string) {
    line == name + "=" + value && '=' !in name
  }

  lemma SplitIsRead(line: string, name: string, value: string)
    requires Splits(line, name, value)
    ensures OptionLine(line) == OptionOf(name, value)
  {
    hide FindFrom, OptionOf;
    assert line[..|name|] == name && line[|name| + 1..] == value && line[0..|name|] == name;
    CharAt(line, '=', 0, |name|);
  }

  lemma ReadIsSplit(line: string) returns (name: string, value: string)
    requires FindChar(line, '=', 0).Some?
    ensures Splits(line, name, value)
  {
    hide FindFrom;
    var eq := FindChar(line, '=', 0).value;
    FoundChar(line, '=', 0);
    name, value := line[..eq], line[eq + 1..];
    assert line[0..eq] == name;
  }

  lemma KeyOfExactly(name: string, key: Key)
    ensures KeyOf(name) == Some(key) <==> name == KeyName(key)
  {
    KeyNamesDiffer();
    hide KeyName;
  }

  lemma NoEmptyValue()
    ensures ParsePositiveInt("") == None
  {
  }

  lemma OptionOfExactly(name: string, value: string, key: Key, n: nat)
    ensures OptionOf(name, value) == Ok((key, n))
       <==> ToLower(Trim(name)) == KeyName(key) && ParsePositiveInt(Trim(value)) == Some(n)
  {
    KeyNameLetters(key);
    KeyOfExactly(ToLower(Trim(name)), key);
    NoEmptyValue();
    hide KeyName, KeyOf, ParsePositiveInt, ToLower, Trim;
  }

  /** Exactly which lines set which option to which number: blanks around name and value, and capital
      letters in the name, make no difference. */
  lemma OptionExactly(line: string, key: Key, n: nat)
    ensures OptionLine(line) == Ok((key, n)) <==>
      exists name: string, value: string :: Splits(line, name, value)
        && ToLower(Trim(name)) == KeyName(key) && ParsePositiveInt(Trim(value)) == Some(n)
  {
    hide OptionOf, KeyName, ParsePositiveInt, ToLower, Trim, Splits, FindChar;
    if OptionLine(line) == Ok((key, n)) {
      var name, value := ReadIsSplit(line);
      SplitIsRead(line, name, value);
      OptionOfExactly(name, value, key, n);
    }
    forall name: string, value: string | Splits(line, name, value)
      && ToLower(Trim(name)) == KeyName(key) && ParsePositiveInt(Trim(value)) == Some(n)
      ensures OptionLine(line) == Ok((key, n))
    {
      SplitIsRead(line, name, value);
      OptionOfExactly(name, value, key, n);
    }
  }

  /** A name that is not empty and is none of the four. */
  predicate UnknownName(name: string) {
    Trim(name) != "" && forall key: Key :: ToLower(Trim(name)) != KeyName(key)
  }

  lemma UnknownOfExactly(name: string, value: string)
    ensures OptionOf(name, value) == Err(InvalidOptionKey) <==> UnknownName(name) && Trim(value) != ""
  {
    hide KeyName, KeyOf, ParsePositiveInt, Trim;
    var lower := ToLower(Trim(name));
    forall key ensures KeyOf(lower) == Some(key) <==> lower == KeyName(key) {
      KeyOfExactly(lower, key);
    }
  }

  /** Exactly which lines are refused for their name. */
  lemma UnknownKeyExactly(line: string)
    ensures OptionLine(line) == Err(InvalidOptionKey) <==>
      exists name: string, value: string :: Splits(line, name, value) && UnknownName(name) && Trim(value) != ""
  {
    hide OptionOf, UnknownName, Trim, Splits, FindChar;
    if OptionLine(line) == Err(InvalidOptionKey) {
      var name, value := ReadIsSplit(line);
      SplitIsRead(line, name, value);
      UnknownOfExactly(name, value);
    }
    forall name: string, value: string | Splits(line, name, value) && UnknownName(name) && Trim(value) != ""
      ensures OptionLine(line) == Err(InvalidOptionKey)
    {
      SplitIsRead(line, name, value);
      UnknownOfExactly(name, value);
    }
  }

  // ---------- a documented option that is refused ----------

  /** In the options section such a line ends the reading of the file, unless it is ignored or a header. */
  lemma UnknownOptionIsRefused(st: Settings, name: string, value: string)
    requires IsPlain(name + "=" + value) && '=' !in name && UnknownName(name) && Trim(value) != ""
    ensures OneLine(Options, st, name + "=" + value) == Outcome(Options, st, Some(InvalidOptionKey))
  {
    var line := name + "=" + value;
    TrimIsIdentity(line);
    SplitIsRead(line, name, value);
    UnknownOfExactly(name, value);
    hide OptionLine, UnknownName, Trim, OptionOf;
  }

  lemma ConnectionHeaderIsUnknown()
    ensures var name, value := "connection_header", "keep-alive";
      '=' !in name && UnknownName(name) && Trim(value) != "" && IsPlain(name + "=" + value)
  {
    var name := "connection_header";
    LowerCaseStays(name);
    TrimIsIdentity(name);
    TrimIsIdentity("keep-alive");
    forall key: Key ensures name != KeyName(key) {
      assert name[0] == 'c';
      KeyNameStarts(key);
    }
    hide Trim, ToLower, KeyName;
  }

  lemma KeyNameStarts(key: Key)
    ensures KeyName(key) != "" && (KeyName(key)[0] == 'r' || KeyName(key)[0] == 't')
  {
  }

  lemma ExampleText()
    ensures "[options]" == HeaderText(Options)
    ensures "connection_header=keep-alive" == "connection_header" + "=" + "keep-alive"
    ensures '\n' !in "[options]" && '\n' !in "connection_header=keep-alive"
  {
  }

  lemma ExampleLines(rest: string)
    ensures Lines("[options]" + "\n" + ("connection_header=keep-alive" + "\n" + rest))
         == ["[options]"] + (["connection_header=keep-alive"] + Lines(rest))
  {
    hide Lines;
    ExampleText();
    FirstLine("[options]", "connection_header=keep-alive" + "\n" + rest);
    FirstLine("connection_header=keep-alive", rest);
  }

  /** The example in the repository's own documentation starts with an option the parser does not know. */
  lemma DocumentedExampleIsRefused(rest: string)
    ensures var text := "[options]" + "\n" + ("connection_header=keep-alive" + "\n" + rest);
      Parsed(DEFAULTS, Lines(text)).error == Some(InvalidOptionKey)
  {
    hide OneLine, FinalError, HeaderText, UnknownName, Trim, Lines;
    var name, value := "connection_header", "keep-alive";
    var header, line := HeaderText(Options), name + "=" + value;
    ConnectionHeaderIsUnknown();
    HeaderSwitches(Options, DEFAULTS, Options);
    UnknownOptionIsRefused(DEFAULTS, name, value);
    LineThenLines(Options, DEFAULTS, header, [line] + Lines(rest));
    ExampleText();
    ExampleLines(rest);
  }
}
