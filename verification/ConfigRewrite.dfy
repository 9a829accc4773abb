/** Writing the settings of an accepted file anew: the canonical form of a configuration file. */
module ConfigRewrite {
  import opened Search
  import opened IntText
  import opened ConfigLines
  import opened TextLines
  import opened ConfigFile
  import opened ConfigRoundTrip

  // ---------- a trimmed line ----------

  lemma {:induction false} TrimmedLeft(s: string)
    ensures var t := TrimLeft(s);
      (t != "" ==> !IsSpace(t[0])) && forall c :: c in t ==> c in s
  {
    hide IsSpace;
    if s != "" && IsSpace(s[0]) { TrimmedLeft(s[1..]); }
  }

  lemma {:induction false} TrimmedRight(s: string)
    ensures var t := TrimRight(s);
      && (t != "" ==> !IsSpace(t[|t| - 1]) && t[0] == s[0])
      && t <= s
  {
    hide IsSpace;
    if s != "" && IsSpace(s[|s| - 1]) { TrimmedRight(s[..|s| - 1]); }
  }

  lemma Trimmed(line: string)
    requires '\n' !in line
    ensures var t := Trim(line);
      '\n' !in t && (t != "" ==> !IsSpace(t[0]) && !IsSpace(t[|t| - 1]))
  {
    hide IsSpace, TrimLeft, TrimRight;
    TrimmedLeft(line);
    TrimmedRight(TrimLeft(line));
  }

  // ---------- what a line adds to the settings ----------

  lemma JoinEnds(user: string, pass: string, host: string, portText: string, name: string)
    requires user != ""
    ensures var line := Join(user, pass, host, portText, name);
      line != "" && line[0] == user[0] && line[|line| - 1] == if name == "" then '/' else name[|name| - 1]
  {
  }

  lemma JoinHolds(user: string, pass: string, host: string, portText: string, name: string, c: char)
    requires c != ':' && c != ' ' && c != '/'
    ensures c in Join(user, pass, host, portText, name)
      <==> c in user || c in pass || c in host || c in portText || c in name
  {
  }

  /** The source of an accepted line can be printed, though its port may have been spelled differently. */
  lemma SourceIsPrintable(line: string)
    requires IsPlain(line) && '\n' !in line && ParseSource(line).Ok?
    ensures PrintableSource(ParseSource(line).value)
  {
    hide ParseSource, ParsePositiveInt, Join, IsSpace, Decimal;
    var src := ParseSource(line).value;
    var portText := ParsedIsJoined(line);
    DecimalIsLine(src.port);
    JoinEnds(src.user, src.pass, src.host, portText, src.name);
    JoinEnds(src.user, src.pass, src.host, Decimal(src.port), src.name);
    JoinHolds(src.user, src.pass, src.host, portText, src.name, '\n');
    JoinHolds(src.user, src.pass, src.host, Decimal(src.port), src.name, '\n');
  }

  lemma ServerIsPrintable(line: string)
    requires '\n' !in line && ParseNats(line).Ok?
    ensures PrintableServer(ParseNats(line).value)
  {
    hide ParseNats, ParsePositiveInt, Decimal, IsServer;
    ServerIsCanonical(line);
    var host, portText := NatsWasLine(line);
    var port := ParsePositiveInt(portText).value;
    NatsIsParsed(host, portText, port);
    DecimalIsLine(port);
    assert NatsLine(host, portText) == NATS + host + ":" + portText;
    assert NatsLine(host, Decimal(port)) == NATS + host + ":" + Decimal(port);
  }

  predicate AllPrintable(st: Settings) {
    && (forall src :: src in st.ntripSources ==> PrintableSource(src))
    && forall server :: server in st.natsDestinations ==> PrintableServer(server)
  }

  lemma BodyLineKeepsPrintable(section: Section, st: Settings, line: string)
    requires AllPrintable(st) && IsPlain(line) && '\n' !in line && BodyLine(section, st, line).Ok?
    ensures AllPrintable(BodyLine(section, st, line).value)
  {
    hide OptionLine, ParseNats, ParseSource, PrintableSource, PrintableServer, IsPlain;
    match section
    case Options =>
    case NatsDestinations => ServerIsPrintable(line);
    case NtripSources => SourceIsPrintable(line);
  }

  lemma LineKeepsPrintable(section: Section, st: Settings, line: string)
    requires AllPrintable(st) && '\n' !in line
    ensures AllPrintable(OneLine(section, st, line).settings)
  {
    hide Trim, SectionHeader, BodyLine, AllPrintable;
    Trimmed(line);
    var t := Trim(line);
    if t != "" && t[0] != '#' && t[0] != '[' && BodyLine(section, st, t).Ok? {
      BodyLineKeepsPrintable(section, st, t);
    }
  }

  lemma {:induction false} LinesKeepPrintable(section: Section, st: Settings, lines: seq<string>)
    requires AllPrintable(st) && AreLines(lines)
    ensures AllPrintable(AllLines(section, st, lines).settings)
    decreases |lines|
  {
    hide OneLine, AllPrintable;
    if lines != [] {
      LineKeepsPrintable(section, st, lines[0]);
      var o := OneLine(section, st, lines[0]);
      LinesKeepPrintable(o.section, o.settings, lines[1..]);
    }
  }

  // ---------- the canonical form ----------

  /** The settings of an accepted file can be printed, unless the throughput option wrapped around. */
  lemma AcceptedIsPrintable(text: string)
    requires Parsed(DEFAULTS, Lines(text)).error.None?
    ensures var st := Parsed(DEFAULTS, Lines(text)).settings; Printable(st) <==> st.throughputLogEveryBytes >= 1024
  {
    hide OneLine, Lines, PrintableSource, PrintableServer, WellFormed, IsServer;
    LinesOfReadAreLines(text);
    LinesKeepPrintable(Options, DEFAULTS, Lines(text));
    AcceptedIsUsable(Lines(text));
  }

  lemma LinesOfReadAreLines(text: string)
    ensures AreLines(Lines(text))
  {
    hide Lines;
    ReadIsTextOf(text);
  }

  /** Writing what an accepted file says and reading it again changes nothing. */
  lemma RewritingKeepsSettings(text: string)
    requires Parsed(DEFAULTS, Lines(text)).error.None?
    requires Parsed(DEFAULTS, Lines(text)).settings.throughputLogEveryBytes >= 1024
    ensures var st := Parsed(DEFAULTS, Lines(text)).settings;
      Printable(st) && Parsed(DEFAULTS, Lines(Text(Printed(st)))) == Outcome(NtripSources, st, None)
  {
    hide Parsed, Lines, Printed, Text, Printable;
    AcceptedIsPrintable(text);
    FileRoundTrip(DEFAULTS, Parsed(DEFAULTS, Lines(text)).settings);
  }
}
