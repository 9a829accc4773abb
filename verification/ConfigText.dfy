/** What each line of a configuration file does, with the names and characters as they stand in the file. */
module ConfigText {
  import opened Search
  import opened MachineInt
  import opened IntText
  import opened ConfigLines
  import opened TextLines
  import opened ConfigFile
  import opened ConfigRoundTrip

  // ---------- blanks and letters ----------

  /** Space, tab, line feed, vertical tab, form feed, carriage return. */
  predicate IsBlank(c: char) {
    c as int == 32 || 9 <= c as int <= 13
  }

  predicate AllBlank(s: string) {
    forall k :: 0 <= k < |s| ==> IsBlank(s[k])
  }

  lemma SpacesAreBlanks()
    ensures forall c :: IsSpace(c) <==> IsBlank(c)
  {
  }

  lemma {:induction false} LeftTaken(s: string) returns (a: string)
    ensures s == a + TrimLeft(s) && AllBlank(a)
    ensures TrimLeft(s) != "" ==> !IsBlank(TrimLeft(s)[0])
  {
    SpacesAreBlanks();
    hide IsSpace, IsBlank;
    if s != "" && IsSpace(s[0]) {
      a := LeftTaken(s[1..]);
      a := [s[0]] + a;
    } else {
      a := "";
    }
  }

  lemma {:induction false} RightTaken(s: string) returns (b: string)
    ensures s == TrimRight(s) + b && AllBlank(b)
    ensures TrimRight(s) != "" ==> !IsBlank(TrimRight(s)[|TrimRight(s)| - 1])
  {
    SpacesAreBlanks();
    hide IsSpace, IsBlank;
    if s != "" && IsSpace(s[|s| - 1]) {
      b := RightTaken(s[..|s| - 1]);
      b := b + [s[|s| - 1]];
    } else {
      b := "";
    }
  }

  /** Text between blanks that neither begins nor ends with one. */
  predicate IsCore(s: string, t: string, i: nat) {
    && i + |t| <= |s| && s[i..i + |t|] == t && AllBlank(s[..i]) && AllBlank(s[i + |t|..])
    && (t != "" ==> !IsBlank(t[0]) && !IsBlank(t[|t| - 1]))
  }

  lemma TrimmedIsCore(s: string) returns (i: nat)
    ensures IsCore(s, Trim(s), i)
  {
    hide IsBlank, TrimLeft, TrimRight;
    var a := LeftTaken(s);
    var b := RightTaken(TrimLeft(s));
    i := |a|;
    assert TrimLeft(s) == Trim(s) + b;
    assert s == a + (Trim(s) + b);
    if Trim(s) != "" { assert TrimLeft(s)[0] == Trim(s)[0]; }
  }

  lemma OneCore(s: string, t: string, i: nat, u: string, j: nat)
    requires IsCore(s, t, i) && IsCore(s, u, j)
    ensures t == u
  {
    hide IsBlank;
    assert forall k :: 0 <= k < i ==> s[k] == s[..i][k];
    assert forall k :: 0 <= k < j ==> s[k] == s[..j][k];
    assert forall k :: i + |t| <= k < |s| ==> s[k] == s[i + |t|..][k - (i + |t|)];
    assert forall k :: j + |u| <= k < |s| ==> s[k] == s[j + |u|..][k - (j + |u|)];
    if t != "" { assert t[0] == s[i] && t[|t| - 1] == s[i + |t| - 1]; }
    if u != "" { assert u[0] == s[j] && u[|u| - 1] == s[j + |u| - 1]; }
  }

  /** Trimming takes off exactly the blanks at both ends. */
  lemma TrimExactly(s: string, t: string)
    ensures Trim(s) == t <==> exists i: nat :: IsCore(s, t, i)
  {
    hide IsCore, Trim;
    var i := TrimmedIsCore(s);
    forall j: nat | IsCore(s, t, j) ensures Trim(s) == t {
      OneCore(s, Trim(s), i, t, j);
    }
  }

  /** Capitals become small letters, and nothing else changes. */
  lemma LowerExactly(s: string, r: string)
    ensures ToLower(s) == r <==>
      |r| == |s| && forall k :: 0 <= k < |s| ==>
        r[k] as int == if 65 <= s[k] as int <= 90 then s[k] as int + 32 else s[k] as int
  {
  }

  // ---------- one line of a text ----------

  /** A line that is accepted, and then the rest of the text. */
  lemma LineThenText(section: Section, st: Settings, line: string, rest: string)
    requires '\n' !in line && OneLine(section, st, line).error.None?
    ensures var o := OneLine(section, st, line);
      AllLines(section, st, Lines(line + "\n" + rest)) == AllLines(o.section, o.settings, Lines(rest))
  {
    hide OneLine, Lines;
    FirstLine(line, rest);
    LineThenLines(section, st, line, Lines(rest));
  }

  lemma OptionThenText(st: Settings, key: Key, name: string, n: nat, rest: string)
    requires KeyName(key) + "=" == name && 1 <= n <= INT_MAX
    ensures AllLines(Options, st, Lines(name + Decimal(n) + "\n" + rest))
         == AllLines(Options, SetOption(st, key, n), Lines(rest))
  {
    hide KeyName, SetOption, OneLine, Lines, Decimal;
    OptionIsSet(st, key, n);
    OptionIsLine(key, n);
    LineThenText(Options, st, OptionText(key, n), rest);
  }

  /** What a line with each of the four names does: it sets its own option to the number, throughput in
      kilobytes as far as an int holds them, and leaves the others. */
  lemma OptionsByName(st: Settings, n: nat, rest: string)
    requires 1 <= n <= 2147483647
    ensures AllLines(Options, st, Lines("read_buffer_bytes=" + Decimal(n) + "\n" + rest))
         == AllLines(Options, st.(readBufferBytes := n), Lines(rest))
    ensures AllLines(Options, st, Lines("reconnect_min_sec=" + Decimal(n) + "\n" + rest))
         == AllLines(Options, st.(reconnectMinSec := n), Lines(rest))
    ensures AllLines(Options, st, Lines("reconnect_max_sec=" + Decimal(n) + "\n" + rest))
         == AllLines(Options, st.(reconnectMaxSec := n), Lines(rest))
    ensures n <= 2097151 ==>
      AllLines(Options, st, Lines("throughput_log_kb=" + Decimal(n) + "\n" + rest))
        == AllLines(Options, st.(throughputLogEveryBytes := n * 1024), Lines(rest))
  {
    hide AllLines, Lines, Decimal, Wrap32;
    OptionThenText(st, ReadBufferBytes, "read_buffer_bytes=", n, rest);
    OptionThenText(st, ReconnectMinSec, "reconnect_min_sec=", n, rest);
    OptionThenText(st, ReconnectMaxSec, "reconnect_max_sec=", n, rest);
    OptionThenText(st, ThroughputLogKb, "throughput_log_kb=", n, rest);
    WrapKeepsKilobytes(n);
  }

  /** What each of the three headers does. */
  lemma SectionsByName(section: Section, st: Settings, rest: string)
    ensures AllLines(section, st, Lines("[options]" + "\n" + rest)) == AllLines(Options, st, Lines(rest))
    ensures AllLines(section, st, Lines("[nats_destinations]" + "\n" + rest))
         == AllLines(NatsDestinations, st, Lines(rest))
    ensures AllLines(section, st, Lines("[ntrip_sources]" + "\n" + rest)) == AllLines(NtripSources, st, Lines(rest))
  {
    HeadersByText();
    hide AllLines, Lines, HeaderText, OneLine;
    SectionThenText(section, st, Options, rest);
    SectionThenText(section, st, NatsDestinations, rest);
    SectionThenText(section, st, NtripSources, rest);
  }

  lemma HeadersByText()
    ensures HeaderText(Options) == "[options]" && HeaderText(NatsDestinations) == "[nats_destinations]"
    ensures HeaderText(NtripSources) == "[ntrip_sources]"
  {
  }

  lemma SectionThenText(section: Section, st: Settings, next: Section, rest: string)
    ensures AllLines(section, st, Lines(HeaderText(next) + "\n" + rest)) == AllLines(next, st, Lines(rest))
  {
    hide AllLines, Lines, HeaderText, OneLine;
    HeaderSwitches(section, st, next);
    HeaderIsLine(next);
    LineThenText(section, st, HeaderText(next), rest);
  }

  /** A server line adds the server. */
  lemma ServerByText(st: Settings, host: string, port: nat, rest: string)
    requires ':' !in host && '\n' !in host && 1 <= port <= 2147483647
    ensures var server := "nats://" + host + ":" + Decimal(port);
      AllLines(NatsDestinations, st, Lines(server + "\n" + rest))
        == AllLines(NatsDestinations, st.(natsDestinations := st.natsDestinations + [server]), Lines(rest))
  {
    hide AllLines, Lines, Decimal, ParseNats, OneLine, IsPlain, ParsePositiveInt;
    var server := "nats://" + host + ":" + Decimal(port);
    assert server == NatsLine(host, Decimal(port));
    DecimalIsParsed(port);
    NatsIsParsed(host, Decimal(port), port);
    ServerIsPlain(server);
    DecimalIsLine(port);
    PlainLine(NatsDestinations, st, server, st.(natsDestinations := st.natsDestinations + [server]));
    LineThenText(NatsDestinations, st, server, rest);
  }

  /** A source line adds the source. */
  lemma SourceByText(st: Settings, user: string, pass: string, host: string, port: nat, name: string, rest: string)
    requires PrintableSource(NtripSource(user, pass, host, port, name))
    ensures var line := user + ":" + (pass + " " + (host + ":" + (Decimal(port) + "/" + name)));
      AllLines(NtripSources, st, Lines(line + "\n" + rest))
        == AllLines(NtripSources, st.(ntripSources := st.ntripSources + [NtripSource(user, pass, host, port, name)]),
                    Lines(rest))
  {
    hide AllLines, Lines, Decimal, ParseSource, OneLine, IsPlain, WellFormed;
    var src := NtripSource(user, pass, host, port, name);
    PrintedSourceIsParsed(src);
    PlainLine(NtripSources, st, PrintSource(src), st.(ntripSources := st.ntripSources + [src]));
    LineThenText(NtripSources, st, PrintSource(src), rest);
  }

  /** Blanks alone, or blanks and a number sign, whatever follows: the line is passed over. */
  lemma CommentsByText(section: Section, st: Settings, blanks: string, comment: string, rest: string)
    requires AllBlank(blanks) && '\n' !in blanks && '\n' !in comment
    ensures AllLines(section, st, Lines(blanks + "\n" + rest)) == AllLines(section, st, Lines(rest))
    ensures AllLines(section, st, Lines(blanks + "#" + comment + "\n" + rest)) == AllLines(section, st, Lines(rest))
  {
    hide AllLines, Lines, BodyLine, SectionHeader, Trim;
    BlankIsEmpty(blanks);
    CommentStarts(blanks, comment);
    LineThenText(section, st, blanks, rest);
    LineThenText(section, st, blanks + "#" + comment, rest);
  }

  lemma BlankIsEmpty(blanks: string)
    requires AllBlank(blanks)
    ensures Trim(blanks) == ""
  {
    hide Trim;
    assert IsCore(blanks, "", 0);
    TrimExactly(blanks, "");
  }

  lemma CommentStarts(blanks: string, comment: string)
    requires AllBlank(blanks)
    ensures var t := Trim(blanks + "#" + comment); t != "" && t[0] == '#'
  {
    hide Trim, IsBlank;
    var s := blanks + "#" + comment;
    var i := TrimmedIsCore(s);
    HashIsNoBlank();
    var k := |blanks|;
    assert s[k] == '#';
    assert forall j :: 0 <= j < i ==> s[j] == s[..i][j];
    assert forall j :: i + |Trim(s)| <= j < |s| ==> s[j] == s[i + |Trim(s)|..][j - (i + |Trim(s)|)];
    assert forall j :: 0 <= j < k ==> s[j] == blanks[j];
    if Trim(s) != "" { assert Trim(s)[0] == s[i]; }
  }

  lemma HashIsNoBlank()
    ensures !IsBlank('#')
  {
  }

  // ---------- a whole file ----------

  /** A text that sets all options, and then goes on. */
  function OptionsText(buffer: nat, min: nat, max: nat, kb: nat, rest: string): string {
    "[options]" + "\n"
    + ("read_buffer_bytes=" + Decimal(buffer) + "\n"
    + ("reconnect_min_sec=" + Decimal(min) + "\n"
    + ("reconnect_max_sec=" + Decimal(max) + "\n"
    + ("throughput_log_kb=" + Decimal(kb) + "\n"
    + rest))))
  }

  /** A text that names one server and one source. */
  function ListsText(server: string, src: NtripSource): string {
    "[nats_destinations]" + "\n"
    + (server + "\n"
    + ("[ntrip_sources]" + "\n"
    + (src.user + ":" + (src.pass + " " + (src.host + ":" + (Decimal(src.port) + "/" + src.name))) + "\n"
    + "")))
  }

  lemma OptionsPart(st: Settings, buffer: nat, min: nat, max: nat, kb: nat, rest: string)
    requires 1 <= buffer <= 2147483647 && 1 <= min <= 2147483647 && 1 <= max <= 2147483647 && 1 <= kb <= 2097151
    ensures AllLines(Options, st, Lines(OptionsText(buffer, min, max, kb, rest)))
         == AllLines(Options, st.(readBufferBytes := buffer, reconnectMinSec := min, reconnectMaxSec := max,
                                  throughputLogEveryBytes := kb * 1024), Lines(rest))
  {
    hide AllLines, Lines, Decimal;
    var t4 := "throughput_log_kb=" + Decimal(kb) + "\n" + rest;
    var t3 := "reconnect_max_sec=" + Decimal(max) + "\n" + t4;
    var t2 := "reconnect_min_sec=" + Decimal(min) + "\n" + t3;
    var t1 := "read_buffer_bytes=" + Decimal(buffer) + "\n" + t2;
    SectionsByName(Options, st, t1);
    var s1 := st.(readBufferBytes := buffer);
    OptionsByName(st, buffer, t2);
    var s2 := s1.(reconnectMinSec := min);
    OptionsByName(s1, min, t3);
    var s3 := s2.(reconnectMaxSec := max);
    OptionsByName(s2, max, t4);
    OptionsByName(s3, kb, rest);
  }

  lemma ListsPart(st: Settings, host: string, port: nat, src: NtripSource)
    requires ':' !in host && '\n' !in host && 1 <= port <= 2147483647 && PrintableSource(src)
    ensures var server := "nats://" + host + ":" + Decimal(port);
      AllLines(Options, st, Lines(ListsText(server, src)))
        == Outcome(NtripSources, st.(natsDestinations := st.natsDestinations + [server],
                                     ntripSources := st.ntripSources + [src]), None)
  {
    hide AllLines, Lines, Decimal, PrintableSource;
    var server := "nats://" + host + ":" + Decimal(port);
    var source := src.user + ":" + (src.pass + " " + (src.host + ":" + (Decimal(src.port) + "/" + src.name)));
    var t8 := source + "\n" + "";
    var t7 := "[ntrip_sources]" + "\n" + t8;
    SectionsByName(Options, st, server + "\n" + t7);
    ServerByText(st, host, port, t7);
    var next := st.(natsDestinations := st.natsDestinations + [server]);
    SectionsByName(NatsDestinations, next, t8);
    SourceByText(next, src.user, src.pass, src.host, src.port, src.name, "");
    NoMoreLines(NtripSources, next.(ntripSources := next.ntripSources + [src]));
  }

  /** A file that sets all options and names one server and one source: what is kept of it, and when it is
      refused. */
  lemma WholeFile(buffer: nat, min: nat, max: nat, kb: nat, host: string, port: nat, src: NtripSource)
    requires 1 <= buffer <= 2147483647 && 1 <= min <= 2147483647 && 1 <= max <= 2147483647 && 1 <= kb <= 2097151
    requires ':' !in host && '\n' !in host && 1 <= port <= 2147483647 && PrintableSource(src)
    ensures var server := "nats://" + host + ":" + Decimal(port);
      Parsed(DEFAULTS, Lines(OptionsText(buffer, min, max, kb, ListsText(server, src))))
        == Outcome(NtripSources,
                   Settings(readBufferBytes := buffer, reconnectMinSec := min, reconnectMaxSec := max,
                            throughputLogEveryBytes := kb * 1024, ntripSources := [src], natsDestinations := [server]),
                   if min > max then Some(MinAboveMax) else None)
  {
    hide AllLines, Lines, Decimal, PrintableSource, OptionsText, ListsText;
    var server := "nats://" + host + ":" + Decimal(port);
    OptionsPart(DEFAULTS, buffer, min, max, kb, ListsText(server, src));
    var st := DEFAULTS.(readBufferBytes := buffer, reconnectMinSec := min, reconnectMaxSec := max,
                        throughputLogEveryBytes := kb * 1024);
    ListsPart(st, host, port, src);
    assert [] + [server] == [server] && [] + [src] == [src];
  }

  /** Files without a server, and with one but without a source. */
  lemma MissingLists(buffer: nat, min: nat, max: nat, kb: nat, host: string, port: nat)
    requires 1 <= buffer <= 2147483647 && 1 <= min <= 2147483647 && 1 <= max <= 2147483647 && 1 <= kb <= 2097151
    requires ':' !in host && '\n' !in host && 1 <= port <= 2147483647
    ensures Parsed(DEFAULTS, Lines(OptionsText(buffer, min, max, kb, ""))).error
         == if min > max then Some(MinAboveMax) else Some(NoNatsDestinations)
    ensures var servers := "[nats_destinations]" + "\n" + ("nats://" + host + ":" + Decimal(port) + "\n" + "");
      Parsed(DEFAULTS, Lines(OptionsText(buffer, min, max, kb, servers))).error
        == if min > max then Some(MinAboveMax) else Some(NoNtripSources)
  {
    hide AllLines, Lines, Decimal, OptionsText;
    var server := "nats://" + host + ":" + Decimal(port);
    var servers := "[nats_destinations]" + "\n" + (server + "\n" + "");
    var st := DEFAULTS.(readBufferBytes := buffer, reconnectMinSec := min, reconnectMaxSec := max,
                        throughputLogEveryBytes := kb * 1024);
    OptionsPart(DEFAULTS, buffer, min, max, kb, "");
    NoMoreLines(Options, st);
    OptionsPart(DEFAULTS, buffer, min, max, kb, servers);
    SectionsByName(Options, st, server + "\n" + "");
    ServerByText(st, host, port, "");
    NoMoreLines(NatsDestinations, st.(natsDestinations := st.natsDestinations + [server]));
  }

  /** Beyond 2097151 kilobytes the number kept is the product as a 32-bit int wraps it around. */
  lemma ThroughputWraps(st: Settings, n: nat, rest: string) returns (x: int)
    requires 1 <= n <= 2147483647
    ensures -2147483648 <= x <= 2147483647 && (x - n * 1024) % 4294967296 == 0
    ensures AllLines(Options, st, Lines("throughput_log_kb=" + Decimal(n) + "\n" + rest))
         == AllLines(Options, st.(throughputLogEveryBytes := x), Lines(rest))
  {
    hide AllLines, Lines, Decimal;
    OptionThenText(st, ThroughputLogKb, "throughput_log_kb=", n, rest);
    x := Wrap32(n * 1024);
    var k := (n * 1024 - INT_MIN) / TWO_32;
    assert n * 1024 == x + k * 4294967296;
  }

  lemma NoMoreLines(section: Section, st: Settings)
    ensures AllLines(section, st, Lines("")) == Outcome(section, st, None)
  {
  }
}
