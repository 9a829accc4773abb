/** The lines of a bridge's configuration file: a section header, an option, a NATS server, an NTRIP source. */
module ConfigLines {
  import opened Search
  import opened MachineInt
  import opened IntText

  datatype Error =
    | InvalidSectionHeader
    | UnknownSection
    | InvalidOptionFormat
    | InvalidOptionValue
    | InvalidOptionKey
    | InvalidNatsFormat
    | MissingColon
    | MissingSpace
    | MissingSlash
    | InvalidPort
    | MinAboveMax
    | NoNatsDestinations
    | NoNtripSources

  datatype Result<+T> = Ok(value: T) | Err(error: Error)

  function FindChar(line: string, c: char, from: nat): Option<nat> {
    FindFrom(line, [c], from)
  }

  lemma FoundChar(line: string, c: char, from: nat)
    ensures FindChar(line, c, from).Some? ==>
      var i := FindChar(line, c, from).value;
      from <= i < |line| && line[i] == c && c !in line[from..i]
  {
    if FindChar(line, c, from).Some? {
      var i := FindChar(line, c, from).value;
      assert line[i..i + 1][0] == line[i];
      forall k | from <= k < i ensures line[k] != c {
        assert !OccursAt(line, [c], k);
        assert line[k..k + 1] == [line[k]];
      }
    }
  }

  lemma CharAt(line: string, c: char, from: nat, i: nat)
    requires from <= i < |line| && line[i] == c && c !in line[from..i]
    ensures FindChar(line, c, from) == Some(i)
  {
    OccurrencesStart(line, [c]);
    assert line[i..i + 1] == [c];
    forall k: nat | from <= k < i ensures !OccursAt(line, [c], k) {
      assert line[k] == line[from..i][k - from];
    }
    FoundFirst(line, [c], i, from);
  }

  // ---------- an NTRIP source: user:pass host:port/name ----------

  datatype NtripSource = NtripSource(user: string, pass: string, host: string, port: nat, name: string)

  function ParseSource(line: string): Result<NtripSource> {
    match FindChar(line, ':', 0)
    case None => Err(MissingColon)
    case Some(userLimit) =>
      FoundChar(line, ':', 0);
      if userLimit == 0 then Err(MissingColon) else
      match FindChar(line, ' ', userLimit + 1)
      case None => Err(MissingSpace)
      case Some(passLimit) =>
        FoundChar(line, ' ', userLimit + 1);
        if passLimit == userLimit + 1 then Err(MissingSpace) else
        match FindChar(line, ':', passLimit + 1)
        case None => Err(MissingColon)
        case Some(hostLimit) =>
          FoundChar(line, ':', passLimit + 1);
          if hostLimit == passLimit + 1 then Err(MissingColon) else
          match FindChar(line, '/', hostLimit + 1)
          case None => Err(MissingSlash)
          case Some(portLimit) =>
            FoundChar(line, '/', hostLimit + 1);
            if portLimit == hostLimit + 1 then Err(MissingSlash) else
            match ParsePositiveInt(line[hostLimit + 1..portLimit])
            case None => Err(InvalidPort)
            case Some(port) =>
              Ok(NtripSource(line[..userLimit], line[userLimit + 1..passLimit], line[passLimit + 1..hostLimit],
                             port, line[portLimit + 1..]))
  }

  /** The conditions under which a source can be written on a line. */
  predicate WellFormed(src: NtripSource) {
    && src.user != "" && ':' !in src.user
    && src.pass != "" && ' ' !in src.pass
    && src.host != "" && ':' !in src.host
    && 1 <= src.port <= INT_MAX
  }

  function Join(user: string, pass: string, host: string, portText: string, name: string): string {
    user + ":" + (pass + " " + (host + ":" + (portText + "/" + name)))
  }

  function PrintSource(src: NtripSource): string {
    Join(src.user, src.pass, src.host, Decimal(src.port), src.name)
  }

  /** A separator that does not occur in what precedes it is found behind it. */
  lemma SeparatorFound(before: string, part: string, c: char, rest: string, line: string)
    requires c !in part && line == before + (part + [c] + rest)
    ensures FindChar(line, c, |before|) == Some(|before| + |part|)
  {
    assert line[|before|..|before| + |part|] == part;
    CharAt(line, c, |before|, |before| + |part|);
  }

  lemma Regroup(a: string, b: string, c: string)
    ensures a + (b + c) == a + b + c
  {
  }

  /** Where the separators stand decides what the parser yields. */
  lemma ParsedAt(line: string, u: nat, p: nat, h: nat, q: nat)
    requires 0 < u && u + 1 < p && p + 1 < h && h + 1 < q < |line|
    requires FindChar(line, ':', 0) == Some(u) && FindChar(line, ' ', u + 1) == Some(p)
    requires FindChar(line, ':', p + 1) == Some(h) && FindChar(line, '/', h + 1) == Some(q)
    requires ParsePositiveInt(line[h + 1..q]).Some?
    ensures ParseSource(line) == Ok(NtripSource(line[..u], line[u + 1..p], line[p + 1..h],
                                                ParsePositiveInt(line[h + 1..q]).value, line[q + 1..]))
  {
    hide FindFrom, ParsePositiveInt;
  }

  lemma SpellingHasNoSlash(text: string, n: nat)
    requires ParsePositiveInt(text) == Some(n)
    ensures text != "" && '/' !in text && 1 <= n <= INT_MAX
  {
    SpellingAlphabet(text, n);
    ParsedIsSpelled(text, n);
  }

  /** Where the separators of a joined line are found. */
  lemma JoinSeparators(user: string, pass: string, host: string, portText: string, name: string)
    requires ':' !in user && ' ' !in pass && ':' !in host && '/' !in portText
    ensures var line := Join(user, pass, host, portText, name);
      var u := |user|; var p := u + 1 + |pass|; var h := p + 1 + |host|; var q := h + 1 + |portText|;
      && FindChar(line, ':', 0) == Some(u) && FindChar(line, ' ', u + 1) == Some(p)
      && FindChar(line, ':', p + 1) == Some(h) && FindChar(line, '/', h + 1) == Some(q)
  {
    hide FindChar;
    var tail3 := portText + "/" + name;
    var tail2 := host + ":" + tail3;
    var tail1 := pass + " " + tail2;
    var line := user + ":" + tail1;
    var before1 := user + ":";
    var before2 := before1 + (pass + " ");
    var before3 := before2 + (host + ":");
    SeparatorFound("", user, ':', tail1, line);
    SeparatorFound(before1, pass, ' ', tail2, line);
    Regroup(before1, pass + " ", tail2);
    SeparatorFound(before2, host, ':', tail3, line);
    Regroup(before2, host + ":", tail3);
    SeparatorFound(before3, portText, '/', name, line);
  }

  lemma JoinedIsParsed(src: NtripSource, portText: string)
    requires WellFormed(src) && ParsePositiveInt(portText) == Some(src.port)
    ensures ParseSource(Join(src.user, src.pass, src.host, portText, src.name)) == Ok(src)
  {
    hide FindChar, ParsePositiveInt, ParseSource, Join;
    SpellingHasNoSlash(portText, src.port);
    JoinSeparators(src.user, src.pass, src.host, portText, src.name);
    PartsOf(src.user, src.pass, src.host, portText, src.name);
    var u := |src.user|;
    var p := u + 1 + |src.pass|;
    var h := p + 1 + |src.host|;
    var q := h + 1 + |portText|;
    ParsedAt(Join(src.user, src.pass, src.host, portText, src.name), u, p, h, q);
  }

  lemma PartsOf(user: string, pass: string, host: string, portText: string, name: string)
    ensures var line := Join(user, pass, host, portText, name);
      var u := |user|; var p := u + 1 + |pass|; var h := p + 1 + |host|; var q := h + 1 + |portText|;
      && q < |line| && line[..u] == user && line[u + 1..p] == pass && line[p + 1..h] == host
      && line[h + 1..q] == portText && line[q + 1..] == name
  {
  }

  /** Where the parser finds the separators of an accepted line. */
  lemma AcceptedAt(line: string) returns (u: nat, p: nat, h: nat, q: nat)
    requires ParseSource(line).Ok?
    ensures 0 < u && u + 1 < p && p + 1 < h && h + 1 < q < |line|
    ensures FindChar(line, ':', 0) == Some(u) && FindChar(line, ' ', u + 1) == Some(p)
    ensures FindChar(line, ':', p + 1) == Some(h) && FindChar(line, '/', h + 1) == Some(q)
    ensures var port := ParsePositiveInt(line[h + 1..q]);
      port.Some? && ParseSource(line).value
        == NtripSource(line[..u], line[u + 1..p], line[p + 1..h], port.value, line[q + 1..])
  {
    hide FindChar, ParsePositiveInt;
    u := FindChar(line, ':', 0).value;
    FoundChar(line, ':', 0);
    p := FindChar(line, ' ', u + 1).value;
    FoundChar(line, ' ', u + 1);
    h := FindChar(line, ':', p + 1).value;
    FoundChar(line, ':', p + 1);
    q := FindChar(line, '/', h + 1).value;
    FoundChar(line, '/', h + 1);
  }

  /** Where the parser cuts an accepted line. */
  lemma CutsOf(line: string) returns (u: nat, p: nat, h: nat, q: nat)
    requires ParseSource(line).Ok?
    ensures 0 < u && u + 1 < p && p + 1 < h && h + 1 < q < |line|
    ensures line[u] == ':' && line[p] == ' ' && line[h] == ':' && line[q] == '/'
    ensures ':' !in line[..u] && ' ' !in line[u + 1..p] && ':' !in line[p + 1..h]
    ensures var port := ParsePositiveInt(line[h + 1..q]);
      port.Some? && ParseSource(line).value
        == NtripSource(line[..u], line[u + 1..p], line[p + 1..h], port.value, line[q + 1..])
  {
    hide FindChar, ParsePositiveInt, ParseSource;
    u, p, h, q := AcceptedAt(line);
    FoundChar(line, ':', 0);
    FoundChar(line, ' ', u + 1);
    FoundChar(line, ':', p + 1);
    FoundChar(line, '/', h + 1);
    assert line[0..u] == line[..u];
  }

  lemma JoinOfCuts(line: string, u: nat, p: nat, h: nat, q: nat)
    requires u < p < h < q < |line|
    requires line[u] == ':' && line[p] == ' ' && line[h] == ':' && line[q] == '/'
    ensures line == Join(line[..u], line[u + 1..p], line[p + 1..h], line[h + 1..q], line[q + 1..])
  {
    var rest1, rest2, rest3 := line[u + 1..], line[p + 1..], line[h + 1..];
    CutAt(line, h + 1, q);
    assert rest3 == line[h + 1..q] + ("/" + line[q + 1..]);
    CutAt(line, p + 1, h);
    assert rest2 == line[p + 1..h] + ":" + rest3;
    CutAt(line, u + 1, p);
    assert rest1 == line[u + 1..p] + " " + rest2;
    CutAt(line, 0, u);
    assert line[0..] == line && line[0..u] == line[..u];
    JoinParts(line[..u], line[u + 1..p], line[p + 1..h], line[h + 1..q], line[q + 1..]);
  }

  lemma JoinParts(user: string, pass: string, host: string, portText: string, name: string)
    ensures Join(user, pass, host, portText, name)
         == user + ":" + (pass + " " + (host + ":" + (portText + ("/" + name))))
  {
  }

  /** The text of the port in an accepted line. */
  lemma ParsedIsJoined(line: string) returns (portText: string)
    requires ParseSource(line).Ok?
    ensures var src := ParseSource(line).value;
      && WellFormed(src) && ParsePositiveInt(portText) == Some(src.port)
      && line == Join(src.user, src.pass, src.host, portText, src.name)
  {
    hide ParsePositiveInt, ParseSource, Join;
    var u, p, h, q := CutsOf(line);
    portText := line[h + 1..q];
    SpellingHasNoSlash(portText, ParsePositiveInt(portText).value);
    JoinOfCuts(line, u, p, h, q);
  }

  lemma CutAt(line: string, from: nat, i: nat)
    requires from <= i < |line|
    ensures line[from..] == line[from..i] + [line[i]] + line[i + 1..]
  {
  }

  /** Exactly which lines are accepted as which source: the fields in their order, with any accepted
      spelling of the port. */
  lemma SourceExactly(line: string, src: NtripSource)
    ensures ParseSource(line) == Ok(src) <==>
      WellFormed(src) && exists portText ::
        ParsePositiveInt(portText) == Some(src.port) && line == Join(src.user, src.pass, src.host, portText, src.name)
  {
    hide ParseSource, ParsePositiveInt, Join, WellFormed;
    if ParseSource(line) == Ok(src) {
      var portText := ParsedIsJoined(line);
    }
    if WellFormed(src) {
      forall portText | ParsePositiveInt(portText) == Some(src.port)
        && line == Join(src.user, src.pass, src.host, portText, src.name)
        ensures ParseSource(line) == Ok(src)
      {
        JoinedIsParsed(src, portText);
      }
    }
  }

  /** A printed source is read back. */
  lemma PrintedSourceIsParsed(src: NtripSource)
    requires WellFormed(src)
    ensures ParseSource(PrintSource(src)) == Ok(src)
  {
    DecimalIsParsed(src.port);
    JoinedIsParsed(src, Decimal(src.port));
  }

  // ---------- a NATS server: nats://host:port ----------

  const NATS: string := "nats://"

  /** The server address kept for a line, with the port printed anew. */
  function ParseNats(line: string): Result<string> {
    if |line| < |NATS| || line[..|NATS|] != NATS then Err(InvalidNatsFormat) else
    match FindChar(line, ':', |NATS|)
    case None => Err(MissingColon)
    case Some(hostLimit) =>
      FoundChar(line, ':', |NATS|);
      match ParsePositiveInt(line[hostLimit + 1..])
      case None => Err(InvalidPort)
      case Some(port) => Ok(NATS + line[|NATS|..hostLimit] + ":" + Decimal(port))
  }

  function NatsLine(host: string, portText: string): string {
    NATS + (host + ":" + portText)
  }

  lemma NatsIsParsed(host: string, portText: string, port: nat)
    requires ':' !in host && ParsePositiveInt(portText) == Some(port)
    ensures ParseNats(NatsLine(host, portText)) == Ok(NatsLine(host, Decimal(port)))
  {
    hide FindFrom, ParsePositiveInt, Decimal;
    var line := NatsLine(host, portText);
    SeparatorFound(NATS, host, ':', portText, line);
    assert line == NATS + (host + ":" + portText);
    assert line[..|NATS|] == NATS;
    assert line[|NATS|..|NATS| + |host|] == host;
    assert line[|NATS| + |host| + 1..] == portText;
    assert NATS + host + ":" + Decimal(port) == NatsLine(host, Decimal(port));
  }

  /** A server line without a host name. */
  lemma EmptyHostIsAccepted()
    ensures ParseNats("nats://:4222") == Ok("nats://:4222")
  {
    hide ParseNats, ParsePositiveInt;
    DecimalIsParsed(4222);
    assert Decimal(4222) == "4222";
    NatsIsParsed("", "4222", 4222);
    assert NatsLine("", "4222") == "nats://:4222";
  }

  lemma NatsWasLine(line: string) returns (host: string, portText: string)
    requires ParseNats(line).Ok?
    ensures ':' !in host && ParsePositiveInt(portText).Some? && line == NatsLine(host, portText)
  {
    hide FindFrom, ParsePositiveInt, Decimal;
    var i := FindChar(line, ':', |NATS|).value;
    FoundChar(line, ':', |NATS|);
    host, portText := line[|NATS|..i], line[i + 1..];
    CutAt(line, |NATS|, i);
    assert line == line[..|NATS|] + line[|NATS|..];
  }

  /** Exactly which lines are accepted as a server, an empty host name among them. */
  lemma NatsExactly(line: string)
    ensures ParseNats(line).Ok? <==>
      exists host: string, portText: string ::
        ':' !in host && ParsePositiveInt(portText).Some? && line == NatsLine(host, portText)
  {
    hide ParseNats, ParsePositiveInt, NatsLine;
    if ParseNats(line).Ok? {
      var host, portText := NatsWasLine(line);
    }
    forall host: string, portText: string |
      ':' !in host && ParsePositiveInt(portText).Some? && line == NatsLine(host, portText)
      ensures ParseNats(line).Ok?
    {
      NatsIsParsed(host, portText, ParsePositiveInt(portText).value);
    }
  }
}
