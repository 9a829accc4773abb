/** Which lines of a configuration file are refused, and with which error. */
module ConfigErrors {
  import opened Search
  import opened IntText
  import opened ConfigLines
  import opened ConfigFile
  import opened ConfigRoundTrip

  /** The text is cut at the first c in it. */
  predicate CutAtFirst(text: string, part: string, c: char, rest: string) {
    text == part + [c] + rest && c !in part
  }

  /** There is no c, or nothing in front of it. */
  predicate NothingBefore(text: string, c: char) {
    c !in text || text[0] == c
  }

  lemma NotFound(line: string, before: string, rest: string, c: char)
    requires line == before + rest && c !in rest
    ensures FindChar(line, c, |before|) == None
  {
    FoundChar(line, c, |before|);
    assert forall k :: |before| <= k < |line| ==> line[k] == rest[k - |before|];
  }

  lemma FoundAtOnce(line: string, before: string, rest: string, c: char)
    requires line == before + rest && rest != "" && rest[0] == c
    ensures FindChar(line, c, |before|) == Some(|before|)
  {
    assert rest == "" + [c] + rest[1..];
    assert line == before + ("" + [c] + rest[1..]);
    SeparatorFound(before, "", c, rest[1..], line);
  }

  /** Where nothing stands before c, it is not found or found at once. */
  lemma FoundNothing(line: string, before: string, rest: string, c: char)
    requires line == before + rest && NothingBefore(rest, c)
    ensures FindChar(line, c, |before|) == None || FindChar(line, c, |before|) == Some(|before|)
  {
    if c in rest { FoundAtOnce(line, before, rest, c); } else { NotFound(line, before, rest, c); }
  }

  lemma FoundCut(line: string, before: string, rest: string, part: string, c: char, later: string)
    requires line == before + rest && CutAtFirst(rest, part, c, later)
    ensures FindChar(line, c, |before|) == Some(|before| + |part|)
    ensures line == before + part + [c] + later
  {
    SeparatorFound(before, part, c, later, line);
  }

  // ---------- sources ----------

  /** Which error a source line is refused with: nothing before the first colon, ... */
  lemma NoUser(line: string)
    requires NothingBefore(line, ':')
    ensures ParseSource(line) == Err(MissingColon)
  {
    hide FindChar, ParsePositiveInt;
    assert line == "" + line;
    FoundNothing(line, "", line, ':');
  }

  /** ... nothing between it and a space, ... */
  lemma NoPassword(line: string, user: string, rest: string)
    requires CutAtFirst(line, user, ':', rest) && user != "" && NothingBefore(rest, ' ')
    ensures ParseSource(line) == Err(MissingSpace)
  {
    hide FindChar, ParsePositiveInt;
    assert line == "" + line;
    FoundCut(line, "", line, user, ':', rest);
    FoundNothing(line, user + ":", rest, ' ');
  }

  /** ... nothing between it and a colon, ... */
  lemma NoHost(line: string, user: string, pass: string, rest: string)
    requires CutAtFirst(line, user, ':', pass + [' '] + rest) && user != ""
    requires ' ' !in pass && pass != "" && NothingBefore(rest, ':')
    ensures ParseSource(line) == Err(MissingColon)
  {
    hide FindChar, ParsePositiveInt;
    assert line == "" + line;
    FoundCut(line, "", line, user, ':', pass + [' '] + rest);
    FoundCut(line, user + ":", pass + [' '] + rest, pass, ' ', rest);
    FoundNothing(line, user + ":" + pass + " ", rest, ':');
  }

  /** ... nothing between it and a slash, ... */
  lemma NoPort(line: string, user: string, pass: string, host: string, rest: string)
    requires CutAtFirst(line, user, ':', pass + [' '] + (host + [':'] + rest)) && user != ""
    requires ' ' !in pass && pass != "" && ':' !in host && host != "" && NothingBefore(rest, '/')
    ensures ParseSource(line) == Err(MissingSlash)
  {
    hide FindChar, ParsePositiveInt;
    var behindUser := pass + [' '] + (host + [':'] + rest);
    assert line == "" + line;
    FoundCut(line, "", line, user, ':', behindUser);
    FoundCut(line, user + ":", behindUser, pass, ' ', host + [':'] + rest);
    FoundCut(line, user + ":" + pass + " ", host + [':'] + rest, host, ':', rest);
    FoundNothing(line, user + ":" + pass + " " + host + ":", rest, '/');
  }

  /** ... or no positive int there. */
  lemma BadPort(user: string, pass: string, host: string, port: string, name: string)
    requires user != "" && ':' !in user && pass != "" && ' ' !in pass && host != "" && ':' !in host
    requires port != "" && '/' !in port && ParsePositiveInt(port) == None
    ensures ParseSource(user + ":" + (pass + " " + (host + ":" + (port + "/" + name)))) == Err(InvalidPort)
  {
    hide FindChar, ParsePositiveInt, ParseSource;
    JoinSeparators(user, pass, host, port, name);
    PartsOf(user, pass, host, port, name);
    var u := |user|;
    var p := u + 1 + |pass|;
    var h := p + 1 + |host|;
    hide Join;
    BadPortAt(Join(user, pass, host, port, name), u, p, h, h + 1 + |port|);
  }

  lemma BadPortAt(line: string, u: nat, p: nat, h: nat, q: nat)
    requires 0 < u && u + 1 < p && p + 1 < h && h + 1 < q < |line|
    requires FindChar(line, ':', 0) == Some(u) && FindChar(line, ' ', u + 1) == Some(p)
    requires FindChar(line, ':', p + 1) == Some(h) && FindChar(line, '/', h + 1) == Some(q)
    requires ParsePositiveInt(line[h + 1..q]) == None
    ensures ParseSource(line) == Err(InvalidPort)
  {
    hide FindFrom, ParsePositiveInt;
  }

  // ---------- servers ----------

  /** Which error a server line is refused with. */
  lemma ServerErrors(line: string, rest: string, host: string, port: string)
    ensures !("nats://" <= line) ==> ParseNats(line) == Err(InvalidNatsFormat)
    ensures line == "nats://" + rest && ':' !in rest ==> ParseNats(line) == Err(MissingColon)
    ensures line == "nats://" + (host + ":" + port) && ':' !in host && ParsePositiveInt(port) == None ==>
      ParseNats(line) == Err(InvalidPort)
  {
    hide FindChar, ParsePositiveInt, Decimal;
    if line == "nats://" + rest && ':' !in rest { NotFound(line, "nats://", rest, ':'); }
    if line == "nats://" + (host + ":" + port) && ':' !in host {
      SeparatorFound("nats://", host, ':', port, line);
      assert line[7 + |host| + 1..] == port;
    }
  }

  // ---------- options and headers ----------

  /** Which error an option line is refused with, apart from an unknown name. */
  lemma OptionErrors(line: string, name: string, value: string, key: Key)
    ensures '=' !in line ==> OptionLine(line) == Err(InvalidOptionFormat)
    ensures Splits(line, name, value) && (Trim(name) == "" || Trim(value) == "") ==>
      OptionLine(line) == Err(InvalidOptionFormat)
    ensures (&& Splits(line, name, value) && ToLower(Trim(name)) == KeyName(key)
             && Trim(value) != "" && ParsePositiveInt(Trim(value)) == None) ==>
      OptionLine(line) == Err(InvalidOptionValue)
  {
    KeyNameLetters(key);
    KeyOfExactly(ToLower(Trim(name)), key);
    hide FindChar, ParsePositiveInt, Trim, KeyOf, KeyName, ToLower, Splits;
    if '=' !in line { NotFound(line, "", line, '='); }
    if Splits(line, name, value) { SplitIsRead(line, name, value); }
  }

  /** Which header lines are accepted, for which section, and with which error the others are refused. */
  lemma HeaderExactly(line: string)
    ensures |line| < 2 || line[0] != '[' || line[|line| - 1] != ']' ==> SectionHeader(line) == Err(InvalidSectionHeader)
    ensures |line| >= 2 && line[0] == '[' && line[|line| - 1] == ']' ==>
      var name := ToLower(line[1..|line| - 1]);
      && (SectionHeader(line) == Ok(Options) <==> name == "options")
      && (SectionHeader(line) == Ok(NatsDestinations) <==> name == "nats_destinations")
      && (SectionHeader(line) == Ok(NtripSources) <==> name == "ntrip_sources")
      && (SectionHeader(line).Err? ==> SectionHeader(line) == Err(UnknownSection))
  {
    SectionNamesDiffer(Options, NatsDestinations);
    SectionNamesDiffer(Options, NtripSources);
    SectionNamesDiffer(NatsDestinations, NtripSources);
    hide ToLower;
  }

  /** Zero and numbers that are no int are refused. */
  lemma OutOfRange(n: nat)
    requires n == 0 || n > 2147483647
    ensures ParsePositiveInt(Decimal(n)) == None
  {
    hide ParsePositiveInt, Decimal, Number, IsSpace;
    var s := Decimal(n);
    if ParsePositiveInt(s).Some? {
      var m := ParsePositiveInt(s).value;
      ParsedIsSpelled(s, m);
      var i: nat :| SpelledAt(s, i, m);
      assert s[0..] == s && IsDigit(s[0]);
      NumberOfDecimal(n);
      if i > 0 { FirstIsSpace(s, i); }
      DigitsAreNoSpaces(s[0]);
    }
  }

  lemma FirstIsSpace(s: string, i: nat)
    requires 0 < i <= |s| && AllSpaces(s[..i])
    ensures IsSpace(s[0])
  {
    assert s[..i][0] == s[0];
  }
}
