/** Which response headers the two clients accept, in the characters a caster sends. */
module HeaderText {
  import opened Bits
  import opened Search
  import opened ResponseHeader
  import opened EndToEnd

  /** The characters of the text stand at position i. */
  predicate TextAt(s: seq<byte>, text: string, i: nat) {
    i + |text| <= |s| && forall k :: 0 <= k < |text| ==> s[i + k] as int == text[k] as int
  }

  /** They stand there, and nowhere before. */
  predicate FirstAt(s: seq<byte>, text: string, i: nat) {
    TextAt(s, text, i) && forall j: nat :: j < i ==> !TextAt(s, text, j)
  }

  predicate Spells(pattern: seq<byte>, text: string) {
    |pattern| == |text| && forall k :: 0 <= k < |text| ==> pattern[k] as int == text[k] as int
  }

  lemma Spellings()
    ensures Spells(TERMINATOR, "\r\n\r\n") && Spells(CRLF, "\r\n")
    ensures Spells(SP_200_SP, " 200 ") && Spells(ICY_200, "ICY 200")
  {
  }

  lemma HttpSpellings()
    ensures Spells(HTTP_10_200, "HTTP/1.0 200") && Spells(HTTP_11_200, "HTTP/1.1 200")
  {
  }

  lemma OccursAsText(s: seq<byte>, pattern: seq<byte>, text: string, i: nat)
    requires Spells(pattern, text)
    ensures OccursAt(s, pattern, i) <==> TextAt(s, text, i)
  {
    if OccursAt(s, pattern, i) {
      forall k | 0 <= k < |text| ensures s[i + k] as int == text[k] as int {
        assert s[i..i + |pattern|][k] == s[i + k];
      }
    }
    if TextAt(s, text, i) {
      forall k | 0 <= k < |pattern| ensures s[i..i + |pattern|][k] == pattern[k] {
        assert s[i + k] as int == text[k] as int;
      }
    }
  }

  lemma FoundAsText(s: seq<byte>, pattern: seq<byte>, text: string, i: nat)
    requires Spells(pattern, text)
    ensures Find(s, pattern) == Some(i) <==> FirstAt(s, text, i)
  {
    hide TextAt, Spells, OccursAt;
    forall j: nat ensures OccursAt(s, pattern, j) <==> TextAt(s, text, j) {
      OccursAsText(s, pattern, text, j);
    }
    if FirstAt(s, text, i) { FoundFirst(s, pattern, i, 0); }
  }

  lemma FoundSomewhere(s: seq<byte>, pattern: seq<byte>, text: string)
    requires Spells(pattern, text)
    ensures Find(s, pattern).Some? <==> exists i: nat :: TextAt(s, text, i)
  {
    hide TextAt, Spells, OccursAt;
    forall j: nat ensures OccursAt(s, pattern, j) <==> TextAt(s, text, j) {
      OccursAsText(s, pattern, text, j);
    }
  }

  lemma StartsAsText(s: seq<byte>, pattern: seq<byte>, text: string)
    requires Spells(pattern, text)
    ensures StartsWith(s, pattern) <==> TextAt(s, text, 0)
  {
    OccursAsText(s, pattern, text, 0);
  }

  // ---------- the decoder's client ----------

  /** Status 200 in one of three spellings at the very start. */
  predicate StartsOk(header: seq<byte>) {
    TextAt(header, "ICY 200", 0) || TextAt(header, "HTTP/1.0 200", 0) || TextAt(header, "HTTP/1.1 200", 0)
  }

  lemma OkResponseAsText(header: seq<byte>)
    ensures IsOkResponse(header) <==> StartsOk(header)
  {
    Spellings();
    HttpSpellings();
    hide TextAt, Spells, StartsWith;
    StartsAsText(header, ICY_200, "ICY 200");
    StartsAsText(header, HTTP_10_200, "HTTP/1.0 200");
    StartsAsText(header, HTTP_11_200, "HTTP/1.1 200");
  }

  /** However a response is cut up: once the empty line is there that ends the header, what follows is passed on
      exactly when the header starts so; otherwise the response is refused. */
  lemma DecoderAcceptsExactly(chunks: seq<seq<byte>>, end: nat)
    requires FirstAt(Concat(chunks), "\r\n\r\n", end)
    ensures end + 4 <= |Concat(chunks)|
    ensures var s, st := Concat(chunks), FeedAll(IsOkResponse, Awaiting([]), chunks);
      if StartsOk(s[..end + 4]) then st.Streaming? && Concat(st.pieces) == s[end + 4..] else st == Refused
  {
    hide FeedAll, IsOkResponse, StartsOk, Find;
    var s := Concat(chunks);
    Spellings();
    FoundAsText(s, TERMINATOR, "\r\n\r\n", end);
    HeaderFragmentation(IsOkResponse, chunks);
    OkResponseAsText(s[..end + 4]);
  }

  /** Until then the client waits. */
  lemma WaitsForTheEmptyLine(accept: Acceptance, chunks: seq<seq<byte>>)
    requires forall i: nat :: !TextAt(Concat(chunks), "\r\n\r\n", i)
    ensures FeedAll(accept, Awaiting([]), chunks) == Awaiting(Concat(chunks))
  {
    hide FeedAll, TextAt, Find;
    Spellings();
    FoundSomewhere(Concat(chunks), TERMINATOR, "\r\n\r\n");
    HeaderFragmentation(accept, chunks);
  }

  /** An authorization that is asked for ends the connection. */
  lemma UnauthorizedIsRefused(chunks: seq<seq<byte>>, end: nat)
    requires FirstAt(Concat(chunks), "\r\n\r\n", end) && TextAt(Concat(chunks), "HTTP/1.1 401", 0)
    ensures FeedAll(IsOkResponse, Awaiting([]), chunks) == Refused
  {
    hide FeedAll, IsOkResponse;
    var s := Concat(chunks);
    DecoderAcceptsExactly(chunks, end);
    DiffersFromOk(s, end);
  }

  lemma DiffersFromOk(s: seq<byte>, end: nat)
    requires TextAt(s, "HTTP/1.1 401", 0) && TextAt(s, "\r\n\r\n", end)
    ensures !StartsOk(s[..end + 4])
  {
    var u, icy, ten, eleven := "HTTP/1.1 401", "ICY 200", "HTTP/1.0 200", "HTTP/1.1 200";
    assert s[0 + 0] as int == u[0] as int && s[0 + 7] as int == u[7] as int && s[0 + 9] as int == u[9] as int;
    assert u[0] != icy[0] && u[7] != ten[7] && u[9] != eleven[9];
  }

  // ---------- the bridge's client ----------

  /** " 200 " in the status line, or "ICY 200" at its start. */
  ghost predicate StatusOk(line: seq<byte>) {
    TextAt(line, "ICY 200", 0) || exists i: nat :: TextAt(line, " 200 ", i)
  }

  lemma ResponseOkAsText(header: seq<byte>, eol: nat)
    requires FirstAt(header, "\r\n", eol)
    ensures eol <= |header| && (ResponseOk(header) <==> StatusOk(header[..eol]))
  {
    Spellings();
    hide TextAt, Spells, StartsWith, Find;
    FoundAsText(header, CRLF, "\r\n", eol);
    FoundWithin(header, CRLF);
    FoundSomewhere(header[..eol], SP_200_SP, " 200 ");
    StartsAsText(header[..eol], ICY_200, "ICY 200");
  }

  /** The same for the bridge's client, whose status line ends at the first line end. */
  lemma BridgeAcceptsExactly(chunks: seq<seq<byte>>, eol: nat, end: nat)
    requires FirstAt(Concat(chunks), "\r\n\r\n", end) && FirstAt(Concat(chunks), "\r\n", eol)
    ensures eol <= end && end + 4 <= |Concat(chunks)|
    ensures var s, st := Concat(chunks), FeedAllNonEmpty(ResponseOk, Awaiting([]), chunks);
      if StatusOk(s[..eol]) then st.Streaming? && Concat(st.pieces) == s[end + 4..] else st == Refused
  {
    hide FeedAllNonEmpty, ResponseOk, StatusOk, Find, FirstAt, TextAt, Explained;
    var s := Concat(chunks);
    LineEndsFirst(s, eol, end);
    Spellings();
    FoundAsText(s, TERMINATOR, "\r\n\r\n", end);
    assert [] + Concat(chunks) == Concat(chunks);
    NothingExplained();
    NonEmptyExplained(ResponseOk, [], Awaiting([]), chunks);
    ExplainedAt(ResponseOk, s, FeedAllNonEmpty(ResponseOk, Awaiting([]), chunks), end);
    ResponseOkAsText(s[..end + 4], eol);
    assert s[..end + 4][..eol] == s[..eol];
  }

  lemma ExplainedAt(accept: Acceptance, s: seq<byte>, st: Stage, end: nat)
    requires Explained(accept, s, st) && Find(s, TERMINATOR) == Some(end)
    ensures end + 4 <= |s|
    ensures if accept(s[..end + 4]) then st.Streaming? && Concat(st.pieces) == s[end + 4..] else st == Refused
  {
    hide FindFrom;
    FoundWithin(s, TERMINATOR);
  }

  lemma NothingExplained()
    ensures Explained(ResponseOk, [], Awaiting([]))
  {
  }

  lemma LineEndsFirst(s: seq<byte>, eol: nat, end: nat)
    requires FirstAt(s, "\r\n\r\n", end) && FirstAt(s, "\r\n", eol)
    ensures eol <= end && end + 4 <= |s| && FirstAt(s[..end + 4], "\r\n", eol)
  {
    assert TextAt(s, "\r\n", end) by {
      var t := "\r\n\r\n";
      assert s[end] as int == t[0] as int && s[end + 1] as int == t[1] as int;
    }
    var h := s[..end + 4];
    forall j: nat | j < eol ensures !TextAt(h, "\r\n", j) {
      assert !TextAt(s, "\r\n", j);
    }
    assert TextAt(h, "\r\n", eol);
  }

  // ---------- what a response carries ----------

  /** What the decoder and the bridge make of a whole response. */
  lemma BodiesByText(stream: seq<byte>, eol: nat, end: nat)
    requires FirstAt(stream, "\r\n\r\n", end) && FirstAt(stream, "\r\n", eol)
    ensures eol <= end && end + 4 <= |stream|
    ensures Body(IsOkResponse, stream) == if StartsOk(stream[..end + 4]) then stream[end + 4..] else []
    ensures Body(ResponseOk, stream) == if StatusOk(stream[..eol]) then stream[end + 4..] else []
  {
    hide IsOkResponse, ResponseOk, StartsOk, StatusOk, Find, FirstAt, TextAt;
    LineEndsFirst(stream, eol, end);
    Spellings();
    FoundAsText(stream, TERMINATOR, "\r\n\r\n", end);
    OkResponseAsText(stream[..end + 4]);
    ResponseOkAsText(stream[..end + 4], eol);
    assert stream[..end + 4][..eol] == stream[..eol];
  }

  /** A response without an empty line carries nothing. */
  lemma NoBodyYet(accept: Acceptance, stream: seq<byte>)
    requires forall i: nat :: !TextAt(stream, "\r\n\r\n", i)
    ensures Body(accept, stream) == []
  {
    hide TextAt, Find;
    Spellings();
    FoundSomewhere(stream, TERMINATOR, "\r\n\r\n");
  }
}
