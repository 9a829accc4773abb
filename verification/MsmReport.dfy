/** The printed form of a decoded message: cells listed under one heading per satellite. */
module MsmReport {
  import opened Bits
  import opened MsmFormat
  import opened MsmLaws

  /** One printed line; a value that is not valid is printed as N/A. */
  datatype Line = Heading(prn: nat) | Values(prn: nat, sig: nat, prValid: bool, cpValid: bool, cell: Cell)

  /** The most negative value of a signed field stands for "not available". */
  predicate IsInvalidSigned(v: int, bits: nat)
    requires bits >= 1
  {
    v == -Pow2(bits - 1)
  }

  function LineOf(level: Level, r: Report, c: Cell): Line
    requires WellStructured(r) && c in r.cells
  {
    var roughValid := r.roughWhole[c.sat] != 255;
    Values(r.satIds[c.sat], r.sigIds[c.sig],
           roughValid && !IsInvalidSigned(c.finePr, PrBits(level)),
           roughValid && !IsInvalidSigned(c.fineCp, CpBits(level)), c)
  }

  function Headings(lines: seq<Line>): seq<nat> {
    if lines == [] then []
    else Headings(lines[..|lines| - 1]) + var l := lines[|lines| - 1]; if l.Heading? then [l.prn] else []
  }

  function ValueLines(lines: seq<Line>): seq<Line> {
    if lines == [] then []
    else ValueLines(lines[..|lines| - 1]) + var l := lines[|lines| - 1]; if l.Values? then [l] else []
  }

  /** Every value line stands under the heading of its own satellite. */
  predicate UnderOwnHeading(lines: seq<Line>) {
    if lines == [] then true
    else
      var before, l := lines[..|lines| - 1], lines[|lines| - 1];
      var hs := Headings(before);
      UnderOwnHeading(before) && (l.Values? ==> hs != [] && hs[|hs| - 1] == l.prn)
  }

  lemma LinesSnoc(lines: seq<Line>, l: Line)
    ensures Headings(lines + [l]) == Headings(lines) + if l.Heading? then [l.prn] else []
    ensures ValueLines(lines + [l]) == ValueLines(lines) + if l.Values? then [l] else []
    ensures var hs := Headings(lines);
      UnderOwnHeading(lines + [l]) <==>
        UnderOwnHeading(lines) && (l.Values? ==> hs != [] && hs[|hs| - 1] == l.prn)
  {
    assert (lines + [l])[..|lines|] == lines;
  }

  /** The satellite number of cell k. */
  function SatOf(r: Report, k: nat): nat
    requires WellStructured(r) && k < |r.cells|
  {
    r.satIds[r.cells[k].sat]
  }

  /** Headings are the satellites of the first n cells, each exactly once and in increasing order. */
  ghost predicate HeadsCells(r: Report, n: nat, hs: seq<nat>)
    requires WellStructured(r) && n <= |r.cells|
  {
    && StrictlyIncreasing(hs)
    && (forall p :: p in hs ==> exists k :: 0 <= k < n && SatOf(r, k) == p)
    && (forall k :: 0 <= k < n ==> SatOf(r, k) in hs)
    && (n == 0 ==> hs == [])
    && (n > 0 ==> hs != [] && hs[|hs| - 1] == SatOf(r, n - 1))
  }

  /** One value line for each of the first n cells, in their order. */
  ghost predicate ListsCells(level: Level, r: Report, n: nat, vs: seq<Line>)
    requires WellStructured(r) && n <= |r.cells|
  {
    |vs| == n && forall k :: 0 <= k < n ==> vs[k] == LineOf(level, r, r.cells[k])
  }

  /** What printing the first n cells must have produced. */
  ghost predicate Printed(level: Level, r: Report, n: nat, lines: seq<Line>)
    requires WellStructured(r) && n <= |r.cells|
  {
    && ListsCells(level, r, n, ValueLines(lines))
    && HeadsCells(r, n, Headings(lines))
    && UnderOwnHeading(lines)
  }

  /** The print loop: a satellite that has a cell gets exactly one heading, and all its cells follow it. */
  method Render(level: Level, r: Report) returns (lines: seq<Line>)
    requires WellStructured(r)
    ensures Printed(level, r, |r.cells|, lines)
  {
    hide Printed, WellStructured;
    lines := [];
    NothingPrinted(level, r);
    var lastSat: int := -1;
    for k := 0 to |r.cells|
      invariant Printed(level, r, k, lines)
      invariant lastSat == if k == 0 then -1 else SatOf(r, k - 1)
    {
      IndicesInRange(r, k);
      var c := r.cells[k];
      var sat := r.satIds[c.sat];
      ghost var before := lines;
      if sat != lastSat {
        lines := lines + [Heading(sat)];
        lastSat := sat;
      }
      var roughValid := r.roughWhole[c.sat] != 255;
      var prValid := roughValid && !IsInvalidSigned(c.finePr, PrBits(level));
      var cpValid := roughValid && !IsInvalidSigned(c.fineCp, CpBits(level));
      PrintCell(level, r, k, before, lines);
      lines := lines + [Values(sat, r.sigIds[c.sig], prValid, cpValid, c)];
    }
  }

  lemma NothingPrinted(level: Level, r: Report)
    requires WellStructured(r)
    ensures Printed(level, r, 0, [])
  {
  }

  lemma IndicesInRange(r: Report, k: nat)
    requires WellStructured(r) && k < |r.cells|
    ensures var c := r.cells[k]; c.sat < |r.satIds| && c.sat < |r.roughWhole| && c.sig < |r.sigIds|
  {
    assert r.cells[k] in r.cells;
  }

  /** Cells come satellite by satellite, so the satellite numbers never go back. */
  lemma SatsAscend(r: Report, k: nat)
    requires WellStructured(r) && 0 < k < |r.cells|
    ensures SatOf(r, k - 1) <= SatOf(r, k)
  {
    var a, b := r.cells[k - 1], r.cells[k];
    assert a in r.cells && b in r.cells && RowMajor(a.sat, a.sig, b.sat, b.sig);
  }

  lemma SameHeading(r: Report, k: nat, hs: seq<nat>)
    requires WellStructured(r) && 0 < k < |r.cells| && HeadsCells(r, k, hs) && SatOf(r, k) == SatOf(r, k - 1)
    ensures HeadsCells(r, k + 1, hs)
  {
  }

  lemma NewHeading(r: Report, k: nat, hs: seq<nat>)
    requires WellStructured(r) && k < |r.cells| && HeadsCells(r, k, hs)
    requires k > 0 ==> SatOf(r, k) != SatOf(r, k - 1)
    ensures HeadsCells(r, k + 1, hs + [SatOf(r, k)])
  {
    hide WellStructured, SatOf;
    if k > 0 { SatsAscend(r, k); }
    var all := hs + [SatOf(r, k)];
    forall i, j | 0 <= i < j < |all| ensures all[i] < all[j] {
      if j == |hs| { assert hs[i] <= hs[|hs| - 1]; }
    }
    forall p | p in all ensures exists n :: 0 <= n < k + 1 && SatOf(r, n) == p {
      if p !in hs { assert SatOf(r, k) == p; }
    }
  }

  lemma ListOneMore(level: Level, r: Report, k: nat, vs: seq<Line>)
    requires WellStructured(r) && k < |r.cells| && ListsCells(level, r, k, vs)
    ensures ListsCells(level, r, k + 1, vs + [LineOf(level, r, r.cells[k])])
  {
    hide LineOf;
  }

  lemma HeadingPrinted(level: Level, r: Report, k: nat, before: seq<Line>, lines: seq<Line>)
    requires WellStructured(r) && k < |r.cells| && Printed(level, r, k, before)
    requires lines == if k > 0 && SatOf(r, k) == SatOf(r, k - 1) then before else before + [Heading(SatOf(r, k))]
    ensures HeadsCells(r, k + 1, Headings(lines))
    ensures ListsCells(level, r, k, ValueLines(lines)) && UnderOwnHeading(lines)
  {
    hide WellStructured, HeadsCells, ListsCells, SatOf, Headings, ValueLines, UnderOwnHeading;
    if k > 0 && SatOf(r, k) == SatOf(r, k - 1) {
      SameHeading(r, k, Headings(before));
    } else {
      NewHeading(r, k, Headings(before));
      LinesSnoc(before, Heading(SatOf(r, k)));
      assert ValueLines(before) + [] == ValueLines(before);
    }
  }

  lemma PrintCell(level: Level, r: Report, k: nat, before: seq<Line>, lines: seq<Line>)
    requires WellStructured(r) && k < |r.cells| && Printed(level, r, k, before)
    requires lines == if k > 0 && SatOf(r, k) == SatOf(r, k - 1) then before else before + [Heading(SatOf(r, k))]
    ensures Printed(level, r, k + 1, lines + [LineOf(level, r, r.cells[k])])
  {
    HeadingPrinted(level, r, k, before, lines);
    var line := LineOf(level, r, r.cells[k]);
    assert line.Values? && line.prn == SatOf(r, k);
    hide WellStructured, HeadsCells, ListsCells, LineOf, SatOf, Headings, ValueLines, UnderOwnHeading;
    LastHeading(r, k, Headings(lines));
    LinesSnoc(lines, line);
    assert Headings(lines) + [] == Headings(lines);
    ListOneMore(level, r, k, ValueLines(lines));
  }

  lemma LastHeading(r: Report, k: nat, hs: seq<nat>)
    requires WellStructured(r) && k < |r.cells| && HeadsCells(r, k + 1, hs)
    ensures hs != [] && hs[|hs| - 1] == SatOf(r, k)
  {
  }

  // ---------- the lines of each message type ----------

  /** The values of the cell at the given position are printed with its satellite and signal. They are available
      unless the satellite's whole milliseconds are 255 or the value itself is the given one. */
  ghost predicate LineFits(r: Report, k: nat, line: Line, noPr: int, noCp: int)
    requires WellStructured(r) && k < |r.cells|
  {
    var c := r.cells[k];
    c.sat < |r.satIds| == |r.roughWhole| && c.sig < |r.sigIds| &&
    line == Values(r.satIds[c.sat], r.sigIds[c.sig],
                   r.roughWhole[c.sat] != 255 && c.finePr != noPr, r.roughWhole[c.sat] != 255 && c.fineCp != noCp, c)
  }

  ghost predicate LinesFit(r: Report, lines: seq<Line>, noPr: int, noCp: int)
    requires WellStructured(r)
  {
    && |ValueLines(lines)| == |r.cells|
    && forall k :: 0 <= k < |r.cells| ==> LineFits(r, k, ValueLines(lines)[k], noPr, noCp)
  }

  lemma LowestNumbers()
    ensures Pow2(14) == 16384 && Pow2(19) == 524288 && Pow2(21) == 2097152 && Pow2(23) == 8388608
  {
    assert Pow2(7) == 128;
    assert Pow2(11) == 2048;
    assert Pow2(17) == 131072;
  }

  /** What is printed for the cells of a message, in numbers. */
  lemma LinesByNumbers(msgType: nat, r: Report, lines: seq<Line>)
    requires WellStructured(r) && Printed(LevelOf(msgType), r, |r.cells|, lines)
    ensures msgType % 10 == 4 || msgType % 10 == 5 ==> LinesFit(r, lines, -16384, -2097152)
    ensures msgType % 10 == 6 || msgType % 10 == 7 ==> LinesFit(r, lines, -524288, -8388608)
  {
    hide Headings, ValueLines, UnderOwnHeading, HeadsCells, Pow2;
    LowestNumbers();
    forall k | 0 <= k < |r.cells|
      ensures r.cells[k].sat < |r.satIds| && r.cells[k].sig < |r.sigIds|
      ensures ValueLines(lines)[k] == LineOf(LevelOf(msgType), r, r.cells[k])
    {
      IndicesInRange(r, k);
    }
  }
}
