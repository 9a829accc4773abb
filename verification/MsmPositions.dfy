/** Where in a message its values stand, in numbers: for every message type, the bit positions and widths of what
    is reported, how long a message must be, and what is reported when it is shorter. */
module MsmPositions {
  import opened Bits
  import opened BitReading
  import opened FieldGroups
  import opened MsmFormat
  import opened MsmLaws

  /** The n bits from position k on, as a number. */
  function U(bits: seq<bool>, k: nat, n: nat): nat {
    if k + n <= |bits| then Value(bits[k..k + n]) else 0
  }

  function Bit(bits: seq<bool>, k: nat): bool {
    k < |bits| && bits[k]
  }

  /** Block sizes and field widths in bits: a satellite block, its ten-bit range fraction's position, a cell block,
      and the cell's pseudorange, phase, lock and signal-to-noise fields; the half-cycle bit stands before the last. */
  datatype Layout = Layout(sat: nat, modAt: nat, cell: nat, pr: nat, cp: nat, lock: nat, cnr: nat)

  /** Position of block i of w bits, the first at start. */
  function At(start: nat, i: nat, w: nat): nat {
    start + i * w
  }

  // ---------- one group of fields ----------

  function Offset(fs: seq<Field>, j: nat): nat
    requires j <= |fs|
  {
    if j == 0 then 0 else fs[0].width + Offset(fs[1..], j - 1)
  }

  lemma {:induction false} OffsetStep(fs: seq<Field>, j: nat)
    requires j < |fs|
    ensures Offset(fs, j + 1) == Offset(fs, j) + fs[j].width
  {
    if j > 0 { OffsetStep(fs[1..], j - 1); }
  }

  lemma Shifted(bits: seq<bool>, a: nat, k: nat, n: nat)
    requires a + k + n <= |bits|
    ensures U(bits[a..], k, n) == U(bits, a + k, n)
  {
    assert bits[a..][k..k + n] == bits[a + k..a + k + n];
  }

  /** Every field that was read is the number at its offset. */
  lemma {:induction false} FieldStands(fs: seq<Field>, bits: seq<bool>, j: nat)
    requires ReadFields(fs, bits).Full? && j < |fs|
    ensures Offset(fs, j) + fs[j].width <= |bits|
    ensures ReadFields(fs, bits).values[j] == U(bits, Offset(fs, j), fs[j].width)
  {
    hide Value;
    var w := fs[0].width;
    if j == 0 {
      assert bits[0..w] == bits[..w];
    } else {
      FieldStands(fs[1..], bits[w..], j - 1);
      Shifted(bits, w, Offset(fs[1..], j - 1), fs[j].width);
    }
  }

  /** The i-th of n groups was read where the i-th block of their width stands. */
  lemma {:induction false} GroupStands(fs: seq<Field>, n: nat, bits: seq<bool>, i: nat)
    requires ReadGroups(fs, n, bits).Full? && i < n
    ensures At(0, i, Width(fs)) <= |bits|
    ensures var r := ReadFields(fs, bits[At(0, i, Width(fs))..]);
      r.Full? && ReadGroups(fs, n, bits).values[i] == r.values
  {
    hide ReadFields, Width;
    FieldsByLength(fs, bits);
    var w := Width(fs);
    if i == 0 {
      assert bits[0..] == bits;
    } else {
      GroupStands(fs, n - 1, bits[w..], i - 1);
      assert i * w == w + (i - 1) * w;
      assert bits[w..][(i - 1) * w..] == bits[i * w..];
    }
  }

  lemma BlockStands(fs: seq<Field>, n: nat, bits: seq<bool>, start: nat, w: nat, i: nat, j: nat)
    requires start <= |bits| && ReadGroups(fs, n, bits[start..]).Full? && w == Width(fs) && i < n && j < |fs|
    ensures ReadGroups(fs, n, bits[start..]).values[i][j] == U(bits, At(start, i, w) + Offset(fs, j), fs[j].width)
    ensures At(start, i, w) + Offset(fs, j) + fs[j].width <= |bits|
  {
    hide ReadFields, ReadGroups, Offset, Value, U, Width;
    GroupStands(fs, n, bits[start..], i);
    var k := At(0, i, w);
    FieldStands(fs, bits[start..][k..], j);
    assert bits[start..][k..] == bits[start + k..];
    Shifted(bits, start + k, Offset(fs, j), fs[j].width);
  }

  // ---------- what stands where ----------

  /** The two's-complement number of the n bits from position k on. */
  function S(bits: seq<bool>, k: nat, n: nat): int {
    ToSigned(U(bits, k, n), n)
  }

  /** The header values, and the numbers of the satellites and signals announced: those of the bits set in the
      64 bits from position 61 and the 32 bits from position 125 on. */
  ghost predicate HeaderStands(bits: seq<bool>, r: Report) {
    && |bits| >= 157
    && r.station == U(bits, 0, 12) && r.epoch == U(bits, 12, 30) && r.multiple == U(bits, 42, 1)
    && r.clock == U(bits, 53, 2) && r.extClock == U(bits, 55, 2)
    && r.smoothing == U(bits, 57, 1) && r.smoothInterval == U(bits, 58, 3)
    && (forall n: nat :: n in r.satIds <==> 1 <= n <= 64 && Bit(bits, 60 + n))
    && (forall n: nat :: n in r.sigIds <==> 1 <= n <= 32 && Bit(bits, 124 + n))
  }

  /** The satellite blocks stand behind the cell mask, one for each satellite. */
  predicate SatellitesStand(bits: seq<bool>, r: Report, sats: nat, l: Layout) {
    && |r.roughWhole| == |r.roughMod| == |r.satIds|
    && forall i :: 0 <= i < |r.satIds| ==>
         && r.roughWhole[i] == U(bits, At(sats, i, l.sat), 8)
         && r.roughMod[i] == U(bits, At(sats, i, l.sat) + l.modAt, 10)
  }

  /** There is a cell for exactly the pairs of satellite and signal whose bit is set in the cell mask. */
  ghost predicate MaskStands(bits: seq<bool>, r: Report) {
    forall i, j :: 0 <= i < |r.satIds| && 0 <= j < |r.sigIds| ==>
      (Bit(bits, At(157, i, |r.sigIds|) + j) <==> HasCell(r, i, j))
  }

  ghost predicate HasCell(r: Report, i: nat, j: nat) {
    exists k :: 0 <= k < |r.cells| && r.cells[k].sat == i && r.cells[k].sig == j
  }

  predicate CellStands(bits: seq<bool>, p: nat, c: Cell, l: Layout) {
    && c.finePr == S(bits, p, l.pr)
    && c.fineCp == S(bits, p + l.pr, l.cp)
    && c.lock == U(bits, p + l.pr + l.cp, l.lock)
    && c.half == U(bits, p + l.pr + l.cp + l.lock, 1)
    && c.cnr == U(bits, p + l.pr + l.cp + l.lock + 1, l.cnr)
  }

  /** The cell blocks stand behind the satellite blocks, within the message. */
  predicate CellsStand(bits: seq<bool>, r: Report, cells: nat, l: Layout) {
    && At(cells, |r.cells|, l.cell) <= |bits|
    && forall k :: 0 <= k < |r.cells| ==> CellStands(bits, At(cells, k, l.cell), r.cells[k], l)
  }

  /** All values of a report, in a message of the given layout. */
  ghost predicate Stands(bits: seq<bool>, r: Report, l: Layout) {
    var sats := At(157, |r.satIds|, |r.sigIds|);
    var cells := At(sats, |r.satIds|, l.sat);
    && WellStructured(r) && HeaderStands(bits, r) && MaskStands(bits, r)
    && SatellitesStand(bits, r, sats, l) && CellsStand(bits, r, cells, l)
  }

  function SatTag(l: Layout, left: nat): Tag {
    if left < 8 then TruncatedSatData
    else if left < l.modAt then TruncatedSatExtInfo
    else if left < l.modAt + 10 then TruncatedRoughRangeMod
    else TruncatedRate
  }

  function CellTag(l: Layout, left: nat): Tag {
    if left < l.pr + l.cp + l.lock + 1 + l.cnr then TruncatedCellData else TruncatedPhaseRate
  }

  /** Whether a message of the given layout is long enough, and what is reported when it is not. */
  predicate LongEnough(bits: seq<bool>, r: MsmResult, l: Layout)
    requires l.sat > 0 && l.cell > 0
  {
    if |bits| < 157 then r == Malformed(InvalidHeader) else
    var nsat, nsig := PopCount(bits[61..125]), PopCount(bits[125..157]);
    var sats := At(157, nsat, nsig);
    if |bits| < sats then r == Malformed(InvalidCellMask) else
    var cells := At(sats, nsat, l.sat);
    if |bits| < cells then r == Malformed(SatTag(l, (|bits| - sats) % l.sat)) else
    if |bits| < At(cells, PopCount(bits[157..sats]), l.cell) then
      r == Malformed(CellTag(l, (|bits| - cells) % l.cell))
    else r.Decoded?
  }

  ghost predicate Reads(bits: seq<bool>, r: MsmResult, l: Layout)
    requires l.sat > 0 && l.cell > 0
  {
    LongEnough(bits, r, l) && (r.Decoded? ==> Stands(bits, r.report, l))
  }

  // ---------- the header ----------

  lemma HeaderOffsets()
    ensures var fs := HeaderFields();
      && Offset(fs, 0) == 0 && Offset(fs, 1) == 12 && Offset(fs, 2) == 42 && Offset(fs, 3) == 43
      && Offset(fs, 4) == 46 && Offset(fs, 5) == 53 && Offset(fs, 6) == 55 && Offset(fs, 7) == 57
      && Offset(fs, 8) == 58 && Offset(fs, 9) == 61 && Offset(fs, 10) == 125
      && fs[0].width == 12 && fs[1].width == 30 && fs[2].width == 1 && fs[3].width == 3 && fs[4].width == 7
      && fs[5].width == 2 && fs[6].width == 2 && fs[7].width == 1 && fs[8].width == 3 && fs[9].width == 64
      && fs[10].width == 32
  {
    var fs := HeaderFields();
    FirstOffset(fs);
    hide Offset;
    OffsetStep(fs, 0); OffsetStep(fs, 1); OffsetStep(fs, 2); OffsetStep(fs, 3); OffsetStep(fs, 4);
    OffsetStep(fs, 5); OffsetStep(fs, 6); OffsetStep(fs, 7); OffsetStep(fs, 8); OffsetStep(fs, 9);
  }

  lemma FirstOffset(fs: seq<Field>)
    ensures Offset(fs, 0) == 0
  {
  }

  lemma HeaderValuesStand(bits: seq<bool>, h: seq<nat>)
    requires ReadFields(HeaderFields(), bits).Full? && h == ReadFields(HeaderFields(), bits).values
    ensures |bits| >= 157 && |h| == 11
    ensures h[0] == U(bits, 0, 12) && h[1] == U(bits, 12, 30) && h[2] == U(bits, 42, 1)
    ensures h[5] == U(bits, 53, 2) && h[6] == U(bits, 55, 2) && h[7] == U(bits, 57, 1) && h[8] == U(bits, 58, 3)
    ensures h[9] == Value(bits[61..125]) && h[10] == Value(bits[125..157])
  {
    hide ReadFields, Offset, HeaderFields, Value;
    HeaderOffsets();
    var fs := HeaderFields();
    FieldStands(fs, bits, 0); FieldStands(fs, bits, 1); FieldStands(fs, bits, 2); FieldStands(fs, bits, 5);
    FieldStands(fs, bits, 6); FieldStands(fs, bits, 7); FieldStands(fs, bits, 8); FieldStands(fs, bits, 9);
    FieldStands(fs, bits, 10);
  }

  lemma MasksStand(bits: seq<bool>, h: seq<nat>)
    requires ReadFields(HeaderFields(), bits).Full? && h == ReadFields(HeaderFields(), bits).values
    ensures |bits| >= 157 && |h| == 11
    ensures HeaderOf(h).SatBits() == bits[61..125] && HeaderOf(h).SigBits() == bits[125..157]
  {
    hide ReadFields, HeaderFields, Value, ToBits;
    HeaderValuesStand(bits, h);
    ToBitsOfValue(bits[61..125]);
    ToBitsOfValue(bits[125..157]);
  }

  // ---------- the blocks, for a given level ----------

  /** The layout of a level, in numbers. */
  function Numbers(level: Level): (l: Layout)
    ensures l.sat > 0 && l.cell > 0
  {
    Layout(SatBitsOf(level), if level.rates then 12 else 8, CellBitsOf(level),
           PrBits(level), CpBits(level), LockBits(level), CnrBits(level))
  }

  lemma SatOffsets(level: Level)
    ensures var fs, m := SatFields(level), if level.rates then 2 else 1;
      Offset(fs, 0) == 0 && fs[0].width == 8 && Offset(fs, m) == Numbers(level).modAt && fs[m].width == 10
  {
    var fs := SatFields(level);
    FirstOffset(fs);
    hide Offset;
    OffsetStep(fs, 0);
    OffsetStep(fs, 1);
  }

  lemma CellOffsets(level: Level)
    ensures var fs, l := CellFields(level), Numbers(level);
      && Offset(fs, 0) == 0 && fs[0].width == l.pr && Offset(fs, 1) == l.pr && fs[1].width == l.cp
      && Offset(fs, 2) == l.pr + l.cp && fs[2].width == l.lock
      && Offset(fs, 3) == l.pr + l.cp + l.lock && fs[3].width == 1
      && Offset(fs, 4) == l.pr + l.cp + l.lock + 1 && fs[4].width == l.cnr
  {
    var fs := CellFields(level);
    FirstOffset(fs);
    hide Offset;
    OffsetStep(fs, 0); OffsetStep(fs, 1); OffsetStep(fs, 2); OffsetStep(fs, 3);
  }

  lemma SatelliteStands(level: Level, n: nat, bits: seq<bool>, start: nat, i: nat)
    requires start <= |bits| && ReadGroups(SatFields(level), n, bits[start..]).Full? && i < n
    ensures var g, l := ReadGroups(SatFields(level), n, bits[start..]).values[i], Numbers(level);
      && |g| == |SatFields(level)|
      && g[0] == U(bits, At(start, i, l.sat), 8)
      && g[if level.rates then 2 else 1] == U(bits, At(start, i, l.sat) + l.modAt, 10)
  {
    hide ReadGroups, Offset, U, At, Width, SatFields, SatBitsOf;
    SatWidth(level);
    SatOffsets(level);
    var groups := ReadGroups(SatFields(level), n, bits[start..]).values;
    assert groups[i] in groups;
    BlockStands(SatFields(level), n, bits, start, SatBitsOf(level), i, 0);
    BlockStands(SatFields(level), n, bits, start, SatBitsOf(level), i, if level.rates then 2 else 1);
  }

  lemma OneCellStands(level: Level, n: nat, bits: seq<bool>, start: nat, i: nat, nsig: nat, flat: nat)
    requires start <= |bits| && ReadGroups(CellFields(level), n, bits[start..]).Full? && i < n
    ensures var g, l := ReadGroups(CellFields(level), n, bits[start..]).values[i], Numbers(level);
      |g| == |CellFields(level)| && CellStands(bits, At(start, i, l.cell), MakeCell(level, nsig, flat, g), l)
  {
    hide ReadGroups, Offset, U, At, Width, CellFields, CellBitsOf, PrBits, CpBits, LockBits, CnrBits, ToSigned;
    CellWidth(level);
    CellOffsets(level);
    var fs, w := CellFields(level), CellBitsOf(level);
    var groups := ReadGroups(fs, n, bits[start..]).values;
    assert groups[i] in groups;
    BlockStands(fs, n, bits, start, w, i, 0);
    BlockStands(fs, n, bits, start, w, i, 1);
    BlockStands(fs, n, bits, start, w, i, 2);
    BlockStands(fs, n, bits, start, w, i, 3);
    BlockStands(fs, n, bits, start, w, i, 4);
  }

  ghost predicate Lists(flats: seq<nat>, nsig: nat, i: nat, j: nat) {
    exists k :: 0 <= k < |flats| && Row(flats[k], nsig) == i && Column(flats[k], nsig) == j
  }

  /** The mask bit of satellite i and signal j says whether their cell is present. */
  lemma MaskBitStands(mask: seq<bool>, nsat: nat, nsig: nat, i: nat, j: nat)
    requires |mask| == nsat * nsig && i < nsat && j < nsig
    ensures At(0, i, nsig) + j < |mask|
    ensures mask[At(0, i, nsig) + j] <==> Lists(Present(MaskVector(mask)), nsig, i, j)
  {
    hide Present, Row, Column;
    var flats := Present(MaskVector(mask));
    PresentAreSetPositions(MaskVector(mask));
    RowFits(i, nsat, nsig);
    RowColumn(i, j, nsig);
    var flat := At(0, i, nsig) + j;
    if mask[flat] {
      assert MaskVector(mask)[flat] != 0 && flat in flats;
      var k :| 0 <= k < |flats| && flats[k] == flat;
      assert Row(flats[k], nsig) == i;
    }
    forall k | 0 <= k < |flats| && Row(flats[k], nsig) == i && Column(flats[k], nsig) == j ensures mask[flat] {
      assert flats[k] in flats;
      RowBelow(flats[k], nsat, nsig);
    }
  }

  /** Groups that were read end behind the last of their blocks. */
  lemma RunEnds(fs: seq<Field>, n: nat, bits: seq<bool>, start: nat, w: nat)
    requires Width(fs) == w > 0 && start <= |bits| && ReadGroups(fs, n, bits[start..]).Full?
    ensures At(start, n, w) <= |bits| && ReadGroups(fs, n, bits[start..]).rest == bits[At(start, n, w)..]
  {
    hide ReadGroups, Width, FirstMissing, Leftover;
    GroupsByLength(fs, n, bits[start..]);
    assert bits[start..][n * w..] == bits[start + n * w..];
  }

  /** What a decoded body was read from, run by run. */
  lemma Runs(level: Level, hd: Header, bits: seq<bool>)
    requires |bits| >= 157 && ParseBody(level, hd, bits[157..]).Decoded?
    ensures var n := MaxCells(hd.Nsat(), hd.Nsig()); var sats := 157 + n;
      && sats <= |bits|
      && var r := ParseBody(level, hd, bits[157..]).report;
      && var flats := Present(MaskVector(bits[157..sats]));
      && var cells := At(sats, hd.Nsat(), SatBitsOf(level));
      && ReadGroups(SatFields(level), hd.Nsat(), bits[sats..]).Full?
      && cells <= |bits|
      && ReadGroups(CellFields(level), |flats|, bits[cells..]).Full?
      && At(cells, |flats|, CellBitsOf(level)) <= |bits|
      && r == MakeReport(level, hd, flats, ReadGroups(SatFields(level), hd.Nsat(), bits[sats..]).values,
                         ReadGroups(CellFields(level), |flats|, bits[cells..]).values)
  {
    hide ReadGroups, PopCount, Present, MaskVector, FirstOf, MakeReport, SatFields, CellFields, MaskFields, Width,
         SatBitsOf, CellBitsOf, ToBits, At, FirstMissing, Leftover;
    var n := MaxCells(hd.Nsat(), hd.Nsig());
    if |bits[157..]| < n { BodyShortOfMask(level, hd, bits[157..]); }
    var sats := 157 + n;
    MaskValues(n, bits[157..]);
    assert bits[157..][..n] == bits[157..sats] && bits[157..][n..] == bits[sats..];
    var flats := Present(MaskVector(bits[157..sats]));
    BlockWidths(level);
    RunEnds(SatFields(level), hd.Nsat(), bits, sats, SatBitsOf(level));
    RunEnds(CellFields(level), |flats|, bits, At(sats, hd.Nsat(), SatBitsOf(level)), CellBitsOf(level));
  }

  lemma SatellitesAllStand(level: Level, hd: Header, bits: seq<bool>)
    requires |bits| >= 157 && ParseBody(level, hd, bits[157..]).Decoded?
    ensures var r := ParseBody(level, hd, bits[157..]).report;
      |r.satIds| == hd.Nsat() && SatellitesStand(bits, r, 157 + MaxCells(hd.Nsat(), hd.Nsig()), Numbers(level))
  {
    hide ParseBody, ReadGroups, PopCount, Present, MaskVector, MakeCells, SatFields, CellFields, SatBitsOf, CellBitsOf,
         ToBits, At, U, Ids;
    Runs(level, hd, bits);
    IdsAreSetPositions(hd.SatBits());
    var sats, n := 157 + MaxCells(hd.Nsat(), hd.Nsig()), hd.Nsat();
    var groups := ReadGroups(SatFields(level), n, bits[sats..]).values;
    forall i | 0 <= i < n
      ensures FirstOf(groups)[i] == U(bits, At(sats, i, SatBitsOf(level)), 8)
      ensures RoughModOf(level, groups)[i] == U(bits, At(sats, i, SatBitsOf(level)) + Numbers(level).modAt, 10)
    {
      SatelliteStands(level, n, bits, sats, i);
    }
  }

  lemma CellsAllStand(level: Level, hd: Header, bits: seq<bool>)
    requires |bits| >= 157 && ParseBody(level, hd, bits[157..]).Decoded?
    ensures var r := ParseBody(level, hd, bits[157..]).report;
      CellsStand(bits, r, At(157 + MaxCells(hd.Nsat(), hd.Nsig()), hd.Nsat(), SatBitsOf(level)), Numbers(level))
  {
    hide ParseBody, ReadGroups, PopCount, Present, MaskVector, MakeCell, SatFields, CellFields, SatBitsOf, CellBitsOf,
         ToBits, At, U, Ids, CellStands, FirstOf, RoughModOf;
    Runs(level, hd, bits);
    var sats := 157 + MaxCells(hd.Nsat(), hd.Nsig());
    var cells := At(sats, hd.Nsat(), SatBitsOf(level));
    var flats := Present(MaskVector(bits[157..sats]));
    forall k | 0 <= k < |flats|
      ensures CellStands(bits, At(cells, k, CellBitsOf(level)),
                         ParseBody(level, hd, bits[157..]).report.cells[k], Numbers(level))
    {
      OneCellStands(level, |flats|, bits, cells, k, hd.Nsig(), flats[k]);
    }
  }

  lemma MaskAllStands(level: Level, hd: Header, bits: seq<bool>)
    requires |bits| >= 157 && ParseBody(level, hd, bits[157..]).Decoded?
    ensures MaskStands(bits, ParseBody(level, hd, bits[157..]).report)
  {
    hide ParseBody, ReadGroups, PopCount, Present, MaskVector, SatFields, CellFields, SatBitsOf, CellBitsOf,
         ToBits, Ids, FirstOf, RoughModOf, Row, Column;
    Runs(level, hd, bits);
    var r := ParseBody(level, hd, bits[157..]).report;
    IdsAreSetPositions(hd.SatBits());
    IdsAreSetPositions(hd.SigBits());
    var nsat, nsig := hd.Nsat(), hd.Nsig();
    var mask := bits[157..157 + MaxCells(nsat, nsig)];
    var flats := Present(MaskVector(mask));
    forall i, j | 0 <= i < nsat && 0 <= j < nsig ensures Bit(bits, At(157, i, nsig) + j) <==> HasCell(r, i, j) {
      MaskBitStands(mask, nsat, nsig, i, j);
      SameCells(r, flats, nsig, i, j);
    }
  }

  lemma SameCells(r: Report, flats: seq<nat>, nsig: nat, i: nat, j: nat)
    requires |flats| == |r.cells|
    requires forall k :: 0 <= k < |flats| ==>
      r.cells[k].sat == Row(flats[k], nsig) && r.cells[k].sig == Column(flats[k], nsig)
    ensures HasCell(r, i, j) <==> Lists(flats, nsig, i, j)
  {
    hide Row, Column;
    if HasCell(r, i, j) {
      var k :| 0 <= k < |r.cells| && r.cells[k].sat == i && r.cells[k].sig == j;
      assert Row(flats[k], nsig) == i && Column(flats[k], nsig) == j;
    }
    if Lists(flats, nsig, i, j) {
      var k :| 0 <= k < |flats| && Row(flats[k], nsig) == i && Column(flats[k], nsig) == j;
      assert r.cells[k].sat == i && r.cells[k].sig == j;
    }
  }

  /** All values of a decoded message stand where the numbers of its level say. */
  lemma LevelStands(msgType: nat, bits: seq<bool>)
    requires ParseMsm(msgType, bits).Decoded?
    ensures Stands(bits, ParseMsm(msgType, bits).report, Numbers(LevelOf(msgType)))
  {
    hide ReadFields, ParseBody, HeaderFields, SatellitesStand, CellsStand, MaskStands, WellStructured, At, SatBitsOf,
         CellBitsOf, PopCount, ToBits, U, Value, LevelOf;
    var level, r := LevelOf(msgType), ParseMsm(msgType, bits).report;
    DecodedIsWellStructured(msgType, bits);
    var h := ReadFields(HeaderFields(), bits).values;
    HeaderValuesStand(bits, h);
    FieldsByLength(HeaderFields(), bits);
    HeaderWidth();
    var hd := HeaderOf(h);
    SatellitesAllStand(level, hd, bits);
    CellsAllStand(level, hd, bits);
    MaskAllStands(level, hd, bits);
    HeaderAllStands(level, bits, h);
    SizesStand(level, hd, bits);
  }

  lemma SizesStand(level: Level, hd: Header, bits: seq<bool>)
    requires |bits| >= 157 && ParseBody(level, hd, bits[157..]).Decoded?
    ensures var r := ParseBody(level, hd, bits[157..]).report;
      |r.satIds| == hd.Nsat() && |r.sigIds| == hd.Nsig()
      && At(157, |r.satIds|, |r.sigIds|) == 157 + MaxCells(hd.Nsat(), hd.Nsig())
  {
    hide ReadGroups, PopCount, Ids, ToBits, FirstOf, RoughModOf, MakeCells, Present, SatFields, CellFields, MaskFields;
    IdsAreSetPositions(hd.SatBits());
    IdsAreSetPositions(hd.SigBits());
  }

  lemma HeaderAllStands(level: Level, bits: seq<bool>, h: seq<nat>)
    requires ReadFields(HeaderFields(), bits).Full? && h == ReadFields(HeaderFields(), bits).values && |h| == 11
    requires |bits| >= 157 && ParseBody(level, HeaderOf(h), bits[157..]).Decoded?
    ensures HeaderStands(bits, ParseBody(level, HeaderOf(h), bits[157..]).report)
  {
    hide ReadFields, ReadGroups, PopCount, Ids, ToBits, U, Value, FirstOf, RoughModOf, MakeCells, Present, SatFields,
         CellFields, MaskFields, HeaderFields;
    HeaderValuesStand(bits, h);
    MasksStand(bits, h);
    IdsAreSetPositions(HeaderOf(h).SatBits());
    IdsAreSetPositions(HeaderOf(h).SigBits());
  }

  // ---------- lengths, for a given level ----------

  lemma LeftoverIsRemainder(available: nat, w: nat)
    requires w > 0
    ensures Leftover(available, w) == available % w
  {
    var r := Leftover(available, w);
    var k: nat :| available == k * w + r;
    SmallRemainder(available, w, k);
  }

  /** The first field that does not fit is the one within which the bits end. */
  lemma {:induction false} MissingAt(fs: seq<Field>, left: nat, j: nat)
    requires left < Width(fs) && j < |fs| && Offset(fs, j) <= left < Offset(fs, j) + fs[j].width
    ensures FirstMissing(fs, left) == fs[j].tag
  {
    if j > 0 { MissingAt(fs[1..], left - fs[0].width, j - 1); }
  }

  lemma SatTagOf(level: Level, left: nat)
    requires left < SatBitsOf(level)
    ensures Width(SatFields(level)) == SatBitsOf(level)
    ensures FirstMissing(SatFields(level), left) == SatTag(Numbers(level), left)
  {
    SatWidth(level);
    var fs := SatFields(level);
    FirstOffset(fs);
    hide Offset, Width, FirstMissing;
    OffsetStep(fs, 0);
    OffsetStep(fs, 1);
    if level.rates { OffsetStep(fs, 2); }
    if left < 8 { MissingAt(fs, left, 0); }
    else if left < fs[0].width + fs[1].width { MissingAt(fs, left, 1); }
    else if left < 22 { MissingAt(fs, left, 2); }
    else { MissingAt(fs, left, 3); }
  }

  lemma CellTagOf(level: Level, left: nat)
    requires left < CellBitsOf(level)
    ensures Width(CellFields(level)) == CellBitsOf(level)
    ensures FirstMissing(CellFields(level), left) == CellTag(Numbers(level), left)
  {
    CellWidth(level);
    CellOffsets(level);
    var fs, l := CellFields(level), Numbers(level);
    hide Offset, Width, FirstMissing, PrBits, CpBits, LockBits, CnrBits;
    if left < l.pr { MissingAt(fs, left, 0); }
    else if left < l.pr + l.cp { MissingAt(fs, left, 1); }
    else if left < l.pr + l.cp + l.lock { MissingAt(fs, left, 2); }
    else if left < l.pr + l.cp + l.lock + 1 { MissingAt(fs, left, 3); }
    else if left < l.pr + l.cp + l.lock + 1 + l.cnr { MissingAt(fs, left, 4); }
    else { LastCellField(level, left); }
  }

  lemma LastCellField(level: Level, left: nat)
    requires left < CellBitsOf(level)
    requires left >= PrBits(level) + CpBits(level) + LockBits(level) + 1 + CnrBits(level)
    ensures left < Width(CellFields(level)) && FirstMissing(CellFields(level), left) == TruncatedPhaseRate
  {
    CellWidth(level);
    CellOffsets(level);
    hide Offset, Width, FirstMissing;
    OffsetStep(CellFields(level), 4);
    MissingAt(CellFields(level), left, 5);
  }

  lemma HeaderMasks(bits: seq<bool>)
    requires |bits| >= 157
    ensures HeaderIn(bits).Nsat() == PopCount(bits[61..125]) && HeaderIn(bits).Nsig() == PopCount(bits[125..157])
  {
    hide ReadFields, HeaderFields, PopCount, Value, ToBits;
    HeaderWidth();
    FieldsByLength(HeaderFields(), bits);
    MasksStand(bits, ReadFields(HeaderFields(), bits).values);
  }

  /** Whether a message is long enough, in the numbers of its level. */
  lemma LevelIsLongEnough(msgType: nat, bits: seq<bool>)
    requires IsMsm(msgType)
    ensures LongEnough(bits, ParseMsm(msgType, bits), Numbers(LevelOf(msgType)))
  {
    hide ParseMsm, BodyVerdict, HeaderIn, LevelOf, PopCount;
    LengthCriterion(msgType, bits);
    if |bits| >= 157 {
      HeaderMasks(bits);
      LengthsStand(LevelOf(msgType), HeaderIn(bits), bits, ParseMsm(msgType, bits));
    }
  }

  lemma LengthsStand(level: Level, hd: Header, bits: seq<bool>, r: MsmResult)
    requires |bits| >= 157 && BodyVerdict(level, hd, bits[157..], r)
    requires hd.Nsat() == PopCount(bits[61..125]) && hd.Nsig() == PopCount(bits[125..157])
    ensures LongEnough(bits, r, Numbers(level))
  {
    hide PopCount, ToBits, SatTag, CellTag, SatFields, CellFields, FirstMissing, Width, Leftover, SatBitsOf, CellBitsOf;
    var body := bits[157..];
    var nsat, nsig := hd.Nsat(), hd.Nsig();
    SatWidth(level);
    CellWidth(level);
    var mask := nsat * nsig;
    if |body| >= mask {
      assert body[..mask] == bits[157..157 + mask];
      var sats := nsat * SatBitsOf(level);
      if |body| < mask + sats {
        LeftoverIsRemainder(|body| - mask, SatBitsOf(level));
        SatTagOf(level, (|body| - mask) % SatBitsOf(level));
      } else if |body| < BodyBits(level, hd, body) {
        LeftoverIsRemainder(|body| - mask - sats, CellBitsOf(level));
        CellTagOf(level, (|body| - mask - sats) % CellBitsOf(level));
      }
    }
  }

  // ---------- every message type ----------

  /** Which types are decoded, and the layout of each, in numbers. */
  lemma TypesByNumbers(msgType: nat, bits: seq<bool>)
    ensures ParseMsm(msgType, bits) == NotMsm <==>
      !(1071 <= msgType <= 1127
        && (msgType % 10 == 4 || msgType % 10 == 5 || msgType % 10 == 6 || msgType % 10 == 7))
    ensures 1071 <= msgType <= 1127 && msgType % 10 == 4 ==>
      Reads(bits, ParseMsm(msgType, bits), Layout(18, 8, 48, 15, 22, 4, 6))
    ensures 1071 <= msgType <= 1127 && msgType % 10 == 5 ==>
      Reads(bits, ParseMsm(msgType, bits), Layout(36, 12, 63, 15, 22, 4, 6))
    ensures 1071 <= msgType <= 1127 && msgType % 10 == 6 ==>
      Reads(bits, ParseMsm(msgType, bits), Layout(18, 8, 65, 20, 24, 10, 10))
    ensures 1071 <= msgType <= 1127 && msgType % 10 == 7 ==>
      Reads(bits, ParseMsm(msgType, bits), Layout(36, 12, 80, 20, 24, 10, 10))
  {
    OthersAreNot(msgType, bits);
    hide ParseMsm, LongEnough, Stands;
    if IsMsm(msgType) {
      LevelIsLongEnough(msgType, bits);
      if ParseMsm(msgType, bits).Decoded? { LevelStands(msgType, bits); }
    }
  }

  lemma OthersAreNot(msgType: nat, bits: seq<bool>)
    ensures ParseMsm(msgType, bits) == NotMsm <==> !IsMsm(msgType)
  {
    hide ReadFields, ParseBody, HeaderFields;
    if IsMsm(msgType) && ReadFields(HeaderFields(), bits).Full? {
      BodyIsMsm(LevelOf(msgType), HeaderOf(ReadFields(HeaderFields(), bits).values),
                ReadFields(HeaderFields(), bits).rest);
    }
  }

  lemma BodyIsMsm(level: Level, hd: Header, bits: seq<bool>)
    ensures ParseBody(level, hd, bits) != NotMsm
  {
    hide ReadGroups, Present, FirstOf, MakeReport, SatFields, CellFields, MaskFields;
  }

  /** The type is the first twelve bits of a payload of at least two bytes. */
  lemma DispatchByNumbers(payload: seq<byte>)
    ensures ParseMessage(payload) == TooShort <==> |payload| < 2
    ensures |payload| >= 2 ==>
      var bits := BitsOf(payload);
      var msgType := U(bits, 0, 12);
      ParseMessage(payload) == match ParseMsm(msgType, bits[12..])
        case NotMsm => Other(msgType)
        case r => MsmMessage(msgType, r)
  {
    hide ParseMsm, Value, BitsOf, IsMsm;
    if |payload| >= 2 {
      var bits := BitsOf(payload);
      assert bits[0..12] == bits[..12];
      OthersAreNot(Value(bits[..12]), bits[12..]);
    }
  }
}
