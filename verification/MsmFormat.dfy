/** Multiple Signal Messages, levels 4 to 7: their layout and what a decoder should extract. */
module MsmFormat {
  import opened Bits
  import opened BitReading
  import opened FieldGroups

  /** MSM6/7 have long fields, MSM5/7 carry rates. */
  datatype Level = Level(hiRes: bool, rates: bool)

  predicate IsMsm(msgType: nat) {
    1071 <= msgType <= 1127 && 4 <= msgType % 10 <= 7
  }

  function LevelOf(msgType: nat): Level {
    var m := msgType % 10;
    Level(m == 6 || m == 7, m == 5 || m == 7)
  }

  // ---------- layout, in the order the decoder reads ----------

  function H(width: nat): Field {
    Field(width, InvalidHeader)
  }

  /** station, epoch, multiple, iods, reserved, clock, external clock, smoothing, interval, masks. */
  function HeaderFields(): (fs: seq<Field>)
    ensures |fs| == 11
  {
    [H(12), H(30), H(1), H(3), H(7), H(2), H(2), H(1), H(3), H(64), H(32)]
  }

  function MaskFields(): (fs: seq<Field>)
    ensures |fs| == 1
  {
    [Field(1, InvalidCellMask)]
  }

  function SatFields(level: Level): (fs: seq<Field>)
    ensures |fs| == if level.rates then 4 else 2
  {
    if level.rates then
      [Field(8, TruncatedSatData), Field(4, TruncatedSatExtInfo), Field(10, TruncatedRoughRangeMod),
       Field(14, TruncatedRate)]
    else
      [Field(8, TruncatedSatData), Field(10, TruncatedRoughRangeMod)]
  }

  function PrBits(level: Level): nat { if level.hiRes then 20 else 15 }
  function CpBits(level: Level): nat { if level.hiRes then 24 else 22 }
  function LockBits(level: Level): nat { if level.hiRes then 10 else 4 }
  function CnrBits(level: Level): nat { if level.hiRes then 10 else 6 }

  function CellFields(level: Level): (fs: seq<Field>)
    ensures |fs| == if level.rates then 6 else 5
  {
    [Field(PrBits(level), TruncatedCellData), Field(CpBits(level), TruncatedCellData),
     Field(LockBits(level), TruncatedCellData), Field(1, TruncatedCellData), Field(CnrBits(level), TruncatedCellData)]
    + if level.rates then [Field(15, TruncatedPhaseRate)] else []
  }

  // ---------- masks ----------

  /** The number of set bits. */
  function PopCount(mask: seq<bool>): nat {
    if mask == [] then 0 else PopCount(mask[..|mask| - 1]) + if mask[|mask| - 1] then 1 else 0
  }

  /** The one-based positions of the set bits: satellite or signal numbers. */
  function Ids(mask: seq<bool>): seq<nat> {
    if mask == [] then []
    else Ids(mask[..|mask| - 1]) + if mask[|mask| - 1] then [|mask|] else []
  }

  /** The zero-based positions of the cells that are present. */
  function Present(mask: seq<nat>): seq<nat> {
    if mask == [] then []
    else Present(mask[..|mask| - 1]) + if mask[|mask| - 1] != 0 then [|mask| - 1] else []
  }

  /** Which satellite and which signal a flat cell number stands for, with nsig signals per row. */
  function Row(flat: nat, nsig: nat): nat {
    if nsig == 0 || flat < nsig then 0 else 1 + Row(flat - nsig, nsig)
  }

  function Column(flat: nat, nsig: nat): nat {
    if nsig == 0 || flat < nsig then flat else Column(flat - nsig, nsig)
  }

  lemma {:induction false} RowColumn(si: nat, gi: nat, nsig: nat)
    requires gi < nsig
    ensures Row(si * nsig + gi, nsig) == si && Column(si * nsig + gi, nsig) == gi
  {
    if si > 0 {
      assert si * nsig == nsig + (si - 1) * nsig;
      assert (si - 1) * nsig >= 0;
      RowColumn(si - 1, gi, nsig);
    }
  }

  lemma {:induction false} RowFits(si: nat, nsat: nat, nsig: nat)
    requires si < nsat
    ensures si * nsig + nsig == (si + 1) * nsig <= nsat * nsig
  {
    if si + 1 < nsat {
      RowFits(si, nsat - 1, nsig);
      assert nsat * nsig == (nsat - 1) * nsig + nsig;
    }
  }

  // ---------- result ----------

  datatype Cell = Cell(sat: nat, sig: nat, finePr: int, fineCp: int, lock: nat, half: nat, cnr: nat)

  /** The header variables; the seven reserved bits are skipped. */
  datatype Header = Header(station: nat, epoch: nat, multiple: nat, iods: nat, clock: nat, extClock: nat,
                           smoothing: nat, smoothInterval: nat, satMask: nat, sigMask: nat)
  {
    function SatBits(): (r: seq<bool>) ensures |r| == 64 { ToBits(satMask, 64) }
    function SigBits(): (r: seq<bool>) ensures |r| == 32 { ToBits(sigMask, 32) }
    function Nsat(): nat { PopCount(SatBits()) }
    function Nsig(): nat { PopCount(SigBits()) }
  }

  function HeaderOf(h: seq<nat>): Header
    requires |h| == 11
  {
    Header(h[0], h[1], h[2], h[3], h[5], h[6], h[7], h[8], h[9], h[10])
  }

  datatype Report = Report(station: nat, epoch: nat, multiple: nat, smoothing: nat, smoothInterval: nat,
                           clock: nat, extClock: nat,
                           satIds: seq<nat>, sigIds: seq<nat>,
                           roughWhole: seq<nat>, roughMod: seq<nat>, cells: seq<Cell>)

  datatype MsmResult = NotMsm | Malformed(tag: Tag) | Decoded(report: Report)

  function MakeCell(level: Level, nsig: nat, flat: nat, g: seq<nat>): Cell
    requires |g| == |CellFields(level)|
  {
    Cell(Row(flat, nsig), Column(flat, nsig),
         ToSigned(g[0], PrBits(level)), ToSigned(g[1], CpBits(level)), g[2], g[3], g[4])
  }

  function MakeCells(level: Level, nsig: nat, flats: seq<nat>, groups: seq<seq<nat>>): (cells: seq<Cell>)
    requires |flats| == |groups| && AllLong(CellFields(level), groups)
    ensures |cells| == |flats|
  {
    seq(|flats|, k requires 0 <= k < |flats| => assert groups[k] in groups; MakeCell(level, nsig, flats[k], groups[k]))
  }

  function FirstOf(groups: seq<seq<nat>>): (r: seq<nat>)
    requires forall g :: g in groups ==> |g| >= 1
    ensures |r| == |groups|
  {
    seq(|groups|, k requires 0 <= k < |groups| => assert groups[k] in groups; groups[k][0])
  }

  function RoughModOf(level: Level, groups: seq<seq<nat>>): (r: seq<nat>)
    requires AllLong(SatFields(level), groups)
    ensures |r| == |groups|
  {
    seq(|groups|, k requires 0 <= k < |groups| =>
      assert groups[k] in groups; groups[k][if level.rates then 2 else 1])
  }

  /** The message body behind the twelve type bits, block by block. */
  function ParseMsm(msgType: nat, bits: seq<bool>): MsmResult {
    if !IsMsm(msgType) then NotMsm
    else
      match ReadFields(HeaderFields(), bits)
      case Short(tag) => Malformed(tag)
      case Full(h, afterHeader) => ParseBody(LevelOf(msgType), HeaderOf(h), afterHeader)
  }

  /** One mask bit for every satellite and signal. */
  function MaxCells(nsat: nat, nsig: nat): (n: nat)
    ensures n == nsat * nsig
  {
    nsat * nsig
  }

  function ParseBody(level: Level, hd: Header, bits: seq<bool>): MsmResult {
    match ReadGroups(MaskFields(), MaxCells(hd.Nsat(), hd.Nsig()), bits)
    case Short(tag) => Malformed(tag)
    case Full(mask, afterMask) => ParseBlocks(level, hd, Present(FirstOf(mask)), afterMask)
  }

  /** The satellite blocks, then a block for each cell that is present. */
  function ParseBlocks(level: Level, hd: Header, flats: seq<nat>, bits: seq<bool>): MsmResult {
    match ReadGroups(SatFields(level), hd.Nsat(), bits)
    case Short(tag) => Malformed(tag)
    case Full(sats, afterSats) =>
      match ReadGroups(CellFields(level), |flats|, afterSats)
      case Short(tag) => Malformed(tag)
      case Full(cells, _) => Decoded(MakeReport(level, hd, flats, sats, cells))
  }

  function MakeReport(level: Level, hd: Header, flats: seq<nat>, sats: seq<seq<nat>>, cells: seq<seq<nat>>): Report
    requires AllLong(SatFields(level), sats) && AllLong(CellFields(level), cells)
    requires |flats| == |cells|
  {
    Report(hd.station, hd.epoch, hd.multiple, hd.smoothing, hd.smoothInterval, hd.clock, hd.extClock,
           Ids(hd.SatBits()), Ids(hd.SigBits()),
           FirstOf(sats), RoughModOf(level, sats), MakeCells(level, hd.Nsig(), flats, cells))
  }

  lemma {:induction false} PresentWithin(mask: seq<nat>)
    ensures forall f :: f in Present(mask) ==> f < |mask|
    ensures |Present(mask)| <= |mask|
  {
    if mask != [] { PresentWithin(mask[..|mask| - 1]); }
  }

  /** A message as dispatched on its type; other message types are not part of this model. */
  datatype Message = TooShort | Other(msgType: nat) | MsmMessage(msgType: nat, result: MsmResult)

  function ParseMessage(payload: seq<byte>): Message {
    if |payload| < 2 then TooShort
    else
      var bits := BitsOf(payload);
      var t := Value(bits[..12]);
      if IsMsm(t) then MsmMessage(t, ParseMsm(t, bits[12..])) else Other(t)
  }

  // ---------- identifiers ----------

  predicate StrictlyIncreasing(s: seq<nat>) {
    forall i, j :: 0 <= i < j < |s| ==> s[i] < s[j]
  }

  lemma NoIds()
    ensures Ids([]) == [] && PopCount([]) == 0
  {
  }

  lemma LastId(mask: seq<bool>)
    requires mask != []
    ensures var m, t := mask[..|mask| - 1], mask[|mask| - 1];
      && Ids(mask) == Ids(m) + (if t then [|mask|] else [])
      && PopCount(mask) == PopCount(m) + if t then 1 else 0
  {
  }

  /** The identifiers are exactly the set positions, in increasing order, as many as the popcount. */
  lemma {:induction false} IdsAreSetPositions(mask: seq<bool>)
    ensures StrictlyIncreasing(Ids(mask)) && |Ids(mask)| == PopCount(mask)
    ensures forall k: nat :: k in Ids(mask) <==> 1 <= k <= |mask| && mask[k - 1]
  {
    hide PopCount, Ids;
    if mask == [] {
      NoIds();
    } else {
      var m, t := mask[..|mask| - 1], mask[|mask| - 1];
      IdsAreSetPositions(m);
      LastId(mask);
      forall k: nat ensures k in Ids(mask) <==> 1 <= k <= |mask| && mask[k - 1] {
        assert k in Ids(m) <==> 1 <= k <= |m| && m[k - 1];
      }
      forall i, j | 0 <= i < j < |Ids(mask)| ensures Ids(mask)[i] < Ids(mask)[j] {
        if j == |Ids(m)| { assert Ids(m)[i] in Ids(m); }
      }
    }
  }

  // ---------- widths ----------

  const HEADER_BITS: nat := 157

  function SatBitsOf(level: Level): nat { if level.rates then 36 else 18 }

  function CellBitsOf(level: Level): nat {
    if level.hiRes then (if level.rates then 80 else 65) else (if level.rates then 63 else 48)
  }

  lemma HeaderWidth()
    ensures Width(HeaderFields()) == HEADER_BITS
  {
    var fs := HeaderFields();
    hide Width;
    WidthStep(fs, 0); WidthStep(fs, 1); WidthStep(fs, 2); WidthStep(fs, 3); WidthStep(fs, 4); WidthStep(fs, 5);
    WidthStep(fs, 6); WidthStep(fs, 7); WidthStep(fs, 8); WidthStep(fs, 9); WidthStep(fs, 10);
    WidthOfNone(fs[11..]);
    assert fs[0..] == fs;
  }

  lemma WidthStep(fs: seq<Field>, k: nat)
    requires k < |fs|
    ensures Width(fs[k..]) == fs[k].width + Width(fs[k + 1..])
  {
    assert fs[k..][1..] == fs[k + 1..];
  }

  lemma WidthOfNone(fs: seq<Field>)
    requires fs == []
    ensures Width(fs) == 0
  {
  }

  lemma MaskWidth()
    ensures Width(MaskFields()) == 1
  {
    WidthOfOne(Field(1, InvalidCellMask));
  }

  lemma SatWidth(level: Level)
    ensures Width(SatFields(level)) == SatBitsOf(level)
  {
    var fs := SatFields(level);
    hide Width;
    WidthStep(fs, 0);
    WidthStep(fs, 1);
    if level.rates {
      WidthStep(fs, 2);
      WidthStep(fs, 3);
    }
    WidthOfNone(fs[|fs|..]);
    assert fs[0..] == fs;
  }

  lemma CellWidth(level: Level)
    ensures Width(CellFields(level)) == CellBitsOf(level)
  {
    var fs := CellFields(level);
    hide Width;
    WidthStep(fs, 0);
    WidthStep(fs, 1);
    WidthStep(fs, 2);
    WidthStep(fs, 3);
    WidthStep(fs, 4);
    if level.rates { WidthStep(fs, 5); }
    WidthOfNone(fs[|fs|..]);
    assert fs[0..] == fs;
  }

  /** How many bits the blocks behind a header take up. */
  function Blocks(level: Level, nsat: nat, nsig: nat, ncells: nat): nat {
    nsat * nsig + nsat * SatBitsOf(level) + ncells * CellBitsOf(level)
  }

  /** How many bits a decoded message took up behind its header, judging by its report. */
  function BlockBits(level: Level, r: Report): nat {
    Blocks(level, |r.satIds|, |r.sigIds|, |r.cells|)
  }

  /** Reading n groups succeeds and leaves rest. */
  predicate Leaves(fs: seq<Field>, n: nat, bits: seq<bool>, rest: seq<bool>) {
    ReadGroups(fs, n, bits).Full? && ReadGroups(fs, n, bits).rest == rest
  }

  /** Reading n groups takes up exactly n times their width. */
  lemma GroupsConsume(fs: seq<Field>, n: nat, bits: seq<bool>, rest: seq<bool>, w: nat, total: nat)
    requires Width(fs) == w > 0 && total == n * w && Leaves(fs, n, bits, rest)
    ensures total <= |bits| && rest == bits[total..]
  {
    hide ReadGroups, Width, FirstMissing, Leftover;
    GroupsByLength(fs, n, bits);
  }

  /** Three runs of blocks in a row take up the sum of their widths. */
  lemma BlocksConsume(level: Level, nsat: nat, nsig: nat, ncells: nat, bits: seq<bool>,
                      afterMask: seq<bool>, afterSats: seq<bool>, rest: seq<bool>)
    requires Leaves(MaskFields(), MaxCells(nsat, nsig), bits, afterMask)
    requires Leaves(SatFields(level), nsat, afterMask, afterSats) && Leaves(CellFields(level), ncells, afterSats, rest)
    ensures var used := Blocks(level, nsat, nsig, ncells);
      used <= |bits| && rest == bits[used..]
  {
    hide Leaves, Width, SatFields, CellFields, MaskFields, SatBitsOf, CellBitsOf;
    BlockWidths(level);
    var mask, sats, cells := MaxCells(nsat, nsig), nsat * SatBitsOf(level), ncells * CellBitsOf(level);
    GroupsConsume(MaskFields(), mask, bits, afterMask, 1, mask);
    GroupsConsume(SatFields(level), nsat, afterMask, afterSats, SatBitsOf(level), sats);
    GroupsConsume(CellFields(level), ncells, afterSats, rest, CellBitsOf(level), cells);
    DropThrice(bits, mask, sats, cells);
  }

  lemma BlockWidths(level: Level)
    ensures Width(MaskFields()) == 1
    ensures Width(SatFields(level)) == SatBitsOf(level) > 0
    ensures Width(CellFields(level)) == CellBitsOf(level) > 0
  {
    MaskWidth();
    SatWidth(level);
    CellWidth(level);
  }

  lemma DropThrice(bits: seq<bool>, a: nat, b: nat, c: nat)
    requires a <= |bits| && b <= |bits[a..]| && c <= |bits[a..][b..]|
    ensures bits[a..][b..][c..] == bits[a + b + c..]
  {
  }
}
