/** The decoder of Multiple Signal Messages. */
module Msm {
  import opened Bits
  import opened BitReading
  import opened FieldGroups
  import opened MsmFormat

  // ---------- the decoder ----------

  /** One unsigned field of a group in progress. */
  method TakeU(br: BitReader, n: nat, prior: nat, ghost fs: seq<Field>, ghost bits: seq<bool>, ghost values: seq<nat>)
    returns (ok: bool, out: nat)
    requires br.Valid() && Midway(fs, bits, values, br.Remaining())
    requires |values| < |fs| && fs[|values|].width == n <= 64
    modifies br
    ensures br.Valid()
    ensures if ok then Midway(fs, bits, values + [out], br.Remaining()) && out < Pow2(n)
            else ReadFields(fs, bits) == Short(fs[|values|].tag) && out == prior
  {
    NextField(fs, bits, values, br.Remaining());
    ok, out := br.GetU(n, prior);
  }

  /** One signed field of a group in progress; raw is its unsigned value. */
  method TakeS(br: BitReader, n: nat, prior: int, ghost fs: seq<Field>, ghost bits: seq<bool>, ghost values: seq<nat>)
    returns (ok: bool, out: int, ghost raw: nat)
    requires br.Valid() && Midway(fs, bits, values, br.Remaining())
    requires |values| < |fs| && fs[|values|].width == n < 64
    modifies br
    ensures br.Valid()
    ensures if ok then Midway(fs, bits, values + [raw], br.Remaining()) && out == ToSigned(raw, n)
            else ReadFields(fs, bits) == Short(fs[|values|].tag) && out == prior
  {
    NextField(fs, bits, values, br.Remaining());
    raw := if n <= |br.Remaining()| then Value(br.Remaining()[..n]) else 0;
    ok, out := br.GetS(n, prior);
  }

  /** A skipped field of a group in progress. */
  method TakeSkip(br: BitReader, n: nat, ghost fs: seq<Field>, ghost bits: seq<bool>, ghost values: seq<nat>)
    returns (ok: bool, ghost raw: nat)
    requires br.Valid() && Midway(fs, bits, values, br.Remaining())
    requires |values| < |fs| && fs[|values|].width == n
    modifies br
    ensures br.Valid()
    ensures if ok then Midway(fs, bits, values + [raw], br.Remaining())
            else ReadFields(fs, bits) == Short(fs[|values|].tag)
  {
    NextField(fs, bits, values, br.Remaining());
    raw := if n <= |br.Remaining()| then Value(br.Remaining()[..n]) else 0;
    ok := br.Skip(n);
  }

  lemma HeaderWidths()
    ensures var fs := HeaderFields();
      && (forall k :: 0 <= k < 11 ==> fs[k].tag == InvalidHeader)
      && fs[0].width == 12 && fs[1].width == 30 && fs[2].width == 1 && fs[3].width == 3 && fs[4].width == 7
      && fs[5].width == 2 && fs[6].width == 2 && fs[7].width == 1 && fs[8].width == 3 && fs[9].width == 64
      && fs[10].width == 32
  {
  }

  /** The chain of header reads; the reserved field is stepped over instead of read. */
  method ReadHeader(br: BitReader) returns (ok: bool, hd: Header, ghost h: seq<nat>)
    requires br.Valid()
    modifies br
    ensures br.Valid()
    ensures if ok then
              && |h| == 11 && hd == HeaderOf(h)
              && ReadFields(HeaderFields(), old(br.Remaining())) == Full(h, br.Remaining())
            else ReadFields(HeaderFields(), old(br.Remaining())) == Short(InvalidHeader)
  {
    hide Midway, ReadFields, BitsOf, Pow2, HeaderFields, HeaderOf, PopCount, ToBits;
    ghost var bits := br.Remaining();
    ghost var fs := HeaderFields();
    HeaderWidths();
    BeginFields(fs, bits);
    hd := Header(0, 0, 0, 0, 0, 0, 0, 0, 0, 0);
    h := [];
    var station, epoch, multiple, iods, clock, extClock, smoothing, smoothInterval, satMask, sigMask;
    ghost var reserved;
    ok, station := TakeU(br, 12, 0, fs, bits, h);
    if !ok { return; }
    h := h + [station];
    ok, epoch := TakeU(br, 30, 0, fs, bits, h);
    if !ok { return; }
    h := h + [epoch];
    ok, multiple := TakeU(br, 1, 0, fs, bits, h);
    if !ok { return; }
    h := h + [multiple];
    ok, iods := TakeU(br, 3, 0, fs, bits, h);
    if !ok { return; }
    h := h + [iods];
    ok, reserved := TakeSkip(br, 7, fs, bits, h);
    if !ok { return; }
    h := h + [reserved];
    ok, clock := TakeU(br, 2, 0, fs, bits, h);
    if !ok { return; }
    h := h + [clock];
    ok, extClock := TakeU(br, 2, 0, fs, bits, h);
    if !ok { return; }
    h := h + [extClock];
    ok, smoothing := TakeU(br, 1, 0, fs, bits, h);
    if !ok { return; }
    h := h + [smoothing];
    ok, smoothInterval := TakeU(br, 3, 0, fs, bits, h);
    if !ok { return; }
    h := h + [smoothInterval];
    ok, satMask := TakeU(br, 64, 0, fs, bits, h);
    if !ok { return; }
    h := h + [satMask];
    ok, sigMask := TakeU(br, 32, 0, fs, bits, h);
    if !ok { return; }
    h := h + [sigMask];
    EndFields(fs, bits, h, br.Remaining());
    hd := Header(station, epoch, multiple, iods, clock, extClock, smoothing, smoothInterval, satMask, sigMask);
    HeaderFrom(h);
  }

  lemma HeaderFrom(h: seq<nat>)
    requires |h| == 11
    ensures HeaderOf(h) == Header(h[0], h[1], h[2], h[3], h[5], h[6], h[7], h[8], h[9], h[10])
  {
  }

  /** The one-based numbers of the set bits of an n-bit mask, highest bit first. */
  method CollectIds(mask: nat, n: nat) returns (ids: seq<nat>)
    ensures ids == Ids(ToBits(mask, n))
  {
    ghost var bits := ToBits(mask, n);
    ids := [];
    for i := 0 to n
      invariant ids == Ids(bits[..i])
    {
      ToBitsAt(mask, n, i);
      assert bits[..i + 1][..i] == bits[..i];
      if ShiftRight(mask, n - 1 - i) % 2 == 1 {
        ids := ids + [i + 1];
      }
    }
    assert bits[..n] == bits;
  }

  method ReadCellBit(br: BitReader) returns (ok: bool, bit: nat)
    requires br.Valid()
    modifies br
    ensures br.Valid()
    ensures if ok then ReadFields(MaskFields(), old(br.Remaining())) == Full([bit], br.Remaining()) && bit <= 1
            else ReadFields(MaskFields(), old(br.Remaining())) == Short(InvalidCellMask)
  {
    assert Pow2(1) == 2;
    hide Midway, ReadFields, BitsOf, Pow2;
    ghost var here := br.Remaining();
    BeginFields(MaskFields(), here);
    ok, bit := TakeU(br, 1, 0, MaskFields(), here, []);
    if ok {
      assert [] + [bit] == [bit];
      EndFields(MaskFields(), here, [bit], br.Remaining());
    }
  }

  method ReadCellMask(br: BitReader, maxCells: nat)
    returns (ok: bool, present: seq<nat>, ncells: nat, ghost groups: seq<seq<nat>>)
    requires br.Valid()
    modifies br
    ensures br.Valid()
    ensures if ok then
              && ReadGroups(MaskFields(), maxCells, old(br.Remaining())) == Full(groups, br.Remaining())
              && present == FirstOf(groups) && ncells == |Present(present)|
            else ReadGroups(MaskFields(), maxCells, old(br.Remaining())) == Short(InvalidCellMask)
  {
    hide MidGroups, ReadGroups, ReadFields, BitsOf;
    ghost var bits := br.Remaining();
    ghost var fs := MaskFields();
    groups := [];
    BeginGroups(fs, maxCells, bits);
    present, ncells := [], 0;
    for i := 0 to maxCells
      invariant br.Valid() && |groups| == i
      invariant MidGroups(fs, maxCells, bits, groups, br.Remaining())
      invariant AllLong(fs, groups) && present == FirstOf(groups) && ncells == |Present(present)|
    {
      NextGroup(fs, maxCells, bits, groups, br.Remaining());
      var bit;
      ok, bit := ReadCellBit(br);
      if !ok { return; }
      CountPresent(present, bit);
      FirstOfSnoc(groups, [bit]);
      groups := groups + [[bit]];
      present := present + [bit];
      ncells := ncells + bit;
    }
    ok := true;
    EndGroups(fs, maxCells, bits, groups, br.Remaining());
  }

  lemma CountPresent(present: seq<nat>, bit: nat)
    requires bit <= 1
    ensures |Present(present + [bit])| == |Present(present)| + bit
  {
    assert (present + [bit])[..|present|] == present;
  }

  lemma FirstOfSnoc(groups: seq<seq<nat>>, g: seq<nat>)
    requires (forall x :: x in groups ==> |x| >= 1) && |g| >= 1
    ensures forall x :: x in groups + [g] ==> |x| >= 1
    ensures FirstOf(groups + [g]) == FirstOf(groups) + [g[0]]
  {
  }

  /** One satellite block; extended info and rate are read but not kept. */
  method ReadSatellite(br: BitReader, level: Level)
    returns (ok: bool, tag: Tag, whole: nat, roughMod: nat, ghost g: seq<nat>)
    requires br.Valid()
    modifies br
    ensures br.Valid()
    ensures if ok then
              && ReadFields(SatFields(level), old(br.Remaining())) == Full(g, br.Remaining())
              && |g| == |SatFields(level)| && whole == g[0] && roughMod == g[if level.rates then 2 else 1]
            else ReadFields(SatFields(level), old(br.Remaining())) == Short(tag)
  {
    hide Midway, ReadFields, BitsOf, Pow2;
    ghost var fs, here := SatFields(level), br.Remaining();
    BeginFields(fs, here);
    g := [];
    roughMod := 0;
    ok, whole := TakeU(br, 8, 0, fs, here, g);
    if !ok { tag := TruncatedSatData; return; }
    g := [whole];
    assert [] + [whole] == [whole];
    if level.rates {
      var ext;
      ok, ext := TakeU(br, 4, whole, fs, here, g);
      if !ok { tag := TruncatedSatExtInfo; return; }
      g := g + [ext];
    }
    ok, roughMod := TakeU(br, 10, 0, fs, here, g);
    if !ok { tag := TruncatedRoughRangeMod; return; }
    g := g + [roughMod];
    if level.rates {
      var rate;
      ghost var raw;
      ok, rate, raw := TakeS(br, 14, 0, fs, here, g);
      if !ok { tag := TruncatedRate; return; }
      g := g + [raw];
    }
    tag := TruncatedSatData;
    EndFields(fs, here, g, br.Remaining());
  }

  method ReadSatellites(br: BitReader, level: Level, nsat: nat)
    returns (ok: bool, tag: Tag, roughWhole: seq<nat>, roughMod: seq<nat>, ghost groups: seq<seq<nat>>)
    requires br.Valid()
    modifies br
    ensures br.Valid()
    ensures if ok then
              && ReadGroups(SatFields(level), nsat, old(br.Remaining())) == Full(groups, br.Remaining())
              && AllLong(SatFields(level), groups)
              && roughWhole == FirstOf(groups) && roughMod == RoughModOf(level, groups)
            else ReadGroups(SatFields(level), nsat, old(br.Remaining())) == Short(tag)
  {
    hide MidGroups, ReadGroups, ReadFields, BitsOf;
    ghost var bits := br.Remaining();
    ghost var fs := SatFields(level);
    groups := [];
    BeginGroups(fs, nsat, bits);
    roughWhole, roughMod := [], [];
    tag := TruncatedSatData;
    for i := 0 to nsat
      invariant br.Valid() && |groups| == i
      invariant MidGroups(fs, nsat, bits, groups, br.Remaining())
      invariant AllLong(fs, groups) && roughWhole == FirstOf(groups) && roughMod == RoughModOf(level, groups)
    {
      NextGroup(fs, nsat, bits, groups, br.Remaining());
      var whole, m;
      ghost var g;
      ok, tag, whole, m, g := ReadSatellite(br, level);
      if !ok { return; }
      FirstOfSnoc(groups, g);
      RoughModSnoc(level, groups, g);
      groups := groups + [g];
      roughWhole := roughWhole + [whole];
      roughMod := roughMod + [m];
    }
    ok := true;
    EndGroups(fs, nsat, bits, groups, br.Remaining());
  }

  lemma RoughModSnoc(level: Level, groups: seq<seq<nat>>, g: seq<nat>)
    requires AllLong(SatFields(level), groups) && |g| == |SatFields(level)|
    ensures AllLong(SatFields(level), groups + [g])
    ensures RoughModOf(level, groups + [g]) == RoughModOf(level, groups) + [g[if level.rates then 2 else 1]]
  {
  }

  /** One cell block, for satellite index si and signal index gi. */
  method ReadCell(br: BitReader, level: Level, si: nat, gi: nat)
    returns (ok: bool, tag: Tag, c: Cell, ghost g: seq<nat>)
    requires br.Valid()
    modifies br
    ensures br.Valid()
    ensures if ok then
              && ReadFields(CellFields(level), old(br.Remaining())) == Full(g, br.Remaining())
              && |g| == |CellFields(level)|
              && c == Cell(si, gi, ToSigned(g[0], PrBits(level)), ToSigned(g[1], CpBits(level)), g[2], g[3], g[4])
            else ReadFields(CellFields(level), old(br.Remaining())) == Short(tag)
  {
    hide Midway, ReadFields, BitsOf, Pow2, ToSigned;
    ghost var fs, here := CellFields(level), br.Remaining();
    BeginFields(fs, here);
    c, g := Cell(si, gi, 0, 0, 0, 0, 0), [];
    tag := TruncatedCellData;
    var pr, cp, lock, half, cnr;
    ghost var rawPr, rawCp;
    ok, pr, rawPr := TakeS(br, PrBits(level), 0, fs, here, []);
    if !ok { return; }
    g := [rawPr];
    assert [] + [rawPr] == [rawPr];
    ok, cp, rawCp := TakeS(br, CpBits(level), pr, fs, here, g);
    if !ok { return; }
    g := g + [rawCp];
    ok, lock := TakeU(br, LockBits(level), 0, fs, here, g);
    if !ok { return; }
    g := g + [lock];
    ok, half := TakeU(br, 1, lock, fs, here, g);
    if !ok { return; }
    g := g + [half];
    ok, cnr := TakeU(br, CnrBits(level), half, fs, here, g);
    if !ok { return; }
    g := g + [cnr];
    if level.rates {
      var rate;
      ghost var raw;
      ok, rate, raw := TakeS(br, 15, cp, fs, here, g);
      if !ok { tag := TruncatedPhaseRate; return; }
      g := g + [raw];
    }
    c := Cell(si, gi, pr, cp, lock, half, cnr);
    EndFields(fs, here, g, br.Remaining());
  }

  lemma PresentSnoc(mask: seq<nat>, flat: nat)
    requires flat < |mask|
    ensures Present(mask[..flat + 1]) == Present(mask[..flat]) + if mask[flat] != 0 then [flat] else []
  {
    assert mask[..flat + 1][..flat] == mask[..flat];
  }

  lemma {:induction false} PresentGrows(mask: seq<nat>, flat: nat)
    requires flat <= |mask|
    ensures |Present(mask[..flat])| <= |Present(mask)|
    decreases |mask| - flat
  {
    if flat < |mask| {
      PresentSnoc(mask, flat);
      PresentGrows(mask, flat + 1);
    } else {
      assert mask[..flat] == mask;
    }
  }

  lemma CellsSnoc(level: Level, nsig: nat, flats: seq<nat>, groups: seq<seq<nat>>, flat: nat, g: seq<nat>)
    requires |flats| == |groups| && AllLong(CellFields(level), groups) && |g| == |CellFields(level)|
    ensures AllLong(CellFields(level), groups + [g])
    ensures MakeCells(level, nsig, flats + [flat], groups + [g])
         == MakeCells(level, nsig, flats, groups) + [MakeCell(level, nsig, flat, g)]
  {
  }

  /** The nested loops over satellites and signals, reading a block for each cell that is present. */
  method ReadCells(br: BitReader, level: Level, nsat: nat, nsig: nat, present: seq<nat>)
    returns (ok: bool, tag: Tag, cells: seq<Cell>, ghost groups: seq<seq<nat>>)
    requires br.Valid() && |present| == nsat * nsig
    modifies br
    ensures br.Valid()
    ensures var n := |Present(present)|;
      if ok then
        && ReadGroups(CellFields(level), n, old(br.Remaining())) == Full(groups, br.Remaining())
        && AllLong(CellFields(level), groups) && |groups| == n
        && cells == MakeCells(level, nsig, Present(present), groups)
      else ReadGroups(CellFields(level), n, old(br.Remaining())) == Short(tag)
  {
    hide MidGroups, ReadGroups, ReadFields, BitsOf, Collected;
    ghost var bits := br.Remaining();
    ghost var fs, n := CellFields(level), |Present(present)|;
    groups, cells, tag := [], [], TruncatedCellData;
    BeginGroups(fs, n, bits);
    NoCells(level, nsig);
    for si := 0 to nsat
      invariant br.Valid() && si * nsig <= |present|
      invariant Collected(level, nsig, present[..si * nsig], groups, cells)
      invariant MidGroups(fs, n, bits, groups, br.Remaining())
    {
      RowFits(si, nsat, nsig);
      ghost var row := si * nsig;
      for gi := 0 to nsig
        invariant br.Valid() && row == si * nsig && row + nsig <= |present|
        invariant Collected(level, nsig, present[..row + gi], groups, cells)
        invariant MidGroups(fs, n, bits, groups, br.Remaining())
      {
        var flat := si * nsig + gi;
        if present[flat] == 0 {
          SkipCell(level, nsig, present, flat, groups, cells);
          continue;
        }
        RowColumn(si, gi, nsig);
        CollectCell(level, nsig, present, flat, groups, cells);
        NextGroup(fs, n, bits, groups, br.Remaining());
        var c;
        ghost var g;
        ok, tag, c, g := ReadCell(br, level, si, gi);
        if !ok { return; }
        groups := groups + [g];
        cells := cells + [c];
      }
    }
    ok := true;
    EndCells(level, nsig, present, groups, cells);
    EndGroups(fs, n, bits, groups, br.Remaining());
  }

  /** cells is what the mask read so far and the groups read so far amount to. */
  predicate Collected(level: Level, nsig: nat, mask: seq<nat>, groups: seq<seq<nat>>, cells: seq<Cell>) {
    && |groups| == |Present(mask)| && AllLong(CellFields(level), groups)
    && cells == MakeCells(level, nsig, Present(mask), groups)
  }

  lemma SkipCell(level: Level, nsig: nat, mask: seq<nat>, flat: nat, groups: seq<seq<nat>>, cells: seq<Cell>)
    requires flat < |mask| && mask[flat] == 0 && Collected(level, nsig, mask[..flat], groups, cells)
    ensures Collected(level, nsig, mask[..flat + 1], groups, cells)
  {
    hide Present;
    PresentSnoc(mask, flat);
    assert Present(mask[..flat]) + [] == Present(mask[..flat]);
  }

  /** A present cell takes one more group, whatever that group holds. */
  lemma CollectCell(level: Level, nsig: nat, mask: seq<nat>, flat: nat, groups: seq<seq<nat>>, cells: seq<Cell>)
    requires flat < |mask| && mask[flat] != 0 && Collected(level, nsig, mask[..flat], groups, cells)
    ensures |groups| < |Present(mask)|
    ensures forall g: seq<nat> :: |g| == |CellFields(level)| ==>
      Collected(level, nsig, mask[..flat + 1], groups + [g], cells + [MakeCell(level, nsig, flat, g)])
  {
    hide Present, MakeCells, CellFields;
    PresentSnoc(mask, flat);
    PresentGrows(mask, flat + 1);
    forall g: seq<nat> | |g| == |CellFields(level)|
      ensures Collected(level, nsig, mask[..flat + 1], groups + [g], cells + [MakeCell(level, nsig, flat, g)])
    {
      CellsSnoc(level, nsig, Present(mask[..flat]), groups, flat, g);
    }
  }

  lemma EndCells(level: Level, nsig: nat, mask: seq<nat>, groups: seq<seq<nat>>, cells: seq<Cell>)
    requires Collected(level, nsig, mask[..|mask|], groups, cells)
    ensures |groups| == |Present(mask)| && AllLong(CellFields(level), groups)
    ensures cells == MakeCells(level, nsig, Present(mask), groups)
  {
    assert mask[..|mask|] == mask;
  }

  lemma NoCells(level: Level, nsig: nat)
    ensures forall mask: seq<nat> :: Collected(level, nsig, mask[..0], [], [])
  {
  }

  /** The decoder of MSM bodies, reading behind the twelve type bits. After a success the cursor stands
      exactly behind the header and the blocks announced by it. */
  method DecodeMsm(msgType: nat, br: BitReader) returns (r: MsmResult)
    requires br.Valid()
    modifies br
    ensures br.Valid()
    ensures r == ParseMsm(msgType, old(br.Remaining()))
    ensures r.Decoded? ==>
      var used := HEADER_BITS + BlockBits(LevelOf(msgType), r.report);
      used <= |old(br.Remaining())| && br.Remaining() == old(br.Remaining())[used..]
  {
    hide ReadFields, BitsOf, HeaderFields, ParseBody, HeaderOf, BlockBits, Width;
    if msgType < 1071 || msgType > 1127 { return NotMsm; }
    var m := msgType % 10;
    if m < 4 || m > 7 { return NotMsm; }
    var level := Level(m == 6 || m == 7, m == 5 || m == 7);
    ghost var bits := br.Remaining();
    var ok, hd, h := ReadHeader(br);
    if !ok { return Malformed(InvalidHeader); }
    FieldsByLength(HeaderFields(), bits);
    HeaderWidth();
    r := DecodeBody(level, hd, br);
  }

  method DecodeBody(level: Level, hd: Header, br: BitReader) returns (r: MsmResult)
    requires br.Valid()
    modifies br
    ensures br.Valid()
    ensures r == ParseBody(level, hd, old(br.Remaining()))
    ensures r.Decoded? ==>
      var used := BlockBits(level, r.report);
      used <= |old(br.Remaining())| && br.Remaining() == old(br.Remaining())[used..]
  {
    hide ReadFields, ReadGroups, BitsOf, Ids, Present, MakeCells, FirstOf, RoughModOf, ToBits, PopCount, Blocks,
         MaskFields, SatFields, CellFields, StrictlyIncreasing;
    var satIds := CollectIds(hd.satMask, 64);
    var sigIds := CollectIds(hd.sigMask, 32);
    var nsat, nsig := hd.Nsat(), hd.Nsig();
    IdsAreSetPositions(hd.SatBits());
    IdsAreSetPositions(hd.SigBits());

    ghost var bits := br.Remaining();
    var ok, present, ncells, mask := ReadCellMask(br, MaxCells(nsat, nsig));
    if !ok { return Malformed(InvalidCellMask); }

    ghost var afterMask := br.Remaining();
    var tag, roughWhole, roughMod;
    ghost var sats;
    ok, tag, roughWhole, roughMod, sats := ReadSatellites(br, level, nsat);
    if !ok { return Malformed(tag); }

    ghost var afterSats := br.Remaining();
    var cells;
    ghost var groups;
    ok, tag, cells, groups := ReadCells(br, level, nsat, nsig, present);
    if !ok { return Malformed(tag); }

    BlocksConsume(level, nsat, nsig, ncells, bits, afterMask, afterSats, br.Remaining());
    return Decoded(Report(hd.station, hd.epoch, hd.multiple, hd.smoothing, hd.smoothInterval, hd.clock, hd.extClock,
                          satIds, sigIds, roughWhole, roughMod, cells));
  }

  method Decode(payload: seq<byte>) returns (m: Message)
    ensures m == ParseMessage(payload)
  {
    if |payload| < 2 { return TooShort; }
    var br := new BitReader(payload);
    var ok, t := br.GetU(12, 0);
    var r := DecodeMsm(t, br);
    return if r.NotMsm? then Other(t) else MsmMessage(t, r);
  }
}
