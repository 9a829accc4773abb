/** What decoding a Multiple Signal Message promises: structure, exact lengths and the round trip. */
module MsmLaws {
  import opened Bits
  import opened BitReading
  import opened FieldGroups
  import opened MsmFormat

  // ---------- structure of a decoded message ----------

  lemma {:induction false} PresentAreSetPositions(mask: seq<nat>)
    ensures StrictlyIncreasing(Present(mask))
    ensures forall k: nat :: k in Present(mask) <==> k < |mask| && mask[k] != 0
  {
    if mask != [] {
      var m, t := mask[..|mask| - 1], mask[|mask| - 1];
      PresentAreSetPositions(m);
      forall k: nat ensures k in Present(mask) <==> k < |mask| && mask[k] != 0 {
        assert k in Present(m) <==> k < |m| && m[k] != 0;
      }
      forall i, j | 0 <= i < j < |Present(mask)| ensures Present(mask)[i] < Present(mask)[j] {
        if j == |Present(m)| { assert Present(m)[i] in Present(m); }
      }
    }
  }

  lemma {:induction false} RowBelow(flat: nat, nsat: nat, nsig: nat)
    requires flat < nsat * nsig
    ensures nsig > 0 && Row(flat, nsig) < nsat && Column(flat, nsig) < nsig
    ensures flat == Row(flat, nsig) * nsig + Column(flat, nsig)
    decreases flat
  {
    ZeroProduct(nsat, nsig);
    if flat >= nsig {
      assert nsat * nsig == nsig + (nsat - 1) * nsig;
      RowBelow(flat - nsig, nsat - 1, nsig);
      assert Row(flat, nsig) * nsig == nsig + Row(flat - nsig, nsig) * nsig;
    }
  }

  lemma ZeroProduct(a: nat, b: nat)
    ensures a == 0 || b == 0 ==> a * b == 0
  {
  }

  /** (a, b) comes before (c, d) row by row. */
  predicate RowMajor(a: nat, b: nat, c: nat, d: nat) {
    a < c || (a == c && b < d)
  }

  lemma {:induction false} OrderOfRows(f: nat, g: nat, nsig: nat)
    requires f < g && nsig > 0
    ensures RowMajor(Row(f, nsig), Column(f, nsig), Row(g, nsig), Column(g, nsig))
    decreases f
  {
    if f >= nsig { OrderOfRows(f - nsig, g - nsig, nsig); }
  }

  /** Every index a report uses is in range, and its cells are in row-major order. */
  ghost predicate WellStructured(r: Report) {
    && StrictlyIncreasing(r.satIds) && StrictlyIncreasing(r.sigIds)
    && |r.roughWhole| == |r.roughMod| == |r.satIds|
    && (forall c :: c in r.cells ==> c.sat < |r.satIds| && c.sig < |r.sigIds|)
    && forall i, j :: 0 <= i < j < |r.cells| ==>
         RowMajor(r.cells[i].sat, r.cells[i].sig, r.cells[j].sat, r.cells[j].sig)
  }

  lemma CellsAreOrdered(level: Level, nsat: nat, nsig: nat, flats: seq<nat>, groups: seq<seq<nat>>)
    requires |flats| == |groups| && AllLong(CellFields(level), groups)
    requires StrictlyIncreasing(flats) && forall f :: f in flats ==> f < nsat * nsig
    ensures var cells := MakeCells(level, nsig, flats, groups);
      && (forall c :: c in cells ==> c.sat < nsat && c.sig < nsig)
      && forall i, j :: 0 <= i < j < |cells| ==> RowMajor(cells[i].sat, cells[i].sig, cells[j].sat, cells[j].sig)
  {
    var cells := MakeCells(level, nsig, flats, groups);
    forall i | 0 <= i < |cells|
      ensures nsig > 0 && cells[i].sat == Row(flats[i], nsig) < nsat && cells[i].sig == Column(flats[i], nsig) < nsig
    {
      assert groups[i] in groups && flats[i] in flats;
      RowBelow(flats[i], nsat, nsig);
    }
    forall i, j | 0 <= i < j < |cells|
      ensures RowMajor(cells[i].sat, cells[i].sig, cells[j].sat, cells[j].sig)
    {
      OrderOfRows(flats[i], flats[j], nsig);
    }
  }

  /** Whatever the bits are: a message that decodes gives a well-structured report. */
  lemma DecodedIsWellStructured(msgType: nat, bits: seq<bool>)
    requires ParseMsm(msgType, bits).Decoded?
    ensures WellStructured(ParseMsm(msgType, bits).report)
  {
    hide ReadFields, ReadGroups, Ids, Present, MakeCells, PopCount, FirstOf;
    var level := LevelOf(msgType);
    var header := ReadFields(HeaderFields(), bits);
    var hd := HeaderOf(header.values);
    IdsAreSetPositions(hd.SatBits());
    IdsAreSetPositions(hd.SigBits());
    var mask := ReadGroups(MaskFields(), hd.Nsat() * hd.Nsig(), header.rest);
    var flats := Present(FirstOf(mask.values));
    PresentAreSetPositions(FirstOf(mask.values));
    var sats := ReadGroups(SatFields(level), hd.Nsat(), mask.rest);
    var cells := ReadGroups(CellFields(level), |flats|, sats.rest);
    CellsAreOrdered(level, hd.Nsat(), hd.Nsig(), flats, cells.values);
  }

  // ---------- exact lengths ----------

  /** The header that the first 157 bits hold. */
  function HeaderIn(bits: seq<bool>): Header
    requires |bits| >= HEADER_BITS
  {
    HeaderWidth();
    FieldsByLength(HeaderFields(), bits);
    HeaderOf(ReadFields(HeaderFields(), bits).values)
  }

  // ---------- the cell mask ----------

  function MaskVector(mask: seq<bool>): (v: seq<nat>)
    ensures |v| == |mask|
  {
    seq(|mask|, k requires 0 <= k < |mask| => One(mask[k]))
  }

  lemma {:induction false} PresentCount(mask: seq<bool>)
    ensures |Present(MaskVector(mask))| == PopCount(mask)
  {
    if mask != [] {
      PresentCount(mask[..|mask| - 1]);
      assert MaskVector(mask)[..|mask| - 1] == MaskVector(mask[..|mask| - 1]);
    }
  }

  lemma OneBitField(v: nat)
    requires v < Pow2(1)
    ensures ToBits(v, 1) == [v == 1] && One(v == 1) == v
  {
    assert ToBits(v, 1) == ToBits(v / 2, 0) + [v % 2 == 1];
    assert ToBits(v / 2, 0) == [];
  }

  lemma PackedMaskBit(g: seq<nat>)
    requires Fits(MaskFields(), g)
    ensures |g| == 1 && PackFields(MaskFields(), g) == [g[0] == 1] && g[0] == One(g[0] == 1)
  {
    OneBitField(g[0]);
    assert PackFields(MaskFields()[1..], g[1..]) == [];
  }

  /** Packed cell masks are the mask bits themselves. */
  lemma {:induction false} PackedMask(groups: seq<seq<nat>>)
    requires AllFit(MaskFields(), groups) && AllLong(MaskFields(), groups)
    ensures FirstOf(groups) == MaskVector(PackGroups(MaskFields(), groups))
    decreases |groups|
  {
    hide PackFields, MaskFields, Fits, One;
    if groups != [] {
      var g, rest := groups[0], PackGroups(MaskFields(), groups[1..]);
      assert g in groups;
      PackedMask(groups[1..]);
      PackedMaskBit(g);
      assert FirstOf(groups) == [g[0]] + FirstOf(groups[1..]);
      assert MaskVector([g[0] == 1] + rest) == [One(g[0] == 1)] + MaskVector(rest);
    }
  }

  /** The cell mask as read: one value per bit. */
  lemma MaskValues(n: nat, bits: seq<bool>)
    requires n <= |bits|
    ensures var r := ReadGroups(MaskFields(), n, bits);
      r.Full? && r.rest == bits[n..] && FirstOf(r.values) == MaskVector(bits[..n])
  {
    MaskWidth();
    hide ReadGroups, Width;
    var r := ReadGroups(MaskFields(), n, bits);
    GroupsByLength(MaskFields(), n, bits);
    assert GroupsWidth(MaskFields(), n) == n;
    GroupsInverse(MaskFields(), n, bits);
    PackedMask(r.values);
    assert bits[..n] == PackGroups(MaskFields(), r.values);
  }

  /** How many bits the body behind the header must have. */
  function BodyBits(level: Level, hd: Header, body: seq<bool>): nat
    requires |body| >= hd.Nsat() * hd.Nsig()
  {
    var mask := hd.Nsat() * hd.Nsig();
    mask + hd.Nsat() * SatBitsOf(level) + PopCount(body[..mask]) * CellBitsOf(level)
  }

  lemma {:induction false} SameTag(fs: seq<Field>, available: nat, tag: Tag)
    requires available < Width(fs) && forall f :: f in fs ==> f.tag == tag
    ensures FirstMissing(fs, available) == tag
  {
    if available >= fs[0].width { SameTag(fs[1..], available - fs[0].width, tag); }
  }

  /** What the body behind header hd comes to: every failure names the block that ran out, be it the
      cell mask, the first incomplete satellite block or the first incomplete cell. */
  predicate BodyVerdict(level: Level, hd: Header, body: seq<bool>, r: MsmResult) {
    SatWidth(level);
    CellWidth(level);
    var mask, sats := hd.Nsat() * hd.Nsig(), hd.Nsat() * SatBitsOf(level);
    if |body| < mask then r == Malformed(InvalidCellMask)
    else if |body| < mask + sats then
      r == Malformed(FirstMissing(SatFields(level), Leftover(|body| - mask, SatBitsOf(level))))
    else if |body| < BodyBits(level, hd, body) then
      r == Malformed(FirstMissing(CellFields(level), Leftover(|body| - mask - sats, CellBitsOf(level))))
    else r.Decoded?
  }

  lemma BodyShortOfMask(level: Level, hd: Header, body: seq<bool>)
    requires |body| < hd.Nsat() * hd.Nsig()
    ensures ParseBody(level, hd, body) == Malformed(InvalidCellMask)
  {
    hide ReadGroups, Present, FirstOf, Width, FirstMissing, MakeReport, MaskFields, SatFields, CellFields;
    var mask := hd.Nsat() * hd.Nsig();
    MaskWidth();
    GroupsByLength(MaskFields(), mask, body);
    MaskTags(Leftover(|body|, 1));
  }

  lemma MaskTags(available: nat)
    requires available < Width(MaskFields())
    ensures FirstMissing(MaskFields(), available) == InvalidCellMask
  {
    hide FirstMissing, Width;
    SameTag(MaskFields(), available, InvalidCellMask);
  }

  /** With the mask in hand, the satellite and cell blocks are read one after the other. */
  lemma BodyAfterMask(level: Level, hd: Header, body: seq<bool>, mask: nat)
    requires mask == MaxCells(hd.Nsat(), hd.Nsig()) && |body| >= mask
    ensures var sats := ReadGroups(SatFields(level), hd.Nsat(), body[mask..]);
      && (sats.Short? ==> ParseBody(level, hd, body) == Malformed(sats.tag))
      && (sats.Full? ==>
           var cells := ReadGroups(CellFields(level), PopCount(body[..mask]), sats.rest);
           && (cells.Short? ==> ParseBody(level, hd, body) == Malformed(cells.tag))
           && (cells.Full? ==> ParseBody(level, hd, body).Decoded?))
  {
    hide ReadGroups, Present, FirstOf, PopCount, MaskVector, MakeReport, SatFields, CellFields, MaskFields;
    MaskValues(mask, body);
    PresentCount(body[..mask]);
  }

  /** The width of n blocks of width w. */
  function Total(n: nat, w: nat): nat { n * w }

  lemma BlocksByLength(fs: seq<Field>, n: nat, bits: seq<bool>, w: nat, total: nat)
    requires Width(fs) == w > 0 && total == Total(n, w)
    ensures var r := ReadGroups(fs, n, bits);
      if |bits| >= total then r.Full? && r.rest == bits[total..]
      else r == Short(FirstMissing(fs, Leftover(|bits|, w)))
  {
    hide ReadGroups, Width, FirstMissing, Leftover;
    GroupsByLength(fs, n, bits);
  }

  /** What BodyVerdict says, in terms of the total width of the satellite and of the cell blocks. */
  predicate Verdict(level: Level, mask: nat, satTotal: nat, cellTotal: nat, available: nat, r: MsmResult)
    requires Width(SatFields(level)) == SatBitsOf(level) && Width(CellFields(level)) == CellBitsOf(level)
  {
    if available < mask then r == Malformed(InvalidCellMask)
    else if available < mask + satTotal then
      r == Malformed(FirstMissing(SatFields(level), Leftover(available - mask, SatBitsOf(level))))
    else if available < mask + satTotal + cellTotal then
      r == Malformed(FirstMissing(CellFields(level), Leftover(available - mask - satTotal, CellBitsOf(level))))
    else r.Decoded?
  }

  lemma VerdictOfTotals(level: Level, hd: Header, body: seq<bool>, r: MsmResult, mask: nat, satTotal: nat,
                        cellTotal: nat)
    requires Width(SatFields(level)) == SatBitsOf(level) && Width(CellFields(level)) == CellBitsOf(level)
    requires mask == MaxCells(hd.Nsat(), hd.Nsig()) <= |body| && satTotal == Total(hd.Nsat(), SatBitsOf(level))
    requires cellTotal == Total(PopCount(body[..mask]), CellBitsOf(level))
    requires Verdict(level, mask, satTotal, cellTotal, |body|, r)
    ensures BodyVerdict(level, hd, body, r)
  {
    hide PopCount, Width, FirstMissing, SatFields, CellFields, Leftover, SatBitsOf, CellBitsOf;
  }

  lemma SatellitesShort(level: Level, hd: Header, body: seq<bool>, mask: nat, satTotal: nat)
    requires mask == MaxCells(hd.Nsat(), hd.Nsig()) <= |body| && satTotal == Total(hd.Nsat(), SatBitsOf(level))
    requires Width(SatFields(level)) == SatBitsOf(level) && |body| < mask + satTotal
    ensures ParseBody(level, hd, body)
         == Malformed(FirstMissing(SatFields(level), Leftover(|body| - mask, SatBitsOf(level))))
  {
    hide ParseBody, ReadGroups, PopCount, Width, FirstMissing, SatFields, CellFields, Leftover, SatBitsOf, Total;
    BlockWidths(level);
    BodyAfterMask(level, hd, body, mask);
    BlocksByLength(SatFields(level), hd.Nsat(), body[mask..], SatBitsOf(level), satTotal);
  }

  lemma SatellitesRead(level: Level, nsat: nat, body: seq<bool>, mask: nat, satTotal: nat)
    requires satTotal == Total(nsat, SatBitsOf(level)) && |body| >= mask + satTotal
    ensures ReadGroups(SatFields(level), nsat, body[mask..]).Full?
    ensures ReadGroups(SatFields(level), nsat, body[mask..]).rest == body[mask + satTotal..]
  {
    hide ReadGroups, Width, FirstMissing, SatFields, CellFields, Leftover, SatBitsOf, CellBitsOf, Total;
    BlockWidths(level);
    BlocksByLength(SatFields(level), nsat, body[mask..], SatBitsOf(level), satTotal);
    assert body[mask..][satTotal..] == body[mask + satTotal..];
  }

  lemma CellsDecide(level: Level, hd: Header, body: seq<bool>, mask: nat, satTotal: nat, cellTotal: nat)
    requires mask == MaxCells(hd.Nsat(), hd.Nsig()) <= |body| && satTotal == Total(hd.Nsat(), SatBitsOf(level))
    requires cellTotal == Total(PopCount(body[..mask]), CellBitsOf(level))
    requires Width(CellFields(level)) == CellBitsOf(level) && |body| >= mask + satTotal
    ensures var r := ParseBody(level, hd, body);
      if |body| < mask + satTotal + cellTotal then
        r == Malformed(FirstMissing(CellFields(level), Leftover(|body| - mask - satTotal, CellBitsOf(level))))
      else r.Decoded?
  {
    hide ParseBody, ReadGroups, PopCount, Width, FirstMissing, SatFields, CellFields, Leftover, SatBitsOf, CellBitsOf;
    hide Total, MaxCells;
    BodyAfterMask(level, hd, body, mask);
    SatellitesRead(level, hd.Nsat(), body, mask, satTotal);
    CellsByLength(level, PopCount(body[..mask]), body[mask + satTotal..], cellTotal);
  }

  lemma CellsByLength(level: Level, n: nat, bits: seq<bool>, cellTotal: nat)
    requires cellTotal == Total(n, CellBitsOf(level)) && Width(CellFields(level)) == CellBitsOf(level)
    ensures var r := ReadGroups(CellFields(level), n, bits);
      if |bits| >= cellTotal then r.Full?
      else r == Short(FirstMissing(CellFields(level), Leftover(|bits|, CellBitsOf(level))))
  {
    hide ReadGroups, Width, FirstMissing, CellFields, Leftover, CellBitsOf, Total;
    BlockWidths(level);
    BlocksByLength(CellFields(level), n, bits, CellBitsOf(level), cellTotal);
  }

  lemma BodyByLength(level: Level, hd: Header, body: seq<bool>)
    ensures BodyVerdict(level, hd, body, ParseBody(level, hd, body))
  {
    hide ParseBody, PopCount, Width, FirstMissing, SatFields, CellFields, Leftover, SatBitsOf, CellBitsOf;
    SatWidth(level);
    CellWidth(level);
    var mask := MaxCells(hd.Nsat(), hd.Nsig());
    if |body| < mask {
      BodyShortOfMask(level, hd, body);
    } else {
      hide BodyVerdict, Total, MaxCells;
      var satTotal := Total(hd.Nsat(), SatBitsOf(level));
      var cellTotal := Total(PopCount(body[..mask]), CellBitsOf(level));
      if |body| < mask + satTotal {
        SatellitesShort(level, hd, body, mask, satTotal);
      } else {
        CellsDecide(level, hd, body, mask, satTotal, cellTotal);
      }
      VerdictOfTotals(level, hd, body, ParseBody(level, hd, body), mask, satTotal, cellTotal);
    }
  }

  /** Whether a message decodes is a matter of length alone: 157 header bits, nsat*nsig mask bits,
      18 or 36 bits a satellite and 48, 63, 65 or 80 bits a cell. */
  lemma LengthCriterion(msgType: nat, bits: seq<bool>)
    requires IsMsm(msgType)
    ensures |bits| < HEADER_BITS ==> ParseMsm(msgType, bits) == Malformed(InvalidHeader)
    ensures |bits| >= HEADER_BITS ==>
      BodyVerdict(LevelOf(msgType), HeaderIn(bits), bits[HEADER_BITS..], ParseMsm(msgType, bits))
  {
    hide ReadFields, ParseBody, BodyVerdict, Width, HeaderFields;
    HeaderWidth();
    FieldsByLength(HeaderFields(), bits);
    if |bits| < HEADER_BITS {
      HeaderTags(|bits|);
    } else {
      BodyByLength(LevelOf(msgType), HeaderIn(bits), bits[HEADER_BITS..]);
    }
  }

  /** The sizes a report shows are those the header and the cell mask announce. */
  lemma ReportSizes(level: Level, hd: Header, body: seq<bool>)
    requires ParseBody(level, hd, body).Decoded?
    ensures |body| >= hd.Nsat() * hd.Nsig()
    ensures BodyBits(level, hd, body) == BlockBits(level, ParseBody(level, hd, body).report)
  {
    hide ReadGroups, Present, FirstOf, PopCount, MaskVector, MakeCells, RoughModOf, SatFields, CellFields, MaskFields,
         Ids, SatBitsOf, CellBitsOf, ToBits, StrictlyIncreasing;
    var mask := hd.Nsat() * hd.Nsig();
    if |body| < mask {
      BodyShortOfMask(level, hd, body);
    } else {
      MaskValues(mask, body);
      PresentCount(body[..mask]);
      IdsAreSetPositions(hd.SatBits());
      IdsAreSetPositions(hd.SigBits());
    }
  }

  /** The bits a successful decode takes up are exactly those the length criterion asks for. */
  lemma ConsumesExactly(msgType: nat, bits: seq<bool>)
    requires ParseMsm(msgType, bits).Decoded?
    ensures |bits| >= HEADER_BITS && |bits[HEADER_BITS..]| >= HeaderIn(bits).Nsat() * HeaderIn(bits).Nsig()
    ensures BlockBits(LevelOf(msgType), ParseMsm(msgType, bits).report)
         == BodyBits(LevelOf(msgType), HeaderIn(bits), bits[HEADER_BITS..])
  {
    hide ReadFields, ParseBody, Width, HeaderFields, BlockBits, BodyBits, HeaderOf;
    HeaderWidth();
    FieldsByLength(HeaderFields(), bits);
    ReportSizes(LevelOf(msgType), HeaderIn(bits), bits[HEADER_BITS..]);
  }

  lemma HeaderTags(available: nat)
    requires available < Width(HeaderFields())
    ensures FirstMissing(HeaderFields(), available) == InvalidHeader
  {
    hide FirstMissing, Width;
    SameTag(HeaderFields(), available, InvalidHeader);
  }

  // ---------- blocks of raw field values ----------

  datatype Raw = Raw(h: seq<nat>, mask: seq<seq<nat>>, sats: seq<seq<nat>>, cells: seq<seq<nat>>)

  /** Field values in range, and as many blocks as the masks announce. */
  predicate RawFits(level: Level, raw: Raw) {
    && Fits(HeaderFields(), raw.h) && |raw.h| == 11
    && AllFit(MaskFields(), raw.mask) && AllLong(MaskFields(), raw.mask)
    && AllFit(SatFields(level), raw.sats) && AllLong(SatFields(level), raw.sats)
    && AllFit(CellFields(level), raw.cells) && AllLong(CellFields(level), raw.cells)
    && var hd := HeaderOf(raw.h);
    && |raw.mask| == hd.Nsat() * hd.Nsig() && |raw.sats| == hd.Nsat()
    && |raw.cells| == |Present(FirstOf(raw.mask))|
  }

  function PackBody(level: Level, raw: Raw): seq<bool>
    requires RawFits(level, raw)
  {
    PackGroups(MaskFields(), raw.mask) +
    (PackGroups(SatFields(level), raw.sats) + PackGroups(CellFields(level), raw.cells))
  }

  /** Header, cell mask, then satellite by satellite, then cell by cell. */
  function PackRaw(level: Level, raw: Raw): seq<bool>
    requires RawFits(level, raw)
  {
    PackFields(HeaderFields(), raw.h) + PackBody(level, raw)
  }

  function RawReport(level: Level, raw: Raw): Report
    requires RawFits(level, raw)
  {
    MakeReport(level, HeaderOf(raw.h), Present(FirstOf(raw.mask)), raw.sats, raw.cells)
  }

  /** Three runs of blocks in a row are read back one after the other. */
  lemma BlocksComeBack(level: Level, hd: Header, mask: seq<seq<nat>>, sats: seq<seq<nat>>, cells: seq<seq<nat>>,
                       tail: seq<bool>)
    requires AllFit(MaskFields(), mask) && AllLong(MaskFields(), mask)
    requires AllFit(SatFields(level), sats) && AllLong(SatFields(level), sats)
    requires AllFit(CellFields(level), cells) && AllLong(CellFields(level), cells)
    requires |mask| == hd.Nsat() * hd.Nsig() && |sats| == hd.Nsat() && |cells| == |Present(FirstOf(mask))|
    ensures ParseBody(level, hd, PackGroups(MaskFields(), mask)
              + (PackGroups(SatFields(level), sats) + (PackGroups(CellFields(level), cells) + tail)))
         == Decoded(MakeReport(level, hd, Present(FirstOf(mask)), sats, cells))
  {
    hide ReadGroups, PackGroups, Present, MaskFields, SatFields, CellFields, FirstOf, MakeReport, AllFit;
    var r := PackGroups(CellFields(level), cells) + tail;
    GroupsRoundTrip(MaskFields(), mask, PackGroups(SatFields(level), sats) + r);
    GroupsRoundTrip(SatFields(level), sats, r);
    GroupsRoundTrip(CellFields(level), cells, tail);
  }

  lemma BodyComesBack(level: Level, raw: Raw, tail: seq<bool>)
    requires RawFits(level, raw)
    ensures ParseBody(level, HeaderOf(raw.h), PackBody(level, raw) + tail) == Decoded(RawReport(level, raw))
  {
    hide ParseBody, PackGroups, Present, MaskFields, SatFields, CellFields, FirstOf, MakeReport, AllFit, AllLong, Fits,
         HeaderFields;
    var p, q := PackGroups(MaskFields(), raw.mask), PackGroups(SatFields(level), raw.sats);
    var r := PackGroups(CellFields(level), raw.cells);
    BlocksComeBack(level, HeaderOf(raw.h), raw.mask, raw.sats, raw.cells, tail);
    assert p + (q + r) + tail == p + (q + (r + tail));
  }

  lemma RawHeaderFits(level: Level, raw: Raw)
    requires RawFits(level, raw)
    ensures Fits(HeaderFields(), raw.h) && |raw.h| == 11 == |HeaderFields()|
  {
  }

  lemma RawRoundTrip(msgType: nat, raw: Raw, tail: seq<bool>)
    requires IsMsm(msgType) && RawFits(LevelOf(msgType), raw)
    ensures ParseMsm(msgType, PackRaw(LevelOf(msgType), raw) + tail) == Decoded(RawReport(LevelOf(msgType), raw))
  {
    hide ReadFields, PackFields, ParseBody, PackBody, RawFits, RawReport, HeaderFields, Fits, HeaderOf;
    var level := LevelOf(msgType);
    RawHeaderFits(level, raw);
    var head, body := PackFields(HeaderFields(), raw.h), PackBody(level, raw);
    FieldsRoundTrip(HeaderFields(), raw.h, body + tail);
    assert head + body + tail == head + (body + tail);
    BodyComesBack(level, raw, tail);
  }

  /** The converse: a message that decodes is the packing of what its blocks hold, followed by bits
      that were never looked at; it takes up exactly as many bits as the length criterion says. */
  lemma DecodedWasPacked(msgType: nat, bits: seq<bool>) returns (raw: Raw, tail: seq<bool>)
    requires ParseMsm(msgType, bits).Decoded?
    ensures var level := LevelOf(msgType);
      && RawFits(level, raw) && bits == PackRaw(level, raw) + tail
      && ParseMsm(msgType, bits) == Decoded(RawReport(level, raw))
      && |PackRaw(level, raw)| == HEADER_BITS + BlockBits(level, RawReport(level, raw))
  {
    var level := LevelOf(msgType);
    hide ReadFields, ReadGroups, PackFields, PackGroups, Present, FirstOf, MakeReport, HeaderFields, MaskFields,
         SatFields, CellFields;
    var header := ReadFields(HeaderFields(), bits);
    var hd := HeaderOf(header.values);
    var mask := ReadGroups(MaskFields(), hd.Nsat() * hd.Nsig(), header.rest);
    var sats := ReadGroups(SatFields(level), hd.Nsat(), mask.rest);
    var cells := ReadGroups(CellFields(level), |Present(FirstOf(mask.values))|, sats.rest);
    raw, tail := Raw(header.values, mask.values, sats.values, cells.values), cells.rest;
    FieldsInverse(HeaderFields(), bits);
    GroupsInverse(MaskFields(), hd.Nsat() * hd.Nsig(), header.rest);
    GroupsInverse(SatFields(level), hd.Nsat(), mask.rest);
    GroupsInverse(CellFields(level), |Present(FirstOf(mask.values))|, sats.rest);
    PackedLength(level, raw);
    RawReportSizes(level, raw);
    Reassociate(PackFields(HeaderFields(), raw.h), PackGroups(MaskFields(), raw.mask),
                PackGroups(SatFields(level), raw.sats), PackGroups(CellFields(level), raw.cells), tail);
  }

  lemma RawReportSizes(level: Level, raw: Raw)
    requires RawFits(level, raw)
    ensures var r := RawReport(level, raw);
      |r.satIds| * |r.sigIds| == |raw.mask| && |r.satIds| == |raw.sats| && |r.cells| == |raw.cells|
  {
    hide Ids, PopCount, Present, FirstOf, AllFit, Fits, AllLong, MakeCells, RoughModOf, ToBits, StrictlyIncreasing;
    IdsAreSetPositions(HeaderOf(raw.h).SatBits());
    IdsAreSetPositions(HeaderOf(raw.h).SigBits());
  }

  lemma Reassociate(a: seq<bool>, b: seq<bool>, c: seq<bool>, d: seq<bool>, e: seq<bool>)
    ensures a + (b + (c + (d + e))) == a + (b + (c + d)) + e
  {
  }

  lemma PackedLength(level: Level, raw: Raw)
    requires RawFits(level, raw)
    ensures |PackRaw(level, raw)|
      == HEADER_BITS + |raw.mask| + |raw.sats| * SatBitsOf(level) + |raw.cells| * CellBitsOf(level)
  {
    hide PackFields, PackGroups, Present, FirstOf, HeaderFields, MaskFields, SatFields, CellFields, Width;
    HeaderWidth();
    MaskWidth();
    SatWidth(level);
    CellWidth(level);
    PackedFieldsLength(HeaderFields(), raw.h);
    PackedGroupsLength(MaskFields(), raw.mask);
    PackedGroupsLength(SatFields(level), raw.sats);
    PackedGroupsLength(CellFields(level), raw.cells);
  }

  // ---------- messages as values, and their encoding in the order the decoder reads ----------

  datatype Satellite = Satellite(whole: nat, ext: nat, roughMod: nat, rate: int)

  datatype Observation = Observation(pr: int, cp: int, lock: nat, half: nat, cnr: nat, phaseRate: int)

  datatype Record = Record(station: nat, epoch: nat, multiple: nat, iods: nat, reserved: nat, clock: nat,
                           extClock: nat, smoothing: nat, smoothInterval: nat,
                           satMask: seq<bool>, sigMask: seq<bool>, cellMask: seq<bool>,
                           sats: seq<Satellite>, cells: seq<Observation>)

  function HeaderValues(m: Record): (h: seq<nat>)
    ensures |h| == 11
  {
    [m.station, m.epoch, m.multiple, m.iods, m.reserved, m.clock, m.extClock, m.smoothing, m.smoothInterval,
     Value(m.satMask), Value(m.sigMask)]
  }

  predicate InSigned(x: int, n: nat)
    requires n >= 1
  {
    -Pow2(n - 1) <= x < Pow2(n - 1)
  }

  predicate SatInRange(level: Level, s: Satellite) {
    s.whole < Pow2(8) && s.ext < Pow2(4) && s.roughMod < Pow2(10) && InSigned(s.rate, 14)
  }

  predicate CellInRange(level: Level, c: Observation) {
    && InSigned(c.pr, PrBits(level)) && InSigned(c.cp, CpBits(level)) && c.lock < Pow2(LockBits(level))
    && c.half < Pow2(1) && c.cnr < Pow2(CnrBits(level)) && InSigned(c.phaseRate, 15)
  }

  /** Every field fits its width, and there is one block per satellite and per set cell bit. */
  predicate Encodable(level: Level, m: Record) {
    && m.station < Pow2(12) && m.epoch < Pow2(30) && m.multiple < Pow2(1) && m.iods < Pow2(3)
    && m.reserved < Pow2(7) && m.clock < Pow2(2) && m.extClock < Pow2(2)
    && m.smoothing < Pow2(1) && m.smoothInterval < Pow2(3)
    && |m.satMask| == 64 && |m.sigMask| == 32
    && |m.cellMask| == PopCount(m.satMask) * PopCount(m.sigMask)
    && |m.sats| == PopCount(m.satMask) && |m.cells| == PopCount(m.cellMask)
    && (forall s :: s in m.sats ==> SatInRange(level, s))
    && forall c :: c in m.cells ==> CellInRange(level, c)
  }

  function SatValues(level: Level, s: Satellite): (g: seq<nat>)
    requires SatInRange(level, s)
    ensures |g| == |SatFields(level)|
  {
    SignedRoundTrip(s.rate, 14);
    if level.rates then [s.whole, s.ext, s.roughMod, FromSigned(s.rate, 14)] else [s.whole, s.roughMod]
  }

  function CellValues(level: Level, c: Observation): (g: seq<nat>)
    requires CellInRange(level, c)
    ensures |g| == |CellFields(level)|
  {
    SignedRoundTrip(c.pr, PrBits(level));
    SignedRoundTrip(c.cp, CpBits(level));
    SignedRoundTrip(c.phaseRate, 15);
    [FromSigned(c.pr, PrBits(level)), FromSigned(c.cp, CpBits(level)), c.lock, c.half, c.cnr]
    + if level.rates then [FromSigned(c.phaseRate, 15)] else []
  }

  function MaskGroups(mask: seq<bool>): (groups: seq<seq<nat>>)
    ensures |groups| == |mask| && AllLong(MaskFields(), groups)
  {
    seq(|mask|, k requires 0 <= k < |mask| => [One(mask[k])])
  }

  function SatGroups(level: Level, sats: seq<Satellite>): (groups: seq<seq<nat>>)
    requires forall s :: s in sats ==> SatInRange(level, s)
    ensures |groups| == |sats| && AllLong(SatFields(level), groups)
  {
    seq(|sats|, k requires 0 <= k < |sats| => assert sats[k] in sats; SatValues(level, sats[k]))
  }

  function CellGroups(level: Level, cells: seq<Observation>): (groups: seq<seq<nat>>)
    requires forall c :: c in cells ==> CellInRange(level, c)
    ensures |groups| == |cells| && AllLong(CellFields(level), groups)
  {
    seq(|cells|, k requires 0 <= k < |cells| => assert cells[k] in cells; CellValues(level, cells[k]))
  }

  /** The unsigned field values of m, block by block. */
  function RawOf(level: Level, m: Record): Raw
    requires Encodable(level, m)
  {
    Raw(HeaderValues(m), MaskGroups(m.cellMask), SatGroups(level, m.sats), CellGroups(level, m.cells))
  }

  function Encode(level: Level, m: Record): seq<bool>
    requires Encodable(level, m)
  {
    RawOfFits(level, m);
    PackRaw(level, RawOf(level, m))
  }

  function Wholes(sats: seq<Satellite>): (r: seq<nat>)
    ensures |r| == |sats|
  {
    seq(|sats|, k requires 0 <= k < |sats| => sats[k].whole)
  }

  function RoughMods(sats: seq<Satellite>): (r: seq<nat>)
    ensures |r| == |sats|
  {
    seq(|sats|, k requires 0 <= k < |sats| => sats[k].roughMod)
  }

  function CellAt(nsig: nat, flat: nat, c: Observation): Cell {
    Cell(Row(flat, nsig), Column(flat, nsig), c.pr, c.cp, c.lock, c.half, c.cnr)
  }

  function CellsAt(nsig: nat, flats: seq<nat>, cells: seq<Observation>): (r: seq<Cell>)
    requires |flats| == |cells|
    ensures |r| == |cells|
  {
    seq(|cells|, k requires 0 <= k < |cells| => CellAt(nsig, flats[k], cells[k]))
  }

  /** What a decoder should make of m. */
  function Expected(m: Record): Report
    requires |m.cells| == PopCount(m.cellMask)
  {
    PresentCount(m.cellMask);
    Report(m.station, m.epoch, m.multiple, m.smoothing, m.smoothInterval, m.clock, m.extClock,
           Ids(m.satMask), Ids(m.sigMask), Wholes(m.sats), RoughMods(m.sats),
           CellsAt(PopCount(m.sigMask), Present(MaskVector(m.cellMask)), m.cells))
  }

  lemma HeaderFits(level: Level, m: Record)
    requires Encodable(level, m)
    ensures Fits(HeaderFields(), HeaderValues(m))
  {
    hide Pow2, Value;
    var fs, h := HeaderFields(), HeaderValues(m);
    assert h[0] < Pow2(fs[0].width) && h[1] < Pow2(fs[1].width) && h[2] < Pow2(fs[2].width);
    assert h[3] < Pow2(fs[3].width) && h[4] < Pow2(fs[4].width) && h[5] < Pow2(fs[5].width);
    assert h[6] < Pow2(fs[6].width) && h[7] < Pow2(fs[7].width) && h[8] < Pow2(fs[8].width);
    assert h[9] < Pow2(fs[9].width) && h[10] < Pow2(fs[10].width);
  }

  lemma MaskGroupsFit(mask: seq<bool>)
    ensures AllFit(MaskFields(), MaskGroups(mask)) && FirstOf(MaskGroups(mask)) == MaskVector(mask)
  {
    assert Pow2(1) == 2;
  }

  lemma SatFits(level: Level, s: Satellite)
    requires SatInRange(level, s)
    ensures Fits(SatFields(level), SatValues(level, s))
  {
    SignedRoundTrip(s.rate, 14);
    hide Pow2, FromSigned;
  }

  lemma SatGroupsFit(level: Level, sats: seq<Satellite>)
    requires forall s :: s in sats ==> SatInRange(level, s)
    ensures AllFit(SatFields(level), SatGroups(level, sats))
    ensures FirstOf(SatGroups(level, sats)) == Wholes(sats)
    ensures RoughModOf(level, SatGroups(level, sats)) == RoughMods(sats)
  {
    var groups := SatGroups(level, sats);
    forall g | g in groups ensures Fits(SatFields(level), g) {
      hide Fits, SatFields, SatValues;
      var k :| 0 <= k < |groups| && groups[k] == g;
      SatFits(level, sats[k]);
    }
  }

  lemma CellFits(level: Level, c: Observation)
    requires CellInRange(level, c)
    ensures Fits(CellFields(level), CellValues(level, c))
  {
    hide Pow2, FromSigned, ToSigned;
    SignedRoundTrip(c.pr, PrBits(level));
    SignedRoundTrip(c.cp, CpBits(level));
    SignedRoundTrip(c.phaseRate, 15);
  }

  lemma CellComesBack(level: Level, nsig: nat, flat: nat, c: Observation)
    requires CellInRange(level, c)
    ensures MakeCell(level, nsig, flat, CellValues(level, c)) == CellAt(nsig, flat, c)
  {
    SignedRoundTrip(c.pr, PrBits(level));
    SignedRoundTrip(c.cp, CpBits(level));
    hide Pow2, FromSigned, ToSigned;
  }

  lemma CellGroupsFit(level: Level, nsig: nat, flats: seq<nat>, cells: seq<Observation>)
    requires |flats| == |cells| && forall c :: c in cells ==> CellInRange(level, c)
    ensures AllFit(CellFields(level), CellGroups(level, cells))
    ensures MakeCells(level, nsig, flats, CellGroups(level, cells)) == CellsAt(nsig, flats, cells)
  {
    hide CellValues, CellInRange, MakeCell, CellAt, Fits;
    var groups := CellGroups(level, cells);
    forall g | g in groups ensures Fits(CellFields(level), g) {
      var k :| 0 <= k < |groups| && groups[k] == g;
      assert cells[k] in cells;
      CellFits(level, cells[k]);
    }
    forall k | 0 <= k < |cells|
      ensures MakeCell(level, nsig, flats[k], groups[k]) == CellAt(nsig, flats[k], cells[k])
    {
      assert cells[k] in cells;
      CellComesBack(level, nsig, flats[k], cells[k]);
    }
  }

  lemma RawOfFits(level: Level, m: Record)
    requires Encodable(level, m)
    ensures RawFits(level, RawOf(level, m)) && RawReport(level, RawOf(level, m)) == Expected(m)
  {
    hide Present, Ids, PopCount, MaskFields, SatFields, CellFields, HeaderFields, CellInRange, SatInRange,
      MakeCells, FirstOf, RoughModOf, SatGroups, CellGroups, MaskGroups, Value, ToBits, Wholes, RoughMods, CellsAt,
      AllFit, Fits, Pow2, MaskVector;
    ToBitsOfValue(m.satMask);
    ToBitsOfValue(m.sigMask);
    HeaderFits(level, m);
    MaskGroupsFit(m.cellMask);
    SatGroupsFit(level, m.sats);
    PresentCount(m.cellMask);
    CellGroupsFit(level, PopCount(m.sigMask), Present(MaskVector(m.cellMask)), m.cells);
  }

  /** Round trip: every encodable message, whatever follows it, decodes to just its own contents. */
  lemma MsmRoundTrip(msgType: nat, m: Record, tail: seq<bool>)
    requires IsMsm(msgType) && Encodable(LevelOf(msgType), m)
    ensures ParseMsm(msgType, Encode(LevelOf(msgType), m) + tail) == Decoded(Expected(m))
  {
    hide ParseMsm, RawFits, RawReport, PackRaw, Expected, Encodable;
    RawOfFits(LevelOf(msgType), m);
    RawRoundTrip(msgType, RawOf(LevelOf(msgType), m), tail);
  }
}
