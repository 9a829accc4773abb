/** Messages laid out field by field (each field for all satellites, then for all cells), and what a
    decoder that reads block by block makes of them. */
module MsmFieldOrder {
  import opened Bits
  import opened BitReading
  import opened FieldGroups
  import opened MsmFormat
  import opened MsmLaws

  /** The first field of every group. */
  function FieldColumn(w: nat, groups: seq<seq<nat>>): seq<bool>
    requires forall g :: g in groups ==> |g| > 0
  {
    if groups == [] then []
    else
      assert groups[0] in groups;
      ToBits(groups[0][0], w) + FieldColumn(w, groups[1..])
  }

  function Tails(groups: seq<seq<nat>>): (r: seq<seq<nat>>)
    requires forall g :: g in groups ==> |g| > 0
    ensures |r| == |groups|
  {
    seq(|groups|, i requires 0 <= i < |groups| => assert groups[i] in groups; groups[i][1..])
  }

  /** One field after the other, each for all groups. */
  function PackColumns(fs: seq<Field>, groups: seq<seq<nat>>): seq<bool>
    requires AllLong(fs, groups)
    decreases |fs|
  {
    if fs == [] then [] else FieldColumn(fs[0].width, groups) + PackColumns(fs[1..], Tails(groups))
  }

  lemma {:induction false} ColumnLength(w: nat, groups: seq<seq<nat>>)
    requires forall g :: g in groups ==> |g| > 0
    ensures |FieldColumn(w, groups)| == |groups| * w
    decreases |groups|
  {
    if groups != [] {
      ColumnLength(w, groups[1..]);
      assert |groups| * w == (|groups| - 1) * w + w;
    }
  }

  lemma Distribute(n: nat, a: nat, b: nat)
    ensures n * (a + b) == n * a + n * b
  {
  }

  lemma {:induction false} ColumnsWidth(fs: seq<Field>, groups: seq<seq<nat>>)
    requires AllLong(fs, groups)
    ensures |PackColumns(fs, groups)| == |groups| * Width(fs)
    decreases |fs|
  {
    hide FieldColumn;
    if fs != [] {
      ColumnLength(fs[0].width, groups);
      ColumnsWidth(fs[1..], Tails(groups));
      Distribute(|groups|, fs[0].width, Width(fs[1..]));
    }
  }

  /** Both orders take the same number of bits. */
  lemma ColumnsLength(fs: seq<Field>, groups: seq<seq<nat>>)
    requires AllLong(fs, groups)
    ensures |PackColumns(fs, groups)| == |PackGroups(fs, groups)|
  {
    hide PackGroups, PackColumns;
    ColumnsWidth(fs, groups);
    PackedGroupsLength(fs, groups);
  }

  // ---------- a single group ----------

  lemma {:induction false} ColumnsOfNone(fs: seq<Field>)
    ensures PackColumns(fs, []) == []
  {
    if fs != [] {
      ColumnsOfNone(fs[1..]);
      assert Tails([]) == [];
    }
  }

  lemma {:induction false} ColumnsOfOne(fs: seq<Field>, g: seq<nat>)
    requires |g| == |fs|
    ensures PackColumns(fs, [g]) == PackFields(fs, g)
    decreases |fs|
  {
    if fs != [] {
      ColumnsOfOne(fs[1..], g[1..]);
      assert Tails([g]) == [g[1..]];
      assert FieldColumn(fs[0].width, [g]) == ToBits(g[0], fs[0].width) + FieldColumn(fs[0].width, []);
    }
  }

  lemma GroupsOfOne(fs: seq<Field>, g: seq<nat>)
    requires |g| == |fs|
    ensures PackGroups(fs, [g]) == PackFields(fs, g)
  {
    assert [g][1..] == [];
    assert PackGroups(fs, []) == [];
  }

  lemma FewGroupsAgree(fs: seq<Field>, groups: seq<seq<nat>>)
    requires AllLong(fs, groups) && |groups| <= 1
    ensures PackColumns(fs, groups) == PackGroups(fs, groups)
  {
    if groups == [] {
      ColumnsOfNone(fs);
    } else {
      assert groups[0] in groups && groups == [groups[0]];
      ColumnsOfOne(fs, groups[0]);
      GroupsOfOne(fs, groups[0]);
    }
  }

  // ---------- two groups or more ----------

  function NoughtValues(n: nat): (g: seq<nat>)
    ensures |g| == n
  {
    seq(n, _ => 0)
  }

  /** All values zero, but for the top bit of the second group's first field. */
  function Telltale(fs: seq<Field>, n: nat): (groups: seq<seq<nat>>)
    requires |fs| >= 2 && fs[0].width >= 1
    ensures |groups| == n && AllLong(fs, groups)
  {
    var noughts := NoughtValues(|fs|);
    seq(n, i => if i == 1 then [Pow2(fs[0].width - 1) as nat] + NoughtValues(|fs| - 1) else noughts)
  }

  lemma TelltaleFits(fs: seq<Field>, n: nat)
    requires |fs| >= 2 && fs[0].width >= 1
    ensures AllFit(fs, Telltale(fs, n))
  {
    hide Pow2;
    DoublePow2(fs[0].width - 1);
  }

  lemma DoublePow2(k: nat)
    ensures Pow2(k) < Pow2(k + 1)
  {
  }

  lemma TelltaleValues(fs: seq<Field>, n: nat)
    requires |fs| >= 2 && fs[0].width >= 1 && n >= 2
    ensures |Telltale(fs, n)[0]| == |Telltale(fs, n)[1]| == |fs|
    ensures Telltale(fs, n)[1][0] == Pow2(fs[0].width - 1)
    ensures Telltale(fs, n)[0][0] == 0 && Telltale(fs, n)[0][1] == 0
  {
    hide Pow2;
  }

  // ---------- what is read in place of the second group ----------

  function NoughtGroups(fs: seq<Field>, n: nat): (groups: seq<seq<nat>>)
    ensures |groups| == n && AllLong(fs, groups)
  {
    seq(n, _ => NoughtValues(|fs|))
  }

  lemma NoughtsFit(fs: seq<Field>, n: nat)
    ensures AllFit(fs, NoughtGroups(fs, n))
  {
    hide Pow2;
  }

  predicate AllNought(groups: seq<seq<nat>>) {
    forall g :: g in groups ==> forall i :: 0 <= i < |g| ==> g[i] == 0
  }

  lemma {:induction false} BitsOfNought(n: nat)
    ensures ToBits(0, n) == Zeros(n)
  {
    if n > 0 { BitsOfNought(n - 1); }
  }

  lemma {:induction false} NoughtColumn(w: nat, groups: seq<seq<nat>>)
    requires AllNought(groups) && forall g :: g in groups ==> |g| > 0
    ensures FieldColumn(w, groups) == Zeros(|FieldColumn(w, groups)|)
    decreases |groups|
  {
    hide ToBits;
    if groups != [] {
      assert groups[0] in groups;
      BitsOfNought(w);
      NoughtColumn(w, groups[1..]);
    }
  }

  lemma {:induction false} NoughtColumns(fs: seq<Field>, groups: seq<seq<nat>>)
    requires AllLong(fs, groups) && AllNought(groups)
    ensures PackColumns(fs, groups) == Zeros(|PackColumns(fs, groups)|)
    decreases |fs|
  {
    hide FieldColumn;
    if fs != [] {
      NoughtColumn(fs[0].width, groups);
      TailsOfNought(groups);
      NoughtColumns(fs[1..], Tails(groups));
    }
  }

  lemma TailsOfNought(groups: seq<seq<nat>>)
    requires AllNought(groups) && forall g :: g in groups ==> |g| > 0
    ensures AllNought(Tails(groups))
  {
    forall g | g in Tails(groups) ensures forall i :: 0 <= i < |g| ==> g[i] == 0 {
      var k :| 0 <= k < |groups| && Tails(groups)[k] == g;
      assert groups[k] in groups;
    }
  }

  lemma TelltaleTails(fs: seq<Field>, n: nat)
    requires |fs| >= 2 && fs[0].width >= 1
    ensures AllNought(Tails(Telltale(fs, n))) && (n >= 2 ==> AllNought(Telltale(fs, n)[2..]))
  {
    hide Pow2;
    var groups := Telltale(fs, n);
    forall g | g in Tails(groups) ensures forall i :: 0 <= i < |g| ==> g[i] == 0 {
      var k :| 0 <= k < n && Tails(groups)[k] == g;
      assert g == groups[k][1..];
    }
    if n >= 2 {
      forall g | g in groups[2..] ensures forall i :: 0 <= i < |g| ==> g[i] == 0 {
        var k :| 2 <= k < n && groups[k] == g;
      }
    }
  }

  /** The one bit set is the first one behind the first group's first field. */
  lemma TelltaleColumns(fs: seq<Field>, n: nat)
    requires |fs| >= 2 && fs[0].width >= 1 && n >= 2
    ensures var bits := PackColumns(fs, Telltale(fs, n)); var w := fs[0].width;
      |bits| > w && bits == Zeros(w) + [true] + Zeros(|bits| - w - 1)
  {
    hide Pow2, ToBits, Telltale, FieldColumn, AllNought;
    var groups, w := Telltale(fs, n), fs[0].width;
    TelltaleValues(fs, n);
    TelltaleTails(fs, n);
    FirstTwoInColumn(w, groups);
    NoughtColumn(w, groups[2..]);
    NoughtColumns(fs[1..], Tails(groups));
    BitsOfNought(w);
    TopBitAlone(w - 1);
    var others, more := FieldColumn(w, groups[2..]), PackColumns(fs[1..], Tails(groups));
    TelltaleShape(w, others, more);
    assert PackColumns(fs, groups) == Zeros(w) + ([true] + Zeros(w - 1) + others) + more;
  }

  lemma TelltaleShape(w: nat, others: seq<bool>, more: seq<bool>)
    requires w >= 1 && others == Zeros(|others|) && more == Zeros(|more|)
    ensures var bits := Zeros(w) + ([true] + Zeros(w - 1) + others) + more;
      bits == Zeros(w) + [true] + Zeros(|bits| - w - 1)
  {
  }

  lemma FirstTwoInColumn(w: nat, groups: seq<seq<nat>>)
    requires |groups| >= 2 && forall g :: g in groups ==> |g| > 0
    ensures |groups[0]| > 0 && |groups[1]| > 0
    ensures FieldColumn(w, groups) == ToBits(groups[0][0], w) + (ToBits(groups[1][0], w) + FieldColumn(w, groups[2..]))
  {
    hide ToBits;
    assert groups[0] in groups && groups[1] in groups && groups[1..][0] == groups[1] && groups[1..][1..] == groups[2..];
  }

  lemma {:induction false} TopBitAlone(k: nat)
    ensures ToBits(Pow2(k), k + 1) == [true] + Zeros(k)
  {
    if k > 0 {
      TopBitAlone(k - 1);
      assert Pow2(k) / 2 == Pow2(k - 1);
    }
  }

  /** The second group's first field is read right behind the first group. */
  lemma SecondGroupRead(fs: seq<Field>, n: nat, bits: seq<bool>)
    requires |fs| >= 1 && n >= 2 && ReadGroups(fs, n, bits).Full?
    ensures var values := ReadGroups(fs, n, bits).values;
      && |bits| >= Width(fs) + fs[0].width && |values[1]| == |fs|
      && values[1][0] == Value(bits[Width(fs)..Width(fs) + fs[0].width])
  {
    hide Value, FirstMissing, Width;
    FieldsByLength(fs, bits);
    var rest := bits[Width(fs)..];
    FirstFieldRead(fs, rest);
    assert rest[..fs[0].width] == bits[Width(fs)..Width(fs) + fs[0].width];
  }

  lemma FirstFieldRead(fs: seq<Field>, bits: seq<bool>)
    requires |fs| >= 1
    ensures ReadFields(fs, bits).Full? ==>
      |bits| >= fs[0].width && ReadFields(fs, bits).values[0] == Value(bits[..fs[0].width])
  {
    hide Value;
  }

  lemma {:induction false} ValueOfZeros(n: nat)
    ensures Value(Zeros(n)) == 0
  {
    if n > 0 {
      ValueOfZeros(n - 1);
      assert Zeros(n)[..n - 1] == Zeros(n - 1);
    }
  }

  /** In place of its top bit, zero is read. */
  lemma TelltaleMisread(fs: seq<Field>, n: nat)
    requires |fs| >= 2 && fs[0].width >= 1 && fs[1].width >= 1 && n >= 2
    ensures var r := ReadGroups(fs, n, PackColumns(fs, Telltale(fs, n)));
      r.Full? ==> |r.values[1]| == |fs| && r.values[1][0] == 0
  {
    hide ReadGroups, PackColumns, Telltale, Value;
    var bits, w, width := PackColumns(fs, Telltale(fs, n)), fs[0].width, Width(fs);
    if ReadGroups(fs, n, bits).Full? {
      SecondGroupRead(fs, n, bits);
      TelltaleColumns(fs, n);
      assert width > w;
      assert bits[width..width + w] == Zeros(w);
      ValueOfZeros(w);
    }
  }

  /** What is read from a run of groups laid out field by field is what it was made from, for all values,
      exactly when there is at most one group. */
  lemma ColumnsReadExactly(fs: seq<Field>, n: nat)
    requires |fs| >= 2 && fs[0].width >= 1 && fs[1].width >= 1
    ensures (forall groups :: |groups| == n && AllLong(fs, groups) && AllFit(fs, groups) ==>
               ReadGroups(fs, n, PackColumns(fs, groups)) == Full(groups, [])) <==> n <= 1
  {
    hide PackColumns, PackGroups, ReadGroups, Telltale, AllFit, AllLong;
    if n <= 1 {
      forall groups | |groups| == n && AllLong(fs, groups) && AllFit(fs, groups)
        ensures ReadGroups(fs, n, PackColumns(fs, groups)) == Full(groups, [])
      {
        FewGroupsAgree(fs, groups);
        GroupsRoundTrip(fs, groups, []);
        assert PackGroups(fs, groups) + [] == PackGroups(fs, groups);
      }
    } else {
      var groups := Telltale(fs, n);
      TelltaleFits(fs, n);
      TelltaleValues(fs, n);
      TelltaleMisread(fs, n);
    }
  }

  /** The two orders agree on all values exactly when there is at most one group. */
  lemma OrdersAgree(fs: seq<Field>, n: nat)
    requires |fs| >= 2 && fs[0].width >= 1 && fs[1].width >= 1
    ensures (forall groups :: |groups| == n && AllLong(fs, groups) && AllFit(fs, groups) ==>
               PackColumns(fs, groups) == PackGroups(fs, groups)) <==> n <= 1
  {
    hide PackColumns, PackGroups, ReadGroups, Telltale, AllFit, AllLong;
    if n <= 1 {
      forall groups | |groups| == n && AllLong(fs, groups) && AllFit(fs, groups)
        ensures PackColumns(fs, groups) == PackGroups(fs, groups)
      {
        FewGroupsAgree(fs, groups);
      }
    } else {
      var groups := Telltale(fs, n);
      TelltaleFits(fs, n);
      TelltaleValues(fs, n);
      TelltaleMisread(fs, n);
      GroupsRoundTrip(fs, groups, []);
      assert PackGroups(fs, groups) + [] == PackGroups(fs, groups);
    }
  }

  // ---------- whole messages ----------

  /** Header and cell mask as before, then the satellite fields and the cell fields, field by field. */
  function PackByField(level: Level, raw: Raw): seq<bool>
    requires RawFits(level, raw)
  {
    PackFields(HeaderFields(), raw.h) + (PackGroups(MaskFields(), raw.mask)
      + (PackColumns(SatFields(level), raw.sats) + PackColumns(CellFields(level), raw.cells)))
  }

  /** What the decoder makes of such a message: the satellite fields, and then the cell fields, are read as
      if they were blocks. */
  lemma FieldOrderResult(msgType: nat, raw: Raw, tail: seq<bool>) returns (sats: seq<seq<nat>>, cells: seq<seq<nat>>)
    requires IsMsm(msgType) && RawFits(LevelOf(msgType), raw)
    ensures ReadInstead(SatFields(LevelOf(msgType)), raw.sats, sats)
    ensures ReadInstead(CellFields(LevelOf(msgType)), raw.cells, cells)
    ensures |Present(FirstOf(raw.mask))| == |cells|
    ensures ParseMsm(msgType, PackByField(LevelOf(msgType), raw) + tail)
         == Decoded(MakeReport(LevelOf(msgType), HeaderOf(raw.h), Present(FirstOf(raw.mask)), sats, cells))
  {
    hide ReadFields, ReadInstead, PackFields, PackGroups, PackColumns, ParseBody, Fits, AllFit, AllLong, HeaderFields,
         MaskFields, SatFields, CellFields, Present, FirstOf, MakeReport, HeaderOf;
    var level := LevelOf(msgType);
    var head, mask := PackFields(HeaderFields(), raw.h), PackGroups(MaskFields(), raw.mask);
    var satBits, cellBits := PackColumns(SatFields(level), raw.sats), PackColumns(CellFields(level), raw.cells);
    sats, cells := BodyResult(level, HeaderOf(raw.h), raw.mask, raw.sats, raw.cells, tail);
    RawHeaderFits(level, raw);
    FieldsRoundTrip(HeaderFields(), raw.h, mask + (satBits + (cellBits + tail)));
    assert head + (mask + (satBits + cellBits)) + tail == head + (mask + (satBits + (cellBits + tail)));
  }

  /** The groups read where the given ones are laid out field by field. */
  predicate ReadInstead(fs: seq<Field>, groups: seq<seq<nat>>, got: seq<seq<nat>>) {
    && AllLong(fs, groups) && AllLong(fs, got) && |got| == |groups|
    && ReadGroups(fs, |groups|, PackColumns(fs, groups)) == Full(got, [])
  }

  lemma BodyResult(level: Level, hd: Header, mask: seq<seq<nat>>, sentSats: seq<seq<nat>>, sentCells: seq<seq<nat>>,
                   tail: seq<bool>) returns (sats: seq<seq<nat>>, cells: seq<seq<nat>>)
    requires AllFit(MaskFields(), mask) && AllLong(MaskFields(), mask) && |mask| == hd.Nsat() * hd.Nsig()
    requires AllLong(SatFields(level), sentSats) && |sentSats| == hd.Nsat()
    requires AllLong(CellFields(level), sentCells) && |sentCells| == |Present(FirstOf(mask))|
    ensures ReadInstead(SatFields(level), sentSats, sats) && ReadInstead(CellFields(level), sentCells, cells)
    ensures |sats| == |sentSats| && |cells| == |sentCells|
    ensures ParseBody(level, hd, PackGroups(MaskFields(), mask)
              + (PackColumns(SatFields(level), sentSats) + (PackColumns(CellFields(level), sentCells) + tail)))
         == Decoded(MakeReport(level, hd, Present(FirstOf(mask)), sats, cells))
  {
    hide ReadGroups, ReadInstead, PackGroups, PackColumns, SatFields, CellFields, MaskFields, Width, Present, FirstOf,
         MakeReport, AllFit, SatBitsOf, CellBitsOf;
    var satBits, cellBits := PackColumns(SatFields(level), sentSats), PackColumns(CellFields(level), sentCells);
    BlockWidths(level);
    sats := ColumnsAreTaken(SatFields(level), sentSats, cellBits + tail);
    cells := ColumnsAreTaken(CellFields(level), sentCells, tail);
    GroupsRoundTrip(MaskFields(), mask, satBits + (cellBits + tail));
  }

  /** Field columns have the length of the blocks they are taken for; what follows makes no difference. */
  lemma ColumnsAreTaken(fs: seq<Field>, groups: seq<seq<nat>>, rest: seq<bool>) returns (got: seq<seq<nat>>)
    requires AllLong(fs, groups) && Width(fs) > 0
    ensures ReadInstead(fs, groups, got) && |got| == |groups|
    ensures ReadGroups(fs, |groups|, PackColumns(fs, groups) + rest) == Full(got, rest)
  {
    hide ReadGroups, PackColumns, PackGroups, Width, FirstMissing, Leftover, AllFit;
    var bits := PackColumns(fs, groups);
    ColumnsWidth(fs, groups);
    BlocksByLength(fs, |groups|, bits, Width(fs), |groups| * Width(fs));
    got := ReadGroups(fs, |groups|, bits).values;
    GroupsInverse(fs, |groups|, bits);
    GroupsRoundTrip(fs, got, rest);
    assert PackGroups(fs, got) + [] == PackGroups(fs, got);
  }

  /** A message laid out field by field always decodes: its length gives nothing away. */
  lemma FieldOrderIsAccepted(msgType: nat, raw: Raw, tail: seq<bool>)
    requires IsMsm(msgType) && RawFits(LevelOf(msgType), raw)
    ensures ParseMsm(msgType, PackByField(LevelOf(msgType), raw) + tail).Decoded?
  {
    hide ParseMsm, RawFits, PackByField, PackColumns, ReadGroups, MakeReport;
    var sats, cells := FieldOrderResult(msgType, raw, tail);
  }

  /** The decoder reports the message as it was meant. */
  predicate ReadRight(msgType: nat, raw: Raw, tail: seq<bool>)
    requires RawFits(LevelOf(msgType), raw)
  {
    ParseMsm(msgType, PackByField(LevelOf(msgType), raw) + tail) == Decoded(RawReport(LevelOf(msgType), raw))
  }

  /** With at most one satellite and one cell, the decoder recovers every value. */
  lemma SmallMessagesAreRead(msgType: nat, raw: Raw, tail: seq<bool>)
    requires IsMsm(msgType) && RawFits(LevelOf(msgType), raw) && |raw.sats| <= 1 && |raw.cells| <= 1
    ensures ReadRight(msgType, raw, tail)
  {
    var level := LevelOf(msgType);
    FewGroupsAgree(SatFields(level), raw.sats);
    FewGroupsAgree(CellFields(level), raw.cells);
    hide ParseMsm, RawReport, PackGroups, PackFields, PackColumns, RawFits;
    RawRoundTrip(msgType, raw, tail);
  }

  // ---------- misread messages ----------

  /** Two satellites or more: the second one's whole milliseconds are taken from elsewhere. */
  lemma SatellitesMisread(msgType: nat, raw: Raw, tail: seq<bool>)
    requires IsMsm(msgType) && RawFits(LevelOf(msgType), raw) && |raw.sats| >= 2
    requires raw.sats == Telltale(SatFields(LevelOf(msgType)), |raw.sats|)
    ensures !ReadRight(msgType, raw, tail)
  {
    hide ParseMsm, RawFits, PackByField, PackColumns, ReadGroups, Telltale, MakeCells, Pow2, RoughModOf, Ids, Present;
    var fs := SatFields(LevelOf(msgType));
    var sats, cells := FieldOrderResult(msgType, raw, tail);
    TelltaleMisread(fs, |raw.sats|);
    TelltaleValues(fs, |raw.sats|);
    assert FirstOf(sats)[1] == 0 && FirstOf(raw.sats)[1] == Pow2(7);
  }

  /** Two cells or more: the second one's fine pseudorange is taken from elsewhere. */
  lemma CellsMisread(msgType: nat, raw: Raw, tail: seq<bool>)
    requires IsMsm(msgType) && RawFits(LevelOf(msgType), raw) && |raw.cells| >= 2
    requires raw.cells == Telltale(CellFields(LevelOf(msgType)), |raw.cells|)
    ensures !ReadRight(msgType, raw, tail)
  {
    hide ParseMsm, PackByField, PackColumns, ReadGroups, Telltale, Pow2, FirstOf, Present, MakeReport, RawFits,
         CellFields, SatFields, HeaderOf;
    var level := LevelOf(msgType);
    var sats, cells := FieldOrderResult(msgType, raw, tail);
    CellFieldsFit(level);
    TelltaleMisread(CellFields(level), |raw.cells|);
    TelltaleValues(CellFields(level), |raw.cells|);
    RawReportIs(level, raw);
    CellsTell(level, HeaderOf(raw.h), Present(FirstOf(raw.mask)), sats, cells, raw.sats, raw.cells);
  }

  lemma RawReportIs(level: Level, raw: Raw)
    requires RawFits(level, raw)
    ensures |raw.h| == 11 && AllLong(MaskFields(), raw.mask) && |Present(FirstOf(raw.mask))| == |raw.cells|
    ensures AllLong(SatFields(level), raw.sats) && AllLong(CellFields(level), raw.cells)
    ensures RawReport(level, raw)
         == MakeReport(level, HeaderOf(raw.h), Present(FirstOf(raw.mask)), raw.sats, raw.cells)
  {
    hide Present, FirstOf, MakeReport;
  }

  lemma ReportCells(level: Level, hd: Header, flats: seq<nat>, sats: seq<seq<nat>>, cells: seq<seq<nat>>)
    requires AllLong(SatFields(level), sats) && AllLong(CellFields(level), cells) && |flats| == |cells|
    ensures MakeReport(level, hd, flats, sats, cells).cells == MakeCells(level, hd.Nsig(), flats, cells)
  {
  }

  /** Reports whose second cells were made from these fine pseudoranges differ. */
  lemma CellsTell(level: Level, hd: Header, flats: seq<nat>, satsA: seq<seq<nat>>, a: seq<seq<nat>>,
                  satsB: seq<seq<nat>>, b: seq<seq<nat>>)
    requires AllLong(SatFields(level), satsA) && AllLong(SatFields(level), satsB)
    requires AllLong(CellFields(level), a) && AllLong(CellFields(level), b) && |flats| == |a| == |b| >= 2
    requires |a[1]| >= 1 && a[1][0] == 0 && |b[1]| >= 1 && b[1][0] == Pow2(PrBits(level) - 1)
    ensures MakeReport(level, hd, flats, satsA, a) != MakeReport(level, hd, flats, satsB, b)
  {
    hide MakeReport, MakeCells, ToSigned, CellFields, SatFields, PrBits, Pow2, PopCount, ToBits;
    ReportCells(level, hd, flats, satsA, a);
    ReportCells(level, hd, flats, satsB, b);
    SecondCell(level, hd.Nsig(), flats, a);
    SecondCell(level, hd.Nsig(), flats, b);
    CellFieldsFit(level);
    TopBitIsSign(PrBits(level));
  }

  lemma CellFieldsFit(level: Level)
    ensures var fs := CellFields(level);
      |fs| >= 2 && fs[0].width == PrBits(level) >= 1 && fs[1].width >= 1
  {
  }

  lemma SecondCell(level: Level, nsig: nat, flats: seq<nat>, groups: seq<seq<nat>>)
    requires |flats| == |groups| >= 2 && AllLong(CellFields(level), groups)
    ensures groups[1] in groups && |groups[1]| >= 2
    ensures MakeCells(level, nsig, flats, groups)[1].finePr == ToSigned(groups[1][0], PrBits(level))
  {
    hide ToSigned;
    assert groups[1] in groups;
  }

  lemma TopBitIsSign(n: nat)
    requires n >= 1
    ensures ToSigned(Pow2(n - 1), n) < 0 == ToSigned(0, n)
  {
  }

  /** Header values and cell mask that announce satellites and cells. */
  predicate Announces(h: seq<nat>, mask: seq<seq<nat>>) {
    && Fits(HeaderFields(), h) && |h| == 11 && AllFit(MaskFields(), mask) && AllLong(MaskFields(), mask)
    && |mask| == HeaderOf(h).Nsat() * HeaderOf(h).Nsig()
  }

  /** Every message with these masks is read as it was meant, whatever its other values. */
  ghost predicate AlwaysReadRight(msgType: nat, h: seq<nat>, mask: seq<seq<nat>>) {
    forall raw, tail ::
      RawFits(LevelOf(msgType), raw) && raw.h == h && raw.mask == mask ==> ReadRight(msgType, raw, tail)
  }

  /** The exact condition, for whole messages and given masks: messages laid out field by field are read
      right exactly when they announce at most one satellite and at most one cell. */
  lemma ReadRightExactly(msgType: nat, h: seq<nat>, mask: seq<seq<nat>>)
    requires IsMsm(msgType) && Announces(h, mask)
    ensures AlwaysReadRight(msgType, h, mask) <==> HeaderOf(h).Nsat() <= 1 && |Present(FirstOf(mask))| <= 1
  {
    hide ReadRight, Telltale, Present, FirstOf, Fits, AllFit, HeaderOf, NoughtGroups;
    var level := LevelOf(msgType);
    var nsat, ncells := HeaderOf(h).Nsat(), |Present(FirstOf(mask))|;
    if nsat <= 1 && ncells <= 1 {
      forall raw, tail | RawFits(level, raw) && raw.h == h && raw.mask == mask ensures ReadRight(msgType, raw, tail) {
        SmallMessagesAreRead(msgType, raw, tail);
      }
    }
    TelltalesFit(level, h, mask);
    var misreadSats := Raw(h, mask, Telltale(SatFields(level), nsat), NoughtGroups(CellFields(level), ncells));
    var misreadCells := Raw(h, mask, NoughtGroups(SatFields(level), nsat), Telltale(CellFields(level), ncells));
    if nsat >= 2 { SatellitesMisread(msgType, misreadSats, []); }
    if ncells >= 2 { CellsMisread(msgType, misreadCells, []); }
  }

  lemma TelltalesFit(level: Level, h: seq<nat>, mask: seq<seq<nat>>)
    requires Announces(h, mask)
    ensures var nsat, ncells := HeaderOf(h).Nsat(), |Present(FirstOf(mask))|;
      && RawFits(level, Raw(h, mask, Telltale(SatFields(level), nsat), NoughtGroups(CellFields(level), ncells)))
      && RawFits(level, Raw(h, mask, NoughtGroups(SatFields(level), nsat), Telltale(CellFields(level), ncells)))
  {
    hide Telltale, NoughtGroups, AllFit, Fits, Present, FirstOf;
    var nsat, ncells := HeaderOf(h).Nsat(), |Present(FirstOf(mask))|;
    TelltaleFits(SatFields(level), nsat);
    TelltaleFits(CellFields(level), ncells);
    NoughtsFit(SatFields(level), nsat);
    NoughtsFit(CellFields(level), ncells);
  }

  // ---------- one misread message ----------

  lemma {:induction false} SetBitsBeforeZeros(mask: seq<bool>, n: nat)
    ensures PopCount(mask + Zeros(n)) == PopCount(mask)
  {
    if n == 0 {
      assert mask + Zeros(0) == mask;
    } else {
      SetBitsBeforeZeros(mask, n - 1);
      assert (mask + Zeros(n))[..|mask| + n - 1] == mask + Zeros(n - 1);
    }
  }

  const FIRST_TWO: seq<bool> := [true, true] + Zeros(62)
  const FIRST_ONE: seq<bool> := [true] + Zeros(31)

  /** An MSM4 with the first two satellites, the first signal and both cells. */
  function TwoSatellites(): Raw {
    Raw([0, 0, 0, 0, 0, 0, 0, 0, 0, Value(FIRST_TWO), Value(FIRST_ONE)], [[1], [1]],
        [[0, 0], [128, 0]], [[0, 0, 0, 0, 0], [0, 0, 0, 0, 0]])
  }

  lemma TwoSatellitesMasks()
    ensures var hd := HeaderOf(TwoSatellites().h);
      hd.SatBits() == FIRST_TWO && hd.SigBits() == FIRST_ONE && hd.Nsat() == 2 && hd.Nsig() == 1
  {
    hide ToBits, Value, Zeros, PopCount;
    ToBitsOfValue(FIRST_TWO);
    ToBitsOfValue(FIRST_ONE);
    SetBitsBeforeZeros([true, true], 62);
    SetBitsBeforeZeros([true], 31);
    SmallCounts();
  }

  lemma SmallCounts()
    ensures PopCount([true]) == 1 && PopCount([true, true]) == 2
  {
    assert [true][..0] == [] && [true, true][..1] == [true];
  }

  lemma TwoSatellitesFit()
    ensures RawFits(LevelOf(1074), TwoSatellites())
  {
    hide Value, PopCount, AllFit, AllLong, Fits, Present, FirstOf, HeaderFields, HeaderOf, MaskFields, SatFields,
         CellFields;
    TwoSatellitesMasks();
    TwoSatellitesHeader();
    TwoSatellitesBlocks();
    TwoSatellitesPresent();
  }

  lemma TwoSatellitesPresent()
    ensures AllLong(MaskFields(), TwoSatellites().mask) && |Present(FirstOf(TwoSatellites().mask))| == 2
  {
    hide Value, Present;
    assert FirstOf(TwoSatellites().mask) == [1, 1];
    PresentOfTwo([1, 1]);
  }

  lemma TwoSatellitesBlocks()
    ensures var raw, level := TwoSatellites(), LevelOf(1074);
      && AllFit(MaskFields(), raw.mask) && AllLong(MaskFields(), raw.mask)
      && AllFit(SatFields(level), raw.sats) && AllLong(SatFields(level), raw.sats)
      && AllFit(CellFields(level), raw.cells) && AllLong(CellFields(level), raw.cells)
  {
    hide Value, Pow2, Fits;
    SmallPowers();
    var fs := SatFields(LevelOf(1074));
    FitsPair(fs, 0, 0);
    FitsPair(fs, 128, 0);
    FitsOne(MaskFields(), 1);
    FitsNoughts(CellFields(LevelOf(1074)), [0, 0, 0, 0, 0]);
  }

  lemma SmallPowers()
    ensures Pow2(1) == 2 && Pow2(7) == 128 && Pow2(8) == 256 && Pow2(9) == 512 && Pow2(10) == 1024
  {
    assert Pow2(4) == 16;
    assert Pow2(7) == 128;
  }

  lemma TwoSatellitesHeader()
    ensures Fits(HeaderFields(), TwoSatellites().h)
  {
    hide Pow2, Value;
    assert |FIRST_TWO| == 64 && |FIRST_ONE| == 32;
  }

  lemma FitsPair(fs: seq<Field>, a: nat, b: nat)
    requires |fs| == 2 && a < Pow2(fs[0].width) && b < Pow2(fs[1].width)
    ensures Fits(fs, [a, b])
  {
    hide Pow2;
  }

  lemma FitsOne(fs: seq<Field>, a: nat)
    requires |fs| == 1 && a < Pow2(fs[0].width)
    ensures Fits(fs, [a])
  {
    hide Pow2;
  }

  lemma FitsNoughts(fs: seq<Field>, g: seq<nat>)
    requires |fs| == |g| && forall i :: 0 <= i < |g| ==> g[i] == 0
    ensures Fits(fs, g)
  {
    hide Pow2;
  }

  lemma PresentOfTwo(mask: seq<nat>)
    requires mask == [1, 1]
    ensures Present(mask) == [0, 1]
  {
    assert mask[..1] == [1] && [1][..0] == [];
  }

  lemma PackPair(fs: seq<Field>, a: nat, b: nat)
    requires |fs| == 2
    ensures PackFields(fs, [a, b]) == ToBits(a, fs[0].width) + ToBits(b, fs[1].width)
  {
    hide ToBits;
    var last := fs[1..];
    assert [a, b][1..] == [b] && [b][1..] == [] && last[1..] == [];
    assert PackFields(last, [b]) == ToBits(b, last[0].width) + PackFields(last[1..], [b][1..]);
    assert PackFields(fs, [a, b]) == ToBits(a, fs[0].width) + PackFields(last, [a, b][1..]);
  }

  lemma PackTwo(fs: seq<Field>, g: seq<nat>, g': seq<nat>)
    requires |g| == |g'| == |fs|
    ensures AllLong(fs, [g, g']) && PackGroups(fs, [g, g']) == PackFields(fs, g) + PackFields(fs, g')
  {
    hide PackFields;
    var two, one, none: seq<seq<nat>> := [g, g'], [g'], [];
    assert one[1..] == none && two[1..] == one;
    assert PackGroups(fs, none) == [];
    assert PackGroups(fs, one) == PackFields(fs, g');
  }

  /** The bits of the two satellites laid out field by field, read as two blocks of 8 and 10 bits. */
  lemma TwoBlocksRead(bits: seq<bool>)
    requires bits == Zeros(8) + [true] + Zeros(27)
    ensures ReadGroups(SatFields(LevelOf(1074)), 2, bits) == Full([[0, 512], [0, 0]], [])
  {
    hide Pow2, ToBits, ReadGroups, PackGroups, PackFields, Fits;
    var fs := SatFields(LevelOf(1074));
    SmallPowers();
    FitsPair(fs, 0, 512);
    FitsPair(fs, 0, 0);
    PackTwo(fs, [0, 512], [0, 0]);
    PackPair(fs, 0, 512);
    PackPair(fs, 0, 0);
    BitsOfNought(8);
    BitsOfNought(10);
    TopBitAlone(9);
    var groups := [[0, 512], [0, 0]];
    assert PackGroups(fs, groups) + [] == bits;
    GroupsRoundTrip(fs, groups, []);
  }

  lemma TwoSatellitesColumns()
    ensures AllLong(SatFields(LevelOf(1074)), TwoSatellites().sats)
    ensures PackColumns(SatFields(LevelOf(1074)), TwoSatellites().sats) == Zeros(8) + [true] + Zeros(27)
  {
    hide PackColumns, Width, Pow2;
    var fs := SatFields(LevelOf(1074));
    SmallPowers();
    assert Telltale(fs, 2)[0] == [0, 0] && Telltale(fs, 2)[1] == [128, 0];
    assert TwoSatellites().sats == Telltale(fs, 2);
    TelltaleColumns(fs, 2);
    ColumnsWidth(fs, TwoSatellites().sats);
    BlockWidths(LevelOf(1074));
  }

  /** A misread message: sent with whole milliseconds 0 and 128 and no fraction, it is reported with 0 and 0
      and with half a millisecond for the first satellite. */
  lemma TwoSatellitesMisread(tail: seq<bool>)
    ensures RawFits(LevelOf(1074), TwoSatellites())
    ensures RawReport(LevelOf(1074), TwoSatellites()).roughWhole == [0, 128]
    ensures RawReport(LevelOf(1074), TwoSatellites()).roughMod == [0, 0]
    ensures var r := ParseMsm(1074, PackByField(LevelOf(1074), TwoSatellites()) + tail);
      r.Decoded? && r.report.roughWhole == [0, 0] && r.report.roughMod == [512, 0]
  {
    hide ParseMsm, PackByField, PackColumns, ReadGroups, RawFits, MakeReport, Present, Value, HeaderOf;
    var raw, level := TwoSatellites(), LevelOf(1074);
    TwoSatellitesFit();
    RawReportIs(level, raw);
    var sats, cells := FieldOrderResult(1074, raw, tail);
    TwoSatellitesColumns();
    TwoBlocksRead(PackColumns(SatFields(level), raw.sats));
    var hd, flats := HeaderOf(raw.h), Present(FirstOf(raw.mask));
    ReportOfTwo(hd, flats, raw.sats, raw.cells);
    ReportOfTwo(hd, flats, sats, cells);
  }

  lemma ReportOfTwo(hd: Header, flats: seq<nat>, sats: seq<seq<nat>>, cells: seq<seq<nat>>)
    requires AllLong(SatFields(LevelOf(1074)), sats) && AllLong(CellFields(LevelOf(1074)), cells)
    requires |flats| == |cells| && |sats| == 2
    ensures |sats[0]| == |sats[1]| == 2
    ensures var r := MakeReport(LevelOf(1074), hd, flats, sats, cells);
      r.roughWhole == [sats[0][0], sats[1][0]] && r.roughMod == [sats[0][1], sats[1][1]]
  {
    hide MakeCells, Ids, CellFields, ToBits;
    assert sats[0] in sats && sats[1] in sats;
  }
}
