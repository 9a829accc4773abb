/** Consecutive bit fields and repeated groups of them, each field with the error its absence causes. */
module FieldGroups {
  import opened Bits

  datatype Tag =
    | InvalidHeader
    | InvalidCellMask
    | TruncatedSatData
    | TruncatedSatExtInfo
    | TruncatedRoughRangeMod
    | TruncatedRate
    | TruncatedCellData
    | TruncatedPhaseRate

  datatype Field = Field(width: nat, tag: Tag)

  datatype Outcome<T> = Full(values: T, rest: seq<bool>) | Short(tag: Tag)

  function Width(fs: seq<Field>): nat {
    if fs == [] then 0 else fs[0].width + Width(fs[1..])
  }

  function ReadFields(fs: seq<Field>, bits: seq<bool>): (r: Outcome<seq<nat>>)
    ensures r.Full? ==> |r.values| == |fs|
  {
    if fs == [] then Full([], bits)
    else if |bits| < fs[0].width then Short(fs[0].tag)
    else Extend([Value(bits[..fs[0].width])], ReadFields(fs[1..], bits[fs[0].width..]))
  }

  function Extend<T>(head: seq<T>, r: Outcome<seq<T>>): Outcome<seq<T>> {
    match r
    case Short(tag) => Short(tag)
    case Full(values, rest) => Full(head + values, rest)
  }

  /** n groups of the same fields, one after the other. */
  function ReadGroups(fs: seq<Field>, n: nat, bits: seq<bool>): (r: Outcome<seq<seq<nat>>>)
    ensures r.Full? ==> |r.values| == n && forall g :: g in r.values ==> |g| == |fs|
  {
    if n == 0 then Full([], bits)
    else
      match ReadFields(fs, bits)
      case Short(tag) => Short(tag)
      case Full(group, rest) => Extend([group], ReadGroups(fs, n - 1, rest))
  }

  // ---------- lengths ----------

  /** The error of the first field that does not fit into `available` bits. */
  function FirstMissing(fs: seq<Field>, available: nat): Tag
    requires available < Width(fs)
  {
    if available < fs[0].width then fs[0].tag else FirstMissing(fs[1..], available - fs[0].width)
  }

  lemma {:induction false} FieldsByLength(fs: seq<Field>, bits: seq<bool>)
    ensures var r := ReadFields(fs, bits);
      if |bits| >= Width(fs) then r.Full? && r.rest == bits[Width(fs)..]
      else r == Short(FirstMissing(fs, |bits|))
  {
    if fs != [] && |bits| >= fs[0].width {
      var w := fs[0].width;
      FieldsByLength(fs[1..], bits[w..]);
      if |bits| >= Width(fs) { assert bits[w..][Width(fs[1..])..] == bits[Width(fs)..]; }
    }
  }

  function GroupsWidth(fs: seq<Field>, n: nat): (w: nat)
    ensures w == n * Width(fs)
  {
    if n == 0 then 0
    else
      assert n * Width(fs) == Width(fs) + (n - 1) * Width(fs);
      Width(fs) + GroupsWidth(fs, n - 1)
  }

  /** What is left of `available` bits when as many whole groups of width w as possible are taken. */
  function Leftover(available: nat, w: nat): (r: nat)
    requires w > 0
    ensures r < w
    ensures exists k: nat :: available == k * w + r
  {
    if available < w then
      assert available == 0 * w + available;
      available
    else
      var r := Leftover(available - w, w);
      assert exists k: nat :: available == k * w + r by {
        var k: nat :| available - w == k * w + r;
        assert available == (k + 1) * w + r;
      }
      r
  }

  /** Groups fit exactly when all their bits are there; if not, the error is that of the first
      field missing in the first incomplete group. */
  lemma {:induction false} GroupsByLength(fs: seq<Field>, n: nat, bits: seq<bool>)
    requires Width(fs) > 0
    ensures var r := ReadGroups(fs, n, bits); var total := GroupsWidth(fs, n);
      if |bits| >= total then r.Full? && r.rest == bits[total..]
      else r == Short(FirstMissing(fs, Leftover(|bits|, Width(fs))))
  {
    hide ReadFields, FirstMissing, Width;
    var w := Width(fs);
    if n > 0 {
      FieldsByLength(fs, bits);
      if |bits| >= w {
        GroupsByLength(fs, n - 1, bits[w..]);
        if |bits| >= GroupsWidth(fs, n) {
          assert bits[w..][GroupsWidth(fs, n - 1)..] == bits[GroupsWidth(fs, n)..];
        }
      }
    }
  }

  lemma {:induction false} WidthAppend(a: seq<Field>, b: seq<Field>)
    ensures Width(a + b) == Width(a) + Width(b)
  {
    if a == [] {
      assert a + b == b;
    } else {
      WidthAppend(a[1..], b);
      assert a + b == [a[0]] + (a[1..] + b);
    }
  }

  lemma WidthOfOne(f: Field)
    ensures Width([f]) == f.width
  {
    assert [f][1..] == [];
  }

  // ---------- packing ----------

  predicate Fits(fs: seq<Field>, values: seq<nat>) {
    |fs| == |values| && forall i :: 0 <= i < |fs| ==> values[i] < Pow2(fs[i].width)
  }

  function PackFields(fs: seq<Field>, values: seq<nat>): seq<bool>
    requires |fs| == |values|
  {
    if fs == [] then [] else ToBits(values[0], fs[0].width) + PackFields(fs[1..], values[1..])
  }

  predicate AllLong(fs: seq<Field>, groups: seq<seq<nat>>) {
    forall g :: g in groups ==> |g| == |fs|
  }

  predicate AllFit(fs: seq<Field>, groups: seq<seq<nat>>) {
    forall g :: g in groups ==> Fits(fs, g)
  }

  function PackGroups(fs: seq<Field>, groups: seq<seq<nat>>): seq<bool>
    requires AllLong(fs, groups)
    decreases |groups|
  {
    if groups == [] then []
    else
      assert groups[0] in groups;
      PackFields(fs, groups[0]) + PackGroups(fs, groups[1..])
  }

  lemma {:induction false} FieldsRoundTrip(fs: seq<Field>, values: seq<nat>, tail: seq<bool>)
    requires Fits(fs, values)
    ensures ReadFields(fs, PackFields(fs, values) + tail) == Full(values, tail)
  {
    hide Pow2, Value, ToBits;
    if fs == [] {
      assert [] + tail == tail;
    } else {
      var head, more := ToBits(values[0], fs[0].width), PackFields(fs[1..], values[1..]);
      FieldsRoundTrip(fs[1..], values[1..], tail);
      ValueOfToBits(values[0], fs[0].width);
      assert head + more + tail == head + (more + tail);
      assert (head + (more + tail))[..fs[0].width] == head;
      assert (head + (more + tail))[fs[0].width..] == more + tail;
      assert values == [values[0]] + values[1..];
    }
  }

  lemma FirstFits(fs: seq<Field>, groups: seq<seq<nat>>)
    requires groups != [] && AllFit(fs, groups) && AllLong(fs, groups)
    ensures |groups[0]| == |fs| && Fits(fs, groups[0]) && AllFit(fs, groups[1..]) && AllLong(fs, groups[1..])
  {
    hide Fits;
    assert groups[0] in groups;
  }

  lemma ReadOneMore(fs: seq<Field>, n: nat, bits: seq<bool>, g: seq<nat>, rest: seq<bool>, more: seq<seq<nat>>,
                    tail: seq<bool>)
    requires ReadFields(fs, bits) == Full(g, rest) && ReadGroups(fs, n, rest) == Full(more, tail)
    ensures ReadGroups(fs, n + 1, bits) == Full([g] + more, tail)
  {
    hide ReadFields;
  }

  lemma {:induction false} GroupsRoundTrip(fs: seq<Field>, groups: seq<seq<nat>>, tail: seq<bool>)
    requires AllFit(fs, groups) && AllLong(fs, groups)
    ensures ReadGroups(fs, |groups|, PackGroups(fs, groups) + tail) == Full(groups, tail)
    decreases |groups|
  {
    hide Fits, ReadFields, PackFields, AllFit, AllLong;
    if groups == [] {
      assert [] + tail == tail;
    } else {
      hide ReadGroups;
      FirstFits(fs, groups);
      var head, more := PackFields(fs, groups[0]), PackGroups(fs, groups[1..]);
      GroupsRoundTrip(fs, groups[1..], tail);
      FieldsRoundTrip(fs, groups[0], more + tail);
      ReadOneMore(fs, |groups| - 1, head + (more + tail), groups[0], more + tail, groups[1..], tail);
      assert head + more + tail == head + (more + tail);
      assert groups == [groups[0]] + groups[1..];
    }
  }

  lemma {:induction false} PackedFieldsLength(fs: seq<Field>, values: seq<nat>)
    requires |fs| == |values|
    ensures |PackFields(fs, values)| == Width(fs)
  {
    if fs != [] { PackedFieldsLength(fs[1..], values[1..]); }
  }

  lemma {:induction false} PackedGroupsLength(fs: seq<Field>, groups: seq<seq<nat>>)
    requires AllLong(fs, groups)
    ensures |PackGroups(fs, groups)| == GroupsWidth(fs, |groups|)
    decreases |groups|
  {
    hide PackFields, Width;
    if groups != [] {
      assert groups[0] in groups;
      PackedFieldsLength(fs, groups[0]);
      PackedGroupsLength(fs, groups[1..]);
    }
  }

  /** Conversely, whatever was read packs back to the very bits it was read from. */
  lemma {:induction false} FieldsInverse(fs: seq<Field>, bits: seq<bool>)
    requires ReadFields(fs, bits).Full?
    ensures var r := ReadFields(fs, bits);
      Fits(fs, r.values) && PackFields(fs, r.values) + r.rest == bits
  {
    hide Value, ToBits, Pow2, Fits;
    if fs == [] {
      NothingFits();
      assert [] + bits == bits;
    } else {
      var w := fs[0].width;
      FieldsInverse(fs[1..], bits[w..]);
      var more := ReadFields(fs[1..], bits[w..]);
      FirstFieldFits(fs, Value(bits[..w]), more.values);
      ToBitsOfValue(bits[..w]);
      assert bits[..w] + PackFields(fs[1..], more.values) + more.rest
          == bits[..w] + (PackFields(fs[1..], more.values) + more.rest);
      assert bits == bits[..w] + bits[w..];
    }
  }

  lemma NothingFits()
    ensures Fits([], [])
  {
  }

  lemma FirstFieldFits(fs: seq<Field>, v: nat, more: seq<nat>)
    requires fs != [] && v < Pow2(fs[0].width) && Fits(fs[1..], more)
    ensures Fits(fs, [v] + more) && ([v] + more)[1..] == more
  {
  }

  lemma {:induction false} GroupsInverse(fs: seq<Field>, n: nat, bits: seq<bool>)
    requires ReadGroups(fs, n, bits).Full?
    ensures var r := ReadGroups(fs, n, bits);
      AllFit(fs, r.values) && AllLong(fs, r.values) && PackGroups(fs, r.values) + r.rest == bits
  {
    hide Fits, ReadFields, PackFields;
    if n == 0 {
      assert [] + bits == bits;
    } else {
      FieldsInverse(fs, bits);
      var first := ReadFields(fs, bits);
      GroupsInverse(fs, n - 1, first.rest);
      var more := ReadGroups(fs, n - 1, first.rest);
      var groups := [first.values] + more.values;
      assert groups[1..] == more.values;
      assert PackFields(fs, first.values) + PackGroups(fs, more.values) + more.rest
          == PackFields(fs, first.values) + (PackGroups(fs, more.values) + more.rest);
    }
  }

  // ---------- reading step by step ----------

  /** values have been read so far, and cur is what is left to read fs[|values|..] from. */
  predicate Midway(fs: seq<Field>, bits: seq<bool>, values: seq<nat>, cur: seq<bool>) {
    |values| <= |fs| && ReadFields(fs, bits) == Extend(values, ReadFields(fs[|values|..], cur))
  }

  lemma BeginFields(fs: seq<Field>, bits: seq<bool>)
    ensures Midway(fs, bits, [], bits)
  {
    assert fs[0..] == fs;
    ExtendByNothing(ReadFields(fs, bits));
  }

  lemma ExtendByNothing<T>(r: Outcome<seq<T>>)
    ensures Extend([], r) == r
  {
    if r.Full? { assert [] + r.values == r.values; }
  }

  lemma ExtendTwice<T>(a: seq<T>, b: seq<T>, r: Outcome<seq<T>>)
    ensures Extend(a, Extend(b, r)) == Extend(a + b, r)
  {
    if r.Full? { assert a + (b + r.values) == a + b + r.values; }
  }

  lemma NextField(fs: seq<Field>, bits: seq<bool>, values: seq<nat>, cur: seq<bool>)
    requires Midway(fs, bits, values, cur) && |values| < |fs|
    ensures var f := fs[|values|];
      if |cur| < f.width then ReadFields(fs, bits) == Short(f.tag)
      else Midway(fs, bits, values + [Value(cur[..f.width])], cur[f.width..])
  {
    var k := |values|;
    var w := fs[k].width;
    assert fs[k..][1..] == fs[k + 1..];
    if |cur| >= w {
      ExtendTwice(values, [Value(cur[..w])], ReadFields(fs[k + 1..], cur[w..]));
    }
  }

  lemma EndFields(fs: seq<Field>, bits: seq<bool>, values: seq<nat>, cur: seq<bool>)
    requires Midway(fs, bits, values, cur) && |values| == |fs|
    ensures ReadFields(fs, bits) == Full(values, cur)
  {
    assert fs[|fs|..] == [];
    assert values + [] == values;
  }

  predicate MidGroups(fs: seq<Field>, n: nat, bits: seq<bool>, groups: seq<seq<nat>>, cur: seq<bool>) {
    |groups| <= n && ReadGroups(fs, n, bits) == Extend(groups, ReadGroups(fs, n - |groups|, cur))
  }

  lemma BeginGroups(fs: seq<Field>, n: nat, bits: seq<bool>)
    ensures MidGroups(fs, n, bits, [], bits)
  {
    ExtendByNothing(ReadGroups(fs, n, bits));
  }

  lemma NextGroup(fs: seq<Field>, n: nat, bits: seq<bool>, groups: seq<seq<nat>>, cur: seq<bool>)
    requires MidGroups(fs, n, bits, groups, cur) && |groups| < n
    ensures match ReadFields(fs, cur)
      case Short(tag) => ReadGroups(fs, n, bits) == Short(tag)
      case Full(group, rest) => MidGroups(fs, n, bits, groups + [group], rest)
  {
    hide ReadFields;
    match ReadFields(fs, cur)
    case Short(tag) =>
    case Full(group, rest) =>
      ExtendTwice(groups, [group], ReadGroups(fs, n - |groups| - 1, rest));
  }

  lemma EndGroups(fs: seq<Field>, n: nat, bits: seq<bool>, groups: seq<seq<nat>>, cur: seq<bool>)
    requires MidGroups(fs, n, bits, groups, cur) && |groups| == n
    ensures ReadGroups(fs, n, bits) == Full(groups, cur)
  {
    assert groups + [] == groups;
  }
}
