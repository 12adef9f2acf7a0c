/** The two loaders: `load` of `replay` and `load_stream` of `fake_mpi`, on the tables they fill. */
module AccessUnits {
  import opened Bytes
  import opened AnnexB

  const MAX_NALS := 8192
  const MAX_UNITS := 4096

  // ----- the scans -----

  /** The table after `count` start codes: all but the last entry complete. */
  predicate Filled(s: seq<byte>, t: seq<Span>, count: nat, withCodes: bool) {
    var ms := Marks(s, 0);
    && count <= |ms| && count <= |t|
    && (forall k | 0 <= k < count :: t[k].p == (if withCodes then ms[k].at else ms[k].at + ms[k].sc))
    && (forall j, k | 0 <= j < count && 0 <= k < count && k == j + 1 :: t[j].p + t[j].len == ms[k].at)
  }

  /** Where a scan has come to: the start codes still ahead are those after the first `count`. */
  predicate At(s: seq<byte>, i: nat, count: nat) {
    count <= |Marks(s, 0)| && Marks(s, i) == Marks(s, 0)[count..]
  }

  /** The next entry is for the code at `at`, and its NAL is kept from `p` on. */
  predicate Entry(s: seq<byte>, count: nat, at: nat, p: nat, withCodes: bool) {
    count < |Marks(s, 0)| && Marks(s, 0)[count].at == at && p == if withCodes then at else at + Marks(s, 0)[count].sc
  }

  lemma AtNext(s: seq<byte>, i: nat, count: nat)
    requires At(s, i, count) && i + 3 < |s|
    ensures Code(s, i) == 0 ==> At(s, i + 1, count)
    ensures Code(s, i) > 0 ==> At(s, i + Code(s, i), count + 1)
    ensures Code(s, i) > 0 ==> Entry(s, count, i, i, true) && Entry(s, count, i, i + Code(s, i), false)
  {
    var ms := Marks(s, 0);
    if Code(s, i) > 0 {
      assert Marks(s, i)[0] == Mark(i, Code(s, i)) && ms[count..][0] == ms[count];
      assert ms[count..][1..] == ms[count + 1..];
      assert Marks(s, i)[1..] == Marks(s, i + Code(s, i));
    }
  }

  /** One more start code: the previous entry gets its length, the next one its place. */
  method AddNal(t: array<Span>, count: nat, at: nat, p: nat, ghost s: seq<byte>, ghost withCodes: bool)
    requires Filled(s, t[..], count, withCodes) && count < t.Length && Entry(s, count, at, p, withCodes)
    modifies t
    ensures Filled(s, t[..], count + 1, withCodes)
  {
    ghost var before := t[..];
    LastFits(s, before, count, withCodes);
    hide Marks, Filled;
    if count > 0 {
      t[count - 1] := Span(t[count - 1].p, at - t[count - 1].p);
    }
    t[count] := Span(p, 0);
    FilledNext(s, before, t[..], count, withCodes);
  }

  lemma FilledNext(s: seq<byte>, t: seq<Span>, u: seq<Span>, count: nat, withCodes: bool)
    requires Filled(s, t, count, withCodes) && |u| == |t| && count < |t| && count < |Marks(s, 0)|
    requires var m := Marks(s, 0)[count];
             && u[count].p == (if withCodes then m.at else m.at + m.sc)
             && (count > 0 ==> u[count - 1].p == t[count - 1].p && u[count - 1].p + u[count - 1].len == m.at)
             && forall k | 0 <= k < count - 1 :: u[k] == t[k]
    ensures Filled(s, u, count + 1, withCodes)
  {
    hide Marks;
  }

  lemma LastFits(s: seq<byte>, t: seq<Span>, count: nat, withCodes: bool)
    requires Filled(s, t, count, withCodes)
    ensures count > 0 ==> t[count - 1].p <= |s|
    ensures 0 < count < |Marks(s, 0)| ==> t[count - 1].p <= Marks(s, 0)[count].at
  {
    if count > 0 {
      var m := Marks(s, 0)[count - 1];
      assert m.at + 3 < |s| && m.sc == Code(s, m.at);
    }
    hide Marks;
  }

  /** The table `replay` or `fake_mpi` ends up with. */
  function Table(s: seq<byte>, withCodes: bool): (t: seq<Span>)
    ensures |t| == |Marks(s, 0)|
  {
    if withCodes then Coded(s) else Nals(s)
  }

  lemma TableAt(s: seq<byte>, withCodes: bool, k: nat)
    requires k < |Marks(s, 0)|
    ensures var u, m := Table(s, withCodes)[k], Marks(s, 0)[k];
            u.p == (if withCodes then m.at else m.at + m.sc) && u.p + u.len == End(s, Marks(s, 0), k)
  {
    hide Marks;
  }

  lemma FilledAt(s: seq<byte>, t: seq<Span>, withCodes: bool, k: nat)
    requires k < |Marks(s, 0)| && Filled(s, t, |Marks(s, 0)|, withCodes)
    requires t[|Marks(s, 0)| - 1].p + t[|Marks(s, 0)| - 1].len == |s|
    ensures t[k] == Table(s, withCodes)[k]
  {
    hide Marks, Table;
    TableAt(s, withCodes, k);
  }

  lemma Complete(s: seq<byte>, t: seq<Span>, withCodes: bool)
    requires |Marks(s, 0)| > 0 && Filled(s, t, |Marks(s, 0)|, withCodes)
    requires t[|Marks(s, 0)| - 1].p + t[|Marks(s, 0)| - 1].len == |s|
    ensures t[..|Marks(s, 0)|] == Table(s, withCodes)
  {
    hide Marks, Table;
    forall k | 0 <= k < |Marks(s, 0)|
      ensures t[k] == Table(s, withCodes)[k]
    {
      FilledAt(s, t, withCodes, k);
    }
    hide Filled;
  }

  /** The scanning loop of `load` and of `load_stream`, which differ in whether an entry keeps its start code. */
  method Scan(s: seq<byte>, nals: array<Span>, withCodes: bool) returns (count: nat)
    requires nals.Length == MAX_NALS && 1 <= |Marks(s, 0)| <= MAX_NALS
    modifies nals
    ensures count <= nals.Length && nals[..count] == Table(s, withCodes)
  {
    hide *;
    var n := |s|;
    var i := 0;
    count := 0;
    Begin(s, nals[..], withCodes);
    while i + 3 < n
      invariant i <= n
      invariant At(s, i, count) && Filled(s, nals[..], count, withCodes)
      decreases n - i
    {
      var sc := StartCodeAt(s, i);
      AtNext(s, i, count);
      if sc == 0 {
        i := i + 1;
      } else {
        AddNal(nals, count, i, if withCodes then i else i + sc, s, withCodes);
        count, i := count + 1, i + sc;
      }
    }
    AtEnd(s, i, count);
    CloseLast(nals, count, n, s, withCodes);
  }

  method StartCodeAt(s: seq<byte>, i: nat) returns (sc: nat)
    requires i + 3 < |s|
    ensures sc == Code(s, i) && i + sc <= |s|
  {
    if s[i] == 0 && s[i + 1] == 0 && s[i + 2] == 1 {
      sc := 3;
    } else if s[i] == 0 && s[i + 1] == 0 && s[i + 2] == 0 && s[i + 3] == 1 {
      sc := 4;
    } else {
      sc := 0;
    }
  }

  lemma Begin(s: seq<byte>, t: seq<Span>, withCodes: bool)
    ensures At(s, 0, 0) && Filled(s, t, 0, withCodes)
  {
    assert Marks(s, 0)[0..] == Marks(s, 0);
  }

  lemma AtEnd(s: seq<byte>, i: nat, count: nat)
    requires At(s, i, count) && i + 3 >= |s|
    ensures count == |Marks(s, 0)|
  {
    assert Marks(s, i) == [];
  }

  /** The last NAL ends with the stream. */
  method CloseLast(t: array<Span>, count: nat, n: nat, ghost s: seq<byte>, ghost withCodes: bool)
    requires 0 < count == |Marks(s, 0)| && n == |s| && Filled(s, t[..], count, withCodes)
    modifies t
    ensures t[..count] == Table(s, withCodes)
  {
    ghost var before := t[..];
    LastFits(s, before, count, withCodes);
    hide Marks, Filled;
    t[count - 1] := Span(t[count - 1].p, n - t[count - 1].p);
    FilledClosed(s, before, t[..], count, withCodes);
    Complete(s, t[..], withCodes);
  }

  lemma FilledClosed(s: seq<byte>, t: seq<Span>, u: seq<Span>, count: nat, withCodes: bool)
    requires Filled(s, t, count, withCodes) && 0 < count && |u| == |t|
    requires u[count - 1].p == t[count - 1].p && forall k | 0 <= k < count - 1 :: u[k] == t[k]
    ensures Filled(s, u, count, withCodes)
  {
    hide Marks;
  }

  // ----- access units -----

  /** Types 1 to 5 are coded slices: each ends an access unit. */
  predicate Slice(t: nat) {
    1 <= t <= 5
  }

  /** How many of `types` are slices. */
  function Slices(types: seq<nat>): (n: nat)
    ensures n <= |types|
    decreases |types|
  {
    if types == [] then 0 else Slices(types[..|types| - 1]) + (if Slice(types[|types| - 1]) then 1 else 0)
  }

  /** `access_unit_t`; `replay` keeps the first two in tables of their own and has no use for the third. */
  datatype AccessUnit = AccessUnit(first: nat, count: nat, idr: bool)

  /** Where the unit after these begins. */
  function EndOf(units: seq<AccessUnit>): nat {
    if units == [] then 0 else units[|units| - 1].first + units[|units| - 1].count
  }

  predicate NoSlice(types: seq<nat>, from: nat, to: nat) {
    from <= to <= |types| && forall j | from <= j < to :: !Slice(types[j])
  }

  /** `u` is a range of NALs that ends in a slice, its only one. */
  predicate EndsInOnlySlice(types: seq<nat>, u: AccessUnit) {
    && u.count >= 1 && u.first + u.count <= |types|
    && NoSlice(types, u.first, u.first + u.count - 1)
    && Slice(types[u.first + u.count - 1]) && u.idr == (types[u.first + u.count - 1] == 5)
  }

  /** The units are consecutive from the first NAL on, each ending in its only slice. */
  predicate Tiles(types: seq<nat>, units: seq<AccessUnit>)
    decreases |units|
  {
    units == [] ||
    (var front, u := units[..|units| - 1], units[|units| - 1];
     Tiles(types, front) && EndsInOnlySlice(types, u) && u.first == EndOf(front))
  }

  /** The access units of a stream: no slice is left after the last. */
  predicate AccessUnitsOf(types: seq<nat>, units: seq<AccessUnit>) {
    Tiles(types, units) && NoSlice(types, EndOf(units), |types|)
  }

  /** What `Tiles` says of the `i`-th unit. */
  lemma {:induction false} TilesAt(types: seq<nat>, units: seq<AccessUnit>, i: nat)
    requires Tiles(types, units) && i < |units|
    ensures EndsInOnlySlice(types, units[i])
    ensures units[i].first == (if i == 0 then 0 else units[i - 1].first + units[i - 1].count)
    decreases |units|
  {
    hide EndsInOnlySlice;
    if i < |units| - 1 {
      TilesAt(types, units[..|units| - 1], i);
    }
  }

  /** Types 1 to 5 end access units, and nothing else does: each unit's last NAL is of such a type, no other NAL
      is in any unit or after the last, and 5 marks an IDR. */
  lemma UnitsBySlices(types: seq<nat>, units: seq<AccessUnit>, i: nat, j: nat)
    requires AccessUnitsOf(types, units) && i < |units|
    ensures var u := units[i];
            && u.count >= 1 && u.first + u.count <= |types|
            && (u.first <= j < u.first + u.count ==> (1 <= types[j] <= 5 <==> j == u.first + u.count - 1))
            && (u.idr <==> types[u.first + u.count - 1] == 5)
    ensures EndOf(units) <= j < |types| ==> !(1 <= types[j] <= 5)
  {
    TilesAt(types, units, i);
    hide Tiles;
  }

  lemma EndIsSlice(types: seq<nat>, units: seq<AccessUnit>)
    requires Tiles(types, units) && units != []
    ensures 1 <= EndOf(units) <= |types| && Slice(types[EndOf(units) - 1])
  {
  }

  /** There is only one way to do that. */
  lemma {:induction false} UnitsUnique(types: seq<nat>, u: seq<AccessUnit>, v: seq<AccessUnit>, k: nat)
    requires Tiles(types, u) && Tiles(types, v) && NoSlice(types, EndOf(u), k) && NoSlice(types, EndOf(v), k)
    ensures u == v
    decreases |u|
  {
    SameEnd(types, u, v, k);
    if u != [] {
      var x, y := u[..|u| - 1], v[..|v| - 1];
      SameLast(types, u, v);
      assert NoSlice(types, EndOf(x), EndOf(x));
      hide EndsInOnlySlice, NoSlice;
      UnitsUnique(types, x, y, EndOf(x));
      assert u == x + [u[|u| - 1]] && v == y + [v[|v| - 1]];
    }
  }

  lemma SameEnd(types: seq<nat>, u: seq<AccessUnit>, v: seq<AccessUnit>, k: nat)
    requires Tiles(types, u) && Tiles(types, v) && NoSlice(types, EndOf(u), k) && NoSlice(types, EndOf(v), k)
    ensures EndOf(u) == EndOf(v) && (u == [] <==> v == [])
  {
    if u != [] {
      EndIsSlice(types, u);
    }
    if v != [] {
      EndIsSlice(types, v);
    }
    hide Tiles, Slice;
  }

  lemma SameLast(types: seq<nat>, u: seq<AccessUnit>, v: seq<AccessUnit>)
    requires Tiles(types, u) && Tiles(types, v) && u != [] && v != [] && EndOf(u) == EndOf(v)
    ensures u[|u| - 1] == v[|v| - 1]
  {
    NotLater(types, u, v);
    NotLater(types, v, u);
    hide Slice, NoSlice;
  }

  lemma NotLater(types: seq<nat>, u: seq<AccessUnit>, v: seq<AccessUnit>)
    requires Tiles(types, u) && Tiles(types, v) && u != [] && v != [] && EndOf(u) == EndOf(v)
    ensures v[|v| - 1].first <= u[|u| - 1].first
  {
    var front := v[..|v| - 1];
    if front != [] {
      EndIsSlice(types, front);
      var j: nat := EndOf(front) - 1;
      assert Slice(types[j]) && j == v[|v| - 1].first - 1;
    }
    hide Slice;
  }

  /** The units once NAL `k` is looked at: a slice closes the open one. */
  function WithNal(units: seq<AccessUnit>, k: nat, t: nat): seq<AccessUnit>
    requires EndOf(units) <= k
  {
    if Slice(t) then units + [AccessUnit(EndOf(units), k - EndOf(units) + 1, t == 5)] else units
  }

  lemma TilesNext(types: seq<nat>, units: seq<AccessUnit>, k: nat)
    requires Tiles(types, units) && NoSlice(types, EndOf(units), k) && k < |types|
    ensures var more := WithNal(units, k, types[k]);
            && Tiles(types, more) && NoSlice(types, EndOf(more), k + 1)
            && |more| == |units| + (if Slice(types[k]) then 1 else 0)
  {
    if Slice(types[k]) {
      var more := WithNal(units, k, types[k]);
      assert more[..|more| - 1] == units;
    }
    hide Slice;
  }

  lemma SlicesNext(types: seq<nat>, k: nat)
    requires k < |types|
    ensures Slices(types[..k + 1]) == Slices(types[..k]) + (if Slice(types[k]) then 1 else 0)
    ensures Slices(types[..k + 1]) <= Slices(types)
    decreases |types| - k
  {
    assert types[..k + 1][..k] == types[..k];
    if k + 1 < |types| {
      SlicesNext(types, k + 1);
    } else {
      assert types[..k + 1] == types;
    }
  }

  /** The NAL type after the start code at `p`. */
  function TypeAt(s: seq<byte>, p: nat): nat
    requires p < |s|
  {
    s[p] as int % 0x20
  }

  /** Every NAL has a first octet: only a four-octet start code at the very end lacks one. */
  predicate Headed(s: seq<byte>) {
    forall k | 0 <= k < |Nals(s)| :: Nals(s)[k].p < |s|
  }

  predicate EndsInCode(s: seq<byte>) {
    && |s| >= 4
    && s[|s| - 4] == 0 && s[|s| - 3] == 0 && s[|s| - 2] == 0 && s[|s| - 1] == 1
  }

  /** No start code before it runs into the one at the end. */
  lemma ScanReachesEnd(s: seq<byte>, i: nat)
    requires EndsInCode(s) && i + 4 < |s|
    ensures i + Code(s, i) + 4 <= |s|
  {
  }

  lemma {:induction false} EndMarked(s: seq<byte>, i: nat)
    requires i + 4 <= |s| && EndsInCode(s)
    ensures Mark(|s| - 4, 4) in Marks(s, i)
    decreases |s| - i
  {
    if i + 4 < |s| {
      ScanReachesEnd(s, i);
      hide EndsInCode, Code;
      EndMarked(s, if Code(s, i) == 0 then i + 1 else i + Code(s, i));
    }
  }

  /** A stream is headed unless it ends with a four-octet start code. */
  lemma HeadedExactly(s: seq<byte>)
    ensures Headed(s) <==> !EndsInCode(s)
  {
    if EndsInCode(s) {
      EndMarked(s, 0);
      LastNal(s);
    } else {
      hide EndsInCode, Nals;
      forall k | 0 <= k < |Nals(s)|
        ensures Nals(s)[k].p < |s|
      {
        HasFirst(s, k);
      }
    }
  }

  lemma LastNal(s: seq<byte>)
    requires |s| >= 4 && Mark(|s| - 4, 4) in Marks(s, 0)
    ensures !Headed(s)
  {
    NalsAre(s);
    hide Nals, Marks;
    var k :| 0 <= k < |Marks(s, 0)| && Marks(s, 0)[k] == Mark(|s| - 4, 4);
    assert Nals(s)[k].p == |s|;
  }

  lemma HasFirst(s: seq<byte>, k: nat)
    requires !EndsInCode(s) && k < |Nals(s)|
    ensures Nals(s)[k].p < |s|
  {
    NalsAre(s);
    var m := Marks(s, 0)[k];
    assert m.at + 3 < |s| && m.sc == Code(s, m.at);
    hide Nals, Marks;
  }

  lemma NalsAre(s: seq<byte>)
    ensures |Nals(s)| == |Marks(s, 0)|
    ensures forall k | 0 <= k < |Nals(s)| :: Nals(s)[k].p == Marks(s, 0)[k].at + Marks(s, 0)[k].sc
  {
    hide Marks;
  }

  function Types(s: seq<byte>): seq<nat>
    requires Headed(s)
  {
    seq(|Nals(s)|, k requires 0 <= k < |Nals(s)| => TypeAt(s, Nals(s)[k].p))
  }

  /** What is grouped after the first `k` NALs. */
  predicate Grouped(types: seq<nat>, units: seq<AccessUnit>, k: nat) {
    Tiles(types, units) && NoSlice(types, EndOf(units), k) && |units| == Slices(types[..k])
  }

  lemma GroupedNext(types: seq<nat>, units: seq<AccessUnit>, k: nat)
    requires Grouped(types, units, k) && k < |types|
    ensures EndOf(units) <= k < |types| && Grouped(types, WithNal(units, k, types[k]), k + 1)
    ensures Slice(types[k]) ==> |units| < Slices(types)
  {
    TilesNext(types, units, k);
    SlicesNext(types, k);
    GroupedEnd(types, units, k);
    hide Tiles, NoSlice, Slices, Slice, WithNal;
  }

  lemma GroupedEnd(types: seq<nat>, units: seq<AccessUnit>, k: nat)
    requires Grouped(types, units, k)
    ensures EndOf(units) <= k <= |types|
  {
  }

  lemma GroupedNone(types: seq<nat>)
    ensures Grouped(types, [], 0) && EndOf([]) == 0
  {
  }

  lemma GroupedAll(types: seq<nat>, units: seq<AccessUnit>)
    requires Grouped(types, units, |types|)
    ensures AccessUnitsOf(types, units) && |units| == Slices(types)
  {
    assert types[..|types|] == types;
  }

  /** The octet `nal_type` looks at is the one after the start code. */
  lemma TypeOfCoded(s: seq<byte>, k: nat)
    requires Headed(s) && k < |Marks(s, 0)|
    ensures var p := Coded(s)[k].p;
            p + 3 < |s| && p + (if s[p + 2] == 1 then 3 else 4) == Nals(s)[k].p < |s|
    ensures |Types(s)| == |Marks(s, 0)| && Types(s)[k] == TypeAt(s, Nals(s)[k].p)
  {
    assert Marks(s, 0)[k].at + 3 < |s| && Marks(s, 0)[k].sc == Code(s, Marks(s, 0)[k].at);
    hide Marks;
  }

  /** `nal_type`. */
  method CodedNalType(s: seq<byte>, nal: Span, ghost k: nat) returns (t: nat)
    requires Headed(s) && k < |Marks(s, 0)| && nal == Coded(s)[k]
    ensures k < |Types(s)| && t == Types(s)[k]
  {
    TypeOfCoded(s, k);
    hide Marks, Headed, Types, Nals, Coded;
    t := s[nal.p + (if s[nal.p + 2] == 1 then 3 else 4)] as int % 0x20;
  }

  /** The octet `load` looks at is the NAL's first. */
  method NalType(s: seq<byte>, nal: Span, ghost k: nat) returns (t: nat)
    requires Headed(s) && k < |Marks(s, 0)| && nal == Nals(s)[k]
    ensures k < |Types(s)| && t == Types(s)[k]
  {
    TypeOfCoded(s, k);
    hide Marks, Headed, Types, Coded, Nals;
    t := s[nal.p] as int % 0x20;
  }

  /** The two tables hold `units`. */
  predicate Tables(first: seq<nat>, counts: seq<nat>, units: seq<AccessUnit>) {
    && |units| <= |first| && |units| <= |counts|
    && forall i | 0 <= i < |units| :: first[i] == units[i].first && counts[i] == units[i].count
  }

  lemma TablesNone(first: seq<nat>, counts: seq<nat>)
    ensures Tables(first, counts, [])
  {
  }

  /** What is done about NAL `k`, of type `t`. */
  method GroupNal(auFirst: array<nat>, auCount: array<nat>, n: nat, start: nat, k: nat, t: nat, ghost units: seq<AccessUnit>)
    returns (n': nat, start': nat)
    requires auFirst != auCount && auFirst.Length == auCount.Length && Tables(auFirst[..], auCount[..], units)
    requires n == |units| && start == EndOf(units) && start <= k && (Slice(t) ==> n < auFirst.Length)
    modifies auFirst, auCount
    ensures Tables(auFirst[..], auCount[..], WithNal(units, k, t))
    ensures n' == |WithNal(units, k, t)| && start' == EndOf(WithNal(units, k, t))
  {
    n', start' := n, start;
    if t < 1 || t > 5 {
      return;
    }
    auFirst[n] := start;
    auCount[n] := k - start + 1;
    n', start' := n + 1, k + 1;
  }

  /** The grouping of `load`: two tables, that together are the access units of the stream. */
  method GroupNals(s: seq<byte>, nals: array<Span>, count: nat, auFirst: array<nat>, auCount: array<nat>)
    returns (n: nat, ghost units: seq<AccessUnit>)
    requires auFirst != auCount && auFirst.Length == auCount.Length == MAX_UNITS && count <= nals.Length
    requires Headed(s) && nals[..count] == Nals(s) && Slices(Types(s)) <= MAX_UNITS
    modifies auFirst, auCount
    ensures AccessUnitsOf(Types(s), units) && n == |units|
    ensures Tables(auFirst[..], auCount[..], units)
  {
    hide *;
    ghost var types, table := Types(s), Nals(s);
    var start := 0;
    n, units := 0, [];
    GroupedNone(types);
    TypesCount(s);
    TablesNone(auFirst[..], auCount[..]);
    for k := 0 to count
      invariant nals[..count] == table
      invariant Grouped(types, units, k) && start == EndOf(units) && n == |units|
      invariant Tables(auFirst[..], auCount[..], units)
    {
      assert nals[k] == table[k];
      var t := NalType(s, nals[k], k);
      GroupedNext(types, units, k);
      n, start := GroupNal(auFirst, auCount, n, start, k, t, units);
      units := WithNal(units, k, t);
    }
    GroupedAll(types, units);
  }

  method GroupCodedNal(aus: array<AccessUnit>, n: nat, start: nat, k: nat, t: nat) returns (n': nat, start': nat)
    requires n <= aus.Length && start == EndOf(aus[..n]) <= k && (Slice(t) ==> n < aus.Length)
    modifies aus
    ensures n' <= aus.Length && aus[..n'] == WithNal(old(aus[..n]), k, t) && start' == EndOf(aus[..n'])
  {
    n', start' := n, start;
    if t < 1 || t > 5 {
      return;
    }
    aus[n] := AccessUnit(start, k - start + 1, t == 5);
    n', start' := n + 1, k + 1;
  }

  /** The grouping of `load_stream`. */
  method GroupCoded(s: seq<byte>, nals: array<Span>, count: nat, aus: array<AccessUnit>) returns (n: nat)
    requires aus.Length == MAX_UNITS && count <= nals.Length
    requires Headed(s) && nals[..count] == Coded(s) && Slices(Types(s)) <= MAX_UNITS
    modifies aus
    ensures n <= MAX_UNITS && AccessUnitsOf(Types(s), aus[..n])
  {
    hide *;
    ghost var types, table := Types(s), Coded(s);
    var start := 0;
    n := 0;
    GroupedNone(types);
    TypesCount(s);
    assert aus[..0] == [];
    for k := 0 to count
      invariant nals[..count] == table
      invariant n <= MAX_UNITS && Grouped(types, aus[..n], k) && start == EndOf(aus[..n])
    {
      assert nals[k] == table[k];
      var t := CodedNalType(s, nals[k], k);
      GroupedNext(types, aus[..n], k);
      n, start := GroupCodedNal(aus, n, start, k, t);
    }
    GroupedAll(types, aus[..n]);
  }

  lemma TypesCount(s: seq<byte>)
    requires Headed(s)
    ensures |Types(s)| == |Nals(s)| == |Coded(s)| == |Marks(s, 0)|
  {
    hide Marks;
  }

  /** What the tables of both loaders are sized for; a file without a start code, or one that ends with a
      four-octet code, makes them read or write out of bounds. */
  predicate Loadable(s: seq<byte>) {
    1 <= |Marks(s, 0)| <= MAX_NALS && !EndsInCode(s) && Headed(s) && Slices(Types(s)) <= MAX_UNITS
  }

  /** `load`. */
  method Load(s: seq<byte>, nals: array<Span>, auFirst: array<nat>, auCount: array<nat>)
    returns (count: nat, n: nat, ghost units: seq<AccessUnit>)
    requires nals.Length == MAX_NALS && auFirst != auCount && auFirst.Length == auCount.Length == MAX_UNITS && Loadable(s)
    modifies nals, auFirst, auCount
    ensures count <= nals.Length && nals[..count] == Nals(s)
    ensures Headed(s) && AccessUnitsOf(Types(s), units) && n == |units| && Tables(auFirst[..], auCount[..], units)
  {
    hide Marks, Headed, Nals, Coded, Types, Slices, EndsInCode;
    count := Scan(s, nals, false);
    n, units := GroupNals(s, nals, count, auFirst, auCount);
  }

  /** `load_stream`. */
  method LoadStream(s: seq<byte>, nals: array<Span>, aus: array<AccessUnit>) returns (count: nat, n: nat)
    requires nals.Length == MAX_NALS && aus.Length == MAX_UNITS && Loadable(s)
    modifies nals, aus
    ensures count <= nals.Length && nals[..count] == Coded(s)
    ensures n <= MAX_UNITS && Headed(s) && AccessUnitsOf(Types(s), aus[..n])
  {
    hide Marks, Headed, Nals, Coded, Types, Slices, EndsInCode;
    count := Scan(s, nals, true);
    n := GroupCoded(s, nals, count, aus);
  }

  /** Of the same file, the two loaders make the same access units. */
  lemma LoadersAgree(s: seq<byte>, u: seq<AccessUnit>, v: seq<AccessUnit>)
    requires Headed(s) && AccessUnitsOf(Types(s), u) && AccessUnitsOf(Types(s), v)
    ensures u == v
  {
    UnitsUnique(Types(s), u, v, |Types(s)|);
  }

  // ----- what was serialized is loaded -----

  function TypesOf(units: seq<Unit>): seq<nat>
    requires forall u | u in units :: Plain(u.nal)
  {
    seq(|units|, k requires 0 <= k < |units| => assert Plain(units[k].nal); units[k].nal[0] as int % 0x20)
  }

  lemma EndsInLater(a: seq<byte>, b: seq<byte>)
    requires |b| >= 4
    ensures EndsInCode(a + b) == EndsInCode(b)
  {
    var s := a + b;
    assert s[|s| - 4] == b[|b| - 4] && s[|s| - 3] == b[|b| - 3] && s[|s| - 2] == b[|b| - 2] && s[|s| - 1] == b[|b| - 1];
  }

  /** A plain NAL after a start code does not end in one. */
  lemma PlainEnd(long: bool, nal: seq<byte>)
    requires Plain(nal)
    ensures |StartCode(long) + nal| >= 4 && !EndsInCode(StartCode(long) + nal)
  {
    var s, n := StartCode(long) + nal, |nal|;
    if n >= 3 {
      assert s[|s| - 3] == nal[n - 3] && s[|s| - 2] == nal[n - 2] && s[|s| - 1] == nal[n - 1];
      assert !(nal[n - 3] == 0 && nal[n - 2] == 0 && nal[n - 1] == 1);
    } else if n == 2 {
      assert s[|s| - 3] == 1;
    } else {
      assert s[|s| - 2] == 1;
    }
  }

  lemma {:induction false} SerializedEnd(units: seq<Unit>)
    requires units != [] && forall u | u in units :: Plain(u.nal)
    ensures |Serialize(units)| >= 4 && !EndsInCode(Serialize(units))
    decreases |units|
  {
    hide Plain, EndsInCode, StartCode;
    var u, rest := units[0], units[1..];
    assert u in units;
    PlainEnd(u.long, u.nal);
    if rest == [] {
      assert StartCode(u.long) + u.nal + [] == StartCode(u.long) + u.nal;
    } else {
      assert forall v | v in rest :: v in units;
      SerializedEnd(rest);
      EndsInLater(StartCode(u.long) + u.nal, Serialize(rest));
    }
  }

  lemma SerializedTypes(units: seq<Unit>, k: nat)
    requires (forall u | u in units :: Plain(u.nal)) && k < |units|
    ensures var s := Serialize(units);
            && |Nals(s)| == |units| && Nals(s)[k].p < |s|
            && s[Nals(s)[k].p] == (assert Plain(units[k].nal); units[k].nal[0])
  {
    hide Marks, Serialize, Nals, Follows, HasCode;
    var s := Serialize(units);
    Whole(units);
    MarksOfSerialized(s, 0, units);
    PlacesLength(units, 0);
    PlacesAt(s, 0, units, k);
    PlacedOctets(s, k, units[k].nal);
    assert Octets(s, Nals(s)[k])[0] == units[k].nal[0];
  }

  lemma Whole(units: seq<Unit>)
    ensures Follows(Serialize(units), 0, units)
  {
    assert Serialize(units)[0..] == Serialize(units);
  }

  /** A stream of plain NAL units, as many as the tables hold, can be loaded, and its types are theirs. */
  lemma {:induction false} SerializedLoadable(units: seq<Unit>)
    requires 1 <= |units| <= MAX_NALS && forall u | u in units :: Plain(u.nal)
    requires Slices(TypesOf(units)) <= MAX_UNITS
    ensures Loadable(Serialize(units)) && Types(Serialize(units)) == TypesOf(units)
  {
    hide Plain, EndsInCode, Serialize, Slices, Nals, Marks;
    var s := Serialize(units);
    SerializedEnd(units);
    HeadedExactly(s);
    Whole(units);
    MarksOfSerialized(s, 0, units);
    PlacesLength(units, 0);
    TypesCount(s);
    forall k | 0 <= k < |units|
      ensures Types(s)[k] == TypesOf(units)[k]
    {
      SerializedTypes(units, k);
    }
    assert Types(s) == TypesOf(units);
  }

  /** `load` gives back what was serialized: the NAL units, whatever start codes separate them, and the access
      units of their types. */
  method LoadSerialized(units: seq<Unit>, nals: array<Span>, auFirst: array<nat>, auCount: array<nat>)
    returns (count: nat, n: nat, ghost aus: seq<AccessUnit>)
    requires 1 <= |units| <= MAX_NALS && forall u | u in units :: Plain(u.nal)
    requires Slices(TypesOf(units)) <= MAX_UNITS
    requires nals.Length == MAX_NALS && auFirst != auCount && auFirst.Length == auCount.Length == MAX_UNITS
    modifies nals, auFirst, auCount
    ensures count == |units|
    ensures forall k | 0 <= k < count :: Holds(Serialize(units), nals[k], units[k].nal)
    ensures AccessUnitsOf(TypesOf(units), aus) && n == |aus| && Tables(auFirst[..], auCount[..], aus)
  {
    hide *;
    SerializedLoadable(units);
    count, n, aus := Load(Serialize(units), nals, auFirst, auCount);
    ghost var table := Nals(Serialize(units));
    SpansOfSerialized(units);
    assert forall k | 0 <= k < count :: nals[k] == nals[..count][k] == table[k];
  }

  /** The span's octets are the NAL. */
  predicate Holds(s: seq<byte>, x: Span, nal: seq<byte>) {
    x.p + x.len <= |s| && Octets(s, x) == nal
  }

  lemma SpansOfSerialized(units: seq<Unit>)
    requires forall u | u in units :: Plain(u.nal)
    ensures |Nals(Serialize(units))| == |units|
    ensures forall k | 0 <= k < |units| :: Holds(Serialize(units), Nals(Serialize(units))[k], units[k].nal)
  {
    hide Marks, Serialize, Nals, Follows, Plain, Placed;
    var s := Serialize(units);
    Whole(units);
    MarksOfSerialized(s, 0, units);
    PlacesLength(units, 0);
    NalsAre(s);
    forall k | 0 <= k < |units|
      ensures Holds(s, Nals(s)[k], units[k].nal)
    {
      PlacesAt(s, 0, units, k);
      PlacedOctets(s, k, units[k].nal);
    }
  }
}
