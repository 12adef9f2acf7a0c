/** `base64_encode` and `base64_decode` against RFC 4648, section 4. */
module Base64 {
  import opened Bytes

  type sextet = v: int | 0 <= v < 64

  const PAD: byte := 61

  /** `b64_tab[v]` */
  function Symbol(v: sextet): byte {
    if v < 26 then 65 + v
    else if v < 52 then 97 + (v - 26)
    else if v < 62 then 48 + (v - 52)
    else if v == 62 then 43 else 47
  }

  /** `b64_val(c)`, `None` for -1 */
  function Value(c: byte): Option<sextet> {
    if 65 <= c <= 90 then Some(c - 65)
    else if 97 <= c <= 122 then Some(c - 97 + 26)
    else if 48 <= c <= 57 then Some(c - 48 + 52)
    else if c == 43 then Some(62)
    else if c == 47 then Some(63)
    else None
  }

  const UPPER := "ABCDEFGHIJKLMNOPQRSTUVWXYZ"
  const LOWER := "abcdefghijklmnopqrstuvwxyz"
  const OTHERS := "0123456789+/"
  const TABLE := UPPER + LOWER + OTHERS

  lemma Letters(k: nat)
    requires k < 26
    ensures |UPPER| == |LOWER| == 26 && UPPER[k] as int == 65 + k && LOWER[k] as int == 97 + k
  {
  }

  lemma Others(k: nat)
    requires k < 12
    ensures |OTHERS| == 12 && OTHERS[k] as int == if k < 10 then 48 + k else if k == 10 then 43 else 47
  {
  }

  lemma Joined(a: string, b: string, c: string, v: sextet)
    requires |a| == |b| == 26 && |c| == 12
    requires a[v % 26] as int == 65 + v % 26 && b[v % 26] as int == 97 + v % 26
    requires var k := if v < 52 then 0 else v - 52;
             c[k] as int == if k < 10 then 48 + k else if k == 10 then 43 else 47
    ensures |a + b + c| == 64 && Symbol(v) as int == (a + b + c)[v] as int
  {
  }

  /** The alphabet, in order. */
  lemma SymbolIs(v: sextet)
    ensures |TABLE| == 64 && Symbol(v) as int == TABLE[v] as int
  {
    hide UPPER, LOWER, OTHERS;
    Letters(v % 26);
    Others(if v < 52 then 0 else v - 52);
    Joined(UPPER, LOWER, OTHERS, v);
  }

  /** Decoding looks an octet up in it: nothing outside the alphabet has a value. */
  lemma ValueExactly(c: byte, v: sextet)
    ensures Value(c) == Some(v) <==> c as int == TABLE[v] as int
  {
    SymbolIs(v);
  }

  lemma ValueOfSymbol(v: sextet)
    ensures Value(Symbol(v)) == Some(v) && Symbol(v) != PAD && Symbol(v) != 0
  {
  }

  // ----- encoding -----

  /** The 24-bit word of the next three octets, missing ones being 0. */
  function Word(b: seq<byte>): nat
    requires b != []
  {
    b[0] as int * 0x1_0000 + (if |b| > 1 then b[1] as int * 0x100 else 0) + if |b| > 2 then b[2] else 0
  }

  function Group(b: seq<byte>): (r: seq<byte>)
    requires b != []
    ensures |r| == 4
  {
    var v := Word(b);
    [Symbol(v / 0x4_0000 % 64), Symbol(v / 0x1000 % 64),
     if |b| > 1 then Symbol(v / 64 % 64) else PAD, if |b| > 2 then Symbol(v % 64) else PAD]
  }

  function Encode(b: seq<byte>): (r: seq<byte>)
    ensures |r| == 4 * ((|b| + 2) / 3)
    decreases |b|
  {
    if b == [] then [] else Group(b) + Encode(Tail(b))
  }

  function Tail(b: seq<byte>): seq<byte> {
    if |b| > 3 then b[3..] else []
  }

  predicate Letter(c: byte, v: nat) {
    v < 64 && c as int == TABLE[v] as int
  }

  /** The next three octets, or the last one or two, as a 24-bit number spelt in four letters of six bits, with a
      pad for each letter that has none of them. */
  predicate Spells(b: seq<byte>, r: seq<byte>)
    requires b != [] && |r| == 4
  {
    var n := b[0] as int * 0x1_0000 + (if |b| > 1 then b[1] as int * 0x100 else 0) + (if |b| > 2 then b[2] as int else 0);
    && Letter(r[0], n / 0x4_0000) && Letter(r[1], n / 0x1000 % 64)
    && (if |b| > 1 then Letter(r[2], n / 64 % 64) else r[2] == 61)
    && (if |b| > 2 then Letter(r[3], n % 64) else r[3] == 61)
  }

  /** The encoding is groups of four letters that spell the octets, three at a time. */
  lemma {:induction false} EncodeAt(b: seq<byte>, k: nat)
    requires 3 * k < |b|
    ensures 4 * k + 4 <= |Encode(b)| && Spells(b[3 * k..], Encode(b)[4 * k..4 * k + 4])
    decreases |b|
  {
    hide Group, Spells;
    if k == 0 {
      GroupSpelt(b);
      assert b[0..] == b && Encode(b)[0..4] == Group(b);
    } else {
      var t := Tail(b);
      EncodeAt(t, k - 1);
      assert t[3 * (k - 1)..] == b[3 * k..] && Encode(t)[4 * (k - 1)..4 * k] == Encode(b)[4 * k..4 * k + 4];
    }
  }

  lemma GroupSpelt(b: seq<byte>)
    requires b != []
    ensures Spells(b, Group(b))
  {
    hide Symbol, TABLE, Letter;
    var n := Word(b);
    WordBound(b);
    Spelt(n / 0x4_0000);
    Spelt(n / 0x1000 % 64);
    Spelt(n / 64 % 64);
    Spelt(n % 64);
  }

  lemma WordBound(b: seq<byte>)
    requires b != []
    ensures Word(b) / 0x4_0000 < 64
  {
  }

  lemma Spelt(v: sextet)
    ensures Letter(Symbol(v), v)
  {
    SymbolIs(v);
    hide Symbol, TABLE;
  }

  /** The body of the loop in `base64_encode`. */
  method PutGroup(input: seq<byte>, i: nat, out: array<byte>, o: nat)
    requires i < |input| && o + 4 <= out.Length
    modifies out
    ensures out[..o + 4] == old(out[..o]) + Group(input[i..])
    ensures forall k :: o + 4 <= k < out.Length ==> out[k] == old(out[k])
  {
    var v: nat := input[i] as int * 0x1_0000;
    if i + 1 < |input| { v := v + input[i + 1] as int * 0x100; }
    if i + 2 < |input| { v := v + input[i + 2]; }
    assert v == Word(input[i..]);
    out[o] := Symbol(v / 0x4_0000 % 64);
    out[o + 1] := Symbol(v / 0x1000 % 64);
    out[o + 2] := if i + 1 < |input| then Symbol(v / 64 % 64) else PAD;
    out[o + 3] := if i + 2 < |input| then Symbol(v % 64) else PAD;
  }

  /** `base64_encode` */
  method EncodeInto(input: seq<byte>, out: array<byte>)
    requires out.Length > 4 * ((|input| + 2) / 3)
    modifies out
    ensures out[..4 * ((|input| + 2) / 3)] == Encode(input)
    ensures out[4 * ((|input| + 2) / 3)] == 0
  {
    var o, i := 0, 0;
    ghost var rest := input;
    while i < |input|
      invariant rest == if i < |input| then input[i..] else []
      invariant o + |Encode(rest)| == |Encode(input)|
      invariant out[..o] + Encode(rest) == Encode(input)
    {
      ghost var done := out[..o];
      PutGroup(input, i, out, o);
      Assoc(done, Group(rest), Encode(Tail(rest)));
      rest := Tail(rest);
      o := o + 4;
      i := i + 3;
    }
    out[o] := 0;
  }

  // ----- decoding -----

  /** The symbols of a C string up to the first pad, other octets skipped. */
  function Sextets(s: seq<byte>): seq<sextet> {
    if s == [] || s[0] == 0 || s[0] == PAD then []
    else (match Value(s[0]) case Some(v) => [v] case None => []) + Sextets(s[1..])
  }

  function First(a: sextet, b: sextet): byte {
    a as int * 4 + b as int / 16
  }

  function Middle(b: sextet, c: sextet): byte {
    b as int % 16 * 16 + c as int / 4
  }

  function Last(c: sextet, d: sextet): byte {
    c as int % 4 * 64 + d as int
  }

  /** RFC 4648: four symbols make three octets; two or three left over make one or two. */
  function FromSextets(vs: seq<sextet>): seq<byte> {
    if |vs| < 2 then []
    else if |vs| == 2 then [First(vs[0], vs[1])]
    else if |vs| == 3 then [First(vs[0], vs[1]), Middle(vs[1], vs[2])]
    else [First(vs[0], vs[1]), Middle(vs[1], vs[2]), Last(vs[2], vs[3])] + FromSextets(vs[4..])
  }

  predicate Pending(low: nat, bits: nat) {
    (bits == 0 && low == 0) || (bits == 6 && low < 64) || (bits == 4 && low < 16) || (bits == 2 && low < 4)
  }

  /** One more symbol after `bits` pending ones: what is emitted and what is then pending. */
  function Push(low: nat, bits: nat, v: sextet): (r: (seq<byte>, nat, nat))
    requires Pending(low, bits)
    ensures Pending(r.1, r.2) && |r.0| <= 1
  {
    if bits == 0 then ([], v, 6)
    else if bits == 6 then ([First(low, v)], v % 16, 4)
    else if bits == 4 then ([low * 16 + v as int / 4], v % 4, 2)
    else ([low * 64 + v as int], 0, 0)
  }

  function Emit(low: nat, bits: nat, vs: seq<sextet>): seq<byte>
    requires Pending(low, bits)
    decreases |vs|
  {
    if vs == [] then [] else var (e, l, b) := Push(low, bits, vs[0]); e + Emit(l, b, vs[1..])
  }

  /** Nothing pending, then six, four and two bits of the symbol before. */
  lemma EmitAt0(vs: seq<sextet>)
    requires vs != []
    ensures Emit(0, 0, vs) == Emit(vs[0], 6, vs[1..])
  {
  }

  lemma EmitAt6(u: sextet, vs: seq<sextet>)
    requires vs != []
    ensures Emit(u, 6, vs) == [First(u, vs[0])] + Emit(vs[0] % 16, 4, vs[1..])
  {
    hide First;
  }

  lemma EmitAt4(u: sextet, vs: seq<sextet>)
    requires vs != []
    ensures Emit(u % 16, 4, vs) == [Middle(u, vs[0])] + Emit(vs[0] % 4, 2, vs[1..])
  {
  }

  lemma EmitAt2(u: sextet, vs: seq<sextet>)
    requires vs != []
    ensures Emit(u % 4, 2, vs) == [Last(u, vs[0])] + Emit(0, 0, vs[1..])
  {
  }

  lemma EmitNone(low: nat, bits: nat)
    requires Pending(low, bits)
    ensures Emit(low, bits, []) == []
  {
  }

  /** Four symbols give three octets and leave nothing pending. */
  lemma EmitFour(vs: seq<sextet>)
    requires |vs| >= 4
    ensures Emit(0, 0, vs) == [First(vs[0], vs[1]), Middle(vs[1], vs[2]), Last(vs[2], vs[3])] + Emit(0, 0, vs[4..])
  {
    hide Emit, First, Middle, Last;
    EmitAt0(vs);
    EmitAt6(vs[0], vs[1..]);
    EmitAt4(vs[1], vs[2..]);
    EmitAt2(vs[2], vs[3..]);
    assert vs[1..][1..] == vs[2..] && vs[2..][1..] == vs[3..] && vs[3..][1..] == vs[4..];
  }

  lemma EmitFew(vs: seq<sextet>)
    requires |vs| < 4
    ensures Emit(0, 0, vs) == FromSextets(vs)
  {
    hide Emit, First, Middle, Last;
    EmitNone(0, 0);
    if |vs| > 0 {
      EmitAt0(vs);
      EmitNone(vs[0], 6);
      if |vs| > 1 {
        EmitAt6(vs[0], vs[1..]);
        EmitNone(vs[1] % 16, 4);
        assert vs[1..][1..] == vs[2..];
        if |vs| > 2 {
          EmitAt4(vs[1], vs[2..]);
          EmitNone(vs[2] % 4, 2);
          assert vs[2..][1..] == [];
        }
      }
    }
  }

  lemma {:induction false} EmitIsDecoding(vs: seq<sextet>)
    ensures Emit(0, 0, vs) == FromSextets(vs)
    decreases |vs|
  {
    hide First, Middle, Last, Emit;
    if |vs| < 4 {
      EmitFew(vs);
    } else {
      EmitFour(vs);
      EmitIsDecoding(vs[4..]);
    }
  }

  /** The low bits of `acc` are the pending ones. */
  predicate Holds(acc: u32, bits: nat, low: nat) {
    && Pending(low, bits)
    && (bits == 2 ==> acc % 4 == low) && (bits == 4 ==> acc % 16 == low) && (bits == 6 ==> acc % 64 == low)
  }

  function ShiftedIn(acc: u32, v: sextet): u32 {
    (acc as int * 64 + v as int) % 0x1_0000_0000
  }

  // The low bits of the new `acc` are the old ones followed by the symbol.

  lemma ShiftIn0(acc: u32, v: sextet)
    ensures ShiftedIn(acc, v) % 0x40 == v
  {
    var k, q := (acc as int * 64 + v) / 0x1_0000_0000, acc as int;
    assert ShiftedIn(acc, v) == 0x40 * (q - 0x4000000 * k) + v;
  }

  lemma ShiftIn2(acc: u32, v: sextet)
    ensures ShiftedIn(acc, v) % 0x100 == acc % 0x4 * 64 + v
  {
    var k, q := (acc as int * 64 + v) / 0x1_0000_0000, acc as int / 0x4;
    assert ShiftedIn(acc, v) == 0x100 * (q - 0x1000000 * k) + (acc % 0x4 * 64 + v);
  }

  lemma ShiftIn4(acc: u32, v: sextet)
    ensures ShiftedIn(acc, v) % 0x400 == acc % 0x10 * 64 + v
  {
    var k, q := (acc as int * 64 + v) / 0x1_0000_0000, acc as int / 0x10;
    assert ShiftedIn(acc, v) == 0x400 * (q - 0x400000 * k) + (acc % 0x10 * 64 + v);
  }

  lemma ShiftIn6(acc: u32, v: sextet)
    ensures ShiftedIn(acc, v) % 0x1000 == acc % 0x40 * 64 + v
  {
    var k, q := (acc as int * 64 + v) / 0x1_0000_0000, acc as int / 0x40;
    assert ShiftedIn(acc, v) == 0x1000 * (q - 0x100000 * k) + (acc % 0x40 * 64 + v);
  }

  lemma ReadAbove4(acc: u32, low: nat)
    requires acc % 0x400 == low
    ensures acc / 4 % 0x100 == low / 4 && acc % 4 == low % 4
  {
    var q := acc as int / 0x400;
    assert acc as int == 4 * (0x100 * q + low / 4) + low % 4;
    assert acc / 4 == 0x100 * q + low / 4;
  }

  lemma ReadAbove16(acc: u32, low: nat)
    requires acc % 0x1000 == low
    ensures acc / 16 % 0x100 == low / 16 && acc % 16 == low % 16
  {
    var q := acc as int / 0x1000;
    assert acc as int == 16 * (0x100 * q + low / 16) + low % 16;
    assert acc / 16 == 0x100 * q + low / 16;
  }

  /** `(acc >> bits) & 0xff` after the next symbol is the octet to emit, and the rest stays pending. */
  lemma ShiftIn(acc: u32, bits: nat, low: nat, v: sextet)
    requires Holds(acc, bits, low)
    ensures var acc', (e, l, b) := ShiftedIn(acc, v), Push(low, bits, v);
            && Holds(acc', b, l)
            && e == (if bits + 6 >= 8 then [Shifted(acc', bits - 2)] else [])
            && b == (if bits + 6 >= 8 then bits - 2 else bits + 6)
  {
    ShiftIn0(acc, v);
    ShiftIn2(acc, v);
    ShiftIn4(acc, v);
    ShiftIn6(acc, v);
    var acc' := ShiftedIn(acc, v);
    hide ShiftedIn;
    if bits == 4 {
      ReadAbove4(acc', low * 64 + v);
    } else if bits == 6 {
      ReadAbove16(acc', low * 64 + v);
    }
  }

  function Shifted(acc: u32, bits: nat): byte {
    if bits == 0 then acc % 0x100 else if bits == 2 then acc / 4 % 0x100 else acc / 16 % 0x100
  }

  /** The body of the loop in `base64_decode` for one symbol. */
  method Accept(v: sextet, out: array<byte>, cap: nat, o: nat, acc: u32, bits: nat, ghost low: nat)
    returns (o': nat, acc': u32, bits': nat, ghost low': nat)
    requires o < cap <= out.Length && (o + 1 < cap ==> Holds(acc, bits, low))
    modifies out
    ensures o + 1 < cap ==> Holds(acc', bits', low') && Push(low, bits, v).1 == low' && Push(low, bits, v).2 == bits'
                            && o' == o + |Push(low, bits, v).0| && out[..o'] == old(out[..o]) + Push(low, bits, v).0
    ensures o + 1 == cap ==> o' == o && out[..] == old(out[..])
  {
    o', bits', low' := o, bits + 6, low;
    acc' := ShiftedIn(acc, v);
    if o + 1 < cap {
      ShiftIn(acc, bits, low, v);
      low' := Push(low, bits, v).1;
    }
    if bits' >= 8 && o + 1 < cap {
      bits' := bits' - 8;
      out[o] := Shifted(acc', bits');
      o' := o + 1;
    }
  }

  /** `base64_decode`: as many octets of the decoding as `cap` leaves room for. */
  method DecodeInto(input: seq<byte>, out: array<byte>, cap: nat) returns (o: nat)
    requires 1 <= cap <= out.Length
    modifies out
    ensures o < cap && out[o] == 0
    ensures var whole := FromSextets(Sextets(input));
            out[..o] == if |whole| < cap then whole else whole[..cap - 1]
  {
    o := 0;
    var acc: u32, bits: nat := 0, 0;
    var i := 0;
    ghost var whole, low := FromSextets(Sextets(input)), 0;
    EmitIsDecoding(Sextets(input));
    hide Push, ShiftedIn, Shifted, FromSextets;
    while i < |input| && input[i] != 0 && input[i] != PAD
      invariant i <= |input| && o < cap
      invariant o + 1 < cap ==> Holds(acc, bits, low)
      invariant o + 1 < cap ==> out[..o] + Emit(low, bits, Sextets(input[i..])) == whole
      invariant o + 1 == cap ==> out[..o] <= whole
    {
      assert input[i..][1..] == input[i + 1..];
      ghost var vs := Sextets(input[i..]);
      var v := Value(input[i]);
      i := i + 1;
      if v.None? {
        assert vs == Sextets(input[i..]);
        continue;
      }
      assert vs == [v.value] + Sextets(input[i..]);
      if o + 1 < cap {
        EmitNext(out[..o], low, bits, v.value, Sextets(input[i..]));
      }
      o, acc, bits, low := Accept(v.value, out, cap, o, acc, bits, low);
    }
    out[o] := 0;
  }

  lemma EmitNext(done: seq<byte>, low: nat, bits: nat, v: sextet, vs: seq<sextet>)
    requires Pending(low, bits)
    ensures var (e, l, b) := Push(low, bits, v);
            done + Emit(low, bits, [v] + vs) == (done + e) + Emit(l, b, vs)
  {
    assert ([v] + vs)[1..] == vs;
  }

  // ----- round trip -----

  lemma SymbolCons(v: sextet, s: seq<byte>)
    ensures Sextets([Symbol(v)] + s) == [v] + Sextets(s)
  {
    ValueOfSymbol(v);
    assert ([Symbol(v)] + s)[1..] == s;
  }

  lemma FourSymbols(s0: sextet, s1: sextet, s2: sextet, s3: sextet, rest: seq<byte>)
    ensures Sextets([Symbol(s0), Symbol(s1), Symbol(s2), Symbol(s3)] + rest) == [s0, s1, s2, s3] + Sextets(rest)
  {
    hide Symbol;
    var r3 := [Symbol(s3)] + rest;
    var r2 := [Symbol(s2)] + r3;
    var r1 := [Symbol(s1)] + r2;
    SymbolCons(s3, rest);
    SymbolCons(s2, r3);
    SymbolCons(s1, r2);
    SymbolCons(s0, r1);
    hide Sextets;
    assert [Symbol(s0), Symbol(s1), Symbol(s2), Symbol(s3)] + rest == [Symbol(s0)] + r1;
  }

  /** A full group decodes to its three octets. */
  lemma FullGroup(b: seq<byte>, rest: seq<byte>)
    requires |b| >= 3
    ensures FromSextets(Sextets(Group(b) + rest)) == b[..3] + FromSextets(Sextets(rest))
  {
    hide Symbol, Sextets, First, Middle, Last;
    var v := Word(b);
    var s0, s1, s2, s3 := v / 0x4_0000 % 64, v / 0x1000 % 64, v / 64 % 64, v % 64;
    WordParts(b[0], b[1], b[2]);
    FourSymbols(s0, s1, s2, s3, rest);
    var vs := [s0, s1, s2, s3] + Sextets(rest);
    assert vs[4..] == Sextets(rest);
    assert b[..3] == [b[0], b[1], b[2]];
  }

  lemma WordSlices(a: byte, b: byte, c: byte)
    ensures var v := a as int * 0x1_0000 + b as int * 0x100 + c;
            && v / 0x4_0000 == a / 4
            && v / 0x1000 == a as int * 16 + b / 16
            && v / 64 == a as int * 1024 + b as int * 4 + c / 64
  {
  }

  lemma WordParts(a: byte, b: byte, c: byte)
    ensures var v := a as int * 0x1_0000 + b as int * 0x100 + c;
            && First(v / 0x4_0000 % 64, v / 0x1000 % 64) == a
            && Middle(v / 0x1000 % 64, v / 64 % 64) == b
            && Last(v / 64 % 64, v % 64) == c
  {
    var v := a as int * 0x1_0000 + b as int * 0x100 + c;
    WordSlices(a, b, c);
    FirstIs(a, b / 16);
    MiddleIs(a, b, c / 64);
    LastIs(a, b, c);
    assert v % 64 == c % 64;
    hide First, Middle, Last;
  }

  lemma LowOf16(a: nat, x: nat)
    requires x < 16
    ensures (a * 16 + x) % 64 == a % 4 * 16 + x
  {
  }

  lemma LowOf4(a: nat, b: nat, x: nat)
    requires x < 4
    ensures (a * 1024 + b * 4 + x) % 64 == b % 16 * 4 + x
  {
  }

  lemma FirstIs(a: byte, x: nat)
    requires x < 16
    ensures First(a / 4 % 64, (a as int * 16 + x) % 64) == a
  {
    LowOf16(a, x);
  }

  lemma MiddleIs(a: byte, b: byte, x: nat)
    requires x < 4
    ensures Middle((a as int * 16 + b / 16) % 64, (a as int * 1024 + b as int * 4 + x) % 64) == b
  {
    LowOf16(a, b / 16);
    LowOf4(a, b, x);
    MiddleParts(a % 4, b / 16, b % 16, x);
  }

  lemma MiddleParts(h: nat, y: nat, z: nat, x: nat)
    requires h < 4 && y < 16 && z < 16 && x < 4
    ensures Middle(h * 16 + y, z * 4 + x) == y * 16 + z
  {
  }

  lemma LastIs(a: byte, b: byte, c: byte)
    ensures Last((a as int * 1024 + b as int * 4 + c / 64) % 64, c % 64) == c
  {
    LowOf4(a, b, c / 64);
  }

  /** A short last group decodes to its one or two octets. */
  lemma LastGroup(b: seq<byte>)
    requires 1 <= |b| <= 2
    ensures FromSextets(Sextets(Group(b))) == b
  {
    hide Sextets, Group, First, Middle;
    LastSextets(b);
    WordParts(b[0], if |b| > 1 then b[1] else 0, 0);
    assert |b| == 1 ==> b == [b[0]];
    assert |b| == 2 ==> b == [b[0], b[1]];
  }

  lemma LastSextets(b: seq<byte>)
    requires 1 <= |b| <= 2
    ensures var v := Word(b);
            var s0, s1, s2 := v / 0x4_0000 % 64, v / 0x1000 % 64, v / 64 % 64;
            Sextets(Group(b)) == if |b| > 1 then [s0, s1, s2] else [s0, s1]
  {
    hide Symbol, Value, Word;
    var v := Word(b);
    var s0, s1, s2 := v / 0x4_0000 % 64, v / 0x1000 % 64, v / 64 % 64;
    var tail := if |b| > 1 then [Symbol(s2), PAD] else [PAD, PAD];
    assert Sextets([PAD, PAD]) == [] && Sextets([PAD]) == [];
    assert Group(b) == [Symbol(s0)] + ([Symbol(s1)] + tail);
    assert [Symbol(s2)] + [PAD] == [Symbol(s2), PAD];
    hide Sextets;
    SymbolCons(s2, [PAD]);
    SymbolCons(s1, tail);
    SymbolCons(s0, [Symbol(s1)] + tail);
  }

  /** Decoding the encoding gives back the octets. */
  lemma {:induction false} RoundTrip(b: seq<byte>)
    ensures FromSextets(Sextets(Encode(b))) == b
    decreases |b|
  {
    if b == [] {
    } else if |b| < 3 {
      LastGroup(b);
      assert Encode(b) == Group(b) + [];
      assert Group(b) + [] == Group(b);
    } else {
      FullGroup(b, Encode(Tail(b)));
      RoundTrip(Tail(b));
      assert b == b[..3] + Tail(b);
    }
  }

  /** Octets outside the alphabet, other than the pad and NUL, change nothing. */
  lemma {:induction false} NoiseIgnored(a: seq<byte>, c: byte, b: seq<byte>)
    requires c !in {61, 0} && forall v: sextet :: c as int != TABLE[v] as int
    ensures Sextets(a + [c] + b) == Sextets(a + b)
  {
    if Value(c).Some? {
      ValueExactly(c, Value(c).value);
    }
    hide Value, TABLE;
    if a == [] {
      assert ([c] + b)[1..] == b;
      assert a + [c] + b == [c] + b && a + b == b;
    } else {
      assert (a + [c] + b)[1..] == a[1..] + [c] + b;
      assert (a + b)[1..] == a[1..] + b;
      NoiseIgnored(a[1..], c, b);
    }
  }
}
