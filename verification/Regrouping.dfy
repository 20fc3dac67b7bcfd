/** Regrouping bytes into 5-bit symbols and back, over an accumulator that is never masked. */
module Regrouping {
  // ---------- bits ----------

  /** The low `w` bits of `v`, highest first. */
  function BitsOf(v: nat, w: nat): (b: seq<bool>)
    ensures |b| == w
  {
    if w == 0 then [] else BitsOf(v / 2, w - 1) + [v % 2 == 1]
  }

  function ValueOf(b: seq<bool>): nat {
    if b == [] then 0 else 2 * ValueOf(b[..|b| - 1]) + if b[|b| - 1] then 1 else 0
  }

  /** `v >> k` and `v << k`. */
  function Shr(v: nat, k: nat): nat { if k == 0 then v else Shr(v / 2, k - 1) }

  function Shl(v: nat, k: nat): (r: nat)
    ensures v > 0 ==> r > 0
    decreases k
  {
    if k == 0 then v else Shl(2 * v, k - 1)
  }

  function Zeros(k: nat): (b: seq<bool>)
    ensures |b| == k
  {
    if k == 0 then [] else Zeros(k - 1) + [false]
  }

  /** The bits of all groups in a row, each of width `w`. */
  function AllBits(xs: seq<nat>, w: nat): (b: seq<bool>)
    ensures |b| == w * |xs|
  {
    if xs == [] then [] else AllBits(xs[..|xs| - 1], w) + BitsOf(xs[|xs| - 1], w)
  }

  lemma {:induction false} AllBitsOneMore(xs: seq<nat>, x: nat, w: nat)
    ensures AllBits(xs + [x], w) == AllBits(xs, w) + BitsOf(x, w)
  {
    assert (xs + [x])[..|xs|] == xs;
  }

  lemma {:induction false} BitsSplit(v: nat, a: nat, b: nat)
    ensures BitsOf(v, a + b) == BitsOf(Shr(v, b), a) + BitsOf(v, b)
  {
    if b == 0 {
      assert BitsOf(v, 0) == [];
    } else {
      BitsSplit(v / 2, a, b - 1);
    }
  }

  lemma {:induction false} ShlDoubles(v: nat, k: nat)
    ensures Shl(v, k + 1) == 2 * Shl(v, k)
    decreases k
  {
    if k > 0 { ShlDoubles(2 * v, k - 1); }
  }

  lemma {:induction false} Powers()
    ensures Shl(1, 0) == 1 && Shl(1, 1) == 2 && Shl(1, 2) == 4 && Shl(1, 3) == 8 && Shl(1, 4) == 16
    ensures Shl(1, 5) == 32 && Shl(1, 6) == 64 && Shl(1, 7) == 128 && Shl(1, 8) == 256
  {
    ShlDoubles(1, 0); ShlDoubles(1, 1); ShlDoubles(1, 2); ShlDoubles(1, 3);
    ShlDoubles(1, 4); ShlDoubles(1, 5); ShlDoubles(1, 6); ShlDoubles(1, 7);
  }

  lemma {:induction false} ShlIs(v: nat)
    ensures Shl(v, 5) == 32 * v && Shl(v, 8) == 256 * v
  {
    ShlDoubles(v, 0); ShlDoubles(v, 1); ShlDoubles(v, 2); ShlDoubles(v, 3);
    ShlDoubles(v, 4); ShlDoubles(v, 5); ShlDoubles(v, 6); ShlDoubles(v, 7);
  }

  /** Only the low bits count. */
  lemma {:induction false} LowBits(q: nat, m: nat, w: nat)
    ensures BitsOf(Shl(q, w) + m, w) == BitsOf(m, w)
    decreases w
  {
    if w > 0 {
      ShlDoubles(q, w - 1);
      LowBits(q, m / 2, w - 1);
      assert (Shl(q, w) + m) / 2 == Shl(q, w - 1) + m / 2;
    }
  }

  /** `(q << w) | m` shifted back. */
  lemma {:induction false} ShrUndoes(q: nat, m: nat, w: nat)
    requires m < Shl(1, w)
    ensures Shr(Shl(q, w) + m, w) == q
    decreases w
  {
    if w > 0 {
      ShlDoubles(q, w - 1);
      ShlDoubles(1, w - 1);
      ShrUndoes(q, m / 2, w - 1);
      assert (Shl(q, w) + m) / 2 == Shl(q, w - 1) + m / 2;
    }
  }

  /** `v & 31` and `v & 0xFF`. */
  lemma {:induction false} MaskedBits(v: nat)
    ensures BitsOf(v % 32, 5) == BitsOf(v, 5) && BitsOf(v % 256, 8) == BitsOf(v, 8)
  {
    ShlIs(v / 32);
    LowBits(v / 32, v % 32, 5);
    ShlIs(v / 256);
    LowBits(v / 256, v % 256, 8);
  }

  lemma {:induction false} BitsOfShifted(v: nat, w: nat, k: nat)
    ensures BitsOf(Shl(v, k), w + k) == BitsOf(v, w) + Zeros(k)
  {
    if k == 0 {
      assert Zeros(0) == [];
    } else {
      ShlDoubles(v, k - 1);
      BitsOfShifted(v, w, k - 1);
      assert Shl(v, k) / 2 == Shl(v, k - 1) && Shl(v, k) % 2 == 0;
    }
  }

  lemma {:induction false} ValueOfBits(b: seq<bool>)
    ensures BitsOf(ValueOf(b), |b|) == b && ValueOf(b) < Shl(1, |b|)
  {
    if b != [] {
      ValueOfBits(b[..|b| - 1]);
      ShlDoubles(1, |b| - 1);
      assert b == b[..|b| - 1] + [b[|b| - 1]];
    }
  }

  /** Equal bits, equal values below the width. */
  lemma {:induction false} BitsDetermine(v: nat, m: nat, w: nat)
    requires BitsOf(v, w) == BitsOf(m, w) && v < Shl(1, w) && m < Shl(1, w)
    ensures v == m
  {
    if w > 0 {
      ShlDoubles(1, w - 1);
      var a, b := BitsOf(v / 2, w - 1), BitsOf(m / 2, w - 1);
      assert (a + [v % 2 == 1])[..w - 1] == a && (b + [m % 2 == 1])[..w - 1] == b;
      assert (a + [v % 2 == 1])[w - 1] == (b + [m % 2 == 1])[w - 1];
      BitsDetermine(v / 2, m / 2, w - 1);
    }
  }

  predicate Below(xs: seq<nat>, n: nat) { forall i :: 0 <= i < |xs| ==> xs[i] < n }

  lemma {:induction false} AllBitsDetermine(xs: seq<nat>, ys: seq<nat>, w: nat)
    requires w > 0 && AllBits(xs, w) == AllBits(ys, w) && Below(xs, Shl(1, w)) && Below(ys, Shl(1, w)) && |xs| == |ys|
    ensures xs == ys
  {
    if xs != [] {
      var (x, y) := (xs[|xs| - 1], ys[|ys| - 1]);
      var a, b := AllBits(xs[..|xs| - 1], w), AllBits(ys[..|ys| - 1], w);
      var n := |a|;
      SameParts(a, BitsOf(x, w), b, BitsOf(y, w));
      BitsDetermine(x, y, w);
      AllBitsDetermine(xs[..|xs| - 1], ys[..|ys| - 1], w);
    }
  }

  lemma {:induction false} SameParts(a: seq<bool>, b: seq<bool>, c: seq<bool>, d: seq<bool>)
    requires a + b == c + d && |b| == |d|
    ensures a == c && b == d
  {
    assert |a| == |c|;
    assert (a + b)[..|a|] == a && (c + d)[..|c|] == c && (a + b)[|a|..] == b && (c + d)[|c|..] == d;
  }

  // ---------- specification ----------

  /** The bits cut into groups of five, the last one filled up with zeros. */
  function Fives(b: seq<bool>): seq<nat>
    decreases |b|
  {
    if b == [] then []
    else if |b| <= 5 then [ValueOf(b + Zeros(5 - |b|))]
    else [ValueOf(b[..5])] + Fives(b[5..])
  }

  /** The bits cut into bytes; fewer than eight left over are dropped. */
  function Eights(b: seq<bool>): seq<nat>
    decreases |b|
  {
    if |b| < 8 then [] else [ValueOf(b[..8])] + Eights(b[8..])
  }

  /** A list of 5-bit groups that spells `b` and then fewer than five zeros is `Fives(b)`. */
  lemma {:induction false} FivesUnique(b: seq<bool>, xs: seq<nat>, pad: nat)
    requires Below(xs, 32) && pad < 5 && AllBits(xs, 5) == b + Zeros(pad)
    ensures xs == Fives(b)
    decreases |b|
  {
    Powers();
    FivesSpell(b);
    var ys := Fives(b);
    var p := 5 * |ys| - |b|;
    assert 5 * |xs| == |b| + pad && 5 * |ys| == |b| + p;
    assert |xs| == |ys| && p == pad;
    AllBitsDetermine(xs, ys, 5);
  }

  lemma {:induction false} AllBitsFirst(x: nat, xs: seq<nat>, w: nat)
    ensures AllBits([x] + xs, w) == BitsOf(x, w) + AllBits(xs, w)
  {
    if xs == [] {
      assert [x] + xs == [] + [x];
      AllBitsOneMore([], x, w);
      assert AllBits([], w) == [];
    } else {
      var init, last := xs[..|xs| - 1], xs[|xs| - 1];
      assert [x] + xs == ([x] + init) + [last];
      AllBitsOneMore([x] + init, last, w);
      AllBitsFirst(x, init, w);
      assert xs == init + [last];
      AllBitsOneMore(init, last, w);
    }
  }

  lemma {:induction false} LastFive(b: seq<bool>)
    requires 0 < |b| <= 5
    ensures var x := ValueOf(b + Zeros(5 - |b|)); x < 32 && AllBits([x], 5) == b + Zeros(5 - |b|)
  {
    Powers();
    var f := b + Zeros(5 - |b|);
    ValueOfBits(f);
    AllBitsOneMore([], ValueOf(f), 5);
    assert [] + [ValueOf(f)] == [ValueOf(f)] && AllBits([], 5) == [];
  }

  /** The groups spell the bits and fewer than five zeros. */
  lemma {:induction false} FivesSpell(b: seq<bool>)
    ensures Below(Fives(b), 32) && 0 <= 5 * |Fives(b)| - |b| < 5
    ensures AllBits(Fives(b), 5) == b + Zeros(5 * |Fives(b)| - |b|)
    decreases |b|
  {
    hide BitsOf, ValueOf, AllBits;
    Powers();
    if b == [] {
      NoGroups();
      assert Zeros(0) == [];
    } else if |b| <= 5 {
      LastFive(b);
    } else {
      var x, rest := ValueOf(b[..5]), Fives(b[5..]);
      FivesSpell(b[5..]);
      ValueOfBits(b[..5]);
      AllBitsFirst(x, rest, 5);
      assert b == b[..5] + b[5..];
    }
  }

  /** Cutting into bytes undoes spelling bytes, whatever fewer than eight bits follow. */
  lemma {:induction false} EightsUndo(xs: seq<nat>, tail: seq<bool>)
    requires Below(xs, 256) && |tail| < 8
    ensures Eights(AllBits(xs, 8) + tail) == xs
  {
    hide BitsOf, ValueOf, AllBits;
    Powers();
    NoGroups();
    if xs == [] {
      assert AllBits(xs, 8) + tail == tail;
    } else {
      var x, rest := xs[0], xs[1..];
      assert xs == [x] + rest;
      AllBitsFirst(x, rest, 8);
      var b := AllBits(xs, 8) + tail;
      Assoc(BitsOf(x, 8), AllBits(rest, 8), tail);
      FirstEight(BitsOf(x, 8), AllBits(rest, 8) + tail);
      ValueOfBits(BitsOf(x, 8));
      BitsDetermine(ValueOf(BitsOf(x, 8)), x, 8);
      EightsUndo(rest, tail);
    }
  }

  lemma {:induction false} FirstEight(a: seq<bool>, b: seq<bool>)
    requires |a| == 8
    ensures (a + b)[..8] == a && (a + b)[8..] == b
  {
  }

  /** The bytes spell the bits that fill them. */
  lemma {:induction false} EightsSpell(b: seq<bool>)
    ensures |Eights(b)| == |b| / 8 && Below(Eights(b), 256)
    ensures AllBits(Eights(b), 8) == b[..8 * |Eights(b)|]
    decreases |b|
  {
    hide BitsOf, ValueOf, AllBits;
    Powers();
    NoGroups();
    if |b| >= 8 {
      var x, rest := ValueOf(b[..8]), Eights(b[8..]);
      EightsSpell(b[8..]);
      ValueOfBits(b[..8]);
      AllBitsFirst(x, rest, 8);
      assert b[..8] + b[8..][..8 * |rest|] == b[..8 + 8 * |rest|];
    }
  }

  /** Regrouping to five and back to eight is the identity on bytes. */
  lemma {:induction false} RegroupRoundTrip(data: seq<nat>)
    requires Below(data, 256)
    ensures Eights(AllBits(Fives(AllBits(data, 8)), 5)) == data
  {
    FivesSpell(AllBits(data, 8));
    var pad := 5 * |Fives(AllBits(data, 8))| - 8 * |data|;
    EightsUndo(data, Zeros(pad));
  }

  // ---------- the loops ----------

  lemma {:induction false} TakeByte(acc: nat, bits: nat, val: nat)
    requires val < 256
    ensures BitsOf(acc * 256 + val, bits + 8) == BitsOf(acc, bits) + BitsOf(val, 8)
  {
    hide Shl, Shr, BitsOf;
    Powers();
    ShlIs(acc);
    BitsSplit(acc * 256 + val, bits, 8);
    ShrUndoes(acc, val, 8);
    LowBits(acc, val, 8);
  }

  lemma {:induction false} TakeSymbol(acc: nat, bits: nat, val: nat)
    requires val < 32
    ensures BitsOf(acc * 32 + val, bits + 5) == BitsOf(acc, bits) + BitsOf(val, 5)
  {
    hide Shl, Shr, BitsOf;
    Powers();
    ShlIs(acc);
    BitsSplit(acc * 32 + val, bits, 5);
    ShrUndoes(acc, val, 5);
    LowBits(acc, val, 5);
  }

  /** Emitting the group above the low `bits` bits. */
  lemma {:induction false} EmitGroup(acc: nat, bits: nat)
    ensures BitsOf(acc, 5 + bits) == BitsOf(Shr(acc, bits) % 32, 5) + BitsOf(acc, bits)
    ensures BitsOf(acc, 8 + bits) == BitsOf(Shr(acc, bits) % 256, 8) + BitsOf(acc, bits)
  {
    BitsSplit(acc, 5, bits);
    BitsSplit(acc, 8, bits);
    MaskedBits(Shr(acc, bits));
  }

  lemma {:induction false} Assoc(a: seq<bool>, b: seq<bool>, c: seq<bool>)
    ensures a + (b + c) == (a + b) + c
  {
  }

  /** `_to5`, and the same loop inside `evm_to_bech32`. */
  method To5(data: seq<nat>) returns (out: seq<nat>)
    requires Below(data, 256)
    ensures out == Fives(AllBits(data, 8))
  {
    hide Shr, BitsOf, Fives, AllBits;
    Powers();
    NoGroups();
    var acc: nat, bits: nat := 0, 0;
    out := [];
    for i := 0 to |data|
      invariant bits < 5 && Below(out, 32)
      invariant AllBits(out, 5) + BitsOf(acc, bits) == AllBits(data[..i], 8)
    {
      var val := data[i];
      assert data[..i + 1] == data[..i] + [val];
      AllBitsOneMore(data[..i], val, 8);
      TakeByte(acc, bits, val);
      Assoc(AllBits(out, 5), BitsOf(acc, bits), BitsOf(val, 8));
      acc := acc * 256 + val;
      bits := bits + 8;
      while bits >= 5
        invariant bits <= 12 && Below(out, 32)
        invariant AllBits(out, 5) + BitsOf(acc, bits) == AllBits(data[..i + 1], 8)
      {
        bits := bits - 5;
        EmitGroup(acc, bits);
        Assoc(AllBits(out, 5), BitsOf(Shr(acc, bits) % 32, 5), BitsOf(acc, bits));
        AllBitsOneMore(out, Shr(acc, bits) % 32, 5);
        out := out + [Shr(acc, bits) % 32];
      }
    }
    assert data[..|data|] == data;
    if bits > 0 {
      LastGroup(acc, bits);
      AllBitsOneMore(out, Shl(acc, 5 - bits) % 32, 5);
      FivesUnique(AllBits(data, 8), out + [Shl(acc, 5 - bits) % 32], 5 - bits);
      out := out + [Shl(acc, 5 - bits) % 32];
    } else {
      assert BitsOf(acc, 0) == [] == Zeros(0);
      FivesUnique(AllBits(data, 8), out, 0);
    }
  }

  lemma {:induction false} NoGroups()
    ensures AllBits([], 5) == [] && AllBits([], 8) == [] && BitsOf(0, 0) == []
  {
  }

  lemma {:induction false} LastGroup(acc: nat, bits: nat)
    requires bits <= 5
    ensures BitsOf(Shl(acc, 5 - bits) % 32, 5) == BitsOf(acc, bits) + Zeros(5 - bits)
  {
    BitsOfShifted(acc, bits, 5 - bits);
    Powers();
    MaskedBits(Shl(acc, 5 - bits));
  }

  /** The loop of `bech32_to_evm`. */
  method From5(dec: seq<nat>) returns (out: seq<nat>)
    requires Below(dec, 32)
    ensures out == Eights(AllBits(dec, 5))
  {
    hide Shr, BitsOf, Eights, AllBits;
    Powers();
    NoGroups();
    var acc: nat, bits: nat := 0, 0;
    out := [];
    for i := 0 to |dec|
      invariant bits < 8 && Below(out, 256)
      invariant AllBits(out, 8) + BitsOf(acc, bits) == AllBits(dec[..i], 5)
    {
      var v := dec[i];
      assert dec[..i + 1] == dec[..i] + [v];
      AllBitsOneMore(dec[..i], v, 5);
      TakeSymbol(acc, bits, v);
      Assoc(AllBits(out, 8), BitsOf(acc, bits), BitsOf(v, 5));
      acc := acc * 32 + v;
      bits := bits + 5;
      if bits >= 8 {
        bits := bits - 8;
        EmitGroup(acc, bits);
        Assoc(AllBits(out, 8), BitsOf(Shr(acc, bits) % 256, 8), BitsOf(acc, bits));
        AllBitsOneMore(out, Shr(acc, bits) % 256, 8);
        out := out + [Shr(acc, bits) % 256];
      }
    }
    assert dec[..|dec|] == dec;
    EightsUndo(out, BitsOf(acc, bits));
  }
}
