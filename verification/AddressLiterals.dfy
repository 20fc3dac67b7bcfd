/** Addresses written out: a valid string of BIP-173 and one whole address of the chain, character by character. */
module AddressLiterals {
  import opened Prelude
  import opened Regrouping
  import opened Bech32

  // ---------- feeding symbols a few at a time ----------

  lemma {:induction false} FeedOn(c: bv32, vs: seq<bv32>, ws: seq<bv32>)
    ensures Feed(c, vs + ws) == Feed(Feed(c, vs), ws)
  {
    hide Step;
    if ws == [] {
      assert vs + ws == vs;
    } else {
      FeedOn(c, vs, ws[..|ws| - 1]);
      assert (vs + ws)[..|vs + ws| - 1] == vs + ws[..|ws| - 1];
    }
  }

  lemma {:induction false} FeedNothing(c: bv32)
    ensures Feed(c, Words([])) == c
  {
  }

  lemma {:induction false} WordsOn(xs: seq<nat>, ys: seq<nat>)
    ensures Words(xs + ys) == Words(xs) + Words(ys)
  {
    hide Word;
  }

  lemma {:induction false} FeedOne(c: bv32, before: seq<nat>, p: nat)
    ensures Feed(c, Words(before + [p])) == Step(Feed(c, Words(before)), Word(p))
  {
    hide Step, Word;
    assert Words(before + [p])[..|before|] == Words(before);
  }

  /** A few symbols, one at a time. */
  lemma {:induction false} FeedFive(c: bv32, p: nat, q: nat, r: nat, s: nat, t: nat)
    ensures Feed(c, Words([p, q, r, s, t])) == Step(Step(Step(Step(Step(c, Word(p)), Word(q)), Word(r)), Word(s)), Word(t))
  {
    hide Feed, Words, Step, Word;
    FeedNothing(c);
    FeedOne(c, [], p);
    FeedOne(c, [p], q);
    FeedOne(c, [p, q], r);
    FeedOne(c, [p, q, r], s);
    FeedOne(c, [p, q, r, s], t);
    assert [] + [p] == [p] && [p] + [q] == [p, q] && [p, q] + [r] == [p, q, r] && [p, q, r] + [s] == [p, q, r, s];
    assert [p, q, r, s] + [t] == [p, q, r, s, t];
  }

  lemma {:induction false} FeedSix(c: bv32, p: nat, q: nat, r: nat, s: nat, t: nat, u: nat)
    ensures Feed(c, Words([p, q, r, s, t, u])) == Step(Step(Step(Step(Step(Step(c, Word(p)), Word(q)), Word(r)), Word(s)), Word(t)), Word(u))
  {
    hide Feed, Words, Step, Word;
    FeedFive(c, p, q, r, s, t);
    FeedOne(c, [p, q, r, s, t], u);
    assert [p, q, r, s, t] + [u] == [p, q, r, s, t, u];
  }

  lemma {:induction false} FeedEight(c: bv32, p: nat, q: nat, r: nat, s: nat, t: nat, u: nat, v: nat, w: nat)
    ensures Feed(c, Words([p, q, r, s, t, u, v, w])) ==
      Step(Step(Step(Step(Step(Step(Step(Step(c, Word(p)), Word(q)), Word(r)), Word(s)), Word(t)), Word(u)), Word(v)), Word(w))
  {
    hide Feed, Words, Step, Word;
    FeedSix(c, p, q, r, s, t, u);
    FeedOne(c, [p, q, r, s, t, u], v);
    FeedOne(c, [p, q, r, s, t, u, v], w);
    assert [p, q, r, s, t, u] + [v] == [p, q, r, s, t, u, v] && [p, q, r, s, t, u, v] + [w] == [p, q, r, s, t, u, v, w];
  }

  /** Prefix, data and checksum in a row. */
  lemma {:induction false} FeedInTurn(hrp: string, prefix: seq<nat>, data: seq<nat>, six: seq<nat>, c: bv32, d: bv32, e: bv32)
    requires Expand(hrp) == Words(prefix)
    requires Feed(1, Words(prefix)) == c && Feed(c, Words(data)) == d && Feed(d, Words(six)) == e
    ensures Feed(1, Expand(hrp) + Words(data + six)) == e
  {
    hide Feed, Words, Expand;
    WordsOn(data, six);
    FeedOn(1, Words(prefix), Words(data));
    FeedOn(1, Words(prefix) + Words(data), Words(six));
    assert Expand(hrp) + (Words(data) + Words(six)) == Words(prefix) + Words(data) + Words(six);
  }

  /** Piece after piece. */
  lemma {:induction false} FeedBoth(c: bv32, xs: seq<nat>, ys: seq<nat>, d: bv32, e: bv32)
    requires Feed(c, Words(xs)) == d && Feed(d, Words(ys)) == e
    ensures Feed(c, Words(xs + ys)) == e
  {
    hide Feed, Words;
    WordsOn(xs, ys);
    FeedOn(c, Words(xs), Words(ys));
  }

  /** A symbol is itself as a word of the checksum. */
  lemma {:induction false} SmallWords()
    ensures Word(0) == 0 && Word(1) == 1 && Word(2) == 2 && Word(3) == 3 && Word(4) == 4 && Word(5) == 5 && Word(6) == 6 && Word(7) == 7
    ensures Word(8) == 8 && Word(9) == 9 && Word(10) == 10 && Word(11) == 11 && Word(12) == 12 && Word(13) == 13 && Word(14) == 14 && Word(15) == 15
    ensures Word(16) == 16 && Word(17) == 17 && Word(18) == 18 && Word(19) == 19 && Word(20) == 20 && Word(21) == 21 && Word(22) == 22 && Word(23) == 23
    ensures Word(24) == 24 && Word(25) == 25 && Word(26) == 26 && Word(27) == 27 && Word(28) == 28 && Word(29) == 29 && Word(30) == 30 && Word(31) == 31
  {
    LowWords();
    HighWords();
  }

  lemma {:induction false} LowWords()
    ensures Word(0) == 0 && Word(1) == 1 && Word(2) == 2 && Word(3) == 3 && Word(4) == 4 && Word(5) == 5 && Word(6) == 6 && Word(7) == 7
    ensures Word(8) == 8 && Word(9) == 9 && Word(10) == 10 && Word(11) == 11 && Word(12) == 12 && Word(13) == 13 && Word(14) == 14 && Word(15) == 15
  {
  }

  lemma {:induction false} HighWords()
    ensures Word(16) == 16 && Word(17) == 17 && Word(18) == 18 && Word(19) == 19 && Word(20) == 20 && Word(21) == 21 && Word(22) == 22 && Word(23) == 23
    ensures Word(24) == 24 && Word(25) == 25 && Word(26) == 26 && Word(27) == 27 && Word(28) == 28 && Word(29) == 29 && Word(30) == 30 && Word(31) == 31
  {
  }

  /** Every symbol once, in order, by eights, and what it is printed as. */
  const FIRST: seq<nat> := [0, 1, 2, 3, 4, 5, 6, 7]
  const SECOND: seq<nat> := [8, 9, 10, 11, 12, 13, 14, 15]
  const THIRD: seq<nat> := [16, 17, 18, 19, 20, 21, 22, 23]
  const FOURTH: seq<nat> := [24, 25, 26, 27, 28, 29, 30, 31]
  const ALL: seq<nat> := FIRST + SECOND + THIRD + FOURTH

  lemma {:induction false} EveryCharacter()
    ensures Below(ALL, 32) && |ALL| == 32 && Chars(ALL) == "qpzry9x8gf2tvdw0s3jn54khce6mua7l"
  {
    hide CHARSET, Chars, FIRST, SECOND, THIRD, FOURTH;
    CharsOfFirst();
    CharsOfSecond();
    CharsOfThird();
    CharsOfFourth();
    CharsOn(FIRST, SECOND);
    CharsOn(FIRST + SECOND, THIRD);
    CharsOn(FIRST + SECOND + THIRD, FOURTH);
  }

  lemma {:induction false} CharsOfFirst()
    ensures Below(FIRST, 32) && |FIRST| == 8 && Chars(FIRST) == "qpzry9x8"
  {
  }

  lemma {:induction false} CharsOfSecond()
    ensures Below(SECOND, 32) && |SECOND| == 8 && Chars(SECOND) == "gf2tvdw0"
  {
  }

  lemma {:induction false} CharsOfThird()
    ensures Below(THIRD, 32) && |THIRD| == 8 && Chars(THIRD) == "s3jn54kh"
  {
  }

  lemma {:induction false} CharsOfFourth()
    ensures Below(FOURTH, 32) && |FOURTH| == 8 && Chars(FOURTH) == "ce6mua7l"
  {
  }

  lemma {:induction false} CharsOn(xs: seq<nat>, ys: seq<nat>)
    requires Below(xs, 32) && Below(ys, 32)
    ensures Below(xs + ys, 32) && Chars(xs + ys) == Chars(xs) + Chars(ys)
  {
    hide CHARSET;
  }

  lemma {:induction false} NoWord()
    ensures Word(0) == 0
  {
  }

  // ---------- the valid string of BIP-173, section "Test vectors", that has every character ----------

  lemma {:induction false} VectorPrefix1()
    ensures Feed(0x1, Words([3, 3, 3, 3, 3])) == 0x2318c63
  {
    hide Feed, Words, Word;
    SmallWords();
    FeedFive(0x1, 3, 3, 3, 3, 3);
  }

  lemma {:induction false} VectorPrefix2()
    ensures Feed(0x2318c63, Words([3, 0, 1, 2, 3, 4, 5, 6])) == 0x3be80e6a
  {
    hide Feed, Words, Word;
    SmallWords();
    FeedEight(0x2318c63, 3, 0, 1, 2, 3, 4, 5, 6);
  }

  lemma {:induction false} VectorData1()
    ensures Feed(0x3be80e6a, Words(FIRST)) == 0x11e88668
  {
    hide Feed, Words, Word;
    SmallWords();
    FeedEight(0x3be80e6a, 0, 1, 2, 3, 4, 5, 6, 7);
  }

  lemma {:induction false} VectorData2()
    ensures Feed(0x11e88668, Words(SECOND)) == 0x31223f8a
  {
    hide Feed, Words, Word;
    SmallWords();
    FeedEight(0x11e88668, 8, 9, 10, 11, 12, 13, 14, 15);
  }

  lemma {:induction false} VectorData3()
    ensures Feed(0x31223f8a, Words(THIRD)) == 0x297c48e0
  {
    hide Feed, Words, Word;
    SmallWords();
    FeedEight(0x31223f8a, 16, 17, 18, 19, 20, 21, 22, 23);
  }

  lemma {:induction false} VectorData4()
    ensures Feed(0x297c48e0, Words(FOURTH)) == 0x1a0d3656
  {
    hide Feed, Words, Word;
    SmallWords();
    FeedEight(0x297c48e0, 24, 25, 26, 27, 28, 29, 30, 31);
  }

  lemma {:induction false} VectorChecksum()
    ensures Feed(0x1a0d3656, Words([27, 0, 0, 0, 6, 14])) == 0x1
  {
    hide Feed, Words, Word;
    SmallWords();
    FeedSix(0x1a0d3656, 27, 0, 0, 0, 6, 14);
  }

  lemma {:induction false} VectorPrefix()
    ensures Expand("abcdef") == Words([3, 3, 3, 3, 3, 3, 0, 1, 2, 3, 4, 5, 6]) && Feed(1, Words([3, 3, 3, 3, 3, 3, 0, 1, 2, 3, 4, 5, 6])) == 0x3be80e6a
  {
    hide Feed, Word;
    NoWord();
    VectorPrefix1();
    VectorPrefix2();
    FeedBoth(1, [3, 3, 3, 3, 3], [3, 0, 1, 2, 3, 4, 5, 6], 0x2318c63, 0x3be80e6a);
    assert |Expand("abcdef")| == 13;
    assert [3, 3, 3, 3, 3] + [3, 0, 1, 2, 3, 4, 5, 6] == [3, 3, 3, 3, 3, 3, 0, 1, 2, 3, 4, 5, 6];
  }

  lemma {:induction false} VectorData()
    ensures Feed(0x3be80e6a, Words(ALL)) == 0x1a0d3656
  {
    hide Feed, Words;
    VectorData1(); VectorData2(); VectorData3(); VectorData4();
    FeedBoth(0x3be80e6a, FIRST, SECOND, 0x11e88668, 0x31223f8a);
    FeedBoth(0x3be80e6a, FIRST + SECOND, THIRD, 0x31223f8a, 0x297c48e0);
    FeedBoth(0x3be80e6a, FIRST + SECOND + THIRD, FOURTH, 0x297c48e0, 0x1a0d3656);
  }

  lemma {:induction false} VectorVerifies()
    ensures Feed(1, Expand("abcdef") + Words(ALL + [27, 0, 0, 0, 6, 14])) == 1
  {
    hide Feed, Words, Expand, ALL;
    VectorPrefix();
    VectorData();
    VectorChecksum();
    FeedInTurn("abcdef", [3, 3, 3, 3, 3, 3, 0, 1, 2, 3, 4, 5, 6], ALL, [27, 0, 0, 0, 6, 14], 0x3be80e6a, 0x1a0d3656, 1);
  }

  /** The string "abcdef1qpzry9x8gf2tvdw0s3jn54khce6mua7lmqqqxw": its data symbols are 0 to 31, and it verifies. */
  lemma {:induction false} TheTestVectorVerifies()
    ensures Below(ALL + [27, 0, 0, 0, 6, 14], 32)
    ensures Chars(ALL + [27, 0, 0, 0, 6, 14]) == "qpzry9x8gf2tvdw0s3jn54khce6mua7l" + "mqqqxw"
    ensures Symbols("qpzry9x8gf2tvdw0s3jn54khce6mua7l" + "mqqqxw") == Some(ALL + [27, 0, 0, 0, 6, 14])
    ensures Feed(1, Expand("abcdef") + Words(ALL + [27, 0, 0, 0, 6, 14])) == 1
  {
    hide Feed, Words, Expand, Symbols, CHARSET, ALL;
    EveryCharacter();
    VectorVerifies();
    VectorTail();
    CharsOn(ALL, [27, 0, 0, 0, 6, 14]);
    SymbolsOfChars(ALL + [27, 0, 0, 0, 6, 14]);
  }

  lemma {:induction false} VectorTail()
    ensures Below([27, 0, 0, 0, 6, 14], 32) && Chars([27, 0, 0, 0, 6, 14]) == "mqqqxw"
  {
  }

  // ---------- an account and its address ----------

  lemma {:induction false} AccountPrefix1()
    ensures Feed(0x1, Words([3, 3, 3, 3, 3])) == 0x2318c63
  {
    hide Feed, Words, Word;
    SmallWords();
    FeedFive(0x1, 3, 3, 3, 3, 3);
  }

  lemma {:induction false} AccountPrefix2()
    ensures Feed(0x2318c63, Words([3, 0, 1, 2, 1, 11, 15, 19])) == 0x3be9333f
  {
    hide Feed, Words, Word;
    SmallWords();
    FeedEight(0x2318c63, 3, 0, 1, 2, 1, 11, 15, 19);
  }

  lemma {:induction false} AccountData1()
    ensures Feed(0x3be9333f, Words(FIRST)) == 0x189d5907
  {
    hide Feed, Words, Word;
    SmallWords();
    FeedEight(0x3be9333f, 0, 1, 2, 3, 4, 5, 6, 7);
  }

  lemma {:induction false} AccountData2()
    ensures Feed(0x189d5907, Words(SECOND)) == 0x3d061e21
  {
    hide Feed, Words, Word;
    SmallWords();
    FeedEight(0x189d5907, 8, 9, 10, 11, 12, 13, 14, 15);
  }

  lemma {:induction false} AccountData3()
    ensures Feed(0x3d061e21, Words(THIRD)) == 0x5b4ab9b
  {
    hide Feed, Words, Word;
    SmallWords();
    FeedEight(0x3d061e21, 16, 17, 18, 19, 20, 21, 22, 23);
  }

  lemma {:induction false} AccountData4()
    ensures Feed(0x5b4ab9b, Words(FOURTH)) == 0x2e16911a
  {
    hide Feed, Words, Word;
    SmallWords();
    FeedEight(0x5b4ab9b, 24, 25, 26, 27, 28, 29, 30, 31);
  }

  lemma {:induction false} AccountChecksum()
    ensures Feed(0x2e16911a, Words([0, 27, 3, 6, 25, 8])) == 0x1
  {
    hide Feed, Words, Word;
    SmallWords();
    FeedSix(0x2e16911a, 0, 27, 3, 6, 25, 8);
  }

  lemma {:induction false} AccountPrefix()
    ensures Expand("abakos") == Words([3, 3, 3, 3, 3, 3, 0, 1, 2, 1, 11, 15, 19]) && Feed(1, Words([3, 3, 3, 3, 3, 3, 0, 1, 2, 1, 11, 15, 19])) == 0x3be9333f
  {
    hide Feed, Word;
    NoWord();
    AccountPrefix1();
    AccountPrefix2();
    FeedBoth(1, [3, 3, 3, 3, 3], [3, 0, 1, 2, 1, 11, 15, 19], 0x2318c63, 0x3be9333f);
    assert |Expand("abakos")| == 13;
    assert [3, 3, 3, 3, 3] + [3, 0, 1, 2, 1, 11, 15, 19] == [3, 3, 3, 3, 3, 3, 0, 1, 2, 1, 11, 15, 19];
  }

  lemma {:induction false} AccountData()
    ensures Feed(0x3be9333f, Words(ALL)) == 0x2e16911a
  {
    hide Feed, Words;
    AccountData1(); AccountData2(); AccountData3(); AccountData4();
    FeedBoth(0x3be9333f, FIRST, SECOND, 0x189d5907, 0x3d061e21);
    FeedBoth(0x3be9333f, FIRST + SECOND, THIRD, 0x3d061e21, 0x5b4ab9b);
    FeedBoth(0x3be9333f, FIRST + SECOND + THIRD, FOURTH, 0x5b4ab9b, 0x2e16911a);
  }

  lemma {:induction false} AccountVerifies()
    ensures Feed(1, Expand("abakos") + Words(ALL + [0, 27, 3, 6, 25, 8])) == 1
  {
    hide Feed, Words, Expand, ALL;
    AccountPrefix();
    AccountData();
    AccountChecksum();
    FeedInTurn("abakos", [3, 3, 3, 3, 3, 3, 0, 1, 2, 1, 11, 15, 19], ALL, [0, 27, 3, 6, 25, 8], 0x3be9333f, 0x2e16911a, 1);
  }

  /** Eight symbols and the five bytes they spell. */
  predicate Spells(symbols: seq<nat>, bytes: seq<nat>) { AllBits(symbols, 5) == AllBits(bytes, 8) }

  lemma {:induction false} AllBitsOn(xs: seq<nat>, ys: seq<nat>, w: nat)
    ensures AllBits(xs + ys, w) == AllBits(xs, w) + AllBits(ys, w)
  {
    hide BitsOf;
    if ys == [] {
      assert xs + ys == xs;
    } else {
      AllBitsOn(xs, ys[..|ys| - 1], w);
      assert (xs + ys)[..|xs + ys| - 1] == xs + ys[..|ys| - 1];
    }
  }

  lemma {:induction false} SpellsOn(xs: seq<nat>, ys: seq<nat>, a: seq<nat>, b: seq<nat>)
    requires Spells(xs, a) && Spells(ys, b)
    ensures Spells(xs + ys, a + b)
  {
    hide AllBits;
    AllBitsOn(xs, ys, 5);
    AllBitsOn(a, b, 8);
  }

  /** The number that symbols or bytes spell. */
  function Number(xs: seq<nat>, base: nat): nat {
    if xs == [] then 0 else Number(xs[..|xs| - 1], base) * base + xs[|xs| - 1]
  }

  lemma {:induction false} SymbolsSpellNumber(xs: seq<nat>)
    requires Below(xs, 32)
    ensures AllBits(xs, 5) == BitsOf(Number(xs, 32), 5 * |xs|)
  {
    hide BitsOf, Shl, Shr;
    if xs != [] {
      var front, x := xs[..|xs| - 1], xs[|xs| - 1];
      SymbolsSpellNumber(front);
      Appended(Number(front, 32), x, 5 * |front|, 5);
      ShlIs(Number(front, 32));
      Powers();
    } else {
      NoBits();
    }
  }

  lemma {:induction false} BytesSpellNumber(xs: seq<nat>)
    requires Below(xs, 256)
    ensures AllBits(xs, 8) == BitsOf(Number(xs, 256), 8 * |xs|)
  {
    hide BitsOf, Shl, Shr;
    if xs != [] {
      var front, x := xs[..|xs| - 1], xs[|xs| - 1];
      BytesSpellNumber(front);
      Appended(Number(front, 256), x, 8 * |front|, 8);
      ShlIs(Number(front, 256));
      Powers();
    } else {
      NoBits();
    }
  }

  lemma {:induction false} NoBits()
    ensures BitsOf(0, 0) == []
  {
  }

  lemma {:induction false} Appended(n: nat, x: nat, a: nat, w: nat)
    requires w in {5, 8} && x < (if w == 5 then 32 else 256)
    ensures BitsOf(Shl(n, w) + x, a + w) == BitsOf(n, a) + BitsOf(x, w)
  {
    hide BitsOf, Shl, Shr;
    Powers();
    BitsSplit(Shl(n, w) + x, a, w);
    LowBits(n, x, w);
    ShrUndoes(n, x, w);
  }

  lemma {:induction false} NumberOfFive(p: nat, q: nat, r: nat, s: nat, t: nat, base: nat)
    ensures Number([p, q, r, s, t], base) == (((p * base + q) * base + r) * base + s) * base + t
  {
    assert [p, q, r, s, t][..4] == [p, q, r, s] && [p, q, r, s][..3] == [p, q, r] && [p, q, r][..2] == [p, q] && [p, q][..1] == [p];
    assert Number([p], base) == p by { assert [p][..0] == []; }
    assert Number([p, q], base) == p * base + q;
    assert Number([p, q, r], base) == (p * base + q) * base + r;
  }

  lemma {:induction false} NumberOfEight(p: nat, q: nat, r: nat, s: nat, t: nat, u: nat, v: nat, x: nat, base: nat)
    ensures Number([p, q, r, s, t, u, v, x], base) == (((((((p * base + q) * base + r) * base + s) * base + t) * base + u) * base + v) * base + x)
  {
    NumberOfFive(p, q, r, s, t, base);
    assert [p, q, r, s, t, u, v, x][..7] == [p, q, r, s, t, u, v] && [p, q, r, s, t, u, v][..6] == [p, q, r, s, t, u];
    assert [p, q, r, s, t, u][..5] == [p, q, r, s, t];
    assert Number([p, q, r, s, t, u], base) == Number([p, q, r, s, t], base) * base + u;
    assert Number([p, q, r, s, t, u, v], base) == Number([p, q, r, s, t, u], base) * base + v;
  }

  lemma {:induction false} FirstSpells()
    ensures Spells(FIRST, [0x00, 0x44, 0x32, 0x14, 0xc7])
  {
    hide BitsOf, AllBits, Number;
    NumberOfEight(0, 1, 2, 3, 4, 5, 6, 7, 32);
    NumberOfFive(0, 68, 50, 20, 199, 256);
    SymbolsSpellNumber(FIRST);
    BytesSpellNumber([0x00, 0x44, 0x32, 0x14, 0xc7]);
  }

  lemma {:induction false} SecondSpells()
    ensures Spells(SECOND, [0x42, 0x54, 0xb6, 0x35, 0xcf])
  {
    hide BitsOf, AllBits, Number;
    NumberOfEight(8, 9, 10, 11, 12, 13, 14, 15, 32);
    NumberOfFive(66, 84, 182, 53, 207, 256);
    SymbolsSpellNumber(SECOND);
    BytesSpellNumber([0x42, 0x54, 0xb6, 0x35, 0xcf]);
  }

  lemma {:induction false} ThirdSpells()
    ensures Spells(THIRD, [0x84, 0x65, 0x3a, 0x56, 0xd7])
  {
    hide BitsOf, AllBits, Number;
    NumberOfEight(16, 17, 18, 19, 20, 21, 22, 23, 32);
    NumberOfFive(132, 101, 58, 86, 215, 256);
    SymbolsSpellNumber(THIRD);
    BytesSpellNumber([0x84, 0x65, 0x3a, 0x56, 0xd7]);
  }

  lemma {:induction false} FourthSpells()
    ensures Spells(FOURTH, [0xc6, 0x75, 0xbe, 0x77, 0xdf])
  {
    hide BitsOf, AllBits, Number;
    NumberOfEight(24, 25, 26, 27, 28, 29, 30, 31, 32);
    NumberOfFive(198, 117, 190, 119, 223, 256);
    SymbolsSpellNumber(FOURTH);
    BytesSpellNumber([0xc6, 0x75, 0xbe, 0x77, 0xdf]);
  }

  /** The account whose symbols are 0 to 31. */
  const ACCOUNT: seq<nat> := [0x00, 0x44, 0x32, 0x14, 0xc7] + [0x42, 0x54, 0xb6, 0x35, 0xcf] + [0x84, 0x65, 0x3a, 0x56, 0xd7] + [0xc6, 0x75, 0xbe, 0x77, 0xdf]

  lemma {:induction false} AllSpellsAccount()
    ensures Spells(ALL, ACCOUNT) && Below(ACCOUNT, 256)
  {
    hide Spells, FIRST, SECOND, THIRD, FOURTH;
    FirstSpells();
    SecondSpells();
    ThirdSpells();
    FourthSpells();
    SpellsOn(FIRST, SECOND, [0x00, 0x44, 0x32, 0x14, 0xc7], [0x42, 0x54, 0xb6, 0x35, 0xcf]);
    SpellsOn(FIRST + SECOND, THIRD, [0x00, 0x44, 0x32, 0x14, 0xc7] + [0x42, 0x54, 0xb6, 0x35, 0xcf], [0x84, 0x65, 0x3a, 0x56, 0xd7]);
    SpellsOn(FIRST + SECOND + THIRD, FOURTH, [0x00, 0x44, 0x32, 0x14, 0xc7] + [0x42, 0x54, 0xb6, 0x35, 0xcf] + [0x84, 0x65, 0x3a, 0x56, 0xd7], [0xc6, 0x75, 0xbe, 0x77, 0xdf]);
  }

  /** One whole address: the account's twenty bytes, and the string that is printed for it and read back. */
  lemma {:induction false} TheAddressOfAnAccount()
    ensures Address("abakos", ACCOUNT) == "abakos1" + "qpzry9x8gf2tvdw0s3jn54khce6mua7l" + "qmrxeg"
    ensures Decoded("abakos1" + "qpzry9x8gf2tvdw0s3jn54khce6mua7l" + "qmrxeg") == Some(ACCOUNT)
  {
    hide Feed, Words, Expand, Decoded, Address, CHARSET, ALL, ACCOUNT, Eights, AllBits, Chars;
    EveryCharacter();
    AccountVerifies();
    AccountTail();
    AllSpellsAccount();
    var six: seq<nat> := [0, 27, 3, 6, 25, 8];
    CharsOn(ALL, six);
    OnlyFirst32Matter("abakos", ALL, [], six);
    EightsUndo(ACCOUNT, []);
    assert ALL + [] + six == ALL + six && AllBits(ACCOUNT, 8) + [] == AllBits(ACCOUNT, 8);
    PrintedExactlyWhenVerified("abakos", ALL + six, ACCOUNT);
    assert "abakos" + "1" == "abakos1";
    assert "abakos1" + ("qpzry9x8gf2tvdw0s3jn54khce6mua7l" + "qmrxeg") == "abakos1" + "qpzry9x8gf2tvdw0s3jn54khce6mua7l" + "qmrxeg";
  }

  lemma {:induction false} AccountTail()
    ensures Below([0, 27, 3, 6, 25, 8], 32) && Chars([0, 27, 3, 6, 25, 8]) == "qmrxeg"
  {
  }
}
