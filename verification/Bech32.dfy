/** Bech32 addresses as the proxy and the agent print them, and as the agent reads them. */
module Bech32 {
  import opened Prelude
  import opened Regrouping

  // ---------- the checksum ----------

  function Top(c: bv32): bv32 { c >> 25 }

  /** The generators that the five top bits select. */
  function Gens(b: bv32): bv32 {
    (if b & 1 != 0 then 0x3b6a57b2 else 0) ^ (if b & 2 != 0 then 0x26508e6d else 0)
    ^ (if b & 4 != 0 then 0x1ea119fa else 0) ^ (if b & 8 != 0 then 0x3d4233dd else 0)
    ^ (if b & 16 != 0 then 0x2a1462b3 else 0)
  }

  function Mixed(c: bv32, g: bv32, v: bv32): bv32 { ((c & 0x1ffffff) << 5) ^ v ^ g }

  /** One step of the polymod: 30 bits of state, a symbol shifted in from below. */
  function Step(c: bv32, v: bv32): bv32 { Mixed(c, Gens(Top(c)), v) }

  function Feed(c: bv32, vs: seq<bv32>): bv32 {
    if vs == [] then c else Step(Feed(c, vs[..|vs| - 1]), vs[|vs| - 1])
  }

  /** The body of the loop over the values, with the loop over the five generators. */
  method PolymodStep(c: bv32, v: bv32) returns (r: bv32)
    ensures r == Step(c, v)
  {
    var b := c >> 25;
    r := ((c & 0x1ffffff) << 5) ^ v;
    r := r ^ (if b & 1 != 0 then 0x3b6a57b2 else 0);
    r := r ^ (if b & 2 != 0 then 0x26508e6d else 0);
    r := r ^ (if b & 4 != 0 then 0x1ea119fa else 0);
    r := r ^ (if b & 8 != 0 then 0x3d4233dd else 0);
    r := r ^ (if b & 16 != 0 then 0x2a1462b3 else 0);
  }

  /** `_b32_polymod` and `_bech32_polymod`. */
  method Polymod(values: seq<bv32>) returns (c: bv32)
    ensures c == Feed(1, values)
  {
    hide Step;
    c := 1;
    for i := 0 to |values|
      invariant c == Feed(1, values[..i])
    {
      assert values[..i + 1][..i] == values[..i];
      c := PolymodStep(c, values[i]);
    }
    assert values[..|values|] == values;
  }

  function Xor(a: bv32, b: bv32): bv32 { a ^ b }

  /** A symbol appended below. */
  function Up(d: bv32, s: bv32): bv32 { (d << 5) ^ s }

  lemma {:induction false} TopStays(c: bv32, d: bv32)
    requires d < 0x2000000
    ensures Top(Xor(c, d)) == Top(c)
  {
  }

  lemma {:induction false} MixedMoves(c: bv32, d: bv32, g: bv32, s: bv32)
    requires d < 0x2000000
    ensures Mixed(Xor(c, d), g, s) == Xor(Mixed(c, g, 0), Up(d, s))
  {
  }

  /** A difference that has not reached the top bits yet just moves up. */
  lemma {:induction false} StepShifts(c: bv32, d: bv32, s: bv32)
    requires d < 0x2000000
    ensures Step(Xor(c, d), s) == Xor(Step(c, 0), Up(d, s))
  {
    hide Gens, Mixed, Xor, Up, Top;
    TopStays(c, d);
    MixedMoves(c, d, Gens(Top(c)), s);
  }

  lemma {:induction false} FirstMoves(c: bv32, g: bv32, s: bv32)
    ensures Mixed(c, g, s) == Xor(Mixed(c, g, 0), s)
  {
  }

  lemma {:induction false} FirstShift(c: bv32, a: bv32)
    ensures Step(c, a) == Xor(Step(c, 0), a)
  {
    hide Gens, Mixed, Xor, Top;
    FirstMoves(c, Gens(Top(c)), a);
  }

  lemma {:induction false} GensAreSmall(b: bv32)
    ensures Gens(b) < 0x40000000
  {
  }

  lemma {:induction false} MixedIsSmall(c: bv32, g: bv32)
    requires g < 0x40000000
    ensures Mixed(c, g, 0) < 0x40000000
  {
  }

  lemma {:induction false} StepIsSmall(c: bv32)
    ensures Step(c, 0) < 0x40000000
  {
    hide Gens, Mixed, Top;
    GensAreSmall(Top(c));
    MixedIsSmall(c, Gens(Top(c)));
  }

  function Feed6(c: bv32, a: bv32, b: bv32, d: bv32, e: bv32, f: bv32, g: bv32): bv32 {
    Step(Step(Step(Step(Step(Step(c, a), b), d), e), f), g)
  }

  /** Six symbols in one 30-bit value. */
  function Pack(a: bv32, b: bv32, d: bv32, e: bv32, f: bv32, g: bv32): bv32 {
    Up(Up(Up(Up(Up(a, b), d), e), f), g)
  }

  lemma {:induction false} Grow(d: bv32, s: bv32)
    requires s < 32
    ensures d < 32 ==> Up(d, s) < 0x400
    ensures d < 0x400 ==> Up(d, s) < 0x8000
    ensures d < 0x8000 ==> Up(d, s) < 0x100000
    ensures d < 0x100000 ==> Up(d, s) < 0x2000000
  {
  }

  lemma {:induction false} SmallEnough(d: bv32)
    ensures d < 32 || d < 0x400 || d < 0x8000 || d < 0x100000 ==> d < 0x2000000
  {
  }

  /** Putting six symbols in place of the six zeros at the end just XORs them, packed, into the result. */
  lemma {:induction false} LastSixXor(c: bv32, a: bv32, b: bv32, d: bv32, e: bv32, f: bv32, g: bv32)
    requires a < 32 && b < 32 && d < 32 && e < 32 && f < 32 && g < 32
    ensures Feed6(c, a, b, d, e, f, g) == Xor(Feed6(c, 0, 0, 0, 0, 0, 0), Pack(a, b, d, e, f, g))
  {
    hide Step, Xor, Up;
    var c1 := Step(c, 0); var c2 := Step(c1, 0); var c3 := Step(c2, 0); var c4 := Step(c3, 0); var c5 := Step(c4, 0);
    var d2 := Up(a, b); var d3 := Up(d2, d); var d4 := Up(d3, e); var d5 := Up(d4, f);
    Grow(a, b); Grow(d2, d); Grow(d3, e); Grow(d4, f);
    SmallEnough(a); SmallEnough(d2); SmallEnough(d3); SmallEnough(d4);
    FirstShift(c, a);
    StepShifts(c1, a, b);
    StepShifts(c2, d2, d);
    StepShifts(c3, d3, e);
    StepShifts(c4, d4, f);
    StepShifts(c5, d5, g);
  }

  /** Piece `k` of a 30-bit value, the highest first. */
  function Piece(pm: bv32, k: nat): bv32
    requires k < 6
  {
    match k
    case 0 => (pm >> 25) & 31
    case 1 => (pm >> 20) & 31
    case 2 => (pm >> 15) & 31
    case 3 => (pm >> 10) & 31
    case 4 => (pm >> 5) & 31
    case 5 => pm & 31
  }

  lemma {:induction false} PiecesAreSmall(pm: bv32)
    ensures Piece(pm, 0) < 32 && Piece(pm, 1) < 32 && Piece(pm, 2) < 32 && Piece(pm, 3) < 32 && Piece(pm, 4) < 32 && Piece(pm, 5) < 32
  {
  }

  /** The six 5-bit pieces of a 30-bit value pack to it. */
  lemma {:induction false} PackUndoes(pm: bv32)
    requires pm < 0x40000000
    ensures Pack(Piece(pm, 0), Piece(pm, 1), Piece(pm, 2), Piece(pm, 3), Piece(pm, 4), Piece(pm, 5)) == pm
  {
  }

  lemma {:induction false} FlipLow(p: bv32)
    requires p < 0x40000000
    ensures Xor(p, 1) < 0x40000000 && Xor(p, Xor(p, 1)) == 1
  {
  }

  /** With the checksum in place of the zeros, the polymod is 1. */
  lemma {:induction false} ChecksumVerifies(c: bv32)
    ensures var pm := Xor(Feed6(c, 0, 0, 0, 0, 0, 0), 1);
      Feed6(c, Piece(pm, 0), Piece(pm, 1), Piece(pm, 2), Piece(pm, 3), Piece(pm, 4), Piece(pm, 5)) == 1
  {
    hide Step, Pack, Xor, Piece;
    var p := Feed6(c, 0, 0, 0, 0, 0, 0);
    var pm := Xor(p, 1);
    StepIsSmall(Step(Step(Step(Step(Step(c, 0), 0), 0), 0), 0));
    FlipLow(p);
    PiecesAreSmall(pm);
    LastSixXor(c, Piece(pm, 0), Piece(pm, 1), Piece(pm, 2), Piece(pm, 3), Piece(pm, 4), Piece(pm, 5));
    PackUndoes(pm);
  }

  // ---------- symbols ----------

  /** A symbol below 32 as a word, and back. */
  function Word(n: nat): bv32 {
    (if n / 16 % 2 == 1 then 16 else 0) | (if n / 8 % 2 == 1 then 8 else 0) | (if n / 4 % 2 == 1 then 4 else 0)
    | (if n / 2 % 2 == 1 then 2 else 0) | (if n % 2 == 1 then 1 else 0)
  }

  function Symbol(w: bv32): (n: nat)
    ensures n < 32
  {
    (if w & 16 != 0 then 16 else 0) + (if w & 8 != 0 then 8 else 0) + (if w & 4 != 0 then 4 else 0)
    + (if w & 2 != 0 then 2 else 0) + (if w & 1 != 0 then 1 else 0)
  }

  lemma {:induction false} WordOfSymbol(w: bv32)
    requires w < 32
    ensures Word(Symbol(w)) == w
  {
    var n := Symbol(w);
    assert (n / 16 % 2 == 1 <==> w & 16 != 0) && (n / 8 % 2 == 1 <==> w & 8 != 0) && (n / 4 % 2 == 1 <==> w & 4 != 0)
        && (n / 2 % 2 == 1 <==> w & 2 != 0) && (n % 2 == 1 <==> w & 1 != 0);
    FiveBits(w);
  }

  lemma {:induction false} FiveBits(w: bv32)
    requires w < 32
    ensures (if w & 16 != 0 then 16 else 0) | (if w & 8 != 0 then 8 else 0) | (if w & 4 != 0 then 4 else 0)
            | (if w & 2 != 0 then 2 else 0) | (if w & 1 != 0 then 1 else 0) == w
  {
  }

  function Words(xs: seq<nat>): (w: seq<bv32>)
    ensures |w| == |xs|
  {
    seq(|xs|, i requires 0 <= i < |xs| => Word(xs[i]))
  }

  const CHARSET: string := "qpzry9x8gf2tvdw0s3jn54khce6mua7l"

  function Chars(xs: seq<nat>): (s: string)
    requires Below(xs, 32)
    ensures |s| == |xs|
  {
    seq(|xs|, i requires 0 <= i < |xs| => CHARSET[xs[i]])
  }

  /** `CHARSET.index(c)`; nothing when the character is not there. */
  function Index(c: char, from: nat): (r: Option<nat>)
    requires from <= 32
    ensures r.Some? ==> from <= r.value < 32 && CHARSET[r.value] == c
    ensures r.None? ==> forall i :: from <= i < 32 ==> CHARSET[i] != c
    decreases 32 - from
  {
    if from == 32 then None else if CHARSET[from] == c then Some(from) else Index(c, from + 1)
  }

  lemma {:induction false} CharsetHasNoRepeats(i: nat, j: nat)
    requires i < j < 32
    ensures CHARSET[i] != CHARSET[j]
  {
    if i < 16 { EarlyCharsDiffer(i, j); } else { LateCharsDiffer(i, j); }
  }

  lemma {:induction false} EarlyCharsDiffer(i: nat, j: nat)
    requires i < j < 32 && i < 16
    ensures CHARSET[i] != CHARSET[j]
  {
  }

  lemma {:induction false} LateCharsDiffer(i: nat, j: nat)
    requires 16 <= i < j < 32
    ensures CHARSET[i] != CHARSET[j]
  {
  }

  lemma {:induction false} NoOneInCharset(i: nat)
    requires i < 32
    ensures CHARSET[i] != '1'
  {
  }

  lemma {:induction false} IndexOfChar(n: nat)
    requires n < 32
    ensures Index(CHARSET[n], 0) == Some(n)
  {
    hide Index;
    var r := Index(CHARSET[n], 0);
    assert r.Some?;
    if r.value < n { CharsetHasNoRepeats(r.value, n); } else if n < r.value { CharsetHasNoRepeats(n, r.value); }
  }

  /** The symbols of a string; nothing when a character is not in the set. */
  function Symbols(s: string): (r: Option<seq<nat>>)
    ensures r.Some? ==> |r.value| == |s| && Below(r.value, 32)
  {
    if s == [] then Some([])
    else
      match Symbols(s[..|s| - 1])
      case None => None
      case Some(xs) => if Index(s[|s| - 1], 0).None? then None else Some(xs + [Index(s[|s| - 1], 0).value])
  }

  lemma {:induction false} SymbolsOneMore(s: string, xs: seq<nat>, n: nat)
    requires Symbols(s) == Some(xs) && n < 32
    ensures Symbols(s + [CHARSET[n]]) == Some(xs + [n])
  {
    hide Index;
    assert (s + [CHARSET[n]])[..|s|] == s;
    IndexOfChar(n);
  }

  lemma {:induction false} SymbolsOfChars(xs: seq<nat>)
    requires Below(xs, 32)
    ensures Symbols(Chars(xs)) == Some(xs)
  {
    hide Symbols;
    if xs == [] {
      NoChars();
    } else {
      var init, last := xs[..|xs| - 1], xs[|xs| - 1];
      assert Chars(xs) == Chars(init) + [CHARSET[last]];
      SymbolsOfChars(init);
      SymbolsOneMore(Chars(init), init, last);
      assert init + [last] == xs;
    }
  }

  lemma {:induction false} NoChars()
    ensures Chars([]) == [] && Symbols([]) == Some([])
  {
  }

  // ---------- printing ----------

  /** A prefix whose expansion fits in 5-bit values; the one in use is "abakos". */
  predicate Ascii(s: string) { forall i :: 0 <= i < |s| ==> s[i] as int < 128 }

  /** The human-readable part as the checksum sees it. */
  function Expand(hrp: string): seq<bv32> {
    Words(seq(|hrp|, i requires 0 <= i < |hrp| => hrp[i] as int / 32)) + [0]
    + Words(seq(|hrp|, i requires 0 <= i < |hrp| => hrp[i] as int % 32))
  }

  const SIX_ZEROS: seq<bv32> := [0, 0, 0, 0, 0, 0]

  function Checksum(hrp: string, data: seq<nat>): (c: seq<nat>)
    ensures |c| == 6 && Below(c, 32)
  {
    var pm := Xor(Feed(1, Expand(hrp) + Words(data) + SIX_ZEROS), 1);
    [Symbol(Piece(pm, 0)), Symbol(Piece(pm, 1)), Symbol(Piece(pm, 2)), Symbol(Piece(pm, 3)), Symbol(Piece(pm, 4)), Symbol(Piece(pm, 5))]
  }

  function Encoded(hrp: string, data: seq<nat>): string
    requires Below(data, 32)
  {
    hrp + "1" + Chars(data + Checksum(hrp, data))
  }

  /** The address of an account. */
  function Address(hrp: string, account: seq<nat>): string
    requires Below(account, 256)
  {
    FivesSpell(AllBits(account, 8));
    Encoded(hrp, Fives(AllBits(account, 8)))
  }

  /** `[(pm >> 5 * (5 - i)) & 31 for i in range(6)]` of the polymod with its low bit flipped. */
  method ChecksumOf(polymod: bv32) returns (cks: seq<nat>)
    ensures var pm := Xor(polymod, 1);
      cks == [Symbol(Piece(pm, 0)), Symbol(Piece(pm, 1)), Symbol(Piece(pm, 2)), Symbol(Piece(pm, 3)), Symbol(Piece(pm, 4)), Symbol(Piece(pm, 5))]
  {
    hide Symbol;
    var pm := polymod ^ 1;
    cks := [];
    for i := 0 to 6
      invariant |cks| == i && forall k: nat :: k < i ==> cks[k] == Symbol(Piece(Xor(polymod, 1), k))
    {
      cks := cks + [Symbol(Piece(pm, i))];
    }
  }

  /** `_b32_encode`. */
  method B32Encode(hrp: string, data: seq<nat>) returns (s: string)
    requires Below(data, 32) && Ascii(hrp)
    ensures s == Encoded(hrp, data)
  {
    hide Feed, Xor, Piece, Symbol, Word;
    var exp := Words(seq(|hrp|, i requires 0 <= i < |hrp| => hrp[i] as int / 32)) + [0]
               + Words(seq(|hrp|, i requires 0 <= i < |hrp| => hrp[i] as int % 32));
    var pm := Polymod(exp + Words(data) + [0, 0, 0, 0, 0, 0]);
    var cks := ChecksumOf(pm);
    s := hrp + "1" + Chars(data + cks);
  }

  /** The proxy's address of a 0x login: `_b32_encode("abakos", _to5(bytes))`. */
  method ProxyAddress(account: seq<nat>) returns (s: string)
    requires Below(account, 256)
    ensures s == Address("abakos", account)
  {
    FivesSpell(AllBits(account, 8));
    var data := To5(account);
    s := B32Encode("abakos", data);
  }

  /** The agent's `evm_to_bech32`, with its own copy of both loops. */
  method EvmToBech32(raw: seq<nat>, hrp: string) returns (s: string)
    requires Below(raw, 256) && Ascii(hrp)
    ensures s == Address(hrp, raw)
  {
    hide Feed, Xor, Piece, Symbol, Word, Fives, AllBits;
    FivesSpell(AllBits(raw, 8));
    var data := To5(raw);
    var polymod := Polymod(Expand(hrp) + Words(data) + SIX_ZEROS);
    var chk := ChecksumOf(polymod);
    s := hrp + "1" + Chars(data + chk);
  }

  // ---------- every printed address verifies ----------

  lemma {:induction false} FeedOneMore(c: bv32, vs: seq<bv32>, v: bv32)
    ensures Feed(c, vs + [v]) == Step(Feed(c, vs), v)
  {
    hide Step;
    assert (vs + [v])[..|vs|] == vs;
  }

  lemma {:induction false} FeedSix(c: bv32, vs: seq<bv32>, t: seq<bv32>)
    requires |t| == 6
    ensures Feed(c, vs + t) == Feed6(Feed(c, vs), t[0], t[1], t[2], t[3], t[4], t[5])
  {
    hide Step, Feed;
    FeedOneMore(c, vs, t[0]);
    FeedOneMore(c, vs + [t[0]], t[1]);
    FeedOneMore(c, vs + [t[0]] + [t[1]], t[2]);
    FeedOneMore(c, vs + [t[0]] + [t[1]] + [t[2]], t[3]);
    FeedOneMore(c, vs + [t[0]] + [t[1]] + [t[2]] + [t[3]], t[4]);
    FeedOneMore(c, vs + [t[0]] + [t[1]] + [t[2]] + [t[3]] + [t[4]], t[5]);
    assert vs + t == vs + [t[0]] + [t[1]] + [t[2]] + [t[3]] + [t[4]] + [t[5]];
  }

  /** BIP-173: the polymod over the expanded prefix, the data and the checksum is 1. */
  lemma {:induction false} PrintedVerifies(hrp: string, data: seq<nat>)
    requires Below(data, 32)
    ensures Feed(1, Expand(hrp) + Words(data + Checksum(hrp, data))) == 1
    ensures Symbols(Encoded(hrp, data)[|hrp| + 1..]) == Some(data + Checksum(hrp, data))
  {
    hide Step, Feed, Word, Symbol, Symbols, Piece, Xor, Feed6;
    var vs, ck := Expand(hrp) + Words(data), Checksum(hrp, data);
    assert Words(data + ck) == Words(data) + Words(ck);
    assert Expand(hrp) + Words(data + ck) == vs + Words(ck);
    FeedSix(1, vs, Words(ck));
    FeedSix(1, vs, SIX_ZEROS);
    ChecksumVerifies(Feed(1, vs));
    var pm := Xor(Feed(1, vs + SIX_ZEROS), 1);
    PiecesAreSmall(pm);
    WordOfSymbol(Piece(pm, 0)); WordOfSymbol(Piece(pm, 1)); WordOfSymbol(Piece(pm, 2));
    WordOfSymbol(Piece(pm, 3)); WordOfSymbol(Piece(pm, 4)); WordOfSymbol(Piece(pm, 5));
    SymbolsOfChars(data + ck);
    assert Encoded(hrp, data)[|hrp| + 1..] == Chars(data + ck);
  }

  // ---------- reading ----------

  /** `addr.rfind(c)`. */
  function RFind(s: string, c: char): (k: Option<nat>)
    ensures k.Some? ==> k.value < |s| && s[k.value] == c && forall i :: k.value < i < |s| ==> s[i] != c
    ensures k.None? ==> forall i :: 0 <= i < |s| ==> s[i] != c
  {
    if s == [] then None else if s[|s| - 1] == c then Some(|s| - 1) else RFind(s[..|s| - 1], c)
  }

  /** `xs[:-6]`. */
  function DropSix(xs: seq<nat>): seq<nat> { if |xs| < 6 then [] else xs[..|xs| - 6] }

  /** What `bech32_to_evm` reads out of a string; the checksum is dropped, not checked. */
  function Decoded(addr: string): Option<seq<nat>> {
    match RFind(addr, '1')
    case None => None
    case Some(pos) =>
      match Symbols(addr[pos + 1..])
      case None => None
      case Some(dec) =>
        var out := Eights(AllBits(DropSix(dec), 5));
        if |out| == 20 then Some(out) else None
  }

  method Bech32ToEvm(addr: string) returns (account: Option<seq<nat>>)
    ensures account == Decoded(addr)
  {
    var pos := RFind(addr, '1');
    if pos.None? { return None; }
    var rest := addr[pos.value + 1..];
    var dec: seq<nat> := [];
    for i := 0 to |rest|
      invariant Symbols(rest[..i]) == Some(dec)
    {
      assert rest[..i + 1][..i] == rest[..i];
      var k := Index(rest[i], 0);
      if k.None? {
        NoSymbols(rest, i + 1);
        return None;
      }
      dec := dec + [k.value];
    }
    assert rest[..|rest|] == rest;
    var out := From5(DropSix(dec));
    account := if |out| == 20 then Some(out) else None;
  }

  lemma {:induction false} NoSymbols(s: string, k: nat)
    requires k <= |s| && Symbols(s[..k]).None?
    ensures Symbols(s).None?
    decreases |s| - k
  {
    if k < |s| {
      assert s[..k + 1][..k] == s[..k];
      NoSymbols(s, k + 1);
    } else {
      assert s[..k] == s;
    }
  }

  /** Reading undoes printing for every 20-byte account, under every prefix; printed accounts of any other
      length are refused. */
  lemma {:induction false} AddressRoundTrip(hrp: string, account: seq<nat>)
    requires Below(account, 256)
    ensures Decoded(Address(hrp, account)) == if |account| == 20 then Some(account) else None
  {
    hide Feed, Index, Symbols, RFind, Eights, Fives, AllBits;
    FivesSpell(AllBits(account, 8));
    var data := Fives(AllBits(account, 8));
    var all := data + Checksum(hrp, data);
    var addr := Address(hrp, account);
    LastOne(hrp, all);
    SymbolsOfChars(all);
    assert addr[|hrp| + 1..] == Chars(all);
    assert DropSix(all) == data;
    RegroupRoundTrip(account);
  }

  lemma {:induction false} LastOne(hrp: string, xs: seq<nat>)
    requires Below(xs, 32)
    ensures RFind(hrp + "1" + Chars(xs), '1') == Some(|hrp|)
  {
    hide RFind;
    var s := hrp + "1" + Chars(xs);
    assert s[|hrp|] == '1';
    forall i | |hrp| < i < |s| ensures s[i] != '1' { NoOneInCharset(xs[i - |hrp| - 1]); }
  }

  // ---------- what the reader accepts ----------

  lemma {:induction false} ReadParts(hrp: string, xs: seq<nat>)
    requires Below(xs, 32)
    ensures Decoded(hrp + "1" + Chars(xs)) ==
      var out := Eights(AllBits(DropSix(xs), 5)); if |out| == 20 then Some(out) else None
  {
    hide Index, Symbols, RFind, Eights, AllBits;
    LastOne(hrp, xs);
    SymbolsOfChars(xs);
    assert (hrp + "1" + Chars(xs))[|hrp| + 1..] == Chars(xs);
  }

  /** A string of symbols behind the last '1' is accepted exactly when there are 38 or 39 of them. */
  lemma {:induction false} AcceptedExactlyByLength(hrp: string, xs: seq<nat>)
    requires Below(xs, 32)
    ensures Decoded(hrp + "1" + Chars(xs)).Some? <==> |xs| == 38 || |xs| == 39
  {
    hide Eights, AllBits, Decoded;
    ReadParts(hrp, xs);
    EightsSpell(AllBits(DropSix(xs), 5));
  }

  lemma {:induction false} TakeBits(xs: seq<nat>, n: nat, w: nat)
    requires n <= |xs|
    ensures w * n <= w * |xs| && AllBits(xs, w)[..w * n] == AllBits(xs[..n], w)
    decreases |xs|
  {
    if n < |xs| {
      TakeBits(xs[..|xs| - 1], n, w);
      assert xs[..|xs| - 1][..n] == xs[..n];
      assert w * |xs| == w * (|xs| - 1) + w;
    } else {
      assert xs[..n] == xs;
    }
  }

  /** The account read is that of the first 32 symbols: the last six symbols, and a 33rd data symbol, do not
      matter at all. */
  lemma {:induction false} OnlyFirst32Matter(hrp: string, data: seq<nat>, extra: seq<nat>, six: seq<nat>)
    requires Below(data, 32) && |data| == 32 && Below(extra, 32) && |extra| <= 1 && Below(six, 32) && |six| == 6
    ensures Below(data + extra + six, 32)
    ensures Decoded(hrp + "1" + Chars(data + extra + six)) == Some(Eights(AllBits(data, 5)))
  {
    hide Eights, AllBits, Decoded, Chars;
    var xs := data + extra + six;
    ReadParts(hrp, xs);
    var body := data + extra;
    assert DropSix(xs) == body && body[..32] == data;
    TakeBits(body, 32, 5);
    EightsSpell(AllBits(body, 5));
    EightsSpell(AllBits(data, 5));
    Powers();
    assert AllBits(data, 5)[..160] == AllBits(data, 5);
    AllBitsDetermine(Eights(AllBits(body, 5)), Eights(AllBits(data, 5)), 8);
  }

  // ---------- exactly the printed addresses ----------

  lemma {:induction false} PiecesOfPack(a: bv32, b: bv32, d: bv32, e: bv32, f: bv32, g: bv32)
    requires a < 32 && b < 32 && d < 32 && e < 32 && f < 32 && g < 32
    ensures var pm := Pack(a, b, d, e, f, g);
      Piece(pm, 0) == a && Piece(pm, 1) == b && Piece(pm, 2) == d && Piece(pm, 3) == e && Piece(pm, 4) == f && Piece(pm, 5) == g
  {
  }

  lemma {:induction false} XorCancels(p: bv32, x: bv32, y: bv32)
    requires Xor(p, x) == Xor(p, y)
    ensures x == y
  {
  }

  /** Only one checksum fits: two sextuples of symbols with the same polymod behind the same data are equal. */
  lemma {:induction false} OneChecksumFits(c: bv32, s: seq<bv32>, t: seq<bv32>)
    requires |s| == 6 && |t| == 6 && (forall i :: 0 <= i < 6 ==> s[i] < 32 && t[i] < 32)
    requires Feed6(c, s[0], s[1], s[2], s[3], s[4], s[5]) == Feed6(c, t[0], t[1], t[2], t[3], t[4], t[5])
    ensures s == t
  {
    hide Feed6, Pack, Xor, Piece;
    LastSixXor(c, s[0], s[1], s[2], s[3], s[4], s[5]);
    LastSixXor(c, t[0], t[1], t[2], t[3], t[4], t[5]);
    XorCancels(Feed6(c, 0, 0, 0, 0, 0, 0), Pack(s[0], s[1], s[2], s[3], s[4], s[5]), Pack(t[0], t[1], t[2], t[3], t[4], t[5]));
    PiecesOfPack(s[0], s[1], s[2], s[3], s[4], s[5]);
    PiecesOfPack(t[0], t[1], t[2], t[3], t[4], t[5]);
  }

  lemma {:induction false} WordBits(b4: bool, b3: bool, b2: bool, b1: bool, b0: bool)
    ensures var w: bv32 := (if b4 then 16 else 0) | (if b3 then 8 else 0) | (if b2 then 4 else 0) | (if b1 then 2 else 0) | (if b0 then 1 else 0);
      w < 32 && (w & 16 != 0 <==> b4) && (w & 8 != 0 <==> b3) && (w & 4 != 0 <==> b2) && (w & 2 != 0 <==> b1) && (w & 1 != 0 <==> b0)
  {
  }

  lemma {:induction false} SymbolOfWord(n: nat)
    requires n < 32
    ensures Word(n) < 32 && Symbol(Word(n)) == n
  {
    WordBits(n / 16 % 2 == 1, n / 8 % 2 == 1, n / 4 % 2 == 1, n / 2 % 2 == 1, n % 2 == 1);
  }

  /** With 32 data symbols, the polymod is 1 only behind the printed checksum. */
  lemma {:induction false} VerifiesOnlyPrinted(hrp: string, data: seq<nat>, six: seq<nat>)
    requires Below(data, 32) && Below(six, 32) && |six| == 6
    ensures Feed(1, Expand(hrp) + Words(data + six)) == 1 <==> six == Checksum(hrp, data)
  {
    hide Feed, Word, Symbol, Expand, Checksum, Feed6, Symbols;
    var vs, ck := Expand(hrp) + Words(data), Checksum(hrp, data);
    PrintedVerifies(hrp, data);
    assert Expand(hrp) + Words(data + six) == vs + Words(six) && Expand(hrp) + Words(data + ck) == vs + Words(ck);
    if Feed(1, vs + Words(six)) == 1 {
      FeedSix(1, vs, Words(six));
      FeedSix(1, vs, Words(ck));
      forall i | 0 <= i < 6 ensures Words(six)[i] < 32 && Words(ck)[i] < 32 && Symbol(Words(six)[i]) == six[i] && Symbol(Words(ck)[i]) == ck[i] {
        SymbolOfWord(six[i]);
        SymbolOfWord(ck[i]);
      }
      OneChecksumFits(Feed(1, vs), Words(six), Words(ck));
      forall i | 0 <= i < 6 ensures six[i] == ck[i] { assert Words(six)[i] == Words(ck)[i]; }
    }
  }

  lemma {:induction false} FivesUndo(data: seq<nat>)
    requires Below(data, 32) && |data| == 32
    ensures Fives(AllBits(Eights(AllBits(data, 5)), 8)) == data
  {
    hide Eights, AllBits, Fives;
    EightsSpell(AllBits(data, 5));
    assert AllBits(data, 5)[..160] == AllBits(data, 5);
    assert AllBits(data, 5) + Zeros(0) == AllBits(data, 5);
    FivesUnique(AllBits(data, 5), data, 0);
  }

  lemma {:induction false} FivesOf20(account: seq<nat>)
    requires Below(account, 256) && |account| == 20
    ensures |Fives(AllBits(account, 8))| == 32 && Below(Fives(AllBits(account, 8)), 32)
  {
    FivesSpell(AllBits(account, 8));
  }

  /** Exactly which accepted strings are printed addresses: a string that reads as an account is that account's
      address if and only if it has 38 symbols behind the last '1' and its polymod is 1. The reader looks at
      neither. */
  lemma {:induction false} PrintedExactlyWhenVerified(hrp: string, xs: seq<nat>, account: seq<nat>)
    requires Below(xs, 32) && Below(account, 256) && Decoded(hrp + "1" + Chars(xs)) == Some(account)
    ensures hrp + "1" + Chars(xs) == Address(hrp, account) <==> |xs| == 38 && Feed(1, Expand(hrp) + Words(xs)) == 1
  {
    hide Eights, AllBits, Fives, Chars, Feed, Expand, Words, Decoded, Checksum;
    ReadParts(hrp, xs);
    FivesOf20(account);
    var data := Fives(AllBits(account, 8));
    var ck := Checksum(hrp, data);
    VerifiesOnlyPrinted(hrp, data, ck);
    if hrp + "1" + Chars(xs) == Address(hrp, account) {
      SameSymbols(hrp, xs, data + ck);
    }
    if |xs| == 38 && Feed(1, Expand(hrp) + Words(xs)) == 1 {
      var first, six := xs[..32], xs[32..];
      assert xs == first + six && DropSix(xs) == first;
      FivesUndo(first);
      VerifiesOnlyPrinted(hrp, first, six);
    }
  }

  lemma {:induction false} SameSymbols(hrp: string, xs: seq<nat>, ys: seq<nat>)
    requires Below(xs, 32) && Below(ys, 32) && hrp + "1" + Chars(xs) == hrp + "1" + Chars(ys)
    ensures xs == ys
  {
    hide Symbols;
    assert Chars(xs) == (hrp + "1" + Chars(xs))[|hrp| + 1..] == (hrp + "1" + Chars(ys))[|hrp| + 1..] == Chars(ys);
    SymbolsOfChars(xs);
    SymbolsOfChars(ys);
  }

  /** Every account can also be read from strings that are not its address: any six symbols do for a checksum. */
  lemma {:induction false} WrongChecksumIsRead(hrp: string, account: seq<nat>, six: seq<nat>)
    requires Below(account, 256) && |account| == 20 && Below(six, 32) && |six| == 6
    requires six != Checksum(hrp, Fives(AllBits(account, 8)))
    ensures Below(Fives(AllBits(account, 8)) + six, 32)
    ensures var s := hrp + "1" + Chars(Fives(AllBits(account, 8)) + six);
      Decoded(s) == Some(account) && s != Address(hrp, account)
  {
    hide Eights, AllBits, Fives, Chars, Feed, Expand, Words, Decoded, Checksum;
    FivesOf20(account);
    var data := Fives(AllBits(account, 8));
    OnlyFirst32Matter(hrp, data, [], six);
    assert data + [] + six == data + six;
    RegroupRoundTrip(account);
    PrintedExactlyWhenVerified(hrp, data + six, account);
    VerifiesOnlyPrinted(hrp, data, six);
  }

  /** One such string, for the account of twenty zero bytes. */
  lemma {:induction false} AnUnprintedStringIsRead() returns (s: string)
    ensures var zeros := seq(20, _ => 0); Decoded(s) == Some(zeros) && s != Address("abakos", zeros)
  {
    hide Eights, AllBits, Fives, Chars, Feed, Expand, Words, Decoded, Checksum;
    var zeros: seq<nat> := seq(20, _ => 0);
    var data := Fives(AllBits(zeros, 8));
    var six := if Checksum("abakos", data) == [0, 0, 0, 0, 0, 0] then [1, 0, 0, 0, 0, 0] else [0, 0, 0, 0, 0, 0];
    WrongChecksumIsRead("abakos", zeros, six);
    s := "abakos" + "1" + Chars(data + six);
  }
}
