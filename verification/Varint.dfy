/** Base-128 varints: the right-to-left writer, the bounded reader, and their agreement. */
module Varint {
  import opened Prelude

  const TWO64: nat := 0x1_0000_0000_0000_0000
  const TWO32: nat := 0x1_0000_0000
  newtype byte = x: int | 0 <= x < 256
  type Bytes = seq<byte>
  type Uint64 = x: int | 0 <= x < TWO64

  // ---------- writing ----------

  /** The minimal base-128 encoding, least significant group first. */
  function Encode(v: nat): (b: Bytes)
    ensures |b| >= 1
  {
    if v < 128 then [v as byte] else [(v % 128 + 128) as byte] + Encode(v / 128)
  }

  function BitLen(v: nat): nat {
    if v == 0 then 0 else 1 + BitLen(v / 2)
  }

  /** `sovAbci`: the number of 7-bit groups of `v | 1`. */
  function Sov(v: nat): nat {
    (BitLen(if v % 2 == 0 then v + 1 else v) + 6) / 7
  }

  /** Dropping seven bits shortens the bit length by seven. */
  lemma {:induction false} BitLenDropsSeven(v: nat)
    requires v >= 128
    ensures BitLen(v) == 7 + BitLen(v / 128)
  {
    var a := v / 2; var b := a / 2; var c := b / 2; var d := c / 2; var e := d / 2; var f := e / 2; var g := f / 2;
    assert g == v / 128;
    assert BitLen(v) == 1 + BitLen(a);
    assert BitLen(a) == 1 + BitLen(b);
    assert BitLen(b) == 1 + BitLen(c);
    assert BitLen(c) == 1 + BitLen(d);
    assert BitLen(d) == 1 + BitLen(e);
    assert BitLen(e) == 1 + BitLen(f);
    assert BitLen(f) == 1 + BitLen(g);
  }

  lemma {:induction false} BitLenSmall(v: nat)
    requires 1 <= v < 128
    ensures 1 <= BitLen(v) <= 7
  {
    var a := v / 2; var b := a / 2; var c := b / 2; var d := c / 2; var e := d / 2; var f := e / 2;
    assert f < 2 && BitLen(f) <= 1;
    assert BitLen(e) <= 1 + BitLen(f);
    assert BitLen(d) <= 1 + BitLen(e);
    assert BitLen(c) <= 1 + BitLen(d);
    assert BitLen(b) <= 1 + BitLen(c);
    assert BitLen(a) <= 1 + BitLen(b);
  }

  /** Setting the lowest bit does not change the bit length of a positive number. */
  lemma {:induction false} BitLenOdd(v: nat)
    requires v >= 1
    ensures BitLen(if v % 2 == 0 then v + 1 else v) == BitLen(v)
  {
    assert (v + 1) / 2 == v / 2 || v % 2 == 1;
  }

  /** `sovAbci` is the length of the encoding. */
  lemma {:induction false} SovIsLength(v: nat)
    ensures Sov(v) == |Encode(v)|
    decreases v
  {
    if v == 0 {
      assert BitLen(1) == 1 + BitLen(0);
    } else {
      BitLenOdd(v);
      if v < 128 {
        BitLenSmall(v);
      } else {
        BitLenDropsSeven(v);
        BitLenOdd(v / 128);
        SovIsLength(v / 128);
      }
    }
  }

  lemma {:induction false} EncodeIsShort(v: nat, groups: nat)
    requires groups >= 1 && v < Pow128(groups)
    ensures |Encode(v)| <= groups
    decreases groups
  {
    if v >= 128 {
      assert Pow128(1) == 128;
      assert v / 128 < Pow128(groups - 1);
      EncodeIsShort(v / 128, groups - 1);
    }
  }

  function Pow128(n: nat): (p: nat)
    ensures p >= 1
  {
    if n == 0 then 1 else 128 * Pow128(n - 1)
  }

  lemma {:induction false} TenGroups()
    ensures Pow128(9) == 0x8000_0000_0000_0000 && Pow128(10) == 64 * TWO64
  {
    assert Pow128(1) == 128 && Pow128(2) == 16384 && Pow128(3) == 2097152 && Pow128(4) == 268435456;
    assert Pow128(5) == 34359738368 && Pow128(6) == 4398046511104 && Pow128(7) == 562949953421312;
    assert Pow128(8) == 72057594037927936;
  }

  /** One group of an encoding. */
  lemma {:induction false} EncodeStep(v: nat)
    ensures v >= 128 ==> Encode(v) == [(v % 128 + 128) as byte] + Encode(v / 128)
    ensures v < 128 ==> Encode(v) == [v as byte]
  {
  }

  /** `encodeVarintAbci`: writes `v` so that it ends at `offset`, and returns where it starts. */
  method EncodeVarint(dAtA: array<byte>, offset: nat, v: nat) returns (base: nat)
    requires |Encode(v)| <= offset <= dAtA.Length
    modifies dAtA
    ensures base == offset - |Encode(v)|
    ensures dAtA[base..offset] == Encode(v)
    ensures dAtA[..base] == old(dAtA[..base]) && dAtA[offset..] == old(dAtA[offset..])
  {
    hide Encode, Sov;
    SovIsLength(v);
    var at := offset - Sov(v);
    base := at;
    var left := v;
    while left >= 128
      invariant base <= at <= offset && at + |Encode(left)| == offset
      invariant dAtA[base..at] + Encode(left) == Encode(v)
      invariant dAtA[..base] == old(dAtA[..base]) && dAtA[offset..] == old(dAtA[offset..])
      decreases left
    {
      ghost var done := dAtA[base..at];
      EncodeStep(left);
      dAtA[at] := (left % 128 + 128) as byte;
      assert dAtA[base..at + 1] == done + [(left % 128 + 128) as byte];
      left := left / 128;
      at := at + 1;
    }
    ghost var done := dAtA[base..at];
    EncodeStep(left);
    dAtA[at] := left as byte;
    assert dAtA[base..at + 1] == done + [left as byte];
  }

  /** `binary.PutUvarint`: the same groups, written forwards. */
  method PutUvarint(buf: array<byte>, v: nat) returns (n: nat)
    requires |Encode(v)| <= buf.Length
    modifies buf
    ensures n == |Encode(v)| && buf[..n] == Encode(v)
  {
    hide Encode;
    n := 0;
    var left := v;
    while left >= 128
      invariant n + |Encode(left)| == |Encode(v)|
      invariant buf[..n] + Encode(left) == Encode(v)
      decreases left
    {
      ghost var done := buf[..n];
      EncodeStep(left);
      buf[n] := (left % 128 + 128) as byte;
      assert buf[..n + 1] == done + [(left % 128 + 128) as byte];
      left := left / 128;
      n := n + 1;
    }
    ghost var done := buf[..n];
    EncodeStep(left);
    buf[n] := left as byte;
    n := n + 1;
    assert buf[..n] == done + [left as byte];
  }

  // ---------- reading ----------

  /** A value and the number of bytes it took. */
  datatype Read = Read(value: nat, used: nat)

  /** What the low seven bits of a byte stand for in a given group. */
  function Group(b: byte, group: nat): nat {
    Scale(b as nat % 128, group)
  }

  /** `v` shifted left by `group` groups of seven bits. */
  function Scale(v: nat, group: nat): nat {
    if group == 0 then v else 128 * Scale(v, group - 1)
  }

  /** The groups of a varint from group number `group` on, with `acc` collected so far: at most ten. */
  function ReadFrom(s: Bytes, group: nat, acc: nat): (r: Option<Read>)
    requires group <= 10
    ensures r.Some? ==> 1 <= r.value.used <= |s| && r.value.used <= 10 - group
    decreases 10 - group
  {
    if group == 10 || s == [] then None
    else
      var sum := acc + Group(s[0], group);
      if s[0] < 128 then Some(Read(sum, 1))
      else
        match ReadFrom(s[1..], group + 1, sum)
        case None => None
        case Some(r) => Some(Read(r.value, r.used + 1))
  }

  /** A varint at the front of `s`, reduced to 64 bits as the parser's accumulator is. */
  function ReadVarint(s: Bytes): (r: Option<Read>)
    ensures r.Some? ==> 1 <= r.value.used <= |s| && r.value.used <= 10 && r.value.value < TWO64
  {
    match ReadFrom(s, 0, 0)
    case None => None
    case Some(r) => Some(Read(r.value % TWO64, r.used))
  }

  /** The first `n` groups at the front of `s`, added up. */
  function Collect(s: Bytes, n: nat): nat
    requires n <= |s|
  {
    if n == 0 then 0 else Collect(s, n - 1) + Group(s[n - 1], n - 1)
  }

  predicate Continues(s: Bytes, n: nat)
    requires n <= |s|
  {
    forall j :: 0 <= j < n ==> s[j] >= 128
  }

  /** The result of a read that had `n` bytes before it. */
  function Later(r: Option<Read>, n: nat): Option<Read> {
    if r.None? then None else Some(Read(r.value.value, r.value.used + n))
  }

  lemma {:induction false} OneGroup(t: Bytes, group: nat, acc: nat, sum: nat)
    requires t != [] && t[0] >= 128 && group < 10 && sum == acc + Group(t[0], group)
    ensures ReadFrom(t, group, acc) == Later(ReadFrom(t[1..], group + 1, sum), 1)
  {
  }

  lemma {:induction false} LastGroup(t: Bytes, group: nat, acc: nat)
    requires t != [] && t[0] < 128 && group < 10
    ensures ReadFrom(t, group, acc) == Some(Read(acc + Group(t[0], group), 1))
  {
  }

  lemma {:induction false} LaterTwice(r: Option<Read>, n: nat)
    ensures Later(Later(r, 1), n) == Later(r, n + 1) && Later(r, 0) == r
  {
  }

  /** After `n` bytes with the continuation bit the read stands where the rest is read from group `n` on. */
  lemma {:induction false} ReadAfterContinuing(s: Bytes, n: nat)
    requires n <= |s| && n <= 10 && Continues(s, n)
    ensures ReadFrom(s, 0, 0) == Later(ReadFrom(s[n..], n, Collect(s, n)), n)
  {
    if n == 0 {
      assert s[0..] == s;
      LaterTwice(ReadFrom(s, 0, 0), 0);
    } else {
      ReadAfterContinuing(s, n - 1);
      var t := s[n - 1..];
      assert t[0] == s[n - 1] && t[1..] == s[n..];
      OneGroup(t, n - 1, Collect(s, n - 1), Collect(s, n));
      LaterTwice(ReadFrom(s[n..], n, Collect(s, n)), n - 1);
    }
  }

  /** Where the loop ends: at the end of the input, at the eleventh group, or behind the first byte without a
      continuation bit. */
  lemma {:induction false} ReadStops(s: Bytes, n: nat)
    requires n <= |s| && n <= 10 && Continues(s, n)
    ensures n == |s| || n == 10 ==> ReadVarint(s) == None
    ensures n < |s| && n < 10 && s[n] < 128 ==> ReadVarint(s) == Some(Read(Collect(s, n + 1) % TWO64, n + 1))
  {
    hide Group, Collect;
    ReadAfterContinuing(s, n);
    if n < |s| {
      assert s[n..][0] == s[n];
      CollectOneMore(s, n);
    }
  }

  lemma {:induction false} CollectOneMore(s: Bytes, n: nat)
    requires n < |s|
    ensures Collect(s, n + 1) == Collect(s, n) + Group(s[n], n)
  {
  }

  /** The hand-unrolled loop of the parser, for a 64-bit or a 32-bit accumulator: bits shifted past its width
      are lost, and the or-ed groups never overlap. Nothing comes back for an eleventh group or at the end. */
  method DecodeVarint(dAtA: Bytes, start: nat, wide: bool) returns (r: Option<Read>)
    requires start <= |dAtA|
    ensures match ReadVarint(dAtA[start..])
            case None => r == None
            case Some(v) => r == Some(Read(Reduce(v.value, wide), v.used))
  {
    hide ReadVarint, Group, Collect, Reduce;
    var s := dAtA[start..];
    var n, acc: nat := 0, 0;
    NothingCollected(s, wide);
    while n < 10
      invariant n <= 10 && n <= |s| && Continues(s, n) && acc == Reduce(Collect(s, n), wide)
    {
      ReadStops(s, n);
      if n == |s| { return None; }
      CollectOneMore(s, n);
      ReduceSum(Collect(s, n), Group(s[n], n), wide);
      acc := Reduce(acc + Reduce(Group(s[n], n), wide), wide);
      n := n + 1;
      if s[n - 1] < 128 { return Some(Read(acc, n)); }
    }
    ReadStops(s, 10);
    r := None;
  }

  lemma {:induction false} NothingCollected(s: Bytes, wide: bool)
    ensures Reduce(Collect(s, 0), wide) == 0
  {
  }

  function Reduce(x: nat, wide: bool): nat { if wide then x % TWO64 else x % TWO32 }

  lemma {:induction false} ReduceSum(a: nat, b: nat, wide: bool)
    ensures Reduce(Reduce(a, wide) + Reduce(b, wide), wide) == Reduce(a + b, wide)
    ensures Reduce((a + b) % TWO64, wide) == Reduce(a + b, wide)
  {
    if wide { Wide(a, b); } else { Narrow(a, b); NarrowOfWide(a + b); }
  }

  lemma {:induction false} Wide(a: nat, b: nat)
    ensures (a % TWO64 + b % TWO64) % TWO64 == (a + b) % TWO64
  {
    var k, l := a / TWO64, b / TWO64;
    assert a + b == (a % TWO64 + b % TWO64) + (k + l) * TWO64;
  }

  lemma {:induction false} Narrow(a: nat, b: nat)
    ensures (a % TWO32 + b % TWO32) % TWO32 == (a + b) % TWO32
  {
    var k, l := a / TWO32, b / TWO32;
    assert a + b == (a % TWO32 + b % TWO32) + (k + l) * TWO32;
  }

  lemma {:induction false} MultiplesVanish(r: nat, k: nat)
    ensures (r + k * TWO32) % TWO32 == r % TWO32
  {
    var s := r / TWO32;
    assert r + k * TWO32 == (s + k) * TWO32 + r % TWO32;
  }

  lemma {:induction false} NarrowOfWide(a: nat)
    ensures (a % TWO64) % TWO32 == a % TWO32
  {
    var q := a / TWO64;
    var r := a % TWO64;
    assert a == q * TWO64 + r;
    assert a == r + (q * TWO32) * TWO32;
    MultiplesVanish(r, q * TWO32);
  }

  /** Reading looks at nothing behind the varint. */
  lemma {:induction false} ReadFromIsLocal(a: Bytes, b: Bytes, group: nat, acc: nat)
    requires group <= 10 && ReadFrom(a, group, acc).Some?
    ensures ReadFrom(a + b, group, acc) == ReadFrom(a, group, acc)
    decreases 10 - group
  {
    hide Group;
    assert (a + b)[0] == a[0] && (a + b)[1..] == a[1..] + b;
    if a[0] >= 128 {
      ReadFromIsLocal(a[1..], b, group + 1, acc + Group(a[0], group));
    }
  }

  lemma {:induction false} ReadIsLocal(a: Bytes, b: Bytes)
    requires ReadVarint(a).Some?
    ensures ReadVarint(a + b) == ReadVarint(a)
  {
    ReadFromIsLocal(a, b, 0, 0);
  }

  lemma {:induction false} GroupOf(v: nat, group: nat)
    ensures Group((v % 128 + 128) as byte, group) == Scale(v % 128, group)
    ensures v < 128 ==> Group(v as byte, group) == Scale(v, group)
  {
  }

  lemma {:induction false} EncodeBegins(v: nat, post: Bytes)
    ensures var s := Encode(v) + post;
      && s != [] && (if v < 128 then s[0] == v as byte else s[0] == (v % 128 + 128) as byte && s[1..] == Encode(v / 128) + post)
      && (v >= 128 ==> |Encode(v)| == 1 + |Encode(v / 128)|) && (v < 128 ==> |Encode(v)| == 1)
  {
  }

  /** Reading where a value was written gives it back and stops right behind it. */
  lemma {:induction false} ReadFromWritten(v: nat, post: Bytes, group: nat, acc: nat)
    requires group + |Encode(v)| <= 10
    ensures ReadFrom(Encode(v) + post, group, acc) == Some(Read(acc + Scale(v, group), |Encode(v)|))
    decreases v
  {
    hide Encode, Scale, Group, ReadFrom;
    EncodeBegins(v, post);
    var s := Encode(v) + post;
    if v >= 128 {
      var b := (v % 128 + 128) as byte;
      OneGroup(s, group, acc, acc + Group(b, group));
      ReadFromWritten(v / 128, post, group + 1, acc + Group(b, group));
      GroupOf(v, group);
      Regroup(v, group);
    } else {
      LastGroup(s, group, acc);
      GroupOf(v, group);
    }
  }

  lemma {:induction false} Regroup(v: nat, group: nat)
    ensures Scale(v % 128, group) + Scale(v / 128, group + 1) == Scale(v, group)
  {
    if group > 0 {
      Regroup(v, group - 1);
    }
  }

  lemma {:induction false} ScaleByNothing(v: nat)
    ensures Scale(v, 0) == v && (v < TWO64 ==> v % TWO64 == v)
  {
  }

  /** Round trip of one varint, whatever follows it. */
  lemma {:induction false} ReadWritten(v: nat, post: Bytes)
    requires v < TWO64
    ensures ReadVarint(Encode(v) + post) == Some(Read(v, |Encode(v)|)) && |Encode(v)| <= 10
  {
    hide Encode, ReadFrom, Pow128, Scale;
    TenGroups();
    EncodeIsShort(v, 10);
    ReadFromWritten(v, post, 0, 0);
    ScaleByNothing(v);
  }
}
