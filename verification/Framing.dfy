/** Length-prefixed framing: `MarshalLengthPrefixed` and `UnmarshalLengthPrefixed`. */
module Framing {
  import opened Prelude
  import opened Varint
  import opened Wire
  import opened Parser
  import opened Messages

  /** The answer of `binary.Uvarint`: the value and the bytes read; 0 when the input ends too early, negative
      on overflow. */
  datatype Prefix = Prefix(size: nat, n: int)

  function UvarintFrom(buf: Bytes, i: nat, x: nat): Prefix
    requires i <= 10
    decreases 10 - i
  {
    if buf == [] then Prefix(0, 0)
    else if i == 10 then Prefix(0, -11)
    else if buf[0] < 128 then
      if i == 9 && buf[0] > 1 then Prefix(0, -10) else Prefix(x + Group(buf[0], i), i + 1)
    else UvarintFrom(buf[1..], i + 1, x + Group(buf[0], i))
  }

  /** The first `k` bytes are one varint: continuation bits on all but the last, ten groups at most, and a
      value of 64 bits. Independent of any reader. */
  predicate VarintPrefix(bz: Bytes, k: nat) {
    1 <= k <= |bz| && k <= 10 && Continues(bz, k - 1) && bz[k - 1] < 128 && Collect(bz, k) < TWO64
  }

  lemma {:induction false} GroupBound(b: byte, group: nat)
    ensures Group(b, group) <= 127 * Pow128(group)
    ensures b as nat % 128 >= 1 ==> Group(b, group) >= Pow128(group)
    ensures b as nat % 128 == 1 ==> Group(b, group) == Pow128(group)
    ensures b as nat % 128 >= 2 ==> Group(b, group) >= 2 * Pow128(group)
  {
    ScaleIs(b as nat % 128, group);
  }

  lemma {:induction false} ScaleIs(v: nat, group: nat)
    requires v < 128
    ensures Scale(v, group) <= 127 * Pow128(group)
    ensures v >= 1 ==> Scale(v, group) >= Pow128(group)
    ensures v == 1 ==> Scale(v, group) == Pow128(group)
    ensures v >= 2 ==> Scale(v, group) >= 2 * Pow128(group)
    ensures v == 0 ==> Scale(v, group) == 0
  {
    if group > 0 { ScaleIs(v, group - 1); }
  }

  /** Fewer than `128^n` fits in `n` groups. */
  lemma {:induction false} CollectBound(s: Bytes, n: nat)
    requires n <= |s|
    ensures Collect(s, n) < Pow128(n)
  {
    if n > 0 {
      CollectBound(s, n - 1);
      GroupBound(s[n - 1], n - 1);
    }
  }

  /** At the tenth group the value still fits in 64 bits exactly when that group is 0 or 1. */
  lemma {:induction false} TenthGroup(s: Bytes)
    requires |s| >= 10 && s[9] < 128
    ensures Collect(s, 10) < TWO64 <==> s[9] <= 1
  {
    hide Collect;
    CollectTen(s);
    CollectBound(s, 9);
    GroupBound(s[9], 9);
    TenGroups();
    if s[9] == 0 { ScaleIs(0, 9); }
  }

  lemma {:induction false} CollectTen(s: Bytes)
    requires |s| >= 10
    ensures Collect(s, 10) == Collect(s, 9) + Group(s[9], 9)
  {
  }

  lemma {:induction false} ShortFits(s: Bytes, n: nat)
    requires n <= |s| && n <= 9
    ensures Collect(s, n) < TWO64
  {
    CollectBound(s, n);
    PowGrows(n, 9);
    TenGroups();
  }

  lemma {:induction false} PowGrows(a: nat, b: nat)
    requires a <= b
    ensures Pow128(a) <= Pow128(b)
    decreases b - a
  {
    if a < b { PowGrows(a, b - 1); }
  }

  lemma {:induction false} UvarintContinues(t: Bytes, i: nat, x: nat)
    requires t != [] && t[0] >= 128 && i < 10
    ensures UvarintFrom(t, i, x) == UvarintFrom(t[1..], i + 1, x + Group(t[0], i))
  {
  }

  /** After `i` continuation bytes the reader stands at group `i`. */
  lemma {:induction false} UvarintAfter(buf: Bytes, i: nat)
    requires i <= |buf| && i <= 10 && Continues(buf, i)
    ensures UvarintFrom(buf, 0, 0) == UvarintFrom(buf[i..], i, Collect(buf, i))
  {
    hide Scale, Group, UvarintFrom;
    if i == 0 {
      assert buf[0..] == buf;
    } else {
      UvarintAfter(buf, i - 1);
      var t := buf[i - 1..];
      assert t[1..] == buf[i..] && t[0] == buf[i - 1];
      UvarintContinues(t, i - 1, Collect(buf, i - 1));
    }
  }

  lemma {:induction false} CollectNothing(s: Bytes)
    ensures Collect(s, 0) == 0
  {
  }

  /** The accumulator wraps at 64 bits. */
  function Wrapped(n: nat): nat { n % TWO64 }

  function AddWrapped(x: nat, group: nat): nat { (x + group % TWO64) % TWO64 }

  lemma {:induction false} WrapsAlong(x: nat, group: nat)
    ensures AddWrapped(Wrapped(x), group) == Wrapped(x + group)
  {
    Wide(x, group);
  }

  lemma {:induction false} FitsUnwrapped(x: nat)
    requires x < TWO64
    ensures Wrapped(x) == x
  {
  }

  /** The last byte of a varint: two bits too many are refused, otherwise the value is the sum of the groups. */
  lemma {:induction false} UvarintEnds(buf: Bytes, i: nat)
    requires i < |buf| && i < 10 && Continues(buf, i) && buf[i] < 128
    ensures UvarintFrom(buf, 0, 0) ==
      if i == 9 && buf[i] > 1 then Prefix(0, -10) else Prefix(AddWrapped(Wrapped(Collect(buf, i)), Group(buf[i], i)), i + 1)
  {
    hide Scale, Group, UvarintFrom, Collect, Wrapped, AddWrapped;
    UvarintAfter(buf, i);
    UvarintStep(buf[i..], i, Collect(buf, i));
    CollectOneMore(buf, i);
    if !(i == 9 && buf[i] > 1) {
      if i == 9 { TenthGroup(buf); } else { ShortFits(buf, i + 1); }
      WrapsAlong(Collect(buf, i), Group(buf[i], i));
      FitsUnwrapped(Collect(buf, i + 1));
    }
  }

  /** More bytes than any varint has, or none left. */
  lemma {:induction false} UvarintRunsOut(buf: Bytes, i: nat)
    requires i <= |buf| && i <= 10 && Continues(buf, i)
    ensures i < |buf| && i == 10 ==> UvarintFrom(buf, 0, 0) == Prefix(0, -11)
    ensures i == |buf| ==> UvarintFrom(buf, 0, 0) == Prefix(0, 0)
  {
    hide Scale, Group, UvarintFrom, Collect;
    UvarintAfter(buf, i);
    UvarintStep(buf[i..], i, Collect(buf, i));
  }

  /** `binary.Uvarint`, whose accumulator wraps at 64 bits. */
  method Uvarint(buf: Bytes) returns (size: nat, n: int)
    ensures Prefix(size, n) == UvarintFrom(buf, 0, 0)
  {
    hide Scale, Group, UvarintFrom, Collect, Wrapped, AddWrapped;
    var x: nat := 0;
    CollectNothing(buf);
    FitsUnwrapped(0);
    for i := 0 to |buf|
      invariant i <= 10 && Continues(buf, i)
      invariant x == Wrapped(Collect(buf, i))
    {
      var b := buf[i];
      UvarintRunsOut(buf, i);
      if i == 10 { return 0, -11; }
      if b < 128 {
        UvarintEnds(buf, i);
        if i == 9 && b > 1 { return 0, -10; }
        return AddWrapped(x, Group(b, i)), i + 1;
      }
      CollectOneMore(buf, i);
      WrapsAlong(Collect(buf, i), Group(b, i));
      x := AddWrapped(x, Group(b, i));
    }
    UvarintRunsOut(buf, |buf|);
    size, n := 0, 0;
  }

  lemma {:induction false} UvarintStep(s: Bytes, i: nat, x: nat)
    requires i <= 10
    ensures s == [] ==> UvarintFrom(s, i, x) == Prefix(0, 0)
    ensures s != [] && i == 10 ==> UvarintFrom(s, i, x) == Prefix(0, -11)
    ensures s != [] && i < 10 && s[0] < 128 ==>
      UvarintFrom(s, i, x) == if i == 9 && s[0] > 1 then Prefix(0, -10) else Prefix(x + Group(s[0], i), i + 1)
  {
  }

  /** A reader stops at `k` bytes exactly when those are a varint; then it has the value. */
  lemma {:induction false} ReadsVarintPrefix(bz: Bytes, k: nat)
    requires VarintPrefix(bz, k)
    ensures UvarintFrom(bz, 0, 0) == Prefix(Collect(bz, k), k)
  {
    hide Scale, Group, UvarintFrom;
    UvarintAfter(bz, k - 1);
    UvarintStep(bz[k - 1..], k - 1, Collect(bz, k - 1));
    if k == 10 { TenthGroup(bz); }
  }

  /** Where the continuation bytes at the front of `bz` end, from `i` on. */
  function StopsAt(bz: Bytes, i: nat): (k: nat)
    requires i <= |bz| && Continues(bz, i)
    ensures i <= k <= |bz| && Continues(bz, k) && (k < |bz| ==> bz[k] < 128)
    decreases |bz| - i
  {
    if i < |bz| && bz[i] >= 128 then StopsAt(bz, i + 1) else i
  }

  lemma {:induction false} OnlyVarintPrefixesRead(bz: Bytes)
    requires UvarintFrom(bz, 0, 0).n > 0
    ensures VarintPrefix(bz, UvarintFrom(bz, 0, 0).n)
  {
    hide Scale, Group, UvarintFrom;
    var k := StopsAt(bz, 0);
    var c := if k <= 10 then k else 10;
    UvarintAfter(bz, c);
    UvarintStep(bz[c..], c, Collect(bz, c));
    if c == 9 { TenthGroup(bz); } else if c < 9 { ShortFits(bz, c + 1); }
  }

  // ---------- frames ----------

  /** The prefix and the message bytes behind it. */
  function Frame(bz: Bytes): Bytes { Encode(|bz|) + bz }

  /** `MarshalLengthPrefixed` of message bytes: the prefix goes through a ten-byte scratch buffer. */
  method MarshalLengthPrefixed(bz: Bytes) returns (framed: Bytes)
    requires |bz| < TWO63
    ensures framed == Frame(bz)
  {
    var sizeBuf := new byte[10];
    ReadWritten(|bz|, []);
    var n := PutUvarint(sizeBuf, |bz|);
    framed := sizeBuf[..n] + bz;
  }

  /** What `UnmarshalLengthPrefixed` hands to the message's `Unmarshal`: nothing when it refuses. */
  function Body(bz: Bytes): Option<Bytes> {
    var p := UvarintFrom(bz, 0, 0);
    if p.n < 0 || p.n > |bz| || p.size != |bz| - p.n then None else Some(bz[p.n..])
  }

  /** The codec's `Unmarshal` resets the message first, to `blank`, whatever it held. */
  method UnmarshalLengthPrefixed<M>(sch: Schema<M>, bz: Bytes, blank: M) returns (r: Option<M>)
    ensures r == match Body(bz) case None => None case Some(b) => Parse(sch, b, blank)
  {
    hide UvarintFrom, Parse;
    var size, n := Uvarint(bz);
    if UvarintFrom(bz, 0, 0).n > 0 { OnlyVarintPrefixesRead(bz); }
    if n < 0 { return None; }
    if size > |bz| - n {
      return None;
    } else if size < |bz| - n {
      return None;
    }
    r := Unmarshal(sch, bz[n..], blank);
  }

  /** Exactly the inputs that are a varint followed by as many bytes as it says are taken apart, at that
      point; besides them only the empty input passes, as an empty message. */
  lemma {:induction false} AcceptedIffFramed(bz: Bytes)
    ensures Body(bz).Some? <==> bz == [] || exists k: nat :: VarintPrefix(bz, k) && Collect(bz, k) == |bz| - k
    ensures bz == [] ==> Body(bz) == Some([])
    ensures forall k: nat :: VarintPrefix(bz, k) && Collect(bz, k) == |bz| - k ==> Body(bz) == Some(bz[k..])
  {
    hide UvarintFrom, Collect;
    if bz == [] {
      UvarintStep(bz, 0, 0);
    } else {
      var p := UvarintFrom(bz, 0, 0);
      if p.n > 0 { OnlyVarintPrefixesRead(bz); ReadsVarintPrefix(bz, p.n); }
      if p.n == 0 { NothingReadIsZero(bz); }
    }
    forall k: nat | VarintPrefix(bz, k) && Collect(bz, k) == |bz| - k ensures Body(bz) == Some(bz[k..]) {
      ReadsVarintPrefix(bz, k);
    }
  }

  lemma {:induction false} NothingReadIsZero(bz: Bytes)
    requires UvarintFrom(bz, 0, 0).n == 0
    ensures UvarintFrom(bz, 0, 0).size == 0
  {
    hide Scale, Group, UvarintFrom;
    var k := StopsAt(bz, 0);
    var c := if k <= 10 then k else 10;
    UvarintAfter(bz, c);
    UvarintStep(bz[c..], c, Collect(bz, c));
  }

  /** A written prefix is a varint of the value, and no varint of that value is shorter. */
  lemma {:induction false} WrittenIsMinimal(v: nat, post: Bytes)
    requires v < TWO64
    ensures var bz := Encode(v) + post; VarintPrefix(bz, |Encode(v)|) && Collect(bz, |Encode(v)|) == v
    ensures forall s: Bytes, k: nat :: VarintPrefix(s, k) && Collect(s, k) == v ==> |Encode(v)| <= k
  {
    WrittenIsVarint(v, post);
    ReadWritten(v, post);
    forall s: Bytes, k: nat | VarintPrefix(s, k) && Collect(s, k) == v ensures |Encode(v)| <= k {
      CollectBound(s, k);
      EncodeIsShort(v, k);
    }
  }

  lemma {:induction false} WrittenIsVarint(v: nat, post: Bytes)
    ensures var (bz, k) := (Encode(v) + post, |Encode(v)|);
      Continues(bz, k - 1) && bz[k - 1] < 128 && Collect(bz, k) == v
    decreases v
  {
    hide Collect;
    var bz, k := Encode(v) + post, |Encode(v)|;
    if v < 128 {
      assert bz[0] == v as byte;
      CollectFirst(bz);
    } else {
      var b := (v % 128 + 128) as byte;
      var rest := Encode(v / 128) + post;
      assert bz == [b] + rest && b as nat % 128 == v % 128;
      WrittenIsVarint(v / 128, post);
      ContinuesShifts(b, rest, k - 2);
      CollectShifts(b, rest, k - 1);
    }
  }

  lemma {:induction false} CollectFirst(s: Bytes)
    requires s != []
    ensures Collect(s, 1) == s[0] as nat % 128
  {
    assert Collect(s, 0) == 0;
  }

  lemma {:induction false} ContinuesShifts(b: byte, rest: Bytes, n: nat)
    requires n < |rest| && Continues(rest, n) && b >= 128
    ensures Continues([b] + rest, n + 1) && ([b] + rest)[n + 1] == rest[n]
  {
  }

  /** One more group in front shifts the rest by one group. */
  lemma {:induction false} CollectShifts(b: byte, rest: Bytes, n: nat)
    requires n <= |rest|
    ensures Collect([b] + rest, n + 1) == b as nat % 128 + 128 * Collect(rest, n)
  {
    var s := [b] + rest;
    if n == 0 {
      assert Collect(s, 0) == 0 && Group(b, 0) == b as nat % 128;
    } else {
      CollectShifts(b, rest, n - 1);
      assert s[n] == rest[n - 1];
    }
  }

  /** Round trip of the framing, for any message bytes. */
  lemma {:induction false} FrameRoundTrip(bz: Bytes)
    requires |bz| < TWO63
    ensures Body(Frame(bz)) == Some(bz)
  {
    hide Collect;
    WrittenIsMinimal(|bz|, bz);
    ReadsVarintPrefix(Frame(bz), |Encode(|bz|)|);
    assert Frame(bz)[|Encode(|bz|)|..] == bz;
  }

  /** Round trip of a framed message. */
  lemma {:induction false} FramedLogRoundTrip(m: MessageLog)
    requires m.msgIndex < TWO32 && |EncodeLog(m)| < TWO63
    ensures Body(Frame(EncodeLog(m))).Some? && Parse(MessageLogs(), Body(Frame(EncodeLog(m))).value, NO_LOG) == Some(m)
  {
    hide Parse, EncodeLog, Frame, Body;
    FrameRoundTrip(EncodeLog(m));
    LogRoundTrip(m);
  }
}
