/** The wire format: skipping unknown fields and the parser loop every message shares. */
module Wire {
  import opened Prelude
  import opened Varint

  const TWO63: nat := 0x8000_0000_0000_0000
  const TWO31: nat := 0x8000_0000

  // ---------- skipping ----------

  /** Where a varint that starts at `at` ends. */
  function VarintEnd(s: Bytes, at: nat): (n: Option<nat>)
    requires at <= |s|
    ensures n.Some? ==> at < n.value <= |s|
  {
    match ReadVarint(s[at..])
    case None => None
    case Some(r) => Some(at + r.used)
  }

  /** Where the payload behind a length that starts at `at` begins, and its length. */
  datatype Payload = Payload(from: nat, len: nat)

  function PayloadAt(s: Bytes, at: nat): (p: Option<Payload>)
    requires at <= |s|
    ensures p.Some? ==> at < p.value.from && p.value.from + p.value.len <= |s|
  {
    match ReadVarint(s[at..])
    case None => None
    case Some(r) => if r.value >= TWO63 || at + r.used + r.value > |s| then None else Some(Payload(at + r.used, r.value))
  }

  /** The bytes one field takes at the front of `s`, group brackets apart, given its wire type and the bytes
      of its tag; nothing when it is malformed or longer than `s`. */
  function Extent(s: Bytes, wireType: nat, tag: nat): (n: Option<nat>)
    requires tag <= |s|
    ensures n.Some? ==> tag <= n.value <= |s|
  {
    if wireType == 0 then VarintEnd(s, tag)
    else if wireType == 1 then if tag + 8 <= |s| then Some(tag + 8) else None
    else if wireType == 2 then if PayloadAt(s, tag).Some? then Some(PayloadAt(s, tag).value.from + PayloadAt(s, tag).value.len) else None
    else if wireType == 5 then if tag + 4 <= |s| then Some(tag + 4) else None
    else None
  }

  /** One turn of the skipping loop: the bytes it takes and the groups open afterwards. */
  datatype Turn = Turn(taken: nat, depth: nat)

  function OneTurn(s: Bytes, depth: nat): (t: Option<Turn>)
    ensures t.Some? ==> 1 <= t.value.taken <= |s|
  {
    match ReadVarint(s)
    case None => None
    case Some(r) =>
      var wireType := r.value % 8;
      if wireType == 3 then Some(Turn(r.used, depth + 1))
      else if wireType == 4 then if depth == 0 then None else Some(Turn(r.used, depth - 1))
      else if Extent(s, wireType, r.used).None? then None
      else Some(Turn(Extent(s, wireType, r.used).value, depth))
  }

  /** `skipAbci`: the length of the field at the front of `s`, or of what is left of `depth` open groups. */
  function Skip(s: Bytes, depth: nat): (n: Option<nat>)
    ensures n.Some? ==> 1 <= n.value <= |s|
    decreases |s|
  {
    match OneTurn(s, depth)
    case None => None
    case Some(t) => if t.depth == 0 then Some(t.taken) else Plus(t.taken, Skip(s[t.taken..], t.depth))
  }

  function Plus(k: nat, n: Option<nat>): Option<nat> {
    if n.None? then None else Some(k + n.value)
  }

  lemma {:induction false} PayloadIsLocal(a: Bytes, b: Bytes, at: nat)
    requires at <= |a|
    ensures VarintEnd(a, at).Some? ==> VarintEnd(a + b, at) == VarintEnd(a, at)
    ensures PayloadAt(a, at).Some? ==> PayloadAt(a + b, at) == PayloadAt(a, at)
  {
    hide ReadVarint;
    assert (a + b)[at..] == a[at..] + b;
    if ReadVarint(a[at..]).Some? { ReadIsLocal(a[at..], b); }
  }

  lemma {:induction false} ExtentIsLocal(a: Bytes, b: Bytes, wireType: nat, tag: nat)
    requires tag <= |a| && Extent(a, wireType, tag).Some?
    ensures Extent(a + b, wireType, tag) == Extent(a, wireType, tag)
  {
    PayloadIsLocal(a, b, tag);
  }

  lemma {:induction false} OneTurnIsLocal(a: Bytes, b: Bytes, depth: nat)
    requires OneTurn(a, depth).Some?
    ensures OneTurn(a + b, depth) == OneTurn(a, depth)
  {
    hide ReadVarint;
    ReadIsLocal(a, b);
    var r := ReadVarint(a).value;
    if Extent(a, r.value % 8, r.used).Some? {
      ExtentIsLocal(a, b, r.value % 8, r.used);
    }
  }

  /** Skipping looks at nothing behind what it skips. */
  lemma {:induction false} SkipIsLocal(a: Bytes, b: Bytes, depth: nat)
    requires Skip(a, depth).Some?
    ensures Skip(a + b, depth) == Skip(a, depth)
    decreases |a|
  {
    hide ReadVarint;
    OneTurnIsLocal(a, b, depth);
    var t := OneTurn(a, depth).value;
    if t.depth > 0 {
      assert (a + b)[t.taken..] == a[t.taken..] + b;
      SkipIsLocal(a[t.taken..], b, t.depth);
    }
  }

  /** The reading loop with a 64-bit accumulator. */
  method DecodeUint64(dAtA: Bytes, start: nat) returns (r: Option<Read>)
    requires start <= |dAtA|
    ensures r == ReadVarint(dAtA[start..])
  {
    hide ReadVarint, Reduce;
    r := DecodeVarint(dAtA, start, true);
    if r.Some? { WideKeeps(ReadVarint(dAtA[start..]).value.value); }
  }

  lemma {:induction false} WideKeeps(x: nat)
    requires x < Varint.TWO64
    ensures Reduce(x, true) == x
  {
  }

  /** The bytes behind a tag that is not a group bracket, counted from the tag on; the end may lie past the buffer. */
  method SkipExtent(dAtA: Bytes, at: nat, tag: nat, wireType: nat) returns (n: Option<nat>)
    requires at + tag <= |dAtA|
    ensures Extent(dAtA[at..], wireType, tag) == Within(n, |dAtA| - at)
    ensures n.Some? ==> n.value >= tag
  {
    hide ReadVarint;
    ghost var s := dAtA[at..];
    assert s[tag..] == dAtA[at + tag..];
    match wireType {
      case 0 =>
        var v := DecodeUint64(dAtA, at + tag);
        n := if v.None? then None else Some(tag + v.value.used);
        assert VarintEnd(s, tag) == Within(n, |s|);
      case 1 =>
        n := Some(tag + 8);
      case 2 =>
        var v := DecodeUint64(dAtA, at + tag);
        n := if v.None? || v.value.value >= TWO63 then None else Some(tag + v.value.used + v.value.value);
        PayloadExtent(s, tag);
      case 5 =>
        n := Some(tag + 4);
      case _ =>
        n := None;
    }
  }

  function Within(n: Option<nat>, size: nat): Option<nat> {
    if n.Some? && n.value <= size then n else None
  }

  lemma {:induction false} PayloadExtent(s: Bytes, tag: nat)
    requires tag <= |s|
    ensures Extent(s, 2, tag) ==
      match ReadVarint(s[tag..])
      case None => None
      case Some(r) => if r.value >= TWO63 then None else Within(Some(tag + r.used + r.value), |s|)
  {
    hide ReadVarint;
  }

  /** The body of the loop: the tag, then what its wire type says. An answer past the end is an error. */
  method SkipOne(dAtA: Bytes, at: nat, depth: nat) returns (t: Option<Turn>)
    requires at <= |dAtA|
    ensures OneTurn(dAtA[at..], depth) == if t.Some? && at + t.value.taken <= |dAtA| then t else None
    ensures t.Some? ==> t.value.taken >= 1
  {
    hide ReadVarint;
    var tag := DecodeUint64(dAtA, at);
    if tag.None? { return None; }
    var wireType := tag.value.value % 8;
    if wireType == 3 {
      t := Some(Turn(tag.value.used, depth + 1));
    } else if wireType == 4 {
      t := if depth == 0 then None else Some(Turn(tag.value.used, depth - 1));
    } else {
      var n := SkipExtent(dAtA, at, tag.value.used, wireType);
      t := if n.None? then None else Some(Turn(n.value, depth));
    }
  }

  /** `skipAbci` as a loop over an index. It may answer with an end past the buffer, which its caller refuses. */
  method SkipAbci(dAtA: Bytes) returns (n: Option<nat>)
    ensures Skip(dAtA, 0) == if n.Some? && n.value <= |dAtA| then n else None
  {
    hide ReadVarint, OneTurn, Skip;
    var iNdEx, depth: nat := 0, 0;
    ghost var whole := Skip(dAtA, 0);
    assert dAtA[0..] == dAtA;
    PlusNothing(whole);
    while iNdEx < |dAtA|
      invariant iNdEx <= |dAtA| && Plus(iNdEx, Skip(dAtA[iNdEx..], depth)) == whole
      decreases |dAtA| - iNdEx
    {
      var t := SkipOne(dAtA, iNdEx, depth);
      Advance(dAtA, iNdEx, depth, t);
      if t.None? { return None; }
      iNdEx, depth := iNdEx + t.value.taken, t.value.depth;
      if depth == 0 { return Some(iNdEx); }
      if iNdEx > |dAtA| { return None; }
    }
    AtTheEnd(dAtA[iNdEx..], depth);
    n := None;
  }

  /** What one turn says about the rest of the loop. */
  lemma {:induction false} Advance(dAtA: Bytes, at: nat, depth: nat, t: Option<Turn>)
    requires at < |dAtA|
    requires OneTurn(dAtA[at..], depth) == if t.Some? && at + t.value.taken <= |dAtA| then t else None
    ensures t.None? || at + t.value.taken > |dAtA| ==> Skip(dAtA[at..], depth) == None
    ensures t.Some? && at + t.value.taken <= |dAtA| ==>
      Plus(at, Skip(dAtA[at..], depth)) ==
        if t.value.depth == 0 then Some(at + t.value.taken)
        else Plus(at + t.value.taken, Skip(dAtA[at + t.value.taken..], t.value.depth))
  {
    hide ReadVarint, OneTurn;
    if t.Some? && at + t.value.taken <= |dAtA| {
      assert dAtA[at..][t.value.taken..] == dAtA[at + t.value.taken..];
      PlusPlus(at, t.value.taken, Skip(dAtA[at + t.value.taken..], t.value.depth));
    }
  }

  lemma {:induction false} AtTheEnd(s: Bytes, depth: nat)
    requires s == []
    ensures Skip(s, depth) == None
  {
  }

  lemma {:induction false} PlusNothing(n: Option<nat>)
    ensures Plus(0, n) == n
  {
  }

  // ---------- well-formed fields ----------

  /** A field of any wire type; groups nest. */
  datatype Raw =
    | VarintField(num: nat, value: nat)
    | Fixed64Field(num: nat, bytes: Bytes)
    | BytesField(num: nat, payload: Bytes)
    | GroupField(num: nat, body: seq<Raw>)
    | Fixed32Field(num: nat, bytes: Bytes)

  function Tag(num: nat, wireType: nat): Bytes { Encode(num * 8 + wireType) }

  predicate WellFormed(r: Raw) {
    && 1 <= r.num < 0x2000_0000
    && match r
       case VarintField(_, v) => v < TWO64
       case Fixed64Field(_, b) => |b| == 8
       case BytesField(_, p) => |p| < TWO63
       case GroupField(_, body) => forall x :: x in body ==> WellFormed(x)
       case Fixed32Field(_, b) => |b| == 4
  }

  function Written(r: Raw): (b: Bytes)
    ensures |b| >= 1
    decreases r
  {
    match r
    case VarintField(n, v) => Tag(n, 0) + Encode(v)
    case Fixed64Field(n, b) => Tag(n, 1) + b
    case BytesField(n, p) => Tag(n, 2) + Encode(|p|) + p
    case GroupField(n, body) => Tag(n, 3) + WrittenAll(r, body, |body|) + Tag(n, 4)
    case Fixed32Field(n, b) => Tag(n, 5) + b
  }

  /** The first `k` fields of a group's body, one after another. */
  function WrittenAll(ctx: Raw, body: seq<Raw>, k: nat): Bytes
    requires k <= |body| && forall x :: x in body ==> x < ctx
    decreases ctx, k
  {
    if k == 0 then []
    else
      assert body[k - 1] in body;
      WrittenAll(ctx, body, k - 1) + Written(body[k - 1])
  }

  /** The tag of a well-formed field reads back as its number and wire type. */
  lemma {:induction false} TagReads(num: nat, wireType: nat, rest: Bytes)
    requires num < 0x2000_0000 && wireType < 8
    ensures var t := Tag(num, wireType);
      && ReadVarint(t + rest) == Some(Read(num * 8 + wireType, |t|)) && (num * 8 + wireType) % 8 == wireType
      && (t + rest)[|t|..] == rest
  {
    hide ReadVarint;
    ReadWritten(num * 8 + wireType, rest);
  }

  /** What skipping a written field leads to. */
  function Then(k: nat, s: Bytes, depth: nat): Option<nat> {
    if depth == 0 then Some(k) else Plus(k, Skip(s, depth))
  }

  /** A field without brackets whose extent is known is skipped in one turn. */
  lemma {:induction false} SkipFlat(tag: Bytes, num: nat, wireType: nat, content: Bytes, rest: Bytes, depth: nat)
    requires num < 0x2000_0000 && wireType < 8 && wireType != 3 && wireType != 4 && tag == Tag(num, wireType)
    requires Extent(tag + (content + rest), wireType, |tag|) == Some(|tag| + |content|)
    ensures Skip(tag + content + rest, depth) == Then(|tag + content|, rest, depth)
  {
    hide ReadVarint;
    var s := tag + (content + rest);
    assert s == tag + content + rest;
    TagReads(num, wireType, content + rest);
    assert OneTurn(s, depth) == Some(Turn(|tag + content|, depth));
    assert s[|tag + content|..] == rest;
  }

  lemma {:induction false} SkipVarintField(num: nat, v: nat, rest: Bytes, depth: nat)
    requires num < 0x2000_0000 && v < TWO64
    ensures Skip(Tag(num, 0) + Encode(v) + rest, depth) == Then(|Tag(num, 0) + Encode(v)|, rest, depth)
  {
    hide ReadVarint;
    var t := Tag(num, 0);
    TagReads(num, 0, Encode(v) + rest);
    ReadWritten(v, rest);
    SkipFlat(t, num, 0, Encode(v), rest, depth);
  }

  /** The payload of a written bytes field is found where it was put. */
  lemma {:induction false} PayloadReads(t: Bytes, p: Bytes, rest: Bytes)
    requires |p| < TWO63
    ensures var s := t + (Encode(|p|) + p + rest);
      && PayloadAt(s, |t|) == Some(Payload(|t| + |Encode(|p|)|, |p|))
      && s[|t| + |Encode(|p|)|..][..|p|] == p
      && s[|t| + |Encode(|p|)| + |p|..] == rest
  {
    hide ReadVarint;
    var e := Encode(|p|);
    var s := t + (e + p + rest);
    assert PayloadAt(s, |t|) == Some(Payload(|t| + |e|, |p|)) by {
      assert s[|t|..] == e + (p + rest);
      ReadWritten(|p|, p + rest);
    }
    assert s == (t + e) + p + rest;
    Cut(t + e, p, rest);
  }

  lemma {:induction false} Cut(a: Bytes, b: Bytes, c: Bytes)
    ensures (a + b + c)[|a|..][..|b|] == b && (a + b + c)[|a| + |b|..] == c
  {
  }

  lemma {:induction false} SkipBytesField(num: nat, p: Bytes, rest: Bytes, depth: nat)
    requires num < 0x2000_0000 && |p| < TWO63
    ensures Skip(Tag(num, 2) + Encode(|p|) + p + rest, depth) == Then(|Tag(num, 2) + Encode(|p|) + p|, rest, depth)
  {
    hide ReadVarint;
    var t := Tag(num, 2);
    PayloadReads(t, p, rest);
    SkipFlat(t, num, 2, Encode(|p|) + p, rest, depth);
    assert t + (Encode(|p|) + p) == t + Encode(|p|) + p;
  }

  lemma {:induction false} SkipFixedField(num: nat, wireType: nat, b: Bytes, rest: Bytes, depth: nat)
    requires num < 0x2000_0000 && ((wireType == 1 && |b| == 8) || (wireType == 5 && |b| == 4))
    ensures Skip(Tag(num, wireType) + b + rest, depth) == Then(|Tag(num, wireType) + b|, rest, depth)
  {
    hide ReadVarint;
    SkipFlat(Tag(num, wireType), num, wireType, b, rest, depth);
  }

  /** `skipAbci` returns exactly the length of a well-formed field, arbitrarily nested groups included,
      whatever follows it; inside open groups it goes on behind it. */
  lemma {:induction false} SkipWritten(r: Raw, rest: Bytes, depth: nat)
    requires WellFormed(r)
    ensures Skip(Written(r) + rest, depth) == Then(|Written(r)|, rest, depth)
    decreases r
  {
    hide ReadVarint, Skip;
    match r
    case VarintField(n, v) => SkipVarintField(n, v, rest, depth);
    case Fixed64Field(n, b) => SkipFixedField(n, 1, b, rest, depth);
    case BytesField(n, p) => SkipBytesField(n, p, rest, depth);
    case Fixed32Field(n, b) => SkipFixedField(n, 5, b, rest, depth);
    case GroupField(_, _) =>
      var open, body, close := Tag(r.num, 3), WrittenAll(r, r.body, |r.body|), Tag(r.num, 4);
      var s := Written(r) + rest;
      var inner := body + (close + rest);
      assert s == open + inner;
      TagReads(r.num, 3, inner);
      assert OneTurn(s, depth) == Some(Turn(|open|, depth + 1));
      OpenGroup(s, open, inner, depth);
      SkipBody(r, r.body, |r.body|, close + rest, depth + 1);
      TagReads(r.num, 4, rest);
      assert OneTurn(close + rest, depth + 1) == Some(Turn(|close|, depth));
      CloseGroup(close + rest, close, rest, depth);
      PlusAdds(|open|, |body|, |close|, rest, depth);
  }

  lemma {:induction false} OpenGroup(s: Bytes, open: Bytes, inner: Bytes, depth: nat)
    requires s == open + inner && OneTurn(s, depth) == Some(Turn(|open|, depth + 1))
    ensures Skip(s, depth) == Plus(|open|, Skip(inner, depth + 1))
  {
    hide ReadVarint;
    assert s[|open|..] == inner;
  }

  lemma {:induction false} CloseGroup(s: Bytes, close: Bytes, rest: Bytes, depth: nat)
    requires s == close + rest && OneTurn(s, depth + 1) == Some(Turn(|close|, depth))
    ensures Skip(s, depth + 1) == Then(|close|, rest, depth)
  {
    hide ReadVarint;
    assert s[|close|..] == rest;
  }

  lemma {:induction false} PlusAdds(a: nat, b: nat, c: nat, rest: Bytes, depth: nat)
    ensures Plus(a, Plus(b, Then(c, rest, depth))) == Then(a + b + c, rest, depth)
  {
  }

  lemma {:induction false} SkipBody(ctx: Raw, body: seq<Raw>, k: nat, rest: Bytes, depth: nat)
    requires k <= |body| && depth > 0 && forall x :: x in body ==> x < ctx && WellFormed(x)
    ensures var w := WrittenAll(ctx, body, k);
      Skip(w + rest, depth) == Plus(|w|, Skip(rest, depth))
    decreases ctx, k
  {
    hide Skip, ReadVarint;
    if k == 0 {
      assert [] + rest == rest;
      PlusNothing(Skip(rest, depth));
    } else {
      var w, last := WrittenAll(ctx, body, k - 1), Written(body[k - 1]);
      assert WrittenAll(ctx, body, k) + rest == w + (last + rest);
      SkipBody(ctx, body, k - 1, last + rest, depth);
      assert body[k - 1] in body;
      SkipWritten(body[k - 1], rest, depth);
      PlusPlus(|w|, |last|, Skip(rest, depth));
    }
  }

  lemma {:induction false} PlusPlus(a: nat, b: nat, n: Option<nat>)
    ensures Plus(a, Plus(b, n)) == Plus(a + b, n)
  {
  }
}
