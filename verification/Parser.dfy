/** The parser loop of a message, over what the message does with each field. */
module Parser {
  import opened Prelude
  import opened Varint
  import opened Wire

  /** A scalar field's accumulator holds 64 bits or 32. */
  datatype Kind = ScalarKind(wide: bool) | BytesKind | UnknownKind

  /** A message type: the kind of each field number, and what a value of that field does to the message.
      `bytes` fails when a sub-message in the payload does not parse. */
  datatype Schema<!M> = Schema(
    kind: nat -> Kind,
    scalar: (M, nat, nat) -> M,
    bytes: (M, nat, Bytes) -> Option<M>)

  /** The message after one field, and the bytes the field took. */
  datatype Step<+M> = Step(m: M, used: nat)

  /** The field number as the parser sees it: 32 bits of the tag, with 0 and negative numbers illegal. */
  function FieldNumber(tag: nat): (num: nat)
    ensures num < TWO32
  {
    (tag / 8) % TWO32
  }

  predicate LegalTag(tag: nat) {
    tag % 8 != 4 && 1 <= FieldNumber(tag) < TWO31
  }

  function Field<M>(sch: Schema<M>, s: Bytes, m: M): (r: Option<Step<M>>)
    ensures r.Some? ==> 1 <= r.value.used <= |s|
  {
    match ReadVarint(s)
    case None => None
    case Some(tag) => if !LegalTag(tag.value) then None else Content(sch, s, m, tag)
  }

  function Content<M>(sch: Schema<M>, s: Bytes, m: M, tag: Read): (r: Option<Step<M>>)
    requires 1 <= tag.used <= |s|
    ensures r.Some? ==> 1 <= r.value.used <= |s|
  {
    var num := FieldNumber(tag.value);
    match sch.kind(num)
    case ScalarKind(wide) =>
      if tag.value % 8 != 0 then None
      else
        (match ReadVarint(s[tag.used..])
         case None => None
         case Some(v) => Some(Step(sch.scalar(m, num, Reduce(v.value, wide)), tag.used + v.used)))
    case BytesKind =>
      if tag.value % 8 != 2 || PayloadAt(s, tag.used).None? then None
      else
        var p := PayloadAt(s, tag.used).value;
        (match sch.bytes(m, num, s[p.from..p.from + p.len])
         case None => None
         case Some(n) => Some(Step(n, p.from + p.len)))
    case UnknownKind =>
      match Skip(s, 0)
      case None => None
      case Some(n) => Some(Step(m, n))
  }

  /** `Unmarshal`: the fields of `s` into `m`, one after another. */
  function Parse<M>(sch: Schema<M>, s: Bytes, m: M): Option<M>
    decreases |s|
  {
    if s == [] then Some(m)
    else
      match Field(sch, s, m)
      case None => None
      case Some(t) => Parse(sch, s[t.used..], t.m)
  }

  /** The loop, over an index into the buffer; unknown fields go through `SkipAbci` from the tag on. */
  method Unmarshal<M>(sch: Schema<M>, dAtA: Bytes, start: M) returns (r: Option<M>)
    ensures r == Parse(sch, dAtA, start)
  {
    hide ReadVarint, Field, Skip;
    var m, iNdEx := start, 0;
    assert dAtA[0..] == dAtA;
    while iNdEx < |dAtA|
      invariant iNdEx <= |dAtA| && Parse(sch, dAtA, start) == Parse(sch, dAtA[iNdEx..], m)
      decreases |dAtA| - iNdEx
    {
      var t := UnmarshalField(sch, dAtA, iNdEx, m);
      if t.None? { return None; }
      assert dAtA[iNdEx..][t.value.used..] == dAtA[iNdEx + t.value.used..];
      m, iNdEx := t.value.m, iNdEx + t.value.used;
    }
    assert dAtA[iNdEx..] == [];
    r := Some(m);
  }

  method UnmarshalField<M>(sch: Schema<M>, dAtA: Bytes, at: nat, m: M) returns (r: Option<Step<M>>)
    requires at < |dAtA|
    ensures r == Field(sch, dAtA[at..], m)
  {
    hide ReadVarint, Skip;
    ghost var s := dAtA[at..];
    var tag := DecodeUint64(dAtA, at);
    if tag.None? { return None; }
    var fieldNum, wireType := FieldNumber(tag.value.value), tag.value.value % 8;
    if wireType == 4 || fieldNum == 0 || fieldNum >= TWO31 { return None; }
    var iNdEx := at + tag.value.used;
    assert s[tag.value.used..] == dAtA[iNdEx..];
    match sch.kind(fieldNum) {
      case ScalarKind(wide) =>
        if wireType != 0 { return None; }
        var v := DecodeVarint(dAtA, iNdEx, wide);
        r := if v.None? then None else Some(Step(sch.scalar(m, fieldNum, v.value.value), tag.value.used + v.value.used));
      case BytesKind =>
        if wireType != 2 { return None; }
        var len := DecodeUint64(dAtA, iNdEx);
        if len.None? || len.value.value >= TWO63 { return None; }
        var from := iNdEx + len.value.used;
        var postIndex := from + len.value.value;
        if postIndex > |dAtA| { return None; }
        assert dAtA[from..postIndex] == s[from - at..postIndex - at];
        var n := sch.bytes(m, fieldNum, dAtA[from..postIndex]);
        r := if n.None? then None else Some(Step(n.value, postIndex - at));
      case UnknownKind =>
        var skippy := SkipAbci(dAtA[at..]);
        r := if skippy.None? || at + skippy.value > |dAtA| then None else Some(Step(m, skippy.value));
    }
  }

  // ---------- concatenation is merge ----------

  lemma {:induction false} ContentIsLocal<M>(sch: Schema<M>, a: Bytes, b: Bytes, m: M, tag: Read)
    requires 1 <= tag.used <= |a| && Content(sch, a, m, tag).Some?
    ensures Content(sch, a + b, m, tag) == Content(sch, a, m, tag)
  {
    hide ReadVarint, Skip;
    match sch.kind(FieldNumber(tag.value))
    case ScalarKind(_) =>
      assert (a + b)[tag.used..] == a[tag.used..] + b;
      ReadIsLocal(a[tag.used..], b);
    case BytesKind =>
      PayloadIsLocal(a, b, tag.used);
      var p := PayloadAt(a, tag.used).value;
      assert (a + b)[p.from..p.from + p.len] == a[p.from..p.from + p.len];
    case UnknownKind =>
      SkipIsLocal(a, b, 0);
  }

  lemma {:induction false} FieldIsLocal<M>(sch: Schema<M>, a: Bytes, b: Bytes, m: M)
    requires Field(sch, a, m).Some?
    ensures Field(sch, a + b, m) == Field(sch, a, m)
  {
    hide ReadVarint, Content;
    ReadIsLocal(a, b);
    ContentIsLocal(sch, a, b, m, ReadVarint(a).value);
  }

  /** Concatenating encodings merges messages: when `a` parses, parsing `a + b` into `m` is parsing `b` into
      the result of parsing `a` into `m`. */
  lemma {:induction false} ConcatenationIsMerge<M>(sch: Schema<M>, a: Bytes, b: Bytes, m: M)
    requires Parse(sch, a, m).Some?
    ensures Parse(sch, a + b, m) == Parse(sch, b, Parse(sch, a, m).value)
    decreases |a|
  {
    hide Field;
    if a == [] {
      assert a + b == b;
    } else {
      FieldIsLocal(sch, a, b, m);
      var t := Field(sch, a, m).value;
      assert (a + b)[t.used..] == a[t.used..] + b;
      ConcatenationIsMerge(sch, a[t.used..], b, t.m);
    }
  }

  /** One field whose extent is known, alone. */
  lemma {:induction false} ParseOne<M>(sch: Schema<M>, f: Bytes, m: M, n: M)
    requires f != [] && Field(sch, f, m) == Some(Step(n, |f|))
    ensures Parse(sch, f, m) == Some(n)
  {
    hide Field;
    assert f[|f|..] == [];
    assert Parse(sch, f[|f|..], n) == Some(n);
  }

  // ---------- unknown fields ----------

  lemma {:induction false} TagIsLegal(num: nat, wireType: nat, rest: Bytes)
    requires 1 <= num < 0x2000_0000 && wireType < 8 && wireType != 4
    ensures var t := Tag(num, wireType);
      && ReadVarint(t + rest) == Some(Read(num * 8 + wireType, |t|))
      && LegalTag(num * 8 + wireType) && FieldNumber(num * 8 + wireType) == num && (num * 8 + wireType) % 8 == wireType
  {
    hide ReadVarint;
    TagReads(num, wireType, rest);
    assert (num * 8 + wireType) / 8 == num;
  }

  function WireTypeOf(r: Raw): nat {
    match r
    case VarintField(_, _) => 0
    case Fixed64Field(_, _) => 1
    case BytesField(_, _) => 2
    case GroupField(_, _) => 3
    case Fixed32Field(_, _) => 5
  }

  lemma {:induction false} WrittenStartsWithTag(r: Raw) returns (rest: Bytes)
    ensures Written(r) == Tag(r.num, WireTypeOf(r)) + rest
  {
    rest := Written(r)[|Tag(r.num, WireTypeOf(r))|..];
    match r
    case VarintField(n, v) => assert Written(r) == Tag(n, 0) + Encode(v);
    case Fixed64Field(n, b) => assert Written(r) == Tag(n, 1) + b;
    case BytesField(n, p) => assert Written(r) == Tag(n, 2) + (Encode(|p|) + p);
    case GroupField(n, body) => assert Written(r) == Tag(n, 3) + (WrittenAll(r, body, |body|) + Tag(n, 4));
    case Fixed32Field(n, b) => assert Written(r) == Tag(n, 5) + b;
  }

  lemma {:induction false} UnknownParses<M>(sch: Schema<M>, u: Raw, m: M)
    requires WellFormed(u) && sch.kind(u.num) == UnknownKind
    ensures Parse(sch, Written(u), m) == Some(m)
  {
    hide ReadVarint, Skip, Written;
    var w := Written(u);
    var rest := WrittenStartsWithTag(u);
    TagIsLegal(u.num, WireTypeOf(u), rest);
    SkipWritten(u, [], 0);
    assert w + [] == w;
    assert Field(sch, w, m) == Some(Step(m, |w|));
    ParseOne(sch, w, m, m);
  }

  /** Unknown fields are invisible: inserting any well-formed field of an unknown number between fields,
      nested groups included, changes nothing. */
  lemma {:induction false} UnknownFieldIsInvisible<M>(sch: Schema<M>, a: Bytes, u: Raw, b: Bytes, m: M)
    requires Parse(sch, a, m).Some? && WellFormed(u) && sch.kind(u.num) == UnknownKind
    ensures Parse(sch, a + Written(u) + b, m) == Parse(sch, a + b, m)
  {
    hide Parse, Written;
    var n := Parse(sch, a, m).value;
    assert a + Written(u) + b == a + (Written(u) + b);
    ConcatenationIsMerge(sch, a, Written(u) + b, m);
    ConcatenationIsMerge(sch, a, b, m);
    UnknownParses(sch, u, n);
    ConcatenationIsMerge(sch, Written(u), b, n);
  }

  // ---------- written fields ----------

  /** What a message does not begin with: an end of a group, a number that is not positive as 32 bits, or a known field with
      another wire type than its own. */
  lemma {:induction false} IllegalFieldsAreRefused<M>(sch: Schema<M>, tag: nat, rest: Bytes, m: M)
    requires tag < 0x1_0000_0000_0000_0000
    ensures var num := (tag / 8) % 0x1_0000_0000;
      tag % 8 == 4 || num == 0 || num >= 0x8000_0000
      || (sch.kind(num).ScalarKind? && tag % 8 != 0) || (sch.kind(num).BytesKind? && tag % 8 != 2) ==>
        Parse(sch, Encode(tag) + rest, m) == None
  {
    hide ReadVarint, Encode, Skip;
    ReadWritten(tag, rest);
  }

  /** A scalar field, left out when it is zero. */
  function ScalarField(num: nat, v: nat): Bytes {
    if v == 0 then [] else Tag(num, 0) + Encode(v)
  }

  /** A length-delimited field. */
  function Delimited(num: nat, p: Bytes): Bytes {
    Tag(num, 2) + Encode(|p|) + p
  }

  /** A string field, left out when it is empty. */
  function StringField(num: nat, p: Bytes): Bytes {
    if p == [] then [] else Delimited(num, p)
  }

  lemma {:induction false} ParseDelimited<M>(sch: Schema<M>, num: nat, p: Bytes, m: M, n: M)
    requires 1 <= num < 0x2000_0000 && |p| < TWO63 && sch.kind(num) == BytesKind
    requires sch.bytes(m, num, p) == Some(n)
    ensures Parse(sch, Delimited(num, p), m) == Some(n)
  {
    hide ReadVarint, PayloadAt;
    var f, t, e := Delimited(num, p), Tag(num, 2), Encode(|p|);
    assert f == t + (e + p + []);
    TagIsLegal(num, 2, e + p + []);
    PayloadReads(t, p, []);
    var q := PayloadAt(f, |t|).value;
    assert f[q.from..q.from + q.len] == p;
    assert Field(sch, f, m) == Some(Step(n, |f|));
    ParseOne(sch, f, m, n);
  }

  predicate Fits(v: nat, k: Kind)
    requires k.ScalarKind?
  {
    v < if k.wide then TWO64 else TWO32
  }

  lemma {:induction false} ReducesToItself(v: nat, wide: bool)
    requires Fits(v, ScalarKind(wide))
    ensures v < TWO64 && Reduce(v, wide) == v
  {
  }

  lemma {:induction false} ParseScalar<M>(sch: Schema<M>, num: nat, v: nat, m: M)
    requires 1 <= num < 0x2000_0000 && v != 0 && sch.kind(num).ScalarKind? && Fits(v, sch.kind(num))
    ensures Parse(sch, ScalarField(num, v), m) == Some(sch.scalar(m, num, v))
  {
    hide ReadVarint;
    var f, t, e := ScalarField(num, v), Tag(num, 0), Encode(v);
    TagIsLegal(num, 0, e);
    ReadWritten(v, []);
    ReducesToItself(v, sch.kind(num).wide);
    assert e + [] == e && f[|t|..] == e;
    assert Field(sch, f, m) == Some(Step(sch.scalar(m, num, v), |f|));
    ParseOne(sch, f, m, sch.scalar(m, num, v));
  }

  /** The parsing of two parts in a row. */
  lemma {:induction false} ParseBoth<M>(sch: Schema<M>, a: Bytes, b: Bytes, m: M, n: M, o: M)
    requires Parse(sch, a, m) == Some(n) && Parse(sch, b, n) == Some(o)
    ensures Parse(sch, a + b, m) == Some(o)
  {
    ConcatenationIsMerge(sch, a, b, m);
  }
}
