/** The bytes themselves: every field of the four messages with its tag written out, and what a number becomes. */
module WireValues {
  import opened Prelude
  import opened Varint
  import opened Wire
  import opened Parser
  import opened Messages
  import opened TxResponses

  // ---------- one field, by its tag byte ----------

  /** A number that is not 0: the tag, then its base-128 groups. */
  function NumberBytes(tag: byte, v: nat): Bytes { if v == 0 then [] else [tag] + Encode(v) }

  /** A text that is not empty: the tag, the length, the text. */
  function TextBytes(tag: byte, p: Text): Bytes { if p == [] then [] else [tag] + Encode(|p|) + p }

  /** Sub-messages in order, each with the tag and its length, empty ones too. */
  function MessageBytes<T>(tag: byte, xs: seq<T>, enc: T -> Bytes): Bytes {
    if xs == [] then []
    else MessageBytes(tag, xs[..|xs| - 1], enc) + [tag] + Encode(|enc(xs[|xs| - 1])|) + enc(xs[|xs| - 1])
  }

  /** An int64 as its two's complement: a negative number is 2^64 above. */
  function Int64Bytes(tag: byte, v: int): Bytes
    requires -0x8000_0000_0000_0000 <= v <= 0x7FFF_FFFF_FFFF_FFFF
  {
    if v == 0 then [] else [tag] + Encode(if v > 0 then v else 0x1_0000_0000_0000_0000 + v)
  }

  lemma {:induction false} Groups()
    ensures Encode(0) == [0] && Encode(5) == [5] && Encode(127) == [127] && Encode(128) == [0x80, 0x01] && Encode(300) == [0xAC, 0x02]
  {
  }

  lemma {:induction false} FieldBytes(num: nat, tag0: byte, tag2: byte, v: nat, p: Text)
    requires num < 16 && tag0 as nat == num * 8 && tag2 as nat == num * 8 + 2
    ensures ScalarField(num, v) == NumberBytes(tag0, v)
    ensures StringField(num, p) == TextBytes(tag2, p)
    ensures Delimited(num, p) == [tag2] + Encode(|p|) + p
  {
    hide Encode;
    OneByteTag(num, 0);
    OneByteTag(num, 2);
  }

  lemma {:induction false} RepeatedBytes<T>(num: nat, tag: byte, xs: seq<T>, enc: T -> Bytes, k: nat)
    requires num < 16 && tag as nat == num * 8 + 2 && k <= |xs|
    ensures Repeated(num, xs, enc, k) == MessageBytes(tag, xs[..k], enc)
  {
    hide Encode, Delimited;
    if k > 0 {
      RepeatedBytes(num, tag, xs, enc, k - 1);
      assert xs[..k][..k - 1] == xs[..k - 1];
      FieldBytes(num, (num * 8) as byte, tag, 0, enc(xs[k - 1]));
    }
  }

  // ---------- the four messages ----------

  lemma {:induction false} AttributeBytes(a: Attribute)
    ensures EncodeAttribute(a) == TextBytes(0x0A, a.key) + TextBytes(0x12, a.value)
  {
    hide Encode, TextBytes, StringField;
    FieldBytes(1, 0x08, 0x0A, 0, a.key);
    FieldBytes(2, 0x10, 0x12, 0, a.value);
  }

  lemma {:induction false} EventBytes(e: StringEvent)
    ensures EncodeEvent(e) == TextBytes(0x0A, e.typ) + MessageBytes(0x12, e.attributes, EncodeAttribute)
  {
    hide Encode, TextBytes, StringField, MessageBytes, Repeated, EncodeAttribute;
    FieldBytes(1, 0x08, 0x0A, 0, e.typ);
    RepeatedBytes(2, 0x12, e.attributes, EncodeAttribute, |e.attributes|);
    assert e.attributes[..|e.attributes|] == e.attributes;
  }

  lemma {:induction false} LogBytes(m: MessageLog)
    ensures EncodeLog(m) == NumberBytes(0x08, m.msgIndex) + TextBytes(0x12, m.log) + MessageBytes(0x1A, m.events, EncodeEvent)
  {
    hide Encode, NumberBytes, TextBytes, StringField, ScalarField, MessageBytes, Repeated, EncodeEvent;
    FieldBytes(1, 0x08, 0x0A, m.msgIndex, []);
    FieldBytes(2, 0x10, 0x12, 0, m.log);
    RepeatedBytes(3, 0x1A, m.events, EncodeEvent, |m.events|);
    assert m.events[..|m.events|] == m.events;
  }

  /** All thirteen fields of a response, in the order of their numbers. */
  function ResponseBytes<A, E>(any: SubCodec<A>, event: SubCodec<E>, r: TxResponse<A, E>): Bytes
    requires InRange(r)
  {
    Int64Bytes(0x08, r.height) + TextBytes(0x12, r.txHash) + TextBytes(0x1A, r.codespace) + NumberBytes(0x20, r.code)
    + TextBytes(0x2A, r.data) + TextBytes(0x32, r.rawLog) + MessageBytes(0x3A, r.logs, EncodeLog) + TextBytes(0x42, r.info)
    + Int64Bytes(0x48, r.gasWanted) + Int64Bytes(0x50, r.gasUsed)
    + (if r.tx.None? then [] else [0x5A as byte] + Encode(|any.enc(r.tx.value)|) + any.enc(r.tx.value))
    + TextBytes(0x62, r.timestamp) + MessageBytes(0x6A, r.events, event.enc)
  }

  lemma {:induction false} NumberParts<A, E>(any: SubCodec<A>, event: SubCodec<E>, r: TxResponse<A, E>)
    requires InRange(r)
    ensures Part(any, event, r, 1) == Int64Bytes(0x08, r.height) && Part(any, event, r, 4) == NumberBytes(0x20, r.code)
    ensures Part(any, event, r, 9) == Int64Bytes(0x48, r.gasWanted) && Part(any, event, r, 10) == Int64Bytes(0x50, r.gasUsed)
  {
    hide Encode, ScalarField, StringField, Delimited;
    FieldBytes(1, 0x08, 0x0A, ToUint64(r.height), []);
    FieldBytes(4, 0x20, 0x22, r.code, []);
    FieldBytes(9, 0x48, 0x4A, ToUint64(r.gasWanted), []);
    FieldBytes(10, 0x50, 0x52, ToUint64(r.gasUsed), []);
  }

  lemma {:induction false} TextParts<A, E>(any: SubCodec<A>, event: SubCodec<E>, r: TxResponse<A, E>)
    requires InRange(r)
    ensures Part(any, event, r, 2) == TextBytes(0x12, r.txHash) && Part(any, event, r, 3) == TextBytes(0x1A, r.codespace)
    ensures Part(any, event, r, 5) == TextBytes(0x2A, r.data) && Part(any, event, r, 6) == TextBytes(0x32, r.rawLog)
    ensures Part(any, event, r, 8) == TextBytes(0x42, r.info) && Part(any, event, r, 12) == TextBytes(0x62, r.timestamp)
  {
    hide Encode, ScalarField, StringField, Delimited, TextBytes;
    FieldBytes(2, 0x10, 0x12, 0, r.txHash);
    FieldBytes(3, 0x18, 0x1A, 0, r.codespace);
    FieldBytes(5, 0x28, 0x2A, 0, r.data);
    FieldBytes(6, 0x30, 0x32, 0, r.rawLog);
    FieldBytes(8, 0x40, 0x42, 0, r.info);
    FieldBytes(12, 0x60, 0x62, 0, r.timestamp);
  }

  lemma {:induction false} MessageParts<A, E>(any: SubCodec<A>, event: SubCodec<E>, r: TxResponse<A, E>)
    requires InRange(r)
    ensures Part(any, event, r, 7) == MessageBytes(0x3A, r.logs, EncodeLog) && Part(any, event, r, 13) == MessageBytes(0x6A, r.events, event.enc)
    ensures Part(any, event, r, 11) == if r.tx.None? then [] else [0x5A as byte] + Encode(|any.enc(r.tx.value)|) + any.enc(r.tx.value)
  {
    hide Encode, Delimited, Repeated, MessageBytes, EncodeLog;
    RepeatedBytes(7, 0x3A, r.logs, EncodeLog, |r.logs|);
    assert r.logs[..|r.logs|] == r.logs;
    RepeatedBytes(13, 0x6A, r.events, event.enc, |r.events|);
    assert r.events[..|r.events|] == r.events;
    if r.tx.Some? { FieldBytes(11, 0x58, 0x5A, 0, any.enc(r.tx.value)); }
  }

  lemma {:induction false} PartsInOrder<A, E>(any: SubCodec<A>, event: SubCodec<E>, r: TxResponse<A, E>, k: nat)
    requires InRange(r)
    ensures Parts(any, event, r, k) == if k == 0 then [] else Parts(any, event, r, k - 1) + Part(any, event, r, k)
  {
  }

  /** A response is these bytes. */
  lemma {:induction false} ResponseIsItsBytes<A, E>(any: SubCodec<A>, event: SubCodec<E>, r: TxResponse<A, E>)
    requires InRange(r)
    ensures EncodeResponse(any, event, r) == ResponseBytes(any, event, r)
  {
    hide Part, Parts, Encode, Int64Bytes, NumberBytes, TextBytes, MessageBytes;
    NumberParts(any, event, r);
    TextParts(any, event, r);
    MessageParts(any, event, r);
    PartsInOrder(any, event, r, 0);
    PartsInOrder(any, event, r, 1);
    var bytes := Int64Bytes(0x08, r.height);
    assert Parts(any, event, r, 1) == bytes;
    bytes := bytes + TextBytes(0x12, r.txHash);
    PartsInOrder(any, event, r, 2);
    bytes := bytes + TextBytes(0x1A, r.codespace);
    PartsInOrder(any, event, r, 3);
    bytes := bytes + NumberBytes(0x20, r.code);
    PartsInOrder(any, event, r, 4);
    bytes := bytes + TextBytes(0x2A, r.data);
    PartsInOrder(any, event, r, 5);
    bytes := bytes + TextBytes(0x32, r.rawLog);
    PartsInOrder(any, event, r, 6);
    bytes := bytes + MessageBytes(0x3A, r.logs, EncodeLog);
    PartsInOrder(any, event, r, 7);
    bytes := bytes + TextBytes(0x42, r.info);
    PartsInOrder(any, event, r, 8);
    bytes := bytes + Int64Bytes(0x48, r.gasWanted);
    PartsInOrder(any, event, r, 9);
    bytes := bytes + Int64Bytes(0x50, r.gasUsed);
    PartsInOrder(any, event, r, 10);
    bytes := bytes + (if r.tx.None? then [] else [0x5A as byte] + Encode(|any.enc(r.tx.value)|) + any.enc(r.tx.value));
    PartsInOrder(any, event, r, 11);
    bytes := bytes + TextBytes(0x62, r.timestamp);
    PartsInOrder(any, event, r, 12);
    bytes := bytes + MessageBytes(0x6A, r.events, event.enc);
    PartsInOrder(any, event, r, 13);
    assert Parts(any, event, r, 13) == bytes;
  }

  /** A response in which only one number is set. */
  lemma {:induction false} OneNumberAlone<A, E>(any: SubCodec<A>, event: SubCodec<E>, v: int)
    requires -0x8000_0000_0000_0000 <= v <= 0x7FFF_FFFF_FFFF_FFFF && v != 0
    ensures var groups := Encode(if v > 0 then v else 0x1_0000_0000_0000_0000 + v);
      var blank: TxResponse<A, E> := Blank();
      && EncodeResponse(any, event, blank.(height := v)) == [0x08] + groups
      && EncodeResponse(any, event, blank.(gasWanted := v)) == [0x48] + groups
      && EncodeResponse(any, event, blank.(gasUsed := v)) == [0x50] + groups
  {
    hide Encode, EncodeResponse;
    var blank: TxResponse<A, E> := Blank();
    ResponseIsItsBytes(any, event, blank.(height := v));
    ResponseIsItsBytes(any, event, blank.(gasWanted := v));
    ResponseIsItsBytes(any, event, blank.(gasUsed := v));
  }

  /** Which field numbers each message knows, and as what; every other number is skipped. */
  lemma {:induction false} KnownFields<A, E>(any: SubCodec<A>, event: SubCodec<E>, n: nat)
    ensures Attributes().kind(n) == (if n in {1, 2} then BytesKind else UnknownKind)
    ensures StringEvents().kind(n) == (if n in {1, 2} then BytesKind else UnknownKind)
    ensures MessageLogs().kind(n) == (if n == 1 then ScalarKind(false) else if n in {2, 3} then BytesKind else UnknownKind)
    ensures Responses(any, event).kind(n) ==
      if n in {1, 9, 10} then ScalarKind(true) else if n == 4 then ScalarKind(false)
      else if n in {2, 3, 5, 6, 7, 8, 11, 12, 13} then BytesKind else UnknownKind
  {
    hide Parse, SetBytes, SetScalar;
  }

  // ---------- reading a number ----------

  /** A field with a one-byte tag and any 64-bit number behind it. */
  lemma {:induction false} NumberRead<M>(sch: Schema<M>, num: nat, tag: byte, u: nat, m: M)
    requires 1 <= num < 16 && tag as nat == num * 8 && u < 0x1_0000_0000_0000_0000 && sch.kind(num).ScalarKind?
    ensures Parse(sch, [tag] + Encode(u), m) == Some(sch.scalar(m, num, if sch.kind(num).wide then u else u % 0x1_0000_0000))
  {
    hide ReadVarint, Encode;
    var s := [tag] + Encode(u);
    EncodeStep(tag as nat);
    ReadWritten(tag as nat, Encode(u));
    ReadWritten(u, []);
    assert Encode(u) + [] == Encode(u) && s[1..] == Encode(u);
    ReduceIs(u, sch.kind(num).wide);
    assert Field(sch, s, m) == Some(Step(sch.scalar(m, num, Reduce(u, sch.kind(num).wide)), |s|));
    assert s[|s|..] == [];
  }

  lemma {:induction false} ReduceIs(u: nat, wide: bool)
    requires u < 0x1_0000_0000_0000_0000
    ensures Reduce(u, wide) == if wide then u else u % 0x1_0000_0000
  {
  }

  /** `h` is the int64 that is congruent to `u`. */
  predicate Int64Of(h: int, u: nat) {
    -0x8000_0000_0000_0000 <= h <= 0x7FFF_FFFF_FFFF_FFFF && (h == u || h == u - 0x1_0000_0000_0000_0000)
  }

  lemma {:induction false} FromUint64Is(u: nat)
    requires u < 0x1_0000_0000_0000_0000
    ensures Int64Of(FromUint64(u), u)
  {
  }

  /** What each number of a response reads as: the 64-bit ones as the congruent int64, the code as its low 32 bits. */
  lemma {:induction false} NumbersRead<A, E>(any: SubCodec<A>, event: SubCodec<E>, u: nat, m: TxResponse<A, E>)
    requires u < 0x1_0000_0000_0000_0000
    ensures var sch := Responses(any, event);
      && (exists h :: Int64Of(h, u) && Parse(sch, [0x08] + Encode(u), m) == Some(m.(height := h)))
      && (exists h :: Int64Of(h, u) && Parse(sch, [0x48] + Encode(u), m) == Some(m.(gasWanted := h)))
      && (exists h :: Int64Of(h, u) && Parse(sch, [0x50] + Encode(u), m) == Some(m.(gasUsed := h)))
      && Parse(sch, [0x20] + Encode(u), m) == Some(m.(code := u % 0x1_0000_0000))
  {
    hide Parse, Encode, SetBytes, Int64Of;
    var sch := Responses(any, event);
    FromUint64Is(u);
    NumberRead(sch, 1, 0x08, u, m);
    NumberRead(sch, 9, 0x48, u, m);
    NumberRead(sch, 10, 0x50, u, m);
    NumberRead(sch, 4, 0x20, u, m);
  }

  lemma {:induction false} IndexRead(u: nat, m: MessageLog)
    requires u < 0x1_0000_0000_0000_0000
    ensures Parse(MessageLogs(), [0x08] + Encode(u), m) == Some(m.(msgIndex := u % 0x1_0000_0000))
  {
    hide Parse, Encode;
    NumberRead(MessageLogs(), 1, 0x08, u, m);
  }
}
