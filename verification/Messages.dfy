/** Attribute, StringEvent, ABCIMessageLog and TxResponse: what they encode to and how their fields parse. */
module Messages {
  import opened Prelude
  import opened Varint
  import opened Wire
  import opened Parser

  type Text = Bytes     // a Go string is its bytes

  datatype Attribute = Attribute(key: Text, value: Text)
  datatype StringEvent = StringEvent(typ: Text, attributes: seq<Attribute>)
  datatype MessageLog = MessageLog(msgIndex: nat, log: Text, events: seq<StringEvent>)

  const NO_ATTRIBUTE := Attribute([], [])
  const NO_EVENT := StringEvent([], [])
  const NO_LOG := MessageLog(0, [], [])

  // ---------- parsing ----------

  function Attributes(): Schema<Attribute> {
    Schema(
      n => if n == 1 || n == 2 then BytesKind else UnknownKind,
      (m: Attribute, n, v) => m,
      (m: Attribute, n, p) => Some(if n == 1 then m.(key := p) else m.(value := p)))
  }

  function StringEvents(): Schema<StringEvent> {
    Schema(
      n => if n == 1 || n == 2 then BytesKind else UnknownKind,
      (m: StringEvent, n, v) => m,
      (m: StringEvent, n, p) =>
        if n == 1 then Some(m.(typ := p))
        else
          match Parse(Attributes(), p, NO_ATTRIBUTE)
          case None => None
          case Some(a) => Some(m.(attributes := m.attributes + [a])))
  }

  function MessageLogs(): Schema<MessageLog> {
    Schema(
      n => if n == 1 then ScalarKind(false) else if n == 2 || n == 3 then BytesKind else UnknownKind,
      (m: MessageLog, n, v) => m.(msgIndex := v),
      (m: MessageLog, n, p) =>
        if n == 2 then Some(m.(log := p))
        else
          match Parse(StringEvents(), p, NO_EVENT)
          case None => None
          case Some(e) => Some(m.(events := m.events + [e])))
  }

  // ---------- encoding ----------

  function EncodeAttribute(a: Attribute): Bytes {
    StringField(1, a.key) + StringField(2, a.value)
  }

  /** The first `k` elements of a repeated sub-message field, each as a length-delimited field. */
  function Repeated<T>(num: nat, xs: seq<T>, enc: T -> Bytes, k: nat): Bytes
    requires k <= |xs|
  {
    if k == 0 then [] else Repeated(num, xs, enc, k - 1) + Delimited(num, enc(xs[k - 1]))
  }

  function EncodeEvent(e: StringEvent): Bytes {
    StringField(1, e.typ) + Repeated(2, e.attributes, EncodeAttribute, |e.attributes|)
  }

  function EncodeLog(m: MessageLog): Bytes {
    ScalarField(1, m.msgIndex) + StringField(2, m.log) + Repeated(3, m.events, EncodeEvent, |m.events|)
  }

  // ---------- sizes ----------

  function StringSize(p: Text): nat { if p == [] then 0 else 1 + |p| + Sov(|p|) }

  function ScalarSize(v: nat): nat { if v == 0 then 0 else 1 + Sov(v) }

  function RepeatedSize<T>(xs: seq<T>, size: T -> nat, k: nat): nat
    requires k <= |xs|
  {
    if k == 0 then 0
    else
      var l := size(xs[k - 1]);
      RepeatedSize(xs, size, k - 1) + 1 + l + Sov(l)
  }

  function AttributeSize(a: Attribute): nat { StringSize(a.key) + StringSize(a.value) }

  function EventSize(e: StringEvent): nat {
    StringSize(e.typ) + RepeatedSize(e.attributes, AttributeSize, |e.attributes|)
  }

  function LogSize(m: MessageLog): nat {
    ScalarSize(m.msgIndex) + StringSize(m.log) + RepeatedSize(m.events, EventSize, |m.events|)
  }

  lemma {:induction false} OneByteTag(num: nat, wireType: nat)
    requires num < 16 && wireType < 8
    ensures Tag(num, wireType) == [(num * 8 + wireType) as byte]
  {
  }

  lemma {:induction false} FieldSizes(num: nat, p: Text, v: nat)
    requires num < 16
    ensures |StringField(num, p)| == StringSize(p)
    ensures |ScalarField(num, v)| == ScalarSize(v)
    ensures |Delimited(num, p)| == 1 + |p| + Sov(|p|)
  {
    OneByteTag(num, 2);
    OneByteTag(num, 0);
    SovIsLength(|p|);
    SovIsLength(v);
  }

  lemma {:induction false} RepeatedSizes<T>(num: nat, xs: seq<T>, enc: T -> Bytes, size: T -> nat, k: nat)
    requires k <= |xs| && num < 16 && forall x :: x in xs ==> |enc(x)| == size(x)
    ensures |Repeated(num, xs, enc, k)| == RepeatedSize(xs, size, k)
  {
    if k > 0 {
      RepeatedSizes(num, xs, enc, size, k - 1);
      assert xs[k - 1] in xs;
      FieldSizes(num, enc(xs[k - 1]), 0);
    }
  }

  /** `Size` is the length of the encoding, at every level of the tower. */
  lemma {:induction false} AttributeSizeIsLength(a: Attribute)
    ensures |EncodeAttribute(a)| == AttributeSize(a)
  {
    FieldSizes(1, a.key, 0);
    FieldSizes(2, a.value, 0);
  }

  lemma {:induction false} EventSizeIsLength(e: StringEvent)
    ensures |EncodeEvent(e)| == EventSize(e)
  {
    FieldSizes(1, e.typ, 0);
    forall a | a in e.attributes ensures |EncodeAttribute(a)| == AttributeSize(a) { AttributeSizeIsLength(a); }
    RepeatedSizes(2, e.attributes, EncodeAttribute, AttributeSize, |e.attributes|);
  }

  lemma {:induction false} LogSizeIsLength(m: MessageLog)
    ensures |EncodeLog(m)| == LogSize(m)
  {
    FieldSizes(1, [], m.msgIndex);
    FieldSizes(2, m.log, 0);
    forall e | e in m.events ensures |EncodeEvent(e)| == EventSize(e) { EventSizeIsLength(e); }
    RepeatedSizes(3, m.events, EncodeEvent, EventSize, |m.events|);
  }

  // ---------- round trips ----------

  lemma {:induction false} ParseString<M>(sch: Schema<M>, num: nat, p: Text, m: M, n: M)
    requires 1 <= num < 16 && |p| < TWO63 && sch.kind(num) == BytesKind
    requires if p == [] then m == n else sch.bytes(m, num, p) == Some(n)
    ensures Parse(sch, StringField(num, p), m) == Some(n)
  {
    if p != [] { ParseDelimited(sch, num, p, m, n); }
  }

  lemma {:induction false} ParseNumber<M>(sch: Schema<M>, num: nat, v: nat, m: M, n: M)
    requires 1 <= num < 16 && sch.kind(num).ScalarKind? && Fits(v, sch.kind(num))
    requires if v == 0 then m == n else sch.scalar(m, num, v) == n
    ensures Parse(sch, ScalarField(num, v), m) == Some(n)
  {
    if v != 0 { ParseScalar(sch, num, v, m); }
  }

  /** A repeated field comes back element by element, through the states `at` lists. */
  lemma {:induction false} ParseRepeated<M, T>(sch: Schema<M>, num: nat, xs: seq<T>, enc: T -> Bytes, at: seq<M>, k: nat)
    requires k <= |xs| && |at| == |xs| + 1 && 1 <= num < 16 && sch.kind(num) == BytesKind
    requires forall i :: 0 <= i < |xs| ==> |enc(xs[i])| < TWO63
    requires forall i :: 0 <= i < |xs| ==> sch.bytes(at[i], num, enc(xs[i])) == Some(at[i + 1])
    ensures Parse(sch, Repeated(num, xs, enc, k), at[0]) == Some(at[k])
  {
    hide Parse, Delimited;
    if k == 0 {
      ParseNothing(sch, at[0]);
    } else {
      ParseRepeated(sch, num, xs, enc, at, k - 1);
      ParseDelimited(sch, num, enc(xs[k - 1]), at[k - 1], at[k - 1 + 1]);
      ParseBoth(sch, Repeated(num, xs, enc, k - 1), Delimited(num, enc(xs[k - 1])), at[0], at[k - 1], at[k]);
    }
  }

  lemma {:induction false} ParseNothing<M>(sch: Schema<M>, m: M)
    ensures Parse(sch, [], m) == Some(m)
  {
  }

  /** Every part of an encoding is no longer than the whole. */
  lemma {:induction false} ElementIsShorter<T>(num: nat, xs: seq<T>, enc: T -> Bytes, k: nat, i: nat)
    requires i < k <= |xs|
    ensures |enc(xs[i])| <= |Repeated(num, xs, enc, k)|
    decreases k
  {
    if i < k - 1 { ElementIsShorter(num, xs, enc, k - 1, i); }
  }

  /** Round trip of an attribute. */
  lemma {:induction false} AttributeRoundTrip(a: Attribute)
    requires |EncodeAttribute(a)| < TWO63
    ensures Parse(Attributes(), EncodeAttribute(a), NO_ATTRIBUTE) == Some(a)
  {
    hide Parse, Delimited;
    assert |a.key| <= |StringField(1, a.key)| && |a.value| <= |StringField(2, a.value)| by { Longer(1, a.key); Longer(2, a.value); }
    var withKey := NO_ATTRIBUTE.(key := a.key);
    ParseString(Attributes(), 1, a.key, NO_ATTRIBUTE, withKey);
    ParseString(Attributes(), 2, a.value, withKey, a);
    ParseBoth(Attributes(), StringField(1, a.key), StringField(2, a.value), NO_ATTRIBUTE, withKey, a);
  }

  lemma {:induction false} Longer(num: nat, p: Text)
    ensures |p| <= |StringField(num, p)| && |p| <= |Delimited(num, p)|
  {
  }

  /** The attributes of an event, parsed into an event that has its type already. */
  lemma {:induction false} AttributesParse(e: StringEvent)
    requires |Repeated(2, e.attributes, EncodeAttribute, |e.attributes|)| < TWO63
    ensures Parse(StringEvents(), Repeated(2, e.attributes, EncodeAttribute, |e.attributes|), e.(attributes := [])) == Some(e)
  {
    hide Parse, Delimited, EncodeAttribute;
    var n := |e.attributes|;
    var at := seq(n + 1, i requires 0 <= i <= n => StringEvent(e.typ, e.attributes[..i]));
    forall i | 0 <= i < n
      ensures |EncodeAttribute(e.attributes[i])| < TWO63
      ensures StringEvents().bytes(at[i], 2, EncodeAttribute(e.attributes[i])) == Some(at[i + 1])
    {
      ElementIsShorter(2, e.attributes, EncodeAttribute, n, i);
      AttributeRoundTrip(e.attributes[i]);
      assert e.attributes[..i] + [e.attributes[i]] == e.attributes[..i + 1];
    }
    ParseRepeated(StringEvents(), 2, e.attributes, EncodeAttribute, at, n);
    assert at[n] == e;
  }

  /** Round trip of an event: attributes inside it come back in order. */
  lemma {:induction false} EventRoundTrip(e: StringEvent)
    requires |EncodeEvent(e)| < TWO63
    ensures Parse(StringEvents(), EncodeEvent(e), NO_EVENT) == Some(e)
  {
    hide Parse, Delimited, Repeated, EncodeAttribute;
    Longer(1, e.typ);
    var start := e.(attributes := []);
    ParseString(StringEvents(), 1, e.typ, NO_EVENT, start);
    AttributesParse(e);
    ParseBoth(StringEvents(), StringField(1, e.typ), Repeated(2, e.attributes, EncodeAttribute, |e.attributes|), NO_EVENT, start, e);
  }

  /** The events of a log, parsed into a log that has the other fields already. */
  lemma {:induction false} EventsParse(m: MessageLog)
    requires |Repeated(3, m.events, EncodeEvent, |m.events|)| < TWO63
    ensures Parse(MessageLogs(), Repeated(3, m.events, EncodeEvent, |m.events|), m.(events := [])) == Some(m)
  {
    hide Parse, Delimited, EncodeEvent, ScalarField;
    var n := |m.events|;
    var sch := MessageLogs();
    var at := seq(n + 1, i requires 0 <= i <= n => MessageLog(m.msgIndex, m.log, m.events[..i]));
    forall i | 0 <= i < n
      ensures |EncodeEvent(m.events[i])| < TWO63
      ensures sch.bytes(at[i], 3, EncodeEvent(m.events[i])) == Some(at[i + 1])
    {
      ElementIsShorter(3, m.events, EncodeEvent, n, i);
      EventRoundTrip(m.events[i]);
      assert m.events[..i] + [m.events[i]] == m.events[..i + 1];
    }
    ParseRepeated(sch, 3, m.events, EncodeEvent, at, n);
    assert at[n] == m;
  }

  /** Round trip of a message log: repeated sub-messages inside repeated sub-messages. */
  lemma {:induction false} LogRoundTrip(m: MessageLog)
    requires m.msgIndex < TWO32 && |EncodeLog(m)| < TWO63
    ensures Parse(MessageLogs(), EncodeLog(m), NO_LOG) == Some(m)
  {
    hide Parse, Delimited, EncodeEvent, ScalarField, Repeated;
    var sch := MessageLogs();
    var events := Repeated(3, m.events, EncodeEvent, |m.events|);
    Longer(2, m.log);
    var withIndex := NO_LOG.(msgIndex := m.msgIndex);
    var withLog := withIndex.(log := m.log);
    ParseNumber(sch, 1, m.msgIndex, NO_LOG, withIndex);
    ParseString(sch, 2, m.log, withIndex, withLog);
    EventsParse(m);
    ParseBoth(sch, ScalarField(1, m.msgIndex), StringField(2, m.log), NO_LOG, withIndex, withLog);
    ParseBoth(sch, ScalarField(1, m.msgIndex) + StringField(2, m.log), events, NO_LOG, withLog, m);
  }
}
