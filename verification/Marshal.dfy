/** `MarshalToSizedBuffer` and `Marshal`: filling a sized buffer from right to left, in place. */
module Marshal {
  import opened Prelude
  import opened Varint
  import opened Wire
  import opened Parser
  import opened Messages

  /** The buffer with `x` written so that it ends at `end`. */
  ghost function Placed(s: Bytes, x: Bytes, end: nat): (r: Bytes)
    requires |x| <= end <= |s|
    ensures |r| == |s|
  {
    s[..end - |x|] + x + s[end..]
  }

  /** Writing `y` right in front of `x` is writing `y + x`. */
  lemma {:induction false} PlacedInFront(s: Bytes, x: Bytes, y: Bytes, end: nat)
    requires |y| + |x| <= end <= |s|
    ensures Placed(Placed(s, x, end), y, end - |x|) == Placed(s, y + x, end)
  {
  }

  lemma {:induction false} PlacedNothing(s: Bytes, end: nat)
    requires end <= |s|
    ensures Placed(s, [], end) == s
  {
  }

  lemma {:induction false} PlacedEverything(s: Bytes, x: Bytes)
    requires |x| == |s|
    ensures Placed(s, x, |s|) == x
  {
  }

  /** `copy(dAtA[i:], p)` with `i` moved back by the length of `p` first. */
  method CopyBefore(dAtA: array<byte>, end: nat, p: Bytes) returns (i: nat)
    requires |p| <= end <= dAtA.Length
    modifies dAtA
    ensures i == end - |p|
    ensures dAtA[..] == Placed(old(dAtA[..]), p, end)
  {
    i := end - |p|;
    ghost var was := dAtA[..];
    for k := 0 to |p|
      invariant dAtA[i..i + k] == p[..k]
      invariant dAtA[..i] == was[..i] && dAtA[i + k..] == was[i + k..]
    {
      dAtA[i + k] := p[k];
    }
    assert dAtA[..] == dAtA[..i] + dAtA[i..end] + dAtA[end..];
  }

  method VarintBefore(dAtA: array<byte>, end: nat, v: nat) returns (i: nat)
    requires |Encode(v)| <= end <= dAtA.Length
    modifies dAtA
    ensures i == end - |Encode(v)|
    ensures dAtA[..] == Placed(old(dAtA[..]), Encode(v), end)
  {
    i := EncodeVarint(dAtA, end, v);
    assert dAtA[..] == dAtA[..i] + dAtA[i..end] + dAtA[end..];
  }

  method TagBefore(dAtA: array<byte>, end: nat, num: nat, wireType: nat) returns (i: nat)
    requires 1 <= end <= dAtA.Length && num < 16 && wireType < 8
    modifies dAtA
    ensures i == end - |Tag(num, wireType)|
    ensures |Tag(num, wireType)| == 1 && dAtA[..] == Placed(old(dAtA[..]), Tag(num, wireType), end)
  {
    hide Tag, Encode;
    OneByteTag(num, wireType);
    i := end - 1;
    dAtA[i] := (num * 8 + wireType) as byte;
  }

  /** The length of a payload that has been written already, and the tag in front of it. */
  method HeaderBefore(dAtA: array<byte>, end: nat, num: nat, size: nat) returns (i: nat)
    requires num < 16 && |Tag(num, 2) + Encode(size)| <= end <= dAtA.Length
    modifies dAtA
    ensures i == end - |Tag(num, 2) + Encode(size)|
    ensures dAtA[..] == Placed(old(dAtA[..]), Tag(num, 2) + Encode(size), end)
  {
    hide Placed, Encode, Tag;
    OneByteTag(num, 2);
    i := VarintBefore(dAtA, end, size);
    i := TagBefore(dAtA, i, num, 2);
    PlacedInFront(old(dAtA[..]), Encode(size), Tag(num, 2), end);
  }

  /** What `HeaderBefore` in front of a payload amounts to. */
  lemma {:induction false} HeaderThenPayload(s: Bytes, num: nat, p: Bytes, end: nat)
    requires |Delimited(num, p)| <= end <= |s|
    ensures |Delimited(num, p)| == |Tag(num, 2) + Encode(|p|)| + |p|
    ensures Placed(Placed(s, p, end), Tag(num, 2) + Encode(|p|), end - |p|) == Placed(s, Delimited(num, p), end)
  {
    hide Placed, Encode, Tag;
    PlacedInFront(s, p, Tag(num, 2) + Encode(|p|), end);
  }

  /** A string field, left out when the string is empty. */
  method StringBefore(dAtA: array<byte>, end: nat, num: nat, p: Text) returns (i: nat)
    requires num < 16 && |StringField(num, p)| <= end <= dAtA.Length
    modifies dAtA
    ensures i == end - |StringField(num, p)|
    ensures dAtA[..] == Placed(old(dAtA[..]), StringField(num, p), end)
  {
    hide Placed, Encode, Tag;
    i := end;
    if |p| > 0 {
      HeaderThenPayload(dAtA[..], num, p, end);
      i := CopyBefore(dAtA, i, p);
      i := HeaderBefore(dAtA, i, num, |p|);
    } else {
      PlacedNothing(dAtA[..], end);
    }
  }

  /** A varint field, left out when it is zero. */
  method ScalarBefore(dAtA: array<byte>, end: nat, num: nat, v: nat) returns (i: nat)
    requires num < 16 && |ScalarField(num, v)| <= end <= dAtA.Length
    modifies dAtA
    ensures i == end - |ScalarField(num, v)|
    ensures dAtA[..] == Placed(old(dAtA[..]), ScalarField(num, v), end)
  {
    hide Placed, Encode, Tag;
    i := end;
    if v != 0 {
      OneByteTag(num, 0);
      i := VarintBefore(dAtA, i, v);
      i := TagBefore(dAtA, i, num, 0);
      PlacedInFront(old(dAtA[..]), Encode(v), Tag(num, 0), end);
    } else {
      PlacedNothing(dAtA[..], end);
    }
  }

  // ---------- repeated fields ----------

  /** The elements of a repeated field from element `k` on. */
  function RepeatedFrom<T>(num: nat, xs: seq<T>, enc: T -> Bytes, k: nat): Bytes
    requires k <= |xs|
    decreases |xs| - k
  {
    if k == |xs| then [] else Delimited(num, enc(xs[k])) + RepeatedFrom(num, xs, enc, k + 1)
  }

  lemma {:induction false} RepeatedSplits<T>(num: nat, xs: seq<T>, enc: T -> Bytes, k: nat)
    requires k <= |xs|
    ensures Repeated(num, xs, enc, k) + RepeatedFrom(num, xs, enc, k) == Repeated(num, xs, enc, |xs|)
    decreases |xs| - k
  {
    hide Delimited;
    if k < |xs| {
      RepeatedSplits(num, xs, enc, k + 1);
      assert Repeated(num, xs, enc, k + 1) == Repeated(num, xs, enc, k) + Delimited(num, enc(xs[k]));
    }
  }

  lemma {:induction false} RepeatedFromFirst<T>(num: nat, xs: seq<T>, enc: T -> Bytes)
    ensures RepeatedFrom(num, xs, enc, 0) == Repeated(num, xs, enc, |xs|)
    ensures RepeatedFrom(num, xs, enc, |xs|) == []
  {
    RepeatedSplits(num, xs, enc, 0);
    assert [] + RepeatedFrom(num, xs, enc, 0) == RepeatedFrom(num, xs, enc, 0);
  }

  /** There is room for element `k` when what follows it has been written. */
  lemma {:induction false} RoomForElement<T>(num: nat, xs: seq<T>, enc: T -> Bytes, k: nat)
    requires k < |xs|
    ensures |Delimited(num, enc(xs[k]))| + |RepeatedFrom(num, xs, enc, k + 1)| <= |Repeated(num, xs, enc, |xs|)|
    ensures RepeatedFrom(num, xs, enc, k) == Delimited(num, enc(xs[k])) + RepeatedFrom(num, xs, enc, k + 1)
  {
    hide Delimited;
    RepeatedSplits(num, xs, enc, k);
  }

  /** Element `k`, its payload already written, completed by its header: one step of the backwards loop. */
  method CloseElement<T>(dAtA: array<byte>, end: nat, num: nat, xs: seq<T>, enc: T -> Bytes, k: nat, at: nat, ghost was: Bytes)
    returns (i: nat)
    requires num < 16 && k < |xs| && |Repeated(num, xs, enc, |xs|)| <= end <= dAtA.Length == |was|
    requires |RepeatedFrom(num, xs, enc, k + 1)| <= end && |enc(xs[k])| + |RepeatedFrom(num, xs, enc, k + 1)| <= end
    requires at == end - |RepeatedFrom(num, xs, enc, k + 1)| - |enc(xs[k])|
    requires dAtA[..] == Placed(Placed(was, RepeatedFrom(num, xs, enc, k + 1), end), enc(xs[k]), at + |enc(xs[k])|)
    modifies dAtA
    ensures |RepeatedFrom(num, xs, enc, k)| <= end && i == end - |RepeatedFrom(num, xs, enc, k)|
    ensures dAtA[..] == Placed(was, RepeatedFrom(num, xs, enc, k), end)
  {
    hide Placed, Encode, Tag, Repeated, RepeatedFrom;
    RoomForElement(num, xs, enc, k);
    ghost var p, rest := enc(xs[k]), RepeatedFrom(num, xs, enc, k + 1);
    ghost var mid := Placed(was, rest, end);
    HeaderThenPayload(mid, num, p, at + |p|);
    i := HeaderBefore(dAtA, at, num, |enc(xs[k])|);
    PlacedInFront(was, rest, Delimited(num, p), end);
  }

  // ---------- the messages ----------

  /** `Attribute.MarshalToSizedBuffer` on the buffer up to `end`; `n` is the size it reports. */
  method MarshalAttribute(dAtA: array<byte>, end: nat, a: Attribute) returns (n: nat)
    requires |EncodeAttribute(a)| <= end <= dAtA.Length
    modifies dAtA
    ensures n == AttributeSize(a) == |EncodeAttribute(a)|
    ensures dAtA[..] == Placed(old(dAtA[..]), EncodeAttribute(a), end)
  {
    hide Placed, StringField;
    var i := StringBefore(dAtA, end, 2, a.value);
    i := StringBefore(dAtA, i, 1, a.key);
    n := end - i;
    AttributeSizeIsLength(a);
    PlacedInFront(old(dAtA[..]), StringField(2, a.value), StringField(1, a.key), end);
  }

  /** The loop over the attributes of an event, last one first. */
  method AttributesBefore(dAtA: array<byte>, end: nat, xs: seq<Attribute>) returns (i: nat)
    requires |Repeated(2, xs, EncodeAttribute, |xs|)| <= end <= dAtA.Length
    modifies dAtA
    ensures i == end - |Repeated(2, xs, EncodeAttribute, |xs|)|
    ensures dAtA[..] == Placed(old(dAtA[..]), Repeated(2, xs, EncodeAttribute, |xs|), end)
  {
    hide Placed, Delimited, EncodeAttribute, AttributeSize, Repeated, RepeatedFrom;
    ghost var was := dAtA[..];
    RepeatedFromFirst(2, xs, EncodeAttribute);
    i := end;
    PlacedNothing(was, end);
    var iNdEx: nat := |xs|;
    while iNdEx > 0
      invariant iNdEx <= |xs| && |RepeatedFrom(2, xs, EncodeAttribute, iNdEx)| <= end
      invariant i == end - |RepeatedFrom(2, xs, EncodeAttribute, iNdEx)|
      invariant dAtA[..] == Placed(was, RepeatedFrom(2, xs, EncodeAttribute, iNdEx), end)
    {
      iNdEx := iNdEx - 1;
      RoomForElement(2, xs, EncodeAttribute, iNdEx);
      Longer(2, EncodeAttribute(xs[iNdEx]));
      var size := MarshalAttribute(dAtA, i, xs[iNdEx]);
      i := CloseElement(dAtA, end, 2, xs, EncodeAttribute, iNdEx, i - size, was);
    }
  }

  /** `StringEvent.MarshalToSizedBuffer`. */
  method MarshalEvent(dAtA: array<byte>, end: nat, e: StringEvent) returns (n: nat)
    requires |EncodeEvent(e)| <= end <= dAtA.Length
    modifies dAtA
    ensures n == EventSize(e) == |EncodeEvent(e)|
    ensures dAtA[..] == Placed(old(dAtA[..]), EncodeEvent(e), end)
  {
    hide Placed, StringField, Repeated;
    var i := AttributesBefore(dAtA, end, e.attributes);
    i := StringBefore(dAtA, i, 1, e.typ);
    n := end - i;
    EventSizeIsLength(e);
    PlacedInFront(old(dAtA[..]), Repeated(2, e.attributes, EncodeAttribute, |e.attributes|), StringField(1, e.typ), end);
  }

  /** The loop over the events of a log, last one first. */
  method EventsBefore(dAtA: array<byte>, end: nat, xs: seq<StringEvent>) returns (i: nat)
    requires |Repeated(3, xs, EncodeEvent, |xs|)| <= end <= dAtA.Length
    modifies dAtA
    ensures i == end - |Repeated(3, xs, EncodeEvent, |xs|)|
    ensures dAtA[..] == Placed(old(dAtA[..]), Repeated(3, xs, EncodeEvent, |xs|), end)
  {
    hide Placed, Delimited, EncodeEvent, EventSize, Repeated, RepeatedFrom;
    ghost var was := dAtA[..];
    RepeatedFromFirst(3, xs, EncodeEvent);
    i := end;
    PlacedNothing(was, end);
    var iNdEx: nat := |xs|;
    while iNdEx > 0
      invariant iNdEx <= |xs| && |RepeatedFrom(3, xs, EncodeEvent, iNdEx)| <= end
      invariant i == end - |RepeatedFrom(3, xs, EncodeEvent, iNdEx)|
      invariant dAtA[..] == Placed(was, RepeatedFrom(3, xs, EncodeEvent, iNdEx), end)
    {
      iNdEx := iNdEx - 1;
      RoomForElement(3, xs, EncodeEvent, iNdEx);
      Longer(3, EncodeEvent(xs[iNdEx]));
      var size := MarshalEvent(dAtA, i, xs[iNdEx]);
      i := CloseElement(dAtA, end, 3, xs, EncodeEvent, iNdEx, i - size, was);
    }
  }

  /** `ABCIMessageLog.MarshalToSizedBuffer`. */
  method MarshalLog(dAtA: array<byte>, end: nat, m: MessageLog) returns (n: nat)
    requires |EncodeLog(m)| <= end <= dAtA.Length
    modifies dAtA
    ensures n == LogSize(m) == |EncodeLog(m)|
    ensures dAtA[..] == Placed(old(dAtA[..]), EncodeLog(m), end)
  {
    hide Placed, StringField, ScalarField, Repeated;
    ghost var was := dAtA[..];
    ghost var events := Repeated(3, m.events, EncodeEvent, |m.events|);
    var i := EventsBefore(dAtA, end, m.events);
    i := StringBefore(dAtA, i, 2, m.log);
    PlacedInFront(was, events, StringField(2, m.log), end);
    i := ScalarBefore(dAtA, i, 1, m.msgIndex);
    PlacedInFront(was, StringField(2, m.log) + events, ScalarField(1, m.msgIndex), end);
    assert ScalarField(1, m.msgIndex) + (StringField(2, m.log) + events) == EncodeLog(m);
    n := end - i;
    LogSizeIsLength(m);
  }

  /** `ABCIMessageLog.Marshal`: a buffer of exactly `Size()` bytes, filled completely, that `Unmarshal` into an
      empty message turns back into `m`. */
  method MarshalNewLog(m: MessageLog) returns (dAtA: array<byte>)
    ensures fresh(dAtA) && dAtA.Length == LogSize(m) && dAtA[..] == EncodeLog(m)
    ensures m.msgIndex < TWO32 && dAtA.Length < TWO63 ==> Parse(MessageLogs(), dAtA[..], NO_LOG) == Some(m)
  {
    hide Placed, EncodeLog, LogSize, Parse;
    LogSizeIsLength(m);
    dAtA := new byte[LogSize(m)];
    ghost var was := dAtA[..];
    var n := MarshalLog(dAtA, dAtA.Length, m);
    PlacedEverything(was, EncodeLog(m));
    if m.msgIndex < TWO32 && dAtA.Length < TWO63 { LogRoundTrip(m); }
  }
}
