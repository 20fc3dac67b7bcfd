/** `TxResponse.Size` and `TxResponse.MarshalToSizedBuffer`. */
module MarshalResponse {
  import opened Prelude
  import opened Varint
  import opened Wire
  import opened Parser
  import opened Messages
  import opened Marshal
  import opened TxResponses

  function EncodedSize<T>(c: SubCodec<T>): T -> nat { x => |c.enc(x)| }

  /** `TxResponse.Size`, field by field. */
  function ResponseSize<A, E>(any: SubCodec<A>, event: SubCodec<E>, r: TxResponse<A, E>): nat
    requires InRange(r)
  {
    ScalarSize(ToUint64(r.height)) + StringSize(r.txHash) + StringSize(r.codespace) + ScalarSize(r.code)
    + StringSize(r.data) + StringSize(r.rawLog) + RepeatedSize(r.logs, LogSize, |r.logs|) + StringSize(r.info)
    + ScalarSize(ToUint64(r.gasWanted)) + ScalarSize(ToUint64(r.gasUsed))
    + (if r.tx.None? then 0 else var l := |any.enc(r.tx.value)|; 1 + l + Sov(l))
    + StringSize(r.timestamp) + RepeatedSize(r.events, EncodedSize(event), |r.events|)
  }

  lemma {:induction false} LogsSize(xs: seq<MessageLog>)
    ensures |Repeated(7, xs, EncodeLog, |xs|)| == RepeatedSize(xs, LogSize, |xs|)
  {
    hide EncodeLog, LogSize;
    forall l | l in xs ensures |EncodeLog(l)| == LogSize(l) { LogSizeIsLength(l); }
    RepeatedSizes(7, xs, EncodeLog, LogSize, |xs|);
  }

  lemma {:induction false} EventsSize<E>(event: SubCodec<E>, xs: seq<E>)
    ensures |Repeated(13, xs, event.enc, |xs|)| == RepeatedSize(xs, EncodedSize(event), |xs|)
  {
    RepeatedSizes(13, xs, event.enc, EncodedSize(event), |xs|);
  }

  /** What each field is written as. */
  lemma {:induction false} PartIs<A, E>(any: SubCodec<A>, event: SubCodec<E>, r: TxResponse<A, E>)
    requires InRange(r)
    ensures Part(any, event, r, 1) == ScalarField(1, ToUint64(r.height))
    ensures Part(any, event, r, 2) == StringField(2, r.txHash)
    ensures Part(any, event, r, 3) == StringField(3, r.codespace)
    ensures Part(any, event, r, 4) == ScalarField(4, r.code)
    ensures Part(any, event, r, 5) == StringField(5, r.data)
    ensures Part(any, event, r, 6) == StringField(6, r.rawLog)
    ensures Part(any, event, r, 7) == Repeated(7, r.logs, EncodeLog, |r.logs|)
    ensures Part(any, event, r, 8) == StringField(8, r.info)
    ensures Part(any, event, r, 9) == ScalarField(9, ToUint64(r.gasWanted))
    ensures Part(any, event, r, 10) == ScalarField(10, ToUint64(r.gasUsed))
    ensures Part(any, event, r, 11) == if r.tx.None? then [] else Delimited(11, any.enc(r.tx.value))
    ensures Part(any, event, r, 12) == StringField(12, r.timestamp)
    ensures Part(any, event, r, 13) == Repeated(13, r.events, event.enc, |r.events|)
  {
    hide ScalarField, StringField, Repeated, Delimited;
  }

  /** The sizes of the thirteen parts. */
  lemma {:induction false} PartSizes<A, E>(any: SubCodec<A>, event: SubCodec<E>, r: TxResponse<A, E>)
    requires InRange(r)
    ensures |Part(any, event, r, 1)| == ScalarSize(ToUint64(r.height)) && |Part(any, event, r, 2)| == StringSize(r.txHash)
    ensures |Part(any, event, r, 3)| == StringSize(r.codespace) && |Part(any, event, r, 4)| == ScalarSize(r.code)
    ensures |Part(any, event, r, 5)| == StringSize(r.data) && |Part(any, event, r, 6)| == StringSize(r.rawLog)
    ensures |Part(any, event, r, 7)| == RepeatedSize(r.logs, LogSize, |r.logs|) && |Part(any, event, r, 8)| == StringSize(r.info)
    ensures |Part(any, event, r, 9)| == ScalarSize(ToUint64(r.gasWanted)) && |Part(any, event, r, 10)| == ScalarSize(ToUint64(r.gasUsed))
    ensures |Part(any, event, r, 11)| == if r.tx.None? then 0 else var l := |any.enc(r.tx.value)|; 1 + l + Sov(l)
    ensures |Part(any, event, r, 12)| == StringSize(r.timestamp) && |Part(any, event, r, 13)| == RepeatedSize(r.events, EncodedSize(event), |r.events|)
  {
    hide Part, ScalarField, StringField, Repeated, Delimited, ScalarSize, StringSize, RepeatedSize, Sov, EncodedSize;
    PartIs(any, event, r);
    FieldSizes(1, [], ToUint64(r.height)); FieldSizes(2, r.txHash, 0); FieldSizes(3, r.codespace, 0); FieldSizes(4, [], r.code);
    FieldSizes(5, r.data, 0); FieldSizes(6, r.rawLog, 0); FieldSizes(8, r.info, 0); FieldSizes(9, [], ToUint64(r.gasWanted));
    FieldSizes(10, [], ToUint64(r.gasUsed)); FieldSizes(12, r.timestamp, 0);
    if r.tx.Some? { FieldSizes(11, any.enc(r.tx.value), 0); }
    LogsSize(r.logs);
    EventsSize(event, r.events);
  }

  lemma {:induction false} PartsLength<A, E>(any: SubCodec<A>, event: SubCodec<E>, r: TxResponse<A, E>, k: nat)
    requires InRange(r) && 1 <= k
    ensures |Parts(any, event, r, k)| == |Parts(any, event, r, k - 1)| + |Part(any, event, r, k)|
  {
    hide Part;
  }

  lemma {:induction false} NoParts<A, E>(any: SubCodec<A>, event: SubCodec<E>, r: TxResponse<A, E>)
    requires InRange(r)
    ensures Parts(any, event, r, 0) == []
  {
  }

  /** `Size` is the length of the encoding of a response. */
  lemma {:induction false} ResponseSizeIsLength<A, E>(any: SubCodec<A>, event: SubCodec<E>, r: TxResponse<A, E>)
    requires InRange(r)
    ensures |EncodeResponse(any, event, r)| == ResponseSize(any, event, r)
  {
    hide Part, Parts, ScalarSize, StringSize, RepeatedSize, Sov, EncodedSize, ToUint64;
    PartSizes(any, event, r);
    NoParts(any, event, r);
    PartsLength(any, event, r, 1); PartsLength(any, event, r, 2); PartsLength(any, event, r, 3); PartsLength(any, event, r, 4); PartsLength(any, event, r, 5);
    PartsLength(any, event, r, 6); PartsLength(any, event, r, 7); PartsLength(any, event, r, 8); PartsLength(any, event, r, 9); PartsLength(any, event, r, 10);
    PartsLength(any, event, r, 11); PartsLength(any, event, r, 12); PartsLength(any, event, r, 13);
  }

  // ---------- writing ----------

  /** Fields `k` to 13. */
  function PartsFrom<A, E>(any: SubCodec<A>, event: SubCodec<E>, r: TxResponse<A, E>, k: nat): Bytes
    requires InRange(r) && 1 <= k <= 14
    decreases 14 - k
  {
    if k == 14 then [] else Part(any, event, r, k) + PartsFrom(any, event, r, k + 1)
  }

  lemma {:induction false} PartsSplit<A, E>(any: SubCodec<A>, event: SubCodec<E>, r: TxResponse<A, E>, k: nat)
    requires InRange(r) && 1 <= k <= 14
    ensures Parts(any, event, r, k - 1) + PartsFrom(any, event, r, k) == EncodeResponse(any, event, r)
    decreases 14 - k
  {
    hide Part;
    if k < 14 {
      PartsSplit(any, event, r, k + 1);
      assert Parts(any, event, r, k) == Parts(any, event, r, k - 1) + Part(any, event, r, k);
    }
  }

  /** The buffer holds the fields from `k` on, ending at `end`, and `i` is where they start. */
  ghost predicate Written<A, E>(any: SubCodec<A>, event: SubCodec<E>, r: TxResponse<A, E>, k: nat, was: Bytes, now: Bytes, end: nat, i: int)
    requires InRange(r) && 1 <= k <= 14
  {
    && |PartsFrom(any, event, r, k)| <= end <= |was|
    && i == end - |PartsFrom(any, event, r, k)|
    && now == Placed(was, PartsFrom(any, event, r, k), end)
  }

  /** There is room in front for field `k - 1`, and writing it there is the next step. */
  lemma {:induction false} NextPart<A, E>(any: SubCodec<A>, event: SubCodec<E>, r: TxResponse<A, E>, k: nat, was: Bytes, now: Bytes, end: nat, i: nat)
    requires InRange(r) && 2 <= k <= 14 && Written(any, event, r, k, was, now, end, i)
    requires |EncodeResponse(any, event, r)| <= end
    ensures |Part(any, event, r, k - 1)| <= i <= |now| == |was|
    ensures Written(any, event, r, k - 1, was, Placed(now, Part(any, event, r, k - 1), i), end, i - |Part(any, event, r, k - 1)|)
  {
    hide Part, Placed;
    PartsSplit(any, event, r, k - 1);
    PlacedInFront(was, PartsFrom(any, event, r, k), Part(any, event, r, k - 1), end);
  }

  /** A sub-message of another package, written by its own `MarshalToSizedBuffer`, with its header. */
  method SubMessageBefore(dAtA: array<byte>, end: nat, num: nat, p: Bytes) returns (i: nat)
    requires num < 16 && |Delimited(num, p)| <= end <= dAtA.Length
    modifies dAtA
    ensures i == end - |Delimited(num, p)|
    ensures dAtA[..] == Placed(old(dAtA[..]), Delimited(num, p), end)
  {
    hide Placed, Encode, Tag;
    HeaderThenPayload(dAtA[..], num, p, end);
    i := CopyBefore(dAtA, end, p);
    i := HeaderBefore(dAtA, i, num, |p|);
  }

  method ForeignEventsBefore<E>(dAtA: array<byte>, end: nat, event: SubCodec<E>, xs: seq<E>) returns (i: nat)
    requires |Repeated(13, xs, event.enc, |xs|)| <= end <= dAtA.Length
    modifies dAtA
    ensures i == end - |Repeated(13, xs, event.enc, |xs|)|
    ensures dAtA[..] == Placed(old(dAtA[..]), Repeated(13, xs, event.enc, |xs|), end)
  {
    hide Placed, Delimited, Repeated, RepeatedFrom;
    ghost var was := dAtA[..];
    RepeatedFromFirst(13, xs, event.enc);
    i := end;
    PlacedNothing(was, end);
    var iNdEx: nat := |xs|;
    while iNdEx > 0
      invariant iNdEx <= |xs| && |RepeatedFrom(13, xs, event.enc, iNdEx)| <= end
      invariant i == end - |RepeatedFrom(13, xs, event.enc, iNdEx)|
      invariant dAtA[..] == Placed(was, RepeatedFrom(13, xs, event.enc, iNdEx), end)
    {
      iNdEx := iNdEx - 1;
      RoomForElement(13, xs, event.enc, iNdEx);
      Longer(13, event.enc(xs[iNdEx]));
      var at := CopyBefore(dAtA, i, event.enc(xs[iNdEx]));
      i := CloseElement(dAtA, end, 13, xs, event.enc, iNdEx, at, was);
    }
  }

  /** The loop over the logs of a response, last one first. */
  method LogsBefore(dAtA: array<byte>, end: nat, xs: seq<MessageLog>) returns (i: nat)
    requires |Repeated(7, xs, EncodeLog, |xs|)| <= end <= dAtA.Length
    modifies dAtA
    ensures i == end - |Repeated(7, xs, EncodeLog, |xs|)|
    ensures dAtA[..] == Placed(old(dAtA[..]), Repeated(7, xs, EncodeLog, |xs|), end)
  {
    hide Placed, Delimited, EncodeLog, LogSize, Repeated, RepeatedFrom;
    ghost var was := dAtA[..];
    RepeatedFromFirst(7, xs, EncodeLog);
    i := end;
    PlacedNothing(was, end);
    var iNdEx: nat := |xs|;
    while iNdEx > 0
      invariant iNdEx <= |xs| && |RepeatedFrom(7, xs, EncodeLog, iNdEx)| <= end
      invariant i == end - |RepeatedFrom(7, xs, EncodeLog, iNdEx)|
      invariant dAtA[..] == Placed(was, RepeatedFrom(7, xs, EncodeLog, iNdEx), end)
    {
      iNdEx := iNdEx - 1;
      RoomForElement(7, xs, EncodeLog, iNdEx);
      Longer(7, EncodeLog(xs[iNdEx]));
      var size := MarshalLog(dAtA, i, xs[iNdEx]);
      i := CloseElement(dAtA, end, 7, xs, EncodeLog, iNdEx, i - size, was);
    }
  }

  /** Fields 13 down to 8. */
  method UpperFields<A, E>(dAtA: array<byte>, end: nat, any: SubCodec<A>, event: SubCodec<E>, r: TxResponse<A, E>) returns (i: nat)
    requires InRange(r) && |EncodeResponse(any, event, r)| <= end <= dAtA.Length
    modifies dAtA
    ensures Written(any, event, r, 8, old(dAtA[..]), dAtA[..], end, i)
  {
    hide Part, Placed, ScalarField, StringField, Repeated, Delimited, EncodeResponse, Written;
    ghost var was := dAtA[..];
    PartIs(any, event, r);
    i := end;
    NothingWritten(any, event, r, was, end);
    NextPart(any, event, r, 14, was, dAtA[..], end, i);
    i := ForeignEventsBefore(dAtA, i, event, r.events);
    NextPart(any, event, r, 13, was, dAtA[..], end, i);
    i := StringBefore(dAtA, i, 12, r.timestamp);
    NextPart(any, event, r, 12, was, dAtA[..], end, i);
    if r.tx.Some? {
      i := SubMessageBefore(dAtA, i, 11, any.enc(r.tx.value));
    } else {
      PlacedNothing(dAtA[..], i);
    }
    NextPart(any, event, r, 11, was, dAtA[..], end, i);
    i := ScalarBefore(dAtA, i, 10, ToUint64(r.gasUsed));
    NextPart(any, event, r, 10, was, dAtA[..], end, i);
    i := ScalarBefore(dAtA, i, 9, ToUint64(r.gasWanted));
    NextPart(any, event, r, 9, was, dAtA[..], end, i);
    i := StringBefore(dAtA, i, 8, r.info);
  }

  lemma {:induction false} NothingWritten<A, E>(any: SubCodec<A>, event: SubCodec<E>, r: TxResponse<A, E>, was: Bytes, end: nat)
    requires InRange(r) && end <= |was|
    ensures Written(any, event, r, 14, was, was, end, end)
  {
    PlacedNothing(was, end);
  }

  /** Fields 7 down to 1. */
  method LowerFields<A, E>(dAtA: array<byte>, end: nat, any: SubCodec<A>, event: SubCodec<E>, r: TxResponse<A, E>, at: nat, ghost was: Bytes)
    returns (i: nat)
    requires InRange(r) && |EncodeResponse(any, event, r)| <= end <= dAtA.Length
    requires Written(any, event, r, 8, was, dAtA[..], end, at)
    modifies dAtA
    ensures Written(any, event, r, 1, was, dAtA[..], end, i)
  {
    hide Part, Placed, ScalarField, StringField, Repeated, Delimited, EncodeResponse, Written;
    PartIs(any, event, r);
    NextPart(any, event, r, 8, was, dAtA[..], end, at);
    i := LogsBefore(dAtA, at, r.logs);
    NextPart(any, event, r, 7, was, dAtA[..], end, i);
    i := StringBefore(dAtA, i, 6, r.rawLog);
    NextPart(any, event, r, 6, was, dAtA[..], end, i);
    i := StringBefore(dAtA, i, 5, r.data);
    NextPart(any, event, r, 5, was, dAtA[..], end, i);
    i := ScalarBefore(dAtA, i, 4, r.code);
    NextPart(any, event, r, 4, was, dAtA[..], end, i);
    i := StringBefore(dAtA, i, 3, r.codespace);
    NextPart(any, event, r, 3, was, dAtA[..], end, i);
    i := StringBefore(dAtA, i, 2, r.txHash);
    NextPart(any, event, r, 2, was, dAtA[..], end, i);
    i := ScalarBefore(dAtA, i, 1, ToUint64(r.height));
  }

  /** `TxResponse.MarshalToSizedBuffer`: the fields from the last to the first; `n` is the size it reports. */
  method MarshalTxResponse<A, E>(dAtA: array<byte>, end: nat, any: SubCodec<A>, event: SubCodec<E>, r: TxResponse<A, E>) returns (n: nat)
    requires InRange(r) && |EncodeResponse(any, event, r)| <= end <= dAtA.Length
    modifies dAtA
    ensures n == ResponseSize(any, event, r) == |EncodeResponse(any, event, r)|
    ensures dAtA[..] == Placed(old(dAtA[..]), EncodeResponse(any, event, r), end)
  {
    hide Part, Placed, EncodeResponse, ResponseSize;
    ghost var was := dAtA[..];
    var i := UpperFields(dAtA, end, any, event, r);
    i := LowerFields(dAtA, end, any, event, r, i, was);
    PartsSplit(any, event, r, 1);
    assert PartsFrom(any, event, r, 1) == [] + PartsFrom(any, event, r, 1);
    ResponseSizeIsLength(any, event, r);
    n := end - i;
  }

  /** `TxResponse.Marshal`: a buffer of exactly `Size()` bytes, filled completely. */
  method MarshalNewResponse<A(!new), E(!new)>(any: SubCodec<A>, event: SubCodec<E>, r: TxResponse<A, E>) returns (dAtA: array<byte>)
    requires InRange(r)
    ensures fresh(dAtA) && dAtA.Length == ResponseSize(any, event, r) && dAtA[..] == EncodeResponse(any, event, r)
    ensures Faithful(any) && Faithful(event) && dAtA.Length < TWO63 ==> Parse(Responses(any, event), dAtA[..], Blank()) == Some(r)
  {
    hide Placed, EncodeResponse, ResponseSize, Parse, Faithful, Responses;
    ResponseSizeIsLength(any, event, r);
    dAtA := new byte[ResponseSize(any, event, r)];
    ghost var was := dAtA[..];
    var n := MarshalTxResponse(dAtA, dAtA.Length, any, event, r);
    PlacedEverything(was, EncodeResponse(any, event, r));
    if Faithful(any) && Faithful(event) && dAtA.Length < TWO63 { ResponseRoundTrip(any, event, r); }
  }
}
