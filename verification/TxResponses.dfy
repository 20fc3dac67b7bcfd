/** TxResponse, the top of the tower: thirteen fields, with `Any` and `types.Event` as sub-messages of
    other packages that are known by their contract only. */
module TxResponses {
  import opened Prelude
  import opened Varint
  import opened Wire
  import opened Parser
  import opened Messages

  /** A sub-message type of another package: how it is written, and how bytes merge into a value of it. */
  datatype SubCodec<!T> = SubCodec(empty: T, enc: T -> Bytes, merge: (T, Bytes) -> Option<T>)

  /** Its own round trip: what was written, merged into the empty value, is the value. */
  ghost predicate Faithful<T(!new)>(c: SubCodec<T>) {
    forall x :: |c.enc(x)| < TWO63 ==> c.merge(c.empty, c.enc(x)) == Some(x)
  }

  datatype TxResponse<+A, +E> = TxResponse(
    height: int, txHash: Text, codespace: Text, code: nat, data: Text, rawLog: Text, logs: seq<MessageLog>,
    info: Text, gasWanted: int, gasUsed: int, tx: Option<A>, timestamp: Text, events: seq<E>)

  const MIN_INT64: int := -0x8000_0000_0000_0000

  /** The integers are in the range of their Go types. */
  predicate InRange<A, E>(r: TxResponse<A, E>) {
    && MIN_INT64 <= r.height < TWO63 && MIN_INT64 <= r.gasWanted < TWO63 && MIN_INT64 <= r.gasUsed < TWO63
    && r.code < TWO32 && forall l :: l in r.logs ==> l.msgIndex < TWO32
  }

  /** `uint64(v)` of an int64, and back: a negative number takes the upper half. */
  function ToUint64(v: int): nat
    requires MIN_INT64 <= v < TWO63
  {
    if v < 0 then v + TWO64 else v
  }

  function FromUint64(u: nat): int { if u >= TWO63 then u - TWO64 else u }

  function Blank<A, E>(): TxResponse<A, E> {
    TxResponse(0, [], [], 0, [], [], [], [], 0, 0, None, [], [])
  }

  // ---------- parsing ----------

  function KindOf(n: nat): Kind {
    if n == 4 then ScalarKind(false) else if n == 1 || n == 9 || n == 10 then ScalarKind(true) else if 1 <= n <= 13 then BytesKind else UnknownKind
  }

  function SetScalar<A, E>(m: TxResponse<A, E>, n: nat, v: nat): TxResponse<A, E> {
    if n == 1 then m.(height := FromUint64(v))
    else if n == 4 then m.(code := v)
    else if n == 9 then m.(gasWanted := FromUint64(v))
    else m.(gasUsed := FromUint64(v))
  }

  /** A payload: strings are replaced, `Logs` and `Events` grow by one, `Tx` is merged into. */
  function SetBytes<A, E>(any: SubCodec<A>, event: SubCodec<E>, m: TxResponse<A, E>, n: nat, p: Bytes): Option<TxResponse<A, E>> {
    if n == 2 then Some(m.(txHash := p))
    else if n == 3 then Some(m.(codespace := p))
    else if n == 5 then Some(m.(data := p))
    else if n == 6 then Some(m.(rawLog := p))
    else if n == 7 then
      var l := Parse(MessageLogs(), p, NO_LOG);
      if l.None? then None else Some(m.(logs := m.logs + [l.value]))
    else if n == 8 then Some(m.(info := p))
    else if n == 11 then
      var t := any.merge(if m.tx.None? then any.empty else m.tx.value, p);
      if t.None? then None else Some(m.(tx := t))
    else if n == 12 then Some(m.(timestamp := p))
    else
      var e := event.merge(event.empty, p);
      if e.None? then None else Some(m.(events := m.events + [e.value]))
  }

  function Responses<A, E>(any: SubCodec<A>, event: SubCodec<E>): Schema<TxResponse<A, E>> {
    Schema(KindOf, (m, n, v) => SetScalar(m, n, v), (m, n, p) => SetBytes(any, event, m, n, p))
  }

  // ---------- encoding ----------

  /** The bytes of field number `i`. */
  function Part<A, E>(any: SubCodec<A>, event: SubCodec<E>, r: TxResponse<A, E>, i: nat): Bytes
    requires InRange(r)
  {
    match i
    case 1 => ScalarField(1, ToUint64(r.height))
    case 2 => StringField(2, r.txHash)
    case 3 => StringField(3, r.codespace)
    case 4 => ScalarField(4, r.code)
    case 5 => StringField(5, r.data)
    case 6 => StringField(6, r.rawLog)
    case 7 => Repeated(7, r.logs, EncodeLog, |r.logs|)
    case 8 => StringField(8, r.info)
    case 9 => ScalarField(9, ToUint64(r.gasWanted))
    case 10 => ScalarField(10, ToUint64(r.gasUsed))
    case 11 => if r.tx.None? then [] else Delimited(11, any.enc(r.tx.value))
    case 12 => StringField(12, r.timestamp)
    case 13 => Repeated(13, r.events, event.enc, |r.events|)
    case _ => []
  }

  /** Fields 1 to `k`, in the order of their numbers. */
  function Parts<A, E>(any: SubCodec<A>, event: SubCodec<E>, r: TxResponse<A, E>, k: nat): Bytes
    requires InRange(r)
  {
    if k == 0 then [] else Parts(any, event, r, k - 1) + Part(any, event, r, k)
  }

  function EncodeResponse<A, E>(any: SubCodec<A>, event: SubCodec<E>, r: TxResponse<A, E>): Bytes
    requires InRange(r)
  {
    Parts(any, event, r, 13)
  }

  // ---------- round trip ----------

  /** The message when its fields up to number `k` have been read. */
  function Upto<A, E>(r: TxResponse<A, E>, k: nat): TxResponse<A, E> {
    TxResponse(
      if k >= 1 then r.height else 0, if k >= 2 then r.txHash else [], if k >= 3 then r.codespace else [],
      if k >= 4 then r.code else 0, if k >= 5 then r.data else [], if k >= 6 then r.rawLog else [],
      if k >= 7 then r.logs else [], if k >= 8 then r.info else [], if k >= 9 then r.gasWanted else 0,
      if k >= 10 then r.gasUsed else 0, if k >= 11 then r.tx else None, if k >= 12 then r.timestamp else [],
      if k >= 13 then r.events else [])
  }

  lemma {:induction false} ScalarPartParses<A, E>(any: SubCodec<A>, event: SubCodec<E>, r: TxResponse<A, E>, i: nat)
    requires InRange(r) && i in {1, 4, 9, 10}
    ensures Parse(Responses(any, event), Part(any, event, r, i), Upto(r, i - 1)) == Some(Upto(r, i))
  {
    hide Parse, ScalarField, StringField, Delimited, Repeated, SetBytes;
    var sch := Responses(any, event);
    var v := if i == 1 then ToUint64(r.height) else if i == 4 then r.code else if i == 9 then ToUint64(r.gasWanted) else ToUint64(r.gasUsed);
    assert Part(any, event, r, i) == ScalarField(i, v);
    ParseNumber(sch, i, v, Upto(r, i - 1), Upto(r, i));
  }

  lemma {:induction false} StringPartParses<A, E>(any: SubCodec<A>, event: SubCodec<E>, r: TxResponse<A, E>, i: nat)
    requires InRange(r) && i in {2, 3, 5, 6, 8, 12} && |Part(any, event, r, i)| < TWO63
    ensures Parse(Responses(any, event), Part(any, event, r, i), Upto(r, i - 1)) == Some(Upto(r, i))
  {
    hide Parse, ScalarField, StringField, Delimited, Repeated;
    var sch := Responses(any, event);
    var p := if i == 2 then r.txHash else if i == 3 then r.codespace else if i == 5 then r.data
             else if i == 6 then r.rawLog else if i == 8 then r.info else r.timestamp;
    assert Part(any, event, r, i) == StringField(i, p);
    Longer(i, p);
    ParseString(sch, i, p, Upto(r, i - 1), Upto(r, i));
  }

  lemma {:induction false} LogsPartParses<A, E>(any: SubCodec<A>, event: SubCodec<E>, r: TxResponse<A, E>)
    requires InRange(r) && |Repeated(7, r.logs, EncodeLog, |r.logs|)| < TWO63
    ensures Parse(Responses(any, event), Repeated(7, r.logs, EncodeLog, |r.logs|), Upto(r, 6)) == Some(Upto(r, 7))
  {
    hide Parse, EncodeLog, MessageLogs, Repeated;
    var sch, n, done := Responses(any, event), |r.logs|, Upto(r, 7);
    var at := seq(n + 1, i requires 0 <= i <= n => done.(logs := r.logs[..i]));
    assert r.logs[..0] == [] && r.logs[..n] == r.logs;
    forall i | 0 <= i < n
      ensures |EncodeLog(r.logs[i])| < TWO63
      ensures sch.bytes(at[i], 7, EncodeLog(r.logs[i])) == Some(at[i + 1])
    {
      ElementIsShorter(7, r.logs, EncodeLog, n, i);
      LogRoundTrip(r.logs[i]);
      assert r.logs[..i] + [r.logs[i]] == r.logs[..i + 1];
    }
    ParseRepeated(sch, 7, r.logs, EncodeLog, at, n);
    assert at[0] == Upto(r, 6) && at[n] == Upto(r, 7);
  }

  lemma {:induction false} EventsPartParses<A, E(!new)>(any: SubCodec<A>, event: SubCodec<E>, r: TxResponse<A, E>)
    requires Faithful(event) && |Repeated(13, r.events, event.enc, |r.events|)| < TWO63
    ensures Parse(Responses(any, event), Repeated(13, r.events, event.enc, |r.events|), Upto(r, 12)) == Some(Upto(r, 13))
  {
    hide Parse, Repeated;
    var sch, n, done := Responses(any, event), |r.events|, Upto(r, 13);
    var at := seq(n + 1, i requires 0 <= i <= n => done.(events := r.events[..i]));
    assert r.events[..0] == [] && r.events[..n] == r.events;
    forall i | 0 <= i < n
      ensures |event.enc(r.events[i])| < TWO63
      ensures sch.bytes(at[i], 13, event.enc(r.events[i])) == Some(at[i + 1])
    {
      ElementIsShorter(13, r.events, event.enc, n, i);
      assert r.events[..i] + [r.events[i]] == r.events[..i + 1];
    }
    ParseRepeated(sch, 13, r.events, event.enc, at, n);
    assert at[0] == Upto(r, 12) && at[n] == Upto(r, 13);
  }

  lemma {:induction false} TxPartParses<A(!new), E>(any: SubCodec<A>, event: SubCodec<E>, r: TxResponse<A, E>)
    requires InRange(r) && Faithful(any) && |Part(any, event, r, 11)| < TWO63
    ensures Parse(Responses(any, event), Part(any, event, r, 11), Upto(r, 10)) == Some(Upto(r, 11))
  {
    hide Parse, Delimited;
    var sch := Responses(any, event);
    if r.tx.None? {
      ParseNothing(sch, Upto(r, 10));
    } else {
      var p := any.enc(r.tx.value);
      Longer(11, p);
      ParseDelimited(sch, 11, p, Upto(r, 10), Upto(r, 11));
    }
  }

  lemma {:induction false} PartParses<A(!new), E(!new)>(any: SubCodec<A>, event: SubCodec<E>, r: TxResponse<A, E>, i: nat)
    requires 1 <= i <= 13 && InRange(r) && Faithful(any) && Faithful(event) && |Part(any, event, r, i)| < TWO63
    ensures Parse(Responses(any, event), Part(any, event, r, i), Upto(r, i - 1)) == Some(Upto(r, i))
  {
    hide Parse, Delimited, Repeated, StringField, ScalarField, Upto, EncodeLog;
    if i in {1, 4, 9, 10} { ScalarPartParses(any, event, r, i); }
    else if i in {2, 3, 5, 6, 8, 12} { StringPartParses(any, event, r, i); }
    else if i == 7 { LogsPartParses(any, event, r); }
    else if i == 11 { TxPartParses(any, event, r); }
    else { EventsPartParses(any, event, r); }
  }

  lemma {:induction false} PartsParse<A(!new), E(!new)>(any: SubCodec<A>, event: SubCodec<E>, r: TxResponse<A, E>, k: nat)
    requires k <= 13 && InRange(r) && Faithful(any) && Faithful(event) && |Parts(any, event, r, k)| < TWO63
    ensures Parse(Responses(any, event), Parts(any, event, r, k), Blank()) == Some(Upto(r, k))
  {
    hide Parse, Part, Upto, Responses;
    var sch := Responses(any, event);
    if k == 0 {
      ParseNothing(sch, Blank<A, E>());
      assert Blank<A, E>() == Upto(r, 0) by { UptoEnds(r); }
    } else {
      PartsParse(any, event, r, k - 1);
      PartParses(any, event, r, k);
      ParseBoth(sch, Parts(any, event, r, k - 1), Part(any, event, r, k), Blank(), Upto(r, k - 1), Upto(r, k));
    }
  }

  lemma {:induction false} UptoEnds<A, E>(r: TxResponse<A, E>)
    ensures Upto(r, 0) == Blank() && Upto(r, 13) == r
  {
  }

  /** Round trip of a whole response: `Unmarshal` of its encoding into an empty message gives it back. */
  lemma {:induction false} ResponseRoundTrip<A(!new), E(!new)>(any: SubCodec<A>, event: SubCodec<E>, r: TxResponse<A, E>)
    requires InRange(r) && Faithful(any) && Faithful(event) && |EncodeResponse(any, event, r)| < TWO63
    ensures Parse(Responses(any, event), EncodeResponse(any, event, r), Blank()) == Some(r)
  {
    hide Parse, Parts, Upto;
    PartsParse(any, event, r, 13);
    UptoEnds(r);
  }
}
