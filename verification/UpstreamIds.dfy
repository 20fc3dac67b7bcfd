/** The proxy's own JSON-RPC ids: an insertion-ordered map from upstream id to the miner's request. */
module UpstreamIdMap {
  import opened Prelude

  /** A JSON id as Python sees it; `true` is not an int here although Python's bool is one. */
  datatype Id = IntId(n: int) | BoolId(b: bool) | OtherId(text: string)

  /** A request that has no answer yet; `diff` is its weight when it is a share. */
  datatype Entry = Entry(uid: nat, minerId: Id, diff: Option<nat>)

  const MAX: nat := 1024

  /** The next id, the entries in insertion order, and every id dropped without an answer. */
  datatype Ids = Ids(next: nat, pending: seq<Entry>, dropped: seq<nat>)

  const NEW_IDS := Ids(1, [], [])

  function Issued(s: Ids, minerId: Id, diff: Option<nat>): Ids {
    var all := s.pending + [Entry(s.next, minerId, diff)];
    if |all| > MAX then Ids(s.next + 1, all[1..], s.dropped + [all[0].uid]) else Ids(s.next + 1, all, s.dropped)
  }

  /** Where the entry of an upstream id is, from index `i` on. */
  function Find(pending: seq<Entry>, uid: int, i: nat): (k: Option<nat>)
    requires i <= |pending|
    ensures k.Some? ==> i <= k.value < |pending| && pending[k.value].uid == uid
    ensures k.None? ==> forall j :: i <= j < |pending| ==> pending[j].uid != uid
    decreases |pending| - i
  {
    if i == |pending| then None
    else if pending[i].uid == uid then Some(i)
    else Find(pending, uid, i + 1)
  }

  /** The entry an answer with this id belongs to. */
  function Matching(s: Ids, id: Id): (k: Option<nat>)
    ensures k.Some? ==> k.value < |s.pending| && id == IntId(s.pending[k.value].uid)
  {
    if id.IntId? then Find(s.pending, id.n, 0) else None
  }

  function Without(s: Ids, k: nat): Ids
    requires k < |s.pending|
  {
    s.(pending := s.pending[..k] + s.pending[k + 1..])
  }

  class UpstreamIds {
    var next: nat
    var map_: seq<Entry>
    ghost var dropped: seq<nat>

    ghost function State(): Ids
      reads this
    {
      Ids(next, map_, dropped)
    }

    constructor ()
      ensures State() == NEW_IDS
    {
      next, map_, dropped := 1, [], [];
    }

    method Issue(minerId: Id, diff: Option<nat>) returns (uid: nat)
      modifies this
      ensures State() == Issued(old(State()), minerId, diff) && uid == old(next)
    {
      uid := next;
      next := next + 1;
      map_ := map_ + [Entry(uid, minerId, diff)];
      if |map_| > MAX {
        dropped := dropped + [map_[0].uid];
        map_ := map_[1..];
      }
    }

    method Resolve(id: Id) returns (ent: Option<Entry>)
      modifies this
      ensures match Matching(old(State()), id)
              case None => ent == None && State() == old(State())
              case Some(k) => ent == Some(old(map_)[k]) && State() == Without(old(State()), k)
    {
      if !id.IntId? { return None; }
      for k := 0 to |map_|
        invariant map_ == old(map_) && Find(map_, id.n, 0) == Find(map_, id.n, k)
      {
        if map_[k].uid == id.n {
          ent := Some(map_[k]);
          map_ := map_[..k] + map_[k + 1..];
          return;
        }
      }
      ent := None;
    }
  }

  // ---------- what always holds ----------

  /** Ids are handed out upwards and never again, at most `MAX` wait, in order, and every dropped id is below
      every waiting one. */
  ghost predicate Ordered(s: Ids) {
    && s.next >= 1 && |s.pending| <= MAX
    && (forall i :: 0 <= i < |s.pending| ==> 1 <= s.pending[i].uid < s.next)
    && (forall i, j :: 0 <= i < j < |s.pending| ==> s.pending[i].uid < s.pending[j].uid)
    && (forall u :: u in s.dropped ==> 1 <= u < s.next && forall i :: 0 <= i < |s.pending| ==> u < s.pending[i].uid)
    && (forall i, j :: 0 <= i < j < |s.dropped| ==> s.dropped[i] < s.dropped[j])
  }

  /** The entries after an issue: the old ones, less the oldest when 1024 wait, and the new one. */
  lemma {:induction false} IssuedAt(s: Ids, minerId: Id, diff: Option<nat>)
    ensures var t := Issued(s, minerId, diff);
      var cut := if |s.pending| >= 1024 then 1 else 0;
      && t.next == s.next + 1 && |t.pending| == |s.pending| + 1 - cut
      && (forall i :: 0 <= i < |t.pending| - 1 ==> t.pending[i] == s.pending[i + cut])
      && t.pending[|t.pending| - 1] == Entry(s.next, minerId, diff)
      && t.dropped == if cut == 0 then s.dropped else s.dropped + [if s.pending == [] then s.next else s.pending[0].uid]
  {
  }

  lemma {:induction false} IssueKeepsOrder(s: Ids, minerId: Id, diff: Option<nat>)
    requires Ordered(s)
    ensures Ordered(Issued(s, minerId, diff))
    ensures Issued(s, minerId, diff).pending != [] && Issued(s, minerId, diff).pending[|Issued(s, minerId, diff).pending| - 1] == Entry(s.next, minerId, diff)
  {
    hide Issued;
    IssuedAt(s, minerId, diff);
    var t := Issued(s, minerId, diff);
    forall u | u in t.dropped
      ensures 1 <= u < t.next && forall i :: 0 <= i < |t.pending| ==> u < t.pending[i].uid
    {
      if u !in s.dropped { assert u == s.pending[0].uid; }
    }
    forall i, j | 0 <= i < j < |t.dropped| ensures t.dropped[i] < t.dropped[j] {
      assert t.dropped[i] == s.dropped[i] && s.dropped[i] in s.dropped;
    }
  }

  lemma {:induction false} ResolveKeepsOrder(s: Ids, k: nat)
    requires Ordered(s) && k < |s.pending|
    ensures Ordered(Without(s, k))
    ensures forall i :: 0 <= i < |s.pending| - 1 ==> Without(s, k).pending[i].uid != s.pending[k].uid
  {
    var t := Without(s, k);
    assert forall i :: 0 <= i < |t.pending| ==> t.pending[i] == s.pending[if i < k then i else i + 1];
  }

  /** Whether an id is waiting. */
  predicate Waiting(s: Ids, uid: int) { exists i :: 0 <= i < |s.pending| && s.pending[i].uid == uid }
}
