/** `GetBlockRetentionHeight`: the height below which CometBFT may prune blocks. */
module Retention {
  import opened Prelude

  /** The settings read at commit: the local minimum, the evidence age and the oldest snapshot's distance. */
  datatype Windows = Windows(minRetainBlocks: nat, evidenceAge: Option<int>, snapshots: Option<int>)

  /** The windows that are enabled, in blocks. */
  function Enabled(w: Windows): set<int> {
    (if w.minRetainBlocks > 0 then {w.minRetainBlocks} else {}) +
    (if w.evidenceAge.Some? && w.evidenceAge.value > 0 then {w.evidenceAge.value} else {}) +
    (if w.snapshots.Some? && w.snapshots.value > 0 then {w.snapshots.value} else {})
  }

  /** Pruning is possible at all: a local minimum is set and the chain is longer than it. */
  predicate MayPrune(w: Windows, commitHeight: int) {
    w.minRetainBlocks > 0 && commitHeight > w.minRetainBlocks
  }

  /** `h` is the least height the enabled windows leave, not counting a window as long as the chain. */
  predicate IsLeastNonZero(w: Windows, commitHeight: int, h: int) {
    && (exists x :: x in Enabled(w) && h == commitHeight - x)
    && h != 0
    && (forall x :: x in Enabled(w) && commitHeight != x ==> h <= commitHeight - x)
  }

  function MinNonZero(x: int, y: int): int {
    if x == 0 then y else if y == 0 then x else if x < y then x else y
  }

  /** Nothing is pruned unless every enabled window allows it, with one exception: a window of exactly
      `commitHeight` blocks leaves height 0, which the minimum takes for "not set". */
  method GetBlockRetentionHeight(w: Windows, commitHeight: int) returns (r: int)
    ensures r >= 0
    ensures r > 0 <==> MayPrune(w, commitHeight) && forall x :: x in Enabled(w) ==> x <= commitHeight
    ensures r > 0 ==> IsLeastNonZero(w, commitHeight, r)
    ensures r > 0 ==> forall x :: x in Enabled(w) ==> (r <= commitHeight - x <==> commitHeight != x)
    ensures r <= if commitHeight > w.minRetainBlocks then commitHeight - w.minRetainBlocks else 0
  {
    var retentionBlockWindow := commitHeight - w.minRetainBlocks;
    if w.minRetainBlocks == 0 || retentionBlockWindow <= 0 {
      return 0;
    }
    var retentionHeight := 0;
    if w.evidenceAge.Some? && w.evidenceAge.value > 0 {
      retentionHeight := commitHeight - w.evidenceAge.value;
    }
    if w.snapshots.Some? && w.snapshots.value > 0 {
      retentionHeight := MinNonZero(retentionHeight, commitHeight - w.snapshots.value);
    }
    retentionHeight := MinNonZero(retentionHeight, retentionBlockWindow);
    assert IsLeastNonZero(w, commitHeight, retentionHeight) by {
      assert w.minRetainBlocks in Enabled(w);
      assert exists x :: x in Enabled(w) && retentionHeight == commitHeight - x;
    }
    if retentionHeight <= 0 {
      return 0;
    }
    r := retentionHeight;
  }

  /** The boundary is reachable: at height 10 an evidence window of 10 blocks does not stop pruning. */
  method EvidenceBoundary() returns (r: int)
    ensures r == 9
  {
    r := GetBlockRetentionHeight(Windows(1, Some(10), None), 10);
    assert 1 in Enabled(Windows(1, Some(10), None));
    assert Enabled(Windows(1, Some(10), None)) == {1, 10};
  }
}
