/** The committed multistore as a map, and a cache branch as the dirty entries it holds
    over its parent. Reading a branch reads through; only `Write` moves entries up. */
module Store {
  type Key = string
  type Value = string
  type KV = map<Key, Value>

  datatype Edit = Put(value: Value) | Delete

  /** The dirty entries of one cache branch. */
  type Writes = map<Key, Edit>

  /** What a reader sees through a branch. */
  function View(parent: KV, w: Writes): KV {
    map k | k in parent.Keys + w.Keys && (k in w ==> w[k].Put?) ::
      if k in w then w[k].value else parent[k]
  }

  /** What a key reads as through a branch: the value put there, nothing where it was deleted, and otherwise what the
      parent holds. */
  lemma {:induction false} ReadThrough(parent: KV, w: Writes, k: Key)
    ensures k in w && w[k] == Delete ==> k !in View(parent, w)
    ensures k in w && w[k].Put? ==> k in View(parent, w) && View(parent, w)[k] == w[k].value
    ensures k !in w ==> (k in View(parent, w) <==> k in parent) && (k in parent ==> View(parent, w)[k] == parent[k])
  {
  }

  /** Writing a child branch into its parent branch, then reading the parent, is reading the child. */
  lemma {:induction false} ViewOfWrite(root: KV, parent: Writes, child: Writes)
    ensures View(root, parent + child) == View(View(root, parent), child)
  {
    var l, r := View(root, parent + child), View(View(root, parent), child);
    forall k ensures k in l <==> k in r
    {
      if k in child { assert (parent + child)[k] == child[k]; }
    }
  }

  lemma {:induction false} ViewOfNothing(root: KV)
    ensures View(root, map[]) == root
  {
  }
}
