/**
 * The receiver's chunk store and missing set. `fileChunks` in connection.js
 * is a JavaScript array written at arbitrary indices, so it is a sequence
 * with holes (None) that grows when an index past its end is written;
 * `missingChunks` is an array used only through its keys, so it is a set.
 */
module ChunkStore {
  import opened Wrappers
  import opened Messages

  type Store = seq<Option<Bytes>>

  /** `fileChunks[id]` is truthy: the chunk is present. */
  predicate Has(fc: Store, id: nat) {
    id < |fc| && fc[id].Some?
  }

  /** `fileChunks[id] = x`: the array grows with holes when id is past its end. */
  function Put(fc: Store, id: nat, x: Bytes): (r: Store)
    ensures |r| == if id < |fc| then |fc| else id + 1
    ensures r[id] == Some(x)
    ensures forall j :: 0 <= j < |r| && j != id ==> r[j] == if j < |fc| then fc[j] else None
  {
    if id < |fc| then fc[id := Some(x)] else fc + seq(id - |fc|, _ => None) + [Some(x)]
  }

  /** The indices whose chunk is present. */
  function Stored(fc: Store): set<nat> {
    set i: nat | i < |fc| && fc[i].Some?
  }

  /** The indices 0 .. n-1. */
  function Below(n: nat): (r: set<nat>)
    ensures forall x: nat :: x in r <==> x < n
    ensures |r| == n
  {
    if n == 0 then {} else
      var r := Below(n - 1);
      assert n - 1 !in r;
      r + {n - 1}
  }

  /** Storing a new index adds exactly that index to the stored set, and the count by one. */
  lemma PutNew(fc: Store, id: nat, x: Bytes)
    requires !Has(fc, id)
    ensures Stored(Put(fc, id, x)) == Stored(fc) + {id}
    ensures |Stored(Put(fc, id, x))| == |Stored(fc)| + 1
  {
    var r := Put(fc, id, x);
    forall i: nat ensures i in Stored(r) <==> i in Stored(fc) + {id} {
      if i != id && i < |r| {
        assert r[i] == if i < |fc| then fc[i] else None;
      }
    }
    assert Stored(r) == Stored(fc) + {id};
  }

  /** Storing never disturbs another index that is already present. */
  lemma PutKeepsOthers(fc: Store, id: nat, x: Bytes, j: nat)
    requires Has(fc, j) && j != id
    ensures Has(Put(fc, id, x), j) && Put(fc, id, x)[j] == fc[j]
  {
  }
}
