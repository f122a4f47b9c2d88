/**
 Block-table rows: physical block ids, with the reserved id 0 in a slot whose
 block was evicted (vllm/kv_evict/selection.py, vllm/v1/core/block_pool.py).
 */
module BlockTable {

  const NULL_BLOCK := 0

  /** The row with the slots `js` repointed at the null block. */
  function NullOut(row: seq<int>, js: seq<nat>): (r: seq<int>)
    ensures |r| == |row|
    ensures forall p :: 0 <= p < |row| ==> r[p] == if p in js then NULL_BLOCK else row[p]
  {
    seq(|row|, p requires 0 <= p < |row| => if p in js then NULL_BLOCK else row[p])
  }

  lemma NullOutLast(row: seq<int>, js: seq<nat>)
    requires js != [] && js[|js| - 1] < |row|
    ensures NullOut(row, js) == NullOut(row, js[..|js| - 1])[js[|js| - 1] := NULL_BLOCK]
  {
    assert js == js[..|js| - 1] + [js[|js| - 1]];
  }
}
