// Global accumulators of an assembly: a sparse matrix and a sparse vector whose
// only operation used here is `add(index, value)`, plus the "add log" view
// that specifies a sequence of such calls. An absent entry reads as 0.0.

module Accumulate {

  /** One call `stiff.add(row, col, val)`. */
  datatype MatAdd = MatAdd(row: int, col: int, val: real)

  /** One call `load.add(index, val)`. */
  datatype VecAdd = VecAdd(index: int, val: real)

  /** The entry of a sparse matrix; entries never written are 0.0. */
  function Entry(m: map<(int, int), real>, k: (int, int)): real
  {
    if k in m then m[k] else 0.0
  }

  function VecEntry(v: map<int, real>, k: int): real
  {
    if k in v then v[k] else 0.0
  }

  /** The matrix after the calls of `log`, in order. */
  function ApplyMat(m: map<(int, int), real>, log: seq<MatAdd>): map<(int, int), real>
    decreases |log|
  {
    if log == [] then m
    else
      var prev := ApplyMat(m, log[..|log| - 1]);
      var a := log[|log| - 1];
      prev[(a.row, a.col) := Entry(prev, (a.row, a.col)) + a.val]
  }

  /** The vector after the calls of `log`, in order. */
  function ApplyVec(v: map<int, real>, log: seq<VecAdd>): map<int, real>
    decreases |log|
  {
    if log == [] then v
    else
      var prev := ApplyVec(v, log[..|log| - 1]);
      var a := log[|log| - 1];
      prev[a.index := VecEntry(prev, a.index) + a.val]
  }

  /** Sum of the values `log` adds at position k. */
  function SumAt(log: seq<MatAdd>, k: (int, int)): real
    decreases |log|
  {
    if log == [] then 0.0
    else
      var a := log[|log| - 1];
      SumAt(log[..|log| - 1], k) + (if (a.row, a.col) == k then a.val else 0.0)
  }

  function VecSumAt(log: seq<VecAdd>, k: int): real
    decreases |log|
  {
    if log == [] then 0.0
    else
      var a := log[|log| - 1];
      VecSumAt(log[..|log| - 1], k) + (if a.index == k then a.val else 0.0)
  }

  /** The logs of `logs`, one after the other. */
  function ConcatMat(logs: seq<seq<MatAdd>>): seq<MatAdd>
    decreases |logs|
  {
    if logs == [] then [] else ConcatMat(logs[..|logs| - 1]) + logs[|logs| - 1]
  }

  function ConcatVec(logs: seq<seq<VecAdd>>): seq<VecAdd>
    decreases |logs|
  {
    if logs == [] then [] else ConcatVec(logs[..|logs| - 1]) + logs[|logs| - 1]
  }

  /** A sparse matrix of the given shape (`SparseMatrixRowMajor`). */
  class SparseMatrix {
    const rowDim: int
    const colDim: int
    var entries: map<(int, int), real>

    constructor (rowDim: int, colDim: int)
      ensures this.rowDim == rowDim && this.colDim == colDim && entries == map[]
    {
      this.rowDim := rowDim;
      this.colDim := colDim;
      entries := map[];
    }

    /** `add(row, col, val)`: entry (row, col) grows by val. */
    method Add(row: int, col: int, val: real)
      modifies this
      ensures entries == ApplyMat(old(entries), [MatAdd(row, col, val)])
    {
      assert [MatAdd(row, col, val)][..0] == [];
      entries := entries[(row, col) := Entry(entries, (row, col)) + val];
    }
  }

  /** A sparse vector of the given length (`SparseVectorHashMap`). */
  class SparseVector {
    const dim: int
    var entries: map<int, real>

    constructor (dim: int)
      ensures this.dim == dim && entries == map[]
    {
      this.dim := dim;
      entries := map[];
    }

    /** `add(index, val)`: entry index grows by val. */
    method Add(index: int, val: real)
      modifies this
      ensures entries == ApplyVec(old(entries), [VecAdd(index, val)])
    {
      assert [VecAdd(index, val)][..0] == [];
      entries := entries[index := VecEntry(entries, index) + val];
    }
  }

  // ---------------------------------------------------------------------
  // Properties of add logs

  /** Running two logs one after the other is running their concatenation. */
  lemma {:induction false} ApplyMatAppend(m: map<(int, int), real>, l1: seq<MatAdd>, l2: seq<MatAdd>)
    ensures ApplyMat(ApplyMat(m, l1), l2) == ApplyMat(m, l1 + l2)
    decreases |l2|
  {
    if l2 != [] {
      ApplyMatAppend(m, l1, l2[..|l2| - 1]);
      assert (l1 + l2)[..|l1 + l2| - 1] == l1 + l2[..|l2| - 1];
    } else {
      assert l1 + l2 == l1;
    }
  }

  lemma {:induction false} ApplyVecAppend(v: map<int, real>, l1: seq<VecAdd>, l2: seq<VecAdd>)
    ensures ApplyVec(ApplyVec(v, l1), l2) == ApplyVec(v, l1 + l2)
    decreases |l2|
  {
    if l2 != [] {
      ApplyVecAppend(v, l1, l2[..|l2| - 1]);
      assert (l1 + l2)[..|l1 + l2| - 1] == l1 + l2[..|l2| - 1];
    } else {
      assert l1 + l2 == l1;
    }
  }

  /** Adding only accumulates: each entry is its initial value plus everything added there. */
  lemma {:induction false} ApplyMatEntry(m: map<(int, int), real>, log: seq<MatAdd>, k: (int, int))
    ensures Entry(ApplyMat(m, log), k) == Entry(m, k) + SumAt(log, k)
    decreases |log|
  {
    if log != [] {
      ApplyMatEntry(m, log[..|log| - 1], k);
    }
  }

  lemma {:induction false} ApplyVecEntry(v: map<int, real>, log: seq<VecAdd>, k: int)
    ensures VecEntry(ApplyVec(v, log), k) == VecEntry(v, k) + VecSumAt(log, k)
    decreases |log|
  {
    if log != [] {
      ApplyVecEntry(v, log[..|log| - 1], k);
    }
  }

  /** The sum at k over a concatenation is the sum of the two sums. */
  lemma {:induction false} SumAtAppend(l1: seq<MatAdd>, l2: seq<MatAdd>, k: (int, int))
    ensures SumAt(l1 + l2, k) == SumAt(l1, k) + SumAt(l2, k)
    decreases |l2|
  {
    if l2 != [] {
      SumAtAppend(l1, l2[..|l2| - 1], k);
      assert (l1 + l2)[..|l1 + l2| - 1] == l1 + l2[..|l2| - 1];
    } else {
      assert l1 + l2 == l1;
    }
  }

  lemma {:induction false} VecSumAtAppend(l1: seq<VecAdd>, l2: seq<VecAdd>, k: int)
    ensures VecSumAt(l1 + l2, k) == VecSumAt(l1, k) + VecSumAt(l2, k)
    decreases |l2|
  {
    if l2 != [] {
      VecSumAtAppend(l1, l2[..|l2| - 1], k);
      assert (l1 + l2)[..|l1 + l2| - 1] == l1 + l2[..|l2| - 1];
    } else {
      assert l1 + l2 == l1;
    }
  }

  /** A log that never adds at k adds nothing there. */
  lemma {:induction false} SumAtUntouched(log: seq<MatAdd>, k: (int, int))
    requires forall n :: 0 <= n < |log| ==> (log[n].row, log[n].col) != k
    ensures SumAt(log, k) == 0.0
    decreases |log|
  {
    if log != [] {
      SumAtUntouched(log[..|log| - 1], k);
    }
  }

  lemma {:induction false} VecSumAtUntouched(log: seq<VecAdd>, k: int)
    requires forall n :: 0 <= n < |log| ==> log[n].index != k
    ensures VecSumAt(log, k) == 0.0
    decreases |log|
  {
    if log != [] {
      VecSumAtUntouched(log[..|log| - 1], k);
    }
  }

  /** Concatenating two runs of logs is concatenating their flattenings. */
  lemma {:induction false} ConcatMatAppend(l1: seq<seq<MatAdd>>, l2: seq<seq<MatAdd>>)
    ensures ConcatMat(l1 + l2) == ConcatMat(l1) + ConcatMat(l2)
    decreases |l2|
  {
    if l2 == [] {
      assert l1 + l2 == l1;
    } else {
      var init := l2[..|l2| - 1];
      ConcatMatAppend(l1, init);
      assert (l1 + l2)[..|l1 + l2| - 1] == l1 + init;
      assert ConcatMat(l1 + l2) == ConcatMat(l1) + ConcatMat(init) + l2[|l2| - 1];
    }
  }

  lemma {:induction false} ConcatVecAppend(l1: seq<seq<VecAdd>>, l2: seq<seq<VecAdd>>)
    ensures ConcatVec(l1 + l2) == ConcatVec(l1) + ConcatVec(l2)
    decreases |l2|
  {
    if l2 == [] {
      assert l1 + l2 == l1;
    } else {
      var init := l2[..|l2| - 1];
      ConcatVecAppend(l1, init);
      assert (l1 + l2)[..|l1 + l2| - 1] == l1 + init;
      assert ConcatVec(l1 + l2) == ConcatVec(l1) + ConcatVec(init) + l2[|l2| - 1];
    }
  }

  /** Every add of a flattened log comes from one of its logs: a set holding all their indices holds the flattening's. */
  lemma {:induction false} ConcatMatIndices(logs: seq<seq<MatAdd>>, s: set<int>)
    requires forall i, t :: 0 <= i < |logs| && 0 <= t < |logs[i]| ==> logs[i][t].row in s && logs[i][t].col in s
    ensures forall t :: 0 <= t < |ConcatMat(logs)| ==> ConcatMat(logs)[t].row in s && ConcatMat(logs)[t].col in s
    decreases |logs|
  {
    if logs != [] {
      var init := logs[..|logs| - 1];
      var last := logs[|logs| - 1];
      assert forall i :: 0 <= i < |init| ==> init[i] == logs[i];
      ConcatMatIndices(init, s);
      var left := ConcatMat(init);
      forall t | 0 <= t < |ConcatMat(logs)|
        ensures ConcatMat(logs)[t].row in s && ConcatMat(logs)[t].col in s
      {
        if t < |left| {
          assert ConcatMat(logs)[t] == left[t];
        } else {
          assert ConcatMat(logs)[t] == logs[|logs| - 1][t - |left|];
        }
      }
    }
  }

  /** The load counterpart of `ConcatMatIndices`. */
  lemma {:induction false} ConcatVecIndices(logs: seq<seq<VecAdd>>, s: set<int>)
    requires forall i, t :: 0 <= i < |logs| && 0 <= t < |logs[i]| ==> logs[i][t].index in s
    ensures forall t :: 0 <= t < |ConcatVec(logs)| ==> ConcatVec(logs)[t].index in s
    decreases |logs|
  {
    if logs != [] {
      var init := logs[..|logs| - 1];
      assert forall i :: 0 <= i < |init| ==> init[i] == logs[i];
      ConcatVecIndices(init, s);
      var left := ConcatVec(init);
      forall t | 0 <= t < |ConcatVec(logs)|
        ensures ConcatVec(logs)[t].index in s
      {
        if t < |left| {
          assert ConcatVec(logs)[t] == left[t];
        } else {
          assert ConcatVec(logs)[t] == logs[|logs| - 1][t - |left|];
        }
      }
    }
  }
}
