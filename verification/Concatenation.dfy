/** Blocks one after the other: where the elements of each block are in the whole. */
module Concatenation {

  function Concat<T>(blocks: seq<seq<T>>): seq<T> {
    if blocks == [] then [] else Concat(blocks[..|blocks| - 1]) + blocks[|blocks| - 1]
  }

  /** Entries before block `i`. */
  function Before<T>(blocks: seq<seq<T>>, i: nat): nat
    requires i <= |blocks|
  {
    |Concat(blocks[..i])|
  }

  lemma BeforeNext<T>(blocks: seq<seq<T>>, i: nat)
    requires i < |blocks|
    ensures Before(blocks, i + 1) == Before(blocks, i) + |blocks[i]|
  {
    assert blocks[..i + 1][..i] == blocks[..i];
  }

  lemma {:induction false} ConcatAt<T>(blocks: seq<seq<T>>, n: nat, i: nat, k: nat)
    requires i < n <= |blocks| && k < |blocks[i]|
    ensures Before(blocks, i) + k < Before(blocks, n) && Concat(blocks[..n])[Before(blocks, i) + k] == blocks[i][k]
    decreases n
  {
    assert blocks[..n][..n - 1] == blocks[..n - 1];
    if i < n - 1 {
      ConcatAt(blocks, n - 1, i, k);
    }
  }

  lemma BeforeAll<T>(blocks: seq<seq<T>>)
    ensures Before(blocks, |blocks|) == |Concat(blocks)| && Before(blocks, 0) == 0
  {
    assert blocks[..|blocks|] == blocks && blocks[..0] == [];
  }

  lemma {:induction false} ConcatFrom<T>(blocks: seq<seq<T>>, n: nat, p: nat) returns (i: nat, k: nat)
    requires n <= |blocks| && p < Before(blocks, n)
    ensures i < n && k < |blocks[i]| && p == Before(blocks, i) + k
  {
    BeforeNext(blocks, n - 1);
    if p >= Before(blocks, n - 1) {
      i, k := n - 1, p - Before(blocks, n - 1);
    } else {
      i, k := ConcatFrom(blocks, n - 1, p);
    }
  }

  lemma {:induction false} BeforeGrows<T>(blocks: seq<seq<T>>, i: nat, n: nat)
    requires i <= n <= |blocks|
    ensures Before(blocks, i) <= Before(blocks, n)
    decreases n
  {
    if i < n {
      BeforeGrows(blocks, i, n - 1);
      BeforeNext(blocks, n - 1);
    }
  }
}
