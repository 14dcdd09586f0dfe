/** The unbounded message queue, kept as a list of blocks of at most 512 elements. */
module BlockQueue {

  const INNER_CAP: nat := 512

  function Flatten<T>(blocks: seq<seq<T>>): (r: seq<T>) {
    if blocks == [] then [] else blocks[0] + Flatten(blocks[1..])
  }

  lemma {:induction false} FlattenSnoc<T>(blocks: seq<seq<T>>, b: seq<T>)
    ensures Flatten(blocks + [b]) == Flatten(blocks) + b
  {
    if blocks == [] {
      assert (blocks + [b])[1..] == [];
      assert b + [] == b;
    } else {
      assert (blocks + [b])[1..] == blocks[1..] + [b];
      FlattenSnoc(blocks[1..], b);
      assert blocks[0] + (Flatten(blocks[1..]) + b) == blocks[0] + Flatten(blocks[1..]) + b;
    }
  }

  /** Growing the last block grows the whole. */
  lemma {:induction false} FlattenGrown<T>(front: seq<seq<T>>, last: seq<T>, val: T)
    ensures Flatten(front + [last + [val]]) == Flatten(front + [last]) + [val]
  {
    FlattenSnoc(front, last);
    FlattenSnoc(front, last + [val]);
    assert Flatten(front) + (last + [val]) == Flatten(front) + last + [val];
  }

  /** A new block, or the last one grown: either way one more element at the end. */
  lemma {:induction false} PushedContents<T>(rep: seq<seq<T>>, val: T)
    ensures Flatten(rep + [[val]]) == Flatten(rep) + [val]
    ensures rep != [] ==>
      var last := |rep| - 1;
      Flatten(rep[..last] + [rep[last] + [val]]) == Flatten(rep) + [val]
  {
    FlattenSnoc(rep, [val]);
    if rep != [] {
      var last := |rep| - 1;
      assert rep == rep[..last] + [rep[last]];
      FlattenGrown(rep[..last], rep[last], val);
    }
  }

  class Queue<T> {
    var rep: seq<seq<T>>
    var len: int

    /** The queue's elements, the oldest first. */
    ghost function Contents(): (s: seq<T>)
      reads this
    {
      Flatten(rep)
    }

    /** No block is empty or over-full, and `len` counts all elements. */
    ghost predicate Valid()
      reads this
    {
      && (forall k :: 0 <= k < |rep| ==> 0 < |rep[k]| <= INNER_CAP)
      && len == |Contents()|
    }

    constructor ()
      ensures Valid() && Contents() == []
    {
      rep, len := [], 0;
    }

    method Init()
      modifies this
      ensures Valid() && Contents() == []
    {
      rep, len := [], 0;
    }

    method Len() returns (n: int)
      requires Valid()
      ensures n == |Contents()|
    {
      n := len;
    }

    method Push(val: T)
      requires Valid()
      modifies this
      ensures Valid() && Contents() == old(Contents()) + [val]
    {
      len := len + 1;
      PushedContents(rep, val);
      if rep == [] || |rep[|rep| - 1]| == INNER_CAP {
        rep := rep + [[val]];
      } else {
        var last := |rep| - 1;
        rep := rep[..last] + [rep[last] + [val]];
      }
    }

    /** The oldest element, or nothing when the queue is empty. */
    method Peek() returns (val: seq<T>, ok: bool)
      requires Valid()
      ensures ok <==> Contents() != []
      ensures val == if ok then [Contents()[0]] else []
    {
      if rep == [] { return [], false; }
      return [rep[0][0]], true;
    }

    /** Drops the oldest element; on an empty queue, where the original panics, `ok` is false. */
    method Pop() returns (ok: bool)
      requires Valid()
      modifies this
      ensures Valid() && (ok <==> old(Contents()) != [])
      ensures Contents() == if ok then old(Contents())[1..] else old(Contents())
    {
      if rep == [] { return false; }
      len := len - 1;
      var i := rep[0][1..];
      if |i| == 0 {
        rep := rep[1..];
        assert old(Contents())[1..] == Contents();
      } else {
        var rest := rep[1..];
        rep := [i] + rest;
        assert rep[1..] == rest;
        assert Contents() == i + Flatten(rest);
      }
      return true;
    }
  }
}
