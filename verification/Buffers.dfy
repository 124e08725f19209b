/**
  SBuffer: a node that describes a piece of memory and links to the next one. A chain is the
  sequence of nodes reached over `next`, which must end.
 */
module Buffers {
  import opened Words
  import opened Streams

  datatype CopyResult = Copied(count: nat) | BadValue

  /** `nodes` are distinct nodes linked in this order from `head` on, and the last link points to `tail`. */
  ghost predicate Linked(head: Buffer?, nodes: seq<Buffer>, tail: Buffer?)
    reads nodes
  {
    && (if |nodes| == 0 then head == null else head == nodes[0] && nodes[|nodes| - 1].next == tail)
    && (forall i, j | 0 <= i < j < |nodes| && j == i + 1 :: nodes[i].next == nodes[j])
    && (forall i, j | 0 <= i < j < |nodes| :: nodes[i] != nodes[j])
  }

  /** They are the whole chain. */
  ghost predicate Chain(head: Buffer?, nodes: seq<Buffer>)
    reads nodes
  {
    Linked(head, nodes, null)
  }

  lemma NextInChain(head: Buffer?, nodes: seq<Buffer>, k: nat)
    requires Chain(head, nodes) && k < |nodes|
    ensures nodes[k].next == if k + 1 < |nodes| then nodes[k + 1] else null
  {
  }

  lemma HeadOfChain(head: Buffer?, nodes: seq<Buffer>)
    requires Chain(head, nodes)
    ensures head == if |nodes| > 0 then nodes[0] else null
  {
  }

  /** The memory that a chain of nodes describes. */
  ghost function Blocks(nodes: seq<Buffer>): (blocks: seq<Block>)
    reads nodes
    ensures |blocks| == |nodes| && forall i | 0 <= i < |nodes| :: blocks[i] == nodes[i].block
  {
    seq(|nodes|, i requires 0 <= i < |nodes| reads nodes => nodes[i].block)
  }

  /** `count` bytes from `from` are there and are no more than `size`; more are not wanted or not there. */
  predicate AllThereAre(count: nat, from: nat, size: nat, length: nat) {
    && count <= size && (count > 0 ==> from + count <= length)
    && (count == size || from + count >= length)
  }

  class Buffer {
    var next: Buffer?
    var block: Block

    constructor (block: Block)
      ensures this.block == block && next == null
    {
      this.block, this.next := block, null;
    }

    /** operator=: copies the link as well. */
    method Assign(clone: Buffer)
      modifies this
      ensures next == old(clone.next) && block == old(clone.block)
    {
      next := clone.next;
      block := clone.block;
    }

    method ChainSize(ghost nodes: seq<Buffer>) returns (s: nat)
      requires Chain(this, nodes)
      ensures s == |Flatten(Blocks(nodes))|
    {
      s := 0;
      var i: Buffer? := this;
      ghost var k := 0;
      while i != null
        invariant k <= |nodes| && i == (if k < |nodes| then nodes[k] else null)
        invariant s == |Flatten(Blocks(nodes)[..k])|
        decreases |nodes| - k
      {
        FlattenTake(Blocks(nodes), k);
        s := s + |i.block.bytes|;
        i := i.next;
        k := k + 1;
      }
      assert Blocks(nodes)[..k] == Blocks(nodes);
    }

    /** Copies the slice [fromOffset, fromOffset + size) of the chain, clipped to its length. */
    method CopyTo(dest: array?<Byte>, size: nat, fromOffset: nat, ghost nodes: seq<Buffer>)
      returns (result: CopyResult)
      requires Chain(this, nodes)
      requires dest != null ==> size <= dest.Length
      modifies dest
      ensures dest == null <==> result == BadValue
      ensures dest != null ==>
                && result.Copied? && result.count <= size
                && (result.count > 0 ==> fromOffset + result.count <= |Flatten(Blocks(nodes))|)
                && (result.count == size || fromOffset + result.count >= |Flatten(Blocks(nodes))|)
                && HoldsSlice(dest[..], old(dest[..]), Flatten(Blocks(nodes)), fromOffset, result.count)
    {
      if dest == null {
        return BadValue;
      }
      NothingHeld(dest[..], Flatten(Blocks(nodes)), fromOffset);
      var total := CopyLoop(dest, size, fromOffset, nodes, Blocks(nodes));
      return Copied(total);
    }

    method CopyLoop(dest: array<Byte>, size: nat, fromOffset: nat, ghost nodes: seq<Buffer>, ghost blocks: seq<Block>)
      returns (total: nat)
      requires Chain(this, nodes) && blocks == Blocks(nodes) && size <= dest.Length
      modifies dest
      ensures AllThereAre(total, fromOffset, size, |Flatten(blocks)|)
      ensures HoldsSlice(dest[..], old(dest[..]), Flatten(blocks), fromOffset, total)
    {
      hide HoldsSlice, Flatten, Chain, OffsetOf, Placed;
      HeadOfChain(this, nodes);
      OffsetsOfEnds(blocks);
      NothingHeld(dest[..], Flatten(blocks), fromOffset);
      var left: nat, from: nat := size, fromOffset;
      total := 0;
      var i: Buffer? := this;
      ghost var k: nat := 0;
      while left > 0 && i != null
        invariant k <= |nodes| && i == (if k < |nodes| then nodes[k] else null)
        invariant left + total == size && (total > 0 && left > 0 ==> from == 0)
        invariant left > 0 ==> OffsetOf(blocks, k) + from == fromOffset + total
        invariant total > 0 ==> fromOffset + total <= |Flatten(blocks)|
        invariant HoldsSlice(dest[..], old(dest[..]), Flatten(blocks), fromOffset, total)
        decreases left, |nodes| - k
      {
        BlockPlaced(blocks, k);
        NextInChain(this, nodes, k);
        var bytes := i.block.bytes;
        if from >= |bytes| {
          from := from - |bytes|;
          i := i.next;
          k := k + 1;
          continue;
        }
        var toCopy := CopyBytes(dest, total, bytes, from, left, old(dest[..]), Flatten(blocks), fromOffset, OffsetOf(blocks, k));
        left := left - toCopy;
        total := total + toCopy;
        if left > 0 {
          from := 0;
          i := i.next;
          k := k + 1;
        }
      }
    }
  }

  /** The stream offset of block k. */
  ghost function OffsetOf(blocks: seq<Block>, k: nat): nat
    requires k <= |blocks|
  {
    |Flatten(blocks[..k])|
  }

  ghost predicate Placed(flat: seq<Byte>, at: nat, bytes: seq<Byte>) {
    at + |bytes| <= |flat| && flat[at..at + |bytes|] == bytes
  }

  lemma OffsetsOfEnds(blocks: seq<Block>)
    ensures OffsetOf(blocks, 0) == 0 && OffsetOf(blocks, |blocks|) == |Flatten(blocks)|
  {
    assert blocks[..|blocks|] == blocks;
  }

  lemma BlockPlaced(blocks: seq<Block>, k: nat)
    requires k < |blocks|
    ensures Placed(Flatten(blocks), OffsetOf(blocks, k), blocks[k].bytes)
    ensures OffsetOf(blocks, k + 1) == OffsetOf(blocks, k) + |blocks[k].bytes| <= |Flatten(blocks)|
  {
    BlockInPlace(blocks, k);
  }

  /** A buffer that now starts with `total` bytes of `flat` from `start` and is otherwise as it was. */
  ghost predicate HoldsSlice(now: seq<Byte>, was: seq<Byte>, flat: seq<Byte>, start: nat, total: nat) {
    && |now| == |was| && total <= |now| && now[total..] == was[total..]
    && (total > 0 ==> start + total <= |flat| && now[..total] == flat[start..start + total])
  }

  lemma NothingHeld(was: seq<Byte>, flat: seq<Byte>, start: nat)
    ensures HoldsSlice(was, was, flat, start, 0)
  {
  }

  lemma SubSlice<T>(s: seq<T>, at: nat, t: seq<T>, from: nat, n: nat)
    requires at + |t| <= |s| && s[at..at + |t|] == t && from + n <= |t|
    ensures s[at + from..at + from + n] == t[from..from + n]
  {
    var a, b := s[at + from..at + from + n], t[from..from + n];
    forall i | 0 <= i < n
      ensures a[i] == b[i]
    {
      assert s[at..at + |t|][from + i] == s[at + from + i];
    }
  }

  /** Copies what the node still has, but at most `left` bytes, to dest at `total`. */
  method CopyBytes(dest: array<Byte>, total: nat, bytes: seq<Byte>, from: nat, left: nat,
                   ghost was: seq<Byte>, ghost flat: seq<Byte>, ghost start: nat, ghost at: nat)
    returns (toCopy: nat)
    requires from < |bytes| && total + left <= dest.Length && left > 0
    requires HoldsSlice(dest[..], was, flat, start, total)
    requires Placed(flat, at, bytes) && at + from == start + total
    modifies dest
    ensures 0 < toCopy <= left && (toCopy < left ==> from + toCopy == |bytes|) && from + toCopy <= |bytes|
    ensures HoldsSlice(dest[..], was, flat, start, total + toCopy) && start + total + toCopy <= |flat|
  {
    toCopy := |bytes| - from;
    if toCopy > left {
      toCopy := left;
    }
    SubSlice(flat, at, bytes, from, toCopy);
    ghost var before := dest[..];
    forall k | 0 <= k < toCopy {
      dest[total + k] := bytes[from + k];
    }
    SliceGrows(dest[..], before, was, flat, start, total, bytes[from..from + toCopy]);
  }

  lemma SliceGrows(now: seq<Byte>, before: seq<Byte>, was: seq<Byte>, flat: seq<Byte>,
                   start: nat, total: nat, more: seq<Byte>)
    requires HoldsSlice(before, was, flat, start, total) && |now| == |before|
    requires total + |more| <= |now| && start + total + |more| <= |flat|
    requires flat[start + total..start + total + |more|] == more && |more| > 0
    requires forall i | 0 <= i < |now| ::
               now[i] == if total <= i < total + |more| then more[i - total] else before[i]
    ensures HoldsSlice(now, was, flat, start, total + |more|)
  {
    assert now[total + |more|..] == before[total..][|more|..];
    assert now[..total + |more|] == before[..total] + more;
    assert flat[start..start + total + |more|]
        == flat[start..start + total] + flat[start + total..start + total + |more|];
  }
}
