/**
  SBufferChain: a chain of owned SBuffer nodes with a free list. Two lists share one pool of
  nodes; `used` and `pool` are the nodes of the two lists in link order.
 */
module BufferChains {
  import opened Streams
  import opened Buffers

  const ALLOC_SIZE: nat := 4

  datatype Status = Ok | NotAllowed

  ghost function Reversed<T>(s: seq<T>): seq<T> {
    if |s| == 0 then [] else Reversed(s[1..]) + [s[0]]
  }

  lemma ReversedTake<T>(s: seq<T>, k: nat)
    requires k < |s|
    ensures Reversed(s[..k + 1]) == [s[k]] + Reversed(s[..k])
  {
    if k > 0 {
      assert s[..k + 1][1..] == s[1..][..k] && s[..k][1..] == s[1..][..k - 1];
      ReversedTake(s[1..], k - 1);
    } else {
      assert s[..1][1..] == s[..0];
    }
  }

  /** `now` is `before` with the first k of `blocks` in front, in reverse. */
  ghost predicate Pushed(now: seq<Block>, before: seq<Block>, blocks: seq<Block>, k: nat) {
    k <= |blocks| && now == Reversed(blocks[..k]) + before
  }

  lemma PushedStep(now: seq<Block>, before: seq<Block>, blocks: seq<Block>, k: nat)
    requires Pushed(now, before, blocks, k) && k < |blocks|
    ensures Pushed([blocks[k]] + now, before, blocks, k + 1)
  {
    ReversedTake(blocks, k);
  }

  lemma PushedEnds(before: seq<Block>, blocks: seq<Block>)
    ensures Pushed(before, before, blocks, 0)
    ensures forall now | Pushed(now, before, blocks, |blocks|) :: now == Reversed(blocks) + before
  {
    assert blocks[..|blocks|] == blocks;
  }

  /** `now` is `before` with the first k of `blocks` behind it. */
  ghost predicate Extended(now: seq<Block>, before: seq<Block>, blocks: seq<Block>, k: nat) {
    k <= |blocks| && now == before + blocks[..k]
  }

  lemma ExtendedStep(now: seq<Block>, before: seq<Block>, blocks: seq<Block>, k: nat)
    requires Extended(now, before, blocks, k) && k < |blocks|
    ensures Extended(now + [blocks[k]], before, blocks, k + 1)
  {
  }

  lemma ExtendedEnds(before: seq<Block>, blocks: seq<Block>)
    ensures Extended(before, before, blocks, 0)
    ensures forall now | Extended(now, before, blocks, |blocks|) :: now == before + blocks
  {
  }

  class BufferChain {
    var root: Buffer?
    var last: Buffer?
    var free: Buffer?

    ghost var used: seq<Buffer>
    ghost var pool: seq<Buffer>
    ghost var allocs: nat
    ghost var owned: set<Buffer>    // the nodes of both lists
    ghost var spare: set<Buffer>    // the nodes of the free list

    /**
      Both lists are acyclic and disjoint, `last` ends the used one and points on to `tail`,
      and all nodes but `out` of them are in one of the lists.
     */
    ghost predicate Shape(tail: Buffer?, out: nat)
      reads this, used, pool
    {
      && Linked(root, used, tail) && Linked(free, pool, null)
      && last == (if |used| == 0 then null else used[|used| - 1])
      && (forall i | 0 <= i < |used| :: used[i] in owned && used[i] !in spare)
      && (forall i | 0 <= i < |pool| :: pool[i] in spare)
      && spare <= owned
      && |used| + |pool| + out == ALLOC_SIZE * allocs
    }

    ghost predicate Valid()
      reads this, used, pool
    {
      Shape(null, 0)
    }

    /** The chain as a sequence. */
    ghost function Contents(): seq<Block>
      reads this, used
    {
      Blocks(used)
    }

    constructor ()
      ensures Valid() && Contents() == [] && owned == {}
    {
      root, last, free := null, null, null;
      used, pool, allocs, owned, spare := [], [], 0, {}, {};
    }

    /** Refills the free list with nodes linked in allocation order; refuses while it is not empty. */
    method Alloc(ghost tail: Buffer?) returns (status: Status)
      requires Shape(tail, 0)
      modifies `free, `pool, `allocs, `owned, `spare
      ensures Shape(tail, 0)
      ensures status == NotAllowed <==> old(free) != null
      ensures status == NotAllowed ==> pool == old(pool) && allocs == old(allocs)
      ensures old(owned) <= owned && fresh(owned - old(owned)) && fresh(spare - old(spare))
      ensures status == Ok ==> |pool| == ALLOC_SIZE && fresh(pool) && allocs == old(allocs) + 1
    {
      if free != null {
        return NotAllowed;
      }
      var result: Buffer?, end: Buffer? := null, null;
      ghost var nodes: seq<Buffer> := [];
      for n := 0 to ALLOC_SIZE
        invariant |nodes| == n && Linked(result, nodes, null) && fresh(nodes)
        invariant end == (if n == 0 then null else nodes[n - 1])
        invariant unchanged(this)
      {
        var b := new Buffer(Block(0, []));
        if end == null {
          result := b;
        } else {
          end.next := b;
        }
        end := b;
        nodes := nodes + [b];
      }
      ghost var more := set n | n in nodes;
      free, pool, allocs, owned, spare := result, nodes, allocs + 1, owned + more, spare + more;
      return Ok;
    }

    /** Takes the first node off the free list. */
    method PopFree(ghost tail: Buffer?) returns (b: Buffer)
      requires Shape(tail, 0) && free != null
      modifies `free, `pool, `spare, free
      ensures Shape(tail, 1) && b == old(free) && b.next == null
      ensures b in old(spare) && spare == old(spare) - {b}
      ensures Blocks(used) == old(Blocks(used))
    {
      assert free == pool[0] && pool[0] in spare;
      ListsDisjoint(tail, 0);
      b := free;
      free := free.next;
      b.next := null;
      pool, spare := pool[1..], spare - {b};
    }

    /** Takes a node off the free list, which is refilled first if it is empty. */
    method Next(ghost tail: Buffer?) returns (b: Buffer)
      requires Shape(tail, 0)
      modifies this, spare
      ensures Shape(tail, 1) && b.next == null
      ensures b !in used && b !in spare && (b in old(spare) || fresh(b))
      ensures used == old(used) && root == old(root) && last == old(last)
      ensures Blocks(used) == old(Blocks(used))
      ensures b in owned && old(owned) <= owned && fresh(owned - old(owned)) && fresh(spare - old(spare))
    {
      hide Linked;
      if free == null {
        var _ := Alloc(tail);
      }
      HeadOfPool(tail);
      b := PopFree(tail);
    }

    lemma HeadOfPool(tail: Buffer?)
      requires Shape(tail, 0)
      ensures free == if |pool| == 0 then null else pool[0]
      ensures free != null ==> free in spare && free !in used
    {
    }

    lemma ListsDisjoint(tail: Buffer?, out: nat)
      requires Shape(tail, out)
      ensures forall i, j | 0 <= i < |used| && 0 <= j < |pool| :: used[i] != pool[j]
    {
    }

    /** Makes `b` the last node; what it points to is kept. */
    method LinkLast(b: Buffer, ghost tail: Buffer?)
      requires Shape(tail, 1) && b in owned && b !in used && b !in spare
      modifies `root, `last, `used, used
      ensures Shape(old(b.next), 0) && used == old(used) + [b]
      ensures Blocks(used) == old(Blocks(used)) + [old(b.block)]
    {
      ListsDisjoint(tail, 1);
      if last == null {
        root, last := b, b;
      } else {
        last.next := b;
        last := b;
      }
      used := used + [b];
    }

    /** One round of the append loop: the copy of `src` becomes the last node, link and all. */
    method AppendNode(src: Buffer, ghost tail: Buffer?)
      requires Shape(tail, 0) && src !in spare
      modifies this, owned
      ensures Shape(old(src.next), 0)
      ensures |used| == |old(used)| + 1 && used[..|old(used)|] == old(used)
      ensures Blocks(used) == old(Blocks(used)) + [old(src.block)]
      ensures old(owned) <= owned && fresh(owned - old(owned))
    {
      hide Linked;
      var b := Next(tail);
      b.Assign(src);
      LinkLast(b, tail);
    }

    // ---- appending -----------------------------------------------------------------

    /** Keeps the chain well formed if and only if the buffer is not itself linked to another one. */
    method AppendBuffer(buffer: Buffer)
      requires Valid() && buffer !in spare
      modifies this, owned
      ensures Valid() <==> old(buffer.next) == null
      ensures Contents() == old(Contents()) + [old(buffer.block)]
      ensures old(owned) <= owned && fresh(owned - old(owned))
    {
      AppendNode(buffer, null);
    }

    /** One round of AppendChain. A source inside the chain itself always leads to another round. */
    method AppendRound(src: Buffer, ghost tail: Buffer?) returns (next: Buffer?)
      requires Shape(tail, 0) && src !in spare
      modifies this, owned
      ensures Shape(old(src.next), 0) && next == src.next
      ensures |used| == |old(used)| + 1 && used[..|old(used)|] == old(used)
      ensures Blocks(used) == old(Blocks(used)) + [old(src.block)]
      ensures old(owned) <= owned && fresh(owned - old(owned))
      ensures src in old(used) ==> next != null && next in used
    {
      hide Linked;
      AppendNode(src, tail);
      next := src.next;
      if src in old(used) {
        ghost var i :| 0 <= i < |old(used)| && old(used)[i] == src;
        assert used[..|old(used)|][i] == used[i];
        SuccessorInChain(i, old(src.next));
      }
    }

    /** However many rounds it has made, AppendChain on the chain itself is not done. */
    method AppendItself(rounds: nat) returns (src: Buffer)
      requires Valid() && used != []
      modifies this, owned
      ensures src in used && |used| == |old(used)| + rounds && used[..|old(used)|] == old(used)
      ensures old(owned) <= owned && fresh(owned - old(owned))
    {
      hide Linked;
      RootOfUsed();
      src := root;
      ghost var tail: Buffer? := null;
      for k := 0 to rounds
        invariant Shape(tail, 0) && src in used
        invariant |used| == |old(used)| + k && used[..|old(used)|] == old(used)
        invariant old(owned) <= owned && fresh(owned - old(owned))
      {
        ghost var link := src.next;
        var next := AppendRound(src, tail);
        src, tail := next, link;
      }
    }

    lemma SuccessorInChain(i: nat, tail: Buffer?)
      requires Shape(tail, 0) && i + 1 < |used|
      ensures used[i].next == used[i + 1]
    {
    }

    lemma SpareIsOwned(tail: Buffer?)
      requires Shape(tail, 0)
      ensures spare <= owned
    {
    }

    /** Appends copies of a chain that has no node in common with this one. */
    method AppendChain(buffer: Buffer, ghost nodes: seq<Buffer>)
      requires Valid() && Chain(buffer, nodes)
      requires forall n | n in nodes :: n !in owned
      modifies this, owned
      ensures Valid() && Contents() == old(Contents()) + old(Blocks(nodes))
      ensures forall n | n in nodes :: n !in owned
      ensures old(owned) <= owned && fresh(owned - old(owned))
    {
      hide Shape, Chain, Extended;
      var src: Buffer? := buffer;
      ghost var k, blocks := 0, Blocks(nodes);
      HeadOfChain(buffer, nodes);
      ExtendedEnds(Blocks(used), blocks);
      while src != null
        invariant k <= |nodes| && src == (if k < |nodes| then nodes[k] else null)
        invariant Shape(if k == 0 then null else src, 0)
        invariant Extended(Blocks(used), old(Contents()), blocks, k)
        invariant Chain(buffer, nodes) && Blocks(nodes) == blocks
        invariant forall n | n in nodes :: n !in owned
        invariant old(owned) <= owned && fresh(owned - old(owned))
        decreases |nodes| - k
      {
        NextInChain(buffer, nodes, k);
        SpareIsOwned(if k == 0 then null else src);
        ExtendedStep(Blocks(used), old(Contents()), blocks, k);
        src := AppendRound(src, if k == 0 then null else src);
        k := k + 1;
      }
    }

    // ---- prepending ----------------------------------------------------------------

    /** Puts a copy of `src` in front; its own link is overwritten, so any source will do. */
    method PrependBuffer(src: Buffer)
      requires Valid() && src !in spare
      modifies this, spare
      ensures Valid() && Contents() == [old(src.block)] + old(Contents())
      ensures fresh(spare - old(spare))
      ensures old(owned) <= owned && fresh(owned - old(owned))
    {
      hide Linked;
      var b := Next(null);
      b.Assign(src);
      PushFront(b);
    }

    method PushFront(b: Buffer)
      requires Shape(null, 1) && b in owned && b !in used && b !in spare
      modifies `root, `last, `used, b`next
      ensures Valid() && used == [b] + old(used)
      ensures Blocks(used) == [old(b.block)] + old(Blocks(used))
    {
      if root == null {
        root, last := b, b;
        b.next := null;
      } else {
        b.next := root;
        root := b;
      }
      used := [b] + used;
    }

    /** Puts copies of a chain in front, the first one innermost; the source may be this chain itself. */
    method PrependChain(buffer: Buffer, ghost nodes: seq<Buffer>)
      requires Valid() && Chain(buffer, nodes)
      requires forall n | n in nodes :: n !in spare
      modifies this, spare
      ensures Valid() && Contents() == Reversed(old(Blocks(nodes))) + old(Contents())
      ensures old(owned) <= owned && fresh(owned - old(owned))
    {
      hide Valid, Shape, Chain, Pushed;
      var src: Buffer? := buffer;
      ghost var k, blocks := 0, Blocks(nodes);
      HeadOfChain(buffer, nodes);
      PushedEnds(Blocks(used), blocks);
      while src != null
        invariant k <= |nodes| && src == (if k < |nodes| then nodes[k] else null)
        invariant Valid() && Pushed(Contents(), old(Contents()), blocks, k)
        invariant Chain(buffer, nodes) && Blocks(nodes) == blocks
        invariant forall n | n in nodes :: n !in spare
        invariant fresh(spare - old(spare))
        invariant old(owned) <= owned && fresh(owned - old(owned))
        decreases |nodes| - k
      {
        NextInChain(buffer, nodes, k);
        PushedStep(Contents(), old(Contents()), blocks, k);
        PrependBuffer(src);
        src := src.next;
        k := k + 1;
      }
    }

    // ---- removing ------------------------------------------------------------------

    method RemoveFirst() returns (status: Status)
      requires Valid()
      modifies this, owned
      ensures Valid() && owned == old(owned) && allocs == old(allocs)
      ensures status == NotAllowed <==> old(Contents()) == []
      ensures Contents() == if status == Ok then old(Contents())[1..] else []
    {
      if root == null {
        return NotAllowed;
      }
      MoveFirst();
      return Ok;
    }

    /** The first node goes to the front of the free list. */
    method MoveFirst()
      requires Valid() && root != null
      modifies `root, `last, `free, `used, `pool, `spare, root`next
      ensures Valid() && Contents() == old(Contents())[1..]
    {
      ListsDisjoint(null, 0);
      var newRoot := root.next;
      root.next := free;
      free := root;
      if last == root {
        last := null;
      }
      root := newRoot;
      used, pool, spare := used[1..], [used[0]] + pool, spare + {used[0]};
    }

    /** Moves every node to the free list. */
    method MakeEmpty()
      requires Valid()
      modifies this, owned
      ensures Valid() && Contents() == [] && used == [] && owned == old(owned) && allocs == old(allocs)
      ensures pool == old(used) + old(pool)
    {
      ListsDisjoint(null, 0);
      if last != null {
        last.next := free;
        free, root, last, used, pool, spare := root, null, null, [], used + pool, owned;
      }
    }

    // ---- whole chains --------------------------------------------------------------

    lemma UsedIsChain()
      requires Valid()
      ensures Chain(root, used) && Chain(free, pool)
      ensures forall n | n in used :: n in owned && n !in spare
      ensures forall n | n in pool :: n in owned
    {
    }

    /** Appending a chain to itself would never end, so it must be another one or an empty one. */
    method AppendChainOf(chain: BufferChain)
      requires Valid() && chain.Valid()
      requires if chain == this then chain.used == [] else chain.owned !! owned
      modifies this, owned
      ensures Valid() && Contents() == old(Contents()) + old(chain.Contents())
      ensures old(owned) <= owned && fresh(owned - old(owned))
      ensures chain != this ==> chain.Valid() && chain.Contents() == old(chain.Contents())
    {
      hide Shape, Chain, Linked;
      chain.UsedIsChain();
      chain.RootOfUsed();
      if chain.root != null {
        AppendChain(chain.root, chain.used);
      }
    }

    method PrependChainOf(chain: BufferChain)
      requires Valid() && chain.Valid() && (chain == this || chain.owned !! owned)
      modifies this, spare
      ensures Valid() && Contents() == Reversed(old(chain.Contents())) + old(Contents())
      ensures old(owned) <= owned && fresh(owned - old(owned))
      ensures chain != this ==> chain.Valid() && chain.Contents() == old(chain.Contents())
    {
      hide Shape, Chain, Linked;
      chain.UsedIsChain();
      chain.RootOfUsed();
      SpareIsOwned(null);
      if chain.root != null {
        PrependChain(chain.root, chain.used);
      }
    }

    lemma RootOfUsed()
      requires Valid()
      ensures root == if |used| == 0 then null else used[0]
    {
    }

    /** operator=: a copy of the other chain; assigned to itself, a chain loses its contents. */
    method AssignChain(chain: BufferChain)
      requires Valid() && chain.Valid() && (chain == this || chain.owned !! owned)
      modifies this, owned
      ensures Valid() && Contents() == if chain == this then [] else old(chain.Contents())
      ensures old(owned) <= owned && fresh(owned - old(owned))
      ensures chain != this ==> chain.Valid() && chain.Contents() == old(chain.Contents())
    {
      hide Linked, Chain;
      MakeEmpty();
      AppendChainOf(chain);
    }

    /** Bytes in the chain. */
    method Size() returns (size: nat)
      requires Valid()
      ensures size == |Flatten(Contents())|
    {
      UsedIsChain();
      if root != null {
        size := root.ChainSize(used);
      } else {
        size := 0;
      }
    }

    // ---- destruction ---------------------------------------------------------------

    /** Deletes the nodes of a list, reading each link before its node goes. */
    method FreeChain(head: Buffer?, ghost nodes: seq<Buffer>) returns (ghost freed: seq<Buffer>)
      requires Chain(head, nodes)
      ensures freed == nodes
    {
      var i := head;
      freed := [];
      while i != null
        invariant |freed| <= |nodes| && freed == nodes[..|freed|]
        invariant i == if |freed| < |nodes| then nodes[|freed|] else null
        decreases |nodes| - |freed|
      {
        assert i !in freed;
        var next := i.next;
        freed := freed + [i];
        i := next;
      }
    }

    /** Every node that was ever allocated is deleted, and none of them twice. */
    method Destroy() returns (ghost freed: seq<Buffer>)
      requires Valid()
      ensures |freed| == ALLOC_SIZE * allocs && freed == used + pool
      ensures forall i, j | 0 <= i < j < |freed| :: freed[i] != freed[j]
    {
      UsedIsChain();
      ListsDisjoint(null, 0);
      ghost var first := FreeChain(root, used);
      ghost var second := FreeChain(free, pool);
      freed := first + second;
    }
  }

  // ---- runs ------------------------------------------------------------------------

  datatype Op =
    | Append(block: Block) | Prepend(block: Block)
    | AppendAll(blocks: seq<Block>) | PrependAll(blocks: seq<Block>) | PrependItself
    | RemoveFirst | MakeEmpty | AssignAll(blocks: seq<Block>) | AssignItself

  /** What each operation does to the chain as a sequence. */
  ghost function Effect(s: seq<Block>, op: Op): seq<Block> {
    match op
    case Append(b) => s + [b]
    case Prepend(b) => [b] + s
    case AppendAll(t) => s + t
    case PrependAll(t) => Reversed(t) + s
    case PrependItself => Reversed(s) + s
    case RemoveFirst => if |s| == 0 then [] else s[1..]
    case MakeEmpty => []
    case AssignAll(t) => t
    case AssignItself => []
  }

  ghost function Effects(s: seq<Block>, ops: seq<Op>): seq<Block>
    decreases |ops|
  {
    if |ops| == 0 then s else Effects(Effect(s, ops[0]), ops[1..])
  }

  /** A chain with the given blocks. */
  method ChainOf(blocks: seq<Block>) returns (c: BufferChain)
    ensures c.Valid() && c.Contents() == blocks && fresh(c) && fresh(c.owned)
  {
    hide BufferChain.Shape;
    c := new BufferChain();
    for k := 0 to |blocks|
      invariant fresh(c) && c.Valid() && c.Contents() == blocks[..k] && fresh(c.owned)
    {
      var b := new Buffer(blocks[k]);
      c.SpareIsOwned(null);
      c.AppendBuffer(b);
    }
  }

  method Perform(c: BufferChain, op: Op)
    requires c.Valid()
    modifies c, c.owned
    ensures c.Valid() && c.Contents() == Effect(old(c.Contents()), op)
    ensures old(c.owned) <= c.owned && fresh(c.owned - old(c.owned))
  {
    hide BufferChain.Shape, Reversed;
    c.SpareIsOwned(null);
    match op
    case Append(block) =>
      var b := new Buffer(block);
      c.AppendBuffer(b);
    case Prepend(block) =>
      var b := new Buffer(block);
      c.PrependBuffer(b);
    case AppendAll(blocks) =>
      var other := ChainOf(blocks);
      c.AppendChainOf(other);
    case PrependAll(blocks) =>
      var other := ChainOf(blocks);
      c.PrependChainOf(other);
    case PrependItself =>
      c.PrependChainOf(c);
    case RemoveFirst =>
      var _ := c.RemoveFirst();
    case MakeEmpty =>
      c.MakeEmpty();
    case AssignAll(blocks) =>
      var other := ChainOf(blocks);
      c.AssignChain(other);
    case AssignItself =>
      c.AssignChain(c);
  }

  /**
    Every run, from the empty chain to the destructor, is the run on sequences, keeps both lists
    well formed throughout, and deletes each node that was allocated exactly once.
   */
  method Run(ops: seq<Op>) returns (c: BufferChain, ghost freed: seq<Buffer>)
    ensures c.Valid() && c.Contents() == Effects([], ops)
    ensures |freed| == ALLOC_SIZE * c.allocs && forall i, j | 0 <= i < j < |freed| :: freed[i] != freed[j]
  {
    hide BufferChain.Shape, Effect;
    c := new BufferChain();
    for k := 0 to |ops|
      invariant fresh(c) && c.Valid() && fresh(c.owned)
      invariant Effects([], ops) == Effects(c.Contents(), ops[k..])
    {
      Perform(c, ops[k]);
      assert ops[k..][1..] == ops[k + 1..];
    }
    freed := c.Destroy();
  }
}
