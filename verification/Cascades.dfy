/**
  What one DecStrongFast sets off when the counted objects hold sptr members themselves: the
  object is deleted when its count returns to zero, its destructor releases its members, and
  so on. The heap is the map of the objects that are alive.
 */
module Cascades {
  import opened Collections

  type Obj = nat

  /** A live object: its count and the targets of its sptr members, in the order they are destroyed. */
  datatype Node = Node(count: int, members: seq<Obj>)

  type Heap = map<Obj, Node>

  // ---- the cascade -----------------------------------------------------------------

  /** DecStrongFast on one reference, with everything that it deletes. */
  function Release(g: Heap, o: Obj): (r: Heap)
    ensures r.Keys <= g.Keys
    decreases |g|, 0
  {
    if o !in g then g
    else if g[o].count == 1 then
      assert (g - {o}).Keys == g.Keys - {o};
      ReleaseAll(g - {o}, g[o].members)
    else g[o := g[o].(count := g[o].count - 1)]
  }

  /** The destructors of a sequence of smart pointers. */
  function ReleaseAll(g: Heap, os: seq<Obj>): (r: Heap)
    ensures r.Keys <= g.Keys
    decreases |g|, 1 + |os|
  {
    if |os| == 0 then g
    else
      var g' := Release(g, os[0]);
      SmallerHeap(g', g);
      ReleaseAll(g', os[1..])
  }

  lemma SmallerHeap(r: Heap, g: Heap)
    requires r.Keys <= g.Keys
    ensures |r| <= |g|
  {
    SubsetSize(r.Keys, g.Keys);
    assert |r.Keys| == |r| && |g.Keys| == |g|;
  }

  // ---- exact counts ----------------------------------------------------------------

  /** The member slots, as (object, index), that point to o. */
  function Pointers(g: Heap, o: Obj): set<(Obj, nat)> {
    set p, i | p in g && 0 <= i < |g[p].members| && g[p].members[i] == o :: (p, i)
  }

  /** Nothing dangles, and every count is what roots and members account for. */
  ghost predicate Exact(g: Heap, roots: multiset<Obj>) {
    && (forall o | o in roots :: o in g)
    && (forall p, i | p in g && 0 <= i < |g[p].members| :: g[p].members[i] in g)
    && (forall o | o in g :: g[o].count == roots[o] + |Pointers(g, o)|)
  }

  /** Everything alive is referenced. */
  ghost predicate Counted(g: Heap) {
    forall o | o in g :: g[o].count > 0
  }

  /** Survivors still have the members they had. */
  ghost predicate Shrunk(r: Heap, g: Heap) {
    r.Keys <= g.Keys && forall o | o in r :: r[o].members == g[o].members
  }

  /** The slots of one object that point to o, counted with multiplicity. */
  lemma {:induction false} SlotsOf(p: Obj, members: seq<Obj>, o: Obj)
    ensures |set i | 0 <= i < |members| && members[i] == o :: (p, i)| == multiset(members)[o]
  {
    var slots := set i | 0 <= i < |members| && members[i] == o :: (p, i);
    if |members| == 0 {
      assert slots == {};
    } else {
      var n := |members| - 1;
      var front := members[..n];
      var fewer := set i | 0 <= i < |front| && front[i] == o :: (p, i);
      SlotsOf(p, front, o);
      assert members == front + [members[n]];
      assert slots == if members[n] == o then fewer + {(p, n)} else fewer;
    }
  }

  /** Without p, the pointers of its members are gone. */
  lemma PointersWithout(g: Heap, p: Obj, o: Obj)
    requires p in g
    ensures |Pointers(g - {p}, o)| + multiset(g[p].members)[o] == |Pointers(g, o)|
  {
    var mine := set i | 0 <= i < |g[p].members| && g[p].members[i] == o :: (p, i);
    SlotsOf(p, g[p].members, o);
    assert Pointers(g, o) == Pointers(g - {p}, o) + mine;
    assert Pointers(g - {p}, o) !! mine;
  }

  /** Only the members matter to the pointers. */
  lemma PointersSame(r: Heap, g: Heap, o: Obj)
    requires r.Keys == g.Keys && Shrunk(r, g)
    ensures Pointers(r, o) == Pointers(g, o)
  {
  }

  // ---- the cascade keeps the counts exact ------------------------------------------

  /** One reference fewer, and nothing deleted. */
  lemma DecrementKeeps(g: Heap, roots: multiset<Obj>, o: Obj)
    requires Exact(g, roots + multiset{o}) && Counted(g) && g[o].count != 1
    ensures var r := g[o := g[o].(count := g[o].count - 1)];
            Exact(r, roots) && Counted(r) && Shrunk(r, g)
  {
    var r := g[o := g[o].(count := g[o].count - 1)];
    forall x | x in r
      ensures r[x].count == roots[x] + |Pointers(r, x)|
    {
      PointersSame(r, g, x);
    }
    forall x | x in roots
      ensures x in r
    {
      assert x in roots + multiset{o};
    }
  }

  /** The last reference gone: no member points to the object, and its own members are to be released. */
  lemma DeleteKeeps(g: Heap, roots: multiset<Obj>, o: Obj)
    requires Exact(g, roots + multiset{o}) && Counted(g) && g[o].count == 1
    ensures Exact(g - {o}, roots + multiset(g[o].members)) && Counted(g - {o}) && Shrunk(g - {o}, g)
    ensures Pointers(g, o) == {} && o !in roots
  {
    var r, roots' := g - {o}, roots + multiset(g[o].members);
    assert o in g && (roots + multiset{o})[o] == roots[o] + 1;
    assert Pointers(g, o) == {};
    forall x | x in r
      ensures r[x].count == roots'[x] + |Pointers(r, x)|
    {
      PointersWithout(g, o, x);
    }
    forall p, i | p in g && 0 <= i < |g[p].members|
      ensures g[p].members[i] in r
    {
      assert (p, i) !in Pointers(g, o);
    }
    forall x | x in roots'
      ensures x in r
    {
      if x in roots {
        assert x in roots + multiset{o};
      } else {
        var i :| 0 <= i < |g[o].members| && g[o].members[i] == x;
      }
    }
  }

  lemma {:induction false} ReleaseKeeps(g: Heap, roots: multiset<Obj>, o: Obj)
    requires Exact(g, roots + multiset{o}) && Counted(g)
    ensures Exact(Release(g, o), roots) && Counted(Release(g, o)) && Shrunk(Release(g, o), g)
    decreases |g|, 0
  {
    assert o in roots + multiset{o};
    if g[o].count == 1 {
      DeleteKeeps(g, roots, o);
      assert (g - {o}).Keys == g.Keys - {o};
      ReleaseAllKeeps(g - {o}, roots, g[o].members);
    } else {
      DecrementKeeps(g, roots, o);
    }
  }

  lemma {:induction false} ReleaseAllKeeps(g: Heap, roots: multiset<Obj>, os: seq<Obj>)
    requires Exact(g, roots + multiset(os)) && Counted(g)
    ensures Exact(ReleaseAll(g, os), roots) && Counted(ReleaseAll(g, os)) && Shrunk(ReleaseAll(g, os), g)
    decreases |g|, 1 + |os|
  {
    if |os| == 0 {
      assert roots + multiset(os) == roots;
    } else {
      var g' := Release(g, os[0]);
      assert os == [os[0]] + os[1..];
      assert roots + multiset(os) == (roots + multiset(os[1..])) + multiset{os[0]};
      ReleaseKeeps(g, roots + multiset(os[1..]), os[0]);
      SmallerHeap(g', g);
      ReleaseAllKeeps(g', roots, os[1..]);
    }
  }

  // ---- survivors -------------------------------------------------------------------

  /** A chain of members from a root to o. */
  ghost predicate Path(g: Heap, roots: multiset<Obj>, path: seq<Obj>, o: Obj) {
    && |path| > 0 && path[0] in roots && path[|path| - 1] == o
    && (forall k | 0 <= k < |path| :: path[k] in g)
    && (forall k, l | 0 <= k < l < |path| && l == k + 1 :: path[l] in g[path[k]].members)
  }

  ghost predicate Reachable(g: Heap, roots: multiset<Obj>, o: Obj) {
    exists path :: Path(g, roots, path, o)
  }

  lemma RootIsReachable(g: Heap, roots: multiset<Obj>, o: Obj)
    requires o in roots && o in g
    ensures Reachable(g, roots, o)
  {
    assert Path(g, roots, [o], o);
  }

  lemma MemberIsReachable(g: Heap, roots: multiset<Obj>, p: Obj, o: Obj)
    requires Reachable(g, roots, p) && p in g && o in g && o in g[p].members
    ensures Reachable(g, roots, o)
  {
    var path :| Path(g, roots, path, p);
    assert Path(g, roots, path + [o], o);
  }

  /** What can be reached from the roots that stay is not deleted. */
  lemma {:induction false} ReachableSurvives(g: Heap, r: Heap, roots: multiset<Obj>, path: seq<Obj>, k: nat)
    requires Exact(r, roots) && Shrunk(r, g) && k < |path|
    requires Path(g, roots, path, path[|path| - 1])
    ensures path[k] in r
  {
    if k > 0 {
      ReachableSurvives(g, r, roots, path, k - 1);
      var members := g[path[k - 1]].members;
      assert path[k] in members;
      var i :| 0 <= i < |members| && members[i] == path[k];
      assert r[path[k - 1]].members[i] in r;
    }
  }

  /** Some object of the set has o as a member. */
  ghost predicate Supports(g: Heap, c: set<Obj>, o: Obj) {
    exists p :: p in c && p in g && o in g[p].members
  }

  /** Every object of the set is a member of an object of the set: a cycle, or fed by one. */
  ghost predicate SelfSupporting(g: Heap, c: set<Obj>) {
    c <= g.Keys && forall o {:trigger Supports(g, c, o)} | o in c :: Supports(g, c, o)
  }

  lemma SupportedIsPointed(g: Heap, c: set<Obj>, o: Obj)
    requires SelfSupporting(g, c)
    ensures o in c ==> Pointers(g, o) != {}
  {
    if o in c {
      assert Supports(g, c, o);
      var p :| p in c && p in g && o in g[p].members;
      var i :| 0 <= i < |g[p].members| && g[p].members[i] == o;
      assert (p, i) in Pointers(g, o);
    }
  }

  /** Such a set keeps itself alive. */
  lemma {:induction false} SelfSupportingSurvives(g: Heap, roots: multiset<Obj>, o: Obj, c: set<Obj>)
    requires Exact(g, roots + multiset{o}) && Counted(g) && SelfSupporting(g, c)
    ensures SelfSupporting(Release(g, o), c)
    decreases |g|, 0
  {
    assert o in roots + multiset{o};
    if g[o].count == 1 {
      DeleteKeeps(g, roots, o);
      SupportedIsPointed(g, c, o);
      assert (g - {o}).Keys == g.Keys - {o};
      SelfSupportingIn(g, g - {o}, c);
      AllSelfSupportingSurvives(g - {o}, roots, g[o].members, c);
    } else {
      SelfSupportingIn(g, Release(g, o), c);
    }
  }

  lemma {:induction false} AllSelfSupportingSurvives(g: Heap, roots: multiset<Obj>, os: seq<Obj>, c: set<Obj>)
    requires Exact(g, roots + multiset(os)) && Counted(g) && SelfSupporting(g, c)
    ensures SelfSupporting(ReleaseAll(g, os), c)
    decreases |g|, 1 + |os|
  {
    if |os| > 0 {
      var g' := Release(g, os[0]);
      assert os == [os[0]] + os[1..];
      assert roots + multiset(os) == (roots + multiset(os[1..])) + multiset{os[0]};
      ReleaseKeeps(g, roots + multiset(os[1..]), os[0]);
      SelfSupportingSurvives(g, roots + multiset(os[1..]), os[0], c);
      SmallerHeap(g', g);
      AllSelfSupportingSurvives(g', roots, os[1..], c);
    }
  }

  /** Being self-supporting depends on the members of the set only. */
  lemma SelfSupportingIn(g: Heap, h: Heap, c: set<Obj>)
    requires SelfSupporting(g, c) && c <= h.Keys
    requires forall o | o in c :: h[o].members == g[o].members
    ensures SelfSupporting(h, c)
  {
    forall o | o in c
      ensures Supports(h, c, o)
    {
      assert Supports(g, c, o);
      var p :| p in c && p in g && o in g[p].members;
      assert o in h[p].members;
    }
  }

  /** The survivors that nothing reaches support each other. */
  lemma LeaksAreSelfSupporting(r: Heap, roots: multiset<Obj>)
    requires Exact(r, roots) && Counted(r)
    ensures SelfSupporting(r, set x | x in r && !Reachable(r, roots, x))
  {
    var leaks := set x | x in r && !Reachable(r, roots, x);
    forall o | o in leaks
      ensures Supports(r, leaks, o)
    {
      if o in roots {
        RootIsReachable(r, roots, o);
      }
      assert |Pointers(r, o)| > 0;
      var slot :| slot in Pointers(r, o);
      var p := slot.0;
      assert o in r[p].members;
      if Reachable(r, roots, p) {
        MemberIsReachable(r, roots, p, o);
      }
    }
  }

  /** Reachability in the heap that is left is reachability in the heap that was. */
  lemma SameReach(g: Heap, r: Heap, roots: multiset<Obj>, x: Obj)
    requires Exact(r, roots) && Shrunk(r, g)
    ensures Reachable(g, roots, x) <==> Reachable(r, roots, x)
    ensures Reachable(g, roots, x) ==> x in r
  {
    if Reachable(r, roots, x) {
      var path :| Path(r, roots, path, x);
      assert Path(g, roots, path, x);
    }
    if Reachable(g, roots, x) {
      var path :| Path(g, roots, path, x);
      forall k | 0 <= k < |path|
        ensures path[k] in r
      {
        ReachableSurvives(g, r, roots, path, k);
      }
      assert Path(r, roots, path, x);
    }
  }

  /** Every object that supports itself is reachable: the condition for a heap without leaks. */
  ghost predicate NoSecludedCycle(g: Heap, roots: multiset<Obj>) {
    forall c, x | SelfSupporting(g, c) && x in c :: Reachable(g, roots, x)
  }

  lemma NoLeakWithoutSecludedCycle(g: Heap, r: Heap, roots: multiset<Obj>, x: Obj)
    requires Exact(r, roots) && Counted(r) && Shrunk(r, g) && NoSecludedCycle(g, roots) && x in r
    ensures Reachable(g, roots, x)
  {
    var leaks := set y | y in r && !Reachable(r, roots, y);
    LeaksAreSelfSupporting(r, roots);
    SelfSupportingIn(r, g, leaks);
    SameReach(g, r, roots, x);
    assert x in leaks ==> Reachable(g, roots, x);
  }

  /**
    Dropping one reference deletes exactly the objects that the remaining references no longer
    reach, if and only if no unreachable objects support each other.
   */
  lemma ReleaseDeletesTheUnreachable(g: Heap, roots: multiset<Obj>, o: Obj)
    requires Exact(g, roots + multiset{o}) && Counted(g)
    ensures Exact(Release(g, o), roots) && Shrunk(Release(g, o), g)
    ensures forall x | Reachable(g, roots, x) :: x in Release(g, o)
    ensures (forall x | x in Release(g, o) :: Reachable(g, roots, x)) <==> NoSecludedCycle(g, roots)
  {
    hide Exact, Counted, Path;
    var r := Release(g, o);
    ReleaseKeeps(g, roots, o);
    forall x {
      SameReach(g, r, roots, x);
    }
    if NoSecludedCycle(g, roots) {
      forall x | x in r
        ensures Reachable(g, roots, x)
      {
        NoLeakWithoutSecludedCycle(g, r, roots, x);
      }
    }
    if forall x | x in r :: Reachable(g, roots, x) {
      forall c, x | SelfSupporting(g, c) && x in c
        ensures Reachable(g, roots, x)
      {
        SelfSupportingSurvives(g, roots, o, c);
      }
    }
  }

  // ---- acyclic heaps ---------------------------------------------------------------

  /** There is a rank that falls along every member, so no object reaches itself. */
  ghost predicate Acyclic(g: Heap, rank: map<Obj, nat>) {
    && g.Keys <= rank.Keys
    && (forall p, o | p in g && o in g && o in g[p].members :: rank[o] < rank[p])
  }

  lemma {:induction false} NoneSupportsItself(g: Heap, rank: map<Obj, nat>, c: set<Obj>, x: Obj, bound: nat)
    requires Acyclic(g, rank) && SelfSupporting(g, c) && x in c
    requires forall o | o in c :: rank[o] <= bound
    ensures false
    decreases bound - rank[x]
  {
    assert Supports(g, c, x);
    var p :| p in c && p in g && x in g[p].members;
    NoneSupportsItself(g, rank, c, p, bound);
  }

  lemma {:induction false} RankBound(c: set<Obj>, rank: map<Obj, nat>) returns (bound: nat)
    requires c <= rank.Keys
    ensures forall o | o in c :: rank[o] <= bound
  {
    bound := 0;
    if c != {} {
      var x :| x in c;
      bound := RankBound(c - {x}, rank);
      if rank[x] > bound {
        bound := rank[x];
      }
    }
  }

  /** In an acyclic heap the survivors are exactly the reachable objects. */
  lemma AcyclicHeapsDoNotLeak(g: Heap, roots: multiset<Obj>, rank: map<Obj, nat>, o: Obj)
    requires Exact(g, roots + multiset{o}) && Counted(g) && Acyclic(g, rank)
    ensures forall x :: x in Release(g, o) <==> Reachable(g, roots, x)
  {
    ReleaseDeletesTheUnreachable(g, roots, o);
    forall c | SelfSupporting(g, c)
      ensures c == {}
    {
      NoneSelfSupporting(g, rank, c);
    }
  }

  lemma NoneSelfSupporting(g: Heap, rank: map<Obj, nat>, c: set<Obj>)
    requires Acyclic(g, rank) && SelfSupporting(g, c)
    ensures c == {}
  {
    if x :| x in c {
      var bound := RankBound(c, rank);
      NoneSupportsItself(g, rank, c, x, bound);
    }
  }

  /** Two objects that point to each other outlive the last reference from outside. */
  lemma CycleLeaks()
    ensures var g: Heap := map[0 := Node(2, [1]), 1 := Node(1, [0])];
            Exact(g, multiset{0}) && Release(g, 0) == map[0 := Node(1, [1]), 1 := Node(1, [0])]
  {
    var g: Heap := map[0 := Node(2, [1]), 1 := Node(1, [0])];
    assert Pointers(g, 0) == {(1, 0)} && Pointers(g, 1) == {(0, 0)};
  }

  // ---- assigning from a member -----------------------------------------------------

  /**
    operator=(const sptr&) where the source is member i of object a: count its target t, release
    the old object o, and only then read the member again. This is the heap at that read.
   */
  function BeforeReread(g: Heap, o: Obj, t: Obj): Heap
    requires t in g
  {
    Release(Incremented(g, t), o)
  }

  function Incremented(g: Heap, t: Obj): Heap
    requires t in g
  {
    g[t := g[t].(count := g[t].count + 1)]
  }

  lemma IncrementKeeps(g: Heap, roots: multiset<Obj>, t: Obj)
    requires Exact(g, roots) && Counted(g) && t in g
    ensures Exact(Incremented(g, t), roots + multiset{t}) && Counted(Incremented(g, t))
  {
    var r := Incremented(g, t);
    forall x | x in r
      ensures r[x].count == (roots + multiset{t})[x] + |Pointers(r, x)|
    {
      PointersSame(r, g, x);
    }
  }

  /** Counts do not matter to reachability. */
  lemma IncrementReach(g: Heap, roots: multiset<Obj>, t: Obj, x: Obj)
    requires t in g
    ensures Reachable(Incremented(g, t), roots, x) <==> Reachable(g, roots, x)
  {
    var r := Incremented(g, t);
    if Reachable(g, roots, x) {
      var path :| Path(g, roots, path, x);
      assert Path(r, roots, path, x);
    }
    if Reachable(r, roots, x) {
      var path :| Path(r, roots, path, x);
      assert Path(g, roots, path, x);
    }
  }

  /**
    The counts come out exact for the new target. If a is still there, the second read finds the
    target that was counted; and a is still there if it stays reachable, and only then unless
    unreachable objects support each other.
   */
  lemma MemberAssignment(g: Heap, roots: multiset<Obj>, o: Obj, a: Obj, i: nat)
    requires Exact(g, roots + multiset{o}) && Counted(g) && a in g && i < |g[a].members|
    ensures g[a].members[i] in g
    ensures var t := g[a].members[i];
            var r := BeforeReread(g, o, t);
            && Exact(r, roots + multiset{t}) && t in r
            && (a in r ==> r[a].members == g[a].members)
            && (Reachable(g, roots + multiset{t}, a) ==> a in r)
            && (NoSecludedCycle(Incremented(g, t), roots + multiset{t}) ==> (a in r <==> Reachable(g, roots + multiset{t}, a)))
  {
    hide Path;
    var t := g[a].members[i];
    var g' := Incremented(g, t);
    IncrementKeeps(g, roots + multiset{o}, t);
    assert roots + multiset{o} + multiset{t} == roots + multiset{t} + multiset{o};
    ReleaseDeletesTheUnreachable(g', roots + multiset{t}, o);
    IncrementReach(g, roots + multiset{t}, t, a);
    assert t in roots + multiset{t};
  }

  lemma {:induction false} PathFalls(g: Heap, roots: multiset<Obj>, rank: map<Obj, nat>, path: seq<Obj>, k: nat)
    requires Acyclic(g, rank) && k < |path| && Path(g, roots, path, path[|path| - 1])
    ensures rank[path[k]] <= rank[path[0]]
  {
    if k > 0 {
      PathFalls(g, roots, rank, path, k - 1);
      assert path[k] in g[path[k - 1]].members;
    }
  }

  /** In an acyclic heap the second read is of a live object if and only if something else holds that object. */
  lemma RereadIsLiveIffHeld(g: Heap, roots: multiset<Obj>, rank: map<Obj, nat>, o: Obj, a: Obj, i: nat)
    requires Exact(g, roots + multiset{o}) && Counted(g) && Acyclic(g, rank) && a in g && i < |g[a].members|
    ensures g[a].members[i] in g
    ensures a in BeforeReread(g, o, g[a].members[i]) <==> Reachable(g, roots, a)
  {
    var t := g[a].members[i];
    var g' := Incremented(g, t);
    IncrementKeeps(g, roots + multiset{o}, t);
    assert roots + multiset{o} + multiset{t} == roots + multiset{t} + multiset{o};
    AcyclicHeapsDoNotLeak(g', roots + multiset{t}, rank, o);
    IncrementReach(g, roots + multiset{t}, t, a);
    TargetDoesNotReach(g, roots, rank, a, t);
  }

  /** A member of an object leads nowhere back to it. */
  lemma TargetDoesNotReach(g: Heap, roots: multiset<Obj>, rank: map<Obj, nat>, a: Obj, t: Obj)
    requires Acyclic(g, rank) && a in g && t in g && t in g[a].members
    ensures Reachable(g, roots + multiset{t}, a) <==> Reachable(g, roots, a)
  {
    if Reachable(g, roots + multiset{t}, a) {
      var path :| Path(g, roots + multiset{t}, path, a);
      PathFalls(g, roots + multiset{t}, rank, path, |path| - 1);
      assert path[0] != t && path[0] in roots;
      assert Path(g, roots, path, a);
    }
    if Reachable(g, roots, a) {
      var path :| Path(g, roots, path, a);
      assert Path(g, roots + multiset{t}, path, a);
    }
  }

  /** p = p->next on a list that only p holds: the node that is read again is gone. */
  lemma NextOfOwnNode()
    ensures var g: Heap := map[0 := Node(1, [1]), 1 := Node(1, [])];
            && Exact(g, multiset{} + multiset{0}) && Counted(g)
            && BeforeReread(g, 0, 1) == map[1 := Node(1, [])]
  {
    var g: Heap := map[0 := Node(1, [1]), 1 := Node(1, [])];
    assert Pointers(g, 0) == {} && Pointers(g, 1) == {(0, 0)};
    var h: Heap := map[1 := Node(2, [])];
    assert Incremented(g, 1) - {0} == h;
    assert [1][0] == 1 && [1][1..] == [];
    assert ReleaseAll(h, [1]) == ReleaseAll(Release(h, 1), []);
  }
}
