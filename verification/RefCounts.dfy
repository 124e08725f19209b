/**
  The reference-counting protocol of sptr over SLimAtom and over SSharedBuffer, as a machine of
  atomic steps. Every holder is a smart pointer or a raw pointer that owns a reference; one thread
  works on a holder at a time, and the steps of different holders interleave freely.
 */
module RefCounts {
  import opened Collections

  type Obj = nat
  type Slot = nat

  /** What the memory of a counted object shows: its count and how often it has been deleted. */
  datatype Object = Object(count: int, deletions: nat)

  datatype Kind = Sptr | Raw

  /** Where an operation takes its pointer from: another holder it re-reads, or a plain value. */
  datatype Source = FromSlot(q: Slot) | FromNew | Given

  /** What a holder does once its old reference is gone. */
  datatype After = ThenStore(target: Option<Obj>, src: Source) | ThenGone

  datatype Pc =
    | Idle
    | Counting(src: Source)                     // constructor: pointer stored, not yet counted
    | IncNew(target: Option<Obj>, src: Source)     // assignment: before the increment
    | Releasing(after: After)                   // before the decrement of the old object
    | Peeked(users: int, after: After)          // DecUsers: the count has been read
    | Deleting(after: After)                    // the decrement returned 1
    | Storing(target: Option<Obj>, src: Source)    // before m_ptr is overwritten

  datatype Cell = Cell(kind: Kind, ptr: Option<Obj>, pc: Pc)

  type Holders = map<Slot, Cell>

  /** `unclaimed` are objects fresh from new whose pointer no smart pointer has taken yet. */
  datatype State = State(objs: map<Obj, Object>, holders: Holders, unclaimed: set<Obj>)

  const START := State(map[], map[], {})

  // ---- the machine -----------------------------------------------------------------

  datatype Step =
    | New(o: Obj)                                // SLimAtom(): count 0
    | Alloc(o: Obj, r: Slot)                     // SSharedBuffer::Alloc: count 1, one raw reference
    | Construct(s: Slot, src: Source, p: Option<Obj>)  // sptr(TYPE*), sptr(const sptr&): m_ptr = p
    | Count(s: Slot)                             // ... and IncStrong
    | Adopt(s: Slot, r: Slot)                    // sptr<SSharedBuffer>(p): no increment
    | Assign(s: Slot, src: Source, p: Option<Obj>)     // operator= entered
    | Increment(s: Slot)                         // IncStrong of the new object
    | AdoptAssign(s: Slot, r: Slot)              // operator=(SSharedBuffer*)
    | Decrement(s: Slot)                         // atomic decrement of the old object
    | Peek(s: Slot)                              // DecUsers reads the count first
    | DeleteUncounted(s: Slot)                   // ... and deletes at 1 without a decrement
    | Delete(s: Slot)                            // delete after a decrement that returned 1
    | Store(s: Slot)                             // m_ptr = p.ptr()
    | Drop(s: Slot)                              // ~sptr, or DecStrong on a raw reference
    | Detach(s: Slot, r: Slot)

  function SourceOf(pc: Pc): Source {
    match pc
    case Counting(src) => src
    case IncNew(_, src) => src
    case Releasing(ThenStore(_, src)) => src
    case Peeked(_, ThenStore(_, src)) => src
    case Deleting(ThenStore(_, src)) => src
    case Storing(_, src) => src
    case _ => Given
  }

  /** Nobody is reading the holder while its owner starts to change it. */
  predicate Unread(h: Holders, s: Slot) {
    forall t | t in h :: SourceOf(h[t].pc) != FromSlot(s)
  }

  /** A holder its owner may start an operation on. */
  predicate Ready(h: Holders, s: Slot, kind: Kind) {
    s in h && h[s].pc == Idle && h[s].kind == kind && Unread(h, s)
  }

  /** The pointer `p` can be read from the source now. */
  predicate Readable(st: State, src: Source, p: Option<Obj>) {
    match src
    case FromSlot(q) => q in st.holders && st.holders[q].pc == Idle && st.holders[q].ptr == p
    case FromNew => p.Some? && p.value in st.unclaimed
    case Given => p.None?
  }

  function Claim(unclaimed: set<Obj>, src: Source, p: Option<Obj>): set<Obj> {
    if src == FromNew && p.Some? then unclaimed - {p.value} else unclaimed
  }

  predicate HasOld(st: State, s: Slot) {
    s in st.holders && st.holders[s].ptr.Some? && st.holders[s].ptr.value in st.objs
  }

  predicate Enabled(st: State, step: Step) {
    var h := st.holders;
    match step
    case New(o) => o !in st.objs
    case Alloc(o, r) => o !in st.objs && r !in h
    case Construct(s, src, p) => s !in h && Readable(st, src, p)
    case Count(s) => HasOld(st, s) && h[s].pc.Counting?
    case Adopt(s, r) => s !in h && Ready(h, r, Raw)
    case Assign(s, src, p) => Ready(h, s, Sptr) && Readable(st, src, p)
    case Increment(s) => s in h && h[s].pc.IncNew? && (h[s].pc.target.Some? ==> h[s].pc.target.value in st.objs)
    case AdoptAssign(s, r) => s != r && Ready(h, s, Sptr) && Ready(h, r, Raw)
    case Decrement(s) =>
      s in h && (h[s].pc.Releasing? || (h[s].pc.Peeked? && h[s].pc.users != 1)) && (h[s].ptr.Some? ==> HasOld(st, s))
    case Peek(s) => HasOld(st, s) && h[s].pc.Releasing?
    case DeleteUncounted(s) => HasOld(st, s) && h[s].pc.Peeked? && h[s].pc.users == 1
    case Delete(s) => HasOld(st, s) && h[s].pc.Deleting?
    case Store(s) => s in h && h[s].pc.Storing? && (h[s].pc.src.FromSlot? ==> h[s].pc.src.q in h)
    case Drop(s) => s in h && h[s].pc == Idle && Unread(h, s)
    case Detach(s, r) => Ready(h, s, Sptr) && r !in h
  }

  /** The holder after its old reference has been given up. */
  function Released(h: Holders, s: Slot, after: After): Holders
    requires s in h
  {
    match after
    case ThenStore(target, src) => h[s := h[s].(pc := Storing(target, src))]
    case ThenGone => h - {s}
  }

  function Counted(objs: map<Obj, Object>, o: Obj, d: int): map<Obj, Object>
    requires o in objs
  {
    objs[o := objs[o].(count := objs[o].count + d)]
  }

  function Deleted(objs: map<Obj, Object>, o: Obj): map<Obj, Object>
    requires o in objs
  {
    objs[o := objs[o].(deletions := objs[o].deletions + 1)]
  }

  /** What p.ptr() yields when it is evaluated again. */
  function Reread(h: Holders, target: Option<Obj>, src: Source): Option<Obj> {
    if src.FromSlot? && src.q in h then h[src.q].ptr else target
  }

  function Apply(st: State, step: Step): State
    requires Enabled(st, step)
  {
    var h := st.holders;
    match step
    case New(o) => st.(objs := st.objs[o := Object(0, 0)], unclaimed := st.unclaimed + {o})
    case Alloc(o, r) => st.(objs := st.objs[o := Object(1, 0)], holders := h[r := Cell(Raw, Some(o), Idle)])
    case Construct(s, src, p) =>
      st.(holders := h[s := Cell(Sptr, p, if p.Some? then Counting(src) else Idle)],
          unclaimed := Claim(st.unclaimed, src, p))
    case Count(s) =>
      st.(objs := Counted(st.objs, h[s].ptr.value, 1), holders := h[s := h[s].(pc := Idle)])
    case Adopt(s, r) => st.(holders := (h - {r})[s := Cell(Sptr, h[r].ptr, Idle)])
    case Assign(s, src, p) =>
      st.(holders := h[s := h[s].(pc := IncNew(p, src))], unclaimed := Claim(st.unclaimed, src, p))
    case Increment(s) =>
      var pc := h[s].pc;
      st.(objs := if pc.target.Some? then Counted(st.objs, pc.target.value, 1) else st.objs,
          holders := h[s := h[s].(pc := Releasing(ThenStore(pc.target, pc.src)))])
    case AdoptAssign(s, r) =>
      st.(holders := (h - {r})[s := h[s].(pc := Releasing(ThenStore(h[r].ptr, Given)))])
    case Decrement(s) =>
      if h[s].ptr.None? then st.(holders := Released(h, s, h[s].pc.after))
      else
        var o := h[s].ptr.value;
        st.(objs := Counted(st.objs, o, -1),
            holders := if st.objs[o].count == 1 then h[s := h[s].(pc := Deleting(h[s].pc.after))]
                       else Released(h, s, h[s].pc.after))
    case Peek(s) => st.(holders := h[s := h[s].(pc := Peeked(st.objs[h[s].ptr.value].count, h[s].pc.after))])
    case DeleteUncounted(s) =>
      st.(objs := Deleted(st.objs, h[s].ptr.value), holders := Released(h, s, h[s].pc.after))
    case Delete(s) =>
      st.(objs := Deleted(st.objs, h[s].ptr.value), holders := Released(h, s, h[s].pc.after))
    case Store(s) =>
      st.(holders := h[s := h[s].(ptr := Reread(h, h[s].pc.target, h[s].pc.src), pc := Idle)])
    case Drop(s) => st.(holders := h[s := h[s].(pc := Releasing(ThenGone))])
    case Detach(s, r) => st.(holders := h[r := Cell(Raw, h[s].ptr, Idle)][s := h[s].(ptr := None)])
  }

  // ---- who owns what ---------------------------------------------------------------

  /** The pointer an operation is installing. */
  function Target(c: Cell): Option<Obj> {
    match c.pc
    case Counting(_) => c.ptr
    case IncNew(target, _) => target
    case _ => Pending(c.pc)
  }

  /** The pointer an operation is installing and has already counted. */
  function Pending(pc: Pc): Option<Obj> {
    match pc
    case Releasing(ThenStore(target, _)) => target
    case Peeked(_, ThenStore(target, _)) => target
    case Deleting(ThenStore(target, _)) => target
    case Storing(target, _) => target
    case _ => None
  }

  predicate OwnsOld(c: Cell, o: Obj) {
    c.ptr == Some(o) && (c.pc.Idle? || c.pc.IncNew? || c.pc.Releasing? || c.pc.Peeked?)
  }

  predicate OwnsNew(c: Cell, o: Obj) {
    Pending(c.pc) == Some(o)
  }

  function Weight(c: Cell, o: Obj): nat {
    (if OwnsOld(c, o) then 1 else 0) + (if OwnsNew(c, o) then 1 else 0)
  }

  function OldOwners(h: Holders, o: Obj): set<Slot> {
    set s | s in h && OwnsOld(h[s], o)
  }

  function NewOwners(h: Holders, o: Obj): set<Slot> {
    set s | s in h && OwnsNew(h[s], o)
  }

  /** References to o that holders and operations in flight own. */
  function References(h: Holders, o: Obj): nat {
    |OldOwners(h, o)| + |NewOwners(h, o)|
  }

  /** The holder is about to count an object that has never been referenced. */
  predicate Claims(c: Cell, o: Obj) {
    (c.pc == Counting(FromNew) && c.ptr == Some(o)) || c.pc == IncNew(Some(o), FromNew)
  }

  predicate Deletes(c: Cell, o: Obj) {
    c.pc.Deleting? && c.ptr == Some(o)
  }

  predicate Live(st: State, o: Obj) {
    o in st.objs && st.objs[o].deletions == 0
  }

  lemma RemoveReferences(h: Holders, s: Slot, o: Obj)
    requires s in h
    ensures References(h - {s}, o) == References(h, o) - Weight(h[s], o)
  {
    assert OldOwners(h - {s}, o) == OldOwners(h, o) - {s};
    assert NewOwners(h - {s}, o) == NewOwners(h, o) - {s};
  }

  lemma AddOldOwner(h: Holders, s: Slot, c: Cell, o: Obj)
    requires s !in h
    ensures |OldOwners(h[s := c], o)| == |OldOwners(h, o)| + if OwnsOld(c, o) then 1 else 0
  {
    var owners := OldOwners(h, o);
    if OwnsOld(c, o) {
      assert OldOwners(h[s := c], o) == owners + {s};
    } else {
      assert OldOwners(h[s := c], o) == owners;
    }
  }

  lemma AddNewOwner(h: Holders, s: Slot, c: Cell, o: Obj)
    requires s !in h
    ensures |NewOwners(h[s := c], o)| == |NewOwners(h, o)| + if OwnsNew(c, o) then 1 else 0
  {
    var owners := NewOwners(h, o);
    if OwnsNew(c, o) {
      assert NewOwners(h[s := c], o) == owners + {s};
    } else {
      assert NewOwners(h[s := c], o) == owners;
    }
  }

  lemma AddReferences(h: Holders, s: Slot, c: Cell, o: Obj)
    requires s !in h
    ensures References(h[s := c], o) == References(h, o) + Weight(c, o)
  {
    hide OldOwners, NewOwners;
    AddOldOwner(h, s, c, o);
    AddNewOwner(h, s, c, o);
  }

  lemma UpdateReferences(h: Holders, s: Slot, c: Cell, o: Obj)
    requires s in h
    ensures References(h[s := c], o) == References(h, o) - Weight(h[s], o) + Weight(c, o)
  {
    RemoveReferences(h, s, o);
    AddReferences(h - {s}, s, c, o);
    assert (h - {s})[s := c] == h[s := c];
  }

  lemma NoReferences(h: Holders, o: Obj)
    requires forall s | s in h :: Weight(h[s], o) == 0
    ensures References(h, o) == 0
  {
  }

  lemma OwnerCounts(h: Holders, s: Slot, o: Obj)
    requires s in h
    ensures Weight(h[s], o) <= References(h, o)
  {
    RemoveReferences(h, s, o);
  }

  lemma TwoOwnersCount(h: Holders, s: Slot, t: Slot, o: Obj)
    requires s in h && t in h && s != t
    ensures Weight(h[s], o) + Weight(h[t], o) <= References(h, o)
  {
    RemoveReferences(h, s, o);
    RemoveReferences(h - {s}, t, o);
  }

  // ---- the invariant ---------------------------------------------------------------

  /** The count of every live object is the number of references to it. */
  ghost predicate Accounted(st: State) {
    forall o | o in st.objs && st.objs[o].deletions == 0 :: st.objs[o].count == References(st.holders, o)
  }

  /** An operation that re-reads its source finds the same pointer, and nobody changes the source. */
  predicate Pinned(h: Holders, s: Slot)
    requires s in h
  {
    match SourceOf(h[s].pc)
    case FromSlot(q) => q in h && h[q].ptr == Target(h[s]) && (q != s ==> h[q].pc.Idle?) && (h[s].pc.Counting? ==> q != s)
    case FromNew => Target(h[s]).Some?
    case Given => !h[s].pc.Counting? && (h[s].pc.IncNew? ==> h[s].pc.target.None?)
  }

  /** What every holder names and owns is there. */
  predicate CellOk(st: State, s: Slot)
    requires s in st.holders
  {
    var c := st.holders[s];
    && Pinned(st.holders, s)
    && (c.ptr.Some? && OwnsOld(c, c.ptr.value) ==> Live(st, c.ptr.value))
    && (Pending(c.pc).Some? ==> Live(st, Pending(c.pc).value))
    && (Target(c).Some? && Claims(c, Target(c).value) ==> Unreferenced(st, Target(c).value))
    && (c.pc.Counting? || c.pc.Peeked? || c.pc.Deleting? ==> c.ptr.Some?)
    && (c.pc.Deleting? ==> Unreferenced(st, c.ptr.value))
    && (c.pc.Peeked? && c.pc.users == 1 ==> c.ptr.value in st.objs && st.objs[c.ptr.value].count == 1)
  }

  predicate Unreferenced(st: State, o: Obj) {
    Live(st, o) && st.objs[o].count == 0 && o !in st.unclaimed
  }

  ghost predicate CellsOk(st: State) {
    forall s | s in st.holders :: CellOk(st, s)
  }

  /** An unreferenced object is in the hands of exactly one holder. */
  predicate InHand(c: Cell, o: Obj) {
    Claims(c, o) || Deletes(c, o)
  }

  ghost predicate OneHand(st: State) {
    forall s, t, o | s in st.holders && t in st.holders && InHand(st.holders[s], o) && InHand(st.holders[t], o) :: s == t
  }

  ghost predicate NothingLost(st: State) {
    forall o | o in st.objs && st.objs[o].deletions == 0 && st.objs[o].count == 0 ::
      o in st.unclaimed || exists s :: s in st.holders && InHand(st.holders[s], o)
  }

  ghost predicate Inv(st: State) {
    && Accounted(st) && CellsOk(st) && OneHand(st) && NothingLost(st)
    && (forall o | o in st.unclaimed :: Live(st, o) && st.objs[o].count == 0)
    && (forall o | o in st.objs :: st.objs[o].deletions <= 1)
  }

  lemma StartIsSafe()
    ensures Inv(START)
  {
  }

  // ---- one lemma for all steps -----------------------------------------------------

  predicate HasInHand(h: Holders, s: Slot, o: Obj) {
    s in h && InHand(h[s], o)
  }

  /** Holders outside `who` do not change and read nothing inside it. */
  ghost predicate Local(h: Holders, h': Holders, who: set<Slot>) {
    forall t | t !in who && (t in h || t in h') ::
      t in h && t in h' && h'[t] == h[t] && !(SourceOf(h[t].pc).FromSlot? && SourceOf(h[t].pc).q in who)
  }

  /** Objects other than x do not change, and the holders at work keep what they have of them. */
  ghost predicate Concerns(st: State, st': State, who: set<Slot>, x: Obj) {
    && (forall o | o != x :: (o in st.objs <==> o in st'.objs) && (o in st.unclaimed <==> o in st'.unclaimed))
    && (forall o | o != x && o in st.objs :: st'.objs[o] == st.objs[o])
    && (forall o | o != x :: References(st'.holders, o) == References(st.holders, o))
    && (forall s, o | s in who && o != x :: HasInHand(st'.holders, s, o) <==> HasInHand(st.holders, s, o))
  }

  /** For holder c the object x is as good after the step as it was before. */
  predicate Undisturbed(st: State, st': State, c: Cell, x: Obj) {
    && (Weight(c, x) > 0 || InHand(c, x) ==> Live(st', x))
    && (InHand(c, x) ==> Live(st, x) && Live(st', x) && st'.objs[x].count == st.objs[x].count && x !in st'.unclaimed)
    && (OwnsOld(c, x) && c.pc.Peeked? && c.pc.users == 1 ==> x in st'.objs && st'.objs[x].count == 1)
  }

  /** What is asked of x itself. */
  ghost predicate Settled(st: State, st': State, who: set<Slot>, x: Obj) {
    && (x in st'.objs ==> st'.objs[x].deletions <= 1)
    && (x in st'.unclaimed ==> Live(st', x) && st'.objs[x].count == 0)
    && (Live(st', x) ==> st'.objs[x].count == References(st'.holders, x))
    && (Live(st', x) && st'.objs[x].count == 0 ==>
          x in st'.unclaimed || exists s :: HasInHand(st'.holders, s, x))
    && (forall s, t | HasInHand(st'.holders, s, x) && HasInHand(st'.holders, t, x) :: s == t)
  }

  lemma BystandersOk(st: State, st': State, who: set<Slot>, x: Obj)
    requires CellsOk(st) && Local(st.holders, st'.holders, who) && Concerns(st, st', who, x)
    requires forall t | t in st.holders && t !in who :: Undisturbed(st, st', st.holders[t], x)
    ensures forall t | t in st'.holders && t !in who :: CellOk(st', t)
  {
  }

  /** The invariant survives a step that is local to some holders and concerns one object. */
  lemma StepIsSafe(st: State, st': State, who: set<Slot>, x: Obj)
    requires Inv(st) && Local(st.holders, st'.holders, who) && Concerns(st, st', who, x)
    requires forall t | t in st.holders && t !in who :: Undisturbed(st, st', st.holders[t], x)
    requires forall s | s in who && s in st'.holders :: CellOk(st', s)
    requires Settled(st, st', who, x)
    ensures Inv(st')
  {
    BystandersOk(st, st', who, x);
    assert CellsOk(st');
    HandsKept(st, st', who, x);
  }

  lemma HandsKept(st: State, st': State, who: set<Slot>, x: Obj)
    requires OneHand(st) && NothingLost(st)
    requires Local(st.holders, st'.holders, who) && Concerns(st, st', who, x) && Settled(st, st', who, x)
    ensures OneHand(st') && NothingLost(st')
  {
    forall s, o | o != x
      ensures HasInHand(st'.holders, s, o) <==> HasInHand(st.holders, s, o)
    {
    }
    forall s, t, o | s in st'.holders && t in st'.holders && InHand(st'.holders[s], o) && InHand(st'.holders[t], o)
      ensures s == t
    {
      assert HasInHand(st'.holders, s, o) && HasInHand(st'.holders, t, o);
      if o != x {
        assert HasInHand(st.holders, s, o) && HasInHand(st.holders, t, o);
      }
    }
    forall o | o in st'.objs && st'.objs[o].deletions == 0 && st'.objs[o].count == 0 && o !in st'.unclaimed
      ensures exists s :: s in st'.holders && InHand(st'.holders[s], o)
    {
      if o != x {
        var s :| s in st.holders && InHand(st.holders[s], o);
        assert HasInHand(st.holders, s, o) && HasInHand(st'.holders, s, o);
      } else {
        var s :| HasInHand(st'.holders, s, x);
      }
    }
  }

  // ---- the steps -------------------------------------------------------------------

  /** Nobody reads a holder that is not idle. */
  lemma BusyIsUnread(st: State, s: Slot)
    requires CellsOk(st) && s in st.holders && !st.holders[s].pc.Idle?
    ensures forall t | t in st.holders && t != s :: SourceOf(st.holders[t].pc) != FromSlot(s)
  {
  }

  lemma AbsentIsUnread(st: State, s: Slot)
    requires CellsOk(st) && s !in st.holders
    ensures Unread(st.holders, s)
  {
  }

  lemma AbsentIsUnowned(st: State, o: Obj)
    requires CellsOk(st) && o !in st.objs
    ensures forall t | t in st.holders :: Weight(st.holders[t], o) == 0 && !InHand(st.holders[t], o)
    ensures References(st.holders, o) == 0
  {
  }

  /** While holder q owns a reference, nobody has the object in hand, and nobody else thinks to be alone. */
  lemma OwnedSomewhere(st: State, q: Slot, o: Obj)
    requires Inv(st) && q in st.holders && Weight(st.holders[q], o) > 0
    ensures Live(st, o) && st.objs[o].count == References(st.holders, o) >= Weight(st.holders[q], o)
    ensures forall t | t in st.holders :: !InHand(st.holders[t], o)
    ensures forall t | t in st.holders && t != q ::
              !(OwnsOld(st.holders[t], o) && st.holders[t].pc.Peeked? && st.holders[t].pc.users == 1)
  {
    assert CellOk(st, q);
    OwnerCounts(st.holders, q, o);
    forall t | t in st.holders
      ensures !InHand(st.holders[t], o)
      ensures t != q ==> !(OwnsOld(st.holders[t], o) && st.holders[t].pc.Peeked? && st.holders[t].pc.users == 1)
    {
      assert CellOk(st, t);
      if t != q {
        TwoOwnersCount(st.holders, q, t, o);
      }
    }
  }

  lemma NewKeeps(st: State, o: Obj)
    requires Inv(st) && Enabled(st, New(o))
    ensures Inv(Apply(st, New(o)))
  {
  }

  lemma AllocKeeps(st: State, o: Obj, r: Slot)
    requires Inv(st) && Enabled(st, Alloc(o, r))
    ensures Inv(Apply(st, Alloc(o, r)))
  {
    hide OneHand, NothingLost, References;
    var st' := Apply(st, Alloc(o, r));
    AbsentIsUnowned(st, o);
    AbsentIsUnread(st, r);
    forall x {
      AddReferences(st.holders, r, st'.holders[r], x);
    }
    StepIsSafe(st, st', {r}, o);
  }

  /** A constructor or an assignment counts its target o and goes on as c. */
  ghost predicate Gains(st: State, s: Slot, o: Obj, c: Cell) {
    && s in st.holders && o in st.objs
    && var was := st.holders[s];
    && (|| (was.pc.Counting? && was.ptr == Some(o) && c == was.(pc := Idle))
        || (was.pc.IncNew? && was.pc.target == Some(o) && c == was.(pc := Releasing(ThenStore(Some(o), was.pc.src)))))
  }

  function Gained(st: State, s: Slot, o: Obj, c: Cell): State
    requires o in st.objs
  {
    st.(objs := Counted(st.objs, o, 1), holders := st.holders[s := c])
  }

  lemma GainWeights(st: State, s: Slot, o: Obj, c: Cell, x: Obj)
    requires Gains(st, s, o, c)
    ensures Weight(c, x) == Weight(st.holders[s], x) + if x == o then 1 else 0
    ensures x != o ==> (InHand(c, x) <==> InHand(st.holders[s], x))
  {
  }

  lemma GainReferences(st: State, s: Slot, o: Obj, c: Cell, x: Obj)
    requires Gains(st, s, o, c)
    ensures References(st.holders[s := c], x) == References(st.holders, x) + if x == o then 1 else 0
  {
    hide References, Weight, Gains;
    GainWeights(st, s, o, c, x);
    assert s in st.holders by { GainsWhere(st, s, o, c); }
    UpdateReferences(st.holders, s, c, x);
  }

  lemma GainsWhere(st: State, s: Slot, o: Obj, c: Cell)
    requires Gains(st, s, o, c)
    ensures s in st.holders && o in st.objs && !st.holders[s].pc.Idle?
  {
  }

  /** Such a step touches nothing but s and o, and o has one reference more. */
  lemma GainIsLocal(st: State, s: Slot, o: Obj, c: Cell)
    requires Inv(st) && Gains(st, s, o, c)
    ensures var st' := Gained(st, s, o, c);
            && Local(st.holders, st'.holders, {s}) && Concerns(st, st', {s}, o)
            && References(st'.holders, o) == References(st.holders, o) + 1
  {
    hide Accounted, OneHand, NothingLost, References, Weight, InHand, Gains;
    GainsWhere(st, s, o, c);
    BusyIsUnread(st, s);
    forall x
      ensures References(st.holders[s := c], x) == References(st.holders, x) + if x == o then 1 else 0
      ensures x != o ==> (InHand(c, x) <==> InHand(st.holders[s], x))
    {
      GainReferences(st, s, o, c, x);
      GainWeights(st, s, o, c, x);
    }
  }

  /** A holder that names o keeps it alive while another one counts it. */
  lemma GainFromSlot(st: State, s: Slot, o: Obj, c: Cell)
    requires Inv(st) && Gains(st, s, o, c) && SourceOf(st.holders[s].pc).FromSlot?
    ensures Inv(Gained(st, s, o, c))
  {
    hide OneHand, NothingLost, References, Local, Concerns;
    assert CellOk(st, s);
    GainIsLocal(st, s, o, c);
    OwnedSomewhere(st, SourceOf(st.holders[s].pc).q, o);
    StepIsSafe(st, Gained(st, s, o, c), {s}, o);
  }

  /** The holder that has claimed a new object is the only one to know it. */
  lemma GainFromNew(st: State, s: Slot, o: Obj, c: Cell)
    requires Inv(st) && Gains(st, s, o, c) && !SourceOf(st.holders[s].pc).FromSlot?
    ensures Inv(Gained(st, s, o, c))
  {
    hide OneHand, NothingLost, References, Local, Concerns;
    assert CellOk(st, s);
    GainIsLocal(st, s, o, c);
    ClaimedAlone(st, s, o);
    StepIsSafe(st, Gained(st, s, o, c), {s}, o);
  }

  lemma CountKeeps(st: State, s: Slot)
    requires Inv(st) && Enabled(st, Count(s))
    ensures Inv(Apply(st, Count(s)))
  {
    hide Inv;
    var c := st.holders[s];
    if SourceOf(c.pc).FromSlot? {
      GainFromSlot(st, s, c.ptr.value, c.(pc := Idle));
    } else {
      GainFromNew(st, s, c.ptr.value, c.(pc := Idle));
    }
  }

  /** An object in the hand of one holder is referenced by none. */
  lemma ClaimedAlone(st: State, s: Slot, o: Obj)
    requires Inv(st) && HasInHand(st.holders, s, o)
    ensures Live(st, o) && st.objs[o].count == References(st.holders, o) == 0
    ensures forall t | t in st.holders :: Weight(st.holders[t], o) == 0 && (t != s ==> !InHand(st.holders[t], o))
  {
    assert CellOk(st, s);
    forall t | t in st.holders
      ensures Weight(st.holders[t], o) == 0 && (t != s ==> !InHand(st.holders[t], o))
    {
      OwnerCounts(st.holders, t, o);
    }
  }

  /** A step that touches no object and moves no reference. */
  lemma QuietStepIsSafe(st: State, st': State, who: set<Slot>)
    requires Inv(st) && st'.objs == st.objs && st'.unclaimed == st.unclaimed
    requires Local(st.holders, st'.holders, who)
    requires forall o :: References(st'.holders, o) == References(st.holders, o)
    requires forall s, o | s in who :: HasInHand(st'.holders, s, o) <==> HasInHand(st.holders, s, o)
    requires forall s | s in who && s in st'.holders :: CellOk(st', s)
    ensures Inv(st')
  {
    forall t | t in st.holders && t !in who
      ensures Undisturbed(st, st', st.holders[t], 0)
    {
      assert CellOk(st, t);
    }
    assert Settled(st, st', who, 0) by {
      forall s
        ensures HasInHand(st'.holders, s, 0) <==> HasInHand(st.holders, s, 0)
      {
      }
      if Live(st, 0) && st.objs[0].count == 0 && 0 !in st.unclaimed {
        var s :| s in st.holders && InHand(st.holders[s], 0);
        assert HasInHand(st'.holders, s, 0);
      }
    }
    StepIsSafe(st, st', who, 0);
  }

  lemma ConstructKeeps(st: State, s: Slot, src: Source, p: Option<Obj>)
    requires Inv(st) && Enabled(st, Construct(s, src, p))
    ensures Inv(Apply(st, Construct(s, src, p)))
  {
    hide OneHand, NothingLost, References;
    var st' := Apply(st, Construct(s, src, p));
    AbsentIsUnread(st, s);
    forall x {
      AddReferences(st.holders, s, st'.holders[s], x);
    }
    if src == FromNew {
      UnclaimedAlone(st, p.value);
      assert HasInHand(st'.holders, s, p.value);
      StepIsSafe(st, st', {s}, p.value);
    } else {
      QuietStepIsSafe(st, st', {s});
    }
  }

  lemma UnclaimedAlone(st: State, o: Obj)
    requires Inv(st) && o in st.unclaimed
    ensures Live(st, o) && st.objs[o].count == References(st.holders, o) == 0
    ensures forall t | t in st.holders :: Weight(st.holders[t], o) == 0 && !InHand(st.holders[t], o)
  {
    forall t | t in st.holders
      ensures Weight(st.holders[t], o) == 0 && !InHand(st.holders[t], o)
    {
      assert CellOk(st, t);
      OwnerCounts(st.holders, t, o);
    }
  }

  lemma AssignNewKeeps(st: State, s: Slot, o: Obj)
    requires Inv(st) && Enabled(st, Assign(s, FromNew, Some(o)))
    ensures Inv(Apply(st, Assign(s, FromNew, Some(o))))
  {
    hide OneHand, NothingLost, References;
    var st' := Apply(st, Assign(s, FromNew, Some(o)));
    assert CellOk(st, s);
    forall x {
      UpdateReferences(st.holders, s, st'.holders[s], x);
    }
    UnclaimedAlone(st, o);
    assert HasInHand(st'.holders, s, o);
    StepIsSafe(st, st', {s}, o);
  }

  lemma AssignKeeps(st: State, s: Slot, src: Source, p: Option<Obj>)
    requires Inv(st) && Enabled(st, Assign(s, src, p))
    ensures Inv(Apply(st, Assign(s, src, p)))
  {
    hide OneHand, NothingLost, References;
    if src == FromNew {
      AssignNewKeeps(st, s, p.value);
    } else {
      var st' := Apply(st, Assign(s, src, p));
      assert CellOk(st, s);
      forall x {
        UpdateReferences(st.holders, s, st'.holders[s], x);
      }
      QuietStepIsSafe(st, st', {s});
    }
  }

  lemma IncrementKeeps(st: State, s: Slot)
    requires Inv(st) && Enabled(st, Increment(s))
    ensures Inv(Apply(st, Increment(s)))
  {
    hide OneHand, NothingLost, References;
    if st.holders[s].pc.target.None? {
      IncrementNothing(st, s);
    } else {
      IncrementTargetKeeps(st, s, st.holders[s].pc.target.value);
    }
  }

  lemma IncrementNothing(st: State, s: Slot)
    requires Inv(st) && Enabled(st, Increment(s)) && st.holders[s].pc.target.None?
    ensures Inv(Apply(st, Increment(s)))
  {
    hide OneHand, NothingLost, References;
    var st' := Apply(st, Increment(s));
    assert CellOk(st, s);
    BusyIsUnread(st, s);
    forall x {
      UpdateReferences(st.holders, s, st'.holders[s], x);
    }
    QuietStepIsSafe(st, st', {s});
  }

  lemma IncrementTargetKeeps(st: State, s: Slot, o: Obj)
    requires Inv(st) && Enabled(st, Increment(s)) && st.holders[s].pc.target == Some(o)
    ensures Inv(Apply(st, Increment(s)))
  {
    hide Inv;
    var c := st.holders[s];
    var c' := c.(pc := Releasing(ThenStore(Some(o), c.pc.src)));
    if SourceOf(c.pc).FromSlot? {
      GainFromSlot(st, s, o, c');
    } else {
      GainFromNew(st, s, o, c');
    }
  }

  lemma StoreKeeps(st: State, s: Slot)
    requires Inv(st) && Enabled(st, Store(s))
    ensures Inv(Apply(st, Store(s)))
  {
    hide OneHand, NothingLost, References;
    var st' := Apply(st, Store(s));
    assert CellOk(st, s);
    BusyIsUnread(st, s);
    forall x {
      UpdateReferences(st.holders, s, st'.holders[s], x);
    }
    QuietStepIsSafe(st, st', {s});
  }

  lemma DropKeeps(st: State, s: Slot)
    requires Inv(st) && Enabled(st, Drop(s))
    ensures Inv(Apply(st, Drop(s)))
  {
    hide OneHand, NothingLost, References;
    var st' := Apply(st, Drop(s));
    assert CellOk(st, s);
    forall x {
      UpdateReferences(st.holders, s, st'.holders[s], x);
    }
    QuietStepIsSafe(st, st', {s});
  }

  lemma PeekKeeps(st: State, s: Slot)
    requires Inv(st) && Enabled(st, Peek(s))
    ensures Inv(Apply(st, Peek(s)))
  {
    hide OneHand, NothingLost, References;
    var st' := Apply(st, Peek(s));
    assert CellOk(st, s);
    BusyIsUnread(st, s);
    forall x {
      UpdateReferences(st.holders, s, st'.holders[s], x);
    }
    QuietStepIsSafe(st, st', {s});
  }

  /** The holder after Released: what it still owns, and that it is in order. */
  lemma ReleasedOk(st: State, st': State, s: Slot, after: After)
    requires CellsOk(st) && s in st.holders && (st.holders[s].pc.Releasing? || st.holders[s].pc.Peeked? || st.holders[s].pc.Deleting?)
    requires after == st.holders[s].pc.after && st'.holders == Released(st.holders, s, after)
    requires Pending(st.holders[s].pc).Some? ==> Live(st', Pending(st.holders[s].pc).value)
    ensures s in st'.holders ==> CellOk(st', s)
    ensures Local(st.holders, st'.holders, {s})
    ensures forall o :: !HasInHand(st'.holders, s, o)
    ensures forall o :: References(st'.holders, o)
                        == References(st.holders, o) - (if OwnsOld(st.holders[s], o) then 1 else 0)
  {
    hide References;
    assert CellOk(st, s);
    BusyIsUnread(st, s);
    forall o
      ensures References(st'.holders, o)
              == References(st.holders, o) - (if OwnsOld(st.holders[s], o) then 1 else 0)
    {
      if after.ThenGone? {
        RemoveReferences(st.holders, s, o);
      } else {
        UpdateReferences(st.holders, s, st'.holders[s], o);
      }
    }
  }

  lemma DecrementKeeps(st: State, s: Slot)
    requires Inv(st) && Enabled(st, Decrement(s))
    ensures Inv(Apply(st, Decrement(s)))
  {
    hide OneHand, NothingLost, References;
    var st' := Apply(st, Decrement(s));
    assert CellOk(st, s);
    if st.holders[s].ptr.None? {
      ReleasedOk(st, st', s, st.holders[s].pc.after);
      QuietStepIsSafe(st, st', {s});
    } else {
      var o := st.holders[s].ptr.value;
      OwnedSomewhere(st, s, o);
      if st.objs[o].count == 1 {
        LastDecrementKeeps(st, s, o, st');
      } else {
        ReleasedOk(st, st', s, st.holders[s].pc.after);
        StepIsSafe(st, st', {s}, o);
      }
    }
  }

  /** The only owner of an object is alone with it. */
  lemma SoleOwner(st: State, s: Slot, o: Obj)
    requires Inv(st) && s in st.holders && OwnsOld(st.holders[s], o) && o in st.objs && st.objs[o].count == 1
    ensures Live(st, o) && References(st.holders, o) == 1 && Weight(st.holders[s], o) == 1
    ensures forall t | t in st.holders :: !InHand(st.holders[t], o) && (t != s ==> Weight(st.holders[t], o) == 0)
  {
    hide OneHand, NothingLost, References;
    OwnedSomewhere(st, s, o);
    forall t | t in st.holders && t != s
      ensures Weight(st.holders[t], o) == 0
    {
      TwoOwnersCount(st.holders, s, t, o);
    }
  }

  lemma LastDecrementKeeps(st: State, s: Slot, o: Obj, st': State)
    requires Inv(st) && s in st.holders && OwnsOld(st.holders[s], o) && (st.holders[s].pc.Releasing? || st.holders[s].pc.Peeked?)
    requires o in st.objs && st.objs[o].count == 1
    requires var pc := Deleting(st.holders[s].pc.after);
             st' == st.(objs := Counted(st.objs, o, -1), holders := st.holders[s := st.holders[s].(pc := pc)])
    ensures Inv(st')
  {
    hide OneHand, NothingLost, References;
    assert CellOk(st, s);
    BusyIsUnread(st, s);
    SoleOwner(st, s, o);
    forall x {
      UpdateReferences(st.holders, s, st'.holders[s], x);
    }
    assert HasInHand(st'.holders, s, o);
    StepIsSafe(st, st', {s}, o);
  }

  lemma DeleteUncountedKeeps(st: State, s: Slot)
    requires Inv(st) && Enabled(st, DeleteUncounted(s))
    ensures Inv(Apply(st, DeleteUncounted(s)))
  {
    hide OneHand, NothingLost, References;
    var st' := Apply(st, DeleteUncounted(s));
    var o := st.holders[s].ptr.value;
    assert CellOk(st, s);
    SoleOwner(st, s, o);
    ReleasedOk(st, st', s, st.holders[s].pc.after);
    StepIsSafe(st, st', {s}, o);
  }

  lemma DeleteKeeps(st: State, s: Slot)
    requires Inv(st) && Enabled(st, Delete(s))
    ensures Inv(Apply(st, Delete(s)))
  {
    hide OneHand, NothingLost, References;
    var st' := Apply(st, Delete(s));
    var o := st.holders[s].ptr.value;
    assert CellOk(st, s);
    assert HasInHand(st.holders, s, o);
    ClaimedAlone(st, s, o);
    ReleasedOk(st, st', s, st.holders[s].pc.after);
    StepIsSafe(st, st', {s}, o);
  }

  // ---- references that change hands ------------------------------------------------

  lemma AdoptKeeps(st: State, s: Slot, r: Slot)
    requires Inv(st) && Enabled(st, Adopt(s, r))
    ensures Inv(Apply(st, Adopt(s, r)))
  {
    hide OneHand, NothingLost, References;
    var st' := Apply(st, Adopt(s, r));
    assert CellOk(st, r);
    AbsentIsUnread(st, s);
    forall x
      ensures References(st'.holders, x) == References(st.holders, x)
    {
      RemoveReferences(st.holders, r, x);
      AddReferences(st.holders - {r}, s, st'.holders[s], x);
    }
    QuietStepIsSafe(st, st', {s, r});
  }

  lemma AdoptAssignKeeps(st: State, s: Slot, r: Slot)
    requires Inv(st) && Enabled(st, AdoptAssign(s, r))
    ensures Inv(Apply(st, AdoptAssign(s, r)))
  {
    hide OneHand, NothingLost, References;
    var st' := Apply(st, AdoptAssign(s, r));
    assert CellOk(st, r) && CellOk(st, s);
    forall x
      ensures References(st'.holders, x) == References(st.holders, x)
    {
      RemoveReferences(st.holders, r, x);
      UpdateReferences(st.holders - {r}, s, st'.holders[s], x);
    }
    QuietStepIsSafe(st, st', {s, r});
  }

  lemma DetachKeeps(st: State, s: Slot, r: Slot)
    requires Inv(st) && Enabled(st, Detach(s, r))
    ensures Inv(Apply(st, Detach(s, r)))
  {
    hide OneHand, NothingLost, References;
    var st' := Apply(st, Detach(s, r));
    assert CellOk(st, s);
    AbsentIsUnread(st, r);
    var mid := st.holders[r := Cell(Raw, st.holders[s].ptr, Idle)];
    forall x
      ensures References(st'.holders, x) == References(st.holders, x)
    {
      AddReferences(st.holders, r, mid[r], x);
      UpdateReferences(mid, s, st'.holders[s], x);
    }
    QuietStepIsSafe(st, st', {s, r});
  }

  /** Every step keeps the invariant. */
  lemma StepKeeps(st: State, step: Step)
    requires Inv(st) && Enabled(st, step)
    ensures Inv(Apply(st, step))
  {
    hide Inv, Enabled, Apply;
    match step
    case New(o) => NewKeeps(st, o);
    case Alloc(o, r) => AllocKeeps(st, o, r);
    case Construct(s, src, p) => ConstructKeeps(st, s, src, p);
    case Count(s) => CountKeeps(st, s);
    case Adopt(s, r) => AdoptKeeps(st, s, r);
    case Assign(s, src, p) => AssignKeeps(st, s, src, p);
    case Increment(s) => IncrementKeeps(st, s);
    case AdoptAssign(s, r) => AdoptAssignKeeps(st, s, r);
    case Decrement(s) => DecrementKeeps(st, s);
    case Peek(s) => PeekKeeps(st, s);
    case DeleteUncounted(s) => DeleteUncountedKeeps(st, s);
    case Delete(s) => DeleteKeeps(st, s);
    case Store(s) => StoreKeeps(st, s);
    case Drop(s) => DropKeeps(st, s);
    case Detach(s, r) => DetachKeeps(st, s, r);
  }

  // ---- runs ------------------------------------------------------------------------

  predicate Runs(st: State, steps: seq<Step>)
    decreases |steps|
  {
    |steps| == 0 || (Enabled(st, steps[0]) && Runs(Apply(st, steps[0]), steps[1..]))
  }

  function Reached(st: State, steps: seq<Step>): State
    requires Runs(st, steps)
    decreases |steps|
  {
    if |steps| == 0 then st else Reached(Apply(st, steps[0]), steps[1..])
  }

  lemma {:induction false} RunKeeps(st: State, steps: seq<Step>)
    requires Inv(st) && Runs(st, steps)
    ensures Inv(Reached(st, steps))
    decreases |steps|
  {
    hide Inv, Enabled, Apply;
    if |steps| > 0 {
      StepKeeps(st, steps[0]);
      RunKeeps(Apply(st, steps[0]), steps[1..]);
    }
  }

  /**
    In every interleaving: the count of an object that has not been deleted is the number of its
    references, no object is deleted twice, and no settled holder names a deleted object.
   */
  lemma EveryRunIsSafe(steps: seq<Step>)
    requires Runs(START, steps)
    ensures var st := Reached(START, steps);
            && Inv(st)
            && (forall o | Live(st, o) :: st.objs[o].count == References(st.holders, o))
            && (forall o | o in st.objs :: st.objs[o].deletions <= 1)
            && (forall s | s in st.holders && st.holders[s].pc.Idle? && st.holders[s].ptr.Some? ::
                  Live(st, st.holders[s].ptr.value))
  {
    StartIsSafe();
    RunKeeps(START, steps);
    var st := Reached(START, steps);
    forall s | s in st.holders && st.holders[s].pc.Idle? && st.holders[s].ptr.Some?
      ensures Live(st, st.holders[s].ptr.value)
    {
      assert CellOk(st, s);
    }
  }

  /** Every object that an operation in flight is about to count, release or delete is still there. */
  lemma NoUseAfterDelete(st: State, s: Slot)
    requires Inv(st) && s in st.holders
    ensures var c := st.holders[s];
            && (c.pc.Counting? ==> HasOld(st, s) && Live(st, c.ptr.value))
            && (c.pc.IncNew? && c.pc.target.Some? ==> Live(st, c.pc.target.value))
            && ((c.pc.Releasing? || c.pc.Peeked? || c.pc.Deleting?) && c.ptr.Some? ==> Live(st, c.ptr.value))
            && (c.pc.Storing? && c.pc.src.FromSlot? ==> c.pc.src.q in st.holders)
            && (c.pc.Storing? ==> Reread(st.holders, c.pc.target, c.pc.src) == c.pc.target)
  {
  }

  /** A deletion leaves no reference behind, and an object that loses its last one is being deleted. */
  lemma DeletedExactlyAtZero(st: State, step: Step, o: Obj)
    requires Inv(st) && Enabled(st, step) && Live(st, o)
    ensures var st' := Apply(st, step);
            && o in st'.objs
            && (st'.objs[o].deletions > 0 ==> References(st'.holders, o) == 0)
            && (Live(st', o) && References(st.holders, o) > 0 && References(st'.holders, o) == 0 ==>
                  exists s :: s in st'.holders && Deletes(st'.holders[s], o))
  {
    hide OneHand, References;
    var st' := Apply(st, step);
    StepKeeps(st, step);
    ObjectsStay(st, step, o);
    if st'.objs[o].deletions > 0 {
      forall s | s in st'.holders
        ensures Weight(st'.holders[s], o) == 0
      {
        assert CellOk(st', s);
      }
      NoReferences(st'.holders, o);
    } else if References(st.holders, o) > 0 && References(st'.holders, o) == 0 {
      var s :| s in st'.holders && InHand(st'.holders[s], o);
      NotClaimed(st, step, s, o);
    }
  }

  lemma ObjectsStay(st: State, step: Step, o: Obj)
    requires Inv(st) && Enabled(st, step) && Live(st, o) && Inv(Apply(st, step))
    ensures o in Apply(st, step).objs
    ensures o in Apply(st, step).unclaimed ==> o in st.unclaimed
  {
  }

  /** Only an object without references can be claimed. */
  lemma NotClaimed(st: State, step: Step, s: Slot, o: Obj)
    requires Inv(st) && Enabled(st, step) && Live(st, o) && References(st.holders, o) > 0
    requires s in Apply(st, step).holders
    ensures !Claims(Apply(st, step).holders[s], o)
  {
    hide OneHand, NothingLost, References;
    assert st.objs[o].count > 0;
    if s in st.holders {
      assert CellOk(st, s);
    }
  }

  /** When nothing is in flight, the deleted objects are exactly those that no holder names. */
  lemma AtRest(st: State, o: Obj)
    requires Inv(st) && o in st.objs && o !in st.unclaimed
    requires forall s | s in st.holders :: st.holders[s].pc.Idle?
    ensures st.objs[o].deletions == 1 <==> forall s | s in st.holders :: st.holders[s].ptr != Some(o)
  {
  }

  /** A self-assignment after its increment. */
  function SelfCounted(st: State, s: Slot, o: Obj): State
    requires o in st.objs && s in st.holders
  {
    var pc := Releasing(ThenStore(Some(o), FromSlot(s)));
    st.(objs := Counted(st.objs, o, 1), holders := st.holders[s := st.holders[s].(pc := pc)])
  }

  /** ... and after its decrement, which cannot be the last one. */
  function SelfReleased(st: State, s: Slot, o: Obj): State
    requires s in st.holders
  {
    st.(holders := st.holders[s := st.holders[s].(pc := Storing(Some(o), FromSlot(s)))])
  }

  lemma SelfIncrement(st: State, s: Slot, o: Obj)
    requires Ready(st.holders, s, Sptr) && st.holders[s].ptr == Some(o) && o in st.objs
    ensures var enter := Assign(s, FromSlot(s), Some(o));
            && Enabled(st, enter) && Enabled(Apply(st, enter), Increment(s))
            && Apply(Apply(st, enter), Increment(s)) == SelfCounted(st, s, o)
  {
  }

  lemma SelfDecrement(st: State, s: Slot, o: Obj)
    requires Ready(st.holders, s, Sptr) && st.holders[s].ptr == Some(o) && o in st.objs && st.objs[o].count > 0
    ensures var counted := SelfCounted(st, s, o);
            Enabled(counted, Decrement(s)) && Apply(counted, Decrement(s)) == SelfReleased(st, s, o)
  {
    assert Counted(Counted(st.objs, o, 1), o, -1) == st.objs;
  }

  lemma SelfStore(st: State, s: Slot, o: Obj)
    requires Ready(st.holders, s, Sptr) && st.holders[s].ptr == Some(o)
    ensures var released := SelfReleased(st, s, o);
            Enabled(released, Store(s)) && Apply(released, Store(s)) == st
  {
  }

  /** Assigning a smart pointer to itself changes nothing. */
  lemma SelfAssignment(st: State, s: Slot, o: Obj)
    requires Inv(st) && Ready(st.holders, s, Sptr) && st.holders[s].ptr == Some(o)
    ensures var enter := Assign(s, FromSlot(s), Some(o));
            && Enabled(st, enter) && Enabled(Apply(st, enter), Increment(s))
            && var counted := Apply(Apply(st, enter), Increment(s));
            && Enabled(counted, Decrement(s)) && Enabled(Apply(counted, Decrement(s)), Store(s))
            && Apply(Apply(counted, Decrement(s)), Store(s)) == st
  {
    OwnedSomewhere(st, s, o);
    hide Inv, Enabled, Apply, References, SelfCounted, SelfReleased;
    SelfIncrement(st, s, o);
    SelfDecrement(st, s, o);
    SelfStore(st, s, o);
  }
}
