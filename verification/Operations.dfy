/**
  What the operations on smart pointers come to in the machine of RefCounts: where each one ends,
  that it ends, what it does to the references, and what it deletes, whatever the other holders
  do in between.
 */
module Operations {
  import opened Collections
  import opened RefCounts

  /** What becomes of a holder. */
  datatype Ending = Names(kind: Kind, p: Option<Obj>) | Vanishes

  function AfterRelease(kind: Kind, after: After): Ending {
    match after
    case ThenStore(target, _) => Names(kind, target)
    case ThenGone => Vanishes
  }

  /** What the operation in flight will make of the holder. */
  function EndingOf(c: Cell): Ending {
    match c.pc
    case Idle => Names(c.kind, c.ptr)
    case Counting(_) => Names(c.kind, c.ptr)
    case IncNew(target, _) => Names(c.kind, target)
    case Releasing(after) => AfterRelease(c.kind, after)
    case Peeked(_, after) => AfterRelease(c.kind, after)
    case Deleting(after) => AfterRelease(c.kind, after)
    case Storing(target, _) => Names(c.kind, target)
  }

  function Prospect(h: Holders, s: Slot): Ending {
    if s in h then EndingOf(h[s]) else Vanishes
  }

  /** No operation on the holder is in flight. */
  predicate Through(h: Holders, s: Slot) {
    s in h ==> h[s].pc.Idle?
  }

  /** The holders that a step changes. */
  function Involved(step: Step): set<Slot> {
    match step
    case New(_) => {}
    case Alloc(_, r) => {r}
    case Adopt(s, r) => {s, r}
    case AdoptAssign(s, r) => {s, r}
    case Detach(s, r) => {s, r}
    case _ => {step.s}
  }

  /** The step goes on with an operation on s. */
  predicate Goes(step: Step, s: Slot) {
    (step.Count? || step.Increment? || step.Decrement? || step.Peek? || step.DeleteUncounted? || step.Delete? || step.Store?)
    && step.s == s
  }

  /** The step begins an operation. */
  predicate Begins(step: Step) {
    || step.Alloc? || step.Construct? || step.Adopt? || step.Assign? || step.AdoptAssign? || step.Drop? || step.Detach?
  }

  // ---- what is meant ---------------------------------------------------------------

  /** What an operation is to make of the holders that it involves. */
  function Meant(st: State, step: Step, t: Slot): Ending
    requires Enabled(st, step) && Begins(step)
  {
    match step
    case Alloc(o, _) => Names(Raw, Some(o))
    case Construct(_, _, p) => Names(Sptr, p)
    case Adopt(s, r) => if t == s then Names(Sptr, st.holders[r].ptr) else Vanishes
    case Assign(_, _, p) => Names(Sptr, p)
    case AdoptAssign(s, r) => if t == s then Names(Sptr, st.holders[r].ptr) else Vanishes
    case Drop(_) => Vanishes
    case Detach(s, _) => if t == s then Names(Sptr, None) else Names(Raw, st.holders[s].ptr)
  }

  function One(b: bool): int {
    if b then 1 else 0
  }

  /** How many references to o it is to bring; an adopted or detached one only changes hands. */
  function Brings(st: State, step: Step, o: Obj): int
    requires Enabled(st, step) && Begins(step)
  {
    match step
    case Alloc(x, _) => One(x == o)
    case Construct(_, _, p) => One(p == Some(o))
    case Assign(s, _, p) => One(p == Some(o)) - One(st.holders[s].ptr == Some(o))
    case AdoptAssign(s, _) => -One(st.holders[s].ptr == Some(o))
    case Drop(s) => -One(st.holders[s].ptr == Some(o))
    case _ => 0
  }

  // ---- single steps ----------------------------------------------------------------

  /** Steps that an operation on the holder has still to make, at most. */
  function Left(h: Holders, s: Slot): nat {
    if s !in h then 0 else
      match h[s].pc
      case Idle => 0
      case Counting(_) => 1
      case IncNew(_, _) => 5
      case Releasing(after) => if after.ThenGone? then 3 else 4
      case Peeked(_, after) => if after.ThenGone? then 2 else 3
      case Deleting(after) => if after.ThenGone? then 1 else 2
      case Storing(_, _) => 1
  }

  /** A step changes no holder but those it involves. */
  lemma OthersStay(st: State, step: Step, s: Slot)
    requires Enabled(st, step) && s !in Involved(step)
    ensures var h, h' := st.holders, Apply(st, step).holders;
            (s in h' <==> s in h) && (s in h ==> h'[s] == h[s])
  {
  }

  /** An operation begins as it is meant, and its other holder is through at once. */
  lemma BegunAsMeant(st: State, step: Step, t: Slot)
    requires Enabled(st, step) && Begins(step) && t in Involved(step)
    ensures Prospect(Apply(st, step).holders, t) == Meant(st, step, t)
    ensures Left(Apply(st, step).holders, t) <= (if step.Drop? then 3 else 5)
    ensures forall o :: !AtDelete(Apply(st, step).holders, t, o)
  {
  }

  /** Each further step keeps to that, comes closer to the end and leaves the other holders alone. */
  lemma GoesOn(st: State, step: Step, s: Slot)
    requires Inv(st) && Enabled(st, step) && Goes(step, s)
    ensures var h, h' := st.holders, Apply(st, step).holders;
            Prospect(h', s) == Prospect(h, s) && Left(h', s) < Left(h, s) && h' - {s} == h - {s}
    ensures Apply(st, step).objs.Keys == st.objs.Keys && Apply(st, step).unclaimed == st.unclaimed
  {
    hide Accounted, OneHand, NothingLost, References;
    assert CellOk(st, s);
  }

  /** The next step of an operation in flight; a thread that may look at the count first need not. */
  function NextStep(h: Holders, s: Slot): Step
    requires s in h && !h[s].pc.Idle?
  {
    match h[s].pc
    case Counting(_) => Count(s)
    case IncNew(_, _) => Increment(s)
    case Releasing(_) => Decrement(s)
    case Peeked(users, _) => if users == 1 then DeleteUncounted(s) else Decrement(s)
    case Deleting(_) => Delete(s)
    case Storing(_, _) => Store(s)
  }

  /** An operation in flight can always go on: nobody waits for anybody. */
  lemma CanGoOn(st: State, s: Slot)
    requires Inv(st) && !Through(st.holders, s)
    ensures Goes(NextStep(st.holders, s), s) && Enabled(st, NextStep(st.holders, s))
    ensures st.holders[s].pc.Releasing? && st.holders[s].ptr.Some? ==> Enabled(st, Peek(s))
  {
    assert CellOk(st, s);
    if SourceOf(st.holders[s].pc).FromSlot? {
      assert CellOk(st, SourceOf(st.holders[s].pc).q);
    }
  }

  /** DecUsers deletes at once if it sees the count of one, and otherwise decrements, whatever others do in between. */
  lemma PeekDecides(st: State, s: Slot, steps: seq<Step>)
    requires Inv(st) && s in st.holders && st.holders[s].pc.Releasing? && st.holders[s].ptr.Some?
    ensures Enabled(st, Peek(s))
    ensures var peeked := Apply(st, Peek(s));
            Runs(peeked, steps) && (forall i | 0 <= i < |steps| :: s !in Involved(steps[i])) ==>
              var mid := Reached(peeked, steps);
              var sole := st.objs[st.holders[s].ptr.value].count == 1;
              (Enabled(mid, DeleteUncounted(s)) <==> sole) && (Enabled(mid, Decrement(s)) <==> !sole)
  {
    hide Inv, Enabled, Apply, Involved;
    PeekReads(st, s);
    var peeked := Apply(st, Peek(s));
    if Runs(peeked, steps) && (forall i | 0 <= i < |steps| :: s !in Involved(steps[i])) {
      StepKeeps(st, Peek(s));
      StandsStill(peeked, steps, s);
      PeekedChooses(Reached(peeked, steps), s);
    }
  }

  lemma PeekReads(st: State, s: Slot)
    requires Inv(st) && s in st.holders && st.holders[s].pc.Releasing? && st.holders[s].ptr.Some?
    ensures Enabled(st, Peek(s)) && st.holders[s].ptr.value in st.objs
    ensures var c, h' := st.holders[s], Apply(st, Peek(s)).holders;
            s in h' && h'[s] == c.(pc := Peeked(st.objs[c.ptr.value].count, c.pc.after))
  {
    hide Accounted, OneHand, NothingLost;
    CanGoOn(st, s);
  }

  lemma PeekedChooses(st: State, s: Slot)
    requires Inv(st) && s in st.holders && st.holders[s].pc.Peeked?
    ensures Enabled(st, DeleteUncounted(s)) <==> st.holders[s].pc.users == 1
    ensures Enabled(st, Decrement(s)) <==> st.holders[s].pc.users != 1
  {
    hide Accounted, OneHand, NothingLost;
    CanGoOn(st, s);
  }

  lemma {:induction false} StandsStill(st: State, steps: seq<Step>, s: Slot)
    requires Inv(st) && Runs(st, steps) && s in st.holders && forall i | 0 <= i < |steps| :: s !in Involved(steps[i])
    ensures var end := Reached(st, steps);
            Inv(end) && s in end.holders && end.holders[s] == st.holders[s]
    decreases |steps|
  {
    hide Inv, Enabled, Apply, Involved;
    if |steps| > 0 {
      StepKeeps(st, steps[0]);
      OthersStay(st, steps[0], s);
      StandsStill(Apply(st, steps[0]), steps[1..], s);
    }
  }

  // ---- references ------------------------------------------------------------------

  /** References to o that holder s owns. */
  function Share(h: Holders, s: Slot, o: Obj): nat {
    if s in h then Weight(h[s], o) else 0
  }

  lemma ShareApart(h: Holders, s: Slot, o: Obj)
    ensures References(h, o) == References(h - {s}, o) + Share(h, s, o)
  {
    hide References;
    if s in h {
      RemoveReferences(h, s, o);
    } else {
      assert h - {s} == h;
    }
  }

  lemma ShareWhenThrough(h: Holders, s: Slot, o: Obj)
    requires Through(h, s)
    ensures Share(h, s, o) == One(Prospect(h, s).Names? && Prospect(h, s).p == Some(o))
  {
  }

  /** By how much the steps that involve s changed the number of references to o. */
  ghost function Earned(st: State, steps: seq<Step>, s: Slot, o: Obj): int
    requires Runs(st, steps)
    decreases |steps|
  {
    if |steps| == 0 then 0 else
      var st' := Apply(st, steps[0]);
      (if s in Involved(steps[0]) then References(st'.holders, o) - References(st.holders, o) else 0)
      + Earned(st', steps[1..], s, o)
  }

  // ---- deletions -------------------------------------------------------------------

  function Deletions(st: State, o: Obj): nat {
    if o in st.objs then st.objs[o].deletions else 0
  }

  predicate AtDelete(h: Holders, s: Slot, o: Obj) {
    s in h && Deletes(h[s], o)
  }

  /** How often the steps of s deleted o. */
  ghost function DeletedBy(st: State, steps: seq<Step>, s: Slot, o: Obj): int
    requires Runs(st, steps)
    decreases |steps|
  {
    if |steps| == 0 then 0 else
      var st' := Apply(st, steps[0]);
      (if s in Involved(steps[0]) then Deletions(st', o) - Deletions(st, o) else 0) + DeletedBy(st', steps[1..], s, o)
  }

  /** The step takes the last reference to o away. */
  ghost predicate TakesLast(st: State, step: Step, o: Obj)
    requires Enabled(st, step)
  {
    References(st.holders, o) > 0 && References(Apply(st, step).holders, o) == 0
  }

  /** How often a step of s took the last reference to o away. */
  ghost function LastTaken(st: State, steps: seq<Step>, s: Slot, o: Obj): int
    requires Runs(st, steps)
    decreases |steps|
  {
    if |steps| == 0 then 0 else
      One(s in Involved(steps[0]) && TakesLast(st, steps[0], o)) + LastTaken(Apply(st, steps[0]), steps[1..], s, o)
  }

  /** Whoever takes the last reference away deletes the object, then or in its next step; nobody else does. */
  lemma TakerDeletes(st: State, step: Step, s: Slot, o: Obj)
    requires Inv(st) && Enabled(st, step) && Goes(step, s)
    ensures var st' := Apply(st, step);
            Deletions(st', o) - Deletions(st, o) + One(AtDelete(st'.holders, s, o))
            == One(TakesLast(st, step, o)) + One(AtDelete(st.holders, s, o))
  {
    hide OneHand, NothingLost, References;
    var st' := Apply(st, step);
    assert CellOk(st, s);
    GoesOn(st, step, s);
    ShareApart(st.holders, s, o);
    ShareApart(st'.holders, s, o);
    if Share(st.holders, s, o) > 0 {
      OwnedSomewhere(st, s, o);
    }
    if AtDelete(st.holders, s, o) {
      ClaimedAlone(st, s, o);
    }
  }

  // ---- whole operations ------------------------------------------------------------

  /** No step of the run begins another operation that involves s. */
  predicate LeftAlone(steps: seq<Step>, s: Slot) {
    forall i | 0 <= i < |steps| :: Goes(steps[i], s) || s !in Involved(steps[i])
  }

  function OwnSteps(steps: seq<Step>, s: Slot): nat {
    if |steps| == 0 then 0 else (if s in Involved(steps[0]) then 1 else 0) + OwnSteps(steps[1..], s)
  }

  /**
    In every interleaving an operation in flight ends as foreseen: each of its steps brings it
    closer, the next one is always possible, and it accounts for its references and deletions.
   */
  lemma {:induction false} OperationEnds(st: State, steps: seq<Step>, s: Slot, o: Obj)
    requires Inv(st) && Runs(st, steps) && LeftAlone(steps, s)
    ensures var h, end := st.holders, Reached(st, steps);
            && Inv(end)
            && Prospect(end.holders, s) == Prospect(h, s)
            && Left(end.holders, s) + OwnSteps(steps, s) <= Left(h, s)
            && Earned(st, steps, s, o) == Share(end.holders, s, o) - Share(h, s, o)
            && DeletedBy(st, steps, s, o) + One(AtDelete(end.holders, s, o))
               == LastTaken(st, steps, s, o) + One(AtDelete(h, s, o))
    decreases |steps|
  {
    hide Inv, Enabled, Apply, References, Involved, Goes, Prospect, Left, Share, Deletions, TakesLast;
    if |steps| > 0 {
      var st' := Apply(st, steps[0]);
      StepKeeps(st, steps[0]);
      OperationEnds(st', steps[1..], s, o);
      OneMoreStep(st, steps[0], s, o);
    }
  }

  lemma OneMoreStep(st: State, step: Step, s: Slot, o: Obj)
    requires Inv(st) && Enabled(st, step) && (Goes(step, s) || s !in Involved(step))
    ensures var h, st' := st.holders, Apply(st, step);
            && Prospect(st'.holders, s) == Prospect(h, s)
            && Left(st'.holders, s) + (if s in Involved(step) then 1 else 0) <= Left(h, s)
            && (if s in Involved(step) then References(st'.holders, o) - References(h, o) else 0)
               == Share(st'.holders, s, o) - Share(h, s, o)
            && (if s in Involved(step) then Deletions(st', o) - Deletions(st, o) else 0) + One(AtDelete(st'.holders, s, o))
               == One(s in Involved(step) && TakesLast(st, step, o)) + One(AtDelete(h, s, o))
  {
    hide Inv, Enabled, Apply, References, Share, Deletions, TakesLast;
    var st' := Apply(st, step);
    if s in Involved(step) {
      GoesOn(st, step, s);
      ShareApart(st.holders, s, o);
      ShareApart(st'.holders, s, o);
      TakerDeletes(st, step, s, o);
    } else {
      OthersStay(st, step, s);
      SameShare(st.holders, st'.holders, s, o);
    }
  }

  lemma SameShare(h: Holders, h': Holders, s: Slot, o: Obj)
    requires (s in h' <==> s in h) && (s in h ==> h'[s] == h[s])
    ensures Share(h', s, o) == Share(h, s, o) && (AtDelete(h', s, o) <==> AtDelete(h, s, o))
  {
  }

  /** The holder that an operation is about. */
  function Subject(step: Step): Slot
    requires Begins(step)
  {
    if step.Alloc? then step.r else step.s
  }

  /** The subject apart, and the other holder of the operation if there is one, no reference has moved. */
  lemma BegunShares(st: State, step: Step, o: Obj)
    requires Inv(st) && Enabled(st, step) && Begins(step)
    ensures var h, h', s := st.holders, Apply(st, step).holders, Subject(step);
            References(h', o) - References(h, o) + One(Meant(st, step, s).Names? && Meant(st, step, s).p == Some(o))
            == Brings(st, step, o) + Share(h', s, o)
  {
    hide Accounted, OneHand, NothingLost, References;
    var h, h', s := st.holders, Apply(st, step).holders, Subject(step);
    if s in h {
      assert CellOk(st, s);
    }
    ShareApart(h, s, o);
    ShareApart(h', s, o);
    if step.Adopt? || step.AdoptAssign? || step.Detach? {
      ShareApart(h - {s}, step.r, o);
      ShareApart(h' - {s}, step.r, o);
      assert h - {s} - {step.r} == h' - {s} - {step.r};
    } else {
      assert h - {s} == h' - {s};
    }
  }

  /**
    Every operation ends as it is meant, in every interleaving. After at most five further steps,
    each of which is possible whatever the others do, its holders are what the operands say, its
    own steps have brought the references that it is to bring, and have deleted an object if and
    only if one of them took the last reference to it away.
   */
  lemma EveryOperationEnds(st: State, begin: Step, steps: seq<Step>, t: Slot, o: Obj)
    requires Inv(st) && Enabled(st, begin) && Begins(begin) && t in Involved(begin)
    requires Runs(Apply(st, begin), steps) && LeftAlone(steps, t)
    ensures var begun, meant := Apply(st, begin), Meant(st, begin, t);
            var end := Reached(begun, steps);
            && Inv(end)
            && Left(end.holders, t) + OwnSteps(steps, t) <= (if begin.Drop? then 3 else 5)
            && (!Through(end.holders, t) ==>
                  Goes(NextStep(end.holders, t), t) && Enabled(end, NextStep(end.holders, t)))
            && (Through(end.holders, t) ==>
                  && (meant.Vanishes? ==> t !in end.holders)
                  && (meant.Names? ==> t in end.holders && end.holders[t] == Cell(meant.kind, meant.p, Idle))
                  && DeletedBy(begun, steps, t, o) == LastTaken(begun, steps, t, o)
                  && (t == Subject(begin) ==>
                        References(begun.holders, o) - References(st.holders, o) + Earned(begun, steps, t, o)
                        == Brings(st, begin, o)))
  {
    hide Inv, Enabled, Apply, References, Meant, Brings, Left, Share, Deletions, TakesLast, LastTaken, DeletedBy, Earned;
    var begun := Apply(st, begin);
    StepKeeps(st, begin);
    BegunAsMeant(st, begin, t);
    OperationEnds(begun, steps, t, o);
    var end := Reached(begun, steps);
    if Through(end.holders, t) {
      ShareWhenThrough(end.holders, t, o);
      BegunShares(st, begin, o);
    } else {
      CanGoOn(end, t);
    }
  }

  /**
    A destructor takes effect: it can start on a settled holder that nobody reads, is through after
    at most three more steps, has then given up one reference to its object and nothing else, and
    has deleted that if and only if it was the last one.
   */
  lemma DropTakesEffect(st: State, s: Slot, o: Obj, steps: seq<Step>)
    requires Inv(st) && s in st.holders && st.holders[s].pc.Idle? && st.holders[s].ptr == Some(o)
    requires forall t | t in st.holders :: SourceOf(st.holders[t].pc) != FromSlot(s)
    ensures Enabled(st, Drop(s))
    ensures var begun := Apply(st, Drop(s));
            Runs(begun, steps) && LeftAlone(steps, s) ==>
              var end := Reached(begun, steps);
              && OwnSteps(steps, s) <= 3
              && (s in end.holders ==>
                    && !end.holders[s].pc.Idle?
                    && Goes(NextStep(end.holders, s), s) && Enabled(end, NextStep(end.holders, s)))
              && (s !in end.holders ==>
                    && References(begun.holders, o) - References(st.holders, o) + Earned(begun, steps, s, o) == -1
                    && DeletedBy(begun, steps, s, o) == LastTaken(begun, steps, s, o))
  {
    hide Inv, References, Apply, LastTaken, DeletedBy, Earned;
    var begun := Apply(st, Drop(s));
    if Runs(begun, steps) && LeftAlone(steps, s) {
      EveryOperationEnds(st, Drop(s), steps, s, o);
    }
  }

  /** When the owner of a holder may start. */
  lemma OwnersMayBegin(st: State, s: Slot, r: Slot, src: Source, p: Option<Obj>)
    requires s in st.holders && st.holders[s].pc.Idle? && r !in st.holders
    requires forall t | t in st.holders :: SourceOf(st.holders[t].pc) != FromSlot(s)
    ensures Enabled(st, Drop(s)) && Enabled(st, Construct(r, FromSlot(s), st.holders[s].ptr))
    ensures st.holders[s].kind.Raw? ==> Enabled(st, Adopt(r, s))
    ensures st.holders[s].kind.Sptr? ==> Enabled(st, Detach(s, r)) && Enabled(st, Assign(s, Given, None))
    ensures st.holders[s].kind.Sptr? && p.Some? && p.value in st.unclaimed ==> Enabled(st, Assign(s, FromNew, p))
    ensures forall t | st.holders[s].kind.Sptr? && t in st.holders && st.holders[t].pc.Idle? ::
              Enabled(st, Assign(s, FromSlot(t), st.holders[t].ptr))
    ensures forall t | st.holders[s].kind.Sptr? && t != s && t in st.holders && st.holders[t].pc.Idle? &&
                       st.holders[t].kind.Raw? && Unread(st.holders, t) :: Enabled(st, AdoptAssign(s, t))
  {
  }

  /** An object that is not there can be made: with a count of zero and nobody to hold it, or of one and a raw reference. */
  lemma ObjectsAreMade(st: State, o: Obj, r: Slot)
    requires o !in st.objs && r !in st.holders
    ensures Enabled(st, New(o)) && Enabled(st, Alloc(o, r))
    ensures var st' := Apply(st, New(o));
            && st'.objs.Keys == st.objs.Keys + {o} && st'.objs[o] == Object(0, 0)
            && st'.unclaimed == st.unclaimed + {o} && st'.holders == st.holders
    ensures var st' := Apply(st, Alloc(o, r));
            && st'.objs.Keys == st.objs.Keys + {o} && st'.objs[o] == Object(1, 0)
            && st'.unclaimed == st.unclaimed && Prospect(st'.holders, r) == Names(Raw, Some(o)) && Through(st'.holders, r)
  {
  }

  // ---- everything can be released --------------------------------------------------

  lemma {:induction false} RunsOn(st: State, a: seq<Step>, b: seq<Step>)
    requires Runs(st, a) && Runs(Reached(st, a), b)
    ensures Runs(st, a + b) && Reached(st, a + b) == Reached(Reached(st, a), b)
    decreases |a|
  {
    hide Enabled, Apply;
    if |a| == 0 {
      assert a + b == b;
    } else {
      assert (a + b)[1..] == a[1..] + b;
      RunsOn(Apply(st, a[0]), a[1..], b);
    }
  }

  /** One operation goes on to its end while the others stand still. */
  lemma {:induction false} FinishOne(st: State, s: Slot) returns (steps: seq<Step>)
    requires Inv(st)
    ensures Runs(st, steps)
    ensures var end := Reached(st, steps);
            && Inv(end) && end.objs.Keys == st.objs.Keys && end.unclaimed == st.unclaimed
            && Through(end.holders, s) && Prospect(end.holders, s) == Prospect(st.holders, s)
            && end.holders - {s} == st.holders - {s}
    decreases Left(st.holders, s)
  {
    hide Inv, Enabled, Apply, Prospect, Left, NextStep;
    steps := [];
    if !Through(st.holders, s) {
      CanGoOn(st, s);
      var step := NextStep(st.holders, s);
      GoesOn(st, step, s);
      StepKeeps(st, step);
      var rest := FinishOne(Apply(st, step), s);
      steps := [step] + rest;
      assert steps[1..] == rest;
    }
  }

  function Busy(h: Holders): set<Slot> {
    set s | s in h && !h[s].pc.Idle?
  }

  /** Every operation in flight can go on to its end. */
  lemma {:induction false} FinishAll(st: State) returns (steps: seq<Step>)
    requires Inv(st)
    ensures Runs(st, steps)
    ensures var end := Reached(st, steps);
            && Inv(end) && end.objs.Keys == st.objs.Keys && end.unclaimed == st.unclaimed
            && forall s | s in end.holders :: end.holders[s].pc.Idle?
    decreases |Busy(st.holders)|
  {
    hide Inv, Enabled, Apply, Prospect;
    steps := [];
    if Busy(st.holders) != {} {
      var s :| s in Busy(st.holders);
      var first := FinishOne(st, s);
      var mid := Reached(st, first);
      LessBusy(st.holders, mid.holders, s);
      var rest := FinishAll(mid);
      RunsOn(st, first, rest);
      steps := first + rest;
    } else {
      assert forall s | s in st.holders :: s !in Busy(st.holders);
    }
  }

  lemma LessBusy(h: Holders, h': Holders, s: Slot)
    requires s in Busy(h) && h' - {s} == h - {s} && Through(h', s)
    ensures |Busy(h')| < |Busy(h)|
  {
    forall t | t in Busy(h')
      ensures t in Busy(h) - {s}
    {
      assert t in h' - {s} && (h' - {s})[t] == (h - {s})[t];
    }
    SubsetSize(Busy(h'), Busy(h) - {s});
  }

  lemma DropOne(st: State, s: Slot) returns (steps: seq<Step>)
    requires Inv(st) && s in st.holders && forall t | t in st.holders :: st.holders[t].pc.Idle?
    ensures Runs(st, steps)
    ensures var end := Reached(st, steps);
            Inv(end) && end.objs.Keys == st.objs.Keys && end.unclaimed == st.unclaimed && end.holders == st.holders - {s}
  {
    StepKeeps(st, Drop(s));
    hide Inv;
    var begun := Apply(st, Drop(s));
    var rest := FinishOne(begun, s);
    steps := [Drop(s)] + rest;
    assert steps[1..] == rest;
    var end := Reached(begun, rest);
    assert s !in end.holders;
    assert begun.holders - {s} == st.holders - {s};
    assert end.holders - {s} == end.holders;
  }

  /** Settled holders can be dropped one after the other. */
  lemma {:induction false} DropAll(st: State) returns (steps: seq<Step>)
    requires Inv(st) && forall t | t in st.holders :: st.holders[t].pc.Idle?
    ensures Runs(st, steps)
    ensures var end := Reached(st, steps);
            Inv(end) && end.objs.Keys == st.objs.Keys && end.unclaimed == st.unclaimed && end.holders == map[]
    decreases |st.holders|
  {
    hide Inv, Enabled, Apply;
    steps := [];
    if st.holders != map[] {
      var s :| s in st.holders;
      var first := DropOne(st, s);
      assert st.holders.Keys == (st.holders - {s}).Keys + {s};
      var rest := DropAll(Reached(st, first));
      RunsOn(st, first, rest);
      steps := first + rest;
    }
  }

  lemma ClaimOne(st: State, o: Obj) returns (steps: seq<Step>)
    requires Inv(st) && st.holders == map[] && o in st.unclaimed
    ensures Runs(st, steps)
    ensures var end := Reached(st, steps);
            && Inv(end) && end.objs.Keys == st.objs.Keys && end.unclaimed == st.unclaimed - {o}
            && forall t | t in end.holders :: end.holders[t].pc.Idle?
  {
    var begin := Construct(0, FromNew, Some(o));
    StepKeeps(st, begin);
    hide Inv;
    var begun := Apply(st, begin);
    var rest := FinishOne(begun, 0);
    steps := [begin] + rest;
    assert steps[1..] == rest;
    var end := Reached(begun, rest);
    assert end.holders - {0} == map[];
    assert forall t | t in end.holders && t != 0 :: t in end.holders - {0};
  }

  /** New objects that nobody has taken yet can be taken and dropped. */
  lemma {:induction false} ReleaseRest(st: State) returns (steps: seq<Step>)
    requires Inv(st) && st.holders == map[]
    ensures Runs(st, steps)
    ensures var end := Reached(st, steps);
            Inv(end) && end.objs.Keys == st.objs.Keys && end.unclaimed == {} && end.holders == map[]
    decreases |st.unclaimed|
  {
    hide Inv, Enabled, Apply;
    steps := [];
    if st.unclaimed != {} {
      var o :| o in st.unclaimed;
      var first := ClaimOne(st, o);
      var second := DropAll(Reached(st, first));
      RunsOn(st, first, second);
      var rest := ReleaseRest(Reached(st, first + second));
      RunsOn(st, first + second, rest);
      steps := first + second + rest;
    }
  }

  /**
    Nothing is ever lost: from every reachable state, in the middle of whatever operations, there is
    a run to the end at which no holder is left and every object has been deleted, once.
   */
  lemma EverythingCanBeReleased(st: State) returns (steps: seq<Step>)
    requires Inv(st)
    ensures Runs(st, steps)
    ensures var end := Reached(st, steps);
            && end.holders == map[] && end.objs.Keys == st.objs.Keys
            && forall o | o in st.objs :: end.objs[o].deletions == 1
  {
    hide Inv, Enabled, Apply;
    var first := FinishAll(st);
    var second := DropAll(Reached(st, first));
    RunsOn(st, first, second);
    var third := ReleaseRest(Reached(st, first + second));
    RunsOn(st, first + second, third);
    steps := first + second + third;
    var end := Reached(st, steps);
    forall o | o in st.objs
      ensures end.objs[o].deletions == 1
    {
      AtRest(end, o);
    }
  }
}
