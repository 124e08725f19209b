/**
  Smart pointers that are members of counted objects: the machine of RefCounts, with the object that
  each holder is a member of. Deleting an object destroys its members: they are dropped after that,
  while other threads go on.
 */
module Members {
  import opened Collections
  import R = RefCounts
  import Operations

  type Slot = R.Slot
  type Obj = R.Obj

  /** `owner` says of what object a holder is a member. */
  datatype State = State(core: R.State, owner: map<Slot, Obj>)

  const START := State(R.START, map[])

  datatype Step =
    | Core(step: R.Step)
    | Join(s: Slot, o: Obj)     // a holder is laid out inside an object

  /** The memory of the holder is gone with its object. */
  predicate Orphaned(m: State, q: Slot) {
    q in m.owner && m.owner[q] in m.core.objs && m.core.objs[m.owner[q]].deletions > 0
  }

  /** The holder is being destroyed. */
  predicate Going(pc: R.Pc) {
    || pc == R.Releasing(R.ThenGone)
    || (pc.Peeked? && pc.after.ThenGone?)
    || pc == R.Deleting(R.ThenGone)
  }

  /** The operation that holder s is in the middle of will yet touch holder q, other than to destroy it. */
  predicate Uses(h: R.Holders, s: Slot, q: Slot) {
    s in h && (R.SourceOf(h[s].pc) == R.FromSlot(q) || (s == q && !h[s].pc.Idle? && !Going(h[s].pc)))
  }

  /** No operation in flight will touch a destroyed holder. */
  ghost predicate Safe(m: State) {
    forall s, q | Uses(m.core.holders, s, q) :: !Orphaned(m, q)
  }

  /** Operations start on holders that are there, and read such; a destroyed one is only dropped. */
  predicate Starts(m: State, step: R.Step) {
    match step
    case Construct(s, src, _) => src.FromSlot? ==> !Orphaned(m, src.q)
    case Assign(s, src, _) => !Orphaned(m, s) && (src.FromSlot? ==> !Orphaned(m, src.q))
    case Adopt(_, r) => !Orphaned(m, r)
    case AdoptAssign(s, r) => !Orphaned(m, s) && !Orphaned(m, r)
    case Detach(s, _) => !Orphaned(m, s)
    case _ => true
  }

  predicate Enabled(m: State, step: Step) {
    match step
    case Core(step) => R.Enabled(m.core, step) && Starts(m, step)
    case Join(s, o) => s in m.core.holders && s !in m.owner && m.core.holders[s].pc.Idle? && R.Live(m.core, o)
  }

  /** Membership ends with the holder. */
  function Remaining(owner: map<Slot, Obj>, h: R.Holders): map<Slot, Obj> {
    map s | s in owner && s in h :: owner[s]
  }

  function Apply(m: State, step: Step): State
    requires Enabled(m, step)
  {
    match step
    case Core(step) =>
      var core := R.Apply(m.core, step);
      State(core, Remaining(m.owner, core.holders))
    case Join(s, o) => m.(owner := m.owner[s := o])
  }

  /** The object that the step deletes. */
  function Victim(m: State, step: Step): Option<Obj>
    requires Enabled(m, step)
  {
    match step
    case Core(Delete(s)) => m.core.holders[s].ptr
    case Core(DeleteUncounted(s)) => m.core.holders[s].ptr
    case _ => None
  }

  /** It deletes an object while an operation, perhaps its own, is using a member of that. */
  ghost predicate Racy(m: State, step: Step)
    requires Enabled(m, step)
  {
    exists s, q :: Uses(m.core.holders, s, q) && q in m.owner && Victim(m, step) == Some(m.owner[q])
  }

  /** Members are holders that are there, of objects that are or were. */
  ghost predicate Laid(m: State) {
    forall q | q in m.owner :: q in m.core.holders && m.owner[q] in m.core.objs
  }

  /** Membership limits nobody, as long as no member is destroyed. */
  lemma MembersAreHolders(m: State, step: R.Step)
    requires forall q :: !Orphaned(m, q)
    ensures Enabled(m, Core(step)) <==> R.Enabled(m.core, step)
  {
    hide R.Enabled;
  }

  /** A settled holder can become a member of a live object, and stays one for as long as it is there. */
  lemma MembershipLasts(m: State, step: Step, q: Slot)
    requires Laid(m) && Enabled(m, step)
    ensures var m' := Apply(m, step);
            && (q in m'.owner <==> q in m'.core.holders && (q in m.owner || (step.Join? && step.s == q)))
            && (q in m'.owner ==> m'.owner[q] == if q in m.owner then m.owner[q] else step.o)
  {
    hide R.Apply, R.Enabled;
  }

  lemma MembersMayJoin(m: State, s: Slot, o: Obj)
    requires s in m.core.holders && m.core.holders[s].pc.Idle? && s !in m.owner
    requires o in m.core.objs && m.core.objs[o].deletions == 0
    ensures Enabled(m, Join(s, o)) && Apply(m, Join(s, o)).core == m.core
  {
  }

  // ---- safety ----------------------------------------------------------------------

  /** Only the two deletions change what has been deleted. */
  lemma DeletionsKept(m: State, step: Step, o: Obj)
    requires R.Inv(m.core) && Enabled(m, step) && o in m.core.objs
    ensures var core := Apply(m, step).core;
            && o in core.objs
            && core.objs[o].deletions == m.core.objs[o].deletions + if Victim(m, step) == Some(o) then 1 else 0
  {
    hide R.Inv;
  }

  /** A use in the next state is one now, or starts with the step. */
  lemma UsesKept(m: State, step: Step, s: Slot, q: Slot)
    requires R.Inv(m.core) && Laid(m) && Enabled(m, step)
    requires Uses(Apply(m, step).core.holders, s, q)
    ensures Uses(m.core.holders, s, q) || (!Orphaned(m, q) && Victim(m, step).None?)
  {
    hide R.Inv;
    if step.Core? && s !in Operations.Involved(step.step) {
      Operations.OthersStay(m.core, step.step, s);
      hide R.Apply, R.Enabled;
    }
  }

  /** A use that the step does not end goes on. */
  lemma UsesStay(m: State, step: Step, s: Slot, q: Slot)
    requires R.Inv(m.core) && Enabled(m, step) && Victim(m, step).Some? && Uses(m.core.holders, s, q)
    ensures Uses(Apply(m, step).core.holders, s, q) && q in Apply(m, step).core.holders
  {
    assert R.CellOk(m.core, s);
  }

  /** A step keeps the members safe if and only if it is not racy. */
  lemma StepSafeIff(m: State, step: Step)
    requires R.Inv(m.core) && Laid(m) && Safe(m) && Enabled(m, step)
    ensures Laid(Apply(m, step))
    ensures Safe(Apply(m, step)) <==> !Racy(m, step)
  {
    hide R.Inv, R.Apply, R.Enabled, Uses, Starts;
    var m' := Apply(m, step);
    forall q | q in m'.owner
      ensures q in m'.core.holders && m'.owner[q] in m'.core.objs
    {
      DeletionsKept(m, step, m'.owner[q]);
    }
    if Racy(m, step) {
      var s, q :| Uses(m.core.holders, s, q) && q in m.owner && Victim(m, step) == Some(m.owner[q]);
      UsesStay(m, step, s, q);
      DeletionsKept(m, step, m.owner[q]);
      assert Orphaned(m', q);
    } else {
      forall s, q | Uses(m'.core.holders, s, q)
        ensures !Orphaned(m', q)
      {
        UsesKept(m, step, s, q);
        if q in m'.owner && q in m.owner {
          DeletionsKept(m, step, m.owner[q]);
        }
      }
    }
  }

  // ---- runs ------------------------------------------------------------------------

  datatype Run = Done | Then(step: Step, rest: Run)

  predicate Runs(m: State, run: Run)
    decreases run
  {
    run.Done? || (Enabled(m, run.step) && Runs(Apply(m, run.step), run.rest))
  }

  function Reached(m: State, run: Run): State
    requires Runs(m, run)
    decreases run
  {
    if run.Done? then m else Reached(Apply(m, run.step), run.rest)
  }

  ghost predicate SafeThroughout(m: State, run: Run)
    requires Runs(m, run)
    decreases run
  {
    Safe(m) && (run.Then? ==> SafeThroughout(Apply(m, run.step), run.rest))
  }

  ghost predicate RaceFree(m: State, run: Run)
    requires Runs(m, run)
    decreases run
  {
    run.Then? ==> !Racy(m, run.step) && RaceFree(Apply(m, run.step), run.rest)
  }

  /** The counts do not care about members: they stay exact, race or not. */
  lemma StepKeeps(m: State, step: Step)
    requires R.Inv(m.core) && Enabled(m, step)
    ensures R.Inv(Apply(m, step).core)
  {
    hide R.Inv, R.Apply, R.Enabled;
    if step.Core? {
      R.StepKeeps(m.core, step.step);
    }
  }

  lemma {:induction false} SafeIffRaceFree(m: State, run: Run)
    requires R.Inv(m.core) && Laid(m) && Safe(m) && Runs(m, run)
    ensures SafeThroughout(m, run) <==> RaceFree(m, run)
    ensures R.Inv(Reached(m, run).core)
    decreases run
  {
    hide R.Inv, Laid, Safe, Racy, Apply, Enabled;
    if run.Then? {
      StepSafeIff(m, run.step);
      StepKeeps(m, run.step);
      if Racy(m, run.step) {
        CountsKeep(Apply(m, run.step), run.rest);
      } else {
        SafeIffRaceFree(Apply(m, run.step), run.rest);
      }
    }
  }

  lemma {:induction false} CountsKeep(m: State, run: Run)
    requires R.Inv(m.core) && Runs(m, run)
    ensures R.Inv(Reached(m, run).core)
    decreases run
  {
    hide R.Inv, Apply, Enabled;
    if run.Then? {
      StepKeeps(m, run.step);
      CountsKeep(Apply(m, run.step), run.rest);
    }
  }

  /**
    In every interleaving, with members that come and go with their objects: counts, deletions and
    holders are as RefCounts says. No operation is left with a destroyed holder to touch if and only
    if no object is deleted while an operation is using a member of it.
   */
  lemma EveryRunIsSafeIffRaceFree(run: Run)
    requires Runs(START, run)
    ensures R.Inv(Reached(START, run).core)
    ensures SafeThroughout(START, run) <==> RaceFree(START, run)
  {
    R.StartIsSafe();
    SafeIffRaceFree(START, run);
  }

  /** The rule that callers can follow: whoever uses a member has its object held by a settled holder. */
  ghost predicate Held(m: State) {
    forall s, q | Uses(m.core.holders, s, q) && q in m.owner ::
      exists h :: h in m.core.holders && m.core.holders[h].pc.Idle? && m.core.holders[h].ptr == Some(m.owner[q])
  }

  lemma HeldIsRaceFree(m: State, step: Step)
    requires R.Inv(m.core) && Enabled(m, step) && Held(m)
    ensures !Racy(m, step)
  {
    if Racy(m, step) {
      var s, q :| Uses(m.core.holders, s, q) && q in m.owner && Victim(m, step) == Some(m.owner[q]);
      var h :| h in m.core.holders && m.core.holders[h].pc.Idle? && m.core.holders[h].ptr == Some(m.owner[q]);
      HeldIsNotDeleted(m.core, step.step, h, m.owner[q]);
    }
  }

  lemma HeldIsNotDeleted(st: R.State, step: R.Step, h: Slot, o: Obj)
    requires R.Inv(st) && R.Enabled(st, step) && h in st.holders && st.holders[h].pc.Idle? && st.holders[h].ptr == Some(o)
    ensures (step.Delete? || step.DeleteUncounted?) ==> st.holders[step.s].ptr != Some(o)
  {
    hide R.References, R.OneHand, R.NothingLost;
    if step.Delete? && st.holders[step.s].ptr == Some(o) {
      assert R.CellOk(st, step.s);
      R.OwnedSomewhere(st, h, o);
    }
    if step.DeleteUncounted? && st.holders[step.s].ptr == Some(o) {
      assert R.CellOk(st, step.s);
      R.SoleOwner(st, step.s, o);
    }
  }

  /** With nothing in flight and no destroyed holder left to drop, the deleted objects are exactly those that no holder names. */
  lemma AtRest(m: State, o: Obj)
    requires R.Inv(m.core) && o in m.core.objs && o !in m.core.unclaimed
    requires forall s | s in m.core.holders :: m.core.holders[s].pc.Idle? && !Orphaned(m, s)
    ensures m.core.objs[o].deletions == 1 <==> forall s | s in m.core.holders :: m.core.holders[s].ptr != Some(o)
  {
    R.AtRest(m.core, o);
  }

  // ---- the race --------------------------------------------------------------------

  /** A list of two nodes: holder 10 names the first, whose member 11 names the second. */
  const LIST := State(R.State(map[0 := R.Object(1, 0), 1 := R.Object(1, 0)],
                              map[10 := R.Cell(R.Sptr, Some(0), R.Idle), 11 := R.Cell(R.Sptr, Some(1), R.Idle)], {}),
                      map[11 := 0])

  /** p = p->next, where p is the only holder of the node: about to delete it, with its member still to be read again. */
  const NEXT := State(R.State(map[0 := R.Object(0, 0), 1 := R.Object(2, 0)],
                              map[10 := R.Cell(R.Sptr, Some(0), R.Deleting(R.ThenStore(Some(1), R.FromSlot(11)))),
                                  11 := R.Cell(R.Sptr, Some(1), R.Idle)], {}),
                      map[11 := 0])

  const ONE := State(R.State(map[0 := R.Object(1, 0)], map[10 := R.Cell(R.Sptr, Some(0), R.Idle)], {}), map[])

  lemma OneIsReached()
    ensures var run := Then(Core(R.New(0)), Then(Core(R.Construct(10, R.FromNew, Some(0))), Then(Core(R.Count(10)), Done)));
            Runs(START, run) && Reached(START, run) == ONE
  {
  }

  lemma ListIsReached()
    ensures var run := Then(Core(R.New(1)), Then(Core(R.Construct(11, R.FromNew, Some(1))), Then(Core(R.Count(11)),
                       Then(Join(11, 0), Done))));
            Runs(ONE, run) && Reached(ONE, run) == LIST
  {
    hide Enabled, Apply;
    SecondIsMade();
    SecondIsCounted();
  }

  /** ... with the second node fresh from new, and its holder about to count it. */
  const MADE := State(R.State(map[0 := R.Object(1, 0), 1 := R.Object(0, 0)],
                              map[10 := R.Cell(R.Sptr, Some(0), R.Idle), 11 := R.Cell(R.Sptr, Some(1), R.Counting(R.FromNew))], {}),
                      map[])

  lemma SecondIsMade()
    ensures Enabled(ONE, Core(R.New(1))) && Enabled(Apply(ONE, Core(R.New(1))), Core(R.Construct(11, R.FromNew, Some(1))))
    ensures Apply(Apply(ONE, Core(R.New(1))), Core(R.Construct(11, R.FromNew, Some(1)))) == MADE
  {
  }

  lemma SecondIsCounted()
    ensures Enabled(MADE, Core(R.Count(11))) && Enabled(Apply(MADE, Core(R.Count(11))), Join(11, 0))
    ensures Apply(Apply(MADE, Core(R.Count(11))), Join(11, 0)) == LIST
  {
  }

  /** ... after the increment. */
  const COUNTED := State(R.State(map[0 := R.Object(1, 0), 1 := R.Object(2, 0)],
                                 map[10 := R.Cell(R.Sptr, Some(0), R.Releasing(R.ThenStore(Some(1), R.FromSlot(11)))),
                                     11 := R.Cell(R.Sptr, Some(1), R.Idle)], {}),
                         map[11 := 0])

  lemma CountedIsReached()
    ensures var run := Then(Core(R.Assign(10, R.FromSlot(11), Some(1))), Then(Core(R.Increment(10)), Done));
            Runs(LIST, run) && Reached(LIST, run) == COUNTED
  {
    hide Enabled, Apply;
    AssignmentIsEntered();
    TargetIsCounted();
  }

  /** ... before the increment. */
  const ENTERED := State(R.State(map[0 := R.Object(1, 0), 1 := R.Object(1, 0)],
                                 map[10 := R.Cell(R.Sptr, Some(0), R.IncNew(Some(1), R.FromSlot(11))),
                                     11 := R.Cell(R.Sptr, Some(1), R.Idle)], {}),
                         map[11 := 0])

  lemma AssignmentIsEntered()
    ensures var step := Core(R.Assign(10, R.FromSlot(11), Some(1)));
            Enabled(LIST, step) && Apply(LIST, step) == ENTERED
  {
  }

  lemma TargetIsCounted()
    ensures Enabled(ENTERED, Core(R.Increment(10))) && Apply(ENTERED, Core(R.Increment(10))) == COUNTED
  {
  }

  lemma NextIsReached()
    ensures Enabled(COUNTED, Core(R.Decrement(10))) && Apply(COUNTED, Core(R.Decrement(10))) == NEXT
  {
  }

  /** The delete is racy: the assignment reads the member again after that. */
  lemma NextIsRacy()
    ensures Enabled(NEXT, Core(R.Delete(10))) && Racy(NEXT, Core(R.Delete(10)))
  {
    assert Uses(NEXT.core.holders, 10, 11);
  }
}
