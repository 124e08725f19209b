/**
  What the operations on one SAtom come to in the machine of WeakAtoms: where each one ends, that
  it ends, what it does to the two counts, and when wptr::promote succeeds, whatever the other
  holders do in between.
 */
module WeakOperations {
  import opened Collections
  import opened WeakAtoms

  /** What becomes of a holder; an attempt that has not been decided may yield a reference or none. */
  datatype Ending = Plain | Strongly | Weakly | Undecided | Vanishes

  function EndingOf(stage: Stage): Ending {
    match stage
    case Raw => Plain
    case Entering => Strongly
    case Strong => Strongly
    case Lending(_) => Strongly
    case Joining => Strongly
    case Weak => Weakly
    case Trying => Undecided
    case Swapping(_) => Undecided
    case Asking(_) => Undecided
    case Reviving => Strongly
    case Subtracting => Strongly
    case Initialising => Strongly
    case Finishing => Vanishes
    case Dropping => Vanishes
    case Freeing => Vanishes
  }

  function Prospect(h: Holders, t: Slot): Ending {
    if t in h then EndingOf(h[t]) else Vanishes
  }

  /** An operation of the holder is in flight. */
  predicate Busy(h: Holders, t: Slot) {
    t in h && !h[t].Raw? && !h[t].Strong? && !h[t].Lending? && !h[t].Weak?
  }

  /** Steps that the holder has still to make, unless a compare-and-swap fails. */
  function Left(h: Holders, t: Slot): nat {
    if t !in h then 0 else
      match h[t]
      case Trying => 5
      case Swapping(_) => 4
      case Asking(_) => 4
      case Reviving => 3
      case Entering => 3
      case Joining => 3
      case Subtracting => 2
      case Initialising => 1
      case Finishing => 3
      case Dropping => 2
      case Freeing => 1
      case _ => 0
  }

  predicate Joins(h: Holders, t: Slot) {
    t in h && h[t].Joining?
  }

  predicate Lends(h: Holders, s: Slot, t: Slot) {
    s in h && h[s] == Lending(t)
  }

  /** Every copy in the making has its one lender, and every lender its copy. */
  ghost predicate Paired(h: Holders) {
    && (forall t | Joins(h, t) :: exists s :: Lends(h, s, t))
    && (forall s, t | Lends(h, s, t) :: Joins(h, t))
    && (forall s, u, t | Lends(h, s, t) && Lends(h, u, t) :: s == u)
  }

  lemma PairedKept(st: State, step: Step)
    requires Paired(st.holders) && Enabled(st, step)
    ensures Paired(Apply(st, step).holders)
  {
    var h, h' := st.holders, Apply(st, step).holders;
    PairsChange(st, step);
    hide Enabled, Apply, Joins, Lends;
    forall t | Joins(h', t)
      ensures exists s :: Lends(h', s, t)
    {
      if step.CopyStrong? && t == step.t {
        assert Lends(h', step.s, t);
      } else {
        var s :| Lends(h, s, t);
        assert Lends(h', s, t);
      }
    }
  }

  lemma PairsChange(st: State, step: Step)
    requires Enabled(st, step)
    ensures var h, h' := st.holders, Apply(st, step).holders;
            && (forall t :: Joins(h', t) <==> if step.CopyStrong? && t == step.t then true
                                              else Joins(h, t) && !(step.CopyCount? && t == step.t))
            && (forall s, t :: Lends(h', s, t) <==> if step.CopyStrong? && s == step.s then t == step.t
                                                    else Lends(h, s, t) && !(step.CopyCount? && s == step.s))
            && (step.CopyStrong? ==> !Joins(h, step.t))
            && (step.CopyCount? ==> Lends(h, step.s, step.t))
            && (step.CopyStrong? ==> forall t :: !Lends(h, step.s, t))
            && (step.CopyCount? ==> forall t | Lends(h, step.s, t) :: t == step.t)
  {
  }

  // ---- what is meant ---------------------------------------------------------------

  /** The step begins an operation. */
  predicate Begins(st: State, step: Step) {
    Enabled(st, step) && !Busy(st.holders, step.t)
  }

  /** What an operation is to make of its holder. */
  function Meant(step: Step): Ending {
    match step
    case RawWeak(_) => Weakly
    case CopyWeak(_, _) => Weakly
    case RawStrong(_) => Strongly
    case Claim(_, _) => Strongly
    case CopyStrong(_, _) => Strongly
    case Attempt(_, _) => Undecided
    case _ => Vanishes
  }

  lemma BegunAsMeant(st: State, step: Step)
    requires Begins(st, step)
    ensures Prospect(Apply(st, step).holders, step.t) == Meant(step)
  {
  }

  /** When a holder may start. */
  lemma OwnersMayBegin(st: State, s: Slot, t: Slot)
    requires s in st.holders && t !in st.holders && |st.holders| + 1 < INITIAL
    ensures st.holders[s].Raw? ==> Enabled(st, RawWeak(s)) && Enabled(st, RawStrong(s))
    ensures st.holders[s].Strong? ==> Enabled(st, DropStrong(s)) && Enabled(st, CopyStrong(s, t)) && Enabled(st, CopyWeak(s, t))
    ensures st.holders[s].Weak? ==>
              Enabled(st, DropWeak(s)) && Enabled(st, CopyWeak(s, t)) && Enabled(st, Attempt(s, t)) && Enabled(st, Claim(s, t))
  {
  }

  // ---- counts ----------------------------------------------------------------------

  function One(b: bool): int {
    if b then 1 else 0
  }

  /** Strong and weak references that a holder owns. */
  function StrongShare(h: Holders, t: Slot): int {
    One(t in h && Plays(h[t], Counted))
  }

  function WeakShare(h: Holders, t: Slot): int {
    One(t in h && Plays(h[t], Present))
  }

  /** The strong count without the mark of a new atom. */
  function StrongCount(st: State): int {
    if st.subtractions == 0 then st.strong - INITIAL else st.strong
  }

  /** The count that t is about to swap is out of date. */
  predicate Stale(st: State, t: Slot) {
    t in st.holders && st.holders[t].Swapping? && st.holders[t].current != st.strong
  }

  /** The compare-and-swap of t fails. */
  predicate Loses(st: State, step: Step, t: Slot) {
    step == Swap(t) && Stale(st, t)
  }

  /** An attempt has been decided, or nothing changed. */
  predicate Leads(before: Ending, now: Ending) {
    now == before || (before.Undecided? && (now.Strongly? || now.Vanishes?))
  }

  /** A step of t itself brings it closer to its end. */
  lemma OwnStepLeads(st: State, step: Step, t: Slot)
    requires Inv(st) && Enabled(st, step) && step.t == t && Busy(st.holders, t)
    ensures var h, st' := st.holders, Apply(st, step);
            && Leads(Prospect(h, t), Prospect(st'.holders, t))
            && Left(st'.holders, t) + 1 <= Left(h, t) + 2 * One(Loses(st, step, t))
  {
    hide Inv;
  }

  /** An attempt is refused only when the strong references are gone. */
  lemma OwnStepRefuses(st: State, step: Step, t: Slot)
    requires Inv(st) && Enabled(st, step) && step.t == t && Prospect(st.holders, t).Undecided?
    requires Prospect(Apply(st, step).holders, t).Vanishes?
    ensures st.strong == 0 && st.subtractions == 1
  {
    RefusedOnlyAfterRelease(st, step);
  }

  /** Both counts change by what t gains or gives up. */
  lemma OwnStepCounts(st: State, step: Step, t: Slot)
    requires Inv(st) && Enabled(st, step) && !Racy(st, step) && step.t == t && Busy(st.holders, t)
    ensures var h, st' := st.holders, Apply(st, step);
            && StrongCount(st') - StrongCount(st) == StrongShare(st'.holders, t) - StrongShare(h, t)
            && st'.weak - st.weak == WeakShare(st'.holders, t) - WeakShare(h, t)
  {
    hide Inv;
    if step.Subtract? {
      OnlyOneSubtracts(st, step);
    }
  }

  lemma OnlyOneSubtracts(st: State, step: Step)
    requires Inv(st) && Enabled(st, step) && step.Subtract?
    ensures st.subtractions == 0
  {
    hide Tally;
    Counts(st.holders, step.t);
  }

  /** A step of another holder: nothing of t changes, but that a lender gets its copy done. */
  lemma OthersStep(st: State, step: Step, t: Slot)
    requires Enabled(st, step) && step.t != t
    ensures var h, h' := st.holders, Apply(st, step).holders;
            && (t in h' <==> t in h) && (t in h && !h[t].Strong? && !h[t].Lending? ==> h'[t] == h[t])
            && Prospect(h', t) == Prospect(h, t) && Left(h', t) == Left(h, t) && (Busy(h', t) <==> Busy(h, t))
            && StrongShare(h', t) == StrongShare(h, t) && WeakShare(h', t) == WeakShare(h, t)
  {
  }

  /** An operation in flight can always go on: nobody waits for anybody. */
  lemma CanGoOn(st: State, t: Slot) returns (step: Step)
    requires Paired(st.holders) && Busy(st.holders, t)
    ensures step.t == t && Enabled(st, step)
    ensures step.CopyCount? || !(step.Attempt? || step.Claim? || step.RawStrong? || step.CopyStrong? || step.CopyWeak?)
  {
    match st.holders[t]
    case Trying => step := Read(t);
    case Swapping(_) => step := Swap(t);
    case Asking(_) => step := Ask(t);
    case Reviving => step := Revive(t);
    case Entering => step := Enter(t);
    case Joining =>
      assert Joins(st.holders, t);
      var s :| Lends(st.holders, s, t);
      step := CopyCount(s, t);
    case Subtracting => step := Subtract(t);
    case Initialising => step := Init(t);
    case Finishing => step := Destroy(t);
    case Dropping => step := DropWeak(t);
    case Freeing => step := Free(t);
  }

  // ---- whole operations ------------------------------------------------------------

  /** The holder t makes no step of the run except to go on with an operation in flight. */
  predicate LeftAlone(st: State, run: Run, t: Slot)
    requires Runs(st, run)
    decreases run
  {
    run.Then? ==> (run.step.t == t ==> Busy(st.holders, t)) && LeftAlone(Apply(st, run.step), run.rest, t)
  }

  function OwnSteps(run: Run, t: Slot): nat {
    if run.Done? then 0 else (if run.step.t == t then 1 else 0) + OwnSteps(run.rest, t)
  }

  /** How often a compare-and-swap of t failed. */
  function Lost(st: State, run: Run, t: Slot): nat
    requires Runs(st, run)
    decreases run
  {
    if run.Done? then 0 else (if Loses(st, run.step, t) then 1 else 0) + Lost(Apply(st, run.step), run.rest, t)
  }

  /** How often another holder changed the strong count. */
  function Changes(st: State, run: Run, t: Slot): nat
    requires Runs(st, run)
    decreases run
  {
    if run.Done? then 0 else
      (if run.step.t != t && Apply(st, run.step).strong != st.strong then 1 else 0)
      + Changes(Apply(st, run.step), run.rest, t)
  }

  /** By how much the steps of t changed the strong and the weak count. */
  function StrongEarned(st: State, run: Run, t: Slot): int
    requires Runs(st, run)
    decreases run
  {
    if run.Done? then 0 else
      (if run.step.t == t then StrongCount(Apply(st, run.step)) - StrongCount(st) else 0)
      + StrongEarned(Apply(st, run.step), run.rest, t)
  }

  function WeakEarned(st: State, run: Run, t: Slot): int
    requires Runs(st, run)
    decreases run
  {
    if run.Done? then 0 else
      (if run.step.t == t then Apply(st, run.step).weak - st.weak else 0) + WeakEarned(Apply(st, run.step), run.rest, t)
  }

  /** In every interleaving without a race an operation in flight ends as foreseen and accounts for both counts. */
  lemma {:induction false} OperationEnds(st: State, run: Run, t: Slot)
    requires Inv(st) && Paired(st.holders) && Runs(st, run) && RaceFree(st, run) && LeftAlone(st, run, t)
    ensures var h, end := st.holders, Reached(st, run);
            && Inv(end) && Paired(end.holders)
            && Leads(Prospect(h, t), Prospect(end.holders, t))
            && Left(end.holders, t) + OwnSteps(run, t) <= Left(h, t) + 2 * Lost(st, run, t)
            && StrongEarned(st, run, t) == StrongShare(end.holders, t) - StrongShare(h, t)
            && WeakEarned(st, run, t) == WeakShare(end.holders, t) - WeakShare(h, t)
    decreases run
  {
    hide Inv, Paired, Enabled, Apply, Racy, Prospect, Busy, Left, Loses, StrongCount, StrongShare, WeakShare;
    if run.Then? {
      StepKeeps(st, run.step);
      PairedKept(st, run.step);
      OperationEnds(Apply(st, run.step), run.rest, t);
      if run.step.t == t {
        OwnStepLeads(st, run.step, t);
        OwnStepCounts(st, run.step, t);
      } else {
        OthersStep(st, run.step, t);
        NotItsSwap(st, run.step, t);
      }
    }
  }

  lemma NotItsSwap(st: State, step: Step, t: Slot)
    requires step.t != t
    ensures !Loses(st, step, t)
  {
  }

  lemma StaleOnlyByOthers(st: State, step: Step, t: Slot)
    requires Enabled(st, step)
    ensures var st' := Apply(st, step);
            One(Loses(st, step, t)) + One(Stale(st', t)) <= One(step.t != t && st'.strong != st.strong) + One(Stale(st, t))
  {
  }

  /** Every compare-and-swap that fails is paid for by a change that another holder made: attempts are lock-free. */
  lemma {:induction false} LostOnlyToOthers(st: State, run: Run, t: Slot)
    requires Runs(st, run)
    ensures Lost(st, run, t) <= Changes(st, run, t) + One(Stale(st, t))
    decreases run
  {
    hide Enabled, Apply, Loses, Stale;
    if run.Then? {
      StaleOnlyByOthers(st, run.step, t);
      LostOnlyToOthers(Apply(st, run.step), run.rest, t);
    }
  }

  /** An attempt that is refused finds the strong references gone, and they stay so. */
  lemma {:induction false} RefusedForGood(st: State, run: Run, t: Slot)
    requires Inv(st) && Runs(st, run) && RaceFree(st, run) && LeftAlone(st, run, t)
    requires st.strong == 0 || (Prospect(st.holders, t).Undecided? && Prospect(Reached(st, run).holders, t).Vanishes?)
    ensures Reached(st, run).strong == 0
    decreases run
  {
    hide Inv, Enabled, Apply, Racy, Prospect, Busy;
    if run.Then? {
      StepKeeps(st, run.step);
      if st.strong == 0 {
        ReleasedForGood(st, run.step);
      } else if run.step.t == t {
        OwnStepLeads(st, run.step, t);
        if Prospect(Apply(st, run.step).holders, t).Vanishes? {
          OwnStepRefuses(st, run.step, t);
          assert false;
        }
        DecidedForGood(Apply(st, run.step), run.rest, t);
      } else {
        OthersStep(st, run.step, t);
      }
      RefusedForGood(Apply(st, run.step), run.rest, t);
    }
  }

  lemma {:induction false} DecidedForGood(st: State, run: Run, t: Slot)
    requires Inv(st) && Runs(st, run) && RaceFree(st, run) && LeftAlone(st, run, t)
    ensures Leads(Prospect(st.holders, t), Prospect(Reached(st, run).holders, t))
    decreases run
  {
    hide Inv, Enabled, Apply, Racy, Prospect, Busy;
    if run.Then? {
      StepKeeps(st, run.step);
      DecidedForGood(Apply(st, run.step), run.rest, t);
      if run.step.t == t {
        OwnStepLeads(st, run.step, t);
      } else {
        OthersStep(st, run.step, t);
      }
    }
  }

  // ---- wptr::promote ---------------------------------------------------------------

  /** The run has no step of t. */
  predicate Without(run: Run, t: Slot) {
    run.Then? ==> run.step.t != t && Without(run.rest, t)
  }

  lemma {:induction false} OthersLeaveAttempt(st: State, run: Run, t: Slot)
    requires Runs(st, run) && Without(run, t) && t in st.holders && Attempting(st.holders[t])
    ensures t in Reached(st, run).holders && Reached(st, run).holders[t] == st.holders[t]
    decreases run
  {
    hide Enabled, Apply;
    if run.Then? {
      OthersStep(st, run.step, t);
      OthersLeaveAttempt(Apply(st, run.step), run.rest, t);
    }
  }

  /**
    An attempt that reads n strong references takes one more if and only if the count is n when it
    comes to swap, whatever has happened meanwhile; otherwise it has changed nothing and tries again.
   */
  lemma PromoteSwaps(st: State, t: Slot, run: Run)
    requires t in st.holders && st.holders[t].Trying? && 0 < st.strong < INITIAL
    ensures Enabled(st, Read(t))
    ensures var read := Apply(st, Read(t));
            Runs(read, run) && Without(run, t) ==>
              var mid := Reached(read, run);
              && Enabled(mid, Swap(t))
              && var end := Apply(mid, Swap(t));
              && (mid.strong == st.strong ==> end.holders[t].Strong? && end.strong == st.strong + 1)
              && (mid.strong != st.strong ==> end == mid.(holders := mid.holders[t := Trying]))
  {
    var read := Apply(st, Read(t));
    if Runs(read, run) && Without(run, t) {
      OthersLeaveAttempt(read, run, t);
    }
  }

  /**
    An attempt that reads zero is refused. One that reads the mark of a new atom is allowed if the
    atom has not been destroyed when it asks.
   */
  lemma PromoteAsks(st: State, t: Slot, run: Run)
    requires t in st.holders && st.holders[t].Trying? && (st.strong == 0 || st.strong == INITIAL)
    ensures Enabled(st, Read(t))
    ensures var read := Apply(st, Read(t));
            Runs(read, run) && Without(run, t) ==>
              var mid := Reached(read, run);
              && Enabled(mid, Ask(t))
              && var stage := if st.strong == 0 || mid.sized then Dropping else Reviving;
              Apply(mid, Ask(t)) == mid.(holders := mid.holders[t := stage])
  {
    var read := Apply(st, Read(t));
    if Runs(read, run) && Without(run, t) {
      OthersLeaveAttempt(read, run, t);
    }
  }

  // ---- every operation -------------------------------------------------------------

  lemma BegunCounts(st: State, step: Step)
    requires Begins(st, step)
    ensures var h, st', t := st.holders, Apply(st, step), step.t;
            && StrongCount(st') - StrongCount(st) == StrongShare(st'.holders, t) - StrongShare(h, t)
            && st'.weak - st.weak == WeakShare(st'.holders, t) - WeakShare(h, t)
            && !Stale(st', t) && Left(st'.holders, t) <= 5 && !Racy(st, step)
  {
  }

  /** The holder is what its operation is meant to make of it. */
  predicate AsMeant(st: State, t: Slot, meant: Ending) {
    var h := st.holders;
    match meant
    case Weakly => t in h && h[t].Weak?
    case Strongly => t in h && (h[t].Strong? || h[t].Lending?)
    case Undecided => if t in h then h[t].Strong? || h[t].Lending? else st.strong == 0
    case _ => t !in h
  }

  lemma ThroughAsMeant(st: State, t: Slot, meant: Ending)
    requires Leads(meant, Prospect(st.holders, t)) && !Busy(st.holders, t) && !meant.Plain?
    requires meant.Undecided? && Prospect(st.holders, t).Vanishes? ==> st.strong == 0
    ensures AsMeant(st, t, meant)
  {
  }

  /**
    Every operation ends as it is meant, in every interleaving without a race. It can always go on,
    and is through after at most five further steps and two for every change that others make to
    the strong count. Then its own steps have changed both counts by what its holder has gained or
    given up. An attempt ends with a strong reference, or the strong references are all gone.
   */
  lemma EveryOperationEnds(st: State, begin: Step, run: Run)
    requires Inv(st) && Paired(st.holders) && Begins(st, begin)
    requires var begun := Apply(st, begin); Runs(begun, run) && RaceFree(begun, run) && LeftAlone(begun, run, begin.t)
    ensures var t, begun := begin.t, Apply(st, begin);
            var end := Reached(begun, run);
            && OwnSteps(run, t) <= 5 + 2 * Changes(begun, run, t)
            && (Busy(end.holders, t) ==> exists step: Step :: step.t == t && Enabled(end, step))
            && (!Busy(end.holders, t) ==> AsMeant(end, t, Meant(begin)))
            && StrongCount(begun) - StrongCount(st) + StrongEarned(begun, run, t)
               == StrongShare(end.holders, t) - StrongShare(st.holders, t)
            && begun.weak - st.weak + WeakEarned(begun, run, t) == WeakShare(end.holders, t) - WeakShare(st.holders, t)
  {
    var t, begun := begin.t, Apply(st, begin);
    BeginEnabled(st, begin);
    BegunAsMeant(st, begin);
    BegunCounts(st, begin);
    hide Inv, Paired, Enabled, Apply, StrongEarned, WeakEarned, Busy, Racy, Prospect, Begins, Stale, Left,
      StrongCount, StrongShare, WeakShare, AsMeant, Changes, Lost, Meant;
    StepKeeps(st, begin);
    PairedKept(st, begin);
    OperationEnds(begun, run, t);
    LostOnlyToOthers(begun, run, t);
    var end := Reached(begun, run);
    if Busy(end.holders, t) {
      var step := CanGoOn(end, t);
    } else {
      if Meant(begin).Undecided? && Prospect(end.holders, t).Vanishes? {
        RefusedForGood(begun, run, t);
      }
      MeantIsNotPlain(begin);
      ThroughAsMeant(end, t, Meant(begin));
    }
  }

  lemma BeginEnabled(st: State, step: Step)
    requires Begins(st, step)
    ensures Enabled(st, step)
  {
  }

  lemma MeantIsNotPlain(step: Step)
    ensures !Meant(step).Plain?
  {
  }

  /**
    wptr::promote in particular: it can start on every wptr, and when it is through it has taken one
    strong and one weak reference more; or it has taken none and the strong references are all gone.
   */
  lemma PromoteEnds(st: State, s: Slot, t: Slot, run: Run)
    requires Inv(st) && Paired(st.holders) && s in st.holders && st.holders[s].Weak?
    requires t !in st.holders && |st.holders| + 1 < INITIAL
    ensures Enabled(st, Attempt(s, t))
    ensures var begun := Apply(st, Attempt(s, t));
            Runs(begun, run) && RaceFree(begun, run) && LeftAlone(begun, run, t) ==>
              var end := Reached(begun, run);
              var strong, weak := StrongEarned(begun, run, t), begun.weak - st.weak + WeakEarned(begun, run, t);
              && (t in end.holders && !Busy(end.holders, t) ==>
                    (end.holders[t].Strong? || end.holders[t].Lending?) && strong == weak == 1)
              && (t !in end.holders ==> end.strong == 0 && strong == weak == 0)
  {
    var begun := Apply(st, Attempt(s, t));
    hide Inv, Paired, StrongEarned, WeakEarned, Runs, RaceFree, LeftAlone, Reached, Changes, Enabled;
    OwnersMayBegin(st, s, t);
    if Runs(begun, run) && RaceFree(begun, run) && LeftAlone(begun, run, t) {
      EveryOperationEnds(st, Attempt(s, t), run);
    }
  }

  // ---- everything can be released --------------------------------------------------

  function Append(a: Run, b: Run): Run {
    if a.Done? then b else Then(a.step, Append(a.rest, b))
  }

  lemma {:induction false} RunsOn(st: State, a: Run, b: Run)
    requires Runs(st, a) && RaceFree(st, a) && Runs(Reached(st, a), b) && RaceFree(Reached(st, a), b)
    ensures var run := Append(a, b);
            Runs(st, run) && RaceFree(st, run) && Reached(st, run) == Reached(Reached(st, a), b)
    decreases a
  {
    hide Enabled, Apply, Racy;
    if a.Then? {
      RunsOn(Apply(st, a.step), a.rest, b);
    }
  }

  ghost predicate Sound(st: State) {
    Inv(st) && Paired(st.holders) && Alone(st)
  }

  lemma SoundKept(st: State, step: Step)
    requires Sound(st) && Enabled(st, step) && Orderly(st, step)
    ensures !Racy(st, step) && Sound(Apply(st, step))
  {
    hide Inv, Paired, Alone, Enabled, Apply, Racy, Orderly;
    AloneIsRaceFree(st, step);
    StepKeeps(st, step);
    PairedKept(st, step);
    AloneKeeps(st, step);
  }

  /** After every orderly run the state is sound. */
  lemma {:induction false} OrderlyIsSound(st: State, run: Run)
    requires Sound(st) && Runs(st, run) && OrderlyRun(st, run)
    ensures Sound(Reached(st, run))
    decreases run
  {
    hide Sound, Enabled, Apply, Orderly;
    if run.Then? {
      SoundKept(st, run.step);
      OrderlyIsSound(Apply(st, run.step), run.rest);
    }
  }

  lemma StartIsSound()
    ensures Sound(START)
  {
    StartHolds();
  }

  /** One operation goes on to its end while the others stand still. */
  lemma {:induction false} FinishOne(st: State, t: Slot) returns (run: Run)
    requires Sound(st)
    ensures Runs(st, run) && RaceFree(st, run)
    ensures var h, end := st.holders, Reached(st, run);
            && Sound(end) && !Busy(end.holders, t) && Leads(Prospect(h, t), Prospect(end.holders, t))
            && forall u | u != t :: (u in end.holders <==> u in h) && (Busy(end.holders, u) <==> Busy(h, u))
    decreases Left(st.holders, t) + 2 * (if Stale(st, t) then 1 else 0)
  {
    hide Inv, Paired, Alone, Enabled, Apply, Racy, Prospect, Left, Stale, Busy, Loses;
    run := Done;
    if Busy(st.holders, t) {
      var step := CanGoOn(st, t);
      SoundKept(st, step);
      OwnStepLeads(st, step, t);
      StaleOnlyByOthers(st, step, t);
      forall u | u != t
        ensures (u in Apply(st, step).holders <==> u in st.holders) && (Busy(Apply(st, step).holders, u) <==> Busy(st.holders, u))
      {
        OthersStep(st, step, u);
      }
      var rest := FinishOne(Apply(st, step), t);
      run := Then(step, rest);
    }
  }

  function AllBusy(h: Holders): set<Slot> {
    set t | t in h && Busy(h, t)
  }

  /** Every operation in flight can go on to its end. */
  lemma {:induction false} FinishAll(st: State) returns (run: Run)
    requires Sound(st)
    ensures Runs(st, run) && RaceFree(st, run)
    ensures var end := Reached(st, run);
            Sound(end) && forall t :: !Busy(end.holders, t)
    decreases |AllBusy(st.holders)|
  {
    hide Sound, Enabled, Apply, Racy, Prospect;
    run := Done;
    if AllBusy(st.holders) != {} {
      var t :| t in AllBusy(st.holders);
      var first := FinishOne(st, t);
      var mid := Reached(st, first);
      assert AllBusy(mid.holders) <= AllBusy(st.holders) - {t};
      SubsetSize(AllBusy(mid.holders), AllBusy(st.holders) - {t});
      var rest := FinishAll(mid);
      RunsOn(st, first, rest);
      run := Append(first, rest);
    } else {
      forall t
        ensures !Busy(st.holders, t)
      {
        assert t !in AllBusy(st.holders);
      }
    }
  }

  lemma NoLender(h: Holders, t: Slot)
    requires Paired(h) && t in h && forall u :: !Busy(h, u)
    ensures h[t].Raw? || h[t].Strong? || h[t].Weak?
  {
    assert !Busy(h, t);
    if h[t].Lending? {
      CopyIsBusy(h, t);
    }
  }

  lemma CopyIsBusy(h: Holders, s: Slot)
    requires Paired(h) && s in h && h[s].Lending?
    ensures Busy(h, h[s].copy)
  {
    assert Lends(h, s, h[s].copy);
    assert Joins(h, h[s].copy);
  }

  /** A step that begins an operation of t and concerns no other holder. */
  lemma BeginOne(st: State, step: Step, t: Slot)
    requires Sound(st) && Enabled(st, step) && step.t == t && (step.RawWeak? || step.DropStrong? || step.DropWeak?)
    requires forall u :: !Busy(st.holders, u)
    ensures !Racy(st, step) && Sound(Apply(st, step)) && Prospect(Apply(st, step).holders, t) == Meant(step)
    ensures step.RawWeak? ==> Enabled(Apply(st, step), DropWeak(t)) && !Busy(Apply(st, step).holders, t)
    ensures forall u | u != t :: (u in Apply(st, step).holders <==> u in st.holders) && !Busy(Apply(st, step).holders, u)
  {
    hide Sound;
    SoundKept(st, step);
    BegunAsMeant(st, step);
    forall u | u != t
      ensures (u in Apply(st, step).holders <==> u in st.holders) && !Busy(Apply(st, step).holders, u)
    {
      OthersStep(st, step, u);
    }
  }

  lemma OneStep(st: State, step: Step)
    requires Enabled(st, step) && !Racy(st, step)
    ensures var run := Then(step, Done);
            Runs(st, run) && RaceFree(st, run) && Reached(st, run) == Apply(st, step)
  {
  }

  /** A settled holder starts to let go. */
  lemma BeginsToGo(st: State, t: Slot) returns (run: Run)
    requires Sound(st) && t in st.holders && forall u :: !Busy(st.holders, u)
    ensures Runs(st, run) && RaceFree(st, run)
    ensures var h, end := st.holders, Reached(st, run);
            && Sound(end) && Prospect(end.holders, t).Vanishes?
            && forall u | u != t :: (u in end.holders <==> u in h) && !Busy(end.holders, u)
  {
    var step := FirstStep(st, t);
    hide Sound, Apply, Enabled, Prospect, Racy, Busy, Runs, RaceFree, Reached;
    BeginOne(st, step, t);
    OneStep(st, step);
    run := Then(step, Done);
    if step.RawWeak? {
      var mid := Apply(st, step);
      BeginOne(mid, DropWeak(t), t);
      OneStep(mid, DropWeak(t));
      RunsOn(st, run, Then(DropWeak(t), Done));
      run := Append(run, Then(DropWeak(t), Done));
    }
  }

  lemma FirstStep(st: State, t: Slot) returns (step: Step)
    requires Sound(st) && t in st.holders && forall u :: !Busy(st.holders, u)
    ensures Enabled(st, step) && step.t == t && (step.RawWeak? || step.DropStrong? || step.DropWeak?)
  {
    var h := st.holders;
    hide Inv, Alone, Paired;
    NoLender(h, t);
    step := if h[t].Raw? then RawWeak(t) else if h[t].Strong? then DropStrong(t) else DropWeak(t);
  }

  /** Settled holders can let go one after the other. */
  lemma {:induction false} DropAll(st: State) returns (run: Run)
    requires Sound(st) && forall t :: !Busy(st.holders, t)
    ensures Runs(st, run) && RaceFree(st, run)
    ensures Sound(Reached(st, run)) && Reached(st, run).holders == map[]
    decreases |st.holders|
  {
    hide Sound, Enabled, Apply, Racy;
    run := Done;
    if st.holders != map[] {
      var t :| t in st.holders;
      var first := BeginsToGo(st, t);
      var mid := Reached(st, first);
      var second := FinishOne(mid, t);
      RunsOn(st, first, second);
      var gone := Reached(mid, second);
      assert t !in gone.holders;
      assert gone.holders.Keys <= st.holders.Keys - {t};
      SubsetSize(gone.holders.Keys, st.holders.Keys - {t});
      var rest := DropAll(gone);
      RunsOn(st, Append(first, second), rest);
      run := Append(Append(first, second), rest);
    }
  }

  /**
    After every orderly run, in the middle of whatever operations, there is a way to the end without
    a race, at which no holder is left and the atom has been destroyed and freed, once.
   */
  lemma EverythingCanBeReleased(before: Run) returns (run: Run)
    requires Runs(START, before) && OrderlyRun(START, before)
    ensures var st := Reached(START, before);
            && Runs(st, run) && RaceFree(st, run)
            && var end := Reached(st, run);
            && Safe(end) && end.holders == map[] && end.destructions == 1 && end.frees == 1
  {
    StartIsSound();
    OrderlyIsSound(START, before);
    hide Enabled, Apply, Racy;
    var st := Reached(START, before);
    var first := FinishAll(st);
    var second := DropAll(Reached(st, first));
    RunsOn(st, first, second);
    run := Append(first, second);
    InvIsSafe(Reached(st, run));
  }
}
