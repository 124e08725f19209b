/**
  The weak and strong counts of one SAtom, as the release build runs them: IncStrongFast,
  DecStrongFast, IncWeakFast, DecWeakFast and attempt_inc_strong (wptr::promote), with the default
  InitAtom, FinishAtom, IncStrongAttempted and DeleteAtom. Each step is one atomic access; the
  steps of different holders interleave freely.
 */
module WeakAtoms {
  import opened Collections

  /** INITIAL_PRIMARY_VALUE: the strong count of an atom that never had a strong reference. */
  const INITIAL := 0x1000_0000

  type Slot = nat

  /** What a holder of a pointer to the atom is doing. */
  datatype Stage =
    | Raw                    // the pointer that new returned
    | Entering               // IncStrongFast on a plain pointer: weak count taken
    | Strong                 // a settled sptr
    | Lending(copy: Slot)    // an sptr that is being copied
    | Joining                // the copy: weak count taken
    | Weak                   // a settled wptr
    | Trying                 // attempt_inc_strong: weak count taken, strong count not yet read
    | Swapping(current: int) // ... about to compare-and-swap
    | Asking(current: int)   // ... about to ask IncStrongAttempted
    | Reviving               // ... allowed, about to increment
    | Subtracting            // first strong reference: about to take INITIAL away
    | Initialising           // ... and about to call InitAtom
    | Finishing              // the strong count went from one to zero: about to delete this
    | Dropping               // about to give up the weak count that goes with a strong one
    | Freeing                // the weak count went from one to zero

  type Holders = map<Slot, Stage>

  /**
    `sized` is m_base->size > 0. `subtractions`, `inits`, `destructions`, `frees` and `errors`
    record how often INITIAL was taken away, InitAtom called, the destructor run, the memory
    freed and ErrFatalError reached.
   */
  datatype State = State(strong: int, weak: int, sized: bool, holders: Holders,
                         subtractions: nat, inits: nat, destructions: nat, frees: nat, errors: nat)

  const START := State(INITIAL, 0, false, map[0 := Raw], 0, 0, 0, 0, 0)

  // ---- the machine -----------------------------------------------------------------

  datatype Step =
    | RawWeak(t: Slot)              // wptr from the new pointer
    | RawStrong(t: Slot)            // sptr from the new pointer: IncWeakFast
    | Claim(s: Slot, t: Slot)       // sptr t from a plain pointer that the wptr s keeps valid: IncWeakFast
    | Enter(t: Slot)                // ... and the strong increment
    | Subtract(t: Slot)
    | Init(t: Slot)
    | CopyWeak(s: Slot, t: Slot)    // wptr t from the holder s
    | CopyStrong(s: Slot, t: Slot)  // sptr t from the sptr s: IncWeakFast
    | CopyCount(s: Slot, t: Slot)   // ... and the strong increment
    | Attempt(s: Slot, t: Slot)     // promote the wptr s into t: IncWeakFast
    | Read(t: Slot)                 // current = strong_count()
    | Swap(t: Slot)                 // atomicCompareAndSwap32
    | Ask(t: Slot)                  // m_base->size > 0 || IncStrongAttempted(...) < B_OK
    | Revive(t: Slot)               // current = atomicInc32(strong_addr())
    | DropStrong(t: Slot)           // DecStrongFast
    | Destroy(t: Slot)              // delete this
    | DropWeak(t: Slot)             // DecWeakFast
    | Free(t: Slot)

  /** The slot is not in use, and one more holder leaves the strong count below INITIAL. */
  predicate Unused(h: Holders, t: Slot) {
    t !in h && |h| + 1 < INITIAL
  }

  predicate Enabled(st: State, step: Step) {
    var h := st.holders;
    match step
    case RawWeak(t) => t in h && h[t].Raw?
    case RawStrong(t) => t in h && h[t].Raw?
    case Claim(s, t) => s in h && h[s].Weak? && Unused(h, t)
    case Enter(t) => t in h && h[t].Entering?
    case Subtract(t) => t in h && h[t].Subtracting?
    case Init(t) => t in h && h[t].Initialising?
    case CopyWeak(s, t) => s in h && (h[s].Weak? || h[s].Strong?) && Unused(h, t)
    case CopyStrong(s, t) => s in h && h[s].Strong? && Unused(h, t)
    case CopyCount(s, t) => s in h && t in h && h[s] == Lending(t) && h[t].Joining?
    case Attempt(s, t) => s in h && h[s].Weak? && Unused(h, t)
    case Read(t) => t in h && h[t].Trying?
    case Swap(t) => t in h && h[t].Swapping?
    case Ask(t) => t in h && h[t].Asking?
    case Revive(t) => t in h && h[t].Reviving?
    case DropStrong(t) => t in h && h[t].Strong?
    case Destroy(t) => t in h && h[t].Finishing?
    case DropWeak(t) => t in h && (h[t].Weak? || h[t].Dropping?)
    case Free(t) => t in h && h[t].Freeing?
  }

  /** Where IncStrongFast goes after an increment that found `r`. */
  function AfterIncrement(r: int): Stage {
    if r == INITIAL then Subtracting else Strong
  }

  /** Where attempt_inc_strong goes after it has read `current`. */
  function AfterRead(current: int): Stage {
    if 0 < current < INITIAL then Swapping(current)
    else if current <= 0 || current == INITIAL then Asking(current)
    else Strong
  }

  function Apply(st: State, step: Step): State
    requires Enabled(st, step)
  {
    var h := st.holders;
    match step
    case RawWeak(t) => st.(weak := st.weak + 1, holders := h[t := Weak])
    case RawStrong(t) => st.(weak := st.weak + 1, holders := h[t := Entering])
    case Claim(s, t) => st.(weak := st.weak + 1, holders := h[t := Entering])
    case Enter(t) => st.(strong := st.strong + 1, holders := h[t := AfterIncrement(st.strong)])
    case Subtract(t) =>
      st.(strong := st.strong - INITIAL, subtractions := st.subtractions + 1, holders := h[t := Initialising])
    case Init(t) => st.(inits := st.inits + 1, holders := h[t := Strong])
    case CopyWeak(s, t) => st.(weak := st.weak + 1, holders := h[t := Weak])
    case CopyStrong(s, t) => st.(weak := st.weak + 1, holders := h[s := Lending(t)][t := Joining])
    case CopyCount(s, t) =>
      st.(strong := st.strong + 1, holders := h[s := Strong][t := AfterIncrement(st.strong)])
    case Attempt(s, t) => st.(weak := st.weak + 1, holders := h[t := Trying])
    case Read(t) => st.(holders := h[t := AfterRead(st.strong)])
    case Swap(t) =>
      if st.strong == h[t].current
      then st.(strong := st.strong + 1, holders := h[t := Strong])
      else st.(holders := h[t := Trying])
    case Ask(t) =>
      var die := st.sized || h[t].current != INITIAL;
      st.(holders := h[t := if die then Dropping else Reviving])
    case Revive(t) =>
      // FinishAtom returns B_OK, which the code reports as an error
      var error := 0 < st.strong < INITIAL;
      st.(strong := st.strong + 1, holders := h[t := AfterIncrement(st.strong)],
          errors := st.errors + if error then 1 else 0)
    case DropStrong(t) =>
      st.(strong := st.strong - 1, holders := h[t := if st.strong == 1 then Finishing else Dropping])
    case Destroy(t) =>
      var error := st.weak != 0 && st.strong != 0 && st.strong != INITIAL;
      st.(destructions := st.destructions + 1, sized := st.weak != 0,
          frees := st.frees + (if st.weak == 0 then 1 else 0),
          errors := st.errors + (if error then 1 else 0), holders := h[t := Dropping])
    case DropWeak(t) =>
      if st.weak == 1
      then st.(weak := st.weak - 1, holders := h[t := Freeing])
      else st.(weak := st.weak - 1, holders := h - {t})
    case Free(t) =>
      // a sized atom has been destroyed already; another one is deleted here
      st.(frees := st.frees + 1, destructions := st.destructions + (if st.sized then 0 else 1), holders := h - {t})
  }

  // ---- tallies ---------------------------------------------------------------------

  datatype Role = Newborn | Present | Counted | First | Beginner | Last | Undertaker | Refused | Misread

  predicate Plays(stage: Stage, role: Role) {
    match role
    case Newborn => stage.Raw?
    case Present => !stage.Raw? && !stage.Freeing?  // owns a weak count
    case Counted => stage.Strong? || stage.Lending? || stage.Subtracting? || stage.Initialising?  // owns a strong count
    case First => stage.Subtracting?
    case Beginner => stage.Initialising?
    case Last => stage.Finishing?
    case Undertaker => stage.Freeing?
    case Refused => stage.Asking? && stage.current != INITIAL
    case Misread => stage.Swapping? && !(0 < stage.current < INITIAL)
  }

  function Players(h: Holders, role: Role): set<Slot> {
    set s | s in h && Plays(h[s], role)
  }

  /** How many holders play the role. */
  function Tally(h: Holders, role: Role): nat {
    |Players(h, role)|
  }

  /** A tally after one holder has changed. */
  function Shifted(k: int, was: bool, becomes: bool): int {
    if was == becomes then k else if becomes then k + 1 else k - 1
  }

  lemma RemoveTally(h: Holders, t: Slot, role: Role)
    requires t in h
    ensures Tally(h - {t}, role) == Shifted(Tally(h, role), Plays(h[t], role), false)
  {
    hide Plays;
    assert Players(h - {t}, role) == Players(h, role) - {t};
  }

  lemma AddPlayer(h: Holders, t: Slot, stage: Stage, role: Role)
    requires t !in h
    ensures Players(h[t := stage], role) == Players(h, role) + if Plays(stage, role) then {t} else {}
  {
  }

  lemma AddTally(h: Holders, t: Slot, stage: Stage, role: Role)
    requires t !in h
    ensures Tally(h[t := stage], role) == Shifted(Tally(h, role), false, Plays(stage, role))
  {
    hide Plays;
    AddPlayer(h, t, stage, role);
    assert t !in Players(h, role);
    hide Players;
    if !Plays(stage, role) {
      assert Players(h[t := stage], role) == Players(h, role);
    }
  }

  lemma Leaves(h: Holders, t: Slot)
    requires t in h
    ensures forall role :: Tally(h - {t}, role) == Shifted(Tally(h, role), Plays(h[t], role), false)
    ensures |h - {t}| == |h| - 1
  {
    forall role ensures Tally(h - {t}, role) == Shifted(Tally(h, role), Plays(h[t], role), false) {
      RemoveTally(h, t, role);
    }
    assert (h - {t}).Keys == h.Keys - {t};
  }

  lemma Arrives(h: Holders, t: Slot, stage: Stage)
    requires t !in h
    ensures forall role :: Tally(h[t := stage], role) == Shifted(Tally(h, role), false, Plays(stage, role))
    ensures |h[t := stage]| == |h| + 1
  {
    forall role ensures Tally(h[t := stage], role) == Shifted(Tally(h, role), false, Plays(stage, role)) {
      AddTally(h, t, stage, role);
    }
  }

  lemma Moves(h: Holders, t: Slot, stage: Stage)
    requires t in h
    ensures forall role :: Tally(h[t := stage], role) == Shifted(Tally(h, role), Plays(h[t], role), Plays(stage, role))
    ensures |h[t := stage]| == |h|
  {
    hide Tally, Plays;
    Leaves(h, t);
    Arrives(h - {t}, t, stage);
    assert (h - {t})[t := stage] == h[t := stage];
  }

  lemma Counts(h: Holders, t: Slot)
    requires t in h
    ensures forall role :: Plays(h[t], role) ==> Tally(h, role) > 0
  {
    Leaves(h, t);
  }

  /** A role that implies another is played by no more holders. */
  lemma Implied(h: Holders, a: Role, b: Role)
    requires forall stage :: Plays(stage, a) ==> Plays(stage, b)
    ensures Tally(h, a) <= Tally(h, b)
  {
    SubsetSize(Players(h, a), Players(h, b));
  }

  lemma CountedArePresent(h: Holders)
    ensures Tally(h, Counted) + Tally(h, Last) <= Tally(h, Present)
  {
    var counted, last := Players(h, Counted), Players(h, Last);
    assert counted !! last;
    assert |counted + last| == |counted| + |last|;
    SubsetSize(counted + last, Players(h, Present));
  }

  lemma Bounds(h: Holders)
    ensures Tally(h, Counted) + Tally(h, Last) <= Tally(h, Present) <= |h|
    ensures Tally(h, Refused) <= Tally(h, Present)
    ensures Tally(h, First) <= Tally(h, Counted)
  {
    CountedArePresent(h);
    SubsetSize(Players(h, Present), h.Keys);
    Implied(h, Refused, Present);
    Implied(h, First, Counted);
  }

  // ---- safety ----------------------------------------------------------------------

  /**
    The counts are exact, a strongly held atom is neither destroyed nor about to be, a held atom is
    not freed, nothing happens twice, nothing is left over at the end, and no fatal error was reported.
   */
  ghost predicate Safe(st: State) {
    var h := st.holders;
    && st.strong == (if st.subtractions == 0 then INITIAL + Tally(h, Counted) else Tally(h, Counted))
    && st.weak == Tally(h, Present)
    && (Tally(h, Counted) > 0 ==> st.destructions == 0 && Tally(h, Last) == 0)
    && (Held(h) ==> st.frees == 0)
    && st.destructions <= 1 && st.frees <= 1 && st.inits <= 1
    && (h == map[] ==> st.destructions == 1 && st.frees == 1)
    && st.errors == 0
  }

  /** Whether a holder keeps the memory. */
  ghost predicate Held(h: Holders) {
    Tally(h, Newborn) > 0 || Tally(h, Present) > 0
  }

  /** The strong count, the destructor and the hooks. */
  ghost predicate StrongInv(st: State) {
    var h := st.holders;
    var first := st.subtractions == 0;
    var counted := Tally(h, Counted);
    && st.strong == (if first then INITIAL + counted else counted)
    && st.subtractions <= 1
    && Tally(h, Beginner) <= st.subtractions
    && st.inits == (if first || Tally(h, Beginner) == 1 then 0 else 1)
    && Tally(h, Misread) == 0
    && Tally(h, First) == (if first && counted > 0 then 1 else 0)
    && (first || counted > 0 ==> Tally(h, Last) == 0 && !st.sized && Tally(h, Refused) == 0)
    && (!first && counted == 0 ==> Tally(h, Last) == (if st.sized then 0 else 1))
    && st.destructions == (if st.sized || st.frees == 1 then 1 else 0)
    && st.errors == 0
  }

  /** The weak count and the memory: held, being freed, or freed. */
  ghost predicate WeakInv(st: State) {
    var h := st.holders;
    && st.weak == Tally(h, Present)
    && Tally(h, Newborn) <= 1 && (Tally(h, Newborn) == 1 ==> Tally(h, Present) == 0 && st.subtractions == 0)
    && st.frees <= 1 && Tally(h, Undertaker) <= 1
    && (Held(h) ==> st.frees == 0 && Tally(h, Undertaker) == 0)
    && (!Held(h) ==> (st.frees == 1) == (Tally(h, Undertaker) == 0))
  }

  ghost predicate Inv(st: State) {
    StrongInv(st) && WeakInv(st) && |st.holders| < INITIAL
  }

  /**
    The steps that go wrong. An attempt reads a count from which another first acquisition has yet
    to subtract INITIAL, and reports success without counting; or between its read and its increment
    another acquisition has subtracted INITIAL. A plain pointer is counted after the last release.
   */
  predicate Racy(st: State, step: Step) {
    || (step.Read? && st.strong > INITIAL)
    || (step.Revive? && st.strong < INITIAL)
    || (step.Enter? && st.strong == 0)
  }

  lemma StartTally(role: Role)
    ensures Tally(START.holders, role) == if role.Newborn? then 1 else 0
  {
    if role.Newborn? {
      assert Players(START.holders, role) == {0};
    } else {
      assert Players(START.holders, role) == {};
    }
  }

  lemma StartHolds()
    ensures Inv(START)
  {
    hide Tally;
    forall role ensures Tally(START.holders, role) == if role.Newborn? then 1 else 0 {
      StartTally(role);
    }
    assert |START.holders| == 1;
  }

  lemma InvIsSafe(st: State)
    requires Inv(st)
    ensures Safe(st)
  {
    Bounds(st.holders);
    if st.holders == map[] {
      assert forall role :: Players(st.holders, role) == {};
    }
  }

  lemma CopyWeakKeeps(st: State, step: Step)
    requires Inv(st) && Enabled(st, step) && (step.CopyWeak? || step.Attempt? || step.Claim?)
    ensures Inv(Apply(st, step))
  {
    hide Tally;
    var h := st.holders;
    Bounds(h);
    Counts(h, step.s);
    Arrives(h, step.t, if step.CopyWeak? then Weak else if step.Attempt? then Trying else Entering);
  }

  lemma CopyStrongKeeps(st: State, s: Slot, t: Slot)
    requires Inv(st) && Enabled(st, CopyStrong(s, t))
    ensures Inv(Apply(st, CopyStrong(s, t)))
  {
    hide Tally;
    var h := st.holders;
    Bounds(h);
    Counts(h, s);
    Moves(h, s, Lending(t));
    Arrives(h[s := Lending(t)], t, Joining);
  }

  lemma CopyCountKeeps(st: State, step: Step)
    requires Inv(st) && Enabled(st, step) && step.CopyCount?
    ensures Inv(Apply(st, step))
  {
    hide Tally;
    var h := st.holders;
    Bounds(h);
    Counts(h, step.s);
    Moves(h, step.s, Strong);
    Moves(h[step.s := Strong], step.t, Strong);
  }

  lemma DropWeakKeeps(st: State, step: Step)
    requires Inv(st) && Enabled(st, step) && step.DropWeak? && st.weak != 1
    ensures Inv(Apply(st, step))
  {
    hide Tally;
    var h := st.holders;
    Bounds(h);
    Leaves(h, step.t);
  }

  lemma DropLastWeakKeeps(st: State, step: Step)
    requires Inv(st) && Enabled(st, step) && step.DropWeak? && st.weak == 1
    ensures Inv(Apply(st, step))
  {
    hide Tally;
    var h := st.holders;
    Bounds(h);
    Moves(h, step.t, Freeing);
    Bounds(h[step.t := Freeing]);
  }

  lemma FreeKeeps(st: State, step: Step)
    requires Inv(st) && Enabled(st, step) && step.Free?
    ensures Inv(Apply(st, step))
  {
    hide Tally;
    var h := st.holders;
    Bounds(h);
    Leaves(h, step.t);
  }

  lemma RawWeakKeeps(st: State, step: Step)
    requires Inv(st) && Enabled(st, step) && step.RawWeak?
    ensures Inv(Apply(st, step))
  {
    hide Tally;
    var h := st.holders;
    Bounds(h);
    Counts(h, step.t);
    Moves(h, step.t, Apply(st, step).holders[step.t]);
  }

  lemma RawStrongKeeps(st: State, step: Step)
    requires Inv(st) && Enabled(st, step) && step.RawStrong?
    ensures Inv(Apply(st, step))
  {
    hide Tally;
    var h := st.holders;
    Bounds(h);
    Counts(h, step.t);
    Moves(h, step.t, Apply(st, step).holders[step.t]);
  }

  lemma EnterKeeps(st: State, step: Step)
    requires Inv(st) && Enabled(st, step) && step.Enter? && !Racy(st, step)
    ensures Inv(Apply(st, step))
  {
    hide Tally;
    var h := st.holders;
    Bounds(h);
    Counts(h, step.t);
    Moves(h, step.t, Apply(st, step).holders[step.t]);
  }

  lemma SubtractKeeps(st: State, step: Step)
    requires Inv(st) && Enabled(st, step) && step.Subtract?
    ensures Inv(Apply(st, step))
  {
    hide Tally;
    var h := st.holders;
    Bounds(h);
    Counts(h, step.t);
    Moves(h, step.t, Apply(st, step).holders[step.t]);
  }

  lemma InitKeeps(st: State, step: Step)
    requires Inv(st) && Enabled(st, step) && step.Init?
    ensures Inv(Apply(st, step))
  {
    hide Tally;
    var h := st.holders;
    Bounds(h);
    Counts(h, step.t);
    Moves(h, step.t, Apply(st, step).holders[step.t]);
  }

  lemma ReadKeeps(st: State, step: Step)
    requires Inv(st) && Enabled(st, step) && step.Read? && !Racy(st, step)
    ensures Inv(Apply(st, step))
  {
    hide Tally;
    var h := st.holders;
    Bounds(h);
    Counts(h, step.t);
    Moves(h, step.t, Apply(st, step).holders[step.t]);
  }

  lemma SwapKeeps(st: State, step: Step)
    requires Inv(st) && Enabled(st, step) && step.Swap?
    ensures Inv(Apply(st, step))
  {
    hide Tally;
    var h := st.holders;
    Bounds(h);
    Counts(h, step.t);
    Moves(h, step.t, Apply(st, step).holders[step.t]);
  }

  lemma AskKeeps(st: State, step: Step)
    requires Inv(st) && Enabled(st, step) && step.Ask?
    ensures Inv(Apply(st, step))
  {
    hide Tally;
    var h := st.holders;
    Bounds(h);
    Counts(h, step.t);
    Moves(h, step.t, Apply(st, step).holders[step.t]);
  }

  lemma ReviveKeeps(st: State, step: Step)
    requires Inv(st) && Enabled(st, step) && step.Revive? && !Racy(st, step)
    ensures Inv(Apply(st, step))
  {
    hide Tally;
    var h := st.holders;
    Bounds(h);
    Counts(h, step.t);
    Moves(h, step.t, Apply(st, step).holders[step.t]);
  }

  lemma DropStrongKeeps(st: State, step: Step)
    requires Inv(st) && Enabled(st, step) && step.DropStrong?
    ensures Inv(Apply(st, step))
  {
    hide Tally;
    var h := st.holders;
    Bounds(h);
    Counts(h, step.t);
    Moves(h, step.t, Apply(st, step).holders[step.t]);
    Bounds(Apply(st, step).holders);
  }

  lemma DestroyKeeps(st: State, step: Step)
    requires Inv(st) && Enabled(st, step) && step.Destroy?
    ensures Inv(Apply(st, step))
  {
    hide Tally;
    var h := st.holders;
    Bounds(h);
    Counts(h, step.t);
    Moves(h, step.t, Apply(st, step).holders[step.t]);
  }

  lemma StepKeeps(st: State, step: Step)
    requires Inv(st) && Enabled(st, step) && !Racy(st, step)
    ensures Inv(Apply(st, step))
  {
    hide Inv, Apply;
    match step
    case RawWeak(_) => RawWeakKeeps(st, step);
    case RawStrong(_) => RawStrongKeeps(st, step);
    case Claim(_, _) => CopyWeakKeeps(st, step);
    case Enter(_) => EnterKeeps(st, step);
    case Subtract(_) => SubtractKeeps(st, step);
    case Init(_) => InitKeeps(st, step);
    case CopyWeak(_, _) => CopyWeakKeeps(st, step);
    case CopyStrong(s, t) => CopyStrongKeeps(st, s, t);
    case CopyCount(_, _) => CopyCountKeeps(st, step);
    case Attempt(_, _) => CopyWeakKeeps(st, step);
    case Read(_) => ReadKeeps(st, step);
    case Swap(_) => SwapKeeps(st, step);
    case Ask(_) => AskKeeps(st, step);
    case Revive(_) => ReviveKeeps(st, step);
    case DropStrong(_) => DropStrongKeeps(st, step);
    case Destroy(_) => DestroyKeeps(st, step);
    case DropWeak(_) => if st.weak == 1 { DropLastWeakKeeps(st, step); } else { DropWeakKeeps(st, step); }
    case Free(_) => FreeKeeps(st, step);
  }

  lemma RacyIsUnsafe(st: State, step: Step)
    requires Inv(st) && Enabled(st, step) && Racy(st, step)
    ensures !Safe(Apply(st, step))
  {
    hide Tally;
    Bounds(st.holders);
    Moves(st.holders, step.t, Apply(st, step).holders[step.t]);
  }

  // ---- runs ------------------------------------------------------------------------

  datatype Run = Done | Then(step: Step, rest: Run)

  predicate Runs(st: State, run: Run)
    decreases run
  {
    run.Done? || (Enabled(st, run.step) && Runs(Apply(st, run.step), run.rest))
  }

  function Reached(st: State, run: Run): State
    requires Runs(st, run)
    decreases run
  {
    if run.Done? then st else Reached(Apply(st, run.step), run.rest)
  }

  /** Every state of the run is safe. */
  ghost predicate SafeThroughout(st: State, run: Run)
    requires Runs(st, run)
    decreases run
  {
    Safe(st) && (run.Then? ==> SafeThroughout(Apply(st, run.step), run.rest))
  }

  /** No step of the run is racy. */
  predicate RaceFree(st: State, run: Run)
    requires Runs(st, run)
    decreases run
  {
    run.Then? ==> !Racy(st, run.step) && RaceFree(Apply(st, run.step), run.rest)
  }

  lemma {:induction false} SafeIffRaceFree(st: State, run: Run)
    requires Inv(st) && Runs(st, run)
    ensures SafeThroughout(st, run) <==> RaceFree(st, run)
    decreases run
  {
    hide Inv, Safe, Racy, Apply, Enabled;
    InvIsSafe(st);
    if run.Then? {
      if Racy(st, run.step) {
        RacyIsUnsafe(st, run.step);
      } else {
        StepKeeps(st, run.step);
        SafeIffRaceFree(Apply(st, run.step), run.rest);
      }
    }
  }

  /** In every interleaving from new on: the atom is safe throughout if and only if no step is racy. */
  lemma EveryRunIsSafeIffRaceFree(run: Run)
    requires Runs(START, run)
    ensures SafeThroughout(START, run) <==> RaceFree(START, run)
  {
    StartHolds();
    SafeIffRaceFree(START, run);
  }

  // ---- first acquisitions that do not overlap --------------------------------------

  /** The holder is on its way to a strong reference that nobody lends it. */
  predicate Acquiring(stage: Stage) {
    stage.Entering? || stage.Trying? || stage.Swapping? || stage.Asking? || stage.Reviving? || stage.Subtracting?
  }

  /**
    While the atom never had a strong reference, an attempt starts only when no other acquisition
    runs. A plain pointer is counted only then; later there are strong pointers to copy.
   */
  predicate Orderly(st: State, step: Step) {
    && (step.Claim? ==> st.subtractions == 0)
    && ((step.Attempt? || step.Claim?) && st.subtractions == 0 ==>
          forall t | t in st.holders :: !Acquiring(st.holders[t]))
  }

  predicate OrderlyRun(st: State, run: Run)
    requires Runs(st, run)
    decreases run
  {
    run.Then? ==> Orderly(st, run.step) && OrderlyRun(Apply(st, run.step), run.rest)
  }

  /** The holder acts on having seen an atom that never had a strong reference. */
  predicate SawNew(stage: Stage) {
    stage.Reviving? || stage == Asking(INITIAL) || stage.Entering?
  }

  ghost predicate Alone(st: State) {
    var h := st.holders;
    if st.subtractions == 0
    then forall t, u | t in h && u in h && Acquiring(h[t]) && Acquiring(h[u]) :: t == u
    else forall t | t in h :: !SawNew(h[t])
  }

  lemma SomeonePlays(h: Holders, role: Role) returns (t: Slot)
    requires Tally(h, role) > 0
    ensures t in h && Plays(h[t], role)
  {
    t :| t in Players(h, role);
  }

  lemma AloneIsRaceFree(st: State, step: Step)
    requires Inv(st) && Alone(st) && Enabled(st, step)
    ensures !Racy(st, step)
  {
    hide Tally;
    Bounds(st.holders);
    if step.Read? && st.strong > INITIAL {
      var u := SomeonePlays(st.holders, First);
    }
  }

  lemma UsedStaysAlone(st: State, step: Step)
    requires Inv(st) && Alone(st) && Enabled(st, step) && st.subtractions == 1 && Orderly(st, step) && !step.RawStrong?
    ensures Alone(Apply(st, step))
  {
    hide Tally;
    Bounds(st.holders);
  }

  lemma UnusedStaysAlone(st: State, step: Step)
    requires Inv(st) && Alone(st) && Enabled(st, step) && Orderly(st, step) && st.subtractions == 0 && !step.RawStrong?
    ensures Alone(Apply(st, step))
  {
    hide Tally;
    if step.CopyCount? {
      Counts(st.holders, step.s);
    }
    AloneIsRaceFree(st, step);
  }

  lemma RawIsAlone(st: State, step: Step)
    requires Inv(st) && Enabled(st, step) && step.RawStrong?
    ensures Alone(Apply(st, step))
  {
    hide Tally;
    var h := st.holders;
    Counts(h, step.t);
    forall u | u in h && u != step.t
      ensures !Acquiring(h[u])
    {
      Counts(h, u);
    }
  }

  lemma AloneKeeps(st: State, step: Step)
    requires Inv(st) && Alone(st) && Enabled(st, step) && Orderly(st, step)
    ensures Alone(Apply(st, step))
  {
    hide Tally;
    if step.RawStrong? {
      RawIsAlone(st, step);
    } else if st.subtractions == 0 {
      UnusedStaysAlone(st, step);
    } else {
      UsedStaysAlone(st, step);
    }
  }

  lemma {:induction false} OrderlyRunKeeps(st: State, run: Run)
    requires Inv(st) && Alone(st) && Runs(st, run) && OrderlyRun(st, run)
    ensures RaceFree(st, run)
    decreases run
  {
    hide Inv, Racy, Apply, Enabled, Orderly, Alone;
    if run.Then? {
      AloneIsRaceFree(st, run.step);
      StepKeeps(st, run.step);
      AloneKeeps(st, run.step);
      OrderlyRunKeeps(Apply(st, run.step), run.rest);
    }
  }

  /** Attempts that do not overlap another first acquisition leave the atom safe throughout. */
  lemma OrderlyRunsAreSafe(run: Run)
    requires Runs(START, run) && OrderlyRun(START, run)
    ensures SafeThroughout(START, run)
  {
    StartHolds();
    OrderlyRunKeeps(START, run);
    EveryRunIsSafeIffRaceFree(run);
  }

  // ---- what an attempt reports -----------------------------------------------------

  /** The holder is in the middle of attempt_inc_strong. */
  predicate Attempting(stage: Stage) {
    stage.Trying? || stage.Swapping? || stage.Asking? || stage.Reviving?
  }

  /** Whatever step refuses an attempt, the atom had strong references and all of them are gone. */
  lemma RefusedOnlyAfterRelease(st: State, step: Step)
    requires Inv(st) && Enabled(st, step) && step.t in st.holders && Attempting(st.holders[step.t])
    requires step.t !in Apply(st, step).holders || Apply(st, step).holders[step.t].Dropping?
    ensures st.strong == 0 && st.subtractions == 1
  {
    hide Tally;
    Counts(st.holders, step.t);
  }

  /** An atom whose strong references are all gone stays so. */
  lemma ReleasedForGood(st: State, step: Step)
    requires Inv(st) && Enabled(st, step) && !Racy(st, step) && st.strong == 0
    ensures Apply(st, step).strong == 0 && Apply(st, step).subtractions == st.subtractions == 1
  {
    hide Tally;
    if step.CopyCount? {
      Counts(st.holders, step.s);
    } else if step.t in st.holders {
      Counts(st.holders, step.t);
    }
  }

  // ---- the races -------------------------------------------------------------------

  /** Two wptr attempt the first strong reference; both have taken their weak count. */
  const PAIR := State(INITIAL, 3, false, map[0 := Weak, 1 := Trying, 2 := Trying], 0, 0, 0, 0, 0)

  lemma PairIsReached()
    ensures var run := Then(RawWeak(0), Then(Attempt(0, 1), Then(Attempt(0, 2), Done)));
            Runs(START, run) && Reached(START, run) == PAIR
  {}

  /** The first attempt has yet to subtract; the second has read INITIAL + 1 and reported success without counting. */
  const RACED := State(INITIAL + 1, 3, false, map[0 := Weak, 1 := Subtracting, 2 := Strong], 0, 0, 0, 0, 0)

  lemma UncountedSuccess()
    ensures var run := Then(Read(1), Then(Ask(1), Then(Revive(1), Then(Read(2), Done))));
            Runs(PAIR, run) && Reached(PAIR, run) == RACED
  {}

  /** When the first lets go, the atom is destroyed under the second. */
  lemma DestroyedWhileHeld()
    ensures var run := Then(Subtract(1), Then(Init(1), Then(DropStrong(1), Then(Destroy(1), Done))));
            Runs(RACED, run) &&
            Reached(RACED, run) == State(0, 3, true, map[0 := Weak, 1 := Dropping, 2 := Strong], 1, 1, 1, 0, 0)
  {}

  /** Both attempts have read INITIAL and are allowed to go on. */
  const ALLOWED := State(INITIAL, 3, false, map[0 := Weak, 1 := Reviving, 2 := Reviving], 0, 0, 0, 0, 0)

  lemma BothAllowed()
    ensures var run := Then(Read(1), Then(Ask(1), Then(Read(2), Then(Ask(2), Done))));
            Runs(PAIR, run) && Reached(PAIR, run) == ALLOWED
  {}

  /** The first has its reference, the second has yet to increment. */
  const LATE := State(1, 3, false, map[0 := Weak, 1 := Strong, 2 := Reviving], 1, 1, 0, 0, 0)

  lemma OneIsLate()
    ensures var run := Then(Revive(1), Then(Subtract(1), Then(Init(1), Done)));
            Runs(ALLOWED, run) && Reached(ALLOWED, run) == LATE
  {}

  /** The second attempt ends in a fatal error, its own or that of the destructor, or revives a destroyed atom. */
  lemma LateIncrement()
    ensures Enabled(LATE, Revive(2)) && Apply(LATE, Revive(2)).errors == 1
    ensures var run := Then(DropStrong(1), Then(Destroy(1), Then(Revive(2), Done)));
            Runs(LATE, run) &&
            Reached(LATE, run) == State(1, 3, true, map[0 := Weak, 1 := Dropping, 2 := Strong], 1, 1, 1, 0, 0)
    ensures var run := Then(DropStrong(1), Then(Revive(2), Then(Destroy(1), Done)));
            Runs(LATE, run) && Reached(LATE, run).errors == 1
  {}

  /** A plain pointer about to be counted, and an attempt. */
  const CLAIMED := State(INITIAL, 3, false, map[0 := Weak, 1 := Entering, 2 := Trying], 0, 0, 0, 0, 0)

  lemma ClaimIsReached()
    ensures var run := Then(RawWeak(0), Then(Claim(0, 1), Then(Attempt(0, 2), Done)));
            Runs(START, run) && Reached(START, run) == CLAIMED
  {}

  /** The attempt has taken the first reference. */
  const OVERTAKEN := State(INITIAL + 1, 3, false, map[0 := Weak, 1 := Entering, 2 := Subtracting], 0, 0, 0, 0, 0)

  lemma ClaimIsOvertaken()
    ensures var run := Then(Read(2), Then(Ask(2), Then(Revive(2), Done)));
            Runs(CLAIMED, run) && Reached(CLAIMED, run) == OVERTAKEN
  {}

  /** It lets go again, and the plain pointer is counted on a destroyed atom. */
  lemma ClaimAfterRelease()
    ensures var run := Then(Subtract(2), Then(Init(2), Then(DropStrong(2), Then(Destroy(2), Done))));
            && Runs(OVERTAKEN, run)
            && var st := Reached(OVERTAKEN, run);
            && st.destructions == 1 && Enabled(st, Enter(1)) && Apply(st, Enter(1)).holders[1].Strong?
  {
    var h := OVERTAKEN.holders;
    var dropped := State(0, 3, false, h[2 := Finishing], 1, 1, 0, 0, 0);
    FirstComesAndGoes(h, dropped);
    assert Runs(dropped, Then(Destroy(2), Done));
  }

  lemma FirstComesAndGoes(h: Holders, dropped: State)
    requires 2 in h && h[2].Subtracting? && dropped == State(0, 3, false, h[2 := Finishing], 1, 1, 0, 0, 0)
    ensures var st := State(INITIAL + 1, 3, false, h, 0, 0, 0, 0, 0);
            && Enabled(st, Subtract(2))
            && Enabled(Apply(st, Subtract(2)), Init(2))
            && Enabled(Apply(Apply(st, Subtract(2)), Init(2)), DropStrong(2))
            && Apply(Apply(Apply(st, Subtract(2)), Init(2)), DropStrong(2)) == dropped
  {
    assert h[2 := Initialising][2 := Strong][2 := Finishing] == h[2 := Finishing];
  }
}
