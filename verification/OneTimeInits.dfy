/**
  The lock-free one-time initialisation of BDebugCondition, BDebugInteger and BDebugState:
  any number of threads, every interleaving of their atomic steps.
 */
module OneTimeInits {
  import opened Collections

  type Thread = nat

  /** The template parameters and what the environment holds. */
  datatype Config = Config(env: Option<int>, defval: int, minval: int, maxval: int)

  /** The flag word: its bits 1, 2 and 4. atomic_or sets one of them and returns the old word. */
  datatype Flags = Flags(one: bool, two: bool, four: bool) {
    function Value(): nat {
      (if one then 1 else 0) + (if two then 2 else 0) + (if four then 4 else 0)
    }
  }

  const CLEAR := Flags(false, false, false)

  // ---- BDebugCondition and BDebugInteger -------------------------------------------

  datatype Pc =
    | Testing         // Get: if (m_hasLevel > 2)
    | Claiming        // GetSlow: atomic_or(&m_hasLevel, 1) == 0
    | Setting         // claimant: m_level = atoi(env), or m_level = DEFVAL
    | RaisingLevel    // claimant: if (m_level < MINVAL) m_level = MINVAL
    | CappingLevel    // claimant: if (m_level > MAXVAL) m_level = MAXVAL
    | Publishing      // claimant: atomic_or(&m_hasLevel, 2)
    | Spinning        // while ((m_hasLevel & 2) == 0)
    | Reading         // return m_level
    | Returned(value: int)

  datatype State = State(hasLevel: Flags, level: int, threads: map<Thread, Pc>, claims: nat)

  const START := State(CLEAR, 0, map[], 0)

  /** A step: a thread calls Get, or a running call does its next access. */
  datatype Step = Call(t: Thread) | Go(t: Thread)

  predicate Enabled(st: State, step: Step) {
    match step
    case Call(t) => t in st.threads ==> st.threads[t].Returned?
    case Go(t) => t in st.threads && !st.threads[t].Returned?
  }

  function Apply(cfg: Config, st: State, step: Step): State
    requires Enabled(st, step)
  {
    match step
    case Call(t) => st.(threads := st.threads[t := Testing])
    case Go(t) =>
      match st.threads[t]
      case Testing => st.(threads := st.threads[t := if st.hasLevel.Value() > 2 then Reading else Claiming])
      case Claiming =>
        if st.hasLevel.Value() == 0
        then st.(hasLevel := st.hasLevel.(one := true), claims := st.claims + 1, threads := st.threads[t := Setting])
        else st.(hasLevel := st.hasLevel.(one := true), threads := st.threads[t := Spinning])
      case Setting =>
        if cfg.env.Some?
        then st.(level := cfg.env.value, threads := st.threads[t := RaisingLevel])
        else st.(level := cfg.defval, threads := st.threads[t := Publishing])
      case RaisingLevel =>
        st.(level := if st.level < cfg.minval then cfg.minval else st.level, threads := st.threads[t := CappingLevel])
      case CappingLevel =>
        st.(level := if st.level > cfg.maxval then cfg.maxval else st.level, threads := st.threads[t := Publishing])
      case Publishing => st.(hasLevel := st.hasLevel.(two := true), threads := st.threads[t := Reading])
      case Spinning => if !st.hasLevel.two then st else st.(threads := st.threads[t := Reading])
      case Reading => st.(threads := st.threads[t := Returned(st.level)])
  }

  /** The value that every call is to return. */
  function Final(cfg: Config): (v: int)
    ensures cfg.env.None? ==> v == cfg.defval
    ensures cfg.env.Some? && cfg.minval <= cfg.maxval ==>
              && cfg.minval <= v <= cfg.maxval
              && (cfg.env.value < cfg.minval ==> v == cfg.minval) && (cfg.env.value > cfg.maxval ==> v == cfg.maxval)
              && (cfg.minval <= cfg.env.value <= cfg.maxval ==> v == cfg.env.value)
  {
    match cfg.env
    case None => cfg.defval
    case Some(v) =>
      var raised := if v < cfg.minval then cfg.minval else v;
      if raised > cfg.maxval then cfg.maxval else raised
  }

  /** The thread runs the initialiser. */
  predicate Initialising(pc: Pc) {
    pc.Setting? || pc.RaisingLevel? || pc.CappingLevel? || pc.Publishing?
  }

  /** What a thread may rely on at each point. */
  predicate PcOk(cfg: Config, st: State, pc: Pc) {
    match pc
    case Testing => true
    case Claiming => true
    case Setting => st.hasLevel.Value() == 1
    case RaisingLevel => st.hasLevel.Value() == 1 && cfg.env == Some(st.level)
    case CappingLevel =>
      st.hasLevel.Value() == 1 && cfg.env.Some?
      && st.level == if cfg.env.value < cfg.minval then cfg.minval else cfg.env.value
    case Publishing => st.hasLevel.Value() == 1 && st.level == Final(cfg)
    case Spinning => st.hasLevel.Value() != 0
    case Reading => st.hasLevel.Value() == 3
    case Returned(v) => st.hasLevel.Value() == 3 && v == Final(cfg)
  }

  ghost predicate Inv(cfg: Config, st: State) {
    && (st.hasLevel.Value() == 0 || st.hasLevel.Value() == 1 || st.hasLevel.Value() == 3)
    && st.claims == (if st.hasLevel.Value() == 0 then 0 else 1)
    && (st.hasLevel.Value() == 3 ==> st.level == Final(cfg))
    && (forall t | t in st.threads :: PcOk(cfg, st, st.threads[t]))
    && (forall t, u | t in st.threads && u in st.threads && Initialising(st.threads[t]) && Initialising(st.threads[u]) :: t == u)
    && (st.hasLevel.Value() == 1 ==> exists t :: t in st.threads && Initialising(st.threads[t]))
  }

  lemma StepKeeps(cfg: Config, st: State, step: Step)
    requires Inv(cfg, st) && Enabled(st, step)
    ensures Inv(cfg, Apply(cfg, st, step))
  {
    var st' := Apply(cfg, st, step);
    assert PcOk(cfg, st, if step.t in st.threads then st.threads[step.t] else Testing);
    if st'.hasLevel.Value() == 1 {
      if st.hasLevel.Value() == 0 {
        assert Initialising(st'.threads[step.t]);
      } else {
        var t :| t in st.threads && Initialising(st.threads[t]);
        assert t in st'.threads && Initialising(st'.threads[t]);
      }
    }
  }

  predicate Runs(cfg: Config, st: State, steps: seq<Step>)
    decreases |steps|
  {
    |steps| == 0 || (Enabled(st, steps[0]) && Runs(cfg, Apply(cfg, st, steps[0]), steps[1..]))
  }

  function Reached(cfg: Config, st: State, steps: seq<Step>): State
    requires Runs(cfg, st, steps)
    decreases |steps|
  {
    if |steps| == 0 then st else Reached(cfg, Apply(cfg, st, steps[0]), steps[1..])
  }

  lemma {:induction false} RunKeeps(cfg: Config, st: State, steps: seq<Step>)
    requires Inv(cfg, st) && Runs(cfg, st, steps)
    ensures Inv(cfg, Reached(cfg, st, steps))
    decreases |steps|
  {
    if |steps| > 0 {
      StepKeeps(cfg, st, steps[0]);
      RunKeeps(cfg, Apply(cfg, st, steps[0]), steps[1..]);
    }
  }

  /** However the calls interleave, one thread at most initialises and all calls return the same value. */
  lemma EveryCallReturnsTheLevel(cfg: Config, steps: seq<Step>)
    requires Runs(cfg, START, steps)
    ensures var st := Reached(cfg, START, steps);
            && st.claims <= 1
            && (forall t | t in st.threads && st.threads[t].Returned? :: st.threads[t].value == Final(cfg) && st.claims == 1)
  {
    RunKeeps(cfg, START, steps);
    var st := Reached(cfg, START, steps);
    forall t | t in st.threads && st.threads[t].Returned?
      ensures st.threads[t].value == Final(cfg) && st.claims == 1
    {
      assert PcOk(cfg, st, st.threads[t]);
    }
  }

  /** Accesses a thread has still to make before it returns, were it not for the spin loop. */
  function Remaining(pc: Pc): nat {
    match pc
    case Testing => 7
    case Claiming => 6
    case Setting => 5
    case RaisingLevel => 4
    case CappingLevel => 3
    case Publishing => 2
    case Spinning => 2
    case Reading => 1
    case Returned(_) => 0
  }

  /** Every step brings its thread closer to its return, except a spin while the claimant is at work. */
  lemma Progress(cfg: Config, st: State, t: Thread)
    requires Inv(cfg, st) && t in st.threads && !st.threads[t].Returned?
    ensures Enabled(st, Go(t))
    ensures var st' := Apply(cfg, st, Go(t));
            || Remaining(st'.threads[t]) < Remaining(st.threads[t])
            || (st' == st && exists u :: u in st.threads && u != t && Initialising(st.threads[u]))
  {
  }

  /** Once the level is published, a call is two plain reads. */
  lemma PublishedIsFast(cfg: Config, st: State, t: Thread)
    requires Inv(cfg, st) && st.hasLevel.Value() > 2 && (t in st.threads ==> st.threads[t].Returned?)
    ensures Enabled(st, Call(t))
    ensures var called := Apply(cfg, st, Call(t));
            && Enabled(called, Go(t)) && Enabled(Apply(cfg, called, Go(t)), Go(t))
            && Apply(cfg, Apply(cfg, called, Go(t)), Go(t)) == st.(threads := st.threads[t := Returned(Final(cfg))])
  {
    var called := Apply(cfg, st, Call(t));
    var read := Apply(cfg, called, Go(t));
    assert read == st.(threads := st.threads[t := Reading]);
    assert st.threads[t := Reading][t := Returned(st.level)] == st.threads[t := Returned(st.level)];
  }

  // ---- BDebugState -----------------------------------------------------------------

  datatype ObjectPc =
    | Test            // Get: if (m_hasState > 2)
    | Claim           // GetSlow: atomic_or(&m_hasState, 1) == 0
    | Build           // claimant: m_state = new STATE
    | Publish         // claimant: atomic_or(&m_hasState, 2)
    | Spin            // while ((m_hasState & 2) == 0)
    | Read            // return m_state
    | Got(state: Option<nat>)
    | Retire          // ~BDebugState: atomic_or(&m_hasState, 4) & 4
    | Delete          // delete m_state
    | Gone

  /** `built` and `deleted` count constructions and deletions; the first STATE is number 0. */
  datatype Shared = Shared(hasState: Flags, state: Option<nat>, built: nat, deleted: nat, threads: map<Thread, ObjectPc>)

  const EMPTY := Shared(CLEAR, None, 0, 0, map[])

  datatype Act = Get(t: Thread) | Destroy(t: Thread) | Continue(t: Thread)

  predicate Possible(sh: Shared, act: Act) {
    match act
    case Get(t) => t in sh.threads ==> sh.threads[t].Got? || sh.threads[t].Gone?
    case Destroy(t) => t in sh.threads ==> sh.threads[t].Got? || sh.threads[t].Gone?
    case Continue(t) => t in sh.threads && !sh.threads[t].Got? && !sh.threads[t].Gone?
  }

  function Do(sh: Shared, act: Act): Shared
    requires Possible(sh, act)
  {
    match act
    case Get(t) => sh.(threads := sh.threads[t := Test])
    case Destroy(t) => sh.(threads := sh.threads[t := Retire])
    case Continue(t) =>
      match sh.threads[t]
      case Test => sh.(threads := sh.threads[t := if sh.hasState.Value() > 2 then Read else Claim])
      case Claim =>
        sh.(hasState := sh.hasState.(one := true), threads := sh.threads[t := if sh.hasState.Value() == 0 then Build else Spin])
      case Build => sh.(state := Some(sh.built), built := sh.built + 1, threads := sh.threads[t := Publish])
      case Publish => sh.(hasState := sh.hasState.(two := true), threads := sh.threads[t := Read])
      case Spin => if !sh.hasState.two then sh else sh.(threads := sh.threads[t := Read])
      case Read => sh.(threads := sh.threads[t := Got(sh.state)])
      case Retire =>
        sh.(hasState := sh.hasState.(four := true), threads := sh.threads[t := if !sh.hasState.four then Delete else Gone])
      case Delete =>
        sh.(deleted := if sh.state.Some? then sh.deleted + 1 else sh.deleted, threads := sh.threads[t := Gone])
  }

  /** The places that only one thread may ever pass. */
  predicate AtBuild(pc: ObjectPc) { pc.Build? }
  predicate AtDelete(pc: ObjectPc) { pc.Delete? }

  predicate ObjectPcOk(sh: Shared, pc: ObjectPc) {
    && (pc.Build? ==> sh.hasState.one && sh.built == 0 && !sh.hasState.two)
    && (pc.Publish? ==> sh.hasState.one && sh.built == 1)
    && (pc.Spin? ==> sh.hasState.one)
    && (pc.Delete? ==> sh.hasState.four && sh.deleted == 0)
    && (pc.Read? && !sh.hasState.four ==> sh.hasState.two)
    && (pc.Got? && !sh.hasState.four ==> pc.state == Some(0) && sh.hasState.two)
  }

  predicate WordOk(sh: Shared) {
    && sh.built <= 1 && sh.deleted <= 1
    && sh.state == (if sh.built == 0 then None else Some(0))
    && (!sh.hasState.one ==> sh.built == 0)
    && (sh.hasState.two ==> sh.built == 1 && sh.hasState.one)
    && (!sh.hasState.four ==> sh.deleted == 0)
  }

  ghost predicate PcsOk(sh: Shared) {
    forall t | t in sh.threads :: ObjectPcOk(sh, sh.threads[t])
  }

  ghost predicate OneAtEach(sh: Shared) {
    && (forall t, u | t in sh.threads && u in sh.threads && AtBuild(sh.threads[t]) && AtBuild(sh.threads[u]) :: t == u)
    && (forall t, u | t in sh.threads && u in sh.threads && AtDelete(sh.threads[t]) && AtDelete(sh.threads[u]) :: t == u)
  }

  /** The thread has claimed the construction and not published it yet. */
  predicate Builds(pc: ObjectPc) {
    pc.Build? || pc.Publish?
  }

  /** Before a destructor's mark, somebody is at work on what has been claimed. */
  ghost predicate InTheMaking(sh: Shared) {
    sh.hasState.one && !sh.hasState.two && !sh.hasState.four ==> exists t :: t in sh.threads && Builds(sh.threads[t])
  }

  ghost predicate SharedOk(sh: Shared) {
    WordOk(sh) && PcsOk(sh) && OneAtEach(sh) && InTheMaking(sh)
  }

  lemma PcsKept(sh: Shared, act: Act)
    requires SharedOk(sh) && Possible(sh, act)
    ensures WordOk(Do(sh, act)) && PcsOk(Do(sh, act))
  {
    var sh' := Do(sh, act);
    assert act.t in sh.threads ==> ObjectPcOk(sh, sh.threads[act.t]);
    forall t | t in sh'.threads
      ensures ObjectPcOk(sh', sh'.threads[t])
    {
      assert t in sh.threads ==> ObjectPcOk(sh, sh.threads[t]);
    }
  }

  lemma OneAtEachKept(sh: Shared, act: Act)
    requires SharedOk(sh) && Possible(sh, act)
    ensures OneAtEach(Do(sh, act))
  {
    var sh' := Do(sh, act);
    forall t, u | t in sh'.threads && u in sh'.threads && t != u
      ensures !(AtBuild(sh'.threads[t]) && AtBuild(sh'.threads[u]))
      ensures !(AtDelete(sh'.threads[t]) && AtDelete(sh'.threads[u]))
    {
      assert t in sh.threads ==> ObjectPcOk(sh, sh.threads[t]);
      assert u in sh.threads ==> ObjectPcOk(sh, sh.threads[u]);
    }
  }

  lemma InTheMakingKept(sh: Shared, act: Act)
    requires SharedOk(sh) && Possible(sh, act)
    ensures InTheMaking(Do(sh, act))
  {
    var sh' := Do(sh, act);
    if sh'.hasState.one && !sh'.hasState.two && !sh'.hasState.four {
      if sh.hasState.one {
        var t :| t in sh.threads && Builds(sh.threads[t]);
        assert t in sh'.threads && Builds(sh'.threads[t]);
      } else {
        assert Builds(sh'.threads[act.t]);
      }
    }
  }

  lemma ActKeeps(sh: Shared, act: Act)
    requires SharedOk(sh) && Possible(sh, act)
    ensures SharedOk(Do(sh, act))
  {
    PcsKept(sh, act);
    OneAtEachKept(sh, act);
    InTheMakingKept(sh, act);
  }

  predicate Happens(sh: Shared, acts: seq<Act>)
    decreases |acts|
  {
    |acts| == 0 || (Possible(sh, acts[0]) && Happens(Do(sh, acts[0]), acts[1..]))
  }

  function Outcome(sh: Shared, acts: seq<Act>): Shared
    requires Happens(sh, acts)
    decreases |acts|
  {
    if |acts| == 0 then sh else Outcome(Do(sh, acts[0]), acts[1..])
  }

  lemma {:induction false} ActsKeep(sh: Shared, acts: seq<Act>)
    requires SharedOk(sh) && Happens(sh, acts)
    ensures SharedOk(Outcome(sh, acts))
    decreases |acts|
  {
    if |acts| > 0 {
      ActKeeps(sh, acts[0]);
      ActsKeep(Do(sh, acts[0]), acts[1..]);
    }
  }

  /**
    With any number of callers and destructors there is at most one construction and at most one
    deletion; and as long as no destructor has set its mark, every call has returned the one
    STATE, which is alive.
   */
  lemma OneStateForAll(acts: seq<Act>)
    requires Happens(EMPTY, acts)
    ensures var sh := Outcome(EMPTY, acts);
            && sh.built <= 1 && sh.deleted <= 1
            && (!sh.hasState.four ==>
                  forall t | t in sh.threads && sh.threads[t].Got? :: sh.threads[t].state == Some(0) && sh.deleted == 0)
  {
    assert SharedOk(EMPTY);
    ActsKeep(EMPTY, acts);
  }

  /** After a destructor that came first, Get takes the fast path to a null pointer. */
  lemma DestroyedFirst(t: Thread)
    ensures var acts := [Destroy(t), Continue(t), Continue(t), Get(t), Continue(t), Continue(t)];
            Happens(EMPTY, acts)
            && Outcome(EMPTY, acts) == Shared(Flags(false, false, true), None, 0, 0, map[t := Got(None)])
  {
    hide Do, Possible;
    var retired := Flags(false, false, true);
    var sh1 := Shared(CLEAR, None, 0, 0, map[t := Retire]);
    var sh2 := Shared(retired, None, 0, 0, map[t := Delete]);
    var sh3 := Shared(retired, None, 0, 0, map[t := Gone]);
    var sh4 := Shared(retired, None, 0, 0, map[t := Test]);
    var sh5 := Shared(retired, None, 0, 0, map[t := Read]);
    DestroyThenGet(t, sh1, sh2, sh3, sh4, sh5);
    Unfold(sh5, Continue(t), []);
    Unfold(sh4, Continue(t), [Continue(t)]);
    Unfold(sh3, Get(t), [Continue(t), Continue(t)]);
    Unfold(sh2, Continue(t), [Get(t), Continue(t), Continue(t)]);
    Unfold(sh1, Continue(t), [Continue(t), Get(t), Continue(t), Continue(t)]);
    Unfold(EMPTY, Destroy(t), [Continue(t), Continue(t), Get(t), Continue(t), Continue(t)]);
  }

  lemma DestroyThenGet(t: Thread, sh1: Shared, sh2: Shared, sh3: Shared, sh4: Shared, sh5: Shared)
    requires sh1 == Shared(CLEAR, None, 0, 0, map[t := Retire])
    requires sh2 == Shared(Flags(false, false, true), None, 0, 0, map[t := Delete])
    requires sh3 == sh2.(threads := map[t := Gone])
    requires sh4 == sh2.(threads := map[t := Test])
    requires sh5 == sh2.(threads := map[t := Read])
    ensures Possible(EMPTY, Destroy(t)) && Do(EMPTY, Destroy(t)) == sh1
    ensures Possible(sh1, Continue(t)) && Do(sh1, Continue(t)) == sh2
    ensures Possible(sh2, Continue(t)) && Do(sh2, Continue(t)) == sh3
    ensures Possible(sh3, Get(t)) && Do(sh3, Get(t)) == sh4
    ensures Possible(sh4, Continue(t)) && Do(sh4, Continue(t)) == sh5
    ensures Possible(sh5, Continue(t)) && Do(sh5, Continue(t)) == sh2.(threads := map[t := Got(None)])
  {
  }

  lemma Unfold(sh: Shared, act: Act, rest: seq<Act>)
    requires Possible(sh, act) && Happens(Do(sh, act), rest)
    ensures Happens(sh, [act] + rest) && Outcome(sh, [act] + rest) == Outcome(Do(sh, act), rest)
  {
  }

  /** Marked by a destructor and claimed, but by nobody who will build. */
  ghost predicate Stuck(sh: Shared) {
    && sh.hasState.one && sh.hasState.four && !sh.hasState.two
    && forall t | t in sh.threads :: !Builds(sh.threads[t])
  }

  /** A call that tested before a destructor's mark and claims after it spins forever. */
  lemma ClaimAfterMarkIsStuck(sh: Shared, t: Thread)
    requires SharedOk(sh) && sh.hasState == Flags(false, false, true)
    requires t in sh.threads && sh.threads[t].Claim?
    ensures Stuck(Do(sh, Continue(t))) && Do(sh, Continue(t)).threads[t].Spin?
  {
  }

  /** Such a call: it tests, another thread's destructor sets its mark, and it claims. */
  lemma ClaimAfterMarkIsReached(t: Thread, u: Thread)
    requires t != u
    ensures var acts := [Get(t), Continue(t), Destroy(u), Continue(u)];
            && Happens(EMPTY, acts)
            && var sh := Outcome(EMPTY, acts);
            && sh == Shared(Flags(false, false, true), None, 0, 0, map[t := Claim, u := Delete])
            && SharedOk(sh) && Stuck(Do(sh, Continue(t)))
  {
    hide Do, Possible;
    var sh1 := Shared(CLEAR, None, 0, 0, map[t := Test]);
    var sh2 := Shared(CLEAR, None, 0, 0, map[t := Claim]);
    var sh3 := Shared(CLEAR, None, 0, 0, map[t := Claim, u := Retire]);
    var sh4 := Shared(Flags(false, false, true), None, 0, 0, map[t := Claim, u := Delete]);
    TestThenMark(t, u, sh1, sh2, sh3, sh4);
    Unfold(sh3, Continue(u), []);
    Unfold(sh2, Destroy(u), [Continue(u)]);
    Unfold(sh1, Continue(t), [Destroy(u), Continue(u)]);
    Unfold(EMPTY, Get(t), [Continue(t), Destroy(u), Continue(u)]);
    ClaimAfterMarkIsStuck(sh4, t);
  }

  lemma TestThenMark(t: Thread, u: Thread, sh1: Shared, sh2: Shared, sh3: Shared, sh4: Shared)
    requires t != u
    requires sh1 == Shared(CLEAR, None, 0, 0, map[t := Test])
    requires sh2 == sh1.(threads := map[t := Claim])
    requires sh3 == sh1.(threads := map[t := Claim, u := Retire])
    requires sh4 == Shared(Flags(false, false, true), None, 0, 0, map[t := Claim, u := Delete])
    ensures Possible(EMPTY, Get(t)) && Do(EMPTY, Get(t)) == sh1
    ensures Possible(sh1, Continue(t)) && Do(sh1, Continue(t)) == sh2
    ensures Possible(sh2, Destroy(u)) && Do(sh2, Destroy(u)) == sh3
    ensures Possible(sh3, Continue(u)) && Do(sh3, Continue(u)) == sh4
    ensures Possible(sh4, Continue(t))
  {
  }

  lemma {:induction false} StuckForever(sh: Shared, acts: seq<Act>, t: Thread)
    requires Stuck(sh) && Happens(sh, acts) && t in sh.threads && sh.threads[t].Spin?
    ensures Stuck(Outcome(sh, acts)) && t in Outcome(sh, acts).threads && Outcome(sh, acts).threads[t].Spin?
    decreases |acts|
  {
    if |acts| > 0 {
      StuckForever(Do(sh, acts[0]), acts[1..], t);
    }
  }

  // ---- what calls and destructors come to ------------------------------------------

  /** Accesses a thread has still to make before it is through, were it not for the spin loop. */
  function StepsLeft(pc: ObjectPc): nat {
    match pc
    case Test => 5
    case Claim => 4
    case Build => 3
    case Publish => 2
    case Spin => 2
    case Read => 1
    case Got(_) => 0
    case Retire => 2
    case Delete => 1
    case Gone => 0
  }

  /** Every step brings its thread closer to its end, except a spin while another thread builds, or one that is stuck. */
  lemma ObjectProgress(sh: Shared, t: Thread)
    requires SharedOk(sh) && t in sh.threads && !sh.threads[t].Got? && !sh.threads[t].Gone?
    ensures Possible(sh, Continue(t))
    ensures var sh' := Do(sh, Continue(t));
            || StepsLeft(sh'.threads[t]) < StepsLeft(sh.threads[t])
            || (sh' == sh && sh.threads[t].Spin?
                && (Stuck(sh) || exists u :: u in sh.threads && u != t && Builds(sh.threads[u])))
  {
    if sh.threads[t].Spin? && !sh.hasState.two {
      assert ObjectPcOk(sh, sh.threads[t]);
      if !Stuck(sh) {
        var u :| u in sh.threads && Builds(sh.threads[u]);
      }
    }
  }

  /** The steps of a run are steps of other threads. */
  predicate Without(acts: seq<Act>, t: Thread) {
    forall i | 0 <= i < |acts| :: acts[i].t != t
  }

  /** A call and a destructor begin with their first access, and nothing else happens. */
  lemma Entered(sh: Shared, t: Thread)
    requires t in sh.threads ==> sh.threads[t].Got? || sh.threads[t].Gone?
    ensures Possible(sh, Get(t)) && Do(sh, Get(t)) == sh.(threads := sh.threads[t := Test])
    ensures Possible(sh, Destroy(t)) && Do(sh, Destroy(t)) == sh.(threads := sh.threads[t := Retire])
  {
  }

  lemma OtherLeavesIt(sh: Shared, act: Act, t: Thread)
    requires Possible(sh, act) && act.t != t && t in sh.threads
    ensures var sh' := Do(sh, act);
            && t in sh'.threads && sh'.threads[t] == sh.threads[t]
            && sh.built <= sh'.built && (sh.hasState.four ==> sh'.hasState.four)
  {
  }

  lemma {:induction false} OthersLeaveIt(sh: Shared, acts: seq<Act>, t: Thread)
    requires SharedOk(sh) && Happens(sh, acts) && Without(acts, t) && t in sh.threads
    ensures var end := Outcome(sh, acts);
            && SharedOk(end) && t in end.threads && end.threads[t] == sh.threads[t]
            && sh.built <= end.built && (sh.hasState.four ==> end.hasState.four)
    decreases |acts|
  {
    hide SharedOk, Do, Possible;
    if |acts| > 0 {
      ActKeeps(sh, acts[0]);
      OtherLeavesIt(sh, acts[0], t);
      OthersLeaveIt(Do(sh, acts[0]), acts[1..], t);
    }
  }

  /** Marked, and the destructor that set the mark is through. */
  ghost predicate Retired(sh: Shared) {
    sh.hasState.four && forall t | t in sh.threads :: !sh.threads[t].Delete?
  }

  lemma {:induction false} NothingMoreIsDeleted(sh: Shared, acts: seq<Act>)
    requires Retired(sh) && Happens(sh, acts)
    ensures Retired(Outcome(sh, acts)) && Outcome(sh, acts).deleted == sh.deleted
    decreases |acts|
  {
    if |acts| > 0 {
      NothingMoreIsDeleted(Do(sh, acts[0]), acts[1..]);
    }
  }

  /**
    The destructor that sets the mark deletes, whatever the other threads do before, meanwhile and
    after: once it is through, one STATE has been deleted if and only if one had been constructed
    when it came to delete, and certainly if one was published when it set the mark.
   */
  lemma FirstDestructorDeletes(sh: Shared, t: Thread, meanwhile: seq<Act>, afterwards: seq<Act>)
    requires SharedOk(sh) && t in sh.threads && sh.threads[t].Retire? && !sh.hasState.four
    requires Happens(Do(sh, Continue(t)), meanwhile) && Without(meanwhile, t)
    ensures var mid := Outcome(Do(sh, Continue(t)), meanwhile);
            && mid.deleted == 0 && Possible(mid, Continue(t))
            && var through := Do(mid, Continue(t));
            && t in through.threads && through.threads[t].Gone?
            && (Happens(through, afterwards) ==>
                  && Outcome(through, afterwards).deleted == (if mid.built == 1 then 1 else 0)
                  && (sh.hasState.two ==> Outcome(through, afterwards).deleted == 1))
  {
    var marked := Do(sh, Continue(t));
    ActKeeps(sh, Continue(t));
    assert forall u | u in sh.threads :: ObjectPcOk(sh, sh.threads[u]);
    OthersLeaveIt(marked, meanwhile, t);
    var mid := Outcome(marked, meanwhile);
    assert ObjectPcOk(mid, mid.threads[t]);
    var through := Do(mid, Continue(t));
    if Happens(through, afterwards) {
      NothingMoreIsDeleted(through, afterwards);
    }
  }

  /** Destructors that find the mark delete nothing and are through at once. */
  lemma LaterDestructorsDeleteNothing(sh: Shared, t: Thread)
    requires t in sh.threads && sh.threads[t].Retire? && sh.hasState.four
    ensures Possible(sh, Continue(t)) && Do(sh, Continue(t)) == sh.(threads := sh.threads[t := Gone])
  {
  }

  /** A call that finds the mark of the publication, or comes after it, is on its way to the one STATE. */
  predicate Headed(sh: Shared, pc: ObjectPc) {
    && sh.hasState.two
    && match pc
       case Test => true
       case Claim => true
       case Spin => true
       case Read => true
       case Got(state) => state == Some(0)
       case _ => false
  }

  /** A call that runs when the STATE is published returns it, whatever happens meanwhile: also after its deletion. */
  lemma {:induction false} PublishedIsReturned(sh: Shared, t: Thread, acts: seq<Act>)
    requires SharedOk(sh) && Happens(sh, acts) && t in sh.threads && Headed(sh, sh.threads[t])
    requires forall i | 0 <= i < |acts| :: acts[i].t == t ==> acts[i].Continue?
    ensures var end := Outcome(sh, acts);
            && t in end.threads && Headed(end, end.threads[t])
            && (end.threads[t].Got? ==> end.threads[t].state == Some(0))
            && (!end.threads[t].Got? ==>
                  && Possible(end, Continue(t))
                  && StepsLeft(Do(end, Continue(t)).threads[t]) < StepsLeft(end.threads[t]))
    decreases |acts|
  {
    if |acts| > 0 {
      ActKeeps(sh, acts[0]);
      assert acts[0].t != t ==> Do(sh, acts[0]).threads[t] == sh.threads[t];
      PublishedIsReturned(Do(sh, acts[0]), t, acts[1..]);
    }
  }

  /** Once the STATE is published or a destructor has set its mark, a call is two plain reads. */
  lemma MarkedIsFast(sh: Shared, t: Thread)
    requires SharedOk(sh) && (sh.hasState.two || sh.hasState.four)
    requires t in sh.threads ==> sh.threads[t].Got? || sh.threads[t].Gone?
    ensures Possible(sh, Get(t))
    ensures var called := Do(sh, Get(t));
            && Possible(called, Continue(t)) && Possible(Do(called, Continue(t)), Continue(t))
            && Do(Do(called, Continue(t)), Continue(t))
               == sh.(threads := sh.threads[t := Got(if sh.built == 0 then None else Some(0))])
  {
    Entered(sh, t);
    var called := Do(sh, Get(t));
    var read := Do(called, Continue(t));
    assert read == sh.(threads := sh.threads[t := Read]);
    assert sh.threads[t := Read][t := Got(sh.state)] == sh.threads[t := Got(sh.state)];
  }

  /** A construction that the destructor overtakes is never deleted. */
  lemma OvertakenIsNotDeleted(t: Thread, u: Thread)
    requires t != u
    ensures var sh := Shared(Flags(true, false, false), None, 0, 0, map[t := Build, u := Retire]);
            var acts := [Continue(u), Continue(u), Continue(t), Continue(t)];
            && Happens(sh, acts)
            && Outcome(sh, acts) == Shared(Flags(true, true, true), Some(0), 1, 0, map[t := Read, u := Gone])
  {
    hide Do, Possible;
    var sh := Shared(Flags(true, false, false), None, 0, 0, map[t := Build, u := Retire]);
    var sh1 := Shared(Flags(true, false, true), None, 0, 0, map[t := Build, u := Delete]);
    var sh2 := Shared(Flags(true, false, true), None, 0, 0, map[t := Build, u := Gone]);
    var sh3 := Shared(Flags(true, false, true), Some(0), 1, 0, map[t := Publish, u := Gone]);
    DeleteThenBuild(t, u, sh, sh1, sh2, sh3);
    Unfold(sh3, Continue(t), []);
    Unfold(sh2, Continue(t), [Continue(t)]);
    Unfold(sh1, Continue(u), [Continue(t), Continue(t)]);
    Unfold(sh, Continue(u), [Continue(u), Continue(t), Continue(t)]);
  }

  lemma DeleteThenBuild(t: Thread, u: Thread, sh: Shared, sh1: Shared, sh2: Shared, sh3: Shared)
    requires t != u
    requires sh == Shared(Flags(true, false, false), None, 0, 0, map[t := Build, u := Retire])
    requires sh1 == Shared(Flags(true, false, true), None, 0, 0, map[t := Build, u := Delete])
    requires sh2 == sh1.(threads := map[t := Build, u := Gone])
    requires sh3 == Shared(Flags(true, false, true), Some(0), 1, 0, map[t := Publish, u := Gone])
    ensures Possible(sh, Continue(u)) && Do(sh, Continue(u)) == sh1
    ensures Possible(sh1, Continue(u)) && Do(sh1, Continue(u)) == sh2
    ensures Possible(sh2, Continue(t)) && Do(sh2, Continue(t)) == sh3
    ensures Possible(sh3, Continue(t))
    ensures Do(sh3, Continue(t)) == Shared(Flags(true, true, true), Some(0), 1, 0, map[t := Read, u := Gone])
  {
  }

  lemma BuildingIsReached(t: Thread, u: Thread)
    requires t != u
    ensures var acts := [Get(t), Continue(t), Continue(t), Destroy(u)];
            && Happens(EMPTY, acts)
            && Outcome(EMPTY, acts) == Shared(Flags(true, false, false), None, 0, 0, map[t := Build, u := Retire])
  {
    hide Do, Possible;
    var sh1 := Shared(CLEAR, None, 0, 0, map[t := Test]);
    var sh2 := Shared(CLEAR, None, 0, 0, map[t := Claim]);
    var sh3 := Shared(Flags(true, false, false), None, 0, 0, map[t := Build]);
    ClaimThenDestroy(t, u, sh1, sh2, sh3);
    Unfold(sh3, Destroy(u), []);
    Unfold(sh2, Continue(t), [Destroy(u)]);
    Unfold(sh1, Continue(t), [Continue(t), Destroy(u)]);
    Unfold(EMPTY, Get(t), [Continue(t), Continue(t), Destroy(u)]);
  }

  lemma ClaimThenDestroy(t: Thread, u: Thread, sh1: Shared, sh2: Shared, sh3: Shared)
    requires t != u
    requires sh1 == Shared(CLEAR, None, 0, 0, map[t := Test])
    requires sh2 == Shared(CLEAR, None, 0, 0, map[t := Claim])
    requires sh3 == Shared(Flags(true, false, false), None, 0, 0, map[t := Build])
    ensures Possible(EMPTY, Get(t)) && Do(EMPTY, Get(t)) == sh1
    ensures Possible(sh1, Continue(t)) && Do(sh1, Continue(t)) == sh2
    ensures Possible(sh2, Continue(t)) && Do(sh2, Continue(t)) == sh3
    ensures Possible(sh3, Destroy(u))
    ensures Do(sh3, Destroy(u)) == sh3.(threads := map[t := Build, u := Retire])
  {
  }
}
