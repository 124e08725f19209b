/**
  Whole runs of a BitstreamReader, compared with a naive reader that owns the flat stream and
  a bit position and nothing else.
 */
module ReaderRuns {
  import opened Collections
  import opened Words
  import opened Streams
  import opened Windows
  import opened Buffers
  import opened BitstreamReaders

  datatype Op =
    | Peek(bits: nat) | Get(bits: nat)
    | SkipOne | SkipEight | SkipToBoundary | Skip(bits: nat)
    | SeekByte(pos: nat) | SeekBit(pos: nat)
    | Rewind(bits: nat)

  /** Undefined: the read would shift a word by more than its width. */
  datatype Outcome = Bits(value: Word) | Done | Failed | Undefined

  // ---- the naive reader ------------------------------------------------------------

  /** What the caller of each operation must see to, as the assertions of the source demand. */
  predicate Admissible(s: seq<Byte>, p: nat, op: Op) {
    match op
    case Peek(n) => 1 <= n <= 32 && p + n <= 8 * |s|
    case Get(n) => 1 <= n <= 32 && p + n <= 8 * |s|
    case SkipOne => p + 1 <= 8 * |s|
    case SkipEight => p + 8 <= 8 * |s|
    case SkipToBoundary => true
    case Skip(n) => p + n <= 8 * |s|
    case SeekByte(_) => true
    case SeekBit(_) => true
    case Rewind(n) => 1 <= n <= 32 && n <= p
  }

  function NaivePosition(s: seq<Byte>, p: nat, op: Op): (q: nat)
    requires p <= 8 * |s| && Admissible(s, p, op)
    ensures q <= 8 * |s|
  {
    match op
    case Peek(_) => p
    case Get(n) => p + n
    case SkipOne => p + 1
    case SkipEight => p + 8
    case SkipToBoundary => RoundUp(p)
    case Skip(n) => p + n
    case SeekByte(b) => if b <= |s| then 8 * b else p
    case SeekBit(b) => if b <= 8 * |s| then b else if b / 8 <= |s| then 8 * |s| else p
    case Rewind(n) => p - n
  }

  function NaiveOutcome(s: seq<Byte>, p: nat, op: Op): Outcome
    requires p <= 8 * |s| && Admissible(s, p, op)
  {
    match op
    case Peek(n) => Bits(BitsAt(s, p, n))
    case Get(n) => Bits(BitsAt(s, p, n))
    case SeekByte(b) => if b <= |s| then Done else Failed
    case SeekBit(b) => if b <= 8 * |s| then Done else Failed
    case _ => Done
  }

  predicate AdmissibleRun(s: seq<Byte>, p: nat, ops: seq<Op>)
    requires p <= 8 * |s|
    decreases |ops|
  {
    |ops| == 0 || (Admissible(s, p, ops[0]) && AdmissibleRun(s, NaivePosition(s, p, ops[0]), ops[1..]))
  }

  function NaiveRun(s: seq<Byte>, p: nat, ops: seq<Op>): (run: (seq<Outcome>, nat))
    requires p <= 8 * |s| && AdmissibleRun(s, p, ops)
    ensures |run.0| == |ops| && run.1 <= 8 * |s|
    decreases |ops|
  {
    if |ops| == 0 then ([], p)
    else
      var rest := NaiveRun(s, NaivePosition(s, p, ops[0]), ops[1..]);
      ([NaiveOutcome(s, p, ops[0])] + rest.0, rest.1)
  }

  // ---- what the layout foretells ---------------------------------------------------

  /** The fragment that a walk back from a window at `base` starts in; at the end of the stream, at worst. */
  ghost function RestingAt(fs: seq<Fragment>, s: seq<Byte>, base: int): nat
    requires |fs| > 0
  {
    if base < |s| then Landing(fs, base) else |fs| - 1
  }

  /** A rewind that refills the window ends well; at the end of the stream, from wherever its cursor may be. */
  ghost predicate Returns(fs: seq<Fragment>, s: seq<Byte>, v: View, op: Op)
    requires |fs| > 0
  {
    op.Rewind? && v.offset < op.bits ==>
      var j := RestingAt(fs, s, v.base);
      && 0 < v.base <= |s| && StartsAt(fs, j, v.base)
      && RewindFate(fs, s, v, op.bits, j) == Back && (v.base == |s| ==> Retraces(fs, j, v.base, 4))
  }

  /** ... and keeps its place: nothing is missed. */
  ghost predicate Passes(fs: seq<Fragment>, s: seq<Byte>, v: View, op: Op)
    requires |fs| > 0
  {
    Returns(fs, s, v, op) && (op.Rewind? && v.offset < op.bits ==> Missed(fs, RestingAt(fs, s, v.base), v.base) == 0)
  }

  /** The window after an operation, from the fragments and the operation alone. */
  ghost function Forecast(fs: seq<Fragment>, s: seq<Byte>, v: View, op: Op): (r: View)
    requires |fs| > 0 && |v.seen| == |s| && (op.Rewind? ==> 1 <= op.bits <= 32) && Returns(fs, s, v, op)
    ensures |r.seen| == |s|
  {
    match op
    case Peek(_) => v
    case Get(n) => Advanced(fs, s, v, n)
    case SkipOne => Advanced(fs, s, v, 1)
    case SkipEight => Advanced(fs, s, v, 8)
    case SkipToBoundary => Advanced(fs, s, v, RoundUp(v.offset) - v.offset)
    case Skip(n) => SlidAll(fs, s, v.(offset := v.offset + n))
    case SeekByte(b) => if b <= |s| then Fresh(fs, s, b) else v
    case SeekBit(b) =>
      if b <= 8 * |s| then
        var start := Fresh(fs, s, b / 8);
        SlidAll(fs, s, start.(offset := start.offset + b % 8))
      else if b / 8 <= |s| then Fresh(fs, s, |s|) else v
    case Rewind(n) => Rewound(fs, s, v, n, RestingAt(fs, s, v.base))
  }

  /** What it returns: a read what the window shows, unless its cursor has left the first word. */
  ghost function Foreseen(s: seq<Byte>, v: View, op: Op): Outcome
    requires |v.seen| == |s| && OnStream(s, v) && Admissible(s, v.Position(), op)
  {
    if op.Peek? || op.Get? then
      if v.offset < 32 then Bits(BitsAt(v.seen, v.Position(), op.bits)) else Undefined
    else NaiveOutcome(s, v.Position(), op)
  }

  /** A read finds its cursor in the first word, and the window shows the stream there. */
  ghost predicate Right(s: seq<Byte>, v: View, op: Op)
    requires |v.seen| == |s| && OnStream(s, v) && Admissible(s, v.Position(), op)
  {
    op.Peek? || op.Get? ==> v.offset < 32 && BitsAt(v.seen, v.Position(), op.bits) == BitsAt(s, v.Position(), op.bits)
  }

  lemma RightIff(s: seq<Byte>, v: View, op: Op)
    requires |v.seen| == |s| && OnStream(s, v) && Admissible(s, v.Position(), op)
    ensures Foreseen(s, v, op) == NaiveOutcome(s, v.Position(), op) <==> Right(s, v, op)
  {
  }

  /** Every operation leaves a window on the stream, and moves it as the naive reader moves its position if it keeps its place. */
  lemma ForecastWell(fs: seq<Fragment>, s: seq<Byte>, v: View, op: Op)
    requires Scattered(fs, s) && Shown(s, v) && OnStream(s, v) && Admissible(s, v.Position(), op) && Returns(fs, s, v, op)
    ensures var r := Forecast(fs, s, v, op);
            && Shown(s, r) && OnStream(s, r)
            && (Passes(fs, s, v, op) ==> r.Position() == NaivePosition(s, v.Position(), op))
            && (!op.Rewind? && Sees(s, v) ==> Sees(s, r))
            && (v.offset < 32 && (op.Get? ==> op.bits <= 8) ==> r.offset < 32)
  {
    hide Sees, Advanced, Slid, Walk, RoundUp, Fresh, Rewound, Landing;
    match op
    case Peek(_) =>
    case Get(n) => AdvancedWell(fs, s, v, n);
    case SkipOne => AdvancedWell(fs, s, v, 1);
    case SkipEight => AdvancedWell(fs, s, v, 8);
    case SkipToBoundary => BoundaryWell(fs, s, v);
    case Skip(n) => SkipWell(fs, s, v, n);
    case SeekByte(b) => if b <= |s| { FreshWell(fs, s, b); }
    case SeekBit(b) => SeekWell(fs, s, b);
    case Rewind(n) => RewindWell(fs, s, v, n);
  }

  lemma BoundaryWell(fs: seq<Fragment>, s: seq<Byte>, v: View)
    requires Scattered(fs, s) && Shown(s, v) && OnStream(s, v)
    ensures var r := Advanced(fs, s, v, RoundUp(v.offset) - v.offset);
            && Shown(s, r) && OnStream(s, r) && r.Position() == RoundUp(v.Position()) && (Sees(s, v) ==> Sees(s, r))
            && (v.offset < 32 ==> r.offset < 32)
  {
    hide Shown, Sees, Advanced, RoundUp;
    RoundedUp(v.offset, v.base, |s|);
    RoundedUp(v.Position(), 0, |s|);
    AdvancedWell(fs, s, v, RoundUp(v.offset) - v.offset);
  }

  lemma RewindWell(fs: seq<Fragment>, s: seq<Byte>, v: View, n: nat)
    requires Scattered(fs, s) && Shown(s, v) && OnStream(s, v) && 1 <= n <= 32 && n <= v.Position() && Returns(fs, s, v, Rewind(n))
    ensures var r := Forecast(fs, s, v, Rewind(n));
            && Shown(s, r) && OnStream(s, r) && (v.offset < 32 ==> r.offset < 32)
            && (Passes(fs, s, v, Rewind(n)) <==> r.Position() == v.Position() - n)
  {
    hide Walk, Prefixed, Landing;
    RewoundPosition(fs, s, v, n, RestingAt(fs, s, v.base));
  }

  lemma SkipWell(fs: seq<Fragment>, s: seq<Byte>, v: View, n: nat)
    requires Scattered(fs, s) && Shown(s, v) && OnStream(s, v) && v.Position() + n <= 8 * |s|
    ensures var r := SlidAll(fs, s, v.(offset := v.offset + n));
            Shown(s, r) && OnStream(s, r) && r.Position() == v.Position() + n && (Sees(s, v) ==> Sees(s, r))
  {
    SlidAllWell(fs, s, v.(offset := v.offset + n));
  }

  lemma SeekWell(fs: seq<Fragment>, s: seq<Byte>, b: nat)
    requires Scattered(fs, s)
    ensures b <= 8 * |s| ==>
              var start := Fresh(fs, s, b / 8);
              var r := SlidAll(fs, s, start.(offset := start.offset + b % 8));
              Shown(s, r) && OnStream(s, r) && r.Position() == b && Sees(s, r)
    ensures b > 8 * |s| ==>
              var r := Fresh(fs, s, |s|);
              Shown(s, r) && OnStream(s, r) && r.Position() == 8 * |s| && Sees(s, r) && r.offset <= 24
  {
    if b <= 8 * |s| {
      FreshWell(fs, s, b / 8);
      SkipWell(fs, s, Fresh(fs, s, b / 8), b % 8);
    } else {
      FreshWell(fs, s, |s|);
    }
  }

  /** A run that the reader can make: every operation is admissible where the window then is, and every rewind returns. */
  ghost predicate Possible(fs: seq<Fragment>, s: seq<Byte>, v: View, ops: seq<Op>)
    requires |fs| > 0 && |v.seen| == |s|
    decreases |ops|
  {
    |ops| > 0 ==>
      && OnStream(s, v) && Admissible(s, v.Position(), ops[0]) && Returns(fs, s, v, ops[0])
      && Possible(fs, s, Forecast(fs, s, v, ops[0]), ops[1..])
  }

  /** What it returns, and where it ends. */
  ghost function ForeseenRun(fs: seq<Fragment>, s: seq<Byte>, v: View, ops: seq<Op>): (run: (seq<Outcome>, View))
    requires |fs| > 0 && |v.seen| == |s| && Possible(fs, s, v, ops)
    ensures |run.0| == |ops| && |run.1.seen| == |s|
    decreases |ops|
  {
    if |ops| == 0 then ([], v)
    else
      var rest := ForeseenRun(fs, s, Forecast(fs, s, v, ops[0]), ops[1..]);
      ([Foreseen(s, v, ops[0])] + rest.0, rest.1)
  }

  /** Every rewind of a run keeps its place. */
  ghost predicate AllPass(fs: seq<Fragment>, s: seq<Byte>, v: View, ops: seq<Op>)
    requires |fs| > 0 && |v.seen| == |s|
    decreases |ops|
  {
    |ops| > 0 ==>
      && (ops[0].Rewind? ==> 1 <= ops[0].bits <= 32) && Passes(fs, s, v, ops[0])
      && AllPass(fs, s, Forecast(fs, s, v, ops[0]), ops[1..])
  }

  /** Every read of it is right. */
  ghost predicate AllRight(fs: seq<Fragment>, s: seq<Byte>, v: View, ops: seq<Op>)
    requires |fs| > 0 && |v.seen| == |s| && AllPass(fs, s, v, ops)
    decreases |ops|
  {
    |ops| > 0 ==>
      && OnStream(s, v) && Admissible(s, v.Position(), ops[0]) && Right(s, v, ops[0])
      && AllRight(fs, s, Forecast(fs, s, v, ops[0]), ops[1..])
  }

  // ---- the reader does it ----------------------------------------------------------

  method PerformRead(r: BitstreamReader, op: Op) returns (out: Outcome)
    requires op.Peek? || op.Get?
    requires r.Windowed() && OnStream(r.stream, r.View()) && Admissible(r.stream, r.Position(), op)
    modifies r
    ensures r.Windowed() && r.View() == Forecast(r.fragments, r.stream, old(r.View()), op)
    ensures out == Foreseen(r.stream, old(r.View()), op)
  {
    hide BitstreamReader.Sourced, Advanced, Sees, Showing, BitsAt;
    r.ViewIsShown();
    out := Undefined;
    if r.cacheOffset < 32 {
      r.EnoughIsCached(op.bits);
      var v;
      if op.Peek? {
        v := r.PeekBits(op.bits);
      } else {
        v := r.GetBits(op.bits);
      }
      out := Bits(v);
    } else if op.Get? {
      r.Advance(op.bits);
    }
  }

  method PerformSkip(r: BitstreamReader, op: Op)
    requires op.SkipOne? || op.SkipEight? || op.SkipToBoundary? || op.Skip?
    requires r.Windowed() && 0 <= r.Position()
    modifies r
    ensures r.Windowed() && r.View() == Forecast(r.fragments, r.stream, old(r.View()), op)
  {
    hide BitstreamReader.Windowed, Advanced, SlidAll, RoundUp, Sees, Showing;
    match op {
      case SkipOne =>
        r.SkipBit();
      case SkipEight =>
        r.SkipByte();
      case SkipToBoundary =>
        ghost var _ := r.SkipToByteBoundary();
      case Skip(n) =>
        r.SkipBits(n);
    }
  }

  method PerformSeek(r: BitstreamReader, op: Op) returns (out: Outcome)
    requires op.SeekByte? || op.SeekBit?
    requires r.Windowed() && OnStream(r.stream, r.View())
    modifies r
    ensures r.Windowed() && r.View() == Forecast(r.fragments, r.stream, old(r.View()), op)
    ensures out == Foreseen(r.stream, old(r.View()), op)
  {
    hide BitstreamReader.Sourced, Fresh, SlidAll, Sees, Showing;
    var status;
    if op.SeekByte? {
      status := r.SetBytePosition(op.pos);
    } else {
      status := r.SetBitPosition(op.pos);
    }
    return if status == Ok then Done else Failed;
  }

  method PerformRewind(r: BitstreamReader, bits: nat)
    requires r.Windowed() && 1 <= bits <= 32 && bits <= r.Position() && Returns(r.fragments, r.stream, r.View(), Rewind(bits))
    modifies r
    ensures r.Windowed() && r.View() == Forecast(r.fragments, r.stream, old(r.View()), Rewind(bits))
  {
    hide Scattered, Walk, Prefixed, Showing, Retraces;
    ghost var v := r.View();
    r.ViewIsShown();
    if r.cacheOffset < bits {
      r.RestingIsLayout(0);
      if r.Base() == |r.stream| {
        EarlierRetraces(r.fragments, r.fragmentIndex, |r.fragments| - 1, r.Base());
        CleanRewound(r.fragments, r.stream, v, bits, r.fragmentIndex, |r.fragments| - 1);
      }
    }
    var _ := r.RewindBits(bits);
  }

  lemma EarlierRetraces(fs: seq<Fragment>, i: nat, j: nat, at: int)
    requires i <= j && Retraces(fs, j, at, 4)
    ensures Retraces(fs, i, at, 4)
  {
  }

  /** One operation does and returns what is foreseen. */
  method Perform(r: BitstreamReader, op: Op) returns (out: Outcome)
    requires r.Windowed() && OnStream(r.stream, r.View()) && Admissible(r.stream, r.Position(), op)
    requires Returns(r.fragments, r.stream, r.View(), op)
    modifies r
    ensures r.Windowed() && r.View() == Forecast(r.fragments, r.stream, old(r.View()), op)
    ensures out == Foreseen(r.stream, old(r.View()), op)
  {
    hide BitstreamReader.Sourced, Forecast, Showing, BitsAt, Returns;
    match op {
      case Peek(_) => out := PerformRead(r, op);
      case Get(_) => out := PerformRead(r, op);
      case SeekByte(_) => out := PerformSeek(r, op);
      case SeekBit(_) => out := PerformSeek(r, op);
      case Rewind(n) =>
        PerformRewind(r, n);
        out := Done;
      case _ =>
        PerformSkip(r, op);
        out := Done;
    }
  }

  /** Every run over any fragments does and returns what is foreseen. */
  method Run(r: BitstreamReader, ops: seq<Op>) returns (outs: seq<Outcome>)
    requires r.Windowed() && Possible(r.fragments, r.stream, r.View(), ops)
    modifies r
    ensures r.Windowed() && (outs, r.View()) == ForeseenRun(r.fragments, r.stream, old(r.View()), ops)
    decreases |ops|
  {
    hide BitstreamReader.Sourced, Forecast, Returns, Foreseen, Showing, Admissible;
    if |ops| == 0 {
      return [];
    }
    r.ViewIsShown();
    var first := Perform(r, ops[0]);
    var rest := Run(r, ops[1..]);
    return [first] + rest;
  }

  /**
    If every rewind keeps its place, the foreseen run conserves the position of the naive run, and
    returns what that returns if and only if every read of it is right.
   */
  lemma {:induction false} NaiveIffRight(fs: seq<Fragment>, s: seq<Byte>, v: View, ops: seq<Op>)
    requires Scattered(fs, s) && Shown(s, v) && OnStream(s, v) && AdmissibleRun(s, v.Position(), ops) && AllPass(fs, s, v, ops)
    ensures Possible(fs, s, v, ops)
    ensures var (outs, end) := ForeseenRun(fs, s, v, ops);
            && end.Position() == NaiveRun(s, v.Position(), ops).1
            && (outs == NaiveRun(s, v.Position(), ops).0 <==> AllRight(fs, s, v, ops))
    decreases |ops|
  {
    hide Forecast, Returns, NaivePosition, NaiveOutcome, Foreseen, Right, Admissible;
    if |ops| > 0 {
      var op, rest := ops[0], ops[1..];
      var next := Forecast(fs, s, v, op);
      ForecastWell(fs, s, v, op);
      RightIff(s, v, op);
      NaiveIffRight(fs, s, next, rest);
      SameHeadAndTail(Foreseen(s, v, op), ForeseenRun(fs, s, next, rest).0,
                      NaiveOutcome(s, v.Position(), op), NaiveRun(s, next.Position(), rest).0);
    }
  }

  lemma SameHeadAndTail(x: Outcome, xs: seq<Outcome>, y: Outcome, ys: seq<Outcome>)
    ensures [x] + xs == [y] + ys <==> x == y && xs == ys
  {
    if [x] + xs == [y] + ys {
      assert ([x] + xs)[0] == ([y] + ys)[0] && ([x] + xs)[1..] == ([y] + ys)[1..];
    }
  }

  // ---- runs that are always right --------------------------------------------------

  /** Forward, and at most eight bits at a time. */
  predicate Narrow(ops: seq<Op>) {
    forall i | 0 <= i < |ops| :: !ops[i].Rewind? && (ops[i].Get? ==> ops[i].bits <= 8)
  }

  lemma SeesRight(s: seq<Byte>, v: View, op: Op)
    requires |v.seen| == |s| && OnStream(s, v) && Admissible(s, v.Position(), op) && Sees(s, v) && v.offset < 32
    ensures Right(s, v, op)
  {
    if op.Peek? || op.Get? {
      BitsOfBytes(v.seen, s, v.Position(), op.bits);
    }
  }

  /** Over every layout narrow runs are right. */
  lemma {:induction false} NarrowIsRight(fs: seq<Fragment>, s: seq<Byte>, v: View, ops: seq<Op>)
    requires Scattered(fs, s) && Shown(s, v) && OnStream(s, v) && AdmissibleRun(s, v.Position(), ops) && Narrow(ops)
    requires Sees(s, v) && v.offset < 32
    ensures AllPass(fs, s, v, ops) && AllRight(fs, s, v, ops)
    decreases |ops|
  {
    hide Sees, Forecast, NaivePosition, Right, Admissible;
    if |ops| > 0 {
      ForecastWell(fs, s, v, ops[0]);
      SeesRight(s, v, ops[0]);
      NarrowIsRight(fs, s, Forecast(fs, s, v, ops[0]), ops[1..]);
    }
  }

  predicate Forward(ops: seq<Op>) {
    forall i | 0 <= i < |ops| :: !ops[i].Rewind?
  }

  lemma ForecastSteady(fs: seq<Fragment>, s: seq<Byte>, v: View, op: Op)
    requires Scattered(fs, s) && |fs| == 1 && Shown(s, v) && OnStream(s, v) && Admissible(s, v.Position(), op) && !op.Rewind?
    requires Steady(fs, s, v) && v.offset < 32
    ensures Steady(fs, s, Forecast(fs, s, v, op)) && Forecast(fs, s, v, op).offset < 32
  {
    hide Advanced, Slid, RoundUp, Fresh, Steady;
    match op
    case Peek(_) =>
    case Get(n) => AdvancedSteady(fs, s, v, n);
    case SkipOne => AdvancedSteady(fs, s, v, 1);
    case SkipEight => AdvancedSteady(fs, s, v, 8);
    case SkipToBoundary => AdvancedSteady(fs, s, v, RoundUp(v.offset) - v.offset);
    case Skip(n) => SteadyAsShown(fs, s, v, n); SlidAllSteady(fs, s, v.(offset := v.offset + n));
    case SeekByte(b) => if b <= |s| { FreshWell(fs, s, b); FreshOne(fs, s, b); }
    case SeekBit(b) =>
      if b <= 8 * |s| {
        FreshWell(fs, s, b / 8);
        FreshOne(fs, s, b / 8);
        SteadyAsShown(fs, s, Fresh(fs, s, b / 8), b % 8);
        SlidAllSteady(fs, s, Fresh(fs, s, b / 8).(offset := Fresh(fs, s, b / 8).offset + b % 8));
      } else if b / 8 <= |s| {
        FreshWell(fs, s, |s|);
        FreshOne(fs, s, |s|);
      }
  }

  lemma SteadyAsShown(fs: seq<Fragment>, s: seq<Byte>, v: View, n: nat)
    requires Shown(s, v)
    ensures Shown(s, v.(offset := v.offset + n))
    ensures Steady(fs, s, v) ==> Steady(fs, s, v.(offset := v.offset + n))
    ensures Level(fs, s, v) ==> Level(fs, s, v.(offset := v.offset + n))
  {
  }

  /** Over one buffer forward runs are right. */
  lemma {:induction false} ForwardIsRight(fs: seq<Fragment>, s: seq<Byte>, v: View, ops: seq<Op>)
    requires Scattered(fs, s) && |fs| == 1 && Shown(s, v) && OnStream(s, v) && AdmissibleRun(s, v.Position(), ops) && Forward(ops)
    requires Steady(fs, s, v) && Sees(s, v) && v.offset < 32
    ensures AllPass(fs, s, v, ops) && AllRight(fs, s, v, ops)
    decreases |ops|
  {
    hide Sees, Forecast, NaivePosition, Right, Admissible, Steady;
    if |ops| > 0 {
      ForecastWell(fs, s, v, ops[0]);
      ForecastSteady(fs, s, v, ops[0]);
      SeesRight(s, v, ops[0]);
      ForwardIsRight(fs, s, Forecast(fs, s, v, ops[0]), ops[1..]);
    }
  }

  /** A seek leaves the window on word boundaries: into word-aligned bytes, or into the first byte of one buffer. */
  ghost predicate OnWord(fs: seq<Fragment>, byte: nat)
    requires |fs| > 0
  {
    Aligned(fs[0].data + byte) || (byte == 0 && |fs| == 1)
  }

  /** What a run both ways may do: seek like that, and refill soundly. */
  ghost predicate Soundly(fs: seq<Fragment>, s: seq<Byte>, v: View, op: Op)
    requires |fs| > 0
  {
    && (op.SeekByte? ==> OnWord(fs, op.pos)) && (op.SeekBit? ==> OnWord(fs, op.pos / 8))
    && (op.Rewind? && v.offset < op.bits ==>
          var j := RestingAt(fs, s, v.base);
          StartsAt(fs, j, v.base) && Sound(fs, s, j, v.base) && (v.base == |s| ==> Retraces(fs, j, v.base, 4)))
  }

  lemma FreshLevel(fs: seq<Fragment>, s: seq<Byte>, at: nat)
    requires Scattered(fs, s) && Congruent(fs) && at <= |s| && OnWord(fs, at)
    ensures Level(fs, s, Fresh(fs, s, at))
  {
    hide Congruent, Fresh;
    if Aligned(fs[0].data + at) {
      FreshAligned(fs, s, at);
    } else {
      FreshOne(fs, s, at);
    }
  }

  lemma RewindPasses(fs: seq<Fragment>, s: seq<Byte>, v: View, n: nat)
    requires Scattered(fs, s) && Shown(s, v) && Level(fs, s, v) && 1 <= n <= 32 && n <= v.Position() && Soundly(fs, s, v, Rewind(n))
    ensures Passes(fs, s, v, Rewind(n)) && Level(fs, s, Forecast(fs, s, v, Rewind(n)))
  {
    hide Walk, Sound, Congruent, Retraces, Level, Rewound, RewindFate, Landing;
    var j := RestingAt(fs, s, v.base);
    RewoundLevel(fs, s, v, n, j);
    if v.offset < n {
      SoundKeepsPlace(fs, s, j, v.base);
    }
  }

  lemma ForecastLevel(fs: seq<Fragment>, s: seq<Byte>, v: View, op: Op)
    requires Scattered(fs, s) && Shown(s, v) && OnStream(s, v) && Admissible(s, v.Position(), op)
    requires Level(fs, s, v) && v.offset < 32 && Soundly(fs, s, v, op)
    ensures Passes(fs, s, v, op) && Level(fs, s, Forecast(fs, s, v, op)) && Forecast(fs, s, v, op).offset < 32
  {
    hide Advanced, Slid, RoundUp, Fresh, Level, Sound, Walk, Retraces;
    LevelIsSteady(fs, s, v);
    match op
    case Peek(_) =>
    case Get(n) => AdvancedSteady(fs, s, v, n); AdvancedLevel(fs, s, v, n);
    case SkipOne => AdvancedSteady(fs, s, v, 1); AdvancedLevel(fs, s, v, 1);
    case SkipEight => AdvancedSteady(fs, s, v, 8); AdvancedLevel(fs, s, v, 8);
    case SkipToBoundary =>
      RoundedUp(v.offset, v.base, |s|);
      AdvancedSteady(fs, s, v, RoundUp(v.offset) - v.offset);
      AdvancedLevel(fs, s, v, RoundUp(v.offset) - v.offset);
    case Skip(n) => SteadyAsShown(fs, s, v, n); SlidAllLevel(fs, s, v.(offset := v.offset + n));
    case SeekByte(b) => LevelIsCongruent(fs, s, v); if b <= |s| { FreshWell(fs, s, b); FreshLevel(fs, s, b); }
    case SeekBit(b) => SeekBitLevel(fs, s, v, b);
    case Rewind(n) => RewindPasses(fs, s, v, n); RewoundPosition(fs, s, v, n, RestingAt(fs, s, v.base));
  }

  lemma LevelIsCongruent(fs: seq<Fragment>, s: seq<Byte>, v: View)
    requires Level(fs, s, v)
    ensures Congruent(fs)
  {
  }

  lemma SeekBitLevel(fs: seq<Fragment>, s: seq<Byte>, v: View, b: nat)
    requires Scattered(fs, s) && Level(fs, s, v) && v.offset < 32 && |v.seen| == |s| && OnWord(fs, b / 8)
    ensures Level(fs, s, Forecast(fs, s, v, SeekBit(b))) && Forecast(fs, s, v, SeekBit(b)).offset < 32
  {
    hide Slid, Fresh, Level;
    LevelIsCongruent(fs, s, v);
    if b / 8 <= |s| {
      FreshWell(fs, s, b / 8);
      FreshLevel(fs, s, b / 8);
      if b <= 8 * |s| {
        SteadyAsShown(fs, s, Fresh(fs, s, b / 8), b % 8);
        SlidAllLevel(fs, s, Fresh(fs, s, b / 8).(offset := Fresh(fs, s, b / 8).offset + b % 8));
      }
    }
  }

  /** Every operation of a run both ways is one of those. */
  ghost predicate AllSoundly(fs: seq<Fragment>, s: seq<Byte>, v: View, ops: seq<Op>)
    requires |fs| > 0 && |v.seen| == |s|
    decreases |ops|
  {
    |ops| > 0 ==>
      && (ops[0].Rewind? ==> 1 <= ops[0].bits <= 32) && Soundly(fs, s, v, ops[0])
      && (Passes(fs, s, v, ops[0]) ==> AllSoundly(fs, s, Forecast(fs, s, v, ops[0]), ops[1..]))
  }

  /** Over congruent fragments such runs are right. */
  lemma {:induction false} SoundIsRight(fs: seq<Fragment>, s: seq<Byte>, v: View, ops: seq<Op>)
    requires Scattered(fs, s) && Shown(s, v) && OnStream(s, v) && AdmissibleRun(s, v.Position(), ops)
    requires Level(fs, s, v) && v.offset < 32 && AllSoundly(fs, s, v, ops)
    ensures AllPass(fs, s, v, ops) && AllRight(fs, s, v, ops)
    decreases |ops|
  {
    hide Forecast, NaivePosition, Right, Returns, Soundly;
    if |ops| > 0 {
      ForecastLevel(fs, s, v, ops[0]);
      ForecastWell(fs, s, v, ops[0]);
      SeesRight(s, v, ops[0]);
      SoundIsRight(fs, s, Forecast(fs, s, v, ops[0]), ops[1..]);
    }
  }

  // ---- from source to result -------------------------------------------------------

  /**
    Over every chain of buffers, whatever the sizes and the addresses and for both byte orders, the
    results and the final position are those that the chain and the operations foretell. If the
    rewinds keep their place, that is the position of the naive run over the concatenated bytes, and
    its results if and only if every read finds its cursor in the first word and the stream shown there.
   */
  method RunOverChain(littleEndian: bool, head: Buffer, ghost nodes: seq<Buffer>, ops: seq<Op>)
    returns (outs: seq<Outcome>, position: nat)
    requires Chain(head, nodes) && |nodes| > 0
    requires var fs, s := Table(Blocks(nodes)), Flatten(Blocks(nodes)); Possible(fs, s, Fresh(fs, s, 0), ops)
    ensures var fs, s := Table(Blocks(nodes)), Flatten(Blocks(nodes));
            var (foreseen, end) := ForeseenRun(fs, s, Fresh(fs, s, 0), ops);
            && outs == foreseen && position == Wrap(end.Position())
            && (AdmissibleRun(s, 0, ops) && AllPass(fs, s, Fresh(fs, s, 0), ops) ==>
                  var (naive, end) := NaiveRun(s, 0, ops);
                  position == Wrap(end) && (outs == naive <==> AllRight(fs, s, Fresh(fs, s, 0), ops)))
  {
    hide Chain, Flatten, Table, AdmissibleRun, AllPass, AllRight, NaiveRun, Fresh, Possible, ForeseenRun;
    hide BitstreamReader.Sourced, Showing;
    var r := new BitstreamReader.SetSourceChain(littleEndian, head, nodes);
    r.IsScattered();
    FreshWell(r.fragments, r.stream, 0);
    if AdmissibleRun(r.stream, 0, ops) && AllPass(r.fragments, r.stream, r.View(), ops) {
      NaiveIffRight(r.fragments, r.stream, r.View(), ops);
    }
    outs := Run(r, ops);
    r.ViewIsShown();
    position := r.BitPosition();
  }

  /** Forward runs that take at most eight bits at a time are the naive run over every chain. */
  method RunNarrow(littleEndian: bool, head: Buffer, ghost nodes: seq<Buffer>, ops: seq<Op>)
    returns (outs: seq<Outcome>, position: nat)
    requires Chain(head, nodes) && AdmissibleRun(Flatten(Blocks(nodes)), 0, ops) && Narrow(ops)
    ensures var (expected, end) := NaiveRun(Flatten(Blocks(nodes)), 0, ops); outs == expected && position == Wrap(end)
  {
    hide Chain, Flatten, Table, AdmissibleRun, NaiveRun, Fresh, BitstreamReader.Sourced, Showing, Narrow, AllRight, AllPass;
    var r := new BitstreamReader.SetSourceChain(littleEndian, head, nodes);
    r.ViewIsShown();
    r.IsScattered();
    FreshWell(r.fragments, r.stream, 0);
    NarrowIsRight(r.fragments, r.stream, r.View(), ops);
    NaiveIffRight(r.fragments, r.stream, r.View(), ops);
    outs := Run(r, ops);
    r.ViewIsShown();
    position := r.BitPosition();
  }

  /** Over one contiguous buffer all forward runs are. */
  method RunOverBuffer(littleEndian: bool, data: nat, bytes: seq<Byte>, ops: seq<Op>)
    returns (outs: seq<Outcome>, position: nat)
    requires Forward(ops) && AdmissibleRun(bytes, 0, ops)
    ensures var (expected, end) := NaiveRun(bytes, 0, ops); outs == expected && position == Wrap(end)
  {
    hide AdmissibleRun, NaiveRun, Fresh, BitstreamReader.Sourced, Showing, Forward, AllRight, AllPass;
    var r := new BitstreamReader.SetSource(littleEndian, data, bytes);
    r.ViewIsShown();
    r.IsScattered();
    FreshWell(r.fragments, r.stream, 0);
    FreshOne(r.fragments, r.stream, 0);
    ForwardIsRight(r.fragments, r.stream, r.View(), ops);
    NaiveIffRight(r.fragments, r.stream, r.View(), ops);
    outs := Run(r, ops);
    r.ViewIsShown();
    position := r.BitPosition();
  }

  /**
    Runs both ways are the naive run over every chain whose addresses are, modulo four, their stream
    offsets: reads of any width, seeks to multiples of four, and rewinds that refill soundly.
   */
  method RunBothWaysOverChain(littleEndian: bool, head: Buffer, ghost nodes: seq<Buffer>, ops: seq<Op>)
    returns (outs: seq<Outcome>, position: nat)
    requires Chain(head, nodes) && |nodes| > 0 && InStep(Blocks(nodes)) && AdmissibleRun(Flatten(Blocks(nodes)), 0, ops)
    requires var fs, s := Table(Blocks(nodes)), Flatten(Blocks(nodes)); AllSoundly(fs, s, Fresh(fs, s, 0), ops)
    ensures var (expected, end) := NaiveRun(Flatten(Blocks(nodes)), 0, ops); outs == expected && position == Wrap(end)
  {
    hide Chain, Flatten, Table, AdmissibleRun, NaiveRun, Fresh, BitstreamReader.Sourced, Showing, AllSoundly, Congruent;
    hide AllRight, AllPass;
    var r := new BitstreamReader.SetSourceChain(littleEndian, head, nodes);
    r.ViewIsShown();
    r.IsScattered();
    InStepTable(Blocks(nodes));
    FreshWell(r.fragments, r.stream, 0);
    FreshAligned(r.fragments, r.stream, 0);
    SoundIsRight(r.fragments, r.stream, r.View(), ops);
    NaiveIffRight(r.fragments, r.stream, r.View(), ops);
    outs := Run(r, ops);
    r.ViewIsShown();
    position := r.BitPosition();
  }

  /** Seeks that leave the window on word boundaries, over one buffer. */
  predicate SeeksAligned(data: nat, ops: seq<Op>) {
    forall i | 0 <= i < |ops| ::
      && (ops[i].SeekByte? ==> (data + ops[i].pos) % 4 == 0 || ops[i].pos == 0)
      && (ops[i].SeekBit? ==> (data + ops[i].pos / 8) % 4 == 0 || ops[i].pos / 8 == 0)
  }

  lemma {:induction false} OneIsSound(fs: seq<Fragment>, s: seq<Byte>, v: View, ops: seq<Op>)
    requires Scattered(fs, s) && |fs| == 1 && SeeksAligned(fs[0].data, ops)
    requires Shown(s, v) && OnStream(s, v) && Level(fs, s, v) && v.offset < 32 && AdmissibleRun(s, v.Position(), ops)
    ensures AllSoundly(fs, s, v, ops)
    decreases |ops|
  {
    hide Level, Forecast, NaivePosition, Returns;
    if |ops| > 0 {
      OneStep(fs, s, v, ops[0]);
      ForecastLevel(fs, s, v, ops[0]);
      ForecastWell(fs, s, v, ops[0]);
      OneIsSound(fs, s, Forecast(fs, s, v, ops[0]), ops[1..]);
    }
  }

  lemma OneStep(fs: seq<Fragment>, s: seq<Byte>, v: View, op: Op)
    requires Scattered(fs, s) && |fs| == 1 && SeeksAligned(fs[0].data, [op]) && Shown(s, v) && OnStream(s, v) && Admissible(s, v.Position(), op)
    ensures Soundly(fs, s, v, op)
  {
    assert [op][0] == op;
    if op.Rewind? && v.offset < op.bits {
      if v.base < |s| {
        LandsSomewhere(fs, s, v.base, 0);
      }
      CleanIsSound(fs, s, RestingAt(fs, s, v.base), v.base);
    }
  }

  /** And over one buffer they are, if they seek into word-aligned bytes and into the first byte only. */
  method RunBothWays(littleEndian: bool, data: nat, bytes: seq<Byte>, ops: seq<Op>)
    returns (outs: seq<Outcome>, position: nat)
    requires SeeksAligned(data, ops) && AdmissibleRun(bytes, 0, ops)
    ensures var (expected, end) := NaiveRun(bytes, 0, ops); outs == expected && position == Wrap(end)
  {
    hide AdmissibleRun, NaiveRun, Fresh, BitstreamReader.Sourced, Showing, SeeksAligned, AllRight, AllPass;
    var r := new BitstreamReader.SetSource(littleEndian, data, bytes);
    r.ViewIsShown();
    r.IsScattered();
    FreshWell(r.fragments, r.stream, 0);
    FreshOne(r.fragments, r.stream, 0);
    OneIsSound(r.fragments, r.stream, r.View(), ops);
    SoundIsRight(r.fragments, r.stream, r.View(), ops);
    NaiveIffRight(r.fragments, r.stream, r.View(), ops);
    outs := Run(r, ops);
    r.ViewIsShown();
    position := r.BitPosition();
  }

  lemma NaiveStep(s: seq<Byte>, p: nat, op: Op, rest: seq<Op>)
    requires p <= 8 * |s| && Admissible(s, p, op) && AdmissibleRun(s, NaivePosition(s, p, op), rest)
    ensures AdmissibleRun(s, p, [op] + rest)
    ensures var (outs, end) := NaiveRun(s, NaivePosition(s, p, op), rest);
            NaiveRun(s, p, [op] + rest) == ([NaiveOutcome(s, p, op)] + outs, end)
  {
    hide Admissible, NaivePosition, NaiveOutcome;
    assert ([op] + rest)[1..] == rest;
  }

  lemma {:induction false} NaiveThen(s: seq<Byte>, p: nat, before: seq<Op>, after: seq<Op>)
    requires p <= 8 * |s| && AdmissibleRun(s, p, before)
    ensures AdmissibleRun(s, p, before + after) <==> AdmissibleRun(s, NaiveRun(s, p, before).1, after)
    ensures AdmissibleRun(s, p, before + after) ==>
              var (outs, mid) := NaiveRun(s, p, before);
              var (outs', end) := NaiveRun(s, mid, after);
              NaiveRun(s, p, before + after) == (outs + outs', end)
    decreases |before|
  {
    hide Admissible, NaivePosition, NaiveOutcome;
    if |before| == 0 {
      assert before + after == after;
      if AdmissibleRun(s, p, after) {
        var outs := NaiveRun(s, p, after).0;
        assert [] + outs == outs;
      }
    } else {
      var q := NaivePosition(s, p, before[0]);
      NaiveThen(s, q, before[1..], after);
      assert (before + after)[1..] == before[1..] + after;
      if AdmissibleRun(s, q, before[1..] + after) {
        var outs, outs' := NaiveRun(s, q, before[1..]).0, NaiveRun(s, NaiveRun(s, q, before[1..]).1, after).0;
        assert [NaiveOutcome(s, p, before[0])] + (outs + outs') == [NaiveOutcome(s, p, before[0])] + outs + outs';
      }
    }
  }

  lemma RewindUndoesGet(s: seq<Byte>, p: nat, n: nat, rest: seq<Op>)
    requires p <= 8 * |s| && 1 <= n <= 32 && p + n <= 8 * |s| && AdmissibleRun(s, p, rest)
    ensures AdmissibleRun(s, p, [Get(n), Rewind(n)] + rest)
    ensures NaiveRun(s, p, [Get(n), Rewind(n)] + rest)
            == ([Bits(BitsAt(s, p, n)), Done] + NaiveRun(s, p, rest).0, NaiveRun(s, p, rest).1)
  {
    hide BitsAt, AdmissibleRun, NaiveRun;
    NaiveStep(s, p + n, Rewind(n), rest);
    NaiveStep(s, p, Get(n), [Rewind(n)] + rest);
    assert [Get(n)] + ([Rewind(n)] + rest) == [Get(n), Rewind(n)] + rest;
    var outs := NaiveRun(s, p, rest).0;
    assert [Bits(BitsAt(s, p, n))] + ([Done] + outs) == [Bits(BitsAt(s, p, n)), Done] + outs;
  }

  /**
    Reading n bits and rewinding them in the middle of a run of the real reader leaves all its
    other results and its final position as they are without.
   */
  method RewindLeavesNoTrace(littleEndian: bool, data: nat, bytes: seq<Byte>, before: seq<Op>, n: nat, after: seq<Op>)
    returns (plain: seq<Outcome>, position: nat, spliced: seq<Outcome>, position': nat)
    requires SeeksAligned(data, before) && SeeksAligned(data, after) && AdmissibleRun(bytes, 0, before + after)
    requires AdmissibleRun(bytes, 0, before) && 1 <= n <= 32 && NaiveRun(bytes, 0, before).1 + n <= 8 * |bytes|
    ensures |plain| == |before| + |after| && position' == position
    ensures spliced == plain[..|before|] + [Bits(BitsAt(bytes, NaiveRun(bytes, 0, before).1, n)), Done] + plain[|before|..]
  {
    hide BitsAt, AdmissibleRun, NaiveRun;
    ghost var mid := NaiveRun(bytes, 0, before).1;
    NaiveThen(bytes, 0, before, after);
    RewindUndoesGet(bytes, mid, n, after);
    NaiveThen(bytes, 0, before, [Get(n), Rewind(n)] + after);
    plain, position := RunBothWays(littleEndian, data, bytes, before + after);
    spliced, position' := RunBothWays(littleEndian, data, bytes, before + ([Get(n), Rewind(n)] + after));
  }

  // ---- whole bytes -----------------------------------------------------------------

  method NextByte(r: BitstreamReader, ghost k: nat) returns (b: Byte)
    requires r.Windowed() && r.cacheOffset < 32 && Sees(r.stream, r.View()) && r.Position() == 8 * k && k < |r.stream|
    modifies r
    ensures r.Windowed() && r.cacheOffset < 32 && Sees(r.stream, r.View()) && r.Position() == 8 * (k + 1)
    ensures b == r.stream[k]
  {
    hide BitstreamReader.Sourced, Sees, Showing, BitsAt, Advanced;
    r.EnoughIsCached(8);
    ByteOfStream(r.stream, k);
    var v := r.GetBits(8);
    b := v[24..];
  }

  /** Reading a chain to its end, eight bits at a time, gives its bytes: no fragmentation shows. */
  method ReadAllBytes(littleEndian: bool, head: Buffer, ghost nodes: seq<Buffer>) returns (bytes: seq<Byte>)
    requires Chain(head, nodes)
    ensures bytes == Flatten(Blocks(nodes))
  {
    hide Chain, Flatten, Table, BitstreamReader.Sourced, Fresh, Sees, Showing;
    var r := new BitstreamReader.SetSourceChain(littleEndian, head, nodes);
    r.ViewIsShown();
    r.IsScattered();
    FreshWell(r.fragments, r.stream, 0);
    bytes := [];
    while r.BitsAvailable() >= 8
      invariant fresh(r) && r.Windowed() && r.cacheOffset < 32 && Sees(r.stream, r.View())
      invariant r.Position() == 8 * |bytes| && bytes <= r.stream
      decreases |r.stream| - |bytes|
    {
      var b := NextByte(r, |bytes|);
      bytes := bytes + [b];
    }
  }

  lemma ByteOfStream(s: seq<Byte>, b: nat)
    requires b < |s|
    ensures BitsAt(s, 8 * b, 8)[24..] == s[b]
  {
  }

  /** The reader and SBuffer::CopyTo agree on every chain. */
  method ReadAllAgreesWithCopyTo(littleEndian: bool, head: Buffer, ghost nodes: seq<Buffer>)
    returns (bytes: seq<Byte>, copy: seq<Byte>)
    requires Chain(head, nodes)
    ensures bytes == copy
  {
    bytes := ReadAllBytes(littleEndian, head, nodes);
    var size := head.ChainSize(nodes);
    var dest := new Byte[size];
    var _ := head.CopyTo(dest, size, 0, nodes);
    copy := dest[..];
  }

  // ---- where the plain claims stop -------------------------------------------------

  /**
    Two buffers, the second at an odd address: after 63 bits the padding has pushed the offset
    to 55, where PeekBits and GetBits would shift a word by more than its width, although 65
    bits are left and the position is right. SkipBits(0) repairs it.
   */
  method PaddingOverflowsFirstWord(littleEndian: bool, a: seq<Byte>, b: seq<Byte>)
    returns (offset: nat, position: nat, repaired: nat)
    requires |a| == |b| == 8
    ensures offset == 55 && position == 63 && repaired < 32
  {
    hide BitstreamReader.Sourced, BitsAt, PaddingAt, Showing, Sees, Covered;
    var r := OverOddSecondBuffer(littleEndian, a, b);
    r.ViewIsShown();
    OddSecondBuffer(a, b);
    r.EnoughIsCached(31);
    var v := r.GetBits(31);
    r.ViewIsShown();
    r.EnoughIsCached(32);
    v := r.GetBits(32);
    offset := r.cacheOffset;
    position := r.BitPosition();
    r.SkipBits(0);
    repaired := r.cacheOffset;
  }

  method OverOddSecondBuffer(littleEndian: bool, a: seq<Byte>, b: seq<Byte>) returns (r: BitstreamReader)
    requires |a| == |b| == 8
    ensures fresh(r) && r.Windowed() && r.Base() == 0 && r.cacheOffset == 0
    ensures r.fragments == [Fragment(0, a, 0), Fragment(11, b, 8)] && |r.stream| == 16
  {
    hide BitstreamReader.Sourced, Flatten, Table, PaddingAt, Showing;
    var first := new Buffer(Block(0, a));
    var second := new Buffer(Block(11, b));
    first.next := second;
    ghost var nodes := [first, second];
    r := new BitstreamReader.SetSourceChain(littleEndian, first, nodes);
    assert Blocks(nodes) == [Block(0, a), Block(11, b)];
    TableOfTwo(Block(0, a), Block(11, b));
    OddSecondBuffer(a, b);
    assert |r.stream| == r.ByteLength();
  }

  lemma OddSecondBuffer(a: seq<Byte>, b: seq<Byte>)
    requires |a| == |b| == 8
    ensures var fs := [Fragment(0, a, 0), Fragment(11, b, 8)];
            PaddingAt(fs, 0) == PaddingAt(fs, 4) == 0 && PaddingAt(fs, 8) == 3
  {
    var fs := [Fragment(0, a, 0), Fragment(11, b, 8)];
    assert PaddingFrom(fs, 0, 8, 4) == PaddingFrom(fs, 1, 8, 4) == Padding(fs, 1, 8, 4);
  }

  /**
    The n bits before a seek's target, read by rewinding. After a sound refill, or none, they are right if
    and only if the stream's own bits in the padding of that seek are zero, so always when it needs none.
   */
  method ReadBehindSeek(r: BitstreamReader, pos: nat, n: nat) returns (fate: Fate, v: Word)
    requires r.Sourced() && pos <= |r.stream| && 1 <= n <= 32 && n <= 8 * pos
    modifies r
    ensures var k := SeekPadding(r.fragments, pos);
            8 * k >= n || SoundFrom(r.fragments, r.stream, |r.fragments| - 1, pos - k) ==>
              && fate == Back
              && (v == BitsAt(r.stream, 8 * pos - n, n) <==> ZeroBits(r.stream, pos - k, pos, 8 * pos - n, n))
  {
    hide Scattered, BitsAt, BitsOf, Showing, Zeroed, SeekPadding, Sees, SoundFrom, ZeroBits;
    var _ := r.SetBytePosition(pos);
    r.ViewIsShown();
    ghost var k := pos - r.Base();
    if r.Base() < |r.stream| {
      SoundAnywhere(r.fragments, r.stream, r.fragmentIndex, |r.fragments| - 1, r.Base());
    }
    ZeroedBits(r.stream, pos - k, pos, 8 * pos - n, n);
    fate, v := RewindAndPeek(r, n);
  }

  lemma SoundAnywhere(fs: seq<Fragment>, s: seq<Byte>, i: nat, j: nat, at: int)
    requires at < |s|
    ensures SoundFrom(fs, s, i, at) == SoundFrom(fs, s, j, at)
  {
  }

  /** Rewinding n bits and reading them, after a sound refill or none, yields what the window showed there. */
  method RewindAndPeek(r: BitstreamReader, n: nat) returns (fate: Fate, v: Word)
    requires r.Windowed() && OnStream(r.stream, r.View()) && r.cacheOffset < 32 && 1 <= n <= 32 && n <= r.Position()
    modifies r
    ensures n <= old(r.cacheOffset) || SoundFrom(r.fragments, r.stream, old(r.fragmentIndex), old(r.Base())) ==>
              fate == Back && v == BitsAt(old(r.Seen()), old(r.Position()) - n, n)
  {
    hide Scattered, BitsAt, Showing, SoundFrom;
    ghost var seen, p, snagged := r.Seen(), r.Position() - n, false;
    r.ViewIsShown();
    fate, snagged := r.SearchBack(n, seen, r.fragmentIndex, r.Base(), false);
    v := ZERO;
    if fate == Back {
      r.EnoughIsCached(n);
      v := r.PeekBits(n);
      if !snagged {
        BitsOfBytes(r.Seen(), seen, p, n);
      }
    }
  }

  /** Of the n bits from p, those in the bytes [from, to) are zero. */
  ghost predicate ZeroBits(s: seq<Byte>, from: int, to: int, p: nat, n: nat)
    requires p + n <= 8 * |s|
  {
    forall i | p <= i < p + n && 8 * from <= i < 8 * to :: !BitsOf(s)[i]
  }

  lemma ZeroedBits(s: seq<Byte>, from: int, to: int, p: nat, n: nat)
    requires n <= 32 && p + n <= 8 * |s|
    ensures BitsAt(Zeroed(s, from, to), p, n) == BitsAt(s, p, n) <==> ZeroBits(s, from, to, p, n)
  {
    var z := Zeroed(s, from, to);
    forall i | 0 <= i < 8 * |s|
      ensures BitsOf(z)[i] == if 8 * from <= i < 8 * to then false else BitsOf(s)[i]
    {
      assert BitsOf(z)[i] == z[i / 8][i % 8];
    }
    SameBits(z, s, p, n);
  }

  /** A buffer at an odd address: a seek to its third byte puts three bytes of padding in front. */
  lemma OddBuffer(a: seq<Byte>)
    requires |a| == 8
    ensures SeekPadding([Fragment(1, a, 0)], 2) == 3
  {
  }

  /** There the byte before the target is read wrong unless it is zero. */
  method SeekHidesBytes(littleEndian: bool, a: seq<Byte>) returns (v: Word)
    requires |a| == 8 && a[1][0]
    ensures v != BitsAt(a, 8, 8)
  {
    hide BitstreamReader.Windowed, SeekPadding, BitsAt, Fresh, RewindFate, Walk;
    var r := new BitstreamReader.SetSource(littleEndian, 1, a);
    OddBuffer(a);
    var fate;
    fate, v := ReadBehindSeek(r, 2, 8);
    assert BitsOf(a)[8];
    assert !ZeroBits(a, -1, 2, 8, 8);
  }

  /** One byte, and nine bits skipped: the bit position is 9, the byte position is far from 2. */
  method BytePositionPastEnd(littleEndian: bool, data: nat, b: Byte) returns (bits: nat, bytes: nat)
    ensures bits == 9 && bytes == SIZE_T - SIZE_T / 8 + 2
  {
    hide Showing, Sees, Zeroed;
    var r := new BitstreamReader.SetSource(littleEndian, data, [b]);
    OnePadding(r.fragments, r.stream, 0);
    r.ViewIsShown();
    r.SkipBits(9);
    bits := r.BitPosition();
    bytes := r.BytePosition();
  }

  // ---- empty buffers ---------------------------------------------------------------

  /** Contiguous memory in three buffers, the middle one empty. */
  ghost function AroundEmpty(a: seq<Byte>, b: seq<Byte>): seq<Block> {
    [Block(0, a), Block(|a|, []), Block(|a|, b)]
  }

  ghost function AroundEmptyTable(a: seq<Byte>, b: seq<Byte>): seq<Fragment> {
    [Fragment(0, a, 0), Fragment(|a|, [], |a|), Fragment(|a|, b, |a|)]
  }

  lemma AroundEmptyInStep(a: seq<Byte>, b: seq<Byte>)
    ensures var blocks := AroundEmpty(a, b);
            Table(blocks) == AroundEmptyTable(a, b) && |Flatten(blocks)| == |a| + |b| && InStep(blocks)
  {
    var blocks := AroundEmpty(a, b);
    FlattenTake(blocks, 0);
    FlattenTake(blocks, 1);
    FlattenTake(blocks, 2);
    assert blocks[..3] == blocks;
  }

  /** Walking back from byte 4 misses the word by a byte exactly if the empty buffer stands at byte 2 or 3. */
  lemma EmptyMissesWord(a: seq<Byte>, b: seq<Byte>, s: seq<Byte>)
    requires Scattered(AroundEmptyTable(a, b), s) && |a| + |b| >= 8
    ensures var fs := AroundEmptyTable(a, b);
            var j := Landing(fs, 4);
            && StartsAt(fs, j, 4) && !WordBack(fs, j, 4).stray
            && Missed(fs, j, 4) == (if 2 <= |a| <= 3 then 1 else 0)
            && (Sound(fs, s, j, 4) <==> !(2 <= |a| <= 3))
  {
    hide Walk, Slip, Scattered;
    var fs := AroundEmptyTable(a, b);
    var j := if |a| > 4 then 0 else if |a| == 4 then 1 else 2;
    assert Lands(fs, j, 4);
    LandsOnce(fs, s, j, Landing(fs, 4), 4);
    if 1 <= |a| <= 3 {
      EmptyEntered(fs, s, |a|);
      FragmentByte(fs, s, 0, 0);
      SlipIff(fs, s, 2, 4 - |a|, 4);
      SoundIff(fs, s, 2, 4);
    } else {
      CleanBytes(fs, s, j, 4);
      CleanIsSound(fs, s, j, 4);
    }
  }

  lemma EmptyEntered(fs: seq<Fragment>, s: seq<Byte>, n: nat)
    requires Scattered(fs, s) && |fs| == 3 && 1 <= n <= 3 && |fs[0].bytes| == n && fs[1].bytes == [] && |fs[2].bytes| >= 4 - n
    requires fs[0].data == fs[0].offset == 0 && fs[1].data == fs[1].offset == n && fs[2].offset == n
    ensures StartsAt(fs, 2, 4) && !WordBack(fs, 2, 4).stray && Missed(fs, 2, 4) == if n == 1 then 0 else 1
    ensures n == 1 ==> |WordBack(fs, 2, 4).bytes| == 4 && WordBack(fs, 2, 4).bytes[0] == fs[0].bytes[0]
  {
    hide Walk, Slip, Scattered;
    WalkStep(fs, s, 2, 4 - n, 4);
    if n < 3 {
      WalkStep(fs, s, 2, 3 - n, 3);
    }
    if n < 2 {
      WalkStep(fs, s, 2, 2 - n, 2);
    }
    assert Fetch(fs, n - 1, 0) == Some(fs[0].bytes[n - 1]);
    WalkStep(fs, s, 2, 0, n);
    if n == 1 {
      WalkStops(fs, 1, -1, 0);
    } else {
      WalkStep(fs, s, 1, -1, n - 1);
      if n == 3 {
        WalkStep(fs, s, 0, 2, 1);
        WalkStops(fs, 0, 1, 0);
      } else {
        WalkStops(fs, 0, 1, 0);
      }
    }
  }

  /**
    Reading a word of it and rewinding a byte: with the empty buffer at byte 2 or 3 the call comes back to
    where it was, or loses its cursor if there are only eight bytes; otherwise it is right.
   */
  method RewindOverEmptyBuffer(littleEndian: bool, a: seq<Byte>, b: seq<Byte>) returns (fate: Fate, position: nat)
    requires |a| + |b| >= 8
    ensures fate == if 2 <= |a| <= 3 && |a| + |b| == 8 then Lost else Back
    ensures fate == Back ==> position == if 2 <= |a| <= 3 then 32 else 24
  {
    hide BitstreamReader.Sourced, BitsAt, Showing, Sees, Walk, Prefixed, Covered, PaddingAt, Landing;
    var r := OverEmptyBuffer(littleEndian, a, b);
    EmptyMissesWord(a, b, r.stream);
    r.RestingIsLayout(0);
    fate := r.RewindBits(8);
    position := 0;
    if fate == Back {
      position := r.BitPosition();
    }
  }

  /** The reader over it after its first word. */
  method OverEmptyBuffer(littleEndian: bool, a: seq<Byte>, b: seq<Byte>) returns (r: BitstreamReader)
    requires |a| + |b| >= 8
    ensures fresh(r) && r.Windowed() && r.Base() == 4 && r.cacheOffset == 0 && Scattered(r.fragments, r.stream)
    ensures r.fragments == AroundEmptyTable(a, b) && |r.stream| == |a| + |b|
    ensures r.cacheSize == 8 * Cached(4, |a| + |b|) && r.Position() == 32
  {
    hide BitstreamReader.Sourced, Flatten, Table, Fresh, Level, Showing, Sees, BitsAt, Scattered;
    var third := new Buffer(Block(|a|, b));
    var second := new Buffer(Block(|a|, []));
    var first := new Buffer(Block(0, a));
    first.next := second;
    second.next := third;
    ghost var nodes := [first, second, third];
    r := new BitstreamReader.SetSourceChain(littleEndian, first, nodes);
    assert Blocks(nodes) == AroundEmpty(a, b);
    AroundEmptyInStep(a, b);
    FirstWordOff(r, Blocks(nodes));
  }

  /** Over a chain in step, reading the first word leaves the window at the second. */
  method FirstWordOff(r: BitstreamReader, ghost blocks: seq<Block>)
    requires |blocks| > 0 && InStep(blocks) && r.fragments == Table(blocks) && |r.stream| >= 4
    requires r.Windowed() && r.View() == Fresh(r.fragments, r.stream, 0)
    modifies r
    ensures r.Windowed() && r.Base() == 4 && r.cacheOffset == 0 && r.cacheSize == 8 * Cached(4, |r.stream|)
    ensures r.Position() == 32 && Scattered(r.fragments, r.stream)
  {
    hide BitstreamReader.Sourced, Table, Showing, Sees, BitsAt, Congruent, PaddingAt, Covered, Zeroed;
    r.ViewIsShown();
    r.IsScattered();
    InStepTable(blocks);
    CongruentPadding(r.fragments, r.stream, 0);
    CongruentPadding(r.fragments, r.stream, 4);
    LevelFirst(r.fragments, r.stream);
    SlidSteady(r.fragments, r.stream, r.View().(offset := 32));
    r.EnoughIsCached(32);
    var _ := r.GetBits(32);
    r.ViewIsShown();
  }

  lemma LevelFirst(fs: seq<Fragment>, s: seq<Byte>)
    requires Scattered(fs, s) && Congruent(fs) && Aligned(fs[0].data)
    ensures var v := Fresh(fs, s, 0).(offset := 32); Shown(s, v) && Steady(fs, s, v)
  {
    hide Congruent;
    FreshWell(fs, s, 0);
    FreshAligned(fs, s, 0);
    LevelIsSteady(fs, s, Fresh(fs, s, 0));
  }

  /** Two default buffers, which point to no memory, between two words: the rewind reads the address before it. */
  ghost function AroundNulls(a: seq<Byte>, b: seq<Byte>): seq<Block> {
    [Block(4, a), Block(0, []), Block(0, []), Block(8, b)]
  }

  lemma NullsStray(a: seq<Byte>, b: seq<Byte>, s: seq<Byte>)
    requires |a| == 4 && |b| == 8
    ensures var fs := [Fragment(4, a, 0), Fragment(0, [], 4), Fragment(0, [], 4), Fragment(8, b, 4)];
            Scattered(fs, s) ==> StartsAt(fs, Landing(fs, 4), 4) && WordBack(fs, Landing(fs, 4), 4).stray
  {
    var fs := [Fragment(4, a, 0), Fragment(0, [], 4), Fragment(0, [], 4), Fragment(8, b, 4)];
    if Scattered(fs, s) {
      assert Lands(fs, 2, 4);
      LandsOnce(fs, s, 2, Landing(fs, 4), 4);
      assert Fetch(fs, -1, 4) == Fetch(fs, -1, 3) == Fetch(fs, -1, 2) == Fetch(fs, -1, 1) == Fetch(fs, -1, 0) == None;
      WalkStep(fs, s, 2, 0, 4);
    }
  }

  lemma NullsInStep(a: seq<Byte>, b: seq<Byte>)
    requires |a| == 4
    ensures var blocks := AroundNulls(a, b);
            && Table(blocks) == [Fragment(4, a, 0), Fragment(0, [], 4), Fragment(0, [], 4), Fragment(8, b, 4)]
            && |Flatten(blocks)| == 4 + |b| && InStep(blocks)
  {
    var blocks := AroundNulls(a, b);
    FlattenTake(blocks, 0);
    FlattenTake(blocks, 1);
    FlattenTake(blocks, 2);
    FlattenTake(blocks, 3);
    assert blocks[..4] == blocks;
  }

  method RewindOverNullBuffers(littleEndian: bool, a: seq<Byte>, b: seq<Byte>) returns (fate: Fate)
    requires |a| == 4 && |b| == 8
    ensures fate == Stray
  {
    hide BitstreamReader.Sourced, Flatten, Table, Fresh, Showing, Sees, BitsAt, Scattered, Walk, Landing;
    var fourth := new Buffer(Block(8, b));
    var third := new Buffer(Block(0, []));
    var second := new Buffer(Block(0, []));
    var first := new Buffer(Block(4, a));
    first.next := second;
    second.next := third;
    third.next := fourth;
    ghost var nodes := [first, second, third, fourth];
    var r := new BitstreamReader.SetSourceChain(littleEndian, first, nodes);
    assert Blocks(nodes) == AroundNulls(a, b);
    NullsInStep(a, b);
    FirstWordOff(r, Blocks(nodes));
    NullsStray(a, b, r.stream);
    r.RestingIsLayout(0);
    fate := r.RewindBits(8);
  }
}
