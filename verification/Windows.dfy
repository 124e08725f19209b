/**
  What a bit reader's window does, without the window: the stream byte it starts at, the offset of
  the cursor in it, and the stream as it shows it. The operations of the reader are functions on
  these three, of the fragments and nothing else.
 */
module Windows {
  import opened Collections
  import opened Words
  import opened Streams

  /** A window from stream byte `base` on, with the cursor at bit `offset` of it; `seen` is the stream as it shows it. */
  datatype View = View(base: int, offset: nat, seen: seq<Byte>) {
    function Position(): int {
      8 * base + offset
    }
  }

  function Min(a: int, b: int): int {
    if a < b then a else b
  }

  /** Where the data cached from byte `base` on ends. */
  function CachedTo(base: int, length: nat): (end: nat)
    ensures -8 <= base ==> end == Min(base + 8, length)
  {
    if base <= -8 then 0 else Min(base + 8, length)
  }

  /** How many bytes are cached. */
  function Cached(base: int, length: nat): int {
    CachedTo(base, length) - base
  }

  /** Outside the window nothing is hidden. */
  ghost predicate Shown(s: seq<Byte>, v: View) {
    && |v.seen| == |s| && -8 <= v.base <= |s|
    && forall i | 0 <= i < |s| && !(v.base <= i < CachedTo(v.base, |s|)) :: v.seen[i] == s[i]
  }

  /** From the cursor on the window shows the stream. */
  ghost predicate Sees(s: seq<Byte>, v: View) {
    |v.seen| == |s| && forall i | 0 <= i < |s| && v.Position() < 8 * (i + 1) :: v.seen[i] == s[i]
  }

  /** The cursor is in the stream or at its end. */
  predicate OnStream(s: seq<Byte>, v: View) {
    0 <= v.Position() <= 8 * |s|
  }

  // ---- moving on -------------------------------------------------------------------

  /** next_word: the window moves on by a word less the padding, which is zero. */
  ghost function Slid(fs: seq<Fragment>, s: seq<Byte>, v: View): (r: View)
    requires |fs| > 0 && |v.seen| == |s| && v.offset >= 32
    ensures |r.seen| == |s|
  {
    var k := PaddingAt(fs, CachedTo(v.base, |s|));
    var base := Min(v.base + 4 - k, |s|);
    View(base, v.offset - 32 + 8 * k, Covered(s, v.seen, base, k))
  }

  /** `seen` with the bytes before `base` uncovered and the next k set to zero. */
  ghost function Covered(s: seq<Byte>, seen: seq<Byte>, base: int, k: nat): (r: seq<Byte>)
    requires |seen| == |s|
    ensures |r| == |s|
    ensures forall i | 0 <= i < |s| :: r[i] == if i < base then s[i] else if i < base + k then ZERO_BYTE else seen[i]
  {
    seq<Byte>(|s|, i requires 0 <= i < |s| => if i < base then s[i] else if i < base + k then ZERO_BYTE else seen[i])
  }

  ghost function SlidOnce(fs: seq<Fragment>, s: seq<Byte>, v: View): (r: View)
    requires |fs| > 0 && |v.seen| == |s|
    ensures |r.seen| == |s|
  {
    if v.offset < 32 then v else Slid(fs, s, v)
  }

  ghost function SlidAll(fs: seq<Fragment>, s: seq<Byte>, v: View): (r: View)
    requires |fs| > 0 && |v.seen| == |s|
    ensures |r.seen| == |s| && r.offset < 32
    decreases v.offset
  {
    if v.offset < 32 then v else SlidAll(fs, s, Slid(fs, s, v))
  }

  /** How reads and skips move on. */
  ghost function Advanced(fs: seq<Fragment>, s: seq<Byte>, v: View, bits: nat): (r: View)
    requires |fs| > 0 && |v.seen| == |s|
    ensures |r.seen| == |s|
  {
    SlidOnce(fs, s, v.(offset := v.offset + bits))
  }

  /** `s` with the bytes [from, to) set to zero. */
  ghost function Zeroed(s: seq<Byte>, from: int, to: int): (r: seq<Byte>)
    ensures |r| == |s| && forall i | 0 <= i < |s| :: r[i] == if from <= i < to then ZERO_BYTE else s[i]
  {
    seq<Byte>(|s|, i requires 0 <= i < |s| => if from <= i < to then ZERO_BYTE else s[i])
  }

  /** After a seek to byte `at`: the padding in front shows zeros. */
  ghost function Fresh(fs: seq<Fragment>, s: seq<Byte>, at: nat): (r: View)
    requires |fs| > 0
    ensures |r.seen| == |s|
  {
    var k := SeekPadding(fs, at);
    View(at - k, 8 * k, Zeroed(s, at - k, at))
  }

  lemma SlidPosition(fs: seq<Fragment>, s: seq<Byte>, v: View)
    requires Scattered(fs, s) && Shown(s, v) && v.offset >= 32
    ensures Shown(s, Slid(fs, s, v)) && Slid(fs, s, v).offset <= v.offset - 8 && Slid(fs, s, v).offset % 8 == v.offset % 8
    // The position is conserved if and only if a whole word was cached.
    ensures Slid(fs, s, v).Position() == v.Position() - if Cached(v.base, |s|) < 4 then 32 - 8 * Cached(v.base, |s|) else 0
    ensures OnStream(s, v) ==> OnStream(s, Slid(fs, s, v)) && Slid(fs, s, v).Position() == v.Position()
    ensures !OnStream(s, v) && 0 <= v.Position() ==> Slid(fs, s, v).Position() >= 8 * |s|
  {
    NoPaddingPastEnd(fs, s, CachedTo(v.base, |s|));
  }

  lemma SlidSees(fs: seq<Fragment>, s: seq<Byte>, v: View)
    requires Scattered(fs, s) && Shown(s, v) && v.offset >= 32 && Sees(s, v)
    ensures Sees(s, Slid(fs, s, v))
  {
    NoPaddingPastEnd(fs, s, CachedTo(v.base, |s|));
  }

  /** From the byte of the cursor on, a slide changes nothing of what is seen. */
  lemma SlidAhead(fs: seq<Fragment>, s: seq<Byte>, v: View)
    requires Scattered(fs, s) && Shown(s, v) && v.offset >= 32 && OnStream(s, v)
    ensures var r := Slid(fs, s, v);
            forall i | 0 <= i < |s| && r.Position() < 8 * (i + 1) :: r.seen[i] == v.seen[i]
  {
    NoPaddingPastEnd(fs, s, CachedTo(v.base, |s|));
  }

  /** What holds of every advance. */
  lemma AdvancedWell(fs: seq<Fragment>, s: seq<Byte>, v: View, bits: nat)
    requires Scattered(fs, s) && Shown(s, v) && 0 <= v.Position()
    ensures var r := Advanced(fs, s, v, bits);
            && Shown(s, r) && r.offset % 8 == (v.offset + bits) % 8
            && (v.Position() + bits <= 8 * |s| ==> OnStream(s, r) && r.Position() == v.Position() + bits)
            && (v.Position() + bits > 8 * |s| ==> r.Position() >= 8 * |s|)
            && (Sees(s, v) ==> Sees(s, r))
            && (v.offset < 32 && bits <= 8 ==> r.offset < 32)
  {
    hide PaddingAt, Covered;
    var w := v.(offset := v.offset + bits);
    if w.offset >= 32 {
      SlidPosition(fs, s, w);
      if Sees(s, v) {
        SlidSees(fs, s, w);
      }
    }
  }

  /** From the byte of the cursor on, `v` shows what `seen` shows. */
  ghost predicate Ahead(v: View, seen: seq<Byte>) {
    |v.seen| == |seen| && forall i | 0 <= i < |seen| && v.Position() < 8 * (i + 1) :: v.seen[i] == seen[i]
  }

  lemma AdvancedAhead(fs: seq<Fragment>, s: seq<Byte>, v: View, bits: nat)
    requires Scattered(fs, s) && Shown(s, v) && 0 <= v.Position() && v.Position() + bits <= 8 * |s|
    ensures forall seen | Ahead(v, seen) :: Ahead(Advanced(fs, s, v, bits), seen)
  {
    var w := v.(offset := v.offset + bits);
    if w.offset >= 32 {
      SlidPosition(fs, s, w);
      SlidAhead(fs, s, w);
    }
  }

  lemma {:induction false} SlidAllWell(fs: seq<Fragment>, s: seq<Byte>, v: View)
    requires Scattered(fs, s) && Shown(s, v) && 0 <= v.Position()
    ensures var r := SlidAll(fs, s, v);
            && Shown(s, r)
            && (OnStream(s, v) ==> OnStream(s, r) && r.Position() == v.Position())
            && (!OnStream(s, v) ==> r.Position() >= 8 * |s|)
            && (Sees(s, v) ==> Sees(s, r))
    decreases v.offset
  {
    hide Slid, Sees;
    if v.offset >= 32 {
      SlidPosition(fs, s, v);
      if Sees(s, v) {
        SlidSees(fs, s, v);
      }
      SlidAllWell(fs, s, Slid(fs, s, v));
    }
  }

  // ---- walking backwards -----------------------------------------------------------

  /** The byte at an address, if it belongs to a fragment from the i-th on. */
  function Fetch(fs: seq<Fragment>, address: int, i: nat): Option<Byte>
    decreases |fs| - i
  {
    if i >= |fs| then None
    else if fs[i].data <= address < fs[i].data + |fs[i].bytes| then Some(fs[i].bytes[address - fs[i].data])
    else Fetch(fs, address, i + 1)
  }

  /** The fragments are pieces of one memory: they agree where they overlap. */
  ghost predicate OneMemory(fs: seq<Fragment>) {
    forall i, j, k, l | 0 <= i < |fs| && 0 <= j < |fs| && 0 <= k < |fs[i].bytes| && 0 <= l < |fs[j].bytes|
                        && fs[i].data + k == fs[j].data + l :: fs[i].bytes[k] == fs[j].bytes[l]
  }

  /** In one memory every byte of a fragment is what its address holds. */
  lemma {:induction false} FetchOwn(fs: seq<Fragment>, i: nat, k: nat, from: nat)
    requires OneMemory(fs) && i < |fs| && k < |fs[i].bytes| && from <= i
    ensures Fetch(fs, fs[i].data + k, from) == Some(fs[i].bytes[k])
    decreases i - from
  {
    if from < i && !(fs[from].data <= fs[i].data + k < fs[from].data + |fs[from].bytes|) {
      FetchOwn(fs, i, k, from + 1);
    }
  }

  /**
    Where the walk backwards ends: the bytes it has read, in stream order, the fragment it is in, and
    how many bytes of that are in front of it: -1 if it has entered an empty one. `stray`: it would
    read an address that belongs to no fragment.
   */
  datatype Trail = Trail(stray: bool, bytes: seq<Byte>, index: nat, left: int)

  /** A place in a fragment, or the byte in front of an empty one. */
  predicate Place(fs: seq<Fragment>, j: nat, d: int) {
    j < |fs| && (0 <= d <= |fs[j].bytes| || (d == -1 && fs[j].bytes == []))
  }

  /** The place one byte back: entering a fragment, the walk takes its last byte without asking whether it has one. */
  function Back1(fs: seq<Fragment>, j: nat, d: int): (nat, int)
    requires Place(fs, j, d) && (d > 0 || j > 0)
  {
    if d > 0 then (j, d - 1) else (j - 1, |fs[j - 1].bytes| - 1)
  }

  /** What is read there. */
  function ByteBack(fs: seq<Fragment>, j: nat, d: int): Option<Byte>
    requires j < |fs| && d < |fs[j].bytes|
  {
    if d >= 0 then Some(fs[j].bytes[d]) else Fetch(fs, fs[j].data - 1, 0)
  }

  function Walk(fs: seq<Fragment>, j: nat, d: int, n: nat): (t: Trail)
    requires Place(fs, j, d)
    ensures |t.bytes| <= n && (!t.stray ==> Place(fs, t.index, t.left))
    ensures !t.stray && |t.bytes| < n ==> t.index == 0 && t.left <= 0
  {
    if n == 0 || (d <= 0 && j == 0) then Trail(false, [], j, d)
    else
      var (i, e) := Back1(fs, j, d);
      match ByteBack(fs, i, e)
      case None => Trail(true, [], i, e)
      case Some(b) =>
        var t := Walk(fs, i, e, n - 1);
        t.(bytes := t.bytes + [b])
  }

  /** The stream byte that stands at a place. */
  function StreamAt(fs: seq<Fragment>, j: nat, d: int): int
    requires j < |fs|
  {
    fs[j].offset + d
  }

  /**
    How far the walk has lost its way: the bytes it has read, counted from where it is, end behind
    where it started.
   */
  function Slip(fs: seq<Fragment>, j: nat, d: int, n: nat): int
    requires Place(fs, j, d) && !Walk(fs, j, d, n).stray
  {
    var t := Walk(fs, j, d, n);
    StreamAt(fs, t.index, t.left) + |t.bytes| - StreamAt(fs, j, d)
  }

  /** One step of the walk: a byte back in the stream, but none from in front of an empty fragment. */
  lemma WalkStep(fs: seq<Fragment>, s: seq<Byte>, j: nat, d: int, n: nat)
    requires Scattered(fs, s) && Place(fs, j, d) && n > 0 && (d > 0 || j > 0)
    ensures var (i, e) := Back1(fs, j, d);
            && Place(fs, i, e) && e < |fs[i].bytes| && (d > 0 ==> e >= 0) && (e == -1 <==> fs[i].bytes == [])
            && StreamAt(fs, i, e) == StreamAt(fs, j, d) - (if d == -1 then 0 else 1)
            && (Walk(fs, j, d, n).stray <==> ByteBack(fs, i, e) == None || Walk(fs, i, e, n - 1).stray)
            && (!Walk(fs, j, d, n).stray ==>
                  var t := Walk(fs, i, e, n - 1);
                  && ByteBack(fs, i, e).Some? && Walk(fs, j, d, n) == t.(bytes := t.bytes + [ByteBack(fs, i, e).value])
                  && Slip(fs, j, d, n) == Slip(fs, i, e, n - 1) + if d == -1 then 1 else 0)
  {
  }

  lemma WalkStops(fs: seq<Fragment>, j: nat, d: int, n: nat)
    requires Place(fs, j, d) && (n == 0 || (d <= 0 && j == 0))
    ensures Walk(fs, j, d, n) == Trail(false, [], j, d) && Slip(fs, j, d, n) == 0
  {
  }

  lemma {:induction false} SlipBounds(fs: seq<Fragment>, s: seq<Byte>, j: nat, d: int, n: nat)
    requires Scattered(fs, s) && Place(fs, j, d) && !Walk(fs, j, d, n).stray
    ensures 0 <= Slip(fs, j, d, n) <= n
    ensures d >= 0 && n > 0 ==> Slip(fs, j, d, n) < n
    ensures d == -1 ==> (Slip(fs, j, d, n) == 0 <==> n == 0 || j == 0)
    decreases n
  {
    hide Walk, Slip, Scattered, Back1;
    if n > 0 && (d > 0 || j > 0) {
      WalkStep(fs, s, j, d, n);
      var (i, e) := Back1(fs, j, d);
      SlipBounds(fs, s, i, e, n - 1);
    } else {
      WalkStops(fs, j, d, n);
    }
  }

  /** No empty fragment but the first one is met before the last of n bytes. */
  ghost predicate PlaceKept(fs: seq<Fragment>, j: nat, at: int, n: nat) {
    forall i | 0 < i < j && i < |fs| && fs[i].bytes == [] :: fs[i].offset + n <= at + 1
  }

  /** How that passes from one byte to the next. */
  lemma PlaceKeptBack(fs: seq<Fragment>, s: seq<Byte>, j: nat, d: int, n: nat)
    requires Scattered(fs, s) && Place(fs, j, d) && d >= 0 && n > 0 && (d > 0 || j > 0)
    ensures var (i, e) := Back1(fs, j, d);
            var at := StreamAt(fs, j, d);
            && (n == 1 ==> PlaceKept(fs, j, at, n))
            && (e >= 0 ==> (PlaceKept(fs, j, at, n) <==> PlaceKept(fs, i, at - 1, n - 1)))
            && (e == -1 && n > 1 ==> (PlaceKept(fs, j, at, n) <==> i == 0))
  {
    NoneAhead(fs, s, j, StreamAt(fs, j, d));
  }

  lemma FirstKeeps(fs: seq<Fragment>, at: int, n: nat)
    ensures PlaceKept(fs, 0, at, n)
  {
  }

  lemma NoneAhead(fs: seq<Fragment>, s: seq<Byte>, j: nat, at: int)
    requires Scattered(fs, s) && j < |fs| && fs[j].offset <= at
    ensures forall i | 0 <= i < j :: fs[i].offset <= at
  {
    forall i | 0 <= i < j
      ensures fs[i].offset <= at
    {
      EndsBefore(fs, s, i, j);
    }
  }

  /** The walk keeps its place exactly then. */
  lemma {:induction false} SlipIff(fs: seq<Fragment>, s: seq<Byte>, j: nat, d: int, n: nat)
    requires Scattered(fs, s) && Place(fs, j, d) && d >= 0 && n > 0 && !Walk(fs, j, d, n).stray
    ensures Slip(fs, j, d, n) == 0 <==> PlaceKept(fs, j, StreamAt(fs, j, d), n)
    decreases n
  {
    hide Walk, Slip, Scattered, Back1, PlaceKept;
    if d <= 0 && j == 0 {
      WalkStops(fs, j, d, n);
      FirstKeeps(fs, StreamAt(fs, j, d), n);
    } else {
      WalkStep(fs, s, j, d, n);
      PlaceKeptBack(fs, s, j, d, n);
      var (i, e) := Back1(fs, j, d);
      if e >= 0 && n > 1 {
        SlipIff(fs, s, i, e, n - 1);
      } else {
        SlipBounds(fs, s, i, e, n - 1);
      }
    }
  }

  /** If it keeps its place it has read the stream, but for a last byte in front of an empty fragment. */
  lemma {:induction false} WalkReads(fs: seq<Fragment>, s: seq<Byte>, j: nat, d: int, n: nat)
    requires Scattered(fs, s) && Place(fs, j, d) && !Walk(fs, j, d, n).stray && Slip(fs, j, d, n) == 0
    ensures var t := Walk(fs, j, d, n);
            var at := StreamAt(fs, t.index, t.left);
            forall k | 0 <= k < |t.bytes| && (k > 0 || t.left >= 0) :: 0 <= at + k < |s| && t.bytes[k] == s[at + k]
    decreases n
  {
    hide Walk, Scattered, Back1;
    if n > 0 && (d > 0 || j > 0) {
      WalkStep(fs, s, j, d, n);
      var (i, e) := Back1(fs, j, d);
      SlipBounds(fs, s, i, e, n - 1);
      WalkReads(fs, s, i, e, n - 1);
      if e >= 0 {
        FragmentByte(fs, s, i, e);
      } else {
        WalkStops(fs, i, e, n - 1);
      }
    } else {
      WalkStops(fs, j, d, n);
    }
  }

  /** No empty fragment is met at all. */
  ghost predicate Retraces(fs: seq<Fragment>, j: nat, at: int, n: nat) {
    forall i | 0 <= i < j && i < |fs| && fs[i].bytes == [] :: fs[i].offset + n <= at
  }

  lemma RetracesBack(fs: seq<Fragment>, j: nat, d: int, n: nat)
    requires Place(fs, j, d) && d >= 0 && n > 0 && (d > 0 || j > 0) && Retraces(fs, j, StreamAt(fs, j, d), n)
    requires j > 0 ==> End(fs[j - 1]) == fs[j].offset
    ensures var (i, e) := Back1(fs, j, d);
            e >= 0 && Retraces(fs, i, StreamAt(fs, j, d) - 1, n - 1)
  {
  }

  /** Then the walk keeps its place, as far back as there is a stream. */
  lemma {:induction false} CleanWalk(fs: seq<Fragment>, s: seq<Byte>, j: nat, d: int, n: nat)
    requires Scattered(fs, s) && Place(fs, j, d) && d >= 0 && Retraces(fs, j, StreamAt(fs, j, d), n)
    ensures var t := Walk(fs, j, d, n);
            var at := StreamAt(fs, j, d);
            && !t.stray && t.left >= 0 && Slip(fs, j, d, n) == 0 && at <= |s|
            && |t.bytes| == Min(n, at)
    decreases n
  {
    hide Walk, Slip, Back1, Retraces;
    FragmentInStream(fs, s, j);
    var at := StreamAt(fs, j, d);
    if n > 0 && (d > 0 || j > 0) {
      WalkStep(fs, s, j, d, n);
      RetracesBack(fs, j, d, n);
      var (i, e) := Back1(fs, j, d);
      CleanWalk(fs, s, i, e, n - 1);
    } else {
      WalkStops(fs, j, d, n);
    }
  }

  // ---- going back ------------------------------------------------------------------

  /** Where a cursor behind byte `at` comes to rest when it is moved back to it. */
  ghost predicate Lands(fs: seq<Fragment>, j: nat, at: int) {
    && j < |fs|
    && (|| fs[j].offset < at < End(fs[j])
        || (at == End(fs[j]) && j + 1 < |fs| && fs[j + 1].bytes != []))
  }

  lemma LandsOnce(fs: seq<Fragment>, s: seq<Byte>, i: nat, j: nat, at: int)
    requires Scattered(fs, s) && Lands(fs, i, at) && Lands(fs, j, at)
    ensures i == j
  {
    if i < j {
      EndsBefore(fs, s, i, j);
      if i + 1 < j {
        EndsBefore(fs, s, i + 1, j);
      }
    } else if j < i {
      EndsBefore(fs, s, j, i);
      if j + 1 < i {
        EndsBefore(fs, s, j + 1, i);
      }
    }
  }

  /** The fragment where it rests. */
  ghost function Landing(fs: seq<Fragment>, at: int): (r: nat)
    ensures (exists j: nat :: Lands(fs, j, at)) ==> Lands(fs, r, at)
  {
    if j: nat :| Lands(fs, j, at) then j else 0
  }

  /** A place where the walk over the word before byte `at` can start. */
  ghost predicate StartsAt(fs: seq<Fragment>, j: nat, at: int) {
    j < |fs| && 0 <= at - fs[j].offset <= |fs[j].bytes|
  }

  ghost function WordBack(fs: seq<Fragment>, j: nat, at: int): Trail
    requires StartsAt(fs, j, at)
  {
    Walk(fs, j, at - fs[j].offset, 4)
  }

  /** By how many bytes fill_reverse then misses the word before byte `at`. */
  ghost function Missed(fs: seq<Fragment>, j: nat, at: int): int
    requires StartsAt(fs, j, at) && !WordBack(fs, j, at).stray
  {
    Slip(fs, j, at - fs[j].offset, 4)
  }

  /** Bytes cached after fill_reverse. */
  function Regrown(cached: int): int {
    if cached < 4 then cached + 4 else 8
  }

  /**
    How a rewind ends: Stray, it reads an address in no fragment; Lost, the cursor runs off the last
    fragment, where the source asserts that there is another one.
   */
  datatype Fate = Back | Stray | Lost

  ghost function RewindFate(fs: seq<Fragment>, s: seq<Byte>, v: View, bits: nat, j: nat): Fate
    requires v.offset < bits ==> StartsAt(fs, j, v.base)
  {
    if v.offset >= bits then Back
    else if WordBack(fs, j, v.base).stray then Stray
    else if v.base - 4 + Missed(fs, j, v.base) + Regrown(Cached(v.base, |s|)) > |s| then Lost
    else Back
  }

  /** After RewindBits: the word that the walk has read stands in front of the first one. */
  ghost function Rewound(fs: seq<Fragment>, s: seq<Byte>, v: View, bits: nat, j: nat): (r: View)
    requires 1 <= bits <= 32 && |v.seen| == |s| && (v.offset < bits ==> 0 < v.base <= |s| && StartsAt(fs, j, v.base))
    requires RewindFate(fs, s, v, bits, j) == Back
    ensures |r.seen| == |s|
  {
    if v.offset >= bits then v.(offset := v.offset - bits)
    else
      var base := v.base - 4 + Missed(fs, j, v.base);
      View(base, v.offset + 32 - bits, Prefixed(s, v, base, WordBack(fs, j, v.base).bytes))
  }

  /** What a window from `base` on shows whose first word ends in `bytes` and whose second one was the first of `v`. */
  ghost function Prefixed(s: seq<Byte>, v: View, base: int, bytes: seq<Byte>): (r: seq<Byte>)
    requires |v.seen| == |s| && 0 < v.base <= |s| && |bytes| <= 4
    ensures |r| == |s|
    ensures forall i | 0 <= i < |s| :: r[i] == PrefixedByte(s, v, base, bytes, i)
  {
    seq(|s|, i requires 0 <= i < |s| => PrefixedByte(s, v, base, bytes, i))
  }

  ghost function PrefixedByte(s: seq<Byte>, v: View, base: int, bytes: seq<Byte>, i: nat): Byte
    requires |v.seen| == |s| && 0 < v.base <= |s| && |bytes| <= 4 && i < |s|
  {
    if i >= CachedTo(base, |s|) then s[i]
    else if base + 4 <= i < base + 8 && v.base + i - base - 4 < |s| then v.seen[v.base + i - base - 4]
    else if base + 4 - |bytes| <= i < base + 4 then bytes[i - (base + 4 - |bytes|)]
    else s[i]
  }

  /** The refill is right: the walk keeps its place and reads the stream. */
  ghost predicate Sound(fs: seq<Fragment>, s: seq<Byte>, j: nat, at: int)
    requires StartsAt(fs, j, at)
  {
    var t := WordBack(fs, j, at);
    && !t.stray && Missed(fs, j, at) == 0
    && forall k | 0 <= k < |t.bytes| && 0 <= at - |t.bytes| + k < |s| :: t.bytes[k] == s[at - |t.bytes| + k]
  }

  /** ... from the fragment that the layout says, or from fragment `first` at the end of the stream. */
  ghost predicate SoundFrom(fs: seq<Fragment>, s: seq<Byte>, first: nat, at: int) {
    var j := if at < |s| then Landing(fs, at) else first;
    StartsAt(fs, j, at) && Sound(fs, s, j, at)
  }

  lemma CleanIsSound(fs: seq<Fragment>, s: seq<Byte>, j: nat, at: int)
    requires Scattered(fs, s) && StartsAt(fs, j, at) && Retraces(fs, j, at, 4)
    ensures Sound(fs, s, j, at)
  {
    CleanWalk(fs, s, j, at - fs[j].offset, 4);
    WalkReads(fs, s, j, at - fs[j].offset, 4);
  }

  /** In terms of the layout: it keeps its place, and a byte in front of an empty fragment happens to be the right one. */
  lemma SoundIff(fs: seq<Fragment>, s: seq<Byte>, j: nat, at: int)
    requires Scattered(fs, s) && StartsAt(fs, j, at) && !WordBack(fs, j, at).stray
    ensures var t := WordBack(fs, j, at);
            Sound(fs, s, j, at) <==>
              PlaceKept(fs, j, at, 4) && (t.left == -1 && |t.bytes| == 4 && 4 <= at <= |s| ==> t.bytes[0] == s[at - 4])
  {
    hide Walk, PlaceKept, Scattered;
    var d := at - fs[j].offset;
    var t := WordBack(fs, j, at);
    SlipIff(fs, s, j, d, 4);
    FragmentInStream(fs, s, j);
    if Missed(fs, j, at) == 0 {
      WalkReads(fs, s, j, d, 4);
      WalkStart(fs, s, j, at);
      FirstStarts(fs, s);
    }
  }

  lemma FirstStarts(fs: seq<Fragment>, s: seq<Byte>)
    requires Scattered(fs, s)
    ensures fs[0].offset == 0
  {
  }

  /** The position goes back by the count, and by nothing else exactly if the walk keeps its place. */
  lemma RewoundPosition(fs: seq<Fragment>, s: seq<Byte>, v: View, bits: nat, j: nat)
    requires Scattered(fs, s) && Shown(s, v) && 1 <= bits <= 32 && bits <= v.Position()
    requires v.offset < bits ==> StartsAt(fs, j, v.base)
    requires RewindFate(fs, s, v, bits, j) == Back
    ensures var r := Rewound(fs, s, v, bits, j);
            && Shown(s, r) && 0 <= r.Position()
            && (v.offset < 32 ==> r.offset < 32)
            && r.Position() == v.Position() - bits + (if v.offset < bits then 8 * Missed(fs, j, v.base) else 0)
            && (v.offset < bits ==> v.base - 4 <= r.base < v.base && (r.base > v.base - 4 ==> Cached(r.base, |s|) == 8))
  {
    if v.offset < bits {
      SlipBounds(fs, s, j, v.base - fs[j].offset, 4);
    }
  }

  /** A sound refill changes nothing of what is seen before the new end of the window. */
  lemma RewoundSees(fs: seq<Fragment>, s: seq<Byte>, v: View, bits: nat, j: nat)
    requires Scattered(fs, s) && Shown(s, v) && 1 <= bits <= 32 && bits <= v.Position()
    requires v.offset < bits ==> StartsAt(fs, j, v.base) && Sound(fs, s, j, v.base)
    ensures RewindFate(fs, s, v, bits, j) == Back
    ensures var r := Rewound(fs, s, v, bits, j);
            && r.Position() == v.Position() - bits && CachedTo(r.base, |s|) <= CachedTo(v.base, |s|)
            && forall i | 0 <= i < CachedTo(r.base, |s|) :: r.seen[i] == v.seen[i]
  {
  }

  /** What the walk over a word comes to. */
  lemma WalkStart(fs: seq<Fragment>, s: seq<Byte>, j: nat, at: int)
    requires Scattered(fs, s) && StartsAt(fs, j, at) && !WordBack(fs, j, at).stray
    ensures var bytes, base := WordBack(fs, j, at).bytes, at - 4 + Missed(fs, j, at);
            at - 4 <= base < at && (|bytes| == 4 || base + 4 - |bytes| <= 0) && (at > 0 ==> |bytes| > 0)
  {
    hide Walk;
    if at > 0 {
      WalkStep(fs, s, j, at - fs[j].offset, 4);
    }
    SlipBounds(fs, s, j, at - fs[j].offset, 4);
    var t := WordBack(fs, j, at);
    if |t.bytes| < 4 {
      assert t.index == 0 && fs[0].offset == 0;
    }
  }

  lemma {:induction false} LandsSomewhere(fs: seq<Fragment>, s: seq<Byte>, at: int, i: nat)
    requires Scattered(fs, s) && 0 < at < |s| && i < |fs| && at <= End(fs[i])
    ensures exists j :: Lands(fs, j, at)
  {
    if at == End(fs[i]) {
      LandsAhead(fs, s, at, i);
    } else if fs[i].offset < at {
      assert Lands(fs, i, at);
    } else {
      LandsSomewhere(fs, s, at, i - 1);
    }
  }

  lemma {:induction false} LandsAhead(fs: seq<Fragment>, s: seq<Byte>, at: int, i: nat)
    requires Scattered(fs, s) && 0 < at < |s| && i < |fs| && at == End(fs[i])
    ensures exists j :: Lands(fs, j, at)
    decreases |fs| - i
  {
    if fs[i + 1].bytes != [] {
      assert Lands(fs, i, at);
    } else {
      LandsAhead(fs, s, at, i + 1);
    }
  }

  // ---- layouts that stay on word boundaries ----------------------------------------

  /** No refill to come will insert padding. */
  ghost predicate Steady(fs: seq<Fragment>, s: seq<Byte>, v: View) {
    && Congruent(fs)
    && (CachedTo(v.base, |s|) == |s| || Aligned(fs[0].data + CachedTo(v.base, |s|)))
  }

  lemma SteadyNeedsNoPadding(fs: seq<Fragment>, s: seq<Byte>, v: View)
    requires Scattered(fs, s) && Steady(fs, s, v)
    ensures PaddingAt(fs, CachedTo(v.base, |s|)) == 0
  {
    if CachedTo(v.base, |s|) == |s| {
      NoPaddingPastEnd(fs, s, |s|);
    } else {
      CongruentPadding(fs, s, CachedTo(v.base, |s|));
    }
  }

  lemma SlidSteady(fs: seq<Fragment>, s: seq<Byte>, v: View)
    requires Scattered(fs, s) && Shown(s, v) && Steady(fs, s, v) && v.offset >= 32
    ensures Steady(fs, s, Slid(fs, s, v)) && Slid(fs, s, v).offset == v.offset - 32
    ensures Slid(fs, s, v).base == Min(v.base + 4, |s|) && (v.seen == s ==> Slid(fs, s, v).seen == s)
  {
    hide PaddingAt, Congruent;
    SteadyNeedsNoPadding(fs, s, v);
  }

  /** The window can slide both ways: it shows the stream from a word boundary on, or is too short to slide. */
  ghost predicate Level(fs: seq<Fragment>, s: seq<Byte>, v: View) {
    && Congruent(fs) && v.seen == s
    && (Aligned(fs[0].data + v.base) || (v.base <= 0 && Cached(v.base, |s|) < 4))
  }

  lemma LevelIsSteady(fs: seq<Fragment>, s: seq<Byte>, v: View)
    requires Shown(s, v) && Level(fs, s, v)
    ensures Steady(fs, s, v)
  {
  }

  lemma SlidLevel(fs: seq<Fragment>, s: seq<Byte>, v: View)
    requires Scattered(fs, s) && Shown(s, v) && Level(fs, s, v) && v.offset >= 32 && OnStream(s, v)
    ensures Level(fs, s, Slid(fs, s, v))
  {
    hide Congruent;
    LevelIsSteady(fs, s, v);
    SlidSteady(fs, s, v);
  }

  lemma AdvancedSteady(fs: seq<Fragment>, s: seq<Byte>, v: View, bits: nat)
    requires Scattered(fs, s) && Shown(s, v) && Steady(fs, s, v) && v.offset < 32 && bits <= 32
    ensures Steady(fs, s, Advanced(fs, s, v, bits)) && Advanced(fs, s, v, bits).offset < 32
  {
    hide Congruent, Slid;
    if v.offset + bits >= 32 {
      SlidSteady(fs, s, v.(offset := v.offset + bits));
    }
  }

  lemma AdvancedLevel(fs: seq<Fragment>, s: seq<Byte>, v: View, bits: nat)
    requires Scattered(fs, s) && Shown(s, v) && Level(fs, s, v) && 0 <= v.Position() && v.Position() + bits <= 8 * |s|
    ensures Level(fs, s, Advanced(fs, s, v, bits))
  {
    hide Congruent, Slid;
    if v.offset + bits >= 32 {
      SlidLevel(fs, s, v.(offset := v.offset + bits));
    }
  }

  lemma {:induction false} SlidAllSteady(fs: seq<Fragment>, s: seq<Byte>, v: View)
    requires Scattered(fs, s) && Shown(s, v) && Steady(fs, s, v)
    ensures Steady(fs, s, SlidAll(fs, s, v))
    decreases v.offset
  {
    hide Congruent, Slid;
    if v.offset >= 32 {
      SlidSteady(fs, s, v);
      SlidPosition(fs, s, v);
      SlidAllSteady(fs, s, Slid(fs, s, v));
    }
  }

  lemma {:induction false} SlidAllLevel(fs: seq<Fragment>, s: seq<Byte>, v: View)
    requires Scattered(fs, s) && Shown(s, v) && Level(fs, s, v) && OnStream(s, v)
    ensures Level(fs, s, SlidAll(fs, s, v))
    decreases v.offset
  {
    hide Congruent, Slid;
    if v.offset >= 32 {
      SlidLevel(fs, s, v);
      SlidPosition(fs, s, v);
      SlidAllLevel(fs, s, Slid(fs, s, v));
    }
  }

  lemma RewoundLevel(fs: seq<Fragment>, s: seq<Byte>, v: View, bits: nat, j: nat)
    requires Scattered(fs, s) && Shown(s, v) && Level(fs, s, v) && 1 <= bits <= 32 && bits <= v.Position()
    requires v.offset < bits ==> StartsAt(fs, j, v.base) && Sound(fs, s, j, v.base)
    ensures RewindFate(fs, s, v, bits, j) == Back && Level(fs, s, Rewound(fs, s, v, bits, j))
  {
    hide Congruent, Walk, Sound;
    RewoundSees(fs, s, v, bits, j);
    RewoundPosition(fs, s, v, bits, j);
    if v.offset < bits {
      SoundKeepsPlace(fs, s, j, v.base);
    }
  }

  lemma SoundKeepsPlace(fs: seq<Fragment>, s: seq<Byte>, j: nat, at: int)
    requires StartsAt(fs, j, at) && Sound(fs, s, j, at)
    ensures !WordBack(fs, j, at).stray && Missed(fs, j, at) == 0
  {
  }

  /** After every seek the cursor is in the first word, and the window shows the stream from there on. */
  lemma FreshWell(fs: seq<Fragment>, s: seq<Byte>, at: nat)
    requires Scattered(fs, s) && at <= |s|
    ensures var v := Fresh(fs, s, at); Shown(s, v) && Sees(s, v) && v.offset <= 24 && v.Position() == 8 * at
  {
    SeekPaddingBound(fs, s, at);
  }

  /** Over one buffer a seek leads to word boundaries; to its start, with nothing hidden. */
  lemma FreshOne(fs: seq<Fragment>, s: seq<Byte>, at: nat)
    requires Scattered(fs, s) && |fs| == 1 && at <= |s|
    ensures Steady(fs, s, Fresh(fs, s, at)) && (at == 0 ==> Level(fs, s, Fresh(fs, s, at)))
  {
    hide PaddingAt;
    ContiguousIsCongruent(fs, s);
    var k := PaddingAt(fs, at);
    OnePadding(fs, s, at);
    if at + 4 - k <= |s| {
      OnePadding(fs, s, at + 4 - k);
    } else {
      NoPaddingPastEnd(fs, s, at + 4 - k);
    }
  }

  /** Over congruent fragments a seek to a word boundary needs no padding. */
  lemma FreshAligned(fs: seq<Fragment>, s: seq<Byte>, at: nat)
    requires Scattered(fs, s) && Congruent(fs) && at <= |s| && Aligned(fs[0].data + at)
    ensures Level(fs, s, Fresh(fs, s, at))
  {
    hide PaddingAt;
    CongruentPadding(fs, s, at);
    CongruentPadding(fs, s, at + 4);
  }

  // ---- walks from the end ----------------------------------------------------------

  /** Clean walks from any two places of the same stream byte come to the same. */
  lemma CleanRewound(fs: seq<Fragment>, s: seq<Byte>, v: View, bits: nat, i: nat, j: nat)
    requires Scattered(fs, s) && Shown(s, v) && 1 <= bits <= 32 && bits <= v.Position() && v.offset < bits
    requires StartsAt(fs, i, v.base) && StartsAt(fs, j, v.base) && Retraces(fs, i, v.base, 4) && Retraces(fs, j, v.base, 4)
    ensures RewindFate(fs, s, v, bits, i) == RewindFate(fs, s, v, bits, j) == Back
    ensures Rewound(fs, s, v, bits, i) == Rewound(fs, s, v, bits, j)
  {
    hide Walk, Retraces;
    CleanBytes(fs, s, i, v.base);
    CleanBytes(fs, s, j, v.base);
  }

  lemma CleanBytes(fs: seq<Fragment>, s: seq<Byte>, j: nat, at: int)
    requires Scattered(fs, s) && StartsAt(fs, j, at) && Retraces(fs, j, at, 4)
    ensures var t := WordBack(fs, j, at);
            && !t.stray && Missed(fs, j, at) == 0 && 0 <= at <= |s|
            && t.bytes == s[at - Min(4, at)..at]
  {
    hide Walk, Retraces;
    CleanWalk(fs, s, j, at - fs[j].offset, 4);
    WalkReads(fs, s, j, at - fs[j].offset, 4);
  }
}
