/**
  SBitstreamReader: a bit reader over scattered memory that works from a 64-bit cache window.

  `View` is what the window amounts to: the stream byte it starts at, the offset of the cursor and
  the stream as the window shows it. Every operation makes of it what the module Windows says.
 */
module BitstreamReaders {
  import opened Collections
  import opened Words
  import opened Streams
  import opened Windows
  import opened Buffers

  /** A word under construction: the first `done` bytes come from the stream, the rest are zero. */
  ghost predicate Loaded(littleEndian: bool, w: Word, s: seq<Byte>, at: nat, done: nat) {
    && done <= 4 && at + done <= |s|
    && forall j | 0 <= j < 4 ::
         ByteAt(SwapInt32(littleEndian, w), j) == if j < done then s[at + j] else ZERO_BYTE
  }

  lemma LoadedEmpty(littleEndian: bool, s: seq<Byte>, at: nat)
    requires at <= |s|
    ensures Loaded(littleEndian, ZERO, s, at, 0)
  {
    forall j | 0 <= j < 4
      ensures ByteAt(SwapInt32(littleEndian, ZERO), j) == ZERO_BYTE
    {
      SwappedZero(littleEndian, j);
    }
  }

  lemma LoadedStep(littleEndian: bool, w: Word, s: seq<Byte>, at: nat, done: nat)
    requires Loaded(littleEndian, w, s, at, done) && done < 4 && at + done < |s|
    ensures Loaded(littleEndian, StoreByte(littleEndian, w, done, s[at + done]), s, at, done + 1)
  {
    var w' := StoreByte(littleEndian, w, done, s[at + done]);
    forall j | 0 <= j < 4
      ensures ByteAt(SwapInt32(littleEndian, w'), j) == if j < done + 1 then s[at + j] else ZERO_BYTE
    {
      StoredBytes(littleEndian, w, done, s[at + done], j);
    }
  }

  lemma LoadedWord(littleEndian: bool, s: seq<Byte>, at: nat)
    requires at + 4 <= |s|
    ensures Loaded(littleEndian, LoadWord(littleEndian, s[at..at + 4]), s, at, 4)
  {
    var w := LoadWord(littleEndian, s[at..at + 4]);
    forall j | 0 <= j < 4
      ensures ByteAt(SwapInt32(littleEndian, w), j) == s[at + j]
    {
      LoadedBytes(littleEndian, s[at..at + 4], j);
    }
  }

  /** A word under construction from its far end: its last bytes are `bytes`. */
  ghost predicate LoadedTail(littleEndian: bool, w: Word, bytes: seq<Byte>) {
    |bytes| <= 4 && forall j | 4 - |bytes| <= j < 4 :: ByteAt(SwapInt32(littleEndian, w), j) == bytes[j - (4 - |bytes|)]
  }

  lemma LoadedTailStep(littleEndian: bool, w: Word, bytes: seq<Byte>, b: Byte)
    requires LoadedTail(littleEndian, w, bytes) && |bytes| < 4
    ensures LoadedTail(littleEndian, StoreByte(littleEndian, w, 3 - |bytes|, b), [b] + bytes)
  {
    hide SwapInt32, StoreByte;
    var w' := StoreByte(littleEndian, w, 3 - |bytes|, b);
    forall j | 3 - |bytes| <= j < 4
      ensures ByteAt(SwapInt32(littleEndian, w'), j) == ([b] + bytes)[j - (3 - |bytes|)]
    {
      StoredBytes(littleEndian, w, 3 - |bytes|, b, j);
    }
  }

  /** A refilled first word: k bytes of padding, then n bytes of the stream. */
  ghost predicate FirstWordFilled(c: seq<Word>, s: seq<Byte>, at: nat, k: nat, n: nat) {
    && |c| == 2 && k + n <= 4 && at + n <= |s|
    && forall j | 0 <= j < k + n ::
         WindowByte(c[0], c[1], j) == if j < k then ZERO_BYTE else s[at + j - k]
  }

  /** A refilled second word: the padding goes in front of the first word `first`. */
  ghost predicate SecondWordFilled(c: seq<Word>, first: Word, s: seq<Byte>, at: nat, k: nat, n: nat) {
    && |c| == 2 && k + n <= 4 && at + n <= |s|
    && forall j | 0 <= j < 4 + k + n ::
         WindowByte(c[0], c[1], j)
         == if j < k then ZERO_BYTE else if j < 4 + k then ByteAt(first, j - k) else s[at + j - k - 4]
  }

  ghost function ShownByte(c: seq<Word>, s: seq<Byte>, base: int, end: int, i: nat): Byte
    requires |c| == 2 && end <= base + 8 && i < |s|
  {
    if base <= i < end then WindowByte(c[0], c[1], i - base) else s[i]
  }

  /** The stream as a window on its bytes [base, end) shows it. */
  ghost function Showing(c: seq<Word>, s: seq<Byte>, base: int, end: int): (r: seq<Byte>)
    requires |c| == 2 && end <= base + 8
    ensures |r| == |s|
    ensures forall i | 0 <= i < |s| :: r[i] == ShownByte(c, s, base, end, i)
  {
    seq(|s|, i requires 0 <= i < |s| => ShownByte(c, s, base, end, i))
  }

  /** Dropping the first word and refilling the second uncovers the one and covers k bytes with padding. */
  lemma ShowingSlides(c: seq<Word>, s: seq<Byte>, base: int, c': seq<Word>, k: nat, n: nat)
    requires |c| == 2 && 0 <= base + 8 <= |s| && SecondWordFilled(c', c[1], s, base + 8, k, n)
    ensures Showing(c', s, base + 4 - k, base + 8 + n) == Covered(s, Showing(c, s, base, base + 8), base + 4 - k, k)
  {
    hide ByteAt;
    var r, q := Showing(c', s, base + 4 - k, base + 8 + n), Covered(s, Showing(c, s, base, base + 8), base + 4 - k, k);
    forall i | 0 <= i < |s|
      ensures r[i] == q[i]
    {
      if base + 4 <= i < base + 8 {
        assert WindowByte(c[0], c[1], i - base) == ByteAt(c[1], i - base - 4);
      }
    }
  }

  /** The same when no word can be refilled any more. */
  lemma ShowingDrains(c: seq<Word>, s: seq<Byte>, base: int, c': seq<Word>)
    requires |c| == |c'| == 2 && base <= |s| < base + 8 && c'[0] == c[1]
    ensures Showing(c', s, Min(base + 4, |s|), |s|) == Covered(s, Showing(c, s, base, |s|), Min(base + 4, |s|), 0)
  {
    hide ByteAt;
    var to := Min(base + 4, |s|);
    var r, q := Showing(c', s, to, |s|), Covered(s, Showing(c, s, base, |s|), to, 0);
    forall i | 0 <= i < |s|
      ensures r[i] == q[i]
    {
      if to <= i {
        assert WindowByte(c[0], c[1], i - base) == ByteAt(c[1], i - base - 4);
      }
    }
  }

  /** Two refills from scratch: all padding ends up in front of the first stream byte. */
  lemma ShowingStarts(c: seq<Word>, c': seq<Word>, s: seq<Byte>, at: nat, k: nat, n: nat, k': nat, n': nat)
    requires FirstWordFilled(c, s, at, k, n)
    requires SecondWordFilled(c', c[0], s, at + n, k', n')
    requires k + n == 4 || k' + n' == 0
    ensures Showing(c', s, at - k - k', at + n + n') == Zeroed(s, at - k - k', at)
  {
    hide ByteAt;
    var base := at - k - k';
    var r, q := Showing(c', s, base, at + n + n'), Zeroed(s, base, at);
    forall i | 0 <= i < |s|
      ensures r[i] == q[i]
    {
      if base <= i < at + n + n' && k' <= i - base < 4 + k' {
        assert WindowByte(c[0], c[1], i - base - k') == ByteAt(c[0], i - base - k');
      }
    }
  }

  /** Putting a word in front of the first one. */
  lemma ShowingBack(littleEndian: bool, c: seq<Word>, s: seq<Byte>, v: View, c': seq<Word>, w: Word, base: int, bytes: seq<Byte>)
    requires |c| == |c'| == 2 && 0 < v.base <= |s| && v.seen == Showing(c, s, v.base, CachedTo(v.base, |s|))
    requires LoadedTail(littleEndian, w, bytes) && c'[0] == SwapInt32(littleEndian, w) && c'[1] == c[0]
    requires |bytes| == 4 || base + 4 - |bytes| <= 0
    requires CachedTo(base, |s|) - base <= CachedTo(v.base, |s|) - v.base + 4 && -4 <= base < v.base
    ensures Showing(c', s, base, CachedTo(base, |s|)) == Prefixed(s, v, base, bytes)
  {
    hide ByteAt, SwapInt32;
    var r, q := Showing(c', s, base, CachedTo(base, |s|)), Prefixed(s, v, base, bytes);
    forall i | 0 <= i < |s|
      ensures r[i] == q[i]
    {
      if base + 4 <= i < CachedTo(base, |s|) {
        assert WindowByte(c'[0], c'[1], i - base) == ByteAt(c[0], i - base - 4);
      }
    }
  }

  /** The bits of a window are the bits of what it shows. */
  lemma ShownBits(c: seq<Word>, s: seq<Byte>, base: int, end: int, offset: nat, bits: nat)
    requires |c| == 2 && end <= base + 8 && end <= |s| && bits > 0
    requires 0 <= 8 * base + offset && 8 * base + offset + bits <= 8 * end
    ensures Window(c[0], c[1])[offset..offset + bits]
            == BitsOf(Showing(c, s, base, end))[8 * base + offset..8 * base + offset + bits]
  {
    var seen := Showing(c, s, base, end);
    forall i | offset <= i < offset + bits
      ensures Window(c[0], c[1])[i] == BitsOf(seen)[8 * base + i]
    {
      var j := i / 8;
      assert WindowByte(c[0], c[1], j)[i % 8] == Window(c[0], c[1])[i];
      assert (8 * base + i) / 8 == base + j && (8 * base + i) % 8 == i % 8;
    }
  }

  lemma WrappedDifference(a: int, b: int)
    ensures Wrap(Wrap(a) - Wrap(b)) == Wrap(a - b)
  {
  }

  /** The source's (n + 7) & ~7. */
  function RoundUp(n: nat): (r: nat)
    ensures r % 8 == 0 && n <= r < n + 8
  {
    (n + 7) / 8 * 8
  }

  lemma NoByteBetween(p: int, byte: int)
    ensures 8 * byte == p + (-p) % 8 ==> forall b: int :: p <= 8 * b <==> byte <= b
  {
  }

  /** Rounding a cache offset up to a byte rounds the stream position up to a byte, and not out of the stream. */
  lemma RoundedUp(offset: nat, byte: int, length: int)
    ensures RoundUp(offset) == offset + (-(8 * byte + offset)) % 8
    ensures 8 * byte + offset <= 8 * length <==> 8 * byte + RoundUp(offset) <= 8 * length
  {
  }

  datatype Status = Ok | OutOfRange

  /** The loop of SetSource that fills the fragment table. */
  method FragmentTable(sourceBuffer: Buffer, ghost nodes: seq<Buffer>) returns (fs: seq<Fragment>)
    requires Chain(sourceBuffer, nodes)
    ensures |nodes| > 0 && fs == Table(Blocks(nodes)) && Scattered(fs, Flatten(Blocks(nodes)))
  {
    hide Chain, Scattered, Flatten;
    fs := [];
    var i: Buffer?, offset := sourceBuffer, 0;
    ghost var blocks := Blocks(nodes);
    HeadOfChain(sourceBuffer, nodes);
    OffsetsOfEnds(blocks);
    while i != null
      invariant |fs| <= |nodes| && i == (if |fs| < |nodes| then nodes[|fs|] else null)
      invariant TableOf(fs, blocks) && offset == |Flatten(blocks[..|fs|])|
      decreases |nodes| - |fs|
    {
      FlattenTake(blocks, |fs|);
      NextInChain(sourceBuffer, nodes, |fs|);
      fs := fs + [Fragment(i.block.addr, i.block.bytes, offset)];
      offset := offset + |i.block.bytes|;
      i := i.next;
    }
    TableScatters(blocks, fs);
    WholeTable(fs, blocks);
  }

  class BitstreamReader {
    const littleEndian: bool
    const fragments: seq<Fragment>
    ghost const stream: seq<Byte>

    var cache: seq<Word>
    var cacheOffset: nat          // bits
    var fragmentPointer: int
    var fragmentRemaining: nat    // bytes
    var cacheSize: nat            // bits
    var fragmentIndex: nat

    // ---- the abstract state --------------------------------------------------------

    /** The fragment cursor is inside its fragment, and the table lays out the stream. */
    ghost predicate Sourced()
      reads this
    {
      && |cache| == 2
      && Scattered(fragments, stream)
      && fragmentIndex < |fragments|
      && fragmentRemaining <= |fragments[fragmentIndex].bytes|
      && fragmentPointer == fragments[fragmentIndex].data + |fragments[fragmentIndex].bytes| - fragmentRemaining
    }

    /** Bytes of the stream that have entered the cache. */
    ghost function Consumed(): (n: nat)
      requires Sourced()
      reads this
      ensures n <= |stream|
    {
      End(fragments[fragmentIndex]) - fragmentRemaining
    }

    /** The stream byte that window byte 0 stands for; negative while padding precedes the stream. */
    ghost function Base(): int
      requires Sourced()
      reads this
    {
      Consumed() - cacheSize / 8
    }

    /** The bit of the stream that will be read next. */
    ghost function Position(): int
      requires Sourced()
      reads this
    {
      8 * Consumed() - cacheSize + cacheOffset
    }

    /** The window is full unless it reaches the end of the stream. */
    ghost predicate Windowed()
      reads this
      ensures Windowed() ==> Sourced()
    {
      && Sourced()
      && cacheSize % 8 == 0 && cacheSize <= 64
      && (cacheSize < 64 ==> Consumed() == |stream|)
    }

    /** The stream as the window shows it, padding included. */
    ghost function Seen(): (s: seq<Byte>)
      requires Windowed()
      reads this
      ensures |s| == |stream|
    {
      Showing(cache, stream, Base(), Consumed())
    }

    ghost function View(): (v: View)
      requires Windowed()
      reads this
      ensures |v.seen| == |stream|
    {
      Windows.View.View(Base(), cacheOffset, Seen())
    }

    /** The cursor has not run past the cached data. */
    ghost predicate InRange()
      reads this
    {
      cacheOffset <= cacheSize
    }

    /** All data is consumed, and the cursor is in the last fragment. */
    ghost predicate AtEnd()
      requires Sourced()
      reads this
    {
      Consumed() == |stream| && fragmentIndex == |fragments| - 1
    }

    /** The padding the next refill will insert, in bytes. */
    ghost function NextPadding(): (k: nat)
      requires Sourced()
      reads this
      ensures k <= 3
    {
      Padding(fragments, fragmentIndex, fragmentRemaining, 4)
    }

    /** The bits of the stream that are still to be read. */
    ghost function BitsLeft(): nat
      requires Sourced()
      reads this
    {
      if Position() <= 8 * |stream| then 8 * |stream| - Position() else 0
    }

    /** What is cached follows from where the window starts, and nothing else is hidden. */
    lemma ViewIsShown()
      requires Windowed()
      ensures Consumed() == CachedTo(Base(), |stream|) && cacheSize == 8 * Cached(Base(), |stream|)
      ensures Shown(stream, View()) && View().Position() == Position()
      ensures InRange() ==> Position() <= 8 * |stream|
      ensures Position() <= 8 * |stream| && cacheOffset < 32 ==> InRange()
    {
    }

    lemma IsScattered()
      requires Sourced()
      ensures Scattered(fragments, stream)
    {
    }

    /** The padding depends on the layout and the stream position only. */
    lemma PaddingFromLayout()
      requires Sourced()
      ensures NextPadding() == PaddingAt(fragments, Consumed())
    {
      PaddingIsLayout(fragments, stream, 0, fragmentIndex, fragmentRemaining, 4);
    }

    lemma NoPaddingWhenExhausted()
      requires Sourced() && Consumed() == |stream|
      ensures fragmentRemaining == 0 && NextPadding() == 0
    {
      NoPaddingAtEnd(fragments, stream, fragmentIndex, 4);
    }

    // ---- refilling -----------------------------------------------------------------

    /** Copies the byte under the fragment pointer to byte k of cache word w and advances. */
    method ReadByte(w: nat, k: nat, ghost at: nat, ghost want: nat)
      requires Sourced() && fragmentRemaining > 0 && w < 2 && k < 4
      requires Loaded(littleEndian, cache[w], stream, at, k) && Consumed() == at + k
      requires 1 <= want <= 4
      modifies `cache, `fragmentPointer, `fragmentRemaining
      ensures Sourced() && fragmentRemaining == old(fragmentRemaining) - 1
      ensures Consumed() == at + k + 1 && fragmentPointer == old(fragmentPointer) + 1
      ensures cache[1 - w] == old(cache)[1 - w]
      ensures Loaded(littleEndian, cache[w], stream, at, k + 1)
      ensures old(fragmentRemaining) < want ==>
                Padding(fragments, fragmentIndex, fragmentRemaining, want - 1)
                == old(Padding(fragments, fragmentIndex, fragmentRemaining, want))
    {
      hide Loaded, StoreByte, SwapInt32, Scattered, Padding;
      var f := fragments[fragmentIndex];
      FragmentByte(fragments, stream, fragmentIndex, fragmentPointer - f.data);
      PaddingStep(fragments, fragmentIndex, fragmentRemaining, want);
      LoadedStep(littleEndian, cache[w], stream, at, k);
      cache := cache[w := StoreByte(littleEndian, cache[w], k, f.bytes[fragmentPointer - f.data])];
      fragmentPointer := fragmentPointer + 1;
      fragmentRemaining := fragmentRemaining - 1;
    }

    /** Steps over used-up fragments; returns whether there is still data. */
    method SkipEmptyFragments(ghost want: nat) returns (more: bool)
      requires Sourced() && 1 <= want <= 4
      modifies `fragmentPointer, `fragmentRemaining, `fragmentIndex
      ensures Sourced() && Consumed() == old(Consumed())
      ensures Padding(fragments, fragmentIndex, fragmentRemaining, want)
              == old(Padding(fragments, fragmentIndex, fragmentRemaining, want))
      ensures if more then fragmentRemaining > 0
              else fragmentRemaining == 0 && Consumed() == |stream| && fragmentIndex == |fragments| - 1
    {
      while fragmentRemaining == 0
        invariant Sourced() && Consumed() == old(Consumed())
        invariant Padding(fragments, fragmentIndex, fragmentRemaining, want)
                  == old(Padding(fragments, fragmentIndex, fragmentRemaining, want))
        decreases |fragments| - fragmentIndex
      {
        if fragmentIndex + 1 < |fragments| {
          fragmentIndex := fragmentIndex + 1;
          fragmentPointer := fragments[fragmentIndex].data;
          fragmentRemaining := |fragments[fragmentIndex].bytes|;
        } else {
          return false;
        }
      }
      return true;
    }

    /** The first loop of fill_forward: single bytes from fragments that are too short. */
    method DrainShortFragments(fillOffset: nat) returns (taken: nat, toCache: nat)
      requires Sourced() && (fillOffset == 0 || fillOffset == 4)
      requires Loaded(littleEndian, cache[fillOffset / 4], stream, Consumed(), 0)
      modifies `cache, `fragmentPointer, `fragmentRemaining, `fragmentIndex
      ensures Sourced()
      ensures cache[1 - fillOffset / 4] == old(cache)[1 - fillOffset / 4]
      ensures taken <= 4 && Consumed() == old(Consumed()) + taken
      ensures Loaded(littleEndian, cache[fillOffset / 4], stream, old(Consumed()), taken)
      ensures if toCache == 0 then taken < 4 && AtEnd() && old(NextPadding()) == 0
              else toCache == 4 - taken <= fragmentRemaining
                   && old(NextPadding()) == Padding(fragments, fragmentIndex, fragmentRemaining, toCache)
    {
      hide Loaded, Scattered, Padding;
      var w := fillOffset / 4;
      taken := 0;
      toCache := 4;
      while true
        invariant Sourced() && 0 <= taken < 4 && toCache == 4 - taken
        invariant cache[1 - w] == old(cache)[1 - w]
        invariant Consumed() == old(Consumed()) + taken
        invariant Loaded(littleEndian, cache[w], stream, old(Consumed()), taken)
        invariant old(NextPadding()) == Padding(fragments, fragmentIndex, fragmentRemaining, toCache)
        decreases toCache
      {
        var more := SkipEmptyFragments(toCache);
        if !more {
          NoPaddingAtEnd(fragments, stream, fragmentIndex, toCache);
          toCache := 0;
          break;
        }
        if fragmentRemaining >= toCache { break; }
        ReadByte(w, taken, old(Consumed()), toCache);
        taken := taken + 1;
        toCache := toCache - 1;
      }
    }

    /**
      The second loop of fill_forward, which runs at most once: an aligned word in one load,
      or the bytes up to the next word boundary, or all that is still wanted.
     */
    method ReadToBoundary(fillOffset: nat, had: nat, ghost at: nat) returns (taken: nat, shift: nat)
      requires Sourced() && (fillOffset == 0 || fillOffset == 4)
      requires had < 4 && 4 - had <= fragmentRemaining && Consumed() == at + had
      requires Loaded(littleEndian, cache[fillOffset / 4], stream, at, had)
      modifies `cache, `cacheOffset, `fragmentPointer, `fragmentRemaining
      ensures Sourced() && cache[1 - fillOffset / 4] == old(cache)[1 - fillOffset / 4]
      ensures shift == 8 * old(Padding(fragments, fragmentIndex, fragmentRemaining, 4 - had))
      ensures taken == 4 - shift / 8 && Consumed() == at + taken
      ensures Loaded(littleEndian, cache[fillOffset / 4], stream, at, taken)
      ensures cacheOffset == old(cacheOffset) + shift
    {
      hide Loaded, Scattered, Padding, LoadWord;
      var w := fillOffset / 4;
      var f := fragments[fragmentIndex];
      var toCache := 4 - had;
      PaddingHere(fragments, fragmentIndex, fragmentRemaining, toCache);
      taken, shift := had, 0;
      var align := 4 - fragmentPointer % 4;
      if align == 4 && toCache == 4 {
        var here := fragmentPointer - f.data;
        FragmentSlice(fragments, stream, fragmentIndex, here, 4);
        cache := cache[w := LoadWord(littleEndian, f.bytes[here..here + 4])];
        LoadedWord(littleEndian, stream, at);
        fragmentPointer := fragmentPointer + 4;
        fragmentRemaining := fragmentRemaining - 4;
        taken := 4;
      } else {
        var toRead := toCache;
        if align != 4 && align < toCache {
          toRead := align;
          shift := 8 * (toCache - align);
          cacheOffset := cacheOffset + shift;
        }
        for n := 0 to toRead
          invariant Sourced() && cache[1 - w] == old(cache)[1 - w]
          invariant taken == had + n && Consumed() == at + taken
          invariant fragmentRemaining == old(fragmentRemaining) - n
          invariant cacheOffset == old(cacheOffset) + shift
          invariant fragmentPointer == old(fragmentPointer) + n
          invariant Loaded(littleEndian, cache[w], stream, at, taken)
        {
          ReadByte(w, taken, at, 1);
          taken := taken + 1;
        }
      }
    }

    /** The end of fill_forward: byte order, then the shift that makes room for the padding. */
    method SwapAndShift(fillOffset: nat, shift: nat, ghost at: nat, ghost taken: nat)
      requires |cache| == 2 && (fillOffset == 0 || fillOffset == 4)
      requires shift % 8 == 0 && shift <= 24 && taken + shift / 8 <= 4
      requires Loaded(littleEndian, cache[fillOffset / 4], stream, at, taken)
      modifies `cache
      ensures |cache| == 2
      ensures fillOffset == 0 ==> FirstWordFilled(cache, stream, at, shift / 8, taken)
      ensures fillOffset == 4 ==> SecondWordFilled(cache, old(cache)[0], stream, at, shift / 8, taken)
    {
      hide SwapInt32, Shl, Shr, Or, ByteAt;
      var hi, low := cache[0], cache[1];
      if fillOffset == 0 {
        hi := SwapInt32(littleEndian, hi);
      }
      low := SwapInt32(littleEndian, low);
      if shift > 0 {
        ghost var w := low;
        var v := hi;
        hi := Shr(hi, shift);
        low := Shr(low, shift);
        low := Or(low, Shl(v, 32 - shift));
        WindowShifted(v, w, shift, hi, low);
      }
      cache := [hi, low];
    }

    /**
      Refills one cache word. It takes n stream bytes, puts k bytes of padding in front of the
      window, and reports the 8 * (n + k) bits it filled; fewer than 32 only at the end of data.
     */
    method FillForward(fillOffset: nat) returns (count: nat)
      requires Sourced() && (fillOffset == 0 || fillOffset == 4)
      modifies `cache, `cacheOffset, `fragmentPointer, `fragmentRemaining, `fragmentIndex
      ensures Sourced() && old(Consumed()) <= Consumed()
      ensures cacheOffset == old(cacheOffset) + 8 * old(NextPadding())
      ensures count == 8 * (Consumed() - old(Consumed()) + old(NextPadding()))
      ensures count == 32 || (count < 32 && AtEnd() && old(NextPadding()) == 0)
      ensures fillOffset == 0 ==>
                FirstWordFilled(cache, stream, old(Consumed()), old(NextPadding()), Consumed() - old(Consumed()))
      ensures fillOffset == 4 ==>
                SecondWordFilled(cache, old(cache)[0], stream, old(Consumed()), old(NextPadding()), Consumed() - old(Consumed()))
    {
      hide Loaded, FirstWordFilled, SecondWordFilled, Scattered, Padding;
      cache := cache[fillOffset / 4 := ZERO];
      LoadedEmpty(littleEndian, stream, Consumed());
      var taken, toCache := DrainShortFragments(fillOffset);
      var shift := 0;
      if toCache > 0 {
        taken, shift := ReadToBoundary(fillOffset, taken, old(Consumed()));
      }
      SwapAndShift(fillOffset, shift, old(Consumed()), taken);
      var cacheByte := fillOffset + taken + shift / 8;
      return 8 * (cacheByte - fillOffset);
    }

    /** Slides the window on by one word. */
    method NextWord()
      requires Windowed() && cacheOffset >= 32
      modifies this
      ensures Windowed() && View() == Slid(fragments, stream, old(View()))
    {
      hide Scattered, Padding, PaddingAt, Showing, Covered;
      PaddingFromLayout();
      ViewIsShown();
      if fragmentRemaining >= 4 && fragmentPointer % 4 == 0 {
        SlideAligned();
      } else if cacheSize == 64 {
        SlideRefilled();
      } else {
        SlideShort();
      }
    }

    /** ... by an aligned read of the next one, */
    method SlideAligned()
      requires Windowed() && cacheOffset >= 32 && fragmentRemaining >= 4 && fragmentPointer % 4 == 0
      modifies this
      ensures Windowed() && Base() == old(Base()) + 4 && old(NextPadding()) == 0
      ensures cacheOffset == old(cacheOffset) - 32 && Seen() == Covered(stream, old(Seen()), Base(), 0)
    {
      hide Scattered, Padding, Showing, SecondWordFilled, Covered;
      MoreToConsume();
      ghost var was, base := cache, Base();
      PaddingHere(fragments, fragmentIndex, fragmentRemaining, 4);
      cache, cacheOffset := cache[0 := cache[1]], cacheOffset - 32;
      ReadWord(was[1]);
      ShowingSlides(was, stream, base, cache, 0, 4);
    }

    lemma MoreToConsume()
      requires Windowed()
      ensures fragmentRemaining > 0 ==> cacheSize == 64
    {
      FragmentInStream(fragments, stream, fragmentIndex);
    }

    /** ... by a refill while there may be more data, */
    method SlideRefilled()
      requires Windowed() && cacheOffset >= 32 && cacheSize == 64
      modifies this
      ensures Windowed() && Base() == old(Base()) + 4 - old(NextPadding())
      ensures cacheOffset == old(cacheOffset) - 32 + 8 * old(NextPadding())
      ensures Seen() == Covered(stream, old(Seen()), Base(), old(NextPadding()))
    {
      hide Scattered, Padding, Showing, SecondWordFilled, Covered;
      ghost var was, base, k := cache, Base(), NextPadding();
      cache, cacheOffset := cache[0 := cache[1]], cacheOffset - 32;
      var readCount := FillForward(4);
      cacheSize := 32 + readCount;
      ShowingSlides(was, stream, base, cache, k, Consumed() - old(Consumed()));
    }

    /** ... or not at all: at the end of the data the window runs short. */
    method SlideShort()
      requires Windowed() && cacheOffset >= 32 && cacheSize < 64
      modifies this
      ensures Windowed() && Base() == Min(old(Base()) + 4, |stream|) && old(NextPadding()) == 0
      ensures cacheOffset == old(cacheOffset) - 32 && Seen() == Covered(stream, old(Seen()), Base(), 0)
    {
      hide Scattered, Padding, Showing, Covered;
      NoPaddingWhenExhausted();
      ghost var was, base := cache, Base();
      cache, cacheOffset := cache[0 := cache[1]], cacheOffset - 32;
      cacheSize := if cacheSize > 32 then cacheSize - 32 else 0;
      ShowingDrains(was, stream, base, cache);
    }

    /** The aligned read of next_word. */
    method ReadWord(ghost first: Word)
      requires Sourced() && fragmentRemaining >= 4 && cache[0] == first
      modifies `cache, `fragmentPointer, `fragmentRemaining
      ensures Sourced() && Consumed() == old(Consumed()) + 4
      ensures SecondWordFilled(cache, first, stream, old(Consumed()), 0, 4)
    {
      hide SwapInt32, LoadWord, Scattered, ByteAt;
      var f := fragments[fragmentIndex];
      var here := fragmentPointer - f.data;
      FragmentSlice(fragments, stream, fragmentIndex, here, 4);
      LoadedWord(littleEndian, stream, Consumed());
      cache := cache[1 := LoadWord(littleEndian, f.bytes[here..here + 4])];
      fragmentPointer := fragmentPointer + 4;
      fragmentRemaining := fragmentRemaining - 4;
      cache := cache[1 := SwapInt32(littleEndian, cache[1])];
    }

    // ---- sources -------------------------------------------------------------------

    /** SetSource over one buffer. */
    constructor SetSource(littleEndian: bool, data: nat, bytes: seq<Byte>)
      ensures stream == bytes && fragments == [Fragment(data, bytes, 0)]
      ensures Windowed() && View() == Fresh(fragments, stream, 0) && cacheOffset <= 24
    {
      this.littleEndian, this.fragments, this.stream := littleEndian, [Fragment(data, bytes, 0)], bytes;
      cache, cacheOffset, cacheSize := [ZERO, ZERO], 0, 0;
      fragmentIndex, fragmentPointer, fragmentRemaining := 0, data, |bytes|;
      new;
      FillWindow();
    }

    /** SetSource over a chain of buffers: one fragment for each, with the running offset. */
    constructor SetSourceChain(littleEndian: bool, sourceBuffer: Buffer, ghost nodes: seq<Buffer>)
      requires Chain(sourceBuffer, nodes)
      ensures stream == Flatten(Blocks(nodes)) && |fragments| == |nodes| && fragments == Table(Blocks(nodes))
      ensures Windowed() && View() == Fresh(fragments, stream, 0) && cacheOffset <= 24
    {
      hide Scattered, Flatten, Table, Fresh;
      var fs := FragmentTable(sourceBuffer, nodes);
      StartOfTable(fs, Flatten(Blocks(nodes)));
      this.littleEndian, this.fragments, this.stream := littleEndian, fs, Flatten(Blocks(nodes));
      cache, cacheOffset, cacheSize := [ZERO, ZERO], 0, 0;
      fragmentIndex, fragmentPointer, fragmentRemaining := 0, fs[0].data, |fs[0].bytes|;
      new;
      FillWindow();
    }

    // ---- reading and skipping ------------------------------------------------------

    /** The bits that the window shows at the cursor, as long as the offset is below 32. */
    function PeekBits(bits: nat): (result: Word)
      requires Sourced() && cacheOffset < 32
      requires 1 <= bits <= 32 && cacheOffset + bits <= cacheSize
      reads this
      ensures Windowed() && 0 <= Position() ==>
                Position() + bits <= 8 * |stream| && result == BitsAt(Seen(), Position(), bits)
    {
      assert Windowed() && 0 <= Position() ==>
               Position() + bits <= 8 * |stream| && Extract(cache[0], cache[1], cacheOffset, bits) == BitsAt(Seen(), Position(), bits)
      by {
        if Windowed() && 0 <= Position() {
          ExtractedBits(bits);
        }
      }
      Extract(cache[0], cache[1], cacheOffset, bits)
    }

    lemma ExtractedBits(bits: nat)
      requires Windowed() && 0 <= Position() && cacheOffset < 32
      requires 1 <= bits <= 32 && cacheOffset + bits <= cacheSize
      ensures Position() + bits <= 8 * |stream|
      ensures Extract(cache[0], cache[1], cacheOffset, bits) == BitsAt(Seen(), Position(), bits)
    {
      hide Scattered, Extract, Window, BitsOf, Showing;
      ExtractIsSlice(cache[0], cache[1], cacheOffset, bits);
      ShownBits(cache, stream, Base(), Consumed(), cacheOffset, bits);
    }

    /** The check after every advance of the offset: slide when the first word is used up. */
    method SlideWhenUsedUp()
      requires Windowed()
      modifies this
      ensures Windowed() && View() == SlidOnce(fragments, stream, old(View()))
    {
      hide Scattered, Slid, Showing;
      if cacheOffset >= 32 {
        NextWord();
      }
    }

    /** How the reading and skipping operations end. */
    method Advance(bits: nat)
      requires Windowed() && 0 <= Position()
      modifies this
      ensures Windowed() && View() == Advanced(fragments, stream, old(View()), bits)
      ensures old(Position()) + bits <= 8 * |stream| ==> Position() == old(Position()) + bits
      ensures old(Position()) + bits > 8 * |stream| ==> Position() >= 8 * |stream| && BitsAvailable() == 0
      ensures Sees(stream, old(View())) ==> Sees(stream, View())
      ensures cacheOffset % 8 == (old(cacheOffset) + bits) % 8
      ensures old(cacheOffset) < 32 && bits <= 8 ==> cacheOffset < 32
    {
      hide Slid, Showing, Sees;
      ghost var v := View();
      ViewIsShown();
      AdvancedWell(fragments, stream, v, bits);
      cacheOffset := cacheOffset + bits;
      assert View() == v.(offset := v.offset + bits);
      SlideWhenUsedUp();
      ViewIsShown();
    }

    /** The bits shown at the cursor; those of the stream, for every fragmentation, unless the cursor is in padding. */
    method GetBits(bits: nat) returns (result: Word)
      requires Windowed() && 0 <= Position() && cacheOffset < 32
      requires 1 <= bits <= 32 && cacheOffset + bits <= cacheSize
      modifies this
      ensures Windowed() && View() == Advanced(fragments, stream, old(View()), bits)
      ensures old(Position()) + bits <= 8 * |stream| && Position() == old(Position()) + bits
      ensures result == BitsAt(old(Seen()), old(Position()), bits)
      ensures Sees(stream, old(View())) ==> result == BitsAt(stream, old(Position()), bits) && Sees(stream, View())
      // The next read is defined if and only if the padding leaves the offset inside the first word.
      ensures cacheOffset < 32 <==> old(cacheOffset) + bits < 32 || old(cacheOffset) + bits + 8 * old(NextPadding()) < 64
      ensures bits <= 8 ==> cacheOffset < 32
    {
      hide Scattered, Padding, PaddingAt, Showing, BitsAt, Extract, Covered;
      PaddingFromLayout();
      ViewIsShown();
      result := PeekBits(bits);
      if Sees(stream, View()) {
        BitsOfBytes(Seen(), stream, Position(), bits);
      }
      Advance(bits);
    }

    method SkipBit()
      requires Windowed() && 0 <= Position()
      modifies this
      ensures Windowed() && View() == Advanced(fragments, stream, old(View()), 1)
      ensures old(Position()) + 1 <= 8 * |stream| ==> Position() == old(Position()) + 1
      ensures old(Position()) + 1 > 8 * |stream| ==> Position() >= 8 * |stream| && BitsAvailable() == 0
      ensures old(cacheOffset) < 32 ==> cacheOffset < 32
    {
      Advance(1);
    }

    method SkipByte()
      requires Windowed() && 0 <= Position()
      modifies this
      ensures Windowed() && View() == Advanced(fragments, stream, old(View()), 8)
      ensures old(Position()) + 8 <= 8 * |stream| ==> Position() == old(Position()) + 8
      ensures old(Position()) + 8 > 8 * |stream| ==> Position() >= 8 * |stream| && BitsAvailable() == 0
      ensures old(cacheOffset) < 32 ==> cacheOffset < 32
    {
      Advance(8);
    }

    method SkipToByteBoundary() returns (ghost byte: int)
      requires Windowed() && 0 <= Position()
      modifies this
      ensures Windowed() && View() == Advanced(fragments, stream, old(View()), RoundUp(old(cacheOffset)) - old(cacheOffset))
      ensures Position() == 8 * byte
      ensures old(Position()) <= 8 * |stream| ==>
                && old(Position()) <= Position() <= 8 * |stream|
                && Position() == old(Position()) + (-old(Position())) % 8
                && forall b: int :: old(Position()) <= 8 * b <==> byte <= b
      ensures old(Position()) > 8 * |stream| ==> Position() >= 8 * |stream| && BitsAvailable() == 0
      ensures old(cacheOffset) < 32 ==> cacheOffset < 32
    {
      hide Showing, Advanced, Sees, RoundUp, Sourced;
      ghost var was := Position();
      RoundedUp(cacheOffset, Base(), |stream|);
      Advance(RoundUp(cacheOffset) - cacheOffset);
      byte := Position() / 8;
      NoByteBetween(was, byte);
    }

    /** Terminates for every count, fragmentation and alignment: padding gives back at most 24 of each 32 bits. */
    method SkipBits(bits: nat)
      requires Windowed() && 0 <= Position()
      modifies this
      ensures Windowed() && cacheOffset < 32
      ensures View() == SlidAll(fragments, stream, old(View()).(offset := old(cacheOffset) + bits))
      ensures old(Position()) + bits <= 8 * |stream| ==> Position() == old(Position()) + bits
      ensures old(Position()) + bits > 8 * |stream| ==> Position() >= 8 * |stream| && BitsAvailable() == 0
      ensures Sees(stream, old(View())) ==> Sees(stream, View())
    {
      hide Scattered, Showing, Slid, Sees;
      ghost var far := View().(offset := cacheOffset + bits);
      ViewIsShown();
      FarSees(bits);
      SlidAllWell(fragments, stream, far);
      cacheOffset := cacheOffset + bits;
      while cacheOffset >= 32
        invariant Windowed() && SlidAll(fragments, stream, View()) == SlidAll(fragments, stream, far)
        decreases cacheOffset
      {
        ViewIsShown();
        SlidPosition(fragments, stream, View());
        NextWord();
      }
      ViewIsShown();
    }

    lemma FarSees(bits: nat)
      requires Windowed()
      ensures Sees(stream, View()) ==> Sees(stream, View().(offset := cacheOffset + bits))
    {
    }

    function BitsAvailable(): (bits: nat)
      requires Windowed()
      reads this
      ensures bits <= BitsLeft()
      ensures cacheOffset < 32 ==> bits == BitsLeft() || bits > 32
      ensures bits == if Position() >= 8 * Consumed() then 0 else 8 * Consumed() - Position()
    {
      if cacheOffset > cacheSize then 0 else cacheSize - cacheOffset
    }

    // ---- seeking -------------------------------------------------------------------

    /** The first of the two refills that start a window. */
    method FillFirstWord() returns (count: nat)
      requires Sourced()
      modifies `cache, `cacheOffset, `fragmentPointer, `fragmentRemaining, `fragmentIndex
      ensures Sourced() && old(Consumed()) <= Consumed()
      ensures cacheOffset == 8 * old(NextPadding())
      ensures count == 8 * (Consumed() - old(Consumed()) + old(NextPadding()))
      ensures count == 32 || (count < 32 && AtEnd() && NextPadding() == 0)
      ensures FirstWordFilled(cache, stream, old(Consumed()), old(NextPadding()), Consumed() - old(Consumed()))
    {
      hide Scattered, Padding, WindowByte, FirstWordFilled, SecondWordFilled;
      cacheOffset := 0;
      count := FillForward(0);
      if Consumed() == |stream| {
        NoPaddingWhenExhausted();
      }
    }

    /** After the first refill of a seek to `at`, which padded by k. */
    lemma SeekPaddingSoFar(at: nat, k: nat)
      requires Sourced() && k == PaddingAt(fragments, at)
      requires Consumed() == at + 4 - k || (Consumed() == |stream| && |stream| <= at + 4 - k)
      ensures SeekPadding(fragments, at) == k + NextPadding()
    {
      hide Scattered, Padding, PaddingAt, SeekPadding;
      PaddingFromLayout();
      TwoPaddings(fragments, stream, at, Consumed());
    }

    /** The two refills that start a window. */
    method FillWindow()
      requires Sourced()
      modifies this
      ensures Windowed() && View() == Fresh(fragments, stream, old(Consumed())) && cacheOffset <= 24
      ensures cacheSize < 64 ==> AtEnd()
    {
      hide Scattered, Padding, PaddingAt, SeekPadding;
      hide WindowByte, FirstWordFilled, SecondWordFilled, Showing, Zeroed;
      ghost var at, k := Consumed(), NextPadding();
      PaddingFromLayout();
      var first := FillFirstWord();
      ghost var c, at', k' := cache, Consumed(), NextPadding();
      SeekPaddingSoFar(at, k);
      SeekPaddingBound(fragments, stream, at);
      var second := FillForward(4);
      ShowingStarts(c, cache, stream, at, k, at' - at, k', Consumed() - at');
      cacheSize := first + second;
    }

    /** The seek proper, once the fragment is found. */
    method SeekInFragment(findex: nat, pos: nat)
      requires Sourced() && findex < |fragments|
      requires fragments[findex].offset <= pos <= End(fragments[findex])
      modifies this
      ensures pos <= |stream| && Windowed() && View() == Fresh(fragments, stream, pos) && cacheOffset <= 24
      ensures cacheSize < 64 ==> AtEnd()
    {
      hide Fresh, Showing;
      var f := fragments[findex];
      FragmentInStream(fragments, stream, findex);
      fragmentIndex, fragmentPointer, fragmentRemaining := findex, f.data + (pos - f.offset), End(f) - pos;
      FillWindow();
    }

    method SetBytePosition(pos: nat) returns (status: Status)
      requires Sourced()
      modifies this
      ensures status == Ok <==> pos <= |stream|
      ensures status != Ok ==> unchanged(this)
      ensures status == Ok ==> Windowed() && View() == Fresh(fragments, stream, pos) && cacheOffset <= 24
      ensures status == Ok ==> Position() == 8 * pos && Sees(stream, View()) && (cacheSize < 64 ==> AtEnd())
    {
      hide Showing;
      for findex := 0 to |fragments|
        invariant findex > 0 ==> End(fragments[findex - 1]) < pos
        invariant Sourced() && unchanged(this)
      {
        var f := fragments[findex];
        var end := f.offset + |f.bytes|;
        if f.offset <= pos && end >= pos {
          SeekInFragment(findex, pos);
          ViewIsShown();
          return Ok;
        }
      }
      return OutOfRange;
    }

    /** Succeeds exactly for the positions of the stream, its end included. */
    method SetBitPosition(pos: nat) returns (status: Status)
      requires Sourced()
      modifies this
      ensures status == Ok <==> pos <= 8 * |stream|
      ensures status == Ok ==> Windowed() && Position() == pos && cacheOffset < 32 && Sees(stream, View())
      ensures status == Ok ==>
                var start := Fresh(fragments, stream, pos / 8);
                View() == SlidAll(fragments, stream, start.(offset := start.offset + pos % 8))
      // A failed seek stays where it was or, when only the bit is out of range, ends up at the end.
      ensures status != Ok && pos / 8 > |stream| ==> unchanged(this)
      ensures status != Ok && pos / 8 <= |stream| ==>
                Windowed() && View() == Fresh(fragments, stream, |stream|) && cacheOffset <= 24
    {
      hide Scattered, Showing, SlidAll, Fresh, Sees;
      status := SetBytePosition(pos / 8);
      if status != Ok {
        return;
      }
      ViewIsShown();
      if BitsAvailable() < pos % 8 {
        return OutOfRange;
      }
      SkipBits(pos % 8);
    }

    function BitPosition(): (pos: nat)
      requires Windowed()
      reads this
      ensures pos == Wrap(Position())
    {
      var f := fragments[fragmentIndex];
      WrappedDifference(8 * (f.offset + (|f.bytes| - fragmentRemaining)), cacheSize - cacheOffset);
      Wrap(Wrap(8 * (f.offset + (|f.bytes| - fragmentRemaining))) - Wrap(cacheSize - cacheOffset))
    }

    /**
      BitPosition() rounded up to a byte, if and only if the cursor is inside the cached data:
      past the end the unsigned difference is divided by eight after it has wrapped around.
     */
    function BytePosition(): (pos: nat)
      requires Windowed() && Consumed() < SIZE_T && cacheOffset < SIZE_T
      reads this
      ensures pos == Wrap((Position() + 7) / 8 - if InRange() then 0 else SIZE_T / 8)
    {
      var f := fragments[fragmentIndex];
      Wrap(f.offset + (|f.bytes| - fragmentRemaining) - Wrap(cacheSize - cacheOffset) / 8)
    }

    function ByteLength(): (length: nat)
      requires Sourced()
      reads this
      ensures length == |stream|
    {
      var f := fragments[|fragments| - 1];
      f.offset + |f.bytes|
    }

    // ---- rewinding -----------------------------------------------------------------

    /** A place in the fragments and the stream byte it stands for; it may be in front of an empty fragment. */
    ghost predicate CursorAt(findex: nat, fptr: int, at: int) {
      && findex < |fragments| && Place(fragments, findex, fptr - fragments[findex].data)
      && at == StreamAt(fragments, findex, fptr - fragments[findex].data)
    }

    /** The fragment that a walk back from the window starts in. */
    ghost function Resting(): (j: nat)
      requires Windowed() && Base() > 0
      reads this
      ensures StartsAt(fragments, j, Base()) && (cacheSize > 0 ==> Lands(fragments, j, Base()))
    {
      if cacheSize == 0 then fragmentIndex
      else
        LandsSomewhere(fragments, stream, Base(), |fragments| - 1);
        Landing(fragments, Base())
    }

    /** The first loop of fill_reverse: from the end of the cached data to its start. */
    method RewindCursor() returns (findex: nat, fptr: int, dataLeft: int)
      requires Windowed() && Base() > 0
      ensures findex == Resting() && fptr == fragments[findex].data + dataLeft
      ensures dataLeft == Base() - fragments[findex].offset
    {
      fptr, findex := fragmentPointer, fragmentIndex;
      var cachedBytes := cacheSize / 8;
      var toRewind: nat := cachedBytes;
      dataLeft := fragmentPointer - fragments[fragmentIndex].data;
      while toRewind > 0
        invariant findex < |fragments| && fptr == fragments[findex].data + dataLeft && 0 <= dataLeft <= |fragments[findex].bytes|
        invariant fragments[findex].offset + dataLeft == Base() + toRewind
        invariant cachedBytes == 0 ==> findex == fragmentIndex
        invariant toRewind == 0 && cachedBytes > 0 ==>
                    dataLeft == |fragments[findex].bytes| && findex + 1 < |fragments| && fragments[findex + 1].bytes != []
        decreases findex, toRewind
      {
        if toRewind >= dataLeft {
          toRewind := toRewind - dataLeft;
          assert findex > 0;
          findex := findex - 1;
          dataLeft := |fragments[findex].bytes|;
          fptr := fragments[findex].data + dataLeft;
        } else {
          fptr := fptr - toRewind;
          dataLeft := dataLeft - toRewind;
          assert Lands(fragments, findex, Base());
          toRewind := 0;
          break;
        }
      }
      if cachedBytes > 0 {
        LandsOnce(fragments, stream, findex, Resting(), Base());
      }
    }

    /**
      One byte back, into the previous fragment if need be; `more` is false at the very start. The
      step does not ask whether that fragment has a byte: it stands in front of an empty one then.
     */
    method StepBack(findex0: nat, fptr0: int, dataLeft0: int)
      returns (more: bool, findex: nat, fptr: int, dataLeft: int)
      requires findex0 < |fragments| && Place(fragments, findex0, dataLeft0) && fptr0 == fragments[findex0].data + dataLeft0
      ensures more <==> dataLeft0 > 0 || findex0 > 0
      ensures more ==> (findex, dataLeft) == Back1(fragments, findex0, dataLeft0) && fptr == fragments[findex].data + dataLeft
      ensures more ==> (dataLeft < 0 <==> dataLeft0 <= 0 && fragments[findex0 - 1].bytes == [])
      ensures !more ==> findex == findex0 && fptr == fptr0
    {
      findex, fptr, dataLeft := findex0, fptr0 - 1, dataLeft0 - 1;
      if dataLeft < 0 {
        if findex == 0 {
          return false, findex, fptr + 1, dataLeft;
        }
        findex := findex - 1;
        dataLeft := |fragments[findex].bytes| - 1;
        fptr := fragments[findex].data + dataLeft;
      }
      return true, findex, fptr, dataLeft;
    }

    /**
      The second loop of fill_reverse: up to four bytes before a place, the last one first, wherever
      they are in memory. It stops with `stray` before it reads an address that is in no fragment.
     */
    method ReadBackwards(findex0: nat, fptr0: int, dataLeft0: int)
      returns (stray: bool, w: Word, toRead: nat, findex: nat, fptr: int)
      requires Sourced() && findex0 < |fragments| && Place(fragments, findex0, dataLeft0)
      requires fptr0 == fragments[findex0].data + dataLeft0
      ensures var t := Walk(fragments, findex0, dataLeft0, 4);
              && stray == t.stray
              && (!stray ==>
                    && LoadedTail(littleEndian, w, t.bytes) && toRead == 4 - |t.bytes|
                    && findex == t.index && fptr == fragments[findex].data + t.left)
    {
      hide StoreByte, LoadedTail, Scattered, Walk;
      w, toRead, findex, fptr := ZERO, 4, findex0, fptr0;
      var dataLeft, more := dataLeft0, true;
      ghost var read: seq<Byte> := [];
      NothingLoaded();
      while toRead > 0
        invariant toRead <= 4 && |read| == 4 - toRead && LoadedTail(littleEndian, w, read)
        invariant findex < |fragments| && Place(fragments, findex, dataLeft) && fptr == fragments[findex].data + dataLeft
        invariant var t, rest := Walk(fragments, findex0, dataLeft0, 4), Walk(fragments, findex, dataLeft, toRead);
                  t.stray == rest.stray && (!t.stray ==> t == rest.(bytes := rest.bytes + read))
        decreases toRead
      {
        ghost var j, d := findex, dataLeft;
        more, findex, fptr, dataLeft := StepBack(findex, fptr, dataLeft);
        if !more {
          WalkStops(fragments, j, d, toRead);
          break;
        }
        WalkStep(fragments, stream, j, d, toRead);
        var b := ByteBack(fragments, findex, dataLeft);
        if b == None {
          return true, w, toRead, findex, fptr;
        }
        LoadedTailStep(littleEndian, w, read, b.value);
        w := StoreByte(littleEndian, w, toRead - 1, b.value);
        ghost var rest := Walk(fragments, findex, dataLeft, toRead - 1).bytes;
        assert rest + [b.value] + read == rest + ([b.value] + read);
        read := [b.value] + read;
        toRead := toRead - 1;
      }
      if toRead == 0 {
        WalkStops(fragments, findex, dataLeft, 0);
      }
      assert [] + read == read;
      return false, w, toRead, findex, fptr;
    }

    lemma NothingLoaded()
      ensures LoadedTail(littleEndian, ZERO, [])
    {
    }

    /** The last loop of fill_reverse: past the cached data again, unless the fragments end before that. */
    method AdvanceCursor(findex0: nat, fptr0: int, cachedBytes: nat, ghost at: int)
      returns (lost: bool, findex: nat, fptr: int, fremaining: int)
      requires Sourced() && CursorAt(findex0, fptr0, at) && cachedBytes > 0
      ensures lost <==> at + cachedBytes > |stream|
      ensures !lost ==>
                && findex < |fragments| && 0 <= fptr - fragments[findex].data <= |fragments[findex].bytes|
                && fragments[findex].offset + fptr - fragments[findex].data == at + cachedBytes
                && fremaining == |fragments[findex].bytes| - (fptr - fragments[findex].data)
    {
      findex, fptr := findex0, fptr0;
      var toAdvance: nat := cachedBytes;
      fremaining := |fragments[findex].bytes| - (fptr - fragments[findex].data);
      while toAdvance > 0
        invariant CursorAt(findex, fptr, at + cachedBytes - toAdvance)
        invariant fremaining == |fragments[findex].bytes| - (fptr - fragments[findex].data)
        invariant toAdvance > 0
        decreases |fragments| - findex
      {
        FragmentInStream(fragments, stream, findex);
        if toAdvance > fremaining {
          if findex + 1 == |fragments| {
            return true, findex, fptr, fremaining;
          }
          toAdvance := toAdvance - fremaining;
          findex := findex + 1;
          fremaining := |fragments[findex].bytes|;
          fptr := fragments[findex].data;
        } else {
          fptr := fptr + toAdvance;
          fremaining := fremaining - toAdvance;
          return false, findex, fptr, fremaining;
        }
      }
    }

    /** Puts the word that the walk back reads in front of the first one; called with cache[1] already moved. */
    method FillReverse() returns (fate: Fate)
      requires Windowed() && Base() > 0
      modifies `cache, `cacheSize, `fragmentPointer, `fragmentIndex, `fragmentRemaining
      ensures var t := WordBack(fragments, old(Resting()), old(Base()));
              && (fate == Stray <==> t.stray)
              && (!t.stray ==>
                    var base := old(Base()) - 4 + Missed(fragments, old(Resting()), old(Base()));
                    && (fate == Lost <==> base + Regrown(old(cacheSize) / 8) > |stream|)
                    && (fate == Back ==>
                          && Windowed() && cache[1] == old(cache)[1] && Base() == base
                          && cacheSize == 8 * Regrown(old(cacheSize) / 8)
                          && exists w :: cache[0] == SwapInt32(littleEndian, w) && LoadedTail(littleEndian, w, t.bytes)))
    {
      hide SwapInt32, LoadedTail, Scattered, Walk;
      ghost var at := Base();
      var findex, fptr, dataLeft := RewindCursor();
      ghost var j := findex;
      var stray, w, toRead;
      stray, w, toRead, findex, fptr := ReadBackwards(findex, fptr, dataLeft);
      if stray {
        return Stray;
      }
      SlipBounds(fragments, stream, j, dataLeft, 4);
      WalkStart(fragments, stream, j, at);
      var size := if cacheSize < 32 then cacheSize + 32 else 64;
      var cachedBytes := size / 8 - toRead;
      var lost, fremaining;
      lost, findex, fptr, fremaining :=
        AdvanceCursor(findex, fptr, cachedBytes, StreamAt(fragments, findex, fptr - fragments[findex].data));
      if lost {
        return Lost;
      }
      cache, cacheSize, fragmentPointer, fragmentIndex, fragmentRemaining :=
        cache[0 := SwapInt32(littleEndian, w)], size, fptr, findex, fremaining;
      return Back;
    }

    /** Moves the window back by the word that the walk reads. */
    method SlideBack() returns (fate: Fate)
      requires Windowed() && Base() > 0
      modifies `cache, `cacheSize, `fragmentPointer, `fragmentIndex, `fragmentRemaining
      ensures fate == RewindFate(fragments, stream, old(View()).(offset := 0), 1, old(Resting()))
      ensures fate == Back ==>
                && Windowed() && Base() == old(Base()) - 4 + Missed(fragments, old(Resting()), old(Base()))
                && Seen() == Prefixed(stream, old(View()), Base(), WordBack(fragments, old(Resting()), old(Base())).bytes)
    {
      hide SwapInt32, LoadedTail, Scattered, Showing, Walk, Prefixed;
      ghost var c, v, j := cache, View(), Resting();
      ViewIsShown();
      cache := cache[1 := cache[0]];
      fate := FillReverse();
      if fate == Back {
        ghost var t := WordBack(fragments, j, v.base);
        ghost var w :| cache[0] == SwapInt32(littleEndian, w) && LoadedTail(littleEndian, w, t.bytes);
        WalkStart(fragments, stream, j, v.base);
        ViewIsShown();
        ShowingBack(littleEndian, c, stream, v, cache, w, Base(), t.bytes);
      }
    }

    /**
      Undoes reading or skipping `bits` bits. Inside the window that is all; otherwise the word that the
      walk back reads comes in front, right or wrong, unless the walk strays or the cursor is lost.
     */
    method RewindBits(bits: nat) returns (fate: Fate)
      requires Windowed() && 1 <= bits <= 32 && bits <= Position()
      modifies this
      ensures old(cacheOffset) < bits ==> old(Base()) > 0
      ensures var j := if old(cacheOffset) < bits then old(Resting()) else 0;
              && fate == RewindFate(fragments, stream, old(View()), bits, j)
              && (fate == Back ==>
                    && Windowed() && View() == Rewound(fragments, stream, old(View()), bits, j)
                    && 0 <= Position() && (old(cacheOffset) < 32 ==> cacheOffset < 32)
                    // The position is right exactly if the walk kept its place.
                    && Position() == old(Position()) - bits
                                     + (if old(cacheOffset) < bits then 8 * Missed(fragments, j, old(Base())) else 0))
    {
      hide Scattered, Showing, Walk;
      ViewIsShown();
      if cacheOffset >= bits {
        cacheOffset := cacheOffset - bits;
        return Back;
      }
      fate := RewindWord(bits);
    }

    /** ... with a refill. */
    method RewindWord(bits: nat) returns (fate: Fate)
      requires Windowed() && 1 <= bits <= 32 && cacheOffset < bits <= Position() && Base() > 0
      modifies this
      ensures var v, j := old(View()), old(Resting());
              && fate == RewindFate(fragments, stream, v, bits, j)
              && (fate == Back ==>
                    && Windowed() && View() == Rewound(fragments, stream, v, bits, j) && 0 <= Position() && cacheOffset < 32
                    && Position() == old(Position()) - bits + 8 * Missed(fragments, j, v.base))
    {
      hide Scattered, Showing, Walk, Prefixed;
      ViewIsShown();
      ghost var v, j := View(), Resting();
      fate := SlideBack();
      if fate == Back {
        RewoundPosition(fragments, stream, v, bits, j);
        cacheOffset := cacheOffset + (32 - bits);
        ViewIsShown();
      }
    }

    // ---- searching -----------------------------------------------------------------

    lemma EnoughIsCached(bits: nat)
      requires Windowed() && cacheOffset < 32 && bits <= 32 && Position() + bits <= 8 * |stream|
      ensures cacheOffset + bits <= cacheSize
    {
    }

    /** Stops at the first occurrence at or after the position, in the stream as the window shows it. */
    method Find(pattern: Word, bits: nat) returns (found: bool)
      requires Windowed() && 0 <= Position() && cacheOffset < 32 && 1 <= bits <= 32
      modifies this
      ensures Windowed() && cacheOffset < 32 && old(Position()) <= Position()
      ensures old(Position()) <= 8 * |stream| ==> Position() <= 8 * |stream|
      ensures forall q | old(Position()) <= q < Position() :: !Matches(old(Seen()), pattern, bits, q)
      ensures found ==> Matches(old(Seen()), pattern, bits, Position())
      ensures !found ==> forall q | old(Position()) <= q :: !Matches(old(Seen()), pattern, bits, q)
      // which is the stream itself unless the cursor is in padding
      ensures Sees(stream, old(View())) ==>
                forall q | old(Position()) <= q :: Matches(old(Seen()), pattern, bits, q) <==> Matches(stream, pattern, bits, q)
      // A failed search does not go back to where it began: it ends at the first place with too few bits left.
      ensures !found ==> Position() == if old(Position()) + bits > 8 * |stream| then old(Position()) else 8 * |stream| - bits + 1
    {
      hide Scattered, Showing, BitsAt, PeekBits, Advanced;
      ghost var seen := Seen();
      if Sees(stream, View()) {
        SameMatches(seen, stream, pattern, bits, Position());
      }
      while BitsAvailable() >= bits
        invariant Windowed() && cacheOffset < 32 && old(Position()) <= Position()
        invariant old(Position()) <= 8 * |stream| ==> Position() <= 8 * |stream|
        invariant Ahead(View(), seen) && (Position() == old(Position()) || Position() + bits <= 8 * |stream| + 1)
        invariant forall q | old(Position()) <= q < Position() :: !Matches(seen, pattern, bits, q)
        decreases 8 * |stream| - Position()
      {
        var v := PeekAhead(bits, seen);
        if v == pattern {
          return true;
        }
        StepAhead(1, seen);
        SkipBit();
      }
      NoMatchPastEnd(seen, pattern, bits, Position());
      return false;
    }

    /** A read within a search forwards. */
    method PeekAhead(bits: nat, ghost seen: seq<Byte>) returns (v: Word)
      requires Windowed() && 0 <= Position() && cacheOffset < 32 && 1 <= bits <= 32 && BitsAvailable() >= bits
      requires |seen| == |stream| && Ahead(View(), seen)
      ensures Position() + bits <= 8 * |stream| && v == BitsAt(seen, Position(), bits)
    {
      hide Scattered, Showing, BitsAt, PeekBits;
      v := PeekBits(bits);
      BitsOfBytes(Seen(), seen, Position(), bits);
    }

    lemma StepAhead(bits: nat, seen: seq<Byte>)
      requires Windowed() && 0 <= Position() && Position() + bits <= 8 * |stream| && |seen| == |stream| && Ahead(View(), seen)
      ensures Ahead(Advanced(fragments, stream, View(), bits), seen)
    {
      hide Scattered, Showing, Advanced;
      ViewIsShown();
      AdvancedAhead(fragments, stream, View(), bits);
    }

    /** The same over the starts of bytes only. */
    method FindByteAligned(pattern: Word, bits: nat) returns (found: bool, ghost at: int)
      requires Windowed() && 0 <= Position() && cacheOffset < 32 && 1 <= bits <= 32
      modifies this
      ensures Windowed() && cacheOffset < 32 && Position() == 8 * at
      ensures old(Position()) <= 8 * |stream| ==> old(Position()) <= Position() <= 8 * |stream|
      ensures forall b | old(Position()) <= 8 * b && b < at :: !MatchesByte(old(Seen()), pattern, bits, b)
      ensures found ==> old(Position()) <= Position() && MatchesByte(old(Seen()), pattern, bits, at)
      ensures !found ==> forall b | old(Position()) <= 8 * b :: !MatchesByte(old(Seen()), pattern, bits, b)
      // A failed search ends at the first start of a byte with too few bits left.
      ensures !found && old(Position()) <= 8 * |stream| ==>
                && 8 * at + bits > 8 * |stream|
                && (8 * at - 8 < old(Position()) || 8 * at - 8 + bits <= 8 * |stream|)
    {
      hide Scattered, Showing, MatchesByte, PeekBits, Advanced, RoundUp;
      ghost var seen, n := Seen(), RoundUp(cacheOffset) - cacheOffset;
      if Position() > 8 * |stream| {
        NoMatchPastEnd(seen, pattern, bits, Position());
      } else {
        RoundedUp(cacheOffset, Base(), |stream|);
        StepAhead(n, seen);
      }
      ghost var from := SkipToByteBoundary();
      found, at := SearchByBytes(pattern, bits, from, seen);
    }

    /** The loop of FindByteAligned, from the start of byte `from` to the start of byte `at`. */
    method SearchByBytes(pattern: Word, bits: nat, ghost from: int, ghost seen: seq<Byte>) returns (found: bool, ghost at: int)
      requires Windowed() && cacheOffset < 32 && 1 <= bits <= 32 && Position() == 8 * from >= 0 && |seen| == |stream|
      requires BitsAvailable() > 0 ==> Ahead(View(), seen)
      modifies this
      ensures Windowed() && cacheOffset < 32 && (old(Position()) <= 8 * |stream| ==> Position() <= 8 * |stream|)
      ensures old(BitsAvailable()) == 0 ==> !found
      ensures from <= at && Position() == 8 * at
      ensures forall b | from <= b < at :: !MatchesByte(seen, pattern, bits, b)
      ensures found ==> MatchesByte(seen, pattern, bits, at)
      ensures !found ==> forall b | from <= b :: !MatchesByte(seen, pattern, bits, b)
      ensures !found ==> 8 * at + bits > 8 * |stream| && (at == from || 8 * at - 8 + bits <= 8 * |stream|)
    {
      hide Scattered, Showing, BitsAt, PeekBits, Advanced, Ahead;
      at := from;
      while BitsAvailable() >= bits
        invariant Windowed() && cacheOffset < 32 && (old(Position()) <= 8 * |stream| ==> Position() <= 8 * |stream|)
        invariant at == from ==> BitsAvailable() == old(BitsAvailable())
        invariant old(BitsAvailable()) == 0 ==> at == from
        invariant BitsAvailable() > 0 ==> Ahead(View(), seen)
        invariant from <= at && Position() == 8 * at && (at == from || 8 * at - 8 + bits <= 8 * |stream|)
        invariant forall b | from <= b < at :: !MatchesByte(seen, pattern, bits, b)
        decreases 8 * |stream| - Position()
      {
        var v := PeekAhead(bits, seen);
        if v == pattern {
          return true, at;
        }
        StepAhead(8, seen);
        SkipByte();
        at := at + 1;
      }
      NoMatchPastEnd(seen, pattern, bits, 8 * at);
      return false, at;
    }

    /** Whole words lie between two bytes. */
    static ghost predicate WholeWords(base: int, b: int) {
      (base - b) % 4 == 0
    }

    static lemma OneWordBack(base: int, b: int)
      requires WholeWords(base, b)
      ensures WholeWords(base, b - 4) && forall c | b - 4 < c <= b && WholeWords(base, c) :: c == b
    {
    }

    /** A window start that a search back from `base` can come to, and from which the refill is not right. */
    ghost predicate Snag(first: nat, base: int, b: int) {
      0 < b <= base && WholeWords(base, b) && !SoundFrom(fragments, stream, first, b)
    }

    /** Until now the search back from `base` has met no snag, and sees what it saw. */
    ghost predicate Searching(seen: seq<Byte>, first: nat, base: int)
      reads this
    {
      && Windowed() && cacheOffset < 32 && 0 <= Position() && |seen| == |stream|
      && Base() <= base && WholeWords(base, Base()) && (Base() == |stream| ==> fragmentIndex == first)
      && (forall i | 0 <= i < Consumed() :: Seen()[i] == seen[i])
      && (forall b | Base() < b <= base && WholeWords(base, b) && b > 0 :: SoundFrom(fragments, stream, first, b))
    }

    /** RewindBits within a search; it is snagged if the refill is not right. */
    method SearchBack(bits: nat, ghost seen: seq<Byte>, ghost first: nat, ghost base: int, ghost before: bool)
      returns (fate: Fate, ghost snagged: bool)
      requires Windowed() && cacheOffset < 32 && 1 <= bits <= 32 && bits <= Position() <= 8 * |stream|
      requires !before ==> Searching(seen, first, base)
      modifies this
      ensures snagged ==> before || (old(cacheOffset) < bits && Snag(first, base, old(Base())))
      ensures before ==> snagged
      ensures !snagged ==> fate == Back && Searching(seen, first, base) && Position() == old(Position()) - bits
      ensures fate == Back ==> Windowed() && cacheOffset < 32 && 0 <= Position()
      ensures fate == Back ==> Base() < old(Base()) || (Base() == old(Base()) && cacheOffset == old(cacheOffset) - bits)
      ensures fate == Back ==> Position() == old(Position()) - bits || Position() + 32 <= 8 * |stream|
      ensures fate == Back ==> cacheOffset == old(cacheOffset) - bits || cacheOffset == old(cacheOffset) + 32 - bits
    {
      hide Scattered, Showing, SoundFrom;
      if cacheOffset < bits {
        fate, snagged := SearchRefill(bits, seen, first, base, before);
      } else {
        fate := RewindBits(bits);
        snagged := before;
      }
    }

    method SearchRefill(bits: nat, ghost seen: seq<Byte>, ghost first: nat, ghost base: int, ghost before: bool)
      returns (fate: Fate, ghost snagged: bool)
      requires Windowed() && cacheOffset < 32 && 1 <= bits <= 32 && cacheOffset < bits <= Position() <= 8 * |stream|
      requires !before ==> Searching(seen, first, base)
      modifies this
      ensures snagged ==> before || Snag(first, base, old(Base()))
      ensures before ==> snagged
      ensures !snagged ==> fate == Back && Searching(seen, first, base) && Position() == old(Position()) - bits
      ensures fate == Back ==> Windowed() && cacheOffset < 32 && 0 <= Position() && Base() < old(Base())
      ensures fate == Back ==> Position() == old(Position()) - bits || Position() + 32 <= 8 * |stream|
      ensures fate == Back ==> cacheOffset == old(cacheOffset) + 32 - bits
    {
      hide Scattered, Showing, Walk, Prefixed, Sound, SoundFrom, RewindFate, WholeWords;
      ViewIsShown();
      ghost var v, j := View(), Resting();
      RestingIsLayout(first);
      if !before {
        OneWordBack(base, v.base);
      }
      snagged := before || !Sound(fragments, stream, j, v.base);
      fate := RewindBits(bits);
      if fate == Back {
        RewoundPosition(fragments, stream, v, bits, j);
        ViewIsShown();
      }
      if !snagged {
        RewoundSees(fragments, stream, v, bits, j);
        SoundKeepsPlace(fragments, stream, j, v.base);
      }
    }

    lemma RestingIsLayout(first: nat)
      requires Windowed() && Base() > 0
      ensures Base() == |stream| ==> cacheSize == 0
      ensures Base() < |stream| ==> Resting() == Landing(fragments, Base())
      ensures Base() < |stream| || fragmentIndex == first ==>
                (SoundFrom(fragments, stream, first, Base()) <==> Sound(fragments, stream, Resting(), Base()))
    {
    }

    /** Whether a search looks at position q. */
    static predicate Counts(q: int, byBytes: bool) {
      byBytes ==> q % 8 == 0
    }

    /** A snag at b, and no occurrence from `start` back that the search would have found before it. */
    ghost predicate Blocked(seen: seq<Byte>, pattern: Word, bits: nat, first: nat, base: int, start: int, byBytes: bool, b: int) {
      Snag(first, base, b) && forall q | 8 * b <= q <= start && Counts(q, byBytes) :: !Matches(seen, pattern, bits, q)
    }

    ghost predicate Barred(seen: seq<Byte>, pattern: Word, bits: nat, first: nat, base: int, start: int, byBytes: bool) {
      exists b :: Blocked(seen, pattern, bits, first, base, start, byBytes, b)
    }

    /** Where a search backwards is: before any snag it has passed no occurrence, behind one it is blocked. */
    ghost predicate Looking(
      seen: seq<Byte>, pattern: Word, bits: nat, first: nat, base: int, start: int, byBytes: bool, snagged: bool)
      reads this
    {
      && Windowed() && cacheOffset < 32 && 0 <= Position() && Position() + bits <= 8 * |stream| && (byBytes ==> cacheOffset % 8 == 0)
      && (!snagged ==>
            && Searching(seen, first, base) && Position() <= start
            && forall q | Position() < q <= start && Counts(q, byBytes) :: !Matches(seen, pattern, bits, q))
      && (snagged ==> Barred(seen, pattern, bits, first, base, start, byBytes))
    }

    lemma NotBlocked(seen: seq<Byte>, pattern: Word, bits: nat, first: nat, base: int, start: int, byBytes: bool)
      requires Looking(seen, pattern, bits, first, base, start, byBytes, false)
      requires Position() == 0 || Matches(seen, pattern, bits, Position())
      ensures !Barred(seen, pattern, bits, first, base, start, byBytes)
    {
      forall b
        ensures !Blocked(seen, pattern, bits, first, base, start, byBytes, b)
      {
        if Snag(first, base, b) {
          assert b <= Base();
        }
      }
    }

    /** One comparison of a search backwards. */
    method Compare(
      pattern: Word, bits: nat,
      ghost seen: seq<Byte>, ghost first: nat, ghost base: int, ghost start: int, ghost byBytes: bool, ghost snagged: bool)
      returns (equal: bool)
      requires 1 <= bits <= 32 && Looking(seen, pattern, bits, first, base, start, byBytes, snagged)
      ensures !snagged ==> (equal <==> Matches(seen, pattern, bits, Position()))
    {
      hide Scattered, Showing, BitsAt, PeekBits, SoundFrom;
      EnoughIsCached(bits);
      var v := PeekBits(bits);
      if !snagged {
        ShownMatches(v, pattern, bits, seen);
      }
      return v == pattern;
    }

    /** One step of it. */
    method LookBack(
      pattern: Word, bits: nat, byBytes: bool,
      ghost seen: seq<Byte>, ghost first: nat, ghost base: int, ghost start: int, ghost before: bool)
      returns (fate: Fate, ghost snagged: bool)
      requires 1 <= bits <= 32 && Looking(seen, pattern, bits, first, base, start, byBytes, before) && Position() > 0
      requires !before ==> !Matches(seen, pattern, bits, Position())
      modifies this
      ensures fate == Back ==> Looking(seen, pattern, bits, first, base, start, byBytes, snagged)
      ensures fate == Back ==> Base() < old(Base()) || (Base() == old(Base()) && cacheOffset < old(cacheOffset))
      ensures fate != Back ==> snagged && Barred(seen, pattern, bits, first, base, start, byBytes)
    {
      hide Scattered, Matches, Showing, Snag, Sound, SoundFrom, Searching;
      ghost var here, offset, p := Base(), cacheOffset, Position();
      fate, snagged := SearchBack(if byBytes then 8 else 1, seen, first, base, before);
      if snagged && !before {
        assert p == 8 * here;
        assert Blocked(seen, pattern, bits, first, base, start, byBytes, here);
      }
    }

    /** Back in steps of one bit, or of eight, to the first occurrence met. */
    method SearchBackBy(
      pattern: Word, bits: nat, byBytes: bool,
      ghost seen: seq<Byte>, ghost first: nat, ghost base: int, ghost start: int, ghost before: bool)
      returns (found: bool, fate: Fate, ghost snagged: bool)
      requires 1 <= bits <= 32 && 8 * |stream| < SIZE_T
      requires Looking(seen, pattern, bits, first, base, start, byBytes, before)
      modifies this
      ensures snagged <==> Barred(seen, pattern, bits, first, base, start, byBytes)
      ensures !snagged ==> fate == Back && Looking(seen, pattern, bits, first, base, start, byBytes, false)
      ensures !snagged ==> if found then Matches(seen, pattern, bits, Position())
                           else Position() == 0 && forall q | q <= start && Counts(q, byBytes) :: !Matches(seen, pattern, bits, q)
    {
      hide Scattered, Matches, Showing, Snag, BitPosition, Searching, Barred;
      snagged := before;
      NoMatchBefore(seen, pattern, bits, -1);
      while true
        invariant Looking(seen, pattern, bits, first, base, start, byBytes, snagged)
        decreases Base() + 8, cacheOffset
      {
        ViewIsShown();
        found := Compare(pattern, bits, seen, first, base, start, byBytes, snagged);
        if found {
          if !snagged {
            NotBlocked(seen, pattern, bits, first, base, start, byBytes);
          }
          return true, Back, snagged;
        }
        PositionInStream();
        if BitPosition() == 0 {
          break;
        }
        fate, snagged := LookBack(pattern, bits, byBytes, seen, first, base, start, snagged);
        if fate != Back {
          return false, fate, snagged;
        }
      }
      if !snagged {
        NotBlocked(seen, pattern, bits, first, base, start, byBytes);
      }
      return false, Back, snagged;
    }

    lemma BlockedAtOnce(seen: seq<Byte>, pattern: Word, bits: nat, first: nat, base: int, start: int)
      requires Snag(first, base, base) && start < 8 * base
      ensures Barred(seen, pattern, bits, first, base, start, false)
    {
      assert Blocked(seen, pattern, bits, first, base, start, false, base);
    }

    /** Stops at the last occurrence that ends at or before the position, in the stream as the window shows it. */
    method FindReverse(pattern: Word, bits: nat) returns (found: bool, fate: Fate, ghost snagged: bool)
      requires Windowed() && 0 <= Position() && InRange() && cacheOffset < 32 && 1 <= bits <= 32
      requires 8 * |stream| < SIZE_T
      modifies this
      // It is snagged exactly if a refill that is not right comes before the last occurrence.
      ensures snagged <==>
                && old(Position()) >= bits
                && var start := old(Position()) - bits;
                   Barred(old(Seen()), pattern, bits, old(fragmentIndex), old(Base()), start, false)
      ensures !snagged ==> fate == Back && Windowed() && cacheOffset < 32
      ensures !snagged && found ==>
                && Position() <= old(Position()) - bits && Matches(old(Seen()), pattern, bits, Position())
                && forall q | Position() < q <= old(Position()) - bits :: !Matches(old(Seen()), pattern, bits, q)
      ensures !snagged && !found ==> forall q | q <= old(Position()) - bits :: !Matches(old(Seen()), pattern, bits, q)
      // A failed search ends at the start of the stream, unless there was no place to look at.
      ensures !snagged && !found ==> Position() == if old(Position()) < bits then old(Position()) else 0
    {
      hide Scattered, Matches, Showing, Snag, BitPosition, SoundFrom, Barred;
      ghost var seen, first, base, start := Seen(), fragmentIndex, Base(), Position() - bits;
      ViewIsShown();
      PositionInStream();
      NoMatchBefore(seen, pattern, bits, -1);
      if BitPosition() < bits {
        return false, Back, false;
      }
      fate, snagged := SearchBack(bits, seen, first, base, false);
      if snagged {
        BlockedAtOnce(seen, pattern, bits, first, base, start);
      }
      if fate != Back {
        return false, fate, snagged;
      }
      found, fate, snagged := SearchBackBy(pattern, bits, false, seen, first, base, start, snagged);
    }

    /**
      The same over the starts of bytes only. The search begins with a seek, so it is one in the
      stream with the padding of that seek set to zero: in the stream itself if there is none.
     */
    method FindByteAlignedReverse(pattern: Word, bits: nat) returns (found: bool, fate: Fate, ghost snagged: bool)
      requires Windowed() && 0 <= Position() && InRange() && 1 <= bits <= 32
      requires 8 * |stream| < SIZE_T / 2
      modifies this
      ensures old(Position()) < bits ==> !snagged && !found && unchanged(this)
      ensures old(Position()) >= bits ==>
                var last := (old(Position()) - bits) / 8;
                var base := last - SeekPadding(fragments, last);
                var shown := Zeroed(stream, base, last);
                var start := 8 * last;
                && (snagged <==> Barred(shown, pattern, bits, 0, base, start, true))
                && (!snagged ==> fate == Back && Windowed() && cacheOffset < 32 && Position() <= start && Counts(Position(), true))
                && (!snagged && found ==> Matches(shown, pattern, bits, Position()))
                && (!snagged ==> forall q | Position() < q <= start && Counts(q, true) :: !Matches(shown, pattern, bits, q))
                && (!snagged && !found ==> forall q | q <= start && Counts(q, true) :: !Matches(shown, pattern, bits, q))
                && (!snagged && !found ==> Position() == 0)
    {
      hide Scattered, Matches, Showing, Snag, BitPosition, SoundFrom, SeekPadding, PaddingAt, Zeroed;
      ViewIsShown();
      PositionInStream();
      var pos := BitPosition() - (bits + 7);
      pos := (pos + 7) / 8 * 8;
      if pos < 0 {
        return false, Back, false;
      }
      ghost var last := (Position() - bits) / 8;
      var _ := SetBytePosition(pos / 8);
      found, fate, snagged := SearchBytesBack(pattern, bits, last);
    }

    /** The loop of FindByteAlignedReverse, after a seek to byte `last`. */
    method SearchBytesBack(pattern: Word, bits: nat, ghost last: nat) returns (found: bool, fate: Fate, ghost snagged: bool)
      requires 1 <= bits <= 32 && 8 * |stream| < SIZE_T && 8 * last + bits <= 8 * |stream|
      requires Windowed() && View() == Fresh(fragments, stream, last) && cacheOffset < 32
      modifies this
      ensures var base := last - SeekPadding(fragments, last);
              var shown := Zeroed(stream, base, last);
              var start := 8 * last;
              && (snagged <==> Barred(shown, pattern, bits, 0, base, start, true))
              && (!snagged ==> fate == Back && Windowed() && cacheOffset < 32 && Position() <= start && Counts(Position(), true))
              && (!snagged && found ==> Matches(shown, pattern, bits, Position()))
              && (!snagged ==> forall q | Position() < q <= start && Counts(q, true) :: !Matches(shown, pattern, bits, q))
              && (!snagged && !found ==> forall q | q <= start && Counts(q, true) :: !Matches(shown, pattern, bits, q))
              && (!snagged && !found ==> Position() == 0)
    {
      hide Scattered, Matches, Showing, Snag, SoundFrom, SeekPadding, Zeroed, Barred;
      ViewIsShown();
      found, fate, snagged := SearchBackBy(pattern, bits, true, Seen(), 0, Base(), 8 * last, false);
      if !snagged {
        ViewIsShown();
      }
    }

    lemma ShownMatches(v: Word, pattern: Word, bits: nat, seen: seq<Byte>)
      requires Windowed() && 0 <= Position() && cacheOffset < 32 && 1 <= bits <= 32 && cacheOffset + bits <= cacheSize
      requires v == PeekBits(bits) && |seen| == |stream| && forall i | 0 <= i < Consumed() :: Seen()[i] == seen[i]
      ensures v == pattern <==> Matches(seen, pattern, bits, Position())
    {
      hide Scattered, Showing, BitsAt;
      BitsOfBytes(Seen(), seen, Position(), bits);
    }

    lemma PositionInStream()
      requires Windowed() && 0 <= Position() && Position() <= 8 * |stream| < SIZE_T
      ensures BitPosition() == Position()
    {
    }
  }
}
