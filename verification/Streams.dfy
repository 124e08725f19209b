/**
  Scattered memory and the flat byte stream it stands for: the blocks of a buffer chain, the
  fragment table SBitstreamReader builds from them, and the padding its refills insert.
 */
module Streams {
  import opened Words

  /** What an SBuffer describes: the address and the contents of a piece of memory. */
  datatype Block = Block(addr: nat, bytes: seq<Byte>)

  /** SBitstreamReader::SFragment, with the memory that `data` points to. */
  datatype Fragment = Fragment(data: nat, bytes: seq<Byte>, offset: nat)

  /** The bytes of a chain, one block after the other. */
  function Flatten(blocks: seq<Block>): seq<Byte> {
    if |blocks| == 0 then [] else Flatten(blocks[..|blocks| - 1]) + blocks[|blocks| - 1].bytes
  }

  /** The bits of a byte sequence, most significant bit of each byte first. */
  function BitsOf(bytes: seq<Byte>): (bits: seq<bool>)
    ensures |bits| == 8 * |bytes|
    ensures forall i | 0 <= i < |bits| :: bits[i] == bytes[i / 8][i % 8]
  {
    seq(8 * |bytes|, i requires 0 <= i < 8 * |bytes| => bytes[i / 8][i % 8])
  }

  /** Where fragment i ends in the stream. */
  function End(f: Fragment): nat {
    f.offset + |f.bytes|
  }

  /** The table `fs` lays out the stream `s`: consecutive pieces that cover all of it. */
  ghost predicate Scattered(fs: seq<Fragment>, s: seq<Byte>) {
    && |fs| > 0
    && fs[0].offset == 0
    && (forall i, j | 0 <= i < j < |fs| && j == i + 1 :: fs[j].offset == End(fs[i]))
    && End(fs[|fs| - 1]) == |s|
    && (forall i | 0 <= i < |fs| :: End(fs[i]) <= |s| && s[fs[i].offset..End(fs[i])] == fs[i].bytes)
  }

  lemma FragmentInStream(fs: seq<Fragment>, s: seq<Byte>, i: nat)
    requires Scattered(fs, s) && i < |fs|
    ensures End(fs[i]) <= |s| && s[fs[i].offset..End(fs[i])] == fs[i].bytes
  {
  }

  lemma FragmentByte(fs: seq<Fragment>, s: seq<Byte>, i: nat, here: nat)
    requires Scattered(fs, s) && i < |fs| && here < |fs[i].bytes|
    ensures fs[i].offset + here < |s| && fs[i].bytes[here] == s[fs[i].offset + here]
    ensures End(fs[i]) <= |s|
  {
    assert s[fs[i].offset..End(fs[i])][here] == s[fs[i].offset + here];
  }

  lemma FragmentSlice(fs: seq<Fragment>, s: seq<Byte>, i: nat, here: nat, n: nat)
    requires Scattered(fs, s) && i < |fs| && here + n <= |fs[i].bytes|
    ensures var at := fs[i].offset + here; at + n <= |s| && fs[i].bytes[here..here + n] == s[at..at + n]
  {
    var f := fs[i];
    assert s[f.offset..End(f)][here..here + n] == s[f.offset + here..f.offset + here + n];
  }

  lemma StartOfTable(fs: seq<Fragment>, s: seq<Byte>)
    requires Scattered(fs, s)
    ensures |fs| > 0 && fs[0].offset == 0
  {
  }

  lemma FlattenTake(blocks: seq<Block>, n: nat)
    requires n < |blocks|
    ensures Flatten(blocks[..n + 1]) == Flatten(blocks[..n]) + blocks[n].bytes
  {
    assert blocks[..n + 1][..n] == blocks[..n];
  }

  lemma {:induction false} FlattenPrefix(blocks: seq<Block>, n: nat)
    requires n <= |blocks|
    ensures Flatten(blocks[..n]) <= Flatten(blocks)
    decreases |blocks| - n
  {
    if n < |blocks| {
      FlattenTake(blocks, n);
      FlattenPrefix(blocks, n + 1);
    } else {
      assert blocks[..n] == blocks;
    }
  }

  lemma BlockInPlace(blocks: seq<Block>, i: nat)
    requires i < |blocks|
    ensures var at := |Flatten(blocks[..i])|;
            && at + |blocks[i].bytes| == |Flatten(blocks[..i + 1])| <= |Flatten(blocks)|
            && Flatten(blocks)[at..at + |blocks[i].bytes|] == blocks[i].bytes
  {
    FlattenTake(blocks, i);
    FlattenPrefix(blocks, i + 1);
    var at := |Flatten(blocks[..i])|;
    var upTo := Flatten(blocks[..i + 1]);
    assert Flatten(blocks)[..|upTo|] == upTo;
    assert Flatten(blocks)[at..|upTo|] == upTo[at..];
  }

  /** `fs` is how the fragment table of a chain starts: each block with the stream offset it starts at. */
  ghost predicate TableOf(fs: seq<Fragment>, blocks: seq<Block>) {
    && |fs| <= |blocks|
    && forall i | 0 <= i < |fs| ::
         fs[i] == Fragment(blocks[i].addr, blocks[i].bytes, |Flatten(blocks[..i])|)
  }

  /** The whole table. */
  ghost function Table(blocks: seq<Block>): (fs: seq<Fragment>)
    ensures |fs| == |blocks| && TableOf(fs, blocks)
  {
    seq(|blocks|, i requires 0 <= i < |blocks| => Fragment(blocks[i].addr, blocks[i].bytes, |Flatten(blocks[..i])|))
  }

  lemma WholeTable(fs: seq<Fragment>, blocks: seq<Block>)
    requires |fs| == |blocks| && TableOf(fs, blocks)
    ensures fs == Table(blocks)
  {
  }

  lemma TableOfTwo(x: Block, y: Block)
    ensures Table([x, y]) == [Fragment(x.addr, x.bytes, 0), Fragment(y.addr, y.bytes, |x.bytes|)]
  {
    FlattenTake([x, y], 0);
  }

  lemma StartOfBlocks(blocks: seq<Block>)
    ensures Flatten(blocks[..0]) == []
  {
  }

  lemma TableScatters(blocks: seq<Block>, fs: seq<Fragment>)
    requires |fs| == |blocks| > 0 && TableOf(fs, blocks)
    ensures Scattered(fs, Flatten(blocks))
  {
    StartOfBlocks(blocks);
    hide Flatten;
    forall i | 0 <= i < |fs|
      ensures End(fs[i]) == |Flatten(blocks[..i + 1])| <= |Flatten(blocks)|
      ensures Flatten(blocks)[fs[i].offset..End(fs[i])] == fs[i].bytes
    {
      BlockInPlace(blocks, i);
    }
    assert blocks[..|blocks|] == blocks;
  }

  // ---- padding ---------------------------------------------------------------------

  /**
    The bytes of padding a refill inserts when it still wants `want` bytes and stands in
    fragment i with `left` bytes to go: it takes single bytes while a fragment is too short,
    and pads so that the read after the next starts on a word boundary.
   */
  function Padding(fs: seq<Fragment>, i: nat, left: nat, want: nat): (k: nat)
    requires i < |fs| && left <= |fs[i].bytes| && 1 <= want <= 4
    ensures k < want
    decreases |fs| - i, left
  {
    if left == 0 then
      if i + 1 < |fs| then Padding(fs, i + 1, |fs[i + 1].bytes|, want) else 0
    else if left >= want then
      var align := 4 - (fs[i].data + |fs[i].bytes| - left) % 4;
      if align != 4 && align < want then want - align else 0
    else
      Padding(fs, i, left - 1, want - 1)
  }

  /** The padding of a refill that wants `want` bytes from stream byte p on, looking from fragment i. */
  function PaddingFrom(fs: seq<Fragment>, i: nat, p: nat, want: nat): (k: nat)
    requires i < |fs| && 1 <= want <= 4
    ensures k < want
    decreases |fs| - i
  {
    if p >= End(fs[i]) then
      if i + 1 < |fs| then PaddingFrom(fs, i + 1, p, want) else 0
    else if p < fs[i].offset then 0
    else Padding(fs, i, End(fs[i]) - p, want)
  }

  function PaddingAt(fs: seq<Fragment>, p: nat): (k: nat)
    requires |fs| > 0
    ensures k <= 3
  {
    PaddingFrom(fs, 0, p, 4)
  }

  /** The padding of the two refills that a seek to byte `at` makes. */
  function SeekPadding(fs: seq<Fragment>, at: nat): nat
    requires |fs| > 0
  {
    PaddingAt(fs, at) + PaddingAt(fs, at + 4 - PaddingAt(fs, at))
  }

  /** The cursor (i, left) needs the padding that its stream position needs. */
  lemma {:induction false} PaddingIsLayout(fs: seq<Fragment>, s: seq<Byte>, j: nat, i: nat, left: nat, want: nat)
    requires Scattered(fs, s) && j <= i < |fs| && left <= |fs[i].bytes| && 1 <= want <= 4
    ensures PaddingFrom(fs, j, End(fs[i]) - left, want) == Padding(fs, i, left, want)
    decreases |fs| - i, i - j
  {
    var p := End(fs[i]) - left;
    if j < i {
      EndsBefore(fs, s, j, i);
      PaddingIsLayout(fs, s, j + 1, i, left, want);
    } else if left == 0 && i + 1 < |fs| {
      PaddingIsLayout(fs, s, i + 1, i + 1, |fs[i + 1].bytes|, want);
    }
  }

  lemma {:induction false} EndsBefore(fs: seq<Fragment>, s: seq<Byte>, j: nat, i: nat)
    requires Scattered(fs, s) && j < i < |fs|
    ensures End(fs[j]) <= fs[i].offset
    decreases i - j
  {
    if j + 1 < i {
      EndsBefore(fs, s, j + 1, i);
    }
  }

  lemma NoPaddingPastEnd(fs: seq<Fragment>, s: seq<Byte>, p: nat)
    requires Scattered(fs, s)
    ensures p >= |s| ==> PaddingAt(fs, p) == 0
  {
    if p >= |s| {
      NoPaddingPastEndFrom(fs, s, 0, p);
    }
  }

  lemma TwoPaddings(fs: seq<Fragment>, s: seq<Byte>, at: nat, at': nat)
    requires Scattered(fs, s)
    requires at' == at + 4 - PaddingAt(fs, at) || (at' == |s| && |s| <= at + 4 - PaddingAt(fs, at))
    ensures SeekPadding(fs, at) == PaddingAt(fs, at) + PaddingAt(fs, at')
  {
    NoPaddingPastEnd(fs, s, at');
    NoPaddingPastEnd(fs, s, at + 4 - PaddingAt(fs, at));
  }

  lemma {:induction false} NoPaddingPastEndFrom(fs: seq<Fragment>, s: seq<Byte>, i: nat, p: nat)
    requires Scattered(fs, s) && i < |fs| && p >= |s|
    ensures PaddingFrom(fs, i, p, 4) == 0
    decreases |fs| - i
  {
    if i + 1 < |fs| {
      NoPaddingPastEndFrom(fs, s, i + 1, p);
    }
  }

  lemma PaddingStep(fs: seq<Fragment>, i: nat, left: nat, want: nat)
    requires i < |fs| && 1 <= left <= |fs[i].bytes| && 1 <= want <= 4
    ensures left < want ==> Padding(fs, i, left - 1, want - 1) == Padding(fs, i, left, want)
  {
  }

  lemma PaddingHere(fs: seq<Fragment>, i: nat, left: nat, want: nat)
    requires i < |fs| && want <= left <= |fs[i].bytes| && 1 <= want <= 4
    ensures var align := 4 - (fs[i].data + |fs[i].bytes| - left) % 4;
            Padding(fs, i, left, want) == if align != 4 && align < want then want - align else 0
  {
  }

  /** Padding leaves a word-aligned cursor with data behind it, so little can follow it. */
  lemma PaddingTwice(fs: seq<Fragment>, i: nat, left: nat, k: nat)
    requires i < |fs| && k <= left <= |fs[i].bytes| && 1 <= k <= 3
    requires (fs[i].data + |fs[i].bytes| - left) % 4 == 0
    ensures k + Padding(fs, i, left, 4) <= 3
  {
    if left == 2 {
      assert Padding(fs, i, left, 4) == Padding(fs, i, 1, 3) == Padding(fs, i, 0, 2);
    } else if left == 3 {
      assert Padding(fs, i, left, 4) == Padding(fs, i, 2, 3) == Padding(fs, i, 1, 2) == Padding(fs, i, 0, 1);
    }
  }

  /** The fragment that byte p, which needs padding, is in. */
  lemma {:induction false} PaddedFragment(fs: seq<Fragment>, p: nat, i: nat) returns (j: nat)
    requires i < |fs| && PaddingFrom(fs, i, p, 4) > 0
    ensures j < |fs| && fs[j].offset <= p < End(fs[j]) && PaddingFrom(fs, i, p, 4) == Padding(fs, j, End(fs[j]) - p, 4)
    decreases |fs| - i
  {
    if p >= End(fs[i]) {
      j := PaddedFragment(fs, p, i + 1);
    } else {
      j := i;
    }
  }

  /** A refill that pads by k leaves a word-aligned cursor with at least k bytes behind it. */
  lemma {:induction false} PaddingLeaves(fs: seq<Fragment>, s: seq<Byte>, i: nat, left: nat, want: nat)
    returns (j: nat, rest: nat)
    requires Scattered(fs, s) && i < |fs| && left <= |fs[i].bytes| && 1 <= want <= 4 && Padding(fs, i, left, want) > 0
    ensures j < |fs| && Padding(fs, i, left, want) <= rest <= |fs[j].bytes|
    ensures End(fs[j]) - rest == End(fs[i]) - left + want - Padding(fs, i, left, want)
    ensures (fs[j].data + |fs[j].bytes| - rest) % 4 == 0
    decreases |fs| - i, left
  {
    if left == 0 {
      j, rest := PaddingLeaves(fs, s, i + 1, |fs[i + 1].bytes|, want);
    } else if left >= want {
      j, rest := i, left - (want - Padding(fs, i, left, want));
    } else {
      j, rest := PaddingLeaves(fs, s, i, left - 1, want - 1);
    }
  }

  /** So the two refills of a seek pad by at most three bytes together, for every layout. */
  lemma SeekPaddingBound(fs: seq<Fragment>, s: seq<Byte>, at: nat)
    requires Scattered(fs, s)
    ensures SeekPadding(fs, at) <= 3
  {
    hide Padding, PaddingFrom;
    var k := PaddingAt(fs, at);
    if k > 0 {
      var i := PaddedFragment(fs, at, 0);
      var j, rest := PaddingLeaves(fs, s, i, End(fs[i]) - at, 4);
      PaddingTwice(fs, j, rest, k);
      PaddingIsLayout(fs, s, 0, j, rest, 4);
    }
  }

  ghost predicate Aligned(address: int) {
    address % 4 == 0
  }

  /** The padding of a single fragment. */
  lemma OnePadding(fs: seq<Fragment>, s: seq<Byte>, p: nat)
    requires Scattered(fs, s) && |fs| == 1 && p <= |s|
    ensures PaddingAt(fs, p) == if |s| - p >= 4 then (fs[0].data + p) % 4 else 0
  {
    if p == |s| {
      NoPaddingPastEnd(fs, s, p);
    } else {
      PaddingIsLayout(fs, s, 0, 0, |s| - p, 4);
      if |s| - p < 4 {
        NoPaddingInShortTail(fs, |s| - p, 4);
      }
    }
  }

  /** Every fragment sits in memory as if the stream were contiguous, up to whole words. */
  ghost predicate Congruent(fs: seq<Fragment>) {
    |fs| > 0 && forall i | 0 <= i < |fs| :: (fs[i].data - fs[i].offset - fs[0].data) % 4 == 0
  }

  /** One contiguous buffer is the plainest congruent layout. */
  lemma ContiguousIsCongruent(fs: seq<Fragment>, s: seq<Byte>)
    requires Scattered(fs, s) && |fs| == 1
    ensures Congruent(fs)
  {
  }

  /** Congruent layouts need no padding once a refill has started on a word boundary. */
  lemma {:induction false} CongruentNeedsNoPadding(
    fs: seq<Fragment>, s: seq<Byte>, i: nat, left: nat, want: nat)
    requires Scattered(fs, s) && Congruent(fs)
    requires i < |fs| && left <= |fs[i].bytes| && 1 <= want <= 4
    requires (fs[0].data + End(fs[i]) - left + want) % 4 == 0
    ensures Padding(fs, i, left, want) == 0
    decreases |fs| - i, left
  {
    if left == 0 {
      if i + 1 < |fs| {
        CongruentNeedsNoPadding(fs, s, i + 1, |fs[i + 1].bytes|, want);
      }
    } else if left >= want {
      assert (fs[i].data - fs[i].offset - fs[0].data) % 4 == 0;
    } else {
      CongruentNeedsNoPadding(fs, s, i, left - 1, want - 1);
    }
  }

  lemma CongruentPadding(fs: seq<Fragment>, s: seq<Byte>, p: nat)
    requires Scattered(fs, s) && Congruent(fs) && Aligned(fs[0].data + p)
    ensures PaddingAt(fs, p) == 0
  {
    if PaddingAt(fs, p) > 0 {
      var i := PaddedFragment(fs, p, 0);
      CongruentNeedsNoPadding(fs, s, i, End(fs[i]) - p, 4);
    }
  }

  /** Nor is there anything to align when the last fragment is shorter than what is wanted. */
  lemma {:induction false} NoPaddingInShortTail(fs: seq<Fragment>, left: nat, want: nat)
    requires |fs| > 0 && left <= |fs[|fs| - 1].bytes| && left < want <= 4
    ensures Padding(fs, |fs| - 1, left, want) == 0
  {
    if left > 0 {
      NoPaddingInShortTail(fs, left - 1, want - 1);
    }
  }

  /** At the end of the stream there is nothing to align. */
  lemma {:induction false} NoPaddingAtEnd(fs: seq<Fragment>, s: seq<Byte>, i: nat, want: nat)
    requires Scattered(fs, s)
    requires i < |fs| && End(fs[i]) == |s| && 1 <= want <= 4
    ensures Padding(fs, i, 0, want) == 0
    decreases |fs| - i
  {
    if i + 1 < |fs| {
      assert fs[i + 1].offset == |s|;
      assert |fs[i + 1].bytes| == 0;
      NoPaddingAtEnd(fs, s, i + 1, want);
    }
  }

  // ---- chains laid out word by word ------------------------------------------------

  /** The address of every block is its stream offset, modulo four. */
  ghost predicate InStep(blocks: seq<Block>) {
    forall i | 0 <= i < |blocks| :: (blocks[i].addr - |Flatten(blocks[..i])|) % 4 == 0
  }

  lemma InStepTable(blocks: seq<Block>)
    requires |blocks| > 0 && InStep(blocks)
    ensures Congruent(Table(blocks)) && Table(blocks)[0].data % 4 == 0
  {
    assert |Flatten(blocks[..0])| == 0;
  }

  /** Word-aligned blocks of whole words, but for the size of the last, are in step. */
  lemma WordBlocksAreInStep(blocks: seq<Block>)
    requires forall i | 0 <= i < |blocks| :: blocks[i].addr % 4 == 0 && (i < |blocks| - 1 ==> |blocks[i].bytes| % 4 == 0)
    ensures InStep(blocks)
  {
    forall i | 0 <= i < |blocks|
      ensures |Flatten(blocks[..i])| % 4 == 0
    {
      WholeWords(blocks, i);
    }
  }

  lemma {:induction false} WholeWords(blocks: seq<Block>, n: nat)
    requires n <= |blocks| && forall i | 0 <= i < n :: |blocks[i].bytes| % 4 == 0
    ensures |Flatten(blocks[..n])| % 4 == 0
  {
    if n > 0 {
      FlattenTake(blocks, n - 1);
      WholeWords(blocks, n - 1);
    }
  }

  // ---- bits ------------------------------------------------------------------------

  /** `n` bits of the stream from bit p, right-justified in a word: what a flat reader returns. */
  function BitsAt(s: seq<Byte>, p: nat, n: nat): Word
    requires n <= 32 && p + n <= 8 * |s|
  {
    Zeros(32 - n) + BitsOf(s)[p..p + n]
  }

  /** Two streams give the same n bits exactly if they agree on each of them. */
  lemma SameBits(s: seq<Byte>, t: seq<Byte>, p: nat, n: nat)
    requires |s| == |t| && n <= 32 && p + n <= 8 * |s|
    ensures BitsAt(s, p, n) == BitsAt(t, p, n) <==> forall i | p <= i < p + n :: BitsOf(s)[i] == BitsOf(t)[i]
  {
    var x, y := BitsOf(s)[p..p + n], BitsOf(t)[p..p + n];
    assert BitsAt(s, p, n)[32 - n..] == x && BitsAt(t, p, n)[32 - n..] == y;
    if x == y {
      forall i | p <= i < p + n
        ensures BitsOf(s)[i] == BitsOf(t)[i]
      {
        assert x[i - p] == y[i - p];
      }
    }
  }

  lemma BitsOfBytes(s: seq<Byte>, t: seq<Byte>, p: nat, n: nat)
    requires |s| == |t| && n <= 32 && p + n <= 8 * |s|
    requires forall i | 0 <= i < |s| && p < 8 * (i + 1) && 8 * i < p + n :: s[i] == t[i]
    ensures BitsAt(s, p, n) == BitsAt(t, p, n)
  {
    forall i | p <= i < p + n
      ensures BitsOf(s)[i] == BitsOf(t)[i]
    {
      assert s[i / 8] == t[i / 8];
    }
    SameBits(s, t, p, n);
  }

  /** The `bits` bits at position q, read as a number, are `pattern`. */
  ghost predicate Matches(s: seq<Byte>, pattern: Word, bits: nat, q: int) {
    bits <= 32 && 0 <= q && q + bits <= 8 * |s| && BitsAt(s, q, bits) == pattern
  }

  /** The pattern occurs at the start of byte b. */
  ghost predicate MatchesByte(s: seq<Byte>, pattern: Word, bits: nat, b: int) {
    Matches(s, pattern, bits, 8 * b)
  }

  lemma SameMatches(s: seq<Byte>, t: seq<Byte>, pattern: Word, bits: nat, from: int)
    requires |s| == |t| && forall i | 0 <= i < |s| && from < 8 * (i + 1) :: s[i] == t[i]
    ensures forall q | from <= q :: Matches(s, pattern, bits, q) <==> Matches(t, pattern, bits, q)
  {
    forall q | from <= q && bits <= 32 && 0 <= q && q + bits <= 8 * |s|
      ensures BitsAt(s, q, bits) == BitsAt(t, q, bits)
    {
      BitsOfBytes(s, t, q, bits);
    }
  }

  lemma NoMatchBefore(s: seq<Byte>, pattern: Word, bits: nat, last: int)
    requires last < 0
    ensures forall q | q <= last :: !Matches(s, pattern, bits, q)
    ensures forall b | b <= last :: !MatchesByte(s, pattern, bits, b)
  {
  }

  lemma NoMatchPastEnd(s: seq<Byte>, pattern: Word, bits: nat, first: int)
    requires first + bits > 8 * |s|
    ensures forall q | first <= q :: !Matches(s, pattern, bits, q)
    ensures forall b | first <= 8 * b :: !MatchesByte(s, pattern, bits, b)
  {
  }
}
