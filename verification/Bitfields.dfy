/**
  SBitfield: a vector of bits in one inline word or, above 32 bits, in an array of words, the
  most significant bit of each word first.
 */
module Bitfields {
  import opened Words

  const NUM_INLINE_BITS: nat := 32

  /** 0x80000000 and 0xFFFFFFFF. */
  const TOP: Word := [true] + Zeros(31)
  const ALL: Word := Ones(32)

  /** Outside: the call writes memory behind its array. */
  datatype Status = Ok | BadValue | Outside

  /** Bytes that hold `size` bits in whole words. */
  function AllocSize(size: nat): nat {
    (size + 31) / 32 * 32 / 8
  }

  /** `s` with the bits [start, start + len) set to v. */
  ghost function Filled(s: seq<bool>, start: nat, len: nat, v: bool): (r: seq<bool>)
    ensures |r| == |s|
  {
    seq(|s|, i requires 0 <= i < |s| => if start <= i < start + len then v else s[i])
  }

  /** The masks of compute_masks: bits from `start` on in its word, and bits up to the last one in its word. */
  function LeftMask(start: nat): Word {
    Shr(ALL, start % 32)
  }

  function RightMask(start: nat, len: nat): Word {
    Shl(ALL, 31 - Wrap(start + len - 1) % 32)
  }

  /** The rest of compute_masks: the words of the first and the last bit, and how many lie between them. */
  datatype Span = Span(startWord: nat, endWord: nat, numWords: nat)

  function SpanOf(start: nat, len: nat): Span {
    var startWord, endWord := start / 32, Wrap(start + len - 1) / 32;
    var numWords := Wrap(endWord - startWord);
    Span(startWord, endWord, if numWords > 0 then numWords - 1 else numWords)
  }

  /** Every word that Set and Clear write is among the first `words`; memset takes a number of bytes. */
  predicate WritesInside(span: Span, words: nat) {
    && span.startWord < words
    && (span.startWord != span.endWord ==>
          && span.endWord < words
          && (span.numWords > 0 ==> span.startWord + 1 + Wrap(4 * span.numWords) / 4 <= words))
  }

  /** That holds for the ranges in those words if and only if they are not empty ranges at a word boundary. */
  lemma InsideIff(words: nat, start: nat, len: nat)
    requires start + len <= 32 * words <= SIZE_T / 2
    ensures WritesInside(SpanOf(start, len), words) <==> len > 0 || start % 32 != 0
  {
    var span := SpanOf(start, len);
    if len == 0 && start % 32 == 0 {
      if start > 0 {
        assert span.endWord == span.startWord - 1;
        assert span.numWords == SIZE_T - 2;
        assert Wrap(4 * span.numWords) == SIZE_T - 8;
      } else {
        assert span.endWord == SIZE_T / 32 - 1;
      }
    } else {
      assert span.endWord == (start + len - 1) / 32 && span.startWord <= span.endWord;
    }
  }

  /** The word with the masked bits set, or cleared. */
  function Masked(w: Word, mask: Word, v: bool): Word {
    if v then Or(w, mask) else And(w, Not(mask))
  }

  lemma LeftMaskBits(start: nat, i: nat)
    requires i < 32
    ensures LeftMask(start)[i] <==> start % 32 <= i
  {
  }

  lemma RightMaskBits(start: nat, len: nat, i: nat)
    requires i < 32
    ensures RightMask(start, len)[i] <==> i <= Wrap(start + len - 1) % 32
  {
  }

  class Bitfield {
    var numBits: nat
    var inlineBits: Word
    var bits: seq<Word>

    predicate Inline()
      reads this
    {
      numBits <= NUM_INLINE_BITS
    }

    /** The heap form has the words that AllocSize asks for; the inline form has none or all of its bits. */
    ghost predicate Valid()
      reads this
    {
      && numBits < SIZE_T / 2 && (numBits == 0 || numBits >= NUM_INLINE_BITS)
      && (!Inline() ==> 4 * |bits| == AllocSize(numBits))
    }

    /** Every word index that a valid bit leads to is inside the allocation. */
    lemma WordIndexInRange(bit: nat)
      requires Valid() && !Inline() && bit < numBits
      ensures bit / 32 < |bits|
    {
    }

    ghost function Bit(i: nat): bool
      requires Valid() && i < numBits
      reads this
    {
      if Inline() then inlineBits[i] else WordIndexInRange(i); bits[i / 32][i % 32]
    }

    /** The bitfield as a plain sequence of booleans. */
    ghost function Contents(): (s: seq<bool>)
      requires Valid()
      reads this
      ensures |s| == numBits && forall i | 0 <= i < numBits :: s[i] == Bit(i)
    {
      seq(numBits, i requires 0 <= i < numBits && Valid() reads this => Bit(i))
    }

    /**
      SBitfield(size, initial): a size of up to 32 bits is rounded up to 32, and `memory` is what
      the allocated words contain.
     */
    constructor (size: nat, initial: bool, memory: seq<Word>)
      requires size < SIZE_T / 2 && 4 * |memory| == AllocSize(size)
      ensures Valid() && numBits == (if 0 < size < NUM_INLINE_BITS then NUM_INLINE_BITS else size)
      ensures forall i | 0 <= i < numBits :: Contents()[i] == (initial && i < size)
    {
      numBits, inlineBits, bits := 0, ZERO, [];
      new;
      if size > 0 {
        var _ := Resize(size, memory);
      }
      if initial {
        var _ := Fill(0, size, true);
      }
    }

    /**
      Resize: keeps the bits there are and adds clear ones. It works if and only if it does not grow
      an array to a size that is not a whole number of words, for which the code allocates too little.
     */
    method Resize(size: nat, memory: seq<Word>) returns (status: Status)
      requires Valid() && size < SIZE_T / 2 && 4 * |memory| == AllocSize(size)
      modifies this
      ensures status != Outside ==> Valid()
      ensures status == Outside <==> !old(Inline()) && size > old(numBits) && size % 32 != 0
      ensures status != Outside ==> status == Ok
      ensures status == Ok ==>
                numBits == if size > NUM_INLINE_BITS then size
                           else if size == 0 && old(numBits) == 0 then 0 else NUM_INLINE_BITS
      ensures status == Ok ==> forall i | 0 <= i < numBits :: Contents()[i] == (i < old(numBits) && old(Contents())[i])
    {
      status := Ok;
      if size <= numBits {
        if !Inline() {
          Shrink(size);
        }
      } else if size > NUM_INLINE_BITS {
        status := Grow(size, memory);
      } else {
        GrowInline();
      }
    }

    method Shrink(size: nat)
      requires Valid() && !Inline() && size <= numBits
      modifies this
      ensures Valid() && numBits == if size <= NUM_INLINE_BITS then NUM_INLINE_BITS else size
      ensures forall i | 0 <= i < numBits :: Contents()[i] == old(Contents())[i]
    {
      if size <= NUM_INLINE_BITS {
        inlineBits := bits[0];
        numBits := NUM_INLINE_BITS;
      } else {
        bits := bits[..AllocSize(size) / 4];
        numBits := size;
      }
    }

    /** Into an array, or to a larger one, of which the code allocates size / 8 bytes. */
    method Grow(size: nat, memory: seq<Word>) returns (status: Status)
      requires Valid() && NUM_INLINE_BITS < size && numBits < size < SIZE_T / 2 && 4 * |memory| == AllocSize(size)
      modifies this
      ensures status != Outside ==> Valid()
      ensures status == Outside <==> !old(Inline()) && size % 32 != 0
      ensures status != Outside ==> status == Ok && numBits == size
      ensures status == Ok ==> forall i | 0 <= i < numBits :: Contents()[i] == (i < old(numBits) && old(Contents())[i])
    {
      var oldBits := numBits;
      if Inline() {
        bits := memory[0 := inlineBits];
      } else if size / 8 < AllocSize(size) {
        return Outside;
      } else {
        bits := bits + memory[|bits|..];
      }
      numBits := size;
      assert forall i | 0 <= i < oldBits :: Bit(i) == old(Bit(i));
      status := Fill(oldBits, size - oldBits, false);
    }

    method GrowInline()
      requires Valid() && numBits == 0
      modifies this
      ensures Valid() && numBits == NUM_INLINE_BITS && forall i | 0 <= i < numBits :: !Contents()[i]
    {
      numBits, inlineBits := NUM_INLINE_BITS, ZERO;
    }

    /** The word that holds a bit. */
    function WordOf(bit: nat): Word
      requires Valid() && bit < numBits
      reads this
    {
      if numBits > NUM_INLINE_BITS then WordIndexInRange(bit); bits[bit / 32] else inlineBits
    }

    function Test(bit: nat): (set1: bool)
      requires Valid() && bit < numBits
      reads this
      ensures set1 == Contents()[bit]
    {
      TopBit(WordOf(bit), bit % 32);
      And(WordOf(bit), Shr(TOP, bit % 32)) != ZERO
    }

    /** Set(bit) for v, Clear(bit) for not v; the proxy assignment chooses between them. */
    method Put(bit: nat, v: bool)
      requires Valid() && bit < numBits
      modifies this
      ensures Valid() && numBits == old(numBits) && Contents() == old(Contents())[bit := v]
    {
      var mask := Shr(TOP, bit % 32);
      if numBits > NUM_INLINE_BITS {
        WordIndexInRange(bit);
        bits := bits[bit / 32 := Masked(bits[bit / 32], mask, v)];
      } else {
        inlineBits := Masked(inlineBits, mask, v);
      }
    }

    /**
      Set(start, len) for v, Clear(start, len) for not v. An empty range at a word boundary is not
      an empty range to the code: its last bit, start - 1, is in the word before.
     */
    method Fill(start: nat, len: nat, v: bool) returns (status: Status)
      requires Valid() && start + len < SIZE_T / 2  // compared as a signed number
      modifies this
      ensures status == BadValue <==> start + len > old(numBits)
      ensures status == Outside <==> start + len <= old(numBits) && !old(Inline()) && len == 0 && start % 32 == 0
      ensures status != Outside ==> Valid() && numBits == old(numBits)
      ensures status == BadValue ==> Contents() == old(Contents())
      ensures status == Ok && (len > 0 || start % 32 != 0) ==> Contents() == Filled(old(Contents()), start, len, v)
      ensures status == Ok && len == 0 && start % 32 == 0 ==> Contents() == Filled(old(Contents()), 0, numBits, v)
    {
      if start + len > numBits {
        return BadValue;
      }
      if numBits <= NUM_INLINE_BITS {
        FillInline(start, len, v);
      } else {
        InsideIff(|bits|, start, len);
        if !WritesInside(SpanOf(start, len), |bits|) {
          return Outside;
        }
        FillHeap(start, len, v);
      }
      return Ok;
    }

    method FillInline(start: nat, len: nat, v: bool)
      requires Valid() && Inline() && start + len <= numBits
      modifies `inlineBits
      ensures Valid()
      ensures Contents() == if len > 0 || start % 32 != 0 then Filled(old(Contents()), start, len, v)
                            else Filled(old(Contents()), 0, numBits, v)
    {
      hide LeftMask, RightMask;
      var left, right := LeftMask(start), RightMask(start, len);
      inlineBits := Masked(inlineBits, And(left, right), v);
      forall i | 0 <= i < numBits
        ensures Bit(i) == if !(len > 0 || start % 32 != 0) || start <= i < start + len then v else old(Bit(i))
      {
        LeftMaskBits(start, i);
        RightMaskBits(start, len, i);
        MaskedBit(old(inlineBits), And(left, right), v, i);
      }
    }

    method FillHeap(start: nat, len: nat, v: bool)
      requires Valid() && !Inline() && start + len <= numBits && WritesInside(SpanOf(start, len), |bits|)
      modifies `bits
      ensures Valid() && Contents() == Filled(old(Contents()), start, len, v)
    {
      bits := FillWords(bits, start, len, v);
      forall i | 0 <= i < numBits
        ensures Bit(i) == if start <= i < start + len then v else old(Bit(i))
      {
        WordIndexInRange(i);
        assert BitOf(bits, i) == if start <= i < start + len then v else BitOf(old(bits), i);
      }
    }
  }

  function BitOf(words: seq<Word>, i: nat): bool
    requires i < 32 * |words|
  {
    words[i / 32][i % 32]
  }

  /** The heap form of Fill: two masked words, and whole words between them. */
  method FillWords(words: seq<Word>, start: nat, len: nat, v: bool) returns (r: seq<Word>)
    requires start + len <= 32 * |words| <= SIZE_T / 2 && WritesInside(SpanOf(start, len), |words|)
    ensures |r| == |words|
    ensures forall i | 0 <= i < 32 * |words| ::
              BitOf(r, i) == if start <= i < start + len then v else BitOf(words, i)
  {
    hide LeftMask, RightMask, Masked;
    InsideIff(|words|, start, len);
    var left, right := LeftMask(start), RightMask(start, len);
    var Span(startWord, endWord, numWords) := SpanOf(start, len);
    if startWord == endWord {
      r := words[startWord := Masked(words[startWord], And(left, right), v)];
    } else {
      r := Memset(words, startWord + 1, startWord + 1 + numWords, if v then ALL else ZERO);
      r := r[startWord := Masked(words[startWord], left, v)];
      r := r[endWord := Masked(words[endWord], right, v)];
    }
    forall i | 0 <= i < 32 * |words|
      ensures BitOf(r, i) == if start <= i < start + len then v else BitOf(words, i)
    {
      FilledBit(start, len, i);
      MaskedBit(words[i / 32], And(left, right), v, i % 32);
      MaskedBit(words[i / 32], left, v, i % 32);
      MaskedBit(words[i / 32], right, v, i % 32);
    }
  }

  /** memset over whole words. */
  method Memset(words: seq<Word>, from: nat, to: nat, fill: Word) returns (r: seq<Word>)
    requires from <= to <= |words|
    ensures |r| == |words| && forall k | 0 <= k < |r| :: r[k] == if from <= k < to then fill else words[k]
  {
    r := words;
    for k := from to to
      invariant |r| == |words|
      invariant forall j | 0 <= j < |r| :: r[j] == if from <= j < k then fill else words[j]
    {
      r := r[k := fill];
    }
  }

  /** Where bit i stands to a range, word by word. */
  lemma FilledBit(start: nat, len: nat, i: nat)
    requires start + len < SIZE_T && (len > 0 || start % 32 != 0)
    ensures var startWord, endWord, end := start / 32, (start + len - 1) / 32, start + len - 1;
            && (LeftMask(start)[i % 32] <==> start % 32 <= i % 32)
            && (RightMask(start, len)[i % 32] <==> i % 32 <= end % 32)
            && (i / 32 == startWord ==> (start <= i <==> start % 32 <= i % 32))
            && (i / 32 == endWord ==> (i < start + len <==> i % 32 <= end % 32))
            && (i / 32 < startWord ==> i < start) && (i / 32 > startWord ==> start < i)
            && (i / 32 < endWord ==> i < start + len) && (i / 32 > endWord ==> start + len <= i)
  {
  }

  lemma MaskedBit(w: Word, mask: Word, v: bool, i: nat)
    requires i < 32
    ensures Masked(w, mask, v)[i] == if mask[i] then v else w[i]
  {
  }

  // ---- runs ------------------------------------------------------------------------

  datatype Op = PutBit(bit: nat, v: bool) | FillBits(start: nat, len: nat, v: bool)

  /** The bit is one of the field, and the range does not lead outside the array. */
  predicate Admissible(n: nat, op: Op) {
    match op
    case PutBit(bit, _) => bit < n
    case FillBits(start, len, _) =>
      start + len < SIZE_T / 2 && !(n > NUM_INLINE_BITS && start + len <= n && len == 0 && start % 32 == 0)
  }

  ghost function Effect(s: seq<bool>, op: Op): (r: seq<bool>)
    requires Admissible(|s|, op)
    ensures |r| == |s|
  {
    match op
    case PutBit(bit, v) => s[bit := v]
    case FillBits(start, len, v) =>
      if start + len > |s| then s
      else if len > 0 || start % 32 != 0 then Filled(s, start, len, v)
      else Filled(s, 0, |s|, v)
  }

  ghost function Effects(s: seq<bool>, ops: seq<Op>): (r: seq<bool>)
    requires forall i | 0 <= i < |ops| :: Admissible(|s|, ops[i])
    ensures |r| == |s|
    decreases |ops|
  {
    if |ops| == 0 then s else Effects(Effect(s, ops[0]), ops[1..])
  }

  /** Every run agrees with a plain sequence of booleans, in the inline and in the heap form alike. */
  method Run(f: Bitfield, ops: seq<Op>)
    requires f.Valid() && forall i | 0 <= i < |ops| :: Admissible(f.numBits, ops[i])
    modifies f
    ensures f.Valid() && f.numBits == old(f.numBits)
    ensures f.Contents() == Effects(old(f.Contents()), ops)
    decreases |ops|
  {
    if |ops| > 0 {
      match ops[0] {
        case PutBit(bit, v) =>
          f.Put(bit, v);
        case FillBits(start, len, v) =>
          var _ := f.Fill(start, len, v);
      }
      Run(f, ops[1..]);
    }
  }

  lemma TopBit(w: Word, i: nat)
    requires i < 32
    ensures And(w, Shr(TOP, i)) != ZERO <==> w[i]
  {
    var r := And(w, Shr(TOP, i));
    if w[i] {
      assert r[i];
    } else {
      assert forall k | 0 <= k < 32 :: !r[k];
      assert r == ZERO;
    }
  }

  // ---- where the plain claims stop -------------------------------------------------

  /** An empty range at a word boundary of an array, and growing an array by a bit, write outside it. */
  method WritesOutside(memory: seq<Word>, memory': seq<Word>) returns (filled: Status, grown: Status)
    requires |memory| == 2 && |memory'| == 3
    ensures filled == grown == Outside
  {
    var f := new Bitfield(64, false, memory);
    filled := f.Fill(32, 0, true);
    var g := new Bitfield(64, false, memory);
    grown := g.Resize(65, memory');
  }

  /** Setting no bit of the first 32 sets them all. */
  method EmptyRangeSetsAll(memory: seq<Word>) returns (before: bool, after: bool)
    requires |memory| == 1
    ensures !before && after
  {
    var f := new Bitfield(32, false, memory);
    before := f.Test(5);
    var _ := f.Fill(0, 0, true);
    after := f.Test(5);
  }
}
