/**
  Machine words as bit vectors, most significant bit first, with the C operators that
  SBitstreamReader and SBitfield use, and the view of a word as bytes in memory.
 */
module Words {

  type Word = w: seq<bool> | |w| == 32 witness seq(32, _ => false)
  type Byte = b: seq<bool> | |b| == 8 witness seq(8, _ => false)

  const ZERO: Word := Zeros(32)
  const ZERO_BYTE: Byte := Zeros(8)

  const SIZE_T := 0x1_0000_0000

  /** size_t arithmetic wraps around. */
  function Wrap(x: int): (r: nat)
    ensures r < SIZE_T && (0 <= x < SIZE_T ==> r == x)
  {
    x % SIZE_T
  }

  function Zeros(n: nat): (r: seq<bool>)
    ensures |r| == n && forall i | 0 <= i < n :: !r[i]
  {
    seq(n, _ => false)
  }

  function Ones(n: nat): (r: seq<bool>)
    ensures |r| == n && forall i | 0 <= i < n :: r[i]
  {
    seq(n, _ => true)
  }

  // C leaves a shift of a 32-bit word by 32 or more undefined, hence the preconditions.
  function Shl(w: Word, n: nat): Word
    requires n < 32
  {
    w[n..] + Zeros(n)
  }

  function Shr(w: Word, n: nat): Word
    requires n < 32
  {
    Zeros(n) + w[..32 - n]
  }

  function Or(a: Word, b: Word): Word {
    seq(32, i requires 0 <= i < 32 => a[i] || b[i])
  }

  function And(a: Word, b: Word): Word {
    seq(32, i requires 0 <= i < 32 => a[i] && b[i])
  }

  function Xor(a: Word, b: Word): Word {
    seq(32, i requires 0 <= i < 32 => a[i] != b[i])
  }

  function Not(a: Word): Word {
    seq(32, i requires 0 <= i < 32 => !a[i])
  }

  /** Byte k of a word, counting from the most significant one. */
  function ByteAt(w: Word, k: nat): Byte
    requires k < 4
  {
    w[8 * k..8 * k + 8]
  }

  // ---- words in memory -------------------------------------------------------------

  function Join(a: Byte, b: Byte, c: Byte, d: Byte): Word {
    var s: seq<bool> := a;
    s + b + c + d
  }

  /** The word held by four bytes at ascending addresses. */
  function LoadWord(littleEndian: bool, bytes: seq<Byte>): Word
    requires |bytes| == 4
  {
    if littleEndian then Join(bytes[3], bytes[2], bytes[1], bytes[0])
    else Join(bytes[0], bytes[1], bytes[2], bytes[3])
  }

  /** The word after the byte at address k of its four bytes has been overwritten. */
  function StoreByte(littleEndian: bool, w: Word, k: nat, b: Byte): Word
    requires k < 4
  {
    if littleEndian then w[..24 - 8 * k] + b + w[32 - 8 * k..]
    else w[..8 * k] + b + w[8 * k + 8..]
  }

  /** SWAP_INT32, in the exact operators of the macro. */
  function SwapInt32(littleEndian: bool, w: Word): Word {
    if !littleEndian then w
    else
      var swapped := Xor(w, Or(Shl(w, 16), Shr(w, 16)));
      var masked := And(swapped, Ones(8) + Zeros(8) + Ones(16));
      Xor(Shr(masked, 8), Or(Shr(w, 8), Shl(w, 24)))
  }

  /** On a little-endian machine the macro reverses the four bytes of the word. */
  lemma SwapReversesBytes(w: Word, j: nat)
    requires j < 4
    ensures ByteAt(SwapInt32(true, w), j) == ByteAt(w, 3 - j)
  {
    var r := SwapInt32(true, w);
    forall t | 0 <= t < 8
      ensures ByteAt(r, j)[t] == ByteAt(w, 3 - j)[t]
    {
      SwappedBit(w, 8 * j + t);
      assert ByteAt(w, 3 - j)[t] == w[8 * (3 - j) + t];
    }
  }

  lemma SwappedBit(w: Word, i: nat)
    requires i < 32
    ensures SwapInt32(true, w)[i] == w[if i < 8 then i + 24 else if i < 16 then i + 8 else if i < 24 then i - 8 else i - 24]
  {
    var swapped := Xor(w, Or(Shl(w, 16), Shr(w, 16)));
    assert forall k | 0 <= k < 32 :: swapped[k] == (w[k] != if k < 16 then w[k + 16] else w[k - 16]);
    var masked := And(swapped, Ones(8) + Zeros(8) + Ones(16));
    assert forall k | 0 <= k < 32 :: masked[k] == (swapped[k] && (k < 8 || k >= 16));
    assert Shr(masked, 8)[i] == (i >= 8 && masked[i - 8]);
    assert Or(Shr(w, 8), Shl(w, 24))[i] == if i < 8 then w[i + 24] else w[i - 8];
  }

  /** The byte at address k is the only one that a store to address k changes. */
  lemma StoredInMemory(littleEndian: bool, w: Word, k: nat, b: Byte, j: nat)
    requires k < 4 && j < 4
    ensures var m := if littleEndian then 3 - j else j;
            ByteAt(StoreByte(littleEndian, w, k, b), m) == if j == k then b else ByteAt(w, m)
  {
    var m := if littleEndian then 3 - j else j;
    var r := StoreByte(littleEndian, w, k, b);
    forall t | 0 <= t < 8
      ensures ByteAt(r, m)[t] == (if j == k then b else ByteAt(w, m))[t]
    {
      assert ByteAt(r, m)[t] == r[8 * m + t];
    }
  }

  /** After the swap, byte k in memory order is byte k from the most significant end. */
  lemma StoredBytes(littleEndian: bool, w: Word, k: nat, b: Byte, j: nat)
    requires k < 4 && j < 4
    ensures ByteAt(SwapInt32(littleEndian, StoreByte(littleEndian, w, k, b)), j)
            == if j == k then b else ByteAt(SwapInt32(littleEndian, w), j)
  {
    StoredInMemory(littleEndian, w, k, b, j);
    var stored := StoreByte(littleEndian, w, k, b);
    if littleEndian {
      SwapReversesBytes(w, j);
      SwapReversesBytes(stored, j);
    }
  }

  lemma LoadedBytes(littleEndian: bool, bytes: seq<Byte>, j: nat)
    requires |bytes| == 4 && j < 4
    ensures ByteAt(SwapInt32(littleEndian, LoadWord(littleEndian, bytes)), j) == bytes[j]
  {
    if littleEndian {
      SwapReversesBytes(LoadWord(true, bytes), j);
    }
  }

  lemma SwappedZero(littleEndian: bool, j: nat)
    requires j < 4
    ensures ByteAt(SwapInt32(littleEndian, ZERO), j) == ZERO_BYTE
  {
    if littleEndian {
      SwapReversesBytes(ZERO, j);
    }
  }

  // ---- a window of two words -------------------------------------------------------

  /** Byte j of the eight bytes of a two-word window. */
  function WindowByte(hi: Word, low: Word, j: nat): Byte
    requires j < 8
  {
    if j < 4 then ByteAt(hi, j) else ByteAt(low, j - 4)
  }

  /** The 64 bits of a two-word window. */
  function Window(hi: Word, low: Word): (r: seq<bool>)
    ensures |r| == 64
  {
    var s: seq<bool> := hi;
    s + low
  }

  lemma WindowByteShifted(hi: Word, low: Word, k: nat, j: nat)
    requires 1 <= k <= 3 && j < 8
    ensures WindowByte(Shr(hi, 8 * k), Or(Shr(low, 8 * k), Shl(hi, 32 - 8 * k)), j)
            == if j < k then ZERO_BYTE else WindowByte(hi, low, j - k)
  {
    var hi' := Shr(hi, 8 * k);
    var low' := Or(Shr(low, 8 * k), Shl(hi, 32 - 8 * k));
    var r := WindowByte(hi', low', j);
    forall t | 0 <= t < 8
      ensures r[t] == (if j < k then ZERO_BYTE else WindowByte(hi, low, j - k))[t]
    {
      if j < 4 {
        assert r[t] == hi'[8 * j + t];
      } else {
        var i := 8 * (j - 4) + t;
        assert r[t] == low'[i];
        assert low'[i] == (Shr(low, 8 * k)[i] || Shl(hi, 32 - 8 * k)[i]);
      }
    }
  }

  /** Shifting a 64-bit window right by whole bytes, as two 32-bit halves. */
  lemma WindowShifted(hi: Word, low: Word, shift: nat, hi': Word, low': Word)
    requires shift % 8 == 0 && 8 <= shift <= 24
    requires hi' == Shr(hi, shift) && low' == Or(Shr(low, shift), Shl(hi, 32 - shift))
    ensures forall j | 0 <= j < 8 ::
              WindowByte(hi', low', j)
              == if j < shift / 8 then ZERO_BYTE else WindowByte(hi, low, j - shift / 8)
  {
    hide Shl, Shr, Or, WindowByte;
    var k := shift / 8;
    assert shift == 8 * k;
    forall j | 0 <= j < 8
      ensures WindowByte(hi', low', j) == if j < k then ZERO_BYTE else WindowByte(hi, low, j - k)
    {
      WindowByteShifted(hi, low, k, j);
    }
  }

  /**
    The extraction that PeekBits and GetBits perform: `bits` bits of the window from bit
    `offset`, right-justified in a word.
   */
  function Extract(hi: Word, low: Word, offset: nat, bits: nat): Word
    requires offset < 32 && 1 <= bits <= 32
  {
    var result := Shl(hi, offset);
    var joined := if bits > 32 - offset then Or(result, Shr(low, 32 - offset)) else result;
    Shr(joined, 32 - bits)
  }

  lemma ExtractIsSlice(hi: Word, low: Word, offset: nat, bits: nat)
    requires offset < 32 && 1 <= bits <= 32
    ensures Extract(hi, low, offset, bits) == Zeros(32 - bits) + Window(hi, low)[offset..offset + bits]
  {
    var r := Extract(hi, low, offset, bits);
    forall i | 0 <= i < 32
      ensures r[i] == (Zeros(32 - bits) + Window(hi, low)[offset..offset + bits])[i]
    {
      if i >= 32 - bits {
        var k := i - (32 - bits);
        var result := Shl(hi, offset);
        if bits > 32 - offset {
          var joined := Or(result, Shr(low, 32 - offset));
          assert joined[k] == (result[k] || Shr(low, 32 - offset)[k]);
          assert r[i] == joined[k];
        } else {
          assert r[i] == result[k];
        }
      }
    }
  }
}
