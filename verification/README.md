# Verified model of the OpenBinder support kit's hand-written cores

The support kit of OpenBinder keeps several small pieces of hand-optimised, stateful or concurrent
code in its headers. This project models those pieces in Dafny and proves what they are for.

**`SBitstreamReader`** (`Words`, `Streams`, `Windows`, `Buffers`, `BitstreamReaders`, `ReaderRuns`)
reads bits from a list of byte fragments through a 64-bit big-endian window. It refills forwards with
alignment padding, refills backwards, slides by a word, seeks, rewinds and searches. The model keeps
addresses (so `ptr & 3` is real), both byte orders, the window words and the fragment cursor. `Windows`
says what all that amounts to: the stream byte the window starts at, the offset of the cursor, and the
stream as the window shows it, as functions of the fragments and the operations. The class refines these
functions, operation by operation and for every fragment list; the rest is proved of them:

- whole runs, from the source to the last result, are the foreseen ones (`RunOverChain`), and equal to
  those of a naive reader over the flat bytes exactly when every read is right (`NaiveIffRight`), which
  narrow runs over every chain, forward runs over one buffer, and sound runs both ways always are;
- searches find the first (or last) occurrence and report failure only when there is none.

Four plain claims are false of the code. In each case an input is given and the exact condition proved:

- Padding can push the offset to 32 or more, where the next read shifts a word by more than its
  width. `GetBits` says exactly when; `PaddingOverflowsFirstWord` is an input.
- Rewinding behind a seek that padded shows zeros. `ReadBehindSeek` says exactly when the bits read there
  are right, for every width; the searches search what the window shows. `SeekHidesBytes` is an input.
- `fill_reverse` walks back without asking whether the fragment that it enters has a byte. In front of
  an empty one it reads the byte before its pointer, wherever that is, and goes on. `SlipIff` says exactly
  when the window then misses its place, `SoundIff` exactly when it is right, and `RewindFate` exactly
  when the walk strays to an address in no fragment or the cursor runs off the last one. Over contiguous
  memory an empty buffer at byte 1 of a word is harmless and one at byte 2 or 3 moves the position
  (`RewindOverEmptyBuffer`); default buffers lead to the address before null (`RewindOverNullBuffers`).
- `BytePosition` is `BitPosition` rounded up exactly while the cursor is inside the cached data; past
  the end it is off by an eighth of the range of `size_t` (`BytePositionPastEnd`).

**`SBufferChain`** (`BufferChains`) is an intrusive linked list with a free list; both share one pool of
nodes. Each operation refines an operation on sequences, both lists stay acyclic and disjoint, and
destruction deletes every node once. `AppendBuffer` keeps the chain well formed if and only if the
buffer is unlinked; a chain appended to itself is never done (`AppendItself`), and assigned to itself it
becomes empty.

**`sptr` with `SLimAtom` and `SSharedBuffer`** (`RefCounts`) is a machine of atomic steps: any number of
holders, any interleaving, with the adopting rules of `sptr<SSharedBuffer>` and the read-then-delete
fast path of `DecUsers`. `Operations` proves of that machine what every operation comes to, whatever the
others do meanwhile: it can always go on, it ends with the pointers that its operands say, it moves
exactly the references that it is to move, and it deletes an object if and only if it took the last one
(`EveryOperationEnds`); and from every state everything can still be released. `Cascades` follows one
release through the members of the deleted objects and shows that it deletes exactly the unreachable
objects if and only if no unreachable objects support each other; in particular it does so in every
acyclic heap. `Members` joins the two: smart pointers that are members of counted objects, in every
interleaving, destroyed with their objects while other threads go on. Assignment reads its source a
second time after releasing the old object, so `p = p->next` deletes the node whose member it has yet to
read. `Members.EveryRunIsSafeIffRaceFree` proves that deleting an object whose member is in use is the
only way to go wrong, and `RereadIsLiveIffHeld` that in an acyclic heap this assignment does so if and
only if nothing but `p` holds the node.

**`SAtom` with `wptr`** (`WeakAtoms`) is the machine of the weak and the strong count, with the offset
that marks an atom which never had a strong reference. Its documentation says that a successful
`AttemptIncStrong` has acquired a reference. That fails when attempts for the first strong reference
overlap: one of them can read the count before the other has subtracted the offset and report success
without counting, or increment after the other has come and gone. `EveryRunIsSafeIffRaceFree` proves
that these are the only ways, besides counting a plain pointer after the last release: a run is safe
throughout if and only if no step of it is one of those three. `OrderlyRunsAreSafe` gives the rule that
callers can follow; `DestroyedWhileHeld` and `LateIncrement` end runs that break it, and so does
`ClaimAfterRelease`. `WeakOperations` proves that without a race `promote` is lock-free and ends with a
new reference, unless the strong references are all gone.

**`BDebugCondition`, `BDebugInteger`, `BDebugState`** (`OneTimeInits`) initialise a static once, without
a lock. `FirstDestructorDeletes` says exactly when the destructor deletes the object: a construction
that it overtakes is never deleted.

**`SBitfield`** (`Bitfields`) is a vector of bits in one inline word or in an array; `InsideIff` and
`Resize` say exactly which calls write outside that array.

Concurrent code is modelled as a step relation over sequentially consistent memory; code that updates
fields in place is a class; loops are loops. `dafny verify dfyconfig.toml` checks everything.

## Model

| member | source | states |
|---|---|---|
| `Words.SwapReversesBytes` | headers/support/BitstreamReader.h:26-36 | the xor-and-rotate byte swap reverses the four bytes of a word on little-endian machines and changes nothing on others |
| `Words.StoredBytes` | headers/support/BitstreamReader.h:184-203 | bytes stored one by one and then swapped are the big-endian bytes of the word, for both byte orders |
| `Words.LoadedBytes` | headers/support/BitstreamReader.h:325-328 | a word loaded at once and then swapped has the bytes of memory in order, for both byte orders |
| `Words.ExtractIsSlice` | headers/support/BitstreamReader.h:465-477 | the two shifts that extract up to 32 bits give exactly those bits of the 64-bit window, right aligned, for every offset below 32 |
| `Streams.TableScatters` | headers/support/BitstreamReader.h:388-428 | the table with running offsets lays out the concatenation of the buffers, empty ones included, without gap or overlap |
| `Streams.PaddingIsLayout` | headers/support/BitstreamReader.h:105-216 | the padding of a refill depends on the layout and the stream position only, not on how the reader got there |
| `Streams.CongruentNeedsNoPadding` | headers/support/BitstreamReader.h:165-182 | over a layout that is contiguous modulo four, a refill that starts on a word boundary never pads, for every fragmentation |
| `Streams.WordBlocksAreInStep` | headers/support/BitstreamReader.h:388-428 | word-aligned buffers of whole words, but for the size of the last, are such a layout |
| `Streams.SeekPaddingBound` | headers/support/BitstreamReader.h:165-182 | the two refills of a seek pad by at most three bytes together, for every layout |
| `Streams.CongruentPadding` | headers/support/BitstreamReader.h:165-182 | over a layout that is contiguous modulo four nothing is padded from a word boundary on |
| `Windows.SlidPosition` | headers/support/BitstreamReader.h:312-349 | sliding conserves the position if and only if a whole word is cached, so always on the stream, and takes at least eight bits off the offset |
| `Windows.SlidSees` | headers/support/BitstreamReader.h:312-349 | a window that shows the stream from its cursor on still does after a slide, whatever padding comes in |
| `Windows.AdvancedWell` | headers/support/BitstreamReader.h:479-516 | reads and skips conserve the position inside the stream, end at or past its end beyond it, hide nothing ahead, and keep the cursor in the first word for up to eight bits |
| `Windows.SlidAllWell` | headers/support/BitstreamReader.h:518-526 | so do skips of any count |
| `Windows.FetchOwn` | headers/support/BitstreamReader.h:250-271 | if the fragments agree where they overlap, every byte of a fragment is what its address holds |
| `Windows.SlipIff` | headers/support/BitstreamReader.h:250-310 | the walk over the bytes before a place keeps its place if and only if it enters no empty fragment, but the first one, before its last byte |
| `Windows.SlipBounds` | headers/support/BitstreamReader.h:250-310 | it never misses by a whole word, so every refill moves the window back |
| `Windows.WalkReads` | headers/support/BitstreamReader.h:250-271 | a walk that keeps its place has read the stream, but for a last byte in front of an empty fragment |
| `Windows.CleanIsSound` | headers/support/BitstreamReader.h:250-310 | a walk that enters no empty fragment refills the window rightly |
| `Windows.SoundIff` | headers/support/BitstreamReader.h:250-310 | a refill that does not stray is right if and only if the walk keeps its place and the byte in front of an empty fragment, where it ends there, happens to be the stream's |
| `Windows.RewoundPosition` | headers/support/BitstreamReader.h:538-558 | a rewind moves the position back by its count and forward again by what the walk misses |
| `Windows.RewoundSees` | headers/support/BitstreamReader.h:538-558 | after a sound refill, or none, the position is right and everything before the new end of the window is shown as before |
| `Windows.LandsOnce` | headers/support/BitstreamReader.h:227-248 | where the first loop of the refill comes to rest is a function of the layout |
| `Windows.SlidSteady` | headers/support/BitstreamReader.h:312-349 | over congruent fragments sliding from a word boundary pads nothing and hides nothing |
| `Windows.RewoundLevel` | headers/support/BitstreamReader.h:538-558 | over congruent fragments a sound rewind keeps the window on word boundaries, showing the stream |
| `Windows.FreshWell` | headers/support/BitstreamReader.h:662-685 | after every seek the offset is at most 24, the position is the target and the stream is shown from there on |
| `Windows.FreshOne` | headers/support/BitstreamReader.h:662-685 | over one buffer a seek leads to word boundaries, and to its start with nothing hidden |
| `Buffers.Buffer.Assign` | headers/support/Buffer.h:113-120 | assignment copies the data and also the link |
| `Buffers.Buffer.ChainSize` | headers/support/Buffer.h:46-54 | the length of the concatenated chain |
| `Buffers.Buffer.CopyTo` | headers/support/Buffer.h:57-86 | the destination holds the slice of the concatenated chain, and is unchanged behind it; the count is what was asked for, or all there is from the offset on; a null destination is refused |
| `BitstreamReaders.FragmentTable` | headers/support/BitstreamReader.h:388-428 | the loop that builds the table yields one fragment for each buffer, laying out the concatenated chain |
| `BitstreamReaders.BitstreamReader.SetSource` | headers/support/BitstreamReader.h:430-457 | the reader over one buffer has the window of a seek to its start |
| `BitstreamReaders.BitstreamReader.SetSourceChain` | headers/support/BitstreamReader.h:388-428 | the same over a chain, for the concatenated bytes |
| `BitstreamReaders.BitstreamReader.SkipEmptyFragments` | headers/support/BitstreamReader.h:119-132 | the cursor moves over empty fragments without losing its stream position or the padding to come |
| `BitstreamReaders.BitstreamReader.DrainShortFragments` | headers/support/BitstreamReader.h:116-141 | bytes of fragments too short for what is wanted enter the word in stream order; the padding to come is unchanged |
| `BitstreamReaders.BitstreamReader.ReadToBoundary` | headers/support/BitstreamReader.h:143-197 | the missing bytes enter the word in stream order; where there is room, reading stops on a word boundary, the rest of the word becomes padding and the offset grows by it |
| `BitstreamReaders.BitstreamReader.SwapAndShift` | headers/support/BitstreamReader.h:199-212 | after the swap and the shift the window holds the bytes read behind the padding, and the first word keeps its other bytes in order |
| `BitstreamReaders.BitstreamReader.FillForward` | headers/support/BitstreamReader.h:105-216 | for every fragment list the refilled word holds the next stream bytes behind the padding, the offset grows by exactly the padding, the count is what was taken plus the padding, and it is short only at the end of the stream |
| `BitstreamReaders.BitstreamReader.NextWord` | headers/support/BitstreamReader.h:312-349 | start, offset and everything shown by the next window are what the layout predicts: a word on less the padding, which shows zeros |
| `BitstreamReaders.BitstreamReader.SlideAligned` | headers/support/BitstreamReader.h:321-329 | the branch of the aligned read |
| `BitstreamReaders.BitstreamReader.SlideRefilled` | headers/support/BitstreamReader.h:330-338 | the branch of the refill, with its padding |
| `BitstreamReaders.BitstreamReader.SlideShort` | headers/support/BitstreamReader.h:339-347 | the branch at the end of the data |
| `BitstreamReaders.BitstreamReader.FillWindow` | headers/support/BitstreamReader.h:448-454 | a fresh window shows zeros for the padding that the layout prescribes, then the stream |
| `BitstreamReaders.BitstreamReader.PeekBits` | headers/support/BitstreamReader.h:465-477 | the bits that the window shows at the position, whatever the fragmentation |
| `BitstreamReaders.BitstreamReader.Advance` | headers/support/BitstreamReader.h:490-494 | the offset moves on and the window slides when its first word is used up: the window is the predicted one, the position exact inside the stream, and beyond it nothing is available |
| `BitstreamReaders.BitstreamReader.GetBits` | headers/support/BitstreamReader.h:479-496 | the bits shown at the position, those of the stream unless the cursor is in padding, moving on by the count; the offset stays below 32 if and only if the padding leaves room, always for up to eight bits |
| `BitstreamReaders.BitstreamReader.SkipBit` | headers/support/BitstreamReader.h:498-506 | moves on by one bit, for every fragment list; at the end and past it nothing is available |
| `BitstreamReaders.BitstreamReader.SkipByte` | headers/support/BitstreamReader.h:508-516 | moves on by eight bits, for every fragment list; at the end and past it nothing is available |
| `BitstreamReaders.BitstreamReader.SkipBits` | headers/support/BitstreamReader.h:518-526 | terminates for every count, fragmentation and alignment with the offset below 32 and the predicted window; inside the stream the position is exact, beyond it nothing is available |
| `BitstreamReaders.BitstreamReader.SkipToByteBoundary` | headers/support/BitstreamReader.h:528-536 | rounds the stream position up to a byte, although the code rounds the offset in the window |
| `BitstreamReaders.BitstreamReader.BitsAvailable` | headers/support/BitstreamReader.h:73-77 | never more than the bits left, and when it is 32 or less it is exactly the bits left of the whole stream; it counts the bits up to the last byte taken from the fragments |
| `BitstreamReaders.BitstreamReader.SetBytePosition` | headers/support/BitstreamReader.h:662-685 | succeeds exactly up to the length of the stream, with a fresh window there; otherwise nothing changes |
| `BitstreamReaders.BitstreamReader.SetBitPosition` | headers/support/BitstreamReader.h:687-702 | succeeds exactly for the bit positions of the stream, its end included; a failed seek stays, or ends up at the end when only the bit is out of range |
| `BitstreamReaders.BitstreamReader.BitPosition` | headers/support/BitstreamReader.h:652-660 | the abstract position, as a size_t |
| `BitstreamReaders.BitstreamReader.BytePosition` | headers/support/BitstreamReader.h:643-650 | the position rounded up to a byte, less an eighth of the range of size_t when the cursor is past the cached data |
| `BitstreamReaders.BitstreamReader.ByteLength` | headers/support/BitstreamReader.h:704-713 | the length of the stream |
| `BitstreamReaders.BitstreamReader.RewindCursor` | headers/support/BitstreamReader.h:227-248 | the loop finds the place of the first cached byte, across any number of fragments |
| `BitstreamReaders.BitstreamReader.StepBack` | headers/support/BitstreamReader.h:253-266 | one byte back; entering a fragment it stands in front of it, outside its memory, if and only if that is empty |
| `BitstreamReaders.BitstreamReader.ReadBackwards` | headers/support/BitstreamReader.h:250-271 | the bytes of the walk enter the word from its end, wherever they are in memory; it strays exactly if one of their addresses is in no fragment |
| `BitstreamReaders.BitstreamReader.AdvanceCursor` | headers/support/BitstreamReader.h:286-306 | the loop moves the cursor behind the cached data, and runs off the last fragment exactly if that is behind the end of the stream |
| `BitstreamReaders.BitstreamReader.FillReverse` | headers/support/BitstreamReader.h:218-310 | the word that the walk has read is in front, and the window starts where its misses leave it; stray and lost cursors exactly as the layout says |
| `BitstreamReaders.BitstreamReader.RewindBits` | headers/support/BitstreamReader.h:538-558 | for every fragment list: how the call ends, and the window and position it leaves; the position is right exactly if nothing was refilled or the walk kept its place |
| `BitstreamReaders.BitstreamReader.Find` | headers/support/BitstreamReader.h:560-571 | stops at the first occurrence at or after the position in what the window shows, which is the stream unless the cursor is in padding; fails only if there is none, and then ends at the first place with too few bits left |
| `BitstreamReaders.BitstreamReader.FindByteAligned` | headers/support/BitstreamReader.h:573-586 | the same over the starts of bytes, also where a failed search ends |
| `BitstreamReaders.BitstreamReader.FindReverse` | headers/support/BitstreamReader.h:588-609 | stops at the last occurrence that ends at or before the position in what the window shows, and fails only if there is none, unless it is snagged: exactly if a refill that is not right comes before the last occurrence; a failed search ends at the start of the stream |
| `BitstreamReaders.BitstreamReader.FindByteAlignedReverse` | headers/support/BitstreamReader.h:611-635 | the same over the starts of bytes, in the stream with the padding of the seek it begins with set to zero |
| `ReaderRuns.Perform` | headers/support/BitstreamReader.h:465-702 | over any fragments one operation leaves the foretold window and returns the foreseen result: for a read what the window shows, or undefined at an offset of 32 or more |
| `ReaderRuns.Run` | headers/support/BitstreamReader.h:388-702 | so does every run whose rewinds return |
| `ReaderRuns.ForecastWell` | headers/support/BitstreamReader.h:465-702 | every foretold window is one on the stream, and moves as the naive reader does if its rewinds keep their place |
| `ReaderRuns.NaiveIffRight` | headers/support/BitstreamReader.h:388-702 | then the foreseen run ends at the naive position and returns the naive results if and only if every read finds its cursor in the first word and the stream shown there |
| `ReaderRuns.NarrowIsRight` | headers/support/BitstreamReader.h:479-536 | over every layout forward runs that take at most eight bits at a time are right |
| `ReaderRuns.ForwardIsRight` | headers/support/BitstreamReader.h:479-536 | over one buffer all forward runs are right |
| `ReaderRuns.SoundIsRight` | headers/support/BitstreamReader.h:218-702 | over congruent fragments runs that seek to word boundaries and refill soundly are right |
| `ReaderRuns.RunOverChain` | headers/support/BitstreamReader.h:388-702 | end to end over every chain: results and position are the foreseen ones; if the rewinds keep their place the position is the naive one, and the results are if and only if every read is right |
| `ReaderRuns.RunNarrow` | headers/support/BitstreamReader.h:388-702 | forward runs that take at most eight bits at a time are the naive run over every chain |
| `ReaderRuns.RunOverBuffer` | headers/support/BitstreamReader.h:430-702 | over one buffer of any length and address forward runs with reads of up to 32 bits are the naive run |
| `ReaderRuns.RunBothWays` | headers/support/BitstreamReader.h:218-702 | over one buffer, with seeks into the first byte or into word-aligned bytes: reads, skips, seeks and rewinds mixed freely are the naive run |
| `ReaderRuns.RunBothWaysOverChain` | headers/support/BitstreamReader.h:218-702 | the same over every chain whose addresses are their stream offsets modulo four, if the rewinds of the run refill soundly |
| `ReaderRuns.RewindLeavesNoTrace` | headers/support/BitstreamReader.h:538-558 | reading n bits and rewinding them anywhere in a run of the reader leaves all its other results and its final position as they are without |
| `ReaderRuns.ReadAllBytes` | headers/support/BitstreamReader.h:388-496 | reading any chain to its end eight bits at a time yields its concatenated bytes |
| `ReaderRuns.ReadAllAgreesWithCopyTo` | headers/support/Buffer.h:46-86 | the reader and CopyTo over ChainSize bytes yield the same bytes for every chain |
| `ReaderRuns.PaddingOverflowsFirstWord` | headers/support/BitstreamReader.h:165-182 | for two buffers with the second at an odd address, reading 31 and 32 bits leaves the offset at 55 with the position right; skipping nothing repairs it |
| `ReaderRuns.ReadBehindSeek` | headers/support/BitstreamReader.h:545-553 | the n bits before a seek's target, for n up to 32, after a sound refill or none: read right if and only if the stream's own bits in the padding are zero |
| `ReaderRuns.RewindAndPeek` | headers/support/BitstreamReader.h:465-558 | rewinding and reading n bits, after a sound refill or none, yields what the window showed there |
| `ReaderRuns.OddBuffer` | headers/support/BitstreamReader.h:165-182 | a seek to the third byte of a buffer at address 1 pads by three bytes |
| `ReaderRuns.SeekHidesBytes` | headers/support/BitstreamReader.h:545-547 | there the byte before the target is read wrong |
| `ReaderRuns.EmptyMissesWord` | headers/support/BitstreamReader.h:255-266 | over contiguous memory in three buffers, the middle one empty, the walk back over the first word misses by a byte exactly if the empty buffer stands at byte 2 or 3; otherwise the refill is right, also at byte 1 where it enters the empty buffer |
| `ReaderRuns.RewindOverEmptyBuffer` | headers/support/BitstreamReader.h:250-310 | so reading a word and rewinding a byte leaves the position at 32 instead of 24 there, or loses the cursor if there are only eight bytes, and is right otherwise |
| `ReaderRuns.RewindOverNullBuffers` | headers/support/BitstreamReader.h:263-268 | with two default buffers between two words, the rewind reads the address before the null pointer |
| `ReaderRuns.BytePositionPastEnd` | headers/support/BitstreamReader.h:643-660 | over one byte, after skipping nine bits, the bit position is 9 and the byte position is 2 less an eighth of the range of size_t |
| `BufferChains.BufferChain.Alloc` | headers/support/BufferChain.h:86-105 | four fresh linked nodes become the free list; refused exactly while there is one |
| `BufferChains.BufferChain.Next` | headers/support/BufferChain.h:71-84 | one unlinked node leaves the free list, which is refilled when empty; the rest stays well formed |
| `BufferChains.BufferChain.AppendBuffer` | headers/support/BufferChain.h:214-233 | appends a copy; the chain stays well formed if and only if the buffer is unlinked |
| `BufferChains.BufferChain.AppendRound` | headers/support/BufferChain.h:257-291 | one round appends a copy; a source inside the chain always leads to another round inside the chain |
| `BufferChains.BufferChain.AppendItself` | headers/support/BufferChain.h:257-291 | after any number of rounds of a chain appended to itself there is another one to make |
| `BufferChains.BufferChain.AppendChain` | headers/support/BufferChain.h:257-291 | appends copies of all buffers in order and links into none of the source's nodes |
| `BufferChains.BufferChain.AppendChainOf` | headers/support/BufferChain.h:257-291 | appends the contents of another chain, which is unchanged |
| `BufferChains.BufferChain.PrependBuffer` | headers/support/BufferChain.h:235-255 | puts a copy in front, for linked and unlinked buffers alike |
| `BufferChains.BufferChain.PrependChain` | headers/support/BufferChain.h:293-328 | puts copies in front in reverse order, even of the chain itself |
| `BufferChains.BufferChain.PrependChainOf` | headers/support/BufferChain.h:293-328 | puts the contents of a chain in front in reverse order; another chain is unchanged |
| `BufferChains.BufferChain.RemoveFirst` | headers/support/BufferChain.h:330-348 | drops the first buffer into the free list; refused exactly on an empty chain |
| `BufferChains.BufferChain.MakeEmpty` | headers/support/BufferChain.h:200-212 | the used list becomes the front of the free list |
| `BufferChains.BufferChain.AssignChain` | headers/support/BufferChain.h:177-191 | a copy of the other chain, which is unchanged; assigned to itself the chain becomes empty |
| `BufferChains.BufferChain.Size` | headers/support/BufferChain.h:356-367 | the length of the concatenated contents |
| `BufferChains.BufferChain.Destroy` | headers/support/BufferChain.h:132-141 | four nodes for each allocation are deleted, each exactly once |
| `BufferChains.Perform` | headers/support/BufferChain.h:71-348 | each operation is its operation on sequences and keeps both lists well formed |
| `BufferChains.Run` | headers/support/BufferChain.h:71-348 | every run is the run on sequences, and its destructor deletes every node ever allocated exactly once |
| `RefCounts.StepIsSafe` | headers/support/Atom.h:923-980 | a step that is local to some holders and concerns one object keeps the invariant if it keeps it for those |
| `RefCounts.GainFromSlot` | headers/support/Atom.h:926-946 | counting a pointer that was read from another holder keeps the invariant, whatever the others do meanwhile |
| `RefCounts.GainFromNew` | headers/support/Atom.h:926-935 | the holder that counts a new object first is the only one to know it |
| `RefCounts.CountKeeps` | headers/support/Atom.h:926-938 | the increment after a constructor has stored its pointer keeps the invariant |
| `RefCounts.IncrementTargetKeeps` | headers/support/Atom.h:928-946 | the increment of the new object in an assignment keeps the invariant |
| `RefCounts.LastDecrementKeeps` | headers/support/Atom.h:624 | a decrement that finds one makes this holder the only one to delete the object |
| `RefCounts.DeleteUncountedKeeps` | libraries/libbinder/support/SharedBuffer.cpp:199-211 | deleting after a plain read of one, without an atomic decrement, is safe in every interleaving |
| `RefCounts.StoreKeeps` | headers/support/Atom.h:944 | reading the source again for the store finds the pointer that was counted, as long as nobody changes the source meanwhile |
| `RefCounts.AdoptKeeps` | headers/support/SharedBuffer.h:229-233 | constructing from a raw buffer takes over its reference without counting |
| `RefCounts.AdoptAssignKeeps` | headers/support/SharedBuffer.h:235-241 | so does assigning a raw buffer, while the old one is released |
| `RefCounts.DetachKeeps` | headers/support/Atom.h:980 | a detached pointer carries the reference |
| `RefCounts.StepKeeps` | headers/support/Atom.h:613-980 | every step of every holder keeps the invariant |
| `RefCounts.EveryRunIsSafe` | headers/support/Atom.h:613-980 | in every interleaving the count of a live object is the number of references of holders and operations in flight, no object is deleted twice, no settled holder names a deleted one |
| `RefCounts.NoUseAfterDelete` | headers/support/Atom.h:928-964 | what an operation in flight is about to count, release, delete or store is alive |
| `RefCounts.DeletedExactlyAtZero` | headers/support/Atom.h:624 | a deletion leaves no reference behind, and the step that takes the last reference puts the object into the hands of its deleter |
| `RefCounts.AtRest` | headers/support/Atom.h:613-640 | with nothing in flight the deleted objects are exactly the unnamed ones: nothing leaks |
| `RefCounts.SelfAssignment` | headers/support/Atom.h:939-946 | assigning a smart pointer to itself restores the state it started from |
| `Operations.BegunAsMeant` | headers/support/Atom.h:926-980 | every constructor, assignment, adoption, detachment and destructor sets out for what its operands say: which pointer each of its holders is to name, or that it is to go |
| `Operations.GoesOn` | headers/support/Atom.h:926-964 | each further step keeps to that, comes closer to the end and changes no other holder |
| `Operations.CanGoOn` | headers/support/Atom.h:926-964 | an operation in flight can always take its next step, whatever the others have done |
| `Operations.PeekDecides` | libraries/libbinder/support/SharedBuffer.cpp:199-211 | a release that looks at the count first deletes without a decrement if and only if it saw one, whatever others do in between |
| `Operations.TakerDeletes` | headers/support/Atom.h:613-640 | the step that takes the last reference away deletes the object or makes its holder do so next; no other step deletes |
| `Operations.OperationEnds` | headers/support/Atom.h:926-980 | in every interleaving an operation in flight ends as foreseen within a bounded number of its own steps; these change the references by what its holder gains or gives up, and delete as often as they took a last reference away |
| `Operations.EveryOperationEnds` | headers/support/Atom.h:926-980 | from its start in any reachable state: when a construction or assignment from p is through, its slot names p and p has one reference more, the old object one fewer; an adoption or detachment moves the pointer and no count; a destructor removes its holder; an object is deleted if and only if its last reference was taken |
| `Operations.DropTakesEffect` | headers/support/Atom.h:964 | a destructor can start on a settled holder that nobody reads, needs at most three more steps, and gives up exactly one reference, deleting the object if and only if that was the last one |
| `Operations.OwnersMayBegin` | headers/support/Atom.h:926-980 | what the owner of a settled holder may start |
| `Operations.ObjectsAreMade` | headers/support/Atom.h:613-640 | new objects begin with a count of zero, allocated buffers with one and a raw reference |
| `Operations.EverythingCanBeReleased` | headers/support/Atom.h:613-980 | from every reachable state, in the middle of whatever operations, a run leads to the end at which no holder is left and every object has been deleted exactly once |
| `Cascades.ReleaseKeeps` | headers/support/Atom.h:624 | a release with all that it sets off leaves exact counts, no dangling member, and survivors as they were |
| `Cascades.SelfSupportingSurvives` | headers/support/Atom.h:963-964 | objects that support each other survive every release from outside |
| `Cascades.ReleaseDeletesTheUnreachable` | headers/support/Atom.h:624 | what stays reachable survives; only that survives if and only if no unreachable objects support each other |
| `Cascades.AcyclicHeapsDoNotLeak` | headers/support/Atom.h:963-964 | in an acyclic heap the survivors are exactly the reachable objects |
| `Cascades.CycleLeaks` | headers/support/Atom.h:963-964 | two objects that point to each other outlive the last reference from outside |
| `Cascades.MemberAssignment` | headers/support/Atom.h:939-946 | assigning from a member of an object leaves exact counts for the target; the second read finds that target if the object is still there, which it is if it stays reachable, and only then unless unreachable objects support each other |
| `Cascades.RereadIsLiveIffHeld` | headers/support/Atom.h:942-944 | in an acyclic heap the second read is of a live object if and only if the remaining references reach it |
| `Cascades.NextOfOwnNode` | headers/support/Atom.h:942-944 | advancing the only pointer to a list along it reads a deleted node |
| `Members.StepSafeIff` | headers/support/Atom.h:613-980 | a step of any holder leaves no operation with a destroyed holder to touch if and only if it does not delete an object while an operation is using a member of it |
| `Members.MembershipLasts` | headers/support/Atom.h:964 | a member belongs to its object for as long as it is there |
| `Members.MembersAreHolders` | headers/support/Atom.h:923-980 | membership forbids no operation as long as no member is destroyed |
| `Members.EveryRunIsSafeIffRaceFree` | headers/support/Atom.h:613-980 | in every interleaving with smart pointers that are members of counted objects, destroyed with them: counts, deletions and holders stay as without, and no operation is left with a destroyed holder if and only if no such deletion happens |
| `Members.HeldIsRaceFree` | headers/support/Atom.h:928-964 | it does not happen while whoever uses a member has its object held by a settled holder |
| `Members.AtRest` | headers/support/Atom.h:613-640 | with nothing in flight and no destroyed member left to drop, the deleted objects are exactly the unnamed ones |
| `Members.OneIsReached` | headers/support/Atom.h:923-926 | a smart pointer to a new node is reachable |
| `Members.ListIsReached` | headers/support/Atom.h:923-926 | so is a list of two nodes, the second held by a member of the first |
| `Members.CountedIsReached` | headers/support/Atom.h:939-942 | assigning that member to the only pointer to the list counts the second node |
| `Members.NextIsReached` | headers/support/Atom.h:943 | then the release finds the first node's last reference |
| `Members.NextIsRacy` | headers/support/Atom.h:943-944 | and its deletion is such a deletion: the assignment reads the member again |
| `WeakAtoms.CopyCountKeeps` | libraries/libbinder/support/Atom.cpp:1357-1369 | counting a copy of a strong pointer keeps the invariant, even before the first holder has subtracted the offset |
| `WeakAtoms.EnterKeeps` | libraries/libbinder/support/Atom.cpp:1357-1369 | counting a plain pointer keeps the invariant unless all strong references are gone |
| `WeakAtoms.SubtractKeeps` | libraries/libbinder/support/Atom.cpp:1363-1368 | only one holder ever subtracts the offset, and the count is then the number of strong references |
| `WeakAtoms.SwapKeeps` | libraries/libbinder/support/Atom.cpp:1392-1402 | a successful compare-and-swap counts a strong reference on an atom that is not destroyed |
| `WeakAtoms.ReviveKeeps` | libraries/libbinder/support/Atom.cpp:1416-1438 | the increment after IncStrongAttempted keeps the invariant while the offset is still in place |
| `WeakAtoms.DropStrongKeeps` | libraries/libbinder/support/Atom.cpp:1371-1382 | the holder that finds one is the only one to destroy the atom |
| `WeakAtoms.DropLastWeakKeeps` | libraries/libbinder/support/Atom.cpp:1253-1268 | the holder that takes the last weak count is the only one to free the memory, after the destructor |
| `WeakAtoms.FreeKeeps` | libraries/libbinder/support/Atom.cpp:1253-1268 | an atom that was never strongly held is destroyed here, another one is not destroyed again |
| `WeakAtoms.StepKeeps` | libraries/libbinder/support/Atom.cpp:1248-1449 | every step that is not racy keeps the invariant |
| `WeakAtoms.RacyIsUnsafe` | libraries/libbinder/support/Atom.cpp:1357-1449 | every racy step leaves a wrong count, a strongly held atom that is destroyed or about to be, or a fatal error |
| `WeakAtoms.SafeIffRaceFree` | libraries/libbinder/support/Atom.cpp:1248-1449 | a run from a good state is safe throughout if and only if no step is racy |
| `WeakAtoms.EveryRunIsSafeIffRaceFree` | libraries/libbinder/support/Atom.cpp:1248-1449 | in every interleaving from new on: exact counts, one InitAtom, one destruction when the strong references end, one free when all end, if and only if no step is racy |
| `WeakAtoms.AloneIsRaceFree` | libraries/libbinder/support/Atom.cpp:1385-1449 | no step is racy while at most one holder tries for the first strong reference |
| `WeakAtoms.OrderlyRunsAreSafe` | libraries/libbinder/support/Atom.cpp:1385-1449 | runs whose attempts do not overlap another first acquisition are safe throughout |
| `WeakAtoms.RefusedOnlyAfterRelease` | libraries/libbinder/support/Atom.cpp:1385-1415 | whatever step of an attempt refuses it, the atom had strong references and all are gone |
| `WeakAtoms.ReleasedForGood` | libraries/libbinder/support/Atom.cpp:1404-1415 | once they are gone, no later step counts a strong reference |
| `WeakAtoms.PairIsReached` | libraries/libbinder/support/Atom.cpp:1385-1388 | the state with two attempts on a new atom is reachable |
| `WeakAtoms.UncountedSuccess` | libraries/libbinder/support/Atom.cpp:1392-1404 | from there an attempt succeeds without having counted |
| `WeakAtoms.DestroyedWhileHeld` | libraries/libbinder/support/Atom.cpp:1371-1382 | after that the atom is destroyed while it is strongly held |
| `WeakAtoms.BothAllowed` | libraries/libbinder/support/Atom.cpp:1404-1415 | from the same state both attempts can be allowed to take the first strong reference |
| `WeakAtoms.OneIsLate` | libraries/libbinder/support/Atom.cpp:1416-1447 | and one of them can then have it before the other increments |
| `WeakAtoms.LateIncrement` | libraries/libbinder/support/Atom.cpp:1416-1436 | an attempt that increments late ends in a fatal error, its own or the destructor's, or holds a destroyed atom |
| `WeakAtoms.ClaimIsReached` | libraries/libbinder/support/Atom.cpp:1357-1369 | the state with a plain pointer about to be counted beside an attempt is reachable |
| `WeakAtoms.ClaimIsOvertaken` | libraries/libbinder/support/Atom.cpp:1416-1438 | from there the attempt can take the first strong reference |
| `WeakAtoms.ClaimAfterRelease` | libraries/libbinder/support/Atom.cpp:1357-1382 | and let it go, so that the plain pointer is counted on a destroyed atom |
| `WeakOperations.BegunAsMeant` | libraries/libbinder/support/Atom.cpp:1248-1449 | every copy, acquisition, attempt and release sets out for what it is called for |
| `WeakOperations.CanGoOn` | libraries/libbinder/support/Atom.cpp:1248-1449 | an operation in flight can always take its next step |
| `WeakOperations.OperationEnds` | libraries/libbinder/support/Atom.cpp:1248-1449 | in every interleaving without a race an operation in flight ends as foreseen, within a number of its own steps that only lost swaps extend, and these change both counts by what its holder gains or gives up |
| `WeakOperations.LostOnlyToOthers` | libraries/libbinder/support/Atom.cpp:1392-1402 | every compare-and-swap that fails is paid for by a change of the strong count by another holder |
| `WeakOperations.RefusedForGood` | libraries/libbinder/support/Atom.cpp:1404-1415 | when a refused attempt is through, the strong references are gone, whatever happened since |
| `WeakOperations.PromoteSwaps` | libraries/libbinder/support/Atom.cpp:1391-1402 | an attempt that reads n strong references takes one more if the count is n when it swaps, whatever happened in between; otherwise it changes nothing and tries again |
| `WeakOperations.PromoteAsks` | libraries/libbinder/support/Atom.cpp:1404-1415 | one that reads zero is refused; one that reads the offset is allowed unless the atom has been destroyed by then |
| `WeakOperations.EveryOperationEnds` | libraries/libbinder/support/Atom.cpp:1248-1449 | from its start in any good state every operation ends as it is called for and accounts for both counts; it needs at most five more steps and two for every change that others make to the strong count |
| `WeakOperations.PromoteEnds` | libraries/libbinder/support/Atom.cpp:1385-1461 | promotion ends with one strong and one weak reference more, or with none more and no strong reference left on the atom |
| `WeakOperations.OwnersMayBegin` | libraries/libbinder/support/Atom.cpp:1248-1449 | what a settled holder may start |
| `WeakOperations.EverythingCanBeReleased` | libraries/libbinder/support/Atom.cpp:1248-1449 | after every orderly run, in the middle of whatever operations, a run without a race leads to the end at which no holder is left and the atom has been destroyed and freed exactly once |
| `OneTimeInits.Final` | headers/support/Debug.h:214-220 | the default without an environment value; otherwise the value clamped to the bounds: the bound it is beyond, or itself |
| `OneTimeInits.StepKeeps` | headers/support/Debug.h:193-229 | every access of every thread keeps the protocol's invariant |
| `OneTimeInits.EveryCallReturnsTheLevel` | headers/support/Debug.h:189-289 | for any number of threads and every interleaving at most one thread initialises, and every call returns the clamped value, never an intermediate one |
| `OneTimeInits.Progress` | headers/support/Debug.h:224-227 | every step brings its thread closer to its return, except a spin while another thread initialises |
| `OneTimeInits.PublishedIsFast` | headers/support/Debug.h:245-253 | once the level is published, a call is two plain reads and returns it |
| `OneTimeInits.OneStateForAll` | headers/support/Debug.h:291-325 | with callers and destructors in any interleaving, one construction and one deletion at most; before a destructor's mark every call returned the one live object |
| `OneTimeInits.FirstDestructorDeletes` | headers/support/Debug.h:312-317 | in every interleaving the destructor that sets the mark deletes: once it is through, one object has been deleted if and only if one was constructed when it came to delete, and certainly if one was published when it set the mark |
| `OneTimeInits.LaterDestructorsDeleteNothing` | headers/support/Debug.h:312-317 | a destructor that finds the mark deletes nothing |
| `OneTimeInits.OvertakenIsNotDeleted` | headers/support/Debug.h:301-317 | a construction that the destructor overtakes is never deleted |
| `OneTimeInits.BuildingIsReached` | headers/support/Debug.h:301-317 | and can be overtaken so |
| `OneTimeInits.ObjectProgress` | headers/support/Debug.h:295-317 | every step brings its thread closer to its end, except a spin while another thread builds, or one that is stuck |
| `OneTimeInits.PublishedIsReturned` | headers/support/Debug.h:295-310 | a call that runs when the object is published returns it, whatever happens meanwhile, even after its deletion |
| `OneTimeInits.MarkedIsFast` | headers/support/Debug.h:295-299 | once the object is published or marked, a call is two plain reads |
| `OneTimeInits.DestroyedFirst` | headers/support/Debug.h:295-317 | after a destructor that came first, Get returns null |
| `OneTimeInits.ClaimAfterMarkIsStuck` | headers/support/Debug.h:301-317 | a claim after a destructor's mark sends the caller into a spin that nobody will end |
| `OneTimeInits.ClaimAfterMarkIsReached` | headers/support/Debug.h:295-317 | a call and a destructor in two threads reach that claim |
| `OneTimeInits.StuckForever` | headers/support/Debug.h:306-307 | and it stays there in every continuation |
| `Bitfields.Bitfield.WordIndexInRange` | headers/support/Bitfield.h:128-135 | the word of every bit is inside the allocation |
| `Bitfields.Bitfield.Test` | headers/support/Bitfield.h:116-121 | the bit of the plain sequence, in both forms |
| `Bitfields.Bitfield.Put` | headers/support/Bitfield.h:123-147 | changes exactly that bit of the plain sequence, in both forms |
| `Bitfields.Bitfield.Fill` | libraries/libbinder/support/Bitfield.cpp:127-185 | changes exactly the range of the plain sequence, across words; an empty range at a word boundary changes every bit of the inline form and writes outside the array of the heap form |
| `Bitfields.InsideIff` | libraries/libbinder/support/Bitfield.cpp:127-136 | with the word count of compute_masks and its unsigned wrap-around, every word written is inside the array if and only if the range is not an empty one at a word boundary |
| `Bitfields.Bitfield.Resize` | libraries/libbinder/support/Bitfield.cpp:187-235 | keeps the bits there are and adds clear ones; writes outside the array if and only if it grows one to a size that is not a whole number of words |
| `Bitfields.Bitfield.Grow` | libraries/libbinder/support/Bitfield.cpp:208-223 | the same of growing into or within the heap form |
| `Bitfields.Bitfield.constructor` | libraries/libbinder/support/Bitfield.cpp:37-64 | the first bits have the initial value and the rest are clear; sizes from 1 to 32 become 32 |
| `Bitfields.WritesOutside` | libraries/libbinder/support/Bitfield.cpp:127-235 | a 64-bit field, asked to set no bits from bit 32 on or to grow by a bit, writes outside its array |
| `Bitfields.EmptyRangeSetsAll` | libraries/libbinder/support/Bitfield.cpp:127-156 | a 32-bit field, asked to set no bits from bit 0 on, sets bit 5 |
| `Bitfields.FillWords` | libraries/libbinder/support/Bitfield.cpp:147-153 | where the writes are inside the array, two masked words and a memset between them change exactly the bits of the range |
| `Bitfields.Run` | headers/support/Bitfield.h:116-152 | every run that stays inside the array agrees with a plain boolean sequence, inline and heap alike |

## Left out

- BitstreamReaders.BitstreamReader.FindReverse: assumes a stream shorter than 2^32 bits, because the code compares `BitPosition()`, a `size_t`; of a snagged search nothing more is promised.
- BitstreamReaders.BitstreamReader.FindByteAlignedReverse: assumes a stream shorter than 2^31 bits, because the code keeps a signed position; of a snagged search nothing more is promised.
- BitstreamReaders.BitstreamReader.RewindBits: of a rewind that strays or loses its cursor only that is promised, because the code has then read memory of no fragment or failed an assertion.
- BitstreamReaders.BitstreamReader.ReadToBoundary: written without the loop around it, because its body leaves nothing to read after the first pass.
- BitstreamReaders.BitstreamReader.SkipBits: does not model an offset that overflows `size_t`.
- BitstreamReaders.BitstreamReader.BytePosition: assumes a cursor below 2^32.
- BitstreamReaders.BitstreamReader.SetSource: a second `SetSource` on the same reader and a reader without a source are not modelled; each source is a new object.
- ReaderRuns.Run: runs end before a rewind that strays or loses its cursor, and before one from the very end of the stream that enters an empty fragment, where the walk depends on how the cursor got there; `RewindBits` says what those do.
- BufferChains.BufferChain.AppendChainOf: a chain appended to itself is excluded unless it is empty, because the call never returns (`AppendItself`).
- BufferChains.BufferChain.AppendBuffer: passing a node of the chain's own free list is excluded; callers cannot reach those.
- Buffers.Buffer.CopyTo: a destination that overlaps the source is not modelled; buffer contents are values and nodes are objects.
- Bitfields.Bitfield.Fill: ranges that end at 2^31 or beyond are excluded, because the code compares the end as a signed number; after `Outside` nothing is promised.
- Bitfields.Bitfield.Resize: after `Outside` nothing is promised.
- RefCounts.EveryRunIsSafe: holders are not members of counted objects there; `Members` adds them.
- RefCounts.StoreKeeps: nobody changes a holder while it is read; one that is destroyed then is treated in `Members`.
- WeakOperations.EverythingCanBeReleased: stated after orderly runs, because in other states the only step left to a holder can be a race, as in `ClaimAfterRelease`.
- WeakAtoms.EveryRunIsSafeIffRaceFree: assumes fewer than 2^28 holders, the offset that the code uses; atoms that override `FinishAtom`, `IncStrongAttempted` or `DeleteAtom`, and `ForceIncStrong`, `AttemptDecStrong` and `AttemptIncWeak` are not modelled.
- Static and pooled `SSharedBuffer`s, `Edit` and the buffer contents: only the counting of plain buffers is modelled.
- The shared cell between `wptr`s of one object: each `wptr` owns a weak count here.
- `SBitfield` comparison, copying and the searches for a set or clear bit.
- Allocation failure, memory orders weaker than sequential consistency, `printf` diagnostics; the environment lookup is an optional number.
- `SLightAtom`, leak reporting and the debugging builds of the counts.
- The typed containers, messages, looper, parcels, pipes and regular expressions of the support kit, and the storage, package and command directories: forwarding, declarations or operating-system plumbing.
