# YaMD5 in Dafny

A model of `src/yamd5.ts`, the incremental MD5 engine of YaMD5 (RFC 1321).
An `MD5` object holds:
- the four state words;
- a 68-byte buffer that holds the block being filled;
- `dataLength`, the number of bytes already compressed;
- `bufferLength`, the number of bytes waiting in the buffer.

Bytes reach the object in three ways:
- raw bytes (`appendByteArray`);
- strings taken one byte per UTF-16 unit (`appendAsciiStr`);
- strings encoded to UTF-8 unit by unit (`appendStr`).

`digest` pads what waits in the buffer, appends the bit length and returns the state words, or their 32-digit hex string (`hex`).

The project has six modules:

- `Words` (words.dfy): little-endian reading and writing of 32-bit words in a byte sequence, which is how the source's `Uint32Array` view sees its `Uint8Array` buffer.
- `Md5Compress` (compress.dfy): the block transform of RFC 1321 section 3.4. It has:
  - the auxiliary functions F, G, H and I;
  - the sine table;
  - the rotation amounts and the message-word order;
  - the 64 steps on the rotating (A, B, C, D) tuple;
  - the feed-forward addition.
- `Md5Reference` (md5ref.dfy): the whole-message specification.
  - `Fold` compresses consecutive blocks.
  - `Pad` and `PadTail` do the padding of RFC 1321 sections 3.1 and 3.2, with the 64-bit little-endian bit length.
  - `Md5(m) == Fold(IV, Pad(m))`.
  - The streaming context is `Ctx` with `Absorb` and `Final`.
  - The printed digest of RFC 1321 section 3.5 is `HexDigest`, together with its decoder `Unhex`.
- `Utf8Encoding` (utf8.dfy) has two parts:
  - `Encode` is the UTF-16 to UTF-8 rule that `appendStr` actually applies. It differs from RFC 3629 in three ways:
    - lone surrogates are encoded;
    - a high surrogate is combined arithmetically with whatever unit follows it;
    - only a combined code above U+10FFFF throws.
  - A strict UTF-8 reader (RFC 3629 section 4) is the partner of `Encode`. It rejects bytes that cannot lead a sequence, continuation bytes without their `10` marker, overlong forms, encoded surrogates and codes above U+10FFFF. On well-formed input the encoding passes this reader and reads back as the input's code points.
- `YaMD5` (yamd5.dfy): the class `MD5` with the source's fields and methods, each proved against `Md5Reference`.
  - A ghost field `consumed` records every byte appended since `init`.
  - `Valid()` is the class invariant:
    - fewer than 64 bytes wait;
    - `dataLength` is a whole number of blocks;
    - `dataLength + bufferLength == |consumed|`;
    - the state is the IV folded over `consumed[..dataLength]`;
    - the buffer front holds the rest.
  - The three append methods, when they return normally, keep `Valid()` and extend `consumed` by exactly the bytes they encode. A throw of `appendStr` is described below.
  - `digest` returns `Md5(consumed)`.
- `Md5Vectors` (vectors.dfy): the self-test vector of the source, MD5("hello") = `5d41402abc4b2a76b9719d911017c592`. It is proved by evaluating the 64 steps of the single block one at a time.

`appendStr` departs from RFC 3629 in three ways. RFC 3629 treats these inputs as errors, or does not allow them at all; the code does not reject them, and the model follows the code:
- A low surrogate on its own is encoded in the three-byte form. `Utf8Encoding.LoneLowRejected` proves that the strict reader rejects those bytes.
- A high surrogate is combined arithmetically with whatever unit follows it. When that unit is not a low surrogate, the result is still four bytes, unless the combined code exceeds 0x10FFFF. That happens only when the following unit is above 0xDFFF, for example `[0xDBFF, 0xE000]`, and then `appendStr` throws. `Utf8Encoding.Combine` and `Utf8Encoding.ThrowNeedsBadPair` state this.
- A high surrogate as the last unit reads the next unit as `NaN`. The shifts and masks turn that into the code 0, so the engine writes `F0 80 80 80` and does not fail. `Utf8Encoding.EncodeLast` states this, and `Utf8Encoding.FinalHighRejected` proves that these bytes are an overlong form the strict reader rejects.

Two things about the engine itself can be seen by a caller:
- After a throw, the blocks written so far have been compressed and counted in `dataLength`, but `bufferLength` keeps its old value. `YaMD5.MD5.AppendStr` states exactly this state.
- Bytes of a character that spill past the 64-byte block are carried to the front of the buffer (`buf32[0] = buf32[16]`); none are lost. `YaMD5.MD5.Spill` states this.

## Model

| member | source | states |
|---|---|---|
| Md5Compress.T | src/yamd5.ts:97-227 | the 64 additive constants of the steps, in step order, written in hex |
| Md5Compress.InitialWords | src/yamd5.ts:83 | the initial state `IV` is the four signed literals the source stores, each taken mod 2^32: 0x67452301, 0xEFCDAB89, 0x98BADCFE, 0x10325476 |
| Md5Compress.SourceConstant | src/yamd5.ts:97-227 | the same 64 constants as the source writes them, as signed decimal literals |
| Md5Compress.SineTable | src/yamd5.ts:97-227 | each source literal, reduced mod 2^32 as the steps' 32-bit arithmetic reduces it, is the RFC constant `T` of that step |
| Md5Compress.F | src/yamd5.ts:97 | round 1 function: (b AND c) OR (NOT b AND d) |
| Md5Compress.G | src/yamd5.ts:130 | round 2 function: (b AND d) OR (c AND NOT d) |
| Md5Compress.H | src/yamd5.ts:163 | round 3 function: b XOR c XOR d |
| Md5Compress.I | src/yamd5.ts:196 | round 4 function: c XOR (b OR NOT d) |
| Md5Compress.FSelects | src/yamd5.ts:97 | F takes, bit by bit, `c` where `b` is set and `d` where it is clear |
| Md5Compress.GSelects | src/yamd5.ts:130 | G takes, bit by bit, `b` where `d` is set and `c` where it is clear |
| Md5Compress.Add | src/yamd5.ts:97-232 | addition of two 32-bit words mod 2^32, which the source writes as a sum or-ed with 0 (definition, no contract) |
| Md5Compress.RotL | src/yamd5.ts:98-227 | rotation left by `s` bits, which the source writes as the left shift by `s` or-ed with the unsigned right shift by 32 - s; only for 0 < s < 32 (definition, no contract) |
| Md5Compress.Mix | src/yamd5.ts:97-227 | steps 0-15 use F, 16-31 G, 32-47 H and 48-63 I |
| Md5Compress.Op | src/yamd5.ts:97-98 | one step: `a += f(b,c,d) + k[g] + T; a = rotl(a, s) + b`, all mod 2^32 |
| Md5Compress.Step | src/yamd5.ts:97-227 | a step on the RFC tuple: (A, B, C, D) becomes (D, the step's result, B, C), which the source writes by naming a, d, c, b in turn |
| Md5Compress.MsgIndex | src/yamd5.ts:97-227 | the message word a step reads is always one of the 16 block words (round orders i, 5i+1, 3i+5, 7i mod 16) |
| Md5Compress.Shift | src/yamd5.ts:98-227 | every rotation amount of the 64 steps lies strictly between 0 and 32 |
| Md5Compress.RoundsFromStep | src/yamd5.ts:97-227 | defining equation of the step loop: running the steps from `i` is one step `b + rotl(a + f(b,c,d) + k[g] + T[i], s)` followed by the steps from `i + 1` |
| Md5Compress.RoundsFrom | src/yamd5.ts:97-227 | the tuple after steps `i` to 63; at `i == 64` the tuple itself (definition, no contract) |
| Md5Compress.RoundsAfter | src/yamd5.ts:97-227 | step `i`, then the steps from `i + 1` (definition, no contract) |
| Md5Compress.Compress | src/yamd5.ts:91-233 | `md5cycle` as a function of the entry state and the 16 block words: the 64 steps, then each result word added mod 2^32 to its entry word (definition, no contract; `YaMD5.MD5.Md5Cycle` is proved against it) |
| Md5Compress.CompressOf | src/yamd5.ts:229-232 | defining equation of the transform: its result is the round result added word by word, mod 2^32, to the entry state |
| YaMD5.MD5.Md5Cycle | src/yamd5.ts:91-233 | updating a, d, c, b in turn over 64 steps and adding the entry values leaves `x` holding `Compress(old x, k)`; only `x` changes |
| YaMD5.StepIntoA | src/yamd5.ts:97-98 | a step whose index is 0 mod 4 computes the RFC's register A into the variable `a` |
| YaMD5.StepIntoD | src/yamd5.ts:99-100 | a step whose index is 1 mod 4 computes into `d` |
| YaMD5.StepIntoC | src/yamd5.ts:101-102 | a step whose index is 2 mod 4 computes into `c` |
| YaMD5.StepIntoB | src/yamd5.ts:103-104 | a step whose index is 3 mod 4 computes into `b` |
| YaMD5.Aligned | src/yamd5.ts:97-227 | which of the variables a, b, c, d holds each register of the RFC tuple before step `i`: the naming turns by one variable per step (definition; `StepIntoA` to `StepIntoB` use it) |
| Words.WordOfBytes | src/yamd5.ts:80-81 | reading back the little-endian bytes of a word gives the word |
| Words.BytesOfWord | src/yamd5.ts:80-81 | the bytes of the word read at `i` are the four bytes at `i` |
| Words.WordsOfAt | src/yamd5.ts:80-81 | word `j` of the 32-bit view is the little-endian word at byte 4j |
| Words.FlattenWordsOf | src/yamd5.ts:80-81 | writing out the words of a byte sequence gives the bytes back |
| Words.WordsOfFlatten | src/yamd5.ts:80-81 | reading the words of written-out words gives the words back |
| Words.LeBytes | src/yamd5.ts:80-81 | the four bytes of a word as the `Uint8Array` view sees them, low-order byte first; always four |
| Words.WordAt | src/yamd5.ts:80-81 | the word the `Uint32Array` view reads at byte `i`, low-order byte first (definition, no contract; `WordOfBytes` and `BytesOfWord` prove it inverse to `LeBytes`) |
| Words.WordsOf | src/yamd5.ts:80-81 | the 32-bit view of a byte sequence: one word per four bytes, in order |
| Words.Flatten | src/yamd5.ts:80-81 | the bytes of a word sequence, four per word, each low-order byte first |
| Md5Reference.FoldConcat | src/yamd5.ts:320-322 | compressing whole blocks `u` then whole blocks `v` is compressing `u + v` |
| Md5Reference.Fold | src/yamd5.ts:320-322 | the state after `md5cycle` has run on each whole 64-byte block in order; data shorter than a block leaves the state alone (definition, no contract; `FoldConcat`, `FoldBlock` and `FoldStep` state its laws) |
| Md5Reference.FoldBlock | src/yamd5.ts:375-376 | one more block compresses once more from the state reached so far |
| Md5Reference.FoldStep | src/yamd5.ts:320-322 | unfolding equation of the fold: data of at least one block compresses its first 64 bytes, then folds the rest |
| Md5Reference.PadShape | src/yamd5.ts:393-417 | the padded message is whole blocks: the message, then 0x80, then zeros, then the 8-byte length, adding between 9 and 72 bytes |
| Md5Reference.Md5 | src/yamd5.ts:390-417 | the digest of a message: the IV folded over the padded message (definition, no contract; `FinalOfAbsorb` and `YaMD5.MD5.Digest` are proved against it) |
| Md5Reference.Pad | src/yamd5.ts:393-417 | the whole message padded as RFC 1321 sections 3.1 and 3.2 require (definition; `PadShape` states its shape) |
| Md5Reference.PadTail | src/yamd5.ts:393-417 | what `digest` puts in the buffer: the waiting bytes, 0x80, zeros up to byte 56 of a block, then the 8-byte bit length of the whole message (definition; `PadTailLength`, `PaddedOne`, `PaddedFirst` and `PaddedSecond` state its shape) |
| Md5Reference.Final | src/yamd5.ts:390-417 | the state `digest` reaches from a context: the padded waiting bytes folded into its state (definition; `FinalOfAbsorb` proves it is `Md5` of all bytes fed) |
| Md5Reference.Zeros | src/yamd5.ts:395-398 | `n` zero bytes, the zeroed words of the padding block |
| Md5Reference.LengthBytes | src/yamd5.ts:405-416 | the length field is eight bytes: the low 32 bits of the bit length, then the next 32 |
| Md5Reference.LowWordMod | src/yamd5.ts:414-415 | a 32-bit store keeps the value mod 2^32 |
| Md5Reference.LowWordSmall | src/yamd5.ts:406-407 | unfolding equation below 2^32: a value below 2^32 is stored unchanged |
| Md5Reference.LowWordLarge | src/yamd5.ts:414-415 | unfolding equation from 2^32 on: a larger value is first reduced mod 2^32 |
| Md5Reference.LowWord | src/yamd5.ts:405-416 | the value a `Uint32Array` store keeps of a number: its low 32 bits (definition; `LowWordSmall`, `LowWordMod`, `LowWordLarge` and `LowWordZero` state it) |
| Md5Reference.Absorb | src/yamd5.ts:320-380 | the context after feeding bytes: the drains of `appendStr` (320-327), `appendAsciiStr` (341-353) and `appendByteArray` (367-380) compress every whole block of waiting-plus-new bytes and keep the rest waiting |
| Md5Reference.AbsorbShape | src/yamd5.ts:320-327 | after absorbing, fewer than 64 bytes wait, whole blocks only are compressed, no byte is lost, and the waiting bytes are the last ones fed |
| Md5Reference.AbsorbConcat | src/yamd5.ts:362-381 | absorbing `x` then `y` is absorbing `x + y`: the context does not depend on how input is chunked |
| Md5Reference.AbsorbFromEmpty | src/yamd5.ts:362-381 | absorbing `m` from the start compresses the largest 64-aligned prefix of `m` and holds the rest |
| Md5Reference.FinalOfAbsorb | src/yamd5.ts:390-419 | finishing the context that absorbed `m` gives `Md5(m)`: incremental hashing agrees with whole-message MD5 |
| Md5Reference.FoldPad | src/yamd5.ts:390-417 | folding the padded message passes through the state after the whole blocks of `m`, then folds the padded rest |
| Md5Reference.PadTailLength | src/yamd5.ts:399-402 | the padded rest is one block when fewer than 56 bytes wait, otherwise two |
| Md5Reference.PaddedOne | src/yamd5.ts:393-417 | a buffer holding the waiting bytes, 0x80, zeros to byte 55 and the length is exactly the one-block padded rest |
| Md5Reference.PaddedFirst | src/yamd5.ts:393-400 | with 56 to 63 bytes waiting, the buffer holding them, 0x80 and zeros is the first padding block |
| Md5Reference.PaddedSecond | src/yamd5.ts:401-417 | a zeroed block with the length in bytes 56 to 63 is the second padding block |
| Md5Reference.FoldTwo | src/yamd5.ts:399-417 | folding a two-block tail compresses its two halves in order |
| Md5Reference.Hex | src/yamd5.ts:422-437 | printing `n` bytes gives `2n` lower-case hex digits |
| Md5Reference.HexAt | src/yamd5.ts:429-434 | the two digits at 2i print byte `i` |
| Md5Reference.HexDigestAt | src/yamd5.ts:429-434 | digit 8w + 2b is the high nibble and digit 8w + 2b + 1 the low nibble of byte `b` of word `w`, low-order byte first |
| Md5Reference.UnhexHex | src/yamd5.ts:422-437 | decoding the printed digits gives the bytes back: the hex form loses nothing |
| Md5Reference.HexByteRoundTrip | src/yamd5.ts:430-432 | the two digits of a byte decode to that byte |
| Md5Reference.HexChar | src/yamd5.ts:86 | the digit of a nibble in the table `0123456789abcdef`; always a lower-case hex digit |
| Md5Reference.HexByte | src/yamd5.ts:429-433 | the two digits of a byte, high nibble first; both lower-case hex digits |
| Md5Reference.HexDigest | src/yamd5.ts:422-437 | the 32-digit string `hex` returns for four words, each word low-order byte first; always 32 digits |
| Utf8Encoding.Encode | src/yamd5.ts:296-319 | the bytes the loop of `appendStr` writes, or a throw together with the bytes written before the bad pair |
| Utf8Encoding.EncodeFront | src/yamd5.ts:297-318 | one iteration: the bytes of the unit, or of the high surrogate and the unit after it, then the rest; a throw writes nothing for the pair |
| Utf8Encoding.PairBytes | src/yamd5.ts:315-318 | the four bytes of a combined code: F0 plus the top bits, then three continuation bytes |
| Utf8Encoding.UnitBytes | src/yamd5.ts:298-309 | a unit that is not a high surrogate takes 1 byte below 0x80, 2 below 0x800 and 3 otherwise, lone low surrogates included |
| Utf8Encoding.Combine | src/yamd5.ts:311 | a high surrogate combined with any unit gives a code in 0x2400..0x111FFF, above 0x10FFFF only when the second unit is above 0xDFFF |
| Utf8Encoding.EncodeUnit | src/yamd5.ts:297-309 | defining equation for one unit: a non-high unit contributes its bytes and encoding goes on with the next unit |
| Utf8Encoding.EncodePair | src/yamd5.ts:310-318 | defining equation for a pair: a high surrogate and the next unit either throw, with nothing written for them, or contribute four bytes and encoding goes on two units later |
| Utf8Encoding.EncodeLast | src/yamd5.ts:311-318 | defining equation at the end: a final high surrogate encodes as the four bytes of code 0 |
| Utf8Encoding.EncodeWellFormed | src/yamd5.ts:296-319 | a well-formed UTF-16 string encodes without throwing, and the strict RFC 3629 reader accepts the bytes and reads back its code points |
| Utf8Encoding.CodePointsAreScalars | src/yamd5.ts:305-311 | the code points of a well-formed string are Unicode scalar values |
| Utf8Encoding.CombinePair | src/yamd5.ts:311 | for a genuine surrogate pair, the arithmetic combination is the supplementary code point and lies in 0x10000..0x10FFFF |
| Utf8Encoding.ThrowNeedsBadPair | src/yamd5.ts:311-314 | a throw happens only where a high surrogate is followed by a unit above 0xDFFF |
| Utf8Encoding.Decode | src/yamd5.ts:296-319 | the strict RFC 3629 reader the encoder is checked against: None unless every sequence has a valid lead byte, marked continuation bytes, its shortest form and a scalar value (definition, no contract) |
| Utf8Encoding.DecodeAhead | src/yamd5.ts:296-319 | the reader reads one valid sequence and continues after it |
| Utf8Encoding.DecodeRejects | src/yamd5.ts:296-319 | an invalid sequence at the front makes the reader reject the whole input |
| Utf8Encoding.DecodeUnit | src/yamd5.ts:298-309 | the 1-, 2- and 3-byte forms have the right lead byte, marked continuation bytes and the shortest form, and read back as the unit; they are valid UTF-8 exactly when the unit is not a lone low surrogate |
| Utf8Encoding.DecodePair | src/yamd5.ts:315-318 | the 4-byte form has lead byte F0 to F4 and marked continuation bytes, and reads back as the combined code; it is valid UTF-8 exactly when the code is at least 0x10000 |
| Utf8Encoding.LoneLowRejected | src/yamd5.ts:305-309 | the three bytes written for a lone low surrogate are rejected by the strict reader, whatever follows |
| Utf8Encoding.FinalHighRejected | src/yamd5.ts:311-318 | the bytes F0 80 80 80 written for a final high surrogate are rejected by the strict reader |
| Utf8Encoding.AsciiBytes | src/yamd5.ts:344 | the bytes `appendAsciiStr` stores: one per unit, as many as there are units |
| Utf8Encoding.AsciiBytesModulo | src/yamd5.ts:344 | the byte stored for a unit is the unit mod 256 |
| Utf8Encoding.LowByte | src/yamd5.ts:344 | the byte a `Uint8Array` store keeps of a code unit: its low eight bits (definition; `LowByteModulo` proves it is the unit mod 256) |
| Utf8Encoding.LowByteModulo | src/yamd5.ts:344 | the stored byte is the code unit mod 256 |
| Utf8Encoding.AsciiAgrees | src/yamd5.ts:298-299 | on units below 0x80 the one-byte-per-unit bytes are the UTF-8 bytes |
| YaMD5.MD5.ViewIsAbsorb | src/yamd5.ts:76-81 | a valid object holds exactly the context that absorbed every appended byte in one go |
| YaMD5.MD5.Valid | src/yamd5.ts:76-81 | the class invariant over the source's fields: fewer than 64 bytes wait, `dataLength` is whole blocks, the counters add up to every byte appended, the state is the IV folded over the compressed bytes and the buffer front holds the rest (predicate, no contract; every method keeps it) |
| YaMD5.MD5.ChunkingInvariant | src/yamd5.ts:362-381 | two objects fed the same bytes, in any chunks and through any append methods, have the same state, counters and waiting bytes |
| YaMD5.MD5.constructor | src/yamd5.ts:235-237 | a new object is initialised: valid, IV state, nothing compressed or waiting, zeroed buffer |
| YaMD5.MD5.Init | src/yamd5.ts:273-282 | `init` sets the state to the IV, both counters to 0, and allocates a fresh state array and a fresh zeroed buffer |
| YaMD5.MD5.AppendByteArray | src/yamd5.ts:362-381 | appending bytes keeps the invariant and extends the consumed bytes by exactly the input |
| YaMD5.MD5.CopyIn | src/yamd5.ts:369-371 | the inner loop copies `count` input bytes into the buffer at `bufLen`, leaving the bytes before untouched |
| YaMD5.MD5.AppendAsciiStr | src/yamd5.ts:336-355 | appending a string byte-wise keeps the invariant and extends the consumed bytes by each unit mod 256 |
| YaMD5.MD5.CopyAsciiIn | src/yamd5.ts:343-345 | the inner loop stores the low eight bits of `count` units, leaving the bytes before untouched |
| YaMD5.MD5.CompressBuffer | src/yamd5.ts:321-322 | compressing a full buffer adds exactly 64 to `dataLength` and folds that block into the state |
| YaMD5.MD5.Keep | src/yamd5.ts:327 | recording the waiting count restores the invariant over all bytes fed |
| YaMD5.MD5.AppendStr | src/yamd5.ts:291-329 | succeeds exactly when the encoding does not throw; then keeps the invariant and extends the consumed bytes by the UTF-8 bytes; on a throw the state and `dataLength` are those of the context that absorbed every byte written before the bad pair, and `bufferLength` is unchanged |
| YaMD5.MD5.EncodeAt | src/yamd5.ts:297-318 | one iteration's bytes are the encoding of the unit or pair at `i`, at most four; a throw writes nothing |
| YaMD5.MD5.Write | src/yamd5.ts:298-325 | writing one character's bytes and draining a full block keeps the state, counters and buffer in step with the bytes written so far |
| YaMD5.MD5.Put | src/yamd5.ts:299-318 | the `buf8[bufLen++]` stores extend the agreement between buffer and bytes written |
| YaMD5.MD5.Spill | src/yamd5.ts:320-325 | draining after an overshoot to 64..68 bytes compresses one block and moves the 0 to 4 extra bytes to the front |
| YaMD5.MD5.WrittenSoFar | src/yamd5.ts:311-314 | at a throw, the object's state and `dataLength` are the context that absorbed the bytes written so far |
| YaMD5.MD5.Digest | src/yamd5.ts:390-420 | the result is `Md5(consumed)`, as words or as its hex digest; the state holds it, `dataLength` counts every byte |
| YaMD5.MD5.Finish | src/yamd5.ts:393-417 | padding the waiting bytes in place and compressing leaves the state folded over the RFC 1321 padded rest |
| YaMD5.MD5.PadBuffer | src/yamd5.ts:394-398 | 0x80 at `bufLen`, zeros to the end of the block, the waiting bytes untouched |
| YaMD5.MD5.CompressFirstOfTwo | src/yamd5.ts:399-402 | with more than 55 bytes waiting, the first padding block is compressed and the whole block zeroed |
| YaMD5.MD5.ZeroWords | src/yamd5.ts:398 | copying in the zero block clears words `from` to 15 and nothing else |
| YaMD5.MD5.StoreBitLength | src/yamd5.ts:405-416 | words 14 and 15 receive the bit length mod 2^32 and its high part mod 2^32; bytes below 56 are untouched |
| YaMD5.MD5.StoreWord | src/yamd5.ts:407 | a word store writes the word's four little-endian bytes and nothing else |
| YaMD5.MD5.Hex | src/yamd5.ts:422-437 | the printed state is `HexDigest` of the four words |
| YaMD5.MD5.HexWord | src/yamd5.ts:429-434 | the inner loop writes the eight digits of one word, low-order byte first and high nibble first, and nothing before them |
| YaMD5.MD5.HashStr | src/yamd5.ts:247-251 | init, appendStr and digest give the MD5 of the UTF-8 bytes, and fail exactly when the encoding throws |
| YaMD5.MD5.HashAsciiStr | src/yamd5.ts:262-266 | init, appendAsciiStr and digest give the MD5 of the units mod 256 |
| YaMD5.DigitsOf | src/yamd5.ts:430-432 | the two table lookups for byte `b` of word `i` are the digest's digits 8i + 2b + 1 and 8i + 2b |
| YaMD5.NibblesOf | src/yamd5.ts:430-433 | after `2b` shifts by four, the masked nibbles are the low and high nibble of byte `b` |
| YaMD5.HexCharsAt | src/yamd5.ts:86 | looking a nibble up in the table `hexChars` gives its RFC 1321 hex digit `HexChar` |
| YaMD5.Nibble | src/yamd5.ts:430-432 | `n & 0x0F`, the nibble looked up; always below 16 |
| YaMD5.ShiftBytes | src/yamd5.ts:431-433 | what is left of the word after `n >>>= 4` has run twice per byte for `b` bytes (definition; `ByteOfShift` proves its low byte is byte `b` of the word) |
| YaMD5.ByteOfShift | src/yamd5.ts:431-433 | the low byte left after `b` bytes are shifted out is byte `b` of the word, low-order byte first |
| Md5Vectors.HelloDigest | src/yamd5.ts:443 | the MD5 of "hello" is the words 0x2a40415d, 0x762a4bbc, 0x919d71b9, 0x92c51710 |
| Md5Vectors.HelloHex | src/yamd5.ts:443 | the printed MD5 of "hello" is 5d41402abc4b2a76b9719d911017c592 |
| Md5Vectors.SelfTest | src/yamd5.ts:443 | encoding "hello" succeeds, and its printed MD5 is the self-test's expected string |

## Left out

- The shared `singleton` and the static `hashStr`/`hashAsciiStr` bound to it. `HashStr` and `HashAsciiStr` take the object to use as a parameter instead.
- The self-test's console output at load time. Only its test vector is kept, as lemmas.
- The `ArrayBuffer` and its aliased `Uint8Array`/`Uint32Array` views:
  - the buffer is one 68-byte array;
  - its 32-bit view is the little-endian reading `Words.WordsOf`, so host byte order is not modelled;
  - `buf32[0] = buf32[16]` is the copy of bytes 64..67 to 0..3;
  - `buf32.set(this.buffer32Identity…)` is zeroing the bytes.
- `Int32Array` signedness and JavaScript number semantics (`| 0`, `>>>`): every word is a `bv32`, where the same bit patterns and the same wrap-around mod 2^32 hold.
- `dataLength` is a double in the source and loses precision above 2^53 bytes. The model counts exactly with `nat`.
- The `toString(16)`/regex/`parseInt` split of a bit length above 2^32. It is modelled as exact division and remainder by 2^32; the `Uint32Array` store keeps both parts mod 2^32.
- The raw `digest` returns the live `state` array. `Digest` returns a copy of its four words instead.
- `return this` method chaining. The methods return nothing, or a success flag.
- Reusing an object after `digest` without `init`: the source leaves this undefined. The append methods and `Digest` require the invariant that `digest` breaks (`dataLength` then counts the waiting bytes too).
- Reusing an object after `appendStr` has thrown, without calling `init`. `AppendStr`, `AppendByteArray`, `AppendAsciiStr` and `Digest` all require the invariant `Valid()`. A throw after a block was compressed leaves `dataLength` and `bufferLength` out of step, so the invariant no longer holds.
- The exception of `appendStr`: `AppendStr` returns `false` and `HashStr` returns `None` instead of throwing.
- The loop shape of `md5cycle`: `Md5Cycle` runs the 64 unrolled source steps as one loop over their index, with per-step tables for the constant, message index and rotation, rather than as 64 written-out statements.
- Inline code factored into helper methods so that each part is proved on its own. The helpers are:
  - `CopyIn` and `CopyAsciiIn`: the inner copy loops;
  - `CompressBuffer`, `Spill` and `Keep`: the drain and the final store of `bufferLength`;
  - `EncodeAt`, `Write` and `Put`: one iteration of `appendStr`;
  - `Finish`, `PadBuffer`, `CompressFirstOfTwo`, `ZeroWords`, `StoreBitLength` and `StoreWord`: the body of `digest`;
  - `HexWord`: the inner loop of `hex`.
