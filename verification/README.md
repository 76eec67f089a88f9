# Verified model of the SA-MP web API plugin

A Dafny model of three parts of the plugin, with proofs of what they promise:

- **xxHash** (`src/share/xxhash.c`): the hashes XXH32 and XXH64, one-shot and
  incremental, and their canonical form. `Words`, `Arith32`, `Arith64`,
  `Lengths`, `Canonical`, `Inputs`, then for each width the hash and its one-shot
  algorithm (`Xxh32`, `Xxh64`), hashes in figures (`Xxh32Answers`,
  `Xxh64Answers`), the streaming state (`Xxh32Stream`, `Xxh64Stream`), the
  inverses of its steps (`Xxh32Bijection`, `Xxh64Bijection`) and the effect of
  changing one read (`Xxh32Reads`, `Xxh64Reads`), and for XXH64 the wrapping
  counter (`Xxh64Counter`).
- **Routing** (`src/api/Route.cpp`, `src/api/Route.hpp`, `src/api/Handler.cpp`):
  URL templates, their compilation to regular expressions, matching, bindings,
  authorization and dispatch. `Regex`, `Template`, `Routing`, `RoundTrip`,
  `Overlap`, `Authorization`, `Dispatch`, `Service`.
- **The bump allocator** (`src/api/FieldsAlloc.hpp`): `FieldsAlloc`.

`dafny verify dfyconfig.toml` verifies the project.

## How the model is built

**Hashes.** `Xxh32.Hash` and `Xxh64.Hash` say what the hash of a whole input is,
step by step as in the sections "XXH32 Algorithm Description" and "XXH64
Algorithm Description" of the xxHash specification, with four separate lane
folds instead of one interleaved loop. The one-shot methods keep the loops of
the C code, with the do-while loop and the tail loops, which the C code writes
out twice, as methods of their own (`Stripes`, `Tail` and the loops it calls). The streaming state is a
class with the fields of the C struct and a byte array for its buffer; the ghost
fields `seed` and `fed` record what went in since the last reset, and `Valid`
says that everything a digest may look at is `Expected(seed, fed)`. Memory is a
sequence of bytes. The byte order of the CPU is a parameter of every call that
reads memory; `XXH_FORCE_NATIVE_FORMAT` is 0, so that the `endian` argument is
the byte order of the CPU. Words are bit-vectors of their true width. Each
arithmetic step has a name in `Arith32` or `Arith64` and an inverse that repeats
its constants, so a wrong rotation, shift or multiplier in either place breaks
`RoundInverse` and its like. What such laws leave open, the answers close: for
inputs that take every branch of the algorithms the hash is proved to be a number
that is written down, and bytes are tied to numbers by their base-256 digits.

**Counters.** `total_len_32` and `total_len` wrap at 2^32 and 2^64. For XXH32 the
flag `large_len` makes the wrap invisible, and streaming equals one-shot for
inputs of any length. `XXH64_digest` has no such flag and decides by the counter
itself (lines 829-843): once 2^64 bytes or more were fed and the counter is below
32 again, it starts from `v3` as for a short input. `DigestAgreement` says exactly
when the result is nevertheless the hash. It is not for every input of such a
length: `Disagree` brings the lanes to 0 with the last stripe, where the two start
values differ. So for every seed the lengths at which streaming equals one-shot
are those of `AgreementOfLength`; all lengths below 2^64 are among them.

**Routes.** A template is searched for keys and rewritten to the text of an
expression as the C++ code does it; `ParseRegex` reads that text back in the
sub-language that literals and the capture pattern form. `Regex.Exec` is the
backtracking matcher of ECMA-262, 3rd edition, section 15.10.2, for that
sub-language, with the order in which capture lengths are tried as a parameter.
The regular expression library is a parameter of `Route`: on texts of the
sub-language it must do what `Regex.Exec` does (`Standard`), on all others it may
throw, refuse or capture at will. `Match` keeps a reference to its `Route`, and a
test goes by the URL that the route has at that moment. The handler walks its map
in an arbitrary order, of which the sorted order of `std::map` is one. The
whitelist, the decoded body and the handler functions are parameters.

**Allocator.** Addresses are those of a flat address space of 2^64 bytes, and `Step`
computes `p_ + n` and `count_` modulo 2^64. The comparison in `alloc` is
`last >= end()`, so a block that would exactly fill the pool is refused. It is made
after an addition that can wrap, and then it lets a far too large request pass
(`WrappedPointer`); `OutcomeIsIntended` and `StepSound` say that this is the only
way for an allocation to go wrong, but for a wrap of the counter. Blocks are
numbered in the ghost state only, to say which one a call of `dealloc` gives back.
`destroy` returns while the count before the decrement is not 0, so the destructor
of the last handle leaves the pool allocated; the model keeps this (`Lifetimes`).

Some proofs begin with `hide`, which keeps the bodies of named functions out of
that proof.

## Model

| member | source | states |
|---|---|---|
| `Words.ReadLE32Align` | src/share/xxhash.c:226-232 | a read with the byte order of the CPU yields the little-endian word, on either CPU, aligned or not |
| `Words.ReadLE64Align` | src/share/xxhash.c:589-595 | the same for 8-byte words |
| `Words.ReadsNumber32` | src/share/xxhash.c:226-232 | that word is the number whose base-256 digits are the bytes, the first byte the lowest digit |
| `Words.ReadsNumber64` | src/share/xxhash.c:589-595 | the same for eight bytes |
| `Words.Digits32` | src/share/xxhash.c:512-517 | the bytes of a word are its base-256 digits, lowest first |
| `Words.Digits64` | src/share/xxhash.c:888-893 | the same for eight bytes |
| `Words.PromotedBytes` | src/share/xxhash.c:312-313 | promoting a byte or a word adds zero bytes, and no sign |
| `Words.SwapLe32` | src/share/xxhash.c:199-205 | swapping a word decoded in one byte order gives the word decoded in the other |
| `Words.SwapLe64` | src/share/xxhash.c:576-586 | the same for 8-byte words |
| `Words.Memcpy` | src/share/xxhash.c:105 | the copied bytes replace exactly their range; nothing else in the buffer changes |
| `Canonical.Canonical32IsBigEndian` | src/share/xxhash.c:512-517 | byte i of the canonical form is hash / 256^(3 - i) modulo 256, on either CPU |
| `Canonical.HashRoundTrip32` | src/share/xxhash.c:512-522 | a hash written in canonical form on one CPU is read back unchanged on any CPU |
| `Canonical.CanonicalRoundTrip32` | src/share/xxhash.c:512-522 | four canonical bytes read on one CPU are written back unchanged on any CPU |
| `Canonical.Canonical64IsBigEndian` | src/share/xxhash.c:888-893 | byte i of the canonical form is hash / 256^(7 - i) modulo 256, on either CPU |
| `Canonical.HashRoundTrip64` | src/share/xxhash.c:888-898 | the round trip from a 64-bit hash, across CPUs |
| `Canonical.CanonicalRoundTrip64` | src/share/xxhash.c:888-898 | the round trip from eight canonical bytes, across CPUs |
| `Arith32.PrimeProducts` | src/share/xxhash.c:255-259 | the constants, which are the multipliers of the arithmetic, have the values of the source |
| `Arith64.PrimeProducts` | src/share/xxhash.c:610-614 | the same for the 64-bit constants |
| `Lengths.Low32Sum` | src/share/xxhash.c:303 | the conversion (U32)len takes sums to sums of words |
| `Lengths.Low32Wraps` | src/share/xxhash.c:395 | it does not see multiples of 2^32 |
| `Lengths.Low64Sum` | src/share/xxhash.c:671 | the same for (U64)len |
| `Lengths.Low64Wraps` | src/share/xxhash.c:767 | it does not see multiples of 2^64 |
| `Xxh32.Stripes` | src/share/xxhash.c:283-297 | the interleaved loop leaves each lane as the fold of rounds over its own words (index congruent to the lane number modulo 4), over every full stripe and no byte more; all reads are inside the input |
| `Xxh32.WordLoop` | src/share/xxhash.c:305-309 | the loop folds exactly the words behind the stripes |
| `Xxh32.ByteLoop` | src/share/xxhash.c:311-315 | the loop folds each remaining byte once, in order |
| `Xxh32.LengthLaw` | src/share/xxhash.c:303 | adding a length is adding its parts one after another; the length 0 changes nothing, and 1 adds 1 |
| `Xxh32.Tail` | src/share/xxhash.c:305-323 | whatever the buffer that holds the tail, the result is the specified finish: length already added, every tail word and byte once, avalanche |
| `Xxh32.EndianAlign` | src/share/xxhash.c:269-324 | the one-shot loop computes the specified hash, for each byte order and alignment; what that hash is, in figures, is in Xxh32Answers |
| `Xxh32.OneShot` | src/share/xxhash.c:327-352 | the public call computes the specified hash, independent of CPU, alignment check and address |
| `Xxh32Stream.WrappedSum` | src/share/xxhash.c:395 | the wrapping counter follows the sum of the lengths modulo its width |
| `Xxh32Stream.StickyFlag` | src/share/xxhash.c:396 | the flag says that the unbounded total is at least 16, though it is computed from a counter that wraps at 2^32 |
| `Xxh32Stream.ShortStep` | src/share/xxhash.c:398-402 | an input that completes no stripe changes no lane and is appended to the pending bytes |
| `Xxh32Stream.FlushStep` | src/share/xxhash.c:404-411 | the completed buffer is the next stripe of the whole input |
| `Xxh32Stream.RestStep` | src/share/xxhash.c:436-439 | what is left behind the last stripe is the pending suffix of the whole input |
| `Xxh32Stream.State.Create` | src/share/xxhash.c:358-361 | a buffer of its own and no promise about the fields |
| `Xxh32Stream.State.Reset` | src/share/xxhash.c:373-383 | the state of the empty input under that seed, whatever was there before |
| `Xxh32Stream.State.CountLength` | src/share/xxhash.c:395-396 | the two length fields, though one wraps, follow the unbounded sum of the lengths: its residue, and whether it reaches 16 |
| `Xxh32Stream.State.Flush` | src/share/xxhash.c:404-414 | the lanes take in the pending stripe, if there is one; the buffer is then empty |
| `Xxh32Stream.State.Append` | src/share/xxhash.c:399-400 | the bytes are added behind the pending ones |
| `Xxh32Stream.State.Consume` | src/share/xxhash.c:404-439 | lanes and pending bytes become those of the whole input so far |
| `Xxh32Stream.State.UpdateEndian` | src/share/xxhash.c:386-442 | the representation invariant is kept and the bytes fed grow by exactly the input; no copy leaves the buffer |
| `Xxh32Stream.State.Update` | src/share/xxhash.c:444-452 | the same for the public call on either CPU |
| `Xxh32Stream.State.DigestEndian` | src/share/xxhash.c:456-490 | the specified hash of all bytes fed, and the state is unchanged |
| `Xxh32Stream.State.Digest` | src/share/xxhash.c:493-501 | the same for the public call: stale buffer bytes cannot matter |
| `Xxh32Stream.State.CopyFrom` | src/share/xxhash.c:368-371 | the copy stands for the same seed and bytes |
| `Xxh32Stream.Run` | src/share/xxhash.h:180-196 | for every seed and list of segments, the digest after each prefix of the segments is the hash of their concatenation, beyond 2^32 bytes too |
| `Xxh32Stream.Simple` | src/share/xxhash.c:329-334 | the disabled simple version computes the one-shot hash |
| `Xxh32Stream.Confluence` | src/share/xxhash.c:386-442 | from any valid state, two updates or one with both inputs leave the same lanes, lengths, memsize and pending bytes |
| `Xxh32Answers.Nothing` | src/share/xxhash.c:299-323 | the empty input, seed 0: 0x02cc5d05 |
| `Xxh32Answers.OneByte` | src/share/xxhash.c:311-323 | one byte, 0x61: 0x550d7456 |
| `Xxh32Answers.ThreeBytes` | src/share/xxhash.c:311-323 | three bytes, the text abc: 0x32d153ff |
| `Xxh32Answers.Say` | src/share/xxhash.c:299-323 | two words and a byte, the text /misc/say: 0x1c5bb0ba |
| `Xxh32Answers.Kick` | src/share/xxhash.c:283-323 | one stripe, the text /player/kick/Bob, seed 1: 0xcfbfd3be |
| `Xxh32Answers.GameModeText` | src/share/xxhash.c:283-323 | a stripe, a word and two bytes, the text /settings/gamemodetext, seed 1: 0xe15c51f0 |
| `Xxh32Answers.TwoStripes` | src/share/xxhash.c:283-323 | two stripes, 32 zero bytes: 0x2ca90bd2 |
| `Xxh32Bijection.RoundInverse` | src/share/xxhash.c:261-267 | the round is a bijection of the accumulator and of the input, with explicit inverses |
| `Xxh32Bijection.WordStepInverse` | src/share/xxhash.c:306-307 | so is the step over a tail word |
| `Xxh32Bijection.ByteStepInverse` | src/share/xxhash.c:312-313 | so is the step over a tail byte |
| `Xxh32Bijection.AvalancheInverse` | src/share/xxhash.c:317-321 | the avalanche is a bijection with an explicit inverse |
| `Xxh32Bijection.LaneFoldInverse` | src/share/xxhash.c:290-295 | a lane after any stripes determines its value before them |
| `Xxh32Bijection.FinishInverse` | src/share/xxhash.c:303-323 | for a fixed input, everything behind the start value is a bijection |
| `Xxh32Bijection.SeedPermutation` | src/share/xxhash.c:299-323 | for each input below 16 bytes, exactly one seed gives each hash |
| `Xxh32Reads.ConvergeInverse` | src/share/xxhash.c:297 | with three lanes fixed, the convergence is a bijection of the fourth |
| `Xxh32Reads.StripeWordRead` | src/share/xxhash.c:290-297 | with all other bytes fixed, the hash is x exactly for one value of a stripe word, in any lane and stripe |
| `Xxh32Reads.TailWordRead` | src/share/xxhash.c:305-309 | the same for a word of the tail |
| `Xxh32Reads.TailByteRead` | src/share/xxhash.c:311-315 | the same for a byte of the tail, as a promoted word |
| `Xxh32Reads.WordPermutation` | src/share/xxhash.c:283-321 | replacing any one word of any input permutes the hashes |
| `Xxh32Reads.FourBytes` | src/share/xxhash.c:305-323 | XXH32 is a permutation of the 4-byte inputs, for each seed, with an explicit inverse |
| `Xxh32Reads.NoWordCollision` | src/share/xxhash.c:283-321 | inputs of one length that differ only inside one word collide only if they are equal |
| `Xxh32Reads.NoByteCollision` | src/share/xxhash.c:311-321 | the same for one of the bytes read one by one |
| `Xxh64.Stripes` | src/share/xxhash.c:646-658 | the interleaved loop leaves each lane as the fold of rounds over its own words (index congruent to the lane number modulo 4), over every full stripe and no byte more; all reads are inside the input |
| `Xxh64.LongLoop` | src/share/xxhash.c:673-678 | the loop folds exactly the 8-byte words behind the stripes |
| `Xxh64.OneWord` | src/share/xxhash.c:680-684 | the 4-byte word behind them is taken in exactly if there is room for it |
| `Xxh64.ByteLoop` | src/share/xxhash.c:686-690 | the loop folds each remaining byte once, in order |
| `Xxh64.LengthLaw` | src/share/xxhash.c:671 | adding a length is adding its parts one after another; the length 0 changes nothing, and 1 adds 1 |
| `Xxh64.Tail` | src/share/xxhash.c:673-698 | whatever the buffer that holds the tail, the result is the specified finish: length already added, every tail word and byte once, avalanche |
| `Xxh64.EndianAlign` | src/share/xxhash.c:632-699 | the one-shot loop computes the specified hash, for each byte order and alignment; what that hash is, in figures, is in Xxh64Answers |
| `Xxh64.OneShot` | src/share/xxhash.c:702-727 | the public call computes the specified hash, independent of CPU, alignment check and address |
| `Xxh64Stream.WrappedSum` | src/share/xxhash.c:767 | the wrapping counter follows the sum of the lengths modulo its width |
| `Xxh64Stream.ShortStep` | src/share/xxhash.c:769-773 | an input that completes no stripe changes no lane and is appended to the pending bytes |
| `Xxh64Stream.FlushStep` | src/share/xxhash.c:775-780 | the completed buffer is the next stripe of the whole input |
| `Xxh64Stream.RestStep` | src/share/xxhash.c:805-808 | what is left behind the last stripe is the pending suffix of the whole input |
| `Xxh64Stream.State.Create` | src/share/xxhash.c:731-734 | a buffer of its own and no promise about the fields |
| `Xxh64Stream.State.Reset` | src/share/xxhash.c:746-756 | the state of the empty input under that seed, whatever was there before |
| `Xxh64Stream.State.Flush` | src/share/xxhash.c:775-783 | the lanes take in the pending stripe, if there is one; the buffer is then empty |
| `Xxh64Stream.State.Append` | src/share/xxhash.c:770-771 | the bytes are added behind the pending ones |
| `Xxh64Stream.State.Consume` | src/share/xxhash.c:775-808 | lanes and pending bytes become those of the whole input so far |
| `Xxh64Stream.State.UpdateEndian` | src/share/xxhash.c:758-811 | the representation invariant is kept and the bytes fed grow by exactly the input; no copy leaves the buffer |
| `Xxh64Stream.State.Update` | src/share/xxhash.c:813-821 | the same for the public call on either CPU |
| `Xxh64Stream.State.DigestEndian` | src/share/xxhash.c:823-873 | the finish of the start value that the 64-bit counter selects, and the state is unchanged |
| `Xxh64Stream.State.Digest` | src/share/xxhash.c:875-883 | the specified hash of all bytes fed, as long as there are fewer than 2^64 |
| `Xxh64Stream.State.CopyFrom` | src/share/xxhash.c:741-744 | the copy stands for the same seed and bytes |
| `Xxh64Stream.Run` | src/share/xxhash.h:180-196 | for every seed and list of segments, the digest after each prefix of the segments is the digest value of their concatenation |
| `Xxh64Stream.DigestIsHash` | src/share/xxhash.c:829-845 | that value is the one-shot hash unless the counter has wrapped to a value below 32 |
| `Xxh64Stream.DigestsAreHashes` | src/share/xxhash.h:180-196 | so every digest of a run below 2^64 bytes is the one-shot hash of the concatenation |
| `Xxh64Stream.Simple` | src/share/xxhash.c:704-709 | the disabled simple version computes the one-shot hash |
| `Xxh64Stream.Confluence` | src/share/xxhash.c:758-811 | from any valid state, two updates or one with both inputs leave the same lanes, lengths, memsize and pending bytes |
| `Xxh64Answers.Nothing` | src/share/xxhash.c:667-698 | the empty input, seed 0: 0xef46db3751d8e999 |
| `Xxh64Answers.ThreeBytes` | src/share/xxhash.c:686-698 | three bytes, the text abc: 0x44bc2cf5ad770999 |
| `Xxh64Answers.GameModeText` | src/share/xxhash.c:667-698 | two 8-byte words, a 4-byte word and two bytes, the text /settings/gamemodetext, seed 1: 0x0abd6b044671482a |
| `Xxh64Answers.OneStripe` | src/share/xxhash.c:646-698 | one stripe, 32 zero bytes: 0xf6e9be5d70632cf5 |
| `Xxh64Answers.TwoStripes` | src/share/xxhash.c:646-698 | two stripes, 64 zero bytes: 0x257b09a147b82a19 |
| `Xxh64Answers.LongPath` | src/share/xxhash.c:646-698 | a stripe, a 4-byte word and three bytes, the text /settings/gamemodetext/0123456789abcdef, seed 1: 0xb5227c82f3decca2 |
| `Xxh64Answers.SmallLanes` | src/share/xxhash.c:660-664 | the convergence of the lanes 1, 2, 3 and 4: 14687469346806120848 |
| `Xxh64Bijection.MergeRoundInverse` | src/share/xxhash.c:624-630 | a merge round is a bijection of the accumulator and of the lane, with explicit inverses |
| `Xxh64Bijection.ConvergeUnmerged` | src/share/xxhash.c:660-664 | undoing a merge round for each of the four lanes, last to first, leaves the sum of the rotated lanes |
| `Xxh64Bijection.RoundInverse` | src/share/xxhash.c:616-622 | from any accumulator, the round is a bijection of its input |
| `Xxh64Bijection.LongStepInverse` | src/share/xxhash.c:674-676 | the step over an 8-byte tail word is a bijection of the hash and of the word |
| `Xxh64Bijection.WordStepInverse` | src/share/xxhash.c:681-682 | the step over the 4-byte word is a bijection of the hash and injective in the word |
| `Xxh64Bijection.ByteStepInverse` | src/share/xxhash.c:687-688 | so is the step over a byte |
| `Xxh64Bijection.AvalancheInverse` | src/share/xxhash.c:692-696 | the avalanche is a bijection with an explicit inverse |
| `Xxh64Bijection.FinishInverse` | src/share/xxhash.c:671-698 | for a fixed input, everything behind the start value is a bijection |
| `Xxh64Bijection.SeedPermutation` | src/share/xxhash.c:667-698 | for each input below 32 bytes, exactly one seed gives each hash |
| `Xxh64Counter.DigestAgreement` | src/share/xxhash.c:829-845 | a streaming digest is the hash of the bytes fed exactly if fewer than 32 bytes were fed, or the wrapped counter is at least 32, or the two start values coincide |
| `Xxh64Counter.StripeReaches` | src/share/xxhash.c:649-656 | from any lanes any other lanes are reached by one stripe, which is given |
| `Xxh64Counter.Disagree` | src/share/xxhash.c:829-845 | for every seed and every length of at least 32 whose counter is below 32, an input of that length whose digest is not its hash |
| `Xxh64Counter.AgreementOfLength` | src/share/xxhash.c:829-845 | so for every seed, digest and hash agree on all inputs of a length exactly if the length is below 32 or its counter is not |
| `Xxh64Reads.LongRead` | src/share/xxhash.c:673-678 | with all other bytes fixed, the hash is x exactly for one value of an 8-byte word of the tail |
| `Xxh64Reads.WordRead` | src/share/xxhash.c:680-684 | the same for the 4-byte word, as a promoted word |
| `Xxh64Reads.ByteRead` | src/share/xxhash.c:686-690 | the same for a tail byte, as a promoted word |
| `Xxh64Reads.LongPermutation` | src/share/xxhash.c:673-696 | replacing one 8-byte word of the tail permutes the hashes |
| `Xxh64Reads.EightBytes` | src/share/xxhash.c:673-696 | XXH64 is a permutation of the 8-byte inputs, for each seed, with an explicit inverse |
| `Xxh64Reads.NoLongCollision` | src/share/xxhash.c:673-696 | inputs of one length that differ only inside one 8-byte word of the tail collide only if they are equal |
| `Xxh64Reads.NoWordCollision` | src/share/xxhash.c:680-696 | the same for the 4-byte word |
| `Xxh64Reads.NoByteCollision` | src/share/xxhash.c:686-696 | the same for one of the last bytes |
| `Regex.ScanSound` | src/api/Route.cpp:55-58 | what the scanner captures is a whole-string match |
| `Regex.ScanComplete` | src/api/Route.cpp:55-58 | with groups separated by slashes, the scanner finds every match; so captures are unique |
| `Regex.ExecSound` | src/api/Route.cpp:55-58 | what the backtracking matcher captures is a whole-string match, in lazy and in greedy order |
| `Regex.ExecComplete` | src/api/Route.cpp:55-58 | the matcher finds a match whenever there is one |
| `Regex.WholeRun` | src/api/Route.hpp:44 | a group can only capture up to the next slash or the end |
| `Regex.ThreeViews` | src/api/Route.cpp:55-58 | relation, matcher and scanner agree on every string, so the lazy quantifier does not show |
| `Template.SearchKey` | src/api/Route.hpp:49 | the leftmost colon from a position on, with the longest slash-free text behind it |
| `Template.CollectKeys` | src/api/Route.cpp:35-42 | the token iterator collects the keys of the template, in order |
| `Template.ReplaceKeys` | src/api/Route.cpp:47-51 | the same occurrences are replaced by the capture group, and all other text stays; a single key becomes the text (?:([^\/]+?)) |
| `Template.KeyFirst` | src/api/Route.cpp:35-51 | a key in front of other text gives one key, one group, and that text for the expression |
| `Template.SyntaxCharacters` | src/api/Route.cpp:52 | the characters that have a meaning of their own in an expression, one by one |
| `Template.KeysAreGroups` | src/api/Route.cpp:35-52 | one group for each key, so the key index is always in range, and every group is followed by a slash or the end |
| `Template.ParseOfRewrite` | src/api/Route.cpp:47-52 | the text that results, read as an expression, is the template with groups for keys; it stays in the modelled sub-language exactly when no literal character is a metacharacter |
| `Routing.Route.Set` | src/api/Route.cpp:7-12 | the URL and the pattern are set, and a match object of this route with no bindings is returned |
| `Routing.Match.Test` | src/api/Route.cpp:21-68 | for any template, what the verdict of the regular expression library leads to: throwing, refusal, or bindings in order up to the last key, with an access out of range if there are more captures than keys; for a plain template the answer is whether it accepts the current URL of the route, with exactly its bindings and key count |
| `Routing.PlainVerdict` | src/api/Route.cpp:47-58 | on a plain template the library can only answer with the captures of the template, so the number of keys always suffices |
| `Routing.AcceptsMeansMatches` | src/api/Route.cpp:55-58 | a template accepts a URL exactly if a whole-URL match exists, and that match is unique |
| `Routing.FirstCaptureWins` | src/api/Route.cpp:62-66 | a repeated key keeps its first capture |
| `Routing.BoundKeys` | src/api/Route.cpp:62-66 | exactly the keys whose captures were inserted are bound |
| `RoundTrip.FillThenMatch` | src/api/Route.cpp:21-68 | filling the keys with nonempty slash-free values gives an accepted URL that binds each key to its value |
| `RoundTrip.FillTestGet` | src/api/Route.cpp:7-68 | the same through set, test and get; get of any other key is the empty string |
| `RoundTrip.BoundValues` | src/api/Route.cpp:14-19 | after acceptance exactly the keys of the template are bound, each to a nonempty slash-free text |
| `RoundTrip.MatchThenFill` | src/api/Route.cpp:62-66 | filling with the bindings of an accepted URL rebuilds it exactly if no repeated key captured two texts |
| `RoundTrip.RefillsExactly` | src/api/Route.cpp:62-66 | a template rebuilds every URL it accepts exactly if its keys are distinct |
| `RoundTrip.RepeatedKeyLosesText` | src/api/Route.cpp:62-66 | for any two occurrences of one key, a URL that is accepted and not rebuilt |
| `Overlap.CommonUrlOverlaps` | src/api/Route.cpp:35-58 | two templates that accept one URL overlap segment by segment |
| `Overlap.OverlapHasCommonUrl` | src/api/Route.cpp:35-58 | for two overlapping templates a common URL is constructed |
| `Overlap.OverlapDecided` | src/api/Route.cpp:35-58 | so the overlap of two templates decides whether they share a URL |
| `Dispatch.FirstMatch` | src/api/Handler.cpp:196-202 | an accepting template before which every other one of the order refuses, or none if none accepts |
| `Dispatch.Handler.CreateRoute` | src/api/Handler.cpp:155 | the path is an entry afterwards; an entry it had, and all others, keep their endpoints, and nothing else is added |
| `Dispatch.Handler.RegisterFunctions` | src/api/Handler.cpp:157-173 | the table is registered entry by entry; in a new handler each of the eleven paths, written out, has its own endpoint |
| `Dispatch.Handler.Authorize` | src/api/Handler.cpp:207-249 | yes exactly if the address is listed or the list is empty, the body is decodable, its password is that of the handler and its hash is the XXH32 of the target under its seed |
| `Authorization.OneChange` | src/api/Handler.cpp:216-249 | an authorized request with another password, hash or address is authorized exactly if the new one does as well, and without a body it is not |
| `Authorization.SayIsAuthorized` | src/api/Handler.cpp:236-245 | under the seed 0 the hash that goes with /misc/say is 0x1c5bb0ba and no other |
| `Authorization.BodyFitsOneTarget` | src/api/Handler.cpp:236-245 | among the targets that differ from an authorized one inside one word, its body authorizes no other |
| `Dispatch.Handler.HandleRequest` | src/api/Handler.cpp:189-205 | 401, or 404, or the endpoint of the first accepting template, which is given exactly the bindings of that template although others were tried before; its response code goes by what it returns or throws |
| `Dispatch.Handler.ShowError` | src/api/Handler.cpp:177-187 | the error is answered and the match object has no bindings |
| `Dispatch.RegisteredEntries` | src/api/Handler.cpp:157-173 | every entry of the table is registered with its own endpoint and nothing else is |
| `Dispatch.OnlyTheCandidate` | src/api/Handler.cpp:157-173 | any URL whatever is accepted by at most one entry |
| `Dispatch.TableIsUnambiguous` | src/api/Handler.cpp:157-173 | no two registered templates overlap |
| `Dispatch.OrderIndependent` | src/api/Handler.cpp:196-202 | for an unambiguous map the order of iteration does not matter |
| `Dispatch.AmbiguityShows` | src/api/Handler.cpp:196-202 | for every ambiguous map it does: some URL is routed differently by two orders |
| `Dispatch.TableDispatch` | src/api/Handler.cpp:196-202 | an entry is selected exactly if it accepts the URL, wherever it stands in the order |
| `Dispatch.LiteralServes` | src/api/Handler.cpp:158-172 | an entry without keys serves its own path only |
| `Dispatch.KickServes` | src/api/Handler.cpp:160 | served are the prefix and a nonempty slash-free name, and that name is bound |
| `Dispatch.BanServes` | src/api/Handler.cpp:161 | the same for bans |
| `Dispatch.TableResponse` | src/api/Handler.cpp:196-202 | the endpoint of the one accepting entry, with its bindings, in any order of iteration |
| `Dispatch.ResponseFromTable` | src/api/Handler.cpp:189-205 | 404 if no entry accepts; an endpoint is reached through its own entry only |
| `Service.Serve` | src/api/Handler.cpp:157-249 | a fresh handler with its routes registered answers 401 exactly without a listed address, body, password and hash; otherwise each of the eleven endpoints is reached exactly by its path, written out, with a kick or ban bound to the name in the URL, the code is 200, 417 or 500 by its reply, and any other URL gets 404 |
| `FieldsAlloc.OutcomeIsIntended` | src/api/FieldsAlloc.hpp:68-70 | alloc(n) succeeds or fails as p_ + n < end() in unbounded arithmetic says, exactly if the addition does not wrap |
| `FieldsAlloc.WrappedPointer` | src/api/FieldsAlloc.hpp:68-73 | on an empty pool, n = 2^64 - 1 is granted, and p_ moves back below the pool |
| `FieldsAlloc.StepSound` | src/api/FieldsAlloc.hpp:65-83 | an allocation keeps the invariant exactly if neither p_ + n nor the counter wraps, a deallocation exactly if it is of a live block |
| `FieldsAlloc.RunSound` | src/api/FieldsAlloc.hpp:65-83 | so every legal run keeps it |
| `FieldsAlloc.LiveBlocksAreDisjoint` | src/api/FieldsAlloc.hpp:65-83 | after any legal run the addresses granted for the live blocks lie in the pool, no two live blocks share a byte, and count_ is their number |
| `FieldsAlloc.EmptyIsFresh` | src/api/FieldsAlloc.hpp:80-82 | with nothing live the pool is as new |
| `FieldsAlloc.NothingIsReused` | src/api/FieldsAlloc.hpp:72-74 | while some block is live, what is granted lies one behind another, from the old p_ to the new one |
| `FieldsAlloc.FailsWhenFull` | src/api/FieldsAlloc.hpp:68-70 | between two empty moments p_ minus the base is the sum of the sizes granted, and alloc(n) fails exactly when that sum plus n reaches the size |
| `FieldsAlloc.LiveBlockIsKept` | src/api/FieldsAlloc.hpp:65-83 | until it is given back, a live block keeps its address, and whatever is granted meanwhile lies behind it |
| `FieldsAlloc.AllocationIsSafe` | src/api/FieldsAlloc.hpp:65-83 | so what alloc returns shares no byte with any block live or granted until it is given back |
| `FieldsAlloc.StaticPool.Alloc` | src/api/FieldsAlloc.hpp:65-75 | without a wrap, fails exactly when n bytes and one more are not free, and then changes nothing; otherwise returns the old p_; with a wrap, succeeds and moves p_ back |
| `FieldsAlloc.StaticPool.Dealloc` | src/api/FieldsAlloc.hpp:77-83 | one step of the pool: the counter goes down, and p_ returns to the base when it reaches 0; sound exactly if the block was live |
| `FieldsAlloc.StaticPool.ShareAndDestroy` | src/api/FieldsAlloc.hpp:49-63 | any sequence of calls on a pool object frees it exactly if Frees says so, and otherwise leaves the count at the balance of the calls |
| `FieldsAlloc.FreesOneTooLate` | src/api/FieldsAlloc.hpp:56-63 | which is the case exactly if at some point one more reference was destroyed than existed |
| `FieldsAlloc.Lifetimes` | src/api/FieldsAlloc.hpp:125-145 | handle objects made, copied and destroyed once each, in any order and down to none: refs_ is the number of handles, and the pool is never freed |
| `FieldsAlloc.Handle.Copy` | src/api/FieldsAlloc.hpp:131-140 | a copy shares the pool of the original |
| `FieldsAlloc.Handle.Allocate` | src/api/FieldsAlloc.hpp:147-152 | a step of the shared pool; a granted block has room for n elements exactly if n * sizeof(T) is below 2^64, and they lie in the pool exactly if its end does not wrap either |
| `FieldsAlloc.Handle.Deallocate` | src/api/FieldsAlloc.hpp:154-158 | a step of the shared pool, sound exactly if the block was live |

## Left out

- `XXH_FORCE_MEMORY_ACCESS`, compiler intrinsics, `XXH_ACCEPT_NULL_INPUT_POINTER`, `XXH_FORCE_NATIVE_FORMAT` other than 0, malloc and free of states: other routes to the same values, or off by default.
- Xxh32Stream.State.UpdateEndian: does not model overflow of `memsize + len` in `size_t` or of pointers near the top of the address space, because no object is that large.
- Xxh64Stream.State.UpdateEndian: the same for its sum and its pointers.
- `large_len` is a truth value in the model: the C code only ever sets it to 0 or 1 and compares it with 0.
- Xxh64Stream.Simple: is stated for inputs below 2^64 bytes, because its length argument is a `size_t`.
- Differences inside the stripes of XXH64: the merge rounds use every lane a second time, so no statement about single reads is made there.
- Template.ParseOfRewrite: which URLs a template with metacharacters among its literal characters accepts is left to the library; no registered template has any.
- Routing.Match.Test: requires that the route has been set, as every match object of the plugin has been obtained from `set`; the early return for an empty `sm_values` is left out, because a successful match always has its first entry; and an access out of range ends the test, because C++ does not say how it goes on.
- RoundTrip.FillTestGet: promises nothing for templates that are not plain, as what they accept is up to the library.
- The cache of `Route` is never filled by the code; a cached path is taken to be that of its template, and its expression is compiled again.
- Dispatch.Handler.HandleRequest: requires that all registered templates are plain; the JSON decoding of bodies and what the handler functions do to the server are not modelled.
- FieldsAlloc.StaticPool.ShareAndDestroy: the count of references does not wrap upwards, because each reference is held by a handle object of its own.
- FieldsAlloc.StaticPool.Dealloc: the destructors of what lay in the block are not modelled.
- FieldsAlloc.Handle.Allocate: placement new, alignment, `rebind` and the comparison of handles are left out, and so is a size of the whole pool that wraps in `construct`.
- Session, Endpoint, Api, Player, PlayerManager, Config, Log and the JSON codecs: plumbing around libraries whose semantics are not in the repository.
