# A verified model of a Brotli decoder

This project models the streaming Brotli decoder of `src/decode.rs` (an implementation of RFC 7932) and proves
that its hand-optimised, suspendable loops mean what the format says. Each component has a small specification
written independently of the loops, and the loops, as imperative Dafny over arrays and mutable fields, are proved
against it.

The main results are about whole runs.

* `Decoder.Session`: a decoder that keeps its window in a power-of-two ring, guesses 16 bytes at a time past its
  position, wraps late through a slack area, may shrink the ring, and can be stopped wherever input or output
  runs out, hands out bytes that are always the beginning of what a decoder with an unbounded history would produce.
  With all of the input, and room for the rest of the output in the last call, it accepts exactly the streams that
  deserve it, rejects exactly those that are invalid, and has handed out all of the output of any that is not
  rejected. The schedule of calls, what could be peeked at, and the size of the ring do not appear in the outcome
  (`Decoder.TwoSchedules`). An accepted stream has produced exactly the number of bytes its meta-blocks announced, and
  at every step in between what has been produced, charged and left over adds up to what was announced.
* `Streaming.Session`: with the input cut anywhere and output taken in any portions, the driver with its 8-byte
  stash loses, repeats and reorders no bit: it ends in the state in which a decoder that had all its input at once
  ends. It asks for room only when everything that was granted is used up, so enough of it decides the run.
* `EndToEnd.DecodeStream`: the driver over the whole decoder as a machine that reads bits: headers, prefix codes, stored
  bytes, commands, literals and distances with their block switches and context-dependent trees, and stops for a full
  ring. The machine is shown to be of the kind the driver relies on (`BitDecoder.BitMachineIsLawful`). The meta-blocks
  that the bits of a stream say are computed by a function, and however input and output are cut, the machine succeeds
  exactly on the streams whose meta-blocks are accepted, fails exactly on those that are rejected or whose bits make no
  sense, and has produced what they stand for, to the last byte before the place where an incomplete stream breaks off
  (`BitMeaning.RunMeans`). Two ways of cutting the same bytes end in the same result and the same state
  (`EndToEnd.DecodeTwice`). `EndToEnd.DecodeBoth` puts the ring decoder behind it: both accept the same streams and
  produce the same bytes.
* `StreamWriting.StreamRoundTrip`: the bits themselves. A writer of whole streams keeps its own account of block types
  and counts, of contexts, and of the position in the stream, in terms of lists and plain arithmetic. Whatever it has
  written (skipped and stored bytes, and commands with their block switches, literals in their contexts, and distances)
  is read back by the machine over bits, which ends the stream having produced what the commands mean, whatever
  follows; `StreamWriting.DecodeWritten` is the same for bytes in any portions. Every sequence of bytes is what some
  stream decodes to (`StreamWriting.EveryOutputHasAStream`). What comes before the commands of a meta-block has a writer,
  too: simple and complex prefix codes, block types with their first counts, distance parameters, context modes, context
  maps, moved to front or not, and all trees (`TreeWriting.TreesRoundTrip`). And along every run the place in the current
  byte is what the bits taken leave over, padding is skipped up to the next byte and has to be zeros, and a stored
  meta-block holds the bytes of the stream that begin there (`BitPositions.RunInStep`, `BitPositions.StoredIsSlice`).
* The results on streams of bytes are about those that do not exhaust a block count. Where a meta-block has a single
  block type for a category, its count of 2^24 cannot be renewed, and the decoder does not decode what calls for more.
  `BlockCounts.CountsRunOut` gives the exact condition, `SpentCounts.SomeStreamIsOverused` a stream that meets it
  (commands whose dictionary word vanishes in its transform), and `SpentCounts.InOneShot`, `SpentCounts.AlwaysPutBack`
  and `SpentCounts.CodeIsUnlawful` say what the decoder does there: neither the size of the stash nor independence of
  how the input is cut holds any longer.

The files, from the bottom up:

| file | subject |
|---|---|
| `Results.dfy`, `Bytes.dfy`, `BitReader.dfy` | results, numbers, bits, and the bit accumulator in front of the unread bytes |
| `SymbolDecoding.dfy` | two-level prefix code tables: fast, safe and preloaded reading agree |
| `CodeLengthCode.dfy`, `CodeLengths.dfy`, `CodeLengthLoops.dfy` | complex prefix codes: the code length code, run lengths, symbol chains in one array, Kraft sums in wrapping arithmetic, the fast and the safe loop |
| `MoveToFront.dfy`, `ContextMap.dfy` | context maps, and the lazily reinitialised move-to-front table |
| `BlockTypes.dfy` | block switches, and the shortcut for literals whose context does not matter |
| `Distances.dfy`, `DistanceReading.dfy` | the recent-distance ring, distance codes both ways, the largest usable distance symbol, and reading them |
| `Transform.dfy` | static dictionary words: in-place uppercasing against the guarded definition |
| `SlidingWindow.dfy` | the ring buffer as a view of an unbounded history |
| `CommandSpec.dfy`, `Resumption.dfy`, `Decoder.dfy` | what a stream of commands means, what a suspended decoder will still do, and the decoder itself |
| `MetablockHeaders.dfy`, `CommandPrefixes.dfy`, `Streaming.dfy` | indivisible reads, and the driver that feeds them |
| `BitDecoder.dfy`, `BitMeaning.dfy` | the decoder as a machine over bits, and what the bits mean |
| `Parsers.dfy`, `TreeReading.dfy` | readers that may be put together, and the one that reads all prefix codes of a meta-block |
| `BlockCounts.dfy`, `EndToEnd.dfy`, `BitPositions.dfy`, `SpentCounts.dfy` | when block counts run out, both decoders together, where in the stream the bits are read, and what happens to streams that exhaust a count |
| `TreeWriting.dfy`, `StreamWriting.dfy` | writers for what is in front of the commands and for whole streams, and that the decoder reads back what they have written |

Two ideas carry most of the proofs. A suspendable reader is specified by its future: a function of what it knows
and of all bits still to come, which no step may change. So "interrupted anywhere" needs no case analysis, and the
two sides of an interruption cannot disagree. And the ring is never described by what it contains, but by
which history byte each reachable slot still holds (`Front`, `Back`); bytes clobbered by speculative writes are those
about which nothing is said, and no distance that the format allows leads to them.

The tables, the dictionary and the reader of prefix codes that `BitDecoder` takes as parameters have to meet
`Format.Valid`; `PlainFormat` shows that this can be met for any dictionary and window. `TreeReading.WithTrees` is the
decoder with the reader of section 9.2 of RFC 7932, for any builder of tables; `PlainBuilder` is one.

Some details that follow the code to the letter: the meta-block header reader accepts a metadata block with the
last-block bit set; a failed type code in a block switch leaves the pulled bytes in the accumulator, while a failed
count puts them back; for an empty word, uppercasing touches three bytes past what is counted instead of two; a stream
that overruns its meta-block is rejected only when the meta-block ends or is written out, so up to that point bytes may
have been handed out, and they are those of the specification.

## Model

| member | source | states |
|---|---|---|
| Decoder.Session | src/decode.rs:2779-3402 | for every sequence of calls, the concatenated output is the beginning of what the unbounded-history semantics produces; with all input units and room for the rest in the last call, success exactly for accepted streams, failure exactly for rejected ones, and all of the output unless rejected; an accepted stream has the announced number of bytes |
| Decoder.TwoSchedules | src/decode.rs:2779-3402 | two ways of cutting input and output, with or without a shrunken ring: with all of the input and enough room in the end, same result and same bytes; and in any case one output is the beginning of the other |
| Decoder.Drive | src/decode.rs:2829-3402 | calls one after another, unspent input carried over: what is left to read of the stream is never more than what has not been offered or spent |
| Decoder.Decoder.Settled | src/decode.rs:2829-3402 | with all units offered and room for what is missing, only an incomplete stream is left undecided, and all it stands for has been handed out |
| Decoder.Decoder.Decompress | src/decode.rs:2829-3402 | one call, with any number of input units and any output space: the stream comes closer to its outcome by every unit that the call keeps from the caller; it stops for input only when its units are used up or there are no more, and then has handed out all it could; for output only when the space is full and something is left to write |
| Decoder.Decoder.Advance | src/decode.rs:2917-3400 | the outer state loop terminates, keeps the outcome of the stream, and accounts for every input unit it takes |
| Decoder.Decoder.Turn | src/decode.rs:2917-3400 | every turn of the state loop comes closer to the end of the stream or stops with a reason the caller can rely on |
| Decoder.Decoder.Conclude | src/decode.rs:2835-2846 | the forced write before a return hands out everything that has been produced, as far as there is room, without changing the outcome; overruns found there are those of rejected streams |
| Decoder.Decoder.DeliveredIsPrefix | src/decode.rs:1693-1738 | at any moment what has been delivered is a prefix of the stream's output, and all that has been produced if nothing is unwritten |
| Decoder.Decoder.ProcessCommands | src/decode.rs:2330-2744 | the command loop, with input units running out anywhere, keeps the future of the stream and takes every unit it uses off what is left; failure only if the stream is invalid |
| Decoder.Decoder.ReadCommand | src/decode.rs:2377-2390 | taking a command, and charging its literals to the meta-block, keeps the future |
| Decoder.Decoder.InsertLiteral | src/decode.rs:2443-2454 | one literal, and the stop when the ring is full or the literals are in, keeps the future |
| Decoder.Decoder.InsertLiterals | src/decode.rs:2391-2558 | the literal loop stops for input with nothing left over, for a full ring, or when done, and every unit it takes is a literal put |
| Decoder.Decoder.TakeDistance | src/decode.rs:2560-2578 | the distance taken is the one section 4 of RFC 7932 gives, and the recent list can still be recovered |
| Decoder.Decoder.UpdateMaxDistance | src/decode.rs:2583-2589 | the recomputed bound is exactly min(window - 16, dictionary + output), whatever the custom dictionary and the rounds |
| Decoder.Decoder.PutWord | src/decode.rs:2593-2640 | a distance out of reach puts the transformed dictionary word, or fails exactly on streams that are invalid there; which word that is, `CommandSpec.ReferenceIsNumbered` says |
| Decoder.Decoder.AppendWord | src/decode.rs:2604-2619 | the transformed word joins the history, is charged to the meta-block, and leaves the recent distances alone |
| Decoder.Decoder.RecordDistance | src/decode.rs:2642-2645 | the distance joins the recent ones and the copy is charged to the meta-block, without changing the future |
| Decoder.Decoder.StartCopy | src/decode.rs:2641-2688 | a distance in reach records it, copies or starts the wrap-copy, and keeps the future |
| Decoder.Decoder.WrapCopyByte | src/decode.rs:2693-2706 | one byte of the wrap-copy, possibly suspended at the ring end, keeps the future |
| Decoder.Decoder.WrapCopy | src/decode.rs:2690-2720 | the wrap-copy loop, suspended and resumed, keeps the future |
| Decoder.Decoder.Flush | src/decode.rs:3302-3316 | an unforced write either waits for output, or leaves a full-size ring at the start of a round with every window distance in reach |
| Decoder.Decoder.FinishWrite | src/decode.rs:3299-3344 | resuming after a write continues literals, copy or next command so that the future is the same |
| Decoder.Decoder.CopyUncompressed | src/decode.rs:1754-1806 | an uncompressed meta-block arrives in the output whatever the input and output portions; every unit taken is a byte copied |
| Decoder.Decoder.AllocateRingBuffer | src/decode.rs:1808-1871 | whether or not the next header can be peeked at, the ring starts with the reachable dictionary as history, and is shrunk only in front of the last output of the stream and with room for all of it |
| Decoder.Decoder.BeginMetablock | src/decode.rs:2995-3014 | entering a meta-block keeps the future, with or without a new ring, and starts the account of what it owes |
| Decoder.Decoder.EndMetablock | src/decode.rs:3345-3364 | a meta-block that owes less than nothing is rejected here, and that is what the stream deserves |
| CommandSpec.CommandConserves | src/decode.rs:2388-2388 | bytes produced plus bytes owed is unchanged by every command; a command ends its meta-block exactly when nothing is owed any more |
| CommandSpec.AcceptedLength | src/decode.rs:3345-3364 | an accepted stream is as long as its meta-blocks announced, over all meta-blocks |
| CommandSpec.WordListsTile | src/dictionary/mod.rs:3-9 | the lists of words of each length meet without gap or overlap, from the start of the dictionary to its end |
| CommandSpec.ReferenceIsNumbered | src/decode.rs:2599-2609 | every word under every transform has a number, transform first, and a reference by that number is that stretch of the dictionary with that transform; beyond the last transform there is nothing |
| CommandSpec.WordInBounds | src/decode.rs:2599-2609 | every word a dictionary reference can name lies inside the dictionary |
| CommandSpec.HistoryGrows | src/decode.rs:2330-2744 | no stream ever takes back a byte |
| Resumption.OverrunIsRejected | src/decode.rs:1709-1711 | once a meta-block has been overrun, every continuation is rejected |
| Resumption.FutureGrows | src/decode.rs:2330-2744 | wherever a decoder is suspended, what it has produced is a prefix of what it will have produced |
| Resumption.Copied | src/decode.rs:2693-2706 | copying n bytes and suspending leaves the same future as copying all at once |
| Resumption.CommandRead | src/decode.rs:2377-2390 | a command taken, and its literals charged: same future, one unit less to read, and the same account |
| Resumption.LiteralTaken | src/decode.rs:2443-2454 | a literal put: same future, whether it fills the ring, is the last, or neither |
| Resumption.WriteResumed | src/decode.rs:3317-3343 | after a write, copy, literals or distance go on as if it had not been necessary |
| Resumption.NothingLeft | src/decode.rs:2829-2896 | a decoder that waits for input when there is none left waits for good: the stream is incomplete, and all it stands for has been produced |
| Resumption.BadDistance | src/decode.rs:2594-2596 | a distance that is neither in reach nor a dictionary word makes the stream invalid |
| SlidingWindow.CopyWithoutOverlap | src/decode.rs:2665-2679 | byte-by-byte copying equals a block copy when the distance covers the length |
| SlidingWindow.CopySplits | src/decode.rs:2690-2711 | copies compose: m then n bytes is m + n bytes, overlap included |
| SlidingWindow.DistanceIsGenuine | src/decode.rs:2650-2651 | every distance the window allows addresses a genuine history byte in the ring, never a clobbered or stale one |
| SlidingWindow.FastCopyContent | src/decode.rs:2650-2679 | after the block copy the ring shows the history of a byte-by-byte copy |
| SlidingWindow.GuessIsHarmless | src/decode.rs:2646-2664 | the speculative 16 bytes disturb nothing that an allowed distance can reach |
| SlidingWindow.WordContent | src/decode.rs:2611-2619 | a dictionary word and the two bytes uppercasing may touch after it leave the ring in step with the history |
| SlidingWindow.SlackMoved | src/decode.rs:1746-1748 | moving the slack to the front gives the ring that an immediate wrap would have given |
| SlidingWindow.RingSize | src/decode.rs:1843-1850 | the shrunken ring is a power of two, no larger than the window, and still holds dictionary, meta-block and gap |
| SlidingWindow.ReachableFromEnd | src/decode.rs:1829-1838 | a distance within the window reaches the custom dictionary at that distance from its end, and a longer one does not |
| SlidingWindow.Window.constructor | src/decode.rs:1808-1871 | the ring begins as a view of the reachable end of the custom dictionary |
| SlidingWindow.Window.PutLiteral | src/decode.rs:2423-2443 | a literal extends the history by one byte |
| SlidingWindow.Window.Memmove16 | src/decode.rs:2203-2230 | sixteen bytes move as a block, even onto themselves |
| SlidingWindow.Window.MemcpyWithinSlice | src/decode.rs:2232-2253 | the block copy moves exactly n bytes between ranges that do not overlap |
| SlidingWindow.Window.CopyBackReference | src/decode.rs:2650-2679 | the fast path either asks for the wrap-copy with the history untouched, or extends the history as a byte-by-byte copy does; at most 15 bytes past the new position are disturbed, 16 when the copy wraps or is empty |
| SlidingWindow.Window.CopyByte | src/decode.rs:2693-2698 | one wrap-copy byte appends the history byte at the given distance |
| SlidingWindow.Window.PutDictionaryWord | src/decode.rs:2608-2619 | the history grows by the transformed word, possibly into the slack |
| SlidingWindow.Window.PutBytes | src/decode.rs:1771-1777 | uncompressed bytes extend the history |
| SlidingWindow.Window.WriteRingBuffer | src/decode.rs:1693-1738 | the chunk handed out continues what was delivered before and is as long as space allows; exactly when a full-size ring has been emptied past its end does a new round begin |
| SlidingWindow.Window.Slice | src/decode.rs:1712-1713 | the slice at the masked output position is the next stretch of history |
| SlidingWindow.Window.WrapRingBuffer | src/decode.rs:1740-1752 | slack bytes move to the front once, and the history is unchanged |
| Transform.ToUpperCase | src/transform.rs:720-735 | the unguarded step changes the counted bytes as the guarded one does, and nothing beyond two bytes after its first |
| Transform.StepIsUpperAt | src/transform.rs:776-781 | a step that reaches past the end leaves the counted bytes as the length-guarded definition has them |
| Transform.UpperFlips | src/transform.rs:720-735 | bit by bit: which bits of which byte a change flips, by the leading ones of the first byte; no other bit of the word changes |
| Transform.StepIsLead | src/transform.rs:720-735 | how far it is to the next character, by the leading ones again |
| Transform.Omitted | src/transform.rs:752-770 | the omitting kinds leave out one to nine bytes, at the end or at the beginning |
| Transform.Uppercased | src/transform.rs:771-783 | one kind changes the first character, another all of them |
| Transform.UppercaseAll | src/transform.rs:775-782 | the uppercasing loop equals the guarded fold over the word, truncated UTF-8 included |
| Transform.WriteMiddle | src/transform.rs:752-783 | omissions longer than the word give nothing; otherwise the kept part, uppercased as asked |
| Transform.TransformDictionaryWord | src/transform.rs:737-795 | prefix, transformed word and suffix in a row, at most 13 bytes longer than the word, and at most two further bytes touched (three for an empty word) |
| Transform.Glue | src/transform.rs:743-794 | three writes in a row, each spilling over, still show all three texts |
| Transform.FirstTransform | src/decode.rs:2610-2612 | transform 0 is the word itself, which is what the shortcut copies |
| Distances.PackedConstants | src/decode.rs:2027-2037 | the two packed constants hold slot and offset of every short code |
| Distances.DistanceCache.constructor | src/state.rs:295-296 | the recent distances start as 4, 11, 15, 16 |
| Distances.DistanceCache.TakeLast | src/decode.rs:2560-2564 | the implied distance is the last one, and the list can still be recovered |
| Distances.DistanceCache.TakeDistanceFromRingBuffer | src/decode.rs:2017-2049 | every short code gives the distance of section 4 of RFC 7932, or an impossible one where that would not be positive |
| Distances.DistanceCache.Remember | src/decode.rs:2642-2644 | recording pushes the distance, except that code 0 leaves the list as it was |
| Distances.DistanceCache.Forget | src/decode.rs:2605-2605 | a dictionary reference leaves the recent distances as they were |
| Distances.DecodeEncode | src/decode.rs:2099-2128 | every positive distance has a symbol and extra bits that give it |
| Distances.EncodeDecode | src/decode.rs:2099-2128 | and no other symbol and extra bits do: non-short pairs map one-to-one onto the positive distances |
| Distances.FastAgrees | src/decode.rs:2104-2108 | the shortcut for a postfix of no bits agrees with the general formula |
| Distances.MaxDistanceSymbolIsExact | src/decode.rs:2764-2777 | a symbol lies below the bound if and only if all its distances are at most 0x7FFFFFFC, for every postfix width and direct-code count |
| Distances.LargestMonotone | src/decode.rs:2099-2128 | larger symbols reach strictly larger distances |
| DistanceReading.ExtraIsShort | src/decode.rs:2764-2777 | no symbol below the bound has more than 30 extra bits, so that one read suffices even with large windows |
| DistanceReading.DistanceAgrees | src/decode.rs:2066-2130 | whatever starts with the bits of a distance code reads as the same code |
| DistanceReading.DistanceIsShort | src/decode.rs:2066-2130 | a distance code that cannot be read has fewer than 45 bits at hand, and none takes more |
| DistanceReading.ReadDistanceSymbol | src/decode.rs:2076-2090 | the symbol is read exactly when it has arrived |
| DistanceReading.ReadExplicit | src/decode.rs:2099-2128 | the shortcut and the general branch, checked or not, give the distance of section 4 of RFC 7932 for the extra bits in the stream |
| DistanceReading.ReadDistanceInternal | src/decode.rs:2066-2131 | a distance code is read completely and resolved against the recent distances, or the unread bits and the recent distances are as before and the code is marked as unread |
| BitReader.ByteBitsConcat | src/bit_reader/mod.rs:228-242 | the bits of consecutive inputs are consecutive |
| BitReader.ValueOfBits | src/bit_reader/mod.rs:26-30 | a number is recovered from its bits |
| BitReader.BitsOfValue | src/bit_reader/mod.rs:26-30 | bits are recovered from their number |
| BitReader.ValueSplit | src/bit_reader/mod.rs:261-293 | masks and shifts of the accumulator are slices of the bit stream |
| BitReader.Reader.Restore | src/bit_reader/mod.rs:72-86 | saving and restoring is exact |
| BitReader.Reader.PullByte | src/bit_reader/mod.rs:228-242 | a pulled byte moves to the accumulator without changing what can be read |
| BitReader.Reader.FillBitWindow | src/bit_reader/mod.rs:135-171 | enough bits are at hand afterwards, and the stream is the same |
| BitReader.Reader.DropBits | src/bit_reader/mod.rs:291-293 | exactly n bits are consumed |
| BitReader.Reader.SafeGetBits | src/bit_reader/mod.rs:275-287 | a peek sees the next n bits, or finds that there are fewer and has pulled them all |
| BitReader.Reader.SafeReadBits | src/bit_reader/mod.rs:362-374 | consumes exactly n bits, or none |
| BitReader.Reader.ReadBits | src/bit_reader/mod.rs:323-338 | the unchecked read takes the same bits |
| SymbolDecoding.DecodeIsStable | src/decode.rs:402-441 | a symbol that could be decoded is not changed by further input |
| SymbolDecoding.DecodeIsMinimal | src/decode.rs:402-441 | only the bits of the codeword are needed |
| SymbolDecoding.DecodeAgrees | src/decode.rs:402-441 | whatever starts with the codeword decodes to the same symbol |
| SymbolDecoding.WalkDecodes | src/decode.rs:378-394 | the two-level walk by masks and shifts finds the first codeword of the stream |
| SymbolDecoding.DecodeSymbol | src/decode.rs:378-394 | with 15 bits at hand, symbol and consumed bits are those of the first codeword |
| SymbolDecoding.SafeDecodeSymbol | src/decode.rs:402-441 | with fewer bits and no more input, succeeds exactly when the codeword has arrived, and then agrees; otherwise nothing has changed |
| SymbolDecoding.SafeReadSymbol | src/decode.rs:443-458 | a symbol is read exactly when its codeword has arrived |
| SymbolDecoding.ReadSymbol | src/decode.rs:396-400 | the unchecked read agrees |
| SymbolDecoding.PreloadSymbol | src/decode.rs:460-476 | the preloaded entry is that of the next 8 bits |
| SymbolDecoding.ReadPreloadedSymbol | src/decode.rs:478-500 | reading ahead yields the same symbols, and preloads the next |
| CodeLengthCode.TableIsCode | src/decode.rs:58-61 | the two 16-entry tables are the fixed prefix code of section 3.5 of RFC 7932 |
| CodeLengthCode.OrderIsBySize | src/decode.rs:55-56 | in the order of the stream the lengths of the codes for 0 and for repetitions come early, the others by size |
| CodeLengthCode.ShortTable | src/decode.rs:816-830 | with fewer than four bits at hand the padded lookup succeeds exactly when the codeword has arrived |
| CodeLengthCode.ReadCodeword | src/decode.rs:816-835 | one code length is read exactly when its codeword has arrived |
| CodeLengthCode.ReadingAgrees | src/decode.rs:801-860 | whatever starts with the bits of the code length code reads as the same |
| CodeLengthCode.Reading.Store | src/decode.rs:836-848 | counts and 32-bit space stay exact, and the loop stops exactly when the order is exhausted or the space used up or overdrawn |
| CodeLengthCode.Reading.ReadCodeLengthCodeLengths | src/decode.rs:799-856 | interrupted anywhere, the lengths are those of the format, and they are accepted if and only if there is a single code or the space is used up exactly |
| CodeLengths.ExpandSingle | src/decode.rs:565-589 | a single length adds one symbol, ends the run and is remembered unless it is 0 |
| CodeLengths.ExpandRepeat | src/decode.rs:612-632 | the incremental run length is that of section 3.5 of RFC 7932 taken over the whole run, and every further repeat adds at least 3 |
| CodeLengths.RunIsWritten | src/decode.rs:612-632 | every run of at least 3 equal lengths can be written as repeats |
| CodeLengths.RunIsUnique | src/decode.rs:612-632 | and in one way only |
| CodeLengths.FirstRepeat | src/decode.rs:967-984 | a repeat with no length before it stands for eights |
| CodeLengths.SinglesExpand | src/decode.rs:565-589 | lengths written one by one stand for themselves |
| CodeLengths.SymbolsOfComplete | src/decode.rs:640-656 | every symbol of a length is listed |
| CodeLengths.ChainListsSymbols | src/decode.rs:578-581 | following the links from slot L for as many steps as the histogram says lists exactly the symbols of length L, in increasing order |
| CodeLengths.LinkNext | src/decode.rs:578-584 | linking one symbol extends its own chain and no other |
| CodeLengths.KraftBound | src/decode.rs:652-652 | the Kraft sum grows by at most 2^14 a symbol, so no allowed alphabet comes near 2^32, which is why the wrapped space can be trusted (`CodeLengths.SpaceIsExact`) |
| CodeLengths.SpaceIsExact | src/decode.rs:996-999 | the wrapped space is 0 if and only if the Kraft sum is exactly 2^15 |
| CodeLengths.CodeLengthReader.constructor | src/decode.rs:967-984 | the chains start empty, the space at 2^15, the previous length at 8 |
| CodeLengths.CodeLengthReader.ProcessSingleCodeLength | src/decode.rs:565-589 | appends one length: lengths, chains, histogram, tails and space stay those of the tokens read |
| CodeLengths.CodeLengthReader.ProcessRepeatedCodeLength | src/decode.rs:600-658 | appends a run likewise, or ends the reading with the space error exactly when it would overrun the alphabet |
| CodeLengthLoops.NextTokenIsStable | src/decode.rs:748-781 | a code length symbol with its extra bits is not changed by further input |
| CodeLengthLoops.ReadingIsStable | src/decode.rs:661-797 | an outcome of the reading that has been reached is not changed by further input |
| CodeLengthLoops.ReadingAgrees | src/decode.rs:661-797 | whatever starts with the bits of the code lengths reads as the same lengths, and these fill the alphabet at most and use up the code space |
| CodeLengthLoops.TakeToken | src/decode.rs:689-727 | one turn of either loop consumes and processes exactly the next token, and leaves the outcome of the whole reading as it is |
| CodeLengthLoops.ReadSymbolCodeLengths | src/decode.rs:661-731 | the fast loop, stopped anywhere, leaves the outcome of the reading as it is, and goes no further than the first complete code |
| CodeLengthLoops.SafeReadSymbolCodeLengths | src/decode.rs:733-797 | so does the safe loop, from wherever it finds the reading; it stops only when the code is complete or the next token has not arrived |
| CodeLengthLoops.ReadCodeLengths | src/decode.rs:986-999 | fast then safe, interrupted anywhere: success exactly when the functional reading of all the bits is complete with the space used up, and then with its lengths and its unread bits and with chains that list the symbols; the error exactly when it overruns or leaves space; more input only when that reading needs more |
| MoveToFront.InverseUndoesForward | src/decode.rs:1081-1095 | the inverse transform undoes the forward transform on every byte sequence |
| MoveToFront.ForwardUndoesInverse | src/decode.rs:1081-1095 | and the other way round |
| MoveToFront.RoundTrip | src/decode.rs:1081-1095 | from the fresh list, inverse after forward is the identity on every byte sequence |
| MoveToFront.InverseBound | src/decode.rs:1411-1417 | values below n stay below n |
| MoveToFront.Table.constructor | src/state.rs:353-355 | a new table counts as changed everywhere, so that the first call resets all of it |
| MoveToFront.Table.Reinitialize | src/decode.rs:1100-1104 | resetting the entries up to the remembered bound gives the whole identity table |
| MoveToFront.Table.Shift | src/decode.rs:1113-1124 | the shifting loop moves one element to the front and leaves those behind it alone |
| MoveToFront.Table.InverseMoveToFrontTransform | src/decode.rs:1096-1128 | in place, every call sharing the table equals the textbook transform from a fresh list |
| ContextMap.CompleteMapIsSound | src/decode.rs:1348-1404 | a decoded map has exactly the right size and only entries below the number of trees |
| ContextMap.MapAgrees | src/decode.rs:1348-1404 | whatever starts with the bits of a map reads as the same map, and an invalid one stays invalid |
| ContextMap.ContextMapDecoder.TakeSymbol | src/decode.rs:1355-1376 | one symbol is an entry, a zero, or a run remembered for later |
| ContextMap.ContextMapDecoder.TakeRun | src/decode.rs:1377-1400 | a run, resumed or not, adds its zeros or is rejected exactly when it would overrun the map |
| ContextMap.ContextMapDecoder.DecodeEntries | src/decode.rs:1348-1404 | interrupted anywhere, even inside a run, the entries are those of section 7.3 of RFC 7932 |
| ContextMap.ContextMapDecoder.TransformEntries | src/decode.rs:1405-1424 | the optional inverse move-to-front keeps every entry below the number of trees |
| BlockTypes.LengthRangesTile | src/prefix.rs:9-113 | the ranges of the block count codes meet without gap or overlap |
| BlockTypes.EveryCountHasACode | src/prefix.rs:9-113 | and cover every count from 1 to the largest meta-block |
| BlockTypes.ReadBlockLength | src/decode.rs:1016-1026 | the unchecked block count is the one in the stream |
| BlockTypes.SafeReadBlockLength | src/decode.rs:1031-1069 | the checked one is read exactly when all of it has arrived |
| BlockTypes.Category.constructor | src/state.rs:422-435 | a category starts with block type 0 after block type 1, and with a count of 2^24 |
| BlockTypes.Category.DecodeBlockTypeAndLength | src/decode.rs:1469-1524 | a block switch is read completely, with the type section 6 of RFC 7932 gives (`BlockTypes.BackAndForth`, `BlockTypes.FollowingVisitsAll`, `BlockTypes.NamedType`) and both remembered types below the number of types, or the unread bits and the types are as before |
| BlockTypes.DecodeDistanceBlockSwitch | src/decode.rs:1643-1660 | after a distance block switch the slice of the context map is in range and the pending command's tree is the one its context picks there; without one nothing has changed |
| BlockTypes.SwitchAgrees | src/decode.rs:1469-1507 | whatever starts with the bits of a block switch reads as the same switch |
| BlockTypes.SwitchIsShort | src/decode.rs:1469-1507 | a block switch needs at most 54 bits |
| BlockTypes.Advance | src/decode.rs:1509-1520 | the subtraction that replaces the division gives the type of section 6 of RFC 7932, below the number of types |
| BlockTypes.BackAndForth | src/decode.rs:1511-1520 | two switches with code 0 in a row go to the type before the last one and back, and leave both remembered types as they were |
| BlockTypes.FollowingVisitsAll | src/decode.rs:1511-1520 | as many switches with code 1 as there are types visit every type exactly once, the present one last |
| BlockTypes.NamedType | src/decode.rs:1511-1520 | every type can be named, by the code that is two more |
| BlockTypes.SetBit | src/decode.rs:1549-1549 | or-ing a power of two sets that bit and no other |
| BlockTypes.LiteralTables.SameTree | src/decode.rs:1533-1547 | the or-ed exclusive ors are 0 if and only if all 64 contexts share a tree |
| BlockTypes.LiteralTables.DetectTrivialLiteralBlockTypes | src/decode.rs:1525-1553 | afterwards the bit of a block type is set if and only if its trees do not depend on the context |
| BlockTypes.LiteralTables.PrepareLiteralDecoding | src/decode.rs:1554-1571 | the slice of the context map is in range, whenever the shortcut is taken it picks the same tree as the lookup in every context, and the lookup is that of the type's context mode |
| MetablockHeaders.HeaderMachineIsLawful | src/decode.rs:243-372 | the substates of the header reader depend on the bits they take only, and make progress |
| MetablockHeaders.Digits | src/decode.rs:299-315 | the nibble loop, interrupted anywhere, adds up the number its bits spell and rejects a leading zero digit |
| MetablockHeaders.MachineParses | src/decode.rs:243-372 | from a fresh start the state machine accepts, rejects or waits exactly as section 9.2 of RFC 7932 read in one piece demands |
| MetablockHeaders.RoundTrip | src/decode.rs:243-372 | every header that can be written is read back, and exactly its bits are taken |
| MetablockHeaders.OrIsPlus | src/decode.rs:311-311 | or-ing shifted digits adds them |
| MetablockHeaders.HeaderReader.AddDigit | src/decode.rs:301-312 | one more digit of the length, or the error for a leading zero |
| MetablockHeaders.HeaderReader.Interpret | src/decode.rs:251-372 | each substate updates the fields as the state machine says |
| MetablockHeaders.HeaderReader.DecodeMetaBlockLength | src/decode.rs:243-372 | resumed anywhere, it completes or refuses the header that the bits spell, and without enough bits forgets nothing |
| CommandPrefixes.CommandIsShort | src/decode.rs:2145-2184 | a command prefix needs at most 15 + 24 + 24 = 63 bits |
| CommandPrefixes.CommandIsStable | src/decode.rs:2145-2184 | bits after a command prefix do not change it |
| CommandPrefixes.CommandIsMinimal | src/decode.rs:2145-2184 | only its own bits are needed |
| CommandPrefixes.LengthsInRange | src/decode.rs:2183-2187 | insert and copy length lie in the ranges of the row that the symbol names, and context and distance code are those of the row |
| CommandPrefixes.LongestPrefix | src/decode.rs:2145-2184 | a prefix of 15 + 24 + 24 bits needs all 8 bytes of the stash |
| CommandPrefixes.RoundTrip | src/decode.rs:2145-2187 | the codeword of a symbol followed by what insert and copy length exceed the offsets of its row by reads back as these lengths, whatever follows |
| CommandPrefixes.ReadCommandInternal | src/decode.rs:2134-2188 | reads the whole prefix or nothing, with the lengths of `CommandPrefixes.RoundTrip`; a failure in the extra bits restores the reader exactly, a failure in the symbol has pulled all input; with 28 bytes at hand it cannot fail |
| CommandPrefixes.CommandAgrees | src/decode.rs:2145-2184 | whatever starts with the bits of a command prefix reads as the same prefix |
| Streaming.RunContinues | src/decode.rs:2847-2896 | stopping for lack of input and going on later is no different from having had it all at once, in the state reached and in the number of times output is let go |
| Streaming.TakesNewBits | src/decode.rs:2849-2853 | a read that failed before takes at least one of the new bits, which is why the stash is used up by the first success |
| Streaming.Driver.constructor | src/state.rs:288-288 | a driver starts with nothing pending |
| Streaming.Driver.ReadUnit | src/decode.rs:2145-2184 | an indivisible read, with or without bytes loaded ahead, happens completely, or nothing is consumed |
| Streaming.Driver.DecodeUnits | src/decode.rs:2917-3402 | runs until done, starved, or blocked with all grants used; what will come of the input, and how often output is still to be let go, is accounted for exactly |
| Streaming.Driver.Unload | src/bit_reader/mod.rs:295-306 | whole unused bytes go back to the input they came from, and less than a byte stays |
| Streaming.Driver.StashTail | src/decode.rs:2884-2896 | the unread tail, at most 7 bytes, is kept for the next call |
| Streaming.Driver.UseInput | src/decode.rs:2884-2915 | decoding from the caller's input ends with all of it taken, or with less than a byte of it kept back; out of room only with all grants used |
| Streaming.Driver.TakeByte | src/decode.rs:2860-2876 | one more byte in the stash: the retried read uses the whole stash up, or leaves all of it unread |
| Streaming.Driver.UseStash | src/decode.rs:2817-2883 | the stash is fed byte by byte until it is used up or the input is gone; out of room only with all grants used |
| Streaming.Driver.BrotliDecompressStream | src/decode.rs:2791-2915 | no input bit is lost, repeated or reordered; a call that asks for more input has taken all there was, one that asks for room has used all that was granted; a fatal error is final, and unusable arguments change nothing else |
| Streaming.Session | src/decode.rs:2779-2915 | over any sequence of calls, the state and the pending bits are on the way to those of a decoder that had the whole input and unlimited output, and are those at the end; with enough output let go in the last call the result is not a request for room |
| BitDecoder.ReadAgrees | src/decode.rs:2134-2188 | every read of the decoder depends on the bits it takes and on no others: plain numbers, padding, block switches, command prefixes, literals by context, distances |
| BitDecoder.ReadFits | src/decode.rs:2134-2188 | what is read fits: type codes of the alphabet, no empty blocks, copies of at least one byte, distances that are positive |
| BitDecoder.RestoredIsShort | src/decode.rs:2153-2184 | a read that may have to be undone has fewer than 63 bits |
| BitDecoder.KeptIsShort | src/decode.rs:2153-2158 | a read that fails without being undone leaves less than a codeword in the accumulator |
| BitDecoder.ReadProgresses | src/decode.rs:2330-2744 | codes of no bits cannot keep the decoder busy for ever: a read that takes no bits lowers a rank |
| BitDecoder.ResumeProgresses | src/decode.rs:3299-3344 | nor can writes of the ring |
| BitDecoder.WordIsNotEmpty | src/decode.rs:2599-2619 | a dictionary word that a distance without bits can refer to keeps at least one byte, whatever its transform leaves out |
| BitDecoder.BitMachineIsLawful | src/decode.rs:2917-3400 | the whole decoder, whether or not it stops for a count that cannot be renewed, is a machine of the kind the driver relies on, stops for a full ring included |
| Parsers.ThenAgrees | src/decode.rs:868-1013 | one read after another depends on the bits both take, and on no others |
| Parsers.VarLen8 | src/decode.rs:193-242 | the variable-length numbers stay below 256 |
| TreeReading.MetablockTrees | src/decode.rs:3036-3300 | numbers of block types with their codes and first counts, distance parameters, context modes, both context maps and the three groups of trees, simple or complex, fit together: every tree a map names exists, and no symbol lies outside its alphabet; that they are those in the stream is `TreeWriting.TreesRoundTrip` |
| TreeReading.AlphabetIsExact | src/decode.rs:134-137 | the distance alphabet for some number of extra bits is that of the symbols with at most as many |
| TreeReading.AlphabetSizes | src/decode.rs:3190-3214 | with the numbers of section 4 of RFC 7932, for ordinary and for large windows |
| TreeReading.SymbolsHaveRoom | src/decode.rs:3190-3218 | every alphabet, that of distances in large windows included, has room in the array that code lengths are chained in, and that of the commands fills it |
| TreeReading.BitLengthIsLeast | src/decode.rs:502-509 | the symbols of a simple code have as many bits as the largest needs, and no more |
| TreeReading.DistanceMax | src/decode.rs:3190-3200 | the distance alphabet of an ordinary window needs no further bound, that of a large window leaves out what could stand for distances that are not allowed |
| TreeReading.SoonestAgrees | src/decode.rs:3036-3300 | an error in them is found after the same number of bits, whatever follows |
| TreeReading.TreesAgree | src/decode.rs:3036-3300 | all that is read of the prefix codes of a meta-block, errors included, depends on the bits it takes and on no others |
| TreeReading.WithTrees | src/decode.rs:3036-3300 | so the decoder over bits may be given this reader, and all that is shown of it holds |
| BitMeaning.ActGood | src/decode.rs:2330-2744 | no step leads out of the states that make sense, or takes back a byte: turns below the number of block types, distances remembered within reach, positions inside the ring |
| BitMeaning.EnterKeeps | src/decode.rs:2980-3014 | a header and what follows mean the meta-block with that body |
| BitMeaning.CommandKeeps | src/decode.rs:2377-2390 | a command prefix and what follows mean that command |
| BitMeaning.LiteralKeeps | src/decode.rs:2391-2558 | a literal, with or without a block switch before it, means one more byte of the command |
| BitMeaning.DistanceKeeps | src/decode.rs:2559-2688 | a distance means a copy, a dictionary word, or an invalid stream |
| BitMeaning.CopyKeeps | src/decode.rs:2690-2720 | a copy suspended at the end of the ring and resumed means the whole copy |
| BitMeaning.StoredKeeps | src/decode.rs:1754-1806 | a stored byte means one more byte of the meta-block |
| BitMeaning.ResumeKeeps | src/decode.rs:3299-3344 | writing the ring changes nothing in the meaning |
| BitMeaning.OverrunMeansReject | src/decode.rs:1709-1711 | a write with less than nothing left to produce happens only in streams that are rejected |
| BitMeaning.CutKeeps | src/decode.rs:2330-2744 | a step in front of a command or of stored bytes that the bits break off keeps what has been produced of them |
| BitMeaning.StoppedMidStream | src/decode.rs:2847-2896 | wherever the bits end or make no sense, what is left stands for nothing more |
| BitMeaning.RunMeans | src/decode.rs:2917-3400 | whatever bits are read from whatever state, complete or not: the run ends at the end of the stream exactly if what the bits say is accepted, in an overrun or an unusable distance exactly if it is rejected, and has produced exactly what it stands for unless rejected |
| BlockCounts.StepCounts | src/decode.rs:2368-2376 | every read takes off the counts what it takes off the demand; reading the trees of a meta-block closes its account |
| BlockCounts.CountsRunOut | src/decode.rs:1479-1481 | from any state that makes sense, the run stops for a count that cannot be renewed exactly if the stream calls for more of a category of one block type than is left, in this or a later meta-block; otherwise it is the run of a decoder without such counts, and in any case a part of it |
| BlockCounts.NothingCalledOutside | src/decode.rs:3017-3300 | only commands, literals and explicit distances of coded meta-blocks are counted |
| SpentCounts.CodeAgrees | src/decode.rs:2330-2744 | until a count has run out, the decoder as it is reads as the one that stops there |
| SpentCounts.AlwaysPutBack | src/decode.rs:2369-2376 | where a count has run out, a command is never read: all input, however much, is put back and more is asked for; likewise literals and distances without input for the fast path |
| SpentCounts.InOneShot | src/decode.rs:2407-2578 | with that much input a distance is read on, its count wrapping to 2^32 - 1, and a literal is an error; with any shorter part of the same input neither happens |
| SpentCounts.CodeIsUnlawful | src/decode.rs:2884-2892 | so the decoder is then not a machine the driver can rely on: what it puts back need not fit the stash, and what it reads depends on bits it does not take |
| SpentCounts.Rounds | src/decode.rs:2599-2619 | a command whose dictionary word vanishes in its transform changes nothing but counts, so there may be any number of them in a meta-block |
| SpentCounts.SomeStreamIsOverused | src/decode.rs:2368-2376 | a stream of a meta-block of one byte with more than 2^24 such commands exhausts the count |
| SpentCounts.FarFormatIsFar | src/transform.rs:282-286 | the transform that drops four letters makes such a command possible with any dictionary and window |
| EndToEnd.ReadAtOnce | src/decode.rs:2917-3400 | a whole stream of bytes read at once: the last state has a count run out exactly if the stream calls for too much, and otherwise tells exactly whether what the stream says is accepted, rejected or incomplete, and has produced it |
| EndToEnd.DecodeStream | src/decode.rs:2779-3402 | (what the bits say is pinned down by `StreamWriting.StreamRoundTrip`, and where they are read by `BitPositions.RunInStep`) with bytes in any portions and output let go in any portions, always the beginning of what the stream stands for; with a stream of less than 2^32 bytes and enough output let go, the state of a decoder that read it at once, success exactly if that has reached the end and failure exactly if it has given up; so, unless a count runs out, success exactly if the meta-blocks are accepted, failure exactly if they are rejected or the bits make no sense, and all that the stream stands for unless it is rejected |
| BitPositions.RunInStep | src/bit_reader/mod.rs:378-385 | along every run from the start of a stream, reads and writes of the ring alike: what is left is the end of the stream, the place in the current byte is what the bits taken leave over, and stored bytes, skipped bytes and the end of the stream are at the beginning of a byte |
| BitPositions.RunInRound | src/decode.rs:3299-3344 | along every run, what has been produced before the current round of the ring is a whole number of rings: the ring is written each time it is full, a dictionary word that reaches past its end included |
| BitPositions.PaddingSkipped | src/decode.rs:2990-2994 | in front of stored or skipped bytes the rest of the current byte is skipped, and the stream makes no sense unless it is zeros |
| BitPositions.EndSkipped | src/decode.rs:3345-3374 | likewise at the end of the last meta-block and nowhere else; an overrun is found before that |
| BitPositions.StoredIsSlice | src/decode.rs:1754-1806 | the data of a stored meta-block is the stretch of the stream that begins with the next whole byte, as much as has been announced and is there |
| BitPositions.OneByteDecides | src/decode.rs:2500-2506 | where the first half of the context table of a mode is constant, what is read as a literal depends on the history through the last byte but one only; where the second half is, through the last byte only |
| TreeWriting.VarLenRead | src/decode.rs:193-242 | a number below 256 that has been written is read back |
| TreeWriting.LengthLengthsRead | src/decode.rs:799-856 | the lengths of the code length code are read back from wherever the reading stands, up to the place where they use up the code space |
| TreeWriting.LengthsRead | src/decode.rs:661-797 | code lengths that have been written as lengths and repeats are read back as these |
| TreeWriting.CodeRead | src/decode.rs:868-1013 | a prefix code, simple or complex, that has been written is read as the table of its symbols or of its lengths |
| TreeWriting.SimpleCodeRefused | src/decode.rs:515-552 | a simple code makes no sense exactly where `TreeWriting.CodeRead` does not apply: a symbol outside of the alphabet, or one named twice |
| TreeWriting.ComplexCodeRefused | src/decode.rs:849-851 | nor does a complex one whose code length code has neither a single code nor uses up its space |
| TreeWriting.LengthsRefused | src/decode.rs:986-999 | nor one whose lengths overrun the alphabet or leave code space |
| TreeWriting.LongRunRefused | src/decode.rs:1377-1400 | nor a context map with a run that is longer than what is left of it |
| TreeWriting.CountRead | src/decode.rs:1031-1069 | a block count of the range of its code is read back |
| TreeWriting.SwitchRead | src/decode.rs:1469-1507 | and a block switch |
| TreeWriting.CategoryRead | src/decode.rs:3046-3140 | the number of block types of a category, with its two codes and its first count if there are several, is read back |
| TreeWriting.MapRead | src/decode.rs:1272-1424 | a context map that has been written as entries and runs of zeros is read back: as it is with transform bit 0, and from its move-to-front form with transform bit 1 |
| TreeWriting.ModesRead | src/decode.rs:1991-2014 | the context modes are read back |
| TreeWriting.TreesRoundTrip | src/decode.rs:3036-3288 | everything in front of the commands of a meta-block that has been written is read back, and exactly its bits are taken, whatever follows |
| TreeWriting.TreesFound | src/decode.rs:3036-3288 | so the reader that the decoder is given finds these trees |
| TreeWriting.PlainPlanFits | src/decode.rs:3036-3288 | for every builder of tables there is something to write |
| StreamWriting.LiteralRead | src/decode.rs:2391-2558 | a literal that has been written with the tree of its block type and of the last two bytes, behind a block switch exactly if the count has run out, is put, and counts and types go on as the writer has them |
| StreamWriting.ExplicitRead | src/decode.rs:2066-2131 | a distance that has been written with the tree of its block type and of the command's context, with the symbol and the extra bits it is encoded as, makes the decoder do what that distance does |
| StreamWriting.CommandIsRead | src/decode.rs:2330-2744 | a command that has been written is read and executed: history, bytes owed and recent distances are those of its meaning, and the decoder stands where the writer does |
| StreamWriting.CommandsAreRead | src/decode.rs:2330-2744 | so are all commands of a meta-block, which ends with the last of them |
| StreamWriting.BlockIsRead | src/decode.rs:2980-3044 | a meta-block that has been written, empty, skipped, stored or of commands, is read up to its end |
| StreamWriting.WrittenTreesAreRead | src/decode.rs:3036-3288 | trees that have been written are what the writer of a meta-block asks for |
| StreamWriting.StreamRoundTrip | src/decode.rs:2917-3400 | reading what has been written, whatever follows it, ends at the end of the stream with exactly the bytes that the meta-blocks mean, no count runs out, and what the bits say is accepted with these bytes |
| StreamWriting.DecodeWritten | src/decode.rs:2779-3402 | with bytes in any portions and output let go in any portions: never a failure, always the beginning of those bytes, and all of them on success, which enough output brings about |
| StreamWriting.EveryOutputHasAStream | src/decode.rs:2917-3400 | every sequence of bytes, of any length, is what some stream decodes to, for every format, dictionary and window |
| StreamWriting.PeekTells | src/decode.rs:1819-1828 | the two low bits of the byte behind a stored meta-block, and those of the model's peek, are ones if and only if the next meta-block is the last and empty |
| StreamWriting.LongestIsHeld | src/state.rs:422-435 | the count of a single block type lasts for the longest meta-block that a header can announce, and no longer one can be announced |
| StreamWriting.CopyCanBeWritten | src/decode.rs:2559-2688 | with four bytes in the dictionary there are commands that can be written |
| EndToEnd.DecodeTwice | src/decode.rs:2779-3402 | the same bytes cut in two ways, with output let go in two ways: the same result and the same state once all is taken and enough let go, and in any case one output is the beginning of the other |
| EndToEnd.DecodeBoth | src/decode.rs:2779-3402 | the decoder with its ring, given the meta-blocks of the stream, hands out the bytes of the machine over bits; with all of the input and enough room, and unless a count runs out, it succeeds exactly if the machine does, and fails exactly if the machine fails for another reason than bits that make no sense |

## Left out

- Decoder.Session: reads its input as commands whose symbols are known; the budget counts such units. Bits, trees, contexts and block switches are the subject of `BitDecoder`, whose meta-blocks it is given in `EndToEnd.DecodeBoth`.
- Decoder.TwoSchedules: likewise cuts between symbols; `EndToEnd.DecodeTwice` cuts between bytes.
- Decoder.Decoder.ProcessCommands: the choice of trees, and block switches, are part of `BitDecoder`, not of this loop.
- Decoder.Decoder.InsertLiterals: so are the choice of the literal tree and the switches of literal block types.
- Decoder.Session: the error of a rejected stream is one value, `Failure`; which of the format errors is reported may depend on where the input was cut.
- Decoder.Decoder.Decompress: output is returned as a chunk, not written through an offset into the caller's buffer; `total_out` is the length of what was delivered.
- Decoder.Decoder.EnterMetablock: the branches on the kind of body, and likewise those that only choose the next state of the command loop, are functions (`EntryPhase`, `AfterLiteral` and the like in `Resumption`).
- BitDecoder.BitMachineIsLawful: the window bits are skipped (how many they are is a parameter), and the prefix codes of a meta-block, with context modes and maps, are one indivisible read; `TreeReading` puts it together and `CodeLengthCode`, `CodeLengthLoops` and `ContextMap` show that their parts may be interrupted anywhere, but the states between these parts are not stages of the machine.
- EndToEnd.DecodeStream: in a stream that exhausts a count of one block type the machine stops as if by an error. The source does not stop there: commands ask for input for ever, and as soon as more than 8 bytes are left over, keeping them leaves the bounds of the stash (src/decode.rs:2884-2892, or 2860-2876 once bytes are stashed), which is a panic, or a write out of bounds in the unchecked build; literals are an error with 28 bytes at hand and ask for input with fewer; distances are read on with 28 bytes at hand, their count wrapping (an overflow panic in a build that checks for it), and ask for input with fewer. `SpentCounts` states these steps; what becomes of the driver after them is not modelled.
- BitDecoder.BitMachineIsLawful: the ring has the size of the window, and output is let go a ring at a time; shrunken rings and partial writes are part of `Decoder.Session`, and so is the forced write that can end an overrun meta-block earlier.
- StreamWriting.StreamRoundTrip: the bits in front of the first meta-block are any bits of the announced number, and codewords are any that the tables decode, since building tables is not modelled; streams that are invalid, break off or exhaust a count cannot be written, and are the subject of `EndToEnd`, `BitPositions` and `SpentCounts`.
- TreeWriting.TreesRoundTrip: likewise with codewords that the builder's tables decode; what is refused is stated for the codes and the maps one by one.
- Streaming.Session: the peek behind an uncompressed meta-block, which chooses a ring size, is not a read in the driver's sense and is covered by `Decoder.Session`.
- Streaming.Driver.ReadUnit: the accumulator is a sequence of bits without the 64-bit limit; the limit is part of `BitReader.Reader`.
- SymbolDecoding.DecodeSymbol: that the table represents a prefix code is assumed; building tables from lengths (`src/huffman`) is not modelled.
- Streaming.Driver.BrotliDecompressStream: the forced write before asking for input belongs to `Decoder.Decoder.Conclude`; of the argument checks those on the input are kept, and output space is the number of times a blocked decoder is let go on.
- CommandPrefixes.ReadCommandInternal: the block count and the choice of the distance tree that follow from a command are part of `BitDecoder`, not of this method.
- DistanceReading.ReadDistanceInternal: so are the block count and the choice among several distance trees; distances are integers, and those of the allowed alphabet fit the 32 bits of the source.
- BitReader.Reader.DropBits: the accumulator is its valid bits, not the shifted 64-bit word with its position.
- Distances.DistanceCache.Remember: the ring index is an unbounded integer, as is the count of rounds in the window; the four slots are a sequence.
- BlockTypes.Category.DecodeBlockTypeAndLength: the three categories are separate objects instead of slices of shared arrays.
- CodeLengths.CodeLengthReader.ProcessSingleCodeLength: the fast loop keeps its counters in locals and does not store them back on success; here both loops share the fields.
- The contents of the command table, the context lookup table, the dictionary and the transform table; only bounds are used. Dictionary offsets and the code length tables are included.
- TreeReading.MetablockTrees: simple codes, tree groups, context modes and the variable-length 8-bit numbers are readers in one piece; their resumable loops are short and of the same kind as those modelled. Of the five bits the reader of a context map looks at for its run lengths it may take only one, as here; the code that follows needs the others.
- The value of the window bits and the large-window extension.
- Context-byte seeding for custom dictionaries, and `BrotliDecoderTakeOutput`.
- Allocation and its failures, the swapping of tables in and out of the state, and the variants without bounds checks.
- Readers, writers, the C interface and the command line tools.
