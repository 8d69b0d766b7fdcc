# Verified model of the Bitcoin wire-format parser

This project models blockchain-zc-parser in Dafny: the zero-copy cursor, the streaming transaction parser, the
iterators over blocks and `blkNNNNN.dat` files, and the script decoder and classifier. The parser's classes are Dafny
classes with the same fields, and its loops are loops. Each method is proved against a pure reader, and each reader
against a grammar, so what is proved of the grammar holds of the imperative code.

`dafny verify dfyconfig.toml` checks everything.

## How it is built

* **Formats.** A `Format` pairs a reader with the grammar it is meant to accept: how a value is encoded, which values
  are well formed, and which callback events its encoding raises. A reader reports how far it moved and what it raised
  on failure as well as on success. A format is *lawful* when it is sound (the bytes consumed are the encoding of the
  value returned), complete (an encoding is read back whatever follows it), and starves on every proper prefix of an
  encoding after a prefix of the events. Being prefix-free, local and exact in what it accepts follows from the law.
* **Trees.** The grammar in `Wire.dfy` and `BlockWire.dfy` describes blocks as written: a tree keeps the form of each
  CompactSize integer, so integers that are not in shortest form are in the grammar, as they are in the code. `Serial.dfy` has
  the abstract blocks, in which the forms are forgotten, and their serialiser with shortest forms.
* **Slices.** A borrowed slice is an offset in the one input buffer and the bytes there. That every access is in
  bounds is an obligation of the proofs, which stands in for the `unsafe` blocks.
* **Callbacks.** A closure is its captured state and an arbitrary step function, which may fail at any event. The two
  closures of `parse_with` share one captured state, and hear a single sequence of input and output events.
* **Words.** `usize::MAX` is a parameter, any number from 2^32 - 1 on, which bounds the length of the input.

| file | content |
|---|---|
| `Bytes.dfy`, `Types.dfy` | bytes, little-endian integers, slices, errors, events |
| `Formats.dfy` | formats, their law, sequences, choices, counted loops, loops to the end of input |
| `Primitives.dfy`, `Wire.dfy`, `BlockWire.dfy` | the grammar, from CompactSize integers to whole blocks |
| `Reads.dfy` | the readers unrolled into the reads that the parse methods perform |
| `Callbacks.dfy`, `Streams.dfy` | callbacks, streaming loops, the strict loop |
| `Cursor.dfy`, `Transaction.dfy`, `Block.dfy`, `BlockFile.dfy`, `Script.dfy` | the imperative code, one file for each source file (two for `src/block.rs`) |
| `TxProofs.dfy`, `Strictness.dfy`, `Refusals.dfy`, `Tally.dfy`, `Literals.dfy`, `Serial.dfy`, `Platform.dfy`, `Views.dfy`, `BlockFileProofs.dfy`, `ScriptProofs.dfy` | the theorems |
| `Example.dfy`, `Clients.dfy` | the byte builders of the example program, and whole client programs |

## Where the documentation and the code disagree

The model follows the code. README.md here and in the table below is the repository's own.

* README.md:41 lists bare multisig among the recognised scripts, and `ScriptType` has a variant for it, but `classify`
  (src/script.rs:110-140) has no arm that returns it. Such scripts are Unknown.
* README.md:25, README.md:294-295 and README.md:353 say that `unsafe` is used in `cursor.rs` only; `Witness::parse` has one too
  (src/transaction.rs:158).
* src/error.rs:45 explains `InvalidInputCount` by a zero count in the legacy format. A legacy count of zero in one byte is taken
  for the SegWit marker, and is refused as a bad flag or as missing input; `InvalidInputCount` is left for a zero count after
  marker and flag, and for a legacy zero in a longer form (`InvalidInputCountExactly`).

## Model

| member | source | states |
|---|---|---|
| Clients.ParseStrict | src/block.rs:109-264 | `BlockTxIter::new` and then `consume_all_strict` return Ok if and only if the input is the encoding of a block within the caps with nothing after it, whose transaction 0 is coinbase and no other is, and whose events the user's callbacks all accept; without a late coinbase they leave the callbacks where the flat reader's events do, also on failure, and a callback's error comes back unchanged |
| Strictness.StrictAcceptance | src/block.rs:211-264 | the same for the pure strict loop, for any callbacks and word size, with the state in which an accepted block leaves the callbacks |
| Strictness.StrictRunGood | src/block.rs:222-263 | from any point of the strict loop: Ok exactly when the remaining transactions fill the input, none is a late coinbase, the count comes to one and every event is accepted |
| Strictness.BlockExactly | src/block.rs:109-182 | a buffer is the encoding of a block exactly when the reader of whole blocks returns that block and consumes it all |
| Strictness.CountingInvariant | src/block.rs:220-252 | the strict loop gets through k transactions exactly when they parse, none is a late coinbase and the callbacks accept their events; its variables are then determined, and a count that began at 0 is at most 1, and is 1 exactly when transaction 0 was among them and is coinbase |
| Strictness.CountTurn | src/block.rs:223-252 | one turn keeps the count right: the step of the same invariant in the loop of `ConsumeAllStrict` |
| Streams.TurnsRun | src/block.rs:222-263 | what is left of the strict loop is determined by its variables between transactions |
| Strictness.StrictOutcome | src/block.rs:222-263 | from any point of the strict loop without a late coinbase, whatever the callbacks do: they end in the state to which the run's events take them, and the result is the error of the one that refused, or else the reader's own, or else trailing bytes, a wrong count or Ok; with a late coinbase, callbacks that accept everything get its count |
| Strictness.StrictEnds | src/block.rs:211-264 | both ways for a loop to end together: the final state of the callbacks and the result, with and without a late coinbase |
| Refusals.StrictErrors | src/block.rs:196-263 | for callbacks that never fail strict parsing returns TrailingBytes(k) exactly for a block without a late coinbase and k bytes after it, InvalidCoinbaseCount(0) exactly for a block without any coinbase that fills the input, and never IncompleteTransactions; every other error is a reader's or a count of 1 or 2 |
| Refusals.StrictBlockOutcome | src/block.rs:109-264 | for any callbacks, strict parsing of a block without a late coinbase ends as the flat reader of blocks does and then as the trailing bytes and the count say; with one, callbacks that accept everything get a count of 1 or 2 |
| Refusals.RefusesTx | src/transaction.rs:279-377 | a transaction is refused only with the five errors of missing input, integer, size, flag and input count |
| Strictness.LateCoinbase | src/block.rs:229-252 | a late coinbase ends the loop with count 2 after a coinbase transaction 0 parsed in this call and 1 otherwise, unless a callback refused an event earlier, whose error comes back; the callbacks hear all of the transactions before it and none of that one |
| Strictness.FirstLate | src/block.rs:222-252 | a run has a late coinbase exactly when some number of transactions is followed by a first one, so the two ways for the loop to end are all |
| Strictness.LateCoinbaseRefused | src/block.rs:229-244 | the wrapped callback refuses a late coinbase at its first input without calling the user's |
| Strictness.WatchCounts | src/block.rs:228-248 | any other transaction passes through the wrapped callbacks unchanged, and is counted if its first input is null |
| Strictness.WatchForwards | src/block.rs:229-248 | after the first input the wrapper only forwards |
| Strictness.FirstEvent | src/transaction.rs:341-344 | the first event of a well-formed transaction is its first input, null exactly when the transaction is coinbase |
| Strictness.TellingTx | src/block.rs:229-233 | the transaction reader is one that raises an input first, even when it fails, which tells whether the transaction is coinbase: all that the lemmas on the strict loop ask of a reader |
| Strictness.ResumedNeverOk | src/block.rs:211-264 | the strict loop on an iterator that has already consumed a transaction never returns Ok |
| Clients.ReadTxBack | src/transaction.rs:279-377 | parsing the serialised form of any abstract transaction within the caps, whatever follows, returns its version, its lock time and the numbers of its inputs and outputs, delivers those in order, and consumes exactly its bytes |
| Clients.ReadBack | src/block.rs:109-190 | serialising any abstract block within the caps and iterating over the bytes delivers exactly its transactions, each with its inputs and then its outputs, and leaves no byte |
| Clients.IterateGrouped | src/block.rs:109-182 | iterating over any input with a fresh recorder for each transaction delivers the transactions of the flat reader of blocks one by one, or its error |
| Clients.GroupTxs | src/block.rs:164-182 | the `next_tx` loop so recorded delivers exactly the completed transactions of the pure run, failing or not |
| Clients.IterateLogged | src/cursor.rs:55-70 | whatever the callbacks do, failing included, the slices they are called with over a block are pieces of the input with its bytes, in order and without overlap, and what they hear is a prefix of the flat reader's events |
| Clients.StreamBlockAgrees | src/block.rs:109-182 | streaming over a whole block leaves any callbacks in the same state on any two word sizes, with the same bytes left, or errors that differ in kind only |
| Clients.StreamBlockIsFlat | src/block.rs:164-182 | the stack of sub-slices, parsers and skips over a block is one flat reader of blocks: same events, same error, same offset |
| Clients.IterateBlock | README.md:242-258 | the client loop over all transactions of a block is the pure streaming run from its header on |
| Clients.Retry | src/block.rs:164-182 | after a failing `next_tx` a second call replays the same events to the callbacks as the first left them |
| Clients.SkipTwice | src/block.rs:185-190 | after a success, `skip_remaining` succeeds again and moves nothing |
| Clients.FeedRecorder | README.md:246-256 | a callback that records what it can read has recorded the content of every event, in order |
| Serial.BlockRoundTrip | examples/parse_block.rs:276-341 | reading what the serialiser wrote gives the block back and consumes exactly its bytes, whatever follows |
| Serial.CanonBlockOk | examples/parse_block.rs:276-313 | the shortest-form tree of an abstract block is in the grammar, is minimal, and says what the block says |
| Serial.MinimalReserialises | examples/parse_block.rs:295-313 | a well-formed block as written whose integers are all in shortest form re-serialises to the identical bytes |
| Serial.AcceptedReserialises | src/block.rs:109-182 | an accepted buffer whose integers are all in shortest form re-serialises to itself |
| Serial.BlockHeard | src/block.rs:164-182 | the callbacks hear the inputs and outputs of a serialised block in order with their contents |
| Serial.TxHeard | src/transaction.rs:341-363 | the callbacks hear the inputs and then the outputs of a transaction as written, in order with their contents |
| Wire.LawfulTx | src/transaction.rs:279-377 | the transaction reader is sound, complete and starving on cuts with respect to the grammar of legacy and SegWit transactions |
| Wire.LawfulHead | src/transaction.rs:302-339 | the same of marker, flag and input count, with a CompactSize form of any length |
| Wire.LawfulInput | src/transaction.rs:66-75 | the same of an input, whose one event carries the slices at their offsets |
| Wire.LawfulOutput | src/transaction.rs:106-113 | the same of an output |
| Wire.LawfulWitness | src/transaction.rs:137-160 | the same of a witness |
| Wire.LawfulIns | src/transaction.rs:302-377 | the same from the marker on |
| Wire.LawfulOuts | src/transaction.rs:346-376 | the same from the output count on |
| Wire.LawfulEnd | src/transaction.rs:368-376 | the same of the witnesses and the lock time, with witnesses read through sub-slices |
| BlockWire.LawfulBlock | src/block.rs:109-182 | the same of whole blocks |
| BlockWire.BlockReads | src/block.rs:109-182 | the reader of whole blocks is the header, the count and then a counted loop over transactions |
| TxProofs.MarkerDecides | src/transaction.rs:303-314 | BIP 144 section "Serialization": the byte after the version is zero exactly in the encodings of SegWit transactions |
| TxProofs.TxUnambiguous | src/transaction.rs:279-377 | no transaction's encoding is a prefix of another's, so the legacy and SegWit images are disjoint |
| TxProofs.TxReadBack | src/transaction.rs:279-377 | every transaction is read back from its encoding, whatever follows, with its events |
| TxProofs.InvalidInputCountExactly | src/transaction.rs:302-339 | InvalidInputCount is returned exactly for a zero count after marker and flag or a zero in a longer form without them; a one-byte zero and then no flag of 1 is InvalidSegwitFlag |
| TxProofs.ParseWithLocal | src/transaction.rs:279-377 | a successful parse has the same result and the same effect on the callbacks on any buffer that begins with the bytes it consumed |
| TxProofs.ParseWithTruncated | src/transaction.rs:279-377 | on every shorter prefix `parse_with` fails, with a callback's error or for missing input with needed above available; what it raises is a prefix of what it raised, and the callbacks hear no more than before |
| TxProofs.ReplayWitness | src/transaction.rs:163-189 | iterating a parsed witness yields exactly the items that the parse validated, as many as the count says, with their bytes, as slices of the input in order, without error, to the last byte of `raw`, and leaves nothing to yield |
| TxProofs.WitnessRaw | src/transaction.rs:155-159 | `raw` is the encoding of the count and the items, and the count that `items` skips is the count that was parsed |
| Formats.PrefixFree | src/transaction.rs:279-377 | in a lawful format an encoding that is a prefix of another is the other |
| Formats.AcceptsExactly | src/transaction.rs:279-377 | a lawful reader accepts exactly the buffers that begin with an encoding |
| Formats.Locality | src/cursor.rs:55-70 | a success depends only on the bytes it consumed |
| Formats.Truncation | src/cursor.rs:55-85 | on a proper prefix of what it consumed a lawful reader starves, after a prefix of the events |
| Formats.LawfulMany | src/transaction.rs:341-344 | a counted loop over a lawful format is lawful |
| Formats.ManySound | src/transaction.rs:341-344 | failing or not, the complete items of a counted loop are read from the front of the input, and their events come first |
| Platform.StreamingAgrees | src/transaction.rs:323-358 | on any two word sizes of at least 32 bits any callbacks hear the same, and streaming stops at the same place with the same error, or with IntegerTooLarge for OversizedData of the same size |
| Platform.StrictAgrees | src/block.rs:211-264 | the strict loop gives the same verdict on both, up to that difference |
| Platform.StrictBlockAgrees | src/block.rs:109-264 | so does strict parsing of a whole block, and the callbacks end in the same state |
| Platform.AgreeTx | src/transaction.rs:279-377 | the transaction reader accepts the same inputs on both, with the same values, events and offsets, on failure too |
| Platform.AgreeCapped | src/block.rs:112-123 | a count with a cap below 2^32 is read alike on both |
| Platform.AgreeVarBytes | src/cursor.rs:143-153 | so is a byte string |
| Platform.BlockHeadAgrees | src/block.rs:109-123 | so are the header and the transaction count |
| Streams.StreamDecomposes | src/block.rs:164-182 | a streaming run is the pure run of the format, cut where a callback fails, whose error comes back unchanged |
| Streams.StreamStops | src/block.rs:164-182 | whatever fails, the offset is the end of the completed transactions, all of whose events were heard, and of the next one's only a prefix |
| Streams.NestedIsFlat | src/transaction.rs:368-373 | parsing over `as_slice` and then skipping reaches the items, events, error and, without an error, the offset of one flat parse |
| Streams.SkippingEqualsIterating | src/block.rs:185-190 | iterating with callbacks that never fail reaches the offset, transactions and parse error that skipping reaches |
| Views.RunViewsDisjoint | src/cursor.rs:55-70 | over any run of a tidy reader, failing or not, the slices handed to callbacks hold the input's bytes at their offsets, and any two are disjoint and in order |
| Views.ViewsInside | src/transaction.rs:35-39 | those of one transaction lie inside its bytes |
| Views.TidyTx | src/transaction.rs:279-377 | the transaction reader is one of which these two hold: its slices are pieces of the input in order, on failure too |
| Views.TidyBlock | src/block.rs:164-182 | the same of the flat reader of blocks |
| Blocks.ParseHeader | src/block.rs:53-72 | the shortage below 80 bytes, or a header whose `raw` is the 80 bytes in place, whose two hashes are the pieces at 4 and 36, and whose fields written back are those bytes |
| Blocks.ParseHeaderFields | src/block.rs:56-71 | reading the fields through a sub-cursor cannot fail, and each is what its bytes say |
| Blocks.HeaderRoundTrip | src/block.rs:57-62 | the fields written back in order are the 80 bytes |
| Blocks.NewBlockTxIter | src/block.rs:109-132 | the header over the first 80 bytes, the capped count, and an iterator just after them, or the first error |
| Blocks.BlockTxIter.NextTx | src/block.rs:164-182 | one transaction with its events; on any failure offset, count and parsed transactions are unchanged and the callback's error is returned; the inner skip cannot fail |
| Blocks.BlockTxIter.SkipRemaining | src/block.rs:185-190 | the pure run over what is left: offset, count, transactions and error |
| Blocks.BlockTxIter.FinishStrict | src/block.rs:196-208 | the exact error for missing transactions or trailing bytes |
| Blocks.BlockTxIter.ConsumeAllStrict | src/block.rs:211-264 | the strict loop from the iterator's state: the result, and the state in which it leaves the user's callbacks, on success and on every failure |
| Blocks.BlockTxIter.LinearBound | src/block.rs:148-159 | in every reachable state 81 bytes, 10 for each transaction, 41 for each input and 9 for each output were consumed, and consumed and remaining bytes add up to the input |
| Blocks.BlockTxIter.BytesRemaining | src/block.rs:148-150 | the unread bytes |
| Blocks.BlockTxIter.BytesConsumed | src/block.rs:157-159 | the position in the input, at least 81, which adds up to the input with the unread bytes |
| Blocks.ForEachTx | README.md:246-256 | the `next_tx` loop is the pure streaming run |
| BlockWire.TxSize | src/transaction.rs:66-114 | a transaction takes at least 10 bytes, 41 for each input and 9 for each output |
| BlockFileProofs.FileBijection | src/block.rs:289-309 | a file is iterated to None without error if and only if it is a concatenation of frames of magic, size and payload, each within the cap |
| BlockFileProofs.FileExactly | tests/integration_tests.rs:24-30 | it yields exactly the payloads whose frames it concatenates |
| BlockFileProofs.PayloadsInPlace | src/block.rs:307-308 | the payloads, of a broken file too, are pieces of it in order without overlap |
| BlockFiles.LawfulFrame | src/block.rs:289-309 | the frame reader is sound, complete and starving on cuts |
| BlockFiles.BlkFileIter.NextBlock | src/block.rs:289-309 | None at the end, one payload in place, or the exact error with its numbers and the cursor 0, 4 or 8 bytes into the frame: MagicMismatch exactly for four other bytes, OversizedData exactly for a size above 8,000,000, and otherwise the shortage |
| BlockFiles.BlkFileIter.ReadSize | src/block.rs:293-306 | the size of a frame with the expected magic, or each error with its numbers and offset |
| BlockFiles.BlkFileIter.CollectBlocks | README.md:158-162 | the client loop yields the payloads of the pure run, bytes and places, and its error |
| BlockFileProofs.ReadFile | README.md:158-162 | reading a whole file returns Ok exactly when it is made of frames, and then precisely their payloads; what it yields of any file lies in it, in order and without overlap |
| Scripts.Instructions.Next | src/script.rs:173-258 | one instruction, with the pushed bytes in place, or the exact shortage, which latches; None after an error and at the end |
| Scripts.Instructions.PushLen | src/script.rs:183-235 | the number of pushed bytes, or the shortage in the length field |
| Scripts.LawfulInstr | src/script.rs:173-258 | the instruction reader is sound, complete and starving on cuts |
| ScriptProofs.Collect | src/script.rs:47-53 | the whole iteration yields the pure decoding, and its one error last; from the shortest encoding of any instructions it yields exactly their pushed bytes and opcodes; the pushed slices of any script are pieces of it in order with its bytes |
| ScriptProofs.DecodeTiles | src/script.rs:173-258 | the decoded instructions tile the front of the script, and all of it exactly when there is no error |
| ScriptProofs.ScriptRoundTrip | src/script.rs:183-257 | decoding the shortest-push encoding of any list of pushes under 2^32 bytes and opcodes from 0x4f on returns that list |
| ScriptProofs.NeverLonger | src/script.rs:183-257 | re-encoding a decoded script is never longer, and equally long only if it gives the same bytes back |
| ScriptProofs.MatchesExactly | src/script.rs:110-140 | a script decodes to a template in the template's length exactly when it is its shortest encoding |
| ScriptProofs.P2pkhAgrees | src/script.rs:113-115 | classified P2PKH with this hash exactly when the decoding is that template and the length is 25 |
| ScriptProofs.P2shAgrees | src/script.rs:117-119 | the same of P2SH (BIP 16) and 23 |
| ScriptProofs.WitnessAgrees | src/script.rs:121-127 | the same of P2WPKH and P2WSH (BIP 141 section "Witness program") and 22 and 34 |
| ScriptProofs.TaprootAgrees | src/script.rs:129-131 | the same of P2TR (BIP 341 section "Script validation rules") and 34 |
| ScriptProofs.P2pkAgrees | src/script.rs:133-135 | the same of P2PK, with a key of 33 or 65 bytes |
| ScriptProofs.OpReturnAgrees | src/script.rs:137 | classified OpReturn exactly when the first decoded instruction is 0x6a, with all the rest as payload |
| ScriptProofs.UnknownExactly | src/script.rs:138 | classified Unknown exactly when the decoding is no template and does not begin with 0x6a |
| Primitives.ShortestRoundTrip | src/cursor.rs:130-137 | `read_varint` inverts `encode_varint` on every u64, whatever follows, and consumes exactly the encoding |
| Primitives.Normalisation | src/cursor.rs:130-137 | re-encoding the value read is never longer, and equals the consumed bytes exactly when the form was minimal |
| Literals.CompactTable | src/cursor.rs:130-137 | every CompactSize integer by its first byte, with its value in its bytes, or the exact shortage |
| Literals.LittleEndian | src/cursor.rs:89-124 | the first byte is the least significant |
| Literals.FixedReads | src/cursor.rs:55-70 | a fixed-width read takes what it needs from the front, or tells what it needed and what there was |
| Literals.CountLimits | src/transaction.rs:12-17 | the counts accepted in numerals, 100,000 outputs, 1 to 100,000 inputs, 500 witness items and 1,000,000 transactions, and the error that answers every other count |
| Literals.LengthLimits | src/cursor.rs:143-153 | the same of lengths: scripts up to 10,000 bytes and witness items up to 520 |
| Literals.AcceptedFits | src/block.rs:109-182 | every accepted block is within the caps in numerals; the round trip is proved of all blocks that are |
| Literals.NullOutPoint | src/transaction.rs:43-45 | an input is coinbase exactly when its first 36 bytes are 32 zeros and four 0xff |
| Primitives.LawfulCompact | src/cursor.rs:130-137 | the CompactSize reader is sound, complete and starving on cuts, with forms of any length |
| Primitives.LawfulVarBytes | src/cursor.rs:143-153 | the same of byte strings up to a cap |
| Primitives.LawfulInt32 | src/cursor.rs:103-106 | the same of signed 32-bit integers |
| Example.EncodeVarint | examples/parse_block.rs:295-313 | writes the shortest form |
| Example.CoinbaseTx | examples/parse_block.rs:315-341 | writes the encoding of its transaction |
| Example.BuildSyntheticBlock | examples/parse_block.rs:276-293 | writes the encoding of a block with that one transaction, for any header |
| Example.SyntheticAccepted | examples/parse_block.rs:276-293 | that block is accepted by strict parsing on every platform |
| Cursors.Cursor.Remaining | src/cursor.rs:34-36 | the number of unread bytes; the subtraction never saturates |
| Cursors.Cursor.IsEmpty | src/cursor.rs:40-42 | whether nothing is unread |
| Cursors.Cursor.AsSlice | src/cursor.rs:46-49 | the unread part, in place |
| Cursors.Cursor.ReadBytes | src/cursor.rs:55-70 | the next `n` bytes in place, or the exact shortage with the cursor unmoved, also when the end overflows |
| Cursors.Cursor.ReadU8 | src/cursor.rs:74-85 | the next byte, or the shortage |
| Cursors.Cursor.ReadLE | src/cursor.rs:89-115 | the unsigned little-endian readers |
| Cursors.Cursor.ReadI32 | src/cursor.rs:103-106 | the signed reader, two's complement |
| Cursors.Cursor.ReadVarint | src/cursor.rs:130-137 | one CompactSize integer, minimal or not; a truncated one leaves the cursor after its first byte |
| Cursors.Cursor.ReadVarBytes | src/cursor.rs:143-153 | length, conversion to `usize`, cap and bytes, with where each failure leaves the cursor |
| Cursors.Cursor.Skip | src/cursor.rs:167-170 | moves by `n` or reports the shortage |
| Cursors.Cursor.Split | src/cursor.rs:176-179 | a new cursor over exactly the next `n` bytes |
| Transactions.ParseOutPoint | src/transaction.rs:35-39 | txid in place and index |
| Transactions.ParseScript | src/script.rs:23-26 | a script in place, up to the cap |
| Transactions.ParseInput | src/transaction.rs:66-75 | an input with its slices in place, or the first error and where it leaves the cursor |
| Transactions.ParseOutput | src/transaction.rs:106-113 | an output likewise |
| Transactions.VarintFromFirst | src/transaction.rs:293-300 | with the byte already read, one `read_varint` at the offset of that byte |
| Transactions.ReadMarker | src/transaction.rs:303-314 | first byte and flag |
| Transactions.ReadInputVarint | src/transaction.rs:316-321 | the legacy and the SegWit path both read one CompactSize integer |
| Transactions.ReadInputCount | src/transaction.rs:316-339 | with its three checks in order |
| Transactions.ReadHead | src/transaction.rs:302-339 | format and input count, as the grammar's reader has them |
| Transactions.ReadCount | src/transaction.rs:346-358 | a count, its conversion and its cap |
| Transactions.ReadInputs | src/transaction.rs:341-344 | the input loop: the pure run, cut where the callback fails, and then exactly just past the input it refused |
| Transactions.ReadOutputs | src/transaction.rs:360-363 | the output loop likewise |
| Transactions.ParseWitness | src/transaction.rs:137-160 | a witness over its own slice: `raw`, item count and length, or the first error |
| Transactions.Witness.Items | src/transaction.rs:163-171 | an iterator after the count, for any witness, even one whose count cannot be read |
| Transactions.WitnessIter.Next | src/transaction.rs:183-189 | one item in place or its error, for as long as items remain, and then None for ever |
| Transactions.ReadWitnesses | src/transaction.rs:368-373 | one witness for each input over sub-slices; the skip cannot fail |
| Transactions.ReadEnd | src/transaction.rs:368-376 | witnesses and lock time |
| Transactions.ReadOuts | src/transaction.rs:346-376 | from the output count on |
| Transactions.ReadIns | src/transaction.rs:302-377 | from the marker on |
| Transactions.TransactionParser.ParseWith | src/transaction.rs:279-377 | the whole parse: the result, the callbacks' final state, and the position, which after a refusal is just past what was refused; on success the version is what the first four bytes say, the lock time what the last four do, and the two counts are the numbers of calls of the two callbacks |
| Tallies.TxTold | src/transaction.rs:375-376 | the same of every transaction that the reader accepts |
| Tallies.TxsCalled | src/transaction.rs:341-363 | the inputs and outputs that the linear bound counts are the calls of the callbacks |
| Transactions.TransactionParser.BytesConsumed | src/transaction.rs:269-271 | the position, which adds up to the input with the unread bytes |
| Callbacks.Listener.Hear | src/transaction.rs:343 | one call of a callback moves its captured state and returns its error unchanged |
| Callbacks.FeedHears | src/transaction.rs:341-363 | a callback hears nothing past the event it refuses, and everything when it refuses none |

## Left out

* SHA-256, `double_sha256` and `block_hash` (src/hash.rs, src/block.rs:78-80): a foreign library call that nothing here depends on.
* Formatting, the `Io` error and the error trait implementations (src/error.rs, src/hash.rs): glue.
* Command line, file reading and printing of the example program, and its own coinbase count: user interface.
* Raw pointers as memory: a slice is its offset and contents, and in-bounds access is proved. `read_array` is `ReadBytes` with a constant length.
* The `Transaction` struct, the Multisig script type, and the errors InvalidVarInt, UnsupportedVersion and InvalidCoinbase: the parsing code never constructs them.
* `difficulty_target`, `is_rbf`, `len`, `is_empty` of scripts, `read_i64_le` and the other getters: one-line facts.
* Consensus validation, such as signatures, Merkle root and proof of work: not in the code.
* The bodies of `parse_with`, `next_block` and `Instructions::next` are split into consecutive methods, and `BlockTxIter::new` is a method rather than a constructor, since it can fail.
* The iterator's list of parsed transactions is a ghost field, which states what its offset means.
* Unwinding out of a callback that panics, and arithmetic overflow inside a user's callback: a callback here returns.
