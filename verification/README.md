# Verification of the hiroz codecs, resolver and ring channel

A Dafny model of four parts of hiroz, with proofs of what they promise.

**The CDR codec (Rust).** `CdrWire` gives the meaning of an encoding: a value is a list of
atoms, each a boundary (1, 2, 4 or 8) and its bytes, and `Encode(pos, atoms)` places them at
a position. The format is CDR as in section 15.3 of CORBA 3.0.3. `CdrLayout` holds types,
values and the memory layout of plain structs. `CdrTypes` holds `Flat` (the atoms of a value)
and `Decode`, one specification with three readers: Rust, Go without its allocation guards,
and Go with them. Sequences and arrays come in two forms, written element by element or
copied as one block of memory. `CdrBuffers` are the two buffers a writer can fill.
`CdrPrimitives`, `CdrTraits` and `CdrSerde` are the imperative writers and readers, each
proved against the specification. The specification is held against definitions of its own:
`CdrForms` writes out the bytes of every primitive and shape, `CdrAcceptance` lists the
spellings of a value and proves that a reader accepts exactly these, `CdrErrors` says what is
rejected with which error, and `Utf8` compares the check of strings with RFC 3629.
`CdrRoundTrip` proves round trip, locality and truncation, `CdrBulk` when a block is the loop
over its elements, `CdrOrders` the same for a writer of either byte order, `CdrBlocks` for
whole programs, and `ZBufWriters` the second buffer.

**The generators.** `RustGenerator` is what the Rust generator makes of resolved messages:
which types it takes for plain, which fields it therefore copies in bulk, and when the struct
layouts have no padding. `GoalInfoSchema` and `StampedSchema` run it on concrete messages
that fail one check each. `JsonManifest` and `GoSchema` are the manifest the Go generator
reads; `GoPack` and `GoUnpack` are what the emitted Go code does, `GoMinSize` is the size
analysis behind its guards, `GoGuards` proves that the guards change nothing and `GoMinExact`
that the analysis finds the true minimum. `GoAgreement` puts both languages side by side on
the same messages.

**The dependency resolver.** `TypeNames`, `TypeDescriptions`, `TypeClosure` and `TypeHashing`
go from names to the input of a type hash; `FieldMeanings` says which messages share one, and
which types are supported; `Worklist` is the retry queue with its two guards; `Resolvers` the
tables and their invariant. The hash function is an uninterpreted parameter.

**The ring channel.** `RingChannel` interleaves single steps of callbacks, drop calls and
receives over a bounded channel and a mutex. `RingProgress` proves what it does beyond
staying safe, and where it gets stuck.

## Where the code and its own words differ

The model follows the code. Each of these is stated as a lemma.

- The stagnation counter counts pops, although its comment speaks of going through the
  queue 100 times (`crates/hiroz-codegen/src/resolver.rs:99-102`). It reports a resolvable
  batch as stalled once 101 messages that are not ready stand in front of it:
  `Worklist.CompleteExactlyUpTo101` shows that 101 is the exact limit.
- A plain type is documented as one whose wire layout is its memory layout
  (`crates/hiroz-cdr/src/plain.rs:1-13`). That holds from an aligned position on. The bulk
  copy aligns to the struct, a loop to the first number in it, so a fixed array of
  `action_msgs/GoalInfo` (an octet first, alignment four) at an odd position is written
  differently by the generated Rust code and by Go or serde (`RustGenerator.GoalInfoIsPlain`
  and `GoalInfoIsMisplaced`). `CdrBulk.BulkWriteMatchesLoop` and `BulkReadMatchesLoop` give
  the exact condition at a position, `CdrBlocks.ArrayCheckIsExact` and `SequenceCheckIsExact`
  at all positions, and `GoAgreement.SchemaAgreesExactly` the exact check of a whole schema.
- The same page excludes big-endian hosts, but the traits take a big-endian writer on any host.
  There a block keeps the order of the host and a loop turns every number round:
  `CdrOrders.BigEndianBlockDiffers` is the smallest case, `CdrOrders.BlockMatchesExactly` the
  exact condition at a position for either order, and the checks of `CdrBlocks` the one at all
  positions, where only arrays of octets are left (`CdrBlocks.BigEndianArraysAreOctets`).
  `RustGenerator.SerdeAgreesExactly` is the exact check of a whole schema.
- The alignment check of `compute_plain_types` is said to keep structs free of
  padding (`crates/hiroz-codegen/src/generator/rust.rs:97-104` and `116-117`). It does so for
  messages without nested fields (`RustGenerator.UnnestedHasOneAlign`, `OneAlignmentIsPacked`),
  and not for others: a `builtin_interfaces/Time` in front of an octet is taken for plain and has
  padding (`RustGenerator.StampedHasPadding`, `StampedSchema.PaddedSchema`). The `derive(Pod)`
  then rejects the package. `RustGenerator.DeriveAcceptsExactly` says when it does not.
- A fixed array of no plain elements, which the parser lets through, violates a debug assertion
  of `write_pod_slice`. A release build pads for it; the reader and the size computation do not.
  `CdrBulk.EmptyBlockRoundTrip` and `EmptyBlockSize` say at which positions that shows, and the
  agreement checks ask such arrays for an alignment of one.
- The Go generator writes a length prefix in front of a fixed array of strings, and Rust does
  not. The emitted decoder then assigns a slice to the array, so such a package does not
  compile: the Go round trip is claimed for the others only, and the prefix is one of the two
  failures `GoAgreement.SchemaAgreesExactly` finds in the emitted encoders.
- A message is described by two different functions, as the main type of its own hash and
  as a type others reference. A string bound next to an array capacity or on a nested type
  is kept by one and dropped by the other (`TypeDescriptions.DescriptionsAgreeExactly`).
- A hash stands for the type of a message, but the id of a bounded string is the same in every
  array: `string<=5` and `string<=5[]` have one hash (`FieldMeanings.BoundedStringsLoseTheirShape`).
  `FieldMeanings.HashInputDeterminesMessage` is the exact list of what else is lost.
- When its channel is full the ring channel receives the oldest message itself. If consumers
  empty the channel in between, the callback waits for a message with the mutex held: for every
  capacity there is such a run (`RingProgress.SomeRunStrands`), and no run leaves that state
  (`StrandedForever`). It is the only way the holder of the mutex can be blocked
  (`HolderBlocksExactly`).
- `resolve_messages` accepts a key it has seen before. `Resolvers.AcyclicExactly`: the
  references stay acyclic exactly when the new message does not reach its own key in the
  registry. `RepeatedKeyMakesACycle` is a batch of three ready messages that fails it.
  `HashInputUnchangedExactly`: the hash input of a message stays as it was exactly when the
  description is the one registered already or the message does not reach the key.
  `RenewedKeyStalesAHash` is a batch that leaves a hash behind which is not that of the final
  closure.

## Requirements on callers

`ResolveMessages` asks for slash-free name parts (the parser splits `pkg/Type`), messages
outside the external packages (a message of such a package would be skipped by its users
although it is registered), and that no message reaches a cycle when it is hashed, which is
exactly when the recursion of `collect_referenced_types` ends
(`TypeHashing.HashingTerminatesExactly`). Runs that keep the whole registry acyclic meet it
(`Resolvers.AcyclicRunsTerminate`), and runs over new and distinct keys always do
(`Resolvers.BatchHashingTerminates`); for these every hash is final. Types are of finite size,
which both compilers demand. A `RustSchema` is what the emitted derives accept; what the
generator alone gives is a `ParsedRust`. `CdrReader` asks for inputs no longer than a slice can
be.

## Model

| member | source | states |
|---|---|---|
| CdrWire.NumberRoundTrip | crates/hiroz-cdr/src/primitives.rs:78-140 | A number written in n bytes in either byte order reads back as itself |
| CdrWire.PaddingAligns | crates/hiroz-cdr/src/primitives.rs:45-54 | The padding leads to a multiple of the alignment and is empty exactly at one |
| CdrWire.PaddingIsLeast | crates/hiroz-cdr/src/primitives.rs:45-54 | No aligned position at or after the start is skipped |
| CdrWire.EncodeConcat | crates/hiroz-cdr/src/primitives.rs:39-54 | Encodings compose: the second list is placed where the first ends |
| CdrWire.EncodeIsPeriodic | crates/hiroz-cdr/src/primitives.rs:39-54 | Moving the start by a multiple of eight changes no byte and moves the end by as much |
| CdrWire.CarriesConcat | crates/hiroz-cdr/src/primitives.rs:214-237 | Data holds a concatenation exactly when it holds both parts, one behind the other |
| CdrWire.EncodeCarries | crates/hiroz-cdr/src/primitives.rs:145-163 | Data that contains written bytes holds their atoms, whatever the padding bytes |
| CdrBuffers.ContiguousAppend | crates/hiroz-cdr/src/zbuf_writer.rs:44-60 | A slice added to the list is appended to the content |
| CdrBuffers.Target.Extend | crates/hiroz-cdr/src/buffer.rs:10-12 | Either buffer appends the bytes and keeps its length right |
| CdrBuffers.Target.Push | crates/hiroz-cdr/src/buffer.rs:13-15 | The same for one byte |
| CdrPrimitives.CdrWriter.Align | crates/hiroz-cdr/src/primitives.rs:45-54 | Appends exactly the zero bytes up to the next boundary, counted from the writer's start |
| CdrPrimitives.CdrWriter.WriteNumber | crates/hiroz-cdr/src/primitives.rs:78-140 | Grows the buffer by one aligned word and keeps what was there |
| CdrPrimitives.CdrWriter.WriteLength | crates/hiroz-cdr/src/primitives.rs:159-163 | Writes the length truncated to 32 bits as an aligned word |
| CdrPrimitives.CdrWriter.WriteBool | crates/hiroz-cdr/src/primitives.rs:63-67 | Writes 1 for true and 0 for false |
| CdrPrimitives.CdrWriter.WriteString | crates/hiroz-cdr/src/primitives.rs:143-150 | Length with terminator, the bytes, and a zero byte |
| CdrPrimitives.CdrWriter.WriteBytes | crates/hiroz-cdr/src/primitives.rs:152-157 | Length prefix and the raw bytes |
| CdrPrimitives.CdrWriter.WritePodSlice | crates/hiroz-cdr/src/primitives.rs:165-182 | A non-empty slice of plain values is appended as one block, aligned to its element type, in the order of the host |
| CdrPrimitives.CdrReader.Align | crates/hiroz-cdr/src/primitives.rs:214-226 | Moves to the boundary, or fails and leaves a position inside the input |
| CdrPrimitives.CdrReader.ReadBytes | crates/hiroz-cdr/src/primitives.rs:228-237 | The next bytes, or an error without moving |
| CdrPrimitives.CdrReader.ReadNumber | crates/hiroz-cdr/src/primitives.rs:260-315 | Reads what the specification reads; the position never goes back or past the input, on errors too |
| CdrPrimitives.CdrReader.ReadPrim | crates/hiroz-cdr/src/primitives.rs:240-315 | All primitives, with the rejected bool and char patterns |
| CdrPrimitives.CdrReader.ReadString | crates/hiroz-cdr/src/primitives.rs:317-333 | Zero length, the optional terminator and invalid UTF-8 as the specification decides them |
| CdrPrimitives.CdrReader.ReadSequenceLength | crates/hiroz-cdr/src/primitives.rs:355-367 | Lengths over 100,000,000 are errors |
| CdrPrimitives.CdrReader.ReadByteSequence | crates/hiroz-cdr/src/primitives.rs:369-374 | Raw bytes behind a length that is not capped |
| CdrPrimitives.CdrReader.ReadPodSlice | crates/hiroz-cdr/src/primitives.rs:376-401 | One aligned block of memory, or the same error as the specification |
| CdrTraits.CdrSerialize | crates/hiroz-cdr/src/traits.rs:46-158 | Every trait type, blocks of plain elements included, appends the atoms of its value at the writer's position |
| CdrTraits.SerializeElements | crates/hiroz-cdr/src/traits.rs:140-158 | The element loop appends the atoms of all elements in order |
| CdrTraits.SerializeFields | crates/hiroz-codegen/src/generator/rust.rs:239-312 | The statements of a generated struct append its fields in order, plain arrays and sequences as blocks |
| CdrTraits.CdrToVec | crates/hiroz-cdr/src/traits.rs:31-36 | A fresh vector holds exactly the encoding at position 0 |
| CdrTraits.CdrDeserialize | crates/hiroz-cdr/src/traits.rs:162-271 | Value, error and position are those of the specification |
| CdrTraits.DeserializeElements | crates/hiroz-cdr/src/traits.rs:247-271 | The loop over elements reads the specified list or stops at the same error |
| CdrTraits.DeserializeFields | crates/hiroz-codegen/src/generator/rust.rs:315-418 | They read the fields in order, plain arrays and sequences as blocks, or stop at the first error |
| CdrTraits.PaddingFor | crates/hiroz-cdr/src/traits.rs:275-280 | The size computation pads as the writer does |
| CdrTraits.CdrSerializedSize | crates/hiroz-cdr/src/traits.rs:282-388 | The predicted size is the position serialization ends at, from every position, for types without empty fixed blocks |
| CdrTraits.SizeOfElements | crates/hiroz-cdr/src/traits.rs:368-388 | Folding the position over elements without empty fixed blocks gives the end of the list |
| CdrTraits.SizeOfBlock | crates/hiroz-codegen/src/generator/rust.rs:445-488 | Alignment plus count times size is the end of a block, without a look at its elements |
| CdrTraits.SizeOfFields | crates/hiroz-codegen/src/generator/rust.rs:421-500 | Folding the position over fields without empty fixed blocks gives the end of the struct |
| CdrTraits.SizeIsPeriodic | crates/hiroz-cdr/src/traits.rs:275-388 | Shifting the position by a multiple of 8 shifts the size by as much and leaves the bytes |
| CdrTraits.TraitRoundTrip | crates/hiroz-cdr/src/traits.rs:15-36 | Writing to a vector and reading back gives the value and uses every byte, as many as predicted if there is no empty fixed block |
| CdrRoundTrip.StringRoundTrip | crates/hiroz-cdr/src/primitives.rs:317-333 | Each reader recovers every string shorter than 2^32-1 bytes |
| CdrRoundTrip.MemoryRoundTrip | crates/hiroz-cdr/src/plain.rs:1-13 | The memory of a plain value, structs included, has the size of its type and gives the value back |
| CdrRoundTrip.BlockRoundTrip | crates/hiroz-cdr/src/primitives.rs:376-401 | The bulk reader recovers every slice the bulk writer wrote, at any position |
| CdrRoundTrip.RoundTrip | crates/hiroz-cdr/src/traits.rs:137-271 | From any data that carries a value at any position the value comes back and the read stops at its end |
| CdrRoundTrip.ListRoundTrip | crates/hiroz-cdr/src/traits.rs:246-271 | The same for every list of elements |
| CdrRoundTrip.FieldsRoundTrip | crates/hiroz-codegen/src/generator/rust.rs:192-210 | The same for every list of fields |
| CdrRoundTrip.WrittenRoundTrip | crates/hiroz-cdr/src/traits.rs:137-158 | What is written behind any prefix is read back in front of any suffix |
| CdrRoundTrip.DecodeIsLocal | crates/hiroz-cdr/src/primitives.rs:208-237 | A successful read gives the same value and end on every extension of the input, for all three readers |
| CdrRoundTrip.ListIsLocal | crates/hiroz-cdr/src/traits.rs:246-271 | The same for lists |
| CdrRoundTrip.FieldsAreLocal | crates/hiroz-codegen/src/generator/rust.rs:192-210 | The same for fields |
| CdrRoundTrip.TruncationIsRejected | crates/hiroz-cdr/src/primitives.rs:228-237 | Every strict prefix of a written value is an error |
| CdrRoundTrip.EncodingIsInjective | crates/hiroz-cdr/src/traits.rs:137-158 | No value's encoding is a prefix of another value's, so different values have different bytes |
| CdrForms.NumbersAreWritten | crates/hiroz-cdr/src/primitives.rs:63-140 | Every primitive is written with its digits in the byte order of the writer, 1, 2, 4 or 8 of them by a table of the types |
| CdrForms.StringsAreWritten | crates/hiroz-cdr/src/primitives.rs:143-150 | The bytes of a string: count with terminator, characters, zero |
| CdrForms.OptionsAreWritten | crates/hiroz-cdr/src/serializer.rs:197-208 | 00 00 00 00 for none, 01 00 00 00 in front of a value |
| CdrForms.VariantsAreWritten | crates/hiroz-cdr/src/serializer.rs:221-251 | The tag in front of the payload |
| CdrForms.ListsAreWritten | crates/hiroz-cdr/src/traits.rs:137-158 | A count in front of the elements of a sequence; none for arrays and structs |
| CdrForms.PaddingIsWritten | crates/hiroz-cdr/src/primitives.rs:45-54 | An octet and a 32-bit number have three zero bytes between them |
| CdrAcceptance.AcceptedExactly | crates/hiroz-cdr/src/primitives.rs:240-401 | Each of the three readers accepts a value, on any input, exactly where a spelling of it lies, and stops at its end |
| CdrAcceptance.AcceptedIsSpelled | crates/hiroz-cdr/src/traits.rs:162-271 | Whatever is accepted is spelled in the data from the start to the end of the read |
| CdrAcceptance.SpelledIsAccepted | crates/hiroz-cdr/src/traits.rs:162-271 | From any data in which a spelling lies the value comes back |
| CdrAcceptance.WrittenIsSpelled | crates/hiroz-cdr/src/traits.rs:46-158 | What is written for a value within the limits is one of its spellings |
| CdrAcceptance.AcceptedIsWritten | crates/hiroz-cdr/src/traits.rs:162-271 | Without strings the Rust reader accepts the encodings of typed values within its limits, up to padding bytes, and nothing else |
| CdrAcceptance.EveryMemoryIsAValue | crates/hiroz-cdr/src/plain.rs:1-13 | Every memory of a plain type is the memory of a value: no pattern is forbidden |
| CdrErrors.NumberErrors | crates/hiroz-cdr/src/primitives.rs:240-315 | Which word makes a bool or a char invalid, and when the end of the input is reported |
| CdrErrors.StringErrors | crates/hiroz-cdr/src/primitives.rs:317-333 | A string is cut short exactly when its bytes are not there, and ill-formed exactly when they are no UTF-8 |
| CdrErrors.LengthErrors | crates/hiroz-cdr/src/primitives.rs:355-367 | A count is refused exactly when it is over one hundred million |
| CdrErrors.TagErrors | crates/hiroz-cdr/src/deserializer.rs:210-220 | Option tags over 1 and variants that do not exist are errors |
| Utf8.WellFormedExactly | crates/hiroz-cdr/src/primitives.rs:317-333 | The check of strings accepts exactly the encodings of sequences of Unicode scalar values |
| CdrBulk.SizeIsAligned | crates/hiroz-cdr/src/plain.rs:1-13 | The size of a plain type is a multiple of its alignment |
| CdrBulk.AlignedLoop | crates/hiroz-cdr/src/primitives.rs:165-182 | From a position aligned for the type, the loop over a plain value writes its memory and no padding |
| CdrBulk.FirstIsSmaller | crates/hiroz-codegen/src/generator/rust.rs:81-145 | The first number of a plain type asks for no more than the type, and is missing exactly when it has no bytes |
| CdrBulk.FitsEverywhereExactly | crates/hiroz-codegen/src/generator/rust.rs:81-145 | A block starts where the loop would at every position exactly when the first number has the alignment of the type |
| CdrBulk.BulkWriteMatchesLoop | crates/hiroz-cdr/src/primitives.rs:165-182 | At a position the block has the bytes of the element loop, for all values, exactly when it starts where the loop would |
| CdrBulk.BulkReadMatchesLoop | crates/hiroz-cdr/src/primitives.rs:376-401 | At a position the block gives the values, end and failures of the element loop, on all inputs, exactly when nothing is asked for or it starts where the loop would |
| CdrBulk.AlignedRead | crates/hiroz-cdr/src/primitives.rs:376-401 | From an aligned position the loop reads the memory of a plain value, or fails when it is not all there |
| CdrBulk.ReadsFirstNumber | crates/hiroz-cdr/src/primitives.rs:260-315 | The first number of a value is read behind its own padding |
| CdrBulk.EmptyBlockRoundTrip | crates/hiroz-cdr/src/primitives.rs:173-182 | A fixed block of no elements is read back, with its end, exactly at an aligned position |
| CdrBulk.EmptyBlockSize | crates/hiroz-codegen/src/generator/rust.rs:445-463 | Its size, which counts nothing, is right exactly at the same positions |
| CdrOrders.BlockMatchesExactly | crates/hiroz-cdr/src/primitives.rs:165-182 | At a position a block has the bytes of the element loop of a writer of either order, for all values, exactly when it starts where the loop would and, for a non-empty big-endian one, all numbers are octets |
| CdrOrders.BigEndianBlockDiffers | crates/hiroz-cdr/src/primitives.rs:172-182 | The 16-bit number 1 is written 01 00 as a block and 00 01 by a big-endian loop |
| CdrOrders.OctetsIgnoreTheOrder | crates/hiroz-cdr/src/primitives.rs:78-140 | A plain value, nested as it may be, all of whose numbers are octets has the same atoms in both orders |
| CdrBlocks.SameValues | crates/hiroz-codegen/src/generator/rust.rs:840-876 | A program and its form without blocks have the same values |
| CdrBlocks.ArrayCheckIsExact | crates/hiroz-codegen/src/generator/rust.rs:260-282 | A plain fixed array is written alike in bulk and in a loop of either byte order, everywhere and for all values, exactly when the check passes; an empty one when its alignment is one |
| CdrBlocks.SequenceCheckIsExact | crates/hiroz-codegen/src/generator/rust.rs:283-311 | The same for sequences, where the prefix leaves only alignment eight and, big-endian, numbers wider than an octet to fail |
| CdrBlocks.BigEndianArraysAreOctets | crates/hiroz-codegen/src/generator/rust.rs:260-282 | For a big-endian writer the check leaves exactly the arrays whose elements have alignment one |
| CdrBlocks.BlocksAreLoops | crates/hiroz-codegen/src/generator/rust.rs:239-312 | Where the check for the writer's byte order passes for the whole program, every value is written to the same bytes with blocks and with loops, at every position |
| CdrSerde.Serialize | crates/hiroz-cdr/src/serializer.rs:88-321 | Structs, tuples, options, enums, sequences and maps append the atoms of the value |
| CdrSerde.SerializeElements | crates/hiroz-cdr/src/serializer.rs:323-339 | Elements in order |
| CdrSerde.SerializeFields | crates/hiroz-cdr/src/serializer.rs:421-437 | Fields in order and without any prefix |
| CdrSerde.SequenceHelper.NextElement | crates/hiroz-cdr/src/deserializer.rs:411-446 | Counts one element further until the expected number is reached |
| CdrSerde.Deserialize | crates/hiroz-cdr/src/deserializer.rs:70-336 | Value, error and position are those of the specification |
| CdrSerde.VisitEnum | crates/hiroz-cdr/src/deserializer.rs:303-408 | Aligning ahead of the tag changes nothing; unknown tags are errors |
| CdrSerde.VisitSeq | crates/hiroz-cdr/src/deserializer.rs:411-474 | Visiting through the helper reads the specified list |
| CdrSerde.VisitFields | crates/hiroz-cdr/src/deserializer.rs:259-300 | The same for tuples and structs |
| CdrSerde.SerdeRoundTrip | crates/hiroz-cdr/src/deserializer.rs:41-55 | The deserializer inverts the serializer and reports every byte as consumed |
| CdrSerde.BothPathsAgree | crates/hiroz-cdr/src/traits.rs:137-158 | In either byte order, where the blocks fit it, two writers at the same position append the same bytes, one through the traits in bulk, the other through serde element by element |
| CdrSerde.BytesAreASequence | crates/hiroz-cdr/src/serializer.rs:191-195 | Raw bytes are written as the element path writes the same octets |
| CdrSerde.BytesReadLikeASequence | crates/hiroz-cdr/src/primitives.rs:369-374 | Raw bytes are read as the element path reads them, except that only the latter has a cap |
| ZBufWriters.ZBufWriter.FlushCurrent | crates/hiroz-cdr/src/zbuf_writer.rs:44-51 | The content stays, the tail is empty, and no empty slice is added |
| ZBufWriters.ZBufWriter.AppendZSlice | crates/hiroz-cdr/src/zbuf_writer.rs:53-60 | The slice goes behind everything pending and stays a slice of its own |
| ZBufWriters.ZBufWriter.AppendZBuf | crates/hiroz-cdr/src/zbuf_writer.rs:106-111 | All slices are appended in order |
| ZBufWriters.ZBufWriter.ExtendFromSlice | crates/hiroz-cdr/src/zbuf_writer.rs:77-81 | The bytes go to the tail |
| ZBufWriters.ZBufWriter.Push | crates/hiroz-cdr/src/zbuf_writer.rs:83-87 | One byte goes to the tail |
| ZBufWriters.ZBufWriter.Clear | crates/hiroz-cdr/src/zbuf_writer.rs:99-104 | Nothing is left |
| ZBufWriters.ZBufWriter.IntoZBuf | crates/hiroz-cdr/src/zbuf_writer.rs:62-67 | The slices together are the whole content |
| ZBufWriters.ZBufWriter.PerformAll | crates/hiroz-cdr/src/zbuf_writer.rs:44-112 | Over every run of operations the content is that of a flat vector, the counter is its length and so every alignment is the same |
| ZBufWriters.RunOfWrites | crates/hiroz-cdr/src/buffer.rs:51-87 | Aligned writes grow a flat vector by the encoding of their atoms |
| ZBufWriters.CdrToZBuf | crates/hiroz-cdr/src/traits.rs:39-43 | The serializer itself, run over a fresh slice list, leaves slices that are the encoding of the value |
| ZBufWriters.SerializeToBoth | crates/hiroz-cdr/src/serializer.rs:75-86 | Run over both buffers behind the same content, it leaves the same content and length |
| ZBufWriters.SerializeZBuf | crates/hiroz-cdr/src/serializer.rs:35-44 | Splicing slices in gives the bytes that serializing the contiguous payload gives |
| GoMinSize.MinTotalIsBounded | crates/hiroz-codegen-go/generator.go:92-94 | The capped sum exceeds the cap by at most 4 per field |
| GoMinSize.MinCdrSizeVisiting | crates/hiroz-codegen-go/generator.go:119-158 | Terminates on every manifest and gives `visiting` back; in int64 arithmetic, prefixes, sums and products included, it computes the minimum of the unbounded specification |
| GoMinSize.ElementMinSize | crates/hiroz-codegen-go/generator.go:136-146 | The minimum of one element of each kind |
| GoMinSize.NestedMinSize | crates/hiroz-codegen-go/generator.go:160-172 | Unknown names and names being visited count 0; `visiting` is given back |
| GoMinSize.MinCdrSize | crates/hiroz-codegen-go/generator.go:112-117 | The minimum from an empty set, at most 2^31 + 4 per field |
| GoMinExact.MinimumIsExact | crates/hiroz-codegen-go/generator.go:112-172 | The computed minimum is the exact least payload up to the cap, and not below the cap above it |
| GoMinExact.MinimumIsAttained | crates/hiroz-codegen-go/generator.go:112-172 | Some accepted message has exactly that payload, and none has less |
| GoMinExact.NoSpellingIsShorter | crates/hiroz-codegen-go/generator.go:119-158 | Every accepted form of every type, strings and sequences included, has at least its least payload |
| GoMinExact.MinimumIsTheSize | crates/hiroz-codegen-go/generator.go:119-158 | Every message of fixed size is written with exactly the computed minimum, padding aside |
| GoMinExact.CovarianceTakes288Bytes | crates/hiroz-codegen-go/generator.go:130-156 | A fixed array of 36 doubles counts 288 |
| GoMinExact.ManifestIsMeasured | crates/hiroz-codegen-go/generator.go:112-172 | With an index of all messages every manifest is analysed to the end |
| GoMinExact.GuardsAreLeast | crates/hiroz-codegen-go/generator.go:73-78 | The constants of both checks are the least payloads of their elements |
| GoMinExact.AllocationsFit | crates/hiroz-codegen-go/generator.go:73-78 | A count is taken exactly when as many shortest elements fit in the rest of the input |
| GoGuards.MinTotalBoundsDecode | crates/hiroz-codegen-go/generator.go:112-172 | With any starting total, the total grows by no more than the fields consume |
| GoGuards.MinimumBoundsTheEncoder | crates/hiroz-codegen-go/generator.go:112-172 | For every known and visiting set the encoder appends at least the minimum, at every position |
| GoGuards.MinimumBoundsTheDecoder | crates/hiroz-codegen-go/generator.go:112-172 | Every accepted input consumes at least the minimum |
| GoGuards.LengthGuardAdmits | crates/hiroz-codegen-go/generator.go:73-78 | The check before the allocation lets every length pass whose elements can be decoded |
| GoGuards.GuardsAreTransparent | crates/hiroz-codegen-go/generator.go:174-206 | With and without guards the same inputs are accepted, with the same value and end, for every type, input and position |
| GoGuards.SequenceGuardsAreTransparent | crates/hiroz-codegen-go/generator.go:174-206 | The same for a sequence with both of its guards |
| GoGuards.ListGuardsAreTransparent | crates/hiroz-codegen-go/generator.go:194-205 | The check before each element rejects nothing the element would accept |
| GoGuards.FieldGuardsAreTransparent | crates/hiroz-codegen-go/generator.go:632-749 | The same for the fields of a message |
| GoGuards.GuardedRoundTrip | crates/hiroz-codegen-go/generator.go:632-833 | The guarded decoder recovers every written value and its end |
| GoGuards.GuardedTruncation | crates/hiroz-codegen-go/generator.go:632-833 | And rejects every strict prefix of one |
| GoGuards.GuardedEncodingIsInjective | crates/hiroz-codegen-go/generator.go:632-833 | Within its limits no encoding is a prefix of another |
| GoPack.PackAlign | crates/hiroz-codegen-go/generator.go:50-62 | Buffer and offset move together to the boundary |
| GoPack.PackString | crates/hiroz-codegen-go/generator.go:466-480 | Length with terminator, bytes and a zero byte, and the offset behind them |
| GoPack.PackElement | crates/hiroz-codegen-go/generator.go:557-600 | One element of each kind appends its atoms |
| GoPack.PackElements | crates/hiroz-codegen-go/generator.go:602-626 | The loop appends all elements; the offset follows |
| GoPack.PackBytes | crates/hiroz-codegen-go/generator.go:607-620 | The fast path for octets appends what the loop would |
| GoPack.PackField | crates/hiroz-codegen-go/generator.go:435-555 | One field with its prefix, if its kind and shape have one |
| GoPack.PackToRawAt | crates/hiroz-codegen-go/generator.go:237-251 | The body of a message from any offset; the offset always equals the end of the body |
| GoPack.SerializeCDR | crates/hiroz-codegen-go/generator.go:225-235 | The header 00 01 00 00 and the body from offset 0 |
| GoUnpack.UnpackWord | crates/hiroz-codegen-go/generator.go:64-71 | An aligned word or an error; no index leaves the data |
| GoUnpack.UnpackString | crates/hiroz-codegen-go/generator.go:666-681 | As specified, on every input; the last byte is dropped unseen |
| GoUnpack.UnpackElement | crates/hiroz-codegen-go/generator.go:753-804 | One element of each kind |
| GoUnpack.UnpackElements | crates/hiroz-codegen-go/generator.go:194-205 | The element loop with its optional size check |
| GoUnpack.ReserveMessages | crates/hiroz-codegen-go/generator.go:180-193 | What is reserved fits the bytes left, and the element check is the specified one |
| GoUnpack.UnpackSequence | crates/hiroz-codegen-go/generator.go:811-832 | Prefix, guard and loop read as the guarded specification does |
| GoUnpack.UnpackField | crates/hiroz-codegen-go/generator.go:632-749 | One field of any kind and shape |
| GoUnpack.UnpackFromRawAt | crates/hiroz-codegen-go/generator.go:264-279 | The body from any offset: the value, end and error of the guarded specification, so the end is never behind the data |
| GoUnpack.DeserializeCDR | crates/hiroz-codegen-go/generator.go:253-262 | Inputs under four bytes are errors; the header is skipped unread |
| GoAgreement.EncodersAgree | crates/hiroz-codegen-go/generator.go:435-626 | On a safe schema, for every message, value and position, the Go body is the little-endian body of the generated Rust code |
| GoAgreement.SchemaAgreesExactly | crates/hiroz-codegen-go/generator.go:435-626 | For every schema: each field is written alike in both languages, everywhere and for all values, if and only if the schema check passes |
| GoAgreement.PackBothWays | crates/hiroz-codegen-go/generator.go:237-251 | Both encoders run from the same position inside larger messages, append the same bytes and agree on the position after them |
| GoAgreement.SerializeBothWays | crates/hiroz-codegen-go/generator.go:221-251 | Both encoders run on one message: the Go bytes are the header and the Rust bytes |
| GoAgreement.GoRoundTrip | crates/hiroz-codegen-go/generator.go:221-280 | In a package that compiles, DeserializeCDR recovers what SerializeCDR wrote and ends with the data |
| GoAgreement.RustReadsGo | crates/hiroz-codegen/src/generator/rust.rs:315-418 | On a safe schema the generated Rust code recovers every message within its limits from the Go bytes |
| GoAgreement.GoReadsRust | crates/hiroz-codegen-go/generator.go:632-833 | And the guarded Go decoder every message within its own limits from the Rust bytes |
| RustGenerator.HasOneAlignment | crates/hiroz-codegen/src/generator/rust.rs:124-138 | The alignment check of one message |
| RustGenerator.ComputePlainTypes | crates/hiroz-codegen/src/generator/rust.rs:93-145 | The result is the least set that contains every message that qualifies, so it is independent of the order, and all of it qualifies. What this means for padding is in the next rows |
| RustGenerator.TakenForPlainExactly | crates/hiroz-codegen/src/generator/rust.rs:61-82 | All builtin numbers but bool and char are taken for plain, with the alignment of their width |
| RustGenerator.UnnestedQualifiesExactly | crates/hiroz-codegen/src/generator/rust.rs:104-133 | A message of builtin types qualifies exactly when it has only single numbers and fixed arrays of one width |
| RustGenerator.NestedQualifiesExactly | crates/hiroz-codegen/src/generator/rust.rs:46-80 | A reference is plain exactly when its message is in the set under the package it is written with; one without a package keeps the message out |
| RustGenerator.UnnestedHasOneAlign | crates/hiroz-codegen/src/generator/rust.rs:116-133 | The alignment check gives a message without nested fields one alignment for all fields |
| RustGenerator.OneAlignmentIsPacked | crates/hiroz-codegen/src/generator/rust.rs:97-104 | Plain fields of one alignment, nested ones included, leave no inter-field and no trailing padding |
| RustGenerator.DeriveAcceptsExactly | crates/hiroz-codegen/src/generator/rust.rs:97-145 | No plain struct of a schema has padding exactly when the running offsets fit in the plain structs that mix alignments through a nested field |
| RustGenerator.StampedHasPadding | crates/hiroz-codegen/src/generator/rust.rs:134-138 | A Time and an octet qualify as plain, and their nine bytes do not fill an alignment of four |
| StampedSchema.PaddedSchema | crates/hiroz-codegen/src/generator/rust.rs:104-145 | The generator run on those two messages takes both for plain, and the derive rejects the result |
| RustGenerator.GenerateRust | crates/hiroz-codegen/src/generator/rust.rs:104-145 | The schema made from a list of messages with distinct keys has them under their keys and the least closed set as its plain set |
| RustGenerator.SerdeAgreesExactly | crates/hiroz-codegen/src/generator/rust.rs:239-312 | In either byte order every field of every message is written alike by the generated impls and by serde, everywhere and for all values, exactly when all blocks of the schema fit the order |
| RustGenerator.ElementsArePlain | crates/hiroz-codegen/src/generator/rust.rs:61-82 | Where the open layouts fit, what the generator takes for plain, in the package of the message, has only numbers and no padding |
| RustGenerator.RustTypesAreTraitTypes | crates/hiroz-codegen/src/generator/rust.rs:151-236 | The generated impls use only types the traits cover, and blocks of plain elements |
| RustGenerator.NamesHaveWidths | crates/hiroz-codegen/src/generator/rust.rs:894-906 | Which names are builtin numbers, and how many bytes each takes |
| RustGenerator.CopiedInBulkExactly | crates/hiroz-codegen/src/generator/rust.rs:239-312 | Fields of builtin types are copied in bulk exactly as arrays and sequences of numbers on a little-endian host |
| RustGenerator.MessagesCopiedInBulkExactly | crates/hiroz-codegen/src/generator/rust.rs:239-312 | And fields of message types exactly when the message is plain |
| RustGenerator.GoalInfoIsPlain | crates/hiroz-codegen/src/generator/rust.rs:104-145 | Any closed plain set with UUID and Time contains GoalInfo |
| RustGenerator.GoalInfoIsMisplaced | crates/hiroz-codegen/src/generator/rust.rs:260-275 | Its block of two at position 1 does not start where a loop would |
| GoalInfoSchema.UnsafeSchema | crates/hiroz-codegen/src/generator/rust.rs:104-145 | The generator run on four messages, one with two GoalInfo behind an octet, gives a schema that the derives accept and the agreement check does not |
| GoAgreement.SameProgram | crates/hiroz-codegen/src/generator/json.rs:120-175 | Without fixed arrays of strings the Go types of the exported manifest are the Rust types without blocks |
| TypeNames.SplitFullName | crates/hiroz-codegen/src/hashing.rs:236-243 | Dropping the middle part of a full name gives its key |
| TypeNames.ConversionsAgree | crates/hiroz-codegen/src/resolver.rs:349-357 | Splitting at slashes and replacing the directory give the same key for every full name |
| TypeNames.KeysAreUnique | crates/hiroz-codegen/src/hashing.rs:236-243 | Different full names have different keys |
| TypeNames.Sorted | crates/hiroz-codegen/src/hashing.rs:223-226 | The order of a BTreeMap: all its keys, strictly increasing |
| TypeNames.LessExactly | crates/hiroz-codegen/src/hashing.rs:223-226 | The order of names: a proper prefix first, otherwise the first difference decides |
| TypeDescriptions.DescriptionsAgreeExactly | crates/hiroz-codegen/src/resolver.rs:923-1025 | The main and the referenced description are equal exactly when no string bound meets a capacity or a nested type |
| TypeDescriptions.DescribedLinks | crates/hiroz-codegen/src/resolver.rs:923-1025 | A description refers to exactly the keys of the message's dependencies |
| FieldMeanings.SupportedExactly | crates/hiroz-codegen/src/hashing.rs:265-359 | Only a wide string without a package has no id |
| FieldMeanings.BuiltinIds | crates/hiroz-codegen/src/hashing.rs:294-351 | The id of every builtin type by itself and in the three kinds of arrays |
| FieldMeanings.OtherIds | crates/hiroz-codegen/src/hashing.rs:272-287 | The ids of message types and of bounded strings |
| FieldMeanings.MainDescriptionDeterminesMessage | crates/hiroz-codegen/src/hashing.rs:153-207 | Two messages have one main description exactly when they have one name and fields of the same names and meanings in the same order |
| FieldMeanings.DescriptionDeterminesMessage | crates/hiroz-codegen/src/resolver.rs:923-1025 | The same for the referenced form, string bounds included |
| FieldMeanings.HashInputDeterminesMessage | crates/hiroz-codegen/src/hashing.rs:153-227 | The same for the whole hash input in one registry |
| FieldMeanings.OrdinaryMessagesAreDetermined | crates/hiroz-codegen/src/hashing.rs:153-207 | Without bounded strings and packaged builtin names only char and uint8, and a package left out, are not told apart |
| FieldMeanings.BoundedStringsLoseTheirShape | crates/hiroz-codegen/src/hashing.rs:281-284 | A bounded string and a sequence of them have one description |
| FieldMeanings.TwoDescriptions | crates/hiroz-codegen/src/hashing.rs:160-166 | The descriptions of UUID and of the empty message, number by number |
| TypeClosure.ReachIsClosed | crates/hiroz-codegen/src/hashing.rs:245-263 | What chains of references reach contains the roots and every further reference |
| TypeClosure.ReachIsLeast | crates/hiroz-codegen/src/hashing.rs:245-263 | Nothing smaller does |
| TypeClosure.WalkTerminatesExactly | crates/hiroz-codegen/src/hashing.rs:245-263 | The recursion ends at some depth exactly when no cycle can be reached from the roots |
| TypeClosure.Collected.CollectReferencedTypes | crates/hiroz-codegen/src/hashing.rs:245-263 | The post-order walk collects what its recursion specifies, needs a rank only inside the closure, keeps the map dependency-closed, adds every reference and nothing outside any closed set |
| TypeClosure.Collected.CollectNestedDeps | crates/hiroz-codegen/src/resolver.rs:341-368 | The pre-order walk terminates on every graph, also cyclic, and follows every new entry |
| TypeHashing.ReferencedIsTheExactClosure | crates/hiroz-codegen/src/hashing.rs:208-226 | The referenced descriptions are exactly the reachable ones, in strictly increasing name order |
| TypeHashing.BuildTypeDescriptionMsg | crates/hiroz-codegen/src/hashing.rs:153-227 | The built hash input is the main description with that closure; an unsupported field type is an error. Only what the message reaches need be acyclic |
| TypeHashing.HashingTerminatesExactly | crates/hiroz-codegen/src/hashing.rs:208-220 | Hashing a message ends exactly when its fields reach no cycle in the registry |
| TypeHashing.BothTraversals | crates/hiroz-codegen/src/resolver.rs:341-368 | From an empty map both walks return the same closure |
| Worklist.ReadyExactly | crates/hiroz-codegen/src/resolver.rs:299-339 | Ready means that every dependency is registered or external |
| Worklist.RunKeepsEveryMessage | crates/hiroz-codegen/src/resolver.rs:50-139 | Resolved and remaining messages together are the queue, and exactly a success leaves nothing |
| Worklist.RunResolvesReadyMessages | crates/hiroz-codegen/src/resolver.rs:80-93 | Each message is resolved after all it references, and only if it is supported |
| Worklist.GuardsFire | crates/hiroz-codegen/src/resolver.rs:56-135 | From any point of a run: what a stall proves about the last 101 messages, and how many pops each outcome can take |
| Worklist.CapNeverFires | crates/hiroz-codegen/src/resolver.rs:56-77 | Up to 148 messages never reach the iteration cap |
| Worklist.PopsWithinTriangle | crates/hiroz-codegen/src/resolver.rs:60-78 | A successful run makes at most the sum of min(k, 101) pops, so at most n(n+1)/2 |
| Worklist.PopBoundIsSharp | crates/hiroz-codegen/src/resolver.rs:60-78 | Some batch of n messages takes exactly that many, as far as the cap allows |
| Worklist.CapCanFireFrom149 | crates/hiroz-codegen/src/resolver.rs:56-77 | The cap can fire for a batch of n messages exactly when n is at least 149 |
| Worklist.StallIsReal | crates/hiroz-codegen/src/resolver.rs:99-131 | With at most 101 left, each message of a stall report has an unresolved dependency |
| Worklist.StalledIsUnresolvable | crates/hiroz-codegen/src/resolver.rs:99-131 | A stalled batch of at most 101 messages has no order that works |
| Worklist.ResolverIsComplete | crates/hiroz-codegen/src/resolver.rs:50-139 | At most 101 messages are resolved exactly when some order works and all field types are supported |
| FieldMeanings.OnlyWideStringsAreUnsupported | crates/hiroz-codegen/src/resolver.rs:80-93 | A batch without wide strings never ends unsupported |
| FieldMeanings.ResolvedExactly | crates/hiroz-codegen/src/resolver.rs:50-139 | At most 101 messages are resolved exactly when some order works and none has a wide string |
| Worklist.ReadyOrderIsOnePass | crates/hiroz-codegen/src/resolver.rs:60-93 | A queue in a working order is resolved in that order with one pop each, up to the cap |
| Worklist.CompleteExactlyUpTo101 | crates/hiroz-codegen/src/resolver.rs:98-135 | Every resolvable batch of n messages succeeds exactly when n is at most 101 |
| Resolvers.ReachIsStable | crates/hiroz-codegen/src/hashing.rs:245-263 | Later registrations do not change a closure that was complete |
| Resolvers.HashInputIsStable | crates/hiroz-codegen/src/hashing.rs:22-28 | The hash input of a ready message is final: it is the same in every larger registry |
| Resolvers.HashInputUnchangedExactly | crates/hiroz-codegen/src/resolver.rs:80-90 | Registering a ready message under a known key leaves a hash input as it was exactly when the description is the registered one or the key is not reached |
| Resolvers.RenewedKeyStalesAHash | crates/hiroz-codegen/src/resolver.rs:80-90 | A concrete batch that renews a key and leaves the hash of a closure that is not the final one |
| Resolvers.NothingIsMissing | crates/hiroz-codegen/src/hashing.rs:208-220 | Without external packages every reference of the closure is in it |
| Resolvers.NoMessageReferencesItself | crates/hiroz-codegen/src/resolver.rs:80-96 | No resolved message is among the types in its own hash input |
| Resolvers.EnterKeepsNames | crates/hiroz-codegen/src/resolver.rs:80-90 | Registering a ready message, under a new or a known key, keeps names matched and references settled |
| Resolvers.AcyclicExactly | crates/hiroz-codegen/src/resolver.rs:80-90 | It leaves the references acyclic exactly when the message does not reach its own key in the registry |
| Resolvers.OrderIsAcyclicExactly | crates/hiroz-codegen/src/resolver.rs:60-93 | A whole order keeps the registry acyclic throughout exactly when each message passes that check at its turn |
| Resolvers.BatchHashingTerminates | crates/hiroz-codegen/src/resolver.rs:60-93 | With new and distinct keys no message reaches a cycle when it is hashed |
| Resolvers.AcyclicRunsTerminate | crates/hiroz-codegen/src/resolver.rs:60-93 | Nor does any in an order that keeps the registry acyclic |
| Resolvers.EnterKeepsTheRegistry | crates/hiroz-codegen/src/resolver.rs:80-90 | Registering a ready new message keeps the names matched, the references settled and the graph acyclic |
| Resolvers.EnterKeepsConsistency | crates/hiroz-codegen/src/resolver.rs:80-90 | And every hash computed so far stays the hash of its final closure |
| Resolvers.EnterAllIsFinal | crates/hiroz-codegen/src/resolver.rs:80-90 | The same over a whole ready order, with exactly its keys added |
| Resolvers.RunHashesFinalClosures | crates/hiroz-codegen/src/resolver.rs:50-139 | A successful run registers every message with its description and the hash of its closure in the final tables |
| Resolvers.OrderIndependence | crates/hiroz-codegen/src/resolver.rs:50-139 | Two orders of one batch that both succeed leave equal descriptions and equal hashes |
| Resolvers.SuccessIsOrderIndependent | crates/hiroz-codegen/src/resolver.rs:50-139 | Up to 101 messages, one order succeeds exactly when every other does |
| Resolvers.RepeatedKeyMakesACycle | crates/hiroz-codegen/src/resolver.rs:81-89 | A concrete batch with a repeated key succeeds and leaves a cyclic registry, the failing case of AcyclicExactly |
| Resolvers.Resolver.constructor | crates/hiroz-codegen/src/resolver.rs:33-42 | A new resolver with any external packages and any hash function is empty and satisfies the invariant |
| Resolvers.Resolver.ResolveMessage | crates/hiroz-codegen/src/resolver.rs:370-383 | The hash of the closure in the present tables, or the unsupported error, if the message reaches no cycle |
| Resolvers.Resolver.ResolveMessages | crates/hiroz-codegen/src/resolver.rs:50-139 | For any messages, repeated keys included, that reach no cycle when they are hashed, whatever else is registered: ends as the queue specification says, with its pops and leftovers, and enters what was resolved in order; with new keys it keeps the invariant on every path |
| RingChannel.StepKeeps | crates/hiroz-go/hiroz/handler.go:69-93 | Every step of every goroutine keeps the invariant |
| RingChannel.EveryInterleavingIsSafe | crates/hiroz-go/hiroz/handler.go:69-93 | Over all runs: acceptance order, conservation, capacity, at most one drop per callback, room for the retry, no use after close |
| RingChannel.NothingAcceptedAfterClose | crates/hiroz-go/hiroz/handler.go:73-90 | Once closed, no run accepts anything more |
| RingChannel.DropTakesTheOldest | crates/hiroz-go/hiroz/handler.go:78-81 | The dropped message is the oldest accepted one still queued |
| RingChannel.EveryMessageIsAccountedFor | crates/hiroz-go/hiroz/handler.go:70-83 | Each callback's message has exactly one fate, accepted, held or turned away by a closed channel, and every item is the message its call was made with |
| RingProgress.DropsNeedAFullQueue | crates/hiroz-go/hiroz/handler.go:76-83 | Over all runs k drops take at least capacity + k calls, so a run of at most capacity calls drops nothing |
| RingProgress.TheNewestStay | crates/hiroz-go/hiroz/handler.go:76-83 | Without a consumer the queue holds exactly the newest accepted messages, as many as fit |
| RingProgress.CallbackRunsThrough | crates/hiroz-go/hiroz/handler.go:69-84 | A callback left alone puts its message last, takes the oldest out of a full queue first, and is turned away by a closed channel |
| RingProgress.DropRunsThrough | crates/hiroz-go/hiroz/handler.go:85-92 | The drop function left alone closes the channel |
| RingProgress.DropCloses | crates/hiroz-go/hiroz/handler.go:85-92 | In every run the channel is closed once a call to drop has returned |
| RingProgress.HolderBlocksExactly | crates/hiroz-go/hiroz/handler.go:70-83 | The holder of the mutex can go on unless it wants to drop from an empty queue |
| RingProgress.SomeRunStrands | crates/hiroz-go/hiroz/handler.go:79-82 | For every capacity some run gets there |
| RingProgress.StrandedForever | crates/hiroz-go/hiroz/handler.go:79-82 | And no run gets out: nothing is accepted, received or closed any more |

## Left out

- Integer widths of `usize` in the writers: sequence and string prefixes are truncated to 32 bits as the code does, buffer lengths are unbounded.
- 32-bit Go targets: `int(uint32)` is taken to be exact, so the `arrLen < 0` branches never fire.
- Decoding into a reused Go message: a field whose encoded string length is 0 keeps its old string; the model decodes into fresh messages.
- Go custom kinds without a package or name, fixed arrays without a size, and the decoder of fixed arrays of strings: the emitted code for them does not compile.
- Error texts and the lists of the first ten stuck messages; the model returns all that is left and the number of pops.
- `resolve_messages` returns the values of a hash map in no fixed order; the model leaves them in the table.
- The hash function itself (JSON form and SHA-256), an uninterpreted parameter of the resolver.
- `expand_definition`: text assembly without effect on hashes.
- Services, actions, their names under `/srv/` and `/action/`, and their hashes.
- Batches with more than 101 messages that do succeed: `Worklist.CompleteExactlyUpTo101` only says that not all of them do.
- `serialize_u128`: it asks for alignment 16, the padding array has 8 bytes, and no reader exists.
- Blocks of elements without bytes: the bulk reader hands them to bytemuck, which is not part of this model.
- The limit on array lengths that bytemuck's `Pod` impls set, and elements from another crate, whose plainness is decided there.
- Messages named `time` or `duration`: the manifest takes the names for the builtin types.
- Zero-copy sharing of ZBuf fields: they are modelled as sequences of octets, which have the same bytes.
- Buffer capacities, `reserve` and `reserve_4k`: no effect on content.
- `read_str`: `read_string` without the copy.
- Map keys are not compared: a map is its list of pairs in the order of serialization.
- In-place layout of Rust and Go messages: values are immutable; the buffers, readers, writers, collected maps and tables are updated in place.
