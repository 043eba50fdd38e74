# Amber-Store core, verified

Amber-Store is a content-addressed store: files and directories become trees of objects named by
their keys, objects travel in packs, packs are drained from an inbox, and trees can be exported to
and extracted from tar archives. This project models the parts of it that carry the hardest
promises, in Dafny 4.11, and proves those promises for all inputs, all runs or all reachable states.
`dafny verify dfyconfig.toml` checks everything.

What is modelled, and the main result of each part:

- **Binary fuse filter** (`fuse_*.dfy`, on `bits.dfy`). The build as it runs: in-place bucket
  placement, the fill pass with its 6-bit wrapping counters, peeling with branch-free index
  arithmetic, reverse assignment, retries with halved segments and pruned keys. *No false
  negatives*: whatever the keys and the hash functions, a filter that is returned contains every
  key. An attempt succeeds exactly if what the fill pass keeps fits the counters and can be peeled, in
  whatever order; the mixer is injective for every seed, so that for distinct keys construction succeeds
  exactly if in one of the 1024 iterations the set of hashes can be built into a filter at all. A filter
  answers yes to one fingerprint only for given cells, and the empty filter only to keys whose
  fingerprint is zero. The section format parses back both ways.
- **Tree builder** (`tree_*.dfy`, `runs.dfy`). Levels that cascade upward while children stream in, and a
  `finish` whose bound grows. *In-order refinement*: expanding the returned root through the emitted
  objects gives exactly the added children, in order; children are emitted first, the root last;
  separators strictly increase and are the greatest names of entries below them. Finishing succeeds
  exactly when something was added, unless an object is refused or a node over what was added cannot be
  encoded. *Determinism*: every level is the only cut of its items into runs that the divisibility rule
  of the digests allows, so the root is a function of the children, and that of a directory of its
  entries.
- **Chunkers** (`chunker.dfy`). The rolling cut equals a direct rule about positions and windows;
  streaming equals chunking the whole input, also up to a failure of the reader; inputs resynchronise
  at a common cut.
- **Tar** (`tar_*.dfy`, `pax_text.dfy`, `path_clean.dfy`, `decimal.dfy`). The writer's choice among
  plain ustar, prefix split and pax records, blocks filled field by field, the reader's formats and
  its folding of records. *Whole round trip*: every archive of accepted pax-pinned headers and
  bodies reads back field by field and byte by byte. *Archives of other writers*: a block parses as a
  header if and only if its bytes mean that header, in the V7, ustar, star or old GNU format with octal or
  base-256 numbers, and a stream of such blocks, bodies and padding reads as the entries it lists.
- **Pack streams** (`pack.dfy`, `pack_stream.dfy`). Reading what was written gives the objects back
  under any mix of codecs; a stream cut anywhere gives those whose records are whole, and exactly one
  error; a damaged record with the checksum of the original is accepted only if the checksum collides.
- **Reference records** (`cbor*.dfy`, `reference_*.dfy`, `reference.dfy`; section 4.2 of RFC 8949). A
  byte string decodes to a record if and only if it is that record's canonical encoding, which is the
  only deterministic encoding of the map of its fields; the two passes of the lax decoder agree byte for
  byte.
- **Ignore patterns** (`glob.dfy`, `glob_text.dfy`, `utf8.dfy`). The greedy matcher, which commits to the leftmost
  match of every chunk, decides the existential meaning of the stars on exactly those names where
  that can be done, and what it reports as a match is one on all names. Every list of pieces is spelled
  by a pattern text that parses to it.
- **Inbox** (`inbox.dfy`). A step relation over clients, workers, crashes and recovery. Barrier counts
  are exact in every interleaving, no accepted body is ever lost, no entry of an open inbox is
  orphaned, and closing drains the queue.
- **Calendar** (`calendar.dfy`, `timestamps.dfy`; sections 5.6 and 5.7 of RFC 3339). Days and dates
  are mutually inverse over all days and all valid dates, and each day follows the one before it on the
  calendar; timestamps read back, fractions included.

How the model relates to the code: integers are ranges of `int` with every wrap-around written out;
bitwise operations are defined on naturals; buffers are arrays, objects with state are classes, and
loops are loops, each method proved against a specification function. Foreign code enters as
parameters: the digest and the object encoders of the tree builder (assumed injective only where a
tree is read back), the checksum and the compressors of packs (decompression inverts compression),
the hash that names inbox entries (collision-free), the mixers of the filter (arbitrary
for no false negatives, the code's own where it is built). Byte
sources may return fewer bytes than asked for; sinks accept every byte; callbacks are functions of
what they were given so far, or answer arbitrarily. Errors are kept as classes,
without their text. The floating-point geometry of the filter enters as two numbers, the raw segment
length (a power of two, at least 4) and the raw capacity (small enough that rounding it up stays
within 32 bits).

Two properties hold under a condition only, and the model proves which:

- The greedy matcher decides the declarative meaning of every well-formed pattern on a name if and
  only if no offset of the name decodes to a character of three or more bytes (`Glob.Narrow`) and no
  separator follows another byte (`Glob.SlashesLead`), and a path component has no separator at all
  (`Glob.GreedyExact`). `Glob.WideCharacter` is `*??*x` on the euro sign and `x`: the matcher answers
  no, although the stars can be chosen so that the pattern matches.
- A formatted timestamp parses back if and only if its zone is less than a day and it does not lie in
  the earliest second of the 64-bit range (`Timestamps.ParsesBack`); `Timestamps.LeastFails` is the
  least timestamp.

## Model

| member | source | states |
|---|---|---|
| `FuseGeometry.ValidProducts` | src/binaryfuse.rs:300-313 | in a valid geometry the counted length is count times length, and there are (count + 2) times length fingerprints |
| `FuseGeometry.CellsProper` | src/binaryfuse.rs:320-328 | for every valid geometry and every hash the three indexes are distinct, in bounds and in three consecutive segments |
| `FuseGeometry.OtherCellsCorrect` | src/binaryfuse.rs:491-518 | for each of the three roles, the branch-free wrapping computation yields the other two indexes of the hash, and their roles |
| `FuseFill.UpEncodes` | src/binaryfuse.rs:417-425 | adding a hash to a cell encodes the increased load, or wraps the six-bit counter to zero exactly at the 64th |
| `FuseFill.AddHolds` | src/binaryfuse.rs:415-453 | if no touched counter is below four after adding a hash, every cell holds exactly the count, role and hash of the retained hashes on it |
| `FuseFill.AddRemoveHolds` | src/binaryfuse.rs:417-443 | adding a hash and taking it out again leaves every cell exact, even past a wrapped counter |
| `FuseFill.DuplicateIsRetained` | src/binaryfuse.rs:428-433 | the duplicate test fires only for a hash that is already retained |
| `FuseFill.FillOne` | src/binaryfuse.rs:415-453 | one hash: dropped exactly if the duplicate test on the exact loads says so, or added exactly, or reported as an error, and the last only when it is the 64th on some cell |
| `FuseFill.TestExact` | src/binaryfuse.rs:428-433 | while the table is exact, the code's test fires if and only if the hash is already there and alone on one of its cells |
| `FuseFill.Fill` | src/binaryfuse.rs:412-454 | the retained hashes are exactly those the duplicate test keeps of the slots; an error is reported if and only if they put 64 on some cell; otherwise every placed hash is retained, the table is exactly theirs, and kept and dropped hashes add up |
| `FusePeel.PeelStep` | src/binaryfuse.rs:480-535 | peeling keeps: unpeeled hashes exactly on unused cells, no unpeeled hash on a used pivot, nothing queued twice, every single cell queued, room in the queue, hashes conserved |
| `FusePeel.RemoveFromOthers` | src/binaryfuse.rs:491-535 | the table and the queue after a hash leaves its two other cells |
| `FusePeel.QueueSingles` | src/binaryfuse.rs:465-472 | the queue holds exactly the cells with count one, in increasing order |
| `FusePeel.Peel` | src/binaryfuse.rs:465-536 | stacked hashes have pivots that no later one touches; a full stack holds every retained hash; what is left is the greatest set of hashes that cannot be peeled, so the order of peeling does not matter |
| `FusePlace.BlockBits` | src/binaryfuse.rs:392-395 | the least number of bits, at least one, whose power reaches the segment count |
| `FusePlace.StartPositions` | src/binaryfuse.rs:396-400 | bucket starts that do not decrease past the size |
| `FusePlace.FindFree` | src/binaryfuse.rs:403-407 | the circular scan ends at a bucket whose next slot is empty |
| `FusePlace.Place` | src/binaryfuse.rs:392-410 | placement terminates for every key, keeps the sentinel, and leaves the key hashes padded with zeros, as a multiset, even if a hash is zero |
| `BinaryFuse.InitialGeometryValid` | src/binaryfuse.rs:284-315 | the initial geometry is valid: a power of two per segment, at least three segments, products within 32 bits |
| `BinaryFuse.HalveRestore` | src/binaryfuse.rs:368-390 | halving keeps the geometry valid and the capacity unchanged, and restoring undoes it |
| `BinaryFuse.Resize` | src/binaryfuse.rs:368-390 | every step of the size dance keeps the geometry that belongs to the iteration |
| `BinaryFuse.Attempt` | src/binaryfuse.rs:392-542 | success puts the hash of every key on a proper stack, and comes about if and only if what is kept of the slots fits the counters and can be peeled; for distinct hashes without padding, if and only if the set of hashes can be built |
| `FuseCore.SolvableExactly` | src/binaryfuse.rs:412-542 | retained hashes fit and peel if and only if none is repeated and, as a set, no 64 share a cell and every part leaves some cell to one hash |
| `FuseCore.KeptSolvable` | src/binaryfuse.rs:412-542 | the same of the slots: a repeat that the duplicate test misses spoils the attempt, and otherwise only the set of hashes matters |
| `BinaryFuse.AttemptedMeans` | src/binaryfuse.rs:360-552 | a successful attempt means that the hashes can be built; a failed one, for distinct keys and hashes, that they cannot |
| `BinaryFuse.Search` | src/binaryfuse.rs:360-552 | retries, with pruned keys but unchanged size, find a stack good for all input keys in the first iteration whose attempt works, and give up only after the last iteration |
| `BinaryFuse.Assign` | src/binaryfuse.rs:557-572 | after reverse assignment every stacked hash is solved: its three cells and its fingerprint cancel |
| `BinaryFuse.SolvedContains` | src/binaryfuse.rs:579-587 | solved hashes make lookup succeed for all their keys |
| `BinaryFuse.Build` | src/binaryfuse.rs:344-575 | no false negatives: a returned filter is valid and contains every input key, duplicates and zero hashes included; it has the seed and geometry of the first iteration that works; if keys and hashes are distinct, one is returned if and only if in some iteration the hashes can be built; without keys all fingerprints are zero |
| `BinaryFuse.FewKeysBuild` | src/binaryfuse.rs:344-575 | no key or one key can always be built |
| `BinaryFuse.New` | src/binaryfuse.rs:336-339 | the same for the mixers that the code uses, so for distinct keys a filter is returned if and only if in some iteration their hashes can be built |
| `FuseMix.MixInjective` | src/binaryfuse.rs:90-110 | for every seed, different keys have different hashes |
| `BinaryFuse.MixDistinct` | src/binaryfuse.rs:99-110 | the hashes of distinct keys are distinct under every seed that construction draws |
| `FuseAnswers.ContainsExactly` | src/binaryfuse.rs:579-587 | a filter contains a key if and only if its three fingerprints cancel to the low two bytes of the hash xored with the two bytes above bit 32 |
| `FuseAnswers.EmptyAnswers` | src/binaryfuse.rs:579-587 | a filter of zeros, such as one built from no keys, contains exactly the keys for which those two words of the hash are equal |
| `FuseAnswers.NeverBoth` | src/binaryfuse.rs:579-587 | of two contained keys with the same cells, the lower words of their hashes agree if and only if the upper ones do, so no filter contains both of two keys that differ in one of them |
| `FuseSection.AcceptedIsValid` | src/binaryfuse.rs:646-658 | the parser's bit test accepts exactly the valid geometries |
| `FuseSection.ParseOfSection` | src/binaryfuse.rs:593-672 | parsing the section of a valid filter gives the filter |
| `FuseSection.SectionOfParse` | src/binaryfuse.rs:593-672 | a section that parses gives a valid filter, whose section is that very byte string |
| `TreeModel.NewChunker` | src/chunkers.rs:301-310 | runs have at least two items and at most the maximum |
| `TreeShape.ChunkerRule` | src/chunkers.rs:301-325 | a run ends at four times the average length, or from a quarter of it (at least two) on when the average length divides the digest of the last item |
| `Runs.CutUnique` | src/chunkers.rs:314-325 | given a rule for where runs end, only one way of cutting a sequence obeys it: every run but the last ends by the rule, and none could have ended earlier |
| `TreeShape.LevelCut` | src/fstree/builder.rs:199-234 | the runs of a level are the one cut of its items that the boundary rule allows |
| `TreeShape.LevelUp` | src/fstree/builder.rs:281-316 | the level above has one item for each run in order, the node over it, except that a last run of one item is lifted as it is |
| `TreeShape.LeafCut` | src/fstree/builder.rs:80-127 | the leaf runs of a directory with entries are the one cut of them that the boundary rule allows |
| `TreeModel.ExpandTree` | src/fstree/builder.rs:199-316 | following stored nodes from a tree's key gives the keys of its leaves in order |
| `TreeBuilder.IndexBuilder.Add` | src/fstree/builder.rs:199-234 | a reference added at a level appends its leaves to the sequence represented, with every closed run emitted, and the levels stay those that the boundary rule prescribes for the items added; it fails only if the callback refuses an object, or a node over a stretch of those leaves cannot be encoded |
| `TreeBuilder.IndexBuilder.CloseLevel` | src/fstree/builder.rs:236-245 | closing a run emits its node after its children and keeps the leaves represented; a run that cannot be encoded changes nothing |
| `TreeBuilder.IndexBuilder.AddChild` | src/fstree/builder.rs:187-197 | a child is appended to the leaves represented; the same reasons for failure |
| `TreeBuilder.IndexBuilder.Finish` | src/fstree/builder.rs:281-316 | terminates; it succeeds exactly when a child was added, unless the callback refuses an object or a node over a stretch of the added leaves cannot be encoded; the root is over exactly the added leaves in order and is the tree that the boundary rule prescribes for them, level by level; nodes have 2 to the maximum number of children, each follows its children, the root comes last |
| `TreeBuilder.IndexBuilder.Collapse` | src/fstree/builder.rs:291-312 | one round of the loop: an open run of the level becomes a node or is lifted, and the level above is what the rule prescribes |
| `TreeBuilder.RootReads` | src/fstree/builder.rs:281-316 | expanding such a root through the emitted nodes gives the added children in order |
| `DirectoryBuilder.DirBuilder.AddEntry` | src/fstree/builder.rs:80-98 | an entry is appended; one that cannot be encoded leaves the builder as it was; a full run that cannot be encoded stays with the new entry in it; any other encode error is that of a node over the runs so far |
| `DirectoryBuilder.DirBuilder.CloseLeaf` | src/fstree/builder.rs:104-115 | the open run becomes a leaf object under the index and the entries stay the same; a run that cannot be encoded stays in place; any other encode error is that of a node over the runs so far |
| `DirectoryBuilder.DirBuilder.Finish` | src/fstree/builder.rs:119-127 | succeeds unless an object is refused, or one of the runs of the entries or a node over them cannot be encoded; the runs under the root are the cut of the added entries that the boundary rule prescribes, and the root is the tree that it prescribes for them; the root is emitted last, also for an empty directory |
| `DirectoryBuilder.DirectoryReads` | src/fstree/builder.rs:80-127 | expanding the root and reading the leaves gives the entries in order |
| `DirectoryBuilder.DirectorySeparated` | src/fstree/builder.rs:256-276 | for name-sorted entries the separators of every node strictly increase, and each is the greatest name of an entry in the runs below it |
| `Chunker.Validate` | src/chunkers.rs:114-126 | no error exactly for 64 <= min < normal < max <= 1 GiB |
| `Chunker.Roll` | src/chunkers.rs:220-223 | moving the window on by one byte changes the distance by the byte that enters and the byte that leaves |
| `Chunker.DistanceBound` | src/chunkers.rs:185-190 | the distance of eight bytes to 0xAA is between 0 and 64 |
| `Chunker.ScanWindow` | src/chunkers.rs:214-224 | the first position of a window that meets the mask rule, or none and the distance at its end |
| `Chunker.Cutpoint` | src/chunkers.rs:145-229 | the cut is the first position meeting the mask rule or ending the 64th repeated window in a row, or else the clamped length, although repeated windows are skipped without an update |
| `Chunker.CutBounds` | src/chunkers.rs:145-229 | a cut is positive, at most the maximum, and at least the minimum unless the data ends there |
| `Chunker.CutIsLocal` | src/chunkers.rs:161-168 | bytes beyond the maximum size do not move the cut |
| `Chunker.SplitBytes` | src/chunkers.rs:242-280 | splitting with a refilled buffer gives the chunks of the whole input; a failing reader or callback stops after a prefix of them, whatever was still to come; bad options are reported in order |
| `Chunker.ChunksCover` | src/chunkers.rs:242-280 | chunks concatenate to the input, are non-empty and at most the maximum, and all but the last are at least the minimum |
| `Chunker.ChunksFromCut` | src/chunkers.rs:242-280 | from a cut on, the chunks are those of the remaining input |
| `Chunker.Resynchronise` | src/chunkers.rs:242-280 | two inputs that share a cut and what follows it share all chunks from there |
| `Decimal.ValueOfDigits` | src/tarexport.rs:611-623 | printed digits spell the number, in base eight and ten |
| `Decimal.FirstDigit` | src/tarextract.rs:807-839 | the most significant digit comes first |
| `Decimal.ParseOfFormat` | src/tarextract.rs:973-978 | every 64-bit integer reads back from its text |
| `PaxText.OneCorrection` | src/tarexport.rs:665-676 | adding a length's digits to it adds at most one digit, and then one correction is a fixpoint |
| `PaxText.SelfCounting` | src/tarexport.rs:661-677 | a formatted record's length counts the whole record, its own digits included |
| `PaxText.ParseOfRecord` | src/tarextract.rs:890-923 | a formatted record parses to its key and value, whatever follows |
| `PaxText.ParsePax` | src/tarextract.rs:875-884 | the loop gives the records of the whole buffer, the last of a repeated key |
| `PaxText.ParseOfRecords` | src/tarextract.rs:875-923 | parsing the concatenation of formatted records gives the same map |
| `PaxText.ParsePaxTime` | src/tarextract.rs:927-964 | the digit loop computes the time that the text stands for |
| `PaxText.TimeRoundTrip` | src/tarexport.rs:628-645 | every second of 64 bits with every nanosecond reads back, before and after the epoch |
| `PathClean.CleanPath` | src/tarexport.rs:682-740 | the one-pass cleaner with in-place cuts renders the component stack of the path |
| `PathClean.StepUp` | src/tarexport.rs:703-724 | a step up pops the last component, is kept in front of a relative path, or vanishes at the root |
| `PathClean.CleanTwice` | src/tarexport.rs:682-740 | cleaning is idempotent |
| `PathClean.SafeJoin` | src/tarextract.rs:286-303 | a name is accepted if and only if it has no `..` component and the destination is empty, or clean and, if it is `/` or `.`, the name has no real component; it is mapped to the destination plus its normal form; every result is at or below the destination |
| `PathClean.AboveClean` | src/tarextract.rs:286-303 | a directory with a clean path below it is clean, and neither the root nor the dot |
| `TarBlock.Offsets` | src/tarexport.rs:379-400 | the fields lie at the positions the code names and fill 512 bytes |
| `TarBlock.LaidUpdate` | src/tarexport.rs:402-409 | writing one field leaves all others as they were |
| `TarFields.StringReads` | src/tarexport.rs:587-607 | a string without NUL that fits its field reads back |
| `TarFields.Formatter.FormatString` | src/tarexport.rs:587-607 | the field holds the string, cut with the slash fix-up if too long, and the error sticks |
| `TarFields.Formatter.FormatOctal` | src/tarexport.rs:611-623 | the field holds the zero-padded octal number, or zero and the sticky error |
| `TarFields.OctalRoundTrip` | src/tarexport.rs:611-623 | a number that fits its field reads back |
| `TarFields.Parser.ParseOctal` | src/tarextract.rs:807-839 | blanks trimmed, digits with overflow checks, sticky error |
| `TarFields.Parser.ParseNumeric` | src/tarextract.rs:843-869 | base 256 or octal, as the first bit says |
| `TarHeader.ComputeChecksum` | src/tarexport.rs:428-440 | both sums, with the checksum field counted as spaces |
| `TarHeader.PaddingAligns` | src/tarexport.rs:422-424 | padding ends on a block boundary |
| `TarHeader.SetFormat` | src/tarexport.rs:847-863 | magic, version and a checksum that does not depend on its own field |
| `TarHeader.Template` | src/tarexport.rs:1328-1352 | every field of the header in its place, and the sticky error exactly if one does not fit |
| `TarFormats.FmtCheck.VerifyString` | src/tarexport.rs:895-927 | a string that is not ASCII or too long is recorded, and rules ustar out unless it splits |
| `TarFormats.FmtCheck.VerifyNumeric` | src/tarexport.rs:929-956 | a number that does not fit is recorded, or rules pax out if it has no key |
| `TarFormats.FmtCheck.VerifyTime` | src/tarexport.rs:958-997 | a time with a fraction, or one other than the modification time, is recorded and prefers pax |
| `TarFormats.SplitUstar` | src/tarexport.rs:821-842 | prefix, slash and suffix make up the name, and both fit |
| `TarFormats.SplitExact` | src/tarexport.rs:821-842 | a name is split if and only if it is long, ASCII and has a slash that leaves both parts short enough, and then at the last such slash |
| `TarFormats.ComputeAllowed` | src/tarexport.rs:1004-1117 | the formats left and the records needed, or a refusal |
| `TarChecks.FieldFacts` | src/tarexport.rs:1004-1030 | every field has its record when it needs one, with the right text; which fields each format rules out |
| `TarChecks.UstarFacts` | src/tarexport.rs:1004-1117 | a header written as plain ustar fits it whole: strings, numbers, whole seconds, no other times, no records |
| `TarParse.ParseHeader` | src/tarextract.rs:620-684 | what a block of any known format unpacks to, or an error |
| `TarParse.GetFormat` | src/tarextract.rs:687-706 | the format shown by checksum, magic and trailer |
| `TarParse.SealedKind` | src/tarextract.rs:687-706 | a sealed block passes its own checksum and shows ustar |
| `TarParse.BlockReads` | src/tarextract.rs:620-684 | a packed header unpacks to what its fields could hold |
| `TarWriting.UstarFits` | src/tarexport.rs:1191-1210 | the field-too-long error of the ustar writer cannot happen |
| `TarWriting.TarWriter.WriteUstarHeader` | src/tarexport.rs:1191-1210 | the block with prefix and suffix, then room for the body |
| `TarWriting.TarWriter.WritePaxHeader` | src/tarexport.rs:1212-1257 | the extended header if there are records, padded, then the main block |
| `TarWriting.TarWriter.WriteRawFile` | src/tarexport.rs:1261-1296 | a special file with its data |
| `TarWriting.TarWriter.WriteHeader` | src/tarexport.rs:1155-1189 | refuses unfinished bodies and unencodable headers, else emits padding and header and expects the body |
| `TarWriting.TarWriter.WriteData` | src/tarexport.rs:1358-1369 | accepts exactly what was announced |
| `TarWriting.TarWriter.Close` | src/tarexport.rs:1317-1323 | padding and two zero blocks |
| `TarReading.MergePax` | src/tarextract.rs:968-995 | every record that is not empty replaces its field; the records are kept; a bad number or time fails |
| `TarReading.TarReader.ReadHeader` | src/tarextract.rs:591-684 | a header, the end after zero blocks or at a clean end, or the error that the code reports |
| `TarReading.TarReader.ReadWhole` | src/tarextract.rs:756-786 | the rest of the body, from a source with short reads; too long if more than the cap is there, else cut short if the stream ends early |
| `TarReading.TarReader.Next` | src/tarextract.rs:540-587 | skips body and padding, folds extended headers into the header they precede, and tells malformed headers, overlong special files and truncation apart |
| `TarNumbers.TextExactly` | src/tarextract.rs:791-796 | a field parses as a text exactly when the text fills it or a NUL ends the text |
| `TarNumbers.OctalExactly` | src/tarextract.rs:807-839 | a field parses as an octal number exactly when it is blanks, the digits of the number, and blanks or a NUL and anything; digits of 64 bits stand for signed numbers |
| `TarNumbers.BinaryExactly` | src/tarextract.rs:843-869 | a field with the top bit set parses as a number of either sign exactly when the other bits are that number in two's complement, most significant byte first |
| `TarForeign.SumExactly` | src/tarextract.rs:687-706 | a format is recognised exactly when the block, with eight spaces for its checksum, adds up to its checksum, as unsigned or as signed bytes |
| `TarForeign.HeaderExactly` | src/tarextract.rs:606-684 | whatever its writer, a block parses as a header if and only if its bytes at the places of the V7, ustar, star or old GNU format mean that header: names with their prefix, numbers, times, GNU times or the prefix used in their place |
| `TarForeign.EntryMeant` | src/tarextract.rs:540-600 | the entry has the header that the block means, a NUL type read as a directory if and only if the name ends in a slash and as a regular file otherwise, and the body and padding that the type and size announce |
| `TarForeign.NothingMeant` | src/tarextract.rs:591-684 | a block that is not of zeros and means no header, or one of a negative size, is refused |
| `TarForeign.ForeignReads` | src/tarextract.rs:540-786 | every stream of such blocks, bodies and padding of any bytes, up to its end or two blocks of zeros, reads as the entries it lists, in order |
| `TarRoundTrip.UstarReads` | src/tarextract.rs:606-684 | a plain ustar header reads back whole, prefix and name joined |
| `TarRoundTrip.PaxMerges` | src/tarextract.rs:968-995 | the main block of a pax header with its records folded in is the header |
| `TarRoundTrip.RecordFacts` | src/tarexport.rs:1063-1077 | the records written are those of the fields and exactly the carried ones of the header |
| `TarRoundTrip.EntryReads` | src/tarextract.rs:540-587 | whichever representation was chosen, the entry read has the fields of the header written |
| `TarRoundTrip.ArchiveReads` | src/tarextract.rs:540-995 | every archive of accepted pinned items reads back item by item |
| `TarRoundTrip.WriteArchive` | src/tarexport.rs:1155-1323 | succeeds exactly when each header can be encoded and each body has the announced size |
| `TarRoundTrip.ReadArchive` | src/tarextract.rs:540-786 | the items of a stream in order, or a failure |
| `TarRoundTrip.Transfer` | src/tarexport.rs:1004-1374 | writing and reading: same names, links, types, modes, ids, sizes, times, devices, carried records and bodies |
| `Pack.EncodeRecord` | src/amberpack.rs:305-329 | the record, or the refusal of a bad compression or an oversized payload |
| `Pack.RecordParses` | src/amberpack.rs:334-378 | a well-formed record parses to its header, whatever follows |
| `Pack.RecordLayout` | src/amberpack.rs:305-329 | type, key, flags, lengths, checksum and payload stand at their offsets, and the checksum is that of the record with zeros in its place |
| `Pack.AcceptedIsRecord` | src/amberpack.rs:334-378 | whatever is accepted is a record: it is well-formed, equal to the encoding of its parts, and its checksum is right |
| `Pack.DamageCollides` | src/amberpack.rs:334-378 | a different record with the checksum of the original is accepted only if the checksum collides on the two |
| `Pack.EntryReads` | src/amberpack.rs:535-599 | a written record yields its object and leaves what follows |
| `Pack.CutRecord` | src/amberpack.rs:555-577 | a record cut short anywhere is malformed |
| `Pack.RoundTrip` | src/amberpack.rs:305-417 | reading what was written yields the same objects and a clean end, under any mix of codecs |
| `Pack.Truncated` | src/amberpack.rs:535-622 | every proper prefix yields exactly the objects whose records lie wholly before the cut, and no clean end |
| `Pack.WholeBeforeExact` | src/amberpack.rs:535-622 | those records are the most that fit before the cut |
| `PackStream.Writer.Add` | src/amberpack.rs:460-465 | magic once, then the record, unless it is refused |
| `PackStream.Writer.Finish` | src/amberpack.rs:482-487 | the end marker, after the magic even if nothing was added |
| `PackStream.Reader.NextRecord` | src/amberpack.rs:551-599 | a record read in pieces from short reads is the record at the front of the stream |
| `PackStream.Reader.Step` | src/amberpack.rs:604-622 | each step yields the next object, the one error, or nothing, and after an error or the end nothing ever again |
| `PackStream.Drain` | src/amberpack.rs:604-622 | the iterator run to its end: the objects of the stream and at most one error |
| `PackStream.Deliver` | src/amberpack.rs:450-622 | writing and reading back: all objects and no error, or after a cut those whose records are whole and exactly one error |
| `Cbor.HeadReads` | src/cbor.rs:175-210 | every head in shortest form reads back |
| `Cbor.AppendHead` | src/cbor.rs:125-142 | the shortest form is appended |
| `DeterministicCbor.MapExactly` | src/cbor.rs:125-210 | a byte string is the deterministic encoding of a small map (shortest heads, keys in increasing byte order, nothing behind) if and only if it is the bytes written for it |
| `ReferenceSkip.SkipItem` | src/reference.rs:439-495 | nested items, tag chains, depth cap and simple-value rule of the first pass |
| `ReferenceSkip.SkipShallower` | src/reference.rs:439-495 | an item accepted at some depth is accepted, with the same extent, at any smaller depth |
| `ReferenceSkip.Untag` | src/reference.rs:462-484 | taking a tag off an accepted item leaves an item of the same extent |
| `ReferenceFields.StripAndCheckTags` | src/reference.rs:516-539 | self-described tags stripped, the content of built-in tags checked |
| `ReferenceFields.BignumMagnitude` | src/reference.rs:558-571 | the number that the bytes spell, if it has at most 64 bits, whatever the leading zeros |
| `ReferenceFields.FillBytes` | src/reference.rs:632-641 | an array fills a byte string element by element |
| `ReferenceFields.StripAgrees` | src/reference.rs:516-539 | on an accepted item, stripping keeps its extent and fails only over tag content |
| `ReferenceFields.TextAgrees` | src/reference.rs:577-603 | on an accepted item the text reader ends where the first pass ended, or fails for another reason than shape |
| `ReferenceFields.BytesAgree` | src/reference.rs:605-644 | the same for byte strings, bignums and arrays |
| `ReferenceFields.ByteElemAgrees` | src/reference.rs:650-695 | the same for array elements |
| `ReferenceFields.Int64Agrees` | src/reference.rs:697-747 | the same for integers |
| `ReferenceRecord.UnmarshalBytes` | src/reference.rs:765-875 | the two passes: unknown keys skipped, the first of a repeated key kept |
| `ReferenceRecord.TwoPassAgreement` | src/reference.rs:765-875 | after a successful first pass the second never reports a malformed document, and reads to the very end |
| `ReferenceRecord.EncodeUnchecked` | src/reference.rs:353-380 | the canonical map, empty fields left out |
| `ReferenceRecord.UnmarshalEncoding` | src/reference.rs:353-403 | the encoding of a valid record unmarshals to the record |
| `ReferenceRecord.Decode` | src/reference.rs:394-403 | unmarshal, validate, compare with the re-encoding |
| `ReferenceRecord.DecodesExactly` | src/reference.rs:384-403 | a byte string decodes to a record if and only if the record is valid and the string is its encoding |
| `ReferenceCanonical.EncodingIsDeterministic` | src/reference.rs:353-380 | the encoding of a valid record is the one and only deterministic encoding of the map of its fields, numbered as the format says |
| `ReferenceCanonical.DecodesDeterministic` | src/reference.rs:384-403 | a byte string decodes to a record if and only if the record is valid and the string is a deterministic encoding of the map of its fields |
| `ReferenceRecord.EncodingInjective` | src/reference.rs:353-380 | different valid records have different encodings |
| `Glob.ScanChunk` | src/amberignore.rs:357-377 | leading stars, the chunk up to the next star outside brackets and escapes, the rest |
| `Glob.ParseChunk` | src/amberignore.rs:357-377 | the pieces of a pattern are those of its first chunk and of the rest, and it is well-formed exactly if both are |
| `Glob.MatchRanges` | src/amberignore.rs:403-421 | the class loop decides membership in the ranges up to the closing bracket, or finds them malformed |
| `Glob.MatchChunk` | src/amberignore.rs:383-452 | the rest of the name after the pieces of a chunk, or no match; a malformed chunk is reported whatever the name |
| `Glob.EndsInOrder` | src/amberignore.rs:383-452 | on tame names two matches of the same pieces end in the order in which they start, with no separator between the ends |
| `Glob.LeftmostSuffices` | src/amberignore.rs:315-353 | on tame names, if the rest matches after some match of a chunk it matches after the leftmost |
| `Glob.Commit` | src/amberignore.rs:323-349 | committing to the first acceptable offset loses no match |
| `Glob.FMatch` | src/amberignore.rs:315-353 | malformed reports are right, reported matches are matches for all names, and on tame names the answer is the declarative meaning |
| `Glob.GreedySound` | src/amberignore.rs:315-353 | whatever the name, what the matcher reports as a match is one, and what it calls malformed is |
| `Glob.GreedyComplete` | src/amberignore.rs:315-353 | on tame names the matcher finds every match |
| `Glob.GreedyExact` | src/amberignore.rs:315-353 | for every name: the matcher agrees with the declarative meaning on all well-formed patterns if and only if the name is narrow and its separators stand in front |
| `Glob.DefeatingMissed` | src/amberignore.rs:323-349 | for a wide character anywhere in a name, a pattern on which the matcher answers no |
| `Glob.DefeatingMeans` | src/amberignore.rs:315-353 | that pattern matches the name declaratively |
| `Glob.SlashDefeatingMissed` | src/amberignore.rs:323-349 | the same for a separator behind another byte: the matcher answers no |
| `Glob.SlashDefeatingHolds` | src/amberignore.rs:315-353 | although the pattern matches |
| `Glob.MalformedPattern` | src/amberignore.rs:315-353 | a malformed pattern never matches, and a malformed first chunk is always reported |
| `GlobText.TextParses` | src/amberignore.rs:357-474 | every list of pieces, classes with any list of ranges between characters included, has a pattern text that parses to it |
| `GlobText.TextMatches` | src/amberignore.rs:315-353 | on tame names the matcher given that text decides the meaning of the pieces |
| `GlobText.ClassMatches` | src/amberignore.rs:383-474 | `[lo-hi]`, with bounds that need no escape, matches exactly the names of one character between the bounds, and `[^lo-hi]` those of one character that is not |
| `GlobText.AsciiClass` | src/amberignore.rs:383-474 | the same for names of one ASCII byte |
| `Utf8.RuneReads` | src/amberignore.rs:482-530 | every encoded character decodes to itself, whatever follows |
| `Utf8.RuneIs` | src/amberignore.rs:482-530 | what decodes without an error is the encoding of that character |
| `Glob.MalformedUnseen` | src/amberignore.rs:328-351 | a name that fails before the malformed chunk gets the answer no |
| `Glob.WideCharacter` | src/amberignore.rs:315-353 | pattern and name in valid UTF-8 on which the matcher answers no and the pattern matches |
| `Inbox.CountedStep` | src/inbox.rs:690-827 | every step keeps each root's count equal to its queued plus in-flight entries |
| `Inbox.TicketedStep` | src/inbox.rs:690-827 | every step keeps each commit queued, held by a worker, or finished |
| `Inbox.BarrierMeansFinished` | src/inbox.rs:715-720 | a zero count means that all entries of the root are finished |
| `Inbox.SoundStep` | src/inbox.rs:831-874 | every step but a crash removes an entry only after its body was stored or by moving it to `failed/`; accepted bodies stay durable through every step, a crash that undoes unsynced removals included |
| `Inbox.NoOrphansStep` | src/inbox.rs:690-874 | every step of an open inbox leaves each entry queued, in the hands of a worker, about to be queued by its client, or left by a failed call |
| `Inbox.CrashReturns` | src/inbox.rs:866-874 | a crash brings back only entries whose bodies are stored or were in `failed/` |
| `Inbox.RunInv` | src/inbox.rs:690-874 | all of this in every state of every run |
| `Inbox.WaitMeansFinished` | src/inbox.rs:715-720 | a wait after a commit that returned true returns only once a worker finished that entry, whose body is kept |
| `Inbox.CloseDrains` | src/inbox.rs:722-735 | in every run, when all workers have left after the inbox was closed, every entry queued before that is finished |
| `Inbox.AcceptedSurvives` | src/inbox.rs:757-874 | across crashes and recovery an accepted body is in the store, durably in the inbox, or in `failed/` |
| `Inbox.AcceptedAttended` | src/inbox.rs:690-874 | while the inbox is open, an accepted body that is still in the inbox is in somebody's care or was left by a failed call |
| `Inbox.EntryLeavesOnly` | src/inbox.rs:831-874 | in every run an entry leaves the inbox only stored or to `failed/`; a crash takes only what was never synced |
| `Inbox.EntryComesOnly` | src/inbox.rs:690-711 | in every run an entry comes in only by a commit's rename or by a crash that undoes a removal |
| `Inbox.Recover` | src/inbox.rs:757-792 | the directory walk queues every readable entry once with its root and body, and nothing else, and moves the others |
| `Inbox.RecoveredAccounted` | src/inbox.rs:757-792 | the same of the walk as a function, with entries whose open, header read or rename fails |
| `Inbox.OpenedAccounted` | src/inbox.rs:614-657 | after the inbox was opened every entry of its directory is queued, in `failed/`, or left because it could not be moved |
| `Inbox.Shared.Push` | src/inbox.rs:703-710 | the critical section of a commit is the enqueue step |
| `Inbox.Shared.Release` | src/inbox.rs:817-825 | the critical section of a worker's round is the release step |
| `Calendar.YearFound` | examples/amber-store.rs:1097-1102 | the division formula finds the year of the era for every day |
| `Calendar.MonthFound` | examples/amber-store.rs:1103-1106 | the month formula finds the month for every day of the year |
| `Calendar.DaysRoundTrip` | examples/amber-store.rs:1097-1108 | every day gives a valid date, which gives the day back |
| `Calendar.DateRoundTrip` | examples/amber-store.rs:1429-1437 | every valid date gives a day, which gives the date back |
| `Calendar.DaysFollow` | examples/amber-store.rs:1097-1108 | day zero is the first of January 1970, and each day has the date that follows the date of the day before |
| `Calendar.NextDay` | examples/amber-store.rs:1429-1437 | the next date is one day later |
| `Timestamps.ParseRfc3339` | examples/amber-store.rs:1442-1527 | fields, ranges, fraction loop, zone and overflow checks of the parser |
| `Timestamps.TimestampRoundTrip` | examples/amber-store.rs:1407-1425 | a formatted timestamp parses to its floored second and zone exactly if that second is representable, else fails |
| `Timestamps.ParsesBack` | examples/amber-store.rs:1407-1527 | for every timestamp and every zone: it parses back if and only if the zone is less than a day and the time is not in the earliest second |
| `Timestamps.EarliestSecond` | examples/amber-store.rs:1407-1425 | the floored second fits into 64-bit nanoseconds exactly from there on |
| `Timestamps.LeastFails` | examples/amber-store.rs:1519-1527 | the least timestamp parses back in no zone |
| `Timestamps.FractionReads` | examples/amber-store.rs:1442-1527 | a fraction of any number of digits adds its first nine, read as nanoseconds, unless the sum leaves the range |
| `Timestamps.FormatShows` | examples/amber-store.rs:1407-1425 | the text spells the civil date and the clock of the shifted second and ends in the zone |

## Left out

- The floating-point geometry of the filter (`go_log`, `go_round`, `calculate_segment_length`): its two results are parameters.
- BLAKE3, SHA-1, CRC-32C, zstd and lz4 themselves: arbitrary functions, with decompression inverting compression where stated.
- BinaryFuse.Build: at most 2^32 - 2 keys, and a raw capacity that stays 0xC0000 below 2^32; the code's arithmetic overflows beyond that.
- BinaryFuse.Attempt: of the slots only the contents are specified, not their order; with repeated hashes or padding, whether the duplicate test misses a repeat depends on it.
- DirectoryBuilder.DirectoryReads: needs injective node encoders, which stand for encoders in other files.
- TarRoundTrip.Transfer: headers that ask for other formats than pax, have no modification time, or are global are written by the model but not claimed to read back.
- TarFormats.ComputeAllowed: the reasons in error messages are not modelled.
- TarForeign.ForeignReads: streams with extended headers are not listed; those that the writer produces are covered by the round trip.
- TarReading.TarReader.Next: failures of the underlying stream itself are not modelled.
- Inbox.AcceptedSurvives: a successful write to the store, which is not part of this model, counts as durable, and a rename between directories as one change.
- PackStream.Reader.Step: the iterator over undecoded records is not modelled.
- The barrier after a commit that returned false, or for work committed after closing: the code gives no guarantee there.
- File metadata, links, devices and symlink checks of tar extraction, and the walk that feeds tar export: operating-system effects.
- The `**` matching of whole paths on top of the segment matcher: it does not backtrack, so it has no such meaning to prove.
- The inbox's own lax header decoder: it overlaps the reference decoder.
- Commit objects, node decoding, key construction and git objects: they rest on runtimes elsewhere or are small codecs.
- Garbage collection, pack store, reference store, ingest, the command line and the benchmark.
