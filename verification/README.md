# Models of the evidence pipeline

The system records what instrumented browser code does and later proves, byte for byte, where a value
in an outgoing request came from. Producers inside the engine append records to a byte ring; a drainer
writes them to files; a collector tails those files, stores payloads and indexes them; a bytecode pass
turns instruction records into a value book and a semantic stream; and a filter searches request bodies
for the recorded values and links them to scripts through task ids. These modules model that path and
the small data structures under it, and prove what each promises.

| file | models |
|---|---|
| `Bytes.dfy`, `Sums.dfy`, `Wire.dfy` | bytes and little-endian integers, sums over maps, the 24-byte record format |
| `SinkRing.dfy` | the lock-protected byte ring, its producers, and the drainer with its short writes |
| `Framing.dfy`, `Collector.dfy` | the resynchronising record parser, counters, rolling part files, the index and its reader |
| `Pipeline.dfy` | ring, drainer and polling collector together |
| `Blocks.dfy`, `Values.dfy`, `Glue.dfy` | payload blocks and function blobs; what the engine writes into them and how it reads back; splitting large records and gluing their parts |
| `Bytecode.dfy`, `Semantic.dfy` | the static walk with live and dead blocks, the deferred-record stream |
| `Matcher.dfy` | the Aho-Corasick automaton |
| `ValueBook.dfy`, `FirstPass.dfy` | the value store, its loader, and the path from instruction records to hits |
| `Causality.dfy` | union-find, ambiguous 16-bit ids, the cached chain linking |
| `TaintTable.dfy` | the open-addressed taint table with epoch invalidation |
| `WasmShadow.dfy`, `WasmNames.dfy` | shadow marker regions with staged bulk operations; import and export names |
| `Interner.dfy` | the concurrent string interner as a step system |
| `JsonScan.dfy`, `CivilDate.dfy` | the JSON span scanner; calendar arithmetic |

Code that works by changing things in place is a class, an array or a loop here too; each such method is
proved against a function or a declarative specification, and the theorems are about those. Hash
functions are arbitrary parameters, so every theorem holds for any of them. Run
`dafny verify dfyconfig.toml` to check everything.

Places where the code and what one would expect of it differ, each with the exact condition and an input:

- The drainer writes outside the lock and the kernel may take part of a record, so the file can end inside
  one while the collector reads it. The collector logs exactly the complete records, none corrupt, if and
  only if no poll meets an incomplete record that contains a complete plausible one (`Pipeline.Deliver`,
  `Pipeline.FileParsesIff`). `Pipeline.ShortWriteCorrupts` gives an input; writes taken whole are always
  clean (`Pipeline.WholeWritesClean`).
- The same for any cuts of any stream: chunked reading equals whole reading if and only if every cut is
  clean (`Framing.ChunkIndependence`); `Framing.EmbeddedRecordBreaks` gives an input.
- The value book compares a new value only with the latest one under its hash. A value is searched for if
  and only if some put of it is wanted and is written, that is, no earlier put under its hash or the latest
  one with other bytes (`ValueBook.WantedPutDecides`, for any hash). Without collisions the first put decides
  (`ValueBook.FirstPutDecides`), so a literal shared by two functions can be lost (`ValueBook.LiteralLost`);
  a collision in between brings it back (`ValueBook.CollisionRevives`).
- Records too large for one part are meant to be put together again byte for byte. Parts are emissions of their
  own, so any of them can be dropped and those of others can come between. An instruction comes out as it was
  sent if and only if it was not split and the last record of its opcode and function, whoever sent it, did not
  announce more (`Glue.SentWholeIff`). Split and unbroken it loses its last part's payload
  (`Glue.InstructionGlued`, `Glue.TailLost`; `Glue.SplitValues` says which values are left); an unsplit one
  behind a waiting part is replaced by that part (`Glue.StalePartTakesOver`). Metadata and function definitions
  come out whole when their parts are the last records of their key and nothing waited before
  (`Glue.BlobGlued`), an unsplit one if and only if nothing waits (`Glue.BlobItselfIff`, for parts that
  carry bytes, as all sent ones do); two senders can mix (`Glue.BlobsMix`).
- A string over 65535 bytes is never interned: in every run, every such call gets id 0 or the id of another
  string (`Interner.LongTurnedAway`; `Interner.OverlongShareId` is an input where two share one). No shorter one
  is turned away if those called for fit together (`Interner.AffordPlay`, `Interner.Session`); without that,
  two threads can pass the capacity test and claim past the end of the slab (`Interner.RaceOvershoots`).
- A store into the taint table is dropped only when a probe window's worth of keys is live
  (`TaintTable.FewKeysAccepted`).
- The instruction walk never ends if and only if it comes past an unprefixed opcode of size zero
  (`Bytecode.RunsIff`).
- The collector's first time is the smallest one if and only if no record carries time zero or the last
  one does, because zero also means "none yet" (`Collector.FirstTsIff`, `Collector.FirstTsForgets`).
- A JSON literal's span takes the blanks behind it along; every other span is exact
  (`JsonScan.SpanText`, `JsonScan.BlankJoinsLiteral`).
- A span of exactly the cap is flagged as truncated although it is whole (`SinkRing.SpanAtCap`).
- The day conversion overflows on exactly the last 719468 days of 64 bits (`CivilDate.ComputesIff`); no
  time stamp reaches them (`CivilDate.StampComputes`).
- The drainer's branch for an impossible length is unreachable (`SinkRing.Ring.Remove`).

## Model

| member | source | states |
|---|---|---|
| `Matcher.ChildOfSpec` | src/matcher.rs:37-45 | the binary search over a node's edges finds a child exactly when the node's word extended by that byte is in the trie, and it is that node |
| `Matcher.AhoCorasick.Insert` | src/matcher.rs:75-109 | the trie stays well formed, the pattern gets the next id, an empty one never enters the trie; holds also after an earlier build |
| `Matcher.ExtendSuffix` | src/matcher.rs:160-170 | the longest trie suffix after one more byte depends on the text only through the longest suffix before it |
| `Matcher.FallBack` | src/matcher.rs:161-169 | a failed probe may continue at the longest proper suffix without changing the result |
| `Matcher.LongestSuffixMax` | src/matcher.rs:113-151 | the reference state really is the longest suffix: every suffix in the trie is a suffix of it |
| `Matcher.KnownByDepth` | src/matcher.rs:121-125 | breadth-first order: every node no deeper than the queue's head already has its links |
| `Matcher.AhoCorasick.FailWalk` | src/matcher.rs:125-140 | while a node's child list is taken out, the walk probes a fail chain that never meets that node and only nodes whose lists are in place, and ends at the node of the child's longest proper suffix |
| `Matcher.AhoCorasick.LinkChild` | src/matcher.rs:126-149 | one child's fail and output links become correct and nothing else changes |
| `Matcher.OutLinkIsNearest` | src/matcher.rs:141-146 | after building, an output link names the nearest pattern-ending node on the fail chain |
| `Matcher.AhoCorasick.Build` | src/matcher.rs:113-151 | from any trie, fresh or built before, all links are established and the trie, outputs and depths are as they were |
| `Matcher.AhoCorasick.Advance` | src/matcher.rs:160-170 | one byte moves to the longest suffix in the trie; fail steps are paid for by depth |
| `Matcher.AhoCorasick.ReportChain` | src/matcher.rs:171-184 | the output chain reports every pattern ending here, in order, and each hop reports something |
| `Matcher.ReportsExact` | src/matcher.rs:155-186 | the naive search counts each occurrence of each non-empty pattern exactly once and nothing else, duplicates and overlaps included |
| `Matcher.AhoCorasick.Find` | src/matcher.rs:155-186 | the scan equals the naive search, call by call; each (id, offset) is reported once if and only if that pattern occurs there; fail steps total at most the text length and output hops at most the reports |
| `ValueBook.Book.EntryEq` | src/bctrace.rs:301-328 | the byte comparison against the file answers whether the stored value equals the new one, flushing when needed |
| `ValueBook.BookAdd` | src/bctrace.rs:343-362 | writing an entry keeps the book complete: every value put is stored, every entry stored was put so |
| `ValueBook.Book.Put` | src/bctrace.rs:333-363 | for any hash: a value of at least 4 bytes is written exactly if the latest value put under its hash is another one or there is none |
| `ValueBook.FreshIff` | src/bctrace.rs:333-363 | a put is passed over if and only if some earlier put carries its bytes and no put in between falls under its hash |
| `ValueBook.WrittenIff` | src/bctrace.rs:333-363 | the book holds exactly the entries of the puts that were not passed over |
| `ValueBook.DecodeEncode` | src/bctrace.rs:351-358 | an entry's header and bytes read back as the entry |
| `ValueBook.EncodeHeadFields` | src/bctrace.rs:351-358 | each field of an entry is at its place in the header |
| `ValueBook.LoadEncoded` | src/sinkfilter.rs:551-596 | reading a written book yields exactly the wanted entries, in order |
| `ValueBook.Load` | src/sinkfilter.rs:543-604 | on any file bytes and any ascending list of functions the automaton is built over exactly the loaded values and origins line up with pattern ids |
| `ValueBook.HasFunc` | src/sinkfilter.rs:574 | the binary search answers whether the function ran |
| `ValueBook.RunValueLoaded` | src/bctrace.rs:1188-1213 | a value put by an executed instruction is among the patterns whatever collides with it |
| `ValueBook.OriginTrue` | src/sinkfilter.rs:589-594 | a pattern's origin is one under which exactly its bytes were put |
| `ValueBook.WantedPutDecides` | src/sinkfilter.rs:574-576 | for any hash: a value is a pattern if and only if some wanted put of it has no earlier put under its hash, or the latest such put carries other bytes |
| `ValueBook.HitIffOccurs` | src/sinkfilter.rs:1198-1204 | a loaded value lies in a body at an offset if and only if a hit there is reported for it |
| `ValueBook.Trace` | src/sinkfilter.rs:1195-1204 | write, read back and search end to end: run values are found exactly where they occur, every hit has a true origin, and the patterns are exactly the values with a written and wanted put |
| `ValueBook.FirstPutDecides` | src/bctrace.rs:273-278 | without hash collisions a value is a pattern if and only if its first put is wanted |
| `ValueBook.LiteralLost` | src/bctrace.rs:1246-1259 | under any hash, two puts where a literal of an executed function is not searched for |
| `ValueBook.CollisionRevives` | src/bctrace.rs:353-363 | under any hash with a collision, three puts where a value is a pattern although its first put is not wanted |
| `FirstPass.RunPutsCarried` | src/bctrace.rs:1188-1213 | the puts of the first pass are exactly the strings of at least four bytes in the text blocks of the instructions, each without its register word, accumulator strings only under the flag, and each at the function and offset of its instruction |
| `FirstPass.PutsCarried` | src/bctrace.rs:1188-1213 | the same for one instruction |
| `FirstPass.EncodedCarried` | patches/0033-v8-ignition-bytecode-trace.patch:189-216 | every string the engine wrote among the values of a record is carried by it, byte for byte |
| `FirstPass.DefinitionFound` | patches/0033-v8-ignition-bytecode-trace.patch:272-315 | a definition the engine wrote is the one found in its blob |
| `FirstPass.CollectPuts` | src/bctrace.rs:1107-1215 | over any records, split or not, the loop computes those puts for the instructions they stand for, the functions these belong to, and the metadata and function definitions they stand for |
| `FirstPass.DefsIff` | src/bctrace.rs:1143-1148 | a function's definition is the one in its last well-formed blob |
| `FirstPass.CollectDefs` | src/bctrace.rs:1129-1150 | the loop over the blobs keeps exactly those definitions |
| `FirstPass.OneOrder` | src/bctrace.rs:1247-1248 | the sorted list of function ids is the only ascending one |
| `FirstPass.LiteralsIff` | src/bctrace.rs:1246-1260 | the literal puts are exactly the strings of at least four bytes in the constant pools of the current definitions |
| `FirstPass.CollectLiterals` | src/bctrace.rs:1246-1260 | the loops put them in ascending order of function id |
| `FirstPass.Provenance` | src/bctrace.rs:1107-1279 | the whole way from records to hits: a value of 4 bytes to 1 MiB that stands in a text block of an instruction in the stream lies in a body at an offset if and only if a hit there is reported for it; a value is searched for if and only if some put of it, instruction or literal, is written and wanted; every hit is explained by an instruction in the stream that carried exactly those bytes, or by the current definition of a function in the stream that holds them |
| `Glue.HighestLast` | src/bctrace.rs:1138-1143 | parts join in ascending order of position, whatever order they came in: one behind all others comes last |
| `Glue.Join` | src/bctrace.rs:1169-1172 | the joining loop |
| `Glue.Gluer.Feed` | src/bctrace.rs:1157-1176 | one instruction record: a part waits under its opcode and function; a record without followers comes out, replaced by the parts that wait for it if there are any |
| `Glue.Gluer.FeedBlob` | src/bctrace.rs:1129-1143 | one metadata or function-definition record: the last part joins the others |
| `Glue.GluedKey` | src/bctrace.rs:1161-1176 | what comes out has the opcode and function of the record that completed it |
| `Glue.PendingMine` | src/bctrace.rs:1105-1176 | records of other opcodes and functions may come between the parts of one |
| `Glue.UnsplitStream` | src/bctrace.rs:1157-1176 | without split records the instructions, the records of any other opcode, are the records as they are |
| `Glue.UnsplitBlobs` | src/bctrace.rs:1129-1143 | without split records metadata and function definitions, the opcodes 0xfe and 0xff, are the records as they are |
| `Glue.PendingIff` | src/bctrace.rs:1160-1170 | parts of an opcode and function wait if and only if the last record under them announced more |
| `Glue.ItselfIff` | src/bctrace.rs:1157-1176 | over any records, an instruction without followers stands for itself if and only if nothing of its opcode and function waits |
| `Glue.SentWholeIff` | patches/0033-v8-ignition-bytecode-trace.patch:352-381 | over any records, a sent instruction comes out as it was sent if and only if it fits one part and nothing of its opcode and function waits |
| `Glue.BlobItselfIff` | src/bctrace.rs:1129-1143 | over any records whose parts carry bytes, a blob without followers stands for itself if and only if nothing of its key waits |
| `Glue.StalePartTakesOver` | src/bctrace.rs:1168-1173 | a part left waiting, and the unsplit instruction after it comes out with that part's words under its own process and time |
| `Glue.BlobsMix` | src/bctrace.rs:1129-1143 | three parts of two senders of one definition, and what comes out is neither's |
| `Glue.InstructionGlued` | patches/0033-v8-ignition-bytecode-trace.patch:352-381 | when the parts of an instruction are the last records of their key and the record before them announced nothing, exactly the last part's payload is missing if it was split, and nothing if not |
| `Glue.BlobGlued` | patches/0033-v8-ignition-bytecode-trace.patch:352-381 | when the parts of a blob of at most 4 GiB are the last records of their key and the record before them announced nothing, it comes back whole, split or not |
| `Glue.TailLost` | src/bctrace.rs:1157-1176 | a payload just over one part, and the stream is its first part |
| `Glue.CutShort` | src/bctrace.rs:371-380 | a rendered payload cut short leaves exactly the blocks wholly in front of the cut |
| `Glue.SplitValues` | src/bctrace.rs:371-402 | when the parts of an instruction are the last records of their key and the record before them announced nothing, the values read are those of all blocks if it fits one part, else of the blocks wholly inside the parts before the last, which are never all |
| `Blocks.CutRendered` | src/bctrace.rs:371-380 | cutting a record into blocks inverts rendering them, whatever incomplete bytes follow |
| `Blocks.ValuesInside` | src/bctrace.rs:381-400 | on arbitrary bytes every string value's range lies inside the record |
| `Blocks.ParseBlocks` | src/bctrace.rs:371-402 | the loop yields the typed values `Values.ValuesReadBack` is about; wrong lengths are invisible |
| `Values.ValuesReadBack` | patches/0033-v8-ignition-bytecode-trace.patch:150-250 | a record into which the engine wrote any list of values, accumulators and registers of every kind, operands and clock readings, gives back exactly those values in order: strings as the bytes at the range read, negative numbers as negative, whatever incomplete bytes follow |
| `Blocks.PvsRoundTrip` | src/bctrace.rs:371-402 | a record carrying given blocks yields exactly their typed values at their places |
| `Blocks.ParseFuncDef` | src/bctrace.rs:480-531 | succeeds if and only if the announced sections fit, and then every field is where the head puts it |
| `Blocks.UndefinedIff` | src/bctrace.rs:480-531 | a blob defines nothing if and only if the sections its head announces do not fit |
| `Blocks.DescribedOnce` | src/bctrace.rs:480-531 | it defines a function if and only if they fit and every field is where the head puts it |
| `Blocks.FuncDefRoundTrip` | src/bctrace.rs:480-531 | an encoded function definition, constant pool included, parses back to itself |
| `Values.PoolReadsBack` | patches/0033-v8-ignition-bytecode-trace.patch:282-290 | a constant pool reads back entry by entry: strings of both widths, floats and raw words |
| `Values.DefinitionReadsBack` | patches/0033-v8-ignition-bytecode-trace.patch:272-315 | a definition whose pool the engine wrote entry by entry parses back whole |
| `Bytecode.DecodeFunc` | src/bctrace.rs:553-588 | on every input on which the loop ends it is the walk, failing exactly when the walk meets an unknown opcode or a dangling prefix |
| `Bytecode.TurnIs` | src/bctrace.rs:556-586 | one turn by the names of the opcodes: Wide and DebugBreakWide take the double size of the opcode behind them, ExtraWide and DebugBreakExtraWide the quadruple one, any other its own |
| `Bytecode.WalkFails` | src/bctrace.rs:556-586 | the walk fails if and only if it comes past an unknown opcode or a prefix without a known opcode behind it |
| `Bytecode.RunsIff` | src/bctrace.rs:556-586 | the loop ends if and only if the walk comes past no unprefixed opcode of size zero |
| `Bytecode.AdvancesIff` | src/bctrace.rs:580-585 | the loop gets ahead at every position of every bytecode if and only if no opcode that stands unprefixed has size zero |
| `Bytecode.WalkAssembled` | src/bctrace.rs:553-588 | decoding inverts assembling: any instruction list, scaling prefixes included, comes back with its offsets |
| `Bytecode.WalkIncreasing` | src/bctrace.rs:553-588 | a decoded function's offsets never go back and stay inside the bytecode, and strictly increase when no size is zero |
| `Bytecode.BlockStarts` | src/bctrace.rs:592-606 | sorted, and a start is the first instruction or one behind a jump or return, nothing else |
| `Bytecode.LeavesIff` | src/bctrace.rs:598-603 | an instruction ends a block if and only if its opcode is known and flagged as a jump or a return |
| `Bytecode.LeavesLast` | src/bctrace.rs:592-606 | only the last instruction of a block can jump or return, short of an instruction of size zero |
| `Bytecode.Executed` | src/bctrace.rs:1181-1186 | the sorted insertion holds exactly the executed offsets, each with the opcode first recorded there |
| `Bytecode.BlockHit` | src/bctrace.rs:1341-1353 | the binary searches answer whether any instruction of the block was executed |
| `Bytecode.Classify` | src/bctrace.rs:1330-1364 | blocks split into live and dead, dead ranges are exactly the blocks nothing in which ran, and live plus dead bytes are the bytes behind the first instruction |
| `Bytecode.Report` | src/bctrace.rs:1284-1364 | the same for a whole function from its bytecode and its records |
| `Bytecode.NothingExecutedIsDead` | src/bctrace.rs:1341-1363 | no executed instruction lies in a dead range, and each lies in a block that counts as live |
| `Semantic.AccIsFirst` | src/bctrace.rs:533-544 | a record's accumulator is what its first accumulator block holds, a string's bytes, a float's bits or a signed 32-bit number, if and only if there is one and the flag announces it |
| `Semantic.TwoPassAt` | src/bctrace.rs:1440-1498 | the two-pass lines by position: a known record's line carries its immediate successor's accumulator if and only if there is one, the opcode's accumulator use has the write bit, and its name is none of the ten call and construct names, written out |
| `Semantic.PartitionTakes` | src/bctrace.rs:1393-1442 | the partition of a process and an isolate takes exactly the instruction records of that process whose header names that isolate |
| `Semantic.SettledGrows` | src/bctrace.rs:1443-1476 | a new record settles its predecessor with its own accumulator and disturbs no earlier line |
| `Semantic.Sem.Accumulator` | src/bctrace.rs:533-544 | the loop finds that accumulator |
| `Semantic.Sem.Take` | src/bctrace.rs:1443-1487 | one record: the deferred one of its partition is emitted with this record's accumulator and replaced |
| `Semantic.Sem.Tail` | src/bctrace.rs:1491-1498 | the tail completes every partition, in whatever order it goes |
| `Semantic.Sem.Pass` | src/bctrace.rs:1393-1498 | over any records, split or not, every (process, isolate) partition gets exactly the two-pass lines of the instructions the records stand for: known opcodes once, in order, each paired with its immediate successor's accumulator if and only if it writes the accumulator and is no JS call, the last unpaired |
| `Causality.UnionFind.Find` | src/sinkfilter.rs:280-299 | terminates, returns the representative, and path compression leaves the partition as it was |
| `Causality.Compress` | src/sinkfilter.rs:289-297 | pointing a node straight at its root keeps the forest |
| `Causality.UnionFind.Union` | src/sinkfilter.rs:300-306 | exactly the two classes merge |
| `Causality.SameRepIff` | src/sinkfilter.rs:280-306 | two ids share a representative if and only if the edges connect them |
| `Causality.BuildGraph` | src/sinkfilter.rs:683-712 | the edges in the union-find are exactly the pairs some line ties, parsed or from task and parent, and the low-16 index lists exactly the full ids lines name |
| `Causality.EdgeIff` | src/sinkfilter.rs:686-702 | two ids form an edge if and only if some record has a line with that pair parsed from it, or a line without one whose task and parent are those two and not zero |
| `Causality.LinkedIff` | src/sinkfilter.rs:280-306 | two ids are connected if and only if a chain of such lines leads from one to the other |
| `Causality.ExpandsIff` | src/sinkfilter.rs:686-702 | a full id is mentioned under a 16-bit one if and only if these are its low bits and some line names it: as an end of its pair, or as its task id if it makes no pair and is not zero |
| `Causality.UntrustedIff` | src/sinkfilter.rs:859-878 | a 16-bit id is ambiguous if and only if two full ids so mentioned under it are not so connected |
| `Causality.BelongsIff` | src/sinkfilter.rs:1047-1056 | a record belongs to a chain if and only if its script id is not zero and the first candidate under it of its process is that chain |
| `Causality.FindAmbiguous` | src/sinkfilter.rs:859-878 | a 16-bit id is blacklisted if and only if two full ids sharing it are not connected |
| `Causality.IndexChains` | src/sinkfilter.rs:1058-1085 | both indexes hold exactly the chains whose records carry the id, or an unambiguous id with that root |
| `Causality.RelatedChains` | src/sinkfilter.rs:1167-1180 | sorted, without duplicates, and exactly the chains related to the id directly or through a component |
| `Causality.ConcernsIff` | src/sinkfilter.rs:1167-1180 | a task id concerns a chain if and only if a record of the chain carries it, or carries a trusted one of whose full ids one is linked to a full id of it, all in terms of the lines |
| `Causality.Link` | src/sinkfilter.rs:1165-1194 | a chain is proven if and only if some scanned sink record with a non-zero, trusted task id concerns it, stated over the notes of the records themselves; the hit count is the number of those records; every cached list is exactly the chains its id concerns |
| `Causality.HitsAreProvers` | src/sinkfilter.rs:1165-1194 | the count is the size of the set of proving records |
| `Causality.CountRoots` | src/sinkfilter.rs:842-849 | the number of roots is the number of components among the inserted ids |
| `TaintTable.CompositeKeyInjective` | patches/0027-v8-taint-core-factory.patch:102-104 | composite keys agree exactly for the same space and the same low 61 address bits |
| `TaintTable.PosInjective` | patches/0027-v8-taint-core-factory.patch:127-149 | a probe window never visits a slot twice |
| `TaintTable.HeapUnionUnique` | patches/0027-v8-taint-core-factory.patch:242-258 | there is only one tag set that is the union over the live non-wasm entries |
| `TaintTable.UnionBits` | patches/0027-v8-taint-core-factory.patch:242-258 | a mask meets the union if and only if it meets the tags of some live non-wasm entry |
| `TaintTable.EmptyEndsProbe` | patches/0027-v8-taint-core-factory.patch:126-152 | no empty slot precedes a key on its probe path |
| `TaintTable.EpochBump` | patches/0027-v8-taint-core-factory.patch:221-228 | bumping the epoch leaves exactly the wasm entries alive |
| `TaintTable.Table.FindSlot` | patches/0027-v8-taint-core-factory.patch:126-152 | a lookup finds a key's slot if and only if the key is live |
| `TaintTable.Table.FindInsertSlot` | patches/0027-v8-taint-core-factory.patch:126-152 | an insert probe fails if and only if the key is absent and its whole window holds other live keys |
| `TaintTable.Table.AcquireSlot` | patches/0027-v8-taint-core-factory.patch:154-179 | a reclaimed slot starts clean, a live one keeps its tags, other keys keep theirs |
| `TaintTable.Table.Set` | patches/0027-v8-taint-core-factory.patch:185-199 | adds to the key's tag set; dropped and counted exactly when the key is new and the window is full |
| `TaintTable.Table.Propagate` | patches/0027-v8-taint-core-factory.patch:207-213 | the destination gains whatever the source carries; dropped exactly when there is something to carry, the destination is new and its window is full |
| `TaintTable.Table.Clear` | patches/0027-v8-taint-core-factory.patch:215-219 | only that key's set is emptied |
| `TaintTable.Table.OnGCEpilogue` | patches/0027-v8-taint-core-factory.patch:221-228 | a compacting collection erases all non-wasm entries without touching a slot |
| `TaintTable.Table.LiveHeapTagUnion` | patches/0027-v8-taint-core-factory.patch:242-258 | the union over the live non-wasm entries, no more and no less |
| `TaintTable.Table.Replay` | patches/0027-v8-taint-core-factory.patch:102-258 | any sequential run ends in the reference map's state, every read returns the map's answer, and a store was dropped only under a new key with at least a window's worth of keys live at that point |
| `TaintTable.FullMeansMany` | patches/0027-v8-taint-core-factory.patch:126-152 | a full window means at least 16384 other keys are live, since no slot is probed twice |
| `TaintTable.FewKeysAccepted` | patches/0027-v8-taint-core-factory.patch:126-199 | a run over fewer distinct keys than a window has slots drops nothing |
| `TaintTable.RunByPlace` | patches/0027-v8-taint-core-factory.patch:102-213 | for addresses below 2^61 the run is that of a map over (space, address), reads included |
| `TaintTable.UnionByPlace` | patches/0027-v8-taint-core-factory.patch:242-258 | the union over live non-wasm entries is the union over that map |
| `TaintTable.TaintedIff` | patches/0027-v8-taint-core-factory.patch:102-228 | the map over (space, address) holds a tag of a mask at a place if and only if the history says so: some accepted store put one there, or an accepted propagation brought one from a place that had it then, and no clear of the place and no compacting collection outside the wasm space came between |
| `TaintTable.ReadsAreHistory` | patches/0027-v8-taint-core-factory.patch:102-228 | every read meets a mask if and only if the history says so |
| `TaintTable.Session` | patches/0027-v8-taint-core-factory.patch:102-228 | on a fresh table every read returns what a map over (space, address) holds and what the history of stores, propagations, clears and collections says, tag by tag, and a run that stores under fewer than 16384 keys drops nothing |
| `Wire.DecodeFrame` | patches/0001-v8-sink.patch:301-308 | a framed record reads back as the record |
| `Wire.NameOf` | src/sinkfilter.rs:135-143 | a payload splits at its first NUL and nowhere else |
| `SinkRing.LaidFrame` | patches/0001-v8-sink.patch:293-311 | writing at the head disturbs no queued record, not even one across the end of the ring |
| `SinkRing.Ring.EmptyIff` | patches/0001-v8-sink.patch:204 | head meets tail only when the ring is empty |
| `SinkRing.Ring.Append` | patches/0001-v8-sink.patch:287-312 | accepted if and only if the record and eight bytes fit, then queued last, else nothing changes; no write leaves the storage |
| `SinkRing.Ring.Remove` | patches/0001-v8-sink.patch:198-218 | takes the oldest record byte for byte; the reset branch is unreachable |
| `SinkRing.Sink.EmitFlags` | patches/0001-v8-sink.patch:277-313 | one emission: nothing without data; if its record and eight bytes fit, a record joins the queue whose bytes, each field at its place, are the kind and time of the emission, its data or the first 1 MiB - 24 bytes, the truncation bit set if and only if the data was cut or the caller set it, the other flags as given, and script and task id as given unless the kind is 39 or 40; else one more is counted as dropped |
| `SinkRing.RecordBears` | patches/0001-v8-sink.patch:144-166 | the record of any emission past the guards has those fields and that size |
| `SinkRing.StepEmits` | patches/0001-v8-sink.patch:277-313 | the step of the bounded FIFO is that emission |
| `SinkRing.Sink.DrainTurn` | patches/0001-v8-sink.patch:130-142 | one turn of the write loop, of which the kernel takes any part, or the critical section that takes the next record |
| `SinkRing.Conservation` | patches/0001-v8-sink.patch:130-313 | in every interleaving, short writes included, file, bytes in hand and queue together are the accepted records in lock order, and accepted plus dropped are the attempts past the guards |
| `SinkRing.AcceptedBear` | patches/0001-v8-sink.patch:277-313 | in every interleaving the accepted records are those of the accepted emissions, one for one and field by field |
| `SinkRing.Sink.Run` | patches/0001-v8-sink.patch:130-313 | any interleaving over the real storage, short writes included, behaves as that FIFO, of which `SinkRing.Conservation` and `SinkRing.AcceptedBear` speak |
| `SinkRing.TwoStr` | patches/0001-v8-sink.patch:324-346 | two strings joined by a NUL split back into prefixes of themselves, whole unless flagged |
| `SinkRing.Span` | patches/0001-v8-sink.patch:348-367 | tag and bytes split back; flagged from the cap on |
| `SinkRing.SpanAtCap` | patches/0001-v8-sink.patch:354-357 | a span of exactly the cap is whole and flagged all the same |
| `Framing.ScanConserves` | src/collect.rs:537-659 | every byte parsed is in a header, a payload, the corrupt count or the residue, which is shorter than a record |
| `Framing.ResidueStable` | src/collect.rs:552-568 | what waits yields nothing on its own |
| `Framing.ScanValid` | src/collect.rs:543-551 | only records of a defined kind, flags and size come out |
| `Framing.ScanWhole` | src/collect.rs:537-659 | framed records parse back exactly, none corrupt, nothing left |
| `Framing.ScanResyncs` | src/collect.rs:543-571 | whatever lies in front of framed records: if no complete well-formed record starts inside it, each of its bytes is counted as corrupt and all records behind it come out |
| `Framing.ChunkIndependence` | src/collect.rs:516-659 | cut anywhere, the stream gives the same records if and only if no cut leaves a plausible record inside a partial one |
| `Framing.ShortCutClean` | src/collect.rs:526-536 | cuts inside a header never do |
| `Framing.EmbeddedRecordBreaks` | src/collect.rs:552-566 | a stream and a cut where chunked reading declares bytes corrupt |
| `Collector.TailsPush` | src/collect.rs:515-659 | conservation over all files: bytes read are 24 a record plus payloads plus corrupt plus residues |
| `Collector.IdleScan` | src/collect.rs:515-660 | without new bytes a scan changes nothing |
| `Collector.Collect.Push` | src/collect.rs:346-376 | the payload starts at the returned offset of the returned part; no part exceeds the roll size plus one payload |
| `Collector.Collect.Store` | src/collect.rs:615-641 | earlier index entries stay and earlier payloads stay where they say; the new payload is indexed behind them under what its record says |
| `Collector.Collect.IndexLines` | src/collect.rs:595-645 | one index line an accepted record, in order, with its time, kind, flags, script and task id and payload size, and the layer and process of its file; the payload is in a part file if and only if it is not empty and of one of the eight batched kinds |
| `Collector.Collect.Count` | src/collect.rs:578-594 | records, per-kind counts, bytes, truncated, hellos and time bounds are those of the records accepted |
| `Collector.FlaggedAre` | src/collect.rs:578-594 | the truncated count is the number of accepted records with flag bit 0 |
| `Collector.KeyedAre` | src/collect.rs:578-594 | a count per layer and kind is the number of accepted records of that layer and kind |
| `Collector.LastTsMax` | src/collect.rs:592-594 | the last time is the largest among the accepted records |
| `Collector.FirstTsIff` | src/collect.rs:589-591 | the first time is the smallest among the accepted records if and only if none carries zero or the last one does |
| `Collector.FirstTsForgets` | src/collect.rs:589-591 | two records for which it is not |
| `Collector.Collect.ParseLoop` | src/collect.rs:537-656 | terminates and accepts exactly the parsed records, leaving exactly the residue |
| `Collector.Collect.ScanFile` | src/collect.rs:515-660 | one file of one scan: exactly its parsed records are logged, its corrupt bytes counted, its residue kept, and earlier index entries stay |
| `Collector.Collect.ScanOnce` | src/collect.rs:446-665 | any scan of any files logs exactly their parsed records in order, counts their corrupt bytes and keeps their residues; every record logged has its index line; every payload indexed before still reads back; rescanning with no new bytes changes nothing |
| `Collector.Collect.Watch` | src/collect.rs:446-665 | over any number of scans no index entry is lost or changed and each still reads back as the payload it was written for |
| `Collector.ReadBack` | src/sinkfilter.rs:121-129 | any index entry reads back as the payload of its record |
| `Pipeline.RecordFramable` | patches/0001-v8-sink.patch:277-313 | what the ring accepts the parser accepts |
| `Pipeline.FileIsCut` | patches/0001-v8-sink.patch:130-236 | at every moment of every interleaving the file is the accepted records up to some point and a proper prefix of the next, and all of them once drained |
| `Pipeline.FileParsesIff` | src/collect.rs:508-535 | read whole at any moment, the file parses to exactly its complete records, none corrupt, if and only if its incomplete last record contains no complete plausible one |
| `Pipeline.WholeWritesClean` | patches/0001-v8-sink.patch:130-142 | when every write is taken whole the file is whole records at every moment and every poll is clean |
| `Pipeline.ShortWriteCorrupts` | patches/0001-v8-sink.patch:130-142 | an accepted record and a short write after which a poll declares bytes corrupt |
| `Pipeline.PollExact` | src/collect.rs:508-535 | one poll of a growing file yields exactly the records completed since the last if its cut is clean, and corrupt bytes if not |
| `Pipeline.Deliver` | src/collect.rs:446-665 | producers, drainer with short writes and polling collector together: nothing is corrupt if and only if every poll's cut is clean, and then exactly the complete records of the file are logged, in lock order: the hello record and behind it, field by field, what the accepted emissions gave |
| `WasmShadow.FullIff` | patches/0028-v8-wasm-shadow-memory.patch:144-173 | the table is full exactly at 64 live memories |
| `WasmShadow.Shadow.FindEntry` | patches/0028-v8-wasm-shadow-memory.patch:132-142 | the probe past tombstones finds a slot if and only if the memory is live |
| `WasmShadow.Shadow.PickSlot` | patches/0028-v8-wasm-shadow-memory.patch:144-173 | a slot for a new memory exists if and only if fewer than 64 are live |
| `WasmShadow.Shadow.Open` | patches/0028-v8-wasm-shadow-memory.patch:283-297 | a reused region starts unmarked |
| `WasmShadow.Shadow.ShadowAlloc` | patches/0028-v8-wasm-shadow-memory.patch:274-298 | the reference allocation; true exactly when the memory is tracked afterwards |
| `WasmShadow.Shadow.ShadowGrow` | patches/0028-v8-wasm-shadow-memory.patch:300-307 | grown bytes start unmarked |
| `WasmShadow.Memmove` | patches/0028-v8-wasm-shadow-memory.patch:522 | overlapping or not, the destination gets the source bytes as they were |
| `WasmShadow.StoreSet` | patches/0028-v8-wasm-shadow-memory.patch:175-190 | writing into one slot's region changes no other slot |
| `WasmShadow.Shadow.CopyRange` | patches/0028-v8-wasm-shadow-memory.patch:518-523 | the source's markers overlay the destination's and nothing else changes |
| `WasmShadow.Shadow.FreeSlot` | patches/0028-v8-wasm-shadow-memory.patch:360-367 | the memory is forgotten, its markers are cleared and the slot stays on every probe path |
| `WasmShadow.Shadow.Migrate` | patches/0028-v8-wasm-shadow-memory.patch:341-367 | the old markers overlay the new base up to the cap and the old base is forgotten and cleared; says how many bytes moved and whether the cap cut them |
| `WasmShadow.Shadow.ShadowReKey` | patches/0028-v8-wasm-shadow-memory.patch:309-367 | the reference re-keying and its fact, same address and full table included |
| `WasmShadow.Shadow.Resolve` | patches/0028-v8-wasm-shadow-memory.patch:203-214 | the tracked part of a range, or nothing |
| `WasmShadow.Shadow.Write` | patches/0028-v8-wasm-shadow-memory.patch:402-413 | exactly the tracked part becomes written, and the fact says whether any of it was before |
| `WasmShadow.Shadow.OnLoad` | patches/0028-v8-wasm-shadow-memory.patch:382-400 | changes nothing; a fact is reported if and only if written bytes were read |
| `WasmShadow.Shadow.Commit` | patches/0028-v8-wasm-shadow-memory.patch:471-531 | applies what the thread staged, once, as `WasmShadow.StepIs` says byte by byte; the fact reports the tracked part and, for copies, whether anything in the whole source range was written |
| `WasmShadow.StepIs` | patches/0028-v8-wasm-shadow-memory.patch:203-531 | what every operation does to every byte of every memory: after a committed copy byte dOff + i holds what byte sOff + i held, as far as both ranges are tracked, within one memory and with overlap as between two, and all else is as it was; a store, fill or init marks exactly the tracked part; allocating and growing add unmarked bytes; re-keying lays the old markers over the new base; loads and staging change nothing |
| `WasmShadow.FactIs` | patches/0028-v8-wasm-shadow-memory.patch:382-531 | the fact of every operation: offsets, the tracked length, and whether any byte of the range was marked, by quantifier |
| `WasmShadow.RunIs` | patches/0028-v8-wasm-shadow-memory.patch:132-531 | every run is a sequence of such steps |
| `WasmShadow.CopiedIsLoaded` | patches/0028-v8-wasm-shadow-memory.patch:518-523 | a written byte that a committed copy brings along is reported by the next load of the destination, in one memory as in two |
| `WasmShadow.UncommittedIsInert` | patches/0028-v8-wasm-shadow-memory.patch:415-469 | staging without commit never changes a marker |
| `WasmShadow.Shadow.Replay` | patches/0028-v8-wasm-shadow-memory.patch:132-531 | any run over any threads gives exactly the reference model's markers and exactly its facts, in order; every step of it does to every byte of every memory, and tells, what `WasmShadow.StepIs` and `WasmShadow.FactIs` say |
| `WasmNames.WasmReader.Leb` | src/sinkfilter.rs:334-348 | the shifted 64-bit accumulation computes the encoded value, the tenth byte's lost bits included |
| `WasmNames.LebReads` | src/sinkfilter.rs:334-348 | every valid encoding, padded or not, reads as its value |
| `WasmNames.WasmReader.ReadImport` | src/sinkfilter.rs:398-424 | one import entry on arbitrary bytes, staying in bounds |
| `WasmNames.EntriesRead` | src/sinkfilter.rs:391-442 | encoded entries of all four import kinds, or exports, read back as their names |
| `WasmNames.ImportsExports` | src/sinkfilter.rs:370-446 | on arbitrary bytes the loops terminate in bounds and compute the reference reading |
| `WasmNames.ModuleNames` | src/sinkfilter.rs:370-446 | any encoded module yields exactly its import field names and export names in order, the first 4096 of each section |
| `Interner.StepKeeps` | src/arena.rs:99-141 | every atomic step of every thread that touches only memory that is there, overshooting claims included, keeps the invariant and withdraws nothing published |
| `Interner.CopyingElsewhere` | src/arena.rs:122-125 | copying into a claimed range disturbs no other thread's range and no recorded entry |
| `Interner.IdsIdentifyStrings` | src/arena.rs:99-141 | for calls not turned away: equal ids for equal strings, different ids for different ones, and the id resolves to the string |
| `Interner.EntriesDisjoint` | src/arena.rs:122-140 | slab ranges are disjoint, a losing thread's orphan entry included |
| `Interner.Play` | src/arena.rs:99-152 | over every interleaving, up to accesses outside the memory, what was published or returned earlier stands unchanged |
| `Interner.Arena.Step` | src/arena.rs:99-141 | the step over the real slab, entry table and index is the step of the model |
| `Interner.Arena.Run` | src/arena.rs:99-152 | any number of threads, any interleaving: ids of calls not turned away identify strings and resolve to them for good, every over-long call is turned away, and no other one is if those called for fit together |
| `Interner.AffordPlay` | src/arena.rs:104-120 | if the strings of at most 65535 bytes and their number fit what is left, in every interleaving none of them is turned away and every step touches only memory that is there |
| `Interner.StepProgress` | src/arena.rs:99-141 | a busy thread's step concerns no other thread; it brings its call nearer to the return, or the call returns with exactly one result under its own string |
| `Interner.CallReturns` | src/arena.rs:99-141 | whatever others do in between, a call that gets eight steps has returned, if the short strings of the schedule fit |
| `Interner.KnownAtOnce` | src/arena.rs:103-110 | a string published before is found by the first step under its own id, and nothing is claimed for it |
| `Interner.LongTurnedAway` | src/arena.rs:99-120 | in every run every call with an over-long string that returns got id 0 or the id of a published string other than its own |
| `Interner.OverlongShareId` | src/arena.rs:104-120 | two different over-long strings that get the same id |
| `Interner.RaceOvershoots` | src/arena.rs:104-125 | with the slab almost full two threads pass the capacity test, and the second one's claim reaches past the end of the slab |
| `Interner.Session` | src/arena.rs:99-152 | on a fresh interner whose short strings fit together, in any interleaving a call is turned away if and only if its string is over-long, and the other ids identify their strings and resolve to them |
| `JsonScan.ChsPass` | src/writer.rs:70-84 | no escape hides a closing quote or invents one |
| `JsonScan.ValuePasses` | src/writer.rs:91-124 | a whole value leaves the depth as it was although only one kind of bracket is counted |
| `JsonScan.ScanBrackets` | src/writer.rs:91-124 | the bracket loop, positions past the end included |
| `JsonScan.ScanVal` | src/writer.rs:67-135 | one value's tag and end on arbitrary bytes |
| `JsonScan.ValueExact` | src/writer.rs:67-135 | a rendered value is scanned to its end with its tag; a literal also takes the blanks behind it |
| `JsonScan.ScanArr` | src/writer.rs:137-170 | the loop is the reference element scan |
| `JsonScan.ArrayExact` | src/writer.rs:137-170 | every RFC 8259 array, any nesting, blanks anywhere, any bytes behind: exactly its elements' spans |
| `JsonScan.SpanText` | src/writer.rs:137-170 | each span cuts out its element's own text if and only if it is no literal with blanks behind it |
| `JsonScan.BlankJoinsLiteral` | src/writer.rs:137-170 | the array `[true ]`, whose one span takes the blank along |
| `JsonScan.ArrayElement` | src/writer.rs:137-170 | one token an element, in order, tagged 0 for a string, 1 for a number, 2 for an array, 3 for an object and 4 for a literal, cutting out its text |
| `JsonScan.ArrayNoTrailing` | src/writer.rs:155-162 | any RFC 8259 array with a comma behind its last element, blanks or none behind that, is refused |
| `JsonScan.ElementsInOrder` | src/writer.rs:137-170 | on arbitrary bytes tokens are non-empty, in bounds and in order |
| `CivilDate.YearSplit` | src/timefmt.rs:26-31 | the year-of-era formula gives a year of 365 or, before a leap February, 366 days |
| `CivilDate.CivilIsTheDay` | src/timefmt.rs:25-36 | the result is a valid proleptic Gregorian date whose day count is the input |
| `CivilDate.ComputesIff` | src/timefmt.rs:25-36 | no intermediate value leaves 64 bits if and only if the day is at most 2^63 - 1 - 719468 |
| `CivilDate.CivilInvertsCount` | src/timefmt.rs:25-36 | every valid date is reached, by its own day count |
| `CivilDate.CivilMonotone` | src/timefmt.rs:25-36 | later days are later dates and the other way round |
| `CivilDate.CivilStepsThroughTheCalendar` | src/timefmt.rs:25-36 | day 0 is 1 January 1970 and each next day is the calendar's next day |
| `CivilDate.StampRecomposes` | src/timefmt.rs:10-23 | the fields are in range and recompose to the input's whole seconds |
| `CivilDate.StampComputes` | src/timefmt.rs:10-23 | no 64-bit time overflows |

## Left out

- Matcher.AhoCorasick.Insert: asks for fewer than 2^32 - 1 trie nodes, because node numbers are 32-bit and the last value means "no link".
- ValueBook.Trace: asks that the written book stay under 4 GiB, because of the same 32-bit node numbers.
- FirstPass.Provenance: asks that no glued record reach 4 GiB, because positions in a record are 32-bit, and that the book stay under 4 GiB; how many opcodes are known at each record is an input, and the pass giving up when no metadata came is left out.
- ValueBook.Load: asks for an ascending list of executed functions, as `FirstPass.Provenance` computes it; on an unsorted one the binary search's answer is unspecified.
- Semantic.Sem.Pass: the JSON text of a line and the files per function are a sequence of lines here.
- Bytecode.DecodeFunc: says nothing of the inputs on which the loop does not end, which `Bytecode.RunsIff` characterises.
- Bytecode.LeavesLast: asks that the two instructions have different offsets, because a size of zero behind a prefix repeats one.
- Bytecode.BlockStarts: jump targets start no block in the code, so these are not full basic blocks.
- TaintTable.Table.Replay: each operation is one atomic step; the compare-and-swap interleaving inside an insert, which can lose a tag while a slot is reclaimed, is left out.
- SinkRing.Sink.Run: fork re-initialisation, flushing at exit, write errors with reopening, a write that takes no byte, and the environment switches are left out; script and task ids are inputs of an emission.
- Collector.Collect.ScanOnce: file operations succeed and files only grow by appending; the JSON text of index lines, the preview text and the payload hash are left out.
- Interner.StepKeeps: asks that the step access no memory outside slab and entry table, because the code's behaviour is undefined when it does; `Interner.RaceOvershoots` shows a run that gets there.
- Interner.Play: a thread at such a step stands still; `Interner.AffordPlay` says when there is none.
- Interner.Arena.Run: byte copies are one step and memory is sequentially consistent; resolving an id nobody handed out yields nothing.
- WasmShadow.Shadow.Replay: mapping a region succeeds (the 64 regions are fixed parts of one array, zero until first mapped), base addresses differ from the tombstone value, operations are atomic; the emitted text and its cap are left out.
- Causality.Link: edges and tags parsed from text are fields of the records; only the causality part of the filter is modelled, not worker names, verdict strings or value attribution.
- CivilDate.CivilIsTheDay: integers are unbounded; `CivilDate.ComputesIff` says where 64 bits do not suffice.
- WasmNames.ModuleNames: names are bytes, lossy UTF-8 decoding is left out.
- Counters do not wrap around.
- Metadata records (opcode names and sizes), operand rendering and API statistics of the bytecode pass.
- Browser automation, host classification, archiving, process plumbing and report formatting.
- The probe sites of the remaining patches, which lie in engine code that is not part of this model.
