# MNN: fusion, the lazy engine, inflate and PNG, and the pool, modelled and proved in Dafny

The project models five parts of the repository and proves what they are for.

- **Operator fusion** (`PostDominance`, `FuseSets`, `Commands`, `KernelSpec`, `FusionPlan`, `FuseGraph`,
  `FuseSearch`, `SourceModule`, `OpFuse`): the pass builds a graph of commands, sweeps it in reverse for
  post-dominators, grows fuse sets over the tree, compiles each set to a straight-line kernel and erases all
  members but the root. The main theorem: running what is left gives every tensor, except the outputs of
  erased commands, the value it had.
- **The lazy expression engine** (`Exprs`, `ExprInfo`, `ExprDirty`, `InformDirty`, `ComputeCache`,
  `DepthFirst`, `MakeCache`, `Engine`, `EngineGrows`, `StaleRead`, `ExecuteOrder`, `SaveLoad`, `Reload`,
  `Replace`): expressions and caches are heap objects with dirty flags and consumer links. The main theorem: over
  any run of creating, writing, resizing and reading, what a read gives is what evaluating from scratch gives, as
  long as no write is hindered and no operator needs the content of an input to know its shape. A write is
  hindered where the walk that tells the caches comes to an expression over an input that is not read; the
  project gives the exact condition, proves that otherwise some order of links leaves a cache clean that holds an
  old value, and gives a run on which a read then goes wrong. Saving and loading give back an isomorphic graph;
  replacing an expression keeps links, acyclicity and staleness.
- **Inflate** (`Bits`, `BitReversal`, `CanonicalCode`, `ZHuffman`, `Succession`, `ZBuf`, `Deflate`, `OutBuf`,
  `EndlessBlocks`, `Inflate`, `DynamicCodes`, `DeflateStream`, `InflateStream`, `InflateResults`,
  `DeflateEncode`, `DynamicEncode`, `DeflateBytes`, `DeflateExact`, `EndlessInput`, `UnsetBytes`): table-driven
  Huffman decoding is proved against canonical codes, and the decoder against the token expansion of section 3.2.3
  of RFC 1951. An encoder for stored, fixed and dynamic blocks, with any codes, code for sizes and runs, says what a stream is: an
  input holds a stream exactly if the encoder writes it there. The decoder need not return, and its output need
  not be determined; for both the project gives the exact condition and an input.
- **PNG reconstruction** (`PngFilter`, `PngImage`, `Adam7`, `Interlaced`, `InterlaceEncode`): what is decoded is
  the one image each of whose bytes is a sample minus its filter's prediction (section 6 of RFC 2083), with and
  without an alpha channel laid between the samples; of an interlaced image, each pixel is read from the place that
  the 8 by 8 pattern of passes gives it (section 2.6).
- **The rapidjson pool** (`Pool`): as long as no 64-bit sum wraps, every answer is determined, blocks never
  overlap, and resizing keeps their bytes; a block lies in memory exactly if none wraps.

Code that works by changing things in place is a class or a method with loops, proved against a
specification on values; the theorems are lemmas about the specification or invariants of the methods. Many
heap predicates have the form `forall key {:trigger Unlock(key)} :: Unlock(key) ==> ...`, which only hides
their definition from proofs that do not need it (`Wrappers`).

`dafny verify dfyconfig.toml` checks everything.

## Model

| member | source | states |
|---|---|---|
| PostDominance.ChainPostDominates | codegen/OpFuse.cpp:374-391 | Every node on a node's parent chain lies on every path from it to a sink, whatever ties `topoIndex` has. |
| PostDominance.ChainIsPostDominators | codegen/OpFuse.cpp:374-391 | Without ties, the parent chain is the set of all post-dominators, both ways. |
| PostDominance.ParentIsImmediate | codegen/OpFuse.cpp:162-174 | The parent is the immediate post-dominator: strict, and post-dominated by every other strict one; there is none exactly when there is no strict post-dominator. |
| FuseGraph.LCA | codegen/OpFuse.cpp:162-174 | The climb ends at a node whose chain is within the meet of the two chains, and equal to it when indices are strictly increasing. |
| FuseGraph.BuildDominatorTree | codegen/OpFuse.cpp:372-391 | The sweep sets every parent to a meeting point of the consumers' chains, lists each node under its parent, and queues those without one. |
| FuseSearch.AllPathLegal | codegen/OpFuse.cpp:175-192 | The queue loop, which has no visited set, ends, and says whether every node reached from s without passing t is legal. |
| FuseSets.LegalFromIsAllPathsLegal | codegen/OpFuse.cpp:175-192 | Following edges one at a time decides the property stated over all paths. |
| FuseSets.QueueWorkDrops | codegen/OpFuse.cpp:179-190 | Taking a node out and putting its consumers in lowers the number of paths still to be followed, which is why the loop ends. |
| FuseSearch.FuseNode | codegen/OpFuse.cpp:194-227 | A root's search collects exactly the nodes that it owns and turns away exactly the children that start sets of their own. |
| FuseSearch.FindFuseSets | codegen/OpFuse.cpp:392-414 | The search over the tree lists exactly one set for each root that has members. |
| FuseSets.RootPostDominatesMembers | codegen/OpFuse.cpp:194-227 | The root of a fuse set post-dominates every member. |
| FuseSets.FuseSetsAreClosed | codegen/OpFuse.cpp:194-227 | Every consumer of a member other than the root is a member, also when the order has ties. |
| KernelSpec.BuildParameters | codegen/SourceModule.cpp:108-134 | A kernel's parameters are exactly the tensors that the set reads, that none of its commands writes, and that are not immediate constants. |
| KernelSpec.ParametersDiffer | codegen/SourceModule.cpp:108-134 | No tensor is a parameter twice. |
| KernelSpec.FusedResult | codegen/SourceModule.cpp:91-162 | In any memory that satisfies the commands' equations the kernel computes the value that the commands give their output, with scalars spread over all elements. |
| SourceModule.SortByTopo | codegen/SourceModule.cpp:93 | Sorting the nodes by index restores list order, when no two of them share an index. |
| SourceModule.BuildKernel | codegen/SourceModule.cpp:91-162 | The loop over sorted nodes, with its variable scope, builds the fused command of the specification, whose single output is the one that nothing in the set reads. |
| FusionPlan.MemberSize | codegen/OpFuse.cpp:66-160 | Every member of a set is legal, and its output has one element or as many as the root's. |
| FusionPlan.ParametersSurvive | codegen/OpFuse.cpp:257-325 | Whatever a kernel loads is written outside its set, before the root, by a command that is not erased. |
| FusionPlan.OnlyRootUnread | codegen/SourceModule.cpp:51-60 | Within a set the root's output is the only one that nobody reads, so it is exactly what the kernel stores. |
| FusionPlan.RootsAreLeft | codegen/OpFuse.cpp:257-325 | Of each set one command is left, in its root's place and with its root's output: the root itself if it is alone, else a kernel. |
| FusionPlan.ErasedIsGone | codegen/OpFuse.cpp:309-325 | No command that is left writes an output of an erased one. |
| FusionPlan.ErasedExactly | codegen/OpFuse.cpp:194-227 | A command is erased exactly if some root other than itself is on its parent chain, both are legal, and so is everything on the paths between them. |
| FusionPlan.FusionPreservesMeaning | codegen/OpFuse.cpp:257-325 | From any memory that holds the inputs, running the rewritten list gives every tensor, except outputs of erased commands, the value that the original list gives. |
| OpFuse.BuildGraph | codegen/OpFuse.cpp:339-371 | There is one node per command, with its info's index, and edges run exactly from a writer to later readers. |
| OpFuse.OpFuse | codegen/OpFuse.cpp:339-428 | The whole pass on command objects leaves the rewritten list in the buffers and so preserves meaning; for an unsupported target nothing changes. Infos may hold several commands if at most one of each can be fused. |
| CanonicalCode.FitsIsKraft | 3rd_party/imageHelper/stb_image.h:3887-3915 | The size lists that table building accepts are those that satisfy the Kraft inequality, complete or not. |
| CanonicalCode.Tiling | 3rd_party/imageHelper/stb_image.h:3898-3915 | Codes of size s tile the 16-bit prefixes from maxcode of s - 1 to maxcode of s. |
| CanonicalCode.PrefixFree | 3rd_party/imageHelper/stb_image.h:3898-3915 | No code is a prefix of another. |
| CanonicalCode.EmitMatches | 3rd_party/imageHelper/stb_image.h:3979-4009 | A stream that starts with a symbol's code matches that symbol, and what is left after its size in bits is the rest. |
| CanonicalCode.MatchExists | 3rd_party/imageHelper/stb_image.h:3979-3995 | Some code matches a stream exactly if the stream's 16 reversed bits lie below the last limit. |
| BitReversal.SwapFieldsIsRev | 3rd_party/imageHelper/stb_image.h:3870-3877 | The four mask-and-shift swaps reverse the number that a 16-bit word stands for. |
| ZHuffman.BitReverse | 3rd_party/imageHelper/stb_image.h:3879-3885 | Reversing 16 bits by the swaps and shifting reverses the low bits. |
| ZHuffman.BuildHuffman | 3rd_party/imageHelper/stb_image.h:3887-3932 | Accepts exactly the size lists that satisfy the Kraft inequality, and fills all tables, the 512 fast entries included, for the canonical code of section 3.2.2 of RFC 1951. |
| ZBuf.BitBuf.Receive | 3rd_party/imageHelper/stb_image.h:3960-3977 | Gives the next n bits of the input, zeros past its end, and consumes exactly those. |
| ZBuf.BitBuf.HuffmanDecode | 3rd_party/imageHelper/stb_image.h:3997-4009 | The fast table and the slow path give the one symbol whose code the stream starts with and consume exactly its size; without such a code, nothing is consumed. |
| ZBuf.BitBuf.SlowPath | 3rd_party/imageHelper/stb_image.h:3979-3995 | The slow path does the same for every stream that no code of at most nine bits matches. |
| OutBuf.OutBuf.Expand | 3rd_party/imageHelper/stb_image.h:4011-4028 | Makes room without changing what was written; succeeds exactly if the buffer may grow and the doubled size can be had. |
| OutBuf.RoomExactly | 3rd_party/imageHelper/stb_image.h:4011-4028 | There is room for a size exactly if it fits, or the buffer may grow and the least doubling of its capacity that fits can be allocated. |
| OutBuf.OutBuf.CopyBack | 3rd_party/imageHelper/stb_image.h:4069-4081 | Both copy loops write what the copy token means, overlapping or not. |
| Deflate.LookupLength | 3rd_party/imageHelper/stb_image.h:4030-4036 | The length tables are the bases and extra bits of section 3.2.5 of RFC 1951. |
| Deflate.LookupDistance | 3rd_party/imageHelper/stb_image.h:4038-4042 | So are the distance tables. |
| Deflate.ExpandsIsExpansion | 3rd_party/imageHelper/stb_image.h:4044-4084 | For tokens that reach back no further than the start and copy nothing from distance 0, the bytes that the decoder may write are the reference expansion and nothing else. |
| Deflate.OneOutcome | 3rd_party/imageHelper/stb_image.h:4058-4081 | Tokens leave exactly one sequence of bytes if and only if none reaches back further than the start and none is a copy of length above 0 from distance 0. |
| Inflate.ParseHuffmanBlock | 3rd_party/imageHelper/stb_image.h:4044-4084 | Ends at the end of the block's tokens with their expansion appended, or says why not: a failure holds for every reading of the block, and it is without end exactly if the source's loop is. |
| DynamicCodes.ComputeHuffmanCodes | 3rd_party/imageHelper/stb_image.h:4086-4133 | Reads the header of a dynamic block and builds both tables, or fails exactly when there is no such header; what a header is, `HeaderRoundTrip` and `HeaderTaken` say. |
| InflateStream.ParseUncompressedBlock | 3rd_party/imageHelper/stb_image.h:4135-4162 | Appends the bytes of a stored block, whatever the bit buffer holds at its start. |
| InflateStream.ParseBlocks | 3rd_party/imageHelper/stb_image.h:4206-4232 | Stored, fixed and dynamic blocks are decoded one after the other up to the final one. |
| InflateStream.ParseZlibHeader | 3rd_party/imageHelper/stb_image.h:4164-4175 | Accepts exactly the headers of RFC 1950 with method 8 and no preset dictionary. |
| InflateStream.DoZlib | 3rd_party/imageHelper/stb_image.h:4234-4242 | Gives the expansion of the stream that the input holds; or no stream that the input holds would have given another answer; or, exactly in that case, the source never returns. |
| DeflateStream.StreamUnique | 3rd_party/imageHelper/stb_image.h:4206-4232 | An input holds at most one stream. |
| DeflateStream.FixedCode | 3rd_party/imageHelper/stb_image.h:4177-4204 | The code of each of the 288 symbols of the fixed code is that of the table in section 3.2.6 of RFC 1951. |
| DeflateStream.FixedDistanceCode | 3rd_party/imageHelper/stb_image.h:4177-4204 | Fixed distance codes are five bits wide and stand for themselves. |
| DeflateExact.HoldsExactly | 3rd_party/imageHelper/stb_image.h:4206-4242 | An input holds a stream if and only if the encoder, for some choice of codes, codes for sizes, runs, extra bits and filler, writes these blocks there. |
| DeflateExact.HeaderOkExactly | 3rd_party/imageHelper/stb_image.h:4164-4175 | The headers accepted are exactly those with some window size and level, method 8, no preset dictionary and check bits that make a multiple of 31. |
| InflateResults.OutputIsExpansion | 3rd_party/imageHelper/stb_image.h:4244-4283 | All successful decodings of an input agree, whatever buffer sizes they started from, if and only if its tokens reach back no further than the start and copy nothing from distance 0; they then agree with the reference expansion. |
| InflateResults.DecodeMalloc | 3rd_party/imageHelper/stb_image.h:4265-4283 | If the input holds a stream that reaches back no further than the start, the result is what its tokens mean if there is room for it, byte for byte where that is determined, and lack of memory if not; it never returns exactly if the input holds a trap. |
| InflateResults.RoomForHalf | 3rd_party/imageHelper/stb_image.h:4011-4028 | There is room for every output of at most half of what can be allocated. |
| InflateResults.StreamIsShort | 3rd_party/imageHelper/stb_image.h:4044-4084 | A stream has at most eight tokens per byte of input: past the end there are only zeros, and no block ends there. |
| EndlessBlocks.NeverEndsExactly | 3rd_party/imageHelper/stb_image.h:4044-4084 | A block's loop goes on for ever if and only if it gets past the input while the all-zero stream decodes to symbol 286 or 287 and to a distance no larger than what is written; a bound computed from the input's and the memory's size tells. |
| EndlessBlocks.StandingEnds | 3rd_party/imageHelper/stb_image.h:4044-4084 | A block that has an end is decoded in finitely many steps. |
| EndlessInput.NeverReturns | 3rd_party/imageHelper/stb_image.h:4044-4084 | There are bytes on which decoding never returns: a stored byte, then a dynamic header with the single length symbol 286 and the single distance symbol 0. |
| EndlessInput.AnyTrap | 3rd_party/imageHelper/stb_image.h:4044-4084 | So with any two codes by which zeros mean symbol 286 or 287 and then a distance of at most one. |
| DeflateEncode.BlockRoundTrip | 3rd_party/imageHelper/stb_image.h:4044-4084 | Any tokens written with any two codes are read back, up to exactly where they end. |
| DynamicEncode.HeaderRoundTrip | 3rd_party/imageHelper/stb_image.h:4086-4133 | Any two codes are read back from a dynamic header that lists them with any complete or incomplete code for sizes and any runs: symbol 16 repeats the size before it three to six times, 17 gives three to ten zeros, 18 eleven to 138. |
| DynamicEncode.FieldOfSymbol | 3rd_party/imageHelper/stb_image.h:4088 | Field i of the sizes of the code for sizes is about the symbol that section 3.2.7 of RFC 1951 names, by a formula. |
| DeflateExact.HeaderTaken | 3rd_party/imageHelper/stb_image.h:4086-4133 | Whatever header is read, the encoder writes it, with some code for sizes and some runs. |
| DeflateExact.BlockTaken | 3rd_party/imageHelper/stb_image.h:4044-4084 | Whatever tokens are read, the encoder writes them, with some choice of symbols and extra bits. |
| DeflateBytes.StoredRoundTrip | 3rd_party/imageHelper/stb_image.h:4135-4162 | A stored block, written from any bit position with anything to fill it up to the byte boundary, is read back up to exactly where it ends. |
| DeflateBytes.BytesHold | 3rd_party/imageHelper/stb_image.h:4206-4242 | Any sequence of stored, fixed and dynamic blocks, written as bytes, is a stream that the decoder finds there, whatever follows. |
| DeflateBytes.EveryTokenList | 3rd_party/imageHelper/stb_image.h:4044-4084 | For every list of literals and copies of the format there is an input that holds exactly it. |
| UnsetBytes.AnyOutput | 3rd_party/imageHelper/stb_image.h:4038-4042 | A fixed block with a byte and then distance symbol 30 or 31 may be decoded to that byte and any three others. |
| UnsetBytes.TwoOutputs | 3rd_party/imageHelper/stb_image.h:4058-4081 | So one input has two different outputs. |
| PngFilter.RowRoundTrip | 3rd_party/imageHelper/stb_image.h:4443-4506 | Unfiltering a filtered row gives the row back, for every filter and pixel size. |
| PngFilter.FirstRowFilter | 3rd_party/imageHelper/stb_image.h:4373-4380 | The filters put in for the first row read no row above and predict what the original does above a row of zeros. |
| PngFilter.ImageRoundTrip | 3rd_party/imageHelper/stb_image.h:4422-4518 | Any image, filtered with any filter per row, is given back, whatever bytes follow. |
| PngFilter.PredictsExactly | 3rd_party/imageHelper/stb_image.h:4382-4394 | A filter predicts what section 6 of RFC 2083 says: nothing, the left, the upper, half of both rounded down, or the nearest to a + b - c with ties to a and then b. |
| PngFilter.DecodedIsGiven | 3rd_party/imageHelper/stb_image.h:4422-4518 | What is decoded is the one image such that every byte is its sample minus that prediction, modulo 256, from the samples of the image itself. |
| PngFilter.DecodedExactly | 3rd_party/imageHelper/stb_image.h:4413-4431 | Something is decoded exactly if there are enough bytes and a known filter for each row. |
| PngImage.PlainRow | 3rd_party/imageHelper/stb_image.h:4439-4491 | The in-place loop turns the bytes of a row into the unfiltered row and touches nothing else. |
| PngImage.AlphaRow | 3rd_party/imageHelper/stb_image.h:4439-4518 | The same with an opaque alpha sample after each pixel. |
| PngImage.CreateImageRaw | 3rd_party/imageHelper/stb_image.h:4396-4518 | Succeeds exactly if there are enough bytes and a known filter for each row, and lays out in memory, with alpha if asked for, the rows whose bytes these are. |
| Adam7.InSomePass | 3rd_party/imageHelper/stb_image.h:4619-4646 | Every pixel is a place of the pass that its coordinates determine. |
| Adam7.Partition | 3rd_party/imageHelper/stb_image.h:4619-4646 | No pixel is a place of two passes or twice of one. |
| Adam7.PassOfPattern | 3rd_party/imageHelper/stb_image.h:4620-4623 | A pixel's pass is the one that the 8 by 8 pattern of section 2.6 of RFC 2083 gives for its column and line. |
| Adam7.PlaceCounts | 3rd_party/imageHelper/stb_image.h:4624-4641 | Its place in the pass is the number of columns before it, and of lines before it, that the pattern gives to the pass. |
| Interlaced.CreateImage | 3rd_party/imageHelper/stb_image.h:4608-4650 | Succeeds exactly if the bytes of every pass that has pixels are there; each pixel of the result is the one that the pass and place given by the pattern hold for it; without interlacing, the rows are laid out one after the other. |
| InterlaceEncode.InterlaceRoundTrip | 3rd_party/imageHelper/stb_image.h:4608-4650 | Splitting any image into passes and filtering them with any filters decodes, and every pixel is the original one. |
| ExprInfo.RequireInfo | express/Expr.cpp:308-364 | Asking for a shape keeps every expression sensible, and either it is known afterwards or the expression is marked as having none. |
| ExprInfo.NoStaleShapes | express/Expr.cpp:308-364 | A clean expression records the shape computed from scratch; an invalid one has none. |
| ExprDirty.SetInfoDirty | express/Expr.cpp:959-976 | Forgets a shape once, marks the session, and says whether there was anything to forget. |
| ExprDirty.VisitOutputs | express/Expr.cpp:936-958 | The walk along consumer links, with its early stop and its removal of expired links, leaves no clean expression below a dirty one. |
| ExprDirty.Resize | express/Expr.cpp:748-782 | Afterwards no shape is stale and all that depends on the leaf is dirty; without memory, shapes are sound if and only if every consumer was never asked or makes of the new shape what it records. |
| ExprDirty.StaleShape | express/Expr.cpp:748-782 | Without memory for the new shape, a consumer that has been asked keeps a shape that is no longer its own. |
| ExprDirty.Create | express/Expr.cpp:204-226 | A new expression is linked from each of its inputs, and nothing becomes stale. |
| InformDirty.InformDirty | express/Expr.cpp:845-873 | Marks the caches of some expressions whose content depends on the leaf, and no others; those of all of them if nothing hinders the walk; not that of the last in a chain on which it is hindered; and restores every flag. |
| InformDirty.HinderedExactly | express/Expr.cpp:845-873 | The walk can be hindered exactly if there is a chain of consumers over inputs that are read, up to a last one whose content depends on the leaf but which does not read the first of its inputs that is the one before. |
| InformDirty.LinkChain | express/Expr.cpp:936-958 | Some order of the consumer links makes the walk take any such chain. |
| ComputeCaches.Resize | express/Utils.cpp:267-312 | Prepares a session and those it needs for the current shapes; stops exactly if a leaf among theirs has no shape. |
| ComputeCaches.Compute | express/Utils.cpp:205-265 | On success the target holds its recursive value and soundness is kept; it does not succeed as long as a leaf below the target has no shape or has not been written, stops for nothing else, and fails only where computing from scratch does; each session runs at most once, after its inputs are up to date. |
| DepthFirst.PopDecreases | express/Utils.cpp:216-261 | The measure that makes the stack loops end: unvisited count, height of the topmost unvisited entry, visited entries above it. |
| MakeCaches.MakePipeline | express/Executor.cpp:450-566 | The depth-first loop ends on any acyclic graph and emits a pipeline in which every input is wired to the right leaf, session or earlier tensor; every target is in it, and nothing that no target needs. |
| MakeCaches.ReadsEarlier | express/Executor.cpp:450-566 | A stage reads only tensors of strictly earlier stages. |
| MakeCaches.TargetsComputed | express/Executor.cpp:450-566 | Running the pipeline in order leaves every target's outputs, evaluated from scratch, at its offset, also when it was emitted twice. |
| Engine.ValuesAreOutputs | express/Executor.cpp:450-566 | Evaluating session by session gives what evaluating the expressions gives. |
| Engine.Write | express/Expr.cpp:908-917 | Writing a leaf keeps the engine's invariant for the new content, if nothing hinders the walk below it; otherwise a cache at the end of a chain that the walk takes stays clean. |
| Engine.WriteHindered | express/Expr.cpp:845-873 | For every chain on which the walk is hindered, some order of the links leaves the cache at its end clean with the value from before the write; if the write has changed that value, the invariant is lost. |
| StaleReads.StaleRead | express/Expr.cpp:845-873 | Read, write, read: with an expression that reads one of two functions of an input and not the other, which was created first, the second read gives the value from before the write. |
| Engine.ResizeLeaf | express/Expr.cpp:748-782 | So does resizing one, when there is memory. |
| Engine.Read | express/Expr.cpp:797-843 | What a read gives is the expression evaluated from scratch; it gives nothing exactly if the expression has no shape or waits for an input that its content depends on and that has not been written. |
| EngineGrows.Create | express/Expr.cpp:204-226 | Creating an operator, whichever of its inputs it reads, keeps the invariant, for the larger world. |
| EngineGrows.CreateLeaf | express/Expr.cpp:157-203 | So does creating an input or a constant. |
| EngineGrows.CreationKeepsValues | express/Expr.cpp:204-226 | Every expression there was keeps its value. |
| ExecuteOrder.GetExecuteOrder | express/Expr.cpp:1335-1372 | Lists each expression reachable from the outputs exactly once, inputs first, in the order of a recursive visit, and takes all flags back. |
| ExecuteOrder.InputsInOrder | express/Expr.cpp:1335-1372 | An operator over different leaves comes after them, and they are in the order of its inputs. |
| SaveLoad.Save | express/Expr.cpp:1131-1224 | Each op records its payload, the indices of its outputs, and those of the tensors it reads. |
| SaveLoad.OutputsCountUp | express/Expr.cpp:1131-1224 | The outputs of all ops are numbered from zero on in the order of the ops, without a gap. |
| SaveLoad.Load | express/Expr.cpp:996-1061 | Makes one new expression per op, wired by the indices, with consumer links. |
| SaveLoad.OpenedElements | express/Expr.cpp:228-238 | A leading -1 becomes such that the number of elements is the product of the other dimensions; nothing else changes. |
| Reload.LoadedIsIsomorphic | express/Expr.cpp:996-1061 | What is loaded from a saved graph is isomorphic to it: same operators, same wiring by expression and output index. |
| Reload.SameOrder | express/Expr.cpp:1335-1372 | From corresponding outputs the loaded graph is listed in the same order. |
| Reload.SameNet | express/Expr.cpp:1131-1224 | Saved again it has the same indices, and is the same in all, if and only if no input had a leading -1 dimension. |
| Reload.ReloadAll | express/Expr.cpp:996-1061 | Saving all variables that loading returned gives the same order if and only if the last expression depends on all others in visiting order. |
| Reload.OneOrTwo | express/Expr.cpp:1335-1372 | Of two leaves the order turns round. |
| Replace.AcyclicAfter | express/Expr.cpp:503-569 | The graph stays acyclic if and only if the replacement does not depend on what it replaces. |
| Replace.SameDependents | express/Expr.cpp:503-569 | What depends on the replaced expression is the same before and after. |
| Replace.Replace | express/Expr.cpp:503-569 | Afterwards the graph is the replaced one, consumer links are complete, and exactly the transitive consumers are dirty, valid and without a cache; all else is as it was. |
| Pool.NewBlock | 3rd_party/rapidjson/allocators.h:198-200 | A block at the end of the head chunk lies in it and overlaps no other. |
| Pool.LastBlockGrows | 3rd_party/rapidjson/allocators.h:219-226 | Nor does the last block when it grows in place. |
| Pool.MemoryPool.Malloc | 3rd_party/rapidjson/allocators.h:189-201 | Unless a sum wraps, the block is the next one of the head chunk if that has room, else of a new chunk, and there is none exactly for no bytes or if the base allocator refuses; it is apart from all others. A block is in memory if and only if no sum wraps. |
| Pool.MemoryPool.Realloc | 3rd_party/rapidjson/allocators.h:204-235 | Unless a sum wraps, the block stays where it is exactly if it need not grow or ends the head chunk with room left, is moved otherwise, and there is none exactly if the base allocator then refuses; its bytes and those of all other blocks are kept. The result is large enough if and only if no sum wraps. |
| Pool.MemoryPool.Clear | 3rd_party/rapidjson/allocators.h:158-166 | Keeps the user's buffer, emptied, and nothing else. |
| Pool.MemoryPool.Capacity | 3rd_party/rapidjson/allocators.h:171-176 | The room in all chunks. |
| Pool.MemoryPool.Size | 3rd_party/rapidjson/allocators.h:181-186 | The sum of the sizes of all blocks handed out, never more than the capacity. |
| Pool.TooLarge | 3rd_party/rapidjson/allocators.h:189-201 | A pool of 64 bytes serves a request for all bytes of a word but one. |

## Findings

- The loop over a block's symbols need not end (stb_image.h:4044-4084): symbols 286 and 287 have length 0,
  and past the input the stream is zero. `NeverEndsExactly` gives the condition, `NeverReturns` an input,
  `DoZlib` and `DecodeMalloc` the condition for whole streams.
- `Variable::resize` stores the new dimensions before it asks for memory and returns without telling the
  consumers when there is none (Expr.cpp:748-782). `ExprDirty.Resize` says exactly when a shape is then stale,
  `StaleShape` gives a case.
- Loading turns a leading -1 dimension of an input into 1, so saving again gives the same ops exactly if there
  was none (`SameNet`).
- Saving every variable that loading returned may list the ops in another order (`ReloadAll`, `OneOrTwo`).
- The pool rounds the seven largest sizes to zero, and its sums may wrap; `Malloc` and `Realloc` say exactly
  when a block lies in memory, `TooLarge` gives a case.
- The last two distance symbols mean distance 0: the decoder then copies what the output buffer happens to
  hold (stb_image.h:4058-4081). `Writes` leaves those bytes open. `OneOutcome` and `OutputIsExpansion` say exactly
  when the output is determined, `UnsetBytes` gives an input whose output is not.
- `informDirty` sets a consumer's visited flag before it asks whether the input by which it came is read
  (Expr.cpp:845-873). When it comes to a consumer over an input that is not read first, it does not go on, and does
  not come back over one that is. `Engine.Write` and `InformDirty.HinderedExactly` say exactly when this can
  happen, `WriteHindered` what then goes wrong, `StaleRead` gives a run: c reads y and not a, as a crop reads the
  image and not what says how large to cut, and both depend on the input x.

## Left out

Fusion:

- Kernel text, op and variable names, vectorisation flags, packing of the fused op: strings around the rewrite.
- The Raster branches for CUDA in `isLegal`, `fuseNode` and `buildKernel`: they rest on code that is not part of this model.
- `isLegal` itself: a device's predicate that holds only for element-wise commands with one output.
- OpFuse.OpFuse: asks for at most one fusable command per info, because ties in `topoIndex` within a fuse set leave the order of the kernel to `std::sort`.
- SourceModule.SortByTopo: an insertion sort stands for `std::sort`.
- Erasing cached buffers of fused commands.

Lazy engine:

- Sessions, backends, threads, cache files: a session is a function that prepares a plan and one that runs it.
- Engine.Read: covers caches made for one target at a time; `MakePipeline` covers several. With several, resizing a leaf below one target prepares the cache anew, but not the caches that read another target; whether these still run as prepared rests on the backends, which are not part of this model.
- ExprInfo.RequireInfo: no operator may need the content of an input to know its shape, because asking for that shape would read the input. Pipelines, execution order, saving and loading have such operators.
- InformDirty.InformDirty: nor here, because the walk would forget shapes on its way.
- Engine.Write: so neither in a running engine, whether created (`EngineGrows.Create`), resized, written or read. What is written is an input: an operator is refused, and a constant's content goes into a pipeline when that is made.
- ExprDirty.Resize: what is resized is a leaf; the output of an operator is refused.
- Static models, and the decomposition of lazy content when creating a variable.
- ExecuteOrder.GetExecuteOrder: no operator has a null input, here, in save and load and in the engine; `Replace` has them.
- SaveLoad.Save: the same.
- The record that expressions share (`Inside`) is folded into the expression, except in `Replace`, where replacing lets two expressions share one.
- Names, subgraphs and constant data of saved nets, beyond an opaque payload.
- Reload.ReloadAll: for a last expression that has an output, as `load` returns variables for outputs only.

Inflate and PNG:

- InflateResults.DecodeMalloc: 32-bit wrap-around of the buffer size is not modelled; `maxAlloc` says what can be allocated. An initial size of 0 is left out: what `malloc(0)` answers is up to the platform.
- InflateStream.DoZlib: a growing buffer that starts with size 0 is left out, because doubling it never makes room; one that may not grow may be empty.
- Inflate.ParseHuffmanBlock: the source's loop has no bound; the model's stops at a number of symbols that is proved to be reached only by blocks that never end, and answers `Endless`.
- ZBuf.BitBuf.Receive: `|=` into the bit buffer is an addition of bits that are known to be zero there.
- The one structure of bit buffer, output and tables is split into `BitBuf`, `OutBuf` and `Huffman`.
- PngImage.CreateImageRaw: 8-bit samples only, no failing allocation, unbounded sizes; the loop per filter is one loop that chooses per sample.
- 16-bit, 1-, 2- and 4-bit images, palettes, transparency, chunks, and every other image format.

Pool:

- The base allocator is a function that answers a size with free memory or nothing; the chunk headers are kept beside the memory, not in it.
- Pool.MemoryPool.Malloc: after a wrapped sum, nothing is promised about the pool.
- Pool.MemoryPool.Realloc: the bytes that `memcpy` would move outside the memory after a wrapped sum are not modelled.
- A chunk capacity so large that a header does not fit beside it in a word.
- Pool.BlocksAligned: the source does not check that the user's buffer is aligned, so alignment is relative to the chunks.
