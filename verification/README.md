# A verified model of the series engine and its tools

This project models the parts of the repository that carry its hardest promises, and proves what each of them is
for. These are its files.

- `Convolution`, `ConvolutionNan`: the streaming convolution. A chunk of outputs is filled from block products whose
  sizes follow the lowest set bit of the number of finished outputs, as inputs, earlier chunks and transforms become
  ready in any order. Every finished output is the plain convolution sum.
- `Stringify`, `StringifyPrint`, `StringifyInflate`, `StringifyCollide`: the program serializer. Arrays are printed
  once and linked afterwards; reading patches the links in place. Reading gives the printed tree back exactly when the
  hash tells its subtrees apart.
- `Nodes`, `MatSolve`: the symbolic linear solver and the simplifying constructors it uses.
- `DrawCommands`, `PlainList`, `DrawList`, `Splitter`, `SplitterRuns`: the draw command buffer and its
  channels. Coalescing and merging keep the drawn stream.
- `Adler`, `Tokens`, `Decompress`: the checksum and the decoder of compressed fonts.
- `ArcSampler`: arcs drawn from a table of points.
- `Intervals`, `GlBuffer`, `SplitBuffer`: sets of intervals, a GL buffer with ranges that are out of date, and the slot
  allocator mirrored in it.
- `ErasableQueue`, `ContextBuilder`, `GarbageCollector`: a queue erasable by value, a registry edited while it is
  walked, and the ring of chunks to be freed.
- `Bits`, `Bitset`, `BitInterface`: words as numbers, sets and numbers packed into them.
- `Operators`: dot products, scans and partial reductions, on chunks that are filled in as their inputs become known.
- `JsonsDiff`: the comparison of two files that are read at the same time.

Objects that the source updates in place are classes here, and loops are loops. Each method is proved against a
specification on values (a sequence of marks, a set of members, a queue, a sum), and the lemmas are about those.

## Where the code falls short of its promise

Each of these is stated as a lemma that says exactly when the code is right.

- `Convolution.PlainTriangleRightIff`, `Convolution.PlainDiagonalNeverRight`: the convolution path without transforms
  is right at the beginning of a chunk only. The build scripts switch this path off; `defines.ts:64` as it stands would
  use it.
- `ConvolutionNan.MarksRightIff`: an input that is not a number spoils too many outputs when it lies in an earlier
  chunk, or when a call that waits for a transform has read it and the next call reads it again. The assertions about
  `nanEnd` do not catch either (`ScanFailsAt`, `RereadFailsAt`), and may fail when the marks are right
  (`AssertionFailsAt`).
- `Inflating.NumberAndStringCollide`: `1` and `"1"` have the same hash, so one may be read back as the other.
  `Collisions.CollisionFreeIff` says which trees are safe.
- `MatSolve.ExchangeIsNotSolved`: without a search for pivots a solvable system may end in a division by zero.
- `Bitset.MaskKeepsAllIff`: `fill` and complement lose the last word when the size is a multiple of the word width.
- `GlBuffers.GrowthSufficesIff`: the grown size must still be a 32-bit index.
- `SplitBuffers.WriteIsSyncedIff`: a mutator must not be used after the next sync.
- `BitInterface.RoundTripsIff`: a bit is shifted in an `int`, so that elements of 64 bits do not hold what is written.
- `BitInterface.WriteThenRead`: bits are ORed in, so the buffer has to be zero, or hold nothing but bits of the number.
- `ArcSampler.DividesIff`: an arc with a positive radius below 0.000001 divides by zero.
- `ReductionHeap.Compute`: once a chunk is fully known the loop asks for a range beyond the table.

## Model
| member | source | states |
|---|---|---|
| `Convolution.Run` | src/series/type/convseries.h:107-418 | any sequence of calls to a chunk, whatever inputs, earlier chunks and transforms are ready at each: every finished output is the plain convolution sum, and a call that finds everything ready finishes all inputs it saw |
| `Convolution.Compute` | src/series/type/convseries.h:116-418 | one call keeps the state between calls, leaves finished outputs alone, and finishes everything when all is ready |
| `Convolution.FinishedIsDirect` | src/series/type/convseries.h:245-418 | a finished output equals the direct sum over all inputs up to it, for a kernel of the given size |
| `Convolution.AddPriorChunks` | src/series/type/convseries.h:169-221 | the products with earlier chunks give every output exactly its sum over the inputs of those chunks, also when there are none |
| `Convolution.PriorChunksReachBack` | src/series/type/convseries.h:94-101 | the earlier chunks that are left out lie a whole kernel back, so they contribute nothing, and no others do |
| `Convolution.StepLog2` | src/series/type/convvariant/zpts1.h:71-75 | the step taken is no larger than the lowest set bit of the count and than what is left to do, and cannot be larger |
| `Convolution.WithStepSpec` | src/series/type/convvariant/zpts1.h:70-99 | either nothing is written and nothing advances, or both products are added and the state moves on to a larger count within endCount |
| `Convolution.Diagonal` | src/series/type/convvariant/zpts1.h:16-34 | after the diagonal product every output of the block at c has received all inputs below c |
| `Convolution.Triangle` | src/series/type/convvariant/zpts1.h:36-54 | after the triangle product the outputs up to the next count are complete and the later ones have what the plan says |
| `Convolution.BlockFits` | src/series/type/convseries.h:358-376 | a diagonal block never leaves the chunk: the dstIndex assertions hold |
| `Convolution.DiagonalFits` | src/series/type/convvariant/zpts1.h:16-34 | the outputs of the block at c all lack exactly the inputs that the diagonal product brings |
| `Convolution.StepKeepsCovered` | src/series/type/convvariant/zpts1.h:36-54 | a step changes nothing for the outputs beyond it: what they still lack is the same by both counts |
| `Convolution.CarryChain` | src/series/type/convvariant/zpts1.h:71-75 | adding the lowest bit to a count and taking it away lead through the same carries, which is why the blocks meet |
| `Convolution.AddProduct` | src/series/type/convseries.h:347-376 | the upper half of one product adds to each output its sum over one input partition, and nothing elsewhere |
| `Convolution.UpperHalfIsLinear` | src/series/type/convseries.h:193-215 | the upper half of the circular product of a full and a half-empty block has no wrap-around |
| `Convolution.FillAround` | src/series/type/fftseries.h:138-242 | the block for a transform is the zero-padded window of the series around a partition boundary, whatever part of it lies before the series |
| `Convolution.FillBlock` | src/series/type/fftseries.h:138-242 | the same for a partition of a series, through the split into a left and a right chunk |
| `Convolution.SplitAligned` | src/series/type/fftseries.h:138-140 | the split offset puts every partition wholly into the series or wholly before it, as the assertions of the class demand |
| `Convolution.PlainTriangleRightIff` | src/series/type/convseries.h:379-405 | a triangle step of the path without transforms is right for every kernel and series if and only if it is at the beginning of the chunk |
| `Convolution.PlainDiagonalNeverRight` | src/series/type/convseries.h:379-405 | a diagonal step of that path, which every later step begins with, is wrong for some kernel and series whatever the count |
| `Convolution.DropsTriangles` | src/series/type/convseries.h:379-405 | beyond the beginning a triangle step of that path adds 0 to every output |
| `Convolution.TriangleFailsAt` | src/series/type/convseries.h:379-405 | with the kernel that changes nothing it loses the input at the count |
| `Convolution.DiagonalFailsAt` | src/series/type/convseries.h:379-405 | with the kernel that delays by one the diagonal step loses the input before the count |
| `ConvolutionNan.InitialMarksAreExact` | src/series/type/convseries.h:103 | without backfill exactly the outputs whose window begins before the series are marked at the start |
| `ConvolutionNan.SpoiltIff` | src/series/type/convseries.h:229-237 | reading the inputs once, from where the spoilt outputs end before the chunk, would mark exactly the outputs whose window begins before the series or holds an input that is not a number |
| `ConvolutionNan.ScanPrior` | src/series/type/convseries.h:154-167 | the scan of earlier chunks finds the latest input there that is not a number |
| `ConvolutionNan.Marker.Mark` | src/series/type/convseries.h:154-237 | one call, whatever the calls before it marked and did not finish, leaves nanEnd, the marks of all outputs and the assertions about nanEnd as stated for the run |
| `ConvolutionNan.Marker.Loop` | src/series/type/convseries.h:229-237 | the marking loop marks an output when nanEnd lies behind it, and asserts at each bad input that nanEnd does not go back |
| `ConvolutionNan.Run` | src/series/type/convseries.h:113-237 | any run of calls, each with its inputs and the outputs it finished: an output is marked exactly when reading everything once would mark it, or when a call that follows one that stopped short reads a later bad input again; the assertions hold exactly when the first bad input comes late enough and no call reads two bad ones again |
| `ConvolutionNan.EntryGives` | src/series/type/convseries.h:116-237 | in a later call nanEnd is as if everything had been read once, except that it stands behind the last bad input until the first one is met that is read again |
| `ConvolutionNan.MarkedNext` | src/series/type/convseries.h:154-237 | which outputs are marked after one more call, also when it clears the outputs and begins anew |
| `ConvolutionNan.SoundNext` | src/series/type/convseries.h:162-231 | which assertions one more call adds to those of the run |
| `ConvolutionNan.MarksRightIff` | src/series/type/convseries.h:113-237 | for any run: the marks of the finished outputs are right if and only if the scan of earlier chunks does not reach too far, and no call that follows one that stopped short reads a bad input again with an output before it that nothing spoils |
| `ConvolutionNan.WithoutStops` | src/series/type/convseries.h:113-237 | when no call stops short, the marks are right exactly when the scan does not reach too far, and the assertions hold exactly when the first bad input comes late enough |
| `ConvolutionNan.ScanFailsAt` | src/series/type/convseries.h:161 | an example: the distance of a bad input of an earlier chunk is taken the wrong way round, and an output that is not spoilt is marked |
| `ConvolutionNan.RereadFailsAt` | src/series/type/convseries.h:229-237 | an example: two calls of which the first one stops mark an output that comes before the only bad input |
| `ConvolutionNan.AssertionFailsAt` | src/series/type/convseries.h:231 | an example: with two bad inputs the repeated call fails the assertion, though its marks are right |
| `ConvolutionNan.ScannedChunksReach` | src/series/type/convseries.h:94-101 | the earlier chunks that are held are all there are, or reach back a kernel without its first sample |
| `Paths.ParseDecimal` | ts/stringify.ts:92 | parseInt reads back a printed array index |
| `Paths.DecimalIsBaseTen` | ts/stringify.ts:63 | array indices are printed in base ten without leading zeros |
| `Paths.SplitPathText` | ts/stringify.ts:85-93 | splitting a printed path gives # and then the indices of the position |
| `Paths.PathTextInjective` | ts/stringify.ts:63 | different positions have different paths |
| `Printing.Printer.GetHash` | ts/stringify.ts:6-28 | the cached hash is the hash of the array |
| `Printing.Printer.GetPrimitive` | ts/stringify.ts:30-38 | what a value contributes to the hash of its parent: the text null, true, false, the digits or the string itself for leaves, the hash for arrays |
| `Collisions.SameTextIff` | ts/stringify.ts:36 | the different leaves that are rendered alike are null and "null", a truth value and its name, a number and its digits, and no others |
| `Printing.Printer.Record` | ts/stringify.ts:55-64 | the parent of a new array always has a path, so "Missing parent path!" is never thrown, and the recorded path is the path of the position |
| `Printing.Printer.Serialize` | ts/stringify.ts:44-67 | the replacer prints an array in full at the first position of its hash and as a link to that position afterwards; the paths recorded are those of parts printed in full |
| `Printing.Stringify` | ts/stringify.ts:40-68 | printing never throws, and every link names the place of its hash, which comes earlier in the text and is spelt out there |
| `Printing.PlacesAreFirst` | ts/stringify.ts:49-63 | with a hash that tells the subtrees apart, the place of an array is its first occurrence in preorder |
| `Printing.LinksNameFirstOccurrences` | ts/stringify.ts:50-53 | every link names the first occurrence of an equal subtree, by a way that crosses no other link, and never an ancestor of the link |
| `Printing.SpeltOutOnce` | ts/stringify.ts:50-66 | no two arrays printed in full are equal |
| `Inflating.Reader.Parse` | ts/stringify.ts:73-78 | parsing builds one heap cell per printed array and collects exactly the links with the slots they stand in |
| `Inflating.Reader.Patch` | ts/stringify.ts:85-95 | the patching loop does in place what patching the links one by one does |
| `Inflating.Inflate` | ts/stringify.ts:70-98 | inflate is parsing followed by patching in the order in which the links were met |
| `Inflating.PatchAllSucceeds` | ts/stringify.ts:85-95 | patching succeeds in any order when each path leads to an array, although earlier patches change the way; nothing but links is overwritten |
| `Inflating.DenotesPrinted` | ts/stringify.ts:85-97 | every part printed in full stands for the value it was printed from once all links are patched |
| `Inflating.RoundTrip` | ts/stringify.ts:40-98 | for every tree of nested arrays and every order of patching, inflating what stringify printed succeeds, and gives back the tree if and only if the hash tells its different subtrees apart |
| `Inflating.FaithfulIffCollisionFree` | ts/stringify.ts:40-98 | both directions of that equivalence for a finished trip |
| `Inflating.StringifyThenInflate` | ts/stringify.ts:40-98 | stringify followed by inflate never throws, and is faithful exactly for collision-free hashes: when keys have different digests, for trees without two arrays that differ in confused leaves only; so for every tree without strings |
| `Inflating.NumberAndStringCollide` | ts/stringify.ts:36 | a number and the string of its digits are rendered alike, so no digest makes [[1],["1"]] collision-free |
| `Collisions.CollisionFreeIff` | ts/stringify.ts:6-38 | when arrays with different keys have different digests, the hash tells all different arrays of a tree apart if and only if no two of them differ in confused leaves only: null and "null", a number and its digits, an array and the string of its digest |
| `Collisions.CollisionFreeIffKinds` | ts/stringify.ts:6-38 | when no string of the tree is a digest of one of its arrays, the hash plays no part: no two arrays may differ in the kind of some leaves only |
| `Collisions.WithoutStrings` | ts/stringify.ts:6-38 | a tree without strings always survives, when keys have different digests and no digest looks like a leaf |
| `Collisions.FindClash` | ts/stringify.ts:6-38 | under any two different arrays with the same hash there are two that differ in confused leaves only |
| `Collisions.DigestTextClashes` | ts/stringify.ts:33-36 | an array and the string of its digest are rendered alike, whatever the digest |
| `Nodes.ToConstValue` | ts/base.ts:49-56 | a node that toConst finds to be 0 or 1 evaluates to 0 or 1, through wrappers and casts |
| `Nodes.AddMeaning` | ts/base.ts:96-97 | add means the sum, whichever rewrite it takes |
| `Nodes.SubMeaning` | ts/base.ts:98-99 | sub means the difference |
| `Nodes.MulMeaning` | ts/base.ts:100-107 | mul means the product, including the rewrite to a square |
| `Nodes.DivMeaning` | ts/base.ts:108-113 | div means the quotient and is defined exactly where the divisor is not zero, also when it becomes a product with an inverse |
| `Nodes.BuiltWhereNeeded` | ts/base.ts:96-113 | an operation is only built where no rewrite applies |
| `Nodes.ProductAndQuotient` | ts/base.ts:100-113 | both in the operators of arithmetic |
| `MatSolve.Solve` | ts/mat.ts:37-79 | no sentinel ever reaches sub, mul or div, the final identity assertion holds, and the result is the last column; only a shape that does not fit fails |
| `MatSolve.StepKeepsSolutions` | ts/mat.ts:47-70 | one elimination step with a nonzero pivot keeps the solutions of every leading part of the system |
| `MatSolve.RunKeepsSolutions` | ts/mat.ts:47-70 | so does any number of steps |
| `MatSolve.PivotsSolve` | ts/mat.ts:37-79 | when the successive pivots are not zero, the emitted expressions evaluate to the one and only solution |
| `MatSolve.PivotIffNonsingular` | ts/mat.ts:47-67 | a pivot is nonzero exactly when the leading part of the matrix that ends with it is nonsingular |
| `MatSolve.PivotsIffNonsingular` | ts/mat.ts:47-67 | all pivots are nonzero exactly when all leading parts are nonsingular |
| `MatSolve.DefinedIffLeadingNonsingular` | ts/mat.ts:47-70 | the emitted expressions divide by zero nowhere if and only if all leading parts of the matrix are nonsingular |
| `MatSolve.SolvesTheSystem` | ts/mat.ts:37-79 | for such systems the result solves every equation and is the only one that does |
| `MatSolve.ExchangeIsNotSolved` | ts/mat.ts:47-70 | a uniquely solvable system whose solution is not found, since no pivot is searched |
| `DrawLists.DrawList.constructor` | src/imgui/imgui_draw.cpp:405-428 | a new frame begins with one empty command with an empty rectangle, no texture and vertex offset 0 |
| `DrawLists.DrawList.AddCallback` | src/imgui/imgui_draw.cpp:477-490 | a callback takes its place in the stream and is followed by a fresh command |
| `DrawLists.DrawList.OnChangedClipRect` | src/imgui/imgui_draw.cpp:511-531 | the three tests before a header change keep the stream, leave a last command with the current header, none before it that draws nothing, and none that could have continued the one before it |
| `DrawLists.DrawList.OnChangedTextureID` | src/imgui/imgui_draw.cpp:533-553 | the same for the texture |
| `DrawLists.DrawList.OnChangedVtxOffset` | src/imgui/imgui_draw.cpp:555-568 | the same for the vertex offset, when it is larger than all before |
| `DrawLists.DrawList.PushClipRect` | src/imgui/imgui_draw.cpp:581-598 | installs the rectangle whose points are those of the pushed one, and with intersect also of the current one; an ordered one is installed as it is without intersect; the stream stays, and no command comes to be one that could continue another |
| `DrawLists.DrawList.PopClipRect` | src/imgui/imgui_draw.cpp:605-610 | takes the top rectangle off and installs the one below it, or the full screen when there is none; the stream stays |
| `DrawLists.DrawList.PushTextureID` | src/imgui/imgui_draw.cpp:612-617 | installs a texture without touching what is drawn |
| `DrawLists.DrawList.PopTextureID` | src/imgui/imgui_draw.cpp:619-624 | takes the top texture off and installs the one below it, or none when there is none; the stream stays |
| `DrawLists.DrawList.PrimReserve` | src/imgui/imgui_draw.cpp:629-652 | adds exactly as many indices with the current header as are reserved, in a new vertex range when 16 bits would not do, and puts both write pointers to the new parts, filled or not |
| `DrawLists.DrawList.PrimUnreserve` | src/imgui/imgui_draw.cpp:655-663 | takes back the last indices and vertices, and nothing else |
| `DrawLists.DrawList.PrimRect` | src/imgui/imgui_draw.cpp:666-679 | writes six indices that, with the vertex offset of their command, name the corners of the rectangle |
| `DrawLists.DrawList.PopUnusedDrawCmd` | src/imgui/imgui_draw.cpp:468-475 | drops the last command exactly when there is one and it draws nothing and calls nothing; the stream is the same |
| `DrawLists.DrawList.PrimWriteIdx` | src/imgui/imgui_draw.cpp:1047-1051 | writes one index in 16 bits and moves on |
| `DrawLists.DrawList.PrimWriteVtx` | src/imgui/imgui_draw.cpp:1042-1046 | writes one vertex and moves on |
| `DrawLists.DrawList.AdvanceIdx` | src/imgui/imgui_draw.cpp:1052 | moves the current index on by the vertices of a shape, cut to 16 bits |
| `DrawLists.AddConvexPolyFilled` | src/imgui/imgui_draw.cpp:1037-1053 | a shape written index by index and vertex by vertex: it fills its reservation, its indices are meant for the fan over its points, and if the reservation is tidy they name them |
| `DrawLists.NamedStep` | src/imgui/imgui_draw.cpp:629-679 | every step that keeps to the rules of a tidy list keeps all written indices right |
| `DrawLists.PerformAll` | src/imgui/imgui_draw.cpp:454-679 | after any run of calls, whatever is drawn, the commands, spelt out, are those of one command per index; none but the last is idle, and unless a vertex range begins where the last one did, none could have continued the one before it; if each step is tidy (vertices are passed before the next reservation, which stays below 65536), that is so, and every written index names its vertex |
| `DrawCommands.CoalescedOnce` | src/imgui/imgui_draw.cpp:454-568 | commands that are busy and do not continue each other are determined by what they draw: there is only one way to coalesce a stream |
| `DrawLists.TidyClimbs` | src/imgui/imgui_draw.cpp:632-638 | a tidy reservation begins a new range only where vertices were passed, so that the new offset differs from the last one |
| `DrawCommands.TilesIsPrefixSum` | src/imgui/imgui_draw.cpp:639-651 | every command begins where the one before it ends |
| `DrawLists.RectNames` | src/imgui/imgui_draw.cpp:666-679 | the six indices name the four corners under the vertex offset of the range |
| `PlainFacts.RectTriangles` | src/imgui/imgui_draw.cpp:669-679 | the six corners are two triangles on a diagonal of the rectangle |
| `PlainFacts.RunShowsStacks` | src/imgui/imgui_draw.cpp:581-624 | the header shows the tops of both stacks after any run |
| `PlainFacts.PopUndoesPush` | src/imgui/imgui_draw.cpp:581-624 | a pop takes back the push before it |
| `PlainFacts.MarksOnlyGrow` | src/imgui/imgui_draw.cpp:454-679 | what has been drawn is never drawn differently later on, unless indices are given back |
| `Splitting.Splitter.Split` | src/imgui/imgui_draw.cpp:1687-1715 | splitting leaves all channels but the current one empty |
| `Splitting.Splitter.SetCurrentChannel` | src/imgui/imgui_draw.cpp:1788-1810 | switching keeps what every channel draws, and leaves a last command that fits the current header |
| `Splitting.Splitter.MergeChannel` | src/imgui/imgui_draw.cpp:1730-1759 | one channel joins the commands before it: one command fewer exactly when its first one has the header of the last one and neither is a callback |
| `SplitterRuns.DrawSplit` | src/imgui/imgui_draw.cpp:1687-1810 | any drawing between Split and Merge, in any order of channels: the merged list shows, channel by channel, the marks and index values that were drawn into each, under the header of the last state |
| `SplitterRuns.OthersStay` | src/imgui/imgui_draw.cpp:1788-1810 | a channel changes only while it is the current one |
| `SplitterRuns.EventsAreShown` | src/imgui/imgui_draw.cpp:1717-1786 | channels with the marks and values of the reference draw its events |
| `Splitting.AppendedMeans` | src/imgui/imgui_draw.cpp:1739-1758 | joining and offset correction keep the stream: first the commands before, then the channel |
| `Splitting.ShiftTiles` | src/imgui/imgui_draw.cpp:1754-1758 | corrected offsets are the running sums of the counts |
| `Splitting.Splitter.MergeBuffers` | src/imgui/imgui_draw.cpp:1717-1772 | all commands and all indices are in the list in channel order, the commands tile the indices, and none is idle |
| `Splitting.Splitter.EnsureLast` | src/imgui/imgui_draw.cpp:1774-1786 | the merged list ends in a command that is no callback and carries the current header |
| `Splitting.Splitter.Merge` | src/imgui/imgui_draw.cpp:1717-1786 | the drawn stream of indices with headers and callbacks after merging is that of the channels one after the other |
| `DrawStreams.StreamIsZip` | src/imgui/imgui_draw.cpp:1717-1786 | commands that tile the indices draw each index once, in order |
| `Splitting.EventsAreZip` | src/imgui/imgui_draw.cpp:1717-1786 | the same for all channels together |
| `Adler.PlainIsBytewise` | src/imgui/imgui_draw.cpp:4012-4041 | reducing once a block gives the sums that reducing after every byte gives (section 2.2 of RFC 1950) |
| `Adler.PlainIsSums` | src/imgui/imgui_draw.cpp:4017-4037 | the unreduced sums in closed form: byte i of n counts n - i times in the second one |
| `Adler.BytewiseIsChecksum` | src/imgui/imgui_draw.cpp:4012-4041 | reducing after every byte and packing the halves gives that checksum |
| `Adler.BlockFits` | src/imgui/imgui_draw.cpp:4014-4036 | no sum within a block of 5552 bytes leaves 32 bits, whatever 16-bit halves it starts from |
| `Adler.AddBlock` | src/imgui/imgui_draw.cpp:4019-4034 | the loop unrolled eight times and the loop over the rest add up the block |
| `Adler.Adler32` | src/imgui/imgui_draw.cpp:4012-4041 | for every buffer and start value the low half is the sum of the low half and all bytes, the high half the sum of these sums, both modulo 65521, and without bytes the start value stays; equal to the bytewise definition |
| `Tokens.ReadWritten` | src/imgui/imgui_draw.cpp:3991-4010 | a token written in any of its byte forms is read back, with its length |
| `Decompress.CopyIsPeriodic` | src/imgui/imgui_draw.cpp:3979 | a forward copy repeats the bytes `distance` before it, also when it overlaps itself |
| `Decompress.Decoder.CopyMatch` | src/imgui/imgui_draw.cpp:3973-3980 | a match is copied from what is written, or the position leaves the output; nothing is written beyond the output |
| `Decompress.Decoder.CopyLiteral` | src/imgui/imgui_draw.cpp:3982-3989 | a literal is copied, or the position leaves the output |
| `Decompress.Decoder.DecodeToken` | src/imgui/imgui_draw.cpp:3995-4010 | the ladder of comparisons carries out the token at the position, or reports that there is none |
| `Decompress.Decoder.DecodeSmall` | src/imgui/imgui_draw.cpp:3997-4000 | the same for the tokens that expand small |
| `Decompress.Decoder.DecodeLarge` | src/imgui/imgui_draw.cpp:4001-4008 | the same for the tokens that expand large |
| `Decompress.LoopSucceedsIff` | src/imgui/imgui_draw.cpp:4054-4072 | decoding succeeds exactly when all matches reach back into the output, the expansion has the promised length, and the end marker with its checksum, the highest byte first, follows |
| `Decompress.StbDecompress` | src/imgui/imgui_draw.cpp:4043-4073 | a file of written tokens gives their bytes; success means that the output holds the tokens found in the input one after the other, and that the end marker and their checksum follow; nothing beyond the promised length is written |
| `Decompress.TokenizeWritten` | src/imgui/imgui_draw.cpp:3995-4010 | a list of written tokens is read back as that list |
| `Decompress.FileDecompresses` | src/imgui/imgui_draw.cpp:4043-4073 | every file with the magic number, the length, written tokens of which no match reaches back before the first byte, the end marker and the checksum decompresses to the bytes of the tokens |
| `Decompress.FileIsFile` | src/imgui/imgui_draw.cpp:4043-4073 | there is such a file for all tokens that expand to less than 2^32 bytes |
| `Decompress.AllPossibleIff` | src/imgui/imgui_draw.cpp:3970-3982 | a list of tokens can be carried out if and only if no match has distance 0 or reaches back before the first byte |
| `Decompress.ExpandAllHolds` | src/imgui/imgui_draw.cpp:3970-3992 | its expansion holds the tokens one after the other: literals as they are, matches as the bytes that stand their distance before |
| `ArcSampler.Path.ArcToFast` | src/imgui/imgui_draw.cpp:1056-1146 | the points lie on the circle at samples from the first to the last, at most a step apart, a whole step between inner ones, what is left over shared by the first and the last gap; the step is the given one or 48 divided by the segments for the radius, at most 12; a radius that is not positive adds the center; the call divides by zero exactly when it asks for the segments and there are none |
| `ArcSampler.Path.DrawArc` | src/imgui/imgui_draw.cpp:1056-1146 | the points written are exactly those reserved, each the table point of its sample number |
| `ArcSampler.SamplesAreSampling` | src/imgui/imgui_draw.cpp:1068-1094 | the planned samples are such a sampling |
| `ArcSampler.DividesIff` | src/imgui/imgui_draw.cpp:570-578 | without a step of its own an arc of positive radius can be drawn if and only if the radius is at least 0.000001 and the count for it does not vanish in a byte |
| `ArcSampler.TinyRadiusFails` | src/imgui/imgui_draw.cpp:396-400 | a radius at which the entry for 0 is found and divided by |
| `ArcSampler.Path.Upwards` | src/imgui/imgui_draw.cpp:1104-1117 | the loop with the shortened first step draws all points but the added one, each index within the table |
| `ArcSampler.Path.Downwards` | src/imgui/imgui_draw.cpp:1118-1132 | the same towards lower samples |
| `ArcSampler.PointsAdvance` | src/imgui/imgui_draw.cpp:1069-1091 | the points begin at one end, finish at the other, and advance by at most one step at a time |
| `ArcSampler.LastStep` | src/imgui/imgui_draw.cpp:1083-1090 | the shortened first step and the last gap differ by at most one |
| `ArcSampler.LoopEnds` | src/imgui/imgui_draw.cpp:1104-1132 | the loop ends after the planned number of points although its first step is shorter |
| `ArcSampler.Wraps` | src/imgui/imgui_draw.cpp:1107-1125 | one correction keeps the index within the table in both directions |
| `ArcSampler.RemainderIs` | src/imgui/imgui_draw.cpp:1096-1102 | the C remainder with its correction is the position on the circle, also for negative samples |
| `Intervals.IntervalSet.Insert` | src/jw_util/intervalset.h:41-73 | keeps sorted intervals with gaps between them, and covers exactly the new range besides what it covered |
| `Intervals.IntervalSet.Merge` | src/jw_util/intervalset.h:105-132 | fills exactly the gaps of at most the given size between neighbours, and leaves larger gaps everywhere |
| `GlBuffers.GrowthSufficesIff` | src/graphics/glbuffer.h:75-76 | growth by 3/2 is sufficient exactly as long as the result still is a 32-bit index |
| `GlBuffers.GlBuffer.FlagIndex` | src/graphics/glbuffer.h:38-41 | one index more is out of date |
| `GlBuffers.GlBuffer.UpdateSize` | src/graphics/glbuffer.h:69-105 | a larger buffer keeps what the old one held |
| `GlBuffers.GlBuffer.UpdateFlags` | src/graphics/glbuffer.h:108-150 | exactly the flagged ranges and the gaps closed between them are copied; the rest of the memory is as before, and no flag is left |
| `SplitBuffers.SplitBuffer.Create` | src/graphics/splitbuffer.h:81-96 | gives out a slot that is not live, the one freed last if there is one, and changes no other |
| `SplitBuffers.SplitBuffer.Destroy` | src/graphics/splitbuffer.h:98-106 | frees one slot and changes no other |
| `SplitBuffers.SplitBuffer.Mutate` | src/graphics/splitbuffer.h:116-120 | flags one slot and no other |
| `SplitBuffers.SplitBuffer.Write` | src/graphics/splitbuffer.h:36-55 | a write to a live slot changes that slot only, and keeps the promise of the mirror while the slot is flagged |
| `SplitBuffers.SplitBuffer.Sync` | src/graphics/splitbuffer.h:128-136 | after a sync the remote memory equals the shared data on every live slot |
| `SplitBuffers.SyncMirrors` | src/graphics/splitbuffer.h:128-136 | growing with copy and flushing merged ranges bring every live slot up to date |
| `SplitBuffers.WriteIsSyncedIff` | src/graphics/splitbuffer.h:116-136 | a write is in the remote copy after the next sync if and only if its slot is sent then, flagged or in a gap that is closed, or the copy has the value already |
| `SplitBuffers.StaleWriteIsLost` | src/graphics/splitbuffer.h:81-136 | a run that uses a mutator once more after a sync: the write is lost, even after another sync |
| `SplitBuffers.PerformAll` | src/graphics/splitbuffer.h:65-136 | any history of creations, writes, destructions and syncs: the live slots hold what was written last, freed slots are reused last first, and after every sync the remote copy equals all live slots |
| `SplitBuffers.SplitBuffer.GetActiveSize` | src/graphics/splitbuffer.h:69-71 | the active size is the number of live slots |
| `SplitBuffers.ActiveSizeCounts` | src/graphics/splitbuffer.h:69-71 | the free list has no duplicates, so the difference of the sizes counts the live slots |
| `ErasableQueue.Queue.SetValueLimit` | src/jw_util/erasableuintqueue.h:23-38 | changes the limit and nothing else, when no queued value lies beyond it |
| `ErasableQueue.Queue.Has` | src/jw_util/erasableuintqueue.h:40-44 | an iterator is not the end exactly when its value is queued |
| `ErasableQueue.Queue.Push` | src/jw_util/erasableuintqueue.h:46-63 | with replace the value moves to the back, without it a queued value keeps its place |
| `ErasableQueue.Queue.Erase` | src/jw_util/erasableuintqueue.h:83-90 | removes the value and keeps the order of the others |
| `ErasableQueue.Queue.Pop` | src/jw_util/erasableuintqueue.h:92-99 | removes and returns the front |
| `ErasableQueue.LinkedFacts` | src/jw_util/erasableuintqueue.h:106-111 | no value is queued twice, and map[v] points into the list exactly when v is queued |
| `ErasableQueue.LinkedNode` | src/jw_util/erasableuintqueue.h:106-111 | the node that map[v] points at is the node of v, and no other has its address |
| `ErasableQueue.PlacementOrder` | src/jw_util/erasableuintqueue.h:46-99 | after any run the queue is in the order of last placement, so that pop returns the value placed least recently |
| `ErasableQueue.PerformAll` | src/jw_util/erasableuintqueue.h:23-99 | any calls made on the linked nodes give the contents, the limit and the popped values of the reference |
| `ErasableQueue.PoppedIsOldest` | src/jw_util/erasableuintqueue.h:92-99 | every value that is popped was placed least recently of those queued |
| `ErasableQueue.QueuedIff` | src/jw_util/erasableuintqueue.h:46-99 | a value is queued exactly when it was placed since it was last removed |
| `Bitset.MaskKeepsAllIff` | src/jw_util/bitset.h:165-167 | the mask keeps all numbers below the size if and only if the size is no multiple of the word width; otherwise the last word is lost |
| `Bitset.Bitset.MaskLastWord` | src/jw_util/bitset.h:165-167 | clears the padding, and keeps the members the mask keeps |
| `Bitset.Bitset.Fill` | src/jw_util/bitset.h:74-83 | empty, or all that the mask keeps |
| `Bitset.Bitset.Set` | src/jw_util/bitset.h:85-93 | adds or removes one member and no other |
| `Bitset.Bitset.Get` | src/jw_util/bitset.h:95-98 | tells membership |
| `Bitset.Bitset.Count` | src/jw_util/bitset.h:100-108 | the number of members when the padding is clean |
| `Bitset.Bitset.IsNone` | src/jw_util/bitset.h:110-117 | true exactly for the empty set |
| `Bitset.Bitset.Complement` | src/jw_util/bitset.h:119-126 | the complement within what the mask keeps |
| `Bitset.Bitset.Intersection` | src/jw_util/bitset.h:128-134 | the common members |
| `Bitset.Bitset.Union` | src/jw_util/bitset.h:136-142 | the members of either |
| `Bitset.Bitset.SymmetricDifference` | src/jw_util/bitset.h:144-150 | the members of exactly one |
| `Bitset.Bitset.Equals` | src/jw_util/bitset.h:152-159 | true exactly when the members are the same |
| `Bitset.ValueIterator.FindOne` | src/jw_util/bitset.h:58-71 | moves to the first member that is not before the current value, skipping empty words; ends |
| `Bitset.ValueIterator.Flip` | src/jw_util/bitset.h:50-52 | turns the current value over and nothing else |
| `Bitset.Traverse` | src/jw_util/bitset.h:29-72 | yields every member once in increasing order, also when yielded values are turned over on the way |
| `Bitset.MembersBelowAre` | src/jw_util/bitset.h:29-72 | the sequence of members holds exactly the members, in increasing order |
| `Bitset.NextInWord` | src/jw_util/bitset.h:60-63 | the lowest bit of the shifted word is the next member |
| `Bitset.NoneInWord` | src/jw_util/bitset.h:64-69 | an empty rest of a word means no member before the next word |
| `Bitset.WordCount` | src/jw_util/bitset.h:100-108 | the bit count of a word is the number of its members |
| `Bits.AlignDown` | src/jw_util/bitset.h:65 | clearing the low bits rounds down to a multiple of a power of two |
| `Bits.LsbBit` | src/jw_util/bitset.h:169-173 | the index of the lowest set bit |
| `Packed.BitChanged` | src/jw_util/bitset.h:85-93 | what or, and-not and xor with one bit do to every bit of a word |
| `BitInterface.BitInterface.WriteBit` | src/jw_util/bitinterface.h:86-92 | ORs the bit in, and with it what the shift in an int sets besides: nothing in elements of up to 32 bits, all following bits of a wider element at place 31 |
| `BitInterface.BitInterface.ReadBit` | src/jw_util/bitinterface.h:49-56 | returns the bit at the position |
| `BitInterface.BitInterface.WriteNumberRaw` | src/jw_util/bitinterface.h:58-69 | ORs the low bits of a number into the following positions, each with what its shift sets |
| `BitInterface.BitInterface.ReadNumberRaw` | src/jw_util/bitinterface.h:21-35 | returns the number whose bits stand at the following positions |
| `BitInterface.BitInterface.LoadWord` | src/jw_util/bitinterface.h:115-122 | moves on to the next word at the end of one, at the same position |
| `BitInterface.BitInterface.GetElementDelta` | src/jw_util/bitinterface.h:100-103 | the words used: the bits passed divided by the word width, rounded up |
| `BitInterface.BitInterface.GetBitDelta` | src/jw_util/bitinterface.h:104-107 | the bits passed |
| `BitInterface.RoundTrip` | src/jw_util/bitinterface.h:21-107 | a list of fields written into a zeroed buffer is read back, each modulo 2 to its width, if and only if the bits are set that its numbers say; the bit delta is the sum of the widths |
| `BitInterface.RoundTripsIff` | src/jw_util/bitinterface.h:21-107 | all lists of fields are read back if and only if an element has at most 32 bits |
| `BitInterface.WideFails` | src/jw_util/bitinterface.h:90 | the failing list for every wider element: bit 31, then zeros up to the end, whatever the language leaves open |
| `BitInterface.SetsAlone` | src/jw_util/bitinterface.h:90 | in elements of up to 32 bits, and below place 31 in wider ones, a bit is set alone |
| `BitInterface.SignSets` | src/jw_util/bitinterface.h:90 | in wider ones a bit written at place 31 sets itself and all bits behind it in the element, and no others |
| `BitInterface.WriteThenRead` | src/jw_util/bitinterface.h:21-92 | in a buffer that need not be zero, at any position, what is read of a list of fields is what was there together with what is written; in elements of up to 32 bits a field is read back if and only if its number has every bit that was set in its place |
| `BitInterface.ReadsBack` | src/jw_util/bitinterface.h:21-35 | a number is determined by its bits |
| `Bits.LowIsRemainder` | src/jw_util/bitinterface.h:58-69 | the low bits are the remainder modulo a power of two |
| `DotProduct.DotScalars` | src/builder/dot.cpp:7-25 | arrays of different size are refused; for others the sum of products in order |
| `DotProduct.ComputeChunk` | src/builder/dot.cpp:28-57 | computes exactly the positions that have become known, each as the in-order sum although the loops are interchanged; leaves all other positions alone |
| `DotProduct.LowerEnd` | src/builder/dot.cpp:32-38 | the end is the smallest number of elements that a chunk has, at most the limit |
| `DotProduct.ScheduleIsIrrelevant` | src/builder/dot.cpp:28-57 | after any schedule of calls with growing inputs the chunk is complete for the last inputs: the schedule makes no difference |
| `DotProduct.NextCall` | src/builder/dot.cpp:97-133 | finished positions stay right when the inputs grow |
| `ScannedSeries.Compute` | src/series/type/scannedseries.h:63-90 | a chunk continues the scan from its own last value or from the full chunk before it, as far as all inputs are known; finished values never change |
| `ScanOperators.ClampedSumIsRise` | src/builder/scan.cpp:30-34 | the clamped sum is the prefix sum minus the least prefix sum so far, 0 included |
| `ScanOperators.MonotonifyIsMaximum` | src/builder/scan.cpp:40-42 | the running maximum, but never below 0, since the starting infinity counts as 0 |
| `ScanOperators.FwdFillIsLastNonZero` | src/builder/scan.cpp:36-38 | the last finite input other than 0 |
| `ScanOperators.DecayingSumIsWeighted` | src/builder/scan.cpp:4-15 | the geometrically weighted sum of the inputs |
| `ScanOperators.DecayingSumStaysBetween` | src/builder/scan.cpp:4-15 | for a rate in [0, 1] the sum stays within any bounds around 0 that hold the inputs |
| `ScanOperators.VaryingAgrees` | src/builder/scan.cpp:17-19 | the form with a series of rates agrees when the rates are constant |
| `ScanOperators.NotFiniteCountsAsZero` | src/builder/scan.cpp:61-76 | inputs that are not finite count as 0, whatever the operator |
| `ScanOperators.PairedRows` | src/builder/scan.cpp:17-19 | the rows that a scan with rates computes on are the input and then the rate |
| `JsonsDiff.Comparer.OnLine` | util/jsonsDiff.js:54-62 | the line is compared if and only if the other file has it already; the comparisons so far stay in order |
| `JsonsDiff.Comparer.CmpLines` | util/jsonsDiff.js:34-43 | a line that is missing or not equal counts as one difference, and one of the first ten is shown from both sides unless the value there counts as false |
| `JsonsDiff.Comparer.Finish` | util/jsonsDiff.js:68-78 | compares the rest of the longer file, and reports truncation beyond ten differences |
| `JsonsDiff.Compare` | util/jsonsDiff.js:33-78 | every line that is not in both files or not equal there counts, in order; the first ten are printed from both files; the code is 1 if there is any; all that depends on the two files only, not on how their lines were interleaved |
| `JsonsDiff.DifferencesAre` | util/jsonsDiff.js:34-43 | the count is the number of lines that differ, and what is printed are the first ten of them |
| `JsonsDiff.TailDiffers` | util/jsonsDiff.js:69-73 | the length difference counts in full |
| `JsonsDiff.PrintedReports` | util/jsonsDiff.js:36-39 | at most ten differences are shown, each a line that differs, from the file it says |
| `ContextBuilder.Builder.RegisterConstructor` | src/jw_util/contextbuilder.h:12-20 | the new constructor is live, last, and no other changes |
| `ContextBuilder.Builder.RemoveConstructor` | src/jw_util/contextbuilder.h:22-29 | the constructor is no longer live and the others keep their order; the entry stays in place |
| `ContextBuilder.Builder.DropNoops` | src/jw_util/contextbuilder.h:33 | keeps the live constructors in order |
| `ContextBuilder.Builder.BuildAll` | src/jw_util/contextbuilder.h:31-39 | while constructors register and remove others, the calls and what is live in the end are those of a list from which removed ones vanish at once: every entry, those added in the pass included, is called, or was removed when no entry from it on had been called; calls are in registration order, none twice and none after removal |
| `ContextBuilder.Builder.GetSize` | src/jw_util/contextbuilder.h:41-43 | the number of live constructors |
| `ContextBuilder.LiveCount` | src/jw_util/contextbuilder.h:41-43 | live constructors have different types, and the entries that are not noops count them |
| `ContextBuilder.ViewRemove` | src/jw_util/contextbuilder.h:22-29 | a noop in place of an entry, before or after the cursor, is the type taken out of the list |
| `ContextBuilder.ViewRegister` | src/jw_util/contextbuilder.h:12-20 | a new entry is a type at the end of the list |
| `ContextBuilder.TurnSkipped` | src/jw_util/contextbuilder.h:36-38 | an entry that is a noop at its turn was removed before any call from it on |
| `ContextBuilder.PassCalls` | src/jw_util/contextbuilder.h:36-38 | calling an entry that was not removed keeps the order and respects removals |
| `ContextBuilder.PassRemoves` | src/jw_util/contextbuilder.h:22-29 | removing an entry in the middle of a pass keeps the state of the pass |
| `GarbageCollector.Collector.Enqueue` | src/series/garbagecollector.h:80-112 | the chunk is last in the ring, moved there if it was in it already, and the others keep their order |
| `GarbageCollector.Collector.Dequeue` | src/series/garbagecollector.h:114-136 | the chunk leaves the ring and its pointers are cleared; the others keep their order |
| `GarbageCollector.Collector.IncRefs` | src/series/chunkbase.cpp:126-133 | a chunk that is referred to leaves the ring; the counts cover what the computers hold |
| `GarbageCollector.Collector.DecRefs` | src/series/chunkbase.cpp:134-142 | the last reference given back puts a transient chunk at the end of the ring |
| `GarbageCollector.Collector.ReleaseComputer` | src/series/chunkimpl.h:58-67 | destroying a computer gives back all it holds, and exactly the chunks left without a reference enter the ring, in that order |
| `GarbageCollector.Collector.Destroy` | src/series/chunkimpl.h:20-36 | a chunk without references gives back its memory and what its computer holds, and leaves the ring; no computer held it |
| `GarbageCollector.Unused` | src/series/chunkbase.cpp:126-146 | a chunk without references is held by no computer |
| `GarbageCollector.EnteringIff` | src/series/chunkbase.cpp:134-142 | a transient chunk enters, and only once, exactly when all references to it are given back |
| `GarbageCollector.Collector.RunGc` | src/series/garbagecollector.h:58-78 | frees chunks from the front of the ring, as many as needed to come within the limit and no more; chunks enter at the back when the last computer holding them goes, and are freed in their turn; the ring is the old one and those that entered, without those that went |
| `GarbageCollector.Collector.NothingDangles` | src/series/garbagecollector.h:58-78 | no computer holds a chunk that was freed |
| `GarbageCollector.Collector.UpdateMemoryUsage` | src/series/garbagecollector.h:43-52 | only an increase makes chunks go |
| `GarbageCollector.Collector.EnqueuedIff` | src/series/garbagecollector.h:21-24 | a chunk is in the ring exactly when its pointers are set |
| `ReductionHeap.BuildRanges` | src/series/type/lastnseries.h:31-48 | the table holds one range for every place, and range2index of the k-th range is k |
| `ReductionHeap.TableIsComplete` | src/series/type/lastnseries.h:50-63 | index2range and range2index are inverse to each other, and every aligned range has a place |
| `ReductionHeap.IndexIs` | src/series/type/lastnseries.h:56-63 | end minus the bit count of start counts the ranges that end before it |
| `ReductionHeap.EndingBeforeIs` | src/series/type/lastnseries.h:31-47 | how many ranges end before a position: the position without its digit sum |
| `ReductionHeap.HalvesAt` | src/series/type/lastnseries.h:88-93 | the halves of a range stand one place and half its size before it |
| `ReductionHeap.Compute` | src/series/type/lastnseries.h:78-101 | each entry is the reduction of its range, computed as far as the elements are known; the loop runs past the table exactly when the whole chunk is known |
| `ReductionHeap.ReducedIsFold` | src/series/type/lastnseries.h:88-93 | for an associative operator the reduction is the fold from left to right |

## Left out

- Rounding, overflow to infinity and the transforms themselves: products of transforms are taken as exact circular convolutions, scans and the solver run over exact numbers (`DotProduct` uses no law of arithmetic at all).
- The configuration of the convolution other than the one plan in `zpts1.h`, caching of transforms, and the interplay of NaN marks with the sums: transforms take such an input as 0, and a marked output stays marked when products are added.
- ConvolutionNan.Run: how many outputs a call finishes is arbitrary, within what has arrived; `Convolution.Run` says when it is all of them.
- `inflate` with a root path, objects besides arrays, user objects with a `$ref` key, `toJSON`, and arrays shared by identity: the hash cache is keyed by value. Text escaping and number printing of JSON are not modelled; SHA-256 is an arbitrary digest.
- `parseInt` on text other than decimal digits.
- `mul` compares nodes by identity, here by value: both forms mean the same. Rounding in casts to float and double is not modelled.
- DrawLists.PerformAll: `OnChangedVtxOffset` does not compare headers; where a vertex range begins at the offset of the last one, a command may come after one it could have continued.
- Assertions of the drawing code count as no-ops, as in release builds. Vertices, colours and text are not modelled beyond the indices that name them; `PrimWriteIdx` and `PrimWriteVtx` are inline functions of imgui.h, which is not part of this model, and are taken by their uses; which vertex an index of another channel names is not tracked by `Splitting`.
- SplitterRuns.DrawSplit: indices that are reserved but not written are zeros, where the source leaves what the memory holds.
- Decompress.Decoder.CopyLiteral: the test against the start of the input cannot fail and is left out; reading beyond the input is an outcome of its own, since the decoder has no length to check.
- Wrap-around of counters and sizes beyond 32 bits, except where a lemma says so.
- ArcSampler.Path.ArcToFast: the formula behind the counts of segments, in imgui_internal.h, is a parameter; differences of sample numbers do not overflow.
- Intervals.IntervalSet.Insert: `remove` and `intersects` of the same class are not used by the buffer and left out.
- GL calls, vertex array setup and the listeners of `sync`. What a new buffer or slot holds is arbitrary.
- SplitBuffers.SplitBuffer.Destroy: freeing a slot that is not live is ruled out; the source does not check it.
- ErasableQueue.Queue.Push: the linked list is a sequence of nodes with addresses, its unlinking a search by address.
- Bitset.Bitset.Fill: a bitset of size 0 has no word to mask and is ruled out.
- BitInterface.BitInterface.WriteBit: what shifting an `int` by 32 or more places gives is left open by the language, and a parameter here; shifts in `read_number_raw` stay within the number type. The Huffman codes and `advance_bits` are left out.
- DotProduct.ComputeChunk: the lambdas for a series times numbers, numbers times a series and two series are one method over operands of either kind.
- ScannedSeries.Compute: chunks are created, notified and scheduled elsewhere; the contract holds whenever a call is made. The operators `cum_prod`, `cum_log_sum_exp`, `slow_pass_zero` and `scan_if` are left out.
- JsonsDiff.Compare: `isFuzzyEqual` is a parameter; it throws for `null` against a non-empty object, which is not modelled.
- ContextBuilder.Builder.BuildAll: what a constructor does to the builder is a list of actions; registering twice and removing what is not there, against which the source asserts, do not happen. The types are numbers.
- GarbageCollector.Collector.RunGc: one level, as configured. The references that a computer holds are a list, given back in its order. The dependents of a chunk, the list of chunks of a series, and threads are not modelled.
- ReductionHeap.Compute: the rest of `LastNSeries` is unfinished in the source and left out.
- The resolver, the program builder, the window, shaders, command line and remaining operator tables: long but without a promise that spans several functions.
