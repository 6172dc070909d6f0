# Verified model of the firmware's algorithms

A Dafny model of the parts of the firmware in which correctness is an algorithm and not a
register value: the heap allocator, the lowering of convolutions to the matrix engine,
the integer language model with its key-value cache, non-maximum suppression, byte-pair
encoding and the XMODEM receiver.

| modules | what they model |
|---|---|
| HeapModel, Heap | the best-fit allocator: a specification on the sequence of physical blocks, and a class that performs the pointer writes on in-band headers in a memory map and is proved to agree with it |
| Sums, Layout, Strides, Scatter | finite sums, the NC1HWC2 and 32 x 32 weight layouts, where the descriptors' strides lead, filling a buffer place by place |
| Conv, Deconv, DeconvRef, DeconvLayout | grouped convolution through block-diagonal weights; transposed convolution by scatter (the loops) and by lowering |
| TiledMatmul, YoloConv, YoloConvNpu | splitting a matmul into tiles; blocked im2col convolution on the device buffers |
| Quant, Attention, Sigmoid, Tables | integer square root, requantisation, softmax weights, the two tables and what they tabulate |
| Prefix, Generation, LlmSpec | the network without a cache, as functions |
| LlmOps, LlmMatmul, LlmAttention, LlmCache, Llm | the same on buffers and flat cache arrays, as the code does it |
| LlmLaws | what each tensor of a layer is for: gate and up, query, key and value, norms, rotation, penalty |
| LlmEngine | the engine branch of the model's matmul, and when it agrees with the processor branch |
| Nms, NmsLoop | greedy suppression, its uniqueness, the reference and the loop |
| Bpe, BpeLoop | encoding and decoding, round trip and normal form, the loops |
| Bits, Checksum, Remainder, XmodemSpec, XmodemSafety, Xmodem | CRC-16 and the polynomial it is the remainder by, the receiver, a sender with a lossy and silent channel |

Pure expressions are functions; code that changes state is a method or class proved against
a function, and the properties are proved about that function. `hide` statements only keep
definitions out of the prover's sight where a proof does not need them.

## Premises

- Heap: one thread; a pointer to free is NULL, live, outside the heap, or one whose header
  still reads as free; heap start plus size stays below 2^64. Allocation sizes are not
  restricted: what happens when MEM_ALIGN wraps is stated exactly.
- NPU: the engine is a specification over mathematical integers (`Conv.AccumulatorFits`
  gives the 32-bit condition). It reads weights through their layout and features where the
  descriptor's strides point, in convolutions and matmuls alike: the plane stride is taken
  as line stride plus surface stride, in units of 16 bytes.
- Transposed convolution: nonempty true output and `Fits`, no descriptor field narrowed;
  `RegionCoveredIff` shows that this is exactly when the output region is covered.
- Weight layouts: kh * kw * in_c a multiple of 32 or at most 32 output channels, which by
  `WeightsDistinctIff` is exactly when no two weights share a place.
- Language model: tensors have the sizes the configuration implies, query heads are a
  multiple of key-value heads, widths and vocabulary stay within the 4096 elements and the
  context within the 512 positions of the static scratch arrays, tokens are in the
  vocabulary and prompt plus limit do not exceed the cache. Work buffers and caches may hold
  anything. Scales are 32-bit; raw scores, the softmax index and the activation product are
  computed in 64 bits and wrap, as two's-complement instructions do.
- Suppression: at most 512 boxes, as decode produces.
- XMODEM: the channel keeps frame boundaries and does not forge an ACK; it may damage payload
  and checksum, but not into another block with its own checksum. Silence before a frame,
  and before the end of the transfer, may last any number of read attempts.

## Where code and its documentation differ

Each promise below fails for some inputs; beside it stand the exact condition under which it
holds and a lemma at a concrete input where it does not.

| promise | holds exactly when | fails at |
|---|---|---|
| the repetition penalty lowers a logit (src/llm/llm_forward.c:285-293) | the logit is positive; it is not raised from -1 up (`PenaltyLowersIff`); every logit is halved, negative ones too (`PenaliseHalves`) | -2 becomes -1 |
| rotation at position 0 is the identity (src/llm/llm_forward.c:164) | every rotated element lies between -127 and 0 (`RotatedSameIff`, `RopeIdentityIff`) | 100 becomes 99 |
| a granted block holds the request | the request is at most 2^64 - 64 (`GrantCoversIff`) | `WrappedRequestGranted` |
| the residual add stays within half a step and 127 units | the largest sum is below 127 * 2^32 (`AllStandIff`) | `LargestSumFails` |
| the output scale of a product stands for its accumulators | the largest product is below 127 * 2^52 (`MatVecStandsIff`); to check before the call: `ProductWithin` | `WrappedScaleFails` |
| data and weights of a tile fit the 12 banks | not both dimensions exceed 65504 (`TileFitsIff`) | `WideIsAccepted` |
| the grouped and depthwise lowerings convolve | at most 16 channels, a height that is a multiple of 4, one pixel, or no output that looks at a pixel (`GroupedLoweringIff`) | `SevenBySevenFails` |
| the output bytes are the accumulators times 127 over their maximum, at one scale (src/llm/llm_matmul.c:67-69) | the first row holds the largest magnitude, so for a single row always (`OneScaleIff`) | `SecondRowLarger` |
| the generated tiles multiply | m is a multiple of 4, m is 1, or k is at most 16 (`TilesMultiplyIff`) | `FetchMisses` |
| yolo_conv_npu convolves | every lane is served by its own element (`ConvolvesIff`); without padding: K is at most 16, M a multiple of 4, or M one more than a multiple of 1024 (`UnpaddedConvolvesIff`); with it also when the last block is blank (`PaddedConvolvesIff`) | `FiveWideFails` |
| the generated convolution covers the true output | no descriptor field was narrowed (`RegionCoveredIff`) | `TallIsLost` |
| a higher score gets no smaller weight | spread * 32 + denom / 2 is below 2^63 (`OrderKeptIff`); to check before the call: `ScoresWithin` | `FarScoreWins` |
| the activation is silu times up | the product fits 64 bits (`ActivatedExactIff`) | `ActivationWraps` |
| engine and processor branch of the matmul agree | K is a multiple of 32 or there are at most 32 kernels, and the rows are a multiple of 4, one, or of at most 16 lanes (`BranchesAgreeIff`) | `OneLaneLoses`, `EngineMisses` |

The guards against a zero root and a zero weight sum (src/llm/llm_forward.c:80, 215) never
act; the methods leave them out, and `RootOfSmall` and `BestGets1024` say why. The guard
against a negative table index (line 209) acts when a step wraps (`GuardActs`) and only then
(`StepsExact`).

## Model

| member | source | states |
|---|---|---|
| HeapModel.RunsAreSafe | src/mem/t_mem.c:65-264 | After any run of allocations and frees from a fresh heap, live allocations lie inside the heap on 64-byte boundaries and no two share a byte, headers included. |
| HeapModel.RunsCoverRequests | src/mem/t_mem.c:65-264 | After any run from a fresh heap, with a ledger of the request behind each pointer handed out and not freed: the ledger lists exactly the live allocations, and each is as large as its request if and only if that is at most 2^64 - 64. |
| HeapModel.RunKeepsInv | src/mem/t_mem.c:65-264 | Every run keeps the headers tiling the heap from start to end, no two neighbours both free, every header 64-byte aligned. |
| HeapModel.BestFit | src/mem/t_mem.c:203-214 | The chosen block is free and sufficient, smaller than any other sufficient block, the lowest on ties; none is chosen only if none suffices. |
| HeapModel.AllocFailsIff | src/mem/t_mem.c:194-219 | A nonzero request gets NULL if and only if no run of bytes clear of live blocks can hold a header and the aligned size. |
| HeapModel.BestFitExistsIffRoom | src/mem/t_mem.c:200-219 | A sufficient free block exists if and only if some window of header plus size meets no live block: no fragmentation beyond what coalescing already removed. |
| HeapModel.AllocAddsOne | src/mem/t_mem.c:175-234 | A successful allocation adds exactly one live allocation, where none was, of at least the aligned size and at most 128 bytes more; a failed one changes nothing. |
| HeapModel.SplitIff | src/mem/t_mem.c:175-189 | The chosen block is split exactly when more than 128 bytes are to spare, and the grant is then the aligned size; any other block is granted whole. |
| HeapModel.AlignCoversIff | src/mem/t_mem.c:16-16 | MEM_ALIGN covers the request if and only if it is at most 2^64 - 64; above that it wraps to 0. |
| HeapModel.GrantCoversIff | src/mem/t_mem.c:194-234 | A granted block is as large as the request if and only if the request is at most 2^64 - 64: the exact condition under which the size promise holds. |
| HeapModel.WrappedRequestGranted | src/mem/t_mem.c:194-234 | At one input it fails: the largest size_t asked of a 4096-byte heap is granted 0 bytes at its first payload. |
| HeapModel.LiveDisjoint | src/mem/t_mem.c:18-49 | In every state of the invariant two live allocations are disjoint, inside the heap and 64-byte aligned. |
| HeapModel.SpliceKeepsInv | src/mem/t_mem.c:149-189 | Replacing a stretch of blocks by others of the same extent keeps the invariant if the new ends do not meet a free neighbour while free. |
| HeapModel.ReleaseKeepsInv | src/mem/t_mem.c:239-264 | Freeing a live block, merged with both free neighbours, keeps the invariant. |
| HeapModel.ReleaseRemovesOne | src/mem/t_mem.c:239-264 | Freeing removes exactly the freed allocation from the live ones. |
| HeapModel.NothingLive | src/mem/t_mem.c:77-82 | With nothing live the heap is the single free block of t_mem_init. |
| HeapModel.FreeingAllRestores | src/mem/t_mem.c:149-170 | From any state of the invariant, freeing every live pointer in any order, repeats included, restores the single initial free block. |
| HeapModel.BytesAddUp | src/mem/t_mem.c:269-299 | Free bytes and used bytes, headers included, add up to the heap size. |
| Heap.TMem.constructor | src/mem/t_mem.c:65-86 | From any raw start address the heap begins at the next 64-byte boundary as one free block and the invariant holds. |
| Heap.TMem.RemoveFromFreeList | src/mem/t_mem.c:91-105 | The block leaves the doubly linked, address-ordered list; only links of list members change. |
| Heap.TMem.AddToFreeList | src/mem/t_mem.c:110-144 | The block enters at its address order; the list stays a well-formed doubly linked list of exactly the old members and it. |
| Heap.TMem.FindBestFit | src/mem/t_mem.c:203-214 | The list scan returns the address of the best fit of the block sequence, or 0 when there is none. |
| Heap.TMem.SplitBlock | src/mem/t_mem.c:175-189 | A remainder above 128 bytes becomes a new free header, listed; otherwise nothing changes. |
| Heap.TMem.Absorb | src/mem/t_mem.c:152-169 | Fusing two physically adjacent free blocks: the second header leaves the list, the first gets its bytes, the tiling is that of the fused blocks. |
| Heap.TMem.MergeFreeBlocks | src/mem/t_mem.c:149-170 | Both merges together fuse the block with exactly its free neighbours. |
| Heap.TMem.Malloc | src/mem/t_mem.c:194-234 | The in-band implementation returns what the block-sequence specification returns, leaves its blocks, keeps list, tiling and coalescing, and touches no byte of a live payload. |
| Heap.TMem.Free | src/mem/t_mem.c:239-264 | Frees exactly the live block at the pointer (NULL, foreign and already-free pointers change nothing), restores the invariant and touches no byte of another live payload. |
| Heap.TMem.Stats | src/mem/t_mem.c:269-299 | Total is used plus free, free is the sum over free blocks with headers, used the sum over live ones, and the count is the number of free blocks. |
| Heap.TMem.ClientWrite | src/mem/t_mem.c:230-233 | A caller writing anywhere inside a live payload cannot break the invariant. |
| Heap.UnlinkLists | src/mem/t_mem.c:91-105 | The four pointer writes of a removal leave the list without that element. |
| Heap.LinkLists | src/mem/t_mem.c:131-143 | The pointer writes of an insertion leave the list with that element in place. |
| Heap.Predecessor | src/mem/t_mem.c:162-169 | The list predecessor touches a free block if and only if the block physically before it is free, so the code may look for it in the list. |
| Heap.FusesMakeRelease | src/mem/t_mem.c:149-170 | Merging ahead and then behind is the specified release. |
| Heap.ScanFindsBestFit | src/mem/t_mem.c:207-214 | The best of the whole list is the best of all blocks. |
| Heap.WriteKeepsFaithful | src/mem/t_mem.c:230-233 | No header lies inside a live payload. |
| Heap.ListAccounts | src/mem/t_mem.c:276-298 | Sums over the list are sums over the free blocks. |
| Layout.FeatureInjective | src/npulib/npu_matmul.c:653-660 | No two elements of a feature cube share a place, for any shape and lane count. |
| Layout.FeatureInRange | src/npulib/npu_matmul.c:653-660 | Every element of a cube lies in a buffer of whole planes. |
| Layout.WeightInjective | src/npulib/npu_matmul.c:674-682 | No two weights share a place when the channel count is a multiple of 32 or there are at most 32 kernels. |
| Layout.WeightsDistinctIff | src/npulib/npu_matmul.c:674-682 | The weight layout is free of collisions if and only if the channel count is a multiple of 32 or there are at most 32 kernels. |
| Layout.WeightInRange | src/npulib/npu_matmul.c:674-682 | Every weight lies in a buffer with both counts padded to multiples of 32, whatever the channel count. |
| Layout.ConvWeightInjective | src/npulib/npu_conv2d.c:407-416 | No two convolution weights share a place when kh * kw * in_c is a multiple of 32 or there are at most 32 output channels. |
| Layout.ConvWeightInRange | src/npulib/npu_conv2d.c:407-416 | Every convolution weight lies in the padded buffer, for every shape. |
| Layout.WeightWalk | src/npulib/npu_matmul.c:674-682 | Weights are laid down 32 channels of a kernel at a time, kernel after kernel to 32, then the next 32 channels of the same kernels, then the next 32 kernels. |
| Layout.ConvWeightWalk | src/npulib/npu_conv2d.c:407-416 | The channels of a convolution kernel run over input channels, then columns, then rows. |
| Strides.FetchInPlaceIff | src/npulib/npu_conv2d.c:88-90 | Line and surface stride reach every lane of every pixel of a cube at its place in the layout if and only if its height is a multiple of 4, it is a single pixel, or all lanes lie in one plane of 16. |
| Conv.AccumulatorFits | src/npulib/npu_matmul.c:600-606 | Fewer than 2^17 products of signed bytes fit the 32-bit accumulator. |
| Conv.KernelFitsIff | src/npulib/npu_conv2d.c:33-34 | The output has a row and a column for every place at which the kernel lies within the padded image, and no other. |
| Conv.GroupsDivideIff | src/npulib/npu_conv2d.c:345-352 | A grouped convolution is handed over if and only if input and output channels both fall into that many groups, 0 groups counting as one. |
| Conv.BlockDiagonalIsGrouped | src/npulib/npu_conv2d.c:315-343 | A plain convolution with the block-diagonal expansion of a grouped kernel is the grouped convolution, for every group count dividing both channel counts. |
| Conv.GroupedLayoutHolds | src/npulib/npu_conv2d.c:358-381 | With kh * kw * in_c a multiple of 32 or at most 32 output channels, scattering the compact weights through the layout into a zeroed buffer leaves exactly the block-diagonal kernel: each weight at its place and zeros off the diagonal. |
| Conv.GroupedLoweringExact | src/npulib/npu_conv2d.c:345-381 | With weight places distinct, and at most 16 channels, a height that is a multiple of 4 or a single pixel, the engine, fetching by its strides and reading that buffer, computes the grouped convolution of the laid-out image and the compact weights at every output element. |
| Conv.FetchesLaidOut | src/npulib/npu_conv2d.c:88-90 | Under that condition on channels and height the fetched image is the laid-out one, zeros outside it included. |
| Conv.GroupedLoweringIff | src/npulib/npu_conv2d.c:88-90 | For a geometry and group count: the engine computes the grouped convolution for every image and all weights if and only if that condition holds or no output looks at any pixel. |
| Conv.SevenBySevenFails | src/npulib/npu_deconv.h:83-97 | A concrete layer outside the condition, 32 channels of 7 x 7 in two groups, that is handed over: channel 16 of the first pixel is fetched where channel 0 of row 4 lies, and an output of the second group is 1 in place of 0. |
| Conv.DepthwiseIsGrouped | src/npulib/npu_conv2d.c:424-427 | The depthwise layout is the grouped layout with one group for each channel, so the grouped result covers it. |
| Deconv.GatherIsScatter | src/npulib/npu_deconv.c:24-31 | Along one axis, summing over inputs what they scatter to a position equals summing over kernel taps what they gather there. |
| Deconv.PickIsTap | src/npulib/npu_deconv.c:24-31 | The same for both axes and all channels. |
| Deconv.LoweringIsScatter | src/npulib/npu_deconv.c:71-132 | For all shapes, strides, pads and output paddings, a stride-1 convolution of the dilated input with the flipped, channel-swapped kernel equals the scatter-add transposed convolution. |
| DeconvRef.AddKernelRow | src/npulib/npu_deconv.c:56-62 | The innermost loop adds the row of products of one input pixel, skipping columns outside the output. |
| DeconvRef.AddPixel | src/npulib/npu_deconv.c:51-64 | One nonzero input pixel adds its products at every output position it reaches and nowhere else. |
| DeconvRef.ScatterPixel | src/npulib/npu_deconv.c:47-64 | The running output goes from the pixels before this one to those up to it; skipping a zero pixel changes nothing. |
| DeconvRef.ScatterChannel | src/npulib/npu_deconv.c:46-66 | The loops over rows and columns cover one input channel. |
| DeconvRef.DeconvInt8Ref | src/npulib/npu_deconv.c:32-68 | The scatter loops leave in Y the transposed convolution at every output position, whatever Y held before. |
| DeconvLayout.RegionCoveredIff | src/npulib/npu_deconv.h:153-168 | The generated convolution covers the whole true output if and only if no descriptor field was narrowed to 8 or 16 bits. |
| DeconvLayout.RejectedIff | src/npulib/npu_deconv.c:90-99 | A layer is handed over if and only if on every side the padding is smaller than the kernel, output padding counted on the far sides; otherwise the code is -3. |
| DeconvLayout.TallIsLost | src/npulib/npu_deconv.h:153-168 | A concrete layer, 258 rows at stride 255, for which the narrowed height is 0 and none of the 65536 output rows is produced. |
| DeconvLayout.DoublingIsLowerable | src/npulib/npu_deconv.h:153-168 | The premises of the lowering describe real layers: 32 channels of 2 x 2 doubled at stride 2 meet them. |
| DeconvLayout.AlignedInPlace | src/npulib/npu_deconv.h:87-112 | The height handed over, aligned to 4, is one whose strides reach every lane, whatever was narrowed. |
| DeconvLayout.UnalignedOutOfPlace | src/npulib/npu_deconv.h:87-112 | With the dilated height itself, when that is no multiple of 4 and the cube not a single pixel, lane 16 of every pixel would be fetched from elsewhere. |
| DeconvLayout.FetchesDilated | src/npulib/npu_deconv.h:87-151 | Wherever the engine looks, in the padding and the align-4 rows and columns included, its strides lead it to the dilated, zero-extended input, for every channel count and kernel. |
| DeconvLayout.FetchesFlipped | src/npulib/npu_deconv.c:77-81 | With kh * kw * in_c a multiple of 32 or at most 32 output channels, weights placed by deconv_weight are read back flipped by 180 degrees with channels exchanged. |
| DeconvLayout.DeconvLoweringExact | src/npulib/npu_deconv.c:87-132 | Under the same condition, through both memory layouts the lowered convolution equals the scatter-add reference at every position of the true output, which lies inside the generated one. |
| TiledMatmul.GenTiled | src/npulib/npu_matmul.c:495-650 | Returns -2 when the weights take all banks, -1 when no 4 rows fit, otherwise the descriptor of one tile or a partition of the rows into tiles of at most the limit, as many as that needs. |
| TiledMatmul.MaxRowsIff | src/npulib/npu_matmul.c:507-521 | The limit is the largest multiple of 4, up to 512, whose data banks and the weight banks fit the 12 banks together, and 0 when there is none. |
| TiledMatmul.WeightsFill | src/npulib/npu_matmul.c:502-502 | The weights occupy those bytes: their layout needs as many, and with whole 32 x 32 tiles its last byte is used. |
| TiledMatmul.SplitRows | src/npulib/npu_matmul.c:528-647 | The tile loop produces ceil(m / max_m) tiles whose row ranges follow one another from 0 to m. |
| TiledMatmul.RowInOneTile | src/npulib/npu_matmul.c:531-533 | Every row lies in exactly one tile. |
| TiledMatmul.WeightBytesWrapIff | src/npulib/npu_matmul.c:502-502 | The 32-bit weight size is right if and only if not both dimensions exceed 65504; then it wraps to 0. |
| TiledMatmul.TileFitsIff | src/npulib/npu_matmul.c:502-566 | A tile's data banks and the weight banks fit the 12 CBUF banks together if and only if the weight size did not wrap. |
| TiledMatmul.WideIsAccepted | src/npulib/npu_matmul.c:502-566 | A concrete matmul, 8 rows by 65535 lanes by 65535 kernels, that is accepted in tiles of 4 rows although its weights need 131072 of the 12 banks. |
| TiledMatmul.FetchInPlaceIff | src/npulib/npu_matmul.c:582-588 | A tile's rows are fetched from their places in the full cube if and only if m is a multiple of 4, m is 1, or all lanes lie in one plane (k at most 16). |
| TiledMatmul.StoreInPlace | src/npulib/npu_matmul.c:607-608 | Tile outputs are always stored at their places in the full output cube. |
| TiledMatmul.TileRuns | src/npulib/npu_matmul.c:582-608 | For any m, running one tile stores for each of its rows the dot product of what the descriptor's strides fetch, and leaves all other rows alone. |
| TiledMatmul.TilesRunAll | src/npulib/npu_matmul.c:528-647 | For any m, running all tiles in order leaves in every row the dot product of what the descriptors' strides fetch for it. |
| TiledMatmul.TilesMultiplyIff | src/npulib/npu_matmul.c:495-650 | Running the generated tiles leaves the untiled matmul in every row, for all feature and weight buffers, if and only if m is a multiple of 4, m is 1, or k is at most 16. |
| TiledMatmul.FetchMisses | src/npulib/npu_deconv.h:83-97 | Otherwise two buffers holding a single 1 each show it: row 0 comes out as 1 in place of 0. |
| YoloConv.PatchDotIsConvolution | src/yolo/yolo_conv.c:16-25 | A dot product over the padded patch, zero past the real lanes, is the direct convolution. |
| YoloConv.OutputsFit | src/yolo/yolo_conv.c:136-137 | The output has a row and a column for every place of the kernel within the padded image, and no other. |
| YoloConv.PrelayoutConvWeight | src/yolo/yolo_model.c:24-58 | The weight buffer holds every weight at the place the padded matmul reads it, and zeros at the places of the padding lanes. |
| YoloConv.WeightPlacesDistinct | src/yolo/yolo_model.c:45-55 | Padding the channel count to a multiple of 32 keeps all weight places distinct. |
| YoloConv.FeatPlaceIsLayout | src/yolo/yolo_conv.c:163-171 | The closed form kbase[k] + 16 * row is the feature layout of the padded block. |
| YoloConv.FillOne | src/yolo/yolo_conv.c:186-191 | Writing one im2col element overwrites no other element. |
| YoloConvNpu.OutPlaceIsLayout | src/yolo/yolo_conv.c:202-208 | The closed form nbase[n] + 4 * row is the output layout of the padded block. |
| YoloConvNpu.BlockIsDevice | src/yolo/yolo_conv.c:173-198 | With the im2col block and the prelaid weights in place, what the engine computes for a row and kernel is the weighted sum of the image elements that its fetches really reach, zero-pad edges and padded lanes included. |
| YoloConvNpu.ConvolvesIff | src/yolo/yolo_conv.c:130-218 | For a given shape, the result is the direct convolution for every input and all weights if and only if every lane of every output pixel is served by its own image element. |
| YoloConvNpu.AlignedIsStraight | src/yolo/yolo_conv.c:155-161 | That is so when K is at most 16, M a multiple of 4, or M one more than a multiple of 1024. |
| YoloConvNpu.UnpaddedConvolvesIff | src/yolo/yolo_conv.c:155-161 | And without image padding only then. |
| YoloConvNpu.PaddedConvolvesIff | src/yolo/yolo_conv.c:155-191 | With any image padding, unless the last block has just three rows: exactly then, or when in the last block every lane from the second plane on, and every lane that serves one of those, stands in the padding. |
| YoloConvNpu.OneLineIsBlank | src/yolo/yolo_conv.c:155-191 | A concrete shape of the second kind, a 3 x 3 kernel with padding 1 over two channels of a single line, that is not aligned and convolves. |
| YoloConvNpu.LayerCodeIs | src/yolo/yolo_conv.c:51-161 | For every layer, the code it returns: -2 when the padded weights take all 12 banks, -10 when they leave no room for tiles of which 32 do for the first 1024 rows, 0 otherwise; a condition on K, N and the rows of the first block alone. |
| YoloConvNpu.FiveWideFails | src/yolo/yolo_conv.c:51-124 | A concrete shape outside the condition, a 1 x 1 convolution of 32 channels over five pixels, that is accepted and yields 1 where the convolution is 0. |
| YoloConvNpu.YoloModel.PixelAt | src/yolo/yolo_conv.c:183-190 | A pixel is read inside the image only; outside it is 0. |
| YoloConvNpu.YoloModel.Im2col | src/yolo/yolo_conv.c:163-195 | The block loops fill the feature buffer with the patches of the block, zeros in the padding, whatever it held before. |
| YoloConvNpu.YoloModel.RunMatmul | src/yolo/yolo_conv.c:51-124 | Returns the error of the tiling or -10 for too many tiles; on success the tiles just generated were submitted one by one, and the output buffer holds for every row and kernel the dot product of what their strides fetch. |
| YoloConvNpu.YoloModel.Readback | src/yolo/yolo_conv.c:205-214 | The readback loops move the block to its columns of every output row; every other column, earlier or later, is as it was. |
| YoloConvNpu.YoloModel.YoloConvNpu | src/yolo/yolo_conv.c:130-218 | For every shape, kernel, stride and pad within the buffers: on success out32 holds at every output element the weighted sum of what the engine fetched, and if K is at most 16, M a multiple of 4 or M one more than a multiple of 1024 that is the direct convolution, the partial last block included; otherwise the code of the first failing block is returned. |
| Quant.Isqrt | src/llm/llm_forward.c:26-37 | The Newton loop with its cap of 20 rounds returns exactly floor(sqrt x) below 2^20: the distance to the root halves every round. |
| Quant.RequantNearest | src/llm/llm_forward.c:51-64 | Requantisation rounds v * 127 / mx to nearest, half away from zero, never needs its clamps, and sends +-mx to +-127. |
| Quant.RequantMonotone | src/llm/llm_forward.c:51-64 | Requantisation preserves order. |
| Quant.RequantI8 | src/llm/llm_forward.c:53-64 | The loop writes the requantised elements and nothing behind them. |
| Quant.AbsMax64 | src/llm/llm_forward.c:40-49 | The loop computes the largest magnitude, at least 1. |
| Quant.ExtremesReach127 | src/llm/llm_forward.c:39-64 | The elements of largest magnitude become +-127. |
| Quant.AllStandIff | src/llm/llm_forward.c:115-128 | Every requantised element times its 32-bit scale is within mx / 254 + 127 of the exact sum if and only if mx is below 127 * 2^32, where the scale fits its 32 bits. |
| Quant.MaxDoesNotStand | src/llm/llm_forward.c:125-127 | From mx = 127 * 2^32 on, the largest element already breaks that bound. |
| Quant.LargestSumFails | src/llm/llm_forward.c:115-128 | A concrete sum, two bytes of 127 at the largest scale, that comes out as 127 at a scale of about half its size. |
| Quant.AddRes | src/llm/llm_forward.c:116-128 | The residual add requantises the exact sum, in place or not. |
| Quant.AddResFits64 | src/llm/llm_forward.c:119-124 | No intermediate of the residual add leaves 64 bits, for all byte values and all 32-bit scales. |
| Attention.ExpLutDecreasing | src/npulib/npu_math.c:25-44 | The exponential table never rises and starts at 1024. |
| Tables.ExpLutIs | src/npulib/npu_math.c:25-44 | Entry d of the exponential table is 1024 times the d-th power of e^(-1/32), rounded to nearest, for every d. |
| Tables.SigmoidLutIs | src/npulib/npu_math.c:3-14 | Entry i of the sigmoid table is 255 / (1 + e^(-i/32)), rounded to nearest, less 128, for i from 0 to 127. |
| Tables.SigmoidLutMirrored | src/npulib/npu_math.c:15-22 | Entry 256 - i is 255 / (1 + e^(i/32)), rounded to nearest, less 128, for i from 1 to 128. |
| Tables.RatioIsExp | src/npulib/npu_math.c:25-27 | The ratio behind both is e^(-1/32) to 40 bits, between the sums of eight and of nine terms of its series. |
| Attention.BestGets1024 | src/llm/llm_forward.c:198-215 | The largest score looks up 1024, whatever wraps elsewhere, so the zero-sum guard never acts. |
| Attention.WeightsTotal | src/llm/llm_forward.c:216-217 | Attention weights sum to at most 65535 and to more than 65535 less the number of positions. |
| Attention.WeightsMonotone | src/llm/llm_forward.c:198-217 | A higher score never gets a smaller weight when the spread of the scores times 32 plus denom / 2 is below 2^63. |
| Attention.StepsFitIff | src/llm/llm_forward.c:204-212 | No step of the index computation leaves 64 bits for any score if and only if the spread of the scores times 32 plus denom / 2 is below 2^63. |
| Attention.StepsExact | src/llm/llm_forward.c:204-212 | Then the index is the rounded distance below the best score and the guard d < 0 is idle. |
| Attention.OrderKeptIff | src/llm/llm_forward.c:198-217 | For a given denominator and spread: every row of 64-bit scores within that spread keeps its order in the weights if and only if spread times 32 plus denom / 2 is below 2^63. |
| LlmSpec.FarScoreWins | src/llm/llm_forward.c:190-217 | A concrete row of three cached keys for which the worst score, 2^59 below the best, gets half the weight and a better one none. |
| LlmSpec.GuardActs | src/llm/llm_forward.c:209-210 | A score 2^58 below the best makes the index negative: there the guard d < 0 acts. |
| LlmSpec.ScoreExactIff | src/llm/llm_forward.c:186-196 | A raw score is the exact product of dot product and both scales if and only if that fits 64 bits. |
| LlmSpec.ScoresKeepOrder | src/llm/llm_forward.c:186-217 | If 16384 * dqkv times the query scale times the largest key scale is below 2^56, all scores of a head are exact, no step leaves 64 bits, and a higher exact score never gets a smaller weight. |
| LlmSpec.MixFits64 | src/llm/llm_forward.c:219-230 | Whatever the scores, no partial sum of the mixing loop leaves 64 bits, at any head, lane and sequence length. |
| LlmSpec.ActivatedExactIff | src/llm/llm_forward.c:257-260 | The activation is the exact product, shifted, if and only if the product fits 64 bits, which scales of product below 2^49 ensure; in any case it is below 2^43. |
| LlmSpec.ActivationWraps | src/llm/llm_forward.c:257-260 | At gate and up values of 127 with scales 2^31 it is not. |
| LlmSpec.DotBound | src/llm/llm_forward.c:192-195 | The 32-bit dot product of n signed bytes is at most 16384 * n, so within the scratch sizes it never wraps. |
| LlmSpec.RopeIdentityIff | src/llm/llm_forward.c:164-168 | With cosine 127 and sine 0, as at position 0, rotation leaves a vector unchanged if and only if every rotated element lies between -127 and 0. |
| LlmSpec.PenaltyLowersIff | src/llm/llm_forward.c:286-293 | The penalty does not raise a logit if and only if it is at least -1, and lowers it if and only if it is positive; -2 becomes -1. |
| LlmLaws.PenaliseHalves | src/llm/llm_forward.c:285-293 | Each recent choice halves the logit of its own token, rounding down whatever its sign, once for every time it occurs, and no other logit changes. |
| LlmLaws.RememberLast | src/llm/llm_forward.c:301-308 | After any run of choices the history is the last 16 of them, or all if there are fewer. |
| LlmLaws.FeedForwardGates | src/llm/llm_forward.c:236-273 | The feed-forward part adds the down projection of the wUp products, each times what is left of its wGate product: at least half of it and at most all where that is not negative, at most half where it is. |
| LlmLaws.LayerHalves | src/llm/llm_forward.c:152-274 | Attention comes first: a layer with a blank feed-forward norm, gate, up or down projection is its attention alone, one with a blank output projection its feed-forward part alone. |
| LlmLaws.ProjectionsBlank | src/llm/llm_forward.c:152-168 | Queries come from wq, keys from wk and values from wv, all from the residual normed with rmsAtt: blanking one blanks what comes from it. |
| LlmLaws.BlindAttention | src/llm/llm_forward.c:183-217 | A query of zeros, or keys of zeros, give every cached position the same weight. |
| LlmLaws.OnePosition | src/llm/llm_forward.c:219-231 | With a single position cached, attention reads its values exactly: the lane of the key-value head that the query head belongs to, times the value scale. |
| LlmLaws.ScoresLocal | src/llm/llm_forward.c:184-197 | The scores of a query head depend on its own lanes of the query, the lanes of its key-value head in the keys and the scales, and on nothing else. |
| LlmLaws.GroupRuns | src/llm/llm_forward.c:183-184 | Query heads share key-value heads in consecutive runs. |
| LlmLaws.DenominatorIs | src/llm/llm_forward.c:146-147 | Scores are divided by 2^40 times the whole part of the root of the head size. |
| LlmLaws.RmsIs | src/llm/llm_forward.c:71-80 | The mean square of a vector lies between the squares of its divisor and of the next number, unless it is below 1. |
| LlmLaws.NormedIs | src/llm/llm_forward.c:82-85 | A normed element times that divisor is element times weight times the weights' scale, to within the divisor. |
| LlmLaws.QuarterTurn | src/llm/llm_forward.c:93-112 | Rotation by a quarter turn moves the first half of a head to the second and the negative of the second to the first, each times 127/128 rounded down. |
| LlmLaws.PositionZero | src/llm/llm_forward.c:164-168 | A position whose table rows hold cosine 127 and sine 0 leaves queries and keys unchanged if and only if every rotated element lies between -127 and 0. |
| LlmLaws.AddsReals | src/llm/llm_forward.c:114-121 | The residual add adds the real values of both tensors, each with its own scale. |
| LlmLaws.EmbedIsRow | src/llm/llm_forward.c:148-150 | A token's embedding is its row of the embedding matrix, with the matrix's scale. |
| LlmLaws.LogitsBlank | src/llm/llm_forward.c:276-284 | The logits come from the residual normed with rmsOut and from the head: blanking either blanks them. |
| Attention.AttendBound | src/llm/llm_forward.c:219-230 | An output is no larger in magnitude than the largest value it averages, and for byte values with 32-bit scales no partial sum leaves 64 bits at any sequence length. |
| Prefix.ResidualCausal | src/llm/llm_forward.c:133-274 | In the cache-free network later tokens change nothing at earlier positions. |
| Prefix.KvsCausal | src/llm/llm_forward.c:170-175 | Nor do they change earlier keys and values. |
| LlmSpec.LayerIs | src/llm/llm_forward.c:152-274 | One layer of the cache-free recursion is the layer's function of its residual and of the keys and values of positions 0 .. pos, this one's included. |
| LlmSpec.Group | src/llm/llm_forward.c:183-184 | The key-value head of every query head exists. |
| LlmSpec.ArgMax | src/llm/llm_forward.c:295-300 | The chosen token is the first with the largest logit. |
| LlmSpec.Next | src/llm/llm_forward.c:276-300 | The chosen token is in the vocabulary. |
| LlmOps.RootMeanSquare | src/llm/llm_forward.c:71-80 | The loop gives the integer root of the mean square, at least 1. |
| LlmOps.RmsNormInto | src/llm/llm_forward.c:66-91 | Normalisation leaves the specified values and scale, also when it overwrites its input. |
| LlmMatmul.NpuMatmul | src/llm/llm_matmul.c:72-115 | For any number of rows: output, returned scale and raw accumulators are those of the row-by-row product with the running maximum that the code carries from row to row. |
| LlmMatmul.MultiplyRow | src/llm/llm_matmul.c:72-115 | On one row, as the forward pass uses it, output and scale are the requantised matrix-vector product, also when it overwrites its input. |
| LlmMatmul.OneScaleIff | src/llm/llm_matmul.c:67-69 | For several rows the maximum that every row was requantised with is the one in the returned scale if and only if the first row already holds the largest magnitude. |
| LlmMatmul.SecondRowLarger | src/llm/llm_matmul.c:89-115 | A concrete product where it does not: rows 1 and 2 times a weight of 1 both come out as 127 under one scale. |
| LlmMatmul.MatVecStandsIff | src/llm/llm_matmul.c:57-115 | Every output byte times the returned scale is within half a step of the largest and 127 units of accumulator times both scales if and only if that product for the largest accumulator stays below 127 * 2^52 (not all accumulators zero): exactly when neither the 64-bit product nor the 32-bit scale wraps. |
| LlmMatmul.WrappedScaleFails | src/llm/llm_matmul.c:112-115 | A concrete product, 1 times 1 with both scales 2^31, whose scale wraps and whose output misses its value. |
| LlmMatmul.ProductWithin | src/llm/llm_matmul.c:57-115 | To check before the call: with 16384 times the width times both scales below 127 * 2^52 every output byte stands, whatever input and weights hold. |
| LlmMatmul.ScalesAtLeastOne | src/llm/llm_matmul.c:112-115 | No returned scale is 0 as long as the product does not wrap. |
| LlmEngine.LayWeights | src/llm/llm_matmul.c:31-51 | The prelayout loops leave in the weight buffer the layout of the weights, later writes over earlier ones, whatever it held before. |
| LlmEngine.NpuMatmulOnEngine | src/llm/llm_matmul.c:117-258 | For any number of rows the engine branch returns output, scale and logits of what the engine accumulates from the laid-out operands, fetching by its strides; these are the processor branch's when weight places are distinct and the strides reach all rows. When the generator rejects the size it returns 1 and writes no output, which never happens to a single row within the scratch sizes. |
| LlmEngine.LayInput | src/llm/llm_matmul.c:124-133 | The zeroing and layout loops leave every lane of all rows of the input at its place in the feature buffer and zeros elsewhere, whatever it held before. |
| LlmEngine.ReadBack | src/llm/llm_matmul.c:215-258 | The readback requantises each row under the running maximum and copies the accumulators, out of wherever the engine stored them. |
| LlmEngine.BranchesAgreeIff | src/llm/llm_matmul.c:44-51 | Engine and processor branch accumulate the same for every input and all weights if and only if K is a multiple of 32 or there are at most 32 kernels, and the row count is a multiple of 4, one, or of at most 16 lanes. |
| LlmEngine.OneLaneLoses | src/llm/llm_matmul.c:44-51 | A concrete weight matrix outside the condition, 33 kernels of one lane, in which a weight of 1 is overwritten. |
| LlmEngine.EngineMisses | src/llm/llm_matmul.c:124-133 | For every shape of the other kind, rows that are neither one nor a multiple of 4 and more than 16 lanes, an input and weights for which the first accumulator is wrong. |
| LlmMatmul.AccumulateRow | src/llm/llm_matmul.c:89-100 | The dot-product loop computes every accumulator of a row, the running maximum, and the copy of the accumulators behind those of earlier rows. |
| LlmOps.SwiGluInto | src/llm/llm_forward.c:247-268 | The activation loop leaves the specified gated values, their product in 64 bits, requantised over the gate buffer. |
| LlmAttention.RopeInPlace | src/llm/llm_forward.c:94-113 | Rotating pairs in place gives every element the rotation of the original pair: the second write uses the first element as it was. |
| LlmAttention.ScoreHead | src/llm/llm_forward.c:187-196 | Raw scores, in 64 bits, are the scaled dot products with the keys read where they lie in the cache. |
| LlmAttention.SoftMax | src/llm/llm_forward.c:198-217 | The softmax loops, guard d < 0 included and every step in 64 bits, compute the specified weights. |
| LlmAttention.MixLane | src/llm/llm_forward.c:220-230 | The mixing loop computes the weighted average of the values read where they lie in the cache. |
| LlmAttention.AttendAll | src/llm/llm_forward.c:177-231 | All heads and lanes together, reading the flat cache arrays in place, are the specified attention output. |
| LlmCache.KvCache.PlacesApart | src/llm/llm_forward.c:171-175 | Rows of different layers or positions do not overlap in the flat cache. |
| LlmCache.KvCache.Store | src/llm/llm_forward.c:170-175 | Writing a row changes that row and no other. |
| LlmCache.KvCache.Append | src/llm/llm_forward.c:170-175 | The cache as a table changes in one entry. |
| LlmCache.PutHolds | src/llm/llm_forward.c:170-175 | If the cache agrees with recomputation before a row is written, it does so with the row. |
| LlmCache.Longer | src/llm/llm_forward.c:324-341 | A further token invalidates nothing that is cached. |
| Llm.LlmModel.constructor | src/llm/llm_model.c:75-106 | All buffers are distinct and have the sizes the forward pass relies on. |
| Llm.LlmModel.OneLayer | src/llm/llm_forward.c:152-274 | A layer with the cache computes the residual the cache-free network has after it and caches the right key and value. |
| Llm.LlmModel.Record | src/llm/llm_forward.c:301-308 | The history holds the last 16 choices, oldest first. |
| Llm.LlmModel.Forward | src/llm/llm_forward.c:133-310 | If the cache agrees with recomputation for the tokens before this one, it does so afterwards for all of them; logits and answer are those of the cache-free network on all the tokens. |
| Llm.LlmModel.Generate | src/llm/llm_forward.c:312-342 | The emitted tokens are a function of prompt, limit and end token: whatever caches, work buffers and history held before does not matter. |
| Generation.Emitted | src/llm/llm_forward.c:333-342 | At most the given number of tokens is emitted and never the end token. |
| Generation.EmittedIs | src/llm/llm_forward.c:333-342 | Every token emitted is the choice after the prompt and all tokens emitted before it, and emission ends at the limit or because the next choice is the end token. |
| Generation.Progress | src/llm/llm_forward.c:333-342 | Emitting a token leaves exactly the rest of the same output to be emitted. |
| NmsLoop.RunNms | src/yolo/yolo_postprocess.c:122-175 | The global loop keeps the greedy choice among all boxes, and class by class, in the same order, exactly what the reference keeps. |
| NmsLoop.PickBest | src/yolo/yolo_postprocess.c:140-149 | The selection finds the first open box of highest score, or that none is open. |
| NmsLoop.TooClose | src/yolo/yolo_postprocess.c:155-171 | The guarded integer test computes the overlap predicate from the pixel copies. |
| Nms.OverlapIsRatio | src/yolo/yolo_postprocess.c:155-171 | Two boxes overlap if and only if the pixels in both, times 65536, divided by the pixels in either exceed the threshold; the counts are sizes of pixel sets, and boxes without pixels overlap nothing. |
| Nms.RatioAtMostOne | src/yolo/yolo_postprocess.c:166-172 | That ratio never exceeds 65536, and is 65536 for a box with pixels and itself. |
| Nms.PixelOfCorner | src/yolo/yolo_postprocess.c:129-135 | Corners are cut down to the pixel they lie in, left of and above the image too. |
| NmsLoop.Suppress | src/yolo/yolo_postprocess.c:155-173 | Exactly the open boxes of the class that overlap too much are removed. |
| NmsLoop.PickKeeps | src/yolo/yolo_postprocess.c:138-174 | One round keeps the loop invariant: kept boxes are ranked and apart, removed boxes are kept or beaten. |
| Nms.GreedyUnique | tools/yolo/export_device.py:354-385 | There is only one greedy choice: two ranked selections in which a box is kept exactly when no kept box beats it are equal. |
| Nms.GreedyByClass | src/yolo/yolo_postprocess.c:155-157 | The global greedy choice restricted to a class is the greedy choice of that class. |
| Nms.SortRanked | tools/yolo/export_device.py:362-362 | The stable sort by falling score ranks a class by score and then position. |
| Nms.ReferenceGreedy | tools/yolo/export_device.py:354-385 | The reference, popping the best of the sorted class and filtering the rest, makes the greedy choice of the class. |
| Nms.SameAsReference | tools/yolo/export_device.py:354-385 | Hence the global choice, class by class, is the reference list. |
| Nms.KeptApart | src/yolo/yolo_postprocess.c:152-173 | No two kept boxes of one class overlap beyond the threshold, and none is kept twice. |
| Nms.DroppedIsBeaten | src/yolo/yolo_postprocess.c:152-173 | Every dropped box overlaps a kept box of its class that scores no lower. |
| Bpe.FindFrom | src/llm/llm_tokenizer.c:93-101 | The lookup returns the first entry equal to the string, and 0 when there is none. |
| Bpe.TakeIsPrefix | src/llm/llm_tokenizer.c:110-132 | When there is no room for all seed tokens the first ones stay, as many as fit. |
| Bpe.PassIsSweep | src/llm/llm_tokenizer.c:142-151 | Merging in place, shifting and looking again, is one sweep from the left that takes two tokens for a match, unless a merged token can merge again. |
| Bpe.ReplaceKeepsText | src/llm/llm_tokenizer.c:143-147 | A merge whose result spells its two parts preserves the concatenated text, wherever it happens. |
| Bpe.MergesKeepText | src/llm/llm_tokenizer.c:134-152 | All merge passes together preserve the concatenated text. |
| Bpe.WholeConcat | src/llm/llm_tokenizer.c:68-78 | When tokens are made of whole markers and ASCII characters, no marker straddles a token border, so decoding token by token is decoding the text. |
| Bpe.RoundTrip | src/llm/llm_tokenizer.c:60-155 | For ASCII text whose characters and marker are in the vocabulary, with text-preserving merges and room for all ids, decoding the encoded ids gives one space and the text. |
| Bpe.NormalForm | src/llm/llm_tokenizer.c:134-152 | With well-ordered rules, no adjacent pair of the returned ids can be merged by any rule. |
| Bpe.SettlesIff | src/llm/llm_tokenizer.c:142-151 | A pass of one rule leaves no pair of its own behind, whatever the input, if and only if its result is not its second part, or both parts are equal. |
| Bpe.PassKeepsSettled | src/llm/llm_tokenizer.c:142-151 | A pass whose result takes no part in an earlier rule brings none of its pairs back. |
| Bpe.LaterRuleUndoes | src/llm/llm_tokenizer.c:134-152 | Without that condition normal form fails: a concrete pair of rules and input. |
| Bpe.ShortStays | src/llm/llm_tokenizer.c:136-136 | Stopping at one token changes nothing. |
| BpeLoop.TokMatch | src/llm/llm_tokenizer.c:81-91 | The comparison loop decides equality of the strings. |
| BpeLoop.TokFind | src/llm/llm_tokenizer.c:93-101 | The scan returns the first equal entry. |
| BpeLoop.SeedInto | src/llm/llm_tokenizer.c:110-132 | One id for the marker and each character, as many as fit. |
| BpeLoop.MergePass | src/llm/llm_tokenizer.c:142-151 | The in-place loop, shifting and looking again, computes the pass and terminates. |
| BpeLoop.Encode | src/llm/llm_tokenizer.c:103-155 | The ids left in the buffer are the specified encoding of the text up to its terminator. |
| BpeLoop.DecodeInto | src/llm/llm_tokenizer.c:60-79 | The buffer gets the text with spaces for markers, cut to its length, and a terminator. |
| Checksum.Crc16 | src/dev/xmodem_dw_uart.c:97-111 | The bit loop computes the specified checksum. |
| Remainder.ChecksumIsRemainder | src/dev/xmodem_dw_uart.c:97-111 | Which checksum it is: sixteen bits behind a block make a multiple of x^16 + x^12 + x^5 + 1, in carry-less multiplication of bit strings, if and only if they are its checksum. |
| Checksum.CrcLinear | src/dev/xmodem_dw_uart.c:97-111 | The checksum of an exclusive-or combination is the combination of the checksums. |
| Checksum.StayApart | src/dev/xmodem_dw_uart.c:97-111 | Equal further bytes never make two different checksum states equal. |
| Checksum.NearbyErrorsDetected | src/dev/xmodem_dw_uart.c:97-111 | Two blocks of one length, a single byte included, that differ somewhere but only within two adjacent bytes have different checksums. |
| Xmodem.ReadBlock | src/dev/xmodem_dw_uart.c:173-206 | Header, data and checksum are read as the line carries them; silence and a bad header are told apart. |
| Xmodem.Answer | src/dev/xmodem_dw_uart.c:208-243 | A repeated block is acknowledged and not stored, a wrong number or checksum answered NAK, the expected block stored behind the others and acknowledged, an overflow cancelled without a write. |
| Xmodem.MainLoop | src/dev/xmodem_dw_uart.c:160-261 | The receive loop terminates on every line and sends, stores and returns what the receiver function says. |
| Xmodem.Receive | src/dev/xmodem_dw_uart.c:142-262 | For every line it does what the receiver function says and writes nothing past the stored data; when the line carries a sender's transmissions, with silences of any length, it succeeds exactly when the sender finished and no silence was longer than 15 read attempts at the start or one later on, then holds the whole file, and transmits exactly the transcript of that transfer. |
| XmodemSafety.FrameStep | src/dev/xmodem_dw_uart.c:166-248 | A frame with a good header gets exactly one reply and leaves the receiver at the next frame. |
| XmodemSafety.StepDuplicate | src/dev/xmodem_dw_uart.c:209-214 | After a lost reply the repeated block is acknowledged again and not stored. |
| XmodemSafety.StepFresh | src/dev/xmodem_dw_uart.c:222-248 | An expected block that was damaged is sent again; an intact one is stored as sent, or ends the transfer as cancelled when it is too much for the limit. |
| XmodemSafety.StepSynced | src/dev/xmodem_dw_uart.c:164-248 | One transmission keeps sender and receiver in step, each moving as the answer says, and only an overflow ends the transfer. |
| XmodemSafety.ReachableSynced | src/dev/xmodem_dw_uart.c:164-248 | In every reachable state the receiver holds the first j payloads within the limit and expects number j + 1, and the sender knows of all of them or all but the last. |
| XmodemSafety.NumModular | src/dev/xmodem_dw_uart.c:145-145 | The expected number is j + 1 modulo 256, for files of any length. |
| XmodemSafety.TwoByteDamageRefused | src/dev/xmodem_dw_uart.c:222-228 | Damage within two adjacent bytes of payload and checksum, across their border included, always leads to a repeat and moves neither side. |
| XmodemSafety.SealedIsZero | src/dev/xmodem_dw_uart.c:97-111 | A block followed by a checksum has checksum 0 if and only if that is its own. |
| XmodemSafety.TransferSafe | src/dev/xmodem_dw_uart.c:142-262 | For any file, damage to payloads and checksums, lost replies, silences of any length and limit: what is stored is a prefix of the blocks within the limit; success is reported exactly when every block was acknowledged and no silence was longer than 15 read attempts at the start or one later on, with the whole file stored; and the receiver transmits one call for each opening attempt, one answer to each transmission (ACK for a new or repeated block, NAK for a damaged one), ACK for the end, and CAN twice only for an overflow or a silence. |
| XmodemSafety.DeliveredIff | src/dev/xmodem_dw_uart.c:142-262 | A file is delivered if and only if something arrives in time and no CAN is transmitted. |
| XmodemSafety.CancelsIff | src/dev/xmodem_dw_uart.c:164-262 | From any state in step: the transfer completes if and only if no CAN occurs among the answers. |
| XmodemSafety.BadHeaderRefused | src/dev/xmodem_dw_uart.c:185-192 | A header whose two bytes are not complements is answered NAK, with whatever follows them still to be read. |
| XmodemSafety.ForeignRefused | src/dev/xmodem_dw_uart.c:208-220 | A block that is neither the expected one nor the one before is answered NAK and not stored. |
| XmodemSafety.CutFrame | src/dev/xmodem_dw_uart.c:180-204 | A frame that falls silent anywhere after its first byte is answered NAK and ends the transfer, what was stored before it kept. |
| XmodemSafety.BetweenFrames | src/dev/xmodem_dw_uart.c:168-171 | Bytes that start nothing are skipped between frames; a CAN ends the transfer without an answer. |
| XmodemSafety.GapStep | src/dev/xmodem_dw_uart.c:250-257 | In mid-transfer one silent read attempt is waited out and two end the transfer, with what was stored kept. |
| XmodemSafety.StartGap | src/dev/xmodem_dw_uart.c:149-161 | At the start fewer silent attempts than MAX_INIT_RETRIES only add a call each; from there on the receiver gives up with nothing stored. |
| XmodemSafety.LateEndFails | src/dev/xmodem_dw_uart.c:250-257 | Two concrete transfers ending after two silent attempts: the empty file is received, a file of one block is not. |

## Left out

- Register emission with its field masks, MMIO, cache maintenance, interrupts, timers, clocks and power domains: constants written, no property beyond them.
- Heap exhaustion inside prelayout_conv_weight and the model loaders: the allocator model covers NULL returns, the callers' cleanup is not modelled.
- gen_conv2d_int8's own bank checks and output strides: the lowerings end at the accumulators of the descriptor they hand over.
- gen_matmul_int8 beyond its two bank checks and the one tile it describes.
- gen_transpose_int8: its meaning is not decided by the code.
- Static scratch arrays as such: the model allocates arrays of the sizes it needs, which are within theirs.
- LlmMatmul.NpuMatmul: does not cover several rows that overwrite their own input; one row may.
- LlmEngine.NpuMatmulOnEngine: is not called by the class LlmModel, which runs on the processor branch; `BranchesAgreeIff` says for which sizes that makes no difference.
- YoloConvNpu.PaddedConvolvesIff: leaves out last blocks of three rows, because there a lane can be served by another that reads the same image element (stride 16); `ConvolvesIff` gives their condition lane by lane.
- Xmodem.Receive: does not cover recovery after a corrupted header, because later data bytes are then read as control bytes and a success would not imply the whole file; the line is a script of read attempts in place of the UART and its timer, and silence inside a frame is covered frame by frame (`CutFrame`).
- Nms.Reference: the order in which the reference visits classes is not modelled, because it is that of an unordered set.
- Text of emitted tokens: generation is modelled up to the token ids; decoding one id is BpeLoop.DecodeInto.
- YOLO decode and rescale, elementwise operators, requantisation with flooring division, sorting, printing and string helpers: each settled by one loop or branch.
- Signedness of int8_t on the target: values are signed integers, as the casts in the code read them.
