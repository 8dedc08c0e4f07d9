# CppStation, verified in Dafny

CppStation is a PlayStation emulator in C++. This project models the parts of it that hold state and proves what
they promise over whole runs:

| machine | source | files |
|---|---|---|
| DMA engine on the bus | `CppStation/bus.cpp`, `CppStation/memory/dma.cpp` | `dma.dfy`, `bus.dfy`, `bus_object.dfy`, `linked_list.dfy`, `list_memory.dfy`, `ordering_table.dfy`, `dma_runs.dfy`, `dma_programs.dfy` |
| CPU step function | `CppStation/cpu/cpu.cpp` | `cpu_arith.dfy`, `cpu.dfy`, `cpu_object.dfy`, `cpu_runs.dfy`, `encoding.dfy`, `instructions.dfy`, `exception_runs.dfy`, `unaligned.dfy` |
| GPU command ports | `CppStation/gpu/gpu.cpp` | `gpu.dfy`, `gpu_stream.dfy`, `gpu_status.dfy`, `gpu_commands.dfy` |
| vertex batcher | `CppStation/gpu/opengl/renderer.cpp` | `renderer.dfy` |
| memory and address map | `CppStation/memory/ram.cpp`, `CppStation/include/memory/map.hpp`, `CppStation/memory/map.cpp` | `ram.dfy`, `memory_map.dfy`, `memory_proofs.dfy`, `bounds.dfy`, `bus_map.dfy` |

`words.dfy` and `outcome.dfy` hold machine words and outcomes; `witnesses.dfy` has concrete inputs. `dafny verify dfyconfig.toml` checks everything.

## How it is built

Each machine exists twice. A **class** has the C++ object's fields and arrays and updates them in place, loop by loop
(`Ram`, `Channel`, `Dma`, `Renderer`, `CommandBuffer`, `Gpu`, `Bus`, `Cpu`). A **value** of a datatype is its state, with
functions that say what each operation does to it. Every class method is proved to take its object to exactly the
state the function gives, and to leave alone what the function leaves alone. The theorems are then proved about the
functions and so hold of the objects.

Where the C++ code has a loop or an indirection, the two differ. The CPU object has two register files and a copy loop;
the function `Step` has one file, a pending load and a single effect per instruction. The DMA loops walk memory with a
masked running address; the functions say which words are sent, by index. The renderer fills a fixed array; its function
speaks of sequences. A method without a loop reads like its function. The table leaves out the setters and the plain
register operations (`Channel.SetBase`, `Cpu.OpAlu`, `Gpu.RunSetting` and the like) and keeps those whose cases, faults
or panics are what the source is about; the contracts of both are what lets the theorems speak of the objects.

What the functions compute is stated a second time without them. `Encoding` puts instruction words together from their
fields, and `Instructions` says what a whole step of each does: which branch is taken and to where, which address a load
or store uses, each bit of a logical result, the number of each exception. `GpuCommands` does the same for the words of
GPU commands, `DmaPrograms` for the register writes that start a transfer, `ListMemory` for the bytes of a list in memory,
`BusMap` for the addresses of the devices.

An operation ends as `Running` or `Stopped`, and a stopped machine has no next state:

- `Panic`: the C++ code reports an error and exits.
- `OutOfBounds`: an access of two or four bytes starts in a buffer's last bytes and would run past its end. A step does
  so exactly when it fetches an LW or LH whose address is that close to the end: those two do not check their address
  (`Bounds.StepOverreads`).
- `Endless`: a linked-list transfer whose list never reaches an end marker and never makes the GPU panic. Dafny methods
  must terminate, so the methods that can start one require that it is not this one; `LinkedListProofs.ListCompletes`
  says exactly which those are: the list has no end, and the GPU accepts everything on it.

## Where the code does not do what its comments say

The model follows the code. What the slips cost is proved for all inputs; `witnesses.dfy` gives concrete inputs:

- `header & 0x800000 != 0` tests bit 0, since `!=` binds tighter than `&`. A list therefore ends at the first header with
  an odd value, and where bit 23 says exactly when the two bits agree in every header up to there
  (`LinkedListProofs.MarkedListFeeds`). An ordering table built from an odd base ends after its first entry
  (`OrderingTableProofs.VisitsEveryEntry` gives the exact condition).
- `!0x3f` is 0, so entering or leaving an exception clears every bit of SR above the mode stack
  (`CpuRuns.ModeChangeDropsUpperBits`).
- `!ack` is a logical negation. No code path raises a channel's interrupt flag, so it cannot be observed
  (`DmaModel.InterruptReadsBack`).
- The four tests in `gp1DisplayMode` all read bit 0. The mode set is the one asked for exactly when bits 2 to 5 all equal
  bit 0 (`GpuStatus.DisplayModeAsMeant`).
- ADD and ADDI write their destination even when they raise Overflow (`CpuRuns.AddWritesEvenOnOverflow`,
  `CpuRuns.AddiWritesEvenOnOverflow`).
- LW and LH do not check their address, and so can read past the end of a buffer (`Bounds.StepOverreads`).
- A misaligned PC faults before the delay-slot flag is brought up to date: EPC is the PC itself exactly when the flag left
  by the instruction before is clear (`ExceptionRuns.MisalignedPcFault`).
- LWR, SWL and SWR mask or shift the wrong way. `Unaligned.LwrExact`, `SwlExact` and `SwrExact` give, for every offset, the
  exact condition under which the result is right all the same; LWL is right always (`LwlExact`). An LWL/LWR pair loads
  an aligned word exactly when its top byte is zero (`PairLoads`).
- An image load without pixels leaves the parser in image mode, and the next command is swallowed
  (`GpuStream.ImageLoadReturns`; `GpuStream.Batch` describes what happens on every stream).
- `pushQuad` asks for four free slots and fills six, so the two halves of a quad can go to different batches, each
  half whole (`RendererModel.QuadAcrossBatches`).

## Modelling choices

- The GPU's drawing and display registers are one record-valued field, `regs`, of the GPU object. The command buffer and
  the renderer are objects of their own.
- A colour component `n / 255.0f` is kept as `n`.
- In request mode the transfer size is a product of two 16-bit numbers computed as a C++ `int` and converted back to
  unsigned. The exact product is used, which is what the conversion gives wherever the product is defined.
- Bit operations on words are recursive functions on numbers; `Words.BitwiseAt` says they work bit by bit.
- `mVertexBuf` starts uninitialised in the C++ code, and with arbitrary contents here.
- Drawing appends the buffered vertices to a ghost history, `drawn`.
- Devices that only log (interrupt control, timers, sound, memory control) read as the constants the code returns.

## Model

| member | source | states |
|---|---|---|
| `Words.BitwiseAt` | CppStation/cpu/cpu.cpp:754-763 | every bit of AND, OR and XOR is that operation on the same bit of the operands, and of nothing else |
| `Words.AndLowMask` | CppStation/bus.cpp:381 | masking with a run of low ones is the remainder modulo the next power of two |
| `MemoryMap.MaskRegion` | CppStation/include/memory/map.hpp:53-57 | the table of masks strips exactly the KSEG0 and KSEG1 bases and leaves every other address alone |
| `MemoryMap.RangesDisjoint` | CppStation/memory/map.cpp:14-38 | no absolute address belongs to two devices |
| `MemoryMap.DispatchOrderIrrelevant` | CppStation/bus.cpp:23-73 | a chain of range tests gives the same device in whatever order it is written |
| `MemoryMap.RamAliases` | CppStation/include/memory/map.hpp:14-19 | main memory appears at exactly three places, always at the address modulo 2 MB |
| `RamModel.WriteAt` | CppStation/memory/ram.cpp:33-44 | a write of n bytes puts the k-th byte of the value at offset + k and changes no other byte |
| `RamModel.ReadAfterWrite` | CppStation/memory/ram.cpp:22-44 | reading back what was written returns it, for every width |
| `RamModel.ReadElsewhere` | CppStation/memory/ram.cpp:22-44 | reading bytes that were not written is not affected |
| `RamModel.Ram.constructor` | CppStation/memory/ram.cpp:6-14 | 2 MB, every byte 0xca |
| `RamModel.Ram.Load32` | CppStation/memory/ram.cpp:22-30 | the number whose base-256 digits are the four bytes, lowest first |
| `RamModel.Ram.Store32` | CppStation/memory/ram.cpp:33-44 | the whole new memory: the four digits of the value written, everything else kept |
| `RamModel.Ram.Load16` | CppStation/memory/ram.cpp:47-53 | as Load32, for two bytes |
| `RamModel.Ram.Store16` | CppStation/memory/ram.cpp:56-63 | as Store32, for two bytes |
| `MemoryProofs.StoresAreFlat` | CppStation/bus.cpp:75-250 | after any sequence of stores of mixed widths through mixed aliases, every byte of memory is what the last store covering it put there, and nothing outside memory changed |
| `MemoryProofs.LoadsSeeLastBytes` | CppStation/bus.cpp:23-231 | a load of any width through any alias then returns exactly those bytes, lowest first |
| `Bounds.AccessesExact` | CppStation/bus.cpp:23-250 | when each of the six bus accesses leaves its buffer, for every address: only a load of two or four bytes from the end of memory, a word load from the end of the BIOS, or such a store to memory |
| `Bounds.DmaWriteInBounds` | CppStation/bus.cpp:303-507 | no DMA register write, and no transfer it starts, ever leaves memory |
| `Bounds.StepOverreads` | CppStation/cpu/cpu.cpp:324-378 | a CPU step leaves a buffer if and only if it fetches LW (cache not isolated) with an address in the last three bytes of memory or BIOS, or LH at the last byte of memory; no fetch, store or other load does |
| `DmaModel.ControlReadsBack` | CppStation/memory/dma.cpp:122-177 | a control word reads back as itself AND 0x71770703, whatever the channel held before |
| `DmaModel.DoneReadsBack` | CppStation/memory/dma.cpp:214-221 | after the transfer bits 24 and 28 are cleared too |
| `DmaModel.InterruptReadsBack` | CppStation/memory/dma.cpp:49-80 | the interrupt register reads back its stored bits with bit 31 a copy of the force bit: no channel flag is ever seen |
| `DmaModel.RequestSizeNotSentinel` | CppStation/memory/dma.cpp:240-260 | the transfer size of a manual or request transfer, as an unsigned word, is never the 0xffffffff that stands for -1 |
| `DmaModel.Channel.constructor` | CppStation/memory/dma.cpp:88-102 | a disabled channel with all fields zero |
| `DmaModel.Channel.SetControl` | CppStation/memory/dma.cpp:140-177 | every field of the channel after a control write, and panic exactly for synchronisation mode 3 |
| `DmaModel.Dma.constructor` | CppStation/memory/dma.cpp:5-18 | the reset control word and seven separate reset channels |
| `DmaModel.Dma.SetInterrupt` | CppStation/memory/dma.cpp:64-80 | the controller after an interrupt-register write, with the acknowledgement as coded; the channels stay |
| `RendererModel.Conservation` | CppStation/gpu/opengl/renderer.cpp:92-148 | for every sequence of triangles, quads and displays, drawn batches followed by the buffer are exactly the requested triangles in order; every batch is whole triangles and at most 16383 vertices; what is drawn stays drawn |
| `RendererModel.TriangleKeeps` | CppStation/gpu/opengl/renderer.cpp:104-115 | one triangle is added at the end, and is never split between two batches |
| `RendererModel.QuadKeeps` | CppStation/gpu/opengl/renderer.cpp:117-127 | a quad adds v1 v2 v3 and then v2 v3 v4 |
| `RendererModel.QuadAcrossBatches` | CppStation/gpu/opengl/renderer.cpp:117-127 | its two triangles go to different batches if and only if exactly four slots were free |
| `RendererModel.Renderer.constructor` | CppStation/gpu/opengl/renderer.cpp:18-21 | an empty buffer of 16384 slots |
| `RendererModel.Renderer.PushVertex` | CppStation/gpu/opengl/renderer.cpp:92-102 | the array is never indexed out of range, and its used part gains the vertex, after a draw if it was full |
| `RendererModel.Renderer.PushTriangle` | CppStation/gpu/opengl/renderer.cpp:104-115 | everything shown before, then the triangle |
| `RendererModel.Renderer.PushQuad` | CppStation/gpu/opengl/renderer.cpp:117-127 | everything shown before, then both triangles |
| `RendererModel.Renderer.Draw` | CppStation/gpu/opengl/renderer.cpp:129-140 | the used part of the array becomes the newest batch and the buffer is empty |
| `RendererModel.Renderer.Display` | CppStation/gpu/opengl/renderer.cpp:142-148 | a draw, losing nothing |
| `GpuModel.Handler.Length` | CppStation/gpu/gpu.cpp:189-249 | every command has one to nine words, so the twelve-slot buffer suffices |
| `GpuModel.ImageWords` | CppStation/gpu/gpu.cpp:358-379 | the payload length is ceil(w*h/2): two pixels a word, at most one to spare; it fits a word |
| `GpuModel.SignExtend11` | CppStation/gpu/gpu.cpp:415-424 | shifting up and back down reads 11 bits as two's complement |
| `GpuModel.GpuState.Gp0` | CppStation/gpu/gpu.cpp:182-271 | a word keeps the parser invariant: at most nine words buffered, and buffered plus remaining words equal the command's length |
| `GpuModel.GpuState.Execute` | CppStation/gpu/gpu.cpp:273-437 | a handler runs on exactly the words received, and leaves the parser between commands unless it starts an image |
| `GpuModel.GpuState.Gp1` | CppStation/gpu/gpu.cpp:439-599 | every GP1 command keeps the parser invariant, in whatever mode it arrives |
| `GpuModel.Gpu.constructor` | CppStation/gpu/gpu.cpp:55-97 | the power-on registers, no command pending |
| `GpuModel.Gpu.Gp0` | CppStation/gpu/gpu.cpp:182-271 | the object implements the state function, with no index out of range |
| `GpuModel.Gpu.RunCommand` | CppStation/gpu/gpu.cpp:258-262 | the selected handler has the effect given for it, reading only received words |
| `GpuModel.Gpu.RunDrawing` | CppStation/gpu/gpu.cpp:314-356 | the four drawing handlers send their vertices, colours and order as specified |
| `GpuStream.StreamSplit` | CppStation/gpu/gpu.cpp:182-271 | writing two streams one after the other is writing their concatenation |
| `GpuStream.CollectWords` | CppStation/gpu/gpu.cpp:254-263 | words of an incomplete command are only buffered, and the completing word runs it once |
| `GpuStream.SkipWords` | CppStation/gpu/gpu.cpp:264-269 | payload words change nothing but the count, and the last one returns to command mode |
| `GpuStream.StreamIsBatch` | CppStation/gpu/gpu.cpp:182-271 | on every stream, feeding one word at a time equals cutting the stream into whole commands by length, running each, and dropping ceil(w*h/2) words after each image load, down to the half-read command at the end |
| `GpuStream.StreamIsImagePayload` | CppStation/gpu/gpu.cpp:264-269 | the same from inside an image, including images without pixels, which swallow a command |
| `GpuStream.ImageLoadReturns` | CppStation/gpu/gpu.cpp:358-379 | an image load and its payload leave the parser ready for the next command if and only if both dimensions are non-zero |
| `GpuStream.Ports` | CppStation/gpu/gpu.cpp:182-599 | any interleaving of GP0 and GP1 writes keeps the parser invariant |
| `GpuStream.ExecuteShows` | CppStation/gpu/gpu.cpp:314-356 | a command adds exactly its own vertices to what is shown, decoded from the right words, and other commands add none |
| `GpuStream.BatchShows` | CppStation/gpu/gpu.cpp:182-379 | the vertices drawn by a batch are a function of its words alone, images and swallowed commands included |
| `GpuStream.StreamDraws` | CppStation/gpu/gpu.cpp:182-379 | a stream fed word by word to an idle GPU draws exactly the primitives its words ask for, in stream order |
| `GpuStream.TwinRun` | CppStation/gpu/gpu.cpp:182-599 | two GPUs equal in registers and parser answer every later sequence of writes alike and draw the same new vertices |
| `GpuStream.ResetForgets` | CppStation/gpu/gpu.cpp:477-533 | after GP1(0) in any state, also mid-command or mid-image, status is 0x1cc02000, the next word starts a command, and the whole future is independent of the past |
| `GpuStatus.StatusParts` | CppStation/gpu/gpu.cpp:118-172 | where each display, enable, interrupt, request and direction field sits in the status word, and that nothing else shares its bits |
| `GpuStatus.LowParts` | CppStation/gpu/gpu.cpp:103-117 | the same for draw mode, mask bits and field |
| `GpuStatus.StatusShowsDrawMode` | CppStation/gpu/gpu.cpp:107-117 | an accepted draw-mode word shows its bits 0 to 10 in place and bit 11 as bit 15 |
| `GpuStatus.StatusShowsCommands` | CppStation/gpu/gpu.cpp:273-437 | draw mode and mask bits, sent as commands, read back in the status register and disturb no other bit of it |
| `GpuStatus.StatusShowsSettings` | CppStation/gpu/gpu.cpp:540-599 | display enable and DMA direction read back as written; of a display mode only the horizontal resolution does, bit 0 standing in for the rest |
| `GpuStatus.DisplayModeAsMeant` | CppStation/gpu/gpu.cpp:582-599 | a display-mode command sets the mode it asks for if and only if bits 2, 3, 4 and 5 all equal bit 0; it changes nothing else |
| `GpuCommands.MonoQuadDraws` | CppStation/gpu/gpu.cpp:314-324 | opcode 0x28 and four packed corners draw two triangles of that colour at those corners |
| `GpuCommands.TexturedQuadDraws` | CppStation/gpu/gpu.cpp:326-337 | opcode 0x2c draws them red, ignoring the words between the corners |
| `GpuCommands.ShadedTriangleDraws` | CppStation/gpu/gpu.cpp:339-346 | opcode 0x30: each corner has the colour sent before it |
| `GpuCommands.ShadedQuadDraws` | CppStation/gpu/gpu.cpp:348-356 | opcode 0x38: the same for four corners |
| `GpuCommands.IdleCommands` | CppStation/gpu/gpu.cpp:304-390 | opcodes 0x00, 0x01 (one word) and 0xc0 (three words) draw and set nothing |
| `GpuCommands.OpcodesAccepted` | CppStation/gpu/gpu.cpp:184-252 | an idle GPU panics exactly at the opcodes that are not listed and at texture depth 3 |
| `GpuCommands.ImageTakes` | CppStation/gpu/gpu.cpp:358-379 | the parser is still in the image after p words if 2p < w*h, and ready for the next command as soon as the words hold all w*h pixels |
| `GpuCommands.DrawModeIsSet` | CppStation/gpu/gpu.cpp:273-302 | all nine draw-mode fields arrive from their own bits, and depth 3 panics |
| `GpuCommands.WindowIsSet` | CppStation/gpu/gpu.cpp:392-399 | the four texture-window fields |
| `GpuCommands.AreaIsSet` | CppStation/gpu/gpu.cpp:401-413 | the two corners of the drawing area |
| `GpuCommands.OffsetIsSet` | CppStation/gpu/gpu.cpp:415-430 | every offset from -1024 to 1023 packed as 11 bits arrives as itself, and what is buffered is drawn |
| `GpuCommands.DisplayIsSet` | CppStation/gpu/gpu.cpp:535-580 | the GP1 display ranges and the interrupt acknowledgement |
| `GpuCommands.Gp1Accepts` | CppStation/gpu/gpu.cpp:439-475 | exactly which GP1 words panic, and that GP1(1) changes no register |
| `GpuCommands.ResetValues` | CppStation/gpu/gpu.cpp:477-525 | the values that a reset gives the registers the status does not show |
| `BusMap.GpuPorts` | CppStation/bus.cpp:49-141 | the first GPU address takes GP0 words and reads zero, the second takes GP1 words and reads the status, in all three segments |
| `BusMap.DmaPorts` | CppStation/bus.cpp:41-125 | the 128 addresses of the DMA registers |
| `BusMap.BiosReads` | CppStation/bus.cpp:30-32 | the BIOS reads as its bytes and cannot be stored to |
| `BusMap.LoadsAnswer` | CppStation/bus.cpp:23-231 | the exact set of addresses at which each load panics |
| `BusMap.StoresAnswer` | CppStation/bus.cpp:75-250 | the exact set at which each store panics, and that a store outside memory, DMA and GPU changes nothing |
| `BusMap.ConstantReads` | CppStation/bus.cpp:34-227 | what the devices without behaviour read as |
| `BusModel.RamAddrIsMask` | CppStation/bus.cpp:381 | AND with 0x1ffffc is the word-aligned address modulo 2 MB |
| `BusModel.WalkStable` | CppStation/bus.cpp:391-425 | an answer of the bounded list walk does not depend on the bound |
| `BusModel.WalkListIs` | CppStation/bus.cpp:391-425 | the unbounded walk is the bounded one for any bound that suffices |
| `BusObject.Bus.constructor` | CppStation/bus.cpp:6-17 | power-on state with every channel idle, the parts sharing no object |
| `BusObject.Bus.Load32` | CppStation/bus.cpp:23-73 | the outcome for every address, in the order of tests of the code, and no state change |
| `BusObject.Bus.Load16` | CppStation/bus.cpp:152-175 | the same for half words |
| `BusObject.Bus.Load8` | CppStation/bus.cpp:209-231 | the same for bytes |
| `BusObject.Bus.Store32` | CppStation/bus.cpp:75-150 | the whole next state of memory, DMA and GPU for every address and value |
| `BusObject.Bus.Store16` | CppStation/bus.cpp:177-207 | the same for half words |
| `BusObject.Bus.Store8` | CppStation/bus.cpp:233-250 | the same for bytes |
| `BusObject.Bus.DmaReg` | CppStation/bus.cpp:253-300 | the value of every DMA register, and panic for every other offset |
| `BusObject.Bus.SetDmaReg` | CppStation/bus.cpp:303-357 | the register written, and the whole transfer if that activated the channel |
| `BusObject.Bus.WriteChannel` | CppStation/bus.cpp:324-337 | only the addressed channel changes |
| `BusObject.Bus.DoDma` | CppStation/bus.cpp:360-374 | the transfer that the channel's mode selects, as a function of the state before |
| `BusObject.Bus.DoDmaLinkedList` | CppStation/bus.cpp:377-428 | the GPU is fed by the list, memory is unchanged, the channel is disabled |
| `BusObject.Bus.FollowList` | CppStation/bus.cpp:391-425 | the loop over headers terminates on every list that ends and computes the walk of it |
| `BusObject.Bus.FeedPacket` | CppStation/bus.cpp:397-411 | the inner loop sends the words after the header, by index, across the 2 MB wrap |
| `BusObject.Bus.DoDmaBlock` | CppStation/bus.cpp:431-507 | a block transfer in either direction, with its panics, ending with the channel disabled |
| `BusObject.Bus.BlockToGpu` | CppStation/bus.cpp:456-479 | the i-th word sent is memory at (base +/- 4i) modulo 2 MB, exactly as many as the size, and memory is unchanged |
| `BusObject.Bus.ClearOrderingTable` | CppStation/bus.cpp:480-504 | memory after the loop is the recursively defined table |
| `LinkedListProofs.WalkFeeds` | CppStation/bus.cpp:391-425 | on a list that ends after k links the walk sends exactly the joined packets in list order |
| `LinkedListProofs.EndIsNear` | CppStation/bus.cpp:391-425 | a list that ends visits no address twice, so it ends within 0x80000 links |
| `LinkedListProofs.ListFeeds` | CppStation/bus.cpp:377-428 | the transfer feeds GP0 the words of the list, `ListWords`, and nothing else; `ListMemory` says which words these are |
| `ListMemory.HeaderBytes` | CppStation/bus.cpp:395-424 | a header's packet size is its top byte, its end bit is in its lowest byte, and the next address is the header AND 0x1ffffc |
| `ListMemory.HeaderFollows` | CppStation/bus.cpp:424 | each header's address comes from the one before by that mask |
| `ListMemory.EndsAtOddHeader` | CppStation/bus.cpp:418-422 | the list ends at the first header whose lowest byte is odd |
| `ListMemory.ListLength` | CppStation/bus.cpp:397-411 | the list holds as many words as the top bytes of its headers add up to |
| `ListMemory.ListWordAt` | CppStation/bus.cpp:402-411 | word j of packet i is the memory word j + 1 words after header i, with the 2 MB wrap |
| `ListMemory.TransferFromMemory` | CppStation/bus.cpp:377-428 | the whole transfer, of the bytes in memory alone: exactly these words go to GP0, memory stays, the channel is disabled |
| `LinkedListProofs.ListCompletes` | CppStation/bus.cpp:377-428 | a transfer completes if and only if the list reaches an end marker within 0x80000 links and the GPU accepts its words; it runs forever if and only if the list has no end and the GPU accepts everything on it |
| `LinkedListProofs.MarkedListFeeds` | CppStation/bus.cpp:413-424 | a list that bit 23 ends after k links is followed exactly to there if and only if bit 0 and bit 23 agree in all its headers, and then GP0 gets exactly its packets |
| `OrderingTableProofs.FillElsewhere` | CppStation/bus.cpp:480-504 | clearing a table, upwards or downwards, changes no byte outside its words |
| `OrderingTableProofs.FillSlot` | CppStation/bus.cpp:484-499 | each entry holds the link to the one before it, the last one the end marker, also when the table wraps around memory |
| `OrderingTableProofs.FillChain` | CppStation/bus.cpp:391-504 | from every entry on, the table is a list of empty packets that ends at the marker |
| `OrderingTableProofs.FillVisits` | CppStation/bus.cpp:391-504 | following j links from entry i leads to entry i + j |
| `OrderingTableProofs.TableEnds` | CppStation/bus.cpp:391-504 | for every base and every length the table is a list that ends, with no packet, after a stated number of links, even when it is longer than memory |
| `OrderingTableProofs.VisitsEveryEntry` | CppStation/bus.cpp:418-504 | walking the cleared table visits all n slots in order and then ends if and only if the base is even and n <= 0x80000, or n is 1 |
| `DmaRuns.TransferFinishes` | CppStation/bus.cpp:360-507 | a transfer that completes leaves its channel disabled and every other DMA register untouched |
| `DmaRuns.WriteKeepsQuiet` | CppStation/bus.cpp:303-357 | no register write leaves a transfer pending |
| `DmaRuns.WritesKeepQuiet` | CppStation/bus.cpp:303-374 | in every state reached by completed register writes no channel is active |
| `DmaRuns.ControlReadsBackOnBus` | CppStation/bus.cpp:253-357 | through the bus a control word reads back AND 0x71770703, and AND 0x60770703 when it started a transfer |
| `DmaRuns.BlockIsBatch` | CppStation/bus.cpp:431-507 | a block transfer to an idle GPU runs its transferSize() words as one batch of commands, and changes nothing but the GPU and the channel |
| `DmaRuns.ListIsBatch` | CppStation/bus.cpp:377-428 | so does a linked-list transfer with the joined packets of its list |
| `DmaRuns.BlockDraws` | CppStation/bus.cpp:431-507 | a block transfer to an idle GPU draws exactly the primitives its words ask for |
| `DmaRuns.ListDraws` | CppStation/bus.cpp:377-428 | a linked-list transfer to an idle GPU draws exactly its list's primitives, in list order |
| `DmaRuns.OtcClears` | CppStation/bus.cpp:480-506 | a clearing transfer in either direction changes only memory and its channel |
| `DmaRuns.BuildThenWalk` | CppStation/bus.cpp:377-507 | clearing a table and then walking it from the same base always ends, with no word for GP0 on the list; it visits exactly the n entries b, b-4, ... modulo 2 MB if and only if the table fits and the base is even, or n is 1; no byte outside the table changes |
| `DmaRuns.TableProgramRuns` | CppStation/bus.cpp:303-507 | the five register writes that do this complete from every quiet state, with the GPU untouched and every channel idle |
| `DmaPrograms.GpuBlockProgram` | CppStation/bus.cpp:303-507 | base, block control and a starting control word send exactly blockCount * blockSize words (request mode) or blockSize words (manual) to GP0, from memory at the base upwards or downwards; memory stays and no channel is left active |
| `DmaPrograms.ClearProgram` | CppStation/bus.cpp:303-507 | the same three writes to the clearing channel fill a table with that many entries |
| `DmaPrograms.ControlPanics` | CppStation/bus.cpp:303-507 | which control words panic on which channel, and that no other one does before a word is moved |
| `DmaPrograms.RegistersReadBack` | CppStation/bus.cpp:253-357 | base (24 bits), block control, common control and interrupt register read back through the bus |
| `DmaPrograms.OtherOffsetsPanic` | CppStation/bus.cpp:253-357 | every other offset panics on reading and on writing |
| `CpuArith.AddOverflowExact` | CppStation/cpu/cpu.cpp:5-8 | the sign-bit test is true if and only if the true signed sum does not fit in 32 bits |
| `CpuArith.SubOverflowExact` | CppStation/cpu/cpu.cpp:10-13 | the same for the difference |
| `CpuArith.MultExact` | CppStation/cpu/cpu.cpp:1110-1152 | HI:LO is the exact 64-bit product, signed or unsigned |
| `CpuArith.TruncDivExact` | CppStation/cpu/cpu.cpp:920-921 | truncating division: a remainder smaller than the divisor with the dividend's sign |
| `CpuArith.DivExact` | CppStation/cpu/cpu.cpp:897-923 | LO times divisor plus HI is the dividend modulo 2^32 with \|HI\| below \|divisor\|, also for -2^31 by -1 |
| `CpuArith.DivuExact` | CppStation/cpu/cpu.cpp:955-972 | the unsigned law |
| `Unaligned.LwlExact` | CppStation/cpu/cpu.cpp:1216-1236 | for every register, word and offset LWL replaces exactly the top offset + 1 bytes of the register by the bottom bytes of the word |
| `Unaligned.LwrExact` | CppStation/cpu/cpu.cpp:1262-1282 | LWR replaces the bottom 4 - offset bytes by the top bytes of the word if and only if the stated condition on the bytes holds, for each offset |
| `Unaligned.SwlExact` | CppStation/cpu/cpu.cpp:1304-1321 | SWL stores what it should if and only if the bytes it loses are zero and the bytes it replaces have no bit that the new ones lack; at offset 3 always |
| `Unaligned.SwrExact` | CppStation/cpu/cpu.cpp:1341-1358 | the exact condition for SWR, for each offset |
| `Unaligned.UnalignedLoadStep` | CppStation/cpu/cpu.cpp:1197-1287 | LWL and LWR as whole steps: the load is pending with the merged value, merged with the value in flight |
| `Unaligned.UnalignedStoreStep` | CppStation/cpu/cpu.cpp:1289-1361 | SWL and SWR as whole steps: the aligned word is stored, rightly if and only if the condition holds |
| `Unaligned.PairLoads` | CppStation/cpu/cpu.cpp:1197-1287 | two steps, LWL at the last byte and LWR at the first, load the word in memory if and only if the LWR condition holds of what the LWL made; on an aligned word, if and only if its top byte is zero |
| `CpuModel.StepKeeps` | CppStation/cpu/cpu.cpp:324-378 | every step keeps register 0 at zero, and the next PC sequential unless the instruction branched |
| `CpuObject.Cpu.constructor` | CppStation/cpu/cpu.cpp:17-41 | the reset state, both register files equal |
| `CpuObject.Cpu.RaiseException` | CppStation/cpu/cpu.cpp:380-419 | SR, CAUSE, EPC and both PCs after an exception; no register changes |
| `CpuObject.Cpu.OpSpecial` | CppStation/cpu/cpu.cpp:111-201 | every primary-opcode-0 instruction reads the input file and has its single effect |
| `CpuObject.Cpu.OpDiv` | CppStation/cpu/cpu.cpp:897-923 | HI and LO in all three cases of the signed division |
| `CpuObject.Cpu.OpBranch` | CppStation/cpu/cpu.cpp:490-862 | branches and jumps, with the link written before the target is set |
| `CpuObject.Cpu.OpLoad` | CppStation/cpu/cpu.cpp:594-1287 | word loads go to the pending slot, or stop as the bus does; LW alone is ignored while the cache is isolated |
| `CpuObject.Cpu.OpNarrowLoad` | CppStation/cpu/cpu.cpp:700-1073 | byte and half-word loads with their extensions; only LHU checks alignment |
| `CpuObject.Cpu.OpStore` | CppStation/cpu/cpu.cpp:446-1361 | the five stores with their alignment faults, in the order in which the code checks |
| `CpuObject.Cpu.StoreUnlessIsolated` | CppStation/cpu/cpu.cpp:64-105 | a store reaches the bus if and only if the cache is not isolated |
| `CpuObject.Cpu.DecodeAndExecute` | CppStation/cpu/cpu.cpp:107-322 | for every instruction word, the effect on CPU, memory, DMA and GPU |
| `CpuObject.Cpu.RunNextInstruction` | CppStation/cpu/cpu.cpp:324-378 | the two-file machine refines the one-file machine: one call is one step of it, and the two files agree again afterwards |
| `CpuObject.Cpu.FaultOnPc` | CppStation/cpu/cpu.cpp:330-335 | the early return on a misaligned PC, with the delay-slot flag of the instruction before |
| `CpuObject.Cpu.MoveOn` | CppStation/cpu/cpu.cpp:348-367 | the PC advances and the pending load arrives in the output file before decoding |
| `CpuObject.Cpu.CopyOut` | CppStation/cpu/cpu.cpp:373-376 | the copy loop makes the two files equal |
| `Encoding.RFields` | CppStation/include/cpu/cpu.hpp:39-97 | the decoders return the fields a register-format word was put together from |
| `Encoding.IFields` | CppStation/include/cpu/cpu.hpp:39-85 | the same for the immediate format, and the immediate's sign extension |
| `Encoding.JFields` | CppStation/include/cpu/cpu.hpp:87-91 | the same for the jump format |
| `Encoding.CopFields` | CppStation/include/cpu/cpu.hpp:51-73 | the same for system-control words |
| `Encoding.EveryWord` | CppStation/include/cpu/cpu.hpp:39-97 | every instruction word is put together from its decoded fields |
| `Instructions.ShiftStep` | CppStation/cpu/cpu.cpp:468-477 | the six shifts, as multiplication and division by powers of two |
| `Instructions.AddSubStep` | CppStation/cpu/cpu.cpp:627-884 | ADDU and SUBU modulo 2^32 |
| `Instructions.LogicStep` | CppStation/cpu/cpu.cpp:498-1133 | AND, OR, XOR and NOR, bit by bit |
| `Instructions.CompareStep` | CppStation/cpu/cpu.cpp:616-993 | SLT compares signed and SLTU unsigned numbers |
| `Instructions.HiLoStep` | CppStation/cpu/cpu.cpp:925-1007 | MFHI, MTHI, MFLO and MTLO move the right half and keep the other |
| `Instructions.JumpRegisterStep` | CppStation/cpu/cpu.cpp:691-832 | target and link of JR and JALR |
| `Instructions.TrapStep` | CppStation/cpu/cpu.cpp:111-201 | exactly which primary-opcode-0 instructions trap, and the number each leaves in CAUSE |
| `Instructions.ImmediateOpStep` | CppStation/cpu/cpu.cpp:426-952 | ADDIU, SLTI, SLTIU and LUI on the signed immediate |
| `Instructions.ImmediateLogicStep` | CppStation/cpu/cpu.cpp:436-1180 | ANDI, ORI and XORI on the unsigned immediate, bit by bit |
| `Instructions.BranchStep` | CppStation/cpu/cpu.cpp:555-802 | when BEQ, BNE, BLEZ and BGTZ are taken, and where they go |
| `Instructions.BranchZeroStep` | CppStation/cpu/cpu.cpp:834-862 | the same for BLTZ and BGEZ, with and without link, the link being written either way |
| `Instructions.JumpStep` | CppStation/cpu/cpu.cpp:490-666 | target and link of J and JAL |
| `Instructions.LoadStep` | CppStation/cpu/cpu.cpp:594-1073 | LB, LH, LW, LBU and LHU at register plus signed offset: the bus access made and the extended value left pending |
| `Instructions.StoreStep` | CppStation/cpu/cpu.cpp:446-689 | SB, SH and SW: width, address, the part of the register stored, alignment faults, isolation |
| `Instructions.StoredOnBus` | CppStation/cpu/cpu.cpp:64-105 | such a step makes the bus store of that width, and nothing else on the bus |
| `Instructions.StoreThenLoad` | CppStation/cpu/cpu.cpp:446-614 | SW and then LW at the same offset, positive or negative, through any alias of memory, give the word back |
| `Instructions.Cop0Step` | CppStation/cpu/cpu.cpp:509-752 | MFC0, MTC0 and RFE, and panic for everything else |
| `Instructions.OtherOpcodes` | CppStation/cpu/cpu.cpp:202-321 | coprocessor and illegal opcodes: which exception number, and which panic |
| `CpuRuns.RunInvariant` | CppStation/cpu/cpu.cpp:324-378 | any number of steps from a valid state keeps register 0, the PC discipline, the GP0 parser invariant and DMA quiescence |
| `CpuRuns.RegisterLaw` | CppStation/cpu/cpu.cpp:348-376 | every register after a step: the instruction's own write beats the arriving load, which beats the old value |
| `CpuRuns.LoadArrivesLate` | CppStation/cpu/cpu.cpp:351-362 | a load shows up exactly one instruction late, and a write in its delay slot wins |
| `CpuRuns.PendingLoadInvisible` | CppStation/cpu/cpu.cpp:351-362 | no instruction but LWL and LWR can observe the value of the load still on its way |
| `CpuRuns.LinkValue` | CppStation/cpu/cpu.cpp:654-666 | every linking jump saves the address after the delay slot |
| `CpuRuns.BranchThenTarget` | CppStation/cpu/cpu.cpp:344-367 | after a taken branch the delay slot runs, then, unless it faults, the target |
| `CpuRuns.BranchFromStraightCode` | CppStation/cpu/cpu.cpp:344-367 | outside a delay slot the slot is at p+4 and the link is p+8 |
| `CpuRuns.StepPc` | CppStation/cpu/cpu.cpp:344-367 | how one instruction moves both PCs and both flags |
| `CpuRuns.RegisterSurvives` | CppStation/cpu/cpu.cpp:348-376 | over a stretch of a run that does not write a register, the register keeps its value |
| `CpuRuns.CallReturns` | CppStation/cpu/cpu.cpp:654-698 | a linking jump at p, any subroutine that leaves the link register alone, and a jump to it resume at p+8 |
| `CpuRuns.FaultRecords` | CppStation/cpu/cpu.cpp:380-419 | EPC, CAUSE and handler of a fault, told apart by whether a branch came just before |
| `CpuRuns.SlotFaultIsPrecise` | CppStation/cpu/cpu.cpp:404-413 | a fault in the slot of a taken branch sets bit 31, and EPC is the branch's address if and only if the slot followed it in memory, as it does when the branch was not itself in a slot |
| `CpuRuns.PlainFaultIsPrecise` | CppStation/cpu/cpu.cpp:404-405 | any other fault records its own address with bit 31 clear |
| `ExceptionRuns.MisalignedPcFault` | CppStation/cpu/cpu.cpp:328-335 | a misaligned PC records its own address with bit 31 clear if and only if the delay-slot flag left over is clear |
| `ExceptionRuns.MisalignedJumpFaults` | CppStation/cpu/cpu.cpp:328-413 | after a jump to a misaligned target, EPC is the target minus four and bit 31 is set |
| `ExceptionRuns.ExceptionReturns` | CppStation/cpu/cpu.cpp:380-419 | a fault at p, any handler without a fault of its own or a write to SR, and a jump to EPC with RFE in its slot resume at p with SR equal to the original AND 0x0f, every register left alone unchanged |
| `CpuRuns.ModesAt` | CppStation/cpu/cpu.cpp:389-398 | at every point of a well-nested sequence the mode bits are what survives of the original ones, moved up by the depth |
| `CpuRuns.RunModes` | CppStation/cpu/cpu.cpp:1031-1045 | SR along a run is determined by its exceptions and returns |
| `CpuRuns.NestedRunRestoresModes` | CppStation/cpu/cpu.cpp:389-398 | over any well-nested run of deepest nesting d the low six SR bits end as the original masked by 0x3f >> 2d |
| `CpuRuns.ModeChangeDropsUpperBits` | CppStation/cpu/cpu.cpp:397 | the upper SR bits survive an exception or RFE if and only if they were all zero |
| `CpuRuns.IsolatedStep` | CppStation/cpu/cpu.cpp:64-105 | with SR bit 16 set no instruction word changes memory, DMA or GPU |
| `CpuRuns.IsolatedRun` | CppStation/cpu/cpu.cpp:64-105 | nor does any run of them |
| `CpuRuns.SubExactOrFaults` | CppStation/cpu/cpu.cpp:1154-1169 | SUB writes the exact difference if it fits, and otherwise raises Overflow with no write of its own |
| `CpuRuns.AddWritesEvenOnOverflow` | CppStation/cpu/cpu.cpp:765-780 | ADD faults if and only if the sum does not fit, and writes the wrapped sum in either case |
| `CpuRuns.AddiWritesEvenOnOverflow` | CppStation/cpu/cpu.cpp:580-592 | ADDI faults if and only if the sum with the sign-extended immediate does not fit, and writes the wrapped sum in either case |
| `CpuRuns.MultiplyExact` | CppStation/cpu/cpu.cpp:1110-1152 | the product law for a whole step |
| `CpuRuns.DivideExact` | CppStation/cpu/cpu.cpp:897-972 | the division law for a whole step |
| `CpuRuns.DivideByZero` | CppStation/cpu/cpu.cpp:905-967 | HI is the dividend and LO all ones, or 1 for a negative signed dividend |
| `Witnesses.EndMarkerWitness` | CppStation/bus.cpp:413-424 | a memory image whose one-header list bit 23 ends, and on which the transfer runs forever |
| `Witnesses.OddTableWitness` | CppStation/bus.cpp:418-504 | a table of two entries at base 1 is walked as one |
| `Witnesses.EmptyImageWitness` | CppStation/gpu/gpu.cpp:358-379 | a 0 by 0 image swallows the draw-mode command after it |
| `Witnesses.SplitQuadWitness` | CppStation/gpu/opengl/renderer.cpp:117-127 | a quad pushed with four slots free |
| `Witnesses.DisplayModeWitness` | CppStation/gpu/gpu.cpp:582-599 | 480 lines asked for and not given, and the reverse |
| `Witnesses.UpperSrWitness` | CppStation/cpu/cpu.cpp:389-398 | a SYSCALL with SR 0x10000, as the first instruction after reset, leaves SR zero |
| `Witnesses.OverreadWitness` | CppStation/cpu/cpu.cpp:594-614 | an LW at 0x801ffffd, as the first instruction after reset, runs past the end of memory |
| `Witnesses.AddWitness` | CppStation/cpu/cpu.cpp:765-780 | an ADD, as the first instruction after reset, that faults and writes |
| `Witnesses.AddiWitness` | CppStation/cpu/cpu.cpp:580-592 | an ADDI, as the first instruction after reset, that faults and writes |
| `Witnesses.SlotFaultWitness` | CppStation/cpu/cpu.cpp:380-419 | a jump with SYSCALL in its slot, from reset, meets the premises of the precise-exception theorem |
| `Witnesses.UnalignedWitness` | CppStation/cpu/cpu.cpp:1243-1361 | wrong results of LWR, SWL and SWR for every offset at which they can be wrong |

## Left out

- OpenGL, windows, shaders, input callbacks, logging, the crash backtrace and the main loop: foreign calls and I/O.
- Reading the BIOS file: the BIOS is a constant sequence of 512 KB, given to the bus.
- `CppStation/include/result.hpp` is not part of this model: a third-party result type.
- The geometry coprocessor, sound, timers, interrupt control and expansion registers beyond the constants and panics the code has: stubs without behaviour.
- Timing, DMA chopping and priorities: the code ignores them too.
- Texture and pixel data: the code drops them.
- Alignment faults of LW and LH: the code does not check; what follows from that is `Bounds.StepOverreads`.
- BusObject.Bus.Store32: requires that the write does not start a linked-list transfer that never ends, because a Dafny method must terminate; the same holds for the methods that call it.
- CpuRuns.RegisterLaw: leaves out the step that faults on a misaligned PC, in which no instruction is fetched; `ExceptionRuns.MisalignedPcFault` is about that step.
