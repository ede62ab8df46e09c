# A verified model of the Viua assembler and machine

Viua is a register machine with its own assembler, static linker, disassembler and CPU. This project models the parts of it that carry the hard properties and proves them with Dafny 4.11. `dafny verify dfyconfig.toml` checks everything.

Three results carry most of the weight.

1. **Generated bytecode does what its source does.** `EndToEnd.BuildAndLoad` assembles a file of functions and blocks, links a library, reads the address tables back, and ensures that what has been loaded goes, from the start of any function and for any number of steps, through the same states as the source lines, in which jumps, calls and blocks name instructions by index. The only extra steps are NOPs on the NUL that `import`, `link` and the return address saved by `enter` stop at, and they are counted exactly. `JobSimulates` and `JobIsSimulated` are the two directions. They rest on cutting and counting the file, the emitters, the offset scan, the in-place patching of jumps, the layout, the address tables and the relocation, each of which is a method proved against what it has to produce. Where linking does not keep the meaning, `LinkedBlocks` says when.
2. **The machine keeps its stacks in order in every run.** Frames stay distinct and at most 8193, blocks stay nested in frames exactly until an `end` drops a frame with an open block, a matched `call` and `end` or `enter` and `leave` restore both stacks, a thrown object is caught by the innermost block with a handler for its class or an ancestor, and a handler rejoins the normal path, with the frames it should have exactly in the cases named.
3. **Registers with counted references refine registers that name locations.** Memory is modelled object by object, with every destructor; each counter is the number of live references, nothing is destroyed twice or, as long as no operation fails or empties a register, left behind undestroyed, and every run of register operations, those that raise included, is a run of the simple store.

Both sides of the first result run through the same tick, and both come from the same lines, so what a tick and a line mean is stated on its own. `Effects` says of every control instruction what one step does to the machine, `Targets` which instruction an operand of a line stands for, and `SourceRuns`, `Catchers` and `EntryRuns` carry this to runs: a `branch` line takes a run to the line that its true or false operand names, a block entered after `try` and `catch` handles exactly the types named there, and the entry function passes register 1 to the main function and makes its result the return code.

Beside these stand the class hierarchy (`inheritanceChainOf` terminates although it extends the vector it iterates, and a message is resolved by the first class that accepts it), the expansion of nested source lines, the static frame check, the disassembler round trip, and quoting.

## How the model is laid out

- `Bytes`, `Opcodes`, `Instructions`: bytes, 32-bit integers, the opcode and size tables, and what the emitters write.
- `Text`: quoting, extraction and escape decoding.
- `Scan`, `Jumps`, `Patching`, `Programs`: reading instruction boundaries back, recording jump positions, patching as a function of the bytes, and the class `Program` that owns the byte array.
- `Assembler`, `Compiler`, `Files`, `Sections`, `Generator`, `Building`, `Linker`, `Loader`: from source lines to the written file and back to address maps.
- `Disassembler`: bytecode to listing, and when the listing means the same bytecode.
- `Machine`: one tick as a function on values; it runs bytecode or instruction lists. `Cpus`: the same as a class whose handlers update fields, with the loops of the source. `Stacks`, `Brackets`: what holds in every run. `Effects`: what each instruction does in one step. `Catchers`: where the handlers of a block come from.
- `Handlers`: unwinding on a real class hierarchy.
- `Addresses`, `Simulation`, `EndToEnd`, `LinkedBlocks`: the correctness of generated and linked code.
- `Targets`, `SourceRuns`, `EntryRuns`: what lines mean, where they lead a run, and what the entry function does.
- `References`, `Losses`, `Registers`, `Locations`: objects, references and register sets; what is never destroyed; the class that updates them; the store they refine.
- `Types`: prototypes, registration, chains and messages.
- `Expansion`: nested source forms.
- `FrameBalance`: the static check and its soundness.

What instructions do to registers is a parameter of `Machine` (`Semantics`): the results about control hold whatever it is. Where the code goes wrong, the model goes wrong in the same way; one lemma says exactly when, and another shows an input:

- a branch files its second target by the kind of the first (`Jumps.FilingIsExact`, `Compiler.ConsistentMeaning`; `Jumps.MixedBranchMisses`);
- blocks of a library are lost when it is linked (`LinkedBlocks.MeaningIsKeptExactly`, `LinkedBlocks.LinkedRunParts`; `LinkedBlocks.LibraryBreaks`);
- absolute jumps are resolved in an image whose end is not written yet (`Patching.ScanIsExact`, `Building.Build`; `Building.UnwrittenDecides`);
- absolute jumps of a library do not move with it (`Linker.MovesExactly`, `Building.WrittenExecutable`; `Linker.LibraryJumpMisses`);
- the size of the image is counted over lines of which some are never generated (`Building.SizeIsExact`; `Building.TopLevelInLibrary`);
- the disassembler has no case for `prototype` and drops the at-register flag of a byte constant (`Disassembler.ReassembledInstr` lists exactly what survives; `Disassembler.PrototypeIsLost`, `Disassembler.ByteFlagIsLost`);
- `extract` miscounts backslashes (`Text.ExtractOfEnquoted`; `Text.LoneBackslash`), and `strdecode` is not the inverse of `enquote` on them (`Text.DecodeOfEnquoted`; `Text.BackslashLetter`);
- an exception caught by its detailed type unwinds nothing (`Stacks.DetailedUnwindsNothing`, `Brackets.DetailedStaysWithin`; `Stacks.DetailedStays`);
- the unwinding scan stops at stack index 1 (`Stacks.UnwindTop`, `Brackets.ThrowStaysWithin`; `Stacks.ThrownFromCallStays`);
- `end` never closes blocks (`Stacks.DispatchNesting`; `Stacks.EndLeavesBlock`);
- `ref` onto itself or onto a register that holds a reference nests references (`Registers.Memory.Ref`; `Registers.RefOntoItself`);
- registering a class again can close a cycle (`Types.RegistrationIsExact`; `Types.RegisteredAgain`);
- `getmarks` counts lines that `filter` drops (`Assembler.SurplusExactly`; `Assembler.DirectiveShiftsMark`);
- `empty` forgets an object without destroying it (`Registers.Memory.Clear`).

## Model

| member | source | states |
|---|---|---|
| Bytes.ReadWritten | src/cg/bytecode/instructions.cpp:5-24 | an integer written anywhere in a byte array is read back, negative ones included |
| Bytes.LittleEndian | src/cg/bytecode/instructions.cpp:5-24 | an integer is stored with its least significant byte first, a negative one modulo 2^32 |
| Bytes.ReadTerminated | src/cg/bytecode/instructions.cpp:392-403 | a NUL-terminated text is read back exactly, whatever follows it |
| Text.Enquote | src/support/string.cpp:226-241 | the loop puts a backslash before every quote and quotes around |
| Text.Extract | src/support/string.cpp:148-186 | the loop takes the literal up to the quote at which the backslash counter is zero |
| Text.StrDecode | src/support/string.cpp:242-305 | the loop decodes escapes left to right |
| Text.PendingMeaning | src/support/string.cpp:148-186 | the backslash counter is zero after a text exactly when every backslash has a quote behind it |
| Text.ExtractOfEnquoted | src/support/string.cpp:148-186 | an enquoted string is extracted in front of a tail exactly when the tail is empty or no backslash lacks a quote behind it |
| Text.DecodeOfEnquoted | src/support/string.cpp:226-305 | decoding the inside of an enquoted string gives it back exactly when every backslash is last or right before a quote |
| Text.QuotingRoundTrip | src/support/string.cpp:148-305 | for backslash-free text and any tail, extracting and decoding undo enquoting |
| Text.LoneBackslash | src/support/string.cpp:148-186 | a string of one backslash is not extracted from what follows it |
| Text.BackslashLetter | src/support/string.cpp:226-305 | a backslash and an n come back as one newline |
| Text.SpellingDecoded | src/support/string.cpp:242-305 | every text can be written so that decoding gives it back: control bytes by their letters, quotes and backslashes behind a backslash |
| Text.OtherEscape | src/support/string.cpp:242-305 | a backslash in front of any byte that is no such letter is dropped |
| Instructions.SizeIsEncodedLength | include/viua/bytecode/maps.h:12-126 | the size table, with names and their NULs added, is the length of what the emitters write |
| Instructions.Layout | src/cg/bytecode/instructions.cpp:26-43 | instruction k occupies exactly the bytes between its start and the next one's |
| Instructions.StoredOperands | src/cg/bytecode/instructions.cpp:5-43 | register operands follow the opcode in order, five bytes each: the flag of a register that only holds the index, and the index, least significant byte first |
| Scan.StrideIsSize | src/program.cpp:213-303 | the offset scan steps over exactly the bytes the generator wrote, for every instruction |
| Patching.ScanInCode | src/program.cpp:213-303 | the scan finds the start of every instruction of code at the head of an array, and the end of the code when something lies behind it |
| Patching.ScanIsExact | src/program.cpp:213-303 | what the bytes behind the code hold matters exactly for the indexes behind its end that could still be reached |
| Patching.PatchesCode | src/program.cpp:332-355 | patching code at the head of an array rewrites exactly the listed targets, whatever lies behind it, as long as the scan reaches each of them in the code |
| Patching.PatchingFails | src/program.cpp:332-355 | it fails for certain when some target could not be reached even if all bytes behind the code were instructions |
| Patching.StaleSizeRight | src/program.cpp:58-90 | the outdated sizes lack the flags of register operands for fifteen opcodes and the operands of all others, so they are right exactly for jumps and for instructions without operands |
| Patching.NegativeIndex | src/program.cpp:213-303 | in code of such instructions -1 is the last instruction, -2 the one before it, and so on; what reaches further back is the first byte |
| Jumps.RecordedExactly | src/programinstructions.cpp:618-657 | a jump operand is in a list exactly when its emitter put it there |
| Jumps.FilingIsExact | src/programinstructions.cpp:635-657 | all targets of an instruction are filed under their own kind exactly when a branch does not mix absolute targets with others |
| Jumps.FiledMeaning | src/programinstructions.cpp:618-657 | what is recorded of a code is what is recorded of the code with kinds as they are filed; the two are the same exactly when no branch mixes absolute targets with others |
| Jumps.MixedBranchMisses | src/programinstructions.cpp:635-657 | a branch to a relative and else to an absolute target: both are patched as relative |
| Jumps.PatchedCode | src/program.cpp:332-355 | overwriting one operand changes its four bytes and gives the code with that target replaced |
| Jumps.RewrittenMeaning | src/program.cpp:332-355 | overwriting any list of distinct operands sets exactly these and leaves everything else |
| Jumps.RewritingKeeps | src/program.cpp:332-355 | in the middle of patching no instruction has moved and the next operand still holds its index |
| Jumps.RewrittenIsResolved | src/program.cpp:332-355 | patching what was recorded turns exactly the targets of that kind into byte addresses in the whole they are counted in |
| Programs.Program.Generate | src/programinstructions.cpp:415-770 | emitting writes the encoding of an instruction behind the code so far |
| Programs.Program.Note | src/programinstructions.cpp:618-657 | the two lists gain the positions of the operands, under the kind the source files them by |
| Programs.Program.Emit | src/programinstructions.cpp:618-657 | code grows by the instruction, bytes and recorded positions agree with it |
| Programs.Program.InstructionCount | src/program.cpp:58-90 | the loop counts instructions by its own outdated sizes |
| Programs.Program.GetInstructionBytecodeOffset | src/program.cpp:213-303 | on any array the loop stops where the scan function says, with an error where that has one; a negative index counts back from the given count |
| Programs.Program.CalculateJumps | src/program.cpp:332-355 | on any array every listed target is replaced in turn by what the scan finds for it, or some target is found nowhere; the count for negative ones is the stale one of the source |
| Programs.Program.CalculateLocalJumps | src/front/asm/generate.cpp:937-942 | all targets filed as relative are turned into addresses for an element at a byte offset, exactly when each of them is an instruction of the element |
| Assembler.Filter | src/front/asm/generate.cpp:157-200 | the lines that are to produce bytecode, in order: every definition is skipped up to the next `.end`, whatever it contains, and an `.end` too many is kept |
| Assembler.GetMarks | src/cg/assembler/codeextract.cpp:26-67 | marks as the source counts them, for any lines whose functions end: functions are skipped wherever they stand, blocks, classes and directives are counted |
| Assembler.MarkMeaning | src/cg/assembler/codeextract.cpp:26-67 | a mark is the index of the next instruction behind its last definition outside of functions, off by one for every line before it that is counted without producing an instruction |
| Assembler.SurplusExactly | src/cg/assembler/codeextract.cpp:26-67 | there is no such line exactly when only instructions, marks, names, links and functions stand in front of the mark |
| Assembler.DirectiveShiftsMark | src/cg/assembler/codeextract.cpp:26-67 | a mark behind one directive stands for the second instruction instead of the first |
| Assembler.LineBytesIsSize | src/program.cpp:111-210 | the size counted from the text of a line is the length of the instruction generated for it |
| Assembler.CountBytes | src/program.cpp:111-210 | the sum over any lines in 16 bits, and an error exactly on an unknown instruction |
| Assembler.CountIsExact | src/program.cpp:111-210 | for a body that assembles the count is the length of its bytes |
| Targets.ResolvedExactly | src/front/asm/generate.cpp:26-60 | an operand of a jump is accepted exactly when it stands for a target that is not negative and fits: for a mark what follows its last definition, for `+n` and `-n` the n-th instruction behind or in front of the own one, for a number that instruction of the body, for `.n` one of the whole, for `0x...` a byte |
| Targets.JumpLine | src/front/asm/generate.cpp:520-560 | a `jump` line becomes a jump to what its operand stands for |
| Targets.BranchLine | src/front/asm/generate.cpp:472-519 | a `branch` line becomes a branch that tests its first operand and goes to what the second or the third stands for, or behind itself without a third |
| Targets.MarkedLine | src/cg/assembler/codeextract.cpp:26-67 | a jump to a mark goes to the first instruction kept behind it exactly when every line in front of the mark counts as it should |
| Targets.TargetsAssemble | src/front/asm/generate.cpp:472-560 | a jump assembles exactly when it has one operand that stands for something, a branch exactly when it has a register and one or two such operands |
| Targets.BodyAssembles | src/front/asm/generate.cpp:202-614 | a body assembles exactly when everything kept of it is an instruction that does |
| Targets.ShortForms | src/front/asm/generate.cpp:202-614 | what operands that are left out stand for |
| Compiler.Compile | src/front/asm/generate.cpp:202-614 | the program holds exactly the instructions of the body, or the body does not assemble |
| Compiler.ConsistentMeaning | src/programinstructions.cpp:635-657 | the code generated for a body is the code its lines mean exactly when no branch mixes absolute targets with others |
| Compiler.GenerateElement | src/front/asm/generate.cpp:897-966 | any body: its bytes with the targets filed as relative resolved at its place, and both position lists; it fails exactly when the body does not assemble or such a target is outside |
| Files.GetNames | src/cg/assembler/codeextract.cpp:117-167 | the names of all functions or blocks in textual order |
| Files.GetInvokables | src/cg/assembler/codeextract.cpp:182-213 | the lines of each of them, or an error exactly when one is opened inside another of the same kind |
| Files.CutAsWritten | src/cg/assembler/codeextract.cpp:117-213 | a file written as definitions with lines between them is cut into these: names and bodies of each kind in order, and the instructions between |
| Files.CountOfParts | src/program.cpp:111-210 | one count over a whole file counts the functions, the blocks, what else the classes contain and the instructions on the top level, each once |
| Files.EntryMeaning | src/front/asm/generate.cpp:762-787 | the entry function holds the instructions of the top level between the generated ones (`EntryRuns.EntryCode` says which), and is as long as what is added to the count for it |
| Sections.FlatLengths | src/front/asm/generate.cpp:1187-1223 | counted sizes, unresolved code and placed code have the same length |
| Sections.FlatConcat | src/front/asm/generate.cpp:1187-1223 | laying elements after elements places them at the byte where the first end |
| Sections.RecordedConcat | src/front/asm/generate.cpp:949-963 | the jumps of concatenated code are those of the parts, shifted |
| Sections.PlacedAbsolute | src/front/asm/generate.cpp:957-963 | resolving relative targets leaves the absolute ones, and only them, to be resolved |
| Generator.MapInvokableAddresses | src/front/asm/generate.cpp:633-644 | every name gets the wrapped sum of the sizes before it, or some instruction is unknown |
| Generator.GenerateSection | src/front/asm/generate.cpp:886-1039 | all elements of a section with their jump table and absolute positions, which list exactly the operands filed under each kind; it fails exactly when some body does not assemble |
| Generator.CopySection | src/front/asm/generate.cpp:1187-1223 | the elements lie in the image one after the other, each resolved for the byte where it lies |
| Generator.WriteTable | src/front/asm/generate.cpp:1083-1165 | the table lists every name with the byte where its element lies, the entry function last |
| Generator.ReachedOrLost | src/program.cpp:213-303 | with at most one byte behind the local code, an absolute target that cannot be resolved for certain fails for certain |
| Generator.CalculateAbsoluteJumps | src/front/asm/generate.cpp:1230-1235 | absolute targets of code at the head of a larger image are resolved when each is a local instruction or the first byte behind them, and it fails for certain when one is beyond the image; nothing behind the code is touched |
| Generator.LinkedExecutable | src/front/asm/generate.cpp:1230-1273 | local code with its absolute jumps resolved before the library is there, followed by the moved library, is the executable code of both together exactly when the absolute targets of the library have the same addresses in both |
| Generator.WriteLinked | src/front/asm/generate.cpp:1166-1176 | functions of the library are listed at their old address plus the offset |
| Building.SizeIsExact | src/front/asm/generate.cpp:747-804 | the size counted over all lines is the size of what is generated exactly when no instruction stands outside of functions and blocks |
| Building.TopLevelInLibrary | src/front/asm/generate.cpp:753 | a library with one instruction on its top level: counted, not generated |
| Building.Build | src/front/asm/generate.cpp:689-1279 | from lines to the written sections; it succeeds only if everything assembles and the main function exists, and then whenever the absolute jumps can be reached, with the tables and bytes they should be; it fails when one is lost; with at most one byte behind the local code it succeeds exactly then |
| Building.WrittenExecutable | src/front/asm/generate.cpp:1183-1279 | when everything counted is generated, the bytes written are those of assembling file and library together exactly when the absolute targets of the library have the same addresses in both |
| Building.JumpsBehind | src/front/asm/generate.cpp:1230-1235 | a file with one instruction, which jumps two instructions behind itself: linked with anything of two or more bytes, the target is neither reached nor lost |
| Building.UnwrittenDecides | src/front/asm/generate.cpp:1230-1235 | whether it is assembled then depends on what unwritten memory holds |
| Linker.SectionTwice | src/front/asm/generate.cpp:1258-1267 | a library placed at two bytes differs only in its relative targets, by the distance |
| Linker.RaisedIsPlaced | src/front/asm/generate.cpp:1258-1267 | adding the offset to what the jump table lists gives the library moved to the offset |
| Linker.Relocate | src/front/asm/generate.cpp:1258-1267 | in-place relocation gives exactly that, for any library |
| Linker.MovesExactly | src/front/asm/generate.cpp:1258-1267 | every target of a library moves with it exactly when it is not moved at all or all of its targets are relative |
| Linker.LibraryJumpMisses | src/front/asm/generate.cpp:1258-1267 | a library that consists of `jump .0`: wherever it is copied to, it jumps to byte 0 of the image |
| Linker.LinkLibrary | src/front/asm/generate.cpp:1240-1273 | the relocated library lies behind the bytes used so far, and nothing else changes |
| Loader.LoadMap | src/loader.cpp:14-34 | reading a written table gives back names in order and the map from names to addresses |
| Loader.EntryStored | src/front/asm/generate.cpp:1083-1165 | an entry of a table is the name, a NUL and the address modulo 2^16, least significant byte first |
| Loader.MappingOfDistinct | src/loader.cpp:14-34 | with distinct names every address is recovered |
| Loader.CalculateFunctionSizes | src/loader.cpp:35-56 | the loop computes the distance to the next function or to the end |
| Loader.SizesPartition | src/loader.cpp:35-56 | for any ascending table, linked functions included, the sizes sum to the end minus the first address |
| Loader.FunctionSizes | src/loader.cpp:35-56 | for the functions of one file each size is that of the body |
| Loader.LoadedEntries | src/loader.cpp:14-34 | loading the written table finds every element at its byte |
| Disassembler.Registers | src/cg/disassembler/disassembler.cpp:106-200 | register operands are printed as they were stored |
| Disassembler.Texts | src/cg/disassembler/disassembler.cpp:42-103 | names and literals are printed as they were stored and the cursor moves over them; a `prototype` is skipped by one byte only |
| Disassembler.Specials | src/cg/disassembler/disassembler.cpp:201-262 | jump targets, constants and register sets as printed |
| Disassembler.Instruction | src/cg/disassembler/disassembler.cpp:21-268 | any written instruction is decoded to its operands and stepped over, an unknown opcode is an error |
| Disassembler.Sweep | src/cg/disassembler/disassembler.cpp:21-268 | sweeping an element stops at exactly the instruction starts, ends at its size and lists every instruction |
| Disassembler.ReassembledInstr | src/cg/disassembler/disassembler.cpp:21-268 | the listing of an instruction assembles to the same instruction exactly under the conditions of `Printable`, where a float has to be read as it was printed |
| Disassembler.PrototypeIsLost | src/cg/disassembler/disassembler.cpp:21-103 | a prototype: nothing of it is listed, and the sweep goes on one byte further |
| Disassembler.ByteFlagIsLost | src/cg/disassembler/disassembler.cpp:201-262 | a byte taken from a register is listed as a constant |
| Disassembler.ReassembledCode | src/cg/disassembler/disassembler.cpp:21-268 | the listing of an element assembles to the same element, hence to the same bytes, exactly when all of its instructions are such |
| Cpus.Cpu.RequestNewFrame | src/cpu/cpu.cpp:201-210 | a second pending frame is refused |
| Cpus.Cpu.PushFrame | src/cpu/cpu.cpp:212-231 | the limit, the corruption check and the push, in that order |
| Cpus.Cpu.DropFrame | src/cpu/cpu.cpp:232-243 | the registers of the frame are destroyed and those of the one below selected |
| Cpus.Cpu.CallNative | src/cpu/cpu.cpp:246-278 | name, return address and result register are noted before the frame is pushed |
| Cpus.Cpu.End | src/cpu/instr/calls.cpp:186-233 | the return value is taken before the frame is dropped and placed after it |
| Cpus.Cpu.VmTry | src/cpu/instr/tcmechanism.cpp:8-16 | one block may be pending |
| Cpus.Cpu.VmCatch | src/cpu/instr/tcmechanism.cpp:18-44 | a catcher is filed under its type, where it replaces an earlier one (`Effects.CatchEffect`) |
| Cpus.Cpu.VmEnter | src/cpu/instr/tcmechanism.cpp:70-97 | the block notes the NUL of its name and the top frame |
| Cpus.Cpu.VmThrow | src/cpu/instr/tcmechanism.cpp:99-129 | a throw moves on before the object is looked for, a failing one does not |
| Cpus.Cpu.Pull | src/cpu/instr/tcmechanism.cpp:46-68 | the caught object is kept when the register cannot take it |
| Cpus.Cpu.Leave | src/cpu/instr/tcmechanism.cpp:131-149 | the top block is closed and its address taken |
| Cpus.Cpu.Dispatch | src/cpu/dispatch.cpp:8-255 | every instruction goes to its handler, which does what `Effects` says of it |
| Cpus.Cpu.CatchDetailed | src/cpu/cpu.cpp:624-639 | the loop finds the topmost block with the detailed type |
| Cpus.Cpu.FindCatcher | src/cpu/cpu.cpp:641-660 | the two loops find the topmost block with a match and the best type in it |
| Cpus.Cpu.UnwindFrames | src/cpu/cpu.cpp:661-669 | the distance loop and the drop loop, which stop at index 1 |
| Cpus.Cpu.Tick | src/cpu/cpu.cpp:555-692 | dispatch, the two address checks, handlers and unwinding in the order of the source |
| Cpus.Cpu.Run | src/cpu/cpu.cpp:694-705 | ticking until the machine stops is so many ticks of the function; frames stay sound, and blocks nested unless an `end` leaves an open one |
| Effects.JumpEffect | src/cpu/instr/general.cpp:39-47 | one step over `jump`: to its target, or refused when that is the byte behind its opcode |
| Effects.BranchEffect | src/cpu/instr/general.cpp:49-76 | one step over `branch`: to the first target when the register tests true, otherwise to the second |
| Effects.RessEffect | src/cpu/instr/registers.cpp:208-233 | `ress` selects the global registers for 0, those of the top frame for 1, those of its function for 2, and raises for anything else |
| Effects.Sight | src/cpu/cpu.cpp:111-124 | what other instructions see of the machine: the register set selected, the top frame and its function, and the pending frame |
| Effects.FrameEffect | src/cpu/cpu.cpp:201-210 | `frame` requests a frame with an identity of its own, unless one is pending |
| Effects.CallEffect | src/cpu/instr/calls.cpp:164-184 | `call` pushes the pending frame for the function it names, to return behind it, with the result register its operand names, and goes to that function; when it does not, what it raises |
| Effects.CalleeEffect | src/cpu/instr/closure.cpp:129-189 | `fcall` and `msg` do the same for what their operands lead to, and select the registers of a closure |
| Effects.EndEffect | src/cpu/instr/calls.cpp:186-233 | `end` drops the top frame and goes where it says; what register 0 held is taken before and put into the register the frame names after, when it names one |
| Effects.TryEffect | src/cpu/instr/tcmechanism.cpp:8-16 | `try` makes a pending block without handlers, unless one is pending |
| Effects.CatchEffect | src/cpu/instr/tcmechanism.cpp:18-44 | `catch` gives the pending block the address of the named block for the named type, and changes no other handler |
| Effects.EnterEffect | src/cpu/instr/tcmechanism.cpp:70-97 | `enter` pushes the pending block with its handlers and goes to the block it names |
| Effects.LeaveEffect | src/cpu/instr/tcmechanism.cpp:131-149 | `leave` pops the top block and goes where it says |
| Effects.ThrowEffect | src/cpu/instr/tcmechanism.cpp:99-129 | `throw` throws what its operand names and has moved on |
| Effects.PullEffect | src/cpu/instr/tcmechanism.cpp:46-68 | after a successful `pull` nothing is caught; otherwise the caught object stays |
| Effects.PlainEffect | src/cpu/dispatch.cpp:8-255 | every other instruction changes registers only and goes on behind itself, or throws where it stands |
| Effects.NothingExecutes | src/cpu/dispatch.cpp:8-255 | an opcode without a handler raises, reading outside of the text is undefined |
| Effects.TickOutcome | src/cpu/cpu.cpp:555-692 | what ends a run: `halt`, no frame left, an address outside, an address that is still the same without an `end` there, a thrown object that nothing catches |
| Stacks.DispatchShape | src/cpu/dispatch.cpp:8-255 | both stacks change at one end, by one element, and only in the instructions that may |
| Stacks.Unwinding | src/cpu/cpu.cpp:641-683 | an object is caught exactly when some block matches, then by the innermost one, exact type before ancestors in order; that block ends on top, and its frame exactly when it was still there and not at index 0 of several; the registers of the frames above are destroyed |
| Stacks.UnwindShape | src/cpu/cpu.cpp:661-675 | the whole machine that unwinding to a block leaves: its frames and blocks, the registers of all dropped frames destroyed from the top, and the register set selected |
| Stacks.UnwindTop | src/cpu/cpu.cpp:661-669 | when the frame of the block ends on top, both ways |
| Catchers.EnteredBlock | src/cpu/instr/tcmechanism.cpp:8-97 | after `try`, any number of `catch` and `enter`, the top block has a handler for exactly the types named, for each the block named last |
| Catchers.CaughtWhereNamed | src/cpu/cpu.cpp:641-683 | an object thrown inside such a block and caught by it as a type goes on at the block that the last `catch` for this type names |
| Stacks.ThrownFromCallStays | src/cpu/cpu.cpp:661-669 | a block entered in the only frame and an object thrown in a function called from it: the handler runs in the frame of that function |
| Stacks.DetailedUnwindsNothing | src/cpu/cpu.cpp:624-639 | an exception caught by its detailed type goes to the topmost block that names it and leaves both stacks as they are |
| Stacks.DetailedStays | src/cpu/cpu.cpp:624-683 | the same exception thrown in a function called from a block: a handler for exceptions runs in the frame of the block, one for the detailed type in that of the function |
| Stacks.RunSound | src/cpu/cpu.cpp:212-231 | in every run frames are pairwise distinct and at most 8193 |
| Stacks.LoadedSound | src/cpu/cpu.cpp:521-552 | the machine as loaded is sound, nested and ready to run |
| Stacks.NeverCorrupt | src/cpu/cpu.cpp:224-228 | hence the check for a frame pushed twice never fires, and a push fails exactly above the limit |
| Stacks.DispatchNesting | src/cpu/instr/tcmechanism.cpp:89-97 | blocks stay nested in frames over an instruction exactly when it does not end a frame with an open block |
| Stacks.EndLeavesBlock | src/cpu/instr/calls.cpp:186-233 | a function that ends inside its block leaves the block behind |
| Stacks.UnwoundNesting | src/cpu/cpu.cpp:641-683 | unwinding keeps nesting |
| Stacks.RunNesting | src/cpu/instr/calls.cpp:186-233 | blocks stay nested through every run without such an `end` |
| Handlers.ClassHandler | src/cpu/cpu.cpp:487-513 | on a real class hierarchy: the innermost block with a handler for the class or an ancestor, its own handler first, then that of the nearest ancestor: the first base that has one, or else the one above the first base that has one above it |
| Brackets.RunBelow | src/cpu/cpu.cpp:212-243 | frames and blocks that a run never pops never change |
| Brackets.CallReturns | src/cpu/instr/calls.cpp:164-233 | a matched call and `end`: the run goes to the function the call names, comes back right behind the call with the caller's stack and its local registers selected, and what the function left is put into the register the call names, or nothing when it names none |
| Brackets.LeaveRejoins | src/cpu/instr/tcmechanism.cpp:70-149 | a matched `enter` and `leave` goes on right behind the `enter` with both stacks as before |
| Brackets.ThrowStaysWithin | src/cpu/cpu.cpp:641-683 | an object caught by the block it is thrown in brings back the blocks, and the frames exactly when there were several at the `enter` or only one at the throw |
| Brackets.DetailedStaysWithin | src/cpu/cpu.cpp:624-639 | an exception caught by its detailed type in the block it is thrown in: the handler finds the frames of the `enter` exactly when no call is open at the throw, and the blocks exactly when no inner block is |
| Brackets.ThrowAndLeaveRejoin | src/cpu/instr/tcmechanism.cpp:70-149 | leaving normally and leaving through a handler end at the same address with the same blocks, and with the same frames exactly in the same cases |
| Addresses.LinkedPlaced | src/front/asm/generate.cpp:937-942 | resolving every element at its place is resolving the whole program at once |
| Addresses.ExecutableIsCompiled | src/program.cpp:332-355 | in executable code every target is the address of the instruction the source names |
| Simulation.ConsumedIsSize | src/cpu/dispatch.cpp:8-255 | what a handler moves over, operand by operand, is what the generator wrote, but for the NUL of a single name |
| Simulation.FetchAt | src/cpu/dispatch.cpp:8-255 | the machine reads back the instruction that was written, and its handler ends at the next one or on the NUL in front of it |
| Simulation.NotIntoJump | src/cpu/instr/general.cpp:39-47 | no jump of generated code is taken for a jump to itself |
| Simulation.SimEnd | src/cpu/instr/calls.cpp:186-233 | `end` does the same in bytecode and in source |
| Simulation.SimUnwind | src/cpu/cpu.cpp:641-683 | so does unwinding |
| Simulation.SimDispatch | src/cpu/dispatch.cpp:8-255 | so does every instruction, up to one byte after `import`, `link` and `leave` |
| Simulation.SimLag | src/cpu/instr/linking.cpp:12-28 | after these one NOP on a NUL catches up |
| Simulation.SimTick | src/cpu/cpu.cpp:555-692 | all other ticks agree, bounds and unchanged-pointer checks included |
| Simulation.Simulates | src/cpu/cpu.cpp:694-705 | n ticks of the source are n ticks of bytecode plus one for every NUL passed |
| Simulation.Simulated | src/cpu/cpu.cpp:694-705 | every tick of the bytecode belongs to one of the source |
| EndToEnd.StartsMeaning | src/program.cpp:213-303 | a byte address names an instruction exactly when one starts there, and then this one |
| EndToEnd.ProgramRuns | src/front/asm/generate.cpp:886-1039 | every program that assembles and whose targets are instructions, those written as byte addresses included, meets the assumptions of the simulation |
| EndToEnd.ElementAddress | src/front/asm/generate.cpp:1081-1165 | an element starts at the same place counted in instructions and in bytes |
| EndToEnd.MeantIsLinked | src/programinstructions.cpp:635-657 | without mixed branches the code laid out is what the lines mean |
| EndToEnd.EnvPlaced | src/front/asm/generate.cpp:689-1279 | the loaded file is the source with every index replaced by the address of that instruction |
| EndToEnd.JobSimulates | src/front/asm/generate.cpp:689-1279 | bytecode and tables written for a file, with or without a library, simulate its source, from any function, for any number of steps, if every target is an instruction of the whole |
| EndToEnd.JobIsSimulated | src/front/asm/generate.cpp:689-1279 | and do nothing else: every tick belongs to a counted tick of the source or is the NOP it was left on |
| EndToEnd.BuildAndLoad | src/front/asm/generate.cpp:689-1279 | assembling, linking and reading the tables back: what has been loaded runs as the source does |
| SourceRuns.FunctionMeans | src/front/asm/generate.cpp:886-1039 | a function of a file is found under its name, and behind its address stand the instructions of the lines between its opening and its end |
| SourceRuns.BlockStarts | src/front/asm/generate.cpp:886-1039 | a block is found where its body stands |
| SourceRuns.JumpRuns | src/cpu/instr/general.cpp:39-47 | from a `jump` line of the source one tick stands at the instruction its operand stands for |
| SourceRuns.BranchRuns | src/cpu/instr/general.cpp:49-76 | from a `branch` line one tick stands at what the second operand stands for when the register tests true, otherwise at what the third one does, or behind the line |
| SourceRuns.MarkRuns | src/cg/assembler/codeextract.cpp:26-67 | a jump to a mark stands at the first instruction behind the mark, with only lines in front of it that count as they should |
| EntryRuns.EntryCode | src/front/asm/generate.cpp:762-787 | the entry function selects local registers, does what the top level says, makes a frame for one parameter, passes register 1, calls the main function with its result in register 1, moves that to register 0 and halts |
| EntryRuns.EntryBegins | src/front/asm/generate.cpp:762-787 | a run from the entry address selects the local registers |
| EntryRuns.MainCalled | src/front/asm/generate.cpp:770-775 | behind the top level it requests one frame, passes register 1 as parameter 0 and calls the main function with result register 1 |
| EntryRuns.MainReturns | src/front/asm/generate.cpp:776-778 | when the main function returns, its result is put into register 1 and moved from there to register 0, and the run halts |
| EntryRuns.EntryRun | src/front/asm/generate.cpp:762-787 | a whole run of an executable without a top level |
| EndToEnd.LibraryCanBeLinked | src/front/asm/generate.cpp:1045-1056 | what is assembled as a library is a library |
| EndToEnd.TableAscends | src/front/asm/generate.cpp:1083-1176 | the function table of a linked file ascends if that of the library does |
| LinkedBlocks.DispatchLooksUp | src/cpu/instr/tcmechanism.cpp:18-97 | with and without the blocks of the library an instruction does the same exactly when it does not look up one that only the library has |
| LinkedBlocks.LinkingKeepsMeaning | src/front/asm/generate.cpp:796 | the loaded program simulates file and library with the blocks of both for as long as a run looks up no block that only the library has |
| LinkedBlocks.NoForeignMissed | src/front/asm/generate.cpp:796 | no run does when no instruction names such a block |
| LinkedBlocks.MeaningIsKeptExactly | src/front/asm/generate.cpp:796 | and exactly then does every instruction do the same |
| LinkedBlocks.LinkedRunParts | src/front/asm/generate.cpp:796 | a run that looks one up is the same up to there, and then raises "undefined block" where the source raises nothing |
| LinkedBlocks.LibraryBreaks | src/front/asm/generate.cpp:796 | a library whose function enters its own block: linked into any file without such a block, it raises "undefined block" |
| References.DestroyedValid | src/types/reference.cpp:47-64 | a destructor keeps every counter exact and every object held once, and destroys an object that exists |
| References.DestroyedSame | src/types/reference.cpp:47-64 | it changes nothing that a register can see |
| References.MadeReferenceValid | src/types/reference.cpp:37-40 | copying a reference keeps the counters exact |
| References.WrappedValid | src/types/reference.cpp:42-46 | so does making a first reference |
| References.CapturedValid | src/cpu/instr/closure.cpp:66-92 | so does handing a reference to a closure |
| Losses.DestroyedKeeps | src/types/reference.cpp:47-64 | a destructor hands on everything that only its object kept alive, so nothing is lost |
| Losses.ForgottenLoses | src/cpu/registerset.cpp:20-37 | letting go of an object loses this one and no other |
| Registers.Memory.Delete | src/types/reference.cpp:47-64 | deleting destroys the object and what only it kept alive, each once, and leaves nothing behind that nobody holds |
| Registers.Memory.Rebind | src/types/reference.cpp:10-13 | every register that shares the cell now sees the new object |
| Registers.Memory.Set | src/cpu/registerset.cpp:20-37 | empty, bound and occupied registers are written as the source does; out of bounds the object is lost |
| Registers.Memory.Place | src/cpu/cpu.cpp:157-187 | the check for shared pointers never finds an object, so nothing is left to update |
| Registers.Memory.Fetch | src/cpu/cpu.cpp:111-124 | references are looked through once |
| Registers.Memory.CopyClosure | src/cpu/registerset.cpp:221-234 | a copied closure shares the cells of the original |
| Registers.Memory.Copy | src/cpu/instr/registers.cpp:37-64 | the value is written through the destination's location; exactly when it fails or is undefined |
| Registers.Memory.Ref | src/cpu/instr/registers.cpp:65-104 | the two registers share a location exactly when they differ and the destination holds no reference, otherwise references are nested; when it raises, the source may share a new cell, with the same content |
| Registers.Memory.Swap | src/cpu/registerset.cpp:87-104 | two registers exchange their locations |
| Registers.Memory.Free | src/cpu/registerset.cpp:117-127 | the register is cleared and its object deleted, aliases keep theirs |
| Registers.Memory.Clear | src/cpu/instr/registers.cpp:151-173 | the register is cleared, aliases keep theirs; a reference is destroyed, any other object is lost |
| Registers.Memory.IsNull | src/cpu/instr/registers.cpp:174-206 | writes whether a register is empty |
| Registers.Memory.Capture | src/cpu/instr/closure.cpp:40-97 | only in the registers of the current frame: registers alias as before, the closure shares exactly the marked ones, these lose their mark, and the target contains it |
| Registers.Memory.NewSet | src/cpu/registerset.cpp:236-247 | a new register set is empty and changes no other |
| Registers.Memory.DropSet | src/cpu/registerset.cpp:248-265 | dropping a frame deletes what its registers hold, but for those flagged to be kept, and changes no other register |
| Registers.SetWrote | src/cpu/registerset.cpp:20-37 | a write is seen through all registers that share the location and through no other |
| Registers.JoinedResult | src/cpu/instr/registers.cpp:88-101 | why `ref` aliases, and exactly when it does not |
| Registers.RefOntoItself | src/cpu/instr/registers.cpp:88-101 | a register made a reference to itself: references nest |
| Locations.StepRefines | src/cpu/instr/registers.cpp:37-173 | each operation, failing ones included, does to registers what the operation on named locations says |
| Locations.RunRefines | src/cpu/instr/registers.cpp:37-173 | the same for any sequence of memories of which each follows from the one before |
| Locations.Perform | src/cpu/instr/registers.cpp:37-206 | each instruction does what it means to the simple store, and raises exactly when that is a failure |
| Locations.Execute | src/cpu/instr/registers.cpp:37-206 | every sequence of instructions leaves memory as running it on the simple store does, up to the first one that nests references or crashes; when none fails and none is `empty`, it leaves no object behind that nothing holds |
| Locations.NothingNamed | src/cpu/registerset.cpp:236-247 | memory with empty registers is the empty store, where runs begin |
| Types.InheritanceChainOf | src/cpu/cpu.cpp:487-513 | terminates on every closed acyclic hierarchy and returns the chain |
| Types.ChainCosts | src/cpu/cpu.cpp:491-496 | why: going on to the next element and appending its chain leaves less work |
| Types.ChainMeaning | src/cpu/cpu.cpp:487-513 | the chain starts with the bases in order and contains exactly the ancestors |
| Types.ChainOrder | src/cpu/cpu.cpp:487-513 | the first wanted class of the chain is the nearest wanted ancestor, as defined without the chain: the first wanted base, or else the nearest above the first base that has one above it |
| Types.RegistrationIsExact | src/cpu/instr/prototype.cpp:94-114 | registering keeps the hierarchy closed, and acyclic exactly when no base is or descends from the class |
| Types.FirstRegistration | src/cpu/instr/prototype.cpp:94-114 | a class registered for the first time always meets this |
| Types.RegisteredAgain | src/cpu/instr/prototype.cpp:94-114 | a class registered again with a base derived from it closes a cycle |
| Types.Types.Class | src/cpu/instr/prototype.cpp:12-33 | a new prototype has no bases and no methods |
| Types.Types.Derive | src/cpu/instr/prototype.cpp:35-60 | only registered classes become bases |
| Types.Types.Attach | src/cpu/instr/prototype.cpp:62-92 | only known functions become methods |
| Types.Types.Register | src/cpu/instr/prototype.cpp:94-114 | the new typesystem, and when it is still closed and acyclic |
| Types.ResolutionOrder | src/cpu/instr/object.cpp:58-73 | the first acceptor in own-class-then-chain order is the class itself or the nearest ancestor that accepts the message |
| Types.Types.Resolve | src/cpu/instr/object.cpp:58-73 | a message resolves to the first acceptor in own-class-then-chain order and fails exactly when neither the class nor an ancestor accepts it |
| Expansion.Group | src/front/asm/decode.cpp:20-30 | the balance loop of a subexpression |
| Expansion.List | src/front/asm/decode.cpp:39-57 | the balance loop of a list, which also counts its subexpressions |
| Expansion.DecodeLineTokens | src/front/asm/decode.cpp:8-78 | the loops and the recursion compute the functional expansion |
| Expansion.GroupThrough | src/front/asm/decode.cpp:20-30 | balanced text inside a subexpression is taken as a whole |
| Expansion.ListThrough | src/front/asm/decode.cpp:39-57 | the same inside a list, with the count of its subexpressions |
| Expansion.DecodeFlat | src/front/asm/decode.cpp:8-78 | nested source expands to the lines of its groups in post-order and the line itself last |
| Expansion.ExpansionIsCorrect | src/front/asm/decode.cpp:8-78 | the same with `^` anywhere on the outermost level, which puts the line first; undefined exactly when a group has no destination |
| FrameBalance.Check | src/cg/assembler/verify.cpp:47-93 | the first bad line is reported with its reason and the line of the unused frame, and nothing otherwise |
| FrameBalance.SpawnedMeaning | src/cg/assembler/verify.cpp:47-93 | the line reported for an unused frame is the last `frame` in front, with no call between |
| FrameBalance.DispatchHolds | src/cpu/cpu.cpp:201-278 | one instruction keeps the pending frame in step with the balance |
| FrameBalance.RunBalanced | src/cpu/cpu.cpp:201-278 | in every run of checked code a frame is pending exactly where the balance is 1 |
| FrameBalance.FileInstructions | src/cg/assembler/verify.cpp:47-93 | the instructions the check sees in textual order are those of the functions in their order |
| FrameBalance.SourceAccepted | src/cg/assembler/verify.cpp:47-93 | what the check accepts line by line holds of the code generated from the lines |
| FrameBalance.EntryAccepted | src/front/asm/generate.cpp:762-777 | it still holds with the generated entry function behind the accepted ones |
| FrameBalance.CheckIsSound | src/cg/assembler/verify.cpp:47-93 | a file of plain functions that the check accepts, run from the entry function or any other, never requests a frame while one is unused and never calls without one |

## Left out

- Building.Build: one library only, because the link offset is never advanced between libraries; blocks of a library are not exported, as in the source, which never fills the list of linked blocks.
- Building.Build: 16-bit sizes and addresses are modelled, and the total is required to stay below 65536; names of functions, those of the library included, and of blocks are required to be distinct and free of NUL.
- Building.Build: a definition without an end, and a function or block that contains a definition of another kind, make the source run past the end of an array and are excluded; definitions inside the same kind are rejected, inside a class they are covered.
- Building.Build: when an absolute jump goes further behind the local code than its first byte but not beyond the image, what the source does depends on memory it has not written (`Building.UnwrittenDecides`), and nothing is promised.
- EndToEnd.JobSimulates: targets that are no instruction of the whole are excluded, because they have no meaning in the source; an absolute target of a library counts from the beginning of the whole, as it does for the machine, so libraries whose absolute targets have other addresses there are excluded (`Building.WrittenExecutable` says exactly which); branches that mix absolute and other targets are excluded because they are filed wrongly (`Compiler.ConsistentMeaning`).
- Programs.Program.CalculateJumps: what negative indexes mean is proved for code of jumps and instructions without operands only (`Patching.NegativeIndex`); for others the count is wrong, and the assembler never emits them.
- SourceRuns.BranchRuns: for bodies without branches that mix absolute and other targets, which are filed wrongly (`Compiler.ConsistentMeaning`); the same holds of `SourceRuns.JumpRuns` and `SourceRuns.MarkRuns`.
- Disassembler.ReassembledInstr: how a float is printed and read is a parameter; plain names are required to be words.
- Expansion.DecodeLineTokens: tokens are given, and the count that stands for a list is a token of its own, so the newline that `stringify` appends to it is not modelled.
- Registers.Memory.Capture: masks other than the bind mark are not modelled, so registers flagged as references or bound are outside; code running on the registers of a closure itself is outside.
- Registers.Memory.Place: `vat`, `param`, `paref`, `move`, `tmpri` and `tmpro` are not modelled; they share or drop raw pointers on purpose.
- Stacks.RunNesting: block return addresses and frames are concrete, but addresses of freed frames may be reused by the allocator, which is why the frame of every block must still be on the stack.
- FrameBalance.CheckIsSound: for files whose instructions all stand in functions, without jumps and blocks, as the check itself looks at lines in textual order only; the mnemonic `excall`, which the check still knows, has no opcode.
- Types.InheritanceChainOf: the linearised copy that the source builds and then does not return is not modelled.
- File reading and writing, the 16-byte size field and the section size fields: sections are byte sequences.
- Dynamic linking, foreign functions and foreign methods: one module, so jumps are counted from the program start.
- The text level of the front end: comments and blank lines, register names, the search for `.main:` and `.link:`, and the other static checks.
- Arithmetic, vectors, casts and printing: instructions without control effect are an abstract effect on registers.
- `calculateBranches`, which nothing calls.
