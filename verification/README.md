# A verified model of the two-pass RISC-V assembler

These Dafny modules model the assembler from the parsed items of a source file to the bytes
of the output file, and prove what each stage keeps and what the whole program guarantees.
`dafny verify dfyconfig.toml` checks everything.

**How the modules follow the program.**

- `Isa`, `Ir` are the shared vocabulary and the entry list (`ir.c`, `ir.h`). `Pass1` is the
  grammar's actions and `pass1.c`/`pass.c` as a class over the entry list and the symbol table.
- `Encode32`, `Encode16` are the encoders and their two tables. `Decode32`, `Decode16` are
  readers written from the RISC-V Unprivileged ISA (20191213), sections 2.2-2.3 and chapters 16
  and 24; their reading functions use nothing of the encoders. `Conform16` and `Tags16` relate the 16-bit encoders to
  them; `Bits` holds words, numbers and `put`.
- `CRules`, `Compress`, `Complete` are the nineteen compression rules, what they keep, what the
  encoders accept of them, and what they do not miss.
- `Layout`, `Monotone`, `Survive`, `Agree` are address assignment, planning, validation and
  relaxation as functions of the entry list, with the invariants that hold across rounds and
  the agreement of layout and emission. `Align` is the mask arithmetic of `pass.h`.
- `Out`, `Bytes`, `Emit` are the sinks and emission. `Pass2` is pass 2 as it runs: a class whose
  loops are proved to compute the functions of `Layout` and `Emit`.
- `Directives`, `Planning`, `Gates` and `Misread` say, from the source items and the manual alone,
  what each item leaves in the entry list, which instructions come out compressed, exactly when a
  run succeeds, and what the misplaced compressed forms denote instead.
- `Disasm` is a disassembler for the text section; `Whole`, `Programs` and `Driver` state the
  end-to-end results; `Slipped` is a concrete program that goes wrong; `Hilo` is `la`.
- `Machine` fetches instructions from the text bytes and executes them on registers and memory;
  `Source` is what a source program means item by item, and the proof that the bytes carry it out.
- `Straight` compares unlabelled text with and without automatic compression; `Lockstep` and
  `Branches` do so with branches and jumps; `Moved` is two concrete programs that execute
  differently, `Slow` one on which eight rounds of relaxation are too few.
- `Elf` is `out_finish` and a reader written from the System V gABI, chapters 4 and 5.
- `Symtab`, `Primes` are the hash table and the number theory its resizing rests on.

**Conventions.** Instruction words are bit-vectors; addresses and immediates are integers, with
every conversion to `uint32_t` and `int32_t` written out (`U32`, `I32`). A failing encoder is
`None`; `Code.Fail` remembers whether the failure also raised `had_error`. `Settled` says that
every entry of a section already has the address and size that assignment gives it. Preconditions
bound section lengths (2^31 or 2^32 bytes) only where a wrapping counter would falsify the claim.

**The main results, in one paragraph each.**

*When a run succeeds.* Exactly if no data follows text and every item's demands are met
(`Gates.SucceedsExactly`): a datum lies in the data section, and an instruction's label is defined,
its operation is one the target has (M, C and the width, listed in `Gates`), and its form takes the
operands, with the label's value for the immediate. So an undefined label fails the run
(`Gates.UndefinedFails`), and compression changes none of this. The section of an item is the one
the last directive before it selects (`Pass1.SectionIs`).

*What a successful run writes.* The buffers then hold exactly the bytes of their
sections, a raw stream is the data followed by the text (`Emit.EmitAllWrites`), each entry's bytes
stand at its address (`Agree.LayoutAgrees`), and an ELF file read by its headers gives those
buffers back (`Elf.ElfReadsBack`), as an executable that loads them at the source's addresses with
the right permissions and starts at its text (`Elf.LoadsAndStarts`, `Driver.FileReadsBack`).

*What the text means.* Stepping through the emitted text by the two low bits of each halfword
visits exactly the text instructions at their addresses, and each reads back as the instruction
its entry stands for **if and only if** the layout used for it agrees with the manual
(`Disasm.TextReadsBack`, `Programs.ProgramReadsBack`); the entries are the source's items, one by one
and in order (`Programs.ItemIsEntry`, `Programs.PlacesAscend`, `Programs.EveryEntryHasItem`).
32-bit forms always agree (`Decode32.EncodeExact`); for the 16-bit forms `Conform16.CEncodeExact`
gives the exact condition.

*What relaxation reaches.* The layout that is emitted is the last of at most eight rounds, over which
no choice comes back and no address decreases (`Monotone.EmittedIsLast`). The results about the text
assume that the rounds converged. They do whenever fewer than eight compressed branches or jumps
have a label (`Agree.ConvergesIfFew`), and the emitted layout is settled exactly when they do
(`Agree.SettledExactly`); eight are too many in `Slow.EightTooFew`, whose last branch is laid out in
two bytes and emitted in four.

*What the program does.* A source program has a meaning item by item, in which a taken transfer to a
label goes on at the label's item (`Source.Execute`). If the layouts used agree with the manual, and
every label a branch or jump names is in the text with no slack (below), the machine on the emitted
bytes stands, after any number of instructions, at the offset of the item where the program stands,
with its registers and memory, and stops where it ends (`Source.TextCarriesOut`). So it is for every
program without compression and padding (`Source.PlainCarriesOut`).

*What is compressed.* An unlabelled instruction of the text takes two bytes exactly if it is written
compressed or, with C and automatic compression on, some compressed operation the rules aim at
stands for it and is accepted (`Planning.CompressedExactly`).

*What compression changes.* For text without labels the compressed run always converges, succeeds
exactly when the plain one does, and the two texts read as the same instructions if and only if
every rule's choice agrees with the manual (`Straight.CompressionKeepsInstructions`). Without
branches and jumps both texts then execute to their end, and registers and memory are the same
after every instruction **if and only if** no compressed instruction comes before an AUIPC that
writes a register (`Straight.ExecutionAgrees`); `Moved.AuipcTells` is a program whose AUIPC gives
x11 two different values.

Compression does not adjust branches and jumps by a number. One that leads to some instruction in
the plain text leads to the same in the compressed text **if and only if** no instruction on the way,
forward or backward, is compressed (`Branches.DestinationKept`, `Branches.TransferLands`);
`Moved.BranchTells` instantiates it. Whole runs stay in step for any number of instructions if and
only if nothing compressed disturbs an instruction executed: before it if it reads the counter, up
to its end if it links, on its way if it branches, before its destination if that is an address
(`Branches.RunsInStepExactly`; `Branches.RunsInStep` from a condition on the source alone).

*Where branches go.* A label's value is fixed in pass 1. A branch or jump to a label of its own
section transfers to the label's final offset plus a slack, which is the padding before the label
plus two bytes for each compressed instruction before it; so it is right exactly when the slack is
zero (`Whole.BranchLands`), as it is without padding and without automatic compression
(`Whole.NoSlack`). `Slipped.JumpMissesItsLabel` is a three-line program that misses.

**Where the code departs from its own description.** The model follows the code.

- An alignment entry never records its alignment, so pass 2 gives all `.align` and `.space` entries
  size 0 although pass 1 advanced the counter (`Assembler/src/ir.c:119-137`). The grammar's action
  for `.align` moreover records the new counter instead of the padding
  (`Assembler/src/pass.c:41-52`); harmless, since pass 2 overwrites it.
- Labels are not moved after compression.
- The CA operations have bit 12 set and never denote their own operation; C.LDSP leaves rd zero,
  a reserved encoding; C.SWSP, C.SDSP, C.BEQZ, C.BNEZ, C.J and C.JAL place operand bits differently
  from chapter 16 and are right only for the operands `Conform16.Conforms` lists; `Misread` gives what
  each denotes instead.
- C.LW, C.LD, C.SW, C.SD, C.SWSP and C.SDSP test the upper bound and alignment of an offset after
  truncating it to 32 bits, so they accept some offsets above 2^32.
- `la` resolves its ADDI at the ADDI's own address and is never right, not even modulo 2^32
  (`Hilo.LaMisses`).
- An explicit compressed instruction the target lacks, or an RV32 doubleword store that automatic
  compression has chosen to compress, makes the run fail without raising `had_error`; nothing else
  does (`Gates.SilentExact`, `Gates.FailureReported`). An out-of-range `.byte`, `.half` or `.word` is reported, then dropped: the error flag
  raised by the parser is cleared when pass 2 starts.
- The project's own README promises `_start` as entry point; the entry passed is always 0, which
  selects the text base, or the data base without text.

## Model

| member | source | states |
|---|---|---|
| Bits.PutLaw | Assembler/src/pass2.c:442-448 | put reads back the value modulo the field width and leaves every other bit, for all valid hi and lo |
| Bits.PutCommutes | Assembler/src/pass2.c:442-448 | writes to disjoint fields commute |
| Decode32.EncodeExact | Assembler/src/pass2.c:1119-1139 | for every base operation, operands and width: the encoder accepts exactly the representable immediates, and the manual's reader gives the instruction back from the word, whose low bits are 11 |
| Decode32.RoundTripR | Assembler/src/pass2.c:941-951 | R-type words decode to the same operation and registers |
| Decode32.RoundTripShift | Assembler/src/pass2.c:954-1015 | shift-immediates decode back, 6-bit amounts on RV64 included |
| Decode32.RoundTripI | Assembler/src/pass2.c:954-1015 | I-type words decode back for every 12-bit immediate |
| Decode32.RoundTripSystem | Assembler/src/pass2.c:954-1015 | ECALL and EBREAK encode whatever their operands and decode to themselves |
| Decode32.RoundTripS | Assembler/src/pass2.c:1018-1036 | stores decode back through the split immediate |
| Decode32.RoundTripB | Assembler/src/pass2.c:1039-1065 | branches decode back through the scattered immediate |
| Decode32.RoundTripJ | Assembler/src/pass2.c:1068-1092 | JAL decodes back through the scattered immediate |
| Decode32.RoundTripU | Assembler/src/pass2.c:1095-1116 | LUI and AUIPC accept multiples of 4096 in int32 range and decode back |
| Conform16.CEncodeExact | Assembler/src/pass2.c:914-938 | for every compressed operation and every operand its encoder accepts, the halfword denotes by chapter 16 what the mnemonic stands for if and only if Conforms holds |
| Conform16.ConformCR | Assembler/src/pass2.c:474-518 | accepted CR halfwords decode to their own operation and registers |
| Conform16.ExactCI | Assembler/src/pass2.c:553-710 | accepted CI halfwords other than C.LDSP decode to their own operation, register and immediate |
| Conform16.LdspReserved | Assembler/src/pass2.c:682-687 | every accepted C.LDSP is a reserved encoding, because rd is never stored |
| Conform16.CaMisread | Assembler/src/pass2.c:521-544 | what each CA halfword denotes instead: SUBW, ADDW, a right shift, or nothing |
| Conform16.ConformMem | Assembler/src/pass2.c:713-808 | CL and CS halfwords decode to the operation, registers and the offset truncated to 32 bits |
| Conform16.ConformSwsp | Assembler/src/pass2.c:811-846 | C.SWSP is right exactly for four (register, offset) pairs |
| Conform16.ConformSdsp | Assembler/src/pass2.c:811-846 | C.SDSP is right exactly for eight (register, offset) pairs |
| Conform16.ConformCB | Assembler/src/pass2.c:849-881 | a compressed branch is right exactly when offset bits 7:6 equal bits 4:3 |
| Conform16.ConformCJ | Assembler/src/pass2.c:884-911 | a compressed jump is right exactly when bits 4:1 are all alike and bits 10:5 are all alike |
| Tags16.EncodedTagsMatch | Assembler/src/pass2.c:356-391 | every encoded halfword still satisfies c_tags_match for its own table entry, and never looks like a 32-bit instruction |
| Tags16.DistinctOperands | Assembler/src/pass2.c:474-881 | except for C.J, C.JAL and C.LDSP, accepted operands that give the same halfword are the same in every operand used |
| Tags16.JumpsLost | Assembler/src/pass2.c:884-911 | two accepted C.J or C.JAL offsets share a halfword exactly when they agree in every bit but 1 and 5 |
| Tags16.LoadsLost | Assembler/src/pass2.c:682-687 | two accepted C.LDSP share a halfword exactly when their offsets are equal, whatever their registers |
| Misread.SwspReading | Assembler/src/pass2.c:811-846 | what C.SWSP denotes instead, for every register and offset |
| Misread.SdspReading | Assembler/src/pass2.c:811-846 | what C.SDSP denotes instead, for every register and offset |
| Misread.LdspReading | Assembler/src/pass2.c:682-687 | all sixteen bits of C.LDSP: its offset is in place and its register is zero |
| Misread.BranchReading | Assembler/src/pass2.c:849-881 | a compressed branch denotes the one with offset bits 7:6 and 4:3 exchanged |
| Misread.JumpReading | Assembler/src/pass2.c:884-911 | a compressed jump denotes the one whose offset has bits 10:6 and 4:2 one place further down, bits 11, 10 and 4 kept |
| Compress.RulesKeepMeaning | Assembler/src/c_rules.c:393-400 | whatever rule applies first, the compressed mnemonic stands for the original instruction, and labels survive on control transfers only |
| Compress.RulesAccepted | Assembler/src/c_rules.c:393-400 | what the rules choose, the encoder accepts exactly when C is on and the width is right; the width can only exclude SD on RV32 |
| Compress.CompressionExact | Assembler/src/c_rules.c:6-391 | the emitted halfword decodes to the original instruction exactly when Conforms holds, hence for every CI (but C.LDSP), CR, CL and CS choice |
| Complete.RulesComplete | Assembler/src/c_rules.c:393-400 | if any compressed operation denotes the instruction and its encoder accepts it, some rule applies, C.LUI, C.ADDIW and stack stores of x0 excepted |
| Complete.PlannedExactly | Assembler/src/pass2.c:279-310 | planning attaches a choice to exactly these entries: both flags on, an uncompressed text instruction with no relocation or that of a branch or jump, which some compressed operation the rules aim at stands for |
| Complete.PlannedIfPossible | Assembler/src/pass2.c:293-310 | in particular to every such entry that an aimed-at accepted operation denotes |
| Complete.RulesAimed | Assembler/src/c_rules.c:393-400 | the rules choose nothing else: no C.LUI, no C.ADDIW, no stack store of x0 |
| Planning.CompressedExactly | Assembler/src/pass2.c:279-310 | in a successful run an unlabelled text instruction takes two bytes exactly if it is written compressed or, both flags on, such an operation stands for it; otherwise four |
| Align.PaddingExact | Assembler/include/pass.h:37-40 | for every 32-bit address and power up to 31 the mask form is the modulus form and the least padding that reaches a multiple, wrap-around included |
| Align.AlignAddsPadding | Assembler/include/pass.h:30-33 | aligning adds that padding modulo 2^32 |
| Primes.IsPrimeCheck | Assembler/src/symtab.c:41-60 | trial division by odd numbers up to the square root decides primality |
| Primes.FindNextPrime | Assembler/src/symtab.c:63-70 | the search ends for every n and returns the least prime not below n and 2 |
| Primes.PrimeAbove | Assembler/src/symtab.c:63-70 | there is a prime at or above every number, the bound that makes the search end |
| Symtab.ComputeHash | Assembler/src/symtab.c:29-37 | the loop computes the djb2 hash modulo the table size |
| Symtab.Djb2Closed | Assembler/src/symtab.c:29-37 | the hash is the polynomial 5381*33^n + c1*33^(n-1) + ... + cn modulo 2^64 |
| Symtab.Table.Insert | Assembler/src/symtab.c:104-157 | insertion adds the pair to the map, refuses a duplicate and keeps its first value; its termination measure shows that a resize is never nested in another |
| Symtab.Table.Resize | Assembler/src/symtab.c:73-100 | resizing keeps the map, takes the least prime not below twice the size, and leaves the table under half full |
| Symtab.Table.MoveChain | Assembler/src/symtab.c:73-100 | rehashing one old chain adds exactly its pairs |
| Symtab.Table.Search | Assembler/src/symtab.c:161-173 | search returns the value the map has, or -1 |
| Symtab.Table.Remove | Assembler/src/symtab.c:177-208 | removal deletes the key and answers whether it was there |
| Symtab.Table.RemoveAll | Assembler/src/symtab.c:212-230 | clearing leaves the empty map |
| Symtab.Replay | Assembler/src/symtab.c:73-230 | over any sequence of insertions, searches, removals and clears the table answers as a plain map, and count is the number of keys |
| Ir.Buffer.AppendInstr | Assembler/src/ir.c:64-116 | appends one entry with the flags its format demands |
| Ir.Buffer.AppendAlign | Assembler/src/ir.c:119-137 | appends an entry that records the padding only, or nothing |
| Ir.Buffer.AppendData | Assembler/src/ir.c:140-159 | appends one data entry |
| Pass1.Assembler.EmitInstruction | Assembler/src/pass1.c:21-33 | appends the instruction at the current counter and advances by 2 or 4 |
| Pass1.Assembler.EmitData | Assembler/src/pass1.c:51-57 | appends the datum at the current counter and advances by its size |
| Pass1.Assembler.EmitLabel | Assembler/src/pass1.c:60-65 | defines the label at the current counter unless it is defined |
| Pass1.Assembler.EmitSpace | Assembler/src/pass1.c:77-83 | advances by the count truncated to 32 bits and appends an entry unless that is 0 |
| Pass1.Assembler.EmitAlign | Assembler/src/assembler.y:67-73 | advances to the next multiple and appends an entry unless the new counter is 0 |
| Pass1.Assembler.AlignCurrentPc | Assembler/src/pass.c:41-52 | advances the section's counter by the padding and returns the new counter |
| Pass1.Assembler.AdvancePc | Assembler/src/pass.c:22-25 | advances the current section's counter modulo 2^32 |
| Pass1.Assembler.Run | Assembler/src/pass1.c:14-83 | the whole pass computes After, item by item |
| Pass1.SectionIs | Assembler/src/pass.c:28-33 | before each item pass 1 stands in the section the last directive before it selects, the text section if there is none |
| Directives.PassOneEntry | Assembler/src/assembler.y:59-133 | each item leaves the entry it should, in its section, at the section's length so far and with its size and flags; labels, section directives and values out of range leave none |
| Directives.RangeExact | Assembler/src/assembler.y:75-101 | .byte, .half and .word accept exactly the values that fit as signed numbers |
| Directives.ValueReadsBack | Assembler/src/assembler.y:75-101 | an accepted .byte, .half or .word reads back from the emitted bytes as its value, sign included |
| Pass1.FirstDefinition | Assembler/src/assembler.y:59-64 | a label's final value is the counter where it first appears |
| Pass1.AfterGrows | Assembler/src/ir.c:64-159 | later items only append to the entry list |
| Pass1.AfterRaw | Assembler/src/ir.c:64-159 | every entry pass 1 makes has no choice, and alignment entries never hold an alignment |
| Layout.AssignSettles | Assembler/src/pass2.c:246-276 | one assignment gives every entry of the section the address and size a second one would give it |
| Layout.RoundDropsChoice | Assembler/src/pass2.c:344-353 | a round that reports a change strictly lowers the number of compressed choices |
| Layout.RelaxConverges | Assembler/src/pass2.c:344-353 | any iteration cap above the number of compressed branches and jumps with a label reaches the fixed point, however many other choices there are |
| Layout.RelaxTerminates | Assembler/src/pass2.c:344-353 | any iteration cap above the number of choices reaches the fixed point |
| Layout.RelaxFixedPoint | Assembler/src/pass2.c:344-353 | at the fixed point all addresses match the sizes and every surviving labelled branch carries its even, in-range displacement |
| Monotone.AssignMonotone | Assembler/src/pass2.c:246-276 | with fewer choices no address is smaller, alignment rounding included, and every difference is even |
| Monotone.RoundsMonotone | Assembler/src/pass2.c:344-353 | over any number of rounds no choice comes back and no address decreases |
| Monotone.RelaxIsRounds | Assembler/src/pass2.c:344-353 | relaxation is some number of rounds, all that the cap allows if it did not converge |
| Monotone.EmittedIsLast | Assembler/src/pass2.c:1310-1366 | the emitted layout comes after every earlier round: no choice came back, no address decreased, and what a round refused for good is emitted uncompressed at an address where it would still be refused |
| Monotone.RefusalIsFinal | Assembler/src/pass2.c:188-243 | a choice dropped for an undefined label, an odd displacement or one below the range would be refused in every later layout |
| Survive.SurvivorEncodes | Assembler/src/pass2.c:188-243 | every surviving choice passes its encoder, even if the cap was hit, except SD on RV32 |
| Survive.ValidateKeeps | Assembler/src/pass2.c:188-243 | validation keeps the choice the rules gave, up to an in-range displacement |
| Survive.PlanKeeps | Assembler/src/pass2.c:293-310 | planning attaches only what the rules give, to eligible entries |
| Programs.CompressionNeverRejects | Assembler/src/pass2.c:402-430 | in the layout that is emitted, an entry that fails compressed would have failed uncompressed |
| Programs.ValidationExact | Assembler/src/pass2.c:188-243 | a compressed branch to a label is kept exactly when the label is defined and the encoder accepts the displacement |
| Agree.PrepareSettled | Assembler/src/pass2.c:1310-1366 | the data section is settled in every run, the text section once relaxation converged, and surviving choices agree with it |
| Agree.SettledExactly | Assembler/src/pass2.c:1310-1366 | the emitted text layout is settled exactly when relaxation converged within the cap |
| Agree.ConvergesIfFew | Assembler/src/pass2.c:344-353 | eight rounds are enough for fewer than eight compressed branches and jumps with a label |
| Slow.EightTooFew | Assembler/src/pass2.c:344-353 | a program with eight compressed branches assembles without having converged, its last branch laid out in two bytes and emitted in four |
| Agree.LayoutAgrees | Assembler/src/pass2.c:246-276 | the bytes of a section before an entry number its address, and its own bytes stand there |
| Agree.DataReadsBack | Assembler/src/pass2.c:1273-1288 | reading size little-endian bytes at a datum's address gives its value modulo 256^size |
| Agree.AlignmentExact | Assembler/src/pass2.c:255-265 | an alignment entry takes the least padding to a multiple of its power of two |
| Bytes.LeRoundTrip | Assembler/src/out.c:182-187 | k little-endian bytes of a number read back as the number modulo 256^k |
| Out.File.WriteAt | Assembler/src/out.c:193-228 | a write at an offset, however fwrite splits it, patches exactly those bytes and restores the position |
| Out.ByteVec.Reserve | Assembler/src/out.c:93-102 | growth keeps the contents and makes room |
| Out.ByteVec.Append | Assembler/src/out.c:105-110 | appending appends |
| Out.ByteVec.Zero | Assembler/src/out.c:113-118 | appends n zero bytes |
| Out.Output.SinkBytes | Assembler/src/out.c:139-148 | bytes go to the raw file or to the current section's buffer, and nowhere else |
| Out.Output.SinkZeros | Assembler/src/out.c:154-169 | zeros go there too, in chunks for a raw file |
| Out.Output.WriteHalf | Assembler/src/out.c:176-179 | writes two bytes and marks the use of compressed code |
| Out.Output.WriteValue | Assembler/src/out.c:182-187 | writes the little-endian bytes for sizes 1, 2, 4 and 8 and refuses others |
| Gates.RequiresExact | Assembler/src/pass2.c:451-471 | an operation is refused exactly if it is an M operation without M or an RV64 operation on RV32, both listed |
| Gates.WordsAllowed | Assembler/src/pass2.c:1176-1234 | a word emitted in the place of MUL to REMUW implies the M extension, and one that denotes an RV64 operation implies RV64 |
| Gates.CompressedExact | Assembler/src/pass2.c:914-938 | a compressed operation is accepted exactly if C is on, the width has it and its form takes the operands, all listed |
| Gates.ResolveExact | Assembler/src/pass2.c:313-341 | a label resolves exactly if it is defined; for a branch or jump to the 32-bit number congruent to its distance, and the two halves are a multiple of 4096 and a 12-bit number that add up to it modulo 2^32 |
| Gates.SucceedsExactly | Assembler/src/pass2.c:1310-1366 | a run succeeds exactly if no data follows text, every datum is in the data section, and every instruction has its label defined, its operation available and its operands taken |
| Gates.UndefinedFails | Assembler/src/pass2.c:313-319 | an instruction with a label that no item defines makes the run fail, for every relocation |
| Gates.SuccessMeans | Assembler/src/pass2.c:433-466 | in a successful run every instruction's operation is one the target has, M included, and its label is an item |
| Gates.UnlabelledFits | Assembler/src/pass2.c:1176-1234 | an uncompressed instruction without a label meets its demands exactly if the target has its operation and its immediate is representable |
| Gates.SilentExact | Assembler/src/pass2.c:1176-1234 | an instruction fails without the error flag exactly if its compressed form is one the target lacks |
| Gates.FailureReported | Assembler/src/pass2.c:1310-1366 | every other failing run raises the error flag |
| Gates.NoFile | Assembler/src/pass2.c:1237-1307 | without an output file nothing is written, and the run fails with the error flag unless there is nothing to write |
| Emit.StreamIsDataThenText | Assembler/src/pass2.c:1252-1270 | with all data first, the entries' bytes in order are the data section followed by the text section |
| Emit.EmitAllWrites | Assembler/src/pass2.c:1310-1366 | a successful run had data first and no datum in text; the buffers hold their sections' bytes and a raw stream is data then text |
| Emit.EmitAllExact | Assembler/src/pass2.c:1310-1366 | emission succeeds if and only if every entry can be emitted and data comes first |
| Emit.EmitAllMarks | Assembler/src/out.c:176-179 | after a successful ELF run the compressed-code flag is raised exactly if some text instruction was emitted in 16 bits |
| Pass2.Pass.AssignAddresses | Assembler/src/pass2.c:246-276 | the loop computes Assign |
| Pass2.Pass.ValidateRanges | Assembler/src/pass2.c:188-243 | the loop computes Validate and reports exactly whether it dropped a choice |
| Pass2.Pass.PlanChoices | Assembler/src/pass2.c:293-310 | the loop computes Plan and counts the choices it attached |
| Pass2.Pass.RelayoutAndValidate | Assembler/src/pass2.c:344-353 | the loop computes Relax and its result |
| Pass2.Pass.Resolve | Assembler/src/pass2.c:313-341 | computes ResolveLabel, or raises had_error for an undefined label |
| Pass2.Pass.EmitInstr | Assembler/src/pass2.c:1176-1234 | resolves, encodes and writes as EmitCode and CodeOf say, on every error path |
| Pass2.Pass.EmitNode | Assembler/src/pass2.c:1237-1249 | emits the compressed choice if there is one, without its label for control transfers |
| Pass2.Pass.EmitSectionStart | Assembler/src/pass2.c:1252-1270 | switches section and refuses data after text |
| Pass2.Pass.EmitData | Assembler/src/pass2.c:1273-1288 | emits a datum in the data section only |
| Pass2.Pass.EmitAlign | Assembler/src/pass2.c:1291-1307 | emits the padding zeros |
| Pass2.Pass.Run | Assembler/src/pass2.c:1310-1366 | the whole pass leaves the entries as Prepare and the sinks and flags as EmitAll say |
| Disasm.ChoiceIntended | Assembler/src/pass2.c:1142-1172 | in the final layout a compressed choice stands for the very instruction its entry stands for, displacement included |
| Disasm.CodeDenotes | Assembler/src/pass2.c:1237-1249 | every emitted word or halfword is self-delimiting and reads back as intended exactly when its layout agrees with the manual |
| Disasm.TextReadsBack | Assembler/src/pass2.c:1237-1249 | stepping by the low bits visits exactly the text instructions at their addresses and reads back what each stands for |
| Whole.CounterIsLength | Assembler/src/pass1.c:21-83 | pass 1's counter is the sum of what the entries take uncompressed and of the padding |
| Whole.LabelValue | Assembler/src/assembler.y:59-64 | a label's value is its final offset plus the padding and twice the compressed instructions before it |
| Whole.BranchLands | Assembler/src/pass2.c:313-341 | in every successful converged run a branch or JAL to a label of its section, decoded from the bytes at its offset, lands at the label's final offset plus the slack, hence right exactly when there is none |
| Whole.NoSlack | Assembler/src/pass1.c:36-83 | without automatic compression and padding before the label there is no slack |
| Whole.NextEntry | Assembler/src/pass2.c:246-276 | a label's final offset is the address of the next entry of its section, or the section's end |
| Slipped.JumpMissesItsLabel | Assembler/src/ir.c:119-137 | a nop, an alignment and a jump to itself assemble into a jump four bytes past its label |
| Programs.ProgramReadsBack | Assembler/src/pass2.c:1310-1366 | in every successful converged run the text disassembles to the program and every datum reads back |
| Programs.ItemIsEntry | Assembler/src/ir.c:64-159 | every instruction and datum of the source has an entry in the final list, in the section the directives select, operands and value unchanged by both passes |
| Programs.PlacesAscend | Assembler/src/ir.c:64-159 | those entries stand in the order of the source, no two items sharing one |
| Programs.EveryEntryHasItem | Assembler/src/ir.c:64-159 | every instruction or datum of the final list is the entry of some item |
| Programs.InstructionReadsBack | Assembler/src/pass2.c:1310-1366 | in a good run the bytes at the place of each source instruction read as that instruction exactly when the layout used agrees with the manual |
| Programs.DatumReadsBack | Assembler/src/assembler.y:75-118 | in a good run the data bytes at the place of each source datum are its value modulo 256^size |
| Straight.SameSuccess | Assembler/src/pass2.c:1310-1366 | for text without labels the run with automatic compression converges, and succeeds exactly when the run without it does |
| Straight.CompressionKeepsInstructions | Assembler/src/c_rules.c:6-391 | for text without labels compression changes neither success nor the data bytes, and the two texts read as the same instructions in the same order exactly when every choice agrees with the manual |
| Straight.ExecutionAgrees | Assembler/src/c_rules.c:6-391 | straight-line text, compressed, assembles whenever it does uncompressed; both texts execute from the first byte to the end, with the same registers and memory after every instruction exactly when no compressed instruction comes before an AUIPC that writes a register |
| Machine.RunIsExec | Assembler/src/pass2.c:1237-1249 | stepping by the low bits through the bytes of code without branches executes its instructions one after the other |
| Machine.AgreeExactly | Assembler/src/c_rules.c:6-391 | the same branch-free instructions at other sizes keep registers and memory equal all along exactly when the counters agree, modulo the width, at every AUIPC |
| Moved.AuipcTells | Assembler/src/c_rules.c:6-23 | an increment before an AUIPC: every instruction is kept, yet x11 is base + 2 with compression and base + 4 without |
| Branches.DestinationKept | Assembler/src/c_rules.c:350-391 | a displacement between two instructions of the plain text, forward or backward, is right in the compressed text exactly when no instruction on the way is compressed |
| Branches.TransferLands | Assembler/src/c_rules.c:350-391 | in the emitted bytes of both runs a branch or jump by a number is fetched at its place, and where it leads to an instruction in the plain text it leads there in the compressed text exactly under that condition |
| Branches.RunsInStepExactly | Assembler/src/c_rules.c:6-391 | unlabelled text, JALR, links and AUIPC included, runs in step with and without compression for n instructions exactly when nothing compressed disturbs an instruction executed |
| Branches.RunsInStep | Assembler/src/c_rules.c:6-391 | under a condition on the source alone the two texts run in step for ever |
| Lockstep.RunsTogether | Assembler/src/pass2.c:1237-1249 | the same instructions at two sizes run together exactly as long as every executed one reads no moved counter and keeps its destination |
| Source.TextCarriesOut | Assembler/src/pass2.c:1310-1366 | the machine on the emitted bytes follows the source program item by item for any number of instructions, labelled branches going on at the label's item, and stops where it ends |
| Source.PlainCarriesOut | Assembler/src/pass2.c:1310-1366 | so it does for every successful program of uncompressed instructions without padding whose labels are in the text |
| Moved.BranchTells | Assembler/src/c_rules.c:350-369 | Branches.DestinationKept at a program: a branch by a number to the next instruction is itself compressed, so it loses its destination; every instruction is kept, and the branch when taken reaches a different one |
| Hilo.HalvesSum | Assembler/src/pass2.c:313-341 | HI20 and LO12 taken at one address sum to the offset exactly when it is below 2^31 - 2048, both encoders accept them and the decoded pair holds them |
| Hilo.LaMisses | Assembler/src/assembler.y:774-783 | la is never right, for any offset modulo 2^32: in range it is 4 bytes short or 4092 past |
| Elf.BlocksApart | Assembler/src/out.c:232-538 | for both classes and all four cases the written ranges are pairwise disjoint |
| Elf.BlockSurvives | Assembler/src/out.c:193-228 | of writes at pairwise disjoint ranges each is found in the finished file |
| Elf.EhdrReadsBack | Assembler/src/out.c:472-534 | the ELF header reads back field by field at the standard's offsets |
| Elf.PhdrReadsBack | Assembler/src/out.c:304-367 | a program header reads back, in either class's field order |
| Elf.ShdrReadsBack | Assembler/src/out.c:369-470 | a section header reads back |
| Elf.MakePlan | Assembler/src/out.c:247-291 | the running offset and the name table come out as planned |
| Elf.Finish | Assembler/src/out.c:232-538 | the file ends as the planned writes made in order; a raw file is left as it is |
| Elf.ElfReadsBack | Assembler/src/out.c:232-538 | following the headers recovers each segment, each section with its name and exactly the buffered bytes, offsets congruent to addresses modulo the page |
| Elf.LoadsAndStarts | Assembler/src/out.c:232-538 | the file read by its headers is a RISC-V executable: text readable and executable at 0x100000, data readable and writable at 0x200000, entry at the text if there is any and at the data's address otherwise, sections with their names, types and flags, the table aligned |
| Driver.AssembleFile | Assembler/src/main.c:131-175 | both passes and the file: it succeeds exactly when pass 2 does, and the file holds the raw stream or the ELF writes |
| Driver.FileReadsBack | Assembler/src/main.c:131-175 | the finished ELF file, read by its headers, is an executable that loads the program's text and data and starts at the text, which disassembles to the program; its flag tells whether any instruction is compressed |

## Left out

- The lexer and the parser: the model starts from the list of items the grammar's actions receive; pseudo-instructions arrive expanded as those actions expand them.
- Options, file opening, messages and their line numbers, `ir_dump_summary` and name tables.
- Allocation failures, failing writes and `free`: allocation and `fwrite` are taken to succeed, `fwrite` possibly a few bytes at a time. `Output` fixes its file when it is created.
- Growth of the entry array by doubling (`ensure_capacity`): the buffer holds a sequence.
- Linked chains in the symbol table: a bucket is a sequence of pairs, so sharing and freeing of list cells is not captured. The load factor is compared in integers, which is what the `float` division decides for tables below 2^24.
- Integer overflow of table sizes: `find_next_prime` and `resize_symtab` work on unbounded integers.
- `.align` with an exponent above 31 in the grammar's action, an undefined shift in C; `pass1_emit_align`, which clamps it, is not called by the grammar, and its modulus form of the padding is `Align.ModPad`.
- `ir_force_32`, `ir_force_auto` and `ir_mark_explicit_compressed`, which nothing calls; entries never carry a forced size of 4.
- A negative low bit in `put`: every call passes constants.
- The Windows branch of `write_at`, big-endian hosts, and `off_t` overflow.
- Entry-point selection and overlap of the text and data address ranges: no logic exists for them.
- Programs whose relaxation does not converge within eight rounds (`Slow.EightTooFew` is one): they are emitted, and only `Programs.CompressionNeverRejects`, `Emit.EmitAllExact` and the claims about the data section cover them.
- Straight.ExecutionAgrees: the machine keeps the text apart from the memory that loads and stores reach, and leaves arithmetic, memory access and what ECALL and EBREAK do open, as functions that do not see the program counter.
- Source.TextCarriesOut: programs with `la`, with a transfer to a label of another section or with slack before a label that is used are not covered, as they go wrong; nothing is claimed about them beyond where their branches land.
- Elf.ElfReadsBack: contents plus 16 KiB must fit the class's offsets; beyond that 32-bit headers truncate.
- Whole.BranchLands: labels defined in the other section are not covered, as their value counts another section's bytes.
