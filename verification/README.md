# A verified model of the RISC-V test generator and its macro runtime

The repository generates assembly tests for RISC-V processors. Its generator
(`riscv-ctg`) turns coverpoints into instructions, gives every instruction the
registers it needs besides its operands, and writes out a program with its
signature regions and data. The header files under `env/arch-test` are the
macro runtime those programs are assembled with. This project models the parts
where a mistake would be silent, and proves what they are for.

| module | what it models |
|---|---|
| `RegisterAllocation`, `RegisterPasses` | `swreg`, `testreg` and `valreg`: one loop that shrinks a register pool block by block, under three sets of rules |
| `ScratchRegisters` | which register `testreg` picks, exactly, and when it meets a pair half |
| `BlockRegisters` | the blocks of the three passes, their offsets and their picks, exactly |
| `TestEmission` | `__write_test__`: the program, its signature regions and its data section, run on an abstract register file |
| `SignatureUpdate` | `RVTEST_SIGBASE`, `CHK_OFFSET` and the `RVTEST_SIGUPD` macros: rebasing the signature pointer |
| `SignatureImplicit` | templates whose macro names no offset |
| `SignatureLayout`, `SignatureRuns` | generator and macros together: where in memory a generated program's signature words are, and the emitted program run on memory |
| `OperandSearch`, `OperandOutcomes`, `OperandClaims`, `ValueSearch` | `opcomb` and `valcomb`: searches around a constraint solver, what comes out of them, and what their coverage texts claim |
| `FieldVariables` | `merge_fields_f`: which floating-point coverpoints bypass the solver, and with which values |
| `InstructionSelection`, `CoverageFilter`, `GeneratedInstructions` | `gen_inst`: alias repair, candidates, the redundancy filter; and the way from coverpoints to instructions |
| `OrderedSets` | the ordered sets the generator works with, whose equality looks at order |
| `CsrFormula`, `CsrTrueLists`, `CsrParser`, `CsrTexts`, `CsrProgram`, `CsrMeaning`, `CsrGeneration` | the compiler from CSR coverpoints to CSR writes, reads and restores |
| `LoadImmediate`, `LoadChoices` | the `LI` macro, for XLEN 32 and 64, and which sequence it picks |
| `Trampoline` | copying the trap trampoline over the code at mtvec, and back |
| `LanePacking` | packing SIMD lanes into registers and register pairs |
| `FloatFields` | merging, splitting and boxing floating-point words |
| `Arithmetic`, `Wrappers` | powers of two, shifts and remainders; a value that may be missing |

`dafny verify dfyconfig.toml` checks the whole project.

How to read it:

* Code that works step by step is a method with a loop, on arrays, maps or the
  fields of a class as in the source, proved equal to a specification function;
  what the source promises is then proved of that function.
* The constraint solver is a function that finds a solution whenever there is
  one (the default, backtracking one; a random solver is not covered).
  Coverpoint conditions are predicates. Strides, sizes and the number of paired
  operands, which the templates supply, are parameters.
* Where the code is narrower than its comments, the model follows the code, and
  a lemma says exactly when the promise holds:
  * `LI`, line 434: `+` and `>>` are unbracketed. Under the C precedence the
    branch is as meant; under that of GNU as the sum is read otherwise. `LI` is
    proved for both readings and for both kinds of right shift.
  * The CSR parser stops reading after the last clause, so a text in which more
    than one operator bracket closes there is rejected, although the
    documentation allows any nesting. What follows the bracket that closes the last
    clause is not read at all, and of two bracketed texts side by side only the
    second is kept.
  * `SAT` is neither sound nor complete for all formulas; the exact shapes for
    which it is are given, with formulas at which it is not. The CSR compiler
    drops the false list of a solution; for exactly which shapes that is
    harmless is given, for the formula and for the CSRs. A `not` right above a
    clause is not among them.
  * The CSR generator reserves one signature word for each solution but reads
    every register of a solution; the reads fit exactly if the solutions name no
    more registers than there are solutions. From its 28th write on a program saves
    a CSR into the register its signature base is in. Plain clauses on a register
    with a write clause are not written, and an old clause without a later write is
    not observed.
  * `testreg` looks at a pair's upper half only where the lower half is still in
    its pool. Where every operand is a pair it avoids all halves; otherwise it
    picks the lowest register its block spares, which can be such a half.
  * `opcomb` asks for a condition together with the register demands then
    pending, and drops it if no tuple meets both. Which conditions are lost, and
    when the search gives up, is stated turn by turn, and outright for conditions
    alone and for registers alone.
  * `gen_inst` repeats combinations that use x0, but the filter also ignores the
    values of combinations that use f0.
  * The filter compares ordered sets, and these are equal only in the same order.
    So it also keeps a candidate that hits nothing new, if two of its coverpoints
    were first hit the other way round than the covergroup lists them. Coverage is
    still conserved, but more instructions may be kept than there are coverpoints:
    the bound holds with a surplus, which is 0 where coverpoints are first hit in
    the order listed, and nothing bounds it otherwise.
  * For the same reason a floating-point coverpoint marked `#nosat` bypasses the
    solver only if the dictionary of its values has its keys in order. Where narrow
    values are boxed in wide registers it never has, and all such coverpoints are
    skipped.
  * `RVTEST_SIGUPD_FID` without explicit offsets overwrites its own words on
    RV32 with D after 258 calls. Generated programs start a new region long
    before that; where their words then lie is stated too.

## Model

| member | source | states |
|---|---|---|
| RegisterAllocation.WithoutAllGone | riscv-ctg/riscv_ctg/generator.py:1181-1196 | removing registers from a pool without duplicates leaves none of them, nothing new, and loses at most one register each |
| RegisterAllocation.PoolAvoids | riscv-ctg/riscv_ctg/generator.py:1181-1211 | a register still in the pool at the end of a block is none of those any instruction of the block uses |
| RegisterAllocation.PoolNeverRunsDry | riscv-ctg/riscv_ctg/generator.py:1197-1211 | whenever a pass picks, its pool still holds more than the limit less one instruction's registers |
| RegisterAllocation.BlockShape | riscv-ctg/riscv_ctg/generator.py:1197-1212 | blocks partition the list: each reaches from its start to its end and the next starts there |
| RegisterAllocation.Assign | riscv-ctg/riscv_ctg/generator.py:1200-1207 | the instructions since the last choice get their fields by their place in the block, all others keep theirs |
| RegisterAllocation.Allocate | riscv-ctg/riscv_ctg/generator.py:1165-1221 | in place, the loop makes of every instruction what its block's pool and its place in the block determine |
| RegisterPasses.PoolsNeverRunDry | riscv-ctg/riscv_ctg/generator.py:1197-1211 | at every choice at least three registers remain for the signature pointer, two for the scratch register and two for the data pointer, so the flag register exists |
| RegisterPasses.SwPick | riscv-ctg/riscv_ctg/generator.py:1181-1221 | swreg changes only its own two fields; the pointer is a real register, not x0, none of the operands or pair halves; the first offset is 0 |
| RegisterPasses.SwRunsOn | riscv-ctg/riscv_ctg/generator.py:1197-1220 | from one instruction to the next the offset grows by the stride under the same pointer, or starts over at 0 |
| RegisterPasses.SwBound | riscv-ctg/riscv_ctg/generator.py:1203-1205 | no slot starts past 2047 bytes |
| RegisterPasses.TestPick | riscv-ctg/riscv_ctg/generator.py:1254-1284 | testreg changes only the scratch register, which is none of rs1, rs2, rd and the signature pointer |
| BlockRegisters.SwregIs | riscv-ctg/riscv_ctg/generator.py:1181-1221 | a block of swreg ends as soon as no more registers are left unused than two plus one for each operand and each pair, or with the list; the next starts there; its pointer is the lowest register left |
| BlockRegisters.SwOffsetIs | riscv-ctg/riscv_ctg/generator.py:1198-1206 | the offset is 0 where a block starts or where one stride more would pass 2047 bytes, and one stride more than the one before everywhere else |
| BlockRegisters.TestBlockIs | riscv-ctg/riscv_ctg/generator.py:1254-1284 | a block of testreg ends as soon as it has spared no more registers than that many |
| BlockRegisters.ValregIs | riscv-ctg/riscv_ctg/generator.py:1058-1128 | a block of valreg ends at one register more; the data pointer is the lowest left, and where there is one the flag register is the next lowest |
| BlockRegisters.ValOffsetIs | riscv-ctg/riscv_ctg/generator.py:1075-1115 | value offsets by the same rule as signature offsets, with their own stride and size |
| ScratchRegisters.PoolIsSurvivors | riscv-ctg/riscv_ctg/generator.py:1254-1268 | the pool of testreg is, in order, the registers every instruction of the block has spared: not named by it, and not the upper half of an operand whose lower half was still there |
| ScratchRegisters.TestregIs | riscv-ctg/riscv_ctg/generator.py:1254-1284 | testreg is a register if and only if that is the lowest one its block spares |
| ScratchRegisters.TestregHitsHalfIff | riscv-ctg/riscv_ctg/generator.py:1254-1284 | it is an upper half of its own instruction if and only if such a half is the lowest the block spares |
| ScratchRegisters.PairsUseX1 | riscv-ctg/riscv_ctg/generator.py:1181-1221 | where every operand is a pair, every signature pointer is x1 |
| ScratchRegisters.PairsSafe | riscv-ctg/riscv_ctg/generator.py:1254-1284 | where every operand is a pair, testreg is no operand, no half and not the signature pointer of its instruction |
| ScratchRegisters.HalfTaken | riscv-ctg/riscv_ctg/generator.py:1254-1266 | a list of two instructions with one paired operand each and no overlap inside them, where testreg is the second's upper half |
| RegisterPasses.ValPick | riscv-ctg/riscv_ctg/generator.py:1058-1128 | valreg's pointer differs from operands, pair halves, signature pointer and scratch register; a new flag register differs from all those and from the pointer |
| RegisterPasses.ValRunsOn | riscv-ctg/riscv_ctg/generator.py:1075-1115 | value offsets run on or start over likewise |
| RegisterPasses.AllocateAll | riscv-ctg/riscv_ctg/generator.py:1009-1284 | the three passes in their order, in place, on any list gen_inst leaves |
| TestEmission.AllocationReady | riscv-ctg/riscv_ctg/generator.py:1009-1284 | after the three passes, in any fresh list, no pointer is among the registers its instruction writes, the two pointers differ, and both offsets run on or start over |
| TestEmission.ClobberKeeps | riscv-ctg/riscv_ctg/generator.py:1447-1449 | what an instruction does not write, it does not change |
| TestEmission.InstJunks | riscv-ctg/riscv_ctg/generator.py:1447-1449 | and what it writes holds no pointer any more: operands, pair halves, scratch and flag register |
| TestEmission.RebaseLabels | riscv-ctg/riscv_ctg/generator.py:1470-1478 | a new region's label was never used, and the labels the SIGBASEs set up are those of the regions, one by one in order |
| TestEmission.TurnKeeps | riscv-ctg/riscv_ctg/generator.py:1446-1482 | one turn keeps the invariant: both pointers point where the layout says, all stores so far fill the regions in order, all loads find their values |
| TestEmission.TurnInOrder | riscv-ctg/riscv_ctg/generator.py:1446-1482 | every instruction and every value section comes once, in order |
| TestEmission.TurnsEmitted | riscv-ctg/riscv_ctg/generator.py:1411-1482 | the invariant holds after any number of turns |
| TestEmission.AllSlotsWithin | riscv-ctg/riscv_ctg/generator.py:1472-1485 | the slots stored to are just the multiples of the stride inside each region |
| TestEmission.SlotsTile | riscv-ctg/riscv_ctg/generator.py:1472-1485 | and no two instructions share one |
| TestEmission.ValuesKeep | riscv-ctg/riscv_ctg/generator.py:1450-1469 | after the first half of a turn the data pointer points at the dataset that holds the instruction's values, at its offset, and the signature pointer stands unless this turn replaces it |
| TestEmission.TurnDatasets | riscv-ctg/riscv_ctg/generator.py:1451-1458 | every dataset label is laid down once and set up by one VALBASEUPD, in order |
| TestEmission.TurnSetUp | riscv-ctg/riscv_ctg/generator.py:1446-1482 | before each instruction there is one SIGBASE if its offset is 0 or its pointer differs from the one before, and none otherwise; the same for VALBASEUPD and the value offset and pointer |
| TestEmission.TurnNumbers | riscv-ctg/riscv_ctg/generator.py:1474-1478 | a region's label is numbered with the regions of its register before it; without values there is no data |
| TestEmission.WriteSignature | riscv-ctg/riscv_ctg/generator.py:1470-1482 | the second half likewise; a region's size is the stride times the instructions under its SIGBASE |
| TestEmission.WriteAll | riscv-ctg/riscv_ctg/generator.py:1411-1482 | the loop computes the emitter's state after all turns |
| TestEmission.WriteTest | riscv-ctg/riscv_ctg/generator.py:1393-1485 | run from the start, the program stores through signature pointers that are live into exactly the slots of its regions, in order, and loads each instruction's values where the data section has them; region labels and dataset labels are distinct and numbered through, each is set up once, in order, and pointers are set up just where they are due |
| TestEmission.Generate | riscv-ctg/riscv_ctg/generator.py:1009-1485 | the same for every fresh instruction list through all passes; with a positive stride no two stores meet |
| SignatureUpdate.Signature.Chk | env/arch-test/test_macros.h:440-447 | base + offset moves only by the step asked for, the offset ends below 2048 just when it was below 4096 less the size, and the base moves only at the limit |
| SignatureUpdate.Signature.RvtestSigbase | env/arch-test/test_macros.h:419-422 | the next store is at the label |
| SignatureUpdate.Signature.Sigupd | env/arch-test/test_macros.h:452-458 | RVTEST_SIGUPD on the whole state |
| SignatureUpdate.Signature.SigupdF | env/arch-test/test_macros.h:466-479 | RVTEST_SIGUPD_F on the whole state |
| SignatureUpdate.Signature.SigupdFid | env/arch-test/test_macros.h:488-502 | RVTEST_SIGUPD_FID on the whole state |
| SignatureUpdate.Signature.SigupdPk | env/arch-test/test_macros.h:505-517 | RVTEST_SIGUPD_PK on the whole state |
| SignatureUpdate.Signature.SigupdPk64 | env/arch-test/test_macros.h:530-545 | RVTEST_SIGUPD_PK64 on the whole state |
| SignatureUpdate.ChkKeepsPosition | env/arch-test/test_macros.h:436-447 | CHK_OFFSET keeps base + offset but for the step asked for, and brings the offset below 2048 just when it was below 4096 less the size |
| SignatureUpdate.StoreInPlace | env/arch-test/test_macros.h:452-545 | the words of one macro go to consecutive places from base + offset on, with every immediate below 2048, across a rebase |
| SignatureUpdate.StoreAssembles | env/arch-test/test_macros.h:436-458 | the macro's stores are encodable if and only if the offset starts below 4096 less a word |
| SignatureUpdate.RunInPlace | env/arch-test/test_macros.h:448-458 | after RVTEST_SIGBASE a run of any length of macros without offsets fills memory from the label without a gap, every store encodable |
| SignatureUpdate.RunInPlaceIff | env/arch-test/test_macros.h:436-545 | for macros with any alignment test the words fill memory from the label without a gap, and then with every store encodable, if and only if no call finds a symbol its repair moves |
| SignatureUpdate.FidOverwrites | env/arch-test/test_macros.h:488-502 | with SIGALIGN 8 and REGWIDTH 4 the 259th call stores its first word over that of the 258th |
| SignatureUpdate.FidInPlaceIff | env/arch-test/test_macros.h:481-502 | such a run stays in place if and only if it has at most 258 calls |
| SignatureUpdate.StoreKeepsBase | env/arch-test/test_macros.h:440-447 | the base moves only in an entry that leaves no room for another one before the generator's wrap |
| SignatureUpdate.EntryInPlace | env/arch-test/test_macros.h:452-545 | one macro with an explicit offset stores at label + offset + j words |
| SignatureUpdate.EntriesInPlace | riscv-ctg/riscv_ctg/generator.py:1198-1206 | with the generator's wrap rule that holds for every entry of every run: a rebase is always followed by a new SIGBASE |
| SignatureUpdate.GeneratedInPlace | riscv-ctg/riscv_ctg/generator.py:1178-1220 | so it does for every list swreg allocates, whose wrap test uses the widest XLEN of the template, for programs assembled for that width or a smaller one |
| SignatureImplicit.BothFit | env/arch-test/test_macros.h:460-502 | RVTEST_SIGUPD_F and RVTEST_SIGUPD_FID, with SIGALIGN the same as REGWIDTH or twice it, are macros the next three rows speak of |
| SignatureImplicit.FilledBound | riscv-ctg/riscv_ctg/generator.py:1198-1206 | without explicit offsets an entry starts no further into its region than its slot, on a boundary its test passes, and ends inside its slot's end |
| SignatureImplicit.ImplicitInPlace | env/arch-test/test_macros.h:460-502 | under the wrap rule every word lands in its own region, macro after macro from the label on, and is encodable |
| SignatureImplicit.GeneratedImplicit | riscv-ctg/riscv_ctg/generator.py:1197-1220 | so it is for every list swreg allocates |
| SignatureLayout.StoreAt | riscv-ctg/riscv_ctg/generator.py:1446-1482 | in the emitted program, instruction i stores into the region it is counted in, at its own offset |
| SignatureLayout.TagStays | riscv-ctg/riscv_ctg/generator.py:1470-1478 | the region changes only where the offset starts over |
| SignatureLayout.ProgramLands | env/arch-test/test_macros.h:448-545 | templates with an explicit offset: every word a generated program stores lands in the slot its layout gives the instruction, and is encodable, whichever XLEN of the template the program is assembled for |
| SignatureLayout.ProgramLandsImplicit | env/arch-test/test_macros.h:798-810 | templates without one: the words lie one macro after the other from the region's label on, inside the slots' ends |
| SignatureRuns.TurnsRun | riscv-ctg/riscv_ctg/generator.py:1446-1482 | run on base registers, symbol and memory, the emitted program stores through the base set up for it and does what its instructions are to do one by one, a new base only where the offset is 0 |
| SignatureRuns.CodeLands | env/arch-test/test_macros.h:448-545 | the emitted program itself, run on memory: every word is in the slot the layout gives its instruction, at the region's address, and every store is encodable, for macros with an explicit offset |
| SignatureRuns.CodeLandsImplicit | env/arch-test/test_macros.h:798-810 | the same for macros without one: words lie one macro after the other from the label their SIGBASE names, inside the slots' ends |
| OperandSearch.RetryFails | riscv-ctg/riscv_ctg/generator.py:421-440 | asking the solver again finds nothing either, although conditions have grown in between |
| OperandSearch.TotalShrinks | riscv-ctg/riscv_ctg/generator.py:452-455 | a tuple that has a pending register leaves fewer pending |
| OperandSearch.SolutionCovers | riscv-ctg/riscv_ctg/generator.py:402-406 | while registers are pending every tuple found has one of them in its place |
| OperandSearch.GiveUpMeans | riscv-ctg/riscv_ctg/generator.py:442-451 | without conditions a search for one register at a time fails only for a register its operand cannot be |
| OperandSearch.KeptByTuple | riscv-ctg/riscv_ctg/generator.py:452-455 | a register taken off the pending set has been seen in its position |
| OperandSearch.Ask | riscv-ctg/riscv_ctg/generator.py:418-440 | solver call and retries have the answer of the first call; only a failure puts anything back |
| OperandSearch.FoundLess | riscv-ctg/riscv_ctg/generator.py:398-455 | a turn that finds a tuple leaves fewer registers and conditions pending |
| OperandSearch.FailedKeeps | riscv-ctg/riscv_ctg/generator.py:442-451 | a turn that fails uses up a failure, whatever it puts back |
| OperandSearch.TurnKeeps | riscv-ctg/riscv_ctg/generator.py:398-464 | every turn keeps: each register asked for is pending or seen, each condition pending, met or lost, tuples stay in their datasets and meet what their coverage text claims |
| OperandSearch.OpComb | riscv-ctg/riscv_ctg/generator.py:363-466 | the search ends, and returns what its turns, one after the other, come to |
| OperandOutcomes.CompleteUnlessGivenUp | riscv-ctg/riscv_ctg/generator.py:363-466 | unless it gives up every requested register is in its position of some tuple, and all but two conditions are met |
| OperandOutcomes.LostIff | riscv-ctg/riscv_ctg/generator.py:411-451 | a condition is lost if and only if in some turn it is popped, no tuple meets it along with the demands then pending, and it is not recognised; the search gives up if and only if a turn fails with both allowances used |
| OperandOutcomes.RecognisedKept | riscv-ctg/riscv_ctg/generator.py:423-438 | if every condition spells out registers the retry recognises, none is lost |
| OperandClaims.PutBackAll | riscv-ctg/riscv_ctg/generator.py:421-440 | a failed search on a recognised condition puts the condition back, and each register it spells out is then pending in every operand |
| OperandClaims.HardSeen | riscv-ctg/riscv_ctg/generator.py:421-455 | so unless the search gives up each of these registers is seen in every operand |
| OperandClaims.PutBackThenMet | riscv-ctg/riscv_ctg/generator.py:421-455 | with rs1 asked for x1 and the condition `rs1 == "x2"`, over x1 to x3, whatever the solver answers: the search does not give up, the condition is met and x2 seen in every operand |
| OperandClaims.CoveredIs | riscv-ctg/riscv_ctg/generator.py:452-464 | a tuple's text claims operand v if and only if its register there was pending |
| OperandClaims.StringsClaim | riscv-ctg/riscv_ctg/generator.py:400-464 | the coverage texts claim only registers asked for, each condition true of its tuple unless lost or named before, and something in every tuple; if no search fails, every register asked for is claimed |
| OperandOutcomes.ConditionsOnlyIff | riscv-ctg/riscv_ctg/generator.py:411-451 | with no registers asked for and no condition recognised, the search gives up if and only if three conditions can be met by no tuple, and otherwise loses exactly those that cannot |
| OperandOutcomes.LastConditionFirst | riscv-ctg/riscv_ctg/generator.py:411-451 | with conditions alone tuples are made for those that can be met, the last first |
| OperandOutcomes.RegistersOnlyIff | riscv-ctg/riscv_ctg/generator.py:402-451 | without conditions it gives up if and only if a requested register is in no dataset of its operand |
| OperandOutcomes.LostThoughMeetable | riscv-ctg/riscv_ctg/generator.py:402-451 | a whole search, whatever the solver answers, that loses a condition and meets it with no tuple, though a tuple of the datasets would meet it |
| ValueSearch.CutKeepsSatisfiable | riscv-ctg/riscv_ctg/generator.py:535-541 | cutting the datasets of unmentioned variables to one value keeps a coverpoint satisfiable or not and adds no solutions; a solution then has the first value of each such dataset |
| ValueSearch.ReadTerms | riscv-ctg/riscv_ctg/generator.py:511-521 | a marked coverpoint's values are read when each variable is spelled out once; the program ends if and only if one is spelled out twice, and skips the coverpoint otherwise |
| ValueSearch.ReadBypass | riscv-ctg/riscv_ctg/generator.py:502-525 | the same with the floating-point path, where the dictionary's keys must be all the variables in their order |
| ValueSearch.ValComb | riscv-ctg/riscv_ctg/generator.py:468-570 | the greedy cover takes the last open coverpoint first and ends with every coverpoint named by a tuple, or skipped as only partly spelled out, or unsatisfiable; each solved tuple is from the datasets, has first values where its coverpoint says nothing and satisfies all it names, in order; none names what an earlier one named or satisfied; the program ends only at a coverpoint still open whose values repeat |
| ValueSearch.CoveredIff | riscv-ctg/riscv_ctg/generator.py:534-569 | a coverpoint left to the solver is satisfied by a returned tuple if and only if the datasets can satisfy it |
| FieldVariables.MergeFields | riscv-ctg/riscv_ctg/helpers.py:61-96 | the loop computes the dictionary, in its order, or none |
| FieldVariables.PlainKeys | riscv-ctg/riscv_ctg/helpers.py:89-96 | without boxing the keys are the variables that are given, in their order |
| FieldVariables.BoxedKeys | riscv-ctg/riscv_ctg/helpers.py:70-88 | with boxing the first value is followed by its prefix |
| FieldVariables.MergedIff | riscv-ctg/riscv_ctg/helpers.py:49-96 | there is a dictionary if and only if the coverpoint names all variables but NaN prefixes |
| FieldVariables.AcceptedIff | riscv-ctg/riscv_ctg/generator.py:505-524 | valcomb accepts it if and only if nothing is boxed and the coverpoint names every variable |
| FieldVariables.MergedValues | riscv-ctg/riscv_ctg/helpers.py:61-96 | a merged value in the dictionary is that of its sign, exponent and mantissa, a named one is as named, and a prefix not named is all ones |
| FieldVariables.OneValue | riscv-ctg/riscv_ctg/helpers.py:66-88 | one value alone: by itself if its format fills the register, else followed by its prefix, NaN or sign, all ones by default |
| FieldVariables.CoveredIfComplete | riscv-ctg/riscv_ctg/generator.py:496-570 | in what valcomb returns such a coverpoint has a tuple of its own only then; it is then covered, and its tuple holds the merged and named values in the order of the variables |
| InstructionSelection.RepairAliases | riscv-ctg/riscv_ctg/generator.py:841-849 | in place: an x0 operand's value is 0, any other has the value of the first operand that is the same register, nothing else changes |
| InstructionSelection.RepairedConsistent | riscv-ctg/riscv_ctg/generator.py:841-849 | the repaired values fit one register file, and values that already did are unchanged |
| InstructionSelection.DefaultRegisters | riscv-ctg/riscv_ctg/generator.py:241-266 | default registers are different and not x0; there are none only if no such choice exists |
| InstructionSelection.Combine | riscv-ctg/riscv_ctg/generator.py:839-849 | a pair of tuples gives a candidate with a possible register file; if the values are not to be repeated they are as they were and the registers are clean |
| InstructionSelection.Candidates | riscv-ctg/riscv_ctg/generator.py:824-891 | every value tuple has a candidate that uses it as it is, with its own operand tuple if that is clean and the default registers if not; every operand tuple has a candidate; all candidates are consistent; and the list is one candidate per pair, in order, then the repeats |
| OrderedSets.MeetIff | riscv-ctg/riscv_ctg/constants.py:7 | meeting b with a gives b again if and only if a has all of b, in the same order |
| OrderedSets.JoinOrder | riscv-ctg/riscv_ctg/constants.py:7 | joining keeps what was there in front, and the new elements in their order |
| CoverageFilter.HitsAre | riscv-ctg/riscv_ctg/generator.py:904-959 | what a list hits is what its members count, each coverpoint once, and nothing but coverpoints |
| CoverageFilter.HitOrder | riscv-ctg/riscv_ctg/generator.py:980-984 | hits are in the order of their first candidates, those of one candidate in the covergroup's |
| CoverageFilter.Count | riscv-ctg/riscv_ctg/generator.py:964-988 | one candidate adds what it counts behind every hit set, and is unique if and only if some of its hits, met with those before, are not the same list |
| CoverageFilter.UniqueIff | riscv-ctg/riscv_ctg/generator.py:978-988 | a candidate is kept if and only if it hits something new, or two of its coverpoints were first hit the other way round than listed |
| CoverageFilter.Filter | riscv-ctg/riscv_ctg/generator.py:960-991 | the filter keeps, in order, just the candidates that are unique where they stand |
| CoverageFilter.KeepHits | riscv-ctg/riscv_ctg/generator.py:960-991 | the kept candidates hit exactly what all candidates hit, in the same order of first hits |
| CoverageFilter.SizeGrows | riscv-ctg/riscv_ctg/generator.py:980-988 | keeping a candidate that hits something new enlarges the total |
| CoverageFilter.KeepBound | riscv-ctg/riscv_ctg/generator.py:960-991 | at most as many are kept as there are coverpoints, and those kept without hitting anything new |
| CoverageFilter.NeededIff | riscv-ctg/riscv_ctg/generator.py:980-988 | each kept candidate hit something new when it was kept if and only if there is no such surplus |
| CoverageFilter.NoSurplus | riscv-ctg/riscv_ctg/generator.py:980-988 | there is none if coverpoints are first hit in the order listed |
| CoverageFilter.KeptAgain | riscv-ctg/riscv_ctg/generator.py:980-988 | a candidate kept without hitting anything new is kept again as often as it comes |
| GeneratedInstructions.KeptWithoutNeed | riscv-ctg/riscv_ctg/generator.py:824-991 | of three tuples whose conditions are hit from the last to the first, the third with rd the same as rs1, gen_inst makes four candidates and keeps all four, for three coverpoints |
| GeneratedInstructions.NothingBounds | riscv-ctg/riscv_ctg/generator.py:980-988 | and any number of further repetitions |
| GeneratedInstructions.IgnoredIff | riscv-ctg/riscv_ctg/generator.py:966-979 | with different non-x0 registers the filter ignores values if and only if f0 is rs1, rs2 or rd |
| GeneratedInstructions.ValuesCountIff | riscv-ctg/riscv_ctg/generator.py:966-979 | for rs1, rs2 and rd: a condition on values counts if and only if it holds, the sources differ and none of the three is x0 or f0 |
| GeneratedInstructions.ZeroFloatLoses | riscv-ctg/riscv_ctg/generator.py:839-840 | such a combination is not repeated with other registers, and its values hit nothing |
| GeneratedInstructions.ValuesReach | riscv-ctg/riscv_ctg/generator.py:824-988 | whatever a value tuple satisfies is hit, unless the filter ignores the candidate that uses it |
| GeneratedInstructions.NoZeroCovered | riscv-ctg/riscv_ctg/generator.py:468-991 | so with no f0 among the operand tuples and defaults every coverpoint the datasets can satisfy is hit |
| GeneratedInstructions.OperandsReach | riscv-ctg/riscv_ctg/generator.py:363-991 | every register and condition opcomb covers is hit by a candidate |
| GeneratedInstructions.GenInst | riscv-ctg/riscv_ctg/generator.py:805-1007 | gen_inst as a whole: candidates for all tuples as they were found, where tuples run out with the first values of the datasets, filtered without loss |
| GeneratedInstructions.FromCoverpoints | riscv-ctg/riscv_ctg/generator.py:363-1007 | opcomb, valcomb and gen_inst together, for integer and floating-point operands: what each value tuple satisfies is hit by a kept instruction unless f0 makes the filter ignore it; without f0 in the datasets that is every coverpoint the datasets can satisfy; every requested register and condition opcomb reaches is hit; and at most as many are kept as there are coverpoints and surplus |
| CsrFormula.SatList | riscv-ctg/riscv_ctg/csr_comb.py:55-104 | the loops of SAT compute its specification |
| CsrFormula.SatCount | riscv-ctg/riscv_ctg/csr_comb.py:81-94 | SAT returns exactly 3 to the number of ors solutions |
| CsrFormula.SatPartitions | riscv-ctg/riscv_ctg/csr_comb.py:45-49 | each solution splits the multiset of literal occurrences exactly |
| CsrFormula.ListedIffSolution | riscv-ctg/riscv_ctg/csr_comb.py:55-104 | which valuations some solution describes, read off the formula, both ways round |
| CsrFormula.SatSound | riscv-ctg/riscv_ctg/csr_comb.py:45-49 | for the sound shapes every consistent solution satisfies the formula |
| CsrFormula.SatSoundIff | riscv-ctg/riscv_ctg/csr_comb.py:45-104 | without repeated clauses SAT is sound if and only if the formula has a sound shape |
| CsrFormula.SatComplete | riscv-ctg/riscv_ctg/csr_comb.py:45-49 | for the complete shapes every satisfying valuation is described |
| CsrFormula.SatCompleteIff | riscv-ctg/riscv_ctg/csr_comb.py:45-104 | without repeated clauses SAT is complete if and only if the formula has a complete shape |
| CsrFormula.SatFindsOne | riscv-ctg/riscv_ctg/csr_comb.py:45-104 | a formula without repeated clauses always has one genuine solution in the list |
| CsrFormula.NotSoundAt | riscv-ctg/riscv_ctg/csr_comb.py:59-94 | SAT is not sound at `not (a or b)` |
| CsrFormula.NotCompleteAt | riscv-ctg/riscv_ctg/csr_comb.py:70-94 | SAT is not complete at `(a and b) or c` |
| CsrFormula.PolarityIsSound | riscv-ctg/riscv_ctg/csr_comb.py:55-104 | every or under an even number of nots is a sound shape |
| CsrFormula.NotFreeShapes | riscv-ctg/riscv_ctg/csr_comb.py:65-104 | formulas without not are sound, and complete if and only if no and stands under an or |
| CsrParser.ReduceLoop | riscv-ctg/riscv_ctg/csr_comb.py:145-208 | popping operators and operands in a loop, and the index error when operands run out |
| CsrParser.ParseCsrCovpt | riscv-ctg/riscv_ctg/csr_comb.py:112-210 | the scan computes the parser's specification |
| CsrParser.ReduceSyntax | riscv-ctg/riscv_ctg/csr_comb.py:145-208 | whatever lies below on the stacks, a text's operators reduce to its tree |
| CsrParser.RunSyntax | riscv-ctg/riscv_ctg/csr_comb.py:131-194 | reading a text leaves exactly its pending operators and operands |
| CsrParser.ParseInvertsPrint | riscv-ctg/riscv_ctg/csr_comb.py:112-210 | parsing a text, with not over and over or and equal operators grouping to the right, gives its tree if at most one operator bracket closes after the last clause, and fails otherwise |
| CsrParser.ParseInvertsStr | riscv-ctg/riscv_ctg/csr_comb.py:62-107 | the printed form can be parsed back if and only if its last operand is a clause |
| CsrTexts.WordsKept | riscv-ctg/riscv_ctg/csr_comb.py:112-210 | of any text that parses, well formed or not: brackets and operators apart, the clauses of the tree are word by word the last of the text up to some token; nothing is added, left out in between or moved |
| CsrTexts.StrayClose | riscv-ctg/riscv_ctg/csr_comb.py:148-187 | a closing bracket without an opening one fails every text, except behind the bracket that closes the last clause, where nothing is read |
| CsrTexts.StrayOperator | riscv-ctg/riscv_ctg/csr_comb.py:174-208 | an operator without a right operand likewise |
| CsrTexts.StrayFirst | riscv-ctg/riscv_ctg/csr_comb.py:137-208 | a bracket that is never closed, or a binary operator without a left operand, fails every text |
| CsrTexts.OnlyTheSecond | riscv-ctg/riscv_ctg/csr_comb.py:148-210 | of two bracketed texts with nothing between them the second alone is returned |
| CsrProgram.RightShiftClause | riscv-ctg/riscv_ctg/csr_comb.py:216-255 | a clause on the shifted-right CSR is the clause with mask and value moved up |
| CsrProgram.LeftShiftClause | riscv-ctg/riscv_ctg/csr_comb.py:216-255 | on the shifted-left CSR it is the clause with both moved down if and only if the value's low bits are zero |
| CsrProgram.ExtractMeaning | riscv-ctg/riscv_ctg/csr_comb.py:216-255 | a condition and the mask and value extracted from it agree on every CSR value, but for such bits |
| CsrProgram.Merge | riscv-ctg/riscv_ctg/csr_comb.py:288-319 | the dictionary holds per register and kind the union of the accepted clauses' masks and values, and only the first modified register keeps its modified clauses |
| CsrProgram.AcceptedIff | riscv-ctg/riscv_ctg/csr_comb.py:289-300 | a clause is accepted if and only if it can be read and has no modifier, or the register of the first clause that has one |
| CsrGeneration.SortRows | riscv-ctg/riscv_ctg/csr_comb.py:321-322 | the dictionary's items, the modified register last |
| CsrMeaning.EntryEffect | riscv-ctg/riscv_ctg/csr_comb.py:328-357 | one register's writes leave it with its old field written first and its write or plain field after, and no other register changed |
| CsrProgram.EmitWrites | riscv-ctg/riscv_ctg/csr_comb.py:324-362 | the writes in order with restore registers numbered on, and the restores in reverse |
| CsrProgram.RestoreUndoesWrites | riscv-ctg/riscv_ctg/csr_comb.py:324-404 | writes, reads, then restores leave every CSR as it was while the restore registers stay below x29, and every read is stored through the signature base that was set up while they stay below x28 |
| CsrProgram.BaseKeptIff | riscv-ctg/riscv_ctg/csr_comb.py:376-404 | the reads of a program go through that base if and only if it has fewer than 28 writes, or the CSR the 28th saves holds the base |
| CsrProgram.TwentyNineWritesIff | riscv-ctg/riscv_ctg/csr_comb.py:324-404 | with 29 writes all CSRs come back if and only if nothing is read, an earlier write restores the last one's CSR too, or the value read last is the one it had |
| CsrProgram.TooManyWritesLoseOne | riscv-ctg/riscv_ctg/csr_comb.py:331-371 | otherwise the CSR of the last write is left with the value read last |
| CsrMeaning.WritesEffect | riscv-ctg/riscv_ctg/csr_comb.py:324-362 | after the writes each register has its own row's value and all others are unchanged |
| CsrMeaning.MergedFieldHolds | riscv-ctg/riscv_ctg/csr_comb.py:300-319 | whatever the register held, writing the merged field makes every clause merged into it hold |
| CsrMeaning.PlainFieldsHold | riscv-ctg/riscv_ctg/csr_comb.py:288-362 | with no modifiers every clause of a solution holds after the writes |
| CsrMeaning.FieldsObserved | riscv-ctg/riscv_ctg/csr_comb.py:288-362 | with modifiers every clause of an observable solution holds before or after the last write, as its modifier says, from any CSR state |
| CsrMeaning.ObservedIff | riscv-ctg/riscv_ctg/csr_comb.py:324-362 | this is so from every CSR state if and only if the solution is observable: an old clause has a later write, and where a write clause takes the place of the plain ones, it and the old clauses leave what they ask for |
| CsrTrueLists.TruesEnforce | riscv-ctg/riscv_ctg/csr_comb.py:278-291 | in an enforced shape every valuation in which a solution's true list holds makes the formula true, the false list unseen |
| CsrTrueLists.EnforcedIff | riscv-ctg/riscv_ctg/csr_comb.py:55-104 | without repeated clauses true lists are enough if and only if the shape is enforced |
| CsrTrueLists.NotFreeEnforced | riscv-ctg/riscv_ctg/csr_comb.py:65-104 | every formula without not has such a shape |
| CsrMeaning.CoverpointMet | riscv-ctg/riscv_ctg/csr_comb.py:267-362 | from text to CSRs: the text parses, and if its shape is enforced then after the writes of any solution, from any CSR state, the coverpoint holds |
| CsrGeneration.SolutionsAt | riscv-ctg/riscv_ctg/csr_comb.py:278-288 | the solutions of a coverpoint follow those of the coverpoints before it, and a text that fails to parse has none |
| CsrGeneration.CoverpointsMet | riscv-ctg/riscv_ctg/csr_comb.py:267-373 | so for any list of texts, each program generated for the text of an enforced shape makes it hold, from any CSR state |
| CsrGeneration.WritesNeeded | riscv-ctg/riscv_ctg/csr_comb.py:324-357 | no write is idle: a register has one write for its accepted old clauses and one for its other accepted clauses, where there are any |
| CsrMeaning.NotEnforcedFails | riscv-ctg/riscv_ctg/csr_comb.py:278-362 | if the shape is not enforced some solution fails from some CSR state, whatever program is generated for it, for clauses on registers of their own |
| CsrMeaning.ObeyedIff | riscv-ctg/riscv_ctg/csr_comb.py:278-362 | for such clauses the generated writes obey a formula if and only if its shape is enforced |
| CsrMeaning.NotIsNotEnforced | riscv-ctg/riscv_ctg/csr_comb.py:278-288 | for not c nothing is written, so it holds only where c already failed |
| CsrGeneration.SolutionProgram | riscv-ctg/riscv_ctg/csr_comb.py:289-371 | one solution's writes, reads and restores, the reads from the next free offset on, are the ones the rows about a program speak of |
| CsrGeneration.EmitAll | riscv-ctg/riscv_ctg/csr_comb.py:288-371 | the same for every solution, in order, the offsets running on |
| CsrGeneration.CsrComb | riscv-ctg/riscv_ctg/csr_comb.py:267-373 | over all coverpoints: one program per solution, in order, none for a text that does not parse, and offsets that count all reads through |
| CsrGeneration.GeneratedFor | riscv-ctg/riscv_ctg/csr_comb.py:288-371 | these are the programs CoverpointMet and RestoreUndoesWrites speak of |
| CsrGeneration.ReadsEachOnce | riscv-ctg/riscv_ctg/csr_comb.py:359-371 | a program reads each register its accepted clauses name, once, word by word from the next free offset on |
| CsrGeneration.SignatureHolds | riscv-ctg/riscv_ctg/csr_comb.py:324-371 | after its writes and reads the signature holds for each of these registers the value it has got, at the register's own offset, with fewer than 28 writes through the base set up |
| CsrGeneration.SignatureFitsIff | riscv-ctg/riscv_ctg/csr_comb.py:267-404 | for any coverpoints, the reads of their programs stay in the reserved signature region if and only if their solutions name no more registers than there are solutions |
| CsrGeneration.TwoRegistersOverflow | riscv-ctg/riscv_ctg/csr_comb.py:278-404 | the program of `c and d`, clauses on two registers, writes past the region unless both carry modifiers |
| LoadImmediate.ScanEdges | env/arch-test/arch_test.h:412-425 | the scan finds the lowest set bit and the next clear bit above it |
| LoadImmediate.ShortLoads | env/arch-test/arch_test.h:432-433 | one li loads every constant the first test accepts |
| LoadImmediate.WordLoads | env/arch-test/arch_test.h:434-438 | lui and addi load every constant the second test accepts, under either reading of it |
| LoadImmediate.LeadingOnesLoads | env/arch-test/arch_test.h:440-442 | ones followed by zeroes are loaded by a shift of all ones |
| LoadImmediate.TrailingOnesLoads | env/arch-test/arch_test.h:443-445 | zeroes followed by ones likewise |
| LoadImmediate.SingleBitLoads | env/arch-test/arch_test.h:446-451 | one bit, or its complement, is loaded by a shift and perhaps xori |
| LoadImmediate.BitRunLoads | env/arch-test/arch_test.h:452-458 | a run of bits, or its complement, by two shifts and perhaps xori |
| LoadImmediate.ShiftBack | env/arch-test/arch_test.h:427-430 | trailing zeroes shifted out and in again give the constant, under either kind of shift |
| LoadImmediate.ShiftedShortLoads | env/arch-test/arch_test.h:460-462 | a shifted short constant |
| LoadImmediate.ShiftedWordLoads | env/arch-test/arch_test.h:463-468 | a shifted word constant |
| LoadImmediate.LongFormLoads | env/arch-test/arch_test.h:469-480 | the fixed sequence loads every constant, with or without its last addi |
| LoadChoices.DirectChoice | env/arch-test/arch_test.h:432-438 | a 12-bit signed number is loaded by li alone, and a number that line 434 takes for a word by lui and perhaps addi |
| LoadChoices.TopRunChoice | env/arch-test/arch_test.h:439-445 | any other constant that is a run of ones from one end is loaded as all ones and one shift |
| LoadChoices.OneBitChoice | env/arch-test/arch_test.h:446-451 | one bit, or all but one, as a shifted 1, complemented if need be |
| LoadChoices.InnerRunChoice | env/arch-test/arch_test.h:452-458 | a run of bits inside, or all but one, as all ones, two shifts and perhaps a complement |
| LoadChoices.TrailingChoice | env/arch-test/arch_test.h:459-468 | an odd number followed by zeroes, if it has at most 11 bits or line 463 takes it for a word, as that number and a shift |
| LoadChoices.LongChoice | env/arch-test/arch_test.h:469-480 | every other constant by the fixed sequence, with its last addi where the low ten bits are not 0 |
| LoadImmediate.LiWide | env/arch-test/arch_test.h:439-480 | whichever of the later branches is taken, its sequence loads the constant |
| LoadImmediate.Li64 | env/arch-test/arch_test.h:393-485 | for every constant and under every reading, the emitted sequence of at most eight encodable instructions leaves exactly the constant mod 2^64, whatever the register held, and is the one the first guard it passes stands for |
| LoadImmediate.Li32 | env/arch-test/arch_test.h:378-391 | the same mod 2^32: li alone for 12-bit signed numbers, otherwise lui, and addi only where the low bits are not 0 |
| Trampoline.SaveStep | env/arch-test/arch_test.h:1058-1059 | saving a word disturbs nothing swapped so far |
| Trampoline.CopyStep | env/arch-test/arch_test.h:1060-1063 | the word read back is the one written if and only if it could be written or was the trampoline's already |
| Trampoline.Memory.Overwrite | env/arch-test/arch_test.h:1057-1072 | the copy gets exactly as far as the first word that does not take or at which the test build pretends, and leaves exactly the words so far swapped, that word saved, and all else untouched |
| Trampoline.HandlerTestStops | env/arch-test/arch_test.h:1064-1068 | built for testing the handler, the copy always ends at the first word |
| Trampoline.Memory.Restore | env/arch-test/arch_test.h:1798-1807 | the do-while puts back the first word and all below the recorded end, where they can be written |
| Trampoline.RestoreUndoes | env/arch-test/arch_test.h:1052-1807 | in either build, for every memory of writable and read-only words, the epilog gives the mtvec target its original words back |
| LanePacking.PackedBound | riscv-ctg/riscv_ctg/dsp_function.py:117-125 | lanes of w bits, signed or not, pack into their total width |
| LanePacking.LaneRecovered | riscv-ctg/riscv_ctg/dsp_function.py:117-125 | every lane's pattern is found again at its place, for any lane count and width |
| LanePacking.SignedLane | riscv-ctg/riscv_ctg/constants.py:30-54 | `twos` and `sign_extend` agree on a lane's pattern, and give the lane back if and only if it is a signed number of w bits |
| LanePacking.SimdValVars | riscv-ctg/riscv_ctg/dsp_function.py:3-28 | the names of the lanes, in order |
| LanePacking.NamesAreRead | riscv-ctg/riscv_ctg/dsp_function.py:16-28 | the lanes the packing reads are there if and only if all those names are |
| LanePacking.Instruction.Accumulate | riscv-ctg/riscv_ctg/dsp_function.py:109-125 | an operand's value: the pattern of its single entry, or its lanes packed |
| LanePacking.Instruction.AccumulateRd | riscv-ctg/riscv_ctg/dsp_function.py:146-163 | rd is packed up to its first missing lane |
| LanePacking.Instruction.Concat | riscv-ctg/riscv_ctg/dsp_function.py:109-145 | one operand packed in place |
| LanePacking.Instruction.SplitPair | riscv-ctg/riscv_ctg/dsp_function.py:209-257 | one operand packed and split in place into low and high words; its upper register is the next one up, by number |
| LanePacking.Instruction.ConcatSimdData | riscv-ctg/riscv_ctg/dsp_function.py:88-165 | each operand's entry holds its own lanes packed, whatever is done to the others |
| LanePacking.Instruction.SplitRd | riscv-ctg/riscv_ctg/dsp_function.py:259-286 | a paired rd gets the next register up as its upper one always, its words only where it has a value |
| LanePacking.Instruction.GenPairRegData | riscv-ctg/riscv_ctg/dsp_function.py:175-286 | every operand's entries hold its packed value, in two words and with the next register if it is a pair |
| LanePacking.WholeIs | riscv-ctg/riscv_ctg/dsp_function.py:109-125 | what is packed: a single value's pattern, or each lane at its own place under its own name |
| LanePacking.PairHoldsLanes | riscv-ctg/riscv_ctg/dsp_function.py:215-222 | on RV32 the two words recombine to the packed value, from which every lane is recovered |
| FloatFields.TextNumber | riscv-ctg/riscv_ctg/helpers.py:54-58 | reading what was formatted gives the number back, in binary and in hexadecimal, at any width |
| FloatFields.ExtractFrsFields | riscv-ctg/riscv_ctg/helpers.py:34-59 | the way through hexadecimal text changes nothing |
| FloatFields.MergedIs | riscv-ctg/riscv_ctg/helpers.py:54-59 | a merged word is sign, exponent and mantissa side by side |
| FloatFields.FormatIs | riscv-ctg/riscv_ctg/helpers.py:34-53 | in each of the three formats sign, exponent and mantissa fill the word; 1.0 and the smallest negative number have their IEEE 754 patterns |
| FloatFields.SplitMerged | riscv-ctg/riscv_ctg/function_generators.py:124-158 | splitting a merged word returns its fields, for all fields in range and any format |
| FloatFields.MergeSliced | riscv-ctg/riscv_ctg/function_generators.py:124-158 | merging a split word returns the word |
| FloatFields.SplitMergedIff | riscv-ctg/riscv_ctg/helpers.py:34-59 | outside that range the round trip holds exactly for a long mantissa behind a set sign |
| FloatFields.BoxHolds | riscv-ctg/riscv_ctg/helpers.py:22-26 | boxed with an explicit or an implicit prefix, the register holds the value below the prefix |

## Left out

- TestPick: says nothing of pair halves, since the source can pick one; ScratchRegisters states exactly when, and that it cannot where every operand is a pair.
- ValComb: the random solver is not covered, and the solver's completeness is an assumption about python-constraint, which is not part of this model.
- RetryFails: takes it from python-constraint that a call removes from each domain what the variable's own constraint forbids, and that the constraint stays tied to the set it was made with.
- OpComb: covers operands rs1, rs2 and rd and the default solver; with the random solver a retry may find a solution after conditions were put back, and the loop need not end.
- CsrComb: masks wider than a CSR, WARL fields and the text of the three CSR macros are not part of this model; they are taken to write `(csr & ~mask) | val` after saving the CSR, to store a CSR at an offset from the base register, and to write a saved value back. A program needs restore registers that exist: from the 30th write on they are the macros' own.
- ExtractMeaning: clause texts are split by a function given as a parameter; regular expressions and number syntax are not modelled.
- GenPairRegData: a pair is split at 32 bits whatever XLEN is, as the source does; recombination is stated for RV32 only.
- RunInPlace: speaks of macros whose alignment test is at most their unit; RunInPlaceIff has no such assumption.
- ProgramLands: speaks of templates that give the macro its offset; ProgramLandsImplicit speaks of the others.
- ProgramLandsImplicit: speaks of macros whose words fit a slot counted in the unit of the wrap test. That unit never takes FLEN in (generator.py:1174 asks for the number as a key), so RVTEST_SIGUPD_F in a template for RV32 alone with 64-bit floats does not fit; RunInPlace still puts its words one after the other from the label on.
- GenInst: candidates are operands and values; labels, comments, rounding modes and the compressed formats' own field rules are not modelled. A coverpoint's values are looked at without the variables riscv_isac adds.
- MergeFields: fields and values are found in the coverpoint's text by functions given as parameters.
- MeetIff: that `&` keeps the order of its left operand and that equality looks at order is taken from the ordered-set package, which is not part of this model.
- Splitting a test into several files (`--inst`): a slice that starts inside a block emits no SIGBASE.
- The templates (YAML): strides, sizes and macro choices are parameters, so that a template fits its stride is an assumption.
- The third source operand rs3 of floating-point formats, which the passes never remove, is not an operand here.
- Text: tokenising, hexadecimal formatting of lanes, and the lines of the data section are not modelled; a section is one stride.
- `LI` on symbols: assembler symbols are unbounded integers, and relocation of labels is not modelled.
- Page tables, trap handling between prolog and epilog, interrupt and branch macros: they rest on platform labels and CSRs outside these files. The test between copy and restore is assumed to leave target and save areas alone.
- Report generation, command line, cross-coverage and bit-manipulation templates: plumbing, with nothing to prove beyond their own text.
