# Verified models of a CP/M-68K and Z8000 tool chain

The repository holds C compilers, assemblers and a preprocessor for the 68000
and the Z8000. This project models the parts of it that are hardest to get
right, in Dafny, and proves what they are for. `dafny verify dfyconfig.toml`
checks everything.

| component | modules |
|---|---|
| expression canonicaliser of the Z8002 code generator | `Word`, `Icode`, `Fold`, `Rules`, `SwitchRules`, `FormRules`, `Stable`, `NormalForm`, `Group`, `Regroup`, `Commuting`, `GroupShape`, `Canon`, `Limits`, `Widths`, `Triples`, `Lowered`, `BitField` |
| conditions and conditional expressions as jumps | `CondJump` |
| branch relaxation of the 68000 assembler, over its symbol chains | `SymChains`, `Relax` |
| paged storage, symbol index, in-place sort and cross reference of the Z8000 assembler | `PagedStore`, `SymNames`, `SymIndex`, `SymSort`, `Xref` |
| object blocks, conditional text, preprocessor expressions, relocatable expressions | `ObjBlocks`, `Conditionals`, `CondAsm`, `CppCond`, `CppExpr`, `Reloc` |

Code that overwrites its state is modelled by classes and methods with loops,
each proved against a specification function or a stated property; what the
specification is for is proved as lemmas beside it. Integers are unbounded in
Dafny, so every wrap-around of a 16-bit or 32-bit word is written out.

## Main results

- **Canonicaliser.** Canonicalising ends, leaves a normal form, and keeps
  type and value of every tree whose evaluation is safe (`Canon.Canonicalize`).
  The normal form is stated on the shape of the tree alone: which operators stand
  over no two literals, which literals never stand on the right, and which operators
  never stand above which. It is exactly what the optimizer leaves alone
  (`NormalForm.FixedIff`). Commutative groups lean to the left in the order of their
  difficulty, the literal last (`GroupShape.CommuteGathers`, `Regroup.SortedInOrder`).
  Termination rests on a weight that adds for sums, multiplies for products and
  doubles for negation and complement. The fold loop of a commutative group
  goes on after a pair that does not fold; that it loses nothing depends on the
  sort order alone (`Regroup.FoldLoopSorted`, `Regroup.FoldLoopExactly`).
  Safe means: no zero divisor, shift counts inside the word, no 16-bit overflow
  of a product that may come to stand below a widening, and, where a widened value
  stands below a negation or complement or one may be put there, a value that these
  do not carry out of 16 bits. A negation may be put over a factor of a product
  when another factor may become a constant, and over no other factor.
- **Jumps.** For every nesting of `&&`, `||`, `!`, comma, comparisons and `?:`
  the code reaches the label exactly when it should, evaluating what C
  evaluates in C's order (`CondJump.CondRuns`, `CondJump.ValueRuns`; sections
  6.5.13 to 6.5.15 of ISO/IEC 9899:1999).
- **Relaxation.** No decision of the single pass is invalidated by a later one
  (`Relax.SettledStays`, `Relax.Pass1a`), and the second pass encodes what the
  first decided (`Relax.ChangedReachTargets`, `Relax.LeftReachTargets`) but for
  two families of calls (`Relax.ReportedCalls`). Displacements are followed into the
  byte or word that is stored and out of it, sign-extended (`Relax.DecidesExactly`).
- **Paged storage.** The buffer pool is one flat memory
  (`PagedStore.Pool.LoadByte`, `PagedStore.Pool.StoreByte`), and a pointer lives
  exactly as long as fewer other blocks than buffers have been fetched
  (`PagedStore.Pool.FetchAll`, `PagedStore.DrivenOut`). The index over it is a
  growing map (`SymIndex.Index.Sylook`) and the sort a permutation
  (`SymSort.Symtab.Sysort`). C does not say which of the two fetches of a
  comparison comes first; the sort is right either way with the three buffers its
  comment asks for, and not with two (`SymSort.TwoBuffers`).
- **Streams and stacks.** Object files read back as what was emitted
  (`ObjBlocks.Writer.Finish`); both conditional machines select what a stack of
  booleans selects (`CondAsm.Assembler.Dopass`, `CppCond.Preprocessor.Domacro`,
  `Conditionals.RunRender`; section 6.10.1 of ISO/IEC 9899:1999); printed
  expressions evaluate to their value (`CppExpr.EvaluatePrinted`), with the classes
  of operators written out (`CppExpr.TwoOperators`); assembling and relocating commute
  (`Reloc.Relocates`), and what is assembled is what the expression denotes
  (`Reloc.AssembledDenotes`).
- **Operators.** What an operator computes is stated beside every function that
  computes it, on quotients, bits and residues: `Word.Truncates`,
  `Icode.MeaningComputes`, `CppExpr.ApplyComputes`, `Reloc.ApplyComputes`.

## Where the code falls short of its intention

Each has its exact condition, or a concrete input, proved.

- Folding a comparison of long constants makes a long node (`Limits.ComparisonWidth`);
  0/x with a long constant dividend looks at half of it (`Limits.LongDividend`);
  a widened product loses its width to a factor that becomes a literal late
  (`Widths.LateLiteral`, `Widths.OrProductLost`), and one of three factors its value
  where the product is -32768 and the factor sorted last is -1 (`Triples.ThreeFactors`).
- A long product is made a call of the library before its factor has become a literal,
  and stays one, even to multiply by -1 or 2 (`Lowered.LateLong`, `Lowered.CallForever`,
  `Lowered.CallByMinusOne`); a literal converted twice over is sorted before it is
  converted, and stays on the left (`Lowered.LiteralLeft`).
- Moving `-` below a widening is wrong for -32768, `-~` for 32767
  (`SwitchRules.BelowWidening`, `Limits.ChainBelowWidening`).
- The constant of `f ^= c` on a bit-field is not masked (`BitField.XorSetsIff`), and
  an assignment to a field has the whole word as its value, which is right exactly for
  the old words and assigned values of `BitField.AssignmentValue`.
- A call over nothing that remains, `jsr` to the next instruction among them, is
  made a `bsr` that the second pass reports; so is a call of a data or bss label
  whose value happens to be in reach (`Relax.ReportedCalls`).
- In preprocessor expressions shifts bind less than everything else, `?:` included
  (`CppExpr.TwoOperators`, `CppExpr.ConditionalBinds`), and between `?` and `:` are a
  syntax error (`CppExpr.MiddleArm`); `-` groups to the right (`CppExpr.MinusChain`); a `)`
  that closes nothing acts as if opened at the start of the text, so that
  `1 + 2 ) * 3` is 9 (`CppExpr.ExtraClosing`); behind a `(` left open only the rest
  counts, so that `-(v` is v (`CppExpr.MissingClosing`).
- Assembler comparisons of relocatable values depend on the bases in exactly the
  cases of `Reloc.ComparesForAllBases`; comparing an empty string reads a variable
  that was never set (`Reloc.OrdersUnlessEmpty`).

## Model

| member | source | states |
|---|---|---|
| `Canon.Canonicalize` | cgen_z8k/canon.c:1166-1178 | `canon` on every well-typed side-effect-free signed tree, long shifts with long counts and comparisons of longs included: the loop of rounds ends; the result has the normal form, stated on its shape alone, everywhere; its commutative groups are gathered to the left with their literal last unless the last round began with a literal converted twice over; type and, in every environment in which the evaluation is safe, value are those of the source tree |
| `NormalForm.FixedIff` | cgen_z8k/canon.c:342-833 | the trees that the optimizer leaves alone everywhere are exactly those of the normal form, which names the shapes one by one without the optimizer's functions: none of + - * / % & ^ << >> < <= > >= or the bitwise or over two literals; on the right no literal the operator does without (x+0, x-c, x/1, x<<0, a factor of -1 or one of the 32 single bits, listed, and so on); no 0 on the left of - / %; no long operand of a product; no (x & bit) == bit or !=; no - ~ ! over a literal, no ! over a comparison, no - or ~ over itself or over a conversion, no widening of a product; no operand that is a converted literal |
| `GroupShape.CommuteGathers` | cgen_z8k/canon.c:990-1088 | commuting leaves each commutative group leaning to the left, none of its operands a group of the same operator, very hard operands first, then registers, then the rest by falling number, and a constant only as the last one, except that two constants may be the whole group; a comparison has a constant on the left only if both sides are constants |
| `Canon.Round` | cgen_z8k/canon.c:1171-1175 | a round that counts a change strictly lowers the weight, one that counts none leaves a tree in the normal form, and with its groups gathered if no literal under it was converted twice over; either way the result is a sound replacement that may stand wherever the tree stood, and is the one of the round's relation |
| `Commuting.Commute` | cgen_z8k/canon.c:990-1088 | the commuting pass computes `CommuteTree`: a sound replacement that keeps every attribute the optimizer relies on (weight included) and has its literals on the right |
| `Commuting.CommuteGroup` | cgen_z8k/canon.c:1010-1080 | collecting, recursive commuting, sorting, folding and rebuilding one commutative group as a whole is a sound replacement |
| `Commuting.FinishGroup` | cgen_z8k/canon.c:1019-1080 | the same for the part after the operands have been commuted: no operand is lost or doubled |
| `Commuting.CommutePair` | cgen_z8k/canon.c:990-1012 | other operators keep the order of their operands; a comparison whose operands are exchanged is mirrored, with the same value |
| `Canon.OptimizeNode` | cgen_z8k/canon.c:342-833 | the inner loop at a node ends, is sound, counts a change exactly when the weight fell, and with unchanged subtrees and no change leaves a node of the normal form |
| `Canon.Optimize` | cgen_z8k/canon.c:319-837 | bottom-up optimization of the whole tree: sound, never heavier, strictly lighter if it reports a change, and the outcome of the turns at each node |
| `Canon.OptimizesOnce` | cgen_z8k/canon.c:319-837 | the turns at the nodes, bottom up, have one outcome and one count of changes |
| `SwitchRules.TurnSame` | cgen_z8k/canon.c:342-833 | one turn of the optimizer (rewrite or fold) keeps value and safety of a node under the side conditions |
| `SwitchRules.Switch2Same` | cgen_z8k/canon.c:366-683 | every rewrite of a binary operator keeps value and safety |
| `SwitchRules.Switch1Same` | cgen_z8k/canon.c:787-833 | every rewrite of a unary operator keeps value and safety |
| `SwitchRules.UnitSame` | cgen_z8k/canon.c:366-683 | operating with a unit (0, 1 or -1 as the operator asks) is its left operand |
| `SwitchRules.SubConstSame` | cgen_z8k/canon.c:464-482 | subtracting a constant is adding its negation, at the operand's width |
| `SwitchRules.ZeroDividendSame` | cgen_z8k/canon.c:484-547 | for a non-constant long dividend the half-width zero test folds 0/x and 0%x only for a real zero |
| `SwitchRules.BitTestSame` | cgen_z8k/canon.c:580-591 | (x & 2^i) == 2^i and != turn into tests against 0 of the same value |
| `SwitchRules.MaskWithBit` | cgen_z8k/canon.c:580-591 | a word masked with one bit is that bit or 0, which makes the bit test sound, the sign bit included |
| `SwitchRules.WidenExactly` | cgen_z8k/canon.c:821-833 | widening the factors instead of the product agrees exactly when the 16-bit product does not overflow |
| `SwitchRules.BelowWidening` | cgen_z8k/canon.c:796-820 | moving - or ~ below a widening agrees always for ~ and for - exactly when the operand is not -32768 |
| `SwitchRules.BelowConversion` | cgen_z8k/canon.c:796-820 | moving - or ~ below a narrowing always agrees |
| `SwitchRules.NegatedSame` | cgen_z8k/canon.c:796-820 | the - and ~ cases as a whole: double negation and sinking below conversions |
| `SwitchRules.WidenedSame` | cgen_z8k/canon.c:821-833 | the INT2L case as a whole |
| `Rules.CcexprSame` | cgen_z8k/canon.c:15-163 | constant folding and the conversion of constant operands keep value and safety |
| `Rules.FoldedWidth` | cgen_z8k/canon.c:15-163 | for everything but comparisons the folded constant has the width of the node it replaces |
| `FormRules.TurnForm` | cgen_z8k/canon.c:342-833 | a turn that goes round again lowers the weight; one that ends the loop leaves a well-typed node; no attribute gets worse |
| `FormRules.ShiftedForm` | cgen_z8k/canon.c:186-253 | replacing a product by a shift lowers the weight |
| `FormRules.BitTestForm` | cgen_z8k/canon.c:580-591 | replacing a single-bit test lowers the weight, so it cannot be undone for ever |
| `Stable.TurnFixed` | cgen_z8k/canon.c:342-833 | when a turn ends the loop above finished subtrees, a further pass leaves the result alone everywhere; that this is the normal form is `NormalForm.FixedIff` |
| `Group.GroupRefines` | cgen_z8k/canon.c:1010-1080 | for every commutative operator: sound replacements of the operands, joined again from the left, are a sound replacement of the whole group |
| `Group.JoinAllPermuted` | cgen_z8k/canon.c:1027-1038 | rearranging the operands of a group does not change what they join to |
| `Regroup.Addtree` | cgen_z8k/canon.c:961-979 | the operand list is exactly the operands below nested nodes of the operator, in order; the parent list exactly those nodes |
| `Regroup.HarderThanConst` | cgen_z8k/canon.c:933-952 | everything is harder than a constant, and a constant is harder than nothing else |
| `Regroup.Exchange` | cgen_z8k/canon.c:1027-1038 | a round of the exchange sort permutes, leaves earlier places alone, and a constant that reaches the place has only constants behind it |
| `Regroup.SortOperands` | cgen_z8k/canon.c:1027-1038 | the exchange sort computes `Sorted`, permutes the operands (up to the conversion of constants) and leaves all constants in a suffix |
| `Regroup.SortedInOrder` | cgen_z8k/canon.c:1027-1038 | after the sort every operand stands before the easier ones: very hard ones, then registers, then the rest by falling number, constants last |
| `Regroup.LiteralClasses` | cgen_z8k/sucomp.c:18-127 | the class of every literal, its bounds written out, and the order of all the classes |
| `Regroup.NodeNumber` | cgen_z8k/sucomp.c:18-127 | the number of a binary node from those of its operands: when it is harder than both, when as hard as one of them |
| `Regroup.FoldConstants` | cgen_z8k/canon.c:1039-1054 | the in-place fold loop computes the loop specification on any list, sorted or not |
| `Regroup.FoldLoopSorted` | cgen_z8k/canon.c:1039-1054 | on a list with its constants last the backward loop, which goes on past pairs that do not fold, folds exactly the constant suffix |
| `Regroup.FoldLoopExactly` | cgen_z8k/canon.c:1039-1054 | on any list of operands at all, what the loop leaves is, operand for operand and up to converted constants, what folding the constants at the end leaves, exactly when no constant pair stands anywhere but in the constant run at the end |
| `Regroup.FoldTailShape` | cgen_z8k/canon.c:1039-1054 | after folding, a constant stands beside the last operand only if two operands are left and both are constant |
| `Regroup.SortAndFold` | cgen_z8k/canon.c:1027-1054 | sort and fold together: a permutation of the operands with only its constant suffix folded |
| `Regroup.Rebuild` | cgen_z8k/canon.c:1055-1080 | the in-place rebuilding gives the left-leaning tree over the remaining operands, long where an operand is |
| `Regroup.RebuiltWide` | cgen_z8k/canon.c:1055-1080 | the rebuilt group is long exactly if one of its nodes or of its operands was |
| `Regroup.SucompOk` | cgen_z8k/sucomp.c:18-127 | renumbering leaves value, type and all attributes alone, and no constant counts as hard |
| `Fold.Onebit` | cgen_z8k/canon.c:1146-1160 | the shifting loop finds the number of the only set bit of a 32-bit value, bit 31 included, and -1 for all other values |
| `Icode.MeaningComputes` | cgen_z8k/canon.c:15-163 | what every binary operator of the trees means, independently of how the fold computes it: sum, difference and product modulo the word, the quotient truncated toward zero and the remainder with the dividend's sign, shifts as multiplication modulo the word and flooring division by powers of two, bit by bit the bitwise operators, 0 or 1 the comparisons |
| `Icode.PrefixComputes` | cgen_z8k/canon.c:15-163 | the same for the unary operators and conversions |
| `Word.Truncates` | cgen_z8k/canon.c:15-163 | the quotient is truncated toward zero: a = q*b + r with r smaller than b and of the sign of a |
| `Limits.ComparisonWidth` | cgen_z8k/canon.c:15-163 | a comparison of two constants keeps its type exactly when neither constant is long |
| `Limits.LongDividend` | cgen_z8k/canon.c:484-547 | for a long constant dividend whose low half is 0 the fold of 0/x or 0%x is right for all divisors exactly when the dividend is 0 |
| `Limits.ChainBelowWidening` | cgen_z8k/canon.c:796-820 | moving -~ below a widening agrees exactly when the operand is not 32767 |
| `Limits.UnsignedPower2` | cgen_z8k/canon.c:186-253 | an unsigned word divided by a power of two is the shift, its remainder the mask, which the optimizer puts in their place |
| `Widths.LateLiteral` | cgen_z8k/canon.c:821-833 | for every widened product of a variable and a factor that is no constant when commuted but is then optimized to a literal: after two rounds the tree is a well-typed long one if and only if the sort puts the variable first or the literal is none of 1, -1 and the powers of two |
| `Widths.OrProductLost` | cgen_z8k/canon.c:821-833 | (long)((z OR -1) * y), OR standing for the bitwise operator, is such a tree and loses its width |
| `Lowered.LateLong` | cgen_z8k/canon.c:186-253 | a finding: every long product of a variable and a factor that is no constant when commuted but is then optimized to a literal is, after one round, a call of the long multiplication if and only if the sort puts the variable last or the literal is neither -1 nor a single bit, so that a factor that products are otherwise reduced by may remain |
| `Lowered.CallForever` | cgen_z8k/canon.c:342-833 | no later round makes such a call a product again |
| `Lowered.CallByMinusOne` | cgen_z8k/canon.c:186-253 | an instance: (z OR -1) * y in longs, OR standing for the bitwise operator, ends as a call that multiplies by -1 |
| `Lowered.LiteralLeft` | cgen_z8k/canon.c:990-1088 | an instance: in (long)(int)v + y, v a long literal, the last round commutes before the conversions are folded, and the literal stays on the left |
| `Triples.ThreeFactors` | cgen_z8k/canon.c:821-833 | a widened product of three variables, nested either way, to the end of canon: the first round widens the outer product, the second collects the factors of both products again and changes nothing; for a product that fits in 16 bits what is left has its value if and only if it is not -32768 with -1 as the factor the sort puts last, which is read off the source tree |
| `BitField.FixExprMeans` | cgen_z8k/canon.c:844-921 | reading bit-fields through the lowered expression gives the field values, anywhere in an expression |
| `BitField.StoreSets` | cgen_z8k/canon.c:844-921 | a lowered assignment, plain or compound, shortcuts and full-width fields included, puts the assigned value modulo 2^len into the field and changes no other bit, except that f ^= c does so exactly when the constant has no bit in the word above the field |
| `BitField.XorSetsIff` | cgen_z8k/canon.c:864-868 | the unmasked constant of f ^= c: right if and only if no bit of it falls into the word above the field |
| `BitField.ReadBack` | cgen_z8k/canon.c:844-921 | after a store the field reads as the stored value modulo 2^len and every disjoint field as before |
| `BitField.StoreThenRead` | cgen_z8k/canon.c:844-921 | the same through the lowered store followed by the lowered read |
| `BitField.AssignmentValue` | cgen_z8k/canon.c:899-903 | used as a value, a lowered field assignment of any kind gives what the field then holds, the assigned value modulo the field, if and only if the field is the whole word, or no bit of the old word beside the field is left set and the field starts at bit 0 or is assigned 0 modulo its length; beside f ^= c the bits left set are those that differ from the constant above the field |
| `CondJump.CondRuns` | cgen_z8k/codegen.c:852-932 | in any program holding the code once, running the code for a condition reaches the label exactly when the truth is the wanted direction, else falls through, having evaluated the same leaves in the same order as C |
| `CondJump.ValueRuns` | cgen_z8k/codegen.c:297-361 | running the code for a value leaves C's value in the register: 0 or 1 for a condition, the selected arm alone evaluated for ?: |
| `CondJump.Compiled` | cgen_z8k/codegen.c:852-932 | a compiled expression followed by any code with later labels runs to its end with the expression's value |
| `CondJump.CondLabels` | cgen_z8k/codegen.c:852-932 | every label a condition defines comes from the counter and is defined once, so none is the caller's |
| `CondJump.ValueLabels` | cgen_z8k/codegen.c:297-361 | the same for values |
| `CondJump.BranchTaken` | cgen_z8k/optab.c:217-231 | after comparing two words the branch chosen from the table is taken exactly when the relation, written out for each operator, holds of their readings, signed and unsigned, 16 and 32 bits, overflow included |
| `CondJump.RelationTables` | cgen_z8k/optab.c:217-231 | the inverted relation's branch is taken exactly when the relation's is not; the mirrored relation holds of exchanged operands |
| `CondJump.Emitter.Condbr` | cgen_z8k/codegen.c:852-932 | the recursive emitter appends exactly the code proved correct, advances the counter past its labels, and keeps all labels distinct |
| `CondJump.Emitter.Junction` | cgen_z8k/codegen.c:888-903 | && and or share one emitter, with the direction turned round |
| `CondJump.Emitter.Hardrel` | cgen_z8k/codegen.c:325-361 | a condition as a value: the code proved to leave 0 or 1 |
| `CondJump.Emitter.Cqmark` | cgen_z8k/codegen.c:297-318 | a conditional expression: the code proved to leave the selected arm |
| `Relax.Pass1a` | as/pass1a.c:49-141 | after the single forward pass every symbol has the sum of the final lengths before its statement, every statement is settled at these final addresses whatever was shrunk behind it, and the total reduction is the difference of the sizes |
| `Relax.DecidesExactly` | as/pass1a.c:84-130 | what a statement becomes, by its displacement alone: a call or branch is made short exactly if sign-extending the low 8 bits of the distance gives the distance back, a long call a word one exactly if 16 bits do and it saves something, a branch without a size to the next instruction is deleted |
| `Relax.Storable` | as/pass2.c:48-123 | the range tests of both passes accept exactly the distances that the stored byte or word, sign-extended, gives back |
| `Relax.RelaxOne` | as/pass1a.c:64-141 | one step of the pass keeps that for the statements already seen |
| `Relax.SettledStays` | as/pass1a.c:64-141 | an early decision is never invalidated: shrinking any later statement leaves a short displacement short, a word one in range and a deleted branch at its target |
| `Relax.SettledNow` | as/pass1a.c:84-130 | a decision is right at the moment it is made, although the statement itself shrinks under it |
| `Relax.SlidAddr` | as/pass1a.c:18-46 | sliding by the loctr test moves exactly the labels behind the statement, those at its own address not |
| `Relax.ChangedReachTargets` | as/pass2.c:48-123 | the second pass accepts whatever the first one changed for a label of the text section, and the byte or word it stores, sign-extended by the machine, goes to the label, except a bsr whose short displacement is 0 at the final addresses; a deleted branch stood at its own target |
| `Relax.ReportedCalls` | as/pass2.c:48-123 | what the first pass changed and did not delete is reported by the second exactly if it is a call over nothing, which is read off the input (a jsr, or a bsr written without a size that does not call the next instruction, its text label lies behind it in short range, and everything between has no length or is a branch without a size to the instruction after it, or to a label of another section with that value), or its label is one of the data or bss section with a value in reach of the address the statement gets |
| `Relax.CallOfNext` | as/pass1a.c:84-130 | an instance: a jsr to the next instruction is always reported |
| `Relax.LeftReachTargets` | as/pass2.c:48-123 | the word stored for a branch left alone still reaches its label, sign-extended, if it did before relaxation |
| `Relax.GapShrinks` | as/pass1a.c:64-141 | no distance between two statements ever grows |
| `SymChains.Table.Lemt` | as/symt.c:491-536 | lookup over the sentinel returns an entry of that name on its chain if there is one and the free entry exactly if there is none or the name is local |
| `SymChains.Table.Mmte` | as/symt.c:566-576 | the free entry is appended to the chain searched, all other chains stay, and all chains are in order again |
| `SymChains.Table.Enter` | as/symt.c:491-576 | lookup and entering: each name once on its chain, local names, those that begin with one ~ not followed by a second or a dot, afresh each time |
| `SymChains.HashAdds` | as/symt.c:474-488 | the hash is the sum of the character codes modulo the number of chains |
| `SymChains.Table.FixSyadr` | as/pass1a.c:18-46 | the walk from first to last entry visits every symbol of the symbol chains exactly once, although the last links are arbitrary, and slides exactly those |
| `SymChains.Table.FixChain` | as/pass1a.c:27-44 | the same for one chain, with termination |
| `SymChains.OnOneChain` | as/symt.c:491-576 | no entry is on two chains, or twice on one |
| `PagedStore.Pool.LoadByte` | asz8k/avm.c:57-60 | through any history of evictions and write-backs a byte loads with the value stored last; nothing is said of bytes never stored |
| `PagedStore.Pool.StoreByte` | asz8k/avm.c:95-101 | storing changes that byte of the flat memory and no other |
| `PagedStore.Pool.Getbuf` | asz8k/avm.c:15-50 | the block is in the buffer now in front, its contents are right, no other buffer is disturbed, and a resident block costs no transfer |
| `PagedStore.Pool.Commandeer` | asz8k/avm.c:29-41 | taking a buffer over writes dirty contents back first and keeps the flat memory, blocks at or above limblk included |
| `PagedStore.Pool.WriteBack` | asz8k/avm.c:29-35 | writing back keeps the flat memory and raises limblk as far as needed |
| `PagedStore.Pool.Walk` | asz8k/avm.c:22-28 | the walk finds the block's buffer, or the least recently used one and that no buffer holds the block |
| `PagedStore.Pool.ToFront` | asz8k/avm.c:42-48 | relinking moves one buffer to the front of the list and keeps the order of the others |
| `PagedStore.Pool.Poke` | asz8k/avm.c:95-101 | writing through a pointer from wfetch whose buffer still holds its block writes that byte |
| `PagedStore.Pool.Peek` | asz8k/avm.c:57-60 | reading through such a pointer reads the byte stored last |
| `PagedStore.Pool.FetchAll` | asz8k/avm.c:15-50 | a pointer stays good through any run of fetches of fewer other blocks than there are buffers |
| `PagedStore.Survives` | asz8k/avm.c:25-48 | in the recency order alone: a block stays while fewer distinct other blocks than buffers have been touched |
| `PagedStore.DrivenOut` | asz8k/avm.c:25-48 | the bound is exact: as many distinct other blocks as buffers behind it drive a block out |
| `PagedStore.Allocator.Vmalloc` | asz8k/avm.c:68-76 | allocations do not overlap, one that fits into a block lies in one block, and the old top is used exactly when the rest of its block is large enough, else the next block begins it |
| `SymNames.Symcmp` | asz8k/amisc.c:154-163 | the comparison loop over eight-byte fields is negative exactly if the first symbol is the earlier one in the alphabet: a proper prefix, or smaller at the first character that differs; positive for the other way round, zero for equal ones |
| `SymNames.CmpOrders` | asz8k/amisc.c:154-163 | the sign of the difference of the first differing characters is the order of the alphabet |
| `SymNames.CmpZero` | asz8k/amisc.c:154-163 | only equal symbols compare equal |
| `SymNames.CmpTrans` | asz8k/amisc.c:154-163 | the order is transitive |
| `SymIndex.Index.Sylook` | asz8k/alook.c:66-124 | the index is a growing map: a known symbol returns its entry and changes nothing, a new one gets new even memory of the size of an entry, whether the answer comes from the recent ones, a chain or an insertion |
| `SymIndex.Index.Aside` | asz8k/alook.c:77-92 | the list of recent answers finds a symbol exactly if it holds it, and moves the place found, or the last in the order, to the front, the others keeping their order |
| `SymIndex.Index.Search` | asz8k/alook.c:95-110 | the walk along the sorted chain ends at the symbol if it is in the table, else at the place where the order wants it |
| `SymIndex.Index.AddEntry` | asz8k/alook.c:111-123 | insertion keeps all chains sorted and adds that symbol alone to the table |
| `SymIndex.AbsentFrom` | asz8k/alook.c:95-110 | stopping at the first larger symbol is enough to know that the symbol is nowhere in the table |
| `SymIndex.AllInserted` | asz8k/alook.c:111-123 | linking one entry in changes one chain and leaves all others in order |
| `SymIndex.Injective` | asz8k/alook.c:66-124 | distinct symbols have distinct entries |
| `SymIndex.HashOf` | asz8k/alook.c:51-59 | the hash is always a chain number, computed in 16-bit arithmetic |
| `SymIndex.HashWeighted` | asz8k/alook.c:46-59 | in closed form: nine bits of 40143 times the sum of the characters, each weighted by its place |
| `SymSort.Symtab.Sysort` | asz8k/axref.c:113-123 | one chain at syhtab[0] is left, strictly ascending in the order of the alphabet, a permutation of all entries of all chains |
| `SymSort.Symtab.MergeHalves` | asz8k/axref.c:113-123 | merging the upper half of the chains into the lower loses and invents no entry |
| `SymSort.Symtab.Symerge` | asz8k/axref.c:66-107 | relinking in place ends, gives the ascending merge of both chains, touches no other link, and with three or more buffers dereferences only resident blocks, whichever of the two fetches of each comparison is made first |
| `SymSort.TwoBuffers` | asz8k/axref.c:94-105 | two buffers are too few: if the fetch of b comes before that of a, the fetch of the entry to be relinked drives b out |
| `SymSort.IndexedHeads` | asz8k/axref.c:113-123 | what lookups build is what the sort requires, and every symbol of the table is among the sorted entries |
| `Xref.Xrefs.Enter` | asz8k/axref.c:129-155 | a line is added at the end of the symbol's ring unless it is already last there; other rings stay; with three buffers every dereference is of a resident block |
| `Xref.Xrefs.Putxref` | asz8k/axref.c:13-58 | the listing of a symbol is its lines in the order they were entered |
| `Xref.AllGrown` | asz8k/axref.c:138-155 | inserting behind the rear keeps every ring circular and disjoint from the others |
| `ObjBlocks.Writer.Finish` | asz8k/aascom.c:525-535 | reading the finished file back gives exactly the bytes emitted with section and address, in order, and each relocation once at its byte |
| `ObjBlocks.Writer.Emitb` | asz8k/aascom.c:246-276 | one byte and its relocation are added to what the file will be read back as; a new block is begun exactly when the open one is full for the item; room for the rest of a relocated item is left; the overflow exit of the byte writer is never taken |
| `ObjBlocks.Writer.Emitw` | asz8k/aascom.c:290-294 | both bytes, low first; a relocated word lies in one block, its relocation at its first byte |
| `ObjBlocks.Writer.Emitl` | asz8k/aascom.c:281-285 | all four bytes, low word first; a relocated long lies in one block |
| `ObjBlocks.Writer.Emitwm` | asz8k/asz8k.c:118-122 | the same for words with the high byte first |
| `ObjBlocks.Writer.Emitlm` | asz8k/asz8k.c:83-87 | the same for longs with the high byte first |
| `ObjBlocks.MsbReversed` | asz8k/asz8k.c:83-122 | the high-byte-first forms are the low-byte-first ones reversed |
| `ObjBlocks.Writer.Setorg` | asz8k/aascom.c:630-637 | a new text block starts exactly when the place is not where the open one ends |
| `ObjBlocks.Writer.Oflush` | asz8k/aascom.c:525-535 | writing the open block out keeps what a reader finds |
| `ObjBlocks.Writer.PutRecord` | asz8k/aascom.c:327-379 | a symbol, section or external record fits after its check, its bytes stand in the block, behind those there unless it was full or of another kind, and nothing is added to the code |
| `ObjBlocks.ParseFile` | asz8k/obj.h:28-49 | the block format can be read back: any file of measured blocks parses to those blocks |
| `ObjBlocks.TextLayout` | asz8k/obj.h:28-49 | what a text block says, byte by byte: address, section, length, code, and three bytes for each relocation, newest first |
| `ObjBlocks.RecordedWord` | asz8k/aascom.c:246-276 | the recorded word has the action in its high 4 and the base in its low 12 bits, and none is recorded for no action or the absolute base |
| `ObjBlocks.BytesOrder` | asz8k/aascom.c:281-294 | the bytes of a word and a long one by one, low first |
| `Conditionals.RunRender` | asz8k/aascom.c:658-689 | for all properly nested text, repeated else lines included, a stack of booleans selects exactly the chosen branches, counts no error and ends as it began |
| `Conditionals.ErrorsAre` | asz8k/adirec.c:106-167 | on any lines at all the errors counted are exactly the .else and .endif lines outside of all conditionals |
| `CondAsm.Assembler.Dopass` | asz8k/aascom.c:228-231 | on every sequence of lines, nested or not, the two counters select what the stack of booleans selects, with truelev <= condlev |
| `CondAsm.Assembler.Assem1` | asz8k/adirec.c:106-167 | .if, .else, .endif and text while assembling |
| `CondAsm.Assembler.Skip1` | asz8k/aascom.c:658-689 | the same while skipping, where no condition is evaluated |
| `CppCond.Preprocessor.Domacro` | cpp/macro.c:797-880 | the preprocessor's mark stack and skip count select the same on every sequence of lines, until the stack of marks is full |
| `CppCond.Preprocessor.Getaline` | cpp/macro.c:653-790 | one line: skip is the number of SKIP marks, text passes exactly when it is 0 |
| `CppCond.Preprocessor.DoElse` | cpp/macro.c:702-716 | #else pops a mark and pushes the other, so it never overflows |
| `CppExpr.EvaluatePrinted` | cpp/cexpr.c:312-386 | every expression, printed with the parentheses the priority table asks for, evaluates to its value, ?: included, and both stacks end at their base |
| `CppExpr.TwoOperators` | cpp/cexpr.c:56-183 | a p b q c, without the priority table: grouped to the left exactly if p stands in a higher class than q, else to the right; the classes are written out: shifts lowest (a finding), then the bitwise or and exclusive or, the bitwise and, equality, order, sums, products |
| `CppExpr.PrefixBinds` | cpp/cexpr.c:56-183 | - ~ ! bind tighter than any binary operator, on either side |
| `CppExpr.PrefixPlus` | cpp/cexpr.c:312-386 | a prefix + is skipped |
| `CppExpr.ConditionalBinds` | cpp/cexpr.c:56-183 | an operator in the condition or behind the last arm of a conditional belongs to it, except a shift, which takes the whole conditional as its operand |
| `CppExpr.MiddleArm` | cpp/cexpr.c:56-183 | a finding: between ? and : every operator is accepted but a shift, which is a syntax error |
| `CppExpr.ParenthesesGroup` | cpp/cexpr.c:56-183 | parentheses group either way, whatever the classes |
| `CppExpr.ApplyComputes` | cpp/cexpr.c:77-170 | what each binary operator computes on 32-bit longs, without the evaluator's function |
| `CppExpr.PrefixComputes` | cpp/cexpr.c:77-170 | the same for the prefix operators |
| `CppExpr.Printed` | cpp/cexpr.c:56-183 | on any stacks that wait for less, a printed expression acts like its value to whatever operator follows |
| `CppExpr.Evaluator.Cexpr` | cpp/cexpr.c:312-386 | the loop over the tokens computes that specification on every text, correct or not |
| `CppExpr.Evaluator.Stackop` | cpp/cexpr.c:56-183 | stacking an operator applies those of strictly higher stacked priority first, up to a parenthesis |
| `CppExpr.Evaluator.ReduceTop` | cpp/cexpr.c:77-170 | the top operator applied to the top operands; : needs the ? below it |
| `CppExpr.FeedBalanced` | cpp/cexpr.c:312-386 | on every text, operands are always there for the operators waiting: the operand stack never runs empty |
| `CppExpr.ReduceBalanced` | cpp/cexpr.c:77-170 | applying an operator fails only for a ? or : without its partner |
| `CppExpr.MinusChain` | cpp/cexpr.c:64 | a finding: a - b - c evaluates to what C makes of it if and only if c is 0 or the least long |
| `CppExpr.MinusText` | cpp/cexpr.c:21-46 | the text a - b - c is that of a - (b - c) |
| `CppExpr.ExtraClosing` | cpp/cexpr.c:312-386 | for all token sequences: with as many ( put at the start as there are ) that close nothing, the text has the same outcome, so none of these is ever rejected for itself |
| `CppExpr.MissingClosing` | cpp/cexpr.c:312-386 | for all token sequences with a ( left open: accepted exactly if only (, prefix operators and unary + stand before the last such ( and what follows it is accepted by itself, whose value it then has |
| `CppExpr.OpenText` | cpp/cexpr.c:312-386 | the same for every ( that nothing closes, not the last alone |
| `Reloc.Relocates` | asz8k/aparse.c:117-253 | assembling an expression and relocating the result is relocating its leaves and evaluating, for every choice of bases for which no comparison depends on them |
| `Reloc.AssembledDenotes` | asz8k/aparse.c:117-253 | what the semantic routines leave is exactly what the expression denotes by the laws of its operators, and they refuse exactly those that denote nothing |
| `Reloc.ApplyComputes` | asz8k/aparse.c:117-253 | the operators: product modulo 2^32, quotient truncated toward zero with the remainder's sign, left shift as a product by 2^n modulo 2^32, right shift as the floor of the quotient by 2^n, and or xor bit by bit, -1 for a true comparison |
| `Reloc.ComputesOnce` | asz8k/aparse.c:117-253 | these laws leave one result |
| `Reloc.LinkedComputes` | asz8k/aparse.c:117-253 | at run time each operator obeys them on what its operands are then |
| `Reloc.RelocatesForAllBases` | asz8k/aparse.c:117-253 | for all bases at once, by a condition on the comparisons that does not mention bases |
| `Reloc.OperatorPlaced` | asz8k/aparse.c:117-253 | one operator: always so, and for comparisons exactly when unequal bases keep the operands apart or both wrap alike |
| `Reloc.ComparesForAllBases` | asz8k/aparse.c:191-222 | a comparison that is accepted is right for all bases exactly for = and <> of values with one base, and for the others of absolute or equal values |
| `Reloc.RefusedExactly` | asz8k/aparse.c:164-178 | a sum or difference is refused exactly when no value relative to one base represents it |
| `Reloc.PlacedOrder` | asz8k/aparse.c:191-222 | placing with one base is one to one, and keeps an order exactly when both or neither value wraps |
| `Reloc.Parser.Expr` | asz8k/aparse.c:104-253 | the reductions over the parse stack leave value, relocation, forward flag and error flags of the whole expression in one frame and the frames below alone; without an error, value and base are those the expression denotes |
| `Reloc.Parser.Operand` | asz8k/aparse.c:261-270 | after an error, which is flagged exactly if the expression denotes nothing, the operand is 0, else the value and relocation it denotes and the forward flag |
| `Reloc.Parser.SemAdd` | asz8k/aparse.c:164-178 | sums and differences in place |
| `Reloc.Parser.SemCompare` | asz8k/aparse.c:191-222 | comparisons in place; true is -1 |
| `Reloc.PlacedOperand` | asz8k/aparse.c:261-270 | the operand left in curop, placed by the linker, is the expression over placed leaves |
| `Reloc.CompareStrings` | asz8k/aparse.c:272-281 | the character loop of the string comparison |
| `Reloc.OrdersUnlessEmpty` | asz8k/aparse.c:272-281 | a finding: its outcome orders the strings whatever the variable held before exactly when neither string is empty, since the loop that sets it does not run for an empty one |

## Left out

- Canon.Canonicalize: trees are values, so that nodes are overwritten in place, and share no subtree, is not captured. INT2L stands only above trees in which no product that rewriting may uncover has a factor that is such a product itself (`Triples.ThreeFactors` is that case) or becomes a literal late (`Widths.LateLiteral` is that case), and a long dividend is nothing that may become a constant with a zero low half (`Limits.LongDividend` is that case). What may be uncovered, or become which constant, is read off the tree and errs on the safe side: any literal summand counts as one that may cancel out, any literal under | as one that may join others to -1, any literal factor as one that may join others to -1 (so that a widened factor beside it must not be -32768), and a single - or ~ as one half of a pair.
- NormalForm.FixedIff: = and <> of two literals, and a long quotient or remainder by a literal, are left alone by the code, so the normal form allows them.
- Regroup.FoldConstants: only the list of operands is followed through the fold loop; the constants it leaves in the list of nodes are those it drops, as long as the operands are sorted.
- Regroup.Addtree: the two lists have as many places as the group needs; the original's have twenty and no check.
- Canon: assignments, increments, calls, ADDR and INDR, CHAR, floats, pointers and unsigned folding.
- Rules.CcexprSame: host arithmetic is 32-bit; a zero divisor and a negative shift count, undefined in C, count as 0.
- Widths.LateLiteral: the other factor of the product is a variable.
- Triples.ThreeFactors: the three factors are variables.
- BitField.StoreSets: the word is addressed by a variable; side effects of its address expression are not modelled.
- CondJump.Emitter.Condbr: comparing two leaves is one instruction that sets the flags of their difference; skeleton expansion, `outdbra`, `outcmpm`, comparisons of post-increments and the overflow of the 16-bit label counter are not modelled.
- CondJump.Emitter.Cqmark: registers and the stack depth; the result is in one register.
- Relax.Pass1a: targets are labels of statements, labels of another section at a fixed value, or foreign, as absolute and external ones are; label+constant, `*+n`, `org` and explicit short branches are not modelled, nor the reading and rewriting of the intermediate file.
- SymChains.Table.Lemt: the opcode table's folding of names; the table never fills up.
- PagedStore.Pool.Getbuf: the file is a map from block number to 512 bytes; block numbers fit, so the wrap of 16-bit addresses is not modelled.
- SymSort.Symtab.Symerge: entries are records keyed by address, and a pointer is such an address together with the time of its fetch; that it is dereferenced only while its block is resident is the obligation `Live`, justified by `PagedStore.Survives`.
- SymIndex.Index.Sylook: the other fields of an entry; opcode lookup, which never deletes either.
- Xref.Xrefs.Putxref: the layout of the listing and symbols that are not listed.
- ObjBlocks.Writer.Emitb: the listing, and the first pass, which only counts.
- ObjBlocks.Writer.PutRecord: which records are written; only what each holds and that it fits.
- CppExpr.MinusChain: `long` has 32 bits, as on the 68000; with another width the least long, one of the two values at which the chain agrees with C, is another.
- CppExpr.Evaluator.Cexpr: tokens are given, and the stacks, 64 deep in the original, do not overflow.
- CppCond.Preprocessor.Getaline: macro expansion, includes and the other directives; a condition is a boolean.
- CondAsm.Assembler.Dopass: macro and repeat definitions; a condition is a boolean.
- Reloc.Parser.Expr: the LR tables and the stack overflow exit; the tree is given, in the order the grammar reduces it, and the stack is deep enough.
- Reloc.Relocates: for a whole expression it goes one way: an unsettled comparison may still be multiplied by 0; `Reloc.OperatorPlaced` is exact for each operator.
- The parser, linker, code skeletons, instruction encoding, listings and command lines.
- The older copy of the code generator in `cgen/`, whose canonicaliser is the same.
