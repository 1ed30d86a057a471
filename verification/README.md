# Kconfig engine and boot image checksum: a verified model

The repository builds root file systems. Two of its programs decide things that
nobody looks at again: the Kconfig engine in `support/kconfig`, which decides what
is configured, and `package/mkpimage`, which puts the checksum into a boot image.
This project models both and proves what they promise.

## The parts

* **Expressions** (`Tristate`, `Expr`, `Equality`, `Join`, `Transform`, `Operands`,
  `Dedup`, `Dups`, `Conjunct`, `ExprNodes`, `Printer`). Dependency expressions have the three values
  n < m < y. The simplifier is a compiler pass: removal of constants, cancelling of
  common operands, joining of comparisons, De Morgan, and a loop that removes
  duplicates until none is found. Its rules are functions whose meaning is kept;
  the code that overwrites nodes and operand slots in place is proved to compute
  these functions. Duplicates are found through two aliasing slots of one tree. Which
  operands join, what counts as equal and what the normal form is are also said without
  these functions.
* **Calculation** (`Calc`, `Value`, `SymTable`, `Assignment`, `SideConditions`, `Choice`,
  `Range`). Values of symbols, choices and their members among them, are specified by
  recursion, without caches. The memoised, mutually recursive calculation ends on any
  dependencies, and without recursive ones gives the same values in any order of
  requests. `Value` says these values by the expressions of a symbol's definition alone.
  When a value that the user sets is the one calculated next is said exactly.
* **Recursive dependencies** (`CycleCheck`). The search with its two kinds of marks
  and its stack.
* **Menu tree** (`Dependency`, `Superset`, `Menu`). Entries linked by `next`, `list` and `parent`
  are moved into submenus and spliced out of blocks without a prompt.
* **Configuration file** (`ConfText`, `ConfBuffer`, `ConfWrite`, `ConfFile`). Lines as
  texts, the same on character buffers ending with NUL, the walk over the tree without
  a stack, and the way from calculated values to a file and back.
* **Boot images** (`Crc`, `CrcTable`, `Seam`, `BootImage`). The checksum at the end
  detects every change within four bytes but one.

## Assignments

An *admissible* assignment is one that the calculation can produce: the constants
y, m and n have their own values, a bool is never m, and a bool or tristate symbol
equals y, m or n by comparison exactly when it has that value.
`Calculation.SolutionIsAdmissible` proves this of every calculated assignment.

Comparisons of tristate symbols with other quoted constants need one thing more where
operands are joined: that no symbol equals two of the constants that the expression at
hand compares it with, y, m and n being among them (`Exprs.Apart`). Constants that the
expression does not mention do not matter. `Calculation.SolutionIsApart` derives it from
the spelling of these constants, and `SideConditions.JoinRightExactly` shows that the
join is right under no less.

The rewrite of FOO!=n to FOO (`expr_trans_bool`) needs the normal form, which every
expression that the menu code passes to it has (`SideConditions.TransBoolNeedsNormal`
shows what happens without).

## Where the code does less than one might think

* A join of comparisons against quoted constants goes wrong exactly when a value of the
  symbol equals both, say one by its number and one by its text
  (`SideConditions.JoinRightExactly`, `SideConditions.NumberedConstantBreaksJoin`).
* Assigning the value a symbol already has is not range-checked and may not stand
  (`Assignment.ReassignedValueStands`, `Assignment.ReassignedValueMayFall`); for members
  of a choice, which have no defaults, it does (`Assignment.ReassignedMemberStands`).
* `expr_trans_compare` reads m as y or n; below `!` its answer is wrong for m
  (`SideConditions.TransCompareIgnoresMod`). So an entry can pass the "superset" test and
  be reachable where the symbol is not visible (`SideConditions.PassingMayBeReachable`);
  `Supersets.PassingMeansReachableExactly` says when.
* A choice that waits for `set_all_choice_values` is calculated twice, first without and
  then with its stored value. The first result is used by whoever asked; it differs from
  the second as `SymTables.SettledExactly` says, for optional choices in particular
  (`SymTables.OptionalChoiceIsUnsettled`).
* A choice with a visible member that the user has no value for loses its own user value
  (`support/kconfig/symbol.c:311-319`), so the next calculation may give it another value. An assignment is checked against
  the values before, and so may be accepted and have no effect
  (`SymTables.AcceptedValueIsLost`); `Assignment.TakesEffectExactly` says when any
  assignment has, by the values that the answers left give.
* y is accepted for a choice that finds nothing to pick and then is n
  (`Assignment.ChoiceTakesEffect`, `Assignment.AcceptedChoiceStaysNo`); selects do not hold such a choice up
  (`Calculation.SelectBound`).
* A search from the top never returns a symbol, so the count of errors in
  `support/kconfig/zconf.y:553-559` stays 0 although cycles are reported
  (`CycleCheck.LeftAtTop`). Cycles through an imply are not reported
  (`CycleCheck.ImpliedCycleIsSilent`).
* A string with a newline is written but not read back
  (`ConfText.StringRoundTripExactly`).
* A lone `#` at the end of a file without a newline is read on behind its end
  (`ConfBuffer.ReadBufferIsReadLine`, `ConfBuffer.LoneHashReadsOldLine`).
* A negative bound put into a hex symbol is read back as the largest number
  (`Ranges.NegativeHexBoundIsLost`).
* A choice whose default names a symbol outside of it can be y without a member that
  is (`Choices.OneIsYesIffDefaultsAreMembers`, `Choices.OutsideDefaultLeavesNone`).
* An image with four consecutive bytes changed may still match its checksum, in exactly
  one way (`BootImage.DamageBreaksTheSeal`): the checksum is stored with its lowest byte
  first, although its highest comes out first.
* The comment at `support/kconfig/expr.c:561` says 'm' where the code builds a
  comparison with y; the model follows the code.
* The minimum of 80 bytes for an image (`package/mkpimage/mkpimage.c:269`) leaves room
  for the header of version 0 and the checksum. With version 1 the header ends at 84
  bytes, and at 88 with a jump, which is written past the end of an image of 84 bytes;
  at 88 bytes the checksum overwrites the jump (`BootImage.JumpUnderChecksum`).

## Model

| member | source | states |
|---|---|---|
| Equality.ElimYnKeepsValue | support/kconfig/expr.c:308-389 | Removing y and n operands keeps the value of every expression in every admissible assignment. |
| Equality.ElimEqCancelsCommonFactor | support/kconfig/expr.c:149-195 | Cancelling removes a common operand and nothing else: one value put back on both sides restores both old values, although operands of one tree are walked against a tree that is changing, and y and n are not cancelled. |
| Equality.EliminateEqReflectsOrder | support/kconfig/expr.c:220-240 | Whatever order (<=, >=, equal) the two reduced expressions have, the original ones had, in every admissible assignment. |
| Equality.ExprEqSound | support/kconfig/expr.c:251-295 | When the equality test says yes, the expressions have the same value in every admissible assignment; proved through the mutual recursion with the cancelling of copies. |
| Conjuncts.EqualsExactly | support/kconfig/expr.c:197-295 | On normal expressions without duplicates and constants the equality test, with its cancelling of copies through two aliasing trees, says yes if and only if the two differ at most in the order of operands, at every level; so nothing equal is missed there. |
| Equality.ElimEqComplete | support/kconfig/expr.c:149-195 | After cancelling, every operand is untouched or neutral, and no operand of one side still passes the equality test against one of the other, y and n excepted. |
| ExprNodes.EliminateYn | support/kconfig/expr.c:308-389 | The in-place form on linked nodes: the root node stays, only nodes of the tree are overwritten, and the tree then stands for what the specification function gives. |
| ExprNodes.CancelOperands | support/kconfig/expr.c:149-195 | The in-place walk through both trees, replacing equal operands by new neutral nodes, gives exactly the specified pair; the trees stay disjoint, the counter never falls. |
| ExprNodes.CancelCommon | support/kconfig/expr.c:220-240 | Both levels of cancelling and the removal of constants, in place, give exactly the specified pair. |
| ExprNodes.AreEqual | support/kconfig/expr.c:251-295 | The equality test on nodes, which destroys copies and restores the counter, decides exactly the specified equality and leaves both arguments alone. |
| ExprNodes.Copy | support/kconfig/expr.c:65-104 | A copy consists of new nodes only and stands for the same expression. |
| ExprNodes.TransformBool | support/kconfig/expr.c:394-418 | FOO!=n becomes FOO in place, node for node. |
| ExprNodes.TransformNodes | support/kconfig/expr.c:686-841 | The in-place normaliser, with De Morgan on re-used nodes and repeated transformation of its own results, terminates and gives exactly the specified normal form. |
| Joining.JoinKeepsValue | support/kconfig/expr.c:423-579 | Every rule that joins two operands of an or/and keeps their combined value in every admissible assignment in which no symbol equals two of the constants that these operands compare it with. |
| Joining.JoinsExactly | support/kconfig/expr.c:423-579 | Two operands join if and only if they are equal or one of the rules has them, in either order: below or, two equations of a tristate symbol with different ones of y, m and n, and a bool symbol with its negation; below and, a symbol with its test for y, against n or against m, an equation of a tristate symbol with an inequation, two inequations of it. |
| Joining.JoinShape | support/kconfig/expr.c:423-579 | A join is again an operand and no larger than the first of the two. |
| Joining.JoinKeepsNormal | support/kconfig/expr.c:423-579 | Joining two normal operands gives a normal one. |
| Dups.EliminateDups1 | support/kconfig/expr.c:588-643 | One pass through two aliasing slots of one tree leaves in the slots, and counts, exactly what the specified pass over the row of operands gives for the two parts of the row, and keeps what TryAllFacts says. |
| Dedup.TryAllFacts | support/kconfig/expr.c:588-643 | Trying operands of a row against others, in this order and on what the trials before left, keeps the meaning of the whole row in every admissible assignment that keeps apart the constants compared with; nothing else is compared, the row never grows, a planted constant survives to the end, and a pass that counts nothing changed nothing and tried every pair. |
| Dedup.PassFacts | support/kconfig/expr.c:656-678 | A whole pass keeps the meaning of the expression, never enlarges it, leaves a removable constant whenever it counts something, keeps it normal, and otherwise changes nothing and proves it free of duplicates. |
| Dups.TryPair | support/kconfig/expr.c:588-643 | One pair of slots: first duplicates inside an operand of the other operator, then the join, exactly as specified for the row. |
| Dups.JoinSlots | support/kconfig/expr.c:617-642 | A join plants the neutral operand in one slot, the join in the other, and is counted; without one nothing changes. |
| Dups.DedupPass | support/kconfig/expr.c:656-678 | A pass over an expression gives exactly the specified expression and count, with all that PassFacts says of them. |
| Dups.EliminateDups | support/kconfig/expr.c:656-678 | The fixpoint loop terminates and gives exactly the specified expression: the same value in every admissible assignment that keeps apart the constants it compares with, compared with no others, no larger, normal if it was; at every level no two operands are equal or are, in either order, a pair that a rule of the code names (Irredundant); the global counter is restored. |
| Dedup.DedupedIsIrredundant | support/kconfig/expr.c:423-678 | Nothing joins anywhere in an expression if and only if no two operands at any level are equal or a pair named by a rule; the rules are written out on symbols, relations and constants. |
| Dedup.TautologyIsYes | support/kconfig/expr.c:471-474 | P or !P, for a bool P, becomes y. |
| Dedup.DeduplicatedFixes | support/kconfig/expr.c:645-678 | The fixed points of the removal of duplicates are exactly the expressions without a joinable pair of operands at any level. |
| Dedup.DeduplicatedTwice | support/kconfig/expr.c:645-678 | Removing duplicates twice is removing them once. |
| Transforming.TransformKeepsValue | support/kconfig/expr.c:686-841 | Normalising keeps the value of every expression in every admissible assignment. |
| Transforming.Transform | support/kconfig/expr.c:686-841 | The result has ! only above symbols other than y, m and n, no bool symbol compared with them for (in)equality, and as many and/or nodes as the argument. |
| Transforming.TransformFixesNormal | support/kconfig/expr.c:686-841 | The fixed points are exactly the normal expressions. |
| Transforming.TransformIsOnePass | support/kconfig/expr.c:686-841 | Transforming the results of De Morgan and of removed negations again and again ends with what one pass from the root gives that counts the ! above: same order of operands, and/or exchanged below an odd number, each symbol and comparison as said by that number. |
| Transforming.TransformIdempotent | support/kconfig/expr.c:686-841 | Normalising twice is normalising once. |
| Transforming.TransBoolKeepsNonzero | support/kconfig/expr.c:394-418 | On normal expressions the result is n exactly when the argument is, and never above it. |
| Transforming.TransBoolKeepsNormal | support/kconfig/expr.c:394-418 | Normal expressions stay normal. |
| Transforming.TransBoolRemovesTests | support/kconfig/expr.c:394-418 | No test FOO!=n of a tristate symbol is left, and an expression without one is left as it is. |
| Transforming.TransCompareMeaning | support/kconfig/expr.c:914-977 | The comparison built for an expression answers it with every m read as the value compared with. |
| Transforming.ReadModWithoutMod | support/kconfig/expr.c:914-977 | Where no bare symbol is m, reading m otherwise changes nothing, so the comparison is exact there. |
| SideConditions.SampleIsAdmissible | support/kconfig/expr.c:1026-1104 | The side conditions can be met, also where constants spell numbers: a calculated assignment for every value of a tristate symbol. |
| SideConditions.JoinRightExactly | support/kconfig/expr.c:530-541 | Joining s="b" && s!="c" to s="b" is right in all assignments that compare values if and only if no value of a tristate symbol equals both constants, each by its number if it spells one and by its text otherwise. |
| SideConditions.NumberedConstantBreaksJoin | support/kconfig/expr.c:530-541 | A case: the join of A="1" && A!=m is y where the pair is n, since "1" equals A=m by number and m equals it by text. |
| SideConditions.TransBoolNeedsNormal | support/kconfig/expr.c:394-418 | Outside the normal form, below !, the rewrite FOO!=n to FOO changes n to m. |
| SideConditions.TransCompareIgnoresMod | support/kconfig/expr.c:914-977 | With A=m, "!A is not n" is answered n although !A is m. |
| Dependencies.ContainsSymbolComplete | support/kconfig/expr.c:843-869 | An expression that does not contain a symbol does not notice any change of it. |
| Dependencies.ContainsSymbolExactly | support/kconfig/expr.c:843-869 | An expression contains exactly the symbols whose renaming changes it. |
| Dependencies.DependsOnSymbolSound | support/kconfig/expr.c:871-904 | An absolute dependency on a bool or tristate symbol is n whenever the symbol is n. |
| Dependencies.DependsOnSymbolExactly | support/kconfig/expr.c:871-904 | The absolute dependencies of an expression are exactly the symbols of which one of its operands below and is the symbol itself or its test to be y, to be m, or not to be n. |
| SideConditions.PassingMayBeReachable | support/kconfig/menu.c:455-483 | A case, in a calculated configuration: an entry that depends on (S \|\| Q) && !A moves below S, whose visibility is A=n, by the superset test; with A=m and Q=y it is reachable as m, while S is not visible. |
| Dependencies.NonzeroTest | support/kconfig/menu.c:448-450 | Gives exactly the specified test, the comparison "is not n" normalised and freed of duplicates, which keeps its meaning. |
| Dependencies.IsSuperset | support/kconfig/menu.c:469-483 | The answer is yes exactly if nothing but y is left of the test of the visibility after the test of the dependency has been cancelled against it, both being the specified ones; then the dependency, with every m read as y, never exceeds the visibility. |
| Dependencies.PassingIsCovered | support/kconfig/menu.c:469-483 | Whatever passes the test never exceeds the visibility, with every m read as y. |
| Conjuncts.NothingLeftExactly | support/kconfig/menu.c:469-483 | Nothing but y is left of the test of the visibility if and only if one of the two tests is a conjunction and every operand of the visibility's is, but for the order inside, one of the dependency's. |
| Conjuncts.PassesExactly | support/kconfig/menu.c:448-483 | So for dependencies and visibilities that compare no bool symbol with m the superset test passes exactly these and those whose visibility's test is y. |
| Dependencies.CoveredMeansReachable | support/kconfig/menu.c:469-483 | An entry whose dependency never exceeds the visibility, with every m read as y, is reachable only where the symbol is visible, unless a symbol below an odd number of ! in its dependency is m. |
| Supersets.PassingMeansReachable | support/kconfig/menu.c:469-483 | An entry that passes the test is reachable only where the symbol is visible, unless its dependency is other than n and becomes n with every m read as y, and its test is not plainly n. |
| Supersets.PassingMeansReachableExactly | support/kconfig/menu.c:469-483 | In one assignment the test is right for a dependency that compares no bool symbol with m, against whatever visibility it passes, if and only if that is not so: otherwise there is a visibility that it passes and that is n. |
| Printer.PrintedIsReadBack | support/kconfig/expr.c:1106-1230 | What is printed, read by the grammar of dependency expressions, is the same expression associated to the left, and has the same value in every assignment. |
| Printer.PrintedInOrder | support/kconfig/expr.c:1140-1230 | The printed text without its parentheses is the expression from left to right, and the parentheses are as many as there are places where an operator binds less tightly than the one around it. |
| Printer.PrintIsUnambiguous | support/kconfig/expr.c:1106-1230 | Two expressions are printed alike if and only if they differ at most in how "and" and "or" associate; then their values agree everywhere. |
| Printer.PrintOptIsUnambiguous | support/kconfig/expr.c:1140-1149 | The same, in both directions, including the missing expression, which is printed as y. |
| Printer.ReadText | support/kconfig/zconf.y:504-514 | The grammar reads back a printed expression wherever it stands, whatever follows that cannot continue it. |
| Calculation.SpecSolves | support/kconfig/symbol.c:357-498 | The recursive specification gives every symbol, choices and members included, the value that the values of all symbols imply for it. |
| Calculation.SolutionsAgree | support/kconfig/symbol.c:357-498 | Without recursive dependencies there is only one such assignment. |
| Calculation.StepReads | support/kconfig/symbol.c:209-270 | A symbol depends on nothing but the symbols in its prompts, dependencies and defaults; a choice beside these on what its members' prompts read other than itself, and a member on its choice. |
| Calculation.SolutionIsAdmissible | support/kconfig/expr.c:1026-1104 | Calculated values meet the side conditions of the simplifier: a bool is never m, comparisons with y, m and n tell the value; other constants may be spelled in any way. |
| Calculation.SolutionIsApart | support/kconfig/expr.c:1026-1104 | Calculated values keep apart any constants of which no value of a tristate symbol equals two. |
| Calculation.NoModWithoutModules | support/kconfig/symbol.c:234-262 | While modules are off, nothing calculated is m; a bool never is. |
| Calculation.SelectBound | support/kconfig/symbol.c:424-445 | A value is at least the value of the selects, whatever the user chose, if and only if it is not a choice that could be y and finds nothing to pick, or nothing selects it. What the value of the selects is says Values.FieldsByExpressions. |
| Values.FieldsByExpressions | support/kconfig/symbol.c:209-262 | The calculated fields by the expressions of the definition: the visibility is the highest value of the conditions of the prompts; direct dependency and selects are the values of their expressions, selects whatever the direct dependency is; implies count nothing where that is n; m becomes y where there is no m; members have a visibility only. |
| Values.ValueByExpressions | support/kconfig/symbol.c:411-447 | In every solution the value of a symbol outside of choices is the highest of: what selects it; the stored value within the visibility, where it is visible and answered for; otherwise what the first default with a condition other than n gives within that condition, and what implies it. In particular it is never below its selects, whatever the direct dependency, the prompts and the user are. |
| Values.SpecByExpressions | support/kconfig/symbol.c:357-498 | The same of all the fields that the memoised calculation ends with (SymTables.SymTable.CalcValue). |
| Values.ChoiceByExpressions | support/kconfig/symbol.c:278-334 | A choice is what its prompts, the user and its selects make of it, but n where that is y and nothing can be picked. At y it picks the user's pick if that shows, else what the first default names that applies and shows, else the first member that shows, showing being said by the conditions of prompts. |
| Values.MemberByExpressions | support/kconfig/symbol.c:405-447 | A member visible as y is y if and only if its choice is y and picks it, and else n; any other has the stored value within its visibility, or its default. |
| Values.WrittenByExpressions | support/kconfig/symbol.c:387-447 | A symbol asks for a line if and only if a prompt shows, something selects it, or, unless it is a choice, a default or an imply gives it a value other than n. |
| Values.ComparisonByNumberOrText | support/kconfig/expr.c:986-1104 | In every solution a comparison is y or n: by the numbers, read without sign as soon as one side is hexadecimal, if both sides are numbers and not both strings; else by the order of texts in the dictionary. |
| Calculation.StrCmpZero | support/kconfig/expr.c:1074-1075 | Comparison by text finds equality exactly for equal texts. |
| SymTables.SymTable.CalcExpr | support/kconfig/expr.c:1026-1104 | Evaluating an expression calculates the symbols it reads and gives the specified value, also from within the calculation of a choice that counts as y meanwhile; it ends on cyclic dependencies too. |
| SymTables.SymTable.CalcValue | support/kconfig/symbol.c:357-498 | The memoised calculation gives exactly the specified fields (which Values.SpecByExpressions says by expressions), keeps all other valid symbols and their WRITE marks, and marks new ones exactly when they get a line. It ends on any dependencies, with choices waiting to set their members' values, by the measure of waiting marks, invalid symbols and expression size. |
| SymTables.SymTable.ChoiceFirst | support/kconfig/symbol.c:369-374 | A member that waits gives up its mark and has its choice calculated first. |
| SymTables.SymTable.CalcBegun | support/kconfig/symbol.c:376-497 | A choice that waits sets its members' values after its calculation and gives up its valid mark again; its fields stay right and all others are kept. |
| SymTables.SymTable.CalcVisibility | support/kconfig/symbol.c:209-270 | Visibility, direct dependency, selects and implies as specified (which Values.FieldsByExpressions says by expressions), in this order, with m promoted where it must be; members have a visibility only. |
| SymTables.SymTable.CalcPrompt | support/kconfig/symbol.c:219-230 | The condition of a member's prompt reads its choice, unless it is n; what could only be m is hidden while the choice is y. |
| SymTables.SymTable.PickChoice | support/kconfig/symbol.c:304-334 | The members' visibilities are calculated with the choice at y, the choice loses its user value exactly if a visible member has none, then the user's pick or a default is taken, or the choice falls to n; members calculated before, or being calculated, stay right. |
| SymTables.SymTable.PickMember | support/kconfig/symbol.c:322-333 | The user's pick if it is visible, else the first default that applies and is visible, else the first visible member. |
| SymTables.SymTable.SetAllChoiceValues | support/kconfig/confdata.c:1136-1154 | Members without a value get n, the choice counts as set, and its marks are cleared; no value that counts changes. |
| SymTables.WaitingStart | support/kconfig/confdata.c:1249-1266 | Choices that wait are specified with their user value counting: from there calculations are right if for each of them that value makes no difference. |
| SymTables.SettledExactly | support/kconfig/confdata.c:1268-1279 | The first calculation of a waiting choice, without its user value, and the second, with it, give the same if and only if raising alone gives what the stored value gives, or nothing can be picked where only the stored value gives y. |
| SymTables.OptionalChoiceIsUnsettled | support/kconfig/confdata.c:1268-1279 | A case of both: for a visible choice with a member to pick and y stored, they give the same if and only if something raises the choice, so not for an optional one. |
| SymTables.SymTable.CalcAll | support/kconfig/symbol.c:357-498 | Any sequence of calculations, in any order and with repetitions, leaves every symbol asked for with its specified fields. |
| SymTables.SymTable.SetTristate | support/kconfig/symbol.c:532-566 | Accepts exactly the present value or one in range, and records it; a member set to y becomes the pick of its choice, and then the symbols that count as set are those before, the member, the choice, and exactly the members of the choice that are visible. If no other members are visible at the next calculation the choice keeps its value. The memo is cleared exactly when the value changes. A new value is the one calculated next if and only if it is obeyed by the fields that the answers left give (Obeys); where these are the fields it was checked against it is, unless a choice finds nothing to pick. |
| SymTables.SymTable.PickInChoice | support/kconfig/symbol.c:545-560 | The choice of a member set to y records it as its pick, and nothing else is stored; the choice counts as set and exactly the visible ones among its members do too, beside what did before. |
| SymTables.ChoiceAnswered | support/kconfig/symbol.c:304-319 | If every member of a choice that was seen as visible counts as set, and no others are visible in the next calculation, no member is found new there and the choice keeps its value. |
| SymTables.SymTable.Toggle | support/kconfig/symbol.c:568-589 | From n to the first of m and y that is in range, from m to the first of y and n, from y to the first of n and m, or no change; a new value is the one calculated next if and only if it is obeyed by the fields that the answers left give. |
| SymTables.AcceptedValueIsLost | support/kconfig/symbol.c:304-334 | A case: a choice at y whose visible member has no value loses its own; y is accepted for a symbol that depends on the choice, and at the next calculation both are n. |
| Assignment.TakesEffectExactly | support/kconfig/symbol.c:532-566 | A value given to a symbol, accepted or not, is the one calculated next if and only if: for a plain symbol, it is what the visibility, selects and implies make of it, or what the symbol has anyway while invisible; for a choice, the same with something to pick for y; for a member set to y, its choice is y once it counts as set and the member is visible then; for a member set to another value, it is m or has that value anyway. |
| Assignment.AcceptedChoiceStaysNo | support/kconfig/symbol.c:511-566 | A case: y is accepted for a choice whose only member has no prompt, and the choice is n afterwards. |
| Assignment.AcceptedTakesEffect | support/kconfig/symbol.c:511-566 | For a symbol outside of choices the range check accepts a value if and only if the symbol is visible above its selects, the value is within its visibility, and recalculation gives exactly that value. |
| Assignment.ChoiceAccepts | support/kconfig/symbol.c:511-530 | For a choice the range check accepts a value if and only if the choice is visible above its selects, the value is within its visibility, and the choice would have it before it picks. |
| Assignment.MemberAccepts | support/kconfig/symbol.c:511-530 | For a member it accepts y where the member is visible as y, n and m where it is visible as m, and nothing else. |
| Assignment.ChoiceTakesEffect | support/kconfig/symbol.c:511-566 | An accepted value of a choice takes effect if and only if it is not y or something can be picked. |
| Assignment.MemberTakesEffect | support/kconfig/symbol.c:511-566 | An accepted value of a member takes effect. |
| Assignment.OnlyAnswerChanges | support/kconfig/symbol.c:532-566 | Setting a symbol leaves everything else that enters its own calculation as it was. |
| Assignment.LowerUnaffected | support/kconfig/symbol.c:532-566 | Symbols not above those set keep their values. |
| Assignment.ReassignedValueStands | support/kconfig/symbol.c:532-566 | Assigning the present value is not checked; it stands if and only if the symbol is invisible, the value is within its visibility, or a select or an imply by y holds it. |
| Assignment.ReassignedValueMayFall | support/kconfig/symbol.c:532-566 | The other case exists: such an assignment turns y into m at the next calculation. |
| Assignment.ReassignedMemberStands | support/kconfig/symbol.c:532-566 | Assigning a member without defaults its present value changes nothing: the old values of all symbols are the values for the new answers. |
| CycleCheck.Checker.CheckAll | support/kconfig/zconf.y:553-559 | After a pass over all symbols there are no reports if and only if no symbol seen lies on a cycle; marks and stack are empty again; the error counter stays 0 either way. |
| CycleCheck.Checker.CheckDeps | support/kconfig/symbol.c:1312-1344 | One search keeps every report a real cycle, puts marks and stack back, and returns a symbol only together with a report. |
| CycleCheck.Checker.CheckSymDeps | support/kconfig/symbol.c:1241-1273 | All edges of a symbol are followed: selects, conditions of properties, values of defaults. |
| CycleCheck.EdgesByKind | support/kconfig/symbol.c:1241-1273 | The edges followed are exactly what stands in the selects, in the condition of any property other than a select or a choice, ranges and implies included, and in the value of a default. |
| CycleCheck.Checker.PrintRecursive | support/kconfig/symbol.c:1128-1204 | What is reported is the part of the stack from the symbol that was reached again. |
| CycleCheck.SilentIffAcyclic | support/kconfig/symbol.c:1312-1344 | Between searches: no reports if and only if no symbol seen lies on a cycle. |
| CycleCheck.LeftAtTop | support/kconfig/symbol.c:1312-1344 | A search that starts with nothing marked never returns a symbol, report or not. |
| CycleCheck.FollowedReads | support/kconfig/symbol.c:1241-1273 | Outside of choices the calculation reads what the search follows, the direct dependency, and what is implied, which the search does not follow. |
| CycleCheck.SilentMeansRanked | support/kconfig/symbol.c:1312-1344 | The order in which a silent pass leaves symbols is the ranking that the calculation needs if and only if direct dependencies and what is implied go down in it too, as they do where a property depends on them. |
| CycleCheck.ImpliedCycleIsSilent | support/kconfig/symbol.c:1241-1273 | A cycle through an imply is not reported, and there is no ranking then. |
| Choices.ExactlyOneIsYes | support/kconfig/symbol.c:405-410 | A choice that is y has exactly one member that is y, the one picked; all others that are visible or have no default are n; no member is y only if what was picked is no member. |
| Choices.OneIsYesIffDefaultsAreMembers | support/kconfig/symbol.c:278-334 | A y choice has a member that is y if and only if the pick of the user is visible, or the first default that applies names a member, or none applies. |
| Choices.OutsideDefaultLeavesNone | support/kconfig/symbol.c:278-334 | A case: the default of a y choice names a symbol outside of it, so that its only member, although visible, is n. |
| Choices.OtherwiseNoneIsYes | support/kconfig/symbol.c:405-447 | A choice that is not y has no member that is y; members of an n choice, and members of an m choice that are not tristate, are n. |
| Choices.VisibleMember | support/kconfig/symbol.c:209-237 | A member is visible as y or n while its choice is y, hidden while it is n, and only a tristate one shows, as m, while it is m. |
| Choices.NothingPicked | support/kconfig/symbol.c:320-333 | If nothing can be picked the choice is n and no member is visible, nor would be with the choice at y. |
| Assignment.PickTakesEffect | support/kconfig/symbol.c:511-566 | Setting a member of a y choice to y, where allowed, makes it y and all others n at the next calculation. |
| Ranges.ValidatedIsClamped | support/kconfig/symbol.c:155-187 | The number after the range is applied is the number before, clamped, if and only if the symbol is an int, the number put in is not negative, or nothing is put in; what is put in is a text the symbol accepts. |
| Ranges.PrintedIsReadBack | support/kconfig/symbol.c:182-186 | Over all 64-bit numbers: decimal text is read back exactly, hexadecimal text if and only if the number is not negative. |
| Ranges.PrintedIsValid | support/kconfig/symbol.c:591-632 | What is printed for a number is always a text the symbol accepts. |
| Ranges.EnteredValueStands | support/kconfig/symbol.c:634-674 | A text that passes the range check is left alone by the calculation. |
| Ranges.ValidatedMayBeEntered | support/kconfig/symbol.c:634-674 | What the calculation makes of a value passes the range check if the range is not empty (and not negative in hexadecimal); a second time nothing changes. |
| Ranges.NegativeHexBoundIsLost | support/kconfig/symbol.c:155-187 | A negative bound of a hex symbol is not what the symbol gets. |
| Ranges.DigitsBack | support/kconfig/symbol.c:182-186 | The digits of a number are read back as the number; they have no leading zero. |
| Ranges.AcceptsString | support/kconfig/symbol.c:591-632 | The check character by character decides exactly which texts a symbol of a kind accepts. |
| Ranges.GetRange | support/kconfig/symbol.c:127-137 | The active range of the symbol. |
| Ranges.ActiveIsFirst | support/kconfig/symbol.c:127-137 | That is the one whose condition is not n while those of all before it are, and there is none if and only if all are n. |
| Ranges.NumberSymbol.ValidateRange | support/kconfig/symbol.c:155-187 | The symbol's text becomes exactly the specified one. |
| Menus.FinalizeTree | support/kconfig/menu.c:296-602 | The whole tree: entries keep their order of definition, every parent pointer names the real parent, no entry without a prompt has children, every entry has taken in exactly what it inherits from the entry it was defined under, and the tree is the one that a list of decisions makes of the tree defined: every entry that moved mentions the symbol it moved under and depends on it absolutely or passes the superset test, and every run of such entries ends at the row's end or at an entry of which that is not so. |
| Menus.Finalize | support/kconfig/menu.c:296-602 | One entry: the same for everything below it and for the siblings it takes in; entries beyond are untouched. |
| Menus.FinalizeChildren | support/kconfig/menu.c:423-424 | Every child is finalized, also where children disappear below their elder siblings on the way, and the row is the one the decisions make. |
| Menus.PropagateToChildren | support/kconfig/menu.c:338-412 | All children take in the inherited dependency; nothing below them changes. By value, for each child: its own dependency, with m bounded by the modules symbol, and that of the parent if it has no prompt, its prompt condition if it has one, the symbol if it is a choice (BlockValue); the prompt condition has the dependency too. |
| Menus.WholeMeaning | support/kconfig/menu.c:318-412 | So at every level below the root, in every admissible assignment that keeps apart the constants compared with. |
| Menus.EnclosedIsNo | support/kconfig/menu.c:318-412 | Therefore no entry is other than n where an enclosing if or menu, up to the nearest choice, or this choice is n. |
| Menus.UpdateChild | support/kconfig/menu.c:343-399 | The child's dependency is the conjunction of the inherited one and its own with m bounded by the modules symbol; the prompt condition likewise, for symbols that are not tristate up to "is not n". |
| Menus.CollectSubmenu | support/kconfig/menu.c:452-487 | The later siblings taken in are those up to the first that does not belong under the symbol; each belongs under it, is finalized and reparented, and stays linked where it is. |
| Menus.AutoSubmenu | support/kconfig/menu.c:448-492 | The siblings taken in become the children; they are exactly the run of entries that belong under the symbol, up to the first that does not. |
| Menus.MovesUnder | support/kconfig/menu.c:455-483 | An entry moves if and only if it mentions the symbol and either depends absolutely on it or passes the superset test; in the latter case the symbol's visibility covers its dependency. This holds for symbols of any type. |
| Menus.BelongsMeans | support/kconfig/menu.c:455-483 | What moves is covered by the symbol's visibility, with every m read as y, or is n wherever the bool or tristate symbol is n. |
| Menus.FlattenChildren | support/kconfig/menu.c:498-577 | Children of entries without a prompt are spliced in right behind them, and nothing else moves. |
| Menus.FlattenedExactly | support/kconfig/menu.c:498-577 | Then an entry stands in the row if and only if it stood there, or in a row below entries without a prompt that stood there; with a prompt it has its children, and without it has none. |
| Menus.SpliceChildren | support/kconfig/menu.c:566-576 | The pointers after one splice spell out the joined row. |
| Menus.HangBelow | support/kconfig/menu.c:488-492 | The pointers after hanging a row of siblings below an entry. |
| Dependencies.Propagate | support/kconfig/menu.c:348-351 | Rewriting, normalising, conjoining behind the inherited part and removal of duplicates give the conjunction in every admissible assignment that keeps apart the constants compared with, normal if the inherited part is, with no operands left that are equal or a pair named by a rule; nothing if and only if both are missing. |
| Dependencies.PropagateBool | support/kconfig/menu.c:382-388 | For a prompt of a symbol that is not tristate the result is n exactly when the conjunction is, and holds no test of a tristate symbol against n. |
| Dependencies.RewriteMMeaning | support/kconfig/menu.c:81-104 | A bare m means m bounded by the modules symbol. |
| ConfText.RoundTrip | support/kconfig/confdata.c:250-403 | What is written for a symbol is read back as the same value: bool and tristate including "is not set", int, hex, and every string without a newline. |
| ConfText.StringRoundTripExactly | support/kconfig/confdata.c:486-507 | A string comes back if and only if it holds no newline; with one, its first line is refused. |
| ConfText.UnescapeEscape | support/kconfig/symbol.c:962-1003 | Unescaping undoes escaping for every string, whatever follows the closing quote. |
| ConfText.EscapedExactly | support/kconfig/symbol.c:962-1003 | The escaped text is the value with one backslash before each quote and each backslash, and nothing else: the place of every character is given, the text is longer by the number of these, and without any it is the value. |
| ConfText.BodyDoesNotClose | support/kconfig/confdata.c:163-175 | No cut-off part of an escaped string counts as closed. |
| ConfText.ReadAssignment | support/kconfig/confdata.c:344-362 | An assignment line is taken apart at the first = after the name. |
| ConfText.ReadBackNotSet | support/kconfig/confdata.c:315-342 | "is not set" is read back as n. |
| ConfText.LineExactly | support/kconfig/confdata.c:486-507 | The lines letter for letter: "# NAME is not set" for a bool or tristate symbol that is n, NAME=value otherwise, the text of a string escaped between quotes. |
| ConfText.ReadTriExactly | support/kconfig/confdata.c:312-381 | A line gives a bool or tristate symbol a value if and only if it begins with the prefix, the name, = and the letter (m not for a bool), or is a comment that says with prefix and name that it is not set. |
| ConfBuffer.EscapeString | support/kconfig/symbol.c:962-1003 | The buffer allocated beforehand is exactly as long as what is written into it: a quote, the value with one backslash before each quote and backslash and nothing else, a quote; a value without these two characters stands there unchanged. |
| ConfBuffer.EscapedSize | support/kconfig/symbol.c:969-982 | One byte more for every place that holds a quote or a backslash, these being counted as a set of places, beside the quotes and the NUL. |
| ConfBuffer.UnescapeInPlace | support/kconfig/confdata.c:163-175 | Unescaping in the buffer succeeds if and only if there is a closing quote, and leaves exactly the unescaped text; what is before it is untouched. |
| ConfBuffer.ShiftLeft | support/kconfig/confdata.c:168-168 | The rest of the string, with its NUL, moves one to the left. |
| ConfBuffer.DropBackslash | support/kconfig/confdata.c:163-169 | Dropping a backslash keeps the character behind it, even a quote, and moves on. |
| ConfBuffer.SetSymVal | support/kconfig/confdata.c:125-193 | The value text in the buffer means what the specification says for the kind of symbol, errors included. |
| ConfBuffer.ReadLineInPlace | support/kconfig/confdata.c:312-381 | Reading a line in its buffer, overwriting separators, gives what the text in the buffer means, a comment being read from its third character on. |
| ConfBuffer.ReadBufferIsReadLine | support/kconfig/confdata.c:312-317 | That is what the line means, if and only if it is not a lone # in a buffer that holds, from its third character on, the prefix, the name of a bool or tristate symbol and " is not set". |
| ConfBuffer.LoneHashReadsOldLine | support/kconfig/confdata.c:312-317 | A case for every such prefix and name: a line "x CONFIG_A is not set" says nothing; overwritten by a lone # it says that the symbol is n. |
| ConfBuffer.CutLine | support/kconfig/confdata.c:348-353 | The value ends at the newline, without a carriage return before it. |
| ConfWrite.WriteConfig | support/kconfig/confdata.c:792-825 | The loop without a stack ends, visits every entry below the root exactly once in the order of definition, and writes exactly the lines of the symbols that ask for one. |
| ConfFile.FileRoundTrip | support/kconfig/confdata.c:312-381 | Whatever lines are written, reading the text of the file line by line says for every line exactly its symbol and value. |
| ConfFile.WrittenIsReadBack | support/kconfig/confdata.c:792-825 | So the file written for a calculated configuration gives back exactly the symbols that asked for a line, with their calculated values. |
| ConfWrite.NextEntry | support/kconfig/confdata.c:813-824 | One step along list, next or parent goes to the next entry in order, or ends exactly when none is left. |
| ConfWrite.VisitEntry | support/kconfig/confdata.c:803-811 | An entry calculates its symbol and writes its line only if the mark says so, then clears the mark. |
| ConfWrite.OneLinePerSymbol | support/kconfig/confdata.c:803-811 | However many entries a symbol has it gets at most one line, exactly if it asks for one, with its value. |
| CrcTable.TableIsDivision | package/mkpimage/mkpimage.c:104-148 | Each of the 256 table entries is the remainder of its index. |
| CrcTable.TableStep | package/mkpimage/mkpimage.c:155-155 | One round of the loop is eight steps of division by 0x04c11db7. |
| BootImage.Crc32 | package/mkpimage/mkpimage.c:150-158 | The table-driven loop equals the bitwise division for every start value and byte string. |
| Crc.ChecksumIsRemainder | package/mkpimage/mkpimage.c:150-158 | The register is the remainder of the long division of the message's bits followed by 32 zero bits, with a register loaded before for the start value. |
| Crc.StartRegister | package/mkpimage/mkpimage.c:150-158 | Every start value stands for such a register. |
| Crc.Shift8IsInjective | package/mkpimage/mkpimage.c:155-155 | A byte step is a bijection of the register. |
| Crc.ShortChangesAreDetected | package/mkpimage/mkpimage.c:249-252 | Two messages of equal length that differ at most within four consecutive bytes have equal checksums if and only if they are equal, for every start value. |
| Crc.FiveBytesCanEscape | package/mkpimage/mkpimage.c:249-252 | Four is the limit: at every place, five consecutive bytes can be changed without changing the checksum. |
| BootImage.DamageBreaksTheSeal | package/mkpimage/mkpimage.c:249-252 | Of all images that differ from one that matches its checksum within four consecutive bytes, anywhere, the stored checksum included, exactly one matches too: the one with two fixed bytes changed on either side of the end of the text. |
| BootImage.TwinIsSealed | package/mkpimage/mkpimage.c:249-252 | That one does match, and is a different image. |
| Seams.EndingShows | package/mkpimage/mkpimage.c:155-155 | A change of the last one, two or three bytes shows in as many upper bytes of the register, but for a single change of two bytes. |
| BootImage.Branch | package/mkpimage/mkpimage.c:163-171 | The four bytes written jump to the destination if and only if it is a multiple of 4 away and within 32 MB. |
| BootImage.AddHeader | package/mkpimage/mkpimage.c:175-255 | An image of whole words gets a matching checksum and, if it has a word more than the header needs, a header that passes the checks of the boot code (sum of its bytes, length, entry, jump); no other byte changes; any other image is refused untouched. |
| BootImage.JumpUnderChecksum | package/mkpimage/mkpimage.c:188-252 | A version 1 image that ends with the jump behind its header has it in the end if and only if the checksum of the bytes before is that jump. |
| BootImage.AtMostOneJumps | package/mkpimage/mkpimage.c:188-252 | Of two such images that differ only within four consecutive bytes, at most one has the jump. |
| BootImage.OneJump | package/mkpimage/mkpimage.c:163-171 | To a destination in reach there is exactly one jump word. |
| BootImage.PutHeader1 | package/mkpimage/mkpimage.c:188-243 | Version 1: length in bytes, entry relative to the header, a jump behind the header exactly for programs before it. |
| BootImage.PutHeader0 | package/mkpimage/mkpimage.c:205-239 | Version 0: length in words, jump to the start. |
| BootImage.Seal | package/mkpimage/mkpimage.c:249-252 | The last four bytes become the inverted checksum of all before. |

## Left out

- Front ends, prompts, regular expression search, warnings, help texts, files and
  their renaming, `conf_split_config`, `conf_write_autoconf` and the headings that
  `conf_write` puts between entries: terminal and file plumbing.
- Exact width of pointers and counters, and freeing of memory: nodes are allocated and
  never freed.
- Operands of comparisons without a type of their own (`S_OTHER`), whose order is never
  decided, `E_LIST` and `E_RANGE` inside simplified expressions: the simplifier has no
  meaning for them.
- Dups.EliminateDups: operand slots hold expressions as values; the nodes of one operator above
  them are the spine. Overwriting of the nodes themselves is in `ExprNodes`.
- SymTables.SymTable.CalcValue: bool and tristate symbols; the modules symbol has a fixed
  value during a calculation, which the program may change; string, int and hex symbols
  are constants there, their ranges are in `Range`. Every member belongs to one choice
  and its prompts carry the dependency on it, as the menu code arranges. What is
  remembered of the visibility of a choice's default that is no member is a parameter.
  The mark that a choice passes on to its visible members
  (`support/kconfig/symbol.c:483-491`) is not modelled; they get it by themselves when
  they are calculated.
- SymTables.SymTable.SetAllChoiceValues: the loop of `conf_set_all_new_symbols` around it is
  not modelled; the marks that it sets (`support/kconfig/confdata.c:1262-1264`) may be in
  any state of the table.
- CycleCheck.Checker.CheckAll: choices (`sym_check_choice_deps`) and implies, which the
  search does not follow.
- Ranges.ValidatedIsClamped: bounds are the texts of the bound symbols, calculated
  before; `errno` is not modelled, numbers beyond 64 bits are cut to the nearest.
- Menus.Finalize: types of choices and their members, the lists of members, selects and
  implies collected from properties (`support/kconfig/menu.c:392-399`), `dir_dep` and
  the checks of properties: one prompt per entry is modelled.
- Menus.UpdateChild: selects and implies are not collected from the properties
  (`support/kconfig/menu.c:392-399`).
- Supersets.PassingMeansReachableExactly: for dependencies that compare a bool symbol with m, which
  the simplifier turns into constants without removing them, only one direction is stated
  (`Supersets.PassingMeansReachable`).
- Printer.PrintIsUnambiguous: names are tokens, different for different symbols;
  `E_LIST` and `E_RANGE` are not printed.
- ConfBuffer.ReadLineInPlace: unknown symbols, the warning about a second assignment and
  the bookkeeping of choices after a line (`support/kconfig/confdata.c:382-401`) are not
  modelled.
- ConfFile.FileRoundTrip: lines of bool and tristate symbols; string and number lines are read
  back one by one (`ConfText.RoundTrip`). Headings between lines are not modelled.
- ConfWrite.WriteConfig: comment and menu entries write headings in the program.
- `conf_write_defconfig` and its search for the smallest file: the code itself notes a
  gap for ranges.
- BootImage.AddHeader: the barebox header, padding and reading of files; addresses are
  offsets into the image, the host stores words with the lowest byte first.
- Randomised configurations.
