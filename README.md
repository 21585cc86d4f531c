# typefuck in Dafny

typefuck is a Brainfuck interpreter that runs entirely inside Rust's type
checker. Numbers are Peano types (`Zero`, `NextNumber<N>`), memory is a
type-level linked list (`End`, `Node<Val, Next>`), and the machine is
`InterpreterBase<Ram, Output>`: a tape with a pointer (`Indexed<Idx, List>`)
plus a second tape that `.` pushes values onto. A program is written with
the `bf!` macro as a chain of wrapper types such as
`Print<MoveLeft<LoopEnd<Decr<LoopStart<Base>>>>>`. Evaluating it is
associated-type resolution:

- `Instruction::Exec` gives the state.
- `Create<E>` rebuilds a chain around a new state.
- `Interpreter` gives the state a skipped loop falls back to.
- `Get` gives the loop condition.
- A loop repeats by re-instantiating `LoopEnd` through the `Loop<Cond>`
  impls.

`main` runs a Hello-World program and decodes the output tape with
`String::from_utf8`. Two earlier drafts of the number, list and tape layer,
`src/old2.rs` and `src/old.rs`, differ mainly in that subtracting from
`Zero` has no impl there. In the drafts it is a type error; in the live
version it saturates at zero.

The model has these modules:

- `Numbers`: Peano numbers, `Operation<Add/Sub>` and `Number::eval`.
- `LinkedList`: the cons list with `Index`, `Len`, `LLOp`, `Push`, `to_vec`
  and `to_string`.
- `Utf8`: the UTF-8 well-formedness and decoding that `String::from_utf8`
  performs, per section 4 of RFC 3629.
- `Indexed`: the tape.
- `Brainfuck`: the machine state `InterpreterBase` and `Print`.
- `Instructions`: the intended instruction-by-instruction semantics. A loop
  checks its cell before every run of its body.
- `Runs`: the same semantics restated on sequences, proved equal.
- `Programs`: the repository's loop tests and the Hello-World program,
  evaluated on that reference.
- `TypeChain`: the wrapper chain exactly as the trait impls evaluate it,
  in two versions, `AsWritten` and `Corrected`.
- `ChainRuns`: the tests and `main` re-evaluated on the chain as written,
  plus the program on which the chain as written goes wrong.
- `Old2` and `Old`: the two drafts, each proved to agree with the next
  version wherever the draft type-checks.

Type-level facts become value-level definitions:

- An impl that does not exist becomes a precondition or a `None` result.
- Compilation that would exceed the recursion limit becomes running out
  of `fuel`.

## Model

| member | source | states |
|---|---|---|
| Numbers.Apply | src/main.rs:188-199 | Add is the successor; Sub is the predecessor, and Sub of `Zero` is `Zero`. Both are read through `eval` as `ApplyNat`. |
| Numbers.SubAfterAdd | src/main.rs:191-199 | Sub undoes Add on every number; Sub of Zero is Zero |
| Numbers.FromNat | src/main.rs:170-185 | the number aliases `One`…`Nine` evaluate to their index |
| Numbers.FromNatEval | src/main.rs:201-213 | `eval` is a bijection between Peano numbers and naturals (inverse of FromNat) |
| Numbers.EvalInjective | src/main.rs:201-213 | two numbers with the same `eval` are the same number |
| Numbers.RepeatEval | src/main.rs:188-213 | k Adds raise `eval` by k; k Subs lower it by k but never below zero |
| Numbers.NumberTests | src/main.rs:223-230 | the `adds` and `add_sub` tests: Add³ Zero is 3, Add Add Sub is 1 |
| LinkedList.ToVec | src/main.rs:332-344 | `to_vec` lists the values in order, one per node; so do `to_vec` of the second draft (src/old2.rs:249-262) and `ListEll::get` of the first (src/old.rs:84-98) |
| LinkedList.FromSeq | src/main.rs:237-238 | every sequence of values is the `to_vec` of some list |
| LinkedList.ToVecInjective | src/main.rs:332-344 | a list is determined by its `to_vec` |
| LinkedList.Index | src/main.rs:240-266 | `Val` is the element at i, Zero past the end. A non-empty list comes back unchanged; `End` comes back as [0] |
| LinkedList.LLOp | src/main.rs:280-306 | element i gets op, every other element keeps its value, and the length becomes max(len, i+1) |
| LinkedList.LLOpValues | src/main.rs:283-306 | the same as a sequence update: pad with zeros up to i, then set element i |
| LinkedList.Push | src/main.rs:308-319 | Push appends at the end, and the earlier elements keep their order |
| LinkedList.ToBytes | src/main.rs:324-328 | the `u8::try_from` step succeeds exactly when every value is below 256 and then keeps the values |
| LinkedList.ToStringSpec | src/main.rs:324-330 | `to_string` is Ok exactly when every value fits a byte and the bytes are well-formed UTF-8; the text then encodes back to the values |
| LinkedList.ListTests | src/main.rs:354-377 | the `index`, `index_out_of_bounds` and `test_push` tests (the same three tests appear in the second draft, src/old2.rs:274-296) |
| Utf8.CharWidth | src/main.rs:329 | the width of the leading UTF-8 character is at most 4 and fits the input |
| Utf8.CodePoint | src/main.rs:329 | a well-formed character decodes to a Unicode scalar value, never a surrogate |
| Utf8.EncodeChar | src/main.rs:329 | a character encodes to 1 to 4 bytes |
| Utf8.EncodeCharDecodes | src/main.rs:329 | decoding the encoding of a character gives it back, whatever follows |
| Utf8.DecodeCharEncodes | src/main.rs:329 | re-encoding a decoded character gives back its bytes |
| Utf8.EncodeAllDecodes | src/main.rs:329 | every string's encoding is well-formed and decodes to the string |
| Utf8.DecodeAllEncodes | src/main.rs:329 | every well-formed byte sequence is the encoding of what it decodes to |
| Utf8.FromUtf8Spec | src/main.rs:329 | `String::from_utf8` succeeds exactly on well-formed input, and its text encodes back to the input |
| Utf8.AsciiValid | src/main.rs:329 | bytes below 0x80 are always well-formed |
| Utf8.EncodeAscii | src/main.rs:329 | an ASCII string encodes to its character codes, one byte each |
| Utf8.ValidConcat | src/main.rs:329 | well-formed sequences concatenate to a well-formed sequence |
| Utf8.InvalidExamples | src/main.rs:329 | a stray continuation byte, an overlong form, a surrogate, a value above U+10FFFF and a truncated character are rejected |
| Indexed.Get | src/main.rs:388-396 | `Get` is the value under the pointer, Zero past the end |
| Indexed.VecOp | src/main.rs:411-419 | only the cell under the pointer changes, by op; the pointer stays, and the tape grows to cover it |
| Indexed.IndexOp | src/main.rs:421-429 | only the pointer changes, by op |
| Indexed.Push | src/main.rs:431-439 | Push appends to the cells and leaves the pointer |
| Indexed.MoveLeftSaturates | src/main.rs:421-429 | moving left at cell 0 stays at 0, and left undoes right |
| Indexed.UpdateThenRead | src/main.rs:388-419 | reading after an update gives the updated value |
| Brainfuck.VecOp | src/main.rs:711-716 | on the machine, Ram's current cell gets op; every other Ram cell keeps its value, Ram's pointer stays and its length grows to cover the pointer, and Output is untouched |
| Brainfuck.IndexOp | src/main.rs:717-722 | on the machine, only Ram's pointer moves, and Output is untouched |
| Brainfuck.Print | src/main.rs:724-733 | Print appends the current Ram cell to Output, keeps Output's pointer, and leaves Ram unchanged |
| Instructions.RunBody | src/main.rs:493-529 | a run of a loop body never touches Output |
| Instructions.IterateLast | src/main.rs:546-548 | k+1 runs of a body are k runs followed by one more |
| Instructions.RunLoopIterates | src/main.rs:537-558 | a loop whose cell first reads zero after n runs ends after exactly n runs when fuel allows more than n checks, and fails otherwise |
| Instructions.RunLoopEnds | src/main.rs:537-558 | every loop that ends has run its body some n times, and its cell first read zero after those n runs |
| Instructions.LoopIsPreTest | src/main.rs:542-547 | a finished loop leaves its cell at zero, leaves Output alone, and entering it again does nothing |
| Instructions.RunLoopFuel | src/main.rs:537-558 | more fuel does not change a loop that finished |
| Instructions.ExecFuel | src/main.rs:537-558 | more fuel does not change a program that finished |
| Instructions.ExecAppend | src/main.rs:591 | running p then q is running p + q |
| Runs.St | src/main.rs:385-386 | every pointer, cell sequence and output sequence is the reading of some machine state |
| Runs.GetView | src/main.rs:397-399 | the condition cell is the same in both readings |
| Runs.StepView | src/main.rs:493-529 | a body instruction on the machine is the sequence update on its reading |
| Runs.PrintView | src/main.rs:560-568 | Print on the machine is an append on its reading |
| Runs.RunBodyView | src/main.rs:493-529 | a body run on the machine agrees with the reference semantics on sequences |
| Runs.RunLoopView | src/main.rs:537-558 | a loop on the machine agrees with the reference semantics on sequences |
| Runs.ExecView | src/main.rs:591 | a whole program on the machine agrees with the reference semantics on sequences |
| Runs.IterateView | src/main.rs:546-548 | repeated body runs on the machine agree with the reference semantics on sequences |
| Runs.VRunLoopIterates | src/main.rs:537-558 | on sequences, a loop that first reads zero after n runs ends after exactly n runs when fuel allows |
| Runs.VRunBodyAppend | src/main.rs:493-529 | running a then b is running a + b |
| Runs.VExecAppend | src/main.rs:591 | on sequences, running p then q is running p + q |
| Runs.RunIncrs | src/main.rs:502-510 | k `+` add k to the current cell |
| Runs.RunDecrs | src/main.rs:493-501 | k `-` subtract k from the current cell, stopping at zero |
| Runs.RunRights | src/main.rs:511-519 | k `>` move the pointer k to the right |
| Runs.RunLefts | src/main.rs:521-529 | k `<` move the pointer k to the left, stopping at cell 0 |
| Programs.ClearLoop | src/main.rs:537-558 | `[-]` clears the current cell in as many checks as its value plus one, and changes nothing else |
| Programs.TransferLoop | src/main.rs:537-558 | `[>+<-]` on [n] ends with [0, n] (or [0] when n is 0) |
| Programs.TestLoop | src/main.rs:610-623 | the `test_loop` test: `[-]>+.` on [3] gives data [0, 1] with index 1 |
| Programs.TestLoop2 | src/main.rs:624-631 | the `test_loop2` test: `++[-]+` gives data [1] |
| Programs.EmptyLoop | src/main.rs:632-638 | the `empty_loop` test: `[>-<]` on [0, 1] leaves [0, 1] |
| Programs.TestLoop3 | src/main.rs:676-683 | the `test_loop_3` test: `[>+<-]` on [9] gives [0, 9] |
| Programs.HelloLoop | src/main.rs:743 | the Hello-World loop fills cells 1 to 5 with 72, 99, 36, 81, 117 |
| Programs.HelloWorldRun | src/main.rs:740-745 | the Hello-World program ends with the bytes of "Hello Types!" on Output |
| Programs.HelloDecodes | src/main.rs:747-749 | those bytes decode to the string "Hello Types!" |
| Programs.HelloWorld | src/main.rs:740-750 | `main`: the program's output decodes to "Hello Types!" |
| TypeChain.ExecWrap | src/main.rs:493-529 | an instruction wrapper's `Exec` is the step applied to what it wraps |
| TypeChain.BodyExec | src/main.rs:493-529 | a chain of body wrappers evaluates to one run of the body |
| TypeChain.BodyGet | src/main.rs:574-590 | body wrappers forward `Get` and `Interpreter` to what they wrap |
| TypeChain.BodyCreate | src/main.rs:493-536 | `Create<E>` rebuilds a body around the new state and keeps the instructions |
| TypeChain.LoopChain | src/main.rs:531-558 | a loop over a base state, re-instantiated through `Create<Exec>`, is exactly the pre-test loop |
| TypeChain.LoopFirst | src/main.rs:531-558 | a loop in a longer chain is the pre-test loop, except that as written a first check of zero falls back to the chain's base state |
| TypeChain.ExecWrapInstr | src/main.rs:493-568 | one wrapped program instruction evaluates as the eager step, except a loop skipped on its first check as written |
| TypeChain.InterpWrapInstr | src/main.rs:493-568 | as written, every wrapper forwards `Interpreter` to the base |
| TypeChain.CompileCorrected | src/main.rs:531-558 | with `Interpreter` fixed, the compiled chain evaluates as the eager semantics, continuing from any prefix |
| TypeChain.CompileAsWritten | src/main.rs:531-558 | as written, the compiled chain evaluates as `SkipExec`, where a skipped loop resets to the starting state |
| TypeChain.CorrectedRuns | src/main.rs:531-558 | with `Interpreter` fixed, every program's chain evaluates to the eager semantics |
| TypeChain.AsWrittenRuns | src/main.rs:531-558 | every program's chain as written evaluates to `SkipExec` from its starting state |
| TypeChain.SkipExecAgrees | src/main.rs:542-544 | `SkipExec` equals the eager semantics when every loop skipped on its first check is skipped in the starting state |
| TypeChain.ChecksIterate | src/main.rs:546-548 | k condition checks of a loop give the loop re-instantiated around k body runs |
| TypeChain.ChecksExit | src/main.rs:542-544 | the check after the last run gives the base holding the final state |
| TypeChain.DebugLoop0 | src/main.rs:695-708 | `brainfuck::Debug::Ram` of a loop chain is the state it was built on |
| ChainRuns.OneLoopAgrees | src/main.rs:531-558 | a program with one loop, entered with a nonzero cell or at the start, evaluates as written exactly as the eager semantics |
| ChainRuns.ChainTestLoop | src/main.rs:610-623 | `test_loop` evaluated on the chain as written |
| ChainRuns.ChainTestLoop2 | src/main.rs:624-631 | `test_loop2` evaluated on the chain as written |
| ChainRuns.ChainEmptyLoop | src/main.rs:632-638 | `empty_loop` evaluated on the chain as written |
| ChainRuns.ChainTestLoop3 | src/main.rs:676-683 | `test_loop_3` evaluated on the chain as written |
| ChainRuns.BaseLoop3 | src/main.rs:639-674 | the `base_loop_3` test: the k-th `LoopOut` of `[>+<-]` on [9] has Ram [9-k, k], and the tenth has [0, 9] |
| ChainRuns.ChainHelloAgrees | src/main.rs:740-745 | the Hello-World chain as written evaluates as the eager semantics |
| ChainRuns.ChainHelloWorld | src/main.rs:740-750 | `main` on the chain as written: the output decodes to "Hello Types!" |
| ChainRuns.SkippedLoopResets | src/main.rs:531-547 | `+>[-]<.` from the empty machine: as written the skipped loop resets the machine, so `.` prints 0 over empty cells; corrected and eager print 1 over [1] |
| Old2.Apply | src/old2.rs:120-128 | Add is the successor; Sub needs a successor and is its predecessor. The first draft's `NumOperator` (src/old.rs:41-57) is the same partial operator |
| Old2.ApplyAgrees | src/old2.rs:120-128 | where Sub is defined it is the live Sub, and Add never gives Zero |
| Old2.NumberTests | src/old2.rs:151-158 | the `adds` and `add_sub` tests of the second draft; the first covers the first draft's `add_test` (src/old.rs:70-75) |
| Old2.LLOp | src/old2.rs:208-234 | element i gets op, the list is padded with zeros to cover it, and Sub needs a nonzero element at i (so none on `End`) |
| Old2.LLOpAgrees | src/old2.rs:208-234 | where the draft's `LLOp` is defined it is the live `LLOp` |
| Old2.VecOp | src/old2.rs:326-335 | the cell under the pointer gets op and the pointer stays |
| Old2.IndexOp | src/old2.rs:336-345 | the pointer moves by op and the cells stay; there is no move left from cell 0 |
| Old2.Step | src/old2.rs:381-385 | each alias, where it type-checks, is the live saturating step |
| Old2.RunAgrees | src/old2.rs:381-385 | a sequence of aliases type-checks exactly when the live run never saturates, and then ends on the same tape |
| Old2.SatRunLive | src/main.rs:493-529 | the live run on a tape is the Ram of the live machine's body run |
| Old2.BasicBrainfuck | src/old2.rs:394-402 | the `basic_brainfuck` test: `+>>++<+` gives data [1, 1, 2] with index 1 |
| Old.NodeOperator | src/old.rs:103-128 | element i gets op, every other element keeps its value, and the length becomes max(len, i+1). Sub needs a nonzero element at i, so there is none on `End` |
| Old.NodeOperatorAgrees | src/old.rs:103-128 | the first draft's `NodeOperator` is the second draft's `LLOp` |
| Old.GrowNodes | src/old.rs:152-159 | the `grow_nodes` test: `NodeAdd<End, Zero>` is [1]; `NodeAdd` of that at 2 is [1, 0, 1] |
| Old.ReadNode | src/old.rs:130-144 | `ReadNode` gives the element at an index of the list and the list itself |
| Old.ReadNodeAgrees | src/old.rs:130-144 | where `ReadNode` is defined it is the live `Index` |
| Old.IndexOperator | src/old.rs:169-174 | the index moves by op and the cells stay; this is the second draft's `IndexOp` |
| Old.ListOperator | src/old.rs:175-180 | `NodeOperator` at the index, with the index kept; this is the second draft's `VecOp` |
| Old.Step | src/old.rs:209-212 | the aliases `MoveRight`, `MoveLeft`, `Incr`, `Decr` are the second draft's aliases |
| Old.RunAgrees | src/old.rs:209-212 | a sequence of aliases type-checks in the first draft exactly when it does in the second, with the same result |
| Old.ManipulateList | src/old.rs:220-226 | the `manipulate_list` test and `main`: `>++>+` from `Interpreter<End, Zero>` gives data [0, 2, 1] with index 2 |

## Left out

- The `TypeNamed` impls (src/main.rs:88-160, src/old2.rs:35-92) render a type's structure for debugging. They have no role in evaluation.
- The macros `actions!`, `ll!`, `list!` and `bf!` (src/main.rs:6-86) only rewrite tokens. A program is an `Instructions.Instr` sequence instead. The doubled tokens `>>`, `<<`, `..`, `->`, `<-` expand to single instructions.
- `println!` and `type_name` debugging output (src/main.rs:365, src/old.rs:198-201) is left out.
- The small lemmas that step through one concrete program, one instruction or one segment at a time, are proof helpers and have no row above.
- The functions that define the semantics have no row of their own. Their contracts are the lemma rows above, which relate them to an independent reference. They are:
  - `Instructions.Step`, `LoopCheck`, `RunLoop` and `Exec`: the instruction impls, `Loop<Cond>::LoopOut` and `Execute` (src/main.rs:493-558, 591). Their rows are the `Instructions.*` and `Runs.*View` lemmas.
  - `TypeChain.Compile`, `Create`, `Exec`, `Get`, `Interp`, `LoopOut`, `Debug` and `Checks`: the `bf!` chain and the trait impls (src/main.rs:46-86, 493-590, 695-708). Their rows are the `TypeChain.*` and `ChainRuns.*` lemmas.
  - `LinkedList.Len` (src/main.rs:268-279): its row is `LinkedList.ToVec`. `LinkedList.ToString` (src/main.rs:324-330): its row is `LinkedList.ToStringSpec`.
  - `Brainfuck.Get` (src/main.rs:388-396 on Ram): its row is `Indexed.Get`. `Brainfuck.OutputString` (src/main.rs:734, 744-747): its row is `Programs.HelloWorld`.
  - `Utf8.Valid` and `Utf8.FromUtf8` (src/main.rs:329): their rows are `Utf8.FromUtf8Spec` and the round-trip lemmas.
  - `Old2.Run` (`actions!`, src/old2.rs:3-16) and `Old.Run` (`actions!`, src/old.rs:3-16): their rows are `Old2.RunAgrees` and `Old.RunAgrees`.
- Lists and tapes hold the `eval` of each type-level number as a `nat`, not the Peano type itself (`Node<Val, Next>`, `Indexed<Idx, _>`). This loses nothing, because `Numbers.Apply` agrees with `ApplyNat` through `eval` and `eval` is a bijection (`Numbers.FromNatEval`, `Numbers.EvalInjective`).
- The compiler's recursion limit (src/main.rs:1) is modelled as `fuel`. Any nonzero limit the source would reach is one fuel value; the exact number of recursion steps rustc counts is not modelled.
- `usize` overflow of `eval` (src/main.rs:211) is left out: numbers are unbounded `nat`.
- A loop whose body holds `.` or another loop is rejected or mishandled by the encoding (src/main.rs:556, 566, 582). The model's loop bodies hold only `+ - > <`.
- The marker impl `Instruction for Indexed<Idx, Node<..>>` (src/old2.rs:379) carries no behaviour and is left out.
- The `Instruction` impl on `Indexed` (src/main.rs:487-491) lets a bare tape start a chain. Chains in the model start from `InterpreterBase`, as every test and `main` does.
- `loopinstr` of the second draft (src/old2.rs:405-619) is unfinished: it does not parse at src/old2.rs:517, and its test panics at src/old2.rs:575.
- `loop_instr` of the first draft (src/old.rs:231-255) does not compile: `LoopItem` is declared with one type parameter and used with two.
- Old.ManipulateList: stated for any interpreter at index 0 with no cells, of which `Interpreter<End, Zero>` is one; this is more general than the test, not weaker.
- Old2.BasicBrainfuck: stated for any tape at cell 0 with no cells, of which `EmptyIndexed` is one; this is more general than the test, not weaker.

## Findings

| source | as written | input that shows it | evidently intended | confidence | as-written member | corrected member |
|---|---|---|---|---|---|---|
| src/main.rs:535, src/main.rs:542-544 | `LoopStart<T>` forwards `Interpreter` to `T::Interpreter`. A loop whose cell is zero on its first check therefore falls back to the base state of the whole chain, discarding every instruction before the loop. | `+>[-]<.` from the empty machine: as written Output is [0] and Ram is empty; the eager semantics gives Output [1] and Ram [1] | a skipped loop leaves the state it was entered in (`Interpreter = T::Exec`) | high, not executed | ChainRuns.SkippedLoopResets | TypeChain.CorrectedRuns |
