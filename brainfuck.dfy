/** The machine state `InterpreterBase<Ram, Output>`: the working tape and
    the tape the program's output is pushed onto. Cell updates and pointer
    moves act on Ram; Print copies the cell under Ram's pointer to the end
    of Output. */
module Brainfuck {
  import opened Numbers
  import LinkedList
  import Indexed

  datatype Interpreter = InterpreterBase(ram: Indexed.Tape, output: Indexed.Tape)

  /** `brainfuck::Interpreter`: both tapes empty. */
  const Empty: Interpreter := InterpreterBase(Indexed.EmptyIndexed, Indexed.EmptyIndexed)

  /** `Get` on the state: the cell under Ram's pointer. */
  function Get(s: Interpreter): nat
  {
    Indexed.Get(s.ram)
  }

  /** `VecOp<Op>` on the state: update the current Ram cell; every other
      Ram cell and all of Output are untouched, and Ram grows to cover its
      pointer. */
  function VecOp(s: Interpreter, op: Op): (r: Interpreter)
    ensures r.output == s.output
    ensures r.ram.ptr == s.ram.ptr
    ensures Get(r) == ApplyNat(Get(s), op)
    ensures forall i :: i != s.ram.ptr ==> Indexed.CellValue(r.ram, i) == Indexed.CellValue(s.ram, i)
    ensures Indexed.Len(r.ram) == if s.ram.ptr < Indexed.Len(s.ram) then Indexed.Len(s.ram) else s.ram.ptr + 1
  {
    InterpreterBase(Indexed.VecOp(s.ram, op), s.output)
  }

  /** `IndexOp<Op>` on the state: move Ram's pointer; the cells of Ram and
      all of Output are untouched. */
  function IndexOp(s: Interpreter, op: Op): (r: Interpreter)
    ensures r.output == s.output
    ensures r.ram.cells == s.ram.cells
    ensures r.ram.ptr == ApplyNat(s.ram.ptr, op)
  {
    InterpreterBase(Indexed.IndexOp(s.ram, op), s.output)
  }

  /** `Print::Out`: push the current Ram cell onto Output. Ram is unchanged
      and the earlier output keeps its order; Output's pointer stays. */
  function Print(s: Interpreter): (r: Interpreter)
    ensures r.ram == s.ram
    ensures r.output.ptr == s.output.ptr
    ensures Indexed.Data(r.output) == Indexed.Data(s.output) + [Get(s)]
  {
    InterpreterBase(s.ram, Indexed.Push(s.output, Get(s)))
  }

  /** `GetOutput` followed by `Debug::string`: the output decoded as text. */
  function OutputString(s: Interpreter): LinkedList.Result<string>
  {
    LinkedList.ToString(s.output.cells)
  }
}
