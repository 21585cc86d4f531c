/** A tape: a list of cells and a pointer into it (`Indexed<Idx, FirstNode>`).
    Reading and updating happen at the pointer; the pointer moves with the
    same saturating operators as the cells. */
module Indexed {
  import opened Numbers
  import LinkedList

  datatype Tape = Tape(ptr: nat, cells: LinkedList.List)

  /** `EmptyIndexed`: no cells, pointer at 0. */
  const EmptyIndexed: Tape := Tape(0, LinkedList.End)

  /** `Get::Val`: the cell under the pointer, zero past the end. */
  function Get(t: Tape): (v: nat)
    ensures v == LinkedList.CellAt(LinkedList.ToVec(t.cells), t.ptr)
  {
    LinkedList.Index(t.cells, t.ptr).0
  }

  /** The value of cell `i`, zero past the end (`Index` at any position). */
  function CellValue(t: Tape, i: nat): nat
  {
    LinkedList.Index(t.cells, i).0
  }

  /** `Len::LenOut`: the number of cells. */
  function Len(t: Tape): nat
  {
    LinkedList.Len(t.cells)
  }

  /** `VecOp<Op>`: apply `op` to the cell under the pointer, growing the
      tape with zero cells up to it. The pointer and every other cell stay
      as they were. */
  function VecOp(t: Tape, op: Op): (r: Tape)
    ensures r.ptr == t.ptr
    ensures Get(r) == ApplyNat(Get(t), op)
    ensures forall i :: i != t.ptr ==> CellValue(r, i) == CellValue(t, i)
    ensures Len(r) == if t.ptr < Len(t) then Len(t) else t.ptr + 1
  {
    Tape(t.ptr, LinkedList.LLOp(t.cells, op, t.ptr))
  }

  /** `IndexOp<Op>`: move the pointer with `op`; the cells are untouched. */
  function IndexOp(t: Tape, op: Op): (r: Tape)
    ensures r.cells == t.cells
    ensures r.ptr == ApplyNat(t.ptr, op)
  {
    Tape(ApplyNat(t.ptr, op), t.cells)
  }

  /** `Push<Value>`: append `v` to the cells; the pointer stays. */
  function Push(t: Tape, v: nat): (r: Tape)
    ensures r.ptr == t.ptr
    ensures LinkedList.ToVec(r.cells) == LinkedList.ToVec(t.cells) + [v]
  {
    Tape(t.ptr, LinkedList.Push(t.cells, v))
  }

  /** `Debug::data`: the cell values in order. */
  function Data(t: Tape): seq<nat>
  {
    LinkedList.ToVec(t.cells)
  }

  /** Moving left at cell 0 stays at cell 0, and moving left undoes
      moving right. */
  lemma MoveLeftSaturates(t: Tape)
    ensures t.ptr == 0 ==> IndexOp(t, Sub) == t
    ensures IndexOp(IndexOp(t, Add), Sub) == t
  {
  }

  /** Reading a cell never changes the tape, and after an update at the
      pointer the cell reads as the updated value: writing then reading
      the same cell gives what was written. */
  lemma UpdateThenRead(t: Tape, op: Op)
    ensures Get(VecOp(t, op)) == ApplyNat(Get(t), op)
    ensures Data(VecOp(t, op))[t.ptr] == ApplyNat(Get(t), op)
  {
    var r := VecOp(t, op);
    assert Get(r) == LinkedList.CellAt(Data(r), t.ptr);
  }
}
