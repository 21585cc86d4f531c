/** A reference semantics on sequences: the machine state read as its Ram
    pointer, its Ram cell values and its Output values, and every
    instruction stated directly on those. The list-based execution of
    `Instructions` is proved to agree with it step for step, loop for loop,
    program for program; concrete programs are then checked on this
    reading, where each step is a sequence update. */
module Runs {
  import opened Numbers
  import opened Wrappers
  import opened LinkedList
  import Indexed
  import opened Brainfuck
  import opened Instructions

  /** Ram pointer, Ram cell values, Output values. */
  datatype View = V(ptr: nat, cells: seq<nat>, out: seq<nat>)

  /** How a machine state reads. Output's own pointer is left out: no
      instruction moves it. */
  function ViewOf(s: Interpreter): View
  {
    V(s.ram.ptr, ToVec(s.ram.cells), ToVec(s.output.cells))
  }

  function ViewOfOpt(o: Option<Interpreter>): Option<View>
  {
    match o
    case None => None
    case Some(s) => Some(ViewOf(s))
  }

  /** The state with that reading and Output's pointer at 0. */
  function St(ptr: nat, cells: seq<nat>, out: seq<nat>): (s: Interpreter)
    ensures ViewOf(s) == V(ptr, cells, out)
  {
    InterpreterBase(Indexed.Tape(ptr, FromSeq(cells)), Indexed.Tape(0, FromSeq(out)))
  }

  /** The cell under the pointer. */
  function VGet(v: View): nat
  {
    CellAt(v.cells, v.ptr)
  }

  /** One body instruction on the reading. */
  function VStep(v: View, c: Cmd): View
  {
    match c
    case Incr => V(v.ptr, Put(v.cells, v.ptr, VGet(v) + 1), v.out)
    case Decr => V(v.ptr, Put(v.cells, v.ptr, ApplyNat(VGet(v), Sub)), v.out)
    case MoveRight => V(v.ptr + 1, v.cells, v.out)
    case MoveLeft => V(ApplyNat(v.ptr, Sub), v.cells, v.out)
  }

  function VRunBody(v: View, body: seq<Cmd>): View
    decreases |body|
  {
    if body == [] then v else VRunBody(VStep(v, body[0]), body[1..])
  }

  function VRunLoop(v: View, body: seq<Cmd>, fuel: nat): Option<View>
    decreases fuel
  {
    if fuel == 0 then None
    else if VGet(v) == 0 then Some(v)
    else VRunLoop(VRunBody(v, body), body, fuel - 1)
  }

  function VExecOne(v: View, i: Instr, fuel: nat): Option<View>
  {
    match i
    case Simple(c) => Some(VStep(v, c))
    case Print => Some(V(v.ptr, v.cells, v.out + [VGet(v)]))
    case Loop(body) => VRunLoop(v, body, fuel)
  }

  function VExec(v: View, prog: seq<Instr>, fuel: nat): Option<View>
    decreases |prog|
  {
    if prog == [] then Some(v)
    else
      match VExecOne(v, prog[0], fuel)
      case None => None
      case Some(w) => VExec(w, prog[1..], fuel)
  }

  function VIterate(v: View, body: seq<Cmd>, k: nat): View
    decreases k
  {
    if k == 0 then v else VIterate(VRunBody(v, body), body, k - 1)
  }

  /** The cell a state reads at its pointer is the one its reading gives. */
  lemma GetView(s: Interpreter)
    ensures Get(s) == VGet(ViewOf(s))
  {
  }

  /** One instruction: the list-based step and the sequence step agree. */
  lemma StepView(s: Interpreter, c: Cmd)
    ensures ViewOf(Step(s, c)) == VStep(ViewOf(s), c)
  {
    if c.Incr? || c.Decr? {
      LLOpValues(s.ram.cells, if c.Incr? then Add else Sub, s.ram.ptr);
    }
  }

  lemma PrintView(s: Interpreter)
    ensures ViewOf(Brainfuck.Print(s)) == VExecOne(ViewOf(s), Instr.Print, 0).value
  {
  }

  lemma {:induction false} RunBodyView(s: Interpreter, body: seq<Cmd>)
    ensures ViewOf(RunBody(s, body)) == VRunBody(ViewOf(s), body)
    decreases |body|
  {
    if body != [] {
      StepView(s, body[0]);
      RunBodyView(Step(s, body[0]), body[1..]);
    }
  }

  lemma {:induction false} RunLoopView(s: Interpreter, body: seq<Cmd>, fuel: nat)
    ensures ViewOfOpt(RunLoop(s, body, fuel)) == VRunLoop(ViewOf(s), body, fuel)
    decreases fuel
  {
    if fuel > 0 && Get(s) != 0 {
      RunBodyView(s, body);
      RunLoopView(RunBody(s, body), body, fuel - 1);
    }
  }

  /** Whole programs: the list-based execution and the sequence execution
      agree, including on running out of fuel. */
  lemma {:induction false} ExecView(s: Interpreter, prog: seq<Instr>, fuel: nat)
    ensures ViewOfOpt(Exec(s, prog, fuel)) == VExec(ViewOf(s), prog, fuel)
    decreases |prog|
  {
    if prog != [] {
      match prog[0] {
        case Simple(c) => StepView(s, c);
        case Print =>
        case Loop(body) => RunLoopView(s, body, fuel);
      }
      match ExecOne(s, prog[0], fuel)
      case None =>
      case Some(t) => ExecView(t, prog[1..], fuel);
    }
  }

  lemma {:induction false} IterateView(s: Interpreter, body: seq<Cmd>, k: nat)
    ensures ViewOf(Iterate(s, body, k)) == VIterate(ViewOf(s), body, k)
    decreases k
  {
    if k > 0 {
      RunBodyView(s, body);
      IterateView(RunBody(s, body), body, k - 1);
    }
  }

  /** The loop theorem of `Instructions` on the reading: a loop whose
      cell first reads zero after `n` runs of the body makes exactly those
      runs when it has more than `n` checks. */
  lemma VRunLoopIterates(v: View, body: seq<Cmd>, fuel: nat, n: nat)
    requires VGet(VIterate(v, body, n)) == 0
    requires forall k :: 0 <= k < n ==> VGet(VIterate(v, body, k)) != 0
    ensures VRunLoop(v, body, fuel) == if n < fuel then Some(VIterate(v, body, n)) else None
  {
    var s := St(v.ptr, v.cells, v.out);
    forall k | 0 <= k <= n
      ensures Get(Iterate(s, body, k)) == VGet(VIterate(v, body, k))
    {
      IterateView(s, body, k);
    }
    assert ExitsAfter(s, body, n);
    RunLoopIterates(s, body, fuel, n);
    RunLoopView(s, body, fuel);
    IterateView(s, body, n);
  }

  /** `c` repeated `k` times. */
  function Times(c: Cmd, k: nat): (r: seq<Cmd>)
    ensures |r| == k
  {
    if k == 0 then [] else [c] + Times(c, k - 1)
  }

  /** Body instructions as program instructions. */
  function Lift(body: seq<Cmd>): (r: seq<Instr>)
    ensures |r| == |body|
    ensures forall i :: 0 <= i < |body| ==> r[i] == Simple(body[i])
  {
    if body == [] then [] else [Simple(body[0])] + Lift(body[1..])
  }

  lemma {:induction false} VRunBodyAppend(v: View, a: seq<Cmd>, b: seq<Cmd>)
    ensures VRunBody(v, a + b) == VRunBody(VRunBody(v, a), b)
    decreases |a|
  {
    if a == [] {
      assert a + b == b;
    } else {
      assert (a + b)[0] == a[0] && (a + b)[1..] == a[1..] + b;
      VRunBodyAppend(VStep(v, a[0]), a[1..], b);
    }
  }

  lemma {:induction false} VExecAppend(v: View, p: seq<Instr>, q: seq<Instr>, fuel: nat)
    ensures VExec(v, p + q, fuel) ==
      match VExec(v, p, fuel)
      case None => None
      case Some(w) => VExec(w, q, fuel)
    decreases |p|
  {
    if p == [] {
      assert p + q == q;
    } else {
      assert (p + q)[0] == p[0] && (p + q)[1..] == p[1..] + q;
      match VExecOne(v, p[0], fuel)
      case None =>
      case Some(w) => VExecAppend(w, p[1..], q, fuel);
    }
  }

  lemma {:induction false} VExecLift(v: View, body: seq<Cmd>, fuel: nat)
    ensures VExec(v, Lift(body), fuel) == Some(VRunBody(v, body))
    decreases |body|
  {
    if body != [] {
      VExecLift(VStep(v, body[0]), body[1..], fuel);
    }
  }

  /** k increments add k to the current cell (growing the tape up to it). */
  lemma {:induction false} RunIncrs(v: View, k: nat)
    requires k > 0
    ensures VRunBody(v, Times(Incr, k)) == V(v.ptr, Put(v.cells, v.ptr, VGet(v) + k), v.out)
    decreases k
  {
    var w := VStep(v, Incr);
    if k > 1 {
      RunIncrs(w, k - 1);
      assert Put(w.cells, v.ptr, VGet(w) + (k - 1)) == Put(v.cells, v.ptr, VGet(v) + k);
    }
  }

  /** k decrements take k from the current cell, stopping at zero. */
  lemma {:induction false} RunDecrs(v: View, k: nat)
    requires k > 0
    ensures VRunBody(v, Times(Decr, k)) ==
      V(v.ptr, Put(v.cells, v.ptr, if VGet(v) <= k then 0 else VGet(v) - k), v.out)
    decreases k
  {
    var w := VStep(v, Decr);
    if k > 1 {
      RunDecrs(w, k - 1);
      assert Put(w.cells, v.ptr, if VGet(w) <= k - 1 then 0 else VGet(w) - (k - 1))
          == Put(v.cells, v.ptr, if VGet(v) <= k then 0 else VGet(v) - k);
    }
  }

  /** k moves right add k to the pointer; the tape grows only when a cell
      is updated. */
  lemma {:induction false} RunRights(v: View, k: nat)
    ensures VRunBody(v, Times(MoveRight, k)) == V(v.ptr + k, v.cells, v.out)
    decreases k
  {
    if k > 0 {
      RunRights(VStep(v, MoveRight), k - 1);
    }
  }

  /** k moves left take k from the pointer, stopping at cell 0. */
  lemma {:induction false} RunLefts(v: View, k: nat)
    ensures VRunBody(v, Times(MoveLeft, k)) == V(if v.ptr <= k then 0 else v.ptr - k, v.cells, v.out)
    decreases k
  {
    if k > 0 {
      RunLefts(VStep(v, MoveLeft), k - 1);
    }
  }
}
