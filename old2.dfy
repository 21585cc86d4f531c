/** The earlier draft of the number, list and tape layer (`src/old2.rs`).
    Its structures are those of the live version, and so are `Index`,
    `Len`, `Push` and the listing of values, which this module takes from
    `LinkedList`. What differs is `Operation<Sub>`: it has a case for
    `NextNumber` only, so decrementing a zero cell or moving left from
    cell 0 does not type-check. Here that is a precondition where the live
    version saturates, and each operation is proved to agree with the live
    one wherever it is defined. */
module Old2 {
  import opened Numbers
  import opened Wrappers
  import opened LinkedList
  import Indexed
  import Brainfuck
  import I = Instructions
  import Runs

  /** Whether `Operation<op>` has an impl for `n`: Add always, Sub only for
      a successor. */
  predicate Defined(n: Num, op: Op)
  {
    op == Add || n.Next?
  }

  /** `Operation<Op>::Output`: Add is the successor, Sub the predecessor. */
  function Apply(n: Num, op: Op): (r: Num)
    requires Defined(n, op)
    ensures op == Add ==> Eval(r) == Eval(n) + 1
    ensures op == Sub ==> Eval(r) + 1 == Eval(n)
  {
    match op
    case Add => Next(n)
    case Sub => n.prev
  }

  /** Where the draft's operator is defined, it is the live one. */
  lemma ApplyAgrees(n: Num, op: Op)
    requires Defined(n, op)
    ensures Apply(n, op) == Numbers.Apply(n, op)
    ensures Numbers.Apply(n, op) != Zero || op == Sub
  {
  }

  /** The unit tests of the draft's `numbers`: Add three times gives 3,
      Add Add Sub gives 1. */
  lemma NumberTests()
    ensures Eval(Apply(Apply(Apply(Zero, Add), Add), Add)) == 3
    ensures Eval(Apply(Apply(Apply(Zero, Add), Add), Sub)) == 1
  {
  }

  /** The value `op` gives for the cell value `k`, where defined. */
  function Updated(k: nat, op: Op): nat
    requires op == Add || k > 0
  {
    if op == Add then k + 1 else k - 1
  }

  lemma {:induction false} PutCons(v: nat, s: seq<nat>, i: nat, x: nat)
    requires i > 0
    ensures Put([v] + s, i, x) == [v] + Put(s, i - 1, x)
  {
    var a, b := Put([v] + s, i, x), [v] + Put(s, i - 1, x);
    assert |a| == |b|;
    forall j | 0 <= j < |a|
      ensures a[j] == b[j]
    {
      if j > 0 {
        assert b[j] == Put(s, i - 1, x)[j - 1];
      }
    }
  }

  /** `LLOp<Op, Idx>` of the draft: the element at `i` is updated, and an
      `End` met on the way is grown by one zero cell. Sub needs a nonzero
      cell, which excludes every index past the end. */
  function LLOp(l: List, op: Op, i: nat): (r: List)
    requires op == Add || CellAt(ToVec(l), i) > 0
    ensures ToVec(r) == Put(ToVec(l), i, Updated(CellAt(ToVec(l), i), op))
    decreases i
  {
    match l
    case End =>
      if i == 0 then Node(1, End)
      else
        var r := Node(0, LLOp(End, op, i - 1));
        PutCons(0, [], i, Updated(0, op));
        r
    case Node(v, next) =>
      if i == 0 then Node(Updated(v, op), next)
      else
        var r := Node(v, LLOp(next, op, i - 1));
        PutCons(v, ToVec(next), i, Updated(CellAt(ToVec(l), i), op));
        r
  }

  /** Where the draft's `LLOp` is defined, it is the live one. */
  lemma LLOpAgrees(l: List, op: Op, i: nat)
    requires op == Add || CellAt(ToVec(l), i) > 0
    ensures LLOp(l, op, i) == LinkedList.LLOp(l, op, i)
  {
    LLOpValues(l, op, i);
    ToVecInjective(LLOp(l, op, i), LinkedList.LLOp(l, op, i));
  }

  /** `VecOp<Op>` of the draft: the cell under the pointer is updated, the
      pointer stays. */
  function VecOp(t: Indexed.Tape, op: Op): (r: Indexed.Tape)
    requires op == Add || Indexed.Get(t) > 0
    ensures r.ptr == t.ptr
    ensures Indexed.Data(r) == Put(Indexed.Data(t), t.ptr, Updated(Indexed.Get(t), op))
  {
    Indexed.Tape(t.ptr, LLOp(t.cells, op, t.ptr))
  }

  /** `IndexOp<Op>` of the draft: the pointer moves, the cells stay; there
      is no move left from cell 0. */
  function IndexOp(t: Indexed.Tape, op: Op): (r: Indexed.Tape)
    requires op == Add || t.ptr > 0
    ensures r.cells == t.cells
    ensures r.ptr == Updated(t.ptr, op)
  {
    Indexed.Tape(Updated(t.ptr, op), t.cells)
  }

  /** Whether an instruction alias type-checks on a tape. */
  predicate Allowed(t: Indexed.Tape, c: I.Cmd)
  {
    match c
    case Decr => Indexed.Get(t) > 0
    case MoveLeft => t.ptr > 0
    case _ => true
  }

  /** The live version's step on a tape, which saturates. */
  function Saturating(t: Indexed.Tape, c: I.Cmd): Indexed.Tape
  {
    match c
    case Incr => Indexed.VecOp(t, Add)
    case Decr => Indexed.VecOp(t, Sub)
    case MoveRight => Indexed.IndexOp(t, Add)
    case MoveLeft => Indexed.IndexOp(t, Sub)
  }

  /** The aliases `Incr<Data>`, `Decr<Data>`, `MoveRight<Data>`,
      `MoveLeft<Data>`: where they type-check they are the live step. */
  function Step(t: Indexed.Tape, c: I.Cmd): (r: Indexed.Tape)
    requires Allowed(t, c)
    ensures r == Saturating(t, c)
  {
    match c
    case Incr =>
      LLOpAgrees(t.cells, Add, t.ptr);
      VecOp(t, Add)
    case Decr =>
      LLOpAgrees(t.cells, Sub, t.ptr);
      VecOp(t, Sub)
    case MoveRight => IndexOp(t, Add)
    case MoveLeft => IndexOp(t, Sub)
  }

  /** `actions!(Ram > c1 > c2 > ...)`: `None` where some alias does not
      type-check. */
  function Run(t: Indexed.Tape, cmds: seq<I.Cmd>): Option<Indexed.Tape>
    decreases |cmds|
  {
    if cmds == [] then Some(t)
    else if !Allowed(t, cmds[0]) then None
    else Run(Step(t, cmds[0]), cmds[1..])
  }

  /** The live run on a tape. */
  function SatRun(t: Indexed.Tape, cmds: seq<I.Cmd>): Indexed.Tape
    decreases |cmds|
  {
    if cmds == [] then t else SatRun(Saturating(t, cmds[0]), cmds[1..])
  }

  /** Whether the live run ever decrements a zero cell or moves left from
      cell 0. */
  predicate Clamps(t: Indexed.Tape, cmds: seq<I.Cmd>)
    decreases |cmds|
  {
    cmds != [] && (!Allowed(t, cmds[0]) || Clamps(Saturating(t, cmds[0]), cmds[1..]))
  }

  /** The draft runs a sequence of aliases exactly when the live version
      never saturates on it, and then to the same tape. */
  lemma {:induction false} RunAgrees(t: Indexed.Tape, cmds: seq<I.Cmd>)
    ensures Run(t, cmds) == if Clamps(t, cmds) then None else Some(SatRun(t, cmds))
    decreases |cmds|
  {
    if cmds != [] && Allowed(t, cmds[0]) {
      RunAgrees(Step(t, cmds[0]), cmds[1..]);
    }
  }

  /** The live run on a tape is the Ram of the live machine's run. */
  lemma {:induction false} SatRunLive(s: Brainfuck.Interpreter, cmds: seq<I.Cmd>)
    ensures I.RunBody(s, cmds).ram == SatRun(s.ram, cmds)
    decreases |cmds|
  {
    if cmds != [] {
      assert I.Step(s, cmds[0]).ram == Saturating(s.ram, cmds[0]);
      SatRunLive(I.Step(s, cmds[0]), cmds[1..]);
    }
  }

  /** A live step on a tape, read as a pointer and cell values. */
  lemma TapeStepView(t: Indexed.Tape, c: I.Cmd)
    ensures var w := Runs.VStep(Runs.V(t.ptr, Indexed.Data(t), []), c);
      Saturating(t, c).ptr == w.ptr && Indexed.Data(Saturating(t, c)) == w.cells
  {
    Runs.StepView(Brainfuck.InterpreterBase(t, Indexed.EmptyIndexed), c);
  }

  /** One alias that type-checks, then the rest. */
  lemma RunCons(t: Indexed.Tape, c: I.Cmd, rest: seq<I.Cmd>, ptr: nat, cells: seq<nat>) returns (u: Indexed.Tape)
    requires Allowed(t, c)
    requires var w := Runs.VStep(Runs.V(t.ptr, Indexed.Data(t), []), c); w.ptr == ptr && w.cells == cells
    ensures Run(t, [c] + rest) == Run(u, rest)
    ensures u.ptr == ptr && Indexed.Data(u) == cells
  {
    u := Step(t, c);
    TapeStepView(t, c);
    assert ([c] + rest)[1..] == rest;
  }

  /** `+ > >` on `EmptyIndexed`, before any `rest`. */
  lemma BasicPrefix(t: Indexed.Tape, rest: seq<I.Cmd>) returns (u: Indexed.Tape)
    requires t.ptr == 0 && Indexed.Data(t) == []
    ensures Run(t, [I.Incr, I.MoveRight, I.MoveRight] + rest) == Run(u, rest)
    ensures u.ptr == 2 && Indexed.Data(u) == [1]
  {
    var r2 := [I.MoveRight] + rest;
    var r1 := [I.MoveRight] + r2;
    assert [I.Incr, I.MoveRight, I.MoveRight] + rest == [I.Incr] + r1;
    assert CellAt([], 0) == 0 && Put([], 0, 1) == [1];
    var t1 := RunCons(t, I.Incr, r1, 0, [1]);
    var t2 := RunCons(t1, I.MoveRight, r2, 1, [1]);
    u := RunCons(t2, I.MoveRight, rest, 2, [1]);
  }

  /** `+` at cell 2 past the end of [1], before any `rest`. */
  lemma BasicGrow(u: Indexed.Tape, rest: seq<I.Cmd>) returns (w: Indexed.Tape)
    requires u.ptr == 2 && Indexed.Data(u) == [1]
    ensures Run(u, [I.Incr] + rest) == Run(w, rest)
    ensures Indexed.Data(w) == [1, 0, 1] && w.ptr == 2
  {
    assert CellAt([1], 2) == 0 && Put([1], 2, 1) == [1, 0, 1];
    w := RunCons(u, I.Incr, rest, 2, [1, 0, 1]);
  }

  /** `+ +` from the pointer at 2 over cells [1], before any `rest`. */
  lemma BasicTwoIncrs(u: Indexed.Tape, rest: seq<I.Cmd>) returns (w: Indexed.Tape)
    requires u.ptr == 2 && Indexed.Data(u) == [1]
    ensures Run(u, [I.Incr, I.Incr] + rest) == Run(w, rest)
    ensures Indexed.Data(w) == [1, 0, 2] && w.ptr == 2
  {
    var r1 := [I.Incr] + rest;
    assert [I.Incr, I.Incr] + rest == [I.Incr] + r1;
    var t1 := BasicGrow(u, r1);
    w := BasicBump(t1, rest);
  }

  /** `+` on cell 2 of [1, 0, 1], before any `rest`. */
  lemma BasicBump(u: Indexed.Tape, rest: seq<I.Cmd>) returns (w: Indexed.Tape)
    requires u.ptr == 2 && Indexed.Data(u) == [1, 0, 1]
    ensures Run(u, [I.Incr] + rest) == Run(w, rest)
    ensures Indexed.Data(w) == [1, 0, 2] && w.ptr == 2
  {
    assert CellAt([1, 0, 1], 2) == 1 && Put([1, 0, 1], 2, 2) == [1, 0, 2];
    w := RunCons(u, I.Incr, rest, 2, [1, 0, 2]);
  }

  /** `< +` from the pointer at 2 over cells [1, 0, 2], before any `rest`. */
  lemma BasicLeftIncr(u: Indexed.Tape, rest: seq<I.Cmd>) returns (w: Indexed.Tape)
    requires u.ptr == 2 && Indexed.Data(u) == [1, 0, 2]
    ensures Run(u, [I.MoveLeft, I.Incr] + rest) == Run(w, rest)
    ensures Indexed.Data(w) == [1, 1, 2] && w.ptr == 1
  {
    var r1 := [I.Incr] + rest;
    assert [I.MoveLeft, I.Incr] + rest == [I.MoveLeft] + r1;
    var t1 := RunCons(u, I.MoveLeft, r1, 1, [1, 0, 2]);
    assert CellAt([1, 0, 2], 1) == 0 && Put([1, 0, 2], 1, 1) == [1, 1, 2];
    w := RunCons(t1, I.Incr, rest, 1, [1, 1, 2]);
  }

  /** `< +` to the end of the program. */
  lemma BasicLast(v: Indexed.Tape, last: seq<I.Cmd>)
    requires v.ptr == 2 && Indexed.Data(v) == [1, 0, 2]
    requires last == [I.MoveLeft, I.Incr]
    ensures Run(v, last).Some?
    ensures Indexed.Data(Run(v, last).value) == [1, 1, 2] && Run(v, last).value.ptr == 1
  {
    assert last == [I.MoveLeft, I.Incr] + [];
    var w := BasicLeftIncr(v, []);
  }

  /** `+ + < +` to the end of the program. */
  lemma BasicRest(u: Indexed.Tape, rest: seq<I.Cmd>)
    requires u.ptr == 2 && Indexed.Data(u) == [1]
    requires rest == [I.Incr, I.Incr, I.MoveLeft, I.Incr]
    ensures Run(u, rest).Some?
    ensures Indexed.Data(Run(u, rest).value) == [1, 1, 2] && Run(u, rest).value.ptr == 1
  {
    var last := [I.MoveLeft, I.Incr];
    assert rest == [I.Incr, I.Incr] + last;
    var v := BasicTwoIncrs(u, last);
    BasicLast(v, last);
  }

  /** `basic_brainfuck`: `+ > > + + < +` on `EmptyIndexed` (or any tape at
      cell 0 with no cells) leaves cells [1, 1, 2] with the pointer at 1. */
  lemma BasicBrainfuck(t: Indexed.Tape, cmds: seq<I.Cmd>)
    requires t.ptr == 0 && Indexed.Data(t) == []
    requires cmds == [I.Incr, I.MoveRight, I.MoveRight, I.Incr, I.Incr, I.MoveLeft, I.Incr]
    ensures Run(t, cmds).Some?
    ensures Indexed.Data(Run(t, cmds).value) == [1, 1, 2] && Run(t, cmds).value.ptr == 1
  {
    var rest := [I.Incr, I.Incr, I.MoveLeft, I.Incr];
    assert cmds == [I.Incr, I.MoveRight, I.MoveRight] + rest;
    var u := BasicPrefix(t, rest);
    BasicRest(u, rest);
  }
}
