/** The first draft of the number, list and interpreter layer
    (`src/old.rs`). Its numbers are those of the second draft: Add is the
    successor and Sub has no case for `Zero` (`Old2.Apply`). Its list is
    the same `End`/`Node` list; `NodeOperator` updates one element and,
    for Add only, grows the list past its end; `ReadNode` reads an element
    that exists. The interpreter is a list and an index, with no output. */
module Old {
  import opened Numbers
  import opened Wrappers
  import opened LinkedList
  import Indexed
  import I = Instructions
  import Runs
  import Old2

  /** Cell `j` of a list with head `v`. */
  lemma CellAtNode(v: nat, l: List, j: nat)
    ensures CellAt(ToVec(Node(v, l)), j) == if j == 0 then v else CellAt(ToVec(l), j - 1)
  {
    assert ToVec(Node(v, l)) == [v] + ToVec(l);
  }

  /** A head `v` in front of two lists that agree off `i - 1` gives two
      lists that agree off `i`. */
  lemma ShiftCells(v: nat, l: List, m: List, i: nat)
    requires i > 0
    requires forall j :: j != i - 1 ==> CellAt(ToVec(m), j) == CellAt(ToVec(l), j)
    ensures forall j :: j != i ==> CellAt(ToVec(Node(v, m)), j) == CellAt(ToVec(Node(v, l)), j)
    ensures CellAt(ToVec(Node(v, m)), i) == CellAt(ToVec(m), i - 1)
    ensures CellAt(ToVec(Node(v, l)), i) == CellAt(ToVec(l), i - 1)
  {
    forall j: nat | j != i
      ensures CellAt(ToVec(Node(v, m)), j) == CellAt(ToVec(Node(v, l)), j)
    {
      CellAtNode(v, m, j);
      CellAtNode(v, l, j);
    }
    CellAtNode(v, m, i);
    CellAtNode(v, l, i);
  }

  /** `NodeOperator<Op, Idx>`: element `i` gets `op`; every other element
      keeps its value, and the list grows to cover `i` with zero cells.
      Sub has no impl on `End`, and none for a zero value, so it needs a
      nonzero element at `i`. */
  function NodeOperator(l: List, op: Op, i: nat): (r: List)
    requires op == Add || CellAt(ToVec(l), i) > 0
    ensures Len(r) == if i < Len(l) then Len(l) else i + 1
    ensures CellAt(ToVec(r), i) == Old2.Updated(CellAt(ToVec(l), i), op)
    ensures forall j :: j != i ==> CellAt(ToVec(r), j) == CellAt(ToVec(l), j)
    decreases i
  {
    match l
    case Node(v, next) =>
      if i == 0 then Node(Old2.Updated(v, op), next)
      else
        var m := NodeOperator(next, op, i - 1);
        ShiftCells(v, next, m, i);
        Node(v, m)
    case End =>
      if i == 0 then Node(1, End)
      else
        var m := NodeOperator(End, Add, i - 1);
        ShiftCells(0, End, m, i);
        assert forall j :: CellAt(ToVec(Node(0, End)), j) == CellAt(ToVec(End), j);
        Node(0, m)
  }

  /** `NodeAdd`/`NodeSub` of the first draft are `LLOp` of the second. */
  lemma NodeOperatorAgrees(l: List, op: Op, i: nat)
    requires op == Add || CellAt(ToVec(l), i) > 0
    ensures NodeOperator(l, op, i) == Old2.LLOp(l, op, i)
  {
    var a, b := ToVec(NodeOperator(l, op, i)), ToVec(Old2.LLOp(l, op, i));
    assert |a| == |b|;
    forall j | 0 <= j < |a|
      ensures a[j] == b[j]
    {
      assert CellAt(a, j) == CellAt(b, j);
    }
    ToVecInjective(NodeOperator(l, op, i), Old2.LLOp(l, op, i));
  }

  /** The `grow_nodes` test: `NodeAdd<End, Zero>` is [1], and
      `NodeAdd` of that at 2 is [1, 0, 1]. */
  lemma GrowNodes()
    ensures ToVec(NodeOperator(End, Add, 0)) == [1]
    ensures ToVec(NodeOperator(NodeOperator(End, Add, 0), Add, 2)) == [1, 0, 1]
  {
    var one := NodeOperator(End, Add, 0);
    var three := NodeOperator(one, Add, 2);
    assert ToVec(one) == [1];
    var s := ToVec(three);
    assert |s| == 3;
    assert CellAt(s, 0) == 1 && CellAt(s, 1) == 0 && CellAt(s, 2) == 1;
  }

  /** `ReadNode<Idx>`: `.0` is the element at `i`, `.1` the list itself;
      there is no impl on `End`, so `i` must be an index of the list. */
  function ReadNode(l: List, i: nat): (r: (nat, List))
    requires i < Len(l)
    ensures r.0 == ToVec(l)[i]
    ensures r.1 == l
    decreases i
  {
    match l
    case Node(v, next) =>
      if i == 0 then (v, l) else (ReadNode(next, i - 1).0, l)
  }

  /** Where `ReadNode` is defined it is the live `Index`. */
  lemma ReadNodeAgrees(l: List, i: nat)
    requires i < Len(l)
    ensures ReadNode(l, i) == Index(l, i)
  {
  }

  /** `Interpreter<Node, Idx>`: the cells and the index, with no output. */
  datatype Interpreter = Interpreter(node: List, idx: nat)

  /** The tape of the second draft holding the same cells and index. */
  function ToTape(it: Interpreter): Indexed.Tape
  {
    Indexed.Tape(it.idx, it.node)
  }

  /** `IndexOperator<Op>`: the index moves, the cells stay; there is no
      move left from index 0. */
  function IndexOperator(it: Interpreter, op: Op): (r: Interpreter)
    requires op == Add || it.idx > 0
    ensures r.node == it.node
    ensures r.idx == Old2.Updated(it.idx, op)
    ensures ToTape(r) == Old2.IndexOp(ToTape(it), op)
  {
    Interpreter(it.node, Old2.Updated(it.idx, op))
  }

  /** `ListOperator<Op>`: `NodeOperator` at the index, which stays. */
  function ListOperator(it: Interpreter, op: Op): (r: Interpreter)
    requires op == Add || CellAt(ToVec(it.node), it.idx) > 0
    ensures r.idx == it.idx
    ensures ToVec(r.node) == Put(ToVec(it.node), it.idx, Old2.Updated(CellAt(ToVec(it.node), it.idx), op))
    ensures ToTape(r) == Old2.VecOp(ToTape(it), op)
  {
    NodeOperatorAgrees(it.node, op, it.idx);
    Interpreter(NodeOperator(it.node, op, it.idx), it.idx)
  }

  /** `data()` and `index()`: the cell values in order and the index. */
  function Data(it: Interpreter): seq<nat>
  {
    ToVec(it.node)
  }

  /** Whether one of the aliases `MoveRight`, `MoveLeft`, `Incr`, `Decr`
      type-checks on an interpreter. */
  predicate Allowed(it: Interpreter, c: I.Cmd)
  {
    match c
    case Decr => CellAt(ToVec(it.node), it.idx) > 0
    case MoveLeft => it.idx > 0
    case _ => true
  }

  /** The aliases: Incr and Decr are `ListOperator`, the moves are
      `IndexOperator`. Each is the second draft's alias on the tape. */
  function Step(it: Interpreter, c: I.Cmd): (r: Interpreter)
    requires Allowed(it, c)
    ensures Old2.Allowed(ToTape(it), c)
    ensures ToTape(r) == Old2.Step(ToTape(it), c)
  {
    match c
    case Incr => ListOperator(it, Add)
    case Decr => ListOperator(it, Sub)
    case MoveRight => IndexOperator(it, Add)
    case MoveLeft => IndexOperator(it, Sub)
  }

  /** `actions!(Base > c1 > c2 > ...)`: `None` where an alias does not
      type-check. */
  function Run(it: Interpreter, cmds: seq<I.Cmd>): Option<Interpreter>
    decreases |cmds|
  {
    if cmds == [] then Some(it)
    else if !Allowed(it, cmds[0]) then None
    else Run(Step(it, cmds[0]), cmds[1..])
  }

  /** The first draft type-checks a sequence of aliases exactly when the
      second does, and then ends on the same cells and index. */
  lemma {:induction false} RunAgrees(it: Interpreter, cmds: seq<I.Cmd>)
    ensures Run(it, cmds).Some? <==> Old2.Run(ToTape(it), cmds).Some?
    ensures Run(it, cmds).Some? ==> ToTape(Run(it, cmds).value) == Old2.Run(ToTape(it), cmds).value
    decreases |cmds|
  {
    if cmds != [] && Allowed(it, cmds[0]) {
      RunAgrees(Step(it, cmds[0]), cmds[1..]);
    }
  }

  /** One alias that type-checks, then the rest. */
  lemma RunCons(it: Interpreter, c: I.Cmd, rest: seq<I.Cmd>, idx: nat, cells: seq<nat>) returns (u: Interpreter)
    requires Allowed(it, c)
    requires var w := Runs.VStep(Runs.V(it.idx, Data(it), []), c); w.ptr == idx && w.cells == cells
    ensures Run(it, [c] + rest) == Run(u, rest)
    ensures u.idx == idx && Data(u) == cells
  {
    u := Step(it, c);
    Old2.TapeStepView(ToTape(it), c);
    assert ([c] + rest)[1..] == rest;
  }

  /** `+` at index 1 past the end of no cells, before any `rest`. */
  lemma ManipulateGrow(it: Interpreter, rest: seq<I.Cmd>) returns (u: Interpreter)
    requires it.idx == 1 && Data(it) == []
    ensures Run(it, [I.Incr] + rest) == Run(u, rest)
    ensures u.idx == 1 && Data(u) == [0, 1]
  {
    assert CellAt([], 1) == 0 && Put([], 1, 1) == [0, 1];
    u := RunCons(it, I.Incr, rest, 1, [0, 1]);
  }

  /** `+` at index 1 of [0, 1], before any `rest`. */
  lemma ManipulateBump(it: Interpreter, rest: seq<I.Cmd>) returns (u: Interpreter)
    requires it.idx == 1 && Data(it) == [0, 1]
    ensures Run(it, [I.Incr] + rest) == Run(u, rest)
    ensures u.idx == 1 && Data(u) == [0, 2]
  {
    assert CellAt([0, 1], 1) == 1 && Put([0, 1], 1, 2) == [0, 2];
    u := RunCons(it, I.Incr, rest, 1, [0, 2]);
  }

  /** `> + +` from index 0 over no cells, before any `rest`. */
  lemma ManipulatePrefix(it: Interpreter, rest: seq<I.Cmd>) returns (u: Interpreter)
    requires it.idx == 0 && Data(it) == []
    ensures Run(it, [I.MoveRight, I.Incr, I.Incr] + rest) == Run(u, rest)
    ensures u.idx == 1 && Data(u) == [0, 2]
  {
    var r2 := [I.Incr] + rest;
    var r1 := [I.Incr] + r2;
    assert [I.MoveRight, I.Incr, I.Incr] + rest == [I.MoveRight] + r1;
    var t1 := RunCons(it, I.MoveRight, r1, 1, []);
    var t2 := ManipulateGrow(t1, r2);
    u := ManipulateBump(t2, rest);
  }

  /** `> +` from index 1 over cells [0, 2], before any `rest`. */
  lemma ManipulateRightIncr(u: Interpreter, rest: seq<I.Cmd>) returns (w: Interpreter)
    requires u.idx == 1 && Data(u) == [0, 2]
    ensures Run(u, [I.MoveRight, I.Incr] + rest) == Run(w, rest)
    ensures Data(w) == [0, 2, 1] && w.idx == 2
  {
    var r1 := [I.Incr] + rest;
    assert [I.MoveRight, I.Incr] + rest == [I.MoveRight] + r1;
    var t1 := RunCons(u, I.MoveRight, r1, 2, [0, 2]);
    w := ManipulateExtend(t1, rest);
  }

  /** `+` at index 2 past the end of [0, 2], before any `rest`. */
  lemma ManipulateExtend(it: Interpreter, rest: seq<I.Cmd>) returns (u: Interpreter)
    requires it.idx == 2 && Data(it) == [0, 2]
    ensures Run(it, [I.Incr] + rest) == Run(u, rest)
    ensures u.idx == 2 && Data(u) == [0, 2, 1]
  {
    assert CellAt([0, 2], 2) == 0 && Put([0, 2], 2, 1) == [0, 2, 1];
    u := RunCons(it, I.Incr, rest, 2, [0, 2, 1]);
  }

  /** `> +` to the end of the program. */
  lemma ManipulateLast(u: Interpreter, last: seq<I.Cmd>)
    requires u.idx == 1 && Data(u) == [0, 2]
    requires last == [I.MoveRight, I.Incr]
    ensures Run(u, last).Some?
    ensures Data(Run(u, last).value) == [0, 2, 1] && Run(u, last).value.idx == 2
  {
    assert last == [I.MoveRight, I.Incr] + [];
    var w := ManipulateRightIncr(u, []);
  }

  /** The `manipulate_list` test and `main`: `> + + > +` from
      `Interpreter<End, Zero>` (or any interpreter at index 0 with no
      cells) gives data [0, 2, 1] and index 2. */
  lemma ManipulateList(it: Interpreter, cmds: seq<I.Cmd>)
    requires it.idx == 0 && Data(it) == []
    requires cmds == [I.MoveRight, I.Incr, I.Incr, I.MoveRight, I.Incr]
    ensures Run(it, cmds).Some?
    ensures Data(Run(it, cmds).value) == [0, 2, 1] && Run(it, cmds).value.idx == 2
  {
    var last := [I.MoveRight, I.Incr];
    assert cmds == [I.MoveRight, I.Incr, I.Incr] + last;
    var u := ManipulatePrefix(it, last);
    ManipulateLast(u, last);
  }
}
