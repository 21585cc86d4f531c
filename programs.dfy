/** Whole programs: the loop tests of `instructions`, the general facts
    behind them (`[-]` clears a cell in exactly as many runs as its value,
    `[>+<-]` moves a value one cell to the right), and the Hello-World
    program of `main`. Each is worked out on the sequence reading of
    `Runs` and carried over to the machine by `Runs.ExecView`. */
module Programs {
  import opened Numbers
  import opened Wrappers
  import opened LinkedList
  import opened Brainfuck
  import opened Instructions
  import opened Runs
  import Utf8

  lemma {:induction false} VIterateLast(v: View, body: seq<Cmd>, k: nat)
    ensures VIterate(v, body, k + 1) == VRunBody(VIterate(v, body, k), body)
    decreases k
  {
    if k > 0 {
      VIterateLast(VRunBody(v, body), body, k - 1);
    }
  }

  lemma VExecLoopOnly(v: View, body: seq<Cmd>, fuel: nat)
    ensures VExec(v, [Loop(body)], fuel) == VRunLoop(v, body, fuel)
  {
  }

  lemma OneStep(v: View, c: Cmd)
    ensures VRunBody(v, [c]) == VStep(v, c)
  {
    assert [c][1..] == [];
  }

  lemma PutPut(s: seq<nat>, i: nat, a: nat, b: nat)
    ensures Put(Put(s, i, a), i, b) == Put(s, i, b)
  {
  }

  /** After `k` runs of `-` the cell has lost `k`, and nothing else moved. */
  lemma {:induction false} ClearIterate(v: View, k: nat)
    requires k <= VGet(v)
    ensures VIterate(v, [Decr], k) ==
      if k == 0 then v else V(v.ptr, Put(v.cells, v.ptr, VGet(v) - k), v.out)
    decreases k
  {
    if k > 0 {
      ClearIterate(v, k - 1);
      VIterateLast(v, [Decr], k - 1);
      var prev := if k == 1 then v.cells else Put(v.cells, v.ptr, VGet(v) - (k - 1));
      var w := V(v.ptr, prev, v.out);
      assert VIterate(v, [Decr], k - 1) == w;
      OneStep(w, Decr);
      if k > 1 {
        PutPut(v.cells, v.ptr, VGet(v) - (k - 1), VGet(v) - k);
      }
    }
  }

  /** `[-]` from a cell holding `x`: the body runs exactly `x` times, the
      cell ends at zero, and nothing else changes. With no more than `x`
      checks the loop does not finish. */
  lemma ClearLoop(v: View, fuel: nat)
    ensures VRunLoop(v, [Decr], fuel) ==
      if fuel <= VGet(v) then None
      else if VGet(v) == 0 then Some(v)
      else Some(V(v.ptr, Put(v.cells, v.ptr, 0), v.out))
  {
    var x := VGet(v);
    forall k | 0 <= k < x
      ensures VGet(VIterate(v, [Decr], k)) != 0
    {
      ClearIterate(v, k);
    }
    ClearIterate(v, x);
    VRunLoopIterates(v, [Decr], fuel, x);
  }

  /** The body of `[>+<-]`. */
  const TransferBody: seq<Cmd> := [MoveRight, Incr, MoveLeft, Decr]

  /** One run of `>+<-` on two cells, the first non-zero. */
  lemma TransferOnce(a: nat, b: nat, out: seq<nat>)
    requires a > 0
    ensures VRunBody(V(0, [a, b], out), TransferBody) == V(0, [a - 1, b + 1], out)
  {
    var t := TransferBody;
    assert t[1..] == [Incr, MoveLeft, Decr] && t[2..] == [MoveLeft, Decr] && t[3..] == [Decr] && t[4..] == [];
    assert Put([a, b], 1, b + 1) == [a, b + 1];
    assert Put([a, b + 1], 0, a - 1) == [a - 1, b + 1];
  }

  /** One run of `>+<-` on a single non-zero cell: the tape grows. */
  lemma TransferFirst(n: nat, out: seq<nat>)
    requires n > 0
    ensures VRunBody(V(0, [n], out), TransferBody) == V(0, [n - 1, 1], out)
  {
    var t := TransferBody;
    assert t[1..] == [Incr, MoveLeft, Decr] && t[2..] == [MoveLeft, Decr] && t[3..] == [Decr] && t[4..] == [];
    assert Put([n], 1, 1) == [n, 1];
    assert Put([n, 1], 0, n - 1) == [n - 1, 1];
  }

  /** After `k` runs of the body, `k` has moved from the first cell to the
      second (the `Iter1` .. `Iter9` states of the source's test). */
  lemma {:induction false} TransferIterate(n: nat, out: seq<nat>, k: nat)
    requires 0 < k <= n
    ensures VIterate(V(0, [n], out), TransferBody, k) == V(0, [n - k, k], out)
    decreases k
  {
    VIterateLast(V(0, [n], out), TransferBody, k - 1);
    if k == 1 {
      TransferFirst(n, out);
    } else {
      TransferIterate(n, out, k - 1);
      TransferOnce(n - (k - 1), k - 1, out);
    }
  }

  /** `[>+<-]` from a single cell holding `n`: the body runs exactly `n`
      times and the value ends up in the second cell, the first cleared. */
  lemma TransferLoop(n: nat, out: seq<nat>, fuel: nat)
    requires fuel > n
    ensures VRunLoop(V(0, [n], out), TransferBody, fuel) ==
      Some(if n == 0 then V(0, [0], out) else V(0, [0, n], out))
  {
    var v := V(0, [n], out);
    forall k | 0 <= k < n
      ensures VGet(VIterate(v, TransferBody, k)) != 0
    {
      if k > 0 {
        TransferIterate(n, out, k);
      }
    }
    if n > 0 {
      TransferIterate(n, out, n);
    }
    VRunLoopIterates(v, TransferBody, fuel, n);
  }

  /** Running a program is running its first instruction and then the rest. */
  lemma ExecCons(v: View, prog: seq<Instr>, fuel: nat, w: View)
    requires prog != [] && VExecOne(v, prog[0], fuel) == Some(w)
    ensures VExec(v, prog, fuel) == VExec(w, prog[1..], fuel)
  {
  }

  /** `test_loop`: `[-]>+.` on the tape [3] leaves cells [0, 1] with the
      pointer on cell 1, and prints 1. */
  lemma TestLoop(s: Interpreter, prog: seq<Instr>, fuel: nat)
    requires s == St(0, [3], []) && prog == [Loop([Decr]), Simple(MoveRight), Simple(Incr), Print]
    requires fuel > 3
    ensures ViewOfOpt(Exec(s, prog, fuel)) == Some(V(1, [0, 1], [1]))
  {
    ExecView(s, prog, fuel);
    var v0, v1, v2, v3 := V(0, [3], []), V(0, [0], []), V(1, [0], []), V(1, [0, 1], []);
    ClearLoop(v0, fuel);
    assert Put([3], 0, 0) == [0];
    ExecCons(v0, prog, fuel, v1);
    assert prog[1..][0] == Simple(MoveRight);
    ExecCons(v1, prog[1..], fuel, v2);
    assert Put([0], 1, 1) == [0, 1];
    assert prog[1..][1..] == [Simple(Incr), Print];
    ExecCons(v2, [Simple(Incr), Print], fuel, v3);
    assert VGet(v3) == 1 && v3.out + [VGet(v3)] == [1];
    ExecCons(v3, [Print], fuel, V(1, [0, 1], [1]));
  }

  /** `test_loop2`: `++[-]+` on the empty machine leaves the cells [1]. */
  lemma TestLoop2(s: Interpreter, prog: seq<Instr>, fuel: nat)
    requires s == Empty && prog == [Simple(Incr), Simple(Incr), Loop([Decr]), Simple(Incr)]
    requires fuel > 2
    ensures ViewOfOpt(Exec(s, prog, fuel)) == Some(V(0, [1], []))
  {
    assert ViewOf(Empty) == V(0, [], []);
    ExecView(s, prog, fuel);
    assert Put([], 0, 1) == [1];
    ExecCons(V(0, [], []), prog, fuel, V(0, [1], []));
    assert Put([1], 0, 2) == [2];
    assert prog[1..] == [Simple(Incr), Loop([Decr]), Simple(Incr)];
    ExecCons(V(0, [1], []), prog[1..], fuel, V(0, [2], []));
    ClearLoop(V(0, [2], []), fuel);
    assert Put([2], 0, 0) == [0];
    assert prog[1..][1..] == [Loop([Decr]), Simple(Incr)];
    ExecCons(V(0, [2], []), [Loop([Decr]), Simple(Incr)], fuel, V(0, [0], []));
    assert Put([0], 0, 1) == [1];
    ExecCons(V(0, [0], []), [Simple(Incr)], fuel, V(0, [1], []));
  }

  /** `empty_loop`: `[>-<]` on [0, 1] is checked once and skipped. */
  lemma EmptyLoop(s: Interpreter, prog: seq<Instr>, fuel: nat)
    requires s == St(0, [0, 1], []) && prog == [Loop([MoveRight, Decr, MoveLeft])]
    requires fuel > 0
    ensures ViewOfOpt(Exec(s, prog, fuel)) == Some(V(0, [0, 1], []))
  {
    ExecView(s, prog, fuel);
    ExecCons(V(0, [0, 1], []), prog, fuel, V(0, [0, 1], []));
  }

  /** `test_loop_3`: `[>+<-]` on [9] ends with the cells [0, 9]. */
  lemma TestLoop3(s: Interpreter, prog: seq<Instr>, fuel: nat)
    requires s == St(0, [9], []) && prog == [Loop(TransferBody)]
    requires fuel > 9
    ensures ViewOfOpt(Exec(s, prog, fuel)) == Some(V(0, [0, 9], []))
  {
    ExecView(s, prog, fuel);
    VExecLoopOnly(V(0, [9], []), TransferBody, fuel);
    TransferLoop(9, [], fuel);
  }

  /** `>` followed by `k` times `+`. */
  function Fill(k: nat): (r: seq<Cmd>)
    ensures |r| == k + 1
  {
    Times(MoveRight, 1) + Times(Incr, k)
  }

  /** `>` followed by `k` times `+`: the next cell grows by `k`. */
  lemma FillRun(v: View, k: nat)
    requires k > 0
    ensures VRunBody(v, Fill(k)) ==
      V(v.ptr + 1, Put(v.cells, v.ptr + 1, CellAt(v.cells, v.ptr + 1) + k), v.out)
  {
    var a := Times(MoveRight, 1);
    var b := Times(Incr, k);
    var m := VRunBody(v, a);
    RunRights(v, 1);
    assert m == V(v.ptr + 1, v.cells, v.out);
    assert m.cells == v.cells && m.ptr == v.ptr + 1 && m.out == v.out;
    RunIncrs(m, k);
    assert VGet(m) == CellAt(v.cells, v.ptr + 1);
    VRunBodyAppend(v, a, b);
  }

  /** `<<<<<-`. */
  function Back(): seq<Cmd>
  {
    Times(MoveLeft, 5) + Times(Decr, 1)
  }

  /** `<<<<<-` from the sixth cell. */
  lemma BackRun(c: seq<nat>, out: seq<nat>)
    requires CellAt(c, 0) > 0
    ensures VRunBody(V(5, c, out), Back()) == V(0, Put(c, 0, CellAt(c, 0) - 1), out)
  {
    var v := V(5, c, out);
    var a := Times(MoveLeft, 5);
    var b := Times(Decr, 1);
    var m := VRunBody(v, a);
    RunLefts(v, 5);
    assert m == V(0, c, out);
    RunDecrs(m, 1);
    VRunBodyAppend(v, a, b);
  }

  /** `>` then `ks[0]` times `+`, `>` then `ks[1]` times `+`, and so on. */
  function Fills(ks: seq<nat>): seq<Cmd>
  {
    if ks == [] then [] else Fill(ks[0]) + Fills(ks[1..])
  }

  /** The cells after `Fills(ks)` run from cell `p`: each cell right of `p`
      grows by its amount, padding the tape as it goes. */
  function AddFrom(c: seq<nat>, p: nat, ks: seq<nat>): seq<nat>
    decreases |ks|
  {
    if ks == [] then c else AddFrom(Put(c, p + 1, CellAt(c, p + 1) + ks[0]), p + 1, ks[1..])
  }

  /** Cell by cell, `AddFrom` adds `ks[j - p - 1]` to cell `j` for the
      cells `p + 1` to `p + |ks|`, and leaves the rest alone. */
  lemma {:induction false} AddFromCells(c: seq<nat>, p: nat, ks: seq<nat>)
    ensures |AddFrom(c, p, ks)| == if ks == [] || p + |ks| < |c| then |c| else p + |ks| + 1
    ensures forall j: nat ::
      CellAt(AddFrom(c, p, ks), j) == CellAt(c, j) + (if p + 1 <= j <= p + |ks| then ks[j - p - 1] else 0)
    decreases |ks|
  {
    if ks != [] {
      var c' := Put(c, p + 1, CellAt(c, p + 1) + ks[0]);
      AddFromCells(c', p + 1, ks[1..]);
      forall j: nat
        ensures CellAt(AddFrom(c, p, ks), j) == CellAt(c, j) + (if p + 1 <= j <= p + |ks| then ks[j - p - 1] else 0)
      {
        assert CellAt(c', j) == CellAt(c, j) + (if j == p + 1 then ks[0] else 0);
        if p + 2 <= j <= p + |ks| {
          assert ks[1..][j - p - 2] == ks[j - p - 1];
        }
      }
    }
  }

  lemma {:induction false} FillsRun(v: View, ks: seq<nat>)
    requires forall i :: 0 <= i < |ks| ==> ks[i] > 0
    ensures VRunBody(v, Fills(ks)) == V(v.ptr + |ks|, AddFrom(v.cells, v.ptr, ks), v.out)
    decreases |ks|
  {
    if ks != [] {
      var c' := Put(v.cells, v.ptr + 1, CellAt(v.cells, v.ptr + 1) + ks[0]);
      FillRun(v, ks[0]);
      FillsRun(V(v.ptr + 1, c', v.out), ks[1..]);
      VRunBodyAppend(v, Fill(ks[0]), Fills(ks[1..]));
    }
  }

  /** The loop body of the Hello-World program,
      `>++++++++>+++++++++++>++++>+++++++++>+++++++++++++<<<<<-`. */
  const HelloBody: seq<Cmd> := Fills([8, 11, 4, 9, 13]) + Back()

  /** The cells after one run of that body. */
  function HelloNext(c: seq<nat>): seq<nat>
    requires CellAt(c, 0) > 0
  {
    [CellAt(c, 0) - 1, CellAt(c, 1) + 8, CellAt(c, 2) + 11, CellAt(c, 3) + 4, CellAt(c, 4) + 9, CellAt(c, 5) + 13]
  }

  /** Five fills and the way back, from the first cell. */
  lemma FiveFillsRun(c: seq<nat>, out: seq<nat>, ks: seq<nat>)
    requires |ks| == 5 && forall i :: 0 <= i < |ks| ==> ks[i] > 0
    requires CellAt(c, 0) > 0
    ensures VRunBody(V(0, c, out), Fills(ks) + Back()) ==
      V(0, Put(AddFrom(c, 0, ks), 0, CellAt(c, 0) - 1), out)
  {
    var c5 := AddFrom(c, 0, ks);
    FillsRun(V(0, c, out), ks);
    AddFromCells(c, 0, ks);
    BackRun(c5, out);
    VRunBodyAppend(V(0, c, out), Fills(ks), Back());
  }

  lemma HelloCells(c: seq<nat>, ks: seq<nat>)
    requires |c| <= 6 && CellAt(c, 0) > 0
    requires ks == [8, 11, 4, 9, 13]
    ensures Put(AddFrom(c, 0, ks), 0, CellAt(c, 0) - 1) == HelloNext(c)
  {
    var c5 := AddFrom(c, 0, ks);
    AddFromCells(c, 0, ks);
    var r := Put(c5, 0, CellAt(c, 0) - 1);
    assert |r| == 6;
    forall j | 0 <= j < 6
      ensures r[j] == HelloNext(c)[j]
    {
      assert CellAt(r, j) == r[j];
    }
  }

  /** One run of that body on at most six cells, the first non-zero: the
      first cell loses one and the next five gain 8, 11, 4, 9 and 13. */
  lemma HelloRun(c: seq<nat>, out: seq<nat>)
    requires |c| <= 6 && CellAt(c, 0) > 0
    ensures VRunBody(V(0, c, out), HelloBody) == V(0, HelloNext(c), out)
  {
    FiveFillsRun(c, out, [8, 11, 4, 9, 13]);
    HelloCells(c, [8, 11, 4, 9, 13]);
  }

  /** The cells after `k` runs of the Hello-World loop body from [n]. */
  function HelloCellsAfter(n: nat, k: nat): seq<nat>
    requires k <= n
  {
    [n - k, 8 * k, 11 * k, 4 * k, 9 * k, 13 * k]
  }

  lemma {:induction false} HelloIterate(n: nat, out: seq<nat>, k: nat)
    requires 0 < k <= n
    ensures VIterate(V(0, [n], out), HelloBody, k) == V(0, HelloCellsAfter(n, k), out)
    decreases k
  {
    var prev := if k == 1 then [n] else HelloCellsAfter(n, k - 1);
    VIterateLast(V(0, [n], out), HelloBody, k - 1);
    if k > 1 {
      HelloIterate(n, out, k - 1);
    }
    HelloRun(prev, out);
    assert HelloNext(prev) == HelloCellsAfter(n, k);
  }

  /** The Hello-World loop from [n] runs its body exactly `n` times and
      leaves 8n, 11n, 4n, 9n and 13n in the five cells after the first. */
  lemma HelloLoop(n: nat, out: seq<nat>, fuel: nat)
    requires 0 < n < fuel
    ensures VRunLoop(V(0, [n], out), HelloBody, fuel) == Some(V(0, HelloCellsAfter(n, n), out))
  {
    var v := V(0, [n], out);
    forall k | 0 <= k < n
      ensures VGet(VIterate(v, HelloBody, k)) != 0
    {
      if k > 0 {
        HelloIterate(n, out, k);
      }
    }
    HelloIterate(n, out, n);
    VRunLoopIterates(v, HelloBody, fuel, n);
  }

  /** The pointer after `k` moves in direction `m`. */
  function Moved(p: nat, m: Cmd, k: nat): nat
  {
    if m == MoveRight then p + k else if p <= k then 0 else p - k
  }

  /** A cell value after `k` updates `u`. */
  function Updated(x: nat, u: Cmd, k: nat): nat
  {
    if u == Incr then x + k else if x <= k then 0 else x - k
  }

  /** `k` moves in direction `m`. */
  lemma Moves(v: View, m: Cmd, k: nat)
    requires m == MoveRight || m == MoveLeft
    ensures VRunBody(v, Times(m, k)) == V(Moved(v.ptr, m, k), v.cells, v.out)
  {
    if m == MoveRight {
      RunRights(v, k);
    } else {
      RunLefts(v, k);
    }
  }

  /** `k` updates `u` of the current cell. */
  lemma Updates(v: View, u: Cmd, k: nat)
    requires u == Incr || u == Decr
    requires k > 0
    ensures VRunBody(v, Times(u, k)) == V(v.ptr, Put(v.cells, v.ptr, Updated(VGet(v), u, k)), v.out)
  {
    if u == Incr {
      RunIncrs(v, k);
    } else {
      RunDecrs(v, k);
    }
  }

  /** `k1` moves followed by `k2` updates of the cell they reach. */
  lemma MoveThenUpdate(v: View, m: Cmd, k1: nat, u: Cmd, k2: nat)
    requires m == MoveRight || m == MoveLeft
    requires u == Incr || u == Decr
    requires k2 > 0
    ensures var q := Moved(v.ptr, m, k1);
      VRunBody(v, Times(m, k1) + Times(u, k2)) ==
      V(q, Put(v.cells, q, Updated(CellAt(v.cells, q), u, k2)), v.out)
  {
    var q := Moved(v.ptr, m, k1);
    var a := Times(m, k1);
    var b := Times(u, k2);
    var mid := V(q, v.cells, v.out);
    Moves(v, m, k1);
    Updates(mid, u, k2);
    VRunBodyAppend(v, a, b);
  }

  /** A run of body instructions followed by `.`. */
  function Seg(body: seq<Cmd>): seq<Instr>
  {
    Lift(body) + [Print]
  }

  /** Running `Seg(body)` and then `rest` is running `rest` from where the
      body ends, with the cell it ends on printed. */
  lemma SegThen(v: View, body: seq<Cmd>, w: View, rest: seq<Instr>, fuel: nat)
    requires VRunBody(v, body) == w
    ensures VExec(v, Seg(body) + rest, fuel) == VExec(V(w.ptr, w.cells, w.out + [VGet(w)]), rest, fuel)
  {
    VExecAppend(v, Seg(body), rest, fuel);
    VExecAppend(v, Lift(body), [Print], fuel);
    VExecLift(v, body, fuel);
    assert VExec(w, [Print], fuel) == Some(V(w.ptr, w.cells, w.out + [VGet(w)]));
  }

  /** `Seg` with moves and then updates: the updated cell is printed. */
  lemma SegMoveUpdate(v: View, m: Cmd, k1: nat, u: Cmd, k2: nat, rest: seq<Instr>, fuel: nat)
    requires m == MoveRight || m == MoveLeft
    requires u == Incr || u == Decr
    requires k2 > 0
    ensures var q := Moved(v.ptr, m, k1);
      var x := Updated(CellAt(v.cells, q), u, k2);
      VExec(v, Seg(Times(m, k1) + Times(u, k2)) + rest, fuel) == VExec(V(q, Put(v.cells, q, x), v.out + [x]), rest, fuel)
  {
    var q := Moved(v.ptr, m, k1);
    var x := Updated(CellAt(v.cells, q), u, k2);
    MoveThenUpdate(v, m, k1, u, k2);
    SegThen(v, Times(m, k1) + Times(u, k2), V(q, Put(v.cells, q, x), v.out), rest, fuel);
  }

  /** `Seg` with updates only. */
  lemma SegUpdate(v: View, u: Cmd, k: nat, rest: seq<Instr>, fuel: nat)
    requires u == Incr || u == Decr
    requires k > 0
    ensures var x := Updated(VGet(v), u, k);
      VExec(v, Seg(Times(u, k)) + rest, fuel) == VExec(V(v.ptr, Put(v.cells, v.ptr, x), v.out + [x]), rest, fuel)
  {
    var x := Updated(VGet(v), u, k);
    Updates(v, u, k);
    SegThen(v, Times(u, k), V(v.ptr, Put(v.cells, v.ptr, x), v.out), rest, fuel);
  }

  /** `Seg` with moves only, or with nothing before the `.`. */
  lemma SegMove(v: View, m: Cmd, k: nat, rest: seq<Instr>, fuel: nat)
    requires m == MoveRight || m == MoveLeft
    ensures var q := Moved(v.ptr, m, k);
      VExec(v, Seg(Times(m, k)) + rest, fuel) == VExec(V(q, v.cells, v.out + [CellAt(v.cells, q)]), rest, fuel)
  {
    var q := Moved(v.ptr, m, k);
    Moves(v, m, k);
    SegThen(v, Times(m, k), V(q, v.cells, v.out), rest, fuel);
  }

  /** What the Hello-World program does after its loop,
      `>.>++.+++++++..+++.>----.>+++.>++++.<<<+.-----------.>>>------.<<+.`,
      one segment per `.` (`Times(MoveRight, 0)` is the empty run before
      the second `.` of `..`). */
  const HelloTail: seq<Instr> :=
    Seg(Times(MoveRight, 1)) + (Seg(Fill(2)) + (Seg(Times(Incr, 7)) + (Seg(Times(MoveRight, 0)) + (Seg(Times(Incr, 3))
    + (Seg(Times(MoveRight, 1) + Times(Decr, 4)) + (Seg(Fill(3)) + (Seg(Fill(4))
    + (Seg(Times(MoveLeft, 3) + Times(Incr, 1)) + (Seg(Times(Decr, 11))
    + (Seg(Times(MoveRight, 3) + Times(Decr, 6)) + (Seg(Times(MoveLeft, 2) + Times(Incr, 1)) + [])))))))))))

  /** The characters of "Hello Types!" as byte values. */
  const HelloBytes: seq<nat> := [72, 101, 108, 108, 111, 32, 84, 121, 112, 101, 115, 33]

  /** `>.>++.+++++++.` after the loop: prints "Hel". */
  lemma HelloTailFirst(rest: seq<Instr>, fuel: nat, c0: seq<nat>, o0: seq<nat>)
    requires c0 == [0, 72, 99, 36, 81, 117] && o0 == []
    ensures VExec(V(0, c0, o0), Seg(Times(MoveRight, 1)) + (Seg(Fill(2)) + (Seg(Times(Incr, 7)) + rest)), fuel)
      == VExec(V(2, [0, 72, 108, 36, 81, 117], [72, 101, 108]), rest, fuel)
  {
    var r2 := Seg(Times(Incr, 7)) + rest;
    var r1 := Seg(Fill(2)) + r2;
    var o1 := o0 + [72];
    SegMove(V(0, c0, o0), MoveRight, 1, r1, fuel);
    var c2 := Put(c0, 2, 101);
    var o2 := o1 + [101];
    SegMoveUpdate(V(1, c0, o1), MoveRight, 1, Incr, 2, r2, fuel);
    var c3 := Put(c2, 2, 108);
    var o3 := o2 + [108];
    SegUpdate(V(2, c2, o2), Incr, 7, rest, fuel);
    assert c3 == [0, 72, 108, 36, 81, 117];
    assert o3 == [72, 101, 108];
  }

  /** `.+++.`: prints "lo". */
  lemma HelloTailFirstRest(rest: seq<Instr>, fuel: nat, c3: seq<nat>, o3: seq<nat>)
    requires c3 == [0, 72, 108, 36, 81, 117] && o3 == [72, 101, 108]
    ensures VExec(V(2, c3, o3), Seg(Times(MoveRight, 0)) + (Seg(Times(Incr, 3)) + rest), fuel)
      == VExec(V(2, [0, 72, 111, 36, 81, 117], [72, 101, 108, 108, 111]), rest, fuel)
  {
    var r4 := Seg(Times(Incr, 3)) + rest;
    var o4 := o3 + [108];
    SegMove(V(2, c3, o3), MoveRight, 0, r4, fuel);
    var c5 := Put(c3, 2, 111);
    var o5 := o4 + [111];
    SegUpdate(V(2, c3, o4), Incr, 3, rest, fuel);
    assert c5 == [0, 72, 111, 36, 81, 117];
    assert o5 == [72, 101, 108, 108, 111];
  }

  /** `>----.>+++.>++++.<<<+.`: prints " Typ". */
  lemma HelloTailSecond(rest: seq<Instr>, fuel: nat, c5: seq<nat>, o5: seq<nat>)
    requires c5 == [0, 72, 111, 36, 81, 117] && o5 == [72, 101, 108, 108, 111]
    ensures VExec(V(2, c5, o5),
      Seg(Times(MoveRight, 1) + Times(Decr, 4)) + (Seg(Fill(3)) + (Seg(Fill(4))
      + (Seg(Times(MoveLeft, 3) + Times(Incr, 1)) + rest))), fuel)
      == VExec(V(2, [0, 72, 112, 32, 84, 121], [72, 101, 108, 108, 111, 32, 84, 121, 112]), rest, fuel)
  {
    var r8 := Seg(Times(MoveLeft, 3) + Times(Incr, 1)) + rest;
    var r7 := Seg(Fill(4)) + r8;
    var r6 := Seg(Fill(3)) + r7;
    var c6 := Put(c5, 3, 32);
    var o6 := o5 + [32];
    SegMoveUpdate(V(2, c5, o5), MoveRight, 1, Decr, 4, r6, fuel);
    var c7 := Put(c6, 4, 84);
    var o7 := o6 + [84];
    SegMoveUpdate(V(3, c6, o6), MoveRight, 1, Incr, 3, r7, fuel);
    var c8 := Put(c7, 5, 121);
    var o8 := o7 + [121];
    SegMoveUpdate(V(4, c7, o7), MoveRight, 1, Incr, 4, r8, fuel);
    var c9 := Put(c8, 2, 112);
    var o9 := o8 + [112];
    SegMoveUpdate(V(5, c8, o8), MoveLeft, 3, Incr, 1, rest, fuel);
    assert c9 == [0, 72, 112, 32, 84, 121];
    assert o9 == [72, 101, 108, 108, 111, 32, 84, 121, 112];
  }

  /** `-----------.>>>------.<<+.`: prints "es!". */
  lemma HelloTailThird(fuel: nat, c7: seq<nat>, o9: seq<nat>)
    requires c7 == [0, 72, 112, 32, 84, 121]
    requires o9 == [72, 101, 108, 108, 111, 32, 84, 121, 112]
    ensures VExec(V(2, c7, o9),
      Seg(Times(Decr, 11)) + (Seg(Times(MoveRight, 3) + Times(Decr, 6)) + (Seg(Times(MoveLeft, 2) + Times(Incr, 1)) + [])), fuel)
      == Some(V(3, [0, 72, 101, 33, 84, 115], HelloBytes))
  {
    var r11 := Seg(Times(MoveLeft, 2) + Times(Incr, 1)) + [];
    var r10 := Seg(Times(MoveRight, 3) + Times(Decr, 6)) + r11;
    var c8 := Put(c7, 2, 101);
    var o10 := o9 + [101];
    SegUpdate(V(2, c7, o9), Decr, 11, r10, fuel);
    var c9 := Put(c8, 5, 115);
    var o11 := o10 + [115];
    SegMoveUpdate(V(2, c8, o10), MoveRight, 3, Decr, 6, r11, fuel);
    var c10 := Put(c9, 3, 33);
    var o12 := o11 + [33];
    SegMoveUpdate(V(5, c9, o11), MoveLeft, 2, Incr, 1, [], fuel);
    assert VExec(V(3, c10, o12), [], fuel) == Some(V(3, c10, o12));
    assert c10 == [0, 72, 101, 33, 84, 115];
    assert o12 == HelloBytes;
  }

  /** The Hello-World program of `main`:
      `+++++++++[>++++++++>+++++++++++>++++>+++++++++>+++++++++++++<<<<<-]`
      followed by the printing tail. */
  const HelloProgram: seq<Instr> := Lift(Times(Incr, 9)) + ([Loop(HelloBody)] + HelloTail)

  /** `+++++++++` on the empty machine, before any `rest`. */
  lemma HelloIncrs(fuel: nat, v: View, rest: seq<Instr>, c9: seq<nat>)
    requires v == V(0, [], []) && c9 == [9]
    ensures VExec(v, Lift(Times(Incr, 9)) + rest, fuel) == VExec(V(0, c9, []), rest, fuel)
  {
    var p0 := Lift(Times(Incr, 9));
    VExecAppend(v, p0, rest, fuel);
    VExecLift(v, Times(Incr, 9), fuel);
    RunIncrs(v, 9);
    assert VGet(v) == 0;
    assert Put([], 0, 9) == c9;
  }

  /** The loop from [9], before any `tail`: the cells the printing tail
      starts from. */
  lemma HelloLoopThen(fuel: nat, tail: seq<Instr>, c9: seq<nat>, c: seq<nat>)
    requires fuel > 9 && c9 == [9] && c == [0, 72, 99, 36, 81, 117]
    ensures VExec(V(0, c9, []), [Loop(HelloBody)] + tail, fuel) == VExec(V(0, c, []), tail, fuel)
  {
    var v1 := V(0, c9, []);
    VExecAppend(v1, [Loop(HelloBody)], tail, fuel);
    HelloLoop(9, [], fuel);
    assert HelloCellsAfter(9, 9) == c;
    VExecLoopOnly(v1, HelloBody, fuel);
  }

  /** The printing tail from the cells the loop leaves. */
  lemma HelloTailRun(fuel: nat, c: seq<nat>)
    requires c == [0, 72, 99, 36, 81, 117]
    ensures VExec(V(0, c, []), HelloTail, fuel) == Some(V(3, [0, 72, 101, 33, 84, 115], HelloBytes))
  {
    var rest9 := Seg(Times(Decr, 11)) + (Seg(Times(MoveRight, 3) + Times(Decr, 6)) + (Seg(Times(MoveLeft, 2) + Times(Incr, 1)) + []));
    var rest5 := Seg(Times(MoveRight, 1) + Times(Decr, 4)) + (Seg(Fill(3)) + (Seg(Fill(4))
      + (Seg(Times(MoveLeft, 3) + Times(Incr, 1)) + rest9)));
    var rest3 := Seg(Times(MoveRight, 0)) + (Seg(Times(Incr, 3)) + rest5);
    assert HelloTail == Seg(Times(MoveRight, 1)) + (Seg(Fill(2)) + (Seg(Times(Incr, 7)) + rest3));
    var c3, o3 := [0, 72, 108, 36, 81, 117], [72, 101, 108];
    HelloTailFirst(rest3, fuel, c, []);
    var c5, o5 := [0, 72, 111, 36, 81, 117], [72, 101, 108, 108, 111];
    HelloTailFirstRest(rest5, fuel, c3, o3);
    var c7, o9 := [0, 72, 112, 32, 84, 121], [72, 101, 108, 108, 111, 32, 84, 121, 112];
    HelloTailSecond(rest9, fuel, c5, o5);
    HelloTailThird(fuel, c7, o9);
  }

  /** Run on the empty machine with enough checks for its loop, the program
      leaves the bytes of "Hello Types!" on Output. */
  lemma HelloWorldRun(fuel: nat)
    requires fuel > 9
    ensures ViewOfOpt(Exec(Empty, HelloProgram, fuel)) == Some(V(3, [0, 72, 101, 33, 84, 115], HelloBytes))
  {
    assert ViewOf(Empty) == V(0, [], []);
    ExecView(Empty, HelloProgram, fuel);
    HelloIncrs(fuel, V(0, [], []), [Loop(HelloBody)] + HelloTail, [9]);
    HelloLoopThen(fuel, HelloTail, [9], [0, 72, 99, 36, 81, 117]);
    HelloTailRun(fuel, [0, 72, 99, 36, 81, 117]);
  }

  /** "Hello Types!" is plain ASCII: its UTF-8 encoding is its code points. */
  lemma HelloEncodes(text: string)
    requires text == "Hello Types!"
    ensures Utf8.EncodeAll(text) == HelloBytes
  {
    Utf8.EncodeAscii(text);
    var e := Utf8.EncodeAll(text);
    assert |e| == 12;
    forall i | 0 <= i < 12
      ensures e[i] == HelloBytes[i]
    {
    }
  }

  lemma HelloAreBytes(b: seq<nat>)
    requires b == HelloBytes
    ensures forall i :: 0 <= i < |b| ==> b[i] < 256
  {
  }

  /** Two texts with the same UTF-8 encoding are the same text. */
  lemma EncodeInjective(a: string, b: string)
    requires Utf8.EncodeAll(a) == Utf8.EncodeAll(b)
    ensures a == b
  {
    Utf8.EncodeAllDecodes(a);
    Utf8.EncodeAllDecodes(b);
  }

  /** Output holding the bytes of "Hello Types!" decodes to exactly that
      text. */
  lemma HelloDecodes(l: List, text: string)
    requires ToVec(l) == HelloBytes && text == "Hello Types!"
    ensures ToString(l) == Ok(text)
  {
    HelloEncodes(text);
    Utf8.EncodeAllDecodes(text);
    HelloAreBytes(ToVec(l));
    ToStringSpec(l);
    EncodeInjective(ToString(l).value, text);
  }

  /** `main`: the Hello-World program, run on the empty machine, leaves an
      output that `Debug::string` decodes to "Hello Types!". */
  lemma HelloWorld(fuel: nat)
    requires fuel > 9
    ensures Exec(Empty, HelloProgram, fuel).Some?
    ensures OutputString(Exec(Empty, HelloProgram, fuel).value) == Ok("Hello Types!")
  {
    HelloWorldRun(fuel);
    var s := Exec(Empty, HelloProgram, fuel).value;
    HelloDecodes(s.output.cells, "Hello Types!");
  }
}
