/** The source's own tests and `main`, stated on the chain `bf!` builds
    and evaluated as written: the chain as written agrees with the eager
    semantics on each of them, because each skips a loop on its first
    check only in the state it started from, or never. A five-instruction
    program shows where the two part. */
module ChainRuns {
  import opened Wrappers
  import opened Runs
  import opened Programs
  import opened LinkedList
  import Brainfuck
  import Indexed
  import I = Instructions
  import T = TypeChain

  /** A program with no loop in it. */
  predicate NoLoops(p: seq<I.Instr>)
  {
    forall i :: 0 <= i < |p| ==> !p[i].Loop?
  }

  /** Without loops, the chain as written has nothing to skip. */
  lemma {:induction false} SkipExecNoLoops(s0: T.State, s: T.State, p: seq<I.Instr>, fuel: nat)
    requires NoLoops(p)
    ensures T.SkipExec(s0, s, p, fuel) == I.Exec(s, p, fuel)
    decreases |p|
  {
    if p != [] {
      assert !p[0].Loop?;
      var t := I.ExecOne(s, p[0], fuel).value;
      assert NoLoops(p[1..]) by {
        forall i | 0 <= i < |p[1..]| ensures !p[1..][i].Loop? {
          assert p[1..][i] == p[i + 1];
        }
      }
      SkipExecNoLoops(s0, t, p[1..], fuel);
    }
  }

  /** `SkipExec` of `p + q` runs `p`, then `q` from where `p` ended, with
      the same starting state to fall back to. */
  lemma {:induction false} SkipExecAppend(s0: T.State, s: T.State, p: seq<I.Instr>, q: seq<I.Instr>, fuel: nat)
    ensures T.SkipExec(s0, s, p + q, fuel) ==
      match T.SkipExec(s0, s, p, fuel)
      case None => None
      case Some(t) => T.SkipExec(s0, t, q, fuel)
    decreases |p|
  {
    if p == [] {
      assert p + q == q;
    } else {
      assert (p + q)[0] == p[0] && (p + q)[1..] == p[1..] + q;
      if p[0].Loop? && fuel > 0 && Brainfuck.Get(s) == 0 {
        SkipExecAppend(s0, s0, p[1..], q, fuel);
      } else {
        match I.ExecOne(s, p[0], fuel)
        case None =>
        case Some(t) => SkipExecAppend(s0, t, p[1..], q, fuel);
      }
    }
  }

  /** A program with one loop, `p [ body ] q`: if the loop is entered with
      a nonzero cell, or in the starting state, the chain as written runs
      it exactly as the eager semantics. */
  lemma OneLoopAgrees(s0: T.State, prog: seq<I.Instr>, p: seq<I.Instr>, body: seq<I.Cmd>, q: seq<I.Instr>, fuel: nat, t: T.State)
    requires prog == p + ([I.Loop(body)] + q)
    requires NoLoops(p) && NoLoops(q)
    requires I.Exec(s0, p, fuel) == Some(t)
    requires Brainfuck.Get(t) != 0 || t == s0
    ensures T.Exec(T.Compile(T.Base(s0), prog), fuel, T.AsWritten) == I.Exec(s0, prog, fuel)
  {
    var r := [I.Loop(body)] + q;
    T.AsWrittenRuns(s0, p + r, fuel);
    SkipExecAppend(s0, s0, p, r, fuel);
    SkipExecNoLoops(s0, s0, p, fuel);
    I.ExecAppend(s0, p, r, fuel);
    assert r[0] == I.Loop(body) && r[1..] == q;
    match I.RunLoop(t, body, fuel)
    case None =>
    case Some(u) =>
      SkipExecNoLoops(s0, u, q, fuel);
      SkipExecNoLoops(s0, s0, q, fuel);
  }

  /** `test_loop`: `[-]>+.` from Ram `[3]` leaves Ram `[0, 1]` at index 1. */
  lemma ChainTestLoop(s: T.State, prog: seq<I.Instr>, fuel: nat)
    requires s == St(0, [3], []) && prog == [I.Loop([I.Decr]), I.Simple(I.MoveRight), I.Simple(I.Incr), I.Print]
    requires fuel > 3
    ensures T.Exec(T.Compile(T.Base(s), prog), fuel, T.AsWritten).Some?
    ensures var r := T.Exec(T.Compile(T.Base(s), prog), fuel, T.AsWritten).value;
      Indexed.Data(r.ram) == [0, 1] && r.ram.ptr == 1
  {
    var q := prog[1..];
    assert prog == [] + ([I.Loop([I.Decr])] + q);
    OneLoopAgrees(s, prog, [], [I.Decr], q, fuel, s);
    TestLoop(s, prog, fuel);
  }

  /** `k` increments on the empty machine leave `k` under the pointer. */
  lemma IncrsFromEmpty(k: nat, fuel: nat)
    requires k > 0
    ensures I.Exec(Brainfuck.Empty, Lift(Times(I.Incr, k)), fuel).Some?
    ensures Brainfuck.Get(I.Exec(Brainfuck.Empty, Lift(Times(I.Incr, k)), fuel).value) == k
  {
    var v := V(0, [], []);
    assert ViewOf(Brainfuck.Empty) == v;
    ExecView(Brainfuck.Empty, Lift(Times(I.Incr, k)), fuel);
    VExecLift(v, Times(I.Incr, k), fuel);
    RunIncrs(v, k);
    GetView(I.Exec(Brainfuck.Empty, Lift(Times(I.Incr, k)), fuel).value);
  }

  /** `test_loop2`: `++[-]+` from the empty machine leaves Ram `[1]`. */
  lemma ChainTestLoop2(s: T.State, prog: seq<I.Instr>, fuel: nat)
    requires s == Brainfuck.Empty && prog == [I.Simple(I.Incr), I.Simple(I.Incr), I.Loop([I.Decr]), I.Simple(I.Incr)]
    requires fuel > 2
    ensures T.Exec(T.Compile(T.Base(s), prog), fuel, T.AsWritten).Some?
    ensures Indexed.Data(T.Exec(T.Compile(T.Base(s), prog), fuel, T.AsWritten).value.ram) == [1]
  {
    var p, q := Lift(Times(I.Incr, 2)), prog[3..];
    assert prog == p + ([I.Loop([I.Decr])] + q);
    IncrsFromEmpty(2, fuel);
    OneLoopAgrees(s, prog, p, [I.Decr], q, fuel, I.Exec(s, p, fuel).value);
    TestLoop2(s, prog, fuel);
  }

  /** `empty_loop`: `[>-<]` from Ram `[0, 1]` leaves it as it is. */
  lemma ChainEmptyLoop(s: T.State, prog: seq<I.Instr>, fuel: nat)
    requires s == St(0, [0, 1], []) && prog == [I.Loop([I.MoveRight, I.Decr, I.MoveLeft])]
    requires fuel > 0
    ensures T.Exec(T.Compile(T.Base(s), prog), fuel, T.AsWritten).Some?
    ensures Indexed.Data(T.Exec(T.Compile(T.Base(s), prog), fuel, T.AsWritten).value.ram) == [0, 1]
  {
    assert prog == [] + ([I.Loop([I.MoveRight, I.Decr, I.MoveLeft])] + []);
    OneLoopAgrees(s, prog, [], [I.MoveRight, I.Decr, I.MoveLeft], [], fuel, s);
    EmptyLoop(s, prog, fuel);
  }

  /** `test_loop_3`: `[>+<-]` from Ram `[9]` leaves Ram `[0, 9]`. */
  lemma ChainTestLoop3(s: T.State, prog: seq<I.Instr>, fuel: nat)
    requires s == St(0, [9], []) && prog == [I.Loop(TransferBody)]
    requires fuel > 9
    ensures T.Exec(T.Compile(T.Base(s), prog), fuel, T.AsWritten).Some?
    ensures Indexed.Data(T.Exec(T.Compile(T.Base(s), prog), fuel, T.AsWritten).value.ram) == [0, 9]
  {
    assert prog == [] + ([I.Loop(TransferBody)] + []);
    OneLoopAgrees(s, prog, [], TransferBody, [], fuel, s);
    TestLoop3(s, prog, fuel);
  }

  /** `[>+<-]` from Ram `[9]` runs its body exactly nine times. */
  lemma TransferExits(s: T.State)
    requires s == St(0, [9], [])
    ensures I.ExitsAfter(s, TransferBody, 9)
    ensures forall k :: 0 < k <= 9 ==> ViewOf(I.Iterate(s, TransferBody, k)) == V(0, [9 - k, k], [])
  {
    forall k | 0 < k <= 9
      ensures ViewOf(I.Iterate(s, TransferBody, k)) == V(0, [9 - k, k], [])
    {
      IterateView(s, TransferBody, k);
      TransferIterate(9, [], k);
    }
    forall k | 0 <= k <= 9
      ensures Brainfuck.Get(I.Iterate(s, TransferBody, k)) == 9 - k
    {
      GetView(I.Iterate(s, TransferBody, k));
    }
  }

  lemma CompileOne(t: T.Code, i: I.Instr)
    ensures T.Compile(t, [i]) == T.WrapInstr(t, i)
  {
    assert [i][1..] == [];
    assert T.Compile(T.WrapInstr(t, i), []) == T.WrapInstr(t, i);
  }

  /** The first nine checks of `base_loop_3`. */
  lemma BaseLoop3Runs(s: T.State, body: seq<I.Cmd>, fuel: nat, v: T.Version, k: nat)
    requires s == St(0, [9], []) && body == TransferBody
    requires 0 < k <= 9
    ensures T.Checks(T.Loop0(s, body), k, fuel, v).Some?
    ensures T.Debug(T.Checks(T.Loop0(s, body), k, fuel, v).value) == Some(I.Iterate(s, body, k))
    ensures Indexed.Data(I.Iterate(s, body, k).ram) == [9 - k, k]
  {
    TransferExits(s);
    T.ChecksIterate(s, body, fuel, v, 9, k);
    T.DebugLoop0(I.Iterate(s, body, k), body);
  }

  /** The tenth check of `base_loop_3`. */
  lemma BaseLoop3Exit(s: T.State, body: seq<I.Cmd>, fuel: nat, v: T.Version)
    requires s == St(0, [9], []) && body == TransferBody
    ensures T.Checks(T.Loop0(s, body), 10, fuel, v).Some?
    ensures T.Debug(T.Checks(T.Loop0(s, body), 10, fuel, v).value) == Some(I.Iterate(s, body, 9))
    ensures Indexed.Data(I.Iterate(s, body, 9).ram) == [0, 9]
  {
    TransferExits(s);
    T.ChecksExit(s, body, fuel, v, 9);
  }

  /** `base_loop_3`: the `k`-th `LoopOut` of the loop from Ram `[9]`
      shows Ram `[9 - k, k]` through `Debug` for `k` up to 9, and the
      tenth, after the condition reads zero, still shows `[0, 9]`. */
  lemma BaseLoop3(s: T.State, prog: seq<I.Instr>, fuel: nat, v: T.Version, k: nat)
    requires s == St(0, [9], []) && prog == [I.Loop(TransferBody)]
    requires 0 < k <= 10
    ensures T.Checks(T.Compile(T.Base(s), prog), k, fuel, v).Some?
    ensures var c := T.Checks(T.Compile(T.Base(s), prog), k, fuel, v).value;
      T.Debug(c).Some? &&
      Indexed.Data(T.Debug(c).value.ram) == if k <= 9 then [9 - k, k] else [0, 9]
  {
    CompileOne(T.Base(s), prog[0]);
    if k <= 9 {
      BaseLoop3Runs(s, TransferBody, fuel, v, k);
    } else {
      BaseLoop3Exit(s, TransferBody, fuel, v);
    }
  }

  lemma NoLoopsAppend(p: seq<I.Instr>, q: seq<I.Instr>)
    requires NoLoops(p) && NoLoops(q)
    ensures NoLoops(p + q)
  {
    forall i | 0 <= i < |p + q| ensures !(p + q)[i].Loop? {
      if i < |p| {
        assert (p + q)[i] == p[i];
      } else {
        assert (p + q)[i] == q[i - |p|];
      }
    }
  }

  lemma NoLoopsSeg(body: seq<I.Cmd>, rest: seq<I.Instr>)
    requires NoLoops(rest)
    ensures NoLoops(Seg(body) + rest)
  {
    NoLoopsAppend(Lift(body), [I.Print]);
    NoLoopsAppend(Seg(body), rest);
  }

  /** The Hello-World program after its loop has no loop. */
  lemma HelloTailNoLoops()
    ensures NoLoops(HelloTail)
  {
    var r12 := Seg(Times(I.MoveLeft, 2) + Times(I.Incr, 1)) + [];
    NoLoopsSeg(Times(I.MoveLeft, 2) + Times(I.Incr, 1), []);
    var r11 := Seg(Times(I.MoveRight, 3) + Times(I.Decr, 6)) + r12;
    NoLoopsSeg(Times(I.MoveRight, 3) + Times(I.Decr, 6), r12);
    var r10 := Seg(Times(I.Decr, 11)) + r11;
    NoLoopsSeg(Times(I.Decr, 11), r11);
    var r9 := Seg(Times(I.MoveLeft, 3) + Times(I.Incr, 1)) + r10;
    NoLoopsSeg(Times(I.MoveLeft, 3) + Times(I.Incr, 1), r10);
    var r8 := Seg(Fill(4)) + r9;
    NoLoopsSeg(Fill(4), r9);
    var r7 := Seg(Fill(3)) + r8;
    NoLoopsSeg(Fill(3), r8);
    var r6 := Seg(Times(I.MoveRight, 1) + Times(I.Decr, 4)) + r7;
    NoLoopsSeg(Times(I.MoveRight, 1) + Times(I.Decr, 4), r7);
    var r5 := Seg(Times(I.Incr, 3)) + r6;
    NoLoopsSeg(Times(I.Incr, 3), r6);
    var r4 := Seg(Times(I.MoveRight, 0)) + r5;
    NoLoopsSeg(Times(I.MoveRight, 0), r5);
    var r3 := Seg(Times(I.Incr, 7)) + r4;
    NoLoopsSeg(Times(I.Incr, 7), r4);
    var r2 := Seg(Fill(2)) + r3;
    NoLoopsSeg(Fill(2), r3);
    NoLoopsSeg(Times(I.MoveRight, 1), r2);
    assert HelloTail == Seg(Times(I.MoveRight, 1)) + r2;
  }

  lemma NoLoopsLift(body: seq<I.Cmd>)
    ensures NoLoops(Lift(body))
  {
  }

  /** A program `k` increments, then `[ body ]`, then a loop-free tail, on
      the empty machine: the loop is entered with `k` under the pointer. */
  lemma IncrsThenLoopAgrees(s: T.State, prog: seq<I.Instr>, k: nat, body: seq<I.Cmd>, tail: seq<I.Instr>, fuel: nat)
    requires s == Brainfuck.Empty && k > 0 && NoLoops(tail)
    requires prog == Lift(Times(I.Incr, k)) + ([I.Loop(body)] + tail)
    ensures T.Exec(T.Compile(T.Base(s), prog), fuel, T.AsWritten) == I.Exec(s, prog, fuel)
  {
    var p := Lift(Times(I.Incr, k));
    NoLoopsLift(Times(I.Incr, k));
    IncrsFromEmpty(k, fuel);
    OneLoopAgrees(s, prog, p, body, tail, fuel, I.Exec(s, p, fuel).value);
  }

  /** On the Hello-World program the chain as written is the eager run. */
  lemma ChainHelloAgrees(s: T.State, prog: seq<I.Instr>, fuel: nat)
    requires s == Brainfuck.Empty && prog == HelloProgram
    ensures T.Exec(T.Compile(T.Base(s), prog), fuel, T.AsWritten) == I.Exec(s, prog, fuel)
  {
    HelloTailNoLoops();
    IncrsThenLoopAgrees(s, prog, 9, HelloBody, HelloTail, fuel);
  }

  /** `main` on the chain as written: `Execute<Code>` exists and its
      `GetOutput` decodes to "Hello Types!". */
  lemma ChainHelloWorld(fuel: nat)
    requires fuel > 9
    ensures T.Exec(T.Compile(T.Base(Brainfuck.Empty), HelloProgram), fuel, T.AsWritten).Some?
    ensures Brainfuck.OutputString(T.Exec(T.Compile(T.Base(Brainfuck.Empty), HelloProgram), fuel, T.AsWritten).value)
      == LinkedList.Ok("Hello Types!")
  {
    ChainHelloAgrees(Brainfuck.Empty, HelloProgram, fuel);
    HelloWorld(fuel);
  }

  /** `+>` on the empty machine leaves the pointer on a fresh zero cell. */
  lemma SkipSetup(s: T.State, p: seq<I.Instr>, fuel: nat)
    requires s == Brainfuck.Empty && p == [I.Simple(I.Incr), I.Simple(I.MoveRight)]
    ensures I.Exec(s, p, fuel).Some?
    ensures ViewOf(I.Exec(s, p, fuel).value) == V(1, [1], [])
    ensures Brainfuck.Get(I.Exec(s, p, fuel).value) == 0
  {
    var v0, v1, v2 := V(0, [], []), V(0, [1], []), V(1, [1], []);
    assert ViewOf(s) == v0;
    ExecView(s, p, fuel);
    assert VStep(v0, I.Incr) == v1;
    ExecCons(v0, p, fuel, v1);
    ExecCons(v1, p[1..], fuel, v2);
    assert p[1..][1..] == [];
    GetView(I.Exec(s, p, fuel).value);
  }

  /** `<.` from a pointer at cell 0 or 1: cell 0 is printed. */
  lemma LeftPrint(s: T.State, q: seq<I.Instr>, fuel: nat)
    requires q == [I.Simple(I.MoveLeft), I.Print] && ViewOf(s).ptr <= 1
    ensures I.Exec(s, q, fuel).Some?
    ensures var v := ViewOf(s);
      ViewOf(I.Exec(s, q, fuel).value) == V(0, v.cells, v.out + [CellAt(v.cells, 0)])
  {
    var v := ViewOf(s);
    var w := V(0, v.cells, v.out);
    var x := V(0, v.cells, v.out + [CellAt(v.cells, 0)]);
    ExecView(s, q, fuel);
    ExecCons(v, q, fuel, w);
    ExecCons(w, q[1..], fuel, x);
    assert q[1..][1..] == [];
  }

  /** `SkipExec` of `+>[-]<.`: the skipped loop falls back to the empty
      machine, and `<.` runs from there. */
  lemma SkippedFallsBack(s: T.State, prog: seq<I.Instr>, fuel: nat)
    requires s == Brainfuck.Empty && fuel > 0
    requires prog == [I.Simple(I.Incr), I.Simple(I.MoveRight), I.Loop([I.Decr]), I.Simple(I.MoveLeft), I.Print]
    ensures T.SkipExec(s, s, prog, fuel) == I.Exec(s, prog[3..], fuel)
  {
    var p, r, q := prog[..2], prog[2..], prog[3..];
    assert prog == p + r && r[0] == I.Loop([I.Decr]) && r[1..] == q;
    assert NoLoops(p) && NoLoops(q);
    SkipSetup(s, p, fuel);
    var t := I.Exec(s, p, fuel).value;
    SkipExecAppend(s, s, p, r, fuel);
    SkipExecNoLoops(s, s, p, fuel);
    assert T.SkipExec(s, t, r, fuel) == T.SkipExec(s, s, q, fuel);
    SkipExecNoLoops(s, s, q, fuel);
  }

  /** The chain as written on `+>[-]<.`: `<.` prints the zero of the empty
      machine. */
  lemma SkippedAsWritten(s: T.State, prog: seq<I.Instr>, fuel: nat)
    requires s == Brainfuck.Empty && fuel > 0
    requires prog == [I.Simple(I.Incr), I.Simple(I.MoveRight), I.Loop([I.Decr]), I.Simple(I.MoveLeft), I.Print]
    ensures ViewOfOpt(T.Exec(T.Compile(T.Base(s), prog), fuel, T.AsWritten)) == Some(V(0, [], [0]))
  {
    T.AsWrittenRuns(s, prog, fuel);
    SkippedFallsBack(s, prog, fuel);
    assert ViewOf(s) == V(0, [], []);
    LeftPrint(s, prog[3..], fuel);
  }

  /** The eager run of `+>[-]<.`: the loop leaves the state as it is. */
  lemma SkippedEager(s: T.State, prog: seq<I.Instr>, fuel: nat)
    requires s == Brainfuck.Empty && fuel > 0
    requires prog == [I.Simple(I.Incr), I.Simple(I.MoveRight), I.Loop([I.Decr]), I.Simple(I.MoveLeft), I.Print]
    ensures ViewOfOpt(I.Exec(s, prog, fuel)) == Some(V(0, [1], [1]))
  {
    var p, r, q := prog[..2], prog[2..], prog[3..];
    assert prog == p + r && r[0] == I.Loop([I.Decr]) && r[1..] == q;
    SkipSetup(s, p, fuel);
    var t := I.Exec(s, p, fuel).value;
    I.ExecAppend(s, p, r, fuel);
    assert I.RunLoop(t, [I.Decr], fuel) == Some(t);
    assert I.Exec(t, r, fuel) == I.Exec(t, q, fuel);
    LeftPrint(t, q, fuel);
  }

  /** Where the chain as written goes wrong: `+>[-]<.` on the empty
      machine. The loop is skipped on its first check, on the fresh cell
      right of the 1; as written, `LoopOut` then yields the `Interpreter`
      of the whole chain below it, the empty starting machine, so the 1
      is lost and `.` prints 0. The eager run and the corrected chain
      print the 1. */
  lemma SkippedLoopResets(s: T.State, prog: seq<I.Instr>, fuel: nat)
    requires s == Brainfuck.Empty && fuel > 0
    requires prog == [I.Simple(I.Incr), I.Simple(I.MoveRight), I.Loop([I.Decr]), I.Simple(I.MoveLeft), I.Print]
    ensures ViewOfOpt(T.Exec(T.Compile(T.Base(s), prog), fuel, T.AsWritten)) == Some(V(0, [], [0]))
    ensures ViewOfOpt(T.Exec(T.Compile(T.Base(s), prog), fuel, T.Corrected)) == Some(V(0, [1], [1]))
    ensures ViewOfOpt(I.Exec(s, prog, fuel)) == Some(V(0, [1], [1]))
  {
    SkippedAsWritten(s, prog, fuel);
    SkippedEager(s, prog, fuel);
    T.CorrectedRuns(s, prog, fuel);
  }
}
