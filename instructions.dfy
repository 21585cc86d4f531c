/** The instruction set and its execution, instruction by instruction,
    over the machine state. A loop `[ body ]` checks the current cell
    before every run of its body, the first included, and ends as soon as
    the cell reads zero. The body of a loop holds only cell updates and
    pointer moves: that is all the encoding can re-run (see TypeChain).

    Executions carry `fuel`, the number of checks any one loop may make:
    a loop that would need more stands for a program the compiler gives
    up on at its recursion limit, and the run yields `None`. */
module Instructions {
  import opened Numbers
  import opened Wrappers
  import Indexed
  import opened Brainfuck

  /** The instructions a loop body may hold. */
  datatype Cmd = Incr | Decr | MoveRight | MoveLeft

  /** A program instruction: a body instruction, Print, or a loop with
      its body. */
  datatype Instr = Simple(cmd: Cmd) | Print | Loop(body: seq<Cmd>)

  /** One body instruction: `Incr`, `Decr` update the current cell,
      `MoveRight`, `MoveLeft` move the pointer. */
  function Step(s: Interpreter, c: Cmd): Interpreter
  {
    match c
    case Incr => VecOp(s, Add)
    case Decr => VecOp(s, Sub)
    case MoveRight => IndexOp(s, Add)
    case MoveLeft => IndexOp(s, Sub)
  }

  /** One run of a loop body, left to right. It never touches Output. */
  function RunBody(s: Interpreter, body: seq<Cmd>): (r: Interpreter)
    ensures r.output == s.output
    decreases |body|
  {
    if body == [] then s else RunBody(Step(s, body[0]), body[1..])
  }

  /** What one check of a loop yields (`Loop<Cond>::LoopOut`). */
  datatype LoopOut = Exit(state: Interpreter) | Again(state: Interpreter)

  /** `Loop<Cond>`: a zero cell ends the loop in the state as it is;
      otherwise the body runs once and the loop is checked again. */
  function LoopCheck(s: Interpreter, body: seq<Cmd>): LoopOut
  {
    if Get(s) == 0 then Exit(s) else Again(RunBody(s, body))
  }

  /** A loop from state `s`, allowed `fuel` checks. */
  function RunLoop(s: Interpreter, body: seq<Cmd>, fuel: nat): Option<Interpreter>
    decreases fuel
  {
    if fuel == 0 then None
    else
      match LoopCheck(s, body)
      case Exit(t) => Some(t)
      case Again(t) => RunLoop(t, body, fuel - 1)
  }

  /** `Execute`: the program run from `s`, instruction by instruction. */
  function Exec(s: Interpreter, prog: seq<Instr>, fuel: nat): Option<Interpreter>
    decreases |prog|
  {
    if prog == [] then Some(s)
    else
      match ExecOne(s, prog[0], fuel)
      case None => None
      case Some(t) => Exec(t, prog[1..], fuel)
  }

  function ExecOne(s: Interpreter, i: Instr, fuel: nat): Option<Interpreter>
  {
    match i
    case Simple(c) => Some(Step(s, c))
    case Print => Some(Brainfuck.Print(s))
    case Loop(body) => RunLoop(s, body, fuel)
  }

  /** The body run `k` times in a row, with no checks: the reference the
      loop is proved against. */
  function Iterate(s: Interpreter, body: seq<Cmd>, k: nat): Interpreter
    decreases k
  {
    if k == 0 then s else Iterate(RunBody(s, body), body, k - 1)
  }

  /** The loop from `s` makes exactly `n` runs of its body: the cell reads
      zero after `n` runs and did not after fewer. */
  ghost predicate ExitsAfter(s: Interpreter, body: seq<Cmd>, n: nat)
  {
    Get(Iterate(s, body, n)) == 0 && forall k :: 0 <= k < n ==> Get(Iterate(s, body, k)) != 0
  }

  lemma {:induction false} IterateLast(s: Interpreter, body: seq<Cmd>, k: nat)
    ensures Iterate(s, body, k + 1) == RunBody(Iterate(s, body, k), body)
    decreases k
  {
    if k > 0 {
      IterateLast(RunBody(s, body), body, k - 1);
    }
  }

  /** Checked against the reference: a loop that runs its body exactly `n`
      times ends in the state `n` runs give when it has more than `n`
      checks to spend, and exhausts its fuel otherwise. */
  lemma {:induction false} RunLoopIterates(s: Interpreter, body: seq<Cmd>, fuel: nat, n: nat)
    requires ExitsAfter(s, body, n)
    ensures RunLoop(s, body, fuel) == if n < fuel then Some(Iterate(s, body, n)) else None
    decreases fuel
  {
    if fuel > 0 && n > 0 {
      assert Get(Iterate(s, body, 0)) != 0;
      var t := RunBody(s, body);
      forall k | 0 <= k < n - 1
        ensures Get(Iterate(t, body, k)) != 0
      {
        assert Iterate(s, body, k + 1) == Iterate(t, body, k);
      }
      RunLoopIterates(t, body, fuel - 1, n - 1);
    }
  }

  /** Conversely, a loop that ends has run its body some number of times
      fewer than its checks, and the cell it stops on reads zero. */
  lemma {:induction false} RunLoopEnds(s: Interpreter, body: seq<Cmd>, fuel: nat)
    requires RunLoop(s, body, fuel).Some?
    ensures exists n: nat :: n < fuel && ExitsAfter(s, body, n) && RunLoop(s, body, fuel) == Some(Iterate(s, body, n))
    decreases fuel
  {
    if Get(s) == 0 {
      assert ExitsAfter(s, body, 0);
    } else {
      var t := RunBody(s, body);
      RunLoopEnds(t, body, fuel - 1);
      var m: nat :| m < fuel - 1 && ExitsAfter(t, body, m) && RunLoop(t, body, fuel - 1) == Some(Iterate(t, body, m));
      forall k | 0 <= k < m + 1
        ensures Get(Iterate(s, body, k)) != 0
      {
        if k > 0 {
          assert Iterate(s, body, k) == Iterate(t, body, k - 1);
        }
      }
      assert ExitsAfter(s, body, m + 1);
    }
  }

  /** The loop is checked before the body runs: from a zero cell it ends at
      once with the state unchanged, and checking it again after it ended
      changes nothing (ninth and tenth iterations of the same loop agree). */
  lemma {:induction false} LoopIsPreTest(s: Interpreter, body: seq<Cmd>, fuel: nat, more: nat)
    requires RunLoop(s, body, fuel).Some? && more > 0
    ensures Get(RunLoop(s, body, fuel).value) == 0
    ensures LoopCheck(RunLoop(s, body, fuel).value, body) == Exit(RunLoop(s, body, fuel).value)
    ensures RunLoop(RunLoop(s, body, fuel).value, body, more) == RunLoop(s, body, fuel)
    ensures RunLoop(s, body, fuel).value.output == s.output
    decreases fuel
  {
    if Get(s) != 0 {
      LoopIsPreTest(RunBody(s, body), body, fuel - 1, more);
    }
  }

  /** More fuel never changes a run that ended. */
  lemma {:induction false} RunLoopFuel(s: Interpreter, body: seq<Cmd>, fuel: nat, more: nat)
    requires RunLoop(s, body, fuel).Some? && fuel <= more
    ensures RunLoop(s, body, more) == RunLoop(s, body, fuel)
    decreases fuel
  {
    if Get(s) != 0 {
      RunLoopFuel(RunBody(s, body), body, fuel - 1, more - 1);
    }
  }

  lemma {:induction false} ExecFuel(s: Interpreter, prog: seq<Instr>, fuel: nat, more: nat)
    requires Exec(s, prog, fuel).Some? && fuel <= more
    ensures Exec(s, prog, more) == Exec(s, prog, fuel)
    decreases |prog|
  {
    if prog != [] {
      if prog[0].Loop? {
        RunLoopFuel(s, prog[0].body, fuel, more);
      }
      ExecFuel(ExecOne(s, prog[0], fuel).value, prog[1..], fuel, more);
    }
  }

  /** Running `p + q` is running `p`, then `q` from where `p` ended. */
  lemma {:induction false} ExecAppend(s: Interpreter, p: seq<Instr>, q: seq<Instr>, fuel: nat)
    ensures Exec(s, p + q, fuel) ==
      match Exec(s, p, fuel)
      case None => None
      case Some(t) => Exec(t, q, fuel)
    decreases |p|
  {
    if p == [] {
      assert p + q == q;
    } else {
      assert (p + q)[0] == p[0] && (p + q)[1..] == p[1..] + q;
      match ExecOne(s, p[0], fuel)
      case None =>
      case Some(t) => ExecAppend(t, p[1..], q, fuel);
    }
  }
}
