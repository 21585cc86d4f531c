/** The program as the source actually represents it: a chain of wrappers
    `Print<MoveLeft<LoopEnd<Decr<LoopStart<Base>>>>>`, innermost first,
    with the four associated items of the `Instruction`, `Loop` and `Get`
    traits as functions on the chain: `Exec` (the state it evaluates to),
    `Create<E>` (the chain rebuilt around a new state), `Interpreter` and
    `Get` (the condition cell). A `LoopEnd` is evaluated by re-instantiating
    its body around its own result, exactly as the `Loop<Cond>` impls do.

    The `Interpreter` of `LoopStart<T>` is `T::Interpreter` in the source,
    which walks past the loop to the base of the whole chain; `Corrected`
    uses `T::Exec`, the state the loop is entered in. The corrected chain
    runs every program exactly as `Instructions.Exec` does; the chain as
    written runs it as `SkipExec`, which differs from it only on a loop
    that is skipped on its first check in a state other than the starting
    one. */
module TypeChain {
  import opened Numbers
  import opened Wrappers
  import Indexed
  import Brainfuck
  import I = Instructions

  type State = Brainfuck.Interpreter

  /** A chain: an `InterpreterBase` state at the bottom, instruction
      wrappers above it. */
  datatype Code =
    | Base(state: State)
    | Incr(prev: Code)
    | Decr(prev: Code)
    | MoveRight(prev: Code)
    | MoveLeft(prev: Code)
    | Print(prev: Code)
    | LoopStart(prev: Code)
    | LoopEnd(prev: Code)

  /** Which `Interpreter` item `LoopStart<T>` has. */
  datatype Version = AsWritten | Corrected

  /** A body instruction wrapped around `t`. */
  function Wrap(c: I.Cmd, t: Code): Code
  {
    match c
    case Incr => Code.Incr(t)
    case Decr => Code.Decr(t)
    case MoveRight => Code.MoveRight(t)
    case MoveLeft => Code.MoveLeft(t)
  }

  /** A loop body wrapped around `t`, its first instruction innermost. */
  function Body(t: Code, body: seq<I.Cmd>): Code
    decreases |body|
  {
    if body == [] then t else Body(Wrap(body[0], t), body[1..])
  }

  /** One program instruction wrapped around `t`; a loop `[ body ]` is
      `LoopEnd<body<LoopStart<t>>>`. */
  function WrapInstr(t: Code, i: I.Instr): Code
  {
    match i
    case Simple(c) => Wrap(c, t)
    case Print => Code.Print(t)
    case Loop(body) => LoopEnd(Body(LoopStart(t), body))
  }

  /** The chain `bf!` builds for a program over the chain `t`. */
  function Compile(t: Code, prog: seq<I.Instr>): Code
    decreases |prog|
  {
    if prog == [] then t else Compile(WrapInstr(t, prog[0]), prog[1..])
  }

  function After(o: Option<State>, c: I.Cmd): Option<State>
  {
    match o
    case None => None
    case Some(s) => Some(I.Step(s, c))
  }

  /** `Create<E>`: the chain rebuilt around the state `e`. Body
      instructions keep their place; `LoopStart`, `Print` and the base are
      replaced by a fresh base holding `e` (under `LoopStart`, `Print`);
      `LoopEnd` by the bare base. */
  function Create(c: Code, e: State): Code
  {
    match c
    case Base(_) => Base(e)
    case Incr(t) => Incr(Create(t, e))
    case Decr(t) => Decr(Create(t, e))
    case MoveRight(t) => MoveRight(Create(t, e))
    case MoveLeft(t) => MoveLeft(Create(t, e))
    case Print(_) => Print(Base(e))
    case LoopStart(_) => LoopStart(Base(e))
    case LoopEnd(_) => Base(e)
  }

  /** `Exec`: the state the chain evaluates to. `None` where the source
      would not compile: a `LoopEnd` needing more than `fuel` checks, or a
      condition read through a `Print`. */
  function Exec(c: Code, fuel: nat, v: Version): Option<State>
    decreases fuel, c, 1
  {
    match c
    case Base(s) => Some(s)
    case Incr(t) => After(Exec(t, fuel, v), I.Incr)
    case Decr(t) => After(Exec(t, fuel, v), I.Decr)
    case MoveRight(t) => After(Exec(t, fuel, v), I.MoveRight)
    case MoveLeft(t) => After(Exec(t, fuel, v), I.MoveLeft)
    case Print(t) =>
      (match Exec(t, fuel, v)
       case None => None
       case Some(s) => Some(Brainfuck.Print(s)))
    case LoopStart(t) => Exec(t, fuel, v)
    case LoopEnd(t) =>
      if fuel == 0 then None
      else
        match LoopOut(t, fuel, v)
        case None => None
        case Some(next) => Exec(next, fuel - 1, v)
  }

  /** `Get`: the condition cell. The body wrappers and `LoopEnd` forward it
      to what they wrap, `LoopStart` reads it from the state it wraps
      evaluates to, and `Print` has none. */
  function Get(c: Code, fuel: nat, v: Version): Option<nat>
    decreases fuel, c, 1
  {
    match c
    case Base(s) => Some(Brainfuck.Get(s))
    case Print(_) => None
    case LoopStart(t) =>
      (match Exec(t, fuel, v)
       case None => None
       case Some(s) => Some(Brainfuck.Get(s)))
    case _ => Get(c.prev, fuel, v)
  }

  /** `Interpreter`: every wrapper forwards it to what it wraps, except
      `LoopStart` in the corrected version, which gives the state it
      wraps evaluates to. */
  function Interp(c: Code, fuel: nat, v: Version): Option<State>
    decreases fuel, c, 1
  {
    if c.Base? then Some(c.state)
    else if c.LoopStart? && v == Corrected then Exec(c.prev, fuel, v)
    else Interp(c.prev, fuel, v)
  }

  /** `<LoopEnd<t> as Loop<GetCondition>>::LoopOut`: on a zero condition
      the base holding `t`'s `Interpreter`; otherwise the loop again, its
      body rebuilt around the state one run of it gives. */
  function LoopOut(t: Code, fuel: nat, v: Version): Option<Code>
    decreases fuel, t, 2
  {
    match Get(t, fuel, v)
    case None => None
    case Some(x) =>
      if x == 0 then
        match Interp(t, fuel, v)
        case None => None
        case Some(s) => Some(Base(s))
      else
        match Exec(t, fuel, v)
        case None => None
        case Some(s) => Some(LoopEnd(Create(t, s)))
  }

  lemma ExecWrap(c: I.Cmd, t: Code, fuel: nat, v: Version)
    ensures Exec(Wrap(c, t), fuel, v) == After(Exec(t, fuel, v), c)
  {
    match c
    case Incr =>
    case Decr =>
    case MoveRight =>
    case MoveLeft =>
  }

  lemma {:induction false} BodyExec(t: Code, body: seq<I.Cmd>, fuel: nat, v: Version)
    ensures Exec(Body(t, body), fuel, v) ==
      match Exec(t, fuel, v)
      case None => None
      case Some(s) => Some(I.RunBody(s, body))
    decreases |body|
  {
    if body != [] {
      var w := Wrap(body[0], t);
      assert Body(t, body) == Body(w, body[1..]);
      ExecWrap(body[0], t, fuel, v);
      BodyExec(w, body[1..], fuel, v);
      match Exec(t, fuel, v)
      case None =>
      case Some(s) =>
        assert Exec(w, fuel, v) == Some(I.Step(s, body[0]));
        assert I.RunBody(s, body) == I.RunBody(I.Step(s, body[0]), body[1..]);
    }
  }

  lemma {:induction false} BodyGet(t: Code, body: seq<I.Cmd>, fuel: nat, v: Version)
    ensures Get(Body(t, body), fuel, v) == Get(t, fuel, v)
    ensures Interp(Body(t, body), fuel, v) == Interp(t, fuel, v)
    decreases |body|
  {
    if body != [] {
      BodyGet(Wrap(body[0], t), body[1..], fuel, v);
    }
  }

  lemma {:induction false} BodyCreate(t: Code, body: seq<I.Cmd>, e: State)
    ensures Create(Body(t, body), e) == Body(Create(t, e), body)
    decreases |body|
  {
    if body != [] {
      BodyCreate(Wrap(body[0], t), body[1..], e);
    }
  }

  /** A loop whose `LoopStart` holds a base state is the eager loop from
      that state, check for check, in both versions. */
  lemma {:induction false} LoopChain(e: State, body: seq<I.Cmd>, fuel: nat, v: Version)
    ensures Exec(LoopEnd(Body(LoopStart(Base(e)), body)), fuel, v) == I.RunLoop(e, body, fuel)
    decreases fuel
  {
    if fuel > 0 {
      var t := Body(LoopStart(Base(e)), body);
      BodyGet(LoopStart(Base(e)), body, fuel, v);
      if Brainfuck.Get(e) != 0 {
        BodyExec(LoopStart(Base(e)), body, fuel, v);
        var e' := I.RunBody(e, body);
        BodyCreate(LoopStart(Base(e)), body, e');
        LoopChain(e', body, fuel - 1, v);
      }
    }
  }

  /** The first check of a loop over any chain `t`: if `t` evaluates to `s`
      the loop is the eager loop from `s`, except that a zero first check
      yields `t`'s `Interpreter`, which is `s` itself only when corrected. */
  lemma LoopFirst(t: Code, body: seq<I.Cmd>, fuel: nat, v: Version)
    ensures Exec(LoopEnd(Body(LoopStart(t), body)), fuel, v) ==
      match Exec(t, fuel, v)
      case None => None
      case Some(s) =>
        if fuel > 0 && Brainfuck.Get(s) == 0 && v == AsWritten then Interp(t, fuel, v)
        else I.RunLoop(s, body, fuel)
  {
    var x := LoopStart(t);
    BodyGet(x, body, fuel, v);
    BodyExec(x, body, fuel, v);
    match Exec(t, fuel, v)
    case None =>
    case Some(s) =>
      if fuel > 0 && Brainfuck.Get(s) != 0 {
        var s' := I.RunBody(s, body);
        BodyCreate(x, body, s');
        LoopChain(s', body, fuel - 1, v);
      }
  }

  /** The chain as written with a loop skipped on its first check going
      back to `s0`: the eager execution, except that such a loop leaves
      the state the chain started from. */
  function SkipExec(s0: State, s: State, prog: seq<I.Instr>, fuel: nat): Option<State>
    decreases |prog|
  {
    if prog == [] then Some(s)
    else if prog[0].Loop? && fuel > 0 && Brainfuck.Get(s) == 0 then SkipExec(s0, s0, prog[1..], fuel)
    else
      match I.ExecOne(s, prog[0], fuel)
      case None => None
      case Some(t) => SkipExec(s0, t, prog[1..], fuel)
  }

  lemma InterpWrapInstr(t: Code, i: I.Instr, fuel: nat)
    ensures Interp(WrapInstr(t, i), fuel, AsWritten) == Interp(t, fuel, AsWritten)
  {
    match i
    case Simple(c) =>
    case Print =>
    case Loop(body) => BodyGet(LoopStart(t), body, fuel, AsWritten);
  }

  lemma ExecWrapInstr(t: Code, i: I.Instr, fuel: nat, v: Version)
    ensures Exec(WrapInstr(t, i), fuel, v) ==
      match Exec(t, fuel, v)
      case None => None
      case Some(s) =>
        if i.Loop? && fuel > 0 && Brainfuck.Get(s) == 0 && v == AsWritten then Interp(t, fuel, v)
        else I.ExecOne(s, i, fuel)
  {
    match i
    case Simple(c) => ExecWrap(c, t, fuel, v);
    case Print =>
    case Loop(body) => LoopFirst(t, body, fuel, v);
  }

  /** The corrected chain of a program over `t` runs the program eagerly
      from the state `t` evaluates to. */
  lemma {:induction false} CompileCorrected(t: Code, prog: seq<I.Instr>, fuel: nat)
    ensures Exec(Compile(t, prog), fuel, Corrected) ==
      match Exec(t, fuel, Corrected)
      case None => None
      case Some(s) => I.Exec(s, prog, fuel)
    decreases |prog|
  {
    if prog != [] {
      ExecWrapInstr(t, prog[0], fuel, Corrected);
      CompileCorrected(WrapInstr(t, prog[0]), prog[1..], fuel);
    }
  }

  /** The chain as written of a program over `t`, whose `Interpreter` is
      `s0`, runs the program as `SkipExec` from `s0`. */
  lemma {:induction false} CompileAsWritten(t: Code, prog: seq<I.Instr>, fuel: nat, s0: State)
    requires Interp(t, fuel, AsWritten) == Some(s0)
    ensures Exec(Compile(t, prog), fuel, AsWritten) ==
      match Exec(t, fuel, AsWritten)
      case None => None
      case Some(s) => SkipExec(s0, s, prog, fuel)
    decreases |prog|
  {
    if prog != [] {
      ExecWrapInstr(t, prog[0], fuel, AsWritten);
      InterpWrapInstr(t, prog[0], fuel);
      CompileAsWritten(WrapInstr(t, prog[0]), prog[1..], fuel, s0);
    }
  }

  /** With `LoopStart::Interpreter = T::Exec`, the chain `bf!` builds for
      a program runs exactly as the eager semantics. */
  lemma CorrectedRuns(s0: State, prog: seq<I.Instr>, fuel: nat)
    ensures Exec(Compile(Base(s0), prog), fuel, Corrected) == I.Exec(s0, prog, fuel)
  {
    CompileCorrected(Base(s0), prog, fuel);
  }

  /** As written, the chain `bf!` builds for a program runs as `SkipExec`. */
  lemma AsWrittenRuns(s0: State, prog: seq<I.Instr>, fuel: nat)
    ensures Exec(Compile(Base(s0), prog), fuel, AsWritten) == SkipExec(s0, s0, prog, fuel)
  {
    CompileAsWritten(Base(s0), prog, fuel, s0);
  }

  /** Every loop the eager run skips on its first check is reached in the
      state `s0`. */
  ghost predicate SkipsAtStart(s0: State, s: State, prog: seq<I.Instr>, fuel: nat)
    decreases |prog|
  {
    prog != [] ==>
      (prog[0].Loop? && fuel > 0 && Brainfuck.Get(s) == 0 ==> s == s0) &&
      match I.ExecOne(s, prog[0], fuel)
      case None => true
      case Some(t) => SkipsAtStart(s0, t, prog[1..], fuel)
  }

  /** Where every skipped loop is reached in `s0`, the chain as written
      agrees with the eager semantics. */
  lemma {:induction false} SkipExecAgrees(s0: State, s: State, prog: seq<I.Instr>, fuel: nat)
    requires SkipsAtStart(s0, s, prog, fuel)
    ensures SkipExec(s0, s, prog, fuel) == I.Exec(s, prog, fuel)
    decreases |prog|
  {
    if prog != [] {
      if prog[0].Loop? && fuel > 0 && Brainfuck.Get(s) == 0 {
        assert s == s0;
        assert I.ExecOne(s, prog[0], fuel) == Some(s);
        SkipExecAgrees(s0, s, prog[1..], fuel);
      } else {
        match I.ExecOne(s, prog[0], fuel)
        case None =>
        case Some(t) => SkipExecAgrees(s0, t, prog[1..], fuel);
      }
    }
  }

  /** `brainfuck::Debug`: the `InterpreterBase` at the bottom of the chain
      (its `Ram` and `Output`), forwarded by every wrapper except `Print`,
      which has no `Debug` impl. */
  function Debug(c: Code): Option<State>
  {
    match c
    case Base(s) => Some(s)
    case Print(_) => None
    case _ => Debug(c.prev)
  }

  /** `k` nested `<Iter as Loop<GetCondition<Iter>>>::LoopOut` starting
      from `c`: each step needs a `LoopEnd`. */
  function Checks(c: Code, k: nat, fuel: nat, v: Version): Option<Code>
    decreases k
  {
    if k == 0 then Some(c)
    else
      match Checks(c, k - 1, fuel, v)
      case None => None
      case Some(d) => if d.LoopEnd? then LoopOut(d.prev, fuel, v) else None
  }

  /** The loop chain over a base state. */
  function Loop0(e: State, body: seq<I.Cmd>): Code
  {
    LoopEnd(Body(LoopStart(Base(e)), body))
  }

  lemma {:induction false} BodyDebug(t: Code, body: seq<I.Cmd>)
    ensures Debug(Body(t, body)) == Debug(t)
    decreases |body|
  {
    if body != [] {
      BodyDebug(Wrap(body[0], t), body[1..]);
      match body[0]
      case Incr =>
      case Decr =>
      case MoveRight =>
      case MoveLeft =>
    }
  }

  /** While the condition stays nonzero, each `LoopOut` is the loop over
      the state one more run of the body gives. */
  lemma {:induction false} ChecksIterate(e: State, body: seq<I.Cmd>, fuel: nat, v: Version, n: nat, k: nat)
    requires I.ExitsAfter(e, body, n) && k <= n
    ensures Checks(Loop0(e, body), k, fuel, v) == Some(Loop0(I.Iterate(e, body, k), body))
    decreases k
  {
    if k > 0 {
      ChecksIterate(e, body, fuel, v, n, k - 1);
      var ek := I.Iterate(e, body, k - 1);
      var x := LoopStart(Base(ek));
      assert Brainfuck.Get(ek) != 0;
      BodyGet(x, body, fuel, v);
      BodyExec(x, body, fuel, v);
      I.IterateLast(e, body, k - 1);
      BodyCreate(x, body, I.RunBody(ek, body));
    }
  }

  /** The check after the last run reads zero and leaves the bare base
      holding the final state, in both versions. */
  lemma ChecksExit(e: State, body: seq<I.Cmd>, fuel: nat, v: Version, n: nat)
    requires I.ExitsAfter(e, body, n)
    ensures Checks(Loop0(e, body), n + 1, fuel, v) == Some(Base(I.Iterate(e, body, n)))
  {
    ChecksIterate(e, body, fuel, v, n, n);
    var en := I.Iterate(e, body, n);
    BodyGet(LoopStart(Base(en)), body, fuel, v);
  }

  /** `Debug` reads the loop's state at every check. */
  lemma DebugLoop0(e: State, body: seq<I.Cmd>)
    ensures Debug(Loop0(e, body)) == Some(e)
  {
    BodyDebug(LoopStart(Base(e)), body);
  }
}
