/** Unary (Peano) numbers and the two operators applied to them.
    A cell value and the tape pointer are such numbers; the layers above
    this module work on their integer reading (`Eval`), which `EvalApply`
    and the bijection lemmas below justify. */
module Numbers {

  /** `Zero` or the successor of another number (`NextNumber<N>`). */
  datatype Num = Zero | Next(prev: Num)

  /** The operators a number can be updated with. */
  datatype Op = Add | Sub

  /** `Number::eval`: the integer a unary number stands for. */
  function Eval(n: Num): nat
  {
    match n
    case Zero => 0
    case Next(m) => 1 + Eval(m)
  }

  /** The unary number standing for `k` (the `One`, `Two`, ... aliases). */
  function FromNat(k: nat): (n: Num)
    ensures Eval(n) == k
  {
    if k == 0 then Zero else Next(FromNat(k - 1))
  }

  /** The integer reading of an operator: Add counts up, Sub counts down
      and stays at zero once there. */
  function ApplyNat(k: nat, op: Op): nat
  {
    match op
    case Add => k + 1
    case Sub => if k == 0 then 0 else k - 1
  }

  /** `Operation<Op>::Output`: Add is the successor; Sub is the
      predecessor, and Sub of Zero is Zero. */
  function Apply(n: Num, op: Op): (r: Num)
    ensures Eval(r) == ApplyNat(Eval(n), op)
  {
    match op
    case Add => Next(n)
    case Sub =>
      match n
      case Zero => Zero
      case Next(m) => m
  }

  /** `op` applied `k` times, starting from `n` (`actions!(n > op > ... > op)`). */
  function Repeat(n: Num, op: Op, k: nat): Num
  {
    if k == 0 then n else Apply(Repeat(n, op, k - 1), op)
  }

  /** Two numbers with the same value are the same number. */
  lemma {:induction false} EvalInjective(a: Num, b: Num)
    requires Eval(a) == Eval(b)
    ensures a == b
  {
    match a
    case Zero =>
    case Next(a') =>
      EvalInjective(a', b.prev);
  }

  /** `FromNat` and `Eval` are inverse: a number is determined by its value. */
  lemma FromNatEval(n: Num)
    ensures FromNat(Eval(n)) == n
  {
    EvalInjective(FromNat(Eval(n)), n);
  }

  /** Sub undoes Add, and Sub of Zero is Zero. */
  lemma SubAfterAdd(n: Num)
    ensures Apply(Apply(n, Add), Sub) == n
    ensures Apply(Zero, Sub) == Zero
  {
  }

  /** k additions count up by k; k subtractions count down by k and stop at zero. */
  lemma {:induction false} RepeatEval(n: Num, k: nat)
    ensures Eval(Repeat(n, Add, k)) == Eval(n) + k
    ensures Eval(Repeat(n, Sub, k)) == if Eval(n) <= k then 0 else Eval(n) - k
  {
    if k > 0 {
      RepeatEval(n, k - 1);
    }
  }

  /** The unit tests of `numbers`: Add three times gives 3, Add Add Sub gives 1. */
  lemma NumberTests()
    ensures Eval(Repeat(Zero, Add, 3)) == 3
    ensures Eval(Apply(Apply(Apply(Zero, Add), Add), Sub)) == 1
  {
    RepeatEval(Zero, 3);
  }
}
