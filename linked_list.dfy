/** The cons list that holds the cells of a tape (`End`, `Node<Val, Next>`),
    with its operations: indexing, length, an update of one element that
    grows the list with zero cells, append, and listing/decoding of values. */
module LinkedList {
  import opened Numbers
  import opened Wrappers
  import Utf8

  datatype List = End | Node(val: nat, next: List)

  /** `Len::LenOut`: the number of nodes. */
  function Len(l: List): nat
  {
    match l
    case End => 0
    case Node(_, next) => 1 + Len(next)
  }

  /** `ToVec::to_vec`: the values in list order. */
  function ToVec(l: List): (s: seq<nat>)
    ensures |s| == Len(l)
  {
    match l
    case End => []
    case Node(v, next) => [v] + ToVec(next)
  }

  /** The list holding `s` in order (what the `ll!` macro writes down). */
  function FromSeq(s: seq<nat>): (l: List)
    ensures ToVec(l) == s
  {
    if s == [] then End else Node(s[0], FromSeq(s[1..]))
  }

  /** The value at `i` of a sequence read as a tape: zero past the end. */
  function CellAt(s: seq<nat>, i: nat): nat
  {
    if i < |s| then s[i] else 0
  }

  /** `Index<Idx>`: `.0` is the element at `i` and `.1` is the list the
      impl hands back. Past the end the element is Zero; a non-empty list
      comes back as it was, and `End` comes back as the one-cell list [0]
      whatever the index. */
  function Index(l: List, i: nat): (r: (nat, List))
    ensures r.0 == CellAt(ToVec(l), i)
    ensures l.Node? ==> r.1 == l
    ensures l == End ==> ToVec(r.1) == [0]
  {
    match l
    case End => (0, Node(0, End))
    case Node(v, next) =>
      if i == 0 then (v, l) else (Index(next, i - 1).0, l)
  }

  /** `LLOp<Op, Idx>`: apply `op` to element `i`, padding the list with zero
      cells first when `i` is past its end. Only element `i` changes, and
      the list is as long as before or `i + 1`, whichever is more. */
  function LLOp(l: List, op: Op, i: nat): (r: List)
    ensures Len(r) == if i < Len(l) then Len(l) else i + 1
    ensures forall j :: Index(r, j).0 == if j == i then ApplyNat(Index(l, i).0, op) else Index(l, j).0
  {
    match l
    case End =>
      if i == 0 then Node(ApplyNat(0, op), End) else Node(0, LLOp(End, op, i - 1))
    case Node(v, next) =>
      if i == 0 then Node(ApplyNat(v, op), next) else Node(v, LLOp(next, op, i - 1))
  }

  /** `s` padded with zeros to cover index `i`, then element `i` set to `v`:
      the sequence reading of an update at `i`. */
  function Put(s: seq<nat>, i: nat, v: nat): (r: seq<nat>)
    ensures |r| == if i < |s| then |s| else i + 1
    ensures r[i] == v
    ensures forall j :: 0 <= j < |r| && j != i ==> r[j] == CellAt(s, j)
  {
    if i < |s| then s[i := v] else s + seq(i - |s|, _ => 0) + [v]
  }

  /** A list is determined by its values. */
  lemma {:induction false} ToVecInjective(a: List, b: List)
    requires ToVec(a) == ToVec(b)
    ensures a == b
  {
    match a
    case End =>
    case Node(v, next) =>
      assert ToVec(next) == ToVec(a)[1..] == ToVec(b)[1..] == ToVec(b.next);
      ToVecInjective(next, b.next);
  }

  /** The values after `LLOp` are the values before, padded and updated at `i`. */
  lemma LLOpValues(l: List, op: Op, i: nat)
    ensures ToVec(LLOp(l, op, i)) == Put(ToVec(l), i, ApplyNat(CellAt(ToVec(l), i), op))
  {
    var r := LLOp(l, op, i);
    var p := Put(ToVec(l), i, ApplyNat(CellAt(ToVec(l), i), op));
    forall j | 0 <= j < |p|
      ensures ToVec(r)[j] == p[j]
    {
      assert Index(r, j).0 == CellAt(ToVec(r), j);
      assert Index(l, j).0 == CellAt(ToVec(l), j);
    }
  }

  /** `Push<Val>`: append `v` after the last element. */
  function Push(l: List, v: nat): (r: List)
    ensures ToVec(r) == ToVec(l) + [v]
  {
    match l
    case End => Node(v, End)
    case Node(w, next) => Node(w, Push(next, v))
  }

  /** The error `to_string` reports for any value that is not a byte and
      for any byte sequence that is not UTF-8. */
  datatype InvalidCharError = InvalidCharError

  datatype Result<T> = Ok(value: T) | Err(error: InvalidCharError)

  /** `u8::try_from` on every value, collected: the bytes if every value is
      at most 255, `None` as soon as one is not. */
  function ToBytes(vals: seq<nat>): (r: Option<seq<Utf8.Byte>>)
    ensures r.Some? <==> forall i :: 0 <= i < |vals| ==> vals[i] < 256
    ensures r.Some? ==> r.value == vals
  {
    if vals == [] then Some([])
    else if vals[0] >= 256 then None
    else
      match ToBytes(vals[1..])
      case None => None
      case Some(rest) => Some([vals[0] as Utf8.Byte] + rest)
  }

  /** `ToVec::to_string`: the text the values spell when read as UTF-8
      bytes; `InvalidCharError` if any value is over 255 or the bytes are
      not UTF-8. Nothing is decoded unless everything is. */
  function ToString(l: List): Result<string>
  {
    match ToBytes(ToVec(l))
    case None => Err(InvalidCharError)
    case Some(bytes) =>
      match Utf8.FromUtf8(bytes)
      case None => Err(InvalidCharError)
      case Some(text) => Ok(text)
  }

  /** `to_string` succeeds exactly when every value is a byte and the bytes
      are UTF-8, and then the text is encoded by exactly those bytes, in
      order. */
  lemma ToStringSpec(l: List)
    ensures ToString(l).Ok? <==>
      (forall i :: 0 <= i < Len(l) ==> ToVec(l)[i] < 256) && Utf8.Valid(ToVec(l))
    ensures ToString(l).Ok? ==> Utf8.EncodeAll(ToString(l).value) == ToVec(l)
  {
    match ToBytes(ToVec(l))
    case None =>
    case Some(bytes) => Utf8.FromUtf8Spec(bytes);
  }

  /** The unit tests of `linked_list`: indexing [0, 1, 2, 3], indexing the
      empty list past its end without growing it, and two pushes. */
  lemma ListTests()
    ensures var data := FromSeq([0, 1, 2, 3]);
      Index(data, 0).0 == 0 && Index(data, 1).0 == 1 && Index(data, 2).0 == 2 && Len(data) == 4
    ensures Index(End, 2).0 == 0 && Len(End) == 0
    ensures ToVec(Push(Push(End, 2), 1)) == [2, 1]
  {
  }
}
