/** Small value wrappers shared by every module of the model. */
module Wrappers {

  /** A value that may be null (Python's `None`). */
  datatype Option<+T> = None | Some(value: T) {
    function GetOr(default: T): T {
      match this
      case Some(v) => v
      case None => default
    }
  }

  /**
   * One field of a partial-update payload after `model_dump(exclude_unset=True)`:
   * either the caller did not send the field at all (`Unset`), or it sent a value,
   * which for an `Optional[...]` field may itself be null (`Supplied(None)`).
   */
  datatype Patch<+T> = Unset | Supplied(value: T)

  /** The value a column ends with when the field may be sent: the sent value, else the current one. */
  function Merged<T>(field: Patch<T>, current: T): (v: T)
    ensures field.Unset? ==> v == current
    ensures field.Supplied? ==> v == field.value
  {
    match field
    case Unset => current
    case Supplied(x) => x
  }

  /** The field was sent as an explicit null. */
  predicate SendsNull<T>(field: Patch<Option<T>>) {
    field.Supplied? && field.value.None?
  }

  /**
   * The value a NOT NULL column ends with when its field is sent without a null: the
   * sent value, else the current one.
   */
  function MergedRequired<T>(field: Patch<Option<T>>, current: T): (v: T)
    requires !SendsNull(field)
    ensures field.Unset? ==> v == current
    ensures field.Supplied? ==> Some(v) == field.value
  {
    match field
    case Unset => current
    case Supplied(x) => x.value
  }

  /**
   * The state a `for` loop leaves when it applies `step` to each element of `d` in turn,
   * starting from `s`.
   */
  function Fold<S, A>(step: (S, A) -> S, s: S, d: seq<A>): S
    decreases |d|
  {
    if d == [] then s else step(Fold(step, s, d[..|d| - 1]), d[|d| - 1])
  }

  /** Running a loop over `a + b` is running it over `a` and then over `b`. */
  lemma {:induction false} FoldAppend<S, A>(step: (S, A) -> S, s: S, a: seq<A>, b: seq<A>)
    ensures Fold(step, s, a + b) == Fold(step, Fold(step, s, a), b)
    decreases |b|
  {
    if b == [] {
      assert a + b == a;
    } else {
      var ab := a + b;
      assert ab[..|ab| - 1] == a + b[..|b| - 1];
      assert ab[|ab| - 1] == b[|b| - 1];
      FoldAppend(step, s, a, b[..|b| - 1]);
    }
  }

  /** Running a loop over a list of at most one more element runs the body on it, if any. */
  lemma FoldSent<S, A>(step: (S, A) -> S, s: S, d: seq<A>, e: seq<A>)
    requires |e| <= 1
    ensures Fold(step, s, d + e) == if e == [] then Fold(step, s, d) else step(Fold(step, s, d), e[0])
  {
    if e == [] {
      assert d + e == d;
    } else {
      assert (d + e)[..|d + e| - 1] == d;
    }
  }

  /** The typed outcome of a fallible operation. */
  datatype Result<+T, +E> = Ok(value: T) | Err(error: E)
}
