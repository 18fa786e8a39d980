/** SQL values as the warehouse treats them: a nullable column is an `Option`,
    and a predicate over nullable values has three truth values. A WHERE, ON,
    QUALIFY or CASE WHEN keeps a row or takes a branch only when its condition
    is `True`; `Unknown` (any comparison with NULL) behaves like `False` there. */
module Sql {

  datatype Option<+T> = None | Some(value: T)

  datatype Truth = True | False | Unknown

  /** Kleene conjunction. */
  function And(a: Truth, b: Truth): (r: Truth)
    ensures r == True <==> a == True && b == True
    ensures r == False <==> a == False || b == False
  {
    if a == False || b == False then False
    else if a == True && b == True then True
    else Unknown
  }

  /** Kleene disjunction. */
  function Or(a: Truth, b: Truth): (r: Truth)
    ensures r == True <==> a == True || b == True
    ensures r == False <==> a == False && b == False
  {
    if a == True || b == True then True
    else if a == False && b == False then False
    else Unknown
  }

  /** `a = b`: unknown as soon as one side is NULL. */
  function Eq<T(==)>(a: Option<T>, b: Option<T>): (r: Truth)
    ensures r == Unknown <==> a.None? || b.None?
    ensures r == True <==> a.Some? && a == b
  {
    if a.None? || b.None? then Unknown
    else if a.value == b.value then True
    else False
  }

  /** `a != b` (written `!=` or `<>`). */
  function Ne<T(==)>(a: Option<T>, b: Option<T>): (r: Truth)
    ensures r == Unknown <==> a.None? || b.None?
    ensures r == True <==> a.Some? && b.Some? && a.value != b.value
  {
    if a.None? || b.None? then Unknown
    else if a.value != b.value then True
    else False
  }

  /** `a > b` on dates and timestamps, modelled as integers on one scale. */
  function Gt(a: Option<int>, b: Option<int>): (r: Truth)
    ensures r == Unknown <==> a.None? || b.None?
    ensures r == True <==> a.Some? && b.Some? && a.value > b.value
  {
    if a.None? || b.None? then Unknown
    else if a.value > b.value then True
    else False
  }

  /** `a >= b`. */
  function Ge(a: Option<int>, b: Option<int>): (r: Truth)
    ensures r == Unknown <==> a.None? || b.None?
    ensures r == True <==> a.Some? && b.Some? && a.value >= b.value
  {
    if a.None? || b.None? then Unknown
    else if a.value >= b.value then True
    else False
  }

  /** `a IS NULL`: never unknown. */
  function IsNull<T>(a: Option<T>): (r: Truth)
    ensures r != Unknown
    ensures r == True <==> a.None?
  {
    if a.None? then True else False
  }

  /** `a IN (x0, x1, ...)` over a list of non-NULL literals. */
  function InList<T(==)>(a: Option<T>, xs: seq<T>): (r: Truth)
    ensures r == Unknown <==> a.None?
    ensures r == True <==> a.Some? && a.value in xs
  {
    if a.None? then Unknown
    else if a.value in xs then True
    else False
  }

  /** `COALESCE(a, d)` with a non-NULL default. */
  function Coalesce<T>(a: Option<T>, d: T): (r: T)
    ensures a.Some? ==> r == a.value
    ensures a.None? ==> r == d
  {
    match a
    case Some(v) => v
    case None => d
  }
}
