/** Property values held by a guess, and the small Option wrapper used for
    "absent" results (a Python KeyError or a None argument). */
module Values {

  datatype Option<+T> = None | Some(value: T)

  /** A property value: a string, an integer, a calendar date, a language code,
      or a Python list of values (the shape of an append property). */
  datatype Value =
    | Str(s: string)
    | Int(n: int)
    | Date(year: int, month: int, day: int)
    | Lang(code: string)
    | List(items: seq<Value>)

  /** Python's set() accepts only hashable members, and lists are not hashable. */
  predicate Hashable(v: Value) {
    !v.List?
  }

  /** The elements of a list, as a set. */
  function Elements(xs: seq<Value>): set<Value> {
    set x | x in xs
  }

  predicate NoDuplicates(xs: seq<Value>) {
    forall i, j :: 0 <= i < j < |xs| ==> xs[i] != xs[j]
  }

  /** One duplicate-free arrangement of the elements of xs (the last occurrence of each
      element is kept); it stands for Python's list(set(xs)), whose order is unspecified. */
  function Unique(xs: seq<Value>): (r: seq<Value>)
    ensures NoDuplicates(r)
    ensures forall x :: x in r <==> x in xs
    ensures |r| <= |xs|
  {
    if xs == [] then []
    else if xs[0] in xs[1..] then Unique(xs[1..])
    else [xs[0]] + Unique(xs[1..])
  }
}
