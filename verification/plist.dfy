/** Symbols, the nested-list data read from the database, and the small
    association-list helpers every other module shares.

    A symbol is identified with its name: the library interns every name
    into one symbol object, so two symbols are the same object exactly when
    their names are equal. */
module Plist {

  datatype Option<+T> = None | Some(value: T)

  type Symbol = string

  /** The symbol `nil`, used as "no value" throughout the library. */
  const Nil: Symbol := "nil"

  /** The symbol `t`, used as the generic key (any registry, any language). */
  const T: Symbol := "t"

  /** One element of a nested list loaded from the database. */
  datatype Elem =
    | Sym(name: Symbol)
    | Int(value: int)
    | Text(bytes: string)
    | List(items: seq<Elem>)

  /** Index of the first pair of `al` whose key is `k`, if any. */
  function FindKey<V>(al: seq<(Symbol, V)>, k: Symbol): (r: Option<nat>)
    ensures r.Some? ==> r.value < |al| && al[r.value].0 == k
    ensures r.Some? ==> forall i :: 0 <= i < r.value ==> al[i].0 != k
    ensures r.None? ==> forall i :: 0 <= i < |al| ==> al[i].0 != k
  {
    if |al| == 0 then None
    else if al[0].0 == k then Some(0)
    else match FindKey(al[1..], k)
      case None => None
      case Some(i) => Some(i + 1)
  }

  /** Position of the first `x` in `s`, or `|s|` when there is none. */
  function IndexOf<X(==)>(s: seq<X>, x: X): (r: nat)
    ensures r <= |s|
    ensures r < |s| ==> s[r] == x
    ensures forall i :: 0 <= i < r ==> s[i] != x
  {
    if |s| == 0 then 0
    else if s[0] == x then 0
    else 1 + IndexOf(s[1..], x)
  }

  /** Replace the value at position `i` of an association list. */
  function SetAt<V>(al: seq<(Symbol, V)>, i: nat, v: V): (r: seq<(Symbol, V)>)
    requires i < |al|
    ensures |r| == |al| && r[i] == (al[i].0, v)
    ensures forall j :: 0 <= j < |al| && j != i ==> r[j] == al[j]
  {
    al[i := (al[i].0, v)]
  }

  /** `nil` read as `t`: registries and languages given as `nil` are filed
      under the generic key. */
  function NilAsT(s: Symbol): (r: Symbol)
    ensures r != Nil
    ensures s != Nil ==> r == s
  {
    if s == Nil then T else s
  }

  /** Number of elements of `s` satisfying `ok`. */
  function CountOk<X>(s: seq<X>, ok: X -> bool): (n: nat)
    ensures n <= |s|
  {
    if |s| == 0 then 0 else CountOk(s[..|s| - 1], ok) + (if ok(s[|s| - 1]) then 1 else 0)
  }

  /** The position of the pair keyed `k`, appending `(k, empty)` first
      when there is none. */
  function Slot<V>(al: seq<(Symbol, V)>, k: Symbol, empty: V): (r: (seq<(Symbol, V)>, nat))
    ensures r.1 < |r.0| && r.0[r.1].0 == k && FindKey(r.0, k) == Some(r.1)
    ensures FindKey(al, k).Some? ==> r == (al, FindKey(al, k).value)
    ensures FindKey(al, k).None? ==> r.0 == al + [(k, empty)] && r.1 == |al|
  {
    match FindKey(al, k)
    case Some(i) => (al, i)
    case None =>
      var r := al + [(k, empty)];
      assert forall i :: 0 <= i < |al| ==> r[i] == al[i];
      (r, |al|)
  }
}
