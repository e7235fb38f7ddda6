/** Shared data of the signature catalogue: the stored record and small helpers. */
module Signatures {

  datatype Option<T> = None | Some(value: T)

  /** One stored function signature: its crate, the rendered parameter types
      in order, the rendered return type and the human-readable rendering `s`. */
  datatype FnDetail = FnDetail(krate: string, params: seq<string>, ret: string, s: string)

  /** Reserved parameter-index key under which zero-argument functions are filed. */
  const NOARGS: string := "<NOARGS>"

  /** The parameter-index keys for a list of parameter types: the types
      themselves, or the sentinel alone when there are none. Filing and
      querying both use this rule. */
  function ParamTerms(params: seq<string>): (keys: seq<string>)
    ensures |keys| > 0
  {
    if params == [] then [NOARGS] else params
  }

  /** The parameter-index keys a signature is filed under. */
  function ParamKeys(d: FnDetail): seq<string>
  {
    ParamTerms(d.params)
  }

  function Min(a: int, b: int): int
  {
    if a <= b then a else b
  }

  function Max(a: int, b: int): int
  {
    if a <= b then b else a
  }

  function Last<T>(s: seq<T>): T
    requires |s| > 0
  {
    s[|s| - 1]
  }

  /** No element occurs twice. */
  predicate NoDup<T(==)>(s: seq<T>)
  {
    forall i, j :: 0 <= i < j < |s| ==> s[i] != s[j]
  }

  /** The elements of a sequence, as a set. */
  function Elems<T>(s: seq<T>): set<T>
  {
    set x | x in s
  }
}
