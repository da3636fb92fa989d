/** Option and Result, the two failure-carrying shapes used across the model. */
module Wrappers {

  datatype Option<+T> = None | Some(value: T)

  /** A successful value, or the error the source would raise instead. */
  datatype Result<+T, +E> = Ok(value: T) | Err(error: E)

  /** A dictionary lookup of a missing key (Python's KeyError). */
  datatype LookupError = KeyError(key: string)

  /** Python's `x or u''` on an optional text: the text, or the empty string. */
  function OrEmpty(o: Option<string>): string
  {
    match o
    case Some(s) => s
    case None => ""
  }

  /** `dict.update`: a copy of `base` in which every key of `overrides` takes the overriding value. */
  function UpdatedWith<K, V>(base: map<K, V>, overrides: map<K, V>): (r: map<K, V>)
    ensures r.Keys == base.Keys + overrides.Keys
    ensures forall k :: k in overrides ==> r[k] == overrides[k]
    ensures forall k :: k in base && k !in overrides ==> r[k] == base[k]
  {
    base + overrides
  }

  /** The position of the last element of `xs` whose key is `k`, or -1 when there is none. */
  function LastWithKey<T>(xs: seq<T>, key: T -> string, k: string): (j: int)
    ensures -1 <= j < |xs|
    ensures j >= 0 ==> key(xs[j]) == k
    ensures forall i :: j < i < |xs| ==> key(xs[i]) != k
  {
    if xs == [] then -1
    else if key(xs[|xs| - 1]) == k then |xs| - 1
    else LastWithKey(xs[..|xs| - 1], key, k)
  }
}
