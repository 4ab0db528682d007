/** Optional values and results shared by every module of the model. */
module Wrappers {
  datatype Option<+T> = None | Some(value: T)

  datatype Result<+T, +E> = Ok(value: T) | Err(error: E)

  /** `r` is `s` with some elements left out and the rest in their order:
      what a query that filters a collection returns. */
  predicate IsSubsequence<T(==)>(r: seq<T>, s: seq<T>)
  {
    r == [] || (s != [] && ((r[0] == s[0] && IsSubsequence(r[1..], s[1..])) || IsSubsequence(r, s[1..])))
  }

  /** A failed schema validation, naming the paths that failed. */
  datatype ValidationError = ValidationError(paths: seq<string>)

  /** The names of the paths whose required check failed, in schema order. */
  function RequiredPaths(names: seq<string>, failed: seq<bool>): (r: seq<string>)
    requires |names| == |failed|
    requires forall i, j :: 0 <= i < j < |names| ==> names[i] != names[j]
    ensures forall k :: 0 <= k < |names| ==> (names[k] in r <==> failed[k])
    ensures forall p :: p in r ==> p in names
  {
    if names == [] then []
    else (if failed[0] then [names[0]] else []) + RequiredPaths(names[1..], failed[1..])
  }
}

/** An HTTP reply as the routes send it: a status code and the `message`
    (or `error`) text of the JSON body. */
module Http {
  datatype Reply = Reply(status: nat, message: string)
}
