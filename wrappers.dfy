/** Failure-carrying values shared by every module of the model. */
module Wrappers {

  /** Rust's `Option<T>`. */
  datatype Option<+T> = None | Some(value: T)

  /** Rust's `Result<T, E>`. */
  datatype Result<+T, +E> = Ok(value: T) | Err(error: E)
}

/** How a collector operation can end without a value. */
module Failures {
  import opened Wrappers

  /**
    `Panic`: the Rust code panics (an `unwrap`, `expect` or out-of-bounds
    index fails); `Error`: it returns an `Err` to its caller.
  */
  datatype Failure = Panic(reason: string) | Error(reason: string)

  /**
    `f` applied to each element in order, collected into `Ok` of the
    results; the first element whose result is an `Err` ends it with that
    error (Rust's `map(f).collect::<Result<Vec<_>, _>>()`, and a loop of
    `?` or `unwrap` calls).
  */
  function Traverse<A, T>(f: A -> Result<T, Failure>, xs: seq<A>): (r: Result<seq<T>, Failure>)
    ensures r.Err? ==> exists k :: (0 <= k < |xs| && f(xs[k]) == Err(r.error)
                                    && forall i :: 0 <= i < k ==> f(xs[i]).Ok?)
    ensures r.Ok? <==> forall i :: 0 <= i < |xs| ==> f(xs[i]).Ok?
    ensures r.Ok? ==> |r.value| == |xs| && forall i :: 0 <= i < |xs| ==> r.value[i] == f(xs[i]).value
  {
    if xs == [] then Ok([])
    else match f(xs[0])
      case Err(e) => Err(e)
      case Ok(y) =>
        match Traverse(f, xs[1..])
        case Err(e) => Err(e)
        case Ok(ys) => Ok([y] + ys)
  }
}
