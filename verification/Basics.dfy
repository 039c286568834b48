/** Carrier types the models share, and where a separator may stand in a text. */
module Basics {
  datatype Option<+T> = None | Some(value: T)

  datatype Result<+T, +E> = Ok(value: T) | Err(error: E) {
    predicate IsFailure() {
      Err?
    }

    function PropagateFailure<U>(): Result<U, E>
      requires Err?
    {
      Err(error)
    }

    function Extract(): T
      requires Ok?
    {
      value
    }
  }

  lemma LongerHeadHidesASeparator(sep: char, a: string, x: string, b: string, y: string)
    requires a + x == b + y && |a| < |b| && b[|b| - 1] == sep
    ensures sep in x
  {
    assert x[|b| - 1 - |a|] == (a + x)[|b| - 1] == (b + y)[|b| - 1];
  }

  /** Two texts that end in pieces free of the separator, after the last one, agree on both. */
  lemma LastPiece(sep: char, a: string, x: string, b: string, y: string)
    requires a + x == b + y && sep !in x && sep !in y
    requires (a == "" || a[|a| - 1] == sep) && (b == "" || b[|b| - 1] == sep)
    ensures a == b && x == y
  {
    if |a| < |b| {
      LongerHeadHidesASeparator(sep, a, x, b, y);
    }
    if |b| < |a| {
      LongerHeadHidesASeparator(sep, b, y, a, x);
    }
    assert a == (a + x)[..|a|] && b == (b + y)[..|b|];
    assert x == (a + x)[|a|..] && y == (b + y)[|b|..];
  }
}
