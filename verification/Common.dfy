/** Option and Result, with the exceptions the modelled Python code can raise, rounding up, and sequences. */
module Common {

  datatype Option<+T> = None | Some(value: T)

  datatype Error =
    | IndexError
    | KeyError
    | TypeError
    | ValueError
    | RecursionError
    | FileNotFoundError
    | AttributeError

  datatype Result<+T> = Ok(value: T) | Err(error: Error) {
    predicate IsFailure() {
      Err?
    }

    function PropagateFailure<U>(): Result<U>
      requires Err?
    {
      Err(error)
    }

    function Extract(): T
      requires Ok?
    {
      value
    }
  }

  /** `math.ceil(n / d)` */
  function CeilDiv(n: nat, d: nat): (q: nat)
    requires d > 0
    ensures (q as int - 1) * d < n <= q * d
  {
    (n + d - 1) / d
  }

  /** A text of `length` characters fills `lines` lines of `width` characters: the last of them is not empty,
      and nothing is left over. */
  predicate Fills(length: nat, width: nat, lines: nat) {
    width * (lines - 1) < length <= width * lines
  }

  lemma Assoc<T>(a: seq<T>, b: seq<T>, c: seq<T>)
    ensures a + b + c == a + (b + c)
  {
  }

  /** No element stands in the sequence twice. */
  ghost predicate Distinct<T>(xs: seq<T>) {
    forall i, j | 0 <= i < j < |xs| :: xs[i] != xs[j]
  }

  /** The pages one after the other. */
  function Concatenated<T>(pages: seq<seq<T>>): seq<T> {
    if pages == [] then [] else Concatenated(pages[..|pages| - 1]) + pages[|pages| - 1]
  }

  lemma ConcatenatedSnoc<T>(pages: seq<seq<T>>, page: seq<T>)
    ensures Concatenated(pages + [page]) == Concatenated(pages) + page
  {
    assert (pages + [page])[..|pages|] == pages;
  }
}
