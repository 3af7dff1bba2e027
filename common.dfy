/** Values shared by every module: the byte type, the failure-carrying
    wrappers that stand in for Python exceptions, and integer sums. */
module Common {

  /** One element of a Python `bytes`/`bytearray`. */
  type byte = x: int | 0 <= x < 256

  predicate IsByte(x: int) {
    0 <= x < 256
  }

  datatype Option<+T> = None | Some(value: T)

  datatype Result<+T, +E> = Success(value: T) | Failure(error: E)

  datatype Outcome<+E> = Pass | Fail(error: E)

  /** The Python exceptions that escape the modelled code (other than
      ValidationError, which the Ruleset module declares). */
  datatype Error =
    | IndexError           // indexing the empty result of a read
    | ValueError           // unknown result code, byte out of range, text that is not an integer
    | KeyError             // lookup of a missing dictionary key
    | AttributeError       // encoding a match score whose result was never set
    | NotImplementedError  // abstract ruleset member
    | DuplicateKeyError    // re-registering a key of a udict
    | RsxError(msg: string)

  function Sum(s: seq<int>): int {
    if s == [] then 0 else Sum(s[..|s| - 1]) + s[|s| - 1]
  }

  lemma {:induction false} SumConcat(a: seq<int>, b: seq<int>)
    ensures Sum(a + b) == Sum(a) + Sum(b)
    decreases |b|
  {
    if b == [] {
      assert a + b == a;
    } else {
      assert (a + b)[..|a + b| - 1] == a + b[..|b| - 1];
      SumConcat(a, b[..|b| - 1]);
    }
  }

  lemma SumCons(x: int, s: seq<int>)
    ensures Sum([x] + s) == x + Sum(s)
  {
    SumConcat([x], s);
  }

  function Min(a: int, b: int): int {
    if a <= b then a else b
  }

  /** What Python's `sorted` needs of `<`: no value is below itself, `<` is
      transitive, and it is negatively transitive: if `a < b` and `b < c`
      both fail, so does `a < c`. */
  ghost predicate StrictWeakOrder<K(!new)>(less: (K, K) -> bool) {
    && (forall a :: !less(a, a))
    && (forall a, b, c :: less(a, b) && less(b, c) ==> less(a, c))
    && (forall a, b, c :: !less(a, b) && !less(b, c) ==> !less(a, c))
  }
}
