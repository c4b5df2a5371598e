/** Small shared vocabulary: optional values (a JSON field that may be
    missing or null), results of request handlers, and the subsequence
    relation used to say that a filter keeps the original order. */
module Common {

  /** A value that may be absent (`undefined` / `null` in the source). */
  datatype Option<+T> = None | Some(value: T) {
    /** The value, or `default` when absent (the source's `x || default`
        when only absence makes `x` falsy). */
    function GetOr(default: T): T {
      match this
      case Some(v) => v
      case None => default
    }
  }

  /** Outcome of a request handler: the response body, or an error. */
  datatype Result<+T, +E> = Success(value: T) | Failure(error: E)

  /** `sub` is obtained from `s` by deleting elements, keeping the order. */
  ghost predicate SubsequenceOf<T>(sub: seq<T>, s: seq<T>)
    decreases |s|
  {
    if sub == [] then true
    else if s == [] then false
    else if sub[0] == s[0] then SubsequenceOf(sub[1..], s[1..])
    else SubsequenceOf(sub, s[1..])
  }

  /** Dropping the head of the host sequence keeps a subsequence of the tail
      a subsequence of the whole. */
  lemma {:induction false} SubsequenceOfCons<T>(sub: seq<T>, x: T, s: seq<T>)
    requires SubsequenceOf(sub, s)
    ensures SubsequenceOf(sub, [x] + s)
    decreases |s|, 1
  {
    if sub == [] {
    } else if sub[0] == x {
      assert ([x] + s)[1..] == s;
      SubsequenceOfDrop(sub, s);
    } else {
      assert ([x] + s)[1..] == s;
    }
  }

  /** A subsequence stays one after its first element is removed. */
  lemma {:induction false} SubsequenceOfDrop<T>(sub: seq<T>, s: seq<T>)
    requires sub != [] && SubsequenceOf(sub, s)
    ensures SubsequenceOf(sub[1..], s)
    decreases |s|, 0
  {
    if sub[0] == s[0] {
      SubsequenceOfCons(sub[1..], s[0], s[1..]);
      assert [s[0]] + s[1..] == s;
    } else {
      SubsequenceOfDrop(sub, s[1..]);
      SubsequenceOfCons(sub[1..], s[0], s[1..]);
      assert [s[0]] + s[1..] == s;
    }
  }
}
