/** Small value types and sequence facts shared by every part of the model. */
module Prelude {

  datatype Option<+T> = None | Some(value: T)

  datatype Result<+T, +E> = Ok(value: T) | Err(error: E)

  /** The last `n` elements of `s`, or all of them when there are fewer:
      what a deque bounded by `n` holds after the elements of `s` were appended. */
  function Last<T>(s: seq<T>, n: nat): (r: seq<T>)
    ensures |r| == if |s| <= n then |s| else n
  {
    if |s| <= n then s else s[|s| - n..]
  }

  /** Appending to a bounded deque: the oldest element leaves when it is full. */
  function PushBounded<T>(s: seq<T>, x: T, n: nat): (r: seq<T>)
    requires n > 0 && |s| <= n
    ensures |r| <= n
  {
    if |s| == n then s[1..] + [x] else s + [x]
  }

  lemma {:induction false} PushBoundedIsLast<T>(s: seq<T>, x: T, n: nat)
    requires n > 0
    ensures PushBounded(Last(s, n), x, n) == Last(s + [x], n)
  {
    if |s| >= n {
      assert Last(s, n) == s[|s| - n..];
      assert s[|s| - n..][1..] == s[|s| + 1 - n..];
      assert (s + [x])[|s| + 1 - n..] == s[|s| + 1 - n..] + [x];
    }
  }

  lemma {:induction false} LastOfLast<T>(s: seq<T>, t: seq<T>, m: nat, n: nat)
    requires n <= m
    ensures Last(Last(s, m) + t, n) == Last(s + t, n)
  {
  }
}
