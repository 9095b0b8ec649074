/** Shared value types and small sequence functions. */
module Common {

  datatype Option<+T> = None | Some(value: T)

  datatype Result<+T, +E> = Ok(value: T) | Err(error: E)

  type Byte = n: int | 0 <= n < 256

  type Bytes = seq<Byte>

  /** The first `n` elements of `s`, or all of them when there are fewer. */
  function Clip<T>(s: seq<T>, n: nat): (r: seq<T>)
    ensures r <= s && |r| == if n <= |s| then n else |s|
  {
    if n <= |s| then s[..n] else s
  }

  lemma Assoc<T>(a: seq<T>, b: seq<T>, c: seq<T>)
    ensures (a + b) + c == a + (b + c)
  {
  }

  lemma SplitAt<T>(a: seq<T>, b: seq<T>)
    ensures (a + b)[..|a|] == a && (a + b)[|a|..] == b
  {
  }

  lemma InSnoc<T>(s: seq<T>, last: T, x: T)
    ensures x in s + [last] <==> x in s || x == last
  {
  }

  lemma Unsnoc<T>(s: seq<T>)
    requires s != []
    ensures s == s[..|s| - 1] + [s[|s| - 1]]
  {
  }

  /** The concatenation of a list of chunks. */
  function Flatten<T>(chunks: seq<seq<T>>): seq<T> {
    if chunks == [] then [] else chunks[0] + Flatten(chunks[1..])
  }

  lemma {:induction false} FlattenAppend<T>(chunks: seq<seq<T>>, more: seq<seq<T>>)
    ensures Flatten(chunks + more) == Flatten(chunks) + Flatten(more)
  {
    if chunks == [] {
      assert chunks + more == more;
    } else {
      FlattenAppend(chunks[1..], more);
      assert (chunks + more)[1..] == chunks[1..] + more;
      Assoc(chunks[0], Flatten(chunks[1..]), Flatten(more));
    }
  }

  lemma FlattenSnoc<T>(chunks: seq<seq<T>>, chunk: seq<T>)
    ensures Flatten(chunks + [chunk]) == Flatten(chunks) + chunk
  {
    FlattenAppend(chunks, [chunk]);
    assert Flatten([chunk]) == chunk + Flatten<T>([]);
  }

  /** The concatenation of the images of a list. */
  function ConcatMap<T, U>(f: T -> seq<U>, s: seq<T>): seq<U> {
    if s == [] then [] else f(s[0]) + ConcatMap(f, s[1..])
  }

  lemma {:induction false} ConcatMapAppend<T, U>(f: T -> seq<U>, s: seq<T>, more: seq<T>)
    ensures ConcatMap(f, s + more) == ConcatMap(f, s) + ConcatMap(f, more)
  {
    if s == [] {
      assert s + more == more;
    } else {
      ConcatMapAppend(f, s[1..], more);
      assert (s + more)[1..] == s[1..] + more;
      Assoc(f(s[0]), ConcatMap(f, s[1..]), ConcatMap(f, more));
    }
  }

  lemma ConcatMapSnoc<T, U>(f: T -> seq<U>, s: seq<T>, last: T)
    ensures ConcatMap(f, s + [last]) == ConcatMap(f, s) + f(last)
  {
    ConcatMapAppend(f, s, [last]);
    assert ConcatMap(f, [last]) == f(last) + ConcatMap(f, []);
  }
}
