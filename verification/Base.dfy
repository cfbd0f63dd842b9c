/** Values shared by every component: optional values, results, and time as
    whole nanoseconds since Go's zero instant. */
module Base {

  datatype Option<+T> = None | Some(value: T)

  datatype Result<+T, +E> = Ok(value: T) | Err(error: E)

  /** Nanoseconds since the zero instant; `ZERO_TIME` is Go's `time.Time{}`. */
  type Instant = int

  const ZERO_TIME: Instant := 0
  const SECOND := 1_000_000_000
  const HOUR := 3600 * SECOND

  function Max(a: int, b: int): int { if a < b then b else a }

  function Min(a: int, b: int): int { if a < b then a else b }

  /** `int64(d.Seconds())` for a duration in nanoseconds: truncation toward zero. */
  function WholeSeconds(nanos: int): (s: int)
    ensures nanos >= 0 ==> 0 <= s && s * 1_000_000_000 <= nanos < (s + 1) * 1_000_000_000
    ensures nanos < 0 ==> s <= 0 && (s - 1) * 1_000_000_000 < nanos <= s * 1_000_000_000
  {
    if nanos >= 0 then nanos / SECOND else -((-nanos) / SECOND)
  }

  function Last<T>(xs: seq<T>): T
    requires xs != []
  {
    xs[|xs| - 1]
  }

  function Init<T>(xs: seq<T>): seq<T>
    requires xs != []
  {
    xs[..|xs| - 1]
  }

  /** The two halves of `xs + [x]`, which every proof by appending uses. */
  lemma AppendParts<T>(xs: seq<T>, x: T)
    ensures Last(xs + [x]) == x && Init(xs + [x]) == xs
  {
  }

  function Without<T>(xs: seq<T>, i: nat): seq<T>
    requires i < |xs|
  {
    xs[..i] + xs[i + 1..]
  }

  /** In a permutation, the last element of one side can be struck out of the other. */
  lemma StrikeOutLast<T>(xs: seq<T>, ys: seq<T>) returns (i: nat)
    requires xs != [] && multiset(xs) == multiset(ys)
    ensures i < |ys| && ys[i] == Last(xs) && multiset(Init(xs)) == multiset(Without(ys, i))
  {
    assert xs == Init(xs) + [Last(xs)];
    assert Last(xs) in multiset(xs);
    i :| 0 <= i < |ys| && ys[i] == Last(xs);
    assert ys == ys[..i] + [ys[i]] + ys[i + 1..];
    assert multiset(Without(ys, i)) == multiset(ys) - multiset{ys[i]};
  }
}
