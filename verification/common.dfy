/** Shared vocabulary of the backend model: optional request values, the
    HTTP statuses the controllers answer with, and the two array-update
    operators of the document store (`$push` appends, `$pull` removes). */
module Common {

  /** A request field or a stored reference that may be absent. */
  datatype Option<+T> = None | Some(value: T)

  /** The statuses a controller can answer with (401 is left out: every
      modelled route sits behind the authentication gate). */
  datatype Status = Ok | Created | BadRequest | NotFound | ServerError {
    function Code(): (c: nat)
      ensures 200 <= c < 600
      ensures (c < 300) <==> (this == Ok || this == Created)
    {
      match this
      case Ok => 200
      case Created => 201
      case BadRequest => 400
      case NotFound => 404
      case ServerError => 500
    }
  }

  /** No element occurs twice. */
  predicate Distinct<T(==)>(xs: seq<T>) {
    forall i, j :: 0 <= i < j < |xs| ==> xs[i] != xs[j]
  }

  /** The store's `$pull`: every element equal to `x` is removed and every
      other element keeps its number of occurrences; PullConcat shows the
      rest also keep their order. */
  function Pull<T(==,!new)>(xs: seq<T>, x: T): (r: seq<T>)
    ensures x !in r
    ensures forall y :: y != x ==> (y in r <==> y in xs)
    ensures multiset(r) == multiset(xs)[x := 0]
    ensures |r| <= |xs|
  {
    if |xs| == 0 then []
    else
      assert xs == [xs[0]] + xs[1..];
      if xs[0] == x then Pull(xs[1..], x)
      else [xs[0]] + Pull(xs[1..], x)
  }

  /** Pulling from a concatenation pulls from each part and keeps the
      parts in place; with single-element parts this fixes the order of
      the result to that of `xs`. */
  lemma {:induction false} PullConcat<T(!new)>(a: seq<T>, b: seq<T>, x: T)
    ensures Pull(a + b, x) == Pull(a, x) + Pull(b, x)
  {
    if |a| > 0 {
      assert (a + b)[0] == a[0];
      assert (a + b)[1..] == a[1..] + b;
      PullConcat(a[1..], b, x);
    } else {
      assert a + b == b;
    }
  }

  /** Pulling from a one-element array drops it exactly when it is `x`. */
  lemma PullSingle<T(!new)>(y: T, x: T)
    ensures Pull([y], x) == if y == x then [] else [y]
  {
    assert [y][1..] == [];
  }

  /** Pulling an absent element leaves the array as it was. */
  lemma {:induction false} PullAbsent<T(!new)>(xs: seq<T>, x: T)
    requires x !in xs
    ensures Pull(xs, x) == xs
  {
    if |xs| > 0 {
      assert xs[0] != x;
      assert x !in xs[1..];
      PullAbsent(xs[1..], x);
      assert [xs[0]] + xs[1..] == xs;
    }
  }

  /** `$pull` undoes a `$push` of an element that was not there before. */
  lemma {:induction false} PullUndoesPush<T(!new)>(xs: seq<T>, x: T)
    requires x !in xs
    ensures Pull(xs + [x], x) == xs
  {
    if |xs| == 0 {
      assert xs + [x] == [x];
      assert [x][1..] == [];
    } else {
      assert (xs + [x])[0] == xs[0] != x;
      assert (xs + [x])[1..] == xs[1..] + [x];
      assert x !in xs[1..];
      PullUndoesPush(xs[1..], x);
      assert [xs[0]] + xs[1..] == xs;
    }
  }

  /** `$pull` never introduces a duplicate. */
  lemma {:induction false} PullKeepsDistinct<T(!new)>(xs: seq<T>, x: T)
    requires Distinct(xs)
    ensures Distinct(Pull(xs, x))
  {
    if |xs| > 0 {
      var tail := xs[1..];
      assert Distinct(tail) by {
        forall i, j | 0 <= i < j < |tail|
          ensures tail[i] != tail[j]
        {
          assert tail[i] == xs[i + 1] && tail[j] == xs[j + 1];
        }
      }
      PullKeepsDistinct(tail, x);
      if xs[0] != x {
        assert xs[0] !in tail by {
          forall k | 0 <= k < |tail|
            ensures tail[k] != xs[0]
          {
            assert tail[k] == xs[k + 1];
          }
        }
        var rest := Pull(tail, x);
        assert xs[0] !in rest;
        var r := [xs[0]] + rest;
        forall i, j | 0 <= i < j < |r|
          ensures r[i] != r[j]
        {
          if i == 0 {
            assert r[j] == rest[j - 1];
            assert r[j] in rest;
          } else {
            assert r[i] == rest[i - 1] && r[j] == rest[j - 1];
          }
        }
      }
    }
  }

  /** `$push` of an absent element keeps the array free of duplicates. */
  lemma PushKeepsDistinct<T>(xs: seq<T>, x: T)
    requires Distinct(xs) && x !in xs
    ensures Distinct(xs + [x])
  {
  }
}
