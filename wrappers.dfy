/** Option and Result types shared by every module, and the exceptions the modelled Python code raises. */
module Wrappers {

  datatype Option<+T> = None | Some(value: T) {
    function GetOr(default: T): T {
      match this
      case Some(v) => v
      case None => default
    }
  }

  /** The kinds of exception the modelled code can raise, named after the Python classes. */
  datatype Error =
    | ValueError(message: string)
    | AttributeError(message: string)
    | TypeError(message: string)
    | UnboundLocalError(name: string)
    /** pydantic's validation failure: a required field received None or an unparsable value */
    | ValidationError(field: string)
    /** pydantic_ai's request to the model to retry */
    | ModelRetry(message: string)
    /** a DuckDB error other than a constraint violation */
    | DatabaseError(message: string)

  /** The outcome of a call that may raise: its value, or the exception it raised. */
  datatype Result<+T> = Ok(value: T) | Err(error: Error) {
    predicate IsFailure() {
      Err?
    }

    function PropagateFailure<U>(): Result<U>
      requires Err?
    {
      Err(error)
    }

    function Extract(): T
      requires Ok?
    {
      value
    }
  }

  /** Applies f to each element in order; the first element f raises on makes the whole call raise, as a comprehension does. */
  function MapResult<A, B>(xs: seq<A>, f: A --> Result<B>): (r: Result<seq<B>>)
    requires forall x | x in xs :: f.requires(x)
    ensures r.Ok? ==> |r.value| == |xs|
  {
    if xs == [] then Ok([])
    else
      match f(xs[0])
      case Err(err) => Err(err)
      case Ok(head) =>
        match MapResult(xs[1..], f)
        case Err(err) => Err(err)
        case Ok(tail) => Ok([head] + tail)
  }

  /** The values present in a sequence of options, in order. */
  function Somes<T>(os: seq<Option<T>>): (r: seq<T>)
    ensures |r| <= |os|
    ensures forall k | 0 <= k < |os| && os[k].Some? :: os[k].value in r
    ensures forall j | 0 <= j < |r| :: Some(r[j]) in os
    decreases |os|
  {
    if os == [] then []
    else
      var front := os[..|os| - 1];
      assert forall k | 0 <= k < |os| - 1 :: front[k] == os[k];
      Somes(front) + (if os[|os| - 1].Some? then [os[|os| - 1].value] else [])
  }

  /** Adding an option at the end adds its value, if it has one. */
  lemma SomesSnoc<T>(os: seq<Option<T>>, o: Option<T>)
    ensures Somes(os + [o]) == Somes(os) + (if o.Some? then [o.value] else [])
  {
    assert (os + [o])[..|os|] == os;
  }

  /** The values of the earlier options come first: Somes distributes over concatenation. */
  lemma {:induction false} SomesAppend<T>(a: seq<Option<T>>, b: seq<Option<T>>)
    ensures Somes(a + b) == Somes(a) + Somes(b)
    decreases |b|
  {
    if b == [] {
      assert a + b == a;
    } else {
      var front := b[..|b| - 1];
      var o := b[|b| - 1];
      assert b == front + [o];
      assert a + b == (a + front) + [o];
      SomesAppend(a, front);
      SomesSnoc(a + front, o);
      SomesSnoc(front, o);
    }
  }

  /** The k-th result is f of the k-th element. */
  lemma {:induction false} MapResultEach<A, B>(xs: seq<A>, f: A --> Result<B>, k: nat)
    requires forall x | x in xs :: f.requires(x)
    requires MapResult(xs, f).Ok? && k < |xs|
    ensures f(xs[k]) == Ok(MapResult(xs, f).value[k])
    decreases k
  {
    if k > 0 {
      MapResultEach(xs[1..], f, k - 1);
      assert xs[1..][k - 1] == xs[k];
    }
  }

  /** The call raises exactly when f raises on some element, and then with the error of the first such element. */
  lemma {:induction false} MapResultFails<A, B>(xs: seq<A>, f: A --> Result<B>)
    requires forall x | x in xs :: f.requires(x)
    ensures MapResult(xs, f).Err? <==> exists k | 0 <= k < |xs| :: f(xs[k]).Err?
    ensures MapResult(xs, f).Err? ==>
              exists k | 0 <= k < |xs| :: f(xs[k]).Err? && MapResult(xs, f).error == f(xs[k]).error
                                         && forall j | 0 <= j < k :: f(xs[j]).Ok?
  {
    if xs != [] {
      MapResultFails(xs[1..], f);
      if MapResult(xs, f).Err? && f(xs[0]).Ok? {
        var k :| 0 <= k < |xs[1..]| && f(xs[1..][k]).Err? && MapResult(xs[1..], f).error == f(xs[1..][k]).error
                 && forall j | 0 <= j < k :: f(xs[1..][j]).Ok?;
        forall j | 0 <= j < k + 1 ensures f(xs[j]).Ok? {
          if j > 0 {
            assert xs[j] == xs[1..][j - 1];
          }
        }
        assert xs[k + 1] == xs[1..][k];
      }
      if MapResult(xs, f).Ok? {
        forall k | 0 <= k < |xs| ensures f(xs[k]).Ok? {
          if k > 0 {
            assert xs[k] == xs[1..][k - 1];
          }
        }
      }
    }
  }

  /** Extending the input by one element extends a successful result by f of it. */
  lemma {:induction false} MapResultSnoc<A, B>(xs: seq<A>, x: A, f: A --> Result<B>)
    requires forall y | y in xs + [x] :: f.requires(y)
    ensures MapResult(xs + [x], f) ==
              if MapResult(xs, f).Err? then MapResult(xs, f)
              else if f(x).Err? then Err(f(x).error)
              else Ok(MapResult(xs, f).value + [f(x).value])
    decreases |xs|
  {
    if xs == [] {
      assert xs + [x] == [x] && [x][1..] == [];
      if f(x).Ok? {
        assert MapResult([x], f) == Ok([f(x).value] + []);
        assert [f(x).value] + [] == [] + [f(x).value];
      }
    } else {
      assert (xs + [x])[0] == xs[0] && (xs + [x])[1..] == xs[1..] + [x];
      MapResultSnoc(xs[1..], x, f);
      if f(xs[0]).Ok? && MapResult(xs[1..], f).Ok? && f(x).Ok? {
        var h, t, y := f(xs[0]).value, MapResult(xs[1..], f).value, f(x).value;
        assert MapResult(xs + [x], f) == Ok([h] + (t + [y]));
        assert [h] + (t + [y]) == ([h] + t) + [y];
      }
    }
  }

  /** Once a prefix of the input raises, the whole call raises the same. */
  lemma {:induction false} MapResultPrefixErr<A, B>(xs: seq<A>, n: nat, f: A --> Result<B>)
    requires forall x | x in xs :: f.requires(x)
    requires n <= |xs| && MapResult(xs[..n], f).Err?
    ensures MapResult(xs, f) == MapResult(xs[..n], f)
    decreases |xs| - n
  {
    if n == |xs| {
      assert xs[..n] == xs;
    } else {
      MapResultSnoc(xs[..n], xs[n], f);
      assert xs[..n + 1] == xs[..n] + [xs[n]];
      MapResultPrefixErr(xs, n + 1, f);
    }
  }

  /** One step of a loop that maps xs element by element: the prefix grows by one, or the whole call fails. */
  lemma MapResultStep<A, B>(xs: seq<A>, i: nat, acc: seq<B>, y: Result<B>, f: A --> Result<B>)
    requires forall x | x in xs :: f.requires(x)
    requires i < |xs| && MapResult(xs[..i], f) == Ok(acc) && y == f(xs[i])
    ensures y.Err? ==> MapResult(xs, f) == Err(y.error)
    ensures y.Ok? ==> MapResult(xs[..i + 1], f) == Ok(acc + [y.value])
  {
    assert xs[..i + 1] == xs[..i] + [xs[i]];
    MapResultSnoc(xs[..i], xs[i], f);
    if y.Err? {
      MapResultPrefixErr(xs, i + 1, f);
    }
  }

  /** A loop that reached the end has mapped the whole input. */
  lemma MapResultDone<A, B>(xs: seq<A>, acc: seq<B>, f: A --> Result<B>)
    requires forall x | x in xs :: f.requires(x)
    requires MapResult(xs[..|xs|], f) == Ok(acc)
    ensures MapResult(xs, f) == Ok(acc)
  {
    assert xs[..|xs|] == xs;
  }
}
