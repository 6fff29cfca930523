/**
 * Option and Result values, and the Python exceptions that the evaluation
 * script can raise. A raised exception ends the run, so every operation that
 * can raise returns a `Result` carrying the exception instead of a value.
 */
module Results {

  datatype Option<+T> = None | Some(value: T)

  /** The exceptions raised by the script, by Python class. */
  datatype Error =
    | KeyError(key: string)   // `d[key]` on a dict without that key
    | IndexError              // a list index past the end
    | ValueError              // int()/float() on bad text, or unpacking the wrong number of values
    | ZeroDivisionError       // a division whose divisor is zero
    | StopIteration           // next() on an exhausted reader
    | InvalidHeader           // the ValueError "Invalid header. Missing required fields."

  datatype Result<+T> = Ok(value: T) | Err(error: Error) {
    predicate IsFailure() { Err? }

    function PropagateFailure<U>(): Result<U>
      requires Err?
    {
      Err(error)
    }

    function Extract(): T
      requires Ok?
    {
      value
    }
  }

  /** `xs + rs` inside a successful result, and the error otherwise. */
  function Prepend<T>(xs: seq<T>, r: Result<seq<T>>): Result<seq<T>> {
    match r
    case Ok(rs) => Ok(xs + rs)
    case Err(e) => Err(e)
  }

  lemma PrependConcat<T>(a: seq<T>, b: seq<T>, r: Result<seq<T>>)
    ensures Prepend(a + b, r) == Prepend(a, Prepend(b, r))
    ensures Prepend([], r) == r
  {
    if r.Ok? {
      assert [] + r.value == r.value;
      assert (a + b) + r.value == a + (b + r.value);
    }
  }

  /** `f` applied to every element, in order, or the exception of the first element it fails on. */
  function MapAll<S, T>(xs: seq<S>, f: S -> Result<T>): Result<seq<T>> {
    if xs == [] then Ok([])
    else
      var y :- f(xs[0]);
      Prepend([y], MapAll(xs[1..], f))
  }

  /** `f` rejects `xs[k]` with `e` and accepts every element before it. */
  predicate FailsFirstAt<S, T>(xs: seq<S>, f: S -> Result<T>, k: nat, e: Error) {
    k < |xs| && f(xs[k]) == Err(e) && forall j :: 0 <= j < k ==> f(xs[j]).Ok?
  }

  /** The map succeeds exactly when `f` succeeds on every element, and then keeps length and order. */
  lemma {:induction false} MapAllEach<S, T>(xs: seq<S>, f: S -> Result<T>)
    ensures MapAll(xs, f).Ok? <==> forall k :: 0 <= k < |xs| ==> f(xs[k]).Ok?
    ensures MapAll(xs, f).Ok? ==>
              |MapAll(xs, f).value| == |xs|
              && forall k :: 0 <= k < |xs| ==> f(xs[k]) == Ok(MapAll(xs, f).value[k])
  {
    if xs != [] {
      var tail := xs[1..];
      MapAllEach(tail, f);
      var rest := MapAll(tail, f);
      assert forall k :: 1 <= k < |xs| ==> xs[k] == tail[k - 1];
      if f(xs[0]).Ok? && rest.Ok? {
        assert MapAll(xs, f) == Ok([f(xs[0]).value] + rest.value);
      } else if f(xs[0]).Ok? {
        var k :| 0 <= k < |tail| && !f(tail[k]).Ok?;
        assert !f(xs[k + 1]).Ok?;
      }
    }
  }

  /** `f` accepts every element of `xs`. */
  predicate AllOk<S, T>(xs: seq<S>, f: S -> Result<T>) {
    forall k :: 0 <= k < |xs| ==> f(xs[k]).Ok?
  }

  /** `ys` holds, in order, what `f` gives for each element of `xs`. */
  ghost predicate MapsTo<S, T>(xs: seq<S>, f: S -> Result<T>, ys: seq<T>) {
    |ys| == |xs| && forall k :: 0 <= k < |xs| ==> f(xs[k]) == Ok(ys[k])
  }

  /** `MapAllEach` for a result `r` known to be the map. */
  lemma MapAllEachOf<S, T>(xs: seq<S>, f: S -> Result<T>, r: Result<seq<T>>)
    requires r == MapAll(xs, f)
    ensures r.Ok? <==> AllOk(xs, f)
    ensures r.Ok? ==> MapsTo(xs, f, r.value)
  {
    MapAllEach(xs, f);
  }

  /** The same, for a map over every element but the first (the rows after a header). */
  lemma MapAllTailEachOf<S, T>(xs: seq<S>, f: S -> Result<T>, r: Result<seq<T>>)
    requires xs != [] && r == MapAll(xs[1..], f)
    ensures r.Ok? <==> forall k :: 1 <= k < |xs| ==> f(xs[k]).Ok?
    ensures r.Ok? ==> |r.value| == |xs| - 1 && forall k :: 0 <= k < |xs| - 1 ==> f(xs[k + 1]) == Ok(r.value[k])
  {
    var tail := xs[1..];
    MapAllEachOf(tail, f, r);
    assert forall k :: 1 <= k < |xs| ==> xs[k] == tail[k - 1];
  }

  /** A failed map raises the exception of the first element `f` rejects. */
  lemma {:induction false} MapAllFirstError<S, T>(xs: seq<S>, f: S -> Result<T>)
    requires MapAll(xs, f).Err?
    ensures exists k :: FailsFirstAt(xs, f, k, MapAll(xs, f).error)
  {
    var e := MapAll(xs, f).error;
    if f(xs[0]).Err? {
      assert FailsFirstAt(xs, f, 0, e);
    } else {
      var tail := xs[1..];
      assert MapAll(xs, f) == Prepend([f(xs[0]).value], MapAll(tail, f));
      MapAllFirstError(tail, f);
      var k: nat :| FailsFirstAt(tail, f, k, e);
      assert forall j :: 1 <= j < k + 1 ==> xs[j] == tail[j - 1];
      assert FailsFirstAt(xs, f, k + 1, e);
    }
  }

  /** A map whose function yields `ys[k]` for every `xs[k]` yields `ys`. */
  lemma MapAllPointwise<S, T>(xs: seq<S>, f: S -> Result<T>, ys: seq<T>)
    requires |xs| == |ys| && forall k :: 0 <= k < |xs| ==> f(xs[k]) == Ok(ys[k])
    ensures MapAll(xs, f) == Ok(ys)
  {
    MapAllEach(xs, f);
    assert MapAll(xs, f).value == ys;
  }

  /** The first element `f` fails on fails the whole map, with its exception. */
  lemma {:induction false} MapAllFirstFailure<S, T>(xs: seq<S>, i: nat, f: S -> Result<T>)
    requires i < |xs| && (forall k :: 0 <= k < i ==> f(xs[k]).Ok?) && f(xs[i]).Err?
    ensures MapAll(xs, f) == Err(f(xs[i]).error)
  {
    if i > 0 {
      var tail := xs[1..];
      assert forall k :: 0 <= k < i - 1 ==> tail[k] == xs[k + 1];
      MapAllFirstFailure(tail, i - 1, f);
    }
  }
}
