/** Failure-carrying values used in place of the source's exceptions and
    missing results. */
module Results {

  datatype Option<+T> = None | Some(value: T)

  /** `Err` stands for an exception the Python code would raise. */
  datatype Result<+T, +E> = Ok(value: T) | Err(error: E)

  /** `[f(x) for x in xs]` where `f` may raise: all results, in order, or
      nothing as soon as one fails. */
  function MapAll<A, B>(f: A -> Option<B>, xs: seq<A>): (r: Option<seq<B>>)
    ensures r.Some? ==> |r.value| == |xs|
  {
    if |xs| == 0 then Some([])
    else
      match (f(xs[0]), MapAll(f, xs[1..]))
      case (Some(y), Some(ys)) => Some([y] + ys)
      case _ => None
  }

  /** `MapAll` succeeds exactly when `f` succeeds on every element, and then
      holds `f`'s result for each element at that element's position. */
  lemma {:induction false} MapAllSpec<A, B>(f: A -> Option<B>, xs: seq<A>)
    ensures MapAll(f, xs).Some? <==> forall i :: 0 <= i < |xs| ==> f(xs[i]).Some?
    ensures MapAll(f, xs).Some? ==> forall i :: 0 <= i < |xs| ==> f(xs[i]) == Some(MapAll(f, xs).value[i])
    decreases |xs|
  {
    if |xs| > 0 {
      MapAllSpec(f, xs[1..]);
      assert forall i :: 1 <= i < |xs| ==> xs[i] == xs[1..][i - 1];
    }
  }

  /** Mapping an optional first element in front of `rest`. */
  lemma MapAllPrepend<A, B>(f: A -> Option<B>, take: bool, x: A, rest: seq<A>)
    ensures MapAll(f, (if take then [x] else []) + rest) ==
      if !take then MapAll(f, rest)
      else match (f(x), MapAll(f, rest))
        case (Some(y), Some(ys)) => Some([y] + ys)
        case _ => None
  {
    if take {
      assert ([x] + rest)[1..] == rest;
    } else {
      assert [] + rest == rest;
    }
  }

  /** One step of collecting results: if `mid` is `base` with `f(x)` when
      `x` is taken, and `fin` is `mid` with the results for `rest`, then
      `fin` is `base` with the results for the taken `x` and `rest`. */
  lemma MapAllCollect<A, B>(f: A -> Option<B>, take: bool, x: A, rest: seq<A>, base: seq<B>, mid: seq<B>, fin: seq<B>)
    requires MapAll(f, rest).Some? && fin == mid + MapAll(f, rest).value
    requires take ==> f(x).Some? && mid == base + [f(x).value]
    requires !take ==> mid == base
    ensures MapAll(f, (if take then [x] else []) + rest).Some?
    ensures fin == base + MapAll(f, (if take then [x] else []) + rest).value
  {
    MapAllPrepend(f, take, x, rest);
    if take {
      assert fin == base + ([f(x).value] + MapAll(f, rest).value);
    }
  }

  /** Where a pass failed: the index of the element and the reason. */
  datatype Failure<+E> = Failure(line: nat, kind: E)

  /** A pass over `xs`, whose first element has index `index`, applying
      `step` to each element in turn; it stops at the first element on
      which `step` fails. */
  function Fold<S, L, E>(step: (S, L) -> Result<S, E>, st: S, xs: seq<L>, index: nat): (r: Result<S, Failure<E>>)
    ensures r.Err? ==> index <= r.error.line < index + |xs|
    decreases |xs|
  {
    if |xs| == 0 then Ok(st)
    else
      match step(st, xs[0])
      case Err(e) => Err(Failure(index, e))
      case Ok(next) => Fold(step, next, xs[1..], index + 1)
  }

  /** Passing over `a + b` is passing over `a` and then over `b` from where
      the first pass ended. */
  lemma {:induction false} FoldAppend<S, L, E>(step: (S, L) -> Result<S, E>, st: S, a: seq<L>, b: seq<L>, index: nat)
    ensures Fold(step, st, a + b, index) ==
      match Fold(step, st, a, index)
      case Ok(mid) => Fold(step, mid, b, index + |a|)
      case Err(e) => Err(e)
    decreases |a|
  {
    if |a| == 0 {
      assert a + b == b;
    } else {
      assert (a + b)[0] == a[0];
      assert (a + b)[1..] == a[1..] + b;
      if step(st, a[0]).Ok? {
        FoldAppend(step, step(st, a[0]).value, a[1..], b, index + 1);
      }
    }
  }

  /** A failed pass stops at the first element on which `step` fails: the
      pass over every element before it succeeds, and `step` fails on it
      with the reported reason. */
  lemma {:induction false} FoldFirstError<S, L, E>(step: (S, L) -> Result<S, E>, st: S, xs: seq<L>, index: nat)
    requires Fold(step, st, xs, index).Err?
    ensures var e := Fold(step, st, xs, index).error;
      var k := e.line - index;
      && 0 <= k < |xs|
      && Fold(step, st, xs[..k], index).Ok?
      && step(Fold(step, st, xs[..k], index).value, xs[k]) == Err(e.kind)
    decreases |xs|
  {
    var e := Fold(step, st, xs, index).error;
    match step(st, xs[0])
    case Err(kind) =>
      assert e.line == index;
      assert xs[..0] == [];
    case Ok(next) =>
      FoldFirstError(step, next, xs[1..], index + 1);
      var k := e.line - index;
      assert xs[1..][..k - 1] == xs[1..k];
      assert xs[..k] == [xs[0]] + xs[1..k];
      assert xs[1..][k - 1] == xs[k];
  }
}
