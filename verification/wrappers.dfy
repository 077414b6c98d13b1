/** The two failure-carrying shapes of the model.
    - `Option<T>` stands for a Python value that may be `None`.
    - `Result<T>` stands for a computation that may raise; `Err` carries the
      exception kind (`"KeyError"`, `"TypeError"`, ...) and nothing else.
    Both are failure-compatible, so `:-` propagates an `Err`. */
module Wrappers {

  datatype Option<+T> = None | Some(value: T) {
    function GetOr(default: T): T {
      match this
      case Some(v) => v
      case None => default
    }
  }

  datatype Result<+T> = Ok(value: T) | Err(error: string) {
    predicate IsFailure() {
      Err?
    }

    function PropagateFailure<U>(): Result<U>
      requires Err?
    {
      Err(error)
    }

    function Extract(): T
      requires Ok?
    {
      value
    }
  }

  /** `[f(x) for x in xs]` where `f` may raise: the first failure is the
      failure. */
  function MapResult<T, U>(xs: seq<T>, f: T -> Result<U>): (r: Result<seq<U>>)
    ensures r.Ok? <==> forall i :: 0 <= i < |xs| ==> f(xs[i]).Ok?
    ensures r.Ok? ==> |r.value| == |xs| && forall i :: 0 <= i < |xs| ==> f(xs[i]) == Ok(r.value[i])
    decreases |xs|
  {
    if |xs| == 0 then Ok([])
    else
      var y :- f(xs[0]);
      var rest :- MapResult(xs[1..], f);
      assert forall i :: 1 <= i < |xs| ==> xs[1..][i - 1] == xs[i];
      Ok([y] + rest)
  }

  /** Mapping a concatenation maps each part. */
  lemma MapResultAppend<T, U>(a: seq<T>, b: seq<T>, f: T -> Result<U>)
    requires MapResult(a, f).Ok? && MapResult(b, f).Ok?
    ensures MapResult(a + b, f) == Ok(MapResult(a, f).value + MapResult(b, f).value)
  {
    var ab := a + b;
    var r := MapResult(a, f).value + MapResult(b, f).value;
    forall i | 0 <= i < |ab|
      ensures f(ab[i]) == Ok(r[i])
    {
      if i < |a| {
        assert ab[i] == a[i];
      } else {
        assert ab[i] == b[i - |a|];
      }
    }
    MapResultUnique(ab, f, r);
  }

  /** The mapped list is the only one that matches `f` item by item. */
  lemma MapResultUnique<T, U>(xs: seq<T>, f: T -> Result<U>, r: seq<U>)
    requires |r| == |xs| && forall i :: 0 <= i < |xs| ==> f(xs[i]) == Ok(r[i])
    ensures MapResult(xs, f) == Ok(r)
  {
    var m := MapResult(xs, f);
    assert m.Ok?;
    assert forall i :: 0 <= i < |xs| ==> m.value[i] == r[i];
    assert m.value == r;
  }

  /** Mapping a list extended by one item: a failure in the list wins,
      then a failure on the new item; otherwise its image is appended. */
  lemma {:induction false} MapResultSnoc<T, U>(a: seq<T>, x: T, f: T -> Result<U>)
    ensures MapResult(a + [x], f) ==
      if MapResult(a, f).Err? then Err(MapResult(a, f).error)
      else if f(x).Err? then Err(f(x).error)
      else Ok(MapResult(a, f).value + [f(x).value])
    decreases |a|
  {
    if |a| == 0 {
      assert a + [x] == [x];
      assert [x][1..] == [];
      assert MapResult(a, f) == Ok([]);
      if f(x).Ok? {
        assert [f(x).value] + [] == [] + [f(x).value];
      }
    } else {
      assert (a + [x])[0] == a[0];
      assert (a + [x])[1..] == a[1..] + [x];
      MapResultSnoc(a[1..], x, f);
      if f(a[0]).Ok? && MapResult(a[1..], f).Ok? && f(x).Ok? {
        assert [f(a[0]).value] + (MapResult(a[1..], f).value + [f(x).value])
            == ([f(a[0]).value] + MapResult(a[1..], f).value) + [f(x).value];
      }
    }
  }
}
