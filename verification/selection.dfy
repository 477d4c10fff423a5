/** The shape of a Python loop that appends `f(x)` for each `x` passing a
    test: `[f(x) for x in xs if keep(x)]`. */
module Selection {
  import opened Outcomes

  function Select<T, U>(xs: seq<T>, keep: T -> bool, f: T -> U): (r: seq<U>)
    ensures |r| <= |xs|
  {
    if |xs| == 0 then []
    else
      var n := |xs| - 1;
      Select(xs[..n], keep, f) + (if keep(xs[n]) then [f(xs[n])] else [])
  }

  /** Every selected value is the image of some input that passed the test. */
  lemma {:induction false} SelectSound<T, U>(xs: seq<T>, keep: T -> bool, f: T -> U)
    ensures forall y :: y in Select(xs, keep, f) ==> exists k :: 0 <= k < |xs| && keep(xs[k]) && y == f(xs[k])
    decreases |xs|
  {
    if |xs| > 0 {
      var n := |xs| - 1;
      var init := xs[..n];
      SelectSound(init, keep, f);
      forall y | y in Select(xs, keep, f)
        ensures exists k :: 0 <= k < |xs| && keep(xs[k]) && y == f(xs[k])
      {
        if y in Select(init, keep, f) {
          var k :| 0 <= k < |init| && keep(init[k]) && y == f(init[k]);
          assert init[k] == xs[k];
        } else {
          assert keep(xs[n]) && y == f(xs[n]);
        }
      }
    }
  }

  /** Every input that passes the test has its image selected. */
  lemma {:induction false} SelectComplete<T, U>(xs: seq<T>, keep: T -> bool, f: T -> U)
    ensures forall k :: 0 <= k < |xs| && keep(xs[k]) ==> f(xs[k]) in Select(xs, keep, f)
    decreases |xs|
  {
    if |xs| > 0 {
      var n := |xs| - 1;
      var init := xs[..n];
      SelectComplete(init, keep, f);
      forall k | 0 <= k < |xs| && keep(xs[k])
        ensures f(xs[k]) in Select(xs, keep, f)
      {
        if k < n {
          assert init[k] == xs[k];
        }
      }
    }
  }

  /** Selection keeps the order of the inputs: it distributes over `+`. */
  lemma {:induction false} SelectConcat<T, U>(a: seq<T>, b: seq<T>, keep: T -> bool, f: T -> U)
    ensures Select(a + b, keep, f) == Select(a, keep, f) + Select(b, keep, f)
    decreases |b|
  {
    if |b| == 0 {
      assert a + b == a;
    } else {
      var n := |b| - 1;
      assert (a + b)[..|a + b| - 1] == a + b[..n];
      assert (a + b)[|a + b| - 1] == b[n];
      SelectConcat(a, b[..n], keep, f);
    }
  }

  /** When every input passes the test, nothing is dropped. */
  lemma {:induction false} SelectAll<T, U>(xs: seq<T>, keep: T -> bool, f: T -> U)
    requires forall i :: 0 <= i < |xs| ==> keep(xs[i])
    ensures |Select(xs, keep, f)| == |xs|
    decreases |xs|
  {
    if |xs| > 0 {
      var n := |xs| - 1;
      assert forall i :: 0 <= i < n ==> xs[..n][i] == xs[i];
      SelectAll(xs[..n], keep, f);
    }
  }

  /** The images of the present entries, in order: the shape of a loop whose
      body is skipped for entries whose processing raised. */
  function Present<T, U>(xs: seq<Option<T>>, f: T -> U): (r: seq<U>)
    ensures |r| <= |xs|
    ensures (forall i :: 0 <= i < |xs| ==> xs[i].Some?) ==> |r| == |xs|
  {
    if |xs| == 0 then []
    else
      var n := |xs| - 1;
      assert forall i :: 0 <= i < n ==> xs[..n][i] == xs[i];
      Present(xs[..n], f) + (if xs[n].Some? then [f(xs[n].value)] else [])
  }

  /** Skipping absent entries keeps the order of the rest: it distributes
      over `+`. */
  lemma {:induction false} PresentConcat<T, U>(a: seq<Option<T>>, b: seq<Option<T>>, f: T -> U)
    ensures Present(a + b, f) == Present(a, f) + Present(b, f)
    decreases |b|
  {
    if |b| == 0 {
      assert a + b == a;
    } else {
      var n := |b| - 1;
      assert (a + b)[..|a + b| - 1] == a + b[..n];
      assert (a + b)[|a + b| - 1] == b[n];
      PresentConcat(a, b[..n], f);
    }
  }

  /** Every image comes from a present entry. */
  lemma {:induction false} PresentSound<T, U>(xs: seq<Option<T>>, f: T -> U)
    ensures forall y :: y in Present(xs, f) ==> exists k :: 0 <= k < |xs| && xs[k].Some? && y == f(xs[k].value)
    decreases |xs|
  {
    if |xs| > 0 {
      var n := |xs| - 1;
      var init := xs[..n];
      PresentSound(init, f);
      forall y | y in Present(xs, f)
        ensures exists k :: 0 <= k < |xs| && xs[k].Some? && y == f(xs[k].value)
      {
        if y in Present(init, f) {
          var k :| 0 <= k < |init| && init[k].Some? && y == f(init[k].value);
          assert init[k] == xs[k];
        } else {
          assert xs[n].Some? && y == f(xs[n].value);
        }
      }
    }
  }

  /** Every present entry has its image in the result. */
  lemma {:induction false} PresentComplete<T, U>(xs: seq<Option<T>>, f: T -> U)
    ensures forall k :: 0 <= k < |xs| && xs[k].Some? ==> f(xs[k].value) in Present(xs, f)
    decreases |xs|
  {
    if |xs| > 0 {
      var n := |xs| - 1;
      var init := xs[..n];
      PresentComplete(init, f);
      forall k | 0 <= k < |xs| && xs[k].Some?
        ensures f(xs[k].value) in Present(xs, f)
      {
        if k < n {
          assert init[k] == xs[k];
        }
      }
    }
  }
}
