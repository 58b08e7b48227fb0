/** The absent-or-present value used for optional record fields and for
    parsers that may reject their input (Java's `null`). */
module Optional {

  datatype Option<+T> = None | Some(value: T) {

    /** The carried value, or `default` when absent. */
    function GetOr(default: T): T {
      match this
      case Some(v) => v
      case None => default
    }
  }

  /** The present values of `os`, in order, with the absent ones dropped. */
  function Present<T>(os: seq<Option<T>>): (vs: seq<T>)
    ensures |vs| <= |os|
  {
    if |os| == 0 then []
    else
      Present(os[..|os| - 1])
        + match os[|os| - 1] case None => [] case Some(v) => [v]
  }

  /** Dropping absent values distributes over concatenation. */
  lemma {:induction false} PresentAppend<T>(a: seq<Option<T>>, b: seq<Option<T>>)
    ensures Present(a + b) == Present(a) + Present(b)
    decreases |b|
  {
    if |b| > 0 {
      assert (a + b)[..|a + b| - 1] == a + b[..|b| - 1];
      PresentAppend(a, b[..|b| - 1]);
    } else {
      assert a + b == a;
    }
  }

  /** A value is kept exactly when it is present somewhere in `os`. */
  lemma {:induction false} PresentMembers<T>(os: seq<Option<T>>, v: T)
    ensures v in Present(os) <==> exists i | 0 <= i < |os| :: os[i] == Some(v)
  {
    if |os| > 0 {
      var n := |os| - 1;
      var init := os[..n];
      PresentMembers(init, v);
      if v in Present(os) {
        if v in Present(init) {
          var i :| 0 <= i < |init| && init[i] == Some(v);
          assert os[i] == init[i];
        }
      } else {
        forall i | 0 <= i < |os| ensures os[i] != Some(v) {
          if i < n {
            assert os[i] == init[i];
          }
        }
      }
    }
  }
}
