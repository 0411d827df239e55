/**
 * The handler protocol shared by the accessor methods that pass items one
 * by one to a caller-supplied handler: items go in order, and the first
 * error the handler reports stops the delivery and is returned.
 */
module Delivery {
  import opened Wrappers

  /**
   * The handler was given `items[..|delivered|]` in order; every call but
   * possibly the last succeeded; no error means every item was delivered,
   * and an error is the outcome of the last call.
   */
  ghost predicate HandledInOrder<T, E>(items: seq<T>, handler: T -> Option<E>, delivered: seq<T>, err: Option<E>) {
    |delivered| <= |items| && delivered == items[..|delivered|] &&
    (forall i | 0 <= i < |delivered| - 1 :: handler(delivered[i]).None?) &&
    (err.None? ==> delivered == items && forall i | 0 <= i < |delivered| :: handler(delivered[i]).None?) &&
    (err.Some? ==> delivered != [] && err == handler(delivered[|delivered| - 1]))
  }

  /** The handler failed on the last item of a prefix, after succeeding on all before it. */
  lemma StoppedAt<T, E>(items: seq<T>, handler: T -> Option<E>, done: seq<T>, last: T)
    requires |done| < |items| && items[..|done| + 1] == done + [last]
    requires forall i | 0 <= i < |done| :: handler(done[i]).None?
    requires handler(last).Some?
    ensures HandledInOrder(items, handler, done + [last], handler(last))
  {
    var d := done + [last];
    assert d[|d| - 1] == last;
    assert forall i | 0 <= i < |d| - 1 :: d[i] == done[i];
  }

  /** Delivering `a` and then `b`, stopping at the first error, is delivering `a + b`. */
  lemma HandledInSequence<T, E>(a: seq<T>, b: seq<T>, handler: T -> Option<E>,
                                 d1: seq<T>, e1: Option<E>, d2: seq<T>, e2: Option<E>)
    requires HandledInOrder(a, handler, d1, e1) && e1.None? && HandledInOrder(b, handler, d2, e2)
    ensures HandledInOrder(a + b, handler, d1 + d2, e2)
  {
    assert d1 == a;
    assert (a + b)[..|d1 + d2|] == a + b[..|d2|];
    if e2.Some? {
      assert d2 != [] && (d1 + d2)[|d1 + d2| - 1] == d2[|d2| - 1];
    }
  }
}
