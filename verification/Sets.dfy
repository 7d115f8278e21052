/** Finite sets. */
module Sets {

  /** A subset is no larger, and a proper one smaller. */
  lemma {:induction false} SubsetSize<T>(x: set<T>, y: set<T>)
    requires x <= y
    ensures |x| <= |y| && (x != y ==> |x| < |y|)
  {
    if x != {} {
      var e :| e in x;
      SubsetSize(x - {e}, y - {e});
    }
  }
}
