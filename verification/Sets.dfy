/** A fact about finite sets. */
module Sets {
  /** Some element of a set that has one. */
  lemma Pick<T>(s: set<T>) returns (x: T)
    requires s != {}
    ensures x in s
  {
    x :| x in s;
  }
}
