/** Picking an arbitrary element of a non-empty set, as a walk over a Java
    `HashSet` or `HashMap` does, in an order the program does not control. */
module Sets {

  ghost function Pick<T>(s: set<T>): (x: T)
    requires s != {}
    ensures x in s
  {
    var x :| x in s; x
  }

  method Choose<T>(s: set<T>) returns (x: T)
    requires s != {}
    ensures x in s
  {
    x :| x in s;
  }
}
