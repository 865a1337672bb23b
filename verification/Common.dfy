/** Small vocabulary shared by the other modules. */
module Common {

  datatype Option<+T> = None | Some(value: T)

  function Elements<T>(s: seq<T>): set<T> {
    set x | x in s
  }

  /** A set enumerated in some unspecified order, as a query without ORDER BY returns it. */
  ghost predicate Enumerates<T(!new)>(s: seq<T>, elements: set<T>) {
    && (forall i, j :: 0 <= i < j < |s| ==> s[i] != s[j])
    && (forall x :: x in s <==> x in elements)
  }

  /** The rows of a result set, or the keys of a Go map, in whatever order they come. */
  method InSomeOrder<T(!new, ==)>(elements: set<T>) returns (s: seq<T>)
    ensures Enumerates(s, elements)
  {
    var rest := elements;
    s := [];
    while rest != {}
      invariant rest <= elements
      invariant Enumerates(s, elements - rest)
      decreases rest
    {
      var x :| x in rest;
      s, rest := s + [x], rest - {x};
    }
  }
}
