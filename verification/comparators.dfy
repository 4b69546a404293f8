/** The two `Less` methods `board list` hands to `sort.Slice`, as written:
    each compares its second key even when the first key is greater, so
    neither is a strict weak order. */
module Comparators {
  import opened Types
  import Strings
  import opened Orders

  /** `detectedBoards.Less`: by name, otherwise by FQBN. */
  predicate BoardLess(x: DetectedBoard, y: DetectedBoard) {
    if Strings.Less(x.name, y.name) then true
    else Strings.Less(x.fqbn, y.fqbn)
  }

  /** `detectedPorts.Less`: by protocol, otherwise by address. */
  predicate PortLess(x: DetectedPort, y: DetectedPort) {
    if Strings.Less(x.protocol, y.protocol) then true
    else if Strings.Less(x.address, y.address) then true
    else false
  }

  /** The lexicographic order on (name, FQBN) that `BoardLess` resembles. */
  predicate BoardLexLess(x: DetectedBoard, y: DetectedBoard) {
    Strings.Less(x.name, y.name) || (x.name == y.name && Strings.Less(x.fqbn, y.fqbn))
  }

  /** The lexicographic order on (protocol, address) that `PortLess` resembles. */
  predicate PortLexLess(x: DetectedPort, y: DetectedPort) {
    Strings.Less(x.protocol, y.protocol) || (x.protocol == y.protocol && Strings.Less(x.address, y.address))
  }

  lemma BoardLessIrreflexive(x: DetectedBoard)
    ensures !BoardLess(x, x)
  {
    Strings.LessIrreflexive(x.name);
    Strings.LessIrreflexive(x.fqbn);
  }

  lemma PortLessIrreflexive(x: DetectedPort)
    ensures !PortLess(x, x)
  {
    Strings.LessIrreflexive(x.protocol);
    Strings.LessIrreflexive(x.address);
  }

  /** `BoardLess` holds exactly where the lexicographic order does, and in
      one more case: a greater name with a smaller FQBN. */
  lemma BoardLessVersusLexicographic(x: DetectedBoard, y: DetectedBoard)
    ensures BoardLess(x, y) <==>
              BoardLexLess(x, y) || (Strings.Less(y.name, x.name) && Strings.Less(x.fqbn, y.fqbn))
  {
    Strings.LessTrichotomous(x.name, y.name);
    Strings.LessAsymmetric(x.name, y.name);
    Strings.LessIrreflexive(x.name);
  }

  /** `PortLess` holds exactly where the lexicographic order does, and in
      one more case: a greater protocol with a smaller address. */
  lemma PortLessVersusLexicographic(x: DetectedPort, y: DetectedPort)
    ensures PortLess(x, y) <==>
              PortLexLess(x, y) || (Strings.Less(y.protocol, x.protocol) && Strings.Less(x.address, y.address))
  {
    Strings.LessTrichotomous(x.protocol, y.protocol);
    Strings.LessAsymmetric(x.protocol, y.protocol);
    Strings.LessIrreflexive(x.protocol);
  }

  /** Both `BoardLess(x, y)` and `BoardLess(y, x)` hold exactly when the
      names and the FQBNs are ordered in opposite directions. */
  lemma BoardLessBothWays(x: DetectedBoard, y: DetectedBoard)
    ensures BoardLess(x, y) && BoardLess(y, x) <==>
              (Strings.Less(x.name, y.name) && Strings.Less(y.fqbn, x.fqbn))
              || (Strings.Less(y.name, x.name) && Strings.Less(x.fqbn, y.fqbn))
  {
    Strings.LessAsymmetric(x.name, y.name);
    Strings.LessAsymmetric(x.fqbn, y.fqbn);
  }

  /** Both `PortLess(x, y)` and `PortLess(y, x)` hold exactly when the
      protocols and the addresses are ordered in opposite directions. */
  lemma PortLessBothWays(x: DetectedPort, y: DetectedPort)
    ensures PortLess(x, y) && PortLess(y, x) <==>
              (Strings.Less(x.protocol, y.protocol) && Strings.Less(y.address, x.address))
              || (Strings.Less(y.protocol, x.protocol) && Strings.Less(x.address, y.address))
  {
    Strings.LessAsymmetric(x.protocol, y.protocol);
    Strings.LessAsymmetric(x.address, y.address);
  }

  /** A transitive relation with a pair ordered both ways is reflexive somewhere. */
  lemma TwoWayPairBreaksStrictWeakOrder<T(!new)>(less: (T, T) -> bool, x: T, y: T)
    requires less(x, y) && less(y, x)
    ensures !Asymmetric(less)
    ensures !StrictWeakOrder(less)
  {
  }

  /** `BoardLess` is irreflexive, yet {a, z} and {b, a} are each less than
      the other, so it is not a strict weak order. */
  lemma BoardLessIsNotStrictWeakOrder()
    ensures Irreflexive(BoardLess)
    ensures BoardLess(DetectedBoard("a", "z"), DetectedBoard("b", "a"))
    ensures BoardLess(DetectedBoard("b", "a"), DetectedBoard("a", "z"))
    ensures !Asymmetric(BoardLess) && !StrictWeakOrder(BoardLess)
  {
    forall x: DetectedBoard
      ensures !BoardLess(x, x)
    {
      BoardLessIrreflexive(x);
    }
    TwoWayPairBreaksStrictWeakOrder(BoardLess, DetectedBoard("a", "z"), DetectedBoard("b", "a"));
  }

  /** `PortLess` is irreflexive, yet a port with the greater protocol and the
      smaller address and one the other way round are each less than the
      other, so it is not a strict weak order. */
  lemma PortLessIsNotStrictWeakOrder()
    ensures Irreflexive(PortLess)
    ensures PortLess(DetectedPort("a", "b", "", []), DetectedPort("b", "a", "", []))
    ensures PortLess(DetectedPort("b", "a", "", []), DetectedPort("a", "b", "", []))
    ensures !Asymmetric(PortLess) && !StrictWeakOrder(PortLess)
  {
    forall x: DetectedPort
      ensures !PortLess(x, x)
    {
      PortLessIrreflexive(x);
    }
    TwoWayPairBreaksStrictWeakOrder(PortLess, DetectedPort("a", "b", "", []), DetectedPort("b", "a", "", []));
  }

  /** Some two ports admit no order that is sorted by `PortLess`: whatever
      `sort.Slice` returns for them, it is not sorted. */
  lemma SomePortsHaveNoSortedOrder()
    ensures exists x: DetectedPort, y: DetectedPort ::
              !SortedBy(PortLess, [x, y]) && !SortedBy(PortLess, [y, x])
  {
    var x, y := DetectedPort("a", "b", "", []), DetectedPort("b", "a", "", []);
    var xy, yx := [x, y], [y, x];
    assert PortLess(xy[1], xy[0]);
    assert !SortedBy(PortLess, xy);
    assert PortLess(yx[1], yx[0]);
    assert !SortedBy(PortLess, yx);
  }
}
