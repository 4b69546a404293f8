/** The map from discovery name to discovery that `board list` queries. */
module Registry {

  /** The key under which the builtin serial discovery is registered. */
  const BuiltinName: string := "serial"

  /** Registers the builtin discovery over the platform-declared ones: a
      declared discovery named "serial" is replaced, all others are kept. */
  function Merge<D>(declared: map<string, D>, builtin: D): (r: map<string, D>)
    ensures r.Keys == declared.Keys + {BuiltinName}
    ensures r[BuiltinName] == builtin
    ensures forall k :: k in declared && k != BuiltinName ==> r[k] == declared[k]
  {
    declared[BuiltinName := builtin]
  }

  /** Whatever a platform declares under "serial" has no effect on the result. */
  lemma MergeIgnoresDeclaredSerial<D>(d1: map<string, D>, d2: map<string, D>, builtin: D)
    requires d1.Keys - {BuiltinName} == d2.Keys - {BuiltinName}
    requires forall k :: k in d1 && k in d2 && k != BuiltinName ==> d1[k] == d2[k]
    ensures Merge(d1, builtin) == Merge(d2, builtin)
  {
    var m1, m2 := Merge(d1, builtin), Merge(d2, builtin);
    assert d1.Keys + {BuiltinName} == (d1.Keys - {BuiltinName}) + {BuiltinName};
    assert d2.Keys + {BuiltinName} == (d2.Keys - {BuiltinName}) + {BuiltinName};
    forall k | k in m1
      ensures m1[k] == m2[k]
    {
      if k != BuiltinName {
        assert k in d1 && k in d2;
      }
    }
  }
}
