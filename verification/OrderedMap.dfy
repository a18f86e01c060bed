/** std::map with integer keys: a map whose keys are visited in order. */
module OrderedMap {

  predicate IsMin(keys: set<nat>, k: nat) {
    k in keys && forall j | j in keys :: k <= j
  }

  predicate IsMax(keys: set<nat>, k: nat) {
    k in keys && forall j | j in keys :: j <= k
  }

  lemma {:induction false} HasMin(keys: set<nat>)
    requires keys != {}
    ensures exists k :: IsMin(keys, k)
    decreases |keys|
  {
    var k :| k in keys;
    var rest := keys - {k};
    assert keys == rest + {k};
    if rest == {} {
      assert IsMin(keys, k);
    } else {
      HasMin(rest);
      var m :| IsMin(rest, m);
      assert IsMin(keys, if k <= m then k else m);
    }
  }

  lemma {:induction false} HasMax(keys: set<nat>)
    requires keys != {}
    ensures exists k :: IsMax(keys, k)
    decreases |keys|
  {
    var k :| k in keys;
    var rest := keys - {k};
    assert keys == rest + {k};
    if rest == {} {
      assert IsMax(keys, k);
    } else {
      HasMax(rest);
      var m :| IsMax(rest, m);
      assert IsMax(keys, if m <= k then k else m);
    }
  }

  /** The key visited first. */
  function MinKey<V>(m: map<nat, V>): (k: nat)
    requires m != map[]
    ensures k in m && forall j | j in m :: k <= j
  {
    assert m.Keys != {};
    HasMin(m.Keys);
    var k :| k in m.Keys && IsMin(m.Keys, k);
    k
  }

  /** The key visited last. */
  function MaxKey<V>(m: map<nat, V>): (k: nat)
    requires m != map[]
    ensures k in m && forall j | j in m :: j <= k
  {
    assert m.Keys != {};
    HasMax(m.Keys);
    var k :| k in m.Keys && IsMax(m.Keys, k);
    k
  }

  lemma Shrinks<V>(m: map<nat, V>, k: nat)
    requires k in m
    ensures |m - {k}| == |m| - 1
  {
    assert (m - {k}).Keys == m.Keys - {k};
  }
}
