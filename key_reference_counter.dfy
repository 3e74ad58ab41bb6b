/** `KeyReferenceCounter`: how many holders have enabled each key. */
module KeyReference {

  /** `Enable(name)` on the dictionary. */
  function EnableCount(m: map<string, int>, name: string): (r: map<string, int>)
    ensures r.Keys == m.Keys + {name}
    ensures r[name] == (if name in m then m[name] + 1 else 1)
    ensures forall k :: k in m && k != name ==> r[k] == m[k]
  {
    if name in m then m[name := m[name] + 1] else m[name := 1]
  }

  /** `Disable(name)` on the dictionary. */
  function DisableCount(m: map<string, int>, name: string): (r: map<string, int>)
    ensures name !in m ==> r == m
    ensures name in m && m[name] - 1 <= 0 ==> r == m - {name}
    ensures name in m && m[name] - 1 > 0 ==> r == m[name := m[name] - 1]
  {
    if name !in m then m
    else if m[name] - 1 <= 0 then m - {name}
    else m[name := m[name] - 1]
  }

  /** Every stored count is positive. */
  ghost predicate Positive(m: map<string, int>) {
    forall k :: k in m ==> m[k] >= 1
  }

  lemma EnablePreservesPositive(m: map<string, int>, name: string)
    requires Positive(m)
    ensures Positive(EnableCount(m, name))
  {
  }

  lemma DisablePreservesPositive(m: map<string, int>, name: string)
    requires Positive(m)
    ensures Positive(DisableCount(m, name))
  {
  }

  /** Enabling a key and disabling it again gives back the dictionary. */
  lemma EnableThenDisable(m: map<string, int>, name: string)
    requires Positive(m)
    ensures DisableCount(EnableCount(m, name), name) == m
  {
    if name in m {
      assert EnableCount(m, name)[name := m[name]] == m;
    } else {
      assert m[name := 1] - {name} == m;
    }
  }

  class KeyReferenceCounter {
    var counts: map<string, int>

    ghost predicate Valid()
      reads this
    {
      Positive(counts)
    }

    constructor()
      ensures Valid() && counts == map[]
    {
      counts := map[];
    }

    /** `IsContain(key)`. */
    predicate IsContain(key: string)
      reads this
    {
      key in counts && counts[key] > 0
    }

    /** `IsEnable()`. */
    predicate IsEnable()
      reads this
    {
      |counts| > 0
    }

    /** Under the invariant, a key is contained exactly when it is stored, and
        the counter is enabled exactly when some key is contained. */
    lemma ContainMeansStored(key: string)
      requires Valid()
      ensures IsContain(key) <==> key in counts
      ensures IsEnable() <==> exists k :: IsContain(k)
    {
      if IsEnable() {
        var k :| k in counts;
        assert IsContain(k);
      }
    }

    method Disable(name: string)
      requires Valid()
      modifies this
      ensures Valid() && counts == DisableCount(old(counts), name)
    {
      if name in counts {
        counts := counts[name := counts[name] - 1];
        if counts[name] <= 0 {
          counts := counts - {name};
        }
      }
    }

    method Clear()
      modifies this
      ensures Valid() && counts == map[] && !IsEnable()
    {
      counts := map[];
    }

    method Enable(name: string)
      requires Valid()
      modifies this
      ensures Valid() && counts == EnableCount(old(counts), name) && IsContain(name)
    {
      if name in counts {
        counts := counts[name := counts[name] + 1];
      } else {
        counts := counts[name := 1];
      }
    }
  }
}
