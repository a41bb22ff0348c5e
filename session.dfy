/**
 * The per-session tank quantities: `st.session_state` is a dictionary that
 * survives reruns of the page, and start-up gives each tank's quantity key
 * the value 0 unless it is already there.
 */
module Session {

  /** The three tank quantity keys, in the order start-up visits them. */
  const TankKeys: seq<string> := ["left_qty", "center_qty", "right_qty"]

  /**
   * `m` with every key of `keys` that it lacks added at 0: the map start-up
   * should leave behind.
   */
  function WithDefaults(m: map<string, int>, keys: seq<string>): (r: map<string, int>) {
    map k | k in m.Keys + (set x | x in keys) :: if k in m then m[k] else 0
  }

  /**
   * Existing entries keep their values, each listed key that was absent
   * reads 0, and no key outside `m` and `keys` appears.
   */
  lemma WithDefaultsSpec(m: map<string, int>, keys: seq<string>)
    ensures forall k :: k in m ==> k in WithDefaults(m, keys) && WithDefaults(m, keys)[k] == m[k]
    ensures forall k :: k in keys && k !in m ==> k in WithDefaults(m, keys) && WithDefaults(m, keys)[k] == 0
    ensures forall k :: k in WithDefaults(m, keys) <==> k in m || k in keys
  {
  }

  /** Running start-up a second time changes nothing. */
  lemma WithDefaultsIdempotent(m: map<string, int>, keys: seq<string>)
    ensures WithDefaults(WithDefaults(m, keys), keys) == WithDefaults(m, keys)
  {
    var once := WithDefaults(m, keys);
    var twice := WithDefaults(once, keys);
    assert twice.Keys == once.Keys;
    forall k | k in once ensures twice[k] == once[k] {
    }
  }

  /** A session whose every tank key is already set is left as it is. */
  lemma WithDefaultsKeepsInitialised(m: map<string, int>, keys: seq<string>)
    requires forall k :: k in keys ==> k in m
    ensures WithDefaults(m, keys) == m
  {
    assert WithDefaults(m, keys).Keys == m.Keys;
  }

  /** Visiting one more key adds it at 0 when it is absent and changes nothing otherwise. */
  lemma WithDefaultsStep(m: map<string, int>, keys: seq<string>, k: string)
    ensures var d := WithDefaults(m, keys);
      WithDefaults(m, keys + [k]) == if k in d then d else d[k := 0]
  {
    var d := WithDefaults(m, keys);
    var e := WithDefaults(m, keys + [k]);
    assert (set x | x in keys + [k]) == (set x | x in keys) + {k};
    assert e.Keys == d.Keys + {k};
  }

  /** The dictionary `st.session_state`, restricted to integer values. */
  class SessionState {
    var values: map<string, int>

    constructor (initial: map<string, int>)
      ensures values == initial
    {
      values := initial;
    }

    /** The start-up loop over the three tank quantity keys. */
    method InitTankQuantities()
      modifies this
      ensures values == WithDefaults(old(values), TankKeys)
      ensures forall k :: k in old(values) ==> k in values && values[k] == old(values)[k]
      ensures forall k :: k in TankKeys ==> k in values
      ensures forall k :: k in TankKeys && k !in old(values) ==> values[k] == 0
      ensures values.Keys == old(values).Keys + (set k | k in TankKeys)
    {
      for i := 0 to |TankKeys|
        invariant values == WithDefaults(old(values), TankKeys[..i])
      {
        var k := TankKeys[i];
        assert TankKeys[..i + 1] == TankKeys[..i] + [k];
        WithDefaultsStep(old(values), TankKeys[..i], k);
        if k !in values {
          values := values[k := 0];
        }
      }
      assert TankKeys[..|TankKeys|] == TankKeys;
      WithDefaultsSpec(old(values), TankKeys);
    }
  }
}
