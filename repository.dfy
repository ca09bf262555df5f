/** InMemoryButtonRepository: a table from identifier to Button that
    assigns a fresh identifier on first save. The eight operations mirror
    the ButtonRepository interface of the domain layer. */
module Infrastructure {
  import opened Kotlin
  import opened Entity

  /** `r` lists, in the order given by `keys`, the entries of `m` at the keys
      in `sel`, each exactly once. */
  ghost predicate ListsAt(r: seq<Button>, keys: seq<Uuid>, m: map<Uuid, Button>, sel: set<Uuid>) {
    && |r| == |keys|
    && (forall i :: 0 <= i < |keys| ==> keys[i] in m && r[i] == m[keys[i]])
    && (forall i, j :: 0 <= i < j < |keys| ==> keys[i] != keys[j])
    && (forall k :: k in sel <==> k in keys)
  }

  /** `r` lists the entries of `m` at the keys in `sel`, each exactly once, in
      some order (ConcurrentHashMap promises no order). */
  ghost predicate Enumerates(r: seq<Button>, m: map<Uuid, Button>, sel: set<Uuid>) {
    exists keys :: ListsAt(r, keys, m, sel)
  }

  /** A sequence without repetitions has as many elements as its set. */
  lemma {:induction false} DistinctCardinality(keys: seq<Uuid>, sel: set<Uuid>)
    requires forall i, j :: 0 <= i < j < |keys| ==> keys[i] != keys[j]
    requires forall k :: k in sel <==> k in keys
    ensures |sel| == |keys|
    decreases |keys|
  {
    if keys != [] {
      var last := keys[|keys| - 1];
      var init := keys[..|keys| - 1];
      assert forall k :: k in sel - {last} <==> k in init by {
        forall k ensures k in sel - {last} <==> k in init {
          if k in init {
            var i :| 0 <= i < |init| && init[i] == k;
            assert keys[i] == k;
          }
          if k in keys && k != last {
            var i :| 0 <= i < |keys| && keys[i] == k;
            assert i < |keys| - 1;
            assert init[i] == k;
          }
        }
      }
      DistinctCardinality(init, sel - {last});
    } else {
      assert sel == {};
    }
  }

  /** A listing of the entries at `sel` has exactly |sel| elements. */
  lemma EnumeratesLength(r: seq<Button>, m: map<Uuid, Button>, sel: set<Uuid>)
    requires Enumerates(r, m, sel)
    ensures |r| == |sel|
  {
    var keys :| ListsAt(r, keys, m, sel);
    DistinctCardinality(keys, sel);
  }

  /** An identifier above every identifier in `used`; UUID.randomUUID() is
      modelled as any identifier that is not yet a key, and this one shows
      that there always is such an identifier. */
  ghost function Bound(used: set<Uuid>): (b: Uuid)
    ensures forall k :: k in used ==> k < b
    decreases used
  {
    if used == {} then 0
    else
      var x :| x in used;
      var b := Bound(used - {x});
      assert forall k :: k in used ==> k == x || k in used - {x};
      if b > x then b else x + 1
  }

  class InMemoryButtonRepository {
    var buttons: map<Uuid, Button>

    /** Every stored button carries the key it is stored under. */
    ghost predicate Valid()
      reads this, buttons.Values
    {
      forall k :: k in buttons ==> buttons[k].id == Some(k)
    }

    /** Some stored button has exactly this name. */
    ghost predicate HasName(name: string)
      reads this, buttons.Values
    {
      exists k :: k in buttons && buttons[k].name == name
    }

    /** The keys of the stored buttons that are active. */
    ghost function ActiveKeys(): set<Uuid>
      reads this, buttons.Values
    {
      set k | k in buttons && buttons[k].IsActive()
    }

    /** The business rule that the create use case upholds: no two stored
        buttons share a name. */
    ghost predicate NamesDistinct()
      reads this, buttons.Values
    {
      forall k1, k2 :: k1 in buttons && k2 in buttons && k1 != k2 ==> buttons[k1].name != buttons[k2].name
    }

    constructor ()
      ensures Valid() && buttons == map[]
    {
      buttons := map[];
    }

    /** Every stored button, once each, in the map's own order. */
    method FindAll() returns (r: seq<Button>)
      ensures |r| == |buttons|
      ensures Enumerates(r, buttons, buttons.Keys)
    {
      r := [];
      ghost var keys: seq<Uuid> := [];
      var remaining := buttons.Keys;
      while remaining != {}
        invariant remaining <= buttons.Keys
        invariant ListsAt(r, keys, buttons, buttons.Keys - remaining)
        decreases |remaining|
      {
        var k :| k in remaining;
        r := r + [buttons[k]];
        keys := keys + [k];
        remaining := remaining - {k};
      }
      assert ListsAt(r, keys, buttons, buttons.Keys);
      DistinctCardinality(keys, buttons.Keys);
    }

    /** The button stored under the id, or none. */
    method FindById(id: Uuid) returns (r: Option<Button>)
      ensures r.Some? <==> id in buttons
      ensures r.Some? ==> r.value == buttons[id]
    {
      if id in buttons {
        r := Some(buttons[id]);
      } else {
        r := None;
      }
    }

    /** Some stored button with that name, or none when there is none. */
    method FindByName(name: string) returns (r: Option<Button>)
      ensures r.None? <==> !HasName(name)
      ensures r.Some? ==> r.value in buttons.Values && r.value.name == name
    {
      var remaining := buttons.Keys;
      while remaining != {}
        invariant remaining <= buttons.Keys
        invariant forall k :: k in buttons.Keys - remaining ==> buttons[k].name != name
        decreases |remaining|
      {
        var k :| k in remaining;
        if buttons[k].name == name {
          return Some(buttons[k]);
        }
        remaining := remaining - {k};
      }
      r := None;
    }

    /** The stored buttons that are active, once each. */
    method FindByActiveStatus() returns (r: seq<Button>)
      ensures Enumerates(r, buttons, ActiveKeys())
      ensures |r| == |ActiveKeys()|
      ensures forall b :: b in r ==> b in buttons.Values && b.IsActive()
    {
      r := [];
      ghost var keys: seq<Uuid> := [];
      ghost var sel: set<Uuid> := {};
      var remaining := buttons.Keys;
      while remaining != {}
        invariant remaining <= buttons.Keys
        invariant sel == set k | k in buttons.Keys - remaining && buttons[k].IsActive()
        invariant ListsAt(r, keys, buttons, sel)
        invariant |r| == |sel|
        invariant forall b :: b in r ==> b in buttons.Values && b.IsActive()
        decreases |remaining|
      {
        var k :| k in remaining;
        if buttons[k].IsActive() {
          r := r + [buttons[k]];
          keys := keys + [k];
          sel := sel + {k};
        }
        remaining := remaining - {k};
      }
      assert sel == ActiveKeys();
    }

    /** Insert or update. A button without id gets a fresh one, assigned to
        the object itself; every other entry is left as it was. */
    method Save(button: Button) returns (r: Button)
      requires Valid()
      modifies this, button
      ensures Valid()
      ensures r == button && button.id.Some?
      ensures old(button.id).Some? ==> button.id == old(button.id)
      ensures old(button.id).None? ==> button.id.value !in old(buttons)
      ensures button.State() == old(button.State()).(id := button.id)
      ensures buttons == old(buttons)[button.id.value := button]
    {
      if button.id.None? {
        assert Bound(buttons.Keys) !in buttons;
        var newId: Uuid :| newId !in buttons;
        button.id := Some(newId);
      }
      buttons := buttons[button.id.value := button];
      r := button;
    }

    /** Removes the entry; true exactly when there was one. */
    method DeleteById(id: Uuid) returns (r: bool)
      requires Valid()
      modifies this
      ensures Valid()
      ensures r <==> id in old(buttons)
      ensures buttons == old(buttons) - {id}
    {
      r := id in buttons;
      buttons := buttons - {id};
    }

    /** Whether some button is stored under the id. */
    method ExistsById(id: Uuid) returns (r: bool)
      ensures r <==> id in buttons
    {
      r := id in buttons;
    }

    /** Whether some stored button has exactly this name. */
    method ExistsByName(name: string) returns (r: bool)
      ensures r <==> HasName(name)
    {
      var remaining := buttons.Keys;
      r := false;
      while remaining != {}
        invariant remaining <= buttons.Keys
        invariant forall k :: k in buttons.Keys - remaining ==> buttons[k].name != name
        decreases |remaining|
      {
        var k :| k in remaining;
        if buttons[k].name == name {
          r := true;
          return;
        }
        remaining := remaining - {k};
      }
    }
  }
}
