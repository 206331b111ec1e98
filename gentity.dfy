import opened Bookkeeping

datatype EntityType = Player | Attack | Misc | Boundary

/**
  A game object: a few descriptive constants, a `Dead` flag that only ever goes
  from false to true, and two tables keyed by a runtime type, one of components
  and one of arbitrary shared objects.
 */
class GEntity {
  const Name: string
  var Dead: bool
  const EntType: EntityType
  const Faction: int

  var components: map<TypeKey, GComponent>
  var sharedData: map<TypeKey, object?>

  /** Every component this entity has stored, removed ones included. */
  ghost var Held: set<GComponent>

  ghost predicate Valid()
    reads this
  {
    components.Values <= Held
  }

  /** The entity as a `Bookkeeping.State`, with the flags of the components it has held. */
  ghost function View(): (v: State<GComponent, object?>)
    requires Valid()
    reads this, Held
    ensures Bookkeeping.Valid(v)
    ensures v.dead == Dead && v.components == components && v.sharedData == sharedData
  {
    State(Dead, components, sharedData, Held, set c | c in Held && c.Remove)
  }

  constructor ()
    ensures Valid() && View() == Fresh()
    ensures Name == "" && EntType == Misc && Faction == 0 && !Dead
  {
    Name := "";
    EntType := Misc;
    Faction := 0;
    Dead := false;
    components, sharedData := map[], map[];
    Held := {};
  }

  constructor WithName(name: string)
    ensures Valid() && View() == Fresh()
    ensures Name == name && EntType == Misc && Faction == -1 && !Dead
  {
    Name := name;
    EntType := Misc;
    Faction := -1;
    Dead := false;
    components, sharedData := map[], map[];
    Held := {};
  }

  constructor WithDetails(name: string, entType: EntityType, faction: int)
    ensures Valid() && View() == Fresh()
    ensures Name == name && EntType == entType && Faction == faction && !Dead
  {
    Name := name;
    EntType := entType;
    Faction := faction;
    Dead := false;
    components, sharedData := map[], map[];
    Held := {};
  }

  method AddSharedData(t: TypeKey, o: object?)
    requires Valid()
    modifies this`sharedData
    ensures Valid() && View() == Step(old(View()), Op.AddSharedData(t, o))
    ensures t in sharedData && sharedData[t] == o
  {
    sharedData := sharedData[t := o];
  }

  /** Null when `t` has no entry (or its entry is null). */
  method GetSharedData(t: TypeKey) returns (r: object?)
    ensures t in sharedData ==> r == sharedData[t]
    ensures t !in sharedData ==> r == null
  {
    r := null;
    if t in sharedData {
      r := sharedData[t];
    }
  }

  /** Inserts or overwrites; an overwritten component is neither killed nor told. */
  method AddComponent(t: TypeKey, o: GComponent)
    requires Valid()
    modifies this`components, this`Held
    ensures Valid() && View() == Step(old(View()), Op.AddComponent(t, o, old(o.Remove)))
    ensures t in components && components[t] == o
  {
    components := components[t := o];
    Held := Held + {o};
    assert (set c | c in Held && c.Remove) ==
      (set c | c in old(Held) && c.Remove) + (if o.Remove then {o} else {});
  }

  method HasComponent(t: TypeKey) returns (b: bool)
    ensures b <==> t in components
  {
    b := t in components;
  }

  method HasSharedData(t: TypeKey) returns (b: bool)
    ensures b <==> t in sharedData
  {
    b := t in sharedData;
  }

  /** Kills every stored component, keeps both tables, and marks the entity dead. */
  method KillEntity()
    requires Valid()
    modifies this`Dead, components.Values
    ensures Valid() && View() == Step(old(View()), Op.KillEntity)
    ensures Dead && forall t :: t in components ==> components[t].Remove
  {
    var keys := components.Keys;
    ghost var killed: set<GComponent> := {};
    while keys != {}
      modifies components.Values
      invariant keys <= components.Keys
      invariant killed <= components.Values
      invariant forall t :: t in components && t !in keys ==> components[t] in killed
      invariant forall c :: c in Held ==> (c.Remove <==> old(c.Remove) || c in killed)
      decreases keys
    {
      var t :| t in keys;
      var c := components[t];
      c.KillComponent();
      killed := killed + {c};
      keys := keys - {t};
    }
    assert killed == components.Values;
    Dead := true;
    assert (set c | c in Held && c.Remove) ==
      (set c | c in Held && old(c.Remove)) + components.Values;
  }

  /** A present component is killed and then deleted; an absent key changes nothing. */
  method RemoveComponent(t: TypeKey)
    requires Valid()
    modifies this`components, if t in components then {components[t]} else {}
    ensures Valid() && View() == Step(old(View()), Op.RemoveComponent(t))
    ensures t !in components
    ensures old(t in components) ==> old(components[t]).Remove
  {
    if t in components {
      var c := components[t];
      c.KillComponent();
      components := components - {t};
      assert (set x | x in Held && x.Remove) == (set x | x in Held && old(x.Remove)) + {c};
    }
  }

  /** Null exactly when `t` has no entry; nothing is changed. */
  method GetComponent(t: TypeKey) returns (r: GComponent?)
    ensures r == null <==> t !in components
    ensures t in components ==> r == components[t]
  {
    r := null;
    if t in components {
      r := components[t];
    }
  }

  /** Kills the component stored under `t` but keeps its entry; no-op when absent. */
  method KillComponent(t: TypeKey)
    requires Valid()
    modifies if t in components then {components[t]} else {}
    ensures Valid() && View() == Step(old(View()), Op.KillComponent(t))
    ensures t in components ==> components[t].Remove
  {
    if t in components {
      var c := components[t];
      c.KillComponent();
      assert (set x | x in Held && x.Remove) == (set x | x in Held && old(x.Remove)) + {c};
    }
  }
}

/**
  A component killing itself, seen from an entity that has held it: if nothing
  else changed, the entity's view moves by `ComponentKilled`.
 */
twostate lemma ComponentKilledInView(e: GEntity, c: GComponent)
  requires old(e.Valid()) && unchanged(e)
  requires forall x :: x in e.Held && x != c ==> unchanged(x)
  requires c.Remove
  ensures e.Valid() && e.View() == Step(old(e.View()), ComponentKilled(c))
{
  if c in e.Held {
    assert (set x | x in e.Held && x.Remove) == (set x | x in e.Held && old(x.Remove)) + {c};
  } else {
    assert (set x | x in e.Held && x.Remove) == (set x | x in e.Held && old(x.Remove));
  }
}

/**
  A component's `Start`, seen from an entity that has held it: if nothing else
  changed, the entity's view moves by `ComponentStarted`.
 */
twostate lemma ComponentStartedInView(e: GEntity, c: GComponent)
  requires old(e.Valid()) && unchanged(e)
  requires forall x :: x in e.Held && x != c ==> unchanged(x)
  requires !c.Remove
  ensures e.Valid() && e.View() == Step(old(e.View()), ComponentStarted(c))
{
  assert (set x | x in e.Held && x.Remove) == (set x | x in e.Held && old(x.Remove)) - {c};
}
