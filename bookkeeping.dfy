/**
  A value-level account of what one game entity keeps: its `Dead` flag, the
  component table and the shared-data table (both keyed by a runtime type), and
  the `Remove` flags of the components it has held. The classes `GEntity` and
  `GComponent` are proved to move their abstract view along `Step`; the lemmas
  here say what any sequence of such steps can and cannot do.
 */
module Bookkeeping {

  /** Stands for a runtime `System.Type`: only its identity (equality) matters. */
  type TypeKey(==)

  /**
    `held` is every component the entity has ever stored (removed ones included),
    and `removed` those of them whose `Remove` flag is set.
   */
  datatype State<C, D> = State(
    dead: bool,
    components: map<TypeKey, C>,
    sharedData: map<TypeKey, D>,
    held: set<C>,
    removed: set<C>)

  ghost predicate Valid<C, D>(s: State<C, D>)
  {
    s.components.Values <= s.held && s.removed <= s.held
  }

  /** A freshly constructed entity: alive, both tables empty. */
  function Fresh<C, D>(): (s: State<C, D>)
    ensures Valid(s) && !s.dead
    ensures s.components == map[] && s.sharedData == map[] && s.removed == {}
  {
    State(false, map[], map[], {}, {})
  }

  /**
    The entity's mutating operations, and the two operations a component performs
    on itself (`KillComponent` and `Start` of the component), as far as they show
    in the entity's view. `AddComponent` carries the `Remove` flag the incoming
    component already has.
   */
  datatype Op<C, D> =
    | AddSharedData(key: TypeKey, data: D)
    | AddComponent(key: TypeKey, component: C, alreadyRemoved: bool)
    | RemoveComponent(key: TypeKey)
    | KillComponent(key: TypeKey)
    | KillEntity
    | ComponentKilled(target: C)
    | ComponentStarted(target: C)

  function Step<C, D>(s: State<C, D>, op: Op<C, D>): (r: State<C, D>)
    ensures Valid(s) ==> Valid(r)
  {
    match op
    case AddSharedData(t, d) =>
      s.(sharedData := s.sharedData[t := d])
    case AddComponent(t, c, alreadyRemoved) =>
      s.(components := s.components[t := c],
         held := s.held + {c},
         removed := if alreadyRemoved then s.removed + {c} else s.removed)
    case RemoveComponent(t) =>
      if t in s.components then
        s.(components := s.components - {t}, removed := s.removed + {s.components[t]})
      else s
    case KillComponent(t) =>
      if t in s.components then s.(removed := s.removed + {s.components[t]}) else s
    case KillEntity =>
      s.(dead := true, removed := s.removed + s.components.Values)
    case ComponentKilled(c) =>
      if c in s.held then s.(removed := s.removed + {c}) else s
    case ComponentStarted(c) =>
      s.(removed := s.removed - {c})
  }

  /** The state after performing `ops` in order, starting from `s`. */
  function Run<C, D>(s: State<C, D>, ops: seq<Op<C, D>>): (r: State<C, D>)
    ensures Valid(s) ==> Valid(r)
    decreases |ops|
  {
    if ops == [] then s else Run(Step(s, ops[0]), ops[1..])
  }

  // ---------------------------------------------------------------------------
  // One operation at a time

  /** Insert-or-overwrite: the new entry is found, other keys and every flag are
      untouched, and an overwritten component is not killed. */
  lemma AddComponentOverwrites<C, D>(s: State<C, D>, t: TypeKey, c: C, alreadyRemoved: bool)
    ensures var r := Step(s, AddComponent(t, c, alreadyRemoved));
      && t in r.components && r.components[t] == c
      && (forall u :: u != t ==> (u in r.components <==> u in s.components))
      && (forall u :: u != t && u in s.components ==> r.components[u] == s.components[u])
      && (forall x :: x != c ==> (x in r.removed <==> x in s.removed))
      && r.sharedData == s.sharedData && r.dead == s.dead
  {
  }

  lemma AddSharedDataOverwrites<C, D>(s: State<C, D>, t: TypeKey, d: D)
    ensures var r := Step(s, AddSharedData(t, d));
      && t in r.sharedData && r.sharedData[t] == d
      && (forall u :: u != t ==> (u in r.sharedData <==> u in s.sharedData))
      && (forall u :: u != t && u in s.sharedData ==> r.sharedData[u] == s.sharedData[u])
      && r == s.(sharedData := r.sharedData)
  {
  }

  /** A present key is killed and deleted; an absent key changes nothing. */
  lemma RemoveComponentKillsThenDeletes<C, D>(s: State<C, D>, t: TypeKey)
    ensures var r := Step(s, RemoveComponent(t));
      && (t in s.components ==>
            && r.components == s.components - {t}
            && r.removed == s.removed + {s.components[t]}
            && r == s.(components := r.components, removed := r.removed))
      && (t !in s.components ==> r == s)
  {
  }

  /** The component is killed but its key stays; an absent key changes nothing. */
  lemma KillComponentKeepsKey<C, D>(s: State<C, D>, t: TypeKey)
    ensures var r := Step(s, KillComponent(t));
      && r.components == s.components
      && (t in s.components ==>
            r.removed == s.removed + {s.components[t]} && r == s.(removed := r.removed))
      && (t !in s.components ==> r == s)
  {
  }

  /** The entity is dead, every stored component is killed, and both key sets stay. */
  lemma KillEntityKillsEveryComponent<C, D>(s: State<C, D>)
    ensures var r := Step(s, KillEntity);
      && r.dead
      && (forall t :: t in s.components ==> s.components[t] in r.removed)
      && r.components == s.components && r.sharedData == s.sharedData
      && r.removed == s.removed + s.components.Values
  {
  }

  /** Killing — a key, the whole entity, or a component on its own — twice is
      the same as killing once. */
  lemma KillsAreIdempotent<C, D>(s: State<C, D>, op: Op<C, D>)
    requires op.KillComponent? || op.KillEntity? || op.ComponentKilled?
    ensures Step(Step(s, op), op) == Step(s, op)
  {
  }

  /** A component's `Start` undoes its `KillComponent`. */
  lemma StartRevivesKilledComponent<C, D>(s: State<C, D>, c: C)
    ensures Step(Step(s, ComponentKilled(c)), ComponentStarted(c)).removed == s.removed - {c}
    ensures c !in Step(Step(s, ComponentKilled(c)), ComponentStarted(c)).removed
  {
  }

  // ---------------------------------------------------------------------------
  // Any number of operations

  /** `Dead` is set by `KillEntity` and by nothing else, and is never cleared. */
  lemma {:induction false} DeadExactlyAfterKillEntity<C, D>(s: State<C, D>, ops: seq<Op<C, D>>)
    ensures Run(s, ops).dead <==> s.dead || exists i :: 0 <= i < |ops| && ops[i].KillEntity?
    decreases |ops|
  {
    if ops != [] {
      var s' := Step(s, ops[0]);
      DeadExactlyAfterKillEntity(s', ops[1..]);
      if exists i :: 0 <= i < |ops| && ops[i].KillEntity? {
        var i :| 0 <= i < |ops| && ops[i].KillEntity?;
        if i > 0 {
          assert ops[1..][i - 1].KillEntity?;
        }
      }
      if exists j :: 0 <= j < |ops[1..]| && ops[1..][j].KillEntity? {
        var j :| 0 <= j < |ops[1..]| && ops[1..][j].KillEntity?;
        assert ops[j + 1].KillEntity?;
      }
    }
  }

  /** Only `AddSharedData` touches the shared-data table. */
  lemma {:induction false} SharedDataOnlyChangedByAddSharedData<C, D>(s: State<C, D>, ops: seq<Op<C, D>>)
    requires forall i :: 0 <= i < |ops| ==> !ops[i].AddSharedData?
    ensures Run(s, ops).sharedData == s.sharedData
    decreases |ops|
  {
    if ops != [] {
      SharedDataOnlyChangedByAddSharedData(Step(s, ops[0]), ops[1..]);
    }
  }

  /** Shared-data operations leave everything but the shared-data table alone. */
  lemma {:induction false} AddSharedDataLeavesComponents<C, D>(s: State<C, D>, ops: seq<Op<C, D>>)
    requires forall i :: 0 <= i < |ops| ==> ops[i].AddSharedData?
    ensures Run(s, ops) == s.(sharedData := Run(s, ops).sharedData)
    decreases |ops|
  {
    if ops != [] {
      AddSharedDataLeavesComponents(Step(s, ops[0]), ops[1..]);
    }
  }

  /** No entity operation revives a component: only the component's own `Start` does. */
  lemma {:induction false} OnlyStartRevives<C, D>(s: State<C, D>, ops: seq<Op<C, D>>)
    requires forall i :: 0 <= i < |ops| ==> !ops[i].ComponentStarted?
    ensures s.removed <= Run(s, ops).removed
    decreases |ops|
  {
    if ops != [] {
      OnlyStartRevives(Step(s, ops[0]), ops[1..]);
    }
  }

  /** Keys leave the component table only through `RemoveComponent`. */
  lemma {:induction false} OnlyRemoveComponentDropsKeys<C, D>(s: State<C, D>, ops: seq<Op<C, D>>)
    requires forall i :: 0 <= i < |ops| ==> !ops[i].RemoveComponent?
    ensures s.components.Keys <= Run(s, ops).components.Keys
    decreases |ops|
  {
    if ops != [] {
      OnlyRemoveComponentDropsKeys(Step(s, ops[0]), ops[1..]);
    }
  }
}
