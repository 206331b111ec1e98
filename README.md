# Entity/component bookkeeping of the MGB game framework

This project models the entity/component layer of the MGB MonoGame framework.
The ribbon-trail effects and the rest of the game are built on top of it.

- A `GEntity` is a game object. It has a name, a type and a faction, all fixed at
  construction. It has a `Dead` flag. It keeps two tables keyed by a runtime type:
  `components`, which maps a type to a `GComponent`, and `sharedData`, which maps a
  type to an arbitrary object. It can add entries (insert or overwrite), look them
  up (null on a miss) and test for them. It can kill one component, kill and
  remove one component, or kill the whole entity.
- A `GComponent` has an owning entity, fixed at construction, and a `Remove` flag.
  The flag asks the component's manager to drop it on the next update.
  `KillComponent` sets the flag and `Start` clears it.

Layout:

- `gcomponent.dfy` and `gentity.dfy` hold the classes `GComponent` and `GEntity`.
  They refer to each other, so both live in the default module.
  Their fields are updated in place, as in the source. `KillEntity` keeps the
  source's loop over the component table.
- `bookkeeping.dfy` (module `Bookkeeping`) is the value-level reference model.
  A `State` holds the `Dead` flag, both tables, the set `held` of components the
  entity has ever stored, and the set `removed` of those whose `Remove` flag is
  set. `Step` gives the effect of one operation and `Run` the effect of a
  sequence. Each mutating `GEntity` method is proved to move its abstract
  `View()` exactly as `Step` does. The lemmas then state what a single operation,
  or any sequence of operations, does to that state.
- `TypeKey` is an opaque type with equality. It stands for `System.Type`.

## Model

| member | source | states |
|---|---|---|
| `GEntity.constructor` | GEntity.cs:30-35 | the entity is alive, named `""`, of type `Misc`, faction 0, with empty tables |
| `GEntity.WithName` | GEntity.cs:37-43 | the entity is alive, carries the given name, type `Misc`, faction -1, with empty tables |
| `GEntity.WithDetails` | GEntity.cs:45-51 | the entity is alive, carries the given name, type and faction, with empty tables |
| `GEntity.AddSharedData` | GEntity.cs:54-57 | inserts or overwrites the entry for `t`; afterwards `t` maps to `o`; only the shared-data table changes |
| `GEntity.GetSharedData` | GEntity.cs:59-64 | returns the stored object for a present key and null for an absent one; changes nothing |
| `GEntity.AddComponent` | GEntity.cs:66-69 | inserts or overwrites the entry for `t`; afterwards `t` maps to `o`; no component's flag changes, so an overwritten component is not killed; shared data is untouched |
| `GEntity.HasComponent` | GEntity.cs:71-74 | true exactly when `t` is a key of the component table |
| `GEntity.HasSharedData` | GEntity.cs:76-79 | true exactly when `t` is a key of the shared-data table |
| `GEntity.KillEntity` | GEntity.cs:81-89 | afterwards `Dead` holds and every stored component has `Remove` set; both tables and every other flag are unchanged |
| `GEntity.RemoveComponent` | GEntity.cs:91-98 | a present component is marked `Remove` and its key deleted; an absent key changes nothing |
| `GEntity.GetComponent` | GEntity.cs:100-106 | returns null exactly when `t` is absent, otherwise the stored component; changes nothing |
| `GEntity.KillComponent` | GEntity.cs:108-115 | a present component is marked `Remove` and keeps its key; an absent key changes nothing |
| `GComponent.constructor` | GComponent.cs:29-34 | stores the owning entity and starts with `Remove` false |
| `GComponent.KillComponent` | GComponent.cs:25-28 | sets `Remove`; the owning entity is a constant, so nothing else changes |
| `GComponent.Start` | GComponent.cs:39-42 | clears `Remove`, reviving a killed component |
| `GComponent.Update` | GComponent.cs:44-47 | the base update changes nothing |
| `GComponent.End` | GComponent.cs:52-55 | the base end hook changes nothing |
| `Bookkeeping.Fresh` | GEntity.cs:27-35 | a new entity is alive with both tables empty and no component killed |
| `Bookkeeping.Step` | GEntity.cs:54-115 | the effect of one operation on `Dead`, both tables and the `Remove` flags; its contract only states the model's own well-formedness (stored and killed components lie inside the held set) |
| `Bookkeeping.Run` | GEntity.cs:54-115 | the effect of a sequence of operations; its contract states that the model's well-formedness survives any sequence (it has no counterpart in the source) |
| `Bookkeeping.AddComponentOverwrites` | GEntity.cs:66-69 | after an add, `t` maps to the new component; other keys keep their entries; no other component's flag changes; `Dead` and shared data are untouched |
| `Bookkeeping.AddSharedDataOverwrites` | GEntity.cs:54-57 | after an add, `t` maps to the new object; other keys keep their entries; nothing outside the shared-data table changes |
| `Bookkeeping.RemoveComponentKillsThenDeletes` | GEntity.cs:91-98 | a present key loses its entry and its component joins the killed set, and nothing else changes; an absent key changes nothing |
| `Bookkeeping.KillComponentKeepsKey` | GEntity.cs:108-115 | the table is unchanged; a present key's component joins the killed set and nothing else changes; an absent key changes nothing |
| `Bookkeeping.KillEntityKillsEveryComponent` | GEntity.cs:81-89 | the entity is dead, exactly the stored components are added to the killed set, and both tables stay as they were |
| `Bookkeeping.KillsAreIdempotent` | GComponent.cs:25-28 | killing a key, the whole entity or a component twice is the same as killing once |
| `Bookkeeping.StartRevivesKilledComponent` | GComponent.cs:39-42 | `Start` after `KillComponent` leaves the component not killed |
| `Bookkeeping.DeadExactlyAfterKillEntity` | GEntity.cs:23-89 | after any sequence, `Dead` holds if and only if it held before or the sequence contains `KillEntity`; so once dead, always dead |
| `Bookkeeping.SharedDataOnlyChangedByAddSharedData` | GEntity.cs:54-115 | a sequence without `AddSharedData` leaves the shared-data table unchanged |
| `Bookkeeping.AddSharedDataLeavesComponents` | GEntity.cs:54-57 | a sequence of `AddSharedData` changes nothing but the shared-data table |
| `Bookkeeping.OnlyStartRevives` | GEntity.cs:81-115 | without a component's `Start`, no operation clears a `Remove` flag |
| `ComponentKilledInView` | GComponent.cs:25-28 | when a component sets its `Remove` flag and nothing else changes, every entity's view moves by `ComponentKilled`, so a held component joins the killed set |
| `ComponentStartedInView` | GComponent.cs:39-42 | when a component clears its `Remove` flag and nothing else changes, every entity's view moves by `ComponentStarted`, so the component leaves the killed set |
| `Bookkeeping.OnlyRemoveComponentDropsKeys` | GEntity.cs:91-98 | without `RemoveComponent`, no key ever leaves the component table |

## Left out

- The `MainGame Game` field of `GComponent` is not modelled. It is an engine object that this layer only stores.
- The `GameTime` parameter of `GComponent.Update` is not modelled. It is an engine object.
- `System.Type` reflection is not modelled. Only key equality matters, so `TypeKey` is opaque.
- Null keys are not modelled, because a `TypeKey` is never null. In the source, every table call (GEntity.cs:56, 62, 68, 73, 78, 93, 103, 111) throws `ArgumentNullException` on a null key.
- Null names are not modelled, because a Dafny `string` is never null. The C# constructors (GEntity.cs:37, 45) accept a null name and store it.
- The `Dictionary` implementation is not modelled. The tables are Dafny maps.
- The iteration order of `KillEntity`'s `foreach` is not modelled. The loop picks keys in an unspecified order. Killing is idempotent, so the final state does not depend on the order.
- Null component values are not modelled. `AddComponent` takes a non-null `GComponent`. The source accepts null. With a stored null, `KillEntity`, `RemoveComponent` and `KillComponent(Type)` (GEntity.cs:111-113) each throw a null-reference exception.
- `GEntity.GetComponent` returns null exactly when the key is absent only because null values are excluded. With a stored null, the source's `HasComponent(t)` is true while `GetComponent(t)` returns null.
- `GetSharedData` follows the source: a key stored with a null value also yields null. So null means "absent" only when no null was stored.
- Overrides of `Start`, `Update` and `End` in component subclasses are not part of this model.
- The per-type component managers that read `Remove` are not part of this model.
- `Particles/ParticleVertex.cs` is not modelled. It is a vertex struct whose layout depends on MonoGame format sizes.
- The ribbon-trail files are not part of this model.
- `Bookkeeping.StartRevivesKilledComponent` and the `ComponentKilled` case of `Bookkeeping.KillsAreIdempotent` are stated on the value model. `ComponentKilledInView` and `ComponentStartedInView` connect them to `GComponent.KillComponent` and `Start`, but only when the caller shows that nothing else changed between the two states.
