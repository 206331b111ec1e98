/**
  Base class of every component. Its state is the owning entity, fixed at
  construction, and the `Remove` flag that asks the component's manager to drop
  it on the next update. The game reference and the frame time are engine
  objects and are not modelled.
 */
class GComponent {
  const Entity: GEntity?
  var Remove: bool

  constructor (entity: GEntity?)
    ensures Entity == entity && !Remove
  {
    Entity := entity;
    Remove := false;
  }

  /** Marks the component for removal; the owning entity stays as it was. */
  method KillComponent()
    modifies this
    ensures Remove
  {
    Remove := true;
  }

  /** Called when a manager takes the component in: clears a pending removal. */
  method Start()
    modifies this
    ensures !Remove
  {
    Remove := false;
  }

  /** The base update does nothing. */
  method Update()
    ensures unchanged(this)
  {
  }

  /** The base end-of-life hook does nothing. */
  method End()
    ensures unchanged(this)
  {
  }
}
