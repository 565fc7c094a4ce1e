/** The kernel slab allocator as both source files use it: kmalloc may fail,
    kfree releases an object that is currently allocated. Only which objects
    are live is modelled; the memory layout of the allocator is not. */
module Kmem {

  /** Linux error numbers used by the core. Functions return them negated. */
  const ENOMEM: int := 12
  const EINVAL: int := 22

  class Slab {
    /** Objects handed out by kmalloc and not yet passed to kfree. */
    var live: set<object>

    constructor ()
      ensures live == {}
    {
      live := {};
    }

    /** kmalloc for the freshly created object `o`. The allocator may refuse
        (the caller then sees NULL); which way it goes is not determined. */
    method Kmalloc(o: object) returns (ok: bool)
      requires o !in live
      modifies this
      ensures live == if ok then old(live) + {o} else old(live)
    {
      ok := *;
      if ok {
        live := live + {o};
      }
    }

    /** kfree: `o` must be live, which rules out a double free. */
    method Kfree(o: object)
      requires o in live
      modifies this
      ensures live == old(live) - {o}
    {
      live := live - {o};
    }
  }
}
