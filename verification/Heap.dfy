/** The C heap as the set of objects handed out and not yet given back. */
module Heap {

  /** A duplicated C string. */
  class CString {
    const text: string

    constructor (text: string)
      ensures this.text == text
    {
      this.text := text;
    }
  }

  class Allocator {
    ghost var live: set<object>

    constructor ()
      ensures live == {}
    {
      live := {};
    }

    /** o has just been allocated. */
    ghost method Track(o: object)
      requires o !in live
      modifies this
      ensures live == old(live) + {o}
    {
      live := live + {o};
    }

    /** Only a live object may be freed. */
    ghost method Free(o: object)
      requires o in live
      modifies this
      ensures live == old(live) - {o}
    {
      live := live - {o};
    }
  }

  /** strdup. */
  method NewName(h: Allocator, text: string) returns (name: CString)
    modifies h
    ensures fresh(name) && name.text == text
    ensures h.live == old(h.live) + {name}
  {
    name := new CString(text);
    h.Track(name);
  }
}
