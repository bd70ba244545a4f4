/** `CachedVariable<T>` (include/util/cached_variable.h): two slots and a
    flip bit; readers see one slot while a writer fills the other, and
    `finishWrite` swaps their roles. */
module Cached {
  /** The cell's state as a value: the flip bit and both slots. */
  datatype CellState<T> = CellState(viewIndex: nat, slot0: T, slot1: T)
  {
    predicate Valid()
    {
      viewIndex < 2
    }

    /** What `read()` returns. */
    function Read(): T
    {
      if viewIndex != 0 then slot1 else slot0
    }

    /** The slot `writeRef()` refers to. */
    function Pending(): T
    {
      if viewIndex != 0 then slot0 else slot1
    }

    /** `finishWrite()`: the flip bit toggled, the slots untouched. */
    function FinishWrite(): (r: CellState<T>)
      requires Valid()
      ensures r.Valid()
      ensures r.Read() == Pending() && r.Pending() == Read()
      ensures r.slot0 == slot0 && r.slot1 == slot1
    {
      CellState(1 - viewIndex, slot0, slot1)
    }

    /** Storing through `writeRef()`. */
    function StorePending(v: T): (r: CellState<T>)
      requires Valid()
      ensures r.Valid() && r.viewIndex == viewIndex
      ensures r.Pending() == v && r.Read() == Read()
    {
      if viewIndex != 0 then CellState(viewIndex, v, slot1) else CellState(viewIndex, slot0, v)
    }

    /** `write(v)`: store through `writeRef()`, then `finishWrite()`. */
    function Write(v: T): (r: CellState<T>)
      requires Valid()
      ensures r.Valid()
      ensures r.Read() == v && r.Pending() == Read()
    {
      StorePending(v).FinishWrite()
    }
  }

  /** Two `finishWrite()` calls with no write between leave the cell as it was. */
  lemma FinishWriteTwice<T>(s: CellState<T>)
    requires s.Valid()
    ensures s.FinishWrite().FinishWrite() == s
  {
  }

  /** The write slot is never the read slot: a store through `writeRef()`
      is invisible to readers until `finishWrite()`. */
  lemma StoreInvisibleUntilFinish<T>(s: CellState<T>, v: T)
    requires s.Valid()
    ensures s.StorePending(v).Read() == s.Read()
    ensures s.StorePending(v).FinishWrite().Read() == v
  {
  }

  /** `CachedVariable<T>`: the flip bit and the two-element slot array. */
  class CachedVariable<T> {
    var viewIndex: nat
    const views: array<T>

    ghost predicate Valid()
      reads this
    {
      views.Length == 2 && viewIndex < 2
    }

    ghost function State(): CellState<T>
      reads this, views
      requires Valid()
    {
      CellState(viewIndex, views[0], views[1])
    }

    /** The constructor; `T`'s default value is the parameter `initial`. */
    constructor (initial: T)
      ensures Valid() && fresh(views)
      ensures State() == CellState(0, initial, initial)
    {
      viewIndex := 0;
      views := new T[2] [initial, initial];
    }

    /** `read()`. */
    function Read(): (r: T)
      reads this, views
      requires Valid()
      ensures r == State().Read()
    {
      views[if viewIndex != 0 then 1 else 0]
    }

    /** The index of the slot `writeRef()` returns a reference to. */
    function WriteRef(): (i: nat)
      reads this
      requires Valid()
      ensures i < 2 && i != (if viewIndex != 0 then 1 else 0)
    {
      if viewIndex != 0 then 0 else 1
    }

    /** An assignment through `writeRef()`. */
    method StoreThroughWriteRef(v: T)
      requires Valid()
      modifies views
      ensures Valid() && State() == old(State()).StorePending(v)
    {
      views[WriteRef()] := v;
    }

    /** `finishWrite()`: `viewIndex ^= 1`. */
    method FinishWrite()
      requires Valid()
      modifies this
      ensures Valid() && State() == old(State()).FinishWrite()
    {
      viewIndex := if viewIndex == 0 then 1 else 0;
    }

    /** `write(value)`. */
    method Write(value: T)
      requires Valid()
      modifies this, views
      ensures Valid() && State() == old(State()).Write(value)
      ensures Read() == value
    {
      StoreThroughWriteRef(value);
      FinishWrite();
    }
  }
}
