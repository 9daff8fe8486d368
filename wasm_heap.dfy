/** The object heap of the generated wasm bindings: JavaScript values handed
    to wasm are referred to by their index in a growing array; freed slots
    hold the index of the next free slot, forming a last-in first-out free
    list whose head is the heap's `next`. The first 132 slots are reserved. */
module WasmHeap {

  /** The JavaScript values the heap holds. A free slot holds a `Number`,
      the index of the next free slot. */
  datatype JsValue = Undefined | Null | Bool(b: bool) | Number(n: int) | Object(id: nat)

  const RESERVED: nat := 132

  datatype HeapState = HeapState(slots: seq<JsValue>, next: nat)

  /** 128 undefined slots, then undefined, null, true and false; `next` is
      the length, so the free list starts empty. */
  function Initial(): (h: HeapState)
    ensures |h.slots| == RESERVED && h.next == RESERVED
    ensures forall i :: 0 <= i < 129 ==> h.slots[i] == Undefined
    ensures h.slots[129] == Null && h.slots[130] == Bool(true) && h.slots[131] == Bool(false)
  {
    HeapState(seq(128, _ => Undefined) + [Undefined, Null, Bool(true), Bool(false)], 128 + 4)
  }

  /** What `addHeapObject` needs to find at the head: either the end of the
      array, or a free slot holding a valid index. */
  predicate HeadIsLink(h: HeapState)
  {
    h.next <= |h.slots| && (h.next < |h.slots| ==> h.slots[h.next].Number? && h.slots[h.next].n >= 0)
  }

  /** `addHeapObject`: when the free list is empty, push a slot that links
      past the end; then take the head slot, follow its link and store the
      object there. Returns the new heap and the object's index. */
  function Add(h: HeapState, obj: JsValue): (r: (HeapState, nat))
    requires HeadIsLink(h)
  {
    var slots := if h.next == |h.slots| then h.slots + [Number(|h.slots| + 1)] else h.slots;
    var idx := h.next;
    (HeapState(slots[idx := obj], slots[idx].n), idx)
  }

  /** `getObject`: an index past the end reads as `undefined`. */
  function Get(h: HeapState, idx: nat): (v: JsValue)
  {
    if idx < |h.slots| then h.slots[idx] else Undefined
  }

  /** `dropObject`: reserved slots are never freed; any other slot becomes
      the new head, linking to the old one. Writing past the end extends
      the array with `undefined` holes, as JavaScript does. */
  function Drop(h: HeapState, idx: nat): (r: HeapState)
  {
    if idx < RESERVED then h
    else if idx < |h.slots| then HeapState(h.slots[idx := Number(h.next)], idx)
    else HeapState(h.slots + seq(idx - |h.slots|, _ => Undefined) + [Number(h.next)], idx)
  }

  /** `takeObject`: the object, and the heap with its slot freed. */
  function Take(h: HeapState, idx: nat): (r: (JsValue, HeapState))
  {
    (Get(h, idx), Drop(h, idx))
  }

  /** The heap's invariant, with its free list spelled out: the reserved
      slots keep their initial values, and `free` lists distinct
      non-reserved slots from the head, each linking to the next and the
      last one past the end. */
  ghost predicate Valid(h: HeapState, free: seq<nat>)
  {
    && |h.slots| >= RESERVED
    && h.slots[..RESERVED] == Initial().slots
    && (forall i :: 0 <= i < |free| ==> RESERVED <= free[i] < |h.slots|)
    && (forall i, j :: 0 <= i < j < |free| ==> free[i] != free[j])
    && h.next == (if free == [] then |h.slots| else free[0])
    && (forall i :: 0 <= i < |free| ==> h.slots[free[i]] == Number(if i + 1 < |free| then free[i + 1] else |h.slots|))
  }

  /** A slot that holds a live object: not reserved and not on the free list. */
  ghost predicate Live(h: HeapState, free: seq<nat>, idx: nat)
  {
    RESERVED <= idx < |h.slots| && forall i :: 0 <= i < |free| ==> free[i] != idx
  }

  /** The `i`-th free slot links to the next one, the last past the end. */
  lemma Link(h: HeapState, free: seq<nat>, i: nat)
    requires Valid(h, free) && i < |free|
    ensures h.slots[free[i]] == Number(if i + 1 < |free| then free[i + 1] else |h.slots|)
  {
  }

  lemma InitialValid()
    ensures Valid(Initial(), [])
  {
  }

  lemma ValidHead(h: HeapState, free: seq<nat>)
    requires Valid(h, free)
    ensures HeadIsLink(h)
  {
    if free != [] {
      assert h.slots[free[0]] == Number(if 1 < |free| then free[1] else |h.slots|);
    }
  }

  /** Adding an object: reading its index gives it back, the index is never
      a reserved slot and becomes live, and the heap stays valid with the
      head popped off the free list. With the free list exhausted the heap
      grows by exactly one slot, otherwise it keeps its length; every other
      slot is unchanged. */
  lemma AddFacts(h: HeapState, free: seq<nat>, obj: JsValue)
    requires Valid(h, free)
    ensures HeadIsLink(h)
    ensures var (h1, idx) := Add(h, obj);
      && Get(h1, idx) == obj
      && idx >= RESERVED
      && (free == [] ==> idx == |h.slots| && |h1.slots| == |h.slots| + 1)
      && (free != [] ==> idx == free[0] && |h1.slots| == |h.slots|)
      && (forall i :: 0 <= i < |h.slots| && i != idx ==> h1.slots[i] == h.slots[i])
      && Valid(h1, if free == [] then [] else free[1..])
      && Live(h1, if free == [] then [] else free[1..], idx)
  {
    ValidHead(h, free);
    var (h1, idx) := Add(h, obj);
    if free == [] {
      assert h1.slots[..RESERVED] == h.slots[..RESERVED];
    } else {
      var rest := free[1..];
      assert h1.slots[..RESERVED] == h.slots[..RESERVED];
      assert h1.next == (if rest == [] then |h1.slots| else rest[0]) by {
        assert h.slots[free[0]] == Number(if 1 < |free| then free[1] else |h.slots|);
      }
      forall i | 0 <= i < |rest|
        ensures h1.slots[rest[i]] == Number(if i + 1 < |rest| then rest[i + 1] else |h1.slots|)
      {
        assert rest[i] == free[i + 1] && free[i + 1] != free[0];
        assert h1.slots[rest[i]] == h.slots[free[i + 1]];
        Link(h, free, i + 1);
        if i + 1 < |rest| {
          assert rest[i + 1] == free[i + 2];
        }
      }
      forall i | 0 <= i < |rest|
        ensures rest[i] != idx && RESERVED <= rest[i] < |h1.slots|
      {
        assert rest[i] == free[i + 1];
      }
      forall i, j | 0 <= i < j < |rest|
        ensures rest[i] != rest[j]
      {
        assert rest[i] == free[i + 1] && rest[j] == free[j + 1];
      }
      assert Valid(h1, rest);
    }
  }

  /** Reserved slots are never freed. */
  lemma DropReserved(h: HeapState, idx: nat)
    requires idx < RESERVED
    ensures Drop(h, idx) == h
  {
  }

  /** Dropping a live object pushes its slot onto the free list, so the very
      next add reuses that slot. */
  lemma DropThenAdd(h: HeapState, free: seq<nat>, idx: nat, obj: JsValue)
    requires Valid(h, free) && Live(h, free, idx)
    ensures Valid(Drop(h, idx), [idx] + free)
    ensures HeadIsLink(Drop(h, idx))
    ensures Add(Drop(h, idx), obj).1 == idx
    ensures Get(Add(Drop(h, idx), obj).0, idx) == obj
  {
    var d := Drop(h, idx);
    var f := [idx] + free;
    assert d.slots[..RESERVED] == h.slots[..RESERVED];
    forall i | 0 <= i < |f|
      ensures d.slots[f[i]] == Number(if i + 1 < |f| then f[i + 1] else |d.slots|)
    {
      assert |d.slots| == |h.slots|;
      if i + 1 < |f| {
        assert f[i + 1] == free[i];
      }
      if i == 0 {
        assert d.slots[f[0]] == Number(h.next);
      } else {
        assert f[i] == free[i - 1] && free[i - 1] != idx;
        assert d.slots[f[i]] == h.slots[free[i - 1]];
        Link(h, free, i - 1);
      }
    }
    forall i, j | 0 <= i < j < |f|
      ensures f[i] != f[j]
    {
      assert f[j] == free[j - 1];
      if i > 0 {
        assert f[i] == free[i - 1];
      }
    }
    assert Valid(d, f);
    ValidHead(d, f);
  }

  /** Taking a live object returns it and leaves its slot at the head of the
      free list. */
  lemma TakeFacts(h: HeapState, free: seq<nat>, idx: nat)
    requires Valid(h, free) && Live(h, free, idx)
    ensures Take(h, idx).0 == h.slots[idx]
    ensures Take(h, idx).1.next == idx && Valid(Take(h, idx).1, [idx] + free)
  {
    DropThenAdd(h, free, idx, Undefined);
  }

  /** The global `heap` array and `heap_next`. */
  class Heap {
    var slots: seq<JsValue>
    var heapNext: nat

    function State(): HeapState
      reads this
    {
      HeapState(slots, heapNext)
    }

    constructor ()
      ensures State() == Initial()
    {
      var heap := seq(128, _ => Undefined);
      heap := heap + [Undefined, Null, Bool(true), Bool(false)];
      slots, heapNext := heap, |heap|;
    }

    method AddHeapObject(obj: JsValue) returns (idx: nat)
      requires HeadIsLink(State())
      modifies this
      ensures (State(), idx) == Add(old(State()), obj)
    {
      if heapNext == |slots| {
        slots := slots + [Number(|slots| + 1)];
      }
      idx := heapNext;
      heapNext := slots[idx].n;
      slots := slots[idx := obj];
    }

    function GetObject(idx: nat): (v: JsValue)
      reads this
      ensures v == Get(State(), idx)
    {
      if idx < |slots| then slots[idx] else Undefined
    }

    method DropObject(idx: nat)
      modifies this
      ensures State() == Drop(old(State()), idx)
    {
      if idx < 132 {
        return;
      }
      if idx >= |slots| {
        slots := slots + seq(idx - |slots|, _ => Undefined) + [Undefined];
      }
      slots := slots[idx := Number(heapNext)];
      heapNext := idx;
    }

    method TakeObject(idx: nat) returns (ret: JsValue)
      modifies this
      ensures (ret, State()) == Take(old(State()), idx)
    {
      ret := GetObject(idx);
      DropObject(idx);
    }
  }
}
