/** `InsertWhileRunning<T>`: on a run its wrapped component is inserted on the
    action, on a run result the component type is removed again; both go
    through the deferred command queue and take effect at the next flush. */
module InsertWhileRunning {
  import opened Ecs

  /** A deferred structural change queued by an observer. */
  datatype Command<T> = Insert(entity: Entity, value: T) | Remove(entity: Entity)

  /** The components involved: the `InsertWhileRunning<T>` wrapper per entity,
      the live `T` per entity, and the not yet applied commands. */
  datatype State<T> = State(wrapped: map<Entity, T>, present: map<Entity, T>, queue: seq<Command<T>>)

  function ApplyOne<T>(present: map<Entity, T>, c: Command<T>): (r: map<Entity, T>)
    ensures c.Insert? ==> r == present[c.entity := c.value]
    ensures c.Remove? ==> r == present - {c.entity}
  {
    match c
    case Insert(e, v) => present[e := v]
    case Remove(e) => present - {e}
  }

  /** Applying queued commands one after the other, oldest first. */
  function Apply<T>(present: map<Entity, T>, cs: seq<Command<T>>): map<Entity, T>
    decreases |cs|
  {
    if cs == [] then present else ApplyOne(Apply(present, cs[..|cs| - 1]), cs[|cs| - 1])
  }

  /** `on_start_running`: queue an insert of a clone of the wrapped value, but
      only when the entity carries the wrapper. Nothing is applied yet. */
  function StartRunning<T>(s: State<T>, e: Entity): (r: State<T>)
    ensures r.wrapped == s.wrapped && r.present == s.present
    ensures e in s.wrapped ==> r.queue == s.queue + [Insert(e, s.wrapped[e])]
    ensures e !in s.wrapped ==> r.queue == s.queue
  {
    if e in s.wrapped then s.(queue := s.queue + [Insert(e, s.wrapped[e])]) else s
  }

  /** `on_stop_running`: queue a removal of `T`, whether or not there is one. */
  function StopRunning<T>(s: State<T>, e: Entity): (r: State<T>)
    ensures r.wrapped == s.wrapped && r.present == s.present
    ensures r.queue == s.queue + [Remove(e)]
  {
    s.(queue := s.queue + [Remove(e)])
  }

  /** `World::flush`: every queued command is applied, the queue empties. */
  function Flush<T>(s: State<T>): State<T>
  {
    State(s.wrapped, Apply(s.present, s.queue), [])
  }

  /** Applying two batches is applying their concatenation. */
  lemma {:induction false} ApplyAppend<T>(p: map<Entity, T>, a: seq<Command<T>>, b: seq<Command<T>>)
    ensures Apply(p, a + b) == Apply(Apply(p, a), b)
    decreases |b|
  {
    if b == [] {
      assert a + b == a;
    } else {
      assert (a + b)[..|a + b| - 1] == a + b[..|b| - 1];
      ApplyAppend(p, a, b[..|b| - 1]);
    }
  }

  /** The last queued command about `e`, if any. */
  function LastFor<T>(cs: seq<Command<T>>, e: Entity): (r: Option<Command<T>>)
    ensures r.Some? ==> r.value in cs && r.value.entity == e
    ensures r.None? ==> forall i :: 0 <= i < |cs| ==> cs[i].entity != e
    decreases |cs|
  {
    if cs == [] then None
    else if cs[|cs| - 1].entity == e then Some(cs[|cs| - 1])
    else LastFor(cs[..|cs| - 1], e)
  }

  /** After a flush an entity's `T` is decided by the last command about it:
      an insert leaves its value, a removal leaves none, and with no command
      the component is as before. */
  lemma {:induction false} LastCommandWins<T>(p: map<Entity, T>, cs: seq<Command<T>>, e: Entity)
    ensures match LastFor(cs, e)
      case None => (e in Apply(p, cs) <==> e in p) && (e in p ==> Apply(p, cs)[e] == p[e])
      case Some(Insert(_, v)) => e in Apply(p, cs) && Apply(p, cs)[e] == v
      case Some(Remove(_)) => e !in Apply(p, cs)
    decreases |cs|
  {
    if cs != [] {
      LastCommandWins(p, cs[..|cs| - 1], e);
    }
  }

  /** The lifecycle of the `works` test on one entity carrying the wrapper
      and no `T`: the insert is deferred to the first flush, the removal to
      the second. */
  lemma DeferredLifecycle<T>(s: State<T>, e: Entity)
    requires e in s.wrapped && e !in s.present && s.queue == []
    ensures var s1 := StartRunning(s, e);
      && e !in s1.present
      && var s2 := Flush(s1);
      && e in s2.present && s2.present[e] == s.wrapped[e]
      && var s3 := StopRunning(s2, e);
      && e in s3.present
      && e !in Flush(s3).present
  {
    var s1 := StartRunning(s, e);
    assert s1.queue == [Insert(e, s.wrapped[e])];
    assert s1.queue[..0] == [];
    var s3 := StopRunning(Flush(s1), e);
    assert s3.queue == [Remove(e)];
    assert s3.queue[..0] == [];
  }

  /** A run on an entity without the wrapper changes nothing, even after a flush. */
  lemma StartWithoutWrapper<T>(s: State<T>, e: Entity)
    requires e !in s.wrapped
    ensures Flush(StartRunning(s, e)) == Flush(s)
  {
  }

  /** The same component store, updated in place by observers and flushes. */
  class World<T> {
    var wrapped: map<Entity, T>
    var present: map<Entity, T>
    var queue: seq<Command<T>>

    function Model(): State<T>
      reads this
    {
      State(wrapped, present, queue)
    }

    constructor (wrapped0: map<Entity, T>)
      ensures Model() == State(wrapped0, map[], [])
    {
      wrapped, present, queue := wrapped0, map[], [];
    }

    method OnStartRunning(e: Entity)
      modifies this
      ensures Model() == StartRunning(old(Model()), e)
    {
      if e in wrapped {
        queue := queue + [Insert(e, wrapped[e])];
      }
    }

    method OnStopRunning(e: Entity)
      modifies this
      ensures Model() == StopRunning(old(Model()), e)
    {
      queue := queue + [Remove(e)];
    }

    method FlushCommands()
      modifies this
      ensures Model() == Flush(old(Model()))
    {
      var i := 0;
      while i < |queue|
        invariant 0 <= i <= |queue|
        invariant wrapped == old(wrapped) && queue == old(queue)
        invariant present == Apply(old(present), queue[..i])
      {
        assert queue[..i + 1][..i] == queue[..i];
        match queue[i] {
          case Insert(e, v) => present := present[e := v];
          case Remove(e) => present := present - {e};
        }
        i := i + 1;
      }
      assert queue[..i] == queue;
      queue := [];
    }
  }
}
