/** `DespawnSteerTarget`: while the action runs, despawn the entity its agent
    steers towards and clear the agent's steer target; a target that has
    already disappeared leaves everything as it is. */
module DespawnSteerTarget {
  import opened Ecs

  /** The position variant's payload is irrelevant to this rule. */
  datatype SteerTarget = Position | Entity(target: Ecs.Entity)

  /** Deferred commands: despawn an entity, or remove an agent's `SteerTarget`. */
  datatype Command = Despawn(entity: Ecs.Entity) | RemoveSteerTarget(agent: Ecs.Entity)

  /** The entities alive, the steer targets, the entities carrying `Running`,
      those carrying the `DespawnSteerTarget` action, each action node's
      `TargetAgent`, and the command queue. */
  datatype State = State(
    alive: set<Ecs.Entity>,
    steer: map<Ecs.Entity, SteerTarget>,
    running: set<Ecs.Entity>,
    actions: set<Ecs.Entity>,
    targetAgent: map<Ecs.Entity, Ecs.Entity>,
    queue: seq<Command>)

  /** The query `&TargetAgent, (With<Running>, With<DespawnSteerTarget>)` matches `node`. */
  predicate Selected(s: State, node: Ecs.Entity)
  {
    node in s.running && node in s.actions && node in s.targetAgent
  }

  /** The commands one acting node queues for its agent. */
  function Act(s: State, agent: Ecs.Entity): (cs: seq<Command>)
    ensures cs != [] <==> agent in s.steer && s.steer[agent].Entity? && s.steer[agent].target in s.alive
    ensures cs != [] ==> cs == [Despawn(s.steer[agent].target), RemoveSteerTarget(agent)]
  {
    if agent in s.steer then
      match s.steer[agent]
      case Entity(t) => if t in s.alive then [Despawn(t), RemoveSteerTarget(agent)] else []
      case Position => []
    else []
  }

  /** What one node contributes: the commands for its agent when the query
      matches it, nothing otherwise. */
  function Visit(s: State, node: Ecs.Entity): (cs: seq<Command>)
    ensures !Selected(s, node) ==> cs == []
    ensures Selected(s, node) ==> cs == Act(s, s.targetAgent[node])
  {
    if Selected(s, node) then Act(s, s.targetAgent[node]) else []
  }

  /** The system over the world's nodes in query order. Queuing reads only
      the world as it is now, so every node looks at the same world. */
  function Queue(s: State, nodes: seq<Ecs.Entity>): seq<Command>
    decreases |nodes|
  {
    if nodes == [] then [] else Queue(s, nodes[..|nodes| - 1]) + Visit(s, nodes[|nodes| - 1])
  }

  /** The system over two runs of nodes queues the first run's commands, then the second's. */
  lemma {:induction false} QueueAppend(s: State, a: seq<Ecs.Entity>, b: seq<Ecs.Entity>)
    ensures Queue(s, a + b) == Queue(s, a) + Queue(s, b)
    decreases |b|
  {
    if b == [] {
      assert a + b == a;
    } else {
      assert (a + b)[..|a + b| - 1] == a + b[..|b| - 1];
      QueueAppend(s, a, b[..|b| - 1]);
    }
  }

  /** A node lacking `Running`, the action or a `TargetAgent` adds nothing,
      wherever it sits in the query order. */
  lemma IgnoresUnselected(s: State, a: seq<Ecs.Entity>, node: Ecs.Entity, b: seq<Ecs.Entity>)
    requires !Selected(s, node)
    ensures Queue(s, a + [node] + b) == Queue(s, a + b)
  {
    var an := a + [node];
    assert Queue(s, [node]) == [] by {
      assert [node][..0] == [];
    }
    assert Queue(s, an) == Queue(s, a) by {
      QueueAppend(s, a, [node]);
    }
    assert Queue(s, an + b) == Queue(s, an) + Queue(s, b) by {
      QueueAppend(s, an, b);
    }
    QueueAppend(s, a, b);
  }

  /** Applying a command: despawning also drops the entity's components, and
      despawning or changing an entity that is already gone does nothing. */
  function ApplyOne(s: State, c: Command): (r: State)
    ensures r.queue == s.queue
    ensures c.Despawn? && c.entity in s.alive ==>
      r.running == s.running - {c.entity} && r.actions == s.actions - {c.entity}
      && r.targetAgent == s.targetAgent - {c.entity}
    ensures !(c.Despawn? && c.entity in s.alive) ==>
      r.running == s.running && r.actions == s.actions && r.targetAgent == s.targetAgent
    ensures c.Despawn? ==> r.alive == s.alive - {c.entity}
    ensures c.RemoveSteerTarget? ==> r.alive == s.alive
    ensures forall a :: a in r.steer <==>
      (a in s.steer && !(c.Despawn? && a == c.entity && a in s.alive) && !(c.RemoveSteerTarget? && a == c.agent && a in s.alive))
    ensures forall a :: a in r.steer ==> r.steer[a] == s.steer[a]
  {
    match c
    case Despawn(e) =>
      if e in s.alive then
        s.(alive := s.alive - {e}, steer := s.steer - {e}, running := s.running - {e},
           actions := s.actions - {e}, targetAgent := s.targetAgent - {e})
      else s
    case RemoveSteerTarget(a) => if a in s.alive then s.(steer := s.steer - {a}) else s
  }

  function ApplyAll(s: State, cs: seq<Command>): State
    decreases |cs|
  {
    if cs == [] then s else ApplyOne(ApplyAll(s, cs[..|cs| - 1]), cs[|cs| - 1])
  }

  /** The flush: every queued command in order, then an empty queue. */
  function Flush(s: State): State
  {
    ApplyAll(s, s.queue).(queue := [])
  }

  /** A running `DespawnSteerTarget` node whose agent steers towards a live
      entity `t`: after the system and the flush, `t` is gone and the agent
      has no steer target. */
  lemma DespawnsLiveTarget(s: State, node: Ecs.Entity, agent: Ecs.Entity)
    requires s.queue == [] && Selected(s, node) && s.targetAgent[node] == agent && agent in s.alive
    requires agent in s.steer && s.steer[agent].Entity? && s.steer[agent].target in s.alive
    requires s.steer[agent].target != agent
    ensures var r := Flush(s.(queue := Queue(s, [node])));
      && s.steer[agent].target !in r.alive
      && agent in r.alive && agent !in r.steer
      && r.alive == s.alive - {s.steer[agent].target}
  {
    var t := s.steer[agent].target;
    assert Queue(s, [node]) == [Despawn(t), RemoveSteerTarget(agent)] by {
      assert [node][..0] == [];
    }
    var s1 := s.(queue := Queue(s, [node]));
    var cs := [Despawn(t), RemoveSteerTarget(agent)];
    assert cs[..1] == [Despawn(t)] && cs[..1][..0] == [];
    var a1 := ApplyOne(s1, Despawn(t));
    assert ApplyAll(s1, cs[..1]) == a1;
    assert ApplyAll(s1, cs) == ApplyOne(a1, RemoveSteerTarget(agent));
  }

  /** A vanished target, a position target or no steer target at all for
      every matched node's agent: the system queues nothing. */
  lemma {:induction false} IgnoresOtherwise(s: State, nodes: seq<Ecs.Entity>)
    requires forall i :: 0 <= i < |nodes| && Selected(s, nodes[i]) ==>
      var a := s.targetAgent[nodes[i]];
      a !in s.steer || s.steer[a].Position? || s.steer[a].target !in s.alive
    ensures Queue(s, nodes) == []
    decreases |nodes|
  {
    if nodes != [] {
      IgnoresOtherwise(s, nodes[..|nodes| - 1]);
    }
  }

  /** The system visits one more node. */
  lemma QueueAt(s: State, nodes: seq<Ecs.Entity>, i: nat)
    requires i < |nodes|
    ensures Queue(s, nodes[..i + 1]) == Queue(s, nodes[..i]) + Visit(s, nodes[i])
  {
    assert nodes[..i + 1][..i] == nodes[..i];
  }

  /** The system and the flush in place. */
  class SteerWorld {
    var alive: set<Ecs.Entity>
    var steer: map<Ecs.Entity, SteerTarget>
    var running: set<Ecs.Entity>
    var actions: set<Ecs.Entity>
    var targetAgent: map<Ecs.Entity, Ecs.Entity>
    var queue: seq<Command>

    function Model(): State
      reads this
    {
      State(alive, steer, running, actions, targetAgent, queue)
    }

    /** `despawn_steer_target`; `nodes` lists the world's entities in query order. */
    method DespawnSteerTargets(nodes: seq<Ecs.Entity>)
      modifies this
      ensures Model() == old(Model()).(queue := old(queue) + Queue(old(Model()), nodes))
    {
      ghost var s0 := Model();
      var i := 0;
      while i < |nodes|
        invariant 0 <= i <= |nodes|
        invariant alive == s0.alive && steer == s0.steer && running == s0.running
        invariant actions == s0.actions && targetAgent == s0.targetAgent
        invariant queue == s0.queue + Queue(s0, nodes[..i])
      {
        QueueAt(s0, nodes, i);
        var node := nodes[i];
        if node in running && node in actions && node in targetAgent {
          var agent := targetAgent[node];
          if agent in steer {
            match steer[agent] {
              case Entity(t) =>
                if t in alive {
                  queue := queue + [Despawn(t), RemoveSteerTarget(agent)];
                }
              case Position =>
            }
          }
        }
        i := i + 1;
      }
      assert nodes[..i] == nodes;
    }

    method FlushCommands()
      modifies this
      ensures Model() == Flush(old(Model()))
    {
      ghost var s0 := Model();
      var i := 0;
      while i < |queue|
        invariant 0 <= i <= |queue| && queue == s0.queue
        invariant State(alive, steer, running, actions, targetAgent, s0.queue) == ApplyAll(s0, queue[..i])
      {
        assert queue[..i + 1][..i] == queue[..i];
        match queue[i] {
          case Despawn(e) =>
            if e in alive {
              alive := alive - {e};
              steer := steer - {e};
              running := running - {e};
              actions := actions - {e};
              targetAgent := targetAgent - {e};
            }
          case RemoveSteerTarget(a) =>
            if a in alive {
              steer := steer - {a};
            }
        }
        i := i + 1;
      }
      assert queue[..i] == queue;
      queue := [];
    }
  }
}
