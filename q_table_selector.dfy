/** The `q_table_selector` tick: every running `QTableSelector` waits while a
    child runs, skips when its target agent lacks the learning components,
    and otherwise counts one step and ends the episode on a failed child. */
module QTableSelector {
  import opened Ecs

  /** The selector component; the learner itself is opaque here. */
  datatype Selector<L> = Selector(evaluate: bool, learner: L, currentEpisode: nat, currentStep: nat)

  /** The one structural change this rule queues. */
  datatype Command = InsertResult(entity: Entity, result: RunResult)

  /** The components the tick reads and writes. `agents` holds the entities
      carrying the policy's state, action and `Reward`. */
  datatype State<L> = State(
    selectors: map<Entity, Selector<L>>,
    targetAgent: map<Entity, Entity>,
    children: map<Entity, seq<Entity>>,
    running: set<Entity>,
    agents: set<Entity>,
    results: map<Entity, RunResult>,
    queue: seq<Command>)

  /** Some child of the selector carries `Running`. */
  function AnyChildRunning(children: seq<Entity>, running: set<Entity>): (b: bool)
    ensures b <==> exists i :: 0 <= i < |children| && children[i] in running
  {
    if children == [] then false
    else children[0] in running || AnyChildRunning(children[1..], running)
  }

  /** The first child, in child order, that carries a `RunResult`, with its index. */
  function FirstChildResult(children: seq<Entity>, results: map<Entity, RunResult>): (r: Option<(nat, RunResult)>)
    ensures r.Some? ==>
      && r.value.0 < |children| && children[r.value.0] in results
      && results[children[r.value.0]] == r.value.1
      && forall j :: 0 <= j < r.value.0 ==> children[j] !in results
    ensures r.None? ==> forall j :: 0 <= j < |children| ==> children[j] !in results
  {
    if children == [] then None
    else if children[0] in results then Some((0, results[children[0]]))
    else match FirstChildResult(children[1..], results)
      case None => None
      case Some((i, x)) => Some((i + 1, x))
  }

  /** The query `(Entity, &TargetAgent, &mut QTableSelector, &Children), With<Running>` matches `e`. */
  predicate Matches<L>(s: State<L>, e: Entity)
  {
    e in s.selectors && e in s.targetAgent && e in s.children && e in s.running
  }

  /** The selector gets past both `continue`s: no child is running and the agent lookup succeeds. */
  predicate Advances<L>(s: State<L>, e: Entity)
  {
    Matches(s, e) && !AnyChildRunning(s.children[e], s.running) && s.targetAgent[e] in s.agents
  }

  /** The first child result is a failure: the episode ends. */
  predicate FailsNow<L>(s: State<L>, e: Entity)
    requires Matches(s, e)
  {
    match FirstChildResult(s.children[e], s.results)
    case Some((_, Failure)) => true
    case _ => false
  }

  /** One iteration of the loop body for `e`. */
  function Step<L>(s: State<L>, e: Entity): (r: State<L>)
    ensures r.targetAgent == s.targetAgent && r.children == s.children && r.running == s.running
    ensures r.agents == s.agents && r.results == s.results
    ensures r.selectors.Keys == s.selectors.Keys
    ensures forall x :: x in s.selectors && x != e ==> r.selectors[x] == s.selectors[x]
    ensures e in s.selectors && !Advances(s, e) ==> r.selectors[e] == s.selectors[e]
    ensures Advances(s, e) ==> r.selectors[e] == s.selectors[e].(currentStep := s.selectors[e].currentStep + 1)
    ensures Advances(s, e) && FailsNow(s, e) ==> r.queue == s.queue + [InsertResult(e, Failure)]
    ensures !(Advances(s, e) && FailsNow(s, e)) ==> r.queue == s.queue
  {
    if !Advances(s, e) then s
    else
      var sel := s.selectors[e];
      var s1 := s.(selectors := s.selectors[e := sel.(currentStep := sel.currentStep + 1)]);
      if FailsNow(s, e) then s1.(queue := s1.queue + [InsertResult(e, Failure)]) else s1
  }

  /** The whole tick, visiting entities in query order. */
  function TickAll<L>(s: State<L>, order: seq<Entity>): State<L>
    decreases |order|
  {
    if order == [] then s else Step(TickAll(s, order[..|order| - 1]), order[|order| - 1])
  }

  /** The selectors that advance and fail during a tick, in visiting order. */
  function Failed<L>(s: State<L>, order: seq<Entity>): seq<Entity>
    decreases |order|
  {
    if order == [] then []
    else
      var e := order[|order| - 1];
      Failed(s, order[..|order| - 1]) + (if Advances(s, e) && FailsNow(s, e) then [e] else [])
  }

  function Inserts(es: seq<Entity>): (cs: seq<Command>)
    ensures |cs| == |es| && forall i :: 0 <= i < |es| ==> cs[i] == InsertResult(es[i], Failure)
  {
    seq(|es|, i requires 0 <= i < |es| => InsertResult(es[i], Failure))
  }

  predicate Distinct(order: seq<Entity>)
  {
    forall i, j :: 0 <= i < j < |order| ==> order[i] != order[j]
  }

  /** A tick changes each selector at most once: its step rises by exactly one
      when it advances and is otherwise untouched, whether it was waiting
      for a child, lacked an agent, was not running or was not visited; the
      only commands queued are failed episodes, in visiting order; nothing
      else changes. */
  lemma {:induction false} TickAllEffect<L>(s: State<L>, order: seq<Entity>)
    requires Distinct(order)
    ensures var r := TickAll(s, order);
      && r.targetAgent == s.targetAgent && r.children == s.children && r.running == s.running
      && r.agents == s.agents && r.results == s.results
      && r.selectors.Keys == s.selectors.Keys
      && (forall x :: x in s.selectors ==>
            r.selectors[x] == if x in order && Advances(s, x)
                              then s.selectors[x].(currentStep := s.selectors[x].currentStep + 1)
                              else s.selectors[x])
      && r.queue == s.queue + Inserts(Failed(s, order))
    decreases |order|
  {
    TickAllFrame(s, order);
    TickAllSelectors(s, order);
    TickAllQueue(s, order);
  }

  /** A tick writes nothing but selectors and the command queue. */
  lemma {:induction false} TickAllFrame<L>(s: State<L>, order: seq<Entity>)
    ensures var r := TickAll(s, order);
      && r.targetAgent == s.targetAgent && r.children == s.children && r.running == s.running
      && r.agents == s.agents && r.results == s.results
      && r.selectors.Keys == s.selectors.Keys
    decreases |order|
  {
    if order != [] {
      TickAllFrame(s, order[..|order| - 1]);
    }
  }

  /** The commands a tick queues: one failure per failed episode, in visiting order. */
  lemma {:induction false} TickAllQueue<L>(s: State<L>, order: seq<Entity>)
    ensures TickAll(s, order).queue == s.queue + Inserts(Failed(s, order))
    decreases |order|
  {
    if order != [] {
      var init := order[..|order| - 1];
      var e := order[|order| - 1];
      TickAllQueue(s, init);
      TickAllFrame(s, init);
      var m := TickAll(s, init);
      assert Advances(m, e) == Advances(s, e);
      assert Advances(s, e) ==> FailsNow(m, e) == FailsNow(s, e);
      assert Inserts(Failed(s, order)) == Inserts(Failed(s, init)) + Inserts(if Advances(s, e) && FailsNow(s, e) then [e] else []);
    }
  }

  /** Each selector's step after a tick with every entity visited once. */
  lemma {:induction false} TickAllSelectors<L>(s: State<L>, order: seq<Entity>)
    requires Distinct(order)
    ensures forall x :: x in s.selectors ==>
      && x in TickAll(s, order).selectors
      && TickAll(s, order).selectors[x] == if x in order && Advances(s, x)
                                           then s.selectors[x].(currentStep := s.selectors[x].currentStep + 1)
                                           else s.selectors[x]
    decreases |order|
  {
    if order != [] {
      var init := order[..|order| - 1];
      var e := order[|order| - 1];
      assert Distinct(init);
      TickAllSelectors(s, init);
      TickAllFrame(s, init);
      var m := TickAll(s, init);
      assert e !in init;
      assert Advances(m, e) == Advances(s, e);
      forall x | x in s.selectors
        ensures TickAll(s, order).selectors[x] ==
          if x in order && Advances(s, x)
          then s.selectors[x].(currentStep := s.selectors[x].currentStep + 1)
          else s.selectors[x]
      {
        assert x in order <==> x in init || x == e;
      }
    }
  }

  /** The selector entities, updated in place by the tick system. */
  class SelectorWorld<L> {
    var selectors: map<Entity, Selector<L>>
    var targetAgent: map<Entity, Entity>
    var children: map<Entity, seq<Entity>>
    var running: set<Entity>
    var agents: set<Entity>
    var results: map<Entity, RunResult>
    var queue: seq<Command>

    function Model(): State<L>
      reads this
    {
      State(selectors, targetAgent, children, running, agents, results, queue)
    }

    /** `q_table_selector`, iterating the query in `order`. */
    method Tick(order: seq<Entity>)
      modifies this
      ensures Model() == TickAll(old(Model()), order)
    {
      var i := 0;
      while i < |order|
        invariant 0 <= i <= |order|
        invariant Model() == TickAll(old(Model()), order[..i])
      {
        assert order[..i + 1][..i] == order[..i];
        var e := order[i];
        i := i + 1;
        if !(e in selectors && e in targetAgent && e in children && e in running) {
          continue;
        }
        if AnyChildRunning(children[e], running) {
          continue;
        }
        if targetAgent[e] !in agents {
          continue;
        }
        selectors := selectors[e := selectors[e].(currentStep := selectors[e].currentStep + 1)];
        match FirstChildResult(children[e], results) {
          case Some((_, Failure)) => queue := queue + [InsertResult(e, Failure)];
          case _ =>
        }
      }
      assert order[..i] == order;
    }
  }
}
