/** Result bubbling: one hop of `propagate_response_to_parent_observers`,
    the re-trigger of `On::trigger_bubble`, the loop over parent links that
    a chain of `BubbleUpFlow` actions amounts to, and a small depth-first
    dispatcher that replays a whole chain trigger by trigger. */
module Response {
  import opened Ecs

  /** The envelope `On<P>`: the origin is where the chain began, the action
      is the current recipient and prevAction the one it came from. */
  datatype On<P> = On(payload: P, origin: Entity, action: Entity, prevAction: Entity)

  /** The parts of the entity store the propagation rule consults. */
  datatype Store = Store(
    parent: map<Entity, Entity>,               // the `Parent` component
    noBubble: set<Entity>,                     // entities carrying `NoBubble`
    actionObservers: map<Entity, seq<Entity>>, // the `ActionObservers` list of an action entity
    observerMarkers: set<Entity>,              // observer entities (`ActionObserverMarker`)
    bubbleObservers: set<Entity>)              // observer entities running `bubble_result`

  /** A queued `trigger_targets(event, targets)` command. */
  datatype Trigger<P> = Trigger(ev: On<P>, targets: seq<Entity>)

  /** The event after one forwarded hop to `parent`. */
  function Forwarded<P>(ev: On<P>, parent: Entity): On<P>
  {
    ev.(prevAction := ev.action, action := parent)
  }

  /** One hop: what the global observer queues when `ev` is triggered on `target`. */
  function Hop<P>(s: Store, target: Entity, ev: On<P>): (r: Option<Trigger<P>>)
    // an observer entity, or an action marked NoBubble, stops the hop
    ensures target in s.observerMarkers || ev.action in s.noBubble ==> r == None
    // the root has no parent, so nothing is forwarded from it
    ensures ev.action !in s.parent ==> r == None
    // a parent without observers receives nothing
    ensures ev.action in s.parent && s.parent[ev.action] !in s.actionObservers ==> r == None
    ensures r.Some? ==>
      && ev.action in s.parent
      && var p := s.parent[ev.action];
      && p in s.actionObservers
      && r.value.ev.payload == ev.payload
      && r.value.ev.origin == ev.origin
      && r.value.ev.prevAction == ev.action
      && r.value.ev.action == p
      && r.value.targets == s.actionObservers[p]
    ensures (target !in s.observerMarkers && ev.action !in s.noBubble && ev.action in s.parent
             && s.parent[ev.action] in s.actionObservers) ==> r.Some?
  {
    if target in s.observerMarkers || ev.action in s.noBubble then None
    else if ev.action !in s.parent then None
    else
      var p := s.parent[ev.action];
      if p !in s.actionObservers then None
      else Some(Trigger(Forwarded(ev, p), s.actionObservers[p]))
  }

  /** `trigger_bubble`: an identical copy of the event, triggered on its own action entity. */
  function Bubble<P>(ev: On<P>): (t: Trigger<P>)
    ensures t.ev == ev && t.targets == [ev.action]
  {
    Trigger(ev, [ev.action])
  }

  /** The deferred command queue the two rules push into. */
  class Commands<P> {
    var queue: seq<Trigger<P>>

    constructor ()
      ensures queue == []
    {
      queue := [];
    }

    /** `propagate_response_to_parent_observers`: clone the event, rewrite
        `prev_action` and `action`, queue it for the parent's observers. */
    method PropagateResponseToParentObservers(s: Store, target: Entity, ev: On<P>)
      modifies this
      ensures queue == old(queue) + (match Hop(s, target, ev) case None => [] case Some(t) => [t])
    {
      if target in s.observerMarkers || ev.action in s.noBubble {
        return;
      }
      if ev.action in s.parent {
        var parent := s.parent[ev.action];
        if parent in s.actionObservers {
          var res := ev;
          res := res.(prevAction := res.action);
          res := res.(action := parent);
          queue := queue + [Trigger(res, s.actionObservers[parent])];
        }
      }
    }

    /** `On::trigger_bubble`: re-trigger the event on its action entity. */
    method TriggerBubble(ev: On<P>)
      modifies this
      ensures queue == old(queue) + [Bubble(ev)]
    {
      queue := queue + [Trigger(ev, [ev.action])];
    }
  }

  /** The hierarchy is acyclic: every parent ranks strictly below its child. */
  predicate Ranked(s: Store, rank: map<Entity, nat>)
  {
    forall e :: e in s.parent ==> e in rank && s.parent[e] in rank && rank[s.parent[e]] < rank[e]
  }

  /** Whether some observer of action `p` re-bubbles (carries `BubbleUpFlow`). */
  predicate Rebubbles(s: Store, p: Entity)
  {
    p in s.actionObservers && exists o :: o in s.actionObservers[p] && o in s.bubbleObservers
  }

  function Measure(rank: map<Entity, nat>, e: Entity): nat
  {
    if e in rank then rank[e] else 0
  }

  /** The forwarded hops of a chain started by triggering `ev` on its action:
      each reached parent that re-bubbles forwards the result one level further. */
  function Chain<P>(s: Store, ev: On<P>, rank: map<Entity, nat>): seq<On<P>>
    requires Ranked(s, rank)
    decreases Measure(rank, ev.action)
  {
    match Hop(s, ev.action, ev)
      case None => []
      case Some(t) => [t.ev] + (if Rebubbles(s, t.ev.action) then Chain(s, t.ev, rank) else [])
  }

  /** Walks the parent links, one hop per iteration, from `ev`'s action. */
  method BubbleChain<P>(s: Store, ev: On<P>, ghost rank: map<Entity, nat>) returns (hops: seq<On<P>>)
    requires Ranked(s, rank)
    ensures hops == Chain(s, ev, rank)
  {
    hops := [];
    var cur := ev;
    var going := true;
    while going
      invariant hops + (if going then Chain(s, cur, rank) else []) == Chain(s, ev, rank)
      decreases going, Measure(rank, cur.action)
    {
      if cur.action in s.observerMarkers || cur.action in s.noBubble || cur.action !in s.parent {
        going := false;
      } else {
        var parent := s.parent[cur.action];
        if parent !in s.actionObservers {
          going := false;
        } else {
          var next := cur.(prevAction := cur.action, action := parent);
          hops := hops + [next];
          if Rebubbles(s, parent) {
            cur := next;
          } else {
            going := false;
          }
        }
      }
    }
  }

  /** Every hop of a chain carries the original payload and origin. */
  lemma {:induction false} ChainKeepsPayloadAndOrigin<P>(s: Store, ev: On<P>, rank: map<Entity, nat>, k: nat)
    requires Ranked(s, rank)
    requires k < |Chain(s, ev, rank)|
    ensures Chain(s, ev, rank)[k].payload == ev.payload
    ensures Chain(s, ev, rank)[k].origin == ev.origin
    decreases Measure(rank, ev.action)
  {
    var t := Hop(s, ev.action, ev).value;
    if k > 0 {
      ChainKeepsPayloadAndOrigin(s, t.ev, rank, k - 1);
    }
  }

  /** Consecutive hops are linked: each hop's `prevAction` is the previous
      hop's `action`, and each `action` is the parent of its `prevAction`. */
  lemma {:induction false} ChainIsLinked<P>(s: Store, ev: On<P>, rank: map<Entity, nat>, k: nat)
    requires Ranked(s, rank)
    requires k < |Chain(s, ev, rank)|
    ensures var c := Chain(s, ev, rank);
      && c[k].prevAction in s.parent
      && c[k].action == s.parent[c[k].prevAction]
      && c[k].prevAction == (if k == 0 then ev.action else c[k - 1].action)
    decreases Measure(rank, ev.action)
  {
    var t := Hop(s, ev.action, ev).value;
    if k > 0 {
      ChainIsLinked(s, t.ev, rank, k - 1);
    }
  }

  /** No hop ever leaves a `NoBubble` node: a marked node absorbs the chain. */
  lemma {:induction false} ChainNeverLeavesNoBubble<P>(s: Store, ev: On<P>, rank: map<Entity, nat>, k: nat)
    requires Ranked(s, rank)
    requires k < |Chain(s, ev, rank)|
    ensures Chain(s, ev, rank)[k].prevAction !in s.noBubble
    decreases Measure(rank, ev.action)
  {
    var t := Hop(s, ev.action, ev).value;
    if k > 0 {
      ChainNeverLeavesNoBubble(s, t.ev, rank, k - 1);
    }
  }

  /** When no stop rule applies anywhere, the chain ends exactly at the root. */
  lemma {:induction false} ChainReachesRoot<P>(s: Store, ev: On<P>, rank: map<Entity, nat>)
    requires Ranked(s, rank)
    requires s.noBubble == {} && s.observerMarkers !! s.parent.Keys + s.parent.Values
    requires ev.action !in s.observerMarkers
    requires forall e :: e in s.parent ==> Rebubbles(s, s.parent[e])
    ensures var c := Chain(s, ev, rank);
      (c == [] <==> ev.action !in s.parent)
      && (c != [] ==> c[|c| - 1].action !in s.parent)
    decreases Measure(rank, ev.action)
  {
    if ev.action in s.parent {
      var t := Hop(s, ev.action, ev).value;
      assert t.ev.action in s.parent.Values;
      ChainReachesRoot(s, t.ev, rank);
    }
  }

  // ---- Replaying the chain trigger by trigger ----

  /** One observation: the event `ev` delivered to entity `target`. */
  datatype Delivery<P> = Delivery(target: Entity, ev: On<P>)

  function Fanout<P>(targets: seq<Entity>, ev: On<P>): (d: seq<Delivery<P>>)
    ensures |d| == |targets|
    ensures forall i :: 0 <= i < |d| ==> d[i] == Delivery(targets[i], ev)
    decreases targets
  {
    if targets == [] then [] else [Delivery(targets[0], ev)] + Fanout(targets[1..], ev)
  }

  /** What one delivery queues: the global propagation hop, then, on an
      observer entity running `bubble_result`, the re-trigger on the action. */
  function Effects<P>(s: Store, d: Delivery<P>): seq<Delivery<P>>
  {
    (match Hop(s, d.target, d.ev) case None => [] case Some(t) => Fanout(t.targets, t.ev))
    + (if d.target in s.bubbleObservers then Fanout(Bubble(d.ev).targets, d.ev) else [])
  }

  /** Depth-first dispatch: every delivery is observed, then its effects run
      before the rest of the pending work; `fuel` bounds the number of steps. */
  function Dispatch<P>(s: Store, pending: seq<Delivery<P>>, fuel: nat): seq<Delivery<P>>
    decreases fuel
  {
    if fuel == 0 || pending == [] then []
    else [pending[0]] + Dispatch(s, Effects(s, pending[0]) + pending[1..], fuel - 1)
  }

  /** The fuel left once all of `pending` and everything it causes has been
      dispatched, or `None` when the fuel runs out first. */
  function Remaining<P>(s: Store, pending: seq<Delivery<P>>, fuel: nat): (r: Option<nat>)
    ensures r.Some? ==> r.value <= fuel
    ensures pending == [] ==> r == Some(fuel)
    decreases fuel
  {
    if pending == [] then Some(fuel)
    else if fuel == 0 then None
    else Remaining(s, Effects(s, pending[0]) + pending[1..], fuel - 1)
  }

  /** Dispatching `a + b` finishes all of `a`, with everything it causes,
      before the first delivery of `b` is observed. */
  lemma {:induction false} DispatchSplit<P>(s: Store, a: seq<Delivery<P>>, b: seq<Delivery<P>>, fuel: nat)
    requires Remaining(s, a, fuel).Some?
    ensures Dispatch(s, a + b, fuel) == Dispatch(s, a, fuel) + Dispatch(s, b, Remaining(s, a, fuel).value)
    ensures Remaining(s, a + b, fuel) == Remaining(s, b, Remaining(s, a, fuel).value)
    decreases fuel
  {
    if a == [] {
      assert a + b == b;
    } else {
      var rest := Effects(s, a[0]) + a[1..];
      StepAppend(s, a, b, fuel);
      DispatchSplit(s, rest, b, fuel - 1);
    }
  }

  /** One step on `a + b` with `a` non-empty is one step on `a`, with `b` still waiting. */
  lemma StepAppend<P>(s: Store, a: seq<Delivery<P>>, b: seq<Delivery<P>>, fuel: nat)
    requires a != [] && fuel > 0
    ensures Dispatch(s, a + b, fuel) == [a[0]] + Dispatch(s, (Effects(s, a[0]) + a[1..]) + b, fuel - 1)
    ensures Dispatch(s, a, fuel) == [a[0]] + Dispatch(s, Effects(s, a[0]) + a[1..], fuel - 1)
    ensures Remaining(s, a + b, fuel) == Remaining(s, (Effects(s, a[0]) + a[1..]) + b, fuel - 1)
    ensures Remaining(s, a, fuel) == Remaining(s, Effects(s, a[0]) + a[1..], fuel - 1)
  {
    assert (a + b)[0] == a[0];
    assert Effects(s, a[0]) + (a + b)[1..] == (Effects(s, a[0]) + a[1..]) + b by {
      assert (a + b)[1..] == a[1..] + b;
    }
  }

  /** Dispatching a prefix finishes no later than dispatching the whole list. */
  lemma {:induction false} RemainingPrefix<P>(s: Store, a: seq<Delivery<P>>, b: seq<Delivery<P>>, fuel: nat)
    requires Remaining(s, a + b, fuel).Some?
    ensures Remaining(s, a, fuel).Some?
    decreases fuel
  {
    if a != [] {
      StepAppend(s, a, b, fuel);
      RemainingPrefix(s, Effects(s, a[0]) + a[1..], b, fuel - 1);
    }
  }

  /** The deliveries of a list dispatched one whole subtree after the other:
      each delivery with everything it causes, then the next. */
  function DispatchEach<P>(s: Store, ds: seq<Delivery<P>>, fuel: nat): seq<Delivery<P>>
    requires Remaining(s, ds, fuel).Some?
    decreases |ds|
  {
    if ds == [] then []
    else
      assert ds == [ds[0]] + ds[1..];
      RemainingPrefix(s, [ds[0]], ds[1..], fuel);
      DispatchSplit(s, [ds[0]], ds[1..], fuel);
      Dispatch(s, [ds[0]], fuel) + DispatchEach(s, ds[1..], Remaining(s, [ds[0]], fuel).value)
  }

  /** When the fuel suffices, dispatching a list is dispatching each of its
      deliveries' subtrees in list order. */
  lemma {:induction false} DispatchEachIsDispatch<P>(s: Store, ds: seq<Delivery<P>>, fuel: nat)
    requires Remaining(s, ds, fuel).Some?
    ensures DispatchEach(s, ds, fuel) == Dispatch(s, ds, fuel)
    decreases |ds|
  {
    if ds != [] {
      assert ds == [ds[0]] + ds[1..];
      RemainingPrefix(s, [ds[0]], ds[1..], fuel);
      DispatchSplit(s, [ds[0]], ds[1..], fuel);
      DispatchEachIsDispatch(s, ds[1..], Remaining(s, [ds[0]], fuel).value);
    }
  }

  /** Depth-first: a delivery is observed first, then each of its effects in
      order, each with all it causes before the next effect starts. */
  lemma DispatchDepthFirst<P>(s: Store, d: Delivery<P>, fuel: nat)
    requires Remaining(s, [d], fuel).Some?
    ensures fuel > 0 && Remaining(s, Effects(s, d), fuel - 1).Some?
    ensures Dispatch(s, [d], fuel) == [d] + DispatchEach(s, Effects(s, d), fuel - 1)
  {
    assert Effects(s, d) + [d][1..] == Effects(s, d);
    DispatchOne(s, d, fuel);
    DispatchEachIsDispatch(s, Effects(s, d), fuel - 1);
  }

  // The hierarchy of the `bubbles_up` test: parent <- child <- grandchild.
  const TEST_PARENT: Entity := 0
  const TEST_CHILD: Entity := 1
  const TEST_GRANDCHILD: Entity := 2
  const PARENT_OBSERVER: Entity := 3
  const CHILD_OBSERVER: Entity := 4
  const GRANDCHILD_OBSERVER: Entity := 5

  function TestStore(): Store
  {
    Store(
      map[TEST_CHILD := TEST_PARENT, TEST_GRANDCHILD := TEST_CHILD],
      {},
      map[TEST_PARENT := [PARENT_OBSERVER], TEST_CHILD := [CHILD_OBSERVER], TEST_GRANDCHILD := [GRANDCHILD_OBSERVER]],
      {PARENT_OBSERVER, CHILD_OBSERVER, GRANDCHILD_OBSERVER},
      {PARENT_OBSERVER, CHILD_OBSERVER})
  }

  /** The `bubbles_up` test: the grandchild's `Success` is observed five times,
      first at the grandchild, then at the child's observer, then on the child
      (its `BubbleUpFlow` re-trigger), then at the parent's observer and on the parent. */
  lemma BubblesUp()
    ensures var ev0 := On(Success, TEST_GRANDCHILD, TEST_GRANDCHILD, PLACEHOLDER);
      var ev1 := On(Success, TEST_GRANDCHILD, TEST_CHILD, TEST_GRANDCHILD);
      var ev3 := On(Success, TEST_GRANDCHILD, TEST_PARENT, TEST_CHILD);
      var seen := Dispatch(TestStore(), [Delivery(TEST_GRANDCHILD, ev0)], 10);
      && |seen| == 5
      && seen[0].ev == ev0
      && seen[1].ev == ev1
      && seen[3].ev == ev3
      && seen == [Delivery(TEST_GRANDCHILD, ev0), Delivery(CHILD_OBSERVER, ev1), Delivery(TEST_CHILD, ev1),
                  Delivery(PARENT_OBSERVER, ev3), Delivery(TEST_PARENT, ev3)]
  {
    var s := TestStore();
    var ev0 := On(Success, TEST_GRANDCHILD, TEST_GRANDCHILD, PLACEHOLDER);
    var ev1 := On(Success, TEST_GRANDCHILD, TEST_CHILD, TEST_GRANDCHILD);
    var ev3 := On(Success, TEST_GRANDCHILD, TEST_PARENT, TEST_CHILD);
    var d0, d1, d2 := Delivery(TEST_GRANDCHILD, ev0), Delivery(CHILD_OBSERVER, ev1), Delivery(TEST_CHILD, ev1);
    var d3, d4 := Delivery(PARENT_OBSERVER, ev3), Delivery(TEST_PARENT, ev3);
    TestEffects();
    var ds := [d0, d1, d2, d3, d4];
    assert forall i :: 0 <= i < |ds| - 1 ==> Effects(s, ds[i]) == [ds[i + 1]] by {
      assert ds[0] == d0 && ds[1] == d1 && ds[2] == d2 && ds[3] == d3 && ds[4] == d4;
    }
    SingleEffectChain(s, ds, 10);
  }

  /** Deliveries each triggering only the next, the last triggering nothing:
      dispatching the first with enough fuel observes the whole chain in order. */
  lemma {:induction false} SingleEffectChain<P>(s: Store, ds: seq<Delivery<P>>, fuel: nat)
    requires ds != [] && fuel >= |ds|
    requires forall i :: 0 <= i < |ds| - 1 ==> Effects(s, ds[i]) == [ds[i + 1]]
    requires Effects(s, ds[|ds| - 1]) == []
    ensures Dispatch(s, [ds[0]], fuel) == ds
    decreases |ds|
  {
    if |ds| == 1 {
      DispatchOne(s, ds[0], fuel);
      assert Dispatch<P>(s, [], fuel - 1) == [];
    } else {
      var tail := ds[1..];
      assert Dispatch(s, [tail[0]], fuel - 1) == tail by {
        forall i | 0 <= i < |tail| - 1
          ensures Effects(s, tail[i]) == [tail[i + 1]]
        {
          assert tail[i] == ds[i + 1] && tail[i + 1] == ds[i + 2];
        }
        SingleEffectChain(s, tail, fuel - 1);
      }
      assert Effects(s, ds[0]) == [tail[0]];
      OneEffect(s, ds[0], tail[0], fuel, tail);
      assert [ds[0]] + tail == ds;
    }
  }

  /** A delivery that triggers exactly one other is followed by that one's dispatch. */
  lemma OneEffect<P>(s: Store, d: Delivery<P>, e: Delivery<P>, fuel: nat, rest: seq<Delivery<P>>)
    requires fuel > 0 && Effects(s, d) == [e] && Dispatch(s, [e], fuel - 1) == rest
    ensures Dispatch(s, [d], fuel) == [d] + rest
  {
    DispatchOne(s, d, fuel);
  }

  /** What each delivery of the `bubbles_up` test queues. */
  lemma TestEffects()
    ensures var s := TestStore();
      var ev0 := On(Success, TEST_GRANDCHILD, TEST_GRANDCHILD, PLACEHOLDER);
      var ev1 := On(Success, TEST_GRANDCHILD, TEST_CHILD, TEST_GRANDCHILD);
      var ev3 := On(Success, TEST_GRANDCHILD, TEST_PARENT, TEST_CHILD);
      && Effects(s, Delivery(TEST_GRANDCHILD, ev0)) == [Delivery(CHILD_OBSERVER, ev1)]
      && Effects(s, Delivery(CHILD_OBSERVER, ev1)) == [Delivery(TEST_CHILD, ev1)]
      && Effects(s, Delivery(TEST_CHILD, ev1)) == [Delivery(PARENT_OBSERVER, ev3)]
      && Effects(s, Delivery(PARENT_OBSERVER, ev3)) == [Delivery(TEST_PARENT, ev3)]
      && Effects(s, Delivery(TEST_PARENT, ev3)) == []
  {
    var s := TestStore();
    var ev0 := On(Success, TEST_GRANDCHILD, TEST_GRANDCHILD, PLACEHOLDER);
    var ev1 := On(Success, TEST_GRANDCHILD, TEST_CHILD, TEST_GRANDCHILD);
    var ev3 := On(Success, TEST_GRANDCHILD, TEST_PARENT, TEST_CHILD);
    var d0, d1, d2 := Delivery(TEST_GRANDCHILD, ev0), Delivery(CHILD_OBSERVER, ev1), Delivery(TEST_CHILD, ev1);
    var d3, d4 := Delivery(PARENT_OBSERVER, ev3), Delivery(TEST_PARENT, ev3);
    assert Effects(s, d0) == [d1] by {
      assert Hop(s, d0.target, d0.ev) == Some(Trigger(ev1, [CHILD_OBSERVER]));
      assert Fanout([CHILD_OBSERVER], ev1) == [d1];
    }
    assert Effects(s, d1) == [d2] by {
      assert Hop(s, d1.target, d1.ev) == None;
      assert Fanout(Bubble(ev1).targets, ev1) == [d2];
    }
    assert Effects(s, d2) == [d3] by {
      assert Hop(s, d2.target, d2.ev) == Some(Trigger(ev3, [PARENT_OBSERVER]));
      assert Fanout([PARENT_OBSERVER], ev3) == [d3];
    }
    assert Effects(s, d3) == [d4] by {
      assert Hop(s, d3.target, d3.ev) == None;
      assert Fanout(Bubble(ev3).targets, ev3) == [d4];
    }
    assert Effects(s, d4) == [] by {
      assert Hop(s, d4.target, d4.ev) == None;
    }
  }

  lemma DispatchOne<P>(s: Store, d: Delivery<P>, fuel: nat)
    requires fuel > 0
    ensures Dispatch(s, [d], fuel) == [d] + Dispatch(s, Effects(s, d), fuel - 1)
  {
    assert Effects(s, d) + [d][1..] == Effects(s, d);
  }

  /** The same test seen through the chain of forwarded hops. */
  lemma BubblesUpChain()
    ensures Chain(TestStore(), On(Success, TEST_GRANDCHILD, TEST_GRANDCHILD, PLACEHOLDER),
                  map[TEST_PARENT := 0, TEST_CHILD := 1, TEST_GRANDCHILD := 2])
         == [On(Success, TEST_GRANDCHILD, TEST_CHILD, TEST_GRANDCHILD), On(Success, TEST_GRANDCHILD, TEST_PARENT, TEST_CHILD)]
  {
    var s := TestStore();
    var rank := map[TEST_PARENT := 0, TEST_CHILD := 1, TEST_GRANDCHILD := 2];
    var ev1 := On(Success, TEST_GRANDCHILD, TEST_CHILD, TEST_GRANDCHILD);
    var ev3 := On(Success, TEST_GRANDCHILD, TEST_PARENT, TEST_CHILD);
    assert CHILD_OBSERVER in s.actionObservers[TEST_CHILD];
    assert Rebubbles(s, TEST_CHILD);
    assert Chain(s, ev3, rank) == [];
    assert Chain(s, ev1, rank) == [ev3];
  }
}
