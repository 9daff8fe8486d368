/** The tree builder: `BeetBuilder` values assembled with `new`, `child` and
    `with_type`, and `build`, which spawns the builder tree depth-first into
    a world, links parents to children in list order and inserts the
    default bookkeeping components. */
module Builder {
  import opened Ecs

  /** The registration identity of a reflected type. */
  type TypeId = nat

  /** What a node's spawn function spawns: its bundle type, the bundle's own
      components (abstract ids) and the bundle's `Name`, if it carries one. */
  datatype Bundle = Bundle(typeId: TypeId, components: set<nat>, name: Option<string>)

  /** A node of the builder tree; `miscFuncs` are the type registrations queued by `with_type`. */
  datatype BeetBuilder = BeetBuilder(
    children: seq<BeetBuilder>,
    insertRootDefaults: bool,
    insertDefaults: bool,
    bundle: Bundle,
    miscFuncs: seq<TypeId>)

  /** `BeetBuilder::new`: a leaf with both default flags set. */
  function New(bundle: Bundle): (b: BeetBuilder)
    ensures b.children == [] && b.miscFuncs == []
    ensures b.insertRootDefaults && b.insertDefaults
    ensures b.bundle == bundle
  {
    BeetBuilder([], true, true, bundle, [])
  }

  /** `with_type::<T>`: queue one more registration, run before the node is spawned. */
  function WithType(b: BeetBuilder, t: TypeId): (r: BeetBuilder)
    ensures r.miscFuncs == b.miscFuncs + [t]
    ensures r.children == b.children && r.bundle == b.bundle
    ensures r.insertRootDefaults == b.insertRootDefaults && r.insertDefaults == b.insertDefaults
  {
    b.(miscFuncs := b.miscFuncs + [t])
  }

  /** `child`: append one child at the end, after all existing siblings. */
  function Child(b: BeetBuilder, c: BeetBuilder): (r: BeetBuilder)
    ensures |r.children| == |b.children| + 1
    ensures r.children[..|b.children|] == b.children && r.children[|b.children|] == c
    ensures r.miscFuncs == b.miscFuncs && r.bundle == b.bundle
    ensures r.insertRootDefaults == b.insertRootDefaults && r.insertDefaults == b.insertDefaults
  {
    b.(children := b.children + [c])
  }

  /** Number of nodes of a builder tree. */
  function Size(b: BeetBuilder): nat
    decreases b, 1
  {
    1 + SizeAll(b.children)
  }

  function SizeAll(cs: seq<BeetBuilder>): nat
    decreases cs, 0
  {
    if cs == [] then 0 else SizeAll(cs[..|cs| - 1]) + Size(cs[|cs| - 1])
  }

  // ---- The world ----

  datatype Marker = RunTimer | RootIsTargetAgent | BeetRoot | Running

  /** One entity: its bundle components, its `Name`, its markers and its hierarchy links. */
  datatype Record = Record(
    components: set<nat>,
    name: Option<string>,
    markers: set<Marker>,
    parent: Option<Entity>,
    children: seq<Entity>)

  /** What the world records, in order: type registrations and spawns. */
  datatype Op = Registered(typeId: TypeId) | Spawned(entity: Entity)

  /** The world as a value: entities, the next fresh identifier, the journal. */
  datatype WorldState = WorldState(entities: map<Entity, Record>, next: Entity, journal: seq<Op>)

  /** Every entity was allocated before the next fresh identifier. */
  predicate WellFormed(w: WorldState)
  {
    forall e :: e in w.entities ==> e < w.next
  }

  function RegisterType(w: WorldState, t: TypeId): WorldState
  {
    w.(journal := w.journal + [Registered(t)])
  }

  /** The spawn function: register the bundle type, spawn the bundle as a fresh entity. */
  function Spawn(w: WorldState, bundle: Bundle): WorldState
  {
    var w1 := RegisterType(w, bundle.typeId);
    WorldState(w1.entities[w1.next := Record(bundle.components, bundle.name, {}, None, [])],
               w1.next + 1, w1.journal + [Spawned(w1.next)])
  }

  /** `add_child`: append `c` to `p`'s children and make `p` its parent. */
  function AddChild(w: WorldState, p: Entity, c: Entity): WorldState
  {
    if p in w.entities && c in w.entities && p != c then
      var w1 := w.(entities := w.entities[p := w.entities[p].(children := w.entities[p].children + [c])]);
      w1.(entities := w1.entities[c := w1.entities[c].(parent := Some(p))])
    else w
  }

  /** `insert_default_components`: the timer and target-agent markers always,
      the default name only when the entity has no `Name`. */
  function InsertDefaultComponents(w: WorldState, e: Entity, defaultName: string): WorldState
  {
    if e in w.entities then
      var r := w.entities[e];
      w.(entities := w.entities[e := r.(markers := r.markers + {RunTimer, RootIsTargetAgent},
                                         name := if r.name.None? then Some(defaultName) else r.name)])
    else w
  }

  /** The root markers `(BeetRoot, Running)`. */
  function InsertRootMarkers(w: WorldState, e: Entity): WorldState
  {
    if e in w.entities then
      w.(entities := w.entities[e := w.entities[e].(markers := w.entities[e].markers + {BeetRoot, Running})])
    else w
  }

  function RegisterAll(w: WorldState, ts: seq<TypeId>): WorldState
    decreases |ts|
  {
    if ts == [] then w else RegisterType(RegisterAll(w, ts[..|ts| - 1]), ts[|ts| - 1])
  }

  function AddChildren(w: WorldState, p: Entity, cs: seq<Entity>): WorldState
    decreases |cs|
  {
    if cs == [] then w else AddChild(AddChildren(w, p, cs[..|cs| - 1]), p, cs[|cs| - 1])
  }

  // ---- Building ----

  datatype Tree = Tree(value: Entity, children: seq<Tree>)

  datatype Built = Built(tree: Tree, world: WorldState, visited: set<Entity>)
  datatype BuiltAll = BuiltAll(trees: seq<Tree>, world: WorldState, visited: set<Entity>)

  function Roots(ts: seq<Tree>): (r: seq<Entity>)
    ensures |r| == |ts| && forall i :: 0 <= i < |ts| ==> r[i] == ts[i].value
  {
    seq(|ts|, i requires 0 <= i < |ts| => ts[i].value)
  }

  function DefaultName(n: nat): string
  {
    "Node " + NatToDecimal(n)
  }

  /** `build_recursive`: registrations, spawn, children in order, links, defaults. */
  function BuildRec(b: BeetBuilder, w: WorldState, visited: set<Entity>): Built
    decreases b, 1
  {
    var w1 := RegisterAll(w, b.miscFuncs);
    var e := w1.next;
    var w2 := Spawn(w1, b.bundle);
    var kids := BuildAll(b.children, w2, visited + {e});
    Built(Tree(e, kids.trees), Finish(kids.world, e, Roots(kids.trees), b.insertDefaults, DefaultName(|kids.visited|)), kids.visited)
  }

  /** The end of `build_recursive`: link the children, then the defaults when configured. */
  function Finish(w: WorldState, e: Entity, cs: seq<Entity>, insertDefaults: bool, defaultName: string): WorldState
  {
    var w3 := AddChildren(w, e, cs);
    if insertDefaults then InsertDefaultComponents(w3, e, defaultName) else w3
  }

  /** The `map(...).collect()` over the children: built one after the other, in list order. */
  function BuildAll(cs: seq<BeetBuilder>, w: WorldState, visited: set<Entity>): BuiltAll
    decreases cs, 0
  {
    if cs == [] then BuiltAll([], w, visited)
    else
      var init := BuildAll(cs[..|cs| - 1], w, visited);
      var last := BuildRec(cs[|cs| - 1], init.world, init.visited);
      BuiltAll(init.trees + [last.tree], last.world, last.visited)
  }

  /** `build`: the recursive build from an empty visited set, then the root markers. */
  function Build(b: BeetBuilder, w: WorldState): (Tree, WorldState)
  {
    var r := BuildRec(b, w, {});
    (r.tree, if b.insertRootDefaults then InsertRootMarkers(r.world, r.tree.value) else r.world)
  }

  /** The world the builder spawns into, updated in place. */
  class World {
    var entities: map<Entity, Record>
    var next: Entity
    var journal: seq<Op>

    function State(): WorldState
      reads this
    {
      WorldState(entities, next, journal)
    }

    constructor ()
      ensures State() == WorldState(map[], 0, [])
    {
      entities, next, journal := map[], 0, [];
    }

    method Register(t: TypeId)
      modifies this
      ensures State() == RegisterType(old(State()), t)
    {
      journal := journal + [Registered(t)];
    }

    method SpawnBundle(bundle: Bundle) returns (e: Entity)
      modifies this
      ensures e == old(next)
      ensures State() == Spawn(old(State()), bundle)
    {
      Register(bundle.typeId);
      e := next;
      entities := entities[e := Record(bundle.components, bundle.name, {}, None, [])];
      next := next + 1;
      journal := journal + [Spawned(e)];
    }

    method AddChildTo(p: Entity, c: Entity)
      modifies this
      ensures State() == AddChild(old(State()), p, c)
    {
      if p in entities && c in entities && p != c {
        entities := entities[p := entities[p].(children := entities[p].children + [c])];
        entities := entities[c := entities[c].(parent := Some(p))];
      }
    }

    method InsertDefaults(e: Entity, defaultName: string)
      modifies this
      ensures State() == InsertDefaultComponents(old(State()), e, defaultName)
    {
      if e in entities {
        var r := entities[e];
        r := r.(markers := r.markers + {RunTimer, RootIsTargetAgent});
        if r.name.None? {
          r := r.(name := Some(defaultName));
        }
        entities := entities[e := r];
      }
    }

    method InsertRoot(e: Entity)
      modifies this
      ensures State() == InsertRootMarkers(old(State()), e)
    {
      if e in entities {
        entities := entities[e := entities[e].(markers := entities[e].markers + {BeetRoot, Running})];
      }
    }

    /** `build_recursive`, mutating this world and threading the visited set. */
    method BuildRecursive(b: BeetBuilder, visited: set<Entity>) returns (tree: Tree, visitedOut: set<Entity>)
      modifies this
      ensures Built(tree, State(), visitedOut) == BuildRec(b, old(State()), visited)
      decreases b, 1
    {
      RegisterEach(b.miscFuncs);
      var e := SpawnBundle(b.bundle);
      var trees, vis := BuildChildren(b.children, visited + {e});
      AddChildrenTo(e, trees);
      if b.insertDefaults {
        InsertDefaults(e, "Node " + NatToDecimal(|vis|));
      }
      tree := Tree(e, trees);
      visitedOut := vis;
    }

    /** The registrations queued by `with_type`, run in order. */
    method RegisterEach(ts: seq<TypeId>)
      modifies this
      ensures State() == RegisterAll(old(State()), ts)
    {
      ghost var w0 := State();
      var i := 0;
      while i < |ts|
        invariant 0 <= i <= |ts|
        invariant State() == RegisterAll(w0, ts[..i])
      {
        assert ts[..i + 1][..i] == ts[..i];
        Register(ts[i]);
        i := i + 1;
      }
      assert ts[..i] == ts;
    }

    /** The children built one after the other, in list order. */
    method BuildChildren(cs: seq<BeetBuilder>, visited: set<Entity>) returns (trees: seq<Tree>, vis: set<Entity>)
      modifies this
      ensures BuildAll(cs, old(State()), visited) == BuiltAll(trees, State(), vis)
      decreases cs, 0
    {
      ghost var w0 := State();
      vis := visited;
      trees := [];
      var j := 0;
      while j < |cs|
        invariant 0 <= j <= |cs|
        invariant BuildAll(cs[..j], w0, visited) == BuiltAll(trees, State(), vis)
      {
        assert cs[..j + 1][..j] == cs[..j];
        var t, v := BuildRecursive(cs[j], vis);
        trees := trees + [t];
        vis := v;
        j := j + 1;
      }
      assert cs[..j] == cs;
    }

    /** `add_child` for each built child, in order. */
    method AddChildrenTo(e: Entity, trees: seq<Tree>)
      modifies this
      ensures State() == AddChildren(old(State()), e, Roots(trees))
    {
      ghost var w0 := State();
      var k := 0;
      while k < |trees|
        invariant 0 <= k <= |trees|
        invariant State() == AddChildren(w0, e, Roots(trees)[..k])
      {
        assert Roots(trees)[..k + 1][..k] == Roots(trees)[..k];
        AddChildTo(e, trees[k].value);
        k := k + 1;
      }
      assert Roots(trees)[..k] == Roots(trees);
    }

    /** `build`: spawn the whole tree, then mark its root when configured to. */
    method BuildTree(b: BeetBuilder) returns (tree: Tree)
      modifies this
      ensures (tree, State()) == Build(b, old(State()))
    {
      var insertRootDefaults := b.insertRootDefaults;
      var v;
      tree, v := BuildRecursive(b, {});
      if insertRootDefaults {
        InsertRoot(tree.value);
      }
    }
  }

  // ---- What building does ----

  /** The identifiers from `lo` up to, not including, `hi`. */
  function Range(lo: nat, hi: nat): (r: set<nat>)
    ensures forall x :: x in r <==> lo <= x < hi
    ensures lo <= hi ==> |r| == hi - lo
    decreases hi
  {
    if hi <= lo then {} else Range(lo, hi - 1) + {hi - 1}
  }

  function Registrations(ts: seq<TypeId>): (ops: seq<Op>)
    ensures |ops| == |ts| && forall i :: 0 <= i < |ts| ==> ops[i] == Registered(ts[i])
  {
    seq(|ts|, i requires 0 <= i < |ts| => Registered(ts[i]))
  }

  lemma {:induction false} RegisterAllFacts(w: WorldState, ts: seq<TypeId>)
    ensures RegisterAll(w, ts) == w.(journal := w.journal + Registrations(ts))
    decreases |ts|
  {
    if ts != [] {
      RegisterAllFacts(w, ts[..|ts| - 1]);
      assert Registrations(ts) == Registrations(ts[..|ts| - 1]) + [Registered(ts[|ts| - 1])];
    }
  }

  /** Linking touches only the parent and the linked children, and only their links. */
  lemma {:induction false} AddChildrenFrame(w: WorldState, p: Entity, cs: seq<Entity>)
    ensures var r := AddChildren(w, p, cs);
      && r.entities.Keys == w.entities.Keys && r.next == w.next && r.journal == w.journal
      && (forall x :: x in w.entities && x != p && x !in cs ==> r.entities[x] == w.entities[x])
      && (forall x :: x in w.entities ==>
            && r.entities[x].markers == w.entities[x].markers
            && r.entities[x].name == w.entities[x].name
            && r.entities[x].components == w.entities[x].components)
    decreases |cs|
  {
    if cs != [] {
      AddChildrenFrame(w, p, cs[..|cs| - 1]);
    }
  }

  /** Linking distinct fresh children appends them, in order, to the parent. */
  lemma {:induction false} AddChildrenLinks(w: WorldState, p: Entity, cs: seq<Entity>)
    requires p in w.entities && p !in cs
    requires forall i :: 0 <= i < |cs| ==> cs[i] in w.entities
    requires forall i, j :: 0 <= i < j < |cs| ==> cs[i] != cs[j]
    ensures AddChildren(w, p, cs).entities.Keys == w.entities.Keys
    ensures var r := AddChildren(w, p, cs);
      && r.entities[p].children == w.entities[p].children + cs
      && r.entities[p].parent == w.entities[p].parent
      && forall i :: 0 <= i < |cs| ==> r.entities[cs[i]].parent == Some(p)
    decreases |cs|
  {
    if cs != [] {
      var init := cs[..|cs| - 1];
      var c := cs[|cs| - 1];
      AddChildrenLinks(w, p, init);
      var m := AddChildren(w, p, init);
      AddChildFacts(m, p, c);
      forall i | 0 <= i < |cs|
        ensures AddChildren(w, p, cs).entities[cs[i]].parent == Some(p)
      {
        if i < |init| {
          assert cs[i] == init[i] && cs[i] != c;
        }
      }
    }
  }

  /** One link: the parent gains the child at the end of its children, the
      child gains the parent, and every other entity stays as it was. */
  lemma AddChildFacts(w: WorldState, p: Entity, c: Entity)
    requires p in w.entities && c in w.entities && p != c
    ensures var r := AddChild(w, p, c);
      && r.entities.Keys == w.entities.Keys
      && r.entities[p] == w.entities[p].(children := w.entities[p].children + [c])
      && r.entities[c] == w.entities[c].(parent := Some(p))
      && forall x :: x in w.entities && x != p && x != c ==> r.entities[x] == w.entities[x]
  {
  }

  lemma RangeSplit(lo: nat, mid: nat, hi: nat)
    requires lo <= mid <= hi
    ensures Range(lo, hi) == Range(lo, mid) + Range(mid, hi)
  {
    assert forall x :: x in Range(lo, hi) <==> x in Range(lo, mid) + Range(mid, hi);
  }

  /** `r` extends `w` by `n` fresh consecutive entities, leaves every older
      entity untouched, only extends the journal, and puts no root marker on
      anything new. */
  ghost predicate Allocates(w: WorldState, r: WorldState, n: nat)
  {
    && WellFormed(r)
    && r.next == w.next + n
    && (forall x :: x in r.entities <==> x in w.entities || w.next <= x < r.next)
    && (forall x :: x in w.entities ==> r.entities[x] == w.entities[x])
    && w.journal <= r.journal
    && (forall x :: x in r.entities && x !in w.entities ==>
          BeetRoot !in r.entities[x].markers && Running !in r.entities[x].markers)
  }

  lemma AllocatesTrans(w1: WorldState, w2: WorldState, w3: WorldState, n: nat, m: nat)
    requires Allocates(w1, w2, n) && Allocates(w2, w3, m)
    ensures Allocates(w1, w3, n + m)
  {
    forall x | x in w3.entities && x !in w1.entities
      ensures BeetRoot !in w3.entities[x].markers && Running !in w3.entities[x].markers
    {
      if x in w2.entities {
        assert w3.entities[x] == w2.entities[x];
      }
    }
  }

  /** `r'` only re-links or adds default markers to entities newer than `w`. */
  ghost predicate TouchesOnlyNew(w: WorldState, r: WorldState, r': WorldState)
  {
    && r'.entities.Keys == r.entities.Keys && r'.next == r.next && r'.journal == r.journal
    && (forall x :: x in w.entities && x in r.entities ==> r'.entities[x] == r.entities[x])
    && (forall x :: x in r.entities ==> r'.entities[x].markers <= r.entities[x].markers + {RunTimer, RootIsTargetAgent})
  }

  lemma AllocatesTouch(w: WorldState, r: WorldState, r': WorldState, n: nat)
    requires Allocates(w, r, n) && TouchesOnlyNew(w, r, r')
    ensures Allocates(w, r', n)
  {
  }

  lemma SpawnAllocates(w: WorldState, bundle: Bundle)
    requires WellFormed(w)
    ensures Allocates(w, Spawn(w, bundle), 1)
    ensures Spawn(w, bundle).entities[w.next] == Record(bundle.components, bundle.name, {}, None, [])
  {
  }

  lemma {:induction false} AddChildrenTouches(w: WorldState, r: WorldState, p: Entity, cs: seq<Entity>)
    requires p !in w.entities && forall i :: 0 <= i < |cs| ==> cs[i] !in w.entities
    ensures TouchesOnlyNew(w, r, AddChildren(r, p, cs))
  {
    AddChildrenFrame(r, p, cs);
  }

  lemma InsertDefaultsTouches(w: WorldState, r: WorldState, e: Entity, name: string)
    requires e !in w.entities
    ensures TouchesOnlyNew(w, r, InsertDefaultComponents(r, e, name))
  {
  }

  /** Building allocates exactly `Size(b)` consecutive fresh entities, the
      first of them the root, and marks them all visited. */
  lemma {:induction false} BuildRecFacts(b: BeetBuilder, w: WorldState, v: set<Entity>)
    requires WellFormed(w) && forall x :: x in v ==> x < w.next
    ensures var r := BuildRec(b, w, v);
      && Allocates(w, r.world, Size(b))
      && r.tree.value == w.next
      && (forall x :: x in r.visited <==> x in v || w.next <= x < r.world.next)
    decreases b, 1
  {
    var w1 := RegisterAll(w, b.miscFuncs);
    var e := w1.next;
    var w2 := Spawn(w1, b.bundle);
    var kids := BuildAll(b.children, w2, v + {e});
    var r := BuildRec(b, w, v);
    assert r == Built(Tree(e, kids.trees), Finish(kids.world, e, Roots(kids.trees), b.insertDefaults, DefaultName(|kids.visited|)), kids.visited);
    StartAllocates(b, w);
    BuildAllFacts(b.children, w2, v + {e});
    BuildRecStep(w, v, w2, kids, SizeAll(b.children), b.insertDefaults, DefaultName(|kids.visited|), r);
  }

  /** One node's allocation from its spawn, its children's allocation and the finish. */
  lemma BuildRecStep(w: WorldState, v: set<Entity>, w2: WorldState, kids: BuiltAll, n: nat,
                     insertDefaults: bool, name: string, r: Built)
    requires WellFormed(w) && Allocates(w, w2, 1) && w2.next == w.next + 1
    requires Allocates(w2, kids.world, n)
    requires forall i :: 0 <= i < |kids.trees| ==> w2.next <= kids.trees[i].value
    requires forall x :: x in kids.visited <==> x in v + {w.next} || w2.next <= x < kids.world.next
    requires r == Built(Tree(w.next, kids.trees), Finish(kids.world, w.next, Roots(kids.trees), insertDefaults, name), kids.visited)
    ensures Allocates(w, r.world, 1 + n)
    ensures r.tree.value == w.next
    ensures forall x :: x in r.visited <==> x in v || w.next <= x < r.world.next
  {
    AllocatesTrans(w, w2, kids.world, 1, n);
    var cs := Roots(kids.trees);
    assert forall i :: 0 <= i < |cs| ==> cs[i] !in w.entities by {
      forall i | 0 <= i < |cs|
        ensures cs[i] !in w.entities
      {
        assert cs[i] == kids.trees[i].value >= w2.next;
      }
    }
    FinishAllocates(w, kids.world, 1 + n, w.next, cs, insertDefaults, name);
  }

  /** A node's registrations and spawn allocate exactly its root. */
  lemma StartAllocates(b: BeetBuilder, w: WorldState)
    requires WellFormed(w)
    ensures var w1 := RegisterAll(w, b.miscFuncs);
      && w1.next == w.next
      && Allocates(w, Spawn(w1, b.bundle), 1)
  {
    RegisterAllFacts(w, b.miscFuncs);
    SpawnAllocates(RegisterAll(w, b.miscFuncs), b.bundle);
  }

  /** Linking and inserting defaults on new entities keeps an allocation. */
  lemma FinishAllocates(w: WorldState, r: WorldState, n: nat, e: Entity, cs: seq<Entity>, insertDefaults: bool, name: string)
    requires Allocates(w, r, n)
    requires e !in w.entities && forall i :: 0 <= i < |cs| ==> cs[i] !in w.entities
    ensures Allocates(w, Finish(r, e, cs, insertDefaults, name), n)
  {
    var w3 := AddChildren(r, e, cs);
    AddChildrenTouches(w, r, e, cs);
    AllocatesTouch(w, r, w3, n);
    if insertDefaults {
      InsertDefaultsTouches(w, w3, e, name);
      AllocatesTouch(w, w3, InsertDefaultComponents(w3, e, name), n);
    }
  }

  lemma {:induction false} BuildAllFacts(cs: seq<BeetBuilder>, w: WorldState, v: set<Entity>)
    requires WellFormed(w) && forall x :: x in v ==> x < w.next
    ensures var r := BuildAll(cs, w, v);
      && Allocates(w, r.world, SizeAll(cs))
      && |r.trees| == |cs|
      && (forall i :: 0 <= i < |cs| ==> w.next <= r.trees[i].value < r.world.next)
      && (forall i, j :: 0 <= i < j < |cs| ==> r.trees[i].value < r.trees[j].value)
      && (forall x :: x in r.visited <==> x in v || w.next <= x < r.world.next)
    decreases cs, 0
  {
    if cs != [] {
      var init := BuildAll(cs[..|cs| - 1], w, v);
      BuildAllFacts(cs[..|cs| - 1], w, v);
      BuildRecFacts(cs[|cs| - 1], init.world, init.visited);
      var last := BuildRec(cs[|cs| - 1], init.world, init.visited);
      AllocatesTrans(w, init.world, last.world, SizeAll(cs[..|cs| - 1]), Size(cs[|cs| - 1]));
    }
  }

  /** The ids of a spawned tree, each node before its children, children in list order. */
  function Preorder(t: Tree): seq<Entity>
    decreases t, 1
  {
    [t.value] + PreorderAll(t.children)
  }

  function PreorderAll(ts: seq<Tree>): seq<Entity>
    decreases ts, 0
  {
    if ts == [] then [] else PreorderAll(ts[..|ts| - 1]) + Preorder(ts[|ts| - 1])
  }

  /** The returned tree has the builder tree's shape. */
  ghost predicate Mirrors(t: Tree, b: BeetBuilder)
    decreases t
  {
    |t.children| == |b.children| && forall i :: 0 <= i < |t.children| ==> Mirrors(t.children[i], b.children[i])
  }

  /** Nodes are spawned depth-first, each before its children and children in
      builder order, so the tree's preorder is a run of consecutive fresh ids. */
  lemma {:induction false} BuildPreorder(b: BeetBuilder, w: WorldState, v: set<Entity>)
    requires WellFormed(w) && forall x :: x in v ==> x < w.next
    ensures Preorder(BuildRec(b, w, v).tree) == Consecutive(w.next, Size(b))
    decreases b, 1
  {
    var w1 := RegisterAll(w, b.miscFuncs);
    var e := w1.next;
    var w2 := Spawn(w1, b.bundle);
    var kids := BuildAll(b.children, w2, v + {e});
    assert BuildRec(b, w, v).tree == Tree(e, kids.trees);
    assert PreorderAll(kids.trees) == Consecutive(e + 1, SizeAll(b.children)) && e == w.next by {
      BuildStart(b, w);
      BuildAllPreorder(b.children, w2, v + {e});
    }
    PreorderStep(e, kids.trees, SizeAll(b.children));
  }

  /** A root followed by a run of ids starting right after it. */
  lemma PreorderStep(e: Entity, ts: seq<Tree>, n: nat)
    requires PreorderAll(ts) == Consecutive(e + 1, n)
    ensures Preorder(Tree(e, ts)) == Consecutive(e, 1 + n)
  {
    ConsecutiveAppend(e, 1, n);
    assert Consecutive(e, 1) == [e];
  }

  /** A node's registrations and spawn: the root takes the next fresh id. */
  lemma BuildStart(b: BeetBuilder, w: WorldState)
    requires WellFormed(w)
    ensures var w2 := Spawn(RegisterAll(w, b.miscFuncs), b.bundle);
      && RegisterAll(w, b.miscFuncs).next == w.next
      && WellFormed(w2) && w2.next == w.next + 1
  {
    RegisterAllFacts(w, b.miscFuncs);
  }

  lemma {:induction false} BuildAllPreorder(cs: seq<BeetBuilder>, w: WorldState, v: set<Entity>)
    requires WellFormed(w) && forall x :: x in v ==> x < w.next
    ensures PreorderAll(BuildAll(cs, w, v).trees) == Consecutive(w.next, SizeAll(cs))
    decreases cs, 0
  {
    if cs != [] {
      var init := BuildAll(cs[..|cs| - 1], w, v);
      BuildAllPreorder(cs[..|cs| - 1], w, v);
      BuildAllBasics(cs[..|cs| - 1], w, v);
      BuildPreorder(cs[|cs| - 1], init.world, init.visited);
      var last := BuildRec(cs[|cs| - 1], init.world, init.visited);
      assert init.trees + [last.tree] == BuildAll(cs, w, v).trees;
      ConsecutiveAppend(w.next, SizeAll(cs[..|cs| - 1]), Size(cs[|cs| - 1]));
    }
  }

  /** The returned tree mirrors the builder tree: one node per builder, children in order. */
  lemma {:induction false} BuildMirrors(b: BeetBuilder, w: WorldState, v: set<Entity>)
    ensures Mirrors(BuildRec(b, w, v).tree, b)
    decreases b, 1
  {
    var w1 := RegisterAll(w, b.miscFuncs);
    var e := w1.next;
    var w2 := Spawn(w1, b.bundle);
    BuildAllMirrors(b.children, w2, v + {e});
  }

  lemma {:induction false} BuildAllMirrors(cs: seq<BeetBuilder>, w: WorldState, v: set<Entity>)
    ensures var ts := BuildAll(cs, w, v).trees;
      |ts| == |cs| && forall i :: 0 <= i < |cs| ==> Mirrors(ts[i], cs[i])
    decreases cs, 0
  {
    if cs != [] {
      var init := BuildAll(cs[..|cs| - 1], w, v);
      BuildAllMirrors(cs[..|cs| - 1], w, v);
      BuildMirrors(cs[|cs| - 1], init.world, init.visited);
      var last := BuildRec(cs[|cs| - 1], init.world, init.visited);
      assert init.trees + [last.tree] == BuildAll(cs, w, v).trees;
    }
  }

  /** The part of `BuildAllFacts` the preorder proof needs. */
  lemma BuildAllBasics(cs: seq<BeetBuilder>, w: WorldState, v: set<Entity>)
    requires WellFormed(w) && forall x :: x in v ==> x < w.next
    ensures var r := BuildAll(cs, w, v);
      && WellFormed(r.world) && r.world.next == w.next + SizeAll(cs)
      && forall x :: x in r.visited ==> x < r.world.next
  {
    BuildAllFacts(cs, w, v);
  }

  /** The journal of one node: its `with_type` registrations in order, then its
      own bundle registration and spawn, before anything of its children. */
  lemma BuildJournal(b: BeetBuilder, w: WorldState, v: set<Entity>)
    requires WellFormed(w) && forall x :: x in v ==> x < w.next
    ensures var j := BuildRec(b, w, v).world.journal;
      var head := w.journal + Registrations(b.miscFuncs) + [Registered(b.bundle.typeId), Spawned(w.next)];
      |head| <= |j| && j[..|head|] == head
  {
    var w1 := RegisterAll(w, b.miscFuncs);
    RegisterAllFacts(w, b.miscFuncs);
    var e := w1.next;
    var w2 := Spawn(w1, b.bundle);
    var kids := BuildAll(b.children, w2, v + {e});
    BuildAllJournal(b.children, w2, v + {e});
    AddChildrenFrame(kids.world, e, Roots(kids.trees));
    assert w2.journal <= BuildRec(b, w, v).world.journal;
  }

  /** Building children only extends the journal. */
  lemma BuildAllJournal(cs: seq<BeetBuilder>, w: WorldState, v: set<Entity>)
    requires WellFormed(w) && forall x :: x in v ==> x < w.next
    ensures w.journal <= BuildAll(cs, w, v).world.journal
  {
    BuildAllFacts(cs, w, v);
  }

  /** The number of entities visited once a subtree is built: every earlier
      node plus the whole subtree, so the default name of a node counts its
      descendants and everything spawned before it. */
  lemma VisitedCount(b: BeetBuilder, w: WorldState, v: set<Entity>)
    requires WellFormed(w) && forall x :: x in v ==> x < w.next
    ensures |BuildRec(b, w, v).visited| == |v| + Size(b)
  {
    var r := BuildRec(b, w, v);
    BuildRecFacts(b, w, v);
    assert r.visited == v + Range(w.next, w.next + Size(b));
    assert v !! Range(w.next, w.next + Size(b));
  }

  /** The spawned root record: the bundle's components, its own name if it has
      one and otherwise "Node <count>" when defaults are on, the default
      markers exactly when defaults are on, no parent, and the children's
      roots in builder order, each pointing back at it. */
  lemma BuildRoot(b: BeetBuilder, w: WorldState, v: set<Entity>)
    requires WellFormed(w) && forall x :: x in v ==> x < w.next
    ensures var r := BuildRec(b, w, v);
      && r.tree.value in r.world.entities
      && var root := r.world.entities[r.tree.value];
      && root.components == b.bundle.components
      && root.name == (if b.bundle.name.Some? || !b.insertDefaults then b.bundle.name
                       else Some(DefaultName(|v| + Size(b))))
      && root.markers == (if b.insertDefaults then {RunTimer, RootIsTargetAgent} else {})
      && LinkedRoot(r.world, r.tree.value, Roots(r.tree.children))
  {
    var w1 := RegisterAll(w, b.miscFuncs);
    RegisterAllFacts(w, b.miscFuncs);
    var e := w1.next;
    var w2 := Spawn(w1, b.bundle);
    var kids := BuildAll(b.children, w2, v + {e});
    var cs := Roots(kids.trees);
    assert BuildRec(b, w, v) == Built(Tree(e, kids.trees), Finish(kids.world, e, cs, b.insertDefaults, DefaultName(|kids.visited|)), kids.visited);
    assert e in w2.entities && w2.entities[e] == Record(b.bundle.components, b.bundle.name, {}, None, []);
    BuildAllKeeps(b.children, w2, v + {e});
    assert |kids.visited| == |v| + Size(b) by {
      VisitedCount(b, w, v);
    }
    FinishRoot(kids.world, e, cs, b.insertDefaults, DefaultName(|kids.visited|));
  }

  /** The part of `BuildAllFacts` the root proof needs: older entities are
      untouched and the children's roots are distinct new entities. */
  lemma BuildAllKeeps(cs: seq<BeetBuilder>, w: WorldState, v: set<Entity>)
    requires WellFormed(w) && forall x :: x in v ==> x < w.next
    ensures var r := BuildAll(cs, w, v);
      && (forall x :: x in w.entities ==> x in r.world.entities && r.world.entities[x] == w.entities[x])
      && |r.trees| == |cs|
      && (forall i :: 0 <= i < |cs| ==> Roots(r.trees)[i] in r.world.entities && Roots(r.trees)[i] !in w.entities)
      && (forall i, j :: 0 <= i < j < |cs| ==> Roots(r.trees)[i] != Roots(r.trees)[j])
  {
    BuildAllFacts(cs, w, v);
  }

  /** Finishing a fresh, unlinked root links it to its distinct children and
      adds the defaults when configured, keeping its components. */
  lemma FinishRoot(w: WorldState, e: Entity, cs: seq<Entity>, insertDefaults: bool, name: string)
    requires e in w.entities && w.entities[e].parent == None && w.entities[e].children == []
    requires forall i :: 0 <= i < |cs| ==> cs[i] in w.entities && cs[i] != e
    requires forall i, j :: 0 <= i < j < |cs| ==> cs[i] != cs[j]
    ensures var f := Finish(w, e, cs, insertDefaults, name);
      && LinkedRoot(f, e, cs)
      && f.entities[e].components == w.entities[e].components
      && f.entities[e].name == (if insertDefaults && w.entities[e].name.None? then Some(name) else w.entities[e].name)
      && f.entities[e].markers == w.entities[e].markers + (if insertDefaults then {RunTimer, RootIsTargetAgent} else {})
  {
    AddChildrenLinks(w, e, cs);
    AddChildrenFrame(w, e, cs);
  }

  /** `e` is a parentless entity whose children are exactly `cs`, each pointing back at it. */
  ghost predicate LinkedRoot(w: WorldState, e: Entity, cs: seq<Entity>)
  {
    && e in w.entities && w.entities[e].parent == None && w.entities[e].children == cs
    && forall i :: 0 <= i < |cs| ==> cs[i] in w.entities && w.entities[cs[i]].parent == Some(e)
  }

  /** `build`: the root, and only the root, carries `BeetRoot` and `Running`,
      and only when `insert_root_defaults` is set. */
  lemma BuildMarksRoot(b: BeetBuilder, w: WorldState)
    requires WellFormed(w)
    ensures var (t, r) := Build(b, w);
      && t.value == w.next && t.value in r.entities
      && ((BeetRoot in r.entities[t.value].markers) <==> b.insertRootDefaults)
      && ((Running in r.entities[t.value].markers) <==> b.insertRootDefaults)
      && forall x :: x in r.entities && x !in w.entities && x != t.value ==>
           BeetRoot !in r.entities[x].markers && Running !in r.entities[x].markers
  {
    BuildRecFacts(b, w, {});
    BuildRoot(b, w, {});
  }
}
