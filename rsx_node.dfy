/** The RSX tree: html nodes, rust blocks, fragments, elements and
    components, the predicates that classify them, and moving nodes into
    a named `<slot>`. */
module RsxNode {
  import opened Ecs

  /** A node; a block keeps only its initial node, a component its tag,
      tracker and rendered node (effects are not modelled). */
  datatype RsxNode =
    | Doctype
    | Comment(text: string)
    | Text(text: string)
    | Block(initial: RsxNode)
    | Fragment(nodes: seq<RsxNode>)
    | Element(element: RsxElement)
    | Component(tag: string, tracker: Option<nat>, node: RsxNode)

  datatype RsxElement = RsxElement(tag: string, attributes: seq<RsxAttribute>, children: seq<RsxNode>, selfClosing: bool)

  /** `Block` attributes are spread attributes, like a fragment of attributes. */
  datatype RsxAttribute =
    | Key(key: string)
    | KeyValue(key: string, value: string)
    | BlockValue(key: string, initialValue: string)
    | BlockAttribute(initialAttributes: seq<RsxAttribute>)

  /** `Default`: the empty fragment. */
  function Default(): (n: RsxNode)
    ensures n.Fragment? && n.nodes == []
  {
    Fragment([])
  }

  /** `is_html_node`. */
  predicate IsHtmlNode(n: RsxNode)
  {
    match n
    case Doctype => true
    case Comment(_) => true
    case Text(_) => true
    case Element(_) => true
    case _ => false
  }

  /** Only the rust-side nodes are not html: blocks, fragments and components. */
  lemma HtmlNodeKinds(n: RsxNode)
    ensures !IsHtmlNode(n) <==> n.Block? || n.Fragment? || n.Component?
    ensures !IsHtmlNode(Default())
  {
  }

  function AnyBlock(cs: seq<RsxNode>): (b: bool)
    ensures b <==> exists i :: 0 <= i < |cs| && cs[i].Block?
    decreases |cs|
  {
    if cs == [] then false else AnyBlock(cs[..|cs| - 1]) || cs[|cs| - 1].Block?
  }

  function AnyRustAttribute(attrs: seq<RsxAttribute>): (b: bool)
    ensures b <==> exists i :: 0 <= i < |attrs| && (attrs[i].BlockAttribute? || attrs[i].BlockValue?)
    decreases |attrs|
  {
    if attrs == [] then false
    else AnyRustAttribute(attrs[..|attrs| - 1]) || attrs[|attrs| - 1].BlockAttribute? || attrs[|attrs| - 1].BlockValue?
  }

  /** `contains_blocks`: a direct child is a block; grandchildren do not count. */
  predicate ContainsBlocks(el: RsxElement)
  {
    AnyBlock(el.children)
  }

  /** `contains_rust`: a block child, or an attribute that is a block or a block value. */
  predicate ContainsRust(el: RsxElement)
  {
    ContainsBlocks(el) || AnyRustAttribute(el.attributes)
  }

  /** A block nested inside a child element does not make its grandparent
      contain blocks, while a literal-only element contains no rust. */
  lemma ContainsShallow(inner: RsxElement, tag: string)
    requires ContainsBlocks(inner)
    ensures !ContainsBlocks(RsxElement(tag, [], [Element(inner)], false))
    ensures !ContainsRust(RsxElement(tag, [Key("a"), KeyValue("b", "c")], [Text("t")], false))
  {
    var attrs := [Key("a"), KeyValue("b", "c")];
    assert !(attrs[0].BlockAttribute? || attrs[0].BlockValue?);
    assert !(attrs[1].BlockAttribute? || attrs[1].BlockValue?);
  }

  // ---- Slots ----

  /** The name of a slot: the value of its first `name` key-value attribute,
      and "default" when it has none; block values never name a slot. */
  function SlotName(attrs: seq<RsxAttribute>): (r: string)
    ensures (forall i :: 0 <= i < |attrs| ==> !(attrs[i].KeyValue? && attrs[i].key == "name")) ==> r == "default"
    ensures forall i :: 0 <= i < |attrs| && attrs[i].KeyValue? && attrs[i].key == "name"
                       && (forall j :: 0 <= j < i ==> !(attrs[j].KeyValue? && attrs[j].key == "name"))
                       ==> r == attrs[i].value
  {
    if attrs == [] then "default"
    else if attrs[0].KeyValue? && attrs[0].key == "name" then attrs[0].value
    else SlotName(attrs[1..])
  }

  predicate IsSlotFor(el: RsxElement, name: string)
  {
    el.tag == "slot" && SlotName(el.attributes) == name
  }

  /** A slot for `name` can be reached: through fragments, element children
      and block initial nodes, but never inside a component. */
  predicate HasSlot(n: RsxNode, name: string)
    decreases n
  {
    match n
    case Fragment(cs) => exists i :: 0 <= i < |cs| && HasSlot(cs[i], name)
    case Element(el) =>
      IsSlotFor(el, name) || exists i :: 0 <= i < |el.children| && HasSlot(el.children[i], name)
    case Block(init) => HasSlot(init, name)
    case _ => false
  }

  /** `try_insert_slots`: the updated node, and the nodes handed back when no
      slot took them (`None` when they were placed). */
  function TryInsert(n: RsxNode, name: string, toInsert: seq<RsxNode>): (RsxNode, Option<seq<RsxNode>>)
    decreases n, 1
  {
    match n
    case Fragment(cs) =>
      var (cs', rest) := TryInsertAll(cs, name, toInsert);
      (Fragment(cs'), rest)
    case Element(el) =>
      if IsSlotFor(el, name) then (Element(el.(children := el.children + toInsert)), None)
      else
        var (cs', rest) := TryInsertAll(el.children, name, toInsert);
        (Element(el.(children := cs')), rest)
    case Block(init) =>
      var (init', rest) := TryInsert(init, name, toInsert);
      (Block(init'), rest)
    case _ => (n, Some(toInsert))
  }

  /** The loop over children: each child in order gets the nodes handed back
      by the previous one, and the first child that places them ends it. */
  function TryInsertAll(cs: seq<RsxNode>, name: string, toInsert: seq<RsxNode>): (seq<RsxNode>, Option<seq<RsxNode>>)
    decreases cs, 0
  {
    if cs == [] then ([], Some(toInsert))
    else
      var (c', r) := TryInsert(cs[0], name, toInsert);
      match r
      case None => ([c'] + cs[1..], None)
      case Some(returned) =>
        var (rest', r') := TryInsertAll(cs[1..], name, returned);
        ([c'] + rest', r')
  }

  function Size(n: RsxNode): nat
    decreases n, 1
  {
    match n
    case Fragment(cs) => 1 + SizeAll(cs)
    case Element(el) => 1 + SizeAll(el.children)
    case Block(init) => 1 + Size(init)
    case Component(_, _, node) => 1 + Size(node)
    case _ => 1
  }

  function SizeAll(cs: seq<RsxNode>): nat
    decreases cs, 0
  {
    if cs == [] then 0 else Size(cs[0]) + SizeAll(cs[1..])
  }

  lemma {:induction false} SizeAllAppend(a: seq<RsxNode>, b: seq<RsxNode>)
    ensures SizeAll(a + b) == SizeAll(a) + SizeAll(b)
    decreases |a|
  {
    if a == [] {
      assert a + b == b;
    } else {
      assert (a + b)[1..] == a[1..] + b;
      SizeAllAppend(a[1..], b);
    }
  }

  /** The nodes come back exactly when no slot for the name is reachable; then
      they come back unchanged and the tree is untouched. When they are placed,
      the tree grows by exactly the inserted nodes. */
  lemma {:induction false} TryInsertFacts(n: RsxNode, name: string, toInsert: seq<RsxNode>)
    ensures var (n', r) := TryInsert(n, name, toInsert);
      && (r.None? <==> HasSlot(n, name))
      && (r.Some? ==> n' == n && r.value == toInsert)
      && (r.None? ==> Size(n') == Size(n) + SizeAll(toInsert))
    decreases n, 1
  {
    match n
    case Fragment(cs) =>
      TryInsertAllFacts(cs, name, toInsert);
    case Element(el) =>
      if IsSlotFor(el, name) {
        SizeAllAppend(el.children, toInsert);
      } else {
        TryInsertAllFacts(el.children, name, toInsert);
      }
    case Block(init) =>
      TryInsertFacts(init, name, toInsert);
    case _ =>
  }

  lemma {:induction false} TryInsertAllFacts(cs: seq<RsxNode>, name: string, toInsert: seq<RsxNode>)
    ensures var (cs', r) := TryInsertAll(cs, name, toInsert);
      && |cs'| == |cs|
      && (r.None? <==> exists i :: 0 <= i < |cs| && HasSlot(cs[i], name))
      && (r.Some? ==> cs' == cs && r.value == toInsert)
      && (r.None? ==> SizeAll(cs') == SizeAll(cs) + SizeAll(toInsert))
    decreases cs, 0
  {
    if cs != [] {
      TryInsertFacts(cs[0], name, toInsert);
      var (c', r) := TryInsert(cs[0], name, toInsert);
      if r.None? {
        assert ([c'] + cs[1..])[1..] == cs[1..];
      } else {
        TryInsertAllFacts(cs[1..], name, toInsert);
        var (rest', r') := TryInsertAll(cs[1..], name, toInsert);
        assert ([c'] + rest')[1..] == rest';
        assert forall i :: 1 <= i < |cs| ==> cs[i] == cs[1..][i - 1];
        if r'.None? {
          var k :| 0 <= k < |cs[1..]| && HasSlot(cs[1..][k], name);
          assert HasSlot(cs[k + 1], name);
        }
        if r'.Some? {
          assert cs == [cs[0]] + cs[1..];
        }
      }
    }
  }

  /** The first child in order with a reachable slot. */
  function FirstSlot(cs: seq<RsxNode>, name: string): (k: nat)
    requires exists i :: 0 <= i < |cs| && HasSlot(cs[i], name)
    ensures k < |cs| && HasSlot(cs[k], name)
    ensures forall j :: 0 <= j < k ==> !HasSlot(cs[j], name)
  {
    if HasSlot(cs[0], name) then 0
    else
      assert exists i :: 0 <= i < |cs[1..]| && HasSlot(cs[1..][i], name) by {
        var i :| 0 <= i < |cs| && HasSlot(cs[i], name);
        assert i != 0 && cs[1..][i - 1] == cs[i];
      }
      1 + FirstSlot(cs[1..], name)
  }

  /** The search stops at the first match: only the first child with a
      reachable slot changes, earlier and later siblings stay as they were. */
  lemma {:induction false} FirstMatchOnly(cs: seq<RsxNode>, name: string, toInsert: seq<RsxNode>)
    requires exists i :: 0 <= i < |cs| && HasSlot(cs[i], name)
    ensures var k := FirstSlot(cs, name);
      TryInsertAll(cs, name, toInsert) == (cs[..k] + [TryInsert(cs[k], name, toInsert).0] + cs[k + 1..], None)
    decreases |cs|
  {
    TryInsertFacts(cs[0], name, toInsert);
    if !HasSlot(cs[0], name) {
      assert exists i :: 0 <= i < |cs[1..]| && HasSlot(cs[1..][i], name) by {
        var i :| 0 <= i < |cs| && HasSlot(cs[i], name);
        assert i != 0 && cs[1..][i - 1] == cs[i];
      }
      FirstMatchOnly(cs[1..], name, toInsert);
      var k := FirstSlot(cs[1..], name);
      assert FirstSlot(cs, name) == k + 1;
      assert cs[1..][k] == cs[k + 1];
      var tail := TryInsertAll(cs[1..], name, toInsert);
      assert TryInsertAll(cs, name, toInsert) == ([cs[0]] + tail.0, tail.1);
      assert cs[1..][..k] == cs[1..k + 1] && cs[1..][k + 1..] == cs[k + 2..];
      assert [cs[0]] + cs[1..k + 1] == cs[..k + 1];
      var x := TryInsert(cs[k + 1], name, toInsert).0;
      assert tail.0 == cs[1..k + 1] + [x] + cs[k + 2..];
      assert [cs[0]] + (cs[1..k + 1] + [x] + cs[k + 2..]) == cs[..k + 1] + [x] + cs[k + 2..];
    } else {
      var c' := TryInsert(cs[0], name, toInsert).0;
      assert cs[..0] + [c'] + cs[0 + 1..] == [c'] + cs[1..];
    }
  }

  // ---- Where the nodes go ----

  /** The nodes the search passes on to: the children of a fragment or an
      element and the initial node of a block. A component, whose slot
      would be stolen from its siblings, and the leaves have none. */
  function Children(n: RsxNode): seq<RsxNode>
  {
    match n
    case Fragment(cs) => cs
    case Element(el) => el.children
    case Block(init) => [init]
    case _ => []
  }

  /** `n` with its child at `k` replaced by `c`. */
  function WithChild(n: RsxNode, k: nat, c: RsxNode): (r: RsxNode)
    requires k < |Children(n)|
    ensures Children(r) == Children(n)[k := c]
  {
    if n.Fragment? then Fragment(n.nodes[k := c])
    else if n.Element? then Element(n.element.(children := n.element.children[k := c]))
    else Block(c)
  }

  /** A path of child indices that leads from `n` to an existing node. */
  predicate ValidPath(n: RsxNode, p: seq<nat>)
    decreases |p|
  {
    p == [] || (p[0] < |Children(n)| && ValidPath(Children(n)[p[0]], p[1..]))
  }

  function NodeAt(n: RsxNode, p: seq<nat>): RsxNode
    requires ValidPath(n, p)
    decreases |p|
  {
    if p == [] then n else NodeAt(Children(n)[p[0]], p[1..])
  }

  /** `n` with `ns` appended after the children of the element at the end of
      `p`; every node off the path stays as it is. */
  function AppendAt(n: RsxNode, p: seq<nat>, ns: seq<RsxNode>): RsxNode
    decreases |p|
  {
    if p == [] then
      (if n.Element? then Element(n.element.(children := n.element.children + ns)) else n)
    else if p[0] < |Children(n)| then WithChild(n, p[0], AppendAt(Children(n)[p[0]], p[1..], ns))
    else n
  }

  /** The path the search takes to the slot that receives the nodes: at each
      level the first child in order with a reachable slot, ending at an
      element that is itself the slot; a block passes to its initial node. */
  function FirstSlotPath(n: RsxNode, name: string): (p: seq<nat>)
    requires HasSlot(n, name)
    ensures p == [] <==> n.Element? && IsSlotFor(n.element, name)
    decreases n
  {
    match n
    case Fragment(cs) =>
      var k := FirstSlot(cs, name);
      [k] + FirstSlotPath(cs[k], name)
    case Element(el) =>
      if IsSlotFor(el, name) then []
      else
        var k := FirstSlot(el.children, name);
        [k] + FirstSlotPath(el.children[k], name)
    case Block(init) => [0] + FirstSlotPath(init, name)
  }

  /** The search path leads to an element that is a slot for the name. */
  lemma {:induction false} FirstSlotPathLeadsToSlot(n: RsxNode, name: string)
    requires HasSlot(n, name)
    ensures ValidPath(n, FirstSlotPath(n, name))
    ensures var m := NodeAt(n, FirstSlotPath(n, name)); m.Element? && IsSlotFor(m.element, name)
    decreases n
  {
    match n
    case Fragment(cs) =>
      var k := FirstSlot(cs, name);
      FirstSlotPathLeadsToSlot(cs[k], name);
      assert ([k] + FirstSlotPath(cs[k], name))[1..] == FirstSlotPath(cs[k], name);
    case Element(el) =>
      if !IsSlotFor(el, name) {
        var k := FirstSlot(el.children, name);
        FirstSlotPathLeadsToSlot(el.children[k], name);
        assert ([k] + FirstSlotPath(el.children[k], name))[1..] == FirstSlotPath(el.children[k], name);
      }
    case Block(init) =>
      FirstSlotPathLeadsToSlot(init, name);
      assert ([0] + FirstSlotPath(init, name))[1..] == FirstSlotPath(init, name);
  }

  /** Where the nodes go: with a slot for the name reachable, they are
      appended after the own children of the slot at the end of the search
      path, and nothing off that path changes. */
  lemma {:induction false} TryInsertPlaces(n: RsxNode, name: string, ns: seq<RsxNode>)
    requires HasSlot(n, name)
    ensures TryInsert(n, name, ns) == (AppendAt(n, FirstSlotPath(n, name), ns), None)
    decreases n
  {
    match n
    case Fragment(cs) =>
      var k := FirstSlot(cs, name);
      TryInsertPlaces(cs[k], name, ns);
      ListPlaces(cs, name, ns);
      AppendAtCons(n, k, FirstSlotPath(cs[k], name), ns);
    case Element(el) =>
      if !IsSlotFor(el, name) {
        var k := FirstSlot(el.children, name);
        TryInsertPlaces(el.children[k], name, ns);
        ListPlaces(el.children, name, ns);
        AppendAtCons(n, k, FirstSlotPath(el.children[k], name), ns);
      }
    case Block(init) =>
      TryInsertPlaces(init, name, ns);
      AppendAtCons(n, 0, FirstSlotPath(init, name), ns);
  }

  /** In a child list only the first child with a reachable slot changes,
      into whatever that child becomes. */
  lemma ListPlaces(cs: seq<RsxNode>, name: string, ns: seq<RsxNode>)
    requires exists i :: 0 <= i < |cs| && HasSlot(cs[i], name)
    requires var k := FirstSlot(cs, name);
      TryInsert(cs[k], name, ns) == (AppendAt(cs[k], FirstSlotPath(cs[k], name), ns), None)
    ensures var k := FirstSlot(cs, name);
      TryInsertAll(cs, name, ns) == (cs[k := AppendAt(cs[k], FirstSlotPath(cs[k], name), ns)], None)
  {
    var k := FirstSlot(cs, name);
    var c := AppendAt(cs[k], FirstSlotPath(cs[k], name), ns);
    FirstMatchOnly(cs, name, ns);
    assert cs[..k] + [c] + cs[k + 1..] == cs[k := c];
  }

  /** A path that starts at child `k` updates only that child. */
  lemma AppendAtCons(n: RsxNode, k: nat, q: seq<nat>, ns: seq<RsxNode>)
    requires k < |Children(n)|
    ensures AppendAt(n, [k] + q, ns) == WithChild(n, k, AppendAt(Children(n)[k], q, ns))
  {
    assert ([k] + q)[1..] == q;
  }

  /** What the path update does: the element at the end of the path gains
      the nodes after its own children, and the path stays valid. */
  lemma {:induction false} AppendAtEnd(n: RsxNode, p: seq<nat>, ns: seq<RsxNode>)
    requires ValidPath(n, p)
    ensures ValidPath(AppendAt(n, p, ns), p)
    ensures var m := NodeAt(n, p);
      m.Element? ==> NodeAt(AppendAt(n, p, ns), p) == Element(m.element.(children := m.element.children + ns))
    decreases |p|
  {
    if p != [] {
      AppendAtEnd(Children(n)[p[0]], p[1..], ns);
    }
  }

  /** One step of the path update: only the child on the path changes, and
      the node keeps its kind, and an element its tag, attributes and
      closing form. */
  lemma AppendAtStep(n: RsxNode, p: seq<nat>, ns: seq<RsxNode>)
    requires ValidPath(n, p) && p != []
    ensures var r := AppendAt(n, p, ns);
      && |Children(r)| == |Children(n)|
      && Children(r)[p[0]] == AppendAt(Children(n)[p[0]], p[1..], ns)
      && (forall j :: 0 <= j < |Children(n)| && j != p[0] ==> Children(r)[j] == Children(n)[j])
      && (n.Fragment? <==> r.Fragment?) && (n.Block? <==> r.Block?) && (n.Element? <==> r.Element?)
      && (n.Element? ==> r.element.tag == n.element.tag && r.element.attributes == n.element.attributes
                         && r.element.selfClosing == n.element.selfClosing)
  {
  }

  /** A named slot nested in an element receives the nodes after its own
      children; the sibling before it is untouched. */
  lemma NamedSlotReceives(kids: seq<RsxNode>, ns: seq<RsxNode>)
    ensures var slot := RsxElement("slot", [Key("hidden"), KeyValue("name", "header")], kids, false);
      var tree := Element(RsxElement("div", [], [Text("before"), Element(slot)], false));
      TryInsert(tree, "header", ns)
        == (Element(RsxElement("div", [], [Text("before"), Element(slot.(children := kids + ns))], false)), None)
  {
    var slot := RsxElement("slot", [Key("hidden"), KeyValue("name", "header")], kids, false);
    var tree := Element(RsxElement("div", [], [Text("before"), Element(slot)], false));
    assert SlotName(slot.attributes) == "header" by {
      assert slot.attributes[1..] == [KeyValue("name", "header")];
    }
    assert HasSlot(Element(slot), "header");
    assert tree.element.children[1] == Element(slot);
    assert HasSlot(tree, "header");
    TryInsertPlaces(tree, "header", ns);
    var cs := [Text("before"), Element(slot)];
    assert !HasSlot(cs[0], "header");
    assert FirstSlot(cs, "header") == 1 by {
      assert cs[1..][0] == Element(slot);
    }
    assert FirstSlotPath(tree, "header") == [1];
    var placed := Element(slot.(children := kids + ns));
    assert AppendAt(Element(slot), [], ns) == placed;
    AppendAtCons(tree, 1, [], ns);
    assert [1] + [] == [1];
    assert cs[1 := placed] == [Text("before"), placed];
  }

  /** `with_slots`: the node with the nodes placed, or `None` where the
      source panics because no slot took them. */
  function WithSlots(n: RsxNode, name: string, nodes: seq<RsxNode>): Option<RsxNode>
  {
    match TryInsert(n, name, nodes)
    case (n', None) => Some(n')
    case (_, Some(_)) => None
  }

  /** `with_slots` succeeds exactly when a slot for the name is reachable,
      and then the tree gains exactly the inserted nodes. */
  lemma WithSlotsSpec(n: RsxNode, name: string, nodes: seq<RsxNode>)
    ensures WithSlots(n, name, nodes).Some? <==> HasSlot(n, name)
    ensures WithSlots(n, name, nodes).Some? ==> Size(WithSlots(n, name, nodes).value) == Size(n) + SizeAll(nodes)
    ensures HasSlot(n, name) ==> WithSlots(n, name, nodes) == Some(AppendAt(n, FirstSlotPath(n, name), nodes))
  {
    TryInsertFacts(n, name, nodes);
    if HasSlot(n, name) {
      TryInsertPlaces(n, name, nodes);
    }
  }

  /** An unnamed slot receives nodes sent to "default". */
  lemma UnnamedSlotIsDefault(children: seq<RsxNode>, nodes: seq<RsxNode>)
    ensures TryInsert(Element(RsxElement("slot", [], children, false)), "default", nodes)
         == (Element(RsxElement("slot", [], children + nodes, false)), None)
  {
  }

  /** The search of a slot's attributes for its `name`, "default" when absent. */
  method FindSlotName(attributes: seq<RsxAttribute>) returns (slotName: string)
    ensures slotName == SlotName(attributes)
  {
    slotName := "default";
    var i := 0;
    while i < |attributes|
      invariant 0 <= i <= |attributes|
      invariant SlotName(attributes) == SlotName(attributes[i..])
    {
      var a := attributes[i];
      if a.KeyValue? && a.key == "name" {
        slotName := a.value;
        return;
      }
      assert attributes[i..][1..] == attributes[i + 1..];
      i := i + 1;
    }
    assert attributes[i..] == [];
  }

  /** `try_insert_slots` with its loops; the tree is rebuilt rather than
      mutated, child by child. */
  method TryInsertSlots(n: RsxNode, name: string, toInsert: seq<RsxNode>) returns (n': RsxNode, rest: Option<seq<RsxNode>>)
    ensures (n', rest) == TryInsert(n, name, toInsert)
    decreases n, 1
  {
    match n {
      case Fragment(cs) =>
        var cs';
        cs', rest := TryInsertChildren(cs, name, toInsert);
        n' := Fragment(cs');
      case Element(el) =>
        if el.tag == "slot" {
          var slotName := FindSlotName(el.attributes);
          if slotName == name {
            return Element(el.(children := el.children + toInsert)), None;
          }
        }
        var cs';
        cs', rest := TryInsertChildren(el.children, name, toInsert);
        n' := Element(el.(children := cs'));
      case Block(init) =>
        var init';
        init', rest := TryInsertSlots(init, name, toInsert);
        n' := Block(init');
      case _ =>
        n', rest := n, Some(toInsert);
    }
  }

  function Prepend(prefix: seq<RsxNode>, r: (seq<RsxNode>, Option<seq<RsxNode>>)): (seq<RsxNode>, Option<seq<RsxNode>>)
  {
    (prefix + r.0, r.1)
  }

  /** One step of the child loop: the child at `i` either takes the nodes,
      ending the search, or hands them back unchanged to the next child. */
  lemma TryInsertAllAt(cs: seq<RsxNode>, i: nat, name: string, pending: seq<RsxNode>)
    requires i < |cs|
    ensures var (c', r) := TryInsert(cs[i], name, pending);
      TryInsertAll(cs[i..], name, pending)
        == if r.None? then ([c'] + cs[i + 1..], None)
           else Prepend([cs[i]], TryInsertAll(cs[i + 1..], name, r.value))
  {
    assert cs[i..][0] == cs[i] && cs[i..][1..] == cs[i + 1..];
    TryInsertFacts(cs[i], name, pending);
  }

  /** The `for child in children.iter_mut()` loop, reassigning `to_insert`. */
  method TryInsertChildren(cs: seq<RsxNode>, name: string, toInsert: seq<RsxNode>) returns (cs': seq<RsxNode>, rest: Option<seq<RsxNode>>)
    ensures (cs', rest) == TryInsertAll(cs, name, toInsert)
    decreases cs, 0
  {
    var pending := toInsert;
    var i := 0;
    assert cs[..0] == [] && cs[0..] == cs;
    assert [] + TryInsertAll(cs, name, toInsert).0 == TryInsertAll(cs, name, toInsert).0;
    while i < |cs|
      invariant 0 <= i <= |cs|
      invariant TryInsertAll(cs, name, toInsert) == Prepend(cs[..i], TryInsertAll(cs[i..], name, pending))
    {
      var c', r := TryInsertSlots(cs[i], name, pending);
      TryInsertAllAt(cs, i, name, pending);
      if r.None? {
        assert cs[..i] + ([c'] + cs[i + 1..]) == cs[..i] + [c'] + cs[i + 1..];
        return cs[..i] + [c'] + cs[i + 1..], None;
      }
      ghost var tail := TryInsertAll(cs[i + 1..], name, r.value);
      assert cs[..i] + ([cs[i]] + tail.0) == cs[..i + 1] + tail.0;
      pending := r.value;
      i := i + 1;
    }
    assert cs[..i] == cs && cs[i..] == [] && cs + [] == cs;
    cs', rest := cs, Some(pending);
  }
}
