/** `RstmlToRsxTemplate`: the mapping from a parsed markup tree to a
    template tree, in which every rust block, every block attribute, every
    non-literal attribute value and every component takes the next index of
    a running tracker counter. */
module RstmlToRsxTemplate {
  import opened Ecs

  /** A literal attribute value as the parser delivers it. Integer and float
      literals carry their base-ten digits, string literals their unescaped
      value, byte strings their lossily decoded text. */
  datatype Lit =
    | LitInt(digits: string)
    | LitFloat(floatDigits: string)
    | LitBool(b: bool)
    | LitStr(value: string)
    | LitByteStr(lossy: string)
    | LitByte(byte: nat)
    | LitChar(c: char)
    | LitVerbatim(text: string)
    | LitCStr

  datatype AttrValue = NoValue | LitValue(lit: Lit) | ExprValue

  /** An attribute of an open tag: a spread `{block}` or a keyed attribute. */
  datatype NodeAttribute = AttributeBlock | Attribute(key: string, value: AttrValue)

  /** A parsed markup node; `hasCloseTag` is false for `<tag/>`. */
  datatype Node =
    | NodeDoctype
    | NodeComment(comment: string)
    | NodeFragment(children: seq<Node>)
    | NodeBlock
    | NodeText(text: string)
    | NodeRawText(raw: string)
    | NodeElement(tag: string, attributes: seq<NodeAttribute>, elementChildren: seq<Node>, hasCloseTag: bool)
    | NodeCustom

  datatype TemplateAttribute =
    | Block(blockTracker: nat)
    | Key(key: string)
    | KeyValue(key: string, value: string)
    | BlockValue(key: string, tracker: nat)

  datatype TemplateNode =
    | Doctype
    | Comment(comment: string)
    | Fragment(nodes: seq<TemplateNode>)
    | RustBlock(blockTracker: nat)
    | Text(text: string)
    | Component(tracker: nat, tag: string, slotChildren: TemplateNode)
    | Element(tag: string, selfClosing: bool, attributes: seq<TemplateAttribute>, children: seq<TemplateNode>)

  /** A mapped value and the tracker counter after it, or the panic of an
      `unimplemented!()` (custom nodes, C-string literals). */
  datatype Mapped<T> = Mapped(value: T, next: nat) | Unimplemented

  /** `lit_to_string`; `None` for the C-string literal, which panics. */
  function LitToString(lit: Lit): (r: Option<string>)
    ensures lit.LitBool? ==> r == Some(if lit.b then "true" else "false")
    ensures lit.LitStr? ==> r == Some(lit.value)
    ensures r.None? <==> lit.LitCStr?
  {
    match lit
    case LitInt(d) => Some(d)
    case LitFloat(d) => Some(d)
    case LitBool(b) => Some(if b then "true" else "false")
    case LitStr(v) => Some(v)
    case LitByteStr(t) => Some(t)
    case LitByte(v) => Some(NatToDecimal(v))
    case LitChar(c) => Some([c])
    case LitVerbatim(t) => Some(t)
    case LitCStr => None
  }

  /** A tag names a component when its first character is an uppercase
      letter; the empty tag is not a component. */
  predicate IsComponentTag(tag: string)
  {
    |tag| > 0 && 'A' <= tag[0] <= 'Z'
  }

  /** `map_attribute`: a block takes a tracker; no value gives a key; a
      literal gives a key-value pair; any other expression takes a tracker. */
  function MapAttribute(a: NodeAttribute, k: nat): Mapped<TemplateAttribute>
  {
    match a
    case AttributeBlock => Mapped(Block(k), k + 1)
    case Attribute(key, NoValue) => Mapped(Key(key), k)
    case Attribute(key, LitValue(lit)) =>
      (match LitToString(lit)
       case Some(v) => Mapped(KeyValue(key, v), k)
       case None => Unimplemented)
    case Attribute(key, ExprValue) => Mapped(BlockValue(key, k), k + 1)
  }

  function MapAttributes(attrs: seq<NodeAttribute>, k: nat): Mapped<seq<TemplateAttribute>>
    decreases |attrs|
  {
    if attrs == [] then Mapped([], k)
    else match MapAttribute(attrs[0], k)
      case Unimplemented => Unimplemented
      case Mapped(a, k1) =>
        match MapAttributes(attrs[1..], k1)
        case Unimplemented => Unimplemented
        case Mapped(rest, k2) => Mapped([a] + rest, k2)
  }

  /** `map_node`, threading the tracker counter `k`. A component takes its
      tracker before its children and ignores its attributes; an element maps
      its children before its attributes. */
  function MapNode(n: Node, k: nat): Mapped<TemplateNode>
    decreases n, 1
  {
    match n
    case NodeDoctype => Mapped(Doctype, k)
    case NodeComment(v) => Mapped(Comment(v), k)
    case NodeFragment(cs) =>
      (match MapNodes(cs, k)
       case Unimplemented => Unimplemented
       case Mapped(ts, k1) => Mapped(Fragment(ts), k1))
    case NodeBlock => Mapped(RustBlock(k), k + 1)
    case NodeText(v) => Mapped(Text(v), k)
    case NodeRawText(v) => Mapped(Text(v), k)
    case NodeElement(tag, attrs, cs, hasCloseTag) =>
      if IsComponentTag(tag) then
        (match MapNodes(cs, k + 1)
         case Unimplemented => Unimplemented
         case Mapped(ts, k1) => Mapped(Component(k, tag, if |ts| == 1 then ts[0] else Fragment(ts)), k1))
      else
        (match MapNodes(cs, k)
         case Unimplemented => Unimplemented
         case Mapped(ts, k1) =>
           match MapAttributes(attrs, k1)
           case Unimplemented => Unimplemented
           case Mapped(as_, k2) => Mapped(Element(tag, !hasCloseTag, as_, ts), k2))
    case NodeCustom => Unimplemented
  }

  /** `map_nodes`: in order, each node starting at the counter the previous one left. */
  function MapNodes(ns: seq<Node>, k: nat): Mapped<seq<TemplateNode>>
    decreases ns, 0
  {
    if ns == [] then Mapped([], k)
    else match MapNode(ns[0], k)
      case Unimplemented => Unimplemented
      case Mapped(t, k1) =>
        match MapNodes(ns[1..], k1)
        case Unimplemented => Unimplemented
        case Mapped(ts, k2) => Mapped([t] + ts, k2)
  }

  /** The template root with its source location. */
  datatype TemplateRoot = TemplateRoot(node: TemplateNode, file: string, line: nat, col: nat)

  /** `map_tokens`: one top-level node is the root node itself, zero or
      several are wrapped in a fragment. */
  function MapTokens(nodes: seq<Node>, file: string, line: nat, col: nat, k: nat): (r: Mapped<TemplateRoot>)
    ensures r.Mapped? <==> MapNodes(nodes, k).Mapped?
    ensures r.Mapped? ==> r.value.file == file && r.value.line == line && r.value.col == col
    ensures r.Mapped? && |nodes| == 1 ==> r.value.node == MapNodes(nodes, k).value[0]
    ensures r.Mapped? && |nodes| != 1 ==> r.value.node == Fragment(MapNodes(nodes, k).value)
  {
    match MapNodes(nodes, k)
    case Unimplemented => Unimplemented
    case Mapped(ts, k1) =>
      MapNodesLength(nodes, k);
      Mapped(TemplateRoot(if |ts| == 1 then ts[0] else Fragment(ts), file, line, col), k1)
  }

  lemma {:induction false} MapNodesLength(ns: seq<Node>, k: nat)
    ensures MapNodes(ns, k).Mapped? ==> |MapNodes(ns, k).value| == |ns|
    decreases |ns|
  {
    if ns != [] && MapNode(ns[0], k).Mapped? {
      MapNodesLength(ns[1..], MapNode(ns[0], k).next);
    }
  }

  // ---- What the mapping guarantees ----

  /** The trackers of a template in the order they were taken. */
  function Trackers(t: TemplateNode): seq<nat>
    decreases t, 1
  {
    match t
    case RustBlock(k) => [k]
    case Component(k, _, slot) => [k] + Trackers(slot)
    case Element(_, _, attrs, cs) => TrackersAll(cs) + AttrTrackers(attrs)
    case Fragment(cs) => TrackersAll(cs)
    case _ => []
  }

  function TrackersAll(ts: seq<TemplateNode>): seq<nat>
    decreases ts, 0
  {
    if ts == [] then [] else Trackers(ts[0]) + TrackersAll(ts[1..])
  }

  function AttrTracker(a: TemplateAttribute): seq<nat>
  {
    match a
    case Block(k) => [k]
    case BlockValue(_, k) => [k]
    case _ => []
  }

  function AttrTrackers(attrs: seq<TemplateAttribute>): seq<nat>
    decreases |attrs|
  {
    if attrs == [] then [] else AttrTracker(attrs[0]) + AttrTrackers(attrs[1..])
  }

  /** The tracker-consuming constructs of a markup tree: blocks, spread and
      expression attributes of elements, and components (whose own
      attributes are never visited). */
  function Consumed(n: Node): nat
    decreases n, 1
  {
    match n
    case NodeFragment(cs) => ConsumedAll(cs)
    case NodeBlock => 1
    case NodeElement(tag, attrs, cs, _) =>
      if IsComponentTag(tag) then 1 + ConsumedAll(cs) else ConsumedAll(cs) + AttrsConsumed(attrs)
    case _ => 0
  }

  function ConsumedAll(ns: seq<Node>): nat
    decreases ns, 0
  {
    if ns == [] then 0 else Consumed(ns[0]) + ConsumedAll(ns[1..])
  }

  function AttrsConsumed(attrs: seq<NodeAttribute>): nat
    decreases |attrs|
  {
    if attrs == [] then 0 else AttrConsumed(attrs[0]) + AttrsConsumed(attrs[1..])
  }

  function AttrConsumed(a: NodeAttribute): nat
  {
    if a.AttributeBlock? || (a.Attribute? && a.value.ExprValue?) then 1 else 0
  }

  predicate IsCStrAttribute(a: NodeAttribute)
  {
    a.Attribute? && a.value == LitValue(LitCStr)
  }

  /** The panicking constructs reachable by the mapping: custom nodes, and
      C-string literals on elements (a component's attributes are ignored). */
  predicate Unsupported(n: Node)
    decreases n
  {
    match n
    case NodeCustom => true
    case NodeFragment(cs) => exists i :: 0 <= i < |cs| && Unsupported(cs[i])
    case NodeElement(tag, attrs, cs, _) =>
      (exists i :: 0 <= i < |cs| && Unsupported(cs[i]))
      || (!IsComponentTag(tag) && exists i :: 0 <= i < |attrs| && IsCStrAttribute(attrs[i]))
    case _ => false
  }

  /** One attribute panics exactly on a C-string literal, and otherwise
      takes the tracker `k` exactly when it is a block or an expression. */
  lemma MapAttributeFacts(a: NodeAttribute, k: nat)
    ensures var r := MapAttribute(a, k);
      && (r.Unimplemented? <==> IsCStrAttribute(a))
      && (r.Mapped? ==> r.next == k + AttrConsumed(a) && AttrTracker(r.value) == Consecutive(k, AttrConsumed(a)))
  {
    match a
    case AttributeBlock =>
    case Attribute(key, value) =>
      if value.LitValue? {
        assert LitToString(value.lit).None? <==> value.lit.LitCStr?;
      }
  }

  lemma {:induction false} MapAttributesFacts(attrs: seq<NodeAttribute>, k: nat)
    ensures var r := MapAttributes(attrs, k);
      && (r.Unimplemented? <==> exists i :: 0 <= i < |attrs| && IsCStrAttribute(attrs[i]))
      && (r.Mapped? ==> r.next == k + AttrsConsumed(attrs) && AttrTrackers(r.value) == Consecutive(k, AttrsConsumed(attrs)))
    decreases |attrs|
  {
    if attrs != [] {
      MapAttributeFacts(attrs[0], k);
      var a := MapAttribute(attrs[0], k);
      if a.Mapped? {
        MapAttributesFacts(attrs[1..], a.next);
        if MapAttributes(attrs, k).Mapped? {
          MapAttributesStep(attrs, k);
          ConsecutiveAppend(k, AttrConsumed(attrs[0]), AttrsConsumed(attrs[1..]));
        }
        assert forall i :: 1 <= i < |attrs| ==> attrs[i] == attrs[1..][i - 1];
        if MapAttributes(attrs[1..], a.next).Unimplemented? {
          var j :| 0 <= j < |attrs[1..]| && IsCStrAttribute(attrs[1..][j]);
          assert attrs[j + 1] == attrs[1..][j];
        }
      }
    }
  }

  /** The trackers of a successful attribute list split into the first
      attribute's and the rest's. */
  lemma MapAttributesStep(attrs: seq<NodeAttribute>, k: nat)
    requires attrs != [] && MapAttribute(attrs[0], k).Mapped?
    requires MapAttributes(attrs, k).Mapped?
    ensures var a := MapAttribute(attrs[0], k);
      var rest := MapAttributes(attrs[1..], a.next);
      && rest.Mapped?
      && MapAttributes(attrs, k).next == rest.next
      && AttrTrackers(MapAttributes(attrs, k).value) == AttrTracker(a.value) + AttrTrackers(rest.value)
  {
    var a := MapAttribute(attrs[0], k);
    var rest := MapAttributes(attrs[1..], a.next);
    assert MapAttributes(attrs, k).value == [a.value] + rest.value;
    assert ([a.value] + rest.value)[1..] == rest.value;
  }

  /** The mapping panics exactly on an unsupported construct. Otherwise the
      trackers of the template, in the order they were taken, are the
      consecutive counter values from `k`, one per consuming construct: no
      index is skipped or used twice. */
  lemma {:induction false} MapNodeFacts(n: Node, k: nat)
    ensures var r := MapNode(n, k);
      && (r.Unimplemented? <==> Unsupported(n))
      && (r.Mapped? ==> r.next == k + Consumed(n) && Trackers(r.value) == Consecutive(k, Consumed(n)))
    decreases n, 1
  {
    match n
    case NodeFragment(cs) =>
      MapNodesFacts(cs, k);
    case NodeElement(tag, _, _, _) =>
      if IsComponentTag(tag) {
        ComponentFacts(n, k);
      } else {
        PlainElementFacts(n, k);
      }
    case _ =>
  }

  lemma {:induction false} ComponentFacts(n: Node, k: nat)
    requires n.NodeElement? && IsComponentTag(n.tag)
    ensures var r := MapNode(n, k);
      && (r.Unimplemented? <==> Unsupported(n))
      && (r.Mapped? ==> r.next == k + Consumed(n) && Trackers(r.value) == Consecutive(k, Consumed(n)))
    decreases n, 0
  {
    var cs := n.elementChildren;
    MapNodesFacts(cs, k + 1);
    MapNodesLength(cs, k + 1);
    var r := MapNodes(cs, k + 1);
    if r.Mapped? {
      assert [k] + Consecutive(k + 1, ConsumedAll(cs)) == Consecutive(k, 1 + ConsumedAll(cs));
      if |r.value| == 1 {
        assert TrackersAll(r.value) == Trackers(r.value[0]) + TrackersAll(r.value[1..]);
        assert r.value[1..] == [];
      }
    }
  }

  lemma {:induction false} PlainElementFacts(n: Node, k: nat)
    requires n.NodeElement? && !IsComponentTag(n.tag)
    ensures var r := MapNode(n, k);
      && (r.Unimplemented? <==> Unsupported(n))
      && (r.Mapped? ==> r.next == k + Consumed(n) && Trackers(r.value) == Consecutive(k, Consumed(n)))
    decreases n, 0
  {
    var cs := n.elementChildren;
    MapNodesFacts(cs, k);
    var r := MapNodes(cs, k);
    if r.Mapped? {
      MapAttributesFacts(n.attributes, r.next);
      ConsecutiveAppend(k, ConsumedAll(cs), AttrsConsumed(n.attributes));
    }
  }

  lemma {:induction false} MapNodesFacts(ns: seq<Node>, k: nat)
    ensures var r := MapNodes(ns, k);
      && (r.Unimplemented? <==> exists i :: 0 <= i < |ns| && Unsupported(ns[i]))
      && (r.Mapped? ==> r.next == k + ConsumedAll(ns) && TrackersAll(r.value) == Consecutive(k, ConsumedAll(ns)))
    decreases ns, 0
  {
    if ns != [] {
      MapNodeFacts(ns[0], k);
      var a := MapNode(ns[0], k);
      if a.Mapped? {
        MapNodesFacts(ns[1..], a.next);
        var r := MapNodes(ns, k);
        if r.Mapped? {
          var rest := MapNodes(ns[1..], a.next);
          assert r.value == [a.value] + rest.value;
          assert ([a.value] + rest.value)[1..] == rest.value;
          ConsecutiveAppend(k, Consumed(ns[0]), ConsumedAll(ns[1..]));
        }
        assert forall i :: 1 <= i < |ns| ==> ns[i] == ns[1..][i - 1];
        if MapNodes(ns[1..], a.next).Unimplemented? {
          var j :| 0 <= j < |ns[1..]| && Unsupported(ns[1..][j]);
          assert Unsupported(ns[j + 1]);
        }
      }
    }
  }

  /** How an element maps: a component exactly when its tag starts with an
      uppercase letter, taking the current tracker, with a single child
      unwrapped as its slot children; otherwise an element that is
      self-closing exactly when it has no close tag. */
  lemma ElementShape(tag: string, attrs: seq<NodeAttribute>, cs: seq<Node>, hasCloseTag: bool, k: nat)
    requires MapNode(NodeElement(tag, attrs, cs, hasCloseTag), k).Mapped?
    ensures var t := MapNode(NodeElement(tag, attrs, cs, hasCloseTag), k).value;
      && (t.Component? <==> |tag| > 0 && 'A' <= tag[0] <= 'Z')
      && (t.Component? ==> t.tracker == k && t.tag == tag)
      && (t.Component? && |cs| == 1 ==> MapNode(cs[0], k + 1) == Mapped(t.slotChildren, MapNode(NodeElement(tag, attrs, cs, hasCloseTag), k).next))
      && (t.Element? ==> t.tag == tag && (t.selfClosing <==> !hasCloseTag) && |t.children| == |cs| && |t.attributes| == |attrs|)
  {
    if IsComponentTag(tag) {
      MapNodesLength(cs, k + 1);
      if |cs| == 1 {
        assert cs[1..] == [];
      }
    } else {
      MapNodesLength(cs, k);
      MapAttributesLength(attrs, MapNodes(cs, k).next);
    }
  }

  lemma {:induction false} MapAttributesLength(attrs: seq<NodeAttribute>, k: nat)
    ensures MapAttributes(attrs, k).Mapped? ==> |MapAttributes(attrs, k).value| == |attrs|
    decreases |attrs|
  {
    if attrs != [] && MapAttribute(attrs[0], k).Mapped? {
      MapAttributesLength(attrs[1..], MapAttribute(attrs[0], k).next);
    }
  }

  /** Doctype, comment, text and raw text map one to one and take no tracker;
      an empty tag is an element, never a component. */
  lemma LeavesTakeNoTracker(v: string, k: nat)
    ensures MapNode(NodeDoctype, k) == Mapped(Doctype, k)
    ensures MapNode(NodeComment(v), k) == Mapped(Comment(v), k)
    ensures MapNode(NodeText(v), k) == Mapped(Text(v), k)
    ensures MapNode(NodeRawText(v), k) == Mapped(Text(v), k)
    ensures MapNode(NodeElement("", [], [], false), k) == Mapped(Element("", true, [], []), k)
  {
  }

  /** The mapper with its tracker counter as mutable state. */
  class RstmlToRsxTemplate {
    var rustyTracker: nat

    constructor ()
      ensures rustyTracker == 0
    {
      rustyTracker := 0;
    }

    /** `map_tokens`, advancing the counter by what the nodes consume. */
    method MapTokensFrom(nodes: seq<Node>, file: string, line: nat, col: nat) returns (r: Option<TemplateRoot>)
      modifies this
      ensures MapTokens(nodes, file, line, col, old(rustyTracker)).Mapped? ==>
        r == Some(MapTokens(nodes, file, line, col, old(rustyTracker)).value)
        && rustyTracker == MapTokens(nodes, file, line, col, old(rustyTracker)).next
      ensures MapTokens(nodes, file, line, col, old(rustyTracker)).Unimplemented? ==> r.None?
    {
      var m := MapTokens(nodes, file, line, col, rustyTracker);
      match m {
        case Mapped(root, k) =>
          rustyTracker := k;
          r := Some(root);
        case Unimplemented =>
          r := None;
      }
    }
  }
}
