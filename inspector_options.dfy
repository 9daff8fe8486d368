/** `InspectorOptions`: per-field options of a reflected type, keyed by the
    path of the field they belong to. */
module InspectorOptions {
  import opened Ecs

  /** A field `.n` of a struct, or field `f` of enum variant `v`. */
  datatype InspectorTarget = Field(index: nat) | VariantField(variantIndex: nat, fieldIndex: nat)

  /** The options map. A stored option `D` stands for the boxed type data;
      cloning type data yields an equal value. */
  class InspectorOptions<D> {
    var options: map<InspectorTarget, D>

    /** `new`: no options. */
    constructor ()
      ensures options == map[]
    {
      options := map[];
    }

    /** `get`: the options stored for `target`, if any. */
    function Get(target: InspectorTarget): (r: Option<D>)
      reads this
      ensures r.Some? <==> target in options
      ensures r.Some? ==> r.value == options[target]
    {
      if target in options then Some(options[target]) else None
    }

    /** `get_cloned`: a copy of what `get` returns. */
    method GetCloned(target: InspectorTarget) returns (r: Option<D>)
      ensures r == Get(target)
    {
      if target in options {
        r := Some(options[target]);
      } else {
        r := None;
      }
    }

    /** `insert`: stores `value` under `target`, replacing what was there;
        every other target keeps its options. */
    method Insert(target: InspectorTarget, value: D)
      modifies this
      ensures options == old(options)[target := value]
      ensures Get(target) == Some(value)
      ensures forall t :: t != target ==> Get(t) == old(Get(t))
    {
      options := options[target := value];
    }

    /** `insert_boxed`: the same update with already boxed type data. */
    method InsertBoxed(target: InspectorTarget, value: D)
      modifies this
      ensures options == old(options)[target := value]
    {
      Insert(target, value);
    }

    /** `iter`: every stored target exactly once with its options, in an
        order the map does not fix. */
    method Iter() returns (items: seq<(InspectorTarget, D)>)
      ensures forall i :: 0 <= i < |items| ==> items[i].0 in options && items[i].1 == options[items[i].0]
      ensures forall t :: t in options ==> exists i :: 0 <= i < |items| && items[i].0 == t
      ensures forall i, j :: 0 <= i < j < |items| ==> items[i].0 != items[j].0
      ensures |items| == |options|
      ensures Collect(items) == options
    {
      items := [];
      var rest := options.Keys;
      while rest != {}
        invariant rest <= options.Keys
        invariant forall i :: 0 <= i < |items| ==> items[i].0 in options && items[i].0 !in rest && items[i].1 == options[items[i].0]
        invariant forall t :: t in options && t !in rest ==> exists i :: 0 <= i < |items| && items[i].0 == t
        invariant forall i, j :: 0 <= i < j < |items| ==> items[i].0 != items[j].0
        invariant |items| + |rest| == |options|
        decreases |rest|
      {
        var t :| t in rest;
        ghost var prev := items;
        items := items + [(t, options[t])];
        assert forall i :: 0 <= i < |prev| ==> items[i] == prev[i];
        assert items[|prev|].0 == t;
        rest := rest - {t};
      }
      IterCollects(options, items);
    }

    /** `clone`: a new, separate map with the same targets and options. */
    method Clone() returns (c: InspectorOptions<D>)
      ensures fresh(c)
      ensures c.options == options
    {
      c := new InspectorOptions();
      c.options := options;
    }
  }

  /** The options of an `Iter` listing, rebuilt as a map: iteration loses
      nothing and invents nothing. */
  function Collect<D>(items: seq<(InspectorTarget, D)>): (m: map<InspectorTarget, D>)
    ensures forall i :: 0 <= i < |items| ==> items[i].0 in m
    ensures forall t :: t in m ==> exists i :: 0 <= i < |items| && items[i].0 == t
    decreases |items|
  {
    if items == [] then map[]
    else Collect(items[..|items| - 1])[items[|items| - 1].0 := items[|items| - 1].1]
  }

  /** A listing with the properties `Iter` promises collects back into the
      map it came from. */
  lemma {:induction false} IterCollects<D>(m: map<InspectorTarget, D>, items: seq<(InspectorTarget, D)>)
    requires forall i :: 0 <= i < |items| ==> items[i].0 in m && items[i].1 == m[items[i].0]
    requires forall t :: t in m ==> exists i :: 0 <= i < |items| && items[i].0 == t
    ensures Collect(items) == m
  {
    CollectValues(items);
    forall t | t in Collect(items)
      ensures t in m && Collect(items)[t] == m[t]
    {
      var i :| 0 <= i < |items| && items[i].0 == t;
    }
  }

  /** Every value `Collect` keeps was listed under its target. */
  lemma {:induction false} CollectValues<D>(items: seq<(InspectorTarget, D)>)
    ensures forall t :: t in Collect(items) ==> exists i :: 0 <= i < |items| && items[i] == (t, Collect(items)[t])
    decreases |items|
  {
    if items != [] {
      var init := items[..|items| - 1];
      CollectValues(init);
      forall t | t in Collect(items)
        ensures exists i :: 0 <= i < |items| && items[i] == (t, Collect(items)[t])
      {
        if t != items[|items| - 1].0 {
          var i :| 0 <= i < |init| && init[i] == (t, Collect(init)[t]);
          assert items[i] == init[i];
        } else {
          assert items[|items| - 1] == (t, Collect(items)[t]);
        }
      }
    }
  }
}
