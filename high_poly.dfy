/** Baking from selected objects to the active one: which selected objects
    are high-poly sources, the per-source record bake keeps (the object and
    its saved restrict flag), and the cage object lookup by name. */
module HighPoly {
  import opened BakeTypes
  import opened ImageLookup

  /** The high-poly sources: the selected objects other than the active
      one, in selection order. */
  function HighPolySources(selected: seq<BObject>, active: BObject): (r: seq<BObject>)
    ensures |r| <= |selected|
  {
    if selected == [] then []
    else
      var rest := HighPolySources(selected[..|selected| - 1], active);
      var last := selected[|selected| - 1];
      if last == active then rest else rest + [last]
  }

  /** The sources are exactly the selected objects that are not the active one. */
  lemma {:induction false} HighPolySourcesMembers(selected: seq<BObject>, active: BObject)
    ensures forall k :: 0 <= k < |HighPolySources(selected, active)| ==>
      HighPolySources(selected, active)[k] in selected && HighPolySources(selected, active)[k] != active
    ensures forall i :: 0 <= i < |selected| && selected[i] != active ==> selected[i] in HighPolySources(selected, active)
  {
    if selected != [] {
      var init := selected[..|selected| - 1];
      HighPolySourcesMembers(init, active);
      assert forall i :: 0 <= i < |init| ==> selected[i] == init[i];
    }
  }

  /** Selection order is kept: the sources of a concatenation are the
      sources of each part, one after the other. */
  lemma {:induction false} HighPolySourcesAppend(a: seq<BObject>, b: seq<BObject>, active: BObject)
    ensures HighPolySources(a + b, active) == HighPolySources(a, active) + HighPolySources(b, active)
    decreases |b|
  {
    if b != [] {
      var b' := b[..|b| - 1];
      assert (a + b)[..|a + b| - 1] == a + b';
      assert (a + b)[|a + b| - 1] == b[|b| - 1];
      HighPolySourcesAppend(a, b', active);
    } else {
      assert a + b == a;
    }
  }

  /** A selection without repeats yields sources without repeats. */
  lemma {:induction false} HighPolySourcesDistinct(selected: seq<BObject>, active: BObject)
    requires Distinct(selected)
    ensures Distinct(HighPolySources(selected, active))
  {
    if selected != [] {
      var init := selected[..|selected| - 1];
      assert Distinct(init);
      HighPolySourcesDistinct(init, active);
      HighPolySourcesMembers(init, active);
    }
  }

  /** The counting loop of bake: how many selected objects are not the active one. */
  method CountHighPoly(selected: seq<BObject>, active: BObject) returns (n: nat)
    ensures n == |HighPolySources(selected, active)|
  {
    n := 0;
    var i := 0;
    while i < |selected|
      invariant 0 <= i <= |selected|
      invariant n == |HighPolySources(selected[..i], active)|
    {
      assert selected[..i + 1][..i] == selected[..i];
      if selected[i] != active {
        n := n + 1;
      }
      i := i + 1;
    }
    assert selected[..i] == selected;
  }

  /** One entry of the high-poly array (BakeHighPolyData): the source
      object and its restrict flag as it was before the bake. */
  datatype HighPolyData = HighPolyData(ob: BObject, restrictFlag: bv8)

  function Objects(hp: seq<HighPolyData>): (r: seq<BObject>)
    ensures |r| == |hp|
    ensures forall k :: 0 <= k < |hp| ==> r[k] == hp[k].ob
  {
    seq(|hp|, k requires 0 <= k < |hp| => hp[k].ob)
  }

  /** The populating loop of bake: one entry per source, in selection order,
      saving each source's restrict flag and then letting it render. */
  method PopulateHighPoly(selected: seq<BObject>, active: BObject) returns (hp: seq<HighPolyData>)
    requires Distinct(selected)
    modifies set o | o in selected
    ensures Objects(hp) == HighPolySources(selected, active)
    ensures forall k :: 0 <= k < |hp| ==> hp[k].ob in selected && hp[k].restrictFlag == old(hp[k].ob.restrictflag)
    ensures forall i :: 0 <= i < |selected| ==>
      selected[i].restrictflag == if selected[i] == active then old(selected[i].restrictflag)
                                  else RenderEnabled(old(selected[i].restrictflag))
    ensures forall i :: 0 <= i < |selected| ==> selected[i].modifiers == old(selected[i].modifiers)
  {
    hp := [];
    var i := 0;
    while i < |selected|
      invariant 0 <= i <= |selected|
      invariant Objects(hp) == HighPolySources(selected[..i], active)
      invariant forall k :: 0 <= k < |hp| ==> hp[k].ob in selected && hp[k].restrictFlag == old(hp[k].ob.restrictflag)
      invariant forall j :: 0 <= j < |selected| ==>
        selected[j].restrictflag == if j < i && selected[j] != active then RenderEnabled(old(selected[j].restrictflag))
                                    else old(selected[j].restrictflag)
      invariant forall j :: 0 <= j < |selected| ==> selected[j].modifiers == old(selected[j].modifiers)
    {
      assert selected[..i + 1] == selected[..i] + [selected[i]];
      HighPolySourcesAppend(selected[..i], [selected[i]], active);
      assert forall j :: 0 <= j < |selected| && j != i ==> selected[j] != selected[i];
      hp := AddSource(hp, selected[i], active);
      i := i + 1;
    }
    assert selected[..i] == selected;
  }

  /** One pass of the populating loop: a selected object other than the
      active one gets an entry with its current flag and is made renderable. */
  method AddSource(hp: seq<HighPolyData>, ob: BObject, active: BObject) returns (hp': seq<HighPolyData>)
    modifies ob
    ensures Objects(hp') == Objects(hp) + HighPolySources([ob], active)
    ensures hp' == if ob == active then hp else hp + [HighPolyData(ob, old(ob.restrictflag))]
    ensures ob.restrictflag == if ob == active then old(ob.restrictflag) else RenderEnabled(old(ob.restrictflag))
    ensures ob.modifiers == old(ob.modifiers)
  {
    hp' := hp;
    if ob != active {
      assert Objects(hp + [HighPolyData(ob, ob.restrictflag)]) == Objects(hp) + [ob];
      hp' := hp + [HighPolyData(ob, ob.restrictflag)];
      ob.restrictflag := RenderEnabled(ob.restrictflag);
    }
  }

  /** The high-poly part of bake's cleanup: every source gets its saved
      restrict flag back. */
  method RestoreHighPoly(hp: seq<HighPolyData>)
    requires Distinct(Objects(hp))
    modifies set k | 0 <= k < |hp| :: hp[k].ob
    ensures forall k :: 0 <= k < |hp| ==> hp[k].ob.restrictflag == hp[k].restrictFlag
    ensures forall k :: 0 <= k < |hp| ==> hp[k].ob.modifiers == old(hp[k].ob.modifiers)
  {
    var i := 0;
    while i < |hp|
      invariant 0 <= i <= |hp|
      invariant forall k :: 0 <= k < i ==> hp[k].ob.restrictflag == hp[k].restrictFlag
      invariant forall k :: 0 <= k < |hp| ==> hp[k].ob.modifiers == old(hp[k].ob.modifiers)
    {
      assert forall k :: 0 <= k < i ==> Objects(hp)[k] != Objects(hp)[i];
      hp[i].ob.restrictflag := hp[i].restrictFlag;
      i := i + 1;
    }
  }

  /** BLI_findstring over the object list: the first object with the name. */
  function FindObjectByName(objects: seq<BObject>, name: string): (r: Option<nat>)
    ensures r.Some? ==> r.value < |objects| && objects[r.value].name == name
    ensures r.Some? ==> forall j :: 0 <= j < r.value ==> objects[j].name != name
    ensures r.None? ==> forall j :: 0 <= j < |objects| ==> objects[j].name != name
  {
    if objects == [] then None
    else if objects[0].name == name then Some(0)
    else match FindObjectByName(objects[1..], name)
      case None => None
      case Some(k) => Some(k + 1)
  }
}
