/** The two temporary edits bake makes to the active object's modifier
    stack: a cage stack without Edge Split modifiers swapped in while baking
    from selected objects, and the Multires modifier's render bit cleared
    while re-evaluating the mesh for tangent-space normals. */
module ModifierStack {
  import opened BakeTypes

  /** What a modifier copy keeps of its original: its type and its name. */
  datatype ModSig = ModSig(kind: ModifierType, name: string)

  function Sig(m: Modifier): ModSig {
    ModSig(m.kind, m.name)
  }

  function Sigs(mods: seq<Modifier>): (r: seq<ModSig>)
    ensures |r| == |mods|
    ensures forall k :: 0 <= k < |mods| ==> r[k] == Sig(mods[k])
  {
    seq(|mods|, k requires 0 <= k < |mods| => Sig(mods[k]))
  }

  /** The stack the cage is evaluated with: the original stack without its
      Edge Split modifiers, in the original order. */
  function CageStack(sigs: seq<ModSig>): seq<ModSig> {
    if sigs == [] then []
    else
      var rest := CageStack(sigs[..|sigs| - 1]);
      var last := sigs[|sigs| - 1];
      if last.kind == EdgeSplit then rest else rest + [last]
  }

  function CountEdgeSplit(sigs: seq<ModSig>): (n: nat)
    ensures n <= |sigs|
  {
    if sigs == [] then 0
    else CountEdgeSplit(sigs[..|sigs| - 1]) + if sigs[|sigs| - 1].kind == EdgeSplit then 1 else 0
  }

  /** The cage stack holds no Edge Split, keeps every other modifier, and is
      shorter than the original by exactly the number of Edge Splits. */
  lemma {:induction false} CageStackContents(sigs: seq<ModSig>)
    ensures forall k :: 0 <= k < |CageStack(sigs)| ==> CageStack(sigs)[k].kind != EdgeSplit
    ensures forall k :: 0 <= k < |sigs| && sigs[k].kind != EdgeSplit ==> sigs[k] in CageStack(sigs)
    ensures |CageStack(sigs)| == |sigs| - CountEdgeSplit(sigs)
  {
    if sigs != [] {
      var init := sigs[..|sigs| - 1];
      CageStackContents(init);
      assert forall k :: 0 <= k < |init| ==> sigs[k] == init[k];
    }
  }

  /** Dropping Edge Splits commutes with concatenation, so the surviving
      modifiers keep their relative order. */
  lemma {:induction false} CageStackAppend(a: seq<ModSig>, b: seq<ModSig>)
    ensures CageStack(a + b) == CageStack(a) + CageStack(b)
    decreases |b|
  {
    if b != [] {
      var b' := b[..|b| - 1];
      assert (a + b)[..|a + b| - 1] == a + b';
      assert (a + b)[|a + b| - 1] == b[|b| - 1];
      CageStackAppend(a, b');
    } else {
      assert a + b == a;
    }
  }

  /** A stack without Edge Split is its own cage stack. */
  lemma {:induction false} CageStackNoEdgeSplit(sigs: seq<ModSig>)
    requires forall k :: 0 <= k < |sigs| ==> sigs[k].kind != EdgeSplit
    ensures CageStack(sigs) == sigs
  {
    if sigs != [] {
      var init := sigs[..|sigs| - 1];
      CageStackNoEdgeSplit(init);
      assert init + [sigs[|sigs| - 1]] == sigs;
    }
  }

  /** The cage-preparation branch of bake without a custom cage: builds new
      copies of every modifier but the Edge Splits, installs them as the
      object's stack, and hands back the original stack for the restore. */
  method SubstituteCageModifiers(ob: BObject) returns (original: seq<Modifier>)
    modifies ob
    ensures original == old(ob.modifiers)
    ensures Sigs(ob.modifiers) == CageStack(Sigs(original))
    ensures forall k :: 0 <= k < |ob.modifiers| ==> fresh(ob.modifiers[k])
    ensures ob.restrictflag == old(ob.restrictflag)
  {
    original := ob.modifiers;
    var copies: seq<Modifier> := [];
    var i := 0;
    while i < |original|
      invariant 0 <= i <= |original|
      invariant Sigs(copies) == CageStack(Sigs(original[..i]))
      invariant forall k :: 0 <= k < |copies| ==> fresh(copies[k])
      invariant ob.modifiers == original && ob.restrictflag == old(ob.restrictflag)
    {
      assert Sigs(original[..i + 1]) == Sigs(original[..i]) + [Sig(original[i])];
      CageStackAppend(Sigs(original[..i]), [Sig(original[i])]);
      copies := CopyForCage(copies, original[i]);
      i := i + 1;
    }
    assert original[..i] == original;
    ob.modifiers := copies;
  }

  /** One pass of the copying loop: a fresh copy of every modifier but an Edge Split. */
  method CopyForCage(copies: seq<Modifier>, md: Modifier) returns (copies': seq<Modifier>)
    ensures Sigs(copies') == Sigs(copies) + CageStack([Sig(md)])
    ensures |copies'| >= |copies| && copies'[..|copies|] == copies
    ensures forall k :: |copies| <= k < |copies'| ==> fresh(copies'[k])
  {
    copies' := copies;
    if md.kind != EdgeSplit {
      var nmd := new Modifier(md.kind, md.name, md.mode);
      assert Sigs(copies + [nmd]) == Sigs(copies) + [Sig(nmd)];
      copies' := copies + [nmd];
    }
  }

  /** modifiers_findByType: the first modifier of the given type. */
  function FirstOfKind(mods: seq<Modifier>, kind: ModifierType): (r: Option<nat>)
    ensures r.Some? ==> r.value < |mods| && mods[r.value].kind == kind
    ensures r.Some? ==> forall j :: 0 <= j < r.value ==> mods[j].kind != kind
    ensures r.None? ==> forall j :: 0 <= j < |mods| ==> mods[j].kind != kind
  {
    if mods == [] then None
    else if mods[0].kind == kind then Some(0)
    else match FirstOfKind(mods[1..], kind)
      case None => None
      case Some(k) => Some(k + 1)
  }

  /** A modifier mode with eModifierMode_Render cleared. */
  function WithoutRender(mode: bv32): bv32 {
    mode & !ModeRender
  }

  /** The tangent-space branch of bake without selected objects: the first
      Multires modifier, if any, has its render bit cleared while the mesh is
      re-evaluated, then gets its mode back. Returns the mode that
      evaluation sees. */
  method EvaluateWithoutMultires(ob: BObject) returns (modeDuring: Option<bv32>)
    modifies set m | m in ob.modifiers
    ensures forall k :: 0 <= k < |ob.modifiers| ==> ob.modifiers[k].mode == old(ob.modifiers[k].mode)
    ensures FirstOfKind(ob.modifiers, Multires).None? ==> modeDuring.None?
    ensures FirstOfKind(ob.modifiers, Multires).Some? ==>
      modeDuring == Some(WithoutRender(old(ob.modifiers[FirstOfKind(ob.modifiers, Multires).value].mode)))
  {
    var found := FirstOfKind(ob.modifiers, Multires);
    modeDuring := None;
    if found.Some? {
      var md := ob.modifiers[found.value];
      var mode := md.mode;
      md.mode := WithoutRender(mode);
      modeDuring := Some(md.mode);
      md.mode := mode;
      assert md.mode == old(md.mode);
    }
  }
}
