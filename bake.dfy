/** The bake operator's main routine, bake(): checks, surface layout,
    render-engine calls, normal conversion, the save loop and cleanup. The
    pixel work itself is foreign; its answers come from a Host. */
module BakeOperator {
  import opened BakeTypes
  import opened ImageLookup
  import opened PixelLayout
  import opened BakeSettings
  import opened HighPoly
  import opened ModifierStack
  import opened BakeSpec

  /** Every image the object's slots resolve to is a data-block of `main`. */
  predicate SlotImagesIn(main: Main, ob: BObject) {
    forall k :: 0 <= k < |ob.slotImage| && ob.slotImage[k] != null ==> ob.slotImage[k] in main.images
  }

  /** The layout half of bake: after a successful lookup, internal images
      are packed by initialize_internal_images and external surfaces get the
      requested size; the slot map is reset to surface 0 for a single file. */
  method LayOut(active: BObject, req: BakeRequest, bi: BakeImages, totMaterials: nat, reports: ReportList)
    returns (numPixels: int)
    requires active.Valid() && FirstMissing(active.slotImage).None?
    requires bi.size == |Dedup(active.slotImage)| <= bi.data.Length
    requires |active.slotImage| <= totMaterials <= bi.lookup.Length
    requires forall k :: 0 <= k < bi.size ==> bi.data[k].image == Dedup(active.slotImage)[k]
    modifies bi.data, bi.lookup, reports
    ensures req.saveMode == Internal ==> numPixels == SlotPixels(active.slotImage)
    ensures req.saveMode == External ==> numPixels == ExpectedPixels(active, req)
    ensures req.saveMode == Internal && numPixels == 0 ==>
      reports.items == old(reports.items) + ExitReportsNoPixels(active)
    ensures !(req.saveMode == Internal && numPixels == 0) ==>
      reports.items == old(reports.items) && bi.data[..bi.size] == ExpectedSurfaces(active, req)
    ensures forall i :: 0 <= i < |active.slotImage| ==>
      bi.lookup[i] == if req.saveMode == External && !req.splitMaterials then 0 else old(bi.lookup[i])
  {
    ghost var images := Dedup(active.slotImage);
    DedupAllSet(active.slotImage);
    assert SurfaceImages(bi.data[..bi.size]) == images;
    if req.saveMode == Internal {
      numPixels := InitializeInternalImages(bi, reports);
      if numPixels != 0 {
        assert Unbuffered(images).None?;
        assert bi.data[..bi.size] == ExpectedSurfaces(active, req);
      }
    } else {
      numPixels := ApplyExternalLayout(bi, req.width, req.height, req.splitMaterials, totMaterials);
      assert bi.data[..bi.size] == ExpectedSurfaces(active, req);
    }
  }

  /** The reports of the NoPixels exit. */
  function ExitReportsNoPixels(active: BObject): seq<Report>
    requires FirstMissing(active.slotImage).None?
  {
    var images := Dedup(active.slotImage);
    assert AllSet(images) by { DedupAllSet(active.slotImage); }
    if Unbuffered(images).Some? then [Report(Error, NotInitialized(images[Unbuffered(images).value].name))] else []
  }

  /** The image checks and layout of bake: materials to bake into, an image
      for every slot, and pixels to bake. */
  method PrepareSurfaces(main: Main, active: BObject, req: BakeRequest, reports: ReportList)
    returns (exit: Exit, bi: BakeImages?, numPixels: int)
    requires active.Valid() && SlotImagesIn(main, active)
    modifies main.images, reports
    ensures exit == SurfaceExit(active, req)
    ensures exit != Baked ==> reports.items == old(reports.items) + SurfaceExitReports(active, req)
    ensures exit == Baked ==>
      reports.items == old(reports.items) &&
      bi != null && fresh(bi.data) && 0 <= bi.size <= bi.data.Length &&
      bi.data[..bi.size] == ExpectedSurfaces(active, req) && numPixels == ExpectedPixels(active, req) &&
      |active.slotImage| <= bi.lookup.Length &&
      forall i :: 0 <= i < |active.slotImage| ==> bi.lookup[i] == ExpectedLookup(active, req, i)
  {
    var s := active.slotImage;
    var totMaterials := |s|;
    bi := null;
    numPixels := 0;

    if totMaterials == 0 {
      if req.saveMode == Internal {
        reports.Add(Report(Error, NoImageForInternal));
        return NoMaterials, bi, numPixels;
      } else if req.splitMaterials {
        reports.Add(Report(Error, NoImageForSplit));
        return NoMaterials, bi, numPixels;
      } else {
        totMaterials := 1;
      }
    }

    bi := new BakeImages(totMaterials);
    exit, numPixels := FillSurfaces(main, active, req, bi, totMaterials, reports);
  }

  /** The surface-table half of bake's image checks, once the table is
      allocated: the image lookup, then the layout. */
  method FillSurfaces(main: Main, active: BObject, req: BakeRequest, bi: BakeImages, totMaterials: nat, reports: ReportList)
    returns (exit: Exit, numPixels: int)
    requires active.Valid() && SlotImagesIn(main, active)
    requires |active.slotImage| <= totMaterials && bi.data.Length == bi.lookup.Length == totMaterials
    requires |active.slotImage| > 0 || (req.saveMode == External && !req.splitMaterials)
    modifies bi, bi.data, bi.lookup, main.images, reports
    ensures exit == SurfaceExit(active, req)
    ensures exit != Baked ==> reports.items == old(reports.items) + SurfaceExitReports(active, req)
    ensures exit == Baked ==>
      reports.items == old(reports.items) && 0 <= bi.size <= bi.data.Length &&
      bi.data[..bi.size] == ExpectedSurfaces(active, req) && numPixels == ExpectedPixels(active, req) &&
      forall i :: 0 <= i < |active.slotImage| ==> bi.lookup[i] == ExpectedLookup(active, req, i)
  {
    numPixels := 0;
    var found := BuildImageLookup(main, active, bi, reports);
    if !found {
      return MissingImage, numPixels;
    }
    DedupMembers(active.slotImage);

    numPixels := LayOut(active, req, bi, totMaterials, reports);
    if req.saveMode == Internal && numPixels == 0 {
      return NoPixels, numPixels;
    }
    exit := Baked;
  }

  /** The checks and layout of bake, up to the first render call: each
      failed check reports and leaves; the surface table, the pixel total
      and the cage come back for a bake that goes ahead. */
  method Prepare(main: Main, active: BObject, selected: seq<BObject>, req: BakeRequest, reports: ReportList)
    returns (exit: Exit, bi: BakeImages?, numPixels: int, cage: CageLookup)
    requires active.Valid() && SlotImagesIn(main, active)
    modifies main.images, reports
    ensures exit == ExpectedExit(main, active, selected, req)
    ensures exit != Baked ==> reports.items == old(reports.items) + ExitReports(main, active, selected, req)
    ensures exit == Baked ==> reports.items == old(reports.items)
    ensures exit == Baked ==>
      FirstMissing(active.slotImage).None? &&
      bi != null && fresh(bi.data) && 0 <= bi.size <= bi.data.Length &&
      bi.data[..bi.size] == ExpectedSurfaces(active, req) && numPixels == ExpectedPixels(active, req) &&
      |active.slotImage| <= bi.lookup.Length &&
      forall i :: 0 <= i < |active.slotImage| ==> bi.lookup[i] == ExpectedLookup(active, req, i)
    ensures exit == Baked || exit == NoCage ==> cage == LookupCage(main, req.customCage)
  {
    cage := NoCageRequested;
    exit, bi, numPixels := PrepareSurfaces(main, active, req, reports);
    if exit != Baked {
      return;
    }

    if req.selectedToActive {
      var totHighpoly := CountHighPoly(selected, active);
      if totHighpoly == 0 {
        reports.Add(Report(Error, NoValidSelected));
        return NoSelected, bi, numPixels, cage;
      }
    }

    if req.customCage != "" {
      var k := FindObjectByName(main.objects, req.customCage);
      if k.None? {
        reports.Add(Report(Error, NoValidCage));
        return NoCage, bi, numPixels, CageNotFound;
      }
      var ob := main.objects[k.value];
      if !ob.isMesh {
        reports.Add(Report(Error, NoValidCage));
        return NoCage, bi, numPixels, CageNotMesh(ob);
      }
      cage := CageFound(ob);
    }
  }

  /** The render-engine loop: one call per object, in order, stopping at
      the first failure. */
  method RunEngine(host: Host, n: nat) returns (ok: bool, calls: nat)
    requires n >= 1
    ensures ok <==> AllBakesOk(host, n)
    ensures calls == BakeCalls(host, n)
  {
    ok := false;
    calls := 0;
    var i := 0;
    while i < n
      invariant 0 <= i <= n
      invariant AllBakesOk(host, i) && calls == i
      invariant i > 0 ==> ok
    {
      ok := host.bakeOk(i);
      calls := calls + 1;
      if !ok {
        BakeCallsAt(host, n, i);
        return;
      }
      i := i + 1;
    }
  }

  /** The selected-to-active branch of bake: without a cage, the active
      object's stack is swapped for one without Edge Split; the sources are
      populated; the active object is hidden from rendering; each source is
      baked; then the cage is hidden, or the original stack put back. */
  method BakeFromSelected(active: BObject, selected: seq<BObject>, cage: BObject?, host: Host)
    returns (ok: bool, calls: nat, hp: seq<HighPolyData>)
    requires Distinct(selected) && |HighPolySources(selected, active)| >= 1
    modifies active, set o | o in selected, if cage == null then {} else {cage}
    ensures Objects(hp) == HighPolySources(selected, active)
    ensures forall k :: 0 <= k < |hp| ==> hp[k].ob in selected && hp[k].restrictFlag == old(hp[k].ob.restrictflag)
    ensures ok <==> AllBakesOk(host, |hp|)
    ensures calls == BakeCalls(host, |hp|)
    ensures active.restrictflag == RenderDisabled(old(active.restrictflag))
    ensures forall k :: 0 <= k < |hp| && hp[k].ob != cage ==> hp[k].ob.restrictflag == RenderEnabled(hp[k].restrictFlag)
    ensures cage != null ==> cage.restrictflag == RenderDisabled(old(cage.restrictflag))
    ensures forall o :: o in selected && o != active && o != cage && o !in Objects(hp) ==>
      o.restrictflag == old(o.restrictflag)
    ensures active.modifiers == old(active.modifiers)
    ensures forall o :: o in selected ==> o.modifiers == old(o.modifiers)
    ensures cage != null ==> cage.modifiers == old(cage.modifiers)
  {
    HighPolySourcesMembers(selected, active);
    var original: seq<Modifier> := [];
    if cage == null {
      original := SubstituteCageModifiers(active);
    }
    ok, calls, hp := RenderHighPoly(active, selected, host);
    if cage != null {
      RenderDisabledOverrides(old(cage.restrictflag));
    }
    RevertAfterRender(active, cage, original);
  }

  /** The high-poly render: the sources are populated and made renderable,
      the active object is hidden from rendering, and each source is baked
      in turn until the first failure. */
  method RenderHighPoly(active: BObject, selected: seq<BObject>, host: Host)
    returns (ok: bool, calls: nat, hp: seq<HighPolyData>)
    requires Distinct(selected) && |HighPolySources(selected, active)| >= 1
    modifies active, set o | o in selected
    ensures Objects(hp) == HighPolySources(selected, active)
    ensures forall k :: 0 <= k < |hp| ==> hp[k].ob in selected && hp[k].ob != active
    ensures forall k :: 0 <= k < |hp| ==> hp[k].restrictFlag == old(hp[k].ob.restrictflag)
    ensures forall k :: 0 <= k < |hp| ==> hp[k].ob.restrictflag == RenderEnabled(hp[k].restrictFlag)
    ensures ok <==> AllBakesOk(host, |hp|)
    ensures calls == BakeCalls(host, |hp|)
    ensures active.restrictflag == RenderDisabled(old(active.restrictflag))
    ensures forall o :: o in selected && o != active ==> o.restrictflag == RenderEnabled(old(o.restrictflag))
    ensures active.modifiers == old(active.modifiers)
    ensures forall o :: o in selected ==> o.modifiers == old(o.modifiers)
  {
    HighPolySourcesMembers(selected, active);
    hp := PopulateHighPoly(selected, active);
    active.restrictflag := RenderDisabled(active.restrictflag);
    ok, calls := RunEngine(host, |hp|);
  }

  /** The "reverting data back" step after the high-poly render calls: the
      cage is hidden from rendering, or, without a cage, the active object's
      original modifier list is put back. */
  method RevertAfterRender(active: BObject, cage: BObject?, original: seq<Modifier>)
    modifies active, if cage == null then {} else {cage}
    ensures cage != null ==> cage.restrictflag == RenderDisabled(old(cage.restrictflag))
    ensures cage != active ==> active.restrictflag == old(active.restrictflag)
    ensures active.modifiers == if cage == null then original else old(active.modifiers)
    ensures cage != null ==> cage.modifiers == old(cage.modifiers)
  {
    if cage != null {
      cage.restrictflag := RenderDisabled(cage.restrictflag);
    } else {
      active.modifiers := original;
    }
  }

  /** The save loop of bake: each surface in order is written, a failed
      write does not stop the loop, a single external file stops after
      surface 0, and the status is that of the last attempt. */
  method SaveResults(active: BObject, req: BakeRequest, host: Host, bi: BakeImages, reports: ReportList)
    returns (status: Status, writes: seq<WriteAttempt>)
    requires 0 <= bi.size <= bi.data.Length
    modifies reports
    ensures writes == ExpectedWrites(active, req, host, bi.data[..bi.size])
    ensures status == StatusOf(writes)
    ensures reports.items == old(reports.items) + SaveReports(writes)
  {
    ghost var surfaces := bi.data[..bi.size];
    var single := req.saveMode == External && !req.splitMaterials;
    status := Cancelled;
    writes := [];
    var i := 0;
    while i < bi.size
      invariant 0 <= i <= bi.size
      invariant single ==> i == 0
      invariant writes == WritesUpTo(active, req, host, surfaces, i)
      invariant status == StatusOf(writes)
      invariant reports.items == old(reports.items) + SaveReports(writes)
    {
      var w := WriteFor(active, req, host, bi.data[i], i);
      assert w == WriteFor(active, req, host, surfaces[i], i);
      assert WritesUpTo(active, req, host, surfaces, i + 1) == writes + [w];
      SaveReportsAppend(old(reports.items), writes, w);
      writes := writes + [w];
      reports.Add(WriteReport(w));
      status := if w.ok then Finished else Cancelled;
      if single {
        WritesUpToComplete(active, req, host, surfaces, 1);
        return;
      }
      i := i + 1;
    }
    WritesUpToComplete(active, req, host, surfaces, i);
  }

  /** The render half of bake: the selected-to-active branch, or one call
      for the active object after letting it render. */
  method RenderObjects(active: BObject, selected: seq<BObject>, cage: BObject?, req: BakeRequest, host: Host)
    returns (ok: bool, calls: nat, hp: seq<HighPolyData>)
    requires Distinct(selected)
    requires req.selectedToActive ==> |HighPolySources(selected, active)| >= 1
    modifies active, set o | o in selected, if cage == null then {} else {cage}
    ensures ok <==> AllBakesOk(host, BakeObjectCount(selected, active, req))
    ensures calls == BakeCalls(host, BakeObjectCount(selected, active, req))
    ensures req.selectedToActive ==> Objects(hp) == HighPolySources(selected, active)
    ensures !req.selectedToActive ==> hp == []
    ensures forall k :: 0 <= k < |hp| ==> hp[k].ob in selected && hp[k].restrictFlag == old(hp[k].ob.restrictflag)
    ensures req.selectedToActive ==> active.restrictflag == RenderDisabled(old(active.restrictflag))
    ensures forall k :: 0 <= k < |hp| && hp[k].ob != cage ==> hp[k].ob.restrictflag == RenderEnabled(hp[k].restrictFlag)
    ensures req.selectedToActive && cage != null ==> cage.restrictflag == RenderDisabled(old(cage.restrictflag))
    ensures !req.selectedToActive ==> active.restrictflag == RenderEnabled(old(active.restrictflag))
    ensures !req.selectedToActive && cage != null && cage != active ==> cage.restrictflag == old(cage.restrictflag)
    ensures forall o :: o in selected && o != active && o != cage && o !in Objects(hp) ==>
      o.restrictflag == old(o.restrictflag)
    ensures active.modifiers == old(active.modifiers)
    ensures forall o :: o in selected ==> o.modifiers == old(o.modifiers)
    ensures cage != null ==> cage.modifiers == old(cage.modifiers)
  {
    if req.selectedToActive {
      ok, calls, hp := BakeFromSelected(active, selected, cage, host);
      HighPolySourcesMembers(selected, active);
    } else {
      hp := [];
      active.restrictflag := RenderEnabled(active.restrictflag);
      ok := host.bakeOk(0);
      calls := 1;
    }
  }

  /** The normal-space conversion of bake; only the tangent-space case
      without selected objects touches the scene (the Multires render bit). */
  method ConvertNormals(active: BObject, req: BakeRequest) returns (conversion: NormalConversion, modeDuring: Option<bv32>)
    modifies set m | m in active.modifiers
    ensures conversion == NormalDispatch(req.pass, req.normalSpace, req.swizzle, req.selectedToActive)
    ensures forall k :: 0 <= k < |active.modifiers| ==> active.modifiers[k].mode == old(active.modifiers[k].mode)
    ensures conversion != WorldToTangent(WithoutMultires) ==> modeDuring.None?
    ensures conversion == WorldToTangent(WithoutMultires) ==>
      match FirstOfKind(active.modifiers, Multires)
      case None => modeDuring.None?
      case Some(k) => modeDuring == Some(WithoutRender(old(active.modifiers[k].mode)))
  {
    conversion := NormalDispatch(req.pass, req.normalSpace, req.swizzle, req.selectedToActive);
    modeDuring := None;
    if conversion == WorldToTangent(WithoutMultires) {
      modeDuring := EvaluateWithoutMultires(active);
    }
  }

  /** The restrict-flag half of bake's cleanup: the high-poly sources, then
      the active object, then the cage get their saved flags back. `flags`
      holds every flag as it was when bake started. */
  method RestoreFlags(active: BObject, lowFlag: bv8, selected: seq<BObject>, hp: seq<HighPolyData>, cage: BObject?,
                      cageFlag: bv8, ghost flags: map<BObject, bv8>)
    requires Distinct(Objects(hp)) && forall k :: 0 <= k < |hp| ==> hp[k].ob in selected
    requires forall k :: 0 <= k < |hp| ==> hp[k].ob in flags && hp[k].restrictFlag == flags[hp[k].ob]
    requires active in flags && lowFlag == flags[active]
    requires cage != null && cage in flags ==> cageFlag == flags[cage]
    modifies active, set o | o in selected, if cage == null then {} else {cage}
    ensures active.restrictflag == lowFlag
    ensures cage != null ==> cage.restrictflag == cageFlag
    ensures forall o :: o in flags && (o == active || o in Objects(hp) || o == cage) ==> o.restrictflag == flags[o]
    ensures forall o :: o in selected && o != active && o !in Objects(hp) && o != cage ==> o.restrictflag == old(o.restrictflag)
    ensures active.modifiers == old(active.modifiers)
    ensures forall o :: o in selected ==> o.modifiers == old(o.modifiers)
    ensures cage != null ==> cage.modifiers == old(cage.modifiers)
  {
    RestoreHighPoly(hp);
    active.restrictflag := lowFlag;
    if cage != null {
      cage.restrictflag := cageFlag;
    }
  }

  /** The part of bake between the render calls and the cleanup: the normal
      conversion, then the save loop when every render call succeeded, else
      the failure report. */
  method ConvertAndSave(active: BObject, req: BakeRequest, host: Host, bi: BakeImages, ghost surfaces: seq<BakeImage>,
                        ok: bool, reports: ReportList)
    returns (conversion: NormalConversion, modeDuring: Option<bv32>, status: Status, writes: seq<WriteAttempt>)
    requires 0 <= bi.size <= bi.data.Length && surfaces == bi.data[..bi.size]
    modifies reports, set m | m in active.modifiers
    ensures conversion == NormalDispatch(req.pass, req.normalSpace, req.swizzle, req.selectedToActive)
    ensures !ok ==> status == Cancelled && writes == [] && reports.items == old(reports.items) + [Report(Error, ProblemBaking)]
    ensures ok ==>
      writes == ExpectedWrites(active, req, host, surfaces) && status == StatusOf(writes) &&
      reports.items == old(reports.items) + SaveReports(writes)
    ensures conversion != WorldToTangent(WithoutMultires) ==> modeDuring.None?
    ensures conversion == WorldToTangent(WithoutMultires) ==>
      match FirstOfKind(active.modifiers, Multires)
      case None => modeDuring.None?
      case Some(k) => modeDuring == Some(WithoutRender(old(active.modifiers[k].mode)))
    ensures forall k :: 0 <= k < |active.modifiers| ==> active.modifiers[k].mode == old(active.modifiers[k].mode)
  {
    conversion, modeDuring := ConvertNormals(active, req);
    status := Cancelled;
    writes := [];
    if !ok {
      reports.Add(Report(Error, ProblemBaking));
    } else {
      status, writes := SaveResults(active, req, host, bi, reports);
    }
  }

  /** bake() after its checks: render, convert normals, save, then restore
      every restrict flag it changed. */
  method RenderAndSave(active: BObject, selected: seq<BObject>, req: BakeRequest, host: Host, bi: BakeImages,
                       ghost surfaces: seq<BakeImage>, cage: BObject?, reports: ReportList)
    returns (calls: nat, conversion: NormalConversion, status: Status, writes: seq<WriteAttempt>)
    requires Distinct(selected) && 0 <= bi.size <= bi.data.Length && surfaces == bi.data[..bi.size]
    requires req.selectedToActive ==> |HighPolySources(selected, active)| >= 1
    modifies reports, active, set o | o in selected, if cage == null then {} else {cage}
    modifies set m | m in active.modifiers
    ensures calls == BakeCalls(host, BakeObjectCount(selected, active, req))
    ensures conversion == NormalDispatch(req.pass, req.normalSpace, req.swizzle, req.selectedToActive)
    ensures !AllBakesOk(host, BakeObjectCount(selected, active, req)) ==>
      status == Cancelled && writes == [] && reports.items == old(reports.items) + [Report(Error, ProblemBaking)]
    ensures AllBakesOk(host, BakeObjectCount(selected, active, req)) ==>
      writes == ExpectedWrites(active, req, host, surfaces) && status == StatusOf(writes) &&
      reports.items == old(reports.items) + SaveReports(writes)
    ensures active.restrictflag == old(active.restrictflag) && active.modifiers == old(active.modifiers)
    ensures forall k :: 0 <= k < |active.modifiers| ==> active.modifiers[k].mode == old(active.modifiers[k].mode)
    ensures forall o :: o in selected ==> o.restrictflag == old(o.restrictflag) && o.modifiers == old(o.modifiers)
    ensures cage != null ==> cage.restrictflag == old(cage.restrictflag) && cage.modifiers == old(cage.modifiers)
  {
    ghost var flags := map o | o in (set x | x in selected) + {active} + (if cage == null then {} else {cage}) :: o.restrictflag;
    var restrictFlagLow := active.restrictflag;
    var restrictFlagCage: bv8 := if cage != null then cage.restrictflag else 0;
    var ok, hp;
    ok, calls, hp := RenderObjects(active, selected, cage, req, host);
    var modeDuring;
    conversion, modeDuring, status, writes := ConvertAndSave(active, req, host, bi, surfaces, ok, reports);
    if req.selectedToActive {
      HighPolySourcesDistinct(selected, active);
    }
    RestoreFlags(active, restrictFlagLow, selected, hp, cage, restrictFlagCage, flags);
  }

  /** What a run of bake() did. */
  datatype BakeRun = BakeRun(
    status: Status,
    exit: Exit,
    surfaces: seq<BakeImage>,
    numPixels: int,
    bakeCalls: nat,
    conversion: NormalConversion,
    writes: seq<WriteAttempt>,
    cleanup: CleanupSteps)

  /** bake(): with the cleanup restoring only what was set up. */
  method Bake(main: Main, active: BObject, selected: seq<BObject>, req: BakeRequest, host: Host, reports: ReportList)
    returns (run: BakeRun)
    requires active.Valid() && SlotImagesIn(main, active) && Distinct(selected)
    modifies main.images, reports, active, (set o | o in selected), (set o | o in main.objects)
    modifies set m | m in active.modifiers
    ensures run.exit == ExpectedExit(main, active, selected, req)
    ensures run.exit != Baked ==>
      run.status == Cancelled && run.writes == [] && reports.items == old(reports.items) + ExitReports(main, active, selected, req)
    ensures run.exit == Baked ==>
      FirstMissing(active.slotImage).None? &&
      run.surfaces == ExpectedSurfaces(active, req) && run.numPixels == ExpectedPixels(active, req) &&
      run.bakeCalls == BakeCalls(host, BakeObjectCount(selected, active, req)) &&
      run.conversion == NormalDispatch(req.pass, req.normalSpace, req.swizzle, req.selectedToActive)
    ensures run.exit == Baked && !AllBakesOk(host, BakeObjectCount(selected, active, req)) ==>
      run.status == Cancelled && run.writes == [] &&
      reports.items == old(reports.items) + [Report(Error, ProblemBaking)]
    ensures run.exit == Baked && AllBakesOk(host, BakeObjectCount(selected, active, req)) ==>
      run.writes == ExpectedWrites(active, req, host, run.surfaces) && run.status == StatusOf(run.writes) &&
      reports.items == old(reports.items) + SaveReports(run.writes)
    ensures run.cleanup == CleanupCorrected(StateAtCleanup(run.exit, req.selectedToActive, LookupCage(main, req.customCage)))
    ensures active.restrictflag == old(active.restrictflag) && active.modifiers == old(active.modifiers)
    ensures forall k :: 0 <= k < |active.modifiers| ==> active.modifiers[k].mode == old(active.modifiers[k].mode)
    ensures forall o :: o in selected ==> o.restrictflag == old(o.restrictflag) && o.modifiers == old(o.modifiers)
    ensures forall o :: o in main.objects ==> o.restrictflag == old(o.restrictflag) && o.modifiers == old(o.modifiers)
  {
    var exit, bi, numPixels, cage := Prepare(main, active, selected, req, reports);
    if exit != Baked {
      // Nothing has touched a restrict flag yet: cleanup writes the active
      // object's saved flag back over an equal value.
      run := BakeRun(Cancelled, exit, [], 0, 0, NoConversion, [], CleanupSteps(false, false));
      return;
    }

    var cageOb: BObject? := if cage.CageFound? then cage.ob else null;
    run := BakePrepared(active, selected, req, host, bi, numPixels, cageOb, main.objects, reports);
  }

  /** The part of bake() after the surfaces are laid out and the high-poly
      sources and cage are known: render, convert, save and clean up. Every
      object it touches, and so every object of `others`, ends as it began. */
  method BakePrepared(active: BObject, selected: seq<BObject>, req: BakeRequest, host: Host, bi: BakeImages,
                      numPixels: int, cage: BObject?, ghost others: seq<BObject>, reports: ReportList)
    returns (run: BakeRun)
    requires Distinct(selected) && 0 <= bi.size <= bi.data.Length
    requires req.selectedToActive ==> |HighPolySources(selected, active)| >= 1
    modifies reports, active, set o | o in selected, if cage == null then {} else {cage}
    modifies set m | m in active.modifiers
    ensures run.exit == Baked && run.surfaces == old(bi.data[..bi.size]) && run.numPixels == numPixels
    ensures run.bakeCalls == BakeCalls(host, BakeObjectCount(selected, active, req))
    ensures run.conversion == NormalDispatch(req.pass, req.normalSpace, req.swizzle, req.selectedToActive)
    ensures !AllBakesOk(host, BakeObjectCount(selected, active, req)) ==>
      run.status == Cancelled && run.writes == [] && reports.items == old(reports.items) + [Report(Error, ProblemBaking)]
    ensures AllBakesOk(host, BakeObjectCount(selected, active, req)) ==>
      run.writes == ExpectedWrites(active, req, host, run.surfaces) && run.status == StatusOf(run.writes) &&
      reports.items == old(reports.items) + SaveReports(run.writes)
    ensures run.cleanup == CleanupSteps(req.selectedToActive, cage != null)
    ensures active.restrictflag == old(active.restrictflag) && active.modifiers == old(active.modifiers)
    ensures forall k :: 0 <= k < |active.modifiers| ==> active.modifiers[k].mode == old(active.modifiers[k].mode)
    ensures forall o :: o in selected ==> o.restrictflag == old(o.restrictflag) && o.modifiers == old(o.modifiers)
    ensures cage != null ==> cage.restrictflag == old(cage.restrictflag) && cage.modifiers == old(cage.modifiers)
    ensures forall o :: o in others ==> o.restrictflag == old(o.restrictflag) && o.modifiers == old(o.modifiers)
  {
    var surfaces := bi.data[..bi.size];
    var calls, conversion, status, writes := RenderAndSave(active, selected, req, host, bi, surfaces, cage, reports);
    run := BakeRun(status, Baked, surfaces, numPixels, calls, conversion, writes,
                   CleanupSteps(req.selectedToActive, cage != null));
  }
}
