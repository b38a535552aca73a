/** What bake() promises, stated on its inputs: where it stops, the surface
    table and pixel arena it lays out, how many render-engine calls it makes,
    which writes it attempts and with what outcome, the reports it leaves,
    and what its cleanup may touch. */
module BakeSpec {
  import opened BakeTypes
  import opened ImageLookup
  import opened PixelLayout
  import opened BakeSettings
  import opened OutputNames
  import opened HighPoly

  /** The answers of the foreign code bake() calls: the k-th render-engine
      call (RE_bake_engine or RE_bake_internal) succeeds; writing external
      surface i's file (IMB_allocImBuf and BKE_imbuf_write) succeeds; the
      name of material i of the low-poly mesh (the cage's mesh when a cage
      is used); whether the
      output format has more than 8 bits per channel; and whether internal
      surface i's image buffer is in a colour space other than scene linear
      (the IMB_colormanagement name comparison). */
  datatype Host = Host(
    bakeOk: nat -> bool,
    writeOk: nat -> bool,
    meshMaterial: nat -> Option<string>,
    floatFormat: bool,
    spacesDiffer: nat -> bool)

  /** Where bake() leaves for its cleanup. */
  datatype Exit = NoMaterials | MissingImage | NoPixels | NoSelected | NoCage | Baked

  /** What looking up the custom cage by name finds. */
  datatype CageLookup = NoCageRequested | CageNotFound | CageNotMesh(ob: BObject) | CageFound(ob: BObject)

  function LookupCage(main: Main, name: string): CageLookup {
    if name == "" then NoCageRequested
    else match FindObjectByName(main.objects, name)
      case None => CageNotFound
      case Some(k) => if main.objects[k].isMesh then CageFound(main.objects[k]) else CageNotMesh(main.objects[k])
  }

  lemma DedupAllSet(s: seq<Image?>)
    requires AllSet(s)
    ensures AllSet(Dedup(s))
  {
    DedupMembers(s);
  }

  /** The pixel total initialize_internal_images returns. */
  function InternalPixels(images: seq<Image?>): nat
    requires AllSet(images)
  {
    if Unbuffered(images).Some? then 0 else AreaPrefix(images, |images|)
  }

  /** The internal pixel total of the distinct images of slots that all have one. */
  function SlotPixels(s: seq<Image?>): nat
    requires AllSet(s)
  {
    assert AllSet(Dedup(s)) by { DedupAllSet(s); }
    InternalPixels(Dedup(s))
  }

  /** The exit taken by bake()'s checks on the active object's images, in
      their order; Baked when all pass. */
  function SurfaceExit(active: BObject, req: BakeRequest): (e: Exit)
    ensures e == NoMaterials || e == MissingImage || e == NoPixels || e == Baked
  {
    var s := active.slotImage;
    if |s| == 0 && (req.saveMode == Internal || req.splitMaterials) then NoMaterials
    else if FirstMissing(s).Some? then MissingImage
    else if req.saveMode == Internal && SlotPixels(s) == 0 then NoPixels
    else Baked
  }

  /** The exit bake() takes, in the order of its checks. */
  function ExpectedExit(main: Main, active: BObject, selected: seq<BObject>, req: BakeRequest): Exit {
    if SurfaceExit(active, req) != Baked then SurfaceExit(active, req)
    else if req.selectedToActive && |HighPolySources(selected, active)| == 0 then NoSelected
    else if LookupCage(main, req.customCage).CageNotFound? || LookupCage(main, req.customCage).CageNotMesh? then NoCage
    else Baked
  }

  /** The reports of an exit taken by the image checks. An internal bake
      whose images all have empty buffers stops without a report. */
  function SurfaceExitReports(active: BObject, req: BakeRequest): seq<Report>
    requires active.Valid()
  {
    match SurfaceExit(active, req)
    case NoMaterials =>
      if req.saveMode == Internal then [Report(Error, NoImageForInternal)]
      else [Report(Error, NoImageForSplit)]
    case MissingImage => [MissingImageReport(active, FirstMissing(active.slotImage).value)]
    case NoPixels =>
      var images := Dedup(active.slotImage);
      assert AllSet(images) by { DedupAllSet(active.slotImage); }
      if Unbuffered(images).Some? then [Report(Error, NotInitialized(images[Unbuffered(images).value].name))] else []
    case _ => []
  }

  /** The reports of an early exit. */
  function ExitReports(main: Main, active: BObject, selected: seq<BObject>, req: BakeRequest): seq<Report>
    requires active.Valid()
  {
    match ExpectedExit(main, active, selected, req)
    case NoSelected => [Report(Error, NoValidSelected)]
    case NoCage => [Report(Error, NoValidCage)]
    case Baked => []
    case _ => SurfaceExitReports(active, req)
  }

  function BufferWidth(image: Image): nat {
    if image.ibuf.Some? then image.ibuf.value.x else 0
  }

  function BufferHeight(image: Image): nat {
    if image.ibuf.Some? then image.ibuf.value.y else 0
  }

  /** The surface table bake() lays out: one surface per distinct slot
      image; internally with the image's buffer size at the running pixel
      sum, externally with the requested size, no image, and the offset
      ExternalOffsetAsWritten gives. */
  function ExpectedSurfaces(active: BObject, req: BakeRequest): (r: seq<BakeImage>)
    requires FirstMissing(active.slotImage).None?
    ensures |r| == |Dedup(active.slotImage)|
  {
    var images := Dedup(active.slotImage);
    assert AllSet(images) by { DedupAllSet(active.slotImage); }
    if req.saveMode == Internal then
      seq(|images|, k requires 0 <= k < |images| =>
        BakeImage(images[k], BufferWidth(images[k]), BufferHeight(images[k]), AreaPrefix(images, k)))
    else
      seq(|images|, k requires 0 <= k < |images| =>
        BakeImage(null, req.width, req.height, ExternalOffsetAsWritten(req.width, req.height, |images|, req.splitMaterials)))
  }

  /** An external surface of the table: the requested size, no image, and
      the offset of the layout as written. */
  lemma ExternalSurfaceAt(active: BObject, req: BakeRequest, k: nat)
    requires FirstMissing(active.slotImage).None? && req.saveMode == External
    requires k < |ExpectedSurfaces(active, req)|
    ensures ExpectedSurfaces(active, req)[k] ==
      BakeImage(null, req.width, req.height,
                ExternalOffsetAsWritten(req.width, req.height, |Dedup(active.slotImage)|, req.splitMaterials))
  {
  }

  /** The size of the pixel arena. */
  function ExpectedPixels(active: BObject, req: BakeRequest): nat
    requires FirstMissing(active.slotImage).None?
  {
    var images := Dedup(active.slotImage);
    assert AllSet(images) by { DedupAllSet(active.slotImage); }
    if req.saveMode == Internal then SlotPixels(active.slotImage) else req.width * req.height * |images|
  }

  /** The slot map bake() leaves: each slot's surface, or surface 0 for
      every slot of a single external file. */
  function ExpectedLookup(active: BObject, req: BakeRequest, i: nat): int
    requires i < |active.slotImage|
  {
    if req.saveMode == External && !req.splitMaterials then 0
    else
      assert active.slotImage[i] in Dedup(active.slotImage) by { DedupMembers(active.slotImage); }
      IndexOf(Dedup(active.slotImage), active.slotImage[i])
  }

  /** Every surface of a completed internal or single-file layout has its
      slice inside the pixel arena, and no two internal slices overlap (a
      single external file has one surface). Split external layouts are
      covered by SplitSurfacesOverrun. */
  lemma {:induction false} SurfacesInArena(main: Main, active: BObject, selected: seq<BObject>, req: BakeRequest, j: nat, k: nat)
    requires active.Valid() && ExpectedExit(main, active, selected, req) == Baked
    requires j <= k < |ExpectedSurfaces(active, req)|
    ensures var r := ExpectedSurfaces(active, req);
      (req.saveMode == Internal || !req.splitMaterials) ==>
        0 <= r[k].offset && r[k].offset + r[k].width * r[k].height <= ExpectedPixels(active, req)
    ensures var r := ExpectedSurfaces(active, req);
      j < k && req.saveMode == Internal ==> r[j].offset + r[j].width * r[j].height <= r[k].offset
  {
    var images := Dedup(active.slotImage);
    DedupAllSet(active.slotImage);
    var r := ExpectedSurfaces(active, req);
    if req.saveMode == Internal {
      assert Unbuffered(images).None?;
      assert r[j].width * r[j].height == Area(images[j]);
      assert r[k].width * r[k].height == Area(images[k]);
      InternalSlices(images, j, k);
    } else if !req.splitMaterials {
      ExternalSurfaceAt(active, req, k);
      MulMonotone(req.width * req.height, 1, |images|);
    }
  }

  /** As written, every surface of a split external layout with a non-empty
      size starts at the end of the pixel arena, so its slice lies wholly
      outside it, and all surfaces share the same slice. */
  lemma SplitSurfacesOverrun(active: BObject, req: BakeRequest, k: nat)
    requires FirstMissing(active.slotImage).None?
    requires req.saveMode == External && req.splitMaterials && req.width * req.height > 0
    requires k < |ExpectedSurfaces(active, req)|
    ensures var r := ExpectedSurfaces(active, req);
      r[k].offset == ExpectedPixels(active, req) && r[k].offset + r[k].width * r[k].height > ExpectedPixels(active, req)
    ensures var r := ExpectedSurfaces(active, req);
      forall j :: 0 <= j < |r| ==> r[j].offset == r[k].offset
  {
    ExternalSurfaceAt(active, req, k);
    forall j | 0 <= j < |ExpectedSurfaces(active, req)|
      ensures ExpectedSurfaces(active, req)[j].offset == ExpectedSurfaces(active, req)[k].offset
    {
      ExternalSurfaceAt(active, req, j);
    }
  }

  /** How many objects the render engine bakes: each high-poly source, or the active object. */
  function BakeObjectCount(selected: seq<BObject>, active: BObject, req: BakeRequest): nat {
    if req.selectedToActive then |HighPolySources(selected, active)| else 1
  }

  predicate AllBakesOk(host: Host, n: nat) {
    forall k :: 0 <= k < n ==> host.bakeOk(k)
  }

  /** The number of render-engine calls for `n` objects: they run in order
      and stop after the first failure. */
  function BakeCalls(host: Host, n: nat): (calls: nat)
    ensures calls <= n
  {
    if n == 0 then 0 else if AllBakesOk(host, n - 1) then n else BakeCalls(host, n - 1)
  }

  /** All calls are made exactly when all but possibly the last succeed;
      otherwise the last call made is the first one that failed. */
  lemma {:induction false} BakeCallsStopAtFailure(host: Host, n: nat)
    requires n >= 1
    ensures 1 <= BakeCalls(host, n)
    ensures AllBakesOk(host, BakeCalls(host, n) - 1)
    ensures BakeCalls(host, n) < n ==> !host.bakeOk(BakeCalls(host, n) - 1)
    ensures !AllBakesOk(host, n) ==> !host.bakeOk(BakeCalls(host, n) - 1)
  {
    if !AllBakesOk(host, n - 1) {
      BakeCallsStopAtFailure(host, n - 1);
    }
  }

  /** A first failure at call i ends the calls there, whatever the later answers. */
  lemma {:induction false} BakeCallsAt(host: Host, n: nat, i: nat)
    requires i < n && AllBakesOk(host, i) && !host.bakeOk(i)
    ensures BakeCalls(host, n) == i + 1
  {
    if n - 1 > i {
      assert !AllBakesOk(host, n - 1);
      BakeCallsAt(host, n - 1, i);
    }
  }

  /** Where a write goes: an internal image, or an external file. */
  datatype WriteTarget = ToImage(image: Image?) | ToFile(name: OutputName)

  /** One write attempt of the save loop: the surface, its target, the
      slice of the arena it reads, the steps it performs, and its outcome. */
  datatype WriteAttempt = WriteAttempt(surface: nat, target: WriteTarget, offset: int, width: int, height: int,
                                       plan: WritePlan, ok: bool)

  /** The number of surfaces the save loop attempts: all of them, except
      that a single external file is written once, for surface 0. */
  function AttemptCount(req: BakeRequest, size: nat): (n: nat)
    ensures n <= size
  {
    if req.saveMode == External && !req.splitMaterials then (if size == 0 then 0 else 1) else size
  }

  /** The object's material name of slot i, if there is such a slot and it has one. */
  function MatAt(mats: seq<Option<string>>, i: nat): Option<string> {
    if i < |mats| then mats[i] else None
  }

  /** The write attempt for surface i. An internal write fails exactly when
      the image's buffer cannot be acquired; an external one when the host
      cannot write the file. */
  function WriteFor(active: BObject, req: BakeRequest, host: Host, surface: BakeImage, i: nat): WriteAttempt {
    var noncolor := IsNoncolorPass(req.pass);
    if req.saveMode == Internal then
      WriteAttempt(i, ToImage(surface.image), surface.offset, surface.width, surface.height,
                   InternalWritePlan(req.margin, req.isClear, noncolor, host.spacesDiffer(i)),
                   surface.image != null && surface.image.ibuf.Some?)
    else
      var imageName := if surface.image != null then Some(surface.image.name) else None;
      var name := OutputFileName(req.filepath, req.automaticName, active.name, req.identifier, req.splitMaterials,
                                 imageName, MatAt(active.mat, i), host.meshMaterial(i), i);
      WriteAttempt(i, ToFile(name), surface.offset, surface.width, surface.height,
                   ExternalWritePlan(req.margin, host.floatFormat, noncolor), host.writeOk(i))
  }

  /** The writes of the save loop, in surface order. */
  function ExpectedWrites(active: BObject, req: BakeRequest, host: Host, surfaces: seq<BakeImage>): (w: seq<WriteAttempt>)
    ensures |w| == AttemptCount(req, |surfaces|)
    ensures forall k :: 0 <= k < |w| ==> w[k] == WriteFor(active, req, host, surfaces[k], k)
  {
    seq(AttemptCount(req, |surfaces|), k requires 0 <= k < AttemptCount(req, |surfaces|) =>
      WriteFor(active, req, host, surfaces[k], k))
  }

  /** The first `i` writes of the save loop. */
  function WritesUpTo(active: BObject, req: BakeRequest, host: Host, surfaces: seq<BakeImage>, i: nat): seq<WriteAttempt>
    requires i <= |surfaces|
  {
    if i == 0 then [] else WritesUpTo(active, req, host, surfaces, i - 1) + [WriteFor(active, req, host, surfaces[i - 1], i - 1)]
  }

  lemma {:induction false} WritesUpToComplete(active: BObject, req: BakeRequest, host: Host, surfaces: seq<BakeImage>, i: nat)
    requires i == AttemptCount(req, |surfaces|)
    ensures WritesUpTo(active, req, host, surfaces, i) == ExpectedWrites(active, req, host, surfaces)
  {
    WritesUpToPrefix(active, req, host, surfaces, i);
  }

  lemma {:induction false} WritesUpToPrefix(active: BObject, req: BakeRequest, host: Host, surfaces: seq<BakeImage>, i: nat)
    requires i <= |surfaces|
    ensures |WritesUpTo(active, req, host, surfaces, i)| == i
    ensures forall k :: 0 <= k < i ==> WritesUpTo(active, req, host, surfaces, i)[k] == WriteFor(active, req, host, surfaces[k], k)
  {
    if i > 0 {
      WritesUpToPrefix(active, req, host, surfaces, i - 1);
    }
  }

  lemma SaveReportsAppend(base: seq<Report>, writes: seq<WriteAttempt>, w: WriteAttempt)
    ensures base + SaveReports(writes) + [WriteReport(w)] == base + SaveReports(writes + [w])
  {
    assert (writes + [w])[..|writes|] == writes;
  }

  /** The report a write attempt leaves. */
  function WriteReport(w: WriteAttempt): Report {
    match w.target
    case ToImage(_) =>
      if w.ok then Report(Info, SavedInternally)
      else Report(Error, InternalSaveFailed)
    case ToFile(name) =>
      if w.ok then Report(Info, WrittenTo(name))
      else Report(Error, WriteFailedIn(name))
  }

  /** One report per write attempt, in order. */
  function SaveReports(writes: seq<WriteAttempt>): (r: seq<Report>)
    ensures |r| == |writes|
    ensures forall k :: 0 <= k < |writes| ==> r[k] == WriteReport(writes[k])
  {
    if writes == [] then [] else SaveReports(writes[..|writes| - 1]) + [WriteReport(writes[|writes| - 1])]
  }

  /** The operator's result after the save loop: that of the last attempt;
      cancelled when nothing was attempted. */
  function StatusOf(writes: seq<WriteAttempt>): Status {
    if writes == [] then Cancelled else if writes[|writes| - 1].ok then Finished else Cancelled
  }

  /** A failed write does not stop the loop: how many writes are attempted
      does not depend on their outcomes, and one report is left per attempt. */
  lemma WritesIndependentOfOutcomes(active: BObject, req: BakeRequest, host1: Host, host2: Host, surfaces: seq<BakeImage>)
    ensures |ExpectedWrites(active, req, host1, surfaces)| == |ExpectedWrites(active, req, host2, surfaces)|
    ensures |SaveReports(ExpectedWrites(active, req, host1, surfaces))| == |ExpectedWrites(active, req, host1, surfaces)|
  {
  }

  /** An internal bake that gets past the checks and whose render calls
      succeed writes every surface, succeeds on each, and finishes. */
  lemma {:induction false} InternalBakeFinishes(main: Main, active: BObject, selected: seq<BObject>, req: BakeRequest, host: Host)
    requires active.Valid() && req.saveMode == Internal
    requires ExpectedExit(main, active, selected, req) == Baked
    ensures var w := ExpectedWrites(active, req, host, ExpectedSurfaces(active, req));
      |w| == |Dedup(active.slotImage)| >= 1 && (forall k :: 0 <= k < |w| ==> w[k].ok) && StatusOf(w) == Finished
  {
    var s := active.slotImage;
    var images := Dedup(s);
    DedupAllSet(s);
    DedupMembers(s);
    assert s[0] in images;
    var w := ExpectedWrites(active, req, host, ExpectedSurfaces(active, req));
    assert Unbuffered(images).None?;
    forall k | 0 <= k < |w|
      ensures w[k].ok
    {
      assert ExpectedSurfaces(active, req)[k].image == images[k];
    }
  }

  /** The zero-material case of an external single-file bake, as written:
      the slot table is empty, so the arena is empty and nothing is written,
      and the operator reports no failure but is cancelled. */
  lemma ZeroMaterialsWritesNothing(active: BObject, req: BakeRequest, host: Host)
    requires active.Valid() && |active.slotImage| == 0
    requires req.saveMode == External && !req.splitMaterials
    ensures FirstMissing(active.slotImage).None?
    ensures ExpectedPixels(active, req) == 0
    ensures ExpectedWrites(active, req, host, ExpectedSurfaces(active, req)) == []
    ensures StatusOf(ExpectedWrites(active, req, host, ExpectedSurfaces(active, req))) == Cancelled
  {
    assert Dedup(active.slotImage) == [];
  }

  /** A single external file is named without a material discriminator and
      written once, from surface 0. */
  lemma SingleFileWrittenOnce(active: BObject, req: BakeRequest, host: Host, surfaces: seq<BakeImage>)
    requires req.saveMode == External && !req.splitMaterials && |surfaces| >= 1
    ensures var w := ExpectedWrites(active, req, host, surfaces);
      |w| == 1 && w[0].surface == 0 && w[0].target.ToFile? &&
      |w[0].target.name.suffixes| == (if req.automaticName then 2 else 0)
  {
  }

  /** The operator always bakes to internal images: every write it can
      attempt goes to an image, whatever save mode the user chose. */
  lemma OperatorWritesInternally(props: OperatorProps, passIdentifier: string, selected: seq<BObject>,
                                 active: BObject, host: Host, surfaces: seq<BakeImage>)
    ensures var w := ExpectedWrites(active, InitApiData(props, passIdentifier, selected).request, host, surfaces);
      |w| == |surfaces| && forall k :: 0 <= k < |w| ==> w[k].target.ToImage?
  {
  }

  /** What is set up when bake() reaches its cleanup: whether is_highpoly
      is set (it is set before the cage check), whether the high-poly array
      was allocated, whether a cage object was found, and whether its
      restrict flag was saved. */
  datatype CleanupState = CleanupState(isHighpoly: bool, highpolyAllocated: bool, cageFound: bool, cageFlagSaved: bool)

  function StateAtCleanup(exit: Exit, selectedToActive: bool, cage: CageLookup): CleanupState {
    var pastSelection := exit == NoCage || exit == Baked;
    CleanupState(
      selectedToActive && pastSelection,
      selectedToActive && exit == Baked,
      pastSelection && (cage.CageNotMesh? || cage.CageFound?),
      exit == Baked && cage.CageFound?)
  }

  /** The two optional parts of cleanup: walking the high-poly array to
      restore its objects, and restoring the cage's restrict flag. */
  datatype CleanupSteps = CleanupSteps(walkHighPoly: bool, restoreCage: bool)

  predicate ReadsOnlyInitialised(st: CleanupState, steps: CleanupSteps) {
    (steps.walkHighPoly ==> st.highpolyAllocated) && (steps.restoreCage ==> st.cageFlagSaved)
  }

  /** The cage lookups an exit can go with. */
  predicate Consistent(exit: Exit, cage: CageLookup) {
    (exit == NoCage ==> cage.CageNotFound? || cage.CageNotMesh?) &&
    (exit == Baked ==> cage.NoCageRequested? || cage.CageFound?)
  }

  /** Cleanup as written: it walks the high-poly array whenever is_highpoly
      is set and restores the cage whenever one was found. */
  function CleanupAsWritten(st: CleanupState): CleanupSteps {
    CleanupSteps(st.isHighpoly, st.cageFound)
  }

  /** As written, cleanup reads uninitialised data exactly on the
      "No valid cage object" exit when baking from selected objects (the
      high-poly array was never allocated) or when the named cage exists but
      is not a mesh (its restrict flag was never saved). */
  lemma CleanupAsWrittenUnsafe(exit: Exit, selectedToActive: bool, cage: CageLookup)
    requires Consistent(exit, cage)
    ensures var st := StateAtCleanup(exit, selectedToActive, cage);
      !ReadsOnlyInitialised(st, CleanupAsWritten(st)) <==> exit == NoCage && (selectedToActive || cage.CageNotMesh?)
  {
  }

  /** Cleanup restoring only what was set up. */
  function CleanupCorrected(st: CleanupState): CleanupSteps {
    CleanupSteps(st.highpolyAllocated, st.cageFlagSaved)
  }

  /** The corrected cleanup never reads uninitialised data, and on every
      path where the written one is safe it does the same. */
  lemma CleanupCorrectedSafe(exit: Exit, selectedToActive: bool, cage: CageLookup)
    requires Consistent(exit, cage)
    ensures var st := StateAtCleanup(exit, selectedToActive, cage);
      ReadsOnlyInitialised(st, CleanupCorrected(st))
    ensures var st := StateAtCleanup(exit, selectedToActive, cage);
      ReadsOnlyInitialised(st, CleanupAsWritten(st)) ==> CleanupCorrected(st) == CleanupAsWritten(st)
  {
  }

  /** One concrete run: baking from selected objects with a cage name that
      names a camera leaves for cleanup with neither the high-poly array
      nor the cage's saved flag set up, and cleanup as written reads both. */
  lemma CleanupAsWrittenExample(camera: BObject)
    requires !camera.isMesh
    ensures var st := StateAtCleanup(NoCage, true, CageNotMesh(camera));
      CleanupAsWritten(st) == CleanupSteps(true, true) && !st.highpolyAllocated && !st.cageFlagSaved
  {
  }
}
