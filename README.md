# Texture bake operator: bookkeeping model

A Dafny model of the bookkeeping layer of Blender's texture-bake operator
(`object_bake_api.c`). The operator bakes a render pass of the active
object into image textures. One variant bakes the active object itself.
The other, "selected to active", bakes the other selected objects onto it,
optionally through a cage object.

The model covers what the operator does itself:

- **Surface table.** `build_image_lookup` finds the image of every material
  slot. It keeps each distinct image once, in order of first appearance, and
  maps every slot to its image's entry. It uses the images' `LIB_DOIT` tag as
  the "already listed" set.
- **Pixel arena.** Internal bakes pack the images one after another by
  buffer size (`initialize_internal_images`). External bakes give every
  surface the requested size.
- **Checks.** `bake()` runs its checks in order: materials, images, pixels,
  selected objects, cage. Every failed check reports before it leaves, except
  one case of the pixel check: when every image has a buffer but the areas
  sum to 0, bake leaves without a report (444-446).
- **Temporary scene edits.**
  - Choosing the high-poly sources, saving their restrict flags and letting
    them render.
  - Swapping in a cage modifier stack without Edge Split.
  - Clearing the Multires render bit while re-evaluating for tangent space.
  - Hiding the active object or the cage from rendering.
- **Render calls.** They run in order and stop at the first failure.
- **Normal conversion.** Which conversion runs.
- **Output.** File names, and the save loop with its reports and final status.
- **Cleanup.** It restores every restrict flag that bake changed.
- **Settings.** The flag derivation of `bake_init_api_data`.

Objects, images and modifiers are classes whose mutable fields are the ones
the operator changes:

- `restrictflag` (8 bits);
- the modifier list and each modifier's `mode` (32 bits);
- the image tag.

The surface table (`BakeImages`) keeps its two arrays. Reports go to a
`ReportList` that only grows.

Foreign code is represented by parameters (`BakeSpec.Host`):

- whether render-engine call `k` succeeds;
- whether writing external file `k` succeeds;
- the evaluated mesh's material names;
- whether the output format is floating point;
- for internal write `k`, whether the buffer's colour space differs from
  scene linear.

An image's buffer is a fixed attribute of the image: present, with its
dimensions, or absent.

The specification functions in `BakeSpec` state, from the inputs alone,
what `bake()` does:

- `ExpectedExit`, `ExitReports`: which exit it takes and what it reports;
- `ExpectedSurfaces`, `ExpectedPixels`, `ExpectedLookup`: the table, arena
  and slot map it builds;
- `BakeCalls`: how many render calls it makes;
- `ExpectedWrites`, `SaveReports`, `StatusOf`: the writes it attempts, their
  reports and the operator's result.

`BakeOperator.Bake` is proved against them. Every object of the file, every
selected object and the cage also end with the restrict flag and modifier
list they began with. The active object's modifiers end with their original
modes, and no other modifier is in the method's frame.

Three details of the code shape the model:

- **Every slot needs an image.** `build_image_lookup` runs for every save
  mode, including an external single-file bake (438-439), and fails on the
  first slot without an image.
- **Numeric fallback discriminator.** It is printed with `%d`, so it has no
  leading zeros (762).
- **Margin.** An internal write builds the mask when the margin is positive
  or the image is not cleared (118), but dilates only for a positive margin
  (170).

Three behaviours of the code are reproduced as written:

- An external bake with split materials gives every surface the offset
  `num_pixels`, the size of the whole arena (455-460). `BakeOperator.Bake`
  and `BakeSpec.ExpectedSurfaces` keep that offset;
  `BakeSpec.SplitSurfacesOverrun` shows that every such slice then lies past
  the end of the arena (see Findings).
- An external single-file bake of an object with no material slots lays out
  no surface and writes nothing, so the save loop adds no report and leaves
  the result cancelled (`BakeSpec.ZeroMaterialsWritesNothing`). Earlier
  checks and a failed render call still report as usual.
- The operator always bakes internally, because `bake_init_api_data` forces
  the save mode (`BakeSettings.InitApiData`,
  `BakeSpec.OperatorWritesInternally`). `bake()` itself still implements
  external saving, and the model covers it.

## Model

| member | source | states |
|---|---|---|
| BakeTypes.ReportList.Add | source/blender/editors/object/object_bake_api.c:485 | A report is appended after all earlier ones, which stay as they were. |
| BakeTypes.RenderDisabledOverrides | source/blender/editors/object/object_bake_api.c:600-642 | Hiding an object from rendering gives the same flag whether it was renderable or already hidden, and leaves every other bit alone. |
| DecimalFormat.Decimal | source/blender/editors/object/object_bake_api.c:762 | `%d` of a non-negative number is a non-empty string of digits without a leading zero. |
| DecimalFormat.ParseDecimalOfDecimal | source/blender/editors/object/object_bake_api.c:762 | Reading back the printed digits gives the number. |
| DecimalFormat.DecimalLength | source/blender/editors/object/object_bake_api.c:761-762 | A number below 10^k prints in at most k digits. |
| BakeSettings.NormalDispatchNone | source/blender/editors/object/object_bake_api.c:652-705 | No conversion runs exactly when the pass is not the normal pass, the space is none of world/object/tangent, or the space is world with swizzle +X +Y +Z. |
| BakeSettings.NormalDispatchTangent | source/blender/editors/object/object_bake_api.c:673-700 | Tangent conversion runs exactly for the normal pass in tangent space. It re-evaluates the object without Multires exactly when not baking from selected objects. |
| BakeSettings.InternalWritePlan | source/blender/editors/object/object_bake_api.c:102-181 | An internal write builds the mask exactly when a later step reads it (margin > 0 or not cleared). It colour-transforms exactly for colour passes whose buffer colour space differs from scene linear (137), copies only masked pixels exactly when not cleared, and dilates exactly when margin > 0. |
| BakeSettings.ExternalWritePlan | source/blender/editors/object/object_bake_api.c:182-243 | An external write always copies the whole buffer. It colour-transforms exactly for colour passes into byte formats. It builds the mask and dilates exactly when margin > 0. |
| BakeSettings.NoncolorNeverTransformed | source/blender/editors/object/object_bake_api.c:245-255 | The seven non-colour passes are never colour-managed, whether written internally or externally. |
| BakeSettings.InitApiData | source/blender/editors/object/object_bake_api.c:837-881 | The request always saves internally. Split materials is set exactly for an external save with the split option. The identifier is the pass name exactly for an external save with automatic naming. Selected objects are collected only for selected-to-active. The file path is empty. |
| OutputNames.OutputFileName | source/blender/editors/object/object_bake_api.c:741-766 | An output name is the template, then object name and identifier exactly with automatic naming, then exactly one discriminator, last, exactly when splitting. |
| OutputNames.DiscriminatorOrder | source/blender/editors/object/object_bake_api.c:748-765 | The discriminator is the first available of: image name, object material name, mesh material name. |
| OutputNames.NumericDiscriminator | source/blender/editors/object/object_bake_api.c:759-763 | The numeric fallback is 1 to 3 digits, so it fits the 4-byte buffer with its terminator. It reads back as the index modulo 1000. |
| OutputNames.NumericNamesDistinct | source/blender/editors/object/object_bake_api.c:759-763 | Two numeric-fallback names are equal exactly when their indices agree modulo 1000. |
| ImageLookup.BakeImages.constructor | source/blender/editors/object/object_bake_api.c:434-436 | Both tables have one zero-filled entry per material slot, and no surface is in use. |
| ImageLookup.FirstMissing | source/blender/editors/object/object_bake_api.c:266-284 | This is the first slot without an image, if any: every earlier slot has one. None means every slot has one. |
| ImageLookup.DedupMembers | source/blender/editors/object/object_bake_api.c:264-302 | Every slot's image is in the table. Every table entry is some slot's image. No image is listed twice. |
| ImageLookup.SlotEntry | source/blender/editors/object/object_bake_api.c:286-299 | Every slot's index lies inside the table and points at that slot's own image. |
| ImageLookup.DedupFirstAppearance | source/blender/editors/object/object_bake_api.c:294-299 | The table lists images in the order of their first appearance among the slots. |
| ImageLookup.FirstMissingAt | source/blender/editors/object/object_bake_api.c:270-283 | A slot without an image, after slots that all have one, is the first missing slot. |
| ImageLookup.ClearImageTags | source/blender/editors/object/object_bake_api.c:264 | After clearing, no image of the file is tagged. |
| ImageLookup.FindListed | source/blender/editors/object/object_bake_api.c:287-292 | The inner search returns the first of the earlier entries that holds the image. |
| ImageLookup.LookupStateComplete | source/blender/editors/object/object_bake_api.c:300-302 | Once the loop has handled every slot, the table is the distinct slot images in first-appearance order. Every slot maps to its image's entry, and exactly the listed images are tagged. |
| ImageLookup.LookupSlot | source/blender/editors/object/object_bake_api.c:286-299 | One loop pass keeps the invariant for one more slot. Only image fields of the table and this slot's map entry change. |
| ImageLookup.ListedSlot | source/blender/editors/object/object_bake_api.c:286-293 | A slot whose image is already tagged maps to that image's existing entry. Only its own map entry changes. |
| ImageLookup.NewSlot | source/blender/editors/object/object_bake_api.c:294-299 | A slot whose image is untagged appends and tags the image and maps to the new entry. Nothing else in the table changes. |
| ImageLookup.LookupSlots | source/blender/editors/object/object_bake_api.c:266-300 | The slot loop stops at the first slot without an image, or after the last slot, with the lookup invariant holding for the slots handled. |
| ImageLookup.BuildImageLookup | source/blender/editors/object/object_bake_api.c:257-304 | It succeeds exactly when every slot has an image. On success the size is the number of distinct images, the table lists them in first-appearance order, every slot maps to its own image's entry, and exactly those images are tagged. On failure there is one report for the first slot without an image, naming the object's material, else the mesh's, else only the index, and the size is unchanged. Only image fields of the table are written. On success, entries past the new size are untouched. On failure, the slot map is untouched from the first missing slot on, the table is untouched past the images listed so far, and exactly those images are tagged. |
| PixelLayout.Unbuffered | source/blender/editors/object/object_bake_api.c:314-332 | This is the first image whose buffer cannot be acquired, if any. None means every image has a buffer. |
| PixelLayout.PlaceSurface | source/blender/editors/object/object_bake_api.c:318-331 | A surface is placed exactly when its image has a buffer. It takes the buffer's size at the running total, and the total grows by its area. Otherwise the table and total are unchanged. |
| PixelLayout.PlaceBuffered | source/blender/editors/object/object_bake_api.c:314-334 | The loop places surfaces in order, each at the sum of the areas before it, and stops at the first image without a buffer or at the end. |
| PixelLayout.LayoutStops | source/blender/editors/object/object_bake_api.c:314-335 | If the loop stops early, it stops at the first unbuffered image. The total is the sum of all areas exactly when it runs to the end. |
| PixelLayout.InitializeInternalImages | source/blender/editors/object/object_bake_api.c:309-336 | If every image has a buffer, each surface takes its buffer size at the sum of the areas before it, and the result is the sum of all areas. Otherwise it returns 0 with one "Not initialized image" report naming the first unbuffered image, and the surfaces before it are already placed. |
| PixelLayout.InternalSlices | source/blender/editors/object/object_bake_api.c:324-326 | Every internal slice lies inside the total, and the slices of two surfaces never overlap. |
| PixelLayout.ExternalSplitOverrun | source/blender/editors/object/object_bake_api.c:455-460 | As written, a split surface's slice starts at the end of the arena and overruns it. |
| PixelLayout.ExternalSplitOverrunExample | source/blender/editors/object/object_bake_api.c:455-460 | With one 1x1 split surface, the slice starts at pixel 1 of a 1-pixel arena. |
| PixelLayout.ExternalSlices | source/blender/editors/object/object_bake_api.c:455-460 | With corrected offsets, every external slice lies inside the arena, and split slices never overlap. |
| PixelLayout.ApplyExternalLayout | source/blender/editors/object/object_bake_api.c:452-469 | The arena is width x height per surface. Every surface gets the requested size and no image. Its offset is, as written, the arena size `num_pixels` with split materials and 0 without. Without split materials, every slot maps to surface 0. Nothing else changes. |
| HighPoly.HighPolySourcesMembers | source/blender/editors/object/object_bake_api.c:562-569 | The sources are exactly the selected objects other than the active one. |
| HighPoly.HighPolySourcesAppend | source/blender/editors/object/object_bake_api.c:562-595 | Selection order is kept: the sources of a concatenation are those of each part, in turn. |
| HighPoly.HighPolySourcesDistinct | source/blender/editors/object/object_bake_api.c:562-595 | A selection without repeats gives sources without repeats. |
| HighPoly.CountHighPoly | source/blender/editors/object/object_bake_api.c:471-483 | The count is the number of high-poly sources. |
| HighPoly.PopulateHighPoly | source/blender/editors/object/object_bake_api.c:562-595 | There is one entry per source, in selection order, holding the source's restrict flag from before. Every source is made renderable. The active object is untouched, and so are all modifier lists, because the temporary triangulate modifier of 578 is not modelled. |
| HighPoly.AddSource | source/blender/editors/object/object_bake_api.c:566-587 | A selected object other than the active one gets an entry with its current flag and is made renderable. The active object is skipped. |
| HighPoly.RestoreHighPoly | source/blender/editors/object/object_bake_api.c:795-799 | Every source gets its saved restrict flag back. |
| HighPoly.FindObjectByName | source/blender/editors/object/object_bake_api.c:496 | The first object with the name, or none when no object has it. |
| ModifierStack.CageStackContents | source/blender/editors/object/object_bake_api.c:537-552 | The cage stack holds no Edge Split and keeps every other modifier. It is shorter by exactly the number of Edge Splits. |
| ModifierStack.CageStackAppend | source/blender/editors/object/object_bake_api.c:537-552 | Dropping Edge Splits commutes with concatenation, so the kept modifiers stay in order. |
| ModifierStack.CageStackNoEdgeSplit | source/blender/editors/object/object_bake_api.c:537-552 | A stack without Edge Split is its own cage stack. |
| ModifierStack.SubstituteCageModifiers | source/blender/editors/object/object_bake_api.c:534-555 | The object's stack becomes fresh copies, by type and name, of the original stack without Edge Splits, in order. The original list is handed back and the restrict flag is untouched. |
| ModifierStack.CopyForCage | source/blender/editors/object/object_bake_api.c:545-551 | Every modifier but an Edge Split gets one fresh copy, appended. |
| ModifierStack.FirstOfKind | source/blender/editors/object/object_bake_api.c:684 | The first modifier of the type, or none when no modifier has it. |
| ModifierStack.EvaluateWithoutMultires | source/blender/editors/object/object_bake_api.c:680-698 | Evaluation sees the first Multires modifier's mode with the render bit cleared. Every mode is back to its old value afterwards. |
| BakeSpec.SurfaceExit | source/blender/editors/object/object_bake_api.c:413-446 | The image checks end the bake only through the no-material, missing-image or no-pixel exit. |
| BakeSpec.SurfacesInArena | source/blender/editors/object/object_bake_api.c:441-469 | For internal bakes and external single-file bakes, every surface's slice lies inside the pixel arena. Internal slices never overlap. |
| BakeSpec.ExternalSurfaceAt | source/blender/editors/object/object_bake_api.c:455-460 | Every external surface has the requested size, no image, and the as-written offset. |
| BakeSpec.SplitSurfacesOverrun | source/blender/editors/object/object_bake_api.c:455-460 | In an external split bake of a non-empty size, every surface starts at the arena's end, all at the same offset, so each slice lies past the arena. |
| BakeSpec.BakeCalls | source/blender/editors/object/object_bake_api.c:607-620 | There are never more calls than objects. |
| BakeSpec.BakeCallsStopAtFailure | source/blender/editors/object/object_bake_api.c:607-620 | Every call before the last succeeded. The last call made failed whenever the calls stop early or not all succeed. |
| BakeSpec.BakeCallsAt | source/blender/editors/object/object_bake_api.c:607-620 | A first failure at call i makes i + 1 calls, whatever later calls would answer. |
| BakeSpec.ExpectedWrites | source/blender/editors/object/object_bake_api.c:711-789 | Surfaces are attempted in index order, all of them except that a single external file is attempted once. Attempt k is the write of surface k. |
| BakeSpec.SaveReports | source/blender/editors/object/object_bake_api.c:724-783 | There is one report per write attempt, in order. |
| BakeSpec.WritesIndependentOfOutcomes | source/blender/editors/object/object_bake_api.c:711-789 | A failed write does not stop the loop: the number of attempts and reports does not depend on write outcomes. |
| BakeSpec.InternalBakeFinishes | source/blender/editors/object/object_bake_api.c:713-735 | An internal bake that passes the checks writes every distinct image, each write succeeds, and the result is finished. |
| BakeSpec.ZeroMaterialsWritesNothing | source/blender/editors/object/object_bake_api.c:428-432 | An external single-file bake with no material slots has an empty arena and writes nothing, so it ends cancelled. |
| BakeSpec.SingleFileWrittenOnce | source/blender/editors/object/object_bake_api.c:785-787 | A single external file is written once, from surface 0, with no discriminator suffix. |
| BakeSpec.OperatorWritesInternally | source/blender/editors/object/object_bake_api.c:880 | Every write the operator can attempt goes to an image, whatever save mode was chosen. |
| BakeSpec.CleanupAsWrittenUnsafe | source/blender/editors/object/object_bake_api.c:793-816 | As written, cleanup reads data that was never set up exactly on the no-valid-cage exit, when baking from selected objects or when the cage is not a mesh. |
| BakeSpec.CleanupCorrectedSafe | source/blender/editors/object/object_bake_api.c:793-816 | The corrected cleanup never reads data that was not set up. It agrees with the written one wherever that one is safe. |
| BakeSpec.CleanupAsWrittenExample | source/blender/editors/object/object_bake_api.c:495-503 | Selected-to-active with a cage name that finds a camera: cleanup as written walks the unallocated high-poly array and restores the unsaved cage flag. |
| BakeOperator.LayOut | source/blender/editors/object/object_bake_api.c:441-469 | Internally, the arena is the image total. When that is 0 and an image has no buffer, the first such image is reported. Externally, it is the requested size per surface, and every surface has the offset of line 460 as written. The table is the expected one, and a single external file maps every slot to surface 0. |
| BakeOperator.PrepareSurfaces | source/blender/editors/object/object_bake_api.c:413-469 | It takes the expected image-check exit, with its report. Zero materials are refused internally and for split files, with different messages. On success, the table, arena and slot map are the expected ones, with the external offsets of line 460 as written. |
| BakeOperator.FillSurfaces | source/blender/editors/object/object_bake_api.c:438-469 | After allocation, the lookup and layout take the expected exit and build the expected table, arena and slot map, with the external offsets of line 460 as written. |
| BakeOperator.Prepare | source/blender/editors/object/object_bake_api.c:413-508 | It takes the exit of the first failed check, in source order, with exactly that check's report. A bake that goes ahead has the expected surfaces, arena and slot map, with the external offsets of line 460 as written, plus the cage lookup. |
| BakeOperator.RunEngine | source/blender/editors/object/object_bake_api.c:607-620 | It succeeds exactly when every object bakes. The number of calls is the calls up to the first failure. |
| BakeOperator.BakeFromSelected | source/blender/editors/object/object_bake_api.c:520-632 | One high-poly entry per source, with its saved flag. It succeeds exactly when all sources bake, and the calls stop at the first failure. Afterwards every source other than the cage is renderable (586), the active object is hidden (600), the cage is hidden (624), other selected objects keep their flags, the active object's modifier list is put back, and every selected object and the cage keep their modifier lists. |
| BakeOperator.RenderHighPoly | source/blender/editors/object/object_bake_api.c:562-620 | One entry per source with its saved flag, and every source renderable (586). The active object is hidden (600). The calls stop at the first failure, and it succeeds exactly when all sources bake. No modifier list changes. |
| BakeOperator.RevertAfterRender | source/blender/editors/object/object_bake_api.c:622-631 | After the high-poly render calls the cage is hidden from rendering, or, without a cage, the active object's original modifier list is put back. The cage keeps its modifier list. |
| BakeOperator.RenderObjects | source/blender/editors/object/object_bake_api.c:520-648 | It bakes the sources or the active object. It succeeds exactly when every call does, and the calls stop at the first failure. From selected: the sources are renderable, the active object and the cage hidden (586, 600, 624). Otherwise the active object is renderable (642) and a separate cage keeps its flag. Selected objects that are not sources keep their flags. The active object's modifier list is put back, and every selected object and the cage keep theirs. |
| BakeOperator.ConvertNormals | source/blender/editors/object/object_bake_api.c:652-705 | The conversion is the normal-space dispatch. Without Multires no mode changes. Evaluation sees the first Multires modifier without its render bit, and every mode is restored afterwards. |
| BakeOperator.SaveResults | source/blender/editors/object/object_bake_api.c:711-789 | The writes are the expected ones, with one report each. The status is that of the last attempt. |
| BakeOperator.RestoreFlags | source/blender/editors/object/object_bake_api.c:795-816 | Sources, the active object and the cage all get the flags they had when bake started. Other selected objects keep their flags. No modifier list changes. |
| BakeOperator.ConvertAndSave | source/blender/editors/object/object_bake_api.c:652-790 | After the conversion: if a render call failed, one "Problem baking object map" report, nothing written, cancelled. Otherwise the expected writes and their reports, with the status of the last. |
| BakeOperator.RenderAndSave | source/blender/editors/object/object_bake_api.c:520-816 | It renders, converts and saves as expected. The active object, every selected object and the cage end with their original flags and modifier lists. The active object's modifiers end with their original modes. |
| BakeOperator.BakePrepared | source/blender/editors/object/object_bake_api.c:517-816 | After the checks: the expected calls, conversion and writes, and cleanup of what was set up. The active object, every selected object, the cage and every other object passed in end with their original flags and modifier lists. The active object's modifiers end with their original modes. |
| BakeOperator.Bake | source/blender/editors/object/object_bake_api.c:370-834 | Bake takes the expected exit with its reports; an early exit writes nothing and is cancelled. Otherwise the table, arena, calls, conversion, writes, reports and status are the expected ones. External surfaces have the offsets of line 460 as written. Cleanup restores only what was set up. The active object, every selected object and every object of the file end with their original restrict flag and modifier list; this includes a named cage that is not a mesh. The active object's modifiers end with their original modes. |

## Left out

- The render engine and all pixel work are foreign. This covers `RE_bake_pixels_populate*`, `RE_bake_engine`/`RE_bake_internal` and the choice between them, `RE_pass_depth`, `RE_bake_normal_world_to_*`, `RE_bake_mask_fill` and `RE_bake_margin`. The model keeps only each call's success and which conversion and write steps run.
- Colour management, float/byte buffer copies, dithering, `BKE_imbuf_write` and `chmod` are floating-point work and file I/O. An external write's outcome is a parameter.
- `RE_bake_ibuf_clear` (448-449) only changes pixel contents and is not modelled.
- Path expansion (`BKE_makepicstring_from_type`) and suffixing (`BLI_path_suffix`) are foreign. A name is its template plus its ordered suffixes; `FILE_MAX` truncation is not modelled.
- Image buffers are a fixed attribute of each image. Acquiring the same image twice gives the same answer, and locking and releasing are not modelled.
- Mesh creation and freeing, the temporary triangulate modifiers, and the object matrices (574-590, 799-807, 829-830) are geometry and memory work. They are not modelled.
- Memory is not modelled: the pixel arrays, the high-poly array, the surface tables and the temporary modifier copies are not freed. On the exits at 420 and 426 the source frees `bake_images.data` and `bake_images.lookup`, which were never allocated. The model has no table on those paths.
- `modifier_copyData` settings beyond type, name and mode are not modelled.
- The job and UI layer is not part of this model: `bake_modal`, `bake_break`, `bake_invoke`, `bake_startjob`, `bake_freejob`, `bake_set_props`, the operator definition and the global break flag.
- `Bake`: does not restate the Multires mode seen during tangent-space re-evaluation, which `BakeOperator.ConvertNormals` and `BakeOperator.ConvertAndSave` state.
- `BakePrepared`: does not restate the Multires mode seen during re-evaluation, for the same reason.
- `RenderAndSave`: does not restate the Multires mode seen during re-evaluation, for the same reason.
- `InitializeInternalImages`: the running total `tot_size += x * y` (326) is a C `int` and can overflow; the model's integers are unbounded, so its total is the true sum of the areas.
- `InternalSlices`: holds only while the total of 326 stays below 2^31, for the same reason.
- `Area`: computes a buffer's area without the 32-bit overflow of `ibuf->x * ibuf->y` (326).
- `AreaPrefix`: computes the running total without the 32-bit overflow of 326.
- `ApplyExternalLayout`: `num_pixels = width * height * size` (455) is a C `int`, and width and height may each be up to `INT_MAX` (1060-1063); the product's overflow is not modelled.
- `ExpectedPixels`: the external arena size is the unbounded product, without the overflow of 455.
- `SurfacesInArena`: holds only while the products of 326 and 455 stay below 2^31.

## Findings

| source | as written | input that shows it | evidently intended | confidence | as-written member | corrected member |
|---|---|---|---|---|---|---|
| source/blender/editors/object/object_bake_api.c:455-460 | With split materials, every external surface gets offset `num_pixels`, the arena's full size. | External split bake of one surface at 1x1: the slice starts at pixel 1 of a 1-pixel arena. | Surface i starts at width x height x i. The operator model keeps the offset as written (`BakeSpec.SplitSurfacesOverrun`); `PixelLayout.ExternalOffset` is the intended one. | not executed | PixelLayout.ExternalSplitOverrunExample | PixelLayout.ExternalSlices |
| source/blender/editors/object/object_bake_api.c:795-809 | Cleanup walks the high-poly array whenever `is_highpoly` is set. That flag is set at 491, before the cage check, but the array is allocated only at 526. | Selected-to-active with another selected object and a cage name that matches no object. | Restore only the high-poly entries that were set up. | not executed | BakeSpec.CleanupAsWrittenUnsafe | BakeSpec.CleanupCorrectedSafe |
| source/blender/editors/object/object_bake_api.c:814-815 | Cleanup restores the cage's flag whenever a cage object was found. The flag is saved (506) only when the cage is a mesh. | A cage name that finds a camera object. | Restore the cage flag only when it was saved. | not executed | BakeSpec.CleanupAsWrittenExample | BakeSpec.CleanupCorrectedSafe |
