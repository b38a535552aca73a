/** The bake request and the small decisions taken from it alone: which
    passes are colour data, which normal-space conversion runs, which steps a
    surface write performs, and how the operator's properties become the
    request (bake_init_api_data). */
module BakeSettings {
  import opened BakeTypes

  /** The pass being baked (ScenePassType). The passes the operator tells
      apart are named; every other pass is `OtherPass`. */
  datatype PassType = Combined | Z | Normal | Vector | IndexOb | UV | RayHits | IndexMa | OtherPass(code: int)

  /** is_noncolor_pass: geometric and index data, which must not be colour managed. */
  predicate IsNoncolorPass(pass: PassType) {
    pass in {Z, Normal, Vector, IndexOb, UV, RayHits, IndexMa}
  }

  /** The space normals are written in (R_BAKE_SPACE_*); any other value,
      such as camera space, is `OtherSpace`. */
  datatype NormalSpace = World | Object | Tangent | OtherSpace(code: int)

  /** A signed axis of the output swizzle (R_BAKE_POSX ... R_BAKE_NEGZ). */
  datatype Axis = PosX | PosY | PosZ | NegX | NegY | NegZ

  datatype Swizzle = Swizzle(r: Axis, g: Axis, b: Axis)

  const IdentitySwizzle := Swizzle(PosX, PosY, PosZ)

  /** The mesh whose tangent frames a tangent-space conversion uses: the one
      the pixels were mapped on, or the active object re-evaluated with its
      multiresolution modifier switched off for rendering. */
  datatype TangentMesh = BakedMesh | WithoutMultires

  /** Which RE_bake_normal_world_to_* conversion runs on the result, if any. */
  datatype NormalConversion = NoConversion | WorldToWorld | WorldToObject | WorldToTangent(mesh: TangentMesh)

  /** The normal-space switch of bake. */
  function NormalDispatch(pass: PassType, space: NormalSpace, swizzle: Swizzle, isHighpoly: bool): NormalConversion {
    if pass != Normal then NoConversion
    else match space
      case World => if swizzle == IdentitySwizzle then NoConversion else WorldToWorld
      case Object => WorldToObject
      case Tangent => WorldToTangent(if isHighpoly then BakedMesh else WithoutMultires)
      case OtherSpace(_) => NoConversion
  }

  /** Normals are left untouched exactly when the pass is not the normal
      pass, the space is not one the operator converts to, or they are
      wanted in world space with the identity swizzle (+X, +Y, +Z). */
  lemma NormalDispatchNone(pass: PassType, space: NormalSpace, swizzle: Swizzle, isHighpoly: bool)
    ensures NormalDispatch(pass, space, swizzle, isHighpoly) == NoConversion <==>
      pass != Normal || space.OtherSpace? || (space == World && swizzle == IdentitySwizzle)
  {
  }

  /** A tangent-space conversion runs exactly for the normal pass in tangent
      space; it re-evaluates the active object without multiresolution
      exactly when the bake is not from selected objects. */
  lemma NormalDispatchTangent(pass: PassType, space: NormalSpace, swizzle: Swizzle, isHighpoly: bool)
    ensures NormalDispatch(pass, space, swizzle, isHighpoly).WorldToTangent? <==> pass == Normal && space == Tangent
    ensures NormalDispatch(pass, space, swizzle, isHighpoly) == WorldToTangent(WithoutMultires) <==>
      pass == Normal && space == Tangent && !isHighpoly
  {
  }

  /** The steps a surface write performs on its pixels: build a coverage
      mask, colour-transform the result, copy only masked pixels instead of
      all of them, and dilate by the margin. */
  datatype WritePlan = WritePlan(mask: bool, transform: bool, maskedCopy: bool, dilate: bool)

  /** A plan is sound when the mask is built exactly when a later step reads it. */
  predicate MaskUsed(p: WritePlan) {
    p.mask <==> p.dilate || p.maskedCopy
  }

  /** write_internal_bake_pixels: a mask when there is a margin or the image
      is not cleared first, a colour transform for colour passes whose image
      buffer is in another colour space than scene linear (`spacesDiffer`,
      decided by colour-management code), a masked copy unless cleared, and
      dilation for a positive margin. */
  function InternalWritePlan(margin: int, isClear: bool, isNoncolor: bool, spacesDiffer: bool): (p: WritePlan)
    ensures MaskUsed(p)
    ensures p.transform <==> !isNoncolor && spacesDiffer
    ensures p.maskedCopy <==> !isClear
    ensures p.dilate <==> margin > 0
  {
    WritePlan(margin > 0 || !isClear, !isNoncolor && spacesDiffer, !isClear, margin > 0)
  }

  /** write_external_bake_pixels: a fresh buffer is always written in full;
      colour passes are transformed only into byte formats; the mask is built
      for, and only for, the margin. */
  function ExternalWritePlan(margin: int, isFloat: bool, isNoncolor: bool): (p: WritePlan)
    ensures MaskUsed(p)
    ensures !p.maskedCopy
    ensures p.transform <==> !isFloat && !isNoncolor
    ensures p.dilate <==> margin > 0
  {
    WritePlan(margin > 0, !isFloat && !isNoncolor, false, margin > 0)
  }

  /** Non-colour passes are never colour managed, whatever the destination. */
  lemma NoncolorNeverTransformed(pass: PassType, margin: int, isClear: bool, spacesDiffer: bool, isFloat: bool)
    requires IsNoncolorPass(pass)
    ensures !InternalWritePlan(margin, isClear, IsNoncolorPass(pass), spacesDiffer).transform
    ensures !ExternalWritePlan(margin, isFloat, IsNoncolorPass(pass)).transform
  {
  }

  /** The parameters bake() receives. */
  datatype BakeRequest = BakeRequest(
    pass: PassType,
    margin: int,
    saveMode: SaveMode,
    isClear: bool,
    splitMaterials: bool,
    automaticName: bool,
    selectedToActive: bool,
    normalSpace: NormalSpace,
    swizzle: Swizzle,
    customCage: string,
    filepath: string,
    width: nat,
    height: nat,
    identifier: string)

  /** The operator's properties as the user set them. */
  datatype OperatorProps = OperatorProps(
    pass: PassType,
    margin: int,
    saveMode: SaveMode,
    useClear: bool,
    useSplitMaterials: bool,
    useAutomaticName: bool,
    useSelectedToActive: bool,
    normalSpace: NormalSpace,
    swizzle: Swizzle,
    width: nat,
    height: nat,
    cage: string)

  /** What bake_init_api_data hands to bake(): the request, and the selected
      objects (collected only when baking from selected to active). */
  datatype ApiData = ApiData(request: BakeRequest, selected: seq<BObject>)

  /** bake_init_api_data. `passIdentifier` is the RNA identifier of the pass
      and `selected` the context's selected objects, both looked up by
      foreign code. */
  function InitApiData(props: OperatorProps, passIdentifier: string, selected: seq<BObject>): (d: ApiData)
    ensures d.request.saveMode == Internal
    ensures d.request.splitMaterials <==> props.saveMode == External && props.useSplitMaterials
    ensures d.request.identifier == if props.saveMode == External && props.useAutomaticName then passIdentifier else ""
    ensures d.selected == if props.useSelectedToActive then selected else []
    ensures d.request.filepath == ""
  {
    var isSaveInternal := props.saveMode == Internal;
    ApiData(
      BakeRequest(
        props.pass, props.margin, Internal, props.useClear,
        !isSaveInternal && props.useSplitMaterials, props.useAutomaticName, props.useSelectedToActive,
        props.normalSpace, props.swizzle, props.cage, "", props.width, props.height,
        if !isSaveInternal && props.useAutomaticName then passIdentifier else ""),
      if props.useSelectedToActive then selected else [])
  }
}
