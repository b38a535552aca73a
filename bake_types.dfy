/** Entities the texture-bake operator works on: images, objects with their
    material slots and modifier stacks, the main database, the report list,
    and the small enumerations it passes around. Fields that the operator
    only reads are `const`; fields it updates in place are `var`. */
module BakeTypes {
  import opened DecimalFormat

  datatype Option<+T> = None | Some(value: T)

  /** Result of an operator: OPERATOR_FINISHED or OPERATOR_CANCELLED. */
  datatype Status = Finished | Cancelled

  /** Where the baked pixels go (R_BAKE_SAVE_INTERNAL / R_BAKE_SAVE_EXTERNAL). */
  datatype SaveMode = Internal | External

  /** Pixel dimensions of an image buffer (ImBuf x and y). */
  datatype Dims = Dims(x: nat, y: nat)

  /** An image data-block. `ibuf` is what acquiring its buffer yields (None
      when the image has no buffer); `doit` is the LIB_DOIT tag bit of its ID. */
  class Image {
    const name: string
    const ibuf: Option<Dims>
    var doit: bool

    constructor (name: string, ibuf: Option<Dims>)
      ensures this.name == name && this.ibuf == ibuf && !doit
    {
      this.name := name;
      this.ibuf := ibuf;
      doit := false;
    }
  }

  /** The modifier types the operator singles out; every other type is `OtherModifier`. */
  datatype ModifierType = EdgeSplit | Multires | Triangulate | OtherModifier(code: int)

  /** A modifier of an object's stack. Its `mode` bits are changed in place. */
  class Modifier {
    const kind: ModifierType
    const name: string
    var mode: bv32

    constructor (kind: ModifierType, name: string, mode: bv32)
      ensures this.kind == kind && this.name == name && this.mode == mode
    {
      this.kind := kind;
      this.name := name;
      this.mode := mode;
    }
  }

  /** eModifierMode_Render (value from Blender's DNA headers, which are not part of this model). */
  const ModeRender: bv32 := 2

  /** OB_RESTRICT_RENDER (value from Blender's DNA headers, which are not part of this model). */
  const RestrictRender: bv8 := 4

  /** A restrict flag with OB_RESTRICT_RENDER cleared: the object renders. */
  function RenderEnabled(flag: bv8): bv8 {
    flag & !RestrictRender
  }

  /** A restrict flag with OB_RESTRICT_RENDER set: the object is hidden from rendering. */
  function RenderDisabled(flag: bv8): bv8 {
    flag | RestrictRender
  }

  /** Hiding an object from rendering overrides any earlier change to the
      render bit, and leaves every other bit alone. */
  lemma RenderDisabledOverrides(flag: bv8)
    ensures RenderDisabled(RenderEnabled(flag)) == RenderDisabled(flag)
    ensures RenderDisabled(RenderDisabled(flag)) == RenderDisabled(flag)
    ensures RenderDisabled(flag) & !RestrictRender == flag & !RestrictRender
  {
  }

  /** An object. For material slot i: `mat[i]` is the name of the material
      linked to the object (ob->mat[i], None for NULL), `meshMat[i]` the name
      of the material linked to its mesh data, and `slotImage[i]` the image
      that the slot's active image texture node resolves to (null when none). */
  class BObject {
    const name: string
    const isMesh: bool
    const mat: seq<Option<string>>
    const meshMat: seq<Option<string>>
    const slotImage: seq<Image?>
    var restrictflag: bv8
    var modifiers: seq<Modifier>

    /** ob->totcol: the object, its mesh and the slot table agree on the slot count. */
    predicate Valid() {
      |mat| == |meshMat| == |slotImage|
    }

    constructor (name: string, isMesh: bool, mat: seq<Option<string>>, meshMat: seq<Option<string>>,
                 slotImage: seq<Image?>, restrictflag: bv8, modifiers: seq<Modifier>)
      ensures this.name == name && this.isMesh == isMesh && this.mat == mat
      ensures this.meshMat == meshMat && this.slotImage == slotImage
      ensures this.restrictflag == restrictflag && this.modifiers == modifiers
    {
      this.name := name;
      this.isMesh := isMesh;
      this.mat := mat;
      this.meshMat := meshMat;
      this.slotImage := slotImage;
      this.restrictflag := restrictflag;
      this.modifiers := modifiers;
    }
  }

  /** The main database: its object list (in list order) and its images. */
  class Main {
    const objects: seq<BObject>
    const images: set<Image>

    constructor (objects: seq<BObject>, images: set<Image>)
      ensures this.objects == objects && this.images == images
    {
      this.objects := objects;
      this.images := images;
    }
  }

  datatype ReportKind = Error | Info

  /** The name of an external output file: the path template the caller
      gave, expanded by foreign code, followed by the suffixes appended to it
      in order, each with a `_` separator. */
  datatype OutputName = OutputName(template: string, suffixes: seq<string>)

  /** The messages the operator reports; Text gives their wording. Messages
      that quote an output file keep the file name structured, since its
      expansion to a path is foreign code. */
  datatype Message =
    | NoImageForInternal
    | NoImageForSplit
    | NoImageInMaterial(index: nat, material: Option<string>)
    | NotInitialized(image: string)
    | NoValidSelected
    | NoValidCage
    | ProblemBaking
    | SavedInternally
    | InternalSaveFailed
    | WrittenTo(file: OutputName)
    | WriteFailedIn(file: OutputName)

  /** The wording of a message; a quoted file name is the `%s`. */
  function Text(m: Message): string {
    match m
    case NoImageForInternal => "No active image found. Add a material or bake to an external file"
    case NoImageForSplit => "No active image found. Add a material or bake without the Split Materials option"
    case NoImageInMaterial(i, material) =>
      "No active image found in material " + Decimal(i) + if material.Some? then " (" + material.value + ")" else ""
    case NotInitialized(image) => "Not initialized image " + image
    case NoValidSelected => "No valid selected objects"
    case NoValidCage => "No valid cage object"
    case ProblemBaking => "Problem baking object map"
    case SavedInternally => "Baking map saved to internal image, save it externally or pack it"
    case InternalSaveFailed =>
      "Problem saving the bake map internally, make sure there is a Texture Image node in the current object material"
    case WrittenTo(_) => "Baking map written to \"%s\"."
    case WriteFailedIn(_) => "Problem saving baked map in \"%s\"."
  }

  datatype Report = Report(kind: ReportKind, message: Message)

  /** The operator's report list; reports are only ever appended. */
  class ReportList {
    var items: seq<Report>

    constructor ()
      ensures items == []
    {
      items := [];
    }

    method Add(r: Report)
      modifies this
      ensures items == old(items) + [r]
    {
      items := items + [r];
    }
  }
}
