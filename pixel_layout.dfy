/** Where each surface's pixels live in the bake's shared pixel arena:
    internal images are packed one after the other by their buffer sizes
    (initialize_internal_images); external files all get the size chosen in
    the operator's settings. */
module PixelLayout {
  import opened BakeTypes
  import opened ImageLookup

  /** The images of a run of surface-table entries. */
  function SurfaceImages(surfaces: seq<BakeImage>): (images: seq<Image?>)
    ensures |images| == |surfaces|
    ensures forall k :: 0 <= k < |surfaces| ==> images[k] == surfaces[k].image
  {
    seq(|surfaces|, k requires 0 <= k < |surfaces| => surfaces[k].image)
  }

  /** The pixel count of an image's buffer (0 when it has none). */
  function Area(image: Image): nat {
    if image.ibuf.Some? then image.ibuf.value.x * image.ibuf.value.y else 0
  }

  predicate AllSet(images: seq<Image?>) {
    forall k :: 0 <= k < |images| ==> images[k] != null
  }

  /** The pixels taken by the first `k` images. */
  function AreaPrefix(images: seq<Image?>, k: nat): nat
    requires AllSet(images) && k <= |images|
  {
    if k == 0 then 0 else AreaPrefix(images, k - 1) + Area(images[k - 1])
  }

  /** The first image whose buffer cannot be acquired, if any. */
  function Unbuffered(images: seq<Image?>): (r: Option<nat>)
    requires AllSet(images)
    ensures r.Some? ==> r.value < |images| && images[r.value].ibuf.None?
    ensures r.Some? ==> forall j :: 0 <= j < r.value ==> images[j].ibuf.Some?
    ensures r.None? ==> forall j :: 0 <= j < |images| ==> images[j].ibuf.Some?
  {
    if images == [] then None
    else if images[0].ibuf.None? then Some(0)
    else match Unbuffered(images[1..])
      case None => None
      case Some(k) => Some(k + 1)
  }

  /** How many leading surfaces initialize_internal_images lays out. */
  function LaidOut(images: seq<Image?>): (n: nat)
    requires AllSet(images)
    ensures n <= |images|
  {
    match Unbuffered(images)
    case None => |images|
    case Some(j) => j
  }

  /** An internal surface after layout: its image's buffer size, placed at `offset`. */
  function Placed(surface: BakeImage, offset: nat): BakeImage
    requires surface.image != null && surface.image.ibuf.Some?
  {
    surface.(width := surface.image.ibuf.value.x, height := surface.image.ibuf.value.y, offset := offset)
  }

  /** The surface table with its first `i` surfaces placed at their running
      offsets and the rest as they were. */
  function Layout(orig: seq<BakeImage>, images: seq<Image?>, i: nat): (r: seq<BakeImage>)
    requires AllSet(images) && i <= |images| <= |orig|
    requires forall j :: 0 <= j < |images| ==> orig[j].image == images[j]
    requires forall j :: 0 <= j < i ==> images[j].ibuf.Some?
    ensures |r| == |orig|
  {
    seq(|orig|, k requires 0 <= k < |orig| => if k < i then Placed(orig[k], AreaPrefix(images, k)) else orig[k])
  }

  /** The surface table initialize_internal_images leaves: the surfaces up to
      the first image without a buffer are placed. */
  function LaidOutTable(orig: seq<BakeImage>, images: seq<Image?>): (r: seq<BakeImage>)
    requires AllSet(images) && |images| <= |orig|
    requires forall j :: 0 <= j < |images| ==> orig[j].image == images[j]
    ensures |r| == |orig|
  {
    Layout(orig, images, LaidOut(images))
  }

  /** The state of initialize_internal_images after `i` surfaces, each of
      whose images has a buffer; `total` is the running sum. */
  predicate PlacedUpTo(data: seq<BakeImage>, orig: seq<BakeImage>, images: seq<Image?>, i: nat, total: int) {
    AllSet(images) && i <= |images| <= |orig| &&
    (forall j :: 0 <= j < |images| ==> orig[j].image == images[j]) &&
    (forall j :: 0 <= j < i ==> images[j].ibuf.Some?) &&
    total == AreaPrefix(images, i) &&
    data == Layout(orig, images, i)
  }

  lemma PlacedAt(data: seq<BakeImage>, orig: seq<BakeImage>, images: seq<Image?>, i: nat, total: int)
    requires PlacedUpTo(data, orig, images, i, total) && i < |images|
    ensures data[i] == orig[i] && data[i].image == images[i] != null
  {
  }

  /** Placing surface `i` extends the placed prefix by one. */
  lemma PlacedStep(data: seq<BakeImage>, orig: seq<BakeImage>, images: seq<Image?>, i: nat, total: int)
    requires PlacedUpTo(data, orig, images, i, total) && i < |images| && images[i].ibuf.Some?
    ensures data[i].image == images[i]
    ensures PlacedUpTo(data[i := Placed(data[i], total)], orig, images, i + 1, total + Area(images[i]))
  {
    AreaPrefixStep(images, i);
    assert data[i := Placed(data[i], total)] == Layout(orig, images, i + 1);
  }

  /** One step of initialize_internal_images: surface `i`, whose image has a buffer. */
  method PlaceSurface(bi: BakeImages, ghost orig: seq<BakeImage>, ghost images: seq<Image?>, i: nat, total: int)
    returns (placed: bool, total': int)
    requires PlacedUpTo(bi.data[..], orig, images, i, total) && i < |images|
    modifies bi.data
    ensures placed <==> images[i].ibuf.Some?
    ensures placed ==> PlacedUpTo(bi.data[..], orig, images, i + 1, total')
    ensures !placed ==> total' == total && PlacedUpTo(bi.data[..], orig, images, i, total)
  {
    PlacedAt(bi.data[..], orig, images, i, total);
    var image := bi.data[i].image;
    if image.ibuf.None? {
      return false, total;
    }
    PlacedStep(bi.data[..], orig, images, i, total);
    bi.data[i] := Placed(bi.data[i], total);
    placed, total' := true, total + image.ibuf.value.x * image.ibuf.value.y;
  }

  /** Where initialize_internal_images stops: at the end, or at the first
      image without a buffer. */
  lemma LayoutStops(data: seq<BakeImage>, orig: seq<BakeImage>, images: seq<Image?>, i: nat, total: int)
    requires PlacedUpTo(data, orig, images, i, total) && (i == |images| || images[i].ibuf.None?)
    ensures LaidOut(images) == i
    ensures Unbuffered(images).None? <==> i == |images|
    ensures i < |images| ==> Unbuffered(images) == Some(i) && data[i].image == images[i]
    ensures Unbuffered(images).None? ==> total == AreaPrefix(images, |images|)
    ensures data == LaidOutTable(orig, images)
  {
    if i < |images| {
      UnbufferedAt(images, i);
    }
  }

  /** initialize_internal_images: each surface takes its image's buffer size
      and starts where the previous surfaces end; returns the total pixel
      count, or reports the first image without a buffer and returns 0. */
  method InitializeInternalImages(bi: BakeImages, reports: ReportList) returns (total: int)
    requires 0 <= bi.size <= bi.data.Length
    requires AllSet(SurfaceImages(bi.data[..bi.size]))
    modifies bi.data, reports
    ensures var images := SurfaceImages(old(bi.data[..bi.size]));
      Unbuffered(images).None? ==> total == AreaPrefix(images, |images|) && reports.items == old(reports.items)
    ensures var images := SurfaceImages(old(bi.data[..bi.size]));
      Unbuffered(images).Some? ==>
        total == 0 && reports.items == old(reports.items) + [Report(Error, NotInitialized(images[Unbuffered(images).value].name))]
    ensures bi.data[..] == LaidOutTable(old(bi.data[..]), SurfaceImages(old(bi.data[..bi.size])))
  {
    ghost var images := SurfaceImages(bi.data[..bi.size]);
    ghost var orig := bi.data[..];
    assert bi.data[..] == Layout(orig, images, 0);
    var i;
    i, total := PlaceBuffered(bi, orig, images);
    LayoutStops(bi.data[..], orig, images, i, total);
    if i < bi.size {
      ghost var laidOut := bi.data[..];
      var name := bi.data[i].image.name;
      reports.Add(Report(Error, NotInitialized(name)));
      assert bi.data[..] == laidOut;
      return 0;
    }
  }

  /** The placing loop of initialize_internal_images: surfaces are laid out
      in order until one has no image buffer or all are placed. */
  method PlaceBuffered(bi: BakeImages, ghost orig: seq<BakeImage>, ghost images: seq<Image?>) returns (i: nat, total: int)
    requires PlacedUpTo(bi.data[..], orig, images, 0, 0) && |images| == bi.size
    modifies bi.data
    ensures PlacedUpTo(bi.data[..], orig, images, i, total)
    ensures i == |images| || images[i].ibuf.None?
  {
    total := 0;
    i := 0;
    var placed := true;
    while placed && i < bi.size
      invariant 0 <= i <= bi.size == |images|
      invariant PlacedUpTo(bi.data[..], orig, images, i, total)
      invariant !placed ==> i < |images| && images[i].ibuf.None?
      decreases bi.size - i, placed
    {
      placed, total := PlaceSurface(bi, orig, images, i, total);
      if placed {
        i := i + 1;
      }
    }
  }

  lemma UnbufferedAt(images: seq<Image?>, i: nat)
    requires AllSet(images) && i < |images| && images[i].ibuf.None?
    requires forall j :: 0 <= j < i ==> images[j].ibuf.Some?
    ensures Unbuffered(images) == Some(i)
  {
    if i > 0 {
      UnbufferedAt(images[1..], i - 1);
    }
  }

  lemma {:induction false} AreaPrefixMonotone(images: seq<Image?>, j: nat, k: nat)
    requires AllSet(images) && j <= k <= |images|
    ensures AreaPrefix(images, j) <= AreaPrefix(images, k)
  {
    if j < k {
      AreaPrefixMonotone(images, j, k - 1);
    }
  }

  lemma AreaPrefixStep(images: seq<Image?>, k: nat)
    requires AllSet(images) && k < |images|
    ensures AreaPrefix(images, k + 1) == AreaPrefix(images, k) + Area(images[k])
  {
  }

  /** Every internal surface's slice [offset, offset + width * height) lies
      inside the total, and the slices of two surfaces never overlap. */
  lemma {:induction false} InternalSlices(images: seq<Image?>, j: nat, k: nat)
    requires AllSet(images) && j <= k < |images|
    ensures j < k ==> AreaPrefix(images, j) + Area(images[j]) <= AreaPrefix(images, k)
    ensures AreaPrefix(images, k) + Area(images[k]) <= AreaPrefix(images, |images|)
  {
    AreaPrefixStep(images, j);
    AreaPrefixStep(images, k);
    if j < k {
      AreaPrefixMonotone(images, j + 1, k);
    }
    AreaPrefixMonotone(images, k + 1, |images|);
  }

  /** The offset external layout gives every surface, as written: the total
      pixel count when splitting by material, 0 otherwise. */
  function ExternalOffsetAsWritten(width: nat, height: nat, size: nat, split: bool): nat {
    if split then width * height * size else 0
  }

  /** As written, with split materials every surface's slice starts at the
      end of the arena, so the slice of any non-empty surface overruns it. */
  lemma ExternalSplitOverrun(width: nat, height: nat, size: nat)
    requires width * height > 0 && size > 0
    ensures ExternalOffsetAsWritten(width, height, size, true) + width * height > width * height * size
  {
  }

  /** The smallest case: one 1x1 surface starts at pixel 1 of a 1-pixel arena. */
  lemma ExternalSplitOverrunExample()
    ensures ExternalOffsetAsWritten(1, 1, 1, true) == 1
    ensures ExternalOffsetAsWritten(1, 1, 1, true) + 1 > 1 * 1 * 1
  {
  }

  /** The offset of surface `k` in external layout: with split materials,
      each surface gets its own width x height slice in table order; without,
      every surface shares the slice at 0. */
  function ExternalOffset(width: nat, height: nat, split: bool, k: nat): nat {
    if split then width * height * k else 0
  }

  /** Every external surface's slice lies inside the arena of
      width * height * size pixels, and with split materials no two overlap. */
  lemma {:induction false} ExternalSlices(width: nat, height: nat, split: bool, size: nat, j: nat, k: nat)
    requires j < k < size || (j == k && k < size)
    ensures ExternalOffset(width, height, split, k) + width * height <= width * height * size
    ensures split && j < k ==> ExternalOffset(width, height, split, j) + width * height <= ExternalOffset(width, height, split, k)
  {
    var a := width * height;
    MulMonotone(a, k + 1, size);
    if j < k {
      MulMonotone(a, j + 1, k);
    }
    if !split {
      MulMonotone(a, 1, size);
    }
  }

  lemma MulMonotone(a: nat, m: nat, n: nat)
    requires m <= n
    ensures a * m <= a * n
  {
  }

  /** The external branch of bake's layout, as written: every surface gets
      the requested size and no image, and is placed at
      ExternalOffsetAsWritten; without split materials, every material slot
      maps to surface 0. */
  method ApplyExternalLayout(bi: BakeImages, width: nat, height: nat, split: bool, totMaterials: nat)
    returns (numPixels: int)
    requires 0 <= bi.size <= bi.data.Length && totMaterials <= bi.lookup.Length
    modifies bi.data, bi.lookup
    ensures numPixels == width * height * bi.size
    ensures forall k :: 0 <= k < bi.data.Length ==>
      bi.data[k] == if k < bi.size then BakeImage(null, width, height, ExternalOffsetAsWritten(width, height, bi.size, split)) else old(bi.data[k])
    ensures forall k :: 0 <= k < bi.lookup.Length ==>
      bi.lookup[k] == if !split && k < totMaterials then 0 else old(bi.lookup[k])
  {
    numPixels := width * height * bi.size;
    var i := 0;
    while i < bi.size
      invariant 0 <= i <= bi.size
      invariant forall k :: 0 <= k < bi.data.Length ==>
        bi.data[k] == if k < i then BakeImage(null, width, height, ExternalOffsetAsWritten(width, height, bi.size, split)) else old(bi.data[k])
      invariant forall k :: 0 <= k < bi.lookup.Length ==> bi.lookup[k] == old(bi.lookup[k])
    {
      bi.data[i] := BakeImage(null, width, height, if split then numPixels else 0);
      i := i + 1;
    }
    if !split {
      i := 0;
      while i < totMaterials
        invariant 0 <= i <= totMaterials
        invariant forall k :: 0 <= k < bi.lookup.Length ==>
          bi.lookup[k] == if k < i then 0 else old(bi.lookup[k])
        invariant forall k :: 0 <= k < bi.data.Length ==>
          bi.data[k] == if k < bi.size then BakeImage(null, width, height, ExternalOffsetAsWritten(width, height, bi.size, split)) else old(bi.data[k])
      {
        bi.lookup[i] := 0;
        i := i + 1;
      }
    }
  }
}
