/** The surface table of a bake: one entry per distinct image bound to the
    object's material slots, in order of first appearance, and the map from
    each material slot to its entry (build_image_lookup). */
module ImageLookup {
  import opened BakeTypes

  /** One target surface (BakeImage): its image (null for an external file),
      its pixel size, and where its pixels start in the shared pixel arena. */
  datatype BakeImage = BakeImage(image: Image?, width: int, height: int, offset: int)

  /** A zero-filled entry, as the surface table is allocated. */
  const Blank := BakeImage(null, 0, 0, 0)

  /** The surface table (BakeImages): `data` and `lookup` are allocated with
      one entry per material slot; `size` is the number of surfaces in use. */
  class BakeImages {
    const data: array<BakeImage>
    const lookup: array<int>
    var size: int

    constructor (slots: nat)
      ensures fresh(data) && fresh(lookup)
      ensures data.Length == slots && lookup.Length == slots && size == 0
      ensures forall k :: 0 <= k < slots ==> data[k] == Blank && lookup[k] == 0
    {
      data := new BakeImage[slots](_ => Blank);
      lookup := new int[slots](_ => 0);
      size := 0;
    }
  }

  predicate Distinct<T(==)>(s: seq<T>) {
    forall i, j :: 0 <= i < j < |s| ==> s[i] != s[j]
  }

  /** The elements of `s` without repeats, each at its first appearance. */
  function Dedup<T(==)>(s: seq<T>): (d: seq<T>)
    ensures |d| <= |s|
  {
    DedupPrefix(s, |s|)
  }

  /** Dedup of the first `n` elements of `s`. */
  function DedupPrefix<T(==)>(s: seq<T>, n: nat): (d: seq<T>)
    requires n <= |s|
    ensures |d| <= n
  {
    if n == 0 then []
    else
      var d := DedupPrefix(s, n - 1);
      if s[n - 1] in d then d else d + [s[n - 1]]
  }

  /** The position of the first occurrence of `x` in `s`. */
  function IndexOf<T(==)>(s: seq<T>, x: T): (k: nat)
    requires x in s
    ensures k < |s| && s[k] == x
    ensures forall j :: 0 <= j < k ==> s[j] != x
  {
    if s[0] == x then 0 else 1 + IndexOf(s[1..], x)
  }

  /** The first material slot without an image, if any. */
  function FirstMissing(images: seq<Image?>): (r: Option<nat>)
    ensures r.Some? ==> r.value < |images| && images[r.value] == null
    ensures r.Some? ==> forall j :: 0 <= j < r.value ==> images[j] != null
    ensures r.None? ==> forall j :: 0 <= j < |images| ==> images[j] != null
  {
    if images == [] then None
    else if images[0] == null then Some(0)
    else match FirstMissing(images[1..])
      case None => None
      case Some(k) => Some(k + 1)
  }

  lemma IndexOfAppend<T>(d: seq<T>, y: T, x: T)
    requires x in d
    ensures IndexOf(d + [y], x) == IndexOf(d, x)
  {
    var k := IndexOf(d, x);
    var k' := IndexOf(d + [y], x);
    assert (d + [y])[k] == x;
    assert k' <= k;
    assert d[k'] == (d + [y])[k'] == x;
  }

  /** Every element of the prefix is listed, and every listed element comes from the prefix. */
  lemma {:induction false} DedupPrefixMembers<T>(s: seq<T>, n: nat)
    requires n <= |s|
    ensures forall i :: 0 <= i < n ==> s[i] in DedupPrefix(s, n)
    ensures forall k :: 0 <= k < |DedupPrefix(s, n)| ==>
      DedupPrefix(s, n)[k] in s && IndexOf(s, DedupPrefix(s, n)[k]) < n
  {
    if n > 0 {
      DedupPrefixMembers(s, n - 1);
      var d := DedupPrefix(s, n - 1);
      assert s[n - 1] in s;
      if s[n - 1] !in d {
        assert IndexOf(s, s[n - 1]) <= n - 1;
        assert forall k :: 0 <= k < |d| ==> (d + [s[n - 1]])[k] == d[k];
      }
    }
  }

  lemma {:induction false} DedupPrefixDistinct<T>(s: seq<T>, n: nat)
    requires n <= |s|
    ensures Distinct(DedupPrefix(s, n))
  {
    if n > 0 {
      DedupPrefixDistinct(s, n - 1);
    }
  }

  /** The table holds each distinct slot image exactly once: every slot's image
      is listed, every listed image belongs to some slot, and none is listed twice. */
  lemma DedupMembers<T>(s: seq<T>)
    ensures forall i :: 0 <= i < |s| ==> s[i] in Dedup(s)
    ensures forall k :: 0 <= k < |Dedup(s)| ==> Dedup(s)[k] in s
    ensures Distinct(Dedup(s))
  {
    DedupPrefixMembers(s, |s|);
    DedupPrefixDistinct(s, |s|);
  }

  /** Every slot's entry lies inside the table and holds that slot's own image. */
  lemma SlotEntry<T>(s: seq<T>, i: nat)
    requires i < |s|
    ensures s[i] in Dedup(s)
    ensures IndexOf(Dedup(s), s[i]) < |Dedup(s)| && Dedup(s)[IndexOf(Dedup(s), s[i])] == s[i]
  {
    DedupPrefixMembers(s, |s|);
  }

  lemma {:induction false} DedupPrefixOrder<T>(s: seq<T>, n: nat, a: nat, b: nat)
    requires n <= |s| && a < b < |DedupPrefix(s, n)|
    ensures DedupPrefix(s, n)[a] in s && DedupPrefix(s, n)[b] in s
    ensures IndexOf(s, DedupPrefix(s, n)[a]) < IndexOf(s, DedupPrefix(s, n)[b])
  {
    var d := DedupPrefix(s, n);
    var dp := DedupPrefix(s, n - 1);
    if b < |dp| {
      assert d[a] == dp[a] && d[b] == dp[b];
      DedupPrefixOrder(s, n - 1, a, b);
    } else {
      var y := s[n - 1];
      assert d == dp + [y] && d[b] == y && y !in dp;
      assert d[a] == dp[a];
      DedupPrefixMembers(s, n - 1);
      assert IndexOf(s, dp[a]) < n - 1;
      assert IndexOf(s, y) == n - 1 by {
        var k := IndexOf(s, y);
        assert k <= n - 1;
      }
    }
  }

  /** The table lists images in order of their first appearance among the slots. */
  lemma DedupFirstAppearance<T>(s: seq<T>, a: nat, b: nat)
    requires a < b < |Dedup(s)|
    ensures Dedup(s)[a] in s && Dedup(s)[b] in s
    ensures IndexOf(s, Dedup(s)[a]) < IndexOf(s, Dedup(s)[b])
  {
    DedupPrefixOrder(s, |s|, a, b);
  }

  /** The missing-image report names the object's material if it has one,
      else the mesh's, else only the slot index. */
  function MissingImageReport(ob: BObject, i: nat): Report
    requires ob.Valid() && i < |ob.slotImage|
  {
    var material := if ob.mat[i].Some? then ob.mat[i] else ob.meshMat[i];
    Report(Error, NoImageInMaterial(i, material))
  }

  lemma FirstMissingAt(images: seq<Image?>, i: nat)
    requires i < |images| && images[i] == null
    requires forall j :: 0 <= j < i ==> images[j] != null
    ensures FirstMissing(images) == Some(i)
  {
    if i > 0 {
      FirstMissingAt(images[1..], i - 1);
    }
  }

  /** BKE_main_id_tag_idcode(bmain, ID_IM, false): clears the LIB_DOIT tag of every image. */
  method ClearImageTags(main: Main)
    modifies main.images
    ensures forall im :: im in main.images ==> !im.doit
  {
    forall im | im in main.images {
      im.doit := false;
    }
  }

  /** The inner search of build_image_lookup: the first of the first `bound`
      table entries that holds `image`. */
  method FindListed(data: array<BakeImage>, bound: nat, image: Image) returns (j: nat)
    requires bound <= data.Length
    requires exists k :: 0 <= k < bound && data[k].image == image
    ensures j < bound && data[j].image == image
    ensures forall k :: 0 <= k < j ==> data[k].image != image
  {
    j := 0;
    while data[j].image != image
      invariant j < bound
      invariant forall k :: 0 <= k < j ==> data[k].image != image
      decreases bound - j
    {
      j := j + 1;
    }
  }

  /** What build_image_lookup knows after handling the first `i` slots: they
      all have images, the table lists their distinct images `d`, each of them
      maps to its image's entry, and exactly the listed images are tagged. */
  ghost predicate LookupState(main: Main, s: seq<Image?>, i: nat, d: seq<Image?>, totImages: nat, bi: BakeImages)
    reads main.images, bi.data, bi.lookup
  {
    i <= |s| && i <= bi.lookup.Length &&
    (forall j :: 0 <= j < i ==> s[j] != null) &&
    d == DedupPrefix(s, i) && totImages == |d| <= i && totImages <= bi.data.Length &&
    (forall k :: 0 <= k < totImages ==> bi.data[k].image == d[k]) &&
    (forall k :: 0 <= k < i ==> s[k] in d && bi.lookup[k] == IndexOf(d, s[k])) &&
    (forall im :: im in main.images ==> (im.doit <==> im in d))
  }

  /** After the last slot, the state is the one build_image_lookup promises. */
  lemma LookupStateComplete(main: Main, s: seq<Image?>, d: seq<Image?>, totImages: nat, bi: BakeImages)
    requires LookupState(main, s, |s|, d, totImages, bi)
    ensures FirstMissing(s).None?
    ensures totImages == |Dedup(s)|
    ensures forall k :: 0 <= k < totImages ==> bi.data[k].image == Dedup(s)[k]
    ensures forall i :: 0 <= i < |s| ==> s[i] in Dedup(s) && bi.lookup[i] == IndexOf(Dedup(s), s[i])
    ensures forall im :: im in main.images ==> (im.doit <==> im in Dedup(s))
  {
  }

  /** One pass of build_image_lookup's loop for a slot that has an image:
      reuse the entry of an image already tagged, or append and tag a new one. */
  method LookupSlot(main: Main, s: seq<Image?>, i: nat, ghost d: seq<Image?>, totImages: nat, bi: BakeImages)
    returns (totImages': nat, ghost d': seq<Image?>)
    requires i < |s| && s[i] != null && s[i] in main.images
    requires i < bi.data.Length && i < bi.lookup.Length
    requires LookupState(main, s, i, d, totImages, bi)
    modifies bi.data, bi.lookup, main.images
    ensures LookupState(main, s, i + 1, d', totImages', bi) && totImages <= totImages'
    ensures forall k :: 0 <= k < bi.data.Length ==>
      bi.data[k] == old(bi.data[k]).(image := bi.data[k].image)
    ensures forall k :: totImages' <= k < bi.data.Length ==> bi.data[k] == old(bi.data[k])
    ensures forall k :: 0 <= k < bi.lookup.Length && k != i ==> bi.lookup[k] == old(bi.lookup[k])
  {
    if s[i].doit {
      totImages', d' := ListedSlot(main, s, i, d, totImages, bi);
    } else {
      totImages', d' := NewSlot(main, s, i, d, totImages, bi);
    }
  }

  /** A slot whose image is already tagged maps to that image's entry. */
  method ListedSlot(main: Main, s: seq<Image?>, i: nat, ghost d: seq<Image?>, totImages: nat, bi: BakeImages)
    returns (totImages': nat, ghost d': seq<Image?>)
    requires i < |s| && s[i] != null && s[i] in main.images && s[i].doit
    requires i < bi.data.Length && i < bi.lookup.Length
    requires LookupState(main, s, i, d, totImages, bi)
    modifies bi.lookup
    ensures LookupState(main, s, i + 1, d', totImages', bi) && totImages' == totImages
    ensures forall k :: 0 <= k < bi.lookup.Length && k != i ==> bi.lookup[k] == old(bi.lookup[k])
  {
    var image := s[i];
    ghost var listed := IndexOf(d, image);
    assert bi.data[listed].image == image;
    var j := FindListed(bi.data, i, image);
    bi.lookup[i] := j;
    assert j == listed by {
      assert j <= listed && bi.data[j].image == d[j];
    }
    totImages', d' := totImages, d;
  }

  /** A slot whose image is not yet tagged appends the image to the table
      and tags it. */
  method NewSlot(main: Main, s: seq<Image?>, i: nat, ghost d: seq<Image?>, totImages: nat, bi: BakeImages)
    returns (totImages': nat, ghost d': seq<Image?>)
    requires i < |s| && s[i] != null && s[i] in main.images && !s[i].doit
    requires i < bi.data.Length && i < bi.lookup.Length
    requires LookupState(main, s, i, d, totImages, bi)
    modifies bi.data, bi.lookup, s[i]
    ensures LookupState(main, s, i + 1, d', totImages', bi) && totImages' == totImages + 1
    ensures forall k :: 0 <= k < bi.data.Length ==>
      bi.data[k] == old(bi.data[k]).(image := bi.data[k].image)
    ensures forall k :: totImages' <= k < bi.data.Length ==> bi.data[k] == old(bi.data[k])
    ensures forall k :: 0 <= k < bi.lookup.Length && k != i ==> bi.lookup[k] == old(bi.lookup[k])
  {
    var image := s[i];
    bi.lookup[i] := totImages;
    bi.data[totImages] := bi.data[totImages].(image := image);
    image.doit := true;
    totImages' := totImages + 1;
    forall k | 0 <= k < i
      ensures IndexOf(d + [image], s[k]) == IndexOf(d, s[k])
    {
      IndexOfAppend(d, image, s[k]);
    }
    assert (d + [image])[|d|] == image;
    d' := d + [image];
  }

  /** build_image_lookup: fills the surface table with the distinct images of
      the object's slots and maps every slot to its image's entry, using the
      images' LIB_DOIT tags as the "already listed" set; fails with one report
      at the first slot that has no image. */
  method BuildImageLookup(main: Main, ob: BObject, bi: BakeImages, reports: ReportList) returns (ok: bool)
    requires ob.Valid()
    requires bi.data.Length >= |ob.slotImage| && bi.lookup.Length >= |ob.slotImage|
    requires forall k :: 0 <= k < |ob.slotImage| && ob.slotImage[k] != null ==> ob.slotImage[k] in main.images
    modifies bi, bi.data, bi.lookup, main.images, reports
    ensures ok <==> FirstMissing(ob.slotImage).None?
    ensures !ok ==> bi.size == old(bi.size)
    ensures !ok ==> reports.items == old(reports.items) + [MissingImageReport(ob, FirstMissing(ob.slotImage).value)]
    ensures ok ==> reports.items == old(reports.items)
    ensures ok ==> bi.size == |Dedup(ob.slotImage)|
    ensures ok ==> forall k :: 0 <= k < bi.size ==> bi.data[k].image == Dedup(ob.slotImage)[k]
    ensures ok ==> forall i :: 0 <= i < |ob.slotImage| ==>
      ob.slotImage[i] in Dedup(ob.slotImage) && bi.lookup[i] == IndexOf(Dedup(ob.slotImage), ob.slotImage[i])
    ensures ok ==> forall im :: im in main.images ==> (im.doit <==> im in Dedup(ob.slotImage))
    ensures forall k :: 0 <= k < bi.data.Length ==>
      bi.data[k] == old(bi.data[k]).(image := bi.data[k].image)
    ensures forall k :: |ob.slotImage| <= k < bi.lookup.Length ==> bi.lookup[k] == old(bi.lookup[k])
    ensures ok ==> forall k :: bi.size <= k < bi.data.Length ==> bi.data[k] == old(bi.data[k])
    ensures !ok ==> forall k :: FirstMissing(ob.slotImage).value <= k < bi.lookup.Length ==>
      bi.lookup[k] == old(bi.lookup[k])
    ensures !ok ==> forall k :: |DedupPrefix(ob.slotImage, FirstMissing(ob.slotImage).value)| <= k < bi.data.Length ==>
      bi.data[k] == old(bi.data[k])
    ensures !ok ==> forall im :: im in main.images ==>
      (im.doit <==> im in DedupPrefix(ob.slotImage, FirstMissing(ob.slotImage).value))
  {
    var s := ob.slotImage;
    ClearImageTags(main);
    var i, totImages;
    ghost var d;
    i, d, totImages := LookupSlots(main, s, bi);
    if i < |s| {
      FirstMissingAt(s, i);
      reports.Add(MissingImageReport(ob, i));
      return false;
    }
    LookupStateComplete(main, s, d, totImages, bi);
    bi.size := totImages;
    ok := true;
  }

  /** The slot loop of build_image_lookup: handles slots in order until one
      has no image or all are handled. */
  method LookupSlots(main: Main, s: seq<Image?>, bi: BakeImages) returns (i: nat, ghost d: seq<Image?>, totImages: nat)
    requires bi.data.Length >= |s| && bi.lookup.Length >= |s|
    requires forall k :: 0 <= k < |s| && s[k] != null ==> s[k] in main.images
    requires forall im :: im in main.images ==> !im.doit
    modifies bi.data, bi.lookup, main.images
    ensures LookupState(main, s, i, d, totImages, bi)
    ensures i == |s| || s[i] == null
    ensures forall k :: 0 <= k < bi.data.Length ==>
      bi.data[k] == old(bi.data[k]).(image := bi.data[k].image)
    ensures forall k :: totImages <= k < bi.data.Length ==> bi.data[k] == old(bi.data[k])
    ensures forall k :: i <= k < bi.lookup.Length ==> bi.lookup[k] == old(bi.lookup[k])
  {
    i, d, totImages := 0, [], 0;
    while i < |s|
      invariant 0 <= i <= |s|
      invariant LookupState(main, s, i, d, totImages, bi)
      invariant forall k :: 0 <= k < bi.data.Length ==>
        bi.data[k] == old(bi.data[k]).(image := bi.data[k].image)
      invariant forall k :: totImages <= k < bi.data.Length ==> bi.data[k] == old(bi.data[k])
      invariant forall k :: i <= k < bi.lookup.Length ==> bi.lookup[k] == old(bi.lookup[k])
    {
      if s[i] == null {
        return;
      }
      totImages, d := LookupSlot(main, s, i, d, totImages, bi);
      i := i + 1;
    }
  }
}
