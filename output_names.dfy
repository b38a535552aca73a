/** The name of each external output file: the caller's path template
    followed by an ordered list of `_`-separated suffixes. */
module OutputNames {
  import opened BakeTypes
  import opened DecimalFormat

  /** The suffix that tells split surfaces apart: the surface's image name,
      else the name of the object's material with that index, else the name
      of the evaluated mesh's material, else the index modulo 1000 in decimal
      (written into a four-byte buffer). */
  function Discriminator(imageName: Option<string>, obMat: Option<string>, meshMat: Option<string>, i: nat): string {
    if imageName.Some? then imageName.value
    else if obMat.Some? then obMat.value
    else if meshMat.Some? then meshMat.value
    else Decimal(i % 1000)
  }

  /** The name bake writes surface `i` to. */
  function OutputFileName(template: string, automaticName: bool, obName: string, identifier: string,
                          split: bool, imageName: Option<string>, obMat: Option<string>,
                          meshMat: Option<string>, i: nat): (n: OutputName)
    ensures n.template == template
    ensures |n.suffixes| == (if automaticName then 2 else 0) + (if split then 1 else 0)
    ensures automaticName ==> n.suffixes[0] == obName && n.suffixes[1] == identifier
    ensures split ==> n.suffixes[|n.suffixes| - 1] == Discriminator(imageName, obMat, meshMat, i)
  {
    var named := if automaticName then [obName, identifier] else [];
    OutputName(template, named + if split then [Discriminator(imageName, obMat, meshMat, i)] else [])
  }

  /** The discriminator takes the first name available, in the order image,
      object material, mesh material. */
  lemma DiscriminatorOrder(imageName: Option<string>, obMat: Option<string>, meshMat: Option<string>, i: nat)
    ensures imageName.Some? ==> Discriminator(imageName, obMat, meshMat, i) == imageName.value
    ensures imageName.None? && obMat.Some? ==> Discriminator(imageName, obMat, meshMat, i) == obMat.value
    ensures imageName.None? && obMat.None? && meshMat.Some? ==>
      Discriminator(imageName, obMat, meshMat, i) == meshMat.value
  {
  }

  /** The numeric fallback reads back as the index modulo 1000 and has at
      most three digits, so it and its terminator fit the four-byte buffer. */
  lemma NumericDiscriminator(i: nat)
    ensures var s := Discriminator(None, None, None, i);
      (forall k :: 0 <= k < |s| ==> IsDigit(s[k])) && ParseDecimal(s) == i % 1000 && 1 <= |s| <= 3
  {
    ParseDecimalOfDecimal(i % 1000);
    DecimalLength(i % 1000, 3);
  }

  /** Two surfaces whose discriminators both fall back to the index get
      distinct names exactly when their indices differ modulo 1000. */
  lemma NumericNamesDistinct(template: string, automaticName: bool, obName: string, identifier: string, i: nat, j: nat)
    ensures OutputFileName(template, automaticName, obName, identifier, true, None, None, None, i) ==
            OutputFileName(template, automaticName, obName, identifier, true, None, None, None, j)
            <==> i % 1000 == j % 1000
  {
    var a := OutputFileName(template, automaticName, obName, identifier, true, None, None, None, i);
    var b := OutputFileName(template, automaticName, obName, identifier, true, None, None, None, j);
    if a == b {
      assert Decimal(i % 1000) == Decimal(j % 1000) by {
        assert a.suffixes[|a.suffixes| - 1] == b.suffixes[|b.suffixes| - 1];
      }
      ParseDecimalOfDecimal(i % 1000);
      ParseDecimalOfDecimal(j % 1000);
    }
  }
}
