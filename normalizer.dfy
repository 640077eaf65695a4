/**
 * The per-product normalisation in productGetter (productGetter.js:141-173):
 * the image URL list, the primary URL, the first variant's price, quantity
 * and SKU, and the Size, Color and Material option values collected into
 * insertion-ordered sets across all variants. The three sets and the image
 * list are serialised with JSON.stringify in the source; here they stay
 * sequences of strings (the serialisation is injective, so comparing the
 * texts is comparing the lists).
 */
module Normalizer {
  import opened Results
  import opened OrderedSets
  import opened RemoteCatalog

  /** The local row shape: the twelve columns of the `shopifyapi` table. */
  datatype CatalogRow = CatalogRow(
    title: string,
    description: string,
    imageSrc: seq<string>,
    url: string,
    prices: string,
    quantity: int,
    sku: string,
    size: seq<string>,
    color: seq<string>,
    material: seq<string>,
    category: string,
    status: string)

  /** Why a product cannot be normalised: the source reads index 0 of an empty list and throws. */
  datatype ProductError = MissingImage | MissingVariant

  /** `images.edges.map(image => image.node.originalSrc)` */
  function ImageUrls(images: seq<Image>): seq<string>
  {
    if images == [] then []
    else ImageUrls(images[..|images| - 1]) + [images[|images| - 1].originalSrc]
  }

  /** The image list holds every image's `originalSrc`, in order. */
  lemma {:induction false} ImageUrlsSpec(images: seq<Image>)
    ensures |ImageUrls(images)| == |images|
    ensures forall i :: 0 <= i < |images| ==> ImageUrls(images)[i] == images[i].originalSrc
  {
    if images != [] {
      var init := images[..|images| - 1];
      ImageUrlsSpec(init);
      assert forall i :: 0 <= i < |init| ==> images[i] == init[i];
    }
  }

  /** The values of the options in `opts` whose name is exactly `name`, in order. */
  function Matching(opts: seq<SelectedOption>, name: string): seq<string>
  {
    if opts == [] then []
    else
      var last := opts[|opts| - 1];
      Matching(opts[..|opts| - 1], name) + (if last.name == name then [last.value] else [])
  }

  /** The values of all options named exactly `name`, variant by variant, in order. */
  function OptionValues(variants: seq<RemoteVariant>, name: string): seq<string>
  {
    if variants == [] then []
    else OptionValues(variants[..|variants| - 1], name) + Matching(variants[|variants| - 1].selectedOptions, name)
  }

  /**
   * The normalised record of one product. An empty image list makes line
   * 145 throw; an empty variant list makes line 146 throw.
   */
  function Normalize(p: RemoteProduct): (r: Result<CatalogRow, ProductError>)
    ensures r.Success? <==> |p.images| > 0 && |p.variants| > 0
    ensures r.Failure? ==> (r.error == MissingImage <==> |p.images| == 0)
  {
    if |p.images| == 0 then Failure(MissingImage)
    else if |p.variants| == 0 then Failure(MissingVariant)
    else
      var first := p.variants[0];
      Success(CatalogRow(
        title := p.title,
        description := p.description,
        imageSrc := ImageUrls(p.images),
        url := p.images[0].originalSrc,
        prices := first.price,
        quantity := first.inventoryQuantity,
        sku := first.sku,
        size := OptionSetOf(p.variants, "Size"),
        color := OptionSetOf(p.variants, "Color"),
        material := OptionSetOf(p.variants, "Material"),
        category := p.productType,
        status := p.status))
  }

  /** `set.add(option.value)` for each option of `opts` named exactly `name`, in order, starting from the set `s`. */
  function AddMatching(s: seq<string>, opts: seq<SelectedOption>, name: string): seq<string>
  {
    if opts == [] then s
    else
      var r := AddMatching(s, opts[..|opts| - 1], name);
      var last := opts[|opts| - 1];
      if last.name == name then Add(r, last.value) else r
  }

  /** The Set for option name `name` that the nested forEach (productGetter.js:150-170) builds, variant by variant. */
  function OptionSetOf(variants: seq<RemoteVariant>, name: string): seq<string>
  {
    if variants == [] then []
    else AddMatching(OptionSetOf(variants[..|variants| - 1], name), variants[|variants| - 1].selectedOptions, name)
  }

  /** Adding the matching values one by one to the set of `xs` is building the set of `xs` followed by them. */
  lemma {:induction false} AddMatchingFromSeq(xs: seq<string>, opts: seq<SelectedOption>, name: string)
    ensures AddMatching(FromSeq(xs), opts, name) == FromSeq(xs + Matching(opts, name))
  {
    if opts == [] {
      assert xs + [] == xs;
    } else {
      var init, last := opts[..|opts| - 1], opts[|opts| - 1];
      AddMatchingFromSeq(xs, init, name);
      var ys := xs + Matching(init, name);
      if last.name == name {
        assert xs + Matching(opts, name) == ys + [last.value];
        assert (ys + [last.value])[..|ys|] == ys;
      } else {
        assert Matching(opts, name) == Matching(init, name);
      }
    }
  }

  /**
   * The Set the loop builds is the reference one: the distinct values of the
   * options named `name` across all variants, in order of first appearance.
   */
  lemma {:induction false} OptionSetIsFromSeq(variants: seq<RemoteVariant>, name: string)
    ensures OptionSetOf(variants, name) == FromSeq(OptionValues(variants, name))
  {
    if variants != [] {
      var init, last := variants[..|variants| - 1], variants[|variants| - 1];
      OptionSetIsFromSeq(init, name);
      AddMatchingFromSeq(OptionValues(init, name), last.selectedOptions, name);
    }
  }

  /**
   * The nested forEach over variants and their selected options
   * (productGetter.js:150-170), adding each value to the set its option
   * name selects.
   */
  method CollectOptions(variants: seq<RemoteVariant>) returns (sizes: seq<string>, colors: seq<string>, materials: seq<string>)
    ensures sizes == OptionSetOf(variants, "Size")
    ensures colors == OptionSetOf(variants, "Color")
    ensures materials == OptionSetOf(variants, "Material")
  {
    sizes, colors, materials := [], [], [];
    for i := 0 to |variants|
      invariant sizes == OptionSetOf(variants[..i], "Size")
      invariant colors == OptionSetOf(variants[..i], "Color")
      invariant materials == OptionSetOf(variants[..i], "Material")
    {
      var opts := variants[i].selectedOptions;
      ghost var before := variants[..i];
      assert opts[..0] == [];
      for j := 0 to |opts|
        invariant sizes == AddMatching(OptionSetOf(before, "Size"), opts[..j], "Size")
        invariant colors == AddMatching(OptionSetOf(before, "Color"), opts[..j], "Color")
        invariant materials == AddMatching(OptionSetOf(before, "Material"), opts[..j], "Material")
      {
        var option := opts[j];
        assert opts[..j + 1][..j] == opts[..j];
        if option.name == "Size" {
          sizes := Add(sizes, option.value);
        } else if option.name == "Color" {
          colors := Add(colors, option.value);
        } else if option.name == "Material" {
          materials := Add(materials, option.value);
        }
      }
      assert opts[..|opts|] == opts;
      assert variants[..i + 1][..i] == before;
    }
    assert variants[..|variants|] == variants;
  }

  /** The normalisation steps of the loop body (productGetter.js:141-173), up to the SKU queries. */
  method NormalizeProduct(p: RemoteProduct) returns (r: Result<CatalogRow, ProductError>)
    ensures r == Normalize(p)
  {
    var imageSrc := ImageUrls(p.images);
    if |p.images| == 0 {
      return Failure(MissingImage);
    }
    var url := p.images[0].originalSrc;
    if |p.variants| == 0 {
      return Failure(MissingVariant);
    }
    var prices := p.variants[0].price;
    var quantity := p.variants[0].inventoryQuantity;
    var sku := p.variants[0].sku;
    var sizes, colors, materials := CollectOptions(p.variants);
    r := Success(CatalogRow(
      title := p.title,
      description := p.description,
      imageSrc := imageSrc,
      url := url,
      prices := prices,
      quantity := quantity,
      sku := sku,
      size := sizes,
      color := colors,
      material := materials,
      category := p.productType,
      status := p.status));
  }

  /** A value is matched by `name` iff some option in `opts` carries exactly that name and value. */
  lemma {:induction false} MatchingMembership(opts: seq<SelectedOption>, name: string, v: string)
    ensures v in Matching(opts, name) <==> exists j :: 0 <= j < |opts| && opts[j] == SelectedOption(name, v)
  {
    if opts != [] {
      var init := opts[..|opts| - 1];
      MatchingMembership(init, name, v);
      if exists j :: 0 <= j < |opts| && opts[j] == SelectedOption(name, v) {
        var j :| 0 <= j < |opts| && opts[j] == SelectedOption(name, v);
        if j < |opts| - 1 {
          assert init[j] == opts[j];
        }
      }
      if exists j :: 0 <= j < |init| && init[j] == SelectedOption(name, v) {
        var j :| 0 <= j < |init| && init[j] == SelectedOption(name, v);
        assert opts[j] == init[j];
      }
    }
  }

  /** A value is collected for `name` iff some variant has an option with exactly that name and value. */
  lemma {:induction false} OptionValuesMembership(variants: seq<RemoteVariant>, name: string, v: string)
    ensures v in OptionValues(variants, name) <==>
      exists i, j :: 0 <= i < |variants| && 0 <= j < |variants[i].selectedOptions| &&
        variants[i].selectedOptions[j] == SelectedOption(name, v)
  {
    if variants != [] {
      var init := variants[..|variants| - 1];
      var last := variants[|variants| - 1];
      OptionValuesMembership(init, name, v);
      MatchingMembership(last.selectedOptions, name, v);
      if exists i, j :: 0 <= i < |variants| && 0 <= j < |variants[i].selectedOptions| &&
          variants[i].selectedOptions[j] == SelectedOption(name, v) {
        var i, j :| 0 <= i < |variants| && 0 <= j < |variants[i].selectedOptions| &&
          variants[i].selectedOptions[j] == SelectedOption(name, v);
        if i < |variants| - 1 {
          assert init[i] == variants[i];
        }
      }
      if exists i, j :: 0 <= i < |init| && 0 <= j < |init[i].selectedOptions| &&
          init[i].selectedOptions[j] == SelectedOption(name, v) {
        var i, j :| 0 <= i < |init| && 0 <= j < |init[i].selectedOptions| &&
          init[i].selectedOptions[j] == SelectedOption(name, v);
        assert variants[i] == init[i];
      }
    }
  }

  /**
   * Option aggregation: the size set of a normalised product holds exactly
   * the values of options named "Size", each once, in the order of first
   * appearance across the variants (likewise for "Color" and "Material").
   */
  lemma OptionSet(p: RemoteProduct, name: string, v: string)
    requires Normalize(p).Success?
    requires name in ["Size", "Color", "Material"]
    ensures var row := Normalize(p).value;
      var set_ := if name == "Size" then row.size else if name == "Color" then row.color else row.material;
      && NoDup(set_)
      && InOrderOf(set_, OptionValues(p.variants, name))
      && (v in set_ <==>
            exists i, j :: 0 <= i < |p.variants| && 0 <= j < |p.variants[i].selectedOptions| &&
              p.variants[i].selectedOptions[j] == SelectedOption(name, v))
  {
    OptionSetIsFromSeq(p.variants, name);
    OptionValuesMembership(p.variants, name, v);
    FromSeqOrder(OptionValues(p.variants, name));
  }

  /** Options with any other name contribute nothing to the three sets. */
  lemma {:induction false} OtherNamesIgnored(opts: seq<SelectedOption>, extra: SelectedOption, name: string)
    requires extra.name != name
    ensures Matching(opts + [extra], name) == Matching(opts, name)
  {
    assert (opts + [extra])[..|opts|] == opts;
  }

  /**
   * The image and first-variant fields: the image list is every image's
   * `originalSrc` in order, `url` is its first entry, and price, quantity
   * and SKU are those of the first variant.
   */
  lemma NormalizeFields(p: RemoteProduct)
    requires |p.images| > 0 && |p.variants| > 0
    ensures var row := Normalize(p).value;
      && |row.imageSrc| == |p.images|
      && (forall i :: 0 <= i < |p.images| ==> row.imageSrc[i] == p.images[i].originalSrc)
      && row.url == row.imageSrc[0]
      && row.prices == p.variants[0].price
      && row.quantity == p.variants[0].inventoryQuantity
      && row.sku == p.variants[0].sku
      && row.title == p.title && row.description == p.description
      && row.category == p.productType && row.status == p.status
  {
    ImageUrlsSpec(p.images);
  }

  /** Later variants do not affect price, quantity, SKU or the image fields: only `variants.edges[0]` is read for them. */
  lemma FirstVariantOnly(p: RemoteProduct, rest: seq<RemoteVariant>)
    requires Normalize(p).Success?
    ensures var q := p.(variants := [p.variants[0]] + rest);
      && Normalize(q).Success?
      && Normalize(q).value.prices == Normalize(p).value.prices
      && Normalize(q).value.quantity == Normalize(p).value.quantity
      && Normalize(q).value.sku == Normalize(p).value.sku
      && Normalize(q).value.imageSrc == Normalize(p).value.imageSrc
      && Normalize(q).value.url == Normalize(p).value.url
  {
  }

  /** Duplicates collapse and unknown names are dropped: Size M, Color Red, Size M, Material Cotton. */
  lemma AggregationExample(p: RemoteProduct)
    requires |p.images| > 0
    requires p.variants == [RemoteVariant("10.00", 1, "A", [SelectedOption("Size", "M"), SelectedOption("Color", "Red")]),
                            RemoteVariant("10.00", 1, "B", [SelectedOption("Size", "M"), SelectedOption("Material", "Cotton"), SelectedOption("Fit", "Slim")])]
    ensures Normalize(p).value.size == ["M"]
    ensures Normalize(p).value.color == ["Red"]
    ensures Normalize(p).value.material == ["Cotton"]
  {
    var v0, v1 := p.variants[0].selectedOptions, p.variants[1].selectedOptions;
    assert p.variants[..1] == [p.variants[0]] && [p.variants[0]][..0] == [];
    assert v0[..1] == [v0[0]] && v0[..0] == [];
    assert v1[..2] == [v1[0], v1[1]] && v1[..2][..1] == [v1[0]] && v1[..1] == [v1[0]] && v1[..0] == [];
    forall name | name in ["Size", "Color", "Material"]
      ensures OptionSetOf(p.variants, name) == AddMatching(AddMatching([], v0, name), v1, name)
    {
      assert OptionSetOf(p.variants[..1], name) == AddMatching([], v0, name);
    }
    assert AddMatching([], v0, "Size") == ["M"];
    assert AddMatching(["M"], v1[..1], "Size") == ["M"];
    assert AddMatching(["M"], v1[..2], "Size") == ["M"];
    assert AddMatching(["M"], v1, "Size") == ["M"];
    assert AddMatching([], v0, "Color") == ["Red"];
    assert AddMatching(["Red"], v1[..1], "Color") == ["Red"];
    assert AddMatching(["Red"], v1[..2], "Color") == ["Red"];
    assert AddMatching(["Red"], v1, "Color") == ["Red"];
    assert AddMatching([], v0, "Material") == [];
    assert AddMatching([], v1[..1], "Material") == [];
    assert AddMatching([], v1[..2], "Material") == ["Cotton"];
    assert AddMatching([], v1, "Material") == ["Cotton"];
  }
}
