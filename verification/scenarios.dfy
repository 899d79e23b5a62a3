/** Concrete resolutions of Sentinel-1 file names, worked through the model.

    Each scenario takes its file name as a parameter `href` pinned by its
    `requires` rather than writing the literal into the `ensures`: on a
    literal argument the verifier unfolds the whole resolver eagerly, which
    makes these proofs far more expensive. */
module BandScenarios {
  import opened Text
  import opened Paths
  import opened Bands
  import opened BandProperties

  const SlcSwaths: set<string> := {"IW1", "IW2", "IW3"}

  /** A bare file name `<fields joined by hyphens><ext>` parses back into its
      fields and its extension. */
  lemma ParsedName(fields: seq<string>, ext: string)
    requires |fields| >= 1 && |fields[0]| > 0
    requires forall k :: 0 <= k < |fields| ==> PlainField(fields[k])
    requires |ext| > 0 && ext[0] == '.' && '.' !in ext[1..] && '/' !in ext
    ensures AssetParts(Join(fields, '-') + ext) == fields
    ensures Extension(Join(fields, '-') + ext) == ext
  {
    var stem := Join(fields, '-');
    assert [] + (stem + ext) == stem + ext;
    NameFieldsRoundTrip([], fields, ext);
    JoinAvoids(fields, '-', '.');
    JoinAvoids(fields, '-', '/');
    assert stem[..|fields[0]|] == fields[0];
    ExtensionOfName([], stem, ext);
  }

  /** The TIFF extension, in lower case. */
  lemma LowerTiff()
    ensures IsTiffExtension(".tiff")
  {
    assert Lower(".tiff") == ".tiff";
  }

  /** The PNG extension is not a TIFF one. */
  lemma PngNotTiff()
    ensures !IsTiffExtension(".png")
  {
    assert Lower(".png") == ".png";
    assert ".png"[1] != ".tif"[1];
  }

  /** The second field `iw1` names swath IW1, so it prefixes the key. */
  lemma Iw1Key(fields: seq<string>, bandId: string)
    requires |fields| >= 2 && fields[1] == "iw1"
    ensures AssetKey(fields, bandId, true, SlcSwaths) == "iw1-" + bandId
  {
    assert Upper("iw1") == "IW1";
    assert Lower("IW1") == "iw1";
  }

  /** A name whose band id is in the table resolves to the given key and to
      the asset of that band. */
  lemma ResolvesTo(
    href: string, mediaType: Option<string>, slcSwaths: bool, polarizations: map<string, Band>,
    swaths: set<string>, bandId: string, key: string)
    requires HasMediaType(href, mediaType)
    requires NamedBandId(href) == Some(bandId) && bandId in polarizations
    requires AssetKey(AssetParts(href), bandId, slcSwaths, swaths) == key
    ensures ImageAssetFromHref(href, mediaType, slcSwaths, polarizations, swaths)
         == Ok((key, Asset(href, if mediaType.Some? then mediaType.value else GeoTiff,
                           polarizations[bandId].name + " Data", DataDescription, [DataRole], [polarizations[bandId]])))
  {
    KnownBandResolves(href, mediaType, slcSwaths, polarizations, swaths);
  }

  /** A second field `vv` names no swath, so the key is the band id. */
  lemma VvNotSwath(fields: seq<string>, bandId: string)
    requires |fields| >= 2 && fields[1] == "vv"
    ensures AssetKey(fields, bandId, true, SlcSwaths) == bandId
  {
    assert Upper("vv") == "VV";
    assert Upper("vv")[0] == 'V';
  }

  /** The fields of the SLC image name used below. */
  lemma SlcName(href: string)
    requires href == "s1a-iw1-slc-vv-001.tiff"
    ensures AssetParts(href) == ["s1a", "iw1", "slc", "vv", "001"]
    ensures Extension(href) == ".tiff"
  {
    var fields := ["s1a", "iw1", "slc", "vv", "001"];
    assert href == Join(fields, '-') + ".tiff";
    ParsedName(fields, ".tiff");
  }

  /** An SLC image of swath IW1: the key carries the swath, and the asset the VV band. */
  lemma SlcSwathScenario(href: string, vv: Band)
    requires href == "s1a-iw1-slc-vv-001.tiff"
    ensures ImageAssetFromHref(href, None, true, map["vv" := vv], SlcSwaths)
         == Ok(("iw1-vv", Asset(href, GeoTiff, vv.name + " Data", DataDescription, [DataRole], [vv])))
  {
    SlcName(href);
    LowerTiff();
    Iw1Key(AssetParts(href), "vv");
    assert NamedBandId(href) == Some("vv");
    ResolvesTo(href, None, true, map["vv" := vv], SlcSwaths, "vv", "iw1-vv");
  }

  /** Without SLC swath handling the same image is keyed by its band id alone. */
  lemma PlainKeyScenario(href: string, vv: Band)
    requires href == "s1a-iw1-slc-vv-001.tiff"
    ensures ImageAssetFromHref(href, None, false, map["vv" := vv], SlcSwaths)
         == Ok(("vv", Asset(href, GeoTiff, vv.name + " Data", DataDescription, [DataRole], [vv])))
  {
    SlcName(href);
    LowerTiff();
    assert NamedBandId(href) == Some("vv");
    ResolvesTo(href, None, false, map["vv" := vv], SlcSwaths, "vv", "vv");
  }

  /** The fields of an image name whose band id is upper case. */
  lemma UpperCaseName(href: string)
    requires href == "s1a-iw1-slc-VV-001.tiff"
    ensures AssetParts(href) == ["s1a", "iw1", "slc", "VV", "001"]
    ensures Extension(href) == ".tiff"
  {
    var fields := ["s1a", "iw1", "slc", "VV", "001"];
    assert href == Join(fields, '-') + ".tiff";
    ParsedName(fields, ".tiff");
  }

  /** The band id is looked up as written: `VV` is not the table's `vv`. */
  lemma BandIdCaseScenario(href: string, vv: Band)
    requires href == "s1a-iw1-slc-VV-001.tiff"
    ensures ImageAssetFromHref(href, None, true, map["vv" := vv], SlcSwaths) == Err(UnknownBand("VV"))
  {
    UpperCaseName(href);
    LowerTiff();
    assert NamedBandId(href) == Some("VV");
    UnknownBandFails(href, None, true, map["vv" := vv], SlcSwaths);
  }

  /** The fields of a name without the product-type field. */
  lemma ShortName(href: string)
    requires href == "S1A-iw1-vv-001.tiff"
    ensures AssetParts(href) == ["S1A", "iw1", "vv", "001"]
    ensures Extension(href) == ".tiff"
  {
    var fields := ["S1A", "iw1", "vv", "001"];
    assert href == Join(fields, '-') + ".tiff";
    ParsedName(fields, ".tiff");
  }

  /** The band id is always the fourth field of a longer name, so in a name
      without the product-type field it is the counter `001`, not `vv`. */
  lemma FourthFieldScenario(href: string, vv: Band, vh: Band)
    requires href == "S1A-iw1-vv-001.tiff"
    ensures ImageAssetFromHref(href, None, true, map["vv" := vv, "vh" := vh], SlcSwaths) == Err(UnknownBand("001"))
  {
    ShortName(href);
    LowerTiff();
    assert NamedBandId(href) == Some("001");
    UnknownBandFails(href, None, true, map["vv" := vv, "vh" := vh], SlcSwaths);
  }

  /** The fields of a three-field name. */
  lemma ThreeFieldName(href: string)
    requires href == "data/s1a-iw1-vv.tiff"
    ensures AssetParts(href) == ["s1a", "iw1", "vv"]
    ensures Extension(href) == ".tiff"
  {
    var fields := ["s1a", "iw1", "vv"];
    assert href == "data/" + (Join(fields, '-') + ".tiff");
    NameFieldsRoundTrip("data/", fields, ".tiff");
    JoinAvoids(fields, '-', '.');
    JoinAvoids(fields, '-', '/');
    ExtensionOfName("data/", Join(fields, '-'), ".tiff");
  }

  /** A three-field name has no fourth field to read the band id from. */
  lemma ThreeFieldsScenario(href: string, vv: Band)
    requires href == "data/s1a-iw1-vv.tiff"
    ensures ImageAssetFromHref(href, None, true, map["vv" := vv], SlcSwaths) == Err(PartIndexOutOfRange(3, 3))
  {
    ThreeFieldName(href);
    LowerTiff();
    TooFewFieldsFail(href, None, true, map["vv" := vv], SlcSwaths);
  }

  /** The fields of a PNG image name. */
  lemma PngName(href: string)
    requires href == "s1a-iw1-grd-vh-002.png"
    ensures AssetParts(href) == ["s1a", "iw1", "grd", "vh", "002"]
    ensures Extension(href) == ".png"
  {
    var fields := ["s1a", "iw1", "grd", "vh", "002"];
    assert href == Join(fields, '-') + ".png";
    ParsedName(fields, ".png");
  }

  /** A PNG image without a media type is refused before its name is read. */
  lemma PngWithoutMediaTypeScenario(href: string, vh: Band)
    requires href == "s1a-iw1-grd-vh-002.png"
    ensures ImageAssetFromHref(href, None, false, map["vh" := vh], SlcSwaths) == Err(MissingMediaType(href))
  {
    PngName(href);
    PngNotTiff();
    NonTiffFailsFirst(href, false, map["vh" := vh], SlcSwaths);
  }

  /** Given its media type, the PNG image resolves like any other. */
  lemma PngWithMediaTypeScenario(href: string, vh: Band)
    requires href == "s1a-iw1-grd-vh-002.png"
    ensures ImageAssetFromHref(href, Some("image/png"), false, map["vh" := vh], SlcSwaths)
         == Ok(("vh", Asset(href, "image/png", vh.name + " Data", DataDescription, [DataRole], [vh])))
  {
    PngName(href);
    assert NamedBandId(href) == Some("vh");
    ResolvesTo(href, Some("image/png"), false, map["vh" := vh], SlcSwaths, "vh", "vh");
  }

  /** The fields of a two-field name. */
  lemma TwoFieldName(href: string)
    requires href == "iw1-vv.tiff"
    ensures AssetParts(href) == ["iw1", "vv"]
    ensures Extension(href) == ".tiff"
  {
    var fields := ["iw1", "vv"];
    assert href == Join(fields, '-') + ".tiff";
    ParsedName(fields, ".tiff");
  }

  /** In a two-field name the second field is both the band id and the swath
      candidate, so the swath `iw1` in the first field does not reach the key. */
  lemma TwoFieldSwathScenario(href: string, vv: Band)
    requires href == "iw1-vv.tiff"
    ensures ImageAssetFromHref(href, None, true, map["vv" := vv], SlcSwaths)
         == Ok(("vv", Asset(href, GeoTiff, vv.name + " Data", DataDescription, [DataRole], [vv])))
  {
    TwoFieldName(href);
    LowerTiff();
    VvNotSwath(AssetParts(href), "vv");
    assert NamedBandId(href) == Some("vv");
    ResolvesTo(href, None, true, map["vv" := vv], SlcSwaths, "vv", "vv");
  }
}
