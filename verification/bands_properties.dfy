/** What the resolver promises about its outcome for every input: which
    media type it uses, where it reads the band id, when it fails, what the
    asset holds and how the key is formed. */
module BandProperties {
  import opened Text
  import opened Paths
  import opened Bands

  /** The band id a file name carries: the second of exactly two hyphen
      fields, or the fourth of four or more; none for one or three fields. */
  ghost function NamedBandId(href: string): (bandId: Option<string>)
    ensures bandId.Some? ==> |AssetParts(href)| >= 2 && '-' !in bandId.value
  {
    var parts := AssetParts(href);
    if |parts| == 2 then Some(parts[1])
    else if |parts| >= 4 then Some(parts[3])
    else None
  }

  /** The stem is the file name up to its first dot. */
  lemma StemIsFirstDotField(href: string)
    ensures '.' !in Stem(href)
    ensures Stem(href) <= Basename(href)
    ensures |Stem(href)| < |Basename(href)| ==> Basename(href)[|Stem(href)|] == '.'
  {
    SplitFirst(Basename(href), '.');
  }

  /** The stem's hyphens decide its fields: one field more than hyphens, so a
      band id is read from a stem with exactly one hyphen or with three or more. */
  lemma HyphensDecideFields(href: string)
    ensures |AssetParts(href)| == Occurrences(Stem(href), '-') + 1
    ensures NamedBandId(href).Some? <==> Occurrences(Stem(href), '-') == 1 || Occurrences(Stem(href), '-') >= 3
  {
    SplitCount(Stem(href), '-');
  }

  /** A path component free of the three separators the resolver splits on. */
  ghost predicate PlainField(s: string)
  {
    '-' !in s && '.' !in s && '/' !in s
  }

  /** Unfolding helper: once the media type is known, the resolver is its
      name-reading half applied to that media type. The properties below
      are proved through it. */
  lemma MediaTypeSettled(
    href: string, mediaType: Option<string>, slcSwaths: bool, polarizations: map<string, Band>, swaths: set<string>)
    requires HasMediaType(href, mediaType)
    ensures ImageAssetFromHref(href, mediaType, slcSwaths, polarizations, swaths)
         == BandAsset(href, if mediaType.Some? then mediaType.value else GeoTiff, slcSwaths, polarizations, swaths)
  {
  }

  /** Unfolding helper: the name-reading half, case by case in terms of
      `NamedBandId`. The properties below are proved through it. */
  lemma BandAssetOutcome(
    href: string, mt: string, slcSwaths: bool, polarizations: map<string, Band>, swaths: set<string>)
    ensures var r := BandAsset(href, mt, slcSwaths, polarizations, swaths);
      var bandId := NamedBandId(href);
      && (bandId.None? ==> r == Err(PartIndexOutOfRange(3, |AssetParts(href)|)))
      && (bandId.Some? && bandId.value !in polarizations ==> r == Err(UnknownBand(bandId.value)))
      && (bandId.Some? && bandId.value in polarizations ==>
            var band := polarizations[bandId.value];
            r == Ok((AssetKey(AssetParts(href), bandId.value, slcSwaths, swaths),
                     Asset(href, mt, band.name + " Data", DataDescription, [DataRole], [band]))))
  {
    var parts := AssetParts(href);
    if NamedBandId(href).Some? {
      assert SelectBandId(parts) == Ok(NamedBandId(href).value);
    } else {
      assert SelectBandId(parts) == Err(PartIndexOutOfRange(3, |parts|));
    }
  }

  /** An explicit media type is used as given, whatever the extension, and
      the missing-media-type error cannot occur. */
  lemma ExplicitMediaTypeWins(
    href: string, m: string, slcSwaths: bool, polarizations: map<string, Band>, swaths: set<string>)
    ensures var r := ImageAssetFromHref(href, Some(m), slcSwaths, polarizations, swaths);
      && (r.Ok? ==> r.value.1.mediaType == m)
      && !(r.Err? && r.error.MissingMediaType?)
  {
    MediaTypeSettled(href, Some(m), slcSwaths, polarizations, swaths);
    BandAssetOutcome(href, m, slcSwaths, polarizations, swaths);
  }

  /** Without a media type, a name whose extension is not TIFF fails with the
      media-type error, before anything else about the name is looked at. */
  lemma NonTiffFailsFirst(
    href: string, slcSwaths: bool, polarizations: map<string, Band>, swaths: set<string>)
    requires !IsTiffExtension(Extension(href))
    ensures ImageAssetFromHref(href, None, slcSwaths, polarizations, swaths) == Err(MissingMediaType(href))
  {
  }

  /** Without a media type, a TIFF name resolves exactly as if GeoTIFF had been given. */
  lemma TiffMeansGeoTiff(
    href: string, slcSwaths: bool, polarizations: map<string, Band>, swaths: set<string>)
    requires IsTiffExtension(Extension(href))
    ensures ImageAssetFromHref(href, None, slcSwaths, polarizations, swaths)
         == ImageAssetFromHref(href, Some(GeoTiff), slcSwaths, polarizations, swaths)
  {
    MediaTypeSettled(href, None, slcSwaths, polarizations, swaths);
    MediaTypeSettled(href, Some(GeoTiff), slcSwaths, polarizations, swaths);
  }

  /** The TIFF extensions are `.tif` and `.tiff` in any mix of ASCII case. */
  lemma TiffExtensionSpelling(ext: string)
    ensures IsTiffExtension(ext) <==>
      && (|ext| == 4 || |ext| == 5)
      && ext[0] == '.'
      && (ext[1] == 't' || ext[1] == 'T')
      && (ext[2] == 'i' || ext[2] == 'I')
      && (ext[3] == 'f' || ext[3] == 'F')
      && (|ext| == 5 ==> ext[4] == 'f' || ext[4] == 'F')
  {
  }

  /** A stem with no hyphen or with exactly two has one or three fields, and
      reading field index 3 fails. */
  lemma TooFewFieldsFail(
    href: string, mediaType: Option<string>, slcSwaths: bool, polarizations: map<string, Band>, swaths: set<string>)
    requires HasMediaType(href, mediaType)
    requires NamedBandId(href).None?
    ensures |AssetParts(href)| == 1 || |AssetParts(href)| == 3
    ensures ImageAssetFromHref(href, mediaType, slcSwaths, polarizations, swaths)
         == Err(PartIndexOutOfRange(3, |AssetParts(href)|))
  {
    var mt := if mediaType.Some? then mediaType.value else GeoTiff;
    MediaTypeSettled(href, mediaType, slcSwaths, polarizations, swaths);
    BandAssetOutcome(href, mt, slcSwaths, polarizations, swaths);
  }

  /** A band id missing from the table fails, exactly as spelled in the file
      name: no case folding or other normalisation is applied. */
  lemma UnknownBandFails(
    href: string, mediaType: Option<string>, slcSwaths: bool, polarizations: map<string, Band>, swaths: set<string>)
    requires HasMediaType(href, mediaType)
    requires NamedBandId(href).Some? && NamedBandId(href).value !in polarizations
    ensures ImageAssetFromHref(href, mediaType, slcSwaths, polarizations, swaths)
         == Err(UnknownBand(NamedBandId(href).value))
  {
    var mt := if mediaType.Some? then mediaType.value else GeoTiff;
    MediaTypeSettled(href, mediaType, slcSwaths, polarizations, swaths);
    BandAssetOutcome(href, mt, slcSwaths, polarizations, swaths);
  }

  /** A band id found in the table yields the asset built from its entry,
      under the key that `AssetKey` forms from the name's fields. */
  lemma KnownBandResolves(
    href: string, mediaType: Option<string>, slcSwaths: bool, polarizations: map<string, Band>, swaths: set<string>)
    requires HasMediaType(href, mediaType)
    requires NamedBandId(href).Some? && NamedBandId(href).value in polarizations
    ensures |AssetParts(href)| >= 2
    ensures var r := ImageAssetFromHref(href, mediaType, slcSwaths, polarizations, swaths);
      var bandId := NamedBandId(href).value;
      var band := polarizations[bandId];
      && r.Ok?
      && r.value.0 == AssetKey(AssetParts(href), bandId, slcSwaths, swaths)
      && r.value.1 == Asset(
           href,
           if mediaType.Some? then mediaType.value else GeoTiff,
           band.name + " Data",
           DataDescription,
           [DataRole],
           [band])
  {
    var mt := if mediaType.Some? then mediaType.value else GeoTiff;
    MediaTypeSettled(href, mediaType, slcSwaths, polarizations, swaths);
    BandAssetOutcome(href, mt, slcSwaths, polarizations, swaths);
  }

  /** Success needs all three: a media type, a band id in the name, and that
      band id in the table. */
  lemma SuccessNeedsKnownBand(
    href: string, mediaType: Option<string>, slcSwaths: bool, polarizations: map<string, Band>, swaths: set<string>)
    ensures ImageAssetFromHref(href, mediaType, slcSwaths, polarizations, swaths).Ok? ==>
      && HasMediaType(href, mediaType)
      && NamedBandId(href).Some?
      && NamedBandId(href).value in polarizations
  {
    if HasMediaType(href, mediaType) {
      var mt := if mediaType.Some? then mediaType.value else GeoTiff;
      MediaTypeSettled(href, mediaType, slcSwaths, polarizations, swaths);
      BandAssetOutcome(href, mt, slcSwaths, polarizations, swaths);
    } else {
      NonTiffFailsFirst(href, slcSwaths, polarizations, swaths);
    }
  }

  /** Without swath handling the key is the band id itself. */
  lemma KeyWithoutSwaths(
    href: string, mediaType: Option<string>, polarizations: map<string, Band>, swaths: set<string>)
    ensures var r := ImageAssetFromHref(href, mediaType, false, polarizations, swaths);
      r.Ok? ==> NamedBandId(href) == Some(r.value.0)
  {
    SuccessNeedsKnownBand(href, mediaType, false, polarizations, swaths);
    if ImageAssetFromHref(href, mediaType, false, polarizations, swaths).Ok? {
      KnownBandResolves(href, mediaType, false, polarizations, swaths);
    }
  }

  /** With swath handling the key is prefixed by the lower-cased second field
      and a hyphen exactly when that field, upper-cased, is a known swath. */
  lemma KeyWithSwaths(
    href: string, mediaType: Option<string>, polarizations: map<string, Band>, swaths: set<string>)
    requires HasMediaType(href, mediaType)
    requires NamedBandId(href).Some? && NamedBandId(href).value in polarizations
    ensures |AssetParts(href)| >= 2
    ensures var r := ImageAssetFromHref(href, mediaType, true, polarizations, swaths);
      var parts := AssetParts(href);
      var bandId := NamedBandId(href).value;
      && r.Ok?
      && r.value.0 == (if Upper(parts[1]) in swaths then Lower(parts[1]) + "-" + bandId else bandId)
  {
    KnownBandResolves(href, mediaType, true, polarizations, swaths);
    LowerOfUpper(AssetParts(href)[1]);
  }

  /** Swath handling changes the key only: success, failure and the asset
      itself are the same with and without it. */
  lemma SwathsOnlyChangeKey(
    href: string, mediaType: Option<string>, polarizations: map<string, Band>, swaths: set<string>)
    ensures var plain := ImageAssetFromHref(href, mediaType, false, polarizations, swaths);
      var slc := ImageAssetFromHref(href, mediaType, true, polarizations, swaths);
      && (plain.Ok? <==> slc.Ok?)
      && (plain.Err? ==> slc == plain)
      && (plain.Ok? ==> slc.value.1 == plain.value.1)
  {
    if HasMediaType(href, mediaType) {
      var mt := if mediaType.Some? then mediaType.value else GeoTiff;
      MediaTypeSettled(href, mediaType, false, polarizations, swaths);
      MediaTypeSettled(href, mediaType, true, polarizations, swaths);
      BandAssetOutcome(href, mt, false, polarizations, swaths);
      BandAssetOutcome(href, mt, true, polarizations, swaths);
    } else {
      NonTiffFailsFirst(href, false, polarizations, swaths);
      NonTiffFailsFirst(href, true, polarizations, swaths);
    }
  }

  /** Splitting a key on hyphens recovers the band id as its last field,
      preceded by the swath only when one was prefixed. */
  lemma KeyFields(parts: seq<string>, bandId: string, slcSwaths: bool, swaths: set<string>)
    requires |parts| >= 2 && '-' !in parts[1] && '-' !in bandId
    ensures var fields := Split(AssetKey(parts, bandId, slcSwaths, swaths), '-');
      && (|fields| == 1 || |fields| == 2)
      && fields[|fields| - 1] == bandId
      && (|fields| == 2 ==> slcSwaths && Upper(fields[0]) in swaths && fields[0] == Lower(parts[1]))
  {
    var key := AssetKey(parts, bandId, slcSwaths, swaths);
    if slcSwaths && Upper(parts[1]) in swaths {
      var swath := Lower(Upper(parts[1]));
      CaseKeepsNonLetters(parts[1], '-');
      CaseKeepsNonLetters(Upper(parts[1]), '-');
      assert key == Join([swath, bandId], '-');
      SplitJoin([swath, bandId], '-');
      UpperOfLower(Upper(parts[1]));
      LowerOfUpper(parts[1]);
      assert Upper(Upper(parts[1])) == Upper(parts[1]);
    } else {
      assert key == Join([bandId], '-');
      SplitJoin([bandId], '-');
    }
  }

  /** The key names its band: its last hyphen field is the table entry the
      asset carries, and a second field appears only as a known swath of an
      SLC product. */
  lemma KeyNamesItsBand(
    href: string, mediaType: Option<string>, slcSwaths: bool, polarizations: map<string, Band>, swaths: set<string>)
    ensures var r := ImageAssetFromHref(href, mediaType, slcSwaths, polarizations, swaths);
      r.Ok? ==>
        var fields := Split(r.value.0, '-');
        && (|fields| == 1 || |fields| == 2)
        && fields[|fields| - 1] in polarizations
        && r.value.1.eoBands == [polarizations[fields[|fields| - 1]]]
        && (|fields| == 2 ==> slcSwaths && Upper(fields[0]) in swaths)
  {
    var r := ImageAssetFromHref(href, mediaType, slcSwaths, polarizations, swaths);
    SuccessNeedsKnownBand(href, mediaType, slcSwaths, polarizations, swaths);
    if r.Ok? {
      KnownBandResolves(href, mediaType, slcSwaths, polarizations, swaths);
      var parts := AssetParts(href);
      var bandId := NamedBandId(href).value;
      assert '-' !in parts[1];
      KeyFields(parts, bandId, slcSwaths, swaths);
      assert r.value.0 == AssetKey(parts, bandId, slcSwaths, swaths);
    }
  }

  /** The resolver never reports an asset whose band id could not be read. */
  lemma NeverUnexpectedAsset(
    href: string, mediaType: Option<string>, slcSwaths: bool, polarizations: map<string, Band>, swaths: set<string>)
    ensures var r := ImageAssetFromHref(href, mediaType, slcSwaths, polarizations, swaths);
      !(r.Err? && r.error.UnexpectedAsset?)
  {
    if HasMediaType(href, mediaType) {
      var mt := if mediaType.Some? then mediaType.value else GeoTiff;
      MediaTypeSettled(href, mediaType, slcSwaths, polarizations, swaths);
      BandAssetOutcome(href, mt, slcSwaths, polarizations, swaths);
    } else {
      NonTiffFailsFirst(href, slcSwaths, polarizations, swaths);
    }
  }

  /** Below a directory, a name `<stem><suffix>` whose suffix is empty or
      starts with a dot has stem `<stem>`. */
  lemma StemOfName(dir: string, stem: string, suffix: string)
    requires dir == [] || dir[|dir| - 1] == '/'
    requires '.' !in stem && '/' !in stem
    requires suffix == [] || (suffix[0] == '.' && '/' !in suffix)
    ensures Stem(dir + (stem + suffix)) == stem
  {
    BasenameBelowDir(dir, stem + suffix);
    SplitFirstField(stem, suffix, '.');
  }

  /** Parsing undoes naming: a file named by joining plain fields with
      hyphens, below any directory and followed by any extension, has exactly
      those fields. */
  lemma NameFieldsRoundTrip(dir: string, fields: seq<string>, suffix: string)
    requires dir == [] || dir[|dir| - 1] == '/'
    requires |fields| >= 1 && forall k :: 0 <= k < |fields| ==> PlainField(fields[k])
    requires suffix == [] || (suffix[0] == '.' && '/' !in suffix)
    ensures AssetParts(dir + (Join(fields, '-') + suffix)) == fields
  {
    var stem := Join(fields, '-');
    assert '.' !in stem by {
      JoinAvoids(fields, '-', '.');
    }
    assert '/' !in stem by {
      JoinAvoids(fields, '-', '/');
    }
    StemOfName(dir, stem, suffix);
    SplitJoin(fields, '-');
  }

  /** A file named by joining plain fields with hyphens carries the second
      field as its band id when there are two fields, the fourth when there
      are four or more, and none otherwise. */
  lemma NamedFileBandId(dir: string, fields: seq<string>, suffix: string)
    requires dir == [] || dir[|dir| - 1] == '/'
    requires |fields| >= 1 && forall k :: 0 <= k < |fields| ==> PlainField(fields[k])
    requires suffix == [] || (suffix[0] == '.' && '/' !in suffix)
    ensures var bandId := NamedBandId(dir + (Join(fields, '-') + suffix));
      && (bandId.Some? <==> |fields| == 2 || |fields| >= 4)
      && (|fields| == 2 ==> bandId == Some(fields[1]))
      && (|fields| >= 4 ==> bandId == Some(fields[3]))
  {
    NameFieldsRoundTrip(dir, fields, suffix);
  }
}
