# Sentinel-1 band image resolver, in Dafny

This project models `image_asset_from_href` from the Sentinel-1 STAC tooling
(`src/stactools/sentinel1/bands.py`). Given the path of one band image, the
resolver does three things:

- It settles the image's media type. This is the explicit one if given,
  GeoTIFF for a `.tif`/`.tiff` extension in any case, and an error otherwise.
- It splits the file name's stem into hyphen fields. The polarization band
  id is the second field of a two-field name, or the fourth field of a name
  with four or more fields. A name with one or three fields fails with an
  index error.
- It looks the band id up in the polarization table and builds the asset:
  href, media type, title `<band name> Data`, the fixed description, role
  `data` and the band as its only EO band. The asset is stored under a key.
  The key is the band id. For SLC products whose second field names a known
  swath, the key is prefixed by that swath in lower case and a hyphen.

Modules:

- `Text` (`text.dfy`): the Python `str` operations the resolver relies on.
  These are `find` of one character (only for a character that occurs, the
  one case the resolver needs), `rfind` of one character, `split` on one
  character with its inverse `join`, and ASCII `upper`/`lower`.
- `Paths` (`paths.dfy`): `os.path.basename` and the extension half of
  `os.path.splitext`, with POSIX semantics.
- `Bands` (`bands.dfy`): the entities (band, asset, error) and the resolver
  itself. `ImageAssetFromHref` is the function in the source; `BandAsset` is
  its second half, once the media type is known.
- `BandProperties` (`bands_properties.dfy`): the resolver's behaviour for
  every input. It covers every outcome, the key format, the case rules, and
  the round trip from naming a file to reading its fields back.
- `BandScenarios` (`scenarios.dfy`): concrete file names worked through the
  model.

The polarization table (`SENTINEL_POLARIZATIONS`) and the SLC swath set
(`SENTINEL_SLC_SWATHS`) live in modules that are not part of this model. Both
are parameters: a `map<string, Band>` and a `set<string>`.

The code's behaviour is followed where a plain reading of the resolver might
expect otherwise:

- The band id is looked up exactly as written in the file name. It is not
  lower-cased, so `VV` is not found under `vv` (`BandIdCaseScenario`).
- The band id is the field at index 3, the fourth one. This suits full
  product names such as `s1a-iw1-slc-vv-...`. In a name without the
  product-type field, such as `S1A-iw1-vv-001.tiff`, the code reads `001`
  (`FourthFieldScenario`), not `vv`.
- In a two-field name, the second field is both the band id and the swath
  candidate (`TwoFieldSwathScenario`).
- The source's errors are a plain `Exception` for the media type, an
  `IndexError` for too few fields and a `KeyError` for an unknown band id.
  They are modelled as the `AssetError` variants `MissingMediaType`,
  `PartIndexOutOfRange` and `UnknownBand`.
- The `ValueError` branch (lines 63-65) cannot be reached: `band_id` is
  always a string. Its variant `UnexpectedAsset` exists, and
  `NeverUnexpectedAsset` proves it is never produced.

## Model

| member | source | states |
|---|---|---|
| Bands.ImageAssetFromHref | src/stactools/sentinel1/bands.py:14-65 | a resolved asset keeps the href, has role `data` and the fixed description, carries exactly one EO band taken from the polarization table, and is titled after that band; a missing-media-type error names the href |
| Bands.AssetMediaType | src/stactools/sentinel1/bands.py:24-31 | no ensures of its own; see `ExplicitMediaTypeWins`, `NonTiffFailsFirst` and `TiffMeansGeoTiff` |
| Bands.IsTiffExtension | src/stactools/sentinel1/bands.py:28 | no ensures of its own; see `TiffExtensionSpelling` |
| Bands.Stem | src/stactools/sentinel1/bands.py:34 | no ensures of its own; see `StemIsFirstDotField` and `StemOfName` |
| Bands.AssetParts | src/stactools/sentinel1/bands.py:34 | no ensures of its own; see `HyphensDecideFields` and `NameFieldsRoundTrip` |
| Bands.SelectBandId | src/stactools/sentinel1/bands.py:35-38 | a band id is read exactly when there are neither one nor three fields; otherwise the error reports index 3 out of range |
| Bands.AssetKey | src/stactools/sentinel1/bands.py:56-59 | no ensures of its own; see `KeyWithSwaths`, `KeyWithoutSwaths` and `KeyFields` |
| Bands.BandAsset | src/stactools/sentinel1/bands.py:33-61 | no ensures of its own; see `TooFewFieldsFail`, `UnknownBandFails` and `KnownBandResolves` |
| BandProperties.NamedBandId | src/stactools/sentinel1/bands.py:35-38 | the band id a name carries, when there is one, comes from a name of at least two fields and holds no hyphen |
| BandProperties.NamedFileBandId | src/stactools/sentinel1/bands.py:34-38 | a file named by joining plain fields with hyphens has a band id exactly when it has two or at least four fields: the second of two, else the fourth |
| BandProperties.ExplicitMediaTypeWins | src/stactools/sentinel1/bands.py:25-26 | an explicit media type is used as given whatever the extension, and the missing-media-type error cannot occur |
| BandProperties.NonTiffFailsFirst | src/stactools/sentinel1/bands.py:24-31 | with no media type and an extension other than `.tif`/`.tiff`, the result is the missing-media-type error for that href, before the name is parsed |
| BandProperties.TiffMeansGeoTiff | src/stactools/sentinel1/bands.py:27-29 | with no media type and a TIFF extension, the result is exactly that of passing GeoTIFF explicitly |
| BandProperties.TiffExtensionSpelling | src/stactools/sentinel1/bands.py:28 | the accepted extensions are exactly `.tif` and `.tiff` in any mix of ASCII case |
| BandProperties.StemIsFirstDotField | src/stactools/sentinel1/bands.py:34 | the stem is the base name up to its first dot: dot-free, a prefix of the base name, and followed by a dot when shorter |
| BandProperties.HyphensDecideFields | src/stactools/sentinel1/bands.py:34-38 | the stem has one field more than hyphens, and a band id is read exactly when it has one hyphen or at least three |
| BandProperties.NameFieldsRoundTrip | src/stactools/sentinel1/bands.py:34 | a file named by joining separator-free fields with hyphens, below any directory and followed by any extension, parses back into exactly those fields |
| BandProperties.StemOfName | src/stactools/sentinel1/bands.py:34 | below a directory, the stem of `<stem><suffix>` is `<stem>` when the suffix is empty or starts with a dot |
| BandProperties.TooFewFieldsFail | src/stactools/sentinel1/bands.py:35-38 | a stem with one or three fields fails with the index-3 out-of-range error, reporting the field count |
| BandProperties.UnknownBandFails | src/stactools/sentinel1/bands.py:41 | a band id absent from the table fails with that band id, exactly as spelled in the name |
| BandProperties.KnownBandResolves | src/stactools/sentinel1/bands.py:41-54 | a band id present in the table always resolves, to the asset built from its table entry and the settled media type |
| BandProperties.SuccessNeedsKnownBand | src/stactools/sentinel1/bands.py:24-41 | success implies a settled media type, a band id in the name and that id in the table |
| BandProperties.KeyWithoutSwaths | src/stactools/sentinel1/bands.py:56-61 | without swath handling the key is the band id read from the name |
| BandProperties.KeyWithSwaths | src/stactools/sentinel1/bands.py:56-59 | with swath handling the key is `<second field lower-cased>-<band id>` exactly when the upper-cased second field is a known swath, else the band id |
| BandProperties.SwathsOnlyChangeKey | src/stactools/sentinel1/bands.py:53-61 | swath handling never changes whether resolution succeeds, the error, or the asset; only the key |
| BandProperties.KeyFields | src/stactools/sentinel1/bands.py:56-59 | a key splits on hyphens into one or two fields: the band id last, and a swath first only for SLC products whose swath is known |
| BandProperties.KeyNamesItsBand | src/stactools/sentinel1/bands.py:54-61 | the last hyphen field of a resolved key is a table entry, and it is the asset's only EO band |
| BandProperties.NeverUnexpectedAsset | src/stactools/sentinel1/bands.py:35-65 | the unexpected-asset error is never produced |
| Paths.Basename | src/stactools/sentinel1/bands.py:34 | no ensures of its own; see `BasenameIsLastComponent` and `BasenameBelowDir` |
| Paths.Extension | src/stactools/sentinel1/bands.py:24 | no ensures of its own; see `ExtensionOfBasename` and `ExtensionOfName` |
| Paths.ExtensionOfBasename | src/stactools/sentinel1/bands.py:24 | the extension is empty exactly when every dot of the base name is leading; otherwise it is the base name's suffix from its last dot, preceded by a non-dot character |
| Paths.ExtensionOfName | src/stactools/sentinel1/bands.py:24 | below a directory, a name `<stem><ext>` with a non-empty dot-free stem and a one-dot extension has extension `<ext>` |
| Paths.BasenameIsLastComponent | src/stactools/sentinel1/bands.py:34 | the base name is the longest slash-free suffix of the path |
| Paths.BasenameBelowDir | src/stactools/sentinel1/bands.py:34 | the base name of `<dir>/<name>` is `<name>` |
| Text.Split | src/stactools/sentinel1/bands.py:34 | splitting yields at least one field, and no field contains the separator |
| Text.JoinSplit | src/stactools/sentinel1/bands.py:34 | joining the fields of a split with the separator gives back the string |
| Text.SplitJoin | src/stactools/sentinel1/bands.py:34 | splitting a join of separator-free fields gives back the fields |
| Text.SplitCount | src/stactools/sentinel1/bands.py:34 | a split has one field more than the string has separators |
| Text.SplitFirstField | src/stactools/sentinel1/bands.py:34 | the first field is everything before the first separator |
| Text.IndexOf | src/stactools/sentinel1/bands.py:34 | the index found holds the character, and no earlier position does |
| Text.LastIndexOf | src/stactools/sentinel1/bands.py:24 | the index found holds the character and no later position does, or it is -1 when the character is absent |
| Text.Upper | src/stactools/sentinel1/bands.py:57 | upper-casing keeps the length and maps each character through ASCII upper case |
| Text.Lower | src/stactools/sentinel1/bands.py:59 | lower-casing keeps the length and maps each character through ASCII lower case |
| Text.LowerOfUpper | src/stactools/sentinel1/bands.py:57-59 | lower-casing the upper-cased swath gives the lower-cased second field |
| Text.CaseKeepsNonLetters | src/stactools/sentinel1/bands.py:57-59 | case mapping neither adds nor removes a hyphen or any other non-letter |
| BandScenarios.SlcSwathScenario | src/stactools/sentinel1/bands.py:56-61 | `s1a-iw1-slc-vv-001.tiff` with swath handling resolves to key `iw1-vv` and the GeoTIFF asset of band `vv` |
| BandScenarios.PlainKeyScenario | src/stactools/sentinel1/bands.py:35-61 | the same image without swath handling resolves to key `vv` |
| BandScenarios.BandIdCaseScenario | src/stactools/sentinel1/bands.py:41 | `s1a-iw1-slc-VV-001.tiff` fails as an unknown band `VV` when the table holds `vv` |
| BandScenarios.FourthFieldScenario | src/stactools/sentinel1/bands.py:37-41 | `S1A-iw1-vv-001.tiff` reads band id `001` and fails as an unknown band |
| BandScenarios.ThreeFieldsScenario | src/stactools/sentinel1/bands.py:37-38 | `data/s1a-iw1-vv.tiff` fails reading field index 3 of 3 |
| BandScenarios.PngWithoutMediaTypeScenario | src/stactools/sentinel1/bands.py:27-31 | a `.png` image without a media type fails with the missing-media-type error |
| BandScenarios.PngWithMediaTypeScenario | src/stactools/sentinel1/bands.py:25-26 | the same image with media type `image/png` resolves, with that media type |
| BandScenarios.TwoFieldSwathScenario | src/stactools/sentinel1/bands.py:35-59 | `iw1-vv.tiff` with swath handling resolves to key `vv`: the swath candidate is the band id itself |

## Left out

- Logging (line 22) has no effect on the result and is not modelled.
- The `item` parameter is unused by the resolver and is not modelled.
- The pystac `Asset` and `EOExtension` objects are modelled as one immutable `Asset` record. Its EO band list is a field of the record, not an extension object attached to the asset.
- Band: only the band's name and description are modelled. Other fields of the pystac band object are carried by the table and never inspected.
- The contents of `SENTINEL_POLARIZATIONS` and `SENTINEL_SLC_SWATHS` are parameters. The constants modules that define them are not part of this model.
- `slc_swaths=None` is falsy in the source and is modelled as `false`.
- Case mapping covers ASCII letters only. Python's full Unicode `upper`/`lower` is not modelled.
- Paths follow POSIX `os.path`. Windows drive letters and `\` separators are not modelled.
- `src/stactools/sentinel1/grd/properties.py` (product metadata read from the manifest XML and raster files) is I/O-bound and is not part of this model.
- PartIndexOutOfRange: the field count it carries is a detail of the model. The source's `IndexError` (line 38) reports no count.
