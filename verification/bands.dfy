/** The band/swath resolver of the Sentinel-1 STAC tooling: from the path of
    one band image it derives the key under which the image is stored in a
    STAC item and the asset descriptor stored there. The polarization table
    and the set of SLC swath names are parameters. */
module Bands {
  import opened Text
  import opened Paths

  /** An EO band entry of the polarization table. */
  datatype Band = Band(name: string, description: string)

  /** A STAC asset holding one band image, with its EO extension's band list. */
  datatype Asset = Asset(
    href: string,
    mediaType: string,
    title: string,
    description: string,
    roles: seq<string>,
    eoBands: seq<Band>)

  /** The ways resolving an image path can fail. */
  datatype AssetError =
    | MissingMediaType(href: string)             // no media type given and not a TIFF name
    | PartIndexOutOfRange(index: nat, count: nat) // the file name has too few fields
    | UnknownBand(bandId: string)                 // the band id is not in the polarization table
    | UnexpectedAsset(href: string)               // no band id could be read

  datatype Option<T> = None | Some(value: T)

  datatype Result<T> = Ok(value: T) | Err(error: AssetError) {
    predicate IsFailure() { Err? }

    function PropagateFailure<U>(): Result<U>
      requires Err?
    {
      Err(error)
    }

    function Extract(): T
      requires Ok?
    {
      value
    }
  }

  /** The GeoTIFF media type of the STAC library. */
  const GeoTiff: string := "image/tiff; application=geotiff"

  const DataDescription: string := "Actual SAR data that have been processed into an image"

  const DataRole: string := "data"

  /** The extension names a TIFF file, ignoring ASCII case. */
  predicate IsTiffExtension(ext: string)
  {
    Lower(ext) == ".tiff" || Lower(ext) == ".tif"
  }

  /** The media type is known: given explicitly, or implied by a TIFF extension. */
  predicate HasMediaType(href: string, mediaType: Option<string>)
  {
    mediaType.Some? || IsTiffExtension(Extension(href))
  }

  /** The explicit media type, else GeoTIFF for a TIFF extension, else an error. */
  function AssetMediaType(href: string, mediaType: Option<string>): Result<string>
  {
    if mediaType.Some? then Ok(mediaType.value)
    else if IsTiffExtension(Extension(href)) then Ok(GeoTiff)
    else Err(MissingMediaType(href))
  }

  /** The file name up to its first `.`. */
  function Stem(href: string): string
  {
    Split(Basename(href), '.')[0]
  }

  /** The hyphen-separated fields of the stem. */
  function AssetParts(href: string): seq<string>
  {
    Split(Stem(href), '-')
  }

  /** The last field of a two-field name, else the fourth field. */
  function SelectBandId(parts: seq<string>): (r: Result<string>)
    requires |parts| >= 1
    ensures r.Ok? <==> |parts| != 1 && |parts| != 3
    ensures r.Err? ==> r.error == PartIndexOutOfRange(3, |parts|)
  {
    if |parts| == 2 then Ok(parts[|parts| - 1])
    else if 3 < |parts| then Ok(parts[3])
    else Err(PartIndexOutOfRange(3, |parts|))
  }

  /** For SLC products whose second field, upper-cased, names a swath, the
      key is that swath in lower case, a hyphen and the band id; otherwise
      it is the band id. */
  function AssetKey(parts: seq<string>, bandId: string, slcSwaths: bool, swaths: set<string>): string
    requires |parts| >= 2
  {
    if slcSwaths then
      var swath := Upper(parts[1]);
      if swath in swaths then Lower(swath) + "-" + bandId else bandId
    else
      bandId
  }

  /** Resolves the band image at `href`, once its media type is settled, to
      its asset key and asset. */
  function BandAsset(
    href: string,
    assetMediaType: string,
    slcSwaths: bool,
    polarizations: map<string, Band>,
    swaths: set<string>
  ): (r: Result<(string, Asset)>)
  {
    var parts := AssetParts(href);
    var bandId :- SelectBandId(parts);
    if bandId !in polarizations then Err(UnknownBand(bandId))
    else
      var band := polarizations[bandId];
      var asset := Asset(href, assetMediaType, band.name + " Data", DataDescription, [DataRole], [band]);
      Ok((AssetKey(parts, bandId, slcSwaths, swaths), asset))
  }

  /** Resolves the band image at `href` to its asset key and asset. */
  function ImageAssetFromHref(
    href: string,
    mediaType: Option<string>,
    slcSwaths: bool,
    polarizations: map<string, Band>,
    swaths: set<string>
  ): (r: Result<(string, Asset)>)
    ensures r.Ok? ==>
      var asset := r.value.1;
      && asset.href == href
      && asset.roles == [DataRole]
      && asset.description == DataDescription
      && |asset.eoBands| == 1
      && asset.eoBands[0] in polarizations.Values
      && asset.title == asset.eoBands[0].name + " Data"
    ensures r.Err? && r.error.MissingMediaType? ==> r.error.href == href
  {
    var assetMediaType :- AssetMediaType(href, mediaType);
    BandAsset(href, assetMediaType, slcSwaths, polarizations, swaths)
  }
}
