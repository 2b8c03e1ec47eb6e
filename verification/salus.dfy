/**
 * The Salus provider's decisions: whether a newer image is advertised
 * (`isNewImageAvailable`) and how a new image is acquired and checked
 * (`getNewImage`). The HTTP responses and the OTA header parser are
 * parameters: `catalog` is the fetched `versions` list, `download` maps a URL
 * to the events its archive produces, `parse` stands for `common.parseImage`.
 */
module Salus {

  import opened Basics
  import opened OtaTypes
  import opened Hex
  import opened Catalog
  import opened Archive

  /** The manufacturer code every Salus OTA file must carry. */
  const SalusManufacturerCode := 4216

  /** `Math.sign` on integers. */
  function Sign(x: int): (s: int)
    ensures s == -1 || s == 0 || s == 1
    ensures s == -1 <==> x < 0
    ensures s == 1 <==> x > 0
  {
    if x < 0 then -1 else if x > 0 then 1 else 0
  }

  /**
   * -1 when the catalog is ahead of the installed image, 0 when they are equal,
   * 1 when the device is ahead; fails like `getImageMeta` when the model has no
   * record.
   */
  function IsNewImageAvailable(current: InstalledImage, modelId: string, catalog: seq<CatalogRecord>)
    : (r: Result<int>)
    requires HexVersions(catalog, modelId)
    ensures r.Err? <==> GetImageMeta(catalog, modelId).Err?
    ensures r.Err? ==> r.error == MissingCatalogRecord
    ensures r.Ok? ==> r.value == -1 || r.value == 0 || r.value == 1
    ensures r.Ok? ==> var latest := GetImageMeta(catalog, modelId).value.fileVersion;
                      && (r.value == -1 <==> current.fileVersion < latest)
                      && (r.value == 0 <==> current.fileVersion == latest)
                      && (r.value == 1 <==> current.fileVersion > latest)
  {
    match GetImageMeta(catalog, modelId)
    case Err(e) => Err(e)
    case Ok(meta) => Ok(Sign(current.fileVersion - meta.fileVersion))
  }

  predicate IsOtaFile(file: ExtractedFile)
  {
    EndsWith(file.headers.name, ".ota")
  }

  /** The three identity checks, in the provider's order. */
  function CheckIdentity(image: OtaImage, meta: ImageMeta, current: InstalledImage): (r: Result<OtaImage>)
    ensures r.Ok? <==> image.header.fileVersion == meta.fileVersion
                       && image.header.manufacturerCode == SalusManufacturerCode
                       && image.header.imageType == current.imageType
    ensures r.Ok? ==> r.value == image
    ensures image.header.fileVersion != meta.fileVersion ==> r == Err(FileVersionMismatch)
    ensures (image.header.fileVersion == meta.fileVersion
             && image.header.manufacturerCode != SalusManufacturerCode)
            ==> r == Err(ManufacturerCodeMismatch)
    ensures (image.header.fileVersion == meta.fileVersion
             && image.header.manufacturerCode == SalusManufacturerCode
             && image.header.imageType != current.imageType)
            ==> r == Err(ImageTypeMismatch)
    ensures r.Err? ==> r.error in {FileVersionMismatch, ManufacturerCodeMismatch, ImageTypeMismatch}
  {
    if image.header.fileVersion != meta.fileVersion then Err(FileVersionMismatch)
    else if image.header.manufacturerCode != SalusManufacturerCode then Err(ManufacturerCodeMismatch)
    else if image.header.imageType != current.imageType then Err(ImageTypeMismatch)
    else Ok(image)
  }

  /** The payload taken from an archive: the first file named `*.ota`, parsed and checked. */
  function PayloadOutcome(files: seq<ExtractedFile>, parse: Bytes -> ParseResult,
                          meta: ImageMeta, current: InstalledImage): (r: Result<OtaImage>)
    ensures r == Err(MissingOtaFile) <==> forall j :: 0 <= j < |files| ==> !IsOtaFile(files[j])
    ensures r.Ok? ==> exists k :: (0 <= k < |files| && IsOtaFile(files[k])
                                   && (forall j :: 0 <= j < k ==> !IsOtaFile(files[j]))
                                   && parse(files[k].data) == Parsed(r.value))
    ensures r.Ok? ==> && r.value.header.fileVersion == meta.fileVersion
                      && r.value.header.manufacturerCode == SalusManufacturerCode
                      && r.value.header.imageType == current.imageType
  {
    match First(files, IsOtaFile)
    case None => Err(MissingOtaFile)
    case Some(k) =>
      match parse(files[k].data)
      case ParseFailed(reason) => Err(ParseError(reason))
      case Parsed(image) => CheckIdentity(image, meta, current)
  }

  /** What `getNewImage` settles to, step by step. */
  function NewImageOutcome(current: InstalledImage, modelId: string, catalog: seq<CatalogRecord>,
                           download: string -> TarEvents, parse: Bytes -> ParseResult)
    : (r: Result<OtaImage>)
    requires HexVersions(catalog, modelId)
    ensures GetImageMeta(catalog, modelId).Err? ==> r == Err(MissingCatalogRecord)
    ensures var meta := GetImageMeta(catalog, modelId);
            (meta.Ok? && meta.value.fileVersion <= current.fileVersion) ==> r == Err(NoNewImage)
    ensures var meta := GetImageMeta(catalog, modelId);
            (meta.Ok? && meta.value.fileVersion > current.fileVersion && download(meta.value.url).ending.Errored?)
            ==> r == Err(ArchiveError(download(meta.value.url).ending.reason))
    ensures var meta := GetImageMeta(catalog, modelId);
            (meta.Ok? && meta.value.fileVersion > current.fileVersion && download(meta.value.url).ending == Finished)
            ==> r == PayloadOutcome(Collect(download(meta.value.url).entries), parse, meta.value, current)
    ensures r.Ok? ==> && GetImageMeta(catalog, modelId).Ok?
                      && r.value.header.fileVersion == GetImageMeta(catalog, modelId).value.fileVersion
                      && r.value.header.fileVersion > current.fileVersion
                      && r.value.header.manufacturerCode == SalusManufacturerCode
                      && r.value.header.imageType == current.imageType
  {
    match GetImageMeta(catalog, modelId)
    case Err(e) => Err(e)
    case Ok(meta) =>
      if !(meta.fileVersion > current.fileVersion) then Err(NoNewImage)
      else
        match Extracted(download(meta.url))
        case Err(e) => Err(e)
        case Ok(files) => PayloadOutcome(files, parse, meta, current)
  }

  /**
   * `getNewImage`: resolve the descriptor, refuse unless it is strictly newer,
   * download and collect the archive, take the first `.ota` file, parse it and
   * check its identity.
   */
  method GetNewImage(current: InstalledImage, modelId: string, catalog: seq<CatalogRecord>,
                     download: string -> TarEvents, parse: Bytes -> ParseResult)
    returns (r: Result<OtaImage>)
    requires HexVersions(catalog, modelId)
    ensures r == NewImageOutcome(current, modelId, catalog, download, parse)
  {
    var metaResult := GetImageMeta(catalog, modelId);
    if metaResult.Err? {
      return Err(metaResult.error);
    }
    var meta := metaResult.value;
    if !(meta.fileVersion > current.fileVersion) {
      return Err(NoNewImage);
    }
    var files := Untar(download(meta.url));
    if files.Err? {
      return Err(files.error);
    }
    var imageFile := First(files.value, IsOtaFile);
    if imageFile.None? {
      return Err(MissingOtaFile);
    }
    var image := parse(files.value[imageFile.value].data);
    if image.ParseFailed? {
      return Err(ParseError(image.reason));
    }
    r := CheckIdentity(image.image, meta, current);
  }

  /** Without a strictly newer catalog version the attempt fails before anything is downloaded:
      the outcome is `NoNewImage` whatever the download and the parser would give. */
  lemma GateBeforeDownload(current: InstalledImage, modelId: string, catalog: seq<CatalogRecord>,
                           download: string -> TarEvents, parse: Bytes -> ParseResult)
    requires HexVersions(catalog, modelId)
    requires GetImageMeta(catalog, modelId).Ok?
    requires GetImageMeta(catalog, modelId).value.fileVersion <= current.fileVersion
    ensures NewImageOutcome(current, modelId, catalog, download, parse) == Err(NoNewImage)
  {
  }

  /** The only URL the attempt reads is the descriptor's, which is never plain HTTP. */
  lemma DownloadsOnlyDescriptorUrl(current: InstalledImage, modelId: string, catalog: seq<CatalogRecord>,
                                   d1: string -> TarEvents, d2: string -> TarEvents,
                                   parse: Bytes -> ParseResult)
    requires HexVersions(catalog, modelId)
    requires GetImageMeta(catalog, modelId).Ok?
    requires d1(GetImageMeta(catalog, modelId).value.url) == d2(GetImageMeta(catalog, modelId).value.url)
    ensures !StartsWith(GetImageMeta(catalog, modelId).value.url, Insecure)
    ensures NewImageOutcome(current, modelId, catalog, d1, parse)
         == NewImageOutcome(current, modelId, catalog, d2, parse)
  {
  }

  /** The advisory check and the acquisition gate agree: the gate lets an attempt
      through exactly when `isNewImageAvailable` answers -1. */
  lemma AvailabilityMatchesGate(current: InstalledImage, modelId: string, catalog: seq<CatalogRecord>,
                                download: string -> TarEvents, parse: Bytes -> ParseResult)
    requires HexVersions(catalog, modelId)
    requires GetImageMeta(catalog, modelId).Ok?
    ensures IsNewImageAvailable(current, modelId, catalog) == Ok(-1)
        <==> NewImageOutcome(current, modelId, catalog, download, parse) != Err(NoNewImage)
  {
  }

  /** The payload is the first `.ota` file of the archive, whatever comes after it. */
  lemma PayloadIsFirstOtaFile(files: seq<ExtractedFile>, parse: Bytes -> ParseResult,
                              meta: ImageMeta, current: InstalledImage, k: nat)
    requires k < |files| && IsOtaFile(files[k])
    requires forall j :: 0 <= j < k ==> !IsOtaFile(files[j])
    ensures PayloadOutcome(files, parse, meta, current)
         == match parse(files[k].data)
            case ParseFailed(reason) => Err(ParseError(reason))
            case Parsed(image) => CheckIdentity(image, meta, current)
  {
    assert First(files, IsOtaFile) == Some(k);
  }

  /** An archive without a `.ota` file fails the attempt. */
  lemma NoOtaFileFails(files: seq<ExtractedFile>, parse: Bytes -> ParseResult,
                       meta: ImageMeta, current: InstalledImage)
    requires forall j :: 0 <= j < |files| ==> !IsOtaFile(files[j])
    ensures PayloadOutcome(files, parse, meta, current) == Err(MissingOtaFile)
  {
  }

  /** A wrong value in any one identity field is enough to reject the image. */
  lemma AnyMismatchRejects(image: OtaImage, meta: ImageMeta, current: InstalledImage)
    requires image.header.fileVersion != meta.fileVersion
          || image.header.manufacturerCode != SalusManufacturerCode
          || image.header.imageType != current.imageType
    ensures CheckIdentity(image, meta, current).Err?
  {
  }
}
