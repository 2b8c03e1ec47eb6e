/**
 * The values the Salus OTA provider passes around: catalog records, the image
 * descriptor built from one, the installed image of a device, the parsed OTA
 * image, and the ways an update attempt fails.
 */
module OtaTypes {

  import opened Basics

  /** One element of the catalog's `versions` list. */
  datatype CatalogRecord = CatalogRecord(model: string, version: string, url: string)

  /** The descriptor `getImageMeta` returns. */
  datatype ImageMeta = ImageMeta(fileVersion: nat, url: string)

  /** What the caller knows about the firmware installed on the device. */
  datatype InstalledImage = InstalledImage(fileVersion: int, imageType: int)

  /** The identity fields of an OTA file header. */
  datatype OtaHeader = OtaHeader(fileVersion: int, manufacturerCode: int, imageType: int)

  /** An OTA file as the external header parser returns it. */
  datatype OtaImage = OtaImage(header: OtaHeader, body: Bytes)

  /**
   * Every way an update attempt ends without an image. Each is a rejected
   * promise in the provider; none is retried or swallowed.
   */
  datatype Failure =
    /** No catalog record has the device's model. The provider's guard compares
        the result of `find` with `null`, but `find` yields `undefined`, so the
        guard passes and reading `version` of `undefined` throws a TypeError. */
    | MissingCatalogRecord
    /** The catalog version is not strictly newer than the installed one. */
    | NoNewImage
    /** The archive stream reported an error. */
    | ArchiveError(reason: string)
    /** No extracted file name ends in `.ota`: reading `data` of `undefined`
        throws a TypeError. */
    | MissingOtaFile
    /** The external header parser failed; its error is passed on unchanged. */
    | ParseError(reason: string)
    | FileVersionMismatch
    | ManufacturerCodeMismatch
    | ImageTypeMismatch

  /** What the external header parser (`common.parseImage`) gives back. */
  datatype ParseResult = Parsed(image: OtaImage) | ParseFailed(reason: string)

  datatype Result<+T> = Ok(value: T) | Err(error: Failure)
}
