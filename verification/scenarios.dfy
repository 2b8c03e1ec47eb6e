/**
 * Worked examples: one catalog with a single record for model "X", version
 * "0002", served over plain HTTP.
 */
module SalusScenarios {

  import opened Basics
  import opened OtaTypes
  import opened Hex
  import opened Catalog
  import opened Archive
  import opened Salus

  const Path := "example/fw.tar"
  /** `{model: "X", version: "0002", url: "http://example/fw.tar"}` */
  const Record := CatalogRecord("X", "0002", Insecure + Path)
  /** `https://example/fw.tar` */
  const SecureLink := Secure + Path

  /** "0002" reads as 2. */
  lemma VersionOfRecord()
    ensures IsHexString(Record.version) && HexValue(Record.version) == 2
  {
    assert HexValue("2") == 2 by { assert "2"[..0] == []; }
    HexValueLeadingZero("2");
    assert "0" + "2" == "02";
    HexValueLeadingZero("02");
    assert "0" + "02" == "002";
    HexValueLeadingZero("002");
    assert "0" + "002" == Record.version;
  }

  /** The plain-HTTP link becomes an HTTPS one. */
  lemma UrlOfRecord()
    ensures SecureUrl(Record.url) == SecureLink
  {
    SecureUrlKeepsRest(Path);
  }

  /** The record's descriptor: version 2, fetched over HTTPS. */
  lemma ScenarioDescriptor()
    ensures HexVersions([Record], "X")
    ensures GetImageMeta([Record], "X") == Ok(ImageMeta(2, SecureLink))
  {
    VersionOfRecord();
    UrlOfRecord();
    GetImageMetaFirstMatch([Record], "X", 0);
  }

  /** Installed version 1: an update is advertised and a well-formed archive yields its image. */
  lemma ScenarioUpdate(download: string -> TarEvents, parse: Bytes -> ParseResult,
                       payload: Bytes, image: OtaImage)
    requires download(SecureLink) == TarEvents([TarEntry(TarHeader("image.ota"), [payload])], Finished)
    requires parse(payload) == Parsed(image)
    requires image.header == OtaHeader(2, SalusManufacturerCode, 7)
    ensures HexVersions([Record], "X")
    ensures IsNewImageAvailable(InstalledImage(1, 7), "X", [Record]) == Ok(-1)
    ensures NewImageOutcome(InstalledImage(1, 7), "X", [Record], download, parse) == Ok(image)
  {
    ScenarioDescriptor();
    var files := Collect(download(SecureLink).entries);
    ConcatSingle(payload);
    assert files == [ExtractedFile(TarHeader("image.ota"), payload)];
    assert IsOtaFile(files[0]) by { assert "image.ota"[9 - 4..] == ".ota"; }
    PayloadIsFirstOtaFile(files, parse, ImageMeta(2, SecureLink), InstalledImage(1, 7), 0);
  }

  /** Installed version 2: the attempt stops at the gate, before any download. */
  lemma ScenarioAlreadyCurrent(download: string -> TarEvents, parse: Bytes -> ParseResult)
    ensures HexVersions([Record], "X")
    ensures IsNewImageAvailable(InstalledImage(2, 7), "X", [Record]) == Ok(0)
    ensures NewImageOutcome(InstalledImage(2, 7), "X", [Record], download, parse) == Err(NoNewImage)
  {
    ScenarioDescriptor();
  }

  /** A payload from another manufacturer is rejected on that field and nothing is returned. */
  lemma ScenarioForeignManufacturer(download: string -> TarEvents, parse: Bytes -> ParseResult,
                                    payload: Bytes, image: OtaImage)
    requires download(SecureLink) == TarEvents([TarEntry(TarHeader("image.ota"), [payload])], Finished)
    requires parse(payload) == Parsed(image)
    requires image.header == OtaHeader(2, 4217, 7)
    ensures HexVersions([Record], "X")
    ensures NewImageOutcome(InstalledImage(1, 7), "X", [Record], download, parse) == Err(ManufacturerCodeMismatch)
  {
    ScenarioDescriptor();
    var files := Collect(download(SecureLink).entries);
    ConcatSingle(payload);
    assert files == [ExtractedFile(TarHeader("image.ota"), payload)];
    assert IsOtaFile(files[0]) by { assert "image.ota"[9 - 4..] == ".ota"; }
    PayloadIsFirstOtaFile(files, parse, ImageMeta(2, SecureLink), InstalledImage(1, 7), 0);
  }

  /** A model the catalog does not list fails; no descriptor is produced. */
  lemma ScenarioUnknownModel()
    ensures HexVersions([Record], "Y")
    ensures GetImageMeta([Record], "Y") == Err(MissingCatalogRecord)
  {
    assert IsHexString("0002");
  }

  /** A record for another model with an unreadable version does not stand in the way:
      it is never parsed, and model "X" still gets its descriptor. */
  lemma ScenarioMalformedOtherRecord()
    ensures HexVersions([CatalogRecord("Y", "", "u"), Record], "X")
    ensures GetImageMeta([CatalogRecord("Y", "", "u"), Record], "X") == Ok(ImageMeta(2, SecureLink))
  {
    VersionOfRecord();
    UrlOfRecord();
    GetImageMetaFirstMatch([CatalogRecord("Y", "", "u"), Record], "X", 1);
  }

  /** A later record for the same model is never read, whatever its version holds. */
  lemma ScenarioMalformedLaterRecord()
    ensures HexVersions([Record, CatalogRecord("X", "", "u")], "X")
    ensures GetImageMeta([Record, CatalogRecord("X", "", "u")], "X") == Ok(ImageMeta(2, SecureLink))
  {
    var catalog := [Record, CatalogRecord("X", "", "u")];
    VersionOfRecord();
    UrlOfRecord();
    assert IsFor("X", catalog[0]);
    GetImageMetaFirstMatch(catalog, "X", 0);
  }
}
