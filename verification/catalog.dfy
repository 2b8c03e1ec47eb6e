/**
 * `getImageMeta`: pick the catalog record for a device model and turn it into
 * an image descriptor. The catalog is the `versions` list of the fetched
 * firmware status document; fetching it is not part of this model.
 */
module Catalog {

  import opened Basics
  import opened OtaTypes
  import opened Hex

  const Insecure := "http://"
  const Secure := "https://"

  /**
   * `url.replace(/^http:\/\//, 'https://')`: a leading plain-HTTP scheme
   * becomes HTTPS; any other URL, including an upper-case `HTTP://`, is kept.
   */
  function SecureUrl(url: string): (r: string)
    ensures !StartsWith(r, Insecure)
    ensures StartsWith(url, Insecure) ==> StartsWith(r, Secure) && |r| == |url| + 1
    ensures !StartsWith(url, Insecure) ==> r == url
  {
    if StartsWith(url, Insecure) then
      var r := Secure + url[|Insecure|..];
      assert r[4] != Insecure[4];
      r
    else url
  }

  /** A plain-HTTP URL keeps everything after its scheme. */
  lemma SecureUrlKeepsRest(rest: string)
    ensures SecureUrl(Insecure + rest) == Secure + rest
  {
    assert (Insecure + rest)[..|Insecure|] == Insecure;
    assert (Insecure + rest)[|Insecure|..] == rest;
  }

  /** Rewriting twice is rewriting once. */
  lemma SecureUrlIdempotent(url: string)
    ensures SecureUrl(SecureUrl(url)) == SecureUrl(url)
  {
  }

  predicate IsFor(modelId: string, record: CatalogRecord)
  {
    record.model == modelId
  }

  /** The record `find` picks for `modelId`, the only one `getImageMeta` parses,
      has a version `parseInt(_, 16)` reads in full; every other record may hold anything. */
  predicate HexVersions(catalog: seq<CatalogRecord>, modelId: string)
  {
    match First(catalog, record => IsFor(modelId, record))
    case None => true
    case Some(i) => IsHexString(catalog[i].version)
  }

  /**
   * The descriptor of the first record whose model is exactly `modelId`:
   * its version read in base 16 and its URL moved to HTTPS. Without such a
   * record the call fails.
   */
  function GetImageMeta(catalog: seq<CatalogRecord>, modelId: string): (r: Result<ImageMeta>)
    requires HexVersions(catalog, modelId)
    ensures r.Err? <==> forall i :: 0 <= i < |catalog| ==> catalog[i].model != modelId
    ensures r.Err? ==> r.error == MissingCatalogRecord
    ensures r.Ok? ==> !StartsWith(r.value.url, Insecure)
    ensures r.Ok? ==> exists i :: (0 <= i < |catalog| && catalog[i].model == modelId
                                 && (forall j :: 0 <= j < i ==> catalog[j].model != modelId)
                                 && IsHexString(catalog[i].version)
                                 && r.value == ImageMeta(HexValue(catalog[i].version), SecureUrl(catalog[i].url)))
  {
    match First(catalog, record => IsFor(modelId, record))
    case None => Err(MissingCatalogRecord)
    case Some(i) =>
      var record := catalog[i];
      Ok(ImageMeta(HexValue(record.version), SecureUrl(record.url)))
  }

  /** The record chosen is the first one for the model, whatever follows it. */
  lemma GetImageMetaFirstMatch(catalog: seq<CatalogRecord>, modelId: string, i: nat)
    requires HexVersions(catalog, modelId)
    requires i < |catalog| && catalog[i].model == modelId
    requires forall j :: 0 <= j < i ==> catalog[j].model != modelId
    ensures GetImageMeta(catalog, modelId)
      == Ok(ImageMeta(HexValue(catalog[i].version), SecureUrl(catalog[i].url)))
  {
    var r := First(catalog, record => IsFor(modelId, record));
    assert IsFor(modelId, catalog[i]);
    assert r == Some(i);
  }
}
