# Salus firmware-update provider, modelled in Dafny

This project models the decision logic of the Salus over-the-air (OTA) update
provider of zigbee-herdsman-converters (`ota/salus.js`). It covers four parts:

- **Descriptor building** (`getImageMeta`). The provider picks the first catalog record for the
  device's model. It reads the record's hexadecimal `version` as the image's `fileVersion`. It
  moves a leading `http://` in the record's `url` to `https://`.
- **Version checks.** `isNewImageAvailable` returns the sign of installed minus catalog version.
  `getNewImage` goes on only when the catalog version is strictly newer.
- **Entry collection** (`untar`). The data chunks of each tar entry are joined, and the entries
  are collected in the order they arrive.
- **Payload selection and identity checks** (`getNewImage`). The provider takes the first
  extracted file whose name ends in `.ota`, parses it, and accepts it only when three header
  fields match: the file version equals the catalog's, the manufacturer code is 4216, and the
  image type equals the installed one.

The network and the libraries are parameters. `catalog` is the `versions` list of the fetched
firmware status document. `download` maps a URL to the events the tar extractor emits for that
archive: each entry's header and data chunks, then `finish` or `error`. `parse` stands for
`common.parseImage`. Failures are values of `OtaTypes.Failure`, not exceptions.

In three places the model keeps the code's behaviour, which a reader might not expect:

- **Missing model.** The guard at `ota/salus.js:14` compares the result of `find` with `null`.
  `find` yields `undefined`, so the guard never fires. The call then fails at line 16, reading
  `version` of `undefined`. The model gives `MissingCatalogRecord` for this case.
- **Missing payload.** An archive without a `.ota` file fails at line 66 with the same kind of
  TypeError. The model gives `MissingOtaFile`.
- **No ambiguity error.** When several catalog records or several `.ota` files match, the first
  one is used. The code raises no error for this.

Modules: `Basics` (option, bytes, prefix/suffix tests, first-match search), `OtaTypes`
(records and failures), `Hex` (base-16 reading), `Catalog` (`getImageMeta`), `Archive`
(`untar`), `Salus` (`isNewImageAvailable`, `getNewImage`) and `SalusScenarios` (worked examples).

## Model

| member | source | states |
|---|---|---|
| `Basics.First` | ota/salus.js:13 | `find` yields the first element satisfying the predicate; it yields nothing exactly when no element does |
| `Hex.HexValue` | ota/salus.js:16 | the base-16 value of a digit string is below 16 to the power of its length |
| `Hex.HexValueToHex` | ota/salus.js:16 | reading the hex spelling of any natural number gives that number back |
| `Hex.HexValueLeadingZero` | ota/salus.js:16 | a leading zero does not change the value, so "0002" reads as 2 |
| `Catalog.SecureUrl` | ota/salus.js:17 | the result never starts with `http://`; a URL that started with `http://` now starts with `https://` and is one character longer; any other URL is unchanged |
| `Catalog.SecureUrlKeepsRest` | ota/salus.js:17 | `http://` followed by any rest becomes `https://` followed by the same rest |
| `Catalog.SecureUrlIdempotent` | ota/salus.js:17 | rewriting twice equals rewriting once |
| `Catalog.GetImageMeta` | ota/salus.js:11-19 | the call fails with `MissingCatalogRecord` exactly when no record's model equals the model id; otherwise the descriptor comes from the first matching record, with the base-16 value of its version and its URL moved off `http://` |
| `Catalog.GetImageMetaFirstMatch` | ota/salus.js:13-17 | when record `i` is the first for the model, the descriptor is built from record `i`, whatever records follow |
| `Archive.Concat` | ota/salus.js:39 | joining chunks gives data as long as all chunks together |
| `Archive.ConcatAppend` | ota/salus.js:32-39 | the joined data of an entry does not depend on where its chunk boundaries fall |
| `Archive.ConcatSingle` | ota/salus.js:39 | an entry delivered in one chunk holds exactly that chunk |
| `Archive.Collect` | ota/salus.js:29-43 | one file per entry, in the order met; file `i` has entry `i`'s header and the concatenation of its chunks in arrival order |
| `Archive.CollectAppend` | ota/salus.js:37 | collecting entries in two runs gives the first run's files followed by the second run's |
| `Archive.Extracted` | ota/salus.js:21-54 | the promise resolves exactly when the stream finishes, and then with all collected files; on an `error` event it rejects with `ArchiveError` carrying that event's reason, never with a partial list |
| `Archive.Untar` | ota/salus.js:21-54 | the loops that push chunks into `buffers` and files into `result` compute `Extracted` of the delivered events |
| `Salus.Sign` | ota/salus.js:77 | `Math.sign` on integers is -1, 0 or 1, and is -1 exactly on negatives and 1 exactly on positives |
| `Salus.IsNewImageAvailable` | ota/salus.js:73-78 | the call fails exactly when the descriptor cannot be built; otherwise it is -1, 0 or 1: -1 iff installed < catalog, 0 iff equal, 1 iff installed > catalog |
| `Salus.CheckIdentity` | ota/salus.js:67-70 | the image is accepted, unchanged, iff its file version equals the catalog's, its manufacturer code is 4216 and its image type equals the installed one; the first field that fails is the one reported: a wrong file version gives `FileVersionMismatch`; a right file version with a wrong manufacturer code gives `ManufacturerCodeMismatch`; both right with a wrong image type gives `ImageTypeMismatch` |
| `Salus.PayloadOutcome` | ota/salus.js:64-70 | the attempt fails with `MissingOtaFile` exactly when no file name ends in `.ota`; an accepted image is what the parser gave for the first `.ota` file, and it carries the catalog file version, manufacturer code 4216 and the installed image type |
| `Salus.NewImageOutcome` | ota/salus.js:56-71 | a missing catalog record gives `MissingCatalogRecord`; a catalog version not strictly greater gives `NoNewImage`; an archive `error` past the gate gives `ArchiveError` with its reason; a finished archive past the gate gives the payload outcome of its collected files (first `.ota` file, parse, identity checks); an accepted image has the catalog file version, which is above the installed one, manufacturer code 4216 and the installed image type |
| `Salus.GetNewImage` | ota/salus.js:56-71 | the method returns what `NewImageOutcome` specifies: descriptor, strict version gate, collected archive, first `.ota` file, parse, identity checks, in that order |
| `Salus.GateBeforeDownload` | ota/salus.js:57-60 | when the catalog version is not strictly greater, the outcome is `NoNewImage` whatever the download and the parser would give |
| `Salus.DownloadsOnlyDescriptorUrl` | ota/salus.js:60 | the outcome depends on the download only at the descriptor's URL, which never starts with `http://` |
| `Salus.AvailabilityMatchesGate` | ota/salus.js:56-78 | for the same catalog, `isNewImageAvailable` answers -1 exactly when `getNewImage` gets past its version gate (each call fetches the catalog anew, so two real calls may see different catalogs) |
| `Salus.PayloadIsFirstOtaFile` | ota/salus.js:64-70 | the file parsed and checked is the first whose name ends in `.ota`, whatever files follow |
| `Salus.NoOtaFileFails` | ota/salus.js:64-66 | an archive with no `.ota` file fails with `MissingOtaFile` |
| `Salus.AnyMismatchRejects` | ota/salus.js:67-70 | a mismatch in any one of the three identity fields rejects the image |
| `SalusScenarios.VersionOfRecord` | ota/salus.js:16 | the version string "0002" reads as 2 |
| `SalusScenarios.UrlOfRecord` | ota/salus.js:17 | `http://example/fw.tar` becomes `https://example/fw.tar` |
| `SalusScenarios.ScenarioDescriptor` | ota/salus.js:11-19 | the one-record catalog gives model "X" the descriptor (2, `https://example/fw.tar`) |
| `SalusScenarios.ScenarioUpdate` | ota/salus.js:56-78 | with version 1 installed, an update is advertised (-1), and an archive holding `image.ota` with header (2, 4216, 7) yields that image |
| `SalusScenarios.ScenarioAlreadyCurrent` | ota/salus.js:56-78 | with version 2 installed, the answer is 0 and the attempt ends with `NoNewImage` for any download |
| `SalusScenarios.ScenarioForeignManufacturer` | ota/salus.js:68 | a payload with manufacturer code 4217 ends the attempt with `ManufacturerCodeMismatch` |
| `SalusScenarios.ScenarioMalformedOtherRecord` | ota/salus.js:13-17 | a record for another model with an empty version comes first, and model "X" still gets the descriptor (2, `https://example/fw.tar`) |
| `SalusScenarios.ScenarioMalformedLaterRecord` | ota/salus.js:13-17 | a later record for model "X" with an empty version is never read, and "X" gets the first record's descriptor |
| `SalusScenarios.ScenarioUnknownModel` | ota/salus.js:13-16 | a model the catalog does not list fails with `MissingCatalogRecord` |

## Left out

- HTTP requests made with `axios` (ota/salus.js:12, 60) are not modelled. The catalog and the download are parameters. A failed request, which would reject the promise, is not modelled.
- The tar format, stream piping, backpressure and the event/promise wiring of `tar-stream` (ota/salus.js:22-27, 45-52) are not modelled. The model starts from the sequence of events the library emits. An `error` event is taken to come after the last complete entry. Any partly delivered entry is lost with the rejection either way.
- Tar header fields other than `name` are not modelled, because the provider reads only `name`.
- `common.parseImage`, `common.isUpdateAvailable` and `common.updateToLatest` (ota/salus.js:66, 85, 89) are not modelled. `ota/common.js` is not part of this model. The parser is the parameter `parse`, and its error is passed on as `ParseError`. `isUpdateAvailable` and `updateToLatest` only forward to `common.js`.
- Logging and `JSON.stringify` (ota/salus.js:75-76) are not modelled. They are debug output only.
- Catalog.GetImageMeta: requires the version of the first record for the device's model to be a non-empty string of hexadecimal digits. Later records for that model and records for other models may hold any version. `parseInt`'s leniency is not modelled for the records it reads: leading blanks, a sign, a `0x` prefix, stopping at the first non-hex character, and `NaN` for an empty or non-hex string.
- Salus.IsNewImageAvailable: versions are unbounded integers. JavaScript's floating-point numbers lose precision above 2^53, and `Math.sign` of `NaN` is `NaN`; neither is modelled.
- Failure messages are not modelled. The assertion texts are reduced to the variants of `OtaTypes.Failure`.
