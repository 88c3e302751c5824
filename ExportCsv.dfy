/** The bulk CSV export of a CMS collection: the schema check, the shaping of each
    record, the file name and the reported count. The entity service, the clock and
    the media-library upload are parameters; the CSV stream itself is not modelled. */
module ExportCsv {
  import opened Wrappers
  import opened Strings
  import opened GenericHelpers

  /** A record as the entity service returns it: field name to value. */
  type Record = map<string, JsValue>

  const OmittedKeys: set<string> := {"createdAt", "updatedAt", "publishedAt"}

  /** `!!record.publishedAt`: a draft has no, or a falsy, publication timestamp. */
  predicate IsPublished(record: Record)
    ensures "publishedAt" !in record ==> !IsPublished(record)
    ensures "publishedAt" in record && (record["publishedAt"].Null? || record["publishedAt"].Undefined?) ==> !IsPublished(record)
    ensures "publishedAt" in record && record["publishedAt"].Str? ==> (IsPublished(record) <==> record["publishedAt"].s != "")
  {
    "publishedAt" in record && Truthy(record["publishedAt"])
  }

  /** `processRecord`: the timestamps dropped, and a `published` flag added. */
  function ProcessRecord(record: Record): (r: Record)
    ensures r.Keys == (record.Keys - OmittedKeys) + {"published"}
    ensures forall k :: k in record && k !in OmittedKeys && k != "published" ==> r[k] == record[k]
    ensures r["published"] == Str("true") <==> IsPublished(record)
    ensures r["published"] == Str("false") <==> !IsPublished(record)
  {
    var exportedRecord := map k | k in record && k !in OmittedKeys :: record[k];
    exportedRecord["published" := Str(if IsPublished(record) then "true" else "false")]
  }

  /** Two records that differ only in their timestamps, and agree on whether they
      are published, export to the same record. */
  lemma ProcessRecordIgnoresTimestamps(a: Record, b: Record)
    requires a.Keys - OmittedKeys == b.Keys - OmittedKeys
    requires forall k :: k in a && k !in OmittedKeys ==> k in b && a[k] == b[k]
    requires IsPublished(a) <==> IsPublished(b)
    ensures ProcessRecord(a) == ProcessRecord(b)
  {
    var ra, rb := ProcessRecord(a), ProcessRecord(b);
    assert ra.Keys == rb.Keys;
    forall k | k in ra ensures ra[k] == rb[k] {
      if k != "published" {
        assert k in a && k !in OmittedKeys;
      }
    }
  }

  /** The exported record never carries a timestamp. */
  lemma ProcessRecordHasNoTimestamps(record: Record)
    ensures forall k :: k in OmittedKeys ==> k !in ProcessRecord(record)
  {
  }

  /** `findRecords`: `None` stands for a result that is not an array. */
  function FindRecords(found: Option<seq<Record>>): (r: seq<Record>)
    ensures found.None? ==> r == []
    ensures found.Some? ==> |r| == |found.value| && forall i :: 0 <= i < |r| ==> r[i] == ProcessRecord(found.value[i])
  {
    match found
    case None => []
    case Some(records) => seq(|records|, i requires 0 <= i < |records| => ProcessRecord(records[i]))
  }

  datatype Schema = Schema(collectionName: string, singularName: string, pluralName: string)

  datatype ExportCsvResult = ExportCsvResult(url: string, count: nat, singularName: string, pluralName: string)

  /** The file handed to the media library. */
  datatype MediaFile = MediaFile(path: string, name: string, mediaType: string)

  /** What the upload gives back: an uploaded file's url, nothing, or an error. */
  datatype UploadOutcome = Uploaded(url: string) | NothingUploaded | UploadFailed(message: string)

  const ExportFolderPath := "public/bulk-operations"

  function ExportFileName(collectionName: string, timestamp: nat): (r: string)
    ensures |r| >= |collectionName| + 13
  {
    "export-" + collectionName + "-" + NatToString(timestamp) + ".csv"
  }

  /** The file name reads `export-`, the collection name, `-`, the timestamp in
      decimal and `.csv`: both the name and the timestamp can be read back. */
  lemma ExportFileNameParts(collectionName: string, timestamp: nat)
    ensures var r := ExportFileName(collectionName, timestamp);
      && r[..7] == "export-"
      && r[7..7 + |collectionName|] == collectionName
      && r[7 + |collectionName|] == '-'
      && r[|r| - 4..] == ".csv"
      && AllDigits(r[8 + |collectionName|..|r| - 4])
      && DigitsValue(r[8 + |collectionName|..|r| - 4]) == timestamp
  {
    var r := ExportFileName(collectionName, timestamp);
    var t := NatToString(timestamp);
    assert r == "export-" + collectionName + "-" + t + ".csv";
    assert r[8 + |collectionName|..|r| - 4] == t;
    DigitsValueOfNatToString(timestamp);
  }

  /** One export: the file it uploads, if it gets that far, and how it ends. */
  datatype ExportRun = ExportRun(file: Option<MediaFile>, result: Result<ExportCsvResult, string>)

  /** `getExportCSV`. */
  function GetExportCsv(collectionTypeUid: string, schema: Option<Schema>, found: Option<seq<Record>>,
                        timestamp: nat, upload: UploadOutcome): (r: ExportRun)
    ensures schema.None? <==> r.file.None?
    ensures schema.None? ==> r.result == Failure("Collection type \"" + collectionTypeUid + "\" not found")
    ensures schema.Some? ==> r.file.value.name == ExportFileName(schema.value.collectionName, timestamp)
    ensures schema.Some? ==> r.file.value.path == ExportFolderPath + "/" + r.file.value.name && r.file.value.mediaType == "text/csv"
    ensures schema.Some? && upload.Uploaded? ==>
      r.result == Success(ExportCsvResult(upload.url, |FindRecords(found)|, schema.value.singularName, schema.value.pluralName))
    ensures schema.Some? && upload.NothingUploaded? ==> r.result == Failure("Failed to upload export to media library")
    ensures schema.Some? && upload.UploadFailed? ==> r.result == Failure(upload.message)
  {
    match schema
    case None => ExportRun(None, Failure("Collection type \"" + collectionTypeUid + "\" not found"))
    case Some(s) =>
      var records := FindRecords(found);
      var filename := ExportFileName(s.collectionName, timestamp);
      var file := MediaFile(ExportFolderPath + "/" + filename, filename, "text/csv");
      var result := match upload
        case Uploaded(url) => Success(ExportCsvResult(url, |records|, s.singularName, s.pluralName))
        case NothingUploaded => Failure("Failed to upload export to media library")
        case UploadFailed(message) => Failure(message);
      ExportRun(Some(file), result)
  }

  /** A successful export reports as many records as the entity service found in
      an array, and none when its result is not an array. */
  lemma ExportCountIsFound(collectionTypeUid: string, schema: Schema, found: Option<seq<Record>>, timestamp: nat, url: string)
    ensures var r := GetExportCsv(collectionTypeUid, Some(schema), found, timestamp, Uploaded(url));
      && r.result.Success?
      && r.result.value.count == (if found.Some? then |found.value| else 0)
  {
  }
}
