/** What the `/validate` endpoints of the upload routers share: a report
    on a file's name and size that runs no processing. */
module Uploads {
  import opened Wrappers
  import opened Strings
  import opened Exceptions

  /** The `TypeError` text of `Path(None)`. */
  const NONE_PATH_ERROR: string := "expected str, bytes or os.PathLike object, not NoneType"

  datatype ValidationReport = ValidationReport(filename: string, formatValid: bool, sizeValid: bool, fileSize: int, valid: bool)

  /** A `/validate` endpoint whose format check is `formatOk` and whose size
      cap is `limit`. A missing file name makes `Path(None)` raise, which
      the endpoint reports as a 500. */
  function ValidateUpload(filename: Option<string>, size: nat, formatOk: string -> bool, limit: int): (r: Result<ValidationReport, Exception>)
    ensures r.Err? <==> filename.None?
    ensures r.Err? ==> r.error == Http(HTTP_500, "Validation failed: " + NONE_PATH_ERROR)
    ensures r.Ok? ==> (r.value.valid <==> formatOk(filename.value) && size <= limit)
    ensures r.Ok? ==> r.value.formatValid == formatOk(filename.value) && r.value.sizeValid == (size <= limit)
    ensures r.Ok? ==> r.value.fileSize == size && r.value.filename == filename.value
  {
    if filename.None? then Err(Http(HTTP_500, "Validation failed: " + Str(Other(NONE_PATH_ERROR))))
    else
      var formatValid := formatOk(filename.value);
      var sizeValid := size <= limit;
      Ok(ValidationReport(filename.value, formatValid, sizeValid, size, formatValid && sizeValid))
  }
}
