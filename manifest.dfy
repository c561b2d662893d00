/** The records and constants of the indexd manifest generator. */
module Manifest {
  import opened Text

  /** Header row of every manifest, in column order. */
  const ManifestColumns: seq<string> := ["guid", "file_name", "md5", "size", "acl", "authz", "urls"]

  /** The acl written on every row. */
  const DefaultAcl: string := "*"

  /** Bytes requested from the object stream per read. */
  const ReadChunkSizeBytes: nat := 8 * 1024 * 1024

  /** One validated input line: its 1-based line number, the normalised URI and
      the bucket and key it names. */
  datatype S3ObjectRef = S3ObjectRef(lineNumber: int, uri: string, bucket: string, key: string)

  /** One manifest row, fields in column order. */
  datatype ManifestRow = ManifestRow(
    guid: string,
    fileName: string,
    md5: string,
    size: int,
    acl: string,
    authz: string,
    urls: string)

  /** The failures the generator reports; each aborts the run. `stderr` fields hold the
      stripped error output of the aws command, or "No stderr output." when it is empty.
      UrlRejected stands for the ValueError urlparse itself raises on a line; main reports
      it as an unexpected failure, with the same exit status 1. */
  datatype ManifestError =
    | UrlRejected(lineNumber: int, line: string)
    | MalformedUri(lineNumber: int, line: string)
    | MissingObjectKey(lineNumber: int, line: string)
    | NoUrisFound
    | NoFileName(lineNumber: int, key: string)
    | SizeFetchFailed(lineNumber: int, uri: string, stderr: string)
    | UnexpectedContentLength(lineNumber: int, uri: string, text: string)
    | StreamFailed(lineNumber: int, uri: string, stderr: string)
    | BadWorkerCount
}
