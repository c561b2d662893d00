# Indexd manifest generator and discovery metadata sync, modelled in Dafny

This project models two operator scripts of the repository.

`scripts/indexd_manifest_from_s3.py` reads a file with one S3 URI per line and writes an
indexd manifest, a TSV file with the columns guid, file_name, md5, size, acl, authz and urls.
The steps are:

- every non-blank line is stripped and validated as `s3://bucket/key`; an optional header
  line is skipped;
- for each object, the file name is derived from the key;
- the size comes from an `aws s3api head-object` query;
- the MD5 digest is taken by streaming the object with `aws s3 cp <uri> -` in chunks of 8 MiB;
- the rows are built by one worker or by a thread pool, and kept in input order;
- the header and one line per row are written, quoted the way the csv module does;
- the first error ends the run with exit status 1.

`scripts/discovery_mds_sync.py` backs up and/or publishes discovery metadata to a Gen3 metadata
service. The steps are:

- the API URL is `--api` or the environment's default;
- in backup or both mode, the backup is taken first;
- in publish or both mode, the records file is validated: it must be a JSON array of objects,
  each with a non-blank GUID field;
- then each record is posted to `<api>/mds/metadata/<guid>?overwrite=True`, with the body
  `{"_guid_type": ..., "gen3_discovery": record}`;
- a dry run posts nothing, and the first refused post aborts the run.

Modules, one per file:

- `Text` (text.dfy): Python's `str.strip`, `isspace`, `lstrip`/`rstrip` of one character,
  `split`/`join` on one character, `str(int)` and `int(str)`.
- `Manifest` (manifest.dfy): the constants, `S3ObjectRef`, `ManifestRow` and the error kinds.
- `S3Uri` (s3_uri.dfy): the subset of `urlparse` the validator relies on, and `_parse_s3_uri`.
- `ManifestInput` (manifest_input.dfy): `load_s3_objects` over the file's lines, as a loop
  proved against a reference function. Both are written over any line validator; the
  script's load is the one whose validator is `_parse_s3_uri` of the stripped line.
- `AwsCommand` (aws_command.dfy): the argv of the aws CLI calls.
- `ObjectProbe` (object_probe.dfy): `fetch_size_bytes`, `stream_md5_hex` (the chunked read
  loop), `Path(key).name` and `build_row`.
- `ManifestRows` (manifest_rows.dfy): `build_rows`. The one-worker loop, and the pooled path as an
  array of slots filled by index, in a completion order that does not change the result.
- `ManifestWriter` (manifest_writer.dfy): `to_tsv_row`, csv minimal quoting, `write_manifest`
  as text production, and a reader that the text round-trips through.
- `ManifestMain` (manifest_main.dfy): the control flow and exit status of `main`.
- `Json` (json.dfy): JSON values and Python's `str()` of them.
- `DiscoverySync` (discovery_sync.dfy): `load_records`, `publish_discovery_metadata` and `main`.

The world outside the scripts becomes parameters:

- the aws CLI is a `Store`, the reply it gives to each argv;
- MD5 is a function from bytes to hex text;
- the pool's completion order is a permutation, per batch size in `main`;
- an HTTP post is a predicate telling whether the request is accepted;
- a backup is a predicate telling whether it succeeds for an endpoint.

## Model

| member | source | states |
|---|---|---|
| S3Uri.ParseS3Uri | scripts/indexd_manifest_from_s3.py:110-126 | An accepted line yields an S3 reference: non-empty bucket free of "/", "?" and "#", with balanced and well-placed brackets, a non-empty key not starting with "/", uri equal to "s3://" + bucket + "/" + key, and the given line number. A refused line is reported as refused by urlparse itself, as malformed or as missing its key, with its line number and text. |
| S3Uri.S3Checks | scripts/indexd_manifest_from_s3.py:112-126 | On components urlparse accepted, the s3 checks give a valid reference with the line number, or a malformed or missing-key error. |
| S3Uri.UrlRejectedIff | scripts/indexd_manifest_from_s3.py:111 | The model refuses a line as UrlRejected exactly when its netloc has a "[" without a "]" or the reverse, or text before the "[" after the last "@", or text other than a ":"-port after the "]". These are a subset of the lines urlparse raises on. |
| S3Uri.RejectsBadBrackets | scripts/indexd_manifest_from_s3.py:111 | An s3 line whose bucket has unbalanced or misplaced brackets is refused by urlparse, with or without a key. |
| S3Uri.UnclosedBracketRefused | scripts/indexd_manifest_from_s3.py:111 | "s3://[b/k" is refused by urlparse, not accepted as bucket "[b". |
| S3Uri.ParseOfShape | scripts/indexd_manifest_from_s3.py:111-126 | A line of the form scheme "://" bucket, one or more slashes, key, then an optional "?"/"#" tail, with scheme "s3" in any letter case, is refused as missing its key when the key is empty. Otherwise it is accepted with the leading slashes dropped and the query and fragment discarded. |
| S3Uri.ParseNormalised | scripts/indexd_manifest_from_s3.py:118-126 | The normalised uri of a reference validates back to the same reference: validation is idempotent. |
| S3Uri.ShapeOfAccepted | scripts/indexd_manifest_from_s3.py:111-118 | Conversely, every accepted line has that shape once the characters urlsplit discards are removed. |
| S3Uri.RejectsWithoutColon | scripts/indexd_manifest_from_s3.py:111-116 | A line without ":" has no s3 scheme. It is refused as malformed, or by urlparse itself when its netloc's brackets are refused. |
| S3Uri.SchemeNeedsColon | scripts/indexd_manifest_from_s3.py:111 | urlsplit finds no scheme in a line without ":". |
| S3Uri.RejectsEmptyBucket | scripts/indexd_manifest_from_s3.py:112-116 | "s3://" followed directly by "/", "?", "#" or nothing has an empty netloc and is refused as malformed. |
| ManifestInput.LoadLines | scripts/indexd_manifest_from_s3.py:137-149 | The loop over the lines, for any validator, returns exactly the reference load LoadWith. |
| ManifestInput.LoadS3Objects | scripts/indexd_manifest_from_s3.py:133-149 | The enumerate/strip/skip/append loop gives exactly the reference load: the selected lines validated in order, the first failure returned, and NoUrisFound when nothing is kept. |
| ManifestInput.HeaderIsFirstNonBlank | scripts/indexd_manifest_from_s3.py:138-143 | With skip_header, line j is validated exactly when it is not blank and some earlier line is not blank, so only the first non-blank line is dropped. |
| ManifestInput.NoHeaderKeepsAll | scripts/indexd_manifest_from_s3.py:138-140 | Without skip_header, line j is validated exactly when it is not whitespace-only. |
| ManifestInput.LoadedRefs | scripts/indexd_manifest_from_s3.py:137-149 | For any sound validator, the script's among them: a successful load returns a non-empty list with one reference per selected line. Each reference is the validation of that line, numbered by its 1-based position in the whole file, and valid. Line numbers strictly increase. |
| ManifestInput.LoadSucceedsIff | scripts/indexd_manifest_from_s3.py:144-149 | For any validator, the load succeeds exactly when some line is selected and every selected line validates. |
| ManifestInput.LoadFailsAtFirstInvalid | scripts/indexd_manifest_from_s3.py:144 | For any validator, a failure other than NoUrisFound is the validation error of the first invalid selected line, and all earlier selected lines validate. |
| ManifestInput.NoUrisIff | scripts/indexd_manifest_from_s3.py:146-147 | For any sound validator, NoUrisFound is reported exactly when no line is selected. |
| ManifestInput.ValidatorIsSound | scripts/indexd_manifest_from_s3.py:110-126 | The script's validator, _parse_s3_uri of the stripped line, is sound: what it accepts is a valid reference carrying the given line number, and it never reports NoUrisFound. |
| AwsCommand.AwsBaseCommand | scripts/indexd_manifest_from_s3.py:101-107 | The command starts with "aws" and has odd length. Reading it as flag/value pairs gives the profile under "--profile" and the region under "--region" exactly when each is given and non-empty, and nothing otherwise. |
| AwsCommand.BaseCommandOptions | scripts/indexd_manifest_from_s3.py:101-107 | The base command holds exactly one pair per truthy option, and those pairs carry the values. |
| AwsCommand.HeadObjectAddressesObject | scripts/indexd_manifest_from_s3.py:156-169 | The head-object arguments name the object's bucket and key, query ContentLength and ask for text output. |
| ObjectProbe.StderrDetail | scripts/indexd_manifest_from_s3.py:177 | The error detail is never empty: the stripped stderr, or "No stderr output." when stderr is blank. |
| ObjectProbe.SizeFromReply | scripts/indexd_manifest_from_s3.py:176-188 | A non-zero exit status gives SizeFetchFailed with the stderr detail. Status 0 gives the integer that int() reads from the stripped stdout, or UnexpectedContentLength with that text when int() refuses it. |
| ObjectProbe.FetchSizeBytes | scripts/indexd_manifest_from_s3.py:152-188 | Runs the base command plus the head-object arguments, and its result is the reading of the reply the CLI gives to that argv. |
| ObjectProbe.SizeRoundTrip | scripts/indexd_manifest_from_s3.py:181-183 | A successful reply holding a decimal number between whitespace, such as the CLI's trailing newline, yields exactly that number. |
| ObjectProbe.SizeNeedsIntegerText | scripts/indexd_manifest_from_s3.py:181-188 | With status 0 the size is read exactly when the stripped stdout is integer text. That text is then non-empty and does not start with whitespace. |
| ObjectProbe.DigestFromStream | scripts/indexd_manifest_from_s3.py:212-219 | A non-zero exit status gives StreamFailed with the stderr detail, whatever was read. Status 0 gives the digest of the whole body. |
| ObjectProbe.ReadChunk | scripts/indexd_manifest_from_s3.py:207-209 | A read returns at most 8 MiB, is empty exactly at the end of the stream, and extends the bytes read so far by the next bytes of the body. |
| ObjectProbe.StreamMd5Hex | scripts/indexd_manifest_from_s3.py:191-219 | Runs the base command plus `s3 cp <uri> -`. The read loop feeds every byte of the stream to the digest in order, and the result is the error or digest the reply stands for. |
| ObjectProbe.FileName | scripts/indexd_manifest_from_s3.py:228 | The name is empty or one of the key's "/"-separated segments, neither "." nor holding "/". |
| ObjectProbe.FileNameOfJoined | scripts/indexd_manifest_from_s3.py:228 | The name of dir + "/" + name is name, for any name that is neither empty nor "." and holds no "/". |
| ObjectProbe.FileNameIgnoresTrailingSlash | scripts/indexd_manifest_from_s3.py:228 | A trailing "/" does not change the name. |
| ObjectProbe.FileNameEmptyIff | scripts/indexd_manifest_from_s3.py:228-232 | A key has no file name exactly when each of its "/"-separated segments is empty or ".". |
| ObjectProbe.BuildRow | scripts/indexd_manifest_from_s3.py:222-244 | Gives the row RowFor defines, and makes the CLI calls CallsFor lists, in that order. |
| ObjectProbe.RowContents | scripts/indexd_manifest_from_s3.py:236-244 | A row built by RowFor has an empty guid, acl "*", the given authz and the object's uri. Its file name is the key's non-empty name, its size is the reported one, and its md5 is the digest of the streamed bytes of an exit-0 stream. |
| ObjectProbe.RowFailsIff | scripts/indexd_manifest_from_s3.py:228-235 | A row fails exactly when the key has no name, the size query fails or the stream exits with a non-zero status. |
| ObjectProbe.CallOrder | scripts/indexd_manifest_from_s3.py:228-235 | A key without a name fails with NoFileName before any CLI call. The size query is always the first call. The digest stream is opened only after it, and a successful row makes exactly those two calls. |
| ManifestRows.CollectMeans | scripts/indexd_manifest_from_s3.py:257-261 | The one-worker result is Ok exactly when every object's row is, and then holds every row in index order. Otherwise it is the error of the lowest-indexed failure. |
| ManifestRows.FillSlots | scripts/indexd_manifest_from_s3.py:263-286 | After the tasks in the given order have stored their rows, slot i holds row i when task i has completed, and is empty otherwise. The order does not matter: the script stores in submission order after the wait, and any order gives the same slots. |
| ManifestRows.PooledMatchesSequential | scripts/indexd_manifest_from_s3.py:263-286 | For every completion permutation, the pooled path succeeds exactly when the sequential one does, and then gives the same rows. On failure it reports the error of some failing object. |
| ManifestRows.RowsFollowObjects | scripts/indexd_manifest_from_s3.py:247-286 | For any worker count of at least one and any completion order, success gives exactly one row per object, row i built from object i. It succeeds exactly when every object's row does, and otherwise gives the error of a failing object. |
| ManifestRows.WorkerCountInvariant | scripts/indexd_manifest_from_s3.py:257-286 | Many workers and one worker succeed together and give the same rows, whatever the completion order. |
| ManifestRows.BuildSequentially | scripts/indexd_manifest_from_s3.py:257-261 | The list comprehension builds the rows one after another and stops at the first failure, which is the one-worker result. |
| ManifestRows.BuildPooled | scripts/indexd_manifest_from_s3.py:263-286 | Tasks finish in completion order, and the first failure among them is raised. Otherwise each row is stored at its submission index and the filled slots are read back in index order. The rows are stored in completion order rather than the script's submission order, which by FillSlots gives the same slots. |
| ManifestRows.ReadSlots | scripts/indexd_manifest_from_s3.py:286 | The comprehension keeps the filled slots' rows, in index order, and drops the empty ones. |
| ManifestRows.BuildRows | scripts/indexd_manifest_from_s3.py:247-286 | Fewer than one worker gives BadWorkerCount. One worker takes the sequential path, and more take the pooled path. |
| ManifestWriter.ToTsvRow | scripts/indexd_manifest_from_s3.py:44-53 | The row gives one field per manifest column. |
| ManifestWriter.TsvRowRoundTrip | scripts/indexd_manifest_from_s3.py:44-53 | A row's seven fields (ToTsvRow) read back to the row, and the size column is the size in a form int() accepts. |
| ManifestWriter.CsvFieldRoundTrip | scripts/indexd_manifest_from_s3.py:293-296 | A field written with minimal quoting reads back unchanged. A field without tab, quote or line break is written as it stands. |
| ManifestWriter.WriteManifest | scripts/indexd_manifest_from_s3.py:289-296 | The header line is written first, followed by one line per row in order, each ending in "\n". |
| ManifestWriter.ManifestRoundTrip | scripts/indexd_manifest_from_s3.py:293-296 | When no field needs quoting, the text splits back on "\n" and tab into exactly the header followed by each row's fields. |
| ManifestWriter.ManifestRowsReadBack | scripts/indexd_manifest_from_s3.py:289-296 | For such rows, reading the text gives the header and exactly the rows written, in order. |
| ManifestMain.RunGenerator | scripts/indexd_manifest_from_s3.py:299-322 | main loads, builds and writes. The first error, a ManifestError or urlparse's own ValueError caught by `except Exception`, ends the run with status 1 and nothing written; otherwise the run writes the manifest, reports the row count and exits with status 0. |
| ManifestMain.WrittenOnlyAfterSuccess | scripts/indexd_manifest_from_s3.py:304-322 | Exit status 0 means the manifest was written, which happens exactly when loading and building both succeed. Fewer than one worker always fails. |
| ManifestMain.WrittenManifest | scripts/indexd_manifest_from_s3.py:305-321 | A written manifest is the text of one row per loaded object, in input order and at least one. The reported count is that number. |
| ManifestMain.FailureIsReported | scripts/indexd_manifest_from_s3.py:304-316 | With at least one worker, a failed run reports either the load's error or the row error of one of the loaded objects. |
| Json.Lookup | scripts/discovery_mds_sync.py:114 | A key is found exactly when some member names it, and the value found is that of the last member naming it, as a dict built from the JSON keeps the last duplicate. |
| Json.StrBlankIff | scripts/discovery_mds_sync.py:114 | str(value).strip() is empty exactly when the value is a whitespace-only string. |
| DiscoverySync.ApiUrl | scripts/discovery_mds_sync.py:216 | The API URL is --api when it is given and non-empty, and otherwise the environment's default URL. |
| DiscoverySync.LoadRecordsNeedsArray | scripts/discovery_mds_sync.py:108-109 | In LoadRecords, a payload that is not a JSON array is refused. |
| DiscoverySync.LoadRecordsAccepts | scripts/discovery_mds_sync.py:111-119 | In LoadRecords, an array is accepted exactly when every element is an object with a GUID, and it is then returned unchanged. |
| DiscoverySync.LoadRecordsRefusesFirst | scripts/discovery_mds_sync.py:111-117 | A refused array is reported at its first bad element, by 1-based index: as not being an object, or as an object missing its GUID. |
| DiscoverySync.GuidPresentIff | scripts/discovery_mds_sync.py:114 | A record has its GUID exactly when the field is present and str() of its value, stripped, is not empty. |
| DiscoverySync.GuidOf | scripts/discovery_mds_sync.py:181 | A valid record's GUID is str() of its field stripped, and is not empty. |
| DiscoverySync.PublishUrlShape | scripts/discovery_mds_sync.py:183 | For PublishUrl, trailing slashes on the endpoint do not change the URL. The URL is the endpoint, then "/mds/metadata/", the GUID and "?overwrite=True". |
| DiscoverySync.PayloadCarriesRecord | scripts/discovery_mds_sync.py:182 | The body Payload builds has exactly two members: "_guid_type" holds the GUID type and "gen3_discovery" holds the record unchanged. |
| DiscoverySync.PublishRunMeans | scripts/discovery_mds_sync.py:179-198 | A dry run sends nothing and counts 0. Otherwise requests go out in record order, and the first refused one ends the run with its URL. When none is refused, every record is sent and the count is the number of records. |
| DiscoverySync.PublishDiscoveryMetadata | scripts/discovery_mds_sync.py:171-198 | The loop counts each accepted post and stops at the first refusal. Its outcome and the requests it sends are those of PublishRun over the records' requests. |
| DiscoverySync.Sync | scripts/discovery_mds_sync.py:201-249 | main picks the API URL, backs up when the mode says so, then loads and publishes when the mode says so. Its outcome and event trace are SyncRun's. |
| DiscoverySync.SyncEvents | scripts/discovery_mds_sync.py:216-247 | The trace is the backup, when the mode asks for one, followed by the posted requests. Requests are posted only when all of these hold: the mode publishes, any backup succeeded, the records file is valid, and the run is not a dry run. They are then a prefix of the records' requests. |
| DiscoverySync.BackupComesFirst | scripts/discovery_mds_sync.py:216-230 | A backup happens exactly in backup and both modes. It goes to the chosen API URL and is the first event. |
| DiscoverySync.PostedRequests | scripts/discovery_mds_sync.py:181-193 | The k-th posted request goes to the metadata URL of record k's GUID under the chosen API URL, and carries record k. |
| DiscoverySync.SyncCounts | scripts/discovery_mds_sync.py:236-247 | When publishing a valid records file, a dry run sends nothing and counts 0. A run whose posts are all accepted counts every record. |

Behaviour worth knowing:

- The file name is pathlib's `Path(key).name`, not the text after the last "/": it is the
  last segment that is neither empty nor ".". So `a/b/` is named `b`, `a/.` is named `a`,
  and the keys `.` and `./` have no name.
- The key comes from `urlparse`. A query or fragment is dropped, the bucket's letter case is
  kept, the scheme may be written in any letter case, and leading slashes of the path are
  removed. The `urls` column holds the normalised `s3://bucket/key`, not the raw line.
- The pool does not always run to completion. After the first failure, pending tasks are
  cancelled and the failure is raised.

## Left out

- File system access is not modelled: file existence checks, opening, reading and writing
  files, directory creation, `expanduser`/`resolve`, and moving the backup files. The input
  file arrives as its sequence of lines, and the manifest is produced as text, not as a file.
- The input file is taken as already split into lines: universal-newline splitting and
  UTF-8 decoding of the file are not modelled.
- Argument parsing (argparse, defaults such as 4 workers, choices) is not modelled: the
  options arrive as parameters.
- Printed messages and error message wording are not modelled: errors are constructors
  carrying the values the messages show.
- Running subprocesses is abstracted: the aws CLI's reply to each argv is a `Store`
  parameter. The stderr bytes arrive already decoded. The `stdout is None` branch of
  `stream_md5_hex` cannot occur with pipes requested, so it is not modelled.
- MD5 itself is a parameter from bytes to hex text.
- Threads, cancellation of pending futures, and which of several concurrently failed tasks
  is raised are not modelled. The model raises the first failure in a completion-order
  permutation, which is one of the choices the pool can make.
- `urlparse` is modelled only for the URI forms this validator sees. Userinfo, ports and
  `;params` are not interpreted, and an accepted netloc is used as it stands, as the script
  uses it. Its refusal of unbalanced or misplaced brackets in the netloc is modelled as
  UrlRejected.
- S3Uri.ParseS3Uri: urlsplit's further refusals are not modelled. A bracketed host that is
  not an IPv6 or IPvFuture address, such as `s3://[b]/k`, and a non-ASCII netloc whose NFKC
  normalisation adds "/", "?", "#", "@" or ":" are accepted by the model, while the script
  exits with status 1 on them.
- S3Uri.UrlRejectedIff: the refusals it characterises are only part of urlparse's. urlparse
  also raises on a bracketed host that is not an IPv6 or IPvFuture address (`s3://[b]/k`), on
  a host after userinfo holding brackets (`s3://[x]@host/k`, where the host is checked as an
  IP address), and on a netloc that NFKC normalisation breaks; the model accepts these.
- The `urlsplit` behaviour modelled is that of urllib.parse in current Python 3.13 releases: the leading C0
  control and space characters are stripped, a scheme must start with an ASCII letter, and
  the text before "[" and after "]" is checked. These arrived in security releases; an
  interpreter without the bracket-placement check accepts `s3://a[::1]/k`, which the model
  refuses.
- ObjectProbe.SizeFromReply: int() is modelled for ASCII digits, an optional sign and single
  underscores. Unicode decimal digits are not modelled. Nor is the limit of 4300 digits
  (`sys.int_max_str_digits`) since Python 3.11: a longer number is read by the model, while
  the script reports it as an unexpected content length.
- The `except Exception` catch in the generator's `main` is modelled only for urlparse's
  ValueError, the UrlRejected error kind; no other unexpected exception is modelled.
- JSON numbers are integers only; floats are not modelled.
- Json: a JSON object is a list of members that may repeat a key, while json.load builds a
  dict that keeps a repeated key once, at its first position, with its last value. Lookup
  follows the dict, but LoadRecords returns the records with every member, and Payload posts
  them so; for a records file that repeats a key in an object, the posted body differs from
  the script's. JSON text parsing itself is not modelled: the payload arrives as a value.
- Json.Repr: str() of a list or dict quotes its strings with single quotes and no escaping.
  Python's choice of quote character and escaping does not change whether the text is
  blank, which is all the GUID check depends on.
- The discovery sync's missing-dependency check, Gen3Auth, the credentials file check and
  the backup-limit option are not modelled. The backup is a predicate telling whether it
  succeeds for an endpoint. Its asynchronous calls, timestamps and output files are not
  modelled.
- requests.post and raise_for_status are one predicate telling whether a request is
  accepted. Timeouts, authentication and HTTP status details are not modelled.
- ManifestWriter.ManifestRoundTrip covers only rows whose fields need no quoting. For
  quoted fields, the per-field round trip CsvFieldRoundTrip covers reading back.
- ManifestWriter.ManifestRowsReadBack has the same restriction to rows whose fields need no
  quoting.
