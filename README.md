# Azure blob sink: buffer, flush and blob naming

A Dafny model of the live record sink of the `target-azure` connector
(`TargetAzureBlobSink` in `target_azure/sinks.py`). The sink receives the
records of one stream one at a time, keeps them in an in-memory buffer, and
uploads the buffer as one CSV blob whenever it holds `max_buffer_size` (10)
records; at the end of the stream it uploads whatever is left. Each blob is
written to `notion_dashboard/Talview_freshdesk/<stream>/<stream>_<YYYYMMDDTHHMMSS>.csv`
in a container that the sink creates on start-up unless it already exists.

Modules, one per component of the sink:

- `Results` (`results.dfy`): `Option` and `Result`.
- `Timestamp` (`timestamp.dfy`): the `%Y%m%dT%H%M%S` rendering of a clock
  reading, its inverse `Parse`, and the fact that the renderings sort in the
  calendar order of the readings.
- `BlobPaths` (`blob_paths.dfy`): `os.path.join` with the POSIX separator,
  `stream_folder`, `format_file_name` and the blob path of a flush.
- `Batching` (`batching.dfy`): the threshold policy stated on values: the
  full batches cut from a stream of records, and the remainder.
- `Container` (`container.dfy`): `ensure_container`, which picks the
  configured container name (or `default-container`) and swallows only the
  "container already exists" failure of the create call.
- `Sink` (`sink.dfy`): the sink as a class. `recordsBuffer` is the buffer.
  Two ghost fields record the history: `received`, every record passed in,
  and `uploads`, every successful upload as a path and a record sequence.
  `Valid()` is conservation: the uploaded records followed by the buffer are
  exactly the records received, in order. `Regular()` describes a history in
  which every flush was a successful threshold flush.
  `BlobContainer` is the container client. Its `UploadBlob` may fail. The
  upload (re)creates an append blob and then appends the data, so a failure
  can leave at the path a blob holding only part of the data; no other blob
  is touched (`FailedUpload`). Two client methods, `EmptyStreamScenario` and
  `ElevenRecordsScenario`, show what callers can conclude from the contracts
  alone: an empty stream makes no upload, and eleven records make one blob of
  ten and then, at the end of the stream, one blob of one.

Raised exceptions become a `false` result: `ok == false` from `FlushBuffer`,
`ProcessRecord` or `Finalize` stands for the exception `upload_blob` raises.
In that case the buffer is unchanged, because the source clears it only on
the line after the upload returns. The upload log is a sequence and not a map
from path to contents. Two flushes of a stream that read the same clock value, to
the second, get the same blob name (`BlobPaths.BlobPathCollision`), and the second upload replaces the
first blob in the container (`overwrite=True`). The log keeps both.

The code is followed where it differs from the connector's declared options:
`target_azure/target.py:25-32` declares a `naming_convention` option, but the
live sink never reads it. It hard-codes the root folder
(`target_azure/sinks.py:233`) and the template `{stream}_{timestamp}.csv`
(`target_azure/sinks.py:241`). The count of uploads also follows the code:
with N records and no failure there are N / 10 threshold uploads of exactly
10 records. `finalize` adds one more upload only when N % 10 is not 0.

## Model

| member | source | states |
|---|---|---|
| Timestamp.Decimal | target_azure/sinks.py:239 | a zero-padded field is exactly `width` characters, all decimal digits |
| Timestamp.DecimalValue | target_azure/sinks.py:239 | a zero-padded field reads back as the number it renders |
| Timestamp.Format | target_azure/sinks.py:239 | the timestamp is 15 characters, `T` at index 8, a decimal digit at every other index |
| Timestamp.FormatFields | target_azure/sinks.py:239 | the fields appear in the order year(4) month(2) day(2) `T` hour(2) minute(2) second(2) |
| Timestamp.ParseFormat | target_azure/sinks.py:239 | parsing a rendered timestamp gives back the clock reading |
| Timestamp.FormatParse | target_azure/sinks.py:239 | every string Parse accepts is the rendering of what it returns |
| Timestamp.FormatInjective | target_azure/sinks.py:239 | two readings render the same exactly when they are equal |
| Timestamp.FormatOrder | target_azure/sinks.py:239 | timestamps compare as strings exactly as the clock readings compare in calendar order |
| BlobPaths.Join | target_azure/sinks.py:223 | a join ends with its second part, and starts with its first part when the second is relative |
| BlobPaths.JoinRelative | target_azure/sinks.py:235 | a relative segment after a folder not ending in `/` is joined with exactly one `/` |
| BlobPaths.StreamFolder | target_azure/sinks.py:231-235 | a relative stream name becomes `notion_dashboard/Talview_freshdesk/<stream>`; an absolute one replaces the root |
| BlobPaths.FileName | target_azure/sinks.py:241-243 | the file name starts with `<stream>_` and ends with `.csv` |
| BlobPaths.SplitFileName | target_azure/sinks.py:241-243 | whatever it accepts is the file name of the stream and timestamp it returns |
| BlobPaths.SplitFileNameRoundTrip | target_azure/sinks.py:241-243 | the stream name and timestamp are recovered from every file name |
| BlobPaths.BlobPath | target_azure/sinks.py:223 | the path ends with the file name, and lies inside the stream's folder when the stream name is relative (layout in `BlobPathLayout`, root in `BlobPathUnderRoot`) |
| BlobPaths.BlobPathLayout | target_azure/sinks.py:223-243 | for a plain stream name the path is `notion_dashboard/Talview_freshdesk/<stream>/<stream>_<timestamp>.csv` |
| BlobPaths.BlobPathEndsWithFileName | target_azure/sinks.py:223-243 | for every stream name the path ends with the file name, hence with `.csv` |
| BlobPaths.BlobPathUnderRoot | target_azure/sinks.py:231-235 | the path starts with the root folder exactly when the stream name is not absolute |
| BlobPaths.BlobPathCollision | target_azure/sinks.py:223-239 | two flushes of a stream get the same path exactly when they read the same clock value, to the second |
| BlobPaths.BlobPathOrder | target_azure/sinks.py:223-243 | the blobs of a stream sort by name in the calendar order of the clock readings taken at their flushes |
| Batching.FullBatches | target_azure/sinks.py:216-219 | N records give N / size full batches, each of exactly `size` records |
| Batching.Remainder | target_azure/sinks.py:216-219 | N records leave N % size records over |
| Batching.BatchesConserve | target_azure/sinks.py:216-229 | the full batches followed by the remainder are the records, in order |
| Batching.BatchesSnoc | target_azure/sinks.py:216-219 | one more record joins the remainder, or completes it into one more full batch and empties it |
| Container.CreateContainer | target_azure/sinks.py:212 | the create call succeeds exactly when no failure occurs and the container is new |
| Container.EnsureContainer | target_azure/sinks.py:208-214 | succeeds exactly when the create call fails with nothing but "already exists"; then the container exists and nothing else changed; otherwise the failure propagates |
| Container.SetupContainer | target_azure/sinks.py:208-214 | with no service failure the account gains exactly the configured container, or `default-container` when none is configured; any other failure reaches the caller |
| Container.EnsureContainerIdempotent | target_azure/sinks.py:208-214 | ensuring a container twice succeeds and the second call changes nothing |
| Sink.BlobContainer.UploadBlob | target_azure/sinks.py:228 | on success the blob at the path holds the data, replacing any earlier blob; on failure the blob at the path is unchanged, or replaced by one holding a prefix of the data, and every other blob is unchanged |
| Sink.FailedUploadKeepsOthers | target_azure/sinks.py:228 | a failed upload neither adds, removes nor changes any blob but the one at its path, and that one holds a prefix of the data or its old contents |
| Sink.AzureBlobSink.constructor | target_azure/sinks.py:196-200 | a new sink has an empty buffer and no uploads |
| Sink.AzureBlobSink.RegularCounts | target_azure/sinks.py:216-219 | after N records with no failure: N / 10 uploads of exactly 10 records, N % 10 records buffered, nothing lost or reordered |
| Sink.AzureBlobSink.FlushBuffer | target_azure/sinks.py:221-229 | uploads exactly the buffer, in order, to the path for the flush time; empties the buffer only if the upload succeeded, and on failure keeps the buffer and may leave a partial blob; keeps conservation |
| Sink.AzureBlobSink.ProcessRecord | target_azure/sinks.py:216-219 | below the threshold it only appends; at the threshold it uploads the buffer plus the record; after success the buffer holds fewer than 10 records; keeps conservation and the regular history |
| Sink.AzureBlobSink.Finalize | target_azure/sinks.py:245-248 | an empty buffer makes no upload; otherwise exactly one upload of the remainder, after which every record received has been uploaded in order |

## Left out

- CSV serialisation with pandas (`target_azure/sinks.py:222`, `:227`) is not modelled. Its header and column rules belong to a foreign library. A blob's payload is the sequence of records it encodes.
- The Azure SDK is not modelled. This covers the connection string and the service client (`target_azure/sinks.py:202-206`), `get_container_client` and `get_blob_client`. Whether an upload succeeds is left open: `UploadBlob` may succeed or fail on any call.
- Sink.AzureBlobSink.constructor: does not call `ensure_container`. The sink is given a container client. `Container.EnsureContainer` models the setup step on its own, and the constructor's failure when setup fails is not modelled.
- The wall clock (`datetime.now()`) is not read. Each flush takes the clock reading as a `now` parameter, to the second; microseconds are dropped because the format drops them.
- The local clock need not be monotonic: it repeats an hour when daylight saving time ends and steps back when it is set back. The model relates blob names to clock readings only, so it does not promise that names of flushes an hour apart differ, nor that a later flush sorts after an earlier one.
- Timestamp.Format: pads years below 1000 to four digits. The C library's `strftime` behind `%Y` may not pad them. Such years cannot come from the current clock.
- The `context` argument of `process_record` is not modelled; the sink never reads it.
- The `logging` import (`target_azure/sinks.py:190`) is unused. `super().finalize()`, the `RecordSink` base class and the `cli()` entry point (`target_azure/sinks.py:248-251`) are framework glue and are not modelled.
- `target_azure/target.py` is not part of this model. It only declares the configuration schema.
- The commented-out earlier versions of the sink (`target_azure/sinks.py:1-180`) are not part of this model. They contain the path sanitisation and the process-exit hook.
