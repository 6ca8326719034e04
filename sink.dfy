/** The record sink of one stream: records are appended to an in-memory buffer;
    when the buffer holds MaxBufferSize records it is uploaded as one blob and
    emptied, and at the end of the stream whatever is left is uploaded too.
    The buffer is emptied only after an upload succeeded, so a failed upload
    loses nothing. */
module Sink {
  import opened Timestamp
  import opened BlobPaths
  import opened Batching

  /** A field value of a record as the upstream producer sends it. */
  datatype Value = Text(s: string) | Number(n: real) | Flag(b: bool) | Null

  /** A record: field names to values, with no fixed schema. */
  type Record = map<string, Value>

  /** Number of records buffered before an upload. */
  const MaxBufferSize: nat := 10

  /** One successful upload: the blob written and the records it holds, in order. */
  datatype Upload = Upload(path: string, records: seq<Record>)

  /** The record batches of a log of uploads, in upload order. */
  function Payloads(log: seq<Upload>): (ps: seq<seq<Record>>)
    ensures |ps| == |log| && forall i :: 0 <= i < |log| ==> ps[i] == log[i].records
  {
    seq(|log|, i requires 0 <= i < |log| => log[i].records)
  }

  lemma PayloadsSnoc(log: seq<Upload>, u: Upload)
    ensures Payloads(log + [u]) == Payloads(log) + [u.records]
  {
  }

  /** What a failed upload may leave in the container. An append-blob upload
      with overwrite first (re)creates the blob at `path` and then appends the
      data, so a failure either comes before the blob was touched, or leaves
      at `path` a blob holding a prefix of the data (from none of it to all of
      it). No other blob is touched. */
  predicate FailedUpload(before: map<string, seq<Record>>, after: map<string, seq<Record>>, path: string, data: seq<Record>) {
    after == before || (path in after && after == before[path := after[path]] && after[path] <= data)
  }

  /** A failed upload can lose or truncate only the blob it was writing. */
  lemma FailedUploadKeepsOthers(before: map<string, seq<Record>>, after: map<string, seq<Record>>, path: string, data: seq<Record>)
    requires FailedUpload(before, after, path, data)
    ensures forall p :: p != path ==> (p in after <==> p in before)
    ensures forall p :: p != path && p in after ==> after[p] == before[p]
    ensures path in after ==> after[path] <= data || (path in before && after[path] == before[path])
  {
  }

  /** The container the sink writes to: its blobs, by name. The payload of a
      blob is the sequence of records its CSV text encodes. */
  class BlobContainer {
    var blobs: map<string, seq<Record>>

    constructor (blobs: map<string, seq<Record>>)
      ensures this.blobs == blobs
    {
      this.blobs := blobs;
    }

    /** Uploads `data` to the blob at `path`, replacing any blob of that name.
        Whether the service accepts the upload is not modelled: either it does
        and the blob holds the data, or it fails part-way (see FailedUpload). */
    method UploadBlob(path: string, data: seq<Record>) returns (ok: bool)
      modifies this
      ensures ok ==> blobs == old(blobs)[path := data]
      ensures !ok ==> FailedUpload(old(blobs), blobs, path, data)
    {
      ok :| true;
      if ok {
        blobs := blobs[path := data];
      } else {
        var created: bool, appended: nat :| appended <= |data|;
        if created {
          blobs := blobs[path := data[..appended]];
        }
      }
    }
  }

  class AzureBlobSink {
    const streamName: string
    const container: BlobContainer

    /** The records received and not yet uploaded, in arrival order. */
    var recordsBuffer: seq<Record>

    /** Every record passed to ProcessRecord, in order. */
    ghost var received: seq<Record>
    /** Every successful upload, in order (two uploads may share a path). */
    ghost var uploads: seq<Upload>

    /** Conservation: what was uploaded, followed by the buffer, is what was received. */
    ghost predicate Valid()
      reads this
    {
      Flatten(Payloads(uploads)) + recordsBuffer == received
    }

    /** The history of a sink whose every flush was a successful threshold
        flush: the uploads are the full batches of the records received, and
        the buffer is what remains. */
    ghost predicate Regular()
      reads this
    {
      Payloads(uploads) == FullBatches(received, MaxBufferSize) &&
      recordsBuffer == Remainder(received, MaxBufferSize)
    }

    constructor (streamName: string, container: BlobContainer)
      ensures Valid() && Regular()
      ensures this.streamName == streamName && this.container == container
      ensures recordsBuffer == [] && received == [] && uploads == []
    {
      this.streamName := streamName;
      this.container := container;
      recordsBuffer := [];
      received := [];
      uploads := [];
    }

    /** A regular history after N records: N / 10 uploads of exactly 10
        records each, N % 10 records buffered, nothing lost or reordered. */
    lemma RegularCounts()
      requires Regular()
      ensures |uploads| == |received| / MaxBufferSize
      ensures forall i :: 0 <= i < |uploads| ==> |uploads[i].records| == MaxBufferSize
      ensures |recordsBuffer| == |received| % MaxBufferSize < MaxBufferSize
      ensures Flatten(Payloads(uploads)) + recordsBuffer == received
    {
      BatchesConserve(received, MaxBufferSize);
      assert forall i :: 0 <= i < |uploads| ==> Payloads(uploads)[i] == uploads[i].records;
    }

    /** Uploads the whole buffer as one blob at the path for `now`; the buffer
        is emptied only when the upload succeeded. */
    method FlushBuffer(now: DateTime) returns (ok: bool)
      requires Valid() && ValidDateTime(now)
      modifies this, container
      ensures Valid() && received == old(received)
      ensures ok ==>
        recordsBuffer == [] &&
        uploads == old(uploads) + [Upload(BlobPath(streamName, now), old(recordsBuffer))] &&
        container.blobs == old(container.blobs)[BlobPath(streamName, now) := old(recordsBuffer)]
      ensures !ok ==>
        recordsBuffer == old(recordsBuffer) && uploads == old(uploads) &&
        FailedUpload(old(container.blobs), container.blobs, BlobPath(streamName, now), old(recordsBuffer))
    {
      var path := Join(StreamFolder(streamName), FileName(streamName, Format(now)));
      ok := container.UploadBlob(path, recordsBuffer);
      if ok {
        PayloadsSnoc(uploads, Upload(path, recordsBuffer));
        FlattenSnoc(Payloads(uploads), recordsBuffer);
        uploads := uploads + [Upload(path, recordsBuffer)];
        recordsBuffer := [];
      }
    }

    /** Appends a record; when the buffer then holds MaxBufferSize or more
        records, flushes it. */
    method ProcessRecord(record: Record, now: DateTime) returns (ok: bool)
      requires Valid() && ValidDateTime(now)
      modifies this, container
      ensures Valid() && received == old(received) + [record]
      ensures |old(recordsBuffer)| + 1 < MaxBufferSize ==>
        ok && recordsBuffer == old(recordsBuffer) + [record] && uploads == old(uploads) &&
        container.blobs == old(container.blobs)
      ensures |old(recordsBuffer)| + 1 >= MaxBufferSize && ok ==>
        recordsBuffer == [] &&
        uploads == old(uploads) + [Upload(BlobPath(streamName, now), old(recordsBuffer) + [record])] &&
        container.blobs == old(container.blobs)[BlobPath(streamName, now) := old(recordsBuffer) + [record]]
      ensures !ok ==>
        recordsBuffer == old(recordsBuffer) + [record] && |recordsBuffer| >= MaxBufferSize &&
        uploads == old(uploads) &&
        FailedUpload(old(container.blobs), container.blobs, BlobPath(streamName, now), old(recordsBuffer) + [record])
      ensures ok ==> |recordsBuffer| < MaxBufferSize
      ensures old(Regular()) && ok ==> Regular()
    {
      ghost var wasRegular, before, uploadedBefore := Regular(), received, uploads;
      recordsBuffer := recordsBuffer + [record];
      received := received + [record];
      ok := true;
      if |recordsBuffer| >= MaxBufferSize {
        ok := FlushBuffer(now);
      }
      if wasRegular && ok {
        assert Regular() by {
          BatchesSnoc(before, record, MaxBufferSize);
          if uploads != uploadedBefore {
            PayloadsSnoc(uploadedBefore, uploads[|uploads| - 1]);
            assert uploads == uploadedBefore + [uploads[|uploads| - 1]];
          }
        }
      }
    }

    /** End of stream: uploads what is left in the buffer, if anything. */
    method Finalize(now: DateTime) returns (ok: bool)
      requires Valid() && ValidDateTime(now)
      modifies this, container
      ensures Valid() && received == old(received)
      ensures old(recordsBuffer) == [] ==>
        ok && recordsBuffer == [] && uploads == old(uploads) && container.blobs == old(container.blobs)
      ensures old(recordsBuffer) != [] && ok ==>
        recordsBuffer == [] &&
        uploads == old(uploads) + [Upload(BlobPath(streamName, now), old(recordsBuffer))] &&
        container.blobs == old(container.blobs)[BlobPath(streamName, now) := old(recordsBuffer)]
      ensures !ok ==>
        recordsBuffer == old(recordsBuffer) && uploads == old(uploads) &&
        FailedUpload(old(container.blobs), container.blobs, BlobPath(streamName, now), old(recordsBuffer))
      ensures ok ==> Flatten(Payloads(uploads)) == received
      ensures old(Regular()) && ok ==>
        Payloads(uploads) == FullBatches(received, MaxBufferSize) +
          (if Remainder(received, MaxBufferSize) == [] then [] else [Remainder(received, MaxBufferSize)])
    {
      ghost var uploadedBefore, buffered := uploads, recordsBuffer;
      ok := true;
      if recordsBuffer != [] {
        ok := FlushBuffer(now);
        if ok {
          assert Payloads(uploads) == Payloads(uploadedBefore) + [buffered] by {
            PayloadsSnoc(uploadedBefore, uploads[|uploads| - 1]);
          }
        }
      }
      if ok {
        assert Flatten(Payloads(uploads)) == received by {
          assert Flatten(Payloads(uploads)) + recordsBuffer == Flatten(Payloads(uploads));
        }
      }
    }
  }

  /** An empty stream writes no blob and makes no upload call. */
  method EmptyStreamScenario(now: DateTime)
    requires ValidDateTime(now)
  {
    var store := new BlobContainer(map[]);
    var sink := new AzureBlobSink("orders", store);
    var ok := sink.Finalize(now);
    assert ok && sink.uploads == [] && store.blobs == map[];
  }

  /** Eleven records with no failed upload write one blob of the first ten;
      the end of the stream writes a second blob holding the eleventh. */
  method ElevenRecordsScenario(r: Record, now: DateTime)
    requires ValidDateTime(now)
  {
    var store := new BlobContainer(map[]);
    var sink := new AzureBlobSink("orders", store);
    var n := 0;
    var allOk := true;
    while n < 11
      invariant 0 <= n <= 11
      invariant sink.Valid() && |sink.received| == n
      invariant allOk ==> sink.Regular()
      modifies sink, store
    {
      var ok := sink.ProcessRecord(r, now);
      allOk := allOk && ok;
      n := n + 1;
    }
    if allOk {
      sink.RegularCounts();
      assert |sink.uploads| == 1 && |sink.uploads[0].records| == 10 && |sink.recordsBuffer| == 1;
      var ok := sink.Finalize(now);
      assert ok ==> |sink.uploads| == 2 && |sink.uploads[1].records| == 1 && sink.recordsBuffer == [];
    }
  }
}
