/** Where the sink writes each flushed batch: the stream's folder under a fixed
    root, and a file named after the stream and the flush time,
    `<root>/<stream>/<stream>_<YYYYMMDDTHHMMSS>.csv`. */
module BlobPaths {
  import opened Results
  import opened Timestamp

  /** The folder all streams are written under; the sink hard-codes it. */
  const RootFolder: string := "notion_dashboard/Talview_freshdesk"

  /** Length of everything a file name adds after the stream name: `_`, the
      timestamp and `.csv`. */
  const FileNameSuffixLength: nat := 20

  predicate StartsWith(s: string, prefix: string) {
    |prefix| <= |s| && s[..|prefix|] == prefix
  }

  predicate EndsWith(s: string, suffix: string) {
    |suffix| <= |s| && s[|s| - |suffix|..] == suffix
  }

  predicate IsAbsolute(p: string) {
    |p| > 0 && p[0] == '/'
  }

  /** `os.path.join(a, b)` with the POSIX separator: an absolute `b` replaces
      `a`; otherwise `b` is appended, with a `/` in between unless `a` is empty
      or already ends with one. */
  function Join(a: string, b: string): (r: string)
    ensures EndsWith(r, b)
    ensures !IsAbsolute(b) ==> StartsWith(r, a)
  {
    if IsAbsolute(b) then b
    else if a == [] || a[|a| - 1] == '/' then a + b
    else a + "/" + b
  }

  /** The stream's folder: the root folder joined with the stream name. A
      relative name becomes a sub-folder of the root; an absolute one replaces it. */
  function StreamFolder(stream: string): (r: string)
    ensures !IsAbsolute(stream) ==> r == RootFolder + "/" + stream
    ensures IsAbsolute(stream) ==> r == stream
  {
    Join(RootFolder, stream)
  }

  /** The file name template `{stream}_{timestamp}.csv` filled in. */
  function FileName(stream: string, timestamp: string): (r: string)
    ensures StartsWith(r, stream + "_") && EndsWith(r, ".csv")
  {
    var r := stream + "_" + timestamp + ".csv";
    assert r[..|stream| + 1] == stream + "_";
    r
  }

  /** The blob a flush at `now` writes for `stream`. */
  function BlobPath(stream: string, now: DateTime): (r: string)
    requires ValidDateTime(now)
    ensures EndsWith(r, FileName(stream, Format(now)))
    ensures !IsAbsolute(stream) ==> StartsWith(r, StreamFolder(stream))
  {
    Join(StreamFolder(stream), FileName(stream, Format(now)))
  }

  /** Reads the stream name and timestamp back out of a file name. */
  function SplitFileName(name: string): (r: Option<(string, string)>)
    ensures r.Some? ==> WellFormed(r.value.1) && FileName(r.value.0, r.value.1) == name
  {
    var n := |name|;
    if n >= FileNameSuffixLength && name[n - 4..] == ".csv" && name[n - 20] == '_' && WellFormed(name[n - 19..n - 4])
    then
      var r := (name[..n - 20], name[n - 19..n - 4]);
      assert name == r.0 + "_" + r.1 + ".csv";
      Some(r)
    else None
  }

  // ---------------------------------------------------------------- joins

  /** For the ordinary case, a relative segment after a folder that does not
      end in `/`, join puts exactly one separator between the two. */
  lemma JoinRelative(a: string, b: string)
    requires a != [] && a[|a| - 1] != '/' && !IsAbsolute(b)
    ensures Join(a, b) == a + "/" + b
  {
  }

  /** Extending the second part of a join extends the result by the same text. */
  lemma JoinAppend(a: string, b: string, c: string)
    requires b != []
    ensures Join(a, b + c) == Join(a, b) + c
  {
    assert (b + c)[0] == b[0];
    if !IsAbsolute(b) && a != [] && a[|a| - 1] != '/' {
      assert a + "/" + (b + c) == (a + "/" + b) + c;
    }
  }

  // ---------------------------------------------------------------- file names

  lemma SplitFileNameRoundTrip(stream: string, timestamp: string)
    requires WellFormed(timestamp)
    ensures SplitFileName(FileName(stream, timestamp)) == Some((stream, timestamp))
  {
    var name := FileName(stream, timestamp);
    var n := |name|;
    assert name[n - 4..] == ".csv";
    assert name[n - 20] == '_';
    assert name[n - 19..n - 4] == timestamp;
    assert name[..n - 20] == stream;
  }

  // ---------------------------------------------------------------- blob paths

  /** With a plain stream name (non-empty, no leading or trailing `/`) the blob
      sits at `<root>/<stream>/<stream>_<timestamp>.csv`. */
  lemma BlobPathLayout(stream: string, now: DateTime)
    requires ValidDateTime(now)
    requires stream != [] && !IsAbsolute(stream) && stream[|stream| - 1] != '/'
    ensures BlobPath(stream, now) == RootFolder + "/" + stream + "/" + stream + "_" + Format(now) + ".csv"
  {
  }

  /** Whatever the stream name, the blob name ends with the file name, and so with `.csv`. */
  lemma BlobPathEndsWithFileName(stream: string, now: DateTime)
    requires ValidDateTime(now)
    ensures EndsWith(BlobPath(stream, now), FileName(stream, Format(now)))
    ensures EndsWith(BlobPath(stream, now), ".csv")
  {
  }

  /** The blob lands under the root folder exactly when the stream name is not
      an absolute path (an absolute one makes join discard the root). */
  lemma BlobPathUnderRoot(stream: string, now: DateTime)
    requires ValidDateTime(now)
    ensures StartsWith(BlobPath(stream, now), RootFolder + "/") <==> !IsAbsolute(stream)
  {
    var f := FileName(stream, Format(now));
    var folder := StreamFolder(stream);
    var p := BlobPath(stream, now);
    if IsAbsolute(stream) {
      assert f[0] == '/';
      assert p == f;
      assert (RootFolder + "/")[0] == 'n';
    } else {
      JoinRelative(RootFolder, stream);
      assert StartsWith(folder, RootFolder + "/");
      assert f[0] == if stream == [] then '_' else stream[0];
      assert StartsWith(p, folder);
      assert p[..|RootFolder| + 1] == folder[..|RootFolder| + 1];
    }
  }

  /** Every blob of a stream is its fixed prefix, then the timestamp, then `.csv`. */
  lemma BlobPathSplit(stream: string, now: DateTime)
    requires ValidDateTime(now)
    ensures BlobPath(stream, now) == Join(StreamFolder(stream), stream + "_") + Format(now) + ".csv"
  {
    JoinAppend(StreamFolder(stream), stream + "_", Format(now) + ".csv");
    assert FileName(stream, Format(now)) == (stream + "_") + (Format(now) + ".csv");
  }

  lemma {:induction false} LexLessIrreflexive(s: string)
    ensures !LexLess(s, s)
  {
    if s != [] {
      LexLessIrreflexive(s[1..]);
    }
  }

  /** Two flushes of a stream write the same blob exactly when they read the
      same clock value, to the second (the later upload then overwrites the
      earlier blob). */
  lemma BlobPathCollision(stream: string, a: DateTime, b: DateTime)
    requires ValidDateTime(a) && ValidDateTime(b)
    ensures BlobPath(stream, a) == BlobPath(stream, b) <==> a == b
  {
    var prefix := Join(StreamFolder(stream), stream + "_");
    BlobPathSplit(stream, a);
    BlobPathSplit(stream, b);
    LexLessAppend3(prefix, Format(a), ".csv", prefix, Format(b), ".csv");
    FormatInjective(a, b);
  }

  /** The blobs of one stream sort by name in the order of the clock readings
      taken when they were written. */
  lemma BlobPathOrder(stream: string, a: DateTime, b: DateTime)
    requires ValidDateTime(a) && ValidDateTime(b)
    ensures LexLess(BlobPath(stream, a), BlobPath(stream, b)) <==> Before(a, b)
  {
    var prefix := Join(StreamFolder(stream), stream + "_");
    BlobPathSplit(stream, a);
    BlobPathSplit(stream, b);
    LexLessAppend3(prefix, Format(a), ".csv", prefix, Format(b), ".csv");
    LexLessIrreflexive(prefix);
    LexLessIrreflexive(".csv");
    FormatOrder(a, b);
  }
}
