/**
 * utils/downloader.go: the built-in segmented downloader and the choice
 * between it and aria2c.
 *
 * The eight parts run one after another here, in index order. When every
 * part's body stays within its range the writes are disjoint and the order
 * in which goroutines finish does not change which byte ends up where; when
 * a body overruns its range (a server that ignores the Range header, or the
 * empty parts of a file under 8 bytes, which all write from offset 0) the
 * order fixed here is one of those the goroutines may produce. The HTTP
 * exchange is an input: the HEAD response, and for each part either a
 * failed request or the successive chunks of the body.
 */
module Downloader {
  import opened Text
  import opened Arith
  import opened Model

  newtype byte = x: int | 0 <= x < 256

  const WorkerCount := 8
  const MaxRetries := 5

  function Zeros(n: nat): (z: seq<byte>)
    ensures |z| == n && forall k :: 0 <= k < n ==> z[k] == 0
  {
    seq(n, _ => 0)
  }

  function Sum(s: seq<nat>): nat {
    if s == [] then 0 else Sum(s[..|s| - 1]) + s[|s| - 1]
  }

  // ---------------------------------------------------------------------
  // The partition into eight segments
  // ---------------------------------------------------------------------

  /** The inclusive byte range [start, end] of one part; empty when end < start. */
  datatype Segment = Segment(start: nat, end: int)

  predicate InSegment(b: int, s: Segment) {
    s.start <= b <= s.end
  }

  function Size(s: Segment): int {
    s.end - s.start + 1
  }

  /** Part i starts at i * (fileSize / 8); the last one runs to the end of the file. */
  function SegmentAt(i: nat, fileSize: nat): Segment
    requires i < WorkerCount
  {
    var partSize := fileSize / WorkerCount;
    var start := i * partSize;
    Segment(start, if i == WorkerCount - 1 then fileSize - 1 else start + partSize - 1)
  }

  /** Where part i begins; part 8 would begin just past the end of the file. */
  function Boundary(i: nat, fileSize: nat): (b: nat)
    requires i <= WorkerCount
    ensures b <= fileSize
  {
    if i == WorkerCount then fileSize
    else
      MulMonotone(i, WorkerCount, fileSize / WorkerCount);
      i * (fileSize / WorkerCount)
  }

  /** The parts tile [0, fileSize - 1]: part 0 starts at 0, each starts where the last ended. */
  lemma SegmentsContiguous(i: nat, fileSize: nat)
    requires i < WorkerCount
    ensures SegmentAt(i, fileSize).start == Boundary(i, fileSize)
    ensures SegmentAt(i, fileSize).end + 1 == Boundary(i + 1, fileSize)
    ensures Boundary(i, fileSize) <= Boundary(i + 1, fileSize)
    ensures Boundary(0, fileSize) == 0
  {
    var p := fileSize / WorkerCount;
    assert (i + 1) * p == i * p + p;
    if i == WorkerCount - 1 {
      assert fileSize == 8 * p + fileSize % 8;
      assert 7 * p <= fileSize;
    }
  }

  /** The part a byte belongs to. */
  function Owner(b: nat, fileSize: nat): nat {
    var p := fileSize / WorkerCount;
    if p == 0 || b / p >= WorkerCount - 1 then WorkerCount - 1 else b / p
  }

  /** Every byte of the file lies in exactly one part: the parts are disjoint and cover it. */
  lemma SegmentOwner(b: nat, fileSize: nat, i: nat)
    requires b < fileSize && i < WorkerCount
    ensures Owner(b, fileSize) < WorkerCount
    ensures InSegment(b, SegmentAt(i, fileSize)) <==> i == Owner(b, fileSize)
  {
    var p := fileSize / WorkerCount;
    if p >= 1 {
      var q := b / p;
      assert b == q * p + b % p;
      assert (q + 1) * p == q * p + p;
      assert (i + 1) * p == i * p + p;
      if i < WorkerCount - 1 {
        if InSegment(b, SegmentAt(i, fileSize)) {
          DivWindow(b, p, i);
        }
        if i == Owner(b, fileSize) {
          assert q == i;
        }
      } else {
        if InSegment(b, SegmentAt(i, fileSize)) {
          MulCancel(7, q + 1, p);
        }
        if q >= 7 {
          MulMonotone(7, q, p);
        }
      }
    }
  }

  /** Each part but the last holds fileSize / 8 bytes; the last also holds the remainder. */
  lemma SegmentSizes(i: nat, fileSize: nat)
    requires i < WorkerCount
    ensures i < WorkerCount - 1 ==> Size(SegmentAt(i, fileSize)) == fileSize / WorkerCount
    ensures i == WorkerCount - 1 ==> Size(SegmentAt(i, fileSize)) == fileSize / WorkerCount + fileSize % WorkerCount
  {
    var p := fileSize / WorkerCount;
    assert fileSize == 8 * p + fileSize % 8;
  }

  /** For 1,000,000 bytes the last part is [875000, 999999]. */
  lemma LastSegmentOfAMillion()
    ensures SegmentAt(7, 1000000) == Segment(875000, 999999)
  {
  }

  /** Below 8 bytes parts 0 to 6 are empty and part 7 is the whole file. */
  lemma SmallFileSegments(fileSize: nat, i: nat)
    requires fileSize < WorkerCount && i < WorkerCount
    ensures i < WorkerCount - 1 ==> SegmentAt(i, fileSize) == Segment(0, -1)
    ensures i == WorkerCount - 1 ==> SegmentAt(i, fileSize) == Segment(0, fileSize - 1)
  {
    assert fileSize / WorkerCount == 0;
  }

  // ---------------------------------------------------------------------
  // The Range header (section 14.1.2 of RFC 9110)
  // ---------------------------------------------------------------------

  /** `fmt.Sprintf("bytes=%d-%d", start, end)`. */
  function RangeHeader(start: int, end: int): string {
    "bytes=" + IntString(start) + "-" + IntString(end)
  }

  predicate IsDecimal(s: string) {
    |s| >= 1 && AllDigits(s)
  }

  /**
   * A single byte-range-spec with both positions: "bytes=" first-pos "-"
   * last-pos, both runs of digits, first-pos not above last-pos (a spec
   * whose last-pos is below its first-pos is invalid).
   */
  predicate ValidByteRange(h: string) {
    HasPrefix(h, "bytes=") &&
    exists k :: 6 < k < |h| - 1 && h[k] == '-' && IsDecimal(h[6..k]) && IsDecimal(h[k + 1..]) &&
      ParseDigits(h[6..k]) <= ParseDigits(h[k + 1..])
  }

  /** A non-empty part asks for a valid range. */
  lemma NonEmptyRangeValid(start: nat, end: int)
    requires start <= end
    ensures ValidByteRange(RangeHeader(start, end))
  {
    var h := RangeHeader(start, end);
    var a := NatString(start);
    var b := NatString(end);
    assert h == "bytes=" + a + "-" + b;
    var k := 6 + |a|;
    assert h[6..k] == a;
    assert h[k] == '-';
    assert h[k + 1..] == b;
    NatStringRoundTrip(start);
    NatStringRoundTrip(end);
  }

  /** An empty part, [0, -1], asks for "bytes=0--1", which is not a valid range. */
  lemma EmptyRangeInvalid()
    ensures RangeHeader(0, -1) == "bytes=0--1"
    ensures !ValidByteRange(RangeHeader(0, -1))
  {
    var h := RangeHeader(0, -1);
    assert NatString(0) == "0" && NatString(1) == "1";
    assert h == "bytes=0--1";
    forall k | 6 < k < |h| - 1 && h[k] == '-'
      ensures !(IsDecimal(h[6..k]) && IsDecimal(h[k + 1..]))
    {
      if k == 7 {
        assert h[k + 1..][0] == '-';
      } else {
        assert k == 8;
        assert h[6..k][1] == '-';
      }
    }
  }

  /** What the loop as written asks for: one range per part, empty parts included. */
  function RequestedAsWritten(fileSize: nat): (hs: seq<string>)
    ensures |hs| == WorkerCount
    ensures forall i :: 0 <= i < WorkerCount ==>
      hs[i] == RangeHeader(SegmentAt(i, fileSize).start, SegmentAt(i, fileSize).end)
  {
    seq(WorkerCount, i requires 0 <= i < WorkerCount => RangeHeader(SegmentAt(i, fileSize).start, SegmentAt(i, fileSize).end))
  }

  /**
   * With fewer than 8 bytes (an unparseable Content-Length gives 0) the
   * loop as written sends seven, or eight, requests with an invalid range.
   */
  lemma SmallFileSendsInvalidRange(fileSize: nat)
    requires fileSize < WorkerCount
    ensures forall i :: 0 <= i < WorkerCount - 1 ==> !ValidByteRange(RequestedAsWritten(fileSize)[i])
    ensures fileSize == 0 ==> !ValidByteRange(RequestedAsWritten(fileSize)[WorkerCount - 1])
  {
    EmptyRangeInvalid();
    forall i | 0 <= i < WorkerCount - 1
      ensures RequestedAsWritten(fileSize)[i] == RangeHeader(0, -1)
    {
      SmallFileSegments(fileSize, i);
    }
    SmallFileSegments(fileSize, WorkerCount - 1);
  }

  /** The ranges of the parts the corrected download requests. */
  function Requested(fileSize: nat, k: nat): seq<string>
    requires k <= WorkerCount
  {
    if k == 0 then [] else Requested(fileSize, k - 1) + PartRange(fileSize, k - 1)
  }

  /** The range part i asks for: none when the part is empty. */
  function PartRange(fileSize: nat, i: nat): seq<string>
    requires i < WorkerCount
  {
    var s := SegmentAt(i, fileSize);
    if s.start <= s.end then [RangeHeader(s.start, s.end)] else []
  }

  lemma PartRangeValid(fileSize: nat, i: nat)
    requires i < WorkerCount
    ensures forall h :: h in PartRange(fileSize, i) ==> ValidByteRange(h)
  {
    var s := SegmentAt(i, fileSize);
    if s.start <= s.end {
      NonEmptyRangeValid(s.start, s.end);
    }
  }

  lemma AllValidAppend(a: seq<string>, b: seq<string>)
    requires forall h :: h in a ==> ValidByteRange(h)
    requires forall h :: h in b ==> ValidByteRange(h)
    ensures forall h :: h in a + b ==> ValidByteRange(h)
  {
  }

  /** Skipping empty parts, every range requested is valid. */
  lemma {:induction false} RequestedRangesValid(fileSize: nat, k: nat)
    requires k <= WorkerCount
    ensures forall h :: h in Requested(fileSize, k) ==> ValidByteRange(h)
  {
    if k > 0 {
      RequestedRangesValid(fileSize, k - 1);
      PartRangeValid(fileSize, k - 1);
      AllValidAppend(Requested(fileSize, k - 1), PartRange(fileSize, k - 1));
    }
  }

  /** From 8 bytes on no part is empty, so nothing is skipped. */
  lemma {:induction false} NothingSkippedFromEightBytes(fileSize: nat, k: nat)
    requires WorkerCount <= fileSize && k <= WorkerCount
    ensures Requested(fileSize, k) == RequestedAsWritten(fileSize)[..k]
  {
    if k == 0 {
      assert RequestedAsWritten(fileSize)[..0] == [];
    } else {
      NothingSkippedFromEightBytes(fileSize, k - 1);
      RequestedStep(fileSize, k);
      AsWrittenStep(fileSize, k - 1);
    }
  }

  /** From 8 bytes on, part k - 1 is not empty and its range is requested. */
  lemma RequestedStep(fileSize: nat, k: nat)
    requires WorkerCount <= fileSize && 0 < k <= WorkerCount
    ensures var s := SegmentAt(k - 1, fileSize);
      Requested(fileSize, k) == Requested(fileSize, k - 1) + [RangeHeader(s.start, s.end)]
  {
    SegmentSizes(k - 1, fileSize);
  }

  lemma AsWrittenStep(fileSize: nat, i: nat)
    requires i < WorkerCount
    ensures var s := SegmentAt(i, fileSize);
      RequestedAsWritten(fileSize)[..i + 1] == RequestedAsWritten(fileSize)[..i] + [RangeHeader(s.start, s.end)]
  {
    TakeLast(RequestedAsWritten(fileSize), i + 1);
  }

  lemma TakeLast<T>(w: seq<T>, k: nat)
    requires 0 < k <= |w|
    ensures w[..k] == w[..k - 1] + [w[k - 1]]
  {
  }

  // ---------------------------------------------------------------------
  // File.WriteAt and the preallocated file
  // ---------------------------------------------------------------------

  /**
   * The file after WriteAt(data, off): data replaces the bytes from off on;
   * a write past the end extends the file, with zeros in any gap; writing
   * nothing changes nothing.
   */
  function Overwrite(f: seq<byte>, off: nat, data: seq<byte>): (r: seq<byte>)
    ensures |r| == if |data| > 0 && off + |data| > |f| then off + |data| else |f|
    ensures forall k :: 0 <= k < |r| ==>
      r[k] == (if off <= k < off + |data| then data[k - off] else if k < |f| then f[k] else 0)
  {
    if data == [] then f
    else
    var padded := if off > |f| then f + Zeros(off - |f|) else f;
    padded[..off] + data + (if off + |data| < |padded| then padded[off + |data|..] else [])
  }

  /** Two writes back to back are one write of both. */
  lemma OverwriteConcat(f: seq<byte>, off: nat, a: seq<byte>, b: seq<byte>)
    ensures Overwrite(Overwrite(f, off, a), off + |a|, b) == Overwrite(f, off, a + b)
  {
    var l := Overwrite(Overwrite(f, off, a), off + |a|, b);
    var r := Overwrite(f, off, a + b);
    assert |l| == |r|;
    forall k | 0 <= k < |l|
      ensures l[k] == r[k]
    {
      if off <= k < off + |a| {
        assert (a + b)[k - off] == a[k - off];
      } else if off + |a| <= k < off + |a| + |b| {
        assert (a + b)[k - off] == b[k - off - |a|];
      }
    }
  }

  /** The file as an object written in place. */
  class File {
    var content: seq<byte>

    constructor (content: seq<byte>)
      ensures this.content == content
    {
      this.content := content;
    }

    method WriteAt(data: seq<byte>, off: nat)
      modifies this
      ensures content == Overwrite(old(content), off, data)
    {
      content := Overwrite(content, off, data);
    }
  }

  // ---------------------------------------------------------------------
  // downloadPart
  // ---------------------------------------------------------------------

  /**
   * One Read of the body: the bytes it returned and whether writing them
   * fails. A body is the list of its chunks; after the last one the stream
   * ended, with io.EOF or with an error, which end the part alike.
   */
  datatype Chunk = Chunk(data: seq<byte>, writeFails: bool)

  datatype PartResponse = RequestFailed | Body(chunks: seq<Chunk>)

  /** The bytes written: those of every non-empty read up to the first failing write. */
  function Placed(chunks: seq<Chunk>): seq<byte> {
    if chunks == [] then []
    else if |chunks[0].data| > 0 && chunks[0].writeFails then []
    else chunks[0].data + Placed(chunks[1..])
  }

  /** The sizes reported on the progress channel, one per written read. */
  function Deltas(chunks: seq<Chunk>): seq<nat> {
    if chunks == [] then []
    else if |chunks[0].data| == 0 then Deltas(chunks[1..])
    else if chunks[0].writeFails then []
    else [|chunks[0].data|] + Deltas(chunks[1..])
  }

  function PartData(resp: PartResponse): seq<byte> {
    if resp.RequestFailed? then [] else Placed(resp.chunks)
  }

  function PartDeltas(resp: PartResponse): seq<nat> {
    if resp.RequestFailed? then [] else Deltas(resp.chunks)
  }

  lemma SumConcat(a: seq<nat>, b: seq<nat>)
    ensures Sum(a + b) == Sum(a) + Sum(b)
    decreases |b|
  {
    if b == [] {
      assert a + b == a;
    } else {
      assert (a + b)[..|a + b| - 1] == a + b[..|b| - 1];
      assert (a + b)[|a + b| - 1] == b[|b| - 1];
      SumConcat(a, b[..|b| - 1]);
    }
  }

  /** The progress reported for a body adds up to the bytes written, each report positive. */
  lemma {:induction false} DeltasSumToPlaced(chunks: seq<Chunk>)
    ensures Sum(Deltas(chunks)) == |Placed(chunks)|
    ensures forall i :: 0 <= i < |Deltas(chunks)| ==> Deltas(chunks)[i] > 0
  {
    if chunks != [] {
      DeltasSumToPlaced(chunks[1..]);
      if |chunks[0].data| > 0 && !chunks[0].writeFails {
        SumConcat([|chunks[0].data|], Deltas(chunks[1..]));
        assert Sum([|chunks[0].data|]) == |chunks[0].data| by {
          assert [|chunks[0].data|][..0] == [];
        }
      }
    }
  }

  /** The bytes of the chunks before the k-th. */
  function DataBefore(chunks: seq<Chunk>, k: nat): seq<byte>
    requires k <= |chunks|
  {
    if k == 0 then [] else DataBefore(chunks, k - 1) + chunks[k - 1].data
  }

  /**
   * A failing write ends the part: what the earlier chunks wrote stays, and
   * nothing after it is written.
   */
  lemma {:induction false} FailureStopsPart(chunks: seq<Chunk>, k: nat)
    requires k < |chunks| && |chunks[k].data| > 0 && chunks[k].writeFails
    requires forall j :: 0 <= j < k ==> |chunks[j].data| == 0 || !chunks[j].writeFails
    ensures Placed(chunks) == DataBefore(chunks, k)
  {
    if k > 0 {
      FailureStopsPart(chunks[1..], k - 1);
      DataBeforeShift(chunks, k);
    }
  }

  lemma {:induction false} DataBeforeShift(chunks: seq<Chunk>, k: nat)
    requires 0 < k <= |chunks|
    ensures DataBefore(chunks, k) == chunks[0].data + DataBefore(chunks[1..], k - 1)
  {
    if k > 1 {
      DataBeforeShift(chunks, k - 1);
    }
  }

  /** One step of the body: the k-th read, then the rest. */
  lemma BodyStep(chunks: seq<Chunk>, k: nat)
    requires k < |chunks|
    ensures var c := chunks[k];
      |c.data| > 0 && c.writeFails ==> Placed(chunks[k..]) == [] && Deltas(chunks[k..]) == []
    ensures var c := chunks[k];
      |c.data| == 0 ==> Placed(chunks[k..]) == Placed(chunks[k + 1..]) && Deltas(chunks[k..]) == Deltas(chunks[k + 1..])
    ensures var c := chunks[k];
      |c.data| > 0 && !c.writeFails ==>
        Placed(chunks[k..]) == c.data + Placed(chunks[k + 1..]) && Deltas(chunks[k..]) == [|c.data|] + Deltas(chunks[k + 1..])
  {
    assert chunks[k..][1..] == chunks[k + 1..];
    if |chunks[k].data| == 0 {
      assert Placed(chunks[k..]) == [] + Placed(chunks[k + 1..]);
    }
  }

  /**
   * downloadPart: sends the Range header, then writes each read at
   * start + written and reports its size, stopping at the first failing
   * write or at the end of the body.
   */
  method DownloadPart(file: File, start: nat, end: int, resp: PartResponse) returns (rangeHeader: string, deltas: seq<nat>)
    modifies file
    ensures rangeHeader == RangeHeader(start, end)
    ensures file.content == Overwrite(old(file.content), start, PartData(resp))
    ensures deltas == PartDeltas(resp)
  {
    rangeHeader := RangeHeader(start, end);
    if resp.RequestFailed? {
      deltas := [];
      assert Overwrite(file.content, start, []) == file.content;
    } else {
      deltas := WriteBody(file, start, resp.chunks);
    }
  }

  lemma AppendAssoc<T>(a: seq<T>, b: seq<T>, c: seq<T>)
    ensures a + (b + c) == (a + b) + c
  {
  }

  /** The read loop of downloadPart: each read written after the previous one, its size reported. */
  method WriteBody(file: File, start: nat, chunks: seq<Chunk>) returns (deltas: seq<nat>)
    modifies file
    ensures file.content == Overwrite(old(file.content), start, Placed(chunks))
    ensures deltas == Deltas(chunks)
  {
    ghost var orig := file.content;
    deltas := [];
    var written: nat := 0;
    ghost var placed: seq<byte> := [];
    assert Overwrite(orig, start, []) == orig;
    var k := 0;
    while k < |chunks|
      invariant 0 <= k <= |chunks|
      invariant written == |placed|
      invariant Placed(chunks) == placed + Placed(chunks[k..])
      invariant Deltas(chunks) == deltas + Deltas(chunks[k..])
      invariant file.content == Overwrite(orig, start, placed)
    {
      var c := chunks[k];
      BodyStep(chunks, k);
      if |c.data| > 0 {
        if c.writeFails {
          assert placed + [] == placed && deltas + [] == deltas;
          return;
        }
        OverwriteConcat(orig, start, placed, c.data);
        AppendAssoc(placed, c.data, Placed(chunks[k + 1..]));
        AppendAssoc(deltas, [|c.data|], Deltas(chunks[k + 1..]));
        file.WriteAt(c.data, start + written);
        written := written + |c.data|;
        deltas := deltas + [|c.data|];
        placed := placed + c.data;
      }
      k := k + 1;
    }
    assert placed + [] == placed && deltas + [] == deltas;
  }

  // ---------------------------------------------------------------------
  // simpleDownload
  // ---------------------------------------------------------------------

  /**
   * The HEAD exchange: either the request failed, or the status code and
   * the two headers used. `contentLength` is what strconv.ParseInt made of
   * Content-Length, None when it could not parse it (the size is then 0).
   */
  datatype HeadResponse =
    | HeadFailed
    | HeadOk(status: int, contentLength: Option<int>, acceptRanges: string)

  datatype DownloadError = RequestError | BadStatus(status: int) | RangeUnsupported | MkdirFailed | CreateFailed | TruncateFailed

  /** What the operating system does to MkdirAll and Create. */
  datatype FsFaults = FsFaults(mkdirFails: bool, createFails: bool)

  /** The directories and files the downloader creates and writes. */
  class Disk {
    var dirs: set<string>
    var files: map<string, seq<byte>>

    constructor (dirs: set<string>, files: map<string, seq<byte>>)
      ensures this.dirs == dirs && this.files == files
    {
      this.dirs := dirs;
      this.files := files;
    }
  }

  function FileSize(contentLength: Option<int>): int {
    if contentLength.Some? then contentLength.value else 0
  }

  /** The HEAD response passes the checks: status 200 and byte ranges accepted. */
  predicate HeadAccepted(head: HeadResponse) {
    head.HeadOk? && head.status == 200 && head.acceptRanges == "bytes"
  }

  /** Whether simpleDownload gets past its checks and reaches the parts. */
  predicate ReachesParts(head: HeadResponse, faults: FsFaults) {
    HeadAccepted(head) && !faults.mkdirFails && !faults.createFails && FileSize(head.contentLength) >= 0
  }

  /** The directories after simpleDownload: savePath is added once the HEAD checks pass and MkdirAll succeeds. */
  function DirsAfter(dirs: set<string>, savePath: string, head: HeadResponse, faults: FsFaults): set<string> {
    if HeadAccepted(head) && !faults.mkdirFails then dirs + {savePath} else dirs
  }

  /**
   * The files after simpleDownload: untouched until Create succeeds; then
   * empty when Truncate rejects a negative size, otherwise the assembled parts.
   */
  function FilesAfter(files: map<string, seq<byte>>, savePath: string, fileName: string, head: HeadResponse,
                      faults: FsFaults, parts: seq<PartResponse>): map<string, seq<byte>>
    requires |parts| == WorkerCount
  {
    if !HeadAccepted(head) || faults.mkdirFails || faults.createFails then files
    else
      var size := FileSize(head.contentLength);
      if size < 0 then files[savePath + "/" + fileName := []]
      else files[savePath + "/" + fileName := Assembled(size, parts, WorkerCount)]
  }

  /** The file after parts 0..k-1 have run, empty parts skipped. */
  function Assembled(fileSize: nat, parts: seq<PartResponse>, k: nat): seq<byte>
    requires k <= WorkerCount && |parts| == WorkerCount
  {
    if k == 0 then Zeros(fileSize)
    else
      var s := SegmentAt(k - 1, fileSize);
      var prev := Assembled(fileSize, parts, k - 1);
      if s.start <= s.end then Overwrite(prev, s.start, PartData(parts[k - 1])) else prev
  }

  /** The progress total after parts 0..k-1. */
  function Progress(fileSize: nat, parts: seq<PartResponse>, k: nat): nat
    requires k <= WorkerCount && |parts| == WorkerCount
  {
    if k == 0 then 0
    else
      var s := SegmentAt(k - 1, fileSize);
      Progress(fileSize, parts, k - 1) + (if s.start <= s.end then |PartData(parts[k - 1])| else 0)
  }

  /**
   * simpleDownload, with the empty parts skipped: the checks of the HEAD
   * response come before anything is created; then the directory, the file
   * of fileSize zero bytes, and the parts in order. Once the parts have run
   * the result is success whatever they did.
   */
  method SimpleDownload(disk: Disk, savePath: string, fileName: string, head: HeadResponse, faults: FsFaults,
                        parts: seq<PartResponse>)
    returns (err: Option<DownloadError>, progress: nat, requests: seq<string>)
    requires |parts| == WorkerCount
    modifies disk
    ensures err.None? <==> ReachesParts(head, faults)
    ensures head.HeadFailed? ==> err == Some(RequestError)
    ensures head.HeadOk? && head.status != 200 ==> err == Some(BadStatus(head.status))
    ensures head.HeadOk? && head.status == 200 && head.acceptRanges != "bytes" ==> err == Some(RangeUnsupported)
    ensures HeadAccepted(head) && faults.mkdirFails ==> err == Some(MkdirFailed)
    ensures disk.dirs == DirsAfter(old(disk.dirs), savePath, head, faults)
    ensures disk.files == FilesAfter(old(disk.files), savePath, fileName, head, faults, parts)
    ensures (head.HeadFailed? || head.status != 200 || head.acceptRanges != "bytes" || faults.mkdirFails) ==>
      disk.dirs == old(disk.dirs) && disk.files == old(disk.files)
    ensures head.HeadOk? && head.status == 200 && head.acceptRanges == "bytes" && !faults.mkdirFails && faults.createFails ==>
      err == Some(CreateFailed) && disk.dirs == old(disk.dirs) + {savePath} && disk.files == old(disk.files)
    ensures head.HeadOk? && head.status == 200 && head.acceptRanges == "bytes" && !faults.mkdirFails &&
            !faults.createFails && FileSize(head.contentLength) < 0 ==>
      err == Some(TruncateFailed) && disk.files == old(disk.files)[savePath + "/" + fileName := []]
    ensures ReachesParts(head, faults) ==>
      var n: nat := FileSize(head.contentLength);
      disk.dirs == old(disk.dirs) + {savePath} &&
      disk.files == old(disk.files)[savePath + "/" + fileName := Assembled(n, parts, WorkerCount)] &&
      progress == Progress(n, parts, WorkerCount) &&
      requests == Requested(n, WorkerCount)
  {
    err := None;
    progress := 0;
    requests := [];
    if head.HeadFailed? {
      return Some(RequestError), progress, requests;
    }
    if head.status != 200 {
      return Some(BadStatus(head.status)), progress, requests;
    }
    var fileSize := FileSize(head.contentLength);
    if head.acceptRanges != "bytes" {
      return Some(RangeUnsupported), progress, requests;
    }
    if faults.mkdirFails {
      return Some(MkdirFailed), progress, requests;
    }
    err, progress, requests := CreateAndFill(disk, savePath, fileName, fileSize, faults.createFails, parts);
  }

  /** The second half of simpleDownload: MkdirAll, Create, Truncate, then the parts. */
  method CreateAndFill(disk: Disk, savePath: string, fileName: string, fileSize: int, createFails: bool,
                       parts: seq<PartResponse>)
    returns (err: Option<DownloadError>, progress: nat, requests: seq<string>)
    requires |parts| == WorkerCount
    modifies disk
    ensures disk.dirs == old(disk.dirs) + {savePath}
    ensures createFails ==> err == Some(CreateFailed) && disk.files == old(disk.files)
    ensures !createFails && fileSize < 0 ==>
      err == Some(TruncateFailed) && disk.files == old(disk.files)[savePath + "/" + fileName := []]
    ensures !createFails && fileSize >= 0 ==>
      err == None &&
      disk.files == old(disk.files)[savePath + "/" + fileName := Assembled(fileSize, parts, WorkerCount)] &&
      progress == Progress(fileSize, parts, WorkerCount) &&
      requests == Requested(fileSize, WorkerCount)
  {
    err, progress, requests := None, 0, [];
    disk.dirs := disk.dirs + {savePath};
    if createFails {
      return Some(CreateFailed), progress, requests;
    }
    var path := savePath + "/" + fileName;
    var file := new File([]);
    disk.files := disk.files[path := file.content];
    if fileSize < 0 {
      return Some(TruncateFailed), progress, requests;
    }
    file.content := Zeros(fileSize);
    progress, requests := RunParts(file, fileSize, parts);
    disk.files := disk.files[path := file.content];
  }

  /** The parts in order, skipping empty ones, with the progress total. */
  method RunParts(file: File, fileSize: nat, parts: seq<PartResponse>) returns (progress: nat, requests: seq<string>)
    requires |parts| == WorkerCount && file.content == Zeros(fileSize)
    modifies file
    ensures file.content == Assembled(fileSize, parts, WorkerCount)
    ensures progress == Progress(fileSize, parts, WorkerCount)
    ensures requests == Requested(fileSize, WorkerCount)
  {
    progress := 0;
    requests := [];
    var i := 0;
    while i < WorkerCount
      invariant 0 <= i <= WorkerCount
      invariant file.content == Assembled(fileSize, parts, i)
      invariant progress == Progress(fileSize, parts, i)
      invariant requests == Requested(fileSize, i)
    {
      var s := SegmentAt(i, fileSize);
      PartStep(fileSize, parts, i);
      if s.start <= s.end {
        var header, deltas := DownloadPart(file, s.start, s.end, parts[i]);
        requests := requests + [header];
        DeltasSumToPlaced(if parts[i].RequestFailed? then [] else parts[i].chunks);
        var total := AddUp(deltas);
        progress := progress + total;
      }
      i := i + 1;
    }
  }

  /** What part i adds to the file, the progress total and the requests: nothing when it is empty. */
  lemma PartStep(fileSize: nat, parts: seq<PartResponse>, i: nat)
    requires |parts| == WorkerCount && i < WorkerCount
    ensures var s := SegmentAt(i, fileSize);
      s.start <= s.end ==>
        Assembled(fileSize, parts, i + 1) == Overwrite(Assembled(fileSize, parts, i), s.start, PartData(parts[i])) &&
        Progress(fileSize, parts, i + 1) == Progress(fileSize, parts, i) + |PartData(parts[i])| &&
        Requested(fileSize, i + 1) == Requested(fileSize, i) + [RangeHeader(s.start, s.end)]
    ensures var s := SegmentAt(i, fileSize);
      s.start > s.end ==>
        Assembled(fileSize, parts, i + 1) == Assembled(fileSize, parts, i) &&
        Progress(fileSize, parts, i + 1) == Progress(fileSize, parts, i) &&
        Requested(fileSize, i + 1) == Requested(fileSize, i)
  {
    var s := SegmentAt(i, fileSize);
    if s.start > s.end {
      assert PartRange(fileSize, i) == [];
      assert Requested(fileSize, i) + [] == Requested(fileSize, i);
    }
  }

  // ---------------------------------------------------------------------
  // The loop as written: every part runs, empty ones included
  // ---------------------------------------------------------------------

  /** The file after parts 0..k-1 of the loop as written, each written from its start. */
  function AssembledAsWritten(fileSize: nat, parts: seq<PartResponse>, k: nat): seq<byte>
    requires k <= WorkerCount && |parts| == WorkerCount
  {
    if k == 0 then Zeros(fileSize)
    else Overwrite(AssembledAsWritten(fileSize, parts, k - 1), SegmentAt(k - 1, fileSize).start, PartData(parts[k - 1]))
  }

  /** The progress total after parts 0..k-1 of the loop as written. */
  function ProgressAsWritten(fileSize: nat, parts: seq<PartResponse>, k: nat): nat
    requires k <= WorkerCount && |parts| == WorkerCount
  {
    if k == 0 then 0 else ProgressAsWritten(fileSize, parts, k - 1) + |PartData(parts[k - 1])|
  }

  /**
   * The loop of simpleDownload as written: all eight parts run, an empty one
   * asking for "bytes=0--1" and writing whatever comes back from offset 0.
   */
  method RunPartsAsWritten(file: File, fileSize: nat, parts: seq<PartResponse>) returns (progress: nat, requests: seq<string>)
    requires |parts| == WorkerCount && file.content == Zeros(fileSize)
    modifies file
    ensures file.content == AssembledAsWritten(fileSize, parts, WorkerCount)
    ensures progress == ProgressAsWritten(fileSize, parts, WorkerCount)
    ensures requests == RequestedAsWritten(fileSize)
  {
    progress := 0;
    requests := [];
    var i := 0;
    while i < WorkerCount
      invariant 0 <= i <= WorkerCount
      invariant file.content == AssembledAsWritten(fileSize, parts, i)
      invariant progress == ProgressAsWritten(fileSize, parts, i)
      invariant requests == RequestedUpTo(fileSize, i)
    {
      progress, requests := RunPartAsWritten(file, fileSize, parts, i, progress, requests);
      i := i + 1;
    }
    RequestedUpToAll(fileSize);
  }

  /** Part i of the loop as written: its range is requested, its body written from its start, its size added. */
  method RunPartAsWritten(file: File, fileSize: nat, parts: seq<PartResponse>, i: nat, progress: nat, requests: seq<string>)
    returns (progress': nat, requests': seq<string>)
    requires |parts| == WorkerCount && i < WorkerCount
    requires file.content == AssembledAsWritten(fileSize, parts, i)
    requires progress == ProgressAsWritten(fileSize, parts, i)
    requires requests == RequestedUpTo(fileSize, i)
    modifies file
    ensures file.content == AssembledAsWritten(fileSize, parts, i + 1)
    ensures progress' == ProgressAsWritten(fileSize, parts, i + 1)
    ensures requests' == RequestedUpTo(fileSize, i + 1)
  {
    var s := SegmentAt(i, fileSize);
    AsWrittenAdvance(fileSize, parts, i, file.content, progress, requests);
    var header, deltas := DownloadPart(file, s.start, s.end, parts[i]);
    requests' := requests + [header];
    DeltasSumToPlaced(if parts[i].RequestFailed? then [] else parts[i].chunks);
    var total := AddUp(deltas);
    progress' := progress + total;
  }

  /** Part i of the loop as written extends the file, the progress total and the requests by its own. */
  lemma AsWrittenAdvance(fileSize: nat, parts: seq<PartResponse>, i: nat, content: seq<byte>, progress: nat, requests: seq<string>)
    requires |parts| == WorkerCount && i < WorkerCount
    requires content == AssembledAsWritten(fileSize, parts, i)
    requires progress == ProgressAsWritten(fileSize, parts, i)
    requires requests == RequestedUpTo(fileSize, i)
    ensures var s := SegmentAt(i, fileSize);
      Overwrite(content, s.start, PartData(parts[i])) == AssembledAsWritten(fileSize, parts, i + 1) &&
      progress + |PartData(parts[i])| == ProgressAsWritten(fileSize, parts, i + 1) &&
      requests + [RangeHeader(s.start, s.end)] == RequestedUpTo(fileSize, i + 1)
  {
    AsWrittenPartStep(fileSize, parts, i);
  }

  /** The ranges parts 0..k-1 of the loop as written ask for. */
  function RequestedUpTo(fileSize: nat, k: nat): seq<string>
    requires k <= WorkerCount
  {
    if k == 0 then []
    else
      var s := SegmentAt(k - 1, fileSize);
      RequestedUpTo(fileSize, k - 1) + [RangeHeader(s.start, s.end)]
  }

  /** All eight parts of the loop as written ask for RequestedAsWritten. */
  lemma RequestedUpToAll(fileSize: nat)
    ensures RequestedUpTo(fileSize, WorkerCount) == RequestedAsWritten(fileSize)
  {
    RequestedUpToPrefix(fileSize, WorkerCount);
    assert RequestedAsWritten(fileSize)[..WorkerCount] == RequestedAsWritten(fileSize);
  }

  lemma {:induction false} RequestedUpToPrefix(fileSize: nat, k: nat)
    requires k <= WorkerCount
    ensures RequestedUpTo(fileSize, k) == RequestedAsWritten(fileSize)[..k]
  {
    if k == 0 {
      assert RequestedAsWritten(fileSize)[..0] == [];
    } else {
      RequestedUpToPrefix(fileSize, k - 1);
      AsWrittenStep(fileSize, k - 1);
    }
  }

  /** From 8 bytes on no part is empty, so skipping empty parts writes and reports what the loop as written does. */
  lemma {:induction false} PartsAgreeFromEightBytes(fileSize: nat, parts: seq<PartResponse>, k: nat)
    requires WorkerCount <= fileSize && |parts| == WorkerCount && k <= WorkerCount
    ensures Assembled(fileSize, parts, k) == AssembledAsWritten(fileSize, parts, k)
    ensures Progress(fileSize, parts, k) == ProgressAsWritten(fileSize, parts, k)
  {
    if k > 0 {
      PartsAgreeFromEightBytes(fileSize, parts, k - 1);
      NoEmptyPartFromEightBytes(k - 1, fileSize);
      PartStep(fileSize, parts, k - 1);
      AsWrittenPartStep(fileSize, parts, k - 1);
    }
  }

  /** What part i adds to the file and the progress total in the loop as written. */
  lemma AsWrittenPartStep(fileSize: nat, parts: seq<PartResponse>, i: nat)
    requires |parts| == WorkerCount && i < WorkerCount
    ensures AssembledAsWritten(fileSize, parts, i + 1) ==
      Overwrite(AssembledAsWritten(fileSize, parts, i), SegmentAt(i, fileSize).start, PartData(parts[i]))
    ensures ProgressAsWritten(fileSize, parts, i + 1) == ProgressAsWritten(fileSize, parts, i) + |PartData(parts[i])|
  {
  }

  lemma NoEmptyPartFromEightBytes(i: nat, fileSize: nat)
    requires WorkerCount <= fileSize && i < WorkerCount
    ensures SegmentAt(i, fileSize).start <= SegmentAt(i, fileSize).end
  {
    SegmentSizes(i, fileSize);
  }

  /** For an empty file every part is empty and starts at 0. */
  lemma EmptyFileParts(i: nat)
    requires i < WorkerCount
    ensures SegmentAt(i, 0) == Segment(0, -1)
  {
  }

  /**
   * With an unparseable Content-Length the size is 0 and the file is
   * created empty, yet every part of the loop as written runs from offset
   * 0: when only part 0 gets a body (a server that ignores the invalid
   * range), the file ends up holding that body and the progress its length,
   * whereas skipping the empty parts leaves the file empty and the progress
   * at 0.
   */
  lemma EmptyFileGrowsAsWritten(parts: seq<PartResponse>)
    requires |parts| == WorkerCount && forall i :: 1 <= i < WorkerCount ==> parts[i].RequestFailed?
    ensures AssembledAsWritten(0, parts, WorkerCount) == PartData(parts[0])
    ensures ProgressAsWritten(0, parts, WorkerCount) == |PartData(parts[0])|
    ensures Assembled(0, parts, WorkerCount) == [] && Progress(0, parts, WorkerCount) == 0
  {
    EmptyFileUpTo(parts, WorkerCount);
    EmptyFileSkipsAll(parts, WorkerCount);
  }

  /** Only part 0 got a response; every later request failed. */
  predicate OnlyFirstAnswered(parts: seq<PartResponse>)
    requires |parts| == WorkerCount
  {
    forall i :: 1 <= i < WorkerCount ==> parts[i].RequestFailed?
  }

  lemma {:induction false} EmptyFileUpTo(parts: seq<PartResponse>, k: nat)
    requires |parts| == WorkerCount && OnlyFirstAnswered(parts)
    requires 1 <= k <= WorkerCount
    ensures AssembledAsWritten(0, parts, k) == PartData(parts[0])
    ensures ProgressAsWritten(0, parts, k) == |PartData(parts[0])|
  {
    if k == 1 {
      EmptyFileFirstPart(parts);
    } else {
      EmptyFileUpTo(parts, k - 1);
      EmptyFileFailedPart(parts, k);
    }
  }

  /** Part 0 of an empty file writes its body from offset 0 of an empty file. */
  lemma EmptyFileFirstPart(parts: seq<PartResponse>)
    requires |parts| == WorkerCount
    ensures AssembledAsWritten(0, parts, 1) == PartData(parts[0])
    ensures ProgressAsWritten(0, parts, 1) == |PartData(parts[0])|
  {
    var d := PartData(parts[0]);
    assert Zeros(0) == [];
    assert Overwrite([], 0, d) == [][..0] + d + [];
  }

  /** A later part of an empty file whose request failed writes nothing and reports nothing. */
  lemma EmptyFileFailedPart(parts: seq<PartResponse>, k: nat)
    requires |parts| == WorkerCount && 1 < k <= WorkerCount && OnlyFirstAnswered(parts)
    ensures AssembledAsWritten(0, parts, k) == AssembledAsWritten(0, parts, k - 1)
    ensures ProgressAsWritten(0, parts, k) == ProgressAsWritten(0, parts, k - 1)
  {
    assert parts[k - 1].RequestFailed?;
  }

  /** Skipping empty parts, an empty file stays empty whatever the parts return. */
  lemma {:induction false} EmptyFileSkipsAll(parts: seq<PartResponse>, k: nat)
    requires |parts| == WorkerCount && k <= WorkerCount
    ensures Assembled(0, parts, k) == [] && Progress(0, parts, k) == 0
  {
    if k > 0 {
      EmptyFileSkipsAll(parts, k - 1);
      EmptyFileParts(k - 1);
      PartStep(0, parts, k - 1);
    }
  }

  /** The progress goroutine: `totalDownloaded += n` for each report. */
  method AddUp(deltas: seq<nat>) returns (total: nat)
    ensures total == Sum(deltas)
  {
    total := 0;
    var j := 0;
    while j < |deltas|
      invariant 0 <= j <= |deltas|
      invariant total == Sum(deltas[..j])
    {
      assert deltas[..j + 1][..j] == deltas[..j];
      total := total + deltas[j];
      j := j + 1;
    }
    assert deltas[..|deltas|] == deltas;
  }

  // ---------------------------------------------------------------------
  // What a server that honours every range produces
  // ---------------------------------------------------------------------

  /** Every non-empty part delivered exactly the bytes of its range of `source`. */
  predicate Honours(source: seq<byte>, parts: seq<PartResponse>)
    requires |parts| == WorkerCount
  {
    forall i :: 0 <= i < WorkerCount ==> PartHonoured(source, parts, i)
  }

  /** Part i, when not empty, delivered exactly the bytes of its range. */
  predicate PartHonoured(source: seq<byte>, parts: seq<PartResponse>, i: nat)
    requires |parts| == WorkerCount && i < WorkerCount
  {
    var s := SegmentAt(i, |source|);
    s.start <= s.end ==> s.end < |source| && PartData(parts[i]) == source[s.start..s.end + 1]
  }

  lemma OverwriteExtends(source: seq<byte>, b: nat, b': nat)
    requires b <= b' <= |source|
    ensures Overwrite(source[..b] + Zeros(|source| - b), b, source[b..b']) == source[..b'] + Zeros(|source| - b')
  {
    var l := Overwrite(source[..b] + Zeros(|source| - b), b, source[b..b']);
    var r := source[..b'] + Zeros(|source| - b');
    assert |l| == |r|;
    forall k | 0 <= k < |l|
      ensures l[k] == r[k]
    {
      if k < b {
        assert (source[..b] + Zeros(|source| - b))[k] == source[k];
      } else if k >= b' {
        assert (source[..b] + Zeros(|source| - b))[k] == 0;
      }
    }
  }

  /** What Honours says about one non-empty part, in terms of the boundaries. */
  lemma HonouredPart(source: seq<byte>, parts: seq<PartResponse>, i: nat)
    requires |parts| == WorkerCount && i < WorkerCount && Honours(source, parts)
    requires SegmentAt(i, |source|).start <= SegmentAt(i, |source|).end
    ensures Boundary(i + 1, |source|) <= |source|
    ensures PartData(parts[i]) == source[Boundary(i, |source|)..Boundary(i + 1, |source|)]
  {
    assert PartHonoured(source, parts, i);
    SegmentsContiguous(i, |source|);
  }

  lemma {:induction false} HonoursUpTo(source: seq<byte>, parts: seq<PartResponse>, k: nat)
    requires |parts| == WorkerCount && k <= WorkerCount && Honours(source, parts)
    ensures Assembled(|source|, parts, k) == source[..Boundary(k, |source|)] + Zeros(|source| - Boundary(k, |source|))
    ensures Progress(|source|, parts, k) == Boundary(k, |source|)
  {
    if k == 0 {
      assert source[..0] + Zeros(|source|) == Zeros(|source|);
    } else {
      HonoursUpTo(source, parts, k - 1);
      HonoursStep(source, parts, k - 1);
    }
  }

  /** One part of an honouring server extends the assembled prefix to the next boundary. */
  lemma HonoursStep(source: seq<byte>, parts: seq<PartResponse>, i: nat)
    requires |parts| == WorkerCount && i < WorkerCount && Honours(source, parts)
    requires var b := Boundary(i, |source|);
      Assembled(|source|, parts, i) == source[..b] + Zeros(|source| - b) && Progress(|source|, parts, i) == b
    ensures var b' := Boundary(i + 1, |source|);
      Assembled(|source|, parts, i + 1) == source[..b'] + Zeros(|source| - b') && Progress(|source|, parts, i + 1) == b'
  {
    var n := |source|;
    SegmentsContiguous(i, n);
    PartStep(n, parts, i);
    var s := SegmentAt(i, n);
    var b, b' := Boundary(i, n), Boundary(i + 1, n);
    if s.start <= s.end {
      HonouredPart(source, parts, i);
      var prev, data := Assembled(n, parts, i), PartData(parts[i]);
      assert Assembled(n, parts, i + 1) == Overwrite(prev, b, data);
      assert prev == source[..b] + Zeros(n - b) && data == source[b..b'];
      OverwriteExtends(source, b, b');
    } else {
      assert b == b';
    }
  }

  /**
   * When every part gets exactly its range, the file is the source and the
   * progress total is its size.
   */
  lemma HonestServerReassembles(source: seq<byte>, parts: seq<PartResponse>)
    requires |parts| == WorkerCount && Honours(source, parts)
    ensures Assembled(|source|, parts, WorkerCount) == source
    ensures Progress(|source|, parts, WorkerCount) == |source|
  {
    HonoursUpTo(source, parts, WorkerCount);
    assert source[..|source|] + Zeros(0) == source;
  }

  /** Whatever the parts do, the file keeps its preallocated size as long as none overruns its range. */
  lemma {:induction false} AssembledKeepsSize(fileSize: nat, parts: seq<PartResponse>, k: nat)
    requires |parts| == WorkerCount && k <= WorkerCount
    requires forall i :: 0 <= i < WorkerCount ==> SegmentAt(i, fileSize).start + |PartData(parts[i])| <= fileSize
    ensures |Assembled(fileSize, parts, k)| == fileSize
  {
    if k > 0 {
      AssembledKeepsSize(fileSize, parts, k - 1);
    }
  }

  // ---------------------------------------------------------------------
  // Download: strategy and retries
  // ---------------------------------------------------------------------

  datatype Outcome = Returned(ok: bool) | Fatal

  /**
   * The files after the given aria2c runs. Each run that leaves content at
   * the target path replaces what was there (aria2c runs with
   * --allow-overwrite=true); a run that leaves nothing changes nothing.
   */
  function FilesAfterAria2c(files: map<string, seq<byte>>, path: string, left: seq<Option<seq<byte>>>): map<string, seq<byte>> {
    if left == [] then files
    else
      var before := FilesAfterAria2c(files, path, left[..|left| - 1]);
      var last := left[|left| - 1];
      if last.Some? then before[path := last.value] else before
  }

  /** The directories after the given aria2c runs: savePath exists once a run has left a file in it. */
  function DirsAfterAria2c(dirs: set<string>, savePath: string, left: seq<Option<seq<byte>>>): set<string> {
    if exists j :: 0 <= j < |left| && left[j].Some? then dirs + {savePath} else dirs
  }

  /** aria2c writes only its target: every other path keeps its presence and content. */
  lemma {:induction false} Aria2cOnlyTouchesTarget(files: map<string, seq<byte>>, path: string,
                                                   left: seq<Option<seq<byte>>>, p: string)
    requires p != path
    ensures p in FilesAfterAria2c(files, path, left) <==> p in files
    ensures p in files ==> FilesAfterAria2c(files, path, left)[p] == files[p]
  {
    if left != [] {
      Aria2cOnlyTouchesTarget(files, path, left[..|left| - 1], p);
    }
  }

  /** The target holds what the last run that left something wrote there. */
  lemma {:induction false} Aria2cLastRunWins(files: map<string, seq<byte>>, path: string,
                                             left: seq<Option<seq<byte>>>, j: nat)
    requires j < |left| && left[j].Some?
    requires forall k :: j < k < |left| ==> left[k].None?
    ensures path in FilesAfterAria2c(files, path, left)
    ensures FilesAfterAria2c(files, path, left)[path] == left[j].value
  {
    if j < |left| - 1 {
      Aria2cLastRunWins(files, path, left[..|left| - 1], j);
    }
  }

  /** When no run leaves anything, the disk is as before. */
  lemma {:induction false} Aria2cNothingLeft(files: map<string, seq<byte>>, path: string, left: seq<Option<seq<byte>>>)
    requires forall k :: 0 <= k < |left| ==> left[k].None?
    ensures FilesAfterAria2c(files, path, left) == files
  {
    if left != [] {
      Aria2cNothingLeft(files, path, left[..|left| - 1]);
    }
  }

  /**
   * Download. checkAria2c runs first in every mode and a missing aria2c is
   * fatal (log.Fatalf), so the built-in downloader runs only when it is
   * selected and aria2c is present; it is tried once. Otherwise aria2c is
   * run up to five times and exhausting them is fatal. For each run, `runs`
   * holds whether it succeeds and `left` what it leaves at
   * savePath/fileName (a partial or complete file, or nothing).
   */
  method Download(disk: Disk, downloader: string, aria2cPresent: bool, savePath: string, fileName: string,
                  head: HeadResponse, faults: FsFaults, parts: seq<PartResponse>, runs: seq<bool>,
                  left: seq<Option<seq<byte>>>)
    returns (outcome: Outcome, attempts: nat)
    requires |parts| == WorkerCount && |runs| == MaxRetries && |left| == MaxRetries
    modifies disk
    ensures !aria2cPresent ==> outcome == Fatal && attempts == 0 && disk.dirs == old(disk.dirs) && disk.files == old(disk.files)
    ensures aria2cPresent && downloader == "built-in" ==>
      attempts == 0 && outcome == Returned(ReachesParts(head, faults)) &&
      disk.dirs == DirsAfter(old(disk.dirs), savePath, head, faults) &&
      disk.files == FilesAfter(old(disk.files), savePath, fileName, head, faults, parts)
    ensures aria2cPresent && downloader != "built-in" ==>
      attempts <= MaxRetries &&
      (forall j :: 0 <= j < attempts - 1 ==> !runs[j]) &&
      (outcome == Returned(true) <==> exists j :: 0 <= j < MaxRetries && runs[j]) &&
      (outcome.Returned? ==> attempts >= 1 && runs[attempts - 1]) &&
      (outcome == Fatal ==> attempts == MaxRetries) &&
      disk.dirs == DirsAfterAria2c(old(disk.dirs), savePath, left[..attempts]) &&
      disk.files == FilesAfterAria2c(old(disk.files), savePath + "/" + fileName, left[..attempts])
  {
    attempts := 0;
    if !aria2cPresent {
      return Fatal, attempts;
    }
    if downloader == "built-in" {
      var err, _, _ := SimpleDownload(disk, savePath, fileName, head, faults, parts);
      return Returned(err.None?), attempts;
    }
    var path := savePath + "/" + fileName;
    assert left[..0] == [];
    while attempts < MaxRetries
      invariant 0 <= attempts <= MaxRetries
      invariant forall j :: 0 <= j < attempts ==> !runs[j]
      invariant disk.dirs == DirsAfterAria2c(old(disk.dirs), savePath, left[..attempts])
      invariant disk.files == FilesAfterAria2c(old(disk.files), path, left[..attempts])
    {
      Aria2cRunStep(old(disk.dirs), savePath, left, attempts);
      if left[attempts].Some? {
        disk.dirs := disk.dirs + {savePath};
        disk.files := disk.files[path := left[attempts].value];
      }
      if runs[attempts] {
        attempts := attempts + 1;
        return Returned(true), attempts;
      }
      attempts := attempts + 1;
    }
    outcome := Fatal;
  }

  /** One more aria2c run: its slice extends by one, and the directory appears once a run has left a file. */
  lemma Aria2cRunStep(dirs: set<string>, savePath: string, left: seq<Option<seq<byte>>>, k: nat)
    requires k < |left|
    ensures left[..k + 1][..k] == left[..k] && left[..k + 1][k] == left[k]
    ensures DirsAfterAria2c(dirs, savePath, left[..k + 1]) ==
      if left[k].Some? then dirs + {savePath} else DirsAfterAria2c(dirs, savePath, left[..k])
  {
    if left[k].Some? {
      assert left[..k + 1][k].Some?;
    } else {
      forall j | 0 <= j < k + 1 && left[..k + 1][j].Some?
        ensures j < k && left[..k][j].Some?
      {
      }
    }
  }
}
