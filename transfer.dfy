/**
 * The behaviour of `AnnaDownloader.download_direct`: one HEAD request that fixes the
 * extension, the file name and the resume offset, then up to `resume_attempts` GET
 * attempts that stream into `<incomplete>/<final name>.part` and finally rename it into
 * the output directory.
 *
 * The two directories are maps from file name to contents. The network is the HEAD
 * answer plus a script of GET answers: the k-th GET request sent receives `gets[k]`,
 * and a request beyond the script fails. The class in module Downloader runs the same
 * steps with loops; the functions here are its specification.
 */
module Transfer {
  import opened Wrappers
  import opened Text
  import opened Naming
  import Utf8

  type byte = Utf8.byte
  type Bytes = seq<byte>
  type Dir = map<string, Bytes>

  /** A `content-length` header: missing (read as 0), an integer, or text `int()` rejects. */
  datatype Length = NoLength | Length(n: int) | BadLength

  function LengthValue(l: Length): int {
    if l.Length? then l.n else 0
  }

  /** The answer to the HEAD request. */
  datatype HeadReply =
    | HeadFailed
    | HeadOk(contentLength: Length, acceptRanges: Option<string>, contentType: string,
             disposition: Option<string>)

  /**
   * The answer to a GET request: a transport failure, or a status, a length header and
   * the body as the chunks the stream yields; `broken` means the stream raises after them.
   */
  datatype GetReply =
    | GetFailed
    | GetOk(status: nat, contentLength: Length, chunks: seq<Bytes>, broken: bool)

  /** A GET request sent, with the offset of its `Range: bytes=<n>-` header if any. */
  datatype GetRequest = GetRequest(url: string, rangeFrom: Option<nat>)

  function Reply(gets: seq<GetReply>, k: nat): GetReply {
    if k < |gets| then gets[k] else GetFailed
  }

  /** The state the attempt loop carries: offset, total size, partial files, requests, waits. */
  datatype Xfer = Xfer(downloaded: nat, total: int, parts: Dir, sent: seq<GetRequest>, waits: seq<nat>)

  /** How one attempt ends. */
  datatype AttemptEnd =
    | Finished(x: Xfer)   // the stream ended; the temp file is complete
    | Aborted(x: Xfer)    // `download_direct` returns None at once
    | Raised(x: Xfer)     // a RequestException or IOError, caught by the attempt loop

  /** The result of the whole call. */
  datatype DirectResult = DirectResult(
    path: Option<string>, files: Dir, parts: Dir, sent: seq<GetRequest>, waits: seq<nat>)

  const RetryWait := 2
  const SniffLength := 500

  // ---------------------------------------------------------------- sniffing

  /** The first 500 bytes of a chunk, decoded (dropping invalid bytes) and lower-cased, hold an HTML marker. */
  predicate LooksLikeHtml(chunk: Bytes) {
    var t := Lower(Utf8.DecodeIgnore(chunk[..if |chunk| < SniffLength then |chunk| else SniffLength]));
    Contains(t, "<!doctype html") || Contains(t, "<html") || Contains(t, "<head>")
  }

  /** A byte that is not UTF-8 inside a marker is dropped, so `<ht\x80ml>` still counts as HTML. */
  lemma SniffSkipsInvalidBytes()
    ensures LooksLikeHtml([0x3C, 0x68, 0x74, 0x80, 0x6D, 0x6C, 0x3E])
  {
    var tail: Bytes := [0x6D, 0x6C, 0x3E];
    var bs: Bytes := [0x3C, 0x68, 0x74] + ([0x80] + tail);
    assert bs == [0x3C, 0x68, 0x74, 0x80, 0x6D, 0x6C, 0x3E];
    Utf8.DecodeAscii(tail);
    assert Utf8.DecodeIgnore(tail) == "ml>";
    Utf8.DecodeDropsInvalid(0x80, tail);
    Utf8.DecodeAsciiPrefix([0x3C, 0x68, 0x74], [0x80] + tail);
    assert Utf8.DecodeIgnore(bs) == "<html>";
    assert bs[..|bs|] == bs;
    var t := Lower(Utf8.DecodeIgnore(bs));
    assert t == "<html>";
    assert OccursAt(t, "<html", 0);
  }

  // ---------------------------------------------------------------- one stream

  /** How the chunk loop ends: the HTML sniff fired, or the data written and the new offset. */
  datatype StreamEnd = Sniffed | Streamed(data: Bytes, downloaded: nat)

  /** The non-empty chunks, concatenated. */
  function Concat(chunks: seq<Bytes>): Bytes {
    if chunks == [] then [] else chunks[0] + Concat(chunks[1..])
  }

  /**
   * The chunk loop from chunk `i` on: empty chunks are skipped; the first written chunk
   * is sniffed when the offset is still 0; every written chunk is appended and counted.
   */
  function StreamFrom(chunks: seq<Bytes>, i: nat, data: Bytes, downloaded: nat, count: nat): (r: StreamEnd)
    requires i <= |chunks|
    decreases |chunks| - i
  {
    if i == |chunks| then Streamed(data, downloaded)
    else if chunks[i] == [] then StreamFrom(chunks, i + 1, data, downloaded, count)
    else if count == 0 && downloaded == 0 && LooksLikeHtml(chunks[i]) then Sniffed
    else StreamFrom(chunks, i + 1, data + chunks[i], downloaded + |chunks[i]|, count + 1)
  }

  /** Unless sniffed, the loop appends every chunk and grows the offset by their lengths. */
  lemma {:induction false} StreamAppends(chunks: seq<Bytes>, i: nat, data: Bytes, downloaded: nat, count: nat)
    requires i <= |chunks|
    ensures StreamFrom(chunks, i, data, downloaded, count).Streamed? ==>
      StreamFrom(chunks, i, data, downloaded, count)
        == Streamed(data + Concat(chunks[i..]), downloaded + |Concat(chunks[i..])|)
    decreases |chunks| - i
  {
    if i < |chunks| {
      StreamAppends(chunks, i + 1, data + chunks[i], downloaded + |chunks[i]|, count + 1);
      StreamAppends(chunks, i + 1, data, downloaded, count);
      assert chunks[i..][1..] == chunks[i + 1..];
      assert data + chunks[i] + Concat(chunks[i + 1..]) == data + Concat(chunks[i..]);
    }
  }

  /** With a positive offset the sniff never fires. */
  lemma {:induction false} StreamNoSniffWhenResuming(chunks: seq<Bytes>, i: nat, data: Bytes, downloaded: nat, count: nat)
    requires i <= |chunks| && downloaded > 0
    ensures StreamFrom(chunks, i, data, downloaded, count).Streamed?
    decreases |chunks| - i
  {
    if i < |chunks| {
      StreamNoSniffWhenResuming(chunks, i + 1, data + chunks[i], downloaded + |chunks[i]|, count + 1);
      StreamNoSniffWhenResuming(chunks, i + 1, data, downloaded, count);
    }
  }

  // ---------------------------------------------------------------- one attempt

  predicate RaisesForStatus(status: nat) {
    400 <= status < 600
  }

  /** The body of the attempt loop, for the temp file `temp`: the request and the status check. */
  function Attempt(url: string, gets: seq<GetReply>, temp: string, supportsResume: bool, x: Xfer): (r: AttemptEnd)
    ensures r.Finished? ==> temp in r.x.parts
    ensures |x.sent| < |r.x.sent| <= |x.sent| + 2 && r.x.sent[..|x.sent|] == x.sent
    ensures r.x.waits == x.waits
  {
    var range := if x.downloaded > 0 && supportsResume then Some(x.downloaded) else None;
    var first := Reply(gets, |x.sent|);
    var x1 := x.(sent := x.sent + [GetRequest(url, range)]);
    if first.GetFailed? then Raised(x1)
    else
      var refused := x.downloaded > 0 && first.status != 200 && first.status != 206;
      var reply := if refused then Reply(gets, |x1.sent|) else first;
      var x2 := if refused then x1.(downloaded := 0, parts := x1.parts - {temp}, sent := x1.sent + [GetRequest(url, None)]) else x1;
      if reply.GetFailed? || RaisesForStatus(reply.status) then Raised(x2)
      else Receive(reply, temp, x2)
  }

  /**
   * The rest of an attempt once the status passed: the length header, then the chunk loop
   * into the temp file (appending when the offset is positive, from scratch otherwise).
   */
  function Receive(reply: GetReply, temp: string, x: Xfer): (r: AttemptEnd)
    requires reply.GetOk?
    ensures r.Finished? ==> temp in r.x.parts
    ensures r.x.sent == x.sent && r.x.waits == x.waits
  {
    if x.total == 0 && reply.contentLength.BadLength? then Aborted(x)
    else
      var total := if x.total == 0 then LengthValue(reply.contentLength) else x.total;
      var start := if x.downloaded > 0 && temp in x.parts then x.parts[temp] else [];
      match StreamFrom(reply.chunks, 0, start, x.downloaded, 0)
      case Sniffed => Aborted(x.(total := total, parts := x.parts - {temp}))
      case Streamed(data, d) =>
        var x3 := x.(total := total, downloaded := d, parts := x.parts[temp := data]);
        if reply.broken then Raised(x3) else Finished(x3)
  }

  /** The offset after a caught exception: the temp file's size when it exists. */
  function AfterFailure(temp: string, x: Xfer): Xfer {
    x.(downloaded := if temp in x.parts then |x.parts[temp]| else x.downloaded, waits := x.waits + [RetryWait])
  }

  /** The attempt loop from attempt `a` of `n`; the output directory changes only by the rename. */
  function Attempts(url: string, gets: seq<GetReply>, temp: string, final: string, supportsResume: bool,
                    files: Dir, x: Xfer, a: nat, n: nat): (r: DirectResult)
    decreases n - a
  {
    if a >= n then DirectResult(None, files, x.parts, x.sent, x.waits)
    else
      match Attempt(url, gets, temp, supportsResume, x)
      case Finished(y) =>
        DirectResult(Some(final), files[final := y.parts[temp]], y.parts - {temp}, y.sent, y.waits)
      case Aborted(y) => DirectResult(None, files, y.parts, y.sent, y.waits)
      case Raised(y) =>
        if a < n - 1 then Attempts(url, gets, temp, final, supportsResume, files, AfterFailure(temp, y), a + 1, n)
        else DirectResult(None, files, y.parts, y.sent, y.waits)
  }

  /** The name the file is saved under, before deduplication. */
  function TargetName(title: Option<string>, urlPath: string, unquote: string -> string, h: HeadReply): string
    requires h.HeadOk?
  {
    DeriveFilename(title, urlPath, FileExtension(Lower(h.contentType), urlPath, h.disposition, unquote))
  }

  /** The HEAD answer ends the call before any file is touched. */
  predicate HeadRejects(h: HeadReply) {
    h.HeadFailed? || h.contentLength.BadLength? || Contains(Lower(h.contentType), "text/html")
  }

  function TempName(final: string): string {
    final + ".part"
  }

  /** The name the file is saved under: the derived name, made unique in the output directory. */
  function FinalName(urlPath: string, unquote: string -> string, title: Option<string>, head: HeadReply,
                     files: Dir): string
    requires head.HeadOk?
  {
    UniqueName(TargetName(title, urlPath, unquote, head), files.Keys)
  }

  /** The offset found before the first attempt: the part file's size, when resuming is supported. */
  function StartOffset(head: HeadReply, temp: string, parts: Dir): nat
    requires head.HeadOk?
  {
    if temp in parts && head.acceptRanges == Some("bytes") then |parts[temp]| else 0
  }

  /** The Range header an attempt sends: from the part file's size, when it is positive and resuming is supported. */
  function ResumeRange(supportsResume: bool, temp: string, parts: Dir): Option<nat> {
    if supportsResume && temp in parts && |parts[temp]| > 0 then Some(|parts[temp]|) else None
  }

  /** The offset is the part file's size whenever it is positive, and always when resuming is supported. */
  predicate OffsetMatchesPart(x: Xfer, temp: string, supportsResume: bool) {
    && (x.downloaded > 0 ==> temp in x.parts && x.downloaded == |x.parts[temp]|)
    && (supportsResume && temp in x.parts ==> x.downloaded == |x.parts[temp]|)
  }

  /**
   * `download_direct(url, title, resume_attempts)`, where `urlPath` is
   * `unquote(urlparse(url).path)` and `unquote` is `urllib.parse.unquote`, against the output directory `files` and the
   * incomplete directory `parts`.
   */
  function Direct(url: string, urlPath: string, unquote: string -> string, title: Option<string>, head: HeadReply,
                  gets: seq<GetReply>, n: nat, files: Dir, parts: Dir): DirectResult
  {
    if HeadRejects(head) then DirectResult(None, files, parts, [], [])
    else
      var final := FinalName(urlPath, unquote, title, head, files);
      var temp := TempName(final);
      Attempts(url, gets, temp, final, head.acceptRanges == Some("bytes"), files,
               Xfer(StartOffset(head, temp, parts), LengthValue(head.contentLength), parts, [], []), 0, n)
  }

  // ---------------------------------------------------------------- properties

  /** An HTML content type (or a failed HEAD) returns None and touches nothing. */
  lemma DirectHeadRejects(url: string, urlPath: string, unquote: string -> string, title: Option<string>, head: HeadReply,
                          gets: seq<GetReply>, n: nat, files: Dir, parts: Dir)
    requires HeadRejects(head)
    ensures Direct(url, urlPath, unquote, title, head, gets, n, files, parts) == DirectResult(None, files, parts, [], [])
  {
  }

  /** Only the temp file changes in the incomplete directory during the attempts. */
  lemma {:induction false} AttemptsTouchOnlyTemp(url: string, gets: seq<GetReply>, temp: string, final: string,
                                                 s: bool, files: Dir, x: Xfer, a: nat, n: nat)
    ensures var r := Attempts(url, gets, temp, final, s, files, x, a, n);
      r.parts - {temp} == x.parts - {temp}
    ensures var r := Attempts(url, gets, temp, final, s, files, x, a, n);
      r.path.None? ==> r.files == files
    ensures var r := Attempts(url, gets, temp, final, s, files, x, a, n);
      r.path.Some? ==> (r.path == Some(final) && temp !in r.parts
        && final in r.files && r.files - {final} == files - {final})
    decreases n - a
  {
    if a < n {
      var e := Attempt(url, gets, temp, s, x);
      assert e.x.parts - {temp} == x.parts - {temp};
      if e.Raised? && a < n - 1 {
        AttemptsTouchOnlyTemp(url, gets, temp, final, s, files, AfterFailure(temp, e.x), a + 1, n);
      }
    }
  }

  /**
   * The output directory gains at most one file, under a name it did not hold before,
   * and nothing else in either directory changes except the temp file.
   */
  lemma DirectChangesOnlyTarget(url: string, urlPath: string, unquote: string -> string, title: Option<string>, head: HeadReply,
                                gets: seq<GetReply>, n: nat, files: Dir, parts: Dir)
    ensures var r := Direct(url, urlPath, unquote, title, head, gets, n, files, parts);
      && (r.path.None? ==> r.files == files)
      && (r.path.Some? ==> (r.path.value !in files && r.path.value in r.files
            && r.files - {r.path.value} == files
            && r.parts == parts - {TempName(r.path.value)}))
  {
    if !HeadRejects(head) {
      var final := FinalName(urlPath, unquote, title, head, files);
      var temp := TempName(final);
      var supportsResume := head.acceptRanges == Some("bytes");
      var x := Xfer(StartOffset(head, temp, parts), LengthValue(head.contentLength), parts, [], []);
      AttemptsTouchOnlyTemp(url, gets, temp, final, supportsResume, files, x, 0, n);
      var r := Attempts(url, gets, temp, final, supportsResume, files, x, 0, n);
      assert Direct(url, urlPath, unquote, title, head, gets, n, files, parts) == r;
      if r.path.Some? {
        assert final !in files && files - {final} == files;
        assert r.files - {final} == files;
        assert r.parts == r.parts - {temp};
        assert r.parts == parts - {temp};
      }
    }
  }

  /** A Range header is sent only with resume support and a positive offset. */
  predicate RangesSound(sent: seq<GetRequest>, supportsResume: bool) {
    forall i :: 0 <= i < |sent| && sent[i].rangeFrom.Some? ==> supportsResume && sent[i].rangeFrom.value > 0
  }

  /**
   * One attempt keeps the Range headers sound. Its first GET carries `Range: bytes=<offset>-`
   * exactly when the offset is positive and resuming is supported. A second GET is sent
   * exactly when a resume is answered with a status other than 200/206, and it has no Range.
   */
  lemma AttemptRangesSound(url: string, gets: seq<GetReply>, temp: string, s: bool, x: Xfer)
    requires RangesSound(x.sent, s)
    ensures RangesSound(Attempt(url, gets, temp, s, x).x.sent, s)
    ensures var r := Attempt(url, gets, temp, s, x).x.sent;
      r[|x.sent|] == GetRequest(url, if x.downloaded > 0 && s then Some(x.downloaded) else None)
    ensures var r := Attempt(url, gets, temp, s, x).x.sent;
      var first := Reply(gets, |x.sent|);
      (|r| == |x.sent| + 2 <==> x.downloaded > 0 && first.GetOk? && first.status != 200 && first.status != 206)
      && (|r| == |x.sent| + 2 ==> r[|x.sent| + 1] == GetRequest(url, None))
  {
    var r := Attempt(url, gets, temp, s, x).x.sent;
    forall i | 0 <= i < |r| && r[i].rangeFrom.Some? ensures s && r[i].rangeFrom.value > 0 {
      if i < |x.sent| {
        assert r[i] == r[..|x.sent|][i];
      }
    }
  }

  lemma {:induction false} AttemptsRangesSound(url: string, gets: seq<GetReply>, temp: string, final: string,
                                               s: bool, files: Dir, x: Xfer, a: nat, n: nat)
    requires RangesSound(x.sent, s)
    ensures RangesSound(Attempts(url, gets, temp, final, s, files, x, a, n).sent, s)
    ensures |Attempts(url, gets, temp, final, s, files, x, a, n).sent| <= |x.sent| + 2 * (if a < n then n - a else 0)
    ensures a < n && OffsetMatchesPart(x, temp, s) ==>
      var r := Attempts(url, gets, temp, final, s, files, x, a, n).sent;
      |x.sent| < |r| && r[|x.sent|] == GetRequest(url, ResumeRange(s, temp, x.parts))
    decreases n - a
  {
    if a < n {
      AttemptRangesSound(url, gets, temp, s, x);
      var e := Attempt(url, gets, temp, s, x);
      if e.Raised? && a < n - 1 {
        AttemptsRangesSound(url, gets, temp, final, s, files, AfterFailure(temp, e.x), a + 1, n);
        AttemptsExtendSent(url, gets, temp, final, s, files, AfterFailure(temp, e.x), a + 1, n);
        var r := Attempts(url, gets, temp, final, s, files, AfterFailure(temp, e.x), a + 1, n).sent;
        assert |x.sent| < |e.x.sent|;
        assert r[|x.sent|] == r[..|e.x.sent|][|x.sent|];
      }
    }
  }

  /** The requests of the loop extend the ones sent before it. */
  lemma {:induction false} AttemptsExtendSent(url: string, gets: seq<GetReply>, temp: string, final: string,
                                              s: bool, files: Dir, x: Xfer, a: nat, n: nat)
    ensures var r := Attempts(url, gets, temp, final, s, files, x, a, n);
      |x.sent| <= |r.sent| && r.sent[..|x.sent|] == x.sent
    decreases n - a
  {
    if a < n {
      var e := Attempt(url, gets, temp, s, x);
      if e.Raised? && a < n - 1 {
        var y := AfterFailure(temp, e.x);
        AttemptsExtendSent(url, gets, temp, final, s, files, y, a + 1, n);
        var r := Attempts(url, gets, temp, final, s, files, y, a + 1, n);
        assert r.sent[..|x.sent|] == r.sent[..|y.sent|][..|x.sent|];
      }
    }
  }

  /** After a caught exception the offset is again the part file's size, so every retry resumes from it. */
  lemma RetryKeepsOffset(url: string, gets: seq<GetReply>, temp: string, s: bool, x: Xfer)
    requires OffsetMatchesPart(x, temp, s) && Attempt(url, gets, temp, s, x).Raised?
    ensures OffsetMatchesPart(AfterFailure(temp, Attempt(url, gets, temp, s, x).x), temp, s)
  {
  }

  /**
   * Every Range header carries a positive offset and is sent only when the HEAD answer
   * said `accept-ranges: bytes`; and there are at most two GET requests per attempt.
   */
  lemma DirectRanges(url: string, urlPath: string, unquote: string -> string, title: Option<string>, head: HeadReply,
                     gets: seq<GetReply>, n: nat, files: Dir, parts: Dir)
    ensures var r := Direct(url, urlPath, unquote, title, head, gets, n, files, parts);
      RangesSound(r.sent, head.HeadOk? && head.acceptRanges == Some("bytes")) && |r.sent| <= 2 * n
    ensures !HeadRejects(head) && n > 0 ==>
      var r := Direct(url, urlPath, unquote, title, head, gets, n, files, parts);
      var temp := TempName(FinalName(urlPath, unquote, title, head, files));
      |r.sent| > 0 && r.sent[0] == GetRequest(url, ResumeRange(head.acceptRanges == Some("bytes"), temp, parts))
  {
    if !HeadRejects(head) {
      var final := FinalName(urlPath, unquote, title, head, files);
      var temp := TempName(final);
      var supportsResume := head.acceptRanges == Some("bytes");
      var x := Xfer(StartOffset(head, temp, parts), LengthValue(head.contentLength), parts, [], []);
      assert OffsetMatchesPart(x, temp, supportsResume);
      AttemptsRangesSound(url, gets, temp, final, supportsResume, files, x, 0, n);
    }
  }

  /** The loop sleeps 2 seconds before each retry, and never after the last attempt. */
  lemma {:induction false} AttemptsWaits(url: string, gets: seq<GetReply>, temp: string, final: string,
                                         s: bool, files: Dir, x: Xfer, a: nat, n: nat)
    ensures var r := Attempts(url, gets, temp, final, s, files, x, a, n);
      |x.waits| <= |r.waits| && r.waits[..|x.waits|] == x.waits
      && (forall i :: |x.waits| <= i < |r.waits| ==> r.waits[i] == RetryWait)
      && |r.waits| - |x.waits| < (if a < n then n - a else 1)
    decreases n - a
  {
    if a < n {
      var e := Attempt(url, gets, temp, s, x);
      if e.Raised? && a < n - 1 {
        var y := AfterFailure(temp, e.x);
        AttemptsWaits(url, gets, temp, final, s, files, y, a + 1, n);
        var r := Attempts(url, gets, temp, final, s, files, y, a + 1, n);
        assert r.waits[..|x.waits|] == r.waits[..|y.waits|][..|x.waits|];
      }
    }
  }

  /**
   * A fresh start (offset 0) whose first non-empty chunk looks like HTML ends the whole
   * call: the temp file is removed and nothing is saved.
   */
  lemma AttemptSniffs(url: string, gets: seq<GetReply>, temp: string, s: bool, x: Xfer, rest: seq<Bytes>,
                      status: nat, len: Length, broken: bool, chunk: Bytes)
    requires x.downloaded == 0 && Reply(gets, |x.sent|) == GetOk(status, len, [chunk] + rest, broken)
    requires !RaisesForStatus(status) && (x.total != 0 || !len.BadLength?)
    requires chunk != [] && LooksLikeHtml(chunk)
    ensures var r := Attempt(url, gets, temp, s, x);
      r.Aborted? && temp !in r.x.parts && r.x.parts == x.parts - {temp}
  {
    assert StreamFrom([chunk] + rest, 0, [], 0, 0) == Sniffed;
  }

  /**
   * A resume the server refuses (status other than 200/206) deletes the temp file and
   * sends a second request without a Range header; the file is then written from scratch.
   */
  lemma AttemptRefusedResume(url: string, gets: seq<GetReply>, temp: string, x: Xfer, status: nat,
                             len: Length, chunks: seq<Bytes>, broken: bool, len2: Length, chunks2: seq<Bytes>)
    requires x.downloaded > 0 && Reply(gets, |x.sent|) == GetOk(status, len, chunks, broken)
    requires status != 200 && status != 206
    requires Reply(gets, |x.sent| + 1) == GetOk(200, len2, chunks2, false)
    requires x.total != 0 && forall i :: 0 <= i < |chunks2| ==> !LooksLikeHtml(chunks2[i])
    ensures var r := Attempt(url, gets, temp, true, x);
      r.x.sent == x.sent + [GetRequest(url, Some(x.downloaded)), GetRequest(url, None)]
      && r.Finished? && r.x.parts == x.parts[temp := Concat(chunks2)]
      && r.x.downloaded == |Concat(chunks2)|
  {
    StreamAppends(chunks2, 0, [], 0, 0);
    StreamNeverSniffs(chunks2, 0, [], 0, 0);
    assert chunks2[0..] == chunks2;
    assert [] + Concat(chunks2) == Concat(chunks2);
    assert (x.parts - {temp})[temp := Concat(chunks2)] == x.parts[temp := Concat(chunks2)];
  }

  /** A stream none of whose chunks looks like HTML is never sniffed. */
  lemma {:induction false} StreamNeverSniffs(chunks: seq<Bytes>, i: nat, data: Bytes, downloaded: nat, count: nat)
    requires i <= |chunks| && forall j :: i <= j < |chunks| ==> !LooksLikeHtml(chunks[j])
    ensures StreamFrom(chunks, i, data, downloaded, count).Streamed?
    decreases |chunks| - i
  {
    if i < |chunks| {
      StreamNeverSniffs(chunks, i + 1, data + chunks[i], downloaded + |chunks[i]|, count + 1);
      StreamNeverSniffs(chunks, i + 1, data, downloaded, count);
    }
  }

  /**
   * A positive offset selects append mode for a 206 and, as written, for a 200 too: a
   * server that ignores the Range header and answers 200 with the whole file has it
   * appended to the part already on disk.
   */
  lemma AttemptResumeAppends(url: string, gets: seq<GetReply>, temp: string, s: bool, x: Xfer,
                             status: nat, len: Length, chunks: seq<Bytes>)
    requires x.downloaded > 0 && temp in x.parts && x.total != 0 && (status == 200 || status == 206)
    requires Reply(gets, |x.sent|) == GetOk(status, len, chunks, false)
    ensures var r := Attempt(url, gets, temp, s, x);
      r.Finished? && r.x.parts == x.parts[temp := x.parts[temp] + Concat(chunks)]
      && r.x.sent == x.sent + [GetRequest(url, if s then Some(x.downloaded) else None)]
  {
    StreamNoSniffWhenResuming(chunks, 0, x.parts[temp], x.downloaded, 0);
    StreamAppends(chunks, 0, x.parts[temp], x.downloaded, 0);
    assert chunks[0..] == chunks;
  }

  /**
   * As written, after a broken stream the offset becomes the temp file's size even
   * without resume support: the retry then asks for the whole file (no Range header)
   * and appends it to the partial data.
   */
  lemma RetryWithoutResumeAppends(url: string, gets: seq<GetReply>, temp: string, final: string,
                                  files: Dir, x: Xfer, partial: seq<Bytes>, whole: seq<Bytes>, n: nat)
    requires n >= 2 && x.downloaded == 0 && x.total != 0 && x.waits == []
    requires Reply(gets, |x.sent|) == GetOk(200, NoLength, partial, true)
    requires Reply(gets, |x.sent| + 1) == GetOk(200, NoLength, whole, false)
    requires Concat(partial) != [] && forall i :: 0 <= i < |partial| ==> !LooksLikeHtml(partial[i])
    ensures var r := Attempts(url, gets, temp, final, false, files, x, 0, n);
      r.path == Some(final) && r.files == files[final := Concat(partial) + Concat(whole)]
      && r.sent == x.sent + [GetRequest(url, None), GetRequest(url, None)]
  {
    StreamNeverSniffs(partial, 0, [], 0, 0);
    StreamAppends(partial, 0, [], 0, 0);
    assert partial[0..] == partial;
    assert [] + Concat(partial) == Concat(partial);
    var e := Attempt(url, gets, temp, false, x);
    assert e.Raised? && e.x.parts == x.parts[temp := Concat(partial)];
    var y := AfterFailure(temp, e.x);
    assert y.downloaded == |Concat(partial)| > 0;
    AttemptResumeAppends(url, gets, temp, false, y, 200, NoLength, whole);
  }

  // ---------------------------------------------------------------- what is saved

  /** `b` is a suffix of `a`. */
  predicate EndsWithBytes(a: Bytes, b: Bytes) {
    |b| <= |a| && a[|a| - |b|..] == b
  }

  /**
   * A finished attempt leaves in the temp file the whole body of its last GET answer,
   * after the part data it resumed from when that answer was to a Range request.
   */
  lemma AttemptSaves(url: string, gets: seq<GetReply>, temp: string, s: bool, x: Xfer)
    ensures var r := Attempt(url, gets, temp, s, x);
      r.Finished? ==>
        var last := Reply(gets, |r.x.sent| - 1);
        last.GetOk? && temp in r.x.parts
        && r.x.parts[temp]
           == (if |r.x.sent| == |x.sent| + 1 && x.downloaded > 0 && temp in x.parts then x.parts[temp] else [])
              + Concat(last.chunks)
  {
    var r := Attempt(url, gets, temp, s, x);
    if r.Finished? {
      var first := Reply(gets, |x.sent|);
      var refused := x.downloaded > 0 && first.status != 200 && first.status != 206;
      var reply := if refused then Reply(gets, |x.sent| + 1) else first;
      var y := if refused then x.(downloaded := 0, parts := x.parts - {temp}) else x;
      var start := if y.downloaded > 0 && temp in y.parts then y.parts[temp] else [];
      StreamAppends(reply.chunks, 0, start, y.downloaded, 0);
      assert reply.chunks[0..] == reply.chunks;
    }
  }

  /** A saved file ends with the whole body of the last GET answer. */
  lemma {:induction false} AttemptsSaveLastBody(url: string, gets: seq<GetReply>, temp: string, final: string,
                                                s: bool, files: Dir, x: Xfer, a: nat, n: nat)
    ensures var r := Attempts(url, gets, temp, final, s, files, x, a, n);
      r.path.Some? ==>
        |r.sent| > 0 && Reply(gets, |r.sent| - 1).GetOk? && r.path == Some(final) && final in r.files
        && EndsWithBytes(r.files[final], Concat(Reply(gets, |r.sent| - 1).chunks))
    decreases n - a
  {
    if a < n {
      var e := Attempt(url, gets, temp, s, x);
      AttemptSaves(url, gets, temp, s, x);
      if e.Raised? && a < n - 1 {
        AttemptsSaveLastBody(url, gets, temp, final, s, files, AfterFailure(temp, e.x), a + 1, n);
      }
    }
  }

  /** `download_direct` saves a file ending with the whole body of the last GET answer. */
  lemma DirectKeepsLastBody(url: string, urlPath: string, unquote: string -> string, title: Option<string>,
                            head: HeadReply, gets: seq<GetReply>, n: nat, files: Dir, parts: Dir)
    ensures var r := Direct(url, urlPath, unquote, title, head, gets, n, files, parts);
      r.path.Some? ==>
        |r.sent| > 0 && Reply(gets, |r.sent| - 1).GetOk? && r.path.value in r.files
        && EndsWithBytes(r.files[r.path.value], Concat(Reply(gets, |r.sent| - 1).chunks))
  {
    if !HeadRejects(head) {
      var final := FinalName(urlPath, unquote, title, head, files);
      var temp := TempName(final);
      var supportsResume := head.acceptRanges == Some("bytes");
      var x := Xfer(StartOffset(head, temp, parts), LengthValue(head.contentLength), parts, [], []);
      AttemptsSaveLastBody(url, gets, temp, final, supportsResume, files, x, 0, n);
      assert Direct(url, urlPath, unquote, title, head, gets, n, files, parts)
          == Attempts(url, gets, temp, final, supportsResume, files, x, 0, n);
    }
  }

  /** No chunk of the body looks like HTML. */
  predicate NoHtmlChunk(chunks: seq<Bytes>) {
    forall i :: 0 <= i < |chunks| ==> !LooksLikeHtml(chunks[i])
  }

  /** A reply whose status passed and whose chunks are all read fills the temp file with them. */
  lemma ReceiveStreamsWhole(reply: GetReply, temp: string, x: Xfer)
    requires reply.GetOk? && !reply.broken && (x.total != 0 || !reply.contentLength.BadLength?)
    requires x.downloaded > 0 ==> temp in x.parts
    requires x.downloaded == 0 ==> NoHtmlChunk(reply.chunks)
    ensures var e := Receive(reply, temp, x);
      e.Finished? && e.x.sent == x.sent
      && e.x.parts == x.parts[temp := (if x.downloaded > 0 then x.parts[temp] else []) + Concat(reply.chunks)]
  {
    var start := if x.downloaded > 0 then x.parts[temp] else [];
    if x.downloaded > 0 {
      StreamNoSniffWhenResuming(reply.chunks, 0, start, x.downloaded, 0);
    } else {
      StreamNeverSniffs(reply.chunks, 0, start, x.downloaded, 0);
    }
    StreamAppends(reply.chunks, 0, start, x.downloaded, 0);
    assert reply.chunks[0..] == reply.chunks;
  }

  /**
   * An attempt whose first GET answer is accepted streams to the end: one request, and the
   * temp file holds the part data it resumed from (if any) followed by the body.
   */
  lemma AttemptStreamsWhole(url: string, gets: seq<GetReply>, temp: string, s: bool, x: Xfer,
                            status: nat, len: Length, chunks: seq<Bytes>)
    requires Reply(gets, |x.sent|) == GetOk(status, len, chunks, false)
    requires !RaisesForStatus(status) && (x.total != 0 || !len.BadLength?)
    requires x.downloaded > 0 ==> temp in x.parts && (status == 200 || status == 206)
    requires x.downloaded == 0 ==> NoHtmlChunk(chunks)
    ensures var e := Attempt(url, gets, temp, s, x);
      e.Finished? && e.x.sent == x.sent + [GetRequest(url, if x.downloaded > 0 && s then Some(x.downloaded) else None)]
      && e.x.parts == x.parts[temp := (if x.downloaded > 0 then x.parts[temp] else []) + Concat(chunks)]
  {
    var x1 := x.(sent := x.sent + [GetRequest(url, if x.downloaded > 0 && s then Some(x.downloaded) else None)]);
    ReceiveStreamsWhole(Reply(gets, |x.sent|), temp, x1);
  }

  /** A loop whose first GET answer is accepted and read to the end saves after one request. */
  lemma AttemptsSaveFirst(url: string, gets: seq<GetReply>, temp: string, final: string, s: bool,
                          files: Dir, parts: Dir, off: nat, total: int, n: nat,
                          status: nat, len: Length, chunks: seq<Bytes>)
    requires n > 0 && Reply(gets, 0) == GetOk(status, len, chunks, false)
    requires !RaisesForStatus(status) && (total != 0 || !len.BadLength?)
    requires off > 0 ==> s && temp in parts && (status == 200 || status == 206)
    requires off == 0 ==> NoHtmlChunk(chunks)
    ensures Attempts(url, gets, temp, final, s, files, Xfer(off, total, parts, [], []), 0, n)
         == DirectResult(Some(final), files[final := (if off > 0 then parts[temp] else []) + Concat(chunks)],
                         parts - {temp}, [GetRequest(url, if off > 0 then Some(off) else None)], [])
  {
    var x := Xfer(off, total, parts, [], []);
    AttemptStreamsWhole(url, gets, temp, s, x, status, len, chunks);
    var data := (if off > 0 then parts[temp] else []) + Concat(chunks);
    var e := Attempt(url, gets, temp, s, x);
    assert e.x.parts - {temp} == parts - {temp} by {
      assert e.x.parts == parts[temp := data];
    }
  }

  /**
   * When the first GET streams to the end, `download_direct` saves the part data it
   * resumed from (if any) followed by the body, and sends that one request.
   */
  lemma DirectSaves(url: string, urlPath: string, unquote: string -> string, title: Option<string>,
                    head: HeadReply, gets: seq<GetReply>, n: nat, files: Dir, parts: Dir,
                    status: nat, len: Length, chunks: seq<Bytes>)
    requires !HeadRejects(head) && n > 0 && |gets| > 0 && gets[0] == GetOk(status, len, chunks, false)
    requires !RaisesForStatus(status) && (LengthValue(head.contentLength) != 0 || !len.BadLength?)
    requires var off := StartOffset(head, TempName(FinalName(urlPath, unquote, title, head, files)), parts);
      (off > 0 ==> status == 200 || status == 206)
      && (off == 0 ==> NoHtmlChunk(chunks))
    ensures var final := FinalName(urlPath, unquote, title, head, files);
      var temp := TempName(final);
      var off := StartOffset(head, temp, parts);
      var r := Direct(url, urlPath, unquote, title, head, gets, n, files, parts);
      r.path == Some(final) && r.files == files[final := (if off > 0 then parts[temp] else []) + Concat(chunks)]
      && r.parts == parts - {temp} && r.sent == [GetRequest(url, if off > 0 then Some(off) else None)]
  {
    var final := FinalName(urlPath, unquote, title, head, files);
    var temp := TempName(final);
    var off := StartOffset(head, temp, parts);
    var s := head.acceptRanges == Some("bytes");
    var total := LengthValue(head.contentLength);
    var data := (if off > 0 then parts[temp] else []) + Concat(chunks);
    var r := Direct(url, urlPath, unquote, title, head, gets, n, files, parts);
    assert r == Attempts(url, gets, temp, final, s, files, Xfer(off, total, parts, [], []), 0, n);
    AttemptsSaveFirst(url, gets, temp, final, s, files, parts, off, total, n, status, len, chunks);
    assert r == DirectResult(Some(final), files[final := data], parts - {temp},
                             [GetRequest(url, if off > 0 then Some(off) else None)], []);
  }
}
