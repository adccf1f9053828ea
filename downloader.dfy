/**
 * The object `AnnaDownloader`: its fast-download record and the two directories it
 * writes (the output directory and the incomplete directory holding `.part` files),
 * and the methods that change them. Each method runs the source's steps with its
 * loops and is proved equal to the specification function of its module (FastApi,
 * Transfer, Mirrors); the legacy `download` is specified here by `Legacy`.
 *
 * The network is a `Net` value: the catalogue page, the API answer, and per URL the
 * HEAD answer, the script of GET answers and the script of page fetches.
 */
module Downloader {
  import opened Wrappers
  import Text
  import Md5
  import Naming
  import opened FastApi
  import opened Transfer
  import Mirrors

  datatype Net = Net(
    catalog: Mirrors.PageReply,
    api: ApiReply,
    head: string -> HeadReply,
    gets: string -> seq<GetReply>,
    pages: string -> seq<Mirrors.PageReply>,
    ops: Mirrors.UrlOps)

  /** How one pass of the attempt loop ended. */
  datatype EndKind = Done | Abort | Fail

  function KindOf(e: AttemptEnd): EndKind {
    match e
    case Finished(_) => Done
    case Aborted(_) => Abort
    case Raised(_) => Fail
  }

  /** `download_direct(url, title, n)` as the network `net` answers it. */
  function DirectVia(net: Net, url: string, title: Option<string>, n: nat, files: Dir, parts: Dir): DirectResult {
    Direct(url, net.ops.path(url), net.ops.unquote, title, net.head(url), net.gets(url), n, files, parts)
  }

  /** `download_from_libgen(url, title, n, 3)`: the page work, then `download_direct` on the link found. */
  function LibgenVia(net: Net, url: string, title: Option<string>, n: nat, files: Dir, parts: Dir): DirectResult {
    var plan := Mirrors.Libgen(url, net.pages(url), net.ops, RetryOn500);
    if plan.link.None? then DirectResult(None, files, parts, [], plan.waits)
    else
      var r := DirectVia(net, plan.link.value, title, n, files, parts);
      r.(waits := plan.waits + r.waits)
  }

  const RetryOn500 := 3

  // ---------------------------------------------------------------- legacy download

  /** The outcome of the legacy `download`, with the path of the file saved, if any. */
  datatype LegacyEnd = LegacyEnd(success: bool, usedFast: bool, path: Option<string>, info: FastInfo,
                                 files: Dir, parts: Dir)

  /** The mirror loop of `download` from mirror `i` on. */
  function MirrorLoop(order: seq<Mirrors.Link>, i: nat, title: Option<string>, n: nat, net: Net,
                      files: Dir, parts: Dir): (Option<string>, Dir, Dir)
    requires i <= |order|
    decreases |order| - i
  {
    if i == |order| then (None, files, parts)
    else
      var r := LibgenVia(net, order[i].url, title, n, files, parts);
      if r.path.Some? then (r.path, r.files, r.parts)
      else MirrorLoop(order, i + 1, title, n, net, r.files, r.parts)
  }

  /**
   * `download(input, prefer_mirror, resume_attempts, title_override)` for a downloader
   * configured by `cfg` whose record is `info`, at time `now`.
   */
  function Legacy(cfg: FastConfig, info: FastInfo, files: Dir, parts: Dir, input: string,
                  prefer: Option<string>, n: nat, titleOverride: Option<string>, net: Net, now: int): LegacyEnd
  {
    var md5 := Md5.ExtractMd5(input);
    if md5.None? || md5.value == "" then LegacyEnd(false, false, None, info, files, parts)
    else
      var (fetched, links) := Mirrors.DownloadLinks(md5.value, net.catalog, net.ops);
      var title := if Mirrors.Truthy(titleOverride) then titleOverride else fetched;
      var fast := if Configured(cfg) then TryFast(cfg, info, md5.value, net.api, now)
                  else FastStep(false, None, None, info);
      var d := if fast.success then DirectVia(net, fast.message.value, title, n, files, parts)
               else DirectResult(None, files, parts, [], []);
      LegacyFinish(d, fast.info, links, prefer, title, n, net)
  }

  /** After the fast path: its file if it saved one, else the mirrors, if any. */
  function LegacyFinish(d: DirectResult, info: FastInfo, links: seq<Mirrors.Link>, prefer: Option<string>,
                        title: Option<string>, n: nat, net: Net): LegacyEnd
  {
    if d.path.Some? then LegacyEnd(true, true, d.path, info, d.files, d.parts)
    else if links == [] then LegacyEnd(false, false, None, info, d.files, d.parts)
    else
      var (p, f, q) := MirrorLoop(Mirrors.LegacyOrder(links, prefer), 0, title, n, net, d.files, d.parts);
      LegacyEnd(p.Some?, false, p, info, f, q)
  }

  /** The two loops of `download` that build `mirrors_to_try`. */
  method MirrorsToTry(links: seq<Mirrors.Link>, prefer: Option<string>) returns (order: seq<Mirrors.Link>)
    ensures order == Mirrors.LegacyOrder(links, prefer)
  {
    if prefer.None? || prefer.value == "" {
      return links;
    }
    order := [];
    for i := 0 to |links|
      invariant order + Mirrors.Preferred(links[i..], prefer.value) == Mirrors.Preferred(links, prefer.value)
    {
      ghost var rest := Mirrors.Preferred(links[i + 1..], prefer.value);
      assert Mirrors.Preferred(links[i..], prefer.value)
          == (if Mirrors.Prefers(links[i], prefer.value) then [links[i]] else []) + rest by {
        assert links[i..][0] == links[i] && links[i..][1..] == links[i + 1..];
      }
      if Text.Contains(Text.Lower(links[i].domain), Text.Lower(prefer.value)) {
        assert (order + [links[i]]) + rest == order + ([links[i]] + rest);
        order := order + [links[i]];
      } else {
        assert [] + rest == rest;
      }
    }
    assert links[|links|..] == [];
    assert order + [] == order;
    assert links[0..] == links;
    for i := 0 to |links|
      invariant Mirrors.AddMissing(order, links[i..]) == Mirrors.LegacyOrder(links, prefer)
    {
      assert Mirrors.AddMissing(order, links[i..])
          == Mirrors.AddMissing(if links[i] in order then order else order + [links[i]], links[i + 1..]) by {
        assert links[i..][0] == links[i] && links[i..][1..] == links[i + 1..];
      }
      if links[i] !in order {
        order := order + [links[i]];
      }
    }
  }

  // ---------------------------------------------------------------- properties of the legacy download

  /** The output directory after a call: unchanged on failure; one new file, nothing overwritten, on success. */
  predicate AddsAtMostTarget(path: Option<string>, before: Dir, after: Dir) {
    && (path.None? ==> after == before)
    && (path.Some? ==> path.value !in before && path.value in after && after - {path.value} == before)
  }

  lemma LibgenViaAddsAtMostTarget(net: Net, url: string, title: Option<string>, n: nat, files: Dir, parts: Dir)
    ensures var r := LibgenVia(net, url, title, n, files, parts); AddsAtMostTarget(r.path, files, r.files)
  {
    var plan := Mirrors.Libgen(url, net.pages(url), net.ops, RetryOn500);
    if plan.link.Some? {
      var u := plan.link.value;
      DirectChangesOnlyTarget(u, net.ops.path(u), net.ops.unquote, title, net.head(u), net.gets(u), n, files, parts);
    }
  }

  lemma {:induction false} MirrorLoopAddsAtMostTarget(order: seq<Mirrors.Link>, i: nat, title: Option<string>, n: nat,
                                                      net: Net, files: Dir, parts: Dir)
    requires i <= |order|
    ensures var r := MirrorLoop(order, i, title, n, net, files, parts); AddsAtMostTarget(r.0, files, r.1)
    decreases |order| - i
  {
    if i < |order| {
      var r := LibgenVia(net, order[i].url, title, n, files, parts);
      LibgenViaAddsAtMostTarget(net, order[i].url, title, n, files, parts);
      if r.path.None? {
        MirrorLoopAddsAtMostTarget(order, i + 1, title, n, net, r.files, r.parts);
      }
    }
  }

  /** Adding at most the target keeps every file that was there, with its contents. */
  lemma AddsAtMostTargetKeeps(path: Option<string>, before: Dir, after: Dir)
    requires AddsAtMostTarget(path, before, after)
    ensures forall k :: k in before ==> k in after && after[k] == before[k]
  {
    forall k | k in before ensures k in after && after[k] == before[k] {
      if path.Some? {
        assert k in after - {path.value};
      }
    }
  }

  /**
   * The legacy download never deletes or overwrites a file of the output directory: it
   * adds exactly one file, under a new name, exactly when it reports success.
   */
  lemma LegacyNeverOverwrites(cfg: FastConfig, info: FastInfo, files: Dir, parts: Dir, input: string,
                              prefer: Option<string>, n: nat, titleOverride: Option<string>, net: Net, now: int)
    ensures var r := Legacy(cfg, info, files, parts, input, prefer, n, titleOverride, net, now);
      (r.success <==> r.path.Some?) && AddsAtMostTarget(r.path, files, r.files)
  {
    var md5 := Md5.ExtractMd5(input);
    if md5.Some? && md5.value != "" {
      var (fetched, links) := Mirrors.DownloadLinks(md5.value, net.catalog, net.ops);
      var title := if Mirrors.Truthy(titleOverride) then titleOverride else fetched;
      var fast := if Configured(cfg) then TryFast(cfg, info, md5.value, net.api, now)
                  else FastStep(false, None, None, info);
      var d := if fast.success then DirectVia(net, fast.message.value, title, n, files, parts)
               else DirectResult(None, files, parts, [], []);
      if fast.success {
        var u := fast.message.value;
        DirectChangesOnlyTarget(u, net.ops.path(u), net.ops.unquote, title, net.head(u), net.gets(u), n, files, parts);
      }
      assert AddsAtMostTarget(d.path, files, d.files);
      LegacyFinishAddsAtMostTarget(d, files, fast.info, links, prefer, title, n, net);
    }
  }

  lemma LegacyFinishAddsAtMostTarget(d: DirectResult, files: Dir, info: FastInfo, links: seq<Mirrors.Link>,
                                     prefer: Option<string>, title: Option<string>, n: nat, net: Net)
    requires AddsAtMostTarget(d.path, files, d.files)
    ensures var r := LegacyFinish(d, info, links, prefer, title, n, net);
      (r.success <==> r.path.Some?) && AddsAtMostTarget(r.path, files, r.files)
  {
    if d.path.None? && links != [] {
      MirrorLoopAddsAtMostTarget(Mirrors.LegacyOrder(links, prefer), 0, title, n, net, d.files, d.parts);
    }
  }

  /**
   * `used_fast_download` is reported exactly when the fast path saved the file, and then
   * with that file's path; the record changes only through `try_fast_download`, which
   * runs only when configured.
   */
  lemma LegacyFastPath(cfg: FastConfig, info: FastInfo, files: Dir, parts: Dir, input: string,
                       prefer: Option<string>, n: nat, titleOverride: Option<string>, net: Net, now: int)
    requires Md5.ExtractMd5(input).Some?
    ensures var r := Legacy(cfg, info, files, parts, input, prefer, n, titleOverride, net, now);
      var md5 := Md5.ExtractMd5(input).value;
      var fast := TryFast(cfg, info, md5, net.api, now);
      && r.info == (if Configured(cfg) then fast.info else info)
      && (r.usedFast ==> r.success && Configured(cfg) && fast.success)
    ensures var r := Legacy(cfg, info, files, parts, input, prefer, n, titleOverride, net, now);
      var md5 := Md5.ExtractMd5(input).value;
      var fast := TryFast(cfg, info, md5, net.api, now);
      var title := if Mirrors.Truthy(titleOverride) then titleOverride
                   else Mirrors.DownloadLinks(md5, net.catalog, net.ops).0;
      r.usedFast ==>
        (fast.message.Some? &&
         var d := DirectVia(net, fast.message.value, title, n, files, parts);
         d.path.Some? && r.path == d.path)
    ensures var r := Legacy(cfg, info, files, parts, input, prefer, n, titleOverride, net, now);
      var md5 := Md5.ExtractMd5(input).value;
      var fast := TryFast(cfg, info, md5, net.api, now);
      var title := if Mirrors.Truthy(titleOverride) then titleOverride
                   else Mirrors.DownloadLinks(md5, net.catalog, net.ops).0;
      Configured(cfg) && fast.success ==>
        var d := DirectVia(net, fast.message.value, title, n, files, parts);
        d.path.Some? ==> r.usedFast && r.success && r.path == d.path
  {
    Md5.ExtractMd5Shape(input);
  }

  /** Without a hash in the input nothing is fetched and nothing changes. */
  lemma LegacyNoHash(cfg: FastConfig, info: FastInfo, files: Dir, parts: Dir, input: string,
                     prefer: Option<string>, n: nat, titleOverride: Option<string>, net: Net, now: int)
    requires Md5.ExtractMd5(input).None?
    ensures Legacy(cfg, info, files, parts, input, prefer, n, titleOverride, net, now)
      == LegacyEnd(false, false, None, info, files, parts)
  {
  }

  /** A mirror that yields a file ends the loop: the mirrors after it are not tried. */
  lemma MirrorLoopStopsAtSuccess(order: seq<Mirrors.Link>, i: nat, title: Option<string>, n: nat,
                                 net: Net, files: Dir, parts: Dir)
    requires i < |order| && LibgenVia(net, order[i].url, title, n, files, parts).path.Some?
    ensures var r := LibgenVia(net, order[i].url, title, n, files, parts);
      MirrorLoop(order, i, title, n, net, files, parts) == (r.path, r.files, r.parts)
  {
  }

  // ---------------------------------------------------------------- the object

  class AnnaDownloader {
    const cfg: FastConfig
    var info: FastInfo
    var files: Dir
    var parts: Dir

    /** The record starts available exactly when fast download is enabled with a key. */
    constructor (cfg: FastConfig, files: Dir, parts: Dir)
      ensures this.cfg == cfg && info == InitialInfo(cfg)
      ensures this.files == files && this.parts == parts
    {
      this.cfg := cfg;
      info := FastInfo(cfg.enabled && cfg.key.Some? && cfg.key.value != "", None, None, Some([]), 0);
      this.files := files;
      this.parts := parts;
    }

    /** `try_fast_download(md5)`: the request it sends, its result, and the record it leaves. */
    method TryFastDownload(md5: string, reply: ApiReply, now: int)
      returns (success: bool, message: Option<string>, sent: Option<ApiRequest>)
      modifies this
      ensures TryFast(cfg, old(info), md5, reply, now) == FastStep(success, message, sent, info)
      ensures files == old(files) && parts == old(parts)
    {
      if !cfg.enabled || cfg.key.None? || cfg.key.value == "" {
        return false, Some("Fast download not configured"), None;
      }
      if info.downloadsLeft.Some? && info.downloadsLeft.value <= 0 {
        return false, Some("No fast downloads remaining"), None;
      }
      sent := Some(ApiRequest(cfg.apiUrl, md5, cfg.key.value, cfg.pathIndex, cfg.domainIndex, DownloadTimeout));
      if reply.ApiFailed? {
        return false, Some("API request failed: " + reply.reason), sent;
      }
      var status, body := reply.status, reply.body;
      if body.Unparseable? {
        return false, Some("Invalid API response"), sent;
      }
      match body.account {
        case Null =>
          return false, Some("Unexpected error: " + NoneGet), sent;
        case Present(a) =>
          info := FastInfo(true, GetOpt(a.downloadsLeft), GetOpt(a.downloadsPerDay), GetOr(a.recent, []), now);
        case Absent =>
      }
      if status == 200 {
        if body.downloadUrl.Present? && body.downloadUrl.value != "" {
          return true, Some(body.downloadUrl.value), sent;
        }
        return false, GetOr(body.error, "Unknown error"), sent;
      } else if status == 204 {
        message := GetOr(body.error, "File already downloaded recently");
      } else if status == 400 {
        message := GetOr(body.error, "Invalid MD5");
      } else if status == 401 {
        message := GetOr(body.error, "Invalid secret key");
        info := info.(available := false);
      } else if status == 403 {
        message := GetOr(body.error, "Not a member");
        info := info.(available := false);
      } else if status == 429 {
        message := GetOr(body.error, "No downloads left");
        info := info.(downloadsLeft := Some(0));
      } else {
        message := GetOr(body.error, "HTTP " + Text.NatToString(status));
      }
      return false, message, sent;
    }

    /** `refresh_fast_download_info(force)`: the cooldown, the probe request and the record it leaves. */
    method RefreshFastDownloadInfo(force: bool, reply: ApiReply, now: int) returns (ok: bool, sent: Option<ApiRequest>)
      modifies this
      ensures Refresh(cfg, old(info), force, reply, now) == RefreshStep(ok, sent, info)
      ensures files == old(files) && parts == old(parts)
    {
      if !cfg.enabled || cfg.key.None? || cfg.key.value == "" {
        return false, None;
      }
      if !force && now - info.lastRefresh < RefreshCooldown {
        return true, None;
      }
      sent := Some(ApiRequest(cfg.apiUrl, ProbeMd5, cfg.key.value, cfg.pathIndex, cfg.domainIndex, RefreshTimeout));
      if reply.ApiAnswer? && reply.body.Body? && reply.body.account.Present? {
        var a := reply.body.account.value;
        info := FastInfo(true, GetOpt(a.downloadsLeft), GetOpt(a.downloadsPerDay), GetOr(a.recent, []), now);
        return true, sent;
      }
      return false, sent;
    }

    /**
     * One pass of the attempt loop of `download_direct` on the temp file `temp`: the
     * request (repeated without Range when a resume is refused), the status check, the
     * length, and the chunk loop that writes the temp file.
     */
    method AttemptDownload(url: string, gets: seq<GetReply>, temp: string, supportsResume: bool,
                           downloaded0: nat, total0: int, sent0: seq<GetRequest>, waits: seq<nat>)
      returns (kind: EndKind, downloaded: nat, total: int, sent: seq<GetRequest>)
      modifies this
      ensures var e := Attempt(url, gets, temp, supportsResume, Xfer(downloaded0, total0, old(parts), sent0, waits));
        kind == KindOf(e) && e.x == Xfer(downloaded, total, parts, sent, waits)
      ensures files == old(files) && info == old(info)
    {
      downloaded, total, sent := downloaded0, total0, sent0;
      var range := if downloaded > 0 && supportsResume then Some(downloaded) else None;
      var reply := Reply(gets, |sent|);
      sent := sent + [GetRequest(url, range)];
      if reply.GetFailed? {
        return Fail, downloaded, total, sent;
      }
      if downloaded > 0 && reply.status != 200 && reply.status != 206 {
        downloaded := 0;
        parts := parts - {temp};
        reply := Reply(gets, |sent|);
        sent := sent + [GetRequest(url, None)];
      }
      if reply.GetFailed? || RaisesForStatus(reply.status) {
        return Fail, downloaded, total, sent;
      }
      kind, downloaded, total := ReceiveBody(reply, temp, downloaded, total, sent, waits);
    }

    /** The rest of an attempt once the status passed: the length, the open, the chunk loop. */
    method ReceiveBody(reply: GetReply, temp: string, downloaded0: nat, total0: int, sent: seq<GetRequest>, waits: seq<nat>)
      returns (kind: EndKind, downloaded: nat, total: int)
      requires reply.GetOk?
      modifies this
      ensures var e := Receive(reply, temp, Xfer(downloaded0, total0, old(parts), sent, waits));
        kind == KindOf(e) && e.x == Xfer(downloaded, total, parts, sent, waits)
      ensures files == old(files) && info == old(info)
    {
      downloaded, total := downloaded0, total0;
      if total == 0 {
        if reply.contentLength.BadLength? {
          return Abort, downloaded, total;
        }
        total := LengthValue(reply.contentLength);
      }
      ghost var start := if downloaded > 0 && temp in parts then parts[temp] else [];
      // open(temp_path, 'ab' if downloaded > 0 else 'wb')
      if downloaded == 0 || temp !in parts {
        parts := parts[temp := []];
      }
      assert parts[temp] == start && parts - {temp} == old(parts) - {temp};
      var sniffed;
      sniffed, downloaded := WriteChunks(temp, reply.chunks, downloaded);
      if sniffed {
        return Abort, downloaded, total;
      }
      assert parts == old(parts)[temp := parts[temp]];
      if reply.broken {
        return Fail, downloaded, total;
      }
      return Done, downloaded, total;
    }

    /**
     * The chunk loop of `download_direct` on an open temp file: empty chunks are skipped,
     * a fresh file whose first chunk looks like HTML is deleted, every other chunk is
     * appended and counted.
     */
    method WriteChunks(temp: string, chunks: seq<Bytes>, downloaded0: nat) returns (sniffed: bool, downloaded: nat)
      requires temp in parts
      modifies this
      ensures var s := StreamFrom(chunks, 0, old(parts[temp]), downloaded0, 0);
        && (sniffed <==> s.Sniffed?)
        && (sniffed ==> parts == old(parts) - {temp} && downloaded == downloaded0)
        && (!sniffed ==> parts == old(parts)[temp := s.data] && downloaded == s.downloaded)
      ensures files == old(files) && info == old(info)
    {
      downloaded := downloaded0;
      var count := 0;
      for i := 0 to |chunks|
        invariant temp in parts && parts == old(parts)[temp := parts[temp]]
        invariant count == 0 ==> downloaded == downloaded0
        invariant StreamFrom(chunks, i, parts[temp], downloaded, count) == StreamFrom(chunks, 0, old(parts[temp]), downloaded0, 0)
        invariant files == old(files) && info == old(info)
      {
        var chunk := chunks[i];
        if chunk != [] {
          if count == 0 && downloaded == 0 && LooksLikeHtml(chunk) {
            parts := parts - {temp};
            return true, downloaded;
          }
          parts := parts[temp := parts[temp] + chunk];
          downloaded := downloaded + |chunk|;
          count := count + 1;
        }
      }
      return false, downloaded;
    }

    /**
     * `download_direct(url, title, resume_attempts)`, with `urlPath` the decoded path of
     * `url`: the file it saves (or None), the two directories, the GET requests and the waits.
     */
    method DownloadDirect(url: string, urlPath: string, unquote: string -> string, title: Option<string>, head: HeadReply,
                          gets: seq<GetReply>, resumeAttempts: nat)
      returns (path: Option<string>, sent: seq<GetRequest>, waits: seq<nat>)
      modifies this
      ensures Direct(url, urlPath, unquote, title, head, gets, resumeAttempts, old(files), old(parts))
        == DirectResult(path, files, parts, sent, waits)
      ensures info == old(info)
    {
      if head.HeadFailed? || head.contentLength.BadLength? || Text.Contains(Text.Lower(head.contentType), "text/html") {
        return None, [], [];
      }
      var ext := Naming.FileExtension(Text.Lower(head.contentType), urlPath, head.disposition, unquote);
      var final := Naming.GetUniqueFilename(Naming.DeriveFilename(title, urlPath, ext), files.Keys);
      var temp := final + ".part";
      var supportsResume := head.acceptRanges == Some("bytes");
      var downloaded: nat := if temp in parts && supportsResume then |parts[temp]| else 0;
      var total := LengthValue(head.contentLength);
      ghost var goal := Direct(url, urlPath, unquote, title, head, gets, resumeAttempts, old(files), old(parts));
      sent, waits := [], [];
      var attempt := 0;
      while attempt < resumeAttempts
        invariant attempt <= resumeAttempts
        invariant files == old(files) && info == old(info)
        invariant Attempts(url, gets, temp, final, supportsResume, files,
                           Xfer(downloaded, total, parts, sent, waits), attempt, resumeAttempts) == goal
      {
        var kind;
        kind, downloaded, total, sent := AttemptDownload(url, gets, temp, supportsResume, downloaded, total, sent, waits);
        match kind {
          case Done =>
            files := files[final := parts[temp]];
            parts := parts - {temp};
            return Some(final), sent, waits;
          case Abort =>
            return None, sent, waits;
          case Fail =>
            if attempt == resumeAttempts - 1 {
              return None, sent, waits;
            }
            waits := waits + [RetryWait];
            if temp in parts {
              downloaded := |parts[temp]|;
            }
        }
        attempt := attempt + 1;
      }
      return None, sent, waits;
    }

    /**
     * `download_from_libgen(mirror_url, title, resume_attempts, retry_on_500)`: the page
     * fetches with their backoff, the link heuristics, then `download_direct`.
     */
    method DownloadFromLibgen(mirrorUrl: string, title: Option<string>, resumeAttempts: nat, retryOn500: nat, net: Net)
      returns (path: Option<string>, fetches: nat, waits: seq<nat>)
      modifies this
      ensures var plan := Mirrors.Libgen(mirrorUrl, net.pages(mirrorUrl), net.ops, retryOn500);
        && fetches == plan.fetches
        && (plan.link.None? ==> path.None? && waits == plan.waits && files == old(files) && parts == old(parts))
        && (plan.link.Some? ==>
              var r := DirectVia(net, plan.link.value, title, resumeAttempts, old(files), old(parts));
              path == r.path && files == r.files && parts == r.parts && waits == plan.waits + r.waits)
      ensures info == old(info)
    {
      var pages := net.pages(mirrorUrl);
      ghost var plan := Mirrors.Libgen(mirrorUrl, pages, net.ops, retryOn500);
      waits := [];
      var attempt := 0;
      while attempt < retryOn500
        invariant attempt <= retryOn500
        invariant Mirrors.LibgenFrom(mirrorUrl, pages, net.ops, attempt, retryOn500, waits) == plan
        invariant files == old(files) && parts == old(parts) && info == old(info)
      {
        var reply := Mirrors.PageAt(pages, attempt);
        if reply.PageFailed? || reply.status == 500 || Mirrors.RaisesForStatus(reply.status) {
          if attempt == retryOn500 - 1 {
            return None, attempt + 1, waits;
          }
          waits := waits + [Mirrors.Pow2(attempt)];
          attempt := attempt + 1;
        } else {
          var link := Mirrors.FindDownloadLink(mirrorUrl, reply.page.anchors, net.ops);
          if link.None? {
            return None, attempt + 1, waits;
          }
          var u := link.value;
          var p, _, directWaits := DownloadDirect(u, net.ops.path(u), net.ops.unquote, title, net.head(u), net.gets(u), resumeAttempts);
          return p, attempt + 1, waits + directWaits;
        }
      }
      return None, attempt, waits;
    }

    /**
     * The legacy `download(input, prefer_mirror, resume_attempts, title_override)`:
     * `(success, used_fast_download)`, with the record and the directories it leaves.
     */
    method Download(input: string, prefer: Option<string>, resumeAttempts: nat, titleOverride: Option<string>,
                    net: Net, now: int)
      returns (success: bool, usedFast: bool)
      modifies this
      ensures var r := Legacy(cfg, old(info), old(files), old(parts), input, prefer, resumeAttempts, titleOverride, net, now);
        success == r.success && usedFast == r.usedFast && info == r.info && files == r.files && parts == r.parts
    {
      var md5 := Md5.ExtractMd5(input);
      if md5.None? || md5.value == "" {
        return false, false;
      }
      var title, links;
      if titleOverride.Some? && titleOverride.value != "" {
        title := titleOverride;
        var _, l := Mirrors.GetDownloadLinks(md5.value, net.catalog, net.ops);
        links := l;
      } else {
        title, links := Mirrors.GetDownloadLinks(md5.value, net.catalog, net.ops);
      }
      if cfg.enabled && cfg.key.Some? && cfg.key.value != "" {
        var ok, result, _ := TryFastDownload(md5.value, net.api, now);
        if ok {
          var u := result.value;
          var path, _, _ := DownloadDirect(u, net.ops.path(u), net.ops.unquote, title, net.head(u), net.gets(u), resumeAttempts);
          if path.Some? {
            return true, true;
          }
        }
      }
      if links == [] {
        return false, false;
      }
      var order := MirrorsToTry(links, prefer);
      var path := TryMirrors(order, title, resumeAttempts, net);
      return path.Some?, false;
    }

    /** The mirror loop of `download`: the first mirror that yields a file ends it. */
    method TryMirrors(order: seq<Mirrors.Link>, title: Option<string>, resumeAttempts: nat, net: Net)
      returns (path: Option<string>)
      modifies this
      ensures (path, files, parts) == MirrorLoop(order, 0, title, resumeAttempts, net, old(files), old(parts))
      ensures info == old(info)
    {
      ghost var goal := MirrorLoop(order, 0, title, resumeAttempts, net, files, parts);
      for i := 0 to |order|
        invariant MirrorLoop(order, i, title, resumeAttempts, net, files, parts) == goal
        invariant info == old(info)
      {
        var p, _, _ := DownloadFromLibgen(order[i].url, title, resumeAttempts, RetryOn500, net);
        if p.Some? {
          return p;
        }
      }
      return None;
    }
  }
}
