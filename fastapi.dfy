/**
 * The fast-download quota state machine of `AnnaDownloader`: the record
 * `fast_download_info`, the membership API's answers, and the pure rules by which
 * `try_fast_download` and `refresh_fast_download_info` read and update the record.
 * The class in module Downloader performs these steps on its own field.
 */
module FastApi {
  import opened Wrappers
  import opened Text

  /** A JSON object member: missing, present with `null`, or present with a value. */
  datatype Field<+T> = Absent | Null | Present(value: T)

  /** `d.get(k, default)`: the default only when the key is missing; `null` reads as `None`. */
  function GetOr<T>(f: Field<T>, default: T): Option<T> {
    match f
    case Absent => Some(default)
    case Null => None
    case Present(v) => Some(v)
  }

  function GetOpt<T>(f: Field<T>): Option<T> {
    match f
    case Present(v) => Some(v)
    case _ => None
  }

  /** The `fast_download_info` record. */
  datatype FastInfo = FastInfo(
    available: bool,
    downloadsLeft: Option<int>,
    downloadsPerDay: Option<int>,
    recent: Option<seq<string>>,
    lastRefresh: int)

  /** The parts of `fast_download_config` the two operations read. */
  datatype FastConfig = FastConfig(
    enabled: bool,
    key: Option<string>,
    apiUrl: string,
    pathIndex: int,
    domainIndex: int)

  const DefaultApiUrl := "https://annas-archive.org/dyn/api/fast_download.json"

  /** The hash `refresh_fast_download_info` asks about only to read the account block. */
  const ProbeMd5 := "d6e1dc51a50726f00ec438af21952a45"

  const RefreshCooldown := 3600
  const DownloadTimeout := 30
  const RefreshTimeout := 10

  /** `fast_download_enabled and fast_download_key` (an empty key is falsy). */
  predicate Configured(cfg: FastConfig) {
    cfg.enabled && cfg.key.Some? && cfg.key.value != ""
  }

  /** The record as the constructor sets it up. */
  function InitialInfo(cfg: FastConfig): FastInfo {
    FastInfo(Configured(cfg), None, None, Some([]), 0)
  }

  /** The `account_fast_download_info` object of an API answer. */
  datatype AccountInfo = AccountInfo(
    downloadsLeft: Field<int>,
    downloadsPerDay: Field<int>,
    recent: Field<seq<string>>)

  /** The decoded JSON body of an API answer, or a body that does not parse. */
  datatype ApiBody =
    | Unparseable
    | Body(downloadUrl: Field<string>, error: Field<string>, account: Field<AccountInfo>)

  /** What the API call produced: a transport failure (with its text) or an HTTP answer. */
  datatype ApiReply = ApiFailed(reason: string) | ApiAnswer(status: nat, body: ApiBody)

  /** The GET request sent to the API: URL, query parameters and timeout. */
  datatype ApiRequest = ApiRequest(
    url: string, md5: string, key: string, pathIndex: int, domainIndex: int, timeout: nat)

  /** The outcome of one `try_fast_download` call. */
  datatype FastStep = FastStep(
    success: bool, message: Option<string>, sent: Option<ApiRequest>, info: FastInfo)

  /** The outcome of one `refresh_fast_download_info` call. */
  datatype RefreshStep = RefreshStep(ok: bool, sent: Option<ApiRequest>, info: FastInfo)

  /** The text of the AttributeError raised when the account block is `null`. */
  const NoneGet := "'NoneType' object has no attribute 'get'"

  /** `downloads_left` is known and not positive. */
  predicate Exhausted(info: FastInfo) {
    info.downloadsLeft.Some? && info.downloadsLeft.value <= 0
  }

  /** `fast_download_info.update({...})` with an account block, at time `now`. */
  function Merge(info: FastInfo, a: AccountInfo, now: int): (r: FastInfo)
    ensures r.available && r.lastRefresh == now
    ensures r.downloadsLeft == GetOpt(a.downloadsLeft) && r.downloadsPerDay == GetOpt(a.downloadsPerDay)
    ensures r.recent == GetOr(a.recent, [])
  {
    FastInfo(true, GetOpt(a.downloadsLeft), GetOpt(a.downloadsPerDay), GetOr(a.recent, []), now)
  }

  function Request(cfg: FastConfig, md5: string, timeout: nat): ApiRequest
    requires Configured(cfg)
  {
    ApiRequest(cfg.apiUrl, md5, cfg.key.value, cfg.pathIndex, cfg.domainIndex, timeout)
  }

  /** A truthy `download_url`: present and non-empty. */
  predicate HasUrl(b: ApiBody) {
    b.Body? && b.downloadUrl.Present? && b.downloadUrl.value != ""
  }

  /** The status dispatch of `try_fast_download`, applied to the (already merged) record. */
  function Dispatch(status: nat, b: ApiBody, info: FastInfo): (bool, Option<string>, FastInfo)
    requires b.Body?
  {
    if status == 200 then
      if HasUrl(b) then (true, Some(b.downloadUrl.value), info)
      else (false, GetOr(b.error, "Unknown error"), info)
    else if status == 204 then (false, GetOr(b.error, "File already downloaded recently"), info)
    else if status == 400 then (false, GetOr(b.error, "Invalid MD5"), info)
    else if status == 401 then (false, GetOr(b.error, "Invalid secret key"), info.(available := false))
    else if status == 403 then (false, GetOr(b.error, "Not a member"), info.(available := false))
    else if status == 429 then (false, GetOr(b.error, "No downloads left"), info.(downloadsLeft := Some(0)))
    else (false, GetOr(b.error, "HTTP " + NatToString(status)), info)
  }

  /** `try_fast_download(md5)` against the record `info`, answered by `reply`, at time `now`. */
  function TryFast(cfg: FastConfig, info: FastInfo, md5: string, reply: ApiReply, now: int): (r: FastStep)
    ensures r.sent.Some? <==> Configured(cfg) && !Exhausted(info)
    ensures r.sent.Some? ==> r.sent == Some(Request(cfg, md5, DownloadTimeout))
    ensures r.success ==> r.message.Some? && r.message.value != ""
  {
    if !Configured(cfg) then FastStep(false, Some("Fast download not configured"), None, info)
    else if Exhausted(info) then FastStep(false, Some("No fast downloads remaining"), None, info)
    else
      var sent := Some(Request(cfg, md5, DownloadTimeout));
      match reply
      case ApiFailed(reason) => FastStep(false, Some("API request failed: " + reason), sent, info)
      case ApiAnswer(status, body) =>
        if body.Unparseable? then FastStep(false, Some("Invalid API response"), sent, info)
        else
          match body.account
          case Null => FastStep(false, Some("Unexpected error: " + NoneGet), sent, info)
          case Absent =>
            var (ok, msg, after) := Dispatch(status, body, info);
            FastStep(ok, msg, sent, after)
          case Present(a) =>
            var (ok, msg, after) := Dispatch(status, body, Merge(info, a, now));
            FastStep(ok, msg, sent, after)
  }

  /** `refresh_fast_download_info(force)` against `info`, answered by `reply`, at time `now`. */
  function Refresh(cfg: FastConfig, info: FastInfo, force: bool, reply: ApiReply, now: int): (r: RefreshStep)
    ensures r.sent.Some? ==> Configured(cfg) && r.sent == Some(Request(cfg, ProbeMd5, RefreshTimeout))
  {
    if !Configured(cfg) then RefreshStep(false, None, info)
    else if !force && now - info.lastRefresh < RefreshCooldown then RefreshStep(true, None, info)
    else
      var sent := Some(Request(cfg, ProbeMd5, RefreshTimeout));
      match reply
      case ApiAnswer(_, Body(_, _, Present(a))) => RefreshStep(true, sent, Merge(info, a, now))
      case _ => RefreshStep(false, sent, info)
  }

  // ---------------------------------------------------------------- try_fast_download

  /** Without `enabled` and a key nothing is sent and the record is untouched. */
  lemma TryFastNotConfigured(cfg: FastConfig, info: FastInfo, md5: string, reply: ApiReply, now: int)
    requires !Configured(cfg)
    ensures TryFast(cfg, info, md5, reply, now) == FastStep(false, Some("Fast download not configured"), None, info)
  {
  }

  /** A known, non-positive `downloads_left` stops the call before any request. */
  lemma TryFastExhausted(cfg: FastConfig, info: FastInfo, md5: string, reply: ApiReply, now: int)
    requires Configured(cfg) && Exhausted(info)
    ensures TryFast(cfg, info, md5, reply, now) == FastStep(false, Some("No fast downloads remaining"), None, info)
  {
  }

  /**
   * Success happens exactly when the call is made and the API answers 200 with a
   * non-empty `download_url` and a non-null account block; the message is then that URL.
   */
  lemma TryFastSuccess(cfg: FastConfig, info: FastInfo, md5: string, reply: ApiReply, now: int)
    ensures var r := TryFast(cfg, info, md5, reply, now);
      r.success <==>
        Configured(cfg) && !Exhausted(info) && reply.ApiAnswer? && reply.status == 200
        && HasUrl(reply.body) && !reply.body.account.Null?
    ensures var r := TryFast(cfg, info, md5, reply, now);
      r.success ==> r.message == Some(reply.body.downloadUrl.value)
  {
  }

  /** A body that does not parse gives "Invalid API response" and changes nothing. */
  lemma TryFastUnparseable(cfg: FastConfig, info: FastInfo, md5: string, status: nat, now: int)
    requires Configured(cfg) && !Exhausted(info)
    ensures TryFast(cfg, info, md5, ApiAnswer(status, Unparseable), now)
        == FastStep(false, Some("Invalid API response"), Some(Request(cfg, md5, DownloadTimeout)), info)
  {
  }

  /** A transport failure is reported with its text and changes nothing. */
  lemma TryFastRequestFailed(cfg: FastConfig, info: FastInfo, md5: string, reason: string, now: int)
    requires Configured(cfg) && !Exhausted(info)
    ensures var r := TryFast(cfg, info, md5, ApiFailed(reason), now);
      !r.success && r.message == Some("API request failed: " + reason) && r.info == info
  {
  }

  /**
   * An account block is merged before the status is looked at: the new record is the
   * merged one, except that 401/403 then clear `available` and 429 zeroes `downloads_left`.
   */
  lemma TryFastMergesAccount(cfg: FastConfig, info: FastInfo, md5: string, status: nat, b: ApiBody, now: int)
    requires Configured(cfg) && !Exhausted(info)
    requires b.Body? && b.account.Present?
    ensures var r := TryFast(cfg, info, md5, ApiAnswer(status, b), now);
      var m := Merge(info, b.account.value, now);
      r.info.lastRefresh == now && r.info.downloadsPerDay == m.downloadsPerDay && r.info.recent == m.recent
      && (r.info.available <==> status != 401 && status != 403)
      && r.info.downloadsLeft == (if status == 429 then Some(0) else m.downloadsLeft)
  {
  }

  /** 401 and 403 mark the membership unavailable, whatever else the answer holds. */
  lemma TryFastRevokes(cfg: FastConfig, info: FastInfo, md5: string, status: nat, b: ApiBody, now: int)
    requires Configured(cfg) && !Exhausted(info)
    requires status == 401 || status == 403
    requires b.Body? && !b.account.Null?
    ensures var r := TryFast(cfg, info, md5, ApiAnswer(status, b), now);
      !r.success && !r.info.available
  {
  }

  /** Without an account block, and with a status other than 401/403/429, the record is kept. */
  lemma TryFastKeepsInfo(cfg: FastConfig, info: FastInfo, md5: string, status: nat, b: ApiBody, now: int)
    requires b.Body? && b.account.Absent?
    requires status != 401 && status != 403 && status != 429
    ensures TryFast(cfg, info, md5, ApiAnswer(status, b), now).info == info
  {
  }

  /** A 429 blocks every later call until something resets the counter. */
  lemma TryFastQuotaBlocksNext(
    cfg: FastConfig, info: FastInfo, md5: string, b: ApiBody, now: int,
    md5': string, reply': ApiReply, now': int)
    requires Configured(cfg) && !Exhausted(info) && b.Body? && !b.account.Null?
    ensures var r := TryFast(cfg, info, md5, ApiAnswer(429, b), now);
      TryFast(cfg, r.info, md5', reply', now')
        == FastStep(false, Some("No fast downloads remaining"), None, r.info)
  {
  }

  /** A status outside the handled set reports `HTTP <status>` unless the body has an error. */
  lemma TryFastUnknownStatus(cfg: FastConfig, info: FastInfo, md5: string, status: nat, b: ApiBody, now: int)
    requires Configured(cfg) && !Exhausted(info)
    requires b.Body? && !b.account.Null? && b.error.Absent?
    requires status !in {200, 204, 400, 401, 403, 429}
    ensures TryFast(cfg, info, md5, ApiAnswer(status, b), now).message == Some("HTTP " + NatToString(status))
  {
  }

  /**
   * `available` is never consulted: after a 401 has cleared it, a configured call with
   * quota left still goes to the API.
   */
  lemma TryFastIgnoresAvailable(cfg: FastConfig, info: FastInfo, md5: string, reply: ApiReply, now: int)
    requires Configured(cfg) && !Exhausted(info) && !info.available
    ensures TryFast(cfg, info, md5, reply, now).sent.Some?
  {
  }

  // ---------------------------------------------------------------- refresh_fast_download_info

  lemma RefreshNotConfigured(cfg: FastConfig, info: FastInfo, force: bool, reply: ApiReply, now: int)
    requires !Configured(cfg)
    ensures Refresh(cfg, info, force, reply, now) == RefreshStep(false, None, info)
  {
  }

  /** Within an hour of the last refresh, unforced, the cached record is reported as good. */
  lemma RefreshCooldownCached(cfg: FastConfig, info: FastInfo, reply: ApiReply, now: int)
    requires Configured(cfg) && now - info.lastRefresh < RefreshCooldown
    ensures Refresh(cfg, info, false, reply, now) == RefreshStep(true, None, info)
  {
  }

  /**
   * Otherwise the probe request is sent and the result is True exactly when the answer
   * carries an account block, which is then merged; in every other case nothing changes.
   */
  lemma RefreshProbe(cfg: FastConfig, info: FastInfo, force: bool, reply: ApiReply, now: int)
    requires Configured(cfg) && (force || now - info.lastRefresh >= RefreshCooldown)
    ensures var r := Refresh(cfg, info, force, reply, now);
      r.sent == Some(Request(cfg, ProbeMd5, RefreshTimeout))
      && (r.ok <==> reply.ApiAnswer? && reply.body.Body? && reply.body.account.Present?)
      && (r.ok ==> r.info == Merge(info, reply.body.account.value, now))
      && (!r.ok ==> r.info == info)
  {
  }

  /** The status code plays no part in a refresh: any status with an account block succeeds. */
  lemma RefreshIgnoresStatus(cfg: FastConfig, info: FastInfo, s1: nat, s2: nat, b: ApiBody, now: int)
    ensures Refresh(cfg, info, true, ApiAnswer(s1, b), now) == Refresh(cfg, info, true, ApiAnswer(s2, b), now)
  {
  }

  /**
   * A download call that merged an account block at time `now` makes every unforced
   * refresh during the following hour a cache hit.
   */
  lemma MergeStartsCooldown(
    cfg: FastConfig, info: FastInfo, md5: string, status: nat, b: ApiBody, now: int,
    reply': ApiReply, now': int)
    requires Configured(cfg) && !Exhausted(info) && b.Body? && b.account.Present?
    requires now <= now' < now + RefreshCooldown
    ensures var r := TryFast(cfg, info, md5, ApiAnswer(status, b), now);
      Refresh(cfg, r.info, false, reply', now') == RefreshStep(true, None, r.info)
  {
  }

  /** A successful refresh likewise starts the hour. */
  lemma RefreshThenCached(cfg: FastConfig, info: FastInfo, force: bool, reply: ApiReply, now: int,
                          reply': ApiReply, now': int)
    requires now <= now' < now + RefreshCooldown
    requires Refresh(cfg, info, force, reply, now).sent.Some? && Refresh(cfg, info, force, reply, now).ok
    ensures var r := Refresh(cfg, info, force, reply, now);
      Refresh(cfg, r.info, false, reply', now') == RefreshStep(true, None, r.info)
  {
  }
}
