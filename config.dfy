/**
 * The configuration endpoints of the web API.
 *
 *  - `POST /api/config` converts and normalises each submitted field, writes it into
 *    the live configuration, saves, and answers with a masked copy;
 *  - `GET /api/config` answers with the masked copy;
 *  - `POST /api/config/test_key` probes the membership API with a candidate key and,
 *    when that is the key the downloader uses, refreshes the downloader's quota record.
 *
 * The update handler is modelled twice: as the ordered list of steps the submitted
 * body calls for (a write, nothing, or an exception), applied by `Apply`, and as
 * the class `ConfigStore` whose methods perform the writes one by one.
 */
module ConfigApi {
  import opened Wrappers
  import opened Text
  import opened FastApi
  import Downloader

  /** The JSON scalars a stored value or a submitted field can be. */
  datatype Json = JNull | JBool(b: bool) | JInt(i: int) | JStr(s: string)

  /** A configuration, and equally a decoded request body: section, then key, then value. */
  type Config = map<string, map<string, Json>>

  /** Python's `bool(v)`. */
  predicate Truthy(v: Json) {
    match v
    case JNull => false
    case JBool(b) => b
    case JInt(n) => n != 0
    case JStr(s) => s != ""
  }

  // ---------------------------------------------------------------- int()

  /** Python's `int(s)` on a string: optional surrounding whitespace, then a signed decimal. */
  function ParseInt(s: string): Option<int> {
    ParseSigned(Strip(s))
  }

  /** An optional sign followed by one or more decimal digits. */
  function ParseSigned(t: string): Option<int> {
    if t != [] && (t[0] == '-' || t[0] == '+') then
      var d := t[1..];
      if d != [] && AllDigits(d) then
        var m: int := DecimalValue(d);
        Some(if t[0] == '-' then -m else m)
      else None
    else if t != [] && AllDigits(t) then Some(DecimalValue(t))
    else None
  }

  /** Python's `int(v)`; `None` where it raises. */
  function ToInt(v: Json): Option<int> {
    match v
    case JNull => None
    case JBool(b) => Some(if b then 1 else 0)
    case JInt(n) => Some(n)
    case JStr(s) => ParseInt(s)
  }

  /** Python's `str(n)` for an integer. */
  function IntToString(n: int): string {
    if n < 0 then "-" + NatToString(-n) else NatToString(n)
  }

  lemma StripUnpadded(s: string)
    requires s != [] && !IsSpace(s[0]) && !IsSpace(s[|s| - 1])
    ensures Strip(s) == s
  {
    assert TrimLeft(s) == s;
  }

  lemma {:induction false} ParseSignedOfIntToString(n: int)
    ensures ParseSigned(IntToString(n)) == Some(n)
  {
    var m: nat := if n < 0 then -n else n;
    var d := NatToString(m);
    assert AllDigits(d);
    DecimalValueOfNatToString(m);
    var s := IntToString(n);
    if n < 0 {
      assert s == "-" + d;
      assert s[0] == '-' && s[1..] == d;
    } else {
      assert s == d;
      assert '0' <= s[0] <= '9';
    }
  }

  /** `int(str(n)) == n`: the conversion reads back every integer's rendering. */
  lemma ParseIntOfIntToString(n: int)
    ensures ParseInt(IntToString(n)) == Some(n)
    ensures ToInt(JStr(IntToString(n))) == Some(n)
  {
    var s := IntToString(n);
    var d := NatToString(if n < 0 then -n else n);
    assert '0' <= d[0] <= '9' && '0' <= d[|d| - 1] <= '9';
    assert s[|s| - 1] == d[|d| - 1];
    StripUnpadded(s);
    ParseSignedOfIntToString(n);
  }

  // ---------------------------------------------------------------- the update steps

  /** What one submitted field makes the handler do. */
  datatype Step = Put(section: string, key: string, value: Json) | Skip | Raise

  function Lookup(c: Config, s: string, k: string): Option<Json> {
    if s in c && k in c[s] then Some(c[s][k]) else None
  }

  /** `config.set(section, key, value=v)`; a missing section is created. */
  function Set(c: Config, s: string, k: string, v: Json): (r: Config)
    ensures Lookup(r, s, k) == Some(v)
    ensures forall s2, k2 :: s2 != s || k2 != k ==> Lookup(r, s2, k2) == Lookup(c, s2, k2)
  {
    c[s := (if s in c then c[s] else map[])[k := v]]
  }

  /**
   * The steps carried out in order: a write changes the configuration, and the
   * first step that raises ends the handler with the earlier writes kept.
   * The flag says whether every step went through.
   */
  function Apply(c: Config, steps: seq<Step>): (r: (Config, bool))
    ensures r.1 <==> Raise !in steps
    decreases |steps|
  {
    if steps == [] then (c, true)
    else
      match steps[0]
      case Raise => (c, false)
      case Skip => Apply(c, steps[1..])
      case Put(s, k, v) => Apply(Set(c, s, k, v), steps[1..])
  }

  /** Running two step lists one after the other. */
  lemma {:induction false} ApplyConcat(c: Config, a: seq<Step>, b: seq<Step>)
    ensures Apply(c, a + b) == if Apply(c, a).1 then Apply(Apply(c, a).0, b) else Apply(c, a)
    decreases |a|
  {
    if a == [] {
      assert a + b == b;
    } else {
      assert (a + b)[0] == a[0];
      assert (a + b)[1..] == a[1..] + b;
      match a[0]
      case Raise =>
      case Skip => ApplyConcat(c, a[1..], b);
      case Put(s, k, v) => ApplyConcat(Set(c, s, k, v), a[1..], b);
    }
  }

  /** Every value in the result was there before or was written by one of the steps. */
  lemma {:induction false} ApplyFrom(c: Config, steps: seq<Step>, s: string, k: string)
    ensures var r := Apply(c, steps).0;
      Lookup(r, s, k) == Lookup(c, s, k) || (Lookup(r, s, k).Some? && Put(s, k, Lookup(r, s, k).value) in steps)
    decreases |steps|
  {
    if steps != [] {
      match steps[0]
      case Raise =>
      case Skip =>
        ApplyFrom(c, steps[1..], s, k);
        assert forall st :: st in steps[1..] ==> st in steps;
      case Put(s1, k1, v) =>
        ApplyFrom(Set(c, s1, k1, v), steps[1..], s, k);
        assert forall st :: st in steps[1..] ==> st in steps;
    }
  }

  /** A field converted with `int()`. */
  function IntField(data: Config, s: string, k: string): (r: seq<Step>)
    ensures |r| == if Lookup(data, s, k).Some? then 1 else 0
    ensures forall st :: st in r && st.Put? ==> st.section == s && st.key == k
  {
    match Lookup(data, s, k)
    case None => []
    case Some(v) => [match ToInt(v) case Some(n) => Put(s, k, JInt(n)) case None => Raise]
  }

  /** An `enabled` flag, converted with `bool()`. */
  function EnabledField(data: Config, s: string): (r: seq<Step>)
    ensures forall st :: st in r ==> st.Put? && st.section == s && st.key == "enabled"
  {
    match Lookup(data, s, "enabled")
    case None => []
    case Some(v) => [Put(s, "enabled", JBool(Truthy(v)))]
  }

  /** The fast-download key: `''` and `null` both clear it. */
  function KeyField(data: Config): (r: seq<Step>)
    ensures |r| == if Lookup(data, "fast_download", "key").Some? then 1 else 0
    ensures forall st :: st in r ==> st.Put? && st.section == "fast_download" && st.key == "key"
    ensures forall st :: st in r ==>
      var v := Lookup(data, "fast_download", "key").value;
      (st.value == JNull <==> v == JStr("") || v == JNull) && (st.value != JNull ==> st.value == v)
  {
    match Lookup(data, "fast_download", "key")
    case None => []
    case Some(v) => [Put("fast_download", "key", if v == JStr("") || v == JNull then JNull else v)]
  }

  const DefaultFlareSolverrUrl := "http://localhost:8191"

  /** The FlareSolverr URL: a falsy value selects the default. */
  function UrlField(data: Config): (r: seq<Step>)
    ensures |r| == if Lookup(data, "flaresolverr", "url").Some? then 1 else 0
    ensures forall st :: st in r ==> st.Put? && st.section == "flaresolverr" && st.key == "url"
    ensures forall st :: st in r ==>
      var v := Lookup(data, "flaresolverr", "url").value;
      Truthy(st.value) && (Truthy(v) ==> st.value == v) && (!Truthy(v) ==> st.value == JStr(DefaultFlareSolverrUrl))
  {
    match Lookup(data, "flaresolverr", "url")
    case None => []
    case Some(v) => [Put("flaresolverr", "url", if Truthy(v) then v else JStr(DefaultFlareSolverrUrl))]
  }

  const MinTimeout := 10
  const MaxTimeout := 300

  /** The two sequential bounds checks on the timeout. */
  function Clamp(t: int): int {
    if t < MinTimeout then MinTimeout else if t > MaxTimeout then MaxTimeout else t
  }

  lemma ClampBounds(t: int)
    ensures MinTimeout <= Clamp(t) <= MaxTimeout
    ensures MinTimeout <= t <= MaxTimeout ==> Clamp(t) == t
    ensures Clamp(t) == if t > MaxTimeout then MaxTimeout else if t < MinTimeout then MinTimeout else t
  {
  }

  /** The FlareSolverr timeout, converted with `int()` and clamped. */
  function TimeoutField(data: Config): (r: seq<Step>)
    ensures forall st :: st in r && st.Put? ==> st.section == "flaresolverr" && st.key == "timeout"
  {
    match Lookup(data, "flaresolverr", "timeout")
    case None => []
    case Some(v) => [match ToInt(v) case Some(t) => Put("flaresolverr", "timeout", JInt(Clamp(t))) case None => Raise]
  }

  const Levels: seq<string> := ["DEBUG", "INFO", "WARNING", "ERROR"]

  /** The log level: upper-cased, written only when it names a level; `.upper()` raises on a non-string. */
  function LevelField(data: Config): (r: seq<Step>)
    ensures forall st :: st in r && st.Put? ==> st.section == "logging" && st.key == "level"
  {
    match Lookup(data, "logging", "level")
    case None => []
    case Some(v) =>
      [if !v.JStr? then Raise
       else if Upper(v.s) in Levels then Put("logging", "level", JStr(Upper(v.s)))
       else Skip]
  }

  function UsernameField(data: Config): (r: seq<Step>)
    ensures forall st :: st in r && st.Put? ==> st.section == "login" && st.key == "username"
  {
    match Lookup(data, "login", "username")
    case None => []
    case Some(v) => [if Truthy(v) then Put("login", "username", v) else Skip]
  }

  /** A new password is stored as `hash(password)` under `password`. */
  function PasswordField(data: Config, hash: Json -> string): (r: seq<Step>)
    ensures forall st :: st in r && st.Put? ==> st.section == "login" && st.key == "password"
  {
    match Lookup(data, "login", "new_password")
    case None => []
    case Some(v) => [if Truthy(v) then Put("login", "password", JStr(hash(v))) else Skip]
  }

  function DownloadsSteps(data: Config): seq<Step> {
    IntField(data, "downloads", "delay")
    + (IntField(data, "downloads", "retry_count") + IntField(data, "downloads", "resume_attempts"))
  }

  function FastDownloadSteps(data: Config): seq<Step> {
    EnabledField(data, "fast_download") + KeyField(data)
  }

  function FlareSolverrSteps(data: Config): seq<Step> {
    EnabledField(data, "flaresolverr") + (UrlField(data) + TimeoutField(data))
  }

  function QueueSteps(data: Config): seq<Step> {
    IntField(data, "queue", "max_history")
  }

  /** The login section is read only for a logged-in session. */
  function LoginSteps(data: Config, loggedIn: bool, hash: Json -> string): seq<Step> {
    if loggedIn then UsernameField(data) + PasswordField(data, hash) else []
  }

  /** The steps a request body calls for, in the handler's order. */
  function Steps(data: Config, loggedIn: bool, hash: Json -> string): seq<Step> {
    DownloadsSteps(data)
    + (FastDownloadSteps(data)
       + (FlareSolverrSteps(data)
          + (QueueSteps(data) + (LevelField(data) + LoginSteps(data, loggedIn, hash)))))
  }

  /**
   * The configuration left in memory by one update request, and whether every
   * write went through (so that the configuration is saved and 200 returned).
   * A body that is not a JSON object (`None`) raises at the first membership test.
   */
  function UpdateSpec(c: Config, body: Option<Config>, loggedIn: bool, hash: Json -> string): (Config, bool) {
    if body.None? then (c, false) else Apply(c, Steps(body.value, loggedIn, hash))
  }

  // ---------------------------------------------------------------- what an update writes

  /** The request names field `k` of section `s`; a submitted `new_password` names the stored `password`. */
  predicate Requested(data: Config, s: string, k: string) {
    Lookup(data, s, k).Some? || (s == "login" && k == "password" && Lookup(data, "login", "new_password").Some?)
  }

  /**
   * `v` is what the handler stores in field (`s`, `k`) for the submitted `data`: the
   * field is one the handler knows, it was submitted (login fields only in a logged-in
   * session), and `v` is the submitted value after that field's conversion.
   */
  predicate WriteAllowed(data: Config, loggedIn: bool, hash: Json -> string, s: string, k: string, v: Json) {
    var sub := Lookup(data, s, k);
    if s == "login" && k == "password" then
      var pw := Lookup(data, "login", "new_password");
      loggedIn && pw.Some? && Truthy(pw.value) && v == JStr(hash(pw.value))
    else if sub.None? then false
    else if s == "login" then loggedIn && k == "username" && Truthy(sub.value) && v == sub.value
    else if (s == "fast_download" || s == "flaresolverr") && k == "enabled" then v == JBool(Truthy(sub.value))
    else if s == "fast_download" && k == "key" then
      v == (if sub.value == JStr("") || sub.value == JNull then JNull else sub.value)
    else if s == "flaresolverr" && k == "url" then
      v == (if Truthy(sub.value) then sub.value else JStr(DefaultFlareSolverrUrl))
    else if s == "flaresolverr" && k == "timeout" then
      ToInt(sub.value).Some? && v == JInt(Clamp(ToInt(sub.value).value))
    else if s == "logging" && k == "level" then
      sub.value.JStr? && Upper(sub.value.s) in Levels && v == JStr(Upper(sub.value.s))
    else if (s == "downloads" && (k == "delay" || k == "retry_count" || k == "resume_attempts"))
         || (s == "queue" && k == "max_history") then
      ToInt(sub.value).Some? && v == JInt(ToInt(sub.value).value)
    else false
  }

  lemma DownloadsAllowed(data: Config, loggedIn: bool, hash: Json -> string, st: Step)
    requires st in DownloadsSteps(data) && st.Put?
    ensures WriteAllowed(data, loggedIn, hash, st.section, st.key, st.value)
  {
    if st in IntField(data, "downloads", "delay") {
    } else if st in IntField(data, "downloads", "retry_count") {
    } else {
      assert st in IntField(data, "downloads", "resume_attempts");
    }
  }

  lemma FlareSolverrAllowed(data: Config, loggedIn: bool, hash: Json -> string, st: Step)
    requires st in FlareSolverrSteps(data) && st.Put?
    ensures WriteAllowed(data, loggedIn, hash, st.section, st.key, st.value)
  {
    if st in EnabledField(data, "flaresolverr") {
    } else if st in UrlField(data) {
    } else {
      assert st in TimeoutField(data);
    }
  }

  lemma LoginAllowed(data: Config, loggedIn: bool, hash: Json -> string, st: Step)
    requires st in LoginSteps(data, loggedIn, hash) && st.Put?
    ensures WriteAllowed(data, loggedIn, hash, st.section, st.key, st.value)
  {
    if st in UsernameField(data) {
    } else {
      assert st in PasswordField(data, hash);
    }
  }

  /** Every write the steps call for is an allowed one. */
  lemma StepsAllowed(data: Config, loggedIn: bool, hash: Json -> string, st: Step)
    requires st in Steps(data, loggedIn, hash) && st.Put?
    ensures WriteAllowed(data, loggedIn, hash, st.section, st.key, st.value)
  {
    if st in DownloadsSteps(data) {
      DownloadsAllowed(data, loggedIn, hash, st);
    } else if st in FastDownloadSteps(data) {
      assert st in EnabledField(data, "fast_download") || st in KeyField(data);
    } else if st in FlareSolverrSteps(data) {
      FlareSolverrAllowed(data, loggedIn, hash, st);
    } else if st in QueueSteps(data) {
    } else if st in LevelField(data) {
    } else {
      LoginAllowed(data, loggedIn, hash, st);
    }
  }

  /**
   * A field an update changes is a submitted, known field (a login field only in a
   * logged-in session), and its new value is the submitted one after conversion.
   */
  lemma UpdateWrites(c: Config, body: Option<Config>, loggedIn: bool, hash: Json -> string, s: string, k: string)
    ensures var after := UpdateSpec(c, body, loggedIn, hash).0;
      Lookup(after, s, k) != Lookup(c, s, k) ==>
        body.Some? && Lookup(after, s, k).Some? && WriteAllowed(body.value, loggedIn, hash, s, k, Lookup(after, s, k).value)
  {
    if body.Some? {
      var steps := Steps(body.value, loggedIn, hash);
      var after := Apply(c, steps).0;
      ApplyFrom(c, steps, s, k);
      if Lookup(after, s, k) != Lookup(c, s, k) {
        StepsAllowed(body.value, loggedIn, hash, Put(s, k, Lookup(after, s, k).value));
      }
    }
  }

  /** Fields the request does not name keep their values, and so does every login field without a session. */
  lemma UpdateKeepsUnrequested(c: Config, body: Option<Config>, loggedIn: bool, hash: Json -> string, s: string, k: string)
    requires body.None? || !Requested(body.value, s, k) || (s == "login" && !loggedIn)
    ensures Lookup(UpdateSpec(c, body, loggedIn, hash).0, s, k) == Lookup(c, s, k)
  {
    UpdateWrites(c, body, loggedIn, hash, s, k);
  }

  /** Whatever an update stores as the FlareSolverr timeout lies between 10 and 300 seconds. */
  lemma UpdateTimeoutInRange(c: Config, body: Option<Config>, loggedIn: bool, hash: Json -> string)
    ensures var t := Lookup(UpdateSpec(c, body, loggedIn, hash).0, "flaresolverr", "timeout");
      t == Lookup(c, "flaresolverr", "timeout") || (t.Some? && t.value.JInt? && MinTimeout <= t.value.i <= MaxTimeout)
  {
    UpdateWrites(c, body, loggedIn, hash, "flaresolverr", "timeout");
  }

  /** A submitted level that upper-cases to none of the four levels leaves `logging.level` as it was. */
  lemma UpdateIgnoresUnknownLevel(c: Config, data: Config, loggedIn: bool, hash: Json -> string, level: string)
    requires Lookup(data, "logging", "level") == Some(JStr(level)) && Upper(level) !in Levels
    ensures Lookup(UpdateSpec(c, Some(data), loggedIn, hash).0, "logging", "level") == Lookup(c, "logging", "level")
  {
    UpdateWrites(c, Some(data), loggedIn, hash, "logging", "level");
  }

  /** An empty username or an empty new password changes nothing; a stored password is always a hash. */
  lemma UpdateCredentials(c: Config, data: Config, loggedIn: bool, hash: Json -> string)
    ensures var after := UpdateSpec(c, Some(data), loggedIn, hash).0;
      (Lookup(data, "login", "username").Some? && !Truthy(Lookup(data, "login", "username").value)
       ==> Lookup(after, "login", "username") == Lookup(c, "login", "username"))
      && (Lookup(after, "login", "password") != Lookup(c, "login", "password")
          ==> loggedIn && Lookup(data, "login", "new_password").Some?
              && Lookup(after, "login", "password") == Some(JStr(hash(Lookup(data, "login", "new_password").value))))
  {
    UpdateWrites(c, Some(data), loggedIn, hash, "login", "username");
    UpdateWrites(c, Some(data), loggedIn, hash, "login", "password");
  }

  /** When the update succeeds, a submitted timeout `t` is stored as `min(300, max(10, t))`. */
  lemma UpdateStoresTimeout(c: Config, data: Config, loggedIn: bool, hash: Json -> string)
    requires Lookup(data, "flaresolverr", "timeout").Some?
    requires UpdateSpec(c, Some(data), loggedIn, hash).1
    ensures ToInt(Lookup(data, "flaresolverr", "timeout").value).Some?
    ensures Lookup(UpdateSpec(c, Some(data), loggedIn, hash).0, "flaresolverr", "timeout")
         == Some(JInt(Clamp(ToInt(Lookup(data, "flaresolverr", "timeout").value).value)))
  {
    var d, fd, e, u, timeout := DownloadsSteps(data), FastDownloadSteps(data),
      EnabledField(data, "flaresolverr"), UrlField(data), TimeoutField(data);
    var post := QueueSteps(data) + (LevelField(data) + LoginSteps(data, loggedIn, hash));
    ApplyConcat(c, d, fd + (FlareSolverrSteps(data) + post));
    var c1 := Apply(c, d).0;
    ApplyConcat(c1, fd, FlareSolverrSteps(data) + post);
    var c2 := Apply(c1, fd).0;
    ApplyConcat(c2, FlareSolverrSteps(data), post);
    ApplyConcat(c2, e, u + timeout);
    var c3 := Apply(c2, e).0;
    ApplyConcat(c3, u, timeout);
    var c4 := Apply(c3, u).0;
    var t := ToInt(Lookup(data, "flaresolverr", "timeout").value);
    assert t.Some? && timeout == [Put("flaresolverr", "timeout", JInt(Clamp(t.value)))];
    var c5 := Apply(c4, timeout).0;
    assert Lookup(c5, "flaresolverr", "timeout") == Some(JInt(Clamp(t.value)));
    assert forall st :: st in post && st.Put? ==> st.section != "flaresolverr" by {
      forall st | st in post && st.Put?
        ensures st.section != "flaresolverr"
      {
        if st in LoginSteps(data, loggedIn, hash) {
          assert st in UsernameField(data) || st in PasswordField(data, hash);
        }
      }
    }
    ApplyFrom(c5, post, "flaresolverr", "timeout");
  }

  /** A write that no later step overwrites, in a run that goes through, is what the field ends up holding. */
  lemma ApplyStores(c: Config, pre: seq<Step>, s: string, k: string, v: Json, post: seq<Step>)
    requires Apply(c, pre + ([Put(s, k, v)] + post)).1
    requires forall st :: st in post && st.Put? ==> st.section != s || st.key != k
    ensures Lookup(Apply(c, pre + ([Put(s, k, v)] + post)).0, s, k) == Some(v)
  {
    ApplyConcat(c, pre, [Put(s, k, v)] + post);
    var c1 := Apply(c, pre).0;
    ApplyConcat(c1, [Put(s, k, v)], post);
    assert ([Put(s, k, v)] + post)[1..] == post;
    var c2 := Set(c1, s, k, v);
    ApplyFrom(c2, post, s, k);
  }

  /** No write of the FlareSolverr, queue, logging or login steps touches the fast-download section. */
  lemma LaterStepsSkipFastDownload(data: Config, loggedIn: bool, hash: Json -> string, st: Step)
    requires st.Put?
    requires st in FlareSolverrSteps(data) + (QueueSteps(data) + (LevelField(data) + LoginSteps(data, loggedIn, hash)))
    ensures st.section != "fast_download"
  {
    if st in FlareSolverrSteps(data) {
      assert st in EnabledField(data, "flaresolverr") || st in UrlField(data) || st in TimeoutField(data);
    } else if st in LoginSteps(data, loggedIn, hash) {
      assert st in UsernameField(data) || st in PasswordField(data, hash);
    }
  }

  /** The steps before and after the key step. */
  lemma StepsAroundKey(data: Config, loggedIn: bool, hash: Json -> string)
    ensures Steps(data, loggedIn, hash)
         == (DownloadsSteps(data) + EnabledField(data, "fast_download"))
            + (KeyField(data) + (FlareSolverrSteps(data) + (QueueSteps(data) + (LevelField(data) + LoginSteps(data, loggedIn, hash)))))
  {
    var d, e, k := DownloadsSteps(data), EnabledField(data, "fast_download"), KeyField(data);
    var post := FlareSolverrSteps(data) + (QueueSteps(data) + (LevelField(data) + LoginSteps(data, loggedIn, hash)));
    assert Steps(data, loggedIn, hash) == d + ((e + k) + post);
    RegroupKey(d, e, k, post);
  }

  lemma RegroupKey(a: seq<Step>, b: seq<Step>, c: seq<Step>, d: seq<Step>)
    ensures a + ((b + c) + d) == (a + b) + (c + d)
  {
  }

  /** The steps before and after the URL step. */
  lemma StepsAroundUrl(data: Config, loggedIn: bool, hash: Json -> string)
    ensures Steps(data, loggedIn, hash)
         == (DownloadsSteps(data) + FastDownloadSteps(data) + EnabledField(data, "flaresolverr"))
            + (UrlField(data) + (TimeoutField(data) + (QueueSteps(data) + (LevelField(data) + LoginSteps(data, loggedIn, hash)))))
  {
    var d, fd, e, u, t := DownloadsSteps(data), FastDownloadSteps(data), EnabledField(data, "flaresolverr"),
      UrlField(data), TimeoutField(data);
    var later := QueueSteps(data) + (LevelField(data) + LoginSteps(data, loggedIn, hash));
    assert Steps(data, loggedIn, hash) == d + (fd + ((e + (u + t)) + later));
    Regroup(d, fd, e, u, t, later);
  }

  lemma Regroup(a: seq<Step>, b: seq<Step>, c: seq<Step>, d: seq<Step>, e: seq<Step>, f: seq<Step>)
    ensures a + (b + ((c + (d + e)) + f)) == (a + b + c) + (d + (e + f))
  {
  }

  /** No write after the URL step touches the URL. */
  lemma LaterStepsSkipUrl(data: Config, loggedIn: bool, hash: Json -> string, st: Step)
    requires st.Put?
    requires st in TimeoutField(data) + (QueueSteps(data) + (LevelField(data) + LoginSteps(data, loggedIn, hash)))
    ensures st.section != "flaresolverr" || st.key != "url"
  {
    if st in LoginSteps(data, loggedIn, hash) {
      assert st in UsernameField(data) || st in PasswordField(data, hash);
    }
  }

  /**
   * When the update succeeds, a submitted fast-download key is stored as it came,
   * except that `''` and `null` are both stored as `null`.
   */
  lemma UpdateStoresKey(c: Config, data: Config, loggedIn: bool, hash: Json -> string)
    requires Lookup(data, "fast_download", "key").Some?
    requires UpdateSpec(c, Some(data), loggedIn, hash).1
    ensures var v := Lookup(data, "fast_download", "key").value;
      Lookup(UpdateSpec(c, Some(data), loggedIn, hash).0, "fast_download", "key")
        == Some(if v == JStr("") || v == JNull then JNull else v)
  {
    var v := Lookup(data, "fast_download", "key").value;
    var stored := if v == JStr("") || v == JNull then JNull else v;
    var d, e := DownloadsSteps(data), EnabledField(data, "fast_download");
    var post := FlareSolverrSteps(data) + (QueueSteps(data) + (LevelField(data) + LoginSteps(data, loggedIn, hash)));
    StepsAroundKey(data, loggedIn, hash);
    assert KeyField(data) == [Put("fast_download", "key", stored)];
    forall st | st in post && st.Put?
      ensures st.section != "fast_download" || st.key != "key"
    {
      LaterStepsSkipFastDownload(data, loggedIn, hash, st);
    }
    ApplyStores(c, d + e, "fast_download", "key", stored, post);
  }

  /**
   * When the update succeeds, a submitted FlareSolverr URL is stored if it is truthy;
   * a falsy one stores the default `http://localhost:8191`.
   */
  lemma UpdateStoresUrl(c: Config, data: Config, loggedIn: bool, hash: Json -> string)
    requires Lookup(data, "flaresolverr", "url").Some?
    requires UpdateSpec(c, Some(data), loggedIn, hash).1
    ensures var v := Lookup(data, "flaresolverr", "url").value;
      Lookup(UpdateSpec(c, Some(data), loggedIn, hash).0, "flaresolverr", "url")
        == Some(if Truthy(v) then v else JStr(DefaultFlareSolverrUrl))
  {
    var v := Lookup(data, "flaresolverr", "url").value;
    var stored := if Truthy(v) then v else JStr(DefaultFlareSolverrUrl);
    var pre := DownloadsSteps(data) + FastDownloadSteps(data) + EnabledField(data, "flaresolverr");
    var post := TimeoutField(data) + (QueueSteps(data) + (LevelField(data) + LoginSteps(data, loggedIn, hash)));
    StepsAroundUrl(data, loggedIn, hash);
    assert UrlField(data) == [Put("flaresolverr", "url", stored)];
    forall st | st in post && st.Put?
      ensures st.section != "flaresolverr" || st.key != "url"
    {
      LaterStepsSkipUrl(data, loggedIn, hash, st);
    }
    ApplyStores(c, pre, "flaresolverr", "url", stored, post);
  }

  /**
   * An update that fails part-way keeps the writes before the failure in memory:
   * a good delay with a retry count `int()` rejects stores the delay and reports failure.
   */
  lemma UpdateFailureKeepsEarlierWrites(c: Config, loggedIn: bool, hash: Json -> string)
    ensures UpdateSpec(c, Some(map["downloads" := map["delay" := JInt(5), "retry_count" := JStr("many")]]), loggedIn, hash)
         == (Set(c, "downloads", "delay", JInt(5)), false)
  {
    var data := map["downloads" := map["delay" := JInt(5), "retry_count" := JStr("many")]];
    assert Strip("many") == "many" by {
      StripUnpadded("many");
    }
    assert !AllDigits("many");
    assert IntField(data, "downloads", "retry_count") == [Raise];
    ApplyConcat(c, IntField(data, "downloads", "delay"),
      IntField(data, "downloads", "retry_count") + IntField(data, "downloads", "resume_attempts"));
    var rest := FastDownloadSteps(data) + (FlareSolverrSteps(data)
      + (QueueSteps(data) + (LevelField(data) + LoginSteps(data, loggedIn, hash))));
    ApplyConcat(c, DownloadsSteps(data), rest);
  }

  // ---------------------------------------------------------------- masking

  const Masked := "***MASKED***"

  /** The two stored secrets the answers never show. */
  predicate Sensitive(s: string, k: string) {
    (s == "api" && k == "key") || (s == "login" && k == "password")
  }

  /** The configuration as answered: the same sections and keys, the secrets replaced. */
  function Mask(c: Config): Config {
    map s | s in c :: map k | k in c[s] :: if Sensitive(s, k) then JStr(Masked) else c[s][k]
  }

  /** The deep copy with `api.key` and `login.password` overwritten, when present. */
  method MaskedCopy(c: Config) returns (r: Config)
    ensures r == Mask(c)
  {
    r := c;
    if "api" in r && "key" in r["api"] {
      r := r["api" := r["api"]["key" := JStr(Masked)]];
    }
    if "login" in r && "password" in r["login"] {
      r := r["login" := r["login"]["password" := JStr(Masked)]];
    }
    assert forall s | s in c :: r[s] == Mask(c)[s];
  }

  /** Masking keeps every section and key, hides exactly the two secrets and shows the rest. */
  lemma MaskShows(c: Config, s: string, k: string)
    ensures s in Mask(c) <==> s in c
    ensures Lookup(Mask(c), s, k).Some? <==> Lookup(c, s, k).Some?
    ensures Lookup(c, s, k).Some? && Sensitive(s, k) ==> Lookup(Mask(c), s, k) == Some(JStr(Masked))
    ensures !Sensitive(s, k) ==> Lookup(Mask(c), s, k) == Lookup(c, s, k)
  {
  }

  /** The fast-download key is not one of the masked secrets: the answers show it. */
  lemma FastKeyShown(c: Config)
    ensures Lookup(Mask(c), "fast_download", "key") == Lookup(c, "fast_download", "key")
  {
  }

  lemma MaskIdempotent(c: Config)
    ensures Mask(Mask(c)) == Mask(c)
  {
    var m := Mask(c);
    assert forall s | s in m :: Mask(m)[s] == m[s];
  }

  // ---------------------------------------------------------------- the store

  /** The live configuration object and what was last saved to disk. */
  class ConfigStore {
    var values: Config
    var saved: Config

    constructor (values: Config)
      ensures this.values == values && saved == values
    {
      this.values := values;
      saved := values;
    }

    /** `GET /api/config`: a masked copy; the store itself is left as it is. */
    method Get() returns (r: Config)
      ensures r == Mask(values)
    {
      r := MaskedCopy(values);
    }

    /** The `downloads` block: three `int()` conversions. */
    method UpdateDownloads(data: Config) returns (ok: bool)
      modifies this
      ensures (values, ok) == Apply(old(values), DownloadsSteps(data))
      ensures saved == old(saved)
    {
      ghost var c0 := values;
      ApplyConcat(c0, IntField(data, "downloads", "delay"),
        IntField(data, "downloads", "retry_count") + IntField(data, "downloads", "resume_attempts"));
      if "downloads" in data && "delay" in data["downloads"] {
        var n := ToInt(data["downloads"]["delay"]);
        if n.None? {
          return false;
        }
        values := Set(values, "downloads", "delay", JInt(n.value));
      }
      ghost var c1 := values;
      ApplyConcat(c1, IntField(data, "downloads", "retry_count"), IntField(data, "downloads", "resume_attempts"));
      if "downloads" in data && "retry_count" in data["downloads"] {
        var n := ToInt(data["downloads"]["retry_count"]);
        if n.None? {
          return false;
        }
        values := Set(values, "downloads", "retry_count", JInt(n.value));
      }
      if "downloads" in data && "resume_attempts" in data["downloads"] {
        var n := ToInt(data["downloads"]["resume_attempts"]);
        if n.None? {
          return false;
        }
        values := Set(values, "downloads", "resume_attempts", JInt(n.value));
      }
      return true;
    }

    /** The `fast_download` block: the flag and the key; nothing here raises. */
    method UpdateFastDownload(data: Config)
      modifies this
      ensures Apply(old(values), FastDownloadSteps(data)) == (values, true)
      ensures saved == old(saved)
    {
      ghost var c0 := values;
      ApplyConcat(c0, EnabledField(data, "fast_download"), KeyField(data));
      if "fast_download" in data && "enabled" in data["fast_download"] {
        values := Set(values, "fast_download", "enabled", JBool(Truthy(data["fast_download"]["enabled"])));
      }
      if "fast_download" in data && "key" in data["fast_download"] {
        var key := data["fast_download"]["key"];
        if key == JStr("") || key == JNull {
          key := JNull;
        }
        values := Set(values, "fast_download", "key", key);
      }
    }

    /** The `flaresolverr` block: the flag, the URL with its default, the clamped timeout. */
    method UpdateFlareSolverr(data: Config) returns (ok: bool)
      modifies this
      ensures (values, ok) == Apply(old(values), FlareSolverrSteps(data))
      ensures saved == old(saved)
    {
      ghost var c0 := values;
      ApplyConcat(c0, EnabledField(data, "flaresolverr"), UrlField(data) + TimeoutField(data));
      if "flaresolverr" in data && "enabled" in data["flaresolverr"] {
        values := Set(values, "flaresolverr", "enabled", JBool(Truthy(data["flaresolverr"]["enabled"])));
      }
      ghost var c1 := values;
      ApplyConcat(c1, UrlField(data), TimeoutField(data));
      if "flaresolverr" in data && "url" in data["flaresolverr"] {
        var url := data["flaresolverr"]["url"];
        if !Truthy(url) {
          url := JStr(DefaultFlareSolverrUrl);
        }
        values := Set(values, "flaresolverr", "url", url);
      }
      ok := UpdateTimeout(data);
    }

    /** The FlareSolverr timeout: `int()`, then the lower and the upper bound. */
    method UpdateTimeout(data: Config) returns (ok: bool)
      modifies this
      ensures (values, ok) == Apply(old(values), TimeoutField(data))
      ensures saved == old(saved)
    {
      if "flaresolverr" in data && "timeout" in data["flaresolverr"] {
        var t := ToInt(data["flaresolverr"]["timeout"]);
        if t.None? {
          return false;
        }
        var timeout := t.value;
        if timeout < MinTimeout {
          timeout := MinTimeout;
        }
        if timeout > MaxTimeout {
          timeout := MaxTimeout;
        }
        values := Set(values, "flaresolverr", "timeout", JInt(timeout));
      }
      return true;
    }

    /** The `queue` block. */
    method UpdateQueue(data: Config) returns (ok: bool)
      modifies this
      ensures (values, ok) == Apply(old(values), QueueSteps(data))
      ensures saved == old(saved)
    {
      if "queue" in data && "max_history" in data["queue"] {
        var n := ToInt(data["queue"]["max_history"]);
        if n.None? {
          return false;
        }
        values := Set(values, "queue", "max_history", JInt(n.value));
      }
      return true;
    }

    /** The `logging` block. */
    method UpdateLogging(data: Config) returns (ok: bool)
      modifies this
      ensures (values, ok) == Apply(old(values), LevelField(data))
      ensures saved == old(saved)
    {
      if "logging" in data && "level" in data["logging"] {
        var level := data["logging"]["level"];
        if !level.JStr? {
          return false;
        }
        var upper := Upper(level.s);
        if upper in Levels {
          values := Set(values, "logging", "level", JStr(upper));
        }
      }
      return true;
    }

    /** The `login` block, read only for a logged-in session. */
    method UpdateLogin(data: Config, loggedIn: bool, hash: Json -> string)
      modifies this
      ensures Apply(old(values), LoginSteps(data, loggedIn, hash)) == (values, true)
      ensures saved == old(saved)
    {
      if "login" in data && loggedIn {
        ghost var c0 := values;
        ApplyConcat(c0, UsernameField(data), PasswordField(data, hash));
        if "username" in data["login"] {
          var name := data["login"]["username"];
          if Truthy(name) {
            values := Set(values, "login", "username", name);
          }
        }
        if "new_password" in data["login"] {
          var password := data["login"]["new_password"];
          if Truthy(password) {
            values := Set(values, "login", "password", JStr(hash(password)));
          }
        }
      }
    }

    /**
     * `POST /api/config`: every write, then the save, then the masked copy; the first
     * exception skips the rest, the save included, and answers 400.
     */
    method Update(body: Option<Config>, loggedIn: bool, hash: Json -> string)
      returns (status: nat, answer: Option<Config>)
      modifies this
      ensures (values, status == 200) == UpdateSpec(old(values), body, loggedIn, hash)
      ensures status == 200 || status == 400
      ensures saved == if status == 200 then values else old(saved)
      ensures answer == if status == 200 then Some(Mask(values)) else None
    {
      if body.None? {
        return 400, None;
      }
      var data := body.value;
      var a, b, f, q, l, g := DownloadsSteps(data), FastDownloadSteps(data), FlareSolverrSteps(data),
        QueueSteps(data), LevelField(data), LoginSteps(data, loggedIn, hash);
      ghost var c0 := values;
      ApplyConcat(c0, a, b + (f + (q + (l + g))));
      var ok := UpdateDownloads(data);
      if !ok {
        return 400, None;
      }
      ghost var c1 := values;
      ApplyConcat(c1, b, f + (q + (l + g)));
      UpdateFastDownload(data);
      ghost var c2 := values;
      ApplyConcat(c2, f, q + (l + g));
      ok := UpdateFlareSolverr(data);
      if !ok {
        return 400, None;
      }
      ghost var c3 := values;
      ApplyConcat(c3, q, l + g);
      ok := UpdateQueue(data);
      if !ok {
        return 400, None;
      }
      ghost var c4 := values;
      ApplyConcat(c4, l, g);
      ok := UpdateLogging(data);
      if !ok {
        return 400, None;
      }
      UpdateLogin(data, loggedIn, hash);
      saved := values;
      var copy := MaskedCopy(values);
      return 200, Some(copy);
    }
  }

  // ---------------------------------------------------------------- test_key

  /** The probe `test_key` sends: always to the default API URL, never to the configured one. */
  datatype KeyProbe = KeyProbe(url: string, md5: string, key: string, timeout: nat)

  const KeyTestTimeout := 10

  /** The JSON answer of `test_key`. */
  datatype KeyAnswer =
    | KeyValid(downloadsLeft: Option<int>, downloadsPerDay: Option<int>)
    | KeyRejected(error: string)
    | ConnectionFailed(detail: Option<string>)

  /** The HTTP status, the answer, the probe sent, and the downloader's record afterwards. */
  datatype KeyTest = KeyTest(status: nat, answer: KeyAnswer, sent: Option<KeyProbe>, info: FastInfo)

  /** A 200 answer with a download URL: the record is refreshed only when the key is the downloader's own. */
  function KeyAccepted(downloaderKey: Option<string>, info: FastInfo, key: string, a: AccountInfo, now: int, sent: Option<KeyProbe>): (r: KeyTest)
    ensures r.status == 200 && r.answer == KeyValid(GetOpt(a.downloadsLeft), GetOpt(a.downloadsPerDay))
  {
    KeyTest(200, KeyValid(GetOpt(a.downloadsLeft), GetOpt(a.downloadsPerDay)), sent,
      if downloaderKey == Some(key) then Merge(info, a, now) else info)
  }

  /**
   * `POST /api/config/test_key` with the submitted `key`, answered by `reply` at time
   * `now`, for a downloader configured with `downloaderKey` and holding `info`.
   * A missing account block reads as `{}`; a `null` one raises on `.get`.
   */
  function TestKey(downloaderKey: Option<string>, info: FastInfo, key: Option<string>, reply: ApiReply, now: int): (r: KeyTest)
    ensures r.sent.Some? <==> key.Some? && key.value != ""
    ensures r.sent.Some? ==> r.sent == Some(KeyProbe(DefaultApiUrl, ProbeMd5, key.value, KeyTestTimeout))
  {
    if key.None? || key.value == "" then KeyTest(400, KeyRejected("No key provided"), None, info)
    else
      var sent := Some(KeyProbe(DefaultApiUrl, ProbeMd5, key.value, KeyTestTimeout));
      match reply
      case ApiFailed(reason) => KeyTest(500, ConnectionFailed(Some(reason)), sent, info)
      case ApiAnswer(status, body) =>
        if status == 200 then
          if body.Unparseable? then KeyTest(500, ConnectionFailed(None), sent, info)
          else if !HasUrl(body) then KeyTest(400, KeyRejected("No download URL in response"), sent, info)
          else
            match body.account
            case Null => KeyTest(500, ConnectionFailed(Some(NoneGet)), sent, info)
            case Absent => KeyAccepted(downloaderKey, info, key.value, AccountInfo(Absent, Absent, Absent), now, sent)
            case Present(a) => KeyAccepted(downloaderKey, info, key.value, a, now, sent)
        else if status == 401 then KeyTest(401, KeyRejected("Invalid secret key"), sent, info)
        else if status == 403 then KeyTest(403, KeyRejected("Not a member"), sent, info)
        else KeyTest(400, KeyRejected("API returned status " + NatToString(status)), sent, info)
  }

  /** `test_key` against the live downloader: its quota record is the only thing it may change. */
  method TestFastKey(downloader: Downloader.AnnaDownloader, key: Option<string>, reply: ApiReply, now: int)
    returns (status: nat, answer: KeyAnswer, sent: Option<KeyProbe>)
    modifies downloader
    ensures TestKey(downloader.cfg.key, old(downloader.info), key, reply, now) == KeyTest(status, answer, sent, downloader.info)
    ensures downloader.files == old(downloader.files) && downloader.parts == old(downloader.parts)
  {
    if key.None? || key.value == "" {
      return 400, KeyRejected("No key provided"), None;
    }
    sent := Some(KeyProbe(DefaultApiUrl, ProbeMd5, key.value, KeyTestTimeout));
    if reply.ApiFailed? {
      return 500, ConnectionFailed(Some(reply.reason)), sent;
    }
    if reply.status == 200 {
      var body := reply.body;
      if body.Unparseable? {
        return 500, ConnectionFailed(None), sent;
      }
      if !(body.downloadUrl.Present? && body.downloadUrl.value != "") {
        return 400, KeyRejected("No download URL in response"), sent;
      }
      var account := if body.account.Present? then body.account.value else AccountInfo(Absent, Absent, Absent);
      if body.account.Null? {
        return 500, ConnectionFailed(Some(NoneGet)), sent;
      }
      if downloader.cfg.key == Some(key.value) {
        downloader.info := downloader.info.(
          available := true,
          downloadsLeft := GetOpt(account.downloadsLeft),
          downloadsPerDay := GetOpt(account.downloadsPerDay),
          recent := GetOr(account.recent, []),
          lastRefresh := now);
      }
      return 200, KeyValid(GetOpt(account.downloadsLeft), GetOpt(account.downloadsPerDay)), sent;
    } else if reply.status == 401 {
      return 401, KeyRejected("Invalid secret key"), sent;
    } else if reply.status == 403 {
      return 403, KeyRejected("Not a member"), sent;
    }
    return 400, KeyRejected("API returned status " + NatToString(reply.status)), sent;
  }

  /**
   * The record changes only after a 200 answer carrying a download URL, for the
   * downloader's own key; and then it is the merged account block, stamped `now`.
   */
  lemma TestKeyGuard(downloaderKey: Option<string>, info: FastInfo, key: Option<string>, reply: ApiReply, now: int)
    ensures var r := TestKey(downloaderKey, info, key, reply, now);
      r.info != info ==>
        r.status == 200 && reply.ApiAnswer? && reply.status == 200 && HasUrl(reply.body)
        && key.Some? && downloaderKey == key
        && r.info.available && r.info.lastRefresh == now
  {
  }

  /** Conversely, such an answer for the downloader's own key always refreshes the record. */
  lemma TestKeyRefreshes(downloaderKey: Option<string>, info: FastInfo, key: string, body: ApiBody, now: int)
    requires key != "" && downloaderKey == Some(key)
    requires HasUrl(body) && !body.account.Null?
    ensures var r := TestKey(downloaderKey, info, Some(key), ApiAnswer(200, body), now);
      r.status == 200
      && r.info == Merge(info, if body.account.Present? then body.account.value else AccountInfo(Absent, Absent, Absent), now)
  {
  }

  /** Success, status 200 and a `KeyValid` answer coincide. */
  lemma TestKeyStatus(downloaderKey: Option<string>, info: FastInfo, key: Option<string>, reply: ApiReply, now: int)
    ensures var r := TestKey(downloaderKey, info, key, reply, now);
      (r.status == 200 <==> r.answer.KeyValid?)
      && (r.answer.KeyValid? <==>
           (key.Some? && key.value != "" && reply.ApiAnswer? && reply.status == 200
            && HasUrl(reply.body) && !reply.body.account.Null?))
      && (reply.ApiAnswer? && reply.status == 401 && r.sent.Some? ==> r.status == 401)
      && (reply.ApiAnswer? && reply.status == 403 && r.sent.Some? ==> r.status == 403)
  {
  }

  /**
   * With the account block present, `test_key` for the downloader's own key leaves the
   * same record as a forced `refresh_fast_download_info` would.
   */
  lemma TestKeyAgreesWithRefresh(cfg: FastConfig, info: FastInfo, body: ApiBody, now: int)
    requires Configured(cfg) && HasUrl(body) && body.account.Present?
    ensures TestKey(cfg.key, info, cfg.key, ApiAnswer(200, body), now).info
         == Refresh(cfg, info, true, ApiAnswer(200, body), now).info
  {
  }

  /**
   * Without an account block, `test_key` still marks the record available but forgets
   * the known quota, where a forced refresh leaves the record as it was.
   */
  lemma TestKeyWithoutAccount(cfg: FastConfig, info: FastInfo, url: string, error: Field<string>, now: int)
    requires Configured(cfg) && url != ""
    ensures var body := Body(Present(url), error, Absent);
      var r := TestKey(cfg.key, info, cfg.key, ApiAnswer(200, body), now);
      r.info == FastInfo(true, None, None, Some([]), now)
      && Refresh(cfg, info, true, ApiAnswer(200, body), now).info == info
  {
  }
}
