/**
 * Destination naming for a download: pathlib's view of a file name (name, stem, suffix),
 * collision-free naming in the output directory (`get_unique_filename`), and the
 * extension and file name that `download_direct` derives from the response headers,
 * the title and the URL.
 */
module Naming {
  import opened Wrappers
  import opened Text
  import Md5

  // ---------------------------------------------------------------- pathlib

  /** `name.rfind('.')` */
  function LastDot(name: string): (r: Option<nat>)
    ensures r.Some? ==> r.value < |name| && name[r.value] == '.'
    ensures r.Some? ==> forall j :: r.value < j < |name| ==> name[j] != '.'
    ensures r.None? ==> forall j :: 0 <= j < |name| ==> name[j] != '.'
  {
    if name == [] then None
    else if name[|name| - 1] == '.' then Some(|name| - 1)
    else LastDot(name[..|name| - 1])
  }

  /** A name without a dot has no last dot. */
  lemma {:induction false} NoDotLastDot(name: string)
    requires forall j :: 0 <= j < |name| ==> name[j] != '.'
    ensures LastDot(name) == None
    decreases |name|
  {
    if name != [] {
      NoDotLastDot(name[..|name| - 1]);
    }
  }

  /** A dot with no dot after it is the last one. */
  lemma LastDotAt(name: string, i: nat)
    requires i < |name| && name[i] == '.' && forall j :: i < j < |name| ==> name[j] != '.'
    ensures LastDot(name) == Some(i)
  {
  }

  /** `PurePath(name).suffix`: from the last dot, when that dot is neither first nor last. */
  function Suffix(name: string): string {
    match LastDot(name)
    case Some(i) => if 0 < i < |name| - 1 then name[i..] else ""
    case None => ""
  }

  /** `PurePath(name).stem`: the name without its suffix. */
  function Stem(name: string): string {
    match LastDot(name)
    case Some(i) => if 0 < i < |name| - 1 then name[..i] else name
    case None => name
  }

  /** Stem and suffix split a name: put back together they give the name. */
  lemma StemSuffix(name: string)
    ensures Stem(name) + Suffix(name) == name
    ensures Suffix(name) == "" || (Suffix(name)[0] == '.' && |Suffix(name)| >= 2)
  {
  }

  /** The last proper component: empty and `.` components do not count, as in pathlib. */
  function LastComponent(parts: seq<string>): string {
    if parts == [] then ""
    else if parts[|parts| - 1] == "" || parts[|parts| - 1] == "." then LastComponent(parts[..|parts| - 1])
    else parts[|parts| - 1]
  }

  /** `PurePosixPath(p).name` */
  function PathName(p: string): string {
    LastComponent(Split(p, "/"))
  }

  // ---------------------------------------------------------------- unique names

  /** The name `get_unique_filename` tries for counter `n`: `f"{stem} ({n}){suffix}"`. */
  function Candidate(name: string, n: nat): string {
    Stem(name) + " (" + NatToString(n) + ")" + Suffix(name)
  }

  /** Different counters give different candidate names. */
  lemma CandidateInjective(name: string, a: nat, b: nat)
    requires Candidate(name, a) == Candidate(name, b)
    ensures a == b
  {
    var st, su := Stem(name), Suffix(name);
    var da, db := NatToString(a), NatToString(b);
    var ca, cb := Candidate(name, a), Candidate(name, b);
    assert |da| == |db|;
    var lo := |st| + 2;
    assert ca[lo..lo + |da|] == da;
    assert cb[lo..lo + |db|] == db;
    NatToStringInjective(a, b);
  }

  /** A candidate is longer than the name it is made from, so never that name. */
  lemma CandidateLonger(name: string, n: nat)
    ensures |Candidate(name, n)| > |name|
  {
    StemSuffix(name);
  }

  /** The candidates for counters 1 .. n-1. */
  ghost function Candidates(name: string, n: nat): set<string> {
    if n <= 1 then {} else Candidates(name, n - 1) + {Candidate(name, n - 1)}
  }

  lemma {:induction false} CandidatesMembers(name: string, n: nat)
    ensures forall x :: x in Candidates(name, n) ==> exists k :: 1 <= k < n && x == Candidate(name, k)
    ensures forall k :: 1 <= k < n ==> Candidate(name, k) in Candidates(name, n)
  {
    if n > 1 {
      CandidatesMembers(name, n - 1);
    }
  }

  lemma {:induction false} CandidatesShape(name: string, n: nat)
    ensures name !in Candidates(name, n)
    ensures |Candidates(name, n)| == if n == 0 then 0 else n - 1
  {
    if n > 1 {
      CandidatesShape(name, n - 1);
      CandidatesMembers(name, n - 1);
      CandidateLonger(name, n - 1);
      var c := Candidate(name, n - 1);
      if c in Candidates(name, n - 1) {
        var k :| 1 <= k < n - 1 && c == Candidate(name, k);
        CandidateInjective(name, k, n - 1);
      }
      assert c !in Candidates(name, n - 1);
    }
  }

  lemma SubsetCard<T>(a: set<T>, b: set<T>)
    requires a <= b
    ensures |a| <= |b|
  {
    assert b == a + (b - a);
  }

  /** The first free counter from `n` on, when counters 1 .. n-1 are all taken. */
  function FreeFrom(name: string, existing: set<string>, n: nat): (r: nat)
    requires n >= 1 && name in existing && Candidates(name, n) <= existing
    ensures n <= r <= |existing|
    ensures Candidate(name, r) !in existing
    ensures forall k :: n <= k < r ==> Candidate(name, k) in existing
    decreases |existing| - n
  {
    CandidatesShape(name, n);
    SubsetCard(Candidates(name, n) + {name}, existing);
    if Candidate(name, n) !in existing then n
    else FreeFrom(name, existing, n + 1)
  }

  /**
   * `get_unique_filename` over the names present in the output directory: the name itself
   * when it is free, otherwise `stem (n)suffix` for the smallest free n >= 1; never an
   * existing name, and n is at most the number of existing names.
   */
  function UniqueName(name: string, existing: set<string>): (r: string)
    ensures r !in existing
    ensures name !in existing ==> r == name
    ensures name in existing ==>
      exists n :: 1 <= n <= |existing| && r == Candidate(name, n)
        && forall k :: 1 <= k < n ==> Candidate(name, k) in existing
  {
    if name !in existing then name
    else
      var n := FreeFrom(name, existing, 1);
      Candidate(name, n)
  }

  /** The counter loop of `get_unique_filename`. */
  method GetUniqueFilename(name: string, existing: set<string>) returns (r: string)
    ensures r == UniqueName(name, existing)
    ensures r !in existing
  {
    if name !in existing {
      return name;
    }
    var counter := 1;
    while true
      invariant 1 <= counter && Candidates(name, counter) <= existing
      invariant FreeFrom(name, existing, counter) == FreeFrom(name, existing, 1)
      decreases |existing| - counter
    {
      CandidatesShape(name, counter);
      SubsetCard(Candidates(name, counter) + {name}, existing);
      var newName := Candidate(name, counter);
      if newName !in existing {
        return newName;
      }
      counter := counter + 1;
    }
  }

  // ---------------------------------------------------------------- extensions

  /** The extensions looked for in the URL path and in a Content-Disposition file name. */
  const ListedExtensions: seq<string> := [".pdf", ".epub", ".mobi", ".azw3", ".cbr", ".cbz", ".djvu"]

  /** Every extension `download_direct` can choose. */
  predicate KnownExtension(ext: string) {
    ext in ListedExtensions || ext == ".bin"
  }

  /** The extension named by a (lower-cased) Content-Type, checked in this order. */
  function ContentTypeExtension(contentType: string): Option<string> {
    if Contains(contentType, "pdf") then Some(".pdf")
    else if Contains(contentType, "epub") then Some(".epub")
    else if Contains(contentType, "mobi") then Some(".mobi")
    else if Contains(contentType, "cbr") || Contains(contentType, "rar") then Some(".cbr")
    else if Contains(contentType, "cbz") || Contains(contentType, "zip") then Some(".cbz")
    else None
  }

  /** The first of `exts`, in list order, that occurs in `s`. */
  function FirstContained(s: string, exts: seq<string>): (r: Option<string>)
    ensures r.Some? ==> r.value in exts && Contains(s, r.value)
    ensures r.None? ==> forall e :: e in exts ==> !Contains(s, e)
  {
    if exts == [] then None
    else if Contains(s, exts[0]) then Some(exts[0])
    else FirstContained(s, exts[1..])
  }

  /** The first of `exts`, in list order, that `s` ends with. */
  function FirstEnding(s: string, exts: seq<string>): (r: Option<string>)
    ensures r.Some? ==> r.value in exts && EndsWith(s, r.value)
    ensures r.None? ==> forall e :: e in exts ==> !EndsWith(s, e)
  {
    if exts == [] then None
    else if EndsWith(s, exts[0]) then Some(exts[0])
    else FirstEnding(s, exts[1..])
  }

  /** `filename=` starts at `p` and is followed by at least one character on its line. */
  predicate FilenameFieldAt(cd: string, p: nat) {
    OccursAt(cd, "filename=", p) && p + 9 < |cd| && cd[p + 9] != '\n'
  }

  function FilenameFieldFrom(cd: string, from: nat): (r: Option<nat>)
    decreases |cd| - from
    ensures r.Some? ==> from <= r.value && FilenameFieldAt(cd, r.value)
    ensures r.Some? ==> forall j: nat :: from <= j < r.value ==> !FilenameFieldAt(cd, j)
    ensures r.None? ==> forall j: nat :: from <= j ==> !FilenameFieldAt(cd, j)
  {
    if from + 9 >= |cd| then None
    else if FilenameFieldAt(cd, from) then Some(from)
    else FilenameFieldFrom(cd, from + 1)
  }

  /** The end of the line that starts at or before `from`. */
  function LineEnd(s: string, from: nat): (r: nat)
    requires from <= |s|
    decreases |s| - from
    ensures from <= r <= |s| && (r < |s| ==> s[r] == '\n')
    ensures forall j :: from <= j < r ==> s[j] != '\n'
  {
    if from == |s| || s[from] == '\n' then from else LineEnd(s, from + 1)
  }

  /**
   * `re.findall('filename="?(.+)"?', cd)[0].strip('"')`: the rest of the line after the
   * leftmost usable `filename=`, with surrounding quotes removed. (Whether the optional
   * opening quote is consumed by the pattern does not matter once quotes are stripped.)
   */
  function DispositionFilename(cd: string): Option<string> {
    match FilenameFieldFrom(cd, 0)
    case Some(p) => Some(StripChar(cd[p + 9..LineEnd(cd, p + 9)], '"'))
    case None => None
  }

  /** The extension of the Content-Disposition file name after `unquote`, if the header has one. */
  function DispositionExtension(disposition: Option<string>, unquote: string -> string): Option<string> {
    if disposition.None? then None
    else
      match DispositionFilename(disposition.value)
      case Some(f) => FirstEnding(Lower(unquote(f)), ListedExtensions)
      case None => None
  }

  /**
   * The extension chosen by `download_direct`, by priority: the (lower-cased) content
   * type, then the URL path, then the Content-Disposition file name, then `.bin`.
   */
  function FileExtension(contentType: string, urlPath: string, disposition: Option<string>,
                         unquote: string -> string): (ext: string)
    ensures KnownExtension(ext)
  {
    match ContentTypeExtension(contentType)
    case Some(e) => e
    case None =>
      match FirstContained(Lower(urlPath), ListedExtensions)
      case Some(e) => e
      case None => DispositionExtension(disposition, unquote).GetOr(".bin")
  }

  /** The priority order of the three sources of an extension, and the `.bin` default. */
  lemma FileExtensionPriority(contentType: string, urlPath: string, disposition: Option<string>,
                                unquote: string -> string)
    ensures var ext := FileExtension(contentType, urlPath, disposition, unquote);
      && (ContentTypeExtension(contentType).Some? ==> ext == ContentTypeExtension(contentType).value)
      && (ContentTypeExtension(contentType).None? && Contains(Lower(urlPath), ".pdf") ==> ext == ".pdf")
      && (ContentTypeExtension(contentType).None? && FirstContained(Lower(urlPath), ListedExtensions).Some? ==>
            ext == FirstContained(Lower(urlPath), ListedExtensions).value)
      && (ContentTypeExtension(contentType).None? && FirstContained(Lower(urlPath), ListedExtensions).None? ==>
            ext == DispositionExtension(disposition, unquote).GetOr(".bin"))
      && (ext == ".bin" <==>
            ContentTypeExtension(contentType).None?
            && (forall e :: e in ListedExtensions ==> !Contains(Lower(urlPath), e))
            && DispositionExtension(disposition, unquote).None?)
  {
    var e := DispositionExtension(disposition, unquote);
    if e.Some? {
      var f := DispositionFilename(disposition.value).value;
      assert e.value in ListedExtensions;
    }
  }

  // ---------------------------------------------------------------- file names

  /** The characters `re.sub(r'[<>:"/\\|?*]', '_', s)` replaces. */
  predicate Illegal(c: char) {
    c == '<' || c == '>' || c == ':' || c == '"' || c == '/' || c == '\\' || c == '|' || c == '?' || c == '*'
  }

  /** Every illegal character replaced by `_`. */
  function Sanitize(s: string): (r: string)
    ensures |r| == |s|
    ensures forall i :: 0 <= i < |s| ==> r[i] == if Illegal(s[i]) then '_' else s[i]
  {
    seq(|s|, i requires 0 <= i < |s| => if Illegal(s[i]) then '_' else s[i])
  }

  /** A file name without any of the characters the sanitiser replaces (so without `/`). */
  predicate SafeName(s: string) {
    forall i :: 0 <= i < |s| ==> !Illegal(s[i])
  }

  /** The titles `download_direct` treats as placeholders (compared lower-cased). */
  predicate PlaceholderTitle(t: string) {
    var l := Lower(t);
    l == "unknown" || l == "anna's archive" || l == "annas archive"
  }

  /** The title is used for the file name when it is present, non-empty and no placeholder. */
  predicate UsableTitle(title: Option<string>) {
    title.Some? && title.value != "" && !PlaceholderTitle(title.value)
  }

  /** The name with `ext` appended unless it already ends with it, ignoring case. */
  function WithExtension(name: string, ext: string): (r: string)
    ensures |r| >= |ext| && |r| >= |name|
  {
    if EndsWith(Lower(name), Lower(ext)) then name else name + ext
  }

  /** `path.split('/')[-1]` */
  function LastSegment(path: string): string {
    var parts := Split(path, "/");
    parts[|parts| - 1]
  }

  /** `re.match(r'^[a-f0-9]{32}$', piece.strip())` */
  predicate HashPiece(piece: string) {
    Md5.MatchesMd5Line(Strip(piece))
  }

  /** The first index `i >= from` whose piece is a hash piece. */
  function HashPartFrom(parts: seq<string>, from: nat): (r: Option<nat>)
    decreases |parts| - from
    ensures r.Some? ==> from <= r.value < |parts| && HashPiece(parts[r.value])
    ensures r.Some? ==> forall j :: from <= j < r.value ==> !HashPiece(parts[j])
    ensures r.None? ==> forall j :: from <= j < |parts| ==> !HashPiece(parts[j])
  {
    if from >= |parts| then None
    else if HashPiece(parts[from]) then Some(from)
    else HashPartFrom(parts, from + 1)
  }

  /** A last piece that names the archive: it holds both `anna` and `archive`, ignoring case. */
  predicate BrandPiece(piece: string) {
    Contains(Lower(piece), "anna") && Contains(Lower(piece), "archive")
  }

  /**
   * The name taken from the last URL segment (before sanitising): `download<ext>` for an
   * empty or dot-less segment; for `title -- <md5> -- Anna's Archive.ext` the title part,
   * i.e. the pieces before the first hash piece at an index above 0, re-joined and
   * stripped, with the extension added; otherwise the segment itself.
   */
  function NameFromSegment(segment: string, ext: string): string {
    if segment == "" || '.' !in segment then "download" + ext
    else if !Contains(segment, " -- ") then segment
    else
      var parts := Split(segment, " -- ");
      if |parts| >= 2 && BrandPiece(parts[|parts| - 1]) then TitlePart(parts, ext).GetOr(segment)
      else segment
  }

  /** The pieces before the first hash piece at an index above 0, re-joined, stripped, with `ext`. */
  function TitlePart(parts: seq<string>, ext: string): (r: Option<string>)
    ensures r.Some? ==> |r.value| >= |ext|
  {
    match HashPartFrom(parts, 1)
    case Some(i) => Some(WithExtension(Strip(Join(parts[..i], " -- ")), ext))
    case None => None
  }

  /**
   * The file name `download_direct` saves under: the sanitised, whitespace-collapsed title
   * with the extension, or else the sanitised name from the URL's last path segment.
   */
  function DeriveFilename(title: Option<string>, urlPath: string, ext: string): string {
    if UsableTitle(title) then WithExtension(CollapseSpaces(Sanitize(title.value)), ext)
    else Sanitize(NameFromSegment(LastSegment(urlPath), ext))
  }

  lemma WithExtensionEnds(name: string, ext: string)
    ensures EndsWith(Lower(WithExtension(name, ext)), Lower(ext))
    ensures |WithExtension(name, ext)| >= |ext|
  {
    if !EndsWith(Lower(name), Lower(ext)) {
      LowerConcat(name, ext);
      var l := Lower(name + ext);
      assert l[|l| - |ext|..] == Lower(ext);
    }
  }

  lemma ExtensionSafe(ext: string)
    requires KnownExtension(ext)
    ensures SafeName(ext) && |ext| >= 4
  {
  }

  lemma TitleNameSafe(title: string, ext: string)
    requires KnownExtension(ext)
    ensures SafeName(WithExtension(CollapseSpaces(Sanitize(title)), ext))
    ensures WithExtension(CollapseSpaces(Sanitize(title)), ext) != ""
  {
    ExtensionSafe(ext);
    var c := CollapseSpaces(Sanitize(title));
    CollapseSpacesFrom(Sanitize(title));
    forall i | 0 <= i < |c| ensures !Illegal(c[i]) {
      assert c[i] in c;
    }
    WithExtensionEnds(c, ext);
    assert WithExtension(c, ext) == c || WithExtension(c, ext) == c + ext;
  }

  lemma SegmentNameNonEmpty(segment: string, ext: string)
    requires |ext| > 0
    ensures NameFromSegment(segment, ext) != ""
  {
  }

  /**
   * Whatever the title and URL, the derived name is non-empty and holds none of the
   * characters `<>:"/\\|?*`, so it is a single path component of the output directory.
   */
  lemma DeriveFilenameSafe(title: Option<string>, urlPath: string, ext: string)
    requires KnownExtension(ext)
    ensures SafeName(DeriveFilename(title, urlPath, ext))
    ensures DeriveFilename(title, urlPath, ext) != ""
  {
    if UsableTitle(title) {
      TitleNameSafe(title.value, ext);
    } else {
      ExtensionSafe(ext);
      SegmentNameNonEmpty(LastSegment(urlPath), ext);
    }
  }

  /** A usable title yields a name that ends with the extension (ignoring case). */
  lemma TitleNameHasExtension(title: string, urlPath: string, ext: string)
    requires UsableTitle(Some(title))
    ensures EndsWith(Lower(DeriveFilename(Some(title), urlPath, ext)), Lower(ext))
    ensures DeriveFilename(Some(title), urlPath, ext) == WithExtension(CollapseSpaces(Sanitize(title)), ext)
  {
    WithExtensionEnds(CollapseSpaces(Sanitize(title)), ext);
  }

  lemma StripNoSpaceEnds(s: string)
    requires s != [] && !IsSpace(s[0]) && !IsSpace(s[|s| - 1])
    ensures Strip(s) == s
  {
  }

  lemma SplitSeveral(s: string, sep: string)
    requires |sep| > 0 && |Split(s, sep)| >= 2
    ensures Contains(s, sep)
  {
  }

  /**
   * A URL segment of the form `title -- <md5> -- <brand>` (three pieces around ` -- `, the
   * middle one a hash, the last naming the archive) is named after its title part.
   */
  lemma BrandSuffixStripped(segment: string, t: string, h: string, brand: string, ext: string)
    requires Split(segment, " -- ") == [t, h, brand]
    requires Md5.IsMd5(h) && BrandPiece(brand) && '.' in segment
    ensures NameFromSegment(segment, ext) == WithExtension(Strip(t), ext)
  {
    SplitSeveral(segment, " -- ");
    assert segment != "";
    StripNoSpaceEnds(h);
    assert HashPiece(h);
    var parts := [t, h, brand];
    assert !HashPiece(parts[1]) ==> false;
    assert HashPartFrom(parts, 1) == Some(1);
    assert parts[..1] == [t];
  }

  /** When the hash is the first piece, nothing is stripped (the suffix rule needs index > 0). */
  lemma LeadingHashKept(segment: string, h: string, brand: string, ext: string)
    requires Split(segment, " -- ") == [h, brand]
    requires Md5.IsMd5(h) && BrandPiece(brand) && '.' in segment
    requires !HashPiece(brand)
    ensures NameFromSegment(segment, ext) == segment
  {
    SplitSeveral(segment, " -- ");
    assert HashPartFrom([h, brand], 2) == None;
  }
}
