/**
 * `orchestrate_download(d, input_string, prefer_mirror, resume_attempts, filename, links)`:
 * the newer fallback policy. It resolves the hash, fetches metadata when it is missing,
 * refuses non-e-book extensions, tries the fast path and then the mirrors in order.
 *
 * The downloader `d` is a collaborator whose answers are given: one answer for each of
 * `extract_md5`, `get_download_links`, `try_fast_download` and `download_direct`, and the
 * i-th mirror download receives `mirrors[i]`. `random.shuffle` is any permutation, given
 * as a function. Every call made on `d`, status callbacks included, is recorded in order.
 */
module Orchestrator {
  import opened Wrappers
  import opened Text
  import opened Naming

  /** A link as `d.get_download_links` returns it (`text` may be missing). */
  datatype MirrorLink = MirrorLink(url: string, kind: string, text: Option<string>, domain: string)

  datatype Collaborator = Collaborator(
    fastEnabled: bool,
    fastKey: Option<string>,
    hasStatusCallback: bool,
    md5: Option<string>,
    metadata: (Option<string>, Option<seq<MirrorLink>>),
    fast: (bool, string),
    direct: Option<string>,
    mirrors: seq<Option<string>>,
    shuffle: seq<MirrorLink> -> seq<MirrorLink>)

  /** A call made on the collaborator. */
  datatype Call =
    | ExtractMd5(input: string)
    | GetLinks(md5: string)
    | Status(message: string)
    | TryFast(md5: string)
    | Direct(url: string, title: Option<string>, resume: nat, md5: string)
    | Mirror(url: string, kind: string, md5: string, title: Option<string>, resume: nat)

  /** `(success, used_fast_download, filepath)` and the calls made. */
  datatype Outcome = Outcome(success: bool, usedFast: bool, path: Option<string>, calls: seq<Call>)

  /** `random.shuffle` only reorders. */
  ghost predicate IsShuffle(shuffle: seq<MirrorLink> -> seq<MirrorLink>) {
    forall s :: multiset(shuffle(s)) == multiset(s)
  }

  predicate Truthy(s: Option<string>) {
    s.Some? && s.value != ""
  }

  const AllowedExtensions: set<string> := {".epub", ".mobi", ".azw3"}

  /** The gate: a real file name whose suffix (lower-cased) is set and not an e-book format. */
  predicate RejectedName(filename: Option<string>) {
    Truthy(filename) && filename.value != "Unknown" &&
    var ext := Lower(Suffix(PathName(filename.value)));
    ext != "" && ext !in AllowedExtensions
  }

  /** `prefer_mirror.lower() in link['domain'].lower()` */
  predicate Prefers(l: MirrorLink, prefer: string) {
    Contains(Lower(l.domain), Lower(prefer))
  }

  function PreferredLinks(links: seq<MirrorLink>, prefer: string): (r: seq<MirrorLink>)
    ensures forall l :: l in r ==> Prefers(l, prefer)
  {
    if links == [] then []
    else (if Prefers(links[0], prefer) then [links[0]] else []) + PreferredLinks(links[1..], prefer)
  }

  function OtherLinks(links: seq<MirrorLink>, prefer: string): (r: seq<MirrorLink>)
    ensures forall l :: l in r ==> !Prefers(l, prefer)
  {
    if links == [] then []
    else (if Prefers(links[0], prefer) then [] else [links[0]]) + OtherLinks(links[1..], prefer)
  }

  /** The order the mirrors are tried in. */
  function MirrorOrder(links: seq<MirrorLink>, prefer: Option<string>, shuffle: seq<MirrorLink> -> seq<MirrorLink>): seq<MirrorLink> {
    if Truthy(prefer) then PreferredLinks(links, prefer.value) + OtherLinks(links, prefer.value)
    else shuffle(links)
  }

  /** `mirror_link.get('text', mirror_link.get('domain', ...))` */
  function MirrorName(l: MirrorLink): string {
    if l.text.Some? then l.text.value else l.domain
  }

  function Say(d: Collaborator, message: string): seq<Call> {
    if d.hasStatusCallback then [Status(message)] else []
  }

  function AccessMessage(i: nat, n: nat, name: string): string {
    "Accessing mirror " + NatToString(i + 1) + "/" + NatToString(n) + ": " + name
  }

  function MirrorAnswer(d: Collaborator, i: nat): Option<string> {
    if i < |d.mirrors| then d.mirrors[i] else None
  }

  /** The mirror loop from mirror `i` on, after the calls `calls`. */
  function TryMirrors(d: Collaborator, links: seq<MirrorLink>, i: nat, md5: string, title: Option<string>,
                      resume: nat, calls: seq<Call>): (r: Outcome)
    requires i <= |links|
    decreases |links| - i
    ensures !r.usedFast && (r.success <==> r.path.Some?) && (r.success ==> Truthy(r.path))
  {
    if i == |links| then Outcome(false, false, None, calls)
    else
      var l := links[i];
      var c := calls + Say(d, AccessMessage(i, |links|, MirrorName(l))) + [Mirror(l.url, l.kind, md5, title, resume)];
      if Truthy(MirrorAnswer(d, i)) then Outcome(true, false, MirrorAnswer(d, i), c + Say(d, "Verifying download..."))
      else
        var c' := if i < |links| - 1 then c + Say(d, "Mirror failed, trying next mirror...") else c;
        TryMirrors(d, links, i + 1, md5, title, resume, c')
  }

  predicate FastConfigured(d: Collaborator) {
    d.fastEnabled && Truthy(d.fastKey)
  }

  /** The calls of the fast path: `try_fast_download`, then `download_direct` when it gave a URL. */
  function FastCalls(d: Collaborator, md5: string, name: Option<string>, resume: nat, calls: seq<Call>): seq<Call> {
    if !FastConfigured(d) then calls
    else
      var tried := calls + Say(d, "Trying fast download...") + [TryFast(md5)];
      if d.fast.0 then tried + Say(d, "Downloading via fast download...") + [Direct(d.fast.1, name, resume, md5)]
      else tried
  }

  /** Everything after the metadata step: the gate, the fast path, then the mirrors. */
  function AfterMetadata(d: Collaborator, prefer: Option<string>, resume: nat, md5: string,
                         name: Option<string>, found: Option<seq<MirrorLink>>, calls: seq<Call>): Outcome
  {
    if RejectedName(name) then Outcome(false, false, None, calls)
    else
      var c := FastCalls(d, md5, name, resume, calls);
      if FastConfigured(d) && d.fast.0 && Truthy(d.direct) then Outcome(true, true, d.direct, c)
      else if found.None? || found.value == [] then Outcome(false, false, None, c)
      else TryMirrors(d, MirrorOrder(found.value, prefer, d.shuffle), 0, md5, name, resume, c)
  }

  /** The file name and links the orchestrator works with: the arguments, or fetched metadata. */
  function Fetches(filename: Option<string>, links: Option<seq<MirrorLink>>): bool {
    filename.None? || links.None?
  }

  function NameUsed(d: Collaborator, filename: Option<string>, links: Option<seq<MirrorLink>>): Option<string> {
    if Fetches(filename, links) then d.metadata.0 else filename
  }

  function StartCalls(d: Collaborator, input: string, filename: Option<string>, links: Option<seq<MirrorLink>>): seq<Call>
    requires Truthy(d.md5)
  {
    if Fetches(filename, links) then [ExtractMd5(input), GetLinks(d.md5.value)] else [ExtractMd5(input)]
  }

  /** `orchestrate_download(d, input, prefer_mirror, resume_attempts, filename, links)` */
  function Orchestrate(d: Collaborator, input: string, prefer: Option<string>, resume: nat,
                       filename: Option<string>, links: Option<seq<MirrorLink>>): Outcome
  {
    if !Truthy(d.md5) then Outcome(false, false, None, [ExtractMd5(input)])
    else
      AfterMetadata(d, prefer, resume, d.md5.value, NameUsed(d, filename, links),
                    if Fetches(filename, links) then d.metadata.1 else links,
                    StartCalls(d, input, filename, links))
  }

  /** The imperative `orchestrate_download`: early returns, then the loop over the mirrors. */
  method OrchestrateDownload(d: Collaborator, input: string, prefer: Option<string>, resume: nat,
                             filename: Option<string>, links: Option<seq<MirrorLink>>)
    returns (success: bool, usedFast: bool, path: Option<string>, calls: seq<Call>)
    ensures Outcome(success, usedFast, path, calls) == Orchestrate(d, input, prefer, resume, filename, links)
  {
    calls := [ExtractMd5(input)];
    if !Truthy(d.md5) {
      return false, false, None, calls;
    }
    var md5 := d.md5.value;
    var name, found := filename, links;
    if filename.None? || links.None? {
      calls := calls + [GetLinks(md5)];
      name, found := d.metadata.0, d.metadata.1;
    }
    assert calls == StartCalls(d, input, filename, links);
    ghost var result := AfterMetadata(d, prefer, resume, md5, name, found, calls);
    assert result == Orchestrate(d, input, prefer, resume, filename, links);
    if RejectedName(name) {
      return false, false, None, calls;
    }
    ghost var before := calls;
    if d.fastEnabled && Truthy(d.fastKey) {
      calls := calls + Say(d, "Trying fast download...") + [TryFast(md5)];
      var (ok, url) := d.fast;
      if ok {
        calls := calls + Say(d, "Downloading via fast download...") + [Direct(url, name, resume, md5)];
        if Truthy(d.direct) {
          return true, true, d.direct, calls;
        }
      }
    }
    assert calls == FastCalls(d, md5, name, resume, before);
    if found.None? || found.value == [] {
      return false, false, None, calls;
    }
    var order: seq<MirrorLink>;
    if prefer.Some? && prefer.value != "" {
      order := PreferredLinks(found.value, prefer.value) + OtherLinks(found.value, prefer.value);
    } else {
      order := d.shuffle(found.value);
    }
    assert result == TryMirrors(d, order, 0, md5, name, resume, calls);
    var i := 0;
    while i < |order|
      invariant 0 <= i <= |order|
      invariant TryMirrors(d, order, i, md5, name, resume, calls) == result
    {
      var l := order[i];
      calls := calls + Say(d, AccessMessage(i, |order|, MirrorName(l))) + [Mirror(l.url, l.kind, md5, name, resume)];
      var answer := MirrorAnswer(d, i);
      if Truthy(answer) {
        calls := calls + Say(d, "Verifying download...");
        return true, false, answer, calls;
      }
      if i < |order| - 1 {
        calls := calls + Say(d, "Mirror failed, trying next mirror...");
      }
      i := i + 1;
    }
    return false, false, None, calls;
  }

  // ---------------------------------------------------------------- properties

  /** Without a hash nothing but `extract_md5` is called. */
  lemma NoHashNoCalls(d: Collaborator, input: string, prefer: Option<string>, resume: nat,
                      filename: Option<string>, links: Option<seq<MirrorLink>>)
    requires !Truthy(d.md5)
    ensures Orchestrate(d, input, prefer, resume, filename, links) == Outcome(false, false, None, [ExtractMd5(input)])
  {
  }

  /** The kinds of call that come after the start: status, fast path and mirror calls only. */
  predicate LaterCall(c: Call) {
    c.Status? || c.TryFast? || c.Direct? || c.Mirror?
  }

  /** `b` is `a` followed by later calls only. */
  predicate Extends(a: seq<Call>, b: seq<Call>) {
    |a| <= |b| && b[..|a|] == a && forall k :: |a| <= k < |b| ==> LaterCall(b[k])
  }

  lemma ExtendsTrans(a: seq<Call>, b: seq<Call>, c: seq<Call>)
    requires Extends(a, b) && Extends(b, c)
    ensures Extends(a, c)
  {
    assert c[..|a|] == c[..|b|][..|a|];
    forall k | |a| <= k < |c| ensures LaterCall(c[k]) {
      if k < |b| {
        assert c[k] == b[k];
      }
    }
  }

  lemma {:induction false} TryMirrorsExtends(d: Collaborator, links: seq<MirrorLink>, i: nat, md5: string,
                                             title: Option<string>, resume: nat, calls: seq<Call>)
    requires i <= |links|
    ensures Extends(calls, TryMirrors(d, links, i, md5, title, resume, calls).calls)
    decreases |links| - i
  {
    if i < |links| {
      var l := links[i];
      var c := calls + Say(d, AccessMessage(i, |links|, MirrorName(l))) + [Mirror(l.url, l.kind, md5, title, resume)];
      assert Extends(calls, c);
      if !Truthy(MirrorAnswer(d, i)) {
        var c' := if i < |links| - 1 then c + Say(d, "Mirror failed, trying next mirror...") else c;
        assert Extends(c, c');
        TryMirrorsExtends(d, links, i + 1, md5, title, resume, c');
        ExtendsTrans(c, c', TryMirrors(d, links, i + 1, md5, title, resume, c').calls);
        ExtendsTrans(calls, c, TryMirrors(d, links, i + 1, md5, title, resume, c').calls);
      } else {
        assert Extends(c, c + Say(d, "Verifying download..."));
        ExtendsTrans(calls, c, c + Say(d, "Verifying download..."));
      }
    }
  }

  lemma AfterMetadataExtends(d: Collaborator, prefer: Option<string>, resume: nat, md5: string,
                             name: Option<string>, found: Option<seq<MirrorLink>>, calls: seq<Call>)
    ensures Extends(calls, AfterMetadata(d, prefer, resume, md5, name, found, calls).calls)
  {
    var c := FastCalls(d, md5, name, resume, calls);
    assert Extends(calls, c);
    if !RejectedName(name) && !(FastConfigured(d) && d.fast.0 && Truthy(d.direct)) && !(found.None? || found.value == []) {
      TryMirrorsExtends(d, MirrorOrder(found.value, prefer, d.shuffle), 0, md5, name, resume, c);
      ExtendsTrans(calls, c, AfterMetadata(d, prefer, resume, md5, name, found, calls).calls);
    }
  }

  /**
   * The call trace starts with `extract_md5`, then `get_download_links` exactly when the file name
   * or the links were not passed in; nothing later is either of them.
   */
  lemma MetadataFetchedIff(d: Collaborator, input: string, prefer: Option<string>, resume: nat,
                           filename: Option<string>, links: Option<seq<MirrorLink>>)
    requires Truthy(d.md5)
    ensures var r := Orchestrate(d, input, prefer, resume, filename, links);
      && |r.calls| >= 1 && r.calls[0] == ExtractMd5(input)
      && ((|r.calls| >= 2 && r.calls[1] == GetLinks(d.md5.value)) <==> Fetches(filename, links))
      && (forall k :: 1 <= k < |r.calls| && r.calls[k].GetLinks? ==> k == 1)
      && (forall k :: 1 <= k < |r.calls| ==> !r.calls[k].ExtractMd5?)
  {
    var r := Orchestrate(d, input, prefer, resume, filename, links);
    var c1 := StartCalls(d, input, filename, links);
    AfterMetadataExtends(d, prefer, resume, d.md5.value, NameUsed(d, filename, links),
                         if Fetches(filename, links) then d.metadata.1 else links, c1);
    assert r.calls[0] == r.calls[..|c1|][0];
    if Fetches(filename, links) {
      assert r.calls[1] == r.calls[..|c1|][1];
    }
    forall k | 1 <= k < |r.calls| ensures !r.calls[k].ExtractMd5? && (r.calls[k].GetLinks? ==> k == 1) {
      if k < |c1| {
        assert r.calls[k] == r.calls[..|c1|][k];
      }
    }
  }

  /** A rejected file name ends the call before any status, fast-path or mirror call. */
  lemma GateStopsEverything(d: Collaborator, input: string, prefer: Option<string>, resume: nat,
                            filename: Option<string>, links: Option<seq<MirrorLink>>)
    requires Truthy(d.md5)
    requires RejectedName(NameUsed(d, filename, links))
    ensures var r := Orchestrate(d, input, prefer, resume, filename, links);
      !r.success && !r.usedFast && r.path.None?
      && forall k :: 0 <= k < |r.calls| ==> !LaterCall(r.calls[k])
  {
  }

  /** `Path("Vol. 1").suffix` is `". 1"`: a title like this is refused. */
  lemma GateRefusesVolume()
    ensures RejectedName(Some("Vol. 1"))
  {
    var s := "Vol. 1";
    SplitNoSeparator(s, "/");
    assert PathName(s) == s;
    LastDotAt(s, 3);
    assert s[3..] == ". 1";
    assert Suffix(s) == ". 1";
    assert Lower(". 1") == ". 1";
  }

  lemma GateRefusesPdf()
    ensures RejectedName(Some("book.pdf"))
  {
    var s := "book.pdf";
    SplitNoSeparator(s, "/");
    assert PathName(s) == s;
    LastDotAt(s, 4);
    assert s[4..] == ".pdf";
    assert Suffix(s) == ".pdf";
    assert Lower(".pdf") == ".pdf";
  }

  /** The suffix is compared in lower case. */
  lemma GateAcceptsUpperCase()
    ensures !RejectedName(Some("Book.EPUB"))
  {
    var s := "Book.EPUB";
    SplitNoSeparator(s, "/");
    assert PathName(s) == s;
    LastDotAt(s, 4);
    assert s[4..] == ".EPUB";
    assert Suffix(s) == ".EPUB";
    assert Lower(".EPUB") == ".epub";
  }

  /** No name, an empty name and "Unknown" pass the gate. */
  lemma GateAcceptsUnknown()
    ensures !RejectedName(Some("Unknown")) && !RejectedName(Some("")) && !RejectedName(None)
  {
  }

  /** A name without a dot (and without a directory part) has no suffix, so it passes the gate. */
  lemma GateAcceptsNoSuffix(name: string)
    requires forall j :: 0 <= j < |name| ==> name[j] != '.' && name[j] != '/'
    ensures !RejectedName(Some(name))
  {
    SplitNoSeparator(name, "/");
    var parts := Split(name, "/");
    assert parts == [name] && parts[|parts| - 1] == name;
    if name == "" {
      assert parts[..0] == [];
    } else {
      assert name != "." by {
        assert name[0] != '.';
      }
    }
    assert LastComponent(parts) == name;
    assert PathName(name) == name;
    NoDotLastDot(name);
    assert Suffix(name) == "";
  }

  /** A string without the separator's first character splits into itself. */
  lemma SplitNoSeparator(s: string, sep: string)
    requires |sep| > 0 && forall k :: 0 <= k < |s| ==> s[k] != sep[0]
    ensures Split(s, sep) == [s]
  {
    forall j: nat ensures !OccursAt(s, sep, j) {
      if j + |sep| <= |s| {
        assert s[j..j + |sep|][0] == s[j];
      }
    }
  }

  /** The mirror loop keeps the calls before it and adds only status messages and mirror downloads. */
  lemma {:induction false} TryMirrorsAddsOnly(d: Collaborator, links: seq<MirrorLink>, i: nat, md5: string,
                                              title: Option<string>, resume: nat, calls: seq<Call>)
    requires i <= |links|
    ensures var r := TryMirrors(d, links, i, md5, title, resume, calls).calls;
      |calls| <= |r| && r[..|calls|] == calls
      && forall k :: |calls| <= k < |r| ==> r[k].Status? || r[k].Mirror?
    decreases |links| - i
  {
    if i < |links| {
      var l := links[i];
      var c := calls + Say(d, AccessMessage(i, |links|, MirrorName(l))) + [Mirror(l.url, l.kind, md5, title, resume)];
      if !Truthy(MirrorAnswer(d, i)) {
        var c' := if i < |links| - 1 then c + Say(d, "Mirror failed, trying next mirror...") else c;
        TryMirrorsAddsOnly(d, links, i + 1, md5, title, resume, c');
        var r := TryMirrors(d, links, i + 1, md5, title, resume, c').calls;
        assert r[..|calls|] == r[..|c'|][..|calls|];
        forall k | |calls| <= k < |r| ensures r[k].Status? || r[k].Mirror? {
          if k < |c'| {
            assert r[k] == c'[k];
          }
        }
      }
    }
  }

  /**
   * `try_fast_download` is called exactly when there is a hash, the fast path is configured
   * (enabled, with a key) and the file name passed the gate; it is then called with the hash.
   */
  lemma FastTriedIff(d: Collaborator, input: string, prefer: Option<string>, resume: nat,
                     filename: Option<string>, links: Option<seq<MirrorLink>>)
    ensures var r := Orchestrate(d, input, prefer, resume, filename, links);
      (exists k :: 0 <= k < |r.calls| && r.calls[k].TryFast?)
        <==> Truthy(d.md5) && FastConfigured(d) && !RejectedName(NameUsed(d, filename, links))
    ensures var r := Orchestrate(d, input, prefer, resume, filename, links);
      (Truthy(d.md5) && FastConfigured(d) && !RejectedName(NameUsed(d, filename, links)))
        ==> TryFast(d.md5.value) in r.calls
  {
    var r := Orchestrate(d, input, prefer, resume, filename, links);
    if Truthy(d.md5) && !RejectedName(NameUsed(d, filename, links)) {
      var md5, name := d.md5.value, NameUsed(d, filename, links);
      var found := if Fetches(filename, links) then d.metadata.1 else links;
      var c1 := StartCalls(d, input, filename, links);
      var c := FastCalls(d, md5, name, resume, c1);
      assert r == AfterMetadata(d, prefer, resume, md5, name, found, c1);
      var mirrors := !(FastConfigured(d) && d.fast.0 && Truthy(d.direct)) && !(found.None? || found.value == []);
      if mirrors {
        TryMirrorsAddsOnly(d, MirrorOrder(found.value, prefer, d.shuffle), 0, md5, name, resume, c);
      }
      assert |c| <= |r.calls| && r.calls[..|c|] == c;
      assert forall k :: |c| <= k < |r.calls| ==> !r.calls[k].TryFast?;
      if FastConfigured(d) {
        var tried := c1 + Say(d, "Trying fast download...") + [TryFast(md5)];
        assert c[|tried| - 1] == TryFast(md5);
        assert r.calls[|tried| - 1] == r.calls[..|c|][|tried| - 1];
      } else {
        assert c == c1;
        forall k | 0 <= k < |r.calls| ensures !r.calls[k].TryFast? {
          if k < |c| {
            assert r.calls[k] == c[k];
          }
        }
      }
    }
  }

  /**
   * When the fast path did not produce the file and there are no links, the call fails
   * after the fast path without trying any mirror.
   */
  lemma NoLinksFails(d: Collaborator, input: string, prefer: Option<string>, resume: nat,
                     filename: Option<string>, links: Option<seq<MirrorLink>>)
    requires Truthy(d.md5) && !RejectedName(NameUsed(d, filename, links))
    requires !(FastConfigured(d) && d.fast.0 && Truthy(d.direct))
    requires var found := if Fetches(filename, links) then d.metadata.1 else links;
      found.None? || found.value == []
    ensures var r := Orchestrate(d, input, prefer, resume, filename, links);
      r == Outcome(false, false, None,
                   FastCalls(d, d.md5.value, NameUsed(d, filename, links), resume, StartCalls(d, input, filename, links)))
      && forall k :: 0 <= k < |r.calls| ==> !r.calls[k].Mirror?
  {
  }

  /**
   * A path is tested for truthiness: an empty path from `download_direct` on the fast URL
   * counts as "Fast download failed", and with no links nothing is saved.
   */
  lemma EmptyFastPathFallsThrough(d: Collaborator, input: string, prefer: Option<string>, resume: nat)
    requires Truthy(d.md5) && FastConfigured(d) && d.fast.0 && d.direct == Some("")
    requires d.metadata == (None, Some([]))
    ensures var r := Orchestrate(d, input, prefer, resume, None, None);
      !r.success && !r.usedFast && r.path.None?
  {
  }

  /** `used_fast` is reported only when the fast path produced the file. */
  lemma UsedFastOnlyViaFastPath(d: Collaborator, input: string, prefer: Option<string>, resume: nat,
                                filename: Option<string>, links: Option<seq<MirrorLink>>)
    ensures var r := Orchestrate(d, input, prefer, resume, filename, links);
      r.usedFast <==> (Truthy(d.md5) && FastConfigured(d) && d.fast.0 && Truthy(d.direct)
                       && !RejectedName(NameUsed(d, filename, links)))
    ensures var r := Orchestrate(d, input, prefer, resume, filename, links);
      r.usedFast ==> r.success && r.path == d.direct
    ensures var r := Orchestrate(d, input, prefer, resume, filename, links);
      r.success <==> r.path.Some?
  {
  }

  /** The preferred/others split is a permutation that puts the preferred mirrors first. */
  lemma {:induction false} PartitionPermutes(links: seq<MirrorLink>, prefer: string)
    ensures multiset(PreferredLinks(links, prefer) + OtherLinks(links, prefer)) == multiset(links)
  {
    if links != [] {
      PartitionPermutes(links[1..], prefer);
      assert links == [links[0]] + links[1..];
    }
  }

  /** Both halves keep list order: each is the sublist of the links passing its test. */
  lemma PartitionKeepsOrder(xs: seq<MirrorLink>, ys: seq<MirrorLink>, prefer: string)
    ensures PreferredLinks(xs + ys, prefer) == PreferredLinks(xs, prefer) + PreferredLinks(ys, prefer)
    ensures OtherLinks(xs + ys, prefer) == OtherLinks(xs, prefer) + OtherLinks(ys, prefer)
  {
    PreferredConcat(xs, ys, prefer);
    OtherConcat(xs, ys, prefer);
  }

  lemma {:induction false} PreferredConcat(xs: seq<MirrorLink>, ys: seq<MirrorLink>, prefer: string)
    ensures PreferredLinks(xs + ys, prefer) == PreferredLinks(xs, prefer) + PreferredLinks(ys, prefer)
  {
    if xs == [] {
      assert xs + ys == ys;
    } else {
      var head := if Prefers(xs[0], prefer) then [xs[0]] else [];
      assert (xs + ys)[0] == xs[0];
      assert (xs + ys)[1..] == xs[1..] + ys;
      PreferredConcat(xs[1..], ys, prefer);
      assert PreferredLinks(xs + ys, prefer) == head + PreferredLinks(xs[1..] + ys, prefer);
      assert PreferredLinks(xs, prefer) == head + PreferredLinks(xs[1..], prefer);
    }
  }

  lemma {:induction false} OtherConcat(xs: seq<MirrorLink>, ys: seq<MirrorLink>, prefer: string)
    ensures OtherLinks(xs + ys, prefer) == OtherLinks(xs, prefer) + OtherLinks(ys, prefer)
  {
    if xs == [] {
      assert xs + ys == ys;
    } else {
      var head := if Prefers(xs[0], prefer) then [] else [xs[0]];
      assert (xs + ys)[0] == xs[0];
      assert (xs + ys)[1..] == xs[1..] + ys;
      OtherConcat(xs[1..], ys, prefer);
      assert OtherLinks(xs + ys, prefer) == head + OtherLinks(xs[1..] + ys, prefer);
      assert OtherLinks(xs, prefer) == head + OtherLinks(xs[1..], prefer);
    }
  }

  /** Every order the orchestrator uses is a permutation of the links it found. */
  lemma MirrorOrderPermutes(links: seq<MirrorLink>, prefer: Option<string>, shuffle: seq<MirrorLink> -> seq<MirrorLink>)
    requires IsShuffle(shuffle)
    ensures multiset(MirrorOrder(links, prefer, shuffle)) == multiset(links)
  {
    if Truthy(prefer) {
      PartitionPermutes(links, prefer.value);
    }
  }

  /** The `Mirror` calls of a trace, in order. */
  function MirrorCallsIn(calls: seq<Call>): (r: seq<Call>)
    ensures forall j :: 0 <= j < |r| ==> r[j].Mirror?
  {
    if calls == [] then []
    else (if calls[0].Mirror? then [calls[0]] else []) + MirrorCallsIn(calls[1..])
  }

  /** The `Mirror` calls that asking each of `ls` in turn makes. */
  function MirrorCallsFor(ls: seq<MirrorLink>, md5: string, title: Option<string>, resume: nat): (r: seq<Call>)
    ensures |r| == |ls|
    ensures forall j :: 0 <= j < |ls| ==> r[j] == Mirror(ls[j].url, ls[j].kind, md5, title, resume)
  {
    if ls == [] then []
    else [Mirror(ls[0].url, ls[0].kind, md5, title, resume)] + MirrorCallsFor(ls[1..], md5, title, resume)
  }

  lemma {:induction false} MirrorCallsInConcat(a: seq<Call>, b: seq<Call>)
    ensures MirrorCallsIn(a + b) == MirrorCallsIn(a) + MirrorCallsIn(b)
    decreases |a|
  {
    if a == [] {
      assert a + b == b;
    } else {
      assert (a + b)[0] == a[0] && (a + b)[1..] == a[1..] + b;
      MirrorCallsInConcat(a[1..], b);
    }
  }

  /** A status message adds no `Mirror` call. */
  lemma SayAddsNoMirror(d: Collaborator, calls: seq<Call>, message: string)
    ensures MirrorCallsIn(calls + Say(d, message)) == MirrorCallsIn(calls)
  {
    MirrorCallsInConcat(calls, Say(d, message));
    if d.hasStatusCallback {
      assert Say(d, message)[1..] == [];
    }
  }

  /** The `Mirror` calls one step of the loop adds: mirror `i` itself. */
  lemma MirrorStepCalls(d: Collaborator, links: seq<MirrorLink>, i: nat, md5: string,
                        title: Option<string>, resume: nat, calls: seq<Call>)
    requires i < |links|
    ensures var l := links[i];
      MirrorCallsIn(calls + Say(d, AccessMessage(i, |links|, MirrorName(l))) + [Mirror(l.url, l.kind, md5, title, resume)])
        == MirrorCallsIn(calls) + [Mirror(l.url, l.kind, md5, title, resume)]
  {
    var l := links[i];
    var m := Mirror(l.url, l.kind, md5, title, resume);
    var a := Say(d, AccessMessage(i, |links|, MirrorName(l)));
    MirrorCallsInConcat(calls + a, [m]);
    SayAddsNoMirror(d, calls, AccessMessage(i, |links|, MirrorName(l)));
    assert MirrorCallsIn([m]) == [m] by { assert [m][1..] == []; }
  }

  /** The calls after mirror `i` was asked and failed, before mirror `i + 1` is asked. */
  function FailedStep(d: Collaborator, links: seq<MirrorLink>, i: nat, md5: string, title: Option<string>,
                      resume: nat, calls: seq<Call>): seq<Call>
    requires i < |links|
  {
    var l := links[i];
    var c := calls + Say(d, AccessMessage(i, |links|, MirrorName(l))) + [Mirror(l.url, l.kind, md5, title, resume)];
    if i < |links| - 1 then c + Say(d, "Mirror failed, trying next mirror...") else c
  }

  lemma TryMirrorsFailed(d: Collaborator, links: seq<MirrorLink>, i: nat, md5: string, title: Option<string>,
                         resume: nat, calls: seq<Call>)
    requires i < |links| && !Truthy(MirrorAnswer(d, i))
    ensures TryMirrors(d, links, i, md5, title, resume, calls)
      == TryMirrors(d, links, i + 1, md5, title, resume, FailedStep(d, links, i, md5, title, resume, calls))
  {
  }

  lemma FailedStepMirrors(d: Collaborator, links: seq<MirrorLink>, i: nat, md5: string, title: Option<string>,
                          resume: nat, calls: seq<Call>)
    requires i < |links|
    ensures MirrorCallsIn(FailedStep(d, links, i, md5, title, resume, calls))
      == MirrorCallsIn(calls) + [Mirror(links[i].url, links[i].kind, md5, title, resume)]
  {
    var l := links[i];
    var c := calls + Say(d, AccessMessage(i, |links|, MirrorName(l))) + [Mirror(l.url, l.kind, md5, title, resume)];
    MirrorStepCalls(d, links, i, md5, title, resume, calls);
    SayAddsNoMirror(d, c, "Mirror failed, trying next mirror...");
  }

  lemma AppendAssoc(a: seq<Call>, b: seq<Call>, c: seq<Call>)
    ensures (a + b) + c == a + (b + c)
  {
  }

  lemma MirrorCallsForSuffix(ls: seq<MirrorLink>, i: nat, md5: string, title: Option<string>, resume: nat)
    requires i < |ls|
    ensures MirrorCallsFor(ls[i..], md5, title, resume)
      == [Mirror(ls[i].url, ls[i].kind, md5, title, resume)] + MirrorCallsFor(ls[i + 1..], md5, title, resume)
  {
    assert ls[i..][1..] == ls[i + 1..];
  }

  lemma MirrorCallsForStep(ls: seq<MirrorLink>, i: nat, j: nat, md5: string, title: Option<string>, resume: nat)
    requires i < j <= |ls|
    ensures MirrorCallsFor(ls[i..j], md5, title, resume)
      == [Mirror(ls[i].url, ls[i].kind, md5, title, resume)] + MirrorCallsFor(ls[i + 1..j], md5, title, resume)
  {
    assert ls[i..j][1..] == ls[i + 1..j];
  }

  /**
   * The mirror loop stops at the first mirror that produces a file: mirror `k` is asked
   * exactly when every earlier mirror failed, the mirrors are asked in list order, and
   * no mirror after `k` is asked.
   */
  lemma {:induction false} FirstSuccessWins(d: Collaborator, links: seq<MirrorLink>, i: nat, md5: string,
                                            title: Option<string>, resume: nat, calls: seq<Call>, k: nat)
    requires i <= k < |links| && Truthy(MirrorAnswer(d, k))
    requires forall j :: i <= j < k ==> !Truthy(MirrorAnswer(d, j))
    ensures TryMirrors(d, links, i, md5, title, resume, calls).path == MirrorAnswer(d, k)
    ensures MirrorCallsIn(TryMirrors(d, links, i, md5, title, resume, calls).calls)
      == MirrorCallsIn(calls) + MirrorCallsFor(links[i..k + 1], md5, title, resume)
    decreases k - i
  {
    var l := links[i];
    var c := calls + Say(d, AccessMessage(i, |links|, MirrorName(l))) + [Mirror(l.url, l.kind, md5, title, resume)];
    var m := Mirror(l.url, l.kind, md5, title, resume);
    MirrorCallsForStep(links, i, k + 1, md5, title, resume);
    if i < k {
      var c' := FailedStep(d, links, i, md5, title, resume, calls);
      TryMirrorsFailed(d, links, i, md5, title, resume, calls);
      FailedStepMirrors(d, links, i, md5, title, resume, calls);
      FirstSuccessWins(d, links, i + 1, md5, title, resume, c', k);
      AppendAssoc(MirrorCallsIn(calls), [m], MirrorCallsFor(links[i + 1..k + 1], md5, title, resume));
    } else {
      MirrorStepCalls(d, links, i, md5, title, resume, calls);
      SayAddsNoMirror(d, c, "Verifying download...");
      assert TryMirrors(d, links, i, md5, title, resume, calls).calls == c + Say(d, "Verifying download...");
      assert MirrorCallsFor(links[i + 1..k + 1], md5, title, resume) == [] by {
        assert links[i + 1..k + 1] == [];
      }
    }
  }

  /** When every mirror fails the result is `(False, False, None)`, after asking every mirror in order. */
  lemma {:induction false} AllMirrorsFail(d: Collaborator, links: seq<MirrorLink>, i: nat, md5: string,
                                          title: Option<string>, resume: nat, calls: seq<Call>)
    requires i <= |links| && forall j :: i <= j < |links| ==> !Truthy(MirrorAnswer(d, j))
    ensures var r := TryMirrors(d, links, i, md5, title, resume, calls);
      !r.success && !r.usedFast && r.path.None?
    ensures MirrorCallsIn(TryMirrors(d, links, i, md5, title, resume, calls).calls)
      == MirrorCallsIn(calls) + MirrorCallsFor(links[i..], md5, title, resume)
    decreases |links| - i
  {
    if i < |links| {
      var c' := FailedStep(d, links, i, md5, title, resume, calls);
      TryMirrorsFailed(d, links, i, md5, title, resume, calls);
      FailedStepMirrors(d, links, i, md5, title, resume, calls);
      MirrorCallsForSuffix(links, i, md5, title, resume);
      AllMirrorsFail(d, links, i + 1, md5, title, resume, c');
      AppendAssoc(MirrorCallsIn(calls), [Mirror(links[i].url, links[i].kind, md5, title, resume)],
                  MirrorCallsFor(links[i + 1..], md5, title, resume));
    } else {
      assert links[i..] == [];
    }
  }

  predicate NoStatus(calls: seq<Call>) {
    forall k :: 0 <= k < |calls| ==> !calls[k].Status?
  }

  /** Without a status callback no status call is ever made. */
  lemma {:induction false} SilentWithoutCallback(d: Collaborator, links: seq<MirrorLink>, i: nat, md5: string,
                                                 title: Option<string>, resume: nat, calls: seq<Call>)
    requires i <= |links| && !d.hasStatusCallback && NoStatus(calls)
    ensures NoStatus(TryMirrors(d, links, i, md5, title, resume, calls).calls)
    decreases |links| - i
  {
    if i < |links| {
      var l := links[i];
      var c := calls + [Mirror(l.url, l.kind, md5, title, resume)];
      assert c == calls + Say(d, AccessMessage(i, |links|, MirrorName(l))) + [Mirror(l.url, l.kind, md5, title, resume)];
      assert NoStatus(c);
      assert c == c + Say(d, "Mirror failed, trying next mirror...") == c + Say(d, "Verifying download...");
      SilentWithoutCallback(d, links, i + 1, md5, title, resume, c);
    }
  }

  /** Without a status callback the whole run makes no status call. */
  lemma OrchestrateSilent(d: Collaborator, input: string, prefer: Option<string>, resume: nat,
                          filename: Option<string>, links: Option<seq<MirrorLink>>)
    requires !d.hasStatusCallback
    ensures NoStatus(Orchestrate(d, input, prefer, resume, filename, links).calls)
  {
    if Truthy(d.md5) {
      var md5 := d.md5.value;
      var name := NameUsed(d, filename, links);
      var found := if Fetches(filename, links) then d.metadata.1 else links;
      var c1 := StartCalls(d, input, filename, links);
      var c := FastCalls(d, md5, name, resume, c1);
      assert NoStatus(c1);
      assert NoStatus(c);
      if !RejectedName(name) && !(FastConfigured(d) && d.fast.0 && Truthy(d.direct)) && !(found.None? || found.value == []) {
        SilentWithoutCallback(d, MirrorOrder(found.value, prefer, d.shuffle), 0, md5, name, resume, c);
      }
    }
  }

  /** With a preferred mirror, no other mirror is tried before a preferred one. */
  lemma PreferredFirst(links: seq<MirrorLink>, prefer: string, shuffle: seq<MirrorLink> -> seq<MirrorLink>)
    requires prefer != ""
    ensures var o := MirrorOrder(links, Some(prefer), shuffle);
      forall j, k :: 0 <= j < k < |o| && Prefers(o[k], prefer) ==> Prefers(o[j], prefer)
  {
    var p := PreferredLinks(links, prefer);
    var o := MirrorOrder(links, Some(prefer), shuffle);
    assert o == p + OtherLinks(links, prefer);
    forall j, k | 0 <= j < k < |o| && Prefers(o[k], prefer) ensures Prefers(o[j], prefer) {
      assert o[j] in p;
    }
  }

  /**
   * With a callback, a mirror success ends with "Verifying download..." right after its
   * mirror call; the "next mirror" message never follows the last mirror.
   */
  lemma MirrorMessages(d: Collaborator, links: seq<MirrorLink>, i: nat, md5: string,
                       title: Option<string>, resume: nat, calls: seq<Call>)
    requires i < |links| && d.hasStatusCallback
    ensures var r := TryMirrors(d, links, i, md5, title, resume, calls);
      var l := links[i];
      var asked := calls + [Status(AccessMessage(i, |links|, MirrorName(l))), Mirror(l.url, l.kind, md5, title, resume)];
      && (Truthy(MirrorAnswer(d, i)) ==> r.calls == asked + [Status("Verifying download...")])
      && (!Truthy(MirrorAnswer(d, i)) && i == |links| - 1 ==> r.calls == asked && !r.success)
  {
  }
}
