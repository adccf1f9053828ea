/**
 * Identifier normalisation (`extract_md5`): a user-supplied string, either a content hash
 * or a catalogue URL, becomes the 32-character lower-case hexadecimal hash, or nothing.
 */
module Md5 {
  import opened Wrappers
  import opened Text

  /** The catalogue page of a hash is this prefix followed by the hash. */
  const CatalogPrefix: string := "https://annas-archive.org/md5/"

  predicate IsHexDigit(c: char) {
    '0' <= c <= '9' || 'a' <= c <= 'f'
  }

  /** Exactly 32 characters of `[a-f0-9]`. */
  predicate IsMd5(s: string) {
    |s| == 32 && forall i :: 0 <= i < 32 ==> IsHexDigit(s[i])
  }

  /**
   * `re.match(r'^[a-f0-9]{32}$', s)`: Python's `$` matches at the end of the string and
   * also just before a single final newline.
   */
  predicate MatchesMd5Line(s: string) {
    IsMd5(s) || (|s| == 33 && s[32] == '\n' && IsMd5(s[..32]))
  }

  /** `/md5/` followed by 32 characters of `[a-f0-9]` starts at index `i` of `s`. */
  predicate Md5PathAt(s: string, i: nat) {
    i + 37 <= |s| && s[i..i + 5] == "/md5/" && IsMd5(s[i + 5..i + 37])
  }

  /** Where `re.search(r'/md5/([a-f0-9]{32})', s)` matches, scanning from `from`. */
  function Md5PathFrom(s: string, from: nat): (r: Option<nat>)
    decreases |s| - from
    ensures r.Some? ==> from <= r.value && Md5PathAt(s, r.value)
    ensures r.Some? ==> forall j: nat :: from <= j < r.value ==> !Md5PathAt(s, j)
    ensures r.None? ==> forall j: nat :: from <= j ==> !Md5PathAt(s, j)
  {
    if from + 37 > |s| then None
    else if Md5PathAt(s, from) then Some(from)
    else Md5PathFrom(s, from + 1)
  }

  /**
   * `extract_md5(input)`: the lower-cased input when it is a hash; otherwise the hash after
   * the leftmost `/md5/` of the ORIGINAL string (case-sensitive); otherwise nothing.
   */
  function ExtractMd5(input: string): (r: Option<string>)
    ensures MatchesMd5Line(Lower(input)) ==> r == Some(Lower(input))
    ensures !MatchesMd5Line(Lower(input)) ==> (r.Some? <==> exists i: nat :: Md5PathAt(input, i))
    ensures !MatchesMd5Line(Lower(input)) && r.Some? ==>
      exists i: nat :: Md5PathAt(input, i) && r.value == input[i + 5..i + 37]
        && forall j: nat :: j < i ==> !Md5PathAt(input, j)
  {
    var low := Lower(input);
    if MatchesMd5Line(low) then Some(low)
    else
      match Md5PathFrom(input, 0)
      case Some(i) => Some(input[i + 5..i + 37])
      case None => None
  }

  /** What comes back is a hash, or (see `ExtractMd5KeepsNewline`) a hash and a newline. */
  lemma ExtractMd5Shape(input: string)
    ensures ExtractMd5(input).Some? ==>
      var h := ExtractMd5(input).value;
      IsMd5(h) || (|h| == 33 && h[32] == '\n' && IsMd5(h[..32]))
  {
  }

  /** A hash in any letter case is returned in lower case. */
  lemma ExtractMd5OfHash(h: string)
    requires |h| == 32 && forall i :: 0 <= i < 32 ==> IsHexDigit(LowerChar(h[i]))
    ensures ExtractMd5(h) == Some(Lower(h))
    ensures IsMd5(h) ==> ExtractMd5(h) == Some(h)
  {
    if IsMd5(h) {
      assert Lower(h) == h;
    }
  }

  /**
   * As written, a hash followed by one newline passes the `$` test and is returned with
   * its newline: the result is then 33 characters long.
   */
  lemma ExtractMd5KeepsNewline(h: string)
    requires IsMd5(h)
    ensures ExtractMd5(h + "\n") == Some(h + "\n")
  {
    var s := h + "\n";
    assert s[..32] == h;
    assert Lower(s) == s;
  }

  /** The catalogue URL of a hash, with anything after it, gives back exactly that hash. */
  lemma ExtractMd5OfCatalogUrl(h: string, rest: string)
    requires IsMd5(h)
    ensures ExtractMd5(CatalogPrefix + h + rest) == Some(h)
  {
    var host := "https://annas-archive.org";
    var s := CatalogPrefix + h + rest;
    assert CatalogPrefix == host + "/md5/";
    assert 'm' !in host;
    forall k: nat | 1 <= k <= 25 ensures s[k] != 'm' {
      if k < 25 {
        assert s[k] == host[k];
      } else {
        assert s[25] == '/';
      }
    }
    forall j: nat | j < 25 ensures !Md5PathAt(s, j) {
      assert s[j..j + 5][1] == s[j + 1];
    }
    assert s[25..30] == "/md5/";
    assert s[30..62] == h;
    assert Md5PathAt(s, 25);
    assert !MatchesMd5Line(Lower(s));
  }
}
