/** `normalizeGoogleDriveUrl` of src/lib/utils.ts: a trimmed URL that holds a
    Google Drive file link in one of three shapes is rewritten to the
    embeddable `https://drive.google.com/file/d/<id>/preview`; anything else
    comes back trimmed. Each shape is an unanchored regular expression, so the
    leftmost occurrence in the string is the one that counts. */
module DriveUrl {
  import opened Types
  import opened Text

  const Host: string := "://drive.google.com/"
  const FilePath: string := "file/d/"
  const OpenPath: string := "open?id="
  const UcPath: string := "uc?id="
  const CanonicalPrefix: string := "https://drive.google.com/file/d/"
  const PreviewSuffix: string := "/preview"

  /** `p` occurs in `s` at position `i`. */
  predicate HasAt(s: string, i: nat, p: string) {
    i + |p| <= |s| && s[i..i + |p|] == p
  }

  /** `https?://drive\.google\.com/<path>` at position `i`: the position just after it. */
  function PrefixEnd(s: string, i: nat, path: string): (e: Option<nat>)
    ensures e.Some? ==> i < e.value <= |s|
  {
    if HasAt(s, i, "https" + Host + path) then Some(i + 5 + |Host| + |path|)
    else if HasAt(s, i, "http" + Host + path) then Some(i + 4 + |Host| + |path|)
    else None
  }

  /** The whole expression `https?://drive\.google\.com/<path>([^<stop>]+)`
      matches at `i`: the prefix is there and one character other than `stop`
      follows it. */
  predicate MatchesAt(s: string, i: nat, path: string, stop: char) {
    var e := PrefixEnd(s, i, path);
    e.Some? && e.value < |s| && s[e.value] != stop
  }

  /** The end of the greedy run `[^<stop>]*` that starts at `k`. */
  function RunEnd(s: string, k: nat, stop: char): (e: nat)
    requires k <= |s|
    ensures k <= e <= |s|
    ensures forall j :: k <= j < e ==> s[j] != stop
    ensures e == |s| || s[e] == stop
    decreases |s| - k
  {
    if k < |s| && s[k] != stop then RunEnd(s, k + 1, stop) else k
  }

  /** The leftmost position at or after `i` where the expression matches. */
  function FirstMatch(s: string, i: nat, path: string, stop: char): (r: Option<nat>)
    ensures r.Some? ==> i <= r.value <= |s| && MatchesAt(s, r.value, path, stop)
    ensures forall j :: i <= j && (r.None? || j < r.value) ==> !MatchesAt(s, j, path, stop)
    decreases |s| - i
  {
    if MatchesAt(s, i, path, stop) then Some(i)
    else if i < |s| then FirstMatch(s, i + 1, path, stop)
    else None
  }

  /** The capture group of a match at `i`: the maximal non-empty run of
      characters other than `stop` right after the prefix. */
  function Capture(s: string, i: nat, path: string, stop: char): (id: string)
    requires MatchesAt(s, i, path, stop)
    ensures var k := PrefixEnd(s, i, path).value;
      && id != []
      && stop !in id
      && k + |id| <= |s| && s[k..k + |id|] == id
      && (k + |id| == |s| || s[k + |id|] == stop)
  {
    var k := PrefixEnd(s, i, path).value;
    var e := RunEnd(s, k, stop);
    assert s[k] != stop;
    s[k..e]
  }

  /** `regex.exec(s)?.[1]` for one of the three shapes. */
  function Search(s: string, path: string, stop: char): Option<string> {
    match FirstMatch(s, 0, path, stop)
    case Some(i) => Some(Capture(s, i, path, stop))
    case None => None
  }

  /** The three shapes, tried in the source's order. */
  function DriveFileId(t: string): Option<string> {
    var byFile := Search(t, FilePath, '/');
    if byFile.Some? then byFile
    else
      var byOpen := Search(t, OpenPath, '&');
      if byOpen.Some? then byOpen else Search(t, UcPath, '&')
  }

  function Canonical(id: string): string {
    CanonicalPrefix + id + PreviewSuffix
  }

  function NormalizeGoogleDriveUrl(url: string): string {
    var t := Trim(url);
    match DriveFileId(t)
    case Some(id) => Canonical(id)
    case None => t
  }

  /** A recognised URL yields the canonical preview form of a non-empty id;
      an unrecognised one comes back trimmed and otherwise unchanged. */
  lemma NormalizeCases(url: string)
    ensures DriveFileId(Trim(url)).None? ==> NormalizeGoogleDriveUrl(url) == Trim(url)
    ensures DriveFileId(Trim(url)).Some? ==>
      var id := DriveFileId(Trim(url)).value;
      id != [] && NormalizeGoogleDriveUrl(url) == CanonicalPrefix + id + PreviewSuffix
  {
    var t := Trim(url);
    var f := FirstMatch(t, 0, FilePath, '/');
    var o := FirstMatch(t, 0, OpenPath, '&');
    var u := FirstMatch(t, 0, UcPath, '&');
    if f.Some? { var _ := Capture(t, f.value, FilePath, '/'); }
    if o.Some? { var _ := Capture(t, o.value, OpenPath, '&'); }
    if u.Some? { var _ := Capture(t, u.value, UcPath, '&'); }
  }

  /** The result depends on the input only through its trimmed form. */
  lemma NormalizeDependsOnTrim(url: string)
    ensures NormalizeGoogleDriveUrl(url) == NormalizeGoogleDriveUrl(Trim(url))
  {
    TrimIdempotent(url);
  }

  /** The `file/d/` shape wins whenever it matches anywhere in the string,
      even after an earlier `open?id=` occurrence; `open?id=` in turn wins
      over `uc?id=`. */
  lemma ShapePrecedence(t: string)
    ensures Search(t, FilePath, '/').Some? ==> DriveFileId(t) == Search(t, FilePath, '/')
    ensures Search(t, FilePath, '/').None? && Search(t, OpenPath, '&').Some? ==>
      DriveFileId(t) == Search(t, OpenPath, '&')
    ensures Search(t, FilePath, '/').None? && Search(t, OpenPath, '&').None? ==>
      DriveFileId(t) == Search(t, UcPath, '&')
  {
  }

  /** A `file/d/` id never holds a `/`; an `open?id=`/`uc?id=` id never holds a `&`. */
  lemma IdAlphabet(t: string)
    ensures Search(t, FilePath, '/').Some? ==> '/' !in Search(t, FilePath, '/').value
    ensures Search(t, OpenPath, '&').Some? ==> '&' !in Search(t, OpenPath, '&').value
    ensures Search(t, UcPath, '&').Some? ==> '&' !in Search(t, UcPath, '&').value
  {
    var f := FirstMatch(t, 0, FilePath, '/');
    var o := FirstMatch(t, 0, OpenPath, '&');
    var u := FirstMatch(t, 0, UcPath, '&');
    if f.Some? { var _ := Capture(t, f.value, FilePath, '/'); }
    if o.Some? { var _ := Capture(t, o.value, OpenPath, '&'); }
    if u.Some? { var _ := Capture(t, u.value, UcPath, '&'); }
  }

  /** The run end is the one position that closes a maximal run. */
  lemma RunEndUnique(s: string, k: nat, e: nat, stop: char)
    requires k <= e <= |s|
    requires forall j :: k <= j < e ==> s[j] != stop
    requires e == |s| || s[e] == stop
    ensures RunEnd(s, k, stop) == e
  {
  }

  /** The canonical form of an id that does not start with `/` matches the
      `file/d/` shape at position 0, and its capture starts right after the
      canonical prefix. */
  lemma CanonicalMatchesFile(id: string)
    requires id != [] && id[0] != '/'
    ensures MatchesAt(Canonical(id), 0, FilePath, '/')
    ensures PrefixEnd(Canonical(id), 0, FilePath) == Some(|CanonicalPrefix|)
  {
    var o := Canonical(id);
    assert CanonicalPrefix == "https" + Host + FilePath;
    assert o[..|CanonicalPrefix|] == CanonicalPrefix;
    assert o[|CanonicalPrefix|] == id[0];
  }

  /** Normalising a canonical URL keeps the id only up to its first `/`. */
  lemma NormalizeOfCanonical(id: string, n: nat)
    requires 0 < n <= |id|
    requires forall j :: 0 <= j < n ==> id[j] != '/'
    requires n == |id| || id[n] == '/'
    ensures NormalizeGoogleDriveUrl(Canonical(id)) == Canonical(id[..n])
  {
    var o := Canonical(id);
    var k := |CanonicalPrefix|;
    assert o[0] == 'h' && o[|o| - 1] == 'w';
    TrimOfTrimmed(o);
    CanonicalMatchesFile(id);
    assert o[k + n] == '/' by {
      if n < |id| { assert o[k + n] == id[n]; } else { assert o[k + n] == PreviewSuffix[0]; }
    }
    forall j | k <= j < k + n ensures o[j] != '/' {
      assert o[j] == id[j - k];
    }
    RunEndUnique(o, k, k + n, '/');
    assert o[k..k + n] == id[..n] by {
      forall j | 0 <= j < n ensures o[k..k + n][j] == id[..n][j] {
        assert o[k + j] == id[j];
      }
    }
  }

  /** Normalising twice equals normalising once whenever the extracted id holds
      no `/`, which is always so for the `file/d/` shape. */
  lemma NormalizeIdempotent(url: string)
    requires DriveFileId(Trim(url)).Some? ==> '/' !in DriveFileId(Trim(url)).value
    ensures NormalizeGoogleDriveUrl(NormalizeGoogleDriveUrl(url)) == NormalizeGoogleDriveUrl(url)
  {
    var t := Trim(url);
    NormalizeCases(url);
    match DriveFileId(t)
    case None =>
      TrimIdempotent(url);
    case Some(id) =>
      assert forall j :: 0 <= j < |id| ==> id[j] != '/';
      NormalizeOfCanonical(id, |id|);
      assert id[..|id|] == id;
  }

  const SlashExample: string := "https://drive.google.com/open?id=a/b"

  /** The `file/d/` shape occurs nowhere in the example. */
  lemma SlashExampleHasNoFileShape()
    ensures Search(SlashExample, FilePath, '/').None?
  {
    var u := SlashExample;
    var p5 := "https" + Host + FilePath;
    var p4 := "http" + Host + FilePath;
    forall j: nat | j <= |u| ensures !MatchesAt(u, j, FilePath, '/') {
      if j + |p5| <= |u| {
        assert u[j..j + |p5|][0] == u[j] && u[j..j + |p5|][25] == u[j + 25];
        assert u[j] != p5[0] || u[j + 25] != p5[25];
      }
      if j + |p4| <= |u| {
        assert u[j..j + |p4|][0] == u[j] && u[j..j + |p4|][4] == u[j + 4];
        assert u[j] != p4[0] || u[j + 4] != p4[4];
      }
    }
    var f := FirstMatch(u, 0, FilePath, '/');
    assert f.None?;
  }

  /** The example's `open?id=` capture is `a/b`. */
  lemma SlashExampleOpenId()
    ensures Search(SlashExample, OpenPath, '&') == Some("a/b")
  {
    var u := SlashExample;
    assert u[..33] == "https" + Host + OpenPath;
    assert MatchesAt(u, 0, OpenPath, '&');
    RunEndUnique(u, 33, 36, '&');
    assert u[33..36] == "a/b";
  }

  lemma SlashExampleId()
    ensures DriveFileId(Trim(SlashExample)) == Some("a/b")
  {
    var u := SlashExample;
    assert u[0] == 'h' && u[|u| - 1] == 'b';
    TrimOfTrimmed(u);
    SlashExampleHasNoFileShape();
    SlashExampleOpenId();
  }

  /** The second pass over the example's result cuts the id at its `/`. */
  lemma SlashExampleSecondPass()
    ensures NormalizeGoogleDriveUrl(Canonical("a/b")) == Canonical("a")
    ensures Canonical("a") != Canonical("a/b")
  {
    var id: string := "a/b";
    assert id[0] != '/' && id[1] == '/';
    NormalizeOfCanonical(id, 1);
    assert id[..1] == "a";
    assert |Canonical("a")| != |Canonical(id)|;
  }

  /** Without that condition idempotence fails: an `open?id=` id may hold a
      `/`, and the second pass cuts the id there. */
  lemma NotIdempotentForSlashInId(u: string)
    requires u == SlashExample
    ensures NormalizeGoogleDriveUrl(u) == Canonical("a/b")
    ensures NormalizeGoogleDriveUrl(NormalizeGoogleDriveUrl(u)) == Canonical("a")
    ensures NormalizeGoogleDriveUrl(NormalizeGoogleDriveUrl(u)) != NormalizeGoogleDriveUrl(u)
  {
    SlashExampleId();
    SlashExampleSecondPass();
  }
}
