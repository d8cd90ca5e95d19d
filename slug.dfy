/** `slugify` of src/app/actions/courses.ts: lower-case, trim, replace each
    run of characters outside `a-z0-9` by one `-`, then drop a leading and a
    trailing `-`. The result is a dash-separated list of the title's
    lower-case letters and digits. */
module Slug {
  import opened Text

  predicate IsSlugChar(c: char) {
    ('a' <= c <= 'z') || ('0' <= c <= '9')
  }

  /** `toLowerCase` on ASCII letters. */
  function LowerChar(c: char): char {
    if 'A' <= c <= 'Z' then (c as int + 32) as char else c
  }

  function Lower(s: string): (r: string)
    ensures |r| == |s|
    ensures forall k :: 0 <= k < |s| ==> r[k] == LowerChar(s[k])
  {
    if s == [] then [] else [LowerChar(s[0])] + Lower(s[1..])
  }

  /** Drops the characters of a run that `[^a-z0-9]+` would swallow. */
  function SkipRun(s: string): (r: string)
    ensures |r| <= |s| && r == s[|s| - |r|..]
    ensures forall k :: 0 <= k < |s| - |r| ==> !IsSlugChar(s[k])
    ensures r != [] ==> IsSlugChar(r[0])
  {
    if s != [] && !IsSlugChar(s[0]) then
      var r := SkipRun(s[1..]);
      assert forall k :: 1 <= k < |s| - |r| ==> s[k] == s[1..][k - 1];
      r
    else s
  }

  /** `replace(/[^a-z0-9]+/g, "-")` */
  function ReplaceRuns(s: string): string
    decreases |s|
  {
    if s == [] then []
    else if IsSlugChar(s[0]) then [s[0]] + ReplaceRuns(s[1..])
    else "-" + ReplaceRuns(SkipRun(s[1..]))
  }

  /** `replace(/(^-|-$)+/g, "")`: at most one `-` goes at each end. */
  function StripDashes(s: string): string {
    var t := if s != [] && s[0] == '-' then s[1..] else s;
    if t != [] && t[|t| - 1] == '-' then t[..|t| - 1] else t
  }

  function Slugify(title: string): string {
    StripDashes(ReplaceRuns(Trim(Lower(title))))
  }

  /** Only `a-z`, `0-9` and `-`, and never two dashes in a row. */
  predicate DashSeparated(s: string) {
    && (forall k :: 0 <= k < |s| ==> IsSlugChar(s[k]) || s[k] == '-')
    && (forall j, k :: 0 <= j < |s| && 0 <= k < |s| && k == j + 1 ==> s[j] != '-' || s[k] != '-')
  }

  /** The shape of every slug base: dash-separated, no dash at either end. */
  predicate IsSlug(s: string) {
    DashSeparated(s) && (s != [] ==> s[0] != '-' && s[|s| - 1] != '-')
  }

  /** The letters and digits of a string, in order. */
  function Alnums(s: string): (r: string)
    ensures |r| <= |s|
  {
    if s == [] then [] else (if IsSlugChar(s[0]) then [s[0]] else []) + Alnums(s[1..])
  }

  lemma {:induction false} AlnumsAppend(a: string, b: string)
    ensures Alnums(a + b) == Alnums(a) + Alnums(b)
  {
    if a == [] {
      assert a + b == b;
    } else {
      var head := if IsSlugChar(a[0]) then [a[0]] else [];
      calc {
        Alnums(a + b);
        { assert (a + b)[0] == a[0]; }
        head + Alnums((a + b)[1..]);
        { assert (a + b)[1..] == a[1..] + b; }
        head + Alnums(a[1..] + b);
        { AlnumsAppend(a[1..], b); }
        head + (Alnums(a[1..]) + Alnums(b));
        Alnums(a) + Alnums(b);
      }
    }
  }

  lemma {:induction false} AlnumsOfNone(s: string)
    requires forall k :: 0 <= k < |s| ==> !IsSlugChar(s[k])
    ensures Alnums(s) == []
  {
    if s != [] {
      AlnumsOfNone(s[1..]);
    }
  }

  /** Dropping characters that are not letters or digits keeps `Alnums`. */
  lemma AlnumsOfSuffix(s: string, n: nat)
    requires n <= |s|
    requires forall k :: 0 <= k < n ==> !IsSlugChar(s[k])
    ensures Alnums(s[n..]) == Alnums(s)
  {
    assert s == s[..n] + s[n..];
    AlnumsAppend(s[..n], s[n..]);
    AlnumsOfNone(s[..n]);
  }

  lemma AlnumsOfPrefix(s: string, n: nat)
    requires n <= |s|
    requires forall k :: n <= k < |s| ==> !IsSlugChar(s[k])
    ensures Alnums(s[..n]) == Alnums(s)
  {
    assert s == s[..n] + s[n..];
    AlnumsAppend(s[..n], s[n..]);
    AlnumsOfNone(s[n..]);
  }

  /** The run replacement yields a dash-separated string that starts with a
      dash exactly when the input starts outside `a-z0-9`. */
  lemma {:induction false} ReplaceRunsShape(s: string)
    ensures DashSeparated(ReplaceRuns(s))
    ensures s != [] ==> ReplaceRuns(s) != [] && (ReplaceRuns(s)[0] == '-' <==> !IsSlugChar(s[0]))
    decreases |s|
  {
    if s == [] {
    } else if IsSlugChar(s[0]) {
      ReplaceRunsShape(s[1..]);
    } else {
      var t := SkipRun(s[1..]);
      ReplaceRunsShape(t);
      var r := ReplaceRuns(t);
      assert t != [] ==> r[0] != '-';
    }
  }

  /** The run replacement keeps every letter and digit, in order. */
  lemma {:induction false} ReplaceRunsAlnums(s: string)
    ensures Alnums(ReplaceRuns(s)) == Alnums(s)
    decreases |s|
  {
    if s == [] {
    } else if IsSlugChar(s[0]) {
      ReplaceRunsAlnums(s[1..]);
    } else {
      var t := SkipRun(s[1..]);
      ReplaceRunsAlnums(t);
      AlnumsOfSuffix(s[1..], |s[1..]| - |t|);
      assert "-" + ReplaceRuns(t) == ['-'] + ReplaceRuns(t);
    }
  }

  /** On a dash-separated string the run replacement changes nothing. */
  lemma {:induction false} ReplaceRunsOfDashSeparated(s: string)
    requires DashSeparated(s)
    ensures ReplaceRuns(s) == s
  {
    if s != [] {
      assert DashSeparated(s[1..]);
      ReplaceRunsOfDashSeparated(s[1..]);
      if !IsSlugChar(s[0]) {
        assert s[1..] != [] ==> IsSlugChar(s[1..][0]);
        assert SkipRun(s[1..]) == s[1..];
      }
    }
  }

  /** Dropping one dash at each end of a dash-separated string leaves a slug. */
  lemma StripDashesIsSlug(s: string)
    requires DashSeparated(s)
    ensures IsSlug(StripDashes(s))
  {
    var t := if s != [] && s[0] == '-' then s[1..] else s;
    assert DashSeparated(t);
    assert t != [] ==> t[0] != '-';
    var u := if t != [] && t[|t| - 1] == '-' then t[..|t| - 1] else t;
    assert u == StripDashes(s);
    assert DashSeparated(u);
  }

  /** Dropping the end dashes of a dash-separated string keeps its letters and digits. */
  lemma StripDashesAlnums(s: string)
    requires DashSeparated(s)
    ensures Alnums(StripDashes(s)) == Alnums(s)
  {
    var t := if s != [] && s[0] == '-' then s[1..] else s;
    AlnumsOfSuffix(s, |s| - |t|);
    if t != [] && t[|t| - 1] == '-' {
      AlnumsOfPrefix(t, |t| - 1);
    }
  }

  /** A slug has no end dash to drop. */
  lemma StripDashesOfSlug(s: string)
    requires IsSlug(s)
    ensures StripDashes(s) == s
  {
  }

  /** Lower-casing leaves a dash-separated string alone. */
  lemma {:induction false} LowerOfSlug(s: string)
    requires DashSeparated(s)
    ensures Lower(s) == s
  {
    if s != [] {
      assert DashSeparated(s[1..]);
      LowerOfSlug(s[1..]);
    }
  }

  /** Every slug base is lower-case letters and digits separated by single
      dashes, with no dash at either end. */
  lemma SlugifyIsSlug(title: string)
    ensures IsSlug(Slugify(title))
  {
    ReplaceRunsShape(Trim(Lower(title)));
    StripDashesIsSlug(ReplaceRuns(Trim(Lower(title))));
  }

  /** The slug keeps exactly the letters and digits of the lower-cased title,
      in order; everything else became a separator. */
  lemma SlugifyKeepsAlnums(title: string)
    ensures Alnums(Slugify(title)) == Alnums(Lower(title))
  {
    var l := Lower(title);
    var u := TrimStart(l);
    AlnumsOfSuffix(l, |l| - |u|);
    AlnumsOfPrefix(u, |TrimEnd(u)|);
    ReplaceRunsShape(Trim(l));
    ReplaceRunsAlnums(Trim(l));
    StripDashesAlnums(ReplaceRuns(Trim(l)));
  }

  /** A slug is its own slug. */
  lemma SlugifyOfSlug(s: string)
    requires IsSlug(s)
    ensures Slugify(s) == s
  {
    LowerOfSlug(s);
    assert s != [] ==> IsSlugChar(s[0]) && IsSlugChar(s[|s| - 1]);
    TrimOfTrimmed(s);
    assert Slugify(s) == StripDashes(ReplaceRuns(s));
    ReplaceRunsOfDashSeparated(s);
    StripDashesOfSlug(s);
  }

  /** `slugify(slugify(s)) == slugify(s)`. */
  lemma SlugifyIdempotent(title: string)
    ensures Slugify(Slugify(title)) == Slugify(title)
  {
    SlugifyIsSlug(title);
    SlugifyOfSlug(Slugify(title));
  }
}
