/** The URL slug the admin app derives from a post title or a category name.
    The same five-step chain -- lower-case, drop every character outside
    `[a-z0-9\s-]`, turn each whitespace run into `-`, collapse each `-` run,
    `trim()` -- is written out four times in the source; `Slugify` is that
    chain, defined once. */
module Slug {
  import opened Text

  /** The characters `[a-z0-9\s-]` keeps. */
  predicate IsKept(c: char) {
    IsAsciiLower(c) || IsDigit(c) || IsSpace(c) || c == '-'
  }

  /** The characters a slug is made of. */
  predicate IsSlugChar(c: char) {
    IsAsciiLower(c) || IsDigit(c) || c == '-'
  }

  predicate IsHyphen(c: char) {
    c == '-'
  }

  /** `.replace(/[^a-z0-9\s-]/g, '')`: the kept characters, in order. */
  function KeepSlugChars(s: string): (r: string)
    ensures |r| <= |s|
    ensures forall i :: 0 <= i < |r| ==> IsKept(r[i])
  {
    if s == [] then []
    else (if IsKept(s[0]) then [s[0]] else []) + KeepSlugChars(s[1..])
  }

  /** Dropping nothing: a string of kept characters is unchanged. */
  lemma {:induction false} KeepSlugCharsIdentity(s: string)
    requires forall i :: 0 <= i < |s| ==> IsKept(s[i])
    ensures KeepSlugChars(s) == s
  {
    if s != [] {
      KeepSlugCharsIdentity(s[1..]);
      assert s == [s[0]] + s[1..];
    }
  }

  /** Character filtering works piece by piece. */
  lemma {:induction false} KeepSlugCharsConcat(a: string, b: string)
    ensures KeepSlugChars(a + b) == KeepSlugChars(a) + KeepSlugChars(b)
  {
    if a == [] {
      assert a + b == b;
    } else {
      assert (a + b)[1..] == a[1..] + b;
      KeepSlugCharsConcat(a[1..], b);
    }
  }

  /** The slug of a title: lower-cased, characters outside `[a-z0-9\s-]`
      dropped, whitespace runs and then hyphen runs turned into one `-`, and
      the ends trimmed. No step lengthens the text, so a slug is never longer
      than its title. */
  function Slugify(title: string): (r: string)
    ensures |r| <= |title|
  {
    Trim(ReplaceRuns(ReplaceRuns(KeepSlugChars(Lower(title)), IsSpace, '-'), IsHyphen, '-'))
  }

  /** A well-formed slug: lower-case letters, digits and single hyphens. */
  predicate IsSlug(s: string) {
    (forall i :: 0 <= i < |s| ==> IsSlugChar(s[i])) && NoAdjacent(s, IsHyphen)
  }

  /** The two run replacements turn kept characters into a well-formed
      slug. */
  lemma CollapsedIsSlug(kept: string)
    requires forall i :: 0 <= i < |kept| ==> IsKept(kept[i])
    ensures IsSlug(ReplaceRuns(ReplaceRuns(kept, IsSpace, '-'), IsHyphen, '-'))
  {
    var dashed := ReplaceRuns(kept, IsSpace, '-');
    var collapsed := ReplaceRuns(dashed, IsHyphen, '-');
    ReplaceRunsAlphabet(kept, IsSpace, '-');
    ReplaceRunsAlphabet(dashed, IsHyphen, '-');
    forall i | 0 <= i < |collapsed| ensures IsSlugChar(collapsed[i]) {
      assert collapsed[i] in collapsed;
      if collapsed[i] != '-' {
        assert collapsed[i] in dashed;
        var k :| 0 <= k < |kept| && kept[k] == collapsed[i];
        assert IsKept(kept[k]);
      }
    }
    ReplaceRunsNoAdjacent(dashed, IsHyphen, '-');
  }

  /** Every slug is made of `a-z`, `0-9` and `-` and never holds `--`. The
      closing `trim()` has nothing left to remove, since whitespace was
      already turned into hyphens. */
  lemma SlugifyIsSlug(title: string)
    ensures IsSlug(Slugify(title))
    ensures Slugify(title) == ReplaceRuns(ReplaceRuns(KeepSlugChars(Lower(title)), IsSpace, '-'), IsHyphen, '-')
  {
    var collapsed := ReplaceRuns(ReplaceRuns(KeepSlugChars(Lower(title)), IsSpace, '-'), IsHyphen, '-');
    CollapsedIsSlug(KeepSlugChars(Lower(title)));
    TrimNoSpace(collapsed);
  }

  /** A well-formed slug is its own slug. */
  lemma SlugifyFixesSlugs(s: string)
    requires IsSlug(s)
    ensures Slugify(s) == s
  {
    assert forall i :: 0 <= i < |s| ==> !IsAsciiUpper(s[i]) && IsKept(s[i]) && !IsSpace(s[i]);
    LowerOfLower(s);
    KeepSlugCharsIdentity(s);
    assert KeepSlugChars(Lower(s)) == s;
    assert NoAdjacent(s, IsSpace);
    ReplaceRunsIdentity(s, IsSpace, '-');
    assert forall i :: 0 <= i < |s| ==> IsHyphen(s[i]) ==> s[i] == '-';
    ReplaceRunsIdentity(s, IsHyphen, '-');
    TrimNoSpace(s);
  }

  /** Slugging a slug again returns it unchanged. */
  lemma SlugifyIdempotent(title: string)
    ensures Slugify(Slugify(title)) == Slugify(title)
  {
    SlugifyIsSlug(title);
    SlugifyFixesSlugs(Slugify(title));
  }

  /** The strings `Slugify` leaves unchanged are exactly the well-formed
      slugs. */
  lemma SlugifyFixpoints(s: string)
    ensures Slugify(s) == s <==> IsSlug(s)
  {
    SlugifyIsSlug(s);
    if IsSlug(s) {
      SlugifyFixesSlugs(s);
    }
  }
}
