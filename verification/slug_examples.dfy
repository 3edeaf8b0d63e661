/** Worked slugs: what the chain in `Slug.Slugify` gives for a few titles,
    proved from general lemmas about words separated by punctuation or
    blanks. */
module SlugExamples {
  import opened Text
  import opened Slug

  /** A non-empty run of lower-case ASCII letters. */
  predicate IsWord(a: string) {
    a != [] && forall i :: 0 <= i < |a| ==> IsAsciiLower(a[i])
  }

  /** A non-empty run of plain spaces. */
  predicate IsBlank(w: string) {
    w != [] && forall i :: 0 <= i < |w| ==> w[i] == ' '
  }

  /** A comma and an exclamation mark are dropped, the space is kept. */
  lemma KeepPunctuated(a: string, b: string)
    requires IsWord(a) && IsWord(b)
    ensures KeepSlugChars(a + (", " + (b + "!"))) == a + (" " + b)
  {
    KeepSlugCharsConcat(a, ", " + (b + "!"));
    KeepSlugCharsConcat(", ", b + "!");
    KeepSlugCharsConcat(b, "!");
    KeepSlugCharsIdentity(a);
    KeepSlugCharsIdentity(b);
    assert KeepSlugChars(", ") == " ";
    assert KeepSlugChars("!") == [];
    assert b + [] == b;
  }

  /** A blank run before a word becomes one hyphen. */
  lemma DashBlank(w: string, y: string)
    requires IsBlank(w)
    requires y == [] || IsAsciiLower(y[0])
    ensures ReplaceRuns(w + y, IsSpace, '-') == "-" + ReplaceRuns(y, IsSpace, '-')
  {
    assert forall i :: 0 <= i < |w| ==> IsSpace(w[i]);
    ReplaceRunsLeadingRun(w, y, IsSpace, '-');
  }

  /** A word in front of the rest is kept as it is. */
  lemma DashAfterWord(a: string, y: string)
    requires IsWord(a)
    ensures ReplaceRuns(a + y, IsSpace, '-') == a + ReplaceRuns(y, IsSpace, '-')
  {
    ReplaceRunsConcat(a, y, IsSpace, '-');
    ReplaceRunsIdentity(a, IsSpace, '-');
  }

  /** One space between two words becomes one hyphen. */
  lemma DashTwoWords(a: string, b: string)
    requires IsWord(a) && IsWord(b)
    ensures ReplaceRuns(a + (" " + b), IsSpace, '-') == a + ("-" + b)
  {
    DashAfterWord(a, " " + b);
    DashBlank(" ", b);
    DashAfterWord(b, []);
    assert b + [] == b;
  }

  lemma HyphenTwoWords(a: string, b: string)
    requires IsWord(a) && IsWord(b)
    ensures IsSlug(a + ("-" + b))
  {
    var s := a + ("-" + b);
    forall i | 0 <= i < |s| ensures IsSlugChar(s[i]) {
      if i < |a| { assert s[i] == a[i]; } else if i > |a| { assert s[i] == b[i - |a| - 1]; }
    }
    forall i | 0 <= i < |s| - 1 ensures !(IsHyphen(s[i]) && IsHyphen(s[i + 1])) {
      if i < |a| { assert s[i] == a[i]; } else { assert s[i + 1] == b[i - |a|]; }
    }
  }

  /** "Word, word!" gives "word-word". */
  lemma SlugOfGreeting(title: string, a: string, b: string)
    requires IsWord(a) && IsWord(b)
    requires Lower(title) == a + (", " + (b + "!"))
    ensures Slugify(title) == a + ("-" + b)
  {
    KeepPunctuated(a, b);
    DashTwoWords(a, b);
    HyphenTwoWords(a, b);
    ReplaceRunsIdentity(a + ("-" + b), IsHyphen, '-');
    SlugifyIsSlug(title);
  }

  lemma LowerGreeting()
    ensures Lower("Hello, World!") == "hello" + (", " + ("world" + "!"))
  {
  }

  lemma JoinGreeting()
    ensures "hello" + ("-" + "world") == "hello-world"
  {
  }

  lemma HelloWorld()
    ensures Slugify("Hello, World!") == "hello-world"
  {
    LowerGreeting();
    SlugOfGreeting("Hello, World!", "hello", "world");
    JoinGreeting();
  }

  /** Blanks before, between and after two words: every run becomes a
      hyphen, and the closing `trim()` removes none of them. */
  lemma KeepPadded(w1: string, a: string, w2: string, b: string, w3: string)
    requires IsBlank(w1) && IsBlank(w2) && IsBlank(w3) && IsWord(a) && IsWord(b)
    ensures KeepSlugChars(w1 + (a + (w2 + (b + w3)))) == w1 + (a + (w2 + (b + w3)))
  {
    KeepSlugCharsConcat(w1, a + (w2 + (b + w3)));
    KeepSlugCharsConcat(a, w2 + (b + w3));
    KeepSlugCharsConcat(w2, b + w3);
    KeepSlugCharsConcat(b, w3);
    KeepSlugCharsIdentity(w1);
    KeepSlugCharsIdentity(a);
    KeepSlugCharsIdentity(w2);
    KeepSlugCharsIdentity(b);
    KeepSlugCharsIdentity(w3);
  }

  lemma DashPadded(w1: string, a: string, w2: string, b: string, w3: string)
    requires IsBlank(w1) && IsBlank(w2) && IsBlank(w3) && IsWord(a) && IsWord(b)
    ensures ReplaceRuns(w1 + (a + (w2 + (b + w3))), IsSpace, '-') == "-" + (a + ("-" + (b + "-")))
  {
    var t3 := b + w3;
    var t2 := w2 + t3;
    var t1 := a + t2;
    DashBlank(w3, []);
    assert w3 + [] == w3;
    assert ReplaceRuns(w3, IsSpace, '-') == "-";
    DashAfterWord(b, w3);
    assert ReplaceRuns(t3, IsSpace, '-') == b + "-";
    assert t3[0] == b[0];
    DashBlank(w2, t3);
    assert ReplaceRuns(t2, IsSpace, '-') == "-" + (b + "-");
    DashAfterWord(a, t2);
    assert ReplaceRuns(t1, IsSpace, '-') == a + ("-" + (b + "-"));
    assert t1[0] == a[0];
    DashBlank(w1, t1);
  }

  lemma HyphenPadded(a: string, b: string)
    requires IsWord(a) && IsWord(b)
    ensures IsSlug("-" + (a + ("-" + (b + "-"))))
  {
    var s := "-" + (a + ("-" + (b + "-")));
    forall i | 0 <= i < |s| ensures IsSlugChar(s[i]) {
      if 0 < i <= |a| { assert s[i] == a[i - 1]; }
      else if |a| + 1 < i < |s| - 1 { assert s[i] == b[i - |a| - 2]; }
    }
    forall i | 0 <= i < |s| - 1 ensures !(IsHyphen(s[i]) && IsHyphen(s[i + 1])) {
      if i == 0 { assert s[1] == a[0]; }
      else if i <= |a| { assert s[i] == a[i - 1]; }
      else if i == |a| + 1 { assert s[i + 1] == b[0]; }
      else { assert s[i] == b[i - |a| - 2]; }
    }
  }

  /** A title padded with blanks keeps a hyphen at each end. */
  lemma SlugOfPadded(title: string, w1: string, a: string, w2: string, b: string, w3: string)
    requires IsBlank(w1) && IsBlank(w2) && IsBlank(w3) && IsWord(a) && IsWord(b)
    requires Lower(title) == w1 + (a + (w2 + (b + w3)))
    ensures Slugify(title) == "-" + (a + ("-" + (b + "-")))
  {
    KeepPadded(w1, a, w2, b, w3);
    DashPadded(w1, a, w2, b, w3);
    HyphenPadded(a, b);
    ReplaceRunsIdentity("-" + (a + ("-" + (b + "-"))), IsHyphen, '-');
    SlugifyIsSlug(title);
  }

  lemma LowerPadded()
    ensures Lower("  multiple   spaces  ") == "  " + ("multiple" + ("   " + ("spaces" + "  ")))
  {
  }

  lemma JoinPadded()
    ensures "-" + ("multiple" + ("-" + ("spaces" + "-"))) == "-multiple-spaces-"
  {
  }

  /** The leading and trailing blanks survive as hyphens: `trim()` runs after
      whitespace has already become `-`. */
  lemma MultipleSpaces()
    ensures Slugify("  multiple   spaces  ") == "-multiple-spaces-"
  {
    LowerPadded();
    SlugOfPadded("  multiple   spaces  ", "  ", "multiple", "   ", "spaces", "  ");
    JoinPadded();
  }

  lemma EmptyTitle()
    ensures Slugify("") == ""
  {
  }
}
