/** What the admin app derives from post content written as HTML: the text
    without its tags, the auto-filled excerpt, the word and character counts
    and the reading time. Tags are matched with the regular expression
    `<[^>]*>` applied globally. */
module Markup {
  import opened Text
  import opened Lists

  /** `s.replace(/<[^>]*>/g, rep)`. Scanning from the left: a `<` that has a
      `>` somewhere after it starts a tag, which ends at the first such `>`
      and is replaced by `rep`; a `<` with no later `>` is ordinary text. */
  function ReplaceTags(s: string, rep: string): string
    decreases |s|
  {
    if s == [] then []
    else if s[0] == '<' && '>' in s[1..] then rep + ReplaceTags(AfterTag(s), rep)
    else [s[0]] + ReplaceTags(s[1..], rep)
  }

  /** What follows the tag that opens `s`. */
  function AfterTag(s: string): (t: string)
    requires s != [] && '>' in s[1..]
    ensures |t| < |s| - 1 && t == s[|s| - |t|..]
    ensures '>' !in s[1..|s| - |t| - 1] && s[|s| - |t| - 1] == '>'
  {
    var k := IndexOf(s[1..], '>');
    assert s[1..][..k] == s[1..k + 1];
    s[1..][k + 1..]
  }

  /** The plain text of some content: every tag removed. Nothing is added,
      so the text never grows and keeps only characters of the content, and
      no `>` is left after any `<`. */
  function StripTags(s: string): (r: string)
    ensures |r| <= |s|
    ensures forall c :: c in r ==> c in s
    ensures NoTag(r)
  {
    ReplaceTagsShorter(s, "");
    ReplaceTagsAlphabet(s, "");
    ReplaceTagsNoTag(s, "");
    ReplaceTags(s, "")
  }

  /** The content with every tag turned into a blank, as the word counter of
      the rich-text editor reads it. A tag is at least two characters, so the
      text never grows, and no tag is left. */
  function TagsToSpaces(s: string): (r: string)
    ensures |r| <= |s|
    ensures NoTag(r)
  {
    ReplaceTagsShorter(s, " ");
    ReplaceTagsNoTag(s, " ");
    ReplaceTags(s, " ")
  }

  /** No `>` comes after any `<`: the text holds nothing the pattern matches. */
  predicate NoTag(t: string) {
    forall i, j :: 0 <= i < j < |t| && t[i] == '<' ==> t[j] != '>'
  }

  /** A tag is at least two characters long, so a replacement of at most two
      characters never lengthens the text. */
  lemma {:induction false} ReplaceTagsShorter(s: string, rep: string)
    requires |rep| <= 2
    ensures |ReplaceTags(s, rep)| <= |s|
    decreases |s|
  {
    if s != [] {
      if s[0] == '<' && '>' in s[1..] {
        ReplaceTagsShorter(AfterTag(s), rep);
      } else {
        ReplaceTagsShorter(s[1..], rep);
      }
    }
  }

  /** Every character of the result comes from the input or from the
      replacement. */
  lemma {:induction false} ReplaceTagsAlphabet(s: string, rep: string)
    ensures forall c :: c in ReplaceTags(s, rep) ==> c in s || c in rep
    decreases |s|
  {
    if s != [] {
      if s[0] == '<' && '>' in s[1..] {
        var t := AfterTag(s);
        ReplaceTagsAlphabet(t, rep);
        forall c | c in t ensures c in s {
          var k :| 0 <= k < |t| && t[k] == c;
          assert s[|s| - |t| + k] == c;
        }
      } else {
        ReplaceTagsAlphabet(s[1..], rep);
      }
    }
  }

  /** With a replacement that holds neither `<` nor `>`, nothing the pattern
      matches is left in the result. */
  lemma {:induction false} ReplaceTagsNoTag(s: string, rep: string)
    requires '<' !in rep && '>' !in rep
    ensures NoTag(ReplaceTags(s, rep))
    decreases |s|
  {
    if s != [] {
      var r := ReplaceTags(s, rep);
      if s[0] == '<' && '>' in s[1..] {
        var rest := ReplaceTags(AfterTag(s), rep);
        ReplaceTagsNoTag(AfterTag(s), rep);
        assert r == rep + rest;
        forall i, j | 0 <= i < j < |r| && r[i] == '<' ensures r[j] != '>' {
          assert r[i] == rest[i - |rep|];
          assert r[j] == rest[j - |rep|];
        }
      } else {
        var rest := ReplaceTags(s[1..], rep);
        ReplaceTagsNoTag(s[1..], rep);
        assert r == [s[0]] + rest;
        if s[0] == '<' {
          ReplaceTagsAlphabet(s[1..], rep);
          assert '>' !in rest;
        }
        forall i, j | 0 <= i < j < |r| && r[i] == '<' ensures r[j] != '>' {
          assert r[j] == rest[j - 1];
          if i > 0 {
            assert r[i] == rest[i - 1];
          }
        }
      }
    }
  }

  /** Text the pattern does not match is left unchanged. */
  lemma {:induction false} ReplaceTagsIdentity(t: string, rep: string)
    requires NoTag(t)
    ensures ReplaceTags(t, rep) == t
    decreases |t|
  {
    if t != [] {
      if t[0] == '<' {
        assert '>' !in t[1..] by {
          forall j | 0 <= j < |t[1..]| ensures t[1..][j] != '>' {
            assert t[1..][j] == t[j + 1];
          }
        }
      }
      assert NoTag(t[1..]) by {
        forall i, j | 0 <= i < j < |t[1..]| && t[1..][i] == '<' ensures t[1..][j] != '>' {
          assert t[1..][i] == t[i + 1] && t[1..][j] == t[j + 1];
        }
      }
      ReplaceTagsIdentity(t[1..], rep);
      assert t == [t[0]] + t[1..];
    }
  }

  /** Text after which no `>` follows can be processed on its own: every `<`
      in front of it either closes in front of it or not at all. */
  lemma {:induction false} ReplaceTagsConcat(a: string, x: string, rep: string)
    requires '>' !in x
    ensures ReplaceTags(a + x, rep) == ReplaceTags(a, rep) + ReplaceTags(x, rep)
    decreases |a|
  {
    if a == [] {
      assert a + x == x;
    } else {
      var s := a + x;
      assert s[0] == a[0];
      assert s[1..] == a[1..] + x;
      if a[0] == '<' && '>' in a[1..] {
        var t := AfterTag(a);
        var u := AfterTag(s);
        assert '>' in s[1..];
        assert s[|a| - |t| - 1] == '>';
        assert u == t + x;
        ReplaceTagsConcat(t, x, rep);
      } else {
        if a[0] == '<' {
          assert '>' !in s[1..];
        }
        ReplaceTagsConcat(a[1..], x, rep);
      }
    }
  }

  /** A complete tag at the front is replaced and the scan resumes after it. */
  lemma TagStep(t: string, rest: string, rep: string)
    requires '>' !in t
    ensures ReplaceTags("<" + (t + (">" + rest)), rep) == rep + ReplaceTags(rest, rep)
  {
    var s := "<" + (t + (">" + rest));
    assert s[1..] == t + (">" + rest);
    assert s[|t| + 1] == '>';
    assert AfterTag(s) == rest;
  }

  /** A character other than `<` is copied. */
  lemma TextStep(c: char, rest: string, rep: string)
    requires c != '<'
    ensures ReplaceTags([c] + rest, rep) == [c] + ReplaceTags(rest, rep)
  {
    assert ([c] + rest)[1..] == rest;
  }

  /** Text without a `<` is copied. */
  lemma {:induction false} TextThen(w: string, rest: string, rep: string)
    requires '<' !in w
    ensures ReplaceTags(w + rest, rep) == w + ReplaceTags(rest, rep)
    decreases |w|
  {
    if w == [] {
      assert w + rest == rest;
    } else {
      assert w[0] in w;
      assert w + rest == [w[0]] + (w[1..] + rest);
      TextStep(w[0], w[1..] + rest, rep);
      assert forall c :: c in w[1..] ==> c in w;
      TextThen(w[1..], rest, rep);
      calc {
        ReplaceTags(w + rest, rep);
        [w[0]] + ReplaceTags(w[1..] + rest, rep);
        [w[0]] + (w[1..] + ReplaceTags(rest, rep));
        { assert w == [w[0]] + w[1..]; }
        w + ReplaceTags(rest, rep);
      }
    }
  }

  /** Stripping stripped text changes nothing. */
  lemma StripTagsIdempotent(s: string)
    ensures StripTags(StripTags(s)) == StripTags(s)
  {
    ReplaceTagsIdentity(StripTags(s), "");
  }

  /** Stripping leaves exactly the texts without a tag unchanged. */
  lemma StripTagsFixpoints(s: string)
    ensures StripTags(s) == s <==> NoTag(s)
  {
    if NoTag(s) {
      ReplaceTagsIdentity(s, "");
    }
  }

  /** A `<` with no later `>` survives stripping, with everything after it. */
  lemma StripTagsKeepsUnclosed(a: string, b: string)
    requires '>' !in b
    ensures StripTags(a + ("<" + b)) == StripTags(a) + ("<" + b)
  {
    var x := "<" + b;
    assert '>' !in x by {
      forall j | 0 <= j < |x| ensures x[j] != '>' {
        if j > 0 { assert x[j] == b[j - 1]; }
      }
    }
    ReplaceTagsConcat(a, x, "");
    assert NoTag(x);
    ReplaceTagsIdentity(x, "");
  }

  /** `html.replace(/<[^>]*>/g, '').length`, the character count shown by both
      editors. It is the whole length exactly when there is no tag. */
  function PlainLength(html: string): (n: nat)
    ensures n <= |html|
  {
    |StripTags(html)|
  }

  lemma {:induction false} StripTagsKeepsLength(s: string)
    ensures |StripTags(s)| == |s| <==> NoTag(s)
    decreases |s|
  {
    if NoTag(s) {
      ReplaceTagsIdentity(s, "");
    } else if s != [] {
      if s[0] == '<' && '>' in s[1..] {
        ReplaceTagsShorter(AfterTag(s), "");
      } else {
        StripTagsKeepsLength(s[1..]);
        assert !NoTag(s[1..]) by {
          var i, j :| 0 <= i < j < |s| && s[i] == '<' && s[j] == '>';
          assert s[1..][j - 1] == '>';
          assert i > 0;
          assert s[1..][i - 1] == '<';
        }
      }
    }
  }

  /** The excerpt the post editor fills in: the first 160 characters of the
      stripped content (all of it when shorter), then `...`. */
  function Excerpt(content: string): (r: string)
    ensures |r| <= 163 && |r| >= 3 && r[|r| - 3..] == "..."
    ensures |r| - 3 == Min(160, |StripTags(content)|)
    ensures r[..|r| - 3] == StripTags(content)[..|r| - 3]
  {
    var plain := StripTags(content);
    plain[..Min(160, |plain|)] + "..."
  }

  function Min(a: int, b: int): int {
    if a <= b then a else b
  }

  /** `Math.ceil(words / 200)`, at 200 words per minute: the fewest whole
      minutes whose 200-word capacity covers the words. */
  function ReadingMinutes(words: nat): (m: nat)
    ensures m * 200 >= words
    ensures m == 0 || (m - 1) * 200 < words
  {
    (words + 199) / 200
  }

  /** More words never take less time. */
  lemma ReadingMinutesMonotone(w1: nat, w2: nat)
    requires w1 <= w2
    ensures ReadingMinutes(w1) <= ReadingMinutes(w2)
  {
  }

  lemma ReadingMinutesExamples()
    ensures ReadingMinutes(0) == 0
    ensures ReadingMinutes(1) == 1
    ensures ReadingMinutes(200) == 1
    ensures ReadingMinutes(400) == 2
    ensures ReadingMinutes(401) == 3
  {
  }

  /** `getWordCount` of the rich-text editor: tags become blanks, whitespace
      runs become one blank, the ends are trimmed, and the pieces of a split
      on blanks are counted; an empty text counts 0. The count is 0 exactly
      when nothing but whitespace is left once tags are read as blanks. */
  function GetWordCount(html: string): (n: nat)
    ensures n == 0 <==> forall i :: 0 <= i < |TagsToSpaces(html)| ==> IsSpace(TagsToSpaces(html)[i])
  {
    var spaced := TagsToSpaces(html);
    var collapsed := ReplaceRuns(spaced, IsSpace, ' ');
    RunsZero(collapsed, IsSpace, true);
    RunsReplaceRuns(spaced, IsSpace, ' ', true);
    RunsZero(spaced, IsSpace, true);
    var text := Trim(collapsed);
    if text == [] then 0 else |Split(text, ' ')|
  }

  /** Every whitespace character is a blank and no two are adjacent. */
  predicate SingleBlanks(s: string) {
    (forall i :: 0 <= i < |s| ==> IsSpace(s[i]) ==> s[i] == ' ') && NoAdjacent(s, IsSpace)
  }

  lemma SingleBlanksSlice(s: string, lo: nat, hi: nat)
    requires SingleBlanks(s) && lo <= hi <= |s|
    ensures SingleBlanks(s[lo..hi])
  {
    var t := s[lo..hi];
    assert forall i :: 0 <= i < |t| ==> t[i] == s[lo + i];
  }

  /** Collapsing whitespace runs to one blank leaves single blanks. */
  lemma CollapsedSingleBlanks(u0: string)
    ensures SingleBlanks(ReplaceRuns(u0, IsSpace, ' '))
  {
    var u1 := ReplaceRuns(u0, IsSpace, ' ');
    ReplaceRunsAlphabet(u0, IsSpace, ' ');
    ReplaceRunsNoAdjacent(u0, IsSpace, ' ');
    forall i | 0 <= i < |u1| && IsSpace(u1[i]) ensures u1[i] == ' ' {
      assert u1[i] in u1;
    }
  }

  /** Trimming keeps single blanks and leaves none at the ends. */
  lemma TrimSingleBlanks(u: string)
    requires SingleBlanks(u)
    ensures SingleBlanks(Trim(u))
    ensures Trim(u) != [] ==> !IsSpace(Trim(u)[0]) && !IsSpace(Trim(u)[|Trim(u)| - 1])
  {
    var d := DropWhile(u, IsSpace);
    var text := TrimEnd(d);
    assert d == u[|u| - |d|..];
    SingleBlanksSlice(u, |u| - |d|, |u|);
    assert SingleBlanks(d);
    SingleBlanksSlice(d, 0, |text|);
    assert text == d[0..|text|];
    assert Trim(u) == text;
    TrimEnds(u);
  }

  /** The rich-text word count is the number of maximal non-whitespace runs
      left once tags are read as blanks. */
  lemma WordCountIsRuns(html: string)
    ensures GetWordCount(html) == Runs(TagsToSpaces(html), IsSpace)
  {
    var u0 := TagsToSpaces(html);
    var u1 := ReplaceRuns(u0, IsSpace, ' ');
    var text := Trim(u1);
    assert GetWordCount(html) == if text == [] then 0 else |Split(text, ' ')|;
    RunsReplaceRuns(u0, IsSpace, ' ', true);
    RunsTrim(u1);
    if text != [] {
      CollapsedSingleBlanks(u0);
      TrimSingleBlanks(u1);
      RunsOfSingleBlanks(text, true);
    }
  }

  /** `getReadingTime`: minutes for the rich-text word count. */
  function GetReadingTime(html: string): (m: nat)
    ensures m == 0 <==> GetWordCount(html) == 0
  {
    ReadingMinutes(GetWordCount(html))
  }

  predicate IsBlank(c: char) {
    c == ' '
  }

  predicate NonEmpty(word: string) {
    |word| > 0
  }

  /** The post editor's word count: the stripped text split on single
      blanks, empty pieces dropped. It never exceeds the number of pieces,
      which is what the editor's reading time counts. */
  function EditorWordCount(content: string): (n: nat)
    ensures n <= Count(StripTags(content), ' ') + 1
  {
    |Filter(Split(StripTags(content), ' '), NonEmpty)|
  }

  /** Counting the non-empty pieces of a split on blanks counts the maximal
      runs of non-blank characters. */
  lemma {:induction false} NonEmptyPiecesAreRuns(t: string, atStart: bool)
    ensures RunsFrom(t, IsBlank, atStart)
         == |Filter(Split(t, ' ')[1..], NonEmpty)| + (if atStart && Split(t, ' ')[0] != [] then 1 else 0)
    decreases |t|
  {
    if t != [] {
      var rest := Split(t[1..], ' ');
      NonEmptyPiecesAreRuns(t[1..], IsBlank(t[0]));
      if t[0] == ' ' {
        assert Split(t, ' ')[1..] == rest;
        assert rest == [rest[0]] + rest[1..];
        FilterConcat([rest[0]], rest[1..], NonEmpty);
      } else {
        assert Split(t, ' ')[1..] == rest[1..];
      }
    }
  }

  /** The post editor's word count is the number of maximal runs of
      non-blank characters in the stripped text. */
  lemma EditorWordCountIsRuns(content: string)
    ensures EditorWordCount(content) == Runs(StripTags(content), IsBlank)
  {
    var t := StripTags(content);
    NonEmptyPiecesAreRuns(t, true);
    var pieces := Split(t, ' ');
    assert pieces == [pieces[0]] + pieces[1..];
    FilterConcat([pieces[0]], pieces[1..], NonEmpty);
  }

  /** `calculateReadingTime` of the post editor: minutes for the number of
      pieces of the stripped text split on blanks, empty pieces included. */
  function EditorReadingTime(content: string): (m: nat)
    ensures m >= 1
    ensures m == ReadingMinutes(Count(StripTags(content), ' ') + 1)
  {
    ReadingMinutes(|Split(StripTags(content), ' ')|)
  }
}
