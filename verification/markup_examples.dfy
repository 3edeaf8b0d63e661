/** Worked cases of the tag pattern and the two word counters, proved from
    general lemmas about tags and plain words. */
module MarkupExamples {
  import opened Text
  import opened Markup

  /** The opening or closing tag named `name`. */
  function Tag(name: string): string {
    "<" + (name + ">")
  }

  lemma TagThen(name: string, rest: string, rep: string)
    requires '>' !in name
    ensures ReplaceTags(Tag(name) + rest, rep) == rep + ReplaceTags(rest, rep)
  {
    assert Tag(name) + rest == "<" + (name + (">" + rest));
    TagStep(name, rest, rep);
  }

  lemma Layout()
    ensures "<p>a</p><p>b</p>" == Tag("p") + ("a" + (Tag("/p") + (Tag("p") + ("b" + (Tag("/p") + "")))))
  {
  }

  lemma ParagraphsToSpaces()
    ensures TagsToSpaces("<p>a</p><p>b</p>") == " " + ("a" + (" " + (" " + ("b" + (" " + "")))))
  {
    Layout();
    TagThen("p", "a" + (Tag("/p") + (Tag("p") + ("b" + (Tag("/p") + "")))), " ");
    TextThen("a", Tag("/p") + (Tag("p") + ("b" + (Tag("/p") + ""))), " ");
    TagThen("/p", Tag("p") + ("b" + (Tag("/p") + "")), " ");
    TagThen("p", "b" + (Tag("/p") + ""), " ");
    TextThen("b", Tag("/p") + "", " ");
    TagThen("/p", "", " ");
  }

  lemma SpacedRuns()
    ensures Runs(" " + ("a" + (" " + (" " + ("b" + (" " + ""))))), IsSpace) == 2
  {
    var s := " " + ("a" + (" " + (" " + ("b" + (" " + "")))));
    assert s == [' ', 'a', ' ', ' ', 'b', ' '];
    assert RunsFrom(s[5..], IsSpace, false) == 0;
    assert RunsFrom(s[4..], IsSpace, true) == 1;
    assert RunsFrom(s[3..], IsSpace, true) == 1;
    assert RunsFrom(s[2..], IsSpace, false) == 1;
    assert RunsFrom(s[1..], IsSpace, true) == 2;
  }

  lemma ParagraphWords()
    ensures GetWordCount("<p>a</p><p>b</p>") == 2
  {
    ParagraphsToSpaces();
    WordCountIsRuns("<p>a</p><p>b</p>");
    SpacedRuns();
  }

  /** A word adds one run when it starts after a separator. */
  lemma {:induction false} RunsOfWord(a: string, rest: string, atStart: bool)
    requires a != [] && forall i :: 0 <= i < |a| ==> !IsSpace(a[i])
    ensures RunsFrom(a + rest, IsSpace, atStart) == (if atStart then 1 else 0) + RunsFrom(rest, IsSpace, false)
    decreases |a|
  {
    assert (a + rest)[1..] == a[1..] + rest;
    if |a| > 1 {
      RunsOfWord(a[1..], rest, false);
    }
  }

  lemma RunsOfBlank(rest: string, atStart: bool)
    ensures RunsFrom(" " + rest, IsSpace, atStart) == RunsFrom(rest, IsSpace, true)
  {
    assert (" " + rest)[1..] == rest;
  }

  /** A word of running text: not empty, no `<` and no whitespace. */
  predicate IsPlainWord(a: string) {
    a != [] && forall i :: 0 <= i < |a| ==> a[i] != '<' && !IsSpace(a[i])
  }

  lemma HelloLayout()
    ensures "<p>Hello <b>world</b></p>"
         == Tag("p") + ("Hello" + (" " + (Tag("b") + ("world" + (Tag("/b") + (Tag("/p") + ""))))))
  {
  }

  /** Two words, the second in bold, inside a paragraph. */
  lemma BoldToSpaces(a: string, b: string)
    requires IsPlainWord(a) && IsPlainWord(b)
    ensures TagsToSpaces(Tag("p") + (a + (" " + (Tag("b") + (b + (Tag("/b") + (Tag("/p") + "")))))))
         == " " + (a + (" " + (" " + (b + (" " + (" " + ""))))))
  {
    TagThen("p", a + (" " + (Tag("b") + (b + (Tag("/b") + (Tag("/p") + ""))))), " ");
    TextThen(a, " " + (Tag("b") + (b + (Tag("/b") + (Tag("/p") + "")))), " ");
    TextThen(" ", Tag("b") + (b + (Tag("/b") + (Tag("/p") + ""))), " ");
    TagThen("b", b + (Tag("/b") + (Tag("/p") + "")), " ");
    TextThen(b, Tag("/b") + (Tag("/p") + ""), " ");
    TagThen("/b", Tag("/p") + "", " ");
    TagThen("/p", "", " ");
  }

  lemma BoldRuns(a: string, b: string)
    requires IsPlainWord(a) && IsPlainWord(b)
    ensures Runs(" " + (a + (" " + (" " + (b + (" " + (" " + "")))))), IsSpace) == 2
  {
    var tail := " " + (" " + "");
    RunsOfBlank(" " + "", false);
    RunsOfBlank("", true);
    RunsOfWord(b, tail, true);
    RunsOfBlank(b + tail, true);
    RunsOfBlank(" " + (b + tail), false);
    RunsOfWord(a, " " + (" " + (b + tail)), true);
    RunsOfBlank(a + (" " + (" " + (b + tail))), true);
  }

  lemma HelloWords()
    ensures GetWordCount("<p>Hello <b>world</b></p>") == 2
  {
    HelloLayout();
    BoldToSpaces("Hello", "world");
    BoldRuns("Hello", "world");
    WordCountIsRuns("<p>Hello <b>world</b></p>");
  }

  lemma ParagraphsStripped()
    ensures StripTags("<p>a</p><p>b</p>") == "a" + "b"
  {
    var s5 := Tag("/p") + "";
    var s4 := "b" + s5;
    var s3 := Tag("p") + s4;
    var s2 := Tag("/p") + s3;
    var s1 := "a" + s2;
    Layout();
    TagThen("/p", "", "");
    assert ReplaceTags(s5, "") == "";
    TextThen("b", s5, "");
    assert ReplaceTags(s4, "") == "b";
    TagThen("p", s4, "");
    assert ReplaceTags(s3, "") == "b";
    TagThen("/p", s3, "");
    assert ReplaceTags(s2, "") == "b";
    TextThen("a", s2, "");
    assert ReplaceTags(s1, "") == "a" + "b";
    TagThen("p", s1, "");
  }

  /** Without a blank between the paragraphs the post editor sees one word. */
  lemma ParagraphsEditorWords()
    ensures EditorWordCount("<p>a</p><p>b</p>") == 1
  {
    ParagraphsStripped();
    EditorWordCountIsRuns("<p>a</p><p>b</p>");
    assert "a" + "b" == ['a', 'b'];
    assert Runs(['a', 'b'], IsBlank) == 1;
  }

  /** A comparison sign is not a tag: with no `>` after it, it stays. */
  lemma UnclosedStays()
    ensures StripTags("1 < 2") == "1 < 2"
  {
    assert "1 < 2" == "1 " + ("<" + " 2");
    StripTagsKeepsUnclosed("1 ", " 2");
    StripTagsFixpoints("1 ");
  }

  /** Empty content: no rich-text words and no rich-text minutes, but the
      post editor still shows one minute. */
  lemma EmptyContent()
    ensures GetReadingTime("") == 0
    ensures EditorReadingTime("") == 1
    ensures PlainLength("") == 0
  {
  }
}
