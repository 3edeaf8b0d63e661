/** The JavaScript string operations the admin app builds its text processing
    from: character classes, `toLowerCase`, `trim`, `includes`, `split`, and
    the global regular-expression replacement of character runs. */
module Text {

  /** The characters matched by JavaScript's `\s` and removed by `trim()`:
      the WhiteSpace and LineTerminator code points of ECMAScript. */
  predicate IsSpace(c: char) {
    c == ' ' || c == '\t' || c == '\n' || c == '\r' || c == '\U{000B}' || c == '\U{000C}'
    || c == '\U{00A0}' || c == '\U{1680}' || ('\U{2000}' <= c <= '\U{200A}')
    || c == '\U{2028}' || c == '\U{2029}' || c == '\U{202F}' || c == '\U{205F}'
    || c == '\U{3000}' || c == '\U{FEFF}'
  }

  predicate IsAsciiUpper(c: char) { 'A' <= c <= 'Z' }

  predicate IsAsciiLower(c: char) { 'a' <= c <= 'z' }

  predicate IsDigit(c: char) { '0' <= c <= '9' }

  /** `toLowerCase` on one character, for the ASCII letters. */
  function LowerChar(c: char): char {
    if IsAsciiUpper(c) then (c as int + 32) as char else c
  }

  /** `s.toLowerCase()`: the same length, every ASCII capital lowered, every
      other character kept, so no ASCII capital is left. */
  function Lower(s: string): (r: string)
    ensures |r| == |s|
    ensures forall i :: 0 <= i < |s| ==> r[i] == LowerChar(s[i])
    ensures forall i :: 0 <= i < |r| ==> !IsAsciiUpper(r[i])
  {
    seq(|s|, i requires 0 <= i < |s| => LowerChar(s[i]))
  }

  /** A string with no ASCII capital is its own lower-case form. */
  lemma LowerOfLower(s: string)
    requires forall i :: 0 <= i < |s| ==> !IsAsciiUpper(s[i])
    ensures Lower(s) == s
  {
  }

  predicate StartsWith(s: string, t: string) {
    |t| <= |s| && s[..|t|] == t
  }

  /** `t` occurs in `s` starting at position `i`. */
  predicate OccursAt(s: string, t: string, i: nat) {
    i + |t| <= |s| && s[i..i + |t|] == t
  }

  /** `s.includes(t)`: `t` occurs in `s` at some position. Every string
      includes the empty string, and nothing longer than itself. */
  predicate Contains(s: string, t: string)
    ensures Contains(s, t) ==> |t| <= |s|
    ensures t == [] ==> Contains(s, t)
    decreases |s|
  {
    StartsWith(s, t) || (s != [] && Contains(s[1..], t))
  }

  /** `includes` holds exactly when `t` occurs at some position of `s`. */
  lemma {:induction false} ContainsAt(s: string, t: string)
    ensures Contains(s, t) <==> exists i: nat :: OccursAt(s, t, i)
    decreases |s|
  {
    if Contains(s, t) {
      if !StartsWith(s, t) {
        ContainsAt(s[1..], t);
        var i: nat :| OccursAt(s[1..], t, i);
        assert s[1..][i..i + |t|] == s[i + 1..i + 1 + |t|];
        assert OccursAt(s, t, i + 1);
      } else {
        assert OccursAt(s, t, 0);
      }
    }
    if exists i: nat :: OccursAt(s, t, i) {
      var i: nat :| OccursAt(s, t, i);
      if i > 0 {
        assert s[1..][i - 1..i - 1 + |t|] == s[i..i + |t|];
        assert OccursAt(s[1..], t, i - 1);
        ContainsAt(s[1..], t);
      } else {
        assert StartsWith(s, t);
      }
    }
  }

  /** The number of occurrences of `c` in `s`. */
  function Count(s: string, c: char): (n: nat)
    ensures n <= |s|
    ensures n == 0 <==> c !in s
  {
    if s == [] then 0 else (if s[0] == c then 1 else 0) + Count(s[1..], c)
  }

  /** The position of the first `c` in `s`. */
  function IndexOf(s: string, c: char): (i: nat)
    requires c in s
    ensures i < |s| && s[i] == c && c !in s[..i]
  {
    if s[0] == c then 0 else 1 + IndexOf(s[1..], c)
  }

  /** `s` without its leading characters that satisfy `p`. */
  function DropWhile(s: string, p: char -> bool): (t: string)
    ensures |t| <= |s|
    ensures forall i :: 0 <= i < |t| ==> t[i] == s[|s| - |t| + i]
    ensures t == [] || !p(t[0])
    ensures forall i :: 0 <= i < |s| - |t| ==> p(s[i])
  {
    if s != [] && p(s[0]) then DropWhile(s[1..], p) else s
  }

  /** `s` without its trailing whitespace. */
  function TrimEnd(s: string): (t: string)
    ensures |t| <= |s| && t == s[..|t|]
    ensures t == [] || !IsSpace(t[|t| - 1])
    ensures forall i :: |t| <= i < |s| ==> IsSpace(s[i])
  {
    if s != [] && IsSpace(s[|s| - 1]) then TrimEnd(s[..|s| - 1]) else s
  }

  /** `s.trim()`: whitespace removed from both ends. It never lengthens the
      string, and gives the empty string exactly for an all-whitespace one. */
  function Trim(s: string): (r: string)
    ensures |r| <= |s|
    ensures r == [] <==> forall i :: 0 <= i < |s| ==> IsSpace(s[i])
  {
    TrimEnd(DropWhile(s, IsSpace))
  }

  /** A trimmed string starts and ends with a non-whitespace character. */
  lemma TrimEnds(s: string)
    ensures Trim(s) == [] || (!IsSpace(Trim(s)[0]) && !IsSpace(Trim(s)[|Trim(s)| - 1]))
  {
    var d := DropWhile(s, IsSpace);
    var t := TrimEnd(d);
    if t != [] {
      assert t[0] == d[0];
    }
  }

  /** `trim()` leaves a string without whitespace unchanged. */
  lemma TrimNoSpace(s: string)
    requires forall i :: 0 <= i < |s| ==> !IsSpace(s[i])
    ensures Trim(s) == s
  {
  }

  /** `s.replace(/P+/g, [r])`: every maximal run of characters satisfying `p`
      becomes the single character `r`. */
  function ReplaceRuns(s: string, p: char -> bool, r: char): (t: string)
    ensures |t| <= |s|
    ensures t == [] <==> s == []
    ensures s != [] && !p(s[0]) ==> t[0] == s[0]
    ensures s != [] && p(s[0]) ==> t[0] == r
    decreases |s|
  {
    if s == [] then []
    else if p(s[0]) then [r] + ReplaceRuns(DropWhile(s, p), p, r)
    else [s[0]] + ReplaceRuns(s[1..], p, r)
  }

  /** Dropping leading `p` characters stops inside a string that ends in a
      character outside `p`. */
  lemma {:induction false} DropWhileConcat(a: string, b: string, p: char -> bool)
    requires a != [] && !p(a[|a| - 1])
    ensures DropWhile(a + b, p) == DropWhile(a, p) + b
    ensures DropWhile(a, p) != []
    decreases |a|
  {
    if p(a[0]) {
      assert (a + b)[1..] == a[1..] + b;
      DropWhileConcat(a[1..], b, p);
    }
  }

  /** Run replacement works piece by piece when the first piece ends outside
      a run. */
  lemma {:induction false} ReplaceRunsConcat(a: string, b: string, p: char -> bool, r: char)
    requires a == [] || !p(a[|a| - 1])
    ensures ReplaceRuns(a + b, p, r) == ReplaceRuns(a, p, r) + ReplaceRuns(b, p, r)
    decreases |a|, 1
  {
    if a == [] {
      assert a + b == b;
    } else if p(a[0]) {
      ReplaceRunsConcatRun(a, b, p, r);
    } else {
      ReplaceRunsConcatText(a, b, p, r);
    }
  }

  /** The case of `ReplaceRunsConcat` where the first piece starts with a
      run. */
  lemma {:induction false} ReplaceRunsConcatRun(a: string, b: string, p: char -> bool, r: char)
    requires a != [] && p(a[0]) && !p(a[|a| - 1])
    ensures ReplaceRuns(a + b, p, r) == ReplaceRuns(a, p, r) + ReplaceRuns(b, p, r)
    decreases |a|, 0
  {
    var d := DropWhile(a, p);
    DropWhileConcat(a, b, p);
    assert d[|d| - 1] == a[|a| - 1];
    assert (a + b)[0] == a[0];
    ReplaceRunsConcat(d, b, p, r);
    var x, y := ReplaceRuns(d, p, r), ReplaceRuns(b, p, r);
    assert ReplaceRuns(a + b, p, r) == [r] + (x + y);
    assert [r] + (x + y) == ([r] + x) + y;
  }

  /** The case of `ReplaceRunsConcat` where the first piece starts outside a
      run. */
  lemma {:induction false} ReplaceRunsConcatText(a: string, b: string, p: char -> bool, r: char)
    requires a != [] && !p(a[0]) && !p(a[|a| - 1])
    ensures ReplaceRuns(a + b, p, r) == ReplaceRuns(a, p, r) + ReplaceRuns(b, p, r)
    decreases |a|, 0
  {
    assert (a + b)[1..] == a[1..] + b;
    ReplaceRunsConcat(a[1..], b, p, r);
  }

  /** Dropping a leading run of `p` characters stops where the run ends. */
  lemma {:induction false} DropWhileRun(w: string, y: string, p: char -> bool)
    requires forall i :: 0 <= i < |w| ==> p(w[i])
    requires y == [] || !p(y[0])
    ensures DropWhile(w + y, p) == y
  {
    if w == [] {
      assert w + y == y;
    } else {
      assert (w + y)[1..] == w[1..] + y;
      DropWhileRun(w[1..], y, p);
    }
  }

  /** A leading run becomes one replacement character. */
  lemma ReplaceRunsLeadingRun(w: string, y: string, p: char -> bool, r: char)
    requires w != [] && forall i :: 0 <= i < |w| ==> p(w[i])
    requires y == [] || !p(y[0])
    ensures ReplaceRuns(w + y, p, r) == [r] + ReplaceRuns(y, p, r)
  {
    DropWhileRun(w, y, p);
    assert (w + y)[0] == w[0];
  }

  /** No two neighbouring characters of `s` both satisfy `p`. */
  predicate NoAdjacent(s: string, p: char -> bool) {
    forall i :: 0 <= i < |s| - 1 ==> !(p(s[i]) && p(s[i + 1]))
  }

  /** What survives a run replacement: the replacement character and the
      characters outside the runs. */
  lemma {:induction false} ReplaceRunsAlphabet(s: string, p: char -> bool, r: char)
    ensures forall c :: c in ReplaceRuns(s, p, r) ==> c == r || (c in s && !p(c))
    decreases |s|
  {
    if s != [] {
      if p(s[0]) {
        var d := DropWhile(s, p);
        ReplaceRunsAlphabet(d, p, r);
        forall c | c in d ensures c in s {
          var k :| 0 <= k < |d| && d[k] == c;
          assert s[|s| - |d| + k] == c;
        }
      } else {
        ReplaceRunsAlphabet(s[1..], p, r);
      }
    }
  }

  /** When the replacement itself satisfies `p`, the result never holds two
      neighbouring `p` characters. */
  lemma {:induction false} ReplaceRunsNoAdjacent(s: string, p: char -> bool, r: char)
    requires p(r)
    ensures NoAdjacent(ReplaceRuns(s, p, r), p)
    decreases |s|
  {
    if s != [] {
      var t := ReplaceRuns(s, p, r);
      if p(s[0]) {
        var d := DropWhile(s, p);
        ReplaceRunsNoAdjacent(d, p, r);
        var rest := ReplaceRuns(d, p, r);
        assert t == [r] + rest;
        assert rest != [] ==> !p(rest[0]);
        forall i | 0 <= i < |t| - 1 ensures !(p(t[i]) && p(t[i + 1])) {
          if i > 0 { assert t[i] == rest[i - 1] && t[i + 1] == rest[i]; }
        }
      } else {
        ReplaceRunsNoAdjacent(s[1..], p, r);
        var rest := ReplaceRuns(s[1..], p, r);
        assert t == [s[0]] + rest;
        forall i | 0 <= i < |t| - 1 ensures !(p(t[i]) && p(t[i + 1])) {
          if i > 0 { assert t[i] == rest[i - 1] && t[i + 1] == rest[i]; }
        }
      }
    }
  }

  /** A string whose `p` characters are single and all equal to `r` is left
      unchanged by the run replacement. */
  lemma {:induction false} ReplaceRunsIdentity(s: string, p: char -> bool, r: char)
    requires NoAdjacent(s, p)
    requires forall i :: 0 <= i < |s| ==> p(s[i]) ==> s[i] == r
    ensures ReplaceRuns(s, p, r) == s
    decreases |s|
  {
    if s != [] {
      assert NoAdjacent(s[1..], p) by {
        forall i | 0 <= i < |s[1..]| - 1 ensures !(p(s[1..][i]) && p(s[1..][i + 1])) {
          assert s[1..][i] == s[i + 1] && s[1..][i + 1] == s[i + 2];
        }
      }
      ReplaceRunsIdentity(s[1..], p, r);
      if p(s[0]) {
        assert |s| > 1 ==> !p(s[1]);
        assert DropWhile(s, p) == s[1..];
        assert s == [r] + s[1..];
      } else {
        assert s == [s[0]] + s[1..];
      }
    }
  }

  /** `s.split([d])`: the pieces between the occurrences of `d`; there is one
      more piece than there are separators, and no piece holds a separator. */
  function Split(s: string, d: char): (pieces: seq<string>)
    ensures |pieces| == Count(s, d) + 1
    ensures forall k :: 0 <= k < |pieces| ==> d !in pieces[k]
  {
    if s == [] then [[]]
    else
      var rest := Split(s[1..], d);
      if s[0] == d then [[]] + rest
      else [[s[0]] + rest[0]] + rest[1..]
  }

  /** `pieces.join([d])`. */
  function Join(pieces: seq<string>, d: char): string
    requires pieces != []
  {
    if |pieces| == 1 then pieces[0] else pieces[0] + [d] + Join(pieces[1..], d)
  }

  lemma JoinConsFirst(c: char, pieces: seq<string>, d: char)
    requires pieces != []
    ensures Join([[c] + pieces[0]] + pieces[1..], d) == [c] + Join(pieces, d)
  {
    var ps := [[c] + pieces[0]] + pieces[1..];
    assert ps[1..] == pieces[1..];
  }

  /** Joining the pieces of a split with the same separator gives back the
      original string. */
  lemma {:induction false} JoinSplit(s: string, d: char)
    ensures Join(Split(s, d), d) == s
  {
    if s != [] {
      var rest := Split(s[1..], d);
      JoinSplit(s[1..], d);
      if s[0] == d {
        assert ([[]] + rest)[1..] == rest;
        assert s == [d] + s[1..];
      } else {
        JoinConsFirst(s[0], rest, d);
        assert s == [s[0]] + s[1..];
      }
    }
  }

  /** Splitting a join of separator-free pieces gives back the pieces. */
  lemma {:induction false} SplitJoin(pieces: seq<string>, d: char)
    requires pieces != []
    requires forall k :: 0 <= k < |pieces| ==> d !in pieces[k]
    ensures Split(Join(pieces, d), d) == pieces
    decreases |pieces|, |pieces[0]|
  {
    var p0 := pieces[0];
    if p0 == [] {
      if |pieces| > 1 {
        SplitJoin(pieces[1..], d);
        var j := Join(pieces, d);
        assert j == [d] + Join(pieces[1..], d);
        assert j[1..] == Join(pieces[1..], d);
        assert pieces == [[]] + pieces[1..];
      }
    } else {
      var tail := [p0[1..]] + pieces[1..];
      assert tail[1..] == pieces[1..];
      SplitJoin(tail, d);
      var j := Join(pieces, d);
      JoinConsFirst(p0[0], tail, d);
      assert [p0[0]] + p0[1..] == p0;
      assert j == [p0[0]] + Join(tail, d);
      assert j[1..] == Join(tail, d);
      assert pieces == [[p0[0]] + tail[0]] + tail[1..];
    }
  }

  /** The number of maximal runs of characters outside `sep` in `s`; `atStart`
      says whether the character before `s` was a separator (or `s` starts the
      text), so that a run beginning at the front of `s` is a new one. */
  function RunsFrom(s: string, sep: char -> bool, atStart: bool): nat
  {
    if s == [] then 0
    else (if !sep(s[0]) && atStart then 1 else 0) + RunsFrom(s[1..], sep, sep(s[0]))
  }

  /** The number of maximal runs of characters outside `sep`: the words of `s`
      when `sep` is the whitespace class. */
  function Runs(s: string, sep: char -> bool): nat {
    RunsFrom(s, sep, true)
  }

  /** A string has no run exactly when every character is a separator. */
  lemma {:induction false} RunsZero(s: string, sep: char -> bool, atStart: bool)
    requires atStart
    ensures RunsFrom(s, sep, atStart) == 0 <==> forall i :: 0 <= i < |s| ==> sep(s[i])
    decreases |s|
  {
    if s != [] {
      if sep(s[0]) {
        RunsZero(s[1..], sep, true);
        assert forall i :: 1 <= i < |s| ==> s[i] == s[1..][i - 1];
      }
    }
  }

  /** Leading separators do not change the run count. */
  lemma {:induction false} RunsDropSeparators(s: string, sep: char -> bool, atStart: bool)
    requires s != [] && sep(s[0])
    ensures RunsFrom(s, sep, atStart) == RunsFrom(DropWhile(s, sep), sep, true)
    decreases |s|
  {
    if s[1..] != [] && sep(s[1]) {
      RunsDropSeparators(s[1..], sep, true);
    }
  }

  /** A trailing separator does not change the run count. */
  lemma {:induction false} RunsAppendSeparator(s: string, c: char, sep: char -> bool, atStart: bool)
    requires sep(c)
    ensures RunsFrom(s + [c], sep, atStart) == RunsFrom(s, sep, atStart)
    decreases |s|
  {
    if s == [] {
      assert RunsFrom([c][1..], sep, sep(c)) == 0;
    } else {
      assert (s + [c])[1..] == s[1..] + [c];
      RunsAppendSeparator(s[1..], c, sep, sep(s[0]));
    }
  }

  /** Replacing each separator run by one separator keeps the run count. */
  lemma {:induction false} RunsReplaceRuns(s: string, sep: char -> bool, r: char, atStart: bool)
    requires sep(r)
    ensures RunsFrom(ReplaceRuns(s, sep, r), sep, atStart) == RunsFrom(s, sep, atStart)
    decreases |s|
  {
    if s != [] {
      var t := ReplaceRuns(s, sep, r);
      if sep(s[0]) {
        var d := DropWhile(s, sep);
        RunsReplaceRuns(d, sep, r, true);
        RunsDropSeparators(s, sep, atStart);
        assert t[1..] == ReplaceRuns(d, sep, r);
      } else {
        RunsReplaceRuns(s[1..], sep, r, false);
        assert t[1..] == ReplaceRuns(s[1..], sep, r);
      }
    }
  }

  /** Trimming keeps the number of whitespace-separated runs. */
  lemma {:induction false} RunsTrimEnd(s: string, atStart: bool)
    ensures RunsFrom(TrimEnd(s), IsSpace, atStart) == RunsFrom(s, IsSpace, atStart)
    decreases |s|
  {
    if s != [] && IsSpace(s[|s| - 1]) {
      var init := s[..|s| - 1];
      RunsTrimEnd(init, atStart);
      assert s == init + [s[|s| - 1]];
      RunsAppendSeparator(init, s[|s| - 1], IsSpace, atStart);
    }
  }

  lemma RunsTrim(s: string)
    ensures Runs(Trim(s), IsSpace) == Runs(s, IsSpace)
  {
    if s != [] && IsSpace(s[0]) {
      RunsDropSeparators(s, IsSpace, true);
    }
    RunsTrimEnd(DropWhile(s, IsSpace), true);
  }

  /** For a string whose whitespace is single blanks and that does not end in
      whitespace, the runs are one more than the blanks (when it starts with a
      run) -- which is what counting `split(' ')` pieces relies on. */
  lemma {:induction false} RunsOfSingleBlanks(u: string, atStart: bool)
    requires u != [] && !IsSpace(u[|u| - 1])
    requires forall i :: 0 <= i < |u| ==> IsSpace(u[i]) ==> u[i] == ' '
    requires NoAdjacent(u, IsSpace)
    ensures RunsFrom(u, IsSpace, atStart) == Count(u, ' ') + (if !IsSpace(u[0]) && atStart then 1 else 0)
    decreases |u|
  {
    var v := u[1..];
    if v != [] {
      assert v[|v| - 1] == u[|u| - 1];
      assert forall i :: 0 <= i < |v| ==> v[i] == u[i + 1];
      assert NoAdjacent(v, IsSpace);
      RunsOfSingleBlanks(v, IsSpace(u[0]));
    }
  }

  /** The decimal digits of `n`, as template literals print a non-negative
      integer. */
  function NatToDecimal(n: nat): (s: string)
    ensures s != [] && forall i :: 0 <= i < |s| ==> IsDigit(s[i])
  {
    if n < 10 then [DigitChar(n)] else NatToDecimal(n / 10) + [DigitChar(n % 10)]
  }

  function DigitChar(d: nat): (c: char)
    requires d < 10
    ensures IsDigit(c)
  {
    ('0' as int + d) as char
  }

  /** The value of a string of decimal digits. */
  function DecimalValue(s: string): nat
    requires forall i :: 0 <= i < |s| ==> IsDigit(s[i])
  {
    if s == [] then 0
    else
      var last := s[|s| - 1];
      assert IsDigit(last);
      10 * DecimalValue(s[..|s| - 1]) + (last as int - '0' as int)
  }

  /** Printing a number and reading its digits back gives the number. */
  lemma {:induction false} DecimalRoundTrip(n: nat)
    ensures DecimalValue(NatToDecimal(n)) == n
  {
    var s := NatToDecimal(n);
    if n >= 10 {
      DecimalRoundTrip(n / 10);
      assert s[..|s| - 1] == NatToDecimal(n / 10);
    }
  }
}
