/** Lines of a text and the bullet markers that open them. */
module Lines {
  import opened Prelude
  import opened Text

  /** The characters at which `str.splitlines` breaks. */
  predicate IsLineBreak(c: char) {
    var n := c as int;
    0x0a <= n <= 0x0d || 0x1c <= n <= 0x1e || n == 0x85 || n == 0x2028 || n == 0x2029
  }

  /** The length of the first line, its break included; a carriage return and line feed are one break. */
  function FirstLine(s: string): (n: nat)
    ensures n <= |s| && (s != "" ==> n > 0)
    ensures n == |s| || IsLineBreak(s[n - 1])
  {
    if s == "" then 0
    else if !IsLineBreak(s[0]) then 1 + FirstLine(s[1..])
    else if s[0] == '\r' && |s| > 1 && s[1] == '\n' then 2
    else 1
  }

  /** `str.splitlines(keepends=True)`. */
  function SplitLines(s: string): seq<string> {
    if s == "" then [] else [s[..FirstLine(s)]] + SplitLines(s[FirstLine(s)..])
  }

  function Concat(lines: seq<string>): string {
    if lines == [] then "" else Concat(lines[..|lines| - 1]) + lines[|lines| - 1]
  }

  lemma {:induction false} ConcatFront(line: string, lines: seq<string>)
    ensures Concat([line] + lines) == line + Concat(lines)
  {
    if lines == [] {
      assert [line] + lines == [line];
      assert [line][..0] == [];
    } else {
      var n := |lines| - 1;
      ConcatFront(line, lines[..n]);
      assert ([line] + lines)[..|[line] + lines| - 1] == [line] + lines[..n];
    }
  }

  /** Splitting loses nothing. */
  lemma {:induction false} LinesConcat(s: string)
    ensures Concat(SplitLines(s)) == s
  {
    if s == "" {
    } else {
      LinesConcat(s[FirstLine(s)..]);
      ConcatFront(s[..FirstLine(s)], SplitLines(s[FirstLine(s)..]));
    }
  }

  /** Each line is the slice of the text at the length of the lines before it. */
  lemma {:induction false} ConcatPrefix(lines: seq<string>, i: nat)
    requires i < |lines|
    ensures |Concat(lines[..i])| + |lines[i]| <= |Concat(lines)|
    ensures var at := |Concat(lines[..i])|; Concat(lines)[at..at + |lines[i]|] == lines[i]
    ensures |Concat(lines[..i + 1])| == |Concat(lines[..i])| + |lines[i]|
    decreases |lines|
  {
    var n := |lines| - 1;
    if i < n {
      ConcatPrefix(lines[..n], i);
      assert lines[..n][..i] == lines[..i] && lines[..n][..i + 1] == lines[..i + 1];
    } else {
      assert lines[..i + 1] == lines;
    }
  }

  /** No line is empty, and every line but the last ends in a break. */
  ghost predicate AreLines(lines: seq<string>) {
    (forall i :: 0 <= i < |lines| ==> lines[i] != "") &&
    forall i :: 0 <= i < |lines| - 1 ==> IsSpace(lines[i][|lines[i]| - 1])
  }

  lemma BreaksAreSpaces(c: char)
    requires IsLineBreak(c)
    ensures IsSpace(c)
  {
  }

  lemma OneMoreLine(line: string, rest: seq<string>)
    requires AreLines(rest) && line != "" && (rest == [] || IsSpace(line[|line| - 1]))
    ensures AreLines([line] + rest)
  {
    hide IsSpace;
    var all := [line] + rest;
    assert forall i :: 0 < i < |all| ==> all[i] == rest[i - 1];
  }

  lemma {:induction false} SplitMakesLines(s: string)
    ensures AreLines(SplitLines(s))
  {
    if s == "" {
    } else {
      hide AreLines, IsSpace, IsLineBreak;
      var n := FirstLine(s);
      SplitMakesLines(s[n..]);
      if n < |s| {
        BreaksAreSpaces(s[n - 1]);
      } else {
        assert s[n..] == "";
      }
      OneMoreLine(s[..n], SplitLines(s[n..]));
    }
  }

  /** A break inside a line only before its last character, where a carriage return and line feed are one break. */
  predicate OneLine(line: string) {
    line != "" && forall i :: 0 <= i < |line| - 1 && IsLineBreak(line[i]) ==>
      i == |line| - 2 && line[i] == '\r' && line[i + 1] == '\n'
  }

  lemma OneLonger(c: char, line: string)
    requires OneLine(line) && !IsLineBreak(c)
    ensures OneLine([c] + line)
  {
    hide IsLineBreak;
    var longer := [c] + line;
    assert forall i :: 0 <= i < |line| ==> longer[i + 1] == line[i];
    assert forall i :: 0 < i < |longer| ==> longer[i] == line[i - 1];
  }

  lemma {:induction false} FirstLineIsOne(s: string)
    requires s != ""
    ensures OneLine(s[..FirstLine(s)])
  {
    hide IsLineBreak;
    if IsLineBreak(s[0]) || |s| == 1 {
      assert FirstLine(s) <= 2;
    } else {
      FirstLineIsOne(s[1..]);
      OneLonger(s[0], s[1..][..FirstLine(s[1..])]);
      assert s[..FirstLine(s)] == [s[0]] + s[1..][..FirstLine(s[1..])];
    }
  }

  predicate EndsInBreak(line: string) {
    line != "" && IsLineBreak(line[|line| - 1])
  }

  lemma FirstLineEnds(s: string)
    requires FirstLine(s) < |s|
    ensures EndsInBreak(s[..FirstLine(s)])
  {
    hide IsLineBreak;
  }

  /** No line has a break before its end, and every line but the last ends in one. */
  lemma {:induction false} LinesAreWhole(s: string)
    ensures forall i :: 0 <= i < |SplitLines(s)| ==> OneLine(SplitLines(s)[i])
    ensures forall i :: 0 <= i < |SplitLines(s)| - 1 ==> EndsInBreak(SplitLines(s)[i])
  {
    hide OneLine, EndsInBreak;
    if s == "" {
    } else {
      var line, rest := s[..FirstLine(s)], s[FirstLine(s)..];
      FirstLineIsOne(s);
      LinesAreWhole(rest);
      if FirstLine(s) < |s| {
        FirstLineEnds(s);
      } else {
        assert rest == "" && SplitLines(rest) == [];
      }
      hide FirstLine;
      assert SplitLines(s) == [line] + SplitLines(rest);
    }
  }

  /** `len(s) - len(s.lstrip())`. */
  function LeadingSpaces(s: string): (n: nat)
    ensures n <= |s| && (n < |s| ==> !IsSpace(s[n]))
    ensures forall i :: 0 <= i < n ==> IsSpace(s[i])
    ensures StripLeft(s) == s[n..]
  {
    if s != "" && IsSpace(s[0]) then 1 + LeadingSpaces(s[1..]) else 0
  }

  /** `s.rstrip("\n")`. */
  function TrimNewlines(s: string): (r: string)
    ensures |r| <= |s| && r == s[..|r|] && forall i :: |r| <= i < |s| ==> s[i] == '\n'
  {
    if s != "" && s[|s| - 1] == '\n' then TrimNewlines(s[..|s| - 1]) else s
  }

  predicate IsGlyph(c: char) {
    c in {'\U{2022}', '\U{25AA}', '\U{25E6}', '\U{25CF}', '\U{00B7}', '*', '-', '\U{2013}', '\U{2014}'}
  }

  /** Where a bullet marker ends: whitespace, one glyph, and at least one whitespace, as many as there are. */
  function MarkerEnd(line: string): (r: Option<nat>)
    ensures r.Some? ==> 0 < r.value <= |line| && (r.value < |line| ==> !IsSpace(line[r.value]))
  {
    var i := LeadingSpaces(line);
    if i + 1 < |line| && IsGlyph(line[i]) && IsSpace(line[i + 1]) then Some(i + 1 + LeadingSpaces(line[i + 1..])) else None
  }

  predicate SpacesBetween(s: string, a: nat, b: nat) {
    b <= |s| && forall k :: a <= k < b ==> IsSpace(s[k])
  }

  predicate GlyphAt(line: string, i: nat) {
    i < |line| && line[i] in {'\U{2022}', '\U{25AA}', '\U{25E6}', '\U{25CF}', '\U{00B7}', '*', '-', '\U{2013}', '\U{2014}'}
  }

  lemma GlyphIsVisible(line: string, i: nat)
    requires GlyphAt(line, i)
    ensures IsGlyph(line[i]) && !IsSpace(line[i])
  {
  }

  lemma LeadingIs(s: string, k: nat)
    requires SpacesBetween(s, 0, k) && (k < |s| ==> !IsSpace(s[k]))
    ensures LeadingSpaces(s) == k
  {
    hide IsSpace;
  }

  /** Leading spaces from `a` on. */
  lemma LeadingFrom(s: string, a: nat)
    requires a <= |s|
    ensures var m := LeadingSpaces(s[a..]); SpacesBetween(s, a, a + m) && (a + m < |s| ==> !IsSpace(s[a + m]))
  {
    hide IsSpace;
    var rest := s[a..];
    assert forall k :: a <= k < |s| ==> s[k] == rest[k - a];
  }

  lemma LeadingFromIs(s: string, a: nat, b: nat)
    requires a <= b && SpacesBetween(s, a, b) && (b < |s| ==> !IsSpace(s[b]))
    ensures LeadingSpaces(s[a..]) == b - a
  {
    hide IsSpace;
    var rest := s[a..];
    assert forall k :: 0 <= k < |rest| ==> rest[k] == s[a + k];
    LeadingIs(rest, b - a);
  }

  /** Spaces, one of nine glyphs at `i`, and all the spaces up to `n`, of which there is one at least. */
  predicate MarkerAt(line: string, i: nat, n: nat) {
    i + 1 < n <= |line| && GlyphAt(line, i) && SpacesBetween(line, 0, i) && SpacesBetween(line, i + 1, n) &&
    (n < |line| ==> !IsSpace(line[n]))
  }

  lemma MarkerIsMade(line: string)
    ensures var i := LeadingSpaces(line);
            && (MarkerEnd(line).Some? <==> i + 1 < |line| && IsGlyph(line[i]) && IsSpace(line[i + 1]))
            && (MarkerEnd(line).Some? ==> MarkerEnd(line).value == i + 1 + LeadingSpaces(line[i + 1..]))
  {
    hide IsSpace, IsGlyph, LeadingSpaces;
  }

  lemma MarkerHasParts(line: string, n: nat)
    requires MarkerEnd(line) == Some(n)
    ensures MarkerAt(line, LeadingSpaces(line), n)
  {
    hide *;
    MarkerIsMade(line);
    var i := LeadingSpaces(line);
    GlyphIs(line, i);
    AtLeastOne(line, i + 1);
    LeadingFrom(line, i + 1);
    LeadingAll(line);
    MarkerFrom(line, i, n);
  }

  lemma LeadingAll(line: string)
    ensures SpacesBetween(line, 0, LeadingSpaces(line))
  {
    hide IsSpace;
  }

  lemma MarkerFrom(line: string, i: nat, n: nat)
    requires i + 1 < n <= |line| && GlyphAt(line, i) && SpacesBetween(line, 0, i) && SpacesBetween(line, i + 1, n)
    requires n < |line| ==> !IsSpace(line[n])
    ensures MarkerAt(line, i, n)
  {
  }

  lemma GlyphIs(line: string, i: nat)
    requires i < |line|
    ensures IsGlyph(line[i]) <==> GlyphAt(line, i)
  {
  }

  lemma AtLeastOne(s: string, a: nat)
    requires a < |s| && IsSpace(s[a])
    ensures LeadingSpaces(s[a..]) > 0
  {
    hide IsSpace;
    assert s[a..][0] == s[a];
  }

  lemma PartsMakeMarker(line: string, i: nat, n: nat)
    requires MarkerAt(line, i, n)
    ensures MarkerEnd(line) == Some(n)
  {
    hide IsSpace;
    GlyphIsVisible(line, i);
    LeadingIs(line, i);
    LeadingFromIs(line, i + 1, n);
    assert IsSpace(line[i + 1]);
  }

  /** A marker is exactly that. */
  lemma MarkerIsExact(line: string, n: nat)
    ensures MarkerEnd(line) == Some(n) <==> exists i: nat :: MarkerAt(line, i, n)
  {
    hide MarkerEnd, MarkerAt;
    if MarkerEnd(line) == Some(n) {
      MarkerHasParts(line, n);
    }
    if i: nat :| MarkerAt(line, i, n) {
      PartsMakeMarker(line, i, n);
    }
  }
}
