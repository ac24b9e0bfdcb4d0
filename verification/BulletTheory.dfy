/** Segmentation keeps its offsets: spans are valid, ascending and disjoint, and each still recovers its text. */
module BulletTheory {
  import opened Prelude
  import opened Text
  import opened Spacing
  import opened Lines
  import opened Spans
  import opened Bullets

  // ---- what holds between two lines ----

  predicate SpacesIn(text: string, a: nat, b: nat) {
    a <= b <= |text| && forall i :: a <= i < b ==> IsSpace(text[i])
  }

  /** The open bullet: its text and the text consumed since its start say the same, up to spacing. */
  ghost predicate OpenOk(text: string, c: Cutter) {
    && c.offset <= |text|
    && (c.start.None? ==> c.parts == [])
    && (c.start.Some? ==>
          && c.start.value <= c.offset && c.end <= c.offset && c.parts != []
          && Core(text[c.start.value..c.offset]) == Core(Whole(c.parts))
          && SpacesIn(text, c.end, c.offset)
          && (Whole(c.parts) != "" ==> c.start.value < c.end))
  }

  ghost predicate BulletOk(text: string, b: Bullet, i: nat, limit: nat) {
    && MIN_BULLET_CHARS <= |b.text| <= MAX_BULLET_CHARS && b.ordinal == i
    && b.span.start < b.span.end <= limit <= |text| && Recovers(text, b)
  }

  ghost predicate BulletsOk(text: string, bullets: seq<Bullet>, limit: nat) {
    && (forall i :: 0 <= i < |bullets| ==> BulletOk(text, bullets[i], i, limit))
    && forall i, j :: 0 <= i < j < |bullets| ==> bullets[i].span.end <= bullets[j].span.start
  }

  ghost predicate CutterOk(text: string, c: Cutter) {
    OpenOk(text, c) && BulletsOk(text, c.bullets, if c.start.Some? then c.start.value else c.offset)
  }

  // ---- one flush ----

  lemma CoreWithoutTail(text: string, start: nat, a: nat, b: nat)
    requires start <= a && SpacesIn(text, a, b)
    ensures Core(text[start..a]) == Core(text[start..b])
    decreases b - a
  {
    hide Core, IsSpace;
    if a >= b {
    } else {
      CoreWithoutTail(text, start, a, b - 1);
      var s := text[start..b];
      assert s[..|s| - 1] == text[start..b - 1];
      CoreDropsEnds(s);
    }
  }

  lemma PrefixOfPrefix(recovered: string, whole: string, expected: string)
    requires recovered == whole && |expected| <= |whole| && expected == whole[..|expected|]
    ensures Head(expected, Min(|expected|, 40)) <= recovered
  {
  }

  lemma FlushRecovers(text: string, c: Cutter)
    requires OpenOk(text, c) && c.start.Some? && c.start.value < c.end
    requires |Whole(c.parts)| >= MIN_BULLET_CHARS
    ensures Recovers(text, Bullet(Head(Whole(c.parts), MAX_BULLET_CHARS), Span(c.start.value, c.end), c.section, |c.bullets|))
  {
    hide Core, Whole, IsSpace;
    var whole, start, end := Whole(c.parts), c.start.value, c.end;
    CoreWithoutTail(text, start, end, c.offset);
    RespacedIsCore(text[start..end]);
    RespacedIsCore(Head(whole, MAX_BULLET_CHARS));
    CoreOfPrefix(whole, Min(|whole|, MAX_BULLET_CHARS));
    assert Head(whole, MAX_BULLET_CHARS) == whole[..Min(|whole|, MAX_BULLET_CHARS)];
    PrefixOfPrefix(Core(text[start..end]), Core(whole), Core(Head(whole, MAX_BULLET_CHARS)));
  }

  lemma FlushOk(text: string, c: Cutter)
    requires CutterOk(text, c)
    ensures BulletsOk(text, Flushed(c).bullets, c.offset)
  {
    hide Core, Recovers, SpacesIn;
    if c.start.Some? {
      hide Whole;
      if |Whole(c.parts)| >= MIN_BULLET_CHARS {
        FlushRecovers(text, c);
      }
    }
  }

  // ---- one line ----

  lemma {:induction false} StripEmpty(s: string)
    ensures Strip(s) == "" <==> forall i :: 0 <= i < |s| ==> IsSpace(s[i])
  {
    LeftEmpty(s);
    RightEmpty(StripLeft(s));
  }

  lemma {:induction false} LeftEmpty(s: string)
    ensures |StripLeft(s)| <= |s| && StripLeft(s) == s[|s| - |StripLeft(s)|..]
    ensures forall i :: 0 <= i < |s| - |StripLeft(s)| ==> IsSpace(s[i])
    ensures StripLeft(s) != "" ==> !IsSpace(StripLeft(s)[0])
  {
    hide IsSpace;
    if s == "" || !IsSpace(s[0]) {
    } else {
      LeftEmpty(s[1..]);
    }
  }

  lemma {:induction false} RightEmpty(s: string)
    ensures StripRight(s) == "" <==> forall i :: 0 <= i < |s| ==> IsSpace(s[i])
  {
    hide IsSpace;
    if s == "" || !IsSpace(s[|s| - 1]) {
    } else {
      RightEmpty(s[..|s| - 1]);
    }
  }

  lemma StripTwice(s: string)
    ensures Core(Strip(Strip(s))) == Core(s) && (Strip(Strip(s)) == "" <==> Strip(s) == "")
  {
    hide IsSpace;
    CoreOfStrip(s);
    CoreOfStrip(Strip(s));
    StripEmpty(s);
    StripEmpty(Strip(s));
    CoreBlank(s);
    CoreBlank(Strip(s));
    CoreBlank(Strip(Strip(s)));
  }

  lemma CoreBlank(s: string)
    ensures Core(s) == "" <==> Strip(s) == ""
  {
    CoreOfStrip(s);
    CoreEmpty(Strip(s));
    StripRightEnds(StripLeft(s));
    if Strip(s) != "" {
      LastEmitted(true, Strip(s));
    }
  }

  /** Nothing but line feeds follows what `rstrip("\n")` keeps. */
  lemma LineTail(text: string, offset: nat, line: string)
    requires offset + |line| <= |text| && text[offset..offset + |line|] == line
    ensures SpacesIn(text, offset + |TrimNewlines(line)|, offset + |line|)
  {
    var n := |TrimNewlines(line)|;
    forall i | offset + n <= i < offset + |line| ensures IsSpace(text[i]) {
      assert text[i] == line[i - offset] == '\n';
    }
  }

  lemma ContentReaches(line: string, k: nat)
    requires k <= |line| && Strip(line[k..]) != ""
    ensures k < |TrimNewlines(line)|
  {
    hide TrimNewlines;
    StripEmpty(line[k..]);
    var i :| 0 <= i < |line[k..]| && !IsSpace(line[k..][i]);
    assert line[k + i] == line[k..][i];
    assert IsSpace('\n');
  }

  lemma OnePart(part: string)
    ensures Whole([part]) == Strip(Strip(part))
  {
    assert [part][..0] == [];
    assert Stripped([part]) == [Strip(part)];
  }

  lemma MoreParts(parts: seq<string>, part: string)
    requires parts != []
    ensures Core(Whole(parts + [part])) == Combined(Core(Whole(parts)), Core(Strip(part)))
  {
    hide Core, Strip;
    assert (parts + [part])[..|parts|] == parts;
    JoinedOneMore(Stripped(parts), Strip(part));
    CoreOfStrip(Joined(Stripped(parts)));
    CoreOfStrip(Joined(Stripped(parts) + [Strip(part)]));
    StrippedLength(parts);
    CoreOfJoin(Joined(Stripped(parts)), Strip(part));
  }

  lemma {:induction false} StrippedLength(parts: seq<string>)
    ensures |Stripped(parts)| == |parts|
  {
    if parts == [] {
    } else {
      StrippedLength(parts[..|parts| - 1]);
    }
  }

  /** The next line starts after whitespace, or at the beginning. */
  predicate AtLineStart(text: string, offset: nat) {
    offset == 0 || (offset <= |text| && IsSpace(text[offset - 1]))
  }

  lemma NewBulletOk(text: string, offset: nat, line: string, c: Cutter)
    requires offset + |line| <= |text| && text[offset..offset + |line|] == line
    requires c.start == Some(offset + ContentStart(line)) && c.parts == [Strip(line[ContentStart(line)..])]
    requires c.end == offset + |TrimNewlines(line)| && c.offset == offset + |line|
    ensures OpenOk(text, c)
  {
    hide Core, Strip, TrimNewlines, IsSpace, MarkerEnd, LeadingSpaces;
    var k := ContentStart(line);
    assert text[offset + k..offset + |line|] == line[k..];
    OnePart(Strip(line[k..]));
    StripTwice(line[k..]);
    StripTwice(Strip(line[k..]));
    CoreOfStrip(line[k..]);
    LineTail(text, offset, line);
    if Strip(line[k..]) != "" {
      ContentReaches(line, k);
    }
  }

  lemma LongerBulletOk(text: string, line: string, c: Cutter, d: Cutter)
    requires OpenOk(text, c) && c.start.Some? && AtLineStart(text, c.offset)
    requires c.offset + |line| <= |text| && text[c.offset..c.offset + |line|] == line && Strip(line) != ""
    requires d.start == c.start && d.parts == c.parts + [Strip(line)]
    requires d.end == c.offset + |TrimNewlines(line)| && d.offset == c.offset + |line|
    ensures OpenOk(text, d)
  {
    hide Core, Strip, TrimNewlines, IsSpace, Whole;
    var start, slice := c.start.value, text[c.start.value..c.offset];
    assert text[start..d.offset] == slice + line;
    CoreOfConcat(slice, line);
    MoreParts(c.parts, Strip(line));
    CoreOfStrip(line);
    StripTwice(line);
    CoreOfStrip(Strip(line));
    LineTail(text, c.offset, line);
    assert line[0..] == line;
    ContentReaches(line, 0);
  }

  lemma LineOk(heading: Heading, text: string, c: Cutter, line: string)
    requires CutterOk(text, c) && AtLineStart(text, c.offset)
    requires c.offset + |line| <= |text| && text[c.offset..c.offset + |line|] == line
    ensures CutterOk(text, CutLine(heading, c, line))
  {
    hide Core, Strip, TrimNewlines, IsSpace, Whole, StartsNew, BulletsOk, OpenOk, ContentStart;
    FlushOk(text, c);
    ClosedHasNoParts(text, c);
    var d := CutLine(heading, c, line);
    var flushed := Flushed(c.(offset := c.offset + |line|));
    assert flushed.bullets == Flushed(c).bullets;
    if Strip(line) == "" || heading(Strip(line)).Some? {
      NothingOpen(text, d);
      WiderLimit(text, d.bullets, c.offset, d.offset);
    } else if StartsNew(c, line) {
      NewBulletOk(text, c.offset, line, d);
      WiderLimit(text, d.bullets, c.offset, d.start.value);
    } else {
      OpenHasStart(c, line);
      LongerBulletOk(text, line, c, d);
    }
  }

  lemma ClosedHasNoParts(text: string, c: Cutter)
    requires OpenOk(text, c)
    ensures c.start.None? ==> c.parts == []
  {
  }

  lemma NothingOpen(text: string, d: Cutter)
    requires d.offset <= |text| && d.start.None? && d.parts == []
    ensures OpenOk(text, d)
  {
  }

  lemma OpenHasStart(c: Cutter, line: string)
    requires !StartsNew(c, line)
    ensures c.start.Some?
  {
  }

  lemma WiderLimit(text: string, bullets: seq<Bullet>, limit: nat, wider: nat)
    requires BulletsOk(text, bullets, limit) && limit <= wider <= |text|
    ensures BulletsOk(text, bullets, wider)
  {
    hide Recovers;
  }

  lemma {:induction false} CutOk(heading: Heading, text: string, lines: seq<string>, i: nat)
    requires Concat(lines) == text && AreLines(lines) && i <= |lines|
    ensures CutterOk(text, Cut(heading, lines[..i])) && Cut(heading, lines[..i]).offset == |Concat(lines[..i])|
    ensures i < |lines| ==> AtLineStart(text, |Concat(lines[..i])|)
  {
    hide CutterOk, IsSpace, CutLine;
    if i == 0 {
      StartOk(text);
    } else {
      var line := lines[i - 1];
      CutOk(heading, text, lines, i - 1);
      ConcatPrefix(lines, i - 1);
      assert lines[..i][..i - 1] == lines[..i - 1];
      LineOk(heading, text, Cut(heading, lines[..i - 1]), line);
      LineLength(heading, Cut(heading, lines[..i - 1]), line);
      if i < |lines| {
        LastOfSlice(text, |Concat(lines[..i - 1])|, line);
      }
    }
  }

  lemma StartOk(text: string)
    ensures CutterOk(text, NOTHING)
  {
  }

  lemma LineLength(heading: Heading, c: Cutter, line: string)
    ensures CutLine(heading, c, line).offset == c.offset + |line|
  {
  }

  lemma LastOfSlice(text: string, at: nat, line: string)
    requires at + |line| <= |text| && text[at..at + |line|] == line && line != ""
    ensures text[at + |line| - 1] == line[|line| - 1]
  {
  }

  // ---- the theorems ----

  /** Every extracted bullet has a valid, non-empty span that recovers its text, in order and without overlap,
      even when a bare marker line opened it. */
  lemma BulletsKeepTheirOffsets(heading: Heading, text: string)
    ensures BulletsOk(text, Extracted(heading, text), |text|)
  {
    hide BulletsOk, CutLine, OpenOk;
    var lines := SplitLines(text);
    LinesConcat(text);
    SplitMakesLines(text);
    CutOk(heading, text, lines, |lines|);
    assert lines[..|lines|] == lines;
    FlushOk(text, Cut(heading, lines));
  }

  lemma {:induction false} AllRecovered(text: string, bullets: seq<Bullet>)
    requires forall i :: 0 <= i < |bullets| ==> bullets[i].span.start <= bullets[i].span.end && Recovers(text, bullets[i])
    ensures Verified(text, bullets) == bullets
  {
    hide Recovers;
    if bullets == [] {
    } else {
      AllRecovered(text, bullets[..|bullets| - 1]);
    }
  }

  /** The verification pass drops none of them. */
  lemma VerificationDropsNothing(heading: Heading, text: string)
    ensures var bullets := Extracted(heading, text);
            (forall i :: 0 <= i < |bullets| ==> bullets[i].span.start <= bullets[i].span.end) &&
            Verified(text, bullets) == bullets
  {
    hide Recovers, Extracted;
    BulletsKeepTheirOffsets(heading, text);
    var bullets := Extracted(heading, text);
    forall i | 0 <= i < |bullets| ensures bullets[i].span.start <= bullets[i].span.end && Recovers(text, bullets[i]) {
      assert BulletOk(text, bullets[i], i, |text|);
    }
    AllRecovered(text, bullets);
  }

  // ---- nothing visible is lost ----

  /** What a flush closes, kept or not. */
  datatype Piece = Piece(start: nat, end: nat, whole: string)

  function PieceOf(c: Cutter): Piece
    requires c.start.Some?
  {
    Piece(c.start.value, c.end, Whole(c.parts))
  }

  predicate Closes(heading: Heading, c: Cutter, line: string) {
    Strip(line) == "" || heading(Strip(line)).Some? || StartsNew(c, line)
  }

  function Closed(c: Cutter): seq<Piece> {
    if c.start.Some? then [PieceOf(c)] else []
  }

  function Pieces(heading: Heading, lines: seq<string>): seq<Piece> {
    if lines == [] then []
    else
      var n := |lines| - 1;
      var c := Cut(heading, lines[..n]);
      Pieces(heading, lines[..n]) + if Closes(heading, c, lines[n]) then Closed(c) else []
  }

  function AllPieces(heading: Heading, text: string): seq<Piece> {
    var lines := SplitLines(text);
    Pieces(heading, lines) + Closed(Cut(heading, lines))
  }

  predicate Contains(pieces: seq<Piece>, p: nat) {
    exists k :: 0 <= k < |pieces| && pieces[k].start <= p < pieces[k].end
  }

  predicate IsOpen(c: Cutter, p: nat) {
    c.start.Some? && c.start.value <= p < c.end
  }

  /** The pieces long enough to keep. */
  function Long(pieces: seq<Piece>): seq<Span> {
    if pieces == [] then []
    else
      var n := |pieces| - 1;
      Long(pieces[..n]) + if |pieces[n].whole| >= MIN_BULLET_CHARS then [Span(pieces[n].start, pieces[n].end)] else []
  }

  function SpansOf(bullets: seq<Bullet>): seq<Span> {
    seq(|bullets|, i requires 0 <= i < |bullets| => bullets[i].span)
  }

  lemma {:induction false} LongConcat(a: seq<Piece>, b: seq<Piece>)
    ensures Long(a + b) == Long(a) + Long(b)
  {
    if b == [] {
      assert a + b == a;
    } else {
      var n := |b| - 1;
      LongConcat(a, b[..n]);
      assert (a + b)[..|a + b| - 1] == a + b[..n];
    }
  }

  lemma FlushSpans(c: Cutter)
    ensures SpansOf(Flushed(c).bullets) == SpansOf(c.bullets) + Long(Closed(c))
  {
    hide Whole;
    if c.start.Some? {
      assert Closed(c)[..0] == [];
    }
  }

  lemma {:induction false} LineSpans(heading: Heading, c: Cutter, line: string)
    ensures SpansOf(CutLine(heading, c, line).bullets) ==
            SpansOf(c.bullets) + Long(if Closes(heading, c, line) then Closed(c) else [])
  {
    hide Strip, StartsNew, TrimNewlines, ContentStart, Whole;
    FlushSpans(c);
    var next := c.(offset := c.offset + |line|);
    assert Flushed(next).bullets == Flushed(c).bullets;
    hide Flushed, Long, Closed;
    NothingLong();
  }

  lemma NothingLong()
    ensures Long([]) == []
  {
  }

  lemma {:induction false} CutSpans(heading: Heading, lines: seq<string>)
    ensures SpansOf(Cut(heading, lines).bullets) == Long(Pieces(heading, lines))
  {
    hide CutLine, Closes, Closed;
    if lines == [] {
    } else {
      var n := |lines| - 1;
      var c := Cut(heading, lines[..n]);
      CutSpans(heading, lines[..n]);
      LineSpans(heading, c, lines[n]);
      LongConcat(Pieces(heading, lines[..n]), if Closes(heading, c, lines[n]) then Closed(c) else []);
    }
  }

  /** The bullets are exactly the pieces whose text reaches the minimum length, in order. */
  lemma BulletsAreLongPieces(heading: Heading, text: string)
    ensures SpansOf(Extracted(heading, text)) == Long(AllPieces(heading, text))
  {
    hide Cut, Pieces, Closed, Flushed;
    var lines := SplitLines(text);
    CutSpans(heading, lines);
    FlushSpans(Cut(heading, lines));
    LongConcat(Pieces(heading, lines), Closed(Cut(heading, lines)));
  }

  /** A line that is neither blank nor a heading leaves all of itself but its marker in the open piece. */
  lemma LineIsOpened(heading: Heading, text: string, c: Cutter, line: string, q: nat)
    requires OpenOk(text, c) && q < |line| && !IsSpace(line[q]) && heading(Strip(line)).None?
    requires MarkerEnd(line).Some? ==> q >= MarkerEnd(line).value
    ensures IsOpen(CutLine(heading, c, line), c.offset + q)
  {
    hide Core, Whole, IsSpace;
    VisibleLine(line, q);
  }

  lemma VisibleLine(line: string, q: nat)
    requires q < |line| && !IsSpace(line[q])
    ensures Strip(line) != "" && q < |TrimNewlines(line)| && q >= LeadingSpaces(line)
  {
    StripEmpty(line);
    assert IsSpace('\n');
    hide IsSpace, StripLeft, TrimNewlines, LeadingSpaces;
  }

  lemma StepKeepsCovered(heading: Heading, text: string, c: Cutter, line: string, p: nat)
    requires OpenOk(text, c) && IsOpen(c, p)
    ensures if Closes(heading, c, line) then Contains(Closed(c), p) else IsOpen(CutLine(heading, c, line), p)
  {
    hide Core, Whole, Strip, TrimNewlines, StartsNew;
    if Closes(heading, c, line) {
      assert Closed(c)[0].start <= p < Closed(c)[0].end;
    }
  }

  lemma ContainsGrows(a: seq<Piece>, b: seq<Piece>, p: nat)
    ensures Contains(a, p) || Contains(b, p) ==> Contains(a + b, p)
  {
    if k :| 0 <= k < |a| && a[k].start <= p < a[k].end {
      assert (a + b)[k] == a[k];
    } else if k :| 0 <= k < |b| && b[k].start <= p < b[k].end {
      assert (a + b)[|a| + k] == b[k];
    }
  }

  lemma OneLineMore(heading: Heading, lines: seq<string>, n: nat)
    requires 0 < n <= |lines|
    ensures var c := Cut(heading, lines[..n - 1]);
            && Cut(heading, lines[..n]) == CutLine(heading, c, lines[n - 1])
            && Pieces(heading, lines[..n]) ==
               Pieces(heading, lines[..n - 1]) + if Closes(heading, c, lines[n - 1]) then Closed(c) else []
  {
    hide CutLine, Closes, Closed;
    assert lines[..n][..n - 1] == lines[..n - 1];
  }

  lemma {:induction false} StaysCovered(heading: Heading, text: string, lines: seq<string>, i: nat, n: nat, p: nat)
    requires Concat(lines) == text && AreLines(lines) && i <= n <= |lines|
    requires Contains(Pieces(heading, lines[..i]), p) || IsOpen(Cut(heading, lines[..i]), p)
    ensures Contains(Pieces(heading, lines[..n]), p) || IsOpen(Cut(heading, lines[..n]), p)
  {
    hide Contains, IsOpen, Cut, Pieces, CutLine, Closes, Closed, OpenOk, BulletsOk, Concat, AreLines;
    if i >= n {
    } else {
      var c := Cut(heading, lines[..n - 1]);
      StaysCovered(heading, text, lines, i, n - 1, p);
      CutOk(heading, text, lines, n - 1);
      OneLineMore(heading, lines, n);
      ContainsGrows(Pieces(heading, lines[..n - 1]), if Closes(heading, c, lines[n - 1]) then Closed(c) else [], p);
      if IsOpen(c, p) {
        StepKeepsCovered(heading, text, c, lines[n - 1], p);
      }
    }
  }

  /** Every visible character of the document is in a section heading, in a bullet marker, or in a piece. */
  lemma NothingVisibleIsLost(heading: Heading, text: string, k: nat, q: nat)
    requires k < |SplitLines(text)| && q < |SplitLines(text)[k]| && !IsSpace(SplitLines(text)[k][q])
    ensures var line := SplitLines(text)[k];
            || heading(Strip(line)).Some?
            || (MarkerEnd(line).Some? && q < MarkerEnd(line).value)
            || Contains(AllPieces(heading, text), |Concat(SplitLines(text)[..k])| + q)
  {
    hide Contains, IsOpen, CutLine, Closes, OpenOk, BulletsOk, IsSpace, Strip, MarkerEnd, Pieces, SplitLines;
    var lines := SplitLines(text);
    var line, p := lines[k], |Concat(lines[..k])| + q;
    if heading(Strip(line)).None? && (MarkerEnd(line).Some? ==> q >= MarkerEnd(line).value) {
      LinesConcat(text);
      SplitMakesLines(text);
      CutOk(heading, text, lines, k);
      LineIsOpened(heading, text, Cut(heading, lines[..k]), line, q);
      assert lines[..k + 1][..k] == lines[..k];
      StaysCovered(heading, text, lines, k + 1, |lines|, p);
      assert lines[..|lines|] == lines;
      ContainsGrows(Pieces(heading, lines), Closed(Cut(heading, lines)), p);
      if IsOpen(Cut(heading, lines), p) {
        OpenIsClosed(Cut(heading, lines), p);
      }
    }
  }

  lemma OpenIsClosed(c: Cutter, p: nat)
    requires IsOpen(c, p)
    ensures Contains(Closed(c), p)
  {
    assert Closed(c)[0].start <= p < Closed(c)[0].end;
  }
}
