/** bullets.py: cutting a CV into bullets that keep their offsets. `heading` stands for the section regular
    expression: the section named by a stripped line, if it is a heading. */
module Bullets {
  import opened Prelude
  import opened Text
  import opened Lines
  import opened Spans

  const MIN_BULLET_CHARS := 25
  const MAX_BULLET_CHARS := 600

  type Heading = string -> Option<string>

  datatype Bullet = Bullet(text: string, span: Span, section: Option<string>, ordinal: nat)

  /** The state between two lines: finished bullets, section, the open bullet and how much is consumed. */
  datatype Cutter = Cutter(bullets: seq<Bullet>, section: Option<string>,
                           start: Option<nat>, end: nat, parts: seq<string>, offset: nat)

  const NOTHING := Cutter([], None, None, 0, [], 0)

  function Stripped(parts: seq<string>): seq<string> {
    if parts == [] then [] else Stripped(parts[..|parts| - 1]) + [Strip(parts[|parts| - 1])]
  }

  function Whole(parts: seq<string>): string {
    Strip(Joined(Stripped(parts)))
  }

  function Flushed(c: Cutter): Cutter {
    if c.start.None? then c
    else
      var joined := Whole(c.parts);
      Cutter(if |joined| < MIN_BULLET_CHARS then c.bullets
             else c.bullets + [Bullet(Head(joined, MAX_BULLET_CHARS), Span(c.start.value, c.end), c.section, |c.bullets|)],
             c.section, None, 0, [], c.offset)
  }

  /** `[.!?]` or the Arabic question mark, then nothing but whitespace. */
  predicate EndsSentence(part: string) {
    var s := StripRight(part);
    s != "" && s[|s| - 1] in {'.', '!', '?', '\U{061F}'}
  }

  predicate StartsNew(c: Cutter, line: string) {
    MarkerEnd(line).Some? || c.start.None? || (c.parts != [] && EndsSentence(c.parts[|c.parts| - 1]))
  }

  function ContentStart(line: string): (n: nat)
    ensures n <= |line|
  {
    if MarkerEnd(line).Some? then MarkerEnd(line).value else LeadingSpaces(line)
  }

  function CutLine(heading: Heading, c: Cutter, line: string): Cutter {
    var next := c.(offset := c.offset + |line|);
    var lineEnd := c.offset + |TrimNewlines(line)|;
    if Strip(line) == "" then Flushed(next)
    else if heading(Strip(line)).Some? then Flushed(next).(section := heading(Strip(line)))
    else if StartsNew(c, line) then
      Flushed(next).(start := Some(c.offset + ContentStart(line)), end := lineEnd, parts := [Strip(line[ContentStart(line)..])])
    else next.(end := lineEnd, parts := c.parts + [Strip(line)])
  }

  function Cut(heading: Heading, lines: seq<string>): Cutter {
    if lines == [] then NOTHING else CutLine(heading, Cut(heading, lines[..|lines| - 1]), lines[|lines| - 1])
  }

  function Extracted(heading: Heading, text: string): seq<Bullet> {
    Flushed(Cut(heading, SplitLines(text))).bullets
  }

  /** The nested `flush`: emits the open bullet, if it is long enough, and closes it. */
  method Flush(c: Cutter) returns (bullets: seq<Bullet>, start: Option<nat>, end: nat, parts: seq<string>)
    ensures Flushed(c) == Cutter(bullets, c.section, start, end, parts, c.offset)
  {
    bullets, start, end, parts := c.bullets, c.start, c.end, c.parts;
    if start.None? {
      return;
    }
    var joined := Whole(parts);
    if |joined| >= MIN_BULLET_CHARS {
      bullets := bullets + [Bullet(Head(joined, MAX_BULLET_CHARS), Span(start.value, end), c.section, |bullets|)];
    }
    start, parts, end := None, [], 0;
  }

  method TakeLine(heading: Heading, c: Cutter, line: string) returns (d: Cutter)
    ensures d == CutLine(heading, c, line)
  {
    hide Flushed, Strip, TrimNewlines, MarkerEnd, EndsSentence, LeadingSpaces;
    var bullets, section, start, end, parts := c.bullets, c.section, c.start, c.end, c.parts;
    var stripped := Strip(line);
    var lineStart, lineEnd := c.offset, c.offset + |TrimNewlines(line)|;
    var offset := c.offset + |line|;
    if stripped == "" {
      bullets, start, end, parts := Flush(c.(offset := offset));
    } else if heading(stripped).Some? {
      bullets, start, end, parts := Flush(c.(offset := offset));
      section := heading(stripped);
    } else {
      var marker := MarkerEnd(line);
      var startsNew := marker.Some? || start.None? || (parts != [] && EndsSentence(parts[|parts| - 1]));
      if startsNew {
        bullets, start, end, parts := Flush(c.(offset := offset));
        var contentOffset := if marker.Some? then marker.value else LeadingSpaces(line);
        start, parts := Some(lineStart + contentOffset), [Strip(line[contentOffset..])];
      } else {
        parts := parts + [stripped];
      }
      end := lineEnd;
    }
    d := Cutter(bullets, section, start, end, parts, offset);
  }

  method ExtractBullets(heading: Heading, text: string) returns (bullets: seq<Bullet>)
    ensures bullets == Extracted(heading, text)
  {
    hide CutLine, Flushed, SplitLines;
    var c := NOTHING;
    var lines := SplitLines(text);
    for i := 0 to |lines|
      invariant c == Cut(heading, lines[..i])
    {
      assert lines[..i + 1][..i] == lines[..i] && lines[..i + 1][i] == lines[i];
      c := TakeLine(heading, c, lines[i]);
    }
    assert lines[..|lines|] == lines;
    var start, end, parts;
    bullets, start, end, parts := Flush(c);
  }

  function Respaced(s: string): string {
    Joined(Words(s))
  }

  /** Whether a bullet's span still recovers the beginning of its text. */
  predicate Recovers(text: string, b: Bullet)
    requires b.span.start <= b.span.end
  {
    var recovered, expected := Respaced(Slice(b.span, text)), Respaced(b.text);
    Head(expected, Min(|expected|, 40)) <= recovered
  }

  function Verified(text: string, bullets: seq<Bullet>): seq<Bullet>
    requires forall i :: 0 <= i < |bullets| ==> bullets[i].span.start <= bullets[i].span.end
  {
    if bullets == [] then []
    else
      var n := |bullets| - 1;
      if Recovers(text, bullets[n]) then Verified(text, bullets[..n]) + [bullets[n]] else Verified(text, bullets[..n])
  }

  method VerifyBulletSpans(text: string, bullets: seq<Bullet>) returns (kept: seq<Bullet>)
    requires forall i :: 0 <= i < |bullets| ==> bullets[i].span.start <= bullets[i].span.end
    ensures kept == Verified(text, bullets)
  {
    hide Recovers;
    kept := [];
    for i := 0 to |bullets|
      invariant kept == Verified(text, bullets[..i])
    {
      assert bullets[..i + 1][..i] == bullets[..i];
      if Recovers(text, bullets[i]) {
        kept := kept + [bullets[i]];
      }
    }
    assert bullets[..|bullets|] == bullets;
  }
}
