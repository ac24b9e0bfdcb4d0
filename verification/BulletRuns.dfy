/** Which bullets a document has, told from its lines alone: the runs of text lines, cut at markers and sentence ends. */
module BulletRuns {
  import opened Prelude
  import opened Text
  import opened Lines
  import opened Spacing
  import opened Spans
  import opened Bullets
  import opened BulletTheory

  // ---- lines ----

  predicate IsText(heading: Heading, line: string) {
    Strip(line) != "" && heading(Strip(line)).None?
  }

  /** Where the text of a line starts: after its marker, or after its leading spaces. */
  function Lead(line: string): (n: nat)
    ensures n <= |line|
  {
    match MarkerEnd(line)
    case Some(end) => end
    case None => LeadingSpaces(line)
  }

  lemma LeadIsContentStart(line: string)
    ensures Lead(line) == ContentStart(line)
  {
  }

  /** What a line contributes: its text after the marker, without the spaces around it. */
  function Part(line: string): string {
    Strip(line[Lead(line)..])
  }

  predicate FullStop(part: string) {
    part != "" && part[|part| - 1] in {'.', '!', '?', '\U{061F}'}
  }

  /** Line `k` begins a bullet: it carries a marker, or stands first in its paragraph, or after a finished sentence. */
  predicate Begins(heading: Heading, lines: seq<string>, k: nat)
    requires k < |lines|
  {
    IsText(heading, lines[k]) &&
    (MarkerEnd(lines[k]).Some? || k == 0 || !IsText(heading, lines[k - 1]) || FullStop(Part(lines[k - 1])))
  }

  /** The section that the last heading named. */
  function Title(heading: Heading, lines: seq<string>): Option<string> {
    if lines == [] then None
    else
      var last := Strip(lines[|lines| - 1]);
      if last != "" && heading(last).Some? then heading(last) else Title(heading, lines[..|lines| - 1])
  }

  /** Where the run that reaches the last line began. */
  function RunStart(heading: Heading, lines: seq<string>): (i: Option<nat>)
    ensures i.Some? ==> i.value < |lines|
  {
    if lines == [] then None
    else
      var n := |lines| - 1;
      if !IsText(heading, lines[n]) then None
      else if Begins(heading, lines, n) then Some(n)
      else RunStart(heading, lines[..n])
  }

  function Parts(lines: seq<string>, i: nat): seq<string> {
    if i >= |lines| then [] else Parts(lines[..|lines| - 1], i) + [Part(lines[|lines| - 1])]
  }

  /** From the run's first content to the end of its last line, the line break aside. */
  function RunSpan(lines: seq<string>, i: nat): Span
    requires i < |lines|
  {
    var n := |lines| - 1;
    Span(|Concat(lines[..i])| + Lead(lines[i]), |Concat(lines[..n])| + |TrimNewlines(lines[n])|)
  }

  /** The bullet of a run of 25 characters or more, cut to 600; none for a shorter one. */
  function Kept(heading: Heading, lines: seq<string>, i: nat, ordinal: nat): seq<Bullet>
    requires i < |lines|
  {
    var whole := Strip(Joined(Parts(lines, i)));
    if |whole| < 25 then []
    else [Bullet(if |whole| > 600 then whole[..600] else whole, RunSpan(lines, i), Title(heading, lines[..i]), ordinal)]
  }

  /** The bullets of the runs that ended before the last line. */
  function Ended(heading: Heading, lines: seq<string>): seq<Bullet> {
    if lines == [] then []
    else
      var n := |lines| - 1;
      var before, run := Ended(heading, lines[..n]), RunStart(heading, lines[..n]);
      if run.Some? && (!IsText(heading, lines[n]) || Begins(heading, lines, n))
      then before + Kept(heading, lines[..n], run.value, |before|) else before
  }

  function AllBullets(heading: Heading, lines: seq<string>): seq<Bullet> {
    var before, run := Ended(heading, lines), RunStart(heading, lines);
    if run.Some? then before + Kept(heading, lines, run.value, |before|) else before
  }

  // ---- the cutter keeps step ----

  predicate OpenAt(c: Cutter, lines: seq<string>, i: nat)
    requires i < |lines|
  {
    c.start == Some(RunSpan(lines, i).start) && c.end == RunSpan(lines, i).end && c.parts == Parts(lines, i)
  }

  predicate InStep(heading: Heading, lines: seq<string>, c: Cutter) {
    && c.offset == |Concat(lines)| && c.section == Title(heading, lines) && c.bullets == Ended(heading, lines)
    && match RunStart(heading, lines) case None => c.start.None? && c.parts == [] case Some(i) => OpenAt(c, lines, i)
  }

  lemma {:induction false} StrippedParts(lines: seq<string>, i: nat)
    ensures Stripped(Parts(lines, i)) == Parts(lines, i)
    ensures |Parts(lines, i)| == Max(0, |lines| - i)
  {
    hide Strip, Lead;
    if i >= |lines| {
    } else {
      var n := |lines| - 1;
      StrippedParts(lines[..n], i);
      StripAgain(lines[n][Lead(lines[n])..]);
      assert Parts(lines, i)[..|Parts(lines, i)| - 1] == Parts(lines[..n], i);
    }
  }

  lemma PlainPart(line: string)
    requires MarkerEnd(line).None?
    ensures Part(line) == Strip(line)
  {
    hide IsSpace;
    var n := LeadingSpaces(line);
    assert StripLeft(line) == line[n..];
    assert StripLeft(line[n..]) == line[n..];
  }

  lemma SentenceEnd(part: string)
    requires Strip(part) == part
    ensures EndsSentence(part) <==> FullStop(part)
  {
    StripRightKeeps(part);
  }

  lemma StripRightKeeps(s: string)
    requires Strip(s) == s
    ensures StripRight(s) == s
  {
    LeftIsExact(s);
    RightIsExact(StripLeft(s));
  }

  lemma {:induction false} TitleStays(heading: Heading, lines: seq<string>)
    requires RunStart(heading, lines).Some?
    ensures Title(heading, lines) == Title(heading, lines[..RunStart(heading, lines).value])
  {
    hide Strip, MarkerEnd, Part, FullStop;
    var n := |lines| - 1;
    if Begins(heading, lines, n) {
    } else {
      TitleStays(heading, lines[..n]);
      assert lines[..n][..RunStart(heading, lines[..n]).value] == lines[..RunStart(heading, lines[..n]).value];
    }
  }

  lemma FlushInStep(heading: Heading, lines: seq<string>, c: Cutter)
    requires InStep(heading, lines, c)
    ensures Flushed(c).bullets == AllBullets(heading, lines)
  {
    hide Strip, Joined, Stripped, Parts, RunSpan, Title, Ended, Concat;
    if RunStart(heading, lines).Some? {
      var i := RunStart(heading, lines).value;
      StrippedParts(lines, i);
      TitleStays(heading, lines);
      hide RunStart;
    }
  }

  lemma LastPart(lines: seq<string>, i: nat)
    requires i < |lines|
    ensures Parts(lines, i) != [] && Parts(lines, i)[|Parts(lines, i)| - 1] == Part(lines[|lines| - 1])
  {
  }

  lemma {:induction false} RunIsText(heading: Heading, lines: seq<string>)
    ensures RunStart(heading, lines).Some? <==> lines != [] && IsText(heading, lines[|lines| - 1])
  {
    hide IsText, MarkerEnd, Part, FullStop;
    if lines == [] {
    } else {
      var n := |lines| - 1;
      if IsText(heading, lines[n]) && !Begins(heading, lines, n) {
        RunIsText(heading, lines[..n]);
      }
    }
  }

  lemma NewBulletIff(heading: Heading, lines: seq<string>, c: Cutter, line: string)
    requires InStep(heading, lines, c) && IsText(heading, line)
    ensures StartsNew(c, line) <==> Begins(heading, lines + [line], |lines|)
  {
    hide Strip, MarkerEnd, EndsSentence, FullStop, Part, RunSpan, Title, Ended, Concat, Parts, RunStart;
    var all := lines + [line];
    RunIsText(heading, lines);
    if lines != [] {
      assert all[|lines| - 1] == lines[|lines| - 1];
      if RunStart(heading, lines).Some? {
        var i := RunStart(heading, lines).value;
        LastPart(lines, i);
        PartIsStripped(lines[|lines| - 1]);
        SentenceEnd(Part(lines[|lines| - 1]));
      }
    }
  }

  lemma PartIsStripped(line: string)
    ensures Strip(Part(line)) == Part(line)
  {
    hide Strip;
    StripAgain(line[Lead(line)..]);
  }

  lemma Snoc(heading: Heading, lines: seq<string>, line: string)
    ensures var all := lines + [line];
            && Concat(all) == Concat(lines) + line
            && Title(heading, all) == (if Strip(line) != "" && heading(Strip(line)).Some? then heading(Strip(line)) else Title(heading, lines))
            && RunStart(heading, all) == (if !IsText(heading, line) then None
                                          else if Begins(heading, all, |lines|) then Some(|lines|)
                                          else RunStart(heading, lines))
            && Ended(heading, all) == if !IsText(heading, line) || Begins(heading, all, |lines|) then AllBullets(heading, lines)
                                      else Ended(heading, lines)
  {
    hide Strip, Begins, Kept;
    assert (lines + [line])[..|lines|] == lines;
  }

  lemma NewRun(heading: Heading, lines: seq<string>, c: Cutter, line: string)
    requires InStep(heading, lines, c) && IsText(heading, line) && StartsNew(c, line)
    ensures OpenAt(CutLine(heading, c, line), lines + [line], |lines|)
  {
    hide Strip, MarkerEnd, StartsNew, Title, Ended, Concat, TrimNewlines, RunStart, Whole;
    var all := lines + [line];
    assert all[..|lines|] == lines && all[|lines|] == line;
    assert Parts(lines, |lines|) == [];
    assert Parts(all, |lines|) == [Part(line)];
    LeadIsContentStart(line);
  }

  lemma LongerRun(heading: Heading, lines: seq<string>, c: Cutter, line: string)
    requires InStep(heading, lines, c) && IsText(heading, line) && !StartsNew(c, line)
    ensures RunStart(heading, lines).Some?
    ensures OpenAt(CutLine(heading, c, line), lines + [line], RunStart(heading, lines).value)
  {
    hide Strip, MarkerEnd, Title, Ended, Concat, TrimNewlines, RunStart, EndsSentence, Part;
    var all := lines + [line];
    var i := RunStart(heading, lines).value;
    assert all[..|lines|] == lines && all[|lines|] == line && all[..i] == lines[..i] && all[i] == lines[i];
    PlainPart(line);
  }

  lemma LineInStep(heading: Heading, lines: seq<string>, c: Cutter, line: string)
    requires InStep(heading, lines, c)
    ensures InStep(heading, lines + [line], CutLine(heading, c, line))
  {
    var d := CutLine(heading, c, line);
    Snoc(heading, lines, line);
    FlushInStep(heading, lines, c);
    CutsTo(heading, c, line);
    if IsText(heading, line) {
      NewBulletIff(heading, lines, c, line);
      if StartsNew(c, line) {
        NewRun(heading, lines, c, line);
      } else {
        LongerRun(heading, lines, c, line);
      }
    }
    hide Strip, MarkerEnd, StartsNew, Title, Ended, Concat, TrimNewlines, RunStart, AllBullets, CutLine, Flushed, Begins, OpenAt;
  }

  /** What one line does to everything but the open bullet. */
  lemma CutsTo(heading: Heading, c: Cutter, line: string)
    ensures var d := CutLine(heading, c, line);
            && d.offset == c.offset + |line|
            && d.section == (if Strip(line) != "" && heading(Strip(line)).Some? then heading(Strip(line)) else c.section)
            && d.bullets == (if !IsText(heading, line) || StartsNew(c, line) then Flushed(c).bullets else c.bullets)
            && (!IsText(heading, line) ==> d.start.None? && (c.start.None? ==> d.parts == c.parts) && (c.start.Some? ==> d.parts == []))
  {
    hide Strip, MarkerEnd, StartsNew, TrimNewlines, Whole;
  }

  lemma {:induction false} CutInStep(heading: Heading, lines: seq<string>)
    ensures InStep(heading, lines, Cut(heading, lines))
  {
    hide InStep, CutLine;
    if lines == [] {
      NothingInStep(heading);
    } else {
      var n := |lines| - 1;
      CutInStep(heading, lines[..n]);
      LineInStep(heading, lines[..n], Cut(heading, lines[..n]), lines[n]);
      assert lines[..n] + [lines[n]] == lines;
    }
  }

  lemma NothingInStep(heading: Heading)
    ensures InStep(heading, [], NOTHING)
  {
  }

  /** The one-pass cutter finds exactly the bullets of the runs, each with its text, its span, the section of the last
      heading before it and its place in the list. */
  lemma BulletsAreRuns(heading: Heading, text: string)
    ensures Extracted(heading, text) == AllBullets(heading, SplitLines(text))
  {
    hide Cut, AllBullets, InStep, Flushed;
    CutInStep(heading, SplitLines(text));
    FlushInStep(heading, SplitLines(text), Cut(heading, SplitLines(text)));
  }

  /** Verification keeps those bullets, in order, whose span slices out text that begins as theirs does, for forty
      characters and up to spacing. */
  lemma {:induction false} VerifiedIsExact(text: string, bullets: seq<Bullet>, b: Bullet)
    requires forall i :: 0 <= i < |bullets| ==> bullets[i].span.start <= bullets[i].span.end
    requires b.span.start <= b.span.end
    ensures b in Verified(text, bullets) <==> b in bullets && BeginsAlike(text, b)
    ensures |Verified(text, bullets)| == CountOf(bullets, (c: Bullet) => c.span.start <= c.span.end && BeginsAlike(text, c))
  {
    hide CountOf, Recovers, BeginsAlike;
    var alike := (c: Bullet) => c.span.start <= c.span.end && BeginsAlike(text, c);
    if bullets == [] {
      CountNone(bullets, alike);
    } else {
      var n := |bullets| - 1;
      VerifiedIsExact(text, bullets[..n], b);
      CountMore(bullets, alike);
      AlikeIsRecovered(text, bullets[n]);
      assert bullets == bullets[..n] + [bullets[n]];
    }
  }

  predicate BeginsAlike(text: string, b: Bullet)
    requires b.span.start <= b.span.end
  {
    var found, own := Joined(Words(text[Min(b.span.start, |text|)..Min(b.span.end, |text|)])), Joined(Words(b.text));
    if |own| <= 40 then own <= found else own[..40] <= found
  }

  lemma AlikeIsRecovered(text: string, b: Bullet)
    requires b.span.start <= b.span.end
    ensures Recovers(text, b) <==> BeginsAlike(text, b)
  {
    hide Words, Joined;
    var own := Joined(Words(b.text));
    assert own[..|own|] == own;
  }
}
