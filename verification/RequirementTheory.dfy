/** Which lines of a description become requirements, and when one is a must-have, told from the lines alone. */
module RequirementTheory {
  import opened Prelude
  import opened Text
  import opened Lines
  import opened Spans
  import opened Requirements

  // ---- a line judged by the lines before it ----

  predicate Heads(p: Patterns, line: string) {
    Strip(line) != "" && p.heading(Strip(line)).Some?
  }

  predicate Marked(p: Patterns, line: string) {
    Strip(line) != "" && !Heads(p, line) && MarkerEnd(line).Some?
  }

  function LastHeading(p: Patterns, lines: seq<string>): (h: Option<nat>)
    ensures h.Some? ==> h.value < |lines| && Heads(p, lines[h.value])
    ensures forall k :: (if h.Some? then h.value + 1 else 0) <= k < |lines| ==> !Heads(p, lines[k])
  {
    if lines == [] then None
    else if Heads(p, lines[|lines| - 1]) then Some(|lines| - 1)
    else LastHeading(p, lines[..|lines| - 1])
  }

  /** The section that the last heading opened. */
  function SectionIn(p: Patterns, lines: seq<string>): Option<bool> {
    match LastHeading(p, lines)
    case None => None
    case Some(h) =>
      var title := p.heading(Strip(lines[h])).value;
      if title.NiceToHave? then Some(false) else if title.Demanded? then Some(true) else None
  }

  predicate BulletedSince(p: Patterns, lines: seq<string>) {
    var from := if LastHeading(p, lines).Some? then LastHeading(p, lines).value + 1 else 0;
    exists k :: from <= k < |lines| && Marked(p, lines[k])
  }

  /** Where the text of a line starts: after its marker, or after its leading spaces. */
  function Lead(line: string): (n: nat)
    ensures n <= |line|
  {
    match MarkerEnd(line)
    case Some(end) => end
    case None => LeadingSpaces(line)
  }

  lemma LeadIsContentStart(line: string)
    ensures Lead(line) == ContentStart(line)
  {
  }

  function Content(line: string): string {
    Strip(line[Lead(line)..])
  }

  /** Line `k` states a requirement: it is neither blank nor a heading, fits, and is a bullet or prose in a
      requirements section that has had no bullet yet. */
  predicate States(p: Patterns, lines: seq<string>, k: nat)
    requires k < |lines|
  {
    && Strip(lines[k]) != "" && !Heads(p, lines[k]) && 15 <= |Content(lines[k])| <= 400
    && (MarkerEnd(lines[k]).Some? || (SectionIn(p, lines[..k]).Some? && !BulletedSince(p, lines[..k])))
  }

  /** Nice-to-have wording decides first, must-have wording second, the section last. */
  predicate Must(p: Patterns, section: Option<bool>, content: string) {
    !p.niceToHave(content) && (p.mustHave(content) || section == Some(true))
  }

  /** The first vocabulary that a text matches, skills failing all of them. */
  function KindOf(p: Patterns, content: string): Kind {
    if !p.authorization(content) && !p.language(content) && !p.education(content) && !p.years(content) then Skill
    else if !p.authorization(content) && !p.language(content) && !p.education(content) then Experience
    else if !p.authorization(content) && !p.language(content) then Education
    else if !p.authorization(content) then Language
    else Auth
  }

  /** What line `k` states. */
  function Stated(p: Patterns, lines: seq<string>, k: nat): Requirement
    requires k < |lines|
  {
    var content, start := Content(lines[k]), |Concat(lines[..k])| + Lead(lines[k]);
    Requirement(content, KindOf(p, content), Must(p, SectionIn(p, lines[..k]), content), Span(start, start + |content|))
  }

  /** All the requirements stated, with no limit on their number. */
  function AllStated(p: Patterns, lines: seq<string>): seq<Requirement> {
    if lines == [] then []
    else
      var n := |lines| - 1;
      AllStated(p, lines[..n]) + if States(p, lines, n) then [Stated(p, lines, n)] else []
  }

  // ---- the reader keeps what the lines say ----

  lemma HeadingSnoc(p: Patterns, lines: seq<string>, line: string)
    ensures LastHeading(p, lines + [line]) == if Heads(p, line) then Some(|lines|) else LastHeading(p, lines)
  {
    assert (lines + [line])[..|lines|] == lines;
  }

  lemma HeadingOpens(p: Patterns, line: string)
    requires Heads(p, line)
    ensures var title := p.heading(Strip(line)).value;
            p.heading(Strip(line)).Some? &&
            SectionOf(title) == if title.NiceToHave? then Some(false) else if title.Demanded? then Some(true) else None
  {
    hide Strip;
  }

  lemma SectionSnoc(p: Patterns, lines: seq<string>, line: string)
    ensures SectionIn(p, lines + [line]) ==
            if Heads(p, line) then SectionOf(p.heading(Strip(line)).value) else SectionIn(p, lines)
    ensures BulletedSince(p, lines + [line]) <==> !Heads(p, line) && (BulletedSince(p, lines) || Marked(p, line))
  {
    hide Strip, MarkerEnd;
    HeadingSnoc(p, lines, line);
    hide LastHeading, Heads, Marked;
    var all := lines + [line];
    assert all[|lines|] == line;
    assert forall k :: 0 <= k < |lines| ==> all[k] == lines[k];
    if Heads(p, line) {
      assert LastHeading(p, all) == Some(|lines|);
      HeadingOpens(p, line);
    } else {
      var from := if LastHeading(p, lines).Some? then LastHeading(p, lines).value + 1 else 0;
      if k :| from <= k < |lines| && Marked(p, lines[k]) {
        assert Marked(p, all[k]);
      }
      if Marked(p, line) {
        assert Marked(p, all[|lines|]);
      }
    }
  }

  /** The reader is where the lines say it is. */
  predicate InStep(p: Patterns, lines: seq<string>, r: Reader) {
    r.section == SectionIn(p, lines) && (r.bulleted <==> BulletedSince(p, lines)) && r.offset == |Concat(lines)|
  }

  lemma ConcatSnoc(lines: seq<string>, line: string)
    ensures Concat(lines + [line]) == Concat(lines) + line
  {
    assert (lines + [line])[..|lines|] == lines;
  }

  lemma FoundIsStated(p: Patterns, lines: seq<string>, r: Reader, line: string)
    requires InStep(p, lines, r)
    ensures Found(p, r, line) == Stated(p, lines + [line], |lines|)
  {
    hide Strip, ContentStart, Lead, Concat;
    LeadIsContentStart(line);
    assert (lines + [line])[..|lines|] == lines;
  }

  lemma LineInStep(p: Patterns, lines: seq<string>, r: Reader, line: string)
    requires InStep(p, lines, r) && |r.results| < MAX_REQUIREMENTS
    ensures InStep(p, lines + [line], ReadLine(p, r, line))
    ensures ReadLine(p, r, line).results ==
            r.results + if States(p, lines + [line], |lines|) then [Stated(p, lines + [line], |lines|)] else []
  {
    hide Strip, ContentStart, Lead, MarkerEnd, Found, Stated, SectionIn, BulletedSince, Concat;
    SectionSnoc(p, lines, line);
    ConcatSnoc(lines, line);
    FoundIsStated(p, lines, r, line);
    assert Found(p, r, line).text == Content(line) by {
      ContentFound(p, r, line);
    }
    assert (lines + [line])[..|lines|] == lines;
  }

  lemma ContentFound(p: Patterns, r: Reader, line: string)
    ensures Found(p, r, line).text == Content(line)
  {
    LeadIsContentStart(line);
  }

  lemma {:induction false} ReadIsStated(p: Patterns, lines: seq<string>)
    ensures var all := AllStated(p, lines);
            Read(p, lines).results == all[..Min(MAX_REQUIREMENTS, |all|)] &&
            (|all| < MAX_REQUIREMENTS ==> InStep(p, lines, Read(p, lines)))
  {
    hide InStep, ReadLine, States, Stated;
    if lines == [] {
      NothingInStep(p);
    } else {
      var n := |lines| - 1;
      var r := Read(p, lines[..n]);
      ReadIsStated(p, lines[..n]);
      assert lines[..n] + [lines[n]] == lines;
      if |AllStated(p, lines[..n])| < MAX_REQUIREMENTS {
        LineInStep(p, lines[..n], r, lines[n]);
      } else {
        FullStays(p, r, lines[n]);
      }
    }
  }

  lemma NothingInStep(p: Patterns)
    ensures InStep(p, [], Reader([], None, false, 0))
  {
  }

  // ---- the theorems ----

  /** The one-pass reader returns the first thirty of the lines that state a requirement, each judged by the
      headings and bullets before it. */
  lemma ExtractedAreStated(p: Patterns, description: string)
    ensures var all := AllStated(p, SplitLines(description));
            Extracted(p, description) == if |all| <= 30 then all else all[..30]
  {
    ReadIsStated(p, SplitLines(description));
    var all := AllStated(p, SplitLines(description));
    assert all[..|all|] == all;
  }

  lemma {:induction false} StatedByLine(p: Patterns, lines: seq<string>, i: nat) returns (k: nat)
    requires i < |AllStated(p, lines)|
    ensures k < |lines| && States(p, lines, k) && AllStated(p, lines)[i] == Stated(p, lines, k)
  {
    hide States, Stated;
    var n := |lines| - 1;
    if i < |AllStated(p, lines[..n])| {
      k := StatedByLine(p, lines[..n], i);
      SameBefore(p, lines, n, k);
    } else {
      k := n;
    }
  }

  lemma SameBefore(p: Patterns, lines: seq<string>, n: nat, k: nat)
    requires k < n <= |lines|
    ensures States(p, lines[..n], k) == States(p, lines, k) && Stated(p, lines[..n], k) == Stated(p, lines, k)
  {
    hide Strip, Lead, MarkerEnd, SectionIn, BulletedSince, Concat, Heads;
    assert lines[..n][..k] == lines[..k];
  }

  /** Over a whole description: every requirement stands on a line, and is a must-have exactly when it is not worded
      as a nice-to-have and is worded as a must-have or stands under a heading that demands. */
  lemma WordingBeatsSection(p: Patterns, description: string, i: nat)
    requires i < |Extracted(p, description)|
    ensures var f, lines := Extracted(p, description)[i], SplitLines(description);
            exists k :: 0 <= k < |lines| && States(p, lines, k) && f == Stated(p, lines, k) &&
              (f.mustHave <==> !p.niceToHave(f.text) && (p.mustHave(f.text) || SectionIn(p, lines[..k]) == Some(true)))
  {
    hide Strip, Lead, SectionIn, Concat, States, KindOf, AllStated;
    ExtractedAreStated(p, description);
    var k := StatedByLine(p, SplitLines(description), i);
  }

  // ---- a section that does not carry ----

  lemma {:induction false} FirstLineOf(a: string, b: string)
    requires a != "" && a[|a| - 1] == '\n' && forall i :: 0 <= i < |a| - 1 ==> !IsLineBreak(a[i])
    ensures FirstLine(a + b) == |a|
  {
    if |a| == 1 {
    } else {
      FirstLineOf(a[1..], b);
      assert (a + b)[1..] == a[1..] + b;
    }
  }

  lemma {:induction false} NoBreak(b: string)
    requires forall i :: 0 <= i < |b| ==> !IsLineBreak(b[i])
    ensures FirstLine(b) == |b|
  {
    if b == "" {
    } else {
      NoBreak(b[1..]);
    }
  }

  /** One line of text with nothing to strip. */
  predicate Tight(s: string) {
    s != "" && !IsSpace(s[0]) && !IsSpace(s[|s| - 1]) && forall i :: 0 <= i < |s| ==> !IsLineBreak(s[i])
  }

  lemma TightIsStripped(s: string)
    requires Tight(s)
    ensures Strip(s) == s && Strip(s + "\n") == s && LeadingSpaces(s) == 0
  {
    var a := s + "\n";
    assert a[..|a| - 1] == s && IsSpace('\n');
    assert StripLeft(a) == a && StripRight(a) == StripRight(s) == s;
  }

  lemma TwoLines(heading: string, bullet: string)
    requires Tight(heading) && Tight(bullet)
    ensures SplitLines(heading + "\n" + bullet) == [heading + "\n", bullet]
  {
    var a := heading + "\n";
    FirstLineOf(a, bullet);
    NoBreak(bullet);
    assert (a + bullet)[..|a|] == a && (a + bullet)[|a|..] == bullet;
    assert bullet[..|bullet|] == bullet && bullet[|bullet|..] == "";
    assert SplitLines("") == [] && SplitLines(bullet) == [bullet];
    assert a + bullet == heading + "\n" + bullet;
    hide FirstLine;
    assert SplitLines(a + bullet) == [a] + SplitLines(bullet);
  }

  lemma BulletContent(content: string)
    requires Tight(content)
    ensures Tight("- " + content) && MarkerEnd("- " + content) == Some(2) && Content("- " + content) == content
  {
    var b := "- " + content;
    TightIsStripped(content);
    assert b[2..] == content && IsSpace(' ') && IsGlyph('-') && !IsSpace('-');
    assert LeadingSpaces(b) == 0;
    hide Strip, LeadingSpaces;
    assert b[1] == ' ' && b[0] == '-' && b[|b| - 1] == content[|content| - 1];
    forall i | 0 <= i < |b| ensures !IsLineBreak(b[i]) {
      if i >= 2 {
        assert b[i] == content[i - 2];
      }
    }
    assert b[1..] == " " + content;
    BlankThenText(content);
  }

  lemma BlankThenText(content: string)
    requires Tight(content)
    ensures LeadingSpaces(" " + content) == 1
  {
    assert (" " + content)[1..] == content;
    assert IsSpace(' ');
  }

  /** A bullet under a nice-to-have heading that is worded as mandatory is extracted as a must-have. */
  lemma MandatoryWordingUnderNiceToHave(p: Patterns, heading: string, content: string)
    requires Tight(heading) && Tight(content) && Fits(content)
    requires p.heading(heading) == Some(NiceToHave) && p.heading("- " + content) == None
    requires p.mustHave(content) && !p.niceToHave(content)
    ensures var results := Extracted(p, heading + "\n" + ("- " + content));
            |results| == 1 && results[0].text == content && results[0].mustHave
  {
    hide Strip, MarkerEnd, SplitLines, KindOf, Concat, SectionIn, BulletedSince;
    var bullet := "- " + content;
    BulletContent(content);
    TwoLines(heading, bullet);
    TightIsStripped(heading);
    TightIsStripped(bullet);
    var lines := [heading + "\n", bullet];
    assert lines[..1] == [lines[0]] && [lines[0]][..0] == [];
    assert !States(p, [lines[0]], 0);
    assert AllStated(p, [lines[0]]) == [];
    assert States(p, lines, 1);
    assert AllStated(p, lines) == [Stated(p, lines, 1)];
    ExtractedAreStated(p, heading + "\n" + bullet);
  }

  /** The smallest vocabulary that knows both wordings. */
  function Vocabulary(): Patterns {
    Patterns(s => if s == "Nice to have" then Some(NiceToHave) else None, s => At(s, "Must have", 0), s => false,
             s => false, s => false, s => false, s => false)
  }

  lemma MustHaveSql()
    ensures var results := Extracted(Vocabulary(), "Nice to have" + "\n" + ("- " + "Must have SQL or Go"));
            |results| == 1 && results[0].text == "Must have SQL or Go" && results[0].mustHave
  {
    var heading, content := "Nice to have", "Must have SQL or Go";
    Plain(heading);
    Plain(content);
    assert content[..9] == "Must have";
    hide Extracted;
    MandatoryWordingUnderNiceToHave(Vocabulary(), heading, content);
  }

  lemma Plain(s: string)
    requires s != "" && !IsSpace(s[0]) && !IsSpace(s[|s| - 1]) && forall i :: 0 <= i < |s| ==> s[i] >= ' ' && s[i] < '\U{7f}'
    ensures Tight(s)
  {
  }
}
