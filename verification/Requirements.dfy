/** requirements.py: requirement-shaped lines of a job description, with spans. The vocabularies behind the
    regular expressions are given functions. */
module Requirements {
  import opened Prelude
  import opened Text
  import opened Lines
  import opened Spans

  const MIN_REQUIREMENT_CHARS := 15
  const MAX_REQUIREMENT_CHARS := 400
  const MAX_REQUIREMENTS := 30

  datatype Label = NiceToHave | Responsibilities | Demanded

  datatype Kind = Auth | Language | Education | Experience | Skill

  /** `heading` names the section a stripped line opens; the others say whether a line matches. */
  datatype Patterns = Patterns(heading: string -> Option<Label>, mustHave: string -> bool, niceToHave: string -> bool,
                               authorization: string -> bool, language: string -> bool, education: string -> bool,
                               years: string -> bool)

  datatype Requirement = Requirement(text: string, kind: Kind, mustHave: bool, span: Span)

  datatype Reader = Reader(results: seq<Requirement>, section: Option<bool>, bulleted: bool, offset: nat)

  function ClassifyKind(p: Patterns, content: string): Kind {
    if p.authorization(content) then Auth
    else if p.language(content) then Language
    else if p.education(content) then Education
    else if p.years(content) then Experience
    else Skill
  }

  /** Must-have for each kind of section; `None` outside requirements. */
  function SectionOf(title: Label): Option<bool> {
    match title
    case NiceToHave => Some(false)
    case Responsibilities => None
    case Demanded => Some(true)
  }

  function IsMustHave(p: Patterns, section: Option<bool>, content: string): bool {
    if p.niceToHave(content) then false
    else if p.mustHave(content) then true
    else section.Some? && section.value
  }

  function ContentStart(line: string): (n: nat)
    ensures n <= |line| && (n < |line| ==> !IsSpace(line[n]))
  {
    if MarkerEnd(line).Some? then MarkerEnd(line).value else LeadingSpaces(line)
  }

  /** Prose outside a requirements section, or trailing a bullet list, is not a requirement. */
  predicate Ignored(r: Reader, line: string) {
    MarkerEnd(line).None? && (r.section.None? || r.bulleted)
  }

  predicate Fits(content: string) {
    MIN_REQUIREMENT_CHARS <= |content| <= MAX_REQUIREMENT_CHARS
  }

  function Found(p: Patterns, r: Reader, line: string): Requirement {
    var content, start := Strip(line[ContentStart(line)..]), r.offset + ContentStart(line);
    Requirement(content, ClassifyKind(p, content), IsMustHave(p, r.section, content), Span(start, start + |content|))
  }

  function ReadLine(p: Patterns, r: Reader, line: string): Reader {
    var next := r.(offset := r.offset + |line|);
    if |r.results| >= MAX_REQUIREMENTS then r
    else if Strip(line) == "" then next
    else if p.heading(Strip(line)).Some? then next.(section := SectionOf(p.heading(Strip(line)).value), bulleted := false)
    else if Ignored(r, line) then next
    else
      var marked := next.(bulleted := r.bulleted || MarkerEnd(line).Some?);
      if Fits(Found(p, r, line).text) then marked.(results := r.results + [Found(p, r, line)]) else marked
  }

  function Read(p: Patterns, lines: seq<string>): Reader {
    if lines == [] then Reader([], None, false, 0) else ReadLine(p, Read(p, lines[..|lines| - 1]), lines[|lines| - 1])
  }

  function Extracted(p: Patterns, description: string): seq<Requirement> {
    Read(p, SplitLines(description)).results
  }

  method TakeLine(p: Patterns, r: Reader, line: string) returns (next: Reader)
    requires |r.results| < MAX_REQUIREMENTS
    ensures next == ReadLine(p, r, line)
  {
    hide Strip, MarkerEnd, LeadingSpaces, ClassifyKind, IsMustHave, Fits;
    var stripped, lineStart := Strip(line), r.offset;
    next := r.(offset := r.offset + |line|);
    if stripped == "" {
      return;
    }
    var title := p.heading(stripped);
    if title.Some? {
      return next.(section := SectionOf(title.value), bulleted := false);
    }
    var marker := MarkerEnd(line);
    if marker.None? && (r.section.None? || r.bulleted) {
      return;
    }
    next := next.(bulleted := r.bulleted || marker.Some?);
    var start := ContentStart(line);
    var content := Strip(line[start..]);
    if Fits(content) {
      next := next.(results := r.results + [Requirement(content, ClassifyKind(p, content), IsMustHave(p, r.section, content),
                                                        Span(lineStart + start, lineStart + start + |content|))]);
    }
  }

  method ExtractRequirements(p: Patterns, description: string) returns (results: seq<Requirement>)
    ensures results == Extracted(p, description)
  {
    hide ReadLine, SplitLines;
    var lines := SplitLines(description);
    var r := Reader([], None, false, 0);
    for i := 0 to |lines|
      invariant r == Read(p, lines[..i]) && |r.results| < MAX_REQUIREMENTS
    {
      assert lines[..i + 1][..i] == lines[..i] && lines[..i + 1][i] == lines[i];
      r := TakeLine(p, r, lines[i]);
      if |r.results| >= MAX_REQUIREMENTS {
        FullStaysFull(p, lines, i + 1, |lines|);
        break;
      }
    }
    assert lines[..|lines|] == lines;
    results := r.results;
  }

  lemma {:induction false} FullStaysFull(p: Patterns, lines: seq<string>, i: nat, n: nat)
    requires i <= n <= |lines| && |Read(p, lines[..i]).results| >= MAX_REQUIREMENTS
    ensures Read(p, lines[..n]) == Read(p, lines[..i])
  {
    if i >= n {
    } else {
      FullStaysFull(p, lines, i, n - 1);
      assert lines[..n][..n - 1] == lines[..n - 1];
    }
  }

  // ---- what the spans mean ----

  /** Each requirement is exactly the text its span slices out; spans ascend without overlap. */
  ghost predicate RequirementsOk(description: string, results: seq<Requirement>, limit: nat) {
    && |results| <= 30 && limit <= |description|
    && (forall i :: 0 <= i < |results| ==>
          15 <= |results[i].text| <= 400 && results[i].span.start < results[i].span.end <= limit &&
          description[results[i].span.start..results[i].span.end] == results[i].text)
    && forall i, j :: 0 <= i < j < |results| ==> results[i].span.end <= results[j].span.start
  }

  /** Content starts at a non-space character, so stripping only removes its tail. */
  lemma {:induction false} StripIsPrefix(s: string)
    requires s != "" ==> !IsSpace(s[0])
    ensures |Strip(s)| <= |s| && Strip(s) == s[..|Strip(s)|]
  {
    assert StripLeft(s) == s;
    RightIsPrefix(s);
  }

  lemma {:induction false} RightIsPrefix(s: string)
    ensures |StripRight(s)| <= |s| && StripRight(s) == s[..|StripRight(s)|]
  {
    hide IsSpace;
    if s == "" || !IsSpace(s[|s| - 1]) {
    } else {
      RightIsPrefix(s[..|s| - 1]);
    }
  }

  lemma FoundIsSlice(p: Patterns, r: Reader, description: string, line: string)
    requires r.offset + |line| <= |description| && description[r.offset..r.offset + |line|] == line
    ensures var f := Found(p, r, line);
            r.offset <= f.span.start <= f.span.end <= r.offset + |line| &&
            description[f.span.start..f.span.end] == f.text && f.span.end == f.span.start + |f.text|
  {
    hide IsSpace, Strip, ContentStart;
    var k := ContentStart(line);
    var rest := line[k..];
    ContentIsText(line);
    StripIsPrefix(rest);
    var content := Strip(rest);
    SliceOfSlice(description, r.offset, line, k, |content|);
    assert line[k..][..|content|] == line[k..k + |content|];
  }

  lemma ContentIsText(line: string)
    ensures var rest := line[ContentStart(line)..]; rest != "" ==> !IsSpace(rest[0])
  {
    hide MarkerEnd, LeadingSpaces, IsSpace;
  }

  lemma SliceOfSlice(text: string, at: nat, line: string, k: nat, n: nat)
    requires at + |line| <= |text| && text[at..at + |line|] == line && k + n <= |line|
    ensures text[at + k..at + k + n] == line[k..k + n]
  {
    var left, right := text[at + k..at + k + n], line[k..k + n];
    forall i | 0 <= i < n ensures left[i] == right[i] {
      assert line[k + i] == text[at + (k + i)];
    }
  }

  lemma LineKeepsOk(p: Patterns, description: string, r: Reader, line: string)
    requires RequirementsOk(description, r.results, r.offset)
    requires r.offset + |line| <= |description| && description[r.offset..r.offset + |line|] == line
    ensures RequirementsOk(description, ReadLine(p, r, line).results, r.offset + |line|)
  {
    hide *;
    FoundIsSlice(p, r, description, line);
    WiderLimit(description, r.results, r.offset, r.offset + |line|);
    LineAddsAtMostOne(p, r, line);
    if ReadLine(p, r, line).results != r.results {
      OneMoreOk(description, r.results, r.offset, Found(p, r, line), r.offset + |line|);
    }
  }

  lemma LineAddsAtMostOne(p: Patterns, r: Reader, line: string)
    ensures var after := ReadLine(p, r, line).results;
            after == r.results ||
            (after == r.results + [Found(p, r, line)] && |r.results| < MAX_REQUIREMENTS && Fits(Found(p, r, line).text))
  {
    hide Found, Strip, Ignored, Fits;
  }

  lemma OneMoreOk(description: string, results: seq<Requirement>, limit: nat, f: Requirement, wider: nat)
    requires RequirementsOk(description, results, limit) && |results| < MAX_REQUIREMENTS && Fits(f.text)
    requires limit <= f.span.start && f.span.end == f.span.start + |f.text| <= wider <= |description|
    requires description[f.span.start..f.span.end] == f.text
    ensures RequirementsOk(description, results + [f], wider)
  {
  }

  lemma {:induction false} ReadOk(p: Patterns, description: string, lines: seq<string>, i: nat)
    requires Concat(lines) == description && i <= |lines|
    ensures var r := Read(p, lines[..i]);
            var at := |Concat(lines[..i])|;
            at <= |description| && RequirementsOk(description, r.results, at) &&
            (|r.results| < MAX_REQUIREMENTS ==> r.offset == at)
  {
    hide RequirementsOk, ReadLine;
    if i == 0 {
      NothingRead(description);
    } else {
      var r := Read(p, lines[..i - 1]);
      ReadOk(p, description, lines, i - 1);
      ConcatPrefix(lines, i - 1);
      assert lines[..i][..i - 1] == lines[..i - 1];
      if |r.results| < MAX_REQUIREMENTS {
        LineKeepsOk(p, description, r, lines[i - 1]);
        OffsetMoves(p, r, lines[i - 1]);
      } else {
        FullStays(p, r, lines[i - 1]);
        WiderLimit(description, r.results, |Concat(lines[..i - 1])|, |Concat(lines[..i])|);
      }
    }
  }

  lemma OffsetMoves(p: Patterns, r: Reader, line: string)
    requires |r.results| < MAX_REQUIREMENTS
    ensures ReadLine(p, r, line).offset == r.offset + |line|
  {
  }

  lemma FullStays(p: Patterns, r: Reader, line: string)
    requires |r.results| >= MAX_REQUIREMENTS
    ensures ReadLine(p, r, line) == r
  {
  }

  lemma NothingRead(description: string)
    ensures RequirementsOk(description, [], 0)
  {
  }

  lemma WiderLimit(description: string, results: seq<Requirement>, limit: nat, wider: nat)
    requires RequirementsOk(description, results, limit) && limit <= wider <= |description|
    ensures RequirementsOk(description, results, wider)
  {
  }

  /** At most thirty requirements, in order, without overlap, each exactly the text its span slices out. */
  lemma RequirementsKeepTheirOffsets(p: Patterns, description: string)
    ensures RequirementsOk(description, Extracted(p, description), |description|)
  {
    hide RequirementsOk;
    var lines := SplitLines(description);
    LinesConcat(description);
    ReadOk(p, description, lines, |lines|);
    assert lines[..|lines|] == lines;
  }
}
