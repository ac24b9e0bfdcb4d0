/** spans.py: finding a quote in a document up to case and whitespace, and returning offsets into the original.
    `fold` stands for NFKC followed by casefold, and may change the length of a text. */
module Spans {
  import opened Prelude
  import opened Text
  import opened Spacing

  type Fold = string -> string

  // ---- two normalisations ----

  /** `re.sub(r"\s+", " ", s)`. */
  function RunsToSpaces(s: string): string {
    if s == "" then ""
    else
      var n := |s| - 1;
      if !IsSpace(s[n]) then RunsToSpaces(s[..n]) + [s[n]]
      else if n > 0 && IsSpace(s[n - 1]) then RunsToSpaces(s[..n])
      else RunsToSpaces(s[..n]) + " "
  }

  function NormalizeForComparison(fold: Fold, s: string): string {
    Strip(RunsToSpaces(fold(s)))
  }

  /** Whether a space would be suppressed after `chars`. */
  predicate AtSpace(chars: string) {
    chars == "" || chars[|chars| - 1] == ' '
  }

  /** Normalised characters with, for each, its index in the original. */
  datatype Trace = Trace(chars: string, offsets: seq<nat>)

  function Kept(t: Trace, c: char, i: nat): Trace {
    if !IsSpace(c) then Trace(t.chars + [c], t.offsets + [i])
    else if AtSpace(t.chars) then t
    else Trace(t.chars + " ", t.offsets + [i])
  }

  /** What is kept while walking a folded text, a trailing space included. */
  function Walk(s: string): (r: Trace)
    ensures |r.chars| == |r.offsets|
  {
    if s == "" then Trace("", []) else Kept(Walk(s[..|s| - 1]), s[|s| - 1], |s| - 1)
  }

  function Popped(t: Trace): (r: Trace)
    requires |t.chars| == |t.offsets|
    ensures |r.chars| == |r.offsets|
    decreases |t.chars|
  {
    var n := |t.chars|;
    if n > 0 && t.chars[n - 1] == ' ' then Popped(Trace(t.chars[..n - 1], t.offsets[..n - 1])) else t
  }

  method PopSpaces(walked: Trace) returns (chars: string, offsets: seq<nat>)
    requires |walked.chars| == |walked.offsets|
    ensures Trace(chars, offsets) == Popped(walked)
  {
    chars, offsets := walked.chars, walked.offsets;
    while chars != "" && chars[|chars| - 1] == ' '
      invariant |chars| == |offsets| && Popped(Trace(chars, offsets)) == Popped(walked)
      decreases |chars|
    {
      chars, offsets := chars[..|chars| - 1], offsets[..|offsets| - 1];
    }
  }

  method NormalizeWithOffsets(fold: Fold, source: string) returns (chars: string, offsets: seq<nat>)
    ensures Trace(chars, offsets) == Popped(Walk(fold(source)))
  {
    hide IsSpace;
    var folded := fold(source);
    chars, offsets := "", [];
    var previousSpace := true;
    for i := 0 to |folded|
      invariant Trace(chars, offsets) == Walk(folded[..i]) && previousSpace == AtSpace(chars)
    {
      assert folded[..i + 1][..i] == folded[..i];
      NotASpace(folded[i]);
      if IsSpace(folded[i]) {
        if !previousSpace {
          chars, offsets := chars + " ", offsets + [i];
          previousSpace := true;
        }
      } else {
        chars, offsets := chars + [folded[i]], offsets + [i];
        previousSpace := false;
      }
    }
    assert folded[..|folded|] == folded;
    chars, offsets := PopSpaces(Trace(chars, offsets));
  }

  // ---- the search ----

  datatype Span = Span(start: nat, end: nat)

  /** `text[start:end]`, which never fails. */
  function Slice(span: Span, text: string): string
    requires span.start <= span.end
  {
    text[Min(span.start, |text|)..Min(span.end, |text|)]
  }

  /** `s.find(t)`, from index `i` on. */
  function FindFrom(s: string, t: string, i: nat): (r: Option<nat>)
    ensures r.Some? ==> i <= r.value && At(s, t, r.value)
    ensures forall j :: i <= j && (r.Some? ==> j < r.value) ==> !At(s, t, j)
    decreases |s| - i
  {
    if i + |t| > |s| then None else if At(s, t, i) then Some(i) else FindFrom(s, t, i + 1)
  }

  function Find(s: string, t: string): Option<nat> {
    FindFrom(s, t, 0)
  }

  function FindSpan(fold: Fold, source: string, quote: string): Option<Span> {
    var needle := Strip(quote);
    if needle == "" then None
    else
      match Find(source, needle)
      case Some(i) => Some(Span(i, i + |needle|))
      case None =>
        var normalized := Popped(Walk(fold(source)));
        var target := NormalizeForComparison(fold, needle);
        if target == "" then None
        else
          match Find(normalized.chars, target)
          case None => None
          case Some(p) =>
            var last := p + |target| - 1;
            Some(Span(normalized.offsets[p], if last < |normalized.offsets| then normalized.offsets[last] + 1 else |source|))
  }

  datatype Status = Exact | Relocated | NotFound

  datatype VerifiedField = VerifiedField(value: string, quote: string, span: Option<Span>, status: Status)

  function Relocatable(fold: Fold, source: string, quote: string): Status {
    if FindSpan(fold, source, quote).Some? then Relocated else NotFound
  }

  function VerifySpan(fold: Fold, source: string, span: Span, quote: string): Status
    requires span.start <= span.end
  {
    if Strip(quote) == "" then NotFound
    else if span.end > |source| then Relocatable(fold, source, quote)
    else if NormalizeForComparison(fold, source[span.start..span.end]) == NormalizeForComparison(fold, quote) then Exact
    else Relocatable(fold, source, quote)
  }

  function VerifyField(fold: Fold, source: string, value: string, quote: string, span: Option<Span>): VerifiedField
    requires span.Some? ==> span.value.start <= span.value.end
  {
    if span.Some? && VerifySpan(fold, source, span.value, quote) == Exact then VerifiedField(value, quote, span, Exact)
    else
      match FindSpan(fold, source, quote)
      case None => VerifiedField(value, quote, None, NotFound)
      case Some(located) => VerifiedField(value, quote, Some(located), Relocated)
  }
}
