/** The span search answers whenever some slice of the source normalises to the normalised quote, and its answer is
    such a slice wherever the source is folded in place. */
module SpanTheory {
  import opened Prelude
  import opened Text
  import opened Spacing
  import opened Spans

  // ---- folds ----

  predicate Visible(s: string) {
    exists k :: 0 <= k < |s| && !IsSpace(s[k])
  }

  predicate ApartAt(fold: Fold, s: string, c: char, t: string) {
    IsSpace(c) ==> fold(s + [c] + t) == fold(s) + fold([c]) + fold(t)
  }

  predicate SpaceKept(fold: Fold, c: char) {
    IsSpace(c) ==> |fold([c])| == 1 && IsSpace(fold([c])[0])
  }

  predicate VisibleKept(fold: Fold, s: string) {
    Visible(s) ==> Visible(fold(s))
  }

  /** What NFKC and casefold keep: whitespace folds to one whitespace character, the texts around it fold apart, and
      visible text stays visible. Characters that are not whitespace may fold to several, or several to one. */
  ghost predicate KeepsSpaces(fold: Fold) {
    && fold("") == ""
    && (forall s, c, t :: ApartAt(fold, s, c, t))
    && (forall c :: SpaceKept(fold, c))
    && forall s :: VisibleKept(fold, s)
  }

  // ---- documents ----

  /** The text before `a`, from `a` to `b`, and from `b` on are folded apart. */
  predicate SplitsAt(fold: Fold, source: string, a: nat, b: nat) {
    a <= b <= |source| && fold(source) == fold(source[..a]) + fold(source[a..b]) + fold(source[b..])
  }

  /** So apart, and the first two without a change of length. */
  predicate InPlace(fold: Fold, source: string, a: nat, b: nat) {
    SplitsAt(fold, source, a, b) && |fold(source[..a])| == a && |fold(source[a..b])| == b - a
  }

  predicate SliceAligned(fold: Fold, source: string, a: nat, b: nat)
    requires a <= b <= |source| == |fold(source)|
  {
    fold(source[a..b]) == fold(source)[a..b]
  }

  /** Every slice is folded in place: nothing is taken apart, put together or moved. */
  predicate Aligned(fold: Fold, source: string) {
    |fold(source)| == |source| && forall a, b :: 0 <= a <= b <= |source| ==> SliceAligned(fold, source, a, b)
  }

  lemma AlignedInPlace(fold: Fold, source: string, a: nat, b: nat)
    requires Aligned(fold, source) && a <= b <= |source|
    ensures InPlace(fold, source, a, b)
  {
    assert SliceAligned(fold, source, 0, a) && SliceAligned(fold, source, a, b) && SliceAligned(fold, source, b, |source|);
    assert source[0..a] == source[..a] && source[b..|source|] == source[b..];
  }

  // ---- the two normalisations agree ----

  lemma {:induction false} RunsAreEmitted(s: string)
    ensures RunsToSpaces(s) == Emit(false, s)
  {
    hide IsSpace;
    if s == "" {
    } else {
      var n := |s| - 1;
      RunsAreEmitted(s[..n]);
      if n > 0 {
        LastEmitted(false, s[..n]);
      }
    }
  }

  lemma {:induction false} WalkEmits(s: string)
    ensures Walk(s).chars == Emit(true, s)
  {
    hide IsSpace;
    if s == "" {
    } else {
      WalkEmits(s[..|s| - 1]);
    }
  }

  lemma {:induction false} PoppedIsTrimmed(t: Trace)
    requires |t.chars| == |t.offsets|
    ensures Popped(t).chars == Trimmed(t.chars)
    ensures var n := |Trimmed(t.chars)|; n <= |t.offsets| && Popped(t).offsets == t.offsets[..n]
    decreases |t.chars|
  {
    var n := |t.chars|;
    if n == 0 || t.chars[n - 1] != ' ' {
    } else {
      PoppedIsTrimmed(Trace(t.chars[..n - 1], t.offsets[..n - 1]));
    }
  }

  lemma {:induction false} StripRightTrims(e: string)
    requires forall i :: 0 <= i < |e| ==> (IsSpace(e[i]) <==> e[i] == ' ')
    ensures StripRight(e) == Trimmed(e)
  {
    hide IsSpace;
    if e == "" || e[|e| - 1] != ' ' {
    } else {
      StripRightTrims(e[..|e| - 1]);
    }
  }

  /** Substituting whitespace runs and stripping gives the text that the offset walk builds. */
  lemma NormalisationsAgree(fold: Fold, s: string)
    ensures NormalizeForComparison(fold, s) == Core(fold(s))
    ensures Popped(Walk(fold(s))).chars == NormalizeForComparison(fold, s)
  {
    var f := fold(s);
    RunsAreEmitted(f);
    EmitStart(f);
    EmitShape(f);
    WalkEmits(f);
    PoppedIsTrimmed(Walk(f));
    var e := Emit(true, f);
    StripRightTrims(e);
    SpaceIsSpace();
    hide IsSpace, Emit;
    if Emit(false, f) == " " + e {
      assert (" " + e)[1..] == e;
      assert StripLeft(" " + e) == StripLeft(e);
    }
    assert StripLeft(e) == e;
  }

  /** And that text is the folded words, joined by single spaces. */
  lemma NormalizedIsWords(fold: Fold, s: string)
    ensures NormalizeForComparison(fold, s) == Joined(Words(fold(s)))
  {
    NormalisationsAgree(fold, s);
    RespacedIsCore(fold(s));
  }

  // ---- stripping the quote first ----

  lemma {:induction false} CoreOfStripLeft(fold: Fold, q: string)
    requires KeepsSpaces(fold)
    ensures Core(fold(StripLeft(q))) == Core(fold(q))
  {
    hide IsSpace, Core, Visible;
    if q == "" || !IsSpace(q[0]) {
    } else {
      CoreOfStripLeft(fold, q[1..]);
      assert ApartAt(fold, "", q[0], q[1..]) && SpaceKept(fold, q[0]);
      assert q == "" + [q[0]] + q[1..];
      CoreDropsEnds(fold(q));
      assert fold(q)[1..] == fold(q[1..]);
    }
  }

  lemma {:induction false} CoreOfStripRight(fold: Fold, q: string)
    requires KeepsSpaces(fold)
    ensures Core(fold(StripRight(q))) == Core(fold(q))
  {
    hide IsSpace, Core, Visible;
    if q == "" || !IsSpace(q[|q| - 1]) {
    } else {
      var front, c := q[..|q| - 1], q[|q| - 1];
      CoreOfStripRight(fold, front);
      assert ApartAt(fold, front, c, "") && SpaceKept(fold, c);
      assert q == front + [c] + "";
      CoreDropsEnds(fold(q));
      assert fold(q)[..|fold(q)| - 1] == fold(front);
    }
  }

  /** A text with a visible character has a core. */
  lemma VisibleCore(s: string, k: nat)
    requires k < |s| && !IsSpace(s[k])
    ensures Core(s) != ""
  {
    hide IsSpace, Emit, Trimmed;
    LastEmitted(true, s[..k + 1]);
    NotASpace(s[k]);
    EmitConcat(true, s[..k + 1], s[k + 1..]);
    assert s[..k + 1] + s[k + 1..] == s;
    var e, i := Emit(true, s), |Emit(true, s[..k + 1])| - 1;
    assert e[i] == s[k];
    TrimmedFacts(e);
  }

  /** A non-blank quote keeps its normalisation when stripped, and that is not blank. */
  lemma NeedleFacts(fold: Fold, quote: string)
    requires KeepsSpaces(fold)
    ensures Core(fold(Strip(quote))) == Core(fold(quote))
    ensures Strip(quote) != "" ==> Core(fold(quote)) != ""
  {
    hide Core;
    CoreOfStripLeft(fold, quote);
    CoreOfStripRight(fold, StripLeft(quote));
    StripRightEnds(StripLeft(quote));
    var needle := Strip(quote);
    if needle != "" {
      assert VisibleKept(fold, needle) && !IsSpace(needle[|needle| - 1]);
      var k :| 0 <= k < |fold(needle)| && !IsSpace(fold(needle)[k]);
      VisibleCore(fold(needle), k);
    }
  }

  // ---- completeness ----

  /** The core of any slice occurs in the core of the whole text. */
  lemma CoreOfSliceOccurs(s: string, a: nat, b: nat) returns (p: nat)
    requires a <= b <= |s| && Core(s[a..b]) != ""
    ensures At(Core(s), Core(s[a..b]), p)
  {
    hide IsSpace, Emit, Trimmed;
    var slice := s[a..b];
    var before, whole, own := Emit(true, s[..a]), Emit(true, s), Emit(true, slice);
    var middle := Emit(EndsInSpace(true, before), slice);
    EmitConcat(true, s[..a], slice);
    assert s[..a] + slice == s[..b];
    EmitConcat(true, s[..b], s[b..]);
    assert s[..b] + s[b..] == s;
    var rest := Emit(EndsInSpace(true, Emit(true, s[..b])), s[b..]);
    EmitStart(slice);
    var skip := if middle == own then 0 else 1;
    assert middle[skip..] == own;
    p := |before| + skip;
    LiesInCore(before, middle, rest, own, skip);
  }

  // ---- soundness ----

  /** Each kept character was emitted by the step at its offset. */
  lemma {:induction false} OffsetsMark(s: string, p: nat)
    requires p < |Walk(s).chars|
    ensures Walk(s).offsets[p] < |s|
    ensures |Emit(true, s[..Walk(s).offsets[p]])| == p && |Emit(true, s[..Walk(s).offsets[p] + 1])| == p + 1
  {
    hide IsSpace;
    var n := |s| - 1;
    if p < |Walk(s[..n]).chars| {
      OffsetsMark(s[..n], p);
      var o := Walk(s[..n]).offsets[p];
      assert s[..n][..o] == s[..o] && s[..n][..o + 1] == s[..o + 1];
    } else {
      WalkEmits(s[..n]);
      WalkEmits(s);
      assert s[..n + 1] == s;
    }
  }

  lemma EmitPrefix(s: string, a: nat, b: nat)
    requires a <= b <= |s|
    ensures |Emit(true, s[..a])| <= |Emit(true, s[..b])| <= |Emit(true, s)|
    ensures Emit(true, s[..b]) == Emit(true, s)[..|Emit(true, s[..b])|]
    ensures Emit(true, s[..b]) == Emit(true, s[..a]) + Emit(EndsInSpace(true, Emit(true, s[..a])), s[a..b])
  {
    hide IsSpace, Emit;
    assert s[..b] + s[b..] == s && s[..a] + s[a..b] == s[..b];
    EmitConcat(true, s[..b], s[b..]);
    EmitConcat(true, s[..a], s[a..b]);
  }

  /** The span read off the offsets of an occurrence slices out text with exactly that core. */
  lemma SpanOfOccurrence(s: string, target: string, p: nat)
    requires target != "" && target[0] != ' ' && target[|target| - 1] != ' '
    requires At(Emit(true, s), target, p) && |Walk(s).offsets| == |Emit(true, s)|
    ensures var start, end := Walk(s).offsets[p], Walk(s).offsets[p + |target| - 1] + 1;
            start < end <= |s| && Core(s[start..end]) == target
  {
    hide IsSpace, Emit, Trimmed;
    WalkEmits(s);
    var q := p + |target| - 1;
    OffsetsMark(s, p);
    OffsetsMark(s, q);
    var start, end := Walk(s).offsets[p], Walk(s).offsets[q] + 1;
    if end <= start {
      EmitPrefix(s, end, start);
    }
    EmitPrefix(s, start, end);
    var slice := s[start..end];
    var middle := Emit(EndsInSpace(true, Emit(true, s[..start])), slice);
    assert middle == Emit(true, s)[p..q + 1] == target;
    EmitStart(slice);
    TrimmedAlready(target);
  }

  // ---- the theorems ----

  /** `source[a..b]` says what `quote` says, up to case and spacing. */
  predicate Says(fold: Fold, source: string, quote: string, a: nat, b: nat) {
    a <= b <= |source| && NormalizeForComparison(fold, source[a..b]) == NormalizeForComparison(fold, quote)
  }

  /** Sound: an answer is a non-empty slice of the original document that says what the quote says, when it is
      verbatim and wherever the document is folded in place around it. */
  lemma FoundSpanSaysQuote(fold: Fold, source: string, quote: string)
    requires KeepsSpaces(fold) && FindSpan(fold, source, quote).Some?
    requires var r := FindSpan(fold, source, quote).value;
             Find(source, Strip(quote)).Some? || InPlace(fold, source, r.start, r.end)
    ensures var r := FindSpan(fold, source, quote).value;
            r.start < r.end && Says(fold, source, quote, r.start, r.end) && Strip(quote) != ""
  {
    hide IsSpace, Emit, Trimmed, KeepsSpaces, Strip, Walk, Popped, Find, NormalizeForComparison, Core;
    var needle, f := Strip(quote), fold(source);
    var r := FindSpan(fold, source, quote).value;
    NeedleFacts(fold, quote);
    NormalisationsAgree(fold, quote);
    NormalisationsAgree(fold, needle);
    FoundAt(source, needle);
    if Find(source, needle).None? {
      var normalized, target := Popped(Walk(f)), NormalizeForComparison(fold, needle);
      NormalisationsAgree(fold, source);
      FoundAt(normalized.chars, target);
      var p := Find(normalized.chars, target).value;
      PopKeeps(f, target, p);
      CoreShape(fold(needle));
      SpanOfOccurrence(f, target, p);
      assert f[r.start..r.end] == fold(source[r.start..r.end]);
    }
    NormalisationsAgree(fold, source[r.start..r.end]);
  }

  lemma FoundAt(s: string, t: string)
    ensures Find(s, t).Some? ==> At(s, t, Find(s, t).value)
    ensures Find(s, t).None? ==> forall j: nat :: !At(s, t, j)
  {
  }

  lemma PopKeeps(f: string, target: string, p: nat)
    requires At(Popped(Walk(f)).chars, target, p) && target != ""
    ensures At(Emit(true, f), target, p) && |Walk(f).offsets| == |Emit(true, f)|
    ensures p + |target| <= |Popped(Walk(f)).offsets|
    ensures Popped(Walk(f)).offsets[p] == Walk(f).offsets[p]
    ensures Popped(Walk(f)).offsets[p + |target| - 1] == Walk(f).offsets[p + |target| - 1]
  {
    hide Emit, Trimmed, Walk, Popped;
    WalkEmits(f);
    PoppedIsTrimmed(Walk(f));
    TrimmedFacts(Walk(f).chars);
  }

  /** A verbatim occurrence wins over a normalised one, and the first of them is returned. */
  lemma VerbatimComesFirst(fold: Fold, source: string, quote: string, i: nat)
    requires Strip(quote) != "" && At(source, Strip(quote), i)
    ensures FindSpan(fold, source, quote).Some?
    ensures var r := FindSpan(fold, source, quote).value;
            r.start <= i && At(source, Strip(quote), r.start) && r.end == r.start + |Strip(quote)|
  {
    hide Strip, Walk, Popped, NormalizeForComparison;
  }

  /** Complete, whatever folding does to lengths: when some slice says what a non-blank quote says and is folded apart
      from the text around it, there is an answer. */
  lemma SayingSliceIsFound(fold: Fold, source: string, quote: string, a: nat, b: nat)
    requires KeepsSpaces(fold) && Strip(quote) != "" && Says(fold, source, quote, a, b) && SplitsAt(fold, source, a, b)
    ensures FindSpan(fold, source, quote).Some?
  {
    hide IsSpace, Emit, Trimmed, KeepsSpaces, Strip, Walk, Popped, Find, NormalizeForComparison, Core;
    var needle, f := Strip(quote), fold(source);
    NeedleFacts(fold, quote);
    NormalisationsAgree(fold, quote);
    NormalisationsAgree(fold, needle);
    NormalisationsAgree(fold, source);
    NormalisationsAgree(fold, source[a..b]);
    var from, to := |fold(source[..a])|, |fold(source[..a])| + |fold(source[a..b])|;
    assert f[from..to] == fold(source[a..b]);
    var p := CoreOfSliceOccurs(f, from, to);
    FoundAt(Popped(Walk(f)).chars, NormalizeForComparison(fold, needle));
  }

  /** In a document folded in place the search answers exactly when the document says the quote somewhere, and
      answers with a slice that says it. */
  lemma FindSpanIsExact(fold: Fold, source: string, quote: string)
    requires KeepsSpaces(fold) && Aligned(fold, source)
    ensures FindSpan(fold, source, quote).Some? <==>
            Strip(quote) != "" && exists a, b :: Says(fold, source, quote, a, b)
    ensures FindSpan(fold, source, quote).Some? ==>
      var r := FindSpan(fold, source, quote).value; Says(fold, source, quote, r.start, r.end)
  {
    assert |fold(source)| == |source|;
    hide FindSpan, NormalizeForComparison, Strip, Aligned, InPlace, KeepsSpaces;
    if FindSpan(fold, source, quote).Some? {
      var r := FindSpan(fold, source, quote).value;
      AnswerInRange(fold, source, quote);
      AlignedInPlace(fold, source, r.start, r.end);
      FoundSpanSaysQuote(fold, source, quote);
    } else if a, b :| Strip(quote) != "" && Says(fold, source, quote, a, b) {
      AlignedInPlace(fold, source, a, b);
      assert SplitsAt(fold, source, a, b) by { PlaceSplits(fold, source, a, b); }
      SayingSliceIsFound(fold, source, quote, a, b);
    }
  }

  lemma PlaceSplits(fold: Fold, source: string, a: nat, b: nat)
    requires InPlace(fold, source, a, b)
    ensures SplitsAt(fold, source, a, b)
  {
  }

  /** Answers are ranges of the folded document. */
  lemma AnswerInRange(fold: Fold, source: string, quote: string)
    requires KeepsSpaces(fold) && FindSpan(fold, source, quote).Some?
    ensures var r := FindSpan(fold, source, quote).value;
            r.start <= r.end <= (if Find(source, Strip(quote)).Some? then |source| else |fold(source)|)
  {
    hide IsSpace, Emit, Trimmed, KeepsSpaces, Strip, Walk, Popped, Find, NormalizeForComparison, Core;
    var needle, f := Strip(quote), fold(source);
    FoundAt(source, needle);
    NormalisationsAgree(fold, needle);
    if Find(source, needle).None? {
      var normalized, target := Popped(Walk(f)), NormalizeForComparison(fold, needle);
      FoundAt(normalized.chars, target);
      var p := Find(normalized.chars, target).value;
      PopKeeps(f, target, p);
      CoreShape(fold(needle));
      SpanOfOccurrence(f, target, p);
    }
  }

  /** In a document folded in place a field is kept exactly when its quote is in the document, and then it carries a
      span that says it. */
  lemma GroundedExactlyWhenSaid(fold: Fold, source: string, value: string, quote: string, span: Option<Span>)
    requires KeepsSpaces(fold) && Aligned(fold, source) && (span.Some? ==> span.value.start <= span.value.end)
    ensures var field := VerifyField(fold, source, value, quote, span);
            && (field.status != NotFound <==> Strip(quote) != "" && exists a, b :: Says(fold, source, quote, a, b))
            && (field.status != NotFound <==> field.span.Some?)
            && (field.span.Some? ==> Says(fold, source, quote, field.span.value.start, field.span.value.end))
  {
    hide FindSpan, Strip, Aligned, KeepsSpaces, NormalizeForComparison;
    FindSpanIsExact(fold, source, quote);
    if span.Some? && VerifySpan(fold, source, span.value, quote) == Exact {
      assert Says(fold, source, quote, span.value.start, span.value.end);
    }
  }

  /** The status tells where the quote was found: exact, with the span given, when that span lies in the document and
      says a non-blank quote; otherwise relocated with the answer of the search, or not found without one. */
  lemma StatusIsExact(fold: Fold, source: string, value: string, quote: string, span: Option<Span>)
    requires span.Some? ==> span.value.start <= span.value.end
    ensures var field := VerifyField(fold, source, value, quote, span);
            && field.value == value && field.quote == quote
            && (field.status == Exact <==>
                  span.Some? && Strip(quote) != "" && Says(fold, source, quote, span.value.start, span.value.end))
            && (field.status == Exact ==> field.span == span)
            && (field.status == Relocated ==> field.span == FindSpan(fold, source, quote) && field.span.Some?)
            && (field.status == NotFound ==> field.span.None? && FindSpan(fold, source, quote).None?)
  {
    hide FindSpan, Strip, NormalizeForComparison;
  }
}
