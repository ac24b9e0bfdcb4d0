/** Where the span search stops being right: documents whose folding changes the length of what precedes a quote. */
module SpanLimits {
  import opened Prelude
  import opened Text
  import opened Spacing
  import opened Spans
  import opened SpanTheory

  // ---- a quote after any text ----

  /** The document `p`, a space, `s` says the quote with `s`, folded to the same length, and nowhere before; and the
      quote is not there verbatim. */
  ghost predicate SaysLast(fold: Fold, p: string, s: string, quote: string) {
    var source := p + " " + s;
    var normalized := NormalizeForComparison(fold, source);
    && s != "" && |fold(s)| == |s|
    && NormalizeForComparison(fold, s) == fold(s) == NormalizeForComparison(fold, quote)
    && Find(source, Strip(quote)).None?
    && (forall j: nat :: j + |s| < |normalized| ==> !At(normalized, fold(s), j))
    && forall a, b :: Says(fold, source, quote, a, b) ==> b == |source|
  }

  lemma {:induction false} EmitNoLonger(s: string)
    ensures |Emit(true, s)| <= |s|
  {
    hide IsSpace;
    if s == "" {
    } else {
      EmitNoLonger(s[..|s| - 1]);
    }
  }

  /** Normalised text is emitted as it is. */
  lemma KeptWhole(t: string)
    requires Core(t) == t
    ensures Emit(true, t) == t
  {
    hide IsSpace, Emit;
    EmitNoLonger(t);
    TrimmedFacts(Emit(true, t));
  }

  lemma {:induction false} KeptPrefix(t: string, i: nat)
    requires Emit(true, t) == t && i <= |t|
    ensures |Emit(true, t[..i])| == i
    decreases |t| - i
  {
    hide IsSpace;
    if i == |t| {
      assert t[..i] == t;
    } else {
      KeptPrefix(t, i + 1);
      assert t[..i + 1][..i] == t[..i];
      EmitNoLonger(t[..i]);
    }
  }

  /** After whitespace, normalised text is emitted whole. */
  lemma EmittedAfterSpace(x: string, t: string, i: nat)
    requires x != "" && IsSpace(x[|x| - 1]) && Emit(true, t) == t && i <= |t|
    ensures |Emit(true, x + t[..i])| == |Emit(true, x)| + i
    ensures Emit(true, x + t) == Emit(true, x) + t
  {
    hide IsSpace, Emit;
    LastEmitted(true, x);
    EmitConcat(true, x, t);
    EmitConcat(true, x, t[..i]);
    KeptPrefix(t, i);
    StartOfEmission();
  }

  lemma StartOfEmission()
    ensures Emit(true, "") == ""
  {
  }

  /** Only one step emits the character at `p`. */
  lemma OneStep(s: string, o: nat, k: nat, p: nat)
    requires o < |s| && k < |s|
    requires |Emit(true, s[..o])| == p && |Emit(true, s[..o + 1])| == p + 1
    requires |Emit(true, s[..k])| == p && |Emit(true, s[..k + 1])| == p + 1
    ensures o == k
  {
    hide IsSpace, Emit;
    if o < k {
      EmitPrefix(s, o + 1, k);
    } else if k < o {
      EmitPrefix(s, k + 1, o);
    }
  }

  lemma StepAfterSpace(x: string, t: string, i: nat)
    requires x != "" && IsSpace(x[|x| - 1]) && Emit(true, t) == t && i <= |t|
    ensures |Emit(true, (x + t)[..|x| + i])| == |Emit(true, x)| + i
  {
    hide IsSpace, Emit;
    assert (x + t)[..|x| + i] == x + t[..i];
    EmittedAfterSpace(x, t, i);
  }

  /** The character emitted at `|Emit(true, x)| + i` stands at `|x| + i`. */
  lemma OffsetAfterSpace(x: string, t: string, i: nat)
    requires x != "" && IsSpace(x[|x| - 1]) && Emit(true, t) == t && i < |t|
    ensures |Walk(x + t).offsets| == |Emit(true, x)| + |t|
    ensures Walk(x + t).offsets[|Emit(true, x)| + i] == |x| + i
  {
    hide IsSpace, Emit, Walk;
    WalkEmits(x + t);
    EmittedAfterSpace(x, t, |t|);
    StepAfterSpace(x, t, i);
    StepAfterSpace(x, t, i + 1);
    var p := |Emit(true, x)| + i;
    OffsetsMark(x + t, p);
    OneStep(x + t, Walk(x + t).offsets[p], |x| + i, p);
  }

  lemma NormalizedAfterSpace(x: string, t: string)
    requires x != "" && IsSpace(x[|x| - 1]) && Core(t) == t && t != ""
    ensures Core(x + t) == Emit(true, x) + t
    ensures Popped(Walk(x + t)) == Walk(x + t)
  {
    hide IsSpace, Emit;
    KeptWhole(t);
    EmittedAfterSpace(x, t, |t|);
    CoreShape(t);
    WalkEmits(x + t);
    TrimmedAlready(Emit(true, x) + t);
  }

  /** What the fallback search finds when the normalised quote stands last in the folded text `x + t`. */
  lemma LastIsFound(x: string, t: string)
    requires x != "" && IsSpace(x[|x| - 1]) && Core(t) == t && t != ""
    requires forall j: nat :: j + |t| < |Core(x + t)| ==> !At(Core(x + t), t, j)
    ensures var found := Popped(Walk(x + t));
            var p := Find(found.chars, t);
            p.Some? && p.value + |t| == |found.offsets| &&
            found.offsets[p.value] == |x| && found.offsets[p.value + |t| - 1] == |x| + |t| - 1
  {
    hide IsSpace, Emit, Trimmed, Walk, Popped, Core, Find;
    NormalizedAfterSpace(x, t);
    WalkEmits(x + t);
    KeptWhole(t);
    EmittedAfterSpace(x, t, |t|);
    FoundFirst(Emit(true, x) + t, t, |Emit(true, x)|);
    OffsetAfterSpace(x, t, 0);
    OffsetAfterSpace(x, t, |t| - 1);
  }

  /** The answer to a quote said last is counted in the folded text. */
  lemma AnswerIsShifted(fold: Fold, p: string, s: string, quote: string)
    requires KeepsSpaces(fold) && SaysLast(fold, p, s, quote)
    ensures FindSpan(fold, p + " " + s, quote) == Some(Span(|fold(p)| + 1, |fold(p)| + 1 + |s|))
  {
    hide IsSpace, Emit, Trimmed, Strip, Walk, Popped, NormalizeForComparison, Core, Find, Says;
    var source, t, needle := p + " " + s, fold(s), Strip(quote);
    var x := fold(p) + fold([' ']);
    FoldedAtSpace(fold, p, s);
    NormalisationsAgree(fold, s);
    NormalisationsAgree(fold, source);
    NormalisationsAgree(fold, quote);
    NormalisationsAgree(fold, needle);
    hide KeepsSpaces;
    NeedleFacts(fold, quote);
    EmptyIsFound(source);
    LastIsFound(x, t);
  }

  lemma FoldedAtSpace(fold: Fold, p: string, s: string)
    requires KeepsSpaces(fold)
    ensures var x := fold(p) + fold([' ']);
            |x| == |fold(p)| + 1 && IsSpace(x[|x| - 1]) && fold(p + " " + s) == x + fold(s)
  {
    SpaceIsSpace();
    assert ApartAt(fold, p, ' ', s) && SpaceKept(fold, ' ');
  }

  lemma EmptyIsFound(s: string)
    ensures Find(s, "") == Some(0)
  {
    assert s[0..0] == "";
  }

  lemma FoundFirst(s: string, t: string, at: nat)
    requires at + |t| == |s| && s[at..] == t
    requires forall j: nat :: j + |t| < |s| ==> !At(s, t, j)
    ensures Find(s, t) == Some(at)
  {
    assert At(s, t, at);
    FoundAt(s, t);
  }

  /** The exact condition: such an answer says the quote if and only if folding keeps the length of the text before. */
  lemma AnswerIsRightIff(fold: Fold, p: string, s: string, quote: string)
    requires KeepsSpaces(fold) && SaysLast(fold, p, s, quote)
    ensures FindSpan(fold, p + " " + s, quote).Some?
    ensures var r := FindSpan(fold, p + " " + s, quote).value;
            Says(fold, p + " " + s, quote, r.start, r.end) <==> |fold(p)| == |p|
  {
    AnswerIsShifted(fold, p, s, quote);
    hide NormalizeForComparison, FindSpan, KeepsSpaces, Find, Strip;
    assert (p + " " + s)[|p| + 1..|p| + 1 + |s|] == s;
  }

  // ---- a quote after any word ----

  predicate Word(s: string) {
    forall k :: 0 <= k < |s| ==> !IsSpace(s[k])
  }

  predicate PartIsWord(fold: Fold, w: string, a: nat, b: nat)
    requires a <= b <= |w|
  {
    Word(fold(w[a..b]))
  }

  /** A text without whitespace, also when folded, whole or in part. */
  predicate FoldsToWords(fold: Fold, w: string) {
    Word(w) && forall a, b :: 0 <= a <= b <= |w| ==> PartIsWord(fold, w, a, b)
  }

  /** Plain letters and the space fold as `casefold` folds them. */
  predicate Lowers(fold: Fold) {
    fold("A") == fold("a") == "a" && fold("B") == fold("b") == "b" && fold(" ") == " "
  }

  lemma Letters()
    ensures !IsSpace('a') && !IsSpace('b') && !IsSpace('A') && !IsSpace('B') && IsSpace(' ')
  {
  }

  lemma FoldPair(fold: Fold, u: string, v: string)
    requires KeepsSpaces(fold) && Lowers(fold)
    ensures fold(u + " " + v) == fold(u) + " " + fold(v)
  {
    Letters();
    assert ApartAt(fold, u, ' ', v);
  }

  lemma FoldLetters(fold: Fold)
    requires KeepsSpaces(fold) && Lowers(fold)
    ensures fold("a b") == fold("A B") == "a b"
  {
    FoldPair(fold, "a", "b");
    FoldPair(fold, "A", "B");
    assert "a" + " " + "b" == "a b" && "A" + " " + "B" == "A B";
  }

  /** Words are their own normal form. */
  lemma {:induction false} CoreOfWord(w: string)
    requires Word(w)
    ensures Emit(true, w) == w && Core(w) == w
  {
    if w == "" {
    } else {
      var n := |w| - 1;
      CoreOfWord(w[..n]);
      NotASpace(w[n]);
    }
  }

  lemma CoreOfPair(u: string, v: string)
    requires Word(u) && Word(v) && v != ""
    ensures Core(u + " " + v) == if u == "" then v else u + " " + v
  {
    CoreOfWord(u);
    CoreOfWord(v);
    CoreOfJoin(u, v);
  }

  lemma PlainCore()
    ensures Core("a b") == "a b"
  {
    Letters();
    CoreOfPair("a", "b");
    assert "a" + " " + "b" == "a b";
  }

  lemma NotThere(s: string, j: nat)
    requires j + 3 <= |s| && (s[j] != 'a' || s[j + 1] != ' ' || s[j + 2] != 'b')
    ensures !At(s, "a b", j)
  {
    var t := s[j..j + 3];
    assert t[0] == s[j] && t[1] == s[j + 1] && t[2] == s[j + 2];
  }

  /** In a word, a space and two more letters there is only one other place for "a b" to be. */
  lemma OnlyAtEnd(w: string, x: char, y: char, j: nat)
    requires Word(w) && j + 3 <= |w| + 4 && !IsSpace(x) && !IsSpace(y)
    requires At(w + " " + [x] + " " + [y], "a b", j)
    ensures j == |w| + 1 || (j + 1 == |w| && x == 'b')
  {
    hide IsSpace;
    Letters();
    var s := w + " " + [x] + " " + [y];
    assert forall k :: 0 <= k < |w| ==> s[k] == w[k];
    assert s[|w| + 1] == x && s[|w| + 2] == ' ' && s[|w| + 3] == y && |s| == |w| + 4;
    var t := s[j..j + 3];
    assert t[0] == s[j] && t[1] == s[j + 1] && t[2] == s[j + 2];
    assert s[j + 1] == ' ' && s[j + 2] == 'b';
  }

  lemma NotVerbatim(w: string)
    requires Word(w)
    ensures Find(w + " A B", "a b") == None && Strip("a b") == "a b"
  {
    Letters();
    hide IsSpace;
    var s := w + " A B";
    assert s == w + " " + ['A'] + " " + ['B'];
    FoundAt(s, "a b");
    if Find(s, "a b").Some? {
      OnlyAtEnd(w, 'A', 'B', Find(s, "a b").value);
      NotThere(s, |w| + 1);
    }
  }

  lemma FirstAtEnd(u: string)
    requires Word(u)
    ensures var normalized := Core(u + " a b");
            forall j: nat :: j + 3 < |normalized| ==> !At(normalized, "a b", j)
  {
    CoreOfWord(u);
    PlainCore();
    CoreOfJoin(u, "a b");
    hide IsSpace, Core;
    Letters();
    assert u + " " + "a b" == u + " a b" == u + " " + ['a'] + " " + ['b'];
    if u != "" {
      forall j: nat | j + 3 < |u| + 4 ensures !At(u + " a b", "a b", j) {
        if At(u + " a b", "a b", j) {
          OnlyAtEnd(u, 'a', 'b', j);
        }
      }
    }
  }

  /** No slice that ends before the last letter says "a b". */
  lemma SaidOnlyAtEnd(fold: Fold, w: string, a: nat, b: nat)
    requires KeepsSpaces(fold) && Lowers(fold) && FoldsToWords(fold, w) && a <= b < |w| + 4
    ensures Core(fold((w + " A B")[a..b])) != "a b"
  {
    hide KeepsSpaces, Core, IsSpace;
    var source := w + " A B";
    if b <= |w| {
      assert source[a..b] == w[a..b];
      assert PartIsWord(fold, w, a, b);
      OneWord(fold(w[a..b]));
    } else if b == |w| + 1 {
      EndsInBlank(fold, w, a);
    } else if b == |w| + 2 {
      EndsInLetter(fold, w, a);
    } else {
      EndsInLetter(fold, w, Min(a, |w| + 2));
      if a <= |w| + 2 {
        assert source[a..b] == source[a..|w| + 2] + " " + "";
        TrailingBlank(fold, source[a..|w| + 2]);
      } else {
        assert source[a..b] == "";
        EmptyCore(fold);
      }
    }
  }

  lemma OneWord(u: string)
    requires Word(u)
    ensures Core(u) != "a b"
  {
    CoreOfWord(u);
    Letters();
    assert "a b"[1] == ' ';
  }

  lemma EmptyCore(fold: Fold)
    requires KeepsSpaces(fold)
    ensures Core(fold("")) != "a b"
  {
  }

  lemma TrailingBlank(fold: Fold, u: string)
    requires KeepsSpaces(fold) && Lowers(fold)
    ensures Core(fold(u + " " + "")) == Core(fold(u))
  {
    hide Core;
    FoldPair(fold, u, "");
    var f := fold(u) + " ";
    assert fold(u) + " " + fold("") == f && f[..|f| - 1] == fold(u);
    Letters();
    CoreDropsEnds(f);
  }

  lemma EndsInBlank(fold: Fold, w: string, a: nat)
    requires KeepsSpaces(fold) && Lowers(fold) && FoldsToWords(fold, w) && a <= |w| + 1
    ensures Core(fold((w + " A B")[a..|w| + 1])) != "a b"
  {
    hide KeepsSpaces, Core, IsSpace;
    var slice := (w + " A B")[a..|w| + 1];
    if a <= |w| {
      assert slice == w[a..|w|] + " " + "";
      assert PartIsWord(fold, w, a, |w|);
      TrailingBlank(fold, w[a..|w|]);
      OneWord(fold(w[a..|w|]));
    } else {
      assert slice == "";
      EmptyCore(fold);
    }
  }

  lemma EndsInLetter(fold: Fold, w: string, a: nat)
    requires KeepsSpaces(fold) && Lowers(fold) && FoldsToWords(fold, w) && a <= |w| + 2
    ensures Core(fold((w + " A B")[a..|w| + 2])) != "a b"
  {
    hide KeepsSpaces, Core, IsSpace;
    Letters();
    var slice := (w + " A B")[a..|w| + 2];
    if a <= |w| {
      assert slice == w[a..|w|] + " " + "A";
      assert PartIsWord(fold, w, a, |w|);
      FoldPair(fold, w[a..|w|], "A");
      CoreOfPair(fold(w[a..|w|]), "a");
      LastLetter(fold(w[a..|w|]));
    } else if a == |w| + 1 {
      assert slice == "A";
      OneWord("a");
    } else {
      assert slice == "";
      EmptyCore(fold);
    }
  }

  lemma LastLetter(u: string)
    ensures u + " " + "a" != "a b" && "a" != "a b"
  {
    assert (u + " " + "a")[|u| + 1] == 'a' && "a b"[2] == 'b';
  }

  lemma WordSaysLast(fold: Fold, w: string)
    requires KeepsSpaces(fold) && Lowers(fold) && FoldsToWords(fold, w)
    ensures SaysLast(fold, w, "A B", "a b")
  {
    hide KeepsSpaces, FoldsToWords, Core, NormalizeForComparison, IsSpace, Find, Strip;
    var source := w + " A B";
    assert w + " " + "A B" == source;
    assert Word(w) && Word(fold(w)) by { WholeIsWord(fold, w); }
    FoldLetters(fold);
    FoldPair(fold, w, "A B");
    assert fold(w) + " " + "a b" == fold(w) + " a b";
    PlainCore();
    NormalisationsAgree(fold, "A B");
    NormalisationsAgree(fold, "a b");
    NormalisationsAgree(fold, source);
    NotVerbatim(w);
    FirstAtEnd(fold(w));
    forall a: nat, b: nat | Says(fold, source, "a b", a, b) ensures b == |source| {
      NormalisationsAgree(fold, source[a..b]);
      if b < |source| {
        SaidOnlyAtEnd(fold, w, a, b);
      }
    }
  }

  lemma WholeIsWord(fold: Fold, w: string)
    requires FoldsToWords(fold, w)
    ensures Word(w) && Word(fold(w))
  {
    assert PartIsWord(fold, w, 0, |w|);
    assert w[0..|w|] == w;
  }

  /** Any word before "A B" shifts the answer to "a b" by what folding adds to the word or takes from it, and the
      answer says the quote if and only if that is nothing. */
  lemma WordShiftsAnswer(fold: Fold, w: string)
    requires KeepsSpaces(fold) && Lowers(fold) && FoldsToWords(fold, w)
    ensures FindSpan(fold, w + " A B", "a b") == Some(Span(|fold(w)| + 1, |fold(w)| + 4))
    ensures Says(fold, w + " A B", "a b", |w| + 1, |w| + 4)
    ensures Says(fold, w + " A B", "a b", |fold(w)| + 1, |fold(w)| + 4) <==> |fold(w)| == |w|
  {
    hide KeepsSpaces, FoldsToWords, Lowers, SaysLast, NormalizeForComparison, FindSpan;
    WordSaysLast(fold, w);
    assert w + " " + "A B" == w + " A B" && |"A B"| == 3;
    AnswerIsShifted(fold, w, "A B", "a b");
    AnswerIsRightIff(fold, w, "A B", "a b");
    assert (w + " A B")[|w| + 1..|w| + 4] == "A B";
    FoldLetters(fold);
    NormalisationsAgree(fold, "A B");
    NormalisationsAgree(fold, "a b");
  }

  // ---- folds as a whole ----

  /** Every answer is a slice of its document that says the quote. */
  ghost predicate AnswersSayQuotes(fold: Fold) {
    forall source, quote {:trigger FindSpan(fold, source, quote)} :: FindSpan(fold, source, quote).Some? ==>
      var r := FindSpan(fold, source, quote).value;
      Says(fold, source, quote, r.start, r.end)
  }

  predicate KeepsLength(fold: Fold, s: string) {
    |fold(s)| == |s|
  }

  /** Two texts that do not fold apart fold to another length than apart. */
  predicate JoinShows(fold: Fold, s: string, t: string) {
    |fold(s + t)| == |fold(s)| + |fold(t)| ==> fold(s + t) == fold(s) + fold(t)
  }

  predicate WordKept(fold: Fold, w: string) {
    Word(w) ==> Word(fold(w))
  }

  ghost predicate Regular(fold: Fold) {
    (forall w :: WordKept(fold, w)) && forall s, t :: JoinShows(fold, s, t)
  }

  lemma WordsFoldToWords(fold: Fold, w: string)
    requires Regular(fold) && Word(w)
    ensures FoldsToWords(fold, w)
  {
    forall a, b | 0 <= a <= b <= |w| ensures PartIsWord(fold, w, a, b) {
      assert WordKept(fold, w[a..b]);
    }
  }

  /** Lengths kept on words are kept on texts. */
  lemma {:induction false} LengthsFromWords(fold: Fold, s: string)
    requires KeepsSpaces(fold) && forall w :: Word(w) ==> KeepsLength(fold, w)
    ensures KeepsLength(fold, s)
    decreases |s|
  {
    if Word(s) {
    } else {
      var k :| 0 <= k < |s| && IsSpace(s[k]);
      assert s == s[..k] + [s[k]] + s[k + 1..];
      assert ApartAt(fold, s[..k], s[k], s[k + 1..]) && SpaceKept(fold, s[k]);
      LengthsFromWords(fold, s[..k]);
      LengthsFromWords(fold, s[k + 1..]);
    }
  }

  lemma KeptLengthsAlign(fold: Fold, source: string)
    requires Regular(fold) && forall s :: KeepsLength(fold, s)
    ensures Aligned(fold, source)
  {
    assert KeepsLength(fold, source);
    forall a, b | 0 <= a <= b <= |source| ensures SliceAligned(fold, source, a, b) {
      var x, y, z := source[..a], source[a..b], source[b..];
      assert source == (x + y) + z;
      assert KeepsLength(fold, x) && KeepsLength(fold, y) && KeepsLength(fold, z) && KeepsLength(fold, x + y);
      assert JoinShows(fold, x + y, z) && JoinShows(fold, x, y);
    }
  }

  /** For a fold in which joining characters always shows in the length, answers are right on every document and for
      every quote if and only if no text changes its length. */
  lemma AnswersAreRightIff(fold: Fold)
    requires KeepsSpaces(fold) && Lowers(fold) && Regular(fold)
    ensures AnswersSayQuotes(fold) <==> forall s :: KeepsLength(fold, s)
  {
    hide FindSpan, Says, KeepsSpaces, Lowers, Regular, Aligned, Word, FoldsToWords;
    if forall s :: KeepsLength(fold, s) {
      forall source, quote {:trigger FindSpan(fold, source, quote)} | FindSpan(fold, source, quote).Some?
        ensures var r := FindSpan(fold, source, quote).value; Says(fold, source, quote, r.start, r.end)
      {
        KeptLengthsAlign(fold, source);
        FindSpanIsExact(fold, source, quote);
      }
    }
    if AnswersSayQuotes(fold) {
      forall w | Word(w) ensures KeepsLength(fold, w) {
        WordsFoldToWords(fold, w);
        WordShiftsAnswer(fold, w);
        assert FindSpan(fold, w + " A B", "a b").Some?;
      }
      forall s ensures KeepsLength(fold, s) {
        LengthsFromWords(fold, s);
      }
    }
  }

  // ---- a ligature and an accent ----

  /** A ligature is taken apart, a letter is put together with its accent, and capitals are lowered. */
  function FoldSome(s: string): string {
    if s == "" then ""
    else if Accented(s) then "\U{00E9}" + FoldSome(s[2..])
    else FoldOne(s[0]) + FoldSome(s[1..])
  }

  predicate Accented(s: string) {
    |s| >= 2 && s[0] == 'e' && s[1] == '\U{0301}'
  }

  function FoldOne(c: char): string {
    if c == '\U{FB01}' then "fi" else if 'A' <= c <= 'Z' then [c - 'A' + 'a'] else [c]
  }

  lemma FoldOneFacts(c: char)
    ensures FoldOne(c) != ""
    ensures IsSpace(c) ==> FoldOne(c) == [c]
    ensures !IsSpace(c) ==> Word(FoldOne(c))
  {
  }

  lemma AccentFacts()
    ensures Word("\U{00E9}") && !IsSpace('\U{0301}') && !IsSpace('e')
    ensures FoldOne('e') == "e" && FoldOne('\U{0301}') == "\U{0301}"
  {
  }

  predicate Meets(s: string, t: string) {
    s != "" && t != "" && s[|s| - 1] == 'e' && t[0] == '\U{0301}'
  }

  lemma FoldSomeFront(s: string)
    requires s != "" && !Accented(s)
    ensures FoldSome(s) == FoldOne(s[0]) + FoldSome(s[1..])
  {
  }

  lemma FoldSomeAccent(s: string)
    requires Accented(s)
    ensures FoldSome(s) == "\U{00E9}" + FoldSome(s[2..])
  {
  }

  /** `u` is `v` and `w` put together, or shorter where they meet. */
  predicate JoinOf(u: string, v: string, w: string, meet: bool) {
    u == v + w || (meet && |u| < |v| + |w|)
  }

  lemma JoinStep(h: string, u: string, v: string, w: string, meet: bool)
    requires JoinOf(u, v, w, meet)
    ensures JoinOf(h + u, h + v, w, meet)
  {
    assert h + (v + w) == (h + v) + w;
  }

  lemma {:induction false} SomeConcat(s: string, t: string)
    ensures JoinOf(FoldSome(s + t), FoldSome(s), FoldSome(t), Meets(s, t))
    decreases |s|
  {
    hide FoldSome, FoldOne;
    if s == "" {
      assert s + t == t;
      EmptySome();
    } else if Accented(s) {
      SomeConcat(s[2..], t);
      FoldSomeAccent(s);
      FoldSomeAccent(s + t);
      assert (s + t)[2..] == s[2..] + t;
      assert Meets(s[2..], t) ==> Meets(s, t);
      hide JoinOf;
      JoinStep("\U{00E9}", FoldSome(s[2..] + t), FoldSome(s[2..]), FoldSome(t), Meets(s[2..], t));
      JoinMore(FoldSome(s + t), FoldSome(s), FoldSome(t), Meets(s[2..], t), Meets(s, t));
    } else if Accented(s + t) {
      LetterMeetsAccent(s, t);
    } else {
      SomeConcat(s[1..], t);
      FoldSomeFront(s);
      FoldSomeFront(s + t);
      assert (s + t)[1..] == s[1..] + t;
      assert Meets(s[1..], t) ==> Meets(s, t);
      hide JoinOf;
      JoinStep(FoldOne(s[0]), FoldSome(s[1..] + t), FoldSome(s[1..]), FoldSome(t), Meets(s[1..], t));
      JoinMore(FoldSome(s + t), FoldSome(s), FoldSome(t), Meets(s[1..], t), Meets(s, t));
    }
  }

  lemma JoinMore(u: string, v: string, w: string, meet: bool, more: bool)
    requires JoinOf(u, v, w, meet) && (meet ==> more)
    ensures JoinOf(u, v, w, more)
  {
  }

  lemma LetterMeetsAccent(s: string, t: string)
    requires s != "" && !Accented(s) && Accented(s + t)
    ensures Meets(s, t) && |FoldSome(s + t)| < |FoldSome(s)| + |FoldSome(t)|
  {
    hide FoldSome, FoldOne;
    assert |s| == 1 && s == [s[0]] && s[1..] == "" && (s + t)[2..] == t[1..];
    FoldSomeFront(s);
    FoldSomeFront(t);
    FoldSomeAccent(s + t);
    EmptySome();
    AccentFacts();
  }

  lemma EmptySome()
    ensures FoldSome("") == ""
  {
  }

  lemma SomeOne(c: char)
    ensures FoldSome([c]) == FoldOne(c)
  {
    assert [c][1..] == "";
  }

  lemma SomeApart(s: string, c: char, t: string)
    ensures ApartAt(FoldSome, s, c, t)
  {
    hide FoldSome, FoldOne;
    AccentFacts();
    SomeConcat(s, [c]);
    SomeConcat(s + [c], t);
  }

  lemma {:induction false} SomeVisible(s: string)
    ensures VisibleKept(FoldSome, s) && WordKept(FoldSome, s)
  {
    hide FoldSome, FoldOne, IsSpace;
    if s == "" {
      EmptySome();
    } else if Accented(s) {
      SomeVisible(s[2..]);
      FoldSomeAccent(s);
      AccentFacts();
      assert FoldSome(s)[0] == "\U{00E9}"[0];
      assert Word(s) ==> Word(s[2..]);
    } else {
      SomeVisible(s[1..]);
      FoldSomeFront(s);
      FoldOneFacts(s[0]);
      VisibleParts(s, FoldOne(s[0]), FoldSome(s[1..]));
    }
  }

  lemma VisibleParts(s: string, u: string, v: string)
    requires s != "" && u != "" && (Word([s[0]]) ==> Word(u)) && (Visible(s[1..]) ==> Visible(v)) && (Word(s[1..]) ==> Word(v))
    ensures Visible(s) ==> Visible(u + v)
    ensures Word(s) ==> Word(u + v)
  {
    hide IsSpace;
    if k :| 0 <= k < |s| && !IsSpace(s[k]) {
      if k == 0 {
        assert !IsSpace((u + v)[0]);
      } else {
        assert !IsSpace(s[1..][k - 1]);
        var j :| 0 <= j < |v| && !IsSpace(v[j]);
        assert (u + v)[|u| + j] == v[j];
      }
    }
  }

  /** The sample is a fold of the kind the theorems are about. */
  lemma SomeIsFold()
    ensures KeepsSpaces(FoldSome) && Lowers(FoldSome) && Regular(FoldSome)
  {
    hide FoldSome, FoldOne, ApartAt, SpaceKept, VisibleKept, WordKept, JoinShows;
    forall s, c, t ensures ApartAt(FoldSome, s, c, t) {
      SomeApart(s, c, t);
    }
    forall c ensures SpaceKept(FoldSome, c) {
      SomeSpace(c);
    }
    forall s ensures VisibleKept(FoldSome, s) && WordKept(FoldSome, s) {
      SomeVisible(s);
    }
    forall s, t ensures JoinShows(FoldSome, s, t) {
      SomeJoin(s, t);
    }
    EmptySome();
    SomeLowers();
  }

  lemma SomeSpace(c: char)
    ensures SpaceKept(FoldSome, c)
  {
    SomeOne(c);
    FoldOneFacts(c);
  }

  lemma SomeJoin(s: string, t: string)
    ensures JoinShows(FoldSome, s, t)
  {
    SomeConcat(s, t);
  }

  lemma SomeLowers()
    ensures Lowers(FoldSome)
  {
    hide FoldSome;
    SomeOne('A');
    SomeOne('a');
    SomeOne('B');
    SomeOne('b');
    SomeOne(' ');
  }

  /** One character that folds to two: the answer slices out " B". */
  lemma LigatureMisplaces()
    ensures var source := "\U{FB01} A B";
            FindSpan(FoldSome, source, "a b") == Some(Span(3, 6)) && Slice(Span(3, 6), source) == " B"
  {
    hide FindSpan, FoldSome, FoldOne;
    var w := "\U{FB01}";
    SomeIsFold();
    WordsFoldToWords(FoldSome, w) by { LigatureIsWord(); }
    SomeOne(w[0]);
    assert w == [w[0]] && FoldOne('\U{FB01}') == "fi" by { LigatureIsWord(); }
    WordShiftsAnswer(FoldSome, w);
    assert w + " A B" == "\U{FB01} A B";
  }

  lemma LigatureIsWord()
    ensures Word("\U{FB01}") && FoldOne('\U{FB01}') == "fi"
  {
  }

  /** Two characters that fold to one: the answer slices out " A ". */
  lemma AccentMisplaces()
    ensures var source := "e\U{0301} A B";
            FindSpan(FoldSome, source, "a b") == Some(Span(2, 5)) && Slice(Span(2, 5), source) == " A "
  {
    hide FindSpan, FoldSome, FoldOne;
    var w := "e\U{0301}";
    SomeIsFold();
    AccentFacts();
    WordsFoldToWords(FoldSome, w);
    FoldSomeAccent(w);
    assert w[2..] == "";
    EmptySome();
    WordShiftsAnswer(FoldSome, w);
    assert w + " A B" == "e\U{0301} A B";
  }

  /** And a document can say a quote that the search does not find: the letter under the accent. */
  lemma ComposedLetterIsMissed(fold: Fold)
    requires fold("e\U{0301}") == "\U{00E9}" && fold("e") == "e" && fold("E") == "e"
    ensures Says(fold, "e\U{0301}", "E", 0, 1) && FindSpan(fold, "e\U{0301}", "E") == None
  {
    var source := "e\U{0301}";
    assert source[0..1] == "e";
    CoreOfWord("e");
    CoreOfWord("\U{00E9}");
    assert StripLeft("E") == "E" && StripRight("E") == "E";
    NormalisationsAgree(fold, "e");
    NormalisationsAgree(fold, "E");
    NormalisationsAgree(fold, source);
    hide Core, Popped, Walk, NormalizeForComparison;
    FoundAt(source, "E");
    FoundAt("\U{00E9}", "e");
  }
}
