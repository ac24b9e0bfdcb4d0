/** Text with its whitespace runs collapsed to single spaces, built from the left and compared piecewise. */
module Spacing {
  import opened Prelude
  import opened Text

  lemma NotASpace(c: char)
    ensures c == ' ' ==> IsSpace(c)
  {
  }

  /** What a walk emits, started just after a space or not. */
  function Emit(afterSpace: bool, s: string): string {
    if s == "" then ""
    else
      var e, c := Emit(afterSpace, s[..|s| - 1]), s[|s| - 1];
      if !IsSpace(c) then e + [c] else if EndsInSpace(afterSpace, e) then e else e + " "
  }

  predicate EndsInSpace(afterSpace: bool, e: string) {
    if e == "" then afterSpace else e[|e| - 1] == ' '
  }

  /** Emitted text without its trailing space. */
  function Trimmed(e: string): string {
    if e != "" && e[|e| - 1] == ' ' then Trimmed(e[..|e| - 1]) else e
  }

  function Core(s: string): string {
    Trimmed(Emit(true, s))
  }

  lemma {:induction false} EmitConcat(afterSpace: bool, s: string, t: string)
    ensures Emit(afterSpace, s + t) == Emit(afterSpace, s) + Emit(EndsInSpace(afterSpace, Emit(afterSpace, s)), t)
  {
    hide IsSpace;
    if t == "" {
      assert s + t == s;
    } else {
      var n := |t| - 1;
      EmitConcat(afterSpace, s, t[..n]);
      assert (s + t)[..|s + t| - 1] == s + t[..n];
    }
  }

  /** Starting after a space suppresses at most one leading space. */
  lemma {:induction false} EmitStart(s: string)
    ensures Emit(false, s) == Emit(true, s) || Emit(false, s) == " " + Emit(true, s)
  {
    hide IsSpace;
    if s == "" {
    } else {
      EmitStart(s[..|s| - 1]);
    }
  }

  /** The only whitespace emitted is the plain space, and never first after a space. */
  lemma {:induction false} EmitShape(s: string)
    ensures var e := Emit(true, s);
            (forall i :: 0 <= i < |e| ==> (IsSpace(e[i]) <==> e[i] == ' ')) && (e != "" ==> e[0] != ' ')
  {
    if s == "" {
    } else {
      var n := |s| - 1;
      EmitShape(s[..n]);
      NotASpace(s[n]);
      assert IsSpace(' ');
      hide IsSpace;
      assert Emit(true, s) == Emit(true, s[..n]) || Emit(true, s) == Emit(true, s[..n]) + [s[n]] ||
             Emit(true, s) == Emit(true, s[..n]) + " ";
    }
  }

  lemma {:induction false} LastEmitted(afterSpace: bool, s: string)
    requires s != ""
    ensures EndsInSpace(afterSpace, Emit(afterSpace, s)) <==> IsSpace(s[|s| - 1])
    ensures !IsSpace(s[|s| - 1]) ==> Emit(afterSpace, s) != "" && Emit(afterSpace, s)[|Emit(afterSpace, s)| - 1] == s[|s| - 1]
  {
    NotASpace(s[|s| - 1]);
  }

  lemma {:induction false} TrimmedFacts(e: string)
    ensures |Trimmed(e)| <= |e| && Trimmed(e) == e[..|Trimmed(e)|]
    ensures Trimmed(e) != "" ==> Trimmed(e)[|Trimmed(e)| - 1] != ' '
    ensures forall i :: |Trimmed(e)| <= i < |e| ==> e[i] == ' '
  {
    if e == "" || e[|e| - 1] != ' ' {
    } else {
      TrimmedFacts(e[..|e| - 1]);
    }
  }

  lemma TrimmedOne(e: string)
    ensures Trimmed(e + " ") == Trimmed(e)
  {
    assert (e + " ")[..|e + " "| - 1] == e;
  }

  lemma CoreDropsEnds(s: string)
    requires s != ""
    ensures IsSpace(s[|s| - 1]) ==> Core(s[..|s| - 1]) == Core(s)
    ensures IsSpace(s[0]) ==> Core(s[1..]) == Core(s)
  {
    if IsSpace(s[|s| - 1]) {
      TrimmedOne(Emit(true, s[..|s| - 1]));
    }
    if IsSpace(s[0]) {
      var first := [s[0]];
      assert first[..0] == "" && first[0] == s[0];
      assert Emit(true, first) == "";
      EmitConcat(true, first, s[1..]);
      assert s == first + s[1..];
      hide Emit;
      assert Emit(true, s) == Emit(true, s[1..]);
    }
  }

  lemma Embedded<T>(before: seq<T>, middle: seq<T>, rest: seq<T>, skip: nat, m: nat)
    requires skip + m <= |middle|
    ensures (before + middle + rest)[|before| + skip..|before| + skip + m] == middle[skip..][..m]
  {
  }

  lemma WithinPrefix<T>(s: seq<T>, k: nat, p: nat, m: nat)
    requires p + m <= k <= |s|
    ensures s[..k][p..p + m] == s[p..p + m]
  {
  }

  lemma LiesInCore(before: string, middle: string, rest: string, own: string, skip: nat)
    requires skip <= |middle| && middle[skip..] == own && Trimmed(own) != ""
    ensures At(Trimmed(before + middle + rest), Trimmed(own), |before| + skip)
  {
    hide Trimmed;
    var whole, p, m := before + middle + rest, |before| + skip, |Trimmed(own)|;
    TrimmedFacts(own);
    TrimmedFacts(whole);
    Embedded(before, middle, rest, skip, m);
    assert whole[p + m - 1] == whole[p..p + m][m - 1];
    WithinPrefix(whole, |Trimmed(whole)|, p, m);
  }

  lemma CoreShape(s: string)
    ensures Core(s) != "" ==> Core(s)[0] != ' ' && Core(s)[|Core(s)| - 1] != ' '
  {
    EmitShape(s);
    TrimmedFacts(Emit(true, s));
  }

  lemma SpaceIsSpace()
    ensures IsSpace(' ')
  {
  }

  lemma {:induction false} StripRightEnds(s: string)
    ensures StripRight(s) != "" ==> !IsSpace(StripRight(s)[|StripRight(s)| - 1])
  {
    hide IsSpace;
    if s == "" || !IsSpace(s[|s| - 1]) {
    } else {
      StripRightEnds(s[..|s| - 1]);
    }
  }

  // ---- stripping ----

  predicate Blank(s: string) {
    forall i :: 0 <= i < |s| ==> IsSpace(s[i])
  }

  /** Nothing to strip at either end. */
  predicate TightEnds(s: string) {
    s != "" ==> !IsSpace(s[0]) && !IsSpace(s[|s| - 1])
  }

  lemma {:induction false} LeftIsExact(s: string)
    ensures var t := StripLeft(s);
            |t| <= |s| && t == s[|s| - |t|..] && (t != "" ==> !IsSpace(t[0])) && Blank(s[..|s| - |t|])
  {
    hide IsSpace;
    if s == "" || !IsSpace(s[0]) {
    } else {
      LeftIsExact(s[1..]);
      var n := |s| - |StripLeft(s)|;
      assert s[1..][..n - 1] == s[..n][1..];
    }
  }

  lemma {:induction false} RightIsExact(s: string)
    ensures var t := StripRight(s);
            |t| <= |s| && t == s[..|t|] && (t != "" ==> !IsSpace(t[|t| - 1])) && Blank(s[|t|..])
  {
    hide IsSpace;
    if s == "" || !IsSpace(s[|s| - 1]) {
    } else {
      RightIsExact(s[..|s| - 1]);
      var n := |StripRight(s)|;
      assert s[n..] == s[..|s| - 1][n..] + [s[|s| - 1]];
    }
  }

  /** Stripping cuts whitespace off both ends and leaves none there. */
  lemma StripIsExact(s: string) returns (from: nat, to: nat)
    ensures from <= to <= |s| && Strip(s) == s[from..to] && TightEnds(Strip(s)) && Blank(s[..from]) && Blank(s[to..])
  {
    hide IsSpace;
    LeftIsExact(s);
    var left := StripLeft(s);
    RightIsExact(left);
    from, to := |s| - |left|, |s| - |left| + |Strip(s)|;
    assert s[to..] == left[|Strip(s)|..];
  }

  lemma TightIsKept(s: string)
    requires TightEnds(s)
    ensures Strip(s) == s
  {
  }

  lemma StripAgain(s: string)
    ensures Strip(Strip(s)) == Strip(s)
  {
    var from, to := StripIsExact(s);
    TightIsKept(Strip(s));
  }

  // ---- splitting and joining ----

  predicate NoSpaces(word: string) {
    forall i :: 0 <= i < |word| ==> word[i] != ' '
  }

  lemma {:induction false} SplitShape(s: string)
    ensures NoSpaces(SplitUp(s).word)
    ensures forall i :: 0 <= i < |SplitUp(s).done| ==> SplitUp(s).done[i] != "" && NoSpaces(SplitUp(s).done[i])
  {
    hide IsSpace;
    if s == "" {
    } else {
      SplitShape(s[..|s| - 1]);
      NotASpace(s[|s| - 1]);
    }
  }

  /** What has been emitted is the finished words joined, and the word begun. */
  lemma {:induction false} EmitIsJoined(s: string)
    ensures var t := SplitUp(s); Emit(true, s) == if t.done == [] then t.word else Joined(t.done) + " " + t.word
  {
    hide IsSpace;
    if s == "" {
    } else {
      var t := SplitUp(s[..|s| - 1]);
      EmitIsJoined(s[..|s| - 1]);
      SplitShape(s[..|s| - 1]);
      JoinedOneMore(t.done, t.word);
    }
  }

  lemma JoinedOneMore(words: seq<string>, word: string)
    ensures Joined(words + [word]) == if words == [] then word else Joined(words) + " " + word
  {
    assert (words + [word])[..|words|] == words;
  }

  lemma JoinedEnds(words: seq<string>)
    requires words != [] && words[|words| - 1] != "" && NoSpaces(words[|words| - 1])
    ensures Joined(words) != "" && Joined(words)[|Joined(words)| - 1] != ' '
  {
  }

  /** `" ".join(s.split())` is the collapsed, trimmed text. */
  lemma RespacedIsCore(s: string)
    ensures Joined(Words(s)) == Core(s)
  {
    var t := SplitUp(s);
    EmitIsJoined(s);
    SplitShape(s);
    JoinedOneMore(t.done, t.word);
    if t.word == "" && t.done != [] {
      JoinedEnds(t.done);
      hide SplitUp, Emit, Joined;
      assert Joined(t.done) + " " + "" == Joined(t.done) + " ";
      TrimmedOne(Joined(t.done));
    }
  }

  // ---- concatenation ----

  function Combined(u: string, v: string): string {
    if u == "" then v else if v == "" then u else u + " " + v
  }

  lemma CoreEmpty(s: string)
    ensures Core(s) == "" <==> Emit(true, s) == ""
  {
    EmitShape(s);
    TrimmedFacts(Emit(true, s));
  }

  /** A text that ends in whitespace emits its core and one space, or nothing. */
  lemma EmitWithSpace(s: string)
    requires s != "" && IsSpace(s[|s| - 1]) && Core(s) != ""
    ensures Emit(true, s) == Core(s) + " "
  {
    var e := Emit(true, s);
    EmitShape(s);
    LastEmitted(true, s);
    TrimmedFacts(e);
    OneTrailingSpace(s);
    hide IsSpace, Emit, Trimmed;
    assert e[|e| - 1] == ' ';
    if |e| >= 2 {
      assert e[|e| - 2] != ' ';
    }
    assert |Trimmed(e)| == |e| - 1;
  }

  lemma {:induction false} OneTrailingSpace(s: string)
    ensures var e := Emit(true, s); |e| >= 2 && e[|e| - 1] == ' ' ==> e[|e| - 2] != ' '
  {
    hide IsSpace;
    if s == "" {
    } else {
      OneTrailingSpace(s[..|s| - 1]);
      NotASpace(s[|s| - 1]);
    }
  }

  lemma TrimmedConcat(u: string, v: string)
    requires Trimmed(v) != ""
    ensures Trimmed(u + v) == u + Trimmed(v)
    decreases |v|
  {
    if v[|v| - 1] != ' ' {
    } else {
      assert (u + v)[..|u + v| - 1] == u + v[..|v| - 1];
      TrimmedConcat(u, v[..|v| - 1]);
    }
  }

  /** Pieces that meet at whitespace normalise separately. */
  lemma CoreOfConcat(a: string, b: string)
    requires a == "" || IsSpace(a[|a| - 1])
    ensures Core(a + b) == Combined(Core(a), Core(b))
  {
    hide IsSpace;
    CoreEmpty(a);
    CoreEmpty(b);
    EmitConcat(true, a, b);
    if a == "" {
      assert a + b == b;
    } else {
      LastEmitted(true, a);
      if Core(a) != "" {
        EmitWithSpace(a);
        hide Emit, Trimmed;
        if Core(b) != "" {
          TrimmedConcat(Core(a) + " ", Emit(true, b));
        } else {
          assert Core(a) + " " + "" == Core(a) + " ";
          CoreShape(a);
          TrimmedOne(Core(a));
          TrimmedAlready(Core(a));
        }
      } else {
        assert "" + Emit(true, b) == Emit(true, b);
      }
    }
  }

  lemma TrimmedAlready(e: string)
    requires e != "" ==> e[|e| - 1] != ' '
    ensures Trimmed(e) == e
  {
  }

  /** Joining with a space normalises the same way. */
  lemma CoreOfJoin(a: string, b: string)
    ensures Core(a + " " + b) == Combined(Core(a), Core(b))
  {
    hide Emit, Trimmed;
    SpaceIsSpace();
    CoreDropsEnds(a + " ");
    assert (a + " ")[..|a + " "| - 1] == a;
    CoreOfConcat(a + " ", b);
  }

  /** The core of a prefix is a prefix of the core. */
  lemma CoreOfPrefix(s: string, k: nat)
    requires k <= |s|
    ensures |Core(s[..k])| <= |Core(s)| && Core(s[..k]) == Core(s)[..|Core(s[..k])|]
  {
    hide Emit, Trimmed, IsSpace;
    var own := Emit(true, s[..k]);
    EmitConcat(true, s[..k], s[k..]);
    assert s[..k] + s[k..] == s;
    if Core(s[..k]) != "" {
      var rest := Emit(EndsInSpace(true, own), s[k..]);
      assert own[0..] == own && "" + own + rest == own + rest;
      LiesInCore("", own, rest, own, 0);
    }
  }

  lemma CoreOfStrip(s: string)
    ensures Core(Strip(s)) == Core(s)
  {
    CoreOfLeft(s);
    CoreOfRight(StripLeft(s));
  }

  lemma {:induction false} CoreOfLeft(s: string)
    ensures Core(StripLeft(s)) == Core(s)
  {
    hide IsSpace, Core;
    if s == "" || !IsSpace(s[0]) {
    } else {
      CoreOfLeft(s[1..]);
      CoreDropsEnds(s);
    }
  }

  lemma {:induction false} CoreOfRight(s: string)
    ensures Core(StripRight(s)) == Core(s)
  {
    hide IsSpace, Core;
    if s == "" || !IsSpace(s[|s| - 1]) {
    } else {
      CoreOfRight(s[..|s| - 1]);
      CoreDropsEnds(s);
    }
  }
}
