/** blocking.py: which postings are compared at all. The key is one string, and read back it names the employer and the
    first words of the title. */
module Blocking {
  import opened Prelude
  import opened Text
  import opened Clustering
  import opened ClusterTheory

  // ---- joining and splitting words ----

  predicate IsWord(w: string) {
    w != "" && forall i :: 0 <= i < |w| ==> !IsSpace(w[i])
  }

  predicate AreWords(words: seq<string>) {
    forall i :: 0 <= i < |words| ==> IsWord(words[i])
  }

  lemma {:induction false} SplitWords(s: string)
    ensures AreWords(SplitUp(s).done) && (SplitUp(s).word == "" || IsWord(SplitUp(s).word))
  {
    hide IsSpace;
    if s == "" {
    } else {
      SplitWords(s[..|s| - 1]);
    }
  }

  /** Splitting yields words. */
  lemma WordsAreWords(s: string)
    ensures AreWords(Words(s))
  {
    SplitWords(s);
  }

  lemma {:induction false} WordAfterSpace(s: string, w: string)
    requires IsWord(w) || w == ""
    ensures SplitUp(s + " " + w) == Split(Words(s), w)
  {
    if w == "" {
      assert s + " " + w == s + " " && (s + " ")[..|s|] == s && IsSpace(' ');
    } else {
      var n := |w| - 1;
      WordAfterSpace(s, w[..n]);
      assert (s + " " + w)[..|s + " " + w| - 1] == s + " " + w[..n];
      assert w[..n] + [w[n]] == w;
    }
  }

  lemma {:induction false} SplitOneWord(w: string)
    requires IsWord(w) || w == ""
    ensures SplitUp(w) == Split([], w)
  {
    if w == "" {
    } else {
      var n := |w| - 1;
      SplitOneWord(w[..n]);
      assert w[..n] + [w[n]] == w;
    }
  }

  /** Joined words split into the same words. */
  lemma {:induction false} WordsOfJoined(words: seq<string>)
    requires AreWords(words)
    ensures Words(Joined(words)) == words
  {
    hide IsWord;
    var n := |words| - 1;
    if words == [] {
    } else if n == 0 {
      assert IsWord(words[0]);
      SplitOneWord(words[0]);
      NotEmpty(words[0]);
      assert words == [words[0]];
    } else {
      assert IsWord(words[n]);
      WordsOfJoined(words[..n]);
      WordAfterSpace(Joined(words[..n]), words[n]);
      NotEmpty(words[n]);
      assert words == words[..n] + [words[n]];
    }
  }

  lemma NotEmpty(w: string)
    requires IsWord(w)
    ensures w != ""
  {
  }

  // ---- reading the key back ----

  predicate NoBar(s: string) {
    forall i :: 0 <= i < |s| ==> s[i] != '|'
  }

  lemma BarSplits(x: string, u: string, y: string, v: string)
    requires NoBar(x) && NoBar(y) && x + "|" + u == y + "|" + v
    ensures x == y && u == v
  {
    var s, t := x + "|" + u, y + "|" + v;
    assert s[|x|] == '|' && t[|y|] == '|';
    assert forall i :: 0 <= i < |x| ==> s[i] == x[i] && s[i] != '|';
    assert forall i :: 0 <= i < |y| ==> t[i] == y[i] && t[i] != '|';
    assert |x| == |y|;
    assert s[..|x|] == x && t[..|y|] == y && s[|x| + 1..] == u && t[|y| + 1..] == v;
  }

  /** An unresolved employer is called "?". */
  function Employer(c: Candidate): string {
    if c.company.Some? && c.company.value != "" then c.company.value else "?"
  }

  function TitleHead(cfg: Config, c: Candidate): seq<string> {
    Head(Words(c.title), cfg.titleTokens)
  }

  lemma HeadsAreWords(cfg: Config, c: Candidate)
    ensures AreWords(TitleHead(cfg, c))
  {
    WordsAreWords(c.title);
  }

  /** Two postings are compared if and only if they have the same employer and the same first words of the title; an
      employer whose name contains no bar shares its block with no other. */
  lemma SameBlockIff(cfg: Config, a: Candidate, b: Candidate)
    requires NoBar(Employer(a)) && NoBar(Employer(b))
    ensures SameBlock(cfg, a, b) <==> Employer(a) == Employer(b) && TitleHead(cfg, a) == TitleHead(cfg, b)
  {
    hide Words, Joined, IsWord, NoBar;
    var u, v := TitleHead(cfg, a), TitleHead(cfg, b);
    HeadsAreWords(cfg, a);
    HeadsAreWords(cfg, b);
    WordsOfJoined(u);
    WordsOfJoined(v);
    assert BlockingKey(a.company, a.title, cfg.titleTokens) == Employer(a) + "|" + Joined(u);
    assert BlockingKey(b.company, b.title, cfg.titleTokens) == Employer(b) + "|" + Joined(v);
    if SameBlock(cfg, a, b) {
      BarSplits(Employer(a), Joined(u), Employer(b), Joined(v));
    }
  }

  /** With a bar in a name the condition is needed: "a|b" hiring for "c" and "a" hiring for "b|c" share a block. */
  lemma BarsCollide()
    ensures BlockingKey(Some("a|b"), "c", 3) == BlockingKey(Some("a"), "b|c", 3)
  {
    SplitOneWord("c");
    SplitOneWord("b|c");
    assert Words("c") == ["c"] && Words("b|c") == ["b|c"];
  }
}
