/** Plain string helpers: whitespace, words and joining, with Python's meaning. */
module Text {
  import opened Prelude

  /** `str.isspace` for one character. */
  predicate IsSpace(c: char) {
    var n := c as int;
    || 0x09 <= n <= 0x0d || 0x1c <= n <= 0x20 || n == 0x85 || n == 0xa0 || n == 0x1680
    || 0x2000 <= n <= 0x200a || n == 0x2028 || n == 0x2029 || n == 0x202f || n == 0x205f || n == 0x3000
  }

  /** The finished words of a text, and the word it ends in the middle of. */
  datatype Split = Split(done: seq<string>, word: string)

  function SplitUp(s: string): Split {
    if s == "" then Split([], "")
    else
      var t, c := SplitUp(s[..|s| - 1]), s[|s| - 1];
      if !IsSpace(c) then Split(t.done, t.word + [c])
      else if t.word == "" then t
      else Split(t.done + [t.word], "")
  }

  /** `str.split()`. */
  function Words(s: string): seq<string> {
    var t := SplitUp(s);
    if t.word == "" then t.done else t.done + [t.word]
  }

  /** `" ".join(words)`. */
  function Joined(words: seq<string>): string {
    if words == [] then "" else if |words| == 1 then words[0] else Joined(words[..|words| - 1]) + " " + words[|words| - 1]
  }

  /** `t` occurs in `s` at `i`. */
  predicate At(s: string, t: string, i: nat) {
    i + |t| <= |s| && s[i..i + |t|] == t
  }

  /** `str.lstrip()`. */
  function StripLeft(s: string): string {
    if s != "" && IsSpace(s[0]) then StripLeft(s[1..]) else s
  }

  /** `str.rstrip()`. */
  function StripRight(s: string): string {
    if s != "" && IsSpace(s[|s| - 1]) then StripRight(s[..|s| - 1]) else s
  }

  function Strip(s: string): string {
    StripRight(StripLeft(s))
  }
}
