/** simhash.py: the 64-bit fingerprint, the Hamming distance, and the signed storage form.
    Words are integers; bit `i` is read arithmetically, so negative values follow two's complement. */
module SimHash {
  import opened Prelude
  import opened Text

  const BITS: nat := 64

  predicate Bit(x: int, i: nat) {
    (x / Pow2(i)) % 2 == 1
  }

  ghost function DiffBitsBelow(a: int, b: int, n: nat): set<nat> {
    set i: nat | i < n && Bit(a, i) != Bit(b, i)
  }

  ghost function DiffBits(a: int, b: int): set<nat> {
    DiffBitsBelow(a, b, BITS)
  }

  /** `((a ^ b) & MASK).bit_count()`: the number of low 64 bits in which the words differ. */
  function DiffersBelow(a: int, b: int, n: nat): nat {
    if n == 0 then 0 else DiffersBelow(a, b, n - 1) + if Bit(a, n - 1) != Bit(b, n - 1) then 1 else 0
  }

  function Hamming(a: int, b: int): nat {
    DiffersBelow(a, b, BITS)
  }

  function ToSigned(value: int): int {
    var low := value % Pow2(BITS);
    if Bit(low, BITS - 1) then low - Pow2(BITS) else low
  }

  function FromSigned(value: int): int {
    value % Pow2(BITS)
  }

  // ---- words and their bits ----

  lemma {:induction false} HammingCountsDiffBits(a: int, b: int, n: nat)
    ensures DiffersBelow(a, b, n) == |DiffBitsBelow(a, b, n)|
  {
    hide Bit;
    if n == 0 {
    } else {
      HammingCountsDiffBits(a, b, n - 1);
      assert DiffBitsBelow(a, b, n) ==
             DiffBitsBelow(a, b, n - 1) + if Bit(a, n - 1) != Bit(b, n - 1) then {n - 1} else {};
    }
  }

  lemma DivModUnique(x: int, p: int, q: int, r: int)
    requires p > 0 && x == p * q + r && 0 <= r < p
    ensures x / p == q && x % p == r
  {
    var d := x / p - q;
    assert x == p * (x / p) + x % p;
    assert p * d == r - x % p;
    MultipleIsFar(p, d);
  }

  lemma MultipleIsFar(p: int, d: int)
    requires p > 0
    ensures d >= 1 ==> p * d >= p
    ensures d <= -1 ==> p * d <= 0 - p
  {
  }

  lemma ModDouble(x: int, p: int)
    requires p > 0
    ensures x % (2 * p) == x % p + (x / p) % 2 * p
  {
    var q, r := x / p, x % p;
    var s, t := q / 2, q % 2;
    Regroup(p, q, r, s, t);
    if t == 1 {
      DivModUnique(x, 2 * p, s, p + r);
    } else {
      DivModUnique(x, 2 * p, s, r);
    }
  }

  lemma Regroup(p: int, q: int, r: int, s: int, t: int)
    requires q == 2 * s + t
    ensures p * q + r == 2 * p * s + (t * p + r)
  {
    assert p * q == p * (2 * s) + p * t;
  }

  /** One more bit: x mod 2^(n+1) is x mod 2^n plus bit n in its place. */
  lemma ModStep(x: int, n: nat)
    ensures x % Pow2(n + 1) == x % Pow2(n) + if Bit(x, n) then Pow2(n) else 0
  {
    ModDouble(x, Pow2(n));
  }

  lemma {:induction false} BitsDetermineWord(a: int, b: int, n: nat)
    requires forall i: nat :: i < n ==> Bit(a, i) == Bit(b, i)
    ensures a % Pow2(n) == b % Pow2(n)
  {
    if n == 0 {
    } else {
      BitsDetermineWord(a, b, n - 1);
      ModStep(a, n - 1);
      ModStep(b, n - 1);
    }
  }

  lemma {:induction false} WordDeterminesBits(a: int, b: int, n: nat, i: nat)
    requires a % Pow2(n) == b % Pow2(n) && i < n
    ensures Bit(a, i) == Bit(b, i)
  {
    ModStep(a, n - 1);
    ModStep(b, n - 1);
    if i >= n - 1 {
    } else {
      WordDeterminesBits(a, b, n - 1, i);
    }
  }

  // ---- the distance is a metric on 64-bit words ----

  lemma HammingIsMetric(a: int, b: int, c: int)
    ensures Hamming(a, b) == Hamming(b, a)
    ensures Hamming(a, b) == 0 <==> a % Pow2(BITS) == b % Pow2(BITS)
    ensures Hamming(a, c) <= Hamming(a, b) + Hamming(b, c)
    ensures Hamming(a, b) <= BITS
  {
    hide Bit;
    HammingCountsDiffBits(a, b, BITS);
    HammingCountsDiffBits(b, a, BITS);
    HammingCountsDiffBits(a, c, BITS);
    HammingCountsDiffBits(b, c, BITS);
    assert DiffBits(a, b) == DiffBits(b, a);
    BoundedUnion(DiffBits(a, c), DiffBits(a, b), DiffBits(b, c));
    if a % Pow2(BITS) == b % Pow2(BITS) {
      forall i: nat | i < BITS ensures Bit(a, i) == Bit(b, i) {
        WordDeterminesBits(a, b, BITS, i);
      }
      assert DiffBits(a, b) == {};
    }
    if Hamming(a, b) == 0 {
      assert DiffBits(a, b) == {};
      assert forall i: nat :: i < BITS && Bit(a, i) != Bit(b, i) ==> i in DiffBits(a, b);
      BitsDetermineWord(a, b, BITS);
    }
    AtMostBits(a, b, BITS);
  }

  lemma {:induction false} AtMostBits(a: int, b: int, n: nat)
    ensures DiffersBelow(a, b, n) <= n
  {
    if n == 0 {
    } else {
      AtMostBits(a, b, n - 1);
    }
  }

  lemma BoundedUnion(s: set<nat>, a: set<nat>, b: set<nat>)
    requires s <= a + b
    ensures |s| <= |a| + |b|
  {
    assert |a + b| == |a| + |b| - |a * b|;
    assert a + b == s + ((a + b) - s);
  }

  // ---- words of trailing ones, at known distances ----

  lemma {:induction false} Pow2Add(m: nat, n: nat)
    ensures Pow2(m) * Pow2(n) == Pow2(m + n)
  {
    if n == 0 {
    } else {
      Pow2Add(m, n - 1);
      assert Pow2(m) * (2 * Pow2(n - 1)) == 2 * (Pow2(m) * Pow2(n - 1));
    }
  }

  lemma OddQuotient(p: int, h: int)
    requires p > 0 && h > 0
    ensures ((p * (2 * h) - 1) / p) % 2 == 1
  {
    assert p * (2 * h - 1) == p * (2 * h) - p;
    DivModUnique(p * (2 * h) - 1, p, 2 * h - 1, p - 1);
  }

  lemma TrailingOnes(k: nat, i: nat)
    ensures Bit(Pow2(k) - 1, i) <==> i < k
  {
    if i < k {
      Pow2Add(i, k - i);
      OddQuotient(Pow2(i), Pow2(k - i - 1));
    } else {
      Pow2Monotone(k, i);
      DivModUnique(Pow2(k) - 1, Pow2(i), 0, Pow2(k) - 1);
    }
  }

  lemma {:induction false} TrailingOnesApart(j: nat, k: nat, n: nat)
    requires j <= k
    ensures DiffersBelow(Pow2(j) - 1, Pow2(k) - 1, n) == Min(k, n) - Min(j, n)
  {
    hide Bit;
    if n == 0 {
    } else {
      TrailingOnesApart(j, k, n - 1);
      TrailingOnes(j, n - 1);
      TrailingOnes(k, n - 1);
    }
  }

  // ---- storage as a signed integer ----

  lemma SignBit(v: int)
    requires 0 <= v < Pow2(BITS)
    ensures Bit(v, BITS - 1) <==> v >= Pow2(BITS - 1)
  {
    var p := Pow2(BITS - 1);
    assert Pow2(BITS) == 2 * p;
    if v >= p {
      DivModUnique(v, p, 1, v - p);
    } else {
      DivModUnique(v, p, 0, v);
    }
  }

  lemma SignedArithmetic(v: int, half: int)
    requires half > 0
    ensures var low := v % (2 * half);
            var s := if low >= half then low - 2 * half else low;
            0 - half <= s < half && s % (2 * half) == low && (0 - half <= v < half ==> s == v)
  {
    var m := 2 * half;
    var low := v % m;
    DivModUnique(low, m, 0, low);
    DivModUnique(low - m, m, -1, low);
    if 0 - half <= v < 0 {
      DivModUnique(v, m, -1, v + m);
    } else if 0 <= v < half {
      DivModUnique(v, m, 0, v);
    }
  }

  /** The stored form fits a signed bigint, and the two conversions are mutually inverse. */
  lemma SignedRoundTrip(v: int)
    ensures 0 - Pow2(BITS - 1) <= ToSigned(v) < Pow2(BITS - 1)
    ensures FromSigned(ToSigned(v)) == v % Pow2(BITS)
    ensures 0 - Pow2(BITS - 1) <= v < Pow2(BITS - 1) ==> ToSigned(FromSigned(v)) == v
  {
    hide Bit;
    assert Pow2(BITS) == 2 * Pow2(BITS - 1);
    var low := v % Pow2(BITS);
    SignBit(low);
    SignedArithmetic(v, Pow2(BITS - 1));
    DivModUnique(low, Pow2(BITS), 0, low);
  }

  /** Distances may be computed on the stored form: converting either argument changes nothing. */
  lemma SignedFormKeepsDistance(a: int, b: int)
    ensures Hamming(ToSigned(a), ToSigned(b)) == Hamming(a, b)
    ensures Hamming(FromSigned(a), FromSigned(b)) == Hamming(a, b)
  {
    SignedRoundTrip(a);
    SignedRoundTrip(b);
    var m := Pow2(BITS);
    DivModUnique(a % m, m, 0, a % m);
    DivModUnique(b % m, m, 0, b % m);
    SameWordsSameDistance(ToSigned(a), ToSigned(b), a, b, BITS);
    SameWordsSameDistance(FromSigned(a), FromSigned(b), a, b, BITS);
  }

  lemma {:induction false} SameWordsSameDistance(a: int, b: int, c: int, d: int, n: nat)
    requires n <= BITS
    requires a % Pow2(BITS) == c % Pow2(BITS) && b % Pow2(BITS) == d % Pow2(BITS)
    ensures DiffersBelow(a, b, n) == DiffersBelow(c, d, n)
  {
    hide Bit;
    if n == 0 {
    } else {
      SameWordsSameDistance(a, b, c, d, n - 1);
      WordDeterminesBits(a, c, BITS, n - 1);
      WordDeterminesBits(b, d, BITS, n - 1);
    }
  }

  // ---- shingles ----

  /** Python's `tokens[k:k + size]`, where an end below zero counts from the back. */
  function WindowEnd(n: nat, k: nat, size: int): nat {
    if k + size < 0 then Max(0, n + k + size) else Min(k + size, n)
  }

  function Window(tokens: seq<string>, k: nat, size: int): seq<string> {
    var from, to := Min(k, |tokens|), WindowEnd(|tokens|, k, size);
    if from <= to then tokens[from..to] else []
  }

  function Shingles(tokens: seq<string>, size: int): seq<string> {
    if |tokens| < size then if tokens == [] then [] else [Joined(tokens)]
    else seq(|tokens| - size + 1, k requires 0 <= k => Joined(Window(tokens, k, size)))
  }

  /** How many tokens a shingle can hold: `size`, or all but `-size` of them when it is negative. */
  function Width(n: nat, size: int): nat {
    if size >= 0 then size else Max(0, n + size)
  }

  /** Every run of `size` tokens is a shingle, the last one included; a shorter text is one shingle as a whole. */
  lemma ShinglesAreWindows(tokens: seq<string>, size: nat)
    requires size >= 1
    ensures size <= |tokens| ==> |Shingles(tokens, size)| == |tokens| - size + 1
    ensures forall k: nat :: k + size <= |tokens| ==> Shingles(tokens, size)[k] == Joined(tokens[k..k + size])
    ensures |tokens| < size ==> Shingles(tokens, size) == if tokens == [] then [] else [Joined(tokens)]
  {
    hide Joined;
    forall k: nat | k + size <= |tokens| ensures Window(tokens, k, size) == tokens[k..k + size] {
    }
  }

  /** What Python slices for a size that is not positive: that many tokens less at the end, as long as the end is
      counted from the back, and nothing after. */
  function ShortSlice(tokens: seq<string>, size: int, k: nat): seq<string> {
    if k < -size && k < |tokens| + size + k then tokens[k..|tokens| + size + k] else []
  }

  lemma SlicesAreShort(tokens: seq<string>, size: int, k: nat)
    requires size <= 0 && k <= |tokens| - size
    ensures Window(tokens, k, size) == ShortSlice(tokens, size, k)
  {
    if k < -size {
      assert Window(tokens, k, size) == if k < |tokens| + size + k then tokens[k..|tokens| + size + k] else [];
    } else {
      assert Window(tokens, k, size) == [];
    }
  }

  /** Shingle sizes below one are taken as Python takes them. */
  lemma NegativeSlices(tokens: seq<string>, size: int, k: nat)
    requires size <= 0 && k <= |tokens| - size
    ensures |Shingles(tokens, size)| == |tokens| - size + 1
    ensures Shingles(tokens, size)[k] == Joined(ShortSlice(tokens, size, k))
  {
    hide Joined, Window;
    SlicesAreShort(tokens, size, k);
  }

  // ---- the fingerprint as a majority vote ----

  function Vote<G>(hash: G -> nat, gram: G, bit: nat): int {
    if Bit(hash(gram), bit) then 1 else -1
  }

  /** The sum of the votes of all shingle occurrences on one bit. */
  function Weight<G>(hash: G -> nat, grams: seq<G>, bit: nat): int {
    if grams == [] then 0 else Weight(hash, grams[..|grams| - 1], bit) + Vote(hash, grams[|grams| - 1], bit)
  }

  function Pack<G>(hash: G -> nat, grams: seq<G>, n: nat): nat {
    if n == 0 then 0
    else Pack(hash, grams, n - 1) + if Weight(hash, grams, n - 1) > 0 then Pow2(n - 1) else 0
  }

  /** The word whose bits are the majorities; the empty text has the empty word. */
  function Fingerprint<G>(hash: G -> nat, grams: seq<G>): nat {
    Pack(hash, grams, BITS)
  }

  lemma {:induction false} PackBits<G>(hash: G -> nat, grams: seq<G>, n: nat)
    ensures Pack(hash, grams, n) < Pow2(n)
    ensures forall i: nat :: i < n ==> (Bit(Pack(hash, grams, n), i) <==> Weight(hash, grams, i) > 0)
  {
    if n == 0 {
    } else {
      PackBits(hash, grams, n - 1);
      var low, p := Pack(hash, grams, n - 1), Pow2(n - 1);
      var w := Pack(hash, grams, n);
      forall i: nat | i < n ensures Bit(w, i) <==> Weight(hash, grams, i) > 0 {
        if i == n - 1 {
          DivModUnique(w, p, if w == low then 0 else 1, low);
        } else {
          DivModUnique(low, p, 0, low);
          DivModUnique(w, p, if w == low then 0 else 1, low);
          WordDeterminesBits(w, low, n - 1, i);
        }
      }
    }
  }

  function Ones<G>(hash: G -> nat, grams: seq<G>, bit: nat): nat {
    if grams == [] then 0
    else Ones(hash, grams[..|grams| - 1], bit) + if Bit(hash(grams[|grams| - 1]), bit) then 1 else 0
  }

  lemma {:induction false} WeightIsMargin<G>(hash: G -> nat, grams: seq<G>, bit: nat)
    ensures Weight(hash, grams, bit) == 2 * Ones(hash, grams, bit) - |grams|
  {
    if grams == [] {
    } else {
      WeightIsMargin(hash, grams[..|grams| - 1], bit);
    }
  }

  /** Bit by bit the fingerprint is the strict majority over shingle occurrences. */
  lemma FingerprintIsMajority<G>(hash: G -> nat, grams: seq<G>, bit: nat)
    requires bit < BITS
    ensures Bit(Fingerprint(hash, grams), bit) <==> 2 * Ones(hash, grams, bit) > |grams|
    ensures Fingerprint(hash, grams) < Pow2(BITS)
  {
    PackBits(hash, grams, BITS);
    WeightIsMargin(hash, grams, bit);
  }

  // ---- how far an edit can move the fingerprint ----

  /** Occurrences removed plus occurrences added. */
  ghost function EditSize<G>(g: seq<G>, h: seq<G>): nat {
    |multiset(g) - multiset(h)| + |multiset(h) - multiset(g)|
  }

  lemma {:induction false} WeightWithout<G>(hash: G -> nat, g: seq<G>, k: nat, bit: nat)
    requires k < |g|
    ensures Weight(hash, g, bit) == Weight(hash, Without(g, k), bit) + Vote(hash, g[k], bit)
  {
    var n := |g| - 1;
    if k == n {
      assert Without(g, k) == g[..n];
    } else {
      WeightWithout(hash, g[..n], k, bit);
      var rest := Without(g, k);
      assert rest[..|rest| - 1] == Without(g[..n], k);
    }
  }

  lemma EditsCancel<G>(a: multiset<G>, b: multiset<G>, x: G)
    ensures (a + multiset{x}) - (b + multiset{x}) == a - b
  {
  }

  lemma EditAdds<G>(a: multiset<G>, b: multiset<G>, x: G)
    requires x !in b
    ensures (a + multiset{x}) - b == (a - b) + multiset{x}
    ensures b - (a + multiset{x}) == b - a
  {
  }

  lemma {:induction false} WeightMovesByEdit<G>(hash: G -> nat, g: seq<G>, h: seq<G>, bit: nat)
    ensures 0 - EditSize(g, h) <= Weight(hash, g, bit) - Weight(hash, h, bit) <= EditSize(g, h)
    decreases |g| + |h|
  {
    if g == [] {
      WeightIsMargin(hash, h, bit);
      OnesAtMostAll(hash, h, bit);
      assert multiset(h) - multiset(g) == multiset(h);
    } else {
      hide Vote, Without;
      var n := |g| - 1;
      var x, front := g[n], g[..n];
      assert g == front + [x];
      assert multiset(g) == multiset(front) + multiset{x};
      if k: nat :| k < |h| && h[k] == x {
        var rest := Without(h, k);
        WeightWithout(hash, h, k, bit);
        WithoutIsLess(h, k);
        EditsCancel(multiset(front), multiset(rest), x);
        EditsCancel(multiset(rest), multiset(front), x);
        WeightMovesByEdit(hash, front, rest, bit);
      } else {
        EditAdds(multiset(front), multiset(h), x);
        WeightMovesByEdit(hash, front, h, bit);
      }
    }
  }

  lemma {:induction false} OnesAtMostAll<G>(hash: G -> nat, g: seq<G>, bit: nat)
    ensures Ones(hash, g, bit) <= |g|
  {
    if g == [] {
    } else {
      OnesAtMostAll(hash, g[..|g| - 1], bit);
    }
  }

  ghost function ThinBits<G>(hash: G -> nat, g: seq<G>, d: nat): set<nat> {
    set i: nat | i < BITS && 0 - d < Weight(hash, g, i) <= d
  }

  /** No bit whose margin the edit cannot overturn flips, so the distance counts thin-margin bits only. */
  lemma EditFlipsOnlyThinBits<G>(hash: G -> nat, g: seq<G>, h: seq<G>)
    ensures DiffBits(Fingerprint(hash, g), Fingerprint(hash, h)) <= ThinBits(hash, g, EditSize(g, h))
    ensures Hamming(Fingerprint(hash, g), Fingerprint(hash, h)) <= |ThinBits(hash, g, EditSize(g, h))|
  {
    hide Bit, EditSize, Weight, Pack, DiffersBelow;
    var a, b, thin := Fingerprint(hash, g), Fingerprint(hash, h), ThinBits(hash, g, EditSize(g, h));
    PackBits(hash, g, BITS);
    PackBits(hash, h, BITS);
    forall i | i in DiffBits(a, b) ensures i in thin {
      WeightMovesByEdit(hash, g, h, i);
    }
    HammingCountsDiffBits(a, b, BITS);
    assert thin == DiffBits(a, b) + (thin - DiffBits(a, b));
  }

  lemma {:induction false} WindowEdit<G>(g: seq<G>, h: seq<G>, lo: int, hi: int)
    requires |g| == |h| && lo <= hi
    requires forall k :: 0 <= k < |g| && !(lo <= k < hi) ==> g[k] == h[k]
    ensures EditSize(g, h) <= 2 * (hi - lo)
    decreases |g|
  {
    if g == [] {
    } else {
      var n := |g| - 1;
      assert g == g[..n] + [g[n]] && h == h[..n] + [h[n]];
      assert multiset(g) == multiset(g[..n]) + multiset{g[n]};
      assert multiset(h) == multiset(h[..n]) + multiset{h[n]};
      if lo <= n < hi {
        WindowEdit(g[..n], h[..n], lo, n);
        EditSizeStep(multiset(g[..n]), multiset(h[..n]), g[n], h[n]);
      } else {
        WindowEdit(g[..n], h[..n], lo, hi);
        EditsCancel(multiset(g[..n]), multiset(h[..n]), g[n]);
        EditsCancel(multiset(h[..n]), multiset(g[..n]), g[n]);
      }
    }
  }

  lemma EditSizeStep<G>(a: multiset<G>, b: multiset<G>, x: G, y: G)
    ensures |(a + multiset{x}) - (b + multiset{y})| <= |a - b| + 1
    ensures |(b + multiset{y}) - (a + multiset{x})| <= |b - a| + 1
  {
    SmallerMultiset((a + multiset{x}) - (b + multiset{y}), (a - b) + multiset{x});
    SmallerMultiset((b + multiset{y}) - (a + multiset{x}), (b - a) + multiset{y});
  }

  lemma SmallerMultiset<G>(a: multiset<G>, b: multiset<G>)
    requires a <= b
    ensures |a| <= |b|
  {
    assert b == a + (b - a);
  }

  lemma SameWindow(tokens: seq<string>, size: int, i: nat, token: string, k: nat)
    requires i < |tokens| && size <= |tokens| && k <= |tokens| - size && !(i - Width(|tokens|, size) < k <= i)
    ensures Window(tokens, k, size) == Window(tokens[i := token], k, size)
  {
  }

  /** Rewriting one token of a text touches at most as many shingles as one holds tokens: only bits with margin within
      twice that move. */
  lemma TokenEditIsLocal(tokens: seq<string>, size: int, i: nat, token: string)
    requires i < |tokens|
    ensures EditSize(Shingles(tokens, size), Shingles(tokens[i := token], size)) <=
            2 * (if size >= 0 then size else if |tokens| + size > 0 then |tokens| + size else 0)
  {
    hide Joined;
    var edited, width := tokens[i := token], Width(|tokens|, size);
    var g, h := Shingles(tokens, size), Shingles(edited, size);
    if size <= |tokens| {
      hide Window, Width;
      forall k | 0 <= k < |g| && !(i - width + 1 <= k < i + 1) ensures g[k] == h[k] {
        SameWindow(tokens, size, i, token, k);
      }
      WindowEdit(g, h, i - width + 1, i + 1);
    } else {
      WindowEdit(g, h, 0, 1);
    }
  }

  // ---- the program: count shingles, weigh every bit, pack the word ----

  /** The occurrence-weighted sum the nested loops compute from the counts dictionary. */
  function Tally<G(==)>(hash: G -> nat, keys: seq<G>, counts: map<G, nat>, bit: nat): int
    requires forall k :: 0 <= k < |keys| ==> keys[k] in counts
  {
    if keys == [] then 0
    else
      var last := keys[|keys| - 1];
      Tally(hash, keys[..|keys| - 1], counts, bit) + counts[last] * Vote(hash, last, bit)
  }

  lemma {:induction false} TallyAfterBump<G>(hash: G -> nat, keys: seq<G>, counts: map<G, nat>,
                                          gram: G, c: nat, bit: nat)
    requires forall k :: 0 <= k < |keys| ==> keys[k] in counts
    requires Distinct(keys) && (gram in counts ==> c == counts[gram] + 1)
    ensures Tally(hash, keys, counts[gram := c], bit) ==
            Tally(hash, keys, counts, bit) + if gram in keys then Vote(hash, gram, bit) else 0
  {
    if keys == [] {
    } else {
      var n := |keys| - 1;
      TallyAfterBump(hash, keys[..n], counts, gram, c, bit);
      assert gram in keys <==> gram in keys[..n] || gram == keys[n];
    }
  }

  /** The counts so far: one key per distinct shingle, and for every bit the same weight as the shingles read. */
  ghost predicate Tallied<G>(hash: G -> nat, keys: seq<G>, counts: map<G, nat>, grams: seq<G>) {
    && Distinct(keys) && (forall k :: 0 <= k < |keys| ==> keys[k] in counts) && (forall g :: g in counts ==> g in keys)
    && forall bit: nat :: Tally(hash, keys, counts, bit) == Weight(hash, grams, bit)
  }

  lemma OneMoreGram<G>(hash: G -> nat, keys: seq<G>, counts: map<G, nat>, grams: seq<G>, gram: G)
    requires Tallied(hash, keys, counts, grams)
    ensures var c := (if gram in counts then counts[gram] else 0) + 1;
            Tallied(hash, if gram in keys then keys else keys + [gram], counts[gram := c], grams + [gram])
  {
    hide Vote, Tally, Weight, Distinct;
    var c := (if gram in counts then counts[gram] else 0) + 1;
    var more := if gram in keys then keys else keys + [gram];
    DistinctStays(keys, gram);
    forall bit: nat ensures Tally(hash, more, counts[gram := c], bit) == Weight(hash, grams + [gram], bit) {
      TallyOfMore(hash, keys, counts, gram, c, bit);
      WeightOfMore(hash, grams, gram, bit);
    }
  }

  lemma DistinctStays<G>(keys: seq<G>, gram: G)
    requires Distinct(keys)
    ensures Distinct(if gram in keys then keys else keys + [gram])
  {
  }

  lemma TallyOfMore<G>(hash: G -> nat, keys: seq<G>, counts: map<G, nat>, gram: G, c: nat, bit: nat)
    requires Distinct(keys) && (forall k :: 0 <= k < |keys| ==> keys[k] in counts) && (gram in counts ==> gram in keys)
    requires c == (if gram in counts then counts[gram] else 0) + 1
    ensures Tally(hash, if gram in keys then keys else keys + [gram], counts[gram := c], bit) ==
            Tally(hash, keys, counts, bit) + Vote(hash, gram, bit)
  {
    hide Vote, Tally, Distinct;
    TallyAfterBump(hash, keys, counts, gram, c, bit);
    if gram !in keys {
      TallyOfAppended(hash, keys, counts[gram := 1], gram, bit);
    }
  }

  lemma TallyOfAppended<G>(hash: G -> nat, keys: seq<G>, counts: map<G, nat>, gram: G, bit: nat)
    requires (forall k :: 0 <= k < |keys| ==> keys[k] in counts) && gram in counts && counts[gram] == 1
    ensures Tally(hash, keys + [gram], counts, bit) == Tally(hash, keys, counts, bit) + Vote(hash, gram, bit)
  {
    hide Vote;
    assert (keys + [gram])[..|keys|] == keys;
  }

  lemma WeightOfMore<G>(hash: G -> nat, grams: seq<G>, gram: G, bit: nat)
    ensures Weight(hash, grams + [gram], bit) == Weight(hash, grams, bit) + Vote(hash, gram, bit)
  {
    assert (grams + [gram])[..|grams|] == grams;
  }

  method CountGrams<G(==)>(ghost hash: G -> nat, grams: seq<G>) returns (keys: seq<G>, counts: map<G, nat>)
    ensures forall k :: 0 <= k < |keys| ==> keys[k] in counts
    ensures forall bit: nat :: Tally(hash, keys, counts, bit) == Weight(hash, grams, bit)
  {
    hide Tally, Weight, Tallied, Distinct;
    keys, counts := [], map[];
    NothingTallied(hash);
    for i := 0 to |grams|
      invariant Tallied(hash, keys, counts, grams[..i])
    {
      var gram := grams[i];
      OneMoreGram(hash, keys, counts, grams[..i], gram);
      assert grams[..i + 1] == grams[..i] + [gram];
      counts := counts[gram := (if gram in counts then counts[gram] else 0) + 1];
      if gram !in keys {
        keys := keys + [gram];
      }
    }
    assert grams[..|grams|] == grams;
    TalliedTotals(hash, keys, counts, grams);
  }

  lemma TalliedTotals<G>(hash: G -> nat, keys: seq<G>, counts: map<G, nat>, grams: seq<G>)
    requires Tallied(hash, keys, counts, grams)
    ensures forall k :: 0 <= k < |keys| ==> keys[k] in counts
    ensures forall bit: nat :: Tally(hash, keys, counts, bit) == Weight(hash, grams, bit)
  {
    hide Tally, Weight, Distinct;
  }

  lemma NothingTallied<G>(hash: G -> nat)
    ensures Tallied(hash, [], map[], [])
  {
  }

  method WeighBits<G>(hash: G -> nat, keys: seq<G>, counts: map<G, nat>) returns (weights: array<int>)
    requires forall k :: 0 <= k < |keys| ==> keys[k] in counts
    ensures weights.Length == BITS
    ensures forall bit: nat :: bit < BITS ==> weights[bit] == Tally(hash, keys, counts, bit)
  {
    weights := new int[BITS](_ => 0);
    for i := 0 to |keys|
      invariant forall bit: nat :: bit < BITS ==> weights[bit] == Tally(hash, keys[..i], counts, bit)
    {
      var h := hash(keys[i]);
      assert keys[..i + 1][..i] == keys[..i];
      for bit := 0 to BITS
        invariant forall b: nat :: b < bit ==> weights[b] == Tally(hash, keys[..i + 1], counts, b)
        invariant forall b: nat :: bit <= b < BITS ==> weights[b] == Tally(hash, keys[..i], counts, b)
      {
        weights[bit] := if Bit(h, bit) then weights[bit] + counts[keys[i]] else weights[bit] - counts[keys[i]];
      }
    }
    assert keys[..|keys|] == keys;
  }

  method Simhash64(hash: string -> nat, tokens: seq<string>, size: int) returns (out: nat)
    ensures out == Fingerprint(hash, Shingles(tokens, size))
  {
    var grams := Shingles(tokens, size);
    if grams == [] {
      EmptyPack(hash, BITS);
      return 0;
    }
    var keys, counts := CountGrams(hash, grams);
    var weights := WeighBits(hash, keys, counts);
    out := 0;
    for bit := 0 to BITS
      invariant out == Pack(hash, grams, bit)
    {
      if weights[bit] > 0 {
        out := out + Pow2(bit);
      }
    }
  }

  lemma {:induction false} EmptyPack<G>(hash: G -> nat, n: nat)
    ensures Pack(hash, [], n) == 0
  {
    if n == 0 {
    } else {
      EmptyPack(hash, n - 1);
    }
  }
}
