/** keypool.py: a provider's keys, handed out least-used-first among those not parked. */
module KeyPool {
  import opened Prelude
  import opened Text

  const DEFAULT_COOLDOWN := 20.0

  // ---- the pool as a value ----

  datatype Usage = Usage(availableAt: real, uses: nat, rateLimits: nat)

  const UNUSED := Usage(0.0, 0, 0)

  type State = seq<Usage>

  predicate Free(s: State, i: nat, now: real)
    requires i < |s|
  {
    s[i].availableAt <= now
  }

  /** The least used free key, the first of them on ties. */
  function Chosen(s: State, now: real): (r: Option<nat>)
    ensures r.Some? ==> r.value < |s| && Free(s, r.value, now)
  {
    if s == [] then None
    else
      var n := |s| - 1;
      var best := Chosen(s[..n], now);
      if !Free(s, n, now) then best
      else if best.None? || s[n].uses < s[best.value].uses then Some(n)
      else best
  }

  function Soonest(s: State): real
    requires s != []
  {
    var n := |s| - 1;
    if n == 0 then s[0].availableAt else MinR(Soonest(s[..n]), s[n].availableAt)
  }

  function RetryAfter(s: State, now: real): real
    requires s != []
  {
    MaxR(Soonest(s) - now, 0.0)
  }

  function Acquired(s: State, now: real): State {
    match Chosen(s, now)
    case Some(i) => s[i := s[i].(uses := s[i].uses + 1)]
    case None => s
  }

  function Cooldown(retryAfter: Option<real>, default: real): real {
    if retryAfter.Some? && retryAfter.value > 0.0 then retryAfter.value else default
  }

  function Penalised(s: State, i: nat, now: real, cooldown: real): State
    requires i < |s|
  {
    s[i := s[i].(availableAt := now + cooldown, rateLimits := s[i].rateLimits + 1)]
  }

  function Fresh(n: nat): State {
    seq(n, _ => UNUSED)
  }

  /** Stripped, non-blank values without duplicates, first occurrences kept. */
  function Unique(values: seq<string>): seq<string> {
    if values == [] then []
    else
      var rest, v := Unique(values[..|values| - 1]), Strip(values[|values| - 1]);
      if v == "" || v in rest then rest else rest + [v]
  }

  // ---- the pool in place ----

  class Key {
    const value: string
    const index: nat
    var availableAt: real
    var uses: nat
    var rateLimits: nat

    constructor (value: string, index: nat)
      ensures this.value == value && this.index == index && AsUsage() == UNUSED
    {
      this.value, this.index := value, index;
      availableAt, uses, rateLimits := 0.0, 0, 0;
    }

    function AsUsage(): Usage
      reads this
    {
      Usage(availableAt, uses, rateLimits)
    }
  }

  datatype PoolError = NoKeys | AllKeysExhausted(keys: nat, retryAfter: real)

  class ApiKeyPool {
    const keys: seq<Key>
    const defaultCooldown: real

    ghost predicate Valid() {
      && keys != []
      && (forall i, j :: 0 <= i < j < |keys| ==> keys[i] != keys[j] && keys[i].value != keys[j].value)
      && forall i :: 0 <= i < |keys| ==> keys[i].index == i
    }

    ghost function Usages(): (s: State)
      reads keys
      ensures |s| == |keys|
    {
      seq(|keys|, i requires 0 <= i < |keys| reads keys => keys[i].AsUsage())
    }

    constructor (keys: seq<Key>, defaultCooldown: real)
      ensures this.keys == keys && this.defaultCooldown == defaultCooldown
    {
      this.keys, this.defaultCooldown := keys, defaultCooldown;
    }

    method LeastUsed(now: real) returns (chosen: Option<Key>)
      requires Valid()
      ensures match Chosen(Usages(), now) case Some(i) => chosen == Some(keys[i]) case None => chosen == None
    {
      ghost var s := Usages();
      chosen := None;
      for j := 0 to |keys|
        invariant match Chosen(s[..j], now) case Some(i) => chosen == Some(keys[i]) case None => chosen == None
      {
        assert s[..j + 1][..j] == s[..j];
        if keys[j].availableAt <= now && (chosen.None? || keys[j].uses < chosen.value.uses) {
          chosen := Some(keys[j]);
        }
      }
      assert s[..|keys|] == s;
    }

    method SoonestAvailable() returns (soonest: real)
      requires Valid()
      ensures soonest == Soonest(Usages())
    {
      ghost var s := Usages();
      soonest := keys[0].availableAt;
      for j := 1 to |keys|
        invariant soonest == Soonest(s[..j])
      {
        assert s[..j + 1][..j] == s[..j];
        soonest := MinR(soonest, keys[j].availableAt);
      }
      assert s[..|keys|] == s;
    }

    /** The least-used key that is not cooling down. */
    method Acquire(now: real) returns (r: Result<string, PoolError>)
      requires Valid()
      modifies keys
      ensures Usages() == Acquired(old(Usages()), now)
      ensures match Chosen(old(Usages()), now)
              case Some(i) => r == Ok(keys[i].value)
              case None => r == Err(AllKeysExhausted(|keys|, RetryAfter(old(Usages()), now)))
    {
      hide Chosen, Soonest, MaxR;
      var chosen := LeastUsed(now);
      match chosen
      case Some(key) =>
        key.uses := key.uses + 1;
        assert Usages() == Acquired(old(Usages()), now);
        r := Ok(key.value);
      case None =>
        var soonest := SoonestAvailable();
        r := Err(AllKeysExhausted(|keys|, MaxR(soonest - now, 0.0)));
    }

    /** Parks the key that reported a rate limit; an unknown value changes nothing. */
    method Penalise(value: string, retryAfter: Option<real>, now: real)
      requires Valid()
      modifies keys
      ensures forall i :: 0 <= i < |keys| && keys[i].value == value ==>
                Usages() == Penalised(old(Usages()), i, now, Cooldown(retryAfter, defaultCooldown))
      ensures (forall i :: 0 <= i < |keys| ==> keys[i].value != value) ==> Usages() == old(Usages())
    {
      ghost var s := Usages();
      for j := 0 to |keys|
        invariant Usages() == s && forall i :: 0 <= i < j ==> keys[i].value != value
      {
        if keys[j].value == value {
          keys[j].availableAt := now + Cooldown(retryAfter, defaultCooldown);
          keys[j].rateLimits := keys[j].rateLimits + 1;
          assert Usages() == Penalised(s, j, now, Cooldown(retryAfter, defaultCooldown));
          return;
        }
      }
    }
  }

  /** The constructor's cleaning: blank and repeated values are dropped, and an empty pool is refused. */
  method MakePool(values: seq<string>, cooldown: Option<real>) returns (r: Result<ApiKeyPool, PoolError>)
    ensures Unique(values) == [] <==> r == Err(NoKeys)
    ensures r.Ok? ==> r.value.Valid() && r.value.Usages() == Fresh(|Unique(values)|) &&
                      r.value.defaultCooldown == (if cooldown.Some? then cooldown.value else DEFAULT_COOLDOWN) &&
                      forall i :: 0 <= i < |Unique(values)| ==> r.value.keys[i].value == Unique(values)[i]
  {
    var unique := Unique(values);
    if unique == [] {
      return Err(NoKeys);
    }
    UniqueIsDistinct(values);
    var keys: seq<Key> := [];
    for j := 0 to |unique|
      invariant |keys| == j && forall i :: 0 <= i < j ==>
        fresh(keys[i]) && keys[i].value == unique[i] && keys[i].index == i && keys[i].AsUsage() == UNUSED
      invariant forall i, k :: 0 <= i < k < j ==> keys[i] != keys[k]
    {
      var key := new Key(unique[j], j);
      keys := keys + [key];
    }
    var pool := new ApiKeyPool(keys, if cooldown.Some? then cooldown.value else DEFAULT_COOLDOWN);
    r := Ok(pool);
  }

  lemma {:induction false} UniqueIsDistinct(values: seq<string>)
    ensures forall i, j :: 0 <= i < j < |Unique(values)| ==> Unique(values)[i] != Unique(values)[j]
  {
    if values == [] {
    } else {
      UniqueIsDistinct(values[..|values| - 1]);
    }
  }

  /** Some value, stripped, is `x`. */
  predicate Gives(values: seq<string>, x: string) {
    exists i :: 0 <= i < |values| && Strip(values[i]) == x
  }

  lemma GivesMore(front: seq<string>, last: string, x: string)
    ensures Gives(front + [last], x) <==> Gives(front, x) || Strip(last) == x
  {
    hide Strip;
    var values := front + [last];
    assert values[|front|] == last;
    assert forall i :: 0 <= i < |front| ==> values[i] == front[i];
  }

  /** What is kept are exactly the stripped values that are not blank. */
  lemma {:induction false} UniqueIsExact(values: seq<string>, x: string)
    ensures x in Unique(values) <==> x != "" && Gives(values, x)
  {
    hide Strip;
    if values == [] {
    } else {
      var n := |values| - 1;
      UniqueIsExact(values[..n], x);
      GivesMore(values[..n], values[n], x);
      assert values[..n] + [values[n]] == values;
      hide Gives;
    }
  }

  /** They are kept in the order in which they first appear. */
  lemma {:induction false} UniqueKeepsOrder(values: seq<string>, a: nat, b: nat, j: nat)
    requires a < b < |Unique(values)| && j < |values| && Strip(values[j]) == Unique(values)[b]
    ensures exists i :: 0 <= i < j && Strip(values[i]) == Unique(values)[a]
  {
    hide Strip;
    var n := |values| - 1;
    var front := Unique(values[..n]);
    var x := Unique(values)[b];
    UniqueIsExact(values, x);
    UniqueIsExact(values[..n], x);
    assert j < n ==> values[..n][j] == values[j];
    if j < n {
      assert b < |front|;
      UniqueKeepsOrder(values[..n], a, b, j);
      var i :| 0 <= i < j && Strip(values[..n][i]) == front[a];
      assert values[i] == values[..n][i];
    } else {
      UniqueIsExact(values[..n], front[a]);
      var i :| 0 <= i < n && Strip(values[..n][i]) == front[a];
      assert values[i] == values[..n][i];
    }
  }

  // ---- which key is chosen ----

  /** The choice is least by uses, then by position, among the free keys; there is none only when all are parked. */
  lemma {:induction false} ChosenIsLeast(s: State, now: real)
    ensures Chosen(s, now).None? <==> forall j :: 0 <= j < |s| ==> s[j].availableAt > now
    ensures Chosen(s, now).Some? ==>
      var i := Chosen(s, now).value;
      s[i].availableAt <= now &&
      forall j :: 0 <= j < |s| && s[j].availableAt <= now ==> s[i].uses < s[j].uses || (s[i].uses == s[j].uses && i <= j)
  {
    if s == [] {
    } else {
      var n := |s| - 1;
      ChosenIsLeast(s[..n], now);
      assert forall j :: 0 <= j < n ==> Free(s[..n], j, now) == Free(s, j, now);
    }
  }

  lemma {:induction false} SoonestIsLeast(s: State)
    requires s != []
    ensures forall j :: 0 <= j < |s| ==> Soonest(s) <= s[j].availableAt
    ensures exists j :: 0 <= j < |s| && s[j].availableAt == Soonest(s)
  {
    var n := |s| - 1;
    if n == 0 {
    } else {
      SoonestIsLeast(s[..n]);
      var j :| 0 <= j < n && s[..n][j].availableAt == Soonest(s[..n]);
      assert s[j].availableAt == Soonest(s[..n]);
      assert forall k :: 0 <= k < n ==> s[..n][k] == s[k];
    }
    assert s[n].availableAt >= Soonest(s);
  }

  /** A refusal's retry_after is exactly the wait after which the pool, left alone, answers. */
  lemma RefusalIsExact(s: State, now: real, later: real)
    requires s != [] && Chosen(s, now).None?
    ensures RetryAfter(s, now) > 0.0
    ensures Chosen(s, later).Some? <==> later >= now + RetryAfter(s, now)
  {
    ChosenIsLeast(s, now);
    ChosenIsLeast(s, later);
    SoonestIsLeast(s);
    var j :| 0 <= j < |s| && s[j].availableAt == Soonest(s);
    assert !Free(s, j, now);
    if later >= Soonest(s) {
      assert Free(s, j, later);
    }
  }

  // ---- runs ----

  datatype Event = Acquire(now: real) | Penalise(key: nat, now: real, retryAfter: Option<real>)

  predicate Legal(run: seq<Event>, n: nat) {
    forall i :: 0 <= i < |run| && run[i].Penalise? ==> run[i].key < n
  }

  function After(run: seq<Event>, n: nat, default: real): (s: State)
    requires Legal(run, n)
    ensures |s| == n
  {
    if run == [] then Fresh(n)
    else
      var s := After(run[..|run| - 1], n, default);
      match run[|run| - 1]
      case Acquire(now) => Acquired(s, now)
      case Penalise(i, now, retryAfter) => Penalised(s, i, now, Cooldown(retryAfter, default))
  }

  /** The key that event `j` of a run hands out. */
  function Handed(run: seq<Event>, n: nat, default: real, j: nat): Option<nat>
    requires Legal(run, n) && j < |run|
  {
    match run[j]
    case Acquire(now) => Chosen(After(run[..j], n, default), now)
    case Penalise(_, _, _) => None
  }

  /** The last penalty before `j`, if any, is `p`. */
  predicate LastPenalty(run: seq<Event>, p: nat, i: nat, j: nat) {
    p < j <= |run| && run[p].Penalise? && run[p].key == i &&
    forall q :: p < q < j && run[q].Penalise? ==> run[q].key != i
  }

  /** When the penalty at `p` lets its key be used again: after the hint, if it is positive, or the default. */
  function EndOf(run: seq<Event>, default: real, p: nat): real
    requires p < |run| && run[p].Penalise?
  {
    run[p].now + match run[p].retryAfter case Some(hint) => (if hint > 0.0 then hint else default) case None => default
  }

  lemma {:induction false} ParkedUntil(run: seq<Event>, n: nat, default: real, p: nat, i: nat)
    requires Legal(run, n) && LastPenalty(run, p, i, |run|)
    ensures i < n && After(run, n, default)[i].availableAt == EndOf(run, default, p)
  {
    hide Chosen;
    var last := |run| - 1;
    if p >= last {
    } else {
      ParkedUntil(run[..last], n, default, p, i);
    }
  }

  /** No key is handed out before the cooldown of its latest penalty has passed. */
  lemma ParkedKeysRest(run: seq<Event>, n: nat, default: real, p: nat, j: nat)
    requires Legal(run, n) && j < |run| && Handed(run, n, default, j).Some?
    requires LastPenalty(run, p, Handed(run, n, default, j).value, j)
    ensures run[j].now >= EndOf(run, default, p)
  {
    ParkedUntil(run[..j], n, default, p, Handed(run, n, default, j).value);
  }

  lemma EventCounts(run: seq<Event>, n: nat, default: real, i: nat)
    requires Legal(run, n) && i < n && run != []
    ensures var m := |run| - 1;
            var s, t := After(run[..m], n, default), After(run, n, default);
            t[i].uses == s[i].uses + (if Handed(run, n, default, m) == Some(i) then 1 else 0) &&
            t[i].rateLimits == s[i].rateLimits + if run[m].Penalise? && run[m].key == i then 1 else 0
  {
    hide Chosen, Cooldown;
  }

  function HandedOut(run: seq<Event>, n: nat, default: real, i: nat): set<nat>
    requires Legal(run, n)
  {
    set j: nat | j < |run| && Handed(run, n, default, j) == Some(i)
  }

  /** Each key has been used exactly as often as it was handed out. */
  lemma {:induction false} UsesAreHandouts(run: seq<Event>, n: nat, default: real, i: nat)
    requires Legal(run, n) && i < n
    ensures After(run, n, default)[i].uses == |HandedOut(run, n, default, i)|
  {
    hide Handed;
    if run == [] {
      assert HandedOut(run, n, default, i) == {};
    } else {
      var m := |run| - 1;
      UsesAreHandouts(run[..m], n, default, i);
      EventCounts(run, n, default, i);
      hide After;
      forall j: nat | j < m ensures Handed(run[..m], n, default, j) == Handed(run, n, default, j) {
        SameHandout(run, n, default, j);
      }
      assert HandedOut(run, n, default, i) ==
             HandedOut(run[..m], n, default, i) + if Handed(run, n, default, m) == Some(i) then {m} else {};
    }
  }

  lemma SameHandout(run: seq<Event>, n: nat, default: real, j: nat)
    requires Legal(run, n) && j < |run| - 1
    ensures Handed(run[..|run| - 1], n, default, j) == Handed(run, n, default, j)
  {
    assert run[..|run| - 1][..j] == run[..j];
  }

  /** And penalised exactly as often as it was reported. */
  lemma {:induction false} RateLimitsAreReports(run: seq<Event>, n: nat, default: real, i: nat)
    requires Legal(run, n) && i < n
    ensures After(run, n, default)[i].rateLimits == CountOf(run, (e: Event) => e.Penalise? && e.key == i)
  {
    hide CountOf;
    var reports := (e: Event) => e.Penalise? && e.key == i;
    if run == [] {
      CountNone(run, reports);
    } else {
      RateLimitsAreReports(run[..|run| - 1], n, default, i);
      EventCounts(run, n, default, i);
      CountMore(run, reports);
    }
  }

  // ---- penalties that end sooner than an earlier one ----

  predicate SameKeyPenalties(run: seq<Event>, p: nat, q: nat) {
    p < q < |run| && run[p].Penalise? && run[q].Penalise? && run[p].key == run[q].key
  }

  /** No penalty of a key ends before an earlier one of the same key. */
  ghost predicate EndsNeverDrop(run: seq<Event>, default: real) {
    forall p: nat, q: nat :: SameKeyPenalties(run, p, q) ==> EndOf(run, default, p) <= EndOf(run, default, q)
  }

  /** At point `j` of the run the key penalised at `p` is not free before that penalty ends. */
  ghost predicate RestsAsAsked(run: seq<Event>, n: nat, default: real, p: nat, j: nat)
    requires Legal(run, n) && p < j <= |run| && run[p].Penalise?
  {
    forall now :: Free(After(run[..j], n, default), run[p].key, now) ==> now >= EndOf(run, default, p)
  }

  ghost predicate AllRestAsAsked(run: seq<Event>, n: nat, default: real)
    requires Legal(run, n)
  {
    forall p: nat, j: nat :: p < j <= |run| && run[p].Penalise? ==> RestsAsAsked(run, n, default, p, j)
  }

  /** Only the latest penalty counts: an earlier one is respected exactly when the latest does not end before it. */
  lemma RestsIffLatestEndsNoSooner(run: seq<Event>, n: nat, default: real, p: nat, q: nat, j: nat)
    requires Legal(run, n) && p < j <= |run| && run[p].Penalise? && LastPenalty(run, q, run[p].key, j)
    ensures RestsAsAsked(run, n, default, p, j) <==> EndOf(run, default, q) >= EndOf(run, default, p)
  {
    ParkedUntil(run[..j], n, default, q, run[p].key);
    assert Free(After(run[..j], n, default), run[p].key, EndOf(run, default, q));
  }

  lemma {:induction false} SomePenaltyIsLast(run: seq<Event>, p: nat, i: nat, j: nat) returns (q: nat)
    requires p < j <= |run| && run[p].Penalise? && run[p].key == i
    ensures p <= q && LastPenalty(run, q, i, j)
  {
    if run[j - 1].Penalise? && run[j - 1].key == i {
      q := j - 1;
    } else {
      q := SomePenaltyIsLast(run, p, i, j - 1);
    }
  }

  /** Every key stays parked for as long as each of its penalties asked, at every point of the run, if and only
      if no penalty of a key ends before an earlier one of that key. */
  lemma AllRestIffEndsNeverDrop(run: seq<Event>, n: nat, default: real)
    requires Legal(run, n)
    ensures AllRestAsAsked(run, n, default) <==> EndsNeverDrop(run, default)
  {
    hide EndOf;
    forall p: nat, q: nat | SameKeyPenalties(run, p, q)
      ensures AllRestAsAsked(run, n, default) ==> EndOf(run, default, p) <= EndOf(run, default, q)
    {
      RestsIffLatestEndsNoSooner(run, n, default, p, q, q + 1);
      assert AllRestAsAsked(run, n, default) ==> RestsAsAsked(run, n, default, p, q + 1);
    }
    forall p: nat, j: nat | p < j <= |run| && run[p].Penalise?
      ensures EndsNeverDrop(run, default) ==> RestsAsAsked(run, n, default, p, j)
    {
      var q := SomePenaltyIsLast(run, p, run[p].key, j);
      RestsIffLatestEndsNoSooner(run, n, default, p, q, j);
      assert p == q || SameKeyPenalties(run, p, q);
    }
  }

  /** Under that condition no key is handed out before the end of any penalty it has had. */
  lemma PenalisedKeysRest(run: seq<Event>, n: nat, default: real, p: nat, j: nat)
    requires Legal(run, n) && EndsNeverDrop(run, default) && p < j < |run| && run[p].Penalise?
    requires Handed(run, n, default, j) == Some(run[p].key)
    ensures run[j].now >= EndOf(run, default, p)
  {
    AllRestIffEndsNeverDrop(run, n, default);
    assert RestsAsAsked(run, n, default, p, j);
  }

  /** A key parked until 100 and then asked to rest for one second is handed out at 2. */
  lemma ShorterPenaltyUnparks(default: real)
    ensures var run := [Penalise(0, 0.0, Some(100.0)), Penalise(0, 1.0, Some(1.0)), Acquire(2.0)];
            Legal(run, 1) && EndOf(run, default, 0) == 100.0 && Handed(run, 1, default, 2) == Some(0)
  {
    var run := [Penalise(0, 0.0, Some(100.0)), Penalise(0, 1.0, Some(1.0)), Acquire(2.0)];
    ParkedUntil(run[..2], 1, default, 1, 0);
    ChosenIsLeast(After(run[..2], 1, default), 2.0);
    assert Free(After(run[..2], 1, default), 0, 2.0);
  }

  // ---- without penalties ----

  /** `m` as full rounds and the position in the next one. */
  function Turn(m: nat, n: nat): (r: (nat, nat))
    requires n > 0
    ensures r.1 < n
  {
    if m == 0 then (0, 0)
    else
      var (rounds, at) := Turn(m - 1, n);
      if at + 1 == n then (rounds + 1, 0) else (rounds, at + 1)
  }

  lemma {:induction false} TurnDecomposes(m: nat, n: nat)
    requires n > 0
    ensures m == Turn(m, n).0 * n + Turn(m, n).1
  {
    if m == 0 {
    } else {
      TurnDecomposes(m - 1, n);
    }
  }

  lemma TurnIsRemainder(m: nat, n: nat)
    requires n > 0
    ensures Turn(m, n).1 == m % n
  {
    TurnDecomposes(m, n);
    hide Turn;
    OneDivision(Turn(m, n).0, Turn(m, n).1, m / n, m % n, n);
  }

  lemma OneDivision(q: int, r: int, p: int, t: int, n: int)
    requires q * n + r == p * n + t && 0 <= r < n && 0 <= t < n
    ensures q == p && r == t
  {
    assert (q - p) * n == t - r;
    if q - p >= 1 {
      AtLeastOnce(q - p, n);
    } else if p - q >= 1 {
      AtLeastOnce(p - q, n);
    }
  }

  lemma AtLeastOnce(k: int, n: int)
    requires k >= 1 && n > 0
    ensures k * n >= n
  {
  }

  predicate OnlyAcquires(run: seq<Event>) {
    forall i :: 0 <= i < |run| ==> run[i].Acquire? && run[i].now >= 0.0
  }

  lemma {:induction false} UsesFollowTurns(run: seq<Event>, n: nat, default: real)
    requires OnlyAcquires(run) && n > 0
    ensures Legal(run, n)
    ensures var (rounds, at) := Turn(|run|, n);
            forall i :: 0 <= i < n ==>
              After(run, n, default)[i] == Usage(0.0, if i < at then rounds + 1 else rounds, 0)
  {
    hide Chosen;
    if run == [] {
    } else {
      var m := |run| - 1;
      UsesFollowTurns(run[..m], n, default);
      NextInTurn(After(run[..m], n, default), run[m].now, Turn(m, n).0, Turn(m, n).1);
    }
  }

  lemma NextInTurn(s: State, now: real, rounds: nat, at: nat)
    requires at < |s| && now >= 0.0
    requires forall i :: 0 <= i < |s| ==> s[i] == Usage(0.0, if i < at then rounds + 1 else rounds, 0)
    ensures Chosen(s, now) == Some(at)
  {
    ChosenIsLeast(s, now);
    assert Free(s, at, now);
  }

  /** Without penalties the pool is round-robin: acquisition m takes key m mod n, and no two keys' use counts
      ever differ by more than one. */
  lemma RoundRobin(run: seq<Event>, n: nat, default: real, m: nat)
    requires OnlyAcquires(run) && n > 0 && m < |run|
    ensures Legal(run, n) && Handed(run, n, default, m) == Some(m % n)
    ensures forall i, j :: 0 <= i < n && 0 <= j < n ==>
      After(run, n, default)[i].uses <= After(run, n, default)[j].uses + 1
  {
    hide Chosen;
    UsesFollowTurns(run[..m], n, default);
    NextInTurn(After(run[..m], n, default), run[m].now, Turn(m, n).0, Turn(m, n).1);
    TurnIsRemainder(m, n);
    UsesFollowTurns(run, n, default);
  }
}
