/** http.py: the sliding-window budget per key and the minimum interval per host, against a monotone clock.
    One locked section is one atomic step. */
module RateBudget {
  import opened Prelude

  type Key = int

  const WINDOW := 60.0

  /** The stamps younger than a minute. */
  function Fresh(stamps: seq<real>, now: real): seq<real> {
    if stamps == [] then []
    else
      var last := stamps[|stamps| - 1];
      Fresh(stamps[..|stamps| - 1], now) + if now - last < WINDOW then [last] else []
  }

  function Stamps(windows: map<Key, seq<real>>, key: Key): seq<real> {
    if key in windows then windows[key] else []
  }

  /** Whether one locked iteration grants. */
  predicate Grants(stamps: seq<real>, rate: int, now: real) {
    |Fresh(stamps, now)| < rate
  }

  function Attempted(stamps: seq<real>, rate: int, now: real): seq<real> {
    if Grants(stamps, rate, now) then Fresh(stamps, now) + [now] else Fresh(stamps, now)
  }

  /** How long a refused caller sleeps. */
  function SleepFor(stamps: seq<real>, rate: int, now: real): real
    requires rate > 0 && !Grants(stamps, rate, now)
  {
    MinR(WINDOW - (now - Fresh(stamps, now)[0]) + 0.01, WINDOW)
  }

  class Budget {
    var windows: map<Key, seq<real>>

    constructor ()
      ensures windows == map[]
    {
      windows := map[];
    }

    /** One pass through the locked section; `None` grants, `Some(s)` asks the caller to sleep. */
    method Attempt(key: Key, rate: int, now: real) returns (sleep: Option<real>)
      requires rate > 0
      modifies this
      ensures windows == old(windows)[key := Attempted(Stamps(old(windows), key), rate, now)]
      ensures sleep == if Grants(Stamps(old(windows), key), rate, now) then None
                       else Some(SleepFor(Stamps(old(windows), key), rate, now))
    {
      var stamps := if key in windows then windows[key] else [];
      var window: seq<real> := [];
      for i := 0 to |stamps|
        invariant window == Fresh(stamps[..i], now)
      {
        if now - stamps[i] < WINDOW {
          window := window + [stamps[i]];
        }
        assert stamps[..i + 1][..i] == stamps[..i];
      }
      assert stamps[..|stamps|] == stamps;
      if |window| < rate {
        window := window + [now];
        windows := windows[key := window];
        return None;
      }
      windows := windows[key := window];
      sleep := Some(MinR(WINDOW - (now - window[0]) + 0.01, WINDOW));
    }

    /** `_consume_rpm` with no other caller on the same key; `late` is how far each sleep overshoots. */
    method Consume(key: Key, rate: int, start: real, late: real) returns (sleeps: nat, now: real)
      requires late >= 0.0 && (rate > 0 ==> Bounded(Stamps(windows, key), rate, start))
      modifies this
      ensures rate <= 0 ==> windows == old(windows) && sleeps == 0
      ensures sleeps <= 1 && now <= start + WINDOW + late
      ensures rate > 0 ==> Stamps(windows, key) != [] && Stamps(windows, key)[|Stamps(windows, key)| - 1] == now
    {
      sleeps, now := 0, start;
      if rate <= 0 {
        return;
      }
      while true
        invariant sleeps <= 1 && now <= start + WINDOW + late && Bounded(Stamps(windows, key), rate, now)
        invariant sleeps == 0 ==> now == start
        invariant sleeps == 1 ==> Grants(Stamps(windows, key), rate, now)
        decreases 1 - sleeps
      {
        ghost var stamps := Stamps(windows, key);
        AttemptKeepsBounded(stamps, rate, now);
        var sleep := Attempt(key, rate, now);
        if sleep.None? {
          return;
        }
        OneSleepIsEnough(stamps, rate, now, now + sleep.value + late);
        sleeps, now := sleeps + 1, now + sleep.value + late;
      }
    }
  }

  // ---- one key ----

  ghost predicate Ascending(s: seq<real>) {
    forall i, j :: 0 <= i < j < |s| ==> s[i] <= s[j]
  }

  /** What every attempt at a fixed rate leaves behind. */
  ghost predicate Bounded(stamps: seq<real>, rate: int, now: real) {
    |stamps| <= rate && Ascending(stamps) && forall i :: 0 <= i < |stamps| ==> stamps[i] <= now
  }

  lemma {:induction false} AllStale(s: seq<real>, now: real)
    requires forall i :: 0 <= i < |s| ==> now - s[i] >= WINDOW
    ensures Fresh(s, now) == []
  {
    if s == [] {
    } else {
      AllStale(s[..|s| - 1], now);
    }
  }

  /** On ascending stamps, the fresh ones are a suffix. */
  lemma {:induction false} FreshIsSuffix(s: seq<real>, now: real) returns (k: nat)
    requires Ascending(s)
    ensures k <= |s| && Fresh(s, now) == s[k..]
    ensures forall i :: 0 <= i < k ==> now - s[i] >= WINDOW
    ensures forall i :: k <= i < |s| ==> now - s[i] < WINDOW
  {
    hide Ascending;
    k := |s|;
    if s == [] {
    } else {
      var n := |s| - 1;
      AscendingFront(s);
      if now - s[n] >= WINDOW {
        AllStale(s, now);
      } else {
        k := FreshIsSuffix(s[..n], now);
        assert s[..n][k..] + [s[n]] == s[k..];
        hide Fresh;
        assert forall i :: 0 <= i < n ==> s[..n][i] == s[i];
      }
    }
  }

  lemma AscendingFront(s: seq<real>)
    requires Ascending(s) && s != []
    ensures Ascending(s[..|s| - 1]) && forall i :: 0 <= i < |s| ==> s[i] <= s[|s| - 1]
  {
  }

  lemma AscendingAt(s: seq<real>, i: nat, j: nat)
    requires Ascending(s) && i <= j < |s|
    ensures s[i] <= s[j]
  {
  }

  lemma AttemptKeepsBounded(stamps: seq<real>, rate: int, now: real)
    requires rate > 0 && Bounded(stamps, rate, now)
    ensures Bounded(Attempted(stamps, rate, now), rate, now)
  {
    var k := FreshIsSuffix(stamps, now);
  }

  /** A refused caller who meets no other caller is granted after the sleep it was told to take. */
  lemma OneSleepIsEnough(stamps: seq<real>, rate: int, now: real, later: real)
    requires rate > 0 && Bounded(stamps, rate, now) && !Grants(stamps, rate, now)
    requires later >= now + SleepFor(stamps, rate, now)
    ensures 0.0 < SleepFor(stamps, rate, now) <= 60.0
    ensures Grants(Attempted(stamps, rate, now), rate, later)
    ensures Bounded(Attempted(stamps, rate, now), rate, later)
  {
    var k := FreshIsSuffix(stamps, now);
    var after := Attempted(stamps, rate, now);
    var j := FreshIsSuffix(after, later);
    assert later - after[0] >= WINDOW;
  }

  /** The sleep is no longer than it must be, a hundredth of a second aside: before that nobody is granted. */
  lemma SleepIsNeeded(stamps: seq<real>, rate: int, now: real, later: real)
    requires rate > 0 && Bounded(stamps, rate, now) && !Grants(stamps, rate, now)
    requires now <= later < now + SleepFor(stamps, rate, now) - 0.01
    ensures !Grants(Attempted(stamps, rate, now), rate, later)
  {
    var k := FreshIsSuffix(stamps, now);
    var young := Fresh(stamps, now);
    assert later - young[0] < 60.0;
    AllFresh(young, later);
  }

  lemma {:induction false} AllFresh(s: seq<real>, now: real)
    requires forall i :: 0 <= i < |s| ==> now - s[i] < WINDOW
    ensures Fresh(s, now) == s
  {
    if s == [] {
    } else {
      AllFresh(s[..|s| - 1], now);
      assert s == s[..|s| - 1] + [s[|s| - 1]];
    }
  }

  // ---- runs of many callers ----

  datatype Try = Try(key: Key, rate: int, now: real)

  function Windows(run: seq<Try>): map<Key, seq<real>> {
    if run == [] then map[]
    else
      var before, t := Windows(run[..|run| - 1]), run[|run| - 1];
      if t.rate <= 0 then before else before[t.key := Attempted(Stamps(before, t.key), t.rate, t.now)]
  }

  predicate Granted(run: seq<Try>, i: nat)
    requires i < |run|
  {
    run[i].rate <= 0 || Grants(Stamps(Windows(run[..i]), run[i].key), run[i].rate, run[i].now)
  }

  /** The times at which callers of `key` were let through, oldest first. */
  function GrantsOf(run: seq<Try>, key: Key): seq<real> {
    if run == [] then []
    else
      var n := |run| - 1;
      if run[n].key == key && Granted(run, n) then GrantsOf(run[..n], key) + [run[n].now] else GrantsOf(run[..n], key)
  }

  /** The lock orders the attempts, and the clock never goes back. */
  ghost predicate Monotone(run: seq<Try>) {
    forall i, j :: 0 <= i < j < |run| ==> run[i].now <= run[j].now
  }

  ghost predicate FixedRate(run: seq<Try>, key: Key, rate: int) {
    forall i :: 0 <= i < |run| && run[i].key == key ==> run[i].rate == rate
  }

  /** The stored window is the tail of the grants, and everything before it is a minute old. */
  ghost predicate Tracks(stamps: seq<real>, grants: seq<real>, rate: int, now: real) {
    && Bounded(stamps, rate, now) && Ascending(grants)
    && |stamps| <= |grants| && stamps == grants[|grants| - |stamps|..]
    && (forall i :: 0 <= i < |grants| - |stamps| ==> now - grants[i] >= WINDOW)
    && Spaced(grants, rate)
  }

  /** Every grant comes at least a minute after the one `rate` places before it. */
  ghost predicate Spaced(grants: seq<real>, rate: int) {
    forall i, j :: 0 <= i < j < |grants| && j - i == rate ==> grants[j] - grants[i] >= WINDOW
  }

  lemma AscendingMore(grants: seq<real>, now: real)
    requires Ascending(grants) && forall i :: 0 <= i < |grants| ==> grants[i] <= now
    ensures Ascending(grants + [now])
  {
  }

  lemma SpacedMore(grants: seq<real>, rate: int, now: real)
    requires rate > 0 && Spaced(grants, rate) && (|grants| >= rate ==> now - grants[|grants| - rate] >= WINDOW)
    ensures Spaced(grants + [now], rate)
  {
  }

  /** Fresh stamps and everything else about the grants, after `k` stamps went stale. */
  lemma OlderGrants(stamps: seq<real>, grants: seq<real>, k: nat, now: real)
    requires |stamps| <= |grants| && stamps == grants[|grants| - |stamps|..] && k <= |stamps|
    requires forall i :: 0 <= i < |grants| - |stamps| ==> now - grants[i] >= WINDOW
    requires forall i :: 0 <= i < k ==> now - stamps[i] >= WINDOW
    requires forall i :: 0 <= i < |stamps| ==> stamps[i] <= now
    ensures stamps[k..] == grants[|grants| - |stamps[k..]|..]
    ensures forall i :: 0 <= i < |grants| - |stamps[k..]| ==> now - grants[i] >= WINDOW
    ensures forall i :: 0 <= i < |grants| ==> grants[i] <= now
  {
    var skipped := |grants| - |stamps|;
    forall i | skipped <= i < |grants| ensures grants[i] == stamps[i - skipped] {
    }
  }

  lemma AttemptTracks(stamps: seq<real>, grants: seq<real>, rate: int, now: real)
    requires rate > 0 && Tracks(stamps, grants, rate, now)
    ensures Tracks(Attempted(stamps, rate, now), if Grants(stamps, rate, now) then grants + [now] else grants, rate, now)
  {
    hide Fresh, Ascending, Spaced, Bounded;
    var k := StampsAre(stamps, rate, now);
    OlderGrants(stamps, grants, k, now);
    AttemptKeepsBounded(stamps, rate, now);
    if Grants(stamps, rate, now) {
      AscendingMore(grants, now);
      SpacedMore(grants, rate, now);
      assert stamps[k..] + [now] == (grants + [now])[|grants| - |stamps[k..]|..];
    }
  }

  lemma StampsAre(stamps: seq<real>, rate: int, now: real) returns (k: nat)
    requires Bounded(stamps, rate, now)
    ensures k <= |stamps| && Fresh(stamps, now) == stamps[k..] && |stamps| <= rate
    ensures forall i :: 0 <= i < k ==> now - stamps[i] >= WINDOW
    ensures forall i :: 0 <= i < |stamps| ==> stamps[i] <= now
  {
    k := FreshIsSuffix(stamps, now);
  }

  lemma {:induction false} RunTracks(run: seq<Try>, key: Key, rate: int, now: real)
    requires Monotone(run) && FixedRate(run, key, rate) && rate > 0
    requires forall i :: 0 <= i < |run| ==> run[i].now <= now
    ensures Tracks(Stamps(Windows(run), key), GrantsOf(run, key), rate, now)
  {
    hide Fresh, Grants, Attempted, Tracks;
    if run == [] {
      NothingTracked(rate, now);
    } else {
      var n := |run| - 1;
      var front, t := run[..n], run[n];
      RunTracks(front, key, rate, t.now);
      if t.key == key {
        AttemptTracks(Stamps(Windows(front), key), GrantsOf(front, key), rate, t.now);
      }
      TracksLater(Stamps(Windows(run), key), GrantsOf(run, key), rate, t.now, now);
    }
  }

  lemma NothingTracked(rate: int, now: real)
    requires rate > 0
    ensures Tracks([], [], rate, now)
  {
  }

  lemma TracksLater(stamps: seq<real>, grants: seq<real>, rate: int, now: real, later: real)
    requires Tracks(stamps, grants, rate, now) && now <= later
    ensures Tracks(stamps, grants, rate, later)
  {
  }

  function CountIn(times: seq<real>, from: real): nat {
    if times == [] then 0
    else
      var n := |times| - 1;
      CountIn(times[..n], from) + if from <= times[n] < from + 60.0 then 1 else 0
  }

  lemma {:induction false} SpacedMeansFew(times: seq<real>, rate: int, from: real) returns (k: nat)
    requires rate > 0 && Ascending(times) && Spaced(times, rate)
    ensures k <= |times| && CountIn(times, from) <= rate
    ensures CountIn(times, from) <= |times| - k
    ensures forall i :: 0 <= i < k ==> times[i] < from
    ensures k < |times| ==> times[k] >= from
  {
    hide Ascending;
    k := 0;
    if times == [] {
    } else {
      var n := |times| - 1;
      AscendingFront(times);
      k := SpacedMeansFew(times[..n], rate, from);
      if k == n && times[n] < from {
        k := n + 1;
      }
      if k + rate <= n {
        AscendingAt(times, k, n - rate);
      }
    }
  }

  /** Over any run, however the callers interleave: a key with fixed rate R is granted at most R times in any
      half-open window of 60 seconds. */
  lemma BudgetHolds(run: seq<Try>, key: Key, rate: int, from: real)
    requires Monotone(run) && FixedRate(run, key, rate) && rate > 0
    ensures CountIn(GrantsOf(run, key), from) <= rate
  {
    if run != [] {
      RunTracks(run, key, rate, run[|run| - 1].now);
      var k := SpacedMeansFew(GrantsOf(run, key), rate, from);
    }
  }

  /** How many of the times are less than a minute before `now`. */
  function YoungerThanMinute(times: seq<real>, now: real): nat {
    CountOf(times, (t: real) => now - t < 60.0)
  }

  lemma {:induction false} FreshAreYounger(times: seq<real>, now: real)
    ensures |Fresh(times, now)| == YoungerThanMinute(times, now)
  {
    hide CountOf;
    var young := (t: real) => now - t < 60.0;
    if times == [] {
      CountNone(times, young);
    } else {
      FreshAreYounger(times[..|times| - 1], now);
      CountMore(times, young);
    }
  }

  lemma RoomAmongGrants(run: seq<Try>, i: nat)
    requires Monotone(run) && i < |run| && FixedRate(run, run[i].key, run[i].rate) && run[i].rate > 0
    ensures |Fresh(Stamps(Windows(run[..i]), run[i].key), run[i].now)| == |Fresh(GrantsOf(run[..i], run[i].key), run[i].now)|
  {
    hide Fresh, Windows, GrantsOf, Ascending, Spaced, Attempted;
    var key, rate, now := run[i].key, run[i].rate, run[i].now;
    RunTracks(run[..i], key, rate, now);
    var stamps, grants := Stamps(Windows(run[..i]), key), GrantsOf(run[..i], key);
    var k := FreshIsSuffix(stamps, now);
    var m := FreshIsSuffix(grants, now);
    SameTail(stamps, grants, k, m, now);
  }

  /** The budget is never stricter than that: a caller is let through exactly when fewer than R grants are
      less than a minute old. */
  lemma GrantedExactlyWhenRoom(run: seq<Try>, i: nat)
    requires Monotone(run) && i < |run| && FixedRate(run, run[i].key, run[i].rate)
    ensures Granted(run, i) <==> run[i].rate <= 0 || YoungerThanMinute(GrantsOf(run[..i], run[i].key), run[i].now) < run[i].rate
  {
    hide Fresh, Windows, GrantsOf, Monotone, FixedRate, YoungerThanMinute;
    FreshAreYounger(GrantsOf(run[..i], run[i].key), run[i].now);
    if run[i].rate > 0 {
      RoomAmongGrants(run, i);
    }
  }

  lemma SameTail(stamps: seq<real>, grants: seq<real>, k: nat, m: nat, now: real)
    requires |stamps| <= |grants| && stamps == grants[|grants| - |stamps|..] && k <= |stamps| && m <= |grants|
    requires forall i :: 0 <= i < |grants| - |stamps| ==> now - grants[i] >= WINDOW
    requires forall i :: 0 <= i < k ==> now - stamps[i] >= WINDOW
    requires forall i :: k <= i < |stamps| ==> now - stamps[i] < WINDOW
    requires forall i :: 0 <= i < m ==> now - grants[i] >= WINDOW
    requires forall i :: m <= i < |grants| ==> now - grants[i] < WINDOW
    ensures |stamps| - k == |grants| - m
  {
    var skipped := |grants| - |stamps|;
    assert forall i :: 0 <= i < |stamps| ==> grants[skipped + i] == stamps[i];
    var first := if m < |grants| then grants[m] else now;
    var a := if skipped <= m < |grants| then stamps[m - skipped] else now;
    var b := if skipped + k < |grants| then grants[skipped + k] else now;
  }

  // ---- hosts ----

  type Host = int

  function LastOf(last: map<Host, real>, host: Host): real {
    if host in last then last[host] else 0.0
  }

  class HostThrottle {
    const minInterval: real
    var last: map<Host, real>

    constructor (minInterval: real)
      ensures last == map[] && this.minInterval == minInterval
    {
      this.minInterval := minInterval;
      last := map[];
    }

    /** Holding the host's lock throughout; `late` is by how much the wake-up, or the final clock reading, overshoots. */
    method Wait(host: Host, now: real, late: real) returns (finished: real)
      requires late >= 0.0
      modifies this`last
      ensures finished == Finish(old(last), minInterval, Visit(host, now, late))
      ensures last == old(last)[host := finished]
    {
      finished := now;
      var elapsed := now - LastOf(last, host);
      if elapsed < minInterval {
        finished := finished + (minInterval - elapsed);
      }
      finished := finished + late;
      last := last[host := finished];
    }
  }

  datatype Visit = Visit(host: Host, now: real, late: real)

  function Finish(last: map<Host, real>, minInterval: real, v: Visit): real {
    var elapsed := v.now - LastOf(last, v.host);
    v.now + (if elapsed < minInterval then minInterval - elapsed else 0.0) + v.late
  }

  /** A wait lasts no longer than it must: its own lateness aside, it ends at the earliest time that is not before
      the call and respects the interval. */
  lemma WaitsNoLongerThanNeeded(last: map<Host, real>, minInterval: real, v: Visit, t: real)
    requires v.now <= t && (if v.host in last then t - last[v.host] >= minInterval else t >= minInterval)
    ensures Finish(last, minInterval, v) - v.late <= t
    ensures v.now <= Finish(last, minInterval, v) - v.late
    ensures v.host in last ==> Finish(last, minInterval, v) - v.late - last[v.host] >= minInterval
  {
  }

  function LastTimes(minInterval: real, visits: seq<Visit>): map<Host, real> {
    if visits == [] then map[]
    else
      var before, v := LastTimes(minInterval, visits[..|visits| - 1]), visits[|visits| - 1];
      before[v.host := Finish(before, minInterval, v)]
  }

  function Completion(minInterval: real, visits: seq<Visit>, i: nat): real
    requires i < |visits|
  {
    Finish(LastTimes(minInterval, visits[..i]), minInterval, visits[i])
  }

  lemma {:induction false} LastIsLatest(minInterval: real, visits: seq<Visit>, i: nat)
    requires i < |visits| && forall v :: v in visits ==> v.late >= 0.0
    requires minInterval >= 0.0
    ensures LastOf(LastTimes(minInterval, visits), visits[i].host) >= Completion(minInterval, visits, i)
  {
    var n := |visits| - 1;
    if i >= n {
    } else {
      LastIsLatest(minInterval, visits[..n], i);
      assert visits[..n][..i] == visits[..i];
      assert visits[n] in visits;
    }
  }

  /** Two waits for one host, in the order its lock admits them, complete at least the minimum interval apart. */
  lemma CompletionsAreSpaced(minInterval: real, visits: seq<Visit>, i: nat, j: nat)
    requires i < j < |visits| && visits[i].host == visits[j].host && minInterval >= 0.0
    requires forall v :: v in visits ==> v.late >= 0.0
    ensures Completion(minInterval, visits, j) - Completion(minInterval, visits, i) >= minInterval
  {
    LastIsLatest(minInterval, visits[..j], i);
    assert visits[..j][..i] == visits[..i];
    assert visits[j] in visits;
  }
}
