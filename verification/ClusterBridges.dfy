/** When the code's own merge keeps one location per cluster: exactly when the postings name at most one
    location, or at most one of them names none. */
module ClusterBridges {
  import opened Prelude
  import opened Text
  import opened DisjointSets
  import opened Clustering
  import opened ClusterTheory
  import opened ClusterLocations

  type Place = Option<string>

  function CountMissing(n: nat, l: Place): nat {
    if Known(l) then n else n + 1
  }

  /** How many postings lack a location. */
  function Missing(places: seq<Place>): nat {
    Fold(CountMissing, 0, places)
  }

  predicate NamesOne(places: seq<Place>) {
    forall i, j :: 0 <= i < |places| && 0 <= j < |places| ==> Compatible(places[i], places[j])
  }

  predicate Safe(places: seq<Place>) {
    Missing(places) <= 1 || NamesOne(places)
  }

  function Places(cs: seq<Candidate>): (r: seq<Place>) {
    seq(|cs|, i requires 0 <= i < |cs| => cs[i].location)
  }

  /** Whatever the order of postings with these locations, and whatever the evidence between them. */
  ghost predicate AlwaysOneLocation(cfg: Config, places: seq<Place>) {
    forall cs {:trigger Run(ByItem, cs, cfg)} ::
      multiset(Places(cs)) == multiset(places) && OneLocation(Locations(cs), AfterExactStages(ByItem, cs, cfg).part) ==>
      OneLocation(Locations(cs), Run(ByItem, cs, cfg).part)
  }

  // ---- safe inputs ----

  lemma {:induction false} MissingAt(places: seq<Place>, i: nat)
    requires i < |places| && !Known(places[i])
    ensures Missing(places) >= 1
  {
    if i >= |places| - 1 {
    } else {
      MissingAt(places[..|places| - 1], i);
    }
  }

  lemma {:induction false} TwoMissing(places: seq<Place>, i: nat, j: nat)
    requires i < j < |places| && !Known(places[i]) && !Known(places[j])
    ensures Missing(places) >= 2
  {
    if j < |places| - 1 {
      TwoMissing(places[..|places| - 1], i, j);
    } else {
      MissingAt(places[..j], i);
    }
  }

  lemma SafeMeansOne(cs: seq<Candidate>)
    requires Safe(Places(cs))
    ensures AtMostOneUnknown(Locations(cs)) || OneNamed(Locations(cs))
  {
    hide Locations;
    var home, places := Locations(cs), Places(cs);
    IdsExact(cs);
    if NamesOne(places) {
      forall x, y | x in home && y in home ensures Compatible(home[x], home[y]) {
        var i, j := IndexOf(cs, x), IndexOf(cs, y);
        assert Compatible(places[i], places[j]);
      }
    } else {
      forall x, y | x in home && y in home && !Known(home[x]) && !Known(home[y]) ensures x == y {
        var i, j := IndexOf(cs, x), IndexOf(cs, y);
        if i < j {
          TwoMissing(places, i, j);
        } else if j < i {
          TwoMissing(places, j, i);
        }
      }
    }
  }

  /** The posting that the dictionaries keep for an id. */
  ghost function IndexOf(cs: seq<Candidate>, x: Id): (i: nat)
    requires x in Locations(cs)
    ensures i < |cs| && cs[i].id == x && cs[i].location == Locations(cs)[x]
  {
    IdsExact(cs);
    ByIdExact(cs, x);
    var i: nat :| i < |cs| && cs[i] == ById(cs)[x];
    i
  }

  lemma SameMissing(a: seq<Place>, b: seq<Place>)
    requires multiset(a) == multiset(b)
    ensures Safe(a) <==> Safe(b)
  {
    FoldIgnoresOrder(CountMissing, 0, a, b);
    if NamesOne(a) {
      SameNames(a, b);
    }
    if NamesOne(b) {
      SameNames(b, a);
    }
  }

  lemma SameNames(a: seq<Place>, b: seq<Place>)
    requires multiset(a) == multiset(b) && NamesOne(a)
    ensures NamesOne(b)
  {
    forall i, j | 0 <= i < |b| && 0 <= j < |b| ensures Compatible(b[i], b[j]) {
      assert b[i] in multiset(b) && b[j] in multiset(b);
      assert b[i] in a && b[j] in a;
    }
  }

  // ---- the losing input ----

  function Tag(n: nat): (r: string)
    ensures |r| == n
  {
    if n == 0 then "" else Tag(n - 1) + "x"
  }

  /** The first four postings share a title in one block, two sources taking turns; all others share another
      block and one source, so nothing ties them. */
  function Bridge(i: nat, place: Place): Candidate {
    Candidate(i, if i >= 4 then "c" else if i % 2 == 0 then "a" else "b", Tag(i), if i < 4 then None else Some("c"), "",
              None, None, None, 0, place, false)
  }

  function Bridges(places: seq<Place>): (cs: seq<Candidate>)
    ensures |cs| == |places| && forall i :: 0 <= i < |cs| ==> cs[i] == Bridge(i, places[i])
  {
    seq(|places|, i requires 0 <= i < |places| => Bridge(i, places[i]))
  }

  predicate Bridging(places: seq<Place>) {
    |places| >= 4 && Known(places[0]) && !Known(places[1]) && !Known(places[2]) && Known(places[3]) && places[0] != places[3]
  }

  lemma BridgeEvidence(cfg: Config, places: seq<Place>, i: nat, j: nat)
    requires i < j < 4 <= |places|
    ensures TextEvidence(cfg, Bridges(places)[i], Bridges(places)[j]) == if j == i + 2 then None else Some(TitleExact)
  {
  }

  /** Where the first four postings are: 1 joined to 0 or not, 2 joined to 0 or not, 3 alone; and what the entries say. */
  ghost predicate Crossing(st: State, places: seq<Place>, joined: nat, entry: Place)
    requires |places| >= 4
  {
    && Ready(st) && (forall i :: 0 <= i < 4 ==> i in st.part.rep && i in st.part.size)
    && st.part.rep[0] == 0 && st.part.rep[3] == 3 && st.part.size[3] == 1
    && st.part.rep[1] == (if joined >= 1 then 0 else 1) && st.part.rep[2] == (if joined >= 2 then 0 else 2)
    && st.part.size[0] == joined + 1 && (joined == 0 ==> st.part.size[1] == 1) && (joined < 2 ==> st.part.size[2] == 1)
    && st.loc[0] == entry && st.loc[1] == places[1] && st.loc[2] == places[2] && st.loc[3] == places[3]
  }

  lemma FirstCrossing(cfg: Config, places: seq<Place>, st: State)
    requires Bridging(places) && Crossing(st, places, 0, places[0])
    ensures Crossing(TextPair(ByItem, cfg, st, Bridges(places)[0], Bridges(places)[1]), places, 1, places[0])
  {
    hide TextEvidence, Closed;
    BridgeEvidence(cfg, places, 0, 1);
    JoinClosed(st.part, 0, 1);
  }

  lemma SecondCrossing(cfg: Config, places: seq<Place>, st: State)
    requires Bridging(places) && Crossing(st, places, 1, places[0])
    ensures Crossing(TextPair(ByItem, cfg, st, Bridges(places)[1], Bridges(places)[2]), places, 2, places[2])
  {
    hide TextEvidence, Closed;
    BridgeEvidence(cfg, places, 1, 2);
    JoinClosed(st.part, 1, 2);
  }

  lemma LastCrossing(cfg: Config, places: seq<Place>, st: State)
    requires Bridging(places) && Crossing(st, places, 2, places[2])
    ensures Same(TextPair(ByItem, cfg, st, Bridges(places)[2], Bridges(places)[3]).part, 0, 3)
  {
    hide TextEvidence, Closed;
    BridgeEvidence(cfg, places, 2, 3);
  }

  lemma NoCrossing(cfg: Config, places: seq<Place>, st: State, i: nat, j: nat, joined: nat)
    requires Bridging(places) && i < j < 4
    requires j == i + 2 || (i == 0 && j == 3 && Crossing(st, places, joined, places[0]))
    requires Ready(st) && i in st.part.rep && j in st.part.rep
    ensures TextPair(ByItem, cfg, st, Bridges(places)[i], Bridges(places)[j]) == st
  {
    hide TextEvidence, Closed;
    BridgeEvidence(cfg, places, i, j);
  }

  lemma CrossingRun(cfg: Config, places: seq<Place>, st: State)
    requires Bridging(places) && Ready(st) && Crossing(st, places, 0, places[0]) && AllIn(Bridges(places)[..4], Items(st))
    ensures Same(TextBlock(ByItem, cfg, st, Bridges(places)[..4], 0).part, 0, 3)
  {
    hide TextPair, Closed, Bridges, Crossing;
    var block := Bridges(places)[..4];
    assert forall i :: 0 <= i < 4 ==> block[i].id in Items(st);
    var s1 := TextPair(ByItem, cfg, st, block[0], block[1]);
    FirstCrossing(cfg, places, st);
    NoCrossing(cfg, places, s1, 0, 2, 1);
    NoCrossing(cfg, places, s1, 0, 3, 1);
    var s2 := TextPair(ByItem, cfg, s1, block[1], block[2]);
    SecondCrossing(cfg, places, s1);
    NoCrossing(cfg, places, s2, 1, 3, 2);
    var s3 := TextPair(ByItem, cfg, s2, block[2], block[3]);
    LastCrossing(cfg, places, s2);
    assert TextRow(ByItem, cfg, st, block, 0, 1) == TextRow(ByItem, cfg, s1, block, 0, 2);
    assert TextRow(ByItem, cfg, s1, block, 0, 2) == TextRow(ByItem, cfg, s1, block, 0, 3) == s1;
    assert TextRow(ByItem, cfg, s1, block, 1, 2) == TextRow(ByItem, cfg, s2, block, 1, 3) == s2;
    assert TextRow(ByItem, cfg, s2, block, 2, 3) == TextRow(ByItem, cfg, s3, block, 2, 4) == s3;
    assert TextBlock(ByItem, cfg, st, block, 0) == TextBlock(ByItem, cfg, s1, block, 1);
    assert TextBlock(ByItem, cfg, s1, block, 1) == TextBlock(ByItem, cfg, s2, block, 2);
    assert TextBlock(ByItem, cfg, s2, block, 2) == TextBlock(ByItem, cfg, s3, block, 3);
    assert TextBlock(ByItem, cfg, s3, block, 3) == TextBlock(ByItem, cfg, s3, block, 4) == s3;
  }

  // ---- around the first block ----

  lemma {:induction false} BridgeIds(places: seq<Place>, n: nat)
    requires n <= |places|
    ensures forall i :: 0 <= i < n ==> i in Locations(Bridges(places)[..n]) && Locations(Bridges(places)[..n])[i] == places[i]
  {
    if n == 0 {
      assert Bridges(places)[..0] == [];
    } else {
      BridgeIds(places, n - 1);
      assert Bridges(places)[..n][..n - 1] == Bridges(places)[..n - 1];
    }
  }

  lemma StartsCrossing(places: seq<Place>)
    requires Bridging(places)
    ensures Crossing(Init(Bridges(places)), places, 0, places[0])
    ensures AllIn(Bridges(places)[..4], Items(Init(Bridges(places))))
  {
    hide Locations, Closed;
    var cs := Bridges(places);
    BridgeIds(places, |places|);
    assert cs[..|places|] == cs;
    IdsExact(cs);
    assert forall i :: 0 <= i < 4 ==> i in Locations(cs);
  }

  lemma BridgesStartApart(rule: LocationRule, places: seq<Place>, cfg: Config)
    ensures AfterExactStages(rule, Bridges(places), cfg) == Init(Bridges(places))
    ensures OneLocation(Locations(Bridges(places)), Init(Bridges(places)).part)
  {
    hide Locations, AfterExactStages;
    var cs := Bridges(places);
    forall i, j | 0 <= i < j < |cs| ensures cs[i].externalId != cs[j].externalId {
      assert |cs[i].externalId| == i && |cs[j].externalId| == j;
    }
    ExactStagesDoNothing(rule, cs, cfg);
    SingletonsSound(Elements(Ids(cs)));
  }

  lemma {:induction false} FirstKey<T, K>(items: seq<T>, key: T -> Option<K>)
    requires items != [] && key(items[0]).Some?
    ensures KeysOf(items, key) != [] && KeysOf(items, key)[0] == key(items[0]).value
  {
    if |items| <= 1 {
    } else {
      FirstKey(items[..|items| - 1], key);
    }
  }

  lemma {:induction false} BucketOfPrefix<T, K>(items: seq<T>, key: T -> Option<K>, k: K, n: nat)
    requires n <= |items|
    requires forall i :: 0 <= i < |items| ==> (key(items[i]) == Some(k) <==> i < n)
    ensures Bucket(items, key, k) == items[..n]
  {
    if n < |items| {
      BucketOfPrefix(items[..|items| - 1], key, k, n);
    } else {
      OneKeyOneBucket(items, key, k);
      assert items[..n] == items;
    }
  }

  lemma KeysDiffer(title: string, n: int)
    ensures BlockingKey(None, title, n) != BlockingKey(Some("c"), title, n)
  {
    hide Words, Joined;
    assert BlockingKey(None, title, n)[0] == '?' && BlockingKey(Some("c"), title, n)[0] == 'c';
  }

  lemma FirstGroup(places: seq<Place>, cfg: Config)
    requires |places| >= 4
    ensures var groups := GroupsOf(Bridges(places), BlockKey(cfg)); groups != [] && groups[0] == Bridges(places)[..4]
  {
    hide BlockingKey, KeysOf, Bucket;
    var cs, key := Bridges(places), BlockKey(cfg);
    KeysDiffer("", cfg.titleTokens);
    FirstKey(cs, key);
    BucketOfPrefix(cs, key, key(cs[0]).value, 4);
  }

  /** Two postings without a location between two different cities: whatever the thresholds, the run joins them. */
  lemma BridgesLoseLocation(cfg: Config, places: seq<Place>)
    requires Bridging(places)
    ensures OneLocation(Locations(Bridges(places)), AfterExactStages(ByItem, Bridges(places), cfg).part)
    ensures !OneLocation(Locations(Bridges(places)), Run(ByItem, Bridges(places), cfg).part)
  {
    hide Inv, Coarser, Settled, Drawn, BlockSettled, Init, AfterExactStages, Bridges, TextBlock, GroupsOf, Crossing, Locations;
    var cs := Bridges(places);
    var st, blocks := Init(cs), GroupsOf(cs, BlockKey(cfg));
    BridgesStartApart(ByItem, places, cfg);
    StartsCrossing(places);
    FirstGroup(places, cfg);
    InitInv(cs, cfg);
    GroupsAllIn(cs, BlockKey(cfg), Items(st));
    GroupsDrawn(cs, cfg);
    var next := TextBlock(ByItem, cfg, st, blocks[0], 0);
    BlockKeeps(ByItem, cs, cfg, st, blocks[0], 0);
    BlocksKeep(ByItem, cs, cfg, next, blocks, 1);
    CrossingRun(cfg, places, st);
    StaysSame(next.part, Run(ByItem, cs, cfg).part, 0, 3);
    CitiesMeet(places, Run(ByItem, cs, cfg).part);
  }

  lemma GroupsDrawn(cs: seq<Candidate>, cfg: Config)
    ensures forall i :: 0 <= i < |GroupsOf(cs, BlockKey(cfg))| ==> Drawn(cs, cfg, GroupsOf(cs, BlockKey(cfg))[i])
  {
    hide Drawn;
    var groups := GroupsOf(cs, BlockKey(cfg));
    forall i | 0 <= i < |groups| ensures Drawn(cs, cfg, groups[i]) {
      BlockDrawn(cs, cfg, KeysOf(cs, BlockKey(cfg))[i]);
    }
  }

  lemma CitiesMeet(places: seq<Place>, p: Partition)
    requires Bridging(places) && Same(p, 0, 3)
    ensures !OneLocation(Locations(Bridges(places)), p)
  {
    hide Locations;
    BridgeIds(places, |places|);
    assert Bridges(places)[..|places|] == Bridges(places);
  }

  // ---- every unsafe choice of locations can be lost ----

  lemma TakeOut(places: seq<Place>, k: nat) returns (rest: seq<Place>)
    requires k < |places|
    ensures multiset(places) == multiset(rest) + multiset{places[k]} && |rest| == |places| - 1
    ensures Missing(rest) == Missing(places) - if Known(places[k]) then 0 else 1
  {
    rest := Without(places, k);
    WithoutIsLess(places, k);
    FoldTakesAnyLast(CountMissing, 0, places, k);
  }

  lemma {:induction false} FindMissing(places: seq<Place>) returns (k: nat)
    requires Missing(places) >= 1
    ensures k < |places| && !Known(places[k])
  {
    if Known(places[|places| - 1]) {
      k := FindMissing(places[..|places| - 1]);
    } else {
      k := |places| - 1;
    }
  }

  lemma FindElement(places: seq<Place>, x: Place) returns (k: nat)
    requires x in multiset(places)
    ensures k < |places| && places[k] == x
  {
    assert x in places;
    k :| 0 <= k < |places| && places[k] == x;
  }

  lemma Rearrange(places: seq<Place>) returns (front: seq<Place>)
    requires !Safe(places)
    ensures multiset(front) == multiset(places) && Bridging(front)
  {
    hide Missing;
    var i: nat, j: nat :| i < |places| && j < |places| && !Compatible(places[i], places[j]);
    var x, y := places[i], places[j];
    var r1 := TakeOut(places, i);
    StillThere(places, r1, x, y, j);
    var m := FindElement(r1, y);
    var r2 := TakeOut(r1, m);
    var k := FindMissing(r2);
    var r3 := TakeOut(r2, k);
    var n := FindMissing(r3);
    var r4 := TakeOut(r3, n);
    front := [x, r2[k], r3[n], y] + r4;
    FourBack(places, r1, r2, r3, r4, x, y, r2[k], r3[n]);
  }

  lemma StillThere<T>(s: seq<T>, rest: seq<T>, x: T, y: T, j: nat)
    requires multiset(s) == multiset(rest) + multiset{x} && x != y && j < |s| && s[j] == y
    ensures y in multiset(rest)
  {
    assert y in multiset(s);
  }

  lemma FourBack<T>(s: seq<T>, r1: seq<T>, r2: seq<T>, r3: seq<T>, r4: seq<T>, x: T, y: T, u: T, v: T)
    requires multiset(s) == multiset(r1) + multiset{x} && multiset(r1) == multiset(r2) + multiset{y}
    requires multiset(r2) == multiset(r3) + multiset{u} && multiset(r3) == multiset(r4) + multiset{v}
    ensures multiset([x, u, v, y] + r4) == multiset(s)
  {
    Heads(x, u, v, y, r4);
    Regroup(multiset(r4), multiset{x}, multiset{u}, multiset{v}, multiset{y});
  }

  lemma Heads<T>(x: T, u: T, v: T, y: T, r: seq<T>)
    ensures multiset([x, u, v, y] + r) == multiset{x} + (multiset{u} + (multiset{v} + (multiset{y} + multiset(r))))
  {
    Head(y, r);
    Head(v, [y] + r);
    Head(u, [v] + ([y] + r));
    Head(x, [u] + ([v] + ([y] + r)));
    FourHeads(x, u, v, y, r);
  }

  lemma Head<T>(x: T, r: seq<T>)
    ensures multiset([x] + r) == multiset{x} + multiset(r)
  {
    assert multiset([x]) == multiset{x};
  }

  lemma FourHeads<T>(x: T, u: T, v: T, y: T, r: seq<T>)
    ensures [x, u, v, y] + r == [x] + ([u] + ([v] + ([y] + r)))
  {
  }

  lemma Regroup<T>(m: multiset<T>, x: multiset<T>, u: multiset<T>, v: multiset<T>, y: multiset<T>)
    ensures x + (u + (v + (y + m))) == m + v + u + y + x
  {
  }

  /** The exact condition, on the locations alone: whatever the order of the postings and the evidence between
      them, the merge as written keeps one location per cluster if and only if at most one posting lacks a
      location or at most one location is named. */
  lemma OneLocationIffSafe(cfg: Config, places: seq<Place>)
    ensures AlwaysOneLocation(cfg, places) <==> Safe(places)
  {
    hide Run, AfterExactStages, Locations, Safe, Bridges;
    if Safe(places) {
      forall cs {:trigger Run(ByItem, cs, cfg)} |
        multiset(Places(cs)) == multiset(places) && OneLocation(Locations(cs), AfterExactStages(ByItem, cs, cfg).part)
        ensures OneLocation(Locations(cs), Run(ByItem, cs, cfg).part)
      {
        SameMissing(Places(cs), places);
        SafeMeansOne(cs);
        OneLocationPerCluster(ByItem, cs, cfg);
      }
    } else {
      var front := Rearrange(places);
      BridgesLoseLocation(cfg, front);
      BridgePlaces(front);
      var run := Run(ByItem, Bridges(front), cfg);
    }
  }

  lemma BridgePlaces(places: seq<Place>)
    ensures Places(Bridges(places)) == places
  {
  }
}
