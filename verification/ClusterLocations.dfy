/** At most one known location per cluster: what `merge` must record, what the code records, and where
    the difference loses a location. */
module ClusterLocations {
  import opened Prelude
  import opened DisjointSets
  import opened Clustering
  import opened ClusterTheory
  import SimHash

  type Home = map<Id, Option<string>>

  /** No cluster holds two different known locations. */
  ghost predicate OneLocation(home: Home, p: Partition) {
    forall u, v {:trigger Same(p, u, v)} :: Same(p, u, v) && u in home && v in home ==> Compatible(home[u], home[v])
  }

  ghost predicate RecordedFor(home: Home, st: State, u: Id)
    requires Ready(st) && u in st.part.rep && u in home
  {
    Known(home[u]) ==> RootLocation(st, u) == home[u]
  }

  /** The entry at every root is the location its members agree on. */
  ghost predicate Recorded(home: Home, st: State)
    requires Ready(st)
  {
    forall u {:trigger RecordedFor(home, st, u)} :: u in home && u in st.part.rep ==> RecordedFor(home, st, u)
  }

  lemma RecordedIsOneLocation(home: Home, st: State)
    requires Ready(st) && Recorded(home, st)
    ensures OneLocation(home, st.part)
  {
    forall u, v | Same(st.part, u, v) && u in home && v in home ensures Compatible(home[u], home[v]) {
      assert RecordedFor(home, st, u) && RecordedFor(home, st, v);
    }
  }

  lemma KnownEntryIsRootEntry(home: Home, st: State, x: Id)
    requires Ready(st) && Backed(home, st) && Recorded(home, st) && x in st.part.rep && Known(st.loc[x])
    ensures RootLocation(st, x) == st.loc[x]
  {
    assert Carried(home, st.part, x, st.loc[x]);
    var u :| Same(st.part, u, x) && u in home && home[u] == st.loc[x];
    assert RecordedFor(home, st, u);
  }

  lemma KnownRootHasMember(home: Home, st: State, x: Id) returns (u: Id)
    requires Ready(st) && Backed(home, st) && x in st.part.rep && Known(RootLocation(st, x))
    ensures Same(st.part, u, x) && u in home && home[u] == RootLocation(st, x)
  {
    assert Represented(st.part.rep, x);
    var r := st.part.rep[x];
    assert Carried(home, st.part, r, st.loc[r]);
    u :| Same(st.part, u, r) && u in home && home[u] == st.loc[r];
  }

  /** Does the dictionary entry the code consults speak for the class? */
  predicate EntriesSpeak(rule: LocationRule, st: State, a: Id, b: Id)
    requires Ready(st) && a in st.part.rep && b in st.part.rep
  {
    || Known(LocationFor(rule, st, a)) || Known(LocationFor(rule, st, b))
    || (!Known(RootLocation(st, a)) && !Known(RootLocation(st, b)))
  }

  lemma NewRootEntry(rule: LocationRule, st: State, a: Id, b: Id, r: Reason, u: Id)
    requires Ready(st) && Sound(st.part) && a in st.part.rep && b in st.part.rep && u in st.part.rep
    requires !Same(st.part, a, b)
    ensures var next := Merge(rule, st, a, b, r);
            RootLocation(next, u) == if Same(st.part, u, a) || Same(st.part, u, b)
              then OrElse(LocationFor(rule, st, a), LocationFor(rule, st, b)) else RootLocation(st, u)
  {
    assert Represented(st.part.rep, a) && Represented(st.part.rep, b) && Represented(st.part.rep, u);
  }

  /** The exact condition under which one permitted merge keeps the record true. With roots consulted, as
      the comment asks, it always holds; with the items consulted it is a real restriction. */
  lemma MergeKeepsRecordIff(rule: LocationRule, home: Home, st: State, a: Id, b: Id, r: Reason)
    requires Ready(st) && Sound(st.part) && Backed(home, st) && Recorded(home, st) && home.Keys == Items(st)
    requires a in st.part.rep && b in st.part.rep && !Same(st.part, a, b)
    requires Compatible(RootLocation(st, a), RootLocation(st, b))
    ensures Recorded(home, Merge(rule, st, a, b, r)) <==> EntriesSpeak(rule, st, a, b)
    ensures rule.ByRoot? ==> EntriesSpeak(rule, st, a, b)
  {
    hide Sized, Join;
    var next := Merge(rule, st, a, b, r);
    forall u | u in st.part.rep ensures
        RootLocation(next, u) == if Same(st.part, u, a) || Same(st.part, u, b)
          then OrElse(LocationFor(rule, st, a), LocationFor(rule, st, b)) else RootLocation(st, u) {
      NewRootEntry(rule, st, a, b, r, u);
    }
    if EntriesSpeak(rule, st, a, b) {
      forall x | x == a || x == b ensures Known(LocationFor(rule, st, x)) ==> LocationFor(rule, st, x) == RootLocation(st, x) {
        if Known(st.loc[x]) {
          KnownEntryIsRootEntry(home, st, x);
        }
      }
      forall u | u in home ensures RecordedFor(home, next, u) {
        assert RecordedFor(home, st, u);
      }
    } else {
      var x := if Known(RootLocation(st, a)) then a else b;
      var u := KnownRootHasMember(home, st, x);
      assert !RecordedFor(home, next, u);
    }
  }

  // ---- whole runs ----

  predicate AtMostOneUnknown(home: Home) {
    forall x, y :: x in home && y in home && !Known(home[x]) && !Known(home[y]) ==> x == y
  }

  predicate OneNamed(home: Home) {
    forall x, y :: x in home && y in home ==> Compatible(home[x], home[y])
  }

  /** The record stays true when roots are consulted, and also while at most one entry is unknown: of two items
      merged, one then names the location. */
  ghost predicate Tracks(rule: LocationRule, home: Home, st: State) {
    Ready(st) && Recorded(home, st) && (rule.ByItem? ==> AtMostOneUnknown(st.loc))
  }

  lemma MergeTracks(rule: LocationRule, cs: seq<Candidate>, cfg: Config, st: State, a: Id, b: Id, r: Reason)
    requires Inv(cs, cfg, st) && Tracks(rule, Locations(cs), st)
    requires a in st.part.rep && b in st.part.rep
    requires !Same(st.part, a, b) ==> Compatible(RootLocation(st, a), RootLocation(st, b))
    ensures Tracks(rule, Locations(cs), Merge(rule, st, a, b, r))
  {
    hide Within, Reasoned, Sized;
    IdsExact(cs);
    if !Same(st.part, a, b) {
      MergeKeepsRecordIff(rule, Locations(cs), st, a, b, r);
    }
  }

  /** Joining two classes that stay free of conflict means their roots' entries agree. */
  lemma CompatibleRoots(cs: seq<Candidate>, cfg: Config, st: State, q: Partition, a: Id, b: Id)
    requires Inv(cs, cfg, st) && Ready(st) && a in st.part.rep && b in st.part.rep
    requires Coarser(st.part, q) && Same(q, a, b) && OneLocation(Locations(cs), q)
    ensures Compatible(RootLocation(st, a), RootLocation(st, b))
  {
    hide Within, Reasoned, Sized;
    var home := Locations(cs);
    if Known(RootLocation(st, a)) && Known(RootLocation(st, b)) {
      var u := KnownRootHasMember(home, st, a);
      var v := KnownRootHasMember(home, st, b);
      assert Same(q, u, a) && Same(q, v, b);
      assert Same(q, u, v);
    }
  }

  lemma FinerOneLocation(home: Home, p: Partition, q: Partition)
    requires Coarser(p, q) && OneLocation(home, q)
    ensures OneLocation(home, p)
  {
    forall u, v | Same(p, u, v) && u in home && v in home ensures Compatible(home[u], home[v]) {
      assert Same(q, u, v);
    }
  }

  lemma {:induction false} StarTracks(rule: LocationRule, cs: seq<Candidate>, cfg: Config, st: State,
                                      group: seq<Candidate>, k: nat, r: Reason)
    requires Inv(cs, cfg, st) && Ready(st) && AllIn(group, Items(st)) && 1 <= k && StarTied(cs, cfg, r, group)
    requires Tracks(rule, Locations(cs), st)
    requires OneLocation(Locations(cs), MergeStar(rule, st, group, k, r).part)
    ensures Tracks(rule, Locations(cs), MergeStar(rule, st, group, k, r))
    decreases |group| - k
  {
    hide Inv, Coarser, Closed, Merge, OneLocation, Tracks, Same, RootLocation, Tied, Locations, Compatible;
    if k >= |group| {
    } else {
      var a, b := group[0].id, group[k].id;
      var next := Merge(rule, st, a, b, r);
      MergeKeeps(rule, cs, cfg, st, group[0], group[k], r);
      StarKeeps(rule, cs, cfg, next, group, k + 1, r);
      FinerOneLocation(Locations(cs), next.part, MergeStar(rule, next, group, k + 1, r).part);
      CompatibleRoots(cs, cfg, st, next.part, a, b);
      MergeTracks(rule, cs, cfg, st, a, b, r);
      StarTracks(rule, cs, cfg, next, group, k + 1, r);
    }
  }

  lemma {:induction false} GroupsTrack(rule: LocationRule, cs: seq<Candidate>, cfg: Config, st: State,
                                       groups: seq<seq<Candidate>>, g: nat, cap: Option<int>, r: Reason)
    requires Inv(cs, cfg, st) && Ready(st) && EachAllIn(groups, Items(st))
    requires forall i :: 0 <= i < |groups| && (cap.None? || |groups[i]| <= cap.value) ==> StarTied(cs, cfg, r, groups[i])
    requires Tracks(rule, Locations(cs), st)
    requires OneLocation(Locations(cs), MergeGroups(rule, st, groups, g, cap, r).part)
    ensures Tracks(rule, Locations(cs), MergeGroups(rule, st, groups, g, cap, r))
    decreases |groups| - g
  {
    hide Inv, Coarser, Closed, MergeStar, OneLocation, Tracks, StarTied, Same;
    if g >= |groups| {
    } else {
      if cap.Some? && |groups[g]| > cap.value {
        GroupsTrack(rule, cs, cfg, st, groups, g + 1, cap, r);
      } else {
        var next := MergeStar(rule, st, groups[g], 1, r);
        StarKeeps(rule, cs, cfg, st, groups[g], 1, r);
        GroupsKeep(rule, cs, cfg, next, groups, g + 1, cap, r);
        FinerOneLocation(Locations(cs), next.part, MergeGroups(rule, next, groups, g + 1, cap, r).part);
        StarTracks(rule, cs, cfg, st, groups[g], 1, r);
        GroupsTrack(rule, cs, cfg, next, groups, g + 1, cap, r);
      }
    }
  }

  lemma PairTracks(rule: LocationRule, cs: seq<Candidate>, cfg: Config, st: State, a: Candidate, b: Candidate)
    requires Inv(cs, cfg, st) && Ready(st) && a.id in st.part.rep && b.id in st.part.rep
    requires Tracks(rule, Locations(cs), st)
    ensures Tracks(rule, Locations(cs), TextPair(rule, cfg, st, a, b))
  {
    hide Inv, Closed, Tracks, Merge, TextEvidence;
    if TextEvidence(cfg, a, b).Some? && Compatible(RootLocation(st, a.id), RootLocation(st, b.id)) {
      MergeTracks(rule, cs, cfg, st, a.id, b.id, TextEvidence(cfg, a, b).value);
    }
  }

  lemma {:induction false} RowTracks(rule: LocationRule, cs: seq<Candidate>, cfg: Config, st: State,
                                     block: seq<Candidate>, i: nat, j: nat)
    requires Inv(cs, cfg, st) && Ready(st) && AllIn(block, Items(st)) && i < |block| && i < j && Drawn(cs, cfg, block)
    requires Tracks(rule, Locations(cs), st)
    ensures Tracks(rule, Locations(cs), TextRow(rule, cfg, st, block, i, j))
    decreases |block| - j
  {
    hide Inv, Closed, Tracks, TextPair, InOrder, SameBlock, Locations, Settled, Coarser;
    if j >= |block| {
    } else {
      var a, b := block[i], block[j];
      PairTracks(rule, cs, cfg, st, a, b);
      PairKeeps(rule, cs, cfg, st, a, b);
      RowTracks(rule, cs, cfg, TextPair(rule, cfg, st, a, b), block, i, j + 1);
    }
  }

  lemma {:induction false} BlockTracks(rule: LocationRule, cs: seq<Candidate>, cfg: Config, st: State,
                                       block: seq<Candidate>, i: nat)
    requires Inv(cs, cfg, st) && Ready(st) && AllIn(block, Items(st)) && Drawn(cs, cfg, block)
    requires Tracks(rule, Locations(cs), st)
    ensures Tracks(rule, Locations(cs), TextBlock(rule, cfg, st, block, i))
    decreases |block| - i
  {
    hide Inv, Closed, Tracks, TextRow, Drawn;
    if i >= |block| {
    } else {
      RowTracks(rule, cs, cfg, st, block, i, i + 1);
      RowKeeps(rule, cs, cfg, st, block, i, i + 1);
      BlockTracks(rule, cs, cfg, TextRow(rule, cfg, st, block, i, i + 1), block, i + 1);
    }
  }

  lemma {:induction false} BlocksTrack(rule: LocationRule, cs: seq<Candidate>, cfg: Config, st: State,
                                       blocks: seq<seq<Candidate>>, g: nat)
    requires Inv(cs, cfg, st) && Ready(st) && EachAllIn(blocks, Items(st))
    requires forall i :: 0 <= i < |blocks| ==> Drawn(cs, cfg, blocks[i])
    requires Tracks(rule, Locations(cs), st)
    ensures Tracks(rule, Locations(cs), TextBlocks(rule, cfg, st, blocks, g))
    decreases |blocks| - g
  {
    hide Inv, Closed, Tracks, TextBlock, Drawn;
    if g >= |blocks| {
    } else {
      BlockTracks(rule, cs, cfg, st, blocks[g], 0);
      BlockKeeps(rule, cs, cfg, st, blocks[g], 0);
      BlocksTrack(rule, cs, cfg, TextBlock(rule, cfg, st, blocks[g], 0), blocks, g + 1);
    }
  }

  lemma InitTracks(rule: LocationRule, cs: seq<Candidate>)
    requires rule.ByRoot? || AtMostOneUnknown(Locations(cs))
    ensures Tracks(rule, Locations(cs), Init(cs))
  {
    var st := Init(cs);
    IdsExact(cs);
    forall u | u in Locations(cs) ensures RecordedFor(Locations(cs), st, u) {
      ByIdExact(cs, u);
    }
  }

  lemma ExactStagesTrack(rule: LocationRule, cs: seq<Candidate>, cfg: Config)
    requires rule.ByRoot? || AtMostOneUnknown(Locations(cs))
    requires OneLocation(Locations(cs), AfterExactStages(rule, cs, cfg).part)
    ensures Tracks(rule, Locations(cs), AfterExactStages(rule, cs, cfg))
  {
    hide Inv, Coarser, Closed, OneLocation, Tracks, StarTied, MergeGroups, Init;
    var s0, groups := Init(cs), GroupsOf(cs, SourceKey);
    InitInv(cs, cfg);
    InitTracks(rule, cs);
    forall i | 0 <= i < |groups| ensures StarTied(cs, cfg, ExactKey, groups[i]) {
      SourceStarTied(cs, cfg, KeysOf(cs, SourceKey)[i]);
    }
    GroupsAllIn(cs, SourceKey, Items(s0));
    GroupsKeep(rule, cs, cfg, s0, groups, 0, None, ExactKey);
    var s1, urls := MergeGroups(rule, s0, groups, 0, None, ExactKey), GroupsOf(cs, UrlKey);
    forall i | 0 <= i < |urls| && |urls[i]| <= cfg.maxPerUrl ensures StarTied(cs, cfg, CanonicalUrl, urls[i]) {
      UrlStarTied(cs, cfg, KeysOf(cs, UrlKey)[i]);
    }
    GroupsAllIn(cs, UrlKey, Items(s1));
    GroupsKeep(rule, cs, cfg, s1, urls, 0, Some(cfg.maxPerUrl), CanonicalUrl);
    FinerOneLocation(Locations(cs), s1.part, AfterExactStages(rule, cs, cfg).part);
    GroupsTrack(rule, cs, cfg, s0, groups, 0, None, ExactKey);
    GroupsTrack(rule, cs, cfg, s1, urls, 0, Some(cfg.maxPerUrl), CanonicalUrl);
  }

  lemma TrackedRun(rule: LocationRule, cs: seq<Candidate>, cfg: Config)
    requires rule.ByRoot? || AtMostOneUnknown(Locations(cs))
    requires OneLocation(Locations(cs), AfterExactStages(rule, cs, cfg).part)
    ensures OneLocation(Locations(cs), Run(rule, cs, cfg).part)
  {
    hide Inv, OneLocation, Recorded, Drawn, AfterExactStages, AtMostOneUnknown;
    var st, blocks := AfterExactStages(rule, cs, cfg), GroupsOf(cs, BlockKey(cfg));
    ExactStages(rule, cs, cfg);
    ExactStagesTrack(rule, cs, cfg);
    GroupsAllIn(cs, BlockKey(cfg), Items(st));
    forall i | 0 <= i < |blocks| ensures Drawn(cs, cfg, blocks[i]) {
      BlockDrawn(cs, cfg, KeysOf(cs, BlockKey(cfg))[i]);
    }
    BlocksTrack(rule, cs, cfg, st, blocks, 0);
    RecordedIsOneLocation(Locations(cs), Run(rule, cs, cfg));
  }

  /** If stages 1 and 2 leave one known location per cluster, so does the whole run: for the merge its comment
      describes on every input, and for the code when at most one posting lacks a location or at most one is named. */
  lemma OneLocationPerCluster(rule: LocationRule, cs: seq<Candidate>, cfg: Config)
    requires rule.ByRoot? || AtMostOneUnknown(Locations(cs)) || OneNamed(Locations(cs))
    requires OneLocation(Locations(cs), AfterExactStages(rule, cs, cfg).part)
    ensures OneLocation(Locations(cs), Run(rule, cs, cfg).part)
  {
    hide Run, AfterExactStages, Locations, AtMostOneUnknown;
    if rule.ByRoot? || AtMostOneUnknown(Locations(cs)) {
      TrackedRun(rule, cs, cfg);
    }
  }

  // ---- the partition after stages 1 and 2 does not depend on the rule ----

  lemma {:induction false} StarIgnoresLocations(s: State, t: State, group: seq<Candidate>, k: nat, r: Reason)
    requires Ready(s) && Ready(t) && s.part == t.part && AllIn(group, Items(s)) && 1 <= k
    ensures MergeStar(ByItem, s, group, k, r).part == MergeStar(ByRoot, t, group, k, r).part
    decreases |group| - k
  {
    if k >= |group| {
    } else {
      StarIgnoresLocations(Merge(ByItem, s, group[0].id, group[k].id, r), Merge(ByRoot, t, group[0].id, group[k].id, r),
                           group, k + 1, r);
    }
  }

  lemma {:induction false} GroupsIgnoreLocations(s: State, t: State, groups: seq<seq<Candidate>>, g: nat,
                                                 cap: Option<int>, r: Reason)
    requires Ready(s) && Ready(t) && s.part == t.part && EachAllIn(groups, Items(s))
    ensures MergeGroups(ByItem, s, groups, g, cap, r).part == MergeGroups(ByRoot, t, groups, g, cap, r).part
    decreases |groups| - g
  {
    hide Closed, MergeStar;
    if g >= |groups| {
    } else {
      if cap.Some? && |groups[g]| > cap.value {
        GroupsIgnoreLocations(s, t, groups, g + 1, cap, r);
      } else {
        StarIgnoresLocations(s, t, groups[g], 1, r);
        GroupsIgnoreLocations(MergeStar(ByItem, s, groups[g], 1, r), MergeStar(ByRoot, t, groups[g], 1, r),
                              groups, g + 1, cap, r);
      }
    }
  }

  lemma ExactStagesIgnoreLocations(cs: seq<Candidate>, cfg: Config)
    ensures AfterExactStages(ByItem, cs, cfg).part == AfterExactStages(ByRoot, cs, cfg).part
  {
    hide Closed, MergeGroups, Init;
    var s0 := Init(cs);
    GroupsAllIn(cs, SourceKey, Items(s0));
    GroupsIgnoreLocations(s0, s0, GroupsOf(cs, SourceKey), 0, None, ExactKey);
    var s1 := MergeGroups(ByItem, s0, GroupsOf(cs, SourceKey), 0, None, ExactKey);
    var t1 := MergeGroups(ByRoot, s0, GroupsOf(cs, SourceKey), 0, None, ExactKey);
    GroupsAllIn(cs, UrlKey, Items(s1));
    GroupsIgnoreLocations(s1, t1, GroupsOf(cs, UrlKey), 0, Some(cfg.maxPerUrl), CanonicalUrl);
  }

  // ---- the run that loses a location ----

  const EXAMPLE_CONFIG := Config(3, 3, 0.94, 8, None)

  function Posting(i: nat, source: string, location: Option<string>): Candidate {
    Candidate(i, source, "1", None, "", None, Some(Pow2(3 * i) - 1), None, MIN_SIMHASH_CHARS, location, false)
  }

  /** Cairo, none, none, Giza: each fingerprint three bits from the next. */
  function BridgedCities(): seq<Candidate> {
    [Posting(0, "a", Some("eg|cairo")), Posting(1, "b", None), Posting(2, "c", None), Posting(3, "d", Some("eg|giza"))]
  }

  lemma {:induction false} SmallGroupsDoNothing(rule: LocationRule, st: State, groups: seq<seq<Candidate>>, g: nat,
                                                cap: Option<int>, r: Reason)
    requires Ready(st) && EachAllIn(groups, Items(st))
    requires forall i :: 0 <= i < |groups| ==> |groups[i]| <= 1
    ensures MergeGroups(rule, st, groups, g, cap, r) == st
    decreases |groups| - g
  {
    hide Closed;
    if g >= |groups| {
    } else {
      SmallGroupsDoNothing(rule, st, groups, g + 1, cap, r);
    }
  }

  lemma DistinctKeysSmallBuckets<K>(cs: seq<Candidate>, key: Candidate -> Option<K>)
    requires forall i, j :: 0 <= i < j < |cs| ==> key(cs[i]).None? || key(cs[i]) != key(cs[j])
    ensures forall g :: 0 <= g < |GroupsOf(cs, key)| ==> |GroupsOf(cs, key)[g]| <= 1
  {
    var groups := GroupsOf(cs, key);
    forall g | 0 <= g < |groups| ensures |groups[g]| <= 1 {
      if |groups[g]| > 1 {
        StarInOrder(groups[g], 1);
        BucketOrder(cs, key, KeysOf(cs, key)[g], groups[g][0], groups[g][1]);
      }
    }
  }

  lemma {:induction false} OneKeyOneBucket<T, K>(items: seq<T>, key: T -> Option<K>, k: K)
    requires forall i :: 0 <= i < |items| ==> key(items[i]) == Some(k)
    ensures items != [] ==> KeysOf(items, key) == [k]
    ensures Bucket(items, key, k) == items
  {
    if items == [] {
    } else {
      OneKeyOneBucket(items[..|items| - 1], key, k);
    }
  }

  /** The example's state: the representatives of postings 1 to 3, and the entry recorded at root 0. */
  ghost predicate Looks(st: State, r1: Id, r2: Id, r3: Id, members: nat, entry: Option<string>) {
    && st.part.rep == map[0 := 0, 1 := r1, 2 := r2, 3 := r3]
    && st.part.size.Keys == st.loc.Keys == {0, 1, 2, 3}
    && st.part.size[0] == members && (r2 == 2 ==> st.part.size[2] == 1) && st.part.size[3] == 1
    && st.loc[0] == entry && st.loc[1] == None && st.loc[2] == None
  }

  lemma LooksReady(st: State, r1: Id, r2: Id, r3: Id, members: nat, entry: Option<string>)
    requires Looks(st, r1, r2, r3, members, entry)
    requires (r1 == 0 || r1 == 1) && (r2 == 0 || r2 == 2) && (r3 == 0 || r3 == 3)
    ensures Ready(st) && AllIn(BridgedCities(), Items(st))
  {
    forall x | x in st.part.rep ensures Represented(st.part.rep, x) {
    }
  }

  lemma StartPart()
    ensures Init(BridgedCities()).part == Singletons({0, 1, 2, 3})
  {
    hide Closed, Locations;
    Prefixes();
    assert Elements([0, 1, 2, 3]) == {0, 1, 2, 3};
  }

  lemma StartLocations()
    ensures Init(BridgedCities()).loc == map[0 := Some("eg|cairo"), 1 := None, 2 := None, 3 := Some("eg|giza")]
  {
    hide Closed, Ids;
    Prefixes();
  }

  lemma StartLooks(st: State)
    requires st.part == Singletons({0, 1, 2, 3})
    requires st.loc == map[0 := Some("eg|cairo"), 1 := None, 2 := None, 3 := Some("eg|giza")]
    ensures Looks(st, 1, 2, 3, 1, Some("eg|cairo")) && st.part.size[1] == 1
  {
  }

  lemma FirstMerge(st: State)
    requires Looks(st, 1, 2, 3, 1, Some("eg|cairo")) && st.part.size[1] == 1 && Ready(st)
    ensures Looks(TextPair(ByItem, EXAMPLE_CONFIG, st, BridgedCities()[0], BridgedCities()[1]), 0, 2, 3, 2, Some("eg|cairo"))
  {
    hide TextEvidence;
    ChainEvidence(0, 1);
  }

  lemma SecondMerge(st: State)
    requires Looks(st, 0, 2, 3, 2, Some("eg|cairo")) && Ready(st)
    ensures Looks(TextPair(ByItem, EXAMPLE_CONFIG, st, BridgedCities()[1], BridgedCities()[2]), 0, 0, 3, 3, None)
  {
    hide TextEvidence;
    ChainEvidence(1, 2);
  }

  lemma ThirdMerge(st: State)
    requires Looks(st, 0, 0, 3, 3, None) && Ready(st)
    ensures Same(TextPair(ByItem, EXAMPLE_CONFIG, st, BridgedCities()[2], BridgedCities()[3]).part, 0, 3)
  {
    hide TextEvidence;
    ChainEvidence(2, 3);
  }

  lemma NothingBetween(st: State, i: nat, j: nat)
    requires i + 1 < j < 4 && Ready(st) && AllIn(BridgedCities(), Items(st))
    ensures TextPair(ByItem, EXAMPLE_CONFIG, st, BridgedCities()[i], BridgedCities()[j]) == st
  {
    hide TextEvidence, Closed;
    ChainEvidence(i, j);
  }

  /** The text stages of the example, pair by pair: only the three neighbouring pairs match, and the
      middle merge overwrites the recorded city with nothing. */
  lemma BridgeRun(st: State)
    requires st == Init(BridgedCities())
    ensures Same(TextBlock(ByItem, EXAMPLE_CONFIG, st, BridgedCities(), 0).part, 0, 3)
  {
    hide Init, TextPair, Closed;
    var cs, cfg := BridgedCities(), EXAMPLE_CONFIG;
    var s1 := TextPair(ByItem, cfg, st, cs[0], cs[1]);
    StartPart();
    StartLocations();
    StartLooks(st);
    FirstMerge(st);
    LooksReady(s1, 0, 2, 3, 2, Some("eg|cairo"));
    var s2 := TextPair(ByItem, cfg, s1, cs[1], cs[2]);
    SecondMerge(s1);
    LooksReady(s2, 0, 0, 3, 3, None);
    var s3 := TextPair(ByItem, cfg, s2, cs[2], cs[3]);
    ThirdMerge(s2);
    hide Looks;
    NothingBetween(s1, 0, 2);
    NothingBetween(s1, 0, 3);
    NothingBetween(s2, 1, 3);
    assert TextRow(ByItem, cfg, st, cs, 0, 1) == TextRow(ByItem, cfg, s1, cs, 0, 2);
    assert TextRow(ByItem, cfg, s1, cs, 0, 2) == TextRow(ByItem, cfg, s1, cs, 0, 3) == s1;
    assert TextRow(ByItem, cfg, s1, cs, 1, 2) == TextRow(ByItem, cfg, s2, cs, 1, 3) == s2;
    assert TextRow(ByItem, cfg, s2, cs, 2, 3) == TextRow(ByItem, cfg, s3, cs, 2, 4) == s3;
    assert TextBlock(ByItem, cfg, s3, cs, 3) == TextBlock(ByItem, cfg, s3, cs, 4) == s3;
  }

  lemma Prefixes()
    ensures var cs := BridgedCities();
            Ids(cs) == [0, 1, 2, 3] &&
            Locations(cs) == map[0 := Some("eg|cairo"), 1 := None, 2 := None, 3 := Some("eg|giza")]
    ensures var cs := BridgedCities(); Ids(cs[..1]) == [0] && Ids(cs[..2]) == [0, 1] && Ids(cs[..3]) == [0, 1, 2]
  {
    var cs := BridgedCities();
    assert cs[..1][..0] == [] && cs[..2][..1] == cs[..1] && cs[..3][..2] == cs[..2] && cs[..4] == cs && cs[..4][..3] == cs[..3];
    assert Ids(cs[..1]) == [0];
    assert Ids(cs[..2]) == [0, 1];
    assert Ids(cs[..3]) == [0, 1, 2];
    assert Locations(cs[..1]) == map[0 := Some("eg|cairo")];
    assert Locations(cs[..2]) == map[0 := Some("eg|cairo"), 1 := None];
    assert Locations(cs[..3]) == map[0 := Some("eg|cairo"), 1 := None, 2 := None];
  }

  lemma ChainEvidence(i: nat, j: nat)
    requires i < j < 4
    ensures TextEvidence(EXAMPLE_CONFIG, BridgedCities()[i], BridgedCities()[j]) ==
            if j == i + 1 then Some(CloseText) else None
  {
    hide Pow2, SimHash.Hamming;
    var a, b := BridgedCities()[i], BridgedCities()[j];
    assert a.simhash == Some(Pow2(3 * i) - 1) && b.simhash == Some(Pow2(3 * j) - 1);
    ChainDistance(3 * i, 3 * j);
  }

  lemma ChainDistance(m: nat, n: nat)
    requires m <= n <= 64
    ensures SimHash.Hamming(Pow2(m) - 1, Pow2(n) - 1) == n - m
  {
    hide Pow2, SimHash.DiffersBelow;
    SimHash.TrailingOnesApart(m, n, 64);
  }

  lemma ExactStagesDoNothing(rule: LocationRule, cs: seq<Candidate>, cfg: Config)
    requires forall i, j :: 0 <= i < j < |cs| ==> SourceKey(cs[i]) != SourceKey(cs[j])
    requires forall i :: 0 <= i < |cs| ==> UrlKey(cs[i]) == None
    ensures AfterExactStages(rule, cs, cfg) == Init(cs)
  {
    hide Closed, MergeGroups, Locations, Init, GroupsOf;
    var st := Init(cs);
    GroupsAllIn(cs, SourceKey, Items(st));
    GroupsAllIn(cs, UrlKey, Items(st));
    DistinctKeysSmallBuckets(cs, SourceKey);
    DistinctKeysSmallBuckets(cs, UrlKey);
    SmallGroupsDoNothing(rule, st, GroupsOf(cs, SourceKey), 0, None, ExactKey);
    SmallGroupsDoNothing(rule, st, GroupsOf(cs, UrlKey), 0, Some(cfg.maxPerUrl), CanonicalUrl);
  }

  lemma ExactStagesIdle(rule: LocationRule)
    ensures AfterExactStages(rule, BridgedCities(), EXAMPLE_CONFIG) == Init(BridgedCities())
  {
    hide AfterExactStages, Init, Pow2;
    var cs := BridgedCities();
    assert cs[0].source[0] == 'a' && cs[1].source[0] == 'b' && cs[2].source[0] == 'c' && cs[3].source[0] == 'd';
    ExactStagesDoNothing(rule, BridgedCities(), EXAMPLE_CONFIG);
  }

  lemma StartApart()
    ensures OneLocation(Locations(BridgedCities()), Init(BridgedCities()).part)
  {
    SingletonsSound(Elements(Ids(BridgedCities())));
  }

  lemma RunIsOneBlock()
    ensures Run(ByItem, BridgedCities(), EXAMPLE_CONFIG) ==
            TextBlock(ByItem, EXAMPLE_CONFIG, Init(BridgedCities()), BridgedCities(), 0)
  {
    hide BlockingKey, Closed, AfterExactStages, Init, KeysOf, Bucket, TextBlock;
    var cs, key := BridgedCities(), BlockKey(EXAMPLE_CONFIG);
    ExactStagesIdle(ByItem);
    OneKeyOneBucket(cs, key, key(cs[0]).value);
    assert GroupsOf(cs, key) == [cs];
    var st, end := Init(cs), TextBlock(ByItem, EXAMPLE_CONFIG, Init(cs), cs, 0);
    assert TextBlocks(ByItem, EXAMPLE_CONFIG, end, [cs], 1) == end;
  }

  /** The code's rule is not enough: stages 1 and 2 merge nothing here, yet the run puts Cairo and Giza together. */
  lemma ItemRuleLosesLocation()
    ensures OneLocation(Locations(BridgedCities()), AfterExactStages(ByItem, BridgedCities(), EXAMPLE_CONFIG).part)
    ensures !OneLocation(Locations(BridgedCities()), Run(ByItem, BridgedCities(), EXAMPLE_CONFIG).part)
    ensures OneLocation(Locations(BridgedCities()), Run(ByRoot, BridgedCities(), EXAMPLE_CONFIG).part)
  {
    hide *;
    ExactStagesIdle(ByItem);
    ExactStagesIdle(ByRoot);
    StartApart();
    OneLocationPerCluster(ByRoot, BridgedCities(), EXAMPLE_CONFIG);
    RunIsOneBlock();
    BridgeRun(Init(BridgedCities()));
    CitiesDiffer(Run(ByItem, BridgedCities(), EXAMPLE_CONFIG).part);
  }

  lemma CitiesDiffer(p: Partition)
    requires Same(p, 0, 3)
    ensures !OneLocation(Locations(BridgedCities()), p)
  {
    Prefixes();
  }
}
