/** The program of clustering.py: dictionaries, nested loops and the in-place union-find, proved to
    compute what the stage functions say. */
module ClusterProgram {
  import opened Prelude
  import opened DisjointSets
  import opened Clustering
  import opened ClusterTheory
  import opened ClusterOrder

  method GroupBy<T, K(==)>(items: seq<T>, key: T -> Option<K>) returns (groups: seq<seq<T>>)
    ensures groups == GroupsOf(items, key)
  {
    var order: seq<K>, out: map<K, seq<T>> := [], map[];
    for i := 0 to |items|
      invariant order == KeysOf(items[..i], key)
      invariant forall k :: k in order <==> k in out
      invariant forall k :: k in out ==> out[k] == Bucket(items[..i], key, k)
    {
      assert items[..i + 1][..i] == items[..i];
      var k := key(items[i]);
      if k.Some? {
        if k.value in out {
          out := out[k.value := out[k.value] + [items[i]]];
        } else {
          NothingBucketed(items[..i], key, k.value);
          order := order + [k.value];
          out := out[k.value := [items[i]]];
        }
      }
    }
    assert items[..|items|] == items;
    groups := seq(|order|, i requires 0 <= i < |order| && order[i] in out => out[order[i]]);
    assert groups == Buckets(items, key, order);
  }

  lemma NothingBucketed<T, K>(items: seq<T>, key: T -> Option<K>, k: K)
    requires k !in KeysOf(items, key)
    ensures Bucket(items, key, k) == []
  {
    KeysComplete(items, key);
    BucketElements(items, key, k);
    assert forall x :: x !in Bucket(items, key, k);
  }

  /** The variables `cluster_postings` closes over. */
  class Clusterer {
    const uf: UnionFind
    var location: map<Id, Option<string>>
    var reasons: map<Id, Reason>

    ghost function Now(): State
      reads this, uf
    {
      State(uf.Parts(), location, reasons)
    }

    ghost predicate Valid()
      reads this, uf
    {
      uf.Valid() && Ready(Now())
    }

    constructor (cs: seq<Candidate>)
      ensures Valid() && fresh(this) && fresh(uf)
      ensures Now() == Init(cs) && uf.items == Ids(cs)
    {
      IdsExact(cs);
      uf := new UnionFind(Ids(cs));
      location := Locations(cs);
      reasons := map[];
    }

    method MergePair(a: Id, b: Id, r: Reason)
      requires Valid() && a in Items(Now()) && b in Items(Now())
      modifies this, uf
      ensures Valid() && Now() == Merge(ByItem, old(Now()), a, b, r)
    {
      hide Balanced, Relink, Represented;
      ghost var before := Now();
      JoinClosed(before.part, a, b);
      hide Closed;
      var joined := uf.Union(a, b);
      if joined {
        reasons := SetDefault(reasons, b, r);
        reasons := SetDefault(reasons, a, r);
        var root, _ := uf.Find(a);
        HasRepresentative(uf.Parts(), a);
        location := location[root := OrElse(location[a], location[b])];
      }
    }

    method TextMergeAllowed(a: Id, b: Id) returns (allowed: bool)
      requires Valid() && a in Items(Now()) && b in Items(Now())
      modifies uf`parent
      ensures Valid() && Now() == old(Now())
      ensures allowed <==> Compatible(RootLocation(Now(), a), RootLocation(Now(), b))
    {
      hide Balanced;
      assert Represented(uf.rep, a) && Represented(uf.rep, b);
      var ra, _ := uf.Find(a);
      var rb, _ := uf.Find(b);
      allowed := Compatible(location[ra], location[rb]);
    }

    /** The body of the double loop over a block. */
    method ConsiderPair(cfg: Config, a: Candidate, b: Candidate)
      requires Valid() && a.id in Items(Now()) && b.id in Items(Now())
      modifies this, uf
      ensures Valid() && Now() == TextPair(ByItem, cfg, old(Now()), a, b)
    {
      hide Balanced, Merge, Closed;
      var ra, _ := uf.Find(a.id);
      var rb, _ := uf.Find(b.id);
      if ra == rb || a.source == b.source {
        return;
      }
      var allowed := TextMergeAllowed(a.id, b.id);
      if !allowed {
        return;
      }
      if IsShortPair(a, b) {
        if a.title == b.title {
          MergePair(a.id, b.id, TitleExact);
        }
        return;
      }
      if CloseHashes(cfg, a, b) {
        MergePair(a.id, b.id, CloseText);
        return;
      }
      if CloseMeaning(cfg, a, b) {
        MergePair(a.id, b.id, Semantic);
      }
    }

    method MergeExactGroups(groups: seq<seq<Candidate>>, cap: Option<int>, r: Reason)
      requires Valid() && EachAllIn(groups, Items(Now()))
      modifies this, uf
      ensures Valid() && Now() == MergeGroups(ByItem, old(Now()), groups, 0, cap, r)
    {
      hide Balanced, Merge, Closed;
      ghost var goal := MergeGroups(ByItem, Now(), groups, 0, cap, r);
      for g := 0 to |groups|
        invariant Valid() && Items(Now()) == old(Items(Now()))
        invariant MergeGroups(ByItem, Now(), groups, g, cap, r) == goal
      {
        if cap.Some? && |groups[g]| > cap.value {
          continue;
        }
        ghost var star := MergeStar(ByItem, Now(), groups[g], 1, r);
        var k := 1;
        while k < |groups[g]|
          invariant 1 <= k && Valid() && Items(Now()) == old(Items(Now()))
          invariant MergeStar(ByItem, Now(), groups[g], k, r) == star
        {
          MergePair(groups[g][0].id, groups[g][k].id, r);
          k := k + 1;
        }
      }
    }

    method CompareBlocks(cfg: Config, blocks: seq<seq<Candidate>>)
      requires Valid() && EachAllIn(blocks, Items(Now()))
      modifies this, uf
      ensures Valid() && Now() == TextBlocks(ByItem, cfg, old(Now()), blocks, 0)
    {
      hide Balanced, TextPair, Closed;
      ghost var goal := TextBlocks(ByItem, cfg, Now(), blocks, 0);
      for g := 0 to |blocks|
        invariant Valid() && Items(Now()) == old(Items(Now()))
        invariant TextBlocks(ByItem, cfg, Now(), blocks, g) == goal
      {
        CompareBlock(cfg, blocks[g]);
      }
    }

    method CompareBlock(cfg: Config, block: seq<Candidate>)
      requires Valid() && AllIn(block, Items(Now()))
      modifies this, uf
      ensures Valid() && Now() == TextBlock(ByItem, cfg, old(Now()), block, 0)
    {
      hide Balanced, TextPair, Closed, TextRow, TextBlock, BlockKey;
      ghost var goal := TextBlock(ByItem, cfg, Now(), block, 0);
      if |block| < 2 {
        SmallBlock(cfg, Now(), block);
        return;
      }
      for i := 0 to |block|
        invariant Valid() && Items(Now()) == old(Items(Now()))
        invariant TextBlock(ByItem, cfg, Now(), block, i) == goal
      {
        BlockStep(cfg, Now(), block, i);
        ghost var row := TextRow(ByItem, cfg, Now(), block, i, i + 1);
        for j := i + 1 to |block|
          invariant Valid() && Items(Now()) == old(Items(Now()))
          invariant TextRow(ByItem, cfg, Now(), block, i, j) == row
        {
          RowStep(cfg, Now(), block, i, j);
          ConsiderPair(cfg, block[i], block[j]);
        }
        RowStep(cfg, Now(), block, i, |block|);
      }
      BlockStep(cfg, Now(), block, |block|);
    }
  }

  lemma RowStep(cfg: Config, st: State, block: seq<Candidate>, i: nat, j: nat)
    requires Ready(st) && AllIn(block, Items(st)) && i < |block| && i < j
    ensures TextRow(ByItem, cfg, st, block, i, j) ==
            if j >= |block| then st else TextRow(ByItem, cfg, TextPair(ByItem, cfg, st, block[i], block[j]), block, i, j + 1)
  {
    hide Closed, TextPair;
  }

  lemma BlockStep(cfg: Config, st: State, block: seq<Candidate>, i: nat)
    requires Ready(st) && AllIn(block, Items(st))
    ensures TextBlock(ByItem, cfg, st, block, i) ==
            if i >= |block| then st else TextBlock(ByItem, cfg, TextRow(ByItem, cfg, st, block, i, i + 1), block, i + 1)
  {
    hide Closed, TextRow;
  }

  lemma SmallBlock(cfg: Config, st: State, block: seq<Candidate>)
    requires Ready(st) && AllIn(block, Items(st)) && |block| < 2
    ensures TextBlock(ByItem, cfg, st, block, 0) == st
  {
    hide Closed, TextPair;
    BlockStep(cfg, st, block, 0);
    if |block| == 1 {
      RowStep(cfg, st, block, 0, 1);
      BlockStep(cfg, st, block, 1);
    }
  }

  // ---- stages 6 and 7 ----

  function ClustersFrom(cfg: Config, byId: map<Id, Candidate>, st: State, items: seq<Id>, roots: seq<Id>): seq<Cluster>
    requires Covers(items, st.part.rep) && Elements(items) <= byId.Keys
    requires forall k :: 0 <= k < |roots| ==> roots[k] in Roots(items, st.part.rep)
  {
    if roots == [] then []
    else
      var last := roots[|roots| - 1];
      RootHasMembers(items, st.part.rep, last);
      ClustersFrom(cfg, byId, st, items, roots[..|roots| - 1])
        + [ClusterOf(cfg, byId, st.why, Members(items, st.part.rep, last))]
  }

  lemma RootHasMembers(items: seq<Id>, rep: map<Id, Id>, r: Id)
    requires Covers(items, rep) && r in Roots(items, rep)
    ensures Members(items, rep, r) != [] && Elements(Members(items, rep, r)) <= Elements(items)
  {
    RootsExact(items, rep);
    MembersExact(items, rep, r);
    var k :| 0 <= k < |items| && rep[items[k]] == r;
    assert items[k] in Members(items, rep, r);
    forall x | x in Elements(Members(items, rep, r)) ensures x in Elements(items) {
    }
  }

  function Canonical(c: Cluster): int {
    c.canonical
  }

  /** The list `cluster_postings` returns. */
  function Clusters(cs: seq<Candidate>, cfg: Config): seq<Cluster> {
    IdsExact(cs);
    var st := Run(ByItem, cs, cfg);
    SortBy(ClustersFrom(cfg, ById(cs), st, Ids(cs), Roots(Ids(cs), st.part.rep)), Canonical)
  }

  method RunStages(cs: seq<Candidate>, cfg: Config) returns (run: Clusterer)
    ensures fresh(run) && fresh(run.uf) && run.Valid() && run.uf.items == Ids(cs)
    ensures run.Now() == Run(ByItem, cs, cfg)
  {
    hide Balanced, Closed, MergeGroups, TextBlocks, Init, GroupsOf;
    run := new Clusterer(cs);
    GroupsAllIn(cs, SourceKey, Items(run.Now()));
    var bySource := GroupBy(cs, SourceKey);
    run.MergeExactGroups(bySource, None, ExactKey);
    GroupsAllIn(cs, UrlKey, Items(run.Now()));
    var byUrl := GroupBy(cs, UrlKey);
    run.MergeExactGroups(byUrl, Some(cfg.maxPerUrl), CanonicalUrl);
    GroupsAllIn(cs, BlockKey(cfg), Items(run.Now()));
    var blocks := GroupBy(cs, BlockKey(cfg));
    run.CompareBlocks(cfg, blocks);
  }

  method ClusterPostings(cs: seq<Candidate>, cfg: Config) returns (clusters: seq<Cluster>)
    ensures clusters == Clusters(cs, cfg)
  {
    hide Balanced, Closed, Run, ClusterOf, Members, Roots;
    IdsExact(cs);
    if cs == [] {
      EmptyInput(cfg);
      return [];
    }
    var run := RunStages(cs, cfg);
    var byId, reasons := ById(cs), run.reasons;
    ghost var st := run.Now();
    var roots, groups := run.uf.Groups();
    assert roots == Roots(Ids(cs), st.part.rep);
    clusters := [];
    for k := 0 to |roots|
      invariant forall i :: 0 <= i < |roots[..k]| ==> roots[..k][i] in roots
      invariant clusters == ClustersFrom(cfg, byId, st, Ids(cs), roots[..k])
    {
      ghost var more := roots[..k + 1];
      assert more[..|more| - 1] == roots[..k] && more[|more| - 1] == roots[k];
      RootHasMembers(Ids(cs), st.part.rep, roots[k]);
      assert groups[roots[k]] == Members(Ids(cs), st.part.rep, roots[k]);
      clusters := clusters + [ClusterOf(cfg, byId, reasons, groups[roots[k]])];
    }
    assert roots[..|roots|] == roots;
    clusters := SortBy(clusters, Canonical);
  }

  lemma EmptyInput(cfg: Config)
    ensures Clusters([], cfg) == []
  {
    hide Run;
    assert Ids([]) == [];
    assert Roots(Ids([]), Run(ByItem, [], cfg).part.rep) == [];
  }

  // ---- what the list says ----

  lemma {:induction false} InsertKeeps<T>(s: seq<T>, x: T, key: T -> int)
    ensures multiset(InsertBy(s, x, key)) == multiset(s) + multiset{x}
  {
    if s == [] || key(x) >= key(s[|s| - 1]) {
    } else {
      assert s == s[..|s| - 1] + [s[|s| - 1]];
      InsertKeeps(s[..|s| - 1], x, key);
    }
  }

  lemma {:induction false} InsertOrdered<T>(s: seq<T>, x: T, key: T -> int)
    requires Ordered(s, key)
    ensures Ordered(InsertBy(s, x, key), key)
  {
    if s == [] || key(x) >= key(s[|s| - 1]) {
    } else {
      var front, last := s[..|s| - 1], s[|s| - 1];
      InsertOrdered(front, x, key);
      InsertKeeps(front, x, key);
      var t := InsertBy(front, x, key);
      forall i | 0 <= i < |t| ensures key(t[i]) <= key(last) {
        assert t[i] in multiset(t);
        assert t[i] in front || t[i] == x;
      }
    }
  }

  ghost predicate Ordered<T>(s: seq<T>, key: T -> int) {
    forall i, j :: 0 <= i < j < |s| ==> key(s[i]) <= key(s[j])
  }

  lemma {:induction false} SortKeeps<T>(s: seq<T>, key: T -> int)
    ensures multiset(SortBy(s, key)) == multiset(s) && Ordered(SortBy(s, key), key)
  {
    if s == [] {
    } else {
      var front := s[..|s| - 1];
      assert s == front + [s[|s| - 1]];
      SortKeeps(front, key);
      InsertKeeps(SortBy(front, key), s[|s| - 1], key);
      InsertOrdered(SortBy(front, key), s[|s| - 1], key);
    }
  }

  /** Everything one returned cluster promises about the set of postings it stands for. */
  ghost predicate Describes(cfg: Config, byId: map<Id, Candidate>, why: map<Id, Reason>, c: Cluster, ids: set<Id>) {
    && (forall x :: x in c.members <==> x in ids)
    && Distinct(c.members) && Ordered(c.members, (x: Id) => x)
    && c.canonical in ids && ids <= byId.Keys
    && (forall x :: x in ids ==> !Precedes(byId[x], byId[c.canonical]))
    && c.key == BlockingKey(byId[c.canonical].company, byId[c.canonical].title, cfg.titleTokens)
    && c.reasons == map x | x in ids :: if x in why then why[x] else Singleton
  }

  lemma PickOfLookup(ids: seq<Id>, byId: map<Id, Candidate>)
    requires ids != [] && Elements(ids) <= byId.Keys
    requires forall x :: x in byId ==> byId[x].id == x
    ensures var best := CanonicalPick(Lookup(ids, byId));
            best.id in ids && byId[best.id] == best && forall x :: x in ids ==> !Precedes(byId[x], best)
  {
    hide Precedes;
    var members := Lookup(ids, byId);
    PickIsFirst(members);
    var best := CanonicalPick(members);
    forall x | x in ids ensures !Precedes(byId[x], best) {
      var k :| 0 <= k < |ids| && ids[k] == x;
      assert ids[k] in Elements(ids) && members[k] == byId[x] && members[k] in members;
    }
    var k :| 0 <= k < |members| && members[k] == best;
    assert ids[k] in Elements(ids) && ids[k] in byId && best == byId[ids[k]] && best.id == ids[k];
  }

  lemma ClusterOfDescribes(cfg: Config, byId: map<Id, Candidate>, why: map<Id, Reason>, ids: seq<Id>)
    requires ids != [] && Elements(ids) <= byId.Keys && Distinct(ids)
    requires forall x :: x in byId ==> byId[x].id == x
    ensures Describes(cfg, byId, why, ClusterOf(cfg, byId, why, ids), Elements(ids))
  {
    hide Precedes, BlockingKey, CanonicalPick, SortBy;
    SortKeeps(ids, (x: Id) => x);
    SameElements(ids, SortBy(ids, (x: Id) => x));
    PickOfLookup(ids, byId);
  }

  lemma SameElements<T>(s: seq<T>, t: seq<T>)
    requires multiset(s) == multiset(t)
    ensures forall x :: x in s <==> x in t
    ensures Distinct(s) ==> Distinct(t)
  {
    forall x ensures x in s <==> x in t {
      assert x in s <==> x in multiset(s);
      assert x in t <==> x in multiset(t);
    }
    if Distinct(s) {
      forall i, j | 0 <= i < j < |t| ensures t[i] != t[j] {
        DistinctOnce(s, t[i]);
        if t[i] == t[j] {
          TwiceCounts(t, i, j);
        }
      }
    }
  }

  lemma {:induction false} DistinctOnce<T>(s: seq<T>, x: T)
    requires Distinct(s)
    ensures multiset(s)[x] <= 1
  {
    if s == [] {
    } else {
      assert s == s[..|s| - 1] + [s[|s| - 1]];
      DistinctOnce(s[..|s| - 1], x);
      if s[|s| - 1] == x {
        assert x !in s[..|s| - 1];
      }
    }
  }

  lemma TwiceCounts<T>(t: seq<T>, i: nat, j: nat)
    requires i < j < |t| && t[i] == t[j]
    ensures multiset(t)[t[i]] >= 2
  {
    assert t == t[..i] + [t[i]] + t[i + 1..j] + [t[j]] + t[j + 1..];
  }

  lemma ClassMembers(items: seq<Id>, rep: map<Id, Id>, r: Id)
    requires rep.Keys == Elements(items) && Distinct(items) && r in Roots(items, rep)
    ensures Covers(items, rep)
    ensures var ids := Members(items, rep, r);
            ids != [] && Distinct(ids) && Elements(ids) == Class(rep, r)
  {
    forall k | 0 <= k < |items| ensures items[k] in rep {
      assert items[k] in Elements(items);
    }
    RootHasMembers(items, rep, r);
    MembersExact(items, rep, r);
    var ids := Members(items, rep, r);
    forall x ensures x in Elements(ids) <==> x in Class(rep, r) {
      assert x in Elements(items) <==> x in items;
    }
  }

  /** The list before sorting: one described cluster per root. */
  ghost predicate Listed(cfg: Config, byId: map<Id, Candidate>, st: State, roots: seq<Id>, list: seq<Cluster>) {
    |list| == |roots| &&
    forall k :: 0 <= k < |roots| ==> Describes(cfg, byId, st.why, list[k], Class(st.part.rep, roots[k]))
  }

  lemma {:induction false} EachRootListed(cfg: Config, byId: map<Id, Candidate>, st: State, items: seq<Id>, roots: seq<Id>)
    requires st.part.rep.Keys == Elements(items) == byId.Keys && Distinct(items) && Covers(items, st.part.rep)
    requires forall k :: 0 <= k < |roots| ==> roots[k] in Roots(items, st.part.rep)
    requires forall x :: x in byId ==> byId[x].id == x
    ensures Listed(cfg, byId, st, roots, ClustersFrom(cfg, byId, st, items, roots))
  {
    hide Describes, ClusterOf, Members, Roots, Class;
    if roots == [] {
    } else {
      var n := |roots| - 1;
      EachRootListed(cfg, byId, st, items, roots[..n]);
      RootHasMembers(items, st.part.rep, roots[n]);
      ClassMembers(items, st.part.rep, roots[n]);
      ClusterOfDescribes(cfg, byId, st.why, Members(items, st.part.rep, roots[n]));
    }
  }

  ghost predicate DescribesSome(cfg: Config, byId: map<Id, Candidate>, st: State, c: Cluster) {
    exists r :: Describes(cfg, byId, st.why, c, Class(st.part.rep, r))
  }

  ghost predicate Somewhere(list: seq<Cluster>, x: Id) {
    exists k :: 0 <= k < |list| && x in list[k].members
  }

  ghost predicate NothingShared(c: Cluster, d: Cluster) {
    forall x :: x in c.members ==> x !in d.members
  }

  /** A list of clusters is the partition `st` stands for: every class appears exactly once and in full. */
  ghost predicate IsPartitionList(cfg: Config, byId: map<Id, Candidate>, st: State, list: seq<Cluster>) {
    && (forall k :: 0 <= k < |list| ==> DescribesSome(cfg, byId, st, list[k]))
    && (forall x :: x in st.part.rep ==> Somewhere(list, x))
    && (forall i, j :: 0 <= i < j < |list| ==> NothingShared(list[i], list[j]))
    && Ordered(list, Canonical)
  }

  lemma SharedMemberSameClass(cfg: Config, byId: map<Id, Candidate>, st: State, c: Cluster, r: Id, d: Cluster, s: Id, x: Id)
    requires Describes(cfg, byId, st.why, c, Class(st.part.rep, r)) && Describes(cfg, byId, st.why, d, Class(st.part.rep, s))
    requires x in c.members && x in d.members
    ensures r == s
  {
    assert x in Class(st.part.rep, r) && x in Class(st.part.rep, s);
  }

  lemma MemberOfClass(cfg: Config, byId: map<Id, Candidate>, st: State, c: Cluster, x: Id)
    requires x in st.part.rep && Describes(cfg, byId, st.why, c, Class(st.part.rep, st.part.rep[x]))
    ensures x in c.members
  {
    assert x in Class(st.part.rep, st.part.rep[x]);
  }

  lemma HasMember(cfg: Config, byId: map<Id, Candidate>, why: map<Id, Reason>, c: Cluster, ids: set<Id>)
    requires Describes(cfg, byId, why, c, ids)
    ensures c.canonical in c.members
  {
  }

  lemma SortedListIsPartition(cfg: Config, byId: map<Id, Candidate>, st: State, items: seq<Id>, roots: seq<Id>, raw: seq<Cluster>)
    requires st.part.rep.Keys == Elements(items) && Covers(items, st.part.rep)
    requires roots == Roots(items, st.part.rep) && Listed(cfg, byId, st, roots, raw)
    ensures IsPartitionList(cfg, byId, st, SortBy(raw, Canonical))
  {
    hide Describes, SortBy, Roots, Class;
    var rep, list := st.part.rep, SortBy(raw, Canonical);
    RootsExact(items, rep);
    forall i, j | 0 <= i < j < |raw| ensures raw[i] != raw[j] {
      HasMember(cfg, byId, st.why, raw[i], Class(rep, roots[i]));
      if raw[i] == raw[j] {
        SharedMemberSameClass(cfg, byId, st, raw[i], roots[i], raw[j], roots[j], raw[i].canonical);
      }
    }
    SortKeeps(raw, Canonical);
    SameElements(raw, list);
    forall k | 0 <= k < |list| ensures DescribesSome(cfg, byId, st, list[k]) {
      assert list[k] in raw;
      var m :| 0 <= m < |raw| && raw[m] == list[k];
      assert Describes(cfg, byId, st.why, raw[m], Class(rep, roots[m]));
    }
    forall x | x in rep ensures Somewhere(list, x) {
      assert x in Elements(items);
      assert rep[x] in roots;
      var m :| 0 <= m < |roots| && roots[m] == rep[x];
      MemberOfClass(cfg, byId, st, raw[m], x);
      assert raw[m] in list;
    }
    forall i, j | 0 <= i < j < |list| ensures NothingShared(list[i], list[j]) {
      assert list[i] in raw && list[j] in raw;
      var m :| 0 <= m < |raw| && raw[m] == list[i];
      var n :| 0 <= n < |raw| && raw[n] == list[j];
      forall x | x in list[i].members ensures x !in list[j].members {
        if x in list[j].members {
          SharedMemberSameClass(cfg, byId, st, raw[m], roots[m], raw[n], roots[n], x);
        }
      }
    }
  }

  /** The returned list is the partition of the run: each class once, in full, under its canonical posting
      and with its reasons, in order of canonical id. */
  lemma ClustersDescribeRun(cs: seq<Candidate>, cfg: Config)
    ensures IsPartitionList(cfg, ById(cs), Run(ByItem, cs, cfg), Clusters(cs, cfg))
  {
    hide Run, Closed, IsPartitionList, Listed, Roots, ById;
    IdsExact(cs);
    var st := Run(ByItem, cs, cfg);
    var items, roots := Ids(cs), Roots(Ids(cs), st.part.rep);
    forall x | x in ById(cs) ensures ById(cs)[x].id == x {
      ByIdExact(cs, x);
    }
    EachRootListed(cfg, ById(cs), st, items, roots);
    SortedListIsPartition(cfg, ById(cs), st, items, roots, ClustersFrom(cfg, ById(cs), st, items, roots));
  }
}
