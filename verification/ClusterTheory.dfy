/** What the staged merge computes: the connected components of the evidence between postings. */
module ClusterTheory {
  import opened Prelude
  import opened DisjointSets
  import opened Clustering
  import SimHash

  // ---- the evidence relation and its components ----

  ghost predicate InOrder<T>(s: seq<T>, x: T, y: T) {
    exists i, j :: 0 <= i < j < |s| && s[i] == x && s[j] == y
  }

  /** Either description is too short to be fingerprinted. */
  predicate EitherShort(a: Candidate, b: Candidate) {
    a.length < 400 || b.length < 400
  }

  predicate Fingerprinted(cfg: Config, a: Candidate, b: Candidate) {
    a.simhash.Some? && b.simhash.Some? && SimHash.Hamming(a.simhash.value, b.simhash.value) <= cfg.hammingMax
  }

  predicate Alike(cfg: Config, a: Candidate, b: Candidate) {
    cfg.similarity.Some? && cfg.similarity.value(a.id, b.id).Some? &&
    cfg.similarity.value(a.id, b.id).value > cfg.semanticThreshold
  }

  /** How many postings have this URL. */
  function Sharing(cs: seq<Candidate>, url: string): nat {
    CountOf(cs, (c: Candidate) => c.url == Some(url))
  }

  lemma {:induction false} BucketIsSharing(cs: seq<Candidate>, url: string)
    requires url != ""
    ensures |Bucket(cs, UrlKey, url)| == Sharing(cs, url)
  {
    hide CountOf;
    var shares := (c: Candidate) => c.url == Some(url);
    if cs == [] {
      CountNone(cs, shares);
    } else {
      BucketIsSharing(cs[..|cs| - 1], url);
      CountMore(cs, shares);
    }
  }

  /** The test behind each recorded reason, for a pair met in this order, told from the postings alone. */
  predicate Holds(cs: seq<Candidate>, cfg: Config, r: Reason, a: Candidate, b: Candidate) {
    match r
    case ExactKey => a.source == b.source && a.externalId == b.externalId
    case CanonicalUrl =>
      a.url.Some? && a.url != Some("") && a.url == b.url && Sharing(cs, a.url.value) <= cfg.maxPerUrl
    case TitleExact => SameBlock(cfg, a, b) && a.source != b.source && EitherShort(a, b) && a.title == b.title
    case CloseText => SameBlock(cfg, a, b) && a.source != b.source && !EitherShort(a, b) && Fingerprinted(cfg, a, b)
    case Semantic =>
      SameBlock(cfg, a, b) && a.source != b.source && !EitherShort(a, b) && !Fingerprinted(cfg, a, b) && Alike(cfg, a, b)
    case Singleton => false
  }

  predicate TextReason(r: Reason) {
    r.TitleExact? || r.CloseText? || r.Semantic?
  }

  /** The text stages decide a pair of a block exactly by those tests, at most one of which holds. */
  lemma EvidenceExact(cs: seq<Candidate>, cfg: Config, a: Candidate, b: Candidate)
    requires SameBlock(cfg, a, b)
    ensures forall r :: TextEvidence(cfg, a, b) == Some(r) <==> TextReason(r) && Holds(cs, cfg, r, a, b)
    ensures TextEvidence(cfg, a, b).None? <==> forall r :: TextReason(r) ==> !Holds(cs, cfg, r, a, b)
  {
    hide SameBlock;
    if TextEvidence(cfg, a, b).Some? {
      var r := TextEvidence(cfg, a, b).value;
      assert TextReason(r) && Holds(cs, cfg, r, a, b);
    }
  }

  predicate SameBlock(cfg: Config, a: Candidate, b: Candidate) {
    BlockKey(cfg)(a) == BlockKey(cfg)(b)
  }

  ghost predicate Tied(cs: seq<Candidate>, cfg: Config, r: Reason, a: Candidate, b: Candidate) {
    InOrder(cs, a, b) && Holds(cs, cfg, r, a, b)
  }

  ghost predicate Linked(cs: seq<Candidate>, cfg: Config, x: Id, y: Id) {
    x != y && exists r, a, b :: Tied(cs, cfg, r, a, b) && ((a.id == x && b.id == y) || (a.id == y && b.id == x))
  }

  ghost predicate LinkAt(cs: seq<Candidate>, cfg: Config, p: seq<Id>, k: int)
    requires 0 <= k < |p| - 1
  {
    Linked(cs, cfg, p[k], p[k + 1])
  }

  ghost predicate Path(cs: seq<Candidate>, cfg: Config, p: seq<Id>) {
    p != [] && forall k {:trigger LinkAt(cs, cfg, p, k)} :: 0 <= k < |p| - 1 ==> LinkAt(cs, cfg, p, k)
  }

  /** In the same component: joined by a chain of evidence. */
  ghost predicate Connected(cs: seq<Candidate>, cfg: Config, x: Id, y: Id) {
    exists p :: Path(cs, cfg, p) && p[0] == x && p[|p| - 1] == y
  }

  lemma ConnectedReflexive(cs: seq<Candidate>, cfg: Config, x: Id)
    ensures Connected(cs, cfg, x, x)
  {
    assert Path(cs, cfg, [x]);
  }

  lemma LinkedConnected(cs: seq<Candidate>, cfg: Config, x: Id, y: Id)
    requires Linked(cs, cfg, x, y)
    ensures Connected(cs, cfg, x, y)
  {
    assert Path(cs, cfg, [x, y]);
  }

  lemma ConnectedSymmetric(cs: seq<Candidate>, cfg: Config, x: Id, y: Id)
    requires Connected(cs, cfg, x, y)
    ensures Connected(cs, cfg, y, x)
  {
    var p :| Path(cs, cfg, p) && p[0] == x && p[|p| - 1] == y;
    var q := seq(|p|, k requires 0 <= k < |p| => p[|p| - 1 - k]);
    forall k | 0 <= k < |q| - 1 ensures LinkAt(cs, cfg, q, k) {
      assert LinkAt(cs, cfg, p, |p| - 2 - k);
    }
    assert Path(cs, cfg, q);
  }

  lemma ConnectedTransitive(cs: seq<Candidate>, cfg: Config, x: Id, y: Id, z: Id)
    requires Connected(cs, cfg, x, y) && Connected(cs, cfg, y, z)
    ensures Connected(cs, cfg, x, z)
  {
    var p :| Path(cs, cfg, p) && p[0] == x && p[|p| - 1] == y;
    var q :| Path(cs, cfg, q) && q[0] == y && q[|q| - 1] == z;
    var r := p + q[1..];
    forall k | 0 <= k < |r| - 1 ensures LinkAt(cs, cfg, r, k) {
      if k < |p| - 1 {
        assert LinkAt(cs, cfg, p, k);
      } else {
        assert LinkAt(cs, cfg, q, k - |p| + 1);
      }
    }
    assert Path(cs, cfg, r);
  }

  // ---- buckets keep order ----

  lemma InOrderSnoc<T>(s: seq<T>, z: T, x: T, y: T)
    ensures InOrder(s + [z], x, y) <==> InOrder(s, x, y) || (x in s && y == z)
  {
    var t := s + [z];
    if InOrder(t, x, y) {
      var i, j :| 0 <= i < j < |t| && t[i] == x && t[j] == y;
      if j < |s| {
        assert s[i] == x && s[j] == y;
      } else {
        assert s[i] == x;
      }
    }
    if InOrder(s, x, y) {
      var i, j :| 0 <= i < j < |s| && s[i] == x && s[j] == y;
      assert t[i] == x && t[j] == y;
    }
    if x in s && y == z {
      var i :| 0 <= i < |s| && s[i] == x;
      assert t[i] == x && t[|s|] == y;
    }
  }

  lemma {:induction false} BucketOrder<T, K>(items: seq<T>, key: T -> Option<K>, k: K, x: T, y: T)
    ensures InOrder(Bucket(items, key, k), x, y) <==>
      InOrder(items, x, y) && key(x) == Some(k) && key(y) == Some(k)
  {
    if items == [] {
    } else {
      var front, last := items[..|items| - 1], items[|items| - 1];
      assert items == front + [last];
      BucketOrder(front, key, k, x, y);
      BucketElements(front, key, k);
      InOrderSnoc(front, last, x, y);
      InOrderSnoc(Bucket(front, key, k), last, x, y);
      assert Bucket(front, key, k) + [] == Bucket(front, key, k);
    }
  }

  lemma {:induction false} KeysComplete<T, K>(items: seq<T>, key: T -> Option<K>)
    ensures forall x :: x in items && key(x).Some? ==> key(x).value in KeysOf(items, key)
    ensures forall k :: k in KeysOf(items, key) ==> exists x :: x in items && key(x) == Some(k)
    ensures Distinct(KeysOf(items, key))
  {
    if items == [] {
    } else {
      var front := items[..|items| - 1];
      KeysComplete(front, key);
      var last := items[|items| - 1];
      assert last in items;
      forall k | k in KeysOf(items, key) ensures exists x :: x in items && key(x) == Some(k) {
        if k in KeysOf(front, key) {
          var x :| x in front && key(x) == Some(k);
          assert x in items;
        }
      }
    }
  }

  // ---- what every merge keeps ----

  ghost predicate Within(cs: seq<Candidate>, cfg: Config, p: Partition) {
    forall x, y {:trigger Same(p, x, y)} :: Same(p, x, y) ==> Connected(cs, cfg, x, y)
  }

  ghost predicate Coarser(p: Partition, q: Partition) {
    forall x, y {:trigger Same(p, x, y)} :: Same(p, x, y) ==> Same(q, x, y)
  }

  /** Location `l` is the own location of some member of `x`'s class. */
  ghost predicate Carried(home: map<Id, Option<string>>, p: Partition, x: Id, l: Option<string>) {
    exists u :: Same(p, u, x) && u in home && home[u] == l
  }

  /** Every known entry of the location dictionary, stale ones included, is carried by a member. */
  ghost predicate Backed(home: map<Id, Option<string>>, st: State) {
    forall x {:trigger Carried(home, st.part, x, st.loc[x])} ::
      x in st.loc && Known(st.loc[x]) ==> Carried(home, st.part, x, st.loc[x])
  }

  ghost predicate HasCompany(p: Partition, x: Id) {
    exists y :: y != x && Same(p, x, y)
  }

  /** The stage recorded for `m` really ties `m` to another posting. */
  ghost predicate Truthful(cs: seq<Candidate>, cfg: Config, m: Id, r: Reason) {
    exists a, b :: Tied(cs, cfg, r, a, b) && a.id != b.id && (a.id == m || b.id == m)
  }

  ghost predicate Reasoned(cs: seq<Candidate>, cfg: Config, st: State) {
    && (forall m {:trigger HasCompany(st.part, m)} :: m in st.part.rep ==> (m in st.why <==> HasCompany(st.part, m)))
    && (forall m {:trigger Truthful(cs, cfg, m, st.why[m])} :: m in st.why ==> Truthful(cs, cfg, m, st.why[m]))
  }

  ghost predicate Inv(cs: seq<Candidate>, cfg: Config, st: State) {
    && Ready(st) && Sound(st.part) && Items(st) == Elements(Ids(cs))
    && Within(cs, cfg, st.part)
    && Backed(Locations(cs), st)
    && Reasoned(cs, cfg, st)
  }

  lemma CarriedStays(home: map<Id, Option<string>>, p: Partition, q: Partition, x: Id, l: Option<string>)
    requires Carried(home, p, x, l) && Coarser(p, q)
    ensures Carried(home, q, x, l)
  {
    var u :| Same(p, u, x) && u in home && home[u] == l;
    assert Same(q, u, x);
  }

  lemma InitInv(cs: seq<Candidate>, cfg: Config)
    ensures Inv(cs, cfg, Init(cs))
  {
    IdsExact(cs);
    var st := Init(cs);
    SingletonsSound(Elements(Ids(cs)));
    forall x, y | Same(st.part, x, y) ensures Connected(cs, cfg, x, y) {
      ConnectedReflexive(cs, cfg, x);
    }
    forall x | x in st.loc && Known(st.loc[x]) ensures Carried(Locations(cs), st.part, x, st.loc[x]) {
      assert Same(st.part, x, x);
    }
  }

  lemma JoinCoarser(p: Partition, a: Id, b: Id)
    requires Sound(p) && a in p.rep && b in p.rep
    ensures Coarser(p, Join(p, a, b)) && Same(Join(p, a, b), a, b)
  {
    JoinSound(p, a, b);
    JoinMergesExactly(p, a, b, a, b);
    forall x, y | Same(p, x, y) ensures Same(Join(p, a, b), x, y) {
      JoinMergesExactly(p, a, b, x, y);
    }
  }

  lemma MergeWithin(cs: seq<Candidate>, cfg: Config, p: Partition, a: Id, b: Id)
    requires Sound(p) && a in p.rep && b in p.rep
    requires Within(cs, cfg, p) && Linked(cs, cfg, a, b)
    ensures Within(cs, cfg, Join(p, a, b))
  {
    var q := Join(p, a, b);
    JoinSound(p, a, b);
    LinkedConnected(cs, cfg, a, b);
    ConnectedSymmetric(cs, cfg, a, b);
    forall x, y | Same(q, x, y) ensures Connected(cs, cfg, x, y) {
      JoinMergesExactly(p, a, b, x, y);
      if Same(p, x, a) && Same(p, y, b) {
        assert Same(p, b, y);
        ConnectedTransitive(cs, cfg, x, a, b);
        ConnectedTransitive(cs, cfg, x, b, y);
      } else if Same(p, x, b) && Same(p, y, a) {
        assert Same(p, a, y);
        ConnectedTransitive(cs, cfg, x, b, a);
        ConnectedTransitive(cs, cfg, x, a, y);
      }
    }
  }

  lemma MergeBacked(rule: LocationRule, home: map<Id, Option<string>>, st: State, a: Id, b: Id, r: Reason)
    requires Ready(st) && Sound(st.part) && a in st.part.rep && b in st.part.rep
    requires Backed(home, st)
    ensures Backed(home, Merge(rule, st, a, b, r))
  {
    var next := Merge(rule, st, a, b, r);
    JoinCoarser(st.part, a, b);
    forall x | x in next.loc && Known(next.loc[x]) ensures Carried(home, next.part, x, next.loc[x]) {
      if next.loc[x] == st.loc[x] {
        CarriedStays(home, st.part, next.part, x, st.loc[x]);
      } else {
        assert Represented(st.part.rep, a) && Represented(st.part.rep, b) && Represented(next.part.rep, a);
        var y := if Known(LocationFor(rule, st, a)) then a else b;
        var entry := if rule.ByItem? then y else st.part.rep[y];
        assert Carried(home, st.part, entry, st.loc[entry]);
        var u :| Same(st.part, u, entry) && u in home && home[u] == st.loc[entry];
        assert Same(st.part, u, y) && Same(next.part, a, b);
        assert Same(next.part, u, x);
      }
    }
  }

  lemma CompanyAfterJoin(p: Partition, a: Id, b: Id, m: Id)
    requires Sound(p) && a in p.rep && b in p.rep && a != b && m in p.rep
    ensures HasCompany(Join(p, a, b), m) <==> HasCompany(p, m) || m == a || m == b
  {
    hide Join, Sized;
    JoinClosed(p, a, b);
    JoinCoarser(p, a, b);
    var q := Join(p, a, b);
    if HasCompany(p, m) {
      var y :| y != m && Same(p, m, y);
      assert Same(q, m, y);
    }
    assert Same(q, a, b) && Same(q, b, a);
    if HasCompany(q, m) && m != a && m != b {
      var y :| y != m && Same(q, m, y);
      JoinMergesExactly(p, a, b, m, y);
    }
  }

  lemma MergeReasoned(rule: LocationRule, cs: seq<Candidate>, cfg: Config, st: State,
                      a: Candidate, b: Candidate, r: Reason)
    requires Ready(st) && Sound(st.part) && a.id in st.part.rep && b.id in st.part.rep
    requires Reasoned(cs, cfg, st) && Tied(cs, cfg, r, a, b)
    ensures Reasoned(cs, cfg, Merge(rule, st, a.id, b.id, r))
  {
    hide Join, HasCompany, Tied, Sound;
    var next := Merge(rule, st, a.id, b.id, r);
    if !Same(st.part, a.id, b.id) {
      assert Truthful(cs, cfg, a.id, r) && Truthful(cs, cfg, b.id, r);
      forall m | m in next.part.rep ensures m in next.why <==> HasCompany(next.part, m) {
        CompanyAfterJoin(st.part, a.id, b.id, m);
      }
      forall m | m in next.why ensures Truthful(cs, cfg, m, next.why[m]) {
        if m in st.why {
          assert Truthful(cs, cfg, m, st.why[m]);
        }
      }
    }
  }

  /** One merge on real evidence keeps the invariant and joins its two postings. */
  lemma MergeKeeps(rule: LocationRule, cs: seq<Candidate>, cfg: Config, st: State,
                   a: Candidate, b: Candidate, r: Reason)
    requires Inv(cs, cfg, st) && a.id in st.part.rep && b.id in st.part.rep
    requires Tied(cs, cfg, r, a, b)
    ensures Inv(cs, cfg, Merge(rule, st, a.id, b.id, r))
    ensures Coarser(st.part, Merge(rule, st, a.id, b.id, r).part)
    ensures Same(Merge(rule, st, a.id, b.id, r).part, a.id, b.id)
  {
    if !Same(st.part, a.id, b.id) {
      JoinSound(st.part, a.id, b.id);
      JoinCoarser(st.part, a.id, b.id);
      assert Linked(cs, cfg, a.id, b.id);
      MergeWithin(cs, cfg, st.part, a.id, b.id);
      MergeBacked(rule, Locations(cs), st, a.id, b.id, r);
      MergeReasoned(rule, cs, cfg, st, a, b, r);
    }
  }

  // ---- stages 1 and 2 ----

  ghost predicate StarTied(cs: seq<Candidate>, cfg: Config, r: Reason, group: seq<Candidate>) {
    forall k :: 1 <= k < |group| ==> Tied(cs, cfg, r, group[0], group[k])
  }

  lemma {:induction false} StarKeeps(rule: LocationRule, cs: seq<Candidate>, cfg: Config, st: State,
                                     group: seq<Candidate>, k: nat, r: Reason)
    requires Inv(cs, cfg, st) && Ready(st) && AllIn(group, Items(st)) && 1 <= k && StarTied(cs, cfg, r, group)
    ensures Inv(cs, cfg, MergeStar(rule, st, group, k, r))
    ensures Coarser(st.part, MergeStar(rule, st, group, k, r).part)
    ensures forall m :: k <= m < |group| ==> Same(MergeStar(rule, st, group, k, r).part, group[0].id, group[m].id)
    decreases |group| - k
  {
    hide Inv, Coarser, Closed, Join, Merge, Same, Tied;
    if k < |group| {
      var next := Merge(rule, st, group[0].id, group[k].id, r);
      MergeKeeps(rule, cs, cfg, st, group[0], group[k], r);
      StarKeeps(rule, cs, cfg, next, group, k + 1, r);
      assert MergeStar(rule, st, group, k, r) == MergeStar(rule, next, group, k + 1, r);
      var last := MergeStar(rule, next, group, k + 1, r);
      CoarserTransitive(st.part, next.part, last.part);
      StaysSame(next.part, last.part, group[0].id, group[k].id);
    } else {
      CoarserReflexive(st.part);
    }
  }

  lemma CoarserReflexive(p: Partition)
    ensures Coarser(p, p)
  {
  }

  lemma StaysSame(p: Partition, q: Partition, x: Id, y: Id)
    requires Coarser(p, q) && Same(p, x, y)
    ensures Same(q, x, y)
  {
  }

  lemma CoarserTransitive(p: Partition, q: Partition, r: Partition)
    requires Coarser(p, q) && Coarser(q, r)
    ensures Coarser(p, r)
  {
  }

  /** A group that the stage looks at: its first posting ends up with all the others. */
  ghost predicate Gathered(p: Partition, group: seq<Candidate>, cap: Option<int>) {
    (cap.None? || |group| <= cap.value) ==>
      forall m :: 1 <= m < |group| ==> Same(p, group[0].id, group[m].id)
  }

  lemma {:induction false} GroupsKeep(rule: LocationRule, cs: seq<Candidate>, cfg: Config, st: State,
                                      groups: seq<seq<Candidate>>, g: nat, cap: Option<int>, r: Reason)
    requires Inv(cs, cfg, st) && Ready(st) && EachAllIn(groups, Items(st))
    requires forall i :: 0 <= i < |groups| && (cap.None? || |groups[i]| <= cap.value) ==> StarTied(cs, cfg, r, groups[i])
    ensures Inv(cs, cfg, MergeGroups(rule, st, groups, g, cap, r))
    ensures Coarser(st.part, MergeGroups(rule, st, groups, g, cap, r).part)
    ensures forall i :: g <= i < |groups| ==> Gathered(MergeGroups(rule, st, groups, g, cap, r).part, groups[i], cap)
    decreases |groups| - g
  {
    hide Inv, Coarser, Closed, StarTied, MergeStar, Same;
    if g < |groups| {
      if cap.Some? && |groups[g]| > cap.value {
        GroupsKeep(rule, cs, cfg, st, groups, g + 1, cap, r);
      } else {
        var next := MergeStar(rule, st, groups[g], 1, r);
        StarKeeps(rule, cs, cfg, st, groups[g], 1, r);
        GroupsKeep(rule, cs, cfg, next, groups, g + 1, cap, r);
        var last := MergeGroups(rule, next, groups, g + 1, cap, r);
        CoarserTransitive(st.part, next.part, last.part);
        forall m | 1 <= m < |groups[g]| ensures Same(last.part, groups[g][0].id, groups[g][m].id) {
          StaysSame(next.part, last.part, groups[g][0].id, groups[g][m].id);
        }
      }
    } else {
      CoarserReflexive(st.part);
    }
  }

  lemma StarInOrder<T>(group: seq<T>, k: nat)
    requires 1 <= k < |group|
    ensures InOrder(group, group[0], group[k])
  {
  }

  lemma SourceStarTied(cs: seq<Candidate>, cfg: Config, k: (string, string))
    ensures StarTied(cs, cfg, ExactKey, Bucket(cs, SourceKey, k))
  {
    var group := Bucket(cs, SourceKey, k);
    forall m | 1 <= m < |group| ensures Tied(cs, cfg, ExactKey, group[0], group[m]) {
      StarInOrder(group, m);
      BucketOrder(cs, SourceKey, k, group[0], group[m]);
    }
  }

  lemma UrlStarTied(cs: seq<Candidate>, cfg: Config, k: string)
    requires |Bucket(cs, UrlKey, k)| <= cfg.maxPerUrl
    ensures StarTied(cs, cfg, CanonicalUrl, Bucket(cs, UrlKey, k))
  {
    var group := Bucket(cs, UrlKey, k);
    if k != "" {
      BucketIsSharing(cs, k);
    }
    hide Sharing;
    forall m | 1 <= m < |group| ensures Tied(cs, cfg, CanonicalUrl, group[0], group[m]) {
      StarInOrder(group, m);
      BucketOrder(cs, UrlKey, k, group[0], group[m]);
    }
  }

  /** A bucket the stage gathered puts any two of its postings in one class. */
  lemma GatheredPair<K>(cs: seq<Candidate>, key: Candidate -> Option<K>, cap: Option<int>, p: Partition,
                        a: Candidate, b: Candidate)
    requires a in cs && b in cs && key(a).Some? && key(a) == key(b)
    requires cap.None? || |Bucket(cs, key, key(a).value)| <= cap.value
    requires forall i :: 0 <= i < |GroupsOf(cs, key)| ==> Gathered(p, GroupsOf(cs, key)[i], cap)
    requires a.id in p.rep && b.id in p.rep
    ensures Same(p, a.id, b.id)
  {
    hide Bucket, KeysOf;
    KeysComplete(cs, key);
    var keys := KeysOf(cs, key);
    var i :| 0 <= i < |keys| && keys[i] == key(a).value;
    var group := GroupsOf(cs, key)[i];
    BucketElements(cs, key, keys[i]);
    assert a in group && b in group;
    var m :| 0 <= m < |group| && group[m] == a;
    var n :| 0 <= n < |group| && group[n] == b;
    assert Gathered(p, group, cap);
  }

  ghost predicate ExactEvidence(cs: seq<Candidate>, cfg: Config, a: Candidate, b: Candidate) {
    Holds(cs, cfg, ExactKey, a, b) || Holds(cs, cfg, CanonicalUrl, a, b)
  }

  lemma ExactStages(rule: LocationRule, cs: seq<Candidate>, cfg: Config)
    ensures Inv(cs, cfg, AfterExactStages(rule, cs, cfg))
    ensures forall a, b :: a in cs && b in cs && ExactEvidence(cs, cfg, a, b) ==>
      Same(AfterExactStages(rule, cs, cfg).part, a.id, b.id)
  {
    var s0 := Init(cs);
    InitInv(cs, cfg);
    var groups := GroupsOf(cs, SourceKey);
    forall i | 0 <= i < |groups| ensures StarTied(cs, cfg, ExactKey, groups[i]) {
      SourceStarTied(cs, cfg, KeysOf(cs, SourceKey)[i]);
    }
    GroupsAllIn(cs, SourceKey, Items(s0));
    GroupsKeep(rule, cs, cfg, s0, groups, 0, None, ExactKey);
    var s1 := MergeGroups(rule, s0, groups, 0, None, ExactKey);
    var urls := GroupsOf(cs, UrlKey);
    forall i | 0 <= i < |urls| && |urls[i]| <= cfg.maxPerUrl ensures StarTied(cs, cfg, CanonicalUrl, urls[i]) {
      UrlStarTied(cs, cfg, KeysOf(cs, UrlKey)[i]);
    }
    GroupsAllIn(cs, UrlKey, Items(s1));
    GroupsKeep(rule, cs, cfg, s1, urls, 0, Some(cfg.maxPerUrl), CanonicalUrl);
    var s2 := AfterExactStages(rule, cs, cfg);
    forall a, b | a in cs && b in cs && ExactEvidence(cs, cfg, a, b) ensures Same(s2.part, a.id, b.id) {
      if Holds(cs, cfg, ExactKey, a, b) {
        GatheredPair(cs, SourceKey, None, s1.part, a, b);
        assert Coarser(s1.part, s2.part);
      } else {
        BucketIsSharing(cs, a.url.value);
        GatheredPair(cs, UrlKey, Some(cfg.maxPerUrl), s2.part, a, b);
      }
    }
  }

  // ---- stages 3 to 5 ----

  /** Two classes that hold postings with different known locations. */
  ghost predicate Conflict(home: map<Id, Option<string>>, p: Partition, x: Id, y: Id) {
    exists u, v :: Same(p, u, x) && Same(p, v, y) && u in home && v in home && !Compatible(home[u], home[v])
  }

  /** What the text stages owe a pair: joined, unless the two classes hold conflicting locations. */
  ghost predicate Settled(home: map<Id, Option<string>>, cfg: Config, p: Partition, a: Candidate, b: Candidate) {
    TextEvidence(cfg, a, b).Some? ==> Same(p, a.id, b.id) || Conflict(home, p, a.id, b.id)
  }

  lemma SettledStays(home: map<Id, Option<string>>, cfg: Config, p: Partition, q: Partition, a: Candidate, b: Candidate)
    requires Settled(home, cfg, p, a, b) && Coarser(p, q)
    ensures Settled(home, cfg, q, a, b)
  {
    if TextEvidence(cfg, a, b).Some? && !Same(p, a.id, b.id) {
      var u, v :| Same(p, u, a.id) && Same(p, v, b.id) && u in home && v in home && !Compatible(home[u], home[v]);
      assert Same(q, u, a.id) && Same(q, v, b.id);
    }
  }

  /** A refused pair really has conflicting members: the dictionary never invents a location. */
  lemma RefusalIsConflict(home: map<Id, Option<string>>, st: State, x: Id, y: Id)
    requires Ready(st) && Sound(st.part) && Backed(home, st) && x in st.part.rep && y in st.part.rep
    requires !Compatible(RootLocation(st, x), RootLocation(st, y))
    ensures Conflict(home, st.part, x, y)
  {
    hide Sized;
    assert Represented(st.part.rep, x) && Represented(st.part.rep, y);
    var rx, ry := st.part.rep[x], st.part.rep[y];
    assert Carried(home, st.part, rx, st.loc[rx]) && Carried(home, st.part, ry, st.loc[ry]);
    var u :| Same(st.part, u, rx) && u in home && home[u] == st.loc[rx];
    var v :| Same(st.part, v, ry) && v in home && home[v] == st.loc[ry];
    assert Same(st.part, u, x) && Same(st.part, v, y);
  }

  lemma PairKeeps(rule: LocationRule, cs: seq<Candidate>, cfg: Config, st: State, a: Candidate, b: Candidate)
    requires Inv(cs, cfg, st) && a.id in st.part.rep && b.id in st.part.rep
    requires InOrder(cs, a, b) && SameBlock(cfg, a, b)
    ensures Inv(cs, cfg, TextPair(rule, cfg, st, a, b))
    ensures Coarser(st.part, TextPair(rule, cfg, st, a, b).part)
    ensures Settled(Locations(cs), cfg, TextPair(rule, cfg, st, a, b).part, a, b)
  {
    var evidence := TextEvidence(cfg, a, b);
    EvidenceExact(cs, cfg, a, b);
    if !Same(st.part, a.id, b.id) && evidence.Some? {
      hide BlockKey, Merge, Sized, TextEvidence, Holds;
      if Compatible(RootLocation(st, a.id), RootLocation(st, b.id)) {
        MergeKeeps(rule, cs, cfg, st, a, b, evidence.value);
      } else {
        RefusalIsConflict(Locations(cs), st, a.id, b.id);
      }
    }
  }

  ghost predicate Drawn(cs: seq<Candidate>, cfg: Config, block: seq<Candidate>) {
    forall i, j {:trigger block[i], block[j]} :: 0 <= i < j < |block| ==>
      InOrder(cs, block[i], block[j]) && SameBlock(cfg, block[i], block[j])
  }

  lemma {:induction false} RowKeeps(rule: LocationRule, cs: seq<Candidate>, cfg: Config, st: State,
                                    block: seq<Candidate>, i: nat, j: nat)
    requires Inv(cs, cfg, st) && Ready(st) && AllIn(block, Items(st)) && i < |block| && i < j
    requires Drawn(cs, cfg, block)
    ensures Inv(cs, cfg, TextRow(rule, cfg, st, block, i, j))
    ensures Coarser(st.part, TextRow(rule, cfg, st, block, i, j).part)
    ensures forall k :: j <= k < |block| ==>
      Settled(Locations(cs), cfg, TextRow(rule, cfg, st, block, i, j).part, block[i], block[k])
    decreases |block| - j
  {
    hide Inv, Coarser, Closed, TextPair, Settled, SameBlock, InOrder, Same;
    if j < |block| {
      var next := TextPair(rule, cfg, st, block[i], block[j]);
      PairKeeps(rule, cs, cfg, st, block[i], block[j]);
      RowKeeps(rule, cs, cfg, next, block, i, j + 1);
      var last := TextRow(rule, cfg, next, block, i, j + 1);
      CoarserTransitive(st.part, next.part, last.part);
      SettledStays(Locations(cs), cfg, next.part, last.part, block[i], block[j]);
    } else {
      CoarserReflexive(st.part);
    }
  }

  lemma {:induction false} BlockKeeps(rule: LocationRule, cs: seq<Candidate>, cfg: Config, st: State,
                                      block: seq<Candidate>, i: nat)
    requires Inv(cs, cfg, st) && Ready(st) && AllIn(block, Items(st)) && Drawn(cs, cfg, block)
    ensures Inv(cs, cfg, TextBlock(rule, cfg, st, block, i))
    ensures Coarser(st.part, TextBlock(rule, cfg, st, block, i).part)
    ensures forall j, k :: i <= j < k < |block| ==>
      Settled(Locations(cs), cfg, TextBlock(rule, cfg, st, block, i).part, block[j], block[k])
    decreases |block| - i
  {
    hide Inv, Coarser, Closed, TextRow, Settled, Drawn, Same;
    if i < |block| {
      var next := TextRow(rule, cfg, st, block, i, i + 1);
      RowKeeps(rule, cs, cfg, st, block, i, i + 1);
      BlockKeeps(rule, cs, cfg, next, block, i + 1);
      var last := TextBlock(rule, cfg, next, block, i + 1);
      CoarserTransitive(st.part, next.part, last.part);
      forall k | i < k < |block| ensures Settled(Locations(cs), cfg, last.part, block[i], block[k]) {
        SettledStays(Locations(cs), cfg, next.part, last.part, block[i], block[k]);
      }
    } else {
      CoarserReflexive(st.part);
    }
  }

  ghost predicate BlockSettled(home: map<Id, Option<string>>, cfg: Config, p: Partition, block: seq<Candidate>) {
    forall j, k {:trigger block[j], block[k]} :: 0 <= j < k < |block| ==> Settled(home, cfg, p, block[j], block[k])
  }

  lemma {:induction false} BlocksKeep(rule: LocationRule, cs: seq<Candidate>, cfg: Config, st: State,
                                      blocks: seq<seq<Candidate>>, g: nat)
    requires Inv(cs, cfg, st) && Ready(st) && EachAllIn(blocks, Items(st))
    requires forall i :: 0 <= i < |blocks| ==> Drawn(cs, cfg, blocks[i])
    ensures Inv(cs, cfg, TextBlocks(rule, cfg, st, blocks, g))
    ensures Coarser(st.part, TextBlocks(rule, cfg, st, blocks, g).part)
    ensures forall i :: g <= i < |blocks| ==>
      BlockSettled(Locations(cs), cfg, TextBlocks(rule, cfg, st, blocks, g).part, blocks[i])
    decreases |blocks| - g
  {
    hide Inv, Coarser, Closed, TextBlock, Settled, Drawn, Same;
    if g < |blocks| {
      var next := TextBlock(rule, cfg, st, blocks[g], 0);
      BlockKeeps(rule, cs, cfg, st, blocks[g], 0);
      BlocksKeep(rule, cs, cfg, next, blocks, g + 1);
      var last := TextBlocks(rule, cfg, next, blocks, g + 1);
      CoarserTransitive(st.part, next.part, last.part);
      forall j, k {:trigger blocks[g][j], blocks[g][k]} | 0 <= j < k < |blocks[g]|
        ensures Settled(Locations(cs), cfg, last.part, blocks[g][j], blocks[g][k])
      {
        SettledStays(Locations(cs), cfg, next.part, last.part, blocks[g][j], blocks[g][k]);
      }
    } else {
      CoarserReflexive(st.part);
    }
  }

  lemma BlockDrawn(cs: seq<Candidate>, cfg: Config, k: string)
    ensures Drawn(cs, cfg, Bucket(cs, BlockKey(cfg), k))
  {
    hide BlockingKey;
    var block := Bucket(cs, BlockKey(cfg), k);
    forall i, j {:trigger block[i], block[j]} | 0 <= i < j < |block|
      ensures InOrder(cs, block[i], block[j]) && SameBlock(cfg, block[i], block[j])
    {
      assert InOrder(block, block[i], block[j]);
      BucketOrder(cs, BlockKey(cfg), k, block[i], block[j]);
    }
  }

  lemma SettledPair(cs: seq<Candidate>, cfg: Config, p: Partition, a: Candidate, b: Candidate)
    requires forall i :: 0 <= i < |GroupsOf(cs, BlockKey(cfg))| ==>
      BlockSettled(Locations(cs), cfg, p, GroupsOf(cs, BlockKey(cfg))[i])
    requires InOrder(cs, a, b) && SameBlock(cfg, a, b)
    ensures Settled(Locations(cs), cfg, p, a, b)
  {
    hide KeysOf, Bucket, Settled, BlockingKey;
    var key := BlockKey(cfg);
    KeysComplete(cs, key);
    var keys := KeysOf(cs, key);
    var i :| 0 <= i < |keys| && keys[i] == key(a).value;
    BucketOrder(cs, key, keys[i], a, b);
    var block := GroupsOf(cs, key)[i];
    assert InOrder(block, a, b);
    assert BlockSettled(Locations(cs), cfg, p, block);
  }

  lemma WholeRun(rule: LocationRule, cs: seq<Candidate>, cfg: Config)
    ensures Inv(cs, cfg, Run(rule, cs, cfg))
    ensures Coarser(AfterExactStages(rule, cs, cfg).part, Run(rule, cs, cfg).part)
    ensures forall a, b :: InOrder(cs, a, b) && SameBlock(cfg, a, b) ==>
      Settled(Locations(cs), cfg, Run(rule, cs, cfg).part, a, b)
  {
    hide Inv, Coarser, Settled, Drawn, BlockSettled;
    var st, blocks := AfterExactStages(rule, cs, cfg), GroupsOf(cs, BlockKey(cfg));
    ExactStages(rule, cs, cfg);
    GroupsAllIn(cs, BlockKey(cfg), Items(st));
    forall i | 0 <= i < |blocks| ensures Drawn(cs, cfg, blocks[i]) {
      BlockDrawn(cs, cfg, KeysOf(cs, BlockKey(cfg))[i]);
    }
    BlocksKeep(rule, cs, cfg, st, blocks, 0);
    forall a, b | InOrder(cs, a, b) && SameBlock(cfg, a, b)
      ensures Settled(Locations(cs), cfg, Run(rule, cs, cfg).part, a, b)
    {
      SettledPair(cs, cfg, Run(rule, cs, cfg).part, a, b);
    }
  }

  // ---- main results ----

  /** On every input: classes never exceed the evidence, exact evidence is always followed, and text
      evidence is passed over only where the two final classes hold postings in different known places. */
  lemma ClustersBetweenExactAndAllEvidence(cs: seq<Candidate>, cfg: Config)
    ensures forall x, y :: Same(Run(ByItem, cs, cfg).part, x, y) ==> Connected(cs, cfg, x, y)
    ensures forall a, b :: a in cs && b in cs && ExactEvidence(cs, cfg, a, b) ==>
      Same(Run(ByItem, cs, cfg).part, a.id, b.id)
    ensures forall r, a, b :: Tied(cs, cfg, r, a, b) ==>
      Same(Run(ByItem, cs, cfg).part, a.id, b.id) ||
      Conflict(Locations(cs), Run(ByItem, cs, cfg).part, a.id, b.id)
  {
    hide Run, AfterExactStages, SameBlock, Conflict, Bucket;
    var st := Run(ByItem, cs, cfg);
    WholeRun(ByItem, cs, cfg);
    ExactStages(ByItem, cs, cfg);
    forall r, a, b | Tied(cs, cfg, r, a, b)
      ensures Same(st.part, a.id, b.id) || Conflict(Locations(cs), st.part, a.id, b.id)
    {
      assert a in cs && b in cs;
      if r == ExactKey || r == CanonicalUrl {
        assert ExactEvidence(cs, cfg, a, b);
      } else {
        assert Settled(Locations(cs), cfg, st.part, a, b);
      }
    }
  }

  predicate OneKnownLocation(cs: seq<Candidate>) {
    forall i, j :: 0 <= i < |cs| && 0 <= j < |cs| ==> Compatible(cs[i].location, cs[j].location)
  }

  lemma NoConflict(cs: seq<Candidate>, p: Partition, x: Id, y: Id)
    requires OneKnownLocation(cs)
    ensures !Conflict(Locations(cs), p, x, y)
  {
    IdsExact(cs);
    forall u, v | u in Locations(cs) && v in Locations(cs) ensures Compatible(Locations(cs)[u], Locations(cs)[v]) {
      ByIdExact(cs, u);
      ByIdExact(cs, v);
    }
  }

  lemma {:induction false} FollowPath(cs: seq<Candidate>, cfg: Config, part: Partition, p: seq<Id>)
    requires Path(cs, cfg, p) && p[0] in part.rep
    requires forall x, y :: Linked(cs, cfg, x, y) ==> Same(part, x, y)
    ensures Same(part, p[0], p[|p| - 1])
  {
    if |p| <= 1 {
    } else {
      var front := p[..|p| - 1];
      forall k | 0 <= k < |front| - 1 ensures LinkAt(cs, cfg, front, k) {
        assert LinkAt(cs, cfg, p, k);
      }
      FollowPath(cs, cfg, part, front);
      assert LinkAt(cs, cfg, p, |p| - 2);
    }
  }

  /** When the input names at most one location, the clusters are exactly the components of the evidence. */
  lemma ClustersAreComponents(cs: seq<Candidate>, cfg: Config, x: Id, y: Id)
    requires OneKnownLocation(cs) && x in Ids(cs)
    ensures Same(Run(ByItem, cs, cfg).part, x, y) <==> Connected(cs, cfg, x, y)
  {
    hide Run, Tied, Conflict, OneKnownLocation;
    var part := Run(ByItem, cs, cfg).part;
    ClustersBetweenExactAndAllEvidence(cs, cfg);
    forall u, v | Linked(cs, cfg, u, v) ensures Same(part, u, v) {
      var r, a, b :| Tied(cs, cfg, r, a, b) && ((a.id == u && b.id == v) || (a.id == v && b.id == u));
      NoConflict(cs, part, a.id, b.id);
    }
    if Connected(cs, cfg, x, y) {
      var p :| Path(cs, cfg, p) && p[0] == x && p[|p| - 1] == y;
      FollowPath(cs, cfg, part, p);
    }
  }

  /** The reason shown for a posting: "singleton" exactly for those alone in their cluster, otherwise a
      stage whose test really holds between this posting and another one. */
  lemma ReasonsAreTrue(cs: seq<Candidate>, cfg: Config, m: Id)
    requires m in Ids(cs)
    ensures m in Run(ByItem, cs, cfg).why <==> exists y :: y != m && Same(Run(ByItem, cs, cfg).part, m, y)
    ensures m in Run(ByItem, cs, cfg).why ==> Truthful(cs, cfg, m, Run(ByItem, cs, cfg).why[m])
  {
    WholeRun(ByItem, cs, cfg);
    var st := Run(ByItem, cs, cfg);
    assert m in st.why <==> HasCompany(st.part, m);
  }

  // ---- the first reason stays ----

  /** A merge of two classes records its reason for those of the two postings that have none, and changes no other. */
  lemma MergeRecords(rule: LocationRule, st: State, a: Id, b: Id, r: Reason)
    requires Ready(st) && a in st.part.rep && b in st.part.rep
    ensures var next := Merge(rule, st, a, b, r);
            if Same(st.part, a, b) then next == st
            else
              && next.why.Keys == st.why.Keys + {a, b}
              && forall x :: x in next.why ==> next.why[x] == if x in st.why then st.why[x] else r
  {
    hide Closed;
  }

  ghost predicate KeepsReasons(st: State, next: State) {
    forall x :: x in st.why ==> x in next.why && next.why[x] == st.why[x]
  }

  lemma PairKeepsReasons(rule: LocationRule, cfg: Config, st: State, a: Candidate, b: Candidate)
    requires Ready(st) && a.id in st.part.rep && b.id in st.part.rep
    ensures KeepsReasons(st, TextPair(rule, cfg, st, a, b))
  {
    hide Closed, TextEvidence, Merge;
    if TextEvidence(cfg, a, b).Some? {
      MergeRecords(rule, st, a.id, b.id, TextEvidence(cfg, a, b).value);
    }
  }

  lemma {:induction false} RowKeepsReasons(rule: LocationRule, cfg: Config, st: State, block: seq<Candidate>, i: nat, j: nat)
    requires Ready(st) && AllIn(block, Items(st)) && i < |block| && i < j
    ensures KeepsReasons(st, TextRow(rule, cfg, st, block, i, j))
    decreases |block| - j
  {
    hide Closed, TextPair;
    if j >= |block| {
    } else {
      PairKeepsReasons(rule, cfg, st, block[i], block[j]);
      RowKeepsReasons(rule, cfg, TextPair(rule, cfg, st, block[i], block[j]), block, i, j + 1);
    }
  }

  lemma {:induction false} BlockKeepsReasons(rule: LocationRule, cfg: Config, st: State, block: seq<Candidate>, i: nat)
    requires Ready(st) && AllIn(block, Items(st))
    ensures KeepsReasons(st, TextBlock(rule, cfg, st, block, i))
    decreases |block| - i
  {
    hide Closed, TextRow;
    if i >= |block| {
    } else {
      RowKeepsReasons(rule, cfg, st, block, i, i + 1);
      BlockKeepsReasons(rule, cfg, TextRow(rule, cfg, st, block, i, i + 1), block, i + 1);
    }
  }

  lemma {:induction false} BlocksKeepReasons(rule: LocationRule, cfg: Config, st: State, blocks: seq<seq<Candidate>>, g: nat)
    requires Ready(st) && EachAllIn(blocks, Items(st))
    ensures KeepsReasons(st, TextBlocks(rule, cfg, st, blocks, g))
    decreases |blocks| - g
  {
    hide Closed, TextBlock;
    if g >= |blocks| {
    } else {
      BlockKeepsReasons(rule, cfg, st, blocks[g], 0);
      BlocksKeepReasons(rule, cfg, TextBlock(rule, cfg, st, blocks[g], 0), blocks, g + 1);
    }
  }

  /** What the exact stages record, the text stages never change. */
  lemma ExactReasonsStay(rule: LocationRule, cs: seq<Candidate>, cfg: Config)
    ensures KeepsReasons(AfterExactStages(rule, cs, cfg), Run(rule, cs, cfg))
  {
    hide AfterExactStages, KeepsReasons, TextBlocks;
    var st := AfterExactStages(rule, cs, cfg);
    GroupsAllIn(cs, BlockKey(cfg), Items(st));
    BlocksKeepReasons(rule, cfg, st, GroupsOf(cs, BlockKey(cfg)), 0);
  }
}
