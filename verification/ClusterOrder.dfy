/** The result does not depend on the order in which postings arrive. */
module ClusterOrder {
  import opened Prelude
  import opened DisjointSets
  import opened Clustering
  import opened ClusterTheory
  import SimHash

  lemma {:induction false} BucketWithout<T, K>(s: seq<T>, key: T -> Option<K>, b: K, k: nat)
    requires k < |s|
    ensures |Bucket(s, key, b)| == |Bucket(Without(s, k), key, b)| + if key(s[k]) == Some(b) then 1 else 0
  {
    var n := |s| - 1;
    if k == n {
      assert Without(s, k) == s[..n];
    } else {
      BucketWithout(s[..n], key, b, k);
      var rest := Without(s, k);
      assert rest[..|rest| - 1] == Without(s[..n], k);
    }
  }

  lemma LastInBucket<T, K>(s: seq<T>, key: T -> Option<K>, b: K)
    requires s != []
    ensures var n := |s| - 1;
            |Bucket(s, key, b)| == |Bucket(s[..n], key, b)| + if key(s[n]) == Some(b) then 1 else 0
  {
  }

  /** How many postings share a key is a matter of which postings there are, not of their order. */
  lemma {:induction false} BucketSizeIgnoresOrder<T, K>(s: seq<T>, t: seq<T>, key: T -> Option<K>, b: K)
    requires multiset(s) == multiset(t)
    ensures |Bucket(s, key, b)| == |Bucket(t, key, b)|
    decreases |s|
  {
    hide Bucket, Without;
    assert |multiset(t)| == |s|;
    if s == [] {
    } else {
      var n := |s| - 1;
      var k := MatchLast(s, t);
      BucketWithout(t, key, b, k);
      LastInBucket(s, key, b);
      BucketSizeIgnoresOrder(s[..n], Without(t, k), key, b);
    }
  }

  predicate SymmetricFor(cfg: Config, a: Id, b: Id) {
    cfg.similarity.Some? ==> cfg.similarity.value(a, b) == cfg.similarity.value(b, a)
  }

  ghost predicate Symmetric(cfg: Config) {
    forall a, b {:trigger SymmetricFor(cfg, a, b)} :: SymmetricFor(cfg, a, b)
  }

  lemma EvidenceSymmetric(cs: seq<Candidate>, cfg: Config, r: Reason, a: Candidate, b: Candidate)
    requires Symmetric(cfg) && Holds(cs, cfg, r, a, b)
    ensures Holds(cs, cfg, r, b, a)
  {
    hide BlockingKey, Bucket, SimHash.Hamming, Pow2;
    assert SymmetricFor(cfg, a.id, b.id);
    if a.simhash.Some? && b.simhash.Some? {
      SimHash.HammingIsMetric(a.simhash.value, b.simhash.value, 0);
    }
  }

  lemma LinksIgnoreOrder(cs: seq<Candidate>, ds: seq<Candidate>, cfg: Config, x: Id, y: Id)
    requires multiset(cs) == multiset(ds) && Symmetric(cfg) && Linked(cs, cfg, x, y)
    ensures Linked(ds, cfg, x, y)
  {
    hide Bucket, TextEvidence, SameBlock, SymmetricFor, Sharing;
    var r, a, b :| Tied(cs, cfg, r, a, b) && ((a.id == x && b.id == y) || (a.id == y && b.id == x));
    assert a in multiset(cs) && b in multiset(cs);
    var i :| 0 <= i < |ds| && ds[i] == a;
    var j :| 0 <= j < |ds| && ds[j] == b;
    if a.url.Some? && a.url.value != "" {
      BucketSizeIgnoresOrder(cs, ds, UrlKey, a.url.value);
      BucketIsSharing(cs, a.url.value);
      BucketIsSharing(ds, a.url.value);
    }
    assert Holds(ds, cfg, r, a, b);
    EvidenceSymmetric(ds, cfg, r, a, b);
    if i < j {
      assert Tied(ds, cfg, r, a, b);
    } else {
      assert Tied(ds, cfg, r, b, a);
    }
  }

  lemma ComponentsIgnoreOrder(cs: seq<Candidate>, ds: seq<Candidate>, cfg: Config, x: Id, y: Id)
    requires multiset(cs) == multiset(ds) && Symmetric(cfg) && Connected(cs, cfg, x, y)
    ensures Connected(ds, cfg, x, y)
  {
    hide Linked, Symmetric;
    var p :| Path(cs, cfg, p) && p[0] == x && p[|p| - 1] == y;
    forall k | 0 <= k < |p| - 1 ensures LinkAt(ds, cfg, p, k) {
      assert LinkAt(cs, cfg, p, k);
      LinksIgnoreOrder(cs, ds, cfg, p[k], p[k + 1]);
    }
    assert Path(ds, cfg, p);
  }

  /** With at most one location named and a symmetric similarity, any two arrival orders of the same
      postings give the same clusters. */
  lemma ClustersIgnoreOrder(cs: seq<Candidate>, ds: seq<Candidate>, cfg: Config, x: Id, y: Id)
    requires multiset(cs) == multiset(ds) && Symmetric(cfg) && OneKnownLocation(cs)
    ensures Same(Run(ByItem, cs, cfg).part, x, y) <==> Same(Run(ByItem, ds, cfg).part, x, y)
  {
    hide Run, Connected, Symmetric, Compatible, Ids, Locations;
    assert forall k :: 0 <= k < |ds| ==> ds[k] in multiset(cs);
    assert OneKnownLocation(ds);
    IdsExact(cs);
    IdsExact(ds);
    SameItems(cs, ds, x);
    if x in Ids(cs) {
      ClustersAreComponents(cs, cfg, x, y);
      ClustersAreComponents(ds, cfg, x, y);
      if Connected(cs, cfg, x, y) {
        ComponentsIgnoreOrder(cs, ds, cfg, x, y);
      }
      if Connected(ds, cfg, x, y) {
        ComponentsIgnoreOrder(ds, cs, cfg, x, y);
      }
    }
  }

  lemma SameItems(cs: seq<Candidate>, ds: seq<Candidate>, x: Id)
    requires multiset(cs) == multiset(ds)
    ensures x in Ids(cs) <==> x in Ids(ds)
  {
    IdFromPosting(cs, x);
    IdFromPosting(ds, x);
    assert forall c :: c in cs <==> c in multiset(cs);
    assert forall c :: c in ds <==> c in multiset(ds);
  }

  lemma {:induction false} IdFromPosting(cs: seq<Candidate>, x: Id)
    ensures x in Ids(cs) <==> exists c :: c in cs && c.id == x
  {
    if cs == [] {
    } else {
      IdFromPosting(cs[..|cs| - 1], x);
      assert cs == cs[..|cs| - 1] + [cs[|cs| - 1]];
    }
  }

  // ---- the canonical posting ----

  lemma PrecedesIsStrictOrder(a: Candidate, b: Candidate, c: Candidate)
    ensures !Precedes(a, a)
    ensures Precedes(a, b) && Precedes(b, c) ==> Precedes(a, c)
    ensures a.id != b.id ==> Precedes(a, b) || Precedes(b, a)
    ensures !Precedes(b, a) && !Precedes(c, b) ==> !Precedes(c, a)
  {
  }

  lemma PickOfMore(members: seq<Candidate>)
    requires |members| > 1
    ensures var best, last := CanonicalPick(members[..|members| - 1]), members[|members| - 1];
            CanonicalPick(members) == if Precedes(last, best) then last else best
  {
    hide Precedes;
  }

  lemma {:induction false} PickIsFirst(members: seq<Candidate>)
    requires members != []
    ensures CanonicalPick(members) in members
    ensures forall c :: c in members ==> !Precedes(c, CanonicalPick(members))
  {
    hide Precedes;
    var n := |members| - 1;
    assert members == members[..n] + [members[n]];
    if n == 0 {
      PrecedesIsStrictOrder(members[0], members[0], members[0]);
    } else {
      hide CanonicalPick;
      PickOfMore(members);
      PickIsFirst(members[..n]);
      var best, pick := CanonicalPick(members[..n]), CanonicalPick(members);
      PrecedesIsStrictOrder(members[n], best, members[n]);
      forall c | c in members ensures !Precedes(c, pick) {
        PrecedesIsStrictOrder(pick, best, c);
      }
    }
  }

  /** The canonical posting is decided by the cluster alone, not by the order of its members, and it is
      the employer's own posting whenever the cluster has one. */
  lemma CanonicalPickIsStable(members: seq<Candidate>, others: seq<Candidate>)
    requires members != [] && others != []
    requires forall c :: c in members <==> c in others
    requires forall c, d :: c in members && d in members && c.id == d.id ==> c == d
    ensures CanonicalPick(members) == CanonicalPick(others)
    ensures (exists c :: c in members && c.atsNative) ==> CanonicalPick(members).atsNative
  {
    PickIsFirst(members);
    PickIsFirst(others);
    var a, b := CanonicalPick(members), CanonicalPick(others);
    PrecedesIsStrictOrder(a, b, a);
    if c :| c in members && c.atsNative {
      assert !Precedes(c, a);
    }
  }

  /** The pick written out: the employer's own postings come before all others, then the longest, then the earliest
      dated, undated ones last, then the least id. */
  lemma PickIsExact(members: seq<Candidate>, other: Candidate)
    requires members != [] && other in members
    ensures var pick := CanonicalPick(members);
            && pick in members && (other.atsNative ==> pick.atsNative)
            && (other.atsNative == pick.atsNative ==>
                  && other.length <= pick.length
                  && (other.length == pick.length ==>
                        && (other.postedAt.Some? ==> pick.postedAt.Some? && pick.postedAt.value <= other.postedAt.value)
                        && (other.postedAt == pick.postedAt ==> pick.id <= other.id)))
  {
    PickIsFirst(members);
    hide CanonicalPick;
    assert !Precedes(other, CanonicalPick(members));
  }
}
