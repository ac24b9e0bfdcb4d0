/** The disjoint-set structure of clustering.py: parents and sizes are updated in place, a ghost
    partition says what they mean. */
module DisjointSets {
  import opened Prelude

  type Id = int

  /** Every item's representative, and the size recorded for each item (meaningful at representatives). */
  datatype Partition = Partition(rep: map<Id, Id>, size: map<Id, nat>)

  ghost function Class(rep: map<Id, Id>, r: Id): set<Id> {
    set x | x in rep && rep[x] == r
  }

  predicate Same(p: Partition, x: Id, y: Id) {
    x in p.rep && y in p.rep && p.rep[x] == p.rep[y]
  }

  /** `x` has a representative, which represents itself. */
  predicate Represented(rep: map<Id, Id>, x: Id)
    requires x in rep
  {
    rep[x] in rep && rep[rep[x]] == rep[x]
  }

  predicate Closed(p: Partition) {
    && p.size.Keys == p.rep.Keys
    && forall x {:trigger Represented(p.rep, x)} :: x in p.rep ==> Represented(p.rep, x)
  }

  /** The size recorded at every representative is the cardinality of its class. */
  ghost predicate Sized(p: Partition) {
    forall r {:trigger Class(p.rep, r)} ::
      r in p.rep && p.rep[r] == r ==> r in p.size && p.size[r] == |Class(p.rep, r)|
  }

  ghost predicate Sound(p: Partition) {
    Closed(p) && Sized(p)
  }

  function Singletons(ids: set<Id>): Partition {
    Partition(map x | x in ids :: x, map x | x in ids :: 1)
  }

  function Move(rep: map<Id, Id>, hi: Id, lo: Id): map<Id, Id> {
    map x | x in rep :: if rep[x] == lo then hi else rep[x]
  }

  /** All of `lo`'s class moves under `hi`; the size recorded for `lo` goes stale, as in the code. */
  function Relink(p: Partition, hi: Id, lo: Id): Partition
    requires Closed(p) && hi in p.rep && lo in p.rep
  {
    Partition(Move(p.rep, hi, lo), p.size[hi := p.size[hi] + p.size[lo]])
  }

  /** Union by size: the smaller class moves under the larger one's representative, a tie keeps `a`'s. */
  function Join(p: Partition, a: Id, b: Id): Partition
    requires Closed(p) && a in p.rep && b in p.rep
  {
    assert Represented(p.rep, a) && Represented(p.rep, b);
    var ra, rb := p.rep[a], p.rep[b];
    if ra == rb then p
    else if p.size[ra] < p.size[rb] then Relink(p, rb, ra)
    else Relink(p, ra, rb)
  }

  lemma SingletonsSound(ids: set<Id>)
    ensures Sound(Singletons(ids))
    ensures forall x, y :: x in ids && Same(Singletons(ids), x, y) ==> x == y
  {
    var p := Singletons(ids);
    forall r | r in ids ensures |Class(p.rep, r)| == 1 {
      assert Class(p.rep, r) == {r};
    }
  }

  lemma MoveAddsClasses(rep: map<Id, Id>, hi: Id, lo: Id)
    requires hi in rep && lo in rep && hi != lo
    ensures |Class(Move(rep, hi, lo), hi)| == |Class(rep, hi)| + |Class(rep, lo)|
    ensures forall r :: r != hi && r != lo ==> Class(Move(rep, hi, lo), r) == Class(rep, r)
  {
    assert Class(Move(rep, hi, lo), hi) == Class(rep, hi) + Class(rep, lo);
  }

  lemma RelinkClosed(p: Partition, hi: Id, lo: Id)
    requires Closed(p) && hi in p.rep && lo in p.rep
    requires p.rep[hi] == hi && p.rep[lo] == lo && hi != lo
    ensures Closed(Relink(p, hi, lo))
  {
    var q := Relink(p, hi, lo);
    forall x | x in q.rep ensures Represented(q.rep, x) {
      assert Represented(p.rep, x);
    }
  }

  lemma RelinkSized(p: Partition, hi: Id, lo: Id)
    requires Closed(p) && Sized(p) && hi in p.rep && lo in p.rep
    requires p.rep[hi] == hi && p.rep[lo] == lo && hi != lo
    ensures Sized(Relink(p, hi, lo))
  {
    var q := Relink(p, hi, lo);
    MoveAddsClasses(p.rep, hi, lo);
    forall r {:trigger Class(q.rep, r)} | r in q.rep && q.rep[r] == r
      ensures r in q.size && q.size[r] == |Class(q.rep, r)|
    {
      assert |Class(p.rep, r)| == p.size[r];
      assert |Class(p.rep, lo)| == p.size[lo];
    }
  }

  lemma JoinSound(p: Partition, a: Id, b: Id)
    requires Sound(p) && a in p.rep && b in p.rep
    ensures Sound(Join(p, a, b)) && Join(p, a, b).rep.Keys == p.rep.Keys
  {
    assert Represented(p.rep, a) && Represented(p.rep, b);
    var ra, rb := p.rep[a], p.rep[b];
    if ra != rb {
      var hi, lo := if p.size[ra] < p.size[rb] then rb else ra, if p.size[ra] < p.size[rb] then ra else rb;
      RelinkClosed(p, hi, lo);
      RelinkSized(p, hi, lo);
    }
  }

  lemma JoinClosed(p: Partition, a: Id, b: Id)
    requires Closed(p) && a in p.rep && b in p.rep
    ensures Closed(Join(p, a, b)) && Join(p, a, b).rep.Keys == p.rep.Keys
  {
    assert Represented(p.rep, a) && Represented(p.rep, b);
    var ra, rb := p.rep[a], p.rep[b];
    if ra != rb {
      RelinkClosed(p, ra, rb);
      RelinkClosed(p, rb, ra);
    }
  }

  lemma HasRepresentative(p: Partition, x: Id)
    requires Closed(p) && x in p.rep
    ensures p.rep[x] in p.rep && p.rep[x] in p.size
  {
    assert Represented(p.rep, x);
  }

  /** Joining merges exactly the two classes named and nothing else. */
  lemma JoinMergesExactly(p: Partition, a: Id, b: Id, x: Id, y: Id)
    requires Closed(p) && a in p.rep && b in p.rep && x in p.rep && y in p.rep
    ensures Same(Join(p, a, b), x, y) <==>
      Same(p, x, y) || (Same(p, x, a) && Same(p, y, b)) || (Same(p, x, b) && Same(p, y, a))
  {
  }

  /** One node of the forest: its parent is in the same class and strictly shallower, unless it is the root. */
  ghost predicate Hangs(parent: map<Id, Id>, rep: map<Id, Id>, bound: map<Id, nat>, x: Id)
    requires parent.Keys == rep.Keys == bound.Keys && x in parent
  {
    && parent[x] in parent
    && rep[parent[x]] == rep[x]
    && (parent[x] == x <==> rep[x] == x)
    && (if parent[x] == x then bound[x] == 0 else bound[parent[x]] < bound[x])
  }

  /** `parent` is a forest whose trees are the classes of `rep`; `bound` caps the depth of every node. */
  ghost predicate Forest(parent: map<Id, Id>, rep: map<Id, Id>, bound: map<Id, nat>) {
    && parent.Keys == rep.Keys == bound.Keys
    && forall x {:trigger Hangs(parent, rep, bound, x)} :: x in parent ==> Hangs(parent, rep, bound, x)
  }

  ghost predicate Paid(p: Partition, bound: map<Id, nat>, x: Id)
    requires Closed(p) && p.rep.Keys == bound.Keys && x in p.rep
  {
    assert Represented(p.rep, x);
    Pow2(bound[x]) <= p.size[p.rep[x]]
  }

  /** The whole structure: a forest for a sound partition, each depth bound d paid for by 2^d members. */
  ghost predicate Balanced(parent: map<Id, Id>, p: Partition, bound: map<Id, nat>) {
    && Sound(p)
    && Forest(parent, p.rep, bound)
    && forall x {:trigger Paid(p, bound, x)} :: x in parent ==> Paid(p, bound, x)
  }

  /** How many parent links a lookup of `x` follows. */
  ghost function Depth(parent: map<Id, Id>, rep: map<Id, Id>, bound: map<Id, nat>, x: Id): nat
    requires Forest(parent, rep, bound) && x in parent
    decreases bound[x]
  {
    assert Hangs(parent, rep, bound, x);
    if parent[x] == x then 0 else 1 + Depth(parent, rep, bound, parent[x])
  }

  lemma {:induction false} DepthAtMostBound(parent: map<Id, Id>, rep: map<Id, Id>, bound: map<Id, nat>, x: Id)
    requires Forest(parent, rep, bound) && x in parent
    ensures Depth(parent, rep, bound, x) <= bound[x]
    decreases bound[x]
  {
    assert Hangs(parent, rep, bound, x);
    if parent[x] == x {
    } else {
      DepthAtMostBound(parent, rep, bound, parent[x]);
    }
  }

  /** Lookups are logarithmic: 2^depth never exceeds the size of the class, hence never the item count. */
  lemma LookupsAreLogarithmic(parent: map<Id, Id>, p: Partition, bound: map<Id, nat>, x: Id)
    requires Balanced(parent, p, bound) && x in parent
    ensures Pow2(Depth(parent, p.rep, bound, x)) <= |Class(p.rep, p.rep[x])| <= |p.rep|
  {
    assert Represented(p.rep, x) && Paid(p, bound, x);
    DepthAtMostBound(parent, p.rep, bound, x);
    Pow2Monotone(Depth(parent, p.rep, bound, x), bound[x]);
    assert Class(p.rep, p.rep[x]) <= p.rep.Keys;
    SubsetSize(Class(p.rep, p.rep[x]), p.rep.Keys);
  }

  lemma SubsetSize<T>(a: set<T>, b: set<T>)
    requires a <= b
    ensures |a| <= |b|
  {
    assert b == a + (b - a);
  }

  /** Pointing one node straight at its root changes no representative and no bound. */
  lemma CompressionKeepsBalance(parent: map<Id, Id>, p: Partition, bound: map<Id, nat>, x: Id)
    requires Balanced(parent, p, bound) && x in parent && p.rep[x] != x
    ensures Balanced(parent[x := p.rep[x]], p, bound)
  {
    var after := parent[x := p.rep[x]];
    assert Represented(p.rep, x);
    assert Hangs(parent, p.rep, bound, x) && Hangs(parent, p.rep, bound, p.rep[x]);
    forall y | y in after ensures Hangs(after, p.rep, bound, y) {
      assert Hangs(parent, p.rep, bound, y);
    }
  }

  ghost predicate Shortcut(before: map<Id, Id>, after: map<Id, Id>, rep: map<Id, Id>, x: Id)
    requires before.Keys == after.Keys == rep.Keys && x in rep
  {
    after[x] == before[x] || after[x] == rep[x]
  }

  /** Compression only ever replaces a parent by the representative. */
  ghost predicate OnlyShortcuts(before: map<Id, Id>, after: map<Id, Id>, rep: map<Id, Id>) {
    && before.Keys == after.Keys == rep.Keys
    && forall x {:trigger Shortcut(before, after, rep, x)} :: x in rep ==> Shortcut(before, after, rep, x)
  }

  ghost function Deepen(rep: map<Id, Id>, bound: map<Id, nat>, lo: Id): map<Id, nat>
    requires rep.Keys == bound.Keys
  {
    map x | x in bound :: if rep[x] == lo then bound[x] + 1 else bound[x]
  }

  /** Linking the root of the smaller class below the other root keeps 2^depth within the size. */
  lemma LinkKeepsBalance(parent: map<Id, Id>, p: Partition, bound: map<Id, nat>, hi: Id, lo: Id)
    requires Balanced(parent, p, bound) && hi in parent && lo in parent
    requires p.rep[hi] == hi && p.rep[lo] == lo && hi != lo && p.size[lo] <= p.size[hi]
    ensures Balanced(parent[lo := hi], Relink(p, hi, lo), Deepen(p.rep, bound, lo))
  {
    RelinkClosed(p, hi, lo);
    RelinkSized(p, hi, lo);
    LinkHangs(parent, p.rep, bound, hi, lo);
    var after, q, deeper := parent[lo := hi], Relink(p, hi, lo), Deepen(p.rep, bound, lo);
    forall y | y in after ensures Paid(q, deeper, y) {
      assert Paid(p, bound, y) && Represented(p.rep, y);
    }
  }

  lemma LinkHangs(parent: map<Id, Id>, rep: map<Id, Id>, bound: map<Id, nat>, hi: Id, lo: Id)
    requires Forest(parent, rep, bound) && hi in parent && lo in parent
    requires rep[hi] == hi && rep[lo] == lo && hi != lo
    ensures Forest(parent[lo := hi], Move(rep, hi, lo), Deepen(rep, bound, lo))
  {
    var after, rep', deeper := parent[lo := hi], Move(rep, hi, lo), Deepen(rep, bound, lo);
    assert Hangs(parent, rep, bound, hi);
    forall y | y in after ensures Hangs(after, rep', deeper, y) {
      assert Hangs(parent, rep, bound, y);
    }
  }

  lemma RootsFixed(parent: map<Id, Id>, p: Partition, bound: map<Id, nat>, a: Id, b: Id)
    requires Balanced(parent, p, bound) && a in p.rep && b in p.rep
    ensures Closed(p) && parent.Keys == p.rep.Keys == bound.Keys
    ensures p.rep[a] in parent && p.rep[b] in parent
    ensures p.rep[p.rep[a]] == p.rep[a] && p.rep[p.rep[b]] == p.rep[b]
  {
    assert Represented(p.rep, a) && Represented(p.rep, b);
  }

  function Elements(items: seq<Id>): set<Id> {
    set x | x in items
  }

  predicate Covers(items: seq<Id>, rep: map<Id, Id>) {
    forall k :: 0 <= k < |items| ==> items[k] in rep
  }

  function Members(items: seq<Id>, rep: map<Id, Id>, r: Id): seq<Id>
    requires Covers(items, rep)
  {
    if items == [] then []
    else
      var last := items[|items| - 1];
      Members(items[..|items| - 1], rep, r) + (if rep[last] == r then [last] else [])
  }

  /** The representatives in the order in which their classes are first met. */
  function Roots(items: seq<Id>, rep: map<Id, Id>): seq<Id>
    requires Covers(items, rep)
  {
    if items == [] then []
    else
      var before, r := Roots(items[..|items| - 1], rep), rep[items[|items| - 1]];
      if r in before then before else before + [r]
  }

  lemma {:induction false} MembersExact(items: seq<Id>, rep: map<Id, Id>, r: Id)
    requires Covers(items, rep)
    ensures forall x :: x in Members(items, rep, r) <==> x in items && rep[x] == r
    ensures forall k :: 0 <= k < |items| && rep[items[k]] == r ==> items[k] in Members(items, rep, r)
    ensures Distinct(items) ==> Distinct(Members(items, rep, r))
  {
    if items == [] {
    } else {
      MembersExact(items[..|items| - 1], rep, r);
    }
  }

  lemma {:induction false} RootsExact(items: seq<Id>, rep: map<Id, Id>)
    requires Covers(items, rep)
    ensures Distinct(Roots(items, rep))
    ensures forall x :: x in items ==> rep[x] in Roots(items, rep)
    ensures forall r :: r in Roots(items, rep) ==> exists k :: 0 <= k < |items| && rep[items[k]] == r
  {
    if items == [] {
    } else {
      var front := items[..|items| - 1];
      RootsExact(front, rep);
      assert items[|items| - 1] in items;
      var r := rep[items[|items| - 1]];
      forall s | s in Roots(items, rep) ensures exists k :: 0 <= k < |items| && rep[items[k]] == s {
        if s in Roots(front, rep) {
          var k :| 0 <= k < |front| && rep[front[k]] == s;
          assert items[k] == front[k];
        }
      }
    }
  }

  class UnionFind {
    const items: seq<Id>
    var parent: map<Id, Id>
    var size: map<Id, nat>
    ghost var rep: map<Id, Id>
    ghost var bound: map<Id, nat>

    ghost function Parts(): Partition
      reads this
    {
      Partition(rep, size)
    }

    ghost predicate Valid()
      reads this
    {
      && Balanced(parent, Parts(), bound)
      && rep.Keys == Elements(items)
    }

    constructor (items: seq<Id>)
      ensures Valid() && this.items == items
      ensures Parts() == Singletons(Elements(items))
    {
      this.items := items;
      parent := map x | x in items :: x;
      size := map x | x in items :: 1;
      rep := map x | x in items :: x;
      bound := map x | x in items :: 0;
      new;
      SingletonsSound(Elements(items));
      assert Parts() == Singletons(Elements(items));
    }

    /** Both loops of the lookup: walk up to the root, then point every node on the way at it. */
    method Find(item: Id) returns (root: Id, ghost hops: nat)
      requires Valid() && item in rep
      modifies this`parent
      ensures hops == old(Depth(parent, rep, bound, item))
      ensures Valid() && root == rep[item] && parent[item] == root
      ensures OnlyShortcuts(old(parent), parent, rep)
    {
      root, hops := item, 0;
      while parent[root] != root
        invariant root in rep && rep[root] == rep[item]
        invariant hops + Depth(parent, rep, bound, root) == Depth(parent, rep, bound, item)
        decreases bound[root]
      {
        assert Hangs(parent, rep, bound, root);
        root, hops := parent[root], hops + 1;
      }
      assert Hangs(parent, rep, bound, root);
      var node := item;
      while parent[node] != root
        invariant Valid() && node in rep && rep[node] == root && rep[root] == root
        invariant parent[item] == root || node == item
        invariant OnlyShortcuts(old(parent), parent, rep)
        decreases bound[node]
      {
        assert Hangs(parent, rep, bound, node) && Hangs(parent, rep, bound, parent[node]);
        CompressionKeepsBalance(parent, Parts(), bound, node);
        forall x {:trigger Shortcut(old(parent), parent[node := root], rep, x)} | x in rep
          ensures Shortcut(old(parent), parent[node := root], rep, x)
        {
          assert Shortcut(old(parent), parent, rep, x);
        }
        parent, node := parent[node := root], parent[node];
      }
    }

    method Union(a: Id, b: Id) returns (joined: bool)
      requires Valid() && a in rep && b in rep
      modifies this
      ensures Valid()
      ensures Parts() == Join(old(Parts()), a, b)
      ensures joined <==> old(rep[a] != rep[b])
    {
      hide Balanced, Closed;
      var ra, _ := Find(a);
      var rb, _ := Find(b);
      if ra == rb {
        return false;
      }
      ghost var before := Parts();
      RootsFixed(parent, before, bound, a, b);
      if size[ra] < size[rb] {
        ra, rb := rb, ra;
      }
      LinkKeepsBalance(parent, before, bound, ra, rb);
      parent := parent[rb := ra];
      size := size[ra := size[ra] + size[rb]];
      bound := Deepen(rep, bound, rb);
      rep := Move(rep, ra, rb);
      assert Parts() == Relink(before, ra, rb);
      return true;
    }

    /** The classes, each in item order, keyed by root; `roots` is the order the dictionary keeps. */
    method Groups() returns (roots: seq<Id>, out: map<Id, seq<Id>>)
      requires Valid()
      modifies this`parent
      ensures Valid()
      ensures roots == Roots(items, rep) && out.Keys == set r | r in roots
      ensures forall r :: r in out ==> out[r] == Members(items, rep, r)
    {
      roots, out := [], map[];
      for k := 0 to |items|
        invariant Valid()
        invariant roots == Roots(items[..k], rep) && out.Keys == set r | r in roots
        invariant forall r :: r in out ==> out[r] == Members(items[..k], rep, r)
      {
        hide Balanced;
        assert items[..k + 1][..k] == items[..k];
        assert items[k] in items;
        var r, _ := Find(items[k]);
        if r !in out {
          NoMembersYet(items[..k], rep, r);
          roots := roots + [r];
          out := out[r := [items[k]]];
        } else {
          out := out[r := out[r] + [items[k]]];
        }
      }
      assert items[..|items|] == items;
    }
  }

  lemma NoMembersYet(items: seq<Id>, rep: map<Id, Id>, r: Id)
    requires Covers(items, rep)
    requires r !in Roots(items, rep)
    ensures Members(items, rep, r) == []
  {
    RootsExact(items, rep);
    MembersExact(items, rep, r);
    assert forall x :: x !in Members(items, rep, r);
  }
}
