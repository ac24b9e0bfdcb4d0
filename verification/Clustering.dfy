/** clustering.py and blocking.py: the staged merge of postings into one cluster per job.
    The stages are written as functions over an abstract state; `ClusterPostings` is the program,
    with its dictionaries and nested loops over the mutable union-find, proved equal to them. */
module Clustering {
  import opened Prelude
  import opened Text
  import opened DisjointSets
  import SimHash

  const MIN_SIMHASH_CHARS := 400

  datatype Candidate = Candidate(
    id: Id, source: string, externalId: string, company: Option<string>, title: string,
    url: Option<string>, simhash: Option<int>, postedAt: Option<real>, length: int,
    location: Option<string>, atsNative: bool)

  datatype Config = Config(
    hammingMax: int, titleTokens: int, semanticThreshold: real, maxPerUrl: int,
    similarity: Option<(Id, Id) -> Option<real>>)

  datatype Reason = ExactKey | CanonicalUrl | TitleExact | CloseText | Semantic | Singleton

  datatype Cluster = Cluster(key: string, members: seq<Id>, canonical: Id, reasons: map<Id, Reason>)

  // ---- decisions about single postings and pairs ----

  /** A missing or empty string is "unknown": both are falsy in the code. */
  predicate Known(s: Option<string>) {
    s.Some? && s.value != ""
  }

  function OrElse(a: Option<string>, b: Option<string>): Option<string> {
    if Known(a) then a else b
  }

  predicate Compatible(a: Option<string>, b: Option<string>) {
    !Known(a) || !Known(b) || a == b
  }

  function BlockingKey(company: Option<string>, title: string, titleTokens: int): string {
    (if Known(company) then company.value else "?") + "|" + Joined(Head(Words(title), titleTokens))
  }

  predicate IsShortPair(a: Candidate, b: Candidate) {
    Min(a.length, b.length) < MIN_SIMHASH_CHARS
  }

  predicate CloseHashes(cfg: Config, a: Candidate, b: Candidate) {
    a.simhash.Some? && b.simhash.Some? && SimHash.Hamming(a.simhash.value, b.simhash.value) <= cfg.hammingMax
  }

  predicate CloseMeaning(cfg: Config, a: Candidate, b: Candidate) {
    && cfg.similarity.Some?
    && var score := cfg.similarity.value(a.id, b.id);
       score.Some? && score.value > cfg.semanticThreshold
  }

  /** What the text stages would record for a pair, location aside; None when they would not merge it. */
  function TextEvidence(cfg: Config, a: Candidate, b: Candidate): Option<Reason> {
    if a.source == b.source then None
    else if IsShortPair(a, b) then if a.title == b.title then Some(TitleExact) else None
    else if CloseHashes(cfg, a, b) then Some(CloseText)
    else if CloseMeaning(cfg, a, b) then Some(Semantic)
    else None
  }

  // ---- grouping: a dictionary of lists, in insertion order ----

  function KeysOf<T, K(==)>(items: seq<T>, key: T -> Option<K>): seq<K> {
    if items == [] then []
    else
      var before, k := KeysOf(items[..|items| - 1], key), key(items[|items| - 1]);
      if k.None? || k.value in before then before else before + [k.value]
  }

  function Bucket<T, K(==)>(items: seq<T>, key: T -> Option<K>, k: K): seq<T> {
    if items == [] then []
    else
      var last := items[|items| - 1];
      Bucket(items[..|items| - 1], key, k) + if key(last) == Some(k) then [last] else []
  }

  function Buckets<T, K(==)>(items: seq<T>, key: T -> Option<K>, keys: seq<K>): seq<seq<T>> {
    seq(|keys|, i requires 0 <= i < |keys| => Bucket(items, key, keys[i]))
  }

  function GroupsOf<T, K(==)>(items: seq<T>, key: T -> Option<K>): seq<seq<T>> {
    Buckets(items, key, KeysOf(items, key))
  }

  function SourceKey(c: Candidate): Option<(string, string)> {
    Some((c.source, c.externalId))
  }

  function UrlKey(c: Candidate): Option<string> {
    if Known(c.url) then c.url else None
  }

  function BlockKey(cfg: Config): Candidate -> Option<string> {
    (c: Candidate) => Some(BlockingKey(c.company, c.title, cfg.titleTokens))
  }

  // ---- the abstract state ----

  /** `loc` is the cluster_location dictionary, which keeps stale entries for former roots. */
  datatype State = State(part: Partition, loc: map<Id, Option<string>>, why: map<Id, Reason>)

  /** Whose entry `merge` consults: the items it was given (the code), or their roots (its comment). */
  datatype LocationRule = ByItem | ByRoot

  predicate Ready(st: State) {
    Closed(st.part) && st.loc.Keys == st.part.rep.Keys
  }

  predicate AllIn(cs: seq<Candidate>, ids: set<Id>) {
    forall k :: 0 <= k < |cs| ==> cs[k].id in ids
  }

  predicate EachAllIn(groups: seq<seq<Candidate>>, ids: set<Id>) {
    forall g :: 0 <= g < |groups| ==> AllIn(groups[g], ids)
  }

  function Items(st: State): set<Id> {
    st.part.rep.Keys
  }

  function Ids(cs: seq<Candidate>): seq<Id> {
    if cs == [] then []
    else
      var before, id := Ids(cs[..|cs| - 1]), cs[|cs| - 1].id;
      if id in before then before else before + [id]
  }

  function ById(cs: seq<Candidate>): map<Id, Candidate> {
    if cs == [] then map[] else ById(cs[..|cs| - 1])[cs[|cs| - 1].id := cs[|cs| - 1]]
  }

  function Locations(cs: seq<Candidate>): map<Id, Option<string>> {
    if cs == [] then map[] else Locations(cs[..|cs| - 1])[cs[|cs| - 1].id := cs[|cs| - 1].location]
  }

  lemma {:induction false} IdsExact(cs: seq<Candidate>)
    ensures Distinct(Ids(cs))
    ensures forall k :: 0 <= k < |cs| ==> cs[k].id in Ids(cs)
    ensures ById(cs).Keys == Locations(cs).Keys == Elements(Ids(cs))
  {
    if cs == [] {
    } else {
      IdsExact(cs[..|cs| - 1]);
      var ids, before := Ids(cs), Ids(cs[..|cs| - 1]);
      assert Elements(ids) == Elements(before) + {cs[|cs| - 1].id};
    }
  }

  lemma {:induction false} ByIdExact(cs: seq<Candidate>, x: Id)
    requires x in ById(cs)
    ensures ById(cs)[x] in cs && ById(cs)[x].id == x
    ensures x in Locations(cs) && Locations(cs)[x] == ById(cs)[x].location
  {
    if x == cs[|cs| - 1].id {
    } else {
      ByIdExact(cs[..|cs| - 1], x);
    }
  }

  function Init(cs: seq<Candidate>): (st: State)
    ensures Ready(st) && AllIn(cs, Items(st)) && Items(st) == Elements(Ids(cs))
  {
    IdsExact(cs);
    SingletonsSound(Elements(Ids(cs)));
    State(Singletons(Elements(Ids(cs))), Locations(cs), map[])
  }

  function SetDefault(why: map<Id, Reason>, x: Id, r: Reason): map<Id, Reason> {
    if x in why then why else why[x := r]
  }

  function LocationFor(rule: LocationRule, st: State, x: Id): Option<string>
    requires Ready(st) && x in st.part.rep
  {
    assert Represented(st.part.rep, x);
    match rule
    case ByItem => st.loc[x]
    case ByRoot => st.loc[st.part.rep[x]]
  }

  function RootLocation(st: State, x: Id): Option<string>
    requires Ready(st) && x in st.part.rep
  {
    LocationFor(ByRoot, st, x)
  }

  function Merge(rule: LocationRule, st: State, a: Id, b: Id, r: Reason): (next: State)
    requires Ready(st) && a in st.part.rep && b in st.part.rep
    ensures Ready(next) && Items(next) == Items(st)
  {
    if Same(st.part, a, b) then st
    else
      JoinClosed(st.part, a, b);
      var part := Join(st.part, a, b);
      assert Represented(part.rep, a);
      State(part,
            st.loc[part.rep[a] := OrElse(LocationFor(rule, st, a), LocationFor(rule, st, b))],
            SetDefault(SetDefault(st.why, b, r), a, r))
  }

  // ---- stages 1 and 2: everything in a group joins the group's first posting ----

  function MergeStar(rule: LocationRule, st: State, group: seq<Candidate>, k: nat, r: Reason): (next: State)
    requires Ready(st) && AllIn(group, Items(st)) && 1 <= k
    ensures Ready(next) && Items(next) == Items(st)
    decreases |group| - k
  {
    if k >= |group| then st
    else MergeStar(rule, Merge(rule, st, group[0].id, group[k].id, r), group, k + 1, r)
  }

  function MergeGroups(rule: LocationRule, st: State, groups: seq<seq<Candidate>>, g: nat, cap: Option<int>, r: Reason)
    : (next: State)
    requires Ready(st) && EachAllIn(groups, Items(st))
    ensures Ready(next) && Items(next) == Items(st)
    decreases |groups| - g
  {
    if g >= |groups| then st
    else if cap.Some? && |groups[g]| > cap.value then MergeGroups(rule, st, groups, g + 1, cap, r)
    else MergeGroups(rule, MergeStar(rule, st, groups[g], 1, r), groups, g + 1, cap, r)
  }

  // ---- stages 3 to 5: every pair of a block, in order ----

  function TextPair(rule: LocationRule, cfg: Config, st: State, a: Candidate, b: Candidate): (next: State)
    requires Ready(st) && a.id in st.part.rep && b.id in st.part.rep
    ensures Ready(next) && Items(next) == Items(st)
  {
    var evidence := TextEvidence(cfg, a, b);
    if Same(st.part, a.id, b.id) || evidence.None? then st
    else if !Compatible(RootLocation(st, a.id), RootLocation(st, b.id)) then st
    else Merge(rule, st, a.id, b.id, evidence.value)
  }

  function TextRow(rule: LocationRule, cfg: Config, st: State, block: seq<Candidate>, i: nat, j: nat): (next: State)
    requires Ready(st) && AllIn(block, Items(st)) && i < |block| && i < j
    ensures Ready(next) && Items(next) == Items(st)
    decreases |block| - j
  {
    if j >= |block| then st
    else TextRow(rule, cfg, TextPair(rule, cfg, st, block[i], block[j]), block, i, j + 1)
  }

  function TextBlock(rule: LocationRule, cfg: Config, st: State, block: seq<Candidate>, i: nat): (next: State)
    requires Ready(st) && AllIn(block, Items(st))
    ensures Ready(next) && Items(next) == Items(st)
    decreases |block| - i
  {
    if i >= |block| then st
    else TextBlock(rule, cfg, TextRow(rule, cfg, st, block, i, i + 1), block, i + 1)
  }

  function TextBlocks(rule: LocationRule, cfg: Config, st: State, blocks: seq<seq<Candidate>>, g: nat): (next: State)
    requires Ready(st) && EachAllIn(blocks, Items(st))
    ensures Ready(next) && Items(next) == Items(st)
    decreases |blocks| - g
  {
    if g >= |blocks| then st
    else TextBlocks(rule, cfg, TextBlock(rule, cfg, st, blocks[g], 0), blocks, g + 1)
  }

  // ---- the whole run ----

  lemma {:induction false} BucketElements<T, K>(items: seq<T>, key: T -> Option<K>, k: K)
    ensures forall x :: x in Bucket(items, key, k) <==> x in items && key(x) == Some(k)
    ensures |Bucket(items, key, k)| <= |items|
  {
    if items == [] {
    } else {
      BucketElements(items[..|items| - 1], key, k);
    }
  }

  lemma GroupsAllIn<K>(cs: seq<Candidate>, key: Candidate -> Option<K>, ids: set<Id>)
    requires AllIn(cs, ids)
    ensures EachAllIn(GroupsOf(cs, key), ids)
  {
    var groups := GroupsOf(cs, key);
    forall i | 0 <= i < |groups| ensures AllIn(groups[i], ids) {
      BucketElements(cs, key, KeysOf(cs, key)[i]);
      assert forall k :: 0 <= k < |groups[i]| ==> groups[i][k] in cs;
    }
  }

  function AfterExactStages(rule: LocationRule, cs: seq<Candidate>, cfg: Config): (st: State)
    ensures Ready(st) && AllIn(cs, Items(st)) && Items(st) == Elements(Ids(cs))
  {
    var s0 := Init(cs);
    GroupsAllIn(cs, SourceKey, Items(s0));
    var s1 := MergeGroups(rule, s0, GroupsOf(cs, SourceKey), 0, None, ExactKey);
    GroupsAllIn(cs, UrlKey, Items(s1));
    MergeGroups(rule, s1, GroupsOf(cs, UrlKey), 0, Some(cfg.maxPerUrl), CanonicalUrl)
  }

  function Run(rule: LocationRule, cs: seq<Candidate>, cfg: Config): (st: State)
    ensures Ready(st) && AllIn(cs, Items(st)) && Items(st) == Elements(Ids(cs))
  {
    var s2 := AfterExactStages(rule, cs, cfg);
    GroupsAllIn(cs, BlockKey(cfg), Items(s2));
    TextBlocks(rule, cfg, s2, GroupsOf(cs, BlockKey(cfg)), 0)
  }

  // ---- stages 6 and 7: output ----

  function PostedOrder(a: Candidate, b: Candidate): int {
    match (a.postedAt, b.postedAt)
    case (None, None) => 0
    case (None, Some(_)) => 1
    case (Some(_), None) => -1
    case (Some(x), Some(y)) => if x < y then -1 else if x > y then 1 else 0
  }

  /** The tuple comparison of the canonical pick: employer's own ATS, longest text, earliest date, id. */
  predicate Precedes(a: Candidate, b: Candidate) {
    if a.atsNative != b.atsNative then a.atsNative
    else if a.length != b.length then a.length > b.length
    else if PostedOrder(a, b) != 0 then PostedOrder(a, b) < 0
    else a.id < b.id
  }

  /** The head of the stable sort: the first posting that no later one strictly precedes. */
  function CanonicalPick(members: seq<Candidate>): Candidate
    requires members != []
  {
    if |members| == 1 then members[0]
    else
      var best, last := CanonicalPick(members[..|members| - 1]), members[|members| - 1];
      if Precedes(last, best) then last else best
  }

  function InsertBy<T>(s: seq<T>, x: T, key: T -> int): seq<T> {
    if s == [] then [x]
    else if key(x) < key(s[|s| - 1]) then InsertBy(s[..|s| - 1], x, key) + [s[|s| - 1]]
    else s + [x]
  }

  /** A stable sort by an integer key. */
  function SortBy<T>(s: seq<T>, key: T -> int): seq<T> {
    if s == [] then [] else InsertBy(SortBy(s[..|s| - 1], key), s[|s| - 1], key)
  }

  function Lookup(ids: seq<Id>, byId: map<Id, Candidate>): seq<Candidate>
    requires Elements(ids) <= byId.Keys
  {
    seq(|ids|, i requires 0 <= i < |ids| => assert ids[i] in Elements(ids); byId[ids[i]])
  }

  function ClusterOf(cfg: Config, byId: map<Id, Candidate>, why: map<Id, Reason>, ids: seq<Id>): Cluster
    requires ids != [] && Elements(ids) <= byId.Keys
  {
    var best := CanonicalPick(Lookup(ids, byId));
    Cluster(BlockingKey(best.company, best.title, cfg.titleTokens),
            SortBy(ids, x => x),
            best.id,
            map x | x in ids :: if x in why then why[x] else Singleton)
  }
}
