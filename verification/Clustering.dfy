/**
 `_same_finding` and `_cluster_by_same_finding`: findings are grouped into the connected components
 of a relation that is symmetric but neither transitive nor, for inverted line ranges, reflexive.
 */
module Clustering {
  import opened Base
  import opened Dicts
  import opened UnionFind

  datatype Location = Location(file: Option<string>, startLine: Option<int>, endLine: Option<int>)

  /** The parts of a classified finding that clustering, deduplication and formatting read. */
  datatype Finding = Finding(
    sliceId: string,
    ruleId: string,
    contributingRuleIds: seq<string>,
    location: Option<Location>,
    sinkLabel: Option<string>,
    classification: string,
    finalSeverity: string,
    finalConfidence: real,
    hasSnippet: bool,
    pathNodes: seq<string>)

  /** `_normalize_sink`, left as a parameter: any function from labels to tokens. */
  type Normalizer = Option<string> -> string

  function FileKey(f: Finding): Option<string> {
    if f.location.None? then None else f.location.value.file
  }

  function StartLine(f: Finding): int {
    if f.location.None? then 0 else f.location.value.startLine.GetOr(0)
  }

  function EndLine(f: Finding): int {
    if f.location.None? then 0 else f.location.value.endLine.GetOr(0)
  }

  predicate SameFinding(norm: Normalizer, a: Finding, b: Finding) {
    && FileKey(a) == FileKey(b)
    && StartLine(a) <= EndLine(b) && StartLine(b) <= EndLine(a)
    && norm(a.sinkLabel) == norm(b.sinkLabel)
  }

  /** The finding reports this line; without lines it reports line 0. */
  predicate Covers(f: Finding, line: int) {
    if f.location.None? then line == 0
    else f.location.value.startLine.GetOr(0) <= line <= f.location.value.endLine.GetOr(0)
  }

  /** The file a finding is reported in: none for want of a location or of a file name. */
  predicate InFile(f: Finding, file: Option<string>) {
    if f.location.Some? then f.location.value.file == file else file == None
  }

  /**
   Two findings that report any line at all are the same exactly when they lie in one file, their sinks have one token,
   and some line is reported by both.
   */
  lemma SameFindingMeaning(norm: Normalizer, a: Finding, b: Finding)
    ensures SameFinding(norm, a, b) && (exists line :: Covers(a, line)) && (exists line :: Covers(b, line)) <==>
      && (exists file :: InFile(a, file) && InFile(b, file))
      && norm(a.sinkLabel) == norm(b.sinkLabel)
      && exists line :: Covers(a, line) && Covers(b, line)
  {
    assert InFile(a, FileKey(a)) && InFile(b, FileKey(b));
    if SameFinding(norm, a, b) && (exists line :: Covers(a, line)) && (exists line :: Covers(b, line)) {
      var line := if StartLine(a) < StartLine(b) then StartLine(b) else StartLine(a);
      assert Covers(a, line) && Covers(b, line);
    }
    assert Covers(a, StartLine(a)) <==> exists line :: Covers(a, line);
    assert Covers(b, StartLine(b)) <==> exists line :: Covers(b, line);
  }

  /** A finding whose line range is inverted reports no line, and is not even the same as itself. */
  lemma InvertedIsAlone(norm: Normalizer, a: Finding)
    ensures SameFinding(norm, a, a) <==> exists line :: Covers(a, line)
  {
    assert Covers(a, StartLine(a)) <==> exists line :: Covers(a, line);
  }

  /** A chain of positions in which each finding is the same finding as the next. */
  ghost predicate Chain(norm: Normalizer, items: seq<Finding>, p: seq<nat>) {
    && p != []
    && (forall k :: 0 <= k < |p| ==> p[k] < |items|)
    && forall k :: 0 <= k < |p| - 1 ==> SameFinding(norm, items[p[k]], items[p[k + 1]])
  }

  /** The reference meaning of "one cluster": joined by a chain of `_same_finding` links. */
  ghost predicate Linked(norm: Normalizer, items: seq<Finding>, i: nat, j: nat) {
    exists p: seq<nat> :: Chain(norm, items, p) && p[0] == i && Last(p) == j
  }

  lemma LinkedSelf(norm: Normalizer, items: seq<Finding>, i: nat)
    requires i < |items|
    ensures Linked(norm, items, i, i)
  {
    assert Chain(norm, items, [i]);
  }

  lemma LinkedPair(norm: Normalizer, items: seq<Finding>, i: nat, j: nat)
    requires i < |items| && j < |items| && SameFinding(norm, items[i], items[j])
    ensures Linked(norm, items, i, j)
  {
    assert Chain(norm, items, [i, j]);
  }

  /** What follows the first link of a chain is a chain. */
  lemma ChainTail(norm: Normalizer, items: seq<Finding>, p: seq<nat>)
    requires Chain(norm, items, p) && |p| > 1
    ensures SameFinding(norm, items[p[0]], items[p[1]]) && Chain(norm, items, p[1..]) && Last(p[1..]) == Last(p)
  {
    forall k | 0 <= k < |p[1..]| - 1 ensures SameFinding(norm, items[p[1..][k]], items[p[1..][k + 1]]) {
      assert SameFinding(norm, items[p[k + 1]], items[p[k + 2]]);
    }
  }

  lemma LinkedTrans(norm: Normalizer, items: seq<Finding>, i: nat, j: nat, k: nat)
    requires Linked(norm, items, i, j) && Linked(norm, items, j, k)
    ensures Linked(norm, items, i, k)
  {
    var p: seq<nat> :| Chain(norm, items, p) && p[0] == i && Last(p) == j;
    var r: seq<nat> :| Chain(norm, items, r) && r[0] == j && Last(r) == k;
    var z: seq<nat> := p + r[1..];
    forall x | 0 <= x < |z| - 1 ensures SameFinding(norm, items[z[x]], items[z[x + 1]]) {
      if x >= |p| - 1 {
        assert z[x] == r[x - |p| + 1] && z[x + 1] == r[x - |p| + 2];
      }
    }
    assert Chain(norm, items, z);
  }

  lemma LinkedSym(norm: Normalizer, items: seq<Finding>, i: nat, j: nat)
    requires Linked(norm, items, i, j)
    ensures Linked(norm, items, j, i)
  {
    var p: seq<nat> :| Chain(norm, items, p) && p[0] == i && Last(p) == j;
    var r: seq<nat> := seq(|p|, k requires 0 <= k < |p| => p[|p| - 1 - k]);
    forall k | 0 <= k < |r| - 1 ensures SameFinding(norm, items[r[k]], items[r[k + 1]]) {
      var m := |p| - 2 - k;
      assert SameFinding(norm, items[p[m]], items[p[m + 1]]);
    }
    assert Chain(norm, items, r);
  }

  /** Along a chain the file and the sink's token stay the same. */
  lemma {:induction false} ChainAgrees(norm: Normalizer, items: seq<Finding>, p: seq<nat>, file: Option<string>)
    requires Chain(norm, items, p) && InFile(items[p[0]], file)
    ensures InFile(items[Last(p)], file) && norm(items[p[0]].sinkLabel) == norm(items[Last(p)].sinkLabel)
    decreases |p|
  {
    if |p| == 1 {
    } else {
      ChainTail(norm, items, p);
      ChainAgrees(norm, items, p[1..], file);
    }
  }

  /** Findings of one component lie in one file and their sinks have one token. */
  lemma ComponentsAgree(norm: Normalizer, items: seq<Finding>, groups: seq<seq<nat>>, i: nat, j: nat)
    requires Components(norm, items, groups) && Together(groups, i, j)
    ensures i < |items| && j < |items|
    ensures exists file :: InFile(items[i], file) && InFile(items[j], file)
    ensures norm(items[i].sinkLabel) == norm(items[j].sinkLabel)
  {
    var p: seq<nat> :| Chain(norm, items, p) && p[0] == i && Last(p) == j;
    assert InFile(items[i], FileKey(items[i]));
    ChainAgrees(norm, items, p, FileKey(items[i]));
  }

  // ----- labels (union-find roots) against chains

  /** Elements with one label are linked. */
  ghost predicate Sound(norm: Normalizer, items: seq<Finding>, root: seq<nat>) {
    && |root| == |items|
    && forall x: nat, y: nat :: x < |root| && y < |root| && root[x] == root[y] ==> Linked(norm, items, x, y)
  }

  /** Directly same findings have one label. */
  ghost predicate Complete(norm: Normalizer, items: seq<Finding>, root: seq<nat>) {
    && |root| == |items|
    && forall x: nat, y: nat :: x < |root| && y < |root| && x != y && SameFinding(norm, items[x], items[y]) ==>
         root[x] == root[y]
  }

  lemma RelabelSound(norm: Normalizer, items: seq<Finding>, root: seq<nat>, i: nat, j: nat)
    requires Sound(norm, items, root) && i < |root| && j < |root| && Linked(norm, items, i, j)
    ensures Sound(norm, items, Relabel(root, root[i], root[j]))
  {
    var next := Relabel(root, root[i], root[j]);
    forall x: nat, y: nat | x < |next| && y < |next| && next[x] == next[y] ensures Linked(norm, items, x, y) {
      if root[x] != root[y] {
        if root[x] == root[i] {
          LinkedTrans(norm, items, x, i, j);
          LinkedTrans(norm, items, x, j, y);
        } else {
          LinkedSym(norm, items, i, j);
          LinkedTrans(norm, items, x, j, i);
          LinkedTrans(norm, items, x, i, y);
        }
      }
    }
  }

  lemma {:induction false} ChainSameLabel(norm: Normalizer, items: seq<Finding>, root: seq<nat>, p: seq<nat>)
    requires Complete(norm, items, root) && Chain(norm, items, p)
    ensures root[p[0]] == root[Last(p)]
    decreases |p|
  {
    if |p| == 1 {
    } else {
      ChainTail(norm, items, p);
      ChainSameLabel(norm, items, root, p[1..]);
    }
  }

  lemma LabelsAreComponents(norm: Normalizer, items: seq<Finding>, root: seq<nat>, i: nat, j: nat)
    requires Sound(norm, items, root) && Complete(norm, items, root) && i < |root| && j < |root|
    ensures root[i] == root[j] <==> Linked(norm, items, i, j)
  {
    if Linked(norm, items, i, j) {
      var p: seq<nat> :| Chain(norm, items, p) && p[0] == i && Last(p) == j;
      ChainSameLabel(norm, items, root, p);
    }
  }

  // ----- groups

  ghost predicate Increasing(g: seq<nat>) {
    forall a, b :: 0 <= a < b < |g| ==> g[a] < g[b]
  }

  ghost predicate Together(groups: seq<seq<nat>>, i: nat, j: nat) {
    exists k :: 0 <= k < |groups| && i in groups[k] && j in groups[k]
  }

  /** Every position below `n` lies in exactly one group; groups come in order of their first members. */
  ghost predicate Partition(groups: seq<seq<nat>>, n: nat) {
    && (forall k :: 0 <= k < |groups| ==> groups[k] != [] && Increasing(groups[k]))
    && (forall k, i :: 0 <= k < |groups| && i in groups[k] ==> i < n)
    && (forall i: nat :: i < n ==> Together(groups, i, i))
    && (forall k, l :: 0 <= k < l < |groups| ==> groups[k][0] < groups[l][0])
    && (forall k, l, i :: 0 <= k < |groups| && 0 <= l < |groups| && i in groups[k] && i in groups[l] ==> k == l)
  }

  /** The groups are exactly the connected components of the same-finding relation. */
  ghost predicate Components(norm: Normalizer, items: seq<Finding>, groups: seq<seq<nat>>) {
    && Partition(groups, |items|)
    && forall i: nat, j: nat :: i < |items| && j < |items| ==> (Together(groups, i, j) <==> Linked(norm, items, i, j))
  }

  function Pick(items: seq<Finding>, group: seq<nat>): seq<Finding>
    requires forall k :: 0 <= k < |group| ==> group[k] < |items|
  {
    seq(|group|, k requires 0 <= k < |group| => items[group[k]])
  }

  /** State of the bucket dictionary after filing the first `n` findings. */
  ghost predicate Filed(items: seq<Finding>, byFile: Dict<Option<string>, seq<nat>>, n: nat) {
    && byFile.Valid() && n <= |items|
    && (forall i: nat :: i < n ==> FileKey(items[i]) in byFile.vals && i in byFile.vals[FileKey(items[i])])
    && (forall f, i :: f in byFile.vals && i in byFile.vals[f] ==> i < n)
  }

  /** The positions below `n` that carry label `r`, in order. */
  ghost function Members(root: seq<nat>, r: nat, n: nat): seq<nat>
    requires n <= |root|
  {
    if n == 0 then [] else Members(root, r, n - 1) + (if root[n - 1] == r then [n - 1] else [])
  }

  lemma OneMore(g: seq<nat>, m: nat)
    requires Increasing(g) && forall i :: i in g ==> i < m
    ensures Increasing(g + [m]) && forall i :: i in g + [m] <==> i in g || i == m
  {
    assert forall a :: 0 <= a < |g| ==> g[a] in g;
  }

  lemma {:induction false} MembersMeaning(root: seq<nat>, r: nat, n: nat)
    requires n <= |root|
    ensures forall i :: i in Members(root, r, n) <==> 0 <= i < n && root[i] == r
    ensures Increasing(Members(root, r, n))
  {
    if n == 0 {
    } else {
      MembersMeaning(root, r, n - 1);
      var g := Members(root, r, n - 1);
      if root[n - 1] == r {
        OneMore(g, n - 1);
      } else {
        assert Members(root, r, n) == g;
      }
    }
  }

  /** The cluster dictionary after placing the first `n` findings. */
  ghost function ClusterDict(root: seq<nat>, n: nat): (d: Dict<nat, seq<nat>>)
    requires n <= |root|
    ensures d.Valid()
  {
    if n == 0 then Empty()
    else
      var d := ClusterDict(root, n - 1);
      d.Put(root[n - 1], d.GetOr(root[n - 1], []) + [n - 1])
  }

  lemma ClusterDictStep(root: seq<nat>, n: nat)
    requires n < |root|
    ensures var d, next, r := ClusterDict(root, n), ClusterDict(root, n + 1), root[n];
      && next.vals == d.vals[r := d.GetOr(r, []) + [n]]
      && next.keys == if r in d.vals then d.keys else d.keys + [r]
  {
  }

  lemma MembersStep(root: seq<nat>, r: nat, n: nat)
    requires n < |root|
    ensures Members(root, r, n + 1) == if root[n] == r then Members(root, r, n) + [n] else Members(root, r, n)
  {
  }

  /** The dictionary's entry for a label is the list of positions that carry it. */
  ghost predicate EntryIsMembers(root: seq<nat>, n: nat, r: nat)
    requires n <= |root|
  {
    var vals := ClusterDict(root, n).vals;
    Members(root, r, n) == (if r in vals then vals[r] else []) && (r in vals ==> vals[r] != [])
  }

  lemma EntryStart(root: seq<nat>, r: nat)
    ensures EntryIsMembers(root, 0, r)
  {
  }

  lemma EntryStep(root: seq<nat>, n: nat, r: nat)
    requires n < |root| && EntryIsMembers(root, n, r)
    ensures EntryIsMembers(root, n + 1, r)
  {
    hide ClusterDict, Members;
    ClusterDictStep(root, n);
    MembersStep(root, r, n);
  }

  lemma {:induction false} ClusterDictMembers(root: seq<nat>, n: nat, r: nat)
    requires n <= |root|
    ensures EntryIsMembers(root, n, r)
  {
    hide *;
    if n == 0 {
      EntryStart(root, r);
    } else {
      ClusterDictMembers(root, n - 1, r);
      EntryStep(root, n - 1, r);
    }
  }

  lemma FirstMemberStays(root: seq<nat>, n: nat, r: nat)
    requires n < |root| && r in ClusterDict(root, n).vals
    ensures Members(root, r, n) != [] && Members(root, r, n + 1)[0] == Members(root, r, n)[0]
    ensures Members(root, r, n + 1) != [] && Members(root, r, n)[0] < n
  {
    hide ClusterDict;
    ClusterDictMembers(root, n, r);
    MembersMeaning(root, r, n);
    assert Members(root, r, n)[0] in Members(root, r, n);
  }

  ghost predicate FirstMemberBefore(root: seq<nat>, n: nat, a: nat, b: nat)
    requires n <= |root|
  {
    Members(root, a, n) != [] && Members(root, b, n) != [] && Members(root, a, n)[0] < Members(root, b, n)[0]
  }

  /** Clusters are listed in the order of their first members. */
  lemma {:induction false} ClusterDictOrder(root: seq<nat>, n: nat, k: nat, l: nat)
    requires n <= |root| && k < l < |ClusterDict(root, n).keys|
    ensures FirstMemberBefore(root, n, ClusterDict(root, n).keys[k], ClusterDict(root, n).keys[l])
  {
    if n == 0 {
    } else {
      hide ClusterDict, Members;
      var m := n - 1;
      var d, keys := ClusterDict(root, m), ClusterDict(root, n).keys;
      ClusterDictStep(root, m);
      assert keys[k] == d.keys[k] && d.keys[k] in d.keys;
      FirstMemberStays(root, m, keys[k]);
      if l < |d.keys| {
        assert keys[l] == d.keys[l] && d.keys[l] in d.keys;
        ClusterDictOrder(root, m, k, l);
        FirstMemberStays(root, m, keys[l]);
      } else {
        assert keys[l] == root[m] && keys[l] !in d.vals;
        ClusterDictMembers(root, m, keys[l]);
        MembersStep(root, keys[l], m);
      }
    }
  }

  lemma GroupsAreMembers(root: seq<nat>, k: nat)
    requires k < |ClusterDict(root, |root|).keys|
    ensures var d := ClusterDict(root, |root|);
      Values(d)[k] == Members(root, d.keys[k], |root|) && Values(d)[k] != []
  {
    var d := ClusterDict(root, |root|);
    assert d.keys[k] in d.keys;
    ClusterDictMembers(root, |root|, d.keys[k]);
  }

  lemma TogetherIsSameLabel(root: seq<nat>, i: nat, j: nat)
    requires i < |root| && j < |root|
    ensures Together(Values(ClusterDict(root, |root|)), i, j) <==> root[i] == root[j]
  {
    hide ClusterDict;
    var d := ClusterDict(root, |root|);
    var groups := Values(d);
    MembersMeaning(root, root[i], |root|);
    if Together(groups, i, j) {
      var k :| 0 <= k < |groups| && i in groups[k] && j in groups[k];
      GroupsAreMembers(root, k);
      MembersMeaning(root, d.keys[k], |root|);
    }
    if root[i] == root[j] {
      ClusterDictMembers(root, |root|, root[i]);
      assert root[i] in d.keys;
      var k :| 0 <= k < |d.keys| && d.keys[k] == root[i];
      GroupsAreMembers(root, k);
      assert i in groups[k] && j in groups[k];
    }
  }

  lemma GroupsDisjoint(root: seq<nat>, k: nat, l: nat, i: nat)
    requires var groups := Values(ClusterDict(root, |root|));
      k < |groups| && l < |groups| && i in groups[k] && i in groups[l]
    ensures k == l
  {
    hide ClusterDict;
    var d := ClusterDict(root, |root|);
    GroupsAreMembers(root, k);
    GroupsAreMembers(root, l);
    MembersMeaning(root, d.keys[k], |root|);
    MembersMeaning(root, d.keys[l], |root|);
    assert Distinct(d.keys);
  }

  lemma LabelsPartition(root: seq<nat>)
    ensures Partition(Values(ClusterDict(root, |root|)), |root|)
  {
    hide ClusterDict, Members;
    var d := ClusterDict(root, |root|);
    var groups := Values(d);
    forall k | 0 <= k < |groups|
      ensures groups[k] != [] && Increasing(groups[k]) && forall i :: i in groups[k] ==> i < |root|
    {
      GroupsAreMembers(root, k);
      MembersMeaning(root, d.keys[k], |root|);
    }
    forall k, l | 0 <= k < l < |groups| ensures groups[k][0] < groups[l][0] {
      GroupsAreMembers(root, k);
      GroupsAreMembers(root, l);
      ClusterDictOrder(root, |root|, k, l);
    }
    forall i: nat | i < |root| ensures Together(groups, i, i) {
      TogetherIsSameLabel(root, i, i);
    }
    forall k, l, i | 0 <= k < |groups| && 0 <= l < |groups| && i in groups[k] && i in groups[l] ensures k == l {
      GroupsDisjoint(root, k, l, i);
    }
  }

  /** The finished cluster dictionary lists the connected components. */
  lemma LabelsGiveComponents(norm: Normalizer, items: seq<Finding>, root: seq<nat>)
    requires Sound(norm, items, root) && Complete(norm, items, root)
    ensures Components(norm, items, Values(ClusterDict(root, |root|)))
  {
    hide ClusterDict, Partition, Together, Linked;
    LabelsPartition(root);
    forall i: nat, j: nat | i < |items| && j < |items|
      ensures Together(Values(ClusterDict(root, |root|)), i, j) <==> Linked(norm, items, i, j)
    {
      TogetherIsSameLabel(root, i, j);
      LabelsAreComponents(norm, items, root, i, j);
    }
  }

  ghost predicate PairsJoined(norm: Normalizer, items: seq<Finding>, root: seq<nat>, indices: seq<nat>, a: nat, b: nat)
    requires |root| == |items| && forall k :: 0 <= k < |indices| ==> indices[k] < |items|
  {
    forall x, y :: 0 <= x < y < |indices| && (x < a || (x == a && y < b)) ==>
      SameFinding(norm, items[indices[x]], items[indices[y]]) ==> root[indices[x]] == root[indices[y]]
  }

  lemma RelabelKeepsPairs(norm: Normalizer, items: seq<Finding>, root: seq<nat>, indices: seq<nat>, a: nat, b: nat,
                          i: nat, j: nat)
    requires |root| == |items| && forall k :: 0 <= k < |indices| ==> indices[k] < |items|
    requires i < |root| && j < |root| && PairsJoined(norm, items, root, indices, a, b)
    ensures PairsJoined(norm, items, Relabel(root, root[i], root[j]), indices, a, b)
  {
  }

  ghost predicate BucketsJoined(norm: Normalizer, items: seq<Finding>, root: seq<nat>,
                                byFile: Dict<Option<string>, seq<nat>>, f: nat)
    requires |root| == |items|
  {
    forall k :: 0 <= k < f && k < |byFile.keys| && byFile.keys[k] in byFile.vals ==>
      var indices := byFile.vals[byFile.keys[k]];
      && (forall x :: 0 <= x < |indices| ==> indices[x] < |items|)
      && PairsJoined(norm, items, root, indices, |indices|, 0)
  }

  lemma RelabelKeepsBuckets(norm: Normalizer, items: seq<Finding>, root: seq<nat>,
                            byFile: Dict<Option<string>, seq<nat>>, f: nat, i: nat, j: nat)
    requires |root| == |items| && i < |root| && j < |root| && BucketsJoined(norm, items, root, byFile, f)
    ensures BucketsJoined(norm, items, Relabel(root, root[i], root[j]), byFile, f)
  {
  }

  /** What holds throughout the pairwise comparison loops: at bucket `f`, outer index `a`, inner index `b`. */
  ghost predicate Comparing(norm: Normalizer, items: seq<Finding>, root: seq<nat>,
                            byFile: Dict<Option<string>, seq<nat>>, f: nat, a: nat, b: nat) {
    && Sound(norm, items, root)
    && Filed(items, byFile, |items|)
    && f < |byFile.keys|
    && BucketsJoined(norm, items, root, byFile, f)
    && byFile.keys[f] in byFile.vals
    && var indices := byFile.vals[byFile.keys[f]];
    && (forall x :: 0 <= x < |indices| ==> indices[x] < |items|)
    && PairsJoined(norm, items, root, indices, a, b)
  }

  lemma StartBucket(norm: Normalizer, items: seq<Finding>, root: seq<nat>, byFile: Dict<Option<string>, seq<nat>>,
                    f: nat)
    requires Sound(norm, items, root) && Filed(items, byFile, |items|) && f < |byFile.keys|
    requires BucketsJoined(norm, items, root, byFile, f)
    ensures Comparing(norm, items, root, byFile, f, 0, 0)
  {
    assert byFile.keys[f] in byFile.keys;
    var indices := byFile.vals[byFile.keys[f]];
    assert forall x :: 0 <= x < |indices| ==> indices[x] in indices;
  }

  /** The compared pair is joined when it is the same finding, and needs no joining otherwise. */
  lemma PairDone(norm: Normalizer, items: seq<Finding>, root: seq<nat>, byFile: Dict<Option<string>, seq<nat>>,
                 f: nat, a: nat, b: nat)
    requires Comparing(norm, items, root, byFile, f, a, b)
    ensures var indices := byFile.vals[byFile.keys[f]];
      a < b < |indices| ==>
        if SameFinding(norm, items[indices[a]], items[indices[b]])
        then Comparing(norm, items, Relabel(root, root[indices[a]], root[indices[b]]), byFile, f, a, b + 1)
        else Comparing(norm, items, root, byFile, f, a, b + 1)
  {
    var indices := byFile.vals[byFile.keys[f]];
    if a < b < |indices| && SameFinding(norm, items[indices[a]], items[indices[b]]) {
      var i, j := indices[a], indices[b];
      LinkedPair(norm, items, i, j);
      RelabelSound(norm, items, root, i, j);
      RelabelKeepsBuckets(norm, items, root, byFile, f, i, j);
      RelabelKeepsPairs(norm, items, root, indices, a, b, i, j);
    }
  }

  lemma StillSound(norm: Normalizer, items: seq<Finding>, root: seq<nat>, byFile: Dict<Option<string>, seq<nat>>,
                   f: nat, a: nat, b: nat)
    requires Comparing(norm, items, root, byFile, f, a, b)
    ensures Sound(norm, items, root)
  {
  }

  lemma RowDone(norm: Normalizer, items: seq<Finding>, root: seq<nat>, byFile: Dict<Option<string>, seq<nat>>, f: nat,
                a: nat, b: nat)
    requires Comparing(norm, items, root, byFile, f, a, b)
    ensures b == 0 ==> Comparing(norm, items, root, byFile, f, a, a + 1)
    ensures b >= |byFile.vals[byFile.keys[f]]| ==> Comparing(norm, items, root, byFile, f, a + 1, 0)
    ensures a == |byFile.vals[byFile.keys[f]]| ==> BucketsJoined(norm, items, root, byFile, f + 1)
  {
  }

  /** Comparing only within a file misses nothing, because the same finding never spans two files. */
  lemma BucketsSuffice(norm: Normalizer, items: seq<Finding>, root: seq<nat>, byFile: Dict<Option<string>, seq<nat>>)
    requires |root| == |items| && Filed(items, byFile, |items|)
    requires BucketsJoined(norm, items, root, byFile, |byFile.keys|)
    ensures Complete(norm, items, root)
  {
    forall x: nat, y: nat | x < |root| && y < |root| && x != y && SameFinding(norm, items[x], items[y])
      ensures root[x] == root[y]
    {
      BucketSuffices(norm, items, root, byFile, x, y);
    }
  }

  lemma BucketSuffices(norm: Normalizer, items: seq<Finding>, root: seq<nat>, byFile: Dict<Option<string>, seq<nat>>,
                       x: nat, y: nat)
    requires |root| == |items| && Filed(items, byFile, |items|)
    requires BucketsJoined(norm, items, root, byFile, |byFile.keys|)
    requires x < |root| && y < |root| && x != y && SameFinding(norm, items[x], items[y])
    ensures root[x] == root[y]
  {
    var f := FileKey(items[x]);
    assert f in byFile.keys;
    var k :| 0 <= k < |byFile.keys| && byFile.keys[k] == f;
    var indices := byFile.vals[f];
    assert x in indices && y in indices;
    hide Filed, Linked;
    assert PairsJoined(norm, items, root, indices, |indices|, 0);
    var a :| 0 <= a < |indices| && indices[a] == x;
    var b :| 0 <= b < |indices| && indices[b] == y;
    assert a < b ==> SameFinding(norm, items[indices[a]], items[indices[b]]);
    assert b < a ==> SameFinding(norm, items[indices[b]], items[indices[a]]);
  }

  lemma AlonePerLabel(norm: Normalizer, items: seq<Finding>, root: seq<nat>)
    requires root == seq(|items|, i => i)
    ensures Sound(norm, items, root)
  {
    forall x: nat | x < |items| ensures Linked(norm, items, x, x) {
      LinkedSelf(norm, items, x);
    }
  }

  /** The loop that fills `by_file`. */
  method BucketByFile(items: seq<Finding>) returns (byFile: Dict<Option<string>, seq<nat>>)
    ensures Filed(items, byFile, |items|)
  {
    byFile := Empty();
    for idx := 0 to |items|
      invariant Filed(items, byFile, idx)
    {
      var key := FileKey(items[idx]);
      byFile := byFile.Put(key, byFile.GetOr(key, []) + [idx]);
    }
  }

  /** `_cluster_by_same_finding`; `groups` holds the positions behind each returned cluster. */
  method ClusterBySameFinding(norm: Normalizer, items: seq<Finding>)
    returns (result: seq<seq<Finding>>, groups: seq<seq<nat>>)
    ensures Components(norm, items, groups)
    ensures |result| == |groups|
    ensures forall k :: 0 <= k < |groups| ==>
              (forall x :: 0 <= x < |groups[k]| ==> groups[k][x] < |items|) && result[k] == Pick(items, groups[k])
  {
    hide Sound, Linked, Rooted, BucketsJoined, PairsJoined, Relabel, ClusterDict, Partition, Filed;
    var byFile := BucketByFile(items);
    var forest := new Forest(|items|);
    AlonePerLabel(norm, items, forest.root);
    JoinBuckets(norm, items, byFile, forest);
    ghost var root := forest.root;
    BucketsSuffice(norm, items, root, byFile);
    LabelsGiveComponents(norm, items, root);

    var clusters := PlaceAll(items, forest);
    groups := Values(clusters);
    forall k, x | 0 <= k < |groups| && 0 <= x < |groups[k]| ensures groups[k][x] < |items| {
      assert groups[k][x] in groups[k];
      GroupWithin(norm, items, groups, k, groups[k][x]);
    }
    result := seq(|groups|,
                  k requires 0 <= k < |groups| && (forall x :: 0 <= x < |groups[k]| ==> groups[k][x] < |items|)
                    => Pick(items, groups[k]));
  }

  lemma GroupWithin(norm: Normalizer, items: seq<Finding>, groups: seq<seq<nat>>, k: nat, i: nat)
    requires Components(norm, items, groups) && k < |groups| && i in groups[k]
    ensures i < |items|
  {
  }

  lemma NothingJoined(norm: Normalizer, items: seq<Finding>, root: seq<nat>, byFile: Dict<Option<string>, seq<nat>>)
    requires |root| == |items|
    ensures BucketsJoined(norm, items, root, byFile, 0)
  {
  }

  /** The comparison loops: within each file's bucket, every pair is compared and the same findings are joined. */
  method JoinBuckets(norm: Normalizer, items: seq<Finding>, byFile: Dict<Option<string>, seq<nat>>, forest: Forest)
    requires forest.Valid() && forest.parent.Length == |items| && |forest.root| == |items|
    requires Sound(norm, items, forest.root) && Filed(items, byFile, |items|)
    modifies forest, forest.parent
    ensures forest.Valid() && |forest.root| == |items|
    ensures Sound(norm, items, forest.root) && BucketsJoined(norm, items, forest.root, byFile, |byFile.keys|)
  {
    hide Rooted, Sound, BucketsJoined, PairsJoined, Relabel, Comparing;
    NothingJoined(norm, items, forest.root, byFile);
    for f := 0 to |byFile.keys|
      invariant forest.Valid() && |forest.root| == |items|
      invariant Sound(norm, items, forest.root) && BucketsJoined(norm, items, forest.root, byFile, f)
    {
      assert byFile.keys[f] in byFile.keys;
      var indices := byFile.vals[byFile.keys[f]];
      assert forall x :: 0 <= x < |indices| ==> indices[x] in indices;
      StartBucket(norm, items, forest.root, byFile, f);
      for a := 0 to |indices|
        invariant forest.Valid() && |forest.root| == |items|
        invariant Comparing(norm, items, forest.root, byFile, f, a, 0)
      {
        RowDone(norm, items, forest.root, byFile, f, a, 0);
        for b := a + 1 to |indices|
          invariant forest.Valid() && |forest.root| == |items|
          invariant Comparing(norm, items, forest.root, byFile, f, a, b)
        {
          PairDone(norm, items, forest.root, byFile, f, a, b);
          var i, j := indices[a], indices[b];
          if SameFinding(norm, items[i], items[j]) {
            forest.Union(i, j);
          }
        }
        RowDone(norm, items, forest.root, byFile, f, a, |indices|);
      }
      RowDone(norm, items, forest.root, byFile, f, |indices|, 0);
      assert Sound(norm, items, forest.root) by {
        StillSound(norm, items, forest.root, byFile, f, |indices|, 0);
      }
    }
  }

  /** The final pass: each finding joins its representative's cluster. */
  method PlaceAll(items: seq<Finding>, forest: Forest) returns (clusters: Dict<nat, seq<nat>>)
    requires forest.Valid() && forest.parent.Length == |items| && |forest.root| == |items|
    modifies forest.parent
    ensures forest.Valid()
    ensures clusters == ClusterDict(forest.root, |items|)
  {
    hide Rooted, ClusterDict;
    clusters := Empty();
    NothingPlaced(forest.root);
    for idx := 0 to |items|
      invariant forest.Valid() && clusters == ClusterDict(forest.root, idx)
    {
      var r := forest.Find(idx);
      PlaceNext(forest.root, idx);
      clusters := clusters.Put(r, clusters.GetOr(r, []) + [idx]);
    }
  }

  lemma NothingPlaced(root: seq<nat>)
    ensures ClusterDict(root, 0) == Empty()
  {
  }

  lemma PlaceNext(root: seq<nat>, n: nat)
    requires n < |root|
    ensures var d := ClusterDict(root, n);
      ClusterDict(root, n + 1) == d.Put(root[n], d.GetOr(root[n], []) + [n])
  {
  }
}
