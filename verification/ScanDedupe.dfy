/**
 `ScanService._dedupe_vulnerabilities`: data-flow findings collapse by sink, regex findings give way
 to a nearby data-flow sink and collapse by line, and equal data-flow paths collapse last.
 */
module ScanDedupe {
  import opened Base
  import opened Dicts

  /**
   A finding as the three steps read it: `typeKey` is `_vuln_type_group`, `fileKey` is `_path_key`
   of the normalised file and `sinkLine` is `_extract_sink_line`.
   */
  datatype Vuln = Vuln(
    id: string,
    typeKey: string,
    fileKey: string,
    pattern: string,
    sinkLine: int,
    sink: string,
    startLine: int,
    path: seq<string>,
    confidence: real)

  type DfgKey = (string, string, int, string)
  type RegexKey = (string, string, int)

  predicate IsDfg(v: Vuln) {
    v.pattern == "DFG_FLOW"
  }

  function DfgKeyOf(v: Vuln): DfgKey {
    (v.typeKey, v.fileKey, v.sinkLine, v.sink)
  }

  function RegexKeyOf(v: Vuln): RegexKey {
    (v.typeKey, v.fileKey, v.startLine)
  }

  /** `_vuln_score(a) > _vuln_score(b)`, comparing (is data flow, path length, confidence). */
  predicate Better(a: Vuln, b: Vuln) {
    || (IsDfg(a) && !IsDfg(b))
    || (IsDfg(a) == IsDfg(b) && (|| |a.path| > |b.path|
                                 || (|a.path| == |b.path| && a.confidence > b.confidence)))
  }

  /** The sink line `sl` of a data-flow finding of the same type and file lies within three lines of `v`. */
  predicate NearLine(v: Vuln, sl: int) {
    -3 <= v.startLine - sl <= 3
  }

  predicate NearKey(v: Vuln, k: DfgKey) {
    k.0 == v.typeKey && k.1 == v.fileKey && NearLine(v, k.2)
  }

  // ----- specification functions

  /** A keyed pass keeping, for each key, the first of the best-scored findings. */
  function KeepBest<K(!new,==)>(vs: seq<Vuln>, key: Vuln -> K): (d: Dict<K, Vuln>)
    ensures d.Valid()
  {
    if vs == [] then Empty()
    else Offer(KeepBest(vs[..|vs| - 1], key), key(Last(vs)), Last(vs))
  }

  function Offer<K(!new,==)>(d: Dict<K, Vuln>, k: K, v: Vuln): (d': Dict<K, Vuln>)
    requires d.Valid()
    ensures d'.Valid()
  {
    if k !in d.vals || Better(v, d.vals[k]) then d.Put(k, v) else d
  }

  function DfgOnly(vs: seq<Vuln>): seq<Vuln> {
    if vs == [] then []
    else DfgOnly(vs[..|vs| - 1]) + (if IsDfg(Last(vs)) then [Last(vs)] else [])
  }

  function RegexOnly(vs: seq<Vuln>): seq<Vuln> {
    if vs == [] then []
    else RegexOnly(vs[..|vs| - 1]) + (if IsDfg(Last(vs)) then [] else [Last(vs)])
  }

  ghost predicate Superseded(dfg: Dict<DfgKey, Vuln>, v: Vuln) {
    exists k :: k in dfg.vals && NearKey(v, k)
  }

  /** Step 1b: the findings no data-flow sink supersedes. */
  ghost function Unsuperseded(dfg: Dict<DfgKey, Vuln>, vs: seq<Vuln>): seq<Vuln> {
    if vs == [] then []
    else Unsuperseded(dfg, vs[..|vs| - 1]) + (if Superseded(dfg, Last(vs)) then [] else [Last(vs)])
  }

  ghost function DfgPass(vs: seq<Vuln>): (d: Dict<DfgKey, Vuln>)
    ensures d.Valid()
  {
    KeepBest(DfgOnly(vs), DfgKeyOf)
  }

  ghost function RegexPass(vs: seq<Vuln>): (d: Dict<RegexKey, Vuln>)
    ensures d.Valid()
  {
    KeepBest(Unsuperseded(DfgPass(vs), RegexOnly(vs)), RegexKeyOf)
  }

  ghost function Step1(vs: seq<Vuln>): seq<Vuln> {
    Values(DfgPass(vs)) + Values(RegexPass(vs))
  }

  /** Step 2 on a prefix: the list so far, and where each non-empty path sits in it. */
  datatype Collapsed = Collapsed(final: seq<Vuln>, pathSeen: map<seq<string>, nat>)

  function CollapseOne(c: Collapsed, v: Vuln): Collapsed
    requires forall p :: p in c.pathSeen ==> c.pathSeen[p] < |c.final|
  {
    if v.path == [] then c.(final := c.final + [v])
    else if v.path !in c.pathSeen then Collapsed(c.final + [v], c.pathSeen[v.path := |c.final|])
    else if Better(v, c.final[c.pathSeen[v.path]]) then c.(final := c.final[c.pathSeen[v.path] := v])
    else c
  }

  function Collapse(vs: seq<Vuln>): (c: Collapsed)
    ensures forall p :: p in c.pathSeen ==> c.pathSeen[p] < |c.final|
  {
    if vs == [] then Collapsed([], map[])
    else CollapseOne(Collapse(vs[..|vs| - 1]), Last(vs))
  }

  ghost function Dedupe(vs: seq<Vuln>): seq<Vuln> {
    Collapse(Step1(vs)).final
  }

  // ----- the method, step by step

  lemma EmptyPasses()
    ensures DfgPass([]) == Empty() && RegexOnly([]) == []
  {
    assert DfgOnly([]) == [];
  }

  lemma PassStep(vs: seq<Vuln>, i: nat)
    requires i < |vs|
    ensures DfgPass(vs[..i + 1])
       == if IsDfg(vs[i]) then Offer(DfgPass(vs[..i]), DfgKeyOf(vs[i]), vs[i]) else DfgPass(vs[..i])
    ensures RegexOnly(vs[..i + 1]) == if IsDfg(vs[i]) then RegexOnly(vs[..i]) else RegexOnly(vs[..i]) + [vs[i]]
  {
    var seen, kept := vs[..i + 1], DfgOnly(vs[..i]);
    assert seen[..|seen| - 1] == vs[..i] && Last(seen) == vs[i];
    assert (kept + [vs[i]])[..|kept|] == kept && kept + [] == kept;
    assert RegexOnly(vs[..i]) + [] == RegexOnly(vs[..i]);
  }

  /** Step 1: data-flow findings keyed by sink, the others set aside. */
  method KeepBestDfg(vulnerabilities: seq<Vuln>) returns (dfgSeen: Dict<DfgKey, Vuln>, regexVulns: seq<Vuln>)
    ensures dfgSeen == DfgPass(vulnerabilities) && dfgSeen.Valid()
    ensures regexVulns == RegexOnly(vulnerabilities)
  {
    hide Better, DfgPass, RegexOnly;
    EmptyPasses();
    dfgSeen := Empty();
    regexVulns := [];
    for i := 0 to |vulnerabilities|
      invariant dfgSeen == DfgPass(vulnerabilities[..i]) && dfgSeen.Valid()
      invariant regexVulns == RegexOnly(vulnerabilities[..i])
    {
      var v := vulnerabilities[i];
      PassStep(vulnerabilities, i);
      if IsDfg(v) {
        var key := DfgKeyOf(v);
        if key !in dfgSeen.vals || Better(v, dfgSeen.vals[key]) {
          dfgSeen := dfgSeen.Put(key, v);
        }
      } else {
        regexVulns := regexVulns + [v];
      }
    }
    assert vulnerabilities[..|vulnerabilities|] == vulnerabilities;
  }

  ghost predicate HasLine(lines: map<(string, string), set<int>>, t: string, f: string, l: int) {
    (t, f) in lines && l in lines[(t, f)]
  }

  ghost predicate KeyHasLine(keys: seq<DfgKey>, n: int, t: string, f: string, l: int) {
    exists j :: 0 <= j < n && j < |keys| && keys[j].0 == t && keys[j].1 == f && keys[j].2 == l
  }

  /** Step 1b: `dfg_sink_lines`, then dropping what a nearby sink covers. */
  method DropSuperseded(dfgSeen: Dict<DfgKey, Vuln>, regexVulns: seq<Vuln>) returns (surviving: seq<Vuln>)
    requires dfgSeen.Valid()
    ensures surviving == Unsuperseded(dfgSeen, regexVulns)
  {
    hide NearLine;
    var dfgSinkLines: map<(string, string), set<int>> := map[];
    for i := 0 to |dfgSeen.keys|
      invariant forall t, f, l :: HasLine(dfgSinkLines, t, f, l) <==> KeyHasLine(dfgSeen.keys, i, t, f, l)
    {
      var k := dfgSeen.keys[i];
      ghost var before := dfgSinkLines;
      var lines := if (k.0, k.1) in dfgSinkLines then dfgSinkLines[(k.0, k.1)] else {};
      dfgSinkLines := dfgSinkLines[(k.0, k.1) := lines + {k.2}];
      forall t, f, l ensures HasLine(dfgSinkLines, t, f, l) <==> KeyHasLine(dfgSeen.keys, i + 1, t, f, l) {
        assert HasLine(dfgSinkLines, t, f, l) <==> HasLine(before, t, f, l) || (t == k.0 && f == k.1 && l == k.2);
        assert KeyHasLine(dfgSeen.keys, i + 1, t, f, l) <==>
               KeyHasLine(dfgSeen.keys, i, t, f, l) || (t == k.0 && f == k.1 && l == k.2);
      }
    }
    surviving := [];
    for i := 0 to |regexVulns|
      invariant surviving == Unsuperseded(dfgSeen, regexVulns[..i])
    {
      var v := regexVulns[i];
      assert regexVulns[..i + 1][..i] == regexVulns[..i];
      var nearby := if (v.typeKey, v.fileKey) in dfgSinkLines then dfgSinkLines[(v.typeKey, v.fileKey)] else {};
      assert forall sl :: sl in nearby <==> HasLine(dfgSinkLines, v.typeKey, v.fileKey, sl);
      NearbyMeansSuperseded(dfgSeen, nearby, v);
      if exists sl :: sl in nearby && NearLine(v, sl) {
        continue;
      }
      surviving := surviving + [v];
    }
    assert regexVulns[..|regexVulns|] == regexVulns;
  }

  lemma NearbyMeansSuperseded(dfgSeen: Dict<DfgKey, Vuln>, nearby: set<int>, v: Vuln)
    requires dfgSeen.Valid()
    requires forall sl :: sl in nearby <==> KeyHasLine(dfgSeen.keys, |dfgSeen.keys|, v.typeKey, v.fileKey, sl)
    ensures (exists sl :: sl in nearby && NearLine(v, sl)) <==> Superseded(dfgSeen, v)
  {
    hide NearLine;
    if Superseded(dfgSeen, v) {
      var k :| k in dfgSeen.vals && NearKey(v, k);
      assert k in dfgSeen.keys;
      assert k.2 in nearby;
    }
    if sl :| sl in nearby && NearLine(v, sl) {
      var keys := dfgSeen.keys;
      var j :| 0 <= j < |keys| && keys[j].0 == v.typeKey && keys[j].1 == v.fileKey && keys[j].2 == sl;
      assert keys[j] in keys && NearKey(v, keys[j]);
    }
  }

  /** Step 1c: the surviving regex findings keyed by line. */
  method KeepBestRegex(surviving: seq<Vuln>) returns (regexSeen: Dict<RegexKey, Vuln>)
    ensures regexSeen == KeepBest(surviving, RegexKeyOf) && regexSeen.Valid()
  {
    hide Better;
    regexSeen := Empty();
    for i := 0 to |surviving|
      invariant regexSeen == KeepBest(surviving[..i], RegexKeyOf) && regexSeen.Valid()
    {
      var v := surviving[i];
      assert surviving[..i + 1][..i] == surviving[..i];
      var key := RegexKeyOf(v);
      if key !in regexSeen.vals || Better(v, regexSeen.vals[key]) {
        regexSeen := regexSeen.Put(key, v);
      }
    }
    assert surviving[..|surviving|] == surviving;
  }

  /** Step 2: collapse by identical data-flow path. */
  method CollapsePaths(step1: seq<Vuln>) returns (final: seq<Vuln>)
    ensures final == Collapse(step1).final
  {
    hide Better;
    var pathSeen: map<seq<string>, nat> := map[];
    final := [];
    for i := 0 to |step1|
      invariant Collapsed(final, pathSeen) == Collapse(step1[..i])
    {
      var v := step1[i];
      assert step1[..i + 1][..i] == step1[..i];
      if v.path == [] {
        final := final + [v];
        continue;
      }
      if v.path !in pathSeen {
        pathSeen := pathSeen[v.path := |final|];
        final := final + [v];
      } else if Better(v, final[pathSeen[v.path]]) {
        final := final[pathSeen[v.path] := v];
      }
    }
    assert step1[..|step1|] == step1;
  }

  /** `_dedupe_vulnerabilities`, file paths taken as already normalised. */
  method DedupeVulnerabilities(vulnerabilities: seq<Vuln>) returns (final: seq<Vuln>)
    ensures final == Dedupe(vulnerabilities)
  {
    hide KeepBest, DfgOnly, RegexOnly, Unsuperseded, Collapse;
    if vulnerabilities == [] {
      EmptyDedupe();
      return [];
    }
    var dfgSeen, regexVulns := KeepBestDfg(vulnerabilities);
    var surviving := DropSuperseded(dfgSeen, regexVulns);
    var regexSeen := KeepBestRegex(surviving);
    final := CollapsePaths(Values(dfgSeen) + Values(regexSeen));
  }

  lemma EmptyDedupe()
    ensures Dedupe([]) == []
  {
    assert DfgOnly([]) == [] && RegexOnly([]) == [];
    var none: Dict<DfgKey, Vuln> := Empty();
    assert DfgPass([]) == none;
    assert Unsuperseded(none, []) == [];
    assert Step1([]) == [];
  }

  // ----- what a keyed pass keeps

  /** Every offered finding is matched by a kept one with its key that it does not beat. */
  lemma {:induction false} KeepBestCovers<K(!new)>(vs: seq<Vuln>, key: Vuln -> K, v: Vuln)
    requires v in vs
    ensures var d := KeepBest(vs, key); key(v) in d.vals && !Better(v, d.vals[key(v)])
  {
    var front, last := vs[..|vs| - 1], Last(vs);
    assert vs == front + [last];
    if v in front {
      KeepBestCovers(front, key, v);
    } else {
      assert v == last;
    }
  }

  lemma {:induction false} KeepBestMembers<K(!new)>(vs: seq<Vuln>, key: Vuln -> K, k: K)
    requires k in KeepBest(vs, key).vals
    ensures var v := KeepBest(vs, key).vals[k]; v in vs && key(v) == k
  {
    var front, last := vs[..|vs| - 1], Last(vs);
    assert vs == front + [last];
    if k in KeepBest(front, key).vals {
      KeepBestMembers(front, key, k);
    } else {
      assert key(last) == k;
    }
  }

  ghost predicate DistinctKeys<K(!new)>(vs: seq<Vuln>, key: Vuln -> K) {
    forall i, j :: 0 <= i < j < |vs| ==> key(vs[i]) != key(vs[j])
  }

  lemma ValuesOfKeepBest<K(!new)>(vs: seq<Vuln>, key: Vuln -> K)
    ensures var r := Values(KeepBest(vs, key)); DistinctKeys(r, key) && forall v :: v in r ==> v in vs
  {
    hide KeepBest;
    var d := KeepBest(vs, key);
    var r := Values(d);
    forall i | 0 <= i < |r| ensures key(r[i]) == d.keys[i] && r[i] in vs {
      assert d.keys[i] in d.keys;
      KeepBestMembers(vs, key, d.keys[i]);
    }
  }

  /** A pass over findings with distinct keys keeps them all, in order. */
  lemma {:induction false} KeepBestIdentity<K(!new)>(vs: seq<Vuln>, key: Vuln -> K)
    requires DistinctKeys(vs, key)
    ensures var d := KeepBest(vs, key); Values(d) == vs && |d.keys| == |vs| && forall i :: 0 <= i < |vs| ==>
      d.keys[i] == key(vs[i])
  {
    if vs == [] {
    } else {
      hide KeepBest;
      var front, last := vs[..|vs| - 1], Last(vs);
      assert vs == front + [last];
      assert forall i :: 0 <= i < |front| ==> front[i] == vs[i];
      KeepBestIdentity(front, key);
      var d := KeepBest(front, key);
      assert key(last) !in d.keys;
      KeepBestFresh(vs, key);
      FreshGoesLast(d, key(last), last);
    }
  }

  lemma KeepBestFresh<K(!new)>(vs: seq<Vuln>, key: Vuln -> K)
    requires vs != [] && key(Last(vs)) !in KeepBest(vs[..|vs| - 1], key).vals
    ensures KeepBest(vs[..|vs| - 1], key).Valid()
    ensures KeepBest(vs, key) == KeepBest(vs[..|vs| - 1], key).Put(key(Last(vs)), Last(vs))
  {
  }

  lemma FreshGoesLast<K(!new), V>(d: Dict<K, V>, k: K, v: V)
    requires d.Valid() && k !in d.vals
    ensures Values(d.Put(k, v)) == Values(d) + [v] && d.Put(k, v).keys == d.keys + [k]
  {
    assert forall i :: 0 <= i < |d.keys| ==> d.keys[i] in d.keys && d.keys[i] != k;
  }

  // ----- the path collapse

  /** Two findings share a non-empty data-flow path. */
  predicate SamePath(a: Vuln, b: Vuln) {
    a.path != [] && a.path == b.path
  }

  ghost predicate DistinctPaths(vs: seq<Vuln>) {
    forall i, j :: 0 <= i < j < |vs| ==> !SamePath(vs[i], vs[j])
  }

  ghost predicate DfgFirst(vs: seq<Vuln>) {
    forall i, j :: 0 <= i < j < |vs| && IsDfg(vs[j]) ==> IsDfg(vs[i])
  }

  /** `pathSeen` is exactly the index of the non-empty paths of `final`. */
  ghost predicate Indexed(c: Collapsed) {
    && (forall p :: p in c.pathSeen ==> c.pathSeen[p] < |c.final| && c.final[c.pathSeen[p]].path == p && p != [])
    && (forall i :: 0 <= i < |c.final| && c.final[i].path != [] ==>
          c.final[i].path in c.pathSeen && c.pathSeen[c.final[i].path] == i)
  }

  lemma {:induction false} CollapseIndexed(vs: seq<Vuln>)
    ensures Indexed(Collapse(vs))
  {
    if vs == [] {
    } else {
      hide Indexed, CollapseOne;
      CollapseIndexed(vs[..|vs| - 1]);
      OneIndexed(Collapse(vs[..|vs| - 1]), Last(vs));
    }
  }

  lemma OneIndexed(c: Collapsed, v: Vuln)
    requires Indexed(c)
    ensures Indexed(CollapseOne(c, v))
  {
    hide Better;
  }

  lemma CollapseDistinct(vs: seq<Vuln>)
    ensures DistinctPaths(Collapse(vs).final)
  {
    CollapseIndexed(vs);
  }

  /** The collapsed list is made of findings at different positions of the input. */
  ghost predicate DrawnFrom(final: seq<Vuln>, vs: seq<Vuln>, pos: seq<int>) {
    && |pos| == |final| && Distinct(pos)
    && forall i :: 0 <= i < |pos| ==> 0 <= pos[i] < |vs| && final[i] == vs[pos[i]]
  }

  lemma {:induction false} CollapseDraws(vs: seq<Vuln>) returns (pos: seq<int>)
    ensures DrawnFrom(Collapse(vs).final, vs, pos)
    decreases |vs|
  {
    hide Better, Indexed;
    pos := [];
    if vs == [] {
    } else {
      var front := vs[..|vs| - 1];
      var c := Collapse(front);
      pos := CollapseDraws(front);
      var v := Last(vs);
      if v.path == [] || v.path !in c.pathSeen {
        pos := pos + [|front|];
      } else if Better(v, c.final[c.pathSeen[v.path]]) {
        pos := pos[c.pathSeen[v.path] := |front|];
      }
    }
  }

  /** A finding stands for itself, or shares a path with one it does not beat. */
  ghost predicate PathCovers(v: Vuln, s: Vuln) {
    v == s || (SamePath(v, s) && !Better(v, s))
  }

  lemma {:induction false} CollapseCovers(vs: seq<Vuln>, v: Vuln) returns (s: Vuln)
    requires v in vs
    ensures s in Collapse(vs).final && PathCovers(v, s)
    decreases |vs|
  {
    var front, last := vs[..|vs| - 1], Last(vs);
    var c := Collapse(front);
    CollapseIndexed(front);
    assert vs == front + [last];
    if v in front {
      s := CollapseCovers(front, v);
      if last.path != [] && last.path in c.pathSeen && Better(last, c.final[c.pathSeen[last.path]]) {
        var at := c.pathSeen[last.path];
        var k :| 0 <= k < |c.final| && c.final[k] == s;
        if k == at {
          s := last;
          assert Collapse(vs).final[at] == last;
        } else {
          assert Collapse(vs).final[k] == s;
        }
      }
    } else if last.path == [] || last.path !in c.pathSeen || Better(last, c.final[c.pathSeen[last.path]]) {
      s := last;
      var at := if last.path == [] || last.path !in c.pathSeen then |c.final| else c.pathSeen[last.path];
      assert Collapse(vs).final[at] == last;
    } else {
      s := c.final[c.pathSeen[last.path]];
    }
  }

  /** Replacing only within a kind keeps data-flow findings in front. */
  lemma {:induction false} CollapseKeepsOrder(vs: seq<Vuln>)
    requires DfgFirst(vs)
    ensures DfgFirst(Collapse(vs).final)
    ensures vs != [] && IsDfg(Last(vs)) ==> forall i :: 0 <= i < |Collapse(vs).final| ==> IsDfg(Collapse(vs).final[i])
  {
    if vs == [] {
    } else {
      var front := vs[..|vs| - 1];
      CollapseKeepsOrder(front);
      if IsDfg(Last(vs)) && front != [] {
        assert IsDfg(Last(front));
      }
    }
  }

  lemma {:induction false} CollapseIdentity(vs: seq<Vuln>)
    requires DistinctPaths(vs)
    ensures Collapse(vs).final == vs
  {
    if vs == [] {
    } else {
      var front := vs[..|vs| - 1];
      CollapseIdentity(front);
      CollapseIndexed(front);
      assert vs == front + [Last(vs)];
      forall p | p in Collapse(front).pathSeen && p != [] ensures p != Last(vs).path {
        assert !SamePath(vs[Collapse(front).pathSeen[p]], vs[|vs| - 1]);
      }
    }
  }

  // ----- the whole pass

  lemma {:induction false} OnlyMembers(vs: seq<Vuln>, v: Vuln)
    ensures v in DfgOnly(vs) <==> v in vs && IsDfg(v)
    ensures v in RegexOnly(vs) <==> v in vs && !IsDfg(v)
  {
    if vs == [] {
    } else {
      OnlyMembers(vs[..|vs| - 1], v);
      assert vs == vs[..|vs| - 1] + [Last(vs)];
    }
  }

  lemma {:induction false} UnsupersededMembers(dfg: Dict<DfgKey, Vuln>, vs: seq<Vuln>, v: Vuln)
    ensures v in Unsuperseded(dfg, vs) <==> v in vs && !Superseded(dfg, v)
  {
    if vs == [] {
    } else {
      hide Superseded;
      UnsupersededMembers(dfg, vs[..|vs| - 1], v);
      assert vs == vs[..|vs| - 1] + [Last(vs)];
    }
  }

  /** Findings of one kind never share that kind's key. */
  ghost predicate KeysDiffer(vs: seq<Vuln>) {
    forall i, j :: 0 <= i < j < |vs| && IsDfg(vs[i]) == IsDfg(vs[j]) ==>
      if IsDfg(vs[i]) then DfgKeyOf(vs[i]) != DfgKeyOf(vs[j]) else RegexKeyOf(vs[i]) != RegexKeyOf(vs[j])
  }

  /** No regex finding lies near the sink of a data-flow finding of its type and file. */
  ghost predicate NoneNearby(vs: seq<Vuln>) {
    forall r, d :: r in vs && d in vs && !IsDfg(r) && IsDfg(d) ==> !NearKey(r, DfgKeyOf(d))
  }

  /** What a deduplicated list is: everything the three steps could collapse has been. */
  ghost predicate Settled(vs: seq<Vuln>) {
    DfgFirst(vs) && KeysDiffer(vs) && NoneNearby(vs) && DistinctPaths(vs)
  }

  lemma DfgPassMembers(vs: seq<Vuln>, v: Vuln)
    requires v in Values(DfgPass(vs))
    ensures v in vs && IsDfg(v) && DfgKeyOf(v) in DfgPass(vs).vals
  {
    hide KeepBest;
    var d := DfgPass(vs);
    var i :| 0 <= i < |d.keys| && Values(d)[i] == v;
    assert d.keys[i] in d.keys;
    KeepBestMembers(DfgOnly(vs), DfgKeyOf, d.keys[i]);
    OnlyMembers(vs, v);
  }

  lemma RegexPassMembers(vs: seq<Vuln>, v: Vuln)
    requires v in Values(RegexPass(vs))
    ensures v in vs && !IsDfg(v) && !Superseded(DfgPass(vs), v)
  {
    hide KeepBest, Superseded;
    var d := RegexPass(vs);
    var i :| 0 <= i < |d.keys| && Values(d)[i] == v;
    assert d.keys[i] in d.keys;
    KeepBestMembers(Unsuperseded(DfgPass(vs), RegexOnly(vs)), RegexKeyOf, d.keys[i]);
    UnsupersededMembers(DfgPass(vs), RegexOnly(vs), v);
    OnlyMembers(vs, v);
  }

  lemma Step1Settled(vs: seq<Vuln>)
    ensures DfgFirst(Step1(vs)) && KeysDiffer(Step1(vs)) && NoneNearby(Step1(vs))
    ensures forall v :: v in Step1(vs) ==> v in vs
  {
    hide DfgPass, RegexPass, NearKey, Better, IsDfg, Values;
    var a, b := Values(DfgPass(vs)), Values(RegexPass(vs));
    forall v | v in a ensures v in vs && IsDfg(v) && DfgKeyOf(v) in DfgPass(vs).vals { DfgPassMembers(vs, v); }
    forall v | v in b ensures v in vs && !IsDfg(v) && !Superseded(DfgPass(vs), v) { RegexPassMembers(vs, v); }
    PassKeys(vs);
    JoinedKeysDiffer(a, b);
  }

  lemma JoinedKeysDiffer(a: seq<Vuln>, b: seq<Vuln>)
    requires (forall v :: v in a ==> IsDfg(v)) && forall v :: v in b ==> !IsDfg(v)
    requires DistinctKeys(a, DfgKeyOf) && DistinctKeys(b, RegexKeyOf)
    ensures DfgFirst(a + b) && KeysDiffer(a + b)
  {
    hide IsDfg;
    assert forall i :: 0 <= i < |a| ==> a[i] in a;
    assert forall i :: 0 <= i < |b| ==> b[i] in b;
  }

  lemma PassKeys(vs: seq<Vuln>)
    ensures DistinctKeys(Values(DfgPass(vs)), DfgKeyOf) && DistinctKeys(Values(RegexPass(vs)), RegexKeyOf)
  {
    ValuesOfKeepBest(DfgOnly(vs), DfgKeyOf);
    ValuesOfKeepBest(Unsuperseded(DfgPass(vs), RegexOnly(vs)), RegexKeyOf);
  }

  /** The output of a deduplication is settled, and made of input findings. */
  lemma DedupeSettles(vs: seq<Vuln>)
    ensures Settled(Dedupe(vs))
    ensures forall v :: v in Dedupe(vs) ==> v in vs
  {
    var step1 := Step1(vs);
    Step1Settled(vs);
    CollapseKeepsOrder(step1);
    CollapseDistinct(step1);
    var pos := CollapseDraws(step1);
    DrawnKeepsKeys(Dedupe(vs), step1, pos);
  }

  lemma DrawnKeepsKeys(final: seq<Vuln>, vs: seq<Vuln>, pos: seq<int>)
    requires DrawnFrom(final, vs, pos) && KeysDiffer(vs) && NoneNearby(vs)
    ensures KeysDiffer(final) && NoneNearby(final) && forall v :: v in final ==> v in vs
  {
    hide NearKey, IsDfg, Better;
    forall i, j | 0 <= i < j < |final| && IsDfg(final[i]) == IsDfg(final[j])
      ensures if IsDfg(final[i]) then DfgKeyOf(final[i]) != DfgKeyOf(final[j])
              else RegexKeyOf(final[i]) != RegexKeyOf(final[j])
    {
      assert pos[i] != pos[j];
    }
  }

  lemma {:induction false} SplitByKind(vs: seq<Vuln>)
    requires DfgFirst(vs)
    ensures vs == DfgOnly(vs) + RegexOnly(vs)
    ensures vs != [] && IsDfg(Last(vs)) ==> RegexOnly(vs) == []
  {
    if vs == [] {
    } else {
      var front := vs[..|vs| - 1];
      SplitByKind(front);
      assert vs == front + [Last(vs)];
      if IsDfg(Last(vs)) && front != [] {
        assert IsDfg(Last(front));
      }
    }
  }

  lemma {:induction false} OnlyDistinct(vs: seq<Vuln>)
    requires KeysDiffer(vs)
    ensures DistinctKeys(DfgOnly(vs), DfgKeyOf) && DistinctKeys(RegexOnly(vs), RegexKeyOf)
  {
    if vs == [] {
    } else {
      var front, last := vs[..|vs| - 1], Last(vs);
      OnlyDistinct(front);
      forall i | 0 <= i < |DfgOnly(front)| && IsDfg(last) ensures DfgKeyOf(DfgOnly(front)[i]) != DfgKeyOf(last) {
        OnlyMembers(front, DfgOnly(front)[i]);
        var k :| 0 <= k < |front| && front[k] == DfgOnly(front)[i];
        assert vs[k] == front[k];
      }
      forall i | 0 <= i < |RegexOnly(front)| &&
        !IsDfg(last) ensures RegexKeyOf(RegexOnly(front)[i]) != RegexKeyOf(last) {
        OnlyMembers(front, RegexOnly(front)[i]);
        var k :| 0 <= k < |front| && front[k] == RegexOnly(front)[i];
        assert vs[k] == front[k];
      }
    }
  }

  lemma {:induction false} UnsupersededAll(dfg: Dict<DfgKey, Vuln>, vs: seq<Vuln>)
    requires forall v :: v in vs ==> !Superseded(dfg, v)
    ensures Unsuperseded(dfg, vs) == vs
  {
    if vs == [] {
    } else {
      hide Superseded;
      assert vs == vs[..|vs| - 1] + [Last(vs)];
      UnsupersededAll(dfg, vs[..|vs| - 1]);
    }
  }

  /** A settled list goes through the three steps unchanged, order included. */
  lemma SettledIsFixed(vs: seq<Vuln>)
    requires Settled(vs)
    ensures Dedupe(vs) == vs
  {
    SplitByKind(vs);
    OnlyDistinct(vs);
    KeepBestIdentity(DfgOnly(vs), DfgKeyOf);
    var dfg := DfgPass(vs);
    forall r | r in RegexOnly(vs) ensures !Superseded(dfg, r) {
      OnlyMembers(vs, r);
      forall k | k in dfg.vals ensures !NearKey(r, k) {
        assert k in dfg.keys;
        var i :| 0 <= i < |dfg.keys| && dfg.keys[i] == k;
        OnlyMembers(vs, DfgOnly(vs)[i]);
      }
    }
    UnsupersededAll(dfg, RegexOnly(vs));
    KeepBestIdentity(RegexOnly(vs), RegexKeyOf);
    CollapseIdentity(vs);
  }

  /** Running the deduplication on its own output changes nothing. */
  lemma DedupeIsIdempotent(vs: seq<Vuln>)
    ensures Dedupe(Dedupe(vs)) == Dedupe(vs)
  {
    DedupeSettles(vs);
    SettledIsFixed(Dedupe(vs));
  }

  /** The rules by which steps 1, 1b and 1c drop `v` in favour of `w`. */
  ghost predicate KeyCovers(v: Vuln, w: Vuln) {
    || (IsDfg(v) && IsDfg(w) && DfgKeyOf(v) == DfgKeyOf(w) && !Better(v, w))
    || (!IsDfg(v) && !IsDfg(w) && RegexKeyOf(v) == RegexKeyOf(w) && !Better(v, w))
    || (!IsDfg(v) && IsDfg(w) && NearKey(v, DfgKeyOf(w)))
  }

  lemma Step1Covers(vs: seq<Vuln>, v: Vuln) returns (w: Vuln)
    requires v in vs
    ensures w in Step1(vs) && KeyCovers(v, w)
  {
    hide NearKey, Better;
    OnlyMembers(vs, v);
    var dfg := DfgPass(vs);
    if IsDfg(v) {
      KeepBestCovers(DfgOnly(vs), DfgKeyOf, v);
      w := PassValue(vs, DfgKeyOf(v));
    } else if Superseded(dfg, v) {
      var k :| k in dfg.vals && NearKey(v, k);
      w := PassValue(vs, k);
    } else {
      UnsupersededMembers(dfg, RegexOnly(vs), v);
      var rest := Unsuperseded(dfg, RegexOnly(vs));
      KeepBestCovers(rest, RegexKeyOf, v);
      var d := RegexPass(vs);
      var k := RegexKeyOf(v);
      w := d.vals[k];
      KeepBestMembers(rest, RegexKeyOf, k);
      assert k in d.keys;
      var i :| 0 <= i < |d.keys| && d.keys[i] == k;
      assert Values(d)[i] == w && Values(d)[i] in Values(d);
      RegexPassMembers(vs, w);
    }
  }

  lemma PassValue(vs: seq<Vuln>, k: DfgKey) returns (w: Vuln)
    requires k in DfgPass(vs).vals
    ensures w == DfgPass(vs).vals[k] && w in Step1(vs) && IsDfg(w) && DfgKeyOf(w) == k
  {
    hide Better;
    var d := DfgPass(vs);
    w := d.vals[k];
    KeepBestMembers(DfgOnly(vs), DfgKeyOf, k);
    assert k in d.keys;
    var i :| 0 <= i < |d.keys| && d.keys[i] == k;
    assert Values(d)[i] == w && Values(d)[i] in Values(d);
    DfgPassMembers(vs, w);
  }

  /**
   Coverage: every input finding is linked, by the rule of steps 1-1c and then the rule of step 2,
   to a finding that survives.
   */
  lemma EveryFindingIsCovered(vs: seq<Vuln>, v: Vuln) returns (w: Vuln, s: Vuln)
    requires v in vs
    ensures s in Dedupe(vs) && w in vs && KeyCovers(v, w) && PathCovers(w, s)
  {
    w := Step1Covers(vs, v);
    Step1Settled(vs);
    s := CollapseCovers(Step1(vs), w);
  }

  /** A data-flow finding is never covered by something scored lower. */
  lemma DfgCoverKeepsScore(vs: seq<Vuln>, v: Vuln) returns (s: Vuln)
    requires v in vs && IsDfg(v)
    ensures s in Dedupe(vs) && IsDfg(s) && !Better(v, s)
  {
    var w;
    w, s := EveryFindingIsCovered(vs, v);
  }

  // ----- what the rules compare

  /** A data-flow finding beats a regex finding; of two alike the longer path wins, then the higher confidence. */
  lemma BetterMeaning(a: Vuln, b: Vuln)
    ensures Better(a, b) <==>
      || (a.pattern == "DFG_FLOW" && b.pattern != "DFG_FLOW")
      || ((a.pattern == "DFG_FLOW" <==> b.pattern == "DFG_FLOW")
          && (|a.path| > |b.path| || (|a.path| == |b.path| && a.confidence > b.confidence)))
  {
  }

  /** `r` is a regex finding, `d` a data-flow finding of its type and file with its sink at most three lines off. */
  ghost predicate TooNear(r: Vuln, d: Vuln) {
    && r.pattern != "DFG_FLOW" && d.pattern == "DFG_FLOW"
    && r.typeKey == d.typeKey && r.fileKey == d.fileKey
    && d.sinkLine - 3 <= r.startLine <= d.sinkLine + 3
  }

  ghost predicate SameSink(a: Vuln, b: Vuln) {
    && a.pattern == "DFG_FLOW" && b.pattern == "DFG_FLOW"
    && a.typeKey == b.typeKey && a.fileKey == b.fileKey && a.sinkLine == b.sinkLine && a.sink == b.sink
  }

  ghost predicate SameLine(a: Vuln, b: Vuln) {
    && a.pattern != "DFG_FLOW" && b.pattern != "DFG_FLOW"
    && a.typeKey == b.typeKey && a.fileKey == b.fileKey && a.startLine == b.startLine
  }

  /** Whom a finding can give way to in step 1: one at its own sink or line that it does not beat, or a sink nearby. */
  lemma KeyCoversMeaning(v: Vuln, w: Vuln)
    ensures KeyCovers(v, w) <==> ((SameSink(v, w) || SameLine(v, w)) && !Better(v, w)) || TooNear(v, w)
  {
  }

  /** No two survivors share a sink or a line, and none is too near another. */
  lemma SurvivorsAreApart(vs: seq<Vuln>)
    ensures var out := Dedupe(vs);
      && (forall i, j :: 0 <= i < j < |out| ==> !SameSink(out[i], out[j]) && !SameLine(out[i], out[j]))
      && forall r, d :: r in out && d in out ==> !TooNear(r, d)
  {
    DedupeSettles(vs);
    hide Dedupe;
    var out := Dedupe(vs);
    forall r, d | r in out && d in out ensures !TooNear(r, d) {
      assert !IsDfg(r) && IsDfg(d) ==> !NearKey(r, DfgKeyOf(d));
    }
  }

  lemma NearSinkInPass(vs: seq<Vuln>, r: Vuln)
    requires r.pattern != "DFG_FLOW"
    ensures Superseded(DfgPass(vs), r) <==> exists d :: d in vs && TooNear(r, d)
  {
    hide Better;
    if Superseded(DfgPass(vs), r) {
      var k :| k in DfgPass(vs).vals && NearKey(r, k);
      var w := PassValue(vs, k);
      Step1Settled(vs);
      assert w in vs && TooNear(r, w);
    }
    if d :| d in vs && TooNear(r, d) {
      OnlyMembers(vs, d);
      KeepBestCovers(DfgOnly(vs), DfgKeyOf, d);
      assert NearKey(r, DfgKeyOf(d));
    }
  }

  lemma Step1Regex(vs: seq<Vuln>, k: Vuln)
    requires k in Step1(vs) && k.pattern != "DFG_FLOW"
    ensures !Superseded(DfgPass(vs), k)
  {
    hide DfgPass, RegexPass, Superseded;
    if k in Values(DfgPass(vs)) {
      DfgPassMembers(vs, k);
    } else {
      RegexPassMembers(vs, k);
    }
  }

  lemma NearAlike(vs: seq<Vuln>, r: Vuln, k: Vuln)
    requires SameLine(k, r) && exists d :: d in vs && TooNear(r, d)
    ensures exists d :: d in vs && TooNear(k, d)
  {
    var d :| d in vs && TooNear(r, d);
    assert TooNear(k, d);
  }

  /**
   Step 1 leaves nothing at a regex finding's type, file and line exactly when some data-flow finding of the input has
   its sink too near.
   */
  lemma SupersededIff(vs: seq<Vuln>, r: Vuln)
    requires r in vs && r.pattern != "DFG_FLOW"
    ensures (exists d :: d in vs && TooNear(r, d)) <==> !exists k :: k in Step1(vs) && SameLine(k, r)
  {
    hide Better, DfgPass, RegexPass, Step1, Superseded;
    NearSinkInPass(vs, r);
    if Superseded(DfgPass(vs), r) {
      forall k | k in Step1(vs) ensures !SameLine(k, r) {
        if SameLine(k, r) {
          NearAlike(vs, r, k);
          NearSinkInPass(vs, k);
          Step1Regex(vs, k);
        }
      }
    } else {
      var w := Step1Covers(vs, r);
      KeyCoversMeaning(r, w);
      Step1Settled(vs);
      assert !TooNear(r, w);
      assert SameLine(w, r);
    }
  }
}
