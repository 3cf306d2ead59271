/**
 `DFGBuilder._is_visible_scope`: climbing from a use's scope through the `parent` entries of the scope table
 in search of a definition's scope, what the climb decides, and on which tables it comes to an end.
 */
module ScopeClimb {
  import opened Base

  type Table = map<string, Option<string>>

  ghost predicate ParentOf(scopes: Table, s: string, p: string) {
    s in scopes && scopes[s] == Some(p) && p != ""
  }

  /** A climb: each scope's parent is the next one. */
  ghost predicate ScopeChain(scopes: Table, c: seq<string>) {
    c != [] && forall i :: 0 <= i < |c| - 1 ==> ParentOf(scopes, c[i], c[i + 1])
  }

  ghost predicate Acyclic(scopes: Table) {
    forall c :: ScopeChain(scopes, c) && |c| >= 2 ==> c[0] != Last(c)
  }

  /** `d` is `u` or one of the scopes around it. */
  ghost predicate Encloses(scopes: Table, d: string, u: string) {
    exists c :: ScopeChain(scopes, c) && c[0] == u && Last(c) == d
  }

  /** The meaning of visibility: equal scopes, an absent one, or an enclosing one. */
  ghost predicate Visible(scopes: Table, defScope: Option<string>, useScope: Option<string>) {
    || defScope == useScope
    || !Truthy(defScope) || !Truthy(useScope)
    || Encloses(scopes, defScope.value, useScope.value)
  }

  lemma ChainPart(scopes: Table, c: seq<string>, i: nat, j: nat)
    requires ScopeChain(scopes, c) && i < j <= |c|
    ensures ScopeChain(scopes, c[i..j])
  {
    forall k | 0 <= k < j - i - 1 ensures ParentOf(scopes, c[i..j][k], c[i..j][k + 1]) {
      assert ParentOf(scopes, c[i + k], c[i + k + 1]);
    }
  }

  lemma ChainGrows(scopes: Table, c: seq<string>, p: string)
    requires ScopeChain(scopes, c) && ParentOf(scopes, Last(c), p)
    ensures ScopeChain(scopes, c + [p])
  {
    var r := c + [p];
    forall i | 0 <= i < |r| - 1 ensures ParentOf(scopes, r[i], r[i + 1]) {
      if i < |c| - 1 {
        assert ParentOf(scopes, c[i], c[i + 1]);
      }
    }
  }

  /** A climb that repeats nothing before its last scope is no longer than the table. */
  lemma ChainBound(scopes: Table, c: seq<string>)
    requires ScopeChain(scopes, c) && Distinct(c[..|c| - 1])
    ensures |c| <= |scopes| + 1
  {
    var front := c[..|c| - 1];
    forall x | x in front ensures x in scopes.Keys {
      var i :| 0 <= i < |front| && front[i] == x;
      assert ParentOf(scopes, c[i], c[i + 1]);
    }
    DistinctWithin(front, scopes.Keys);
  }

  /** Climbing is deterministic: two climbs from one scope agree as far as both go. */
  lemma {:induction false} ChainsAgree(scopes: Table, a: seq<string>, b: seq<string>, i: nat)
    requires ScopeChain(scopes, a) && ScopeChain(scopes, b) && a[0] == b[0] && i < |a| && i < |b|
    ensures a[i] == b[i]
  {
    if i == 0 {
    } else {
      ChainsAgree(scopes, a, b, i - 1);
      assert ParentOf(scopes, a[i - 1], a[i]) && ParentOf(scopes, b[i - 1], b[i]);
    }
  }

  /** Nothing is above `s`: its parent entry is missing, absent or empty. */
  ghost predicate Outermost(scopes: Table, s: string) {
    forall p :: !ParentOf(scopes, s, p)
  }

  lemma NoLongerClimb(scopes: Table, walked: seq<string>, c: seq<string>)
    requires ScopeChain(scopes, walked) && Outermost(scopes, Last(walked))
    requires ScopeChain(scopes, c) && c[0] == walked[0]
    ensures |c| <= |walked|
  {
    if |c| > |walked| {
      assert ParentOf(scopes, c[|walked| - 1], c[|walked|]);
      ChainsAgree(scopes, walked, c, |walked| - 1);
    }
  }

  /** A climb that went as far as it can without meeting `d` shows that `d` encloses nothing on it. */
  lemma ClimbedPast(scopes: Table, walked: seq<string>, d: string)
    requires ScopeChain(scopes, walked) && d !in walked && Outermost(scopes, Last(walked))
    ensures !Encloses(scopes, d, walked[0])
  {
    forall c | ScopeChain(scopes, c) && c[0] == walked[0] ensures Last(c) != d {
      NoLongerClimb(scopes, walked, c);
      ChainsAgree(scopes, walked, c, |c| - 1);
      assert walked[|c| - 1] in walked;
    }
  }

  // ----- when the climb ends

  /** Climbing from `u` comes back to a scope already passed without having met `d`. */
  ghost predicate Loops(scopes: Table, d: string, u: string) {
    exists c :: LoopsAlong(scopes, d, u, c)
  }

  ghost predicate LoopsAlong(scopes: Table, d: string, u: string, c: seq<string>) {
    ScopeChain(scopes, c) && c[0] == u && d !in c && Last(c) in c[..|c| - 1]
  }

  /** The search for a definition's scope is decided at once, or its climb does not loop. */
  ghost predicate ClimbEnds(scopes: Table, defScope: Option<string>, useScope: Option<string>) {
    defScope == useScope || !Truthy(defScope) || !Truthy(useScope) || !Loops(scopes, defScope.value, useScope.value)
  }

  lemma AcyclicClimbEnds(scopes: Table, defScope: Option<string>, useScope: Option<string>)
    requires Acyclic(scopes)
    ensures ClimbEnds(scopes, defScope, useScope)
  {
    if Truthy(defScope) && Truthy(useScope) {
      forall c ensures !LoopsAlong(scopes, defScope.value, useScope.value, c) {
        if ScopeChain(scopes, c) && Last(c) in c[..|c| - 1] {
          var i :| 0 <= i < |c| - 1 && c[i] == Last(c);
          ChainPart(scopes, c, i, |c|);
        }
      }
    }
  }

  /** Where the climb does not loop, it stays short. */
  lemma ClimbBound(scopes: Table, d: string, walked: seq<string>)
    requires ScopeChain(scopes, walked) && d !in walked[..|walked| - 1] && !Loops(scopes, d, walked[0])
    ensures |walked| <= |scopes| + 1
  {
    var front := walked[..|walked| - 1];
    forall i, j | 0 <= i < j < |front| ensures front[i] != front[j] {
      var part := walked[..j + 1];
      ChainPart(scopes, walked, 0, j + 1);
      assert forall x :: x in part ==> x in front;
      assert !LoopsAlong(scopes, d, walked[0], part);
      assert part[i] in part[..|part| - 1];
    }
    ChainBound(scopes, walked);
  }

  /** `_is_visible_scope`. */
  method IsVisibleScope(defScope: Option<string>, useScope: Option<string>, scopes: Table) returns (visible: bool)
    requires ClimbEnds(scopes, defScope, useScope)
    ensures visible <==> Visible(scopes, defScope, useScope)
  {
    if defScope == useScope {
      return true;
    }
    if !Truthy(useScope) || !Truthy(defScope) {
      return true;
    }
    hide Loops;
    var currentScope := useScope;
    ghost var walked := [useScope.value];
    while Truthy(currentScope)
      invariant ScopeChain(scopes, walked) && walked[0] == useScope.value
      invariant Truthy(currentScope) ==> currentScope.value == Last(walked) && defScope.value !in walked[..|walked| - 1]
      invariant !Truthy(currentScope) ==> defScope.value !in walked && Outermost(scopes, Last(walked))
      decreases if Truthy(currentScope) then |scopes| + 2 - |walked| else 0
    {
      ClimbBound(scopes, defScope.value, walked);
      assert walked == walked[..|walked| - 1] + [Last(walked)];
      if currentScope == defScope {
        return true;
      }
      if currentScope.value in scopes {
        ghost var before := walked;
        currentScope := scopes[currentScope.value];
        if Truthy(currentScope) {
          ChainGrows(scopes, walked, currentScope.value);
          walked := walked + [currentScope.value];
          assert walked[..|walked| - 1] == before;
        }
      } else {
        break;
      }
    }
    ClimbedPast(scopes, walked, defScope.value);
    return false;
  }

  // ----- the loop as steps, for tables on which it may run forever

  /** The loop stands at a scope, or has given its answer. */
  datatype Progress = At(scope: string) | Answered(visible: bool)

  /** One iteration of the climb for `d`. */
  function Iterate(scopes: Table, d: string, at: Progress): Progress {
    if at.Answered? then at
    else if at.scope == d then Answered(true)
    else if at.scope in scopes && Truthy(scopes[at.scope]) then At(scopes[at.scope].value)
    else Answered(false)
  }

  function After(scopes: Table, d: string, u: string, k: nat): Progress {
    if k == 0 then At(u) else Iterate(scopes, d, After(scopes, d, u, k - 1))
  }

  /** While it runs, the climb has walked a chain that has not met `d` before its last scope. */
  lemma {:induction false} StillClimbing(scopes: Table, d: string, u: string, k: nat) returns (c: seq<string>)
    requires After(scopes, d, u, k).At?
    ensures ScopeChain(scopes, c) && c[0] == u && |c| == k + 1
    ensures Last(c) == After(scopes, d, u, k).scope && d !in c[..k]
  {
    if k == 0 {
      c := [u];
    } else {
      var front := StillClimbing(scopes, d, u, k - 1);
      c := front + [After(scopes, d, u, k).scope];
      ChainGrows(scopes, front, After(scopes, d, u, k).scope);
      assert c[..k] == front == front[..k - 1] + [Last(front)];
    }
  }

  /** On a chain that loops without meeting `d`, the climb stays forever. */
  lemma {:induction false} LoopingClimb(scopes: Table, d: string, u: string, c: seq<string>, k: nat)
    requires LoopsAlong(scopes, d, u, c)
    ensures After(scopes, d, u, k).At? && After(scopes, d, u, k).scope in c
  {
    if k == 0 {
    } else {
      LoopingClimb(scopes, d, u, c, k - 1);
      var i :| 0 <= i < |c| && c[i] == After(scopes, d, u, k - 1).scope;
      if i == |c| - 1 {
        var j :| 0 <= j < |c| - 1 && c[j] == Last(c);
        assert ParentOf(scopes, c[j], c[j + 1]);
      } else {
        assert ParentOf(scopes, c[i], c[i + 1]);
      }
    }
  }

  /** On any table: the climb ends exactly when it does not come back to a scope it passed without meeting `d`. */
  lemma ClimbEndsIff(scopes: Table, d: string, u: string)
    ensures (exists k :: After(scopes, d, u, k).Answered?) <==> !Loops(scopes, d, u)
  {
    if Loops(scopes, d, u) {
      var c :| LoopsAlong(scopes, d, u, c);
      forall k ensures After(scopes, d, u, k).At? {
        LoopingClimb(scopes, d, u, c, k);
      }
    } else {
      var k := |scopes| + 1;
      if After(scopes, d, u, k).At? {
        var c := StillClimbing(scopes, d, u, k);
        ClimbBound(scopes, d, c);
      }
      assert After(scopes, d, u, k).Answered?;
    }
  }

  /** Whatever the table, an answer is right: it is whether the definition's scope encloses the use's. */
  lemma {:induction false} AnswerIsRight(scopes: Table, d: string, u: string, k: nat)
    requires After(scopes, d, u, k).Answered?
    ensures After(scopes, d, u, k).visible <==> Encloses(scopes, d, u)
  {
    if After(scopes, d, u, k - 1).Answered? {
      AnswerIsRight(scopes, d, u, k - 1);
    } else {
      var c := StillClimbing(scopes, d, u, k - 1);
      assert c == c[..k - 1] + [Last(c)];
      if Last(c) != d {
        ClimbedPast(scopes, c, d);
      }
    }
  }

  /** Two scopes that name each other as parents: looking for a third one from either never ends. */
  lemma MutualParentsNeverAnswer(k: nat)
    ensures var scopes := map["a" := Some("b"), "b" := Some("a")]; After(scopes, "d", "a", k).At?
  {
    var scopes := map["a" := Some("b"), "b" := Some("a")];
    var c := ["a", "b", "a"];
    assert ParentOf(scopes, c[0], c[1]) && ParentOf(scopes, c[1], c[2]);
    assert Last(c) == c[..2][0];
    assert LoopsAlong(scopes, "d", "a", c);
    LoopingClimb(scopes, "d", "a", c, k);
  }
}
