/** pkg/ipam/selector.go and the selector checks of pkg/webhook/ippool/validator.go. */
module Selection {
  import opened Common

  const ALL := "*"

  datatype Tuple = Tuple(project: string, namespace: string, cluster: string)

  datatype Selector = Selector(priority: nat, network: string, scope: seq<Tuple>)

  datatype Requirement = Requirement(network: string, project: string, namespace: string, cluster: string)

  /** A pool as the selector sees it; `global` is the global-ip-pool label. */
  datatype Candidate = Candidate(name: string, selector: Selector, global: bool)

  predicate FieldMatch(t: string, r: string) {
    t == ALL || r == ALL || t == r
  }

  /** selector.go isMatch. */
  predicate IsMatch(t: Tuple, r: Requirement, loose: bool) {
    if !loose then
      FieldMatch(t.project, r.project) && FieldMatch(t.namespace, r.namespace) && FieldMatch(t.cluster, r.cluster)
    else
      && (FieldMatch(t.project, r.project) || t.project == "")
      && FieldMatch(t.namespace, r.namespace)
      && (FieldMatch(t.cluster, r.cluster) || t.cluster == "")
  }

  predicate Plain(r: Requirement) {
    r.project != "*" && r.namespace != "*" && r.cluster != "*"
  }

  /** A scope used as a requirement, as the webhook does. */
  function AsRequirement(t: Tuple, network: string): Requirement {
    Requirement(network, t.project, t.namespace, t.cluster)
  }

  /** A scope admits a requirement: field by field it says "*" or the same. */
  predicate Admits(t: Tuple, r: Requirement) {
    && (t.project == "*" || t.project == r.project)
    && (t.namespace == "*" || t.namespace == r.namespace)
    && (t.cluster == "*" || t.cluster == r.cluster)
  }

  /** Some requirement without "*" is admitted by both scopes. */
  ghost predicate Overlap(t: Tuple, u: Tuple) {
    exists r :: Plain(r) && Admits(t, r) && Admits(u, r)
  }

  /** For a requirement without "*", strict mode matches exactly what the scope admits. */
  lemma StrictMatchIff(t: Tuple, r: Requirement)
    requires Plain(r)
    ensures IsMatch(t, r, false) <==> Admits(t, r)
    ensures t.project != ALL && t.namespace != ALL && t.cluster != ALL ==>
              (IsMatch(t, r, false) <==> t == Tuple(r.project, r.namespace, r.cluster))
  {
  }

  /** Loose mode reads an empty project or cluster of the scope as "*"; an empty namespace stays empty. */
  lemma LooseMatchIff(t: Tuple, r: Requirement)
    requires Plain(r)
    ensures IsMatch(t, r, true) <==>
            Admits(Tuple(if t.project == "" then ALL else t.project, t.namespace,
                         if t.cluster == "" then ALL else t.cluster), r)
  {
  }

  /** A "*" in one field, of the scope or of the requirement, frees the match from that field and from no other. */
  lemma StarFreesOneField(t: Tuple, r: Requirement, x: string, loose: bool)
    requires Plain(r) && x != ALL
    ensures t.project == ALL ==> (IsMatch(t, r, loose) <==> IsMatch(t, r.(project := x), loose))
    ensures t.namespace == ALL ==> (IsMatch(t, r, loose) <==> IsMatch(t, r.(namespace := x), loose))
    ensures t.cluster == ALL ==> (IsMatch(t, r, loose) <==> IsMatch(t, r.(cluster := x), loose))
    ensures t.namespace != ALL && x != r.namespace ==>
              !(IsMatch(t, r, loose) && IsMatch(t, r.(namespace := x), loose))
    ensures t.project != ALL && x != r.project && (!loose || t.project != "") ==>
              !(IsMatch(t, r, loose) && IsMatch(t, r.(project := x), loose))
    ensures t.cluster != ALL && x != r.cluster && (!loose || t.cluster != "") ==>
              !(IsMatch(t, r, loose) && IsMatch(t, r.(cluster := x), loose))
    ensures IsMatch(t, r.(project := ALL), loose) <==> IsMatch(t.(project := ALL), r, loose)
    ensures IsMatch(t, r.(namespace := ALL), loose) <==> IsMatch(t.(namespace := ALL), r, loose)
    ensures IsMatch(t, r.(cluster := ALL), loose) <==> IsMatch(t.(cluster := ALL), r, loose)
  {
  }

  function FieldWitness(t: string, u: string): string {
    if t != ALL then t else if u != ALL then u else ""
  }

  /** Matching scope against scope is exact: it holds iff some plain requirement is matched by both. */
  lemma ScopeMatchIsOverlap(t: Tuple, u: Tuple, network: string)
    ensures IsMatch(t, AsRequirement(u, network), false) <==> Overlap(t, u)
    ensures Overlap(t, u) <==> Overlap(u, t)
  {
    if IsMatch(t, AsRequirement(u, network), false) {
      var r := Requirement(network, FieldWitness(t.project, u.project),
                           FieldWitness(t.namespace, u.namespace), FieldWitness(t.cluster, u.cluster));
      assert Plain(r) && Admits(t, r) && Admits(u, r);
    }
  }

  /** The relation is symmetric, and loose mode only adds matches. */
  lemma ScopeMatchIsSymmetric(t: Tuple, u: Tuple, network: string)
    ensures IsMatch(t, AsRequirement(u, network), false) <==> IsMatch(u, AsRequirement(t, network), false)
    ensures IsMatch(t, AsRequirement(u, network), false) ==> IsMatch(t, AsRequirement(u, network), true)
  {
    ScopeMatchIsOverlap(t, u, network);
    ScopeMatchIsOverlap(u, t, network);
  }

  predicate MatchesSpec(s: Selector, r: Requirement, loose: bool) {
    s.network == r.network && exists i :: 0 <= i < |s.scope| && IsMatch(s.scope[i], r, loose)
  }

  /** selector.go Matches. */
  method Matches(s: Selector, r: Requirement, loose: bool) returns (yes: bool)
    ensures yes == MatchesSpec(s, r, loose)
  {
    if s.network != r.network {
      return false;
    }
    for i := 0 to |s.scope|
      invariant forall k :: 0 <= k < i ==> !IsMatch(s.scope[k], r, loose)
    {
      if IsMatch(s.scope[i], r, loose) {
        return true;
      }
    }
    return false;
  }

  // ----- Select -----

  predicate Eligible(c: Candidate, r: Requirement, loose: bool) {
    !c.global && MatchesSpec(c.selector, r, loose)
  }

  /** The last of the highest-priority eligible pools of a listing. */
  function Best(l: seq<Candidate>, r: Requirement, loose: bool): Option<Candidate> {
    if |l| == 0 then None
    else
      var b, c := Best(l[..|l| - 1], r, loose), l[|l| - 1];
      if Eligible(c, r, loose) && (b.None? || c.selector.priority >= b.value.selector.priority) then Some(c) else b
  }

  function LastGlobal(l: seq<Candidate>): Option<Candidate> {
    if |l| == 0 then None
    else if l[|l| - 1].global then Some(l[|l| - 1])
    else LastGlobal(l[..|l| - 1])
  }

  function SelectOf(l: seq<Candidate>, r: Requirement, loose: bool): Option<Candidate> {
    var b := Best(l, r, loose);
    if b.Some? then b else LastGlobal(l)
  }

  /** selector.go Select over one listing of the pools. */
  method Select(pools: seq<Candidate>, r: Requirement, loose: bool) returns (pool: Option<Candidate>)
    ensures pool == SelectOf(pools, r, loose)
  {
    var selectedPool, globalPool, priority := None, None, 0;
    for i := 0 to |pools|
      invariant selectedPool == Best(pools[..i], r, loose)
      invariant globalPool == LastGlobal(pools[..i])
      invariant priority == if selectedPool.Some? then selectedPool.value.selector.priority else 0
    {
      assert pools[..i + 1][..i] == pools[..i];
      if pools[i].global {
        globalPool := Some(pools[i]);
        continue;
      }
      var yes := Matches(pools[i].selector, r, loose);
      if yes && pools[i].selector.priority >= priority {
        selectedPool := Some(pools[i]);
        priority := pools[i].selector.priority;
      }
    }
    assert pools[..|pools|] == pools;
    return if selectedPool.Some? then selectedPool else globalPool;
  }

  lemma {:induction false} BestIsBest(l: seq<Candidate>, r: Requirement, loose: bool)
    ensures Best(l, r, loose).None? <==> forall c :: c in l ==> !Eligible(c, r, loose)
    ensures Best(l, r, loose).Some? ==>
              var b := Best(l, r, loose).value;
              && b in l && Eligible(b, r, loose)
              && forall c :: c in l && Eligible(c, r, loose) ==> c.selector.priority <= b.selector.priority
  {
    if |l| > 0 {
      BestIsBest(l[..|l| - 1], r, loose);
      assert l == l[..|l| - 1] + [l[|l| - 1]];
    }
  }

  lemma {:induction false} LastGlobalIsGlobal(l: seq<Candidate>)
    ensures LastGlobal(l).None? <==> forall c :: c in l ==> !c.global
    ensures LastGlobal(l).Some? ==> LastGlobal(l).value in l && LastGlobal(l).value.global
  {
    if |l| > 0 {
      LastGlobalIsGlobal(l[..|l| - 1]);
      assert l == l[..|l| - 1] + [l[|l| - 1]];
    }
  }

  // ----- when the listing order does not matter -----

  /** What admission guarantees of any set of pools: one global pool, distinct non-zero priorities. */
  ghost predicate Consistent(l: seq<Candidate>) {
    && (forall c, d :: c in l && d in l && c.global && d.global ==> c == d)
    && (forall c, d :: c in l && d in l && !c.global && !d.global && c != d ==>
          c.selector.priority == 0 || c.selector.priority != d.selector.priority)
  }

  /** Two different pools of priority zero match, and no pool of positive priority does. */
  ghost predicate Tied(l: seq<Candidate>, r: Requirement, loose: bool) {
    && (forall c :: c in l && Eligible(c, r, loose) ==> c.selector.priority == 0)
    && (exists c, d :: c in l && d in l && c != d && Eligible(c, r, loose) && Eligible(d, r, loose))
  }

  ghost predicate OrderFree(l: seq<Candidate>, r: Requirement, loose: bool) {
    forall l' :: multiset(l') == multiset(l) ==> SelectOf(l', r, loose) == SelectOf(l, r, loose)
  }

  lemma SameMembers(l: seq<Candidate>, l': seq<Candidate>)
    requires multiset(l) == multiset(l')
    ensures forall c :: c in l <==> c in l'
  {
    assert forall c :: c in l <==> c in multiset(l);
    assert forall c :: c in l' <==> c in multiset(l');
  }

  lemma UntiedIsOrderFree(l: seq<Candidate>, l': seq<Candidate>, r: Requirement, loose: bool)
    requires Consistent(l) && !Tied(l, r, loose)
    requires forall c :: c in l <==> c in l'
    ensures SelectOf(l', r, loose) == SelectOf(l, r, loose)
  {
    BestIsBest(l, r, loose);
    BestIsBest(l', r, loose);
    LastGlobalIsGlobal(l);
    LastGlobalIsGlobal(l');
    var b, b' := Best(l, r, loose), Best(l', r, loose);
    if b.Some? {
      assert b.value in l' && b'.value in l;
      assert b.value.selector.priority == b'.value.selector.priority;
    }
  }

  lemma MovedToEndWins(l: seq<Candidate>, i: nat, r: Requirement, loose: bool)
    requires i < |l| && Eligible(l[i], r, loose)
    requires forall c :: c in l && Eligible(c, r, loose) ==> c.selector.priority == 0
    ensures var l' := l[..i] + l[i + 1..] + [l[i]];
            multiset(l') == multiset(l) && SelectOf(l', r, loose) == Some(l[i])
  {
    var rest := l[..i] + l[i + 1..];
    var l' := rest + [l[i]];
    assert l == l[..i] + [l[i]] + l[i + 1..];
    assert l'[..|l'| - 1] == rest;
    BestIsBest(rest, r, loose);
    assert Best(rest, r, loose).Some? ==> Best(rest, r, loose).value in l;
  }

  /** On a consistent set of pools, in either mode, the answer is order-free exactly when it is not tied. */
  lemma OrderFreeIffUntied(l: seq<Candidate>, r: Requirement, loose: bool)
    requires Consistent(l)
    ensures OrderFree(l, r, loose) <==> !Tied(l, r, loose)
  {
    if Tied(l, r, loose) {
      var c, d :| c in l && d in l && c != d && Eligible(c, r, loose) && Eligible(d, r, loose);
      var i :| 0 <= i < |l| && l[i] == c;
      var j :| 0 <= j < |l| && l[j] == d;
      MovedToEndWins(l, i, r, loose);
      MovedToEndWins(l, j, r, loose);
    } else {
      forall l' | multiset(l') == multiset(l)
        ensures SelectOf(l', r, loose) == SelectOf(l, r, loose)
      {
        SameMembers(l, l');
        UntiedIsOrderFree(l, l', r, loose);
      }
    }
  }

  // ----- admission of selectors -----

  /** mutator.go isGlobalIPPool. */
  predicate IsGlobal(s: Selector) {
    |s.scope| == 1 && s.scope[0] == Tuple(ALL, ALL, ALL)
  }

  ghost predicate SelfDisjoint(s: Selector) {
    forall i, j :: 0 <= i < j < |s.scope| ==> !Overlap(s.scope[i], s.scope[j])
  }

  /** validator.go checkSelectorItself: one requirement, overwritten for every scope. */
  method CheckSelectorItself(s: Selector) returns (ok: bool)
    ensures ok <==> SelfDisjoint(s)
  {
    var r := Requirement(s.network, "", "", "");
    for i := 0 to |s.scope|
      invariant r.network == s.network
      invariant forall a, b :: 0 <= a < i && a < b < |s.scope| ==> !Overlap(s.scope[a], s.scope[b])
    {
      r := r.(project := s.scope[i].project, namespace := s.scope[i].namespace, cluster := s.scope[i].cluster);
      var rest := Selector(s.priority, s.network, []);
      if i != |s.scope| - 1 {
        rest := rest.(scope := s.scope[i + 1..]);
      }
      var yes := Matches(rest, r, false);
      assert r == AsRequirement(s.scope[i], s.network);
      forall b | i < b < |s.scope|
        ensures IsMatch(s.scope[b], r, false) <==> Overlap(s.scope[i], s.scope[b])
      {
        ScopeMatchIsOverlap(s.scope[b], s.scope[i], s.network);
      }
      if yes {
        var k :| 0 <= k < |rest.scope| && IsMatch(rest.scope[k], r, false);
        assert rest.scope[k] == s.scope[i + 1 + k];
        return false;
      }
      forall b | i < b < |s.scope| ensures !Overlap(s.scope[i], s.scope[b]) {
        assert rest.scope[b - i - 1] == s.scope[b];
      }
    }
    return true;
  }

  /** Some scope of one selector and some scope of the other admit a common plain requirement. */
  ghost predicate CrossOverlap(s: Selector, t: Selector) {
    && s.network == t.network
    && exists i, j :: 0 <= i < |s.scope| && 0 <= j < |t.scope| && Overlap(s.scope[i], t.scope[j])
  }

  /** Two non-global pools do not compete: different priorities, or both zero and no common requirement. */
  ghost predicate Compatible(s: Selector, t: Selector) {
    if s.priority == 0 && t.priority == 0 then !CrossOverlap(s, t) else s.priority != t.priority
  }

  lemma CompatibleSymmetric(s: Selector, t: Selector)
    ensures Compatible(s, t) <==> Compatible(t, s)
  {
    if s.network == t.network {
      forall i, j | 0 <= i < |s.scope| && 0 <= j < |t.scope|
        ensures Overlap(s.scope[i], t.scope[j]) <==> Overlap(t.scope[j], s.scope[i])
      {
        ScopeMatchIsOverlap(s.scope[i], t.scope[j], s.network);
      }
    }
  }

  /** validator.go checkSelectorWithOthers over one listing. */
  method CheckSelectorWithOthers(c: Candidate, pools: seq<Candidate>) returns (ok: bool)
    ensures ok <==> forall k :: 0 <= k < |pools| && pools[k].name != c.name && !IsGlobal(pools[k].selector) ==>
                      Compatible(c.selector, pools[k].selector)
  {
    for k := 0 to |pools|
      invariant forall m :: 0 <= m < k && pools[m].name != c.name && !IsGlobal(pools[m].selector) ==>
                  Compatible(c.selector, pools[m].selector)
    {
      var p := pools[k].selector;
      if pools[k].name == c.name || IsGlobal(p) {
        continue;
      }
      if p.priority != 0 && p.priority == c.selector.priority {
        return false;
      } else if p.priority == 0 && c.selector.priority == 0 {
        var clash := ScopesClash(c.selector, p);
        if clash {
          return false;
        }
      }
    }
    return true;
  }

  method ScopesClash(s: Selector, p: Selector) returns (clash: bool)
    ensures clash <==> CrossOverlap(s, p)
  {
    var r := Requirement(s.network, "", "", "");
    for i := 0 to |s.scope|
      invariant r.network == s.network
      invariant s.network == p.network ==>
                  forall a, j :: 0 <= a < i && 0 <= j < |p.scope| ==> !Overlap(s.scope[a], p.scope[j])
    {
      r := r.(project := s.scope[i].project, namespace := s.scope[i].namespace, cluster := s.scope[i].cluster);
      var yes := Matches(p, r, false);
      assert r == AsRequirement(s.scope[i], s.network);
      forall j | 0 <= j < |p.scope|
        ensures IsMatch(p.scope[j], r, false) <==> Overlap(s.scope[i], p.scope[j])
      {
        ScopeMatchIsOverlap(p.scope[j], s.scope[i], s.network);
      }
      if yes {
        return true;
      }
    }
    return false;
  }

  /** On compatible pools a plain requirement in strict mode never meets a tie. */
  lemma PlainStrictIsUntied(l: seq<Candidate>, r: Requirement)
    requires Plain(r)
    requires forall c, d :: c in l && d in l && c != d && !c.global && !d.global ==> Compatible(c.selector, d.selector)
    ensures !Tied(l, r, false)
  {
    forall c, d | c in l && d in l && c != d && Eligible(c, r, false) && Eligible(d, r, false)
      ensures c.selector.priority != d.selector.priority
    {
      var i :| 0 <= i < |c.selector.scope| && IsMatch(c.selector.scope[i], r, false);
      var j :| 0 <= j < |d.selector.scope| && IsMatch(d.selector.scope[j], r, false);
      assert Overlap(c.selector.scope[i], d.selector.scope[j]);
    }
  }

  lemma LaterWins(c: Candidate, d: Candidate, r: Requirement)
    requires Eligible(c, r, false) && Eligible(d, r, false)
    requires c.selector.priority == d.selector.priority == 0
    ensures SelectOf([c, d], r, false) == Some(d)
  {
    assert [c, d][..1] == [c] && [c][..0] == [];
    assert Best([c], r, false) == Some(c);
  }

  lemma TiedPair(c: Candidate, d: Candidate, r: Requirement)
    requires Eligible(c, r, false) && Eligible(d, r, false)
    requires c.selector.priority == d.selector.priority == 0
    ensures SelectOf([c, d], r, false) == Some(d) && SelectOf([d, c], r, false) == Some(c)
  {
    LaterWins(c, d, r);
    LaterWins(d, c, r);
  }

  function OneScope(name: string, project: string): Candidate {
    Candidate(name, Selector(0, "net", [Tuple(project, "n", "k")]), false)
  }

  /** A requirement with a "*" field can tie two compatible pools, so it may depend on the listing order. */
  lemma StarRequirementCanTie()
    ensures var c, d, r := OneScope("c", "a"), OneScope("d", "b"), Requirement("net", ALL, "n", "k");
            && Compatible(c.selector, d.selector)
            && SelectOf([c, d], r, false) != SelectOf([d, c], r, false)
  {
    var c, d, r := OneScope("c", "a"), OneScope("d", "b"), Requirement("net", ALL, "n", "k");
    ScopeMatchIsOverlap(c.selector.scope[0], d.selector.scope[0], "net");
    assert IsMatch(c.selector.scope[0], r, false) && IsMatch(d.selector.scope[0], r, false);
    TiedPair(c, d, r);
  }

  /** The global pool is the one with a single scope that admits every requirement. */
  lemma GlobalIffAdmitsAll(s: Selector)
    ensures IsGlobal(s) <==> |s.scope| == 1 && forall r :: Plain(r) ==> Admits(s.scope[0], r)
  {
    if |s.scope| == 1 && !IsGlobal(s) {
      var t := s.scope[0];
      var r := Requirement(s.network, Unlike(t.project), Unlike(t.namespace), Unlike(t.cluster));
      assert Plain(r) && !Admits(t, r);
    }
  }

  function Unlike(x: string): (y: string)
    ensures y != x && y != ALL
  {
    if x == "a" then "b" else "a"
  }

  /** A plain requirement matches a selector in strict mode when the network is its own and some scope admits it. */
  ghost predicate Serves(s: Selector, r: Requirement) {
    s.network == r.network && exists i :: 0 <= i < |s.scope| && Admits(s.scope[i], r)
  }

  lemma ServesIsMatch(s: Selector, r: Requirement)
    requires Plain(r)
    ensures MatchesSpec(s, r, false) <==> Serves(s, r)
  {
    forall i | 0 <= i < |s.scope| ensures IsMatch(s.scope[i], r, false) <==> Admits(s.scope[i], r) {
      StrictMatchIff(s.scope[i], r);
    }
  }

  /** Compatible exactly when the priorities differ, or both are 0 and no plain requirement is served by both. */
  lemma CompatibleIff(s: Selector, t: Selector)
    ensures Compatible(s, t) <==>
            || s.priority != t.priority
            || (s.priority == 0 && forall r :: Plain(r) ==> !(Serves(s, r) && Serves(t, r)))
  {
    if CrossOverlap(s, t) {
      var i, j :| 0 <= i < |s.scope| && 0 <= j < |t.scope| && Overlap(s.scope[i], t.scope[j]);
      var r :| Plain(r) && Admits(s.scope[i], r) && Admits(t.scope[j], r);
      var q := r.(network := s.network);
      assert Plain(q) && Admits(s.scope[i], q) && Admits(t.scope[j], q);
      assert Serves(s, q) && Serves(t, q);
    }
    forall r | Plain(r) && Serves(s, r) && Serves(t, r) ensures CrossOverlap(s, t) {
      var i :| 0 <= i < |s.scope| && Admits(s.scope[i], r);
      var j :| 0 <= j < |t.scope| && Admits(t.scope[j], r);
      assert Overlap(s.scope[i], t.scope[j]);
    }
  }
}
