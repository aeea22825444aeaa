/** Pruning uninteresting changesets out of a commit graph, in place
    (ci-scripts/wrupdater/converter.py). */
module CommitGraph {

  type Rev = string

  /** Every changeset has a first parent. Parents may lie outside the loaded range. */
  datatype HgCommit = HgCommit(parents: seq<Rev>, touchesWrCode: bool)

  type Graph = map<Rev, HgCommit>

  ghost predicate WellFormed(g: Graph) {
    forall r :: r in g ==> |g[r].parents| >= 1
  }

  /** Parents are numbered below their children, as changesets are: the graph has no cycle. */
  ghost predicate Ranked(g: Graph, rank: map<Rev, nat>) {
    && g.Keys <= rank.Keys
    && forall r, p :: r in g && p in g[r].parents && p in g ==> rank[p] < rank[r]
  }

  ghost function Height(g: Graph, rank: map<Rev, nat>, r: Rev): nat
    requires Ranked(g, rank)
  {
    if r in g then rank[r] + 1 else 0
  }

  /** Not a merge, and no change to the code of interest. */
  predicate Boring(g: Graph, r: Rev) {
    r in g && !g[r].touchesWrCode && |g[r].parents| <= 1
  }

  /** `b` is reached from `a` by parent edges. */
  ghost predicate Reaches(g: Graph, rank: map<Rev, nat>, a: Rev, b: Rev)
    requires Ranked(g, rank)
    decreases Height(g, rank, a)
  {
    a == b || (a in g && exists p :: p in g[a].parents && Reaches(g, rank, p, b))
  }

  /** `b` is reached from `a` by passing boring changesets only. */
  ghost predicate ThroughBoring(g: Graph, rank: map<Rev, nat>, a: Rev, b: Rev)
    requires Ranked(g, rank) && WellFormed(g)
    decreases Height(g, rank, a)
  {
    a == b || (Boring(g, a) && ThroughBoring(g, rank, g[a].parents[0], b))
  }

  /** The parents of `r` are all interesting. */
  ghost predicate Clean(g: Graph, r: Rev) {
    r in g ==> forall p :: p in g[r].parents ==> !Boring(g, p)
  }

  /** So are the parents of everything reachable from `r`. */
  ghost predicate DeepClean(g: Graph, rank: map<Rev, nat>, r: Rev)
    requires Ranked(g, rank)
    decreases Height(g, rank, r)
  {
    Clean(g, r) && (r in g ==> forall p :: p in g[r].parents ==> DeepClean(g, rank, p))
  }

  /** Same changesets, same flags, same number of parents. */
  ghost predicate SameShape(g: Graph, g': Graph) {
    && g.Keys == g'.Keys
    && forall r :: r in g ==>
         g'[r].touchesWrCode == g[r].touchesWrCode && |g'[r].parents| == |g[r].parents|
  }

  ghost predicate Rewired(g: Graph, g': Graph, rank: map<Rev, nat>)
    requires Ranked(g, rank) && WellFormed(g) && SameShape(g, g')
  {
    forall r, i :: r in g && 0 <= i < |g[r].parents| ==>
      ThroughBoring(g, rank, g[r].parents[i], g'[r].parents[i])
  }

  ghost predicate SameAncestry(g: Graph, g': Graph, rank: map<Rev, nat>)
    requires Ranked(g, rank) && Ranked(g', rank)
  {
    forall a, b :: !Boring(g, b) ==> (Reaches(g', rank, a, b) <==> Reaches(g, rank, a, b))
  }

  /** Changesets that needed no pruning are left alone. */
  ghost predicate KeepsClean(g: Graph, g': Graph) {
    forall r :: r in g && Clean(g, r) ==> r in g' && g'[r] == g[r]
  }

  /** What any number of pruning steps does to a graph. */
  ghost predicate Pruned(g: Graph, g': Graph, rank: map<Rev, nat>)
    requires Ranked(g, rank) && WellFormed(g)
  {
    SameShape(g, g') && Ranked(g', rank) && Rewired(g, g', rank) && SameAncestry(g, g', rank) && KeepsClean(g, g')
  }

  /** The source's step: parent `i` of `r` gives way to its own parent. */
  function Bypass(g: Graph, r: Rev, i: nat): Graph
    requires CanBypass(g, r, i)
  {
    g[r := g[r].(parents := g[r].parents[i := g[g[r].parents[i]].parents[0]])]
  }

  lemma {:induction false} BypassReaches(g: Graph, rank: map<Rev, nat>, r: Rev, i: nat, a: Rev, b: Rev)
    requires Ranked(g, rank) && WellFormed(g) && r in g && i < |g[r].parents| && Boring(g, g[r].parents[i])
    requires Ranked(Bypass(g, r, i), rank) && !Boring(g, b)
    ensures Reaches(Bypass(g, r, i), rank, a, b) <==> Reaches(g, rank, a, b)
    decreases Height(g, rank, a)
  {
    var g' := Bypass(g, r, i);
    if a in g {
      forall p | p in g[a].parents ensures Reaches(g', rank, p, b) <==> Reaches(g, rank, p, b) {
        BypassReaches(g, rank, r, i, p, b);
      }
      if a == r {
        var p := g[r].parents[i];
        var q := g[p].parents[0];
        assert q in g[p].parents;
        BypassReaches(g, rank, r, i, q, b);
        assert forall s :: s in g[p].parents ==> s == q;
        assert Reaches(g, rank, p, b) <==> Reaches(g, rank, q, b);
        assert g'[r].parents[i] == q;
        forall s | s in g'[r].parents && Reaches(g', rank, s, b) ensures Reaches(g, rank, r, b) {
          if s != q { assert s in g[r].parents; }
        }
        forall s | s in g[r].parents && Reaches(g, rank, s, b) ensures Reaches(g', rank, r, b) {
          var j :| 0 <= j < |g[r].parents| && g[r].parents[j] == s;
          if j == i { assert q in g'[r].parents; } else { assert g'[r].parents[j] == s; }
        }
      }
    }
  }

  lemma {:induction false} ThroughBoringTrans(g: Graph, rank: map<Rev, nat>, a: Rev, b: Rev, c: Rev)
    requires Ranked(g, rank) && WellFormed(g)
    requires ThroughBoring(g, rank, a, b) && ThroughBoring(g, rank, b, c)
    ensures ThroughBoring(g, rank, a, c)
    decreases Height(g, rank, a)
  {
    if a != b {
      assert g[a].parents[0] in g[a].parents;
      ThroughBoringTrans(g, rank, g[a].parents[0], b, c);
    }
  }

  lemma {:induction false} PrunedSelf(g: Graph, rank: map<Rev, nat>)
    requires Ranked(g, rank) && WellFormed(g)
    ensures Pruned(g, g, rank)
  {
  }

  lemma {:induction false} BypassShape(g: Graph, rank: map<Rev, nat>, r: Rev, i: nat)
    requires Ranked(g, rank) && WellFormed(g)
    requires r in g && i < |g[r].parents| && Boring(g, g[r].parents[i])
    ensures SameShape(g, Bypass(g, r, i)) && Ranked(Bypass(g, r, i), rank)
  {
    var g' := Bypass(g, r, i);
    var p := g[r].parents[i];
    var q := g[p].parents[0];
    assert q in g[p].parents && p in g[r].parents;
    forall s, t | s in g' && t in g'[s].parents && t in g' ensures rank[t] < rank[s] {
      assert t in g[s].parents || (s == r && t == q);
    }
  }

  lemma {:induction false} BypassRewired(g0: Graph, g: Graph, rank: map<Rev, nat>, r: Rev, i: nat)
    requires Ranked(g0, rank) && WellFormed(g0) && SameShape(g0, g) && Rewired(g0, g, rank)
    requires r in g && i < |g[r].parents| && Boring(g, g[r].parents[i])
    ensures Rewired(g0, Bypass(g, r, i), rank)
  {
    var g' := Bypass(g, r, i);
    var p := g[r].parents[i];
    forall s, j | s in g0 && 0 <= j < |g0[s].parents|
      ensures ThroughBoring(g0, rank, g0[s].parents[j], g'[s].parents[j])
    {
      assert ThroughBoring(g0, rank, g0[s].parents[j], g[s].parents[j]);
      if s == r && j == i {
        assert ThroughBoring(g0, rank, g0[p].parents[0], g[p].parents[0]);
        ThroughBoringTrans(g0, rank, g0[s].parents[j], p, g[p].parents[0]);
      }
    }
  }

  lemma {:induction false} BypassAncestry(g0: Graph, g: Graph, rank: map<Rev, nat>, r: Rev, i: nat)
    requires Ranked(g0, rank) && Ranked(g, rank) && WellFormed(g) && SameShape(g0, g) && SameAncestry(g0, g, rank)
    requires r in g && i < |g[r].parents| && Boring(g, g[r].parents[i])
    requires Ranked(Bypass(g, r, i), rank)
    ensures SameAncestry(g0, Bypass(g, r, i), rank)
  {
    forall a, b | !Boring(g0, b)
      ensures Reaches(Bypass(g, r, i), rank, a, b) <==> Reaches(g0, rank, a, b)
    {
      BypassReaches(g, rank, r, i, a, b);
    }
  }

  /** One more bypass after any pruning is a pruning. */
  lemma {:induction false} PrunedStep(g0: Graph, g: Graph, rank: map<Rev, nat>, r: Rev, i: nat)
    requires Ranked(g0, rank) && WellFormed(g0) && Pruned(g0, g, rank)
    requires r in g && i < |g[r].parents| && Boring(g, g[r].parents[i])
    ensures Pruned(g0, Bypass(g, r, i), rank)
  {
    BypassShape(g, rank, r, i);
    BypassRewired(g0, g, rank, r, i);
    BypassAncestry(g0, g, rank, r, i);
    assert g[r].parents[i] in g[r].parents;
    assert !Clean(g0, r);
  }

  /** `g'` is obtained from `g` by `n` bypasses. */
  ghost predicate Steps(g: Graph, g': Graph, n: nat)
    decreases n
  {
    if n == 0 then g == g' else
      exists h: Graph, r: Rev, i: nat :: Steps(g, h, n - 1) && CanBypass(h, r, i) && g' == Bypass(h, r, i)
  }

  predicate CanBypass(g: Graph, r: Rev, i: nat) {
    r in g && i < |g[r].parents| && Boring(g, g[r].parents[i]) && |g[g[r].parents[i]].parents| >= 1
  }

  ghost predicate Run(g: Graph, g': Graph) {
    exists n: nat :: Steps(g, g', n)
  }

  lemma {:induction false} RunNone(g: Graph)
    ensures Run(g, g)
  {
    assert Steps(g, g, 0);
  }

  lemma {:induction false} RunThenStep(g: Graph, h: Graph, r: Rev, i: nat)
    requires Run(g, h) && CanBypass(h, r, i)
    ensures Run(g, Bypass(h, r, i))
  {
    var n: nat :| Steps(g, h, n);
    assert Steps(g, Bypass(h, r, i), n + 1);
  }

  lemma {:induction false} RunThenRun(g: Graph, h: Graph, k: Graph)
    requires Run(g, h) && Run(h, k)
    ensures Run(g, k)
  {
    var n: nat :| Steps(h, k, n);
    RunThenSteps(g, h, k, n);
  }

  lemma {:induction false} RunThenSteps(g: Graph, h: Graph, k: Graph, n: nat)
    requires Run(g, h) && Steps(h, k, n)
    ensures Run(g, k)
  {
    if n != 0 {
      var k': Graph, r: Rev, i: nat :| Steps(h, k', n - 1) && CanBypass(k', r, i) && k == Bypass(k', r, i);
      RunThenSteps(g, h, k', n - 1);
      RunThenStep(g, k', r, i);
    }
  }

  /** Every run of bypasses is a pruning. */
  lemma {:induction false} RunPrunes(g: Graph, g': Graph, rank: map<Rev, nat>)
    requires Ranked(g, rank) && WellFormed(g) && Run(g, g')
    ensures Pruned(g, g', rank)
  {
    var n: nat :| Steps(g, g', n);
    StepsPrune(g, g', rank, n);
  }

  lemma {:induction false} StepsPrune(g: Graph, g': Graph, rank: map<Rev, nat>, n: nat)
    requires Ranked(g, rank) && WellFormed(g) && Steps(g, g', n)
    ensures Pruned(g, g', rank)
  {
    if n == 0 {
      PrunedSelf(g, rank);
    } else {
      var h: Graph, r: Rev, i: nat :| Steps(g, h, n - 1) && CanBypass(h, r, i) && g' == Bypass(h, r, i);
      StepsPrune(g, h, rank, n - 1);
      PrunedStep(g, h, rank, r, i);
    }
  }

  /** The heights of the parents together bound how often a changeset can be rewired. */
  ghost function ParentHeights(g: Graph, rank: map<Rev, nat>, ps: seq<Rev>): nat
    requires Ranked(g, rank)
  {
    if ps == [] then 0 else Height(g, rank, ps[0]) + ParentHeights(g, rank, ps[1..])
  }

  lemma {:induction false} LowerParent(g: Graph, g': Graph, rank: map<Rev, nat>, ps: seq<Rev>, i: nat, q: Rev)
    requires Ranked(g, rank) && Ranked(g', rank) && g.Keys == g'.Keys && i < |ps|
    requires Height(g, rank, q) < Height(g, rank, ps[i])
    ensures ParentHeights(g', rank, ps[i := q]) < ParentHeights(g, rank, ps)
  {
    if i == 0 {
      assert ps[i := q][1..] == ps[1..];
      SameHeights(g, g', rank, ps[1..]);
    } else {
      assert ps[i := q][1..] == ps[1..][i - 1 := q];
      LowerParent(g, g', rank, ps[1..], i - 1, q);
    }
  }

  lemma {:induction false} SameHeights(g: Graph, g': Graph, rank: map<Rev, nat>, ps: seq<Rev>)
    requires Ranked(g, rank) && Ranked(g', rank) && g.Keys == g'.Keys
    ensures ParentHeights(g', rank, ps) == ParentHeights(g, rank, ps)
  {
    if ps != [] { SameHeights(g, g', rank, ps[1..]); }
  }

  /** Pruning elsewhere keeps what is clean all the way down. */
  lemma {:induction false} DeepCleanKept(g: Graph, g': Graph, rank: map<Rev, nat>, r: Rev)
    requires Ranked(g, rank) && Ranked(g', rank) && SameShape(g, g') && KeepsClean(g, g')
    requires DeepClean(g, rank, r)
    ensures DeepClean(g', rank, r)
    decreases Height(g, rank, r)
  {
    if r in g {
      forall p | p in g[r].parents ensures DeepClean(g', rank, p) {
        DeepCleanKept(g, g', rank, p);
      }
    }
  }

  /** Everything reachable from a deeply clean changeset has interesting parents only. */
  lemma {:induction false} DeepCleanReach(g: Graph, rank: map<Rev, nat>, a: Rev, b: Rev)
    requires Ranked(g, rank) && DeepClean(g, rank, a) && Reaches(g, rank, a, b)
    ensures Clean(g, b)
    decreases Height(g, rank, a)
  {
    if a != b {
      var p :| p in g[a].parents && Reaches(g, rank, p, b);
      DeepCleanReach(g, rank, p, b);
    }
  }

  /** Clean changesets from `start` on, whose parents lie on the trail or are `top`. */
  ghost predicate Trail(g: Graph, trail: set<Rev>, top: Rev, start: Rev) {
    && (start in trail || start == top)
    && (forall s :: s in trail ==> s in g && Clean(g, s))
    && (forall s, p :: s in trail && p in g[s].parents ==> p in trail || p == top)
  }

  lemma {:induction false} TrailDeepClean(g: Graph, rank: map<Rev, nat>, trail: set<Rev>, top: Rev, start: Rev, r: Rev)
    requires Ranked(g, rank) && DeepClean(g, rank, top) && Trail(g, trail, top, start)
    requires r in trail || r == top
    ensures DeepClean(g, rank, r)
    decreases Height(g, rank, r)
  {
    if r != top {
      forall p | p in g[r].parents ensures DeepClean(g, rank, p) {
        TrailDeepClean(g, rank, trail, top, start, p);
      }
    }
  }

  lemma {:induction false} TrailKept(g: Graph, g': Graph, rank: map<Rev, nat>, trail: set<Rev>, top: Rev, start: Rev)
    requires Ranked(g, rank) && WellFormed(g) && Run(g, g') && Trail(g, trail, top, start)
    ensures Trail(g', trail, top, start)
  {
    RunPrunes(g, g', rank);
  }

  lemma {:induction false} TrailExtend(g: Graph, trail: set<Rev>, top: Rev, start: Rev)
    requires Trail(g, trail, top, start) && top in g && Clean(g, top) && |g[top].parents| == 1
    ensures Trail(g, trail + {top}, g[top].parents[0], start)
  {
    assert forall p :: p in g[top].parents ==> p == g[top].parents[0];
  }

  lemma {:induction false} MergeKept(g: Graph, g': Graph, rank: map<Rev, nat>, cur: Rev, ps: seq<Rev>)
    requires Ranked(g, rank) && WellFormed(g) && Run(g, g') && Ranked(g', rank)
    requires cur in g && Clean(g, cur) && forall p :: p in ps ==> DeepClean(g, rank, p)
    ensures cur in g' && g'[cur] == g[cur] && Clean(g', cur) && forall p :: p in ps ==> DeepClean(g', rank, p)
  {
    RunPrunes(g, g', rank);
    forall p | p in ps ensures DeepClean(g', rank, p) {
      DeepCleanKept(g, g', rank, p);
    }
  }

  ghost predicate AllDeepClean(g: Graph, rank: map<Rev, nat>, revs: seq<Rev>)
    requires Ranked(g, rank) && WellFormed(g)
  {
    forall p :: p in revs ==> DeepClean(g, rank, p)
  }

  class Converter {
    var hgCommits: Graph

    constructor (commits: Graph)
      ensures hgCommits == commits
    {
      hgCommits := commits;
    }

    ghost predicate Valid(rank: map<Rev, nat>)
      reads this
    {
      Ranked(hgCommits, rank) && WellFormed(hgCommits)
    }

    /** Replaces boring parent `i` of `rev` by its own parent. */
    method BypassParent(rev: Rev, i: nat, ghost rank: map<Rev, nat>)
      requires Valid(rank) && CanBypass(hgCommits, rev, i)
      modifies this
      ensures Valid(rank) && hgCommits == Bypass(old(hgCommits), rev, i) && hgCommits.Keys == old(hgCommits).Keys
      ensures ParentHeights(hgCommits, rank, hgCommits[rev].parents)
              < ParentHeights(old(hgCommits), rank, old(hgCommits)[rev].parents)
    {
      ghost var g := hgCommits;
      BypassShape(g, rank, rev, i);
      var parentRev := hgCommits[rev].parents[i];
      var grandparentRev := hgCommits[parentRev].parents[0];
      assert grandparentRev in hgCommits[parentRev].parents;
      hgCommits := hgCommits[rev := hgCommits[rev].(parents := hgCommits[rev].parents[i := grandparentRev])];
      LowerParent(g, hgCommits, rank, g[rev].parents, i, grandparentRev);
    }

    /** One pass over the parents of `rev`. */
    method BypassParents(rev: Rev, ghost rank: map<Rev, nat>) returns (parentPruned: bool)
      requires Valid(rank) && rev in hgCommits
      modifies this
      ensures Valid(rank) && Run(old(hgCommits), hgCommits) && hgCommits.Keys == old(hgCommits).Keys
      ensures !parentPruned ==> hgCommits == old(hgCommits) && Clean(hgCommits, rev)
      ensures parentPruned ==> ParentHeights(hgCommits, rank, hgCommits[rev].parents)
                               < ParentHeights(old(hgCommits), rank, old(hgCommits)[rev].parents)
    {
      parentPruned := false;
      ghost var g := hgCommits;
      RunNone(g);
      for i := 0 to |hgCommits[rev].parents|
        invariant Valid(rank) && Run(g, hgCommits) && hgCommits.Keys == g.Keys
        invariant |hgCommits[rev].parents| == |g[rev].parents|
        invariant !parentPruned ==> hgCommits == g && forall j :: 0 <= j < i ==> !Boring(g, g[rev].parents[j])
        invariant ParentHeights(hgCommits, rank, hgCommits[rev].parents) + (if parentPruned then 1 else 0)
                  <= ParentHeights(g, rank, g[rev].parents)
      {
        var parentRev := hgCommits[rev].parents[i];
        if parentRev !in hgCommits {
          continue;
        }
        if hgCommits[parentRev].touchesWrCode {
          continue;
        }
        if |hgCommits[parentRev].parents| > 1 {
          continue;
        }
        RunThenStep(g, hgCommits, rev, i);
        BypassParent(rev, i, rank);
        parentPruned := true;
      }
    }

    /** Prunes everything reachable from `rev`: up along single parents, recursively at merges. */
    method PruneBoring(rev: Rev, ghost rank: map<Rev, nat>)
      requires Valid(rank)
      modifies this
      ensures Valid(rank) && Run(old(hgCommits), hgCommits) && hgCommits.Keys == old(hgCommits).Keys
      ensures DeepClean(hgCommits, rank, rev)
      decreases Height(hgCommits, rank, rev)
    {
      var cur := rev;
      ghost var trail: set<Rev> := {};
      ghost var g := hgCommits;
      RunNone(g);
      while cur in hgCommits
        invariant Valid(rank) && Run(g, hgCommits) && hgCommits.Keys == g.Keys
        invariant Height(hgCommits, rank, cur) <= Height(g, rank, rev)
        invariant Trail(hgCommits, trail, cur, rev)
        decreases Height(hgCommits, rank, cur),
                  if cur in hgCommits then ParentHeights(hgCommits, rank, hgCommits[cur].parents) else 0
      {
        ghost var before := hgCommits;
        var parentPruned := BypassParents(cur, rank);
        RunThenRun(g, before, hgCommits);
        if parentPruned {
          TrailKept(before, hgCommits, rank, trail, cur, rev);
          continue;
        }
        if |hgCommits[cur].parents| == 1 {
          TrailExtend(hgCommits, trail, cur, rev);
          trail := trail + {cur};
          assert hgCommits[cur].parents[0] in hgCommits[cur].parents;
          cur := hgCommits[cur].parents[0];
          continue;
        }
        PruneParents(cur, rank);
        RunThenRun(g, before, hgCommits);
        TrailKept(before, hgCommits, rank, trail, cur, rev);
        TrailDeepClean(hgCommits, rank, trail, cur, rev, rev);
        return;
      }
      TrailDeepClean(hgCommits, rank, trail, cur, rev, rev);
    }

    /** The recursion at a merge. */
    method PruneParents(cur: Rev, ghost rank: map<Rev, nat>)
      requires Valid(rank) && cur in hgCommits && Clean(hgCommits, cur)
      modifies this
      ensures Valid(rank) && Run(old(hgCommits), hgCommits) && hgCommits.Keys == old(hgCommits).Keys
      ensures DeepClean(hgCommits, rank, cur)
      decreases Height(hgCommits, rank, cur), 1
    {
      ghost var g := hgCommits;
      RunNone(g);
      var parents := hgCommits[cur].parents;
      for i := 0 to |parents|
        invariant Valid(rank) && Run(g, hgCommits) && hgCommits.Keys == g.Keys
        invariant hgCommits[cur] == g[cur] && Clean(hgCommits, cur)
        invariant AllDeepClean(hgCommits, rank, parents[..i])
      {
        ghost var before := hgCommits;
        PruneParent(cur, i, rank);
        RunThenRun(g, before, hgCommits);
      }
      assert parents[..|parents|] == parents;
    }

    /** One parent of a merge. */
    method PruneParent(cur: Rev, i: nat, ghost rank: map<Rev, nat>)
      requires Valid(rank) && cur in hgCommits && Clean(hgCommits, cur) && i < |hgCommits[cur].parents|
      requires AllDeepClean(hgCommits, rank, hgCommits[cur].parents[..i])
      modifies this
      ensures Valid(rank) && Run(old(hgCommits), hgCommits) && hgCommits.Keys == old(hgCommits).Keys
      ensures hgCommits[cur] == old(hgCommits[cur]) && Clean(hgCommits, cur)
      ensures AllDeepClean(hgCommits, rank, hgCommits[cur].parents[..i + 1])
      decreases Height(hgCommits, rank, cur), 0
    {
      ghost var before := hgCommits;
      var parents := hgCommits[cur].parents;
      assert parents[..i + 1] == parents[..i] + [parents[i]];
      assert parents[i] in hgCommits[cur].parents;
      PruneBoring(parents[i], rank);
      MergeKept(before, hgCommits, rank, cur, parents[..i]);
    }

    /** What pruning from the tip promises: nothing boring is left as a parent below the tip, every
        new parent was reached through boring changesets, and the interesting changesets keep
        their ancestors. */
    method Prune(tip: Rev, ghost rank: map<Rev, nat>)
      requires Valid(rank)
      modifies this
      ensures Valid(rank) && Pruned(old(hgCommits), hgCommits, rank)
      ensures forall a :: Reaches(hgCommits, rank, tip, a) ==> Clean(hgCommits, a)
      ensures forall a, p ::
                Reaches(hgCommits, rank, tip, a) && a in hgCommits && p in hgCommits[a].parents && p in hgCommits ==>
                  hgCommits[p].touchesWrCode || |hgCommits[p].parents| > 1
    {
      PruneBoring(tip, rank);
      RunPrunes(old(hgCommits), hgCommits, rank);
      forall a | Reaches(hgCommits, rank, tip, a) ensures Clean(hgCommits, a) {
        DeepCleanReach(hgCommits, rank, tip, a);
      }
      forall a, p | Reaches(hgCommits, rank, tip, a) && a in hgCommits && p in hgCommits[a].parents && p in hgCommits
        ensures hgCommits[p].touchesWrCode || |hgCommits[p].parents| > 1
      {
        assert Clean(hgCommits, a) && !Boring(hgCommits, p);
      }
    }
  }
}
