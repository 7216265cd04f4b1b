/** Commits, their parents, ancestry, and what `git merge-base` may print. */
module CommitGraph {
  import opened Wrappers

  type Sha = string
  type Graph = map<Sha, set<Sha>>  // commit to parents

  // ----- ancestry ------------------------------------------------------

  ghost predicate IsPath(g: Graph, p: seq<Sha>) {
    && |p| > 0
    && (forall i | 0 <= i < |p| :: p[i] in g)
    && (forall i | 0 < i < |p| :: p[i] in g[p[i - 1]])
  }

  ghost predicate Links(g: Graph, p: seq<Sha>, tip: Sha, root: Sha) {
    IsPath(g, p) && p[0] == tip && p[|p| - 1] == root
  }

  /** `a` is `b` or one of its ancestors. */
  ghost predicate Ancestor(g: Graph, a: Sha, b: Sha) {
    exists p :: Links(g, p, b, a)
  }

  ghost predicate Acyclic(g: Graph) {
    forall p, c {:trigger Links(g, p, c, c)} :: Links(g, p, c, c) ==> |p| == 1
  }

  ghost predicate Extends(g: Graph, g': Graph) {
    forall c | c in g :: c in g' && g'[c] == g[c]
  }

  lemma AncestorRefl(g: Graph, a: Sha)
    requires a in g
    ensures Ancestor(g, a, a)
  {
    assert Links(g, [a], a, a);
  }

  lemma JoinPaths(g: Graph, p: seq<Sha>, q: seq<Sha>, c: Sha, b: Sha, a: Sha)
    requires Links(g, p, c, b) && Links(g, q, b, a)
    ensures Links(g, p + q[1..], c, a)
  {
    var r := p + q[1..];
    forall i | 0 < i < |r| ensures r[i] in g[r[i - 1]] {
      if i >= |p| { assert r[i] == q[i - |p| + 1] && r[i - 1] == q[i - |p|]; }
    }
  }

  lemma AncestorTrans(g: Graph, a: Sha, b: Sha, c: Sha)
    requires Ancestor(g, a, b) && Ancestor(g, b, c)
    ensures Ancestor(g, a, c)
  {
    var p :| Links(g, p, c, b);
    var q :| Links(g, q, b, a);
    JoinPaths(g, p, q, c, b, a);
  }

  lemma AncestorAntisym(g: Graph, a: Sha, b: Sha)
    requires Acyclic(g) && Ancestor(g, a, b) && Ancestor(g, b, a)
    ensures a == b
  {
    var p :| Links(g, p, b, a);
    var q :| Links(g, q, a, b);
    JoinPaths(g, p, q, b, a, b);
    assert Links(g, p + q[1..], b, b);
  }

  lemma AncestorMono(g: Graph, g': Graph, a: Sha, b: Sha)
    requires Extends(g, g') && Ancestor(g, a, b)
    ensures Ancestor(g', a, b)
  {
    var p :| Links(g, p, b, a);
    assert Links(g', p, b, a);
  }

  lemma AncestorInGraph(g: Graph, a: Sha, b: Sha)
    requires Ancestor(g, a, b)
    ensures a in g && b in g
  {
  }

  lemma SecondIsParent(g: Graph, p: seq<Sha>, tip: Sha, a: Sha)
    requires Links(g, p, tip, a) && |p| > 1
    ensures p[1] in g[tip] && Links(g, p[1..], p[1], a)
  { }

  /** A first commit has no ancestor but itself. */
  lemma RootAncestor(g: Graph, a: Sha, root: Sha)
    requires root in g && g[root] == {}
    ensures Ancestor(g, a, root) ==> a == root
    ensures forall p, c :: Links(g, p, root, c) ==> |p| == 1
  {
    forall p, c | Links(g, p, root, c) ensures |p| == 1 {
      if |p| > 1 {
        SecondIsParent(g, p, root, c);
        assert false;
      }
    }
  }

  lemma TwoRootsAcyclic(a: Sha, b: Sha)
    ensures Acyclic(map[a := {}, b := {}])
  {
    var g: Graph := map[a := {}, b := {}];
    RootAncestor(g, a, a);
    RootAncestor(g, a, b);
    assert forall p, c :: Links(g, p, c, c) ==> c == a || c == b;
  }

  lemma LineAcyclic(root: Sha, tip: Sha)
    requires root != tip
    ensures var g: Graph := map[root := {}, tip := {root}]; Acyclic(g) && !Ancestor(g, tip, root)
  {
    var g: Graph := map[root := {}, tip := {root}];
    RootAncestor(g, tip, root);
    forall p, c {:trigger Links(g, p, c, c)} | Links(g, p, c, c) ensures |p| == 1 {
      if c == tip && |p| > 1 {
        SecondIsParent(g, p, tip, tip);
        assert false;
      }
    }
  }

  // ----- merge base ----------------------------------------------------

  ghost predicate Common(g: Graph, a: Sha, b: Sha, c: Sha) {
    Ancestor(g, c, a) && Ancestor(g, c, b)
  }

  ghost predicate Related(g: Graph, a: Sha, b: Sha) {
    exists c :: Common(g, a, b, c)
  }

  /** No other common ancestor is a descendant of `c`. */
  ghost predicate Best(g: Graph, a: Sha, b: Sha, c: Sha) {
    Common(g, a, b, c) && forall d | Common(g, a, b, d) && Ancestor(g, c, d) :: d == c
  }

  /** `git merge-base a b` prints some best common ancestor, or fails if there is none. */
  ghost predicate MergeBase(g: Graph, a: Sha, b: Sha, out: Option<Sha>) {
    match out
    case None => !Related(g, a, b)
    case Some(c) => Best(g, a, b, c)
  }

  ghost function Above(g: Graph, a: Sha, b: Sha, c: Sha): set<Sha> {
    set d | d in g && d != c && Common(g, a, b, d) && Ancestor(g, c, d)
  }

  lemma {:induction false} BestAbove(g: Graph, a: Sha, b: Sha, c: Sha) returns (best: Sha)
    requires Acyclic(g) && Common(g, a, b, c)
    ensures Best(g, a, b, best)
    decreases |Above(g, a, b, c)|
  {
    forall d | Common(g, a, b, d) && Ancestor(g, c, d) ensures d in g { AncestorInGraph(g, d, a); }
    if Above(g, a, b, c) == {} {
      best := c;
      forall d | Common(g, a, b, d) && Ancestor(g, c, d) ensures d == c {
        assert d != c ==> d in Above(g, a, b, c);
      }
    } else {
      var d :| d in Above(g, a, b, c);
      forall e | e in Above(g, a, b, d) ensures e in Above(g, a, b, c) && e != d {
        AncestorTrans(g, c, d, e);
        if e == c { AncestorAntisym(g, c, d); }
      }
      assert Above(g, a, b, d) <= Above(g, a, b, c) - {d};
      SmallerSet(Above(g, a, b, d), Above(g, a, b, c), d);
      best := BestAbove(g, a, b, d);
    }
  }

  lemma SmallerSet(s: set<Sha>, t: set<Sha>, d: Sha)
    requires s <= t - {d} && d in t
    ensures |s| < |t|
  {
    assert t == s + (t - s);
    assert d in t - s;
  }

  /** On every acyclic history merge-base has an answer. */
  lemma MergeBaseExists(g: Graph, a: Sha, b: Sha) returns (out: Option<Sha>)
    requires Acyclic(g)
    ensures MergeBase(g, a, b, out)
  {
    if c :| Common(g, a, b, c) {
      var best := BestAbove(g, a, b, c);
      out := Some(best);
    } else {
      out := None;
    }
  }

  /** Whatever best common ancestor is printed, it is `a` exactly when `a` is
      an ancestor of `b`. */
  lemma MergeBaseIsOldIff(g: Graph, a: Sha, b: Sha, out: Option<Sha>)
    requires a in g && MergeBase(g, a, b, out)
    ensures out == Some(a) <==> Ancestor(g, a, b)
  {
    AncestorRefl(g, a);
    if Ancestor(g, a, b) {
      assert Common(g, a, b, a);
    }
  }
}
