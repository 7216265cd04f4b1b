/** Caching a repository together with the repositories it was forked from
    (utils/cache.go): packfiles are downloaded parent first, and each fork's
    object directory is linked to its parent's by an alternates file. */
module ForkCache {
  import opened Wrappers

  type Id = nat

  datatype Repo = Repo(fork: bool, parent: Id)

  datatype Packfile = Packfile(cid: string, name: string)

  /** What the chain answers; queries for `unavailable` packfiles fail, and only
      the contents in `fetchable` can be had from IPFS. */
  datatype Chain = Chain(repos: map<Id, Repo>, packs: map<Id, Packfile>, unavailable: set<Id>, fetchable: set<string>)

  /** An initialised bare repository: its packfiles and its alternates link. */
  datatype Dir = Dir(packs: set<string>, alternates: Option<Id>)

  type Dirs = map<Id, Dir>

  // ----- ancestry of forks ---------------------------------------------

  predicate HasParent(c: Chain, id: Id) {
    id in c.repos && c.repos[id].fork && c.repos[id].parent in c.repos
  }

  /** The `n`-th repository up the fork chain, if there is one. */
  function Up(c: Chain, id: Id, n: nat): Option<Id> {
    if n == 0 then (if id in c.repos then Some(id) else None)
    else match Up(c, id, n - 1)
         case None => None
         case Some(x) => if HasParent(c, x) then Some(c.repos[x].parent) else None
  }

  ghost predicate Acyclic(c: Chain) {
    forall id: Id, n: nat | n > 0 :: Up(c, id, n) != Some(id)
  }

  lemma {:induction false} UpPlus(c: Chain, id: Id, n: nat, x: Id, m: nat)
    requires Up(c, id, n) == Some(x)
    ensures Up(c, id, n + m) == Up(c, x, m)
    ensures x in c.repos
  {
    UpInChain(c, id, n);
    if m > 0 { UpPlus(c, id, n, x, m - 1); }
  }

  lemma {:induction false} UpInChain(c: Chain, id: Id, n: nat)
    ensures Up(c, id, n).Some? ==> Up(c, id, n).value in c.repos
    ensures Up(c, id, n).Some? ==> id in c.repos
  {
    if n > 0 { UpInChain(c, id, n - 1); }
  }

  lemma {:induction false} UpPrefix(c: Chain, id: Id, n: nat, m: nat)
    requires m <= n && Up(c, id, n).Some?
    ensures Up(c, id, m).Some?
  {
    if m < n { UpPrefix(c, id, n - 1, m); }
  }

  ghost function Visited(c: Chain, id: Id, n: nat): set<Id> {
    if n == 0 then {} else Visited(c, id, n - 1) + (if Up(c, id, n - 1).Some? then {Up(c, id, n - 1).value} else {})
  }

  lemma {:induction false} VisitedAt(c: Chain, id: Id, n: nat, x: Id) returns (m: nat)
    requires x in Visited(c, id, n)
    ensures m < n && Up(c, id, m) == Some(x)
  {
    if Up(c, id, n - 1) == Some(x) { m := n - 1; } else { m := VisitedAt(c, id, n - 1, x); }
  }

  /** Without a cycle the chain never meets a repository twice. */
  lemma {:induction false} VisitedGrows(c: Chain, id: Id, n: nat)
    requires Acyclic(c) && (n > 0 ==> Up(c, id, n - 1).Some?)
    ensures |Visited(c, id, n)| == n && Visited(c, id, n) <= c.repos.Keys
  {
    if n > 0 {
      if n > 1 { UpPrefix(c, id, n - 1, n - 2); }
      VisitedGrows(c, id, n - 1);
      UpInChain(c, id, n - 1);
      var x := Up(c, id, n - 1).value;
      if x in Visited(c, id, n - 1) {
        var m := VisitedAt(c, id, n - 1, x);
        UpPlus(c, id, m, x, n - 1 - m);
      }
    }
  }

  lemma SubsetCard(a: set<Id>, b: set<Id>)
    requires a <= b
    ensures |a| <= |b|
  {
    assert b == a + (b - a);
  }

  /** An acyclic fork chain ends within as many steps as there are repositories. */
  lemma ChainEnds(c: Chain, id: Id)
    requires Acyclic(c)
    ensures Up(c, id, |c.repos|).None?
  {
    if Up(c, id, |c.repos|).Some? {
      VisitedGrows(c, id, |c.repos| + 1);
      SubsetCard(Visited(c, id, |c.repos| + 1), c.repos.Keys);
    }
  }

  /** Number of ancestors: the recursion depth of a download. */
  ghost function Depth(c: Chain, id: Id): nat
    requires Acyclic(c)
  {
    ChainEnds(c, id);
    LeastNone(c, id, |c.repos|)
  }

  ghost function LeastNone(c: Chain, id: Id, n: nat): (d: nat)
    requires Up(c, id, n).None?
    ensures d <= n && Up(c, id, d).None? && (d > 0 ==> Up(c, id, d - 1).Some?)
  {
    if n > 0 && Up(c, id, n - 1).None? then LeastNone(c, id, n - 1) else n
  }

  lemma ParentIsShallower(c: Chain, id: Id)
    requires Acyclic(c) && HasParent(c, id)
    ensures Depth(c, c.repos[id].parent) < Depth(c, id)
  {
    var p := c.repos[id].parent;
    assert Up(c, id, 0) == Some(id);
    assert Up(c, id, 1) == Some(p);
    var d := Depth(c, id);
    if d >= 1 {
      UpPlus(c, id, 1, p, d - 1);
      if Depth(c, p) > d - 1 { UpPrefix(c, p, Depth(c, p) - 1, d - 1); }
    }
  }

  // ----- the cache -----------------------------------------------------

  /** IsRepositoryPackfileCached; a packfile without content id is an empty
      repository and counts as cached. */
  function PackfileCached(c: Chain, dirs: Dirs, id: Id): Result<bool> {
    if id in c.unavailable then Err("failed to get cid from chain")
    else if id !in c.packs then Ok(false)
    else if c.packs[id].cid == "" then Ok(true)
    else Ok(id in dirs && c.packs[id].name in dirs[id].packs)
  }

  predicate Present(c: Chain, dirs: Dirs, id: Id) {
    id in c.packs && id in dirs && c.packs[id].name in dirs[id].packs
  }

  predicate Empty(c: Chain, id: Id) {
    id in c.packs && c.packs[id].cid == ""
  }

  /** The check fails with the query, and answers yes exactly for the packfiles that are
      empty or in the object directory. */
  lemma PackfileCachedIff(c: Chain, dirs: Dirs, id: Id)
    ensures PackfileCached(c, dirs, id).Err? <==> id in c.unavailable
    ensures PackfileCached(c, dirs, id) == Ok(true) <==>
      id !in c.unavailable && id in c.packs && (c.packs[id].cid == "" || (id in dirs && c.packs[id].name in dirs[id].packs))
  { }

  /** The repository is there with its packfile, and a fork is linked to its parent. */
  predicate Complete(c: Chain, dirs: Dirs, id: Id) {
    && id in c.repos
    && id in dirs
    && (id in c.packs ==> c.packs[id].name in dirs[id].packs)
    && (c.repos[id].fork ==> HasParent(c, id) && dirs[id].alternates == Some(c.repos[id].parent))
  }

  /** A download of `id` goes up the chain to its `n`-th repository, none on the way being empty. */
  ghost predicate Needs(c: Chain, id: Id, n: nat) {
    forall m: nat | m <= n :: Up(c, id, m).Some? && !Empty(c, Up(c, id, m).value)
  }

  ghost predicate ChainComplete(c: Chain, dirs: Dirs, id: Id) {
    && id in c.repos
    && forall n: nat | Needs(c, id, n) :: Complete(c, dirs, Up(c, id, n).value)
  }

  /** Every packfile present has its whole fork chain behind it, and every link
      points to the parent. */
  ghost predicate Closed(c: Chain, dirs: Dirs) {
    && (forall id | Present(c, dirs, id) :: ChainComplete(c, dirs, id))
    && (forall id | id in dirs && dirs[id].alternates.Some? :: HasParent(c, id) && dirs[id].alternates.value == c.repos[id].parent)
  }

  ghost predicate ValidChain(c: Chain) {
    Acyclic(c) && c.packs.Keys <= c.repos.Keys
  }

  /** Nothing is lost: no eviction while caching. */
  ghost predicate Grown(a: Dirs, b: Dirs) {
    forall id | id in a :: id in b && a[id].packs <= b[id].packs && (a[id].alternates.Some? ==> b[id].alternates == a[id].alternates)
  }

  lemma CompleteGrows(c: Chain, a: Dirs, b: Dirs, id: Id)
    requires Grown(a, b) && ChainComplete(c, a, id)
    ensures ChainComplete(c, b, id)
  {
    forall n: nat | Needs(c, id, n) ensures Complete(c, b, Up(c, id, n).value) {
      assert Complete(c, a, Up(c, id, n).value);
    }
  }

  /** Without empty repositories that is the chain as a whole. */
  lemma WholeChain(c: Chain, dirs: Dirs, id: Id, n: nat)
    requires ChainComplete(c, dirs, id) && Up(c, id, n).Some?
    requires forall m: nat | m <= n && Up(c, id, m).Some? :: !Empty(c, Up(c, id, m).value)
    ensures Complete(c, dirs, Up(c, id, n).value)
  {
    forall m: nat | m <= n ensures Up(c, id, m).Some? { UpPrefix(c, id, n, m); }
    assert Needs(c, id, n);
  }

  lemma EmptyNeedsNothing(c: Chain, dirs: Dirs, id: Id)
    requires id in c.repos && Empty(c, id)
    ensures ChainComplete(c, dirs, id)
  {
    assert Up(c, id, 0) == Some(id);
    forall n: nat ensures !Needs(c, id, n) { assert 0 <= n && Empty(c, Up(c, id, 0).value); }
  }

  lemma NeedsParent(c: Chain, id: Id, n: nat)
    requires n > 0 && id in c.repos && Needs(c, id, n)
    ensures HasParent(c, id) && Needs(c, c.repos[id].parent, n - 1)
    ensures Up(c, c.repos[id].parent, n - 1) == Up(c, id, n)
  {
    var p := c.repos[id].parent;
    assert Up(c, id, 0) == Some(id) && Up(c, id, 1).Some?;
    forall m: nat | m <= n - 1 ensures Up(c, p, m) == Up(c, id, 1 + m) {
      UpPlus(c, id, 1, p, m);
    }
    forall m: nat | m <= n - 1 ensures Up(c, p, m).Some? && !Empty(c, Up(c, p, m).value) {
      assert Up(c, id, 1 + m).Some? && !Empty(c, Up(c, id, 1 + m).value);
    }
  }

  lemma CompleteStep(c: Chain, dirs: Dirs, id: Id)
    requires Complete(c, dirs, id)
    requires c.repos[id].fork ==> ChainComplete(c, dirs, c.repos[id].parent)
    ensures ChainComplete(c, dirs, id)
  {
    forall n: nat | Needs(c, id, n) ensures Complete(c, dirs, Up(c, id, n).value) {
      if n > 0 {
        NeedsParent(c, id, n);
        assert Complete(c, dirs, Up(c, c.repos[id].parent, n - 1).value);
      }
    }
  }

  /** Initialising or linking a directory, or adding its packfile once its chain is
      complete, keeps the cache closed. */
  lemma StillClosed(c: Chain, a: Dirs, b: Dirs, id: Id)
    requires Closed(c, a) && Grown(a, b)
    requires forall x | x in b && x != id :: x in a && b[x] == a[x]
    requires id in b && (Present(c, b, id) ==> Present(c, a, id) || ChainComplete(c, b, id))
    requires id in b && b[id].alternates.Some? ==> HasParent(c, id) && b[id].alternates.value == c.repos[id].parent
    ensures Closed(c, b)
  {
    forall x | Present(c, b, x) ensures ChainComplete(c, b, x) {
      if x != id || Present(c, a, x) {
        assert Present(c, a, x);
        CompleteGrows(c, a, b, x);
      }
    }
  }

  /** Everything a download of `id` needs can be had; empty ancestors are not fetched. */
  ghost predicate Obtainable(c: Chain, id: Id) {
    && id in c.repos
    && forall n: nat | Up(c, id, n).Some? ::
         var x := Up(c, id, n).value;
         && x !in c.unavailable
         && (x in c.packs && (n > 0 ==> !Empty(c, x)) ==> c.packs[x].cid in c.fetchable)
         && (c.repos[x].fork ==> HasParent(c, x))
  }

  lemma ParentObtainable(c: Chain, id: Id)
    requires Obtainable(c, id) && c.repos[id].fork
    ensures HasParent(c, id) && (!Empty(c, c.repos[id].parent) ==> Obtainable(c, c.repos[id].parent))
    ensures id !in c.unavailable && c.repos[id].parent !in c.unavailable
  {
    var p := c.repos[id].parent;
    assert Up(c, id, 0) == Some(id);
    assert Up(c, id, 1) == Some(p);
    forall n: nat | Up(c, p, n).Some?
      ensures var x := Up(c, p, n).value;
        && x !in c.unavailable && (x in c.packs && !Empty(c, x) ==> c.packs[x].cid in c.fetchable) && (c.repos[x].fork ==> HasParent(c, x))
    {
      UpPlus(c, id, 1, p, n);
    }
  }

  ghost predicate OnChainOf(c: Chain, id: Id, x: Id) {
    exists n: nat :: Up(c, id, n) == Some(x)
  }

  /** No directory off the fork chain of `id` changed. */
  ghost predicate OnlyChain(c: Chain, a: Dirs, b: Dirs, id: Id) {
    forall x | x in b && !OnChainOf(c, id, x) :: x in a && b[x] == a[x]
  }

  lemma OnlySelf(c: Chain, a: Dirs, b: Dirs, id: Id)
    requires id in c.repos && forall x | x in b && x != id :: x in a && b[x] == a[x]
    ensures OnlyChain(c, a, b, id)
  {
    assert Up(c, id, 0) == Some(id);
  }

  lemma OnlyParents(c: Chain, a: Dirs, b: Dirs, id: Id)
    requires HasParent(c, id) && OnlyChain(c, a, b, c.repos[id].parent)
    ensures OnlyChain(c, a, b, id)
  {
    var p := c.repos[id].parent;
    assert Up(c, id, 0) == Some(id) && Up(c, id, 1) == Some(p);
    forall x: Id | OnChainOf(c, p, x) ensures OnChainOf(c, id, x) {
      var n: nat :| Up(c, p, n) == Some(x);
      UpPlus(c, id, 1, p, n);
    }
  }

  class Cache {
    var dirs: Dirs

    constructor ()
      ensures dirs == map[]
    {
      dirs := map[];
    }

    /** git init --bare, unless it is there. */
    method InitRepository(c: Chain, id: Id)
      requires Closed(c, dirs) && id in c.repos
      modifies this
      ensures Closed(c, dirs) && Grown(old(dirs), dirs) && OnlyChain(c, old(dirs), dirs, id)
      ensures dirs == if id in old(dirs) then old(dirs) else old(dirs)[id := Dir({}, None)]
    {
      if id !in dirs {
        dirs := dirs[id := Dir({}, None)];
        StillClosed(c, old(dirs), dirs, id);
        OnlySelf(c, old(dirs), dirs, id);
      }
    }

    /** Write objects/info/alternates, unless it is there. */
    method LinkParent(c: Chain, id: Id)
      requires Closed(c, dirs) && id in dirs && HasParent(c, id) && ChainComplete(c, dirs, c.repos[id].parent)
      modifies this
      ensures Closed(c, dirs) && Grown(old(dirs), dirs) && ChainComplete(c, dirs, c.repos[id].parent)
      ensures OnlyChain(c, old(dirs), dirs, id)
      ensures dirs == old(dirs)[id := Dir(old(dirs)[id].packs, Some(c.repos[id].parent))]
    {
      if dirs[id].alternates.None? {
        dirs := dirs[id := dirs[id].(alternates := Some(c.repos[id].parent))];
        CompleteGrows(c, old(dirs), dirs, c.repos[id].parent);
        StillClosed(c, old(dirs), dirs, id);
        OnlySelf(c, old(dirs), dirs, id);
      }
    }

    /** Fetch the packfile from IPFS into objects/pack. */
    method DownloadPackfile(c: Chain, id: Id) returns (ok: bool)
      requires Closed(c, dirs) && id in c.repos && id in dirs && id in c.packs
      requires c.repos[id].fork ==>
        HasParent(c, id) && dirs[id].alternates == Some(c.repos[id].parent) && ChainComplete(c, dirs, c.repos[id].parent)
      modifies this
      ensures Closed(c, dirs) && Grown(old(dirs), dirs) && OnlyChain(c, old(dirs), dirs, id)
      ensures ok <==> c.packs[id].cid in c.fetchable
      ensures dirs == if !ok then old(dirs) else
        old(dirs)[id := Dir(old(dirs)[id].packs + {c.packs[id].name}, old(dirs)[id].alternates)]
      ensures ok ==> ChainComplete(c, dirs, id)
    {
      ok := c.packs[id].cid in c.fetchable;
      if ok {
        dirs := dirs[id := dirs[id].(packs := dirs[id].packs + {c.packs[id].name})];
        if c.repos[id].fork { CompleteGrows(c, old(dirs), dirs, c.repos[id].parent); }
        CompleteStep(c, dirs, id);
        StillClosed(c, old(dirs), dirs, id);
        OnlySelf(c, old(dirs), dirs, id);
      }
    }

    /** Download the parent unless its packfile is cached. */
    method CacheParent(c: Chain, id: Id) returns (r: Result<()>)
      requires ValidChain(c) && Closed(c, dirs) && id in c.repos && c.repos[id].fork
      modifies this
      ensures Closed(c, dirs) && Grown(old(dirs), dirs) && OnlyChain(c, old(dirs), dirs, id)
      ensures r.Ok? ==> HasParent(c, id) && ChainComplete(c, dirs, c.repos[id].parent)
      ensures Obtainable(c, id) ==> r.Ok?
      decreases Depth(c, id), 0
    {
      var parent := c.repos[id].parent;
      if Obtainable(c, id) { ParentObtainable(c, id); }
      var parentCached := PackfileCached(c, dirs, parent);
      if parentCached.Err? { return Err("error checking if parent repo is cached"); }
      if parentCached.value {
        if Empty(c, parent) { EmptyNeedsNothing(c, dirs, parent); }
        return Ok(());
      }
      if parent !in c.repos { return Err("error downloading parent repo"); }
      ParentIsShallower(c, id);
      r := DownloadRepositoryPackfile(c, parent);
      OnlyParents(c, old(dirs), dirs, id);
    }

    /** The recursion over parents.  It ends because the fork relation is acyclic;
        success leaves the ancestor chain downloaded and linked, and the
        cache stays closed even if it fails half way. */
    method DownloadRepositoryPackfile(c: Chain, id: Id) returns (r: Result<()>)
      requires ValidChain(c) && Closed(c, dirs)
      modifies this
      ensures Closed(c, dirs) && Grown(old(dirs), dirs)
      ensures r.Ok? ==> ChainComplete(c, dirs, id)
      ensures Obtainable(c, id) ==> r.Ok?
      ensures OnlyChain(c, old(dirs), dirs, id)
      decreases Depth(c, id), 1
    {
      if id !in c.repos { return Err("repository not found"); }
      InitRepository(c, id);
      assert Up(c, id, 0) == Some(id);
      if c.repos[id].fork {
        r := CacheParent(c, id);
        if r.Err? { return; }
        LinkParent(c, id);
      }
      if id in c.unavailable { return Err("failed to get cid from chain"); }
      if id in c.packs {
        var ok := DownloadPackfile(c, id);
        r := if ok then Ok(()) else Err("error downloading packfile");
      } else {
        CompleteStep(c, dirs, id);
        r := Ok(());
      }
    }

    /** The packfile half of CacheRepository. */
    method CachePackfile(c: Chain, id: Id) returns (r: Result<()>)
      requires ValidChain(c) && Closed(c, dirs)
      modifies this
      ensures Closed(c, dirs) && Grown(old(dirs), dirs) && OnlyChain(c, old(dirs), dirs, id)
      ensures r.Ok? ==> ChainComplete(c, dirs, id)
      ensures Obtainable(c, id) ==> r.Ok?
      ensures (Present(c, old(dirs), id) || Empty(c, id)) && id !in c.unavailable ==> r.Ok? && dirs == old(dirs)
    {
      if Obtainable(c, id) { assert Up(c, id, 0) == Some(id); }
      var cached := PackfileCached(c, dirs, id);
      if cached.Err? { return Err("error checking if repo is cached"); }
      if !cached.value {
        r := DownloadRepositoryPackfile(c, id);
      } else {
        if Empty(c, id) { EmptyNeedsNothing(c, dirs, id); }
        r := Ok(());
      }
    }
  }
}
