/** The event handlers that keep external storage in step with the chain's
    reference counts (handler/packfileUpdated.go, releaseAssetsUpdated.go,
    lfsObjectUpdated.go, repositoryDeleted.go).

    The chain is the multiset of references it holds, one element per reference
    to a content id.  All storage providers together are one set of pinned names. */
module Pins {
  type Cid = string
  type Name = string

  datatype Packfile = Packfile(newCid: Cid, newName: string, oldCid: Cid, oldName: string, deleted: bool)

  datatype AssetUpdate = AssetUpdate(cid: Cid, oldCid: Cid, sha: string, oldSha: string, delete: bool)

  datatype Lfs = Lfs(oid: string, cid: Cid, deleted: bool)

  datatype Asset = Asset(cid: Cid, sha: string)

  datatype Deleted = Deleted(packCid: Cid, packName: string, assets: seq<Asset>, objects: seq<Lfs>)

  /** The chain as queried, and what fails. */
  datatype Env = Env(
    chain: multiset<Cid>,
    providers: bool,
    broken: set<Cid>,        // reference count query fails
    cacheFails: bool,        // the repository cannot be cached
    cannotPin: set<Name>,
    cannotUnpin: set<Name>)

  function PackName(n: string): Name { "packfiles/" + n }

  function AssetName(sha: string): Name { "release-assets/" + sha }

  function LfsName(oid: string): Name { "lfs-objects/" + oid }

  /** Pin on the first reference. */
  function PinFirst(env: Env, pinned: set<Name>, cid: Cid, n: Name): set<Name> {
    if env.chain[cid] == 1 && n !in env.cannotPin then pinned + {n} else pinned
  }

  /** Unpin when no reference is left. */
  function UnpinLast(env: Env, pinned: set<Name>, cid: Cid, n: Name): set<Name> {
    if env.chain[cid] == 0 && n !in env.cannotUnpin then pinned - {n} else pinned
  }

  /** New state and whether the handler returned without error. */
  datatype Outcome = Outcome(pinned: set<Name>, ok: bool)

  function PackfilePinned(env: Env, e: Packfile, pinned: set<Name>): Outcome {
    if e.newCid != "" && !e.deleted && env.providers then
      if e.newCid in env.broken then Outcome(pinned, false)
      else if env.chain[e.newCid] == 1 && env.cacheFails then Outcome(pinned, false)
      else Outcome(PinFirst(env, pinned, e.newCid, PackName(e.newName)), true)
    else Outcome(pinned, true)
  }

  function OldPackfileUnpinned(env: Env, e: Packfile, pinned: set<Name>): Outcome {
    if e.oldCid != "" && e.oldCid != e.newCid then
      if e.oldCid in env.broken then Outcome(pinned, false)
      else Outcome(if env.providers then UnpinLast(env, pinned, e.oldCid, PackName(e.oldName)) else pinned, true)
    else Outcome(pinned, true)
  }

  function DeletedPackfileUnpinned(env: Env, e: Packfile, pinned: set<Name>): Outcome {
    if e.deleted then
      if e.newCid in env.broken then Outcome(pinned, false)
      else Outcome(if env.providers then UnpinLast(env, pinned, e.newCid, PackName(e.newName)) else pinned, true)
    else Outcome(pinned, true)
  }

  function AfterPackfile(env: Env, e: Packfile, pinned: set<Name>): Outcome {
    var a := PackfilePinned(env, e, pinned);
    if !a.ok then a
    else
      var b := OldPackfileUnpinned(env, e, a.pinned);
      if !b.ok then b else DeletedPackfileUnpinned(env, e, b.pinned)
  }

  /** One asset; an error of the count of a new asset ends the whole event, other
      failures only skip the rest of this asset. */
  function AfterAsset(env: Env, u: AssetUpdate, pinned: set<Name>): Outcome {
    if u.delete then
      if u.oldCid in env.broken || !env.providers then Outcome(pinned, true)
      else Outcome(UnpinLast(env, pinned, u.oldCid, AssetName(u.oldSha)), true)
    else if !env.providers then Outcome(pinned, true)
    else if u.cid != "" && u.cid in env.broken then Outcome(pinned, false)
    else
      var p := if u.cid != "" then PinFirst(env, pinned, u.cid, AssetName(u.sha)) else pinned;
      if u.oldCid != "" && u.oldCid != u.cid && u.oldCid !in env.broken then
        Outcome(UnpinLast(env, p, u.oldCid, AssetName(u.oldSha)), true)
      else Outcome(p, true)
  }

  function AfterAssets(env: Env, us: seq<AssetUpdate>, pinned: set<Name>): Outcome {
    if us == [] then Outcome(pinned, true)
    else
      var a := AfterAsset(env, us[0], pinned);
      if a.ok then AfterAssets(env, us[1..], a.pinned) else a
  }

  function AfterLfs(env: Env, e: Lfs, pinned: set<Name>): Outcome {
    if e.deleted then
      if e.oid == "" || !env.providers then Outcome(pinned, true)
      else if e.cid in env.broken then Outcome(pinned, false)
      else Outcome(UnpinLast(env, pinned, e.cid, LfsName(e.oid)), true)
    else
      if e.cid == "" || !env.providers then Outcome(pinned, true)
      else if e.cid in env.broken then Outcome(pinned, false)
      else Outcome(PinFirst(env, pinned, e.cid, LfsName(e.oid)), true)
  }

  /** Unpin a list of contents, stopping at the first failing query. */
  function AfterUnpins(env: Env, items: seq<(Cid, Name)>, pinned: set<Name>): Outcome {
    if items == [] then Outcome(pinned, true)
    else if items[0].0 in env.broken then Outcome(pinned, false)
    else AfterUnpins(env, items[1..], UnpinLast(env, pinned, items[0].0, items[0].1))
  }

  function AssetContents(assets: seq<Asset>): seq<(Cid, Name)> {
    if assets == [] then [] else [(assets[0].cid, AssetName(assets[0].sha))] + AssetContents(assets[1..])
  }

  function LfsContents(objects: seq<Lfs>): seq<(Cid, Name)> {
    if objects == [] then [] else [(objects[0].cid, LfsName(objects[0].oid))] + LfsContents(objects[1..])
  }

  function Contents(e: Deleted): seq<(Cid, Name)> {
    (if e.packCid != "" then [(e.packCid, PackName(e.packName))] else [])
    + (AssetContents(e.assets) + LfsContents(e.objects))
  }

  function AfterDeleted(env: Env, e: Deleted, pinned: set<Name>): Outcome {
    if env.providers then AfterUnpins(env, Contents(e), pinned) else Outcome(pinned, true)
  }

  class Handlers {
    var pinned: set<Name>

    constructor ()
      ensures pinned == {}
    {
      pinned := {};
    }

    method PinFile(env: Env, n: Name)
      modifies this
      ensures pinned == if n in env.cannotPin then old(pinned) else old(pinned) + {n}
    {
      if n !in env.cannotPin { pinned := pinned + {n}; }
    }

    method UnpinFile(env: Env, n: Name)
      modifies this
      ensures pinned == if n in env.cannotUnpin then old(pinned) else old(pinned) - {n}
    {
      if n !in env.cannotUnpin { pinned := pinned - {n}; }
    }

    method ProcessPackfileUpdated(env: Env, e: Packfile) returns (ok: bool)
      modifies this
      ensures Outcome(pinned, ok) == AfterPackfile(env, e, old(pinned))
    {
      if e.newCid != "" && !e.deleted && env.providers {
        if e.newCid in env.broken { return false; }
        if env.chain[e.newCid] == 1 {
          if env.cacheFails { return false; }
          PinFile(env, PackName(e.newName));
        }
      }
      if e.oldCid != "" && e.oldCid != e.newCid {
        if e.oldCid in env.broken { return false; }
        if env.chain[e.oldCid] == 0 && env.providers { UnpinFile(env, PackName(e.oldName)); }
      }
      if e.deleted {
        if e.newCid in env.broken { return false; }
        if env.chain[e.newCid] == 0 && env.providers { UnpinFile(env, PackName(e.newName)); }
      }
      ok := true;
    }

    method ProcessReleaseAssetsUpdated(env: Env, us: seq<AssetUpdate>) returns (ok: bool)
      modifies this
      ensures Outcome(pinned, ok) == AfterAssets(env, us, old(pinned))
    {
      for i := 0 to |us|
        invariant AfterAssets(env, us, old(pinned)) == AfterAssets(env, us[i..], pinned)
      {
        var u := us[i];
        assert us[i..][0] == u && us[i..][1..] == us[i + 1..];
        if u.delete {
          if u.oldCid in env.broken { continue; }
          if env.chain[u.oldCid] == 0 && env.providers { UnpinFile(env, AssetName(u.oldSha)); }
        } else {
          if u.cid != "" && env.providers {
            if u.cid in env.broken { return false; }
            if env.chain[u.cid] == 1 { PinFile(env, AssetName(u.sha)); }
          }
          if u.oldCid != "" && u.oldCid != u.cid && env.providers {
            if u.oldCid in env.broken { continue; }
            if env.chain[u.oldCid] == 0 { UnpinFile(env, AssetName(u.oldSha)); }
          }
        }
      }
      ok := true;
    }

    method ProcessLfsObjectUpdated(env: Env, e: Lfs) returns (ok: bool)
      modifies this
      ensures Outcome(pinned, ok) == AfterLfs(env, e, old(pinned))
    {
      if e.deleted {
        if e.oid != "" && env.providers {
          if e.cid in env.broken { return false; }
          if env.chain[e.cid] == 0 { UnpinFile(env, LfsName(e.oid)); }
        }
      } else if e.cid != "" && env.providers {
        if e.cid in env.broken { return false; }
        if env.chain[e.cid] == 1 { PinFile(env, LfsName(e.oid)); }
      }
      ok := true;
    }

    method ProcessRepositoryDeleted(env: Env, e: Deleted) returns (ok: bool)
      modifies this
      ensures Outcome(pinned, ok) == AfterDeleted(env, e, old(pinned))
    {
      DeletedParts(env, e, pinned);
      if e.packCid != "" && env.providers {
        if e.packCid in env.broken { return false; }
        if env.chain[e.packCid] == 0 { UnpinFile(env, PackName(e.packName)); }
      }
      if env.providers {
        assert e.assets[0..] == e.assets;
        for i := 0 to |e.assets|
          invariant AfterDeleted(env, e, old(pinned)) == AfterUnpins(env, AssetContents(e.assets[i..]) + LfsContents(e.objects), pinned)
        {
          assert e.assets[i..][0] == e.assets[i] && e.assets[i..][1..] == e.assets[i + 1..];
          UnpinsCons(env, e.assets[i].cid, AssetName(e.assets[i].sha), AssetContents(e.assets[i + 1..]), LfsContents(e.objects), pinned);
          if e.assets[i].cid in env.broken { return false; }
          if env.chain[e.assets[i].cid] == 0 { UnpinFile(env, AssetName(e.assets[i].sha)); }
        }
        assert AssetContents(e.assets[|e.assets|..]) + LfsContents(e.objects) == LfsContents(e.objects);
        assert e.objects[0..] == e.objects;
        for i := 0 to |e.objects|
          invariant AfterDeleted(env, e, old(pinned)) == AfterUnpins(env, LfsContents(e.objects[i..]), pinned)
        {
          assert e.objects[i..][0] == e.objects[i] && e.objects[i..][1..] == e.objects[i + 1..];
          UnpinsCons(env, e.objects[i].cid, LfsName(e.objects[i].oid), [], LfsContents(e.objects[i + 1..]), pinned);
          if e.objects[i].cid in env.broken { return false; }
          if env.chain[e.objects[i].cid] == 0 { UnpinFile(env, LfsName(e.objects[i].oid)); }
        }
      }
      ok := true;
    }
  }

  lemma DeletedParts(env: Env, e: Deleted, pinned: set<Name>)
    ensures AfterDeleted(env, e, pinned) ==
      var rest := AssetContents(e.assets) + LfsContents(e.objects);
      if !env.providers then Outcome(pinned, true)
      else if e.packCid == "" then AfterUnpins(env, rest, pinned)
      else if e.packCid in env.broken then Outcome(pinned, false)
      else AfterUnpins(env, rest, UnpinLast(env, pinned, e.packCid, PackName(e.packName)))
  {
    var rest := AssetContents(e.assets) + LfsContents(e.objects);
    if e.packCid == "" {
      assert Contents(e) == rest;
    } else {
      assert Contents(e)[1..] == rest;
    }
  }

  lemma UnpinsCons(env: Env, c: Cid, n: Name, a: seq<(Cid, Name)>, b: seq<(Cid, Name)>, pinned: set<Name>)
    ensures AfterUnpins(env, ([(c, n)] + a) + b, pinned)
         == if c in env.broken then Outcome(pinned, false) else AfterUnpins(env, a + b, UnpinLast(env, pinned, c, n))
  {
    assert (([(c, n)] + a) + b)[1..] == a + b;
  }

  // ----- chain and names -----------------------------------------------

  type Naming = Cid -> Name

  /** External names and content ids correspond one to one. */
  ghost predicate OneToOne(nameOf: Naming) {
    forall c, d :: nameOf(c) == nameOf(d) ==> c == d
  }

  /** The names of everything the chain still references. */
  ghost function Referenced(chain: multiset<Cid>, nameOf: Naming): set<Name> {
    set c | c in chain :: nameOf(c)
  }

  /** References an event adds and removes. */
  datatype Delta = Delta(adds: multiset<Cid>, removes: multiset<Cid>)

  function One(c: Cid): multiset<Cid> {
    if c == "" then multiset{} else multiset{c}
  }

  function PackfileDelta(e: Packfile): Delta {
    if e.deleted then Delta(multiset{}, One(e.newCid) + if e.oldCid != e.newCid then One(e.oldCid) else multiset{})
    else Delta(One(e.newCid), One(e.oldCid))
  }

  function AssetDelta(u: AssetUpdate): Delta {
    Delta(if u.delete then multiset{} else One(u.cid), One(u.oldCid))
  }

  function AssetsDelta(us: seq<AssetUpdate>): Delta {
    if us == [] then Delta(multiset{}, multiset{})
    else
      var rest := AssetsDelta(us[1..]);
      Delta(AssetDelta(us[0]).adds + rest.adds, AssetDelta(us[0]).removes + rest.removes)
  }

  function LfsDelta(e: Lfs): Delta {
    if e.deleted then Delta(multiset{}, One(e.cid)) else Delta(One(e.cid), multiset{})
  }

  function ContentsDelta(items: seq<(Cid, Name)>): Delta {
    if items == [] then Delta(multiset{}, multiset{})
    else Delta(multiset{}, multiset{items[0].0} + ContentsDelta(items[1..]).removes)
  }

  function AssetCids(assets: seq<Asset>): multiset<Cid> {
    if assets == [] then multiset{} else multiset{assets[0].cid} + AssetCids(assets[1..])
  }

  function LfsCids(objects: seq<Lfs>): multiset<Cid> {
    if objects == [] then multiset{} else multiset{objects[0].cid} + LfsCids(objects[1..])
  }

  datatype Event =
    | PackfileUpdated(packfile: Packfile)
    | ReleaseAssetsUpdated(updates: seq<AssetUpdate>)
    | LfsObjectUpdated(lfs: Lfs)
    | RepositoryDeleted(repo: Deleted)

  function EventDelta(e: Event): Delta {
    match e
    case PackfileUpdated(p) => PackfileDelta(p)
    case ReleaseAssetsUpdated(us) => AssetsDelta(us)
    case LfsObjectUpdated(l) => LfsDelta(l)
    case RepositoryDeleted(d) =>
      Delta(multiset{}, One(d.packCid) + (AssetCids(d.assets) + LfsCids(d.objects)))
  }

  /** The event's own names are those of its content ids, and ids are not empty
      where the chain says something was there. */
  ghost predicate GoodUpdate(u: AssetUpdate, nameOf: Naming) {
    && (u.delete ==> u.oldCid != "")
    && (u.cid != "" && !u.delete ==> nameOf(u.cid) == "release-assets/" + u.sha)
    && (u.oldCid != "" ==> nameOf(u.oldCid) == "release-assets/" + u.oldSha)
  }

  ghost predicate GoodEvent(e: Event, nameOf: Naming) {
    match e
    case PackfileUpdated(p) =>
      && (p.deleted ==> p.newCid != "")
      && (p.newCid != "" ==> nameOf(p.newCid) == "packfiles/" + p.newName)
      && (p.oldCid != "" ==> nameOf(p.oldCid) == "packfiles/" + p.oldName)
    case ReleaseAssetsUpdated(us) => forall u | u in us :: GoodUpdate(u, nameOf)
    case LfsObjectUpdated(l) => l.cid != "" && l.oid != "" && nameOf(l.cid) == "lfs-objects/" + l.oid
    case RepositoryDeleted(d) =>
      && (d.packCid != "" ==> nameOf(d.packCid) == "packfiles/" + d.packName)
      && (forall a | a in d.assets :: a.cid != "" && nameOf(a.cid) == "release-assets/" + a.sha)
      && (forall o | o in d.objects :: o.cid != "" && nameOf(o.cid) == "lfs-objects/" + o.oid)
  }

  /** The handler sees the chain right after the event. */
  ghost predicate Moves(before: multiset<Cid>, e: Event, after: multiset<Cid>) {
    var d := EventDelta(e);
    d.removes <= before + d.adds && after == before + d.adds - d.removes
  }

  function After(env: Env, e: Event, pinned: set<Name>): Outcome {
    match e
    case PackfileUpdated(p) => AfterPackfile(env, p, pinned)
    case ReleaseAssetsUpdated(us) => AfterAssets(env, us, pinned)
    case LfsObjectUpdated(l) => AfterLfs(env, l, pinned)
    case RepositoryDeleted(d) => AfterDeleted(env, d, pinned)
  }

  predicate NothingFails(env: Env) {
    env.providers && env.broken == {} && !env.cacheFails && env.cannotPin == {} && env.cannotUnpin == {}
  }

  /** What a handler did, name by name: it pins only contents with one reference,
      unpins only contents with none, and misses none that the event added or
      used up. */
  ghost predicate Reconciled(env: Env, nameOf: Naming, d: Delta, pinned: set<Name>, pinned': set<Name>) {
    && (forall n | n !in pinned && n in pinned' :: exists c :: n == nameOf(c) && env.chain[c] == 1)
    && (forall n | n in pinned && n !in pinned' :: exists c :: n == nameOf(c) && env.chain[c] == 0)
    && (forall c | d.adds[c] > 0 && env.chain[c] == 1 :: nameOf(c) in pinned')
    && (forall c | d.removes[c] > d.adds[c] && env.chain[c] == 0 :: nameOf(c) !in pinned')
  }

  /** The external set stays equal to the referenced contents exactly when no
      content goes from no reference to two or more in one event. */
  ghost predicate NoJump(before: multiset<Cid>, after: multiset<Cid>) {
    forall c | before[c] == 0 :: after[c] <= 1
  }

  lemma ReconciledAgreesIff(env: Env, nameOf: Naming, before: multiset<Cid>, d: Delta, pinned: set<Name>, pinned': set<Name>)
    requires OneToOne(nameOf) && pinned == Referenced(before, nameOf)
    requires d.removes <= before + d.adds && env.chain == before + d.adds - d.removes
    requires Reconciled(env, nameOf, d, pinned, pinned')
    ensures pinned' == Referenced(env.chain, nameOf) <==> NoJump(before, env.chain)
  {
    if pinned' == Referenced(env.chain, nameOf) {
      forall c | before[c] == 0 ensures env.chain[c] <= 1 {
        assert nameOf(c) !in pinned;
        if env.chain[c] > 0 {
          assert nameOf(c) in pinned';
        }
      }
    }
    if NoJump(before, env.chain) {
      forall n ensures n in pinned' <==> n in Referenced(env.chain, nameOf) {
        NameAgrees(env, nameOf, before, d, pinned, pinned', n);
      }
    }
  }

  lemma NameAgrees(env: Env, nameOf: Naming, before: multiset<Cid>, d: Delta, pinned: set<Name>, pinned': set<Name>, n: Name)
    requires OneToOne(nameOf) && pinned == Referenced(before, nameOf)
    requires d.removes <= before + d.adds && env.chain == before + d.adds - d.removes
    requires Reconciled(env, nameOf, d, pinned, pinned') && NoJump(before, env.chain)
    ensures n in pinned' <==> n in Referenced(env.chain, nameOf)
  {
    if n in pinned' {
      if n in pinned {
        var c :| c in before && nameOf(c) == n;
        assert env.chain[c] == 0 ==> d.removes[c] > d.adds[c];
      }
    }
    if c :| c in env.chain && nameOf(c) == n {
      if before[c] == 0 { assert d.adds[c] > 0; } else { assert n in pinned; }
    }
  }

  // ----- what each handler does ----------------------------------------

  /** Names change one at a time, each by the count of its own content id. */
  ghost predicate Step(env: Env, nameOf: Naming, pinned: set<Name>, pinned': set<Name>) {
    && (forall n | n !in pinned && n in pinned' :: exists c :: n == nameOf(c) && env.chain[c] == 1)
    && (forall n | n in pinned && n !in pinned' :: exists c :: n == nameOf(c) && env.chain[c] == 0)
  }

  lemma StepTrans(env: Env, nameOf: Naming, a: set<Name>, b: set<Name>, c: set<Name>)
    requires Step(env, nameOf, a, b) && Step(env, nameOf, b, c)
    ensures Step(env, nameOf, a, c)
  {
  }

  /** A name settled by a count of one is not unpinned later, and conversely. */
  lemma StepKeeps(env: Env, nameOf: Naming, a: set<Name>, b: set<Name>, c: Cid)
    requires OneToOne(nameOf) && Step(env, nameOf, a, b)
    ensures env.chain[c] == 1 && nameOf(c) in a ==> nameOf(c) in b
    ensures env.chain[c] == 0 && nameOf(c) !in a ==> nameOf(c) !in b
  {
  }

  lemma AssetStep(env: Env, nameOf: Naming, u: AssetUpdate, pinned: set<Name>)
    requires NothingFails(env) && OneToOne(nameOf) && GoodUpdate(u, nameOf)
    ensures var r := AfterAsset(env, u, pinned);
      r.ok && Reconciled(env, nameOf, AssetDelta(u), pinned, r.pinned)
  {
  }

  lemma {:induction false} AssetsReconciled(env: Env, nameOf: Naming, us: seq<AssetUpdate>, pinned: set<Name>)
    requires NothingFails(env) && OneToOne(nameOf) && forall u | u in us :: GoodUpdate(u, nameOf)
    ensures var r := AfterAssets(env, us, pinned);
      r.ok && Reconciled(env, nameOf, AssetsDelta(us), pinned, r.pinned)
  {
    if us != [] {
      var mid := AfterAsset(env, us[0], pinned).pinned;
      AssetStep(env, nameOf, us[0], pinned);
      AssetsReconciled(env, nameOf, us[1..], mid);
      ReconciledTrans(env, nameOf, AssetDelta(us[0]), AssetsDelta(us[1..]), pinned, mid, AfterAssets(env, us, pinned).pinned);
    }
  }

  lemma ReconciledTrans(env: Env, nameOf: Naming, d: Delta, e: Delta, a: set<Name>, b: set<Name>, c: set<Name>)
    requires OneToOne(nameOf) && Reconciled(env, nameOf, d, a, b) && Reconciled(env, nameOf, e, b, c)
    ensures Reconciled(env, nameOf, Delta(d.adds + e.adds, d.removes + e.removes), a, c)
  {
    StepTrans(env, nameOf, a, b, c);
    forall x | d.adds[x] + e.adds[x] > 0 && env.chain[x] == 1 ensures nameOf(x) in c {
      StepKeeps(env, nameOf, b, c, x);
    }
    forall x | d.removes[x] + e.removes[x] > d.adds[x] + e.adds[x] && env.chain[x] == 0 ensures nameOf(x) !in c {
      StepKeeps(env, nameOf, b, c, x);
    }
  }

  lemma {:induction false} ContentsReconciled(env: Env, nameOf: Naming, items: seq<(Cid, Name)>, pinned: set<Name>)
    requires NothingFails(env) && OneToOne(nameOf) && forall x | x in items :: nameOf(x.0) == x.1
    ensures var r := AfterUnpins(env, items, pinned);
      r.ok && Reconciled(env, nameOf, ContentsDelta(items), pinned, r.pinned)
  {
    if items != [] {
      var mid := UnpinLast(env, pinned, items[0].0, items[0].1);
      assert items[0] in items;
      var d := Delta(multiset{}, multiset{items[0].0});
      assert Reconciled(env, nameOf, d, pinned, mid);
      ContentsReconciled(env, nameOf, items[1..], mid);
      var e := ContentsDelta(items[1..]);
      ContentsOnlyRemoved(items[1..]);
      ReconciledTrans(env, nameOf, d, e, pinned, mid, AfterUnpins(env, items, pinned).pinned);
      assert d.adds + e.adds == multiset{};
    }
  }

  lemma {:induction false} ContentsOnlyRemoved(items: seq<(Cid, Name)>)
    ensures ContentsDelta(items).adds == multiset{}
  {
  }

  lemma {:induction false} AssetContentsOf(assets: seq<Asset>)
    ensures forall x :: x in AssetContents(assets) <==> exists a :: a in assets && x == (a.cid, "release-assets/" + a.sha)
    ensures ContentsDelta(AssetContents(assets)).removes == AssetCids(assets)
  {
    if assets != [] {
      var rest := assets[1..];
      AssetContentsOf(rest);
      assert AssetContents(assets)[1..] == AssetContents(rest);
      assert assets == [assets[0]] + rest;
    }
  }

  lemma {:induction false} LfsContentsOf(objects: seq<Lfs>)
    ensures forall x :: x in LfsContents(objects) <==> exists o :: o in objects && x == (o.cid, "lfs-objects/" + o.oid)
    ensures ContentsDelta(LfsContents(objects)).removes == LfsCids(objects)
  {
    if objects != [] {
      var rest := objects[1..];
      LfsContentsOf(rest);
      assert LfsContents(objects)[1..] == LfsContents(rest);
      assert objects == [objects[0]] + rest;
    }
  }

  lemma {:induction false} DeltaConcat(a: seq<(Cid, Name)>, b: seq<(Cid, Name)>)
    ensures ContentsDelta(a + b).removes == ContentsDelta(a).removes + ContentsDelta(b).removes
  {
    if a == [] {
      assert a + b == b;
    } else {
      assert (a + b)[1..] == a[1..] + b;
      DeltaConcat(a[1..], b);
    }
  }

  lemma ContentsNamed(d: Deleted, nameOf: Naming)
    requires GoodEvent(RepositoryDeleted(d), nameOf)
    ensures forall x | x in Contents(d) :: nameOf(x.0) == x.1
  {
    AssetContentsOf(d.assets);
    LfsContentsOf(d.objects);
  }

  /** The handler goes through all references of the repository. */
  lemma ContentsCounted(d: Deleted)
    ensures ContentsDelta(Contents(d)) == EventDelta(RepositoryDeleted(d))
  {
    var rest := AssetContents(d.assets) + LfsContents(d.objects);
    AssetContentsOf(d.assets);
    LfsContentsOf(d.objects);
    DeltaConcat(AssetContents(d.assets), LfsContents(d.objects));
    ContentsOnlyRemoved(Contents(d));
    PackFirst(d, rest);
  }

  lemma PackFirst(d: Deleted, rest: seq<(Cid, Name)>)
    requires rest == AssetContents(d.assets) + LfsContents(d.objects)
    ensures ContentsDelta(Contents(d)).removes == One(d.packCid) + ContentsDelta(rest).removes
  {
    if d.packCid != "" {
      assert Contents(d)[1..] == rest;
    } else {
      assert Contents(d) == rest;
    }
  }

  lemma {:induction false} UnpinsConcat(env: Env, a: seq<(Cid, Name)>, b: seq<(Cid, Name)>, pinned: set<Name>)
    requires NothingFails(env)
    ensures AfterUnpins(env, a, pinned).ok
    ensures AfterUnpins(env, a + b, pinned) == AfterUnpins(env, b, AfterUnpins(env, a, pinned).pinned)
  {
    if a == [] {
      assert a + b == b;
    } else {
      assert (a + b)[1..] == a[1..] + b;
      UnpinsConcat(env, a[1..], b, UnpinLast(env, pinned, a[0].0, a[0].1));
    }
  }

  ghost predicate AssetGone(env: Env, assets: seq<Asset>, n: Name) {
    exists a :: a in assets && env.chain[a.cid] == 0 && n == "release-assets/" + a.sha
  }

  ghost predicate LfsGone(env: Env, objects: seq<Lfs>, n: Name) {
    exists o :: o in objects && env.chain[o.cid] == 0 && n == "lfs-objects/" + o.oid
  }

  lemma {:induction false} AssetsUnpinned(env: Env, assets: seq<Asset>, pinned: set<Name>, n: Name)
    requires NothingFails(env)
    ensures n in AfterUnpins(env, AssetContents(assets), pinned).pinned <==> n in pinned && !AssetGone(env, assets, n)
  {
    if assets != [] {
      var a, rest := assets[0], assets[1..];
      AssetsUnpinned(env, rest, UnpinLast(env, pinned, a.cid, AssetName(a.sha)), n);
      assert AssetContents(assets)[1..] == AssetContents(rest);
      assert assets == [a] + rest;
    }
  }

  lemma {:induction false} LfsUnpinned(env: Env, objects: seq<Lfs>, pinned: set<Name>, n: Name)
    requires NothingFails(env)
    ensures AfterUnpins(env, LfsContents(objects), pinned).ok
    ensures n in AfterUnpins(env, LfsContents(objects), pinned).pinned <==> n in pinned && !LfsGone(env, objects, n)
  {
    if objects != [] {
      var o, rest := objects[0], objects[1..];
      LfsUnpinned(env, rest, UnpinLast(env, pinned, o.cid, LfsName(o.oid)), n);
      assert LfsContents(objects)[1..] == LfsContents(rest);
      assert objects == [o] + rest;
    }
  }

  /** Deleting a repository, with nothing failing, unpins exactly its packfile, its assets
      and its LFS objects that have no reference left. */
  lemma DeletedUnpins(env: Env, d: Deleted, pinned: set<Name>, n: Name)
    requires NothingFails(env)
    ensures AfterDeleted(env, d, pinned).ok
    ensures n in AfterDeleted(env, d, pinned).pinned <==>
      && n in pinned
      && !(d.packCid != "" && env.chain[d.packCid] == 0 && n == "packfiles/" + d.packName)
      && !AssetGone(env, d.assets, n)
      && !LfsGone(env, d.objects, n)
  {
    var first := if d.packCid == "" then pinned else UnpinLast(env, pinned, d.packCid, PackName(d.packName));
    DeletedParts(env, d, pinned);
    UnpinsConcat(env, AssetContents(d.assets), LfsContents(d.objects), first);
    AssetsUnpinned(env, d.assets, first, n);
    LfsUnpinned(env, d.objects, AfterUnpins(env, AssetContents(d.assets), first).pinned, n);
  }

  lemma EventReconciled(env: Env, nameOf: Naming, e: Event, pinned: set<Name>)
    requires NothingFails(env) && OneToOne(nameOf) && GoodEvent(e, nameOf)
    ensures var r := After(env, e, pinned);
      r.ok && Reconciled(env, nameOf, EventDelta(e), pinned, r.pinned)
  {
    match e
    case PackfileUpdated(p) => PackfileReconciled(env, nameOf, p, pinned);
    case ReleaseAssetsUpdated(us) => AssetsReconciled(env, nameOf, us, pinned);
    case LfsObjectUpdated(l) =>
    case RepositoryDeleted(d) =>
      ContentsNamed(d, nameOf);
      ContentsCounted(d);
      ContentsReconciled(env, nameOf, Contents(d), pinned);
  }

  lemma LivePackfileReconciled(env: Env, nameOf: Naming, p: Packfile, pinned: set<Name>)
    requires NothingFails(env) && OneToOne(nameOf) && GoodEvent(PackfileUpdated(p), nameOf) && !p.deleted
    ensures AfterPackfile(env, p, pinned).ok
    ensures Reconciled(env, nameOf, PackfileDelta(p), pinned, AfterPackfile(env, p, pinned).pinned)
  {
    var first := PackfilePinned(env, p, pinned);
    assert AfterPackfile(env, p, pinned) == OldPackfileUnpinned(env, p, first.pinned);
  }

  lemma DeletedPackfileReconciled(env: Env, nameOf: Naming, p: Packfile, pinned: set<Name>)
    requires NothingFails(env) && OneToOne(nameOf) && GoodEvent(PackfileUpdated(p), nameOf) && p.deleted
    ensures AfterPackfile(env, p, pinned).ok
    ensures Reconciled(env, nameOf, PackfileDelta(p), pinned, AfterPackfile(env, p, pinned).pinned)
  {
    var first := OldPackfileUnpinned(env, p, pinned);
    assert AfterPackfile(env, p, pinned) == DeletedPackfileUnpinned(env, p, first.pinned);
  }

  lemma PackfileReconciled(env: Env, nameOf: Naming, p: Packfile, pinned: set<Name>)
    requires NothingFails(env) && OneToOne(nameOf) && GoodEvent(PackfileUpdated(p), nameOf)
    ensures AfterPackfile(env, p, pinned).ok
    ensures Reconciled(env, nameOf, PackfileDelta(p), pinned, AfterPackfile(env, p, pinned).pinned)
  {
    if p.deleted {
      DeletedPackfileReconciled(env, nameOf, p, pinned);
    } else {
      LivePackfileReconciled(env, nameOf, p, pinned);
    }
  }

  // ----- main results --------------------------------------------------

  /** One event, handled without failures: the pinned names are again exactly those
      of the referenced contents if and only if no content jumped from zero
      references to two or more. */
  lemma EventAgreesIff(env: Env, nameOf: Naming, before: multiset<Cid>, e: Event)
    requires NothingFails(env) && OneToOne(nameOf) && GoodEvent(e, nameOf) && Moves(before, e, env.chain)
    ensures After(env, e, Referenced(before, nameOf)).ok
    ensures After(env, e, Referenced(before, nameOf)).pinned == Referenced(env.chain, nameOf) <==> NoJump(before, env.chain)
  {
    var pinned := Referenced(before, nameOf);
    EventReconciled(env, nameOf, e, pinned);
    ReconciledAgreesIff(env, nameOf, before, EventDelta(e), pinned, After(env, e, pinned).pinned);
  }

  /** A run: the chain before the i-th event, and the external set the handlers left. */
  ghost predicate RunAt(nameOf: Naming, envs: seq<Env>, events: seq<Event>, sets: seq<set<Name>>, i: int)
    requires |envs| == |sets| == |events| + 1
  {
    0 <= i < |events| ==>
      && NothingFails(envs[i + 1]) && GoodEvent(events[i], nameOf)
      && Moves(envs[i].chain, events[i], envs[i + 1].chain)
      && NoJump(envs[i].chain, envs[i + 1].chain)
      && sets[i + 1] == After(envs[i + 1], events[i], sets[i]).pinned
  }

  lemma NothingReferenced(nameOf: Naming)
    ensures Referenced(multiset{}, nameOf) == {}
  {
  }

  lemma RunStepAgrees(nameOf: Naming, envs: seq<Env>, events: seq<Event>, sets: seq<set<Name>>, j: nat)
    requires OneToOne(nameOf) && |envs| == |sets| == |events| + 1 && j < |events|
    requires RunAt(nameOf, envs, events, sets, j) && sets[j] == Referenced(envs[j].chain, nameOf)
    ensures sets[j + 1] == Referenced(envs[j + 1].chain, nameOf)
  {
    EventAgreesIff(envs[j + 1], nameOf, envs[j].chain, events[j]);
  }

  /** Over any run from an empty chain and empty storage the two agree after every event. */
  lemma {:induction false} RunAgrees(nameOf: Naming, envs: seq<Env>, events: seq<Event>, sets: seq<set<Name>>, i: nat)
    requires OneToOne(nameOf) && |envs| == |sets| == |events| + 1
    requires envs[0].chain == multiset{} && sets[0] == {}
    requires forall j :: RunAt(nameOf, envs, events, sets, j)
    requires i <= |events|
    ensures sets[i] == Referenced(envs[i].chain, nameOf)
  {
    if i == 0 {
      NothingReferenced(nameOf);
    } else {
      var j := i - 1;
      RunAgrees(nameOf, envs, events, sets, j);
      assert RunAt(nameOf, envs, events, sets, j);
      RunStepAgrees(nameOf, envs, events, sets, j);
    }
  }

  /** A release with the same file under two names raises its content from zero to
      two references at once: it is never pinned. */
  lemma TwiceTheSameFile(env: Env, nameOf: Naming, cid: Cid, sha: string)
    requires NothingFails(env) && OneToOne(nameOf) && cid != "" && nameOf(cid) == AssetName(sha)
    requires env.chain == multiset{cid, cid}
    ensures var e := ReleaseAssetsUpdated([AssetUpdate(cid, "", sha, "", false), AssetUpdate(cid, "", sha, "", false)]);
      && GoodEvent(e, nameOf) && Moves(multiset{}, e, env.chain)
      && After(env, e, {}) == Outcome({}, true) && Referenced(env.chain, nameOf) == {nameOf(cid)}
  {
    var u := AssetUpdate(cid, "", sha, "", false);
    TwiceAdded(u);
    TwiceNotPinned(env, u);
  }

  lemma TwiceAdded(u: AssetUpdate)
    requires u.cid != "" && u.oldCid == "" && !u.delete
    ensures AssetsDelta([u, u]) == Delta(multiset{u.cid, u.cid}, multiset{})
  {
    assert [u, u][1..] == [u] && [u][1..] == [];
    assert AssetsDelta([u]) == Delta(multiset{u.cid}, multiset{});
  }

  lemma TwiceNotPinned(env: Env, u: AssetUpdate)
    requires NothingFails(env) && !u.delete && u.oldCid == "" && env.chain[u.cid] == 2
    ensures AfterAssets(env, [u, u], {}) == Outcome({}, true)
  {
    assert [u, u][1..] == [u] && [u][1..] == [];
    assert AfterAsset(env, u, {}) == Outcome({}, true);
    assert AfterAssets(env, [u], {}) == Outcome({}, true);
  }
}
