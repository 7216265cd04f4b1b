/** The release handler's diff (handler/release.go): from the assets the chain has
    and the attachments a release event asks for, the batch of asset updates that is
    proposed to the chain. */
module ReleaseDiff {
  type Name = string

  datatype Asset = Asset(cid: string, sha: string)

  type Assets = map<Name, Asset>

  datatype Attachment = Attachment(name: Name, sha: string, size: nat)

  datatype Update = Update(name: Name, cid: string, root: string, size: nat, sha: string, oldSha: string, oldCid: string, delete: bool)

  datatype EventType = CreateRelease | UpdateRelease | DeleteRelease

  /** Pinning a file gives the content id of its hash; files outside the maps cannot
      be pinned, or have no merkle root. */
  datatype Env = Env(pins: map<string, string>, roots: map<string, string>)

  predicate Ready(env: Env, a: Attachment) {
    a.sha in env.pins && a.sha in env.roots
  }

  // ----- the updates ---------------------------------------------------

  function Added(env: Env, a: Attachment, was: Asset): Update
    requires Ready(env, a)
  {
    Update(a.name, env.pins[a.sha], env.roots[a.sha], a.size, a.sha, was.sha, was.cid, false)
  }

  function Removed(n: Name, was: Asset): Update {
    Update(n, "", "", 0, "", was.sha, was.cid, true)
  }

  const NEW := Asset("", "")

  function CreateOne(env: Env, a: Attachment): seq<Update> {
    if Ready(env, a) then [Added(env, a, NEW)] else []
  }

  function ChangeOne(env: Env, assets: Assets, a: Attachment): seq<Update> {
    if a.name in assets && assets[a.name].sha == a.sha then []
    else if !Ready(env, a) then []
    else if a.name in assets then
      if env.pins[a.sha] != assets[a.name].cid then [Added(env, a, assets[a.name])] else []
    else [Added(env, a, NEW)]
  }

  function DropOne(assets: Assets, attachments: seq<Attachment>, n: Name): seq<Update>
    requires n in assets
  {
    if exists a :: a in attachments && a.name == n then [] else [Removed(n, assets[n])]
  }

  function Creations(env: Env, attachments: seq<Attachment>): seq<Update> {
    if attachments == [] then []
    else Creations(env, attachments[..|attachments| - 1]) + CreateOne(env, attachments[|attachments| - 1])
  }

  function Changes(env: Env, assets: Assets, attachments: seq<Attachment>): seq<Update> {
    if attachments == [] then []
    else Changes(env, assets, attachments[..|attachments| - 1]) + ChangeOne(env, assets, attachments[|attachments| - 1])
  }

  /** `order` is the order in which the map is ranged over. */
  function Drops(assets: Assets, attachments: seq<Attachment>, order: seq<Name>): seq<Update>
    requires forall n | n in order :: n in assets
  {
    if order == [] then []
    else Drops(assets, attachments, order[..|order| - 1]) + DropOne(assets, attachments, order[|order| - 1])
  }

  ghost predicate RangeOrder(assets: Assets, order: seq<Name>) {
    && (forall n :: n in order <==> n in assets)
    && (forall i, j | 0 <= i < j < |order| :: order[i] != order[j])
  }

  function UpdatesFor(env: Env, kind: EventType, assets: Assets, attachments: seq<Attachment>, order: seq<Name>): seq<Update>
    requires forall n | n in order :: n in assets
  {
    match kind
    case CreateRelease => Creations(env, attachments)
    case UpdateRelease => Drops(assets, attachments, order) + Changes(env, assets, attachments)
    case DeleteRelease => Drops(assets, [], order)
  }

  /** `for name := range m`: every key once, in no particular order. */
  method Range(assets: Assets) returns (order: seq<Name>)
    ensures RangeOrder(assets, order)
  {
    order := [];
    var left := assets.Keys;
    while left != {}
      invariant left <= assets.Keys
      invariant forall n :: n in order <==> n in assets && n !in left
      invariant forall i, j | 0 <= i < j < |order| :: order[i] != order[j]
      decreases left
    {
      var n :| n in left;
      order, left := order + [n], left - {n};
    }
  }

  method DetectDeletions(assets: Assets, attachments: seq<Attachment>, order: seq<Name>) returns (updates: seq<Update>)
    requires forall n | n in order :: n in assets
    ensures updates == Drops(assets, attachments, order)
  {
    updates := [];
    for i := 0 to |order|
      invariant updates == Drops(assets, attachments, order[..i])
    {
      assert order[..i + 1][..i] == order[..i];
      var found := false;
      for j := 0 to |attachments|
        invariant found <==> exists a :: a in attachments[..j] && a.name == order[i]
      {
        assert attachments[..j + 1] == attachments[..j] + [attachments[j]];
        if attachments[j].name == order[i] { found := true; }
      }
      assert attachments[..|attachments|] == attachments;
      if !found { updates := updates + [Removed(order[i], assets[order[i]])]; }
    }
    assert order[..|order|] == order;
  }

  method DetectCreations(env: Env, attachments: seq<Attachment>) returns (updates: seq<Update>)
    ensures updates == Creations(env, attachments)
  {
    updates := [];
    for i := 0 to |attachments|
      invariant updates == Creations(env, attachments[..i])
    {
      assert attachments[..i + 1][..i] == attachments[..i];
      var a := attachments[i];
      if a.sha !in env.pins { continue; }
      if a.sha !in env.roots { continue; }
      updates := updates + [Added(env, a, NEW)];
    }
    assert attachments[..|attachments|] == attachments;
  }

  method DetectChanges(env: Env, assets: Assets, attachments: seq<Attachment>) returns (updates: seq<Update>)
    ensures updates == Changes(env, assets, attachments)
  {
    updates := [];
    for i := 0 to |attachments|
      invariant updates == Changes(env, assets, attachments[..i])
    {
      assert attachments[..i + 1][..i] == attachments[..i];
      var a := attachments[i];
      var known := a.name in assets;
      if known && assets[a.name].sha == a.sha { continue; }
      if a.sha !in env.pins { continue; }
      if a.sha !in env.roots { continue; }
      if !known {
        updates := updates + [Added(env, a, NEW)];
      } else if env.pins[a.sha] != assets[a.name].cid {
        updates := updates + [Added(env, a, assets[a.name])];
      }
    }
    assert attachments[..|attachments|] == attachments;
  }

  /** The part of Process that builds the proposal, and the order in which it ranged over the map. */
  method BuildUpdates(env: Env, kind: EventType, assets: Assets, attachments: seq<Attachment>)
    returns (updates: seq<Update>, order: seq<Name>)
    ensures RangeOrder(assets, order)
    ensures updates == UpdatesFor(env, kind, assets, attachments, order)
  {
    order := Range(assets);
    match kind
    case CreateRelease =>
      updates := DetectCreations(env, attachments);
    case UpdateRelease =>
      var drops := DetectDeletions(assets, attachments, order);
      var changes := DetectChanges(env, assets, attachments);
      updates := drops + changes;
    case DeleteRelease =>
      updates := DetectDeletions(assets, [], order);
  }

  // ----- applying them -------------------------------------------------

  /** What the chain makes of an accepted proposal. */
  function Apply(assets: Assets, updates: seq<Update>): Assets {
    if updates == [] then assets
    else
      var u := updates[|updates| - 1];
      var before := Apply(assets, updates[..|updates| - 1]);
      if u.delete then before - {u.name} else before[u.name := Asset(u.cid, u.sha)]
  }

  predicate DistinctUpdates(updates: seq<Update>) {
    forall i, j | 0 <= i < j < |updates| :: updates[i].name != updates[j].name
  }

  predicate DistinctAttachments(attachments: seq<Attachment>) {
    forall i, j | 0 <= i < j < |attachments| :: attachments[i].name != attachments[j].name
  }

  /** The update names the state it replaces. */
  predicate Matches(assets: Assets, u: Update) {
    if u.name in assets then u.oldCid == assets[u.name].cid && u.oldSha == assets[u.name].sha
    else u.oldCid == "" && u.oldSha == "" && !u.delete
  }

  lemma {:induction false} ApplyElsewhere(assets: Assets, updates: seq<Update>, n: Name)
    requires forall u | u in updates :: u.name != n
    ensures n in Apply(assets, updates) <==> n in assets
    ensures n in assets ==> Apply(assets, updates)[n] == assets[n]
  {
    if updates != [] {
      ApplyElsewhere(assets, updates[..|updates| - 1], n);
      assert updates[|updates| - 1] in updates;
    }
  }

  lemma {:induction false} ApplyHere(assets: Assets, updates: seq<Update>, u: Update)
    requires DistinctUpdates(updates) && u in updates
    ensures u.delete ==> u.name !in Apply(assets, updates)
    ensures !u.delete ==> u.name in Apply(assets, updates) && Apply(assets, updates)[u.name] == Asset(u.cid, u.sha)
  {
    var front, last := updates[..|updates| - 1], updates[|updates| - 1];
    if u != last {
      assert u in front;
      ApplyHere(assets, front, u);
      var i :| 0 <= i < |front| && front[i] == u;
      assert updates[i].name != last.name;
    }
  }

  /** The state a release event asks for at name `n`: requested and ready files as
      requested, requested ones that could not be prepared as they were, others gone. */
  predicate Wanted(env: Env, assets: Assets, attachments: seq<Attachment>, n: Name, after: Assets) {
    && ((forall a | a in attachments :: a.name != n) ==> n !in after)
    && (forall a | a in attachments && a.name == n ::
          if a.name in assets && assets[n].sha == a.sha then n in after && after[n] == assets[n]
          else if Ready(env, a) then n in after && after[n] == Asset(env.pins[a.sha], a.sha)
          else (n in after <==> n in assets) && (n in assets ==> after[n] == assets[n]))
  }

  // ----- facts about the lists -----------------------------------------

  lemma {:induction false} ChangesMembers(env: Env, assets: Assets, attachments: seq<Attachment>, u: Update)
    ensures u in Changes(env, assets, attachments) <==>
      exists a :: a in attachments && u in ChangeOne(env, assets, a)
  {
    if attachments != [] {
      ChangesMembers(env, assets, attachments[..|attachments| - 1], u);
    }
  }

  lemma {:induction false} DropsMembers(assets: Assets, attachments: seq<Attachment>, order: seq<Name>, u: Update)
    requires forall n | n in order :: n in assets
    ensures u in Drops(assets, attachments, order) <==>
      exists n :: n in order && u in DropOne(assets, attachments, n)
  {
    if order != [] {
      DropsMembers(assets, attachments, order[..|order| - 1], u);
    }
  }

  lemma {:induction false} ChangesDistinct(env: Env, assets: Assets, attachments: seq<Attachment>)
    requires DistinctAttachments(attachments)
    ensures DistinctUpdates(Changes(env, assets, attachments))
  {
    if attachments != [] {
      var front, last := attachments[..|attachments| - 1], attachments[|attachments| - 1];
      ChangesDistinct(env, assets, front);
      forall u | u in Changes(env, assets, front) ensures u.name != last.name {
        ChangesMembers(env, assets, front, u);
      }
    }
  }

  lemma {:induction false} DropsDistinct(assets: Assets, attachments: seq<Attachment>, order: seq<Name>)
    requires forall n | n in order :: n in assets
    requires forall i, j | 0 <= i < j < |order| :: order[i] != order[j]
    ensures DistinctUpdates(Drops(assets, attachments, order))
  {
    if order != [] {
      var front, last := order[..|order| - 1], order[|order| - 1];
      DropsDistinct(assets, attachments, front);
      forall u | u in Drops(assets, attachments, front) ensures u.name != last {
        DropsMembers(assets, attachments, front, u);
      }
    }
  }

  // ----- main results --------------------------------------------------

  /** A changed file whose new content id is the old one is not proposed. */
  ghost predicate Aliased(env: Env, assets: Assets, a: Attachment) {
    && a.name in assets && assets[a.name].sha != a.sha
    && Ready(env, a) && env.pins[a.sha] == assets[a.name].cid
  }

  lemma UpdateNamesDistinct(env: Env, assets: Assets, attachments: seq<Attachment>, order: seq<Name>)
    requires DistinctAttachments(attachments) && RangeOrder(assets, order)
    ensures DistinctUpdates(UpdatesFor(env, UpdateRelease, assets, attachments, order))
  {
    var drops, changes := Drops(assets, attachments, order), Changes(env, assets, attachments);
    ChangesDistinct(env, assets, attachments);
    DropsDistinct(assets, attachments, order);
    forall u, v | u in drops && v in changes ensures u.name != v.name {
      DropsMembers(assets, attachments, order, u);
      ChangesMembers(env, assets, attachments, v);
    }
  }

  /** Every update of an update or delete event quotes the current content id and hash. */
  lemma UpdatesMatch(env: Env, kind: EventType, assets: Assets, attachments: seq<Attachment>, order: seq<Name>, u: Update)
    requires RangeOrder(assets, order) && !kind.CreateRelease?
    requires u in UpdatesFor(env, kind, assets, attachments, order)
    ensures Matches(assets, u)
  {
    if kind.DeleteRelease? {
      DropMatches(assets, [], order, u);
    } else if u in Drops(assets, attachments, order) {
      DropMatches(assets, attachments, order, u);
    } else {
      ChangesMembers(env, assets, attachments, u);
      var a :| a in attachments && u in ChangeOne(env, assets, a);
    }
  }

  lemma DropMatches(assets: Assets, attachments: seq<Attachment>, order: seq<Name>, u: Update)
    requires (forall n | n in order :: n in assets) && u in Drops(assets, attachments, order)
    ensures Matches(assets, u)
  {
    DropsMembers(assets, attachments, order, u);
    var n :| n in order && u in DropOne(assets, attachments, n);
  }

  /** The update is of the attachment and carries its hash and size, and the content id and
      the merkle root that were made of it. */
  predicate Carries(env: Env, a: Attachment, u: Update) {
    && u.name == a.name && u.sha == a.sha && u.size == a.size
    && a.sha in env.pins && u.cid == env.pins[a.sha]
    && a.sha in env.roots && u.root == env.roots[a.sha]
  }

  lemma CreatedCarries(env: Env, attachments: seq<Attachment>, u: Update)
    requires u in Creations(env, attachments)
    ensures !u.delete && u.oldCid == "" && u.oldSha == ""
    ensures exists a :: a in attachments && Carries(env, a, u)
  {
    CreationsAreChanges(env, attachments);
    ChangesMembers(env, map[], attachments, u);
    var a :| a in attachments && u in ChangeOne(env, map[], a);
    assert Carries(env, a, u);
  }

  /** Every update carries the file of an attachment, or nothing at all if it deletes one
      that the release has and the event does not ask for. */
  lemma UpdatesCarryFile(env: Env, kind: EventType, assets: Assets, attachments: seq<Attachment>, order: seq<Name>, u: Update)
    requires RangeOrder(assets, order)
    requires u in UpdatesFor(env, kind, assets, attachments, order)
    ensures !u.delete ==> !kind.DeleteRelease? && exists a :: a in attachments && Carries(env, a, u)
    ensures kind.CreateRelease? ==> !u.delete && u.oldCid == "" && u.oldSha == ""
    ensures u.delete ==>
      && u.name in assets && u.cid == "" && u.root == "" && u.size == 0 && u.sha == ""
      && (kind.DeleteRelease? || forall a | a in attachments :: a.name != u.name)
  {
    if kind.CreateRelease? {
      CreatedCarries(env, attachments, u);
    } else {
      var asked := if kind.DeleteRelease? then [] else attachments;
      DropsMembers(assets, asked, order, u);
      ChangesMembers(env, assets, attachments, u);
      if a :| kind.UpdateRelease? && a in attachments && u in ChangeOne(env, assets, a) {
        assert Carries(env, a, u);
      }
    }
  }

  lemma UpdateReachesAt(env: Env, assets: Assets, attachments: seq<Attachment>, order: seq<Name>, n: Name)
    requires DistinctAttachments(attachments) && RangeOrder(assets, order)
    ensures var updates := UpdatesFor(env, UpdateRelease, assets, attachments, order);
      Wanted(env, assets, attachments, n, Apply(assets, updates))
      <==> forall a | a in attachments && a.name == n :: !Aliased(env, assets, a)
  {
    var drops, changes := Drops(assets, attachments, order), Changes(env, assets, attachments);
    var updates := drops + changes;
    UpdateNamesDistinct(env, assets, attachments, order);
    if a :| a in attachments && a.name == n {
      forall b | b in attachments && b.name == n ensures b == a { }
      forall u | u in drops ensures u.name != n { DropsMembers(assets, attachments, order, u); }
      RequestedAt(env, assets, attachments, drops, a);
    } else {
      forall u | u in changes ensures u.name != n { ChangesMembers(env, assets, attachments, u); }
      if n in assets {
        var u := Removed(n, assets[n]);
        DropsMembers(assets, attachments, order, u);
        assert n in order && u in DropOne(assets, attachments, n);
        assert u in updates;
        ApplyHere(assets, updates, u);
      } else {
        forall u | u in drops ensures u.name != n { DropsMembers(assets, attachments, order, u); }
        ApplyElsewhere(assets, updates, n);
      }
    }
  }

  /** At the name of an attachment only its own update acts. */
  lemma RequestedAt(env: Env, assets: Assets, attachments: seq<Attachment>, drops: seq<Update>, a: Attachment)
    requires a in attachments && forall b | b in attachments && b.name == a.name :: b == a
    requires forall u | u in drops :: u.name != a.name
    requires DistinctUpdates(drops + Changes(env, assets, attachments))
    ensures Wanted(env, assets, attachments, a.name, Apply(assets, drops + Changes(env, assets, attachments)))
            <==> !Aliased(env, assets, a)
  {
    var changes := Changes(env, assets, attachments);
    var updates := drops + changes;
    forall u | u in changes && u.name == a.name ensures u in ChangeOne(env, assets, a) {
      ChangesMembers(env, assets, attachments, u);
    }
    var one := ChangeOne(env, assets, a);
    if one == [] {
      ApplyElsewhere(assets, updates, a.name);
    } else {
      ChangesMembers(env, assets, attachments, one[0]);
      assert one[0] in updates;
      ApplyHere(assets, updates, one[0]);
    }
  }

  ghost predicate Reached(env: Env, assets: Assets, attachments: seq<Attachment>, after: Assets) {
    forall n :: Wanted(env, assets, attachments, n, after)
  }

  ghost predicate NoneAliased(env: Env, assets: Assets, attachments: seq<Attachment>) {
    forall a | a in attachments :: !Aliased(env, assets, a)
  }

  /** Applying the proposal of an update event gives exactly the requested release
      if and only if no changed file kept its old content id. */
  lemma UpdateReachesRequestIff(env: Env, assets: Assets, attachments: seq<Attachment>, order: seq<Name>, after: Assets)
    requires DistinctAttachments(attachments) && RangeOrder(assets, order)
    requires after == Apply(assets, UpdatesFor(env, UpdateRelease, assets, attachments, order))
    ensures Reached(env, assets, attachments, after) <==> NoneAliased(env, assets, attachments)
  {
    if NoneAliased(env, assets, attachments) {
      forall n ensures Wanted(env, assets, attachments, n, after) {
        UpdateReachesAt(env, assets, attachments, order, n);
      }
    }
    if Reached(env, assets, attachments, after) {
      forall a | a in attachments ensures !Aliased(env, assets, a) {
        UpdateReachesAt(env, assets, attachments, order, a.name);
        assert Wanted(env, assets, attachments, a.name, after);
      }
    }
  }

  lemma DeleteRemovesAt(assets: Assets, order: seq<Name>, n: Name)
    requires RangeOrder(assets, order)
    ensures n !in Apply(assets, Drops(assets, [], order))
  {
    var updates := Drops(assets, [], order);
    if n in assets {
      var u := Removed(n, assets[n]);
      DropsDistinct(assets, [], order);
      DropsMembers(assets, [], order, u);
      assert n in order && u in DropOne(assets, [], n);
      ApplyHere(assets, updates, u);
    } else {
      forall u | u in updates ensures u.name != n { DropsMembers(assets, [], order, u); }
      ApplyElsewhere(assets, updates, n);
    }
  }

  /** Content ids name contents: a file's id is determined by its hash, and files of
      different hash have different ids. */
  ghost predicate CidsNameContents(env: Env, assets: Assets, cidOf: string -> string) {
    && (forall a, b :: cidOf(a) == cidOf(b) ==> a == b)
    && (forall sha | sha in env.pins :: env.pins[sha] == cidOf(sha))
    && (forall n | n in assets :: assets[n].cid == cidOf(assets[n].sha))
  }

  /** Then the proposal always gives exactly the requested release. */
  lemma ContentIdsReachRequest(
    env: Env, assets: Assets, attachments: seq<Attachment>, order: seq<Name>, cidOf: string -> string, after: Assets)
    requires DistinctAttachments(attachments) && RangeOrder(assets, order) && CidsNameContents(env, assets, cidOf)
    requires after == Apply(assets, UpdatesFor(env, UpdateRelease, assets, attachments, order))
    ensures Reached(env, assets, attachments, after)
  {
    UpdateReachesRequestIff(env, assets, attachments, order, after);
  }

  /** Without that, a file whose new hash pins to its old content id keeps the old hash. */
  lemma SameCidKeepsOldHash(n: Name, cid: string, root: string, oldSha: string, sha: string)
    requires oldSha != sha
    ensures var env := Env(map[sha := cid], map[sha := root]);
      var assets := map[n := Asset(cid, oldSha)];
      Apply(assets, UpdatesFor(env, UpdateRelease, assets, [Attachment(n, sha, 0)], [n])) == assets
  {
    var env := Env(map[sha := cid], map[sha := root]);
    var assets, a := map[n := Asset(cid, oldSha)], Attachment(n, sha, 0);
    assert Changes(env, assets, [a]) == Changes(env, assets, [a][..0]) + ChangeOne(env, assets, a);
    assert a in [a] && Drops(assets, [a], [n]) == Drops(assets, [a], [n][..0]) + DropOne(assets, [a], n);
  }

  /** Deleting a release leaves none of its assets, in whatever order the map is ranged over. */
  lemma DeleteRemovesAll(env: Env, assets: Assets, attachments: seq<Attachment>, order: seq<Name>)
    requires RangeOrder(assets, order)
    ensures Apply(assets, UpdatesFor(env, DeleteRelease, assets, attachments, order)) == map[]
  {
    var after := Apply(assets, Drops(assets, [], order));
    forall n ensures n !in after { DeleteRemovesAt(assets, order, n); }
  }

  lemma {:induction false} CreationsAreChanges(env: Env, attachments: seq<Attachment>)
    ensures Creations(env, attachments) == Changes(env, map[], attachments)
  {
    if attachments != [] { CreationsAreChanges(env, attachments[..|attachments| - 1]); }
  }

  /** A create event proposes exactly what an update event on an empty release would,
      so applying it gives the requested files. */
  lemma CreateReachesRequest(env: Env, attachments: seq<Attachment>, n: Name)
    requires DistinctAttachments(attachments)
    ensures var updates := UpdatesFor(env, CreateRelease, map[], attachments, []);
      DistinctUpdates(updates) && Wanted(env, map[], attachments, n, Apply(map[], updates))
  {
    CreationsAreChanges(env, attachments);
    UpdateReachesAt(env, map[], attachments, [], n);
    UpdateNamesDistinct(env, map[], attachments, []);
    assert UpdatesFor(env, UpdateRelease, map[], attachments, []) == UpdatesFor(env, CreateRelease, map[], attachments, []);
  }
}
