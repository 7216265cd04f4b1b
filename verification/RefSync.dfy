/** Writing the chain's branches and tags into a cached repository
    (utils/cache.go): one atomic `git update-ref --stdin` transaction, and a
    ref-by-ref fallback that also finds out which refs fail. */
module RefSync {
  datatype Named = Named(name: string, sha: string)

  datatype Kind = Branches | Tags

  type Refs = map<string, string>

  /** Whether git accepts the ref name and has the object; the same for the
      transaction and for a single update. */
  type Validity = (string, string) -> bool

  function RefName(kind: Kind, n: Named): string {
    (if kind.Branches? then "refs/heads/" else "refs/tags/") + n.name
  }

  function Label(kind: Kind, n: Named): string {
    (if kind.Branches? then "branch:" else "tag:") + n.name
  }

  /** The store after trying the updates one by one. */
  function Applied(refs: Refs, kind: Kind, items: seq<Named>, valid: Validity): Refs {
    if items == [] then refs
    else
      var n := items[|items| - 1];
      var before := Applied(refs, kind, items[..|items| - 1], valid);
      if valid(RefName(kind, n), n.sha) then before[RefName(kind, n) := n.sha] else before
  }

  function Failures(kind: Kind, items: seq<Named>, valid: Validity): seq<string> {
    if items == [] then []
    else
      var n := items[|items| - 1];
      Failures(kind, items[..|items| - 1], valid) + if valid(RefName(kind, n), n.sha) then [] else [Label(kind, n)]
  }

  predicate AllValid(kind: Kind, items: seq<Named>, valid: Validity) {
    forall n | n in items :: valid(RefName(kind, n), n.sha)
  }

  predicate NoDuplicates(commands: seq<(string, string)>) {
    forall i, j | 0 <= i < j < |commands| :: commands[i].0 != commands[j].0
  }

  function Commands(kind: Kind, items: seq<Named>): (r: seq<(string, string)>)
    ensures |r| == |items| && forall i | 0 <= i < |r| :: r[i] == (RefName(kind, items[i]), items[i].sha)
  {
    seq(|items|, i requires 0 <= i < |items| => (RefName(kind, items[i]), items[i].sha))
  }

  function Written(refs: Refs, commands: seq<(string, string)>): Refs {
    if commands == [] then refs
    else Written(refs, commands[..|commands| - 1])[commands[|commands| - 1].0 := commands[|commands| - 1].1]
  }

  /** What the individual loop leaves. */
  function Target(refs: Refs, branches: seq<Named>, tags: seq<Named>, valid: Validity): Refs {
    Applied(Applied(refs, Branches, branches, valid), Tags, tags, valid)
  }

  /** How it goes with the process that runs the transaction: writing to it may fail after
      `sent` commands, and reading its output may fail. */
  datatype Git = NotStarted | Started(sent: nat, outputLost: bool)

  function AllCommands(branches: seq<Named>, tags: seq<Named>): seq<(string, string)> {
    Commands(Branches, branches) + Commands(Tags, tags)
  }

  function Received(commands: seq<(string, string)>, git: Git): seq<(string, string)> {
    if git.Started? && git.sent < |commands| then commands[..git.sent] else commands
  }

  ghost predicate Accepted(commands: seq<(string, string)>, valid: Validity) {
    NoDuplicates(commands) && forall c | c in commands :: valid(c.0, c.1)
  }

  /** The transaction alone decides. */
  ghost predicate Trusted(branches: seq<Named>, tags: seq<Named>, valid: Validity, git: Git) {
    git.Started? && !git.outputLost && Accepted(Received(AllCommands(branches, tags), git), valid)
  }

  ghost function BatchStore(refs: Refs, branches: seq<Named>, tags: seq<Named>, valid: Validity, git: Git): Refs {
    if Trusted(branches, tags, valid, git) then Written(refs, Received(AllCommands(branches, tags), git))
    else Target(refs, branches, tags, valid)
  }

  ghost function BatchFailures(branches: seq<Named>, tags: seq<Named>, valid: Validity, git: Git): seq<string> {
    if Trusted(branches, tags, valid, git) then []
    else AllFailures(branches, tags, valid)
  }

  function AllFailures(branches: seq<Named>, tags: seq<Named>, valid: Validity): seq<string> {
    Failures(Branches, branches, valid) + Failures(Tags, tags, valid)
  }

  class RefStore {
    var refs: Refs

    constructor (refs: Refs)
      ensures this.refs == refs
    {
      this.refs := refs;
    }

    /** git update-ref of one ref. */
    method UpdateRef(ref: string, sha: string, valid: Validity) returns (ok: bool)
      modifies this
      ensures ok == valid(ref, sha)
      ensures refs == if ok then old(refs)[ref := sha] else old(refs)
    {
      ok := valid(ref, sha);
      if ok { refs := refs[ref := sha]; }
    }

    method SyncKind(kind: Kind, items: seq<Named>, valid: Validity) returns (failed: seq<string>)
      modifies this
      ensures refs == Applied(old(refs), kind, items, valid)
      ensures failed == Failures(kind, items, valid)
    {
      failed := [];
      for i := 0 to |items|
        invariant refs == Applied(old(refs), kind, items[..i], valid)
        invariant failed == Failures(kind, items[..i], valid)
      {
        assert items[..i + 1][..i] == items[..i];
        var ok := UpdateRef(RefName(kind, items[i]), items[i].sha, valid);
        if !ok { failed := failed + [Label(kind, items[i])]; }
      }
      assert items[..|items|] == items;
    }

    method SyncRefsIndividually(branches: seq<Named>, tags: seq<Named>, valid: Validity) returns (failed: seq<string>)
      modifies this
      ensures refs == Applied(Applied(old(refs), Branches, branches, valid), Tags, tags, valid)
      ensures failed == Failures(Branches, branches, valid) + Failures(Tags, tags, valid)
    {
      var failedBranches := SyncKind(Branches, branches, valid);
      var failedTags := SyncKind(Tags, tags, valid);
      failed := failedBranches + failedTags;
    }

    /** git update-ref --stdin: all or nothing; a ref named twice is refused. */
    method UpdateRefs(commands: seq<(string, string)>, valid: Validity) returns (ok: bool)
      modifies this
      ensures ok <==> NoDuplicates(commands) && forall c | c in commands :: valid(c.0, c.1)
      ensures refs == if ok then Written(old(refs), commands) else old(refs)
    {
      ok := NoDuplicates(commands) && forall c | c in commands :: valid(c.0, c.1);
      if ok {
        for i := 0 to |commands|
          invariant refs == Written(old(refs), commands[..i])
        {
          assert commands[..i + 1][..i] == commands[..i];
          refs := refs[commands[i].0 := commands[i].1];
        }
        assert commands[..|commands|] == commands;
      }
    }

    /** Git takes the first `sent` commands for the whole transaction if writing to it
        fails then. When it was not started, when it refuses, or when its output is lost,
        the individual loop runs. */
    method SyncRefsWithUpdateRef(branches: seq<Named>, tags: seq<Named>, valid: Validity, git: Git) returns (failed: seq<string>)
      modifies this
      ensures refs == BatchStore(old(refs), branches, tags, valid, git)
      ensures failed == BatchFailures(branches, tags, valid, git)
    {
      failed := [];
      var commands := AllCommands(branches, tags);
      if |commands| == 0 {
        assert branches == [] && tags == [];
        return;
      }
      if git.NotStarted? {
        failed := SyncRefsIndividually(branches, tags, valid);
        return;
      }
      var received := Received(commands, git);
      var ok := UpdateRefs(received, valid);
      if git.outputLost || !ok {
        failed := SyncRefsIndividually(branches, tags, valid);
        if ok {
          assert commands[..|received|] == received;
          LoopOverwrites(old(refs), branches, tags, valid, |received|);
        }
      }
    }
  }

  lemma {:induction false} WrittenConcat(refs: Refs, a: seq<(string, string)>, b: seq<(string, string)>)
    ensures Written(refs, a + b) == Written(Written(refs, a), b)
  {
    if b == [] {
      assert a + b == a;
    } else {
      assert (a + b)[..|a + b| - 1] == a + b[..|b| - 1];
      WrittenConcat(refs, a, b[..|b| - 1]);
    }
  }

  lemma {:induction false} WrittenIsApplied(refs: Refs, kind: Kind, items: seq<Named>, valid: Validity)
    requires AllValid(kind, items, valid)
    ensures Written(refs, Commands(kind, items)) == Applied(refs, kind, items, valid)
    ensures Failures(kind, items, valid) == []
  {
    if items != [] {
      assert Commands(kind, items)[..|items| - 1] == Commands(kind, items[..|items| - 1]);
      WrittenIsApplied(refs, kind, items[..|items| - 1], valid);
    }
  }

  /** A transaction that git accepts does what the individual updates would do. */
  lemma BatchIsIndividual(refs: Refs, branches: seq<Named>, tags: seq<Named>, valid: Validity)
    requires forall c | c in Commands(Branches, branches) + Commands(Tags, tags) :: valid(c.0, c.1)
    ensures Written(refs, Commands(Branches, branches) + Commands(Tags, tags))
         == Applied(Applied(refs, Branches, branches, valid), Tags, tags, valid)
    ensures Failures(Branches, branches, valid) + Failures(Tags, tags, valid) == []
  {
    var b, t := Commands(Branches, branches), Commands(Tags, tags);
    forall n | n in branches ensures valid(RefName(Branches, n), n.sha) {
      var i :| 0 <= i < |branches| && branches[i] == n;
      assert b[i] in b + t;
    }
    forall n | n in tags ensures valid(RefName(Tags, n), n.sha) {
      var i :| 0 <= i < |tags| && tags[i] == n;
      assert t[i] in b + t;
    }
    WrittenConcat(refs, b, t);
    WrittenIsApplied(refs, Branches, branches, valid);
    WrittenIsApplied(Applied(refs, Branches, branches, valid), Tags, tags, valid);
  }

  // ----- what the resulting store is -----------------------------------

  predicate DistinctNames(items: seq<Named>) {
    forall i, j | 0 <= i < j < |items| :: items[i].name != items[j].name
  }

  ghost predicate SameAt(a: Refs, b: Refs, ref: string) {
    (ref in a <==> ref in b) && (ref in a ==> a[ref] == b[ref])
  }

  lemma {:induction false} AppliedElsewhere(refs: Refs, kind: Kind, items: seq<Named>, valid: Validity, ref: string)
    requires forall n | n in items :: RefName(kind, n) == ref ==> !valid(ref, n.sha)
    ensures SameAt(Applied(refs, kind, items, valid), refs, ref)
  {
    if items != [] { AppliedElsewhere(refs, kind, items[..|items| - 1], valid, ref); }
  }

  lemma {:induction false} AppliedHere(refs: Refs, kind: Kind, items: seq<Named>, valid: Validity, n: Named)
    requires DistinctNames(items) && n in items && valid(RefName(kind, n), n.sha)
    ensures RefName(kind, n) in Applied(refs, kind, items, valid)
    ensures Applied(refs, kind, items, valid)[RefName(kind, n)] == n.sha
  {
    var front, last := items[..|items| - 1], items[|items| - 1];
    if n != last {
      AppliedHere(refs, kind, front, valid, n);
      var i :| 0 <= i < |front| && front[i] == n;
      assert items[i].name != last.name;
      NamesDiffer(kind, n, last);
    }
  }

  lemma NamesDiffer(kind: Kind, a: Named, b: Named)
    requires a.name != b.name
    ensures RefName(kind, a) != RefName(kind, b)
  {
    var p := if kind.Branches? then "refs/heads/" else "refs/tags/";
    assert (p + a.name)[|p|..] == a.name && (p + b.name)[|p|..] == b.name;
  }

  lemma KindsDiffer(a: Named, b: Named)
    ensures RefName(Branches, a) != RefName(Tags, b)
  {
    assert RefName(Branches, a)[5] == 'h' && RefName(Tags, b)[5] == 't';
  }

  /** With distinct names each valid branch of the chain ends at the chain's commit. */
  lemma SyncedBranches(refs: Refs, branches: seq<Named>, tags: seq<Named>, valid: Validity, n: Named)
    requires DistinctNames(branches) && n in branches && valid("refs/heads/" + n.name, n.sha)
    ensures var target := Target(refs, branches, tags, valid);
      "refs/heads/" + n.name in target && target["refs/heads/" + n.name] == n.sha
  {
    AppliedHere(refs, Branches, branches, valid, n);
    forall t | t in tags ensures RefName(Tags, t) != RefName(Branches, n) { KindsDiffer(n, t); }
    AppliedElsewhere(Applied(refs, Branches, branches, valid), Tags, tags, valid, RefName(Branches, n));
  }

  /** And each valid tag. */
  lemma SyncedTags(refs: Refs, branches: seq<Named>, tags: seq<Named>, valid: Validity, n: Named)
    requires DistinctNames(tags) && n in tags && valid("refs/tags/" + n.name, n.sha)
    ensures var target := Target(refs, branches, tags, valid);
      "refs/tags/" + n.name in target && target["refs/tags/" + n.name] == n.sha
  {
    AppliedHere(Applied(refs, Branches, branches, valid), Tags, tags, valid, n);
  }

  /** A ref that the chain does not know, or knows only with an invalid commit, is unchanged. */
  lemma UnsyncedRefs(refs: Refs, branches: seq<Named>, tags: seq<Named>, valid: Validity, ref: string)
    requires forall n | n in branches :: "refs/heads/" + n.name == ref ==> !valid(ref, n.sha)
    requires forall n | n in tags :: "refs/tags/" + n.name == ref ==> !valid(ref, n.sha)
    ensures SameAt(Target(refs, branches, tags, valid), refs, ref)
  {
    AppliedElsewhere(refs, Branches, branches, valid, ref);
    AppliedElsewhere(Applied(refs, Branches, branches, valid), Tags, tags, valid, ref);
  }

  /** The failed list is exactly the invalid refs, branches and tags apart. */
  lemma FailuresAreInvalid(branches: seq<Named>, tags: seq<Named>, valid: Validity, entry: string)
    ensures entry in AllFailures(branches, tags, valid) <==>
      || (exists n :: n in branches && entry == "branch:" + n.name && !valid("refs/heads/" + n.name, n.sha))
      || (exists n :: n in tags && entry == "tag:" + n.name && !valid("refs/tags/" + n.name, n.sha))
  {
    FailedLabels(Branches, branches, valid, entry);
    FailedLabels(Tags, tags, valid, entry);
  }

  lemma {:induction false} FailedLabels(kind: Kind, items: seq<Named>, valid: Validity, entry: string)
    ensures entry in Failures(kind, items, valid) <==>
      exists n :: n in items && entry == Label(kind, n) && !valid(RefName(kind, n), n.sha)
  {
    if items != [] {
      FailedLabels(kind, items[..|items| - 1], valid, entry);
      assert items[|items| - 1] in items;
      assert items == items[..|items| - 1] + [items[|items| - 1]];
    }
  }

  // ----- when the transaction is cut short -----------------------------

  lemma {:induction false} WrittenElsewhere(refs: Refs, commands: seq<(string, string)>, ref: string)
    requires forall c | c in commands :: c.0 != ref
    ensures SameAt(Written(refs, commands), refs, ref)
  {
    if commands != [] {
      assert commands[|commands| - 1] in commands;
      WrittenElsewhere(refs, commands[..|commands| - 1], ref);
    }
  }

  lemma {:induction false} WrittenHere(refs: Refs, commands: seq<(string, string)>, c: (string, string))
    requires NoDuplicates(commands) && c in commands
    ensures c.0 in Written(refs, commands) && Written(refs, commands)[c.0] == c.1
  {
    var front, last := commands[..|commands| - 1], commands[|commands| - 1];
    if c != last {
      assert c in front;
      WrittenHere(refs, front, c);
      var i :| 0 <= i < |front| && front[i] == c;
      assert commands[i].0 != last.0;
    }
  }

  lemma {:induction false} WrittenAgain(refs: Refs, commands: seq<(string, string)>)
    requires forall c | c in commands :: c.0 in refs && refs[c.0] == c.1
    ensures Written(refs, commands) == refs
  {
    if commands != [] {
      assert commands[|commands| - 1] in commands;
      WrittenAgain(refs, commands[..|commands| - 1]);
    }
  }

  /** Two stores become equal at a ref that is written, and stay equal where they were. */
  lemma {:induction false} AppliedAgree(a: Refs, b: Refs, kind: Kind, items: seq<Named>, valid: Validity, ref: string)
    requires SameAt(a, b, ref) || exists n :: n in items && RefName(kind, n) == ref && valid(ref, n.sha)
    ensures SameAt(Applied(a, kind, items, valid), Applied(b, kind, items, valid), ref)
  {
    if items != [] {
      var front, last := items[..|items| - 1], items[|items| - 1];
      if !(RefName(kind, last) == ref && valid(ref, last.sha)) {
        if !SameAt(a, b, ref) {
          var n :| n in items && RefName(kind, n) == ref && valid(ref, n.sha);
          assert n in front;
        }
        AppliedAgree(a, b, kind, front, valid, ref);
      }
    }
  }

  lemma CommandOfItem(branches: seq<Named>, tags: seq<Named>, c: (string, string))
    requires c in AllCommands(branches, tags)
    ensures (exists n :: n in branches && c == (RefName(Branches, n), n.sha)) || (exists n :: n in tags && c == (RefName(Tags, n), n.sha))
  {
    var b, t := Commands(Branches, branches), Commands(Tags, tags);
    if c in b {
      var i :| 0 <= i < |b| && b[i] == c;
      assert branches[i] in branches;
    } else {
      var i :| 0 <= i < |t| && t[i] == c;
      assert tags[i] in tags;
    }
  }

  lemma SameEverywhere(a: Refs, b: Refs)
    requires forall ref :: SameAt(a, b, ref)
    ensures a == b
  {
    forall ref ensures ref in a <==> ref in b { assert SameAt(a, b, ref); }
    forall ref | ref in a ensures a[ref] == b[ref] { assert SameAt(a, b, ref); }
  }

  /** The loop overwrites whatever a part of the transaction has written. */
  lemma LoopOverwrites(refs: Refs, branches: seq<Named>, tags: seq<Named>, valid: Validity, n: nat)
    requires n <= |AllCommands(branches, tags)|
    requires forall c | c in AllCommands(branches, tags)[..n] :: valid(c.0, c.1)
    ensures Target(Written(refs, AllCommands(branches, tags)[..n]), branches, tags, valid) == Target(refs, branches, tags, valid)
  {
    var part := AllCommands(branches, tags)[..n];
    var w := Written(refs, part);
    forall ref ensures SameAt(Target(w, branches, tags, valid), Target(refs, branches, tags, valid), ref) {
      if c :| c in part && c.0 == ref {
        CommandOfItem(branches, tags, c);
      } else {
        WrittenElsewhere(refs, part, ref);
      }
      if SameAt(w, refs, ref) || exists m :: m in branches && RefName(Branches, m) == ref && valid(ref, m.sha) {
        AppliedAgree(w, refs, Branches, branches, valid, ref);
      }
      AppliedAgree(Applied(w, Branches, branches, valid), Applied(refs, Branches, branches, valid), Tags, tags, valid, ref);
    }
    SameEverywhere(Target(w, branches, tags, valid), Target(refs, branches, tags, valid));
  }

  lemma CommandsDistinct(branches: seq<Named>, tags: seq<Named>)
    requires DistinctNames(branches) && DistinctNames(tags)
    ensures NoDuplicates(AllCommands(branches, tags))
  {
    var all := AllCommands(branches, tags);
    forall i, j | 0 <= i < j < |all| ensures all[i].0 != all[j].0 {
      if j < |branches| { NamesDiffer(Branches, branches[i], branches[j]); }
      else if i < |branches| { KindsDiffer(branches[i], tags[j - |branches|]); }
      else { NamesDiffer(Tags, tags[i - |branches|], tags[j - |branches|]); }
    }
  }

  lemma {:induction false} NoFailureIff(kind: Kind, items: seq<Named>, valid: Validity)
    ensures Failures(kind, items, valid) == [] <==> AllValid(kind, items, valid)
  {
    if items != [] {
      NoFailureIff(kind, items[..|items| - 1], valid);
      assert items[|items| - 1] in items;
      assert items == items[..|items| - 1] + [items[|items| - 1]];
    }
  }

  lemma AllCommandsValidIff(branches: seq<Named>, tags: seq<Named>, valid: Validity)
    ensures AllFailures(branches, tags, valid) == [] <==> forall c | c in AllCommands(branches, tags) :: valid(c.0, c.1)
  {
    NoFailureIff(Branches, branches, valid);
    NoFailureIff(Tags, tags, valid);
    if AllFailures(branches, tags, valid) == [] {
      forall c | c in AllCommands(branches, tags) ensures valid(c.0, c.1) { CommandOfItem(branches, tags, c); }
    }
    if forall c | c in AllCommands(branches, tags) :: valid(c.0, c.1) {
      BatchIsIndividual(map[], branches, tags, valid);
    }
  }

  /** The commands that never reached git. */
  function Unsent(branches: seq<Named>, tags: seq<Named>, git: Git): seq<(string, string)> {
    AllCommands(branches, tags)[|Received(AllCommands(branches, tags), git)|..]
  }

  /** Unless the transaction alone decides, the batch ends as the individual loop does.
      When it decides, it does so if and only if every command that never reached git is
      valid and names the commit its ref had before. */
  lemma BatchAgreesIff(refs: Refs, branches: seq<Named>, tags: seq<Named>, valid: Validity, git: Git)
    requires DistinctNames(branches) && DistinctNames(tags)
    ensures
      (&& BatchStore(refs, branches, tags, valid, git) == Target(refs, branches, tags, valid)
       && BatchFailures(branches, tags, valid, git) == AllFailures(branches, tags, valid))
      <==> (Trusted(branches, tags, valid, git) ==>
              forall c | c in Unsent(branches, tags, git) :: valid(c.0, c.1) && c.0 in refs && refs[c.0] == c.1)
  {
    if Trusted(branches, tags, valid, git) {
      var all, got, rest := AllCommands(branches, tags), Received(AllCommands(branches, tags), git), Unsent(branches, tags, git);
      assert all == got + rest;
      CommandsDistinct(branches, tags);
      CutAgreesIff(refs, branches, tags, valid, got, rest);
    }
  }

  lemma CutAgreesIff(refs: Refs, branches: seq<Named>, tags: seq<Named>, valid: Validity, got: seq<(string, string)>, rest: seq<(string, string)>)
    requires AllCommands(branches, tags) == got + rest && NoDuplicates(got + rest)
    requires forall c | c in got :: valid(c.0, c.1)
    ensures Written(refs, got) == Target(refs, branches, tags, valid) && AllFailures(branches, tags, valid) == []
      <==> forall c | c in rest :: valid(c.0, c.1) && c.0 in refs && refs[c.0] == c.1
  {
    var w := Written(refs, got);
    AllCommandsValidIff(branches, tags, valid);
    WrittenConcat(refs, got, rest);
    assert NoDuplicates(rest) by {
      assert forall i | 0 <= i < |rest| :: (got + rest)[|got| + i] == rest[i];
    }
    forall c | c in rest ensures SameAt(w, refs, c.0) {
      var j :| 0 <= j < |rest| && rest[j] == c;
      forall d | d in got ensures d.0 != c.0 {
        var i :| 0 <= i < |got| && got[i] == d;
        assert (got + rest)[i].0 != (got + rest)[|got| + j].0;
      }
      WrittenElsewhere(refs, got, c.0);
    }
    if forall c | c in got + rest :: valid(c.0, c.1) {
      BatchIsIndividual(refs, branches, tags, valid);
      assert Target(refs, branches, tags, valid) == Written(w, rest);
      forall c | c in rest ensures c.0 in Written(w, rest) && Written(w, rest)[c.0] == c.1 { WrittenHere(w, rest, c); }
    }
    if forall c | c in rest :: valid(c.0, c.1) && c.0 in refs && refs[c.0] == c.1 {
      assert forall c | c in got + rest :: c in got || c in rest;
      WrittenAgain(w, rest);
    }
  }
}
