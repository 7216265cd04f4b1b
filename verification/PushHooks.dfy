/** The pre-receive and post-receive hooks around a single-ref push
    (hooks/utils/input.go, hooks/gitopia-pre-receive, hooks/gitopia-post-receive).
    Pushes to one repository are serialised by its write lock. */
module PushHooks {
  import opened Wrappers
  import opened CommitGraph

  const ZERO_SHA: Sha := "0000000000000000000000000000000000000000"

  datatype Action = PushAction | CreateAction | DeleteAction

  datatype Input = Input(action: Action, oldRev: Sha, newRev: Sha, ref: string, refType: string, refName: string)

  // ----- parsing the hook line -----------------------------------------

  /** strings.Split with a one-character separator. */
  function Split(s: string, sep: char): (r: seq<string>)
    ensures |r| >= 1
  {
    if s == "" then [""]
    else
      var rest := Split(s[1..], sep);
      if s[0] == sep then [""] + rest else [[s[0]] + rest[0]] + rest[1..]
  }

  function ParseHookAction(oldRev: Sha, newRev: Sha): Action {
    if oldRev == ZERO_SHA && newRev != ZERO_SHA then CreateAction
    else if oldRev != ZERO_SHA && newRev == ZERO_SHA then DeleteAction
    else PushAction
  }

  /** The first line of the hook's input.  A ref of fewer than three components
      makes the source index out of range, which also ends the hook with an error. */
  function Parse(line: string): Result<Input> {
    var chunks := Split(line, ' ');
    if |chunks| != 3 then Err("invalid hook input")
    else
      var refchunks := Split(chunks[2], '/');
      if |refchunks| < 3 then Err("index out of range")
      else Ok(Input(ParseHookAction(chunks[0], chunks[1]), chunks[0], chunks[1], chunks[2], refchunks[1], refchunks[2]))
  }

  function Spaces(s: string, sep: char): nat {
    if s == "" then 0 else Spaces(s[1..], sep) + if s[0] == sep then 1 else 0
  }

  lemma {:induction false} SplitCount(s: string, sep: char)
    ensures |Split(s, sep)| == Spaces(s, sep) + 1
  {
    if s != "" { SplitCount(s[1..], sep); }
  }

  /** A line is accepted exactly when it has three fields and its ref three components. */
  lemma ParseOkIff(line: string)
    ensures Parse(line).Ok? <==> Spaces(line, ' ') == 2 && Spaces(Split(line, ' ')[|Split(line, ' ')| - 1], '/') >= 2
  {
    SplitCount(line, ' ');
    SplitCount(Split(line, ' ')[|Split(line, ' ')| - 1], '/');
  }

  lemma {:induction false} SplitFirst(a: string, sep: char, b: string)
    requires sep !in a
    ensures Split(a + [sep] + b, sep) == [a] + Split(b, sep)
  {
    if a == "" {
      assert (a + [sep] + b)[1..] == b;
    } else {
      assert (a + [sep] + b)[1..] == a[1..] + [sep] + b;
      SplitFirst(a[1..], sep, b);
      assert [a[0]] + a[1..] == a;
    }
  }

  lemma {:induction false} SplitNone(a: string, sep: char)
    requires sep !in a
    ensures Split(a, sep) == [a]
  {
    if a != "" {
      SplitNone(a[1..], sep);
      assert [a[0]] + a[1..] == a;
    }
  }

  lemma SplitBranchRef(first: string, rest: string)
    requires '/' !in first && (rest == "" || rest[0] == '/')
    ensures var parts := Split("refs/heads/" + (first + rest), '/');
      |parts| >= 3 && parts[1] == "heads" && parts[2] == first
  {
    var name := first + rest;
    assert "refs/heads/" + name == "refs" + ['/'] + ("heads" + ['/'] + name);
    SplitFirst("refs", '/', "heads" + ['/'] + name);
    SplitFirst("heads", '/', name);
    if rest == "" {
      assert name == first;
      SplitNone(first, '/');
    } else {
      assert name == first + ['/'] + rest[1..];
      SplitFirst(first, '/', rest[1..]);
    }
  }

  lemma SplitThree(a: string, b: string, c: string)
    requires ' ' !in a && ' ' !in b && ' ' !in c
    ensures Split(a + [' '] + (b + [' '] + c), ' ') == [a, b, c]
  {
    SplitFirst(a, ' ', b + [' '] + c);
    SplitFirst(b, ' ', c);
    SplitNone(c, ' ');
  }

  function HookLine(oldRev: Sha, newRev: Sha, ref: string): string {
    oldRev + [' '] + (newRev + [' '] + ref)
  }

  function BranchRef(name: string): string {
    "refs/heads/" + name
  }

  /** Parse inverts the line git writes.  RefName is the whole branch name only
      if that has no slash; otherwise it is the name up to the first slash. */
  lemma ParseBranchLine(oldRev: Sha, newRev: Sha, first: string, rest: string)
    requires ' ' !in oldRev && ' ' !in newRev && ' ' !in first && ' ' !in rest && '/' !in first
    requires rest == "" || rest[0] == '/'
    ensures Parse(HookLine(oldRev, newRev, BranchRef(first + rest)))
         == Ok(Input(ParseHookAction(oldRev, newRev), oldRev, newRev, BranchRef(first + rest), "heads", first))
  {
    SplitThree(oldRev, newRev, BranchRef(first + rest));
    SplitBranchRef(first, rest);
  }

  // ----- the hooks -----------------------------------------------------

  /** `out` is what `git merge-base` printed, or None if it failed. */
  function IsForcePush(i: Input, out: Option<Sha>): Result<bool> {
    if i.oldRev == ZERO_SHA || i.newRev == ZERO_SHA then Ok(false)
    else if out.None? then Err("git merge base failed")
    else Ok(out.value != i.oldRev)
  }

  /** A push is a force push exactly when the old tip is not an ancestor of the new one. */
  lemma IsForcePushIff(g: Graph, i: Input, out: Option<Sha>)
    requires i.oldRev in g && i.newRev in g && i.oldRev != ZERO_SHA && i.newRev != ZERO_SHA
    requires MergeBase(g, i.oldRev, i.newRev, out)
    ensures IsForcePush(i, out).Err? <==> !Related(g, i.oldRev, i.newRev)
    ensures IsForcePush(i, out) == Ok(false) <==> Ancestor(g, i.oldRev, i.newRev)
  {
    MergeBaseIsOldIff(g, i.oldRev, i.newRev, out);
    if out.Some? { assert Common(g, i.oldRev, i.newRev, out.value); }
  }

  datatype BranchQuery = Found(allowForcePush: bool) | BranchNotFound | QueryFailed

  datatype Verdict = Accept | NonFastForward | HookError

  function PreReceive(i: Input, branch: BranchQuery, out: Option<Sha>): Verdict {
    match branch
    case BranchNotFound => Accept
    case QueryFailed => HookError
    case Found(true) => Accept
    case Found(false) =>
      match IsForcePush(i, out)
      case Err(_) => HookError
      case Ok(force) => if force then NonFastForward else Accept
  }

  const DANGLING := "refs/dangling/"

  predicate IsDangling(ref: string) {
    DANGLING <= ref
  }

  type Refs = map<string, Sha>

  function PostReceive(refs: Refs, i: Input, out: Option<Sha>): Refs {
    match IsForcePush(i, out)
    case Err(_) => refs
    case Ok(force) => if force || i.action.DeleteAction? then refs[DANGLING + i.oldRev := i.oldRev] else refs
  }

  /** git receive-pack between the hooks. */
  function UpdateRef(refs: Refs, i: Input): Refs {
    if i.newRev == ZERO_SHA then refs - {i.ref} else refs[i.ref := i.newRev]
  }

  /** The bare repository that the hooks run in. */
  class Repository {
    var graph: Graph
    var refs: Refs

    constructor (graph: Graph)
      ensures this.graph == graph && refs == map[]
    {
      this.graph := graph;
      refs := map[];
    }

    /** The post-receive hook as a process: it may write one ref. */
    method RunPostReceive(i: Input, out: Option<Sha>)
      modifies this`refs
      ensures refs == PostReceive(old(refs), i, out)
    {
      var force := IsForcePush(i, out);
      if force.Ok? && (force.value || i.action.DeleteAction?) {
        refs := refs[DANGLING + i.oldRev := i.oldRev];
      }
    }

    /** One push: objects arrive, pre-receive decides, the ref moves, post-receive runs. */
    method ReceivePack(i: Input, objects: Graph, branch: BranchQuery, out: Option<Sha>) returns (v: Verdict)
      modifies this
      ensures v == PreReceive(i, branch, out)
      ensures State(graph, refs) == Pushed(State(old(graph), old(refs)), Push(i, objects, branch, out))
    {
      v := PreReceive(i, branch, out);
      if v.Accept? {
        graph := objects;
        refs := UpdateRef(refs, i);
        RunPostReceive(i, out);
      }
    }
  }

  // ----- runs of pushes ------------------------------------------------

  datatype State = State(graph: Graph, refs: Refs)

  /** `objects` is the history including the pushed objects. */
  datatype Push = Push(input: Input, objects: Graph, branch: BranchQuery, out: Option<Sha>)

  function Pushed(s: State, p: Push): State {
    if PreReceive(p.input, p.branch, p.out).Accept? then
      State(p.objects, PostReceive(UpdateRef(s.refs, p.input), p.input, p.out))
    else s
  }

  /** What git guarantees of a push command that reaches the hooks. */
  ghost predicate LegalPush(s: State, p: Push) {
    var i := p.input;
    && i.action == ParseHookAction(i.oldRev, i.newRev)
    && i.oldRev != i.newRev
    && !IsDangling(i.ref)
    && (if i.ref in s.refs then i.oldRev == s.refs[i.ref] else i.oldRev == ZERO_SHA)
    && Extends(s.graph, p.objects) && Acyclic(p.objects) && ZERO_SHA !in p.objects
    && (i.newRev != ZERO_SHA ==> i.newRev in p.objects)
    && (i.oldRev != ZERO_SHA && i.newRev != ZERO_SHA ==> MergeBase(p.objects, i.oldRev, i.newRev, p.out))
  }

  ghost predicate Valid(s: State) {
    && ZERO_SHA !in s.graph
    && (forall r | r in s.refs :: s.refs[r] in s.graph)
    && (forall r | r in s.refs && IsDangling(r) :: r == DANGLING + s.refs[r])
  }

  /** Commits that some ref still reaches. */
  ghost predicate Reachable(s: State, c: Sha) {
    exists r :: r in s.refs && Ancestor(s.graph, c, s.refs[r])
  }

  ghost predicate Preserves(s: State, s': State) {
    forall c | Reachable(s, c) :: Reachable(s', c)
  }

  lemma PushKeepsValid(s: State, p: Push)
    requires Valid(s) && LegalPush(s, p)
    ensures Valid(Pushed(s, p))
  {
    var s' := Pushed(s, p);
    forall r | r in s'.refs && IsDangling(r) ensures r == DANGLING + s'.refs[r] {
      assert r == DANGLING + p.input.oldRev || (r in s.refs && s'.refs[r] == s.refs[r]);
    }
  }

  // ----- one push, by ancestry -----------------------------------------

  /** Both tips exist, so it is neither a creation nor a deletion. */
  predicate Moves(p: Push) {
    p.input.oldRev != ZERO_SHA && p.input.newRev != ZERO_SHA
  }

  /** The hook fails exactly when the query does, or when a protected branch gets an
      unrelated history; it refuses exactly to take a protected branch to a related tip that
      does not descend from the old one; it accepts everything else. */
  lemma VerdictIff(s: State, p: Push)
    requires Valid(s) && LegalPush(s, p)
    ensures var i, v := p.input, PreReceive(p.input, p.branch, p.out);
      var forbidden := p.branch == Found(false) && Moves(p);
      && (v == HookError <==> p.branch == QueryFailed || (forbidden && !Related(p.objects, i.oldRev, i.newRev)))
      && (v == NonFastForward <==>
            forbidden && Related(p.objects, i.oldRev, i.newRev) && !Ancestor(p.objects, i.oldRev, i.newRev))
  {
    if Moves(p) {
      IsForcePushIff(p.objects, p.input, p.out);
      AncestorsRelated(p.objects, p.input.oldRev, p.input.newRev);
    }
  }

  lemma AncestorsRelated(g: Graph, a: Sha, b: Sha)
    requires a in g
    ensures Ancestor(g, a, b) ==> Related(g, a, b)
  {
    AncestorRefl(g, a);
    assert Ancestor(g, a, b) ==> Common(g, a, b, a);
  }

  /** An accepted push moves its own ref. It adds a dangling ref to the old tip exactly for a
      deletion and for an update to a related tip that does not descend from the old one. */
  lemma AcceptedRefs(s: State, p: Push)
    requires Valid(s) && LegalPush(s, p) && PreReceive(p.input, p.branch, p.out).Accept?
    ensures var i := p.input;
      var moved := if i.newRev == ZERO_SHA then s.refs - {i.ref} else s.refs[i.ref := i.newRev];
      var dangles :=
        || i.newRev == ZERO_SHA
        || (Moves(p) && Related(p.objects, i.oldRev, i.newRev) && !Ancestor(p.objects, i.oldRev, i.newRev));
      Pushed(s, p) == State(p.objects, if dangles then moved["refs/dangling/" + i.oldRev := i.oldRev] else moved)
  {
    if Moves(p) {
      IsForcePushIff(p.objects, p.input, p.out);
      AncestorsRelated(p.objects, p.input.oldRev, p.input.newRev);
    }
  }

  /** Reaching the old tip is what preserves everything behind the moved ref. */
  lemma TipsSuffice(s: State, s': State)
    requires Valid(s) && Extends(s.graph, s'.graph)
    requires forall r | r in s.refs :: Reachable(s', s.refs[r])
    ensures Preserves(s, s')
  {
    forall c | Reachable(s, c) ensures Reachable(s', c) {
      var r :| r in s.refs && Ancestor(s.graph, c, s.refs[r]);
      AncestorMono(s.graph, s'.graph, c, s.refs[r]);
      var r' :| r' in s'.refs && Ancestor(s'.graph, s.refs[r], s'.refs[r']);
      AncestorTrans(s'.graph, c, s.refs[r], s'.refs[r']);
    }
  }

  lemma OthersKept(s: State, p: Push, r: string)
    requires Valid(s) && LegalPush(s, p) && PreReceive(p.input, p.branch, p.out).Accept?
    requires r in s.refs && r != p.input.ref
    ensures r in Pushed(s, p).refs && Pushed(s, p).refs[r] == s.refs[r]
  {
    if r == DANGLING + p.input.oldRev {
      assert r[|DANGLING|..] == p.input.oldRev;
      assert r == DANGLING + s.refs[r] && (DANGLING + s.refs[r])[|DANGLING|..] == s.refs[r];
    }
  }

  lemma TipReaches(s: State, r: string)
    requires Valid(s) && r in s.refs
    ensures Reachable(s, s.refs[r])
  {
    AncestorRefl(s.graph, s.refs[r]);
  }

  /** The push rewinds or replaces a ref with an unrelated history. */
  ghost predicate Unrelated(s: State, p: Push) {
    && PreReceive(p.input, p.branch, p.out).Accept?
    && p.input.action.PushAction?
    && !Related(p.objects, p.input.oldRev, p.input.newRev)
  }

  lemma RelatedPushPreserves(s: State, p: Push)
    requires Valid(s) && LegalPush(s, p) && !Unrelated(s, p)
    ensures Preserves(s, Pushed(s, p))
  {
    var s', i := Pushed(s, p), p.input;
    PushKeepsValid(s, p);
    if PreReceive(i, p.branch, p.out).Accept? {
      forall r | r in s.refs ensures Reachable(s', s.refs[r]) {
        if r != i.ref {
          OthersKept(s, p, r);
          TipReaches(s', r);
        } else if i.action.DeleteAction? {
          TipReaches(s', DANGLING + i.oldRev);
        } else {
          IsForcePushIff(p.objects, i, p.out);
          if IsForcePush(i, p.out) == Ok(false) {
            assert s'.refs[i.ref] == i.newRev;
          } else {
            TipReaches(s', DANGLING + i.oldRev);
          }
        }
      }
      TipsSuffice(s, s');
    }
  }

  /** Some ref that the push does not name reaches the old tip. */
  ghost predicate KeptElsewhere(s: State, p: Push) {
    exists r :: r in s.refs && r != p.input.ref && Ancestor(p.objects, p.input.oldRev, s.refs[r])
  }

  lemma UnrelatedPushPreservesIff(s: State, p: Push)
    requires Valid(s) && LegalPush(s, p) && Unrelated(s, p)
    ensures Preserves(s, Pushed(s, p)) <==> KeptElsewhere(s, p)
  {
    var s', i := Pushed(s, p), p.input;
    PushKeepsValid(s, p);
    IsForcePushIff(p.objects, i, p.out);
    assert s'.refs == s.refs[i.ref := i.newRev];
    TipReaches(s, i.ref);
    if KeptElsewhere(s, p) {
      forall r | r in s.refs ensures Reachable(s', s.refs[r]) {
        if r != i.ref { TipReaches(s', r); assert s'.refs[r] == s.refs[r]; }
        else {
          var k :| k in s.refs && k != i.ref && Ancestor(p.objects, i.oldRev, s.refs[k]);
          assert k in s'.refs && s'.refs[k] == s.refs[k];
        }
      }
      TipsSuffice(s, s');
    }
    if Preserves(s, s') {
      AncestorRefl(p.objects, i.oldRev);
      assert Ancestor(p.objects, i.oldRev, i.newRev) ==> Common(p.objects, i.oldRev, i.newRev, i.oldRev);
      var r :| r in s'.refs && Ancestor(p.objects, i.oldRev, s'.refs[r]);
      assert r != i.ref;
    }
  }

  /** A push loses no reachable commit unless it replaces a ref by an unrelated
      history and nothing else reaches the old tip; then it does. */
  lemma PushPreservesIff(s: State, p: Push)
    requires Valid(s) && LegalPush(s, p)
    ensures Preserves(s, Pushed(s, p)) <==> !Unrelated(s, p) || KeptElsewhere(s, p)
  {
    if Unrelated(s, p) { UnrelatedPushPreservesIff(s, p); } else { RelatedPushPreserves(s, p); }
  }

  /** Such a push: a branch that may be force pushed is replaced by another first commit. */
  lemma UnrelatedReplacementLoses(oldTip: Sha, newTip: Sha) returns (s: State, p: Push)
    requires oldTip != newTip && oldTip != ZERO_SHA && newTip != ZERO_SHA
    ensures Valid(s) && LegalPush(s, p) && p.branch == Found(true) && PreReceive(p.input, p.branch, p.out).Accept?
    ensures Reachable(s, oldTip) && !Reachable(Pushed(s, p), oldTip)
  {
    var ref := BranchRef("main");
    s := State(map[oldTip := {}], map[ref := oldTip]);
    var objects: Graph := map[oldTip := {}, newTip := {}];
    TwoRootsAcyclic(oldTip, newTip);
    BranchesNotDangling("main");
    forall c ensures !Common(objects, oldTip, newTip, c) {
      RootAncestor(objects, c, oldTip);
      RootAncestor(objects, c, newTip);
    }
    p := Push(Input(PushAction, oldTip, newTip, ref, "heads", "main"), objects, Found(true), None);
    TipReaches(s, ref);
    assert Pushed(s, p) == State(objects, map[ref := newTip]);
    RootAncestor(objects, oldTip, newTip);
  }

  ghost predicate StepAt(run: seq<State>, pushes: seq<Push>, n: int)
    requires |run| == |pushes| + 1
  {
    0 <= n < |pushes| ==> LegalPush(run[n], pushes[n]) && run[n + 1] == Pushed(run[n], pushes[n])
  }

  ghost predicate IsRun(run: seq<State>, pushes: seq<Push>) {
    |run| == |pushes| + 1 && Valid(run[0]) && forall n :: StepAt(run, pushes, n)
  }

  lemma {:induction false} RunValid(run: seq<State>, pushes: seq<Push>, n: nat)
    requires IsRun(run, pushes) && n < |run|
    ensures Valid(run[n])
  {
    if n > 0 {
      RunValid(run, pushes, n - 1);
      assert StepAt(run, pushes, n - 1);
      PushKeepsValid(run[n - 1], pushes[n - 1]);
    }
  }

  /** Whatever was reachable at any time of the run stays reachable from a ref
      or a dangling ref, through fast-forwards, force pushes and deletions. */
  lemma {:induction false} HistoryIsPreserved(run: seq<State>, pushes: seq<Push>, i: nat, j: nat)
    requires IsRun(run, pushes) && i <= j < |run|
    requires forall n | i <= n < j :: Unrelated(run[n], pushes[n]) ==> KeptElsewhere(run[n], pushes[n])
    ensures Preserves(run[i], run[j])
  {
    if i < j {
      HistoryIsPreserved(run, pushes, i, j - 1);
      RunValid(run, pushes, j - 1);
      assert StepAt(run, pushes, j - 1);
      PushPreservesIff(run[j - 1], pushes[j - 1]);
    }
  }

  // ----- protected branches --------------------------------------------

  /** The branches the chain knows, and whether they allow force pushes. */
  type Branches = map<string, bool>

  function Query(chain: Branches, name: string): BranchQuery {
    if name in chain then Found(chain[name]) else BranchNotFound
  }

  /** The hook parsed the push's own line and asked the chain. A line that cannot be parsed
      ends the hook with an error, as a query that fails does. */
  ghost predicate Hooked(p: Push, chain: Branches) {
    var parsed := Parse(HookLine(p.input.oldRev, p.input.newRev, p.input.ref));
    || p.branch == QueryFailed
    || (parsed == Ok(p.input) && p.branch == Query(chain, p.input.refName))
  }

  /** A non-fast-forward update of branch `first + rest` gets through exactly when the
      query succeeds and the chain does not protect `first`: a name with a slash is looked
      up only up to the slash. */
  lemma NonFastForwardAcceptedIff(s: State, p: Push, chain: Branches, first: string, rest: string)
    requires Valid(s) && LegalPush(s, p) && Hooked(p, chain) && p.input.action.PushAction?
    requires ' ' !in p.input.oldRev && ' ' !in p.input.newRev
    requires ' ' !in first && ' ' !in rest && '/' !in first && (rest == "" || rest[0] == '/')
    requires p.input.ref == BranchRef(first + rest)
    requires !Ancestor(p.objects, p.input.oldRev, p.input.newRev)
    ensures PreReceive(p.input, p.branch, p.out).Accept? <==> !p.branch.QueryFailed? && (first in chain ==> chain[first])
  {
    ParseBranchLine(p.input.oldRev, p.input.newRev, first, rest);
    IsForcePushIff(p.objects, p.input, p.out);
  }

  /** Such an update, for any branch with a slash that the chain protects: it goes back from
      its tip to the parent of its tip. */
  lemma SlashBranchRewound(first: string, rest: string, tip: Sha, parent: Sha) returns (s: State, p: Push, chain: Branches)
    requires tip != parent && tip != ZERO_SHA && parent != ZERO_SHA && ' ' !in tip && ' ' !in parent
    requires ' ' !in first && ' ' !in rest && '/' !in first && rest != "" && rest[0] == '/'
    ensures Valid(s) && LegalPush(s, p) && Hooked(p, chain)
    ensures first + rest in chain && !chain[first + rest] && p.input.ref == BranchRef(first + rest)
    ensures PreReceive(p.input, p.branch, p.out).Accept?
    ensures p.input.ref in s.refs && p.input.ref in Pushed(s, p).refs
    ensures !Ancestor(p.objects, s.refs[p.input.ref], Pushed(s, p).refs[p.input.ref])
  {
    var ref := BranchRef(first + rest);
    var objects: Graph := map[parent := {}, tip := {parent}];
    LineAcyclic(parent, tip);
    var out := MergeBaseExists(objects, tip, parent);
    s := State(objects, map[ref := tip]);
    chain := map[first + rest := false];
    BranchesNotDangling(first + rest);
    ParseBranchLine(tip, parent, first, rest);
    assert |first| < |first + rest|;
    p := Push(Input(PushAction, tip, parent, ref, "heads", first), objects, BranchNotFound, out);
    UpdatedRef(s, p);
  }

  lemma BranchesNotDangling(name: string)
    ensures !IsDangling(BranchRef(name))
  {
    assert BranchRef(name)[5] == 'h' && DANGLING[5] == 'd';
  }

  /** A ref that is not dangling ends where an accepted update puts it. */
  lemma UpdatedRef(s: State, p: Push)
    requires PreReceive(p.input, p.branch, p.out).Accept? && p.input.newRev != ZERO_SHA && !IsDangling(p.input.ref)
    ensures p.input.ref in Pushed(s, p).refs && Pushed(s, p).refs[p.input.ref] == p.input.newRev
  {
    assert IsDangling(DANGLING + p.input.oldRev);
  }

  lemma ProtectedStep(s: State, p: Push, chain: Branches, b: string)
    requires Valid(s) && LegalPush(s, p) && Hooked(p, chain)
    requires ' ' !in p.input.oldRev && ' ' !in p.input.newRev && ' ' !in b && '/' !in b
    requires b in chain && !chain[b]
    requires BranchRef(b) in s.refs && BranchRef(b) in Pushed(s, p).refs
    ensures Ancestor(Pushed(s, p).graph, s.refs[BranchRef(b)], Pushed(s, p).refs[BranchRef(b)])
  {
    var s', r := Pushed(s, p), BranchRef(b);
    PushKeepsValid(s, p);
    if !PreReceive(p.input, p.branch, p.out).Accept? {
      AncestorRefl(s.graph, s.refs[r]);
    } else if p.input.ref != r {
      OthersKept(s, p, r);
      AncestorRefl(s'.graph, s.refs[r]);
    } else {
      assert b == b + "" && r == BranchRef(b + "");
      if !Ancestor(p.objects, p.input.oldRev, p.input.newRev) {
        NonFastForwardAcceptedIff(s, p, chain, b, "");
      }
    }
  }

  /** A branch without a slash that the chain protects moves forward only,
      for as long as it exists. */
  lemma {:induction false} ProtectedBranchMovesForward(
    run: seq<State>, pushes: seq<Push>, chains: seq<Branches>, b: string, i: nat, j: nat)
    requires IsRun(run, pushes) && i <= j < |run| && |chains| == |pushes|
    requires ' ' !in b && '/' !in b
    requires forall n | i <= n <= j :: BranchRef(b) in run[n].refs
    requires forall n | i <= n < j ::
      && Hooked(pushes[n], chains[n]) && b in chains[n] && !chains[n][b]
      && ' ' !in pushes[n].input.oldRev && ' ' !in pushes[n].input.newRev
    ensures Ancestor(run[j].graph, run[i].refs[BranchRef(b)], run[j].refs[BranchRef(b)])
  {
    RunValid(run, pushes, j);
    if i == j {
      AncestorRefl(run[i].graph, run[i].refs[BranchRef(b)]);
    } else {
      ProtectedBranchMovesForward(run, pushes, chains, b, i, j - 1);
      RunValid(run, pushes, j - 1);
      assert StepAt(run, pushes, j - 1);
      var s, p := run[j - 1], pushes[j - 1];
      ProtectedStep(s, p, chains[j - 1], b);
      AncestorMono(s.graph, run[j].graph, run[i].refs[BranchRef(b)], s.refs[BranchRef(b)]);
      AncestorTrans(run[j].graph, run[i].refs[BranchRef(b)], s.refs[BranchRef(b)], run[j].refs[BranchRef(b)]);
    }
  }
}
