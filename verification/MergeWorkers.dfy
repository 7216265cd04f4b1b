/** The worker pool of handler/mergePullRequest.go: one goroutine per event, a
    semaphore for at most three of them, and per pull request the write lock of
    the base repository and then that of the head repository.

    The locks are taken as the exclusive locks that module KeyedLocks shows
    them to be. */
module MergeWorkers {
  type Repo = nat
  type Worker = nat

  /** `mine`: CheckProvider accepts the event. */
  datatype Event = Event(base: Repo, head: Repo, mine: bool)

  datatype Pc =
    | Start      // blocked on the semaphore
    | Entered    // Process called
    | WantBase
    | WantHead   // holds base
    | Working    // holds base and head
    | HeadFree   // head unlocked, holds base
    | Leaving    // no lock left, still past the semaphore
    | Done

  datatype State = State(pcs: seq<Pc>, owner: map<Repo, Worker>, calls: seq<nat>)

  /** One step of worker `w`; `err` matters only for the pull request query. */
  datatype Action = Act(w: Worker, err: bool)

  function Init(ev: seq<Event>): State {
    State(seq(|ev|, _ => Start), map[], seq(|ev|, _ => 0))
  }

  function Cap(ev: seq<Event>): nat {
    if |ev| < 3 then |ev| else 3
  }

  predicate PastSemaphore(p: Pc) {
    !p.Start? && !p.Done?
  }

  function Busy(st: State): set<Worker> {
    set w | 0 <= w < |st.pcs| && PastSemaphore(st.pcs[w])
  }

  predicate Sized(ev: seq<Event>, st: State) {
    |st.pcs| == |st.calls| == |ev|
  }

  predicate Enabled(ev: seq<Event>, st: State, a: Action)
    requires Sized(ev, st)
  {
    && a.w < |ev|
    && match st.pcs[a.w]
       case Start => |Busy(st)| < Cap(ev)
       case WantBase => ev[a.w].base !in st.owner
       case WantHead => ev[a.w].head !in st.owner
       case Done => false
       case _ => true
  }

  function Apply(ev: seq<Event>, st: State, a: Action): State
    requires Sized(ev, st) && Enabled(ev, st, a)
  {
    var e := ev[a.w];
    match st.pcs[a.w]
    case Start => st.(pcs := st.pcs[a.w := Entered], calls := st.calls[a.w := st.calls[a.w] + 1])
    case Entered =>
      // not this provider's event, or the query failed: return before locking
      st.(pcs := st.pcs[a.w := if !e.mine || a.err then Leaving else WantBase])
    case WantBase =>
      st.(pcs := st.pcs[a.w := if e.base != e.head then WantHead else Working], owner := st.owner[e.base := a.w])
    case WantHead => st.(pcs := st.pcs[a.w := Working], owner := st.owner[e.head := a.w])
    case Working =>
      // deferred calls run in reverse order: head first
      st.(pcs := st.pcs[a.w := HeadFree], owner := if e.base != e.head then st.owner - {e.head} else st.owner)
    case HeadFree => st.(pcs := st.pcs[a.w := Leaving], owner := st.owner - {e.base})
    case Leaving => st.(pcs := st.pcs[a.w := Done])
    case Done => st
  }

  predicate Legal(ev: seq<Event>, st: State, acts: seq<Action>)
    requires Sized(ev, st)
    decreases |acts|
  {
    acts == [] || (Enabled(ev, st, acts[0]) && Legal(ev, Apply(ev, st, acts[0]), acts[1..]))
  }

  function End(ev: seq<Event>, st: State, acts: seq<Action>): (r: State)
    requires Sized(ev, st) && Legal(ev, st, acts)
    ensures Sized(ev, r)
    decreases |acts|
  {
    if acts == [] then st else End(ev, Apply(ev, st, acts[0]), acts[1..])
  }

  predicate AllDone(st: State) {
    forall w | 0 <= w < |st.pcs| :: st.pcs[w].Done?
  }

  // ----- the invariant -------------------------------------------------

  predicate Holds(p: Pc, e: Event, r: Repo) {
    || (r == e.base && (p.WantHead? || p.Working? || p.HeadFree?))
    || (r == e.head && p.Working?)
  }

  predicate GoodWorker(p: Pc, e: Event, calls: nat) {
    && (p.WantBase? || p.WantHead? || p.Working? || p.HeadFree? ==> e.mine)
    && (p.WantHead? ==> e.base != e.head)
    && calls == (if p.Start? then 0 else 1)
  }

  ghost predicate Inv(ev: seq<Event>, st: State) {
    && Sized(ev, st)
    && (forall w | 0 <= w < |ev| :: GoodWorker(st.pcs[w], ev[w], st.calls[w]))
    && Owners(ev, st)
    && |Busy(st)| <= Cap(ev)
  }

  /** The lock table says exactly who is where. */
  ghost predicate Owners(ev: seq<Event>, st: State)
    requires Sized(ev, st)
  {
    && (forall r | r in st.owner :: st.owner[r] < |ev| && Holds(st.pcs[st.owner[r]], ev[st.owner[r]], r))
    && (forall w, r | 0 <= w < |ev| && Holds(st.pcs[w], ev[w], r) :: r in st.owner && st.owner[r] == w)
  }

  lemma BusyMove(st: State, st': State, w: Worker)
    requires w < |st.pcs| && |st'.pcs| == |st.pcs| && st'.pcs == st.pcs[w := st'.pcs[w]]
    ensures |Busy(st')| - |Busy(st)|
         == (if PastSemaphore(st'.pcs[w]) then 1 else 0) - (if PastSemaphore(st.pcs[w]) then 1 else 0)
  {
    assert Busy(st') - {w} == Busy(st) - {w};
    assert |Busy(st) - {w}| == |Busy(st)| - if w in Busy(st) then 1 else 0;
    assert |Busy(st') - {w}| == |Busy(st')| - if w in Busy(st') then 1 else 0;
  }

  lemma OwnersHold(ev: seq<Event>, st: State, a: Action, r: Repo)
    requires Sized(ev, st) && Owners(ev, st) && Enabled(ev, st, a) && GoodWorker(st.pcs[a.w], ev[a.w], st.calls[a.w])
    requires r in Apply(ev, st, a).owner
    ensures var st' := Apply(ev, st, a); st'.owner[r] < |ev| && Holds(st'.pcs[st'.owner[r]], ev[st'.owner[r]], r)
  {
    if r in st.owner { assert Holds(st.pcs[st.owner[r]], ev[st.owner[r]], r); }
  }

  lemma HoldersOwn(ev: seq<Event>, st: State, a: Action, w: Worker, r: Repo)
    requires Sized(ev, st) && Owners(ev, st) && Enabled(ev, st, a) && GoodWorker(st.pcs[a.w], ev[a.w], st.calls[a.w])
    requires w < |ev| && Holds(Apply(ev, st, a).pcs[w], ev[w], r)
    ensures var st' := Apply(ev, st, a); r in st'.owner && st'.owner[r] == w
  {
    if Holds(st.pcs[w], ev[w], r) { assert r in st.owner && st.owner[r] == w; }
  }

  lemma StepKeepsOwners(ev: seq<Event>, st: State, a: Action)
    requires Sized(ev, st) && Owners(ev, st) && Enabled(ev, st, a) && GoodWorker(st.pcs[a.w], ev[a.w], st.calls[a.w])
    ensures Owners(ev, Apply(ev, st, a))
  {
    var st' := Apply(ev, st, a);
    forall r | r in st'.owner
      ensures st'.owner[r] < |ev| && Holds(st'.pcs[st'.owner[r]], ev[st'.owner[r]], r)
    {
      OwnersHold(ev, st, a, r);
    }
    forall w, r | 0 <= w < |ev| && Holds(st'.pcs[w], ev[w], r)
      ensures r in st'.owner && st'.owner[r] == w
    {
      HoldersOwn(ev, st, a, w, r);
    }
  }

  lemma StepKeepsInv(ev: seq<Event>, st: State, a: Action)
    requires Inv(ev, st) && Enabled(ev, st, a)
    ensures Inv(ev, Apply(ev, st, a))
  {
    StepKeepsOwners(ev, st, a);
    BusyMove(st, Apply(ev, st, a), a.w);
  }

  lemma InitInv(ev: seq<Event>)
    ensures Inv(ev, Init(ev))
  {
    assert Busy(Init(ev)) == {};
  }

  lemma {:induction false} RunKeepsInv(ev: seq<Event>, st: State, acts: seq<Action>)
    requires Inv(ev, st) && Legal(ev, st, acts)
    ensures Inv(ev, End(ev, st, acts))
    decreases |acts|
  {
    if acts != [] {
      StepKeepsInv(ev, st, acts[0]);
      RunKeepsInv(ev, Apply(ev, st, acts[0]), acts[1..]);
    }
  }

  // ----- deadlock ------------------------------------------------------

  /** The repository whose lock worker `w` is blocked on. */
  function Wanted(p: Pc, e: Event): Repo
    requires p.WantBase? || p.WantHead?
  {
    if p.WantBase? then e.base else e.head
  }

  /** Worker `w` waits for a lock that another member of `d` has. */
  predicate BlockedIn(ev: seq<Event>, st: State, d: set<Worker>, w: Worker)
    requires Sized(ev, st)
  {
    && w < |ev|
    && (st.pcs[w].WantBase? || st.pcs[w].WantHead?)
    && Wanted(st.pcs[w], ev[w]) in st.owner
    && st.owner[Wanted(st.pcs[w], ev[w])] in d
  }

  ghost predicate Deadlocked(ev: seq<Event>, st: State, d: set<Worker>)
    requires Sized(ev, st)
  {
    d != {} && forall w {:trigger BlockedIn(ev, st, d, w)} | w in d :: BlockedIn(ev, st, d, w)
  }

  /** Two pull requests in opposite directions, or three in a ring. */
  predicate Edge(ev: seq<Event>, i: nat, j: nat) {
    i < |ev| && j < |ev| && ev[i].mine && ev[i].base != ev[i].head && ev[i].head == ev[j].base
  }

  ghost predicate Pair(ev: seq<Event>, i: nat, j: nat) {
    Edge(ev, i, j) && Edge(ev, j, i)
  }

  ghost predicate Ring(ev: seq<Event>, i: nat, j: nat, k: nat) {
    Edge(ev, i, j) && Edge(ev, j, k) && Edge(ev, k, i)
  }

  ghost predicate ShortCycle(ev: seq<Event>) {
    (exists i, j :: Pair(ev, i, j)) || (exists i, j, k :: Ring(ev, i, j, k))
  }

  /** A step of one worker leaves the locks of the others alone. */
  lemma ForeignLock(ev: seq<Event>, st: State, a: Action, r: Repo)
    requires Sized(ev, st) && Owners(ev, st) && Enabled(ev, st, a)
    requires r in st.owner && st.owner[r] != a.w
    ensures r in Apply(ev, st, a).owner && Apply(ev, st, a).owner[r] == st.owner[r]
  {
    var p, e := st.pcs[a.w], ev[a.w];
    assert !Holds(p, e, r);
  }

  /** A deadlocked set stays deadlocked, so its events are never finished. */
  lemma DeadlockIsStable(ev: seq<Event>, st: State, d: set<Worker>, a: Action)
    requires Sized(ev, st) && Owners(ev, st) && Deadlocked(ev, st, d) && Enabled(ev, st, a)
    ensures Deadlocked(ev, Apply(ev, st, a), d)
  {
    var st' := Apply(ev, st, a);
    assert a.w in d ==> BlockedIn(ev, st, d, a.w);
    forall w | w in d ensures BlockedIn(ev, st', d, w) {
      assert BlockedIn(ev, st, d, w);
      ForeignLock(ev, st, a, Wanted(st.pcs[w], ev[w]));
    }
  }

  lemma {:induction false} DeadlockIsForever(ev: seq<Event>, st: State, d: set<Worker>, acts: seq<Action>)
    requires Inv(ev, st) && Deadlocked(ev, st, d) && Legal(ev, st, acts)
    ensures Deadlocked(ev, End(ev, st, acts), d) && !AllDone(End(ev, st, acts))
    decreases |acts|
  {
    if acts == [] {
      var w :| w in d;
      assert BlockedIn(ev, st, d, w);
    } else {
      StepKeepsInv(ev, st, acts[0]);
      DeadlockIsStable(ev, st, d, acts[0]);
      DeadlockIsForever(ev, Apply(ev, st, acts[0]), d, acts[1..]);
    }
  }

  // ----- stuck states are deadlocks of two or three --------------------

  ghost predicate Stuck(ev: seq<Event>, st: State)
    requires Sized(ev, st)
  {
    !AllDone(st) && forall a :: !Enabled(ev, st, a)
  }

  lemma BlockedByBusy(ev: seq<Event>, st: State, w: Worker)
    requires Sized(ev, st) && Owners(ev, st)
    requires w in Busy(st) && !Enabled(ev, st, Act(w, false))
    ensures BlockedIn(ev, st, Busy(st), w)
  {
    var r := Wanted(st.pcs[w], ev[w]);
    assert Holds(st.pcs[st.owner[r]], ev[st.owner[r]], r);
  }

  /** Everybody past the semaphore is blocked, each by another who waits for its head. */
  lemma StuckIsDeadlocked(ev: seq<Event>, st: State)
    requires Inv(ev, st) && Stuck(ev, st)
    ensures Deadlocked(ev, st, Busy(st))
  {
    var w0 :| 0 <= w0 < |ev| && !st.pcs[w0].Done?;
    assert !Enabled(ev, st, Act(w0, false));
    if st.pcs[w0].Start? { assert Busy(st) != {}; } else { assert w0 in Busy(st); }
    forall w | w in Busy(st) ensures BlockedIn(ev, st, Busy(st), w) {
      assert !Enabled(ev, st, Act(w, false));
      BlockedByBusy(ev, st, w);
    }
  }

  /** The blocker of a member is a member that holds its base and wants its head. */
  lemma Blocker(ev: seq<Event>, st: State, d: set<Worker>, w: Worker) returns (n: Worker)
    requires Inv(ev, st) && Deadlocked(ev, st, d) && w in d
    ensures n in d && n < |ev| && st.pcs[n].WantHead? && w < |ev|
    ensures st.pcs[w].WantHead? ==> Edge(ev, w, n)
  {
    assert BlockedIn(ev, st, d, w);
    var r := Wanted(st.pcs[w], ev[w]);
    n := st.owner[r];
    assert Holds(st.pcs[n], ev[n], r) && BlockedIn(ev, st, d, n);
    assert GoodWorker(st.pcs[w], ev[w], st.calls[w]);
  }

  lemma FourMembers(s: set<Worker>, a: Worker, b: Worker, c: Worker, d: Worker)
    requires a in s && b in s && c in s && d in s && |s| <= 3
    ensures a == b || a == c || a == d || b == c || b == d || c == d
  {
    var rest := s - {a, b, c};
    if a != b && a != c && b != c {
      assert s == {a, b, c} + rest;
      assert |{a, b, c}| == 3;
      assert |rest| == 0;
    }
  }

  lemma EdgesClose(ev: seq<Event>, d: set<Worker>, n1: Worker, n2: Worker, n3: Worker, n4: Worker)
    requires |d| <= 3 && n1 in d && n2 in d && n3 in d && n4 in d
    requires Edge(ev, n1, n2) && Edge(ev, n2, n3) && Edge(ev, n3, n4)
    ensures ShortCycle(ev)
  {
    FourMembers(d, n1, n2, n3, n4);
    if n1 == n3 {
      assert Pair(ev, n1, n2);
    } else if n2 == n4 {
      assert Pair(ev, n2, n3);
    } else {
      assert Ring(ev, n1, n2, n3);
    }
  }

  lemma StuckHasShortCycle(ev: seq<Event>, st: State)
    requires Inv(ev, st) && Stuck(ev, st)
    ensures ShortCycle(ev)
  {
    StuckIsDeadlocked(ev, st);
    var d := Busy(st);
    var w :| w in d;
    var n1 := Blocker(ev, st, d, w);
    var n2 := Blocker(ev, st, d, n1);
    var n3 := Blocker(ev, st, d, n2);
    var n4 := Blocker(ev, st, d, n3);
    EdgesClose(ev, d, n1, n2, n3, n4);
  }

  // ----- without a short cycle every run can be finished ---------------

  function Rank(p: Pc): nat {
    match p
    case Start => 7 case Entered => 6 case WantBase => 5 case WantHead => 4
    case Working => 3 case HeadFree => 2 case Leaving => 1 case Done => 0
  }

  /** Steps still possible, an upper bound. */
  function Total(pcs: seq<Pc>): nat {
    if pcs == [] then 0 else Rank(pcs[0]) + Total(pcs[1..])
  }

  lemma TotalUpdate(pcs: seq<Pc>, w: nat, p: Pc)
    requires w < |pcs|
    ensures Total(pcs[w := p]) == Total(pcs) - Rank(pcs[w]) + Rank(p)
  {
    if w > 0 {
      assert pcs[w := p][1..] == pcs[1..][w - 1 := p];
      TotalUpdate(pcs[1..], w - 1, p);
    } else {
      assert pcs[w := p][1..] == pcs[1..];
    }
  }

  lemma StepProgresses(ev: seq<Event>, st: State, a: Action)
    requires Sized(ev, st) && Enabled(ev, st, a)
    ensures Total(Apply(ev, st, a).pcs) < Total(st.pcs)
  {
    TotalUpdate(st.pcs, a.w, Apply(ev, st, a).pcs[a.w]);
  }

  /** Runs are finite: any schedule makes at most seven steps per event. */
  lemma {:induction false} RunsAreBounded(ev: seq<Event>, st: State, acts: seq<Action>)
    requires Sized(ev, st) && Legal(ev, st, acts)
    ensures |acts| + Total(End(ev, st, acts).pcs) <= Total(st.pcs)
    decreases |acts|
  {
    if acts != [] {
      StepProgresses(ev, st, acts[0]);
      RunsAreBounded(ev, Apply(ev, st, acts[0]), acts[1..]);
    }
  }

  /** Every event is processed at most once at any time, and exactly once at the end. */
  lemma ProcessedOnce(ev: seq<Event>, acts: seq<Action>, w: Worker)
    requires Legal(ev, Init(ev), acts) && w < |ev|
    ensures End(ev, Init(ev), acts).calls[w] <= 1
    ensures End(ev, Init(ev), acts).pcs[w].Done? ==> End(ev, Init(ev), acts).calls[w] == 1
  {
    InitInv(ev);
    RunKeepsInv(ev, Init(ev), acts);
    assert GoodWorker(End(ev, Init(ev), acts).pcs[w], ev[w], End(ev, Init(ev), acts).calls[w]);
  }

  lemma WorkerOwns(ev: seq<Event>, st: State, w: Worker)
    requires Inv(ev, st) && w < |ev| && st.pcs[w].Working?
    ensures ev[w].mine
    ensures ev[w].base in st.owner && st.owner[ev[w].base] == w
    ensures ev[w].head in st.owner && st.owner[ev[w].head] == w
  {
    assert GoodWorker(st.pcs[w], ev[w], st.calls[w]);
    assert Holds(st.pcs[w], ev[w], ev[w].base) && Holds(st.pcs[w], ev[w], ev[w].head);
  }

  /** While a worker is at its pull request, nobody else is at one with a repository in
      common. */
  lemma WorkingIsExclusive(ev: seq<Event>, acts: seq<Action>, v: Worker, w: Worker)
    requires Legal(ev, Init(ev), acts) && v < |ev| && w < |ev| && v != w
    requires End(ev, Init(ev), acts).pcs[v].Working? && End(ev, Init(ev), acts).pcs[w].Working?
    ensures ev[v].mine && ev[w].mine
    ensures {ev[v].base, ev[v].head} !! {ev[w].base, ev[w].head}
  {
    InitInv(ev);
    RunKeepsInv(ev, Init(ev), acts);
    WorkerOwns(ev, End(ev, Init(ev), acts), v);
    WorkerOwns(ev, End(ev, Init(ev), acts), w);
  }

  ghost predicate CanFinishFrom(ev: seq<Event>, st: State)
    requires Sized(ev, st)
  {
    exists more :: Legal(ev, st, more) && AllDone(End(ev, st, more))
  }

  lemma {:induction false} AcyclicFinishes(ev: seq<Event>, st: State)
    requires Inv(ev, st) && !ShortCycle(ev)
    ensures CanFinishFrom(ev, st)
    decreases Total(st.pcs)
  {
    if AllDone(st) {
      assert Legal(ev, st, []) && AllDone(End(ev, st, []));
    } else {
      if Stuck(ev, st) { StuckHasShortCycle(ev, st); }
      var a :| Enabled(ev, st, a);
      var st' := Apply(ev, st, a);
      StepKeepsInv(ev, st, a);
      StepProgresses(ev, st, a);
      AcyclicFinishes(ev, st');
      var more :| Legal(ev, st', more) && AllDone(End(ev, st', more));
      var all := [a] + more;
      assert all[1..] == more;
      assert Legal(ev, st, all) && AllDone(End(ev, st, all));
    }
  }

  // ----- with one, some run deadlocks ----------------------------------

  lemma {:induction false} Concat(ev: seq<Event>, st: State, a: seq<Action>, b: seq<Action>)
    requires Sized(ev, st) && Legal(ev, st, a) && Legal(ev, End(ev, st, a), b)
    ensures Legal(ev, st, a + b) && End(ev, st, a + b) == End(ev, End(ev, st, a), b)
    decreases |a|
  {
    if a == [] {
      assert a + b == b;
    } else {
      assert (a + b)[0] == a[0] && (a + b)[1..] == a[1..] + b;
      Concat(ev, Apply(ev, st, a[0]), a[1..], b);
    }
  }

  /** Worker `w` gets past the semaphore and takes its base lock. */
  lemma GrabBase(ev: seq<Event>, acts: seq<Action>, w: Worker) returns (acts': seq<Action>)
    requires Legal(ev, Init(ev), acts)
    requires var st := End(ev, Init(ev), acts);
      w < |ev| && ev[w].mine && ev[w].base != ev[w].head
      && st.pcs[w].Start? && |Busy(st)| < Cap(ev) && ev[w].base !in st.owner
    ensures Legal(ev, Init(ev), acts')
    ensures var st, st' := End(ev, Init(ev), acts), End(ev, Init(ev), acts');
      && st'.pcs == st.pcs[w := WantHead]
      && st'.owner == st.owner[ev[w].base := w]
      && |Busy(st')| == |Busy(st)| + 1
  {
    var st := End(ev, Init(ev), acts);
    var a := Act(w, false);
    var s1 := Apply(ev, st, a);
    var s2 := Apply(ev, s1, a);
    var s3 := Apply(ev, s2, a);
    assert Legal(ev, s3, []);
    assert [a][1..] == [] && Legal(ev, s2, [a]) && End(ev, s2, [a]) == s3;
    assert [a, a][1..] == [a] && Legal(ev, s1, [a, a]) && End(ev, s1, [a, a]) == s3;
    assert [a, a, a][1..] == [a, a] && Legal(ev, st, [a, a, a]) && End(ev, st, [a, a, a]) == s3;
    Concat(ev, Init(ev), acts, [a, a, a]);
    acts' := acts + [a, a, a];
    assert s3.pcs == st.pcs[w := WantHead];
    BusyMove(st, s3, w);
  }

  lemma PairDeadlocks(ev: seq<Event>, i: nat, j: nat) returns (acts: seq<Action>)
    requires Pair(ev, i, j)
    ensures Legal(ev, Init(ev), acts) && Deadlocked(ev, End(ev, Init(ev), acts), {i, j})
  {
    assert Busy(Init(ev)) == {};
    acts := GrabBase(ev, [], i);
    acts := GrabBase(ev, acts, j);
    var st := End(ev, Init(ev), acts);
    assert BlockedIn(ev, st, {i, j}, i) && BlockedIn(ev, st, {i, j}, j);
  }

  lemma RingDeadlocks(ev: seq<Event>, i: nat, j: nat, k: nat) returns (acts: seq<Action>)
    requires Ring(ev, i, j, k)
    ensures Legal(ev, Init(ev), acts) && exists d :: Deadlocked(ev, End(ev, Init(ev), acts), d)
  {
    assert Busy(Init(ev)) == {};
    assert i != j && j != k && k != i;
    acts := GrabBase(ev, [], i);
    acts := GrabBase(ev, acts, j);
    acts := GrabBase(ev, acts, k);
    var st := End(ev, Init(ev), acts);
    assert BlockedIn(ev, st, {i, j, k}, i) && BlockedIn(ev, st, {i, j, k}, j) && BlockedIn(ev, st, {i, j, k}, k);
    assert Deadlocked(ev, st, {i, j, k});
  }

  // ----- main result ---------------------------------------------------

  /** From every state of every run all events can still be finished. */
  ghost predicate DeadlockFree(ev: seq<Event>) {
    forall acts | Legal(ev, Init(ev), acts) :: CanFinishFrom(ev, End(ev, Init(ev), acts))
  }

  /** The pool is free of deadlock exactly when no two of the provider's pull
      requests are opposite and no three form a ring.  Longer cycles are
      harmless because only three workers get past the semaphore. */
  lemma DeadlockFreeIff(ev: seq<Event>)
    ensures DeadlockFree(ev) <==> !ShortCycle(ev)
  {
    InitInv(ev);
    if ShortCycle(ev) {
      var acts: seq<Action>, d: set<Worker>;
      if i, j :| Pair(ev, i, j) {
        acts := PairDeadlocks(ev, i, j);
        d := {i, j};
      } else {
        var i, j, k :| Ring(ev, i, j, k);
        acts := RingDeadlocks(ev, i, j, k);
        d :| Deadlocked(ev, End(ev, Init(ev), acts), d);
      }
      RunKeepsInv(ev, Init(ev), acts);
      forall more | Legal(ev, End(ev, Init(ev), acts), more)
        ensures !AllDone(End(ev, End(ev, Init(ev), acts), more))
      {
        DeadlockIsForever(ev, End(ev, Init(ev), acts), d, more);
      }
      assert !CanFinishFrom(ev, End(ev, Init(ev), acts));
    } else {
      forall acts | Legal(ev, Init(ev), acts)
        ensures CanFinishFrom(ev, End(ev, Init(ev), acts))
      {
        RunKeepsInv(ev, Init(ev), acts);
        AcyclicFinishes(ev, End(ev, Init(ev), acts));
      }
    }
  }

  /** Without a short cycle any schedule that runs until nothing is enabled ends
      with every event processed exactly once; it takes at most seven steps each. */
  lemma {:induction false} MaximalRunsProcessAll(ev: seq<Event>, acts: seq<Action>)
    requires !ShortCycle(ev) && Legal(ev, Init(ev), acts)
    requires forall a :: !Enabled(ev, End(ev, Init(ev), acts), a)
    ensures forall w | 0 <= w < |ev| :: End(ev, Init(ev), acts).calls[w] == 1
    ensures |acts| <= 7 * |ev|
  {
    var st := End(ev, Init(ev), acts);
    InitInv(ev);
    RunKeepsInv(ev, Init(ev), acts);
    if !AllDone(st) { StuckHasShortCycle(ev, st); }
    forall w | 0 <= w < |ev| ensures st.calls[w] == 1 { ProcessedOnce(ev, acts, w); }
    RunsAreBounded(ev, Init(ev), acts);
    TotalOfStarts(Init(ev).pcs);
  }

  lemma {:induction false} TotalOfStarts(pcs: seq<Pc>)
    requires forall p | p in pcs :: p.Start?
    ensures Total(pcs) == 7 * |pcs|
  {
    if pcs != [] { TotalOfStarts(pcs[1..]); }
  }
}
