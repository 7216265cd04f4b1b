/** The keyed, reference-counted read/write locks of utils/cache.go as a
    transition system over their atomic steps.

    A session is one Lock ... Unlock (or RLock ... RUnlock) bracket; a goroutine
    that nests two locks runs two sessions.  Every atomic access of the source
    is one step: the table lookup, the counter increment, the mutex
    acquisition, the second lookup made by Unlock, the counter check, the mutex
    release, the decrement, and (for a last reader) the load of the write count. */
module KeyedLocks {
  type Key = nat
  type Session = nat
  type Ref = nat  // identity of one *RefCountedRWMutex

  datatype Mode = Read | Write

  datatype Mutex = Mutex(readCount: int, writeCount: int, readers: nat, writer: bool)

  datatype Pc =
    | Found(mode: Mode, key: Key, ref: Ref)                  // Lock looked the key up
    | Waiting(mode: Mode, key: Key, ref: Ref)                // counted, blocked in mu.Lock or mu.RLock
    | Held(mode: Mode, key: Key, ref: Ref)
    | Refound(mode: Mode, key: Key, ref: Ref, again: Ref)    // Unlock looked the key up again
    | Checked(mode: Mode, key: Key, ref: Ref, again: Ref)    // the count was positive
    | Released(mode: Mode, key: Key, ref: Ref, again: Ref)   // mutex released, still counted
    | LastReader(mode: Mode, key: Key, ref: Ref, again: Ref) // read count reached zero

  datatype State = State(
    table: map<Key, Ref>,       // repoMutexes
    heap: map<Ref, Mutex>,
    pcs: map<Session, Pc>,      // sessions in progress
    timers: multiset<Key>,      // scheduled clean-up goroutines
    crashed: bool)              // unlock of an unlocked mutex is fatal in Go

  datatype Action =
    | Lookup(s: Session, mode: Mode, key: Key, slot: Ref)
    | Count(s: Session)
    | Acquire(s: Session)
    | Relookup(s: Session, slot: Ref)
    | Check(s: Session)
    | Unlock(s: Session)
    | Uncount(s: Session)
    | LoadWriters(s: Session)
    | Reap(key: Key)

  const INIT := State(map[], map[], map[], multiset{}, false)

  // ----- steps ---------------------------------------------------------

  function CountOf(x: Mutex, m: Mode): int {
    if m.Read? then x.readCount else x.writeCount
  }

  function AddCount(x: Mutex, m: Mode, d: int): Mutex {
    if m.Read? then x.(readCount := x.readCount + d) else x.(writeCount := x.writeCount + d)
  }

  /** sync.RWMutex: a writer needs the mutex empty, a reader needs no writer. */
  predicate CanAcquire(x: Mutex, m: Mode) {
    !x.writer && (m.Write? ==> x.readers == 0)
  }

  function Taken(x: Mutex, m: Mode): Mutex {
    if m.Read? then x.(readers := x.readers + 1) else x.(writer := true)
  }

  predicate IsLocked(x: Mutex, m: Mode) {
    if m.Read? then x.readers > 0 else x.writer
  }

  function Freed(x: Mutex, m: Mode): Mutex
    requires IsLocked(x, m)
  {
    if m.Read? then x.(readers := x.readers - 1) else x.(writer := false)
  }

  /** sync.Map.LoadOrStore of a zero mutex. */
  function LoadOrStore(st: State, k: Key, slot: Ref): State {
    if k in st.table then st
    else st.(table := st.table[k := slot], heap := st.heap[slot := Mutex(0, 0, 0, false)])
  }

  predicate Enabled(st: State, a: Action) {
    && !st.crashed
    && match a
       case Lookup(s, _, k, slot) => s !in st.pcs && (k in st.table || slot !in st.heap)
       case Count(s) => s in st.pcs && st.pcs[s].Found? && st.pcs[s].ref in st.heap
       case Acquire(s) => s in st.pcs && st.pcs[s].Waiting? && st.pcs[s].ref in st.heap
                          && CanAcquire(st.heap[st.pcs[s].ref], st.pcs[s].mode)
       case Relookup(s, slot) => s in st.pcs && st.pcs[s].Held? && (st.pcs[s].key in st.table || slot !in st.heap)
       case Check(s) => s in st.pcs && st.pcs[s].Refound? && st.pcs[s].again in st.heap
       case Unlock(s) => s in st.pcs && st.pcs[s].Checked? && st.pcs[s].again in st.heap
       case Uncount(s) => s in st.pcs && st.pcs[s].Released? && st.pcs[s].again in st.heap
       case LoadWriters(s) => s in st.pcs && st.pcs[s].LastReader? && st.pcs[s].again in st.heap
       case Reap(k) => k in st.timers
  }

  function Apply(st: State, a: Action): State
    requires Enabled(st, a)
  {
    match a
    case Lookup(s, m, k, slot) =>
      var st' := LoadOrStore(st, k, slot);
      st'.(pcs := st.pcs[s := Found(m, k, st'.table[k])])
    case Count(s) =>
      var p := st.pcs[s];
      st.(heap := st.heap[p.ref := AddCount(st.heap[p.ref], p.mode, 1)],
          pcs := st.pcs[s := Waiting(p.mode, p.key, p.ref)])
    case Acquire(s) =>
      var p := st.pcs[s];
      st.(heap := st.heap[p.ref := Taken(st.heap[p.ref], p.mode)],
          pcs := st.pcs[s := Held(p.mode, p.key, p.ref)])
    case Relookup(s, slot) =>
      var p := st.pcs[s];
      var st' := LoadOrStore(st, p.key, slot);
      st'.(pcs := st.pcs[s := Refound(p.mode, p.key, p.ref, st'.table[p.key])])
    case Check(s) =>
      var p := st.pcs[s];
      if CountOf(st.heap[p.again], p.mode) <= 0 then
        st.(pcs := st.pcs - {s})  // Unlock returns without unlocking
      else
        st.(pcs := st.pcs[s := Checked(p.mode, p.key, p.ref, p.again)])
    case Unlock(s) =>
      var p := st.pcs[s];
      if !IsLocked(st.heap[p.again], p.mode) then
        st.(crashed := true)
      else
        st.(heap := st.heap[p.again := Freed(st.heap[p.again], p.mode)],
            pcs := st.pcs[s := Released(p.mode, p.key, p.ref, p.again)])
    case Uncount(s) =>
      var p := st.pcs[s];
      var x := AddCount(st.heap[p.again], p.mode, -1);
      var st' := st.(heap := st.heap[p.again := x]);
      if CountOf(x, p.mode) != 0 then
        st'.(pcs := st.pcs - {s})
      else if p.mode.Read? then
        st'.(pcs := st.pcs[s := LastReader(p.mode, p.key, p.ref, p.again)])
      else
        st'.(pcs := st.pcs - {s}, timers := st.timers + multiset{p.key})
    case LoadWriters(s) =>
      var p := st.pcs[s];
      st.(pcs := st.pcs - {s},
          timers := if st.heap[p.again].writeCount == 0 then st.timers + multiset{p.key} else st.timers)
    case Reap(k) =>
      st.(table := st.table - {k}, timers := st.timers - multiset{k})
  }

  // ----- runs ----------------------------------------------------------

  /** No session has looked `k` up and not yet left its bracket. */
  predicate Unreferenced(st: State, k: Key) {
    forall s | s in st.pcs :: st.pcs[s].key != k
  }

  /** The hypothesis on the reaper: it fires only on unreferenced entries. */
  predicate Polite(st: State, a: Action) {
    a.Reap? ==> Unreferenced(st, a.key)
  }

  ghost predicate Next(st: State, st': State) {
    exists a :: Enabled(st, a) && Polite(st, a) && st' == Apply(st, a)
  }

  ghost predicate NextAt(run: seq<State>, i: int) {
    0 < i < |run| ==> Next(run[i - 1], run[i])
  }

  ghost predicate IsRun(run: seq<State>) {
    |run| > 0 && run[0] == INIT && forall i :: NextAt(run, i)
  }

  lemma ActionAt(run: seq<State>, i: nat) returns (a: Action)
    requires IsRun(run) && 0 < i < |run|
    ensures Enabled(run[i - 1], a) && Polite(run[i - 1], a) && run[i] == Apply(run[i - 1], a)
  {
    assert NextAt(run, i);
    a :| Enabled(run[i - 1], a) && Polite(run[i - 1], a) && run[i] == Apply(run[i - 1], a);
  }

  // ----- the invariant -------------------------------------------------

  predicate Holds(p: Pc, m: Mode, o: Ref) {
    p.mode == m && p.ref == o && (p.Held? || p.Refound? || p.Checked?)
  }

  predicate Counts(p: Pc, m: Mode, o: Ref) {
    Holds(p, m, o) || (p.mode == m && p.ref == o && (p.Waiting? || p.Released?))
  }

  ghost function Holders(pcs: map<Session, Pc>, m: Mode, o: Ref): set<Session> {
    set s | s in pcs && Holds(pcs[s], m, o)
  }

  ghost function Counted(pcs: map<Session, Pc>, m: Mode, o: Ref): set<Session> {
    set s | s in pcs && Counts(pcs[s], m, o)
  }

  ghost predicate GoodPc(st: State, p: Pc) {
    && p.key in st.table
    && st.table[p.key] == p.ref
    && (p.Refound? || p.Checked? || p.Released? || p.LastReader? ==> p.again == p.ref)
    && (p.LastReader? ==> p.mode.Read?)
  }

  ghost predicate GoodMutex(st: State, o: Ref)
    requires o in st.heap
  {
    var x := st.heap[o];
    && x.readCount == |Counted(st.pcs, Read, o)|
    && x.writeCount == |Counted(st.pcs, Write, o)|
    && x.readers == |Holders(st.pcs, Read, o)|
    && |Holders(st.pcs, Write, o)| == (if x.writer then 1 else 0)
    && (x.writer ==> x.readers == 0)
  }

  /** The table names live mutexes, one per key, and every session in a bracket
      refers to the mutex its key still has in the table. */
  ghost predicate Refs(st: State) {
    && (forall k | k in st.table :: st.table[k] in st.heap)
    && (forall k, k' | k in st.table && k' in st.table && st.table[k] == st.table[k'] :: k == k')
    && (forall s | s in st.pcs :: GoodPc(st, st.pcs[s]))
  }

  /** Each count is the number of sessions waiting for, holding or releasing. */
  ghost predicate Tallies(st: State) {
    forall o | o in st.heap :: GoodMutex(st, o)
  }

  ghost predicate Inv(st: State) {
    !st.crashed && Refs(st) && Tallies(st)
  }

  /** The two states differ at most in session `s`. */
  ghost predicate SameBut(pcs: map<Session, Pc>, pcs': map<Session, Pc>, s: Session) {
    forall t | t != s :: (t in pcs <==> t in pcs') && (t in pcs ==> pcs[t] == pcs'[t])
  }

  lemma CardMove(a: set<Session>, b: set<Session>, s: Session)
    requires a - {s} == b - {s}
    ensures |a| - |b| == (if s in a then 1 else 0) - (if s in b then 1 else 0)
  {
    assert |a - {s}| == |a| - if s in a then 1 else 0;
    assert |b - {s}| == |b| - if s in b then 1 else 0;
  }

  /** Moving one session changes every tally by that session alone. */
  lemma TallyMove(pcs: map<Session, Pc>, pcs': map<Session, Pc>, s: Session, m: Mode, o: Ref)
    requires SameBut(pcs, pcs', s)
    ensures |Holders(pcs', m, o)| - |Holders(pcs, m, o)|
         == (if s in pcs' && Holds(pcs'[s], m, o) then 1 else 0) - (if s in pcs && Holds(pcs[s], m, o) then 1 else 0)
    ensures |Counted(pcs', m, o)| - |Counted(pcs, m, o)|
         == (if s in pcs' && Counts(pcs'[s], m, o) then 1 else 0) - (if s in pcs && Counts(pcs[s], m, o) then 1 else 0)
  {
    CardMove(Holders(pcs', m, o), Holders(pcs, m, o), s);
    CardMove(Counted(pcs', m, o), Counted(pcs, m, o), s);
  }

  /** What a step does to the mutex at `o` and to the tallies must agree. */
  lemma GoodMutexMoves(st: State, st': State, s: Session, o: Ref)
    requires o in st.heap && o in st'.heap && GoodMutex(st, o)
    requires SameBut(st.pcs, st'.pcs, s)
    requires forall m: Mode ::
      CountOf(st'.heap[o], m) - CountOf(st.heap[o], m)
      == (if s in st'.pcs && Counts(st'.pcs[s], m, o) then 1 else 0) - (if s in st.pcs && Counts(st.pcs[s], m, o) then 1 else 0)
    requires st'.heap[o].readers - st.heap[o].readers
      == (if s in st'.pcs && Holds(st'.pcs[s], Read, o) then 1 else 0) - (if s in st.pcs && Holds(st.pcs[s], Read, o) then 1 else 0)
    requires (if st'.heap[o].writer then 1 else 0) - (if st.heap[o].writer then 1 else 0)
      == (if s in st'.pcs && Holds(st'.pcs[s], Write, o) then 1 else 0) - (if s in st.pcs && Holds(st.pcs[s], Write, o) then 1 else 0)
    requires st'.heap[o].writer ==> st'.heap[o].readers == 0
    ensures GoodMutex(st', o)
  {
    TallyMove(st.pcs, st'.pcs, s, Read, o);
    TallyMove(st.pcs, st'.pcs, s, Write, o);
    assert CountOf(st'.heap[o], Read) == st'.heap[o].readCount;
    assert CountOf(st'.heap[o], Write) == st'.heap[o].writeCount;
  }

  lemma FreshMutexGood(st: State, o: Ref)
    requires Inv(st) && o !in st.heap
    ensures Holders(st.pcs, Read, o) == Holders(st.pcs, Write, o) == {}
    ensures Counted(st.pcs, Read, o) == Counted(st.pcs, Write, o) == {}
  {
    forall s | s in st.pcs ensures st.pcs[s].ref != o { assert GoodPc(st, st.pcs[s]); }
  }

  lemma LoadOrStoreKeepsRefs(st: State, k: Key, slot: Ref)
    requires Refs(st) && (k in st.table || slot !in st.heap)
    ensures Refs(LoadOrStore(st, k, slot))
  {
    var st' := LoadOrStore(st, k, slot);
    forall s | s in st'.pcs ensures GoodPc(st', st'.pcs[s]) { assert GoodPc(st, st.pcs[s]); }
  }

  lemma LoadOrStoreKeepsTallies(st: State, k: Key, slot: Ref)
    requires Tallies(st) && (k in st.table || slot !in st.heap)
    requires slot !in st.heap ==> forall m: Mode :: Holders(st.pcs, m, slot) == Counted(st.pcs, m, slot) == {}
    ensures Tallies(LoadOrStore(st, k, slot))
  {
    var st' := LoadOrStore(st, k, slot);
    forall o | o in st'.heap ensures GoodMutex(st', o) {
      if o in st.heap { assert GoodMutex(st, o); }
    }
  }

  /** The table lookup of Lock and the one of Unlock. */
  lemma LoadOrStoreKeepsInv(st: State, k: Key, slot: Ref)
    requires Inv(st) && (k in st.table || slot !in st.heap)
    ensures Inv(LoadOrStore(st, k, slot)) && k in LoadOrStore(st, k, slot).table
  {
    if k !in st.table {
      FreshMutexGood(st, slot);
      LoadOrStoreKeepsRefs(st, k, slot);
      LoadOrStoreKeepsTallies(st, k, slot);
    }
  }

  /** A holder of a mutex shows in the mutex word itself. */
  lemma HolderSeen(st: State, s: Session, m: Mode, o: Ref)
    requires Inv(st) && s in st.pcs && o in st.heap && Holds(st.pcs[s], m, o)
    ensures IsLocked(st.heap[o], m)
  {
    assert GoodMutex(st, o);
    assert s in Holders(st.pcs, m, o);
  }

  /** Whoever is waiting, holding or releasing is counted. */
  lemma CountedSeen(st: State, s: Session, m: Mode, o: Ref)
    requires Inv(st) && s in st.pcs && o in st.heap && Counts(st.pcs[s], m, o)
    ensures CountOf(st.heap[o], m) > 0
  {
    assert GoodMutex(st, o);
    assert s in Counted(st.pcs, m, o);
  }

  /** What the acting session knows of its mutex: no Unlock finds it unlocked
      or uncounted. */
  ghost predicate Solid(st: State, p: Pc) {
    && GoodPc(st, p)
    && p.ref in st.heap
    && (p.Refound? ==> CountOf(st.heap[p.ref], p.mode) > 0)
    && (p.Checked? ==> IsLocked(st.heap[p.ref], p.mode))
  }

  lemma InvSolid(st: State, s: Session)
    requires Inv(st) && s in st.pcs
    ensures Solid(st, st.pcs[s])
  {
    var p := st.pcs[s];
    assert GoodPc(st, p);
    if p.Refound? { CountedSeen(st, s, p.mode, p.ref); }
    if p.Checked? { HolderSeen(st, s, p.mode, p.ref); }
  }

  predicate OnMutex(a: Action) {
    !a.Reap? && !a.Lookup? && !a.Relookup?
  }

  lemma SolidStep(st: State, a: Action)
    requires Enabled(st, a) && OnMutex(a) && Solid(st, st.pcs[a.s])
    ensures !Apply(st, a).crashed && Apply(st, a).table == st.table && Apply(st, a).heap.Keys == st.heap.Keys
    ensures SameBut(st.pcs, Apply(st, a).pcs, a.s)
    ensures a.s in Apply(st, a).pcs ==> GoodPc(st, Apply(st, a).pcs[a.s])
  {
  }

  /** The references of all sessions stay right. */
  lemma StepKeepsRefs(st: State, a: Action)
    requires Refs(st) && Enabled(st, a) && OnMutex(a) && Solid(st, st.pcs[a.s])
    ensures Refs(Apply(st, a))
  {
    var st' := Apply(st, a);
    SolidStep(st, a);
    forall s | s in st'.pcs ensures GoodPc(st', st'.pcs[s]) {
      if s != a.s { assert GoodPc(st, st.pcs[s]); }
    }
  }

  lemma CountStep(st: State, a: Action, o: Ref, m: Mode)
    requires Enabled(st, a) && OnMutex(a) && Solid(st, st.pcs[a.s]) && o in st.heap
    ensures var st' := Apply(st, a);
      o in st'.heap
      && CountOf(st'.heap[o], m) - CountOf(st.heap[o], m)
         == (if a.s in st'.pcs && Counts(st'.pcs[a.s], m, o) then 1 else 0) - (if a.s in st.pcs && Counts(st.pcs[a.s], m, o) then 1 else 0)
  {
  }

  lemma HoldStep(st: State, a: Action, o: Ref)
    requires Enabled(st, a) && OnMutex(a) && Solid(st, st.pcs[a.s]) && o in st.heap
    requires st.heap[o].writer ==> st.heap[o].readers == 0
    ensures var st' := Apply(st, a);
      && o in st'.heap
      && (st'.heap[o].writer ==> st'.heap[o].readers == 0)
      && st'.heap[o].readers - st.heap[o].readers
         == (if a.s in st'.pcs && Holds(st'.pcs[a.s], Read, o) then 1 else 0) - (if a.s in st.pcs && Holds(st.pcs[a.s], Read, o) then 1 else 0)
      && (if st'.heap[o].writer then 1 else 0) - (if st.heap[o].writer then 1 else 0)
         == (if a.s in st'.pcs && Holds(st'.pcs[a.s], Write, o) then 1 else 0) - (if a.s in st.pcs && Holds(st.pcs[a.s], Write, o) then 1 else 0)
  {
  }

  /** The acting session moves the counters of its own mutex and no other. */
  lemma MutexStep(st: State, a: Action, o: Ref)
    requires Enabled(st, a) && OnMutex(a) && Solid(st, st.pcs[a.s])
    requires o in st.heap && GoodMutex(st, o)
    ensures o in Apply(st, a).heap && GoodMutex(Apply(st, a), o)
  {
    SolidStep(st, a);
    CountStep(st, a, o, Read);
    CountStep(st, a, o, Write);
    HoldStep(st, a, o);
    GoodMutexMoves(st, Apply(st, a), a.s, o);
  }

  lemma SilentMutex(st: State, s: Session, p: Pc, o: Ref)
    requires o in st.heap && GoodMutex(st, o)
    requires forall m: Mode :: Holds(p, m, o) <==> s in st.pcs && Holds(st.pcs[s], m, o)
    requires forall m: Mode :: Counts(p, m, o) <==> s in st.pcs && Counts(st.pcs[s], m, o)
    ensures GoodMutex(st.(pcs := st.pcs[s := p]), o)
  {
    GoodMutexMoves(st, st.(pcs := st.pcs[s := p]), s, o);
  }

  /** A change of stage that the counters do not see. */
  lemma SilentMove(st: State, s: Session, p: Pc)
    requires Inv(st) && GoodPc(st, p)
    requires forall m, o :: Holds(p, m, o) <==> s in st.pcs && Holds(st.pcs[s], m, o)
    requires forall m, o :: Counts(p, m, o) <==> s in st.pcs && Counts(st.pcs[s], m, o)
    ensures Inv(st.(pcs := st.pcs[s := p]))
  {
    var st' := st.(pcs := st.pcs[s := p]);
    forall t | t in st'.pcs ensures GoodPc(st', st'.pcs[t]) {
      if t != s { assert GoodPc(st, st.pcs[t]); }
    }
    forall o | o in st'.heap ensures GoodMutex(st', o) { SilentMutex(st, s, p, o); }
  }

  lemma LookupKeepsInv(st: State, a: Action)
    requires Inv(st) && Enabled(st, a) && (a.Lookup? || a.Relookup?)
    ensures Inv(Apply(st, a))
  {
    var k := if a.Lookup? then a.key else st.pcs[a.s].key;
    LoadOrStoreKeepsInv(st, k, a.slot);
    if a.Relookup? { assert GoodPc(st, st.pcs[a.s]); }
    SilentMove(LoadOrStore(st, k, a.slot), a.s, Apply(st, a).pcs[a.s]);
  }

  /** Every step but the reaper's keeps the invariant. */
  lemma SessionStepKeepsInv(st: State, a: Action)
    requires Inv(st) && Enabled(st, a) && !a.Reap?
    ensures Inv(Apply(st, a))
  {
    if OnMutex(a) {
      InvSolid(st, a.s);
      SolidStep(st, a);
      StepKeepsRefs(st, a);
      forall o | o in Apply(st, a).heap ensures GoodMutex(Apply(st, a), o) {
        MutexStep(st, a, o);
      }
    } else {
      LookupKeepsInv(st, a);
    }
  }

  // ----- main results --------------------------------------------------

  lemma ReapedMutexes(st: State, k: Key)
    requires Inv(st) && k in st.timers
    ensures forall o | o in st.heap :: GoodMutex(Apply(st, Reap(k)), o)
  {
    forall o | o in st.heap ensures GoodMutex(Apply(st, Reap(k)), o) {
      assert GoodMutex(st, o);
    }
  }

  /** A clean-up timer keeps the invariant exactly when its entry is unreferenced. */
  lemma ReaperSafeIff(st: State, k: Key)
    requires Inv(st) && k in st.timers
    ensures Inv(Apply(st, Reap(k))) <==> Unreferenced(st, k)
  {
    var st' := Apply(st, Reap(k));
    ReapedMutexes(st, k);
    if Unreferenced(st, k) {
      forall s | s in st'.pcs ensures GoodPc(st', st'.pcs[s]) {
        assert GoodPc(st, st.pcs[s]);
      }
    } else {
      var s :| s in st.pcs && st.pcs[s].key == k;
      assert !GoodPc(st', st'.pcs[s]);
    }
  }

  lemma {:induction false} RunsKeepInv(run: seq<State>, n: nat)
    requires IsRun(run) && n < |run|
    ensures Inv(run[n])
  {
    if n > 0 {
      RunsKeepInv(run, n - 1);
      var a := ActionAt(run, n);
      if a.Reap? { ReaperSafeIff(run[n - 1], a.key); } else { SessionStepKeepsInv(run[n - 1], a); }
    }
  }

  lemma TwoMembers(s: Session, t: Session, b: set<Session>)
    requires s != t && s in b && t in b
    ensures |b| >= 2
  {
    assert b == {s, t} + (b - {s, t});
  }

  predicate Holding(st: State, s: Session, k: Key) {
    s in st.pcs && st.pcs[s].key == k && Holds(st.pcs[s], st.pcs[s].mode, st.pcs[s].ref)
  }

  lemma HoldingSeen(st: State, s: Session, k: Key)
    requires Inv(st) && Holding(st, s, k)
    ensures k in st.table && st.table[k] in st.heap && st.pcs[s].ref == st.table[k]
    ensures IsLocked(st.heap[st.table[k]], st.pcs[s].mode) && GoodMutex(st, st.table[k])
  {
    assert GoodPc(st, st.pcs[s]);
    HolderSeen(st, s, st.pcs[s].mode, st.pcs[s].ref);
  }

  /** Mutual exclusion: over any run a key never has a writer and another holder. */
  lemma WriterIsAlone(run: seq<State>, n: nat, s: Session, t: Session, k: Key)
    requires IsRun(run) && n < |run| && s != t
    requires Holding(run[n], s, k) && Holding(run[n], t, k)
    ensures run[n].pcs[s].mode.Read? && run[n].pcs[t].mode.Read?
  {
    var st := run[n];
    RunsKeepInv(run, n);
    HoldersCompatible(st, s, t, k);
  }

  lemma HoldersCompatible(st: State, s: Session, t: Session, k: Key)
    requires Inv(st) && s != t && Holding(st, s, k) && Holding(st, t, k)
    ensures st.pcs[s].mode.Read? && st.pcs[t].mode.Read?
  {
    HoldingSeen(st, s, k);
    HoldingSeen(st, t, k);
    var o := st.table[k];
    assert st.heap[o].writer ==> st.heap[o].readers == 0 && |Holders(st.pcs, Write, o)| == 1;
    if st.pcs[s].mode.Write? && st.pcs[t].mode.Write? {
      TwoMembers(s, t, Holders(st.pcs, Write, o));
    }
  }

  lemma SomeMember(s: set<Session>) returns (t: Session)
    requires |s| > 0
    ensures t in s
  {
    t :| t in s;
  }

  /** A mutex can be taken when its holders allow it. */
  lemma CanAcquireIff(st: State, o: Ref, m: Mode)
    requires o in st.heap && GoodMutex(st, o)
    ensures CanAcquire(st.heap[o], m) <==>
      forall t | t in st.pcs && Holds(st.pcs[t], st.pcs[t].mode, o) :: st.pcs[t].mode.Read? && m.Read?
  {
    var writers, readers := Holders(st.pcs, Write, o), Holders(st.pcs, Read, o);
    assert forall t | t in st.pcs && Holds(st.pcs[t], st.pcs[t].mode, o) :: t in writers || t in readers;
    if |writers| > 0 { var t := SomeMember(writers); }
    if |readers| > 0 { var t := SomeMember(readers); }
  }

  lemma HoldingIs(st: State, s: Session, t: Session)
    requires Refs(st) && s in st.pcs && t in st.pcs
    ensures Holding(st, t, st.pcs[s].key) <==> Holds(st.pcs[t], st.pcs[t].mode, st.pcs[s].ref)
  {
    assert GoodPc(st, st.pcs[s]) && GoodPc(st, st.pcs[t]);
  }

  /** The waiting session can go on if and only if nobody holds its key, or it and all the
      holders are readers. */
  ghost predicate AcquiresWhenFree(st: State, s: Session)
    requires s in st.pcs
  {
    Enabled(st, Acquire(s)) <==>
      forall t | t in st.pcs && Holding(st, t, st.pcs[s].key) :: st.pcs[t].mode.Read? && st.pcs[s].mode.Read?
  }

  lemma WaiterAcquires(st: State, s: Session)
    requires !st.crashed && Refs(st) && s in st.pcs && st.pcs[s].Waiting?
    requires st.pcs[s].ref in st.heap && GoodMutex(st, st.pcs[s].ref)
    ensures AcquiresWhenFree(st, s)
  {
    CanAcquireIff(st, st.pcs[s].ref, st.pcs[s].mode);
    forall t | t in st.pcs
      ensures Holding(st, t, st.pcs[s].key) <==> Holds(st.pcs[t], st.pcs[t].mode, st.pcs[s].ref)
    {
      HoldingIs(st, s, t);
    }
  }

  /** A free lock can be taken, at every time of every run. */
  lemma AcquireEnabledIff(run: seq<State>, n: nat, s: Session)
    requires IsRun(run) && n < |run| && s in run[n].pcs && run[n].pcs[s].Waiting?
    ensures AcquiresWhenFree(run[n], s)
  {
    RunsKeepInv(run, n);
    InvSolid(run[n], s);
    assert GoodMutex(run[n], run[n].pcs[s].ref);
    WaiterAcquires(run[n], s);
  }

  /** Sessions waiting for, holding or releasing key `k` in mode `m`. */
  ghost function Users(st: State, m: Mode, k: Key): set<Session> {
    set s | s in st.pcs && st.pcs[s].key == k && Counts(st.pcs[s], m, st.pcs[s].ref)
  }

  /** Each counter of a key is the number of its users in that mode. */
  lemma CountsAreUsers(run: seq<State>, n: nat, m: Mode, k: Key)
    requires IsRun(run) && n < |run| && k in run[n].table
    ensures run[n].table[k] in run[n].heap
    ensures CountOf(run[n].heap[run[n].table[k]], m) == |Users(run[n], m, k)|
  {
    RunsKeepInv(run, n);
    UsersAre(run[n], m, k);
  }

  // ----- clean-up ------------------------------------------------------

  lemma UsersAre(st: State, m: Mode, k: Key)
    requires Inv(st) && k in st.table
    ensures st.table[k] in st.heap && Users(st, m, k) == Counted(st.pcs, m, st.table[k])
    ensures CountOf(st.heap[st.table[k]], m) == |Users(st, m, k)|
  {
    var o := st.table[k];
    assert GoodMutex(st, o);
    forall s | s in st.pcs
      ensures st.pcs[s].key == k && Counts(st.pcs[s], m, st.pcs[s].ref) <==> Counts(st.pcs[s], m, o)
    {
      assert GoodPc(st, st.pcs[s]);
    }
  }

  lemma OnlyMember(s: Session, a: set<Session>)
    requires s in a
    ensures |a| == 1 <==> a == {s}
  {
    if |a| == 1 { assert |a - {s}| == 0; }
  }

  /** The step makes session `a.s` the last to leave its key: a writer with no writer beside
      it, or a reader with no reader beside it that then finds no writer. */
  ghost predicate LeavesLast(st: State, a: Action) {
    && (a.Uncount? || a.LoadWriters?) && a.s in st.pcs
    && if a.Uncount? then st.pcs[a.s].mode.Write? && Users(st, Write, st.pcs[a.s].key) == {a.s}
       else Users(st, Write, st.pcs[a.s].key) == {}
  }

  lemma StepSchedulesIff(st: State, a: Action)
    requires Inv(st) && Enabled(st, a) && !a.Reap?
    ensures Apply(st, a).timers
            == if LeavesLast(st, a) then st.timers + multiset{st.pcs[a.s].key} else st.timers
  {
    if a.Uncount? || a.LoadWriters? {
      var p := st.pcs[a.s];
      InvSolid(st, a.s);
      UsersAre(st, Write, p.key);
      if a.Uncount? && p.mode.Write? { OnlyMember(a.s, Users(st, Write, p.key)); }
    }
  }

  /** A clean-up is scheduled by the last session to leave, and by no other. */
  lemma CleanupScheduledIff(run: seq<State>, n: nat, a: Action)
    requires IsRun(run) && n < |run| && Enabled(run[n], a) && !a.Reap?
    ensures Apply(run[n], a).timers
            == if LeavesLast(run[n], a) then run[n].timers + multiset{run[n].pcs[a.s].key} else run[n].timers
  {
    RunsKeepInv(run, n);
    StepSchedulesIff(run[n], a);
  }

  /** The entry of the key is in use or will be cleaned up. */
  predicate Accounted(st: State, k: Key) {
    k in st.table ==> k in st.timers || exists s :: s in st.pcs && st.pcs[s].key == k
  }

  /** A session leaves its bracket only with a clean-up or with a count that is not zero. */
  lemma LeavesCount(st: State, a: Action, k: Key) returns (m: Mode)
    requires Enabled(st, a) && !a.Reap? && a.s in st.pcs && Solid(st, st.pcs[a.s]) && st.pcs[a.s].key == k
    requires a.s !in Apply(st, a).pcs && k !in Apply(st, a).timers
    ensures var st' := Apply(st, a);
      k in st'.table && st'.table[k] in st'.heap && CountOf(st'.heap[st'.table[k]], m) != 0
  {
    m := if a.Uncount? then st.pcs[a.s].mode else Write;
  }

  lemma StaysAtKey(st: State, a: Action, k: Key)
    requires Enabled(st, a) && !a.Reap? && a.s in st.pcs && st.pcs[a.s].key == k
    ensures a.s in Apply(st, a).pcs ==> Apply(st, a).pcs[a.s].key == k
  { }

  lemma LeftBehind(st: State, a: Action, k: Key)
    requires Inv(st) && Enabled(st, a) && !a.Reap? && a.s in st.pcs && st.pcs[a.s].key == k
    ensures Accounted(Apply(st, a), k)
  {
    var st' := Apply(st, a);
    StaysAtKey(st, a, k);
    if a.s !in st'.pcs && k !in st'.timers {
      InvSolid(st, a.s);
      var m := LeavesCount(st, a, k);
      SessionStepKeepsInv(st, a);
      SomeUser(st', m, k);
    }
  }

  lemma SomeUser(st: State, m: Mode, k: Key)
    requires Inv(st) && k in st.table && st.table[k] in st.heap && CountOf(st.heap[st.table[k]], m) != 0
    ensures exists s :: s in st.pcs && st.pcs[s].key == k
  {
    UsersAre(st, m, k);
    var s := SomeMember(Users(st, m, k));
  }

  lemma OthersStay(st: State, a: Action, t: Session)
    requires Enabled(st, a) && !a.Reap? && t in st.pcs && t != a.s
    ensures t in Apply(st, a).pcs && Apply(st, a).pcs[t] == st.pcs[t]
  { }

  lemma EntriesAndTimers(st: State, a: Action, k: Key)
    requires Enabled(st, a) && (a.Reap? ==> a.key != k)
    requires !(a.Lookup? && a.key == k) && !(a.Relookup? && a.s in st.pcs && st.pcs[a.s].key == k)
    ensures k in Apply(st, a).table <==> k in st.table
    ensures k in st.timers ==> k in Apply(st, a).timers
  { }

  lemma StepAccounts(st: State, a: Action, k: Key)
    requires Inv(st) && Enabled(st, a) && Polite(st, a) && Accounted(st, k)
    ensures Accounted(Apply(st, a), k)
  {
    var st' := Apply(st, a);
    if a.Reap? {
      if a.key != k { EntriesAndTimers(st, a, k); }
    } else if a.s in st.pcs && st.pcs[a.s].key == k {
      LeftBehind(st, a, k);
    } else if a.Lookup? && a.key == k {
      assert a.s in st'.pcs && st'.pcs[a.s].key == k;
    } else {
      EntriesAndTimers(st, a, k);
      if t :| t in st.pcs && st.pcs[t].key == k { OthersStay(st, a, t); }
    }
  }

  /** No entry is forgotten: at all times of all runs each key of the table has a session in
      its bracket or a clean-up that is still to come. */
  lemma {:induction false} NoEntryForgotten(run: seq<State>, n: nat, k: Key)
    requires IsRun(run) && n < |run|
    ensures k in run[n].table ==> k in run[n].timers || exists s :: s in run[n].pcs && run[n].pcs[s].key == k
  {
    if n > 0 {
      NoEntryForgotten(run, n - 1, k);
      RunsKeepInv(run, n - 1);
      var a := ActionAt(run, n);
      StepAccounts(run[n - 1], a, k);
    }
  }

  /** The second lookup finds the session's own mutex. */
  predicate RelookupFinds(st: State, s: Session, slot: Ref) {
    Enabled(st, Relookup(s, slot)) ==>
      var p := st.pcs[s];
      Apply(st, Relookup(s, slot)) == st.(pcs := st.pcs[s := Refound(p.mode, p.key, p.ref, p.ref)])
  }

  /** The check of the count lets the session through. */
  predicate CheckPasses(st: State, s: Session) {
    Enabled(st, Check(s)) ==>
      var p := st.pcs[s];
      && p.again == p.ref
      && Apply(st, Check(s)) == st.(pcs := st.pcs[s := Checked(p.mode, p.key, p.ref, p.ref)])
  }

  /** The release takes this session's hold, and no other, off that mutex and changes no
      other mutex. */
  predicate UnlockReleases(st: State, s: Session) {
    Enabled(st, Unlock(s)) ==>
      var p := st.pcs[s];
      && p.again == p.ref && IsLocked(st.heap[p.ref], p.mode)
      && Apply(st, Unlock(s)) == st.(heap := st.heap[p.ref := Freed(st.heap[p.ref], p.mode)],
                                     pcs := st.pcs[s := Released(p.mode, p.key, p.ref, p.ref)])
  }

  lemma SolidUnlocks(st: State, s: Session)
    requires s in st.pcs ==> Solid(st, st.pcs[s])
    ensures forall slot :: RelookupFinds(st, s, slot)
    ensures CheckPasses(st, s) && UnlockReleases(st, s)
  {
  }

  /** No Unlock is a no-op, and none is fatal. */
  lemma UnlockIsEffective(run: seq<State>, n: nat, s: Session)
    requires IsRun(run) && n < |run|
    ensures !run[n].crashed
    ensures forall slot :: RelookupFinds(run[n], s, slot)
    ensures CheckPasses(run[n], s) && UnlockReleases(run[n], s)
  {
    RunsKeepInv(run, n);
    if s in run[n].pcs { InvSolid(run[n], s); }
    SolidUnlocks(run[n], s);
  }

  // ----- IsRepositoryInUse ---------------------------------------------

  /** The two counter loads taken in one state. */
  predicate InUse(st: State, k: Key) {
    && k in st.table
    && st.table[k] in st.heap
    && (st.heap[st.table[k]].readCount > 0 || st.heap[st.table[k]].writeCount > 0)
  }

  predicate UsedBy(st: State, s: Session, k: Key) {
    s in st.pcs && st.pcs[s].key == k && Counts(st.pcs[s], st.pcs[s].mode, st.pcs[s].ref)
  }

  lemma UserSeen(st: State, s: Session, k: Key)
    requires Inv(st) && UsedBy(st, s, k)
    ensures InUse(st, k) && st.pcs[s].ref == st.table[k]
    ensures CountOf(st.heap[st.table[k]], st.pcs[s].mode) > 0
  {
    assert GoodPc(st, st.pcs[s]);
    CountedSeen(st, s, st.pcs[s].mode, st.pcs[s].ref);
  }

  lemma UserStep(st: State, a: Action, s: Session, k: Key)
    requires Enabled(st, a) && UsedBy(st, s, k) && UsedBy(Apply(st, a), s, k)
    ensures Apply(st, a).pcs[s].ref == st.pcs[s].ref && Apply(st, a).pcs[s].mode == st.pcs[s].mode
  {
  }

  /** A session that stays counted keeps its mode and mutex. */
  lemma {:induction false} UserIsStable(run: seq<State>, i: nat, j: nat, s: Session, k: Key)
    requires IsRun(run) && i <= j < |run|
    requires forall n | i <= n <= j :: UsedBy(run[n], s, k)
    ensures UsedBy(run[i], s, k) && UsedBy(run[j], s, k)
    ensures run[j].pcs[s].ref == run[i].pcs[s].ref && run[j].pcs[s].mode == run[i].pcs[s].mode
  {
    if i < j {
      UserIsStable(run, i, j - 1, s, k);
      var a := ActionAt(run, j);
      UserStep(run[j - 1], a, s, k);
    }
  }

  /** The query is not atomic: it looks the key up in one state, loads the read
      count in a later one and the write count in a later one still.  If some
      session uses the key throughout, the answer is still "in use". */
  lemma InUseQuery(run: seq<State>, i: nat, j: nat, l: nat, s: Session, k: Key)
    requires IsRun(run) && i <= j <= l < |run|
    requires forall n | i <= n <= l :: UsedBy(run[n], s, k)
    ensures k in run[i].table
    ensures var o := run[i].table[k];
      o in run[j].heap && o in run[l].heap && (run[j].heap[o].readCount > 0 || run[l].heap[o].writeCount > 0)
  {
    RunsKeepInv(run, i);
    RunsKeepInv(run, j);
    RunsKeepInv(run, l);
    UserIsStable(run, i, j, s, k);
    UserIsStable(run, i, l, s, k);
    UserSeen(run[i], s, k);
    UserSeen(run[j], s, k);
    UserSeen(run[l], s, k);
  }

  // ----- the hypothesis on the reaper is needed ------------------------

  /** A run in which the reaper fires whenever its timer expires. */
  datatype Trace = Start | Then(before: Trace, act: Action)

  function End(t: Trace): State
    requires Legal(t)
    decreases t, 1
  {
    match t
    case Start => INIT
    case Then(before, a) => Apply(End(before), a)
  }

  predicate Legal(t: Trace)
    decreases t, 0
  {
    match t
    case Start => true
    case Then(before, a) => Legal(before) && Enabled(End(before), a)
  }

  lemma Extend3(t: Trace, a: Action, b: Action, c: Action) returns (t': Trace)
    requires Legal(t) && Enabled(End(t), a)
    requires Enabled(Apply(End(t), a), b) && Enabled(Apply(Apply(End(t), a), b), c)
    ensures Legal(t') && End(t') == Apply(Apply(Apply(End(t), a), b), c)
  {
    var t1 := Then(t, a);
    assert Legal(t1) && End(t1) == Apply(End(t), a);
    var t2 := Then(t1, b);
    assert Legal(t2) && End(t2) == Apply(End(t1), b);
    t' := Then(t2, c);
  }

  /** The effect of an undisturbed Lock on a key whose mutex is free or absent. */
  lemma LockEffect(st: State, s: Session, k: Key, slot: Ref) returns (s1: State, s2: State, s3: State)
    requires !st.crashed && s !in st.pcs
    requires if k in st.table then st.table[k] == slot && slot in st.heap && st.heap[slot] == Mutex(0, 0, 0, false)
             else slot !in st.heap
    ensures Enabled(st, Lookup(s, Write, k, slot)) && s1 == Apply(st, Lookup(s, Write, k, slot))
    ensures Enabled(s1, Count(s)) && s2 == Apply(s1, Count(s))
    ensures Enabled(s2, Acquire(s)) && s3 == Apply(s2, Acquire(s))
    ensures s3 == State(st.table[k := slot], st.heap[slot := Mutex(0, 1, 0, true)],
                        st.pcs[s := Held(Write, k, slot)], st.timers, false)
  {
    s1 := State(st.table[k := slot], st.heap[slot := Mutex(0, 0, 0, false)], st.pcs[s := Found(Write, k, slot)], st.timers, false);
    assert st.table[k := slot] == LoadOrStore(st, k, slot).table;
    assert st.heap[slot := Mutex(0, 0, 0, false)] == LoadOrStore(st, k, slot).heap;
    s2 := State(s1.table, st.heap[slot := Mutex(0, 1, 0, false)], st.pcs[s := Waiting(Write, k, slot)], st.timers, false);
    assert s2.heap == s1.heap[slot := Mutex(0, 1, 0, false)] && s2.pcs == s1.pcs[s := Waiting(Write, k, slot)];
    s3 := State(s1.table, st.heap[slot := Mutex(0, 1, 0, true)], st.pcs[s := Held(Write, k, slot)], st.timers, false);
    assert s3.heap == s2.heap[slot := Mutex(0, 1, 0, true)] && s3.pcs == s2.pcs[s := Held(Write, k, slot)];
  }

  lemma UnlockEffect(st: State, s: Session, k: Key, slot: Ref) returns (s1: State, s2: State, s3: State, s4: State)
    requires !st.crashed && s in st.pcs && st.pcs[s] == Held(Write, k, slot)
    requires k in st.table && st.table[k] == slot && slot in st.heap && st.heap[slot] == Mutex(0, 1, 0, true)
    ensures Enabled(st, Relookup(s, slot)) && s1 == Apply(st, Relookup(s, slot))
    ensures Enabled(s1, Check(s)) && s2 == Apply(s1, Check(s))
    ensures Enabled(s2, Unlock(s)) && s3 == Apply(s2, Unlock(s))
    ensures Enabled(s3, Uncount(s)) && s4 == Apply(s3, Uncount(s))
    ensures s4 == State(st.table, st.heap[slot := Mutex(0, 0, 0, false)], st.pcs - {s}, st.timers + multiset{k}, false)
  {
    s1 := st.(pcs := st.pcs[s := Refound(Write, k, slot, slot)]);
    s2 := st.(pcs := st.pcs[s := Checked(Write, k, slot, slot)]);
    assert s2.pcs == s1.pcs[s := Checked(Write, k, slot, slot)];
    s3 := State(st.table, st.heap[slot := Mutex(0, 1, 0, false)], st.pcs[s := Released(Write, k, slot, slot)], st.timers, false);
    assert s3.pcs == s2.pcs[s := Released(Write, k, slot, slot)];
    s4 := State(st.table, st.heap[slot := Mutex(0, 0, 0, false)], st.pcs - {s}, st.timers + multiset{k}, false);
    assert s4.pcs == s3.pcs - {s} && s4.heap == s3.heap[slot := Mutex(0, 0, 0, false)];
  }

  lemma Bracket(t: Trace, s: Session, k: Key, slot: Ref) returns (t': Trace)
    requires Legal(t) && !End(t).crashed && s !in End(t).pcs
    requires var st := End(t);
      if k in st.table then st.table[k] == slot && slot in st.heap && st.heap[slot] == Mutex(0, 0, 0, false)
      else slot !in st.heap
    ensures Legal(t')
    ensures End(t') == State(End(t).table[k := slot], End(t).heap[slot := Mutex(0, 1, 0, true)],
                             End(t).pcs[s := Held(Write, k, slot)], End(t).timers, false)
  {
    var s1, s2, s3 := LockEffect(End(t), s, k, slot);
    t' := Extend3(t, Lookup(s, Write, k, slot), Count(s), Acquire(s));
  }

  lemma Unbracket(t: Trace, s: Session, k: Key, slot: Ref) returns (t': Trace)
    requires Legal(t) && !End(t).crashed && s in End(t).pcs && End(t).pcs[s] == Held(Write, k, slot)
    requires var st := End(t); k in st.table && st.table[k] == slot && slot in st.heap && st.heap[slot] == Mutex(0, 1, 0, true)
    ensures Legal(t')
    ensures End(t') == State(End(t).table, End(t).heap[slot := Mutex(0, 0, 0, false)],
                             End(t).pcs - {s}, End(t).timers + multiset{k}, false)
  {
    var s1, s2, s3, s4 := UnlockEffect(End(t), s, k, slot);
    var t3 := Extend3(t, Relookup(s, slot), Check(s), Unlock(s));
    assert End(t3) == s3;
    t' := Then(t3, Uncount(s));
  }

  lemma OneBracket(k: Key) returns (t: Trace)
    ensures Legal(t)
    ensures End(t) == State(map[k := 0], map[0 := Mutex(0, 0, 0, false)], map[], multiset{k}, false)
  {
    t := Bracket(Start, 0, k, 0);
    t := Unbracket(t, 0, k, 0);
  }

  /** After one full bracket the timer is set.  It fires while session 1 holds
      the key, session 2 is let in on a second mutex, and both write. */
  lemma RudeReaperBreaksExclusion(k: Key) returns (t: Trace)
    ensures Legal(t)
    ensures Holding(End(t), 1, k) && Holding(End(t), 2, k)
    ensures End(t).pcs[1].mode.Write? && End(t).pcs[2].mode.Write?
  {
    t := OneBracket(k);
    t := Bracket(t, 1, k, 0);
    var reaped := Then(t, Reap(k));
    assert Legal(reaped) && End(reaped) == Apply(End(t), Reap(k));
    t := Bracket(reaped, 2, k, 1);
  }

  // ----- eviction without the lock -------------------------------------

  /** The in-use query, its three reads made in the states i, j and l, answered no. */
  predicate AnsweredFree(run: seq<State>, i: nat, j: nat, l: nat, k: Key)
    requires i <= j <= l < |run|
  {
    k in run[i].table ==>
      var o := run[i].table[k];
      && o in run[j].heap && run[j].heap[o].readCount <= 0
      && o in run[l].heap && run[l].heap[o].writeCount <= 0
  }

  lemma HolderUses(st: State, s: Session, k: Key)
    requires Holding(st, s, k)
    ensures UsedBy(st, s, k)
  { }

  /** What the query is worth to the cache manager, which removes an entry later without
      taking its lock: whoever holds the key when the entry goes counted itself in after
      the query began, and has stayed since. */
  lemma HolderCameLater(run: seq<State>, i: nat, j: nat, l: nat, r: nat, s: Session, k: Key) returns (n: nat)
    requires IsRun(run) && i <= j <= l <= r < |run| && AnsweredFree(run, i, j, l, k)
    requires Holding(run[r], s, k)
    ensures i < n <= r && !UsedBy(run[n - 1], s, k) && forall m | n <= m <= r :: UsedBy(run[m], s, k)
  {
    HolderUses(run[r], s, k);
    n := r;
    while n > i && UsedBy(run[n - 1], s, k)
      invariant i <= n <= r
      invariant forall m | n <= m <= r :: UsedBy(run[m], s, k)
    {
      n := n - 1;
    }
    if n == i {
      InUseQuery(run, i, j, l, s, k);
      assert false;
    }
  }

  lemma FreeMutex(st: State, k: Key)
    requires Inv(st) && !InUse(st, k) && k in st.table
    ensures st.table[k] in st.heap && st.heap[st.table[k]] == Mutex(0, 0, 0, false)
  {
    var o := st.table[k];
    assert GoodMutex(st, o);
    forall m: Mode ensures Holders(st.pcs, m, o) <= Counted(st.pcs, m, o) { }
    assert Counted(st.pcs, Read, o) == {} && Counted(st.pcs, Write, o) == {};
  }

  lemma ExtendRun(run: seq<State>, a: Action)
    requires IsRun(run) && Enabled(run[|run| - 1], a) && !a.Reap?
    ensures IsRun(run + [Apply(run[|run| - 1], a)])
  {
    var longer := run + [Apply(run[|run| - 1], a)];
    forall i ensures NextAt(longer, i) {
      assert NextAt(run, i);
      if i == |run| { assert Polite(run[|run| - 1], a); }
    }
  }

  /** And nothing more: from every state in which the key is free a new session can hold it
      before the entry is removed. */
  lemma RemovalCanHitHolder(run: seq<State>, s: Session, k: Key, slot: Ref) returns (longer: seq<State>)
    requires IsRun(run)
    requires var st := run[|run| - 1];
      !InUse(st, k) && s !in st.pcs && if k in st.table then slot == st.table[k] else slot !in st.heap
    ensures IsRun(longer) && run <= longer && AnsweredFree(longer, |run| - 1, |run| - 1, |run| - 1, k)
    ensures Holding(longer[|longer| - 1], s, k)
  {
    var st := run[|run| - 1];
    RunsKeepInv(run, |run| - 1);
    if k in st.table { FreeMutex(st, k); }
    var s1, s2, s3 := LockEffect(st, s, k, slot);
    ExtendRun(run, Lookup(s, Write, k, slot));
    ExtendRun(run + [s1], Count(s));
    ExtendRun(run + [s1] + [s2], Acquire(s));
    longer := run + [s1] + [s2] + [s3];
  }
}
