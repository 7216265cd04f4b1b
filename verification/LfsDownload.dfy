/** The double-checked download of one LFS object (utils/cache.go): callers
    first look under the read lock, then look again under the write lock.
    The locks of the object behave as module KeyedLocks shows. */
module LfsDownload {
  type Caller = nat

  datatype File = Absent | Partial | Complete

  datatype Pc =
    | CheckWait             // IsLFSObjectCached: before RLock
    | CheckHeld             // read lock held, stat next
    | CheckSeen(cached: bool)
    | LoadWait              // DownloadLFSObject: before Lock
    | LoadHeld              // write lock held, stat next
    | Fetching              // file was absent
    | Creating              // response is there, os.Create next
    | Writing               // io.Copy in progress
    | LoadExit(ok: bool)    // deferred unlock next

  datatype State = State(
    file: File,
    pcs: map<Caller, Pc>,
    creates: nat,           // os.Create calls so far
    writeFailed: bool,      // some io.Copy failed half way
    loaded: set<Caller>)    // callers whose last DownloadLFSObject returned nil

  datatype Action =
    | CallCheck(c: Caller)
    | CallLoad(c: Caller)
    | Step(c: Caller, fails: bool)

  const INIT := State(Absent, map[], 0, false, {})

  predicate HoldsRead(p: Pc) { p.CheckHeld? || p.CheckSeen? }

  predicate HoldsWrite(p: Pc) { p.LoadHeld? || p.Fetching? || p.Creating? || p.Writing? || p.LoadExit? }

  predicate NoWriter(st: State) {
    forall c | c in st.pcs :: !HoldsWrite(st.pcs[c])
  }

  predicate NoHolder(st: State) {
    forall c | c in st.pcs :: !HoldsWrite(st.pcs[c]) && !HoldsRead(st.pcs[c])
  }

  predicate Enabled(st: State, a: Action) {
    match a
    case CallCheck(c) => c !in st.pcs
    case CallLoad(c) => c !in st.pcs
    case Step(c, _) =>
      && c in st.pcs
      && (st.pcs[c].CheckWait? ==> NoWriter(st))
      && (st.pcs[c].LoadWait? ==> NoHolder(st))
  }

  function Apply(st: State, a: Action): State
    requires Enabled(st, a)
  {
    match a
    case CallCheck(c) => st.(pcs := st.pcs[c := CheckWait], loaded := st.loaded - {c})
    case CallLoad(c) => st.(pcs := st.pcs[c := LoadWait], loaded := st.loaded - {c})
    case Step(c, fails) =>
      match st.pcs[c]
      case CheckWait => st.(pcs := st.pcs[c := CheckHeld])
      case CheckHeld => st.(pcs := st.pcs[c := CheckSeen(st.file != Absent)])
      case CheckSeen(cached) => st.(pcs := if cached then st.pcs - {c} else st.pcs[c := LoadWait])
      case LoadWait => st.(pcs := st.pcs[c := LoadHeld])
      case LoadHeld => st.(pcs := st.pcs[c := if st.file != Absent then LoadExit(true) else Fetching])
      case Fetching => st.(pcs := st.pcs[c := if fails then LoadExit(false) else Creating])
      case Creating =>
        if fails then st.(pcs := st.pcs[c := LoadExit(false)])
        else st.(pcs := st.pcs[c := Writing], file := Partial, creates := st.creates + 1)
      case Writing =>
        if fails then st.(pcs := st.pcs[c := LoadExit(false)], writeFailed := true)
        else st.(pcs := st.pcs[c := LoadExit(true)], file := Complete)
      case LoadExit(ok) => st.(pcs := st.pcs - {c}, loaded := if ok then st.loaded + {c} else st.loaded)
  }

  datatype Trace = Start | Then(before: Trace, act: Action)

  function End(t: Trace): State
    requires Legal(t)
    decreases t, 1
  {
    match t
    case Start => INIT
    case Then(before, a) => Apply(End(before), a)
  }

  predicate Legal(t: Trace)
    decreases t, 0
  {
    match t
    case Start => true
    case Then(before, a) => Legal(before) && Enabled(End(before), a)
  }

  ghost predicate Exclusive(pcs: map<Caller, Pc>) {
    forall c, d | c in pcs && d in pcs && c != d && HoldsWrite(pcs[c]) :: !HoldsWrite(pcs[d]) && !HoldsRead(pcs[d])
  }

  /** The file is there, and whole unless a write failed. */
  predicate Loaded(st: State) {
    st.file != Absent && (!st.writeFailed ==> st.file == Complete)
  }

  predicate GoodPc(st: State, p: Pc) {
    && (p.Fetching? || p.Creating? ==> st.file == Absent)
    && (p.Writing? ==> st.file == Partial)
    && (p == LoadExit(true) || p == CheckSeen(true) ==> Loaded(st))
    && (p == CheckSeen(false) ==> st.file == Absent)
  }

  ghost predicate Inv(st: State) {
    && Exclusive(st.pcs)
    && (forall c | c in st.pcs :: GoodPc(st, st.pcs[c]))
    && (st.file == Partial && !st.writeFailed ==> exists c :: c in st.pcs && st.pcs[c].Writing?)
    && st.creates == (if st.file == Absent then 0 else 1)
    && (st.loaded != {} ==> Loaded(st))
    && (st.writeFailed ==> Spoilt(st))
  }

  /** A file that nobody will ever finish. */
  ghost predicate Spoilt(st: State) {
    st.file == Partial && forall c | c in st.pcs :: !st.pcs[c].Writing?
  }

  /** A caller that comes to hold the lock found it free for that. */
  lemma StepHolds(st: State, a: Action, c: Caller)
    requires Enabled(st, a) && c in Apply(st, a).pcs
    ensures HoldsWrite(Apply(st, a).pcs[c]) ==> (c in st.pcs && HoldsWrite(st.pcs[c])) || (c == a.c && NoHolder(st))
    ensures HoldsRead(Apply(st, a).pcs[c]) ==> (c in st.pcs && HoldsRead(st.pcs[c])) || (c == a.c && NoWriter(st))
    ensures c != a.c ==> c in st.pcs && Apply(st, a).pcs[c] == st.pcs[c]
  {
  }

  lemma StepKeepsExclusive(st: State, a: Action)
    requires Exclusive(st.pcs) && Enabled(st, a)
    ensures Exclusive(Apply(st, a).pcs)
  {
    var pcs := Apply(st, a).pcs;
    forall c, d | c in pcs && d in pcs && c != d && HoldsWrite(pcs[c])
      ensures !HoldsWrite(pcs[d]) && !HoldsRead(pcs[d])
    {
      StepHolds(st, a, c);
      StepHolds(st, a, d);
    }
  }

  /** A writer at work is alone, so nobody has seen the file yet. */
  lemma StepKeepsPcs(st: State, a: Action)
    requires Inv(st) && Enabled(st, a)
    ensures forall c | c in Apply(st, a).pcs :: GoodPc(Apply(st, a), Apply(st, a).pcs[c])
  {
    var st' := Apply(st, a);
    forall c | c in st'.pcs ensures GoodPc(st', st'.pcs[c]) {
      if c in st.pcs { assert GoodPc(st, st.pcs[c]); }
      if a.Step? { assert GoodPc(st, st.pcs[a.c]); }
    }
  }

  /** A file is half written only while its writer is at it, or after a failed write. */
  lemma StepKeepsWriter(st: State, a: Action)
    requires Inv(st) && Enabled(st, a)
    requires Apply(st, a).file == Partial && !Apply(st, a).writeFailed
    ensures exists c :: c in Apply(st, a).pcs && Apply(st, a).pcs[c].Writing?
  {
    var st' := Apply(st, a);
    if st.file == Partial {
      var w :| w in st.pcs && st.pcs[w].Writing?;
      assert w in st'.pcs && st'.pcs[w].Writing?;
    } else {
      assert a.c in st'.pcs && st'.pcs[a.c].Writing?;
    }
  }

  lemma StepKeepsLoaded(st: State, a: Action)
    requires Inv(st) && Enabled(st, a)
    ensures Apply(st, a).loaded != {} ==> Loaded(Apply(st, a))
    ensures Apply(st, a).creates == (if Apply(st, a).file == Absent then 0 else 1)
  {
    if a.Step? { assert GoodPc(st, st.pcs[a.c]); }
  }

  /** After a failed write nobody writes again: the file is there. */
  lemma StepKeepsSpoilt(st: State, a: Action)
    requires Inv(st) && Enabled(st, a) && Apply(st, a).writeFailed
    ensures Spoilt(Apply(st, a))
  {
    if a.Step? { assert GoodPc(st, st.pcs[a.c]); }
    forall c | c in Apply(st, a).pcs ensures !Apply(st, a).pcs[c].Writing? {
      StepHolds(st, a, c);
    }
  }

  lemma StepKeepsInv(st: State, a: Action)
    requires Inv(st) && Enabled(st, a)
    ensures Inv(Apply(st, a))
  {
    StepKeepsExclusive(st, a);
    StepKeepsPcs(st, a);
    StepKeepsLoaded(st, a);
    if Apply(st, a).writeFailed {
      StepKeepsSpoilt(st, a);
    } else if Apply(st, a).file == Partial {
      StepKeepsWriter(st, a);
    }
  }

  lemma {:induction false} RunKeepsInv(t: Trace)
    requires Legal(t)
    ensures Inv(End(t))
  {
    if t.Then? {
      RunKeepsInv(t.before);
      StepKeepsInv(End(t.before), t.act);
    }
  }

  /** Over every interleaving the file is created at most once. */
  lemma CreatedAtMostOnce(t: Trace)
    requires Legal(t)
    ensures End(t).creates <= 1
    ensures End(t).creates == 0 <==> End(t).file == Absent
  {
    RunKeepsInv(t);
  }

  /** As long as no write failed, whoever holds the read lock sees no file or the whole file. */
  lemma ReadersSeeWholeFiles(t: Trace, c: Caller)
    requires Legal(t) && !End(t).writeFailed
    requires c in End(t).pcs && HoldsRead(End(t).pcs[c])
    ensures End(t).file != Partial
  {
    RunKeepsInv(t);
  }

  /** After a download that returned nil, and under a check that answered yes, the whole
      file is there if and only if no write has failed. */
  lemma LoadedMeansComplete(t: Trace, c: Caller)
    requires Legal(t)
    requires c in End(t).loaded || (c in End(t).pcs && End(t).pcs[c] == CheckSeen(true))
    ensures End(t).file == Complete <==> !End(t).writeFailed
  {
    RunKeepsInv(t);
    if c in End(t).pcs { assert GoodPc(End(t), End(t).pcs[c]); }
  }

  /** As long as a check has its answer and still holds the read lock, the answer is right. */
  lemma CheckAnswers(t: Trace, c: Caller, cached: bool)
    requires Legal(t) && c in End(t).pcs && End(t).pcs[c] == CheckSeen(cached)
    ensures cached <==> End(t).file != Absent
  {
    RunKeepsInv(t);
    assert GoodPc(End(t), End(t).pcs[c]);
  }

  lemma LoadBegins(t: Trace, c: Caller) returns (t': Trace)
    requires Legal(t) && End(t).pcs == map[]
    ensures Legal(t') && End(t') == End(t).(
      pcs := map[c := if End(t).file != Absent then LoadExit(true) else Fetching], loaded := End(t).loaded - {c})
  {
    var st := End(t).(loaded := End(t).loaded - {c});
    t' := Then(t, CallLoad(c));
    assert Legal(t') && End(t') == st.(pcs := map[c := LoadWait]);
    t' := Then(t', Step(c, false));
    assert Legal(t') && End(t') == st.(pcs := map[c := LoadHeld]);
    t' := Then(t', Step(c, false));
  }

  lemma FetchEnds(t: Trace, c: Caller) returns (t': Trace)
    requires Legal(t) && End(t).pcs == map[c := Fetching]
    ensures Legal(t') && End(t') == End(t).(pcs := map[c := LoadExit(true)], file := Complete, creates := End(t).creates + 1)
  {
    t' := Then(t, Step(c, false));
    assert Legal(t') && End(t') == End(t).(pcs := map[c := Creating]);
    t' := Then(t', Step(c, false));
    assert Legal(t') && End(t') == End(t).(pcs := map[c := Writing], file := Partial, creates := End(t).creates + 1);
    t' := Then(t', Step(c, false));
  }

  /** Whatever went on before, a call that nobody disturbs and in which nothing fails
      returns nil; it creates the whole file if there was none and leaves any other alone. */
  lemma LoadCanFinish(t: Trace, c: Caller) returns (t': Trace)
    requires Legal(t) && End(t).pcs == map[]
    ensures Legal(t') && End(t').pcs == map[] && c in End(t').loaded
    ensures End(t').file == if End(t).file == Absent then Complete else End(t).file
    ensures End(t').creates == End(t).creates + if End(t).file == Absent then 1 else 0
  {
    t' := LoadBegins(t, c);
    if End(t).file == Absent { t' := FetchEnds(t', c); }
    t' := Then(t', Step(c, false));
  }

  lemma AboutToCreate() returns (t: Trace)
    ensures Legal(t) && End(t) == State(Absent, map[0 := Creating], 0, false, {})
  {
    t := Then(Start, CallLoad(0));
    assert Legal(t) && End(t) == State(Absent, map[0 := LoadWait], 0, false, {});
    t := Then(t, Step(0, false));
    assert Legal(t) && End(t) == State(Absent, map[0 := LoadHeld], 0, false, {});
    t := Then(t, Step(0, false));
    assert Legal(t) && End(t) == State(Absent, map[0 := Fetching], 0, false, {});
    t := Then(t, Step(0, false));
  }

  lemma FailedWrite() returns (t: Trace)
    ensures Legal(t) && End(t) == State(Partial, map[], 1, true, {})
  {
    t := AboutToCreate();
    t := Then(t, Step(0, false));
    assert Legal(t) && End(t) == State(Partial, map[0 := Writing], 1, false, {});
    t := Then(t, Step(0, true));
    assert Legal(t) && End(t) == State(Partial, map[0 := LoadExit(false)], 1, true, {});
    t := Then(t, Step(0, false));
  }

  /** The hypothesis is needed: after a failed write the next check, made under
      the read lock, reports the truncated file as cached. */
  lemma FailedWriteIsReportedCached() returns (t: Trace)
    ensures Legal(t) && End(t).writeFailed && End(t).file == Partial
    ensures 1 in End(t).pcs && End(t).pcs[1] == CheckSeen(true)
  {
    t := FailedWrite();
    t := Then(t, CallCheck(1));
    assert Legal(t) && End(t) == State(Partial, map[1 := CheckWait], 1, true, {});
    t := Then(t, Step(1, false));
    assert Legal(t) && End(t) == State(Partial, map[1 := CheckHeld], 1, true, {});
    t := Then(t, Step(1, false));
  }
}
