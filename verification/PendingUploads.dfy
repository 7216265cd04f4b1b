/** Uploads that no release has claimed yet, and the files they keep alive
    (internal/app/handler/attachment.go). Time stands still during one call. */
module PendingUploads {
  type Token = string
  type Sha = string

  datatype Upload = Upload(address: string, repositoryId: nat, tagName: string, size: int, sha: Sha, expiresAt: int)

  type Pending = map<Token, Upload>

  predicate Live(u: Upload, now: int) { now < u.expiresAt }

  predicate Expired(u: Upload, now: int) { now > u.expiresAt }

  /** Some live upload needs the file. */
  ghost predicate Needed(pending: Pending, sha: Sha, now: int) {
    exists t :: t in pending && pending[t].sha == sha && Live(pending[t], now)
  }

  /** The file belonged to an expired upload. */
  ghost predicate Dropped(pending: Pending, sha: Sha, now: int) {
    exists t :: t in pending && pending[t].sha == sha && Expired(pending[t], now)
  }

  ghost function Unexpired(pending: Pending, now: int): Pending {
    map t | t in pending && !Expired(pending[t], now) :: pending[t]
  }

  ghost function FilesLeft(pending: Pending, files: set<Sha>, now: int): set<Sha> {
    set sha | sha in files && !(Dropped(pending, sha, now) && !Needed(pending, sha, now))
  }

  class Uploads {
    var pending: Pending
    var files: set<Sha>

    constructor ()
      ensures pending == map[] && files == {}
    {
      pending, files := map[], {};
    }

    method IsFileReferencedByOtherUploads(sha: Sha, exclude: Token, now: int) returns (found: bool)
      ensures found <==> exists t :: t in pending && t != exclude && pending[t].sha == sha && now < pending[t].expiresAt
    {
      var left := pending.Keys;
      while left != {}
        invariant left <= pending.Keys
        invariant forall t | t in pending && t !in left :: !(t != exclude && pending[t].sha == sha && Live(pending[t], now))
        decreases left
      {
        var t :| t in left;
        if t != exclude && pending[t].sha == sha && Live(pending[t], now) { return true; }
        left := left - {t};
      }
      found := false;
    }

    /** The map is ranged over in any order and loses entries on the way. */
    method CleanupExpiredUploads(now: int)
      modifies this
      ensures pending == Unexpired(old(pending), now)
      ensures files == FilesLeft(old(pending), old(files), now)
      ensures forall t :: t in pending <==> t in old(pending) && now <= old(pending)[t].expiresAt
      ensures forall t | t in pending :: pending[t] == old(pending)[t]
    {
      ghost var before, had := pending, files;
      var left := pending.Keys;
      while left != {}
        invariant left <= before.Keys
        invariant forall t :: t in pending <==> t in before && (t in left || !Expired(before[t], now))
        invariant forall t | t in pending :: pending[t] == before[t]
        invariant forall sha :: sha in files <==> sha in had && !(DroppedFrom(before, left, sha, now) && !Needed(before, sha, now))
        decreases left
      {
        var t :| t in left;
        var u := pending[t];
        var rest := left - {t};
        if Expired(u, now) {
          var found := IsFileReferencedByOtherUploads(u.sha, t, now);
          assert found <==> Needed(before, u.sha, now);
          if !found { files := files - {u.sha}; }
          pending := pending - {t};
        }
        forall sha ensures DroppedFrom(before, rest, sha, now)
                   <==> DroppedFrom(before, left, sha, now) || (Expired(u, now) && sha == u.sha) { }
        left := rest;
      }
    }

    method CalculatePendingUploadsSize(address: string, repositoryId: nat, tagName: string, now: int) returns (total: int)
      ensures total == SizeOf(pending, pending.Keys, Key(address, repositoryId, tagName), now)
    {
      total := 0;
      var left := pending.Keys;
      ghost var key := Key(address, repositoryId, tagName);
      while left != {}
        invariant left <= pending.Keys
        invariant total + SizeOf(pending, left, key, now) == SizeOf(pending, pending.Keys, key, now)
        decreases left
      {
        var t :| t in left;
        var u := pending[t];
        SizeWithout(pending, left, t, key, now);
        if u.address == address && u.repositoryId == repositoryId && u.tagName == tagName && Live(u, now) {
          total := total + u.size;
        }
        left := left - {t};
      }
    }
  }

  ghost predicate DroppedFrom(pending: Pending, left: set<Token>, sha: Sha, now: int) {
    exists t :: t in pending && t !in left && pending[t].sha == sha && Expired(pending[t], now)
  }

  // ----- sizes ---------------------------------------------------------

  datatype Key = Key(address: string, repositoryId: nat, tagName: string)

  function Share(u: Upload, key: Key, now: int): int {
    if Key(u.address, u.repositoryId, u.tagName) == key && Live(u, now) then u.size else 0
  }

  /** The sizes of the live uploads of one address for one release. */
  ghost function SizeOf(pending: Pending, tokens: set<Token>, key: Key, now: int): int
    requires tokens <= pending.Keys
    decreases |tokens|
  {
    if tokens == {} then 0
    else
      var t :| t in tokens;
      SizeOf(pending, tokens - {t}, key, now) + Share(pending[t], key, now)
  }

  lemma {:induction false} SizeWithout(pending: Pending, tokens: set<Token>, t: Token, key: Key, now: int)
    requires t in tokens && tokens <= pending.Keys
    ensures SizeOf(pending, tokens, key, now) == SizeOf(pending, tokens - {t}, key, now) + Share(pending[t], key, now)
    decreases |tokens|
  {
    var s :| s in tokens && SizeOf(pending, tokens, key, now) == SizeOf(pending, tokens - {s}, key, now) + Share(pending[s], key, now);
    if s != t {
      SizeWithout(pending, tokens - {s}, t, key, now);
      SizeWithout(pending, tokens - {t}, s, key, now);
      assert tokens - {s} - {t} == tokens - {t} - {s};
    }
  }

  /** A recorded upload counts for its own address, repository and tag while it is live,
      and for no other total; it takes the place of one with its token. */
  lemma RecordCharges(pending: Pending, t: Token, u: Upload, key: Key, now: int)
    ensures var after, rest := pending[t := u], pending - {t};
      SizeOf(after, after.Keys, key, now) == SizeOf(rest, rest.Keys, key, now)
        + if u.address == key.address && u.repositoryId == key.repositoryId && u.tagName == key.tagName && now < u.expiresAt
          then u.size else 0
  {
    var after, rest := pending[t := u], pending - {t};
    SizeWithout(after, after.Keys, t, key, now);
    assert after.Keys - {t} == rest.Keys;
    SameShares(rest, after, rest.Keys, key, now);
    assert rest.Keys * after.Keys == rest.Keys;
  }

  lemma {:induction false} SameShares(p: Pending, q: Pending, tokens: set<Token>, key: Key, now: int)
    requires tokens <= p.Keys
    requires forall t | t in tokens :: Share(p[t], key, now) == if t in q then Share(q[t], key, now) else 0
    ensures SizeOf(p, tokens, key, now) == SizeOf(q, tokens * q.Keys, key, now)
    decreases |tokens|
  {
    if tokens == {} {
      assert tokens * q.Keys == {};
    } else {
      var t :| t in tokens;
      SizeWithout(p, tokens, t, key, now);
      SameShares(p, q, tokens - {t}, key, now);
      if t in q {
        SizeWithout(q, tokens * q.Keys, t, key, now);
        assert (tokens - {t}) * q.Keys == tokens * q.Keys - {t};
      } else {
        assert (tokens - {t}) * q.Keys == tokens * q.Keys;
      }
    }
  }

  /** Cleaning up changes no total, neither now nor at any later time. */
  lemma CleanupKeepsSizes(pending: Pending, key: Key, now: int, later: int)
    requires now <= later
    ensures var after := Unexpired(pending, now);
      SizeOf(after, after.Keys, key, later) == SizeOf(pending, pending.Keys, key, later)
  {
    var after := Unexpired(pending, now);
    SameShares(pending, after, pending.Keys, key, later);
    assert pending.Keys * after.Keys == after.Keys;
  }

  // ----- files ---------------------------------------------------------

  /** A cleaning takes a file away exactly when an upload of it is past its time and none of
      its uploads has time left. */
  lemma CleanupTakesIff(pending: Pending, files: set<Sha>, now: int, sha: Sha)
    requires sha in files
    ensures sha !in FilesLeft(pending, files, now) <==>
      && (exists t :: t in pending && pending[t].sha == sha && pending[t].expiresAt < now)
      && (forall t | t in pending && pending[t].sha == sha :: pending[t].expiresAt <= now)
  {
    assert Needed(pending, sha, now) <==> exists t :: t in pending && pending[t].sha == sha && now < pending[t].expiresAt;
    assert Dropped(pending, sha, now) <==> exists t :: t in pending && pending[t].sha == sha && pending[t].expiresAt < now;
  }

  /** An upload that cleaning keeps loses its file exactly when it expires right now, no
      other upload of the same content lives on, and one of them has expired. */
  lemma KeptLosesFileIff(pending: Pending, files: set<Sha>, now: int, t: Token)
    requires t in Unexpired(pending, now) && pending[t].sha in files
    ensures pending[t].sha !in FilesLeft(pending, files, now) <==>
      && pending[t].expiresAt == now
      && (forall o | o in pending && pending[o].sha == pending[t].sha :: pending[o].expiresAt <= now)
      && (exists o :: o in pending && pending[o].sha == pending[t].sha && pending[o].expiresAt < now)
  {
    var sha := pending[t].sha;
    assert Needed(pending, sha, now) <==> exists o :: o in pending && pending[o].sha == sha && Live(pending[o], now);
    assert Dropped(pending, sha, now) <==> exists o :: o in pending && pending[o].sha == sha && pending[o].expiresAt < now;
  }

  /** Such an upload: two of the same content, one expired and one expiring right now. */
  lemma KeptUploadLosesFile(t: Token, o: Token, kept: Upload, gone: Upload)
    requires t != o && kept.sha == gone.sha && gone.expiresAt < kept.expiresAt
    ensures var pending, now := map[t := kept, o := gone], kept.expiresAt;
      Unexpired(pending, now) == map[t := kept] && FilesLeft(pending, {kept.sha}, now) == {}
  {
    var pending, now := map[t := kept, o := gone], kept.expiresAt;
    assert pending[o] == gone && Dropped(pending, kept.sha, now);
  }

  // ----- runs ----------------------------------------------------------

  datatype State = State(pending: Pending, files: set<Sha>)

  /** A request writes the file and records the upload later; a cleaning by another request
      may come in between. */
  datatype Action =
    | Write(sha: Sha)
    | Record(token: Token, upload: Upload)
    | Confirm(token: Token)
    | Cleanup

  datatype Event = Event(action: Action, at: int)

  ghost function Step(s: State, e: Event): State {
    match e.action
    case Write(sha) => s.(files := s.files + {sha})
    case Record(t, u) => s.(pending := s.pending[t := u])
    case Confirm(t) => s.(pending := s.pending - {t})
    case Cleanup => State(Unexpired(s.pending, e.at), FilesLeft(s.pending, s.files, e.at))
  }

  /** The state after the first `n` events. */
  ghost function Run(events: seq<Event>, n: nat): State
    requires n <= |events|
  {
    if n == 0 then State(map[], {}) else Step(Run(events, n - 1), events[n - 1])
  }

  predicate Monotone(events: seq<Event>) {
    forall i, j | 0 <= i <= j < |events| :: events[i].at <= events[j].at
  }

  /** No live upload is without its file. */
  ghost predicate LiveHaveFiles(s: State, now: int) {
    forall t | t in s.pending && Live(s.pending[t], now) :: s.pending[t].sha in s.files
  }

  /** Event `i` is a cleaning that takes the file away. */
  ghost predicate TakesAway(events: seq<Event>, i: nat, sha: Sha) {
    && i < |events| && events[i].action.Cleanup?
    && Dropped(Run(events, i).pending, sha, events[i].at) && !Needed(Run(events, i).pending, sha, events[i].at)
  }

  /** Event `w` writes the file and no later one before `n` takes it away. */
  ghost predicate Survives(events: seq<Event>, w: nat, n: nat, sha: Sha) {
    && w < n <= |events| && events[w].action == Write(sha)
    && forall i | w < i < n :: !TakesAway(events, i, sha)
  }

  lemma {:induction false} FileThereIff(events: seq<Event>, n: nat, sha: Sha)
    requires n <= |events|
    ensures sha in Run(events, n).files <==> exists w :: Survives(events, w, n, sha)
  {
    if n > 0 {
      FileThereIff(events, n - 1, sha);
      if w: nat :| Survives(events, w, n, sha) {
        if w < n - 1 { assert Survives(events, w, n - 1, sha) && !TakesAway(events, n - 1, sha); }
      }
      if sha in Run(events, n).files {
        if events[n - 1].action == Write(sha) {
          assert Survives(events, n - 1, n, sha);
        } else {
          var w :| Survives(events, w, n - 1, sha);
          assert Survives(events, w, n, sha);
        }
      }
    }
  }

  /** A step leaves every live upload with its file, unless it records one without. */
  lemma StepKeepsFiles(s: State, e: Event)
    requires LiveHaveFiles(s, e.at)
    ensures LiveHaveFiles(Step(s, e), e.at)
            <==> (e.action.Record? && Live(e.action.upload, e.at) ==> e.action.upload.sha in s.files)
  {
    if e.action.Record? {
      assert Step(s, e).pending[e.action.token] == e.action.upload;
    }
  }

  ghost predicate SafeAt(events: seq<Event>, n: nat)
    requires n <= |events|
  {
    n > 0 ==> LiveHaveFiles(Run(events, n), events[n - 1].at)
  }

  /** Event `j` does not record a live upload whose file did not survive since it was written. */
  ghost predicate RecordsWritten(events: seq<Event>, j: nat)
    requires j < |events|
  {
    events[j].action.Record? && Live(events[j].action.upload, events[j].at) ==>
      exists w :: Survives(events, w, j, events[j].action.upload.sha)
  }

  lemma {:induction false} SafeSoFar(events: seq<Event>, n: nat)
    requires Monotone(events) && n <= |events|
    requires forall j | 0 <= j < n :: RecordsWritten(events, j)
    ensures SafeAt(events, n)
  {
    if n > 0 {
      SafeSoFar(events, n - 1);
      var e := events[n - 1];
      assert LiveHaveFiles(Run(events, n - 1), e.at) by {
        if n > 1 { assert events[n - 2].at <= e.at; }
      }
      assert RecordsWritten(events, n - 1);
      if e.action.Record? { FileThereIff(events, n - 1, e.action.upload.sha); }
      StepKeepsFiles(Run(events, n - 1), e);
    }
  }

  /** Over every run whose clock does not go back: at all times all live uploads have their
      files, if and only if every recorded live upload was written before and no cleaning in
      between found that content dropped and not needed. */
  lemma LiveKeepFilesIff(events: seq<Event>)
    requires Monotone(events)
    ensures (forall n | 0 <= n <= |events| :: SafeAt(events, n)) <==> forall j | 0 <= j < |events| :: RecordsWritten(events, j)
  {
    if forall n | 0 <= n <= |events| :: SafeAt(events, n) {
      forall j | 0 <= j < |events| ensures RecordsWritten(events, j) {
        var e := events[j];
        if e.action.Record? && Live(e.action.upload, e.at) {
          assert SafeAt(events, j + 1);
          assert Run(events, j + 1).pending[e.action.token] == e.action.upload;
          FileThereIff(events, j, e.action.upload.sha);
        }
      }
    }
    if forall j | 0 <= j < |events| :: RecordsWritten(events, j) {
      forall n | 0 <= n <= |events| ensures SafeAt(events, n) { SafeSoFar(events, n); }
    }
  }

  /** In particular when no cleaning comes between writing and recording. */
  lemma LiveKeepFiles(events: seq<Event>)
    requires Monotone(events)
    requires forall j | 0 <= j < |events| && events[j].action.Record? ::
      exists w :: 0 <= w < j && events[w].action == Write(events[j].action.upload.sha)
                  && forall i | w < i < j :: !events[i].action.Cleanup?
    ensures forall n | 0 <= n <= |events| :: SafeAt(events, n)
  {
    forall j | 0 <= j < |events| ensures RecordsWritten(events, j) {
      if events[j].action.Record? {
        var w :| 0 <= w < j && events[w].action == Write(events[j].action.upload.sha)
                 && forall i | w < i < j :: !events[i].action.Cleanup?;
        assert Survives(events, w, j, events[j].action.upload.sha);
      }
    }
    LiveKeepFilesIff(events);
  }

  /** Cleaning between the two takes the file of an earlier, expired upload of the same
      content away from the new one. */
  lemma CleanupBetweenHalves(t: Token, t': Token, early: Upload, late: Upload, now: int)
    requires t != t' && early.sha == late.sha && Expired(early, now) && Live(late, now)
    ensures var events := [Event(Write(early.sha), early.expiresAt), Event(Record(t, early), early.expiresAt),
                           Event(Write(late.sha), now), Event(Cleanup, now), Event(Record(t', late), now)];
      Monotone(events) && !SafeAt(events, 5)
  {
    var events := [Event(Write(early.sha), early.expiresAt), Event(Record(t, early), early.expiresAt),
                   Event(Write(late.sha), now), Event(Cleanup, now), Event(Record(t', late), now)];
    assert Run(events, 0) == State(map[], {});
    assert Run(events, 1) == State(map[], {early.sha});
    assert Run(events, 2) == State(map[t := early], {early.sha});
    var s := Run(events, 3);
    assert s.pending == map[t := early] && s.pending[t] == early;
    assert Dropped(s.pending, early.sha, now) && !Needed(s.pending, early.sha, now);
    assert Run(events, 5).pending[t'] == late && late.sha !in Run(events, 4).files;
  }
}
