/** Page by page listing of tree entries, diffs and commits (utils/content.go,
    utils/diff.go, utils/commits.go) with page keys of eight bytes (utils/common.go). */
module Pagination {
  import opened Arithmetic
  import opened Wrappers

  // ----- the key codec -------------------------------------------------

  /** The lowest `n` bytes of `x`, most significant first. */
  function BigEndian(x: nat, n: nat): (bz: seq<byte>)
    ensures |bz| == n
  {
    if n == 0 then [] else BigEndian(x / 256, n - 1) + [x % 256]
  }

  function Value(bz: seq<byte>): nat {
    if bz == [] then 0 else Value(bz[..|bz| - 1]) * 256 + bz[|bz| - 1]
  }

  function Power256(n: nat): (r: nat)
    ensures r > 0
  {
    if n == 0 then 1 else 256 * Power256(n - 1)
  }

  lemma {:induction false} ValueBound(bz: seq<byte>)
    ensures Value(bz) < Power256(|bz|)
  {
    if bz != [] { ValueBound(bz[..|bz| - 1]); }
  }

  lemma {:induction false} DecodeEncode(x: nat, n: nat)
    requires x < Power256(n)
    ensures Value(BigEndian(x, n)) == x
  {
    if n > 0 {
      DecodeEncode(x / 256, n - 1);
      assert BigEndian(x, n)[..n - 1] == BigEndian(x / 256, n - 1);
    }
  }

  lemma {:induction false} EncodeDecode(bz: seq<byte>)
    ensures BigEndian(Value(bz), |bz|) == bz
  {
    if bz != [] {
      EncodeDecode(bz[..|bz| - 1]);
      assert Value(bz) / 256 == Value(bz[..|bz| - 1]);
    }
  }

  lemma Power256Of8()
    ensures Power256(8) == TWO_64
  {
    assert Power256(4) == 0x1_0000_0000;
    assert Power256(8) == 0x1_0000_0000 * Power256(4);
  }

  lemma DivTwice(x: nat, b: nat)
    requires b > 0
    ensures x / (256 * b) == x / 256 / b
  {
    var y := x / 256;
    var q, r := y / b, y % b;
    assert y == q * b + r;
    assert q * (256 * b) == 256 * (q * b);
    Quotient(x, 256 * b, q, 256 * r + x % 256);
  }

  lemma ByteAt(x: nat, n: nat, k: nat)
    requires k < n
    ensures BigEndian(x, n)[n - 1 - k] == x / Power256(k) % 256
  {
    if k > 0 {
      ByteAt(x / 256, n - 1, k - 1);
      DivTwice(x, Power256(k - 1));
    }
  }

  lemma SmallPowers()
    ensures Power256(1) == 0x100 && Power256(2) == 0x1_0000 && Power256(3) == 0x100_0000
    ensures Power256(4) == 0x1_0000_0000 && Power256(5) == 0x100_0000_0000
    ensures Power256(6) == 0x1_0000_0000_0000 && Power256(7) == 0x100_0000_0000_0000
  { }

  lemma BytesOf(x: nat, n: nat, bz: seq<byte>)
    requires |bz| == n
    requires forall i | 0 <= i < n :: bz[i] == x / Power256(n - 1 - i) % 256
    ensures bz == BigEndian(x, n)
  {
    forall i | 0 <= i < n ensures bz[i] == BigEndian(x, n)[i] { ByteAt(x, n, n - 1 - i); }
  }

  lemma EightBytes(x: uint64)
    ensures BigEndian(x, 8) ==
      [x / 0x100_0000_0000_0000, x / 0x1_0000_0000_0000 % 256, x / 0x100_0000_0000 % 256, x / 0x1_0000_0000 % 256,
       x / 0x100_0000 % 256, x / 0x1_0000 % 256, x / 0x100 % 256, x % 256]
  {
    SmallPowers();
    BytesOf(x, 8,
      [x / 0x100_0000_0000_0000, x / 0x1_0000_0000_0000 % 256, x / 0x100_0000_0000 % 256, x / 0x1_0000_0000 % 256,
       x / 0x100_0000 % 256, x / 0x1_0000 % 256, x / 0x100 % 256, x % 256]);
  }

  method UInt64ToBytes(id: uint64) returns (bz: array<byte>)
    ensures fresh(bz) && bz[..] == BigEndian(id, 8)
  {
    bz := new byte[8];
    EightBytes(id);
    bz[0] := id / 0x100_0000_0000_0000;
    bz[1] := id / 0x1_0000_0000_0000 % 256;
    bz[2] := id / 0x100_0000_0000 % 256;
    bz[3] := id / 0x1_0000_0000 % 256;
    bz[4] := id / 0x100_0000 % 256;
    bz[5] := id / 0x1_0000 % 256;
    bz[6] := id / 0x100 % 256;
    bz[7] := id % 256;
    assert bz[..] == BigEndian(id, 8);
  }

  /** Reads the first eight bytes of a key; a shorter one panics. */
  function BytesToUInt64(bz: seq<byte>): (id: uint64)
    requires |bz| >= 8
    ensures BigEndian(id, 8) == bz[..8]
  {
    Power256Of8();
    ValueBound(bz[..8]);
    EncodeDecode(bz[..8]);
    Value(bz[..8])
  }

  /** Keys name every 64-bit number, each by exactly one key. */
  lemma KeyRoundTrip(id: uint64, bz: seq<byte>)
    ensures BytesToUInt64(BigEndian(id, 8)) == id
    ensures |bz| == 8 ==> BigEndian(BytesToUInt64(bz), 8) == bz
  {
    Power256Of8();
    DecodeEncode(id, 8);
    assert BigEndian(id, 8)[..8] == BigEndian(id, 8);
    assert |bz| == 8 ==> bz[..8] == bz;
  }

  // ----- one page ------------------------------------------------------

  datatype Request = Request(offset: uint64, key: Option<seq<byte>>, limit: uint64, countTotal: bool)

  datatype Response = Response(nextKey: Option<seq<byte>>, total: nat)

  const DEFAULT_REQUEST := Request(0, None, 0, false)

  /** Entries of a tree or of a diff are paged in memory, commits by the skip and count of git log. */
  datatype Kind = Entries | Commits

  /** The page shows the indices from..to and may name a next index. */
  datatype Page = Page(from: nat, to: nat, next: Option<uint64>, total: nat)

  function Min(a: nat, b: nat): nat {
    if a < b then a else b
  }

  function KeyPage(n: nat, start: nat, limit: nat, total: nat): (p: Page)
    requires n < TWO_63
    ensures p.from <= p.to
  {
    if start >= n then Page(start, start, None, total)
    else Page(start, Min(start + limit, n), if start + limit < n then Some(start + limit) else None, total)
  }

  /** 64-bit addition, wrapping around. */
  function Plus(a: uint64, b: uint64): uint64 {
    if a + b < TWO_64 then a + b else a + b - TWO_64
  }

  /** Conversion of a 64-bit unsigned number to int. */
  function ToInt(x: uint64): int {
    if x < TWO_63 then x else x - TWO_64
  }

  /** Commits: git gets both numbers as int; it skips nothing for a negative skip and
      stops nowhere for a negative count. The sum that becomes the next key wraps around. */
  function CommitPage(n: nat, start: uint64, limit: uint64, total: nat): (p: Page)
    requires n < TWO_63
    ensures p.from <= p.to
  {
    var skip := if ToInt(start) < 0 then 0 else ToInt(start);
    var end := Plus(start, limit);
    Page(skip,
         if skip >= n then skip else if ToInt(limit) < 0 then n else Min(skip + limit, n),
         if end < n then Some(end) else None,
         total)
  }

  /** Both sums wrap around; the next index is the one after the first that was not shown. */
  function OffsetPage(n: nat, offset: uint64, limit: uint64, total: nat): (p: Page)
    requires n < TWO_63
    ensures p.from <= p.to
  {
    var end := Plus(offset, limit);
    var after := Plus(end, 1);
    Page(offset,
         if offset < n && offset < end then Min(end, n) else offset,
         if offset <= after < n && end <= after then Some(after) else None,
         total)
  }

  function Effective(limit: uint64, defaultLimit: uint64): uint64 {
    if limit == 0 then defaultLimit else limit
  }

  function Plan(kind: Kind, n: nat, request: Option<Request>, defaultLimit: uint64): Result<Page>
    requires n < TWO_63
  {
    var r := if request.Some? then request.value else DEFAULT_REQUEST;
    var limit := Effective(r.limit, defaultLimit);
    var counted := if r.countTotal || (kind.Entries? && r.limit == 0) then n else 0;
    if r.offset > 0 && r.key.Some? then Err("invalid request, either offset or key is expected, got both")
    else if r.key.Some? && r.key.value != [] then
      if |r.key.value| < 8 then Err("panic: index out of range")
      else if kind.Entries? then Ok(KeyPage(n, BytesToUInt64(r.key.value), limit, 0))
      else Ok(CommitPage(n, BytesToUInt64(r.key.value), limit, counted))
    else if kind.Entries? then Ok(OffsetPage(n, r.offset, limit, counted))
    else Ok(CommitPage(n, r.offset, limit, counted))
  }

  /** Where the page of a request begins: at its key if it has one, else at its offset. */
  function StartOf(request: Option<Request>): uint64
  {
    match request
    case None => 0
    case Some(r) => match r.key
                    case None => r.offset
                    case Some(key) => if key == [] then r.offset else if |key| < 8 then 0 else BytesToUInt64(key)
  }

  /** A request fails exactly when it has both an offset and a key, even an empty one, or a
      key of fewer than eight bytes. */
  lemma PlanFailsIff(kind: Kind, n: nat, request: Option<Request>, defaultLimit: uint64)
    requires n < TWO_63
    ensures Plan(kind, n, request, defaultLimit).Err? <==>
      && request.Some? && request.value.key.Some?
      && (request.value.offset > 0 || 0 < |request.value.key.value| < 8)
  { }

  /** The total is told to whoever asks for it; for trees and diffs never with a key, and
      otherwise also to whoever gives no limit. */
  lemma PlanTotal(kind: Kind, n: nat, request: Option<Request>, defaultLimit: uint64, page: Page)
    requires n < TWO_63 && Plan(kind, n, request, defaultLimit) == Ok(page)
    ensures var asked := request.Some? && request.value.countTotal;
      var unlimited := request.None? || request.value.limit == 0;
      var keyed := request.Some? && request.value.key.Some? && request.value.key.value != [];
      match kind
      case Entries => page.total == if !keyed && (asked || unlimited) then n else 0
      case Commits => page.total == if asked then n else 0
  { }

  lemma SmallPages(n: nat, start: nat, limit: nat, total: nat)
    requires n < TWO_63 && start + limit < TWO_63
    ensures var end := if n <= start then start else if n - start <= limit then n else start + limit;
      && KeyPage(n, start, limit, total) == Page(start, end, if start + limit < n then Some(start + limit) else None, total)
      && CommitPage(n, start, limit, total) == KeyPage(n, start, limit, total)
      && OffsetPage(n, start, limit, total)
         == Page(start, end, if start + limit + 1 < n then Some(start + limit + 1) else None, total)
  { }

  /** With numbers that do not overflow, the page shows as many as it may of what is left
      from its start on; nothing more to ask for is left exactly when it reaches the end or,
      by offset in trees and diffs, all but one. */
  lemma PlanShows(kind: Kind, n: nat, request: Option<Request>, defaultLimit: uint64, page: Page, limit: nat)
    requires n < TWO_63 && Plan(kind, n, request, defaultLimit) == Ok(page)
    requires limit == if request.None? || request.value.limit == 0 then defaultLimit else request.value.limit
    requires StartOf(request) + limit < TWO_63
    ensures page.from == StartOf(request)
    ensures page.to - page.from == if n <= page.from then 0 else if n - page.from <= limit then n - page.from else limit
    ensures var keyed := request.Some? && request.value.key.Some? && request.value.key.value != [];
      var skipped := if kind.Entries? && !keyed then 1 else 0;
      page.next == if page.from + limit + skipped < n then Some(page.from + limit + skipped) else None
  {
    SmallPages(n, StartOf(request), limit, page.total);
    PlanIs(kind, n, request, defaultLimit, page, limit);
  }

  lemma PlanIs(kind: Kind, n: nat, request: Option<Request>, defaultLimit: uint64, page: Page, limit: uint64)
    requires n < TWO_63 && Plan(kind, n, request, defaultLimit) == Ok(page)
    requires limit == if request.None? || request.value.limit == 0 then defaultLimit else request.value.limit
    ensures var start := StartOf(request);
      var keyed := request.Some? && request.value.key.Some? && request.value.key.value != [];
      page == if kind.Commits? then CommitPage(n, start, limit, page.total)
              else if keyed then KeyPage(n, start, limit, page.total) else OffsetPage(n, start, limit, page.total)
  { }

  /** The items of the page in order up to the first that fails, and the response only
      if none fails. */
  ghost predicate Delivers<T>(items: seq<Result<T>>, page: Page, resp: Result<Response>, shown: seq<T>)
    requires page.from <= page.to
  {
    && Shows(items, page.from, shown)
    && if |shown| == page.to - page.from
       then resp == Ok(Response(if page.next.Some? then Some(BigEndian(page.next.value, 8)) else None, page.total))
       else |shown| < page.to - page.from && Fails(items, page.from + |shown|, resp)
  }

  ghost predicate Shows<T>(items: seq<Result<T>>, from: nat, shown: seq<T>) {
    forall k | 0 <= k < |shown| :: from + k < |items| && items[from + k] == Ok(shown[k])
  }

  ghost predicate Fails<T>(items: seq<Result<T>>, i: nat, resp: Result<Response>) {
    i < |items| && items[i].Err? && resp == Err(items[i].reason)
  }

  method EntriesByKey<T>(items: seq<Result<T>>, start: uint64, limit: uint64)
    returns (resp: Result<Response>, shown: seq<T>)
    requires |items| < TWO_63
    ensures Delivers(items, KeyPage(|items|, start, limit, 0), resp, shown)
  {
    shown := [];
    var nextKey := None;
    var i := start;
    while i < |items|
      invariant |shown| == i - start <= limit
      invariant i == start || i <= |items|
      invariant Shows(items, start, shown)
    {
      if |shown| == limit {
        var bz := UInt64ToBytes(i);
        nextKey := Some(bz[..]);
        break;
      }
      match items[i]
      case Err(reason) => return Err(reason), shown;
      case Ok(value) => shown := shown + [value];
      i := i + 1;
    }
    resp := Ok(Response(nextKey, 0));
  }

  method EntriesByOffset<T>(items: seq<Result<T>>, offset: uint64, limit: uint64, countTotal: bool)
    returns (resp: Result<Response>, shown: seq<T>)
    requires |items| < TWO_63
    ensures Delivers(items, OffsetPage(|items|, offset, limit, if countTotal then |items| else 0), resp, shown)
  {
    shown := [];
    var nextKey := None;
    var end := Plus(offset, limit);
    var after := Plus(end, 1);
    var i := offset;
    while i < |items|
      invariant offset <= i && (i == offset || i <= |items|)
      invariant |shown| == if offset < end then Min(i, end) - offset else 0
      invariant Shows(items, offset, shown)
      invariant !(offset <= after < i && end <= after)
    {
      if i < end {
        match items[i]
        case Err(reason) => return Err(reason), shown;
        case Ok(value) => shown := shown + [value];
      } else if i == after {
        var bz := UInt64ToBytes(i);
        nextKey := Some(bz[..]);
        break;
      }
      i := i + 1;
    }
    resp := Ok(Response(nextKey, if countTotal then |items| else 0));
  }

  ghost predicate Answers<T>(items: seq<Result<T>>, plan: Result<Page>, resp: Result<Response>, shown: seq<T>) {
    match plan
    case Err(reason) => resp == Err(reason) && shown == []
    case Ok(page) => page.from <= page.to && Delivers(items, page, resp, shown)
  }

  /** PaginateTreeContentResponse and PaginateDiffResponse, their two loops kept apart; an
      item is an error when the conversion of the entry or the callback on it fails. */
  method PaginateEntries<T>(items: seq<Result<T>>, request: Option<Request>, defaultLimit: uint64)
    returns (resp: Result<Response>, shown: seq<T>)
    requires |items| < TWO_63
    ensures Answers(items, Plan(Entries, |items|, request, defaultLimit), resp, shown)
  {
    var r := if request.Some? then request.value else DEFAULT_REQUEST;
    var limit, countTotal := r.limit, r.countTotal;
    if r.offset > 0 && r.key.Some? {
      return Err("invalid request, either offset or key is expected, got both"), [];
    }
    if limit == 0 { limit, countTotal := defaultLimit, true; }
    if r.key.Some? && |r.key.value| != 0 {
      if |r.key.value| < 8 { return Err("panic: index out of range"), []; }
      resp, shown := EntriesByKey(items, BytesToUInt64(r.key.value), limit);
    } else {
      resp, shown := EntriesByOffset(items, r.offset, limit, countTotal);
    }
  }

  /** `git log --max-count=limit --skip=offset` on a history that does not change. */
  function CommitHistory<T>(history: seq<T>, offset: int, limit: int): seq<T> {
    var skip := if offset < 0 then 0 else offset;
    if skip >= |history| then []
    else if limit < 0 then history[skip..]
    else history[skip..Min(skip + limit, |history|)]
  }

  method GrabCommits<T>(ghost history: seq<Result<T>>, ghost start: nat, commits: seq<Result<T>>)
    returns (error: Option<string>, shown: seq<T>)
    requires start + |commits| <= |history| || commits == []
    requires forall i | 0 <= i < |commits| :: commits[i] == history[start + i]
    ensures Shows(history, start, shown)
    ensures error.None? ==> |shown| == |commits|
    ensures error.Some? ==> |shown| < |commits| && commits[|shown|] == Err(error.value)
  {
    shown := [];
    for i := 0 to |commits|
      invariant |shown| == i
      invariant Shows(history, start, shown)
    {
      match commits[i]
      case Err(reason) => return Some(reason), shown;
      case Ok(value) => shown := shown + [value];
    }
    error := None;
  }

  /** The part that the two branches of the source repeat. */
  method CommitsFrom<T>(history: seq<Result<T>>, start: uint64, limit: uint64, countTotal: bool)
    returns (resp: Result<Response>, shown: seq<T>)
    requires |history| < TWO_63
    ensures Delivers(history, CommitPage(|history|, start, limit, if countTotal then |history| else 0), resp, shown)
  {
    var end: uint64 := Plus(start, limit);
    var commits := CommitHistory(history, ToInt(start), ToInt(limit));
    var error;
    error, shown := GrabCommits(history, if ToInt(start) < 0 then 0 else ToInt(start), commits);
    if error.Some? { return Err(error.value), shown; }
    var nextKey := None;
    if |history| > end {
      var bz := UInt64ToBytes(end);
      nextKey := Some(bz[..]);
    }
    resp := Ok(Response(nextKey, if countTotal then |history| else 0));
  }

  /** PaginateCommitHistoryResponse: a commit is an error when it cannot be read or the
      callback on it fails. */
  method PaginateCommitHistory<T>(history: seq<Result<T>>, request: Option<Request>, defaultLimit: uint64)
    returns (resp: Result<Response>, shown: seq<T>)
    requires |history| < TWO_63
    ensures Answers(history, Plan(Commits, |history|, request, defaultLimit), resp, shown)
  {
    var r := if request.Some? then request.value else DEFAULT_REQUEST;
    if r.offset > 0 && r.key.Some? {
      return Err("invalid request, either offset or key is expected, got both"), [];
    }
    var limit := if r.limit == 0 then defaultLimit else r.limit;
    var start := r.offset;
    if r.key.Some? && |r.key.value| != 0 {
      if |r.key.value| < 8 { return Err("panic: index out of range"), []; }
      start := BytesToUInt64(r.key.value);
    }
    resp, shown := CommitsFrom(history, start, limit, r.countTotal);
  }

  // ----- following the keys --------------------------------------------

  function Range(from: nat, to: nat): (r: seq<nat>)
    ensures |r| == if from < to then to - from else 0
    ensures (forall i | 0 <= i < |r| :: r[i] == from + i)
    decreases if from < to then to - from else 0
  {
    if from >= to then [] else [from] + Range(from + 1, to)
  }

  /** The next request of a client: the key it was given, any limit it likes. */
  function Next(k: uint64, limit: uint64): Option<Request> {
    Some(Request(0, Some(BigEndian(k, 8)), limit, false))
  }

  /** The page that a key leads to. */
  lemma NextPage(n: nat, k: uint64, limit: uint64, defaultLimit: uint64)
    requires n < TWO_63
    ensures Plan(Entries, n, Next(k, limit), defaultLimit) == Ok(KeyPage(n, k, Effective(limit, defaultLimit), 0))
    ensures Plan(Commits, n, Next(k, limit), defaultLimit) == Ok(CommitPage(n, k, Effective(limit, defaultLimit), 0))
  {
    KeyRoundTrip(k, []);
  }

  lemma RangeConcat(a: nat, b: nat, c: nat)
    requires a <= b <= c
    ensures Range(a, b) + Range(b, c) == Range(a, c)
  { }

  // ----- trees and diffs -----------------------------------------------

  /** The indices a client sees that follows the keys from `k` on to the end, page by page
      as NextPage has them. */
  function KeyChain(n: nat, k: uint64, limits: nat -> uint64, step: nat, defaultLimit: uint64): seq<nat>
    requires n < TWO_63 && defaultLimit > 0
    decreases if k < n then n - k else 0
  {
    var page := KeyPage(n, k, Effective(limits(step), defaultLimit), 0);
    Range(page.from, page.to)
    + if page.next.None? then [] else KeyChain(n, page.next.value, limits, step + 1, defaultLimit)
  }

  /** Whatever limits a client asks for, following the keys from `k` shows every index
      from `k` on, once and in order, and ends. */
  lemma {:induction false} KeyChainCovers(n: nat, k: uint64, limits: nat -> uint64, step: nat, defaultLimit: uint64)
    requires n < TWO_63 && defaultLimit > 0
    ensures KeyChain(n, k, limits, step, defaultLimit) == Range(k, n)
    decreases if k < n then n - k else 0
  {
    var page := KeyPage(n, k, Effective(limits(step), defaultLimit), 0);
    if page.next.Some? {
      KeyChainCovers(n, page.next.value, limits, step + 1, defaultLimit);
      RangeConcat(k, page.next.value, n);
    }
  }

  /** The indices of a page and of those that its key leads to. */
  function PageChain(n: nat, page: Page, limits: nat -> uint64, defaultLimit: uint64): seq<nat>
    requires n < TWO_63 && defaultLimit > 0
  {
    Range(page.from, page.to)
    + if page.next.None? then [] else KeyChain(n, page.next.value, limits, 0, defaultLimit)
  }

  /** The first page of an offset request. */
  function FirstPage(kind: Kind, n: nat, offset: uint64, limit: uint64, defaultLimit: uint64): Page
    requires n < TWO_63
  {
    Plan(kind, n, Some(Request(offset, None, limit, false)), defaultLimit).value
  }

  lemma PageChainIs(n: nat, page: Page, limits: nat -> uint64, defaultLimit: uint64)
    requires n < TWO_63 && defaultLimit > 0
    ensures PageChain(n, page, limits, defaultLimit)
            == Range(page.from, page.to) + if page.next.None? then [] else Range(page.next.value, n)
  {
    if page.next.Some? { KeyChainCovers(n, page.next.value, limits, 0, defaultLimit); }
  }

  lemma ShortPage(n: nat, offset: uint64, limit: uint64, total: nat)
    requires n < TWO_63 && offset + limit < n && limit > 0
    ensures var skipped := offset + limit;
      OffsetPage(n, offset, limit, total)
      == Page(offset, skipped, if skipped + 1 < n then Some(skipped + 1) else None, total)
  { }

  lemma LongPage(n: nat, offset: uint64, limit: uint64, total: nat)
    requires n < TWO_63 && n <= offset + limit
    ensures OffsetPage(n, offset, limit, total) ==
      if offset >= n || (offset + limit >= TWO_64 && limit < TWO_64 - 1) then Page(offset, offset, None, total)
      else if offset + limit < TWO_64 then Page(offset, n, None, total)
      else Page(offset, offset, Some(offset), total)
  { }

  /** A chain begun by a page that leaves out the index after it. */
  lemma SkippingChain(n: nat, page: Page, limits: nat -> uint64, defaultLimit: uint64)
    requires n < TWO_63 && defaultLimit > 0 && page.to < n
    requires page.next == if page.to + 1 < n then Some(page.to + 1) else None
    ensures PageChain(n, page, limits, defaultLimit) == Range(page.from, page.to) + Range(page.to + 1, n)
  {
    PageChainIs(n, page, limits, defaultLimit);
    assert (if page.next.None? then [] else Range(page.next.value, n)) == Range(page.to + 1, n);
  }

  /** Trees and diffs: the index right after the first page is skipped. */
  lemma EntryChainSkipsOne(n: nat, offset: uint64, limit: uint64, limits: nat -> uint64, defaultLimit: uint64, page: Page)
    requires n < TWO_63 && defaultLimit > 0
    requires page == FirstPage(Entries, n, offset, limit, defaultLimit)
    requires offset + Effective(limit, defaultLimit) < n
    ensures page.to == offset + Effective(limit, defaultLimit)
    ensures PageChain(n, page, limits, defaultLimit) == Range(offset, page.to) + Range(page.to + 1, n)
  {
    ShortPage(n, offset, Effective(limit, defaultLimit), page.total);
    SkippingChain(n, page, limits, defaultLimit);
  }

  /** For any 64-bit offset and limit: a chain over a tree or a diff shows all that follows
      the offset if and only if nothing follows it, or the first page reaches the end, or
      the sum wraps around to just below the offset. */
  lemma EntryChainCoversIff(n: nat, offset: uint64, limit: uint64, limits: nat -> uint64, defaultLimit: uint64, page: Page)
    requires n < TWO_63 && defaultLimit > 0
    requires page == FirstPage(Entries, n, offset, limit, defaultLimit)
    ensures var eff := Effective(limit, defaultLimit);
      PageChain(n, page, limits, defaultLimit) == Range(offset, n)
      <==> offset >= n || n <= offset + eff < TWO_64 || eff == TWO_64 - 1
  {
    var eff := Effective(limit, defaultLimit);
    if offset + eff < n {
      EntryChainSkipsOne(n, offset, limit, limits, defaultLimit, page);
    } else {
      LongPage(n, offset, eff, page.total);
      PageChainIs(n, page, limits, defaultLimit);
    }
  }

  // ----- commits -------------------------------------------------------

  /** What a client has seen, and the key it was given last. */
  datatype Trail = Trail(seen: seq<nat>, next: Option<uint64>)

  /** A page and up to `more` pages that the keys lead to, as NextPage has them; such a
      chain need not end. */
  function CommitTrail(n: nat, page: Page, limits: nat -> uint64, step: nat, defaultLimit: uint64, more: nat): Trail
    requires n < TWO_63
    decreases more
  {
    if page.next.None? || more == 0 then Trail(Range(page.from, page.to), page.next)
    else
      var following := CommitPage(n, page.next.value, Effective(limits(step), defaultLimit), 0);
      var rest := CommitTrail(n, following, limits, step + 1, defaultLimit, more - 1);
      Trail(Range(page.from, page.to) + rest.seen, rest.next)
  }

  /** The chain begun by the page ends and shows exactly the indices from `from` on, once
      and in order. */
  ghost predicate Covers(n: nat, page: Page, from: nat, limits: nat -> uint64, step: nat, defaultLimit: uint64)
    requires n < TWO_63
  {
    exists more :: CommitTrail(n, page, limits, step, defaultLimit, more) == Trail(Range(from, n), None)
  }

  /** The first of `s`, `s` plus one more limit, and so on that reaches the end. */
  function SumToEnd(n: nat, s: nat, limits: nat -> uint64, step: nat, defaultLimit: uint64): (r: nat)
    requires defaultLimit > 0
    ensures r >= s && r >= n
    decreases if s < n then n - s else 0
  {
    if s >= n then s else SumToEnd(n, s + Effective(limits(step), defaultLimit), limits, step + 1, defaultLimit)
  }

  lemma PlainPage(n: nat, k: uint64, limit: uint64, total: nat)
    requires k < n < TWO_63
    ensures CommitPage(n, k, limit, total) ==
      if k + limit < TWO_64 then Page(k, Min(k + limit, n), if k + limit < n then Some(k + limit) else None, total)
      else Page(k, n, Some(k + limit - TWO_64), total)
  { }

  lemma {:induction false} TrailCovers(
    n: nat, k: uint64, limit: uint64, total: nat, limits: nat -> uint64, step: nat, defaultLimit: uint64) returns (more: nat)
    requires k < n < TWO_63 && limit > 0 && defaultLimit > 0
    requires SumToEnd(n, k + limit, limits, step, defaultLimit) < TWO_64
    ensures CommitTrail(n, CommitPage(n, k, limit, total), limits, step, defaultLimit, more) == Trail(Range(k, n), None)
    decreases n - k
  {
    PlainPage(n, k, limit, total);
    more := 0;
    if k + limit < n {
      var least := TrailCovers(n, k + limit, Effective(limits(step), defaultLimit), 0, limits, step + 1, defaultLimit);
      more := least + 1;
      RangeConcat(k, k + limit, n);
    }
  }

  lemma TrailShowsFirst(n: nat, page: Page, limits: nat -> uint64, step: nat, defaultLimit: uint64, more: nat)
    requires n < TWO_63
    ensures Range(page.from, page.to) <= CommitTrail(n, page, limits, step, defaultLimit, more).seen
  { }

  /** A chain that has ended went on from every page that names a key. */
  lemma TrailGoesOn(n: nat, page: Page, limits: nat -> uint64, step: nat, defaultLimit: uint64, more: nat) returns (rest: Trail)
    requires n < TWO_63 && page.next.Some?
    requires CommitTrail(n, page, limits, step, defaultLimit, more).next == None
    ensures more > 0
    ensures rest == CommitTrail(n, CommitPage(n, page.next.value, Effective(limits(step), defaultLimit), 0), limits, step + 1, defaultLimit, more - 1)
    ensures rest.next == None
    ensures CommitTrail(n, page, limits, step, defaultLimit, more).seen == Range(page.from, page.to) + rest.seen
  {
    rest := CommitTrail(n, CommitPage(n, page.next.value, Effective(limits(step), defaultLimit), 0), limits, step + 1, defaultLimit, more - 1);
  }

  lemma RangeTail(a: nat, b: nat, c: nat, rest: seq<nat>)
    requires a <= b <= c && Range(a, b) + rest == Range(a, c)
    ensures rest == Range(b, c)
  {
    assert rest == Range(a, c)[b - a..];
  }

  /** Behind a key below the end there is something to show. */
  lemma KeyShowsMore(n: nat, page: Page, limits: nat -> uint64, step: nat, defaultLimit: uint64, more: nat)
    requires n < TWO_63 && defaultLimit > 0 && page.next.Some? && page.next.value < n
    requires CommitTrail(n, page, limits, step, defaultLimit, more).next == None
    ensures |CommitTrail(n, page, limits, step, defaultLimit, more).seen| > |Range(page.from, page.to)|
  {
    var rest := TrailGoesOn(n, page, limits, step, defaultLimit, more);
    var key, eff := page.next.value, Effective(limits(step), defaultLimit);
    PlainPage(n, key, eff, 0);
    TrailShowsFirst(n, CommitPage(n, key, eff, 0), limits, step + 1, defaultLimit, more - 1);
  }

  lemma NoWrapBack(n: nat, k: uint64, limit: uint64, page: Page, limits: nat -> uint64, step: nat, defaultLimit: uint64, more: nat)
    requires k < n < TWO_63 && defaultLimit > 0 && page == CommitPage(n, k, limit, page.total)
    requires CommitTrail(n, page, limits, step, defaultLimit, more) == Trail(Range(k, n), None)
    ensures k + limit < TWO_64
  {
    PlainPage(n, k, limit, page.total);
    if k + limit >= TWO_64 {
      KeyShowsMore(n, page, limits, step, defaultLimit, more);
      assert false;
    }
  }

  lemma TrailTail(n: nat, k: uint64, limit: uint64, page: Page, limits: nat -> uint64, step: nat, defaultLimit: uint64, more: nat)
    requires k + limit < n < TWO_63 && page == CommitPage(n, k, limit, page.total)
    requires CommitTrail(n, page, limits, step, defaultLimit, more) == Trail(Range(k, n), None)
    ensures more > 0
    ensures CommitTrail(n, CommitPage(n, k + limit, Effective(limits(step), defaultLimit), 0), limits, step + 1, defaultLimit, more - 1)
            == Trail(Range(k + limit, n), None)
  {
    PlainPage(n, k, limit, page.total);
    var rest := TrailGoesOn(n, page, limits, step, defaultLimit, more);
    RangeTail(k, k + limit, n, rest.seen);
  }

  lemma {:induction false} TrailForces(
    n: nat, k: uint64, limit: uint64, page: Page, limits: nat -> uint64, step: nat, defaultLimit: uint64, more: nat)
    requires k < n < TWO_63 && limit > 0 && defaultLimit > 0 && page == CommitPage(n, k, limit, page.total)
    requires CommitTrail(n, page, limits, step, defaultLimit, more) == Trail(Range(k, n), None)
    ensures SumToEnd(n, k + limit, limits, step, defaultLimit) < TWO_64
    decreases n - k
  {
    NoWrapBack(n, k, limit, page, limits, step, defaultLimit, more);
    if k + limit < n {
      var eff := Effective(limits(step), defaultLimit);
      TrailTail(n, k, limit, page, limits, step, defaultLimit, more);
      TrailForces(n, k + limit, eff, CommitPage(n, k + limit, eff, 0), limits, step + 1, defaultLimit, more - 1);
    }
  }

  /** Commits, for any 64-bit offset and limits: a chain ends and shows exactly the commits
      from the offset on if and only if there are none at all, or the first sum of offset
      and limits that reaches the end does not wrap around, or, past the end, the offset is
      not negative as int and the wrapped sum is past the end, too. */
  lemma CommitChainCoversIff(n: nat, offset: uint64, limit: uint64, limits: nat -> uint64, defaultLimit: uint64, page: Page)
    requires n < TWO_63 && defaultLimit > 0
    requires page == FirstPage(Commits, n, offset, limit, defaultLimit)
    ensures var eff := Effective(limit, defaultLimit);
      Covers(n, page, offset, limits, 0, defaultLimit) <==>
      || n == 0
      || if offset < n then SumToEnd(n, offset + eff, limits, 0, defaultLimit) < TWO_64
         else offset < TWO_63 && Plus(offset, eff) >= n
  {
    var eff := Effective(limit, defaultLimit);
    assert page == CommitPage(n, offset, eff, page.total);
    if offset < n {
      InsideCoversIff(n, offset, eff, page, limits, defaultLimit);
    } else {
      OutsideCoversIff(n, offset, eff, page, limits, defaultLimit);
    }
  }

  lemma InsideCoversIff(n: nat, offset: uint64, eff: uint64, page: Page, limits: nat -> uint64, defaultLimit: uint64)
    requires offset < n < TWO_63 && eff > 0 && defaultLimit > 0 && page == CommitPage(n, offset, eff, page.total)
    ensures Covers(n, page, offset, limits, 0, defaultLimit) <==> SumToEnd(n, offset + eff, limits, 0, defaultLimit) < TWO_64
  {
    if SumToEnd(n, offset + eff, limits, 0, defaultLimit) < TWO_64 {
      var more := TrailCovers(n, offset, eff, page.total, limits, 0, defaultLimit);
    }
    if more: nat :| CommitTrail(n, page, limits, 0, defaultLimit, more) == Trail(Range(offset, n), None) {
      TrailForces(n, offset, eff, page, limits, 0, defaultLimit, more);
    }
  }

  lemma OutsideCoversIff(n: nat, offset: uint64, eff: uint64, page: Page, limits: nat -> uint64, defaultLimit: uint64)
    requires n <= offset && n < TWO_63 && eff > 0 && defaultLimit > 0 && page == CommitPage(n, offset, eff, page.total)
    ensures Covers(n, page, offset, limits, 0, defaultLimit) <==> n == 0 || (offset < TWO_63 && Plus(offset, eff) >= n)
  {
    if n == 0 || (offset < TWO_63 && Plus(offset, eff) >= n) {
      assert CommitTrail(n, page, limits, 0, defaultLimit, 0) == Trail(Range(offset, n), None);
    }
    if more: nat :| CommitTrail(n, page, limits, 0, defaultLimit, more) == Trail(Range(offset, n), None) {
      TrailShowsFirst(n, page, limits, 0, defaultLimit, more);
      assert |Range(page.from, page.to)| == 0;
      if page.next.Some? {
        KeyShowsMore(n, page, limits, 0, defaultLimit, more);
        assert false;
      }
    }
  }

  /** With numbers that int can hold nothing is left out or repeated. */
  lemma CommitChainCovers(n: nat, offset: uint64, limit: uint64, limits: nat -> uint64, defaultLimit: uint64, page: Page)
    requires n < TWO_63 && 0 < defaultLimit < TWO_63
    requires page == FirstPage(Commits, n, offset, limit, defaultLimit)
    requires offset < TWO_63 && limit < TWO_63 && forall step :: limits(step) < TWO_63
    ensures Covers(n, page, offset, limits, 0, defaultLimit)
  {
    CommitChainCoversIff(n, offset, limit, limits, defaultLimit, page);
    if offset < n { SmallSum(n, offset + Effective(limit, defaultLimit), limits, 0, defaultLimit); }
  }

  lemma {:induction false} SmallSum(n: nat, s: nat, limits: nat -> uint64, step: nat, defaultLimit: uint64)
    requires n < TWO_63 && 0 < defaultLimit < TWO_63 && s < TWO_64 && forall i :: limits(i) < TWO_63
    ensures SumToEnd(n, s, limits, step, defaultLimit) < TWO_64
    decreases if s < n then n - s else 0
  {
    if s < n { SmallSum(n, s + Effective(limits(step), defaultLimit), limits, step + 1, defaultLimit); }
  }

  /** Ten commits from the sixth on with the largest limit: the page shows five of them and
      leads back to the fifth. */
  lemma CommitsRepeat(limits: nat -> uint64) returns (page: Page)
    ensures page == FirstPage(Commits, 10, 5, TWO_64 - 1, 100)
    ensures page.from == 5 && page.to == 10 && page.next == Some(4)
    ensures !Covers(10, page, 5, limits, 0, 100)
  {
    page := FirstPage(Commits, 10, 5, TWO_64 - 1, 100);
    CommitChainCoversIff(10, 5, TWO_64 - 1, limits, 100, page);
  }
}
