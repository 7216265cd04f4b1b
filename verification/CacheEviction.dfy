/** The three clearing passes of utils/cache_manager.go: first by age, then,
    if what is left is too big, oldest first until it fits.  Clock and locks do
    not change during one call. */
module CacheEviction {
  import opened Wrappers

  type Name = string

  // ----- sizes ---------------------------------------------------------

  /** A directory tree as filepath.Walk meets it. */
  datatype Tree = Unreadable | Leaf(size: nat) | Node(children: seq<Tree>)

  /** calculateDirSize: the walk adds file sizes to one counter and stops at the first error. */
  function Walk(t: Tree, acc: nat): Option<nat> {
    match t
    case Unreadable => None
    case Leaf(size) => Some(acc + size)
    case Node(children) => WalkAll(children, acc)
  }

  function WalkAll(ts: seq<Tree>, acc: nat): Option<nat> {
    if ts == [] then Some(acc)
    else match Walk(ts[0], acc)
         case None => None
         case Some(acc') => WalkAll(ts[1..], acc')
  }

  predicate Readable(t: Tree) {
    match t
    case Unreadable => false
    case Leaf(_) => true
    case Node(children) => forall c | c in children :: Readable(c)
  }

  function LeafSum(t: Tree): nat {
    match t
    case Unreadable => 0
    case Leaf(size) => size
    case Node(children) => LeafSums(children)
  }

  function LeafSums(ts: seq<Tree>): nat {
    if ts == [] then 0 else LeafSum(ts[0]) + LeafSums(ts[1..])
  }

  /** The walk finds the total of all files, whatever was counted before, or fails
      exactly when some entry cannot be read. */
  lemma {:induction false} WalkIsLeafSum(t: Tree, acc: nat)
    ensures Walk(t, acc) == if Readable(t) then Some(acc + LeafSum(t)) else None
    decreases t, 0
  {
    if t.Node? { WalkAllIsLeafSums(t.children, acc); }
  }

  lemma {:induction false} WalkAllIsLeafSums(ts: seq<Tree>, acc: nat)
    ensures WalkAll(ts, acc) == if forall c | c in ts :: Readable(c) then Some(acc + LeafSums(ts)) else None
    decreases ts, 0
  {
    if ts != [] {
      WalkIsLeafSum(ts[0], acc);
      if Readable(ts[0]) {
        WalkAllIsLeafSums(ts[1..], acc + LeafSum(ts[0]));
        assert forall c | c in ts :: c == ts[0] || c in ts[1..];
        assert forall c | c in ts[1..] :: c in ts;
      }
    }
  }

  // ----- the cache directory -------------------------------------------

  datatype Entry = File(modTime: int, size: nat) | Dir(modTime: int, tree: Tree)

  type Files = map<Name, Entry>

  datatype Kind = Repositories | Assets | LfsObjects

  /** What is fixed during one call. */
  datatype Env = Env(
    now: int,
    maxAge: int,
    maxSize: int,
    reposInUse: set<nat>,
    namesInUse: set<Name>,
    infoFails: set<Name>,    // entry.Info() fails
    ageStuck: set<Name>,     // the age pass cannot remove these
    sizeStuck: set<Name>)    // the size pass cannot remove these

  function SizeOf(e: Entry): Option<nat> {
    match e
    case File(_, size) => Some(size)
    case Dir(_, tree) => Walk(tree, 0)
  }

  function Digits(s: string): Option<nat> {
    if s == "" then Some(0)
    else
      var last := s[|s| - 1];
      match Digits(s[..|s| - 1])
      case Some(n) => if '0' <= last <= '9' then Some(10 * n + (last as int - '0' as int)) else None
      case None => None
  }

  /** strings.TrimSuffix(name, ".git") and strconv.ParseUint(_, 10, 64). */
  function RepoId(name: Name): Option<nat> {
    var stem := if |name| >= 4 && name[|name| - 4..] == ".git" then name[..|name| - 4] else name;
    match Digits(stem)
    case Some(n) => if stem != "" && n < 0x1_0000_0000_0000_0000 then Some(n) else None
    case None => None
  }

  predicate InUse(kind: Kind, env: Env, n: Name) {
    if kind.Repositories? then RepoId(n).Some? && RepoId(n).value in env.reposInUse
    else n in env.namesInUse
  }

  /** Entries that the passes look at. */
  predicate Eligible(kind: Kind, env: Env, n: Name, e: Entry) {
    && (if kind.Repositories? then e.Dir? && RepoId(n).Some? else e.File?)
    && !InUse(kind, env, n)
    && n !in env.infoFails
  }

  predicate Expired(env: Env, e: Entry) {
    env.now - e.modTime > env.maxAge
  }

  /** Entries the age pass removes. */
  ghost function Aged(kind: Kind, env: Env, files: Files): set<Name> {
    set n | n in files && Eligible(kind, env, n, files[n]) && Expired(env, files[n]) && n !in env.ageStuck
  }

  /** Entries the age pass counts. */
  ghost function Young(kind: Kind, env: Env, files: Files): set<Name> {
    set n | n in files && Eligible(kind, env, n, files[n]) && !Expired(env, files[n]) && SizeOf(files[n]).Some?
  }

  /** Entries the size pass may remove. */
  predicate Candidate(kind: Kind, env: Env, files: Files, n: Name) {
    n in files && Eligible(kind, env, n, files[n]) && SizeOf(files[n]).Some?
  }

  function SizeAt(files: Files, n: Name): nat {
    if n in files && SizeOf(files[n]).Some? then SizeOf(files[n]).value else 0
  }

  ghost function Weight(files: Files, s: set<Name>): nat {
    if s == {} then 0 else var n :| n in s; SizeAt(files, n) + Weight(files, s - {n})
  }

  lemma {:induction false} WeightSplit(files: Files, s: set<Name>, n: Name)
    requires n in s
    ensures Weight(files, s) == SizeAt(files, n) + Weight(files, s - {n})
    decreases s
  {
    var m :| m in s && Weight(files, s) == SizeAt(files, m) + Weight(files, s - {m});
    if m != n {
      WeightSplit(files, s - {m}, n);
      WeightSplit(files, s - {n}, m);
      assert s - {m} - {n} == s - {n} - {m};
    }
  }

  lemma WeightAdd(files: Files, s: set<Name>, n: Name)
    requires n !in s
    ensures Weight(files, s + {n}) == Weight(files, s) + SizeAt(files, n)
  {
    WeightSplit(files, s + {n}, n);
    assert s + {n} - {n} == s;
  }

  predicate Removable(kind: Kind, env: Env, files: Files, n: Name) {
    Candidate(kind, env, files, n) && n !in env.sizeStuck
  }

  /** Names of the first `k` of `order` that the size pass removes. */
  ghost function Removed(kind: Kind, env: Env, files: Files, order: seq<Name>, k: nat): set<Name>
    requires k <= |order|
  {
    if k == 0 then {}
    else Removed(kind, env, files, order, k - 1)
         + if Removable(kind, env, files, order[k - 1]) then {order[k - 1]} else {}
  }

  lemma {:induction false} RemovedMembers(kind: Kind, env: Env, files: Files, order: seq<Name>, k: nat)
    requires k <= |order|
    ensures forall n :: n in Removed(kind, env, files, order, k) <==> n in order[..k] && Removable(kind, env, files, n)
  {
    if k > 0 {
      RemovedMembers(kind, env, files, order, k - 1);
      assert order[..k] == order[..k - 1] + [order[k - 1]];
    }
  }

  ghost predicate Distinct(order: seq<Name>) {
    forall i, j | 0 <= i < j < |order| :: order[i] != order[j]
  }

  /** The entry's Info() still works: it has not been removed meanwhile. */
  predicate InfoOk(env: Env, files: Files, n: Name) {
    n in files && n !in env.infoFails
  }

  predicate Less(env: Env, files: Files, a: Name, b: Name) {
    InfoOk(env, files, a) && InfoOk(env, files, b) && files[a].modTime < files[b].modTime
  }

  /** Insertion sort as sort.Slice does it on at most twelve entries. */
  function Insert(env: Env, files: Files, p: seq<Name>, x: Name): seq<Name> {
    if p == [] || !Less(env, files, x, p[|p| - 1]) then p + [x]
    else Insert(env, files, p[..|p| - 1], x) + [p[|p| - 1]]
  }

  function InsertionSort(env: Env, files: Files, s: seq<Name>): seq<Name> {
    if s == [] then [] else Insert(env, files, InsertionSort(env, files, s[..|s| - 1]), s[|s| - 1])
  }

  ghost predicate Sorted(env: Env, files: Files, order: seq<Name>) {
    forall i, j | 0 <= i < j < |order| :: !Less(env, files, order[j], order[i])
  }

  /** `after` is `mid` without what the size pass takes from `order`: it stops at
      the first point where the running total fits. */
  ghost predicate SizeCleared(kind: Kind, env: Env, mid: Files, total: int, order: seq<Name>, k: nat, after: Files)
    requires k <= |order|
  {
    && after == mid - Removed(kind, env, mid, order, k)
    && (forall i | 0 <= i < k :: total - Weight(mid, Removed(kind, env, mid, order, i)) > env.maxSize)
    && (k < |order| ==> total - Weight(mid, Removed(kind, env, mid, order, k)) <= env.maxSize)
  }

  lemma {:induction false} InsertPermutes(env: Env, files: Files, p: seq<Name>, x: Name)
    ensures multiset(Insert(env, files, p, x)) == multiset(p) + multiset{x}
  {
    if p != [] && Less(env, files, x, p[|p| - 1]) {
      InsertPermutes(env, files, p[..|p| - 1], x);
      assert p == p[..|p| - 1] + [p[|p| - 1]];
    }
  }

  lemma {:induction false} SortPermutes(env: Env, files: Files, s: seq<Name>)
    ensures multiset(InsertionSort(env, files, s)) == multiset(s)
  {
    if s != [] {
      SortPermutes(env, files, s[..|s| - 1]);
      InsertPermutes(env, files, InsertionSort(env, files, s[..|s| - 1]), s[|s| - 1]);
      assert s == s[..|s| - 1] + [s[|s| - 1]];
    }
  }

  ghost predicate AllOk(env: Env, files: Files, s: seq<Name>) {
    forall i | 0 <= i < |s| :: InfoOk(env, files, s[i])
  }

  // ----- when the comparator orders the listing ------------------------

  ghost predicate Incomparable(env: Env, files: Files, a: Name, b: Name) {
    !Less(env, files, a, b) && !Less(env, files, b, a)
  }

  /** What sort.Slice asks of its comparator beyond asymmetry. */
  ghost predicate Consistent(env: Env, files: Files, names: set<Name>) {
    forall a, b, c | a in names && b in names && c in names
      && Incomparable(env, files, a, b) && Incomparable(env, files, b, c) :: Incomparable(env, files, a, c)
  }

  /** The LFS comparator is a proper order exactly when every entry still has its
      Info(), or those that do have all the same age. */
  lemma ComparatorConsistentIff(env: Env, files: Files, names: set<Name>)
    ensures Consistent(env, files, names) <==>
      || (forall n | n in names :: InfoOk(env, files, n))
      || (forall a, b | a in names && b in names && InfoOk(env, files, a) && InfoOk(env, files, b) ::
            files[a].modTime == files[b].modTime)
  {
    if n :| n in names && !InfoOk(env, files, n) {
      if Consistent(env, files, names) {
        forall a, b | a in names && b in names && InfoOk(env, files, a) && InfoOk(env, files, b)
          ensures files[a].modTime == files[b].modTime
        {
          assert Incomparable(env, files, a, n) && Incomparable(env, files, n, b);
        }
      }
    }
  }

  /** The names in some order, each once. */
  ghost predicate Lists(listing: seq<Name>, names: set<Name>) {
    Distinct(listing) && forall n :: n in listing <==> n in names
  }

  ghost predicate Before(s: seq<Name>, a: Name, b: Name) {
    exists i, j :: 0 <= i < j < |s| && s[i] == a && s[j] == b
  }

  /** Inserting one more name keeps the others in their order. */
  lemma {:induction false} InsertKeepsOrder(env: Env, files: Files, p: seq<Name>, x: Name, a: Name, b: Name)
    requires Before(p, a, b)
    ensures Before(Insert(env, files, p, x), a, b)
  {
    var i, j :| 0 <= i < j < |p| && p[i] == a && p[j] == b;
    var q := Insert(env, files, p, x);
    if p == [] || !Less(env, files, x, p[|p| - 1]) {
      assert q[i] == a && q[j] == b;
    } else {
      var front := p[..|p| - 1];
      var r := Insert(env, files, front, x);
      if j == |p| - 1 {
        InsertPermutes(env, files, front, x);
        assert front[i] == a && a in multiset(r);
        var k :| 0 <= k < |r| && r[k] == a;
        assert q[k] == a && q[|r|] == b;
      } else {
        assert front[i] == a && front[j] == b;
        InsertKeepsOrder(env, files, front, x, a, b);
        var i', j' :| 0 <= i' < j' < |r| && r[i'] == a && r[j'] == b;
        assert q[i'] == a && q[j'] == b;
      }
    }
  }

  lemma {:induction false} SortKeepsOrder(env: Env, files: Files, s: seq<Name>, k: nat, a: Name, b: Name)
    requires k <= |s| && Before(InsertionSort(env, files, s[..k]), a, b)
    ensures Before(InsertionSort(env, files, s), a, b)
  {
    if k == |s| {
      assert s[..k] == s;
    } else {
      assert s[..|s| - 1][..k] == s[..k];
      SortKeepsOrder(env, files, s[..|s| - 1], k, a, b);
      InsertKeepsOrder(env, files, InsertionSort(env, files, s[..|s| - 1]), s[|s| - 1], a, b);
    }
  }

  /** What is inserted never gets in front of an entry without Info(), nor of what is in
      front of that. */
  lemma {:induction false} InsertStaysBehind(env: Env, files: Files, p: seq<Name>, x: Name, a: Name, n: Name)
    requires !InfoOk(env, files, n) && n in p && (a == n || Before(p, a, n))
    ensures Before(Insert(env, files, p, x), a, x)
  {
    var q := Insert(env, files, p, x);
    if !Less(env, files, x, p[|p| - 1]) {
      assert a in p;
      var i :| 0 <= i < |p| && p[i] == a;
      assert q[i] == a && q[|p|] == x;
    } else {
      var front := p[..|p| - 1];
      var i :| 0 <= i < |p| && p[i] == n;
      assert front[i] == n;
      if a != n {
        var i', j' :| 0 <= i' < j' < |p| && p[i'] == a && p[j'] == n;
        assert front[i'] == a && front[j'] == n;
      }
      InsertStaysBehind(env, files, front, x, a, n);
      var r := Insert(env, files, front, x);
      var i', j' :| 0 <= i' < j' < |r| && r[i'] == a && r[j'] == x;
      assert q[i'] == a && q[j'] == x;
    }
  }

  lemma NotBothWays(s: seq<Name>, a: Name, b: Name)
    requires Distinct(s) && Before(s, a, b)
    ensures !Before(s, b, a)
  { }

  lemma EitherWay(s: seq<Name>, a: Name, b: Name)
    requires a in s && b in s && a != b
    ensures Before(s, a, b) || Before(s, b, a)
  {
    var i, j :| 0 <= i < |s| && 0 <= j < |s| && s[i] == a && s[j] == b;
    if i < j { assert Before(s, a, b); } else { assert Before(s, b, a); }
  }

  lemma SortDistinct(env: Env, files: Files, s: seq<Name>)
    requires Distinct(s)
    ensures Distinct(InsertionSort(env, files, s)) && forall n :: n in InsertionSort(env, files, s) <==> n in s
  {
    SortPermutes(env, files, s);
    DistinctPermutes(s, InsertionSort(env, files, s));
  }

  /** Relative to an entry without Info() the sort leaves everything as it was listed. */
  lemma {:induction false} ShieldKeepsListing(env: Env, files: Files, s: seq<Name>, a: Name, n: Name)
    requires Distinct(s) && !InfoOk(env, files, n) && Before(InsertionSort(env, files, s), a, n)
    ensures Before(s, a, n)
  {
    var order := InsertionSort(env, files, s);
    var front, x := s[..|s| - 1], s[|s| - 1];
    var p := InsertionSort(env, files, front);
    SortDistinct(env, files, s);
    SortDistinct(env, files, front);
    NotBothWays(order, a, n);
    assert a in order && n in order && a != n;
    if n == x {
      var i :| 0 <= i < |s| && s[i] == a;
      assert Before(s, a, n);
    } else {
      assert n in front;
      if a == x {
        InsertStaysBehind(env, files, p, x, n, n);
        assert false;
      } else {
        assert a in front;
        EitherWay(p, a, n);
        if Before(p, n, a) {
          InsertKeepsOrder(env, files, p, x, n, a);
          assert false;
        }
        ShieldKeepsListing(env, files, front, a, n);
        var i, j :| 0 <= i < j < |front| && front[i] == a && front[j] == n;
        assert s[i] == a && s[j] == n;
      }
    }
  }

  /** An entry without Info() is listed between a younger one and an older one after it. */
  ghost predicate Shielded(env: Env, files: Files, listing: seq<Name>) {
    exists i, j, k :: 0 <= i < j < k < |listing| && !InfoOk(env, files, listing[j]) && Less(env, files, listing[k], listing[i])
  }

  lemma ShieldUnsorts(env: Env, files: Files, s: seq<Name>, i: nat, j: nat, k: nat)
    requires Distinct(s) && i < j < k < |s| && !InfoOk(env, files, s[j]) && Less(env, files, s[k], s[i])
    ensures !Sorted(env, files, InsertionSort(env, files, s))
  {
    var p := InsertionSort(env, files, s[..k]);
    SortDistinct(env, files, s[..k]);
    assert s[..k][i] == s[i] && s[..k][j] == s[j];
    EitherWay(p, s[i], s[j]);
    if Before(p, s[j], s[i]) {
      BehindShield(env, files, s[..k], j, i);
      assert false;
    }
    InsertStaysBehind(env, files, p, s[k], s[i], s[j]);
    assert s[..k + 1][..k] == s[..k];
    SortKeepsOrder(env, files, s, k + 1, s[i], s[k]);
    var order := InsertionSort(env, files, s);
    var i', k' :| 0 <= i' < k' < |order| && order[i'] == s[i] && order[k'] == s[k];
    assert Less(env, files, order[k'], order[i']);
  }

  /** What is listed before an entry without Info() stays before it. */
  lemma BehindShield(env: Env, files: Files, s: seq<Name>, j: nat, i: nat)
    requires Distinct(s) && i < j < |s| && !InfoOk(env, files, s[j])
    ensures !Before(InsertionSort(env, files, s), s[j], s[i])
  {
    var q := InsertionSort(env, files, s[..j]);
    SortDistinct(env, files, s[..j]);
    SortDistinct(env, files, s);
    assert s[..j][i] == s[i] && s[i] in q;
    var m :| 0 <= m < |q| && q[m] == s[i];
    var next := Insert(env, files, q, s[j]);
    assert next == q + [s[j]] && next[m] == s[i] && next[|q|] == s[j];
    assert s[..j + 1][..j] == s[..j];
    assert Before(InsertionSort(env, files, s[..j + 1]), s[i], s[j]);
    SortKeepsOrder(env, files, s, j + 1, s[i], s[j]);
    NotBothWays(InsertionSort(env, files, s), s[i], s[j]);
  }

  lemma {:induction false} InsertSorts(env: Env, files: Files, p: seq<Name>, x: Name)
    requires Sorted(env, files, p)
    requires forall a, n | Before(p, a, n) && !InfoOk(env, files, n) :: !Less(env, files, x, a)
    ensures Sorted(env, files, Insert(env, files, p, x))
  {
    if p != [] {
      var front, last := p[..|p| - 1], p[|p| - 1];
      if Less(env, files, x, last) {
        forall a, n | Before(front, a, n) ensures Before(p, a, n) {
          var i, j :| 0 <= i < j < |front| && front[i] == a && front[j] == n;
          assert p[i] == a && p[j] == n;
        }
        InsertSorts(env, files, front, x);
        InsertPermutes(env, files, front, x);
        var r := Insert(env, files, front, x);
        forall i | 0 <= i < |r| ensures !Less(env, files, last, r[i]) {
          assert r[i] in multiset(r);
          if r[i] != x { assert r[i] in front; }
        }
      } else {
        forall i | 0 <= i < |p| ensures !Less(env, files, x, p[i]) {
          if i < |p| - 1 && !InfoOk(env, files, last) { assert Before(p, p[i], last); }
        }
      }
    }
  }

  lemma {:induction false} UnshieldedSorts(env: Env, files: Files, s: seq<Name>)
    requires Distinct(s) && !Shielded(env, files, s)
    ensures Sorted(env, files, InsertionSort(env, files, s))
  {
    if s != [] {
      var front, x := s[..|s| - 1], s[|s| - 1];
      var p := InsertionSort(env, files, front);
      UnshieldedSorts(env, files, front);
      forall a, n | Before(p, a, n) && !InfoOk(env, files, n) ensures !Less(env, files, x, a) {
        ShieldKeepsListing(env, files, front, a, n);
        var i, j :| 0 <= i < j < |front| && front[i] == a && front[j] == n;
        assert s[i] == a && s[j] == n && s[|s| - 1] == x;
      }
      InsertSorts(env, files, p, x);
    }
  }

  /** A listing comes out in age order if and only if no entry without Info() stands in it
      between a younger entry and an older one. */
  lemma SortedIff(env: Env, files: Files, listing: seq<Name>)
    requires Distinct(listing)
    ensures Sorted(env, files, InsertionSort(env, files, listing)) <==> !Shielded(env, files, listing)
  {
    if Shielded(env, files, listing) {
      var i, j, k :| 0 <= i < j < k < |listing| && !InfoOk(env, files, listing[j]) && Less(env, files, listing[k], listing[i]);
      ShieldUnsorts(env, files, listing, i, j, k);
    } else {
      UnshieldedSorts(env, files, listing);
    }
  }

  lemma {:induction false} SomeListing(names: set<Name>) returns (listing: seq<Name>)
    ensures Lists(listing, names)
  {
    listing := [];
    if names != {} {
      var n :| n in names;
      var rest := SomeListing(names - {n});
      listing := [n] + rest;
    }
  }

  lemma UnsortedListing(env: Env, files: Files, names: set<Name>, a: Name, n: Name, b: Name) returns (listing: seq<Name>)
    requires {a, n, b} <= names && !InfoOk(env, files, n) && Less(env, files, b, a)
    ensures Lists(listing, names) && !Sorted(env, files, InsertionSort(env, files, listing))
  {
    var rest := SomeListing(names - {a, n, b});
    listing := [a, n, b] + rest;
    assert listing[0] == a && listing[1] == n && listing[2] == b;
    SortedIff(env, files, listing);
  }

  /** So the names come out in age order however they are listed, if and only if the
      comparator is consistent on them. */
  lemma SortsEveryListingIff(env: Env, files: Files, names: set<Name>)
    ensures (forall listing | Lists(listing, names) :: Sorted(env, files, InsertionSort(env, files, listing)))
      <==> Consistent(env, files, names)
  {
    ComparatorConsistentIff(env, files, names);
    if Consistent(env, files, names) {
      forall listing | Lists(listing, names) ensures Sorted(env, files, InsertionSort(env, files, listing)) {
        ConsistentUnshielded(env, files, names, listing);
        SortedIff(env, files, listing);
      }
    } else {
      var n :| n in names && !InfoOk(env, files, n);
      var a, b :| a in names && b in names && Less(env, files, b, a);
      var listing := UnsortedListing(env, files, names, a, n, b);
    }
  }

  lemma ConsistentUnshielded(env: Env, files: Files, names: set<Name>, listing: seq<Name>)
    requires Consistent(env, files, names) && Lists(listing, names)
    ensures !Shielded(env, files, listing)
  {
    ComparatorConsistentIff(env, files, names);
  }

  // ----- listing by file name ------------------------------------------

  /** Byte order of names, as os.ReadDir sorts them. */
  predicate NameBefore(a: Name, b: Name) {
    b != "" && (a == "" || a[0] < b[0] || (a[0] == b[0] && NameBefore(a[1..], b[1..])))
  }

  lemma {:induction false} NameOrder(a: Name, b: Name, c: Name)
    ensures NameBefore(a, b) && NameBefore(b, c) ==> NameBefore(a, c)
    ensures !NameBefore(a, a)
    ensures a != b ==> NameBefore(a, b) || NameBefore(b, a)
  {
    if a != "" && b != "" {
      NameOrder(a[1..], b[1..], if c == "" then "" else c[1..]);
      assert a == [a[0]] + a[1..] && b == [b[0]] + b[1..];
    } else if a != "" {
      NameOrder(a[1..], "", "");
    }
  }

  ghost predicate ByName(listing: seq<Name>) {
    forall i, j | 0 <= i < j < |listing| :: NameBefore(listing[i], listing[j])
  }

  lemma {:induction false} FirstName(names: set<Name>) returns (n: Name)
    requires names != {}
    ensures n in names && forall m | m in names :: m == n || NameBefore(n, m)
  {
    var some :| some in names;
    n := some;
    if names - {some} == {} {
      forall l | l in names ensures l == n { assert l != some ==> l in names - {some}; }
    } else {
      var m := FirstName(names - {some});
      NameOrder(some, m, some);
      if !NameBefore(some, m) { n := m; }
      forall l | l in names ensures l == n || NameBefore(n, l) {
        if l != some { NameOrder(some, m, l); }
      }
    }
  }

  /** A directory has one listing. */
  lemma {:induction false} OneListing(a: seq<Name>, b: seq<Name>, names: set<Name>)
    requires Lists(a, names) && Lists(b, names) && ByName(a) && ByName(b)
    ensures a == b
    decreases |a|
  {
    EmptyIff(a, names);
    EmptyIff(b, names);
    if a != [] {
      assert a[0] in a && b[0] in b;
      assert a[0] in b && b[0] in a;
      var i :| 0 <= i < |b| && b[i] == a[0];
      var j :| 0 <= j < |a| && a[j] == b[0];
      NameOrder(a[0], b[0], a[0]);
      assert a[0] == b[0];
      assert Lists(a[1..], names - {a[0]}) && Lists(b[1..], names - {a[0]}) by {
        TailLists(a, names);
        TailLists(b, names);
      }
      OneListing(a[1..], b[1..], names - {a[0]});
      assert a == [a[0]] + a[1..] && b == [b[0]] + b[1..];
    }
  }

  lemma EmptyIff(a: seq<Name>, names: set<Name>)
    requires Lists(a, names)
    ensures a == [] <==> names == {}
  {
    if a != [] { assert a[0] in a; }
    if n :| n in names { assert n in a; }
  }

  lemma TailLists(a: seq<Name>, names: set<Name>)
    requires Lists(a, names) && a != []
    ensures Lists(a[1..], names - {a[0]})
  {
    forall n ensures n in a[1..] <==> n in names - {a[0]} {
      assert a == [a[0]] + a[1..];
      if n in a[1..] {
        var i :| 0 <= i < |a[1..]| && a[1..][i] == n;
        assert a[i + 1] == n;
      }
    }
  }

  /** A permutation of distinct names is distinct. */
  lemma DistinctPermutes(s: seq<Name>, r: seq<Name>)
    requires Distinct(s) && multiset(r) == multiset(s)
    ensures Distinct(r) && (forall n :: n in r <==> n in s)
  {
    forall n ensures n in r <==> n in s { assert n in r <==> n in multiset(r); assert n in s <==> n in multiset(s); }
    forall i, j | 0 <= i < j < |r| ensures r[i] != r[j] {
      if r[i] == r[j] {
        CountTwo(r, i, j);
        CountOne(s, r[i]);
      }
    }
  }

  lemma CountTwo(r: seq<Name>, i: nat, j: nat)
    requires i < j < |r| && r[i] == r[j]
    ensures multiset(r)[r[i]] >= 2
  {
    assert r == r[..j] + [r[j]] + r[j + 1..];
    assert r[..j] == r[..i] + [r[i]] + r[i + 1..j];
  }

  lemma {:induction false} CountOne(s: seq<Name>, n: Name)
    requires Distinct(s)
    ensures multiset(s)[n] <= 1
  {
    if s != [] {
      var front := s[..|s| - 1];
      assert s == front + [s[|s| - 1]];
      CountOne(front, n);
      if n == s[|s| - 1] { assert n !in front; }
    }
  }

  /** What one clearing call does to the directory: the age pass, then the size
      pass over some order that has every candidate. */
  ghost predicate Cleared(kind: Kind, env: Env, before: Files, order: seq<Name>, k: nat, after: Files) {
    var mid := before - Aged(kind, env, before);
    && k <= |order|
    && Distinct(order)
    && (forall n :: Candidate(kind, env, mid, n) ==> n in order)
    && SizeCleared(kind, env, mid, Weight(before, Young(kind, env, before)), order, k, after)
  }

  ghost predicate OldestFirst(kind: Kind, env: Env, before: Files, order: seq<Name>) {
    Sorted(env, before - Aged(kind, env, before), order)
  }

  lemma NothingToClear(kind: Kind, env: Env, before: Files, order: seq<Name>)
    requires Distinct(order)
    requires forall n :: Candidate(kind, env, before - Aged(kind, env, before), n) ==> n in order
    requires Weight(before, Young(kind, env, before)) <= env.maxSize
    ensures Cleared(kind, env, before, order, 0, before - Aged(kind, env, before))
  {
    var mid := before - Aged(kind, env, before);
    assert Removed(kind, env, mid, order, 0) == {};
  }

  class CacheDir {
    var files: Files

    constructor (files: Files)
      ensures this.files == files
    {
      this.files := files;
    }

    /** os.ReadDir: every name once, in the order of the names. */
    method ReadDir() returns (names: seq<Name>)
      ensures Lists(names, files.Keys) && ByName(names)
    {
      names := [];
      var left := files.Keys;
      while left != {}
        invariant left <= files.Keys && Distinct(names) && ByName(names)
        invariant forall n :: n in names <==> n in files && n !in left
        invariant forall m, n | m in names && n in left :: NameBefore(m, n)
        decreases left
      {
        ghost var least := FirstName(left);
        var n :| n in left && forall m | m in left :: m == n || NameBefore(n, m);
        names, left := names + [n], left - {n};
      }
    }

    /** The first loop: remove what is too old, add up the rest. */
    method AgePass(kind: Kind, env: Env, names: seq<Name>) returns (total: nat)
      requires Distinct(names) && forall n :: n in names <==> n in files
      modifies this
      ensures files == old(files) - Aged(kind, env, old(files))
      ensures total == Weight(old(files), Young(kind, env, old(files)))
    {
      ghost var start := files;
      ghost var done: set<Name> := {};
      total := 0;
      for i := 0 to |names|
        invariant forall j | 0 <= j < |names| :: names[j] in done <==> j < i
        invariant done <= start.Keys
        invariant files == start - (Aged(kind, env, start) * done)
        invariant total == Weight(start, Young(kind, env, start) * done)
      {
        var n := names[i];
        assert n in start && n !in done;
        assert files[n] == start[n];
        DoneGrows(kind, env, start, done, n);
        if Eligible(kind, env, n, files[n]) {
          if Expired(env, files[n]) {
            if n !in env.ageStuck { files := files - {n}; }
          } else if SizeOf(files[n]).Some? {
            total := total + SizeOf(files[n]).value;
          }
        }
        done := done + {n};
      }
      assert done == start.Keys;
      assert Aged(kind, env, start) * done == Aged(kind, env, start);
      assert Young(kind, env, start) * done == Young(kind, env, start);
    }

    /** The entries that repository and asset clearing sort. */
    method Collect(kind: Kind, env: Env, names: seq<Name>) returns (found: seq<Name>)
      requires Distinct(names) && forall n :: n in names <==> n in files
      ensures Distinct(found) && forall n :: n in found <==> Candidate(kind, env, files, n)
      ensures AllOk(env, files, found)
    {
      found := [];
      for i := 0 to |names|
        invariant Distinct(found)
        invariant forall n :: n in found <==> n in names[..i] && Candidate(kind, env, files, n)
        invariant AllOk(env, files, found)
      {
        assert names[..i + 1] == names[..i] + [names[i]];
        if Candidate(kind, env, files, names[i]) { found := found + [names[i]]; }
      }
      assert names[..|names|] == names;
    }

    /** sort.Slice by modification time: a permutation, and exactly when it is ordered. */
    method SortSlice(env: Env, names: seq<Name>) returns (order: seq<Name>)
      requires Distinct(names)
      ensures Distinct(order) && forall n :: n in order <==> n in names
      ensures Sorted(env, files, order) <==> !Shielded(env, files, names)
    {
      order := InsertionSort(env, files, names);
      SortDistinct(env, files, names);
      SortedIff(env, files, names);
    }

    /** The second loop: remove in order until the total fits. */
    method SizePass(kind: Kind, env: Env, order: seq<Name>, counted: nat) returns (ghost k: nat)
      requires Distinct(order)
      modifies this
      ensures k <= |order| && SizeCleared(kind, env, old(files), counted, order, k, files)
    {
      ghost var start := files;
      var total: int := counted;
      k := 0;
      for i := 0 to |order|
        invariant k == i
        invariant files == start - Removed(kind, env, start, order, i)
        invariant total == counted - Weight(start, Removed(kind, env, start, order, i))
        invariant forall j | 0 <= j < i :: counted - Weight(start, Removed(kind, env, start, order, j)) > env.maxSize
      {
        if total <= env.maxSize { break; }
        var n := order[i];
        RemovedGrows(kind, env, start, order, i);
        if Removable(kind, env, files, n) {
          total := total - SizeOf(files[n]).value;
          files := files - {n};
        }
        k := k + 1;
      }
    }

    method ClearRepositoryCache(env: Env) returns (ghost order: seq<Name>, ghost k: nat)
      modifies this
      ensures Cleared(Repositories, env, old(files), order, k, files)
      ensures OldestFirst(Repositories, env, old(files), order)
    {
      order, k := ClearSorted(Repositories, env);
    }

    method ClearAssetCache(env: Env) returns (ghost order: seq<Name>, ghost k: nat)
      modifies this
      ensures Cleared(Assets, env, old(files), order, k, files)
      ensures OldestFirst(Assets, env, old(files), order)
    {
      order, k := ClearSorted(Assets, env);
    }

    /** The shape repository and asset clearing share: the directory is read again
        before sorting, so only live entries are sorted. */
    method ClearSorted(kind: Kind, env: Env) returns (ghost order: seq<Name>, ghost k: nat)
      modifies this
      ensures Cleared(kind, env, old(files), order, k, files)
      ensures OldestFirst(kind, env, old(files), order)
    {
      var names := ReadDir();
      var total := AgePass(kind, env, names);
      var again := ReadDir();
      var found := Collect(kind, env, again);
      var sorted := SortSlice(env, found);
      order, k := sorted, 0;
      if total > env.maxSize {
        k := SizePass(kind, env, sorted, total);
      } else {
        NothingToClear(kind, env, old(files), order);
      }
    }

    /** LFS clearing sorts the entries read before the age pass: those it removed
        are still in the list and their Info() fails. */
    method ClearLfsCache(env: Env) returns (ghost listing: seq<Name>, ghost order: seq<Name>, ghost k: nat)
      modifies this
      ensures Cleared(LfsObjects, env, old(files), order, k, files)
      ensures Lists(listing, old(files).Keys) && ByName(listing)
      ensures OldestFirst(LfsObjects, env, old(files), order)
        <==> !Shielded(env, old(files) - Aged(LfsObjects, env, old(files)), listing)
    {
      var names := ReadDir();
      var total := AgePass(LfsObjects, env, names);
      var sorted := SortSlice(env, names);
      listing, order, k := names, sorted, 0;
      if total > env.maxSize {
        k := SizePass(LfsObjects, env, sorted, total);
      } else {
        NothingToClear(LfsObjects, env, old(files), order);
      }
    }
  }

  lemma RemovedGrows(kind: Kind, env: Env, files: Files, order: seq<Name>, i: nat)
    requires Distinct(order) && i < |order|
    ensures order[i] !in Removed(kind, env, files, order, i)
    ensures Weight(files, Removed(kind, env, files, order, i + 1))
         == Weight(files, Removed(kind, env, files, order, i))
            + if Removable(kind, env, files, order[i]) then SizeAt(files, order[i]) else 0
  {
    var r, n := Removed(kind, env, files, order, i), order[i];
    RemovedMembers(kind, env, files, order, i);
    assert n !in order[..i];
    if Removable(kind, env, files, n) {
      WeightAdd(files, r, n);
    } else {
      assert Removed(kind, env, files, order, i + 1) == r;
    }
  }

  lemma DoneGrows(kind: Kind, env: Env, files: Files, done: set<Name>, n: Name)
    requires n in files && n !in done
    ensures Aged(kind, env, files) * (done + {n})
         == if n in Aged(kind, env, files) then Aged(kind, env, files) * done + {n} else Aged(kind, env, files) * done
    ensures Weight(files, Young(kind, env, files) * (done + {n}))
         == Weight(files, Young(kind, env, files) * done)
            + if n in Young(kind, env, files) then SizeAt(files, n) else 0
  {
    var young := Young(kind, env, files);
    if n in young {
      WeightAdd(files, young * done, n);
      assert young * (done + {n}) == young * done + {n};
    } else {
      assert young * (done + {n}) == young * done;
    }
  }

  // ----- what a clearing call guarantees -------------------------------

  ghost function Candidates(kind: Kind, env: Env, files: Files): set<Name> {
    set n | n in files && Candidate(kind, env, files, n)
  }

  // ----- what is cleared, spelled out ----------------------------------

  /** The decimal digits of a number. */
  function Decimal(id: nat): string {
    (if id < 10 then "" else Decimal(id / 10)) + ['0' + (id % 10) as char]
  }

  predicate Zeros(s: string) {
    forall i | 0 <= i < |s| :: s[i] == '0'
  }

  /** The name is the number, perhaps with leading zeros, with or without ".git". */
  ghost predicate NamesRepo(n: Name, id: nat) {
    id < 0x1_0000_0000_0000_0000
    && exists zeros: string :: Zeros(zeros) && (n == zeros + Decimal(id) || n == zeros + Decimal(id) + ".git")
  }

  lemma {:induction false} DigitsOfZeros(zeros: string)
    requires Zeros(zeros)
    ensures Digits(zeros) == Some(0)
  {
    if zeros != "" {
      DigitsOfZeros(zeros[..|zeros| - 1]);
    }
  }

  lemma DigitsPush(s: string, d: nat)
    requires d < 10
    ensures Digits(s + ['0' + d as char]) == match Digits(s) case Some(n) => Some(10 * n + d) case None => None
  {
    var c := '0' + d as char;
    assert '0' <= c <= '9' && c as int - '0' as int == d;
    var longer := s + [c];
    assert longer[..|longer| - 1] == s && longer[|longer| - 1] == c;
  }

  lemma {:induction false} DigitsOfDecimal(zeros: string, id: nat)
    requires Zeros(zeros)
    ensures Digits(zeros + Decimal(id)) == Some(id)
  {
    var front := if id < 10 then "" else Decimal(id / 10);
    DigitsOfZeros(zeros);
    if id >= 10 { DigitsOfDecimal(zeros, id / 10); }
    assert id < 10 ==> zeros + front == zeros;
    DigitsPush(zeros + front, id % 10);
    assert zeros + Decimal(id) == (zeros + front) + ['0' + (id % 10) as char];
  }

  lemma {:induction false} DecimalOfDigits(s: string, id: nat) returns (zeros: string)
    requires s != "" && Digits(s) == Some(id)
    ensures Zeros(zeros) && s == zeros + Decimal(id)
  {
    var front, last := s[..|s| - 1], s[|s| - 1];
    var d := last as int - '0' as int;
    var n := Digits(front).value;
    assert s == front + [last] && last == '0' + d as char;
    assert id == 10 * n + d && id / 10 == n && id % 10 == d;
    if front == "" {
      zeros := "";
    } else {
      var z := DecimalOfDigits(front, n);
      zeros := if n == 0 then z + "0" else z;
      assert n == 0 ==> Decimal(n) == "0" && front == z + "0";
      assert n > 0 ==> Decimal(id) == Decimal(n) + [last];
    }
  }

  lemma StemOf(s: string)
    requires Digits(s).Some? && s != ""
    ensures RepoId(s) == RepoId(s + ".git")
  {
    var n := s + ".git";
    assert n[|n| - 4..] == ".git" && n[..|n| - 4] == s;
    assert '0' <= s[|s| - 1] <= '9';
    if |s| >= 4 { assert s[|s| - 4..][3] == s[|s| - 1] && ".git"[3] == 't'; }
  }

  lemma NameHasId(n: Name, id: nat)
    requires RepoId(n) == Some(id)
    ensures NamesRepo(n, id)
  {
    var stem := if |n| >= 4 && n[|n| - 4..] == ".git" then n[..|n| - 4] else n;
    var zeros := DecimalOfDigits(stem, id);
    assert n == stem || n == stem + ".git";
  }

  lemma IdOfDigits(s: string, id: nat)
    requires s != "" && Digits(s) == Some(id) && id < 0x1_0000_0000_0000_0000
    ensures RepoId(s) == Some(id)
  {
    assert '0' <= s[|s| - 1] <= '9';
    if |s| >= 4 { assert s[|s| - 4..][3] == s[|s| - 1] && ".git"[3] == 't'; }
  }

  lemma IdOfName(n: Name, id: nat)
    requires NamesRepo(n, id)
    ensures RepoId(n) == Some(id)
  {
    var zeros :| Zeros(zeros) && (n == zeros + Decimal(id) || n == zeros + Decimal(id) + ".git");
    DigitsOfDecimal(zeros, id);
    IdOfDigits(zeros + Decimal(id), id);
    StemOf(zeros + Decimal(id));
  }

  /** Which directory belongs to which repository. */
  lemma RepoIdIff(n: Name, id: nat)
    ensures RepoId(n) == Some(id) <==> NamesRepo(n, id)
  {
    if RepoId(n) == Some(id) { NameHasId(n, id); }
    if NamesRepo(n, id) { IdOfName(n, id); }
  }

  /** A repository's own directory. */
  lemma OwnDirectory(id: nat)
    requires id < 0x1_0000_0000_0000_0000
    ensures NamesRepo(Decimal(id) + ".git", id)
  {
    assert "" + Decimal(id) == Decimal(id);
  }

  /** What must not be touched: entries in use, of the wrong kind or without Info(). */
  ghost predicate MustStay(kind: Kind, env: Env, n: Name, e: Entry) {
    || n in env.infoFails
    || match kind
       case Repositories => e.File? || (exists id :: NamesRepo(n, id) && id in env.reposInUse) || (forall id :: !NamesRepo(n, id))
       case Assets => e.Dir? || n in env.namesInUse
       case LfsObjects => e.Dir? || n in env.namesInUse
  }

  lemma EligibleIff(kind: Kind, env: Env, n: Name, e: Entry)
    ensures Eligible(kind, env, n, e) <==> !MustStay(kind, env, n, e)
  {
    if kind.Repositories? {
      forall id: nat ensures RepoId(n) == Some(id) <==> NamesRepo(n, id) { RepoIdIff(n, id); }
      if RepoId(n).Some? { assert NamesRepo(n, RepoId(n).value); }
    }
  }

  lemma SizeIs(e: Entry)
    ensures e.File? ==> SizeOf(e) == Some(e.size)
    ensures e.Dir? ==> SizeOf(e) == if Readable(e.tree) then Some(LeafSum(e.tree)) else None
  {
    if e.Dir? { WalkIsLeafSum(e.tree, 0); }
  }

  /** The entries whose sizes count towards the limit. */
  lemma CandidateIff(kind: Kind, env: Env, files: Files, n: Name)
    ensures Candidate(kind, env, files, n) <==>
      n in files && !MustStay(kind, env, n, files[n]) && (files[n].Dir? ==> Readable(files[n].tree))
    ensures n in files && files[n].File? ==> SizeAt(files, n) == files[n].size
    ensures n in files && files[n].Dir? ==> SizeAt(files, n) == if Readable(files[n].tree) then LeafSum(files[n].tree) else 0
  {
    if n in files {
      EligibleIff(kind, env, n, files[n]);
      SizeIs(files[n]);
    }
  }

  /** Entries in use, of the wrong kind or without Info() are untouched, and
      nothing is created or changed. */
  lemma OthersUntouched(kind: Kind, env: Env, before: Files, order: seq<Name>, k: nat, after: Files, n: Name)
    requires Cleared(kind, env, before, order, k, after)
    ensures n in after ==> n in before && after[n] == before[n]
    ensures n in before && MustStay(kind, env, n, before[n]) ==> n in after
  {
    RemovedMembers(kind, env, before - Aged(kind, env, before), order, k);
    if n in before { EligibleIff(kind, env, n, before[n]); }
  }

  /** In particular the directory of a repository in use. */
  lemma RepositoryInUseStays(env: Env, before: Files, order: seq<Name>, k: nat, after: Files, id: nat)
    requires Cleared(Repositories, env, before, order, k, after)
    requires id < 0x1_0000_0000_0000_0000 && id in env.reposInUse && Decimal(id) + ".git" in before
    ensures var n := Decimal(id) + ".git"; n in after && after[n] == before[n]
  {
    OwnDirectory(id);
    OthersUntouched(Repositories, env, before, order, k, after, Decimal(id) + ".git");
  }

  lemma ExpiredGone(kind: Kind, env: Env, before: Files, order: seq<Name>, k: nat, after: Files, n: Name)
    requires Cleared(kind, env, before, order, k, after)
    requires n in before && !MustStay(kind, env, n, before[n]) && n !in env.ageStuck
    requires env.now - before[n].modTime > env.maxAge
    ensures n !in after
  {
    EligibleIff(kind, env, n, before[n]);
    assert n in Aged(kind, env, before);
  }

  /** An entry that is gone before its age goes because the total would not fit otherwise. */
  lemma YoungGoForSpace(kind: Kind, env: Env, before: Files, order: seq<Name>, k: nat, after: Files, n: Name) returns (last: Name)
    requires Cleared(kind, env, before, order, k, after)
    requires n in before && n !in after && env.now - before[n].modTime <= env.maxAge
    ensures last in before && last !in after
    ensures Weight(after, Candidates(kind, env, after)) + SizeAt(before, last) > env.maxSize
  {
    assert n in Evicted(kind, env, before, after);
    last := EvictionIsShortest(kind, env, before, order, k, after);
  }

  lemma {:induction false} WeightFrame(f: Files, g: Files, s: set<Name>)
    requires forall n | n in s :: n in f && n in g && f[n] == g[n]
    ensures Weight(f, s) == Weight(g, s)
    decreases s
  {
    if s != {} {
      var n :| n in s;
      WeightSplit(f, s, n);
      WeightSplit(g, s, n);
      WeightFrame(f, g, s - {n});
    }
  }

  lemma {:induction false} WeightMinus(files: Files, s: set<Name>, r: set<Name>)
    requires r <= s
    ensures Weight(files, s - r) == Weight(files, s) - Weight(files, r)
    decreases r
  {
    if r == {} {
      assert s - r == s;
    } else {
      var n :| n in r;
      WeightSplit(files, s, n);
      WeightSplit(files, r, n);
      WeightMinus(files, s - {n}, r - {n});
      assert s - {n} - (r - {n}) == s - r;
    }
  }

  /** No expired entry survived the age pass. */
  ghost predicate AgePassComplete(kind: Kind, env: Env, before: Files) {
    forall n | Candidate(kind, env, before, n) && Expired(env, before[n]) :: n !in env.ageStuck
  }

  lemma Remaining(kind: Kind, env: Env, before: Files, order: seq<Name>, k: nat, after: Files)
    requires Cleared(kind, env, before, order, k, after)
    ensures var mid := before - Aged(kind, env, before);
      && Removed(kind, env, mid, order, k) <= Candidates(kind, env, mid)
      && Candidates(kind, env, after) == Candidates(kind, env, mid) - Removed(kind, env, mid, order, k)
      && Weight(after, Candidates(kind, env, after)) == Weight(mid, Candidates(kind, env, mid)) - Weight(mid, Removed(kind, env, mid, order, k))
  {
    var mid := before - Aged(kind, env, before);
    var gone := Removed(kind, env, mid, order, k);
    RemovedMembers(kind, env, mid, order, k);
    assert Candidates(kind, env, after) == Candidates(kind, env, mid) - gone;
    WeightMinus(mid, Candidates(kind, env, mid), gone);
    WeightFrame(after, mid, Candidates(kind, env, after));
  }

  /** Expired entries that the age pass could not remove, and does not count. */
  ghost function Stuck(kind: Kind, env: Env, before: Files): set<Name> {
    set n | n in before && Candidate(kind, env, before, n) && Expired(env, before[n]) && n in env.ageStuck
  }

  lemma CountedAndStuck(kind: Kind, env: Env, before: Files)
    ensures var mid := before - Aged(kind, env, before);
      Weight(mid, Candidates(kind, env, mid)) == Weight(before, Young(kind, env, before)) + Weight(before, Stuck(kind, env, before))
  {
    var mid := before - Aged(kind, env, before);
    var all, stuck := Candidates(kind, env, mid), Stuck(kind, env, before);
    assert all - stuck == Young(kind, env, before);
    WeightFrame(before, mid, all);
    WeightMinus(before, all, stuck);
  }

  /** The unlocked total is within the limit but for the size of the expired entries that
      could not be removed, unless all that is left resisted removal. */
  lemma LimitMissedBy(kind: Kind, env: Env, before: Files, order: seq<Name>, k: nat, after: Files)
    requires Cleared(kind, env, before, order, k, after)
    ensures Weight(after, Candidates(kind, env, after)) <= env.maxSize + Weight(before, Stuck(kind, env, before))
      || Candidates(kind, env, after) <= env.sizeStuck
  {
    var mid := before - Aged(kind, env, before);
    Remaining(kind, env, before, order, k, after);
    CountedAndStuck(kind, env, before);
    if k == |order| {
      RemovedMembers(kind, env, mid, order, k);
      assert order[..k] == order;
    }
  }

  /** With no failed age removal it is within the limit. */
  lemma WithinLimit(kind: Kind, env: Env, before: Files, order: seq<Name>, k: nat, after: Files)
    requires Cleared(kind, env, before, order, k, after) && AgePassComplete(kind, env, before)
    ensures Weight(after, Candidates(kind, env, after)) <= env.maxSize || Candidates(kind, env, after) <= env.sizeStuck
  {
    LimitMissedBy(kind, env, before, order, k, after);
    assert Stuck(kind, env, before) == {};
  }

  /** Size eviction goes oldest first: nothing removable that is left is older. */
  lemma EvictedAreOldest(kind: Kind, env: Env, before: Files, order: seq<Name>, k: nat, after: Files, n: Name, left: Name)
    requires Cleared(kind, env, before, order, k, after) && OldestFirst(kind, env, before, order)
    requires n in before && n !in Aged(kind, env, before) && n !in after
    requires Removable(kind, env, after, left)
    ensures left in before && before[n].modTime <= before[left].modTime
  {
    var mid := before - Aged(kind, env, before);
    RemovedMembers(kind, env, mid, order, k);
    var i :| 0 <= i < k && order[i] == n;
    assert left in order && left !in order[..k];
    var j :| k <= j < |order| && order[j] == left;
    assert !Less(env, mid, order[j], order[i]);
  }

  lemma {:induction false} LastRemoved(kind: Kind, env: Env, files: Files, order: seq<Name>, k: nat) returns (i: nat)
    requires k <= |order| && Removed(kind, env, files, order, k) != {}
    ensures i < k && Removable(kind, env, files, order[i])
    ensures Removed(kind, env, files, order, k) == Removed(kind, env, files, order, i + 1)
  {
    if Removable(kind, env, files, order[k - 1]) {
      i := k - 1;
    } else {
      assert Removed(kind, env, files, order, k) == Removed(kind, env, files, order, k - 1);
      i := LastRemoved(kind, env, files, order, k - 1);
    }
  }

  /** Evicted by size: live after the age pass, gone at the end. */
  ghost function Evicted(kind: Kind, env: Env, before: Files, after: Files): set<Name> {
    set n | n in before && n !in Aged(kind, env, before) && n !in after
  }

  lemma NoYounger(env: Env, files: Files, order: seq<Name>, i: nat, n: Name)
    requires Sorted(env, files, order) && i < |order| && n in order[..i + 1]
    requires InfoOk(env, files, n) && InfoOk(env, files, order[i])
    ensures files[n].modTime <= files[order[i]].modTime
  {
    var j :| 0 <= j <= i && order[j] == n;
    assert j < i ==> !Less(env, files, order[i], order[j]);
  }

  lemma SizePassIsShortest(kind: Kind, env: Env, mid: Files, total: int, order: seq<Name>, k: nat, after: Files) returns (last: Name)
    requires Distinct(order) && k <= |order| && SizeCleared(kind, env, mid, total, order, k, after)
    requires Removed(kind, env, mid, order, k) != {}
    ensures last in Removed(kind, env, mid, order, k)
    ensures total - Weight(mid, Removed(kind, env, mid, order, k)) + SizeAt(mid, last) > env.maxSize
    ensures Sorted(env, mid, order) ==>
      forall n | n in Removed(kind, env, mid, order, k) :: n in mid && last in mid && mid[n].modTime <= mid[last].modTime
  {
    var i := LastRemoved(kind, env, mid, order, k);
    last := order[i];
    RemovedGrows(kind, env, mid, order, i);
    RemovedMembers(kind, env, mid, order, i + 1);
    assert order[..i + 1][i] == last;
    if Sorted(env, mid, order) {
      forall n | n in Removed(kind, env, mid, order, k)
        ensures n in mid && last in mid && mid[n].modTime <= mid[last].modTime
      {
        NoYounger(env, mid, order, i, n);
      }
    }
  }

  /** Eviction is no longer than needed: with the last evicted entry put back the
      total exceeds the limit, and in age order nothing evicted is younger. */
  lemma EvictionIsShortest(kind: Kind, env: Env, before: Files, order: seq<Name>, k: nat, after: Files) returns (last: Name)
    requires Cleared(kind, env, before, order, k, after)
    requires Evicted(kind, env, before, after) != {}
    ensures last in Evicted(kind, env, before, after)
    ensures Weight(after, Candidates(kind, env, after)) + SizeAt(before, last) > env.maxSize
    ensures OldestFirst(kind, env, before, order) ==>
      forall n | n in Evicted(kind, env, before, after) :: before[n].modTime <= before[last].modTime
  {
    var mid := before - Aged(kind, env, before);
    Remaining(kind, env, before, order, k, after);
    CountedAndStuck(kind, env, before);
    RemovedMembers(kind, env, mid, order, k);
    assert Evicted(kind, env, before, after) == Removed(kind, env, mid, order, k);
    last := SizePassIsShortest(kind, env, mid, Weight(before, Young(kind, env, before)), order, k, after);
  }

  // ----- what fails otherwise ------------------------------------------

  /** An expired entry that the age pass cannot remove is not counted, so the
      limit can be missed although the size pass could have made room. */
  lemma StuckAgeMissesLimit() returns (env: Env, before: Files)
    ensures Cleared(Assets, env, before, ["b", "a"], 0, before)
    ensures OldestFirst(Assets, env, before, ["b", "a"])
    ensures Weight(before, Candidates(Assets, env, before)) > env.maxSize && env.sizeStuck == {}
  {
    env := Env(100, 50, 10, {}, {}, {}, {"b"}, {});
    before := map["a" := File(90, 8), "b" := File(10, 8)];
    assert "a" != "b";
    assert Aged(Assets, env, before) == {};
    assert before - {} == before;
    assert Young(Assets, env, before) == {"a"};
    WeightSplit(before, {"a"}, "a");
    assert {"a"} - {"a"} == {};
    assert Removed(Assets, env, before, ["b", "a"], 0) == {};
    assert Candidates(Assets, env, before) == {"a", "b"};
    WeightAdd(before, {"a"}, "b");
    assert {"a"} + {"b"} == {"a", "b"};
  }

  const SCENE := Env(100, 80, 10, {}, {}, {}, {}, {})

  const THREE: Files := map["a" := File(90, 8), "b" := File(10, 8), "c" := File(50, 8)]

  lemma AgedInScene()
    ensures Aged(LfsObjects, SCENE, THREE) == {"b"} && Young(LfsObjects, SCENE, THREE) == {"a", "c"}
    ensures THREE - {"b"} == map["a" := File(90, 8), "c" := File(50, 8)]
  {
    assert "a" != "b" && "b" != "c" && "a" != "c";
    assert THREE.Keys == {"a", "b", "c"};
  }

  lemma SortInScene(mid: Files)
    requires mid == map["a" := File(90, 8), "c" := File(50, 8)]
    ensures InsertionSort(SCENE, mid, ["a", "b", "c"]) == ["a", "b", "c"]
  {
    assert "a" != "b" && "b" != "c" && "a" != "c";
    assert ["a", "b", "c"][..2] == ["a", "b"] && ["a", "b"][..1] == ["a"] && ["a"][..0] == [];
    assert InsertionSort(SCENE, mid, ["a"]) == ["a"];
    assert InsertionSort(SCENE, mid, ["a", "b"]) == ["a", "b"];
  }

  lemma WeighScene(files: Files)
    requires "a" in files && "c" in files && files["a"] == File(90, 8) && files["c"] == File(50, 8)
    ensures Weight(files, {"a"}) == 8 && Weight(files, {"a", "c"}) == 16
  {
    assert "a" != "c";
    WeightSplit(files, {"a"}, "a");
    assert {"a"} - {"a"} == {};
    WeightAdd(files, {"a"}, "c");
    assert {"a"} + {"c"} == {"a", "c"};
  }

  /** With an entry removed by age in between, the sort leaves a young entry
      before an old one and the size pass takes the young one. */
  lemma LfsOrderCanFail() returns (env: Env, before: Files, order: seq<Name>, after: Files)
    ensures order == InsertionSort(env, before - Aged(LfsObjects, env, before), ["a", "b", "c"])
    ensures before.Keys == {"a", "b", "c"} && ByName(["a", "b", "c"])
    ensures Cleared(LfsObjects, env, before, order, 1, after)
    ensures "a" !in after && Removable(LfsObjects, env, after, "c") && before["a"].modTime > before["c"].modTime
  {
    env, before, order := SCENE, THREE, ["a", "b", "c"];
    after := map["c" := File(50, 8)];
    AgedInScene();
    var mid := before - {"b"};
    SortInScene(mid);
    WeighScene(before);
    WeighScene(mid);
    assert "a" != "b" && "b" != "c" && "a" != "c";
    assert Removed(LfsObjects, env, mid, order, 0) == {};
    assert Removed(LfsObjects, env, mid, order, 1) == {"a"};
    assert after == mid - {"a"};
  }
}
