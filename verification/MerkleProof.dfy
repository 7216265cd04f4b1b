/** Storage challenge proofs: the chunk loop of pkg/merkleproof/merkleproof.go and
    the padded binary tree it builds over the chunk hashes.

    The tree library is not part of the repository; it is modelled by its layout:
    node 1 is the root, node i has the children 2i and 2i+1, the leaves start at the
    first power of two that fits them and are padded with zero hashes.  Both hash
    functions are parameters. */
module MerkleProof {
  import opened Arithmetic
  import opened Wrappers

  type Bytes = seq<byte>
  type Hash = Bytes -> Bytes

  const DEFAULT_CHUNK_SIZE := 256 * 1024
  const HASH_LENGTH := 32

  // ----- chunks --------------------------------------------------------

  function Chunks(data: Bytes, size: nat): seq<Bytes>
    requires size > 0
    decreases |data|
  {
    if data == [] then []
    else if |data| <= size then [data]
    else [data[..size]] + Chunks(data[size..], size)
  }

  function Flatten(parts: seq<Bytes>): Bytes {
    if parts == [] then [] else parts[0] + Flatten(parts[1..])
  }

  /** How many chunks computeChunkHashes expects. */
  function NumChunks(n: nat, size: nat): nat
    requires size > 0
  {
    (n + size - 1) / size
  }

  lemma NumChunksStep(n: nat, size: nat)
    requires size > 0 && n > 0
    ensures NumChunks(n, size) == if n <= size then 1 else NumChunks(n - size, size) + 1
  {
    if n <= size {
      Quotient(n + size - 1, size, 1, n - 1);
    } else {
      var q, r := (n - 1) / size, (n - 1) % size;
      assert (q + 1) * size == q * size + size;
      Quotient(n + size - 1, size, q + 1, r);
    }
  }

  lemma {:induction false} ChunkCount(data: Bytes, size: nat)
    requires size > 0
    ensures |Chunks(data, size)| == NumChunks(|data|, size)
    decreases |data|
  {
    if data == [] {
      Quotient(size - 1, size, 0, size - 1);
    } else {
      NumChunksStep(|data|, size);
      if |data| > size { ChunkCount(data[size..], size); }
    }
  }

  lemma FlattenCons(part: Bytes, rest: seq<Bytes>)
    ensures Flatten([part] + rest) == part + Flatten(rest)
  {
    assert ([part] + rest)[1..] == rest;
  }

  lemma {:induction false} ChunksFlatten(data: Bytes, size: nat)
    requires size > 0
    ensures Flatten(Chunks(data, size)) == data
    decreases |data|
  {
    if |data| > size {
      FlattenCons(data[..size], Chunks(data[size..], size));
      ChunksFlatten(data[size..], size);
    } else if data != [] {
      FlattenCons(data, []);
      assert [data] + [] == [data];
    }
  }

  lemma {:induction false} ChunkSizes(data: Bytes, size: nat, i: nat)
    requires size > 0 && i < |Chunks(data, size)|
    ensures i < |Chunks(data, size)| - 1 ==> |Chunks(data, size)[i]| == size
    ensures 0 < |Chunks(data, size)[i]| <= size
    decreases |data|
  {
    if |data| > size && i > 0 {
      ChunkSizes(data[size..], size, i - 1);
    }
  }

  /** The chunks are ceil(n / size) many, all full but a non-empty last one, and
      give back the data. */
  lemma ChunksCover(data: Bytes, size: nat)
    requires size > 0
    ensures |Chunks(data, size)| == NumChunks(|data|, size)
    ensures Flatten(Chunks(data, size)) == data
    ensures forall i | 0 <= i < |Chunks(data, size)| :: 0 < |Chunks(data, size)[i]| <= size
    ensures forall i | 0 <= i < |Chunks(data, size)| - 1 :: |Chunks(data, size)[i]| == size
  {
    ChunkCount(data, size);
    ChunksFlatten(data, size);
    forall i | 0 <= i < |Chunks(data, size)|
      ensures 0 < |Chunks(data, size)[i]| <= size
      ensures i < |Chunks(data, size)| - 1 ==> |Chunks(data, size)[i]| == size
    {
      ChunkSizes(data, size, i);
    }
  }

  function HashAll(h: Hash, parts: seq<Bytes>): (r: seq<Bytes>)
    ensures |r| == |parts| && forall i | 0 <= i < |parts| :: r[i] == h(parts[i])
  {
    if parts == [] then [] else [h(parts[0])] + HashAll(h, parts[1..])
  }

  /** A file as the loop sees it: its reported size and the bytes it delivers. */
  datatype File = File(size: Option<nat>, bytes: Bytes)

  /** The outcome of computeChunkHashes: an unknown size, an empty file and a file
      shorter than it said are errors. */
  function ChunkHashes(sha256: Hash, file: File, size: nat): Result<seq<Bytes>>
    requires size > 0
  {
    if file.size.None? then Err("failed to get file size")
    else if file.size.value == 0 then Err("empty file")
    else if |file.bytes| < file.size.value then Err("short read")
    else Ok(HashAll(sha256, Chunks(file.bytes[..file.size.value], size)))
  }

  lemma {:induction false} HashAllSnoc(h: Hash, parts: seq<Bytes>, last: Bytes)
    ensures HashAll(h, parts + [last]) == HashAll(h, parts) + [h(last)]
  {
    if parts != [] {
      assert (parts + [last])[1..] == parts[1..] + [last];
      HashAllSnoc(h, parts[1..], last);
    }
  }

  /** `cut` is `k` whole chunks. */
  predicate Boundary(cut: nat, size: nat, k: nat) {
    if k == 0 then cut == 0 else cut >= size && Boundary(cut - size, size, k - 1)
  }

  /** Cutting at a chunk boundary. */
  lemma {:induction false} ChunksSplit(data: Bytes, size: nat, k: nat, cut: nat)
    requires size > 0 && Boundary(cut, size, k) && cut <= |data|
    ensures Chunks(data, size) == Chunks(data[..cut], size) + Chunks(data[cut..], size)
    decreases k
  {
    if k == 0 {
      assert data[cut..] == data && data[..cut] == [];
    } else if |data| == size {
      assert data[..cut] == data && data[cut..] == [];
    } else {
      ChunksSplit(data[size..], size, k - 1, cut - size);
      SplitStep(data, size, cut);
    }
  }

  lemma SplitStep(data: Bytes, size: nat, cut: nat)
    requires 0 < size <= cut <= |data| && size < |data|
    requires Chunks(data[size..], size) == Chunks(data[size..][..cut - size], size) + Chunks(data[size..][cut - size..], size)
    ensures Chunks(data, size) == Chunks(data[..cut], size) + Chunks(data[cut..], size)
  {
    assert data[size..][..cut - size] == data[..cut][size..] && data[size..][cut - size..] == data[cut..];
    if cut > size {
      assert data[..cut][..size] == data[..size];
    } else {
      assert data[..cut] == data[..size] && data[..cut][size..] == [];
    }
  }

  lemma NextChunk(h: Hash, bytes: Bytes, size: nat, k: nat, offset: nat, n: nat)
    requires size > 0 && Boundary(offset, size, k) && 0 < n <= size && offset + n <= |bytes|
    ensures HashAll(h, Chunks(bytes[..offset + n], size))
         == HashAll(h, Chunks(bytes[..offset], size)) + [h(bytes[offset..offset + n])]
    ensures Boundary(offset + size, size, k + 1)
  {
    var data := bytes[..offset + n];
    ChunksSplit(data, size, k, offset);
    assert data[..offset] == bytes[..offset] && data[offset..] == bytes[offset..offset + n];
    assert Chunks(data[offset..], size) == [data[offset..]];
    HashAllSnoc(h, Chunks(data[..offset], size), data[offset..]);
  }

  /** One round of the loop below. */
  lemma ChunkStep(h: Hash, bytes: Bytes, fileSize: nat, size: nat, k: nat, offset: nat, n: nat, hashes: seq<Bytes>, chunk: Bytes)
    requires size > 0 && Boundary(offset, size, k) && offset < fileSize
    requires n == (if fileSize - offset < size then fileSize - offset else size) && offset + n <= |bytes|
    requires hashes == HashAll(h, Chunks(bytes[..offset], size)) && chunk == bytes[offset..offset + n]
    ensures Boundary(offset + n, size, k + 1) || offset + n == fileSize
    ensures hashes + [h(chunk)] == HashAll(h, Chunks(bytes[..offset + n], size))
  {
    NextChunk(h, bytes, size, k, offset, n);
  }

  /** io.ReadFull into the reused buffer. */
  method ReadFull(bytes: Bytes, offset: nat, buffer: array<byte>, n: nat) returns (ok: bool)
    requires n <= buffer.Length && offset <= |bytes|
    modifies buffer
    ensures ok <==> offset + n <= |bytes|
    ensures ok ==> buffer[..n] == bytes[offset..offset + n]
  {
    ok := offset + n <= |bytes|;
    if ok {
      forall i | 0 <= i < n { buffer[i] := bytes[offset + i]; }
    }
  }

  /** The loop of computeChunkHashes over its one buffer. */
  method HashChunks(sha256: Hash, bytes: Bytes, fileSize: nat, chunkSize: nat) returns (r: Result<seq<Bytes>>)
    requires chunkSize > 0
    ensures r == if |bytes| < fileSize then Err("short read") else Ok(HashAll(sha256, Chunks(bytes[..fileSize], chunkSize)))
  {
    var hashes: seq<Bytes> := [];
    var buffer := new byte[chunkSize];
    var offset := 0;
    ghost var k := 0;
    while offset < fileSize
      invariant Boundary(offset, chunkSize, k) || offset == fileSize
      invariant offset <= fileSize && offset <= |bytes|
      invariant hashes == HashAll(sha256, Chunks(bytes[..offset], chunkSize))
    {
      var n := if fileSize - offset < chunkSize then fileSize - offset else chunkSize;
      var ok := ReadFull(bytes, offset, buffer, n);
      if !ok { return Err("short read"); }
      var chunk := buffer[..n];
      ChunkStep(sha256, bytes, fileSize, chunkSize, k, offset, n, hashes, chunk);
      hashes := hashes + [sha256(chunk)];
      offset := offset + n;
      k := k + 1;
    }
    r := Ok(hashes);
  }

  method ComputeChunkHashes(sha256: Hash, file: File, chunkSize: nat) returns (r: Result<seq<Bytes>>)
    requires chunkSize > 0
    ensures r == ChunkHashes(sha256, file, chunkSize)
  {
    if file.size.None? { return Err("failed to get file size"); }
    var fileSize := file.size.value;
    EmptyIff(fileSize, chunkSize);
    if NumChunks(fileSize, chunkSize) == 0 { return Err("empty file"); }
    r := HashChunks(sha256, file.bytes, fileSize, chunkSize);
  }

  lemma EmptyIff(n: nat, size: nat)
    requires size > 0
    ensures NumChunks(n, size) == 0 <==> n == 0
  {
    if n == 0 { Quotient(size - 1, size, 0, size - 1); } else { NumChunksStep(n, size); }
  }

  // ----- the tree ------------------------------------------------------

  function Pow2(m: nat): (r: nat)
    ensures r >= 1
  {
    if m == 0 then 1 else 2 * Pow2(m - 1)
  }

  /** The least height whose leaves fit `n` entries. */
  function Height(n: nat): (m: nat)
    ensures Pow2(m) >= n
    ensures m > 0 ==> Pow2(m - 1) < n
  {
    HeightFrom(n, 0)
  }

  function HeightFrom(n: nat, m: nat): (r: nat)
    requires m > 0 ==> Pow2(m - 1) < n
    ensures Pow2(r) >= n
    ensures r > 0 ==> Pow2(r - 1) < n
    decreases if Pow2(m) >= n then 0 else n - Pow2(m)
  {
    if Pow2(m) >= n then m else HeightFrom(n, m + 1)
  }

  const ZERO_HASH: Bytes := seq(HASH_LENGTH, _ => 0)

  /** Node `i` of the tree over `data` with `width` leaves. */
  function Node(h: Hash, data: seq<Bytes>, width: nat, i: nat): Bytes
    requires 1 <= i < 2 * width
    decreases 2 * width - i
  {
    if i >= width then
      if i - width < |data| then h(data[i - width]) else ZERO_HASH
    else h(Node(h, data, width, 2 * i) + Node(h, data, width, 2 * i + 1))
  }

  function Root(h: Hash, data: seq<Bytes>): Bytes {
    Node(h, data, Pow2(Height(|data|)), 1)
  }

  function Sibling(i: nat): nat {
    if i % 2 == 0 then i + 1 else i - 1
  }

  /** Siblings on the way from node `i` to the root. */
  function Siblings(h: Hash, data: seq<Bytes>, width: nat, i: nat): seq<Bytes>
    requires 1 <= i < 2 * width
  {
    if i == 1 then []
    else [Node(h, data, width, Sibling(i))] + Siblings(h, data, width, i / 2)
  }

  /** The lowest `n` bits of a position, lowest first: which nodes on the way up are right children. */
  function Turns(i: nat, n: nat): (turns: seq<bool>)
    ensures |turns| == n
  {
    if n == 0 then [] else [i % 2 == 1] + Turns(i / 2, n - 1)
  }

  /** What is hashed one level up. */
  function Joined(acc: Bytes, right: bool, sibling: Bytes): Bytes {
    if right then sibling + acc else acc + sibling
  }

  function Fold(h: Hash, acc: Bytes, turns: seq<bool>, hashes: seq<Bytes>): Bytes
    requires |turns| == |hashes|
    decreases |hashes|
  {
    if hashes == [] then acc else Fold(h, h(Joined(acc, turns[0], hashes[0])), turns[1..], hashes[1..])
  }

  datatype Proof = Proof(hashes: seq<Bytes>, index: nat)

  function IndexOf(data: seq<Bytes>, x: Bytes): (i: nat)
    requires x in data
    ensures i < |data| && data[i] == x && forall j | 0 <= j < i :: data[j] != x
  {
    if data[0] == x then 0 else 1 + IndexOf(data[1..], x)
  }

  /** The proof of the leaf at a position. */
  function ProofAt(h: Hash, data: seq<Bytes>, i: nat): Proof
    requires i < |data|
  {
    var width := Pow2(Height(|data|));
    Proof(Siblings(h, data, width, i + width), i)
  }

  /** The library looks the leaf up by value. */
  function TreeProof(h: Hash, data: seq<Bytes>, x: Bytes): Proof
    requires x in data
  {
    ProofAt(h, data, IndexOf(data, x))
  }

  function ProofTurns(p: Proof): (turns: seq<bool>)
    ensures |turns| == |p.hashes|
  {
    Turns(p.index + Pow2(|p.hashes|), |p.hashes|)
  }

  /** VerifyProof: a missing proof is an error. */
  function VerifyProof(h: Hash, chunkHash: Bytes, proof: Option<Proof>, root: Bytes): (r: Result<bool>)
    ensures r.Err? <==> proof.None?
  {
    match proof
    case None => Err("nil proof")
    case Some(p) => Ok(Fold(h, h(chunkHash), ProofTurns(p), p.hashes) == root)
  }

  lemma {:induction false} FoldReachesRoot(h: Hash, data: seq<Bytes>, width: nat, i: nat)
    requires 1 <= i < 2 * width
    ensures var s := Siblings(h, data, width, i);
      Fold(h, Node(h, data, width, i), Turns(i, |s|), s) == Node(h, data, width, 1)
  {
    if i > 1 {
      var s := Siblings(h, data, width, i);
      assert s[1..] == Siblings(h, data, width, i / 2);
      assert Turns(i, |s|)[1..] == Turns(i / 2, |s| - 1);
      assert Node(h, data, width, i / 2) == h(Joined(Node(h, data, width, i), i % 2 == 1, s[0]));
      FoldReachesRoot(h, data, width, i / 2);
    }
  }

  lemma {:induction false} SiblingCount(h: Hash, data: seq<Bytes>, width: nat, i: nat, m: nat)
    requires 1 <= i < 2 * width && Pow2(m) <= i < 2 * Pow2(m)
    ensures |Siblings(h, data, width, i)| == m
    decreases m
  {
    if m > 0 { SiblingCount(h, data, width, i / 2, m - 1); }
  }

  /** Completeness of the tree proofs. */
  lemma ProofAtVerifies(h: Hash, data: seq<Bytes>, i: nat)
    requires i < |data|
    ensures VerifyProof(h, data[i], Some(ProofAt(h, data, i)), Root(h, data)) == Ok(true)
    ensures |ProofAt(h, data, i).hashes| == Height(|data|)
  {
    ProofLength(h, data, i);
    var width := Pow2(Height(|data|));
    FoldReachesRoot(h, data, width, i + width);
  }

  lemma TreeProofVerifies(h: Hash, data: seq<Bytes>, x: Bytes)
    requires x in data
    ensures VerifyProof(h, x, Some(TreeProof(h, data, x)), Root(h, data)) == Ok(true)
    ensures |TreeProof(h, data, x).hashes| == Height(|data|)
  {
    ProofAtVerifies(h, data, IndexOf(data, x));
  }

  lemma ProofLength(h: Hash, data: seq<Bytes>, i: nat)
    requires i < |data|
    ensures |ProofAt(h, data, i).hashes| == Height(|data|)
  {
    var m := Height(|data|);
    SiblingCount(h, data, Pow2(m), i + Pow2(m), m);
  }

  // ----- soundness -----------------------------------------------------

  /** Everything a verification hashes, leaf first. */
  function Hashed(h: Hash, x: Bytes, turns: seq<bool>, hashes: seq<Bytes>): seq<Bytes>
    requires |turns| == |hashes|
    decreases |hashes|
  {
    [x] + if hashes == [] then [] else Hashed(h, Joined(h(x), turns[0], hashes[0]), turns[1..], hashes[1..])
  }

  function Verification(h: Hash, x: Bytes, p: Proof): seq<Bytes> {
    Hashed(h, x, ProofTurns(p), p.hashes)
  }

  /** Two verifications hash different inputs to the same value at some level. */
  ghost predicate Collide(h: Hash, a: seq<Bytes>, b: seq<Bytes>) {
    exists k :: 0 <= k < |a| && k < |b| && a[k] != b[k] && h(a[k]) == h(b[k])
  }

  ghost predicate FixedLength(h: Hash) {
    forall x :: |h(x)| == HASH_LENGTH
  }

  lemma {:induction false} SameRootSameLeaf(h: Hash, x: Bytes, y: Bytes, turns: seq<bool>, p: seq<Bytes>, q: seq<Bytes>)
    requires FixedLength(h) && |turns| == |p| == |q|
    requires Fold(h, h(x), turns, p) == Fold(h, h(y), turns, q)
    ensures x == y || Collide(h, Hashed(h, x, turns, p), Hashed(h, y, turns, q))
    decreases |p|
  {
    var a: seq<Bytes>, b: seq<Bytes> := Hashed(h, x, turns, p), Hashed(h, y, turns, q);
    if p != [] {
      var x', y' := Joined(h(x), turns[0], p[0]), Joined(h(y), turns[0], q[0]);
      SameRootSameLeaf(h, x', y', turns[1..], p[1..], q[1..]);
      assert a[1..] == Hashed(h, x', turns[1..], p[1..]) && b[1..] == Hashed(h, y', turns[1..], q[1..]);
      if x' == y' {
        JoinedInjective(h(x), h(y), turns[0], p[0], q[0]);
      } else {
        var a': seq<Bytes>, b': seq<Bytes> := a[1..], b[1..];
        var k :| 0 <= k < |a'| && k < |b'| && a'[k] != b'[k] && h(a'[k]) == h(b'[k]);
        assert a[k + 1] == a[1..][k] && b[k + 1] == b[1..][k];
      }
    }
    if x != y && h(x) == h(y) {
      assert a[0] == x && b[0] == y;
    }
  }

  lemma JoinedInjective(a: Bytes, b: Bytes, right: bool, p: Bytes, q: Bytes)
    requires |a| == |b| && Joined(a, right, p) == Joined(b, right, q)
    ensures a == b
  {
    var s := Joined(a, right, p);
    if right {
      assert s[|s| - |a|..] == a && s[|s| - |b|..] == b;
    } else {
      assert s[..|a|] == a && s[..|b|] == b;
    }
  }

  // ----- soundness against the whole tree ------------------------------

  /** What is hashed to give node `n`; padding is not hashed. */
  function Preimage(h: Hash, data: seq<Bytes>, width: nat, n: nat): Bytes
    requires 1 <= n < 2 * width && (n >= width ==> n - width < |data|)
  {
    if n >= width then data[n - width] else Node(h, data, width, 2 * n) + Node(h, data, width, 2 * n + 1)
  }

  /** `x` hashes to the padding or to an entry of the tree, or to the same value as
      another input of the tree. */
  ghost predicate Breaks(h: Hash, data: seq<Bytes>, width: nat, x: Bytes) {
    || h(x) == ZERO_HASH
    || h(x) in data
    || exists n: nat ::
         && 1 <= n < 2 * width && (n >= width ==> n - width < |data|)
         && Preimage(h, data, width, n) != x && h(Preimage(h, data, width, n)) == h(x)
  }

  ghost predicate Broken(h: Hash, data: seq<Bytes>, width: nat, inputs: seq<Bytes>) {
    exists x :: x in inputs && Breaks(h, data, width, x)
  }

  lemma JoinedAlone(a: Bytes, right: bool, sibling: Bytes)
    ensures |Joined(a, right, sibling)| == |a| ==> Joined(a, right, sibling) == a
  { }

  ghost predicate Digests(data: seq<Bytes>) {
    forall d | d in data :: |d| == HASH_LENGTH
  }

  /** The node that a path with these turns starts from. */
  function Descend(turns: seq<bool>): (node: nat)
    ensures node >= 1
  {
    if turns == [] then 1 else 2 * Descend(turns[1..]) + if turns[0] then 1 else 0
  }

  /** The lowest `n` bits of an index. */
  function Low(i: nat, n: nat): nat {
    if n == 0 then 0 else 2 * Low(i / 2, n - 1) + i % 2
  }

  lemma {:induction false} LowIsMod(i: nat, n: nat)
    ensures Low(i, n) == i % Pow2(n)
  {
    if n > 0 {
      LowIsMod(i / 2, n - 1);
      HalfMod(i, Pow2(n - 1));
    }
  }

  lemma {:induction false} DescendIs(i: nat, n: nat)
    ensures Descend(Turns(i + Pow2(n), n)) == Pow2(n) + Low(i, n)
    ensures Low(i, n) < Pow2(n)
  {
    if n > 0 {
      var half, t := Pow2(n - 1), Turns(i + Pow2(n), n);
      DescendIs(i / 2, n - 1);
      HalfShift(i, half);
      assert t[1..] == Turns(i / 2 + half, n - 1) && t[0] == (i % 2 == 1);
    }
  }

  lemma HalfShift(i: nat, p: nat)
    ensures (i + 2 * p) / 2 == i / 2 + p && (i + 2 * p) % 2 == i % 2
  { }

  lemma HalfMod(i: nat, half: nat)
    requires half > 0
    ensures i % (2 * half) == 2 * (i / 2 % half) + i % 2
  {
    var q := i / 2 / half;
    var r := 2 * (i / 2 % half) + i % 2;
    assert i == q * (2 * half) + r;
    Quotient(i, 2 * half, q, r);
  }

  lemma NodeIsDigest(h: Hash, data: seq<Bytes>, width: nat, n: nat)
    requires FixedLength(h) && 1 <= n < 2 * width
    ensures |Node(h, data, width, n)| == HASH_LENGTH
  { }

  lemma LeafInput(h: Hash, data: seq<Bytes>, width: nat, y: Bytes, n: nat)
    requires 1 <= width <= n < 2 * width
    requires h(y) == Node(h, data, width, n) && !Breaks(h, data, width, y)
    ensures n - width < |data| && y == data[n - width]
  {
    assert n - width < |data|;
    assert Preimage(h, data, width, n) == data[n - width];
  }

  /** One level down: an input that hashes to node `n` comes from a child of `n`. */
  lemma OneDown(h: Hash, data: seq<Bytes>, width: nat, x: Bytes, right: bool, sibling: Bytes, n: nat)
    requires FixedLength(h) && Digests(data) && 1 <= n < 2 * width
    requires var y := Joined(h(x), right, sibling); h(y) == Node(h, data, width, n) && !Breaks(h, data, width, y)
    requires !Breaks(h, data, width, x)
    ensures n < width && h(x) == Node(h, data, width, 2 * n + if right then 1 else 0)
  {
    var y := Joined(h(x), right, sibling);
    JoinedAlone(h(x), right, sibling);
    if n >= width {
      LeafInput(h, data, width, y, n);
      assert false;
    }
    var left, other := Node(h, data, width, 2 * n), Node(h, data, width, 2 * n + 1);
    assert y == Preimage(h, data, width, n) == left + other;
    NodeIsDigest(h, data, width, 2 * n);
    NodeIsDigest(h, data, width, 2 * n + 1);
    if right {
      assert y[|y| - HASH_LENGTH..] == h(x) && y[|y| - HASH_LENGTH..] == other;
    } else {
      assert y[..HASH_LENGTH] == h(x) && y[..HASH_LENGTH] == left;
    }
  }

  lemma IntactAbove(h: Hash, data: seq<Bytes>, width: nat, x: Bytes, turns: seq<bool>, hashes: seq<Bytes>)
    requires |turns| == |hashes| > 0 && !Broken(h, data, width, Hashed(h, x, turns, hashes))
    ensures var y := Joined(h(x), turns[0], hashes[0]);
      && !Breaks(h, data, width, x) && !Breaks(h, data, width, y)
      && !Broken(h, data, width, Hashed(h, y, turns[1..], hashes[1..]))
  {
    var y := Joined(h(x), turns[0], hashes[0]);
    var inputs, above := Hashed(h, x, turns, hashes), Hashed(h, y, turns[1..], hashes[1..]);
    assert inputs[0] == x && above[0] == y;
    assert inputs[1..] == above;
    assert forall z | z in above :: z in inputs;
  }

  lemma NodeBelow(h: Hash, data: seq<Bytes>, width: nat, x: Bytes, turns: seq<bool>, sibling: Bytes, above: nat) returns (node: nat)
    requires FixedLength(h) && Digests(data) && turns != [] && above == Descend(turns[1..]) && above < 2 * width
    requires var y := Joined(h(x), turns[0], sibling); h(y) == Node(h, data, width, above) && !Breaks(h, data, width, y)
    requires !Breaks(h, data, width, x)
    ensures node == Descend(turns) && 1 <= node < 2 * width && h(x) == Node(h, data, width, node)
  {
    OneDown(h, data, width, x, turns[0], sibling, above);
    node := 2 * above + if turns[0] then 1 else 0;
  }

  lemma FoldAbove(h: Hash, acc: Bytes, turns: seq<bool>, hashes: seq<Bytes>)
    requires |turns| == |hashes| > 0
    ensures Fold(h, acc, turns, hashes) == Fold(h, h(Joined(acc, turns[0], hashes[0])), turns[1..], hashes[1..])
  { }

  lemma {:induction false} PathInTree(h: Hash, data: seq<Bytes>, width: nat, x: Bytes, turns: seq<bool>, hashes: seq<Bytes>, root: Bytes)
    returns (node: nat)
    requires FixedLength(h) && Digests(data) && width > 0 && |turns| == |hashes|
    requires root == Node(h, data, width, 1) && Fold(h, h(x), turns, hashes) == root
    requires !Broken(h, data, width, Hashed(h, x, turns, hashes))
    ensures node == Descend(turns) && 1 <= node < 2 * width && h(x) == Node(h, data, width, node)
    decreases |hashes|
  {
    if hashes == [] {
      node := 1;
    } else {
      IntactAbove(h, data, width, x, turns, hashes);
      FoldAbove(h, h(x), turns, hashes);
      var above := PathInTree(h, data, width, Joined(h(x), turns[0], hashes[0]), turns[1..], hashes[1..], root);
      node := NodeBelow(h, data, width, x, turns, hashes[0], above);
    }
  }

  lemma {:induction false} Pow2Grows(a: nat, b: nat)
    requires a < b
    ensures 2 * Pow2(a) <= Pow2(b)
  {
    if a < b - 1 { Pow2Grows(a, b - 1); }
  }

  /** A digest that hashes to a node is the entry at that node. */
  lemma DigestIsLeaf(h: Hash, data: seq<Bytes>, width: nat, x: Bytes, n: nat)
    requires FixedLength(h) && |x| == HASH_LENGTH && 1 <= n < 2 * width
    requires h(x) == Node(h, data, width, n) && !Breaks(h, data, width, x)
    ensures n >= width && n - width < |data| && data[n - width] == x
  {
    if n < width {
      NodeIsDigest(h, data, width, 2 * n);
      NodeIsDigest(h, data, width, 2 * n + 1);
      var other := Preimage(h, data, width, n);
      assert false;
    } else {
      LeafInput(h, data, width, x, n);
    }
  }

  lemma SameLevel(a: nat, b: nat, n: nat)
    requires Pow2(a) <= n < 2 * Pow2(a) && Pow2(b) <= n < 2 * Pow2(b)
    ensures a == b
  {
    if a < b { Pow2Grows(a, b); }
    if b < a { Pow2Grows(b, a); }
  }

  lemma LeafIntact(h: Hash, data: seq<Bytes>, width: nat, x: Bytes, turns: seq<bool>, hashes: seq<Bytes>)
    requires |turns| == |hashes| && !Broken(h, data, width, Hashed(h, x, turns, hashes))
    ensures !Breaks(h, data, width, x)
  {
    assert Hashed(h, x, turns, hashes)[0] == x;
  }

  lemma VerifiedLeaf(h: Hash, data: seq<Bytes>, width: nat, x: Bytes, turns: seq<bool>, hashes: seq<Bytes>, root: Bytes)
    returns (node: nat)
    requires FixedLength(h) && Digests(data) && |x| == HASH_LENGTH && |turns| == |hashes| && width > 0
    requires !Broken(h, data, width, Hashed(h, x, turns, hashes))
    requires Fold(h, h(x), turns, hashes) == root && root == Node(h, data, width, 1)
    ensures node == Descend(turns) && width <= node < 2 * width
    ensures node - width < |data| && data[node - width] == x
  {
    node := PathInTree(h, data, width, x, turns, hashes, root);
    LeafIntact(h, data, width, x, turns, hashes);
    DigestIsLeaf(h, data, width, x, node);
  }

  lemma LowOf(p: Proof, m: nat, node: nat) returns (low: nat)
    requires node == Descend(ProofTurns(p)) && Pow2(m) <= node < 2 * Pow2(m)
    ensures |p.hashes| == m && low == p.index % Pow2(m) == node - Pow2(m)
  {
    DescendIs(p.index, |p.hashes|);
    LowIsMod(p.index, |p.hashes|);
    SameLevel(|p.hashes|, m, node);
    low := Low(p.index, |p.hashes|);
  }

  /** Whatever proof, of whatever length, verifies a digest against the root of a tree:
      its length is the height and the digest is the entry at its index modulo the width,
      unless an input of the verification breaks the hash. */
  lemma AnyProofIsOfTheTree(h: Hash, data: seq<Bytes>, x: Bytes, p: Proof) returns (low: nat)
    requires FixedLength(h) && Digests(data) && |x| == HASH_LENGTH
    requires VerifyProof(h, x, Some(p), Root(h, data)) == Ok(true)
    requires !Broken(h, data, Pow2(Height(|data|)), Verification(h, x, p))
    ensures |p.hashes| == Height(|data|)
    ensures low == p.index % Pow2(Height(|data|)) && low < |data| && data[low] == x
  {
    var m := Height(|data|);
    var width := Pow2(m);
    var node := VerifiedLeaf(h, data, width, x, ProofTurns(p), p.hashes, Root(h, data));
    low := LowOf(p, m, node);
  }

  // ----- main results --------------------------------------------------

  datatype Generated = Generated(proof: Proof, root: Bytes, chunkHash: Bytes)

  method ComputeMerkleRoot(sha256: Hash, sha3: Hash, file: File) returns (r: Result<Bytes>)
    ensures r == match ChunkHashes(sha256, file, 262144)
                 case Err(e) => Err(e)
                 case Ok(hashes) => Ok(Root(sha3, hashes))
  {
    var hashes := ComputeChunkHashes(sha256, file, DEFAULT_CHUNK_SIZE);
    match hashes
    case Err(e) => r := Err(e);
    case Ok(hs) => r := Ok(Root(sha3, hs));
  }

  /** What GenerateProof answers; an index beyond the last chunk stops the source. */
  function ProofFor(sha256: Hash, sha3: Hash, file: File, chunkIndex: nat): Result<Generated> {
    match ChunkHashes(sha256, file, DEFAULT_CHUNK_SIZE)
    case Err(e) => Err(e)
    case Ok(hs) =>
      if chunkIndex >= |hs| then Err("index out of range")
      else Ok(Generated(TreeProof(sha3, hs, hs[chunkIndex]), Root(sha3, hs), hs[chunkIndex]))
  }

  method GenerateProof(sha256: Hash, sha3: Hash, file: File, chunkIndex: nat) returns (r: Result<Generated>)
    ensures r == ProofFor(sha256, sha3, file, chunkIndex)
  {
    var hashes := ComputeChunkHashes(sha256, file, DEFAULT_CHUNK_SIZE);
    match hashes
    case Err(e) => r := Err(e);
    case Ok(hs) =>
      if chunkIndex >= |hs| {
        r := Err("index out of range");
      } else {
        r := Ok(Generated(TreeProof(sha3, hs, hs[chunkIndex]), Root(sha3, hs), hs[chunkIndex]));
      }
  }

  /** A proof is generated for exactly the chunk indices of a readable non-empty
      file; it carries the hash of that chunk, it verifies against the root of the
      same file, and its index names the first chunk of equal hash. */
  lemma ChallengeProofComplete(sha256: Hash, sha3: Hash, file: File, chunkIndex: nat)
    ensures ProofFor(sha256, sha3, file, chunkIndex).Ok? <==>
      file.size.Some? && 0 < file.size.value <= |file.bytes| && chunkIndex * 262144 < file.size.value
    ensures ProofFor(sha256, sha3, file, chunkIndex).Ok? ==>
      var g := ProofFor(sha256, sha3, file, chunkIndex).value;
      var chunks := Chunks(file.bytes[..file.size.value], 262144);
      && chunkIndex < |chunks| && g.chunkHash == sha256(chunks[chunkIndex])
      && VerifyProof(sha3, g.chunkHash, Some(g.proof), g.root) == Ok(true)
      && g.root == Root(sha3, HashAll(sha256, chunks))
      && g.proof.index <= chunkIndex && sha256(chunks[g.proof.index]) == g.chunkHash
      && (forall j | 0 <= j < g.proof.index :: sha256(chunks[j]) != g.chunkHash)
  {
    var hashes := ChunkHashes(sha256, file, DEFAULT_CHUNK_SIZE);
    if hashes.Ok? {
      ChunkCount(file.bytes[..file.size.value], DEFAULT_CHUNK_SIZE);
      assert chunkIndex < NumChunks(file.size.value, DEFAULT_CHUNK_SIZE) <==> chunkIndex * 262144 < file.size.value;
      if chunkIndex < |hashes.value| {
        TreeProofVerifies(sha3, hashes.value, hashes.value[chunkIndex]);
      }
    }
  }

  lemma SameIndexSameLeaf(h: Hash, x: Bytes, p: Proof, y: Bytes, q: Proof, root: Bytes)
    requires FixedLength(h) && p.index == q.index && |p.hashes| == |q.hashes|
    requires VerifyProof(h, x, Some(p), root) == Ok(true) && VerifyProof(h, y, Some(q), root) == Ok(true)
    ensures x == y || Collide(h, Verification(h, x, p), Verification(h, y, q))
  {
    SameRootSameLeaf(h, x, y, ProofTurns(p), p.hashes, q.hashes);
  }

  lemma GeneratedVerifies(sha256: Hash, sha3: Hash, file: File, chunkIndex: nat, g: Generated)
    requires ProofFor(sha256, sha3, file, chunkIndex) == Ok(g)
    ensures VerifyProof(sha3, g.chunkHash, Some(g.proof), g.root) == Ok(true)
  {
    ChallengeProofComplete(sha256, sha3, file, chunkIndex);
  }

  /** No other leaf verifies at the index of a generated proof, unless the two
      verifications exhibit a collision of the tree hash. */
  lemma ChallengeProofSound(
    sha256: Hash, sha3: Hash, file: File, chunkIndex: nat, g: Generated, other: Bytes, forged: Proof)
    requires FixedLength(sha3) && ProofFor(sha256, sha3, file, chunkIndex) == Ok(g)
    requires forged.index == g.proof.index && |forged.hashes| == |g.proof.hashes|
    requires VerifyProof(sha3, other, Some(forged), g.root) == Ok(true)
    ensures other == g.chunkHash || Collide(sha3, Verification(sha3, other, forged), Verification(sha3, g.chunkHash, g.proof))
  {
    GeneratedVerifies(sha256, sha3, file, chunkIndex, g);
    SameIndexSameLeaf(sha3, other, forged, g.chunkHash, g.proof, g.root);
  }

  /** Any proof that verifies a chunk hash against the root of a file is for the chunk of
      that file at its index modulo the width of the tree. */
  lemma OnlyChunksVerify(sha256: Hash, sha3: Hash, file: File, other: Bytes, forged: Proof) returns (j: nat)
    requires FixedLength(sha256) && FixedLength(sha3) && |other| == HASH_LENGTH
    requires ChunkHashes(sha256, file, DEFAULT_CHUNK_SIZE).Ok?
    requires var hashes := ChunkHashes(sha256, file, DEFAULT_CHUNK_SIZE).value;
      && VerifyProof(sha3, other, Some(forged), Root(sha3, hashes)) == Ok(true)
      && !Broken(sha3, hashes, Pow2(Height(|hashes|)), Verification(sha3, other, forged))
    ensures var chunks := Chunks(file.bytes[..file.size.value], DEFAULT_CHUNK_SIZE);
      && |forged.hashes| == Height(|chunks|) && j == forged.index % Pow2(Height(|chunks|))
      && j < |chunks| && other == sha256(chunks[j])
  {
    var hashes := ChunkHashes(sha256, file, DEFAULT_CHUNK_SIZE).value;
    j := AnyProofIsOfTheTree(sha3, hashes, other, forged);
  }

  // ----- the challenge responder ---------------------------------------

  datatype Response = Submitted(chunkHash: Bytes, proof: Proof) | Failed

  /** The responder submits only if its root is the challenged one. */
  function Respond(sha256: Hash, sha3: Hash, file: File, chunkIndex: nat, rootHash: Bytes): Response {
    match ProofFor(sha256, sha3, file, chunkIndex)
    case Err(_) => Failed
    case Ok(g) => if g.root == rootHash then Submitted(g.chunkHash, g.proof) else Failed
  }

  /** Whatever is submitted verifies against the challenged root, and the holder of
      the challenged file always submits. */
  lemma ResponseIsAccepted(sha256: Hash, sha3: Hash, file: File, chunkIndex: nat, rootHash: Bytes)
    ensures var response := Respond(sha256, sha3, file, chunkIndex, rootHash);
      && (response.Submitted? ==> VerifyProof(sha3, response.chunkHash, Some(response.proof), rootHash) == Ok(true))
      && (response.Submitted? <==>
            && file.size.Some? && 0 < file.size.value <= |file.bytes| && chunkIndex * 262144 < file.size.value
            && rootHash == Root(sha3, HashAll(sha256, Chunks(file.bytes[..file.size.value], 262144))))
  {
    ChallengeProofComplete(sha256, sha3, file, chunkIndex);
  }

  /** It is the hash of the challenged chunk, and the proof names the first chunk of that hash. */
  lemma ResponseIsForChunk(sha256: Hash, sha3: Hash, file: File, chunkIndex: nat, rootHash: Bytes)
    requires Respond(sha256, sha3, file, chunkIndex, rootHash).Submitted?
    ensures var response := Respond(sha256, sha3, file, chunkIndex, rootHash);
      && file.size.Some? && file.size.value <= |file.bytes|
      && var chunks := Chunks(file.bytes[..file.size.value], 262144);
      && chunkIndex < |chunks| && response.chunkHash == sha256(chunks[chunkIndex])
      && response.proof.index <= chunkIndex && sha256(chunks[response.proof.index]) == response.chunkHash
      && (forall j | 0 <= j < response.proof.index :: sha256(chunks[j]) != response.chunkHash)
  {
    ChallengeProofComplete(sha256, sha3, file, chunkIndex);
  }

  /** Entries of equal trees are equal position by position, unless the hash breaks. */
  lemma SameRootSameEntry(h: Hash, data: seq<Bytes>, other: seq<Bytes>, i: nat)
    requires FixedLength(h) && Digests(data) && Digests(other) && i < |other| && Root(h, data) == Root(h, other)
    requires !Broken(h, data, Pow2(Height(|data|)), Verification(h, other[i], ProofAt(h, other, i)))
    ensures i < |data| && data[i] == other[i]
  {
    ProofAtVerifies(h, other, i);
    assert other[i] in other;
    var low := AnyProofIsOfTheTree(h, data, other[i], ProofAt(h, other, i));
    assert i < Pow2(Height(|other|));
    SmallMod(i, Pow2(Height(|data|)));
  }

  lemma SmallMod(i: nat, n: nat)
    requires i < n
    ensures i % n == i
  { }

  /** Even a responder with another file answers with the hash of the challenged chunk of
      the original, unless the proof at that position of its own tree breaks the hash. */
  lemma ForeignResponse(sha256: Hash, sha3: Hash, file: File, chunkIndex: nat, original: File, hashes: seq<Bytes>, mine: seq<Bytes>)
    requires FixedLength(sha256) && FixedLength(sha3)
    requires ChunkHashes(sha256, original, 262144) == Ok(hashes) && ChunkHashes(sha256, file, 262144) == Ok(mine)
    requires Respond(sha256, sha3, file, chunkIndex, Root(sha3, hashes)).Submitted? && chunkIndex < |mine|
    requires !Broken(sha3, hashes, Pow2(Height(|hashes|)), Verification(sha3, mine[chunkIndex], ProofAt(sha3, mine, chunkIndex)))
    ensures chunkIndex < |Chunks(original.bytes[..original.size.value], 262144)|
    ensures Respond(sha256, sha3, file, chunkIndex, Root(sha3, hashes)).chunkHash
         == sha256(Chunks(original.bytes[..original.size.value], 262144)[chunkIndex])
  {
    RespondsWith(sha256, sha3, file, chunkIndex, Root(sha3, hashes), mine);
    HashesAreDigests(sha256, original, hashes);
    HashesAreDigests(sha256, file, mine);
    SameRootSameEntry(sha3, hashes, mine, chunkIndex);
    HashOfChunk(sha256, original, hashes, chunkIndex);
  }

  lemma HashesAreDigests(sha256: Hash, file: File, hashes: seq<Bytes>)
    requires FixedLength(sha256) && ChunkHashes(sha256, file, 262144) == Ok(hashes)
    ensures Digests(hashes)
  { }

  lemma HashOfChunk(sha256: Hash, file: File, hashes: seq<Bytes>, i: nat)
    requires ChunkHashes(sha256, file, 262144) == Ok(hashes) && i < |hashes|
    ensures i < |Chunks(file.bytes[..file.size.value], 262144)|
    ensures hashes[i] == sha256(Chunks(file.bytes[..file.size.value], 262144)[i])
  { }

  lemma RespondsWith(sha256: Hash, sha3: Hash, file: File, chunkIndex: nat, rootHash: Bytes, mine: seq<Bytes>)
    requires ChunkHashes(sha256, file, 262144) == Ok(mine)
    requires Respond(sha256, sha3, file, chunkIndex, rootHash).Submitted?
    ensures chunkIndex < |mine| && Root(sha3, mine) == rootHash
    ensures Respond(sha256, sha3, file, chunkIndex, rootHash).chunkHash == mine[chunkIndex]
  { }
}
