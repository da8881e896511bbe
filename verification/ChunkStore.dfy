/** The erasure-coded chunk store (daemon/dfs/dfs.go) over a shard store that may drop or substitute shards. */
module ChunkStore {
  import opened Machine

  /** The Reed-Solomon codec: Split and Encode, Reconstruct, Verify, and Join to a given length. */
  datatype Code = Code(encode: Str -> seq<Str>, rebuild: seq<Option<Str>> -> Option<seq<Str>>, check: seq<Str> -> bool,
                       join: (seq<Str>, nat) -> Option<Str>)

  function Present(got: seq<Option<Str>>): nat {
    if got == [] then 0 else Present(got[..|got| - 1]) + if got[|got| - 1].Some? then 1 else 0
  }

  predicate Consistent(got: seq<Option<Str>>, full: seq<Str>) {
    |got| == |full| && forall i :: 0 <= i < |got| && got[i].Some? ==> got[i].value == full[i]
  }

  /** What is assumed of the code: any k of the k+m shards of a chunk rebuild all of them, and the whole
      set joins back to the chunk. */
  ghost predicate Erasure(code: Code, k: nat, m: nat) {
    forall chunk: Str :: chunk != [] ==> Recovers(code, k, m, chunk)
  }

  ghost predicate Recovers(code: Code, k: nat, m: nat, chunk: Str) {
    var full := code.encode(chunk);
    |full| == k + m && code.check(full) && code.join(full, |chunk|) == Some(chunk)
    && forall got :: Consistent(got, full) && Present(got) >= k ==> code.rebuild(got) == Some(full)
  }

  /** What is assumed of the content hash. */
  ghost predicate Injective(cid: Str -> Str) { forall a, b :: cid(a) == cid(b) ==> a == b }

  datatype ChunkManifest = ChunkManifest(cids: seq<Str>, size: nat)

  datatype Manifest = Manifest(root: Str, k: nat, m: nat, chunkSize: nat, total: nat, chunks: seq<ChunkManifest>)

  // ---------- Put ----------

  /** The pieces ReadFull yields: full chunks, then the remainder if there is one. */
  function Slices(data: Str, size: nat): seq<Str>
    requires size > 0
  {
    if data == [] then []
    else if |data| <= size then [data]
    else [data[..size]] + Slices(data[size..], size)
  }

  function Cids(cid: Str -> Str, shards: seq<Str>): seq<Str> { seq(|shards|, i requires 0 <= i < |shards| => cid(shards[i])) }

  function ChunkOf(code: Code, cid: Str -> Str, piece: Str): ChunkManifest {
    ChunkManifest(Cids(cid, code.encode(piece)), |piece|)
  }

  function ChunksOf(code: Code, cid: Str -> Str, pieces: seq<Str>): seq<ChunkManifest> {
    if pieces == [] then [] else [ChunkOf(code, cid, pieces[0])] + ChunksOf(code, cid, pieces[1..])
  }

  lemma {:induction false} ChunksAt(code: Code, cid: Str -> Str, pieces: seq<Str>, i: nat)
    requires i < |pieces|
    ensures |ChunksOf(code, cid, pieces)| == |pieces| && ChunksOf(code, cid, pieces)[i] == ChunkOf(code, cid, pieces[i])
  {
    if |pieces| > 1 { ChunksAt(code, cid, pieces[1..], if i > 0 then i - 1 else 0); }
  }

  /** The store refuses one of the chunk's shards. */
  predicate Refused(code: Code, cid: Str -> Str, stores: (Str, Str) -> bool, chunk: Str) {
    exists i :: 0 <= i < |code.encode(chunk)| && !stores(cid(code.encode(chunk)[i]), code.encode(chunk)[i])
  }

  predicate AnyRefused(code: Code, cid: Str -> Str, stores: (Str, Str) -> bool, pieces: seq<Str>) {
    pieces != [] && (Refused(code, cid, stores, pieces[0]) || AnyRefused(code, cid, stores, pieces[1..]))
  }

  /** The store refuses a shard of one of the pieces. */
  lemma {:induction false} AnyRefusedExactly(code: Code, cid: Str -> Str, stores: (Str, Str) -> bool, pieces: seq<Str>)
    ensures AnyRefused(code, cid, stores, pieces) <==> exists j :: 0 <= j < |pieces| && Refused(code, cid, stores, pieces[j])
  {
    hide Refused;
    if pieces != [] {
      AnyRefusedExactly(code, cid, stores, pieces[1..]);
      if j :| 0 < j < |pieces| && Refused(code, cid, stores, pieces[j]) { assert pieces[1..][j - 1] == pieces[j]; }
      if j :| 0 <= j < |pieces[1..]| && Refused(code, cid, stores, pieces[1..][j]) { assert pieces[j + 1] == pieces[1..][j]; }
    }
  }

  /** `putChunk`: encode, address and store every shard; the store may refuse one. */
  method PutChunk(code: Code, cid: Str -> Str, stores: (Str, Str) -> bool, chunk: Str) returns (cm: Option<ChunkManifest>)
    ensures cm.Some? ==> cm.value == ChunkOf(code, cid, chunk)
    ensures cm.None? <==> Refused(code, cid, stores, chunk)
  {
    var shards := code.encode(chunk);
    var cids: seq<Str> := [];
    for i := 0 to |shards|
      invariant |cids| == i && forall j :: 0 <= j < i ==> cids[j] == cid(shards[j]) && stores(cid(shards[j]), shards[j])
    {
      if !stores(cid(shards[i]), shards[i]) { return None; }
      cids := cids + [cid(shards[i])];
    }
    assert cids == Cids(cid, shards);
    cm := Some(ChunkManifest(cids, |chunk|));
  }

  function Flatten(cms: seq<ChunkManifest>): Str {
    if cms == [] then [] else Flatten(cms[..|cms| - 1]) + Bytes(cms[|cms| - 1].cids)
  }

  function Bytes(cids: seq<Str>): Str { if cids == [] then [] else Bytes(cids[..|cids| - 1]) + cids[|cids| - 1] }

  /** `Put`: chunk by chunk until a short read. */
  method Put(code: Code, cid: Str -> Str, stores: (Str, Str) -> bool, k: nat, m: nat, chunkSize: nat, data: Str)
    returns (man: Option<Manifest>)
    requires chunkSize > 0
    ensures man.Some? ==>
              man.value.chunks == ChunksOf(code, cid, Slices(data, chunkSize)) && man.value.total == |data|
              && man.value.k == k && man.value.m == m && man.value.chunkSize == chunkSize
              && man.value.root == cid(Flatten(man.value.chunks))
    ensures man.None? <==> AnyRefused(code, cid, stores, Slices(data, chunkSize))
  {
    hide ChunkOf, ChunksOf, Slices, Bytes, Refused, AnyRefused;
    var chunks: seq<ChunkManifest> := [];
    var total, off, rootInput := 0, 0, [];
    assert data[0..] == data;
    while true
      invariant off <= |data| && total == off && rootInput == Flatten(chunks)
      invariant ChunksOf(code, cid, Slices(data, chunkSize)) == chunks + ChunksOf(code, cid, Slices(data[off..], chunkSize))
      invariant AnyRefused(code, cid, stores, Slices(data, chunkSize))
            <==> AnyRefused(code, cid, stores, Slices(data[off..], chunkSize))
      decreases |data| - off + 1
    {
      var n := if |data| - off < chunkSize then |data| - off else chunkSize;
      if n > 0 {
        var chunk := data[off..off + n];
        var cm := PutChunk(code, cid, stores, chunk);
        assert data[off..][..n] == chunk && data[off..][n..] == data[off + n..];
        RefusedStep(code, cid, stores, data[off..], chunkSize, n);
        if cm.None? { return None; }
        SliceStep(code, cid, data[off..], chunkSize, n);
        rootInput := AppendCids(rootInput, cm.value.cids);
        assert (chunks + [cm.value])[..|chunks|] == chunks;
        chunks := chunks + [cm.value];
        total := total + n;
        off := off + n;
      }
      if n < chunkSize {
        assert data[off..] == [];
        NoSlices(code, cid, stores, chunkSize);
        break;
      }
    }
    man := Some(Manifest(cid(rootInput), k, m, chunkSize, total, chunks));
  }

  method AppendCids(root: Str, cids: seq<Str>) returns (r: Str)
    ensures r == root + Bytes(cids)
  {
    r := root;
    for i := 0 to |cids|
      invariant r == root + Bytes(cids[..i])
    {
      assert cids[..i + 1][..i] == cids[..i];
      r := r + cids[i];
    }
    assert cids[..|cids|] == cids;
  }

  lemma {:induction false} RefusedStep(code: Code, cid: Str -> Str, stores: (Str, Str) -> bool, data: Str, size: nat, n: nat)
    requires size > 0 && data != [] && n == if |data| < size then |data| else size
    ensures AnyRefused(code, cid, stores, Slices(data, size))
       <==> Refused(code, cid, stores, data[..n]) || AnyRefused(code, cid, stores, Slices(data[n..], size))
  {
    hide Refused;
    if |data| <= size {
      assert data[..n] == data && data[n..] == [];
      assert [data][1..] == [];
    } else {
      assert ([data[..size]] + Slices(data[size..], size))[1..] == Slices(data[size..], size);
    }
  }

  lemma {:induction false} NoSlices(code: Code, cid: Str -> Str, stores: (Str, Str) -> bool, size: nat)
    requires size > 0
    ensures ChunksOf(code, cid, Slices([], size)) == [] && !AnyRefused(code, cid, stores, Slices([], size))
  {
  }

  lemma {:induction false} SliceStep(code: Code, cid: Str -> Str, data: Str, size: nat, n: nat)
    requires size > 0 && data != [] && n == if |data| < size then |data| else size
    ensures ChunksOf(code, cid, Slices(data, size)) == [ChunkOf(code, cid, data[..n])]
          + ChunksOf(code, cid, Slices(data[n..], size))
  {
    if |data| <= size { assert data[..n] == data && data[n..] == []; }
    hide ChunkOf;
  }

  // ---------- Get ----------

  /** What one fetch round brings: an answer is kept only if it hashes back to its address. */
  function Survivors(cid: Str -> Str, cids: seq<Str>, answer: nat -> Option<Str>): seq<Option<Str>> {
    seq(|cids|, i requires 0 <= i < |cids| =>
      if answer(i).Some? && cid(answer(i).value) == cids[i] then answer(i) else None)
  }

  function ChunkResult(code: Code, cid: Str -> Str, cm: ChunkManifest, k: nat, answer: nat -> Option<Str>): Option<Str> {
    var got := Survivors(cid, cm.cids, answer);
    if Present(got) < k then None
    else
      var full := code.rebuild(got);
      if full.None? || !code.check(full.value) then None else code.join(full.value, cm.size)
  }

  /** What a chunk that comes back rests on, whatever the code, the hash and the manifest: k shards that hash to
      their ids, a rebuilt set that passes verification, and its join to the recorded length. */
  ghost predicate Vouched(code: Code, cid: Str -> Str, cm: ChunkManifest, k: nat, answer: nat -> Option<Str>, chunk: Str) {
    exists got: seq<Option<Str>>, full ::
      |got| == |cm.cids| && Present(got) >= k
      && (forall i :: 0 <= i < |got| && got[i].Some? ==> got[i] == answer(i) && cid(got[i].value) == cm.cids[i])
      && code.rebuild(got) == Some(full) && code.check(full) && code.join(full, cm.size) == Some(chunk)
  }

  /** `getChunk`. */
  method GetChunk(code: Code, cid: Str -> Str, cm: ChunkManifest, k: nat, answer: nat -> Option<Str>) returns (r: Option<Str>)
    ensures r == ChunkResult(code, cid, cm, k, answer)
    ensures r.Some? ==> Vouched(code, cid, cm, k, answer, r.value)
  {
    hide Present;
    var shards: seq<Option<Str>> := [];
    var present := 0;
    NonePresent();
    ghost var all := Survivors(cid, cm.cids, answer);
    for i := 0 to |cm.cids|
      invariant |shards| == i && forall j :: 0 <= j < i ==> shards[j] == all[j]
      invariant present == Present(shards)
    {
      var b := answer(i);
      var keep := b.Some? && cid(b.value) == cm.cids[i];
      PresentSnoc(shards, if keep then b else None);
      shards := shards + [if keep then b else None];
      if keep { present := present + 1; }
    }
    assert shards == all;
    if present < k { return None; }
    var full := code.rebuild(shards);
    if full.None? || !code.check(full.value) { return None; }
    r := code.join(full.value, cm.size);
  }

  lemma NonePresent()
    ensures Present([]) == 0
  {
  }

  lemma {:induction false} PresentSnoc(got: seq<Option<Str>>, x: Option<Str>)
    ensures Present(got + [x]) == Present(got) + if x.Some? then 1 else 0
  {
    assert (got + [x])[..|got|] == got;
  }

  /** `Get`; `answer(ci)(i)` is what the store returns for shard `i` of chunk `ci`. */
  method Get(code: Code, cid: Str -> Str, man: Manifest, answer: nat -> nat -> Option<Str>) returns (out: Option<Str>)
    ensures out == Fetched(code, cid, man, answer, |man.chunks|)
    ensures out.Some? ==> man.k > 0 && man.m > 0 && forall ci :: 0 <= ci < |man.chunks| ==> |man.chunks[ci].cids| == man.k + man.m
  {
    hide ChunkResult, Vouched;
    if man.k == 0 || man.m == 0 { return None; }
    var bytes: Str := [];
    for ci := 0 to |man.chunks|
      invariant Some(bytes) == Fetched(code, cid, man, answer, ci)
    {
      if |man.chunks[ci].cids| != man.k + man.m {
        FetchFails(code, cid, man, answer, ci + 1, |man.chunks|);
        return None;
      }
      var chunk := GetChunk(code, cid, man.chunks[ci], man.k, answer(ci));
      if chunk.None? {
        FetchFails(code, cid, man, answer, ci + 1, |man.chunks|);
        return None;
      }
      bytes := bytes + chunk.value;
    }
    FetchedShape(code, cid, man, answer, |man.chunks|);
    out := Some(bytes);
  }

  lemma {:induction false} FetchedShape(code: Code, cid: Str -> Str, man: Manifest, answer: nat -> nat -> Option<Str>, n: nat)
    requires n <= |man.chunks| && Fetched(code, cid, man, answer, n).Some?
    ensures man.k > 0 && man.m > 0 && forall ci :: 0 <= ci < n ==> |man.chunks[ci].cids| == man.k + man.m
  {
    hide ChunkResult;
    if n > 0 { FetchedShape(code, cid, man, answer, n - 1); }
  }

  /** The first `n` chunks fetched and concatenated, or nothing if one of them fails. */
  function Fetched(code: Code, cid: Str -> Str, man: Manifest, answer: nat -> nat -> Option<Str>, n: nat): Option<Str>
    requires n <= |man.chunks|
  {
    if man.k == 0 || man.m == 0 then None
    else if n == 0 then Some([])
    else
      var before := Fetched(code, cid, man, answer, n - 1);
      var cm := man.chunks[n - 1];
      if before.None? || |cm.cids| != man.k + man.m then None
      else
        var chunk := ChunkResult(code, cid, cm, man.k, answer(n - 1));
        if chunk.None? then None else Some(before.value + chunk.value)
  }

  lemma {:induction false} FetchFails(code: Code, cid: Str -> Str, man: Manifest, answer: nat -> nat -> Option<Str>,
      n: nat, all: nat)
    requires n <= all <= |man.chunks| && Fetched(code, cid, man, answer, n).None?
    ensures Fetched(code, cid, man, answer, all).None?
    decreases all - n
  {
    if n < all { FetchFails(code, cid, man, answer, n + 1, all); }
  }

  // ---------- what comes back ----------

  /** Enough shards of a chunk answer with bytes that match their address. */
  predicate Enough(cid: Str -> Str, cm: ChunkManifest, k: nat, answer: nat -> Option<Str>) {
    Present(Survivors(cid, cm.cids, answer)) >= k
  }

  /** A stored chunk comes back exactly when enough shards answer; substituted shards never alter it. */
  lemma ChunkExactly(code: Code, cid: Str -> Str, k: nat, m: nat, piece: Str, answer: nat -> Option<Str>)
    requires Erasure(code, k, m) && Injective(cid) && piece != []
    ensures |ChunkOf(code, cid, piece).cids| == k + m
    ensures var cm := ChunkOf(code, cid, piece);
            ChunkResult(code, cid, cm, k, answer) == if Enough(cid, cm, k, answer) then Some(piece) else None
  {
    assert Recovers(code, k, m, piece);
    var full, cm := code.encode(piece), ChunkOf(code, cid, piece);
    var got := Survivors(cid, cm.cids, answer);
    assert Consistent(got, full) by {
      forall i | 0 <= i < |got| && got[i].Some? ensures got[i].value == full[i] {
        assert cid(got[i].value) == cid(full[i]);
      }
    }
  }

  function Joined(pieces: seq<Str>): Str {
    if pieces == [] then [] else Joined(pieces[..|pieces| - 1]) + pieces[|pieces| - 1]
  }

  lemma {:induction false} JoinedCons(p: Str, pieces: seq<Str>)
    ensures Joined([p] + pieces) == p + Joined(pieces)
  {
    if pieces == [] {
      assert [p] + pieces == [p];
    } else {
      var n := |pieces| - 1;
      JoinedCons(p, pieces[..n]);
      assert ([p] + pieces)[..n + 1] == [p] + pieces[..n];
    }
  }

  lemma {:induction false} SlicesJoin(data: Str, size: nat)
    requires size > 0
    ensures Joined(Slices(data, size)) == data && forall p :: p in Slices(data, size) ==> p != []
  {
    if |data| > size {
      SlicesJoin(data[size..], size);
      JoinedCons(data[..size], Slices(data[size..], size));
      assert data == data[..size] + data[size..];
    }
  }

  /** Each of the first `n` chunks has enough shards. */
  ghost predicate AllEnough(cid: Str -> Str, man: Manifest, answer: nat -> nat -> Option<Str>, n: nat)
    requires n <= |man.chunks|
  {
    forall ci :: 0 <= ci < n ==> Enough(cid, man.chunks[ci], man.k, answer(ci))
  }

  lemma EnoughStep(cid: Str -> Str, man: Manifest, answer: nat -> nat -> Option<Str>, n: nat)
    requires 0 < n <= |man.chunks|
    ensures AllEnough(cid, man, answer, n) <==>
            AllEnough(cid, man, answer, n - 1) && Enough(cid, man.chunks[n - 1], man.k, answer(n - 1))
  {
    hide Enough;
  }

  lemma JoinedStep(pieces: seq<Str>, n: nat)
    requires 0 < n <= |pieces|
    ensures Joined(pieces[..n]) == Joined(pieces[..n - 1]) + pieces[n - 1]
  {
    assert pieces[..n][..n - 1] == pieces[..n - 1];
  }

  lemma {:induction false} FetchedExactly(code: Code, cid: Str -> Str, man: Manifest, pieces: seq<Str>,
      answer: nat -> nat -> Option<Str>, n: nat)
    requires man.k > 0 && man.m > 0 && Erasure(code, man.k, man.m) && Injective(cid)
    requires man.chunks == ChunksOf(code, cid, pieces) && n <= |man.chunks| == |pieces|
    requires forall p :: p in pieces ==> p != []
    ensures Fetched(code, cid, man, answer, n) == if AllEnough(cid, man, answer, n) then Some(Joined(pieces[..n])) else None
  {
    if n > 0 {
      hide ChunkResult, Enough, AllEnough, ChunkOf, ChunksOf, Erasure, Injective, Joined;
      assert pieces[n - 1] in pieces;
      FetchedExactly(code, cid, man, pieces, answer, n - 1);
      EnoughStep(cid, man, answer, n);
      JoinedStep(pieces, n);
      ChunksAt(code, cid, pieces, n - 1);
      ChunkExactly(code, cid, man.k, man.m, pieces[n - 1], answer(n - 1));
    }
  }

  lemma {:induction false} ChunksLength(code: Code, cid: Str -> Str, pieces: seq<Str>)
    ensures |ChunksOf(code, cid, pieces)| == |pieces|
  {
    if pieces != [] { ChunksLength(code, cid, pieces[1..]); }
  }

  /** Get after Put, for every length of input and whatever the store answers: exactly the bytes, if each
      chunk has at least k valid shards, and an error otherwise. */
  lemma {:induction false} GetOfPut(code: Code, cid: Str -> Str, man: Manifest, data: Str, answer: nat -> nat -> Option<Str>)
    requires man.k > 0 && man.m > 0 && man.chunkSize > 0 && Erasure(code, man.k, man.m) && Injective(cid)
    requires man.chunks == ChunksOf(code, cid, Slices(data, man.chunkSize))
    ensures Fetched(code, cid, man, answer, |man.chunks|) ==
            if AllEnough(cid, man, answer, |man.chunks|) then Some(data) else None
  {
    var pieces := Slices(data, man.chunkSize);
    SlicesJoin(data, man.chunkSize);
    ChunksLength(code, cid, pieces);
    FetchedExactly(code, cid, man, pieces, answer, |pieces|);
    assert pieces[..|pieces|] == pieces;
  }

  // ---------- the assumptions can be met ----------

  function FirstPresent(got: seq<Option<Str>>): Option<Str> {
    if got == [] then None else if got[0].Some? then got[0] else FirstPresent(got[1..])
  }

  /** The simplest erasure code: every shard is the chunk. */
  function Replication(n: nat): Code {
    Code(chunk => seq(n, _ => chunk),
         got => var f := FirstPresent(got); if f.None? then None else Some(seq(n, _ => f.value)),
         full => true,
         (full, size) => if full == [] then None else Some(full[0]))
  }

  lemma {:induction false} SomePresent(got: seq<Option<Str>>, chunk: Str)
    requires Present(got) > 0 && forall i :: 0 <= i < |got| && got[i].Some? ==> got[i].value == chunk
    ensures FirstPresent(got) == Some(chunk)
  {
    if got[0].None? { PresentTail(got); SomePresent(got[1..], chunk); }
  }

  lemma {:induction false} PresentTail(got: seq<Option<Str>>)
    requires got != []
    ensures Present(got) == Present(got[1..]) + if got[0].Some? then 1 else 0
  {
    if |got| > 1 {
      var n := |got| - 1;
      PresentTail(got[..n]);
      assert got[..n][1..] == got[1..][..n - 1];
    }
  }

  lemma ReplicationIsErasure(k: nat, m: nat)
    requires k > 0
    ensures Erasure(Replication(k + m), k, m)
  {
    var code := Replication(k + m);
    forall chunk: Str | chunk != [] ensures Recovers(code, k, m, chunk) {
      var full := code.encode(chunk);
      forall got | Consistent(got, full) && Present(got) >= k ensures code.rebuild(got) == Some(full) {
        SomePresent(got, chunk);
      }
    }
  }

  /** The slices of the input: all of the chunk size but the last, which is no longer and not empty. */
  lemma {:induction false} SliceSizes(data: Str, size: nat)
    requires size > 0
    ensures var ps := Slices(data, size);
            (ps == [] <==> data == [])
            && forall i :: 0 <= i < |ps| ==> if i < |ps| - 1 then |ps[i]| == size else 0 < |ps[i]| <= size
  {
    if |data| > size { SliceSizes(data[size..], size); }
  }

  /** The shard ids of a manifest, in order. */
  function AllCids(cms: seq<ChunkManifest>): seq<Str> {
    if cms == [] then [] else AllCids(cms[..|cms| - 1]) + cms[|cms| - 1].cids
  }

  predicate AllOf(cids: seq<Str>, len: nat) { forall i :: 0 <= i < |cids| ==> |cids[i]| == len }

  lemma {:induction false} BytesConcat(a: seq<Str>, b: seq<Str>)
    ensures Bytes(a + b) == Bytes(a) + Bytes(b)
  {
    if b == [] {
      assert a + b == a;
    } else {
      BytesConcat(a, b[..|b| - 1]);
      assert (a + b)[..|a + b| - 1] == a + b[..|b| - 1];
    }
  }

  lemma {:induction false} FlattenIsBytes(cms: seq<ChunkManifest>)
    ensures Flatten(cms) == Bytes(AllCids(cms))
  {
    if cms != [] {
      FlattenIsBytes(cms[..|cms| - 1]);
      BytesConcat(AllCids(cms[..|cms| - 1]), cms[|cms| - 1].cids);
    }
  }

  lemma {:induction false} BytesLength(a: seq<Str>, len: nat)
    requires AllOf(a, len)
    ensures |Bytes(a)| == |a| * len
  {
    if a != [] {
      BytesLength(a[..|a| - 1], len);
      assert |Bytes(a)| == |Bytes(a[..|a| - 1])| + len;
      hide Bytes;
      OneMore(|a| - 1, len);
    }
  }

  lemma OneMore(n: nat, len: nat)
    ensures n * len + len == (n + 1) * len
  {
  }

  lemma {:induction false} BytesInjective(a: seq<Str>, b: seq<Str>, len: nat)
    requires len > 0 && AllOf(a, len) && AllOf(b, len) && Bytes(a) == Bytes(b)
    ensures a == b
  {
    BytesLength(a, len);
    BytesLength(b, len);
    SameCount(|a|, |b|, len);
    if a != [] {
      var x, y, n := a[..|a| - 1], b[..|b| - 1], |Bytes(a)| - len;
      assert Bytes(x) == Bytes(a)[..n] && Bytes(y) == Bytes(b)[..n];
      assert a[|a| - 1] == Bytes(a)[n..] && b[|b| - 1] == Bytes(b)[n..];
      BytesInjective(x, y, len);
      assert a == x + [a[|a| - 1]] && b == y + [b[|b| - 1]];
    }
  }

  lemma SameCount(m: nat, n: nat, len: nat)
    requires len > 0 && m * len == n * len
    ensures m == n
  {
  }

  /** Under an injective hash with ids of one length, manifests of the same root list the same shards. */
  lemma {:induction false} RootBindsShards(cid: Str -> Str, a: seq<ChunkManifest>, b: seq<ChunkManifest>, len: nat)
    requires Injective(cid) && len > 0 && AllOf(AllCids(a), len) && AllOf(AllCids(b), len)
    ensures cid(Flatten(a)) == cid(Flatten(b)) <==> AllCids(a) == AllCids(b)
  {
    FlattenIsBytes(a);
    FlattenIsBytes(b);
    hide Flatten, AllCids, Bytes;
    if cid(Flatten(a)) == cid(Flatten(b)) { BytesInjective(AllCids(a), AllCids(b), len); }
  }
}
