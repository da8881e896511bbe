/** The signed capability envelope (daemon/auth/signedcap.go): canonical encoding and decoder. */
module Envelope {
  import opened Machine

  datatype Quota = Quota(bytes: u64, flops: u64, secs: u64)

  datatype Resource = Resource(kind: Str, node: Str, path: Str, quota: Option<Quota>)

  /** A caveat's value is any Go value; only its printed form reaches the wire. */
  datatype Val = Text(s: Str) | Other(printed: Str)

  function Printed(v: Val): Str {
    match v
    case Text(s) => s
    case Other(p) => p
  }

  datatype Caveat = Caveat(op: Str, val: Val)

  datatype Grant = Grant(id: Str, resource: Resource, rights: seq<Str>, caveats: seq<Caveat>, issuer: Str, parent: Option<Str>,
                         ancestors: seq<Str>, notBefore: i64, expiry: i64, nonce: Str)

  /** The lengths Go's array types fix. */
  predicate WellTyped(g: Grant) {
    |g.id| == 16 && |g.resource.node| == 32 && |g.issuer| == 32 && |g.nonce| == 12
    && (g.parent.Some? ==> |g.parent.value| == 16)
    && forall a :: a in g.ancestors ==> |a| == 16
  }

  // ---------- caveats on the wire ----------

  datatype Pair = Pair(op: Str, val: Str)

  function Pairs(cs: seq<Caveat>): seq<Pair> {
    seq(|cs|, i requires 0 <= i < |cs| => Pair(cs[i].op, Printed(cs[i].val)))
  }

  const EQUALS: byte := 61

  /** `caveatKey`. */
  function Key(p: Pair): Str { p.op + [EQUALS] + p.val }

  predicate Sorted(ps: seq<Pair>) { forall i, j :: 0 <= i < j < |ps| ==> !Less(Key(ps[j]), Key(ps[i])) }

  predicate NoEquals(ps: seq<Pair>) { forall p :: p in ps ==> EQUALS !in p.op }

  /** No two different caveats share a key: always so when no name contains '='. */
  predicate DistinctKeys(ps: seq<Pair>) {
    forall p, q :: p in ps && q in ps && Key(p) == Key(q) ==> p == q
  }

  /** `sort.Slice` by key: ordered, same elements; the order of equal keys is not specified. */
  predicate IsSortOf(r: seq<Pair>, ps: seq<Pair>) { Sorted(r) && multiset(r) == multiset(ps) }

  lemma KeyIsInjective(p: Pair, q: Pair)
    requires EQUALS !in p.op && EQUALS !in q.op && Key(p) == Key(q)
    ensures p == q
  {
    assert Key(p)[|p.op|] == EQUALS && Key(q)[|q.op|] == EQUALS;
    assert forall k :: 0 <= k < |p.op| ==> Key(p)[k] == p.op[k];
    assert forall k :: 0 <= k < |q.op| ==> Key(q)[k] == q.op[k];
    assert p.op == Key(p)[..|p.op|] && q.op == Key(q)[..|p.op|];
    assert p.val == Key(p)[|p.op| + 1..] && q.val == Key(q)[|p.op| + 1..];
  }

  lemma NoEqualsIsDistinct(ps: seq<Pair>)
    requires NoEquals(ps)
    ensures DistinctKeys(ps)
  {
    forall p, q | p in ps && q in ps && Key(p) == Key(q) ensures p == q { KeyIsInjective(p, q); }
  }

  lemma SamePairs(a: seq<Pair>, b: seq<Pair>)
    requires multiset(a) == multiset(b)
    ensures forall p :: p in a <==> p in b
  {
    forall p ensures p in a <==> p in b { assert p in multiset(a) <==> p in multiset(b); }
  }

  lemma LeastComesFirst(a: seq<Pair>, b: seq<Pair>)
    requires Sorted(a) && Sorted(b) && multiset(a) == multiset(b) && DistinctKeys(a) && a != [] && b != []
    ensures a[0] == b[0]
  {
    assert b[0] in multiset(b) && a[0] in multiset(a);
    assert b[0] in a && a[0] in b;
    var i :| 0 <= i < |a| && a[i] == b[0];
    var j :| 0 <= j < |b| && b[j] == a[0];
    LessTrichotomy(Key(a[0]), Key(b[0]));
    assert i == 0 || !Less(Key(a[i]), Key(a[0]));
    assert j == 0 || !Less(Key(b[j]), Key(b[0]));
  }

  lemma TailMultiset(a: seq<Pair>)
    requires a != []
    ensures multiset(a[1..]) == multiset(a) - multiset{a[0]}
  {
    assert a == [a[0]] + a[1..];
  }

  lemma {:induction false} SortIsUnique(a: seq<Pair>, b: seq<Pair>)
    requires Sorted(a) && Sorted(b) && multiset(a) == multiset(b) && DistinctKeys(a)
    ensures a == b
  {
    assert |a| == |multiset(a)| == |b|;
    if a != [] {
      LeastComesFirst(a, b);
      TailMultiset(a);
      TailMultiset(b);
      hide Less, Key;
      SortIsUnique(a[1..], b[1..]);
      assert a == [a[0]] + a[1..] && b == [b[0]] + b[1..];
    }
  }

  /** Exchanging two caveats of one key in a sort gives a sort. */
  lemma ExchangeKeepsSort(a: seq<Pair>, i: nat, j: nat)
    requires Sorted(a) && i < |a| && j < |a| && Key(a[i]) == Key(a[j])
    ensures Sorted(a[i := a[j]][j := a[i]]) && multiset(a[i := a[j]][j := a[i]]) == multiset(a)
  {
    var b := a[i := a[j]][j := a[i]];
    assert forall k :: 0 <= k < |a| ==> Key(b[k]) == Key(a[k]);
  }

  // ---------- a sort ----------

  /** `sort.Slice` as a function: the same caveats in the same order always come out the same way. */
  type SortFn = seq<Pair> -> seq<Pair>

  ghost predicate IsSort(sort: SortFn) { forall ps :: IsSortOf(sort(ps), ps) }

  /** Where an insertion puts `x`: after everything it is not below. */
  function Place(r: seq<Pair>, x: Pair): (at: nat)
    ensures at <= |r|
  {
    if r == [] || Less(Key(x), Key(r[0])) then 0 else 1 + Place(r[1..], x)
  }

  function Insert(r: seq<Pair>, x: Pair): seq<Pair> { r[..Place(r, x)] + [x] + r[Place(r, x)..] }

  function InsertionSort(ps: seq<Pair>): seq<Pair> {
    if ps == [] then [] else Insert(InsertionSort(ps[..|ps| - 1]), ps[|ps| - 1])
  }

  lemma {:induction false} PlaceSplits(r: seq<Pair>, x: Pair)
    ensures forall i :: 0 <= i < Place(r, x) ==> !Less(Key(x), Key(r[i]))
    ensures Place(r, x) < |r| ==> Less(Key(x), Key(r[Place(r, x)]))
  {
    hide Less, Key;
    if r != [] && !Less(Key(x), Key(r[0])) {
      PlaceSplits(r[1..], x);
      assert forall i :: 0 < i < |r| ==> r[i] == r[1..][i - 1];
    }
  }

  lemma InsertIsSort(s: seq<Pair>, init: seq<Pair>, x: Pair)
    requires IsSortOf(s, init)
    ensures IsSortOf(Insert(s, x), init + [x])
  {
    hide Less, Key, Sorted, Place;
    PlaceSplits(s, x);
    InsertSorted(s, x, Place(s, x));
    InsertedMultiset(s, x, Place(s, x));
    assert multiset(init + [x]) == multiset(init) + multiset{x};
  }

  lemma InsertedMultiset(s: seq<Pair>, x: Pair, at: nat)
    requires at <= |s|
    ensures multiset(s[..at] + [x] + s[at..]) == multiset(s) + multiset{x}
  {
    assert s == s[..at] + s[at..];
  }

  lemma {:induction false} InsertionSnoc(init: seq<Pair>, x: Pair)
    ensures InsertionSort(init + [x]) == Insert(InsertionSort(init), x)
  {
    hide Insert;
    assert (init + [x])[..|init|] == init;
  }

  lemma NothingToSort()
    ensures InsertionSort([]) == [] && IsSortOf([], [])
  {
  }

  lemma {:induction false} InsertionSorts(ps: seq<Pair>)
    ensures IsSortOf(InsertionSort(ps), ps)
  {
    hide IsSortOf, InsertionSort;
    if ps == [] {
      NothingToSort();
    } else {
      var x, init := ps[|ps| - 1], ps[..|ps| - 1];
      assert init + [x] == ps;
      InsertionSorts(init);
      InsertionSnoc(init, x);
      InsertIsSort(InsertionSort(init), init, x);
    }
  }

  lemma {:induction false} PlacedLast(r: seq<Pair>, x: Pair)
    requires forall i :: 0 <= i < |r| ==> !Less(Key(x), Key(r[i]))
    ensures Place(r, x) == |r|
  {
    hide Less, Key;
    if r != [] { PlacedLast(r[1..], x); }
  }

  /** Insertion sort leaves sorted caveats as they are, also those that share a key. */
  lemma {:induction false} SortedStays(ps: seq<Pair>)
    requires Sorted(ps)
    ensures InsertionSort(ps) == ps
  {
    hide Less, Key, InsertionSort;
    if ps == [] {
      NothingToSort();
    } else {
      var x, init := ps[|ps| - 1], ps[..|ps| - 1];
      assert init + [x] == ps;
      SortedStays(init);
      PlacedLast(init, x);
      hide Place, Sorted;
      InsertionSnoc(init, x);
    }
  }

  /** There is such a function. */
  lemma SomeSort()
    ensures IsSort(InsertionSort)
  {
    forall ps ensures IsSortOf(InsertionSort(ps), ps) { InsertionSorts(ps); }
  }

  /** The sort of the caveats is one sequence if and only if no two different ones share a key. */
  lemma SortUniqueExactly(ps: seq<Pair>)
    ensures (forall a, b :: IsSortOf(a, ps) && IsSortOf(b, ps) ==> a == b) <==> DistinctKeys(ps)
  {
    hide Less, Key;
    if DistinctKeys(ps) {
      forall a, b | IsSortOf(a, ps) && IsSortOf(b, ps) ensures a == b {
        SamePairs(a, ps);
        SortIsUnique(a, b);
      }
    } else {
      var p, q :| p in ps && q in ps && Key(p) == Key(q) && p != q;
      var a, b := TwoSorts(ps, p, q);
    }
  }

  lemma TwoSorts(ps: seq<Pair>, p: Pair, q: Pair) returns (a: seq<Pair>, b: seq<Pair>)
    requires p in ps && q in ps && Key(p) == Key(q) && p != q
    ensures IsSortOf(a, ps) && IsSortOf(b, ps) && a != b
  {
    hide Less, Key;
    a := InsertionSort(ps);
    InsertionSorts(ps);
    SamePairs(a, ps);
    var i :| 0 <= i < |a| && a[i] == p;
    var j :| 0 <= j < |a| && a[j] == q;
    ExchangeKeepsSort(a, i, j);
    b := a[i := a[j]][j := a[i]];
    assert b[j] == p;
  }

  /** Insertion sort, as `sort.Slice` runs on short slices. */
  method SortPairs(ps: seq<Pair>) returns (r: seq<Pair>)
    ensures r == InsertionSort(ps) && IsSortOf(r, ps)
  {
    InsertionSorts(ps);
    hide IsSortOf, Less, Key;
    r := [];
    for n := 0 to |ps|
      invariant r == InsertionSort(ps[..n])
    {
      var at := 0;
      while at < |r| && !Less(Key(ps[n]), Key(r[at]))
        invariant 0 <= at <= |r| && Place(r, ps[n]) == at + Place(r[at..], ps[n])
      {
        assert r[at..][1..] == r[at + 1..];
        at := at + 1;
      }
      assert ps[..n + 1][..n] == ps[..n];
      r := r[..at] + [ps[n]] + r[at..];
    }
    assert ps[..|ps|] == ps;
  }

  lemma InsertSorted(r: seq<Pair>, x: Pair, at: nat)
    requires Sorted(r) && at <= |r|
    requires forall i :: 0 <= i < at ==> !Less(Key(x), Key(r[i]))
    requires at < |r| ==> Less(Key(x), Key(r[at]))
    ensures Sorted(r[..at] + [x] + r[at..])
  {
    var s := r[..at] + [x] + r[at..];
    forall i, j | 0 <= i < j < |s| ensures !Less(Key(s[j]), Key(s[i])) {
      if i == at {
        assert s[j] == r[j - 1];
        LessTrichotomy(Key(x), Key(r[at]));
        if Less(Key(s[j]), Key(x)) {
          LessTransitive(Key(s[j]), Key(x), Key(r[at]));
          LessTrichotomy(Key(r[at]), Key(r[j - 1]));
        }
      }
    }
  }

  // ---------- the encoding ----------

  const VERSION: byte := 2
  const SIGNATURE_SIZE := 64

  /** A length-prefixed field in front of `rest`; the length is truncated to 32 bits. */
  function Field(v: Str, rest: Str): Str { Big(|v|, 4) + (v + rest) }

  function Fields(vs: seq<Str>, rest: Str): Str {
    if vs == [] then rest else Field(vs[0], Fields(vs[1..], rest))
  }

  function Flat(ps: seq<Pair>): seq<Str> {
    if ps == [] then [] else [ps[0].op, ps[0].val] + Flat(ps[1..])
  }

  function QuotaBytes(q: Option<Quota>, rest: Str): Str {
    match q
    case None => [0] + rest
    case Some(q) => [1] + (Big(q.bytes, 8) + (Big(q.flops, 8) + (Big(q.secs, 8) + rest)))
  }

  function ParentBytes(p: Option<Str>, rest: Str): Str {
    match p
    case None => [0] + rest
    case Some(id) => [1] + Field(id, rest)
  }

  function HeadBytes(g: Grant, rest: Str): Str {
    [VERSION] + Field(g.id, Field(g.resource.kind,
          Field(g.resource.node, Field(g.resource.path, QuotaBytes(g.resource.quota, rest)))))
  }

  function ListBytes(rights: seq<Str>, cavs: seq<Pair>, rest: Str): Str {
    Big(|rights|, 4) + Fields(rights, Big(|cavs|, 4) + Fields(Flat(cavs), rest))
  }

  function FootBytes(g: Grant): Str {
    Field(g.issuer, ParentBytes(g.parent,
      Big(ToU64(g.notBefore), 8) + (Big(ToU64(g.expiry), 8) + Field(g.nonce, Big(|g.ancestors|, 4) + Fields(g.ancestors, [])))))
  }

  function Encode(g: Grant, cavs: seq<Pair>): Str { HeadBytes(g, ListBytes(g.rights, cavs, FootBytes(g))) }

  /** `b` is a canonical encoding of `g`. */
  ghost predicate IsCanonical(b: Str, g: Grant) {
    exists cavs :: IsSortOf(cavs, Pairs(g.caveats)) && b == Encode(g, cavs)
  }

  // ---------- the decoder, on the unread input ----------

  datatype In = In(rest: Str, err: bool)

  datatype Got<T> = Got(value: T, next: In)

  /** `need(n)` and the slice it allows: too little input sets the error and reads nothing. */
  function Take(i: In, n: nat): Got<Str> {
    if i.err || n > |i.rest| then Got([], In(i.rest, true)) else Got(i.rest[..n], In(i.rest[n..], false))
  }

  function TakeU8(i: In): Got<byte> {
    var t := Take(i, 1);
    Got(if t.next.err then 0 else t.value[0], t.next)
  }

  function TakeNum(i: In, width: nat): Got<nat> {
    var t := Take(i, width);
    Got(if t.next.err then 0 else Unbig(t.value), t.next)
  }

  function TakeField(i: In): Got<Str> {
    var n := TakeNum(i, 4);
    Take(n.next, n.value)
  }

  function TakeU64(i: In): Got<u64> {
    var t := TakeNum(i, 8);
    Widths();
    assert t.next.err || t.value < Pow256(|Take(i, 8).value|);
    Got(t.value, t.next)
  }

  /** A counted loop of fields: it stops at the first error, after appending what that read returned. */
  function TakeFields(i: In, n: nat): Got<seq<Str>>
    decreases n
  {
    if n == 0 || i.err then Got([], i)
    else
      var f := TakeField(i);
      var more := TakeFields(f.next, n - 1);
      Got([f.value] + more.value, more.next)
  }

  function TakePairs(i: In, n: nat): Got<seq<Pair>>
    decreases n
  {
    if n == 0 || i.err then Got([], i)
    else
      var op := TakeField(i);
      var val := TakeField(op.next);
      var more := TakePairs(val.next, n - 1);
      Got([Pair(op.value, val.value)] + more.value, more.next)
  }

  function TakeQuota(i: In): Got<Option<Quota>> {
    var flag := TakeU8(i);
    if flag.value != 1 then Got(None, flag.next)
    else
      var b := TakeU64(flag.next);
      var f := TakeU64(b.next);
      var s := TakeU64(f.next);
      Got(Some(Quota(b.value, f.value, s.value)), s.next)
  }

  /** `copyFixed` into a zeroed array. */
  function Fixed(v: Str, n: nat): Str { if |v| == n then v else seq(n, _ => 0) }

  function TakeParent(i: In): Got<Option<Str>> {
    var flag := TakeU8(i);
    if flag.value != 1 then Got(None, flag.next)
    else
      var id := TakeField(flag.next);
      Got(Some(Fixed(id.value, 16)), id.next)
  }

  datatype Head = Head(id: Str, resource: Resource)

  function TakeHead(i: In): Got<Head> {
    var id := TakeField(i);
    var kind := TakeField(id.next);
    var node := TakeField(kind.next);
    var path := TakeField(node.next);
    var quota := TakeQuota(path.next);
    Got(Head(Fixed(id.value, 16), Resource(kind.value, Fixed(node.value, 32), path.value, quota.value)), quota.next)
  }

  datatype Lists = Lists(rights: seq<Str>, pairs: seq<Pair>)

  function TakeLists(i: In): Got<Lists> {
    var nr := TakeNum(i, 4);
    var rights := TakeFields(nr.next, nr.value);
    var nc := TakeNum(rights.next, 4);
    var pairs := TakePairs(nc.next, nc.value);
    Got(Lists(rights.value, pairs.value), pairs.next)
  }

  datatype Foot = Foot(issuer: Str, parent: Option<Str>, notBefore: i64, expiry: i64, nonce: Str, ancestors: seq<Str>)

  function Ids(vs: seq<Str>): seq<Str> { seq(|vs|, i requires 0 <= i < |vs| => Fixed(vs[i], 16)) }

  function TakeFoot(i: In): Got<Foot> {
    var issuer := TakeField(i);
    var parent := TakeParent(issuer.next);
    var nbf := TakeU64(parent.next);
    var exp := TakeU64(nbf.next);
    var nonce := TakeField(exp.next);
    var na := TakeNum(nonce.next, 4);
    var anc := TakeFields(na.next, na.value);
    Got(Foot(Fixed(issuer.value, 32), parent.value, ToI64(nbf.value), ToI64(exp.value), Fixed(nonce.value, 12),
          Ids(anc.value)), anc.next)
  }

  function TextCaveats(ps: seq<Pair>): seq<Caveat> {
    seq(|ps|, i requires 0 <= i < |ps| => Caveat(ps[i].op, Text(ps[i].val)))
  }

  function Assemble(h: Head, l: Lists, f: Foot): Grant {
    Grant(h.id, h.resource, l.rights, TextCaveats(l.pairs), f.issuer, f.parent, f.ancestors, f.notBefore, f.expiry, f.nonce)
  }

  /** `decodeCanonical`. */
  function Decode(b: Str): Option<Grant> {
    var version := TakeU8(In(b, false));
    if version.value != VERSION then None
    else
      var h := TakeHead(version.next);
      var l := TakeLists(h.next);
      var f := TakeFoot(l.next);
      if f.next.err then None else Some(Assemble(h.value, l.value, f.value))
  }
}
