/** Round trip, injectivity and uniqueness of the canonical encoding of a capability. */
module Canonical {
  import opened Machine
  import opened Envelope

  predicate Short(vs: seq<Str>) { |vs| < TWO32 && forall v :: v in vs ==> |v| < TWO32 }

  predicate ShortPairs(ps: seq<Pair>) { |ps| < TWO32 && forall p :: p in ps ==> |p.op| < TWO32 && |p.val| < TWO32 }

  /** What the 32-bit length prefixes can carry. */
  predicate Encodable(g: Grant) {
    WellTyped(g) && |g.resource.kind| < TWO32 && |g.resource.path| < TWO32
    && Short(g.rights) && Short(g.ancestors) && ShortPairs(Pairs(g.caveats))
  }

  lemma {:induction false} TakeNumOf(n: nat, width: nat, rest: Str)
    requires n < Pow256(width)
    ensures TakeNum(In(Big(n, width) + rest, false), width) == Got(n, In(rest, false))
  {
    UnbigBig(n, width);
    assert (Big(n, width) + rest)[..width] == Big(n, width);
  }

  lemma {:induction false} TakeU64Of(n: u64, rest: Str)
    ensures TakeU64(In(Big(n, 8) + rest, false)) == Got(n, In(rest, false))
  {
    Widths();
    TakeNumOf(n, 8, rest);
  }

  lemma TakeFieldOf(v: Str, rest: Str)
    requires |v| < TWO32
    ensures TakeField(In(Field(v, rest), false)) == Got(v, In(rest, false))
  {
    Widths();
    TakeNumOf(|v|, 4, v + rest);
    assert (v + rest)[..|v|] == v && (v + rest)[|v|..] == rest;
  }

  lemma TakeU8Of(x: byte, rest: Str)
    ensures TakeU8(In([x] + rest, false)) == Got(x, In(rest, false))
  {
    assert ([x] + rest)[1..] == rest;
  }

  lemma {:induction false} TakeFieldsOf(vs: seq<Str>, rest: Str)
    requires forall v :: v in vs ==> |v| < TWO32
    ensures TakeFields(In(Fields(vs, rest), false), |vs|) == Got(vs, In(rest, false))
  {
    if vs != [] {
      TakeFieldOf(vs[0], Fields(vs[1..], rest));
      TakeFieldsOf(vs[1..], rest);
      assert vs == [vs[0]] + vs[1..];
      hide TakeField, Field;
    }
  }

  lemma {:induction false} TakePairsOf(ps: seq<Pair>, rest: Str)
    requires forall p :: p in ps ==> |p.op| < TWO32 && |p.val| < TWO32
    ensures TakePairs(In(Fields(Flat(ps), rest), false), |ps|) == Got(ps, In(rest, false))
  {
    if ps != [] {
      var tail := Fields(Flat(ps[1..]), rest);
      assert Fields(Flat(ps), rest) == Field(ps[0].op, Field(ps[0].val, tail)) by { FlatStep(ps, rest); }
      TakeFieldOf(ps[0].op, Field(ps[0].val, tail));
      TakeFieldOf(ps[0].val, tail);
      TakePairsOf(ps[1..], rest);
      assert ps == [ps[0]] + ps[1..];
      hide TakeField, Field, Fields;
    }
  }

  lemma {:induction false} FlatStep(ps: seq<Pair>, rest: Str)
    requires ps != []
    ensures Fields(Flat(ps), rest) == Field(ps[0].op, Field(ps[0].val, Fields(Flat(ps[1..]), rest)))
  {
    var f := Flat(ps);
    assert f[1..] == [ps[0].val] + Flat(ps[1..]) && f[1..][1..] == Flat(ps[1..]);
    hide Field;
  }

  lemma TakeQuotaOf(q: Option<Quota>, rest: Str)
    ensures TakeQuota(In(QuotaBytes(q, rest), false)) == Got(q, In(rest, false))
  {
    hide TakeU8, TakeU64, Big;
    match q
    case None => TakeU8Of(0, rest);
    case Some(q) =>
      var r3 := Big(q.secs, 8) + rest;
      var r2 := Big(q.flops, 8) + r3;
      TakeU8Of(1, Big(q.bytes, 8) + r2);
      TakeU64Of(q.bytes, r2);
      TakeU64Of(q.flops, r3);
      TakeU64Of(q.secs, rest);
  }

  lemma TakeParentOf(p: Option<Str>, rest: Str)
    requires p.Some? ==> |p.value| == 16
    ensures TakeParent(In(ParentBytes(p, rest), false)) == Got(p, In(rest, false))
  {
    hide TakeU8, TakeField, Field;
    match p
    case None => TakeU8Of(0, rest);
    case Some(id) =>
      TakeU8Of(1, Field(id, rest));
      TakeFieldOf(id, rest);
  }

  lemma TakeHeadOf(g: Grant, rest: Str)
    requires Encodable(g)
    ensures var version := TakeU8(In(HeadBytes(g, rest), false));
            version.value == VERSION && TakeHead(version.next) == Got(Head(g.id, g.resource), In(rest, false))
  {
    hide TakeU8, TakeField, TakeQuota, Field, QuotaBytes;
    var r4 := QuotaBytes(g.resource.quota, rest);
    var r3 := Field(g.resource.path, r4);
    var r2 := Field(g.resource.node, r3);
    var r1 := Field(g.resource.kind, r2);
    TakeU8Of(VERSION, Field(g.id, r1));
    TakeFieldOf(g.id, r1);
    TakeFieldOf(g.resource.kind, r2);
    TakeFieldOf(g.resource.node, r3);
    TakeFieldOf(g.resource.path, r4);
    TakeQuotaOf(g.resource.quota, rest);
  }

  lemma TakeListsOf(rights: seq<Str>, cavs: seq<Pair>, rest: Str)
    requires Short(rights) && ShortPairs(cavs)
    ensures TakeLists(In(ListBytes(rights, cavs, rest), false)) == Got(Lists(rights, cavs), In(rest, false))
  {
    Widths();
    hide TakeNum, TakeFields, TakePairs, Fields, Big;
    var r2 := Fields(Flat(cavs), rest);
    var r1 := Big(|cavs|, 4) + r2;
    TakeNumOf(|rights|, 4, Fields(rights, r1));
    TakeFieldsOf(rights, r1);
    TakeNumOf(|cavs|, 4, r2);
    TakePairsOf(cavs, rest);
  }

  lemma TakeFootOf(g: Grant)
    requires Encodable(g)
    ensures TakeFoot(In(FootBytes(g), false)) ==
            Got(Foot(g.issuer, g.parent, g.notBefore, g.expiry, g.nonce, g.ancestors), In([], false))
  {
    assert |g.ancestors| < Pow256(4) by { Widths(); }
    assert Ids(g.ancestors) == g.ancestors;
    assert ToI64(ToU64(g.notBefore)) == g.notBefore && ToI64(ToU64(g.expiry)) == g.expiry;
    assert Fixed(g.issuer, 32) == g.issuer && Fixed(g.nonce, 12) == g.nonce;
    hide TakeNum, TakeU64, TakeField, TakeFields, TakeParent, Field, Fields, ParentBytes, Big, Ids, ToU64, ToI64, Fixed, Pow256;
    var r5 := Fields(g.ancestors, []);
    var r4 := Big(|g.ancestors|, 4) + r5;
    var r3 := Field(g.nonce, r4);
    var r2 := Big(ToU64(g.expiry), 8) + r3;
    var r1 := Big(ToU64(g.notBefore), 8) + r2;
    TakeFieldOf(g.issuer, ParentBytes(g.parent, r1));
    TakeParentOf(g.parent, r1);
    TakeU64Of(ToU64(g.notBefore), r2);
    TakeU64Of(ToU64(g.expiry), r3);
    TakeFieldOf(g.nonce, r4);
    TakeNumOf(|g.ancestors|, 4, r5);
    TakeFieldsOf(g.ancestors, []);
  }

  /** Decoding an encoding gives back the grant, with the caveats in the encoded order and as text. */
  lemma DecodeOfEncode(g: Grant, cavs: seq<Pair>)
    requires Encodable(g) && ShortPairs(cavs)
    ensures Decode(Encode(g, cavs)) == Some(g.(caveats := TextCaveats(cavs)))
  {
    hide TakeU8, TakeHead, TakeLists, TakeFoot, HeadBytes, ListBytes, FootBytes, TextCaveats;
    TakeHeadOf(g, ListBytes(g.rights, cavs, FootBytes(g)));
    TakeListsOf(g.rights, cavs, FootBytes(g));
    TakeFootOf(g);
  }

  /** Equal up to the order of caveats and the printed form of their values. */
  ghost predicate SameGrant(g: Grant, h: Grant) {
    g.(caveats := []) == h.(caveats := []) && multiset(Pairs(g.caveats)) == multiset(Pairs(h.caveats))
  }

  lemma PairsOfText(ps: seq<Pair>)
    ensures Pairs(TextCaveats(ps)) == ps
  {
  }

  lemma SortIsShort(cavs: seq<Pair>, ps: seq<Pair>)
    requires multiset(cavs) == multiset(ps) && ShortPairs(ps)
    ensures ShortPairs(cavs)
  {
    assert |cavs| == |multiset(cavs)| == |ps|;
    forall p | p in cavs ensures p in ps { assert p in multiset(cavs); }
  }

  /** Every encodable grant comes back from any of its canonical encodings. */
  lemma RoundTrip(b: Str, g: Grant)
    requires Encodable(g) && IsCanonical(b, g)
    ensures Decode(b).Some? && SameGrant(Decode(b).value, g) && IsCanonical(b, Decode(b).value)
  {
    var cavs :| IsSortOf(cavs, Pairs(g.caveats)) && b == Encode(g, cavs);
    SortIsShort(cavs, Pairs(g.caveats));
    DecodeOfEncode(g, cavs);
    PairsOfText(cavs);
    hide Decode;
    var g' := g.(caveats := TextCaveats(cavs));
    assert Encode(g', cavs) == Encode(g, cavs);
    assert IsSortOf(cavs, Pairs(g'.caveats)) && b == Encode(g', cavs);
  }

  /** The encoding is injective: bytes determine the grant. */
  lemma EncodingIsInjective(b: Str, g: Grant, h: Grant)
    requires Encodable(g) && Encodable(h) && IsCanonical(b, g) && IsCanonical(b, h)
    ensures SameGrant(g, h)
  {
    hide Decode, IsCanonical, Encodable;
    RoundTrip(b, g);
    RoundTrip(b, h);
  }

  lemma CanonicalIsUnique(a: Str, b: Str, g: Grant)
    requires IsCanonical(a, g) && IsCanonical(b, g) && DistinctKeys(Pairs(g.caveats))
    ensures a == b
  {
    hide Encode, DistinctKeys;
    SortUniqueExactly(Pairs(g.caveats));
  }

  /** A grant has one canonical encoding if and only if no two different caveats share a key. */
  lemma CanonicalUniqueExactly(g: Grant)
    requires Encodable(g)
    ensures (forall a, b :: IsCanonical(a, g) && IsCanonical(b, g) ==> a == b) <==> DistinctKeys(Pairs(g.caveats))
  {
    hide Encode;
    var ps := Pairs(g.caveats);
    if DistinctKeys(ps) {
      forall a, b | IsCanonical(a, g) && IsCanonical(b, g) ensures a == b { CanonicalIsUnique(a, b, g); }
    } else {
      var p, q :| p in ps && q in ps && Key(p) == Key(q) && p != q;
      var a, b := TwoSorts(ps, p, q);
      hide Decode, IsSortOf;
      assert Encode(g, a) != Encode(g, b) by { DifferentSorts(g, a, b); }
      assert IsCanonical(Encode(g, a), g) && IsCanonical(Encode(g, b), g);
    }
  }

  lemma DifferentSorts(g: Grant, a: seq<Pair>, b: seq<Pair>)
    requires Encodable(g) && IsSortOf(a, Pairs(g.caveats)) && IsSortOf(b, Pairs(g.caveats)) && a != b
    ensures Encode(g, a) != Encode(g, b)
  {
    hide Encode, Decode;
    SortIsShort(a, Pairs(g.caveats));
    SortIsShort(b, Pairs(g.caveats));
    DecodeOfEncode(g, a);
    DecodeOfEncode(g, b);
    PairsOfText(a);
    PairsOfText(b);
  }

  /** The encoding keeps a caveat's printed value, whatever the type of the value. */
  lemma PrintedIsKept(b: Str, g: Grant, h: Grant, op: Str, x: Val, y: Str)
    requires Encodable(g) && Encodable(h) && IsCanonical(b, g) && IsCanonical(b, h)
    requires g.caveats == [Caveat(op, x)] && h.caveats == [Caveat(op, Text(y))]
    ensures match x case Text(s) => s == y case Other(p) => p == y
  {
    hide IsCanonical, Encodable;
    EncodingIsInjective(b, g, h);
    var p, q := Pairs(g.caveats), Pairs(h.caveats);
    assert p == [p[0]] && q == [q[0]];
    assert p[0] in multiset(q);
  }

  /** A fixed-size field of the wrong length reads as zeros. */
  lemma FixedExactly(v: Str, n: nat)
    ensures |Fixed(v, n)| == n
    ensures |v| == n ==> Fixed(v, n) == v
    ensures |v| != n ==> forall i :: 0 <= i < n ==> Fixed(v, n)[i] == 0
  {
  }

  // ---------- what decodes is encodable ----------

  lemma TakenField(i: In)
    ensures |TakeField(i).value| < TWO32
  {
    Widths();
    var t := Take(i, 4);
    assert !t.next.err ==> |t.value| == 4 && Unbig(t.value) < Pow256(4);
    hide Unbig, Pow256;
  }

  lemma {:induction false} TakenFields(i: In, n: nat)
    ensures |TakeFields(i, n).value| <= n && forall v :: v in TakeFields(i, n).value ==> |v| < TWO32
    decreases n
  {
    hide TakeField;
    if n != 0 && !i.err {
      TakenField(i);
      TakenFields(TakeField(i).next, n - 1);
    }
  }

  lemma {:induction false} TakenPairs(i: In, n: nat)
    ensures |TakePairs(i, n).value| <= n && forall p :: p in TakePairs(i, n).value ==> |p.op| < TWO32 && |p.val| < TWO32
    decreases n
  {
    hide TakeField;
    if n != 0 && !i.err {
      TakenField(i);
      TakenField(TakeField(i).next);
      TakenPairs(TakeField(TakeField(i).next).next, n - 1);
    }
  }

  lemma TakenCount(i: In)
    ensures TakeNum(i, 4).value < TWO32
  {
    Widths();
    var t := Take(i, 4);
    assert !t.next.err ==> |t.value| == 4 && Unbig(t.value) < Pow256(4);
    hide Unbig, Pow256;
  }

  lemma TakenLists(i: In)
    ensures Short(TakeLists(i).value.rights) && ShortPairs(TakeLists(i).value.pairs)
  {
    hide TakeNum, TakeFields, TakePairs;
    var nr := TakeNum(i, 4);
    var rights := TakeFields(nr.next, nr.value);
    var nc := TakeNum(rights.next, 4);
    TakenCount(i);
    TakenFields(nr.next, nr.value);
    TakenCount(rights.next);
    TakenPairs(nc.next, nc.value);
  }

  lemma TakenHead(i: In)
    ensures var h := TakeHead(i).value;
            |h.id| == 16 && |h.resource.node| == 32 && |h.resource.kind| < TWO32 && |h.resource.path| < TWO32
  {
    hide TakeField, TakeQuota;
    var kind := TakeField(TakeField(i).next);
    TakenField(TakeField(i).next);
    TakenField(TakeField(kind.next).next);
  }

  lemma TakenFoot(i: In)
    ensures var f := TakeFoot(i).value;
            |f.issuer| == 32 && |f.nonce| == 12 && (f.parent.Some? ==> |f.parent.value| == 16)
            && |f.ancestors| < TWO32 && forall a :: a in f.ancestors ==> |a| == 16
  {
    hide TakeField, TakeFields, TakeU64, TakeNum, TakeU8;
    var nonce := TakeField(TakeU64(TakeU64(TakeParent(TakeField(i).next).next).next).next);
    var na := TakeNum(nonce.next, 4);
    TakenCount(nonce.next);
    TakenFields(na.next, na.value);
  }

  lemma DecodedIsEncodable(b: Str)
    requires Decode(b).Some?
    ensures Encodable(Decode(b).value)
  {
    hide TakeU8, TakeHead, TakeLists, TakeFoot;
    var h := TakeHead(TakeU8(In(b, false)).next);
    var l := TakeLists(h.next);
    TakenHead(TakeU8(In(b, false)).next);
    TakenLists(h.next);
    TakenFoot(l.next);
    PairsOfText(l.value.pairs);
  }

  // ---------- the encoding under a given sort ----------

  function CanonicalOf(sort: SortFn, g: Grant): Str { Encode(g, sort(Pairs(g.caveats))) }

  /** `decodeCanonical` followed by the re-encoding check. */
  function Reads(sort: SortFn, b: Str): Option<Grant> {
    if Decode(b).Some? && CanonicalOf(sort, Decode(b).value) == b then Decode(b) else None
  }

  /** Bytes are read as a grant if and only if they are its encoding with the caveats where the sort leaves
      them. */
  lemma ReadsExactly(sort: SortFn, b: Str, g: Grant)
    requires IsSort(sort)
    ensures Reads(sort, b) == Some(g)
       <==> Decode(b) == Some(g) && IsCanonical(b, g) && sort(Pairs(g.caveats)) == Pairs(g.caveats)
  {
    if Decode(b) == Some(g) {
      DecodedIsEncodable(b);
      hide Decode, Encode;
      if IsCanonical(b, g) {
        var cavs :| IsSortOf(cavs, Pairs(g.caveats)) && b == Encode(g, cavs);
        WireOrder(b, g, cavs);
        if sort(cavs) != cavs { DifferentSorts(g, sort(cavs), cavs); }
      }
      if CanonicalOf(sort, g) == b {
        assert IsSortOf(sort(Pairs(g.caveats)), Pairs(g.caveats));
        WireOrder(b, g, sort(Pairs(g.caveats)));
      }
    }
  }

  /** A grant decoded from an encoding has its caveats in the encoded order. */
  lemma WireOrder(b: Str, g: Grant, cavs: seq<Pair>)
    requires Decode(b) == Some(g) && Encodable(g) && IsSortOf(cavs, Pairs(g.caveats)) && b == Encode(g, cavs)
    ensures Pairs(g.caveats) == cavs
  {
    hide Decode, Encode;
    SortIsShort(cavs, Pairs(g.caveats));
    DecodeOfEncode(g, cavs);
    PairsOfText(cavs);
  }

  /** What a grant's canonical encoding is read as. */
  function AsRead(sort: SortFn, g: Grant): Grant { g.(caveats := TextCaveats(sort(Pairs(g.caveats)))) }

  /** An encodable grant's canonical encoding is read back, as the same grant up to caveat order and printed
      values, if and only if sorting the sorted caveats again changes nothing. */
  lemma ReadBackExactly(sort: SortFn, g: Grant)
    requires IsSort(sort) && Encodable(g)
    ensures var ps := sort(Pairs(g.caveats));
            Reads(sort, CanonicalOf(sort, g)) == if sort(ps) == ps then Some(AsRead(sort, g)) else None
    ensures SameGrant(AsRead(sort, g), g)
  {
    var ps, b := sort(Pairs(g.caveats)), CanonicalOf(sort, g);
    assert IsSortOf(ps, Pairs(g.caveats)) && IsSortOf(sort(ps), ps);
    SortIsShort(ps, Pairs(g.caveats));
    SortIsShort(sort(ps), ps);
    PairsOfText(ps);
    hide Decode;
    DecodeOfEncode(g, ps);
    DecodeOfEncode(g, sort(ps));
    PairsOfText(sort(ps));
    assert Encode(AsRead(sort, g), sort(ps)) == Encode(g, sort(ps));
  }

  /** Which is so when no two different caveats share a key. */
  lemma DistinctSettles(sort: SortFn, ps: seq<Pair>)
    requires IsSort(sort) && DistinctKeys(ps)
    ensures sort(sort(ps)) == sort(ps)
  {
    assert IsSortOf(sort(ps), ps) && IsSortOf(sort(sort(ps)), sort(ps));
    hide Key, Less;
    SamePairs(sort(ps), ps);
    SamePairs(sort(sort(ps)), sort(ps));
    SortIsUnique(sort(sort(ps)), sort(ps));
  }
}
