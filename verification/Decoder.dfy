/** The decoder object and the envelope operations built on it (daemon/auth/signedcap.go). */
module Decoder {
  import opened Machine
  import opened Envelope
  import opened Canonical

  class Cursor {
    const b: Str
    var off: nat
    var err: bool

    ghost predicate Valid()
      reads this
    {
      off <= |b|
    }

    /** The unread input. */
    ghost function Left(): In
      requires Valid()
      reads this
    {
      In(b[off..], err)
    }

    constructor (bytes: Str)
      ensures Valid() && b == bytes && off == 0 && !err && Left() == In(bytes, false)
    {
      b, off, err := bytes, 0, false;
    }

    /** `need` and the read it guards. */
    method Read(n: nat) returns (v: Str)
      requires Valid()
      modifies this
      ensures Valid() && Got(v, Left()) == Take(old(Left()), n)
      ensures off == old(off) + if err then 0 else n
      ensures old(err) ==> err
    {
      if err || off + n > |b| {
        err := true;
        return [];
      }
      v := b[off..off + n];
      assert b[off..][..n] == v && b[off..][n..] == b[off + n..];
      off := off + n;
    }

    method U8() returns (v: byte)
      requires Valid()
      modifies this
      ensures Valid() && Got(v, Left()) == TakeU8(old(Left()))
      ensures off >= old(off) && (old(err) ==> err)
    {
      var s := Read(1);
      v := if err then 0 else s[0];
    }

    method Num(width: nat) returns (v: nat)
      requires Valid()
      modifies this
      ensures Valid() && Got(v, Left()) == TakeNum(old(Left()), width)
      ensures off >= old(off) && (!err ==> off == old(off) + width) && (old(err) ==> err)
    {
      var s := Read(width);
      v := if err then 0 else Unbig(s);
    }

    method U64() returns (v: u64)
      requires Valid()
      modifies this
      ensures Valid() && Got(v, Left()) == TakeU64(old(Left()))
      ensures off >= old(off) && (old(err) ==> err)
    {
      Widths();
      var n := Num(8);
      v := n;
    }

    method Bytes() returns (v: Str)
      requires Valid()
      modifies this
      ensures Valid() && Got(v, Left()) == TakeField(old(Left()))
      ensures off >= old(off) && (!err ==> off >= old(off) + 4) && (old(err) ==> err)
    {
      var n := Num(4);
      v := Read(n);
    }

    method QuotaField() returns (q: Option<Quota>)
      requires Valid()
      modifies this
      ensures Valid() && Got(q, Left()) == TakeQuota(old(Left()))
      ensures var i := old(Left()); q.Some? <==> !i.err && i.rest != [] && i.rest[0] == 1
      ensures off >= old(off) && (old(err) ==> err)
    {
      FirstByte(Left());
      hide TakeU8, TakeU64;
      var flag := U8();
      if flag != 1 { return None; }
      var bytes := U64();
      var flops := U64();
      var secs := U64();
      q := Some(Quota(bytes, flops, secs));
    }

    method ParentField() returns (p: Option<Str>)
      requires Valid()
      modifies this
      ensures Valid() && Got(p, Left()) == TakeParent(old(Left()))
      ensures var i := old(Left()); p.Some? <==> !i.err && i.rest != [] && i.rest[0] == 1
      ensures off >= old(off) && (old(err) ==> err)
    {
      FirstByte(Left());
      hide TakeU8, TakeField;
      var flag := U8();
      if flag != 1 { return None; }
      var id := Bytes();
      p := Some(Fixed(id, 16));
    }

    /** The rights and ancestors loops. Each turn but a failing last one consumes at least four bytes. */
    method FieldLoop(n: nat) returns (vs: seq<Str>, turns: nat)
      requires Valid()
      modifies this
      ensures Valid() && Got(vs, Left()) == TakeFields(old(Left()), n)
      ensures off >= old(off) && (old(err) ==> err && turns == 0)
      ensures 4 * turns <= off - old(off) + if err then 4 else 0
    {
      hide TakeField;
      vs, turns := [], 0;
      assert [] + TakeFields(Left(), n).value == TakeFields(Left(), n).value;
      while turns < n && !err
        invariant Valid() && turns <= n && old(off) <= off
        invariant 4 * turns <= off - old(off) + if err then 4 else 0
        invariant old(err) ==> err && turns == 0
        invariant TakeFields(old(Left()), n) == var more := TakeFields(Left(), n - turns); Got(vs + more.value, more.next)
      {
        ghost var more := TakeFields(Left(), n - turns);
        var v := Bytes();
        assert vs + more.value == (vs + [v]) + TakeFields(Left(), n - turns - 1).value;
        vs := vs + [v];
        turns := turns + 1;
      }
      assert vs + [] == vs;
    }

    /** The caveats loop. */
    method PairLoop(n: nat) returns (ps: seq<Pair>, turns: nat)
      requires Valid()
      modifies this
      ensures Valid() && Got(ps, Left()) == TakePairs(old(Left()), n)
      ensures off >= old(off) && (old(err) ==> err && turns == 0)
      ensures 4 * turns <= off - old(off) + if err then 4 else 0
    {
      hide TakeField;
      ps, turns := [], 0;
      assert [] + TakePairs(Left(), n).value == TakePairs(Left(), n).value;
      while turns < n && !err
        invariant Valid() && turns <= n && old(off) <= off
        invariant 4 * turns <= off - old(off) + if err then 4 else 0
        invariant old(err) ==> err && turns == 0
        invariant TakePairs(old(Left()), n) == var more := TakePairs(Left(), n - turns); Got(ps + more.value, more.next)
      {
        ghost var more := TakePairs(Left(), n - turns);
        var op := Bytes();
        var val := Bytes();
        assert ps + more.value == (ps + [Pair(op, val)]) + TakePairs(Left(), n - turns - 1).value;
        ps := ps + [Pair(op, val)];
        turns := turns + 1;
      }
      assert ps + [] == ps;
    }

    method HeadFields() returns (h: Head)
      requires Valid()
      modifies this
      ensures Valid() && Got(h, Left()) == TakeHead(old(Left()))
      ensures off >= old(off) && (old(err) ==> err)
    {
      hide TakeField, TakeQuota;
      var id := Bytes();
      var kind := Bytes();
      var node := Bytes();
      var path := Bytes();
      var quota := QuotaField();
      h := Head(Fixed(id, 16), Resource(kind, Fixed(node, 32), path, quota));
    }

    method ListFields() returns (l: Lists, turns: nat)
      requires Valid()
      modifies this
      ensures Valid() && Got(l, Left()) == TakeLists(old(Left()))
      ensures off >= old(off) && (old(err) ==> err && turns == 0)
      ensures 4 * turns <= off - old(off) + if err then 4 else 0
    {
      hide TakeNum, TakeFields, TakePairs;
      var nr := Num(4);
      var rights, t1 := FieldLoop(nr);
      var nc := Num(4);
      var pairs, t2 := PairLoop(nc);
      l, turns := Lists(rights, pairs), t1 + t2;
    }

    method FootFields() returns (f: Foot, turns: nat)
      requires Valid()
      modifies this
      ensures Valid() && Got(f, Left()) == TakeFoot(old(Left()))
      ensures off >= old(off) && (old(err) ==> err && turns == 0)
      ensures 4 * turns <= off - old(off) + if err then 4 else 0
    {
      hide TakeNum, TakeU64, TakeField, TakeFields, TakeParent, ToI64, Fixed, Ids;
      var issuer := Bytes();
      var parent := ParentField();
      var nbf := U64();
      var exp := U64();
      var nonce := Bytes();
      var na := Num(4);
      var anc;
      anc, turns := FieldLoop(na);
      f := Foot(Fixed(issuer, 32), parent, ToI64(nbf), ToI64(exp), Fixed(nonce, 12), Ids(anc));
    }
  }

  /** `decodeCanonical`: whatever the three counts claim, the loops together turn at most once per four
      input bytes, plus one failing turn. */
  method DecodeCanonical(b: Str) returns (r: Option<Grant>, turns: nat)
    ensures r == Decode(b)
    ensures turns <= |b| / 4 + 1
  {
    hide TakeU8, TakeHead, TakeLists, TakeFoot;
    var d := new Cursor(b);
    var version := d.U8();
    if version != VERSION { return None, 0; }
    var h := d.HeadFields();
    var l, t1 := d.ListFields();
    var f, t2 := d.FootFields();
    turns := t1 + t2;
    r := if d.err then None else Some(Assemble(h, l, f));
  }

  // ---------- canonicalBytes ----------
  // Each append leaves `r` such that whatever is appended next stands in the place the encoding gives it.

  method AppendBytes(b: Str, v: Str) returns (r: Str)
    ensures forall rest :: r + rest == b + Field(v, rest)
  {
    r := (b + Big(|v|, 4)) + v;
    forall rest ensures r + rest == b + Field(v, rest) {
      assert r + rest == b + (Big(|v|, 4) + (v + rest));
    }
  }

  method AppendNum(b: Str, n: nat, width: nat) returns (r: Str)
    ensures forall rest :: r + rest == b + (Big(n, width) + rest)
  {
    r := b + Big(n, width);
    forall rest ensures r + rest == b + (Big(n, width) + rest) {
      assert r + rest == b + (Big(n, width) + rest);
    }
  }

  method AppendByte(b: Str, x: byte) returns (r: Str)
    ensures forall rest :: r + rest == b + ([x] + rest)
  {
    r := b + [x];
    forall rest ensures r + rest == b + ([x] + rest) {
      assert r + rest == b + ([x] + rest);
    }
  }

  method AppendQuota(b: Str, q: Option<Quota>) returns (r: Str)
    ensures forall rest :: r + rest == b + QuotaBytes(q, rest)
  {
    hide Big;
    match q
    case None => r := AppendByte(b, 0);
    case Some(q) =>
      r := AppendByte(b, 1);
      var r1 := AppendNum(r, q.bytes, 8);
      var r2 := AppendNum(r1, q.flops, 8);
      var r3 := AppendNum(r2, q.secs, 8);
      forall rest ensures r3 + rest == b + QuotaBytes(Some(q), rest) {
        var t3 := Big(q.secs, 8) + rest;
        var t2 := Big(q.flops, 8) + t3;
        assert r3 + rest == r2 + t3 == r1 + t2 == r + (Big(q.bytes, 8) + t2);
      }
      r := r3;
  }

  method AppendFields(b: Str, vs: seq<Str>) returns (r: Str)
    ensures forall rest :: r + rest == b + Fields(vs, rest)
  {
    hide Field;
    r := b;
    for i := 0 to |vs|
      invariant forall rest :: r + Fields(vs[i..], rest) == b + Fields(vs, rest)
    {
      var r' := AppendBytes(r, vs[i]);
      forall rest ensures r' + Fields(vs[i + 1..], rest) == b + Fields(vs, rest) {
        assert vs[i..][1..] == vs[i + 1..];
        assert r' + Fields(vs[i + 1..], rest) == r + Field(vs[i], Fields(vs[i + 1..], rest));
      }
      r := r';
    }
    assert vs[|vs|..] == [];
    assert forall rest :: Fields(vs[|vs|..], rest) == rest;
    assert forall rest :: r + rest == r + Fields(vs[|vs|..], rest);
  }

  method AppendPairs(b: Str, ps: seq<Pair>) returns (r: Str)
    ensures forall rest :: r + rest == b + Fields(Flat(ps), rest)
  {
    hide Field;
    r := b;
    for i := 0 to |ps|
      invariant forall rest :: r + Fields(Flat(ps[i..]), rest) == b + Fields(Flat(ps), rest)
    {
      var r1 := AppendBytes(r, ps[i].op);
      var r2 := AppendBytes(r1, ps[i].val);
      forall rest ensures r2 + Fields(Flat(ps[i + 1..]), rest) == b + Fields(Flat(ps), rest) {
        assert ps[i..][1..] == ps[i + 1..];
        FlatStep(ps[i..], rest);
        var tail := Fields(Flat(ps[i + 1..]), rest);
        assert r2 + tail == r1 + Field(ps[i].val, tail) == r + Field(ps[i].op, Field(ps[i].val, tail));
      }
      r := r2;
    }
    assert ps[|ps|..] == [];
    assert forall rest :: Fields(Flat(ps[|ps|..]), rest) == rest;
    assert forall rest :: r + rest == r + Fields(Flat(ps[|ps|..]), rest);
  }

  method AppendHead(g: Grant) returns (r: Str)
    ensures forall rest :: r + rest == HeadBytes(g, rest)
  {
    hide Field, QuotaBytes;
    var r0 := [VERSION];
    var r1 := AppendBytes(r0, g.id);
    var r2 := AppendBytes(r1, g.resource.kind);
    var r3 := AppendBytes(r2, g.resource.node);
    var r4 := AppendBytes(r3, g.resource.path);
    r := AppendQuota(r4, g.resource.quota);
    forall rest ensures r + rest == HeadBytes(g, rest) {
      var t4 := QuotaBytes(g.resource.quota, rest);
      var t3 := Field(g.resource.path, t4);
      var t2 := Field(g.resource.node, t3);
      var t1 := Field(g.resource.kind, t2);
      assert r + rest == r4 + t4 == r3 + t3 == r2 + t2 == r1 + t1 == r0 + Field(g.id, t1);
    }
  }

  method AppendLists(b: Str, rights: seq<Str>, cavs: seq<Pair>) returns (r: Str)
    ensures forall rest :: r + rest == b + ListBytes(rights, cavs, rest)
  {
    hide Fields, Big, Flat;
    var r1 := AppendNum(b, |rights|, 4);
    var r2 := AppendFields(r1, rights);
    var r3 := AppendNum(r2, |cavs|, 4);
    r := AppendPairs(r3, cavs);
    forall rest ensures r + rest == b + ListBytes(rights, cavs, rest) {
      var t3 := Fields(Flat(cavs), rest);
      var t2 := Big(|cavs|, 4) + t3;
      assert r + rest == r3 + t3 == r2 + t2 == r1 + Fields(rights, t2);
    }
  }

  method AppendFoot(b: Str, g: Grant) returns (r: Str)
    ensures r == b + FootBytes(g)
  {
    hide Field, Fields, Big, ToU64;
    var r1 := AppendBytes(b, g.issuer);
    var r2 := AppendByte(r1, if g.parent.Some? then 1 else 0);
    var r3 := r2;
    if g.parent.Some? { r3 := AppendBytes(r2, g.parent.value); }
    var r4 := AppendNum(r3, ToU64(g.notBefore), 8);
    var r5 := AppendNum(r4, ToU64(g.expiry), 8);
    var r6 := AppendBytes(r5, g.nonce);
    var r7 := AppendNum(r6, |g.ancestors|, 4);
    r := AppendFields(r7, g.ancestors);
    var t7 := Fields(g.ancestors, []);
    var t6 := Big(|g.ancestors|, 4) + t7;
    var t5 := Field(g.nonce, t6);
    var t4 := Big(ToU64(g.expiry), 8) + t5;
    var t3 := Big(ToU64(g.notBefore), 8) + t4;
    assert r == r + [] == r7 + t7 == r6 + t6 == r5 + t5 == r4 + t4 == r3 + t3;
    assert r3 + t3 == r1 + ParentBytes(g.parent, t3);
  }

  /** `canonicalBytes`. */
  method CanonicalBytes(sort: SortFn, g: Grant) returns (b: Str)
    ensures b == CanonicalOf(sort, g)
    ensures IsSort(sort) ==> IsCanonical(b, g)
  {
    var cavs := sort(Pairs(g.caveats));
    assert IsSort(sort) ==> IsSortOf(cavs, Pairs(g.caveats));
    hide HeadBytes, ListBytes, FootBytes, IsSort, IsSortOf;
    var r1 := AppendHead(g);
    var r2 := AppendLists(r1, g.rights, cavs);
    b := AppendFoot(r2, g);
    assert b == r1 + ListBytes(g.rights, cavs, FootBytes(g)) == Encode(g, cavs);
  }

  datatype Opened = Opened(grant: Grant, sig: Str)

  function Preimage(env: Str): Str
    requires |env| >= SIGNATURE_SIZE
  {
    env[..|env| - SIGNATURE_SIZE]
  }

  /** The envelope is a canonical encoding of the grant, with its caveats where the sort leaves them,
      followed by the signature. */
  ghost predicate IsEnvelope(sort: SortFn, env: Str, o: Opened) {
    |env| >= SIGNATURE_SIZE && o.sig == env[|env| - SIGNATURE_SIZE..]
    && Decode(Preimage(env)) == Some(o.grant) && IsCanonical(Preimage(env), o.grant)
    && sort(Pairs(o.grant.caveats)) == Pairs(o.grant.caveats)
  }

  /** `decodeEnvelopeAndSig`: accepts exactly the envelopes, and returns their grant and signature. */
  method OpenEnvelope(sort: SortFn, env: Str) returns (r: Option<Opened>)
    requires IsSort(sort)
    ensures r.Some? ==> IsEnvelope(sort, env, r.value) && CanonicalOf(sort, r.value.grant) == Preimage(env)
    ensures forall o :: IsEnvelope(sort, env, o) ==> r == Some(o)
  {
    hide Decode, IsCanonical, Pairs, Encode, IsSort;
    if |env| < SIGNATURE_SIZE { return None; }
    var pre, sig := Preimage(env), env[|env| - SIGNATURE_SIZE..];
    var g, _ := DecodeCanonical(pre);
    if g.None? { return None; }
    var again := CanonicalBytes(sort, g.value);
    ReadsExactly(sort, pre, g.value);
    return if again == pre then Some(Opened(g.value, sig)) else None;
  }

  lemma FirstByte(i: In)
    ensures TakeU8(i).value == if !i.err && i.rest != [] then i.rest[0] else 0
  {
  }

  /** Nothing decodes without the version byte in front. */
  lemma DecodeNeedsVersion(b: Str)
    requires Decode(b).Some?
    ensures b != [] && b[0] == 2
  {
    FirstByte(In(b, false));
    hide TakeU8, TakeHead, TakeLists, TakeFoot;
  }
}
