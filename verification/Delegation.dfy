/** Attenuated delegation (daemon/auth/signedcap.go): narrowing, ancestor chains, verification. */
module Delegation {
  import opened Machine
  import opened Envelope
  import opened Canonical
  import opened Decoder

  const SLASH: byte := 47

  predicate HasPathPrefix(sub: Str, base: Str) {
    base == [] || sub == base
    || (|sub| > |base| && sub[..|base|] == base && (base[|base| - 1] == SLASH || sub[|base|] == SLASH))
  }

  /** A zero bound means unbounded. */
  predicate BoundNarrower(parent: u64, child: u64) { parent != 0 ==> 0 < child <= parent }

  predicate QuotaNarrower(parent: Option<Quota>, child: Option<Quota>) {
    parent.Some? ==>
      child.Some?
      && BoundNarrower(parent.value.bytes, child.value.bytes)
      && BoundNarrower(parent.value.flops, child.value.flops)
      && BoundNarrower(parent.value.secs, child.value.secs)
  }

  function CaveatKeys(cs: seq<Caveat>): set<Str> { set p | p in Pairs(cs) :: Key(p) }

  /** `checkNarrower`. */
  predicate Narrower(parent: Grant, child: Grant) {
    (forall r :: r in child.rights ==> r in parent.rights)
    && CaveatKeys(parent.caveats) <= CaveatKeys(child.caveats)
    && HasPathPrefix(child.resource.path, parent.resource.path)
    && QuotaNarrower(parent.resource.quota, child.resource.quota)
    && parent.notBefore <= child.notBefore
    && (parent.expiry != 0 ==> child.expiry != 0 && child.expiry <= parent.expiry)
  }

  lemma PathPrefixTransitive(a: Str, b: Str, c: Str)
    requires HasPathPrefix(b, a) && HasPathPrefix(c, b)
    ensures HasPathPrefix(c, a)
  {
    if a != [] && b != a && c != b {
      assert b != [];
      assert c[..|a|] == c[..|b|][..|a|] == b[..|a|];
      assert c[|a|] == c[..|b|][|a|];
    }
  }

  // ---------- paths as segments ----------

  predicate SlashFree(s: Str) { SLASH !in s }

  /** Segments of a path: not empty, and without a slash. */
  predicate Segments(segs: seq<Str>) { forall s :: s in segs ==> s != [] && SlashFree(s) }

  /** `/a/b/c`. */
  function Descent(segs: seq<Str>): Str {
    if segs == [] then [] else [SLASH] + segs[0] + Descent(segs[1..])
  }

  /** A path: relative to a first name, or absolute if that is empty. */
  function PathOf(first: Str, segs: seq<Str>): Str { first + Descent(segs) }

  /** The end of a segment: nothing more, or a slash. */
  predicate Boundary(s: Str) { s == [] || s[0] == SLASH }

  lemma NotShorter(a: Str, x: Str, b: Str, y: Str)
    requires SlashFree(b) && Boundary(x) && a + x == b + y
    ensures |a| >= |b|
  {
    var s := a + x;
    assert forall i :: 0 <= i < |b| ==> s[i] == b[i];
    assert x != [] ==> s[|a|] == SLASH;
  }

  lemma SameFirst(a: Str, x: Str, b: Str, y: Str)
    requires SlashFree(a) && SlashFree(b) && Boundary(x) && Boundary(y) && a + x == b + y
    ensures a == b && x == y
  {
    NotShorter(a, x, b, y);
    NotShorter(b, y, a, x);
    assert a == (a + x)[..|a|] && b == (b + y)[..|a|];
    assert x == (a + x)[|a|..] && y == (b + y)[|a|..];
  }

  lemma {:induction false} DescentConcat(a: seq<Str>, b: seq<Str>)
    ensures Descent(a + b) == Descent(a) + Descent(b)
  {
    if a == [] {
      assert a + b == b;
    } else {
      DescentConcat(a[1..], b);
      assert (a + b)[1..] == a[1..] + b;
    }
  }

  lemma {:induction false} FirstSegment(segs: seq<Str>)
    requires Segments(segs) && segs != []
    ensures SlashFree(segs[0]) && Segments(segs[1..]) && Descent(segs) == [SLASH] + segs[0] + Descent(segs[1..])
  {
    assert segs[0] in segs;
    assert forall s :: s in segs[1..] ==> s in segs;
  }

  lemma SameStep(a: Str, x: Str, b: Str, y: Str, t: Str)
    requires SlashFree(a) && SlashFree(b) && Boundary(x + t) && Boundary(y)
    requires [SLASH] + b + y == [SLASH] + a + x + t
    ensures a == b && y == x + t
  {
    assert b + y == ([SLASH] + b + y)[1..] && ([SLASH] + a + x + t)[1..] == a + (x + t);
    SameFirst(b, y, a, x + t);
  }

  lemma {:induction false} DescentPrefix(a: seq<Str>, b: seq<Str>, t: Str)
    requires Segments(a) && Segments(b) && Boundary(t) && Descent(b) == Descent(a) + t
    ensures a <= b
  {
    if a != [] {
      assert b != [];
      FirstSegment(a);
      FirstSegment(b);
      BoundaryOf(b[1..], []);
      BoundaryOf(a[1..], t);
      hide Descent, Segments, SlashFree, Boundary;
      SameStep(a[0], Descent(a[1..]), b[0], Descent(b[1..]), t);
      DescentPrefix(a[1..], b[1..], t);
      assert a == [a[0]] + a[1..] && b == [b[0]] + b[1..];
    }
  }

  lemma {:induction false} EndsInSegment(first: Str, segs: seq<Str>)
    requires SlashFree(first) && Segments(segs) && PathOf(first, segs) != []
    ensures PathOf(first, segs)[|PathOf(first, segs)| - 1] != SLASH
  {
    if segs != [] {
      var init, last := segs[..|segs| - 1], segs[|segs| - 1];
      assert segs == init + [last] && last in segs;
      DescentConcat(init, [last]);
      assert Descent([last]) == [SLASH] + last;
    }
  }

  /** A path is under another if and only if the other's segments are the first of its own; and every path is
      under the empty one. */
  lemma PathUnderExactly(first: Str, sub: seq<Str>, root: Str, base: seq<Str>)
    requires SlashFree(first) && SlashFree(root) && Segments(sub) && Segments(base)
    ensures HasPathPrefix(PathOf(first, sub), PathOf(root, base)) <==>
              PathOf(root, base) == [] || (first == root && base <= sub)
  {
    if PathOf(root, base) != [] {
      EndsInSegment(root, base);
      hide HasPathPrefix, Segments, PathOf;
      if first == root && base <= sub { LongerIsUnder(root, sub, base); }
      if HasPathPrefix(PathOf(first, sub), PathOf(root, base)) { UnderIsLonger(first, sub, root, base); }
    }
  }

  lemma LongerIsUnder(root: Str, sub: seq<Str>, base: seq<Str>)
    requires base <= sub
    ensures HasPathPrefix(PathOf(root, sub), PathOf(root, base))
  {
    var s, b, rest := PathOf(root, sub), PathOf(root, base), sub[|base|..];
    assert sub == base + rest;
    DescentConcat(base, rest);
    assert s == b + Descent(rest);
    if rest == [] { assert s == b; } else { assert Descent(rest)[0] == SLASH; }
  }

  lemma UnderIsLonger(first: Str, sub: seq<Str>, root: Str, base: seq<Str>)
    requires SlashFree(first) && SlashFree(root) && Segments(sub) && Segments(base)
    requires PathOf(root, base) != [] && PathOf(root, base)[|PathOf(root, base)| - 1] != SLASH
    requires HasPathPrefix(PathOf(first, sub), PathOf(root, base))
    ensures first == root && base <= sub
  {
    var s, b := PathOf(first, sub), PathOf(root, base);
    var t := s[|b|..];
    assert s == b + t && Boundary(t);
    hide HasPathPrefix, Segments, SlashFree;
    assert first + Descent(sub) == root + (Descent(base) + t);
    BoundaryOf(sub, []);
    BoundaryOf(base, t);
    SameFirst(first, Descent(sub), root, Descent(base) + t);
    DescentPrefix(base, sub, t);
  }

  lemma {:induction false} BoundaryOf(segs: seq<Str>, t: Str)
    requires Boundary(t)
    ensures Boundary(Descent(segs)) && Boundary(Descent(segs) + t)
  {
  }

  /** A longer name is not under a shorter one: `/database` is not under `/data`. */
  lemma SiblingIsNotUnder(base: Str, x: byte, rest: Str)
    requires base != [] && base[|base| - 1] != SLASH && x != SLASH
    ensures !HasPathPrefix(base + [x] + rest, base)
  {
    assert (base + [x] + rest)[|base|] == x;
  }

  /** Under a path that ends in a slash is what starts with it. */
  lemma UnderDirectory(sub: Str, base: Str)
    requires base != [] && base[|base| - 1] == SLASH
    ensures HasPathPrefix(sub, base) <==> base <= sub
  {
  }

  /** Narrowing is a preorder, so it composes along a chain of any length. */
  lemma NarrowerIsPreorder(a: Grant, b: Grant, c: Grant)
    ensures Narrower(a, a)
    ensures Narrower(a, b) && Narrower(b, c) ==> Narrower(a, c)
  {
    if Narrower(a, b) && Narrower(b, c) {
      PathPrefixTransitive(a.resource.path, b.resource.path, c.resource.path);
    }
  }

  // ---------- what narrowing means: the child's authority is part of the parent's ----------

  /** A use of a capability: what is done where, how much it consumes, when, and which caveats it meets. */
  datatype Request = Request(right: Str, kind: Str, node: Str, path: Str, bytes: nat, flops: nat, secs: nat,
                             now: i64, met: set<Pair>)

  predicate Within(bound: u64, used: nat) { bound == 0 || used <= bound }

  predicate Allows(g: Grant, r: Request) {
    r.right in g.rights
    && r.kind == g.resource.kind && r.node == g.resource.node && HasPathPrefix(r.path, g.resource.path)
    && (g.resource.quota.Some? ==> Within(g.resource.quota.value.bytes, r.bytes)
                                   && Within(g.resource.quota.value.flops, r.flops)
                                   && Within(g.resource.quota.value.secs, r.secs))
    && (forall p :: p in Pairs(g.caveats) ==> p in r.met)
    && g.notBefore <= r.now && (g.expiry == 0 || r.now < g.expiry)
  }

  /** `checkNarrower` compares caveats by key, so a parent's caveat can be masked: gone from the child,
      where a different caveat has its key. */
  predicate Masked(parent: Grant, child: Grant) {
    exists p, q :: p in Pairs(parent.caveats) && q in Pairs(child.caveats) && Key(p) == Key(q) && p !in Pairs(child.caveats)
  }

  predicate KeepsCaveats(parent: Grant, child: Grant) {
    forall p :: p in Pairs(parent.caveats) ==> p in Pairs(child.caveats)
  }

  /** A narrower child has every caveat of its parent if and only if none is masked. */
  lemma CaveatsKeptExactly(parent: Grant, child: Grant)
    requires Narrower(parent, child)
    ensures KeepsCaveats(parent, child) <==> !Masked(parent, child)
  {
    hide Key;
    if p :| p in Pairs(parent.caveats) && p !in Pairs(child.caveats) {
      assert Key(p) in CaveatKeys(parent.caveats) && Key(p) in CaveatKeys(child.caveats);
      var q :| q in Pairs(child.caveats) && Key(q) == Key(p);
    }
  }

  /** Names without '=' are never masked. */
  lemma NoEqualsNeverMasked(parent: Grant, child: Grant)
    requires NoEquals(Pairs(parent.caveats)) && NoEquals(Pairs(child.caveats))
    ensures !Masked(parent, child)
  {
    if Masked(parent, child) {
      var p, q :| p in Pairs(parent.caveats) && q in Pairs(child.caveats) && Key(p) == Key(q) && p !in Pairs(child.caveats);
      KeyIsInjective(p, q);
    }
  }

  /** The resource is of the same kind on the same node, which `checkNarrower` does not compare. */
  predicate SamePlace(parent: Grant, child: Grant) {
    parent.resource.kind == child.resource.kind && parent.resource.node == child.resource.node
  }

  predicate Usable(g: Grant) { g.rights != [] && (g.expiry == 0 || g.notBefore < g.expiry) }

  ghost predicate Contains(parent: Grant, child: Grant) { forall r :: Allows(child, r) ==> Allows(parent, r) }

  lemma NarrowerIsSound(parent: Grant, child: Grant, r: Request)
    requires Narrower(parent, child) && SamePlace(parent, child) && KeepsCaveats(parent, child) && Allows(child, r)
    ensures Allows(parent, r)
  {
    PathPrefixTransitive(parent.resource.path, child.resource.path, r.path);
  }

  /** The least a usable grant allows. */
  function LeastUse(g: Grant): Request
    requires Usable(g)
  {
    Request(g.rights[0], g.resource.kind, g.resource.node, g.resource.path, 0, 0, 0, g.notBefore, set p | p in Pairs(g.caveats))
  }

  /** What a narrower child allows, its parent allows, if and only if no caveat is masked and the resource
      stays in its place; or the child allows nothing at all. */
  lemma NarrowerSoundExactly(parent: Grant, child: Grant)
    requires Narrower(parent, child)
    ensures Contains(parent, child) <==> !Usable(child) || (SamePlace(parent, child) && !Masked(parent, child))
  {
    CaveatsKeptExactly(parent, child);
    hide Narrower, Masked;
    if SamePlace(parent, child) && KeepsCaveats(parent, child) {
      forall r | Allows(child, r) ensures Allows(parent, r) { NarrowerIsSound(parent, child, r); }
    }
    if Usable(child) { assert Allows(child, LeastUse(child)); }
  }

  lemma ContainsRights(parent: Grant, child: Grant)
    requires Usable(child) && Contains(parent, child)
    ensures forall x :: x in child.rights ==> x in parent.rights
    ensures SamePlace(parent, child) && HasPathPrefix(child.resource.path, parent.resource.path)
    ensures KeepsCaveats(parent, child) && parent.notBefore <= child.notBefore
  {
    forall x | x in child.rights ensures x in parent.rights {
      assert Allows(child, LeastUse(child).(right := x));
    }
    assert Allows(child, LeastUse(child));
  }

  lemma ContainsExpiry(parent: Grant, child: Grant)
    requires Usable(child) && Contains(parent, child)
    ensures parent.expiry != 0 ==> child.expiry != 0 && child.expiry <= parent.expiry
  {
    var late: i64 := if child.expiry == 0 then TWO63 - 1 else child.expiry - 1;
    var r := LeastUse(child).(now := late);
    assert Allows(child, r);
    assert Allows(parent, r);
  }

  /** The most a bound lets through; a large use if it lets everything through. */
  function Most(bound: u64, other: u64): nat { if bound == 0 then other + 1 else bound }

  lemma MostIsWithin(bound: u64, other: u64)
    ensures Within(bound, Most(bound, other))
    ensures Within(other, Most(bound, other)) <==> BoundNarrower(other, bound)
  {
  }

  lemma ContainsQuota(parent: Grant, child: Grant)
    requires Usable(child) && Contains(parent, child) && parent.resource.quota.Some? && child.resource.quota.Some?
    ensures QuotaNarrower(parent.resource.quota, child.resource.quota)
  {
    var p, c := parent.resource.quota.value, child.resource.quota.value;
    MostIsWithin(c.bytes, p.bytes);
    MostIsWithin(c.flops, p.flops);
    MostIsWithin(c.secs, p.secs);
    var r := LeastUse(child).(bytes := Most(c.bytes, p.bytes), flops := Most(c.flops, p.flops), secs := Most(c.secs, p.secs));
    assert Allows(child, r);
    assert Allows(parent, r);
  }

  /** A usable child is narrower, with no caveat masked and in its place, if and only if everything it allows
      its parent allows and it has a quota where the parent has one. */
  lemma NarrowerExactly(parent: Grant, child: Grant)
    requires Usable(child)
    ensures Narrower(parent, child) && SamePlace(parent, child) && !Masked(parent, child) <==>
              Contains(parent, child) && (parent.resource.quota.Some? ==> child.resource.quota.Some?)
  {
    if Narrower(parent, child) && SamePlace(parent, child) && !Masked(parent, child) {
      NarrowerSoundExactly(parent, child);
    }
    if Contains(parent, child) && (parent.resource.quota.Some? ==> child.resource.quota.Some?) {
      ContainsRights(parent, child);
      ContainsExpiry(parent, child);
      if parent.resource.quota.Some? { ContainsQuota(parent, child); }
      KeptKeys(parent, child);
    }
  }

  lemma KeptKeys(parent: Grant, child: Grant)
    requires KeepsCaveats(parent, child)
    ensures CaveatKeys(parent.caveats) <= CaveatKeys(child.caveats) && !Masked(parent, child)
  {
    hide Key;
  }

  /** The caveats ("a", "b=c") and ("a=b", "c") have one key, so the second masks the first. */
  lemma MaskedExample(parent: Grant)
    requires parent.caveats == [Caveat([97], Text([98, EQUALS, 99]))] && Usable(parent)
    ensures var child := parent.(caveats := [Caveat([97, EQUALS, 98], Text([99]))]);
            Narrower(parent, child) && !Contains(parent, child)
  {
    var child := parent.(caveats := [Caveat([97, EQUALS, 98], Text([99]))]);
    var p, q := Pair([97], [98, EQUALS, 99]), Pair([97, EQUALS, 98], [99]);
    assert Pairs(parent.caveats) == [p] && Pairs(child.caveats) == [q];
    assert Key(p) == [97, EQUALS, 98, EQUALS, 99] == Key(q);
    assert p in [p] && q in [q] && p.op != q.op by { assert |p.op| != |q.op|; }
    assert Masked(parent, child);
    NarrowerSoundExactly(parent, child);
  }

  /** A child may name another node. */
  lemma MovedExample(parent: Grant, node: Str)
    requires Usable(parent) && node != parent.resource.node
    ensures var child := parent.(resource := parent.resource.(node := node));
            Narrower(parent, child) && !Contains(parent, child)
  {
    var child := parent.(resource := parent.resource.(node := node));
    NarrowerIsPreorder(parent, parent, parent);
    assert CaveatKeys(parent.caveats) == CaveatKeys(child.caveats);
    NarrowerSoundExactly(parent, child);
  }

  // ---------- issuing ----------

  /** The issuer's key and the verification predicate that accepts what it signs. */
  datatype Signer = Signer(pub: Str, sign: Str -> Str, valid: (Str, Str, Str) -> bool)

  ghost predicate Honest(k: Signer) {
    |k.pub| == 32 && forall m :: |k.sign(m)| == SIGNATURE_SIZE && k.valid(k.pub, m, k.sign(m))
  }

  function Zeros(n: nat): Str { seq(n, _ => 0) }

  /** What Issue fills in: its own identity, and an id and nonce where the caller left them zero. */
  function Filled(g: Grant, pub: Str, id: Str, nonce: Str): Grant {
    g.(issuer := pub, id := if g.id == Zeros(16) then id else g.id, nonce := if g.nonce == Zeros(12) then nonce else g.nonce)
  }

  /** Whatever the caller passes, a minted capability has its issuer's identity and, given a fresh id that is
      not zero, an id that is not zero; an id or nonce the caller chose is kept. */
  lemma FilledIds(g: Grant, pub: Str, id: Str, nonce: Str)
    requires id != Zeros(16) && nonce != Zeros(12)
    ensures var f := Filled(g, pub, id, nonce);
            f.issuer == pub && f.id != Zeros(16) && f.nonce != Zeros(12)
            && (g.id != Zeros(16) ==> f.id == g.id) && (g.nonce != Zeros(12) ==> f.nonce == g.nonce)
            && f.rights == g.rights && f.caveats == g.caveats && f.resource == g.resource
            && f.notBefore == g.notBefore && f.expiry == g.expiry && f.parent == g.parent && f.ancestors == g.ancestors
  {
  }

  /** An envelope of `g` under a valid signature of its issuer. */
  ghost predicate Sealed(sort: SortFn, k: Signer, env: Str, g: Grant) {
    |env| >= SIGNATURE_SIZE
    && IsEnvelope(sort, env, Opened(g, env[|env| - SIGNATURE_SIZE..]))
    && g.issuer == k.pub
    && k.valid(k.pub, Preimage(env), env[|env| - SIGNATURE_SIZE..])
  }

  /** Sorting the sorted caveats again changes nothing: always so when no two different ones share a key. */
  predicate Settles(sort: SortFn, cs: seq<Caveat>) { sort(sort(Pairs(cs))) == sort(Pairs(cs)) }

  /** Issue: the envelope is the filled grant's canonical encoding with its signature. For an encodable grant
      it opens, to that grant up to caveat order and printed values, exactly when its caveats settle. */
  method Issue(sort: SortFn, k: Signer, g: Grant, id: Str, nonce: Str) returns (env: Option<Str>)
    requires Honest(k) && IsSort(sort)
    ensures env.None? <==> g.rights == []
    ensures var f := Filled(g, k.pub, id, nonce);
            env.Some? ==> env.value == CanonicalOf(sort, f) + k.sign(CanonicalOf(sort, f))
    ensures var f := Filled(g, k.pub, id, nonce);
            env.Some? && Encodable(f) ==>
              if Settles(sort, g.caveats) then SameGrant(AsRead(sort, f), f) && Sealed(sort, k, env.value, AsRead(sort, f))
              else forall o :: !IsEnvelope(sort, env.value, o)
  {
    var f := Filled(g, k.pub, id, nonce);
    hide Encodable, Pairs, IsSort, CanonicalOf, AsRead, SameGrant, Settles, Sealed, IsEnvelope;
    if f.rights == [] { return None; }
    var pre := CanonicalBytes(sort, f);
    var sig := k.sign(pre);
    var body := CanonicalBytes(sort, f);
    env := Some(body + sig);
    if Encodable(f) { SealedExactly(sort, k, f); }
  }

  lemma SealedExactly(sort: SortFn, k: Signer, f: Grant)
    requires Honest(k) && IsSort(sort) && Encodable(f) && f.issuer == k.pub
    ensures var env := CanonicalOf(sort, f) + k.sign(CanonicalOf(sort, f));
            if Settles(sort, f.caveats) then SameGrant(AsRead(sort, f), f) && Sealed(sort, k, env, AsRead(sort, f))
            else forall o :: !IsEnvelope(sort, env, o)
  {
    var pre := CanonicalOf(sort, f);
    var env := pre + k.sign(pre);
    assert Preimage(env) == pre && env[|env| - SIGNATURE_SIZE..] == k.sign(pre);
    assert AsRead(sort, f).issuer == f.issuer;
    hide Decode, IsCanonical, Encodable, Pairs, CanonicalOf, AsRead, SameGrant, Reads, IsSort;
    ReadBackExactly(sort, f);
    forall g ensures Reads(sort, pre) == Some(g)
                <==> Decode(pre) == Some(g) && IsCanonical(pre, g) && sort(Pairs(g.caveats)) == Pairs(g.caveats) {
      ReadsExactly(sort, pre, g);
    }
  }

  lemma DistinctKeysSettle(sort: SortFn, cs: seq<Caveat>)
    requires IsSort(sort) && DistinctKeys(Pairs(cs))
    ensures Settles(sort, cs)
  {
    hide DistinctKeys, Pairs;
    DistinctSettles(sort, Pairs(cs));
  }

  function ZeroResource(): Resource { Resource([], Zeros(32), [], None) }

  /** The child IssueAttenuated builds: defaults from the parent, and the chain down to the parent. */
  function Derived(parent: Grant, child: Grant): Grant {
    child.(resource := if child.resource == ZeroResource() then parent.resource else child.resource,
           notBefore := if child.notBefore == 0 then parent.notBefore else child.notBefore,
           expiry := if child.expiry == 0 then parent.expiry else child.expiry,
           parent := Some(parent.id),
           ancestors := parent.ancestors + [parent.id])
  }

  /** `h` stands directly under `g`. */
  ghost predicate Under(g: Grant, h: Grant) {
    Narrower(g, h) && h.parent == Some(g.id) && h.ancestors == g.ancestors + [g.id]
  }

  /** A child that says where and when allows exactly what it says. */
  lemma DerivedAsSaid(parent: Grant, child: Grant, r: Request)
    requires child.resource != ZeroResource() && child.notBefore != 0 && child.expiry != 0
    ensures Allows(Derived(parent, child), r) <==> Allows(child, r)
  {
  }

  /** A child that says neither gets its parent's place and window, and passes the narrowing check exactly if
      its rights and caveats do. */
  lemma DerivedByDefault(parent: Grant, child: Grant, r: Request)
    requires child.resource == ZeroResource() && child.notBefore == 0 && child.expiry == 0
    ensures Allows(Derived(parent, child), r) <==> Allows(parent.(rights := child.rights, caveats := child.caveats), r)
    ensures Narrower(parent, Derived(parent, child)) <==>
              (forall x :: x in child.rights ==> x in parent.rights) && CaveatKeys(parent.caveats) <= CaveatKeys(child.caveats)
  {
    hide CaveatKeys;
  }

  /** Each of the three defaults on its own. */
  lemma DefaultsApart(parent: Grant, child: Grant)
    ensures var d := Derived(parent, child);
            d.rights == child.rights && d.caveats == child.caveats && d.id == child.id && d.nonce == child.nonce
            && (child.resource != ZeroResource() ==> d.resource == child.resource)
            && (child.resource == ZeroResource() ==> d.resource == parent.resource)
            && (child.notBefore != 0 ==> d.notBefore == child.notBefore)
            && (child.notBefore == 0 ==> d.notBefore == parent.notBefore)
            && (child.expiry != 0 ==> d.expiry == child.expiry)
            && (child.expiry == 0 ==> d.expiry == parent.expiry)
  {
  }

  /** IssueAttenuated reads the parent without checking its signature. It succeeds exactly when the parent
      opens to a grant the derived child is narrower than and there are rights; and then the envelope it
      returns opens to that child, directly under the parent, if the child's caveats settle. */
  method IssueAttenuated(sort: SortFn, k: Signer, parentEnv: Str, child: Grant, id: Str, nonce: Str) returns (env: Option<Str>)
    requires Honest(k) && IsSort(sort)
    ensures env.Some? <==>
              child.rights != [] && exists o :: IsEnvelope(sort, parentEnv, o) && Narrower(o.grant, Derived(o.grant, child))
    ensures forall o :: IsEnvelope(sort, parentEnv, o) && env.Some? ==>
              var f := Filled(Derived(o.grant, child), k.pub, id, nonce);
              Encodable(f) && Settles(sort, child.caveats) ==>
                Under(o.grant, AsRead(sort, f)) && SameGrant(AsRead(sort, f), f) && Sealed(sort, k, env.value, AsRead(sort, f))
  {
    var got := OpenEnvelope(sort, parentEnv);
    hide IsEnvelope, Narrower, Encodable, Pairs, IsSort, CanonicalOf, Settles, Sealed;
    if got.None? { return None; }
    var g := got.value.grant;
    assert forall o :: IsEnvelope(sort, parentEnv, o) ==> o.grant == g;
    var c := Derived(g, child);
    if !Narrower(g, c) { return None; }
    env := Issue(sort, k, c, id, nonce);
    if env.Some? && Encodable(Filled(c, k.pub, id, nonce)) && Settles(sort, c.caveats) {
      NarrowerUpToOrder(g, c, AsRead(sort, Filled(c, k.pub, id, nonce)));
    }
  }

  lemma NarrowerUpToOrder(g: Grant, c: Grant, h: Grant)
    requires Narrower(g, c) && multiset(Pairs(h.caveats)) == multiset(Pairs(c.caveats))
    requires h.rights == c.rights && h.resource == c.resource && h.notBefore == c.notBefore && h.expiry == c.expiry
    ensures Narrower(g, h)
  {
    SamePairs(Pairs(h.caveats), Pairs(c.caveats));
    assert CaveatKeys(h.caveats) == CaveatKeys(c.caveats);
  }

  // ---------- verification ----------

  /** In its window, with neither itself, its parent nor any ancestor revoked. */
  predicate InForce(g: Grant, now: i64, revoked: Str -> bool) {
    g.notBefore <= now && (g.expiry == 0 || now < g.expiry)
    && !revoked(g.id)
    && (forall a :: a in g.ancestors ==> !revoked(a))
    && (g.parent.Some? ==> !revoked(g.parent.value))
  }

  datatype Denial = BadEnvelope | WrongIssuer | BadSignature | NotYetValid | Expired | Revoked

  datatype Verdict = Granted(grant: Grant) | Denied(why: Denial)

  function Reason(g: Grant, now: i64): Denial {
    if now < g.notBefore then NotYetValid else if g.expiry != 0 && now >= g.expiry then Expired else Revoked
  }

  /** The window and revocation checks of Verify. */
  method CheckInForce(g: Grant, now: i64, revoked: Str -> bool) returns (v: Verdict)
    ensures v == if InForce(g, now, revoked) then Granted(g) else Denied(Reason(g, now))
    ensures v == Denied(NotYetValid) <==> now < g.notBefore
    ensures v == Denied(Expired) <==> g.notBefore <= now && g.expiry != 0 && g.expiry <= now
    ensures v == Granted(g) <==>
              g.notBefore <= now && (g.expiry == 0 || now < g.expiry) && forall x :: x in Lineage(g) ==> !revoked(x)
  {
    if now < g.notBefore { return Denied(NotYetValid); }
    if g.expiry != 0 && now >= g.expiry { return Denied(Expired); }
    if revoked(g.id) { return Denied(Revoked); }
    for i := 0 to |g.ancestors|
      invariant forall j :: 0 <= j < i ==> !revoked(g.ancestors[j])
    {
      if revoked(g.ancestors[i]) { return Denied(Revoked); }
    }
    if g.parent.Some? && revoked(g.parent.value) { return Denied(Revoked); }
    v := Granted(g);
  }

  /** Every id a grant stands on: its own, its ancestors' and its parent's. */
  function Lineage(g: Grant): set<Str> {
    {g.id} + (set a | a in g.ancestors) + if g.parent.Some? then {g.parent.value} else {}
  }

  /** Some use of the grant is allowed at that time. */
  ghost predicate UsableAt(g: Grant, now: i64) { exists r: Request :: r.now == now && Allows(g, r) }

  lemma WindowIsUsable(g: Grant, now: i64)
    requires g.rights != []
    ensures UsableAt(g, now) <==> g.notBefore <= now && (g.expiry == 0 || now < g.expiry)
  {
    if g.notBefore <= now && (g.expiry == 0 || now < g.expiry) {
      assert Usable(g);
      var r := LeastUse(g).(now := now);
      assert r.now == now && Allows(g, r);
    }
  }

  /** A grant with rights is in force exactly when some use of it is allowed at that time and no id it stands
      on is revoked. */
  lemma InForceExactly(g: Grant, now: i64, revoked: Str -> bool)
    requires g.rights != []
    ensures InForce(g, now, revoked) <==> UsableAt(g, now) && forall x :: x in Lineage(g) ==> !revoked(x)
  {
    WindowIsUsable(g, now);
    hide Allows;
  }

  /** The reason given for a denial: too early is before every use, expired is after every use, and revoked is
      while some use is allowed. */
  lemma ReasonExactly(g: Grant, now: i64, t: i64)
    requires g.rights != []
    ensures Reason(g, now) == NotYetValid && t <= now ==> !UsableAt(g, t)
    ensures Reason(g, now) == Expired && now <= t ==> !UsableAt(g, t)
    ensures Reason(g, now) == Revoked <==> UsableAt(g, now)
  {
    WindowIsUsable(g, now);
    WindowIsUsable(g, t);
    hide UsableAt;
  }

  /** The verdict on an envelope that opens to `g`. */
  function Judged(k: Signer, pre: Str, sig: Str, g: Grant, now: i64, revoked: Str -> bool): Verdict {
    if g.issuer != k.pub then Denied(WrongIssuer)
    else if !k.valid(k.pub, pre, sig) then Denied(BadSignature)
    else if InForce(g, now, revoked) then Granted(g)
    else Denied(Reason(g, now))
  }

  /** Verify grants exactly the sealed grants in force. What does not open is a bad envelope; what does is
      judged by its issuer, its signature, its window and its revocations, in that order. */
  method Verify(sort: SortFn, env: Str, k: Signer, now: i64, revoked: Str -> bool) returns (v: Verdict)
    requires IsSort(sort)
    ensures forall g :: v == Granted(g) <==> |k.pub| == 32 && Sealed(sort, k, env, g) && InForce(g, now, revoked)
    ensures v.Granted? && v.grant.rights != [] ==> UsableAt(v.grant, now) && forall x :: x in Lineage(v.grant) ==> !revoked(x)
    ensures |k.pub| != 32 || (forall o :: !IsEnvelope(sort, env, o)) ==> v == Denied(BadEnvelope)
    ensures forall o :: |k.pub| == 32 && IsEnvelope(sort, env, o) ==>
              (v == Denied(WrongIssuer) <==> o.grant.issuer != k.pub)
              && (v == Denied(BadSignature) <==> o.grant.issuer == k.pub && !k.valid(k.pub, Preimage(env), o.sig))
    ensures forall o :: |k.pub| == 32 && IsEnvelope(sort, env, o) ==> v == Judged(k, Preimage(env), o.sig, o.grant, now, revoked)
  {
    hide Pairs, InForce, Reason, CanonicalOf, IsSort, IsEnvelope, Judged, Sealed, UsableAt, Lineage;
    if |k.pub| != 32 { return Denied(BadEnvelope); }
    var got := OpenEnvelope(sort, env);
    SealedOpens(sort, k, env);
    if got.None? { return Denied(BadEnvelope); }
    var o := got.value;
    OpenedOnce(sort, env, o);
    VerdictFacts(sort, env, k, o, now, revoked);
    v := Judge(sort, k, env, o, now, revoked);
  }

  lemma OpenedOnce(sort: SortFn, env: Str, o: Opened)
    requires IsEnvelope(sort, env, o)
    ensures |env| >= SIGNATURE_SIZE && forall p :: IsEnvelope(sort, env, p) <==> p == o
  {
    hide Decode, IsCanonical, Pairs;
  }

  lemma SealedOpens(sort: SortFn, k: Signer, env: Str)
    ensures forall g :: Sealed(sort, k, env, g) ==> exists o :: IsEnvelope(sort, env, o)
  {
    hide IsEnvelope;
  }

  lemma SealedGrant(sort: SortFn, k: Signer, env: Str, o: Opened, g: Grant)
    requires IsEnvelope(sort, env, o) && |env| >= SIGNATURE_SIZE
    ensures Sealed(sort, k, env, g) <==> g == o.grant && g.issuer == k.pub && k.valid(k.pub, Preimage(env), o.sig)
  {
    OpenedOnce(sort, env, o);
    assert o.sig == env[|env| - SIGNATURE_SIZE..];
    hide IsEnvelope;
    assert Opened(g, env[|env| - SIGNATURE_SIZE..]) == o <==> g == o.grant;
  }

  /** The checks on an opened envelope. */
  method Judge(sort: SortFn, k: Signer, env: Str, o: Opened, now: i64, revoked: Str -> bool) returns (v: Verdict)
    requires |env| >= SIGNATURE_SIZE && CanonicalOf(sort, o.grant) == Preimage(env)
    ensures v == Judged(k, Preimage(env), o.sig, o.grant, now, revoked)
  {
    hide InForce, Reason, CanonicalOf, Lineage;
    if o.grant.issuer != k.pub { return Denied(WrongIssuer); }
    var pre := CanonicalBytes(sort, o.grant);
    if !k.valid(k.pub, pre, o.sig) { return Denied(BadSignature); }
    v := CheckInForce(o.grant, now, revoked);
  }

  lemma VerdictFacts(sort: SortFn, env: Str, k: Signer, o: Opened, now: i64, revoked: Str -> bool)
    requires IsEnvelope(sort, env, o) && |env| >= SIGNATURE_SIZE
    ensures var v := Judged(k, Preimage(env), o.sig, o.grant, now, revoked);
            (forall g :: v == Granted(g) <==> Sealed(sort, k, env, g) && InForce(g, now, revoked))
            && (v.Granted? && v.grant.rights != [] ==>
                  UsableAt(v.grant, now) && forall x :: x in Lineage(v.grant) ==> !revoked(x))
            && (v == Denied(WrongIssuer) <==> o.grant.issuer != k.pub)
            && (v == Denied(BadSignature) <==> o.grant.issuer == k.pub && !k.valid(k.pub, Preimage(env), o.sig))
  {
    hide IsEnvelope, InForce, UsableAt, Lineage, Sealed, Preimage;
    forall g ensures Sealed(sort, k, env, g) <==> g == o.grant && g.issuer == k.pub && k.valid(k.pub, Preimage(env), o.sig) {
      SealedGrant(sort, k, env, o, g);
    }
    if o.grant.rights != [] { InForceExactly(o.grant, now, revoked); }
  }

  /** An expired capability stays expired, and one that is not yet valid was not valid before, whatever was or
      will be revoked. */
  lemma JudgedOverTime(k: Signer, pre: Str, sig: Str, g: Grant, now: i64, t: i64, revoked: Str -> bool, revoked': Str -> bool)
    ensures Judged(k, pre, sig, g, now, revoked) == Denied(Expired) && now <= t ==>
              Judged(k, pre, sig, g, t, revoked') == Denied(Expired)
    ensures Judged(k, pre, sig, g, now, revoked) == Denied(NotYetValid) && t <= now ==>
              Judged(k, pre, sig, g, t, revoked') == Denied(NotYetValid)
  {
  }

  // ---------- chains ----------

  /** A root followed by grants each issued directly under the one before. */
  ghost predicate IsChain(chain: seq<Grant>) {
    chain != [] && (forall i :: 0 < i < |chain| ==> Under(chain[i - 1], chain[i]))
  }

  /** A grant's parent, if any, is among its ancestors. */
  predicate Rooted(g: Grant) { g.parent.Some? ==> g.parent.value in g.ancestors }

  /** Every descendant is narrower than every ancestor. */
  lemma {:induction false} ChainNarrows(chain: seq<Grant>, i: nat, j: nat)
    requires IsChain(chain) && i <= j < |chain|
    ensures Narrower(chain[i], chain[j])
    decreases j - i
  {
    NarrowerIsPreorder(chain[i], chain[i], chain[i]);
    if i < j {
      ChainNarrows(chain, i, j - 1);
      assert Under(chain[j - 1], chain[j]);
      NarrowerIsPreorder(chain[i], chain[j - 1], chain[j]);
    }
  }

  function IdsOf(chain: seq<Grant>): seq<Str> { seq(|chain|, i requires 0 <= i < |chain| => chain[i].id) }

  /** A grant's ancestor list is the root's followed by the ids from the root down to its parent. */
  lemma {:induction false} ChainAncestors(chain: seq<Grant>, j: nat)
    requires IsChain(chain) && j < |chain|
    ensures chain[j].ancestors == chain[0].ancestors + IdsOf(chain[..j])
    ensures j > 0 ==> chain[j].parent == Some(chain[j - 1].id) && Rooted(chain[j])
  {
    hide Narrower;
    if j > 0 {
      ChainAncestors(chain, j - 1);
      assert Under(chain[j - 1], chain[j]);
      assert IdsOf(chain[..j]) == IdsOf(chain[..j - 1]) + [chain[j - 1].id];
    }
  }

  lemma AncestorsGrow(chain: seq<Grant>, i: nat, j: nat)
    requires IsChain(chain) && i < j < |chain|
    ensures chain[i].id in chain[j].ancestors && forall a :: a in chain[i].ancestors ==> a in chain[j].ancestors
  {
    ChainAncestors(chain, i);
    ChainAncestors(chain, j);
    assert IdsOf(chain[..j])[i] == chain[i].id;
    assert IdsOf(chain[..i]) == IdsOf(chain[..j])[..i];
  }

  /** `Issue` takes a root whose parent is not among its ancestors. Nothing issued under the root records
      that parent, unless it happens to be one of their ids. */
  predicate Recorded(chain: seq<Grant>, i: nat, j: nat)
    requires i <= j < |chain|
  {
    i > 0 || j == 0 || chain[0].parent.None?
    || chain[0].parent.value in chain[j].ancestors || chain[0].parent.value == chain[j].id
  }

  /** If a descendant is in force then so is every ancestor whose parent it records. */
  lemma ChainInForce(chain: seq<Grant>, i: nat, j: nat, now: i64, revoked: Str -> bool)
    requires IsChain(chain) && i <= j < |chain| && Recorded(chain, i, j)
    requires InForce(chain[j], now, revoked)
    ensures InForce(chain[i], now, revoked)
  {
    ChainNarrows(chain, i, j);
    ChainAncestors(chain, i);
    if i < j { AncestorsGrow(chain, i, j); }
  }

  /** So in-force carries up a chain whatever is revoked, if and only if the root's parent is recorded; or
      the descendant has no instant at which it could be in force. */
  lemma ChainInForceExactly(chain: seq<Grant>, i: nat, j: nat)
    requires IsChain(chain) && i <= j < |chain|
    ensures (forall now, revoked :: InForce(chain[j], now, revoked) ==> InForce(chain[i], now, revoked))
       <==> Recorded(chain, i, j) || (chain[j].expiry != 0 && chain[j].expiry <= chain[j].notBefore)
  {
    hide IsChain;
    if Recorded(chain, i, j) {
      forall now, revoked | InForce(chain[j], now, revoked) ensures InForce(chain[i], now, revoked) {
        ChainInForce(chain, i, j, now, revoked);
      }
    } else if chain[j].expiry == 0 || chain[j].notBefore < chain[j].expiry {
      var revoked := (id: Str) => id == chain[0].parent.value;
      ChainAncestors(chain, j);
      assert InForce(chain[j], chain[j].notBefore, revoked) && !InForce(chain[i], chain[j].notBefore, revoked);
    }
  }

  /** Revoking any grant of a chain denies everything issued under it. */
  lemma RevocationCascades(chain: seq<Grant>, i: nat, j: nat, now: i64, revoked: Str -> bool)
    requires IsChain(chain) && i <= j < |chain|
    requires revoked(chain[i].id)
    ensures !InForce(chain[j], now, revoked)
  {
    if i < j { AncestorsGrow(chain, i, j); }
  }

  /** A root issued with a parent and no ancestors is denied when that parent is revoked; its child is not. */
  lemma UnrecordedParentExample(g: Grant, p: Str, id: Str, now: i64)
    requires g.parent == Some(p) && g.ancestors == [] && p != g.id && p != id
    requires g.notBefore <= now && g.expiry == 0
    ensures var h := g.(id := id, parent := Some(g.id), ancestors := [g.id]);
            var revoked := (x: Str) => x == p;
            IsChain([g, h]) && InForce(h, now, revoked) && !InForce(g, now, revoked)
  {
    var h := g.(id := id, parent := Some(g.id), ancestors := [g.id]);
    assert Under(g, h) by { assert g.ancestors + [g.id] == [g.id]; }
  }

  /** Where no step masks a caveat or moves the resource, every descendant's authority is part of every
      ancestor's. */
  lemma {:induction false} ChainContains(chain: seq<Grant>, i: nat, j: nat, r: Request)
    requires IsChain(chain) && i <= j < |chain| && Allows(chain[j], r)
    requires forall k :: 0 < k < |chain| ==> SamePlace(chain[k - 1], chain[k]) && !Masked(chain[k - 1], chain[k])
    ensures Allows(chain[i], r)
    decreases j - i
  {
    hide Allows, Masked, SamePlace;
    if i < j {
      assert Under(chain[j - 1], chain[j]);
      NarrowerSoundExactly(chain[j - 1], chain[j]);
      assert Allows(chain[j - 1], r);
      ChainContains(chain, i, j - 1, r);
    }
  }
}
