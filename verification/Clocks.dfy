/** Vector clocks of the causal CRDT engine (daemon/state/state.go). */
module Clocks {
  import opened Machine

  /** actor -> counter; an absent actor reads as zero. */
  type Clock = map<Str, u64>

  function Get(c: Clock, actor: Str): u64 {
    if actor in c then c[actor] else 0
  }

  /** `c[actor]++` on a uint64: it wraps. */
  function Tick(c: Clock, actor: Str): Clock {
    c[actor := (Get(c, actor) + 1) % TWO64]
  }

  predicate Equal(c: Clock, o: Clock) {
    |c| == |o| && forall k :: k in c ==> Get(o, k) == c[k]
  }

  predicate DominatedBy(c: Clock, o: Clock) {
    forall k :: k in c ==> c[k] <= Get(o, k)
  }

  predicate HappensBefore(c: Clock, o: Clock) {
    DominatedBy(c, o) && !Equal(c, o)
  }

  predicate ZeroFree(c: Clock) {
    forall k :: k in c ==> c[k] != 0
  }

  function Max(a: u64, b: u64): u64 { if a < b then b else a }

  /** The pointwise maximum. A zero entry of `o` never creates an entry. */
  function Join(c: Clock, o: Clock): (j: Clock)
  {
    map k | k in c.Keys + o.Keys && (k in c || o[k] > 0) :: Max(Get(c, k), Get(o, k))
  }

  lemma JoinGet(c: Clock, o: Clock, k: Str)
    ensures Get(Join(c, o), k) == Max(Get(c, k), Get(o, k))
  {
    assert k in Join(c, o) <==> k in c.Keys + o.Keys && (k in c || o[k] > 0);
  }

  lemma JoinIsAbove(c: Clock, o: Clock)
    ensures DominatedBy(c, Join(c, o)) && DominatedBy(o, Join(c, o))
    ensures ZeroFree(c) ==> ZeroFree(Join(c, o))
  {
    forall k ensures Get(c, k) <= Get(Join(c, o), k) && Get(o, k) <= Get(Join(c, o), k) { JoinGet(c, o, k); }
  }

  lemma JoinIsLeast(c: Clock, o: Clock, u: Clock)
    requires DominatedBy(c, u) && DominatedBy(o, u)
    ensures DominatedBy(Join(c, o), u)
  {
    forall k | k in Join(c, o) ensures Join(c, o)[k] <= Get(u, k) {
      JoinGet(c, o, k);
      assert k in c ==> c[k] <= Get(u, k);
      assert k in o ==> o[k] <= Get(u, k);
    }
  }

  lemma JoinWithLower(c: Clock, o: Clock)
    requires DominatedBy(o, c)
    ensures Join(c, o) == c
  {
    assert forall k :: k in o ==> o[k] <= Get(c, k);
    assert Join(c, o).Keys == c.Keys;
  }

  /** `mergeMax`: folds `other` into the receiver, entry by entry in any order. */
  method MergeMax(c: Clock, other: Clock) returns (r: Clock)
    ensures r == Join(c, other)
  {
    r := c;
    var todo := other.Keys;
    while todo != {}
      invariant todo <= other.Keys
      invariant r.Keys == set k | k in c.Keys + other.Keys && (k in c || (k !in todo && other[k] > 0))
      invariant forall k :: k in r ==> r[k] == if k in todo || k !in other then Get(c, k) else Max(Get(c, k), other[k])
    {
      var k :| k in todo;
      if other[k] > Get(r, k) {
        r := r[k := other[k]];
      }
      todo := todo - {k};
    }
  }

  lemma SubsetOfSameSize<T>(a: set<T>, b: set<T>)
    requires a <= b && |a| == |b|
    ensures a == b
  {
    assert |b - a| == |b| - |a|;
  }

  /** On clocks without zero entries `equal` is equality, so happens-before is a strict partial order. */
  lemma EqualIsEquality(c: Clock, o: Clock)
    requires ZeroFree(c) && ZeroFree(o)
    ensures Equal(c, o) <==> c == o
    ensures DominatedBy(c, o) && DominatedBy(o, c) ==> c == o
  {
    if Equal(c, o) {
      assert c.Keys <= o.Keys by { assert forall k :: k in c ==> Get(o, k) == c[k]; }
      SubsetOfSameSize(c.Keys, o.Keys);
    }
    if DominatedBy(c, o) && DominatedBy(o, c) {
      assert forall k :: k in c ==> 0 < c[k] <= Get(o, k);
      assert forall k :: k in o ==> 0 < o[k] <= Get(c, k);
      assert c.Keys == o.Keys;
    }
  }

  lemma DominatedTransitive(a: Clock, b: Clock, c: Clock)
    requires DominatedBy(a, b) && DominatedBy(b, c)
    ensures DominatedBy(a, c)
  {
    forall k | k in a ensures a[k] <= Get(c, k) {
      assert a[k] <= Get(b, k);
    }
  }

  lemma BeforeIsStrictOrder(a: Clock, b: Clock, c: Clock)
    requires ZeroFree(a) && ZeroFree(b) && ZeroFree(c)
    ensures !HappensBefore(a, a)
    ensures DominatedBy(a, b) && HappensBefore(b, c) ==> HappensBefore(a, c)
    ensures HappensBefore(a, b) && DominatedBy(b, c) ==> HappensBefore(a, c)
    ensures HappensBefore(a, b) ==> !DominatedBy(b, a)
  {
    EqualIsEquality(a, b);
    EqualIsEquality(b, c);
    EqualIsEquality(a, c);
    if DominatedBy(a, b) && DominatedBy(b, c) { DominatedTransitive(a, b, c); }
  }

  predicate ReadsSame(c: Clock, o: Clock) { forall k :: k in c.Keys + o.Keys ==> Get(c, k) == Get(o, k) }

  lemma ReadsSameIsMutual(c: Clock, o: Clock)
    ensures ReadsSame(c, o) <==> DominatedBy(c, o) && DominatedBy(o, c)
  {
    if ReadsSame(c, o) {
      forall k | k in c ensures c[k] <= Get(o, k) { assert k in c.Keys + o.Keys; }
      forall k | k in o ensures o[k] <= Get(c, k) { assert k in c.Keys + o.Keys; }
    }
    if DominatedBy(c, o) && DominatedBy(o, c) {
      forall k | k in c.Keys + o.Keys ensures Get(c, k) == Get(o, k) {
        if k in c { assert c[k] <= Get(o, k); }
        if k in o { assert o[k] <= Get(c, k); }
      }
    }
  }

  /** Two clocks happen before each other exactly when they read the same everywhere and differ in how
      many zero entries they carry. */
  lemma MutualBeforeExactly(c: Clock, o: Clock)
    ensures HappensBefore(c, o) && HappensBefore(o, c) <==> ReadsSame(c, o) && |c| != |o|
  {
    ReadsSameIsMutual(c, o);
    if ReadsSame(c, o) {
      forall k | k in c ensures Get(o, k) == c[k] { assert k in c.Keys + o.Keys; }
      forall k | k in o ensures Get(c, k) == o[k] { assert k in c.Keys + o.Keys; }
    }
  }

  lemma TickDominates(c: Clock, d: Clock, actor: Str)
    requires DominatedBy(d, c) && ZeroFree(d) && Get(c, actor) < MAX64
    ensures HappensBefore(d, Tick(c, actor)) && Get(d, actor) < Get(Tick(c, actor), actor)
  {
    var t := Tick(c, actor);
    assert t == c[actor := Get(c, actor) + 1];
    assert Get(d, actor) <= Get(c, actor) < Get(t, actor);
    forall k | k in d ensures d[k] <= Get(t, k) { assert d[k] <= Get(c, k); }
    hide Tick;
    LessSomewhere(d, t, actor);
  }

  lemma LessSomewhere(d: Clock, t: Clock, actor: Str)
    requires ZeroFree(d) && Get(d, actor) < Get(t, actor)
    ensures !Equal(d, t)
  {
    if Equal(d, t) {
      assert d.Keys <= t.Keys by { assert forall k :: k in d ==> Get(t, k) == d[k] > 0; }
      SubsetOfSameSize(d.Keys, t.Keys);
    }
  }
}
