/** The multi-value register of the CRDT engine (daemon/state/state.go): a causal frontier of writes. */
module Register {
  import opened Machine
  import opened Clocks

  /** One causally stamped write. */
  datatype Dot = Dot(actor: Str, value: Str, clock: Clock)

  predicate SameDot(d: Dot, e: Dot) {
    Equal(d.clock, e.clock) && d.actor == e.actor && d.value == e.value
  }

  predicate Before(d: Dot, e: Dot) { HappensBefore(d.clock, e.clock) }

  function Dots(s: seq<Dot>): set<Dot> { set i | 0 <= i < |s| :: s[i] }

  predicate Distinct<T(==)>(s: seq<T>) {
    forall i, j :: 0 <= i < j < |s| ==> s[i] != s[j]
  }

  /** A live write is after `d`, or `d` is taken for it: the first loop of `absorb` ends there. */
  predicate Stale(s: set<Dot>, d: Dot) { exists e :: e in s && (Before(d, e) || SameDot(d, e)) }

  /** A live write is taken for `d`. `equal` need not be symmetric, so this is tested too. */
  predicate Echoed(s: set<Dot>, d: Dot) { exists e :: e in s && SameDot(e, d) }

  /** The effect of one `absorb` on the set of live writes. */
  function Absorbed(s: set<Dot>, d: Dot): set<Dot> {
    if Stale(s, d) then s
    else (set e | e in s && !Before(e, d)) + if Echoed(s, d) then {} else {d}
  }

  predicate Conflicted(s: set<Dot>) {
    exists d, e :: d in s && e in s && d.value != e.value
  }

  function Values(s: set<Dot>): set<Str> { set d | d in s :: d.value }

  // ---------- the reference definition: the happens-before-maximal writes ----------

  predicate AllZeroFree(s: set<Dot>) { forall d :: d in s ==> ZeroFree(d.clock) }

  predicate IsMaximal(d: Dot, s: set<Dot>) {
    d in s && forall e :: e in s ==> !Before(d, e)
  }

  function Maximal(s: set<Dot>): set<Dot> { set d | d in s && IsMaximal(d, s) }

  /** `absorb` takes neither write for the other, nor each for older than the other. */
  predicate Told(d: Dot, e: Dot) {
    !SameDot(d, e) && !SameDot(e, d) && !(Before(d, e) && Before(e, d))
  }

  /** Happens-before orders these writes: any two of them are told apart, and it is transitive. */
  ghost predicate Tame(s: set<Dot>) {
    (forall d, e :: d in s && e in s && d != e ==> Told(d, e))
    && (forall d, e, f :: d in s && e in s && f in s && Before(d, e) && Before(e, f) ==> Before(d, f))
  }

  lemma TameSubset(s: set<Dot>, t: set<Dot>)
    requires Tame(t) && s <= t
    ensures Tame(s)
  {
  }

  lemma NeverBeforeItself(d: Dot)
    ensures !Before(d, d) && SameDot(d, d)
  {
  }

  /** It does so when clocks that `equal` accepts, or that read the same, are the same clock. */
  lemma FaithfulIsTame(s: set<Dot>)
    requires forall d, e :: d in s && e in s && (Equal(d.clock, e.clock) || ReadsSame(d.clock, e.clock)) ==> d.clock == e.clock
    ensures Tame(s)
  {
    forall d, e | d in s && e in s && d != e ensures Told(d, e) {
      MutualBeforeExactly(d.clock, e.clock);
    }
    forall d, e, f | d in s && e in s && f in s && Before(d, e) && Before(e, f) ensures Before(d, f) {
      DominatedTransitive(d.clock, e.clock, f.clock);
      if Equal(d.clock, f.clock) {
        MutualBeforeExactly(d.clock, e.clock);
      }
    }
  }

  lemma ZeroFreeIsTame(s: set<Dot>)
    requires AllZeroFree(s)
    ensures Tame(s)
  {
    forall d, e | d in s && e in s && (Equal(d.clock, e.clock) || ReadsSame(d.clock, e.clock)) ensures d.clock == e.clock {
      EqualIsEquality(d.clock, e.clock);
      if ReadsSame(d.clock, e.clock) { ReadsSameIsMutual(d.clock, e.clock); }
    }
    hide Equal, ReadsSame;
    FaithfulIsTame(s);
  }

  /** Every write is covered by a maximal one. */
  lemma {:induction false} MaximalAbove(s: set<Dot>, d: Dot)
    requires Tame(s) && d in s
    ensures exists m :: m in Maximal(s) && (m == d || Before(d, m))
    decreases s
  {
    hide Before, SameDot;
    if !IsMaximal(d, s) {
      var e :| e in s && Before(d, e);
      NeverBeforeItself(d);
      var s' := s - {d};
      TameSubset(s', s);
      MaximalAbove(s', e);
      var m :| m in Maximal(s') && (m == e || Before(e, m));
      assert Before(d, m) && Told(d, m);
      assert IsMaximal(m, s);
      assert m in Maximal(s);
    } else {
      assert d in Maximal(s);
    }
  }

  lemma StaleWriteKeepsFrontier(s: set<Dot>, d: Dot, e: Dot)
    requires Tame(s + {d}) && e in s && Before(d, e)
    ensures Maximal(s + {d}) == Maximal(s)
  {
    hide Before, SameDot;
    assert d in s + {d} && e in s + {d};
    forall x | x in s ensures IsMaximal(x, s + {d}) <==> IsMaximal(x, s) {
      assert x in s + {d};
      if Before(x, d) { assert Before(x, e); }
    }
  }

  lemma FreshWriteJoinsFrontier(s: set<Dot>, d: Dot)
    requires d !in s && forall e :: e in s ==> !Before(d, e)
    ensures Maximal(s + {d}) == (set x | x in Maximal(s) && !Before(x, d)) + {d}
  {
    NeverBeforeItself(d);
    hide Before;
    assert IsMaximal(d, s + {d});
    forall x | x in s ensures IsMaximal(x, s + {d}) <==> IsMaximal(x, s) && !Before(x, d) {
      assert d in s + {d};
    }
  }

  /** Absorbing a write into the frontier of `s` gives the frontier of `s` with that write. */
  lemma AbsorbKeepsFrontier(s: set<Dot>, d: Dot)
    requires Tame(s + {d})
    ensures Absorbed(Maximal(s), d) == Maximal(s + {d})
  {
    NeverBeforeItself(d);
    hide Before, SameDot;
    TameSubset(s, s + {d});
    forall e | e in s ensures SameDot(d, e) <==> d == e { assert e in s + {d} && d in s + {d}; }
    if e :| e in s && Before(d, e) {
      MaximalAbove(s, e);
      var m :| m in Maximal(s) && (m == e || Before(e, m));
      assert Before(d, m) by { assert d in s + {d} && e in s + {d} && m in s + {d}; }
      StaleWriteKeepsFrontier(s, d, e);
    } else if d in s {
      assert s + {d} == s && d in Maximal(s);
    } else {
      assert !Echoed(Maximal(s), d) by { assert forall e :: e in s ==> e in s + {d}; assert d in s + {d}; }
      FreshWriteJoinsFrontier(s, d);
    }
  }

  // ---------- absorb ----------

  /** The `sort.Slice` comparator. */
  predicate DotLess(d: Dot, e: Dot) {
    if d.actor != e.actor then Less(d.actor, e.actor) else Less(d.value, e.value)
  }

  lemma DotLessTransitive(d: Dot, e: Dot, f: Dot)
    requires !DotLess(e, d) && !DotLess(f, e)
    ensures !DotLess(f, d)
  {
    LessTrichotomy(d.actor, e.actor); LessTrichotomy(e.actor, f.actor); LessTrichotomy(d.actor, f.actor);
    LessTrichotomy(d.value, e.value); LessTrichotomy(e.value, f.value); LessTrichotomy(d.value, f.value);
    if Less(d.actor, e.actor) && Less(e.actor, f.actor) { LessTransitive(d.actor, e.actor, f.actor); }
    if Less(d.value, e.value) && Less(e.value, f.value) { LessTransitive(d.value, e.value, f.value); }
  }

  predicate Ordered(s: seq<Dot>) {
    forall i, j :: 0 <= i < j < |s| ==> !DotLess(s[j], s[i])
  }

  /** `sort.Slice` is not stable, so a caller learns only that the result is ordered and has the same
      elements. */
  method SortDots(s: seq<Dot>) returns (r: seq<Dot>)
    requires Distinct(s)
    ensures Ordered(r) && Distinct(r) && Dots(r) == Dots(s)
  {
    r := [];
    for n := 0 to |s|
      invariant Ordered(r) && Distinct(r) && Dots(r) == Dots(s[..n])
    {
      var x, at := s[n], 0;
      while at < |r| && !DotLess(x, r[at])
        invariant 0 <= at <= |r|
        invariant forall i :: 0 <= i < at ==> !DotLess(x, r[i])
      {
        at := at + 1;
      }
      assert x !in Dots(s[..n]);
      var r' := r[..at] + [x] + r[at..];
      InsertKeepsOrder(r, x, at);
      InsertKeepsDistinct(r, x, at);
      assert Dots(s[..n + 1]) == Dots(s[..n]) + {x} by {
        assert s[..n + 1][n] == x;
        assert forall i :: 0 <= i < n ==> s[..n + 1][i] == s[..n][i];
      }
      r := r';
    }
    assert s[..|s|] == s;
  }

  lemma InsertKeepsOrder(r: seq<Dot>, x: Dot, at: nat)
    requires Ordered(r) && at <= |r|
    requires forall i :: 0 <= i < at ==> !DotLess(x, r[i])
    requires at < |r| ==> DotLess(x, r[at])
    ensures Ordered(r[..at] + [x] + r[at..])
  {
    var r' := r[..at] + [x] + r[at..];
    forall i, j | 0 <= i < j < |r'| ensures !DotLess(r'[j], r'[i]) {
      if i == at {
        LessTrichotomy(x.actor, r[at].actor); LessTrichotomy(x.value, r[at].value);
        if j > at + 1 {
          assert r'[j] == r[j - 1] && !DotLess(r[j - 1], r[at]);
          DotLessTransitive(x, r[at], r[j - 1]);
        }
      }
    }
  }

  lemma InsertKeepsDistinct(r: seq<Dot>, x: Dot, at: nat)
    requires Distinct(r) && at <= |r| && x !in Dots(r)
    ensures Distinct(r[..at] + [x] + r[at..]) && Dots(r[..at] + [x] + r[at..]) == Dots(r) + {x}
  {
    InsertedDots(r, x, at);
    assert forall i :: 0 <= i < |r| ==> r[i] != x by { assert forall i :: 0 <= i < |r| ==> r[i] in Dots(r); }
    hide Dots;
    InsertedDistinct(r, x, at);
  }

  lemma InsertedDistinct(r: seq<Dot>, x: Dot, at: nat)
    requires Distinct(r) && at <= |r| && forall i :: 0 <= i < |r| ==> r[i] != x
    ensures Distinct(r[..at] + [x] + r[at..])
  {
    var r' := r[..at] + [x] + r[at..];
    forall i, j | 0 <= i < j < |r'| ensures r'[i] != r'[j] {
      assert r'[i] == if i < at then r[i] else if i == at then x else r[i - 1];
      assert r'[j] == if j < at then r[j] else if j == at then x else r[j - 1];
    }
  }

  lemma InsertedDots(r: seq<Dot>, x: Dot, at: nat)
    requires at <= |r|
    ensures Dots(r[..at] + [x] + r[at..]) == Dots(r) + {x}
  {
    var r' := r[..at] + [x] + r[at..];
    assert r'[at] == x;
    forall d | d in Dots(r) ensures d in Dots(r') {
      var i :| 0 <= i < |r| && r[i] == d;
      assert r'[if i < at then i else i + 1] == d;
    }
    forall d | d in Dots(r') ensures d in Dots(r) + {x} {
      var i :| 0 <= i < |r'| && r'[i] == d;
      assert i == at || d == r[if i < at then i else i - 1];
    }
  }

  /** `absorb`: end on a stale write, keep what is not superseded, add the write unless a kept one is
      taken for it, and sort. */
  method Absorb(dots: seq<Dot>, d: Dot) returns (r: seq<Dot>)
    requires Distinct(dots)
    ensures Distinct(r) && Dots(r) == Absorbed(Dots(dots), d)
    ensures r == dots || Ordered(r)
  {
    hide Before, SameDot;
    for i := 0 to |dots|
      invariant forall j :: 0 <= j < i ==> !Before(d, dots[j]) && !SameDot(d, dots[j])
    {
      if Before(d, dots[i]) || SameDot(d, dots[i]) {
        assert dots[i] in Dots(dots);
        return dots;
      }
    }
    var kept := KeepUnsuperseded(dots, d);
    var dup := false;
    for i := 0 to |kept|
      invariant !dup && forall j :: 0 <= j < i ==> !SameDot(kept[j], d)
    {
      if SameDot(kept[i], d) { dup := true; break; }
    }
    EchoIsKept(dots, kept, d, dup);
    if !dup {
      Appended(kept, d);
      kept := kept + [d];
    }
    r := SortDots(kept);
  }

  lemma Appended(s: seq<Dot>, d: Dot)
    requires Distinct(s) && d !in Dots(s)
    ensures Distinct(s + [d]) && Dots(s + [d]) == Dots(s) + {d}
  {
    InsertKeepsDistinct(s, d, |s|);
    assert s[..|s|] + [d] + s[|s|..] == s + [d];
  }

  lemma DotsSnoc(s: seq<Dot>, i: nat)
    requires i < |s|
    ensures Dots(s[..i + 1]) == Dots(s[..i]) + {s[i]}
  {
    assert s[..i + 1][i] == s[i];
    assert forall k :: 0 <= k < i ==> s[..i + 1][k] == s[..i][k];
  }

  lemma DistinctPrefix(s: seq<Dot>, i: nat)
    requires Distinct(s) && i < |s|
    ensures s[i] !in Dots(s[..i])
  {
  }

  method KeepUnsuperseded(dots: seq<Dot>, d: Dot) returns (kept: seq<Dot>)
    requires Distinct(dots)
    ensures Distinct(kept) && Dots(kept) == set e | e in Dots(dots) && !Before(e, d)
  {
    hide Before, Distinct;
    kept := [];
    NoDots();
    for i := 0 to |dots|
      invariant Distinct(kept)
      invariant Dots(kept) == set e | e in Dots(dots[..i]) && !Before(e, d)
    {
      DotsSnoc(dots, i);
      DistinctPrefix(dots, i);
      if !Before(dots[i], d) {
        Appended(kept, dots[i]);
        kept := kept + [dots[i]];
      }
    }
    assert dots[..|dots|] == dots;
  }

  lemma NoDots()
    ensures Distinct<Dot>([]) && Dots([]) == {}
  {
  }

  /** A write taken for `d` is not before it, so it was kept. */
  lemma EchoIsKept(dots: seq<Dot>, kept: seq<Dot>, d: Dot, dup: bool)
    requires forall j :: 0 <= j < |dots| ==> !Before(d, dots[j]) && !SameDot(d, dots[j])
    requires Dots(kept) == set e | e in Dots(dots) && !Before(e, d)
    requires dup <==> exists j :: 0 <= j < |kept| && SameDot(kept[j], d)
    ensures !Stale(Dots(dots), d) && (dup <==> Echoed(Dots(dots), d)) && d !in Dots(dots)
  {
    NeverBeforeItself(d);
    assert forall e :: SameDot(e, d) ==> !Before(e, d);
    hide Before, SameDot;
    assert forall j :: 0 <= j < |kept| ==> kept[j] in Dots(kept);
    if e :| e in Dots(dots) && SameDot(e, d) {
      assert e in Dots(kept);
      var j :| 0 <= j < |kept| && kept[j] == e;
    }
  }

  /** `conflicted`: more than one distinct live value. */
  method IsConflicted(dots: seq<Dot>) returns (b: bool)
    ensures b <==> Conflicted(Dots(dots))
  {
    var distinct: seq<Str> := [];
    for i := 0 to |dots|
      invariant forall v :: v in distinct <==> exists j :: 0 <= j < i && dots[j].value == v
      invariant Distinct(distinct)
    {
      if dots[i].value !in distinct { distinct := distinct + [dots[i].value]; }
    }
    b := |distinct| > 1;
    assert forall d :: d in Dots(dots) ==> d.value in distinct;
    if b {
      assert distinct[0] in distinct && distinct[1] in distinct;
      var i :| 0 <= i < |dots| && dots[i].value == distinct[0];
      var j :| 0 <= j < |dots| && dots[j].value == distinct[1];
      assert dots[i] in Dots(dots) && dots[j] in Dots(dots);
    }
  }

  // ---------- the deterministic read ----------

  datatype Tiebreak = Tiebreak(ctr: u64, value: Str, actor: Str)

  function LwwKey(d: Dot): Tiebreak { Tiebreak(Get(d.clock, d.actor), d.value, d.actor) }

  predicate Greater(a: Tiebreak, b: Tiebreak) {
    if a.ctr != b.ctr then a.ctr > b.ctr
    else if a.value != b.value then Less(b.value, a.value)
    else Less(b.actor, a.actor)
  }

  lemma GreaterIsTotalOrder(a: Tiebreak, b: Tiebreak, c: Tiebreak)
    ensures a == b || Greater(a, b) || Greater(b, a)
    ensures Greater(a, b) && Greater(b, c) ==> Greater(a, c)
    ensures !Greater(a, a)
  {
    LessTrichotomy(a.value, b.value); LessTrichotomy(b.value, c.value); LessTrichotomy(a.value, c.value);
    LessTrichotomy(a.actor, b.actor);
    if Greater(a, b) && Greater(b, c) {
      if Less(b.value, a.value) && Less(c.value, b.value) { LessTransitive(c.value, b.value, a.value); }
      if Less(b.actor, a.actor) && Less(c.actor, b.actor) { LessTransitive(c.actor, b.actor, a.actor); }
    }
  }

  /** `v` is the value of a live write that no other live write beats. */
  predicate IsLww(s: set<Dot>, v: Str) {
    exists d :: d in s && d.value == v && forall e :: e in s ==> !Greater(LwwKey(e), LwwKey(d))
  }

  lemma LwwIsUnique(s: set<Dot>, v: Str, w: Str)
    requires IsLww(s, v) && IsLww(s, w)
    ensures v == w
  {
    var d :| d in s && d.value == v && forall e :: e in s ==> !Greater(LwwKey(e), LwwKey(d));
    var f :| f in s && f.value == w && forall e :: e in s ==> !Greater(LwwKey(e), LwwKey(f));
    GreaterIsTotalOrder(LwwKey(d), LwwKey(f), LwwKey(d));
  }

  method LwwValue(dots: seq<Dot>) returns (v: Option<Str>)
    ensures v.None? <==> dots == []
    ensures v.Some? ==> IsLww(Dots(dots), v.value)
    ensures v.Some? ==> exists d :: d in dots && d.value == v.value && Tops(d, Dots(dots))
  {
    if dots == [] { return None; }
    var best := dots[0];
    GreaterIsTotalOrder(LwwKey(best), LwwKey(best), LwwKey(best));
    for i := 1 to |dots|
      invariant best in dots[..i]
      invariant forall j :: 0 <= j < i ==> !Greater(LwwKey(dots[j]), LwwKey(best))
    {
      forall j | 0 <= j < i ensures Greater(LwwKey(dots[i]), LwwKey(best)) ==> !Greater(LwwKey(dots[j]), LwwKey(dots[i])) {
        GreaterIsTotalOrder(LwwKey(dots[j]), LwwKey(dots[i]), LwwKey(best));
      }
      GreaterIsTotalOrder(LwwKey(dots[i]), LwwKey(dots[i]), LwwKey(best));
      if Greater(LwwKey(dots[i]), LwwKey(best)) { best := dots[i]; }
    }
    assert best in Dots(dots);
    UnbeatenTops(best, Dots(dots));
    v := Some(best.value);
  }

  // ---------- which write the read picks ----------

  /** A write's own counter. */
  function Own(d: Dot): u64 { Get(d.clock, d.actor) }

  /** The write has the highest own counter of all, and the largest value among those that have it. */
  predicate Tops(d: Dot, s: set<Dot>) {
    (forall e :: e in s ==> Own(e) <= Own(d))
    && forall e :: e in s && Own(e) == Own(d) ==> e.value == d.value || Less(e.value, d.value)
  }

  lemma UnbeatenTops(d: Dot, s: set<Dot>)
    requires d in s && forall e :: e in s ==> !Greater(LwwKey(e), LwwKey(d))
    ensures Tops(d, s)
  {
    forall e | e in s ensures Own(e) <= Own(d) && (Own(e) == Own(d) ==> e.value == d.value || Less(e.value, d.value)) {
      LessTrichotomy(e.value, d.value);
    }
  }

  predicate Unbeaten(d: Dot, s: set<Dot>) { forall e :: e in s ==> !Greater(LwwKey(e), LwwKey(d)) }

  lemma BeatsBoth(s: set<Dot>, d: Dot, m: Dot)
    requires Unbeaten(m, s) && m in s
    ensures Greater(LwwKey(m), LwwKey(d)) ==> Unbeaten(m, s + {d})
    ensures !Greater(LwwKey(m), LwwKey(d)) ==> Unbeaten(d, s + {d})
  {
    hide Greater, LwwKey;
    GreaterIsTotalOrder(LwwKey(d), LwwKey(m), LwwKey(d));
    forall e | e in s ensures !Greater(LwwKey(m), LwwKey(d)) ==> !Greater(LwwKey(e), LwwKey(d)) {
      GreaterIsTotalOrder(LwwKey(e), LwwKey(d), LwwKey(m));
      GreaterIsTotalOrder(LwwKey(m), LwwKey(d), LwwKey(d));
    }
  }

  lemma {:induction false} SomeUnbeaten(s: set<Dot>) returns (d: Dot)
    requires s != {}
    ensures d in s && Unbeaten(d, s)
    decreases s
  {
    var x :| x in s;
    var rest := s - {x};
    assert rest + {x} == s;
    if rest == {} {
      d := x;
      GreaterIsTotalOrder(LwwKey(x), LwwKey(x), LwwKey(x));
    } else {
      var m := SomeUnbeaten(rest);
      hide Unbeaten, Greater;
      BeatsBoth(rest, x, m);
      d := if Greater(LwwKey(m), LwwKey(x)) then m else x;
    }
  }

  /** The value read is the largest value among the live writes with the highest own counter. */
  lemma ReadExactly(s: set<Dot>, v: Str)
    ensures IsLww(s, v) <==> exists d :: d in s && d.value == v && Tops(d, s)
  {
    if IsLww(s, v) {
      var d :| d in s && d.value == v && forall e :: e in s ==> !Greater(LwwKey(e), LwwKey(d));
      UnbeatenTops(d, s);
    }
    if d :| d in s && d.value == v && Tops(d, s) {
      var m := SomeUnbeaten(s);
      UnbeatenTops(m, s);
      assert Own(m) == Own(d);
      LessTrichotomy(m.value, d.value);
    }
  }

  /** So a write whose own counter is above every other's is the one read. */
  lemma HighestCounterWins(s: set<Dot>, d: Dot, v: Str)
    requires d in s && IsLww(s, v) && forall e :: e in s && e != d ==> Own(e) < Own(d)
    ensures v == d.value
  {
    ReadExactly(s, v);
  }

  /** The order of a register: by actor, and by value within an actor. */
  lemma OrderedExactly(s: seq<Dot>)
    ensures Ordered(s) <==>
              forall i, j :: 0 <= i < j < |s| ==>
                Less(s[i].actor, s[j].actor)
                || (s[i].actor == s[j].actor && (s[i].value == s[j].value || Less(s[i].value, s[j].value)))
  {
    forall i, j | 0 <= i < j < |s|
      ensures !DotLess(s[j], s[i])
         <==> Less(s[i].actor, s[j].actor)
              || (s[i].actor == s[j].actor && (s[i].value == s[j].value || Less(s[i].value, s[j].value)))
    {
      LessTrichotomy(s[i].actor, s[j].actor);
      LessTrichotomy(s[i].value, s[j].value);
    }
  }
}
