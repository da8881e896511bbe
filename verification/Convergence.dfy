/** Replicas that receive the same ops, in any order and any number of times, hold the same document. */
module Convergence {
  import opened Machine
  import opened Clocks
  import opened Register
  import opened Documents

  function Writes(log: seq<Write>): set<Write> { set w | w in log }

  /** The writes a set of ops makes to a key. */
  function DotsFor(ws: set<Write>, key: Str): set<Dot> { set w | w in ws && key in w.patch :: DotOf(w, key) }

  /** Ops that carry a causal context which orders the writes to each key. */
  ghost predicate CausalSet(ws: set<Write>) {
    (forall w :: w in ws ==> |w.clock| > 0) && forall key :: Tame(DotsFor(ws, key))
  }

  ghost predicate Causal(log: seq<Write>) { CausalSet(Writes(log)) }

  /** Ops whose clocks carry no zero entry are causal. */
  lemma ZeroFreeIsCausal(log: seq<Write>)
    requires forall w :: w in log ==> |w.clock| > 0 && ZeroFree(w.clock)
    ensures Causal(log)
  {
    forall key ensures Tame(DotsFor(Writes(log), key)) { ZeroFreeIsTame(DotsFor(Writes(log), key)); }
  }

  lemma CausalSubset(ws: set<Write>, us: set<Write>)
    requires CausalSet(us) && ws <= us
    ensures CausalSet(ws)
  {
    forall key ensures Tame(DotsFor(ws, key)) { TameSubset(DotsFor(ws, key), DotsFor(us, key)); }
  }

  lemma DeliveredIsDotsFor(log: seq<Write>, key: Str)
    ensures Delivered(log, key) == DotsFor(Writes(log), key)
  {
  }

  /** The reference definition of the document clock: zero-free, above every op's clock, and each
      entry reached by some op. */
  ghost predicate IsJoin(c: Clock, ws: set<Write>) {
    ZeroFree(c)
    && (forall w :: w in ws ==> DominatedBy(w.clock, c))
    && (forall k :: k in c ==> exists w :: w in ws && Get(w.clock, k) == c[k])
  }

  lemma JoinIsUnique(c: Clock, d: Clock, ws: set<Write>)
    requires IsJoin(c, ws) && IsJoin(d, ws)
    ensures c == d
  {
    JoinIsBelow(c, d, ws);
    JoinIsBelow(d, c, ws);
    EqualIsEquality(c, d);
  }

  lemma JoinIsBelow(c: Clock, d: Clock, ws: set<Write>)
    requires IsJoin(c, ws) && IsJoin(d, ws)
    ensures DominatedBy(c, d)
  {
    forall k | k in c ensures c[k] <= Get(d, k) {
      var w :| w in ws && Get(w.clock, k) == c[k];
      assert DominatedBy(w.clock, d);
    }
  }

  lemma JoinStep(c: Clock, ws: set<Write>, w: Write)
    requires IsJoin(c, ws)
    ensures IsJoin(Join(c, w.clock), ws + {w})
  {
    var j := Join(c, w.clock);
    JoinIsAbove(c, w.clock);
    forall x | x in ws + {w} ensures DominatedBy(x.clock, j) {
      if x in ws { DominatedTransitive(x.clock, c, j); }
    }
    forall k | k in j ensures exists x :: x in ws + {w} && Get(x.clock, k) == j[k] {
      JoinGet(c, w.clock, k);
      if j[k] == Get(w.clock, k) {
        assert w in ws + {w};
      } else {
        assert k in c && j[k] == c[k];
        var x :| x in ws && Get(x.clock, k) == c[k];
        assert x in ws + {w};
      }
    }
  }

  lemma DeliveredSnoc(log: seq<Write>, w: Write, key: Str)
    ensures Delivered(log + [w], key) == Delivered(log, key) + if key in w.patch then {DotOf(w, key)} else {}
  {
    assert forall x :: x in log + [w] <==> x in log || x == w;
  }

  lemma WritesSnoc(log: seq<Write>)
    requires log != []
    ensures Writes(log) == Writes(log[..|log| - 1]) + {log[|log| - 1]}
  {
    assert log == log[..|log| - 1] + [log[|log| - 1]];
  }

  lemma {:induction false} RegistersAreMaximal(log: seq<Write>)
    requires Causal(log)
    ensures forall key :: Reg(Replay(log), key) == Maximal(Delivered(log, key))
  {
    if log == [] {
      assert forall key :: Delivered(log, key) == {};
    } else {
      var init, w := log[..|log| - 1], log[|log| - 1];
      assert log == init + [w];
      assert w in Writes(log);
      CausalSubset(Writes(init), Writes(log));
      hide Tame, Maximal, CausalSet;
      RegistersAreMaximal(init);
      forall key ensures Reg(Replay(log), key) == Maximal(Delivered(log, key)) {
        FrontierStep(init, w, key);
        CausalReg(Replay(init), w, key);
      }
    }
  }

  /** After any delivery sequence each register is exactly the set of happens-before-maximal writes
      delivered for its key, and the document clock is the join of the delivered clocks. */
  lemma {:induction false} Frontier(log: seq<Write>)
    requires Causal(log)
    ensures forall key :: Reg(Replay(log), key) == Maximal(Delivered(log, key))
    ensures IsJoin(Replay(log).clock, Writes(log))
  {
    assert forall w :: w in log ==> w in Writes(log);
    ClockIsJoin(log);
    hide IsJoin, Maximal, Replay;
    RegistersAreMaximal(log);
  }

  lemma FrontierStep(init: seq<Write>, w: Write, key: Str)
    requires Causal(init + [w])
    ensures Maximal(Delivered(init + [w], key)) ==
            if key in w.patch then Absorbed(Maximal(Delivered(init, key)), DotOf(w, key)) else Maximal(Delivered(init, key))
  {
    DeliveredSnoc(init, w, key);
    DeliveredIsDotsFor(init + [w], key);
    hide Tame, Absorbed, Maximal, Delivered, DotsFor;
    if key in w.patch {
      AbsorbKeepsFrontier(Delivered(init, key), DotOf(w, key));
    } else {
      assert Delivered(init, key) + {} == Delivered(init, key);
    }
  }

  lemma CausalReg(v: View, w: Write, key: Str)
    requires |w.clock| > 0
    ensures Reg(Apply(v, w), key) == RegAfter(v, w, key) && Apply(v, w).clock == Join(v.clock, w.clock)
  {
    ApplyReg(v, w, key);
    assert Stamped(v, w) == w;
  }

  lemma ApplyKeys(v: View, w: Write)
    ensures Apply(v, w).regs.Keys == v.regs.Keys + w.patch.Keys
  {
  }

  function WrittenKeys(ws: set<Write>): set<Str> { set w, k | w in ws && k in w.patch :: k }

  lemma WrittenKeysSnoc(ws: set<Write>, w: Write)
    ensures WrittenKeys(ws + {w}) == WrittenKeys(ws) + w.patch.Keys
  {
  }

  lemma {:induction false} ReplayKeys(log: seq<Write>)
    ensures Replay(log).regs.Keys == WrittenKeys(Writes(log))
  {
    if log == [] {
      assert Writes(log) == {};
    } else {
      var init, w := log[..|log| - 1], log[|log| - 1];
      ReplayKeys(init);
      assert Writes(log) == Writes(init) + {w} by { WritesSnoc(log); }
      WrittenKeysSnoc(Writes(init), w);
      ApplyKeys(Replay(init), w);
    }
  }

  lemma SameWrites(log: seq<Write>, other: seq<Write>, key: Str)
    requires Writes(log) == Writes(other)
    ensures Delivered(log, key) == Delivered(other, key)
    ensures Causal(log) ==> Causal(other)
  {
    assert forall w :: w in log <==> w in Writes(log);
    assert forall w :: w in other <==> w in Writes(other);
  }

  lemma SameRegs(p: View, q: View)
    requires p.regs.Keys == q.regs.Keys && forall k :: Reg(p, k) == Reg(q, k)
    ensures p.regs == q.regs
  {
    forall k | k in p.regs ensures p.regs[k] == q.regs[k] { assert Reg(p, k) == Reg(q, k); }
  }

  lemma {:induction false} ClockIsJoin(log: seq<Write>)
    requires forall w :: w in log ==> |w.clock| > 0
    ensures IsJoin(Replay(log).clock, Writes(log))
  {
    if log == [] {
    } else {
      var init, w := log[..|log| - 1], log[|log| - 1];
      ClockIsJoin(init);
      CausalReg(Replay(init), w, []);
      JoinStep(Replay(init).clock, Writes(init), w);
      WritesSnoc(log);
    }
  }

  /** Document clocks converge whatever the ops' clocks are. */
  lemma {:induction false} ClocksConverge(log: seq<Write>, other: seq<Write>)
    requires Writes(log) == Writes(other) && forall w :: w in log ==> |w.clock| > 0
    ensures Replay(log).clock == Replay(other).clock
  {
    assert forall w :: w in other ==> w in Writes(log);
    ClockIsJoin(log);
    ClockIsJoin(other);
    JoinIsUnique(Replay(log).clock, Replay(other).clock, Writes(log));
  }

  /** Strong eventual consistency: the same ops delivered in any order, with any repetition, give the
      same clock, the same registers, and hence the same value for every read. */
  lemma {:induction false} Converge(log: seq<Write>, other: seq<Write>)
    requires Causal(log) && Writes(log) == Writes(other)
    ensures Replay(log).clock == Replay(other).clock
    ensures Replay(log).regs == Replay(other).regs
  {
    SameWrites(log, other, []);
    Frontier(log);
    Frontier(other);
    var p, q := Replay(log), Replay(other);
    JoinIsUnique(p.clock, q.clock, Writes(log));
    ReplayKeys(log);
    ReplayKeys(other);
    forall key ensures Reg(p, key) == Reg(q, key) { SameWrites(log, other, key); }
    SameRegs(p, q);
  }

  /** Any two reads of a key on converged replicas return the same value. */
  lemma {:induction false} ReadsAgree(log: seq<Write>, other: seq<Write>, key: Str, a: Str, b: Str)
    requires Causal(log) && Writes(log) == Writes(other)
    requires IsLww(Reg(Replay(log), key), a) && IsLww(Reg(Replay(other), key), b)
    ensures a == b
  {
    Converge(log, other);
    LwwIsUnique(Reg(Replay(log), key), a, b);
  }

  /** Replicas converge whatever mix of deliveries, local ticks and resolutions produced their writes. */
  lemma {:induction false} RunsConverge(p: seq<Event>, q: seq<Event>)
    requires Causal(Log(p)) && Writes(Log(p)) == Writes(Log(q))
    ensures Run(EmptyView, p).clock == Run(EmptyView, q).clock && Run(EmptyView, p).regs == Run(EmptyView, q).regs
  {
    hide Run, Log, Replay;
    RunIsReplay(p);
    RunIsReplay(q);
    Converge(Log(p), Log(q));
  }

  // ---------- exactly when replicas converge ----------

  lemma TwoWrites(p: Write, q: Write, key: Str)
    requires |p.clock| > 0 && |q.clock| > 0 && key in p.patch && key in q.patch
    ensures Reg(Replay([p, q]), key) == Absorbed({DotOf(p, key)}, DotOf(q, key))
  {
    assert Replay([]) == EmptyView && Reg(EmptyView, key) == {};
    assert [] + [p] == [p] && [p] + [q] == [p, q];
    hide Apply, Absorbed, Replay, Reg;
    ReplaySnoc([], p);
    ReplaySnoc([p], q);
    CausalReg(EmptyView, p, key);
    CausalReg(Replay([p]), q, key);
    FirstWrite(DotOf(p, key));
  }

  lemma ThreeWrites(p: Write, q: Write, r: Write, key: Str)
    requires |p.clock| > 0 && |q.clock| > 0 && |r.clock| > 0 && key in p.patch && key in q.patch && key in r.patch
    ensures Reg(Replay([p, q, r]), key) == Absorbed(Absorbed({DotOf(p, key)}, DotOf(q, key)), DotOf(r, key))
  {
    assert [p, q] + [r] == [p, q, r];
    hide Apply, Absorbed, Replay, Reg;
    TwoWrites(p, q, key);
    ReplaySnoc([p, q], r);
    CausalReg(Replay([p, q]), r, key);
  }

  lemma FirstWrite(d: Dot)
    ensures Absorbed({}, d) == {d}
  {
  }

  lemma AbsorbedPair(d: Dot, e: Dot)
    ensures Absorbed({d}, e) ==
            if Before(e, d) || SameDot(e, d) then {d} else if Before(d, e) then {e} else if SameDot(d, e) then {d} else {d, e}
  {
    assert Before(d, e) ==> !SameDot(d, e);
    hide Before, SameDot;
    assert d in {d};
  }

  /** Two different writes to a key give the same register in either order exactly when they are told
      apart. */
  lemma CommuteExactly(d: Dot, e: Dot)
    requires d != e
    ensures Absorbed({d}, e) == Absorbed({e}, d) <==> Told(d, e)
  {
    assert (Before(d, e) ==> !SameDot(d, e)) && (Before(e, d) ==> !SameDot(e, d));
    hide Before, SameDot, Absorbed;
    AbsorbedPair(d, e);
    AbsorbedPair(e, d);
    assert d in {d, e} && e in {d, e};
    assert d in {d} && e in {e} && d !in {e} && e !in {d};
  }

  /** Where happens-before is not transitive three writes diverge, even if any two of them commute. */
  lemma IntransitiveTriple(d: Dot, e: Dot, f: Dot)
    requires Told(d, e) && Told(e, f) && Told(d, f) && Before(d, e) && Before(e, f) && !Before(d, f)
    ensures Absorbed(Absorbed({d}, e), f) != Absorbed(Absorbed({d}, f), e)
  {
    hide Before, SameDot, Absorbed;
    NeverBeforeItself(e);
    AbsorbedPair(d, e);
    AbsorbedPair(e, f);
    AbsorbedPair(d, f);
    assert d in {d, f} && f in {d, f} && d !in {f} && e !in {f};
    StaleIsKept({d, f}, e, f);
  }

  lemma StaleIsKept(s: set<Dot>, d: Dot, e: Dot)
    requires e in s && Before(d, e)
    ensures Absorbed(s, d) == s
  {
  }

  /** Replicas that received the same of these ops always hold the same registers. */
  ghost predicate AlwaysConverges(ws: set<Write>) {
    forall p: seq<Write>, q: seq<Write> :: Writes(p) == Writes(q) <= ws ==> Replay(p).regs == Replay(q).regs
  }

  lemma {:induction false} SameReg(ws: set<Write>, p: seq<Write>, q: seq<Write>, key: Str)
    requires AlwaysConverges(ws) && Writes(p) == Writes(q) <= ws
    ensures Reg(Replay(p), key) == Reg(Replay(q), key)
  {
  }

  lemma ConvergingPair(ws: set<Write>, x: Write, y: Write, key: Str)
    requires AlwaysConverges(ws) && x in ws && y in ws && key in x.patch && key in y.patch && |x.clock| > 0 && |y.clock| > 0
    requires DotOf(x, key) != DotOf(y, key)
    ensures Told(DotOf(x, key), DotOf(y, key))
  {
    assert Writes([x, y]) == {x, y} == Writes([y, x]);
    SameReg(ws, [x, y], [y, x], key);
    hide Absorbed, Replay, Told, AlwaysConverges;
    TwoWrites(x, y, key);
    TwoWrites(y, x, key);
    CommuteExactly(DotOf(x, key), DotOf(y, key));
  }

  lemma ConvergingTriple(ws: set<Write>, x: Write, y: Write, z: Write, key: Str)
    requires AlwaysConverges(ws) && x in ws && y in ws && z in ws && key in x.patch && key in y.patch && key in z.patch
    requires |x.clock| > 0 && |y.clock| > 0 && |z.clock| > 0
    requires Before(DotOf(x, key), DotOf(y, key)) && Before(DotOf(y, key), DotOf(z, key))
    ensures Before(DotOf(x, key), DotOf(z, key))
  {
    var d, e, f := DotOf(x, key), DotOf(y, key), DotOf(z, key);
    NeverBeforeItself(e);
    assert Writes([x, y, z]) == {x, y, z} == Writes([x, z, y]);
    SameReg(ws, [x, y, z], [x, z, y], key);
    hide Absorbed, Replay, Before, SameDot, AlwaysConverges;
    ConvergingPair(ws, x, y, key);
    ConvergingPair(ws, y, z, key);
    if d != f { ConvergingPair(ws, x, z, key); }
    ThreeWrites(x, y, z, key);
    ThreeWrites(x, z, y, key);
    if !Before(d, f) { IntransitiveTriple(d, e, f); }
  }

  /** Strong eventual consistency holds for a set of ops if and only if happens-before orders the writes
      to each key. */
  lemma ConvergeExactly(ws: set<Write>)
    requires forall w :: w in ws ==> |w.clock| > 0
    ensures AlwaysConverges(ws) <==> CausalSet(ws)
  {
    hide Before, SameDot, Told, Replay;
    if CausalSet(ws) {
      forall p: seq<Write>, q: seq<Write> | Writes(p) == Writes(q) <= ws ensures Replay(p).regs == Replay(q).regs {
        CausalSubset(Writes(p), ws);
        Converge(p, q);
      }
    }
    if AlwaysConverges(ws) {
      forall key ensures Tame(DotsFor(ws, key)) { ConvergingIsTame(ws, key); }
    }
  }

  lemma ConvergingIsTame(ws: set<Write>, key: Str)
    requires AlwaysConverges(ws) && forall w :: w in ws ==> |w.clock| > 0
    ensures Tame(DotsFor(ws, key))
  {
    hide Before, SameDot, Told, Replay, AlwaysConverges;
    var s := DotsFor(ws, key);
    forall d, e | d in s && e in s && d != e ensures Told(d, e) {
      var x :| x in ws && key in x.patch && DotOf(x, key) == d;
      var y :| y in ws && key in y.patch && DotOf(y, key) == e;
      ConvergingPair(ws, x, y, key);
    }
    forall d, e, f | d in s && e in s && f in s && Before(d, e) && Before(e, f) ensures Before(d, f) {
      var x :| x in ws && key in x.patch && DotOf(x, key) == d;
      var y :| y in ws && key in y.patch && DotOf(y, key) == e;
      var z :| z in ws && key in z.patch && DotOf(z, key) == f;
      ConvergingTriple(ws, x, y, z, key);
    }
  }

  // ---------- how zero entries break it ----------

  /** Two ops whose clocks differ only in a zero entry leave whichever came first. */
  lemma ZeroEntryDiverges(a: Str, b: Str, key: Str, x: Str, y: Str)
    requires a != b
    ensures var p := Write(a, map[a := 0, b := 1], false, map[key := x]);
            var q := Write(b, map[b := 1], false, map[key := y]);
            Reg(Replay([p, q]), key) == {DotOf(p, key)} && Reg(Replay([q, p]), key) == {DotOf(q, key)}
  {
    var p := Write(a, map[a := 0, b := 1], false, map[key := x]);
    var q := Write(b, map[b := 1], false, map[key := y]);
    assert |p.clock| == 2 && |q.clock| == 1;
    assert Before(DotOf(p, key), DotOf(q, key)) && Before(DotOf(q, key), DotOf(p, key));
    hide Before, Absorbed, Replay;
    AbsorbedPair(DotOf(p, key), DotOf(q, key));
    AbsorbedPair(DotOf(q, key), DotOf(p, key));
    TwoWrites(p, q, key);
    TwoWrites(q, p, key);
  }

  /** `equal` is not symmetric on zero entries, and tested both ways: of two concurrent writes of one value
      by one actor whichever came first stays. */
  lemma AsymmetricEqualDiverges(a: Str, b: Str, key: Str, x: Str)
    requires a != b
    ensures var p := Write(a, map[a := 0], false, map[key := x]);
            var q := Write(a, map[b := 5], false, map[key := x]);
            Reg(Replay([p, q]), key) == {DotOf(p, key)} && Reg(Replay([q, p]), key) == {DotOf(q, key)}
            && !Before(DotOf(p, key), DotOf(q, key)) && !Before(DotOf(q, key), DotOf(p, key))
  {
    var p := Write(a, map[a := 0], false, map[key := x]);
    var q := Write(a, map[b := 5], false, map[key := x]);
    var d, e := DotOf(p, key), DotOf(q, key);
    assert |p.clock| == 1 && |q.clock| == 1;
    assert SameDot(d, e) && !Before(d, e);
    assert !Before(e, d) && !SameDot(e, d) by { assert b in e.clock && e.clock[b] > Get(d.clock, b); }
    hide Before, SameDot, Absorbed, Replay;
    AbsorbedPair(d, e);
    AbsorbedPair(e, d);
    TwoWrites(p, q, key);
    TwoWrites(q, p, key);
  }

  lemma IntransitiveClocks(a: Str, b: Str, c: Str, d: Str)
    requires a != b && a != c && a != d && b != c && b != d && c != d
    ensures var p: Clock, q: Clock, r: Clock := map[a := 0, d := 0], map[b := 3], map[b := 5, c := 1];
            HappensBefore(p, q) && HappensBefore(q, r) && Equal(p, r)
            && !DominatedBy(q, p) && !DominatedBy(r, q) && !DominatedBy(r, p)
  {
    var p: Clock, q: Clock, r: Clock := map[a := 0, d := 0], map[b := 3], map[b := 5, c := 1];
    assert |p| == 2 && |q| == 1 && |r| == 2;
    assert q[b] > Get(p, b) && r[b] > Get(q, b) && r[b] > Get(p, b);
  }

  lemma ToldIfAbove(d: Dot, e: Dot)
    requires !DominatedBy(e.clock, d.clock) && d.actor != e.actor
    ensures Told(d, e)
  {
  }

  /** Three ops of which any two commute, and which still diverge. */
  lemma IntransitiveDiverges(a: Str, b: Str, c: Str, d: Str, key: Str, x: Str)
    requires a != b && a != c && a != d && b != c && b != d && c != d
    ensures var p := Write(a, map[a := 0, d := 0], false, map[key := x]);
            var q := Write(b, map[b := 3], false, map[key := x]);
            var r := Write(c, map[b := 5, c := 1], false, map[key := x]);
            Told(DotOf(p, key), DotOf(q, key)) && Told(DotOf(q, key), DotOf(r, key)) && Told(DotOf(p, key), DotOf(r, key))
            && Reg(Replay([p, q, r]), key) != Reg(Replay([p, r, q]), key)
  {
    var p := Write(a, map[a := 0, d := 0], false, map[key := x]);
    var q := Write(b, map[b := 3], false, map[key := x]);
    var r := Write(c, map[b := 5, c := 1], false, map[key := x]);
    var e, f, g := DotOf(p, key), DotOf(q, key), DotOf(r, key);
    assert b in q.clock && b in r.clock && a in p.clock;
    IntransitiveClocks(a, b, c, d);
    hide Equal, DominatedBy, Absorbed, Replay, Told;
    ToldIfAbove(e, f);
    ToldIfAbove(f, g);
    ToldIfAbove(e, g);
    ThreeWrites(p, q, r, key);
    ThreeWrites(p, r, q, key);
    IntransitiveTriple(e, f, g);
  }
}
