/** Belief documents: the open-conflict list is exactly the index of the contested registers. */
module Beliefs {
  import opened Machine
  import opened Clocks
  import opened Register
  import opened Documents
  import Convergence

  // ---------- the open-conflict list agrees with the registers ----------

  /** The conflict a register holds, if any: its live writes when they carry distinct values. */
  function Contested(s: set<Dot>): Option<set<Dot>> {
    if Conflicted(s) then Some(s) else None
  }

  function OpenAt(v: View, key: Str): Option<set<Dot>> {
    if key in v.open then Some(v.open[key]) else None
  }

  /** An entry is open exactly for the subjects whose register holds two or more distinct values, with
      the live writes as candidates. */
  ghost predicate Agrees(v: View) { forall k :: OpenAt(v, k) == Contested(Reg(v, k)) }

  predicate BeliefOnly(events: seq<Event>) {
    forall e :: e in events && e.Deliver? ==> e.w.belief
  }

  lemma StampedOpen(v: View, w: Write, key: Str)
    ensures OpenAt(ApplyStamped(v, w), key) ==
            if w.belief && key in w.patch then Contested(RegAfter(v, w, key)) else OpenAt(v, key)
  {
    var after := OpenAfter(v, w);
    assert w.belief && key in after ==> key in v.open.Keys + w.patch.Keys && (key in w.patch ==> Conflicted(RegAfter(v, w, key)));
    assert w.belief && key in v.open.Keys + w.patch.Keys && (key in w.patch ==> Conflicted(RegAfter(v, w, key))) ==> key in after;
  }

  lemma ApplyKeepsIndex(v: View, w: Write)
    requires Agrees(v) && w.belief
    ensures Agrees(Apply(v, w))
  {
    var w' := Stamped(v, w);
    var v' := ApplyStamped(v, w');
    forall k ensures OpenAt(v', k) == Contested(Reg(v', k)) {
      StampedReg(v, w', k);
      StampedOpen(v, w', k);
      assert OpenAt(v, k) == Contested(Reg(v, k));
    }
  }

  /** In every run of belief ops and resolutions the list is exactly the index of the registers. */
  lemma {:induction false} IndexAgreement(events: seq<Event>)
    requires BeliefOnly(events)
    ensures Agrees(Run(EmptyView, events))
  {
    if events != [] {
      var init, e := events[..|events| - 1], events[|events| - 1];
      assert forall x :: x in init ==> x in events;
      assert e in events;
      IndexAgreement(init);
      var u := Run(EmptyView, init);
      match e
      case Deliver(w) => ApplyKeepsIndex(u, w);
      case Decide(r, s, x) => ApplyKeepsIndex(u, Resolution(u, r, s, x));
    }
  }

  /** Absorbing `d` leaves what is contested as it was: `d` is stale, or a live write is taken for it and it
      supersedes none, or the register is uncontested and every write `d` leaves standing agrees with it. */
  predicate Undisputed(s: set<Dot>, d: Dot) {
    Stale(s, d)
    || (Echoed(s, d) && forall e :: e in s ==> !Before(e, d))
    || (!Conflicted(s) && forall e :: e in s && !Before(e, d) ==> e.value == d.value)
  }

  lemma UndisputedExactly(s: set<Dot>, d: Dot)
    ensures Contested(Absorbed(s, d)) == Contested(s) <==> Undisputed(s, d)
  {
    NeverBeforeItself(d);
    hide Before, SameDot;
    if !Stale(s, d) {
      assert d !in s;
      if Echoed(s, d) { EchoedExactly(s, d); } else { AddedExactly(s, d); }
    }
  }

  lemma EchoedExactly(s: set<Dot>, d: Dot)
    requires !Stale(s, d) && Echoed(s, d)
    ensures Contested(Absorbed(s, d)) == Contested(s) <==> Undisputed(s, d)
  {
    var x :| x in s && SameDot(x, d);
    assert !Before(x, d) && x.value == d.value;
    hide Before, SameDot;
    var kept := set e | e in s && !Before(e, d);
    assert x in kept && Absorbed(s, d) == kept <= s;
    if Conflicted(s) {
      assert kept == s <==> forall e :: e in s ==> !Before(e, d);
    }
  }

  lemma AddedExactly(s: set<Dot>, d: Dot)
    requires !Stale(s, d) && !Echoed(s, d) && d !in s
    ensures Contested(Absorbed(s, d)) == Contested(s) <==> Undisputed(s, d)
  {
    hide Before, SameDot;
    var kept := set e | e in s && !Before(e, d);
    assert Absorbed(s, d) == kept + {d} && d in kept + {d};
    if e :| e in kept && e.value != d.value { assert e in kept + {d}; }
  }

  lemma UntouchedListExactly(v: View, v': View, touched: set<Str>)
    requires Agrees(v) && v'.open == v.open
    requires forall k :: k !in touched ==> Reg(v', k) == Reg(v, k)
    ensures Agrees(v') <==> forall k :: k in touched ==> Contested(Reg(v', k)) == Contested(Reg(v, k))
  {
    forall k ensures OpenAt(v', k) == Contested(Reg(v, k)) { assert OpenAt(v, k) == Contested(Reg(v, k)); }
  }

  lemma TouchedExactly(v: View, w: Write, k: Str)
    requires k in w.patch
    ensures Contested(Reg(Apply(v, w), k)) == Contested(Reg(v, k)) <==> Undisputed(Reg(v, k), DotOf(Stamped(v, w), k))
  {
    hide Apply, Absorbed, Contested, Undisputed;
    ApplyReg(v, w, k);
    UndisputedExactly(Reg(v, k), DotOf(Stamped(v, w), k));
  }

  lemma OtherDomainKeepsList(v: View, w: Write)
    requires !w.belief
    ensures Apply(v, w).open == v.open && forall k :: k !in w.patch ==> Reg(Apply(v, w), k) == Reg(v, k)
  {
    hide Absorbed;
  }

  /** A write from another domain does not touch the list, so it keeps the agreement exactly when it is
      undisputed in every register it touches. */
  lemma OtherDomainExactly(v: View, w: Write)
    requires Agrees(v) && !w.belief
    ensures Agrees(Apply(v, w)) <==> forall k :: k in w.patch ==> Undisputed(Reg(v, k), DotOf(Stamped(v, w), k))
  {
    hide Undisputed, Contested, Apply, Agrees;
    OtherDomainKeepsList(v, w);
    UntouchedListExactly(v, Apply(v, w), w.patch.Keys);
    forall k | k in w.patch
      ensures Contested(Reg(Apply(v, w), k)) == Contested(Reg(v, k)) <==> Undisputed(Reg(v, k), DotOf(Stamped(v, w), k))
    {
      TouchedExactly(v, w, k);
    }
  }

  /** For belief documents convergence includes the open-conflict list: equal views. */
  lemma {:induction false} BeliefReplicasAgree(log: seq<Write>, other: seq<Write>)
    requires Convergence.Causal(log) && Convergence.Writes(log) == Convergence.Writes(other)
    requires forall w :: w in log ==> w.belief
    ensures Replay(log) == Replay(other)
  {
    Convergence.Converge(log, other);
    assert forall w :: w in other ==> w in Convergence.Writes(log);
    ReplayAgrees(log);
    ReplayAgrees(other);
    SameOpen(Replay(log), Replay(other));
  }

  lemma SameOpen(p: View, q: View)
    requires Agrees(p) && Agrees(q) && p.regs == q.regs
    ensures p.open == q.open
  {
    forall k ensures OpenAt(p, k) == OpenAt(q, k) { assert Reg(p, k) == Reg(q, k); }
    forall k | k in p.open || k in q.open ensures k in p.open && k in q.open && p.open[k] == q.open[k] {
      assert OpenAt(p, k) == OpenAt(q, k);
    }
  }

  lemma {:induction false} ReplayAgrees(log: seq<Write>)
    requires forall w :: w in log ==> w.belief
    ensures Agrees(Replay(log))
  {
    if log != [] {
      ReplayAgrees(log[..|log| - 1]);
      ApplyKeepsIndex(Replay(log[..|log| - 1]), log[|log| - 1]);
    }
  }

  lemma {:induction false} RunSnoc(v: View, events: seq<Event>, e: Event)
    ensures Run(v, events + [e]) == Step(Run(v, events), e)
  {
    assert (events + [e])[..|events|] == events;
  }

  /** Two delivered writes to a subject, neither of them before the other, both stay. */
  lemma TwoSides(p: Write, q: Write, subject: Str)
    requires |p.clock| > 0 && |q.clock| > 0 && p.patch.Keys == q.patch.Keys == {subject}
    requires !Before(DotOf(p, subject), DotOf(q, subject)) && !Before(DotOf(q, subject), DotOf(p, subject))
    requires !SameDot(DotOf(q, subject), DotOf(p, subject)) && !SameDot(DotOf(p, subject), DotOf(q, subject))
    ensures Reg(Run(EmptyView, [Deliver(p), Deliver(q)]), subject) == {DotOf(p, subject), DotOf(q, subject)}
  {
    hide Apply, Absorbed, Before, SameDot;
    assert Run(EmptyView, []) == EmptyView && Reg(EmptyView, subject) == {};
    assert [] + [Deliver(p)] == [Deliver(p)] && [Deliver(p)] + [Deliver(q)] == [Deliver(p), Deliver(q)];
    RunSnoc(EmptyView, [], Deliver(p));
    RunSnoc(EmptyView, [Deliver(p)], Deliver(q));
    Convergence.CausalReg(EmptyView, p, subject);
    Convergence.CausalReg(Apply(EmptyView, p), q, subject);
    Convergence.FirstWrite(DotOf(p, subject));
    Convergence.AbsorbedPair(DotOf(p, subject), DotOf(q, subject));
  }

  lemma TwoAgents(a: Str, b: Str, d: Dot, e: Dot, n: Dot)
    requires a != b && d.clock == map[a := 1] && e.clock == map[b := 1] && n.clock == map[a := 2, b := 1]
    ensures !Before(d, e) && !Before(e, d) && (d.value != e.value ==> !SameDot(e, d) && !SameDot(d, e))
    ensures !Before(n, d) && !Before(n, e) && !SameDot(n, d) && !SameDot(n, e) && !SameDot(d, n) && !SameDot(e, n)
  {
    assert d.clock[a] > Get(e.clock, a) && e.clock[b] > Get(d.clock, b);
    assert n.clock[a] > Get(d.clock, a) && n.clock[a] > Get(e.clock, a);
    assert |n.clock| == 2 && |d.clock| == 1 && |e.clock| == 1;
  }

  lemma DisputedPair(d: Dot, e: Dot, n: Dot)
    requires d.value != e.value && !Before(n, d) && !Before(n, e)
    requires !SameDot(n, d) && !SameDot(n, e) && !SameDot(d, n) && !SameDot(e, n)
    ensures !Undisputed({d, e}, n)
  {
    hide Before, SameDot;
    assert d in {d, e} && e in {d, e};
  }

  lemma {:induction false} DisputedWrite(two: seq<Event>, w: Write, subject: Str, d: Dot, e: Dot)
    requires Agrees(Run(EmptyView, two)) && Reg(Run(EmptyView, two), subject) == {d, e}
    requires !w.belief && |w.clock| > 0 && subject in w.patch && !Undisputed({d, e}, DotOf(w, subject))
    ensures !Agrees(Run(EmptyView, two + [Deliver(w)]))
  {
    var v := Run(EmptyView, two);
    assert Stamped(v, w) == w;
    RunSnoc(EmptyView, two, Deliver(w));
    hide Undisputed, Apply, Run, Agrees;
    OtherDomainExactly(v, w);
  }

  lemma TwoBeliefs(p: Write, q: Write, subject: Str)
    requires p.belief && q.belief && |p.clock| > 0 && |q.clock| > 0 && p.patch.Keys == q.patch.Keys == {subject}
    requires !Before(DotOf(p, subject), DotOf(q, subject)) && !Before(DotOf(q, subject), DotOf(p, subject))
    requires !SameDot(DotOf(q, subject), DotOf(p, subject)) && !SameDot(DotOf(p, subject), DotOf(q, subject))
    ensures Agrees(Run(EmptyView, [Deliver(p), Deliver(q)]))
    ensures Reg(Run(EmptyView, [Deliver(p), Deliver(q)]), subject) == {DotOf(p, subject), DotOf(q, subject)}
  {
    hide Agrees, Run, Reg, Before, SameDot;
    TwoSides(p, q, subject);
    IndexAgreement([Deliver(p), Deliver(q)]);
  }

  /** Two agents disagree and a write from another domain supersedes both: the conflict stays listed
      although the register is no longer contested. */
  lemma OtherDomainExample(a: Str, b: Str, subject: Str, p: Write, q: Write, w: Write)
    requires a != b && p.patch.Keys == q.patch.Keys == w.patch.Keys == {subject} && p.patch[subject] != q.patch[subject]
    requires p.clock == map[a := 1] && q.clock == map[b := 1] && w.clock == map[a := 2, b := 1]
    requires p.belief && q.belief && !w.belief
    ensures Agrees(Run(EmptyView, [Deliver(p), Deliver(q)])) && !Agrees(Run(EmptyView, [Deliver(p), Deliver(q)] + [Deliver(w)]))
  {
    assert a in p.clock && b in q.clock && a in w.clock;
    hide Before, SameDot, Apply, Run, Agrees, Undisputed, Reg;
    TwoAgents(a, b, DotOf(p, subject), DotOf(q, subject), DotOf(w, subject));
    TwoBeliefs(p, q, subject);
    DisputedPair(DotOf(p, subject), DotOf(q, subject), DotOf(w, subject));
    DisputedWrite([Deliver(p), Deliver(q)], w, subject, DotOf(p, subject), DotOf(q, subject));
  }
}
