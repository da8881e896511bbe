/** The clockless assertion path (cmd/cerberusd/rpc.go) is a simple map: each agent's latest value. */
module Assertions {
  import opened Machine
  import opened Clocks
  import opened Register
  import opened Documents
  import opened Beliefs
  import Convergence

  datatype Assertion = Assertion(actor: Str, subject: Str, value: Str)

  function AsWrite(a: Assertion): Write { Write(a.actor, map[], true, map[a.subject := a.value]) }

  function Events(hist: seq<Assertion>): seq<Event> {
    seq(|hist|, i requires 0 <= i < |hist| => Deliver(AsWrite(hist[i])))
  }

  /** How often `actor` asserted anything in the document. */
  function Count(hist: seq<Assertion>, actor: Str): (n: nat)
    ensures n <= |hist|
  {
    if hist == [] then 0
    else Count(hist[..|hist| - 1], actor) + if hist[|hist| - 1].actor == actor then 1 else 0
  }

  /** An agent's latest value for a subject, and the count at which it was asserted. */
  datatype Held = Held(value: Str, at: nat)

  function Latest(hist: seq<Assertion>, subject: Str): map<Str, Held> {
    if hist == [] then map[]
    else
      var init, a := hist[..|hist| - 1], hist[|hist| - 1];
      if a.subject == subject then Latest(init, subject)[a.actor := Held(a.value, Count(hist, a.actor))]
      else Latest(init, subject)
  }

  function HeldDot(actor: Str, h: Held): Dot { Dot(actor, h.value, map[actor := h.at % TWO64]) }

  function SimpleReg(m: map<Str, Held>): set<Dot> { set a | a in m :: HeldDot(a, m[a]) }

  lemma {:induction false} LatestIsPast(hist: seq<Assertion>, subject: Str)
    ensures forall a :: a in Latest(hist, subject) ==> 0 < Latest(hist, subject)[a].at <= Count(hist, a)
  {
    if hist != [] {
      LatestIsPast(hist[..|hist| - 1], subject);
      forall a | a in Latest(hist, subject) ensures 0 < Latest(hist, subject)[a].at <= Count(hist, a) {
        if a != hist[|hist| - 1].actor { assert a in Latest(hist[..|hist| - 1], subject); }
      }
    }
  }

  lemma SimpleRegUpdate(m: map<Str, Held>, actor: Str, h: Held)
    ensures SimpleReg(m[actor := h]) == (set x | x in SimpleReg(m) && x.actor != actor) + {HeldDot(actor, h)}
  {
    var m' := m[actor := h];
    forall a | a in m && a != actor ensures HeldDot(a, m[a]) in SimpleReg(m') { assert a in m'; }
    assert actor in m';
    forall x | x in SimpleReg(m') && x != HeldDot(actor, h) ensures x in SimpleReg(m) && x.actor != actor {
      assert x.actor in m && m[x.actor] == m'[x.actor];
    }
  }

  /** A new assertion replaces its actor's previous one and stands beside everyone else's. */
  lemma AbsorbReplaces(m: map<Str, Held>, actor: Str, h: Held)
    requires forall a :: a in m ==> 0 < m[a].at < TWO64
    requires actor in m ==> m[actor].at < h.at
    requires 0 < h.at < TWO64
    ensures Absorbed(SimpleReg(m), HeldDot(actor, h)) == SimpleReg(m[actor := h])
  {
    hide Before, SameDot, HeldDot, SimpleReg;
    forall x | x in SimpleReg(m)
      ensures !Before(HeldDot(actor, h), x) && !SameDot(HeldDot(actor, h), x) && !SameDot(x, HeldDot(actor, h))
      ensures Before(x, HeldDot(actor, h)) <==> x.actor == actor
    {
      ReplacesOwn(m, actor, h, x);
    }
    SimpleRegUpdate(m, actor, h);
  }

  lemma ReplacesOwn(m: map<Str, Held>, actor: Str, h: Held, x: Dot)
    requires x in SimpleReg(m) && forall a :: a in m ==> 0 < m[a].at < TWO64
    requires actor in m ==> m[actor].at < h.at
    requires 0 < h.at < TWO64
    ensures !Before(HeldDot(actor, h), x) && !SameDot(HeldDot(actor, h), x) && !SameDot(x, HeldDot(actor, h))
    ensures Before(x, HeldDot(actor, h)) <==> x.actor == actor
  {
    hide Equal, DominatedBy;
    SingleEntryClocks(x.actor, m[x.actor].at, actor, h.at);
  }

  lemma SingleEntryClocks(a: Str, n: nat, b: Str, k: nat)
    requires 0 < n < TWO64 && 0 < k < TWO64 && (a == b ==> n < k)
    ensures var p, q: Clock := map[a := n], map[b := k];
            !DominatedBy(q, p) && !Equal(q, p) && !Equal(p, q) && (HappensBefore(p, q) <==> a == b)
  {
    var p, q: Clock := map[a := n], map[b := k];
    assert q[b] > Get(p, b);
    assert p[a] <= Get(q, a) <==> a == b;
    assert p[a] != Get(q, a);
  }

  function NewDot(c: Clock, a: Assertion): Dot {
    Dot(a.actor, a.value, map[a.actor := (Get(c, a.actor) + 1) % TWO64])
  }

  lemma AssertReg(v: View, a: Assertion, s: Str)
    ensures Reg(Apply(v, AsWrite(a)), s) == if s == a.subject then Absorbed(Reg(v, s), NewDot(v.clock, a)) else Reg(v, s)
  {
    hide Apply, Absorbed;
    ApplyReg(v, AsWrite(a), s);
  }

  lemma StampIsTick(v: View, a: Assertion)
    ensures Stamp(v, AsWrite(a)) == map[a.actor := (Get(v.clock, a.actor) + 1) % TWO64]
  {
  }

  lemma AssertClock(v: View, a: Assertion, b: Str)
    requires Get(v.clock, a.actor) < MAX64
    ensures Get(Apply(v, AsWrite(a)).clock, b) == Get(v.clock, b) + if b == a.actor then 1 else 0
  {
    hide Join, RegAfter, OpenAfter, Stamp;
    var stamp := Stamp(v, AsWrite(a));
    assert stamp == map[a.actor := Get(v.clock, a.actor) + 1] by { StampIsTick(v, a); }
    JoinGet(v.clock, stamp, b);
  }

  lemma EventsSnoc(hist: seq<Assertion>)
    requires hist != []
    ensures Run(EmptyView, Events(hist)) == Apply(Run(EmptyView, Events(hist[..|hist| - 1])), AsWrite(hist[|hist| - 1]))
  {
    assert Events(hist)[..|hist| - 1] == Events(hist[..|hist| - 1]);
  }

  ghost predicate Refines(v: View, hist: seq<Assertion>) {
    (forall s :: Reg(v, s) == SimpleReg(Latest(hist, s))) && forall a :: Get(v.clock, a) == Count(hist, a)
  }

  lemma AssertKeepsRefinement(v: View, hist: seq<Assertion>)
    requires hist != [] && |hist| <= MAX64 && Refines(v, hist[..|hist| - 1])
    ensures Refines(Apply(v, AsWrite(hist[|hist| - 1])), hist)
  {
    hide Apply, Absorbed, SimpleReg, Reg, Get, Latest;
    var a := hist[|hist| - 1];
    assert Get(v.clock, a.actor) + 1 == Count(hist, a.actor);
    forall s ensures Reg(Apply(v, AsWrite(a)), s) == SimpleReg(Latest(hist, s)) {
      AssertReg(v, a, s);
      RefinesStep(hist, s);
    }
    forall b ensures Get(Apply(v, AsWrite(a)).clock, b) == Count(hist, b) { AssertClock(v, a, b); }
  }

  /** After any assertions, each register is the latest value of every agent that asserted the subject,
      one write per agent, and the document clock counts assertions. */
  lemma {:induction false} RefinesMap(hist: seq<Assertion>)
    requires |hist| <= MAX64
    ensures Refines(Run(EmptyView, Events(hist)), hist)
  {
    if hist == [] {
      forall s ensures SimpleReg(Latest(hist, s)) == {} { assert Latest(hist, s) == map[]; }
    } else {
      hide Refines, Apply;
      RefinesMap(hist[..|hist| - 1]);
      EventsSnoc(hist);
      AssertKeepsRefinement(Run(EmptyView, Events(hist[..|hist| - 1])), hist);
    }
  }

  lemma RefinesStep(hist: seq<Assertion>, s: Str)
    requires hist != [] && |hist| <= MAX64
    ensures var init, a := hist[..|hist| - 1], hist[|hist| - 1];
            SimpleReg(Latest(hist, s)) ==
            if s == a.subject
            then Absorbed(SimpleReg(Latest(init, s)), HeldDot(a.actor, Held(a.value, Count(hist, a.actor))))
            else SimpleReg(Latest(init, s))
  {
    var init, a := hist[..|hist| - 1], hist[|hist| - 1];
    if s == a.subject {
      LatestIsPast(init, s);
      AbsorbReplaces(Latest(init, s), a.actor, Held(a.value, Count(hist, a.actor)));
    }
  }

  predicate Disagree(m: map<Str, Held>) {
    exists a, b :: a in m && b in m && m[a].value != m[b].value
  }

  lemma SimpleRegConflict(m: map<Str, Held>)
    ensures Conflicted(SimpleReg(m)) <==> Disagree(m)
  {
    if Conflicted(SimpleReg(m)) {
      var d, e :| d in SimpleReg(m) && e in SimpleReg(m) && d.value != e.value;
      assert m[d.actor].value != m[e.actor].value;
    }
    assert forall a :: a in m ==> HeldDot(a, m[a]) in SimpleReg(m) && HeldDot(a, m[a]).value == m[a].value;
  }

  /** A conflict is open on a subject exactly when two agents' latest values for it differ. */
  lemma {:induction false} ConflictExactly(hist: seq<Assertion>, s: Str)
    requires |hist| <= MAX64
    ensures OpenAt(Run(EmptyView, Events(hist)), s).Some? <==> Disagree(Latest(hist, s))
  {
    RefinesMap(hist);
    IndexAgreement(Events(hist));
    SimpleRegConflict(Latest(hist, s));
  }

  lemma TwoConflict(a: Str, b: Str, subject: Str, x: Str, y: Str)
    requires x != y
    ensures OpenAt(Run(EmptyView, Events([Assertion(a, subject, x), Assertion(b, subject, y)])), subject).Some? <==> a != b
  {
    var one := [Assertion(a, subject, x)];
    var hist := [Assertion(a, subject, x), Assertion(b, subject, y)];
    assert hist[..1] == one && one[..0] == [];
    assert Latest([], subject) == map[];
    assert Latest(one, subject).Keys == {a} && Latest(one, subject)[a].value == x;
    var m := Latest(hist, subject);
    assert m.Keys == {a, b} && m[b].value == y && (a != b ==> m[a].value == x);
    assert Disagree(m) <==> a != b;
    hide Latest, Disagree, Run;
    ConflictExactly(hist, subject);
  }

  /** The counter of `actor` is used up, so its next local tick wraps to zero. */
  predicate Exhausted(v: View, actor: Str) { Get(v.clock, actor) == MAX64 }

  /** A wrapped tick stands beside a live write only if that write has one entry and reads zero at the
      actor, and is not taken for the same write. */
  predicate Blank(e: Dot, d: Dot) {
    |e.clock| == 1 && Get(e.clock, d.actor) == 0 && !(e.actor == d.actor && e.value == d.value)
  }

  lemma WrappedIsStale(e: Dot, d: Dot)
    requires d.clock == map[d.actor := 0]
    ensures Before(d, e) || SameDot(d, e) <==> !Blank(e, d)
    ensures Before(d, e) <==> |e.clock| != 1 || Get(e.clock, d.actor) != 0
  {
    assert |d.clock| == 1 && d.actor in d.clock;
  }

  /** A live write is taken for a fresh tick of the same value by the same agent if its one entry is zero,
      under another name. */
  predicate Shadows(e: Dot, d: Dot) {
    e.actor == d.actor && e.value == d.value && |e.clock| == 1 && d.actor !in e.clock && !ZeroFree(e.clock)
  }

  lemma OneEntry(c: Clock)
    requires |c| == 1
    ensures exists k :: k in c && c == map[k := c[k]]
  {
    var k :| k in c;
    assert c.Keys == {k} by { SubsetOfSameSize({k}, c.Keys); }
  }

  lemma ShadowsExactly(e: Dot, d: Dot, c: Clock)
    requires DominatedBy(e.clock, c) && d.actor in d.clock && d.clock == map[d.actor := d.clock[d.actor]]
    requires d.clock[d.actor] > Get(c, d.actor)
    ensures SameDot(e, d) <==> Shadows(e, d)
  {
    assert |d.clock| == 1;
    if |e.clock| == 1 {
      OneEntry(e.clock);
      var k :| k in e.clock && e.clock == map[k := e.clock[k]];
      assert e.clock[k] <= Get(c, k);
    }
  }

  lemma AbsorbedHasNew(s: set<Dot>, d: Dot)
    ensures d in Absorbed(s, d) <==> d in s || (!Stale(s, d) && !Echoed(s, d))
  {
    NeverBeforeItself(d);
    hide Before, SameDot;
  }

  lemma WrappedLands(s: set<Dot>, d: Dot)
    requires d.clock == map[d.actor := 0]
    ensures !Stale(s, d) && !Echoed(s, d) <==> forall e :: e in s ==> Blank(e, d)
  {
    assert forall e :: SameDot(e, d) ==> e.actor == d.actor && e.value == d.value;
    forall e ensures Before(d, e) || SameDot(d, e) <==> !Blank(e, d) { WrappedIsStale(e, d); }
    hide Before, SameDot;
  }

  lemma FreshLands(s: set<Dot>, d: Dot, c: Clock)
    requires forall e :: e in s ==> DominatedBy(e.clock, c)
    requires d.actor in d.clock && d.clock == map[d.actor := d.clock[d.actor]] && d.clock[d.actor] > Get(c, d.actor)
    ensures !Stale(s, d) && !Echoed(s, d) <==> forall e :: e in s ==> !Shadows(e, d)
  {
    hide Before, SameDot, Shadows, DominatedBy;
    forall e | e in s ensures !Before(d, e) && !SameDot(d, e) && (SameDot(e, d) <==> Shadows(e, d)) {
      FreshIsNotStale(e, d, c);
      ShadowsExactly(e, d, c);
    }
  }

  /** Nothing live stands in the way of the new write: nothing is taken for a fresh tick, or nothing outranks
      a wrapped one. */
  predicate Lands(v: View, a: Assertion) {
    forall e :: e in Reg(v, a.subject) ==>
                  if Exhausted(v, a.actor) then Blank(e, NewDot(v.clock, a)) else !Shadows(e, NewDot(v.clock, a))
  }

  /** After a clockless assertion the asserted write is live exactly when it was live already or lands. */
  lemma AssertedExactly(v: View, a: Assertion)
    requires Below(v)
    ensures NewDot(v.clock, a) in Reg(Apply(v, AsWrite(a)), a.subject)
       <==> NewDot(v.clock, a) in Reg(v, a.subject) || Lands(v, a)
  {
    var d, s := NewDot(v.clock, a), Reg(v, a.subject);
    hide Apply, Absorbed, Stale, Echoed, Shadows, Blank;
    AssertReg(v, a, a.subject);
    AbsorbedHasNew(s, d);
    if Exhausted(v, a.actor) { WrappedLands(s, d); } else { FreshLands(s, d, v.clock); }
  }

  lemma FreshIsNotStale(e: Dot, d: Dot, c: Clock)
    requires DominatedBy(e.clock, c) && d.actor in d.clock && d.clock[d.actor] > Get(c, d.actor)
    ensures !Before(d, e) && !SameDot(d, e)
  {
    assert Get(e.clock, d.actor) < d.clock[d.actor];
  }

  /** The assertion is lost without a trace: the counter is used up, the subject uncontested, and a live
      write of another value outranks the wrapped tick. */
  predicate Lost(v: View, a: Assertion) {
    Exhausted(v, a.actor) && !Conflicted(Reg(v, a.subject))
    && exists e :: e in Reg(v, a.subject) && e.value != a.value && (|e.clock| != 1 || Get(e.clock, a.actor) != 0)
  }

  lemma AbsorbedValues(s: set<Dot>, d: Dot)
    ensures !Conflicted(Absorbed(s, d)) && Values(Absorbed(s, d)) != {d.value}
       <==> !Conflicted(s) && exists e :: e in s && e.value != d.value && Before(d, e)
  {
    assert forall e :: SameDot(e, d) || SameDot(d, e) ==> e.value == d.value;
    assert forall e :: SameDot(e, d) ==> !Before(e, d);
    hide Before, SameDot;
    if Stale(s, d) {
      var e :| e in s && (Before(d, e) || SameDot(d, e));
      assert e.value in Values(s);
      if !Conflicted(s) { assert Values(s) == {e.value}; }
    } else if Echoed(s, d) {
      var e :| e in s && SameDot(e, d);
      assert e in Absorbed(s, d) && d.value in Values(Absorbed(s, d));
    } else {
      assert d in Absorbed(s, d) && d.value in Values(Absorbed(s, d));
    }
  }

  /** What a caller is told, the live values of a contested subject and the asserted value otherwise, is
      what is live, exactly when the assertion was not lost. */
  lemma ReportExactly(v: View, a: Assertion)
    requires Below(v)
    ensures var live := Reg(Apply(v, AsWrite(a)), a.subject);
            Values(live) == (if Conflicted(live) then Values(live) else {a.value}) <==> !Lost(v, a)
  {
    var d, s := NewDot(v.clock, a), Reg(v, a.subject);
    hide Apply, Absorbed, Before, SameDot, Conflicted, Values;
    AssertReg(v, a, a.subject);
    AbsorbedValues(s, d);
    if Exhausted(v, a.actor) {
      forall e ensures Before(d, e) <==> |e.clock| != 1 || Get(e.clock, a.actor) != 0 { WrappedIsStale(e, d); }
    } else {
      forall e | e in s ensures !Before(d, e) { FreshIsNotStale(e, d, v.clock); }
    }
  }

  lemma AloneIsLost(v: View, a: Assertion, d: Dot)
    requires Reg(v, a.subject) == {d} && d.value != a.value && Get(d.clock, a.actor) == MAX64 == Get(v.clock, a.actor)
    ensures Lost(v, a)
  {
    assert d in {d};
  }

  lemma OneWrite(p: Write, subject: Str)
    requires |p.clock| > 0 && subject in p.patch
    ensures Reg(Run(EmptyView, [Deliver(p)]), subject) == {DotOf(p, subject)}
    ensures Run(EmptyView, [Deliver(p)]).clock == Join(map[], p.clock)
  {
    assert Run(EmptyView, []) == EmptyView && Reg(EmptyView, subject) == {} && [] + [Deliver(p)] == [Deliver(p)];
    hide Apply, Absorbed, Join, Run;
    RunSnoc(EmptyView, [], Deliver(p));
    Convergence.CausalReg(EmptyView, p, subject);
    Convergence.FirstWrite(DotOf(p, subject));
  }

  /** One delivered op uses up an agent's counter; the agent's next assertion is lost. */
  lemma LostExample(p: Write, a: Assertion)
    requires p.clock == map[a.actor := MAX64] && p.patch.Keys == {a.subject} && p.patch[a.subject] != a.value
    ensures Lost(Run(EmptyView, [Deliver(p)]), a)
  {
    assert a.actor in p.clock;
    JoinGet(map[], p.clock, a.actor);
    hide Join, Run, Lost;
    OneWrite(p, a.subject);
    AloneIsLost(Run(EmptyView, [Deliver(p)]), a, DotOf(p, a.subject));
  }

  lemma ShadowedAlone(v: View, d: Dot, a: Assertion, x: Str)
    requires Reg(v, a.subject) == {d} && d == Dot(a.actor, a.value, map[x := 0])
    requires x != a.actor && Below(v) && !Exhausted(v, a.actor)
    ensures NewDot(v.clock, a) !in Reg(Apply(v, AsWrite(a)), a.subject)
  {
    assert d in Reg(v, a.subject) && x in d.clock && |d.clock| == 1 && Shadows(d, NewDot(v.clock, a));
    assert x !in NewDot(v.clock, a).clock;
    hide Apply, Below, Shadows;
    AssertedExactly(v, a);
  }

  /** An agent that asserts a value again, after a delivered write of it under one zero entry, gets no new
      write. */
  lemma ShadowedExample(x: Str, p: Write, a: Assertion)
    requires p.actor == a.actor != x && p.clock == map[x := 0] && p.patch.Keys == {a.subject} && p.patch[a.subject] == a.value
    ensures var v := Run(EmptyView, [Deliver(p)]);
            !Exhausted(v, a.actor) && NewDot(v.clock, a) !in Reg(Apply(v, AsWrite(a)), a.subject)
  {
    assert x in p.clock;
    JoinGet(map[], p.clock, a.actor);
    assert Below(EmptyView);
    hide Run, Apply, Join, Below, Reg;
    RunKeepsBelow(EmptyView, [Deliver(p)]);
    OneWrite(p, a.subject);
    ShadowedAlone(Run(EmptyView, [Deliver(p)]), DotOf(p, a.subject), a, x);
  }
}
