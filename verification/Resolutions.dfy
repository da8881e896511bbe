/** A resolution supersedes the conflict it settles, for good. */
module Resolutions {
  import opened Machine
  import opened Clocks
  import opened Register
  import opened Documents
  import opened Beliefs
  import Convergence

  ghost predicate Clean(v: View) {
    Below(v) && ZeroFree(v.clock) && forall k :: AllZeroFree(Reg(v, k))
  }

  function Winner(v: View, resolver: Str, winning: Str): Dot {
    Dot(resolver, winning, Tick(v.clock, resolver))
  }

  lemma ResolvedReg(v: View, resolver: Str, subject: Str, winning: Str)
    requires Conflicted(Reg(v, subject))
    ensures Reg(Resolve(v, resolver, subject, winning), subject) == Absorbed(Reg(v, subject), Winner(v, resolver, winning))
    ensures OpenAt(Resolve(v, resolver, subject, winning), subject)
          == Contested(Absorbed(Reg(v, subject), Winner(v, resolver, winning)))
  {
    var w := Resolution(v, resolver, subject, winning);
    assert resolver in w.clock;
    assert Stamped(v, w) == w;
    StampedReg(v, w, subject);
    StampedOpen(v, w, subject);
    assert DotOf(w, subject) == Winner(v, resolver, winning);
  }

  /** A register absorbs `d` and keeps nothing else exactly when every live write precedes `d` and
      none follows it. */
  lemma CollapseExactly(s: set<Dot>, d: Dot)
    requires AllZeroFree(s) && Conflicted(s)
    ensures Absorbed(s, d) == {d} <==> forall e :: e in s ==> Before(e, d) && !Before(d, e)
  {
    if forall e :: e in s ==> Before(e, d) && !Before(d, e) {
      forall e | e in s ensures !SameDot(d, e) { BeforeIsNotEqual(e.clock, d.clock); }
    } else if Absorbed(s, d) == {d} {
      assert Absorbed(s, d) != s;
      var e :| e in s && !(Before(e, d) && !Before(d, e));
      assert e in Absorbed(s, d);
      assert SameDot(d, e);
      assert false;
    }
  }

  lemma BeforeIsNotEqual(c: Clock, o: Clock)
    requires ZeroFree(c) && HappensBefore(c, o)
    ensures !Equal(o, c)
  {
    assert c.Keys <= o.Keys by { assert forall k :: k in c ==> 0 < c[k] <= Get(o, k); }
    if |c| == |o| { SubsetOfSameSize(c.Keys, o.Keys); }
  }

  lemma WrappedTickExactly(c: Clock, e: Clock, resolver: Str)
    requires ZeroFree(c) && ZeroFree(e) && DominatedBy(e, c) && Get(c, resolver) == MAX64
    ensures HappensBefore(e, Tick(c, resolver)) && !HappensBefore(Tick(c, resolver), e)
       <==> resolver !in e && e != c - {resolver}
  {
    var t, rest := Tick(c, resolver), c - {resolver};
    assert t == c[resolver := 0];
    if resolver in e {
      assert !DominatedBy(e, t) by { assert e[resolver] > Get(t, resolver); }
    } else {
      assert DominatedBy(e, rest) && DominatedBy(e, t) by {
        forall k | k in e ensures e[k] <= Get(rest, k) && e[k] <= Get(t, k) { assert e[k] <= Get(c, k); }
      }
      assert e.Keys <= t.Keys - {resolver} by { assert forall k :: k in e ==> 0 < e[k] <= Get(t, k); }
      SmallerSet(e.Keys, t.Keys, resolver);
      assert DominatedBy(t, e) <==> DominatedBy(rest, e) by {
        assert forall k :: k in rest ==> k in t && t[k] == rest[k];
        assert forall k :: k in t ==> t[k] == Get(rest, k);
      }
      EqualIsEquality(e, rest);
    }
  }

  lemma SmallerSet<T>(a: set<T>, b: set<T>, x: T)
    requires a <= b - {x} && x in b
    ensures |a| < |b|
  {
    assert |b - {x} - a| == |b - {x}| - |a|;
  }

  /** The resolver's counter has room, or no live write mentions the resolver or carries every other
      counter of the document clock. */
  predicate CanCollapse(s: set<Dot>, clock: Clock, resolver: Str) {
    Get(clock, resolver) < MAX64
    || forall d :: d in s ==> resolver !in d.clock && d.clock != clock - {resolver}
  }

  lemma WinnerExactly(s: set<Dot>, c: Clock, win: Dot)
    requires ZeroFree(c) && AllZeroFree(s) && Conflicted(s) && win.clock == Tick(c, win.actor)
    requires forall d :: d in s ==> DominatedBy(d.clock, c)
    ensures Absorbed(s, win) == {win} <==> CanCollapse(s, c, win.actor)
  {
    CollapseExactly(s, win);
    var r := win.actor;
    forall d | d in s
      ensures Before(d, win) && !Before(win, d) <==> Get(c, r) < MAX64 || (r !in d.clock && d.clock != c - {r})
    {
      if Get(c, r) < MAX64 {
        TickDominates(c, d.clock, r);
        assert !DominatedBy(win.clock, d.clock) by { assert win.clock[r] > Get(d.clock, r); }
      } else {
        WrappedTickExactly(c, d.clock, r);
      }
    }
  }

  lemma Uncontested(d: Dot)
    ensures Contested({d}) == None
  {
  }

  /** Resolving a contested subject leaves exactly the winning write if and only if `CanCollapse`, and
      then the conflict is cleared. */
  lemma ResolveExactly(v: View, resolver: Str, subject: Str, winning: Str)
    requires Clean(v) && Conflicted(Reg(v, subject))
    ensures Reg(Resolve(v, resolver, subject, winning), subject) == {Winner(v, resolver, winning)}
       <==> CanCollapse(Reg(v, subject), v.clock, resolver)
    ensures CanCollapse(Reg(v, subject), v.clock, resolver)
        ==> OpenAt(Resolve(v, resolver, subject, winning), subject) == None
  {
    hide Resolve, Absorbed, CanCollapse, Conflicted, OpenAt, Tick;
    ResolvedReg(v, resolver, subject, winning);
    Uncontested(Winner(v, resolver, winning));
    WinnerExactly(Reg(v, subject), v.clock, Winner(v, resolver, winning));
  }

  /** And the subject then reads the winning value. */
  lemma ResolvedReads(v: View, resolver: Str, subject: Str, winning: Str, read: Str)
    requires Clean(v) && Conflicted(Reg(v, subject)) && CanCollapse(Reg(v, subject), v.clock, resolver)
    requires IsLww(Reg(Resolve(v, resolver, subject, winning), subject), read)
    ensures read == winning
  {
    hide Resolve, CanCollapse, Clean, Conflicted;
    ResolveExactly(v, resolver, subject, winning);
  }

  // ---------- the resolution stays on top ----------

  ghost predicate Covered(s: set<Dot>, c: Clock) {
    exists e :: e in s && DominatedBy(c, e.clock)
  }

  /** Absorbing `d` keeps `c` covered: `d` is stale, or joins the register, or leaves a covering write. */
  predicate KeepsCover(s: set<Dot>, d: Dot, c: Clock) {
    Stale(s, d) || !Echoed(s, d) || exists e :: e in s && DominatedBy(c, e.clock) && !Before(e, d)
  }

  lemma CoverExactly(s: set<Dot>, d: Dot, c: Clock)
    requires Covered(s, c)
    ensures Covered(Absorbed(s, d), c) <==> KeepsCover(s, d, c)
  {
    var e :| e in s && DominatedBy(c, e.clock);
    if !Stale(s, d) && !Echoed(s, d) && Before(e, d) {
      DominatedTransitive(c, e.clock, d.clock);
      assert d in Absorbed(s, d);
    }
  }

  /** What an event writes to the subject keeps `c` covered. */
  predicate StepCovers(v: View, e: Event, subject: Str, c: Clock) {
    forall w :: w in Effect(v, e) && subject in w.patch ==> KeepsCover(Reg(v, subject), DotOf(w, subject), c)
  }

  ghost predicate AllCover(v: View, events: seq<Event>, subject: Str, c: Clock) {
    events == []
    || (AllCover(v, events[..|events| - 1], subject, c)
        && StepCovers(Run(v, events[..|events| - 1]), events[|events| - 1], subject, c))
  }

  ghost predicate CoveredThroughout(v: View, events: seq<Event>, subject: Str, c: Clock) {
    Covered(Reg(Run(v, events), subject), c) && (events != [] ==> CoveredThroughout(v, events[..|events| - 1], subject, c))
  }

  lemma ApplyCoverExactly(v: View, w: Write, subject: Str, c: Clock)
    requires Covered(Reg(v, subject), c)
    ensures Covered(Reg(Apply(v, w), subject), c)
       <==> (subject in w.patch ==> KeepsCover(Reg(v, subject), DotOf(Stamped(v, w), subject), c))
  {
    hide Apply, KeepsCover, Covered, Absorbed;
    ApplyReg(v, w, subject);
    if subject in w.patch { CoverExactly(Reg(v, subject), DotOf(Stamped(v, w), subject), c); }
  }

  lemma StepCoverExactly(v: View, e: Event, subject: Str, c: Clock)
    requires Covered(Reg(v, subject), c)
    ensures Covered(Reg(Step(v, e), subject), c) <==> StepCovers(v, e, subject, c)
  {
    hide Apply, KeepsCover, Covered, Conflicted;
    match e
    case Deliver(w) =>
      ApplyCoverExactly(v, w, subject, c);
      assert Stamped(v, w) in Effect(v, e);
    case Decide(r, s, x) =>
      if Conflicted(Reg(v, s)) {
        var w := Resolution(v, r, s, x);
        assert r in w.clock && Stamped(v, w) == w && w in Effect(v, e);
        ApplyCoverExactly(v, w, subject, c);
      }
  }

  /** Along any continuation `c` stays covered if and only if every write to the subject keeps it so. */
  lemma {:induction false} RunCoverExactly(v: View, events: seq<Event>, subject: Str, c: Clock)
    requires Covered(Reg(v, subject), c)
    ensures CoveredThroughout(v, events, subject, c) <==> AllCover(v, events, subject, c)
  {
    if events != [] {
      var init := events[..|events| - 1];
      RunCoverExactly(v, init, subject, c);
      hide StepCovers, Covered, Step;
      if CoveredThroughout(v, init, subject, c) {
        assert Covered(Reg(Run(v, init), subject), c);
        StepCoverExactly(Run(v, init), events[|events| - 1], subject, c);
      }
    }
  }

  lemma StaleIsIgnored(u: View, w: Write, subject: Str, t: Clock, actor: Str)
    requires Covered(Reg(u, subject), t)
    requires |w.clock| > 0 && ZeroFree(w.clock) && DominatedBy(w.clock, t) && Get(w.clock, actor) < Get(t, actor)
    ensures Reg(Apply(u, w), subject) == Reg(u, subject)
  {
    var e :| e in Reg(u, subject) && DominatedBy(t, e.clock);
    StrictlyBelow(w.clock, t, e.clock, actor);
    assert Stamped(u, w) == w;
    ApplyReg(u, w, subject);
    if subject in w.patch { assert Before(DotOf(w, subject), e); }
  }

  lemma ResolvedCovers(v: View, resolver: Str, subject: Str, winning: Str)
    requires Clean(v) && Conflicted(Reg(v, subject)) && Get(v.clock, resolver) < MAX64
    ensures Covered(Reg(Resolve(v, resolver, subject, winning), subject), Tick(v.clock, resolver))
  {
    ResolveExactly(v, resolver, subject, winning);
    assert Winner(v, resolver, winning) in {Winner(v, resolver, winning)};
  }

  lemma StrictlyBelow(a: Clock, t: Clock, e: Clock, actor: Str)
    requires ZeroFree(a) && DominatedBy(a, t) && DominatedBy(t, e) && Get(a, actor) < Get(t, actor)
    ensures HappensBefore(a, e)
  {
    DominatedTransitive(a, t, e);
    assert Get(t, actor) <= Get(e, actor);
    if Equal(a, e) {
      assert a.Keys <= e.Keys by { assert forall k :: k in a ==> 0 < a[k] == Get(e, k); }
      SubsetOfSameSize(a.Keys, e.Keys);
    }
  }

  lemma ApplyKeepsZeroFree(v: View, w: Write, key: Str)
    requires AllZeroFree(Reg(v, key)) && ZeroFree(Stamp(v, w))
    ensures AllZeroFree(Reg(Apply(v, w), key))
  {
    ApplyReg(v, w, key);
    RegGrowth(v, Stamped(v, w), key);
  }

  /** No op carries a zero entry, and no local tick wraps. */
  predicate Fits(v: View, e: Event) {
    match e
    case Deliver(w) => if |w.clock| == 0 then Get(v.clock, w.actor) < MAX64 else ZeroFree(w.clock)
    case Decide(r, _, _) => Get(v.clock, r) < MAX64
  }

  lemma ApplyKeepsClean(v: View, w: Write)
    requires Clean(v) && ZeroFree(Stamp(v, w))
    ensures Clean(Apply(v, w))
  {
    ApplyKeepsBelow(v, w);
    JoinIsAbove(v.clock, Stamp(v, w));
    forall k ensures AllZeroFree(Reg(Apply(v, w), k)) {
      assert AllZeroFree(Reg(v, k));
      ApplyKeepsZeroFree(v, w, k);
    }
  }

  lemma ResolutionStamp(v: View, resolver: Str, subject: Str, winning: Str)
    requires ZeroFree(v.clock) && Get(v.clock, resolver) < MAX64
    ensures ZeroFree(Stamp(v, Resolution(v, resolver, subject, winning)))
  {
    assert resolver in Tick(v.clock, resolver);
  }

  lemma StepKeepsClean(v: View, e: Event)
    requires Clean(v) && Fits(v, e)
    ensures Clean(Step(v, e))
  {
    match e
    case Deliver(w) =>
      assert ZeroFree(Stamp(v, w));
      ApplyKeepsClean(v, w);
    case Decide(r, s, x) =>
      if Conflicted(Reg(v, s)) {
        ResolutionStamp(v, r, s, x);
        ApplyKeepsClean(v, Resolution(v, r, s, x));
      }
  }

  predicate RunFits(v: View, events: seq<Event>) {
    events == [] || (RunFits(v, events[..|events| - 1]) && Fits(Run(v, events[..|events| - 1]), events[|events| - 1]))
  }

  lemma {:induction false} RunKeepsClean(v: View, events: seq<Event>)
    requires Clean(v) && RunFits(v, events)
    ensures Clean(Run(v, events))
  {
    if events != [] {
      hide Clean, Fits;
      RunKeepsClean(v, events[..|events| - 1]);
      StepKeepsClean(Run(v, events[..|events| - 1]), events[|events| - 1]);
    }
  }

  /** Every state reached that way is clean, so the theorems about clean states apply to it. */
  lemma {:induction false} RunIsClean(events: seq<Event>)
    requires RunFits(EmptyView, events)
    ensures Clean(Run(EmptyView, events))
  {
    RunKeepsClean(EmptyView, events);
  }

  /** Without zero entries a write taken for another is that write. */
  lemma NoEcho(s: set<Dot>, d: Dot)
    requires AllZeroFree(s) && ZeroFree(d.clock) && Echoed(s, d)
    ensures Stale(s, d)
  {
    var e :| e in s && SameDot(e, d);
    EqualIsEquality(e.clock, d.clock);
    assert SameDot(d, e);
  }

  lemma EffectFits(v: View, e: Event, w: Write)
    requires ZeroFree(v.clock) && Fits(v, e) && w in Effect(v, e)
    ensures ZeroFree(w.clock)
  {
    match e
    case Deliver(x) => assert w == Stamped(v, x);
    case Decide(r, s, x) => ResolutionStamp(v, r, s, x);
  }

  lemma {:induction false} FitCovers(v: View, events: seq<Event>, subject: Str, c: Clock)
    requires Clean(v) && RunFits(v, events)
    ensures AllCover(v, events, subject, c)
  {
    if events != [] {
      var init, e := events[..|events| - 1], events[|events| - 1];
      FitCovers(v, init, subject, c);
      RunKeepsClean(v, init);
      var u := Run(v, init);
      assert ZeroFree(u.clock) && AllZeroFree(Reg(u, subject));
      hide Fits, Stale, Echoed, Run, Clean;
      forall w | w in Effect(u, e) && subject in w.patch ensures KeepsCover(Reg(u, subject), DotOf(w, subject), c) {
        EffectFits(u, e, w);
        if Echoed(Reg(u, subject), DotOf(w, subject)) { NoEcho(Reg(u, subject), DotOf(w, subject)); }
      }
    }
  }

  /** After a resolution, as long as every later write to the subject keeps its clock covered, a write at or
      below the document clock at resolution time does not change the register. */
  lemma {:induction false} ResolutionHolds(v: View, resolver: Str, subject: Str, winning: Str, later: seq<Event>, w: Write)
    requires Clean(v) && Conflicted(Reg(v, subject)) && Get(v.clock, resolver) < MAX64
    requires |w.clock| > 0 && ZeroFree(w.clock) && DominatedBy(w.clock, v.clock)
    requires AllCover(Resolve(v, resolver, subject, winning), later, subject, Tick(v.clock, resolver))
    ensures var u := Run(Resolve(v, resolver, subject, winning), later);
            Reg(Apply(u, w), subject) == Reg(u, subject)
  {
    var t, v' := Tick(v.clock, resolver), Resolve(v, resolver, subject, winning);
    ResolvedCovers(v, resolver, subject, winning);
    TickDominates(v.clock, w.clock, resolver);
    hide Clean, Conflicted, Resolve, AllCover, Tick, Apply, Covered;
    RunCoverExactly(v', later, subject, t);
    assert Covered(Reg(Run(v', later), subject), t);
    hide CoveredThroughout;
    StaleIsIgnored(Run(v', later), w, subject, t, resolver);
  }

  /** However the run goes on after a resolution without zero entries, such a write never changes the
      register. */
  lemma {:induction false} ResolutionDominates(v: View, resolver: Str, subject: Str, winning: Str, later: seq<Event>, w: Write)
    requires Clean(v) && Conflicted(Reg(v, subject)) && Get(v.clock, resolver) < MAX64
    requires |w.clock| > 0 && ZeroFree(w.clock) && DominatedBy(w.clock, v.clock)
    requires RunFits(Resolve(v, resolver, subject, winning), later)
    ensures var u := Run(Resolve(v, resolver, subject, winning), later);
            Reg(Apply(u, w), subject) == Reg(u, subject)
  {
    StepKeepsClean(v, Decide(resolver, subject, winning));
    hide Clean, Conflicted, RunFits, Resolve, Run, Apply;
    FitCovers(Resolve(v, resolver, subject, winning), later, subject, Tick(v.clock, resolver));
    ResolutionHolds(v, resolver, subject, winning, later, w);
  }

  lemma TwoFit(p: Write, q: Write)
    requires |p.clock| > 0 && |q.clock| > 0 && ZeroFree(p.clock) && ZeroFree(q.clock)
    ensures Clean(Run(EmptyView, [Deliver(p), Deliver(q)]))
  {
    hide Run, Clean;
    var es := [Deliver(p), Deliver(q)];
    assert es[..1] == [Deliver(p)] && es[..1][..0] == [];
    assert RunFits(EmptyView, []) && RunFits(EmptyView, es[..1]) && RunFits(EmptyView, es);
    RunIsClean(es);
  }

  lemma BlockedResolve(v: View, r: Str, subject: Str, d: Dot, z: Str)
    requires Clean(v) && Conflicted(Reg(v, subject)) && d in Reg(v, subject) && Get(d.clock, r) == MAX64
    ensures Reg(Resolve(v, r, subject, z), subject) != {Winner(v, r, z)}
  {
    assert DominatedBy(d.clock, v.clock);
    assert !CanCollapse(Reg(v, subject), v.clock, r);
    hide Resolve, CanCollapse, Clean, Conflicted;
    ResolveExactly(v, r, subject, z);
  }

  lemma OwnCounters(a: Str, b: Str, d: Dot, e: Dot)
    requires Get(d.clock, a) > Get(e.clock, a) && Get(e.clock, b) > Get(d.clock, b) && d.value != e.value
    ensures !Before(d, e) && !Before(e, d) && !SameDot(e, d) && !SameDot(d, e) && Conflicted({d, e})
  {
    assert a in d.clock && b in e.clock && d in {d, e} && e in {d, e};
  }

  /** A resolver at its last counter value cannot settle a conflict in which it took part. */
  lemma ExhaustedExample(a: Str, r: Str, subject: Str, p: Write, q: Write, z: Str)
    requires a != r && p.patch.Keys == q.patch.Keys == {subject} && p.patch[subject] != q.patch[subject]
    requires p.clock == map[r := MAX64] && q.clock == map[a := 1] && p.belief && q.belief
    ensures var v := Run(EmptyView, [Deliver(p), Deliver(q)]);
            Conflicted(Reg(v, subject)) && Reg(Resolve(v, r, subject, z), subject) != {Winner(v, r, z)}
  {
    assert r in p.clock && a in q.clock && ZeroFree(p.clock) && ZeroFree(q.clock);
    assert Get(p.clock, r) == MAX64 > Get(q.clock, r) && Get(q.clock, a) > Get(p.clock, a);
    hide Resolve, Run, Clean, Conflicted, Reg, Before, SameDot, ZeroFree, Get, Winner, Apply;
    OwnCounters(r, a, DotOf(p, subject), DotOf(q, subject));
    TwoSides(p, q, subject);
    TwoFit(p, q);
    BlockedResolve(Run(EmptyView, [Deliver(p), Deliver(q)]), r, subject, DotOf(p, subject), z);
  }

  /** A clock of two zero entries is equal to any two-entry clock of other names, and never the reverse. */
  lemma BlankEquals(z: Clock, c: Clock, p: Str, q: Str, a: Str)
    requires z == map[p := 0, q := 0] && p != q && p !in c && q !in c && a in c && c[a] > 0 && a != p && a != q
    ensures |z| == 2 && DominatedBy(z, c) && (Equal(z, c) <==> |c| == 2) && !DominatedBy(c, z) && !Equal(c, z)
  {
    assert c[a] > Get(z, a);
  }

  lemma UndoingClocks(a: Str, b: Str, p: Str, q: Str, z: Clock, w: Clock, t: Clock, c: Clock)
    requires a != b && p != q && a != p && a != q && b != p && b != q
    requires z == map[p := 0, q := 0] && w == map[a := 2, b := 1] && t == map[a := 3, b := 1] && c == map[a := 1]
    ensures Equal(z, w) && Equal(z, t) && !DominatedBy(w, z) && !DominatedBy(t, w) && !DominatedBy(t, z) && !DominatedBy(c, z)
    ensures HappensBefore(w, t) && HappensBefore(z, c) && !Equal(t, z) && !Equal(c, z)
  {
    assert |w| == 2 && |t| == 2 && |c| == 1;
    Later(w, t, a);
    hide Equal, DominatedBy;
    BlankEquals(z, w, p, q, a);
    BlankEquals(z, t, p, q, a);
    BlankEquals(z, c, p, q, a);
  }

  lemma Later(w: Clock, t: Clock, a: Str)
    requires a in w && w[a] < MAX64 && t == w[a := w[a] + 1]
    ensures HappensBefore(w, t) && !DominatedBy(t, w)
  {
    assert t[a] > Get(w, a) && w[a] != Get(t, a);
  }

  lemma UndoingSteps(w: Dot, z: Dot, t: Dot, d: Dot)
    requires w.actor != z.actor && z.actor == t.actor && z.value == t.value
    requires Equal(z.clock, w.clock) && Equal(z.clock, t.clock)
    requires HappensBefore(w.clock, t.clock) && HappensBefore(z.clock, d.clock)
    requires !DominatedBy(w.clock, z.clock) && !DominatedBy(t.clock, w.clock) && !DominatedBy(t.clock, z.clock)
    requires !DominatedBy(d.clock, z.clock) && !Equal(t.clock, z.clock) && !Equal(d.clock, z.clock)
    ensures Absorbed({w}, z) == {w, z} && Absorbed({w, z}, t) == {z} && Absorbed({z}, d) == {d}
  {
    hide DominatedBy, Equal;
    DominatedOrNot(w, z);
    assert Before(w, t) && !Before(z, t) && SameDot(z, t) && Before(z, d);
    Convergence.AbsorbedPair(w, z);
    Convergence.AbsorbedPair(z, d);
    assert w in {w, z} && z in {w, z};
    assert !SameDot(t, w) && !Stale({w, z}, t) && Echoed({w, z}, t);
  }

  lemma DominatedOrNot(w: Dot, z: Dot)
    requires Equal(z.clock, w.clock) && !DominatedBy(w.clock, z.clock)
    ensures !Before(z, w) && !Before(w, z)
  {
  }

  lemma SingleClocks(a: Str, b: Str)
    requires a != b
    ensures Join(map[], map[a := 1]) == map[a := 1] && Join(map[a := 1], map[b := 1]) == map[a := 1, b := 1]
    ensures Tick(map[a := 1, b := 1], a) == map[a := 2, b := 1]
  {
  }

  lemma JoinedClock(p: Write, q: Write)
    requires |p.clock| > 0 && |q.clock| > 0
    ensures Run(EmptyView, [Deliver(p), Deliver(q)]).clock == Join(Join(map[], p.clock), q.clock)
  {
    assert [] + [Deliver(p)] == [Deliver(p)] && [Deliver(p)] + [Deliver(q)] == [Deliver(p), Deliver(q)];
    assert Run(EmptyView, []) == EmptyView;
    hide Apply, Join, Run;
    RunSnoc(EmptyView, [], Deliver(p));
    RunSnoc(EmptyView, [Deliver(p)], Deliver(q));
    Convergence.CausalReg(EmptyView, p, []);
    Convergence.CausalReg(Apply(EmptyView, p), q, []);
  }

  lemma {:induction false} TwoMore(v: View, z: Write, t: Write, subject: Str)
    requires |z.clock| > 0 && |t.clock| > 0 && subject in z.patch && subject in t.patch
    ensures Reg(Run(v, [Deliver(z), Deliver(t)]), subject)
          == Absorbed(Absorbed(Reg(v, subject), DotOf(z, subject)), DotOf(t, subject))
  {
    assert [] + [Deliver(z)] == [Deliver(z)] && [Deliver(z)] + [Deliver(t)] == [Deliver(z), Deliver(t)];
    assert Run(v, []) == v;
    hide Apply, Absorbed, Run;
    RunSnoc(v, [], Deliver(z));
    RunSnoc(v, [Deliver(z)], Deliver(t));
    Convergence.CausalReg(v, z, subject);
    Convergence.CausalReg(Apply(v, z), t, subject);
  }

  lemma ResolvedPair(v: View, subject: Str, d: Dot, e: Dot, r: Str, win: Str, t: Clock)
    requires Clean(v) && Reg(v, subject) == {d, e} && Conflicted({d, e}) && Get(v.clock, r) < MAX64 && Tick(v.clock, r) == t
    ensures Reg(Resolve(v, r, subject, win), subject) == {Dot(r, win, t)}
  {
    hide Resolve, Clean, Conflicted, Tick;
    ResolveExactly(v, r, subject, win);
  }

  lemma ResolvedTwo(a: Str, b: Str, subject: Str, p: Write, q: Write, win: Str)
    requires a != b && p.patch.Keys == q.patch.Keys == {subject} && p.patch[subject] != q.patch[subject]
    requires p.clock == map[a := 1] && q.clock == map[b := 1]
    ensures var v := Run(EmptyView, [Deliver(p), Deliver(q)]);
            Reg(Resolve(v, a, subject, win), subject) == {Dot(a, win, map[a := 2, b := 1])}
  {
    assert a in p.clock && b in q.clock && ZeroFree(p.clock) && ZeroFree(q.clock);
    assert Get(p.clock, a) > Get(q.clock, a) && Get(q.clock, b) > Get(p.clock, b) && Get(map[a := 1, b := 1], a) == 1;
    hide Resolve, Run, Clean, Conflicted, Reg, Before, SameDot, ZeroFree, Get, Apply, Tick, Join;
    JoinedClock(p, q);
    SingleClocks(a, b);
    OwnCounters(a, b, DotOf(p, subject), DotOf(q, subject));
    TwoSides(p, q, subject);
    TwoFit(p, q);
    ResolvedPair(Run(EmptyView, [Deliver(p), Deliver(q)]), subject, DotOf(p, subject), DotOf(q, subject), a, win,
          map[a := 2, b := 1]);
  }

  /** Two ops with zero entries undo a resolution: the second supersedes the winner, is taken for the first,
      and is not kept; the first is before anything. The losing write comes back when delivered again. */
  lemma UndoneExample(a: Str, b: Str, x: Str, y: Str, subject: Str, p: Write, q: Write, z: Write, t: Write, win: Str)
    requires a != b && x != y && a != x && a != y && b != x && b != y && z.actor == t.actor != a
    requires p.patch.Keys == q.patch.Keys == z.patch.Keys == {subject}
    requires t.patch == z.patch && p.patch[subject] != q.patch[subject]
    requires p.clock == map[a := 1] && q.clock == map[b := 1] && z.clock == map[x := 0, y := 0] && t.clock == map[a := 3, b := 1]
    ensures var resolved := Resolve(Run(EmptyView, [Deliver(p), Deliver(q)]), a, subject, win);
            var u := Run(resolved, [Deliver(z), Deliver(t)]);
            Reg(resolved, subject) == {Dot(a, win, map[a := 2, b := 1])}
            && Reg(u, subject) == {DotOf(z, subject)} && Reg(Apply(u, p), subject) == {DotOf(p, subject)}
  {
    assert a in p.clock && x in z.clock && a in t.clock;
    var resolved := Resolve(Run(EmptyView, [Deliver(p), Deliver(q)]), a, subject, win);
    hide Resolve, Run, Reg, Absorbed, Equal, DominatedBy, Apply;
    ResolvedTwo(a, b, subject, p, q, win);
    var w := Dot(a, win, map[a := 2, b := 1]);
    UndoingClocks(a, b, x, y, z.clock, w.clock, t.clock, p.clock);
    UndoingSteps(w, DotOf(z, subject), DotOf(t, subject), DotOf(p, subject));
    TwoMore(resolved, z, t, subject);
    Convergence.CausalReg(Run(resolved, [Deliver(z), Deliver(t)]), p, subject);
  }
}
