/** One CRDT document as a value: its clock, its registers and its open belief conflicts, and what a
    delivered op or a resolution does to it (daemon/state/state.go). */
module Documents {
  import opened Machine
  import opened Clocks
  import opened Register

  /** `open` maps each subject with a recorded conflict to the recorded candidates. */
  datatype View = View(clock: Clock, regs: map<Str, set<Dot>>, open: map<Str, set<Dot>>)

  const EmptyView: View := View(map[], map[], map[])

  /** An op's content: who wrote which values under which causal context, and in which domain. */
  datatype Write = Write(actor: Str, clock: Clock, belief: bool, patch: map<Str, Str>)

  function Reg(v: View, key: Str): set<Dot> {
    if key in v.regs then v.regs[key] else {}
  }

  /** An empty clock falls back to a local tick of the writer's entry. */
  function Stamp(v: View, w: Write): Clock {
    if |w.clock| == 0 then map[w.actor := (Get(v.clock, w.actor) + 1) % TWO64] else w.clock
  }

  function DotOf(w: Write, key: Str): Dot
    requires key in w.patch
  {
    Dot(w.actor, w.patch[key], w.clock)
  }

  function RegAfter(v: View, w: Write, key: Str): set<Dot> {
    if key in w.patch then Absorbed(Reg(v, key), DotOf(w, key)) else Reg(v, key)
  }

  function OpenAfter(v: View, w: Write): map<Str, set<Dot>> {
    if w.belief then
      map k | k in v.open.Keys + w.patch.Keys && (k in w.patch ==> Conflicted(RegAfter(v, w, k)))
        :: if k in w.patch then RegAfter(v, w, k) else v.open[k]
    else v.open
  }

  /** The effect of a write whose clock is already its causal stamp. */
  function ApplyStamped(v: View, w: Write): View {
    View(Join(v.clock, w.clock),
         map k | k in v.regs.Keys + w.patch.Keys :: RegAfter(v, w, k),
         OpenAfter(v, w))
  }

  function Stamped(v: View, w: Write): Write { w.(clock := Stamp(v, w)) }

  /** What `apply` does to the document. */
  function Apply(v: View, w: Write): View { ApplyStamped(v, Stamped(v, w)) }

  /** A resolution, seen as the write it makes. */
  function Resolution(v: View, resolver: Str, subject: Str, winning: Str): Write {
    Write(resolver, Tick(v.clock, resolver), true, map[subject := winning])
  }

  /** What `Resolve` does to the document. */
  function Resolve(v: View, resolver: Str, subject: Str, winning: Str): View {
    if Conflicted(Reg(v, subject)) then Apply(v, Resolution(v, resolver, subject, winning)) else v
  }

  datatype Event = Deliver(w: Write) | Decide(resolver: Str, subject: Str, winning: Str)

  function Step(v: View, e: Event): View {
    match e
    case Deliver(w) => Apply(v, w)
    case Decide(r, s, x) => Resolve(v, r, s, x)
  }

  function Run(v: View, events: seq<Event>): View {
    if events == [] then v else Step(Run(v, events[..|events| - 1]), events[|events| - 1])
  }

  /** The stamped write an event makes, if it makes one. */
  function Effect(v: View, e: Event): seq<Write> {
    match e
    case Deliver(w) => [Stamped(v, w)]
    case Decide(r, s, x) => if Conflicted(Reg(v, s)) then [Resolution(v, r, s, x)] else []
  }

  function Log(events: seq<Event>): seq<Write> {
    if events == [] then []
    else Log(events[..|events| - 1]) + Effect(Run(EmptyView, events[..|events| - 1]), events[|events| - 1])
  }

  function Replay(log: seq<Write>): View {
    if log == [] then EmptyView else Apply(Replay(log[..|log| - 1]), log[|log| - 1])
  }

  function Delivered(log: seq<Write>, key: Str): set<Dot> {
    set w | w in log && key in w.patch :: DotOf(w, key)
  }

  lemma StampedApply(v: View, w: Write)
    ensures Apply(v, Stamped(v, w)) == Apply(v, w) && |Stamp(v, w)| > 0
  {
    assert |map[w.actor := (Get(v.clock, w.actor) + 1) % TWO64]| == 1;
    assert Stamped(v, Stamped(v, w)) == Stamped(v, w);
  }

  lemma {:induction false} ReplaySnoc(log: seq<Write>, w: Write)
    ensures Replay(log + [w]) == Apply(Replay(log), w)
  {
    assert (log + [w])[..|log|] == log;
  }

  /** Every run is a replay of its log of stamped writes: local ticks and resolutions are ordinary writes. */
  lemma {:induction false} RunIsReplay(events: seq<Event>)
    ensures Run(EmptyView, events) == Replay(Log(events))
    ensures forall w :: w in Log(events) ==> |w.clock| > 0
  {
    hide Apply, Conflicted;
    if events != [] {
      var init := events[..|events| - 1];
      RunIsReplay(init);
      var v := Run(EmptyView, init);
      match events[|events| - 1]
      case Deliver(w) =>
        StampedApply(v, w);
        ReplaySnoc(Log(init), Stamped(v, w));
      case Decide(r, s, x) =>
        assert r in Tick(v.clock, r);
        ReplaySnoc(Log(init), Resolution(v, r, s, x));
        assert Log(init) + [] == Log(init);
    }
  }

  // ---------- the invariant of every run ----------

  ghost predicate Below(v: View) {
    forall k, d :: d in Reg(v, k) ==> DominatedBy(d.clock, v.clock)
  }

  lemma AbsorbedIsSubset(s: set<Dot>, d: Dot)
    ensures Absorbed(s, d) <= s + {d}
  {
  }

  lemma ApplyReg(v: View, w: Write, key: Str)
    ensures Reg(Apply(v, w), key) == RegAfter(v, Stamped(v, w), key)
  {
    StampedReg(v, Stamped(v, w), key);
  }

  lemma StampedReg(v: View, w: Write, key: Str)
    ensures Reg(ApplyStamped(v, w), key) == RegAfter(v, w, key)
  {
    var v' := ApplyStamped(v, w);
    assert key in v'.regs <==> key in v.regs.Keys + w.patch.Keys;
  }

  lemma RegGrowth(v: View, w: Write, key: Str)
    ensures RegAfter(v, w, key) <= Reg(v, key) + if key in w.patch then {DotOf(w, key)} else {}
  {
    if key in w.patch { AbsorbedIsSubset(Reg(v, key), DotOf(w, key)); }
  }

  lemma ApplyClock(v: View, w: Write)
    ensures DominatedBy(v.clock, Apply(v, w).clock) && DominatedBy(Stamp(v, w), Apply(v, w).clock)
  {
    JoinIsAbove(v.clock, Stamp(v, w));
  }

  lemma ApplyKeepsBelow(v: View, w: Write)
    requires Below(v)
    ensures Below(Apply(v, w))
  {
    var c := Apply(v, w).clock;
    ApplyClock(v, w);
    forall k, d | d in Reg(Apply(v, w), k) ensures DominatedBy(d.clock, c) {
      ApplyReg(v, w, k);
      RegGrowth(v, Stamped(v, w), k);
      if d in Reg(v, k) { DominatedTransitive(d.clock, v.clock, c); }
    }
  }

  /** In every reachable state each live write lies below the document clock. */
  lemma {:induction false} RunKeepsBelow(v: View, events: seq<Event>)
    requires Below(v)
    ensures Below(Run(v, events))
  {
    if events != [] {
      var u := Run(v, events[..|events| - 1]);
      RunKeepsBelow(v, events[..|events| - 1]);
      match events[|events| - 1]
      case Deliver(w) => ApplyKeepsBelow(u, w);
      case Decide(r, s, x) => ApplyKeepsBelow(u, Resolution(u, r, s, x));
    }
  }
}
