/** The CRDT engine object (daemon/state/state.go) and the belief assertion call (cmd/cerberusd/rpc.go).
    Actors are the 32-byte peer ids; the engine's hex form of them orders the same way. */
module Engine {
  import opened Machine
  import opened Clocks
  import opened Register
  import Documents
  import opened Beliefs
  import Convergence
  import Assertions

  type View = Documents.View

  datatype Delta = Patch(entries: map<Str, Str>) | Malformed

  datatype Op = Op(doc: Str, actor: Str, clock: Clock, belief: bool, delta: Delta)

  datatype Document = Document(clock: Clock, keys: map<Str, seq<Dot>>)

  datatype Conflict = Conflict(subject: Str, candidates: seq<Dot>)

  function AsWrite(op: Op): Documents.Write
    requires op.delta.Patch?
  {
    Documents.Write(op.actor, op.clock, op.belief, op.delta.entries)
  }

  // ---------- the open-conflict list of one document ----------

  predicate DistinctSubjects(cs: seq<Conflict>) {
    forall i, j :: 0 <= i < j < |cs| ==> cs[i].subject != cs[j].subject
  }

  function Subjects(cs: seq<Conflict>): set<Str> { set c | c in cs :: c.subject }

  /** The candidates recorded for a subject. */
  function Find(cs: seq<Conflict>, subject: Str): Option<seq<Dot>> {
    if cs == [] then None
    else if cs[0].subject == subject then Some(cs[0].candidates)
    else Find(cs[1..], subject)
  }

  function FindDots(cs: seq<Conflict>, subject: Str): Option<set<Dot>> {
    match Find(cs, subject)
    case None => None
    case Some(ds) => Some(Dots(ds))
  }

  lemma {:induction false} FindAt(cs: seq<Conflict>, i: nat)
    requires DistinctSubjects(cs) && i < |cs|
    ensures Find(cs, cs[i].subject) == Some(cs[i].candidates)
  {
    if i > 0 { FindAt(cs[1..], i - 1); }
  }

  lemma {:induction false} FindNone(cs: seq<Conflict>, s: Str)
    requires forall i :: 0 <= i < |cs| ==> cs[i].subject != s
    ensures Find(cs, s) == None
  {
    if cs != [] { FindNone(cs[1..], s); }
  }

  lemma {:induction false} FindInSubjects(cs: seq<Conflict>, s: Str)
    ensures Find(cs, s).Some? <==> s in Subjects(cs)
  {
    if s in Subjects(cs) {
      if Find(cs, s).None? { Found(cs, s); }
    } else {
      FindNone(cs, s);
    }
  }

  lemma {:induction false} Found(cs: seq<Conflict>, s: Str)
    requires s in Subjects(cs)
    ensures Find(cs, s).Some?
  {
    if cs[0].subject != s {
      var c :| c in cs && c.subject == s;
      assert cs == [cs[0]] + cs[1..];
      assert c in cs[1..];
      Found(cs[1..], s);
    }
  }

  function Index(cs: seq<Conflict>): map<Str, set<Dot>> {
    map s | s in Subjects(cs) :: FindDots(cs, s).GetOr({})
  }

  /** `upsertConflictLocked`: replaces the subject's entry in place, or appends it. */
  method Upsert(list: seq<Conflict>, bc: Conflict) returns (r: seq<Conflict>)
    requires DistinctSubjects(list)
    ensures DistinctSubjects(r)
    ensures forall s :: Find(r, s) == if s == bc.subject then Some(bc.candidates) else Find(list, s)
  {
    for i := 0 to |list|
      invariant forall j :: 0 <= j < i ==> list[j].subject != bc.subject
    {
      if list[i].subject == bc.subject {
        r := list[i := bc];
        forall s ensures Find(r, s) == if s == bc.subject then Some(bc.candidates) else Find(list, s) {
          ReplaceFind(list, i, bc, s);
        }
        return;
      }
    }
    r := list + [bc];
    forall s ensures Find(r, s) == if s == bc.subject then Some(bc.candidates) else Find(list, s) {
      AppendFind(list, bc, s);
    }
  }

  lemma {:induction false} ReplaceFind(list: seq<Conflict>, i: nat, bc: Conflict, s: Str)
    requires i < |list| && list[i].subject == bc.subject && DistinctSubjects(list)
    ensures Find(list[i := bc], s) == if s == bc.subject then Some(bc.candidates) else Find(list, s)
  {
    if i > 0 {
      ReplaceFind(list[1..], i - 1, bc, s);
      assert list[i := bc][1..] == list[1..][i - 1 := bc];
      assert list[0].subject != list[i].subject;
    } else {
      assert list[0 := bc][1..] == list[1..];
    }
  }

  lemma {:induction false} AppendFind(list: seq<Conflict>, bc: Conflict, s: Str)
    requires forall j :: 0 <= j < |list| ==> list[j].subject != bc.subject
    ensures Find(list + [bc], s) == if s == bc.subject then Some(bc.candidates) else Find(list, s)
  {
    if list != [] {
      AppendFind(list[1..], bc, s);
      assert (list + [bc])[1..] == list[1..] + [bc];
    }
  }

  /** `clearConflictLocked`: keeps every other subject's entry, in order. */
  method Clear(list: seq<Conflict>, subject: Str) returns (r: seq<Conflict>)
    requires DistinctSubjects(list)
    ensures DistinctSubjects(r)
    ensures forall s :: Find(r, s) == if s == subject then None else Find(list, s)
  {
    r := [];
    for i := 0 to |list|
      invariant Cleared(list[..i], subject, r)
    {
      assert list[..i + 1] == list[..i] + [list[i]];
      ClearedStep(list[..i], subject, r, list[i]);
      if list[i].subject != subject { r := r + [list[i]]; }
    }
    assert list[..|list|] == list;
  }

  ghost predicate Cleared(list: seq<Conflict>, subject: Str, r: seq<Conflict>) {
    DistinctSubjects(r) && forall s :: Find(r, s) == if s == subject then None else Find(list, s)
  }

  lemma ClearedStep(list: seq<Conflict>, subject: Str, r: seq<Conflict>, c: Conflict)
    requires Cleared(list, subject, r) && DistinctSubjects(list + [c])
    ensures Cleared(list + [c], subject, if c.subject != subject then r + [c] else r)
  {
    assert Find(list, c.subject) == None by {
      forall j | 0 <= j < |list| ensures list[j].subject != c.subject {
        assert (list + [c])[j] == list[j] && (list + [c])[|list|] == c;
      }
      FindNone(list, c.subject);
    }
    assert DistinctSubjects(list) by {
      forall i, j | 0 <= i < j < |list| ensures list[i].subject != list[j].subject {
        assert (list + [c])[i] == list[i] && (list + [c])[j] == list[j];
      }
    }
    Appended(list, c);
    hide Find, DistinctSubjects;
    if c.subject != subject { Appended(r, c); }
  }

  // ---------- the engine ----------

  function RegsOf(keys: map<Str, seq<Dot>>): map<Str, set<Dot>> { map k | k in keys :: Dots(keys[k]) }

  function DocView(d: Document, list: seq<Conflict>): View {
    Documents.View(d.clock, RegsOf(d.keys), Index(list))
  }

  function LiveAt(keys: map<Str, seq<Dot>>, k: Str): set<Dot> { if k in keys then Dots(keys[k]) else {} }

  /** What the patch loop must have built to have applied the stamped write `w` to `v`. */
  lemma BuiltView(v: View, w: Documents.Write, v': View)
    requires v'.clock == Join(v.clock, w.clock)
    requires v'.regs.Keys == v.regs.Keys + w.patch.Keys
    requires forall k :: Documents.Reg(v', k) == Documents.RegAfter(v, w, k)
    requires forall k :: OpenAt(v', k) ==
               if w.belief && k in w.patch then Contested(Documents.RegAfter(v, w, k)) else OpenAt(v, k)
    ensures v' == Documents.ApplyStamped(v, w)
  {
    hide Documents.RegAfter, Documents.ApplyStamped, Contested, Join;
    var u := Documents.ApplyStamped(v, w);
    forall k ensures Documents.Reg(v', k) == Documents.Reg(u, k) && OpenAt(v', k) == OpenAt(u, k) {
      Documents.StampedReg(v, w, k);
      StampedOpen(v, w, k);
    }
    ShapeOfApplied(v, w);
    SameView(v', u);
  }

  lemma ShapeOfApplied(v: View, w: Documents.Write)
    ensures Documents.ApplyStamped(v, w).regs.Keys == v.regs.Keys + w.patch.Keys
    ensures Documents.ApplyStamped(v, w).clock == Join(v.clock, w.clock)
  {
    hide Join, Documents.RegAfter, Documents.OpenAfter;
  }

  lemma SameView(p: View, q: View)
    requires p.clock == q.clock && p.regs.Keys == q.regs.Keys
    requires forall k :: Documents.Reg(p, k) == Documents.Reg(q, k) && OpenAt(p, k) == OpenAt(q, k)
    ensures p == q
  {
    forall k | k in p.regs ensures p.regs[k] == q.regs[k] { assert Documents.Reg(p, k) == Documents.Reg(q, k); }
    forall k | k in p.open || k in q.open ensures k in p.open && k in q.open && p.open[k] == q.open[k] {
      assert OpenAt(p, k) == OpenAt(q, k);
    }
    assert p.open == q.open;
  }

  predicate Registers(keys: map<Str, seq<Dot>>) { forall k :: k in keys ==> Distinct(keys[k]) }

  ghost predicate RegsDone(keys0: map<Str, seq<Dot>>, keys: map<Str, seq<Dot>>, w: Documents.Write, done: set<Str>)
    requires done <= w.patch.Keys
  {
    Registers(keys) && keys.Keys == keys0.Keys + done
    && forall k :: LiveAt(keys, k) == if k in done then Absorbed(LiveAt(keys0, k), Documents.DotOf(w, k)) else LiveAt(keys0, k)
  }

  /** `list` is `list0` with the entries of the subjects in `done` brought up to date. */
  ghost predicate ListDone(list0: seq<Conflict>, list: seq<Conflict>, keys: map<Str, seq<Dot>>, done: set<Str>) {
    DistinctSubjects(list)
    && forall k :: FindDots(list, k) == if k in done then Contested(LiveAt(keys, k)) else FindDots(list0, k)
  }

  /** One key of the patch: absorb the write into its register. */
  method AbsorbKey(keys: map<Str, seq<Dot>>, k: Str, d: Dot) returns (r: map<Str, seq<Dot>>)
    requires Registers(keys)
    ensures Registers(r) && r.Keys == keys.Keys + {k}
    ensures forall j :: LiveAt(r, j) == if j == k then Absorbed(LiveAt(keys, k), d) else LiveAt(keys, j)
  {
    hide Absorbed, Dots, Distinct;
    var ent := if k in keys then keys[k] else [];
    assert Distinct(ent) && Dots(ent) == LiveAt(keys, k) by { EmptyRegister(); }
    ent := Absorb(ent, d);
    r := keys[k := ent];
  }

  /** One key of a belief patch: record or clear the subject's conflict. */
  method NoteKey(list: seq<Conflict>, surfaced: seq<Conflict>, k: Str, ent: seq<Dot>)
    returns (list': seq<Conflict>, surfaced': seq<Conflict>)
    requires DistinctSubjects(list) && DistinctSubjects(surfaced) && Find(surfaced, k).None?
    ensures DistinctSubjects(list') && DistinctSubjects(surfaced')
    ensures forall s :: FindDots(list', s) == if s == k then Contested(Dots(ent)) else FindDots(list, s)
    ensures forall s :: FindDots(surfaced', s) == if s == k then Contested(Dots(ent)) else FindDots(surfaced, s)
  {
    surfaced' := surfaced;
    var bad := IsConflicted(ent);
    hide Conflicted, Dots, Find, DistinctSubjects;
    if bad {
      list' := Upsert(list, Conflict(k, ent));
      Appended(surfaced, Conflict(k, ent));
      surfaced' := surfaced + [Conflict(k, ent)];
    } else {
      list' := Clear(list, k);
    }
  }

  lemma {:induction false} Appended(list: seq<Conflict>, bc: Conflict)
    requires DistinctSubjects(list) && Find(list, bc.subject).None?
    ensures DistinctSubjects(list + [bc])
    ensures forall s :: Find(list + [bc], s) == if s == bc.subject then Some(bc.candidates) else Find(list, s)
  {
    forall j | 0 <= j < |list| ensures list[j].subject != bc.subject { FindAt(list, j); }
    forall s ensures Find(list + [bc], s) == if s == bc.subject then Some(bc.candidates) else Find(list, s) {
      AppendFind(list, bc, s);
    }
  }

  /** The loop over the patch, in whatever order the map yields its keys. */
  method PatchLoop(keys0: map<Str, seq<Dot>>, list0: seq<Conflict>, w: Documents.Write)
    returns (keys: map<Str, seq<Dot>>, list: seq<Conflict>, surfaced: seq<Conflict>)
    requires Registers(keys0) && DistinctSubjects(list0)
    ensures RegsDone(keys0, keys, w, w.patch.Keys)
    ensures ListDone(list0, list, keys, if w.belief then w.patch.Keys else {})
    ensures ListDone([], surfaced, keys, if w.belief then w.patch.Keys else {})
  {
    keys, list, surfaced := keys0, list0, [];
    EmptyList();
    var done: set<Str> := {};
    hide *;
    NothingDone(keys0, list0, w);
    while done != w.patch.Keys
      invariant done <= w.patch.Keys
      invariant RegsDone(keys0, keys, w, done)
      invariant ListDone(list0, list, keys, if w.belief then done else {})
      invariant ListDone([], surfaced, keys, if w.belief then done else {})
      decreases w.patch.Keys - done
    {
      var todo := w.patch.Keys - done;
      SomeLeft(w.patch.Keys, done);
      var k :| k in todo;
      RegistersDone(keys0, keys, w, done);
      ghost var before := keys;
      keys := AbsorbKey(keys, k, Documents.DotOf(w, k));
      RegsDoneStep(keys0, before, keys, w, done, k);
      if w.belief {
        ListIsDistinct(list0, list, before, done);
        ListIsDistinct([], surfaced, before, done);
        ghost var list1, surfaced1 := list, surfaced;
        list, surfaced := NoteKey(list, surfaced, k, keys[k]);
        ListDoneStep(list0, list1, list, before, keys, done, k);
        ListDoneStep([], surfaced1, surfaced, before, keys, done, k);
      } else {
        ListUntouched(list0, list, before, keys);
        ListUntouched([], surfaced, before, keys);
      }
      done := done + {k};
    }
  }

  lemma SomeLeft<T>(all: set<T>, done: set<T>)
    requires done <= all && done != all
    ensures all - done != {}
  {
    if all - done == {} {
      forall x | x in all ensures x in done { assert x !in all - done; }
    }
  }

  lemma NothingDone(keys0: map<Str, seq<Dot>>, list0: seq<Conflict>, w: Documents.Write)
    requires Registers(keys0) && DistinctSubjects(list0)
    ensures RegsDone(keys0, keys0, w, {}) && ListDone(list0, list0, keys0, {}) && ListDone([], [], keys0, {})
  {
    hide Absorbed, LiveAt, FindDots, Contested;
  }

  lemma RegistersDone(keys0: map<Str, seq<Dot>>, keys: map<Str, seq<Dot>>, w: Documents.Write, done: set<Str>)
    requires done <= w.patch.Keys && RegsDone(keys0, keys, w, done)
    ensures Registers(keys)
  {
  }

  lemma {:induction false} ListIsDistinct(list0: seq<Conflict>, list: seq<Conflict>, keys: map<Str, seq<Dot>>, done: set<Str>)
    requires ListDone(list0, list, keys, done)
    ensures DistinctSubjects(list)
    ensures list0 == [] ==> forall k :: k !in done ==> Find(list, k) == None
  {
    hide LiveAt, Contested;
    forall k | list0 == [] && k !in done ensures Find(list, k) == None { NotFound(list, k); }
  }

  lemma RegsDoneStep(keys0: map<Str, seq<Dot>>, before: map<Str, seq<Dot>>, keys: map<Str, seq<Dot>>,
      w: Documents.Write, done: set<Str>, k: Str)
    requires done <= w.patch.Keys && k in w.patch.Keys - done && RegsDone(keys0, before, w, done)
    requires Registers(keys) && keys.Keys == before.Keys + {k}
    requires forall j :: LiveAt(keys, j) ==
               if j == k then Absorbed(LiveAt(before, k), Documents.DotOf(w, k)) else LiveAt(before, j)
    ensures RegsDone(keys0, keys, w, done + {k})
  {
    hide Absorbed, LiveAt, Registers;
  }

  lemma ListDoneStep(list0: seq<Conflict>, list1: seq<Conflict>, list: seq<Conflict>, before: map<Str, seq<Dot>>,
      keys: map<Str, seq<Dot>>, done: set<Str>, k: Str)
    requires ListDone(list0, list1, before, done) && k !in done && k in keys && DistinctSubjects(list)
    requires forall j :: j != k ==> LiveAt(keys, j) == LiveAt(before, j)
    requires forall s :: FindDots(list, s) == if s == k then Contested(Dots(keys[k])) else FindDots(list1, s)
    ensures ListDone(list0, list, keys, done + {k})
  {
    LiveEntry(keys, k);
    hide LiveAt, FindDots, DistinctSubjects, Dots, Contested;
  }

  lemma ListUntouched(list0: seq<Conflict>, list: seq<Conflict>, before: map<Str, seq<Dot>>, keys: map<Str, seq<Dot>>)
    requires ListDone(list0, list, before, {})
    ensures ListDone(list0, list, keys, {})
  {
    hide LiveAt, FindDots, DistinctSubjects, Contested;
  }

  lemma LiveEntry(keys: map<Str, seq<Dot>>, k: Str)
    requires k in keys
    ensures LiveAt(keys, k) == Dots(keys[k])
  {
  }

  lemma {:induction false} NotFound(cs: seq<Conflict>, s: Str)
    ensures FindDots(cs, s) == None <==> Find(cs, s) == None
  {
  }

  lemma EmptyList()
    ensures DistinctSubjects([]) && forall s :: FindDots([], s) == None
  {
  }

  lemma EmptyRegister()
    ensures Distinct<Dot>([]) && Dots([]) == {}
  {
  }

  ghost predicate Good(d: Document, list: seq<Conflict>) {
    Registers(d.keys) && DistinctSubjects(list) && Documents.Below(DocView(d, list))
  }

  const NewDocument: Document := Document(map[], map[])

  lemma NewView()
    ensures DocView(NewDocument, []) == Documents.EmptyView && Good(NewDocument, [])
  {
    assert Subjects([]) == {};
  }

  lemma ViewLookups(d: Document, list: seq<Conflict>, k: Str)
    ensures Documents.Reg(DocView(d, list), k) == LiveAt(d.keys, k)
    ensures OpenAt(DocView(d, list), k) == FindDots(list, k)
  {
    FindInSubjects(list, k);
  }

  /** The document and list the patch loop leaves are the applied view. */
  lemma FoldedView(d: Document, list: seq<Conflict>, d': Document, list': seq<Conflict>, w: Documents.Write)
    requires d'.clock == Join(d.clock, w.clock)
    requires RegsDone(d.keys, d'.keys, w, w.patch.Keys)
    requires ListDone(list, list', d'.keys, if w.belief then w.patch.Keys else {})
    ensures DocView(d', list') == Documents.ApplyStamped(DocView(d, list), w)
  {
    hide Absorbed, Join, Documents.ApplyStamped, Contested, FindDots, LiveAt, OpenAt, Index, Registers;
    var v, v' := DocView(d, list), DocView(d', list');
    forall k
      ensures Documents.Reg(v', k) == Documents.RegAfter(v, w, k)
      ensures OpenAt(v', k) == if w.belief && k in w.patch then Contested(Documents.RegAfter(v, w, k)) else OpenAt(v, k)
    {
      ViewLookups(d, list, k);
      ViewLookups(d', list', k);
    }
    assert v'.regs.Keys == v.regs.Keys + w.patch.Keys;
    BuiltView(v, w, v');
  }

  /** What an op surfaces is what it leaves open among the subjects it touched. */
  lemma SurfacedIsOpen(d: Document, list0: seq<Conflict>, list: seq<Conflict>, surfaced: seq<Conflict>, done: set<Str>)
    requires ListDone(list0, list, d.keys, done) && ListDone([], surfaced, d.keys, done)
    ensures DistinctSubjects(surfaced)
    ensures forall s :: FindDots(surfaced, s) == if s in done then OpenAt(DocView(d, list), s) else None
  {
    hide DocView, OpenAt, Contested, LiveAt, DistinctSubjects;
    forall s ensures FindDots(surfaced, s) == if s in done then OpenAt(DocView(d, list), s) else None {
      ViewLookups(d, list, s);
      EmptyList();
    }
  }

  /** `apply` on the op's document: stamp, fold the clock, run the patch loop. */
  method Fold(d: Document, list: seq<Conflict>, w: Documents.Write)
    returns (d': Document, list': seq<Conflict>, surfaced: seq<Conflict>)
    requires Good(d, list)
    ensures Good(d', list') && DocView(d', list') == Documents.Apply(DocView(d, list), w)
    ensures DistinctSubjects(surfaced)
    ensures forall s :: FindDots(surfaced, s) == if w.belief && s in w.patch then OpenAt(DocView(d', list'), s) else None
  {
    hide Join, Documents.Apply, DocView, RegsDone, ListDone, Documents.Below, FindDots, OpenAt;
    assert DocView(d, list).clock == d.clock by { ClockOf(d, list); }
    var opClock := w.clock;
    if |opClock| == 0 {
      opClock := map[w.actor := (Get(d.clock, w.actor) + 1) % TWO64];
    }
    var clock := MergeMax(d.clock, opClock);
    var w' := w.(clock := opClock);
    assert w' == Documents.Stamped(DocView(d, list), w);
    var keys;
    keys, list', surfaced := PatchLoop(d.keys, list, w');
    d' := Document(clock, keys);
    FoldedView(d, list, d', list', w');
    AppliedIsStamped(DocView(d, list), w);
    SurfacedIsOpen(d', list, list', surfaced, if w.belief then w.patch.Keys else {});
    Documents.ApplyKeepsBelow(DocView(d, list), w);
    RegistersDone(d.keys, keys, w', w'.patch.Keys);
    ListIsDistinct(list, list', keys, if w.belief then w.patch.Keys else {});
  }

  /** `Resolve` on its document. */
  method ResolveDoc(d: Document, list: seq<Conflict>, resolver: Str, subject: Str, winning: Str)
    returns (d': Document, list': seq<Conflict>, resolved: bool)
    requires Good(d, list)
    ensures Good(d', list') && DocView(d', list') == Documents.Resolve(DocView(d, list), resolver, subject, winning)
    ensures resolved <==> Conflicted(Documents.Reg(DocView(d, list), subject))
    ensures !resolved ==> d' == d && list' == list
  {
    d', list' := d, list;
    var ent := if subject in d.keys then d.keys[subject] else [];
    ghost var live := Documents.Reg(DocView(d, list), subject);
    assert Dots(ent) == live by { ViewLookups(d, list, subject); EmptyRegister(); }
    resolved := IsConflicted(ent);
    if !resolved { return; }
    hide Documents.Apply, Conflicted, FindDots, OpenAt, Index, RegsOf;
    var resClock := d.clock;
    assert Documents.Below(DocView(d, list));
    for i := 0 to |ent|
      invariant resClock == d.clock
    {
      assert ent[i] in live;
      JoinWithLower(d.clock, ent[i].clock);
      resClock := MergeMax(resClock, ent[i].clock);
    }
    resClock := Tick(resClock, resolver);
    var w := Documents.Write(resolver, resClock, true, map[subject := winning]);
    hide Good;
    var surfaced;
    d', list', surfaced := Fold(d, list, w);
  }

  lemma ClockOf(d: Document, list: seq<Conflict>)
    ensures DocView(d, list).clock == d.clock
  {
  }

  lemma AppliedIsStamped(v: View, w: Documents.Write)
    ensures Documents.Apply(v, w) == Documents.ApplyStamped(v, Documents.Stamped(v, w))
  {
    hide Documents.ApplyStamped;
  }

  /** The ops of a batch that concern one document, as events of that document. */
  function EventsFor(ops: seq<Op>, doc: Str): seq<Documents.Event>
    requires forall op :: op in ops ==> op.delta.Patch?
  {
    if ops == [] then []
    else EventsFor(ops[..|ops| - 1], doc)
         + if ops[|ops| - 1].doc == doc then [Documents.Deliver(AsWrite(ops[|ops| - 1]))] else []
  }

  /** A document after the first `n` ops of a batch: its own ops, run in order. */
  ghost function MergedView(v: View, ops: seq<Op>, n: nat, doc: Str): View
    requires n <= |ops| && forall i :: 0 <= i < n ==> ops[i].delta.Patch?
  {
    Documents.Run(v, EventsFor(ops[..n], doc))
  }

  lemma MergedNone(ops: seq<Op>)
    ensures forall v, doc :: MergedView(v, ops, 0, doc) == v
  {
  }

  lemma MergedOne(v: View, ops: seq<Op>, n: nat, doc: Str)
    requires n < |ops| && forall i :: 0 <= i <= n ==> ops[i].delta.Patch?
    ensures MergedView(v, ops, n + 1, doc) ==
            var u := MergedView(v, ops, n, doc);
            if ops[n].doc == doc then Documents.Apply(u, AsWrite(ops[n])) else u
  {
    hide Documents.Apply;
    assert ops[..n + 1][..n] == ops[..n];
    var es := EventsFor(ops[..n], doc);
    if ops[n].doc == doc {
      assert (es + [Documents.Deliver(AsWrite(ops[n]))])[..|es|] == es;
    } else {
      assert es + [] == es;
    }
  }

  // ---------- what merging a batch leaves, said of the ops ----------

  /** Well-formed ops with a causal context that has no zero entry. */
  predicate Sound(ops: seq<Op>) {
    forall op :: op in ops ==> op.delta.Patch? && |op.clock| > 0 && ZeroFree(op.clock)
  }

  /** What the ops of a batch write to a key of a document. */
  function Written(ops: seq<Op>, doc: Str, key: Str): set<Dot>
    requires forall op :: op in ops ==> op.delta.Patch?
  {
    set op | op in ops && op.doc == doc && key in op.delta.entries :: Dot(op.actor, op.delta.entries[key], op.clock)
  }

  function WritesFor(ops: seq<Op>, doc: Str): seq<Documents.Write>
    requires forall op :: op in ops ==> op.delta.Patch?
  {
    if ops == [] then []
    else WritesFor(ops[..|ops| - 1], doc) + if ops[|ops| - 1].doc == doc then [AsWrite(ops[|ops| - 1])] else []
  }

  lemma {:induction false} EventsAreReplayed(ops: seq<Op>, doc: Str)
    requires forall op :: op in ops ==> op.delta.Patch?
    ensures Documents.Run(Documents.EmptyView, EventsFor(ops, doc)) == Documents.Replay(WritesFor(ops, doc))
  {
    if ops != [] {
      var init, op := ops[..|ops| - 1], ops[|ops| - 1];
      EventsAreReplayed(init, doc);
      hide Documents.Apply;
      if op.doc == doc {
        RunSnoc(Documents.EmptyView, EventsFor(init, doc), Documents.Deliver(AsWrite(op)));
        Documents.ReplaySnoc(WritesFor(init, doc), AsWrite(op));
      } else {
        assert EventsFor(init, doc) + [] == EventsFor(init, doc) && WritesFor(init, doc) + [] == WritesFor(init, doc);
      }
    }
  }

  lemma {:induction false} WritesForExactly(ops: seq<Op>, doc: Str)
    requires forall op :: op in ops ==> op.delta.Patch?
    ensures forall w :: w in WritesFor(ops, doc) <==> exists op :: op in ops && op.doc == doc && AsWrite(op) == w
  {
    if ops != [] {
      var init, last := ops[..|ops| - 1], ops[|ops| - 1];
      assert ops == init + [last];
      WritesForExactly(init, doc);
      hide AsWrite;
      forall w ensures w in WritesFor(ops, doc) <==> exists op :: op in ops && op.doc == doc && AsWrite(op) == w {
        if w in WritesFor(init, doc) {
          var op :| op in init && op.doc == doc && AsWrite(op) == w;
          assert op in ops;
        }
        assert last in ops;
      }
    }
  }

  lemma {:induction false} DeliveredIsWritten(ops: seq<Op>, doc: Str, key: Str)
    requires forall op :: op in ops ==> op.delta.Patch?
    ensures Documents.Delivered(WritesFor(ops, doc), key) == Written(ops, doc, key)
  {
    WritesForExactly(ops, doc);
    var d, e := Documents.Delivered(WritesFor(ops, doc), key), Written(ops, doc, key);
    forall x | x in d ensures x in e {
      var w :| w in WritesFor(ops, doc) && key in w.patch && Documents.DotOf(w, key) == x;
      var op :| op in ops && op.doc == doc && AsWrite(op) == w;
      assert x == Dot(op.actor, op.delta.entries[key], op.clock);
    }
    forall x | x in e ensures x in d {
      var op :| op in ops && op.doc == doc && key in op.delta.entries && Dot(op.actor, op.delta.entries[key], op.clock) == x;
      assert AsWrite(op) in WritesFor(ops, doc);
      assert Documents.DotOf(AsWrite(op), key) == x;
    }
  }

  /** After merging a batch into an empty engine, in any order, each register of each document holds exactly
      the happens-before-maximal of the values the batch wrote to it. */
  lemma MergeFrontier(ops: seq<Op>, doc: Str, key: Str)
    requires Sound(ops)
    ensures Documents.Reg(MergedView(Documents.EmptyView, ops, |ops|, doc), key) == Maximal(Written(ops, doc, key))
  {
    assert ops[..|ops|] == ops;
    EventsAreReplayed(ops, doc);
    WritesForExactly(ops, doc);
    DeliveredIsWritten(ops, doc, key);
    hide EventsFor, Written, Maximal, Documents.Run, Documents.Replay, Documents.Delivered;
    var log := WritesFor(ops, doc);
    forall w | w in log ensures |w.clock| > 0 && ZeroFree(w.clock) {
      var op :| op in ops && op.doc == doc && AsWrite(op) == w;
    }
    Convergence.ZeroFreeIsCausal(log);
    Convergence.Frontier(log);
  }

  function Concat(parts: seq<seq<Conflict>>): seq<Conflict> {
    if parts == [] then [] else Concat(parts[..|parts| - 1]) + parts[|parts| - 1]
  }

  lemma ConcatNone()
    ensures Concat([]) == []
  {
  }

  lemma {:induction false} ConcatOne(parts: seq<seq<Conflict>>, part: seq<Conflict>)
    ensures Concat(parts + [part]) == Concat(parts) + part
  {
    assert (parts + [part])[..|parts|] == parts;
  }

  /** `cs` lists, one entry each, the subjects a belief op touched and left open. */
  ghost predicate Surfaces(cs: seq<Conflict>, after: View, op: Op)
    requires op.delta.Patch?
  {
    DistinctSubjects(cs)
    && forall s :: FindDots(cs, s) == if op.belief && s in op.delta.entries then OpenAt(after, s) else None
  }

  lemma ItSurfaces(cs: seq<Conflict>, after: View, op: Op)
    requires op.delta.Patch? && DistinctSubjects(cs)
    requires forall s :: FindDots(cs, s) == if op.belief && s in op.delta.entries then OpenAt(after, s) else None
    ensures Surfaces(cs, after, op)
  {
  }

  class CrdtEngine {
    var docs: map<Str, Document>
    var conflicts: map<Str, seq<Conflict>>

    ghost predicate Valid()
      reads this
    {
      forall doc :: Good(Doc(doc), List(doc))
    }

    function Doc(doc: Str): Document
      reads this
    {
      if doc in docs then docs[doc] else NewDocument
    }

    function List(doc: Str): seq<Conflict>
      reads this
    {
      if doc in conflicts then conflicts[doc] else []
    }

    ghost function View(doc: Str): View
      reads this
    {
      DocView(Doc(doc), List(doc))
    }

    constructor ()
      ensures Valid() && forall doc :: View(doc) == Documents.EmptyView
    {
      docs, conflicts := map[], map[];
      new;
      NewView();
    }

    /** Stores a document and its list; an empty list is deleted. */
    method Persist(doc: Str, d: Document, list: seq<Conflict>)
      modifies this
      ensures Doc(doc) == d && List(doc) == list
      ensures forall other :: other != doc ==> Doc(other) == old(Doc(other)) && List(other) == old(List(other))
    {
      docs := docs[doc := d];
      conflicts := if list == [] then conflicts - {doc} else conflicts[doc := list];
    }

    /** `apply`: one op, folded into its document; a malformed delta changes nothing. */
    method ApplyOp(op: Op) returns (surfaced: seq<Conflict>, ok: bool)
      requires Valid()
      modifies this
      ensures Valid()
      ensures ok <==> op.delta.Patch?
      ensures forall doc :: doc != op.doc || !ok ==> View(doc) == old(View(doc))
      ensures ok ==> View(op.doc) == Documents.Apply(old(View(op.doc)), AsWrite(op))
      ensures DistinctSubjects(surfaced)
      ensures forall s :: FindDots(surfaced, s) ==
                if ok && op.belief && s in op.delta.entries then OpenAt(View(op.doc), s) else None
    {
      surfaced, ok := [], op.delta.Patch?;
      EmptyList();
      if ok {
        hide Documents.Apply, DocView, FindDots, OpenAt, Good;
        var d, list;
        d, list, surfaced := Fold(Doc(op.doc), List(op.doc), AsWrite(op));
        Persist(op.doc, d, list);
      }
    }

    /** `Merge`: ops in order, up to the first malformed one. Each document goes through its own events,
        and what is returned is what each op surfaced, op after op. */
    method Merge(remote: seq<Op>) returns (surfaced: seq<Conflict>, n: nat, ok: bool, ghost parts: seq<seq<Conflict>>)
      requires Valid()
      modifies this
      ensures Valid()
      ensures n <= |remote| && (forall i :: 0 <= i < n ==> remote[i].delta.Patch?)
      ensures ok <==> n == |remote|
      ensures !ok ==> remote[n].delta.Malformed?
      ensures forall doc :: View(doc) == MergedView(old(View(doc)), remote, n, doc)
      ensures surfaced == Concat(parts) && |parts| == n
      ensures forall i :: 0 <= i < n ==>
                Surfaces(parts[i], MergedView(old(View(remote[i].doc)), remote, i + 1, remote[i].doc), remote[i])
    {
      hide Documents.Apply, DocView, Good, MergedView, Surfaces, Concat;
      surfaced, n, ok, parts := [], 0, true, [];
      MergedNone(remote);
      ConcatNone();
      while n < |remote|
        invariant n <= |remote| && Valid()
        invariant forall i :: 0 <= i < n ==> remote[i].delta.Patch?
        invariant forall doc :: View(doc) == MergedView(old(View(doc)), remote, n, doc)
        invariant surfaced == Concat(parts) && |parts| == n
        invariant forall i :: 0 <= i < n ==>
                    Surfaces(parts[i], MergedView(old(View(remote[i].doc)), remote, i + 1, remote[i].doc), remote[i])
      {
        var part, applied := ApplyOp(remote[n]);
        if !applied { return surfaced, n, false, parts; }
        forall doc ensures View(doc) == MergedView(old(View(doc)), remote, n + 1, doc) {
          MergedOne(old(View(doc)), remote, n, doc);
        }
        ItSurfaces(part, View(remote[n].doc), remote[n]);
        ConcatOne(parts, part);
        surfaced, n, parts := surfaced + part, n + 1, parts + [part];
      }
    }

    /** `Resolve`: write the winning value under a clock above everything the document has seen. */
    method Resolve(doc: Str, resolver: Str, subject: Str, winning: Str) returns (resolved: bool)
      requires Valid()
      modifies this
      ensures Valid()
      ensures resolved <==> Conflicted(Documents.Reg(old(View(doc)), subject))
      ensures View(doc) == Documents.Resolve(old(View(doc)), resolver, subject, winning)
      ensures forall other :: other != doc ==> View(other) == old(View(other))
    {
      hide Documents.Resolve, DocView, Good, Conflicted;
      var d, list;
      d, list, resolved := ResolveDoc(Doc(doc), List(doc), resolver, subject, winning);
      if resolved { Persist(doc, d, list); }
    }

    /** `Conflicts`: the open list, one entry per open subject. */
    method Conflicts(doc: Str) returns (cs: seq<Conflict>)
      requires Valid()
      ensures DistinctSubjects(cs)
      ensures forall s :: FindDots(cs, s) == OpenAt(View(doc), s)
    {
      cs := List(doc);
      assert Good(Doc(doc), cs);
      forall s ensures FindDots(cs, s) == OpenAt(View(doc), s) { ViewLookups(Doc(doc), cs, s); }
    }

    /** `Get`: the deterministic read of a key. */
    method Read(doc: Str, key: Str) returns (v: Option<Str>)
      requires Valid()
      ensures v.None? <==> Documents.Reg(View(doc), key) == {}
      ensures v.Some? ==> IsLww(Documents.Reg(View(doc), key), v.value)
      ensures var live := Documents.Reg(View(doc), key);
              v.Some? ==> exists d :: d in live && d.value == v.value && Tops(d, live)
    {
      var keys := Doc(doc).keys;
      ViewLookups(Doc(doc), List(doc), key);
      if key !in keys || keys[key] == [] { return None; }
      assert keys[key][0] in Dots(keys[key]);
      v := LwwValue(keys[key]);
      ReadExactly(Dots(keys[key]), v.value);
    }
  }

  /** The peer id an agent name is copied into: its first 32 bytes, zero-padded. */
  function ActorOf(agent: Str): Str {
    if |agent| >= 32 then agent[..32] else agent + seq(32 - |agent|, _ => 0)
  }

  /** A name's byte at a position; past its end it reads as zero. */
  function ByteAt(s: Str, i: nat): byte { if i < |s| then s[i] else 0 }

  /** Two names are one actor if and only if their first 32 bytes agree, with missing bytes read as zero. */
  lemma ActorsExactly(a: Str, b: Str)
    ensures |ActorOf(a)| == 32
    ensures ActorOf(a) == ActorOf(b) <==> forall i: nat :: i < 32 ==> ByteAt(a, i) == ByteAt(b, i)
  {
    ActorAt(a);
    ActorAt(b);
    assert ActorOf(a) == ActorOf(b) <==> forall i: nat :: i < 32 ==> ActorOf(a)[i] == ActorOf(b)[i];
  }

  lemma ActorAt(a: Str)
    ensures |ActorOf(a)| == 32 && forall i: nat :: i < 32 ==> ActorOf(a)[i] == ByteAt(a, i)
  {
  }

  /** Two agents that assert different values of a subject conflict if and only if they are two actors. */
  lemma AgentsConflictExactly(a: Str, b: Str, subject: Str, x: Str, y: Str)
    requires x != y
    ensures var hist := [Assertions.Assertion(ActorOf(a), subject, x), Assertions.Assertion(ActorOf(b), subject, y)];
            OpenAt(Documents.Run(Documents.EmptyView, Assertions.Events(hist)), subject).Some? <==>
              exists i: nat :: i < 32 && ByteAt(a, i) != ByteAt(b, i)
  {
    ActorsExactly(a, b);
    hide ActorOf, ByteAt;
    Assertions.TwoConflict(ActorOf(a), ActorOf(b), subject, x, y);
  }

  /** `applyBeliefAssertion`: assert without a clock, then report the subject's conflict and live values.
      The reported values are, as a set, the register's live values, exactly when the assertion was not
      lost to a used-up counter. */
  method AssertBelief(eng: CrdtEngine, doc: Str, agent: Str, subject: Str, value: Str) returns (conflict: bool, values: seq<Str>)
    requires eng.Valid()
    modifies eng
    ensures eng.Valid()
    ensures eng.View(doc) == Documents.Apply(old(eng.View(doc)),
          Assertions.AsWrite(Assertions.Assertion(ActorOf(agent), subject, value)))
    ensures conflict <==> Conflicted(Documents.Reg(eng.View(doc), subject))
    ensures (set v | v in values) == Values(Documents.Reg(eng.View(doc), subject))
       <==> !Assertions.Lost(old(eng.View(doc)), Assertions.Assertion(ActorOf(agent), subject, value))
  {
    hide Documents.Apply, DocView, Conflicted, FindDots, Documents.Below, Documents.Reg, Values, OpenAt, Assertions.Lost;
    ghost var before := eng.View(doc);
    ghost var a := Assertions.Assertion(ActorOf(agent), subject, value);
    assert Documents.Below(before) by { assert Good(eng.Doc(doc), eng.List(doc)); }
    var op := Op(doc, ActorOf(agent), map[], true, Patch(map[subject := value]));
    var _, _ := eng.ApplyOp(op);
    assert AsWrite(op) == Assertions.AsWrite(a);
    ghost var live := Documents.Reg(eng.View(doc), subject);
    AssertedSubjectIndexed(before, a);
    Assertions.ReportExactly(before, a);
    var cs := eng.Conflicts(doc);
    conflict, values := ReportedValues(cs, subject, value, live);
  }

  /** The scan over the open conflicts. */
  method ReportedValues(cs: seq<Conflict>, subject: Str, value: Str, ghost live: set<Dot>)
    returns (conflict: bool, values: seq<Str>)
    requires DistinctSubjects(cs) && FindDots(cs, subject) == Contested(live)
    ensures conflict <==> Conflicted(live)
    ensures (set v | v in values) == if conflict then Values(live) else {value}
  {
    ContestedDots(cs, subject, live);
    for i := 0 to |cs|
      invariant forall j :: 0 <= j < i ==> cs[j].subject != subject
    {
      if cs[i].subject == subject {
        FindAt(cs, i);
        values := seq(|cs[i].candidates|, k requires 0 <= k < |cs[i].candidates| => cs[i].candidates[k].value);
        CandidateValues(cs[i].candidates, values);
        return true, values;
      }
    }
    FindNone(cs, subject);
    return false, [value];
  }

  lemma AssertedSubjectIndexed(v: View, a: Assertions.Assertion)
    ensures var v' := Documents.Apply(v, Assertions.AsWrite(a));
            OpenAt(v', a.subject) == Contested(Documents.Reg(v', a.subject))
  {
    var w := Documents.Stamped(v, Assertions.AsWrite(a));
    hide Documents.RegAfter, Documents.ApplyStamped, Contested;
    StampedOpen(v, w, a.subject);
    Documents.StampedReg(v, w, a.subject);
  }

  lemma {:induction false} ContestedDots(cs: seq<Conflict>, subject: Str, live: set<Dot>)
    requires FindDots(cs, subject) == Contested(live)
    ensures Conflicted(live) <==> Find(cs, subject).Some?
    ensures Conflicted(live) ==> Dots(Find(cs, subject).value) == live
  {
  }

  lemma CandidateValues(ds: seq<Dot>, values: seq<Str>)
    requires |values| == |ds| && forall k :: 0 <= k < |ds| ==> values[k] == ds[k].value
    ensures (set v | v in values) == Values(Dots(ds))
  {
    forall v | v in values ensures v in Values(Dots(ds)) {
      var k :| 0 <= k < |values| && values[k] == v;
      assert ds[k] in Dots(ds);
    }
    forall v | v in Values(Dots(ds)) ensures v in values {
      var d :| d in Dots(ds) && d.value == v;
      var k :| 0 <= k < |ds| && ds[k] == d;
      assert values[k] == v;
    }
  }
}
