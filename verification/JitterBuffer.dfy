/** The receiver's jitter buffer (daemon/audio/receiver.go) as a state machine, over every arrival order. */
module JitterBuffer {
  import opened Machine
  import opened Packet

  datatype GapFill = Silence | Hold

  /** TargetFrames and MaxFrames are Go ints. */
  datatype Config = Config(target: i64, max: i64, gapFill: GapFill)

  function WithDefaults(c: Config): Config {
    var target := if c.target <= 0 then 3 else c.target;
    Config(target, if c.max < target then Wrap64(target * 4) else c.max, c.gapFill)
  }

  datatype Rx = Rx(cfg: Config, buf: map<u64, Frame>, nextSeq: u64, started: bool, last: Frame, format: Format, level: real,
                   played: nat, concealed: nat, dropped: nat, sink: seq<Frame>)

  function Fresh(cfg: Config, sinkFormat: Format): Rx {
    Rx(WithDefaults(cfg), map[], 0, false, Frame([]), sinkFormat, 0.0, 0, 0, 0, [])
  }

  // ---------- the steps ----------

  function Anchored(r: Rx, p: Packet): Rx {
    if r.started then r else r.(nextSeq := p.sequence, format := p.format, started := true)
  }

  predicate Accepts(r: Rx, p: Packet) {
    var a := Anchored(r, p);
    p.sequence >= a.nextSeq && p.sequence !in a.buf && |a.buf| < a.cfg.max
  }

  function Offer(r: Rx, p: Packet): Rx {
    var a := Anchored(r, p);
    if Accepts(r, p) then a.(buf := a.buf[p.sequence := p.frame]) else a.(dropped := a.dropped + 1)
  }

  function Silent(f: Format): Frame { Frame(seq(SamplesPerPacket(f), _ => 0)) }

  function Fill(mode: GapFill, last: Frame, f: Format): Frame {
    if mode == Hold && |last.samples| > 0 then last else Silent(f)
  }

  predicate HeadReady(r: Rx) { r.nextSeq in r.buf }

  function PlayOne(r: Rx): Rx {
    var next := (r.nextSeq + 1) % TWO64;
    if HeadReady(r) then
      var f := r.buf[r.nextSeq];
      r.(buf := r.buf - {r.nextSeq}, last := f, played := r.played + 1, nextSeq := next, sink := r.sink + [f])
    else
      r.(concealed := r.concealed + 1, nextSeq := next, sink := r.sink + [Fill(r.cfg.gapFill, r.last, r.format)])
  }

  /** The loop filter, over the reals. */
  function Filtered(r: Rx): Rx {
    var err := |r.buf| as real - r.cfg.target as real;
    r.(level := r.level + 0.1 * (err - r.level))
  }

  /** How many frames to play: two to drain, none to hold, one otherwise. */
  function Beats(r: Rx): nat {
    if r.level > 1.0 then 2 else if r.level < -1.0 && !HeadReady(r) then 0 else 1
  }

  function PlayN(r: Rx, n: nat): Rx {
    if n == 0 then r else PlayOne(PlayN(r, n - 1))
  }

  function Tick(r: Rx): Rx {
    if !r.started then r else var f := Filtered(r); PlayN(f, Beats(f))
  }

  // ---------- the reference playout ----------

  /** What was heard so far: the first sequence, and the accepted frame of each sequence. */
  datatype History = History(anchor: u64, accepted: map<u64, Frame>)

  /** The last accepted frame among the first `n` slots. */
  function LastPlayed(h: History, n: nat): Frame {
    if n == 0 then Frame([])
    else if h.anchor + n - 1 in h.accepted then h.accepted[h.anchor + n - 1]
    else LastPlayed(h, n - 1)
  }

  function Slot(h: History, mode: GapFill, f: Format, i: nat): Frame {
    if h.anchor + i in h.accepted then h.accepted[h.anchor + i] else Fill(mode, LastPlayed(h, i), f)
  }

  /** The first `n` slots of the stream. */
  function Playout(h: History, mode: GapFill, f: Format, n: nat): (s: seq<Frame>)
    ensures |s| == n
  {
    if n == 0 then [] else Playout(h, mode, f, n - 1) + [Slot(h, mode, f, n - 1)]
  }

  lemma {:induction false} PlayoutStable(h: History, h': History, mode: GapFill, f: Format, n: nat)
    requires h'.anchor == h.anchor
    requires forall s :: h.anchor <= s < h.anchor + n ==> (s in h.accepted <==> s in h'.accepted)
    requires forall s :: h.anchor <= s < h.anchor + n && s in h.accepted ==> h.accepted[s] == h'.accepted[s]
    ensures Playout(h', mode, f, n) == Playout(h, mode, f, n) && LastPlayed(h', n) == LastPlayed(h, n)
  {
    if n > 0 { PlayoutStable(h, h', mode, f, n - 1); }
  }

  /** Slot by slot: the accepted frame for that sequence, else the gap fill. */
  lemma {:induction false} PlayoutAt(h: History, mode: GapFill, f: Format, n: nat, i: nat)
    requires i < n
    ensures Playout(h, mode, f, n)[i] == Slot(h, mode, f, i)
  {
    if i < n - 1 { PlayoutAt(h, mode, f, n - 1, i); }
  }

  // ---------- the invariant ----------

  function Capacity(c: Config): nat { if c.max < 0 then 0 else c.max }

  /** The playout position without wrap-around: the slot after the last one that went to the sink. */
  function Position(r: Rx, h: History): nat { h.anchor + |r.sink| }

  /** The buffer holds exactly the accepted frames whose slot is still to be played. */
  ghost predicate Pending(buf: map<u64, Frame>, pos: nat, h: History) {
    (forall s :: s in buf <==> s in h.accepted && s >= pos)
    && (forall s :: s in buf ==> buf[s] == h.accepted[s])
    && (forall s :: s in h.accepted ==> s >= h.anchor)
  }

  /** Every slot up to the playout position went to the sink once, played or concealed. */
  ghost predicate Sounded(r: Rx, h: History) {
    if r.started then
      r.nextSeq == Position(r, h) % TWO64
      && r.played + r.concealed == |r.sink|
      && r.sink == Playout(h, r.cfg.gapFill, r.format, |r.sink|)
      && r.last == LastPlayed(h, |r.sink|)
    else
      h.accepted == map[] && r.played == r.concealed == 0 && r.sink == [] && r.last == Frame([])
  }

  /** The receiver's invariant; `offered` counts the packets heard, readable or not. */
  ghost predicate Inv(r: Rx, h: History, offered: nat) {
    |r.buf| <= Capacity(r.cfg)
    && offered == r.dropped + r.played + |r.buf|
    && Pending(r.buf, Position(r, h), h)
    && Sounded(r, h)
  }

  function Heard(r: Rx, h: History, p: Packet): History {
    History(if r.started then h.anchor else p.sequence,
            if Accepts(r, p) then h.accepted[p.sequence := p.frame] else h.accepted)
  }

  lemma AnchorKeepsInv(r: Rx, h: History, offered: nat, p: Packet)
    requires Inv(r, h, offered) && !r.started
    ensures Inv(Anchored(r, p), h.(anchor := p.sequence), offered)
  {
  }

  lemma Inserted<T>(m: map<u64, T>, k: u64, v: T)
    requires k !in m
    ensures |m[k := v]| == |m| + 1
  {
    assert m[k := v].Keys == m.Keys + {k};
  }

  lemma Removed<T>(m: map<u64, T>, k: u64)
    requires k in m
    ensures |m - {k}| == |m| - 1
  {
    assert (m - {k}).Keys == m.Keys - {k};
  }

  lemma AcceptPending(buf: map<u64, Frame>, pos: nat, h: History, s: u64, f: Frame)
    requires Pending(buf, pos, h) && s >= pos >= h.anchor && s !in buf
    ensures Pending(buf[s := f], pos, h.(accepted := h.accepted[s := f]))
  {
  }

  lemma AcceptSounded(a: Rx, h: History, s: u64, f: Frame)
    requires Sounded(a, h) && a.started && s >= Position(a, h)
    ensures Sounded(a.(buf := a.buf[s := f]), h.(accepted := h.accepted[s := f]))
  {
    PlayoutStable(h, h.(accepted := h.accepted[s := f]), a.cfg.gapFill, a.format, |a.sink|);
    hide Playout, LastPlayed;
  }

  lemma AcceptKeepsInv(a: Rx, h: History, offered: nat, s: u64, f: Frame)
    requires Inv(a, h, offered) && a.started && Position(a, h) < TWO64
    requires s >= a.nextSeq && s !in a.buf && |a.buf| < a.cfg.max
    ensures Inv(a.(buf := a.buf[s := f]), h.(accepted := h.accepted[s := f]), offered + 1)
  {
    assert a.nextSeq == Position(a, h);
    hide Pending, Sounded;
    Inserted(a.buf, s, f);
    AcceptPending(a.buf, Position(a, h), h, s, f);
    AcceptSounded(a, h, s, f);
  }

  lemma DropKeepsInv(a: Rx, h: History, offered: nat)
    requires Inv(a, h, offered)
    ensures Inv(a.(dropped := a.dropped + 1), h, offered + 1)
  {
    hide Pending, Playout, LastPlayed;
  }

  /** The position has not passed the end of the 64-bit range when a packet is accepted. */
  predicate InRange(r: Rx, h: History, p: Packet) { r.started && Accepts(r, p) ==> Position(r, h) < TWO64 }

  lemma OfferKeepsInv(r: Rx, h: History, offered: nat, p: Packet)
    requires Inv(r, h, offered) && InRange(r, h, p)
    ensures Inv(Offer(r, p), Heard(r, h, p), offered + 1)
  {
    var a, g := Anchored(r, p), if r.started then h else h.(anchor := p.sequence);
    assert Accepts(r, p) ==> Position(a, g) < TWO64;
    hide Inv;
    if !r.started { AnchorKeepsInv(r, h, offered, p); }
    if Accepts(r, p) {
      AcceptKeepsInv(a, g, offered, p.sequence, p.frame);
    } else {
      DropKeepsInv(a, g, offered);
    }
  }

  /** A packet accepted after that would be played in a slot that is long past. */
  lemma OfferInvExactly(r: Rx, h: History, offered: nat, p: Packet)
    requires Inv(r, h, offered)
    ensures Inv(Offer(r, p), Heard(r, h, p), offered + 1) <==> InRange(r, h, p)
  {
    if InRange(r, h, p) {
      OfferKeepsInv(r, h, offered, p);
    } else {
      hide Sounded;
      assert p.sequence in Offer(r, p).buf && Position(Offer(r, p), Heard(r, h, p)) >= TWO64;
    }
  }

  lemma PlayPending(buf: map<u64, Frame>, pos: nat, h: History)
    requires Pending(buf, pos, h)
    ensures Pending(buf - {pos % TWO64}, pos + 1, h)
  {
    assert pos < TWO64 ==> pos % TWO64 == pos;
  }

  lemma PlaySounded(r: Rx, h: History)
    requires Pending(r.buf, Position(r, h), h) && Sounded(r, h) && r.started
    ensures Sounded(PlayOne(r), h)
  {
    var n := |r.sink|;
    assert HeadReady(r) <==> h.anchor + n in h.accepted;
    assert Playout(h, r.cfg.gapFill, r.format, n + 1) == Playout(h, r.cfg.gapFill, r.format, n)
          + [Slot(h, r.cfg.gapFill, r.format, n)];
    assert LastPlayed(h, n + 1) == if h.anchor + n in h.accepted then h.accepted[h.anchor + n] else LastPlayed(h, n);
    assert HeadReady(r) ==> r.buf[r.nextSeq] == h.accepted[h.anchor + n];
    hide Playout, LastPlayed, Fill, Pending;
    AddModulo(Position(r, h), 1);
  }

  /** What one step does to everything but the sound. */
  lemma PlayShape(r: Rx)
    ensures var u := PlayOne(r);
            u.buf == r.buf - {r.nextSeq} && u.nextSeq == (r.nextSeq + 1) % TWO64 && u.started == r.started && u.cfg == r.cfg
            && u.dropped == r.dropped && u.played + |u.buf| == r.played + |r.buf| && |u.buf| <= |r.buf|
            && |u.sink| == |r.sink| + 1
  {
    hide Fill;
    if HeadReady(r) { Removed(r.buf, r.nextSeq); } else { assert r.buf - {r.nextSeq} == r.buf; }
  }

  lemma PlayKeepsInv(r: Rx, h: History, offered: nat)
    requires Inv(r, h, offered) && r.started
    ensures Inv(PlayOne(r), h, offered) && PlayOne(r).started
  {
    assert r.nextSeq == Position(r, h) % TWO64;
    hide Pending, Sounded, PlayOne;
    PlayShape(r);
    PlayPending(r.buf, Position(r, h), h);
    PlaySounded(r, h);
  }

  lemma {:induction false} PlayNKeepsInv(r: Rx, h: History, offered: nat, n: nat)
    requires Inv(r, h, offered) && r.started
    ensures Inv(PlayN(r, n), h, offered) && PlayN(r, n).started
  {
    hide Inv, PlayOne;
    if n > 0 {
      PlayNKeepsInv(r, h, offered, n - 1);
      PlayKeepsInv(PlayN(r, n - 1), h, offered);
    }
  }

  lemma FilterKeepsInv(r: Rx, h: History, offered: nat)
    requires Inv(r, h, offered)
    ensures Inv(Filtered(r), h, offered) && Filtered(r).started == r.started
  {
    hide Pending, Playout, LastPlayed;
  }

  lemma TickKeepsInv(r: Rx, h: History, offered: nat)
    requires Inv(r, h, offered)
    ensures Inv(Tick(r), h, offered) && Tick(r).started == r.started
  {
    hide Inv, PlayN, Filtered;
    if r.started {
      FilterKeepsInv(r, h, offered);
      PlayNKeepsInv(Filtered(r), h, offered, Beats(Filtered(r)));
    }
  }

  // ---------- every run ----------

  /** Any interleaving of arrivals and playout ticks; a corrupt packet counts as offered and dropped. */
  datatype Event = Arrive(p: Packet) | Corrupt | Beat

  function Step(r: Rx, e: Event): Rx {
    match e
    case Arrive(p) => Offer(r, p)
    case Corrupt => r.(dropped := r.dropped + 1)
    case Beat => Tick(r)
  }

  function Run(r: Rx, events: seq<Event>): Rx {
    if events == [] then r else Step(Run(r, events[..|events| - 1]), events[|events| - 1])
  }

  function Noted(r: Rx, h: History, e: Event): History { if e.Arrive? then Heard(r, h, e.p) else h }

  function Recorded(r: Rx, events: seq<Event>): History {
    if events == [] then History(0, map[])
    else Noted(Run(r, events[..|events| - 1]), Recorded(r, events[..|events| - 1]), events[|events| - 1])
  }

  function Counts(e: Event): nat { if e.Beat? then 0 else 1 }

  function Offered(events: seq<Event>): nat {
    if events == [] then 0 else Offered(events[..|events| - 1]) + Counts(events[|events| - 1])
  }

  /** No packet is accepted after the playout position has passed the end of the 64-bit range. */
  predicate NoWrap(r: Rx, events: seq<Event>) {
    events == []
    || (var init, e := events[..|events| - 1], events[|events| - 1];
        NoWrap(r, init) && (e.Arrive? ==> InRange(Run(r, init), Recorded(r, init), e.p)))
  }

  ghost predicate InvThroughout(r: Rx, events: seq<Event>) {
    Inv(Run(r, events), Recorded(r, events), Offered(events)) && (events != [] ==> InvThroughout(r, events[..|events| - 1]))
  }

  /** Under any loss, duplication and reordering: the buffer is bounded and holds only slots still to be
      played, every packet is accounted for, and the sink is exactly the reference playout. */
  lemma {:induction false} RunKeepsInv(cfg: Config, sinkFormat: Format, events: seq<Event>)
    requires NoWrap(Fresh(cfg, sinkFormat), events)
    ensures Inv(Run(Fresh(cfg, sinkFormat), events), Recorded(Fresh(cfg, sinkFormat), events), Offered(events))
  {
    if events != [] {
      hide Inv, Step, Noted, Fresh, InRange, Counts;
      var r0, init := Fresh(cfg, sinkFormat), events[..|events| - 1];
      RunKeepsInv(cfg, sinkFormat, init);
      StepKeepsInv(Run(r0, init), Recorded(r0, init), Offered(init), events[|events| - 1]);
    } else {
      FreshInv(cfg, sinkFormat);
    }
  }

  lemma FreshInv(cfg: Config, sinkFormat: Format)
    ensures Inv(Fresh(cfg, sinkFormat), History(0, map[]), 0)
  {
  }

  lemma StepKeepsInv(r: Rx, h: History, offered: nat, e: Event)
    requires Inv(r, h, offered) && (e.Arrive? ==> InRange(r, h, e.p))
    ensures Inv(Step(r, e), Noted(r, h, e), offered + Counts(e))
  {
    hide Inv, Offer, Tick, Heard, InRange;
    match e
    case Arrive(p) => OfferKeepsInv(r, h, offered, p);
    case Corrupt => DropKeepsInv(r, h, offered);
    case Beat => TickKeepsInv(r, h, offered);
  }

  /** And only then: the invariant holds all along a run if and only if no packet is accepted after the
      wrap. */
  lemma {:induction false} InvExactly(cfg: Config, sinkFormat: Format, events: seq<Event>)
    ensures InvThroughout(Fresh(cfg, sinkFormat), events) <==> NoWrap(Fresh(cfg, sinkFormat), events)
  {
    hide Inv, Offer, Tick, Heard, InRange, Fresh;
    var r0 := Fresh(cfg, sinkFormat);
    if events != [] {
      var init, e := events[..|events| - 1], events[|events| - 1];
      InvExactly(cfg, sinkFormat, init);
      if NoWrap(r0, init) {
        RunKeepsInv(cfg, sinkFormat, init);
        if e.Arrive? { OfferInvExactly(Run(r0, init), Recorded(r0, init), Offered(init), e.p); }
      }
    }
    if NoWrap(r0, events) { RunKeepsInv(cfg, sinkFormat, events); }
  }

  /** In every run, sink slot `i` is the frame accepted for `anchor + i`, or else the configured gap fill. */
  lemma {:induction false} SinkSlot(cfg: Config, sinkFormat: Format, events: seq<Event>, i: nat)
    requires NoWrap(Fresh(cfg, sinkFormat), events)
    requires i < |Run(Fresh(cfg, sinkFormat), events).sink|
    ensures var r, h := Run(Fresh(cfg, sinkFormat), events), Recorded(Fresh(cfg, sinkFormat), events);
            r.sink[i] == Slot(h, r.cfg.gapFill, r.format, i) && |r.sink| == r.played + r.concealed
  {
    hide Fresh, Run, Recorded, Pending, NoWrap, Slot;
    RunKeepsInv(cfg, sinkFormat, events);
    var r, h := Run(Fresh(cfg, sinkFormat), events), Recorded(Fresh(cfg, sinkFormat), events);
    PlayoutAt(h, r.cfg.gapFill, r.format, |r.sink|, i);
  }

  // ---------- the loop filter ----------

  /** The most the buffer can exceed the target by. */
  function Excess(c: Config): nat { if Capacity(c) > c.target then Capacity(c) - c.target else 0 }

  /** The filtered occupancy error stays within the range of the error itself, or at zero where it started. */
  predicate LevelBounded(r: Rx) { r.cfg.target >= 1 && -(r.cfg.target as real) <= r.level <= Excess(r.cfg) as real }

  lemma FilterKeepsBound(r: Rx)
    requires LevelBounded(r) && |r.buf| <= Capacity(r.cfg)
    ensures LevelBounded(Filtered(r))
  {
    var err := |r.buf| as real - r.cfg.target as real;
    assert -(r.cfg.target as real) <= err <= Excess(r.cfg) as real;
    assert Filtered(r).level == 0.9 * r.level + 0.1 * err;
  }

  lemma {:induction false} PlayKeepsLevel(r: Rx, n: nat)
    ensures PlayN(r, n).level == r.level && PlayN(r, n).cfg == r.cfg
  {
    if n > 0 { PlayKeepsLevel(r, n - 1); }
    hide Fill;
  }

  lemma PlayShrinks(r: Rx)
    ensures |PlayOne(r).buf| <= |r.buf|
  {
    PlayShape(r);
    hide PlayOne;
  }

  lemma {:induction false} PlayNShrinks(r: Rx, n: nat)
    ensures |PlayN(r, n).buf| <= |r.buf|
  {
    hide PlayOne;
    if n > 0 {
      PlayNShrinks(r, n - 1);
      PlayShrinks(PlayN(r, n - 1));
    }
  }

  lemma StepKeepsCapacity(r: Rx, e: Event)
    requires |r.buf| <= Capacity(r.cfg)
    ensures |Step(r, e).buf| <= Capacity(r.cfg)
  {
    match e
    case Arrive(p) => if Accepts(r, p) { Inserted(Anchored(r, p).buf, p.sequence, p.frame); }
    case Corrupt =>
    case Beat => if r.started { PlayNShrinks(Filtered(r), Beats(Filtered(r))); }
  }

  lemma StepKeepsBound(r: Rx, e: Event)
    requires LevelBounded(r) && |r.buf| <= Capacity(r.cfg)
    ensures LevelBounded(Step(r, e)) && Step(r, e).cfg == r.cfg
  {
    if e.Beat? && r.started {
      FilterKeepsBound(r);
      PlayKeepsLevel(Filtered(r), Beats(Filtered(r)));
    }
  }

  /** In every run the buffer stays within capacity and the loop filter stays bounded: it can
      only ask to drain when the buffer can exceed the target by more than one frame, and only ask to hold
      when the target itself is more than one. */
  lemma {:induction false} RunKeepsLevel(cfg: Config, sinkFormat: Format, events: seq<Event>)
    ensures LevelBounded(Run(Fresh(cfg, sinkFormat), events)) && Run(Fresh(cfg, sinkFormat), events).cfg == WithDefaults(cfg)
    ensures |Run(Fresh(cfg, sinkFormat), events).buf| <= Capacity(WithDefaults(cfg))
  {
    if events != [] {
      var init := events[..|events| - 1];
      RunKeepsLevel(cfg, sinkFormat, init);
      hide Fresh, WithDefaults, Step, LevelBounded, Capacity;
      StepKeepsCapacity(Run(Fresh(cfg, sinkFormat), init), events[|events| - 1]);
      StepKeepsBound(Run(Fresh(cfg, sinkFormat), init), events[|events| - 1]);
    }
  }

  // ---------- PlayBuffered ----------

  /** Nothing buffered lies behind the playout position. */
  ghost predicate Drainable(r: Rx) { forall s :: s in r.buf ==> r.nextSeq <= s }

  /** The sequence number of a position. */
  function SeqOf(pos: nat): u64 { pos % TWO64 }

  lemma SeqOfSmall(pos: nat)
    ensures pos < TWO64 ==> SeqOf(pos) == pos
    ensures (SeqOf(pos) + 1) % TWO64 == SeqOf(pos + 1)
  {
    AddModulo(pos, 1);
  }

  /** `u` is `r` played on to position `pos`. */
  ghost predicate PlayedTo(u: Rx, r: Rx, pos: nat) {
    u.nextSeq == SeqOf(pos) && u.started == r.started && u.cfg == r.cfg && r.nextSeq + |u.sink| == |r.sink| + pos
    && forall s :: s in u.buf <==> s in r.buf && s >= pos
  }

  lemma PlayedOn(v: Rx, r: Rx, pos: nat)
    requires PlayedTo(v, r, pos)
    ensures PlayedTo(PlayOne(v), r, pos + 1)
  {
    PlayedShape(v);
    hide PlayOne, SeqOf;
    SeqOfSmall(pos);
  }

  lemma PlayedShape(v: Rx)
    ensures var u := PlayOne(v);
            u.nextSeq == (v.nextSeq + 1) % TWO64 && u.started == v.started && u.cfg == v.cfg && |u.sink| == |v.sink| + 1
            && forall s :: s in u.buf <==> s in v.buf && s != v.nextSeq
  {
    hide PlayOne;
    PlayShape(v);
  }

  lemma PlayedIsDrainable(u: Rx, r: Rx, pos: nat)
    requires PlayedTo(u, r, pos)
    ensures Drainable(u)
  {
    hide SeqOf;
    SeqOfSmall(pos);
  }

  lemma {:induction false} PlayNShape(r: Rx, n: nat)
    requires Drainable(r)
    ensures PlayedTo(PlayN(r, n), r, r.nextSeq + n)
  {
    if n > 0 {
      hide PlayOne, PlayedTo;
      PlayNShape(r, n - 1);
      PlayedOn(PlayN(r, n - 1), r, r.nextSeq + n - 1);
    } else {
      hide SeqOf;
      SeqOfSmall(r.nextSeq);
    }
  }

  /** One turn of the loop: a tick, and a forced step when the tick moved nothing. */
  function DrainStep(r: Rx): Rx {
    var t := Tick(r);
    if |t.buf| == |r.buf| && !HeadReady(t) then PlayOne(t) else t
  }

  lemma SmallerBuf(a: map<u64, Frame>, b: map<u64, Frame>)
    requires a.Keys <= b.Keys && |a| == |b|
    ensures a.Keys == b.Keys
  {
    assert |b.Keys - a.Keys| == |b.Keys| - |a.Keys|;
  }

  lemma PlayedFrom(u: Rx, f: Rx, r: Rx, pos: nat)
    requires PlayedTo(u, f, pos) && f == r.(level := f.level)
    ensures PlayedTo(u, r, pos)
  {
    hide SeqOf;
  }

  lemma FilteredLevel(r: Rx)
    ensures Filtered(r) == r.(level := Filtered(r).level)
  {
  }

  lemma {:induction false} BeatsShape(f: Rx)
    ensures Beats(f) <= 2 && (Beats(f) == 0 ==> !HeadReady(f) && PlayN(f, 0) == f)
  {
  }

  lemma TickShape(r: Rx)
    requires r.started && Drainable(r)
    ensures var n := Beats(Filtered(r));
            n <= 2 && PlayedTo(Tick(r), r, r.nextSeq + n) && (n == 0 ==> !HeadReady(Tick(r)))
  {
    hide PlayN, PlayedTo, Filtered, Beats, HeadReady;
    var f := Filtered(r);
    FilteredLevel(r);
    BeatsShape(f);
    PlayNShape(f, Beats(f));
    PlayedFrom(PlayN(f, Beats(f)), f, r, r.nextSeq + Beats(f));
  }

  lemma ForcedStep(t: Rx, r: Rx, pos: nat)
    requires PlayedTo(t, r, pos) && |t.buf| == |r.buf| && !HeadReady(t)
    ensures PlayedTo(PlayOne(t), r, pos + 1) && |PlayOne(t).sink| == |t.sink| + 1 && PlayOne(t).buf.Keys == r.buf.Keys
  {
    hide PlayOne, SeqOf;
    PlayedOn(t, r, pos);
    PlayedShape(t);
    SmallerBuf(t.buf, r.buf);
  }

  /** One turn moves on by one to three slots, and by no more than two if it plays anything. */
  lemma DrainStepShape(r: Rx)
    requires r.started && r.buf != map[] && Drainable(r)
    ensures var u, n := DrainStep(r), |DrainStep(r).sink| - |r.sink|;
            1 <= n && PlayedTo(u, r, r.nextSeq + n) && (n <= 2 || u.buf.Keys == r.buf.Keys)
  {
    hide Tick, Filtered, Beats, PlayOne, PlayedTo;
    var t, n := Tick(r), Beats(Filtered(r));
    TickShape(r);
    PlayedSink(t, r, n);
    if |t.buf| == |r.buf| && !HeadReady(t) {
      ForcedStep(t, r, r.nextSeq + n);
    } else if n == 0 {
      NothingPlayed(t, r);
    }
  }

  lemma PlayedSink(t: Rx, r: Rx, n: nat)
    requires PlayedTo(t, r, r.nextSeq + n)
    ensures |t.sink| == |r.sink| + n
  {
  }

  lemma NothingPlayed(t: Rx, r: Rx)
    requires PlayedTo(t, r, r.nextSeq) && Drainable(r)
    ensures |t.buf| == |r.buf|
  {
    hide SeqOf;
    assert t.buf.Keys == r.buf.Keys;
  }

  lemma PlayedAdvances(u: Rx, r: Rx, pos: nat)
    requires PlayedTo(u, r, pos) && r.nextSeq < pos
    ensures u.started == r.started && Drainable(u) && (u.buf != map[] ==> r.nextSeq < u.nextSeq)
  {
    PlayedIsDrainable(u, r, pos);
    SeqOfSmall(pos);
    hide SeqOf, Drainable;
    if u.buf != map[] { var s :| s in u.buf; }
  }

  /** So while something is left to play the position comes closer to the end. */
  lemma DrainAdvances(r: Rx)
    requires r.started && r.buf != map[] && Drainable(r)
    ensures var u := DrainStep(r); u.started && Drainable(u) && (u.buf != map[] ==> r.nextSeq < u.nextSeq)
  {
    DrainStepShape(r);
    hide DrainStep, PlayedTo, Drainable;
    PlayedAdvances(DrainStep(r), r, r.nextSeq + |DrainStep(r).sink| - |r.sink|);
  }

  /** `PlayBuffered`. */
  ghost function Drained(r: Rx): Rx
    requires Drainable(r)
    decreases if r.buf == map[] then 0 else TWO64 - r.nextSeq
  {
    if !r.started || r.buf == map[] then r
    else
      DrainAdvances(r);
      Drained(DrainStep(r))
  }

  lemma OfferKeepsDrainable(r: Rx, p: Packet)
    requires Drainable(r) && (!r.started ==> r.buf == map[])
    ensures Drainable(Offer(r, p)) && Offer(r, p).started
  {
  }

  lemma TickKeepsDrainable(r: Rx)
    requires Drainable(r)
    ensures Drainable(Tick(r)) && Tick(r).started == r.started
  {
    hide Tick, Drainable;
    if r.started {
      TickShape(r);
      PlayedIsDrainable(Tick(r), r, r.nextSeq + Beats(Filtered(r)));
    } else {
      TickUnstarted(r);
    }
  }

  lemma TickUnstarted(r: Rx)
    requires !r.started
    ensures Tick(r) == r
  {
  }

  lemma InvIsDrainable(r: Rx, h: History, offered: nat)
    requires Inv(r, h, offered)
    ensures Drainable(r) && (r.buf != map[] ==> r.started && r.nextSeq == Position(r, h))
  {
    forall s | s in r.buf ensures r.nextSeq <= s && r.started && r.nextSeq == Position(r, h) {
      assert s in h.accepted && Position(r, h) <= s < TWO64;
    }
    if r.buf != map[] { var s :| s in r.buf; }
  }

  lemma DrainStepKeepsInv(r: Rx, h: History, offered: nat)
    requires Inv(r, h, offered) && r.started
    ensures Inv(DrainStep(r), h, offered)
  {
    hide Inv, Tick, PlayOne;
    TickKeepsInv(r, h, offered);
    PlayKeepsInv(Tick(r), h, offered);
  }

  /** PlayBuffered terminates with an empty buffer having played every buffered frame in its slot, even
      when the loop chose to hold, and runs at most one concealed slot past the last of them. */
  lemma {:induction false} DrainPlaysAll(r: Rx, h: History, offered: nat, hi: nat)
    requires Inv(r, h, offered) && hi > 0 && hi - 1 in r.buf && forall s :: s in r.buf ==> s < hi
    ensures Drainable(r)
    ensures var u := Drained(r);
            u.buf == map[] && hi <= Position(u, h) <= hi + 1 && Inv(u, h, offered) && u.started
    decreases hi + 1 - Position(r, h)
  {
    InvIsDrainable(r, h, offered);
    var u, n := DrainStep(r), |DrainStep(r).sink| - |r.sink|;
    DrainStepShape(r);
    DrainAdvances(r);
    DrainStepKeepsInv(r, h, offered);
    assert Drained(r) == Drained(u);
    hide DrainStep, Inv, Drainable, SeqOf;
    assert Position(u, h) == Position(r, h) + n;
    if u.buf == map[] {
      assert hi - 1 !in u.buf;
      assert Drained(u) == u;
    } else {
      assert hi - 1 in u.buf by {
        var s :| s in u.buf;
        assert r.nextSeq + n <= s <= hi - 1;
      }
      DrainPlaysAll(u, h, offered, hi);
    }
  }
}
