/** What a listener hears (daemon/audio/receiver.go): concealment, reassembly and the pace of playout, said
    without the receiver's own functions. */
module Playback {
  import opened Machine
  import opened Packet
  import opened JitterBuffer

  // ---------- concealed slots ----------

  /** A whole frame of zeros. */
  predicate IsSilence(frame: Frame, f: Format) {
    |frame.samples| == SamplesPerPacket(f) && forall k :: 0 <= k < |frame.samples| ==> frame.samples[k] == 0
  }

  /** A frame was accepted for slot `i`. */
  predicate Has(h: History, i: nat) { h.anchor + i in h.accepted }

  function FrameAt(h: History, i: nat): Frame
    requires Has(h, i)
  {
    h.accepted[h.anchor + i]
  }

  /** `j` is the last slot before `i` that has a frame. */
  predicate Nearest(h: History, i: nat, j: nat) { j < i && Has(h, j) && forall k: nat :: j < k < i ==> !Has(h, k) }

  predicate NoneBefore(h: History, i: nat) { forall j: nat :: j < i ==> !Has(h, j) }

  lemma {:induction false} LastPlayedIsNearest(h: History, i: nat)
    ensures NoneBefore(h, i) ==> LastPlayed(h, i) == Frame([])
    ensures forall j: nat :: Nearest(h, i, j) ==> LastPlayed(h, i) == FrameAt(h, j)
  {
    if i > 0 {
      LastPlayedIsNearest(h, i - 1);
      assert Has(h, i - 1) <==> h.anchor + i - 1 in h.accepted;
      if Has(h, i - 1) {
        assert LastPlayed(h, i) == FrameAt(h, i - 1);
        assert forall j: nat :: Nearest(h, i, j) ==> j == i - 1;
      } else {
        assert forall j: nat :: Nearest(h, i, j) ==> Nearest(h, i - 1, j);
      }
    }
  }

  /** What a slot without an accepted frame must hold: silence, or in hold mode the nearest earlier frame. */
  ghost predicate Conceals(frame: Frame, h: History, mode: GapFill, f: Format, i: nat) {
    (mode == Silence || NoneBefore(h, i) ==> IsSilence(frame, f))
    && (mode == Hold ==> forall j: nat :: Nearest(h, i, j) ==>
          if |FrameAt(h, j).samples| > 0 then frame == FrameAt(h, j) else IsSilence(frame, f))
  }

  lemma FillConceals(h: History, mode: GapFill, f: Format, i: nat)
    requires !Has(h, i)
    ensures Conceals(Slot(h, mode, f, i), h, mode, f, i)
  {
    LastPlayedIsNearest(h, i);
    hide LastPlayed;
  }

  lemma {:induction false} RunKeepsMode(cfg: Config, sinkFormat: Format, events: seq<Event>)
    ensures Run(Fresh(cfg, sinkFormat), events).cfg.gapFill == cfg.gapFill
  {
    assert WithDefaults(cfg).gapFill == cfg.gapFill;
    hide Run, Fresh, LevelBounded, WithDefaults;
    RunKeepsLevel(cfg, sinkFormat, events);
  }

  /** In every run each slot of the sink is the frame accepted for it; or silence; or, in hold mode, the frame
      accepted for the nearest earlier slot, unless that is empty or there is none. */
  lemma {:induction false} HeardSlot(cfg: Config, sinkFormat: Format, events: seq<Event>, i: nat)
    requires NoWrap(Fresh(cfg, sinkFormat), events)
    requires i < |Run(Fresh(cfg, sinkFormat), events).sink|
    ensures var r, h := Run(Fresh(cfg, sinkFormat), events), Recorded(Fresh(cfg, sinkFormat), events);
            if Has(h, i) then r.sink[i] == FrameAt(h, i) else Conceals(r.sink[i], h, cfg.gapFill, r.format, i)
  {
    hide Run, Recorded, NoWrap, Fresh, Conceals, Fill, LastPlayed;
    RunKeepsMode(cfg, sinkFormat, events);
    SinkSlot(cfg, sinkFormat, events, i);
    var r, h := Run(Fresh(cfg, sinkFormat), events), Recorded(Fresh(cfg, sinkFormat), events);
    if !Has(h, i) { FillConceals(h, cfg.gapFill, r.format, i); }
  }

  // ---------- the first packet ----------

  predicate NothingArrived(events: seq<Event>) { forall e :: e in events ==> !e.Arrive? }

  lemma {:induction false} PlayNKeeps(r: Rx, n: nat)
    ensures PlayN(r, n).format == r.format && PlayN(r, n).started == r.started && PlayN(r, n).dropped == r.dropped
  {
    if n > 0 { PlayNKeeps(r, n - 1); }
    hide Fill;
  }

  lemma TickKeeps(r: Rx)
    ensures Tick(r).format == r.format && Tick(r).started == r.started && Tick(r).dropped == r.dropped
  {
    if r.started { PlayNKeeps(Filtered(r), Beats(Filtered(r))); }
    hide PlayN, Beats;
  }

  lemma {:induction false} SilentStart(cfg: Config, sinkFormat: Format, events: seq<Event>)
    requires NothingArrived(events)
    ensures var r := Run(Fresh(cfg, sinkFormat), events); !r.started && r.format == sinkFormat && r.sink == []
  {
    if events != [] {
      var init, e := events[..|events| - 1], events[|events| - 1];
      assert e in events && forall x :: x in init ==> x in events;
      SilentStart(cfg, sinkFormat, init);
    }
  }

  /** The first packet to arrive gives the stream its format and its first slot, whatever follows. */
  lemma {:induction false} FirstPacketAnchors(cfg: Config, sinkFormat: Format, events: seq<Event>, k: nat)
    requires k < |events| && events[k].Arrive? && NothingArrived(events[..k])
    ensures var r, h := Run(Fresh(cfg, sinkFormat), events), Recorded(Fresh(cfg, sinkFormat), events);
            r.started && r.format == events[k].p.format && h.anchor == events[k].p.sequence
  {
    var r0, init, e := Fresh(cfg, sinkFormat), events[..|events| - 1], events[|events| - 1];
    var r := Run(r0, init);
    if k == |events| - 1 {
      SilentStart(cfg, sinkFormat, init);
    } else {
      assert init[..k] == events[..k] && init[k] == events[k];
      FirstPacketAnchors(cfg, sinkFormat, init, k);
      if e.Beat? { TickKeeps(r); }
    }
    hide Tick;
  }

  // ---------- which packets are taken ----------

  /** In every run a packet is taken exactly if its slot has not been passed, no frame was accepted for it, and
      the buffer has room; otherwise it is counted as dropped. */
  lemma {:induction false} TakenExactly(cfg: Config, sinkFormat: Format, events: seq<Event>, p: Packet)
    requires NoWrap(Fresh(cfg, sinkFormat), events)
    requires Position(Run(Fresh(cfg, sinkFormat), events), Recorded(Fresh(cfg, sinkFormat), events)) < TWO64
    ensures var r, h := Run(Fresh(cfg, sinkFormat), events), Recorded(Fresh(cfg, sinkFormat), events);
            var open := r.started ==> p.sequence >= Position(r, h) && p.sequence !in h.accepted;
            var taken := open && |r.buf| < WithDefaults(cfg).max;
            Step(r, Arrive(p)).dropped == r.dropped + (if taken then 0 else 1)
            && (taken <==> p.sequence in Step(r, Arrive(p)).buf && p.sequence !in r.buf)
  {
    hide Run, Recorded, Fresh, NoWrap, LevelBounded, WithDefaults, Inv, Capacity, Step;
    RunKeepsLevel(cfg, sinkFormat, events);
    RunKeepsInv(cfg, sinkFormat, events);
    ArrivalExactly(Run(Fresh(cfg, sinkFormat), events), Recorded(Fresh(cfg, sinkFormat), events), Offered(events), p);
  }

  lemma PendingExactly(r: Rx, h: History, offered: nat, s: u64)
    requires Inv(r, h, offered) && Position(r, h) < TWO64
    ensures r.started ==> r.nextSeq == Position(r, h) && (s in r.buf <==> s in h.accepted && s >= Position(r, h))
    ensures !r.started ==> s !in r.buf && r.buf == map[]
  {
    hide Playout, LastPlayed, Capacity;
    if !r.started {
      forall x ensures x !in r.buf { assert x in r.buf ==> x in h.accepted; }
    }
  }

  lemma ArrivalExactly(r: Rx, h: History, offered: nat, p: Packet)
    requires Inv(r, h, offered) && Position(r, h) < TWO64
    ensures var open := r.started ==> p.sequence >= Position(r, h) && p.sequence !in h.accepted;
            var taken := open && |r.buf| < r.cfg.max;
            Step(r, Arrive(p)).dropped == r.dropped + (if taken then 0 else 1)
            && (taken <==> p.sequence in Step(r, Arrive(p)).buf && p.sequence !in r.buf)
  {
    PendingExactly(r, h, offered, p.sequence);
    hide Inv, Position;
  }

  // ---------- reassembly ----------

  function Arrivals(ps: seq<Packet>): seq<Event> { seq(|ps|, i requires 0 <= i < |ps| => Arrive(ps[i])) }

  /** Different slots, none before the first packet's. */
  predicate Burst(ps: seq<Packet>) { DifferentSlots(ps) && forall i :: 0 <= i < |ps| ==> ps[i].sequence >= ps[0].sequence }

  /** The frames by slot. */
  function Frames(ps: seq<Packet>): map<u64, Frame> {
    if ps == [] then map[] else Frames(ps[..|ps| - 1])[ps[|ps| - 1].sequence := ps[|ps| - 1].frame]
  }

  lemma {:induction false} FramesSnoc(ps: seq<Packet>, p: Packet)
    ensures Frames(ps + [p]) == Frames(ps)[p.sequence := p.frame]
  {
    assert (ps + [p])[..|ps|] == ps;
  }

  predicate DifferentSlots(ps: seq<Packet>) { forall i, j :: 0 <= i < j < |ps| ==> ps[i].sequence != ps[j].sequence }

  lemma {:induction false} FramesExactly(ps: seq<Packet>)
    requires DifferentSlots(ps)
    ensures |Frames(ps)| == |ps|
    ensures forall i :: 0 <= i < |ps| ==> ps[i].sequence in Frames(ps) && Frames(ps)[ps[i].sequence] == ps[i].frame
    ensures forall s :: s in Frames(ps) ==> exists i :: 0 <= i < |ps| && ps[i].sequence == s
  {
    if ps != [] {
      var init, p := ps[..|ps| - 1], ps[|ps| - 1];
      assert DifferentSlots(init);
      FramesExactly(init);
      assert Frames(ps) == Frames(init)[p.sequence := p.frame];
      hide Frames;
      assert p.sequence !in Frames(init);
      Inserted(Frames(init), p.sequence, p.frame);
      forall s | s in Frames(ps) ensures exists i :: 0 <= i < |ps| && ps[i].sequence == s {
        if s == p.sequence {
          assert ps[|ps| - 1].sequence == s;
        } else {
          var i :| 0 <= i < |init| && init[i].sequence == s;
          assert ps[i].sequence == s;
        }
      }
    }
  }

  /** All of them are buffered, and nothing was played or dropped. */
  ghost predicate Holds(r: Rx, h: History, ps: seq<Packet>) {
    r.buf == h.accepted == Frames(ps) && r.dropped == 0 && r.sink == [] && (r.started <==> ps != [])
    && (ps != [] ==> r.nextSeq == h.anchor == ps[0].sequence)
  }

  lemma {:induction false} OfferHolds(r: Rx, h: History, ps: seq<Packet>, p: Packet)
    requires Holds(r, h, ps) && |Frames(ps)| == |ps| < r.cfg.max && p.sequence !in Frames(ps)
    requires ps != [] ==> p.sequence >= ps[0].sequence
    ensures Holds(Offer(r, p), Heard(r, h, p), ps + [p]) && InRange(r, h, p)
  {
    FramesSnoc(ps, p);
    hide Frames;
    assert Accepts(r, p);
    assert (ps + [p])[0] == if ps == [] then p else ps[0];
  }

  lemma {:induction false} BurstHolds(cfg: Config, sinkFormat: Format, ps: seq<Packet>)
    requires Burst(ps) && |ps| <= Capacity(WithDefaults(cfg))
    ensures var r0 := Fresh(cfg, sinkFormat);
            NoWrap(r0, Arrivals(ps)) && Run(r0, Arrivals(ps)).cfg == WithDefaults(cfg)
            && Holds(Run(r0, Arrivals(ps)), Recorded(r0, Arrivals(ps)), ps) && Offered(Arrivals(ps)) == |ps|
  {
    if ps == [] {
      FreshCfg(cfg, sinkFormat);
    } else {
      hide Holds, Fresh, Frames, WithDefaults, NoWrap, Run, Recorded, Offered, Burst, Arrivals;
      var init, p := ps[..|ps| - 1], ps[|ps| - 1];
      assert ps == init + [p];
      BurstInit(init, p);
      NotYet(init, p);
      assert |init| < WithDefaults(cfg).max;
      hide Capacity;
      BurstHolds(cfg, sinkFormat, init);
      BurstStep(Fresh(cfg, sinkFormat), init, p);
    }
  }

  lemma BurstInit(init: seq<Packet>, p: Packet)
    requires Burst(init + [p])
    ensures Burst(init) && (init != [] ==> p.sequence >= init[0].sequence)
  {
    var ps := init + [p];
    assert forall i :: 0 <= i < |init| ==> ps[i] == init[i];
    assert ps[|init|] == p;
  }

  lemma {:induction false} NotYet(init: seq<Packet>, p: Packet)
    requires Burst(init + [p])
    ensures |Frames(init)| == |init| && p.sequence !in Frames(init)
  {
    var ps := init + [p];
    assert forall i :: 0 <= i < |init| ==> init[i] == ps[i] && ps[i].sequence != ps[|init|].sequence;
    FramesExactly(init);
  }

  lemma {:induction false} BurstStep(r0: Rx, init: seq<Packet>, p: Packet)
    requires NoWrap(r0, Arrivals(init)) && Offered(Arrivals(init)) == |init|
    requires Holds(Run(r0, Arrivals(init)), Recorded(r0, Arrivals(init)), init)
    requires |Frames(init)| == |init| < Run(r0, Arrivals(init)).cfg.max && p.sequence !in Frames(init)
    requires init != [] ==> p.sequence >= init[0].sequence
    ensures var es := Arrivals(init + [p]);
            NoWrap(r0, es) && Run(r0, es).cfg == Run(r0, Arrivals(init)).cfg && Offered(es) == |init| + 1
            && Holds(Run(r0, es), Recorded(r0, es), init + [p])
  {
    var es := Arrivals(init + [p]);
    assert es[..|init|] == Arrivals(init) && es[|init|] == Arrive(p);
    hide Holds, Offer, Heard, InRange, Frames;
    OfferHolds(Run(r0, Arrivals(init)), Recorded(r0, Arrivals(init)), init, p);
    OfferKeepsCfg(Run(r0, Arrivals(init)), p);
  }

  lemma FreshCfg(cfg: Config, sinkFormat: Format)
    ensures Fresh(cfg, sinkFormat).cfg == WithDefaults(cfg)
  {
  }

  lemma OfferKeepsCfg(r: Rx, p: Packet)
    ensures Offer(r, p).cfg == r.cfg
  {
  }

  lemma {:induction false} LastOf(ps: seq<Packet>) returns (k: nat)
    requires ps != []
    ensures k < |ps| && forall i :: 0 <= i < |ps| ==> ps[i].sequence <= ps[k].sequence
  {
    k := 0;
    if |ps| > 1 {
      var j := LastOf(ps[1..]);
      assert forall i :: 1 <= i < |ps| ==> ps[i] == ps[1..][i - 1];
      if ps[0].sequence < ps[j + 1].sequence { k := j + 1; }
    }
  }

  lemma {:induction false} DrainKeepsDropped(r: Rx)
    requires Drainable(r)
    ensures Drained(r).dropped == r.dropped
    decreases if r.buf == map[] then 0 else TWO64 - r.nextSeq
  {
    if r.started && r.buf != map[] {
      DrainAdvances(r);
      TickKeeps(r);
      assert DrainStep(r).dropped == r.dropped by { PlayShape(Tick(r)); }
      hide DrainStep, Tick, Drainable;
      DrainKeepsDropped(DrainStep(r));
    }
  }

  /** Packets offered in any order, the earliest first and no more than the buffer holds, are all played by
      PlayBuffered, each in its slot, and none is dropped. */
  lemma Reassembled(cfg: Config, sinkFormat: Format, ps: seq<Packet>)
    requires Burst(ps) && 0 < |ps| <= Capacity(WithDefaults(cfg))
    ensures var r := Run(Fresh(cfg, sinkFormat), Arrivals(ps));
            Drainable(r)
            && var u := Drained(r);
               u.buf == map[] && u.dropped == 0 && u.played == |ps|
               && forall i :: 0 <= i < |ps| ==>
                    0 <= ps[i].sequence - ps[0].sequence < |u.sink| && u.sink[ps[i].sequence - ps[0].sequence] == ps[i].frame
  {
    var r0 := Fresh(cfg, sinkFormat);
    BurstHolds(cfg, sinkFormat, ps);
    RunKeepsInv(cfg, sinkFormat, Arrivals(ps));
    hide Fresh, Run, Recorded, NoWrap, Capacity, Inv;
    var r, h := Run(r0, Arrivals(ps)), Recorded(r0, Arrivals(ps));
    var k := LastOf(ps);
    FramesExactly(ps);
    hide Frames;
    DrainPlaysAll(r, h, |ps|, ps[k].sequence + 1);
    DrainKeepsDropped(r);
    hide Drained, Drainable;
    AllPlayed(Drained(r), h, |ps|);
    PlayedInSlots(Drained(r), h, ps, ps[k].sequence);
  }

  /** With the buffer empty, every accepted frame behind the position was played, in its slot. */
  lemma SoundedSlot(u: Rx, h: History, offered: nat, i: nat)
    requires Inv(u, h, offered) && u.started && i < |u.sink| && Has(h, i)
    ensures u.sink[i] == FrameAt(h, i)
  {
    assert u.sink == Playout(h, u.cfg.gapFill, u.format, |u.sink|);
    hide Playout, Pending, LastPlayed;
    PlayoutAt(h, u.cfg.gapFill, u.format, |u.sink|, i);
  }

  lemma PlayedAt(u: Rx, h: History, offered: nat, p: Packet)
    requires Inv(u, h, offered) && u.started && h.anchor <= p.sequence < Position(u, h)
    requires p.sequence in h.accepted && h.accepted[p.sequence] == p.frame
    ensures p.sequence - h.anchor < |u.sink| && u.sink[p.sequence - h.anchor] == p.frame
  {
    hide Inv;
    assert h.anchor + (p.sequence - h.anchor) == p.sequence;
    SoundedSlot(u, h, offered, p.sequence - h.anchor);
  }

  lemma {:induction false} PlayedInSlots(u: Rx, h: History, ps: seq<Packet>, last: u64)
    requires h.accepted == Frames(ps) && ps != [] && Burst(ps) && h.anchor == ps[0].sequence
    requires forall i :: 0 <= i < |ps| ==> ps[i].sequence <= last
    requires last < Position(u, h) && Inv(u, h, |ps|) && u.started
    ensures forall i :: 0 <= i < |ps| ==>
              0 <= ps[i].sequence - ps[0].sequence < |u.sink| && u.sink[ps[i].sequence - ps[0].sequence] == ps[i].frame
  {
    FramesExactly(ps);
    hide Frames, Inv, DifferentSlots, Position;
    forall i | 0 <= i < |ps|
      ensures 0 <= ps[i].sequence - ps[0].sequence < |u.sink| && u.sink[ps[i].sequence - ps[0].sequence] == ps[i].frame
    {
      PlayedAt(u, h, |ps|, ps[i]);
    }
  }

  lemma AllPlayed(u: Rx, h: History, offered: nat)
    requires Inv(u, h, offered) && u.buf == map[] && u.dropped == 0
    ensures u.played == offered
  {
    hide Pending, Sounded;
  }

  // ---------- the pace of playout ----------

  /** The occupancy error. */
  function Surplus(r: Rx): real { |r.buf| as real - r.cfg.target as real }

  lemma TickPlays(r: Rx)
    requires r.started
    ensures |Tick(r).sink| == |r.sink| + Beats(Filtered(r)) && (Beats(Filtered(r)) == 0 ==> Tick(r).buf == r.buf)
  {
    var f := Filtered(r);
    assert f.sink == r.sink && f.buf == r.buf;
    PlayNCount(f, Beats(f));
    assert PlayN(f, 0) == f;
    hide Filtered, Beats, PlayN;
  }

  lemma {:induction false} PlayNCount(r: Rx, n: nat)
    ensures |PlayN(r, n).sink| == |r.sink| + n
  {
    if n > 0 {
      PlayNCount(r, n - 1);
      PlayShape(PlayN(r, n - 1));
      hide PlayOne;
    }
  }

  lemma FilteredIsBetween(r: Rx)
    ensures Filtered(r).level == 0.9 * r.level + 0.1 * Surplus(r)
  {
  }

  /** Sustained over-fill drains two frames a tick; sustained under-fill with nothing at the head holds; and
      in between a tick writes one frame. */
  lemma PaceFollowsOccupancy(r: Rx)
    requires r.started
    ensures r.level >= 1.0 && Surplus(r) > 1.0 ==> |Tick(r).sink| == |r.sink| + 2
    ensures r.level <= -1.0 && Surplus(r) < -1.0 && r.nextSeq !in r.buf ==> Tick(r).sink == r.sink && Tick(r).buf == r.buf
    ensures -1.0 <= r.level <= 1.0 && -1.0 <= Surplus(r) <= 1.0 ==> |Tick(r).sink| == |r.sink| + 1
  {
    FilteredIsBetween(r);
    TickPlays(r);
    hide Tick;
    if r.level <= -1.0 && Surplus(r) < -1.0 && r.nextSeq !in r.buf { HeldTick(r); }
  }

  lemma HeldTick(r: Rx)
    requires r.started && r.level <= -1.0 && Surplus(r) < -1.0 && r.nextSeq !in r.buf
    ensures Tick(r).sink == r.sink
  {
    FilteredIsBetween(r);
    assert PlayN(Filtered(r), 0) == Filtered(r);
  }

  /** A frame that is there for the next slot is always played. */
  lemma HeadIsPlayed(r: Rx)
    requires r.started && r.nextSeq in r.buf
    ensures |Tick(r).sink| > |r.sink| && Tick(r).sink[|r.sink|] == r.buf[r.nextSeq]
  {
    var f := Filtered(r);
    assert f.sink == r.sink && f.buf == r.buf && f.nextSeq == r.nextSeq;
    assert PlayN(f, 0) == f && PlayN(f, 1) == PlayOne(f);
    assert PlayN(f, 2) == PlayOne(PlayOne(f));
    assert PlayOne(f).sink == r.sink + [r.buf[r.nextSeq]];
    assert 1 <= Beats(f) <= 2;
    SinkGrows(PlayOne(f));
    hide PlayN, PlayOne;
  }

  lemma SinkGrows(r: Rx)
    ensures r.sink <= PlayOne(r).sink
  {
    hide Fill;
  }

  function Decay(n: nat): real { if n == 0 then 1.0 else 0.9 * Decay(n - 1) }

  function FilteredN(r: Rx, n: nat): Rx { if n == 0 then r else Filtered(FilteredN(r, n - 1)) }

  /** At a constant occupancy the filter closes in on the error by a tenth of the distance a tick. */
  lemma {:induction false} FilterResponse(r: Rx, n: nat)
    ensures FilteredN(r, n).level == Surplus(r) + (r.level - Surplus(r)) * Decay(n)
    ensures FilteredN(r, n).buf == r.buf && FilteredN(r, n).cfg == r.cfg
  {
    if n > 0 {
      FilterResponse(r, n - 1);
      FilteredIsBetween(FilteredN(r, n - 1));
      Scale(r.level - Surplus(r), Decay(n - 1));
    }
  }

  lemma Scale(x: real, d: real)
    ensures x * (0.9 * d) == 0.9 * (x * d)
  {
  }

  // ---------- defaults ----------

  /** A zero configuration means three frames of target and twelve of buffer; a consistent one is kept; and a
      maximum below the target becomes four times the target. */
  lemma DefaultsExactly(c: Config)
    ensures WithDefaults(Config(0, 0, c.gapFill)) == Config(3, 12, c.gapFill)
    ensures 0 < c.target <= c.max ==> WithDefaults(c) == c
    ensures 0 < c.target < TWO63 / 4 && c.max < c.target ==> WithDefaults(c) == c.(max := 4 * c.target)
    ensures c.target <= 0 ==> WithDefaults(c) == WithDefaults(c.(target := 3))
  {
  }
}
