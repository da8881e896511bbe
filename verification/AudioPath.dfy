/** From a source to a sink: numbering, framing, reception and playout (daemon/audio). */
module AudioPath {
  import opened Machine
  import opened Packet
  import opened JitterBuffer

  // ---------- what a sender puts on the stream ----------

  predicate Matches(f: Format, frame: Frame) { |frame.samples| == SamplesPerPacket(f) }

  /** The packets for `frames`, numbered from `n` with timestamps from `stamp`. */
  function Packets(f: Format, frames: seq<Frame>, n: u64, stamp: u64): seq<Packet>
    decreases |frames|
  {
    if frames == [] then []
    else [Packet(f, n, stamp, frames[0])]
         + Packets(f, frames[1..], (n + 1) % TWO64, (stamp + SAMPLES_PER_FRAME) % TWO64)
  }

  lemma NextNumber(n: nat, i: nat)
    requires i > 0
    ensures ((n + 1) % TWO64 + (i - 1)) % TWO64 == (n + i) % TWO64
  {
    AddModulo(n + 1, i - 1);
  }

  lemma NextStamp(stamp: nat, i: nat)
    requires i > 0
    ensures ((stamp + SAMPLES_PER_FRAME) % TWO64 + SAMPLES_PER_FRAME * (i - 1)) % TWO64 == (stamp + SAMPLES_PER_FRAME * i) % TWO64
  {
    AddModulo(stamp + SAMPLES_PER_FRAME, SAMPLES_PER_FRAME * (i - 1));
  }

  /** The `i`-th number and sample position, modulo 2^64. */
  function Numbered(f: Format, n: nat, stamp: nat, i: nat, frame: Frame): Packet {
    Packet(f, (n + i) % TWO64, (stamp + SAMPLES_PER_FRAME * i) % TWO64, frame)
  }

  lemma NumberedStep(f: Format, n: nat, stamp: nat, i: nat, frame: Frame)
    requires i > 0
    ensures Numbered(f, (n + 1) % TWO64, (stamp + SAMPLES_PER_FRAME) % TWO64, i - 1, frame) == Numbered(f, n, stamp, i, frame)
  {
    NextNumber(n, i);
    NextStamp(stamp, i);
  }

  /** Numbering: packet `i` carries frame `i`, the i-th sequence number and the sample position, modulo 2^64. */
  lemma {:induction false} PacketAt(f: Format, frames: seq<Frame>, n: u64, stamp: u64, i: nat)
    requires i < |frames|
    ensures |Packets(f, frames, n, stamp)| == |frames|
    ensures Packets(f, frames, n, stamp)[i] == Numbered(f, n, stamp, i, frames[i])
    decreases |frames|
  {
    if |frames| > 1 {
      PacketAt(f, frames[1..], (n + 1) % TWO64, (stamp + SAMPLES_PER_FRAME) % TWO64, if i > 0 then i - 1 else 0);
    }
    if i > 0 {
      NumberedStep(f, n, stamp, i, frames[i]);
      hide Numbered;
    } else {
      assert Numbered(f, n, stamp, 0, frames[0]) == Packet(f, n, stamp, frames[0]);
      hide Numbered;
    }
  }

  function Wires(ps: seq<Packet>): seq<Str> {
    if ps == [] then [] else [Wire(ps[0])] + Wires(ps[1..])
  }

  /** The byte stream Sender.Run writes for frames that all match the format. */
  function Broadcast(f: Format, frames: seq<Frame>, n: u64, stamp: u64): Str {
    Stream(Wires(Packets(f, frames, n, stamp)))
  }

  // ---------- what a receiver makes of a stream ----------

  datatype End = Clean | Broken

  /** Receiver.Run up to its drain: read, decode, offer, tick. */
  function Listen(r: Rx, s: Str): (Rx, End)
    decreases |s|
  {
    match Recv(s)
    case Eof => (r, Clean)
    case UnexpectedEof => (r, Broken)
    case TooLarge => (r, Broken)
    case Got(pkt, rest) =>
      match Unwire(pkt)
      case None => Listen(r.(dropped := r.dropped + 1), rest)
      case Some(p) => Listen(Tick(Offer(r, p)), rest)
  }

  lemma BroadcastStep(f: Format, frames: seq<Frame>, n: u64, stamp: u64)
    requires frames != []
    ensures Broadcast(f, frames, n, stamp) ==
            Framed(Wire(Packet(f, n, stamp, frames[0])))
            + Broadcast(f, frames[1..], (n + 1) % TWO64, (stamp + SAMPLES_PER_FRAME) % TWO64)
  {
    var ps := Packets(f, frames, n, stamp);
    assert ps[1..] == Packets(f, frames[1..], (n + 1) % TWO64, (stamp + SAMPLES_PER_FRAME) % TWO64);
    assert Wires(ps)[1..] == Wires(ps[1..]);
    hide Framed, Wire;
  }

  /** The next packet comes off the stream whole. */
  lemma {:induction false} ListenStep(r: Rx, f: Format, frames: seq<Frame>, n: u64, stamp: u64)
    requires frames != [] && |frames[0].samples| <= MAX_PCM_VALUES
    ensures Listen(r, Broadcast(f, frames, n, stamp)) ==
            Listen(Tick(Offer(r, Packet(f, n, stamp, frames[0]))),
                   Broadcast(f, frames[1..], (n + 1) % TWO64, (stamp + SAMPLES_PER_FRAME) % TWO64))
  {
    var p := Packet(f, n, stamp, frames[0]);
    var rest := Broadcast(f, frames[1..], (n + 1) % TWO64, (stamp + SAMPLES_PER_FRAME) % TWO64);
    BroadcastStep(f, frames, n, stamp);
    assert Wire(p) + [] == Wire(p);
    WireRoundTrip(p, []);
    hide Broadcast, Unwire, Header, Tick, Offer, Recv, Framed;
    RecvFramed(Wire(p), rest);
  }

  /** What holds of a receiver from the start, whatever it hears: nothing is buffered before the first
      packet, nor behind the playout position. */
  ghost predicate Ready(r: Rx) { Drainable(r) && (!r.started ==> r.buf == map[]) }

  lemma FreshIsReady(cfg: Config, sinkFormat: Format)
    ensures Ready(Fresh(cfg, sinkFormat))
  {
  }

  lemma HeardKeepsReady(r: Rx, p: Packet)
    requires Ready(r)
    ensures Ready(Tick(Offer(r, p)))
  {
    hide Tick, Offer, Drainable;
    OfferKeepsDrainable(r, p);
    TickKeepsDrainable(Offer(r, p));
  }

  /** So whatever came over the stream can be drained. */
  lemma {:induction false} ListenKeepsReady(r: Rx, s: Str)
    requires Ready(r)
    ensures Ready(Listen(r, s).0)
    decreases |s|
  {
    hide Tick, Offer, Unwire;
    match Recv(s)
    case Got(pkt, rest) =>
      match Unwire(pkt) {
        case None => ListenKeepsReady(r.(dropped := r.dropped + 1), rest);
        case Some(p) =>
          HeardKeepsReady(r, p);
          ListenKeepsReady(Tick(Offer(r, p)), rest);
      }
    case _ =>
  }

  /** A frame over the sample cap makes a packet the receiving side takes for a broken stream. */
  lemma {:induction false} OversizedBreaks(r: Rx, f: Format, frames: seq<Frame>, n: u64, stamp: u64)
    requires frames != [] && MAX_PCM_VALUES < |frames[0].samples| < TWO32 / 4
    ensures Listen(r, Broadcast(f, frames, n, stamp)) == (r, Broken)
  {
    var p := Packet(f, n, stamp, frames[0]);
    var rest := Broadcast(f, frames[1..], (n + 1) % TWO64, (stamp + SAMPLES_PER_FRAME) % TWO64);
    BroadcastStep(f, frames, n, stamp);
    hide Broadcast, Header, Tick, Offer, Unwire, Pcm;
    assert |Wire(p)| == HEADER_SIZE + 2 * |frames[0].samples|;
    RecvOversized(Wire(p), rest);
  }

  lemma RecvOversized(pkt: Str, rest: Str)
    requires MAX_FRAMED_PACKET < |pkt| < TWO32
    ensures Recv(Framed(pkt) + rest) == TooLarge
  {
    Widths();
    UnbigBig(|pkt|, 4);
    var s := Framed(pkt) + rest;
    assert s[..4] == Big(|pkt|, 4);
  }

  lemma {:induction false} ListenEnd(r: Rx, f: Format, n: u64, stamp: u64)
    ensures Listen(r, Broadcast(f, [], n, stamp)) == (r, Clean)
  {
  }

  /** Nothing buffered, nothing lost, and the loop filter at or below target: the state between packets
      of an undisturbed stream about to deliver sequence `n`. */
  predicate Smooth(r: Rx, n: u64) {
    r.buf == map[] && (r.started ==> r.nextSeq == n) && r.level <= 0.0 && r.cfg.target >= 1
  }

  lemma SmoothTick(r: Rx, p: Packet)
    requires Smooth(r, p.sequence) && r.cfg.max >= 1 && p.sequence < MAX64
    ensures var u := Tick(Offer(r, p));
            Smooth(u, p.sequence + 1) && u.started && u.sink == r.sink + [p.frame] && u.cfg == r.cfg
            && u.concealed == r.concealed && u.dropped == r.dropped && u.played == r.played + 1
  {
    var o := Offer(r, p);
    assert o.buf == map[p.sequence := p.frame] && |o.buf| == 1 && o.nextSeq == p.sequence && o.started;
    var f := Filtered(o);
    FilterStaysLow(o);
    assert Beats(f) == 1;
    assert PlayN(f, 1) == PlayOne(PlayN(f, 0)) == PlayOne(f);
    assert f.buf - {p.sequence} == map[];
  }

  lemma FilterStaysLow(o: Rx)
    requires o.level <= 0.0 && |o.buf| <= 1 && o.cfg.target >= 1
    ensures Filtered(o).level <= 0.0
  {
    var err := |o.buf| as real - o.cfg.target as real;
    assert err <= 0.0;
    assert Filtered(o).level == 0.9 * o.level + 0.1 * err;
  }

  /** Nothing can be buffered and the target is far off: what a wrapped MaxFrames leaves. */
  predicate Starved(r: Rx) { r.buf == map[] && r.level <= 0.0 && r.cfg.max < 1 && r.cfg.target >= 11 }

  /** A starved receiver drops each packet, and the filter then holds playout. */
  lemma StarvedTick(r: Rx, p: Packet)
    requires Starved(r)
    ensures Starved(Tick(Offer(r, p))) && Tick(Offer(r, p)).sink == r.sink
  {
    var o := Offer(r, p);
    assert o.buf == map[] && |o.buf| == 0;
    var err := |o.buf| as real - o.cfg.target as real;
    assert err <= -11.0;
    var f := Filtered(o);
    assert f.level == 0.9 * o.level + 0.1 * err < -1.0;
    assert Beats(f) == 0;
  }

  predicate Capped(frames: seq<Frame>) { forall x :: x in frames ==> |x.samples| <= MAX_PCM_VALUES }

  lemma {:induction false} SmoothDelivery(r: Rx, f: Format, frames: seq<Frame>, n: u64, stamp: u64)
    requires Smooth(r, n) && r.cfg.max >= 1 && Capped(frames) && n + |frames| < TWO64
    ensures var (u, e) := Listen(r, Broadcast(f, frames, n, stamp));
            e == Clean && u.buf == map[] && u.sink == r.sink + frames
            && u.concealed == r.concealed && u.dropped == r.dropped && u.played == r.played + |frames|
    decreases |frames|
  {
    hide Listen, Broadcast, Tick, Offer;
    if frames == [] {
      ListenEnd(r, f, n, stamp);
      assert r.sink + [] == r.sink;
    } else {
      var p := Packet(f, n, stamp, frames[0]);
      ListenStep(r, f, frames, n, stamp);
      SmoothTick(r, p);
      SmoothDelivery(Tick(Offer(r, p)), f, frames[1..], n + 1, (stamp + SAMPLES_PER_FRAME) % TWO64);
      assert r.sink + frames == (r.sink + [frames[0]]) + frames[1..];
    }
  }

  lemma {:induction false} StarvedDelivery(r: Rx, f: Format, frames: seq<Frame>, n: u64, stamp: u64)
    requires Starved(r) && Capped(frames)
    ensures var (u, e) := Listen(r, Broadcast(f, frames, n, stamp));
            e == Clean && u.buf == map[] && u.sink == r.sink
    decreases |frames|
  {
    hide Listen, Broadcast, Tick, Offer;
    if frames == [] {
      ListenEnd(r, f, n, stamp);
    } else {
      var p := Packet(f, n, stamp, frames[0]);
      ListenStep(r, f, frames, n, stamp);
      StarvedTick(r, p);
      StarvedDelivery(Tick(Offer(r, p)), f, frames[1..], (n + 1) % TWO64, (stamp + SAMPLES_PER_FRAME) % TWO64);
    }
  }

  /** MaxFrames is at least one unless four times the target wraps an int64. */
  lemma RoomyUnlessWrapped(cfg: Config)
    ensures WithDefaults(cfg).target >= 1
    ensures WithDefaults(cfg).max < 1 ==> WithDefaults(cfg).target >= TWO63 / 4
  {
    var t := WithDefaults(cfg).target;
    if cfg.max < t && t < TWO63 / 4 { assert Wrap64(t * 4) == t * 4; }
  }

  /** End to end: everything a sender broadcasts reaches the sink, frame for frame and in order, with
      nothing concealed or dropped and nothing left to drain, for every configuration whose effective
      MaxFrames is at least one; with any other, a non-empty source is lost. */
  lemma EndToEnd(cfg: Config, sinkFormat: Format, f: Format, frames: seq<Frame>)
    requires Capped(frames) && |frames| < TWO64
    ensures var (u, e) := Listen(Fresh(cfg, sinkFormat), Broadcast(f, frames, 0, 0));
            e == Clean && Drainable(u) && Drained(u) == u
            && (u.sink == frames <==> WithDefaults(cfg).max >= 1 || frames == [])
            && (WithDefaults(cfg).max >= 1 ==> u.concealed == u.dropped == 0 && u.played == |frames|)
  {
    var r := Fresh(cfg, sinkFormat);
    RoomyUnlessWrapped(cfg);
    hide Listen, Broadcast, WithDefaults;
    if r.cfg.max >= 1 {
      SmoothDelivery(r, f, frames, 0, 0);
      assert [] + frames == frames;
    } else {
      StarvedDelivery(r, f, frames, 0, 0);
    }
  }

  /** A target of 2^62 frames without a larger maximum wraps the effective MaxFrames to zero, and the
      receiver plays nothing. */
  lemma WrappedExample(sinkFormat: Format, f: Format, frame: Frame)
    requires |frame.samples| <= MAX_PCM_VALUES
    ensures var cfg := Config(TWO63 / 2, 0, Silence);
            WithDefaults(cfg).max == 0 && Listen(Fresh(cfg, sinkFormat), Broadcast(f, [frame], 0, 0)).0.sink == []
  {
    var cfg := Config(TWO63 / 2, 0, Silence);
    assert WithDefaults(cfg).max == 0;
    hide Listen, Broadcast;
    StarvedDelivery(Fresh(cfg, sinkFormat), f, [frame], 0, 0);
  }

  /** Timestamps count samples per channel: a frame's samples are the channels times what the stamp advances. */
  lemma {:induction false} StampsCountSamples(f: Format, frames: seq<Frame>, n: u64, stamp: u64, i: nat)
    requires i + 1 < |frames| && Matches(f, frames[i]) && f.channels > 0 && stamp + SAMPLES_PER_FRAME * (i + 1) < TWO64
    ensures |Packets(f, frames, n, stamp)| == |frames|
    ensures var ps := Packets(f, frames, n, stamp);
            |frames[i].samples| == f.channels * (ps[i + 1].timestamp - ps[i].timestamp)
  {
    hide Packets;
    PacketAt(f, frames, n, stamp, i);
    PacketAt(f, frames, n, stamp, i + 1);
    NoWrapStamp(stamp + SAMPLES_PER_FRAME * i);
    NoWrapStamp(stamp + SAMPLES_PER_FRAME * (i + 1));
  }

  lemma NoWrapStamp(x: nat)
    ensures x < TWO64 ==> x % TWO64 == x
  {
  }

  /** A framed packet that is not readable is counted as dropped, and the stream goes on. */
  lemma {:induction false} CorruptIsSkipped(r: Rx, junk: Str, rest: Str)
    requires |junk| <= MAX_FRAMED_PACKET && forall p: Packet :: |p.frame.samples| <= MAX_PCM_VALUES ==> !(Wire(p) <= junk)
    ensures Listen(r, Framed(junk) + rest) == Listen(r.(dropped := r.dropped + 1), rest)
  {
    RecvFramed(junk, rest);
    assert Unwire(junk).None? by {
      if Unwire(junk).Some? { StartsWithWire(junk, Unwire(junk).value); }
    }
    hide Unwire, Recv, Framed, Tick, Offer;
  }
}
