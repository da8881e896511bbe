/** The sender and receiver objects and their byte-stream transport (daemon/audio). */
module AudioNodes {
  import opened Machine
  import opened Packet
  import opened JitterBuffer
  import opened AudioPath
  import opened Playback

  // ---------- packet buffers ----------

  /** Writes `v` into the buffer at `off`. */
  method Put(buf: array<byte>, off: nat, v: Str)
    requires off + |v| <= buf.Length
    modifies buf
    ensures buf[..off + |v|] == old(buf[..off]) + v
  {
    for i := 0 to |v|
      invariant forall k :: 0 <= k < buf.Length ==> buf[k] == if off <= k < off + i then v[k - off] else old(buf[k])
    {
      buf[off + i] := v[i];
    }
  }

  /** `packet.encode`: a sized buffer, the header fields at their offsets, then the samples. */
  method EncodePacket(p: Packet) returns (buf: array<byte>)
    ensures fresh(buf) && buf[..] == Wire(p)
  {
    buf := new byte[HEADER_SIZE + |p.frame.samples| * 2](_ => 0);
    hide Big;
    Put(buf, 0, MAGIC);
    assert buf[..4] == MAGIC;
    Put(buf, 4, Big(p.format.channels, 2));
    Put(buf, 6, Big(p.format.rate, 4));
    Put(buf, 10, Big(p.sequence, 8));
    Put(buf, 18, Big(p.timestamp, 8));
    Put(buf, 26, Big(|p.frame.samples|, 4));
    assert buf[..HEADER_SIZE] == Header(p);
    hide Header, Pcm;
    PutSamples(buf, p.frame.samples);
  }

  method PutSamples(buf: array<byte>, xs: seq<i16>)
    requires buf.Length == HEADER_SIZE + |xs| * 2
    modifies buf
    ensures buf[..] == old(buf[..HEADER_SIZE]) + Pcm(xs)
  {
    var off := HEADER_SIZE;
    for i := 0 to |xs|
      invariant off == HEADER_SIZE + 2 * i
      invariant buf[..off] == old(buf[..HEADER_SIZE]) + Pcm(xs[..i])
    {
      ghost var before := buf[..off];
      buf[off], buf[off + 1] := Low(xs[i]), High(xs[i]);
      assert xs[..i + 1][..i] == xs[..i];
      assert buf[..off + 2] == before + [Low(xs[i]), High(xs[i])];
      off := off + 2;
    }
    assert xs[..|xs|] == xs && buf[..off] == buf[..];
  }

  /** `decodePacket`. */
  method DecodePacket(buf: Str) returns (p: Option<Packet>)
    ensures p == Unwire(buf)
  {
    if |buf| < HEADER_SIZE || buf[0..4] != MAGIC { return None; }
    var count := Unbig(buf[26..30]);
    if count > MAX_PCM_VALUES || |buf| < HEADER_SIZE + count * 2 { return None; }
    var samples: seq<i16> := [];
    var off := HEADER_SIZE;
    for i := 0 to count
      invariant off == HEADER_SIZE + 2 * i
      invariant samples == Unpcm(buf[HEADER_SIZE..], i)
    {
      samples := samples + [Sample(buf[off], buf[off + 1])];
      off := off + 2;
    }
    Widths();
    p := Some(Packet(Format(Unbig(buf[6..10]), Unbig(buf[4..6])), Unbig(buf[10..18]), Unbig(buf[18..26]), Frame(samples)));
  }

  // ---------- the byte stream ----------

  /** A lossless byte stream: what was written and not yet read. */
  class Pipe {
    var bytes: Str

    constructor ()
      ensures bytes == []
    {
      bytes := [];
    }

    /** `SendTransport.Send`. */
    method Send(pkt: Str)
      modifies this
      ensures bytes == old(bytes) + Framed(pkt)
    {
      bytes := bytes + Big(|pkt|, 4);
      bytes := bytes + pkt;
    }

    /** `RecvTransport.Recv`; a broken stream is not read further. */
    method Receive() returns (r: Received)
      modifies this
      ensures r == Recv(old(bytes))
      ensures r.Got? ==> bytes == r.rest && |bytes| < |old(bytes)|
    {
      if bytes == [] { return Eof; }
      if |bytes| < 4 { return UnexpectedEof; }
      var n := Unbig(bytes[..4]);
      if n > MAX_FRAMED_PACKET { return TooLarge; }
      if |bytes| < 4 + n { return UnexpectedEof; }
      var pkt := bytes[4..4 + n];
      bytes := bytes[4 + n..];
      r := Got(pkt, bytes);
    }
  }

  // ---------- the sender ----------

  datatype Sent = Ok | SourceDrained | Mismatch

  /** The frames before the first that does not match the format. */
  function Matching(f: Format, frames: seq<Frame>): seq<Frame> {
    if frames == [] || !Matches(f, frames[0]) then [] else [frames[0]] + Matching(f, frames[1..])
  }

  class Sender {
    var src: seq<Frame>
    const fmt: Format
    var next: u64
    var stamp: u64
    const tx: Pipe

    constructor (src: seq<Frame>, fmt: Format, tx: Pipe)
      ensures this.src == src && this.fmt == fmt && this.tx == tx && next == 0 && stamp == 0
    {
      this.src, this.fmt, this.tx, next, stamp := src, fmt, tx, 0, 0;
    }

    /** Reads one frame and ships it as the next packet. */
    method SendFrame() returns (r: Sent)
      modifies this, tx
      ensures r == if old(src) == [] then SourceDrained else if Matches(fmt, old(src)[0]) then Ok else Mismatch
      ensures r.Ok? ==> src == old(src)[1..] && next == (old(next) + 1) % TWO64
                        && stamp == (old(stamp) + SAMPLES_PER_FRAME) % TWO64
                        && tx.bytes == old(tx.bytes) + Framed(Wire(Packet(fmt, old(next), old(stamp), old(src)[0])))
      ensures !r.Ok? ==> tx.bytes == old(tx.bytes) && next == old(next) && stamp == old(stamp)
    {
      if src == [] { return SourceDrained; }
      var frame := src[0];
      src := src[1..];
      if |frame.samples| != SamplesPerPacket(fmt) { return Mismatch; }
      var wire := EncodePacket(Packet(fmt, next, stamp, frame));
      tx.Send(wire[..]);
      next := (next + 1) % TWO64;
      stamp := (stamp + SAMPLES_PER_FRAME) % TWO64;
      return Ok;
    }

    /** `Run`: broadcasts the matching frames, and succeeds when that is all of them. */
    method Run() returns (ok: bool)
      modifies this, tx
      ensures tx.bytes == old(tx.bytes) + Broadcast(fmt, Matching(fmt, old(src)), old(next), old(stamp))
      ensures ok <==> Matching(fmt, old(src)) == old(src)
    {
      ghost var all := src;
      hide Framed, Wire, Matches, Broadcast, Matching;
      while true
        invariant Left(fmt, src, next, stamp, tx.bytes) == Left(fmt, all, old(next), old(stamp), old(tx.bytes))
        invariant Matching(fmt, src) == src <==> Matching(fmt, all) == all
        decreases |src|
      {
        ghost var left, bytes := src, tx.bytes;
        ghost var n, at := next, stamp;
        var r := SendFrame();
        if !r.Ok? {
          LeftEnd(fmt, left, n, at, bytes);
          return r.SourceDrained?;
        }
        LeftStep(fmt, left, n, at, bytes);
      }
    }
  }

  /** What will be on the stream when `left` has been sent. */
  function Left(f: Format, left: seq<Frame>, n: u64, stamp: u64, bytes: Str): Str {
    bytes + Broadcast(f, Matching(f, left), n, stamp)
  }

  lemma {:induction false} LeftStep(f: Format, left: seq<Frame>, n: u64, stamp: u64, bytes: Str)
    requires left != [] && Matches(f, left[0])
    ensures Left(f, left[1..], (n + 1) % TWO64, (stamp + SAMPLES_PER_FRAME) % TWO64,
                 bytes + Framed(Wire(Packet(f, n, stamp, left[0])))) == Left(f, left, n, stamp, bytes)
    ensures Matching(f, left[1..]) == left[1..] <==> Matching(f, left) == left
  {
    MatchingStep(f, left);
    assert left == [left[0]] + left[1..];
    assert Matching(f, left) == [left[0]] + Matching(f, left[1..]);
    BroadcastStep(f, Matching(f, left), n, stamp);
  }

  lemma {:induction false} LeftEnd(f: Format, left: seq<Frame>, n: u64, stamp: u64, bytes: Str)
    requires left == [] || !Matches(f, left[0])
    ensures Left(f, left, n, stamp, bytes) == bytes && (Matching(f, left) == left <==> left == [])
  {
    assert Broadcast(f, [], n, stamp) == [];
  }

  lemma {:induction false} MatchingStep(f: Format, frames: seq<Frame>)
    requires frames != [] && Matches(f, frames[0])
    ensures Matching(f, frames)[0] == frames[0] && Matching(f, frames)[1..] == Matching(f, frames[1..])
  {
  }

  // ---------- the receiver ----------

  class Receiver {
    const tx: Pipe
    const cfg: Config
    var buf: map<u64, Frame>
    var nextSeq: u64
    var started: bool
    var lastFrame: Frame
    var format: Format
    var dllLevel: real
    var played: nat
    var concealed: nat
    var dropped: nat
    var sink: seq<Frame>

    ghost function Model(): Rx
      reads this
    {
      Rx(cfg, buf, nextSeq, started, lastFrame, format, dllLevel, played, concealed, dropped, sink)
    }

    constructor (tx: Pipe, sinkFormat: Format, cfg: Config)
      ensures this.tx == tx && Model() == Fresh(cfg, sinkFormat)
    {
      this.tx, this.cfg := tx, WithDefaults(cfg);
      buf, nextSeq, started, lastFrame, format, dllLevel := map[], 0, false, Frame([]), sinkFormat, 0.0;
      played, concealed, dropped, sink := 0, 0, 0, [];
    }

    method Offer(p: Packet)
      modifies this
      ensures Model() == JitterBuffer.Offer(old(Model()), p)
    {
      if !started {
        nextSeq, format, started := p.sequence, p.format, true;
      }
      if p.sequence < nextSeq || p.sequence in buf || |buf| >= cfg.max {
        dropped := dropped + 1;
        return;
      }
      buf := buf[p.sequence := p.frame];
    }

    method Conceal() returns (f: Frame)
      ensures f == Fill(cfg.gapFill, lastFrame, format)
      ensures if cfg.gapFill == Hold && |lastFrame.samples| > 0 then f == lastFrame else IsSilence(f, format)
    {
      f := if cfg.gapFill == Hold && |lastFrame.samples| > 0 then lastFrame else Silent(format);
    }

    method PlayOne()
      modifies this
      ensures Model() == JitterBuffer.PlayOne(old(Model()))
    {
      var frame;
      if nextSeq in buf {
        frame := buf[nextSeq];
        buf := buf - {nextSeq};
        lastFrame := frame;
        played := played + 1;
      } else {
        frame := Conceal();
        concealed := concealed + 1;
      }
      nextSeq := (nextSeq + 1) % TWO64;
      sink := sink + [frame];
    }

    method DllAdjust() returns (n: nat)
      modifies this
      ensures Model() == Filtered(old(Model())) && n == Beats(Model())
    {
      var err := |buf| as real - cfg.target as real;
      dllLevel := dllLevel + 0.1 * (err - dllLevel);
      n := if dllLevel > 1.0 then 2 else if dllLevel < -1.0 && nextSeq !in buf then 0 else 1;
    }

    /** `Tick`: returns how many frames it wrote. */
    method Tick() returns (n: nat)
      modifies this
      ensures Model() == JitterBuffer.Tick(old(Model())) && |sink| == |old(sink)| + n
    {
      if !started { return 0; }
      n := DllAdjust();
      ghost var f := Model();
      hide JitterBuffer.PlayOne, Filtered, Beats;
      for i := 0 to n
        invariant Model() == PlayN(f, i) && |sink| == |old(sink)| + i
      {
        PlayShape(Model());
        PlayOne();
      }
    }

    method PlayBuffered()
      requires Drainable(Model())
      modifies this
      ensures Model() == Drained(old(Model()))
    {
      hide JitterBuffer.PlayOne, JitterBuffer.Tick;
      while started && |buf| > 0
        invariant Drainable(Model()) && Drained(Model()) == Drained(old(Model()))
        decreases if buf == map[] then 0 else TWO64 - nextSeq
      {
        var before := |buf|;
        ghost var r := Model();
        assert r.buf != map[];
        DrainAdvances(r);
        var _ := Tick();
        if |buf| == before && nextSeq !in buf { PlayOne(); }
        assert Model() == DrainStep(r);
      }
    }

    /** `Run`: read, decode, offer and tick until the stream ends, then drain. */
    method Run() returns (ok: bool)
      requires Ready(Model())
      modifies this, tx
      ensures var (u, e) := old(Listen(Model(), tx.bytes));
              Ready(u) && ok == (e == Clean) && Model() == if ok then Drained(u) else u
    {
      ListenKeepsReady(Model(), tx.bytes);
      assert Drainable(Listen(Model(), tx.bytes).0);
      hide JitterBuffer.Offer, JitterBuffer.Tick, Unwire, Recv, Drained, Drainable, Ready;
      ghost var goal := Listen(Model(), tx.bytes);
      while true
        invariant Listen(Model(), tx.bytes) == goal
        decreases |tx.bytes|
      {
        var raw := tx.Receive();
        match raw
        case Eof =>
          PlayBuffered();
          return true;
        case UnexpectedEof => return false;
        case TooLarge => return false;
        case Got(pkt, _) =>
          var p := DecodePacket(pkt);
          match p
          case None => dropped := dropped + 1;
          case Some(p) =>
            Offer(p);
            var _ := Tick();
      }
    }
  }

  /** A whole transfer: the sender runs to its end, then the receiver does. The sink holds exactly the
      source's frames, up to the first malformed one, if and only if the receiver can buffer a frame and
      the format's frames are within the sample cap; above it the receiver finds the stream broken. */
  method Relay(frames: seq<Frame>, f: Format, sinkFormat: Format, cfg: Config) returns (sent: bool, heard: bool, out: seq<Frame>)
    requires |frames| < TWO64
    ensures sent <==> forall x :: x in frames ==> Matches(f, x)
    ensures sent ==> Matching(f, frames) == frames
    ensures heard <==> SamplesPerPacket(f) <= MAX_PCM_VALUES || Matching(f, frames) == []
    ensures out == Matching(f, frames)
       <==> (WithDefaults(cfg).max >= 1 && SamplesPerPacket(f) <= MAX_PCM_VALUES) || Matching(f, frames) == []
  {
    var pipe := new Pipe();
    var sender := new Sender(frames, f, pipe);
    sent := sender.Run();
    ghost var m := Matching(f, frames);
    MatchingIsGood(f, frames);
    FreshIsReady(cfg, sinkFormat);
    if SamplesPerPacket(f) <= MAX_PCM_VALUES || m == [] {
      EndToEnd(cfg, sinkFormat, f, m);
    } else {
      OversizedBreaks(Fresh(cfg, sinkFormat), f, m, 0, 0);
      assert Fresh(cfg, sinkFormat).sink == [];
    }
    var receiver := new Receiver(pipe, sinkFormat, cfg);
    assert [] + Broadcast(f, m, 0, 0) == Broadcast(f, m, 0, 0);
    hide Listen, Broadcast, Drained, Drainable, Matching, Fresh, Ready;
    heard := receiver.Run();
    out := receiver.sink;
  }

  lemma {:induction false} MatchingIsGood(f: Format, frames: seq<Frame>)
    ensures |Matching(f, frames)| <= |frames| && forall x :: x in Matching(f, frames) ==> Matches(f, x)
    ensures Matching(f, frames) == frames <==> forall x :: x in frames ==> Matches(f, x)
  {
    if frames != [] {
      MatchingIsGood(f, frames[1..]);
      assert frames == [frames[0]] + frames[1..];
      hide SamplesPerPacket;
      if Matches(f, frames[0]) {
        var m := Matching(f, frames);
        assert m[1..] == Matching(f, frames[1..]);
        if m == frames { assert m[1..] == frames[1..]; }
      }
    }
  }
}
