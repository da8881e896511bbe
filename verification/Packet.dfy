/** The audio packet codec and its length framing (daemon/audio/transport.go, streamtransport.go). */
module Packet {
  import opened Machine

  type i16 = x: int | -0x8000 <= x < 0x8000
  type u16 = x: int | 0 <= x < TWO16
  type u32 = x: int | 0 <= x < TWO32

  datatype Format = Format(rate: u32, channels: u16)

  datatype Frame = Frame(samples: seq<i16>)

  datatype Packet = Packet(format: Format, sequence: u64, timestamp: u64, frame: Frame)

  const SAMPLES_PER_FRAME := 480
  const MAGIC: Str := [67, 65, 85, 49]
  const HEADER_SIZE := 30
  const MAX_PCM_VALUES := 0x10_0000
  const MAX_FRAMED_PACKET := HEADER_SIZE + MAX_PCM_VALUES * 2

  function SamplesPerPacket(f: Format): nat {
    SAMPLES_PER_FRAME * if f.channels == 0 then 1 else f.channels
  }

  // ---------- the wire form ----------

  /** A sample as two little-endian bytes, and back. */
  function Low(x: i16): byte { x % 256 }
  function High(x: i16): byte { (if x < 0 then x + TWO16 else x) / 256 }
  function Sample(lo: byte, hi: byte): i16 {
    var n := lo + 256 * hi;
    if n < 0x8000 then n else n - TWO16
  }

  function Pcm(xs: seq<i16>): (b: Str)
    ensures |b| == 2 * |xs|
  {
    if xs == [] then [] else Pcm(xs[..|xs| - 1]) + [Low(xs[|xs| - 1]), High(xs[|xs| - 1])]
  }

  /** The first `n` samples of a payload. */
  function Unpcm(b: Str, n: nat): (xs: seq<i16>)
    requires 2 * n <= |b|
    ensures |xs| == n
  {
    if n == 0 then [] else Unpcm(b, n - 1) + [Sample(b[2 * n - 2], b[2 * n - 1])]
  }

  function Header(p: Packet): (h: Str)
    ensures |h| == HEADER_SIZE
  {
    MAGIC + Big(p.format.channels, 2) + Big(p.format.rate, 4) + Big(p.sequence, 8) + Big(p.timestamp, 8)
          + Big(|p.frame.samples|, 4)
  }

  function Wire(p: Packet): Str { Header(p) + Pcm(p.frame.samples) }

  function Count(b: Str): nat
    requires |b| >= HEADER_SIZE
  {
    Unbig(b[26..30])
  }

  /** Enough bytes, the magic, and a sample count that is small and present. */
  predicate WellFormed(b: Str) {
    |b| >= HEADER_SIZE && b[0..4] == MAGIC && Count(b) <= MAX_PCM_VALUES && |b| >= HEADER_SIZE + Count(b) * 2
  }

  function Unwire(b: Str): Option<Packet> {
    if !WellFormed(b) then None
    else
      Widths();
      Some(Packet(Format(Unbig(b[6..10]), Unbig(b[4..6])), Unbig(b[10..18]), Unbig(b[18..26]),
                  Frame(Unpcm(b[HEADER_SIZE..], Count(b)))))
  }

  lemma SampleRoundTrip(x: i16)
    ensures Sample(Low(x), High(x)) == x
  {
  }

  lemma {:induction false} PcmRoundTrip(xs: seq<i16>, n: nat)
    requires n <= |xs|
    ensures Unpcm(Pcm(xs), n) == xs[..n]
  {
    if n > 0 {
      PcmRoundTrip(xs, n - 1);
      PcmAt(xs, n - 1);
      SampleRoundTrip(xs[n - 1]);
    }
  }

  lemma {:induction false} PcmAt(xs: seq<i16>, i: nat)
    requires i < |xs|
    ensures Pcm(xs)[2 * i] == Low(xs[i]) && Pcm(xs)[2 * i + 1] == High(xs[i])
  {
    if i < |xs| - 1 { PcmAt(xs[..|xs| - 1], i); }
  }

  lemma HeaderFields(p: Packet, b: Str)
    requires |b| >= HEADER_SIZE && b[..HEADER_SIZE] == Header(p)
    ensures b[0..4] == MAGIC && b[4..6] == Big(p.format.channels, 2) && b[6..10] == Big(p.format.rate, 4)
    ensures b[10..18] == Big(p.sequence, 8) && b[18..26] == Big(p.timestamp, 8) && b[26..30] == Big(|p.frame.samples|, 4)
  {
    var h := Header(p);
    assert b[0..4] == h[0..4] && b[4..6] == h[4..6] && b[6..10] == h[6..10];
    assert b[10..18] == h[10..18] && b[18..26] == h[18..26] && b[26..30] == h[26..30];
  }

  /** A packet survives the wire, whatever follows it, exactly when its sample count is within the cap. */
  lemma WireRoundTrip(p: Packet, trailing: Str)
    requires |p.frame.samples| < TWO32
    ensures Unwire(Wire(p) + trailing) == if |p.frame.samples| <= MAX_PCM_VALUES then Some(p) else None
  {
    var b, n := Wire(p) + trailing, |p.frame.samples|;
    assert b[..HEADER_SIZE] == Header(p);
    HeaderFields(p, b);
    assert b[HEADER_SIZE..] == Pcm(p.frame.samples) + trailing;
    Widths();
    hide Big, Unbig, Unpcm, Pcm, Header, Pow256;
    UnbigBig(p.format.channels, 2);
    UnbigBig(p.format.rate, 4);
    UnbigBig(p.sequence, 8);
    UnbigBig(p.timestamp, 8);
    UnbigBig(n, 4);
    UnpcmPrefix(Pcm(p.frame.samples), trailing, n);
    PcmRoundTrip(p.frame.samples, n);
    assert p.frame.samples[..n] == p.frame.samples;
  }

  lemma {:induction false} UnpcmPrefix(b: Str, trailing: Str, n: nat)
    requires 2 * n <= |b|
    ensures Unpcm(b + trailing, n) == Unpcm(b, n)
  {
    if n > 0 { UnpcmPrefix(b, trailing, n - 1); }
  }

  // ---------- framing ----------

  function Framed(pkt: Str): Str { Big(|pkt|, 4) + pkt }

  function Stream(pkts: seq<Str>): Str {
    if pkts == [] then [] else Framed(pkts[0]) + Stream(pkts[1..])
  }

  datatype Received = Got(pkt: Str, rest: Str) | Eof | UnexpectedEof | TooLarge

  /** One Recv on the unread stream. */
  function Recv(s: Str): Received {
    if s == [] then Eof
    else if |s| < 4 then UnexpectedEof
    else
      var n := Unbig(s[..4]);
      if n > MAX_FRAMED_PACKET then TooLarge
      else if |s| < 4 + n then UnexpectedEof
      else Got(s[4..4 + n], s[4 + n..])
  }

  /** A packet that fits comes out as it went in, and the rest of the stream is untouched. */
  lemma RecvFramed(pkt: Str, rest: Str)
    requires |pkt| <= MAX_FRAMED_PACKET
    ensures Recv(Framed(pkt) + rest) == Got(pkt, rest)
  {
    var s := Framed(pkt) + rest;
    Widths();
    UnbigBig(|pkt|, 4);
    assert s[..4] == Big(|pkt|, 4) && s[4..4 + |pkt|] == pkt && s[4 + |pkt|..] == rest;
  }

  /** A packet comes off the stream exactly if the stream starts with it, framed, and it is within the bound. */
  lemma RecvExactly(s: Str, pkt: Str, rest: Str)
    ensures Recv(s) == Got(pkt, rest) <==> |pkt| <= MAX_FRAMED_PACKET && s == Framed(pkt) + rest
  {
    if |pkt| <= MAX_FRAMED_PACKET && s == Framed(pkt) + rest { RecvFramed(pkt, rest); }
    if Recv(s) == Got(pkt, rest) {
      Widths();
      BigUnbig(s[..4]);
      assert s == s[..4] + (s[4..4 + |pkt|] + s[4 + |pkt|..]);
    }
  }

  /** A stream cut off inside a packet ends unexpectedly; it ends cleanly only where it is empty. */
  lemma RecvTruncated(pkt: Str, k: nat)
    requires |pkt| <= MAX_FRAMED_PACKET && 0 < k < |Framed(pkt)|
    ensures Recv(Framed(pkt)[..k]) == UnexpectedEof
    ensures forall s :: Recv(s) == Eof <==> s == []
  {
    Widths();
    UnbigBig(|pkt|, 4);
    var s := Framed(pkt)[..k];
    assert k >= 4 ==> s[..4] == Big(|pkt|, 4);
  }

  /** A sample's bytes, low byte first, are its value modulo 2^16. */
  lemma SampleIsLittleEndian(x: i16)
    ensures (Low(x) + 256 * High(x) - x) % TWO16 == 0
  {
  }

  lemma LowHighOfSample(lo: byte, hi: byte)
    ensures Low(Sample(lo, hi)) == lo && High(Sample(lo, hi)) == hi
  {
  }

  lemma {:induction false} PcmAppend(xs: seq<i16>, lo: byte, hi: byte)
    ensures Pcm(xs + [Sample(lo, hi)]) == Pcm(xs) + [lo, hi]
  {
    LowHighOfSample(lo, hi);
    hide Low, High, Sample;
    var all := xs + [Sample(lo, hi)];
    assert all[..|all| - 1] == xs && all[|all| - 1] == Sample(lo, hi);
  }

  lemma UnpcmStep(b: Str, n: nat, m: nat)
    requires 0 < n && m == 2 * (n - 1) && m + 2 <= |b|
    ensures Unpcm(b, n) == Unpcm(b, n - 1) + [Sample(b[m], b[m + 1])] && b[..m + 2] == b[..m] + [b[m], b[m + 1]]
  {
  }

  lemma {:induction false} PcmOfUnpcm(b: Str, n: nat)
    requires 2 * n <= |b|
    ensures Pcm(Unpcm(b, n)) == b[..2 * n]
  {
    if n > 0 {
      var m := 2 * (n - 1);
      PcmOfUnpcm(b, n - 1);
      PcmAppend(Unpcm(b, n - 1), b[m], b[m + 1]);
      UnpcmStep(b, n, m);
      hide Pcm, Unpcm, Sample;
    }
  }

  lemma HeaderOf(b: Str, p: Packet)
    requires Unwire(b) == Some(p)
    ensures Header(p) == b[..HEADER_SIZE]
  {
    BigUnbig(b[4..6]);
    BigUnbig(b[6..10]);
    BigUnbig(b[10..18]);
    BigUnbig(b[18..26]);
    BigUnbig(b[26..30]);
    hide Big, Unbig, Unpcm;
    assert b[..HEADER_SIZE] == b[0..4] + b[4..6] + b[6..10] + b[10..18] + b[18..26] + b[26..30];
  }

  /** Bytes are read as a packet exactly if they start with its wire form and it is within the cap. */
  lemma UnwireExactly(b: Str, p: Packet)
    requires |p.frame.samples| < TWO32
    ensures Unwire(b) == Some(p) <==> |p.frame.samples| <= MAX_PCM_VALUES && Wire(p) <= b
  {
    if Wire(p) <= b {
      assert b == Wire(p) + b[|Wire(p)|..];
      WireRoundTrip(p, b[|Wire(p)|..]);
    }
    if Unwire(b) == Some(p) { StartsWithWire(b, p); }
  }

  lemma StartsWithWire(b: Str, p: Packet)
    requires Unwire(b) == Some(p)
    ensures |p.frame.samples| <= MAX_PCM_VALUES && Wire(p) <= b
  {
    HeaderOf(b, p);
    var n := Count(b);
    PcmOfUnpcm(b[HEADER_SIZE..], n);
    assert p.frame.samples == Unpcm(b[HEADER_SIZE..], n) && n <= MAX_PCM_VALUES && HEADER_SIZE + 2 * n <= |b|;
    hide Header, Pcm, Unpcm, Unwire, WellFormed, Count;
    TwoSlices(b, HEADER_SIZE, 2 * n);
  }

  lemma TwoSlices(b: Str, i: nat, k: nat)
    requires i + k <= |b|
    ensures b[..i] + b[i..][..k] == b[..i + k] && b[..i + k] <= b
  {
  }
}
