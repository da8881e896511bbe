/** The byte-quota guards of the data plane (daemon/dataplane/frame.go, server.go). */
module QuotaGuard {
  import opened Machine

  const CHUNK_SIZE: u64 := 65536

  function Min(a: nat, b: nat): nat { if a < b then a else b }

  /** A byte stream that hands out what is left in pieces of its own choosing, but makes progress: a
      non-empty request gets at least one byte, or the end. */
  class Source {
    var left: Str

    constructor (bytes: Str)
      ensures left == bytes
    {
      left := bytes;
    }

    method Read(want: nat) returns (data: Str, eof: bool)
      modifies this
      ensures |data| <= want && old(left) == data + left
      ensures want > 0 && old(left) != [] ==> data != []
      ensures want > 0 && old(left) == [] ==> eof
      ensures eof ==> left == []
    {
      var most := Min(want, |left|);
      var n: nat :| n <= most && (most > 0 ==> n > 0);
      data := left[..n];
      left := left[n..];
      if left == [] && data == [] && want > 0 {
        eof := true;
      } else {
        eof := *;
        eof := eof && left == [];
      }
    }
  }

  /** What either guard must deliver, and whether it must report an overrun. */
  function Allowed(data: Str, limit: u64): Str { data[..Min(|data|, limit)] }

  /** The size of copyQuota's next read, on uint64: one byte more than what remains, at most a chunk. */
  function Want(limit: u64, total: u64): u64
    requires total <= limit
  {
    var probe := (limit - total + 1) % TWO64;
    if probe < CHUNK_SIZE then probe else CHUNK_SIZE
  }

  /** The read is empty, and copyQuota makes no progress, exactly at the largest limit. */
  lemma WantIsEmptyExactly(limit: u64, total: u64)
    requires total <= limit
    ensures Want(limit, total) == 0 <==> limit == MAX64 && total == 0
    ensures limit < MAX64 ==> Want(limit, total) == Min(limit - total + 1, CHUNK_SIZE)
  {
    assert limit - total + 1 < TWO64 || (limit == MAX64 && total == 0);
  }

  /** The first `turns` turns of copyQuota's loop. Below the largest limit it is done within one turn more
      than there are bytes, and when done it has delivered exactly the first `limit` bytes and reports an
      overrun exactly when there are more; with the largest limit it never gets anywhere on a stream that
      has bytes. */
  method CopyQuota(src: Source, limit: u64, turns: nat) returns (out: Str, total: u64, over: bool, done: bool)
    modifies src
    ensures done ==> out == Allowed(old(src.left), limit) && total == |out| && (over <==> |old(src.left)| > limit)
    ensures limit < MAX64 && turns > |old(src.left)| ==> done
    ensures limit == MAX64 && old(src.left) != [] ==> !done && out == [] && src.left == old(src.left)
  {
    ghost var data := src.left;
    out, total := [], 0;
    for i := 0 to turns
      invariant total == |out| <= limit && data == out + src.left
      invariant limit < MAX64 ==> i + |src.left| <= |data|
      invariant limit == MAX64 && data != [] ==> out == []
    {
      WantIsEmptyExactly(limit, total);
      ghost var before := src.left;
      var got, eof := src.Read(Want(limit, total));
      if |got| > 0 {
        if total + |got| > limit {
          var keep := limit - total;
          out := out + got[..keep];
          assert data[..limit] == out;
          return out, total + keep, true, true;
        }
        out := out + got;
        total := total + |got|;
      }
      assert data == out + src.left;
      if eof {
        assert out == data;
        return out, total, false, true;
      }
    }
    over, done := false, false;
  }

  /** `io.LimitReader(st, n)` with a Go int64 budget. */
  class Limited {
    const src: Source
    var n: int

    constructor (src: Source, n: int)
      ensures this.src == src && this.n == n
    {
      this.src, this.n := src, n;
    }

    method Read(want: nat) returns (data: Str, eof: bool)
      modifies this, src
      ensures |data| <= want && old(src.left) == data + src.left
      ensures old(n) <= 0 ==> data == [] && eof && n == old(n)
      ensures old(n) > 0 ==> n == old(n) - |data| >= 0
      ensures old(n) > 0 && want > 0 && old(src.left) != [] ==> data != []
      ensures old(n) > 0 && want > 0 && old(src.left) == [] ==> eof
      ensures old(n) > 0 && eof ==> src.left == []
    {
      if n <= 0 { return [], true; }
      data, eof := src.Read(Min(want, n));
      n := n - |data|;
    }
  }

  datatype Status = More | End | Overrun

  class QuotaReader {
    const src: Limited
    const limit: u64
    var read: u64
    var failed: bool

    constructor (src: Limited, limit: u64)
      ensures this.src == src && this.limit == limit && read == 0 && !failed
    {
      this.src, this.limit, read, failed := src, limit, 0, false;
    }

    /** `quotaReader.Read`: an overrun sticks. Before one, the reader stands over a LimitReader that either
        has one byte more than the quota to give, or was built with a spent budget. */
    method Read(want: nat) returns (data: Str, status: Status)
      requires read <= limit && (failed || src.n == limit + 1 - read || (src.n <= 0 && read < limit))
      modifies this, src, src.src
      ensures old(failed) ==> failed && data == [] && src.n == old(src.n) && src.src.left == old(src.src.left)
      ensures |data| <= want && read == old(read) + |data| <= limit
      ensures failed <==> status == Overrun
      ensures !failed ==> old(src.src.left) == data + src.src.left
      ensures !old(failed) && old(src.n) <= 0 ==> data == [] && status == End && src.n == old(src.n)
      ensures !old(failed) && old(src.n) > 0 ==>
                (failed ==> data == [] && old(read) == limit && old(src.src.left) != [])
                && (!failed ==> src.n == limit + 1 - read)
                && (status == End ==> src.src.left == [])
                && (status == More && want > 0 ==> data != [])
    {
      if failed { return [], Overrun; }
      if read >= limit {
        var one, _ := src.Read(1);
        if |one| > 0 {
          failed := true;
          return [], Overrun;
        }
        return [], End;
      }
      var eof;
      data, eof := src.Read(Min(want, limit - read));
      read := read + |data|;
      status := if eof then End else More;
    }
  }

  /** The budget the server gives its LimitReader: `int64(limit) + 1`. */
  function Budget(limit: u64): i64 { Wrap64(ToI64(limit) + 1) }

  lemma BudgetExactly(limit: u64)
    ensures Budget(limit) == limit + 1 <==> limit < TWO63 - 1
    ensures limit >= TWO63 - 1 ==> Budget(limit) <= 0
  {
  }

  /** The server's guarded transfer, drained by a sink that reads in pieces of any positive size: for
      limits below 2^63-1 the sink gets exactly the first `limit` bytes and an overrun is reported exactly
      when there are more; from there on the budget wraps, and it gets nothing. */
  method ReceivePayload(st: Source, limit: u64) returns (out: Str, over: bool)
    modifies st
    ensures limit < TWO63 - 1 ==> out == Allowed(old(st.left), limit) && (over <==> |old(st.left)| > limit)
    ensures limit >= TWO63 - 1 ==> out == [] && !over
    ensures (out == Allowed(old(st.left), limit) && (over <==> |old(st.left)| > limit))
          <==> limit < TWO63 - 1 || old(st.left) == []
  {
    ghost var data := st.left;
    BudgetExactly(limit);
    var limited := new Limited(st, Budget(limit));
    var guard := new QuotaReader(limited, limit);
    out, over := [], false;
    while true
      invariant !guard.failed && guard.read == |out| <= limit
      invariant data == out + st.left
      invariant limited.n == (if limit < TWO63 - 1 then limit + 1 - |out| else Budget(limit))
      invariant limit >= TWO63 - 1 ==> out == []
      decreases |st.left|
    {
      var want: nat :| want > 0;
      var got, status := guard.Read(want);
      out := out + got;
      match status
      case End => return out, false;
      case Overrun =>
        assert out == data[..limit];
        return out, true;
      case More =>
    }
  }
}
