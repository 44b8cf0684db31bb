/** RateLimitedConn's write side: bytes pass downstream only after they are charged. */
module LimitedConns {
  import opened Bytes
  import opened RateLimiters

  // How a downstream writer answers one call: it takes up to n bytes.
  datatype Answer = Answer(n: nat, failed: bool) {
    function Taken(given: nat): nat { if n < given then n else given }
    function Error(): WriteError { if failed then DownstreamFailed else NoError }
  }

  datatype WriteError = NoError | LimiterClosed | DownstreamFailed | ShortWrite

  /** The wrapped connection: it takes a prefix of each chunk.  `honest` holds while
      every call without an error took its whole chunk, as io.Writer demands. */
  class Downstream {
    const answers: nat -> Answer
    var calls: nat
    var sent: seq<byte>
    ghost var honest: bool

    // No call numbered from `first` up to `end` failed.
    predicate Fine(first: nat, end: nat) {
      forall c :: first <= c < end ==> !answers(c).failed
    }

    constructor (answers: nat -> Answer)
      ensures this.answers == answers && calls == 0 && sent == [] && honest
    {
      this.answers, calls, sent, honest := answers, 0, [], true;
    }

    method Write(chunk: seq<byte>) returns (n: nat, failed: bool)
      modifies this
      ensures n <= |chunk| && sent == old(sent) + chunk[..n]
      ensures var a := answers(old(calls)); n == a.Taken(|chunk|) && failed == a.failed && calls == old(calls) + 1
      ensures honest == (old(honest) && (failed || n == |chunk|))
    {
      var a := answers(calls);
      n, failed := a.Taken(|chunk|), a.failed;
      calls, sent := calls + 1, sent + chunk[..n];
      honest := honest && (failed || n == |chunk|);
    }
  }

  class RateLimitedConn {
    const conn: Downstream
    const writeLimiter: RateLimiter?

    constructor (conn: Downstream, writeLimiter: RateLimiter?)
      ensures this.conn == conn && this.writeLimiter == writeLimiter
    {
      this.conn, this.writeLimiter := conn, writeLimiter;
    }

    ghost function Writers(): set<object> {
      {conn} + if writeLimiter == null then {} else {writeLimiter}
    }

    ghost predicate Valid()
      reads Writers()
    {
      writeLimiter != null ==> writeLimiter.Valid()
    }

    // The limiter charges every byte.
    ghost predicate Limited()
      reads Writers()
    {
      writeLimiter != null && writeLimiter.State().Limiting()
    }

    // Charges one piece of at most a chunk, and says what it cost.
    method Charge(n: int, rounds: nat -> Round) returns (ok: bool, ghost charged: real)
      requires Valid() && writeLimiter != null && 0 < n
      modifies writeLimiter
      ensures Valid()
      ensures old(Limited()) ==> Limited() && ok && charged == n as real
      ensures !old(Limited()) ==> charged == 0.0 && ok == !old(writeLimiter.closed)
                                  && writeLimiter.State() == old(writeLimiter.State())
    {
      ghost var before := writeLimiter.State();
      var pieces;
      ok, pieces := writeLimiter.Wait(n, rounds);
      charged := Sum(pieces);
      if before.Limiting() {
        WaitChargesExactly(before, n, rounds, 0);
      }
    }

    /** Write: what passed downstream is the prefix of the reported length; success
        means every byte passed, in order, each charged once; a failure charged at
        most one chunk that did not pass.  The first downstream error ends the write and
        is the one reported. */
    method Write(b: seq<byte>, rounds: nat -> nat -> Round) returns (total: nat, err: WriteError, ghost charged: real)
      requires Valid()
      modifies Writers()
      ensures Valid()
      ensures total <= |b| && conn.sent == old(conn.sent) + b[..total]
      ensures err.NoError? && (conn.honest || (b != [] && writeLimiter != null)) ==> total == |b|
      ensures old(Limited()) ==> Limited() && err != LimiterClosed
      ensures old(Limited()) && b != [] ==> total as real <= charged <= (total + MAX_WRITE_CHUNK) as real
      ensures old(Limited()) && err.NoError? && b != [] ==> charged == |b| as real
      ensures !old(Limited()) ==> charged == 0.0
      ensures writeLimiter != null && old(writeLimiter.closed) && b != [] ==> err == LimiterClosed && total == 0
      ensures old(conn.calls) <= conn.calls
      ensures err == DownstreamFailed <==> !conn.Fine(old(conn.calls), conn.calls)
      ensures err == DownstreamFailed ==> conn.Fine(old(conn.calls), conn.calls - 1)
    {
      if |b| == 0 || writeLimiter == null {
        var failed;
        total, failed := conn.Write(b);
        return total, if failed then DownstreamFailed else NoError, 0.0;
      }
      total, err, charged := 0, NoError, 0.0;
      var turn := 0;
      while total < |b|
        invariant total <= |b| && conn.sent == old(conn.sent) + b[..total]
        invariant old(conn.calls) <= conn.calls && conn.Fine(old(conn.calls), conn.calls)
        invariant Valid() && (old(Limited()) <==> Limited())
        invariant charged == (if Limited() then total as real else 0.0)
        invariant writeLimiter.closed == old(writeLimiter.closed) && (writeLimiter.closed ==> total == 0)
      {
        var end := total + MAX_WRITE_CHUNK;
        if end > |b| {
          end := |b|;
        }
        var chunk := b[total..end];
        var ok, paid := Charge(|chunk|, rounds(turn));
        charged := charged + paid;
        if !ok {
          return total, LimiterClosed, charged;
        }
        var n, failed := conn.Write(chunk);
        assert b[..total + n] == b[..total] + chunk[..n];
        total := total + n;
        if failed {
          return total, DownstreamFailed, charged;
        }
        if n != |chunk| {
          return total, ShortWrite, charged;
        }
        turn := turn + 1;
      }
      assert b[..total] == b;
    }

    /** WriteBuffer: success passes the whole buffer, in order, exactly when no
        downstream call took less than it was given without an error (the counts it
        returns are ignored), and charges each byte once. */
    method WriteBuffer(buffer: seq<byte>, rounds: nat -> nat -> Round) returns (err: WriteError, ghost charged: real)
      requires Valid()
      modifies Writers()
      ensures Valid()
      ensures err.NoError? && old(conn.honest) ==> (conn.honest <==> conn.sent == old(conn.sent) + buffer)
      ensures old(conn.sent) <= conn.sent
      ensures old(Limited()) ==> Limited() && err != LimiterClosed
      ensures old(Limited()) && err.NoError? ==> charged == |buffer| as real
      ensures old(Limited()) && 0 < |buffer| <= MAX_WRITE_CHUNK ==>
                var a := conn.answers(old(conn.calls));
                conn.sent == old(conn.sent) + buffer[..a.Taken(|buffer|)] && err == a.Error()
      ensures !old(Limited()) ==> charged == 0.0
      ensures writeLimiter != null && old(writeLimiter.closed) && buffer != [] ==>
                err == LimiterClosed && conn.sent == old(conn.sent)
    {
      charged := 0.0;
      var n, failed, ok;
      if |buffer| == 0 || writeLimiter == null {
        n, failed := conn.Write(buffer);
        assert buffer[..|buffer|] == buffer;
        return if failed then DownstreamFailed else NoError, charged;
      }
      var rest, turn := buffer, 0;
      ghost var passed := 0;
      while |rest| > MAX_WRITE_CHUNK
        invariant 0 < |rest| && passed + |rest| == |buffer| && rest == buffer[passed..]
        invariant |buffer| <= MAX_WRITE_CHUNK ==> passed == 0 && conn.sent == old(conn.sent) && conn.calls == old(conn.calls)
        invariant conn.honest ==> conn.sent == old(conn.sent) + buffer[..passed]
        invariant old(conn.honest) && !conn.honest ==> |conn.sent| < |old(conn.sent)| + passed
        invariant old(conn.sent) <= conn.sent
        invariant Valid() && (old(Limited()) <==> Limited())
        invariant charged == (if Limited() then passed as real else 0.0)
        invariant writeLimiter.closed == old(writeLimiter.closed)
        invariant writeLimiter.closed ==> conn.sent == old(conn.sent)
      {
        ghost var paid;
        ok, paid := Charge(MAX_WRITE_CHUNK, rounds(turn));
        charged := charged + paid;
        if !ok {
          return LimiterClosed, charged;
        }
        n, failed := conn.Write(rest[..MAX_WRITE_CHUNK]);
        if failed {
          return DownstreamFailed, charged;
        }
        assert rest[..MAX_WRITE_CHUNK] == rest[..MAX_WRITE_CHUNK][..MAX_WRITE_CHUNK];
        assert buffer[..passed + MAX_WRITE_CHUNK] == buffer[..passed] + rest[..MAX_WRITE_CHUNK];
        rest, turn, passed := rest[MAX_WRITE_CHUNK..], turn + 1, passed + MAX_WRITE_CHUNK;
      }
      ghost var paid;
      ok, paid := Charge(|rest|, rounds(turn));
      charged := charged + paid;
      if !ok {
        return LimiterClosed, charged;
      }
      n, failed := conn.Write(rest);
      assert rest[..|rest|] == rest && buffer == buffer[..passed] + rest;
      return if failed then DownstreamFailed else NoError, charged;
    }
  }

  /** A downstream that takes nothing and reports no error, against io.Writer's contract: one
      byte is charged and lost, and WriteBuffer reports success. */
  method ShortWriteLost(rounds: nat -> nat -> Round) returns (err: WriteError, sent: seq<byte>)
    ensures err.NoError? && sent == []
  {
    var conn := new Downstream(_ => Answer(0, false));
    var limiter := new RateLimiter(1_000_000, 1.0);
    var limited := new RateLimitedConn(conn, limiter);
    ghost var charged;
    err, charged := limited.WriteBuffer([7], rounds);
    sent := conn.sent;
  }
}
