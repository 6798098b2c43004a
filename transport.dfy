/** The serial line as the protocol engine sees it: a script of what each
    readiness poll finds, a log of the bytes written, a count of buffer
    flushes and a log of control-line events. */
module Transport {

  import opened Frames

  /** What one readiness poll (`select` with a 2 s timeout) finds on the line. */
  datatype Burst =
    | Arrive(bytes: seq<byte>)  // the line is readable and these bytes are waiting
    | Silence                   // the poll times out
    | Fault                     // the line is readable but reading raises OSError

  /** One control-line operation, in the order the port receives them. */
  datatype LineEvent = SetBreak(on: bool) | SetRts(on: bool) | SetDtr(on: bool) | Sleep(ms: nat) | FlushInput

  /** The whole observable state of the port, as a value. */
  datatype Wire = Wire(rx: seq<Burst>, tx: seq<byte>, flushes: nat, lines: seq<LineEvent>)

  function Min(a: int, b: int): int
  {
    if a <= b then a else b
  }

  /** Sum over the script of one plus the bytes of each burst: shrinks on every poll. */
  function Weight(rx: seq<Burst>): nat
  {
    if rx == [] then 0
    else (if rx[0].Arrive? then |rx[0].bytes| else 0) + 1 + Weight(rx[1..])
  }

  /** Every byte the device will ever send, in order. */
  function Stream(rx: seq<Burst>): seq<byte>
  {
    if rx == [] then []
    else (if rx[0].Arrive? then rx[0].bytes else []) + Stream(rx[1..])
  }

  /** How many bytes arrive before the first poll that finds nothing or fails. */
  function Available(rx: seq<Burst>): (a: nat)
    ensures a <= |Stream(rx)|
  {
    if rx == [] || !rx[0].Arrive? then 0 else |rx[0].bytes| + Available(rx[1..])
  }

  /** The script after `n` bytes are taken from a leading `Arrive` burst; a burst
      that is used up disappears. */
  function Consume(rx: seq<Burst>, n: nat): (rest: seq<Burst>)
    requires rx != [] && rx[0].Arrive? && n <= |rx[0].bytes|
    ensures Weight(rest) == Weight(rx) - n - (if n == |rx[0].bytes| then 1 else 0)
  {
    var b := rx[0].bytes;
    if n < |b| then [Arrive(b[n..])] + rx[1..] else rx[1..]
  }

  /** Taking bytes from the front of the script takes them from the front of the stream. */
  lemma ConsumeStream(rx: seq<Burst>, n: nat)
    requires rx != [] && rx[0].Arrive? && n <= |rx[0].bytes|
    ensures Stream(Consume(rx, n)) == rx[0].bytes[n..] + Stream(rx[1..])
    ensures Available(Consume(rx, n)) == |rx[0].bytes| - n + Available(rx[1..])
  {
  }

  /** How a `read_n(ser, want)` that has already collected `got` finishes: it
      keeps polling and reading at most the bytes still wanted, and stops once
      they are in, or a poll finds nothing, or a read fails. */
  function DrainFrom(rx: seq<Burst>, want: int, got: seq<byte>): (seq<byte>, seq<Burst>)
    decreases Weight(rx)
  {
    if want <= 0 || rx == [] then (got, rx)
    else if !rx[0].Arrive? then (got, rx[1..])
    else
      var n := Min(want, |rx[0].bytes|);
      DrainFrom(Consume(rx, n), want - n, got + rx[0].bytes[..n])
  }

  /** What `read_n(ser, want)` returns and the script it leaves. */
  function Drain(rx: seq<Burst>, want: int): (seq<byte>, seq<Burst>)
  {
    DrainFrom(rx, want, [])
  }

  /** What was collected before is a prefix of the result, and does not
      change where the read stops. */
  lemma {:induction false} DrainFromSplit(rx: seq<Burst>, want: int, got: seq<byte>)
    ensures DrainFrom(rx, want, got) == (got + Drain(rx, want).0, Drain(rx, want).1)
    decreases Weight(rx)
  {
    if want <= 0 || rx == [] || !rx[0].Arrive? {
      assert got + [] == got;
    } else {
      var n := Min(want, |rx[0].bytes|);
      var p := rx[0].bytes[..n];
      var rx' := Consume(rx, n);
      DrainFromSplit(rx', want - n, got + p);
      DrainFromSplit(rx', want - n, p);
      assert [] + p == p;
      assert got + p + Drain(rx', want - n).0 == got + (p + Drain(rx', want - n).0);
    }
  }

  /** One step of `Drain` on a leading `Arrive` burst. */
  lemma DrainArrive(rx: seq<Burst>, want: int)
    requires want > 0 && rx != [] && rx[0].Arrive?
    ensures var n := Min(want, |rx[0].bytes|);
      Drain(rx, want) == (rx[0].bytes[..n] + Drain(Consume(rx, n), want - n).0, Drain(Consume(rx, n), want - n).1)
  {
    var n := Min(want, |rx[0].bytes|);
    assert [] + rx[0].bytes[..n] == rx[0].bytes[..n];
    DrainFromSplit(Consume(rx, n), want - n, rx[0].bytes[..n]);
  }

  lemma Rejoin(b: seq<byte>, n: nat, more: seq<byte>, after: seq<byte>, tail: seq<byte>)
    requires n <= |b| && more + after == b[n..] + tail
    ensures b[..n] + more + after == b + tail
  {
    calc {
      b[..n] + more + after;
      b[..n] + (more + after);
      b[..n] + (b[n..] + tail);
      (b[..n] + b[n..]) + tail;
      { assert b[..n] + b[n..] == b; }
      b + tail;
    }
  }

  /** `read_n` returns `min(want, Available)` bytes: all it asked for unless a
      poll found nothing or a read failed first. */
  lemma {:induction false} DrainLength(rx: seq<Burst>, want: int)
    ensures |Drain(rx, want).0| == Min(if want < 0 then 0 else want, Available(rx))
    decreases Weight(rx)
  {
    if want > 0 && rx != [] && rx[0].Arrive? {
      var n := Min(want, |rx[0].bytes|);
      DrainArrive(rx, want);
      ConsumeStream(rx, n);
      DrainLength(Consume(rx, n), want - n);
    }
  }

  /** The bytes `read_n` returns are the next bytes of the stream, in order,
      and none of the bytes it does not return is lost. */
  lemma {:induction false} DrainConserves(rx: seq<Burst>, want: int)
    ensures Drain(rx, want).0 + Stream(Drain(rx, want).1) == Stream(rx)
    decreases Weight(rx)
  {
    if want <= 0 || rx == [] {
    } else if rx[0].Arrive? {
      var b := rx[0].bytes;
      var n := Min(want, |b|);
      var rx' := Consume(rx, n);
      DrainArrive(rx, want);
      ConsumeStream(rx, n);
      DrainConserves(rx', want - n);
      var more, rest := Drain(rx', want - n).0, Drain(rx', want - n).1;
      assert Stream(rx) == b + Stream(rx[1..]);
      Rejoin(b, n, more, Stream(rest), Stream(rx[1..]));
    } else {
      assert Stream(rx) == Stream(rx[1..]);
    }
  }

  /** A read that gets every byte it asked for leaves the rest of the bytes
      already on the way where they were. */
  lemma {:induction false} DrainAvailable(rx: seq<Burst>, want: int)
    requires |Drain(rx, want).0| == want
    ensures Available(Drain(rx, want).1) == Available(rx) - want
    decreases Weight(rx)
  {
    if want > 0 && rx != [] && rx[0].Arrive? {
      var n := Min(want, |rx[0].bytes|);
      DrainArrive(rx, want);
      ConsumeStream(rx, n);
      DrainAvailable(Consume(rx, n), want - n);
    }
  }

  /** The serial port, updated in place by every operation on it. */
  class Port {
    var rx: seq<Burst>
    var tx: seq<byte>
    var flushes: nat
    var lines: seq<LineEvent>

    function Value(): Wire
      reads this
    {
      Wire(rx, tx, flushes, lines)
    }

    /** An opened port whose device will answer according to `script`. */
    constructor (script: seq<Burst>)
      ensures Value() == Wire(script, [], 0, [])
    {
      rx, tx, flushes, lines := script, [], 0, [];
    }

    /** `ser.write(bytes)`. */
    method Write(bytes: seq<byte>)
      modifies this
      ensures Value() == old(Value()).(tx := old(tx) + bytes)
    {
      tx := tx + bytes;
    }

    /** `select.select([ser.fd], [], [], 2.0)`: is the line readable? A poll
        that times out uses up its `Silence`; an exhausted script stays silent. */
    method Select() returns (ready: bool)
      modifies this
      ensures ready <==> old(rx) != [] && !old(rx)[0].Silence?
      ensures rx == if old(rx) != [] && old(rx)[0].Silence? then old(rx)[1..] else old(rx)
      ensures tx == old(tx) && flushes == old(flushes) && lines == old(lines)
    {
      ready := rx != [] && !rx[0].Silence?;
      if rx != [] && rx[0].Silence? {
        rx := rx[1..];
      }
    }

    /** `ser.inWaiting()`: the bytes already received and not yet read. */
    method InWaiting() returns (n: nat)
      ensures n == if rx != [] && rx[0].Arrive? then |rx[0].bytes| else 0
    {
      n := if rx != [] && rx[0].Arrive? then |rx[0].bytes| else 0;
    }

    /** `ser.read(n)` on a readable line: `None` when it raises OSError. */
    method Read(n: nat) returns (r: Option<seq<byte>>)
      requires rx != [] && !rx[0].Silence?
      modifies this
      ensures old(rx)[0].Fault? ==> r == None && rx == old(rx)[1..]
      ensures old(rx)[0].Arrive? ==>
        var k := Min(n, |old(rx)[0].bytes|);
        r == Some(old(rx)[0].bytes[..k]) && rx == Consume(old(rx), k)
      ensures tx == old(tx) && flushes == old(flushes) && lines == old(lines)
    {
      if rx[0].Fault? {
        rx := rx[1..];
        r := None;
      } else {
        var k := Min(n, |rx[0].bytes|);
        r := Some(rx[0].bytes[..k]);
        rx := Consume(rx, k);
      }
    }

    /** `return_flush`: flushInput, flushOutput, flush and a 100 ms settle,
        counted as one flush. */
    method ReturnFlush()
      modifies this
      ensures Value() == old(Value()).(flushes := old(flushes) + 1)
    {
      flushes := flushes + 1;
    }

    /** `setBreak`, `setRTS`, `setDTR`, `time.sleep` and `flushInput` during a reset. */
    method Line(e: LineEvent)
      modifies this
      ensures lines == old(lines) + [e]
      ensures rx == old(rx) && tx == old(tx) && flushes == old(flushes)
    {
      lines := lines + [e];
    }
  }
}
