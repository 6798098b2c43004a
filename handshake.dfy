/** Bounded reads and the ACK/NACK handshake of the bootloader protocol, and
    the checksummed send that every command step starts with. */
module Handshake {

  import opened Frames
  import opened Transport

  const ACK: byte := 0x79
  const NACK: byte := 0x1f

  /** Why a step was not acknowledged: the device sent NACK ('NACK'), or
      something else or nothing at all ('Not ACK'). */
  datatype Refusal = Nack | NotAck

  datatype AckResult = Ack | Refused(reason: Refusal)

  /** `''.join(a)`. */
  function Concat(a: seq<seq<byte>>): seq<byte>
  {
    if a == [] then [] else Concat(a[..|a| - 1]) + a[|a| - 1]
  }

  /** `read_n(ser, toread)`: reads at most `toread` bytes, stopping early when a
      poll finds the line idle or a read raises OSError. */
  method ReadN(ser: Port, toread: int) returns (d: seq<byte>)
    modifies ser
    ensures (d, ser.rx) == Drain(old(ser.rx), toread)
    ensures ser.Value() == old(ser.Value()).(rx := ser.rx)
  {
    var nread := 0;
    var a: seq<seq<byte>> := [];
    ghost var goal := Drain(ser.rx, toread);
    while nread < toread
      invariant nread == |Concat(a)|
      invariant DrainFrom(ser.rx, toread - nread, Concat(a)) == goal
      invariant ser.tx == old(ser.tx) && ser.flushes == old(ser.flushes) && ser.lines == old(ser.lines)
      decreases Weight(ser.rx)
    {
      ghost var before := ser.rx;
      var ready := ser.Select();
      var nn := 0;
      if ready {
        nn := nn + 1;
        var waiting := ser.InWaiting();
        var n := Min(toread - nread, waiting);
        var r := ser.Read(n);
        if r.None? {
          break;
        }
        if r.value != [] {
          assert (a + [r.value])[..|a|] == a;
          a := a + [r.value];
          nread := nread + |r.value|;
        } else {
          assert Concat(a) + r.value == Concat(a);
        }
      }
      if nn == 0 {
        break;
      }
    }
    d := Concat(a);
  }

  /** How `check_ack` reads the reply it got. */
  function Classify(reply: seq<byte>): AckResult
  {
    if reply == [NACK] then Refused(Nack)
    else if reply != [ACK] then Refused(NotAck)
    else Ack
  }

  /** The effect of `check_ack` on the port: one byte is read and classified,
      and the buffers are flushed unless the reply was ACK or NACK. */
  function AwaitAck(w: Wire): (AckResult, Wire)
  {
    var (got, rest) := Drain(w.rx, 1);
    var v := Classify(got);
    (v, w.(rx := rest, flushes := if v == Refused(NotAck) then w.flushes + 1 else w.flushes))
  }

  /** `check_ack`: true (here `Ack`) exactly when the reply byte is 0x79. */
  method CheckAck(ser: Port) returns (v: AckResult)
    modifies ser
    ensures (v, ser.Value()) == AwaitAck(old(ser.Value()))
  {
    var ack := ReadN(ser, 1);
    if ack == [NACK] {
      v := Refused(Nack);
    } else if ack != [ACK] {
      ser.ReturnFlush();
      v := Refused(NotAck);
    } else {
      v := Ack;
    }
  }

  /** What a handshake means in terms of the device's byte stream: ACK and
      NACK are recognised only as the next byte received; any other byte, or
      none before the line goes idle, is 'Not ACK' and costs a flush; nothing
      is sent, and at most the one classified byte is consumed. */
  lemma AwaitAckMeaning(w: Wire)
    ensures AwaitAck(w).0 == Ack <==> Available(w.rx) > 0 && Stream(w.rx)[0] == ACK
    ensures AwaitAck(w).0 == Refused(Nack) <==> Available(w.rx) > 0 && Stream(w.rx)[0] == NACK
    ensures AwaitAck(w).1.flushes == w.flushes + (if AwaitAck(w).0 == Refused(NotAck) then 1 else 0)
    ensures AwaitAck(w).1.tx == w.tx && AwaitAck(w).1.lines == w.lines
    ensures Stream(AwaitAck(w).1.rx) == Stream(w.rx)[Min(1, Available(w.rx))..]
  {
    DrainLength(w.rx, 1);
    DrainConserves(w.rx, 1);
    var got := Drain(w.rx, 1).0;
    if Available(w.rx) > 0 {
      assert got == [Stream(w.rx)[0]];
    } else {
      assert got == [];
    }
  }

  /** `sendcksum(ser, payload, seed)`: writes the payload and its checksum. */
  method SendCksum(ser: Port, payload: seq<byte>, seed: byte)
    requires |payload| > 0
    modifies ser
    ensures ser.Value() == old(ser.Value()).(tx := old(ser.tx) + Frame(payload, seed))
  {
    ser.Write(Frame(payload, seed));
  }
}
