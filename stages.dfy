/** The shape every bootloader command shares: a run of steps, each sending
    a checksummed frame (or nothing) and waiting for ACK, that gives up at
    the first step the device does not acknowledge or whose frame cannot be
    built. */
module Stages {

  import opened Frames
  import opened Transport
  import opened Handshake

  /** The Python exceptions a command can raise on a bad argument or a short
      reply: `ord('')` or iterating an int (TypeError), `struct.pack` out of
      range (struct.error), `chr` out of range (ValueError). */
  datatype PyError = TypeError | StructError | ValueError

  /** What one step sends before it waits for ACK: a checksummed frame,
      nothing, or nothing because building the frame raised. */
  datatype Payload = Send(frame: seq<byte>) | AckOnly | Broken(err: PyError)

  /** One step of a command, with the number it reports when refused. */
  datatype Stage = Stage(payload: Payload, step: nat)

  /** How a run of stages ends. */
  datatype Outcome = Through | Stopped(reason: Refusal, step: nat) | Threw(err: PyError)

  predicate Sound(stages: seq<Stage>)
  {
    forall i | 0 <= i < |stages| :: !stages[i].payload.Broken?
  }

  /** The bytes a stage puts on the line. */
  function Sent(p: Payload): seq<byte>
  {
    if p.Send? then p.frame else []
  }

  /** The bytes a run of stages puts on the line if it goes through. */
  function AllSent(stages: seq<Stage>): seq<byte>
  {
    if stages == [] then [] else Sent(stages[0].payload) + AllSent(stages[1..])
  }

  /** The stages of a command, one after the other: each sends its frame and
      waits for ACK; a refusal ends the command with that stage's number. */
  function Run(w: Wire, stages: seq<Stage>): (Outcome, Wire)
    decreases |stages|
  {
    if stages == [] then (Through, w)
    else if stages[0].payload.Broken? then (Threw(stages[0].payload.err), w)
    else
      var (v, w') := AwaitAck(w.(tx := w.tx + Sent(stages[0].payload)));
      if v.Refused? then (Stopped(v.reason, stages[0].step), w')
      else Run(w', stages[1..])
  }

  /** The next `n` bytes the device sends are all ACK. */
  predicate Acks(rx: seq<Burst>, n: nat)
  {
    n <= Available(rx) && forall i | 0 <= i < n :: Stream(rx)[i] == ACK
  }

  /** A handshake that gets its ACK consumes that one byte and nothing else. */
  lemma AckConsumes(w: Wire)
    requires AwaitAck(w).0 == Ack
    ensures AwaitAck(w).1.tx == w.tx && AwaitAck(w).1.flushes == w.flushes && AwaitAck(w).1.lines == w.lines
    ensures Available(w.rx) > 0 && Stream(AwaitAck(w).1.rx) == Stream(w.rx)[1..]
    ensures Available(AwaitAck(w).1.rx) == Available(w.rx) - 1
  {
    AwaitAckMeaning(w);
    DrainLength(w.rx, 1);
    DrainAvailable(w.rx, 1);
  }

  lemma AcksCons(rx: seq<Burst>, rx': seq<Burst>, n: nat)
    requires Available(rx) > 0 && Available(rx') == Available(rx) - 1
    requires Stream(rx') == Stream(rx)[1..]
    ensures Acks(rx, n + 1) <==> Stream(rx)[0] == ACK && Acks(rx', n)
  {
    if Stream(rx)[0] == ACK && Acks(rx', n) {
      forall i | 0 <= i < n + 1
        ensures Stream(rx)[i] == ACK
      {
        if i > 0 {
          assert Stream(rx)[i] == Stream(rx')[i - 1];
        }
      }
    }
  }

  /** A command goes through exactly when no step raises and the next bytes
      the device sends, one per stage, are all ACK. */
  lemma {:induction false} RunThrough(w: Wire, stages: seq<Stage>)
    ensures Run(w, stages).0 == Through <==> Sound(stages) && Acks(w.rx, |stages|)
    decreases |stages|
  {
    if stages != [] && !stages[0].payload.Broken? {
      var w1 := w.(tx := w.tx + Sent(stages[0].payload));
      var (v, w2) := AwaitAck(w1);
      RunThrough(w2, stages[1..]);
      AwaitAckMeaning(w1);
      assert Sound(stages) <==> Sound(stages[1..]);
      if v == Ack {
        AckConsumes(w1);
        AcksCons(w.rx, w2.rx, |stages| - 1);
      }
    }
  }

  /** A command that goes through has sent all of its stages' frames, and
      changed nothing else but the reply queue. */
  lemma {:induction false} RunThroughWrites(w: Wire, stages: seq<Stage>)
    requires Run(w, stages).0 == Through
    ensures Run(w, stages).1.tx == w.tx + AllSent(stages)
    ensures Run(w, stages).1.flushes == w.flushes && Run(w, stages).1.lines == w.lines
    decreases |stages|
  {
    if stages != [] {
      var w1 := w.(tx := w.tx + Sent(stages[0].payload));
      var w2 := AwaitAck(w1).1;
      var rest := stages[1..];
      AckConsumes(w1);
      assert Run(w, stages) == Run(w2, rest);
      RunThroughWrites(w2, rest);
      AppendAssoc(w.tx, Sent(stages[0].payload), AllSent(rest));
    }
  }

  /** A command that goes through consumes exactly one byte per stage. */
  lemma {:induction false} RunThroughConsumes(w: Wire, stages: seq<Stage>)
    requires Run(w, stages).0 == Through
    ensures |stages| <= Available(w.rx)
    ensures Stream(Run(w, stages).1.rx) == Stream(w.rx)[|stages|..]
    ensures Available(Run(w, stages).1.rx) == Available(w.rx) - |stages|
    decreases |stages|
  {
    if stages != [] {
      var w1 := w.(tx := w.tx + Sent(stages[0].payload));
      var w2 := AwaitAck(w1).1;
      var rest := stages[1..];
      AckConsumes(w1);
      RunThroughConsumes(w2, rest);
      assert Stream(w.rx)[1..][|rest|..] == Stream(w.rx)[|stages|..];
    }
  }

  /** Running two lists of stages one after the other is running their
      concatenation: the second runs only if the first goes through. */
  lemma {:induction false} RunAppend(w: Wire, a: seq<Stage>, b: seq<Stage>)
    ensures Run(w, a + b) == if Run(w, a).0 == Through then Run(Run(w, a).1, b) else Run(w, a)
    decreases |a|
  {
    if a == [] {
      assert a + b == b;
    } else if !a[0].payload.Broken? {
      var r := AwaitAck(w.(tx := w.tx + Sent(a[0].payload)));
      assert (a + b)[0] == a[0];
      assert (a + b)[1..] == a[1..] + b;
      RunAppend(r.1, a[1..], b);
    }
  }

  /** How many stages the device acknowledged before the run ended. */
  function Acked(w: Wire, stages: seq<Stage>): nat
    decreases |stages|
  {
    if stages == [] || stages[0].payload.Broken? then 0
    else
      var r := AwaitAck(w.(tx := w.tx + Sent(stages[0].payload)));
      if r.0.Refused? then 0 else 1 + Acked(r.1, stages[1..])
  }

  /** The first `m + 1` stages are the first stage followed by the first `m`
      of the rest. */
  lemma PrefixCons(stages: seq<Stage>, m: nat)
    requires m < |stages|
    ensures AllSent(stages[..m + 1]) == Sent(stages[0].payload) + AllSent(stages[1..][..m])
    ensures Sound(stages[..m + 1]) <==> !stages[0].payload.Broken? && Sound(stages[1..][..m])
  {
    assert stages[..m + 1] == [stages[0]] + stages[1..][..m];
  }

  /** A refused command has written the frames of the stages up to and
      including the refused one, and reports that stage's number; it never
      touches the control lines. */
  lemma {:induction false} RunRefused(w: Wire, stages: seq<Stage>)
    ensures Run(w, stages).1.lines == w.lines
    ensures Run(w, stages).0.Stopped? ==>
      var k := Acked(w, stages);
      k < |stages| && stages[k].step == Run(w, stages).0.step && Sound(stages[..k + 1]) &&
      Run(w, stages).1.tx == w.tx + AllSent(stages[..k + 1])
    decreases |stages|
  {
    if stages != [] && !stages[0].payload.Broken? {
      var p := stages[0].payload;
      var r := AwaitAck(w.(tx := w.tx + Sent(p)));
      PrefixCons(stages, 0);
      if r.0 == Ack {
        var rest := stages[1..];
        assert Run(w, stages) == Run(r.1, rest);
        RunRefused(r.1, rest);
        if Run(r.1, rest).0.Stopped? {
          var m := Acked(r.1, rest) + 1;
          PrefixCons(stages, m);
          AppendAssoc(w.tx, Sent(p), AllSent(rest[..m]));
        }
      }
    }
  }

  /** A command whose argument makes a step raise has written the frames of
      the stages before that step, each of them acknowledged. */
  lemma {:induction false} RunRaised(w: Wire, stages: seq<Stage>)
    requires Run(w, stages).0.Threw?
    ensures var k := Acked(w, stages);
      k < |stages| && stages[k].payload == Broken(Run(w, stages).0.err) && Sound(stages[..k]) &&
      Run(w, stages).1.tx == w.tx + AllSent(stages[..k])
    decreases |stages|
  {
    var p := stages[0].payload;
    if p.Broken? {
      assert AllSent(stages[..0]) == [];
    } else {
      var r := AwaitAck(w.(tx := w.tx + Sent(p)));
      var rest := stages[1..];
      assert Run(w, stages) == Run(r.1, rest);
      RunRaised(r.1, rest);
      var m := Acked(r.1, rest);
      assert stages[..m + 1] == [stages[0]] + rest[..m];
      assert AllSent(stages[..m + 1]) == Sent(p) + AllSent(rest[..m]);
      AppendAssoc(w.tx, Sent(p), AllSent(rest[..m]));
    }
  }

  /** A run that does not go through went through its first `Acked`
      stages and ended at the next one, which raised or was refused. */
  lemma {:induction false} AckedPrefix(w: Wire, stages: seq<Stage>)
    requires Run(w, stages).0 != Through
    ensures var k := Acked(w, stages);
      k < |stages| && Run(w, stages[..k]).0 == Through &&
      var w' := Run(w, stages[..k]).1;
      (stages[k].payload.Broken? || AwaitAck(w'.(tx := w'.tx + Sent(stages[k].payload))).0.Refused?)
    decreases |stages|
  {
    var p := stages[0].payload;
    if !p.Broken? {
      var r := AwaitAck(w.(tx := w.tx + Sent(p)));
      if r.0 == Ack {
        var rest := stages[1..];
        AckedPrefix(r.1, rest);
        var m := Acked(r.1, rest);
        assert stages[..m + 1] == [stages[0]] + rest[..m];
        assert ([stages[0]] + rest[..m])[1..] == rest[..m];
      }
    }
  }

  /** A run refused at its first stage: what the next byte was, and the
      flush a byte other than NACK costs. */
  lemma RefusedFirst(v: Wire, ss: seq<Stage>)
    requires Run(v, ss).0.Stopped?
    requires ss[0].payload.Broken? || AwaitAck(v.(tx := v.tx + Sent(ss[0].payload))).0.Refused?
    ensures var (S, A) := (Stream(v.rx), Available(v.rx));
      !(A > 0 && S[0] == ACK) &&
      (Run(v, ss).0.reason == Nack <==> A > 0 && S[0] == NACK) &&
      Run(v, ss).1.flushes == v.flushes + (if Run(v, ss).0.reason == NotAck then 1 else 0)
  {
    AwaitAckMeaning(v.(tx := v.tx + Sent(ss[0].payload)));
  }

  /** Why a run stops: the device acknowledged the stages before the
      refused one, and the refused one got NACK exactly when the next byte
      is NACK, and otherwise a non-ACK byte or none, which costs a flush. */
  lemma RunStops(w: Wire, stages: seq<Stage>)
    requires Run(w, stages).0.Stopped?
    ensures var (k, S, A) := (Acked(w, stages), Stream(w.rx), Available(w.rx));
      Acks(w.rx, k) && !(A > k && S[k] == ACK) &&
      (Run(w, stages).0.reason == Nack <==> A > k && S[k] == NACK) &&
      Run(w, stages).1.flushes == w.flushes + (if Run(w, stages).0.reason == NotAck then 1 else 0)
  {
    var k := Acked(w, stages);
    AckedPrefix(w, stages);
    var pre := stages[..k];
    var w' := Run(w, pre).1;
    RunThrough(w, pre);
    RunThroughConsumes(w, pre);
    RunThroughWrites(w, pre);
    assert pre + stages[k..] == stages;
    RunAppend(w, pre, stages[k..]);
    assert stages[k..][0] == stages[k];
    RefusedFirst(w', stages[k..]);
    if Available(w.rx) > k {
      assert Stream(w'.rx)[0] == Stream(w.rx)[k];
    }
  }
}
