/** What `doit` does around the commands: the reset pulse on the modem
    lines, the loop that writes a memory image to flash chunk by chunk with a
    read-back check after each chunk, and the loop that dumps flash page by
    page into an image. */
module Session {

  import opened Frames
  import opened Transport
  import opened Handshake
  import opened Stages
  import opened Commands
  import opened Images

  // ---------------------------------------------------------------------
  // Reset

  /** The line changes and pauses `reset(ser, bootloader)` makes before it
      flushes the input, one event after the other. */
  function Pulse(bootloader: bool): seq<LineEvent>
  {
    if bootloader then
      [SetBreak(true), Sleep(200), SetRts(true), SetDtr(true), Sleep(50),
       SetBreak(false), Sleep(50), SetRts(false), Sleep(50), SetDtr(false)]
    else
      [SetRts(false), SetDtr(false), SetBreak(false), SetRts(true), Sleep(50),
       SetRts(false), Sleep(50), SetBreak(true), Sleep(200), SetBreak(false)]
  }

  /** Everything `reset(ser, bootloader)` does to the port. */
  function ResetEvents(bootloader: bool): seq<LineEvent>
  {
    Pulse(bootloader) + [FlushInput]
  }

  /** The pulse of `reset(ser, 1)`: BOOT0 (DTR) high while the target
      leaves reset, so that it starts its bootloader. */
  method BootloaderPulse(ser: Port)
    modifies ser
    ensures ser.lines == old(ser.lines) + Pulse(true)
    ensures ser.rx == old(ser.rx) && ser.tx == old(ser.tx) && ser.flushes == old(ser.flushes)
  {
    ser.Line(SetBreak(true));
    ser.Line(Sleep(200));
    ser.Line(SetRts(true));
    ser.Line(SetDtr(true));
    ser.Line(Sleep(50));
    ser.Line(SetBreak(false));
    ser.Line(Sleep(50));
    ser.Line(SetRts(false));
    ser.Line(Sleep(50));
    ser.Line(SetDtr(false));
  }

  /** The pulse of `reset(ser, 0)`: BOOT0 low while the target leaves
      reset, so that it starts the application. */
  method ApplicationPulse(ser: Port)
    modifies ser
    ensures ser.lines == old(ser.lines) + Pulse(false)
    ensures ser.rx == old(ser.rx) && ser.tx == old(ser.tx) && ser.flushes == old(ser.flushes)
  {
    ser.Line(SetRts(false));
    ser.Line(SetDtr(false));
    ser.Line(SetBreak(false));
    ser.Line(SetRts(true));
    ser.Line(Sleep(50));
    ser.Line(SetRts(false));
    ser.Line(Sleep(50));
    ser.Line(SetBreak(true));
    ser.Line(Sleep(200));
    ser.Line(SetBreak(false));
  }

  /** `reset(ser, bootloader)`. */
  method Reset(ser: Port, bootloader: bool)
    modifies ser
    ensures ser.lines == old(ser.lines) + ResetEvents(bootloader)
    ensures ser.rx == old(ser.rx) && ser.tx == old(ser.tx) && ser.flushes == old(ser.flushes)
  {
    if bootloader {
      BootloaderPulse(ser);
    } else {
      ApplicationPulse(ser);
    }
    ser.Line(FlushInput);
  }

  /** The levels of the BREAK, RTS and DTR outputs. */
  datatype Levels = Levels(brk: bool, rts: bool, dtr: bool)

  /** The levels after one event. */
  function Apply(l: Levels, e: LineEvent): Levels
  {
    match e
    case SetBreak(on) => l.(brk := on)
    case SetRts(on) => l.(rts := on)
    case SetDtr(on) => l.(dtr := on)
    case Sleep(_) => l
    case FlushInput => l
  }

  /** The levels after a run of events. */
  function Replay(l: Levels, es: seq<LineEvent>): Levels
  {
    if es == [] then l else Apply(Replay(l, es[..|es| - 1]), es[|es| - 1])
  }

  /** Replaying one more event. */
  lemma ReplaySnoc(l: Levels, es: seq<LineEvent>, e: LineEvent)
    ensures Replay(l, es + [e]) == Apply(Replay(l, es), e)
  {
    assert (es + [e])[..|es|] == es;
  }

  /** Whatever the lines were before, a reset leaves all three released. */
  lemma ResetReleases(l: Levels, bootloader: bool)
    ensures Replay(l, ResetEvents(bootloader)) == Levels(false, false, false)
  {
    if bootloader {
      BootloaderReleases(l);
    } else {
      ApplicationReleases(l);
    }
  }

  /** `reset(ser, 1)` leaves all three lines released. */
  lemma BootloaderReleases(l: Levels)
    ensures Replay(l, ResetEvents(true)) == Levels(false, false, false)
  {
    var P := [SetBreak(true)];
    assert Replay(l, P).brk by { ReplaySnoc(l, [], SetBreak(true)); }
    ReplaySnoc(l, P, Sleep(200));
    P := P + [Sleep(200)];
    ReplaySnoc(l, P, SetRts(true));
    P := P + [SetRts(true)];
    ReplaySnoc(l, P, SetDtr(true));
    P := P + [SetDtr(true)];
    assert Replay(l, P) == Levels(true, true, true);
    ReplaySnoc(l, P, Sleep(50));
    P := P + [Sleep(50)];
    ReplaySnoc(l, P, SetBreak(false));
    P := P + [SetBreak(false)];
    ReplaySnoc(l, P, Sleep(50));
    P := P + [Sleep(50)];
    ReplaySnoc(l, P, SetRts(false));
    P := P + [SetRts(false)];
    ReplaySnoc(l, P, Sleep(50));
    P := P + [Sleep(50)];
    ReplaySnoc(l, P, SetDtr(false));
    P := P + [SetDtr(false)];
    assert Replay(l, P) == Levels(false, false, false);
    ReplaySnoc(l, P, FlushInput);
    P := P + [FlushInput];
    assert P == ResetEvents(true);
  }

  /** `reset(ser, 0)` leaves all three lines released. */
  lemma ApplicationReleases(l: Levels)
    ensures Replay(l, ResetEvents(false)) == Levels(false, false, false)
  {
    var P := [SetRts(false)];
    ReplaySnoc(l, [], SetRts(false));
    ReplaySnoc(l, P, SetDtr(false));
    P := P + [SetDtr(false)];
    ReplaySnoc(l, P, SetBreak(false));
    P := P + [SetBreak(false)];
    assert Replay(l, P) == Levels(false, false, false);
    ReplaySnoc(l, P, SetRts(true));
    P := P + [SetRts(true)];
    ReplaySnoc(l, P, Sleep(50));
    P := P + [Sleep(50)];
    ReplaySnoc(l, P, SetRts(false));
    P := P + [SetRts(false)];
    ReplaySnoc(l, P, Sleep(50));
    P := P + [Sleep(50)];
    ReplaySnoc(l, P, SetBreak(true));
    P := P + [SetBreak(true)];
    ReplaySnoc(l, P, Sleep(200));
    P := P + [Sleep(200)];
    ReplaySnoc(l, P, SetBreak(false));
    P := P + [SetBreak(false)];
    assert Replay(l, P) == Levels(false, false, false);
    ReplaySnoc(l, P, FlushInput);
    P := P + [FlushInput];
    assert P == ResetEvents(false);
  }

  /** The events of a reset before it releases RTS. */
  function PulseHead(bootloader: bool): seq<LineEvent>
  {
    if bootloader then
      [SetBreak(true), Sleep(200), SetRts(true), SetDtr(true), Sleep(50), SetBreak(false), Sleep(50)]
    else
      [SetRts(false), SetDtr(false), SetBreak(false), SetRts(true), Sleep(50)]
  }

  /** The events of a reset after it releases RTS. */
  function PulseTail(bootloader: bool): seq<LineEvent>
  {
    if bootloader then
      [Sleep(50), SetDtr(false), FlushInput]
    else
      [Sleep(50), SetBreak(true), Sleep(200), SetBreak(false), FlushInput]
  }

  /** A reset is its head, then the RTS release that ends its pulse, then a
      tail that never asserts RTS again. The bootloader reset releases RTS
      only there; the application reset also releases it first thing. */
  lemma ResetSplits(bootloader: bool)
    ensures ResetEvents(bootloader) == PulseHead(bootloader) + [SetRts(false)] + PulseTail(bootloader)
    ensures SetRts(true) !in PulseTail(bootloader)
    ensures bootloader ==> SetRts(false) !in PulseHead(bootloader) && SetRts(false) !in PulseTail(bootloader)
  {
  }

  /** When a reset releases RTS (the target's reset input), RTS has been
      asserted and DTR (its BOOT0 input) is asserted exactly when the
      bootloader is wanted. */
  lemma ResetPulse(l: Levels, bootloader: bool)
    ensures Replay(l, PulseHead(bootloader)).rts
    ensures Replay(l, PulseHead(bootloader)).dtr == bootloader
  {
    if bootloader {
      BootloaderHead(l);
    } else {
      ApplicationHead(l);
    }
  }

  /** The levels when `reset(ser, 1)` releases RTS, whatever they were before. */
  lemma BootloaderHead(l: Levels)
    ensures Replay(l, PulseHead(true)) == Levels(false, true, true)
  {
    var P := [SetBreak(true)] + [Sleep(200)];
    ReplaySnoc(l, P, SetRts(true));
    P := P + [SetRts(true)];
    ReplaySnoc(l, P, SetDtr(true));
    P := P + [SetDtr(true)];
    ReplaySnoc(l, P, Sleep(50));
    P := P + [Sleep(50)];
    ReplaySnoc(l, P, SetBreak(false));
    P := P + [SetBreak(false)];
    ReplaySnoc(l, P, Sleep(50));
    assert P + [Sleep(50)] == PulseHead(true);
  }

  /** The levels when `reset(ser, 0)` releases RTS, whatever they were before. */
  lemma ApplicationHead(l: Levels)
    ensures Replay(l, PulseHead(false)) == Levels(false, true, false)
  {
    var P := [SetRts(false)];
    ReplaySnoc(l, P, SetDtr(false));
    P := P + [SetDtr(false)];
    ReplaySnoc(l, P, SetBreak(false));
    P := P + [SetBreak(false)];
    ReplaySnoc(l, P, SetRts(true));
    P := P + [SetRts(true)];
    ReplaySnoc(l, P, Sleep(50));
    assert P + [Sleep(50)] == PulseHead(false);
  }

  // ---------------------------------------------------------------------
  // Writing an image

  /** How the write operation of `doit` ends. `Crashed` is an exception
      propagating out of a command. */
  datatype Flashing =
    | Flashed
    | EraseFailed(reply: Reply)
    | WriteFailed(at: int, reply: Reply)
    | ReadBackFailed(at: int, reply: Reply)
    | VerifyFailed(at: int)
    | Crashed(error: PyError)

  /** `r[0]` of a command's result. */
  predicate Ok(r: Reply)
  {
    r.Done? || r.Data? || r.Written?
  }

  /** One pass of the write loop on the chunk `c` (its address and bytes):
      write it, read it back and compare. `None` means the loop goes on. */
  function ChunkStep(w: Wire, c: (int, seq<byte>)): (Option<Flashing>, Wire)
  {
    var wr := WriteMem(w, c.0, c.1);
    if wr.0.Raised? then (Some(Crashed(wr.0.error)), wr.1)
    else if !Ok(wr.0) then (Some(WriteFailed(c.0, wr.0)), wr.1)
    else
      var rd := ReadMem(wr.1, c.0, |c.1|);
      if rd.0.Raised? then (Some(Crashed(rd.0.error)), rd.1)
      else if !Ok(rd.0) then (Some(ReadBackFailed(c.0, rd.0)), rd.1)
      else if rd.0 != Data(c.1) then (Some(VerifyFailed(c.0)), rd.1)
      else (None, rd.1)
  }

  /** A pass goes on exactly when the device acknowledged the whole write
      and read back the very bytes written. */
  lemma ChunkStepPasses(w: Wire, c: (int, seq<byte>))
    ensures ChunkStep(w, c).0 == None <==>
      WriteMem(w, c.0, c.1).0 == Written(|c.1|) &&
      ReadMem(WriteMem(w, c.0, c.1).1, c.0, |c.1|).0 == Data(c.1)
    ensures ChunkStep(w, c).0 != Some(Flashed)
  {
    var wr := WriteMem(w, c.0, c.1);
    assert wr.0.Written? ==> wr.0 == Written(|c.1|) by {
      var o := Run(w, WriteMemStages(c.0, c.1)).0;
      assert wr.0 == Verdict(o, Written(|c.1|));
    }
    assert !wr.0.Done? && !wr.0.Data? by {
      var o := Run(w, WriteMemStages(c.0, c.1)).0;
      assert wr.0 == Verdict(o, Written(|c.1|));
    }
  }

  /** The passes over the chunks `s`, in order, up to the first that fails. */
  function WriteChunks(w: Wire, s: seq<(int, seq<byte>)>): (Flashing, Wire)
    decreases |s|
  {
    if s == [] then (Flashed, w)
    else
      var st := ChunkStep(w, s[0]);
      if st.0.Some? then (st.0.value, st.1) else WriteChunks(st.1, s[1..])
  }

  /** How many of the chunks `s` pass before one fails. */
  function Progress(w: Wire, s: seq<(int, seq<byte>)>): (p: nat)
    ensures p <= |s|
    decreases |s|
  {
    if s == [] then 0
    else
      var st := ChunkStep(w, s[0]);
      if st.0.Some? then 0 else 1 + Progress(st.1, s[1..])
  }

  /** The address a failure names, if it names one. */
  function FailedAt(f: Flashing): Option<int>
  {
    match f
    case WriteFailed(at, _) => Some(at)
    case ReadBackFailed(at, _) => Some(at)
    case VerifyFailed(at) => Some(at)
    case _ => None
  }

  /** The loop stops at the first chunk that fails: it ends `Flashed` exactly
      when every chunk passed, and otherwise the failure it reports names the
      address of the chunk after the ones that passed. */
  lemma {:induction false} WriteChunksStops(w: Wire, s: seq<(int, seq<byte>)>)
    ensures WriteChunks(w, s).0 == Flashed <==> Progress(w, s) == |s|
    ensures WriteChunks(w, s).0 != Flashed && FailedAt(WriteChunks(w, s).0).Some? ==>
      FailedAt(WriteChunks(w, s).0) == Some(s[Progress(w, s)].0)
    decreases |s|
  {
    if s != [] {
      var st := ChunkStep(w, s[0]);
      ChunkStepPasses(w, s[0]);
      if st.0.None? {
        WriteChunksStops(st.1, s[1..]);
        StopsStep(WriteChunks(w, s).0, WriteChunks(st.1, s[1..]).0, Progress(w, s),
                  Progress(st.1, s[1..]), s);
      } else {
        ChunkStepFailure(w, s[0]);
      }
    }
  }

  /** A failing pass names its own chunk's address, unless it crashed. */
  lemma ChunkStepFailure(w: Wire, c: (int, seq<byte>))
    requires ChunkStep(w, c).0.Some?
    ensures FailedAt(ChunkStep(w, c).0.value).Some? ==> FailedAt(ChunkStep(w, c).0.value) == Some(c.0)
  {
    var wr := WriteMem(w, c.0, c.1);
    if wr.0.Raised? {
      assert ChunkStep(w, c).0.value == Crashed(wr.0.error);
    } else if !Ok(wr.0) {
      assert ChunkStep(w, c).0.value == WriteFailed(c.0, wr.0);
    } else {
      var rd := ReadMem(wr.1, c.0, |c.1|);
      if rd.0.Raised? {
        assert ChunkStep(w, c).0.value == Crashed(rd.0.error);
      } else if !Ok(rd.0) {
        assert ChunkStep(w, c).0.value == ReadBackFailed(c.0, rd.0);
      } else {
        assert ChunkStep(w, c).0.value == VerifyFailed(c.0);
      }
    }
  }

  /** The inductive step of `WriteChunksStops`, over plain values. */
  lemma StopsStep(f: Flashing, f': Flashing, p: nat, p': nat, s: seq<(int, seq<byte>)>)
    requires s != [] && f == f' && p == 1 + p' && p' <= |s| - 1
    requires f' == Flashed <==> p' == |s| - 1
    requires f' != Flashed && FailedAt(f').Some? ==> FailedAt(f') == Some(s[1..][p'].0)
    ensures p <= |s|
    ensures f == Flashed <==> p == |s|
    ensures f != Flashed && FailedAt(f).Some? ==> FailedAt(f) == Some(s[p].0)
  {
  }

  /** The passes over `[c] + s`: the pass over `c`, then, if it went
      through, those over `s`. */
  lemma WriteChunksCons(w: Wire, c: (int, seq<byte>), s: seq<(int, seq<byte>)>)
    ensures ChunkStep(w, c).0.Some? ==> WriteChunks(w, [c] + s) == (ChunkStep(w, c).0.value, ChunkStep(w, c).1)
    ensures ChunkStep(w, c).0.None? ==> WriteChunks(w, [c] + s) == WriteChunks(ChunkStep(w, c).1, s)
  {
    assert ([c] + s)[0] == c && ([c] + s)[1..] == s;
  }

  /** The argument of the `EXTENDED_ERASE` that starts a write: the
      special code 0xFFFF, which erases the whole flash. */
  function MassErase(): Pages
  {
    Code(0xffff)
  }

  /** The mass erase (`EXTENDED_ERASE` of 0xFFFF) that starts a write;
      `Some` ends the write there. */
  function EraseStep(w: Wire): (Option<Flashing>, Wire)
  {
    var e := ExtendedErase(w, MassErase());
    if e.0.Raised? then (Some(Crashed(e.0.error)), e.1)
    else if !Ok(e.0) then (Some(EraseFailed(e.0)), e.1)
    else (None, e.1)
  }

  /** A write operation over the chunks `s`: the mass erase, then the
      passes over the chunks. */
  function Flash(w: Wire, s: seq<(int, seq<byte>)>): (Flashing, Wire)
  {
    var e := EraseStep(w);
    if e.0.Some? then (e.0.value, e.1) else WriteChunks(e.1, s)
  }

  /** The write operation of `doit` as it stands: its loop runs only while
      `minaddr() < maxaddr()`. */
  ghost function WriteFlashAsWritten(w: Wire, img: Image): (Flashing, Wire)
  {
    Flash(w, ScheduleAsWritten(img))
  }

  /** The write operation with its loop corrected to run until nothing is
      pending. */
  ghost function WriteFlash(w: Wire, img: Image): (Flashing, Wire)
  {
    Flash(w, Schedule(img))
  }

  /** The chunks of `s` that were written and read back intact. */
  function Verified(w: Wire, s: seq<(int, seq<byte>)>): seq<(int, seq<byte>)>
  {
    var e := EraseStep(w);
    if e.0.Some? then [] else s[..Progress(e.1, s)]
  }

  /** A write verifies a prefix of its chunks, and all of them when it ends
      `Flashed`. */
  lemma FlashVerified(w: Wire, s: seq<(int, seq<byte>)>)
    ensures Verified(w, s) <= s
    ensures Flash(w, s).0 == Flashed ==> Verified(w, s) == s
  {
    var e := EraseStep(w);
    if e.0.None? {
      WriteChunksStops(e.1, s);
    }
  }

  /** With the corrected loop, a write that ends `Flashed` has written and
      read back every byte of the image at its own address, and only 0xFF in
      the gaps between them; one that fails has verified a prefix of the
      chunks. */
  lemma FlashedImage(w: Wire, img: Image, a: int)
    ensures Verified(w, Schedule(img)) <= Schedule(img)
    ensures WriteFlash(w, img).0 == Flashed ==> Verified(w, Schedule(img)) == Schedule(img)
    ensures WriteFlash(w, img).0 == Flashed && a in img ==> WrittenAt(Verified(w, Schedule(img)), a) == Some(img[a])
    ensures WriteFlash(w, img).0 == Flashed && a !in img && WrittenAt(Verified(w, Schedule(img)), a).Some? ==>
      WrittenAt(Verified(w, Schedule(img)), a).value == 0xff
  {
    FlashVerified(w, Schedule(img));
    ScheduleWrites(img, a);
  }

  /** With the loop as it stands, a write that ends `Flashed` has written
      and read back every byte of the image at its own address except the
      byte of a lone last chunk, and only 0xFF in the gaps. */
  lemma FlashedAsWritten(w: Wire, img: Image, a: int)
    ensures Verified(w, ScheduleAsWritten(img)) <= ScheduleAsWritten(img)
    ensures WriteFlashAsWritten(w, img).0 == Flashed ==> Verified(w, ScheduleAsWritten(img)) == ScheduleAsWritten(img)
    ensures WriteFlashAsWritten(w, img).0 == Flashed && a in img ==>
      WrittenAt(Verified(w, ScheduleAsWritten(img)), a) == Some(img[a]) ||
      (LoneLastDropped(Schedule(img), ScheduleAsWritten(img)) && a == Schedule(img)[|Schedule(img)| - 1].0)
    ensures WriteFlashAsWritten(w, img).0 == Flashed && a !in img && WrittenAt(Verified(w, ScheduleAsWritten(img)), a).Some? ==>
      WrittenAt(Verified(w, ScheduleAsWritten(img)), a).value == 0xff
  {
    FlashVerified(w, ScheduleAsWritten(img));
    AsWrittenWrites(img, a);
  }

  /** The body of the write loop for one chunk: `cmd_write_mem`, then
      `cmd_read_mem` of the same length, then the comparison. */
  method WriteChunk(ser: Port, c: (int, seq<byte>)) returns (stop: Option<Flashing>)
    modifies ser
    ensures (stop, ser.Value()) == ChunkStep(old(ser.Value()), c)
  {
    var r := CmdWriteMem(ser, c.0, c.1);
    if r.Raised? {
      return Some(Crashed(r.error));
    }
    if !Ok(r) {
      return Some(WriteFailed(c.0, r));
    }
    var back := CmdReadMem(ser, c.0, |c.1|);
    if back.Raised? {
      return Some(Crashed(back.error));
    }
    if !Ok(back) {
      return Some(ReadBackFailed(c.0, back));
    }
    if back != Data(c.1) {
      return Some(VerifyFailed(c.0));
    }
    stop := None;
  }

  /** `cmd_extended_erase(ser, 0xffff)` and its check. */
  method EraseForWrite(ser: Port) returns (stop: Option<Flashing>)
    modifies ser
    ensures (stop, ser.Value()) == EraseStep(old(ser.Value()))
  {
    var r := CmdExtendedErase(ser, MassErase());
    if r.Raised? {
      return Some(Crashed(r.error));
    }
    if !Ok(r) {
      return Some(EraseFailed(r));
    }
    stop := None;
  }

  /** The write operation of `doit` as it stands: erase, then, while
      `minaddr() < maxaddr()`, take the lowest pending address, write the
      (up to) 256 bytes from there and delete them from the pending image. */
  method WriteImageAsWritten(ser: Port, img: Image) returns (f: Flashing)
    modifies ser
    ensures (f, ser.Value()) == WriteFlashAsWritten(old(ser.Value()), img)
  {
    var stop := EraseForWrite(ser);
    if stop.Some? {
      return stop.value;
    }
    ghost var w1 := ser.Value();
    var pending := img;
    var more := MorePending(pending);
    while more
      invariant more <==> pending != map[] && MinKey(pending.Keys) < MaxKey(pending.Keys)
      invariant WriteChunks(ser.Value(), ScheduleAsWritten(pending)) == WriteChunks(w1, ScheduleAsWritten(img))
      decreases |pending.Keys|
    {
      ghost var before := pending;
      var lo, data;
      lo, data, pending := NextChunk(pending);
      AsWrittenCons(before);
      RestShrinks(before);
      WriteChunksCons(ser.Value(), (lo, data), ScheduleAsWritten(pending));
      stop := WriteChunk(ser, (lo, data));
      if stop.Some? {
        return stop.value;
      }
      more := MorePending(pending);
    }
    f := Flashed;
  }

  /** The write operation with the loop corrected: erase, then go on until
      nothing is pending. */
  method WriteImage(ser: Port, img: Image) returns (f: Flashing)
    modifies ser
    ensures (f, ser.Value()) == WriteFlash(old(ser.Value()), img)
  {
    var stop := EraseForWrite(ser);
    if stop.Some? {
      return stop.value;
    }
    ghost var w1 := ser.Value();
    var pending := img;
    while pending != map[]
      invariant WriteChunks(ser.Value(), Schedule(pending)) == WriteChunks(w1, Schedule(img))
      decreases |pending.Keys|
    {
      ghost var before := pending;
      var lo, data;
      lo, data, pending := NextChunk(pending);
      ScheduleCons(before);
      RestShrinks(before);
      WriteChunksCons(ser.Value(), (lo, data), Schedule(pending));
      stop := WriteChunk(ser, (lo, data));
      if stop.Some? {
        return stop.value;
      }
    }
    f := Flashed;
  }

  // ---------------------------------------------------------------------
  // Reading flash into an image

  /** How the read operation of `doit` ends. */
  datatype Dump = Dumped(img: Image) | DumpCrashed(error: PyError)

  /** `img[a:a+len(d)] = d`: the image with the bytes of `d` stored one by
      one from `a` on. */
  function Store(img: Image, a: int, d: seq<byte>): (img': Image)
    ensures forall k :: k in img' <==> k in img || a <= k < a + |d|
    ensures forall k | a <= k < a + |d| :: img'[k] == d[k - a]
    ensures forall k | k in img && !(a <= k < a + |d|) :: img'[k] == img[k]
    decreases |d|
  {
    if d == [] then img else Store(img[a := d[0]], a + 1, d[1..])
  }

  /** The bytes one pass of the read loop asks for. */
  function PageSize(): nat
  {
    256
  }

  /** The bytes a pass stores: the data read, or nothing when the read failed. */
  function PageData(r: Reply): seq<byte>
  {
    if r.Data? then r.bytes else []
  }

  /** `cmd_read_mem(ser, a, 256)`: one page read. */
  function PageRead(w: Wire, a: int): (Reply, Wire)
  {
    ReadMem(w, a, PageSize())
  }

  /** The read loop from address `a` on, below `a1`, into `acc`, where
      `read(w, a)` reads the page at `a`: each page is read and stored; an
      exception ends the loop. The read operation is `ReadPages(PageRead, …)`. */
  function ReadPages(read: (Wire, int) -> (Reply, Wire), w: Wire, a: int, a1: int, acc: Image): (Dump, Wire)
    decreases a1 - a
  {
    if a >= a1 then (Dumped(acc), w)
    else
      var rd := read(w, a);
      if rd.0.Raised? then (DumpCrashed(rd.0.error), rd.1)
      else ReadPages(read, rd.1, a + 256, a1, Store(acc, a, PageData(rd.0)))
  }

  /** One pass of the read loop, given what its page read returned; the
      next pass starts at `next`. */
  lemma ReadPagesStep(read: (Wire, int) -> (Reply, Wire), w: Wire, a: int, next: int, a1: int, acc: Image,
                      r: Reply, w': Wire)
    requires a < a1 && next == a + 256 && (r, w') == read(w, a)
    ensures r.Raised? ==> ReadPages(read, w, a, a1, acc) == (DumpCrashed(r.error), w')
    ensures !r.Raised? ==> ReadPages(read, w, a, a1, acc) == ReadPages(read, w', next, a1, Store(acc, a, PageData(r)))
  {
  }

  /** A read of `dsize` bytes returns at most that many. */
  lemma ReadMemAtMost(w: Wire, addr: int, dsize: int)
    ensures ReadMem(w, addr, dsize).0.Data? ==> |ReadMem(w, addr, dsize).0.bytes| <= if dsize < 0 then 0 else dsize
  {
    var w1 := Run(w, ReadMemStages(addr, dsize)).1;
    DrainLength(w1.rx, dsize);
  }

  /** Every page read stores at most one page. */
  ghost predicate ShortReads(read: (Wire, int) -> (Reply, Wire))
  {
    forall w: Wire, a: int :: |PageData(read(w, a).0)| <= 256
  }

  lemma PageReadShort()
    ensures ShortReads(PageRead)
  {
    forall w: Wire, a: int
      ensures |PageData(PageRead(w, a).0)| <= 256
    {
      ReadMemAtMost(w, a, PageSize());
    }
  }

  /** A dump that holds only addresses of `acc` or of `[lo, hi)`, and holds
      what `acc` held outside `[lo, hi)`. */
  predicate Within(d: Dump, acc: Image, lo: int, hi: int)
  {
    d.Dumped? ==>
      (forall k | k in d.img :: k in acc || lo <= k < hi) &&
      (forall k | k in acc && !(lo <= k < hi) :: k in d.img && d.img[k] == acc[k])
  }

  /** The read loop over the `n` pages from `a` to `a1` stores only in them. */
  lemma {:induction false} ReadPagesWithin(read: (Wire, int) -> (Reply, Wire), w: Wire, a: int, a1: int, n: nat,
                                           acc: Image)
    requires ShortReads(read) && a1 == a + n * 256
    ensures Within(ReadPages(read, w, a, a1, acc).0, acc, a, a1)
    decreases n
  {
    if n > 0 {
      var rd := read(w, a);
      ReadPagesStep(read, w, a, a + 256, a1, acc, rd.0, rd.1);
      if !rd.0.Raised? {
        var d := PageData(rd.0);
        var acc' := Store(acc, a, d);
        ReadPagesWithin(read, rd.1, a + 256, a1, n - 1, acc');
        WithinStep(acc, acc', ReadPages(read, rd.1, a + 256, a1, acc').0, a, a1, |d|);
      }
    }
  }

  /** The inductive step of `ReadPagesWithin`, over plain values. */
  lemma WithinStep(acc: Image, acc': Image, r: Dump, a: int, a1: int, n: nat)
    requires a + 256 <= a1 && n <= 256
    requires forall k :: k in acc' <==> k in acc || a <= k < a + n
    requires forall k | k in acc && !(a <= k < a + n) :: acc'[k] == acc[k]
    requires Within(r, acc', a + 256, a1)
    ensures Within(r, acc, a, a1)
  {
  }

  /** `a0 + npages*1024`: the end of the range `-r` reads. */
  function DumpEnd(a0: int, npages: int): int
  {
    a0 + npages * 1024
  }

  /** A dump of `npages` KiB from `a0` holds only addresses in
      `[a0, a0 + npages * 1024)`. */
  lemma ReadFlashWithin(w: Wire, a0: int, npages: int)
    ensures Within(ReadPages(PageRead, w, a0, DumpEnd(a0, npages), map[]).0, map[], a0, DumpEnd(a0, npages))
  {
    if npages > 0 {
      PageReadShort();
      ReadPagesWithin(PageRead, w, a0, DumpEnd(a0, npages), npages * 4, map[]);
    }
  }

  /** The replies of the page reads the read loop makes from `a` on, in
      order, up to and including one that raised. */
  function PageReplies(read: (Wire, int) -> (Reply, Wire), w: Wire, a: int, a1: int): seq<Reply>
    decreases a1 - a
  {
    if a >= a1 then []
    else
      var rd := read(w, a);
      [rd.0] + (if rd.0.Raised? then [] else PageReplies(read, rd.1, a + 256, a1))
  }

  /** No page read among `R` raised. */
  predicate NoneRaised(R: seq<Reply>)
  {
    forall r | r in R :: !r.Raised?
  }

  /** The loop over `n` pages completes exactly when it made `n` page reads
      and none of them raised; otherwise it ends with the exception of its
      last read. */
  lemma {:induction false} DumpReplies(read: (Wire, int) -> (Reply, Wire), w: Wire, a: int, a1: int, n: nat,
                                       acc: Image)
    requires a1 == a + n * 256
    ensures ReadPages(read, w, a, a1, acc).0.Dumped? <==>
      |PageReplies(read, w, a, a1)| == n && NoneRaised(PageReplies(read, w, a, a1))
    ensures ReadPages(read, w, a, a1, acc).0.DumpCrashed? ==>
      PageReplies(read, w, a, a1) != [] &&
      PageReplies(read, w, a, a1)[|PageReplies(read, w, a, a1)| - 1] == Raised(ReadPages(read, w, a, a1, acc).0.error)
    decreases n
  {
    if n > 0 {
      var rd := read(w, a);
      ReadPagesStep(read, w, a, a + 256, a1, acc, rd.0, rd.1);
      PageRepliesStep(read, w, a, a1, rd.0, rd.1);
      if !rd.0.Raised? {
        var acc' := Store(acc, a, PageData(rd.0));
        DumpReplies(read, rd.1, a + 256, a1, n - 1, acc');
        RepliesStep(ReadPages(read, rd.1, a + 256, a1, acc').0, PageReplies(read, w, a, a1),
                    PageReplies(read, rd.1, a + 256, a1), rd.0, n);
      }
    }
  }

  /** One pass of `DumpReplies`, over plain values: a page read that did not
      raise adds one reply to the log and keeps the loop's outcome. */
  lemma RepliesStep(d: Dump, R: seq<Reply>, R': seq<Reply>, r0: Reply, n: nat)
    requires n > 0 && !r0.Raised? && R == [r0] + R'
    requires d.Dumped? <==> |R'| == n - 1 && NoneRaised(R')
    requires d.DumpCrashed? ==> R' != [] && R'[|R'| - 1] == Raised(d.error)
    ensures d.Dumped? <==> |R| == n && NoneRaised(R)
    ensures d.DumpCrashed? ==> R != [] && R[|R| - 1] == Raised(d.error)
  {
    assert NoneRaised(R) <==> NoneRaised(R') by {
      assert forall r :: r in R <==> r == r0 || r in R';
    }
  }

  /** What a dump `d` made from `acc` holds at address `k`, byte `i` of a
      page whose read replied `r`: that byte when the reply carries it,
      otherwise whatever `acc` held at `k`. */
  predicate HoldsPageByte(d: Image, acc: Image, k: int, r: Reply, i: int)
  {
    if r.Data? && 0 <= i < |r.bytes| then k in d && d[k] == r.bytes[i]
    else (k in d <==> k in acc) && (k in acc ==> d[k] == acc[k])
  }

  /** The first page of the loop, over plain values: its bytes are stored
      and the later pages store only past it. */
  lemma FirstPageByte(acc: Image, d: Image, a: int, a1: int, r: Reply, i: int)
    requires 0 <= i < 256 && |PageData(r)| <= 256
    requires Within(Dumped(d), Store(acc, a, PageData(r)), a + 256, a1)
    ensures HoldsPageByte(d, acc, a + i, r, i)
  {
  }

  /** A later page, over plain values: the first page's store does not
      reach it. */
  lemma LaterPageByte(acc: Image, d: Image, a: int, r0: Reply, k: int, r: Reply, i: int)
    requires |PageData(r0)| <= 256 && k >= a + 256
    requires HoldsPageByte(d, Store(acc, a, PageData(r0)), k, r, i)
    ensures HoldsPageByte(d, acc, k, r, i)
  {
  }

  /** One pass of the reply log. */
  lemma PageRepliesStep(read: (Wire, int) -> (Reply, Wire), w: Wire, a: int, a1: int, r: Reply, w': Wire)
    requires a < a1 && (r, w') == read(w, a)
    ensures PageReplies(read, w, a, a1) == [r] + (if r.Raised? then [] else PageReplies(read, w', a + 256, a1))
  {
  }

  /** The inductive step of `DumpPage`, over plain values. */
  lemma DumpPageStep(d: Dump, R: seq<Reply>, R': seq<Reply>, r0: Reply, acc: Image, a: int, j: nat, i: int)
    requires R == [r0] + R' && |PageData(r0)| <= 256 && j >= 1 && 0 <= i
    requires d.Dumped? ==>
      j - 1 < |R'| && HoldsPageByte(d.img, Store(acc, a, PageData(r0)), (a + 256) + 256 * (j - 1) + i, R'[j - 1], i)
    ensures d.Dumped? ==> j < |R| && HoldsPageByte(d.img, acc, a + 256 * j + i, R[j], i)
  {
    if d.Dumped? {
      assert R[j] == R'[j - 1];
      LaterPageByte(acc, d.img, a, r0, a + 256 * j + i, R'[j - 1], i);
    }
  }

  /** Byte `i` of page `j` in a completed dump: the byte that page's read
      returned there when it returned data that long; otherwise whatever
      `acc` held there, so a failed read stores nothing. */
  lemma {:induction false} DumpPage(read: (Wire, int) -> (Reply, Wire), w: Wire, a: int, a1: int, n: nat,
                                    acc: Image, j: nat, i: int)
    requires ShortReads(read) && a1 == a + n * 256 && j < n && 0 <= i < 256
    ensures ReadPages(read, w, a, a1, acc).0.Dumped? ==>
      j < |PageReplies(read, w, a, a1)| &&
      HoldsPageByte(ReadPages(read, w, a, a1, acc).0.img, acc, a + 256 * j + i, PageReplies(read, w, a, a1)[j], i)
    decreases j
  {
    var rd := read(w, a);
    ReadPagesStep(read, w, a, a + 256, a1, acc, rd.0, rd.1);
    PageRepliesStep(read, w, a, a1, rd.0, rd.1);
    if !rd.0.Raised? {
      var acc' := Store(acc, a, PageData(rd.0));
      var d := ReadPages(read, rd.1, a + 256, a1, acc').0;
      assert |PageData(rd.0)| <= 256;
      if j == 0 {
        ReadPagesWithin(read, rd.1, a + 256, a1, n - 1, acc');
        if d.Dumped? {
          FirstPageByte(acc, d.img, a, a1, rd.0, i);
        }
      } else {
        DumpPage(read, rd.1, a + 256, a1, n - 1, acc', j - 1, i);
        DumpPageStep(d, PageReplies(read, w, a, a1), PageReplies(read, rd.1, a + 256, a1), rd.0, acc, a, j, i);
      }
    }
  }

  /** A completed `-r` dump of `npages` KiB from `a0` made `npages * 4` page
      reads, none of which raised, and holds at byte `i` of page `j` exactly
      the byte that page's read returned there; a page whose read failed, or
      came back short, adds no address. */
  lemma ReadFlashContents(w: Wire, a0: int, npages: nat, j: nat, i: int)
    requires j < npages * 4 && 0 <= i < 256
    ensures ReadPages(PageRead, w, a0, DumpEnd(a0, npages), map[]).0.Dumped? ==>
      |PageReplies(PageRead, w, a0, DumpEnd(a0, npages))| == npages * 4 &&
      NoneRaised(PageReplies(PageRead, w, a0, DumpEnd(a0, npages))) &&
      HoldsPageByte(ReadPages(PageRead, w, a0, DumpEnd(a0, npages), map[]).0.img, map[], a0 + 256 * j + i,
                    PageReplies(PageRead, w, a0, DumpEnd(a0, npages))[j], i)
  {
    PageReadShort();
    DumpReplies(PageRead, w, a0, DumpEnd(a0, npages), npages * 4, map[]);
    DumpPage(PageRead, w, a0, DumpEnd(a0, npages), npages * 4, map[], j, i);
  }

  /** One pass of the read loop: read the page at `a` with `cmd_read_mem`
      and store what came back, or nothing when the read failed. `None`
      means the loop goes on from `next` with `img'`. */
  method ReadPage(ser: Port, a: int, a1: int, img: Image) returns (crash: Option<PyError>, next: int, img': Image)
    requires a < a1
    modifies ser
    ensures next == a + 256
    ensures crash.Some? ==> ReadPages(PageRead, old(ser.Value()), a, a1, img) == (DumpCrashed(crash.value), ser.Value())
    ensures crash.None? ==> ReadPages(PageRead, old(ser.Value()), a, a1, img) == ReadPages(PageRead, ser.Value(), next, a1, img')
  {
    ghost var w := ser.Value();
    next := a + 256;
    var r := CmdReadMem(ser, a, PageSize());
    ReadPagesStep(PageRead, w, a, next, a1, img, r, ser.Value());
    if r.Raised? {
      return Some(r.error), next, img;
    }
    var bytes := PageData(r);
    crash, img' := None, Store(img, a, bytes);
  }

  /** The read operation of `doit`: for `a` in `xrange(a0, a1, 256)`, read a
      page and store it, or store nothing when the read failed. */
  method DumpFlash(ser: Port, a0: int, a1: int) returns (d: Dump)
    modifies ser
    ensures (d, ser.Value()) == ReadPages(PageRead, old(ser.Value()), a0, a1, map[])
  {
    ghost var dump := ReadPages(PageRead, ser.Value(), a0, a1, map[]);
    var img: Image := map[];
    var a := a0;
    while a < a1
      invariant ReadPages(PageRead, ser.Value(), a, a1, img) == dump
      decreases a1 - a
    {
      var crash;
      crash, a, img := ReadPage(ser, a, a1, img);
      if crash.Some? {
        return DumpCrashed(crash.value);
      }
    }
    d := Dumped(img);
  }

  // ---------------------------------------------------------------------
  // The whole run of `doit`

  /** `self.op`: `-r` dumps `npages` KiB from `addr` to a file, `-w` writes
      an image read from a file, and with neither `doit` only identifies the
      device. */
  datatype Op = ReadOp(addr: int, npages: int) | WriteOp(img: Image) | NoOp

  /** How `doit` ends. */
  datatype Ending =
    | Completed(dump: Option<Image>)  // after the final reset; the image read by `-r`
    | Aborted(f: Flashing)            // a write that failed (`return 1`) or raised
    | Escaped(error: PyError)         // an exception outside the write loop

  /** Reset into the bootloader, then the 0x7F sync byte and the one-byte
      read after it, whose result is not looked at. */
  function Enter(w: Wire): Wire
  {
    var w1 := w.(lines := w.lines + ResetEvents(true), tx := w.tx + [0x7f]);
    w1.(rx := Drain(w1.rx, 1).1)
  }

  /** GET, GET_VERSION and GET_ID, whose replies are only printed. GET's
      reply is iterated and GET_ID raises like GET, so an exception from
      either ends `doit`. */
  function Identify(w: Wire): (Option<PyError>, Wire)
  {
    var g := Query(w, CMD_GET);
    if g.0.Raised? then (Some(g.0.error), g.1)
    else
      var v := GetVersion(g.1);
      var i := Query(v.1, CMD_GETID);
      if i.0.Raised? then (Some(i.0.error), i.1) else (None, i.1)
  }

  /** The reset back into the application that ends a completed run. */
  function Leave(w: Wire): Wire
  {
    w.(lines := w.lines + ResetEvents(false))
  }

  /** How a dump ends `doit`: an exception, or the image and the final reset. */
  function AfterDump(d: (Dump, Wire)): (Ending, Wire)
  {
    if d.0.DumpCrashed? then (Escaped(d.0.error), d.1) else (Completed(Some(d.0.img)), Leave(d.1))
  }

  /** How a write ends `doit`: `return 1` (or an exception), or the final reset. */
  function AfterWrite(f: (Flashing, Wire)): (Ending, Wire)
  {
    if f.0 != Flashed then (Aborted(f.0), f.1) else (Completed(None), Leave(f.1))
  }

  /** The operation, and the final reset when it completes. */
  ghost function Operate(w: Wire, op: Op): (Ending, Wire)
  {
    match op
    case ReadOp(addr, npages) => AfterDump(ReadPages(PageRead, w, addr, DumpEnd(addr, npages), map[]))
    case WriteOp(img) => AfterWrite(WriteFlashAsWritten(w, img))
    case NoOp => (Completed(None), Leave(w))
  }

  /** Everything `doit` does to the port once it is open. */
  ghost function Session(w: Wire, op: Op): (Ending, Wire)
  {
    var p := Identify(Enter(w));
    if p.0.Some? then (Escaped(p.0.value), p.1) else Operate(p.1, op)
  }

  /** The start of `doit`: reset into the bootloader, sync, identify. */
  method EnterAndIdentify(ser: Port) returns (err: Option<PyError>)
    modifies ser
    ensures (err, ser.Value()) == Identify(Enter(old(ser.Value())))
  {
    Reset(ser, true);
    ser.Write([0x7f]);
    var sync := ReadN(ser, 1);
    var g := CmdGet(ser);
    if g.Raised? {
      return Some(g.error);
    }
    var v := CmdGetVersion(ser);
    var i := CmdGetId(ser);
    if i.Raised? {
      return Some(i.error);
    }
    err := None;
  }

  /** The read operation and, when it completes, the final reset. */
  method ReadOperation(ser: Port, addr: int, npages: int) returns (e: Ending)
    modifies ser
    ensures (e, ser.Value()) == Operate(old(ser.Value()), ReadOp(addr, npages))
  {
    var d := DumpFlash(ser, addr, DumpEnd(addr, npages));
    if d.DumpCrashed? {
      return Escaped(d.error);
    }
    Reset(ser, false);
    e := Completed(Some(d.img));
  }

  /** The write operation and, when it completes, the final reset. */
  method WriteOperation(ser: Port, img: Image) returns (e: Ending)
    modifies ser
    ensures (e, ser.Value()) == Operate(old(ser.Value()), WriteOp(img))
  {
    var f := WriteImageAsWritten(ser, img);
    if f != Flashed {
      return Aborted(f);
    }
    Reset(ser, false);
    e := Completed(None);
  }

  /** The operation, then the final reset if it completed. */
  method Perform(ser: Port, op: Op) returns (e: Ending)
    modifies ser
    ensures (e, ser.Value()) == Operate(old(ser.Value()), op)
  {
    match op
    case ReadOp(addr, npages) =>
      e := ReadOperation(ser, addr, npages);
    case WriteOp(img) =>
      e := WriteOperation(ser, img);
    case NoOp =>
      Reset(ser, false);
      e := Completed(None);
  }

  /** `doit` on an opened port. */
  method Doit(ser: Port, op: Op) returns (e: Ending)
    modifies ser
    ensures (e, ser.Value()) == Session(old(ser.Value()), op)
  {
    var err := EnterAndIdentify(ser);
    if err.Some? {
      return Escaped(err.value);
    }
    e := Perform(ser, op);
  }

  // ---------------------------------------------------------------------
  // The control lines during `doit`

  /** GET and GET_ID leave the control lines alone. */
  lemma QueryKeepsLines(w: Wire, op: byte)
    ensures Query(w, op).1.lines == w.lines
  {
    RunRefused(w, [OpcodeStage(op)]);
  }

  lemma GetVersionKeepsLines(w: Wire)
    ensures GetVersion(w).1.lines == w.lines
  {
    RunRefused(w, [OpcodeStage(CMD_GETVERSION)]);
  }

  lemma ReadMemKeepsLines(w: Wire, addr: int, dsize: int)
    ensures ReadMem(w, addr, dsize).1.lines == w.lines
  {
    RunRefused(w, ReadMemStages(addr, dsize));
  }

  lemma WriteMemKeepsLines(w: Wire, addr: int, data: seq<byte>)
    ensures WriteMem(w, addr, data).1.lines == w.lines
  {
    RunRefused(w, WriteMemStages(addr, data));
  }

  lemma ExtendedEraseKeepsLines(w: Wire, pages: Pages)
    ensures ExtendedErase(w, pages).1.lines == w.lines
  {
    RunRefused(w, ExtendedEraseStages(pages));
  }

  /** Every page read leaves the control lines alone. */
  ghost predicate KeepsLines(read: (Wire, int) -> (Reply, Wire))
  {
    forall w: Wire, a: int :: read(w, a).1.lines == w.lines
  }

  lemma PageReadKeepsLines()
    ensures KeepsLines(PageRead)
  {
    forall w: Wire, a: int
      ensures PageRead(w, a).1.lines == w.lines
    {
      ReadMemKeepsLines(w, a, PageSize());
    }
  }

  /** The read loop leaves the control lines alone. */
  lemma {:induction false} ReadPagesKeepLines(read: (Wire, int) -> (Reply, Wire), w: Wire, a: int, a1: int,
                                              acc: Image)
    requires KeepsLines(read)
    ensures ReadPages(read, w, a, a1, acc).1.lines == w.lines
    decreases a1 - a
  {
    if a < a1 {
      var rd := read(w, a);
      ReadPagesStep(read, w, a, a + 256, a1, acc, rd.0, rd.1);
      if !rd.0.Raised? {
        ReadPagesKeepLines(read, rd.1, a + 256, a1, Store(acc, a, PageData(rd.0)));
      }
    }
  }

  /** One pass of the write loop leaves the control lines alone. */
  lemma ChunkStepKeepsLines(w: Wire, c: (int, seq<byte>))
    ensures ChunkStep(w, c).1.lines == w.lines
  {
    WriteMemKeepsLines(w, c.0, c.1);
    ReadMemKeepsLines(WriteMem(w, c.0, c.1).1, c.0, |c.1|);
  }

  /** The write loop leaves the control lines alone. */
  lemma {:induction false} WriteChunksKeepLines(w: Wire, s: seq<(int, seq<byte>)>)
    ensures WriteChunks(w, s).1.lines == w.lines
    decreases |s|
  {
    if s != [] {
      ChunkStepKeepsLines(w, s[0]);
      WriteChunksKeepLines(ChunkStep(w, s[0]).1, s[1..]);
    }
  }

  /** Identifying the device leaves the control lines alone. */
  lemma IdentifyKeepsLines(w: Wire)
    ensures Identify(w).1.lines == w.lines
  {
    QueryKeepsLines(w, CMD_GET);
    var g := Query(w, CMD_GET).1;
    GetVersionKeepsLines(g);
    QueryKeepsLines(GetVersion(g).1, CMD_GETID);
  }

  /** The operation moves the control lines only by the final reset, and
      makes that reset exactly when it completes. */
  lemma OperateLines(w: Wire, op: Op)
    ensures Operate(w, op).1.lines == w.lines + (if Operate(w, op).0.Completed? then ResetEvents(false) else [])
  {
    match op
    case ReadOp(addr, npages) =>
      PageReadKeepsLines();
      ReadPagesKeepLines(PageRead, w, addr, DumpEnd(addr, npages), map[]);
    case WriteOp(img) =>
      ExtendedEraseKeepsLines(w, MassErase());
      WriteChunksKeepLines(ExtendedErase(w, MassErase()).1, ScheduleAsWritten(img));
    case NoOp =>
  }

  /** Replaying two runs of events one after the other. */
  lemma {:induction false} ReplayAppend(l: Levels, A: seq<LineEvent>, B: seq<LineEvent>)
    ensures Replay(l, A + B) == Replay(Replay(l, A), B)
    decreases |B|
  {
    if B == [] {
      assert A + B == A;
    } else {
      var B' := B[..|B| - 1];
      var e := B[|B| - 1];
      assert B == B' + [e];
      assert A + B == (A + B') + [e];
      ReplaySnoc(l, A + B', e);
      ReplaySnoc(Replay(l, A), B', e);
      ReplayAppend(l, A, B');
    }
  }

  /** `doit` moves the control lines only by its resets: the one into the
      bootloader at the start and, only when the operation completes, the
      one back into the application at the end. A run that stops early
      leaves the device in its bootloader. Either way the three lines end
      released. */
  lemma SessionLines(w: Wire, op: Op, l: Levels)
    ensures Session(w, op).0.Completed? ==>
      Session(w, op).1.lines == w.lines + (ResetEvents(true) + ResetEvents(false))
    ensures !Session(w, op).0.Completed? ==> Session(w, op).1.lines == w.lines + ResetEvents(true)
    ensures Replay(l, Session(w, op).1.lines[|w.lines|..]) == Levels(false, false, false)
  {
    var p := Identify(Enter(w));
    IdentifyKeepsLines(Enter(w));
    if p.0.None? {
      OperateLines(p.1, op);
    }
    ResetReleases(l, true);
    if Session(w, op).0.Completed? {
      AppendAssoc(w.lines, ResetEvents(true), ResetEvents(false));
      ReplayAppend(l, ResetEvents(true), ResetEvents(false));
      ResetReleases(Replay(l, ResetEvents(true)), false);
    }
    assert (w.lines + ResetEvents(true))[|w.lines|..] == ResetEvents(true);
    assert (w.lines + (ResetEvents(true) + ResetEvents(false)))[|w.lines|..] == ResetEvents(true) + ResetEvents(false);
  }
}
