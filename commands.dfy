/** The commands of the STM32 ROM bootloader client: GET, GET_VERSION,
    GET_ID, READ_MEMORY, GO, WRITE_MEMORY, ERASE, EXTENDED_ERASE,
    WRITE_PROTECT and WRITE_UNPROTECT. Each is given twice: as the run of
    stages it makes on a port value, and as the straight-line method that
    makes them on a `Port`, proved to agree. */
module Commands {

  import opened Frames
  import opened Transport
  import opened Handshake
  import opened Stages

  const CMD_GET: byte := 0x00
  const CMD_GETVERSION: byte := 0x01
  const CMD_GETID: byte := 0x02
  const CMD_READMEM: byte := 0x11
  const CMD_GO: byte := 0x21
  const CMD_WRITEMEM: byte := 0x31
  const CMD_ERASE: byte := 0x43
  const CMD_EERASE: byte := 0x44
  const CMD_WRPROTECT: byte := 0x63
  const CMD_WRUNPROTECT: byte := 0x73

  /** What a command returns. */
  datatype Reply =
    | Done                                           // (True,)
    | Data(bytes: seq<byte>)                         // (True, d)
    | Written(count: nat)                            // (True, len(data))
    | Failed(reason: Refusal, step: nat)             // (False, reason, step)
    | Unanswered(reason: Refusal)                    // (False, reason)
    | Unconfirmed(reason: Refusal, bytes: seq<byte>) // (False, reason, d)
    | Raised(error: PyError)                         // the exception propagates

  /** The `pages` argument of the erase and protect commands: a plain
      integer or a list of page numbers. */
  datatype Pages = Code(n: int) | PageList(items: seq<int>)

  /** A payload built from a command's arguments, or the exception that
      building it raises. */
  datatype Encoded = Encoded(bytes: seq<byte>) | Unencodable(err: PyError)

  /** The reply of a command whose stages ended with `o`, given the reply it
      makes when they all go through. */
  function Verdict(o: Outcome, success: Reply): Reply
  {
    match o
    case Through => success
    case Stopped(reason, step) => Failed(reason, step)
    case Threw(e) => Raised(e)
  }

  // ---------------------------------------------------------------------
  // Payloads

  predicate IsByte(i: int)
  {
    0 <= i < 256
  }

  predicate IsWord(i: int)
  {
    0 <= i < 0x1_0000
  }

  /** `''.join([chr(i) for i in items])` for items that `chr` accepts. */
  function Chars(items: seq<int>): (s: seq<byte>)
    requires forall i | 0 <= i < |items| :: IsByte(items[i])
    ensures |s| == |items|
  {
    if items == [] then [] else assert IsByte(items[0]); [ToByte(items[0])] + Chars(items[1..])
  }

  /** `''.join([struct.pack('>H', i) for i in items])` for items that fit. */
  function Words(items: seq<int>): (s: seq<byte>)
    requires forall i | 0 <= i < |items| :: IsWord(items[i])
    ensures |s| == 2 * |items|
  {
    if items == [] then [] else assert IsWord(items[0]); BigEndian(items[0], 2) + Words(items[1..])
  }

  /** `i2nbytes(i, n)` as a payload; `struct.pack` raises unless `i` fits in
      an unsigned 64-bit integer. */
  function Packed(i: int, n: nat): Encoded
  {
    match I2NBytes(i, n)
    case None => Unencodable(StructError)
    case Some(b) => Encoded(b)
  }

  /** The WRITE_MEMORY block: `chr(len(data) - 1) + data`. */
  function Block(data: seq<byte>): Encoded
  {
    if 1 <= |data| <= 256 then Encoded([ToByte(|data| - 1)] + data) else Unencodable(ValueError)
  }

  /** The page list of ERASE and WRITE_PROTECT: `chr(len(pages) - 1)`
      followed by one byte per page. An integer cannot be iterated. */
  function PageBytes(pages: Pages): Encoded
  {
    match pages
    case Code(_) => Unencodable(TypeError)
    case PageList(items) =>
      if (forall i | 0 <= i < |items| :: IsByte(items[i])) && 1 <= |items| <= 256
      then Encoded([ToByte(|items| - 1)] + Chars(items))
      else Unencodable(ValueError)
  }

  /** The EXTENDED_ERASE payload: a special code 0xfff0..0xffff as one word,
      or else the page count less one followed by the pages, one word each. */
  function PageWords(pages: Pages): Encoded
  {
    match pages
    case Code(n) =>
      if 0xfff0 <= n <= 0xffff then Encoded(BigEndian(n, 2)) else Unencodable(TypeError)
    case PageList(items) =>
      var all := [|items| - 1] + items;
      if forall i | 0 <= i < |all| :: IsWord(all[i]) then Encoded(Words(all)) else Unencodable(StructError)
  }

  // ---------------------------------------------------------------------
  // Stages

  /** A step that sends `e` with a checksum seeded by `seed`. */
  function FrameStage(e: Encoded, seed: byte, step: nat): Stage
    requires e.Encoded? ==> |e.bytes| > 0
  {
    match e
    case Unencodable(err) => Stage(Broken(err), step)
    case Encoded(b) => Stage(Send(Frame(b, seed)), step)
  }

  /** Step 1 of every command: the opcode followed by its complement, which
      is its frame with a 0xff-seeded checksum (`OpcodeFrame`). */
  function OpcodeStage(op: byte): Stage
  {
    Stage(Send([op, 255 - op]), 1)
  }

  /** Step 2 of the memory commands: the address as four bytes, seed 0. */
  function AddressStage(addr: int): Stage
  {
    FrameStage(Packed(addr, 4), 0x00, 2)
  }

  function ReadMemStages(addr: int, dsize: int): seq<Stage>
  {
    [OpcodeStage(CMD_READMEM), AddressStage(addr), FrameStage(Packed(dsize - 1, 1), 0xff, 3)]
  }

  function GoStages(addr: int): seq<Stage>
  {
    [OpcodeStage(CMD_GO), AddressStage(addr), Stage(AckOnly, 3)]
  }

  function WriteMemStages(addr: int, data: seq<byte>): seq<Stage>
  {
    [OpcodeStage(CMD_WRITEMEM), AddressStage(addr), FrameStage(Block(data), 0x00, 3)]
  }

  /** Step 2 of ERASE is the mass-erase code 255 (step 2); anything else is
      a page list (step 3). */
  function EraseStages(pages: Pages): seq<Stage>
  {
    [ OpcodeStage(CMD_ERASE),
      if pages == Code(255) then FrameStage(Encoded([0xff]), 0xff, 2)
      else FrameStage(PageBytes(pages), 0xff, 3) ]
  }

  function ExtendedEraseStages(pages: Pages): seq<Stage>
  {
    [OpcodeStage(CMD_EERASE), FrameStage(PageWords(pages), 0x00, 3)]
  }

  function WriteProtectStages(pages: Pages): seq<Stage>
  {
    [OpcodeStage(CMD_WRPROTECT), FrameStage(PageBytes(pages), 0xff, 3)]
  }

  function WriteUnprotectStages(): seq<Stage>
  {
    [OpcodeStage(CMD_WRUNPROTECT), Stage(AckOnly, 3)]
  }

  // ---------------------------------------------------------------------
  // What each command returns and leaves on the port

  /** A reply of up to `want` bytes followed by a closing ACK. */
  function Answer(w: Wire, want: int): (Reply, Wire)
  {
    var (d, rest) := Drain(w.rx, want);
    var (v, w') := AwaitAck(w.(rx := rest));
    (if v.Refused? then Unconfirmed(v.reason, d) else Data(d), w')
  }

  /** A count byte `n`, then an answer of `n + 1` bytes; `ord('')` raises
      when no count byte arrives. */
  function Listing(w: Wire): (Reply, Wire)
  {
    var (count, rest) := Drain(w.rx, 1);
    if count == [] then (Raised(TypeError), w.(rx := rest))
    else Answer(w.(rx := rest), count[0] as int + 1)
  }

  /** `cmd_get` and `cmd_get_id`: the opcode, then a listing. */
  function Query(w: Wire, op: byte): (Reply, Wire)
  {
    var (o, w1) := Run(w, [OpcodeStage(op)]);
    if o.Stopped? then (Unanswered(o.reason), w1) else Listing(w1)
  }

  /** `cmd_get_version`: after the opcode's ACK, an answer of three bytes. */
  function GetVersion(w: Wire): (Reply, Wire)
  {
    var (o, w1) := Run(w, [OpcodeStage(CMD_GETVERSION)]);
    if o.Stopped? then (Unanswered(o.reason), w1) else Answer(w1, 3)
  }

  /** `cmd_read_mem`: after the three steps, up to `dsize` bytes. */
  function ReadMem(w: Wire, addr: int, dsize: int): (Reply, Wire)
  {
    var (o, w1) := Run(w, ReadMemStages(addr, dsize));
    if o != Through then (Verdict(o, Done), w1)
    else
      var (d, rest) := Drain(w1.rx, dsize);
      (Data(d), w1.(rx := rest))
  }

  function Go(w: Wire, addr: int): (Reply, Wire)
  {
    var (o, w1) := Run(w, GoStages(addr));
    (Verdict(o, Done), w1)
  }

  function WriteMem(w: Wire, addr: int, data: seq<byte>): (Reply, Wire)
  {
    var (o, w1) := Run(w, WriteMemStages(addr, data));
    (Verdict(o, Written(|data|)), w1)
  }

  function Erase(w: Wire, pages: Pages): (Reply, Wire)
  {
    var (o, w1) := Run(w, EraseStages(pages));
    (Verdict(o, Done), w1)
  }

  function ExtendedErase(w: Wire, pages: Pages): (Reply, Wire)
  {
    var (o, w1) := Run(w, ExtendedEraseStages(pages));
    (Verdict(o, Done), w1)
  }

  function WriteProtect(w: Wire, pages: Pages): (Reply, Wire)
  {
    var (o, w1) := Run(w, WriteProtectStages(pages));
    (Verdict(o, Done), w1)
  }

  function WriteUnprotect(w: Wire): (Reply, Wire)
  {
    var (o, w1) := Run(w, WriteUnprotectStages());
    (Verdict(o, Done), w1)
  }

  // ---------------------------------------------------------------------
  // The commands on a port

  /** One step of a command: send `e` with its checksum (or raise what
      building `e` raised) and wait for ACK. */
  method SendStep(ser: Port, e: Encoded, seed: byte, step: nat) returns (o: Outcome)
    requires e.Encoded? ==> |e.bytes| > 0
    modifies ser
    ensures (o, ser.Value()) == Run(old(ser.Value()), [FrameStage(e, seed, step)])
  {
    if e.Unencodable? {
      return Threw(e.err);
    }
    SendCksum(ser, e.bytes, seed);
    var v := CheckAck(ser);
    assert [FrameStage(e, seed, step)][1..] == [];
    o := if v.Refused? then Stopped(v.reason, step) else Through;
  }

  /** A step that sends nothing and waits for a further ACK. */
  method AckStep(ser: Port, step: nat) returns (o: Outcome)
    modifies ser
    ensures (o, ser.Value()) == Run(old(ser.Value()), [Stage(AckOnly, step)])
  {
    ghost var w0 := ser.Value();
    assert w0.(tx := w0.tx + Sent(AckOnly)) == w0;
    var v := CheckAck(ser);
    assert [Stage(AckOnly, step)][1..] == [];
    o := if v.Refused? then Stopped(v.reason, step) else Through;
  }

  /** The body `cmd_get` and `cmd_get_id` share, for opcode `op`. */
  method CmdQuery(ser: Port, op: byte) returns (r: Reply)
    modifies ser
    ensures (r, ser.Value()) == Query(old(ser.Value()), op)
  {
    OpcodeFrame(op);
    var o := SendStep(ser, Encoded([op]), 0xff, 1);
    if o.Stopped? {
      return Unanswered(o.reason);
    }
    var count := ReadN(ser, 1);
    if count == [] {
      return Raised(TypeError);
    }
    var d := ReadN(ser, count[0] as int + 1);
    var v := CheckAck(ser);
    if v.Refused? {
      return Unconfirmed(v.reason, d);
    }
    r := Data(d);
  }

  /** `cmd_get`: the bootloader version and the opcodes it supports. */
  method CmdGet(ser: Port) returns (r: Reply)
    modifies ser
    ensures (r, ser.Value()) == Query(old(ser.Value()), CMD_GET)
  {
    r := CmdQuery(ser, CMD_GET);
  }

  /** `cmd_get_id`: the product id. */
  method CmdGetId(ser: Port) returns (r: Reply)
    modifies ser
    ensures (r, ser.Value()) == Query(old(ser.Value()), CMD_GETID)
  {
    r := CmdQuery(ser, CMD_GETID);
  }

  /** `cmd_get_version`. */
  method CmdGetVersion(ser: Port) returns (r: Reply)
    modifies ser
    ensures (r, ser.Value()) == GetVersion(old(ser.Value()))
  {
    OpcodeFrame(CMD_GETVERSION);
    var o := SendStep(ser, Encoded([CMD_GETVERSION]), 0xff, 1);
    if o.Stopped? {
      return Unanswered(o.reason);
    }
    var d := ReadN(ser, 3);
    var v := CheckAck(ser);
    if v.Refused? {
      return Unconfirmed(v.reason, d);
    }
    r := Data(d);
  }

  /** `cmd_read_mem(ser, addr, dsize)`. */
  method CmdReadMem(ser: Port, addr: int, dsize: int) returns (r: Reply)
    modifies ser
    ensures (r, ser.Value()) == ReadMem(old(ser.Value()), addr, dsize)
  {
    ghost var stages := ReadMemStages(addr, dsize);
    ghost var w0 := ser.Value();
    assert stages == [stages[0]] + ([stages[1]] + [stages[2]]);
    RunAppend(w0, [stages[0]], [stages[1]] + [stages[2]]);
    OpcodeFrame(CMD_READMEM);
    var o := SendStep(ser, Encoded([CMD_READMEM]), 0xff, 1);
    if o != Through {
      return Verdict(o, Done);
    }
    RunAppend(ser.Value(), [stages[1]], [stages[2]]);
    o := SendStep(ser, Packed(addr, 4), 0x00, 2);
    if o != Through {
      return Verdict(o, Done);
    }
    o := SendStep(ser, Packed(dsize - 1, 1), 0xff, 3);
    if o != Through {
      return Verdict(o, Done);
    }
    var d := ReadN(ser, dsize);
    r := Data(d);
  }

  /** `cmd_go(ser, addr)`: the third step sends nothing and waits for a
      second ACK. */
  method CmdGo(ser: Port, addr: int) returns (r: Reply)
    modifies ser
    ensures (r, ser.Value()) == Go(old(ser.Value()), addr)
  {
    ghost var stages := GoStages(addr);
    ghost var w0 := ser.Value();
    assert stages == [stages[0]] + ([stages[1]] + [stages[2]]);
    RunAppend(w0, [stages[0]], [stages[1]] + [stages[2]]);
    OpcodeFrame(CMD_GO);
    var o := SendStep(ser, Encoded([CMD_GO]), 0xff, 1);
    if o != Through {
      return Verdict(o, Done);
    }
    RunAppend(ser.Value(), [stages[1]], [stages[2]]);
    o := SendStep(ser, Packed(addr, 4), 0x00, 2);
    if o != Through {
      return Verdict(o, Done);
    }
    o := AckStep(ser, 3);
    r := Verdict(o, Done);
  }

  /** `cmd_write_mem(ser, addr, data)`. */
  method CmdWriteMem(ser: Port, addr: int, data: seq<byte>) returns (r: Reply)
    modifies ser
    ensures (r, ser.Value()) == WriteMem(old(ser.Value()), addr, data)
  {
    ghost var stages := WriteMemStages(addr, data);
    ghost var w0 := ser.Value();
    assert stages == [stages[0]] + ([stages[1]] + [stages[2]]);
    RunAppend(w0, [stages[0]], [stages[1]] + [stages[2]]);
    OpcodeFrame(CMD_WRITEMEM);
    var o := SendStep(ser, Encoded([CMD_WRITEMEM]), 0xff, 1);
    if o != Through {
      return Verdict(o, Written(|data|));
    }
    RunAppend(ser.Value(), [stages[1]], [stages[2]]);
    o := SendStep(ser, Packed(addr, 4), 0x00, 2);
    if o != Through {
      return Verdict(o, Written(|data|));
    }
    o := SendStep(ser, Block(data), 0x00, 3);
    r := Verdict(o, Written(|data|));
  }

  /** `cmd_erase(ser, pages)`. */
  method CmdErase(ser: Port, pages: Pages) returns (r: Reply)
    modifies ser
    ensures (r, ser.Value()) == Erase(old(ser.Value()), pages)
  {
    ghost var stages := EraseStages(pages);
    assert stages == [stages[0]] + [stages[1]];
    RunAppend(ser.Value(), [stages[0]], [stages[1]]);
    OpcodeFrame(CMD_ERASE);
    var o := SendStep(ser, Encoded([CMD_ERASE]), 0xff, 1);
    if o != Through {
      return Verdict(o, Done);
    }
    if pages == Code(255) {
      o := SendStep(ser, Encoded([0xff]), 0xff, 2);
    } else {
      o := SendStep(ser, PageBytes(pages), 0xff, 3);
    }
    r := Verdict(o, Done);
  }

  /** `cmd_extended_erase(ser, pages)`. */
  method CmdExtendedErase(ser: Port, pages: Pages) returns (r: Reply)
    modifies ser
    ensures (r, ser.Value()) == ExtendedErase(old(ser.Value()), pages)
  {
    ghost var stages := ExtendedEraseStages(pages);
    assert stages == [stages[0]] + [stages[1]];
    RunAppend(ser.Value(), [stages[0]], [stages[1]]);
    OpcodeFrame(CMD_EERASE);
    var o := SendStep(ser, Encoded([CMD_EERASE]), 0xff, 1);
    if o != Through {
      return Verdict(o, Done);
    }
    o := SendStep(ser, PageWords(pages), 0x00, 3);
    r := Verdict(o, Done);
  }

  /** `cmd_write_protect(ser, pages)`. */
  method CmdWriteProtect(ser: Port, pages: Pages) returns (r: Reply)
    modifies ser
    ensures (r, ser.Value()) == WriteProtect(old(ser.Value()), pages)
  {
    ghost var stages := WriteProtectStages(pages);
    assert stages == [stages[0]] + [stages[1]];
    RunAppend(ser.Value(), [stages[0]], [stages[1]]);
    OpcodeFrame(CMD_WRPROTECT);
    var o := SendStep(ser, Encoded([CMD_WRPROTECT]), 0xff, 1);
    if o != Through {
      return Verdict(o, Done);
    }
    o := SendStep(ser, PageBytes(pages), 0xff, 3);
    r := Verdict(o, Done);
  }

  /** `cmd_write_unprotect(ser)`: the second step sends nothing. */
  method CmdWriteUnprotect(ser: Port) returns (r: Reply)
    modifies ser
    ensures (r, ser.Value()) == WriteUnprotect(old(ser.Value()))
  {
    ghost var stages := WriteUnprotectStages();
    assert stages == [stages[0]] + [stages[1]];
    RunAppend(ser.Value(), [stages[0]], [stages[1]]);
    OpcodeFrame(CMD_WRUNPROTECT);
    var o := SendStep(ser, Encoded([CMD_WRUNPROTECT]), 0xff, 1);
    if o != Through {
      return Verdict(o, Done);
    }
    o := AckStep(ser, 3);
    r := Verdict(o, Done);
  }
}
