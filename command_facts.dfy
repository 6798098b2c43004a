/** What the bootloader commands mean on the wire: the payloads decode back
    to the arguments they were built from, and each command succeeds exactly
    when its arguments can be encoded and the device acknowledges every
    step, sending the frames the protocol prescribes. */
module CommandFacts {

  import opened Frames
  import opened Transport
  import opened Handshake
  import opened Stages
  import opened Commands

  // ---------------------------------------------------------------------
  // Payloads, as the device reads them

  /** A WRITE_MEMORY block read back: a count byte N and N + 1 data bytes. */
  function Unblock(b: seq<byte>): Option<seq<byte>>
  {
    if |b| >= 2 && b[0] as int == |b| - 2 then Some(b[1..]) else None
  }

  /** The block is built exactly for 1 to 256 data bytes, and the device
      reads back exactly those bytes; a length outside that range raises
      ValueError before anything is sent. */
  lemma BlockRoundTrip(data: seq<byte>)
    ensures Block(data).Encoded? <==> 1 <= |data| <= 256
    ensures Block(data).Encoded? ==> Unblock(Block(data).bytes) == Some(data)
    ensures Block(data).Unencodable? ==> Block(data).err == ValueError
  {
    if 1 <= |data| <= 256 {
      assert ([ToByte(|data| - 1)] + data)[1..] == data;
    }
  }

  /** Every well-formed block is the block of the data it carries. */
  lemma UnblockBlock(b: seq<byte>)
    requires Unblock(b).Some?
    ensures Block(Unblock(b).value) == Encoded(b)
  {
    assert [b[0]] + b[1..] == b;
  }

  /** An ERASE or WRITE_PROTECT page list read back: a count byte N and
      N + 1 page numbers. */
  function PagesOf(b: seq<byte>): Option<seq<int>>
  {
    if |b| >= 2 && b[0] as int == |b| - 2 then Some(seq(|b| - 1, i requires 0 <= i < |b| - 1 => b[i + 1] as int))
    else None
  }

  lemma {:induction false} CharsValues(items: seq<int>)
    requires forall i | 0 <= i < |items| :: IsByte(items[i])
    ensures forall i | 0 <= i < |items| :: Chars(items)[i] as int == items[i]
  {
    if items != [] {
      CharsValues(items[1..]);
      forall i | 0 <= i < |items|
        ensures Chars(items)[i] as int == items[i]
      {
        if i > 0 {
          assert Chars(items)[i] == Chars(items[1..])[i - 1];
        }
      }
    }
  }

  /** A page list is encoded exactly when it holds 1 to 256 pages, each a
      byte; otherwise (or for a plain integer) nothing is sent. The device
      reads back the same pages. */
  lemma PageBytesRoundTrip(pages: Pages)
    ensures PageBytes(pages).Encoded? <==>
      pages.PageList? && 1 <= |pages.items| <= 256 && forall i | 0 <= i < |pages.items| :: IsByte(pages.items[i])
    ensures PageBytes(pages).Encoded? ==> PagesOf(PageBytes(pages).bytes) == Some(pages.items)
    ensures PageBytes(pages).Unencodable? ==> PageBytes(pages).err == (if pages.Code? then TypeError else ValueError)
  {
    if PageBytes(pages).Encoded? {
      var items := pages.items;
      var b := PageBytes(pages).bytes;
      CharsValues(items);
      assert PagesOf(b).value == items by {
        forall i | 0 <= i < |items|
          ensures PagesOf(b).value[i] == items[i]
        {
          assert b[i + 1] == Chars(items)[i];
        }
      }
    }
  }

  /** Big-endian words read back. */
  function WordsOf(b: seq<byte>): seq<int>
    requires |b| % 2 == 0
  {
    if b == [] then [] else [FromBigEndian(b[..2])] + WordsOf(b[2..])
  }

  lemma {:induction false} WordsRoundTrip(items: seq<int>)
    requires forall i | 0 <= i < |items| :: IsWord(items[i])
    ensures WordsOf(Words(items)) == items
  {
    if items != [] {
      var b := Words(items);
      assert IsWord(items[0]);
      assert b[..2] == BigEndian(items[0], 2);
      assert b[2..] == Words(items[1..]);
      BigEndianRoundTrip(items[0], 2);
      WordsRoundTrip(items[1..]);
    }
  }

  /** An EXTENDED_ERASE page list read back: a count word N and N + 1 page
      words. */
  function WordPagesOf(b: seq<byte>): Option<seq<int>>
  {
    if |b| % 2 != 0 then None
    else
      var ws := WordsOf(b);
      if |ws| >= 2 && ws[0] == |ws| - 2 then Some(ws[1..]) else None
  }

  /** EXTENDED_ERASE encodes a special code 0xfff0..0xffff as that one word,
      and a list of 1 to 65536 pages, each a word, as a count and the pages,
      which the device reads back. An empty list or a page out of range
      raises struct.error; any other integer raises TypeError. */
  lemma PageWordsRoundTrip(pages: Pages)
    ensures pages.Code? ==>
      (PageWords(pages).Encoded? <==> 0xfff0 <= pages.n <= 0xffff) &&
      (PageWords(pages).Encoded? ==> FromBigEndian(PageWords(pages).bytes) == pages.n) &&
      (PageWords(pages).Unencodable? ==> PageWords(pages).err == TypeError)
    ensures pages.PageList? ==>
      (PageWords(pages).Encoded? <==>
        1 <= |pages.items| <= 0x1_0000 && forall i | 0 <= i < |pages.items| :: IsWord(pages.items[i])) &&
      (PageWords(pages).Encoded? ==> WordPagesOf(PageWords(pages).bytes) == Some(pages.items)) &&
      (PageWords(pages).Unencodable? ==> PageWords(pages).err == StructError)
  {
    match pages
    case Code(n) =>
      if 0xfff0 <= n <= 0xffff {
        PageCodeWord(n);
      }
    case PageList(items) =>
      PageListWords(items);
  }

  /** The special-code case of `PageWordsRoundTrip`. */
  lemma PageCodeWord(n: int)
    requires 0xfff0 <= n <= 0xffff
    ensures FromBigEndian(BigEndian(n, 2)) == n
  {
    BigEndianRoundTrip(n, 2);
  }

  /** The page-list case of `PageWordsRoundTrip`: the count word fits exactly
      when the list has 1 to 65536 entries. */
  lemma PageListWords(items: seq<int>)
    ensures var all := [|items| - 1] + items;
      (forall i | 0 <= i < |all| :: IsWord(all[i])) <==>
        1 <= |items| <= 0x1_0000 && forall i | 0 <= i < |items| :: IsWord(items[i])
    ensures var all := [|items| - 1] + items;
      (forall i | 0 <= i < |all| :: IsWord(all[i])) ==> WordPagesOf(Words(all)) == Some(items)
  {
    var all := [|items| - 1] + items;
    assert forall i | 0 <= i < |items| :: items[i] == all[i + 1];
    if forall i | 0 <= i < |all| :: IsWord(all[i]) {
      WordsRoundTrip(all);
      assert all[1..] == items;
    } else if 1 <= |items| <= 0x1_0000 {
      var i :| 0 <= i < |all| && !IsWord(all[i]);
      assert i > 0 && !IsWord(items[i - 1]);
    }
  }

  // ---------------------------------------------------------------------
  // Reading replies

  /** A bounded read takes the next bytes of the stream, as many as were
      asked for or as arrive before the line goes idle, whichever is fewer. */
  lemma DrainPrefix(rx: seq<Burst>, want: int)
    ensures |Drain(rx, want).0| == Min(if want < 0 then 0 else want, Available(rx))
    ensures Drain(rx, want).0 == Stream(rx)[..|Drain(rx, want).0|]
    ensures Stream(Drain(rx, want).1) == Stream(rx)[|Drain(rx, want).0|..]
    ensures |Drain(rx, want).0| == want ==> Available(Drain(rx, want).1) == Available(rx) - want
  {
    DrainLength(rx, want);
    DrainConserves(rx, want);
    if |Drain(rx, want).0| == want {
      DrainAvailable(rx, want);
    }
  }

  lemma AllSent2(a: Stage, b: Stage)
    ensures AllSent([a, b]) == Sent(a.payload) + Sent(b.payload)
  {
    assert [b][1..] == [];
    assert AllSent([b]) == Sent(b.payload) + [];
    assert [a, b][1..] == [b];
    assert AllSent([a, b]) == Sent(a.payload) + AllSent([b]);
  }

  lemma AllSent3(a: Stage, b: Stage, c: Stage)
    ensures AllSent([a, b, c]) == Sent(a.payload) + Sent(b.payload) + Sent(c.payload)
  {
    assert [a, b, c][1..] == [b, c];
    AllSent2(b, c);
    AppendAssoc(Sent(a.payload), Sent(b.payload), Sent(c.payload));
  }

  // ---------------------------------------------------------------------
  // What the commands mean

  /** An answer is the next bytes of the stream, as many as were asked
      for or as arrive before the line goes idle; it is confirmed exactly
      when the byte after a complete answer is ACK. */
  lemma AnswerMeaning(w: Wire, want: nat)
    ensures var (S, A, r) := (Stream(w.rx), Available(w.rx), Answer(w, want).0);
      (r.Data? || r.Unconfirmed?) &&
      |r.bytes| == Min(want, A) && r.bytes == S[..|r.bytes|] &&
      (A > want ==> (r.Data? <==> S[want] == ACK)) &&
      (A > want && r.Data? ==> Stream(Answer(w, want).1.rx) == S[want + 1..] && Answer(w, want).1.flushes == w.flushes) &&
      Answer(w, want).1.tx == w.tx
  {
    var (d, rest) := Drain(w.rx, want);
    DrainPrefix(w.rx, want);
    AwaitAckMeaning(w.(rx := rest));
    if Available(w.rx) > want {
      assert Stream(rest)[0] == Stream(w.rx)[want];
      assert Stream(rest)[1..] == Stream(w.rx)[want + 1..];
    }
  }

  /** An acknowledged opcode: its two bytes are sent and the ACK consumed. */
  lemma OpcodeAcked(w: Wire, op: byte)
    requires Available(w.rx) > 0 && Stream(w.rx)[0] == ACK
    ensures var w1 := Run(w, [OpcodeStage(op)]).1;
      Run(w, [OpcodeStage(op)]).0 == Through &&
      Stream(w1.rx) == Stream(w.rx)[1..] && Available(w1.rx) == Available(w.rx) - 1 &&
      w1.tx == w.tx + [op, 255 - op] && w1.flushes == w.flushes
  {
    var st := [OpcodeStage(op)];
    RunThrough(w, st);
    assert Sound(st);
    RunThroughConsumes(w, st);
    RunThroughWrites(w, st);
    assert st[1..] == [];
    OpcodeFrame(op);
  }

  /** A listing raises TypeError exactly when no count byte arrives. */
  lemma ListingRaises(w: Wire)
    ensures Listing(w).0.Raised? <==> Available(w.rx) == 0
  {
    DrainPrefix(w.rx, 1);
    if Available(w.rx) > 0 {
      AnswerMeaning(w.(rx := Drain(w.rx, 1).1), Stream(w.rx)[0] as int + 1);
    }
  }

  /** After a count byte, a listing is an answer of count + 1 bytes read
      from the rest of the stream. */
  lemma ListingAnswer(w: Wire)
    requires Available(w.rx) > 0
    ensures Stream(Drain(w.rx, 1).1) == Stream(w.rx)[1..]
    ensures Available(Drain(w.rx, 1).1) == Available(w.rx) - 1
    ensures Listing(w) == Answer(w.(rx := Drain(w.rx, 1).1), Stream(w.rx)[0] as int + 1)
  {
    DrainPrefix(w.rx, 1);
  }

  /** GET and GET_ID are unanswered exactly when the device's first byte is
      not ACK; after that ACK they are a listing read from the rest of the
      stream, so they raise TypeError exactly when that ACK is all that
      arrives. */
  lemma QueryRefused(w: Wire, op: byte)
    ensures var (S, A) := (Stream(w.rx), Available(w.rx));
      (Query(w, op).0.Unanswered? <==> !(A > 0 && S[0] == ACK)) &&
      (A > 0 && S[0] == ACK ==> Query(w, op) == Listing(Run(w, [OpcodeStage(op)]).1)) &&
      (Query(w, op).0.Raised? <==> A == 1 && S[0] == ACK)
  {
    var st := [OpcodeStage(op)];
    RunThrough(w, st);
    assert Sound(st);
    if Available(w.rx) > 0 && Stream(w.rx)[0] == ACK {
      OpcodeAcked(w, op);
      ListingRaises(Run(w, st).1);
    }
  }

  /** A complete answer: `want` bytes followed by ACK. */
  lemma AnswerComplete(w: Wire, want: nat)
    requires Available(w.rx) > want && Stream(w.rx)[want] == ACK
    ensures Answer(w, want).0 == Data(Stream(w.rx)[..want])
    ensures Stream(Answer(w, want).1.rx) == Stream(w.rx)[want + 1..]
    ensures Answer(w, want).1.tx == w.tx && Answer(w, want).1.flushes == w.flushes
  {
    AnswerMeaning(w, want);
  }

  /** A listing whose count N is followed by N + 1 bytes and ACK returns
      exactly those bytes and consumes exactly that reply; with
      `QueryRefused`, this is GET and GET_ID on a complete reply. */
  lemma ListingComplete(w: Wire)
    requires Available(w.rx) >= 1 && Available(w.rx) >= Stream(w.rx)[0] as int + 3
    requires Stream(w.rx)[Stream(w.rx)[0] as int + 2] == ACK
    ensures Listing(w).0 == Data(Stream(w.rx)[1..Stream(w.rx)[0] as int + 2])
    ensures Stream(Listing(w).1.rx) == Stream(w.rx)[Stream(w.rx)[0] as int + 3..]
    ensures Listing(w).1.tx == w.tx && Listing(w).1.flushes == w.flushes
  {
    ListingCount(w, Stream(w.rx)[0] as int);
  }

  /** `ListingComplete` for a count byte `n`. */
  lemma ListingCount(w: Wire, n: nat)
    requires Available(w.rx) >= n + 3 && Stream(w.rx)[0] as int == n && Stream(w.rx)[n + 2] == ACK
    ensures Listing(w).0 == Data(Stream(w.rx)[1..n + 2])
    ensures Stream(Listing(w).1.rx) == Stream(w.rx)[n + 3..]
    ensures Listing(w).1.tx == w.tx && Listing(w).1.flushes == w.flushes
  {
    var w2 := w.(rx := Drain(w.rx, 1).1);
    ListingAnswer(w);
    ShiftOne(Stream(w.rx), Stream(w2.rx), n + 1);
    AnswerComplete(w2, n + 1);
    AfterCount(Listing(w), Answer(w2, n + 1), Stream(w.rx), Stream(w2.rx), n);
  }

  /** Bookkeeping for `ListingComplete`: a reply read after the first byte,
      in terms of the whole stream. */
  lemma AfterCount(l: (Reply, Wire), a: (Reply, Wire), T: seq<byte>, R: seq<byte>, k: nat)
    requires l == a && |T| > 0 && R == T[1..] && k + 1 < |R|
    requires a.0 == Data(R[..k + 1]) && Stream(a.1.rx) == R[k + 2..]
    ensures l.0 == Data(T[1..k + 2]) && Stream(l.1.rx) == T[k + 3..]
  {
    assert R[..k + 1] == T[1..k + 2];
    assert R[k + 2..] == T[k + 3..];
  }

  /** Indexing into the stream after its first byte. */
  lemma ShiftOne(T: seq<byte>, R: seq<byte>, n: nat)
    requires |T| > 0 && R == T[1..] && n < |R|
    ensures R[n] == T[n + 1]
  {
  }

  /** GET_VERSION is unanswered exactly when the device's first byte is not
      ACK; after that ACK it is an answer of three bytes (see
      `AnswerMeaning`) read from the rest of the stream. */
  lemma GetVersionMeaning(w: Wire)
    ensures var (S, A) := (Stream(w.rx), Available(w.rx));
      (GetVersion(w).0.Unanswered? <==> !(A > 0 && S[0] == ACK)) &&
      (A > 0 && S[0] == ACK ==>
        var w1 := Run(w, [OpcodeStage(CMD_GETVERSION)]).1;
        GetVersion(w) == Answer(w1, 3) && Stream(w1.rx) == S[1..] && Available(w1.rx) == A - 1 &&
        w1.tx == w.tx + [CMD_GETVERSION, 0xfe] && w1.flushes == w.flushes)
  {
    var st := [OpcodeStage(CMD_GETVERSION)];
    RunThrough(w, st);
    assert Sound(st);
    if Available(w.rx) > 0 && Stream(w.rx)[0] == ACK {
      OpcodeAcked(w, CMD_GETVERSION);
    }
  }

  // ---------------------------------------------------------------------
  // Refusals and exceptions, for any command

  /** A command whose steps are numbered 1, 2, ... in order and which is
      refused at step `n` was acknowledged `n - 1` times, has sent the frames
      of steps 1 to `n` and nothing else, and was refused with NACK exactly
      when the `n`th reply byte is NACK. */
  lemma NumberedRefusal(w: Wire, stages: seq<Stage>)
    requires forall i | 0 <= i < |stages| :: stages[i].step == i + 1
    requires Run(w, stages).0.Stopped?
    ensures var (n, reason) := (Run(w, stages).0.step, Run(w, stages).0.reason);
      1 <= n <= |stages| && Acks(w.rx, n - 1) &&
      (reason == Nack <==> Available(w.rx) >= n && Stream(w.rx)[n - 1] == NACK) &&
      Run(w, stages).1.tx == w.tx + AllSent(stages[..n])
  {
    RunRefused(w, stages);
    RunStops(w, stages);
  }

  /** `NumberedRefusal` for a three-step command whose reply is the verdict
      of its run. */
  lemma ThreeStepRefusal(w: Wire, stages: seq<Stage>, success: Reply, r: (Reply, Wire))
    requires |stages| == 3 && stages[0].step == 1 && stages[1].step == 2 && stages[2].step == 3
    requires r == (Verdict(Run(w, stages).0, success), Run(w, stages).1) && !success.Failed? && r.0.Failed?
    ensures 1 <= r.0.step <= 3 && Acks(w.rx, r.0.step - 1) &&
      (r.0.reason == Nack <==> Available(w.rx) >= r.0.step && Stream(w.rx)[r.0.step - 1] == NACK) &&
      r.1.tx == w.tx + AllSent(stages[..r.0.step])
  {
    NumberedRefusal(w, stages);
  }

  /** A command that raises was acknowledged for every step before the one
      whose payload could not be built. */
  lemma RaisedAfterAcks(w: Wire, stages: seq<Stage>)
    requires Run(w, stages).0.Threw?
    ensures var k := Acked(w, stages);
      k < |stages| && stages[k].payload == Broken(Run(w, stages).0.err) &&
      Sound(stages[..k]) && Acks(w.rx, k)
  {
    RunRaised(w, stages);
    AckedPrefix(w, stages);
    RunThrough(w, stages[..Acked(w, stages)]);
  }

  // ---------------------------------------------------------------------
  // WRITE_MEMORY

  /** The stages of WRITE_MEMORY raise nothing exactly when the address
      fits and the block holds 1 to 256 bytes, and then send the opcode, the
      address and the block, each with its checksum. */
  lemma WriteMemFrames(addr: int, data: seq<byte>)
    ensures Sound(WriteMemStages(addr, data)) <==> 0 <= addr < Pow256(8) && 1 <= |data| <= 256
    ensures Sound(WriteMemStages(addr, data)) ==>
      AllSent(WriteMemStages(addr, data)) ==
        [CMD_WRITEMEM, 0xce] + Frame(BigEndian(addr, 4), 0x00) + Frame([ToByte(|data| - 1)] + data, 0x00)
  {
    var stages := WriteMemStages(addr, data);
    assert !stages[0].payload.Broken?;
    assert stages[1].payload.Broken? <==> !(0 <= addr < Pow256(8));
    assert stages[2].payload.Broken? <==> !(1 <= |data| <= 256);
    if Sound(stages) {
      AllSent3(stages[0], stages[1], stages[2]);
      OpcodeFrame(CMD_WRITEMEM);
    }
  }

  /** WRITE_MEMORY succeeds exactly when the address fits, the block holds 1
      to 256 bytes and the device acknowledges all three steps; it then has
      sent the opcode, the address and the block, each with its checksum,
      and consumed the three ACKs. */
  lemma WriteMemSucceeds(w: Wire, addr: int, data: seq<byte>)
    ensures WriteMem(w, addr, data).0.Written? <==>
      0 <= addr < Pow256(8) && 1 <= |data| <= 256 && Acks(w.rx, 3)
    ensures WriteMem(w, addr, data).0.Written? ==>
      var w' := WriteMem(w, addr, data).1;
      WriteMem(w, addr, data).0.count == |data| &&
      w'.tx == w.tx + ([CMD_WRITEMEM, 0xce] + Frame(BigEndian(addr, 4), 0x00) + Frame([ToByte(|data| - 1)] + data, 0x00)) &&
      Stream(w'.rx) == Stream(w.rx)[3..] && w'.flushes == w.flushes && w'.lines == w.lines
  {
    var stages := WriteMemStages(addr, data);
    RunThrough(w, stages);
    WriteMemFrames(addr, data);
    if Run(w, stages).0 == Through {
      RunThroughWrites(w, stages);
      RunThroughConsumes(w, stages);
    }
  }

  /** WRITE_MEMORY raises struct.error for an address that does not fit,
      after the opcode's ACK, and ValueError for a block of no or more than
      256 bytes, after the address's ACK. */
  lemma WriteMemRaises(w: Wire, addr: int, data: seq<byte>)
    requires WriteMem(w, addr, data).0.Raised?
    ensures var e := WriteMem(w, addr, data).0.error;
      (e == StructError && !(0 <= addr < Pow256(8)) && Acks(w.rx, 1)) ||
      (e == ValueError && 0 <= addr < Pow256(8) && !(1 <= |data| <= 256) && Acks(w.rx, 2))
  {
    var stages := WriteMemStages(addr, data);
    RaisedAfterAcks(w, stages);
    var k := Acked(w, stages);
    if k == 2 {
      assert !stages[..k][1].payload.Broken?;
    }
  }

  /** WRITE_MEMORY refused at step `n` has sent the frames of steps 1 to `n`. */
  lemma WriteMemRefused(w: Wire, addr: int, data: seq<byte>)
    requires WriteMem(w, addr, data).0.Failed?
    ensures var (n, reason) := (WriteMem(w, addr, data).0.step, WriteMem(w, addr, data).0.reason);
      1 <= n <= 3 && Acks(w.rx, n - 1) &&
      (reason == Nack <==> Available(w.rx) >= n && Stream(w.rx)[n - 1] == NACK) &&
      WriteMem(w, addr, data).1.tx == w.tx + AllSent(WriteMemStages(addr, data)[..n])
  {
    ThreeStepRefusal(w, WriteMemStages(addr, data), Written(|data|), WriteMem(w, addr, data));
  }

  // ---------------------------------------------------------------------
  // READ_MEMORY

  /** The stages of READ_MEMORY raise nothing exactly when the address and
      `dsize - 1` fit in an unsigned 64-bit integer; they send the opcode,
      the address, and the low byte of `dsize - 1` (so 257 bytes are asked
      for as 1). */
  lemma ReadMemFrames(addr: int, dsize: int)
    ensures Sound(ReadMemStages(addr, dsize)) <==> 0 <= addr < Pow256(8) && 1 <= dsize <= Pow256(8)
    ensures Sound(ReadMemStages(addr, dsize)) ==>
      AllSent(ReadMemStages(addr, dsize)) ==
        [CMD_READMEM, 0xee] + Frame(BigEndian(addr, 4), 0x00) + Frame([ToByte((dsize - 1) % 256)], 0xff)
  {
    var stages := ReadMemStages(addr, dsize);
    assert !stages[0].payload.Broken?;
    assert stages[1].payload.Broken? <==> !(0 <= addr < Pow256(8));
    assert stages[2].payload.Broken? <==> !(1 <= dsize <= Pow256(8));
    if Sound(stages) {
      assert BigEndian(dsize - 1, 1) == [ToByte((dsize - 1) % 256)];
      AllSent3(stages[0], stages[1], stages[2]);
      OpcodeFrame(CMD_READMEM);
    }
  }

  /** READ_MEMORY returns data exactly when both arguments fit and the
      device acknowledges all three steps; it has then sent the opcode, the
      address and the size, and the data are the bytes after the three
      ACKs, `dsize` of them or as many as arrive before the line goes idle. */
  lemma ReadMemSucceeds(w: Wire, addr: int, dsize: int)
    ensures ReadMem(w, addr, dsize).0.Data? <==>
      0 <= addr < Pow256(8) && 1 <= dsize <= Pow256(8) && Acks(w.rx, 3)
    ensures ReadMem(w, addr, dsize).0.Data? ==>
      var (S, A) := (Stream(w.rx), Available(w.rx));
      var (d, w') := (ReadMem(w, addr, dsize).0.bytes, ReadMem(w, addr, dsize).1);
      |d| == Min(dsize, A - 3) && d == S[3..3 + |d|] && Stream(w'.rx) == S[3 + |d|..] &&
      w'.tx == w.tx + ([CMD_READMEM, 0xee] + Frame(BigEndian(addr, 4), 0x00) + Frame([ToByte((dsize - 1) % 256)], 0xff)) &&
      w'.flushes == w.flushes && w'.lines == w.lines
  {
    var stages := ReadMemStages(addr, dsize);
    RunThrough(w, stages);
    ReadMemFrames(addr, dsize);
    if Run(w, stages).0 == Through {
      var w1 := Run(w, stages).1;
      RunThroughWrites(w, stages);
      RunThroughConsumes(w, stages);
      ReadAfterAcks(w1, Stream(w.rx), dsize);
      assert ReadMem(w, addr, dsize) == (Data(Drain(w1.rx, dsize).0), w1.(rx := Drain(w1.rx, dsize).1));
    }
  }

  /** The data phase of READ_MEMORY, read from a stream that follows three ACKs. */
  lemma ReadAfterAcks(w1: Wire, S: seq<byte>, dsize: int)
    requires 3 <= |S| && Stream(w1.rx) == S[3..]
    ensures var d := Drain(w1.rx, dsize).0;
      |d| == Min(if dsize < 0 then 0 else dsize, Available(w1.rx)) &&
      d == S[3..3 + |d|] && Stream(Drain(w1.rx, dsize).1) == S[3 + |d|..]
  {
    DrainPrefix(w1.rx, dsize);
    var d := Drain(w1.rx, dsize).0;
    assert Stream(w1.rx)[..|d|] == S[3..3 + |d|];
    assert Stream(w1.rx)[|d|..] == S[3 + |d|..];
  }

  /** READ_MEMORY raises struct.error for an address that does not fit,
      after the opcode's ACK, or for a size below 1 (or above 2^64), after
      the address's ACK. */
  lemma ReadMemRaises(w: Wire, addr: int, dsize: int)
    requires ReadMem(w, addr, dsize).0.Raised?
    ensures ReadMem(w, addr, dsize).0.error == StructError
    ensures (!(0 <= addr < Pow256(8)) && Acks(w.rx, 1)) ||
      (0 <= addr < Pow256(8) && !(1 <= dsize <= Pow256(8)) && Acks(w.rx, 2))
  {
    var stages := ReadMemStages(addr, dsize);
    RaisedAfterAcks(w, stages);
    var k := Acked(w, stages);
    if k == 2 {
      assert !stages[..k][1].payload.Broken?;
    }
  }

  /** READ_MEMORY refused at step `n` has sent the frames of steps 1 to `n`. */
  lemma ReadMemRefused(w: Wire, addr: int, dsize: int)
    requires ReadMem(w, addr, dsize).0.Failed?
    ensures var (n, reason) := (ReadMem(w, addr, dsize).0.step, ReadMem(w, addr, dsize).0.reason);
      1 <= n <= 3 && Acks(w.rx, n - 1) &&
      (reason == Nack <==> Available(w.rx) >= n && Stream(w.rx)[n - 1] == NACK) &&
      ReadMem(w, addr, dsize).1.tx == w.tx + AllSent(ReadMemStages(addr, dsize)[..n])
  {
    ThreeStepRefusal(w, ReadMemStages(addr, dsize), Done, ReadMem(w, addr, dsize));
  }

  // ---------------------------------------------------------------------
  // GO

  lemma GoFrames(addr: int)
    ensures Sound(GoStages(addr)) <==> 0 <= addr < Pow256(8)
    ensures Sound(GoStages(addr)) ==> AllSent(GoStages(addr)) == [CMD_GO, 0xde] + Frame(BigEndian(addr, 4), 0x00)
  {
    var stages := GoStages(addr);
    assert !stages[0].payload.Broken? && !stages[2].payload.Broken?;
    assert stages[1].payload.Broken? <==> !(0 <= addr < Pow256(8));
    if Sound(stages) {
      AllSent3(stages[0], stages[1], stages[2]);
      OpcodeFrame(CMD_GO);
    }
  }

  /** GO succeeds exactly when the address fits and the device sends three
      ACKs, the last one with nothing sent before it; it then has sent the
      opcode and the address, each with its checksum. */
  lemma GoSucceeds(w: Wire, addr: int)
    ensures Go(w, addr).0 == Done <==> 0 <= addr < Pow256(8) && Acks(w.rx, 3)
    ensures Go(w, addr).0 == Done ==>
      var w' := Go(w, addr).1;
      w'.tx == w.tx + ([CMD_GO, 0xde] + Frame(BigEndian(addr, 4), 0x00)) &&
      Stream(w'.rx) == Stream(w.rx)[3..] && w'.flushes == w.flushes && w'.lines == w.lines
  {
    var stages := GoStages(addr);
    RunThrough(w, stages);
    GoFrames(addr);
    if Run(w, stages).0 == Through {
      RunThroughWrites(w, stages);
      RunThroughConsumes(w, stages);
    }
  }

  /** GO raises only struct.error, for an address that does not fit. */
  lemma GoRaises(w: Wire, addr: int)
    requires Go(w, addr).0.Raised?
    ensures Go(w, addr).0.error == StructError && !(0 <= addr < Pow256(8)) && Acks(w.rx, 1)
  {
    RaisedAfterAcks(w, GoStages(addr));
  }

  /** GO refused at step `n` has sent the frames of steps 1 to `n`. */
  lemma GoRefused(w: Wire, addr: int)
    requires Go(w, addr).0.Failed?
    ensures var (n, reason) := (Go(w, addr).0.step, Go(w, addr).0.reason);
      1 <= n <= 3 && Acks(w.rx, n - 1) &&
      (reason == Nack <==> Available(w.rx) >= n && Stream(w.rx)[n - 1] == NACK) &&
      Go(w, addr).1.tx == w.tx + AllSent(GoStages(addr)[..n])
  {
    ThreeStepRefusal(w, GoStages(addr), Done, Go(w, addr));
  }

  // ---------------------------------------------------------------------
  // The two-step commands: ERASE, EXTENDED_ERASE, WRITE_PROTECT and
  // WRITE_UNPROTECT

  /** A two-step command refused at step 1 has sent only its opcode frame;
      refused at its second step (numbered 2 or 3) it has sent both frames
      after one ACK. */
  lemma TwoStepRefusal(w: Wire, stages: seq<Stage>)
    requires |stages| == 2 && stages[0].step == 1 && stages[1].step > 1
    requires Run(w, stages).0.Stopped?
    ensures var (n, reason) := (Run(w, stages).0.step, Run(w, stages).0.reason);
      var k := if n == 1 then 0 else 1;
      n == stages[k].step && Acks(w.rx, k) &&
      (reason == Nack <==> Available(w.rx) > k && Stream(w.rx)[k] == NACK) &&
      Run(w, stages).1.tx == w.tx + AllSent(stages[..k + 1])
  {
    RunRefused(w, stages);
    RunStops(w, stages);
  }

  lemma EraseFrames(pages: Pages)
    ensures Sound(EraseStages(pages)) <==> pages == Code(255) || PageBytes(pages).Encoded?
    ensures pages == Code(255) ==> AllSent(EraseStages(pages)) == [CMD_ERASE, 0xbc, 0xff, 0x00]
    ensures pages != Code(255) && Sound(EraseStages(pages)) ==>
      AllSent(EraseStages(pages)) == [CMD_ERASE, 0xbc] + Frame(PageBytes(pages).bytes, 0xff)
  {
    var stages := EraseStages(pages);
    assert !stages[0].payload.Broken?;
    OpcodeFrame(CMD_ERASE);
    if Sound(stages) {
      AllSent2(stages[0], stages[1]);
      OpcodeFrame(0xff);
    }
  }

  /** ERASE succeeds exactly when the pages are the mass-erase code 255 or a
      list that can be encoded, and the device acknowledges both steps; a
      mass erase sends 0x43 0xbc 0xff 0x00. */
  lemma EraseSucceeds(w: Wire, pages: Pages)
    ensures Erase(w, pages).0 == Done <==>
      (pages == Code(255) || PageBytes(pages).Encoded?) && Acks(w.rx, 2)
    ensures Erase(w, pages).0 == Done ==>
      var w' := Erase(w, pages).1;
      w'.tx == w.tx + AllSent(EraseStages(pages)) &&
      Stream(w'.rx) == Stream(w.rx)[2..] && w'.flushes == w.flushes && w'.lines == w.lines
  {
    var stages := EraseStages(pages);
    RunThrough(w, stages);
    EraseFrames(pages);
    if Run(w, stages).0 == Through {
      RunThroughWrites(w, stages);
      RunThroughConsumes(w, stages);
    }
  }

  /** ERASE raises what encoding the page list raises, after the opcode's ACK. */
  lemma EraseRaises(w: Wire, pages: Pages)
    requires Erase(w, pages).0.Raised?
    ensures pages != Code(255) && PageBytes(pages) == Unencodable(Erase(w, pages).0.error) && Acks(w.rx, 1)
  {
    RaisedAfterAcks(w, EraseStages(pages));
  }

  lemma EraseRefused(w: Wire, pages: Pages)
    requires Erase(w, pages).0.Failed?
    ensures var (n, reason) := (Erase(w, pages).0.step, Erase(w, pages).0.reason);
      var k := if n == 1 then 0 else 1;
      (n == 1 || n == (if pages == Code(255) then 2 else 3)) && Acks(w.rx, k) &&
      (reason == Nack <==> Available(w.rx) > k && Stream(w.rx)[k] == NACK) &&
      Erase(w, pages).1.tx == w.tx + AllSent(EraseStages(pages)[..k + 1])
  {
    TwoStepRefusal(w, EraseStages(pages));
  }

  /** Erasing everything: the code 0xffff with a zero-seeded checksum. */
  lemma FullEraseFrame()
    ensures Frame(BigEndian(0xffff, 2), 0x00) == [0xff, 0xff, 0x00]
  {
    assert BigEndian(0xffff, 2) == [0xff, 0xff];
    ChecksumIsXorAll([0xff, 0xff], 0x00);
    XorAllCons(0xff, [0xff]);
    XorAllCons(0xff, []);
    XorZero(0xff);
    Bits.XorBitsSelf(0xff, 8);
    XorComm(0x00, 0x00);
  }

  lemma ExtendedEraseFrames(pages: Pages)
    ensures Sound(ExtendedEraseStages(pages)) <==> PageWords(pages).Encoded?
    ensures Sound(ExtendedEraseStages(pages)) ==>
      AllSent(ExtendedEraseStages(pages)) == [CMD_EERASE, 0xbb] + Frame(PageWords(pages).bytes, 0x00)
    ensures pages == Code(0xffff) ==> AllSent(ExtendedEraseStages(pages)) == [CMD_EERASE, 0xbb, 0xff, 0xff, 0x00]
  {
    var stages := ExtendedEraseStages(pages);
    assert !stages[0].payload.Broken?;
    OpcodeFrame(CMD_EERASE);
    if Sound(stages) {
      AllSent2(stages[0], stages[1]);
    }
    if pages == Code(0xffff) {
      FullEraseFrame();
    }
  }

  /** EXTENDED_ERASE succeeds exactly when the pages can be encoded and the
      device acknowledges both steps; erasing everything (0xffff) sends
      0x44 0xbb 0xff 0xff 0x00. */
  lemma ExtendedEraseSucceeds(w: Wire, pages: Pages)
    ensures ExtendedErase(w, pages).0 == Done <==> PageWords(pages).Encoded? && Acks(w.rx, 2)
    ensures ExtendedErase(w, pages).0 == Done ==>
      var w' := ExtendedErase(w, pages).1;
      w'.tx == w.tx + AllSent(ExtendedEraseStages(pages)) &&
      Stream(w'.rx) == Stream(w.rx)[2..] && w'.flushes == w.flushes && w'.lines == w.lines
  {
    var stages := ExtendedEraseStages(pages);
    RunThrough(w, stages);
    ExtendedEraseFrames(pages);
    if Run(w, stages).0 == Through {
      RunThroughWrites(w, stages);
      RunThroughConsumes(w, stages);
    }
  }

  lemma ExtendedEraseRaises(w: Wire, pages: Pages)
    requires ExtendedErase(w, pages).0.Raised?
    ensures PageWords(pages) == Unencodable(ExtendedErase(w, pages).0.error) && Acks(w.rx, 1)
  {
    RaisedAfterAcks(w, ExtendedEraseStages(pages));
  }

  lemma ExtendedEraseRefused(w: Wire, pages: Pages)
    requires ExtendedErase(w, pages).0.Failed?
    ensures var (n, reason) := (ExtendedErase(w, pages).0.step, ExtendedErase(w, pages).0.reason);
      var k := if n == 1 then 0 else 1;
      (n == 1 || n == 3) && Acks(w.rx, k) &&
      (reason == Nack <==> Available(w.rx) > k && Stream(w.rx)[k] == NACK) &&
      ExtendedErase(w, pages).1.tx == w.tx + AllSent(ExtendedEraseStages(pages)[..k + 1])
  {
    TwoStepRefusal(w, ExtendedEraseStages(pages));
  }

  lemma WriteProtectFrames(pages: Pages)
    ensures Sound(WriteProtectStages(pages)) <==> PageBytes(pages).Encoded?
    ensures Sound(WriteProtectStages(pages)) ==>
      AllSent(WriteProtectStages(pages)) == [CMD_WRPROTECT, 0x9c] + Frame(PageBytes(pages).bytes, 0xff)
  {
    var stages := WriteProtectStages(pages);
    assert !stages[0].payload.Broken?;
    if Sound(stages) {
      AllSent2(stages[0], stages[1]);
      OpcodeFrame(CMD_WRPROTECT);
    }
  }

  /** WRITE_PROTECT succeeds exactly when the page list can be encoded and
      the device acknowledges both steps. */
  lemma WriteProtectSucceeds(w: Wire, pages: Pages)
    ensures WriteProtect(w, pages).0 == Done <==> PageBytes(pages).Encoded? && Acks(w.rx, 2)
    ensures WriteProtect(w, pages).0 == Done ==>
      var w' := WriteProtect(w, pages).1;
      w'.tx == w.tx + AllSent(WriteProtectStages(pages)) &&
      Stream(w'.rx) == Stream(w.rx)[2..] && w'.flushes == w.flushes && w'.lines == w.lines
  {
    var stages := WriteProtectStages(pages);
    RunThrough(w, stages);
    WriteProtectFrames(pages);
    if Run(w, stages).0 == Through {
      RunThroughWrites(w, stages);
      RunThroughConsumes(w, stages);
    }
  }

  lemma WriteProtectRaises(w: Wire, pages: Pages)
    requires WriteProtect(w, pages).0.Raised?
    ensures PageBytes(pages) == Unencodable(WriteProtect(w, pages).0.error) && Acks(w.rx, 1)
  {
    RaisedAfterAcks(w, WriteProtectStages(pages));
  }

  lemma WriteProtectRefused(w: Wire, pages: Pages)
    requires WriteProtect(w, pages).0.Failed?
    ensures var (n, reason) := (WriteProtect(w, pages).0.step, WriteProtect(w, pages).0.reason);
      var k := if n == 1 then 0 else 1;
      (n == 1 || n == 3) && Acks(w.rx, k) &&
      (reason == Nack <==> Available(w.rx) > k && Stream(w.rx)[k] == NACK) &&
      WriteProtect(w, pages).1.tx == w.tx + AllSent(WriteProtectStages(pages)[..k + 1])
  {
    TwoStepRefusal(w, WriteProtectStages(pages));
  }

  /** WRITE_UNPROTECT never raises; it succeeds exactly when the device
      sends two ACKs, and sends only its opcode frame. */
  lemma WriteUnprotectSucceeds(w: Wire)
    ensures !WriteUnprotect(w).0.Raised?
    ensures WriteUnprotect(w).0 == Done <==> Acks(w.rx, 2)
    ensures WriteUnprotect(w).0 == Done ==>
      var w' := WriteUnprotect(w).1;
      w'.tx == w.tx + [CMD_WRUNPROTECT, 0x8c] &&
      Stream(w'.rx) == Stream(w.rx)[2..] && w'.flushes == w.flushes && w'.lines == w.lines
  {
    var stages := WriteUnprotectStages();
    assert Sound(stages);
    RunThrough(w, stages);
    if Run(w, stages).0 == Through {
      RunThroughWrites(w, stages);
      RunThroughConsumes(w, stages);
      AllSent2(stages[0], stages[1]);
      OpcodeFrame(CMD_WRUNPROTECT);
      assert [CMD_WRUNPROTECT, 0x8c] + [] == [CMD_WRUNPROTECT, 0x8c];
    }
  }

  lemma WriteUnprotectRefused(w: Wire)
    requires WriteUnprotect(w).0.Failed?
    ensures var (n, reason) := (WriteUnprotect(w).0.step, WriteUnprotect(w).0.reason);
      var k := if n == 1 then 0 else 1;
      (n == 1 || n == 3) && Acks(w.rx, k) &&
      (reason == Nack <==> Available(w.rx) > k && Stream(w.rx)[k] == NACK) &&
      WriteUnprotect(w).1.tx == w.tx + [CMD_WRUNPROTECT, 0x8c]
  {
    var stages := WriteUnprotectStages();
    TwoStepRefusal(w, stages);
    OpcodeFrame(CMD_WRUNPROTECT);
    assert stages[..1] == [stages[0]];
    assert AllSent([stages[0]]) == Sent(stages[0].payload) + AllSent([]);
    assert stages[..2] == stages;
    AllSent2(stages[0], stages[1]);
  }
}
