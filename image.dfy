/** The sparse memory image the flasher writes: a map from address to byte,
    with the `minaddr`, `maxaddr`, slice, `del` slice and `tobinstr`
    operations the write loop uses, and the order in which that loop cuts the
    image into chunks of at most 256 bytes. */
module Images {

  import opened Frames

  /** An `IntelHex` object: the bytes it holds, by address. */
  type Image = map<int, byte>

  lemma EmptyIfNoMember(s: set<int>)
    requires forall x :: x !in s
    ensures s == {}
  {
    var e: set<int> := {};
    assert forall x :: x in s <==> x in e;
  }

  /** A set is empty or has a member (what choosing from it needs). */
  lemma EmptyOrMember(s: set<int>)
    ensures s == {} || exists x :: x in s
  {
    if forall x :: x !in s {
      EmptyIfNoMember(s);
    }
  }

  /** A non-empty set of addresses has a lowest one. */
  lemma {:induction false} LowestOf(s: set<int>) returns (m: int)
    requires s != {}
    ensures m in s && forall k | k in s :: m <= k
    decreases s
  {
    EmptyOrMember(s);
    var x :| x in s;
    m := x;
    if s != {x} {
      var y := LowestOf(s - {x});
      assert forall k | k in s :: k == x || k in s - {x};
      if y < x {
        m := y;
      }
    }
  }

  /** A non-empty set of addresses has a highest one. */
  lemma {:induction false} HighestOf(s: set<int>) returns (m: int)
    requires s != {}
    ensures m in s && forall k | k in s :: k <= m
    decreases s
  {
    EmptyOrMember(s);
    var x :| x in s;
    m := x;
    if s != {x} {
      var y := HighestOf(s - {x});
      assert forall k | k in s :: k == x || k in s - {x};
      if y > x {
        m := y;
      }
    }
  }

  lemma HasMin(s: set<int>)
    requires s != {}
    ensures exists m :: m in s && forall k | k in s :: m <= k
  {
    var m := LowestOf(s);
  }

  lemma HasMax(s: set<int>)
    requires s != {}
    ensures exists m :: m in s && forall k | k in s :: k <= m
  {
    var m := HighestOf(s);
  }

  /** `minaddr()` of a non-empty image. */
  ghost function MinKey(s: set<int>): (m: int)
    requires s != {}
    ensures m in s && forall k | k in s :: m <= k
  {
    HasMin(s);
    var m :| m in s && forall k | k in s :: m <= k;
    m
  }

  /** `maxaddr()` of a non-empty image. */
  ghost function MaxKey(s: set<int>): (m: int)
    requires s != {}
    ensures m in s && forall k | k in s :: k <= m
  {
    HasMax(s);
    var m :| m in s && forall k | k in s :: k <= m;
    m
  }

  /** `img[lo:hi]`: the bytes held at addresses in `[lo, hi)`. */
  function Slice(img: Image, lo: int, hi: int): (part: Image)
    ensures forall a :: a in part <==> a in img && lo <= a < hi
  {
    map a | a in img && lo <= a < hi :: img[a]
  }

  /** `del img[lo:hi]`: the image without the addresses in `[lo, hi)`. */
  function Without(img: Image, lo: int, hi: int): (rest: Image)
    ensures forall a :: a in rest <==> a in img && !(lo <= a < hi)
  {
    map a | a in img && !(lo <= a < hi) :: img[a]
  }

  /** `tobinstr()` of an image whose lowest and highest addresses are `lo`
      and `hi`: every byte from `lo` to `hi`, gaps padded with 0xFF. */
  function ToBin(img: Image, lo: int, hi: int): (s: seq<byte>)
    requires lo <= hi
    ensures |s| == hi - lo + 1
    ensures forall i | 0 <= i < |s| :: s[i] == if lo + i in img then img[lo + i] else 0xff
  {
    seq(hi - lo + 1, i requires 0 <= i <= hi - lo => if lo + i in img then img[lo + i] else 0xff)
  }

  /** The chunk one pass of the write loop takes from a non-empty pending
      image: its lowest address and the bytes held in the 256 addresses from
      there, up to the highest one held, gaps padded. */
  ghost function Chunk(img: Image): (c: (int, seq<byte>))
    requires img != map[]
    ensures c.0 == MinKey(img.Keys) && 1 <= |c.1| <= 256
  {
    var lo := MinKey(img.Keys);
    var part := Slice(img, lo, lo + 256);
    assert lo in part;
    (lo, ToBin(part, lo, MaxKey(part.Keys)))
  }

  /** What the pending image is after that pass deletes the chunk's range. */
  ghost function Rest(img: Image): Image
    requires img != map[]
  {
    var lo := MinKey(img.Keys);
    Without(img, lo, lo + 256)
  }

  /** `min(keys)`: a scan that keeps the lowest key seen so far. */
  method Lowest(keys: set<int>) returns (m: int)
    requires keys != {}
    ensures m == MinKey(keys)
  {
    EmptyOrMember(keys);
    var x :| x in keys;
    m := x;
    var rest := keys - {x};
    while rest != {}
      invariant rest <= keys && m in keys
      invariant forall k | k in keys && k !in rest :: m <= k
      decreases |rest|
    {
      EmptyOrMember(rest);
      var y :| y in rest;
      if y < m {
        m := y;
      }
      rest := rest - {y};
    }
    assert m <= MinKey(keys) && MinKey(keys) <= m;
  }

  /** `max(keys)`: a scan that keeps the highest key seen so far. */
  method Highest(keys: set<int>) returns (m: int)
    requires keys != {}
    ensures m == MaxKey(keys)
  {
    EmptyOrMember(keys);
    var x :| x in keys;
    m := x;
    var rest := keys - {x};
    while rest != {}
      invariant rest <= keys && m in keys
      invariant forall k | k in keys && k !in rest :: k <= m
      decreases |rest|
    {
      EmptyOrMember(rest);
      var y :| y in rest;
      if y > m {
        m := y;
      }
      rest := rest - {y};
    }
    assert m <= MaxKey(keys) && MaxKey(keys) <= m;
  }

  /** One pass of the write loop cutting its chunk: the lowest pending
      address, the bytes of the pending image from there up to the highest
      address below 256 further on, and the pending image without them. */
  method NextChunk(pending: Image) returns (lo: int, data: seq<byte>, rest: Image)
    requires pending != map[]
    ensures (lo, data) == Chunk(pending) && rest == Rest(pending)
  {
    lo := Lowest(pending.Keys);
    var part := Slice(pending, lo, lo + 256);
    assert lo in part;
    var hi := Highest(part.Keys);
    data := ToBin(part, lo, hi);
    rest := Without(pending, lo, lo + 256);
  }

  lemma {:induction false} SubsetSize(a: set<int>, b: set<int>)
    requires a <= b
    ensures |a| <= |b|
    decreases b
  {
    if a != {} {
      EmptyOrMember(a);
      var x :| x in a;
      SubsetSize(a - {x}, b - {x});
    }
  }

  /** Each pass removes at least the lowest address, so the loop ends. */
  lemma RestShrinks(img: Image)
    requires img != map[]
    ensures |Rest(img).Keys| < |img.Keys|
  {
    var lo := MinKey(img.Keys);
    SubsetSize(Rest(img).Keys, img.Keys - {lo});
  }

  /** The chunks the write loop writes, in order, when it runs until the
      pending image is empty. */
  ghost function Schedule(img: Image): seq<(int, seq<byte>)>
    decreases |img.Keys|
  {
    if img == map[] then []
    else
      RestShrinks(img);
      [Chunk(img)] + Schedule(Rest(img))
  }

  /** The chunks written by the loop as it stands, which runs only while
      `minaddr() < maxaddr()`, that is while at least two addresses are
      pending. */
  ghost function ScheduleAsWritten(img: Image): seq<(int, seq<byte>)>
    decreases |img.Keys|
  {
    if img != map[] && MinKey(img.Keys) < MaxKey(img.Keys) then
      RestShrinks(img);
      [Chunk(img)] + ScheduleAsWritten(Rest(img))
    else []
  }

  /** What one pass takes and leaves: the chunk holds the image's bytes from
      its lowest address on, 0xFF in gaps; every address of the image is
      inside the chunk or at least 256 past its start; the rest is the image
      from there on. */
  lemma ChunkShape(img: Image)
    requires img != map[]
    ensures forall i | 0 <= i < |Chunk(img).1| ::
      Chunk(img).1[i] == if Chunk(img).0 + i in img then img[Chunk(img).0 + i] else 0xff
    ensures forall a | a in img ::
      Chunk(img).0 <= a && (a < Chunk(img).0 + |Chunk(img).1| || a >= Chunk(img).0 + 256)
    ensures forall a :: a in Rest(img) <==> a in img && a >= Chunk(img).0 + 256
    ensures forall a | a in Rest(img) :: Rest(img)[a] == img[a]
  {
    var lo := MinKey(img.Keys);
    var part := Slice(img, lo, lo + 256);
    assert lo in part;
    var hi := MaxKey(part.Keys);
    assert Chunk(img) == (lo, ToBin(part, lo, hi));
  }

  /** The byte a run of chunks writes at address `a`, if any does. */
  function WrittenAt(s: seq<(int, seq<byte>)>, a: int): Option<byte>
  {
    if s == [] then None
    else if s[0].0 <= a < s[0].0 + |s[0].1| then Some(s[0].1[a - s[0].0])
    else WrittenAt(s[1..], a)
  }

  /** The schedule of a non-empty image starts with its chunk. */
  lemma ScheduleCons(img: Image)
    requires img != map[]
    ensures Schedule(img) == [Chunk(img)] + Schedule(Rest(img))
  {
  }

  /** The byte a run of chunks writes, read off its first chunk. */
  lemma WrittenAtCons(c: (int, seq<byte>), t: seq<(int, seq<byte>)>, a: int)
    ensures c.0 <= a < c.0 + |c.1| ==> WrittenAt([c] + t, a) == Some(c.1[a - c.0])
    ensures !(c.0 <= a < c.0 + |c.1|) ==> WrittenAt([c] + t, a) == WrittenAt(t, a)
  {
    assert ([c] + t)[0] == c && ([c] + t)[1..] == t;
  }

  /** Address `a` in a non-empty image's chunk holds the image's byte there
      (0xFF in a gap); outside the chunk, the rest holds what the image does. */
  lemma ChunkAt(img: Image, a: int)
    requires img != map[]
    ensures Chunk(img).0 <= a < Chunk(img).0 + |Chunk(img).1| ==>
      Chunk(img).1[a - Chunk(img).0] == if a in img then img[a] else 0xff
    ensures !(Chunk(img).0 <= a < Chunk(img).0 + |Chunk(img).1|) ==>
      (a in Rest(img) <==> a in img) && (a in img ==> Rest(img)[a] == img[a])
  {
    ChunkShape(img);
  }

  /** One pass of the induction behind `ScheduleWrites`, over plain values:
      if the rest's chunks `t` write the rest `r` correctly at `a`, then the
      chunk `c` followed by `t` writes the image correctly at `a`. */
  lemma WritesStep(img: Image, r: Image, c: (int, seq<byte>), t: seq<(int, seq<byte>)>, a: int)
    requires c.0 <= a < c.0 + |c.1| ==> c.1[a - c.0] == if a in img then img[a] else 0xff
    requires !(c.0 <= a < c.0 + |c.1|) ==> (a in r <==> a in img) && (a in img ==> r[a] == img[a])
    requires a in r ==> WrittenAt(t, a) == Some(r[a])
    requires a !in r && WrittenAt(t, a).Some? ==> WrittenAt(t, a).value == 0xff
    ensures a in img ==> WrittenAt([c] + t, a) == Some(img[a])
    ensures a !in img && WrittenAt([c] + t, a).Some? ==> WrittenAt([c] + t, a).value == 0xff
  {
    WrittenAtCons(c, t, a);
  }

  /** The chunks write every byte of the image at its own address, and
      nothing but 0xFF anywhere else. */
  lemma {:induction false} ScheduleWrites(img: Image, a: int)
    ensures a in img ==> WrittenAt(Schedule(img), a) == Some(img[a])
    ensures a !in img && WrittenAt(Schedule(img), a).Some? ==> WrittenAt(Schedule(img), a).value == 0xff
    decreases |img.Keys|
  {
    if img != map[] {
      ScheduleCons(img);
      ChunkAt(img, a);
      RestShrinks(img);
      ScheduleWrites(Rest(img), a);
      WritesStep(img, Rest(img), Chunk(img), Schedule(Rest(img)), a);
    }
  }

  /** Chunks are 1 to 256 bytes long, in increasing address order, and do
      not overlap. */
  lemma {:induction false} ScheduleChunks(img: Image)
    ensures forall i | 0 <= i < |Schedule(img)| :: 1 <= |Schedule(img)[i].1| <= 256
    ensures forall i | 0 <= i < |Schedule(img)| - 1 ::
      Schedule(img)[i].0 + |Schedule(img)[i].1| <= Schedule(img)[i + 1].0
    decreases |img.Keys|
  {
    if img != map[] {
      var s := Schedule(img);
      var r := Rest(img);
      RestShrinks(img);
      ScheduleChunks(r);
      assert s == [Chunk(img)] + Schedule(r);
      if r != map[] {
        var lo := MinKey(img.Keys);
        assert MinKey(r.Keys) in img && MinKey(r.Keys) >= lo + 256;
        assert Schedule(r)[0] == Chunk(r);
      }
    }
  }

  /** `t` is `s` without its last chunk, and that chunk is a single byte. */
  predicate LoneLastDropped(s: seq<(int, seq<byte>)>, t: seq<(int, seq<byte>)>)
  {
    s != [] && t == s[..|s| - 1] && |s[|s| - 1].1| == 1
  }

  /** While two or more addresses are pending, the loop as it stands takes
      the same chunk as the corrected one. */
  lemma AsWrittenCons(img: Image)
    requires img != map[] && MinKey(img.Keys) < MaxKey(img.Keys)
    ensures ScheduleAsWritten(img) == [Chunk(img)] + ScheduleAsWritten(Rest(img))
  {
  }

  /** With a single address pending, the corrected loop writes it as a
      one-byte chunk, which the loop as it stands skips. */
  lemma LoneAddress(img: Image)
    requires img != map[] && !(MinKey(img.Keys) < MaxKey(img.Keys))
    ensures Schedule(img) == [Chunk(img)] && |Chunk(img).1| == 1
    ensures ScheduleAsWritten(img) == []
  {
    var lo := MinKey(img.Keys);
    assert img.Keys == {lo};
    assert Rest(img) == map[];
    var part := Slice(img, lo, lo + 256);
    assert part.Keys == {lo};
    assert MaxKey(part.Keys) == lo;
  }

  /** Prepending a chunk to both schedules keeps them equal or keeps the
      second the first without its lone last chunk. */
  lemma DropsStep(c: (int, seq<byte>), s: seq<(int, seq<byte>)>, t: seq<(int, seq<byte>)>)
    requires t == s || LoneLastDropped(s, t)
    ensures [c] + t == [c] + s || LoneLastDropped([c] + s, [c] + t)
  {
    if t != s {
      assert ([c] + s)[..|s|] == [c] + s[..|s| - 1];
      assert ([c] + s)[|s|] == s[|s| - 1];
    }
  }

  /** Which chunks the loop as it stands writes: all of them, or all but the
      last when that last one is a single byte. */
  lemma {:induction false} AsWrittenDropsLoneLast(img: Image)
    ensures ScheduleAsWritten(img) == Schedule(img) || LoneLastDropped(Schedule(img), ScheduleAsWritten(img))
    decreases |img.Keys|
  {
    if img != map[] {
      if MinKey(img.Keys) < MaxKey(img.Keys) {
        RestShrinks(img);
        AsWrittenDropsLoneLast(Rest(img));
        ScheduleCons(img);
        AsWrittenCons(img);
        DropsStep(Chunk(img), Schedule(Rest(img)), ScheduleAsWritten(Rest(img)));
      } else {
        LoneAddress(img);
        assert LoneLastDropped([Chunk(img)], []);
      }
    }
  }

  /** The condition of the write loop as it stands, `minaddr() < maxaddr()`:
      false on an empty image, where both are `None`. */
  method MorePending(pending: Image) returns (more: bool)
    ensures more <==> pending != map[] && MinKey(pending.Keys) < MaxKey(pending.Keys)
  {
    if pending == map[] {
      return false;
    }
    var lo := Lowest(pending.Keys);
    var hi := Highest(pending.Keys);
    more := lo < hi;
  }

  /** What a prefix of a run of chunks writes at `a`, the whole run writes
      there too. */
  lemma {:induction false} WrittenAtPrefix(s: seq<(int, seq<byte>)>, n: nat, a: int)
    requires n <= |s|
    ensures WrittenAt(s[..n], a).Some? ==> WrittenAt(s[..n], a) == WrittenAt(s, a)
    decreases n
  {
    if n > 0 {
      assert s[..n][0] == s[0] && s[..n][1..] == s[1..][..n - 1];
      WrittenAtPrefix(s[1..], n - 1, a);
    }
  }

  /** Dropping the last chunk changes nothing at addresses outside it. */
  lemma {:induction false} WrittenAtDropLast(s: seq<(int, seq<byte>)>, a: int)
    requires s != [] && !(s[|s| - 1].0 <= a < s[|s| - 1].0 + |s[|s| - 1].1|)
    ensures WrittenAt(s[..|s| - 1], a) == WrittenAt(s, a)
    decreases |s|
  {
    if |s| > 1 {
      assert s[..|s| - 1][0] == s[0] && s[..|s| - 1][1..] == s[1..][..|s[1..]| - 1];
      WrittenAtDropLast(s[1..], a);
    }
  }

  /** The loop as it stands writes every byte of the image at its own
      address, except the byte of a lone last chunk it drops, and nothing
      but 0xFF anywhere else. */
  lemma AsWrittenWrites(img: Image, a: int)
    ensures a in img ==>
      WrittenAt(ScheduleAsWritten(img), a) == Some(img[a]) ||
      (LoneLastDropped(Schedule(img), ScheduleAsWritten(img)) && a == Schedule(img)[|Schedule(img)| - 1].0)
    ensures a !in img && WrittenAt(ScheduleAsWritten(img), a).Some? ==> WrittenAt(ScheduleAsWritten(img), a).value == 0xff
  {
    var s := Schedule(img);
    AsWrittenDropsLoneLast(img);
    ScheduleWrites(img, a);
    if ScheduleAsWritten(img) != s {
      WrittenAtPrefix(s, |s| - 1, a);
      if a != s[|s| - 1].0 {
        WrittenAtDropLast(s, a);
      }
    }
  }

  /** The loop as it stands never writes an image of one byte. */
  lemma LoneByteNeverWritten(b: byte)
    ensures ScheduleAsWritten(map[0 := b]) == []
    ensures Schedule(map[0 := b]) == [(0, [b])]
  {
    var img := map[0 := b];
    assert img.Keys == {0};
    assert MinKey(img.Keys) == 0 && MaxKey(img.Keys) == 0;
    var part := Slice(img, 0, 256);
    assert part == img;
    assert ToBin(img, 0, 0) == [b];
    assert Rest(img) == map[];
    assert Chunk(img) == (0, [b]);
  }
}
