/**
 * Finding the samples of a WAV file (nb-tts.ts): the walk over RIFF chunks, after
 * chapter 2 of "Multimedia Programming Interface and Data Specifications 1.0".
 */
module WavHeader {
  import opened Wrappers

  type Byte = b: int | 0 <= b < 256

  const DATA: seq<int> := [0x64, 0x61, 0x74, 0x61]

  function ReadUInt32(s: seq<Byte>, i: nat): nat
    requires i + 4 <= |s|
  {
    var a: int, b: int, c: int, d: int := s[i], s[i+1], s[i+2], s[i+3];
    a + 0x100 * b + 0x1_0000 * c + 0x100_0000 * d
  }

  /** Four characters as the ASCII decoder gives them: the top bit of each byte is dropped. */
  function Ascii(s: seq<Byte>, i: nat): seq<int>
    requires i + 4 <= |s|
  { [s[i] % 128, s[i+1] % 128, s[i+2] % 128, s[i+3] % 128] }

  /** The bounds `subarray` clamps to the buffer. */
  function Strip(s: seq<Byte>, offset: nat): (r: seq<Byte>)
    ensures r == s || exists i, j :: 0 <= i <= j <= |s| && r == s[i..j]
    decreases |s| - offset
  {
    if offset + 8 > |s| then s
    else
      var size := ReadUInt32(s, offset + 4);
      if Ascii(s, offset) == DATA then s[offset + 8..Min(offset + 8 + size, |s|)]
      else Strip(s, offset + 8 + size + size % 2)
  }

  method StripWavHeader(buffer: array<Byte>) returns (r: seq<Byte>)
    ensures r == Strip(buffer[..], 12)
  {
    hide Ascii, ReadUInt32, Strip;
    var offset := 12;
    while offset + 8 <= buffer.Length
      invariant Strip(buffer[..], 12) == Strip(buffer[..], offset)
      decreases buffer.Length - offset
    {
      var id := Ascii(buffer[..], offset);
      var size := ReadUInt32(buffer[..], offset + 4);
      StripStep(buffer[..], offset);
      if id == DATA { return buffer[..][offset + 8..Min(offset + 8 + size, buffer.Length)]; }
      offset := offset + 8 + size + size % 2;
    }
    StripStep(buffer[..], offset);
    return buffer[..];
  }

  lemma {:induction false} StripStep(s: seq<Byte>, offset: nat)
    ensures Strip(s, offset) ==
            if offset + 8 > |s| then s
            else
              var size := ReadUInt32(s, offset + 4);
              if Ascii(s, offset) == DATA then s[offset + 8..Min(offset + 8 + size, |s|)]
              else Strip(s, offset + 8 + size + size % 2)
  {
    hide Ascii, ReadUInt32;
  }

  // ----- files

  datatype Chunk = Chunk(id: seq<Byte>, body: seq<Byte>)
  {
    predicate Valid() { |id| == 4 && |body| < 0x1_0000_0000 }

    predicate ReadsAsData()
      requires Valid()
    { Ascii(id, 0) == DATA }
  }

  function UInt32(n: nat): seq<Byte>
    requires n < 0x1_0000_0000
  { [n % 0x100, n / 0x100 % 0x100, n / 0x100 / 0x100 % 0x100, n / 0x100 / 0x100 / 0x100] }

  /** One byte after an odd body. */
  function Padding(c: Chunk, pad: Byte): seq<Byte> { if |c.body| % 2 == 1 then [pad] else [] }

  /** A chunk as it is written: id, size, body, and a byte of padding after an odd body. */
  function Written(c: Chunk, pad: Byte): seq<Byte>
    requires c.Valid()
  { c.id + UInt32(|c.body|) + c.body + Padding(c, pad) }

  function AllWritten(cs: seq<Chunk>, pad: Byte): seq<Byte>
    requires forall c :: c in cs ==> c.Valid()
  { if cs == [] then [] else Written(cs[0], pad) + AllWritten(cs[1..], pad) }

  lemma {:induction false} Digits256(n: nat)
    requires n < 0x1_0000_0000
    ensures n == n % 0x100 + 0x100 * (n / 0x100 % 0x100) + 0x1_0000 * (n / 0x100 / 0x100 % 0x100)
                 + 0x100_0000 * (n / 0x100 / 0x100 / 0x100)
  {
    var q := n / 0x100;
    var r := q / 0x100;
    assert n == n % 0x100 + 0x100 * q && q == q % 0x100 + 0x100 * r && r == r % 0x100 + 0x100 * (r / 0x100);
  }

  lemma {:induction false} UInt32RoundTrip(n: nat, before: seq<Byte>, after: seq<Byte>)
    requires n < 0x1_0000_0000
    ensures ReadUInt32(before + UInt32(n) + after, |before|) == n
  {
    hide UInt32;
    Digits256(n);
    var s, k := before + UInt32(n) + after, |before|;
    UInt32Bytes(n);
    assert s[k] == UInt32(n)[0] && s[k+1] == UInt32(n)[1] && s[k+2] == UInt32(n)[2] && s[k+3] == UInt32(n)[3];
  }

  lemma {:induction false} UInt32Bytes(n: nat)
    requires n < 0x1_0000_0000
    ensures |UInt32(n)| == 4 && UInt32(n)[0] == n % 0x100 && UInt32(n)[1] == n / 0x100 % 0x100
    ensures UInt32(n)[2] == n / 0x100 / 0x100 % 0x100 && UInt32(n)[3] == n / 0x100 / 0x100 / 0x100
  {}

  /** What the walk reads at the start of a written chunk. */
  lemma {:induction false} ChunkAt(before: seq<Byte>, c: Chunk, pad: Byte, after: seq<Byte>)
    requires c.Valid()
    ensures var s := before + Written(c, pad) + after;
            |before| + 8 + |c.body| <= |s| && Ascii(s, |before|) == Ascii(c.id, 0)
              && ReadUInt32(s, |before| + 4) == |c.body|
    ensures var s := before + Written(c, pad) + after; s[|before| + 8..|before| + 8 + |c.body|] == c.body
  {
    hide UInt32, ReadUInt32, Ascii;
    UInt32Bytes(|c.body|);
    var s := before + Written(c, pad) + after;
    var rest := c.body + (Padding(c, pad) + after);
    PartsOf(before, c.id, UInt32(|c.body|), c.body, Padding(c, pad), after);
    UInt32RoundTrip(|c.body|, before + c.id, rest);
    SameId(s, before, c.id, UInt32(|c.body|) + rest);
  }

  lemma {:induction false} PartsOf(before: seq<Byte>, id: seq<Byte>, size: seq<Byte>, body: seq<Byte>,
                                   padding: seq<Byte>, after: seq<Byte>)
    ensures before + (id + size + body + padding) + after == (before + id) + size + (body + (padding + after))
    ensures before + (id + size + body + padding) + after == before + id + (size + (body + (padding + after)))
    ensures var k := |before + id + size|;
            (before + (id + size + body + padding) + after)[k..k + |body|] == body
  {}

  lemma {:induction false} SameId(s: seq<Byte>, before: seq<Byte>, id: seq<Byte>, rest: seq<Byte>)
    requires |id| == 4 && s == before + id + rest
    ensures Ascii(s, |before|) == Ascii(id, 0)
  {
    assert forall i :: 0 <= i < 4 ==> s[|before| + i] == id[i];
  }

  lemma {:induction false} WalkOverOne(before: seq<Byte>, c: Chunk, pad: Byte, after: seq<Byte>)
    requires c.Valid() && !c.ReadsAsData()
    ensures var s := before + Written(c, pad) + after; Strip(s, |before|) == Strip(s, |before| + |Written(c, pad)|)
  {
    hide Ascii, ReadUInt32, Strip;
    ChunkAt(before, c, pad, after);
    StripStep(before + Written(c, pad) + after, |before|);
    assert |Written(c, pad)| == 8 + |c.body| + |c.body| % 2;
  }

  /** Chunks that do not read as `data` are walked over. */
  lemma {:induction false} WalkOver(before: seq<Byte>, cs: seq<Chunk>, pad: Byte, after: seq<Byte>)
    requires forall c :: c in cs ==> c.Valid() && !c.ReadsAsData()
    ensures var s := before + AllWritten(cs, pad) + after;
            Strip(s, |before|) == Strip(s, |before| + |AllWritten(cs, pad)|)
    decreases |cs|
  {
    hide Strip, Written;
    if cs != [] {
      var w, rest := Written(cs[0], pad), AllWritten(cs[1..], pad);
      Regroup(before, w, rest, after);
      WalkOverOne(before, cs[0], pad, rest + after);
      WalkOver(before + w, cs[1..], pad, after);
    }
  }

  lemma {:induction false} Regroup(before: seq<Byte>, w: seq<Byte>, rest: seq<Byte>, after: seq<Byte>)
    ensures before + (w + rest) + after == before + w + (rest + after)
    ensures before + w + (rest + after) == (before + w) + rest + after
  {}

  /** For any header, any chunks before it and anything after it, exactly the body of the `data` chunk is returned. */
  lemma {:induction false} FindsData(header: seq<Byte>, cs: seq<Chunk>, data: Chunk, pad: Byte, trailing: seq<Byte>)
    requires |header| == 12 && (forall c :: c in cs ==> c.Valid() && !c.ReadsAsData())
    requires data.Valid() && data.ReadsAsData()
    ensures Strip(header + AllWritten(cs, pad) + (Written(data, pad) + trailing), 12) == data.body
  {
    hide Ascii, ReadUInt32, Written;
    var s := header + AllWritten(cs, pad) + (Written(data, pad) + trailing);
    WalkOver(header, cs, pad, Written(data, pad) + trailing);
    var before := header + AllWritten(cs, pad);
    assert s == before + Written(data, pad) + trailing;
    ChunkAt(before, data, pad, trailing);
  }

  /** The position of the first chunk that reads as `data`, or the number of chunks. */
  function FirstRead(cs: seq<Chunk>): (k: nat)
    requires forall c :: c in cs ==> c.Valid()
    ensures k <= |cs| && (k < |cs| ==> cs[k].ReadsAsData())
    ensures forall j :: 0 <= j < k ==> !cs[j].ReadsAsData()
  { if cs == [] || cs[0].ReadsAsData() then 0 else 1 + FirstRead(cs[1..]) }

  lemma {:induction false} AllWrittenSplit(cs: seq<Chunk>, k: nat, pad: Byte)
    requires k < |cs| && forall c :: c in cs ==> c.Valid()
    ensures AllWritten(cs, pad) == AllWritten(cs[..k], pad) + (Written(cs[k], pad) + AllWritten(cs[k+1..], pad))
  {
    hide Written;
    if k > 0 {
      AllWrittenSplit(cs[1..], k - 1, pad);
      assert cs[..k][1..] == cs[1..][..k-1] && cs[1..][k..] == cs[k+1..];
    }
  }

  /** On any list of chunks, the walk returns the body of the first one that reads as `data`. */
  lemma {:induction false} FirstReadWins(header: seq<Byte>, cs: seq<Chunk>, pad: Byte, trailing: seq<Byte>)
    requires |header| == 12 && (forall c :: c in cs ==> c.Valid()) && FirstRead(cs) < |cs|
    ensures Strip(header + AllWritten(cs, pad) + trailing, 12) == cs[FirstRead(cs)].body
  {
    hide Strip, Written, AllWritten, Ascii;
    var k := FirstRead(cs);
    AllWrittenSplit(cs, k, pad);
    var rest := AllWritten(cs[k+1..], pad) + trailing;
    assert header + AllWritten(cs, pad) + trailing == header + AllWritten(cs[..k], pad) + (Written(cs[k], pad) + rest);
    forall c | c in cs[..k] ensures c.Valid() && !c.ReadsAsData() {
      var j :| 0 <= j < k && cs[..k][j] == c;
    }
    FindsData(header, cs[..k], cs[k], pad, rest);
  }

  /**
   * The samples are the body of the first chunk named `data`. The walk returns them exactly
   * when no chunk before it, with another body, has an id that reads as `data` without its top bits.
   */
  lemma {:induction false} SamplesFoundIff(header: seq<Byte>, cs: seq<Chunk>, n: nat, pad: Byte, trailing: seq<Byte>)
    requires |header| == 12 && (forall c :: c in cs ==> c.Valid())
    requires n < |cs| && cs[n].id == DATA && forall j :: 0 <= j < n ==> cs[j].id != DATA
    ensures Strip(header + AllWritten(cs, pad) + trailing, 12) == cs[n].body
            <==> FirstRead(cs) == n || cs[FirstRead(cs)].body == cs[n].body
  {
    hide Strip, AllWritten;
    assert cs[n].ReadsAsData() by { PlainIdReadsAsData(); }
    FirstReadWins(header, cs, pad, trailing);
  }

  lemma {:induction false} PlainIdReadsAsData()
    ensures Ascii(DATA, 0) == DATA
  {}

  /** It does not on a file with a chunk named E4 61 74 61 before the samples. */
  lemma {:induction false} HighBitsReadAsData(header: seq<Byte>, fake: seq<Byte>, samples: seq<Byte>, pad: Byte)
    requires |header| == 12 && |fake| < 0x1_0000_0000 && |samples| < 0x1_0000_0000 && fake != samples
    ensures var cs := [Chunk([0xE4, 0x61, 0x74, 0x61], fake), Chunk(DATA, samples)];
            cs[0].id != DATA && Strip(header + AllWritten(cs, pad), 12) == fake != samples
  {
    hide Strip, AllWritten;
    var cs := [Chunk([0xE4, 0x61, 0x74, 0x61], fake), Chunk(DATA, samples)];
    assert cs[0].ReadsAsData();
    FirstReadWins(header, cs, pad, []);
    assert header + AllWritten(cs, pad) + [] == header + AllWritten(cs, pad);
  }

  /** With no chunk that reads as `data` and no room for another, the whole buffer is returned. */
  lemma {:induction false} NothingReads(header: seq<Byte>, cs: seq<Chunk>, pad: Byte, trailing: seq<Byte>)
    requires |header| == 12 && |trailing| < 8 && forall c :: c in cs ==> c.Valid() && !c.ReadsAsData()
    ensures Strip(header + AllWritten(cs, pad) + trailing, 12) == header + AllWritten(cs, pad) + trailing
  {
    hide Ascii, ReadUInt32, Written, AllWritten, Strip;
    WalkOver(header, cs, pad, trailing);
    StripStep(header + AllWritten(cs, pad) + trailing, |header + AllWritten(cs, pad)|);
  }

  /** When the buffer ends before the `data` chunk does, what there is of it is returned. */
  lemma {:induction false} CutShort(header: seq<Byte>, cs: seq<Chunk>, pad: Byte, size: nat, part: seq<Byte>)
    requires |header| == 12 && (forall c :: c in cs ==> c.Valid() && !c.ReadsAsData())
    requires |part| <= size < 0x1_0000_0000
    ensures Strip(header + AllWritten(cs, pad) + (DATA + UInt32(size) + part), 12) == part
  {
    hide Ascii, ReadUInt32, Written, AllWritten, Strip, UInt32;
    var before, tail := header + AllWritten(cs, pad), DATA + UInt32(size) + part;
    var s := before + tail;
    WalkOver(header, cs, pad, tail);
    UInt32Bytes(size);
    UInt32RoundTrip(size, before + DATA, part);
    CutParts(before, DATA, UInt32(size), part);
    SameId(s, before, DATA, UInt32(size) + part);
    PlainIdReadsAsData();
    StripStep(s, |before|);
  }

  lemma {:induction false} CutParts(before: seq<Byte>, id: seq<Byte>, size: seq<Byte>, part: seq<Byte>)
    requires |id| == |size| == 4
    ensures var s := before + (id + size + part);
            && s == (before + id) + size + part == before + id + (size + part)
            && |s| == |before| + 8 + |part| && s[|before| + 8..] == part
  {}
}
