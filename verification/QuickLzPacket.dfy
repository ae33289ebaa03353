/** QuickLZ packets: the header around the stream, and the round trip and size bound that callers of
    `qlz_compress` and `qlz_decompress` rely on. */
module QuickLzPacket {
  import opened Basics
  import opened QuickLzFormat
  import opened QuickLzParse
  import opened QuickLzDecoder
  import opened QuickLzRoundTrip
  import opened QuickLzBound

  const MAX_SIZE := 0xFFFF_FFFF - 400
  const SMALL := 216
  const MIN_CORE := 9

  ghost predicate Compressible(x: seq<byte>) {
    0 < |x| <= MAX_SIZE
  }

  ghost function HeaderLen(n: nat): nat {
    if n < SMALL then 3 else 9
  }

  /** What is stored after the header: the stream, or the input itself when the core gave up. */
  ghost function Payload(x: seq<byte>): seq<byte> {
    match Core(x)
    case Some(s) => s
    case None => x
  }

  /** The result of `qlz_compress`; a stream counts as nine bytes at least. */
  ghost function PacketLen(x: seq<byte>): nat {
    HeaderLen(|x|) +
    match Core(x)
    case Some(s) => if |s| < MIN_CORE then MIN_CORE else |s|
    case None => |x|
  }

  ghost function Flags(n: nat, compressed: bool): byte {
    (if compressed then 1 else 0) + (if n < SMALL then 0 else 2) + 4 + 64
  }

  ghost function Header(x: seq<byte>): (h: seq<byte>)
    ensures |h| == HeaderLen(|x|)
  {
    if |x| < SMALL then [Flags(|x|, Core(x).Some?), PacketLen(x) % 0x100, |x| % 0x100]
    else [Flags(|x|, Core(x).Some?)] + Bytes4(PacketLen(x)) + Bytes4(|x|)
  }

  /** A buffer that begins with the packet of x, whatever follows. */
  ghost predicate Holds(buf: seq<byte>, x: seq<byte>) {
    var h, p := Header(x), Payload(x);
    && |buf| >= PacketLen(x)
    && |h| + |p| <= |buf| && buf[..|h|] == h && buf[|h|..|h| + |p|] == p
  }

  // ----- the decompressing side

  function LengthBytes(flags: byte): nat {
    if flags / 2 % 2 == 1 then 4 else 1
  }

  /** `qlz_size_compressed`. */
  function SizeCompressed(buf: seq<byte>): nat
    requires |buf| >= 9
  {
    if LengthBytes(buf[0]) == 4 then Read4(buf, 1) else buf[1]
  }

  /** `qlz_size_decompressed`. */
  function SizeDecompressed(buf: seq<byte>): nat
    requires |buf| >= 9
  {
    if LengthBytes(buf[0]) == 4 then Read4(buf, 5) else buf[2]
  }

  /** `qlz_decompress` into a destination of the right size, with whatever table is at hand. */
  ghost function Decompress(buf: seq<byte>, dst: seq<byte>, table: seq<int>): Outcome
    requires |buf| >= 9 && |table| == HASH_VALUES && 0 < |dst| == SizeDecompressed(buf)
  {
    var h := 2 * LengthBytes(buf[0]) + 1;
    if buf[0] % 2 == 1 then Loop(buf, State(h, 1, dst, 0, -1, table))
    else if h + |dst| > |buf| then Fault
    else Done(buf[h..h + |dst|])
  }

  // ----- the theorems

  /** The documented bound: never more than 400 bytes over the input, and small packets so small that
      their one-byte length fields are exact. */
  lemma OutputBound(x: seq<byte>)
    requires Compressible(x)
    ensures PacketLen(x) <= |x| + 400 <= 0xFFFF_FFFF
    ensures |x| < SMALL ==> PacketLen(x) <= 255
    ensures |Header(x)| == if |x| < 216 then 3 else 9
    ensures PacketLen(x) == |Header(x)| + if Core(x).Some? && |Payload(x)| < 9 then 9 else |Payload(x)|
    ensures |Header(x)| + |Payload(x)| <= |x| + 400
    ensures PacketLen(x) >= MIN_CORE || Core(x).None?
  {
    hide Core;
    if Core(x).Some? {
      CoreWithinBound(x);
    }
  }

  /** The core gives up only on inputs long enough for the decompressor to read nine header bytes. */
  lemma {:induction false} GivesUpLate(x: seq<byte>, p: nat, k: nat, z: nat, items: seq<Item>)
    requires GivesUp(x, p, k, z, items)
    ensures |x| > 10
    decreases |items|, if k == 0 then 1 else 0
  {
  }

  lemma LongEnough(x: seq<byte>)
    ensures Core(x).None? ==> |x| > 10
  {
    if Core(x).None? {
      GivesUpLate(x, 0, 0, 0, Items(x));
    }
  }

  lemma HeaderRoundTrip(buf: seq<byte>, x: seq<byte>)
    requires Compressible(x) && Holds(buf, x)
    ensures |buf| >= 9
    ensures SizeDecompressed(buf) == |x| && SizeCompressed(buf) == PacketLen(x)
    ensures 2 * LengthBytes(buf[0]) + 1 == |Header(x)|
    ensures buf[0] % 2 == 1 <==> Core(x).Some?
    ensures buf[0] / 4 % 4 == 1 && buf[0] / 16 % 4 == 0 && buf[0] / 64 == 1
  {
    hide Core, Read4, Bytes4, PacketLen;
    LongEnough(x);
    OutputBound(x);
    var h := Header(x);
    assert forall i :: 0 <= i < |h| ==> buf[..|h|][i] == buf[i];
    var flags := Flags(|x|, Core(x).Some?);
    assert buf[0] == h[0] == flags;
    if |x| >= SMALL {
      assert buf[1..5] == buf[..9][1..5] == Bytes4(PacketLen(x));
      assert buf[5..9] == buf[..9][5..9] == Bytes4(|x|);
      Read4OfBytes4(PacketLen(x), buf, 1);
      Read4OfBytes4(|x|, buf, 5);
    }
  }

  /** Decompressing a buffer that begins with the packet of x gives back x: for every input the
      compressor accepts, whatever follows the packet, and whatever the destination and the hash
      table held before. */
  lemma RoundTrip(x: seq<byte>, buf: seq<byte>, dst: seq<byte>, table: seq<int>)
    requires Compressible(x) && Holds(buf, x)
    requires |dst| == |x| && |table| == HASH_VALUES
    ensures |buf| >= 9 && SizeDecompressed(buf) == |x|
    ensures Decompress(buf, dst, table) == Done(x)
  {
    HeaderRoundTrip(buf, x);
    if Core(x).Some? {
      CoreRoundTrip(x, buf, |Header(x)|, dst, table);
    }
  }
}
