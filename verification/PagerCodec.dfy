/** QuickLZ as the codec of the pager's compressed store. */
module PagerCodec {
  import opened Basics
  import opened QuickLzFormat
  import opened QuickLzParse
  import opened QuickLzDecoder
  import opened QuickLzPacket
  import opened Pager

  function Zeros(n: nat): (z: seq<byte>)
    ensures |z| == n
  {
    seq(n, _ => 0)
  }

  /** What `qlz_compress` leaves in the buffer for a page; a short stream is padded. */
  ghost function CompressPage(p: Page): (b: seq<byte>)
    ensures |Header(p) + Payload(p)| <= |b|
  {
    var b := Header(p) + Payload(p);
    if |b| < PacketLen(p) then b + Zeros(PacketLen(p) - |b|) else b
  }

  /** What `qlz_decompress` leaves in the frame, whatever the frame and the state held before. */
  ghost function DecompressPage(b: seq<byte>): Page {
    if |b| >= 9 && SizeDecompressed(b) == PAGE_SIZE then
      match Decompress(b, Zeros(PAGE_SIZE), seq(HASH_VALUES, _ => 0))
      case Done(x) => if |x| == PAGE_SIZE then x else Zeros(PAGE_SIZE)
      case Fault => Zeros(PAGE_SIZE)
    else Zeros(PAGE_SIZE)
  }

  ghost function QuickLz(): Codec {
    Codec(p => CompressPage(p), b => DecompressPage(b))
  }

  lemma PacketInBlock(p: Page, rest: seq<byte>)
    ensures QuickLzPacket.Holds(CompressPage(p) + rest, p)
  {
    hide Header, Payload, PacketLen;
    PacketAtLeast(p);
    var h, q, b := Header(p), Payload(p), CompressPage(p) + rest;
    assert CompressPage(p)[..|h|] == h && CompressPage(p)[|h|..|h| + |q|] == q;
    assert b[..|h|] == CompressPage(p)[..|h|] && b[|h|..|h| + |q|] == CompressPage(p)[|h|..|h| + |q|];
  }

  lemma PacketAtLeast(p: Page)
    ensures |CompressPage(p)| >= PacketLen(p)
  {
    hide Header, Payload, PacketLen;
  }

  lemma PageComesBack(p: Page, rest: seq<byte>)
    ensures DecompressPage(CompressPage(p) + rest) == p
  {
    hide CompressPage, Decompress, QuickLzPacket.Holds, SizeDecompressed;
    PacketInBlock(p, rest);
    assert Compressible(p);
    RoundTrip(p, CompressPage(p) + rest, Zeros(PAGE_SIZE), seq(HASH_VALUES, _ => 0));
  }

  /** A page saved by QuickLZ comes back unchanged, whatever follows its block. */
  lemma QuickLzLossless()
    ensures Lossless(QuickLz())
  {
    hide CompressPage, DecompressPage;
    forall p: Page, rest: seq<byte>
      ensures QuickLz().decompress(QuickLz().compress(p) + rest) == p
    {
      PageComesBack(p, rest);
    }
  }
}
