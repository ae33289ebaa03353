/** `qlz_decompress` as the program runs it: the destination and the hash table are updated in place. */
module QuickLzDecompressor {
  import opened Basics
  import opened QuickLzFormat
  import opened QuickLzParse
  import opened QuickLzDecoder
  import opened QuickLzRoundTrip
  import opened QuickLzPacket
  import opened QuickLzCompressor

  method MemcpyUp(dst: array<byte>, from: nat, to: nat, n: nat)
    requires from + n <= dst.Length && to + n <= dst.Length
    modifies dst
    ensures dst[..] == CopyUp(old(dst[..]), from, to, n)
  {
    var i := 0;
    while i < n
      invariant 0 <= i <= n
      invariant CopyUp(dst[..], from + i, to + i, n - i) == CopyUp(old(dst[..]), from, to, n)
    {
      ghost var d := dst[..];
      dst[to + i] := dst[from + i];
      assert dst[..] == d[to + i := d[from + i]];
      i := i + 1;
    }
  }

  /** `update_hash_upto`. */
  method UpdateHashUpTo(dst: array<byte>, table: array<int>, hashed: int, max: int) returns (hashed': int)
    requires -1 <= hashed && max + 3 <= dst.Length && table.Length == HASH_VALUES && dst as object != table
    modifies table
    ensures table[..] == HashUpTo(dst[..], old(table[..]), hashed, max)
    ensures hashed' == if hashed < max then max else hashed
  {
    hide FoldWord, HashFunc;
    hashed' := hashed;
    while hashed' < max
      invariant hashed <= hashed' && (hashed < max ==> hashed' <= max) && (hashed >= max ==> hashed' == hashed)
      invariant HashUpTo(dst[..], table[..], hashed', max) == HashUpTo(dst[..], old(table[..]), hashed, max)
    {
      hashed' := hashed' + 1;
      var h := HashFunc(ReadThree(dst, hashed'));
      ghost var t := table[..];
      table[h] := hashed';
      assert table[..] == t[HashAt(dst[..], hashed') := hashed'];
    }
  }

  function ReadThree(a: array<byte>, p: nat): (r: nat)
    requires p + 3 <= a.Length
    reads a
    ensures r == Read3(a[..], p)
  {
    a[p] as nat + 0x100 * a[p + 1] as nat + 0x1_0000 * a[p + 2] as nat
  }

  /** The tail loop. */
  method TailLoop(buf: seq<byte>, src0: nat, cword0: nat, dst: array<byte>, pos0: nat)
    requires pos0 <= dst.Length && Tail(buf, src0, cword0, dst[..], pos0).Done?
    modifies dst
    ensures Tail(buf, src0, cword0, old(dst[..]), pos0) == Done(dst[..])
  {
    var src: nat, cword: nat, pos: nat := src0, cword0, pos0;
    while pos < dst.Length
      invariant pos <= dst.Length
      invariant Tail(buf, src, cword, dst[..], pos) == Tail(buf, src0, cword0, old(dst[..]), pos0)
    {
      if cword == 1 {
        src := src + CWORD_LEN;
        cword := TOP_BIT;
      }
      ghost var d := dst[..];
      dst[pos] := buf[src];
      assert dst[..] == d[pos := buf[src]];
      pos, src, cword := pos + 1, src + 1, cword / 2;
    }
  }

  /** The copy branch of the loop. */
  method CopyBranch(buf: seq<byte>, src0: nat, cword0: nat, dst: array<byte>, pos0: nat, hashed0: int, table: array<int>)
      returns (src: nat, cword: nat, pos: nat, hashed: int)
    requires dst as object != table && src0 + 4 <= |buf|
    requires var s := State(src0, cword0, dst[..], pos0, hashed0, table[..]); s.Valid() && CopyInBounds(buf, s)
    modifies dst, table
    ensures State(src, cword, dst[..], pos, hashed, table[..])
            == CopyStep(buf, State(src0, cword0, old(dst[..]), pos0, hashed0, old(table[..])))
  {
    cword := cword0 / 2;
    var fetch := Read4(buf, src0);
    var hash := fetch / 16 % HASH_VALUES;
    var offset2 := table[hash];
    var matchlen: nat;
    if fetch % 16 != 0 {
      matchlen := fetch % 16 + 2;
      src := src0 + 2;
    } else {
      matchlen := buf[src0 + 2];
      src := src0 + 3;
    }
    assert Token(buf, src0) == (hash, matchlen, src - src0);
    MemcpyUp(dst, offset2, pos0, matchlen);
    pos := pos0 + matchlen;
    hashed := UpdateHashUpTo(dst, table, hashed0, pos - matchlen);
    hashed := pos - 1;
  }

  /** The branch that takes up to four literals at once. */
  method LiteralBranch(buf: seq<byte>, src0: nat, cword0: nat, dst: array<byte>, pos0: nat, hashed0: int, table: array<int>)
      returns (src: nat, cword: nat, pos: nat, hashed: int)
    requires dst as object != table && src0 + 4 <= |buf| && cword0 % 2 == 0
    requires var s := State(src0, cword0, dst[..], pos0, hashed0, table[..]); s.Valid() && LiteralsByFour(s)
    modifies dst, table
    ensures State(src, cword, dst[..], pos, hashed, table[..])
            == LiteralStep(buf, State(src0, cword0, old(dst[..]), pos0, hashed0, old(table[..])))
  {
    BitLutAdvances(cword0);
    var n := BITLUT[cword0 % 16];
    CopyFour(buf, src0, dst, pos0);
    cword := ShiftRight(cword0, n);
    pos, src := pos0 + n, src0 + n;
    hashed := UpdateHashUpTo(dst, table, hashed0, pos - 3);
  }

  method CopyFour(buf: seq<byte>, src: nat, dst: array<byte>, pos: nat)
    requires src + 4 <= |buf| && pos + 4 <= dst.Length
    modifies dst
    ensures dst[..] == old(dst[..])[..pos] + buf[src..src + 4] + old(dst[..])[pos + 4..]
  {
    dst[pos], dst[pos + 1] := buf[src], buf[src + 1];
    dst[pos + 2], dst[pos + 3] := buf[src + 2], buf[src + 3];
  }

  method ShiftRight(w: nat, n: nat) returns (r: nat)
    ensures r == Shift(w, n)
  {
    r := w;
    var i := 0;
    while i < n
      invariant 0 <= i <= n && Shift(r, n - i) == Shift(w, n)
    {
      r, i := r / 2, i + 1;
    }
  }

  /** `qlz_decompress_core`. Like the source it checks no bounds: its caller answers for an input that
      keeps it inside the buffers, as every packet of the compressor does. */
  method DecompressCore(buf: seq<byte>, header: nat, dst: array<byte>, table: array<int>)
    requires dst.Length > 0 && table.Length == HASH_VALUES && dst as object != table
    requires Loop(buf, State(header, 1, dst[..], 0, -1, table[..])).Done?
    modifies dst, table
    ensures Loop(buf, State(header, 1, old(dst[..]), 0, -1, old(table[..]))) == Done(dst[..])
  {
    hide CopyStep, LiteralStep, Tail, CopyInBounds;
    var src: nat, cword: nat, pos: nat, hashed := header, 1, 0, -1;
    ghost var s0 := State(header, 1, dst[..], 0, -1, table[..]);
    while true
      invariant State(src, cword, dst[..], pos, hashed, table[..]).Valid()
      invariant Loop(buf, State(src, cword, dst[..], pos, hashed, table[..])) == Loop(buf, s0)
      decreases |buf| - src
    {
      if cword == 1 {
        cword := Read4(buf, src);
        src := src + CWORD_LEN;
      }
      if cword % 2 == 1 {
        src, cword, pos, hashed := CopyBranch(buf, src, cword, dst, pos, hashed, table);
      } else if pos + UNCONDITIONAL_MATCHLEN + UNCOMPRESSED_END + 1 < dst.Length {
        src, cword, pos, hashed := LiteralBranch(buf, src, cword, dst, pos, hashed, table);
      } else {
        TailLoop(buf, src, cword, dst, pos);
        hashed := UpdateHashUpTo(dst, table, hashed, dst.Length - 1 - 3);
        return;
      }
    }
  }

  /** `qlz_decompress` into a destination of the decompressed size. */
  method DecompressInto(buf: seq<byte>, dst: array<byte>, table: array<int>) returns (size: nat)
    requires |buf| >= 9 && table.Length == HASH_VALUES && dst as object != table
    requires 0 < dst.Length == SizeDecompressed(buf) && Decompress(buf, dst[..], table[..]).Done?
    modifies dst, table
    ensures size == dst.Length && Done(dst[..]) == Decompress(buf, old(dst[..]), old(table[..]))
  {
    hide Loop;
    var h := 2 * LengthBytes(buf[0]) + 1;
    size := SizeDecompressed(buf);
    if buf[0] % 2 == 1 {
      DecompressCore(buf, h, dst, table);
    } else {
      CopyIn(buf[h..h + size], dst, 0);
      assert dst[..] == dst[0..0 + size];
    }
  }

  /** Both directions together: what comes out is what went in. */
  method ThereAndBack(x: seq<byte>, buf: array<byte>, dst: array<byte>, state: CompressState, table: array<int>)
    requires Compressible(x) && state.Valid() && |x| + 400 <= buf.Length && dst.Length == |x|
    requires table.Length == HASH_VALUES && dst as object != table && buf != dst
    requires buf as object != table && table != state.offset && table as object != state.cache
    requires dst as object != state.cache && dst as object != state.offset
    modifies buf, dst, table, state.cache, state.offset
    ensures dst[..] == x
  {
    hide Holds, Decompress, Core;
    var r := Compress(x, buf, state);
    RoundTrip(x, buf[..], dst[..], table[..]);
    var size := DecompressInto(buf[..], dst, table);
  }
}
