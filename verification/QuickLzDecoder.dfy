/** The QuickLZ level 1 decompressor as a state machine over its input buffer. A step that would read
    or write outside a buffer ends in Fault: the source has no check there. */
module QuickLzDecoder {
  import opened Basics
  import opened QuickLzFormat

  datatype Outcome = Fault | Done(dst: seq<byte>)

  /** `src`, `cword_val`, the destination buffer, `dst`, `last_hashed` and the hash table, whose
      entries are offsets into the destination and may be left over from an earlier run. */
  datatype State = State(src: nat, cword: nat, dst: seq<byte>, pos: nat, hashed: int, table: seq<int>) {
    ghost predicate Valid() {
      && pos <= |dst|
      && -1 <= hashed < pos
      && |table| == HASH_VALUES
    }
  }

  /** `memcpy_up`: byte by byte upwards, so that an overlapping copy repeats itself. */
  ghost function CopyUp(dst: seq<byte>, from: nat, to: nat, n: nat): (dst': seq<byte>)
    requires from + n <= |dst| && to + n <= |dst|
    ensures |dst'| == |dst|
    decreases n
  {
    if n == 0 then dst else CopyUp(dst[to := dst[from]], from + 1, to + 1, n - 1)
  }

  /** `update_hash_upto`: every position after `hashed` up to `max` is entered in the table. */
  ghost function HashUpTo(dst: seq<byte>, table: seq<int>, hashed: int, max: int): (table': seq<int>)
    requires -1 <= hashed && max + 3 <= |dst| && |table| == HASH_VALUES
    ensures |table'| == HASH_VALUES
    decreases max - hashed
  {
    if hashed < max then
      HashUpTo(dst, table[HashAt(dst, hashed + 1) := hashed + 1], hashed + 1, max)
    else table
  }

  /** Number of literals announced by the low four bits of the control word. */
  const BITLUT: seq<nat> := [4, 0, 1, 0, 2, 0, 1, 0, 3, 0, 1, 0, 2, 0, 1, 0]

  function Shift(cword: nat, n: nat): nat {
    if n == 0 then cword else Shift(cword / 2, n - 1)
  }

  lemma BitLutAdvances(cword: nat)
    requires cword % 2 == 0
    ensures 1 <= BITLUT[cword % 16] <= 4
  {
    assert cword % 16 % 2 == 0;
  }

  /** The bucket, length and size of a copy token. */
  ghost function Token(buf: seq<byte>, src: nat): (int, nat, nat)
    requires src + 4 <= |buf|
  {
    var fetch := Read4(buf, src);
    if fetch % 16 != 0 then (fetch / 16 % HASH_VALUES, fetch % 16 + 2, 2)
    else (fetch / 16 % HASH_VALUES, buf[src + 2], 3)
  }

  ghost predicate LiteralsByFour(s: State) {
    s.pos + UNCONDITIONAL_MATCHLEN + UNCOMPRESSED_END + 1 < |s.dst|
  }

  /** The first half of an iteration: a used-up control word is replaced by the next one. */
  ghost function Refill(buf: seq<byte>, s: State): (s': State)
    requires s.cword == 1 ==> s.src + CWORD_LEN <= |buf|
  {
    if s.cword == 1 then s.(cword := Read4(buf, s.src), src := s.src + CWORD_LEN) else s
  }

  /** Whether the copy branch stays inside the buffers. */
  ghost predicate CopyInBounds(buf: seq<byte>, s: State)
    requires s.Valid() && s.src + 4 <= |buf|
  {
    var (hash, len, size) := Token(buf, s.src);
    && 0 <= s.table[hash]
    && s.table[hash] + len <= |s.dst|
    && s.pos + len <= |s.dst|
    && s.pos + 3 <= |s.dst|
  }

  /** The copy branch: copy first, then enter the positions up to the start of the copy. */
  ghost function CopyStep(buf: seq<byte>, s: State): (s': State)
    requires s.Valid() && s.src + 4 <= |buf| && CopyInBounds(buf, s)
    ensures s.src < s'.src && |s'.dst| == |s.dst| && s'.Valid()
  {
    var (hash, len, size) := Token(buf, s.src);
    var dst := CopyUp(s.dst, s.table[hash], s.pos, len);
    State(s.src + size, s.cword / 2, dst, s.pos + len, s.pos + len - 1,
          HashUpTo(dst, s.table, s.hashed, s.pos))
  }

  ghost function LiteralStep(buf: seq<byte>, s: State): (s': State)
    requires s.Valid() && s.src + 4 <= |buf| && LiteralsByFour(s) && s.cword % 2 == 0
    ensures s.src < s'.src && |s'.dst| == |s.dst| && s'.Valid()
  {
    BitLutAdvances(s.cword);
    var n := BITLUT[s.cword % 16];
    var dst := s.dst[..s.pos] + buf[s.src..s.src + 4] + s.dst[s.pos + 4..];
    var pos := s.pos + n;
    State(s.src + n, Shift(s.cword, n), dst, pos, if s.hashed < pos - 3 then pos - 3 else s.hashed,
          HashUpTo(dst, s.table, s.hashed, pos - 3))
  }

  /** The all-literal tail, which passes over control words without reading them. */
  ghost function Tail(buf: seq<byte>, src: nat, cword: nat, dst: seq<byte>, pos: nat): (r: Outcome)
    requires pos <= |dst|
    ensures r.Done? ==> |r.dst| == |dst|
    decreases |dst| - pos
  {
    if pos == |dst| then Done(dst)
    else
      var src' := if cword == 1 then src + CWORD_LEN else src;
      var cword' := if cword == 1 then TOP_BIT else cword;
      if src' >= |buf| then Fault
      else Tail(buf, src' + 1, cword' / 2, dst[pos := buf[src']], pos + 1)
  }

  /** The loop of `qlz_decompress_core`. */
  ghost function Loop(buf: seq<byte>, s: State): (r: Outcome)
    requires s.Valid()
    ensures r.Done? ==> |r.dst| == |s.dst|
    decreases |buf| - s.src
  {
    if s.cword == 1 && s.src + CWORD_LEN > |buf| then Fault
    else
      var s := Refill(buf, s);
      if s.src + 4 > |buf| then Fault
      else if s.cword % 2 == 1 then
        if CopyInBounds(buf, s) then Loop(buf, CopyStep(buf, s)) else Fault
      else if LiteralsByFour(s) then Loop(buf, LiteralStep(buf, s))
      else Tail(buf, s.src, s.cword, s.dst, s.pos)
  }
}
