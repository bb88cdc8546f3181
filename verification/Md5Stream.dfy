/** The streaming MD5 context: a 64-byte buffer and a two-word bit counter. */
module Md5Stream {
  import opened Bytes
  import opened Md5Fold
  import opened Md5Transform

  const MODULUS := 0x1_0000_0000
  const BITS_MODULUS := 0x1_0000_0000_0000_0000

  // ---------- when one call of update is safe ----------

  /** The bytes that make whole blocks. */
  function Whole(n: nat): (w: nat)
    ensures w <= n < w + 64 && n - w == n % 64 && w % 64 == 0
  {
    n / 64 * 64
  }

  function PartLength(fed: nat): (p: nat)
    ensures 1 <= p <= 64
  {
    64 - fed % 64
  }

  /** Where the whole blocks of an input end, when it completes a block at all. */
  function TailStart(fed: nat, len: nat): (e: nat)
    requires PartLength(fed) <= len
    ensures PartLength(fed) <= e <= len < e + 64 && (fed + e) % 64 == 0
  {
    var p := PartLength(fed);
    assert (fed + p) % 64 == 0;
    p + (len - p) / 64 * 64
  }

  /** The loop guard `i + 63 < inputLen`, computed in 32 bits. */
  predicate BlockLeft(i: nat, len: nat) {
    (i + 63) % MODULUS < len
  }

  /** The input length fits its type and the loop stops where the whole blocks end. */
  predicate ChunkFits(fed: nat, len: nat) {
    len < MODULUS && (PartLength(fed) <= len ==> TailStart(fed, len) + 63 < MODULUS)
  }

  /** The block loop ends at the end of the whole blocks exactly for the chunks that fit: in every
      other one the guard wraps round and the loop would read on behind its input. */
  lemma LoopStopsIff(fed: nat, len: nat)
    requires PartLength(fed) <= len < MODULUS
    ensures ChunkFits(fed, len) <==> !BlockLeft(TailStart(fed, len), len)
    ensures forall i {:trigger BlockLeft(i, len)} ::
              PartLength(fed) <= i < TailStart(fed, len) && (i - PartLength(fed)) % 64 == 0 ==> BlockLeft(i, len)
  {
    var e, p := TailStart(fed, len), PartLength(fed);
    forall i | p <= i < e && (i - p) % 64 == 0
      ensures BlockLeft(i, len)
    {
      assert (e - p) % 64 == 0;
      assert i + 64 <= e;
    }
  }

  lemma OneBlockFurther(fed: nat, len: nat, k: nat)
    requires PartLength(fed) <= len && ChunkFits(fed, len)
    requires PartLength(fed) + 64 * k <= TailStart(fed, len) && BlockLeft(PartLength(fed) + 64 * k, len)
    ensures PartLength(fed) + 64 * (k + 1) <= TailStart(fed, len)
    ensures (fed + PartLength(fed) + 64 * (k + 1)) % 64 == 0
  {
    var p, q := PartLength(fed), (len - PartLength(fed)) / 64;
    assert TailStart(fed, len) == p + 64 * q;
    assert k != q;
    var m := fed / 64 + 1;
    assert fed + p + 64 * (k + 1) == 64 * (m + k + 1);
  }

  lemma LoopRunsToTail(fed: nat, len: nat, k: nat)
    requires PartLength(fed) <= len < MODULUS
    requires PartLength(fed) + 64 * k <= TailStart(fed, len) && !BlockLeft(PartLength(fed) + 64 * k, len)
    ensures PartLength(fed) + 64 * k == TailStart(fed, len)
  {
    LoopStopsIff(fed, len);
    assert (64 * k) % 64 == 0;
  }

  lemma IndexIsRemainder(lo: u32, hi: u32, fed: nat)
    requires lo + MODULUS * hi == (8 * fed) % BITS_MODULUS
    ensures (lo / 8) % 64 == fed % 64 == fed - Whole(fed) && 64 - (lo / 8) % 64 == PartLength(fed)
  {
    var q := 8 * fed / BITS_MODULUS;
    assert 8 * fed == lo + MODULUS * hi + BITS_MODULUS * q;
    var blocks := 0x80_0000 * hi + 0x80_0000_0000_0000 * q;
    assert lo == 8 * (fed - 64 * blocks);
    assert lo / 8 == fed - 64 * blocks;
    Remainder64(fed, blocks);
  }

  lemma Remainder64(n: int, k: int)
    ensures (n - 64 * k) % 64 == n % 64
  {
  }

  /** Where the last unprocessed byte lies after an update. */
  lemma WholeBlocks(fed: nat, len: nat)
    ensures PartLength(fed) <= len ==> Whole(fed + len) == fed + TailStart(fed, len)
    ensures len < PartLength(fed) ==> Whole(fed + len) == Whole(fed)
    ensures fed + PartLength(fed) == Whole(fed) + 64 && (fed + PartLength(fed)) % 64 == 0
  {
    if PartLength(fed) <= len {
      var blocks := (fed + TailStart(fed, len)) / 64;
      assert fed + TailStart(fed, len) == 64 * blocks;
    }
  }

  lemma Joined(fed: seq<bv8>, input: seq<bv8>, n: nat, p: nat)
    requires n <= |fed| && p <= |input|
    ensures fed[n..] + input[..p] == (fed + input)[n..|fed| + p] && (fed + input)[..n] == fed[..n]
  {
  }

  lemma ShortChunksFit(fed: nat, len: nat)
    requires len <= MODULUS - 64
    ensures ChunkFits(fed, len)
  {
  }

  // ---------- facts about the fold and the counter ----------

  lemma FoldOneMore(m: seq<bv8>, n: nat)
    requires n % 64 == 0 && n + 64 <= |m|
    ensures Fold(m[..n + 64]) == Compress(Fold(m[..n]), m[n..n + 64])
  {
    hide Compress;
    var c := m[..n + 64];
    assert c[..|c| - 64] == m[..n] && c[|c| - 64..] == m[n..n + 64];
  }

  /** Adding `8 * len` to the two words, with the carry found by comparison and the top bits of the
      length taken apart. */
  lemma CountAdds(lo: u32, hi: u32, fed: nat, len: nat)
    requires len < MODULUS && lo + MODULUS * hi == (8 * fed) % BITS_MODULUS
    ensures
      var add := (8 * len) % MODULUS;
      var lo' := (lo + add) % MODULUS;
      var hi' := ((if lo' < add then hi + 1 else hi) + len / 0x2000_0000) % MODULUS;
      lo' + MODULUS * hi' == (8 * (fed + len)) % BITS_MODULUS
  {
    var add, top := (8 * len) % MODULUS, len / 0x2000_0000;
    var lo' := (lo + add) % MODULUS;
    var carried := if lo' < add then hi + 1 else hi;
    var hi' := (carried + top) % MODULUS;
    assert 8 * len == add + MODULUS * top;
    assert lo + add == lo' + MODULUS * (carried - hi);
    var wraps := (carried + top) / MODULUS;
    assert carried + top == hi' + MODULUS * wraps;
    var q := 8 * fed / BITS_MODULUS;
    assert 8 * (fed + len) == BITS_MODULUS * (q + wraps) + (lo' + MODULUS * hi');
    Remainder(8 * (fed + len), q + wraps, lo' + MODULUS * hi');
  }

  lemma Remainder(x: nat, q: nat, r: nat)
    requires r < BITS_MODULUS && x == BITS_MODULUS * q + r
    ensures x % BITS_MODULUS == r
  {
  }

  /** The state stands for the whole blocks of `m`, the buffer starts with the rest. */
  ghost predicate Remembers(state: State, buffer: seq<bv8>, m: seq<bv8>) {
    var n := Whole(|m|);
    |buffer| == 64 && state == Fold(m[..n]) && buffer[..|m| - n] == m[n..]
  }

  lemma RemembersRest(state: State, old': seq<bv8>, buffer: seq<bv8>, all: seq<bv8>, at: nat, rest: seq<bv8>)
    requires |old'| == |buffer| == 64 && Whole(|all|) + at + |rest| == |all|
    requires buffer == old'[..at] + rest + old'[at + |rest|..]
    requires state == Fold(all[..Whole(|all|)])
    requires old'[..at] + rest == all[Whole(|all|)..]
    ensures Remembers(state, buffer, all)
  {
    hide Fold, Whole;
  }

  lemma RemembersAll(state: State, buffer: seq<bv8>, m: seq<bv8>)
    requires Remembers(state, buffer, m) && Whole(|m|) == |m|
    ensures |m| % 64 == 0 && state == Fold(m)
  {
    hide Fold;
    assert m[..|m|] == m;
  }

  class Context {
    var lo: u32
    var hi: u32
    var state: State
    const buffer: array<bv8>
    /** Everything fed in since initialisation. */
    ghost var fed: seq<bv8>

    ghost predicate Valid()
      reads this, buffer
    {
      && buffer.Length == 64
      && lo + MODULUS * hi == (8 * |fed|) % BITS_MODULUS
      && Remembers(state, buffer[..], fed)
    }

    constructor ()
      ensures Valid() && fed == [] && fresh(buffer)
    {
      lo, hi := 0, 0;
      state := INIT;
      buffer := new bv8[64](_ => 0);
      fed := [];
    }

    /** `MD5_memcpy` into the buffer. */
    method Copy(at: nat, input: seq<bv8>)
      requires at + |input| <= buffer.Length
      modifies buffer
      ensures buffer[..] == old(buffer[..at]) + input + old(buffer[at + |input|..])
    {
      for i := 0 to |input|
        invariant buffer[..] == old(buffer[..at]) + input[..i] + old(buffer[at + i..])
      {
        buffer[at + i] := input[i];
      }
    }

    /** The block loop of an update that starts with `all[..base]` seen. */
    static method Absorb(ghost all: seq<bv8>, ghost base: nat, input: seq<bv8>, start: State, partLen: nat)
      returns (state: State, i: nat)
      requires base <= |all| && all[base..] == input && partLen == PartLength(base) <= |input| < MODULUS
      requires ChunkFits(base, |input|)
      requires (base + partLen) % 64 == 0 && start == Fold(all[..base + partLen])
      ensures i == TailStart(base, |input|) && state == Fold(all[..base + i])
    {
      hide Compress, Fold, TailStart, ChunkFits, PartLength;
      state, i := start, partLen;
      ghost var k := 0;
      while (i + 63) % MODULUS < |input|
        invariant i == partLen + 64 * k && i <= TailStart(base, |input|) && (base + i) % 64 == 0
        invariant state == Fold(all[..base + i])
        decreases |input| - i
      {
        OneBlockFurther(base, |input|, k);
        assert all[base + i..base + i + 64] == input[i..i + 64];
        FoldOneMore(all, base + i);
        state := Transform(state, input[i..i + 64]);
        i, k := i + 64, k + 1;
      }
      LoopRunsToTail(base, |input|, k);
    }

    method Count(len: nat)
      requires len < MODULUS && lo + MODULUS * hi == (8 * |fed|) % BITS_MODULUS
      modifies this`lo, this`hi
      ensures lo + MODULUS * hi == (8 * (|fed| + len)) % BITS_MODULUS
    {
      CountAdds(lo, hi, |fed|, len);
      var add := (8 * len) % MODULUS;
      lo := (lo + add) % MODULUS;
      var carried := if lo < add then hi + 1 else hi;
      hi := (carried + len / 0x2000_0000) % MODULUS;
    }

    /** The first block of an update: what was buffered and the start of the input. */
    method Fill(index: nat, head: seq<bv8>, ghost all: seq<bv8>, ghost n: nat)
      requires buffer.Length == 64 && index + |head| == 64
      requires n + 64 <= |all| && n % 64 == 0 && buffer[..index] + head == all[n..n + 64] && state == Fold(all[..n])
      modifies this`state, buffer
      ensures state == Fold(all[..n + 64])
    {
      hide Compress, Fold;
      Copy(index, head);
      assert buffer[..] == all[n..n + 64];
      FoldOneMore(all, n);
      state := Transform(state, buffer[..]);
    }

    /** Everything of an update but the counter and the last copy: afterwards `buffer[..index]` and
        `input[i..]` are what no block was made of yet. */
    method Blocks(input: seq<bv8>, ghost all: seq<bv8>) returns (index: nat, i: nat)
      requires Valid() && |input| < MODULUS && ChunkFits(|fed|, |input|) && all == fed + input
      modifies this`state, buffer
      ensures i <= |input| && index + |input| - i < 64
      ensures Whole(|all|) == |fed| + i - index
      ensures state == Fold(all[..|fed| + i - index]) && buffer[..index] == all[|fed| + i - index..|fed| + i]
    {
      hide Compress, Fold, TailStart, Whole, PartLength, ChunkFits;
      index := (lo / 8) % 64;
      IndexIsRemainder(lo, hi, |fed|);
      WholeBlocks(|fed|, |input|);
      var partLen := 64 - index;
      ghost var n := Whole(|fed|);
      Joined(fed, input, n, if |input| >= partLen then partLen else 0);
      if |input| >= partLen {
        Fill(index, input[..partLen], all, n);
        state, i := Absorb(all, |fed|, input, state, partLen);
        index := 0;
      } else {
        i := 0;
      }
    }

    method Update(input: seq<bv8>)
      requires Valid() && ChunkFits(|fed|, |input|)
      modifies this, buffer
      ensures Valid() && fed == old(fed) + input
    {
      hide Compress, Fold, Whole;
      ghost var all := fed + input;
      var index, i := Blocks(input, all);
      Count(|input|);
      ghost var before := buffer[..];
      assert before[..index] + input[i..] == all[Whole(|all|)..];
      Copy(index, input[i..]);
      RemembersRest(state, before, buffer[..], all, index, input[i..]);
      fed := all;
    }

    /** The context after padding and the length as it was before padding. */
    method Pad()
      requires Valid()
      modifies this, buffer
      ensures Valid() && fed == Padded(old(fed)) && state == Fold(fed)
    {
      hide Fold, Compress, EncodeWords, Padding, Padded, Remembers, Whole, PartLength, LengthBytes, ChunkFits, WordOf;
      ghost var m := fed;
      LengthWords(lo, hi, |fed|);
      var bits := Encode([WordOf(lo), WordOf(hi)]);
      var index := (lo / 8) % 64;
      IndexIsRemainder(lo, hi, |fed|);
      var padLen := if index < 56 then 56 - index else 120 - index;
      ShortChunksFit(|fed|, padLen);
      Update(Padding(padLen));
      ShortChunksFit(|fed|, 8);
      Update(bits);
      PaddedIsWhole(m, fed);
      RemembersAll(state, buffer[..], fed);
    }

    method Wipe()
      modifies this, buffer
      ensures lo == 0 && hi == 0 && state == State(0, 0, 0, 0) && buffer[..] == seq(buffer.Length, _ => 0)
    {
      lo, hi, state, fed := 0, 0, State(0, 0, 0, 0), [];
      for i := 0 to buffer.Length
        invariant lo == 0 && hi == 0 && state == State(0, 0, 0, 0)
        invariant forall j :: 0 <= j < i ==> buffer[j] == 0
      {
        buffer[i] := 0;
      }
    }

    method Final() returns (digest: seq<bv8>)
      requires Valid()
      modifies this, buffer
      ensures digest == Md5(old(fed))
      ensures lo == 0 && hi == 0 && state == State(0, 0, 0, 0) && buffer[..] == seq(buffer.Length, _ => 0)
    {
      hide Fold, Compress, EncodeWords;
      Pad();
      digest := Encode([state.a, state.b, state.c, state.d]);
      Wipe();
    }
  }

  lemma CounterWords(lo: u32, hi: u32, n: nat)
    requires lo + MODULUS * hi == (8 * n) % BITS_MODULUS
    ensures (8 * n) % MODULUS == lo && 8 * n / MODULUS % MODULUS == hi
  {
    var q := 8 * n / BITS_MODULUS;
    assert 8 * n == lo + MODULUS * (hi + MODULUS * q);
    assert 8 * n / MODULUS == hi + MODULUS * q;
  }

  /** The counter words are the two words of the length field. */
  lemma LengthWords(lo: u32, hi: u32, n: nat)
    requires lo + MODULUS * hi == (8 * n) % BITS_MODULUS
    ensures EncodeWords([WordOf(lo), WordOf(hi)]) == LengthBytes(n)
  {
    hide EncodeWords;
    CounterWords(lo, hi, n);
  }

  lemma PaddedIsWhole(m: seq<bv8>, fed: seq<bv8>)
    requires fed == m + Padding(PadLength(|m|)) + LengthBytes(|m|)
    ensures Padded(m) == fed && Whole(|fed|) == |fed|
  {
    hide LengthBytes, Padding, PadLength, Whole;
    assert |Padded(m)| == |fed|;
  }

  // ---------- whole messages, in any split ----------

  function Concat(chunks: seq<seq<bv8>>): (m: seq<bv8>) {
    if chunks == [] then [] else Concat(chunks[..|chunks| - 1]) + chunks[|chunks| - 1]
  }

  /** Initialise, update with each chunk, finish: the digest of the chunks joined. */
  method Digest(chunks: seq<seq<bv8>>) returns (digest: seq<bv8>)
    requires forall i :: 0 <= i < |chunks| ==> ChunkFits(|Concat(chunks[..i])|, |chunks[i]|)
    ensures digest == Md5(Concat(chunks))
  {
    hide Fold, Compress, Md5;
    var context := new Context();
    for i := 0 to |chunks|
      invariant context.Valid() && fresh(context) && fresh(context.buffer)
      invariant context.fed == Concat(chunks[..i])
    {
      assert chunks[..i + 1][..i] == chunks[..i];
      context.Update(chunks[i]);
    }
    assert chunks[..|chunks|] == chunks;
    digest := context.Final();
  }

  /** `get_md5_numbers`: one chunk, whose length is a signed number. */
  method GetMd5Numbers(input: seq<bv8>) returns (digest: seq<bv8>)
    requires |input| < 0x8000_0000
    ensures digest == Md5(input)
  {
    hide Fold, Compress, Md5;
    var context := new Context();
    ShortChunksFit(0, |input|);
    context.Update(input);
    assert context.fed == input;
    digest := context.Final();
  }

  // ---------- the digest of a file ----------

  /** An open file: its content, the position from which on reads fail if there is one, and the read
      position. One read may return fewer bytes than asked. */
  class File {
    const content: seq<bv8>
    const readable: nat
    var pos: nat

    function Limit(): (n: nat)
      ensures n <= |content|
    {
      if readable < |content| then readable else |content|
    }

    constructor (c: seq<bv8>, readable: nat)
      ensures content == c && this.readable == readable && pos == 0
    {
      content, this.readable, pos := c, readable, 0;
    }

    method Read(len: nat) returns (ok: bool, data: seq<bv8>)
      requires pos <= Limit() && len > 0
      modifies this
      ensures ok <==> old(pos) < Limit() || Limit() == |content|
      ensures pos == old(pos) + |data| <= Limit() && |data| <= len && data == content[old(pos)..pos]
      ensures data == [] <==> old(pos) == Limit()
    {
      if pos == Limit() {
        return pos == |content|, [];
      }
      var left := Limit() - pos;
      var n: nat :| 0 < n <= left && n <= len by {
        assert 0 < 1 <= left && 1 <= len;
      }
      ok, data := true, content[pos..pos + n];
      pos := pos + n;
    }
  }

  /** `igd_safe_read`: read until the buffer is full, the file ends or a read fails. */
  method SafeRead(file: File, len: nat) returns (ok: bool, data: seq<bv8>)
    requires file.pos <= file.Limit()
    modifies file
    ensures file.pos <= file.Limit()
    ensures ok <==> old(file.pos) + len <= file.Limit() || file.Limit() == |file.content|
    ensures ok ==> file.pos == old(file.pos) + |data| && data == file.content[old(file.pos)..file.pos]
    ensures ok ==> |data| == if old(file.pos) + len <= |file.content| then len else |file.content| - old(file.pos)
  {
    data := [];
    var left := len;
    while left > 0
      invariant 0 <= left && left + |data| == len
      invariant file.pos == old(file.pos) + |data| <= file.Limit() && data == file.content[old(file.pos)..file.pos]
    {
      var more;
      ok, more := file.Read(left);
      if !ok {
        return;
      }
      if more == [] {
        break;
      }
      data := data + more;
      left := left - |more|;
    }
    ok := true;
  }

  const BUF := 4096

  /** `(int)st.st_size`. */
  function AsInt(size: nat): int {
    var low := size % MODULUS;
    if low < 0x8000_0000 then low else low - MODULUS
  }

  /** The prefix of a file that is digested before the loop ends, for a file that is not refused. */
  function Hashed(size: nat): (n: nat)
    ensures AsInt(size) >= 0 ==> n <= size
  {
    var s := AsInt(size);
    if s < 0 then 0 else if s == size then s else (s + BUF - 1) / BUF * BUF
  }

  /** A file is refused when bit 31 of its size is set; the whole of it is digested exactly when its
      size fits 31 bits. Of a file of 4 GiB or more that is not refused only a prefix is digested. */
  lemma WholeFileDigestedIff(size: nat)
    ensures AsInt(size) >= 0 && Hashed(size) == size <==> size < 0x8000_0000
  {
  }

  /** Otherwise it is the least number of whole buffers that holds the low 32 bits of the size. */
  lemma PrefixHashed(size: nat)
    requires size >= 0x1_0000_0000 && size % 0x1_0000_0000 < 0x8000_0000
    ensures AsInt(size) == size % 0x1_0000_0000 && Hashed(size) % 4096 == 0
    ensures size % 0x1_0000_0000 <= Hashed(size) < size % 0x1_0000_0000 + 4096
  {
  }

  /** The whole buffers that the loop asks for can be read. */
  predicate Readable(size: nat, readable: nat) {
    readable >= size || (AsInt(size) + BUF - 1) / BUF * BUF <= readable
  }

  /** `igd_md5sum`; `opens` is whether the file can be opened and looked at. */
  method Md5Sum(content: seq<bv8>, opens: bool, readable: nat) returns (ok: bool, digest: seq<bv8>)
    ensures ok <==> opens && AsInt(|content|) >= 0 && Readable(|content|, readable)
    ensures ok ==> digest == Md5(content[..Hashed(|content|)])
  {
    hide Fold, Compress, Md5, Reading, Readable, Hashed, AsInt;
    NothingRead(|content|);
    var size := AsInt(|content|);
    if !opens || size < 0 {
      return false, [];
    }
    var file := new File(content, readable);
    var context := new Context();
    ghost var start := size;
    while size > 0
      invariant context.Valid() && fresh(context) && fresh(context.buffer) && fresh(file)
      invariant file.content == content && file.readable == readable && file.pos <= file.Limit()
      invariant context.fed == content[..file.pos]
      invariant size == start - file.pos && Reading(|content|, file.pos)
    {
      ghost var before := file.pos;
      var good, buf := SafeRead(file, BUF);
      if !good {
        BufferUnread(|content|, readable, before);
        return false, [];
      }
      var len := |buf|;
      OneBuffer(|content|, before, len);
      if len != BUF && len != size {
        return false, [];
      }
      ShortChunksFit(|context.fed|, len);
      context.Update(buf);
      size := size - len;
    }
    ReadEnough(|content|, readable, file.pos);
    digest := context.Final();
    ok := true;
  }

  lemma BufferUnread(size: nat, readable: nat, pos: nat)
    requires Reading(size, pos) && pos < AsInt(size) && readable < size && readable < pos + BUF
    ensures !Readable(size, readable)
  {
  }

  /** Where the read position can be at the head of the loop. */
  ghost predicate Reading(size: nat, pos: nat) {
    var s := AsInt(size);
    0 <= s <= size && ((pos % BUF == 0 && pos < s + BUF) || pos == s == size)
  }

  lemma OneBuffer(size: nat, pos: nat, len: nat)
    requires Reading(size, pos) && pos < AsInt(size)
    requires len == if pos + BUF <= size then BUF else size - pos
    ensures (len == BUF || len == AsInt(size) - pos) && Reading(size, pos + len)
  {
  }

  lemma NothingRead(size: nat)
    ensures AsInt(size) >= 0 ==> Reading(size, 0)
  {
  }

  lemma ReadEnough(size: nat, readable: nat, pos: nat)
    requires Reading(size, pos) && pos >= AsInt(size) && pos <= size && (readable < size ==> pos <= readable)
    ensures pos == Hashed(size) && Readable(size, readable)
  {
  }
}
