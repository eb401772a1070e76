/** The streaming SHA-256 of fs.hash, proved against FIPS 180-4. The first
    half is the standard's definition on a whole message; the second is the
    buffered hash, whose digest does not depend on how the message arrives. */
module Sha256 {
  import opened CTypes
  import opened Bits

  type Word = uint32
  type Byte = uint8

  // ---- FIPS 180-4 ----

  /** Section 4.2.2. */
  const K: seq<Word> :=
    [0x428a2f98, 0x71374491, 0xb5c0fbcf, 0xe9b5dba5, 0x3956c25b, 0x59f111f1, 0x923f82a4, 0xab1c5ed5] +
    [0xd807aa98, 0x12835b01, 0x243185be, 0x550c7dc3, 0x72be5d74, 0x80deb1fe, 0x9bdc06a7, 0xc19bf174] +
    [0xe49b69c1, 0xefbe4786, 0x0fc19dc6, 0x240ca1cc, 0x2de92c6f, 0x4a7484aa, 0x5cb0a9dc, 0x76f988da] +
    [0x983e5152, 0xa831c66d, 0xb00327c8, 0xbf597fc7, 0xc6e00bf3, 0xd5a79147, 0x06ca6351, 0x14292967] +
    [0x27b70a85, 0x2e1b2138, 0x4d2c6dfc, 0x53380d13, 0x650a7354, 0x766a0abb, 0x81c2c92e, 0x92722c85] +
    [0xa2bfe8a1, 0xa81a664b, 0xc24b8b70, 0xc76c51a3, 0xd192e819, 0xd6990624, 0xf40e3585, 0x106aa070] +
    [0x19a4c116, 0x1e376c08, 0x2748774c, 0x34b0bcb5, 0x391c0cb3, 0x4ed8aa4a, 0x5b9cca4f, 0x682e6ff3] +
    [0x748f82ee, 0x78a5636f, 0x84c87814, 0x8cc70208, 0x90befffa, 0xa4506ceb, 0xbef9a3f7, 0xc67178f2]

  /** Section 5.3.3. */
  const INITIAL: seq<Word> := [
    0x6a09e667, 0xbb67ae85, 0x3c6ef372, 0xa54ff53a, 0x510e527f, 0x9b05688c, 0x1f83d9ab, 0x5be0cd19]

  // Section 4.1.2.
  function Ch(x: Word, y: Word, z: Word): nat { Xor(And(x, y), And(Not(x), z)) }
  function Maj(x: Word, y: Word, z: Word): nat { Xor(Xor(And(x, y), And(x, z)), And(y, z)) }
  function BigSigma0(x: Word): nat { Xor(Xor(Rotr(x, 2), Rotr(x, 13)), Rotr(x, 22)) }
  function BigSigma1(x: Word): nat { Xor(Xor(Rotr(x, 6), Rotr(x, 11)), Rotr(x, 25)) }
  function Sigma0(x: Word): nat { Xor(Xor(Rotr(x, 7), Rotr(x, 18)), Shr(x, 3)) }
  function Sigma1(x: Word): nat { Xor(Xor(Rotr(x, 17), Rotr(x, 19)), Shr(x, 10)) }

  type Block = b: seq<Byte> | |b| == 64 witness seq(64, _ => 0)
  type Hash = h: seq<Word> | |h| == 8 witness seq(8, _ => 0)

  /** Section 6.2.2, step 1: the message schedule. */
  function Schedule(b: Block, t: nat): Word
    requires t < 64
  {
    if t < 16 then BigEndian(b[4*t], b[4*t+1], b[4*t+2], b[4*t+3])
    else Add(Add(Add(Sigma1(Schedule(b, t - 2)), Schedule(b, t - 7)), Sigma0(Schedule(b, t - 15))), Schedule(b, t - 16))
  }

  lemma ScheduleAt(b: Block, t: nat)
    requires 16 <= t < 64
    ensures Schedule(b, t)
         == NextWord(Schedule(b, t - 16), Schedule(b, t - 15), Schedule(b, t - 7), Schedule(b, t - 2))
  {
    AddReversed(Schedule(b, t - 16), Sigma0(Schedule(b, t - 15)), Schedule(b, t - 7), Sigma1(Schedule(b, t - 2)));
  }

  datatype Vars = Vars(a: Word, b: Word, c: Word, d: Word, e: Word, f: Word, g: Word, h: Word)

  /** Section 6.2.2, one iteration of step 3. */
  function Round(v: Vars, k: Word, w: Word): Vars {
    var t1 := Add(Add(Add(Add(v.h, BigSigma1(v.e)), Ch(v.e, v.f, v.g)), k), w);
    var t2 := Add(BigSigma0(v.a), Maj(v.a, v.b, v.c));
    Vars(Add(t1, t2), v.a, v.b, v.c, Add(v.d, t1), v.e, v.f, v.g)
  }

  function Rounds(v: Vars, b: Block, t: nat): Vars
    requires t <= 64
  {
    if t == 0 then v else Round(Rounds(v, b, t - 1), K[t-1], Schedule(b, t - 1))
  }

  function VarsOf(h: Hash): Vars {
    Vars(h[0], h[1], h[2], h[3], h[4], h[5], h[6], h[7])
  }

  /** Section 6.2.2, step 4. */
  function AddVars(v: Vars, h: Hash): Hash {
    [Add(v.a, h[0]), Add(v.b, h[1]), Add(v.c, h[2]), Add(v.d, h[3]),
     Add(v.e, h[4]), Add(v.f, h[5]), Add(v.g, h[6]), Add(v.h, h[7])]
  }

  function Compress(h: Hash, b: Block): Hash {
    AddVars(Rounds(VarsOf(h), b, |K|), h)
  }

  type Folder = (Hash, Block) -> Hash

  /** Section 6.2.2, the outer loop, with compression function f: folds the
      whole blocks of m into h. */
  function Absorb(f: Folder, h: Hash, m: seq<Byte>): Hash
    decreases |m|
  {
    if |m| < 64 then h else Absorb(f, f(h, m[..64]), m[64..])
  }

  /** The bytes after the whole blocks. */
  function Rest(m: seq<Byte>): (r: seq<Byte>)
    ensures |r| < 64 && |r| == |m| % 64
    decreases |m|
  {
    if |m| < 64 then m else Rest(m[64..])
  }

  function Zeros(n: nat): (z: seq<Byte>)
    ensures |z| == n && forall i :: 0 <= i < n ==> z[i] == 0
  {
    seq(n, _ => 0)
  }

  /** (bits >> (8 * i)) & 0xff. */
  function ByteAt(bits: nat, i: nat): Byte
    decreases i, bits
  {
    if i == 0 then bits % 256 else ByteAt(bits / 256, i - 1)
  }

  /** A number as 64 bits, most significant byte first. */
  function Length64(bits: nat): (s: seq<Byte>)
    ensures |s| == 8 && forall k :: 0 <= k < 8 ==> s[k] == ByteAt(bits, 7 - k)
  {
    seq(8, k requires 0 <= k < 8 => ByteAt(bits, 7 - k))
  }

  predicate Aligned(n: nat, zeros: nat) {
    (n + 1 + zeros + 8) % 64 == 0
  }

  /** The zero bytes of section 5.1.1, for a message of n bytes. */
  function PadZeros(n: nat): (z: nat)
    ensures Aligned(n, z)
    ensures forall y: nat :: y < z ==> !Aligned(n, y)
  {
    (55 - n) % 64
  }

  /** Section 5.1.1 for messages of whole bytes. */
  function Pad(m: seq<Byte>): (p: seq<Byte>)
    ensures |p| % 64 == 0
  {
    m + [0x80] + Zeros(PadZeros(|m|)) + Length64(8 * |m|)
  }

  function BytesOfHash(h: seq<Word>): (s: seq<Byte>)
    ensures |s| == 4 * |h|
  {
    if h == [] then [] else BytesOfHash(h[..|h|-1]) + BigEndianBytes(h[|h|-1])
  }

  /** Section 6.2: the digest of a message. */
  function Digest(m: seq<Byte>): (d: seq<Byte>)
    ensures |d| == 32
  {
    DigestWith(Compress, m)
  }

  function DigestWith(f: Folder, m: seq<Byte>): (d: seq<Byte>)
    ensures |d| == 32
  {
    BytesOfHash(Absorb(f, INITIAL, Pad(m)))
  }

  // ---- the streaming hash ----

  const WRAP_64: int := 0x1_0000_0000_0000_0000
  type uint64 = x: int | 0 <= x < 0x1_0000_0000_0000_0000

  /** The context as a value: the folded state, the waiting bytes, the count. */
  datatype Context = Context(state: Hash, tail: seq<Byte>, bits: uint64)

  /** bitlen += n * 8, in 64 bits. */
  function CountUp(bits: uint64, n: nat): uint64 {
    (bits + n * 8) % WRAP_64
  }

  lemma CountsAddUp(bits: uint64, n: nat, k: nat)
    ensures CountUp(CountUp(bits, n), k) == CountUp(bits, n + k)
  {
  }

  /** A context after more bytes: whole blocks go into the state, the rest
      waits, the bits are counted. */
  function Fed(f: Folder, c: Context, data: seq<Byte>): (r: Context)
    ensures |r.tail| < 64
  {
    var all := c.tail + data;
    Context(Absorb(f, c.state, all), Rest(all), CountUp(c.bits, |data|))
  }

  const EMPTY: Context := Context(INITIAL, [], 0)

  lemma {:induction false} AbsorbMore(f: Folder, h: Hash, m: seq<Byte>, part: seq<Byte>)
    ensures Absorb(f, h, m + part) == Absorb(f, Absorb(f, h, m), Rest(m) + part)
    ensures Rest(m + part) == Rest(Rest(m) + part)
    decreases |m|
  {
    if |m| >= 64 {
      AbsorbMore(f, f(h, m[..64]), m[64..], part);
      assert (m + part)[..64] == m[..64] && (m + part)[64..] == m[64..] + part;
    }
  }

  /** Feeding in two parts is feeding the concatenation: the digest cannot
      depend on how a message is split. */
  lemma FeedingIsAdditive(f: Folder, c: Context, a: seq<Byte>, b: seq<Byte>)
    ensures Fed(f, Fed(f, c, a), b) == Fed(f, c, a + b)
  {
    AbsorbMore(f, c.state, c.tail + a, b);
    assert c.tail + a + b == c.tail + (a + b);
    CountsAddUp(c.bits, |a|, |b|);
  }

  lemma FedNothing(f: Folder, c: Context)
    requires |c.tail| < 64
    ensures Fed(f, c, []) == c
  {
  }

  lemma OneBlock(f: Folder, h: Hash, all: seq<Byte>)
    requires |all| <= 64
    ensures |all| < 64 ==> Absorb(f, h, all) == h && Rest(all) == all
    ensures |all| == 64 ==> Absorb(f, h, all) == f(h, all) && Rest(all) == []
  {
    if |all| == 64 { assert all[..64] == all && all[64..] == []; }
  }

  /** f computes the compression function. */
  ghost predicate Implements(f: Folder) {
    forall h: Hash, b: Block {:trigger Compress(h, b)} :: f(h, b) == Compress(h, b)
  }

  /** The hash context. `fold` names the compression function for the
      specifications; Transform computes it. */
  class Hasher {
    ghost const fold: Folder
    const state: array<Word>
    const buf: array<Byte>
    var buflen: nat
    var bitlen: uint64

    ghost predicate Valid()
      reads this
    {
      state.Length == 8 && buf.Length == 64 && buflen <= 64 && Implements(fold)
    }

    ghost function View(): Context
      requires Valid()
      reads this, state, buf
    {
      Context(state[..], buf[..buflen], bitlen)
    }

    constructor (ghost compress: Folder)
      requires Implements(compress)
      ensures fold == compress
      ensures Valid() && fresh(state) && fresh(buf)
      ensures buflen == 0 && View() == EMPTY
    {
      fold := compress;
      state := new Word[8](i requires 0 <= i < 8 => INITIAL[i]);
      buf := new Byte[64](_ => 0);
      buflen := 0;
      bitlen := 0;
      new;
      assert state[..] == INITIAL;
    }

    /** Expands the buffered block into the message schedule. */
    method Expand() returns (w: array<Word>)
      requires Valid()
      ensures fresh(w) && w.Length == 64 && forall t :: 0 <= t < 64 ==> w[t] == Schedule(buf[..], t)
    {
      ghost var b: Block := buf[..];
      w := new Word[64](_ => 0);
      for i := 0 to 16
        invariant forall t :: 0 <= t < i ==> w[t] == Schedule(b, t)
      {
        w[i] := BigEndian(buf[4*i], buf[4*i+1], buf[4*i+2], buf[4*i+3]);
      }
      ExtendSchedule(w, b);
    }

    /** Folds the full buffer into the state. */
    method Transform()
      requires Valid()
      modifies state
      ensures state[..] == fold(old(state[..]), buf[..])
    {
      ghost var b: Block := buf[..];
      var w := Expand();
      var v := RunRounds(VarsOf(state[..]), w, b);
      ghost var h: Hash := state[..];
      AddInPlace(v);
      assert state[..] == Compress(h, b);
    }

    method AddInPlace(v: Vars)
      requires Valid()
      modifies state
      ensures state[..] == AddVars(v, old(state[..]))
    {
      state[0], state[1] := Add(state[0], v.a), Add(state[1], v.b);
      state[2], state[3] := Add(state[2], v.c), Add(state[3], v.d);
      state[4], state[5] := Add(state[4], v.e), Add(state[5], v.f);
      state[6], state[7] := Add(state[6], v.g), Add(state[7], v.h);
    }

    /** Feeds any number of bytes. */
    method Update(data: seq<Byte>)
      requires Valid() && buflen < 64
      modifies this, state, buf
      ensures Valid() && buflen < 64 && View() == Fed(fold, old(View()), data)
    {
      var p := 0;
      ghost var c := View();
      FedNothing(fold, c);
      while p < |data|
        invariant 0 <= p <= |data| && Valid() && buflen < 64
        invariant View() == Fed(fold, c, data[..p])
      {
        var want := 64 - buflen;
        var take := if |data| - p < want then |data| - p else want;
        var part := data[p..p+take];
        FeedPart(part);
        FeedingIsAdditive(fold, c, data[..p], part);
        assert data[..p+take] == data[..p] + part;
        p := p + take;
      }
      assert data[..p] == data;
    }

    /** One turn of the update loop: what fits in the buffer. */
    method FeedPart(part: seq<Byte>)
      requires Valid() && buflen < 64 && 0 < |part| <= 64 - buflen
      modifies this, state, buf
      ensures Valid() && buflen < 64 && View() == Fed(fold, old(View()), part)
    {
      forall i | 0 <= i < |part| { buf[buflen + i] := part[i]; }
      buflen := buflen + |part|;
      bitlen := CountUp(bitlen, |part|);
      ghost var all := old(buf[..buflen]) + part;
      assert buf[..buflen] == all;
      OneBlock(fold, state[..], all);
      if buflen == 64 {
        assert buf[..] == buf[..64] == all && state[..] == old(state[..]);
        Transform();
        assert buf[..] == all;
        buflen := 0;
      }
    }

    method PutByte(x: Byte)
      requires Valid() && buflen < 64
      modifies this`buflen, buf
      ensures Valid() && buflen == old(buflen) + 1
      ensures buf[..buflen] == old(buf[..buflen]) + [x]
    {
      buf[buflen] := x;
      buflen := buflen + 1;
    }

    method PutZeros(upTo: nat)
      requires Valid() && buflen <= upTo <= 64
      modifies this`buflen, buf
      ensures Valid() && buflen == upTo
      ensures buf[..buflen] == old(buf[..buflen]) + Zeros(upTo - old(buflen))
    {
      while buflen < upTo
        invariant Valid() && old(buflen) <= buflen <= upTo
        invariant buf[..buflen] == old(buf[..buflen]) + Zeros(buflen - old(buflen))
      {
        PutByte(0);
        assert Zeros(buflen - old(buflen)) == Zeros(buflen - 1 - old(buflen)) + [0];
      }
    }

    method PutLength()
      requires Valid() && buflen == 56
      modifies this`buflen, buf
      ensures Valid() && buflen == 64
      ensures buf[..64] == old(buf[..56]) + Length64(bitlen)
    {
      for i := 0 to 8
        invariant Valid() && buflen == 56 + i
        invariant buf[..buflen] == old(buf[..56]) + Length64(bitlen)[..i]
      {
        PutByte(ByteAt(bitlen, 7 - i));
        assert Length64(bitlen)[..i+1] == Length64(bitlen)[..i] + [ByteAt(bitlen, 7 - i)];
      }
      assert Length64(bitlen)[..8] == Length64(bitlen);
    }

    /** Folds the full buffer and empties it. */
    method Flush()
      requires Valid() && buflen == 64
      modifies this`buflen, state
      ensures Valid() && buflen == 0 && state[..] == fold(old(state[..]), old(buf[..buflen]))
    {
      assert buf[..] == buf[..64];
      Transform();
      buflen := 0;
    }

    /** Zeros up to the length field, the length, and the last fold. */
    method FlushWithLength()
      requires Valid() && buflen <= 56
      modifies this, state, buf
      ensures Valid()
      ensures state[..] == Sealed(fold, old(View()))
    {
      PutZeros(56);
      PutLength();
      Flush();
    }

    /** The 0x80 byte and, if the length no longer fits, a first fold. */
    method FlushMarker()
      requires Valid() && buflen < 64
      modifies this, state, buf
      ensures Valid() && buflen <= 56 && View() == Marked(fold, old(View()))
    {
      PutByte(0x80);
      if buflen > 56 {
        PutZeros(64);
        Flush();
      }
    }

    /** Pads and folds the last one or two blocks. */
    method FoldPadding()
      requires Valid() && buflen < 64
      modifies this, state, buf
      ensures Valid() && state[..] == Finish(fold, old(View()))
    {
      FlushMarker();
      FlushWithLength();
    }

    /** Pads, folds and returns the digest of everything fed. The standard
        defines it for messages under 2^64 bits. */
    method Final(ghost m: seq<Byte>) returns (out: array<Byte>)
      requires Valid() && buflen < 64 && View() == Fed(fold, EMPTY, m) && 8 * |m| < WRAP_64
      modifies this, state, buf
      ensures fresh(out) && out[..] == DigestWith(fold, m)
    {
      FinishPads(fold, m);
      FoldPadding();
      out := Emit();
    }

    method Emit() returns (out: array<Byte>)
      requires Valid()
      ensures fresh(out) && out[..] == BytesOfHash(state[..])
    {
      out := new Byte[32](_ => 0);
      for i := 0 to 8
        invariant out[..4*i] == BytesOfHash(state[..i])
      {
        out[4*i] := state[i] / 0x100_0000 % 256;
        out[4*i+1] := state[i] / 0x1_0000 % 256;
        out[4*i+2] := state[i] / 0x100 % 256;
        out[4*i+3] := state[i] % 256;
        assert state[..i+1][..i] == state[..i];
        assert out[..4*(i+1)] == out[..4*i] + BigEndianBytes(state[i]);
      }
      assert state[..8] == state[..] && out[..32] == out[..];
    }
  }

  /** After the 0x80 byte: a first block is folded if the length no longer fits. */
  function Marked(f: Folder, c: Context): (r: Context)
    requires |c.tail| < 64
    ensures |r.tail| <= 56
  {
    var n := |c.tail|;
    if n < 56 then c.(tail := c.tail + [0x80])
    else c.(state := f(c.state, c.tail + [0x80] + Zeros(63 - n)), tail := [])
  }

  /** The last fold: zeros up to the length field, and the length. */
  function Sealed(f: Folder, c: Context): Hash
    requires |c.tail| <= 56
  {
    f(c.state, c.tail + Zeros(56 - |c.tail|) + Length64(c.bits))
  }

  function Finish(f: Folder, c: Context): Hash
    requires |c.tail| < 64
  {
    Sealed(f, Marked(f, c))
  }

  /** The padding code folds exactly the padded message. */
  lemma FinishPads(f: Folder, m: seq<Byte>)
    requires 8 * |m| < WRAP_64
    ensures Finish(f, Fed(f, EMPTY, m)) == Absorb(f, INITIAL, Pad(m))
  {
    var c := Fed(f, EMPTY, m);
    assert EMPTY.tail + m == m && c.bits == 8 * |m|;
    var padding := [0x80] + Zeros(PadZeros(|m|)) + Length64(8 * |m|);
    assert Pad(m) == m + padding;
    AbsorbMore(f, INITIAL, m, padding);
    PaddingBlocks(f, c, |m|);
  }

  lemma PaddingBlocks(f: Folder, c: Context, n: nat)
    requires |c.tail| == n % 64 && c.bits == 8 * n
    ensures Finish(f, c) == Absorb(f, c.state, c.tail + ([0x80] + Zeros(PadZeros(n)) + Length64(8 * n)))
  {
    if |c.tail| < 56 { PadsOneBlock(f, c, n); } else { PadsTwoBlocks(f, c, n); }
  }

  lemma PadsOneBlock(f: Folder, c: Context, n: nat)
    requires |c.tail| == n % 64 < 56 && c.bits == 8 * n
    ensures Finish(f, c) == Absorb(f, c.state, c.tail + ([0x80] + Zeros(PadZeros(n)) + Length64(8 * n)))
  {
    var k := |c.tail|;
    var all := c.tail + ([0x80] + Zeros(PadZeros(n)) + Length64(8 * n));
    assert PadZeros(n) == 55 - k;
    assert all == c.tail + [0x80] + Zeros(55 - k) + Length64(8 * n);
    OneBlock(f, c.state, all);
  }

  lemma PadsTwoBlocks(f: Folder, c: Context, n: nat)
    requires |c.tail| == n % 64 >= 56 && c.bits == 8 * n
    ensures Finish(f, c) == Absorb(f, c.state, c.tail + ([0x80] + Zeros(PadZeros(n)) + Length64(8 * n)))
  {
    var k := |c.tail|;
    var all := c.tail + ([0x80] + Zeros(PadZeros(n)) + Length64(8 * n));
    assert PadZeros(n) == 63 - k + 56;
    var first := c.tail + [0x80] + Zeros(63 - k);
    var second := Zeros(56) + Length64(8 * n);
    assert Zeros(63 - k + 56) == Zeros(63 - k) + Zeros(56);
    assert all == first + second;
    AbsorbMore(f, c.state, first, second);
    OneBlock(f, c.state, first);
    assert [] + second == second && [] + Zeros(56) == Zeros(56);
    OneBlock(f, f(c.state, first), second);
  }

  method RunRounds(v0: Vars, w: array<Word>, ghost b: Block) returns (v: Vars)
    requires w.Length == 64 && forall t :: 0 <= t < 64 ==> w[t] == Schedule(b, t)
    ensures v == Rounds(v0, b, |K|)
  {
    v := v0;
    for i := 0 to |K|
      invariant v == Rounds(v0, b, i)
    {
      v := RoundInPlace(v, K[i], w[i]);
    }
  }

  method ExtendSchedule(w: array<Word>, ghost b: Block)
    requires w.Length == 64 && forall t :: 0 <= t < 16 ==> w[t] == Schedule(b, t)
    modifies w
    ensures forall t :: 0 <= t < 64 ==> w[t] == Schedule(b, t)
  {
    for i := 16 to 64
      invariant forall t :: 0 <= t < i ==> w[t] == Schedule(b, t)
    {
      var next := NextWord(w[i-16], w[i-15], w[i-7], w[i-2]);
      ScheduleAt(b, i);
      w[i] := next;
    }
  }

  /** One more word of the schedule, the terms in the code's order. */
  function NextWord(w16: Word, w15: Word, w7: Word, w2: Word): Word {
    var s0 := Sigma0(w15);
    var s1 := Sigma1(w2);
    Add(Add(Add(w16, s0), w7), s1)
  }

  /** One iteration of the compression loop, variable by variable. */
  method RoundInPlace(v: Vars, k: Word, w: Word) returns (r: Vars)
    ensures r == Round(v, k, w)
  {
    var a, b, c, d, e, f, g, h := v.a, v.b, v.c, v.d, v.e, v.f, v.g, v.h;
    var t1 := Add(Add(Add(Add(h, BigSigma1(e)), Ch(e, f, g)), k), w);
    var t2 := Add(BigSigma0(a), Maj(a, b, c));
    h := g; g := f; f := e; e := Add(d, t1);
    d := c; c := b; b := a; a := Add(t1, t2);
    r := Vars(a, b, c, d, e, f, g, h);
  }

  // ---- splitting a message, and fs.hash ----

  function Concat(parts: seq<seq<Byte>>): seq<Byte> {
    if parts == [] then [] else Concat(parts[..|parts|-1]) + parts[|parts|-1]
  }

  /** However a message is cut into parts, feeding the parts one after the
      other gives the digest of the whole. */
  method HashParts(parts: seq<seq<Byte>>) returns (digest: seq<Byte>)
    requires 8 * |Concat(parts)| < WRAP_64
    ensures digest == Digest(Concat(parts))
  {
    digest := HashPartsWith(Compress, parts);
  }

  method HashPartsWith(ghost f: Folder, parts: seq<seq<Byte>>) returns (digest: seq<Byte>)
    requires Implements(f) && 8 * |Concat(parts)| < WRAP_64
    ensures digest == DigestWith(f, Concat(parts))
  {
    var ctx := new Hasher(f);
    FedNothing(f, EMPTY);
    for k := 0 to |parts|
      invariant ctx.Valid() && ctx.buflen < 64 && ctx.View() == Fed(f, EMPTY, Concat(parts[..k]))
      invariant ctx.fold == f && fresh(ctx) && fresh(ctx.state) && fresh(ctx.buf)
    {
      ctx.Update(parts[k]);
      FeedingIsAdditive(f, EMPTY, Concat(parts[..k]), parts[k]);
      assert parts[..k+1][..k] == parts[..k];
    }
    assert parts[..|parts|] == parts;
    var out := ctx.Final(Concat(parts));
    digest := out[..];
  }

  /** What DOS Read returns with `left` bytes to go: a negative count on an
      error, 0 only at the end, else at most the 32768 asked for. */
  function ReadCount(want: int, left: nat): (got: int)
    ensures got <= left && got <= 32768 && (got == 0 <==> left == 0 && want >= 0)
  {
    if want < 0 then -1
    else if left == 0 then 0
    else if want == 0 then 1
    else if want > 32768 && left > 32768 then 32768
    else if want > left then left
    else want
  }

  /** Hashes a file read in pieces of whatever sizes the file system gives. */
  method HashFile(file: seq<Byte>, sizes: nat -> int) returns (digest: seq<Byte>, ok: bool)
    requires 8 * |file| < WRAP_64
    ensures ok ==> digest == Digest(file)
    ensures (forall k: nat :: sizes(k) >= 0) ==> ok
  {
    digest, ok := HashFileWith(Compress, file, sizes);
  }

  method HashFileWith(ghost f: Folder, file: seq<Byte>, sizes: nat -> int)
    returns (digest: seq<Byte>, ok: bool)
    requires Implements(f) && 8 * |file| < WRAP_64
    ensures ok ==> digest == DigestWith(f, file)
    ensures (forall k: nat :: sizes(k) >= 0) ==> ok
  {
    var ctx := new Hasher(f);
    var total, k := 0, 0;
    ghost var fed: seq<Byte> := [];
    FedNothing(f, EMPTY);
    while true
      invariant 0 <= total <= |file| && fed == file[..total]
      invariant ctx.Valid() && ctx.buflen < 64 && ctx.View() == Fed(f, EMPTY, fed)
      invariant ctx.fold == f && fresh(ctx) && fresh(ctx.state) && fresh(ctx.buf)
      decreases |file| - total
    {
      var got := ReadCount(sizes(k), |file| - total);
      if got < 0 { return [], false; }
      if got == 0 { break; }
      var piece := file[total..total+got];
      ctx.Update(piece);
      FeedingIsAdditive(f, EMPTY, fed, piece);
      fed := fed + piece;
      total := total + got;
      k := k + 1;
    }
    assert fed == file;
    var out := ctx.Final(fed);
    digest, ok := out[..], true;
  }
}
