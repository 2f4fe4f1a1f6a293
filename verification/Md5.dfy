/** The message that MD5 digests: padding, length and blocks (RFC 1321, sections 3.1 to 3.5). */
module Md5Spec {
  import opened Bits
  import opened Bytes

  datatype Registers = Registers(a: word, b: word, c: word, d: word)

  /** Section 3.3. */
  const INIT := Registers(0x67452301, 0xefcdab89, 0x98badcfe, 0x10325476)

  /** The block function of section 3.4. */
  type Process = (Registers, seq<byte>) -> Registers

  /** All full blocks of a message, one after another; a partial block at the end is not processed. */
  function Fold(f: Process, s: Registers, m: seq<byte>): Registers
    decreases |m|
  {
    if |m| < 64 then s else Fold(f, f(s, m[..64]), m[64..])
  }

  lemma {:induction false} FoldSplit(f: Process, s: Registers, a: seq<byte>, b: seq<byte>)
    requires |a| % 64 == 0
    ensures Fold(f, s, a + b) == Fold(f, Fold(f, s, a), b)
    decreases |a|
  {
    if a == [] {
      assert a + b == b;
    } else {
      assert (a + b)[..64] == a[..64] && (a + b)[64..] == a[64..] + b;
      FoldSplit(f, f(s, a[..64]), a[64..], b);
    }
  }

  lemma FoldOne(f: Process, s: Registers, b: seq<byte>)
    requires |b| == 64
    ensures Fold(f, s, b) == f(s, b)
  {
    assert b[..64] == b && b[64..] == [];
  }

  lemma {:induction false} FoldTail(f: Process, s: Registers, a: seq<byte>, tail: seq<byte>)
    requires |a| % 64 == 0 && |tail| < 64
    ensures Fold(f, s, a + tail) == Fold(f, s, a)
  {
    FoldSplit(f, s, a, tail);
  }

  /** A message length in bits as 8 bytes, low-order word first; only the low 64 bits count. */
  function LengthBytes(bytes: nat): seq<byte> {
    WordBytes(LowBits(bytes)) + WordBytes(HighBits(bytes))
  }

  /** The two words of the length in bits. */
  function LowBits(bytes: nat): word {
    8 * bytes % WORD
  }

  function HighBits(bytes: nat): word {
    8 * bytes / WORD % WORD
  }

  /** How many bytes bring a length to 56 modulo 64, at least one. */
  function PadLength(n: nat): (k: nat)
    ensures 1 <= k <= 64 && (n + k) % 64 == 56
  {
    (55 - n) % 64 + 1
  }

  function Zeros(n: nat): seq<byte> {
    seq(n, _ => 0)
  }

  /** The padded message: a one bit, zeros up to 56 modulo 64, and the length. */
  function Padded(m: seq<byte>): seq<byte> {
    m + ([0x80] + Zeros(PadLength(|m|) - 1)) + LengthBytes(|m|)
  }

  /** It extends the message to a whole number of blocks, by at most a block and the length. */
  lemma PaddedBlocks(m: seq<byte>)
    ensures m <= Padded(m) && |Padded(m)| % 64 == 0 && |m| + 9 <= |Padded(m)| <= |m| + 72
    ensures Padded(m)[|m|] == 0x80 && forall i :: |m| < i < |Padded(m)| - 8 ==> Padded(m)[i] == 0
  {
    hide PadLength, LowBits, HighBits, WordBytes;
    assert |Padded(m)| == |m| + PadLength(|m|) + 8;
    assert (|m| + PadLength(|m|)) % 64 == 56;
  }

  /** Two messages of less than 2^61 bytes are padded differently. */
  lemma PaddedInjective(m: seq<byte>, n: seq<byte>)
    requires 8 * |m| < WORD * WORD && 8 * |n| < WORD * WORD && Padded(m) == Padded(n)
    ensures m == n
  {
    hide Padded;
    LengthAtEnd(m);
    LengthAtEnd(n);
    PaddedBlocks(m);
    PaddedBlocks(n);
    assert m == Padded(m)[..|m|] && n == Padded(n)[..|n|];
  }

  lemma AllBits(n: nat)
    requires 8 * n < WORD * WORD
    ensures LowBits(n) + WORD * HighBits(n) == 8 * n
  {
    assert 8 * n / WORD < WORD;
  }

  /** Read as two words, low-order word first, the last 8 bytes give the length in bits. */
  lemma LengthAtEnd(m: seq<byte>)
    requires 8 * |m| < WORD * WORD
    ensures var p := Padded(m); |p| >= 8 && WordOf(p[|p| - 8..|p| - 4]) + WORD * WordOf(p[|p| - 4..]) == 8 * |m|
  {
    hide LowBits, HighBits, WordBytes, WordOf, PadLength;
    var p := Padded(m);
    assert p[|p| - 8..|p| - 4] == WordBytes(LowBits(|m|));
    assert p[|p| - 4..] == WordBytes(HighBits(|m|));
    WordRoundTrip(LowBits(|m|));
    WordRoundTrip(HighBits(|m|));
    AllBits(|m|);
  }

  /** The digest gives the registers in order, each low-order byte first. */
  lemma RegisterWords(r: Registers)
    ensures var b := RegisterBytes(r); WordOf(b[..4]) == r.a && WordOf(b[4..8]) == r.b && WordOf(b[8..12]) == r.c && WordOf(b[12..]) == r.d
  {
    hide WordBytes, WordOf;
    var b := RegisterBytes(r);
    assert b[..4] == WordBytes(r.a) && b[4..8] == WordBytes(r.b) && b[8..12] == WordBytes(r.c) && b[12..] == WordBytes(r.d);
    WordRoundTrip(r.a);
    WordRoundTrip(r.b);
    WordRoundTrip(r.c);
    WordRoundTrip(r.d);
  }

  function RegisterBytes(r: Registers): (b: seq<byte>)
    ensures |b| == 16
  {
    WordBytes(r.a) + WordBytes(r.b) + WordBytes(r.c) + WordBytes(r.d)
  }

  /** The message digest. */
  function Digest(f: Process, m: seq<byte>): seq<byte> {
    RegisterBytes(Fold(f, INIT, Padded(m)))
  }
}

/** The streaming implementation: a bit count in two words, the registers, and a block being filled. */
module Md5 {
  import opened Bits
  import opened Bytes
  import opened Division
  import opened Md5Spec

  lemma ModAdd(x: nat, y: nat)
    ensures (x % WORD + y) % WORD == (x + y) % WORD
  {
    var q, r := x / WORD, x % WORD;
    var q', r' := (r + y) / WORD, (r + y) % WORD;
    assert x == WORD * q + r;
    assert r + y == WORD * q' + r';
    assert x + y == WORD * (q + q') + r';
    DivModUnique(x + y, WORD, q + q', r');
  }

  /** The low word of the count after n more bytes, n below 2^31. */
  function LowAfter(lo: word, n: nat): word {
    (lo + 8 * n % WORD) % WORD
  }

  /** The high word, with the carry that shows as a low word below what was added. */
  function HighAfter(lo: word, hi: word, n: nat): word {
    var h := (hi + n / 0x2000_0000) % WORD;
    if LowAfter(lo, n) < 8 * n % WORD then (h + 1) % WORD else h
  }

  lemma CountStep(m: nat, n: nat)
    requires n < 0x8000_0000
    ensures LowAfter(LowBits(m), n) == LowBits(m + n)
    ensures HighAfter(LowBits(m), HighBits(m), n) == HighBits(m + n)
  {
    hide LowBits, HighBits;
    var lo, more, q, top := LowBits(m), 8 * n % WORD, 8 * m / WORD, n / 0x2000_0000;
    BitsOf(m);
    MoreIs(n, top, more);
    if lo + more < WORD {
      BitsAre(m + n, q + top, lo + more);
      ModAdd(q, top);
      Carry(lo, more);
    } else {
      BitsAre(m + n, q + top + 1, lo + more - WORD);
      ModAdd(q, top);
      ModAdd(q + top, 1);
      Carry(lo, more);
    }
  }

  lemma MoreIs(n: nat, top: nat, more: nat)
    requires top == n / 0x2000_0000 && more == 8 * n % WORD
    ensures 8 * n == WORD * top + more
  {
  }

  lemma BitsOf(m: nat)
    ensures 8 * m == WORD * (8 * m / WORD) + LowBits(m) && HighBits(m) == 8 * m / WORD % WORD
  {
  }

  lemma BitsAre(m: nat, q: nat, r: nat)
    requires 8 * m == WORD * q + r && r < WORD
    ensures LowBits(m) == r && HighBits(m) == q % WORD
  {
    DivModUnique(8 * m, WORD, q, r);
  }

  lemma Carry(lo: word, more: word)
    ensures (lo + more) % WORD == if lo + more < WORD then lo + more else lo + more - WORD
  {
  }

  /** The low word of the count gives the place in the block. */
  lemma OffsetOf(n: nat)
    ensures LowBits(n) / 8 % 64 == n % 64
    ensures (55 - LowBits(n) / 8) % WORD % 64 == (55 - n) % 64
  {
    hide LowBits;
    var q := 8 * n / WORD;
    BitsOf(n);
    Eighth(n, LowBits(n), q);
    var k := 0x80_0000 * q;
    assert LowBits(n) / 8 == n - 64 * k;
    SameRemainder(n, n - 64 * k, k);
  }

  lemma Eighth(n: nat, lo: nat, q: nat)
    requires 8 * n == WORD * q + lo
    ensures lo / 8 == n - 0x2000_0000 * q
  {
  }

  lemma SameRemainder(n: nat, x: nat, k: nat)
    requires x == n - 64 * k
    ensures x % 64 == n % 64 && (55 - x) % WORD % 64 == (55 - n) % 64
  {
    SameMod(n, x, k);
    SameMod(55 - x, 55 - n, k);
    SameMod(55 - x, (55 - x) % WORD, 0x400_0000 * ((55 - x) / WORD));
  }

  lemma SameMod(a: int, b: int, j: int)
    requires a == b + 64 * j
    ensures a % 64 == b % 64
  {
    var q, r := b / 64, b % 64;
    assert a == 64 * (q + j) + r;
  }

  // ----- the buffer

  function Rem(n: nat): nat {
    n % 64
  }

  /** The buffer starts with what the full blocks of m leave over. */
  ghost predicate TailIn(b: seq<byte>, m: seq<byte>) {
    |b| == 64 && b[..Rem(|m|)] == m[|m| - Rem(|m|)..]
  }

  /** More bytes in the buffer: either it is still partial, or it is the next block. */
  lemma Grown(f: Process, b: seq<byte>, was: seq<byte>, m: seq<byte>, c: seq<byte>)
    requires TailIn(was, m) && Rem(|m|) + |c| <= 64 && c != []
    requires b == was[..Rem(|m|)] + c + was[Rem(|m|) + |c|..]
    ensures Rem(|m|) + |c| < 64 ==> TailIn(b, m + c) && Fold(f, INIT, m + c) == Fold(f, INIT, m)
    ensures Rem(|m|) + |c| == 64 ==> Rem(|m + c|) == 0 && Fold(f, INIT, m + c) == f(Fold(f, INIT, m), b)
  {
    hide Fold, Rem;
    RemBound(|m|);
    var n := |m| - Rem(|m|);
    var a, t := m[..n], m[n..];
    Joined(m, n, c);
    Overwritten(b, was, t, c);
    Leftover(f, a, t, was);
    if Rem(|m|) + |c| < 64 {
      Leftover(f, a, t + c, b);
    } else {
      NextBlock(f, a, b);
    }
  }

  lemma Joined(m: seq<byte>, n: nat, c: seq<byte>)
    requires n <= |m|
    ensures m == m[..n] + m[n..] && m + c == m[..n] + (m[n..] + c)
  {
  }

  lemma Overwritten(b: seq<byte>, was: seq<byte>, t: seq<byte>, c: seq<byte>)
    requires |t| + |c| <= |was| == 64 && was[..|t|] == t && b == was[..|t|] + c + was[|t| + |c|..]
    ensures |b| == 64 && b[..|t + c|] == t + c && (|t + c| == 64 ==> b == t + c)
  {
  }

  lemma RemBound(n: nat)
    ensures Rem(n) < 64 && Rem(n) <= n && Rem(n - Rem(n)) == 0
  {
  }

  lemma NextBlock(f: Process, a: seq<byte>, b: seq<byte>)
    requires Rem(|a|) == 0 && |b| == 64
    ensures Rem(|a + b|) == 0 && Fold(f, INIT, a + b) == f(Fold(f, INIT, a), b)
  {
    hide Fold;
    FoldSplit(f, INIT, a, b);
    FoldOne(f, Fold(f, INIT, a), b);
  }

  /** Less than a block after full blocks. */
  lemma Leftover(f: Process, a: seq<byte>, t: seq<byte>, b: seq<byte>)
    requires Rem(|a|) == 0 && |t| < 64 && |b| == 64 && b[..|t|] == t
    ensures Fold(f, INIT, a + t) == Fold(f, INIT, a) && TailIn(b, a + t)
  {
    hide Fold;
    FoldTail(f, INIT, a, t);
    assert Rem(|a + t|) == |t|;
  }

  class Md5State {
    const process: Process
    var count0: word
    var count1: word
    var abcd: Registers
    const buf: array<byte>

    /** Fresh state; only `Init` gives it a meaning. */
    constructor (process: Process)
      ensures this.process == process && buf.Length == 64 && fresh(buf)
    {
      this.process := process;
      count0, count1, abcd := 0, 0, Registers(0, 0, 0, 0);
      buf := new byte[64];
    }

    /** The state after exactly the message m: its full blocks processed, its tail in the buffer, its length counted. */
    ghost predicate Holds(m: seq<byte>)
      reads this, buf
    {
      abcd == Fold(process, INIT, m) && TailIn(buf[..], m) && count0 == LowBits(|m|) && count1 == HighBits(|m|)
    }

    /** `md5_init`; the buffer is not touched. */
    method Init()
      requires buf.Length == 64
      modifies this
      ensures Holds([])
    {
      count0, count1 := 0, 0;
      abcd := INIT;
    }

    method Copy(at: nat, data: array<byte>, from: nat, n: nat)
      requires data != buf && at + n <= buf.Length && from + n <= data.Length
      modifies buf
      ensures buf[..] == old(buf[..at]) + data[from..from + n] + old(buf[at + n..])
    {
      for i := 0 to n
        invariant forall j :: 0 <= j < buf.Length ==> buf[j] == if at <= j < at + i then data[from + j - at] else old(buf[j])
      {
        buf[at + i] := data[from + i];
      }
    }

    /** The message length: low word first, with its carry. */
    method Count(nbytes: nat, ghost n: nat)
      requires nbytes < 0x8000_0000 && count0 == LowBits(n) && count1 == HighBits(n)
      modifies `count0, `count1
      ensures count0 == LowBits(n + nbytes) && count1 == HighBits(n + nbytes)
    {
      hide LowBits, HighBits;
      var nbits := 8 * nbytes % WORD;
      CountStep(n, nbytes);
      count1 := (count1 + nbytes / 0x2000_0000) % WORD;
      count0 := (count0 + nbits) % WORD;
      if count0 < nbits {
        count1 := (count1 + 1) % WORD;
      }
    }

    /** The block being filled: more of it, up to its end. */
    method FillBlock(data: array<byte>, nbytes: nat, offset: nat, ghost m: seq<byte>) returns (copy: nat)
      requires 0 < nbytes <= data.Length && data != buf && TailIn(buf[..], m) && offset == Rem(|m|) > 0
      requires abcd == Fold(process, INIT, m)
      modifies buf, `abcd
      ensures copy == if offset + nbytes > 64 then 64 - offset else nbytes
      ensures abcd == Fold(process, INIT, m + data[..copy])
      ensures if offset + copy < 64 then TailIn(buf[..], m + data[..copy]) else Rem(|m + data[..copy]|) == 0
    {
      hide Fold, Rem, TailIn;
      RemBound(|m|);
      copy := if offset + nbytes > 64 then 64 - offset else nbytes;
      ghost var was := buf[..];
      TailSize(was, m);
      Copy(offset, data, 0, copy);
      Grown(process, buf[..], was, m, data[..copy]);
      if offset + copy >= 64 {
        abcd := process(abcd, buf[..]);
      }
    }

    /** Whole blocks straight from the data. */
    method FullBlocks(data: array<byte>, from: nat, nbytes: nat, ghost m: seq<byte>) returns (p: nat)
      requires from <= nbytes <= data.Length && Rem(|m + data[..from]|) == 0 && abcd == Fold(process, INIT, m + data[..from])
      modifies `abcd
      ensures from <= p <= nbytes < p + 64 && Rem(|m + data[..p]|) == 0 && abcd == Fold(process, INIT, m + data[..p])
    {
      hide Fold, Rem;
      p := from;
      var left := nbytes - from;
      while left >= 64
        invariant from <= p && p + left == nbytes && left >= 0
        invariant Rem(|m + data[..p]|) == 0 && abcd == Fold(process, INIT, m + data[..p])
      {
        NextBlock(process, m + data[..p], data[p..p + 64]);
        assert m + data[..p] + data[p..p + 64] == m + data[..p + 64];
        abcd := process(abcd, data[p..p + 64]);
        p, left := p + 64, left - 64;
      }
    }

    /** What is left goes to the buffer. */
    method KeepRest(data: array<byte>, p: nat, nbytes: nat, ghost m: seq<byte>)
      requires p <= nbytes <= data.Length && nbytes < p + 64 && data != buf && buf.Length == 64 && Rem(|m + data[..p]|) == 0
      modifies buf
      ensures TailIn(buf[..], m + data[..nbytes])
      ensures Fold(process, INIT, m + data[..nbytes]) == Fold(process, INIT, m + data[..p])
    {
      hide Fold, Rem, TailIn;
      var left := nbytes - p;
      if left != 0 {
        Copy(0, data, p, left);
      }
      assert buf[..left] == data[p..nbytes];
      Leftover(process, m + data[..p], data[p..nbytes], buf[..]);
      assert m + data[..p] + data[p..nbytes] == m + data[..nbytes];
    }

    /** `md5_append`, after any message and for any next piece of it. */
    method Append(data: array<byte>, nbytes: int, ghost m: seq<byte>)
      requires Holds(m) && data != buf && nbytes <= data.Length && nbytes + |m| % 64 < 0x8000_0000
      modifies this, buf
      ensures Holds(m + data[..if nbytes < 0 then 0 else nbytes])
    {
      hide Fold, Rem, TailIn, LowBits, HighBits;
      var offset: nat := count0 / 8 % 64;
      if nbytes <= 0 {
        assert m + data[..0] == m;
        return;
      }
      TailSize(buf[..], m);
      var p: nat := 0;
      Count(nbytes, |m|);
      if offset != 0 {
        p := FillBlock(data, nbytes, offset, m);
        if offset + p < 64 {
          return;
        }
      } else {
        assert m + data[..0] == m;
      }
      p := FullBlocks(data, p, nbytes, m);
      KeepRest(data, p, nbytes, m);
    }

    /** The length before padding, as 8 bytes. */
    method SaveLength(ghost n: nat) returns (data: array<byte>)
      requires count0 == LowBits(n) && count1 == HighBits(n)
      ensures fresh(data) && data.Length == 8 && data[..] == LengthBytes(n)
    {
      hide LowBits, HighBits, ByteOf;
      data := new byte[8];
      for i := 0 to 8
        invariant data[..i] == LengthBytes(n)[..i]
      {
        data[i] := ByteOf(if i / 4 == 0 then count0 else count1, i % 4);
        LengthByte(n, i);
        assert data[..i + 1] == data[..i] + [data[i]];
      }
      assert data[..] == data[..8];
    }

    /** The registers as 16 bytes. */
    method WriteDigest(digest: array<byte>)
      requires digest.Length == 16
      modifies digest
      ensures digest[..] == RegisterBytes(abcd)
    {
      hide ByteOf;
      for i := 0 to 16
        invariant digest[..i] == RegisterBytes(abcd)[..i]
      {
        digest[i] := ByteOf(if i / 4 == 0 then abcd.a else if i / 4 == 1 then abcd.b else if i / 4 == 2 then abcd.c else abcd.d, i % 4);
        RegisterByte(abcd, i);
        assert digest[..i + 1] == digest[..i] + [digest[i]];
      }
      assert digest[..] == digest[..16];
    }

    /** `md5_finish`: what was appended is digested as the padded message, which ends at a block boundary. */
    method Finish(digest: array<byte>, ghost m: seq<byte>)
      requires Holds(m) && digest.Length == 16 && digest != buf
      modifies this, buf, digest
      ensures digest[..] == Digest(process, m) && Holds(Padded(m))
    {
      hide Fold, TailIn, LowBits, HighBits, PadLength, Padded, LengthBytes, RegisterBytes;
      var data := SaveLength(|m|);
      var pad := new byte[64](i => if i == 0 then 0x80 else 0);
      OffsetOf(|m|);
      var n: nat := (55 - count0 / 8) % WORD % 64 + 1;
      PadIs(|m|, n);
      ghost var padding := pad[..n];
      Append(pad, n, m);
      Append(data, 8, m + padding);
      assert data[..8] == data[..];
      PaddedIs(m, padding, data[..]);
      WriteDigest(digest);
    }
  }

  lemma LengthByte(n: nat, i: nat)
    requires i < 8
    ensures |LengthBytes(n)| == 8 && LengthBytes(n)[i] == ByteOf(if i / 4 == 0 then LowBits(n) else HighBits(n), i % 4)
  {
    hide LowBits, HighBits, ByteOf;
  }

  lemma RegisterByte(r: Registers, i: nat)
    requires i < 16
    ensures RegisterBytes(r)[i] == ByteOf(if i / 4 == 0 then r.a else if i / 4 == 1 then r.b else if i / 4 == 2 then r.c else r.d, i % 4)
  {
    hide ByteOf;
  }

  lemma PadIs(n: nat, k: nat)
    requires k == (55 - n) % 64 + 1
    ensures k == PadLength(n) && 1 <= k <= 64
  {
  }

  lemma PaddedIs(m: seq<byte>, padding: seq<byte>, length: seq<byte>)
    requires |padding| == PadLength(|m|) && padding[0] == 0x80 && length == LengthBytes(|m|)
    requires forall i :: 1 <= i < |padding| ==> padding[i] == 0
    ensures m + padding + length == Padded(m)
  {
    hide PadLength, LengthBytes;
    assert padding == [0x80] + Zeros(|padding| - 1);
  }

  lemma TailSize(b: seq<byte>, m: seq<byte>)
    requires TailIn(b, m)
    ensures |b| == 64 && LowBits(|m|) / 8 % 64 == Rem(|m|)
  {
    OffsetOf(|m|);
  }
}
