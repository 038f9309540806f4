/**
 The Internet checksum of RFC 1071, section 1, as the kernel computes it: 16-bit
 words in network order are added up in 32 bits, the carries are folded back,
 and the complement is taken.
 */
module InetChecksum {
  import opened Common

  const ONES := 0xFFFF

  /** The sum of the words; a last odd byte is the high half of a word. */
  function Sum16(s: seq<byte>): nat {
    if |s| == 0 then 0
    else if |s| == 1 then Word(s[0], 0)
    else Word(s[0], s[1]) + Sum16(s[2..])
  }

  function Word(hi: byte, lo: byte): nat { 256 * (hi as int) + lo }

  /** A sum with its carries folded back in: zero only for zero, else a remainder from 1 to 65535. */
  function Fold(n: nat): (r: nat)
    ensures r <= ONES
  {
    if n == 0 then 0 else 1 + (n - 1) % ONES
  }

  function Cksum(s: seq<byte>): (c: nat)
    ensures c <= ONES
  {
    ONES - Fold(Sum16(s) % U32)
  }

  // ------------------------------------------------------------------- the loops

  lemma FoldCarry(n: nat)
    requires n >= 65536
    ensures Fold(n % 65536 + n / 65536) == Fold(n) && n % 65536 + n / 65536 < n
  {
    var a, b := n / 65536, n % 65536;
    assert n - 1 == (a + b - 1) + a * ONES;
    AddMultiple(a + b - 1, a);
  }

  lemma {:induction false} AddMultiple(x: nat, a: nat)
    ensures (x + a * ONES) % ONES == x % ONES
  {
    if a > 0 {
      AddMultiple(x, a - 1);
      assert x + a * ONES == (x + (a - 1) * ONES) + ONES;
    }
  }

  /** Folds the carries back until the sum fits 16 bits. */
  method Reduce(sum: nat) returns (r: nat)
    ensures r == Fold(sum)
  {
    hide Fold;
    r := sum;
    while r >= 65536
      invariant Fold(r) == Fold(sum)
      decreases r
    {
      FoldCarry(r);
      r := r % 65536 + r / 65536;
    }
    SmallFold(r);
  }

  lemma SmallFold(n: nat)
    requires n < 65536
    ensures Fold(n) == n
  {
  }

  /** Adds the words of a buffer to a 32-bit sum. */
  method AddBuf(sum: nat, data: seq<byte>) returns (r: nat)
    requires sum < U32
    ensures r == (sum + Sum16(data)) % U32
  {
    hide Sum16;
    r := sum;
    var i := 0;
    assert data[0..] == data;
    while |data| - i > 1
      invariant 0 <= i <= |data| && r < U32 && (r + Sum16(data[i..])) % U32 == (sum + Sum16(data)) % U32
      decreases |data| - i
    {
      NextWord(data, i);
      Wraps(r + Word(data[i], data[i + 1]), Sum16(data[i + 2..]));
      r := (r + Word(data[i], data[i + 1])) % U32;
      i := i + 2;
    }
    LastByte(data, i);
    if |data| - i > 0 {
      r := (r + Word(data[i], 0)) % U32;
    }
  }

  lemma NextWord(data: seq<byte>, i: nat)
    requires i + 1 < |data|
    ensures Sum16(data[i..]) == Word(data[i], data[i + 1]) + Sum16(data[i + 2..])
  {
    assert data[i..][2..] == data[i + 2..];
  }

  lemma LastByte(data: seq<byte>, i: nat)
    requires i <= |data| <= i + 1
    ensures Sum16(data[i..]) == if i < |data| then Word(data[i], 0) else 0
  {
  }

  lemma Wraps(a: nat, b: nat)
    ensures (a % U32 + b) % U32 == (a + b) % U32
  {
  }

  /** The checksum of a contiguous block. */
  method InCksum(data: seq<byte>) returns (c: nat)
    ensures c == Cksum(data)
  {
    hide Sum16, Fold;
    var sum := AddBuf(0, data);
    var r := Reduce(sum);
    c := ONES - r;
  }

  // -------------------------------------------------------------------- the laws

  /** Adding up in parts is adding up in one pass, when the parts before the last have even length. */
  lemma {:induction false} Sum16Concat(a: seq<byte>, b: seq<byte>)
    requires |a| % 2 == 0
    ensures Sum16(a + b) == Sum16(a) + Sum16(b)
  {
    if a == [] {
      assert a + b == b;
    } else {
      assert (a + b)[2..] == a[2..] + b;
      Sum16Concat(a[2..], b);
    }
  }

  /** So the 32-bit sums agree too, whatever they start from. */
  lemma PiecewiseSum(sum: nat, a: seq<byte>, b: seq<byte>)
    requires |a| % 2 == 0
    ensures ((sum + Sum16(a)) % U32 + Sum16(b)) % U32 == (sum + Sum16(a + b)) % U32
  {
    hide Sum16;
    Sum16Concat(a, b);
    Wraps(sum + Sum16(a), Sum16(b));
  }

  lemma OneWord(hi: byte, lo: byte)
    ensures Sum16([hi, lo]) == Word(hi, lo)
  {
    assert [hi, lo][2..] == [];
  }

  /** A part of odd length shifts what follows it by one byte: adding up in parts is then right exactly if that makes no difference. */
  lemma {:induction false} OddPartsDiffer(a: seq<byte>, b: seq<byte>)
    requires |a| % 2 == 1
    ensures Sum16(a + b) == Sum16(a) + Sum16([0] + b)
    ensures Sum16(a + b) == Sum16(a) + Sum16(b) <==> Sum16([0] + b) == Sum16(b)
  {
    if |a| == 1 {
      if b == [] {
        assert a + b == a && [0] + b == [0];
      } else {
        assert (a + b)[2..] == b[1..] == ([0] + b)[2..];
      }
    } else {
      assert (a + b)[2..] == a[2..] + b;
      OddPartsDiffer(a[2..], b);
    }
  }

  lemma OddPartsExample()
    ensures Sum16([1] + [1]) != Sum16([1]) + Sum16([1])
  {
    assert [1] + [1] == [1, 1] && [1, 1][2..] == [];
  }

  lemma {:induction false} Sum16Bound(s: seq<byte>)
    ensures Sum16(s) <= 32768 * (|s| + 1)
  {
    if |s| > 1 {
      Sum16Bound(s[2..]);
    }
  }

  function Swap16(v: nat): nat { v % 256 * 256 + v / 256 % 256 }

  /** s with the word at k set, high byte first. */
  function PutWord(s: seq<byte>, k: nat, v: nat): (r: seq<byte>)
    requires k + 1 < |s| && v <= ONES
    ensures |r| == |s|
  {
    s[..k] + [v / 256, v % 256] + s[k + 2..]
  }

  lemma {:induction false} Sum16Put(s: seq<byte>, k: nat, v: nat)
    requires k + 1 < |s| && k % 2 == 0 && s[k] == 0 && s[k + 1] == 0 && v <= ONES
    ensures Sum16(PutWord(s, k, v)) == Sum16(s) + v
  {
    if k == 0 {
      assert PutWord(s, k, v)[2..] == s[2..];
    } else {
      assert PutWord(s, k, v)[2..] == PutWord(s[2..], k - 2, v);
      Sum16Put(s[2..], k - 2, v);
    }
  }

  /** A remainder is zero for exactly one word, up to the two forms of zero. */
  lemma FoldOnes(sum: nat, v: nat)
    requires v <= ONES
    ensures Fold(sum + v) == ONES <==> (sum + v) % ONES == 0 && sum + v > 0
  {
  }

  /**
   RFC 1071 wants the checksum in the field so that the sum over everything is
   all ones. Stored high byte first it does that. The kernel stores it in host
   order, low byte first, and then it does that exactly when the two bytes are
   the same.
   */
  lemma FieldInHostOrder(s: seq<byte>, k: nat)
    requires k + 1 < |s| && k % 2 == 0 && s[k] == 0 && s[k + 1] == 0 && |s| <= 0xFFFF
    ensures Cksum(PutWord(s, k, Cksum(s))) == 0
    ensures Cksum(PutWord(s, k, Swap16(Cksum(s)))) == 0 <==> Swap16(Cksum(s)) == Cksum(s)
  {
    hide Sum16, PutWord, Cksum, Fold, Swap16;
    var sum, c := Sum16(s), Cksum(s);
    NoWrap(s);
    SwapFits(c);
    Sum16Put(s, k, c);
    Sum16Put(s, k, Swap16(c));
    NoWrap(PutWord(s, k, c));
    NoWrap(PutWord(s, k, Swap16(c)));
    Cancels(sum);
    OnlyOne(sum, c, Swap16(c));
  }

  lemma NoWrap(s: seq<byte>)
    requires |s| < 0x1_FFFF
    ensures Cksum(s) == ONES - Fold(Sum16(s))
  {
    hide Sum16, Fold;
    Sum16Bound(s);
  }

  /** Swapping the bytes of a word multiplies it by 256, up to multiples of 65535. */
  lemma SwapIsTimes(v: nat)
    requires v <= ONES
    ensures Swap16(v) == 256 * v - ONES * (v / 256)
  {
  }

  /** The two bytes of a word are the same exactly for the multiples of 257. */
  lemma SameBytes(v: nat)
    requires v <= ONES
    ensures Swap16(v) == v <==> v % 257 == 0
  {
  }

  /** Folding keeps the remainder by 257, of which 65535 is a multiple. */
  lemma FoldKeeps(n: nat) returns (q: nat)
    ensures n == Fold(n) + q * ONES && Fold(n) % 257 == n % 257
  {
    q := if n == 0 then 0 else (n - 1) / ONES;
    assert n == Fold(n) + q * ONES;
    Multiple257(Fold(n), 255 * q);
  }

  lemma {:induction false} Multiple257(x: nat, q: nat)
    ensures (x + q * 257) % 257 == x % 257
  {
    if q > 0 {
      Multiple257(x, q - 1);
      assert x + q * 257 == (x + (q - 1) * 257) + 257;
    }
  }

  lemma SwapFits(v: nat)
    requires v <= ONES
    ensures Swap16(v) <= ONES && (v == 0 <==> Swap16(v) == 0) && (v == ONES <==> Swap16(v) == ONES)
  {
  }

  lemma Cancels(sum: nat)
    ensures Fold(sum + (ONES - Fold(sum))) == ONES
  {
    if sum > 0 {
      var q := (sum - 1) / ONES;
      assert sum - Fold(sum) == q * ONES;
      assert sum + (ONES - Fold(sum)) - 1 == (ONES - 1) + q * ONES;
      AddMultiple(ONES - 1, q);
    }
  }

  lemma OnlyOne(sum: nat, c: nat, d: nat)
    requires c <= ONES && d <= ONES && Fold(sum + c) == ONES && (c == 0 <==> d == 0) && (c == ONES <==> d == ONES)
    ensures Fold(sum + d) == ONES <==> c == d
  {
    if Fold(sum + d) == ONES {
      FoldOnes(sum, c);
      FoldOnes(sum, d);
      SameRest(sum, c, d);
    }
  }

  lemma SameRest(sum: nat, c: nat, d: nat)
    requires c <= ONES && d <= ONES && (sum + c) % ONES == 0 && (sum + d) % ONES == 0
    ensures c == d || (c == 0 && d == ONES) || (c == ONES && d == 0)
  {
  }
}
