/** The Internet checksum of RFC 1071: its definition by end-around carries, the two-fold 32-bit
    computation of the program, and why the two agree. */
module Checksum {
  import opened Common

  type Word = x: int | 0 <= x < 0x1_0000

  const M := 0xffff

  // ---- Words and their sums ----------------------------------------------------------------

  /** A 16-bit word as a little-endian machine loads it, and as the network orders it. */
  function Little(a: Byte, b: Byte): Word {
    a + 0x100 * b
  }

  function Big(a: Byte, b: Byte): Word {
    0x100 * a + b
  }

  function Low(w: Word): Byte {
    w % 0x100
  }

  function High(w: Word): Byte {
    w / 0x100
  }

  /** `htons` on a little-endian machine. */
  function Swap(w: Word): (r: Word)
    ensures Low(r) == High(w) && High(r) == Low(w)
  {
    0x100 * Low(w) + High(w)
  }

  /** The plain sum of the words of a buffer; a last odd byte counts as the byte at the lower
      address of a word whose other byte is zero. */
  function LittleSum(b: seq<Byte>): nat {
    if |b| == 0 then 0
    else if |b| == 1 then b[0]
    else Little(b[0], b[1]) + LittleSum(b[2..])
  }

  /** Ones' complement addition: the carry out of the top comes back in at the bottom. */
  function OnesAdd(a: Word, b: Word): Word {
    if a + b > M then a + b - M else a + b
  }

  /** The ones' complement sum of a buffer, in either byte order (section 1 of RFC 1071). */
  function OnesLittle(b: seq<Byte>): Word {
    if |b| == 0 then 0
    else if |b| == 1 then b[0]
    else OnesAdd(Little(b[0], b[1]), OnesLittle(b[2..]))
  }

  function OnesBig(b: seq<Byte>): Word {
    if |b| == 0 then 0
    else if |b| == 1 then Big(b[0], 0)
    else OnesAdd(Big(b[0], b[1]), OnesBig(b[2..]))
  }

  /** The representative of `n` modulo 65535 that ones' complement addition arrives at: zero
      only for zero itself. */
  function Canon(n: nat): (w: Word)
    ensures w == 0 <==> n == 0
    ensures w % M == n % M
  {
    if n == 0 then 0 else (n - 1) % M + 1
  }

  // ---- Arithmetic modulo 65535 -------------------------------------------------------------

  lemma ModShift(x: int, k: int)
    ensures (x + M * k) % M == x % M
  {
  }

  lemma ModAdd(x: int, x': int, y: int, y': int)
    requires x % M == x' % M && y % M == y' % M
    ensures (x + y) % M == (x' + y') % M
  {
    var k := (x / M - x' / M) + (y / M - y' / M);
    assert x + y == x' + y' + M * k;
    ModShift(x' + y', k);
  }

  /** Numbers closer together than 65535 are congruent only if equal. */
  lemma ModSmall(x: int, d: int)
    requires -M <= d <= M && (x + d) % M == x % M
    ensures d == 0 || d == M || d == -M
  {
    var k := (x + d) / M - x / M;
    assert d == M * k;
    assert -1 <= k <= 1;
  }

  lemma WordUnique(v: Word, w: Word)
    requires v % M == w % M && (v == 0 <==> w == 0)
    ensures v == w
  {
    ModSmall(w, v - w);
  }

  lemma OnesAddMod(a: Word, b: Word)
    ensures OnesAdd(a, b) % M == (a + b) % M
    ensures OnesAdd(a, b) == 0 <==> a + b == 0
  {
    if a + b > M {
      ModShift(a + b, -1);
    }
  }

  lemma OnesAddCanon(a: Word, n: nat)
    ensures OnesAdd(a, Canon(n)) == Canon(a + n)
  {
    OnesAddMod(a, Canon(n));
    ModAdd(a, a, Canon(n), n);
    WordUnique(OnesAdd(a, Canon(n)), Canon(a + n));
  }

  /** Adding with end-around carries amounts to adding and reducing once at the end. */
  lemma {:induction false} OnesLittleCanon(b: seq<Byte>)
    ensures OnesLittle(b) == Canon(LittleSum(b))
  {
    if |b| >= 2 {
      OnesLittleCanon(b[2..]);
      OnesAddCanon(Little(b[0], b[1]), LittleSum(b[2..]));
    }
  }

  // ---- The two byte orders -----------------------------------------------------------------

  /** A buffer with the two bytes of each word exchanged; a last odd byte moves to the upper
      address of a word of its own. */
  function SwapPairs(b: seq<Byte>): (r: seq<Byte>)
    ensures |r| == |b| + |b| % 2
  {
    if |b| == 0 then []
    else if |b| == 1 then [0, b[0]]
    else [b[1], b[0]] + SwapPairs(b[2..])
  }

  lemma {:induction false} SwapPairsAt(b: seq<Byte>, i: nat)
    requires i < |SwapPairs(b)|
    ensures SwapPairs(b)[i] ==
      if i % 2 == 0 then (if i + 1 < |b| then b[i + 1] else 0) else b[i - 1]
  {
    if i >= 2 {
      SwapPairsAt(b[2..], i - 2);
    }
  }

  /** Summing the exchanged buffer in machine order is summing the buffer in network order. */
  lemma {:induction false} SwappedSum(b: seq<Byte>)
    ensures OnesLittle(SwapPairs(b)) == OnesBig(b)
  {
    if |b| >= 2 {
      SwappedSum(b[2..]);
      assert SwapPairs(b)[2..] == SwapPairs(b[2..]);
    } else if |b| == 1 {
      assert SwapPairs(b)[2..] == [];
    }
  }

  lemma SwapMod(w: Word, n: nat)
    requires w % M == n % M
    ensures Swap(w) % M == (0x100 * n) % M
  {
    var k := n / M - w / M;
    assert n == w + M * k;
    assert 0x100 * w == Swap(w) + M * High(w);
    assert 0x100 * n == Swap(w) + M * (High(w) + 0x100 * k);
    ModShift(Swap(w), High(w) + 0x100 * k);
  }

  lemma SwapLittle(a: Byte, b: Byte)
    ensures Swap(Little(a, b)) == Big(a, b)
    ensures Low(Little(a, b)) == a && High(Little(a, b)) == b
  {
  }

  lemma SwapZero(w: Word)
    ensures Swap(w) == 0 <==> w == 0
  {
  }

  lemma SwapAdd(a: Word, b: Word)
    ensures OnesAdd(Swap(a), Swap(b)) == Swap(OnesAdd(a, b))
  {
    var sum: nat := a + b;
    OnesAddMod(a, b);
    SwapMod(OnesAdd(a, b), sum);
    OnesAddMod(Swap(a), Swap(b));
    SwapMod(a, a);
    SwapMod(b, b);
    ModAdd(Swap(a), 0x100 * a, Swap(b), 0x100 * b);
    SwapZero(a);
    SwapZero(b);
    SwapZero(OnesAdd(a, b));
    WordUnique(OnesAdd(Swap(a), Swap(b)), Swap(OnesAdd(a, b)));
  }

  /** Ones' complement sums do not care about byte order (section 2(B) of RFC 1071). */
  lemma {:induction false} ByteOrderIndependence(b: seq<Byte>)
    ensures OnesBig(b) == Swap(OnesLittle(b))
  {
    if |b| == 1 {
      SwapLittle(b[0], 0);
    } else if |b| >= 2 {
      ByteOrderIndependence(b[2..]);
      SwapLittle(b[0], b[1]);
      SwapAdd(Little(b[0], b[1]), OnesLittle(b[2..]));
    }
  }

  // ---- Replacing one word ------------------------------------------------------------------

  function SetWord(b: seq<Byte>, k: nat, x: Byte, y: Byte): (r: seq<Byte>)
    requires k + 1 < |b|
    ensures |r| == |b|
  {
    b[k := x][k + 1 := y]
  }

  lemma {:induction false} SetWordSum(b: seq<Byte>, k: nat, x: Byte, y: Byte)
    requires k + 1 < |b| && k % 2 == 0
    ensures LittleSum(SetWord(b, k, x, y)) == LittleSum(b) - Little(b[k], b[k + 1]) + Little(x, y)
  {
    var c := SetWord(b, k, x, y);
    if k == 0 {
      assert c[2..] == b[2..];
    } else {
      SetWordSum(b[2..], k - 2, x, y);
      assert c[2..] == SetWord(b[2..], k - 2, x, y);
    }
  }

  lemma {:induction false} SetWordSwap(b: seq<Byte>, k: nat, x: Byte, y: Byte)
    requires k + 1 < |b| && k % 2 == 0
    ensures SwapPairs(SetWord(b, k, x, y)) == SetWord(SwapPairs(b), k, y, x)
  {
    var c := SetWord(b, k, x, y);
    if k == 0 {
      assert c[2..] == b[2..];
    } else {
      SetWordSwap(b[2..], k - 2, x, y);
      assert c[2..] == SetWord(b[2..], k - 2, x, y);
    }
  }

  /** What the program's checksum is meant to be: the ones' complement of the ones' complement sum. */
  function Complement(b: seq<Byte>): Word {
    M - OnesLittle(b)
  }

  lemma WordBytes(w: Word)
    ensures Little(Low(w), High(w)) == w
    ensures Big(High(w), Low(w)) == w
  {
  }

  lemma ComplementFills(n: nat, c: Word)
    requires c == Canon(n)
    ensures Canon(n + (M - c)) == M
  {
    ModAdd(n, c, M - c, M - c);
    WordUnique(Canon(n + (M - c)), M);
  }

  /** A buffer into whose zeroed word the checksum is put checks: its own checksum is zero. */
  lemma InsertedChecksumVerifies(b: seq<Byte>, k: nat)
    requires k + 1 < |b| && k % 2 == 0 && b[k] == 0 && b[k + 1] == 0
    ensures var c := Complement(b);
      Complement(SetWord(b, k, Low(c), High(c))) == 0
  {
    var c := Complement(b);
    SetWordSum(b, k, Low(c), High(c));
    WordBytes(c);
    OnesLittleCanon(b);
    OnesLittleCanon(SetWord(b, k, Low(c), High(c)));
    ComplementFills(LittleSum(b), Canon(LittleSum(b)));
  }

  /** Which replacements of one word of a buffer that checks go unnoticed: none but those between
      the two representations of zero, and of these not the one that makes the whole buffer zero. */
  lemma ReplacementDetected(b: seq<Byte>, k: nat, x: Byte, y: Byte)
    requires k + 1 < |b| && k % 2 == 0 && Complement(b) == 0
    ensures var old', new' := Little(b[k], b[k + 1]), Little(x, y);
      Complement(SetWord(b, k, x, y)) == 0 <==>
        || old' == new'
        || (old' == 0 && new' == M)
        || (old' == M && new' == 0 && LittleSum(b) != M)
  {
    var b' := SetWord(b, k, x, y);
    CheckedIff(b);
    CheckedIff(b');
    WordWithinSum(b, k);
    SetWordSum(b, k, x, y);
    ReplacedSum(LittleSum(b), Little(b[k], b[k + 1]), Little(x, y), LittleSum(b'));
  }

  lemma ReplacedSum(n: nat, old': Word, new': Word, n': nat)
    requires n > 0 && n % M == 0 && old' <= n && n' == n - old' + new'
    ensures (n' != 0 && n' % M == 0) <==>
        || old' == new'
        || (old' == 0 && new' == M)
        || (old' == M && new' == 0 && n != M)
  {
    var d := new' - old';
    if (n + d) % M == 0 {
      ModSmall(n, d);
    }
    if d == M {
      ModShift(n, 1);
    } else if d == -M {
      ModShift(n, -1);
    }
  }

  lemma {:induction false} WordWithinSum(b: seq<Byte>, k: nat)
    requires k + 1 < |b| && k % 2 == 0
    ensures Little(b[k], b[k + 1]) <= LittleSum(b)
  {
    if k > 0 {
      WordWithinSum(b[2..], k - 2);
    }
  }

  lemma CheckedIff(b: seq<Byte>)
    ensures Complement(b) == 0 <==> LittleSum(b) != 0 && LittleSum(b) % M == 0
  {
    OnesLittleCanon(b);
    var w := Canon(LittleSum(b));
    if LittleSum(b) % M == 0 && w != 0 {
      ModSmall(0, w);
    }
  }

  // ---- The two-fold 32-bit computation -----------------------------------------------------

  const W32 := 0x1_0000_0000

  function FoldOnce(sum: nat): nat {
    sum / 0x1_0000 + sum % 0x1_0000
  }

  /** The two folds and the cut to 16 bits. */
  function Fold(sum: nat): Word {
    var s := FoldOnce(sum);
    (s + s / 0x1_0000) % 0x1_0000
  }

  /** What the program computes: a 32-bit sum, folded and complemented. */
  function Computed(b: seq<Byte>): Word {
    M - Fold(LittleSum(b) % W32)
  }

  /** Each fold takes away a multiple of 65535. */
  lemma FoldOnceMod(sum: nat)
    requires sum < W32
    ensures FoldOnce(sum) % M == sum % M && FoldOnce(sum) <= 2 * M
    ensures FoldOnce(sum) == 0 <==> sum == 0
  {
    var hi := sum / 0x1_0000;
    assert sum == FoldOnce(sum) + M * hi;
    ModShift(FoldOnce(sum), hi);
  }

  lemma SecondFold(s: nat)
    requires s <= 2 * M
    ensures (s + s / 0x1_0000) % 0x1_0000 == if s <= M then s else s - M
  {
    if s <= M {
      assert s / 0x1_0000 == 0;
    } else {
      assert s / 0x1_0000 == 1;
    }
  }

  /** Two folds suffice for every 32-bit sum. */
  lemma FoldIsCanon(sum: nat)
    requires sum < W32
    ensures Fold(sum) == Canon(sum)
  {
    var s := FoldOnce(sum);
    FoldOnceMod(sum);
    SecondFold(s);
    ModShift(s, -1);
    WordUnique(Fold(sum), Canon(sum));
  }

  lemma {:induction false} SumBound(b: seq<Byte>)
    ensures LittleSum(b) <= M * ((|b| + 1) / 2)
  {
    if |b| >= 2 {
      SumBound(b[2..]);
      assert (|b[2..]| + 1) / 2 == (|b| + 1) / 2 - 1;
    }
  }

  /** A 32-bit accumulator loses something exactly when it overflows: for every buffer whose
      length is a C `int`, the computed checksum is the true one if and only if the plain sum of
      the words fits in 32 bits. */
  lemma ExactIff(b: seq<Byte>)
    requires |b| <= 0x7fff_ffff
    ensures Computed(b) == Complement(b) <==> LittleSum(b) < W32
  {
    var n := LittleSum(b);
    WordsBound(b);
    FoldIsCanon(n % W32);
    OnesLittleCanon(b);
    Overflowed(n);
  }

  lemma WordsBound(b: seq<Byte>)
    requires |b| <= 0x7fff_ffff
    ensures LittleSum(b) < W32 * M
  {
    SumBound(b);
    assert (|b| + 1) / 2 <= 0x4000_0000;
  }

  lemma Overflowed(n: nat)
    requires n < W32 * M
    ensures Canon(n % W32) == Canon(n) <==> n < W32
  {
    CarriesLost(n, n / W32, n % W32);
  }

  /** Each carry out of 32 bits is worth one. */
  lemma CarriesLost(n: nat, k: nat, r: nat)
    requires n == W32 * k + r && r < W32 && n < W32 * M
    ensures Canon(r) == Canon(n) <==> k == 0
  {
    assert n == r + k + M * (0x1_0001 * k);
    ModShift(r + k, 0x1_0001 * k);
    if Canon(r) == Canon(n) {
      assert (r + k) % M == r % M;
      assert k < M;
      ModSmall(r, k);
    }
  }

  /** Up to 131074 bytes always fit. */
  lemma ShortBuffersFit(b: seq<Byte>)
    requires |b| <= 131074
    ensures LittleSum(b) < W32
  {
    SumBound(b);
  }

  lemma {:induction false} AllOnesSum(n: nat)
    ensures LittleSum(seq(n, _ => 0xff)) == M * (n / 2) + 0xff * (n % 2)
  {
    var b: seq<Byte> := seq(n, _ => 0xff);
    if n >= 2 {
      AllOnesSum(n - 2);
      assert b[2..] == seq(n - 2, _ => 0xff);
    }
  }

  ghost predicate ExactAtLength(n: nat) {
    forall b: seq<Byte> :: |b| == n ==> Computed(b) == Complement(b)
  }

  /** The lengths at which every buffer gets the right checksum. */
  lemma LengthIff(n: nat)
    requires n <= 0x7fff_ffff
    ensures ExactAtLength(n) <==> n <= 131074
  {
    if n <= 131074 {
      forall b: seq<Byte> | |b| == n
        ensures Computed(b) == Complement(b)
      {
        ShortBuffersFit(b);
        ExactIff(b);
      }
    } else {
      var b: seq<Byte> := seq(n, _ => 0xff);
      AllOnesSum(n);
      ExactIff(b);
      assert |b| == n && Computed(b) != Complement(b);
    }
  }

  /** One byte more than that need not fit. */
  lemma LongBufferFails()
    ensures exists b: seq<Byte> :: |b| == 131075 && Computed(b) != Complement(b)
  {
    LengthIff(131075);
  }

  // ---- Verification and detection by the computed value -------------------------------------

  /** Where the sum fits, so does the sum with its checksum put in, and the program finds it zero. */
  lemma ComputedVerifies(b: seq<Byte>, k: nat)
    requires k + 1 < |b| && k % 2 == 0 && b[k] == 0 && b[k + 1] == 0 && LittleSum(b) < W32
    ensures var c := Computed(b);
      Computed(SetWord(b, k, Low(c), High(c))) == 0
  {
    Unwrapped(b, LittleSum(b) % W32);
    var c := Complement(b);
    InsertedChecksumVerifies(b, k);
    SetWordSum(b, k, Low(c), High(c));
    WordBytes(c);
    OnesLittleCanon(b);
    FilledFits(LittleSum(b));
    Unwrapped(SetWord(b, k, Low(c), High(c)), LittleSum(SetWord(b, k, Low(c), High(c))) % W32);
  }

  /** The sum filled up to a multiple of 65535 stays within 65537 times 65535. */
  lemma FilledFits(n: nat)
    requires n < W32
    ensures n + (M - Canon(n)) < W32
  {
    assert W32 == M * 0x1_0001 + 1;
    if n > 0 {
      assert n - 1 == M * ((n - 1) / M) + (n - 1) % M;
      assert (n - 1) / M <= 0x1_0000;
    }
  }

  /** Which replacements of a word the program misses, where neither sum overflows. */
  lemma ComputedDetects(b: seq<Byte>, k: nat, x: Byte, y: Byte)
    requires k + 1 < |b| && k % 2 == 0 && Computed(b) == 0
    requires LittleSum(b) < W32 && LittleSum(SetWord(b, k, x, y)) < W32
    ensures var old', new' := Little(b[k], b[k + 1]), Little(x, y);
      Computed(SetWord(b, k, x, y)) == 0 <==>
        || old' == new'
        || (old' == 0 && new' == M)
        || (old' == M && new' == 0 && LittleSum(b) != M)
  {
    Unwrapped(b, LittleSum(b) % W32);
    Unwrapped(SetWord(b, k, x, y), LittleSum(SetWord(b, k, x, y)) % W32);
    ReplacementDetected(b, k, x, y);
  }

  lemma {:induction false} SetLastSum(b: seq<Byte>, y: Byte)
    requires |b| % 2 == 1
    ensures LittleSum(b[|b| - 1 := y]) == LittleSum(b) - b[|b| - 1] + y && b[|b| - 1] <= LittleSum(b)
  {
    if |b| > 1 {
      SetLastSum(b[2..], y);
      assert b[|b| - 1 := y][2..] == b[2..][|b| - 3 := y];
    }
  }

  /** Every change of a padded last byte is detected. */
  lemma LastByteDetected(b: seq<Byte>, y: Byte)
    requires |b| % 2 == 1 && Complement(b) == 0
    ensures Complement(b[|b| - 1 := y]) == 0 <==> y == b[|b| - 1]
  {
    SetLastSum(b, y);
    CheckedIff(b);
    CheckedIff(b[|b| - 1 := y]);
    ReplacedSum(LittleSum(b), b[|b| - 1], y, LittleSum(b[|b| - 1 := y]));
  }

  lemma ComputedLastByteDetected(b: seq<Byte>, y: Byte)
    requires |b| % 2 == 1 && Computed(b) == 0
    requires LittleSum(b) < W32 && LittleSum(b[|b| - 1 := y]) < W32
    ensures Computed(b[|b| - 1 := y]) == 0 <==> y == b[|b| - 1]
  {
    Unwrapped(b, LittleSum(b) % W32);
    Unwrapped(b[|b| - 1 := y], LittleSum(b[|b| - 1 := y]) % W32);
    LastByteDetected(b, y);
  }

  // ---- The program's loops -----------------------------------------------------------------

  lemma SumStep(b: seq<Byte>, pos: nat)
    requires pos + 1 < |b|
    ensures LittleSum(b[pos..]) == Little(b[pos], b[pos + 1]) + LittleSum(b[pos + 2..])
  {
    assert b[pos..][2..] == b[pos + 2..];
  }

  /** What wraps away is a multiple of 2 to the 32nd. */
  lemma Wrapped(sum: nat, wraps: nat, total: nat)
    requires sum < W32 && sum + W32 * wraps == total
    ensures total % W32 == sum
  {
  }

  lemma Unwrapped(b: seq<Byte>, n: nat)
    requires n == LittleSum(b) % W32
    ensures LittleSum(b) < W32 ==> M - Fold(n) == Complement(b)
  {
    if LittleSum(b) < W32 {
      SmallMod(LittleSum(b));
      FoldIsCanon(n);
      OnesLittleCanon(b);
    }
  }

  lemma SmallMod(n: nat)
    ensures n < W32 ==> n % W32 == n
  {
  }

  /** `cal_checksum`; `pos` is where `ptr` points.  `unsigned long` has 32 bits. */
  method CalChecksum(buf: array<Byte>, nbytes: int) returns (checksum: Word)
    requires nbytes <= buf.Length
    ensures var b := if nbytes < 0 then [] else buf[..nbytes];
      && checksum == Computed(b)
      && (LittleSum(b) < W32 ==> checksum == Complement(b))
  {
    ghost var b: seq<Byte> := if nbytes < 0 then [] else buf[..nbytes];
    ghost var total, wraps: nat := LittleSum(b), 0;
    var sum: nat := 0;
    var pos: nat, left := 0, nbytes;
    while left > 1
      invariant nbytes >= 0 ==> pos <= nbytes && left == nbytes - pos
      invariant nbytes < 0 ==> pos == 0 && left == nbytes
      invariant sum < W32
      invariant sum + W32 * wraps + LittleSum(b[pos..]) == total
    {
      SumStep(b, pos);
      wraps := wraps + (sum + Little(buf[pos], buf[pos + 1])) / W32;
      sum := (sum + Little(buf[pos], buf[pos + 1])) % W32;
      pos := pos + 2;
      left := left - 2;
    }
    if left == 1 {
      wraps := wraps + (sum + buf[pos]) / W32;
      sum := (sum + buf[pos]) % W32;
    }
    Wrapped(sum, wraps, total);
    Unwrapped(b, sum);
    checksum := TwoFolds(sum);
  }

  /** `checksum` of example.c, which steps through its buffer in the same way, save that a negative
      size is not zero either: it sums the first byte. */
  method ExampleChecksum(buffer: array<Byte>, size: int) returns (checksum: Word)
    requires size <= buffer.Length && (size < 0 ==> buffer.Length > 0)
    ensures var b := if size < 0 then buffer[..1] else buffer[..size];
      && checksum == Computed(b)
      && (LittleSum(b) < W32 ==> checksum == Complement(b))
  {
    ghost var b: seq<Byte> := if size < 0 then buffer[..1] else buffer[..size];
    ghost var total, wraps: nat := LittleSum(b), 0;
    var cksum: nat := 0;
    var pos: nat, left := 0, size;
    while left > 1
      invariant size >= 0 ==> pos <= size && left == size - pos
      invariant size < 0 ==> pos == 0 && left == size
      invariant cksum < W32
      invariant cksum + W32 * wraps + LittleSum(b[pos..]) == total
    {
      SumStep(b, pos);
      wraps := wraps + (cksum + Little(buffer[pos], buffer[pos + 1])) / W32;
      cksum := (cksum + Little(buffer[pos], buffer[pos + 1])) % W32;
      pos := pos + 2;
      left := left - 2;
    }
    if left != 0 {
      wraps := wraps + (cksum + buffer[pos]) / W32;
      cksum := (cksum + buffer[pos]) % W32;
    }
    Wrapped(cksum, wraps, total);
    Unwrapped(b, cksum);
    checksum := TwoFolds(cksum);
  }

  /** The end of both: fold twice, complement, cut to 16 bits. */
  method TwoFolds(total: nat) returns (checksum: Word)
    requires total < W32
    ensures checksum == M - Fold(total)
  {
    var sum := total / 0x1_0000 + total % 0x1_0000;
    sum := sum + sum / 0x1_0000;
    checksum := (W32 - 1 - sum) % 0x1_0000;
  }
}
