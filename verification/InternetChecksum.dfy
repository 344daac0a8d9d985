/**
 The internet checksum (section 1 of RFC 1071), computed in two ways: `checksum` of
 networks_lab/assignment3/udp4.c folds a 32-bit sum in a loop, `csum` of networks_lab/assignment6/ping.c
 folds a 64-bit sum exactly twice.  Both read 16-bit words in the byte order of the host, so the
 order is a parameter here.
 */
module InternetChecksum {

  type Byte = b: int | 0 <= b < 0x100
  type Word = w: int | 0 <= w < 0x1_0000

  // ---------- Independent definition: one's-complement addition ----------

  /** Addition with end-around carry. */
  function OnesAdd(a: Word, b: Word): (c: Word) {
    if a + b < 0x1_0000 then a + b else a + b - 0xFFFF
  }

  function OnesSum(ws: seq<Word>): Word {
    if ws == [] then 0 else OnesAdd(ws[0], OnesSum(ws[1..]))
  }

  // ---------- What the code computes with ----------

  datatype Order = Little | Big

  function Pair(first: Byte, second: Byte, host: Order): Word {
    match host
    case Little => first + 0x100 * second
    case Big => 0x100 * first + second
  }

  /** The bytes a word occupies in memory. */
  function Stored(w: Word, host: Order): (Byte, Byte) {
    match host
    case Little => (w % 0x100, w / 0x100)
    case Big => (w / 0x100, w % 0x100)
  }

  /** A buffer read word by word; a byte left over counts as its own value. */
  function Words(bytes: seq<Byte>, host: Order): (ws: seq<Word>) {
    if bytes == [] then []
    else if |bytes| == 1 then [bytes[0]]
    else [Pair(bytes[0], bytes[1], host)] + Words(bytes[2..], host)
  }

  function Total(ws: seq<Word>): nat {
    if ws == [] then 0 else ws[0] + Total(ws[1..])
  }

  function Fold(s: nat): Word {
    if s < 0x1_0000 then s else Fold(s % 0x1_0000 + s / 0x1_0000)
  }

  /** The fold written out twice, the last carry dropped. */
  function TwoFolds(s: nat): Word {
    (Once(s) + Once(s) / 0x1_0000) % 0x1_0000
  }

  function Not(w: Word): Word { 0xFFFF - w }

  // ---------- Folding is reduction modulo 65535 ----------

  lemma {:induction false} FoldIsResidue(s: nat)
    ensures Fold(s) % 0xFFFF == s % 0xFFFF
    ensures Fold(s) == 0 <==> s == 0
  {
    if s >= 0x1_0000 {
      var t := s % 0x1_0000 + s / 0x1_0000;
      FoldIsResidue(t);
      assert s == t + 0xFFFF * (s / 0x1_0000);
      ResidueShift(t, s / 0x1_0000);
    }
  }

  lemma ResidueShift(t: int, k: int)
    ensures (t + 0xFFFF * k) % 0xFFFF == t % 0xFFFF
  {}

  /** Words are told apart by their residue and by being zero. */
  lemma ResidueDecides(a: Word, b: Word)
    requires a % 0xFFFF == b % 0xFFFF && (a == 0 <==> b == 0)
    ensures a == b
  {}

  lemma ResiduesAdd(a: int, b: int, c: int, d: int)
    requires a % 0xFFFF == c % 0xFFFF && b % 0xFFFF == d % 0xFFFF
    ensures (a + b) % 0xFFFF == (c + d) % 0xFFFF
  {
    var k, l := a / 0xFFFF - c / 0xFFFF, b / 0xFFFF - d / 0xFFFF;
    assert a + b == (c + d) + 0xFFFF * (k + l);
    ResidueShift(c + d, k + l);
  }

  lemma FoldUnique(s: nat, w: Word)
    requires w % 0xFFFF == s % 0xFFFF && (w == 0 <==> s == 0)
    ensures Fold(s) == w
  {
    FoldIsResidue(s);
    ResidueDecides(Fold(s), w);
  }

  lemma FoldAdds(a: nat, b: nat)
    ensures Fold(a + b) == OnesAdd(Fold(a), Fold(b))
  {
    FoldIsResidue(a);
    FoldIsResidue(b);
    var c := OnesAdd(Fold(a), Fold(b));
    ResidueShift(c, 1);
    assert c % 0xFFFF == (Fold(a) + Fold(b)) % 0xFFFF;
    ResiduesAdd(a, b, Fold(a), Fold(b));
    FoldUnique(a + b, c);
  }

  /** The loop fold of the plain sum is the one's-complement sum. */
  lemma {:induction false} FoldIsOnesSum(ws: seq<Word>)
    ensures OnesSum(ws) == Fold(Total(ws))
  {
    if ws != [] {
      FoldIsOnesSum(ws[1..]);
      FoldAdds(ws[0], Total(ws[1..]));
    }
  }

  // ---------- When the two ways are right ----------

  function Once(s: nat): nat { s / 0x1_0000 + s % 0x1_0000 }

  /** Two folds are enough exactly when the second one leaves no carry behind.  (2^31 words add up
      to less than 2^47.) */
  lemma TwoFoldsExact(s: nat)
    requires s < 0x8000_0000 * 0x1_0000
    ensures TwoFolds(s) == Fold(s) <==> Once(Once(s)) < 0x1_0000
  {
    TwiceDrops(s);
    FoldTwice(s);
    OnceBounds(s);
    CarryShows(Once(Once(s)));
  }

  lemma FoldTwice(s: nat)
    ensures Fold(s) == Fold(Once(Once(s)))
  {
    FoldOnce(s);
    FoldOnce(Once(s));
  }

  lemma OnceBounds(s: nat)
    requires s < 0x8000_0000 * 0x1_0000
    ensures Once(Once(s)) < 2 * 0x1_0000 - 1
  {}

  lemma CarryShows(twice: nat)
    requires twice < 2 * 0x1_0000
    ensures twice % 0x1_0000 == Fold(twice) <==> twice < 0x1_0000
  {
    FoldOnce(twice);
    FoldOnce(Once(twice));
  }

  lemma FoldOnce(s: nat)
    ensures Fold(s) == Fold(Once(s))
  {
    if s < 0x1_0000 { assert Once(s) == s; }
  }

  lemma TwiceDrops(s: nat)
    ensures TwoFolds(s) == Once(Once(s)) % 0x1_0000
  {
    var h, l := Once(s) / 0x1_0000, Once(s) % 0x1_0000;
    assert Once(s) + h == (h + l) + 0x1_0000 * h;
    WordShift(h + l, h);
  }

  lemma WordShift(t: int, k: int)
    ensures (t + 0x1_0000 * k) % 0x1_0000 == t % 0x1_0000
  {}

  /** Below 2^32 + 65535 two folds always are enough; that number is the first for which they are not. */
  lemma TwoFoldsEnough(s: nat)
    requires s < 0x1_0000_0000 + 0xFFFF
    ensures TwoFolds(s) == Fold(s)
  {
    assert Once(s) < 0x1_FFFF;
    TwoFoldsExact(s);
  }

  lemma TwoFoldsCanFail()
    ensures TwoFolds(0x1_0000_0000 + 0xFFFF) == 0 && Fold(0x1_0000_0000 + 0xFFFF) == 1
  {
    FoldOnce(0x1_0000_0000 + 0xFFFF);
    FoldOnce(0x1_FFFF);
    FoldOnce(0x1_0000);
  }

  /** A 32-bit sum is folded to the right value exactly when it never wrapped. */
  lemma WrapExact(s: nat)
    requires s < 0x1_0000_0000 * 0xFFFF
    ensures Fold(s % 0x1_0000_0000) == Fold(s) <==> s < 0x1_0000_0000
  {
    var w, r := s / 0x1_0000_0000, s % 0x1_0000_0000;
    FoldIsResidue(s);
    FoldIsResidue(r);
    assert s == (r + w) + 0xFFFF * (0x1_0001 * w);
    ResidueShift(r + w, 0x1_0001 * w);
    if w > 0 { SmallShiftShows(r, w); }
  }

  lemma SmallShiftShows(r: int, w: int)
    requires 0 < w < 0xFFFF
    ensures (r + w) % 0xFFFF != r % 0xFFFF
  {}

  // ---------- Sizes ----------

  lemma {:induction false} TotalBound(ws: seq<Word>)
    ensures Total(ws) <= 0xFFFF * |ws|
  {
    if ws != [] { TotalBound(ws[1..]); }
  }

  lemma {:induction false} WordCount(bytes: seq<Byte>, host: Order)
    ensures |Words(bytes, host)| == (|bytes| + 1) / 2
  {
    if |bytes| > 1 { WordCount(bytes[2..], host); }
  }

  /** What the words from `p` on still add, as a loop over an index sees it. */
  function Left(bytes: seq<Byte>, p: nat, end: nat, host: Order): nat
    requires p <= end <= |bytes|
    decreases end - p
  {
    if p == end then 0
    else if p + 1 == end then bytes[p]
    else Pair(bytes[p], bytes[p + 1], host) + Left(bytes, p + 2, end, host)
  }

  lemma {:induction false} LeftIsTotal(bytes: seq<Byte>, p: nat, end: nat, host: Order)
    requires p <= end <= |bytes|
    ensures Left(bytes, p, end, host) == Total(Words(bytes[p..end], host))
    decreases end - p
  {
    if p + 1 < end {
      LeftIsTotal(bytes, p + 2, end, host);
      assert bytes[p..end][2..] == bytes[p + 2..end];
      TotalStep(bytes[p..end], host);
    }
  }

  // ---------- checksum (udp4.c) ----------

  function U32(s: nat): nat { s % 0x1_0000_0000 }

  /** What `checksum` returns. */
  function ChecksumOf(bytes: seq<Byte>, host: Order): Word { Not(Fold(U32(Total(Words(bytes, host))))) }

  lemma WrapAdd(exact: nat, w: Word)
    ensures U32(U32(exact) + w) == U32(exact + w)
  {}

  method Checksum(buf: array<Byte>, len: nat, host: Order) returns (answer: Word)
    requires len <= buf.Length
    ensures answer == ChecksumOf(buf[..len], host)
  {
    var count, addr := len, 0;
    var sum: nat := 0;
    ghost var bytes := buf[..];
    ghost var total := Left(bytes, 0, len, host);
    ghost var exact: nat := 0;
    while count > 1
      invariant addr + count == len
      invariant sum == U32(exact)
      invariant exact + Left(bytes, addr, len, host) == total
    {
      WrapAdd(exact, Pair(buf[addr], buf[addr + 1], host));
      exact := exact + Pair(buf[addr], buf[addr + 1], host);
      sum := U32(sum + Pair(buf[addr], buf[addr + 1], host));
      addr, count := addr + 2, count - 2;
    }
    if count > 0 {
      WrapAdd(exact, buf[addr]);
      exact := exact + buf[addr];
      sum := U32(sum + buf[addr]);
    }
    LeftIsTotal(bytes, 0, len, host);
    assert bytes[0..len] == buf[..len];
    answer := FoldAndFlip(sum);
  }

  /** The folding loop and the final complement. */
  method FoldAndFlip(start: nat) returns (answer: Word)
    ensures answer == Not(Fold(start))
  {
    var sum := start;
    while sum / 0x1_0000 != 0
      invariant 0 <= sum && Fold(sum) == Fold(start)
      decreases sum
    {
      FoldOnce(sum);
      sum := sum % 0x1_0000 + sum / 0x1_0000;
    }
    answer := 0xFFFF - sum % 0x1_0000;
  }

  /** `checksum` is the complement of the one's-complement sum exactly when its words add up to
      less than 2^32.  (`int len` is below 2^31.) */
  lemma ChecksumIsRight(bytes: seq<Byte>, host: Order)
    requires |bytes| < 0x8000_0000
    ensures ChecksumOf(bytes, host) == Not(OnesSum(Words(bytes, host)))
            <==> Total(Words(bytes, host)) < 0x1_0000_0000
  {
    var ws := Words(bytes, host);
    WordCount(bytes, host);
    TotalBound(ws);
    FoldIsOnesSum(ws);
    WrapExact(Total(ws));
  }

  /** `bytes` bytes 0xFF. */
  function Ones(count: nat): (bytes: seq<Byte>)
    ensures |bytes| == count
  {
    seq(count, _ => 0xFF)
  }

  lemma {:induction false} TotalOfOnes(n: nat, host: Order)
    ensures Total(Words(Ones(2 * n), host)) == 0xFFFF * n
  {
    if n > 0 {
      TotalStep(Ones(2 * n), host);
      assert Ones(2 * n)[2..] == Ones(2 * (n - 1));
      TotalOfOnes(n - 1, host);
    }
  }

  /** 131076 bytes 0xFF, two more than are safe, get a wrong checksum. */
  lemma ChecksumCanFail(host: Order)
    ensures |Ones(0x2_0004)| < 0x8000_0000
    ensures ChecksumOf(Ones(0x2_0004), host) != Not(OnesSum(Words(Ones(0x2_0004), host)))
  {
    TotalOfOnes(0x1_0002, host);
    ChecksumIsRight(Ones(0x2_0004), host);
  }

  /** Every buffer of at most 131074 bytes is small enough. */
  lemma SmallBuffersFit(bytes: seq<Byte>, host: Order)
    requires |bytes| <= 0x2_0002
    ensures Total(Words(bytes, host)) < 0x1_0000_0000
  {
    WordCount(bytes, host);
    TotalBound(Words(bytes, host));
  }

  // ---------- csum (ping.c) ----------

  /** What `csum` returns. */
  function CSumOf(bytes: seq<Byte>, host: Order): Word { Not(TwoFolds(Total(Words(bytes, host)))) }

  function U64(s: nat): nat { s % 0x1_0000_0000_0000_0000 }

  lemma NoWrap(sum: nat, w: Word)
    requires sum <= 0xFFFF * 0x8000_0000
    ensures U64(sum + w) == sum + w
  {}

  method CSum(buf: array<Byte>, at: nat, nwords: nat, host: Order) returns (answer: Word)
    requires at + 2 * nwords <= buf.Length && nwords < 0x8000_0000
    ensures answer == CSumOf(buf[at..at + 2 * nwords], host)
  {
    var sum: nat := 0;
    var n, p := nwords, at;
    ghost var bytes := buf[..];
    ghost var end := at + 2 * nwords;
    ghost var total := Left(bytes, at, end, host);
    while n > 0
      invariant 0 <= n <= nwords && p == end - 2 * n
      invariant sum <= 0xFFFF * (nwords - n)
      invariant sum + Left(bytes, p, end, host) == total
    {
      NoWrap(sum, Pair(buf[p], buf[p + 1], host));
      sum := U64(sum + Pair(buf[p], buf[p + 1], host));
      n, p := n - 1, p + 2;
    }
    LeftIsTotal(bytes, at, end, host);
    assert bytes[at..end] == buf[at..at + 2 * nwords];
    answer := FoldTwiceAndFlip(sum);
  }

  method FoldTwiceAndFlip(start: nat) returns (answer: Word)
    ensures answer == Not(TwoFolds(start))
  {
    var sum := start / 0x1_0000 + start % 0x1_0000;
    sum := sum + sum / 0x1_0000;
    answer := 0xFFFF - sum % 0x1_0000;
  }

  /** `csum` is the complement of the one's-complement sum exactly when two folds of its total leave no
      carry.  (`int nwords` is below 2^31.) */
  lemma CSumIsRight(bytes: seq<Byte>, host: Order)
    requires |bytes| % 2 == 0 && |bytes| < 0x1_0000_0000
    ensures CSumOf(bytes, host) == Not(OnesSum(Words(bytes, host)))
            <==> Once(Once(Total(Words(bytes, host)))) < 0x1_0000
  {
    WordCount(bytes, host);
    TotalBound(Words(bytes, host));
    FoldIsOnesSum(Words(bytes, host));
    TwoFoldsExact(Total(Words(bytes, host)));
  }

  /** 65538 words 0xFFFF and a last word 1. */
  function CarryBuffer(host: Order): (bytes: seq<Byte>)
    ensures |bytes| == 0x2_0006
  {
    Ones(0x2_0004) + [Stored(1, host).0, Stored(1, host).1]
  }

  lemma {:induction false} TotalJoins(a: seq<Byte>, b: seq<Byte>, host: Order)
    requires |a| % 2 == 0
    ensures Total(Words(a + b, host)) == Total(Words(a, host)) + Total(Words(b, host))
  {
    if a == [] {
      assert a + b == b;
    } else {
      TotalStep(a, host);
      TotalStep(a + b, host);
      assert (a + b)[2..] == a[2..] + b;
      TotalJoins(a[2..], b, host);
    }
  }

  /** The buffer that `csum` gets wrong: 0xFFFF where the checksum is 0xFFFE. */
  lemma CSumCanFail(host: Order)
    ensures CSumOf(CarryBuffer(host), host) == 0xFFFF
    ensures Not(OnesSum(Words(CarryBuffer(host), host))) == 0xFFFE
  {
    CarryTotal(host);
    FoldIsOnesSum(Words(CarryBuffer(host), host));
    TwoFoldsCanFail();
  }

  lemma CarryTotal(host: Order)
    ensures Total(Words(CarryBuffer(host), host)) == 0x1_0000_0000 + 0xFFFF
  {
    var last := [Stored(1, host).0, Stored(1, host).1];
    TotalOfOnes(0x1_0002, host);
    TotalJoins(Ones(0x2_0004), last, host);
    TotalStep(last, host);
  }

  /** The two algorithms agree on every buffer of whole words that adds up to less than 2^32. */
  lemma BothAgree(bytes: seq<Byte>, host: Order)
    requires Total(Words(bytes, host)) < 0x1_0000_0000
    ensures TwoFolds(Total(Words(bytes, host))) == Fold(U32(Total(Words(bytes, host)))) == OnesSum(Words(bytes, host))
  {
    FoldsAgree(Total(Words(bytes, host)));
    FoldIsOnesSum(Words(bytes, host));
  }

  lemma FoldsAgree(s: nat)
    requires s < 0x1_0000_0000
    ensures TwoFolds(s) == Fold(U32(s)) == Fold(s)
  {
    NotWrapped(s);
    TwoFoldsEnough(s);
  }

  lemma NotWrapped(s: nat)
    requires s < 0x1_0000_0000
    ensures U32(s) == s
  {}

  // ---------- The checksum field ----------

  /** `bytes` with the word at `at` replaced by `w`, in host order. */
  function WithWord(bytes: seq<Byte>, at: nat, w: Word, host: Order): seq<Byte>
    requires at + 2 <= |bytes|
  {
    bytes[at := Stored(w, host).0][at + 1 := Stored(w, host).1]
  }

  lemma {:induction false} TotalWithWord(bytes: seq<Byte>, at: nat, w: Word, host: Order)
    requires at + 2 <= |bytes| && at % 2 == 0
    ensures Total(Words(WithWord(bytes, at, w, host), host)) == Total(Words(WithWord(bytes, at, 0, host), host)) + w
  {
    var one, other := WithWord(bytes, at, w, host), WithWord(bytes, at, 0, host);
    if at == 0 {
      assert one[2..] == other[2..] == bytes[2..];
    } else {
      assert one[2..] == WithWord(bytes[2..], at - 2, w, host);
      assert other[2..] == WithWord(bytes[2..], at - 2, 0, host);
      TotalWithWord(bytes[2..], at - 2, w, host);
    }
  }

  /** Over a buffer whose field holds `v`, the check gives 0 exactly when `v` is the checksum of the
      buffer with its field zeroed -- or is 0xFFFF where that checksum is 0. */
  lemma FieldVerifies(bytes: seq<Byte>, at: nat, v: Word, host: Order)
    requires at + 2 <= |bytes| && at % 2 == 0
    ensures var c := Not(OnesSum(Words(WithWord(bytes, at, 0, host), host)));
            Not(OnesSum(Words(WithWord(bytes, at, v, host), host))) == 0 <==> v == c || (c == 0 && v == 0xFFFF)
  {
    var zeroed := Words(WithWord(bytes, at, 0, host), host);
    TotalWithWord(bytes, at, v, host);
    SumsAdd(Words(WithWord(bytes, at, v, host), host), zeroed, v);
    AllOnes(OnesSum(zeroed), v);
  }

  lemma AllOnes(s: Word, v: Word)
    ensures Not(OnesAdd(s, v)) == 0 <==> v == Not(s) || (Not(s) == 0 && v == 0xFFFF)
  {}

  // ---------- Byte order ----------

  function Swap(w: Word): Word { w / 0x100 + 0x100 * (w % 0x100) }

  lemma SwapIsTimes256(w: Word)
    ensures Swap(w) % 0xFFFF == (0x100 * w) % 0xFFFF
    ensures Swap(w) == 0 <==> w == 0
  {
    assert 0x100 * w == Swap(w) + 0xFFFF * (w / 0x100);
    ResidueShift(Swap(w), w / 0x100);
  }

  lemma TimesResidue(a: int, b: int)
    requires a % 0xFFFF == b % 0xFFFF
    ensures (0x100 * a) % 0xFFFF == (0x100 * b) % 0xFFFF
  {
    var k := a / 0xFFFF - b / 0xFFFF;
    assert 0x100 * a == 0x100 * b + 0xFFFF * (0x100 * k);
    ResidueShift(0x100 * b, 0x100 * k);
  }

  /** Swapping the bytes of both operands swaps the bytes of the sum. */
  lemma SwapAdds(a: Word, b: Word)
    ensures OnesAdd(Swap(a), Swap(b)) == Swap(OnesAdd(a, b))
  {
    var c := OnesAdd(a, b);
    ResidueShift(c, 1);
    assert c % 0xFFFF == (a + b) % 0xFFFF;
    TimesResidue(c, a + b);
    SwapIsTimes256(a);
    SwapIsTimes256(b);
    SwapIsTimes256(c);
    ResiduesAdd(Swap(a), Swap(b), 0x100 * a, 0x100 * b);
    var d := OnesAdd(Swap(a), Swap(b));
    ResidueShift(d, 1);
    assert d % 0xFFFF == (Swap(a) + Swap(b)) % 0xFFFF;
    ResidueDecides(d, Swap(c));
  }

  /** A map that respects addition respects sums. */
  lemma {:induction false} SumsMap(bytes: seq<Byte>, f: Word -> Word)
    requires |bytes| % 2 == 0
    requires forall a: Word, b: Word :: OnesAdd(f(a), f(b)) == f(OnesAdd(a, b))
    requires forall x: Byte, y: Byte :: Pair(x, y, Big) == f(Pair(x, y, Little))
    requires f(0) == 0
    ensures OnesSum(Words(bytes, Big)) == f(OnesSum(Words(bytes, Little)))
  {
    if bytes != [] {
      SumsMap(bytes[2..], f);
      OnesStep(bytes, Big);
      OnesStep(bytes, Little);
    }
  }

  lemma OnesStep(bytes: seq<Byte>, host: Order)
    requires |bytes| > 1
    ensures OnesSum(Words(bytes, host)) == OnesAdd(Pair(bytes[0], bytes[1], host), OnesSum(Words(bytes[2..], host)))
  {
    var ws := Words(bytes, host);
    assert ws[1..] == Words(bytes[2..], host);
  }

  lemma PairSwaps(x: Byte, y: Byte)
    ensures Pair(x, y, Big) == Swap(Pair(x, y, Little))
  {}

  lemma OrderSwaps(bytes: seq<Byte>)
    requires |bytes| % 2 == 0
    ensures OnesSum(Words(bytes, Big)) == Swap(OnesSum(Words(bytes, Little)))
  {
    forall a: Word, b: Word ensures OnesAdd(Swap(a), Swap(b)) == Swap(OnesAdd(a, b)) { SwapAdds(a, b); }
    forall x: Byte, y: Byte ensures Pair(x, y, Big) == Swap(Pair(x, y, Little)) { PairSwaps(x, y); }
    SumsMap(bytes, w => Swap(w));
  }

  lemma {:induction false} OddTail(bytes: seq<Byte>, host: Order)
    requires |bytes| % 2 == 1
    ensures Total(Words(bytes, host)) == Total(Words(bytes[..|bytes| - 1], host)) + bytes[|bytes| - 1]
  {
    var n := |bytes| - 1;
    if n > 0 {
      assert bytes[2..][..n - 2] == bytes[..n][2..];
      OddTail(bytes[2..], host);
    }
  }

  /** The bytes of the one's-complement checksum do not depend on the host: for a buffer of whole words, and for
      an odd one exactly when its last byte is 0. */
  lemma SameBytesOnTheWire(bytes: seq<Byte>)
    ensures Stored(Not(OnesSum(Words(bytes, Little))), Little) == Stored(Not(OnesSum(Words(bytes, Big))), Big)
            <==> |bytes| % 2 == 0 || bytes[|bytes| - 1] == 0
  {
    SameBytes(OnesSum(Words(bytes, Little)), OnesSum(Words(bytes, Big)));
    if |bytes| % 2 == 0 {
      OrderSwaps(bytes);
    } else {
      OddSwaps(bytes);
    }
  }

  lemma OddSwaps(bytes: seq<Byte>)
    requires |bytes| % 2 == 1
    ensures OnesSum(Words(bytes, Big)) == Swap(OnesSum(Words(bytes, Little))) <==> bytes[|bytes| - 1] == 0
  {
    var s := OddSums(bytes);
    LastByteMatters(s, bytes[|bytes| - 1]);
  }

  /** Both sums of an odd buffer, from the sum of its whole words. */
  lemma OddSums(bytes: seq<Byte>) returns (s: Word)
    requires |bytes| % 2 == 1
    ensures OnesSum(Words(bytes, Little)) == OnesAdd(s, bytes[|bytes| - 1])
    ensures OnesSum(Words(bytes, Big)) == OnesAdd(Swap(s), bytes[|bytes| - 1])
  {
    OddSum(bytes, Little);
    OddSum(bytes, Big);
    OrderSwaps(bytes[..|bytes| - 1]);
    s := OnesSum(Words(bytes[..|bytes| - 1], Little));
  }

  lemma SameBytes(a: Word, b: Word)
    ensures Stored(Not(a), Little) == Stored(Not(b), Big) <==> b == Swap(a)
  {
    SwapNot(a);
    StoredSwapped(Not(a), Not(b));
  }

  lemma SwapNot(w: Word)
    ensures Swap(Not(w)) == Not(Swap(w))
  {}

  lemma StoredSwapped(a: Word, b: Word)
    ensures Stored(a, Little) == Stored(b, Big) <==> b == Swap(a)
  {}

  lemma OddSum(bytes: seq<Byte>, host: Order)
    requires |bytes| % 2 == 1
    ensures OnesSum(Words(bytes, host)) == OnesAdd(OnesSum(Words(bytes[..|bytes| - 1], host)), bytes[|bytes| - 1])
  {
    var even, last := bytes[..|bytes| - 1], bytes[|bytes| - 1];
    OddTail(bytes, host);
    SumsAdd(Words(bytes, host), Words(even, host), last);
  }

  lemma SumsAdd(ws: seq<Word>, vs: seq<Word>, w: Word)
    requires Total(ws) == Total(vs) + w
    ensures OnesSum(ws) == OnesAdd(OnesSum(vs), w)
  {
    FoldIsOnesSum(ws);
    FoldIsOnesSum(vs);
    FoldAdds(Total(vs), w);
    FoldOnce(w);
    assert Fold(w) == w;
  }

  lemma LastByteMatters(s: Word, last: Byte)
    ensures OnesAdd(Swap(s), last) == Swap(OnesAdd(s, last)) <==> last == 0
  {
    SwapAdds(s, last);
    SwapByte(last);
    AddTells(Swap(s), last);
  }

  lemma SwapByte(last: Byte)
    ensures Swap(last) == 0x100 * last
  {}

  lemma AddTells(x: Word, last: Byte)
    ensures OnesAdd(x, 0x100 * last) == OnesAdd(x, last) <==> last == 0
  {}

  /** Padding an odd buffer with a zero byte is what reading its last byte alone amounts to, on a
      little-endian host. */
  lemma {:induction false} PadIsFree(bytes: seq<Byte>)
    requires |bytes| % 2 == 1
    ensures Words(bytes + [0], Little) == Words(bytes, Little)
  {
    if |bytes| > 1 {
      PadIsFree(bytes[2..]);
      assert (bytes + [0])[2..] == bytes[2..] + [0];
    }
  }

  // ---------- What the two routines put on the wire ----------

  /** How often the 32-bit sum wraps. */
  function Wraps(s: nat): nat { s / 0x1_0000_0000 }

  /** The byte left over, 0 if there is none. */
  function LeftOver(bytes: seq<Byte>): Byte { if |bytes| % 2 == 1 then bytes[|bytes| - 1] else 0 }

  /** Every wrap costs the sum one. */
  lemma WrapResidue(s: nat)
    ensures U32(s) % 0xFFFF == (s - Wraps(s)) % 0xFFFF
  {
    var w := Wraps(s);
    assert s - w == U32(s) + 0xFFFF * (0x1_0001 * w);
    ResidueShift(U32(s), 0x1_0001 * w);
  }

  /** The totals of the two readings: each word weighs 256 times as much, but the byte left over. */
  lemma {:induction false} TotalsResidue(bytes: seq<Byte>)
    ensures (Total(Words(bytes, Big)) - 0x100 * Total(Words(bytes, Little)) + 0xFF * LeftOver(bytes)) % 0xFFFF == 0
  {
    if |bytes| > 1 {
      TotalStep(bytes, Big);
      TotalStep(bytes, Little);
      TotalsResidue(bytes[2..]);
      PairResidue(bytes[0], bytes[1],
                  Total(Words(bytes[2..], Big)) - 0x100 * Total(Words(bytes[2..], Little)) + 0xFF * LeftOver(bytes));
    } else if |bytes| == 1 {
      OneWord(bytes[0], Big);
      OneWord(bytes[0], Little);
      assert bytes == [bytes[0]];
    }
  }

  lemma PairResidue(x: Byte, y: Byte, rest: int)
    requires rest % 0xFFFF == 0
    ensures (Pair(x, y, Big) - 0x100 * Pair(x, y, Little) + rest) % 0xFFFF == 0
  {
    assert Pair(x, y, Big) - 0x100 * Pair(x, y, Little) == 0xFFFF * (0 - y);
    ResidueShift(rest, 0 - y);
  }

  /** Two words are byte swaps of each other exactly when their residues say so and both or neither are 0. */
  lemma SwapDecides(a: Word, b: Word)
    ensures b == Swap(a) <==> (b - 0x100 * a) % 0xFFFF == 0 && (a == 0 <==> b == 0)
  {
    SwapIsTimes256(a);
    DifferenceIsZero(b, 0x100 * a);
    if b % 0xFFFF == (0x100 * a) % 0xFFFF && (a == 0 <==> b == 0) { ResidueDecides(b, Swap(a)); }
  }

  lemma DifferenceIsZero(a: int, b: int)
    ensures (a - b) % 0xFFFF == 0 <==> a % 0xFFFF == b % 0xFFFF
  {}

  /** What is left when both sums have been wrapped. */
  function Imbalance(bytes: seq<Byte>): int {
    0x100 * Wraps(Total(Words(bytes, Little))) - Wraps(Total(Words(bytes, Big))) - 0xFF * LeftOver(bytes)
  }

  lemma ImbalanceIs(l: nat, b: nat, fl: Word, fb: Word, left: int)
    requires (b - 0x100 * l + 0xFF * left) % 0xFFFF == 0
    requires fl % 0xFFFF == (l - Wraps(l)) % 0xFFFF && fb % 0xFFFF == (b - Wraps(b)) % 0xFFFF
    ensures (fb - 0x100 * fl) % 0xFFFF == (0x100 * Wraps(l) - Wraps(b) - 0xFF * left) % 0xFFFF
  {
    TimesResidue(fl, l - Wraps(l));
    var x, y := b - Wraps(b), 0x100 * (l - Wraps(l));
    ResiduesSubtract(fb, 0x100 * fl, x, y);
    var z := b - 0x100 * l + 0xFF * left;
    var goal := 0x100 * Wraps(l) - Wraps(b) - 0xFF * left;
    assert x - y == goal + z;
    ResiduesAdd(goal, z, goal, 0);
  }

  lemma ResiduesSubtract(a: int, b: int, c: int, d: int)
    requires a % 0xFFFF == c % 0xFFFF && b % 0xFFFF == d % 0xFFFF
    ensures (a - b) % 0xFFFF == (c - d) % 0xFFFF
  {
    var k, l := a / 0xFFFF - c / 0xFFFF, b / 0xFFFF - d / 0xFFFF;
    assert a - b == (c - d) + 0xFFFF * (k - l);
    ResidueShift(c - d, k - l);
  }

  /** `checksum` puts the same two bytes on the wire from both kinds of host exactly when the wraps and
      the byte left over balance, and the two wrapped sums are 0 together. */
  lemma ChecksumBytes(bytes: seq<Byte>)
    ensures Stored(ChecksumOf(bytes, Little), Little) == Stored(ChecksumOf(bytes, Big), Big)
            <==> Imbalance(bytes) % 0xFFFF == 0
                 && (U32(Total(Words(bytes, Little))) == 0 <==> U32(Total(Words(bytes, Big))) == 0)
  {
    var l, b := Total(Words(bytes, Little)), Total(Words(bytes, Big));
    TotalsResidue(bytes);
    FoldOfWrapped(l);
    FoldOfWrapped(b);
    ImbalanceIs(l, b, Fold(U32(l)), Fold(U32(b)), LeftOver(bytes));
    SameBytes(Fold(U32(l)), Fold(U32(b)));
    SwapDecides(Fold(U32(l)), Fold(U32(b)));
  }

  lemma FoldOfWrapped(s: nat)
    ensures Fold(U32(s)) % 0xFFFF == (s - Wraps(s)) % 0xFFFF
    ensures Fold(U32(s)) == 0 <==> U32(s) == 0
  {
    FoldIsResidue(U32(s));
    WrapResidue(s);
  }

  /** Where neither sum wraps: exactly for an even length or a last byte 0. */
  lemma ChecksumSameBytes(bytes: seq<Byte>)
    requires |bytes| < 0x8000_0000
    requires Total(Words(bytes, Little)) < 0x1_0000_0000 && Total(Words(bytes, Big)) < 0x1_0000_0000
    ensures Stored(ChecksumOf(bytes, Little), Little) == Stored(ChecksumOf(bytes, Big), Big)
            <==> |bytes| % 2 == 0 || bytes[|bytes| - 1] == 0
  {
    ChecksumIsRight(bytes, Little);
    ChecksumIsRight(bytes, Big);
    SameBytesOnTheWire(bytes);
  }

  /** The first `n` pairs of FF 00 FF 00 ... */
  function Stripes(n: nat): (bytes: seq<Byte>)
    ensures |bytes| == 2 * n
  {
    seq(2 * n, i => if i % 2 == 0 then 0xFF else 0)
  }

  lemma {:induction false} TotalOfStripes(n: nat, host: Order)
    ensures Total(Words(Stripes(n), host)) == Pair(0xFF, 0, host) * n
  {
    if n > 0 {
      TotalStep(Stripes(n), host);
      assert Stripes(n)[2..] == Stripes(n - 1);
      TotalOfStripes(n - 1, host);
      assert Pair(0xFF, 0, host) * n == Pair(0xFF, 0, host) * (n - 1) + Pair(0xFF, 0, host);
    }
  }

  /** An even buffer whose sum wraps once on a big-endian host only. */
  lemma OneWrapDiffers(bytes: seq<Byte>)
    requires |bytes| % 2 == 0
    requires Wraps(Total(Words(bytes, Little))) == 0 && Wraps(Total(Words(bytes, Big))) == 1
    ensures Stored(ChecksumOf(bytes, Little), Little) != Stored(ChecksumOf(bytes, Big), Big)
  {
    ChecksumBytes(bytes);
    assert Imbalance(bytes) == -1;
  }

  lemma StripesWrap(n: nat)
    requires n == 65797
    ensures Wraps(Total(Words(Stripes(n), Little))) == 0 && Wraps(Total(Words(Stripes(n), Big))) == 1
  {
    TotalOfStripes(n, Little);
    TotalOfStripes(n, Big);
  }

  /** 131594 bytes FF 00 FF 00 ... wrap the sum on a big-endian host only: the two hosts send different bytes. */
  lemma ChecksumBytesCanDiffer(n: nat)
    requires n == 65797
    ensures Stored(ChecksumOf(Stripes(n), Little), Little) != Stored(ChecksumOf(Stripes(n), Big), Big)
  {
    StripesWrap(n);
    OneWrapDiffers(Stripes(n));
  }

  /** A carry that `csum` drops makes its sum too small by one. */
  lemma DroppedCarry(s: nat)
    requires s < 0x8000_0000 * 0x1_0000
    ensures TwoFolds(s) == if Once(Once(s)) < 0x1_0000 then Fold(s) else Fold(s) - 1
  {
    TwiceDrops(s);
    FoldTwice(s);
    OnceBounds(s);
    CarryValue(Once(Once(s)));
  }

  lemma CarryValue(twice: nat)
    requires twice < 2 * 0x1_0000 - 1
    ensures twice % 0x1_0000 == if twice < 0x1_0000 then Fold(twice) else Fold(twice) - 1
  {
    FoldOnce(twice);
    FoldOnce(Once(twice));
  }

  lemma SwapBelow(a: Word, b: Word)
    requires b == Swap(a)
    ensures a > 0 ==> b != Swap(a - 1)
    ensures b > 0 ==> b - 1 != Swap(a)
    ensures a > 0 && b > 0 ==> b - 1 != Swap(a - 1)
  {
    var h, l := a / 0x100, a % 0x100;
    if l > 0 {
      assert (a - 1) / 0x100 == h && (a - 1) % 0x100 == l - 1;
    } else if a > 0 {
      assert (a - 1) / 0x100 == h - 1 && (a - 1) % 0x100 == 0xFF;
    }
  }

  /** `csum` puts the same two bytes on the wire from both kinds of host exactly when neither drops a carry. */
  lemma CSumSameBytes(bytes: seq<Byte>)
    requires |bytes| % 2 == 0 && |bytes| < 0x1_0000_0000
    ensures Stored(CSumOf(bytes, Little), Little) == Stored(CSumOf(bytes, Big), Big)
            <==> Once(Once(Total(Words(bytes, Little)))) < 0x1_0000 && Once(Once(Total(Words(bytes, Big)))) < 0x1_0000
  {
    OrderSwaps(bytes);
    CSumValue(bytes, Little);
    CSumValue(bytes, Big);
    CarriesDecide(OnesSum(Words(bytes, Little)), OnesSum(Words(bytes, Big)),
                  TwoFolds(Total(Words(bytes, Little))), TwoFolds(Total(Words(bytes, Big))));
  }

  lemma CarriesDecide(a: Word, b: Word, c: Word, d: Word)
    requires b == Swap(a) && (c == a || c == a - 1) && (d == b || d == b - 1)
    ensures Stored(Not(c), Little) == Stored(Not(d), Big) <==> c == a && d == b
  {
    SameBytes(c, d);
    SwapBelow(a, b);
  }

  lemma CSumValue(bytes: seq<Byte>, host: Order)
    requires |bytes| % 2 == 0 && |bytes| < 0x1_0000_0000
    ensures TwoFolds(Total(Words(bytes, host)))
            == OnesSum(Words(bytes, host)) - if Once(Once(Total(Words(bytes, host)))) < 0x1_0000 then 0 else 1
  {
    WordCount(bytes, host);
    TotalBound(Words(bytes, host));
    FoldIsOnesSum(Words(bytes, host));
    DroppedCarry(Total(Words(bytes, host)));
  }

  /** The buffer that `csum` gets wrong on one kind of host makes the two kinds send different bytes. */
  lemma CSumBytesCanDiffer(host: Order)
    ensures Stored(CSumOf(CarryBuffer(host), Little), Little) != Stored(CSumOf(CarryBuffer(host), Big), Big)
  {
    CarryTotal(host);
    CSumSameBytes(CarryBuffer(host));
  }

  // ---------- One wrong byte is always noticed ----------

  /** What a change by `d` of the byte at `at` adds to the sum. */
  function Weighed(d: int, at: nat, length: nat, host: Order): int {
    if at == length - 1 && length % 2 == 1 then d
    else if (host == Little) == (at % 2 == 0) then d else 0x100 * d
  }

  lemma {:induction false} TotalWithByte(bytes: seq<Byte>, at: nat, x: Byte, host: Order)
    requires at < |bytes|
    ensures Total(Words(bytes[at := x], host)) == Total(Words(bytes, host)) + Weighed(x - bytes[at], at, |bytes|, host)
  {
    var now := bytes[at := x];
    if |bytes| > 1 {
      TotalStep(bytes, host);
      TotalStep(now, host);
      if at >= 2 {
        assert now[2..] == bytes[2..][at - 2 := x];
        TotalWithByte(bytes[2..], at - 2, x, host);
        WeighedLater(x - bytes[at], at, |bytes|, host);
      } else {
        assert now[2..] == bytes[2..];
        PairWithByte(bytes, at, x, host);
      }
    } else {
      assert bytes == [bytes[0]] && now == [x];
      OneWord(bytes[0], host);
      OneWord(x, host);
    }
  }

  lemma OneWord(x: Byte, host: Order)
    ensures Total(Words([x], host)) == x
  {}

  lemma WeighedLater(d: int, at: nat, length: nat, host: Order)
    requires 2 <= at < length
    ensures Weighed(d, at, length, host) == Weighed(d, at - 2, length - 2, host)
  {}

  lemma PairWithByte(bytes: seq<Byte>, at: nat, x: Byte, host: Order)
    requires at < 2 <= |bytes|
    ensures var now := bytes[at := x];
            Pair(now[0], now[1], host) == Pair(bytes[0], bytes[1], host) + Weighed(x - bytes[at], at, |bytes|, host)
  {}

  lemma TotalStep(bytes: seq<Byte>, host: Order)
    requires |bytes| > 1
    ensures Total(Words(bytes, host)) == Pair(bytes[0], bytes[1], host) + Total(Words(bytes[2..], host))
  {
    var ws := Words(bytes, host);
    assert ws[1..] == Words(bytes[2..], host);
  }

  lemma OneByteIsNoticed(bytes: seq<Byte>, at: nat, x: Byte, host: Order)
    requires at < |bytes|
    ensures OnesSum(Words(bytes[at := x], host)) == OnesSum(Words(bytes, host)) <==> x == bytes[at]
  {
    TotalWithByte(bytes, at, x, host);
    SmallChangeShows(Words(bytes, host), Words(bytes[at := x], host), Weighed(x - bytes[at], at, |bytes|, host));
  }

  lemma SmallChangeShows(ws: seq<Word>, vs: seq<Word>, d: int)
    requires Total(vs) == Total(ws) + d && -0xFFFF < d < 0xFFFF
    ensures OnesSum(vs) == OnesSum(ws) <==> d == 0
  {
    FoldIsOnesSum(ws);
    FoldIsOnesSum(vs);
    FoldIsResidue(Total(ws));
    FoldIsResidue(Total(vs));
    if d > 0 { SmallShiftShows(Total(ws), d); }
    if d < 0 { SmallShiftShows(Total(vs), -d); }
  }

  // ---------- The echo request (ping.c) ----------

  /** Overwrite the word at `at`. */
  method Put(buf: array<Byte>, at: nat, w: Word, host: Order)
    requires at + 2 <= buf.Length
    modifies buf
    ensures buf[..] == WithWord(old(buf[..]), at, w, host)
  {
    buf[at], buf[at + 1] := Stored(w, host).0, Stored(w, host).1;
    assert buf[..] == WithWord(old(buf[..]), at, w, host);
  }

  lemma WithWordWithin(bytes: seq<Byte>, from: nat, to: nat, at: nat, w: Word, host: Order)
    requires from <= at && at + 2 <= to <= |bytes|
    ensures WithWord(bytes, at, w, host)[from..to] == WithWord(bytes[from..to], at - from, w, host)
  {}

  lemma WithWordAgain(bytes: seq<Byte>, at: nat, v: Word, w: Word, host: Order)
    requires at + 2 <= |bytes|
    ensures WithWord(WithWord(bytes, at, v, host), at, w, host) == WithWord(bytes, at, w, host)
  {}

  /** The ICMP header is the eight bytes from 20 on; its checksum is at 22, its sequence number at 26.
      The header as sent verifies, and no other byte of the packet changes. */
  method PrepareEcho(buf: array<Byte>, sequence: int, host: Order)
    requires buf.Length >= 28
    modifies buf
    ensures Not(OnesSum(Words(buf[20..28], host))) == 0
    ensures exists c: Word :: buf[..] == WithWord(WithWord(old(buf[..]), 26, sequence % 0x1_0000, host), 22, c, host)
  {
    Put(buf, 26, sequence % 0x1_0000, host);
    ghost var numbered := buf[..];
    Put(buf, 22, 0, host);
    ghost var header := numbered[20..28];
    WithWordWithin(numbered, 20, 28, 22, 0, host);
    var c := CSum(buf, 20, 4, host);
    assert buf[20..28] == buf[..][20..28] == WithWord(header, 2, 0, host);
    SmallBuffersFit(buf[20..28], host);
    BothAgree(buf[20..28], host);
    Put(buf, 22, c, host);
    WithWordAgain(numbered, 22, 0, c, host);
    WithWordWithin(numbered, 20, 28, 22, c, host);
    assert buf[20..28] == buf[..][20..28] == WithWord(header, 2, c, host);
    FieldVerifies(header, 2, c, host);
  }

  // ---------- UDP over IPv4 (udp4.c) ----------

  const IP_MAXPACKET := 65535

  /** The bytes of the header fields the checksum covers, as they lie in memory. */
  datatype Header = Header(src: seq<Byte>, dst: seq<Byte>, protocol: Byte, length: seq<Byte>, source: seq<Byte>,
                           dest: seq<Byte>)

  ghost predicate WellSized(h: Header) {
    |h.src| == 4 && |h.dst| == 4 && |h.length| == 2 && |h.source| == 2 && |h.dest| == 2
  }

  function Pad(payload: seq<Byte>): seq<Byte> { if |payload| % 2 == 1 then [0] else [] }

  function Headers(h: Header): seq<Byte> {
    h.src + h.dst + [0, h.protocol] + h.length + h.source + h.dest + h.length + [0, 0]
  }

  /** The pseudo-header and the datagram with its checksum field zero, padded to whole words. */
  function Covered(h: Header, payload: seq<Byte>): seq<Byte> {
    Headers(h) + payload + Pad(payload)
  }

  /** memcpy to the end of what was written so far. */
  method Append(buf: array<Byte>, ptr: nat, data: seq<Byte>) returns (next: nat)
    requires ptr + |data| <= buf.Length
    modifies buf
    ensures next == ptr + |data|
    ensures buf[..next] == old(buf[..ptr]) + data
  {
    for i := 0 to |data|
      invariant buf[..ptr + i] == old(buf[..ptr]) + data[..i]
    {
      buf[ptr + i] := data[i];
    }
    assert data[..|data|] == data;
    next := ptr + |data|;
  }

  method WriteHeaders(h: Header, buf: array<Byte>) returns (ptr: nat)
    requires WellSized(h) && 20 <= buf.Length
    modifies buf
    ensures ptr == 20 && buf[..20] == Headers(h)
  {
    ptr := Append(buf, 0, h.src);
    ptr := Append(buf, ptr, h.dst);
    ptr := Append(buf, ptr, [0, h.protocol]);
    ptr := Append(buf, ptr, h.length);
    ptr := Append(buf, ptr, h.source);
    ptr := Append(buf, ptr, h.dest);
    ptr := Append(buf, ptr, h.length);
    ptr := Append(buf, ptr, [0, 0]);
  }

  method Udp4Checksum(h: Header, payload: seq<Byte>, host: Order) returns (answer: Word)
    requires WellSized(h) && 20 + |payload| + |payload| % 2 <= 65535
    ensures answer == Not(OnesSum(Words(Covered(h, payload), host)))
  {
    var buf := new Byte[IP_MAXPACKET];
    var ptr := WriteHeaders(h, buf);
    ptr := Append(buf, ptr, payload);
    var chksumlen := ptr;
    for i := 0 to |payload| % 2
      invariant chksumlen == ptr + i
      invariant buf[..chksumlen] == Headers(h) + payload + Pad(payload)[..i]
    {
      buf[chksumlen] := 0;
      chksumlen := chksumlen + 1;
    }
    assert Pad(payload)[..|payload| % 2] == Pad(payload);
    assert buf[..chksumlen] == Covered(h, payload);
    answer := Checksum(buf, chksumlen, host);
    SmallBuffersFit(Covered(h, payload), host);
    BothAgree(Covered(h, payload), host);
  }

  /** A receiver summing over the same bytes, with the answer in the field at 18, gets 0; with
      anything else there it does not, but for the other zero.  The two bytes sent do not depend on
      the sender's host. */
  lemma UdpVerifies(h: Header, payload: seq<Byte>, v: Word, host: Order)
    requires WellSized(h)
    ensures var c := Not(OnesSum(Words(Covered(h, payload), host)));
            && 20 <= |Covered(h, payload)|
            && (Not(OnesSum(Words(WithWord(Covered(h, payload), 18, v, host), host))) == 0
                <==> v == c || (c == 0 && v == 0xFFFF))
    ensures Stored(Not(OnesSum(Words(Covered(h, payload), Little))), Little)
            == Stored(Not(OnesSum(Words(Covered(h, payload), Big))), Big)
  {
    var bytes := Covered(h, payload);
    var front := h.src + h.dst + [0, h.protocol] + h.length + h.source + h.dest + h.length;
    assert Headers(h) == front + [0, 0] && |front| == 18;
    assert bytes[18] == 0 && bytes[19] == 0;
    assert Stored(0, host) == (0, 0);
    assert WithWord(bytes, 18, 0, host) == bytes;
    FieldVerifies(bytes, 18, v, host);
    SameBytesOnTheWire(bytes);
  }

  /** What the checksum covers, byte by byte: both addresses, a zero, the protocol, the length, the two ports, the
      length again, a zero checksum, the payload, and a zero if the payload is odd. */
  lemma CoveredIs(h: Header, payload: seq<Byte>)
    requires WellSized(h)
    ensures var bytes := Covered(h, payload);
            && |bytes| == 20 + |payload| + |payload| % 2
            && bytes[0..4] == h.src && bytes[4..8] == h.dst
            && bytes[8] == 0 && bytes[9] == h.protocol && bytes[10..12] == h.length
            && bytes[12..14] == h.source && bytes[14..16] == h.dest && bytes[16..18] == h.length
            && bytes[18] == 0 && bytes[19] == 0
            && bytes[20..20 + |payload|] == payload
            && (|payload| % 2 == 1 ==> bytes[20 + |payload|] == 0)
  {
    var bytes := Covered(h, payload);
    HeadersAre(h);
    assert bytes == Headers(h) + (payload + Pad(payload));
    assert bytes[..20] == Headers(h);
    assert bytes[0..4] == bytes[..20][0..4] && bytes[4..8] == bytes[..20][4..8] && bytes[10..12] == bytes[..20][10..12];
    assert bytes[12..14] == bytes[..20][12..14] && bytes[14..16] == bytes[..20][14..16];
    assert bytes[16..18] == bytes[..20][16..18];
    assert forall k :: 0 <= k < 20 ==> bytes[k] == bytes[..20][k];
  }

  lemma HeadersAre(h: Header)
    requires WellSized(h)
    ensures var bytes := Headers(h);
            && |bytes| == 20 && bytes[0..4] == h.src && bytes[4..8] == h.dst
            && bytes[8] == 0 && bytes[9] == h.protocol && bytes[10..12] == h.length
            && bytes[12..14] == h.source && bytes[14..16] == h.dest && bytes[16..18] == h.length
            && bytes[18] == 0 && bytes[19] == 0
  {}

  // ---------- The two routines, byte by byte ----------

  /** c holds the sums on the way over the bytes: in the order of the host the one byte of a word counts once, the
      other 256 times; a byte left over at the end counts once. */
  ghost predicate SumsOnTheWay(bytes: seq<Byte>, host: Order, c: seq<int>) {
    && |c| == |bytes| + 1 && c[0] == 0
    && forall k :: 0 <= k < |bytes| ==>
         c[k + 1] == c[k] + bytes[k] * if LightByte(|bytes|, k, host) then 1 else 0x100
  }

  predicate LightByte(length: nat, k: nat, host: Order) {
    (length % 2 == 1 && k == length - 1) || (host == Little && k % 2 == 0) || (host == Big && k % 2 == 1)
  }

  lemma {:induction false} TotalIsSum(bytes: seq<Byte>, host: Order, c: seq<int>)
    requires SumsOnTheWay(bytes, host, c)
    ensures Total(Words(bytes, host)) == c[|bytes|]
    decreases |bytes|
  {
    if |bytes| == 1 {
      OneWord(bytes[0], host);
      assert bytes == [bytes[0]];
      assert c[0 + 1] == c[0] + bytes[0];
    } else if |bytes| > 1 {
      var rest := seq(|bytes| - 1, k requires 0 <= k < |bytes| - 1 => c[k + 2] - c[2]);
      forall k | 0 <= k < |bytes| - 2
        ensures rest[k + 1] == rest[k] + bytes[2..][k] * if LightByte(|bytes| - 2, k, host) then 1 else 0x100
      {
        assert c[k + 2 + 1] == c[k + 2] + bytes[k + 2] * if LightByte(|bytes|, k + 2, host) then 1 else 0x100;
      }
      TotalIsSum(bytes[2..], host, rest);
      TotalStep(bytes, host);
      assert c[0 + 1] == c[0] + bytes[0] * if LightByte(|bytes|, 0, host) then 1 else 0x100;
      assert c[1 + 1] == c[1] + bytes[1] * if LightByte(|bytes|, 1, host) then 1 else 0x100;
    }
  }

  /** Below 2^32 what `checksum` returns is the complement of the one word from 0 to 65535 that leaves the same
      remainder modulo 65535 as the sum, and is 0 only if the sum is. */
  lemma ChecksumIs(bytes: seq<Byte>, host: Order, c: seq<int>)
    requires SumsOnTheWay(bytes, host, c) && c[|bytes|] < 0x1_0000_0000
    ensures (0xFFFF - ChecksumOf(bytes, host)) % 0xFFFF == c[|bytes|] % 0xFFFF
    ensures 0xFFFF - ChecksumOf(bytes, host) == 0 <==> c[|bytes|] == 0
  {
    TotalIsSum(bytes, host, c);
    NotWrapped(c[|bytes|]);
    FoldIsResidue(c[|bytes|]);
  }

  /** The same of `csum`. */
  lemma CSumIs(bytes: seq<Byte>, host: Order, c: seq<int>)
    requires SumsOnTheWay(bytes, host, c) && c[|bytes|] < 0x1_0000_0000
    ensures (0xFFFF - CSumOf(bytes, host)) % 0xFFFF == c[|bytes|] % 0xFFFF
    ensures 0xFFFF - CSumOf(bytes, host) == 0 <==> c[|bytes|] == 0
  {
    TotalIsSum(bytes, host, c);
    TwoFoldsEnough(c[|bytes|]);
    FoldIsResidue(c[|bytes|]);
  }
}
