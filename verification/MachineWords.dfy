/** The 64-bit word arithmetic the queue relies on: masking by N - 1, the
    power-of-two test of its constructor, and the signed difference of two
    counters that have wrapped around. */
module MachineWords {
  const WORD: int := 0x1_0000_0000_0000_0000
  const HALF: int := 0x8000_0000_0000_0000

  function Pow2(k: nat): (p: nat)
    ensures p >= 1
  {
    if k == 0 then 1 else 2 * Pow2(k - 1)
  }

  /** Bitwise `&`, bit by bit from the least significant end. */
  function BitAnd(a: nat, b: nat): nat
    decreases a
  {
    if a == 0 || b == 0 then 0
    else 2 * BitAnd(a / 2, b / 2) + (if a % 2 == 1 && b % 2 == 1 then 1 else 0)
  }

  ghost predicate IsPowerOfTwo(n: nat) {
    exists k: nat :: n == Pow2(k)
  }

  /** `pos & (N - 1)` is `pos % N` for every power of two N. */
  lemma {:induction false} MaskIsMod(pos: nat, k: nat)
    ensures BitAnd(pos, Pow2(k) - 1) == pos % Pow2(k)
    decreases k
  {
    if k > 0 && pos > 0 {
      MaskIsMod(pos / 2, k - 1);
      MaskStep(pos, Pow2(k - 1), Pow2(k));
    } else if pos > 0 {
      RemainderIsUnique(pos, 1, pos, 0);
    } else {
      RemainderIsUnique(0, Pow2(k), 0, 0);
    }
  }

  /** Masking by 2 * half - 1 keeps the low bit and masks the others by half - 1. */
  lemma MaskStep(pos: nat, half: nat, whole: nat)
    requires half > 0 && whole == 2 * half && BitAnd(pos / 2, half - 1) == (pos / 2) % half
    ensures BitAnd(pos, whole - 1) == pos % whole
  {
    HalvedRemainder(pos, half);
    MaskBits(pos, half - 1);
  }

  lemma MaskBits(pos: nat, mask: nat)
    ensures BitAnd(pos, 2 * mask + 1) == 2 * BitAnd(pos / 2, mask) + pos % 2
  {
    assert (2 * mask + 1) / 2 == mask && (2 * mask + 1) % 2 == 1;
  }

  lemma HalvedRemainder(pos: nat, half: nat)
    requires half > 0
    ensures pos % (2 * half) == 2 * ((pos / 2) % half) + pos % 2
  {
    var q, r := (pos / 2) / half, (pos / 2) % half;
    assert pos / 2 == q * half + r;
    assert pos == q * (2 * half) + (2 * r + pos % 2);
    RemainderIsUnique(pos, 2 * half, q, 2 * r + pos % 2);
  }

  lemma MultipleIsAtLeast(d: int, n: int)
    requires n > 0
    ensures d > 0 ==> d * n >= n
    ensures d < 0 ==> d * n <= -n
  {
  }

  lemma ProductOfDifference(q: int, p: int, n: int)
    ensures (q - p) * n == q * n - p * n
  {
  }

  lemma QuotientIsUnique(n: nat, q: int, r: int, q': int, r': int)
    requires 0 <= r < n && 0 <= r' < n && q * n + r == q' * n + r'
    ensures q == q' && r == r'
  {
    ProductOfDifference(q, q', n);
    MultipleIsAtLeast(q - q', n);
  }

  lemma RemainderIsUnique(a: int, n: nat, q: int, r: int)
    requires 0 <= r < n && a == q * n + r
    ensures a % n == r && a / n == q
  {
    var q', r' := a / n, a % n;
    assert a == q' * n + r';
    QuotientIsUnique(n, q, r, q', r');
  }

  lemma {:induction false} AndWithItself(m: nat)
    ensures BitAnd(m, m) == m
  {
    if m != 0 {
      AndWithItself(m / 2);
    }
  }

  /** The constructor's bit test accepts exactly the powers of two from 2 on. */
  lemma {:induction false} SizeTestAcceptsPowersOfTwo(n: nat)
    ensures (n >= 2 && BitAnd(n, n - 1) == 0) <==> (n >= 2 && IsPowerOfTwo(n))
  {
    if n >= 2 {
      var m := n / 2;
      if n % 2 == 1 {
        AndWithItself(m);
        assert (n - 1) / 2 == m && BitAnd(n, n - 1) == 2 * m;
        forall k: nat
          ensures n != Pow2(k)
        {
          PowerIsEven(k);
        }
      } else {
        assert (n - 1) / 2 == m - 1;
        assert BitAnd(n, n - 1) == 2 * BitAnd(m, m - 1);
        HalvingKeepsPowerOfTwo(m);
        if m == 1 {
          assert m == Pow2(0);
        } else {
          SizeTestAcceptsPowersOfTwo(m);
        }
      }
    }
  }

  lemma PowerIsEven(k: nat)
    ensures Pow2(k) == 1 || Pow2(k) % 2 == 0
  {
    assert k > 0 ==> Pow2(k) == 2 * Pow2(k - 1);
  }

  lemma HalvingKeepsPowerOfTwo(m: nat)
    requires m >= 1
    ensures IsPowerOfTwo(2 * m) <==> IsPowerOfTwo(m)
  {
    if k: nat :| 2 * m == Pow2(k) {
      assert m == Pow2(k - 1);
    }
    if k: nat :| m == Pow2(k) {
      assert 2 * m == Pow2(k + 1);
    }
  }

  lemma {:induction false} Pow2Divides(j: nat, k: nat)
    requires j <= k
    ensures Pow2(k) == Pow2(k - j) * Pow2(j)
  {
    if j > 0 {
      Pow2Divides(j - 1, k - 1);
      assert Pow2(k) == 2 * (Pow2(k - j) * Pow2(j - 1)) == Pow2(k - j) * Pow2(j);
    }
  }

  lemma WordSizes()
    ensures Pow2(32) == 0x1_0000_0000 && Pow2(64) == WORD
  {
    assert Pow2(8) == 256;
    Pow2Divides(8, 16);
    Pow2Divides(16, 32);
    Pow2Divides(32, 64);
  }

  function Wrap(x: int): (w: nat)
    ensures w < WORD
  {
    x % WORD
  }

  /** `(intptr_t)a - (intptr_t)b` on two words, as two's complement gives it. */
  function SignedDifference(a: nat, b: nat): (d: int)
    ensures -HALF <= d < HALF
  {
    var d := (a - b) % WORD;
    if d < HALF then d else d - WORD
  }

  /** The signed difference of two wrapped counters is their true difference
      exactly when they are less than half a word apart. */
  lemma WrappedDifferenceIsExact(x: int, y: int)
    ensures SignedDifference(Wrap(x), Wrap(y)) == x - y <==> -HALF <= x - y < HALF
  {
    assert Wrap(x) - Wrap(y) == (x - y) - WORD * (x / WORD - y / WORD);
    var d := (x - y) % WORD;
    RemainderIsUnique(Wrap(x) - Wrap(y), WORD, (x - y) / WORD - (x / WORD - y / WORD), d);
    if -HALF <= x - y < 0 {
      RemainderIsUnique(x - y, WORD, -1, x - y + WORD);
    } else if 0 <= x - y < HALF {
      RemainderIsUnique(x - y, WORD, 0, x - y);
    }
  }
}
