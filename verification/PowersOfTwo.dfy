/**
 * Powers of two, `usize::next_power_of_two`, and the header size that the allocator shim
 * derives from an alignment (src/lib.rs:59-66).
 */
module PowersOfTwo {
  import opened Numbers

  /** `std::mem::align_of::<usize>()` and `std::mem::size_of::<usize>()` on a 64-bit target. */
  const WORD_SIZE: nat := 8

  /** The alignment that C's `malloc` and `realloc` guarantee for every block. */
  const LIBC_ALIGNMENT: nat := 16

  predicate IsPowerOfTwo(n: nat) {
    n == 1 || (n > 1 && n % 2 == 0 && IsPowerOfTwo(n / 2))
  }

  /** `usize::next_power_of_two`, where it does not overflow. */
  function NextPowerOfTwo(n: nat): (r: nat)
    ensures IsPowerOfTwo(r)
    ensures n <= r
    ensures n > 0 ==> r < 2 * n
  {
    if n <= 1 then 1 else 2 * NextPowerOfTwo((n + 1) / 2)
  }

  /** The number of header bytes in front of the user data: `size_storage_bytes`. */
  function HeaderSize(alignment: nat): (h: nat)
    ensures IsPowerOfTwo(h) && WORD_SIZE <= h && alignment <= h
  {
    NextPowerOfTwo(Max(Max(alignment, 1), WORD_SIZE))
  }

  predicate Aligned(pointer: nat, alignment: nat)
    requires alignment > 0
  {
    pointer % alignment == 0
  }

  /** The user pointer that alloc and realloc hand out for a block that libc placed at `base`. */
  function UserPointer(base: nat, alignment: nat): nat {
    base + HeaderSize(alignment)
  }

  /** `NextPowerOfTwo` is the least power of two that is not below its argument. */
  lemma {:induction false} NextPowerOfTwoIsLeast(n: nat, q: nat)
    requires IsPowerOfTwo(q) && n <= q
    ensures NextPowerOfTwo(n) <= q
  {
    if n <= 1 {
    } else {
      NextPowerOfTwoIsLeast((n + 1) / 2, q / 2);
    }
  }

  /** A power of two is its own rounding, so passing the rounded alignment back changes nothing. */
  lemma HeaderSizeOfHeader(alignment: nat)
    ensures HeaderSize(HeaderSize(alignment)) == HeaderSize(alignment)
  {
    var h := HeaderSize(alignment);
    NextPowerOfTwoIsLeast(h, h);
  }

  /** Two alignments fall in the same rounding class: no power of two from 8 up separates them. */
  ghost predicate SameRounding(a: nat, b: nat) {
    forall q: nat | IsPowerOfTwo(q) && WORD_SIZE <= q :: a <= q <==> b <= q
  }

  lemma HeaderSizeBelow(a: nat, q: nat)
    requires IsPowerOfTwo(q) && WORD_SIZE <= q
    ensures HeaderSize(a) <= q <==> a <= q
  {
    if a <= q {
      NextPowerOfTwoIsLeast(Max(Max(a, 1), WORD_SIZE), q);
    }
  }

  /**
   * Subtracting the header computed from alignment `b` finds the libc base of a block allocated
   * with alignment `a` exactly when both alignments fall in the same rounding class.
   */
  lemma BaseRecovery(base: nat, a: nat, b: nat)
    ensures UserPointer(base, a) - HeaderSize(b) == base <==> SameRounding(a, b)
  {
    if HeaderSize(a) == HeaderSize(b) {
      forall q: nat | IsPowerOfTwo(q) && WORD_SIZE <= q
        ensures a <= q <==> b <= q
      {
        HeaderSizeBelow(a, q);
        HeaderSizeBelow(b, q);
      }
    }
    if SameRounding(a, b) {
      HeaderSizeBelow(a, HeaderSize(b));
      HeaderSizeBelow(b, HeaderSize(a));
    }
  }

  lemma MultipleAtLeast(k: nat, d: nat)
    requires k > 0
    ensures k * d >= d
  {
    assert k * d == (k - 1) * d + d;
  }

  lemma QuotientUnique(q: int, r: nat, q': int, r': nat, d: nat)
    requires r < d && r' < d && q * d + r == q' * d + r'
    requires q <= q'
    ensures q == q' && r == r'
  {
    assert (q' - q) * d == q' * d - q * d;
    if q < q' {
      MultipleAtLeast(q' - q, d);
      assert false;
    }
  }

  lemma ModAddDivisor(n: nat, d: nat)
    requires d > 0
    ensures (n + d) % d == n % d
  {
    var m := n + d;
    assert m == (m / d) * d + m % d;
    assert m == (n / d + 1) * d + n % d;
    if m / d <= n / d + 1 {
      QuotientUnique(m / d, m % d, n / d + 1, n % d, d);
    } else {
      QuotientUnique(n / d + 1, n % d, m / d, m % d, d);
    }
  }

  /** The user pointer sits at the same offset modulo the header size as the libc base. */
  lemma UserPointerModulo(base: nat, alignment: nat)
    ensures UserPointer(base, alignment) % HeaderSize(alignment) == base % HeaderSize(alignment)
  {
    ModAddDivisor(base, HeaderSize(alignment));
  }

  lemma SmallPowersOfTwo(n: nat)
    requires IsPowerOfTwo(n) && n < 32
    ensures n in {1, 2, 4, 8, 16}
  {
    if n > 1 {
      var n2 := n / 2;
      if n2 > 1 {
        var n4 := n2 / 2;
        assert IsPowerOfTwo(n4);
        if n4 > 1 {
          assert IsPowerOfTwo(n4 / 2);
        }
      }
    }
  }

  lemma DividesMultiple(k: nat, d: nat)
    requires d > 0
    ensures (k * d) % d == 0
  {
    var n := k * d;
    assert n == (n / d) * d + n % d;
    if n / d <= k {
      QuotientUnique(n / d, n % d, k, 0, d);
    } else {
      QuotientUnique(k, 0, n / d, n % d, d);
    }
  }

  lemma BehindHeader(base: nat)
    requires base % 16 == 0
    ensures (base + 8) % 1 == 0 && (base + 8) % 2 == 0 && (base + 8) % 4 == 0 && (base + 8) % 8 == 0
    ensures (base + 16) % 16 == 0
  {
    var k := base / 16;
    DividesMultiple(16 * k + 8, 1);
    DividesMultiple(8 * k + 4, 2);
    DividesMultiple(4 * k + 2, 4);
    DividesMultiple(2 * k + 1, 8);
    DividesMultiple(k + 1, 16);
  }

  lemma SmallHeader(a: nat)
    requires IsPowerOfTwo(a) && a <= LIBC_ALIGNMENT
    ensures HeaderSize(a) == if a == 16 then 16 else 8
  {
    SmallPowersOfTwo(a);
    HeaderSizeBelow(a, 8);
    HeaderSizeBelow(a, 16);
    SmallPowersOfTwo(HeaderSize(a));
  }

  lemma SmallAlignmentHonoured(base: nat, a: nat)
    requires IsPowerOfTwo(a) && a <= LIBC_ALIGNMENT && Aligned(base, LIBC_ALIGNMENT)
    ensures Aligned(UserPointer(base, a), a)
  {
    SmallHeader(a);
    SmallPowersOfTwo(a);
    BehindHeader(base);
  }

  lemma LargeAlignmentMissed(a: nat)
    requires IsPowerOfTwo(a) && a > LIBC_ALIGNMENT
    ensures !Aligned(UserPointer(LIBC_ALIGNMENT, a), a)
  {
    var h := HeaderSize(a);
    assert h == a by { HeaderSizeBelow(a, a); }
    UserPointerModulo(LIBC_ALIGNMENT, a);
    ModBelow(LIBC_ALIGNMENT, h);
  }

  lemma ModBelow(n: nat, d: nat)
    requires n < d
    ensures n % d == n
  {
  }

  /**
   * Every block that libc may return satisfies the requested power-of-two alignment exactly
   * when that alignment is at most libc's own 16; from 32 on, a block at 16 is a counterexample.
   */
  lemma AlignmentHonoured(a: nat)
    requires IsPowerOfTwo(a)
    ensures (forall base: nat | Aligned(base, LIBC_ALIGNMENT) :: Aligned(UserPointer(base, a), a))
       <==> a <= LIBC_ALIGNMENT
  {
    if a <= LIBC_ALIGNMENT {
      forall base: nat | Aligned(base, LIBC_ALIGNMENT)
        ensures Aligned(UserPointer(base, a), a)
      {
        SmallAlignmentHonoured(base, a);
      }
    } else {
      LargeAlignmentMissed(a);
      assert Aligned(LIBC_ALIGNMENT, LIBC_ALIGNMENT);
    }
  }
}
