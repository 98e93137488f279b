/**
 * The header-carrying allocator shim (src/lib.rs:43-159) on a byte-addressed memory.
 *
 * `Host` holds one address space, libc's table of live blocks, and the three shim functions that
 * Roc calls.  Libc is an environment: `Malloc` and `Realloc` may put a block at any 16-aligned
 * free place or fail (section 7.22.3 of ISO/IEC 9899:2011), and the proofs cover every choice.
 */
module Allocator {
  import opened Numbers
  import opened Wrappers
  import opened PowersOfTwo
  import opened Words

  /** Requests above 1 GiB end the process. */
  const LENGTH_LIMIT: nat := 1024 * 1024 * 1024

  const USIZE_MAX: nat := WORD_LIMIT - 1

  /** The largest alignment that `next_power_of_two` can round without overflowing `usize`. */
  const ALIGNMENT_LIMIT: nat := 0x8000_0000_0000_0000

  function SaturatingAdd(a: nat, b: nat): nat {
    if a + b <= USIZE_MAX then a + b else USIZE_MAX
  }

  // ---------------------------------------------------------------------------------------------
  // What a client of the shim can see
  // ---------------------------------------------------------------------------------------------

  /** One live allocation: the header its alignment rounds to, and the user's own bytes. */
  datatype Allocation = Allocation(header: nat, bytes: seq<byte>)

  /** The plain map that the shim stands for: live user pointer to allocation. */
  type Store = map<nat, Allocation>

  datatype Event =
    | Allocated(alignment: nat, length: nat, pointer: nat)
    | Reallocated(oldPointer: nat, newLength: nat, pointer: nat)
    | Freed(pointer: nat)
    | Written(pointer: nat, offset: nat, value: byte)

  ghost predicate SamePrefix(a: seq<byte>, b: seq<byte>, n: nat) {
    n <= |a| && n <= |b| && a[..n] == b[..n]
  }

  /** The effect of one call on the plain map; bytes that libc leaves unset are unconstrained. */
  ghost predicate Step(s: Store, e: Event, s': Store) {
    match e
    case Allocated(alignment, length, p) =>
      && p !in s
      && p in s'
      && s'[p].header == HeaderSize(alignment)
      && |s'[p].bytes| == length
      && s' == s[p := s'[p]]
    case Reallocated(p, newLength, q) =>
      && p in s
      && q !in s - {p}
      && q in s'
      && s'[q].header == s[p].header
      && |s'[q].bytes| == newLength
      && SamePrefix(s[p].bytes, s'[q].bytes, Min(|s[p].bytes|, newLength))
      && s' == (s - {p})[q := s'[q]]
    case Freed(p) =>
      && p in s
      && s' == s - {p}
    case Written(p, i, v) =>
      && p in s
      && i < |s[p].bytes|
      && s' == s[p := s[p].(bytes := s[p].bytes[i := v])]
  }

  // ---------------------------------------------------------------------------------------------
  // The concrete state: memory bytes, libc's live blocks, and the header of every user pointer
  // ---------------------------------------------------------------------------------------------

  predicate Apart(b: nat, n: nat, c: nat, k: nat) {
    b + n <= c || c + k <= b
  }

  predicate Placed(b: nat, n: nat, top: nat) {
    LIBC_ALIGNMENT <= b && Aligned(b, LIBC_ALIGNMENT) && b + n <= top
  }

  /** `n` bytes at `base` lie aligned in the address space and overlap no live block. */
  predicate Fits(live: map<nat, nat>, top: nat, base: nat, n: nat) {
    && Placed(base, n, top)
    && forall b | b in live :: Apart(base, n, b, live[b])
  }

  /** Libc keeps its blocks non-empty, aligned, in the address space and pairwise disjoint. */
  ghost predicate LibcInv(live: map<nat, nat>, top: nat) {
    && (forall b | b in live :: 0 < live[b] && Placed(b, live[b], top))
    && (forall b, c | b in live && c in live && b != c :: Apart(b, live[b], c, live[c]))
  }

  /** The size word right before `p`, and the alignment word at `b` when it has its own room. */
  ghost predicate HeaderWords(m: seq<byte>, total: nat, b: nat, p: nat)
    requires b + WORD_SIZE <= p <= |m|
  {
    && Decode(m[p - WORD_SIZE..p]) == total
    && (p - b >= 2 * WORD_SIZE ==> Decode(m[b..b + WORD_SIZE]) == p - b)
  }

  /** `b` is a live block whose header ends at `p` and records the block's real size. */
  ghost predicate Headed(m: seq<byte>, live: map<nat, nat>, b: nat, p: nat) {
    && b in live
    && b + WORD_SIZE <= p <= b + live[b] <= |m|
    && HeaderWords(m, live[b], b, p)
  }

  /** What the user sees of the block: its header size and every byte behind the header. */
  ghost function Seen(m: seq<byte>, live: map<nat, nat>, b: nat, p: nat): Allocation
    requires Headed(m, live, b, p)
  {
    Allocation(p - b, m[p..b + live[b]])
  }

  /**
   * The memory refines the plain map `s`: every pointer of `s` has a headed block with the bytes
   * that `s` records, and libc's live blocks correspond to those pointers one to one.
   */
  ghost predicate Refines(m: seq<byte>, live: map<nat, nat>, bases: map<nat, nat>, owner: map<nat, nat>, s: Store) {
    && owner.Keys == live.Keys
    && bases.Keys == s.Keys
    && (forall b | b in live :: owner[b] in bases && bases[owner[b]] == b)
    && (forall p | p in bases ::
          && Headed(m, live, bases[p], p)
          && owner[bases[p]] == p
          && s[p] == Seen(m, live, bases[p], p))
  }

  ghost predicate SameBytes(m: seq<byte>, m': seq<byte>, lo: nat, hi: nat) {
    && |m| == |m'|
    && hi <= |m|
    && forall i | lo <= i < hi :: m[i] == m'[i]
  }

  /** Every byte of every block in `live` is the same in both memories. */
  ghost predicate Preserved(m: seq<byte>, m': seq<byte>, live: map<nat, nat>) {
    forall b | b in live :: SameBytes(m, m', b, b + live[b])
  }

  /** The `n` bytes at `a` in `m` have been copied to `a'` in `m'`. */
  ghost predicate Copied(m: seq<byte>, a: nat, m': seq<byte>, a': nat, n: nat) {
    a + n <= |m| && a' + n <= |m'| && m'[a'..a' + n] == m[a..a + n]
  }

  /** `m'` is `m` with the word `w` stored at `a`. */
  ghost predicate Stored(m: seq<byte>, m': seq<byte>, a: nat, w: nat) {
    && |m| == |m'|
    && a + WORD_SIZE <= |m|
    && Decode(m'[a..a + WORD_SIZE]) == w
    && forall i | 0 <= i < |m| && (i < a || a + WORD_SIZE <= i) :: m'[i] == m[i]
  }

  /** Nothing about an allocation changes while its block and the bytes in it stay as they are. */
  lemma HeadedFrame(m: seq<byte>, m': seq<byte>, live: map<nat, nat>, live': map<nat, nat>, b: nat, p: nat)
    requires Headed(m, live, b, p)
    requires b in live && b in live' && live'[b] == live[b]
    requires SameBytes(m, m', b, b + live[b])
    ensures Headed(m', live', b, p) && Seen(m', live', b, p) == Seen(m, live, b, p)
  {
    assert m'[p - WORD_SIZE..p] == m[p - WORD_SIZE..p];
    assert p - b >= 2 * WORD_SIZE ==> m'[b..b + WORD_SIZE] == m[b..b + WORD_SIZE];
  }

  lemma LibcInvKept(live: map<nat, nat>, top: nat, oldBase: nat, base: nat, size: nat)
    requires LibcInv(live, top) && size > 0 && Fits(live - {oldBase}, top, base, size)
    ensures LibcInv(live - {oldBase}, top) && LibcInv((live - {oldBase})[base := size], top)
    ensures oldBase in live ==> oldBase + live[oldBase] <= top
    ensures 0 < base && base + size <= top
  {
    hide Aligned;
  }

  /** Filling free space leaves the live blocks as they are. */
  lemma OutsidePreserved(m: seq<byte>, m': seq<byte>, live: map<nat, nat>, base: nat, size: nat)
    requires LibcInv(live, |m|) && Fits(live, |m|, base, size) && |m'| == |m|
    requires forall i | 0 <= i < |m| && (i < base || base + size <= i) :: m'[i] == m[i]
    ensures Preserved(m, m', live)
  {
    forall b | b in live
      ensures SameBytes(m, m', b, b + live[b])
    {
      assert Apart(base, size, b, live[b]) && Placed(b, live[b], |m|);
    }
  }

  lemma BaseOf(m: seq<byte>, live: map<nat, nat>, bases: map<nat, nat>, owner: map<nat, nat>, s: Store, p: nat)
    requires Refines(m, live, bases, owner, s)
    requires p in s
    ensures p in bases && Headed(m, live, bases[p], p) && s[p] == Seen(m, live, bases[p], p)
    ensures bases[p] in live && s[p].header == p - bases[p]
  {
  }

  /** Existing allocations do not notice a new block, and no user pointer is handed out twice. */
  lemma OthersKept(m: seq<byte>, m': seq<byte>, live: map<nat, nat>, b: nat, total: nat, p: nat, c: nat, q: nat)
    requires Headed(m, live, c, q) && c in live && SameBytes(m, m', c, c + live[c])
    requires total > 0 && Apart(b, total, c, live[c]) && b < p <= b + total
    ensures c != b && q != p
    ensures Headed(m', live[b := total], c, q) && Seen(m', live[b := total], c, q) == Seen(m, live, c, q)
  {
    HeadedFrame(m, m', live, live[b := total], c, q);
  }

  lemma OldBlockKept(m: seq<byte>, m1: seq<byte>, m': seq<byte>, live: map<nat, nat>,
                     b: nat, total: nat, p: nat, c: nat, q: nat)
    requires Headed(m, live, c, q) && total > 0 && b < p <= b + total && Fits(live, |m|, b, total)
    requires Preserved(m, m1, live) && Preserved(m1, m', live[b := total] - {b})
    ensures q != p && c != b
    ensures Headed(m', live[b := total], c, q) && Seen(m', live[b := total], c, q) == Seen(m, live, c, q)
  {
    hide HeaderWords, Seen;
    var others := live[b := total] - {b};
    assert Apart(b, total, c, live[c]);
    assert SameBytes(m, m1, c, c + live[c]);
    assert c in others && others[c] == live[c] && SameBytes(m1, m', c, c + others[c]);
    OthersKept(m, m', live, b, total, p, c, q);
  }

  /**
   * A block put where libc finds room (`m` to `m1`) and then headed (`m1` to `m'`) extends the
   * plain map by exactly one allocation.
   */
  lemma AddBlock(m: seq<byte>, m1: seq<byte>, m': seq<byte>, live: map<nat, nat>, bases: map<nat, nat>,
                 owner: map<nat, nat>, s: Store, b: nat, total: nat, p: nat)
    requires Refines(m, live, bases, owner, s)
    requires total > 0 && Fits(live, |m|, b, total)
    requires Preserved(m, m1, live) && Preserved(m1, m', live[b := total] - {b})
    requires Headed(m', live[b := total], b, p)
    ensures b !in live && p !in s
    ensures Refines(m', live[b := total], bases[p := b], owner[b := p],
                    s[p := Seen(m', live[b := total], b, p)])
  {
    hide HeaderWords;
    var live' := live[b := total];
    forall q | q in bases
      ensures q != p && bases[q] != b
      ensures Headed(m', live', bases[q], q) && Seen(m', live', bases[q], q) == Seen(m, live, bases[q], q)
    {
      OldBlockKept(m, m1, m', live, b, total, p, bases[q], q);
    }
    assert b !in live && p !in bases;
  }

  /** Giving a block back to libc removes exactly its own allocation from the plain map. */
  lemma RemoveBlock(m: seq<byte>, live: map<nat, nat>, bases: map<nat, nat>, owner: map<nat, nat>, s: Store, p: nat)
    requires Refines(m, live, bases, owner, s)
    requires p in s
    ensures var b := bases[p]; Refines(m, live - {b}, bases - {p}, owner - {b}, s - {p})
  {
    hide HeaderWords;
    var b := bases[p];
    var live', bases', owner' := live - {b}, bases - {p}, owner - {b};
    forall c | c in live'
      ensures owner'[c] in bases' && bases'[owner'[c]] == c
    {
      assert owner[c] != p;
    }
    forall q | q in bases'
      ensures Headed(m, live', bases'[q], q) && owner'[bases'[q]] == q
      ensures Seen(m, live', bases'[q], q) == Seen(m, live, bases[q], q)
    {
      assert owner[bases[q]] == q;
      HeadedFrame(m, m, live, live', bases[q], q);
    }
  }

  /** A reallocated block keeps its alignment word and the user bytes that still fit. */
  lemma PrefixKept(m: seq<byte>, b: nat, m': seq<byte>, b': nat, kept: nat, h: nat)
    requires Copied(m, b, m', b', kept) && WORD_SIZE <= h <= kept
    ensures m'[b'..b' + WORD_SIZE] == m[b..b + WORD_SIZE]
    ensures Copied(m, b + h, m', b' + h, kept - h)
  {
    var s, s' := m[b..b + kept], m'[b'..b' + kept];
    assert m[b..b + WORD_SIZE] == s[..WORD_SIZE] == s'[..WORD_SIZE] == m'[b'..b' + WORD_SIZE];
    assert m[b + h..b + kept] == s[h..] == s'[h..] == m'[b' + h..b' + kept];
  }

  /** The size word that realloc rewrites completes the header; the user's bytes stay clear of it. */
  lemma SizeWordRestored(m: seq<byte>, live: map<nat, nat>, b: nat, h: nat, m': seq<byte>)
    requires b in live && WORD_SIZE <= h <= live[b] && b + live[b] <= |m|
    requires h == WORD_SIZE || 2 * WORD_SIZE <= h
    requires h >= 2 * WORD_SIZE ==> Decode(m[b..b + WORD_SIZE]) == h
    requires Stored(m, m', b + h - WORD_SIZE, live[b])
    ensures Headed(m', live, b, b + h)
    ensures m'[b + h..b + live[b]] == m[b + h..b + live[b]]
  {
    assert h >= 2 * WORD_SIZE ==> m'[b..b + WORD_SIZE] == m[b..b + WORD_SIZE];
  }

  lemma BytesKept(m: seq<byte>, live: map<nat, nat>, b: nat, p: nat,
                  m1: seq<byte>, m2: seq<byte>, live': map<nat, nat>, b': nat, p': nat)
    requires Headed(m, live, b, p) && Headed(m2, live', b', p') && p' - b' == p - b && |m1| == |m2|
    requires Copied(m, p, m1, p', Min(live'[b'], live[b]) - (p - b))
    requires m2[p'..b' + live'[b']] == m1[p'..b' + live'[b']]
    ensures var a, a' := Seen(m, live, b, p), Seen(m2, live', b', p');
            SamePrefix(a.bytes, a'.bytes, Min(|a.bytes|, |a'.bytes|))
  {
    var a, a' := Seen(m, live, b, p), Seen(m2, live', b', p');
    var n := Min(|a.bytes|, |a'.bytes|);
    assert a.bytes[..n] == m[p..p + n];
    assert a'.bytes[..n] == m1[p'..b' + live'[b']][..n] == m1[p'..p' + n];
  }

  /**
   * `realloc` (`m` to `m1`) followed by the size store (`m1` to `m2`) moves exactly one allocation
   * of the plain map, under the rules of `Reallocated`.
   */
  lemma RefitBlock(m: seq<byte>, m1: seq<byte>, m2: seq<byte>, live: map<nat, nat>, live': map<nat, nat>,
                   bases: map<nat, nat>, owner: map<nat, nat>, s: Store, p: nat, b: nat, b': nat, q: nat, n: nat)
    requires Refines(m, live, bases, owner, s) && p in s && bases[p] == b
    requires q - b' == p - b && (p - b == WORD_SIZE || p - b >= 2 * WORD_SIZE)
    requires b in live && b' in live' && live' == (live - {b})[b' := live'[b']] && live'[b'] == n + (q - b')
    requires Fits(live - {b}, |m|, b', live'[b'])
    requires Preserved(m, m1, live - {b}) && Preserved(m1, m2, live' - {b'})
    requires Copied(m, b, m1, b', Min(live'[b'], live[b])) && Stored(m1, m2, q - WORD_SIZE, live'[b'])
    requires |m| == |m1|
    ensures Headed(m2, live', b', q)
    ensures var s' := (s - {p})[q := Seen(m2, live', b', q)];
            && Refines(m2, live', (bases - {p})[q := b'], (owner - {b})[b' := q], s')
            && Step(s, Reallocated(p, n, q), s')
  {
    hide Refines, Preserved, HeaderWords;
    BaseOf(m, live, bases, owner, s, p);
    PrefixKept(m, b, m1, b', Min(live'[b'], live[b]), p - b);
    assert Decode(m1[b'..b' + WORD_SIZE]) == Decode(m[b..b + WORD_SIZE]);
    AlignmentWord(m, live, b, p);
    SizeWordRestored(m1, live', b', p - b, m2);
    RemoveBlock(m, live, bases, owner, s, p);
    AddBlock(m, m1, m2, live - {b}, bases - {p}, owner - {b}, s - {p}, b', live'[b'], q);
    BytesKept(m, live, b, p, m1, m2, live', b', q);
  }

  lemma AlignmentWord(m: seq<byte>, live: map<nat, nat>, b: nat, p: nat)
    requires Headed(m, live, b, p)
    ensures p - b >= 2 * WORD_SIZE ==> Decode(m[b..b + WORD_SIZE]) == p - b
  {
  }

  /** A header either is one word, or has separate room for the size and the alignment. */
  lemma HeaderRoom(alignment: nat)
    ensures HeaderSize(alignment) == WORD_SIZE || HeaderSize(alignment) >= 2 * WORD_SIZE
  {
    var h := HeaderSize(alignment);
    if h < 32 {
      SmallPowersOfTwo(h);
    }
  }

  lemma WriteOutside(m: seq<byte>, live: map<nat, nat>, bases: map<nat, nat>, owner: map<nat, nat>,
                     s: Store, p: nat, q: nat, i: nat, v: byte)
    requires Refines(m, live, bases, owner, s) && LibcInv(live, |m|)
    requires p in s && i < |s[p].bytes| && q in s && q != p
    ensures p + i < |m|
    ensures q in bases && Headed(m[p + i := v], live, bases[q], q) && Seen(m[p + i := v], live, bases[q], q) == s[q]
  {
    hide HeaderWords;
    var b, c := bases[p], bases[q];
    assert c != b by { assert owner[b] == p && owner[c] == q; }
    assert Apart(b, live[b], c, live[c]);
    HeadedFrame(m, m[p + i := v], live, live, c, q);
  }

  /** A store to one user byte changes that byte of that allocation and nothing else. */
  lemma WriteByte(m: seq<byte>, live: map<nat, nat>, bases: map<nat, nat>, owner: map<nat, nat>,
                  s: Store, p: nat, i: nat, v: byte)
    requires Refines(m, live, bases, owner, s) && LibcInv(live, |m|)
    requires p in s && i < |s[p].bytes|
    ensures p + i < |m|
    ensures Refines(m[p + i := v], live, bases, owner, s[p := s[p].(bytes := s[p].bytes[i := v])])
  {
    hide HeaderWords, LibcInv;
    var b := bases[p];
    BaseOf(m, live, bases, owner, s, p);
    WriteInside(m, live, b, p, i, v);
    var m', s' := m[p + i := v], s[p := s[p].(bytes := s[p].bytes[i := v])];
    forall q | q in bases
      ensures Headed(m', live, bases[q], q) && s'[q] == Seen(m', live, bases[q], q)
    {
      if q != p {
        WriteOutside(m, live, bases, owner, s, p, q, i, v);
      }
    }
  }

  lemma WriteInside(m: seq<byte>, live: map<nat, nat>, b: nat, p: nat, i: nat, v: byte)
    requires Headed(m, live, b, p) && p + i < b + live[b]
    ensures Headed(m[p + i := v], live, b, p)
    ensures Seen(m[p + i := v], live, b, p) == Allocation(p - b, m[p..b + live[b]][i := v])
  {
    var m' := m[p + i := v];
    assert m'[p - WORD_SIZE..p] == m[p - WORD_SIZE..p];
    assert p - b >= 2 * WORD_SIZE ==> m'[b..b + WORD_SIZE] == m[b..b + WORD_SIZE];
    assert m'[p..b + live[b]] == m[p..b + live[b]][i := v];
  }

  /** A power-of-two alignment that libc itself guarantees is honoured at `pointer`. */
  ghost predicate AlignmentMet(pointer: nat, alignment: nat) {
    IsPowerOfTwo(alignment) && alignment <= LIBC_ALIGNMENT ==> Aligned(pointer, alignment)
  }

  /** A saturated total can never be placed, so a live block has its exact size; and it is aligned. */
  lemma PlacedBlock(live: map<nat, nat>, alignment: nat, length: nat, b: nat, top: nat)
    requires top <= WORD_LIMIT
    requires Fits(live, top, b, Max(SaturatingAdd(length, HeaderSize(alignment)), 1))
    ensures Max(SaturatingAdd(length, HeaderSize(alignment)), 1) == length + HeaderSize(alignment) < USIZE_MAX
    ensures b > 0 && AlignmentMet(UserPointer(b, alignment), alignment)
  {
    if IsPowerOfTwo(alignment) && alignment <= LIBC_ALIGNMENT {
      SmallAlignmentHonoured(b, alignment);
    }
  }

  class Host {
    const mem: array<byte>
    var live: map<nat, nat>
    var exited: bool
    ghost var refusals: nat         // how often libc has returned null
    ghost var contents: Store       // the plain map this host stands for
    ghost var bases: map<nat, nat>  // user pointer to libc base
    ghost var owner: map<nat, nat>  // libc base to user pointer

    ghost predicate Valid()
      reads this, mem
    {
      && mem.Length <= WORD_LIMIT
      && LibcInv(live, mem.Length)
      && Refines(mem[..], live, bases, owner, contents)
    }

    constructor (size: nat)
      requires size <= WORD_LIMIT
      ensures Valid() && !exited
      ensures contents == map[]
    {
      mem := new byte[size];
      live, exited, refusals := map[], false, 0;
      contents, bases, owner := map[], map[], map[];
    }

    // -------------------------------------------------------------------------------------------
    // Libc
    // -------------------------------------------------------------------------------------------

    /** `malloc`: null, or a new block anywhere it fits; its bytes are arbitrary. */
    method Malloc(size: nat) returns (base: nat)
      requires size > 0 && LibcInv(live, mem.Length)
      modifies this`live, this`refusals, mem
      ensures LibcInv(live, mem.Length)
      ensures base == 0 ==> live == old(live) && mem[..] == old(mem[..]) && refusals == old(refusals) + 1
      ensures base != 0 ==> refusals == old(refusals)
      ensures base != 0 ==> Fits(old(live), mem.Length, base, size) && live == old(live)[base := size]
      ensures base != 0 ==> Preserved(old(mem[..]), mem[..], old(live))
    {
      base := *;
      if !Fits(live, mem.Length, base, size) {
        base, refusals := 0, refusals + 1;
        return;
      }
      var i := base;
      while i < base + size
        invariant base <= i <= base + size
        invariant forall j | 0 <= j < mem.Length && (j < base || base + size <= j) :: mem[j] == old(mem[j])
        modifies mem
      {
        mem[i] := *;
        i := i + 1;
      }
      live := live[base := size];
    }

    /**
     * `realloc`: null and no change, or a block of the new size at the old place or wherever it
     * fits once the old block is gone, starting with the bytes that both sizes have room for.
     */
    method Realloc(oldBase: nat, size: nat) returns (base: nat)
      requires oldBase in live
      requires size > 0 && LibcInv(live, mem.Length)
      modifies this`live, this`refusals, mem
      ensures LibcInv(live, mem.Length)
      ensures base == 0 ==> live == old(live) && mem[..] == old(mem[..]) && refusals == old(refusals) + 1
      ensures base != 0 ==> refusals == old(refusals)
      ensures base != 0 ==> Fits(old(live) - {oldBase}, mem.Length, base, size)
      ensures base != 0 ==> live == (old(live) - {oldBase})[base := size]
      ensures base != 0 ==> Preserved(old(mem[..]), mem[..], old(live) - {oldBase})
      ensures base != 0 ==> Copied(old(mem[..]), oldBase, mem[..], base, Min(size, old(live)[oldBase]))
    {
      hide LibcInv, Preserved, Fits;
      base := *;
      if !Fits(live - {oldBase}, mem.Length, base, size) {
        base, refusals := 0, refusals + 1;
        return;
      }
      LibcInvKept(live, mem.Length, oldBase, base, size);
      var kept := mem[oldBase..oldBase + Min(size, live[oldBase])];
      forall i | 0 <= i < |kept| {
        mem[base + i] := kept[i];
      }
      assert mem[base..base + |kept|] == kept;
      OutsidePreserved(old(mem[..]), mem[..], live - {oldBase}, base, size);
      live := (live - {oldBase})[base := size];
    }

    /** `free`: the block must be live, and no longer is. */
    method Free(base: nat)
      requires base in live && LibcInv(live, mem.Length)
      modifies this`live
      ensures LibcInv(live, mem.Length)
      ensures live == old(live) - {base}
    {
      live := live - {base};
    }

    /** A raw `usize` store at address `a`, which must lie inside the live block at `block`. */
    method StoreWord(a: nat, w: nat, ghost block: nat)
      requires w < WORD_LIMIT && LibcInv(live, mem.Length)
      requires block in live && block <= a && a + WORD_SIZE <= block + live[block]
      modifies mem
      ensures Stored(old(mem[..]), mem[..], a, w)
      ensures Preserved(old(mem[..]), mem[..], live - {block})
    {
      forall b | b in live - {block}
        ensures Apart(block, live[block], b, live[b]) && Placed(b, live[b], mem.Length)
      {
      }
      var bytes := Encode(w, WORD_SIZE);
      forall i | 0 <= i < WORD_SIZE {
        mem[a + i] := bytes[i];
      }
      assert mem[..][a..a + WORD_SIZE] == bytes;
      WordRoundTrip(w);
    }

    // -------------------------------------------------------------------------------------------
    // The shim
    // -------------------------------------------------------------------------------------------

    /** The two header stores of `roc_alloc_fn`; the alignment word only if it has its own room. */
    method WriteHeader(base: nat, header: nat, total: nat, minAlignment: nat)
      requires LibcInv(live, mem.Length) && base in live && live[base] == total < WORD_LIMIT
      requires WORD_SIZE <= header == minAlignment <= total
      modifies mem
      ensures Headed(mem[..], live, base, base + header)
      ensures Preserved(old(mem[..]), mem[..], live - {base})
    {
      StoreWord(base + header - WORD_SIZE, total, base);
      ghost var m := mem[..];
      if header >= 2 * WORD_SIZE {
        StoreWord(base, minAlignment, base);
      }
      assert mem[..][base + header - WORD_SIZE..base + header] == m[base + header - WORD_SIZE..base + header];
    }

    /** Adopts a new plain map that the memory already refines. */
    ghost method Track(s: Store, bases': map<nat, nat>, owner': map<nat, nat>)
      requires mem.Length <= WORD_LIMIT && LibcInv(live, mem.Length)
      requires Refines(mem[..], live, bases', owner', s)
      modifies this`contents, this`bases, this`owner
      ensures Valid() && contents == s
    {
      hide Refines, LibcInv;
      contents, bases, owner := s, bases', owner';
    }

    /** `roc_alloc_fn`. `None` means that the process exited. */
    method Alloc(alignment: nat, length: nat) returns (answer: Option<nat>)
      requires Valid() && !exited
      requires alignment <= ALIGNMENT_LIMIT && length <= USIZE_MAX
      modifies this, mem
      ensures Valid() && exited == answer.None?
      ensures answer.None? <==> length > 0x4000_0000 || refusals > old(refusals)
      ensures answer.None? ==> contents == old(contents)
      ensures answer.Some? ==> Step(old(contents), Allocated(alignment, length, answer.value), contents)
      ensures answer.Some? ==> AlignmentMet(answer.value, alignment)
    {
      hide Refines, LibcInv, Preserved, Headed, AlignmentMet, NextPowerOfTwo, IsPowerOfTwo;
      if length > LENGTH_LIMIT {
        exited := true;
        return None;
      }
      var minAlignment := NextPowerOfTwo(Max(Max(alignment, 1), WORD_SIZE));
      var header := minAlignment;
      var total := Max(SaturatingAdd(length, header), 1);
      var base := Malloc(total);
      if base == 0 {
        exited := true;
        return None;
      }
      PlacedBlock(old(live), alignment, length, base, mem.Length);
      ghost var m1 := mem[..];
      WriteHeader(base, header, total, minAlignment);
      ghost var m2 := mem[..];
      AddBlock(old(mem[..]), m1, m2, old(live), bases, owner, contents, base, total, base + header);
      Track(contents[base + header := Seen(m2, live, base, base + header)],
            bases[base + header := base], owner[base := base + header]);
      answer := Some(base + header);
    }

    /** `roc_dealloc_fn`: the alignment only has to round to the header that alloc chose. */
    method Dealloc(pointer: nat, alignment: nat)
      requires Valid() && !exited
      requires pointer in contents && contents[pointer].header == HeaderSize(alignment)
      modifies this, mem
      ensures Valid() && !exited
      ensures Step(old(contents), Freed(pointer), contents)
    {
      hide Refines, LibcInv, IsPowerOfTwo, NextPowerOfTwo;
      BaseOf(mem[..], live, bases, owner, contents, pointer);
      var base := pointer - HeaderSize(alignment);
      RemoveBlock(mem[..], live, bases, owner, contents, pointer);
      Free(base);
      Track(contents - {pointer}, bases - {pointer}, owner - {base});
    }

    /** `roc_realloc_fn`. `None` means that the process exited. Only the size word is rewritten. */
    method Reallocate(pointer: nat, alignment: nat, newLength: nat) returns (answer: Option<nat>)
      requires Valid() && !exited
      requires pointer in contents && contents[pointer].header == HeaderSize(alignment)
      requires newLength <= USIZE_MAX
      modifies this, mem
      ensures Valid() && exited == answer.None?
      ensures answer.None? <==> refusals > old(refusals)
      ensures answer.None? ==> contents == old(contents)
      ensures answer.Some? ==> Step(old(contents), Reallocated(pointer, newLength, answer.value), contents)
      ensures answer.Some? ==> AlignmentMet(answer.value, alignment)
    {
      hide Refines, LibcInv, Preserved, HeaderWords, Copied, Stored, Fits, Step, Headed, Seen;
      hide AlignmentMet, HeaderSize, NextPowerOfTwo, IsPowerOfTwo;
      BaseOf(mem[..], live, bases, owner, contents, pointer);
      HeaderRoom(alignment);
      var header := HeaderSize(alignment);
      var oldBase := pointer - header;
      var newTotal := Max(SaturatingAdd(newLength, header), 1);
      ghost var m := mem[..];
      var newBase := Realloc(oldBase, newTotal);
      if newBase == 0 {
        exited := true;
        return None;
      }
      PlacedBlock(old(live) - {oldBase}, alignment, newLength, newBase, mem.Length);
      ghost var q := UserPointer(newBase, alignment);
      ghost var m1 := mem[..];
      StoreWord(newBase + header - WORD_SIZE, newTotal, newBase);
      ghost var m2 := mem[..];
      RefitBlock(m, m1, m2, old(live), live, bases, owner, contents, pointer, oldBase, newBase, q, newLength);
      ghost var s := (contents - {pointer})[q := Seen(m2, live, newBase, q)];
      assert Step(old(contents), Reallocated(pointer, newLength, q), s);
      Track(s, (bases - {pointer})[q := newBase], (owner - {oldBase})[newBase := q]);
      answer := Some(newBase + header);
      assert answer.value == q;
    }

    /** A Roc program stores a byte inside one of its allocations. */
    method Write(pointer: nat, offset: nat, value: byte)
      requires Valid() && !exited
      requires pointer in contents && offset < |contents[pointer].bytes|
      modifies this, mem
      ensures Valid() && !exited
      ensures Step(old(contents), Written(pointer, offset, value), contents)
    {
      hide Refines, LibcInv;
      ghost var m := mem[..];
      WriteByte(m, live, bases, owner, contents, pointer, offset, value);
      mem[pointer + offset] := value;
      assert mem[..] == m[pointer + offset := value];
      Track(contents[pointer := contents[pointer].(bytes := contents[pointer].bytes[offset := value])], bases, owner);
    }

    /** A Roc program reads a byte of one of its allocations. */
    method Read(pointer: nat, offset: nat) returns (value: byte)
      requires Valid() && !exited
      requires pointer in contents && offset < |contents[pointer].bytes|
      ensures value == contents[pointer].bytes[offset]
    {
      hide Refines, LibcInv, HeaderWords;
      BaseOf(mem[..], live, bases, owner, contents, pointer);
      value := mem[pointer + offset];
    }

    /**
     * What the metadata says about every live pointer: the size word is the block's real total
     * size, the alignment word is the rounded alignment whenever the header has room for it, the
     * two words do not overlap, and size minus header is the user's own length.
     */
    lemma Metadata(p: nat)
      requires Valid() && p in contents
      ensures var h := contents[p].header;
              && WORD_SIZE <= h <= p && p - h in live && p <= |mem[..]|
              && Decode(mem[..][p - WORD_SIZE..p]) == live[p - h] == h + |contents[p].bytes|
              && (h >= 2 * WORD_SIZE ==> Decode(mem[..][p - h..p - h + WORD_SIZE]) == h)
    {
      hide Refines, LibcInv, Decode;
      BaseOf(mem[..], live, bases, owner, contents, p);
    }

    /** User regions never overlap each other, nor another allocation's header. */
    lemma UserRegionsApart(p: nat, q: nat)
      requires Valid() && p in contents && q in contents && p != q
      ensures var hp, np, hq, nq := contents[p].header, |contents[p].bytes|, contents[q].header, |contents[q].bytes|;
              hp <= p && hq <= q && Apart(p - hp, hp + np, q - hq, hq + nq)
    {
      hide HeaderWords;
      BaseOf(mem[..], live, bases, owner, contents, p);
      BaseOf(mem[..], live, bases, owner, contents, q);
      assert owner[bases[p]] == p && owner[bases[q]] == q;
      assert Apart(bases[p], live[bases[p]], bases[q], live[bases[q]]);
    }

    /** Libc's live blocks are exactly the live pointers minus their headers. */
    lemma LiveBlocksArePointers()
      requires Valid()
      ensures forall b | b in live :: exists p | p in contents :: BasePointer(contents, p) == b
      ensures forall p | p in contents :: BasePointer(contents, p) in live
      ensures |live| == |contents|
    {
      hide Refines, LibcInv, HeaderWords;
      Correspondence(mem[..], live, bases, owner, contents);
      SameSize(bases.Keys, live.Keys, bases, owner);
      forall b | b in live
        ensures exists p | p in contents :: BasePointer(contents, p) == b
      {
        assert BasePointer(contents, owner[b]) == b;
      }
    }
  }

  /** Where libc put the block of a live user pointer. */
  ghost function BasePointer(s: Store, p: nat): int
    requires p in s
  {
    p - s[p].header
  }

  lemma Correspondence(m: seq<byte>, live: map<nat, nat>, bases: map<nat, nat>, owner: map<nat, nat>, s: Store)
    requires Refines(m, live, bases, owner, s)
    ensures bases.Keys == s.Keys
    ensures forall p | p in s :: BasePointer(s, p) == bases[p]
    ensures forall p | p in bases :: bases[p] in live && bases[p] in owner && owner[bases[p]] == p
    ensures forall b | b in live :: b in owner && owner[b] in bases && bases[owner[b]] == b
  {
    hide HeaderWords;
  }

  lemma SameSize(xs: set<nat>, ys: set<nat>, f: map<nat, nat>, g: map<nat, nat>)
    requires forall x | x in xs :: x in f && f[x] in ys && f[x] in g && g[f[x]] == x
    requires forall y | y in ys :: y in g && g[y] in xs && g[y] in f && f[g[y]] == y
    ensures |xs| == |ys|
  {
    if xs == {} {
      assert forall y | y in ys :: g[y] in xs;
    } else {
      var x :| x in xs;
      SameSize(xs - {x}, ys - {f[x]}, f, g);
    }
  }

  // ---------------------------------------------------------------------------------------------
  // Runs
  // ---------------------------------------------------------------------------------------------

  /** What a client can know about a byte: nothing until it writes it. */
  type Known = seq<Option<byte>>

  ghost function Unknown(n: nat): (k: Known)
    ensures |k| == n && forall i | 0 <= i < n :: k[i] == None
  {
    seq(n, _ => None)
  }

  /** The reference model: a map of byte lists that knows nothing of headers, blocks or libc. */
  ghost function Remember(k: map<nat, Known>, e: Event): map<nat, Known> {
    match e
    case Allocated(_, length, p) => k[p := Unknown(length)]
    case Reallocated(p, newLength, q) =>
      if p !in k then k
      else
        var kept := Min(|k[p]|, newLength);
        (k - {p})[q := k[p][..kept] + Unknown(newLength - kept)]
    case Freed(p) => k - {p}
    case Written(p, i, v) =>
      if p in k && i < |k[p]| then k[p := k[p][i := Some(v)]] else k
  }

  ghost function Replay(events: seq<Event>): map<nat, Known> {
    if events == [] then map[] else Remember(Replay(events[..|events| - 1]), events[|events| - 1])
  }

  /** The allocation has the known length and every known byte. */
  ghost predicate Recalls(a: Allocation, k: Known) {
    |a.bytes| == |k| && forall i | 0 <= i < |k| && k[i].Some? :: a.bytes[i] == k[i].value
  }

  ghost predicate Agrees(s: Store, k: map<nat, Known>) {
    s.Keys == k.Keys && forall p | p in s :: Recalls(s[p], k[p])
  }

  /** A run of the shim, as its methods' contracts chain: every event is one `Step`. */
  ghost predicate Run(stores: seq<Store>, events: seq<Event>) {
    && |stores| == |events| + 1
    && stores[0] == map[]
    && forall i | 0 <= i < |events| :: Step(stores[i], events[i], stores[i + 1])
  }

  lemma AllocatedAgrees(s: Store, e: Event, s': Store, k: map<nat, Known>)
    requires e.Allocated? && Step(s, e, s') && Agrees(s, k)
    ensures Agrees(s', Remember(k, e))
  {
    assert Recalls(s'[e.pointer], Unknown(e.length));
    hide Recalls;
  }

  lemma ReallocatedRecalls(a: Allocation, a': Allocation, k: Known, newLength: nat)
    requires Recalls(a, k) && |a'.bytes| == newLength
    requires SamePrefix(a.bytes, a'.bytes, Min(|a.bytes|, newLength))
    ensures var kept := Min(|k|, newLength); Recalls(a', k[..kept] + Unknown(newLength - kept))
  {
    var kept := Min(|k|, newLength);
    forall i | 0 <= i < kept
      ensures a'.bytes[i] == a.bytes[i]
    {
      assert a'.bytes[..kept][i] == a.bytes[..kept][i];
    }
  }

  lemma ReallocatedAgrees(s: Store, e: Event, s': Store, k: map<nat, Known>)
    requires e.Reallocated? && Step(s, e, s') && Agrees(s, k)
    ensures Agrees(s', Remember(k, e))
  {
    hide Recalls, SamePrefix;
    ReallocatedRecalls(s[e.oldPointer], s'[e.pointer], k[e.oldPointer], e.newLength);
    assert Recalls(s[e.oldPointer], k[e.oldPointer]) ==> |s[e.oldPointer].bytes| == |k[e.oldPointer]| by {
      SameLength(s[e.oldPointer], k[e.oldPointer]);
    }
  }

  lemma SameLength(a: Allocation, k: Known)
    ensures Recalls(a, k) ==> |a.bytes| == |k|
  {
  }

  lemma WrittenAgrees(s: Store, e: Event, s': Store, k: map<nat, Known>)
    requires e.Written? && Step(s, e, s') && Agrees(s, k)
    ensures Agrees(s', Remember(k, e))
  {
    var p := e.pointer;
    assert Recalls(s[p], k[p]);
    assert Recalls(s'[p], k[p][e.offset := Some(e.value)]);
    hide Recalls;
    SameLength(s[p], k[p]);
  }

  lemma StepAgrees(s: Store, e: Event, s': Store, k: map<nat, Known>)
    requires Step(s, e, s') && Agrees(s, k)
    ensures Agrees(s', Remember(k, e))
  {
    match e
    case Allocated(_, _, _) => AllocatedAgrees(s, e, s', k);
    case Reallocated(_, _, _) => ReallocatedAgrees(s, e, s', k);
    case Freed(_) => hide Recalls;
    case Written(_, _, _) => WrittenAgrees(s, e, s', k);
  }

  /**
   * Safety over whole runs: after any sequence of allocations, reallocations, frees and writes,
   * the live pointers are those of the reference model, and every byte that the client ever wrote
   * and that survived later resizing is still there.
   */
  lemma {:induction false} RunAgrees(stores: seq<Store>, events: seq<Event>)
    requires Run(stores, events)
    ensures Agrees(stores[|events|], Replay(events))
  {
    var n := |events|;
    if n == 0 {
    } else {
      RunAgrees(stores[..n], events[..n - 1]);
      StepAgrees(stores[n - 1], events[n - 1], stores[n], Replay(events[..n - 1]));
    }
  }
}
