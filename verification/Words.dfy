// Little-endian words in byte memory, and the bits of a page-table entry
// (kernel/kernel/src/memory/types.rs:18-22, paging.rs:9; section 4.5 of the
// Intel SDM, Volume 3A). Shifts and masks are written as division and
// remainder; `|` of words without a common bit is addition.
module Words {
  import opened Prelude

  const WORD: nat := 8
  const WORDS_PER_PAGE: nat := 512
  const WORD_LIMIT: nat := 0x1_0000_0000_0000_0000

  /** `u64::from_le_bytes` and its shorter forms. */
  function FromLe(bytes: Bytes): nat {
    if bytes == [] then 0 else bytes[0] + 256 * FromLe(bytes[1..])
  }

  /** `count` bytes at `offset`, least significant first. */
  function ReadLe(bytes: Bytes, offset: nat, count: nat): nat
    requires offset + count <= |bytes|
  {
    FromLe(bytes[offset..offset + count])
  }

  /** The `count` low bytes of `n`, lowest first. */
  function ToLe(n: nat, count: nat): (r: Bytes)
    ensures |r| == count
  {
    if count == 0 then [] else [n % 256] + ToLe(n / 256, count - 1)
  }

  function Power256(k: nat): nat {
    if k == 0 then 1 else 256 * Power256(k - 1)
  }

  /** Byte `i` of a number is its digit of weight 256 to the `i`. */
  lemma {:induction false} ByteOfWord(n: nat, count: nat, i: nat)
    requires i < count
    ensures Power256(i) > 0 && ToLe(n, count)[i] == n / Power256(i) % 256
  {
    if i > 0 {
      ByteOfWord(n / 256, count - 1, i - 1);
      DividedTwice(n, 256, Power256(i - 1));
    }
  }

  lemma DividedTwice(n: nat, a: nat, b: nat)
    requires a > 0 && b > 0
    ensures a * b > 0 && n / a / b == n / (a * b)
  {
    var q, p := n / a, n / a / b;
    Regrouped(n, a, b, q, p);
    Quotient(n, a * b, p, n - a * b * p);
  }

  lemma Regrouped(n: nat, a: nat, b: nat, q: nat, p: nat)
    requires a > 0 && b > 0 && a * q <= n < a * q + a && b * p <= q < b * p + b
    ensures a * b > 0 && 0 <= n - a * b * p < a * b
  {
    Times(a, b * p, q);
    Times(a, q, b * p + b - 1);
    assert a * (b * p) == a * b * p;
    assert a * (b * p + b - 1) == a * b * p + a * b - a;
  }

  lemma Times(a: nat, x: int, y: int)
    requires x <= y
    ensures a * x <= a * y
  {
  }

  lemma Quotient(n: nat, d: nat, q: nat, r: int)
    requires 0 <= r < d && n == d * q + r
    ensures n / d == q
  {
    assert d * (n / d - q) == r - n % d;
    Multiple(d, n / d - q);
  }

  /** No multiple of `d` but 0 lies strictly between -d and d. */
  lemma Multiple(d: nat, k: int)
    ensures k >= 1 ==> d * k >= d
    ensures k <= -1 ==> d * k + d <= 0
  {
    if k >= 1 { Times(d, 1, k); } else if k <= -1 { Times(d, k, -1); }
  }

  lemma {:induction false} FromToLe(n: nat, count: nat)
    requires n < Power256(count)
    ensures FromLe(ToLe(n, count)) == n
  {
    if count > 0 {
      FromToLe(n / 256, count - 1);
      assert ToLe(n, count)[1..] == ToLe(n / 256, count - 1);
    }
  }

  lemma {:induction false} ToFromLe(bytes: Bytes)
    ensures ToLe(FromLe(bytes), |bytes|) == bytes
  {
    if bytes != [] {
      ToFromLe(bytes[1..]);
      assert FromLe(bytes) % 256 == bytes[0] && FromLe(bytes) / 256 == FromLe(bytes[1..]);
    }
  }

  lemma {:induction false} FromLeOfZeros(count: nat)
    ensures FromLe(seq(count, _ => 0)) == 0
  {
    if count > 0 {
      var zeros: Bytes := seq(count, _ => 0);
      assert zeros[1..] == seq(count - 1, _ => 0);
      FromLeOfZeros(count - 1);
    }
  }

  lemma {:induction false} FromLeOfOnes(bytes: Bytes)
    requires forall i :: 0 <= i < |bytes| ==> bytes[i] == 255
    ensures FromLe(bytes) == Power256(|bytes|) - 1
  {
    if bytes != [] { FromLeOfOnes(bytes[1..]); }
  }

  lemma {:induction false} FromLeIsBounded(bytes: Bytes)
    ensures FromLe(bytes) < Power256(|bytes|)
  {
    if bytes != [] { FromLeIsBounded(bytes[1..]); }
  }

  lemma FieldOf(b: Bytes, at: nat, n: nat)
    requires at + n <= |b|
    ensures b[at..at + n] == ToLe(ReadLe(b, at, n), n) && ReadLe(b, at, n) < Power256(n)
  {
    ToFromLe(b[at..at + n]);
    FromLeIsBounded(b[at..at + n]);
  }

  /** Reading `n` bytes back gives `value` exactly where they are its lowest `n` bytes, lowest first. */
  lemma FieldIs(b: Bytes, at: nat, n: nat, value: nat)
    requires at + n <= |b| && value < Power256(n)
    ensures ReadLe(b, at, n) == value <==> b[at..at + n] == ToLe(value, n)
  {
    FieldOf(b, at, n);
    FromToLe(value, n);
  }

  lemma SmallPowers()
    ensures Power256(2) == 0x1_0000 && Power256(4) == 0x1_0000_0000
  {
    assert Power256(3) == 0x100_0000;
  }

  lemma WordPower()
    ensures Power256(8) == WORD_LIMIT
  {
    assert Power256(2) == 0x1_0000;
    assert Power256(4) == 0x1_0000_0000 by { assert Power256(3) == 0x100_0000; }
    assert Power256(6) == 0x1_0000_0000_0000 by { assert Power256(5) == 0x100_0000_0000; }
    assert Power256(7) == 0x100_0000_0000_0000;
  }

  // ---------------------------------------------------------------------------
  // A page as 512 words.

  function ZeroPage(): (page: Bytes)
    ensures |page| == PAGE_SIZE
  {
    seq(PAGE_SIZE, _ => 0)
  }

  function GetWord(page: Bytes, i: nat): nat
    requires |page| == PAGE_SIZE && i < WORDS_PER_PAGE
  {
    FromLe(page[WORD * i..WORD * i + WORD])
  }

  function SetWord(page: Bytes, i: nat, w: nat): (r: Bytes)
    requires |page| == PAGE_SIZE && i < WORDS_PER_PAGE
    ensures |r| == PAGE_SIZE
  {
    page[..WORD * i] + ToLe(w, WORD) + page[WORD * i + WORD..]
  }

  lemma GetSetWord(page: Bytes, i: nat, w: nat, j: nat)
    requires |page| == PAGE_SIZE && i < WORDS_PER_PAGE && j < WORDS_PER_PAGE && w < WORD_LIMIT
    ensures GetWord(SetWord(page, i, w), j) == if i == j then w else GetWord(page, j)
  {
    var page' := SetWord(page, i, w);
    if i == j {
      assert page'[WORD * i..WORD * i + WORD] == ToLe(w, WORD);
      WordPower();
      FromToLe(w, WORD);
    } else {
      assert page'[WORD * j..WORD * j + WORD] == page[WORD * j..WORD * j + WORD];
    }
  }

  lemma ZeroPageWords(i: nat)
    requires i < WORDS_PER_PAGE
    ensures GetWord(ZeroPage(), i) == 0
  {
    assert ZeroPage()[WORD * i..WORD * i + WORD] == seq(WORD, _ => 0);
    FromLeOfZeros(WORD);
  }

  lemma GetWordIsBounded(page: Bytes, i: nat)
    requires |page| == PAGE_SIZE && i < WORDS_PER_PAGE
    ensures GetWord(page, i) < WORD_LIMIT
  {
    FromLeIsBounded(page[WORD * i..WORD * i + WORD]);
    WordPower();
  }

  // ---------------------------------------------------------------------------
  // Entries.

  const PAGE_PRESENT: nat := 1
  const PAGE_WRITABLE: nat := 2
  const PAGE_USER: nat := 4
  const PAGE_HUGE: nat := 128
  const PAGE_TABLE_FLAGS: nat := 3
  const PHYS_LIMIT: nat := 0x10_0000_0000_0000

  predicate Present(w: nat) { w % 2 == 1 }

  predicate Writable(w: nat) { w / 2 % 2 == 1 }

  predicate User(w: nat) { w / 4 % 2 == 1 }

  predicate Huge(w: nat) { w / 128 % 2 == 1 }

  /** `entry & 0x000f_ffff_ffff_f000`. */
  function AddressOf(w: nat): nat {
    w % PHYS_LIMIT / PAGE_SIZE * PAGE_SIZE
  }

  predicate IsFrame(f: nat) {
    f % PAGE_SIZE == 0 && f < PHYS_LIMIT
  }

  lemma EntryParts(f: nat, flags: nat)
    requires IsFrame(f) && flags < PAGE_SIZE
    ensures f + flags < WORD_LIMIT && AddressOf(f + flags) == f
    ensures Present(f + flags) == Present(flags) && Writable(f + flags) == Writable(flags)
    ensures User(f + flags) == User(flags) && Huge(f + flags) == Huge(flags)
  {
    hide Present, Writable, User, Huge;
    EntryAddress(f, flags);
    hide AddressOf;
    EntryBits(f / PAGE_SIZE, flags);
  }

  lemma EntryAddress(f: nat, flags: nat)
    requires IsFrame(f) && flags < PAGE_SIZE
    ensures f + flags < PHYS_LIMIT && AddressOf(f + flags) == f && f == f / PAGE_SIZE * PAGE_SIZE
  {
    var k := f / PAGE_SIZE;
    assert f == k * PAGE_SIZE && f + flags < PHYS_LIMIT by { assert PHYS_LIMIT == 0x100_0000_0000 * PAGE_SIZE; }
    assert (f + flags) / PAGE_SIZE == k;
  }

  lemma EntryBits(k: nat, flags: nat)
    ensures var w := k * PAGE_SIZE + flags;
            && Present(w) == Present(flags) && Writable(w) == Writable(flags)
            && User(w) == User(flags) && Huge(w) == Huge(flags)
  {
    hide Present, Writable, User, Huge;
    PresentBit(2048 * k, flags);
    WritableBit(1024 * k, flags);
    UserBit(512 * k, flags);
    HugeBit(16 * k, flags);
  }

  lemma PresentBit(k: nat, w: nat)
    ensures Present(2 * k + w) == Present(w)
  {
  }

  lemma WritableBit(k: nat, w: nat)
    ensures Writable(4 * k + w) == Writable(w)
  {
    assert (4 * k + w) / 2 == 2 * k + w / 2;
  }

  lemma UserBit(k: nat, w: nat)
    ensures User(8 * k + w) == User(w)
  {
    assert (8 * k + w) / 4 == 2 * k + w / 4;
  }

  lemma HugeBit(k: nat, w: nat)
    ensures Huge(256 * k + w) == Huge(w)
  {
    assert (256 * k + w) / 128 == 2 * k + w / 128;
  }

  /** `entry | PAGE_USER`. */
  function WithUser(w: nat): nat {
    if User(w) then w else w + PAGE_USER
  }

  lemma WithUserParts(w: nat)
    requires w < WORD_LIMIT
    ensures WithUser(w) < WORD_LIMIT && User(WithUser(w)) && AddressOf(WithUser(w)) == AddressOf(w)
    ensures Present(WithUser(w)) == Present(w) && Writable(WithUser(w)) == Writable(w) && Huge(WithUser(w)) == Huge(w)
  {
    if !User(w) {
      assert w % 8 < 4 by { assert w / 4 == 2 * (w / 8) + w % 8 / 4; }
      SetUserBit(w / 8, w % 8);
      LowBitsDoNotMove(w);
      hide AddressOf;
      assert w + 4 < WORD_LIMIT by { assert WORD_LIMIT == 8 * 0x2000_0000_0000_0000; }
    }
  }

  lemma SetUserBit(k: nat, r: nat)
    requires r < 4
    ensures var w := 8 * k + r;
            && User(w + 4) && Present(w + 4) == Present(w) && Writable(w + 4) == Writable(w) && Huge(w + 4) == Huge(w)
  {
    hide Present, Writable, User, Huge;
    PresentBit(2, 8 * k + r);
    WritableBit(1, 8 * k + r);
    UserBit(k, r + 4);
    FifthBit(r);
    FarBit(k, r);
  }

  lemma FifthBit(r: nat)
    requires r < 4
    ensures User(r + 4)
  {
  }

  lemma FarBit(k: nat, r: nat)
    requires r < 4
    ensures Huge(8 * k + r + 4) == Huge(8 * k + r)
  {
    assert (8 * k + r) / 128 == k / 16;
    assert (8 * k + r + 4) / 128 == k / 16;
  }

  lemma LowBitsDoNotMove(w: nat)
    requires w % 8 < 4
    ensures AddressOf(w + 4) == AddressOf(w)
  {
    var m := w % PHYS_LIMIT;
    assert m % 8 == w % 8 by { assert w == PHYS_LIMIT * (w / PHYS_LIMIT) + m;
             assert PHYS_LIMIT == 8 * 0x2_0000_0000_0000; }
    assert m + 4 < PHYS_LIMIT by { assert m / 8 < 0x2_0000_0000_0000; }
    assert (w + 4) % PHYS_LIMIT == m + 4;
    assert m == 8 * (m / 8) + m % 8;
    assert (m + 4) / PAGE_SIZE == (m / 8) / 512 && m / PAGE_SIZE == (m / 8) / 512;
  }
}
