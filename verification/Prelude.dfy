// Shared vocabulary: optional values, results, bytes and the alignment
// helpers of `lzutil`.
module Prelude {
  datatype Option<+T> = None | Some(value: T)

  datatype Result<+T, +E> = Ok(value: T) | Err(error: E)

  type Byte = b: int | 0 <= b < 256

  type Bytes = seq<Byte>

  const SPACE: Byte := 32
  const DOUBLE_QUOTE: Byte := 34
  const AMPERSAND: Byte := 38
  const SINGLE_QUOTE: Byte := 39
  const DOT: Byte := 46
  const SLASH: Byte := 47
  const SEMICOLON: Byte := 59
  const EQUALS: Byte := 61
  const BACKSLASH: Byte := 92
  const PIPE: Byte := 124
  const NEWLINE: Byte := 10
  const NUL: Byte := 0

  const PAGE_SIZE: nat := 4096
  const U64_MAX: nat := 0xffff_ffff_ffff_ffff

  predicate PageAligned(address: nat) {
    address % PAGE_SIZE == 0
  }

  /** Page boundaries are a page apart. */
  lemma PagesApart(a: nat, b: nat)
    requires a < b && PageAligned(a) && PageAligned(b)
    ensures a + PAGE_SIZE <= b && PageAligned(b - PAGE_SIZE)
  {
  }

  lemma NextPage(a: nat)
    requires PageAligned(a)
    ensures PageAligned(a + PAGE_SIZE)
  {
  }

  /** `value & !(align - 1)` for a power of two `align`. */
  function AlignDown(value: nat, align: nat): (r: nat)
    requires align > 0
  {
    value - value % align
  }

  /** `(value + align - 1) & !(align - 1)`, and 0 for 0. */
  function AlignUp(value: nat, align: nat): (r: nat)
    requires align > 0
  {
    AlignDown(value + align - 1, align)
  }

  /** `buffer[at..at + bytes.len()].copy_from_slice(bytes)`. */
  method CopyInto(buffer: array<Byte>, at: nat, bytes: Bytes)
    requires at + |bytes| <= buffer.Length
    modifies buffer
    ensures buffer[..at] == old(buffer[..at])
    ensures buffer[at..at + |bytes|] == bytes
    ensures forall k :: at + |bytes| <= k < buffer.Length ==> buffer[k] == old(buffer[k])
    ensures buffer[..at + |bytes|] == old(buffer[..at]) + bytes
  {
    forall k | 0 <= k < |bytes| {
      buffer[at + k] := bytes[k];
    }
    assert buffer[at..at + |bytes|] == bytes;
  }

  function Elements(s: seq<nat>): set<nat> {
    set x | x in s
  }

  /** `slots.iter().position(|slot| slot.is_none())`, or `|slots|` when all are taken. */
  function FirstFree<T>(slots: seq<Option<T>>): (i: nat)
    ensures i <= |slots|
    ensures i < |slots| ==> slots[i].None?
    ensures forall j :: 0 <= j < i ==> slots[j].Some?
  {
    FirstFreeFrom(slots, 0)
  }

  function FirstFreeFrom<T>(slots: seq<Option<T>>, from: nat): (i: nat)
    requires from <= |slots|
    ensures from <= i <= |slots|
    ensures i < |slots| ==> slots[i].None?
    ensures forall j :: from <= j < i ==> slots[j].Some?
    decreases |slots| - from
  {
    if from == |slots| || slots[from].None? then from else FirstFreeFrom(slots, from + 1)
  }

  lemma {:induction false} SubsetSize<T>(a: set<T>, b: set<T>)
    requires a <= b
    ensures |a| <= |b|
    decreases |a|
  {
    if x :| x in a { SubsetSize(a - {x}, b - {x}); }
  }

  lemma SliceOfSlice(s: Bytes, at: nat, length: nat, offset: nat, n: nat)
    requires at + length <= |s| && offset + n <= length
    ensures s[at..at + length][offset..offset + n] == s[at + offset..at + offset + n]
  {
    var a, b := s[at..at + length][offset..offset + n], s[at + offset..at + offset + n];
    forall i | 0 <= i < n ensures a[i] == b[i] {
      assert a[i] == s[at + offset + i];
    }
  }
}
