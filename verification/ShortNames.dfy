// FAT 8.3 names (kernel/kernel/src/storage/fat32.rs:334-409): what a path
// component is padded to on disk, and how an entry is displayed.
module ShortNames {
  import opened Prelude

  const BASE_LEN: nat := 8
  const EXTENSION_LEN: nat := 3
  const NAME_LEN: nat := 11

  predicate IsLower(b: Byte) { 97 <= b <= 122 }

  predicate IsAlphanumeric(b: Byte) {
    48 <= b <= 57 || 65 <= b <= 90 || IsLower(b)
  }

  /** `$ % ' - _ @ ~ \` ! ( ) { } ^ # &` */
  predicate IsAllowedSymbol(b: Byte) {
    b in {36, 37, 39, 45, 95, 64, 126, 96, 33, 40, 41, 123, 125, 94, 35, 38}
  }

  function ToUpper(b: Byte): Byte {
    if IsLower(b) then b - 32 else b
  }

  function NormalizeByte(b: Byte): Option<Byte> {
    if IsAlphanumeric(b) then Some(ToUpper(b)) else if IsAllowedSymbol(b) then Some(b) else None
  }

  function Upper(s: Bytes): Bytes {
    seq(|s|, i requires 0 <= i < |s| => ToUpper(s[i]))
  }

  predicate Normalizes(s: Bytes) {
    forall i :: 0 <= i < |s| ==> NormalizeByte(s[i]).Some?
  }

  function Spaces(n: nat): (r: Bytes)
    ensures |r| == n && forall i :: 0 <= i < n ==> r[i] == SPACE
  {
    seq(n, _ => SPACE)
  }

  /** Where the next dot is, or the end. */
  function DotFrom(s: Bytes, from: nat): (i: nat)
    requires from <= |s|
    ensures from <= i <= |s| && (i < |s| ==> s[i] == DOT)
    ensures forall k :: from <= k < i ==> s[k] != DOT
    decreases |s| - from
  {
    if from == |s| || s[from] == DOT then from else DotFrom(s, from + 1)
  }

  /** A valid component: a base of 1 to 8 bytes and, after one dot, an extension of 1 to 3. */
  function MakeShortName(component: Bytes): Option<Bytes> {
    var dot := DotFrom(component, 0);
    var base := component[..dot];
    if dot == |component| then
      (if base == [] || |base| > BASE_LEN || !Normalizes(base) then None
       else Some(Padded(base, [])))
    else
      var extension := component[dot + 1..];
      if DotFrom(extension, 0) < |extension| || base == [] || |base| > BASE_LEN || !Normalizes(base) then None
      else if extension == [] || |extension| > EXTENSION_LEN || !Normalizes(extension) then None
      else Some(Padded(base, extension))
  }

  /** Upper-cased and padded with spaces to 8 and 3. */
  function Padded(base: Bytes, extension: Bytes): (r: Bytes)
    requires |base| <= BASE_LEN && |extension| <= EXTENSION_LEN
    ensures |r| == NAME_LEN
  {
    Upper(base) + Spaces(BASE_LEN - |base|) + Upper(extension) + Spaces(EXTENSION_LEN - |extension|)
  }

  /** The length without trailing spaces. */
  function TrimmedLen(s: Bytes): (n: nat)
    ensures n <= |s| && (n > 0 ==> s[n - 1] != SPACE)
    ensures forall k :: n <= k < |s| ==> s[k] == SPACE
  {
    if s == [] || s[|s| - 1] != SPACE then |s| else TrimmedLen(s[..|s| - 1])
  }

  function Display(name: Bytes): Bytes
    requires |name| == NAME_LEN
  {
    var base, extension := name[..BASE_LEN], name[BASE_LEN..];
    var shown := base[..TrimmedLen(base)];
    if TrimmedLen(extension) == 0 then shown else shown + [DOT] + extension[..TrimmedLen(extension)]
  }

  predicate IsDotName(shown: Bytes) {
    shown == [DOT] || shown == [DOT, DOT]
  }

  // ---------------------------------------------------------------------------
  // The same, in place.

  method MakeName(component: Bytes) returns (r: Option<Bytes>)
    ensures r == MakeShortName(component)
  {
    hide Normalizes, Padded, DotFrom;
    var dot := DotFrom(component, 0);
    var base := component[..dot];
    var extension := if dot == |component| then [] else component[dot + 1..];
    if dot < |component| && DotFrom(extension, 0) < |extension| { return None; }
    if |base| == 0 || |base| > BASE_LEN { return None; }
    var name := new Byte[NAME_LEN](_ => SPACE);
    var ok := NormalizeInto(name, 0, base);
    if !ok { return None; }
    if dot == |component| {
      FilledIsPadded(name[..], base, []);
      return Some(name[..]);
    }
    if |extension| == 0 || |extension| > EXTENSION_LEN { return None; }
    ok := NormalizeInto(name, BASE_LEN, extension);
    if !ok { return None; }
    FilledIsPadded(name[..], base, extension);
    return Some(name[..]);
  }

  lemma FilledIsPadded(name: Bytes, base: Bytes, extension: Bytes)
    requires |name| == NAME_LEN && |base| <= BASE_LEN && |extension| <= EXTENSION_LEN
    requires name[..|base|] == Upper(base) && name[BASE_LEN..BASE_LEN + |extension|] == Upper(extension)
    requires forall k :: |base| <= k < BASE_LEN ==> name[k] == SPACE
    requires forall k :: BASE_LEN + |extension| <= k < NAME_LEN ==> name[k] == SPACE
    ensures name == Padded(base, extension)
  {
    assert |Upper(base)| == |base| && |Upper(extension)| == |extension|;
    hide Upper;
    assert name[|base|..BASE_LEN] == Spaces(BASE_LEN - |base|);
    assert name[BASE_LEN + |extension|..] == Spaces(EXTENSION_LEN - |extension|);
    assert name == name[..|base|] + name[|base|..BASE_LEN] + name[BASE_LEN..BASE_LEN + |extension|] +
             name[BASE_LEN + |extension|..];
  }

  /** Fails at the first byte a name may not hold. */
  method NormalizeInto(name: array<Byte>, at: nat, part: Bytes) returns (ok: bool)
    requires at + |part| <= name.Length
    modifies name
    ensures ok == Normalizes(part)
    ensures ok ==> name[at..at + |part|] == Upper(part)
    ensures forall k :: 0 <= k < name.Length && !(at <= k < at + |part|) ==> name[k] == old(name[k])
  {
    var index := 0;
    while index < |part|
      invariant index <= |part|
      invariant forall k :: 0 <= k < index ==> NormalizeByte(part[k]).Some? && name[at + k] == ToUpper(part[k])
      invariant forall k :: 0 <= k < name.Length && !(at <= k < at + index) ==> name[k] == old(name[k])
    {
      var byte := NormalizeByte(part[index]);
      if byte.None? { return false; }
      name[at + index] := byte.value;
      index := index + 1;
    }
    return true;
  }

  method DisplayName(entry: Bytes) returns (shown: Bytes)
    requires |entry| == NAME_LEN
    ensures shown == Display(entry)
  {
    var base, extension := entry[..BASE_LEN], entry[BASE_LEN..];
    var nameLen := TrimTrailing(base);
    var extensionLen := TrimTrailing(extension);
    shown := base[..nameLen];
    if extensionLen != 0 {
      shown := shown + [DOT] + extension[..extensionLen];
    }
  }

  method TrimTrailing(s: Bytes) returns (n: nat)
    ensures n == TrimmedLen(s)
  {
    n := |s|;
    assert s[..|s|] == s;
    while n > 0 && s[n - 1] == SPACE
      invariant n <= |s| && TrimmedLen(s[..n]) == TrimmedLen(s)
    {
      assert s[..n][..n - 1] == s[..n - 1];
      n := n - 1;
    }
  }

  // ---------------------------------------------------------------------------
  // Round trips.

  lemma TrimPadded(s: Bytes, n: nat)
    requires forall i :: 0 <= i < |s| ==> s[i] != SPACE
    ensures TrimmedLen(s + Spaces(n)) == |s| && (s + Spaces(n))[..|s|] == s
  {
    hide TrimmedLen, Spaces;
    var t := s + Spaces(n);
    assert forall k :: |s| <= k < |t| ==> t[k] == SPACE;
    assert forall k :: 0 <= k < |s| ==> t[k] != SPACE;
    if TrimmedLen(t) < |t| {
      assert t[TrimmedLen(t)] == SPACE;
    }
  }

  lemma PaddedParts(base: Bytes, extension: Bytes)
    requires |base| <= BASE_LEN && |extension| <= EXTENSION_LEN
    ensures Padded(base, extension)[..BASE_LEN] == Upper(base) + Spaces(BASE_LEN - |base|)
    ensures Padded(base, extension)[BASE_LEN..] == Upper(extension) + Spaces(EXTENSION_LEN - |extension|)
  {
    assert |Upper(base)| == |base|;
    hide Upper, Spaces;
    var front, back := Upper(base) + Spaces(BASE_LEN - |base|), Upper(extension) + Spaces(EXTENSION_LEN - |extension|);
    assert Padded(base, extension) == front + back;
  }

  lemma UpperHasNoSpace(s: Bytes)
    requires Normalizes(s)
    ensures |Upper(s)| == |s| && forall i :: 0 <= i < |s| ==> Upper(s)[i] != SPACE && Upper(s)[i] != DOT
  {
    forall i | 0 <= i < |s| ensures Upper(s)[i] != SPACE && Upper(s)[i] != DOT {
      assert NormalizeByte(s[i]).Some?;
    }
  }

  lemma DisplayOfPadded(base: Bytes, extension: Bytes)
    requires |base| <= BASE_LEN && |extension| <= EXTENSION_LEN && Normalizes(base) && Normalizes(extension)
    ensures Display(Padded(base, extension)) ==
            Upper(base) + if extension == [] then [] else [DOT] + Upper(extension)
  {
    hide Upper, Normalizes, Spaces, TrimmedLen, Padded;
    UpperHasNoSpace(base);
    UpperHasNoSpace(extension);
    PaddedParts(base, extension);
    TrimPadded(Upper(base), BASE_LEN - |base|);
    TrimPadded(Upper(extension), EXTENSION_LEN - |extension|);
    var name := Padded(base, extension);
    assert name[..BASE_LEN][..TrimmedLen(name[..BASE_LEN])] == Upper(base);
    if extension == [] {
      assert TrimmedLen(name[BASE_LEN..]) == 0;
      assert Upper(base) + [] == Upper(base);
    } else {
      assert name[BASE_LEN..][..TrimmedLen(name[BASE_LEN..])] == Upper(extension);
      assert Upper(base) + [DOT] + Upper(extension) == Upper(base) + ([DOT] + Upper(extension));
    }
  }

  /** What a name was made from is what it displays as, in upper case. */
  lemma DisplayOfMade(component: Bytes)
    ensures MakeShortName(component).Some? ==>
              |MakeShortName(component).value| == NAME_LEN &&
                  Display(MakeShortName(component).value) == Upper(component)
  {
    hide Padded, Display, Upper, Normalizes;
    if MakeShortName(component).Some? {
      var dot := DotFrom(component, 0);
      var base := component[..dot];
      if dot == |component| {
        NothingNormalizes();
        DisplayOfPadded(base, []);
        assert base == component;
      } else {
        var extension := component[dot + 1..];
        DisplayOfPadded(base, extension);
        assert component == base + [DOT] + extension;
        UpperOfDotted(base, extension);
      }
    }
  }

  lemma NothingNormalizes()
    ensures Normalizes([])
  {
  }

  lemma UpperOfDotted(base: Bytes, extension: Bytes)
    ensures Upper(base + [DOT] + extension) == Upper(base) + ([DOT] + Upper(extension))
  {
  }

  /** An entry a component could have produced: a non-empty base and maybe an extension of
      allowed bytes, no lower case, padded with spaces. */
  ghost predicate WellFormedName(name: Bytes) {
    && |name| == NAME_LEN
    && exists b: nat, e: nat :: 0 < b <= BASE_LEN && e <= EXTENSION_LEN && Parts(name, b, e)
  }

  ghost predicate Parts(name: Bytes, b: nat, e: nat)
    requires |name| == NAME_LEN && b <= BASE_LEN && e <= EXTENSION_LEN
  {
    && (forall i :: 0 <= i < b ==> NormalizeByte(name[i]) == Some(name[i]))
    && (forall i :: b <= i < BASE_LEN ==> name[i] == SPACE)
    && (forall i :: BASE_LEN <= i < BASE_LEN + e ==> NormalizeByte(name[i]) == Some(name[i]))
    && (forall i :: BASE_LEN + e <= i < NAME_LEN ==> name[i] == SPACE)
  }

  lemma NormalIsUpper(s: Bytes)
    requires forall i :: 0 <= i < |s| ==> NormalizeByte(s[i]) == Some(s[i])
    ensures Normalizes(s) && Upper(s) == s && forall i :: 0 <= i < |s| ==> s[i] != DOT && s[i] != SPACE
  {
  }

  /** Looking up the displayed name of a well-formed entry makes that entry's name again. */
  lemma MadeOfDisplay(name: Bytes)
    requires WellFormedName(name)
    ensures MakeShortName(Display(name)) == Some(name)
  {
    var b: nat, e: nat :| 0 < b <= BASE_LEN && e <= EXTENSION_LEN && Parts(name, b, e);
    var base, extension := name[..b], name[BASE_LEN..BASE_LEN + e];
    NormalIsUpper(base);
    NormalIsUpper(extension);
    PartsArePadded(name, b, e);
    DisplayOfPadded(base, extension);
    hide Parts, Padded, Display, Upper;
    MadeOfParts(base, extension);
  }

  lemma PartsArePadded(name: Bytes, b: nat, e: nat)
    requires |name| == NAME_LEN && b <= BASE_LEN && e <= EXTENSION_LEN && Parts(name, b, e)
    requires Upper(name[..b]) == name[..b] && Upper(name[BASE_LEN..BASE_LEN + e]) == name[BASE_LEN..BASE_LEN + e]
    ensures Padded(name[..b], name[BASE_LEN..BASE_LEN + e]) == name
  {
    hide Upper;
    assert name[b..BASE_LEN] == Spaces(BASE_LEN - b);
    assert name[BASE_LEN + e..] == Spaces(EXTENSION_LEN - e);
    assert name == name[..b] + name[b..BASE_LEN] + name[BASE_LEN..BASE_LEN + e] + name[BASE_LEN + e..];
  }

  lemma MadeOfParts(base: Bytes, extension: Bytes)
    requires 0 < |base| <= BASE_LEN && |extension| <= EXTENSION_LEN && Normalizes(base) && Normalizes(extension)
    requires forall i :: 0 <= i < |base| ==> base[i] != DOT
    requires forall i :: 0 <= i < |extension| ==> extension[i] != DOT
    ensures MakeShortName(base + if extension == [] then [] else [DOT] + extension) == Some(Padded(base, extension))
  {
    hide Padded, Normalizes;
    if extension == [] {
      assert base + [] == base && base[..|base|] == base;
      NoDot(base);
    } else {
      var shown := base + ([DOT] + extension);
      assert shown == base + [DOT] + extension;
      FirstDot(base, extension);
      NoDot(extension);
      hide DotFrom;
      assert shown[..|base|] == base && shown[|base| + 1..] == extension;
    }
  }

  lemma NoDot(s: Bytes)
    requires forall i :: 0 <= i < |s| ==> s[i] != DOT
    ensures DotFrom(s, 0) == |s|
  {
  }

  lemma FirstDot(base: Bytes, extension: Bytes)
    requires forall i :: 0 <= i < |base| ==> base[i] != DOT
    ensures DotFrom(base + [DOT] + extension, 0) == |base|
  {
    var s := base + [DOT] + extension;
    assert s[|base|] == DOT;
    forall i | 0 <= i < |base| ensures s[i] != DOT {
      assert s[i] == base[i];
    }
  }

  // ---------------------------------------------------------------------------
  // What can be a name (Microsoft FAT32 specification, FAT Directory Structure).

  /** Printable, no space, and none of the characters the specification forbids in short names. */
  predicate Legal(b: Byte) {
    0x20 < b < 0x7f && b !in {0x22, 0x2a, 0x2b, 0x2c, 0x2e, 0x2f, 0x3a, 0x3b, 0x3c, 0x3d, 0x3e, 0x3f, 0x5b, 0x5c,
                              0x5d, 0x7c}
  }

  predicate AllLegal(s: Bytes) {
    forall i :: 0 <= i < |s| ==> Legal(s[i])
  }

  /** Up to eight legal characters, and behind a dot up to three more. */
  ghost predicate IsName(component: Bytes, base: Bytes, extension: Bytes) {
    && 0 < |base| <= 8 && |extension| <= 3 && AllLegal(base) && AllLegal(extension)
    && component == if extension == [] then base else base + [0x2e] + extension
  }

  lemma LegalIsNormalized(b: Byte)
    ensures NormalizeByte(b) == if !Legal(b) then None else if 97 <= b <= 122 then Some(b - 32) else Some(b)
  {
  }

  lemma LegalNormalizes(s: Bytes)
    ensures AllLegal(s) <==> Normalizes(s)
  {
    hide Legal, NormalizeByte;
    forall i | 0 <= i < |s| ensures Legal(s[i]) <==> NormalizeByte(s[i]).Some? { LegalIsNormalized(s[i]); }
  }

  lemma {:induction false} DotIs(front: Bytes, rest: Bytes, from: nat)
    requires from <= |front| && AllLegal(front)
    ensures DotFrom(front + [DOT] + rest, from) == |front|
    ensures DotFrom(front, from) == |front|
    decreases |front| - from
  {
    if from < |front| {
      assert Legal(front[from]);
      DotIs(front, rest, from + 1);
    }
  }

  /** A component has a short name exactly when it is such a name; the short name is base and extension
      in upper case, each filled up with spaces. */
  lemma MadeFromNames(component: Bytes, base: Bytes, extension: Bytes)
    requires IsName(component, base, extension)
    ensures MakeShortName(component).Some? && |MakeShortName(component).value| == 11
    ensures forall i :: 0 <= i < 8 ==>
              MakeShortName(component).value[i] == if i < |base| then ToUpper(base[i]) else 0x20
    ensures forall i :: 8 <= i < 11 ==>
              MakeShortName(component).value[i] == if i - 8 < |extension| then ToUpper(extension[i - 8]) else 0x20
  {
    hide Legal, NormalizeByte, Padded;
    LegalNormalizes(base);
    LegalNormalizes(extension);
    DotIs(base, extension, 0);
    if extension == [] {
      assert component[..|base|] == base;
    } else {
      assert component[..|base|] == base && component[|base| + 1..] == extension;
      DotIs(extension, [], 0);
    }
    assert MakeShortName(component) == Some(Padded(base, extension));
    PaddedAt(base, extension);
  }

  lemma PaddedAt(base: Bytes, extension: Bytes)
    requires |base| <= 8 && |extension| <= 3
    ensures forall i :: 0 <= i < 8 ==> Padded(base, extension)[i] == if i < |base| then ToUpper(base[i]) else 0x20
    ensures forall i :: 8 <= i < 11 ==>
              Padded(base, extension)[i] == if i - 8 < |extension| then ToUpper(extension[i - 8]) else 0x20
  {
    hide ToUpper;
    var front, rest := Upper(base) + Spaces(8 - |base|), Upper(extension) + Spaces(3 - |extension|);
    assert Padded(base, extension) == front + rest && |front| == 8;
    forall i | 8 <= i < 11 ensures Padded(base, extension)[i] == rest[i - 8] {
    }
  }

  lemma OnlyNamesAreMade(component: Bytes) returns (base: Bytes, extension: Bytes)
    requires MakeShortName(component).Some?
    ensures IsName(component, base, extension)
  {
    hide Legal, NormalizeByte, Padded;
    var dot := DotFrom(component, 0);
    base := component[..dot];
    extension := if dot < |component| then component[dot + 1..] else [];
    LegalNormalizes(base);
    LegalNormalizes(extension);
    assert AllLegal([]);
    assert component == if dot < |component| then base + [DOT] + extension else base;
  }
}
