// kernel/kernel/src/env.rs: the fixed-capacity environment block of a process.
module Environments {
  import opened Prelude

  const MAX_ENV_VARS: nat := 16
  const MAX_ENV_KEY_LEN: nat := 32
  const MAX_ENV_VALUE_LEN: nat := 128

  datatype EnvironmentError = InvalidKey | KeyTooLong | ValueTooLong | CapacityExceeded

  // ---------------------------------------------------------------------------
  // What an environment is: bindings in insertion order.

  datatype Binding = Binding(key: Bytes, value: Bytes)

  type Bindings = seq<Binding>

  /** The verdict of `validate_key`; None accepts the key. */
  function KeyError(key: Bytes): Option<EnvironmentError> {
    if key == [] || EQUALS in key then Some(InvalidKey)
    else if |key| > MAX_ENV_KEY_LEN then Some(KeyTooLong)
    else None
  }

  /** The position of `key`, or `|bindings|` when it is not bound. */
  function IndexOf(bindings: Bindings, key: Bytes): (i: nat)
    ensures i <= |bindings|
    ensures i < |bindings| ==> bindings[i].key == key
    ensures forall j :: 0 <= j < i ==> bindings[j].key != key
  {
    if bindings == [] || bindings[0].key == key then 0
    else
      var i := IndexOf(bindings[1..], key);
      assert forall j :: 0 < j < i + 1 ==> bindings[j] == bindings[1..][j - 1];
      i + 1
  }

  function WithBinding(bindings: Bindings, key: Bytes, value: Bytes): Result<Bindings, EnvironmentError> {
    var i := IndexOf(bindings, key);
    if KeyError(key).Some? then Err(KeyError(key).value)
    else if |value| > MAX_ENV_VALUE_LEN then Err(ValueTooLong)
    else if i < |bindings| then Ok(bindings[i := Binding(key, value)])
    else if |bindings| == MAX_ENV_VARS then Err(CapacityExceeded)
    else Ok(bindings + [Binding(key, value)])
  }

  function WithoutKey(bindings: Bindings, key: Bytes): Result<(Bindings, bool), EnvironmentError> {
    var i := IndexOf(bindings, key);
    if KeyError(key).Some? then Err(KeyError(key).value)
    else if i < |bindings| then Ok((bindings[..i] + bindings[i + 1..], true))
    else Ok((bindings, false))
  }

  /** `inherit_into`: the parent's bindings set one by one in an empty block. */
  function Inherit(parent: Bindings): Result<Bindings, EnvironmentError> {
    if parent == [] then Ok([])
    else
      var last := parent[|parent| - 1];
      var front := Inherit(parent[..|parent| - 1]);
      if front.Err? then front else WithBinding(front.value, last.key, last.value)
  }

  function Line(b: Binding): Bytes {
    b.key + [EQUALS] + b.value + [NEWLINE]
  }

  /** `KEY=VALUE` lines in insertion order. */
  function Listing(bindings: Bindings): Bytes {
    if bindings == [] then []
    else Listing(bindings[..|bindings| - 1]) + Line(bindings[|bindings| - 1])
  }

  ghost predicate UniqueKeys(bindings: Bindings) {
    forall i, j :: 0 <= i < j < |bindings| ==> bindings[i].key != bindings[j].key
  }

  ghost predicate WellFormed(bindings: Bindings) {
    && |bindings| <= MAX_ENV_VARS
    && UniqueKeys(bindings)
    && forall i :: 0 <= i < |bindings| ==>
         KeyError(bindings[i].key) == None && |bindings[i].value| <= MAX_ENV_VALUE_LEN
  }

  /** The value bound to `key`, if any. */
  function Lookup(bindings: Bindings, key: Bytes): Option<Bytes> {
    var i := IndexOf(bindings, key);
    if i < |bindings| then Some(bindings[i].value) else None
  }

  // ---------------------------------------------------------------------------
  // The in-place block.

  /** One slot: fixed byte arrays and the lengths in use. */
  datatype EnvEntry = EnvEntry(keyBytes: Bytes, keyLen: nat, valueBytes: Bytes, valueLen: nat) {
    predicate Valid() {
      && |keyBytes| == MAX_ENV_KEY_LEN && keyLen <= MAX_ENV_KEY_LEN
      && |valueBytes| == MAX_ENV_VALUE_LEN && valueLen <= MAX_ENV_VALUE_LEN
    }

    function Key(): Bytes
      requires Valid()
    {
      keyBytes[..keyLen]
    }

    function Value(): Bytes
      requires Valid()
    {
      valueBytes[..valueLen]
    }

    function Pair(): Binding
      requires Valid()
    {
      Binding(Key(), Value())
    }

    /** Stale bytes of a longer previous value stay behind the new length. */
    function SetValue(value: Bytes): (e: EnvEntry)
      requires Valid() && |value| <= MAX_ENV_VALUE_LEN
      ensures e.Valid() && e.Key() == Key() && e.Value() == value
    {
      this.(valueBytes := value + valueBytes[|value|..], valueLen := |value|)
    }

    function SetPair(key: Bytes, value: Bytes): (e: EnvEntry)
      requires Valid() && |key| <= MAX_ENV_KEY_LEN && |value| <= MAX_ENV_VALUE_LEN
      ensures e.Valid() && e.Key() == key && e.Value() == value
    {
      this.(keyBytes := key + keyBytes[|key|..], keyLen := |key|).SetValue(value)
    }
  }

  const EMPTY_ENTRY := EnvEntry(seq(MAX_ENV_KEY_LEN, _ => NUL), 0, seq(MAX_ENV_VALUE_LEN, _ => NUL), 0)

  ghost function Decode(entries: seq<EnvEntry>): (b: Bindings)
    requires forall i :: 0 <= i < |entries| ==> entries[i].Valid()
    ensures |b| == |entries|
    ensures forall i :: 0 <= i < |b| ==> b[i] == entries[i].Pair()
  {
    seq(|entries|, i requires 0 <= i < |entries| => entries[i].Pair())
  }

  lemma EmptyEntryIsValid()
    ensures EMPTY_ENTRY.Valid()
  {
  }

  lemma KeyFits(key: Bytes)
    ensures KeyError(key).None? ==> |key| <= MAX_ENV_KEY_LEN
  {
  }

  lemma Shifted(before: Bindings, after: Bindings, index: nat)
    requires index < |before| && |after| == |before| - 1
    requires forall k :: 0 <= k < index ==> after[k] == before[k]
    requires forall k :: index <= k < |after| ==> after[k] == before[k + 1]
    ensures after == before[..index] + before[index + 1..]
  {
  }

  class Environment {
    const entries: array<EnvEntry>
    var len: nat

    ghost predicate Valid()
      reads this, entries
    {
      && entries.Length == MAX_ENV_VARS
      && len <= MAX_ENV_VARS
      && (forall i :: 0 <= i < entries.Length ==> entries[i].Valid())
      && WellFormed(View())
    }

    ghost function View(): Bindings
      requires len <= entries.Length
      requires forall i :: 0 <= i < entries.Length ==> entries[i].Valid()
      reads this, entries
    {
      Decode(entries[..len])
    }

    constructor ()
      ensures Valid() && fresh(entries)
      ensures View() == []
    {
      entries := new EnvEntry[MAX_ENV_VARS](_ => EMPTY_ENTRY);
      len := 0;
    }

    method FindIndex(key: Bytes) returns (index: Option<nat>)
      requires Valid()
      ensures index == (if IndexOf(View(), key) < len then Some(IndexOf(View(), key)) else None)
    {
      hide EnvEntry.Valid, EnvEntry.Value, WellFormed, IndexOf;
      var i := 0;
      while i < len
        invariant 0 <= i <= len
        invariant forall j :: 0 <= j < i ==> View()[j].key != key
      {
        if entries[i].Key() == key {
          assert View()[i].key == key;
          return Some(i);
        }
        assert View()[i].key != key;
        i := i + 1;
      }
      return None;
    }

    method Set(key: Bytes, value: Bytes) returns (r: Result<(), EnvironmentError>)
      requires Valid()
      modifies this, entries
      ensures Valid()
      ensures var after := WithBinding(old(View()), key, value);
              if after.Ok? then r == Ok(()) && View() == after.value
              else r == Err(after.error) && View() == old(View())
    {
      hide EnvEntry.Valid, EnvEntry.SetValue, EnvEntry.SetPair, EnvEntry.Key, EnvEntry.Value, WellFormed, IndexOf;
      if KeyError(key).Some? { return Err(KeyError(key).value); }
      KeyFits(key);
      hide KeyError;
      if |value| > MAX_ENV_VALUE_LEN { return Err(ValueTooLong); }
      var found := FindIndex(key);
      ghost var before := View();
      SetKeepsWellFormed(before, key, value);
      if found.Some? {
        entries[found.value] := entries[found.value].SetValue(value);
        assert View() == before[found.value := Binding(key, value)];
        return Ok(());
      }
      if len == entries.Length { return Err(CapacityExceeded); }
      entries[len] := entries[len].SetPair(key, value);
      len := len + 1;
      assert View() == before + [Binding(key, value)];
      return Ok(());
    }

    method Remove(key: Bytes) returns (r: Result<bool, EnvironmentError>)
      requires Valid()
      modifies this, entries
      ensures Valid()
      ensures var after := WithoutKey(old(View()), key);
              if after.Ok? then r == Ok(after.value.1) && View() == after.value.0
              else r == Err(after.error) && View() == old(View())
    {
      hide IndexOf, WellFormed, KeyError, EnvEntry.Valid, EnvEntry.Pair;
      if KeyError(key).Some? { return Err(KeyError(key).value); }
      var found := FindIndex(key);
      if found.None? { return Ok(false); }
      RemoveKeepsWellFormed(View(), key);
      ShiftLeft(found.value);
      return Ok(true);
    }

    /** The shifting loop of `remove`: bindings after `index` move one slot down. */
    method ShiftLeft(index: nat)
      requires entries.Length == MAX_ENV_VARS && index < len <= MAX_ENV_VARS
      requires forall i :: 0 <= i < entries.Length ==> entries[i].Valid()
      modifies this, entries
      ensures len == old(len) - 1
      ensures forall i :: 0 <= i < entries.Length ==> entries[i].Valid()
      ensures View() == old(View()[..index] + View()[index + 1..])
    {
      hide EnvEntry.Valid, EnvEntry.Pair;
      ghost var was := entries[..];
      var current := index;
      while current + 1 < len
        modifies entries
        invariant index <= current <= len - 1
        invariant forall k :: 0 <= k < entries.Length ==> entries[k] == was[if index <= k < current then k + 1 else k]
      {
        entries[current] := entries[current + 1];
        current := current + 1;
      }
      len := len - 1;
      entries[len] := EMPTY_ENTRY;
      EmptyEntryIsValid();
      assert forall k :: 0 <= k < len ==> entries[k] == was[if k < index then k else k + 1];
      Shifted(Decode(was[..len + 1]), View(), index);
    }

    method Get(key: Bytes) returns (r: Result<Option<Bytes>, EnvironmentError>)
      requires Valid()
      ensures KeyError(key).Some? ==> r == Err(KeyError(key).value)
      ensures KeyError(key).None? ==>
                r == Ok(Lookup(View(), key))
    {
      if KeyError(key).Some? { return Err(KeyError(key).value); }
      var found := FindIndex(key);
      if found.None? { return Ok(None); }
      return Ok(Some(entries[found.value].Value()));
    }

    method Clear()
      requires Valid()
      modifies this, entries
      ensures Valid() && View() == []
    {
      var i := 0;
      while i < len
        modifies entries
        invariant 0 <= i <= len
        invariant forall k :: 0 <= k < entries.Length ==> entries[k].Valid()
      {
        entries[i] := EMPTY_ENTRY;
        i := i + 1;
      }
      len := 0;
    }

    /** The child ends equal to the parent, whatever it held, and never fails. */
    method InheritInto(child: Environment) returns (r: Result<(), EnvironmentError>)
      requires Valid() && child.Valid() && child != this && child.entries != entries
      modifies child, child.entries
      ensures child.Valid()
      ensures r == Ok(()) && child.View() == View() == old(View())
    {
      hide KeyError, WithBinding, WellFormed;
      child.Clear();
      var i := 0;
      ghost var bindings := View();
      while i < len
        invariant 0 <= i <= len && Valid() && child.Valid() && View() == bindings
        invariant child.View() == bindings[..i]
      {
        ghost var before := child.View();
        AppendFresh(bindings, i);
        var copied := child.Set(entries[i].Key(), entries[i].Value());
        assert bindings[..i + 1] == bindings[..i] + [bindings[i]];
        if copied.Err? { return copied; }
        i := i + 1;
      }
      assert bindings[..len] == bindings;
      return Ok(());
    }

    method WriteListingInto(buffer: array<Byte>) returns (r: Result<nat, EnvironmentError>)
      requires Valid() && buffer.Length <= U64_MAX
      modifies buffer
      ensures r == (if |Listing(View())| <= buffer.Length then Ok(|Listing(View())|)
                    else Err(CapacityExceeded))
      ensures r.Ok? ==> buffer[..r.value] == Listing(View())
      ensures r.Ok? ==> forall k :: r.value <= k < buffer.Length ==> buffer[k] == old(buffer[k])
    {
      hide Listing, Line, EnvEntry.Valid, WellFormed;
      var written := 0;
      var i := 0;
      NothingListed(View());
      while i < len
        invariant 0 <= i <= len && written <= buffer.Length
        invariant buffer[..written] == Listing(View()[..i])
        invariant forall k :: written <= k < buffer.Length ==> buffer[k] == old(buffer[k])
      {
        var key, value := entries[i].Key(), entries[i].Value();
        var line := Line(Binding(key, value));
        ghost var done := buffer[..written];
        OneMoreLine(View(), i);
        if written + |key| + 1 + |value| + 1 > buffer.Length {
          ListingPrefix(View(), i + 1);
          return Err(CapacityExceeded);
        }
        CopyInto(buffer, written, line);
        written := written + |line|;
        assert buffer[..written] == done + line;
        i := i + 1;
      }
      assert View()[..len] == View();
      return Ok(written);
    }
  }

  // ---------------------------------------------------------------------------
  // Laws of the specification.

  lemma SetKeepsWellFormed(b: Bindings, key: Bytes, value: Bytes)
    requires WellFormed(b)
    ensures WithBinding(b, key, value).Ok? ==> WellFormed(WithBinding(b, key, value).value)
  {
  }

  lemma RemovedIfBound(b: Bindings, key: Bytes)
    ensures WithoutKey(b, key).Ok? && WithoutKey(b, key).value.1 <==> KeyError(key).None? && Lookup(b, key).Some?
    ensures !(KeyError(key).None? && Lookup(b, key).Some?) ==> Apply(b, RemoveVar(key)) == b
  {
  }

  lemma RemoveKeepsWellFormed(b: Bindings, key: Bytes)
    requires WellFormed(b)
    ensures WithoutKey(b, key).Ok? ==> WellFormed(WithoutKey(b, key).value.0)
  {
    var i := IndexOf(b, key);
    if i < |b| {
      var r := b[..i] + b[i + 1..];
      assert forall k :: 0 <= k < |r| ==> r[k] == b[if k < i then k else k + 1];
    }
  }

  lemma IndexIsUnique(b: Bindings, i: nat)
    requires UniqueKeys(b) && i < |b|
    ensures IndexOf(b, b[i].key) == i
  {
  }

  lemma AppendFresh(b: Bindings, i: nat)
    requires WellFormed(b) && i < |b|
    ensures WithBinding(b[..i], b[i].key, b[i].value) == Ok(b[..i] + [b[i]])
  {
    var front := b[..i];
    assert forall j :: 0 <= j < i ==> front[j] == b[j];
  }

  /** Inheritance is lossless: it succeeds on every well-formed block and copies it exactly. */
  lemma {:induction false} InheritCopies(b: Bindings)
    requires WellFormed(b)
    ensures Inherit(b) == Ok(b)
  {
    if b != [] {
      var n := |b| - 1;
      InheritCopies(b[..n]);
      AppendFresh(b, n);
      assert b == b[..n] + [b[n]];
    }
  }

  lemma NothingListed(b: Bindings)
    ensures Listing(b[..0]) == []
  {
  }

  lemma OneMoreLine(b: Bindings, i: nat)
    requires i < |b|
    ensures Listing(b[..i + 1]) == Listing(b[..i]) + Line(b[i])
    ensures |Line(b[i])| == |b[i].key| + 1 + |b[i].value| + 1
  {
    assert b[..i + 1][..i] == b[..i];
  }

  lemma {:induction false} ListingPrefix(b: Bindings, n: nat)
    requires n <= |b|
    ensures |Listing(b[..n])| <= |Listing(b)|
    decreases |b|
  {
    if n < |b| {
      assert b[..|b| - 1][..n] == b[..n];
      ListingPrefix(b[..|b| - 1], n);
    } else {
      assert b[..n] == b;
    }
  }

  datatype Operation = SetVar(key: Bytes, value: Bytes) | RemoveVar(key: Bytes) | ClearAll

  /** The block after an operation; failed operations leave it alone. */
  function Apply(b: Bindings, op: Operation): Bindings {
    match op
    case SetVar(k, v) => var r := WithBinding(b, k, v); if r.Ok? then r.value else b
    case RemoveVar(k) => var r := WithoutKey(b, k); if r.Ok? then r.value.0 else b
    case ClearAll => []
  }

  function RunOps(ops: seq<Operation>): Bindings {
    if ops == [] then [] else Apply(RunOps(ops[..|ops| - 1]), ops[|ops| - 1])
  }

  lemma ApplyKeepsWellFormed(b: Bindings, op: Operation)
    requires WellFormed(b)
    ensures WellFormed(Apply(b, op))
  {
    match op
    case SetVar(k, v) => SetKeepsWellFormed(b, k, v);
    case RemoveVar(k) => RemoveKeepsWellFormed(b, k);
    case ClearAll =>
  }

  lemma LookupAfterSet(b: Bindings, key: Bytes, value: Bytes, other: Bytes)
    requires WellFormed(b) && WithBinding(b, key, value).Ok?
    ensures Lookup(WithBinding(b, key, value).value, other) == if other == key then Some(value) else Lookup(b, other)
  {
    var i := IndexOf(b, key);
    if i < |b| {
      SameKeysSameIndex(b, b[i := Binding(key, value)], other);
      if IndexOf(b, other) == i < |b| {
        assert b[i].key == other == key;
      }
    } else {
      IndexOfAppend(b, Binding(key, value), other);
    }
  }

  lemma LookupAfterRemove(b: Bindings, key: Bytes, other: Bytes)
    requires WellFormed(b) && WithoutKey(b, key).Ok?
    ensures Lookup(WithoutKey(b, key).value.0, other) == if other == key then None else Lookup(b, other)
  {
    var at := IndexOf(b, key);
    if at < |b| {
      IndexAfterRemoval(b, at, other);
      ShiftedElement(b, at, IndexOf(b, other));
    }
  }

  // ---------------------------------------------------------------------------
  // The block as a bounded map.

  type Variables = map<Bytes, Bytes>

  /** Setting fails exactly for an unacceptable key or value, or when a new key would be the 17th. */
  predicate FreeOf(text: Bytes, b: Byte) {
    forall i :: 0 <= i < |text| ==> text[i] != b
  }

  function SetIn(m: Variables, key: Bytes, value: Bytes): Result<Variables, EnvironmentError> {
    if key == [] || !FreeOf(key, EQUALS) then Err(InvalidKey)
    else if |key| > 32 then Err(KeyTooLong)
    else if |value| > 128 then Err(ValueTooLong)
    else if key !in m && |m| >= 16 then Err(CapacityExceeded)
    else Ok(m[key := value])
  }

  function RemoveFrom(m: Variables, key: Bytes): Result<(Variables, bool), EnvironmentError> {
    if key == [] || !FreeOf(key, EQUALS) then Err(InvalidKey)
    else if |key| > 32 then Err(KeyTooLong)
    else Ok((m - {key}, key in m))
  }

  function MapAfter(m: Variables, op: Operation): Variables {
    match op
    case SetVar(k, v) => var r := SetIn(m, k, v); if r.Ok? then r.value else m
    case RemoveVar(k) => var r := RemoveFrom(m, k); if r.Ok? then r.value.0 else m
    case ClearAll => map[]
  }

  function RunMap(ops: seq<Operation>): Variables {
    if ops == [] then map[] else MapAfter(RunMap(ops[..|ops| - 1]), ops[|ops| - 1])
  }

  /** The variables of a block. */
  function ToMap(b: Bindings): Variables {
    if b == [] then map[] else ToMap(b[..|b| - 1])[b[|b| - 1].key := b[|b| - 1].value]
  }

  lemma {:induction false} MapOfBindings(b: Bindings, key: Bytes)
    requires UniqueKeys(b)
    ensures key in ToMap(b) <==> Lookup(b, key).Some?
    ensures key in ToMap(b) ==> Lookup(b, key) == Some(ToMap(b)[key])
    decreases |b|
  {
    hide IndexOf;
    if b != [] {
      var front, last := b[..|b| - 1], b[|b| - 1];
      MapOfBindings(front, key);
      IndexOfAppend(front, last, key);
      assert front + [last] == b;
    }
  }

  lemma {:induction false} MapHasAll(b: Bindings)
    requires UniqueKeys(b)
    ensures |ToMap(b)| == |b|
    decreases |b|
  {
    hide IndexOf;
    if b != [] {
      var front, last := b[..|b| - 1], b[|b| - 1];
      MapHasAll(front);
      MapOfBindings(front, last.key);
      assert last.key !in ToMap(front);
      assert ToMap(b).Keys == ToMap(front).Keys + {last.key};
    }
  }

  lemma SameVariables(m: Variables, n: Variables)
    requires forall k :: k in m <==> k in n
    requires forall k :: k in m ==> m[k] == n[k]
    ensures m == n
  {
    assert m.Keys == n.Keys;
  }

  lemma SetRefinesMap(b: Bindings, key: Bytes, value: Bytes)
    requires WellFormed(b)
    ensures match WithBinding(b, key, value)
            case Err(e) => SetIn(ToMap(b), key, value) == Err(e)
            case Ok(after) => WellFormed(after) && SetIn(ToMap(b), key, value) == Ok(ToMap(after))
  {
    MapHasAll(b);
    MapOfBindings(b, key);
    SetKeepsWellFormed(b, key, value);
    var r := WithBinding(b, key, value);
    hide IndexOf, ToMap;
    if r.Ok? {
      forall k ensures k in ToMap(r.value) <==> k in ToMap(b)[key := value]
               ensures k in ToMap(r.value) ==> ToMap(r.value)[k] == ToMap(b)[key := value][k]
      {
        LookupAfterSet(b, key, value, k);
        MapOfBindings(b, k);
        MapOfBindings(r.value, k);
      }
      SameVariables(ToMap(r.value), ToMap(b)[key := value]);
    }
  }

  lemma RemoveRefinesMap(b: Bindings, key: Bytes)
    requires WellFormed(b)
    ensures match WithoutKey(b, key)
            case Err(e) => RemoveFrom(ToMap(b), key) == Err(e)
            case Ok((after, found)) => WellFormed(after) && RemoveFrom(ToMap(b), key) == Ok((ToMap(after), found))
  {
    MapOfBindings(b, key);
    RemoveKeepsWellFormed(b, key);
    var r := WithoutKey(b, key);
    hide IndexOf, ToMap;
    if r.Ok? {
      forall k ensures k in ToMap(r.value.0) <==> k in ToMap(b) - {key}
               ensures k in ToMap(r.value.0) ==> ToMap(r.value.0)[k] == (ToMap(b) - {key})[k]
      {
        LookupAfterRemove(b, key, k);
        MapOfBindings(b, k);
        MapOfBindings(r.value.0, k);
      }
      SameVariables(ToMap(r.value.0), ToMap(b) - {key});
    }
  }

  /** After any sequence of operations, keys are unique and the variables are those of a map
      bounded to 16 keys under the same operations. */
  lemma {:induction false} OperationsRefineMap(ops: seq<Operation>)
    ensures WellFormed(RunOps(ops)) && ToMap(RunOps(ops)) == RunMap(ops)
  {
    if ops != [] {
      var front, op := ops[..|ops| - 1], ops[|ops| - 1];
      var b := RunOps(front);
      OperationsRefineMap(front);
      hide WithBinding, WithoutKey, SetIn, RemoveFrom, WellFormed;
      match op
      case SetVar(k, v) => SetRefinesMap(b, k, v);
      case RemoveVar(k) => RemoveRefinesMap(b, k);
      case ClearAll => NothingIsWellFormed();
    }
  }

  lemma NothingIsWellFormed()
    ensures WellFormed([]) && ToMap([]) == map[]
  {
  }

  lemma IndexOfAppend(b: Bindings, last: Binding, k: Bytes)
    ensures IndexOf(b + [last], k) == if IndexOf(b, k) == |b| && last.key != k then |b| + 1 else IndexOf(b, k)
  {
    hide IndexOf;
    var all := b + [last];
    assert forall i :: 0 <= i < |b| ==> all[i] == b[i];
    assert all[|b|] == last;
  }

  lemma SameKeysSameIndex(b: Bindings, r: Bindings, k: Bytes)
    requires |b| == |r| && forall j :: 0 <= j < |b| ==> r[j].key == b[j].key
    ensures IndexOf(b, k) == IndexOf(r, k)
  {
    hide IndexOf;
  }

  lemma IndexAfterRemoval(b: Bindings, at: nat, k: Bytes)
    requires UniqueKeys(b) && at < |b|
    ensures var j, r := IndexOf(b, k), b[..at] + b[at + 1..];
            IndexOf(r, k) == if j < at then j else if j == at then |r| else j - 1
  {
    hide IndexOf;
    var r := b[..at] + b[at + 1..];
    var j, n := IndexOf(b, k), IndexOf(r, k);
    ShiftedElement(b, at, j);
    if n < |r| {
      assert r[n] == b[if n < at then n else n + 1];
      IndexIsUnique(b, if n < at then n else n + 1);
    }
  }

  lemma ShiftedElement(b: Bindings, at: nat, j: nat)
    requires at < |b| && j <= |b|
    ensures j < |b| && j != at ==> (b[..at] + b[at + 1..])[if j < at then j else j - 1] == b[j]
  {
  }

  /** No operation reorders two surviving keys. */
  lemma OrderIsInsertionOrder(b: Bindings, op: Operation, i: nat, j: nat)
    requires WellFormed(b) && i < j < |b|
    ensures var r := Apply(b, op);
            var ri, rj := IndexOf(r, b[i].key), IndexOf(r, b[j].key);
            ri < |r| && rj < |r| ==> ri < rj
  {
    IndexIsUnique(b, i);
    IndexIsUnique(b, j);
    match op
    case SetVar(k, v) =>
      SetKeepsWellFormed(b, k, v);
      var r := Apply(b, op);
      assert r[i].key == b[i].key && r[j].key == b[j].key;
      IndexIsUnique(r, i);
      IndexIsUnique(r, j);
    case ClearAll =>
    case RemoveVar(k) =>
      RemovalKeepsOrder(b, k, i, j);
  }

  lemma RemovalKeepsOrder(b: Bindings, k: Bytes, i: nat, j: nat)
    requires WellFormed(b) && i < j < |b|
    ensures var r := Apply(b, RemoveVar(k));
            var ri, rj := IndexOf(r, b[i].key), IndexOf(r, b[j].key);
            ri < |r| && rj < |r| ==> ri < rj
  {
    hide IndexOf, KeyError;
    IndexIsUnique(b, i);
    IndexIsUnique(b, j);
    var at := IndexOf(b, k);
    if WithoutKey(b, k).Ok? && at < |b| {
      IndexAfterRemoval(b, at, b[i].key);
      IndexAfterRemoval(b, at, b[j].key);
    }
  }

  // ---------------------------------------------------------------------------
  // Reading a listing.

  /** Where `b` first is in `text`, or its length. */
  function Until(text: Bytes, b: Byte): (n: nat)
    ensures n <= |text| && FreeOf(text[..n], b) && (n < |text| ==> text[n] == b)
  {
    if text == [] || text[0] == b then 0
    else
      var n := Until(text[1..], b);
      assert text[..n + 1] == [text[0]] + text[1..][..n];
      n + 1
  }

  /** A listing, cut at its newlines and each line at its first equals sign. */
  function ReadListing(text: Bytes): Bindings {
    if text == [] then []
    else
      var end := Until(text, NEWLINE);
      var line := text[..end];
      var cut := Until(line, EQUALS);
      [Binding(line[..cut], if cut < |line| then line[cut + 1..] else [])]
      + if end < |text| then ReadListing(text[end + 1..]) else []
  }

  lemma {:induction false} UntilIs(front: Bytes, b: Byte, rest: Bytes)
    requires FreeOf(front, b)
    ensures Until(front + [b] + rest, b) == |front|
  {
    var text := front + [b] + rest;
    if front != [] {
      assert text[1..] == front[1..] + [b] + rest;
      UntilIs(front[1..], b, rest);
    }
  }

  lemma {:induction false} ListingFirst(b: Bindings)
    requires b != []
    ensures Listing(b) == Line(b[0]) + Listing(b[1..])
    decreases |b|
  {
    hide Listing, Line;
    var n := |b| - 1;
    assert b[..n] + [b[n]] == b;
    ListingPush(b[..n], b[n]);
    if n == 0 {
      assert b[..n] == b[1..] == [];
      NothingListed(b[1..]);
    } else {
      ListingFirst(b[..n]);
      assert b[..n][1..] + [b[n]] == b[1..];
      ListingPush(b[..n][1..], b[n]);
    }
  }

  lemma ListingPush(b: Bindings, last: Binding)
    ensures Listing(b + [last]) == Listing(b) + Line(last)
  {
    assert (b + [last])[..|b|] == b;
  }

  lemma LineReadsBack(b: Binding, rest: Bytes)
    requires FreeOf(b.key, EQUALS) && FreeOf(b.key, NEWLINE) && FreeOf(b.value, NEWLINE)
    ensures ReadListing(Line(b) + rest) == [b] + ReadListing(rest)
  {
    var text, line := Line(b) + rest, b.key + [EQUALS] + b.value;
    assert text == line + [NEWLINE] + rest;
    UntilIs(line, NEWLINE, rest);
    assert text[..|line|] == line && text[|line| + 1..] == rest;
    UntilIs(b.key, EQUALS, b.value);
    assert line[..|b.key|] == b.key && line[|b.key| + 1..] == b.value;
  }

  /** The listing of variables without newlines tells each key and value, in their order: one line for
      each, the key in front of its first equals sign. */
  lemma {:induction false} ListingReadsBack(b: Bindings)
    requires WellFormed(b)
    requires forall i :: 0 <= i < |b| ==> FreeOf(b[i].key, NEWLINE) && FreeOf(b[i].value, NEWLINE)
    ensures ReadListing(Listing(b)) == b
    decreases |b|
  {
    hide Listing, ReadListing, Line;
    if b == [] {
      NothingListed(b);
      NothingRead();
    } else {
      ListingFirst(b);
      LineReadsBack(b[0], Listing(b[1..]));
      ListingReadsBack(b[1..]);
    }
  }

  lemma NothingRead()
    ensures ReadListing([]) == []
  {
  }
}
