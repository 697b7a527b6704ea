// kernel/kernel/src/storage/fat32.rs: files and directories as what their
// cluster chains hold (Microsoft FAT32 specification, FAT Data Structure and
// FAT Directory Structure). The device is a function from sector number to
// 512 bytes or an error.
module Fat32s {
  import opened Prelude
  import opened Words
  import opened ShortNames
  import Paths

  const SECTOR_SIZE: nat := 512
  const ENTRY_SIZE: nat := 32
  const ENTRIES_PER_SECTOR: nat := 16
  const END_OF_CHAIN: nat := 0x0fff_fff8
  const BAD_CLUSTER: nat := 0x0fff_fff7
  const ATTRIBUTE_DIRECTORY: nat := 16
  const ATTRIBUTE_VOLUME_ID: nat := 8
  const ATTRIBUTE_LONG_NAME: nat := 15

  datatype StorageError =
    | DeviceError | InvalidFat32BootSector | FileNotFound | BufferTooSmall | NotADirectory | NotAFile
    | PathNotAbsolute | InvalidShortName

  type Device = nat -> Option<Bytes>

  datatype Volume = Volume(
    device: Device, start: nat, sectorCount: nat, sectorsPerCluster: nat, reserved: nat, root: nat, firstData: nat)

  datatype DirectoryEntry = DirectoryEntry(firstCluster: nat, size: nat, isDirectory: bool)

  function ReadSector(v: Volume, lba: nat): (r: Result<Bytes, StorageError>)
    ensures r.Ok? ==> |r.value| == SECTOR_SIZE
  {
    var sector := v.device(lba);
    if sector.Some? && |sector.value| == SECTOR_SIZE then Ok(sector.value) else Err(DeviceError)
  }

  function ClusterToLba(v: Volume, cluster: nat): Result<nat, StorageError> {
    if cluster < 2 then Err(InvalidFat32BootSector)
    else
      var lba := v.firstData + (cluster - 2) * v.sectorsPerCluster;
      if lba >= v.start + v.sectorCount then Err(InvalidFat32BootSector) else Ok(lba)
  }

  /** The FAT entry of `cluster`: its successor, or why there is none. */
  function NextCluster(v: Volume, cluster: nat): Result<nat, StorageError> {
    var offset := cluster * 4;
    var sector := ReadSector(v, v.start + v.reserved + offset / SECTOR_SIZE);
    if sector.Err? then Err(sector.error)
    else
      assert offset % SECTOR_SIZE + 4 <= SECTOR_SIZE by {
        assert offset % 4 == 0;
        assert (SECTOR_SIZE - offset % SECTOR_SIZE) % 4 == 0;
      }
      var entry := ReadLe(sector.value, offset % SECTOR_SIZE, 4) % 0x1000_0000;
      if entry == BAD_CLUSTER || entry < 2 then Err(InvalidFat32BootSector)
      else if entry >= END_OF_CHAIN then Err(FileNotFound)
      else Ok(entry)
  }

  // ---------------------------------------------------------------------------
  // Chains as sequences of sectors.

  /** The `k`-th cluster of the chain from `first`. */
  function NthCluster(v: Volume, first: nat, k: nat): Result<nat, StorageError> {
    if k == 0 then Ok(first)
    else
      var before := NthCluster(v, first, k - 1);
      if before.Err? then before else NextCluster(v, before.value)
  }

  function ClusterSector(v: Volume, cluster: nat, i: nat): (r: Result<Bytes, StorageError>)
    ensures r.Ok? ==> |r.value| == SECTOR_SIZE
  {
    var lba := ClusterToLba(v, cluster);
    if lba.Err? then Err(lba.error) else ReadSector(v, lba.value + i)
  }

  /** The `k`-th sector of the chain from `first`. */
  function NthSector(v: Volume, first: nat, k: nat): (r: Result<Bytes, StorageError>)
    requires v.sectorsPerCluster > 0
    ensures r.Ok? ==> |r.value| == SECTOR_SIZE
  {
    var cluster := NthCluster(v, first, k / v.sectorsPerCluster);
    if cluster.Err? then Err(cluster.error) else ClusterSector(v, cluster.value, k % v.sectorsPerCluster)
  }

  /** The first `n` sectors exist. */
  ghost predicate Readable(v: Volume, first: nat, n: nat)
    requires v.sectorsPerCluster > 0
  {
    forall k :: 0 <= k < n ==> NthSector(v, first, k).Ok?
  }

  /** Their concatenation. */
  ghost function Sectors(v: Volume, first: nat, n: nat): (r: Bytes)
    requires v.sectorsPerCluster > 0 && Readable(v, first, n)
    ensures |r| == n * SECTOR_SIZE
  {
    if n == 0 then [] else Sectors(v, first, n - 1) + NthSector(v, first, n - 1).value
  }

  function SectorsFor(size: nat): nat {
    (size + SECTOR_SIZE - 1) / SECTOR_SIZE
  }

  // ---------------------------------------------------------------------------
  // Reading a file.

  lemma MulStep(a: nat, b: nat, d: nat)
    requires a < b
    ensures a * d + d <= b * d
  {
    assert b * d == a * d + (b - a) * d;
    assert (b - a) * d == d + (b - a - 1) * d;
  }

  /** Sector `c * spc + i` is sector `i` of cluster `c`. */
  lemma SectorPosition(spc: nat, c: nat, i: nat)
    requires i < spc
    ensures (c * spc + i) / spc == c && (c * spc + i) % spc == i
  {
    var x := c * spc + i;
    var q, r := x / spc, x % spc;
    assert x == q * spc + r;
    if q < c { MulStep(q, c, spc); }
    if q > c { MulStep(c, q, spc); }
  }

  lemma SectorAt(v: Volume, first: nat, c: nat, i: nat)
    requires i < v.sectorsPerCluster
    ensures var cluster := NthCluster(v, first, c);
            NthSector(v, first, c * v.sectorsPerCluster + i) ==
            if cluster.Err? then Err(cluster.error) else ClusterSector(v, cluster.value, i)
  {
    SectorPosition(v.sectorsPerCluster, c, i);
  }

  /** `k` sectors of the chain are in front of the buffer, cut at the size; the rest is untouched. */
  ghost predicate Copied(v: Volume, entry: DirectoryEntry, now: Bytes, before: Bytes, k: nat, written: nat)
    requires v.sectorsPerCluster > 0
  {
    && |now| == |before| && written <= entry.size <= |now|
    && Readable(v, entry.firstCluster, k)
    && (k > 0 ==> (k - 1) * SECTOR_SIZE < entry.size)
    && written == (if k * SECTOR_SIZE < entry.size then k * SECTOR_SIZE else entry.size)
    && now[..written] == Sectors(v, entry.firstCluster, k)[..written]
    && now[written..] == before[written..]
  }

  lemma CopyStart(v: Volume, entry: DirectoryEntry, now: Bytes)
    requires v.sectorsPerCluster > 0 && entry.size <= |now|
    ensures Copied(v, entry, now, now, 0, 0)
  {
  }

  lemma CopyExtends(v: Volume, entry: DirectoryEntry, now: Bytes, now': Bytes, before: Bytes, k: nat, written: nat,
                    sector: Bytes)
    requires v.sectorsPerCluster > 0 && Copied(v, entry, now, before, k, written) && written < entry.size
    requires NthSector(v, entry.firstCluster, k) == Ok(sector) && |sector| == SECTOR_SIZE
    requires var n := if entry.size - written < SECTOR_SIZE then entry.size - written else SECTOR_SIZE;
             && |now'| == |now| && now'[..written + n] == now[..written] + sector[..n]
             && now'[written + n..] == now[written + n..]
    ensures var n := if entry.size - written < SECTOR_SIZE then entry.size - written else SECTOR_SIZE;
            Copied(v, entry, now', before, k + 1, written + n)
  {
    var n := if entry.size - written < SECTOR_SIZE then entry.size - written else SECTOR_SIZE;
    hide NthSector;
    assert Readable(v, entry.firstCluster, k + 1);
    var all := Sectors(v, entry.firstCluster, k);
    assert Sectors(v, entry.firstCluster, k + 1) == all + sector;
    hide Sectors, Readable;
    assert written == k * SECTOR_SIZE && all[..written] == all;
    assert (all + sector)[..written + n] == all + sector[..n];
    assert now'[written + n..] == before[written + n..] by {
      assert now[written + n..] == now[written..][n..];
      assert before[written + n..] == before[written..][n..];
    }
  }

  lemma CopyDone(v: Volume, entry: DirectoryEntry, now: Bytes, before: Bytes, k: nat)
    requires v.sectorsPerCluster > 0 && Copied(v, entry, now, before, k, entry.size)
    ensures k == SectorsFor(entry.size) && Readable(v, entry.firstCluster, k) && entry.size <= k * SECTOR_SIZE
    ensures now[..entry.size] == Sectors(v, entry.firstCluster, k)[..entry.size]
    ensures forall i :: entry.size <= i < |now| ==> now[i] == before[i]
  {
    hide Readable, Sectors;
    forall i | entry.size <= i < |now| ensures now[i] == before[i] {
      assert now[i] == now[entry.size..][i - entry.size] && before[i] == before[entry.size..][i - entry.size];
    }
  }

  /** The first sector of the file that is missing is missing for this reason. */
  ghost predicate FirstMissing(v: Volume, entry: DirectoryEntry, e: StorageError)
    requires v.sectorsPerCluster > 0
  {
    exists k: nat ::
      k < SectorsFor(entry.size) && Readable(v, entry.firstCluster, k) && NthSector(v, entry.firstCluster, k) == Err(e)
  }

  lemma MissingSector(v: Volume, entry: DirectoryEntry, now: Bytes, before: Bytes, k: nat, written: nat)
    requires v.sectorsPerCluster > 0 && Copied(v, entry, now, before, k, written) && written < entry.size
    requires NthSector(v, entry.firstCluster, k).Err?
    ensures !Readable(v, entry.firstCluster, SectorsFor(entry.size))
    ensures FirstMissing(v, entry, NthSector(v, entry.firstCluster, k).error)
  {
    hide NthSector, Sectors;
    assert k < SectorsFor(entry.size);
  }

  /** A file is read if and only if the buffer is large enough and every sector its size calls
      for is there; then the buffer starts with the chain's bytes, cut at the size. A chain is
      never followed further than that, so reading ends on cyclic chains too; `visited` counts
      the clusters entered. */
  method ReadFile(v: Volume, entry: DirectoryEntry, buffer: array<Byte>)
    returns (r: Result<nat, StorageError>, ghost visited: nat)
    requires v.sectorsPerCluster > 0
    modifies buffer
    ensures r.Ok? <==> entry.size <= buffer.Length && Readable(v, entry.firstCluster, SectorsFor(entry.size))
    ensures r.Ok? ==>
              && r.value == entry.size
              && entry.size <= SectorsFor(entry.size) * SECTOR_SIZE
              && buffer[..entry.size] == Sectors(v, entry.firstCluster, SectorsFor(entry.size))[..entry.size]
              && forall k :: entry.size <= k < buffer.Length ==> buffer[k] == old(buffer[k])
    ensures buffer.Length < entry.size ==> r == Err(BufferTooSmall)
    ensures r.Err? && entry.size <= buffer.Length ==> FirstMissing(v, entry, r.error)
    ensures r.Ok? ==> visited == ClustersFor(v, entry.size)
  {
    hide Copied, Readable, NthSector, SectorsFor, ClustersFor, FirstMissing, ReadSector, ClusterToLba, NextCluster,
         Sectors;
    visited := 0;
    if buffer.Length < entry.size { return Err(BufferTooSmall), visited; }
    var remaining: nat, written: nat, cluster := entry.size, 0, entry.firstCluster;
    ghost var c, k := 0, 0;
    CopyStart(v, entry, buffer[..]);
    while remaining > 0
      invariant written + remaining == entry.size <= buffer.Length
      invariant NthCluster(v, entry.firstCluster, c) == Ok(cluster) && k == c * v.sectorsPerCluster
      invariant Copied(v, entry, buffer[..], old(buffer[..]), k, written)
      invariant visited == c && (remaining == 0 ==> visited == 0 && entry.size == 0)
      decreases remaining
    {
      visited := c + 1;
      var lba := ClusterToLba(v, cluster);
      if lba.Err? {
        SectorAt(v, entry.firstCluster, c, 0);
        MissingSector(v, entry, buffer[..], old(buffer[..]), k, written);
        return Err(lba.error), visited;
      }
      var index := 0;
      ghost var start := remaining;
      while index < v.sectorsPerCluster && remaining > 0
        invariant index <= v.sectorsPerCluster && k == c * v.sectorsPerCluster + index
        invariant written + remaining == entry.size
        invariant remaining <= start && (index > 0 <==> remaining < start)
        invariant Copied(v, entry, buffer[..], old(buffer[..]), k, written)
      {
        SectorAt(v, entry.firstCluster, c, index);
        var sector := ReadSector(v, lba.value + index);
        if sector.Err? {
          MissingSector(v, entry, buffer[..], old(buffer[..]), k, written);
          return Err(sector.error), visited;
        }
        var bytes := if remaining < SECTOR_SIZE then remaining else SECTOR_SIZE;
        ghost var before := buffer[..];
        CopyInto(buffer, written, sector.value[..bytes]);
        CopyExtends(v, entry, before, buffer[..], old(buffer[..]), k, written, sector.value);
        written, remaining, index, k := written + bytes, remaining - bytes, index + 1, k + 1;
      }
      if remaining == 0 {
        CopyDone(v, entry, buffer[..], old(buffer[..]), k);
        ClustersVisited(v, entry.size, c, index);
        return Ok(written), visited;
      }
      var next := NextCluster(v, cluster);
      assert k == (c + 1) * v.sectorsPerCluster + 0;
      if next.Err? {
        SectorAt(v, entry.firstCluster, c + 1, 0);
        MissingSector(v, entry, buffer[..], old(buffer[..]), k, written);
        return Err(next.error), visited;
      }
      cluster, c := next.value, c + 1;
    }
    CopyDone(v, entry, buffer[..], old(buffer[..]), k);
    assert ClustersFor(v, entry.size) == 0 by { EmptyFile(v); }
    return Ok(written), visited;
  }

  function ClusterBytes(v: Volume): (n: nat)
    requires v.sectorsPerCluster > 0
    ensures n > 0
  {
    v.sectorsPerCluster * SECTOR_SIZE
  }

  /** `ceil(size / bytes per cluster)`. */
  function ClustersFor(v: Volume, size: nat): int
    requires v.sectorsPerCluster > 0
  {
    if size == 0 then 0 else (size - 1) / ClusterBytes(v) + 1
  }

  lemma EmptyFile(v: Volume)
    requires v.sectorsPerCluster > 0
    ensures ClustersFor(v, 0) == 0
  {
  }

  /** When the last sector a file needs is among the first `n` of cluster `c`, it needs `c + 1` clusters. */
  lemma ClustersVisited(v: Volume, size: nat, c: nat, n: nat)
    requires size > 0 && 0 < n <= v.sectorsPerCluster && SectorsFor(size) == c * v.sectorsPerCluster + n
    ensures ClustersFor(v, size) == c + 1
  {
    var x, r := size - 1, (size - 1) % SECTOR_SIZE;
    assert x == (c * v.sectorsPerCluster + (n - 1)) * SECTOR_SIZE + r;
    var whole, rest := v.sectorsPerCluster * SECTOR_SIZE, (n - 1) * SECTOR_SIZE + r;
    assert c * v.sectorsPerCluster * SECTOR_SIZE == c * whole;
    assert rest < whole;
    Quotient(x, whole, c, rest);
  }

  lemma Quotient(x: nat, d: nat, q: nat, r: nat)
    requires d > 0 && r < d && x == q * d + r
    ensures x / d == q
  {
    var q', r' := x / d, x % d;
    assert x == q' * d + r';
    if q' < q { MulStep(q', q, d); }
    if q' > q { MulStep(q, q', d); }
  }

  // ---------------------------------------------------------------------------
  // Directories as sequences of 32-byte entries.

  function EntryAt(v: Volume, first: nat, j: nat): (r: Result<Bytes, StorageError>)
    requires v.sectorsPerCluster > 0
    ensures r.Ok? ==> |r.value| == ENTRY_SIZE
  {
    var sector := NthSector(v, first, j / ENTRIES_PER_SECTOR);
    if sector.Err? then Err(sector.error) else Ok(EntryIn(sector.value, j % ENTRIES_PER_SECTOR))
  }

  function EntryIn(sector: Bytes, t: nat): (e: Bytes)
    requires |sector| == SECTOR_SIZE && t < ENTRIES_PER_SECTOR
    ensures |e| == ENTRY_SIZE
  {
    sector[t * ENTRY_SIZE..t * ENTRY_SIZE + ENTRY_SIZE]
  }

  /** Neither deleted, nor part of a long name, nor the volume label. */
  predicate Visible(e: Bytes)
    requires |e| == ENTRY_SIZE
  {
    e[0] != 0 && e[0] != 0xe5 && e[11] != ATTRIBUTE_LONG_NAME && e[11] / ATTRIBUTE_VOLUME_ID % 2 == 0
  }

  function NameOf(e: Bytes): (name: Bytes)
    requires |e| == ENTRY_SIZE
    ensures |name| == NAME_LEN
  {
    e[0..NAME_LEN]
  }

  function ParseEntry(e: Bytes): DirectoryEntry
    requires |e| == ENTRY_SIZE
  {
    DirectoryEntry(ReadLe(e, 20, 2) * 0x1_0000 + ReadLe(e, 26, 2), ReadLe(e, 28, 4),
        e[11] / ATTRIBUTE_DIRECTORY % 2 == 1)
  }

  /** The first `n` entries are there and none of them is the end marker. */
  ghost predicate Live(v: Volume, first: nat, n: nat)
    requires v.sectorsPerCluster > 0
  {
    forall j :: 0 <= j < n ==> EntryAt(v, first, j).Ok? && EntryAt(v, first, j).value[0] != 0
  }

  /** Entry `n` is the end marker. */
  ghost predicate EndsAt(v: Volume, first: nat, n: nat)
    requires v.sectorsPerCluster > 0
  {
    Live(v, first, n) && EntryAt(v, first, n).Ok? && EntryAt(v, first, n).value[0] == 0
  }

  /** The entries of the first `n` clusters. */
  function EntriesIn(v: Volume, n: nat): nat {
    n * v.sectorsPerCluster * ENTRIES_PER_SECTOR
  }

  /** What one entry adds to a listing. */
  function ListLine(e: Bytes): Bytes
    requires |e| == ENTRY_SIZE
  {
    if Visible(e) && !IsDotName(Display(NameOf(e))) then Display(NameOf(e)) + [NEWLINE] else []
  }

  /** The listing of the first `n` entries: displayed names in disk order, a newline after each. */
  ghost function Listing(v: Volume, first: nat, n: nat): Bytes
    requires v.sectorsPerCluster > 0 && Live(v, first, n)
  {
    if n == 0 then [] else Listing(v, first, n - 1) + ListLine(EntryAt(v, first, n - 1).value)
  }

  lemma LiveShorter(v: Volume, first: nat, n: nat, m: nat)
    requires v.sectorsPerCluster > 0 && n <= m && Live(v, first, m)
    ensures Live(v, first, n)
  {
    hide EntryAt;
  }

  lemma {:induction false} ListingGrows(v: Volume, first: nat, n: nat, m: nat)
    requires v.sectorsPerCluster > 0 && n <= m && Live(v, first, n) && Live(v, first, m)
    ensures |Listing(v, first, n)| <= |Listing(v, first, m)|
    decreases m - n
  {
    hide EntryAt, ListLine;
    if n < m {
      LiveShorter(v, first, m - 1, m);
      hide Live;
      ListingGrows(v, first, n, m - 1);
    }
  }

  datatype SectorScan = More(written: nat) | Ended(written: nat) | Full

  /** The entries of one sector, listed behind what is already in the buffer. */
  method ListSector(v: Volume, first: nat, ghost k: nat, sector: Bytes, buffer: array<Byte>, start: nat)
    returns (r: SectorScan)
    requires v.sectorsPerCluster > 0 && NthSector(v, first, k) == Ok(sector) && |sector| == SECTOR_SIZE
    requires Live(v, first, k * ENTRIES_PER_SECTOR) && start <= buffer.Length
    requires buffer[..start] == Listing(v, first, k * ENTRIES_PER_SECTOR)
    modifies buffer
    ensures r.More? ==>
              && Live(v, first, (k + 1) * ENTRIES_PER_SECTOR) && r.written <= buffer.Length
              && buffer[..r.written] == Listing(v, first, (k + 1) * ENTRIES_PER_SECTOR)
    ensures r.Ended? ==> exists n: nat ::
              EndsAt(v, first, n) && r.written <= buffer.Length && buffer[..r.written] == Listing(v, first, n)
    ensures r.Full? ==> exists n: nat :: Live(v, first, n) && |Listing(v, first, n)| > buffer.Length
  {
    hide NthSector, EntryAt, Listing, Display;
    var t: nat, written: nat := 0, start;
    while t < ENTRIES_PER_SECTOR
      invariant t <= ENTRIES_PER_SECTOR && written <= buffer.Length
      invariant Live(v, first, k * ENTRIES_PER_SECTOR + t)
      invariant buffer[..written] == Listing(v, first, k * ENTRIES_PER_SECTOR + t)
    {
      ghost var j := k * ENTRIES_PER_SECTOR + t;
      var entry := EntryIn(sector, t);
      EntryOfSector(v, first, k, t, sector);
      if entry[0] == 0 { return Ended(written); }
      NextLine(v, first, j, entry);
      if Visible(entry) {
        var shown := DisplayName(NameOf(entry));
        if !IsDotName(shown) {
          if written + |shown| + 1 > buffer.Length { return Full; }
          CopyInto(buffer, written, shown);
          CopyInto(buffer, written + |shown|, [NEWLINE]);
          written := written + |shown| + 1;
        }
      }
      t := t + 1;
    }
    return More(written);
  }

  lemma EntryOfSector(v: Volume, first: nat, k: nat, t: nat, sector: Bytes)
    requires v.sectorsPerCluster > 0 && NthSector(v, first, k) == Ok(sector) && |sector| == SECTOR_SIZE
    requires t < ENTRIES_PER_SECTOR
    ensures EntryAt(v, first, k * ENTRIES_PER_SECTOR + t) == Ok(EntryIn(sector, t))
  {
    hide NthSector;
  }

  lemma NextLine(v: Volume, first: nat, j: nat, entry: Bytes)
    requires v.sectorsPerCluster > 0 && Live(v, first, j) && EntryAt(v, first, j) == Ok(entry)
    requires |entry| == ENTRY_SIZE && entry[0] != 0
    ensures Live(v, first, j + 1) && Listing(v, first, j + 1) == Listing(v, first, j) + ListLine(entry)
  {
    hide EntryAt;
  }

  lemma FewerEntries(v: Volume, b: nat, c: nat)
    requires b <= c
    ensures EntriesIn(v, b) <= EntriesIn(v, c)
  {
    assert c * v.sectorsPerCluster == b * v.sectorsPerCluster + (c - b) * v.sectorsPerCluster;
  }

  /** The listing scan goes on past the first `n` clusters: no end, no error, and all fits so far. */
  ghost predicate ListsPast(v: Volume, first: nat, size: nat, n: nat)
    requires v.sectorsPerCluster > 0
  {
    Live(v, first, EntriesIn(v, n)) && |Listing(v, first, EntriesIn(v, n))| <= size
  }

  /** The listing scan ends. */
  ghost predicate ListingEnds(v: Volume, first: nat, size: nat)
    requires v.sectorsPerCluster > 0
  {
    exists n: nat :: !ListsPast(v, first, size, n)
  }

  lemma ListsPastFewer(v: Volume, first: nat, size: nat, b: nat, c: nat)
    requires v.sectorsPerCluster > 0 && b <= c && ListsPast(v, first, size, c)
    ensures ListsPast(v, first, size, b)
  {
    hide EntryAt, EntriesIn, Live, Listing;
    FewerEntries(v, b, c);
    LiveShorter(v, first, EntriesIn(v, b), EntriesIn(v, c));
    ListingGrows(v, first, EntriesIn(v, b), EntriesIn(v, c));
  }

  /** Where a sector is missing, so is its first entry, for the same reason. */
  lemma EntryMissing(v: Volume, first: nat, k: nat)
    requires v.sectorsPerCluster > 0 && NthSector(v, first, k).Err?
    ensures EntryAt(v, first, k * ENTRIES_PER_SECTOR) == Err(NthSector(v, first, k).error)
  {
    hide NthSector;
    assert k * ENTRIES_PER_SECTOR / ENTRIES_PER_SECTOR == k;
  }

  /** The scan of a listing: succeeds if and only if an end marker is met and everything before
      it fits, and then the buffer holds exactly the listing; otherwise it reports the first
      entry that cannot be read, or the one that does not fit, whichever comes first. */
  ghost predicate ListedRight(v: Volume, first: nat, now: Bytes, r: Result<nat, StorageError>)
    requires v.sectorsPerCluster > 0
  {
    && (r.Ok? ==> r.value <= |now| && exists n: nat :: EndsAt(v, first, n) && now[..r.value] == Listing(v, first, n))
    && (r.Err? ==> exists n: nat ::
          Live(v, first, n) && if |Listing(v, first, n)| > |now| then r.error == BufferTooSmall
              else EntryAt(v, first, n) == Err(r.error))
  }

  /** A failed listing means there is no end marker, or too much before it. */
  lemma FailedListing(v: Volume, first: nat, now: Bytes, r: Result<nat, StorageError>)
    requires v.sectorsPerCluster > 0 && ListedRight(v, first, now, r) && r.Err?
    ensures forall n: nat :: EndsAt(v, first, n) ==> |Listing(v, first, n)| > |now|
  {
    hide EntryAt, Listing;
    var m: nat :| Live(v, first, m) && if |Listing(v, first, m)| > |now| then r.error == BufferTooSmall
        else EntryAt(v, first, m) == Err(r.error);
    forall n: nat | EndsAt(v, first, n) ensures |Listing(v, first, n)| > |now| {
      ListingGrows(v, first, m, n);
    }
  }

  /** The entries of a directory determine whether it can be listed, as what, and if not, why. */
  lemma ListingIsDetermined(v: Volume, first: nat, now: Bytes, now': Bytes, r: Result<nat, StorageError>,
                            r': Result<nat, StorageError>)
    requires v.sectorsPerCluster > 0 && |now| == |now'| && ListedRight(v, first, now, r)
    requires ListedRight(v, first, now', r')
    ensures r == r' && (r.Ok? ==> now[..r.value] == now'[..r.value])
  {
    hide EntryAt, Listing;
    if r.Err? { FailedListing(v, first, now, r); }
    if r'.Err? { FailedListing(v, first, now', r'); }
    if r.Err? && r'.Err? {
      var n: nat :| Live(v, first, n) && if |Listing(v, first, n)| > |now| then r.error == BufferTooSmall
          else EntryAt(v, first, n) == Err(r.error);
      var m: nat :| Live(v, first, m) && if |Listing(v, first, m)| > |now| then r'.error == BufferTooSmall
          else EntryAt(v, first, m) == Err(r'.error);
      if n <= m { ListingGrows(v, first, n, m); } else { ListingGrows(v, first, m, n); }
    }
  }

  /** The three nested loops of `read_dir`, below the path resolution, where they end. */
  method ListDirectory(v: Volume, first: nat, buffer: array<Byte>) returns (r: Result<nat, StorageError>)
    requires v.sectorsPerCluster > 0 && ListingEnds(v, first, buffer.Length)
    modifies buffer
    ensures ListedRight(v, first, buffer[..], r)
  {
    hide NthSector, EntryAt, Listing, Live, EndsAt, EntriesIn, ClusterToLba, NextCluster;
    ghost var bound: nat :| !ListsPast(v, first, buffer.Length, bound);
    var cluster, written: nat := first, 0;
    ghost var c := 0;
    NothingListed(v, first);
    EntriesOf(v, 0);
    while true
      invariant NthCluster(v, first, c) == Ok(cluster) && written <= buffer.Length
      invariant Live(v, first, EntriesIn(v, c)) && buffer[..written] == Listing(v, first, EntriesIn(v, c))
      decreases bound - c
    {
      ListingGoesOn(v, first, buffer.Length, bound, c);
      var lba := ClusterToLba(v, cluster);
      if lba.Err? {
        ClusterMissing(v, first, c);
        return Err(lba.error);
      }
      var outcome;
      outcome, written := ListCluster(v, first, c, lba.value, buffer, written);
      if outcome.Some? { return outcome.value; }
      var next := NextCluster(v, cluster);
      if next.Err? {
        ClusterMissing(v, first, c + 1);
        return Err(next.error);
      }
      ListingGoesOn(v, first, buffer.Length, bound, c + 1);
      cluster, c := next.value, c + 1;
    }
  }

  lemma EntriesOf(v: Volume, c: nat)
    ensures EntriesIn(v, c) == (c * v.sectorsPerCluster) * ENTRIES_PER_SECTOR && EntriesIn(v, 0) == 0
  {
  }

  /** Where a cluster is missing, so is its first entry, for the same reason. */
  lemma ClusterMissing(v: Volume, first: nat, c: nat)
    requires v.sectorsPerCluster > 0
    requires NthCluster(v, first, c).Err? || ClusterToLba(v, NthCluster(v, first, c).value).Err?
    ensures var cluster := NthCluster(v, first, c);
            EntryAt(v, first, EntriesIn(v, c)) ==
                Err(if cluster.Err? then cluster.error else ClusterToLba(v, cluster.value).error)
    ensures !EndsAt(v, first, EntriesIn(v, c))
  {
    hide NthCluster, NthSector, EntryAt, EndsAt, ClusterToLba;
    SectorAt(v, first, c, 0);
    EntryMissing(v, first, c * v.sectorsPerCluster);
    NotTheEnd(v, first, EntriesIn(v, c));
  }

  /** The sectors of one cluster of the chain; None when the listing goes on behind them. */
  method ListCluster(v: Volume, first: nat, ghost c: nat, lba: nat, buffer: array<Byte>, start: nat)
    returns (r: Option<Result<nat, StorageError>>, written: nat)
    requires v.sectorsPerCluster > 0 && NthCluster(v, first, c).Ok?
    requires ClusterToLba(v, NthCluster(v, first, c).value) == Ok(lba)
    requires Live(v, first, EntriesIn(v, c)) && start <= buffer.Length
    requires buffer[..start] == Listing(v, first, EntriesIn(v, c))
    modifies buffer
    ensures r.Some? ==> ListedRight(v, first, buffer[..], r.value)
    ensures var n := EntriesIn(v, c + 1);
            r.None? ==> Live(v, first, n) && written <= buffer.Length && buffer[..written] == Listing(v, first, n)
  {
    hide NthSector, NthCluster, EntryAt, Listing, Live, EndsAt, EntriesIn, ClusterToLba;
    written := start;
    EntriesOf(v, c);
    EntriesOf(v, c + 1);
    var index := 0;
    ghost var k := c * v.sectorsPerCluster;
    while index < v.sectorsPerCluster
      invariant index <= v.sectorsPerCluster && k == c * v.sectorsPerCluster + index && written <= buffer.Length
      invariant Live(v, first, k * ENTRIES_PER_SECTOR) && buffer[..written] == Listing(v, first, k * ENTRIES_PER_SECTOR)
    {
      SectorAt(v, first, c, index);
      var sector := ReadSector(v, lba + index);
      if sector.Err? {
        EntryMissing(v, first, k);
        return Some(Err(sector.error)), written;
      }
      var scan := ListSector(v, first, k, sector.value, buffer, written);
      match scan {
        case Full =>
          return Some(Err(BufferTooSmall)), written;
        case Ended(n) =>
          return Some(Ok(n)), written;
        case More(n) =>
          written, index, k := n, index + 1, k + 1;
      }
    }
    assert k == (c + 1) * v.sectorsPerCluster;
    return None, written;
  }

  lemma ListingGoesOn(v: Volume, first: nat, size: nat, bound: nat, c: nat)
    requires v.sectorsPerCluster > 0 && !ListsPast(v, first, size, bound)
    requires Live(v, first, EntriesIn(v, c)) && |Listing(v, first, EntriesIn(v, c))| <= size
    ensures c < bound
  {
    hide Live, Listing;
    if bound <= c { ListsPastFewer(v, first, size, bound, c); }
  }

  /** Exactly the scans that end have a right answer. */
  lemma ListingEndsIfAnswered(v: Volume, first: nat, now: Bytes, r: Result<nat, StorageError>)
    requires v.sectorsPerCluster > 0 && ListedRight(v, first, now, r)
    ensures ListingEnds(v, first, |now|)
  {
    hide EntryAt, Listing;
    var n: nat :|
      if r.Ok? then EndsAt(v, first, n)
      else Live(v, first, n) && (|Listing(v, first, n)| > |now| || EntryAt(v, first, n) == Err(r.error));
    if ListsPast(v, first, |now|, n + 1) {
      ManyEntries(v, n + 1);
      ListingGrows(v, first, n, EntriesIn(v, n + 1));
    }
  }

  lemma ManyEntries(v: Volume, n: nat)
    requires v.sectorsPerCluster > 0
    ensures n <= EntriesIn(v, n)
  {
    Scaled(n, v.sectorsPerCluster);
  }

  lemma NothingListed(v: Volume, first: nat)
    requires v.sectorsPerCluster > 0
    ensures Live(v, first, 0) && Listing(v, first, 0) == []
  {
  }

  // ---------------------------------------------------------------------------
  // Lookup.

  predicate Matches(e: Bytes, short: Bytes)
    requires |e| == ENTRY_SIZE
  {
    Visible(e) && NameOf(e) == short
  }

  /** No entry before `n` has this name. */
  ghost predicate Absent(v: Volume, first: nat, short: Bytes, n: nat)
    requires v.sectorsPerCluster > 0 && Live(v, first, n)
  {
    forall j :: 0 <= j < n ==> !Matches(EntryAt(v, first, j).value, short)
  }

  /** Entry `j` is the first of this name. */
  ghost predicate FirstMatch(v: Volume, first: nat, short: Bytes, j: nat)
    requires v.sectorsPerCluster > 0
  {
    Live(v, first, j + 1) && Matches(EntryAt(v, first, j).value, short) && Live(v, first, j) &&
        Absent(v, first, short, j)
  }

  datatype SectorFind = Found(entry: DirectoryEntry) | NoMore | Continue

  method FindInSector(v: Volume, first: nat, ghost k: nat, sector: Bytes, short: Bytes) returns (r: SectorFind)
    requires v.sectorsPerCluster > 0 && NthSector(v, first, k) == Ok(sector) && |sector| == SECTOR_SIZE
    requires Live(v, first, k * ENTRIES_PER_SECTOR) && Absent(v, first, short, k * ENTRIES_PER_SECTOR)
    ensures r.Continue? ==>
              Live(v, first, (k + 1) * ENTRIES_PER_SECTOR) && Absent(v, first, short, (k + 1) * ENTRIES_PER_SECTOR)
    ensures r.NoMore? ==> exists n: nat :: EndsAt(v, first, n) && Absent(v, first, short, n)
    ensures r.Found? ==> exists j: nat ::
              FirstMatch(v, first, short, j) && r.entry == ParseEntry(EntryAt(v, first, j).value)
  {
    hide NthSector, EntryAt, ParseEntry;
    var t: nat := 0;
    while t < ENTRIES_PER_SECTOR
      invariant t <= ENTRIES_PER_SECTOR
      invariant Live(v, first, k * ENTRIES_PER_SECTOR + t) && Absent(v, first, short, k * ENTRIES_PER_SECTOR + t)
    {
      ghost var j := k * ENTRIES_PER_SECTOR + t;
      var entry := EntryIn(sector, t);
      EntryOfSector(v, first, k, t, sector);
      if entry[0] == 0 {
        assert EndsAt(v, first, j);
        return NoMore;
      }
      assert Live(v, first, j + 1);
      if Visible(entry) && NameOf(entry) == short {
        assert FirstMatch(v, first, short, j);
        return Found(ParseEntry(entry));
      }
      t := t + 1;
    }
    return Continue;
  }

  /** A lookup yields the first visible entry with the name, or, when no entry before it has the
      name, the end marker's FileNotFound or the reason why an entry cannot be read. */
  ghost predicate FoundRight(v: Volume, first: nat, short: Bytes, r: Result<DirectoryEntry, StorageError>)
    requires v.sectorsPerCluster > 0
  {
    && (r.Ok? ==> exists j: nat :: FirstMatch(v, first, short, j) && r.value == ParseEntry(EntryAt(v, first, j).value))
    && (r.Err? ==> exists n: nat ::
          Live(v, first, n) && Absent(v, first, short, n)
          && if EndsAt(v, first, n) then r.error == FileNotFound else EntryAt(v, first, n) == Err(r.error))
  }

  lemma NoMatchPast(v: Volume, first: nat, short: Bytes, n: nat)
    requires v.sectorsPerCluster > 0 && Live(v, first, n) && Absent(v, first, short, n) && !Live(v, first, n + 1)
    ensures forall j: nat :: !FirstMatch(v, first, short, j)
  {
    hide EntryAt, Matches;
    forall j: nat ensures !FirstMatch(v, first, short, j) {
      if j >= n && Live(v, first, j + 1) { LiveShorter(v, first, n + 1, j + 1); }
    }
  }

  /** A failed lookup means that no entry the scan could reach has the name. */
  lemma FailedLookup(v: Volume, first: nat, short: Bytes, r: Result<DirectoryEntry, StorageError>)
    requires v.sectorsPerCluster > 0 && FoundRight(v, first, short, r) && r.Err?
    ensures forall j: nat :: !FirstMatch(v, first, short, j)
  {
    hide EntryAt, Matches;
    var n: nat :| Live(v, first, n) && Absent(v, first, short, n)
                  && if EndsAt(v, first, n) then r.error == FileNotFound else EntryAt(v, first, n) == Err(r.error);
    NoMatchPast(v, first, short, n);
  }

  /** A component that is no short name is refused, any other is looked up. */
  ghost predicate LookupRight(v: Volume, first: nat, component: Bytes, r: Result<DirectoryEntry, StorageError>)
    requires v.sectorsPerCluster > 0
  {
    match MakeShortName(component)
    case None => r == Err(InvalidShortName)
    case Some(short) => FoundRight(v, first, short, r)
  }

  /** The lookup scan goes on past the first `n` clusters: no end, no error, and no match so far. */
  ghost predicate LooksPast(v: Volume, first: nat, short: Bytes, n: nat)
    requires v.sectorsPerCluster > 0
  {
    Live(v, first, EntriesIn(v, n)) && Absent(v, first, short, EntriesIn(v, n))
  }

  /** The lookup ends: at once for a component that is no short name. */
  ghost predicate LookupEnds(v: Volume, first: nat, component: Bytes)
    requires v.sectorsPerCluster > 0
  {
    var made := MakeShortName(component);
    made.Some? ==> exists n: nat :: !LooksPast(v, first, made.value, n)
  }

  /** Exactly the lookups that end have a right answer. */
  lemma LookupEndsIfAnswered(v: Volume, first: nat, component: Bytes, r: Result<DirectoryEntry, StorageError>)
    requires v.sectorsPerCluster > 0 && LookupRight(v, first, component, r)
    ensures LookupEnds(v, first, component)
  {
    var made := MakeShortName(component);
    hide EntryAt, Matches, MakeShortName, ParseEntry;
    if made.Some? {
      var n: nat :|
        if r.Ok? then FirstMatch(v, first, made.value, n)
        else
          && Live(v, first, n) && Absent(v, first, made.value, n)
          && (EndsAt(v, first, n) || EntryAt(v, first, n) == Err(r.error));
      if LooksPast(v, first, made.value, n + 1) {
        ManyEntries(v, n + 1);
      }
    }
  }

  lemma LookupGoesOn(v: Volume, first: nat, short: Bytes, bound: nat, c: nat)
    requires v.sectorsPerCluster > 0 && !LooksPast(v, first, short, bound)
    requires Live(v, first, EntriesIn(v, c)) && Absent(v, first, short, EntriesIn(v, c))
    ensures c < bound
  {
    hide EntryAt, Matches;
    if bound <= c {
      FewerEntries(v, bound, c);
      LiveShorter(v, first, EntriesIn(v, bound), EntriesIn(v, c));
    }
  }

  /** The three nested loops of `find_in_directory`, where they end. */
  method FindInDirectory(v: Volume, first: nat, component: Bytes) returns (r: Result<DirectoryEntry, StorageError>)
    requires v.sectorsPerCluster > 0 && LookupEnds(v, first, component)
    ensures LookupRight(v, first, component, r)
  {
    var short := MakeName(component);
    if short.None? { return Err(InvalidShortName); }
    ghost var bound: nat :| !LooksPast(v, first, short.value, bound);
    r := FindName(v, first, short.value, bound);
  }

  method FindName(v: Volume, first: nat, short: Bytes, ghost bound: nat)
    returns (r: Result<DirectoryEntry, StorageError>)
    requires v.sectorsPerCluster > 0 && !LooksPast(v, first, short, bound)
    ensures FoundRight(v, first, short, r)
  {
    hide NthSector, EntryAt, Live, EndsAt, EntriesIn, FirstMatch, ParseEntry, Absent, ClusterToLba, NextCluster;
    var cluster := first;
    ghost var c := 0;
    NothingFound(v, first, short);
    EntriesOf(v, 0);
    while true
      invariant NthCluster(v, first, c) == Ok(cluster)
      invariant Live(v, first, EntriesIn(v, c)) && Absent(v, first, short, EntriesIn(v, c))
      decreases bound - c
    {
      LookupGoesOn(v, first, short, bound, c);
      var lba := ClusterToLba(v, cluster);
      if lba.Err? {
        ClusterMissing(v, first, c);
        return Err(lba.error);
      }
      var outcome := FindInCluster(v, first, c, lba.value, short);
      if outcome.Some? { return outcome.value; }
      var next := NextCluster(v, cluster);
      if next.Err? {
        ClusterMissing(v, first, c + 1);
        return Err(next.error);
      }
      LookupGoesOn(v, first, short, bound, c + 1);
      cluster, c := next.value, c + 1;
    }
  }

  /** The sectors of one cluster of the chain; None when the lookup goes on behind them. */
  method FindInCluster(v: Volume, first: nat, ghost c: nat, lba: nat, short: Bytes)
    returns (r: Option<Result<DirectoryEntry, StorageError>>)
    requires v.sectorsPerCluster > 0 && NthCluster(v, first, c).Ok?
    requires ClusterToLba(v, NthCluster(v, first, c).value) == Ok(lba)
    requires Live(v, first, EntriesIn(v, c)) && Absent(v, first, short, EntriesIn(v, c))
    ensures r.Some? ==> FoundRight(v, first, short, r.value)
    ensures var n := EntriesIn(v, c + 1);
            r.None? ==> Live(v, first, n) && Absent(v, first, short, n)
  {
    hide NthSector, NthCluster, EntryAt, Live, EndsAt, EntriesIn, FirstMatch, ParseEntry, Absent, ClusterToLba;
    EntriesOf(v, c);
    EntriesOf(v, c + 1);
    var index := 0;
    ghost var k := c * v.sectorsPerCluster;
    while index < v.sectorsPerCluster
      invariant index <= v.sectorsPerCluster && k == c * v.sectorsPerCluster + index
      invariant Live(v, first, k * ENTRIES_PER_SECTOR) && Absent(v, first, short, k * ENTRIES_PER_SECTOR)
    {
      SectorAt(v, first, c, index);
      var sector := ReadSector(v, lba + index);
      if sector.Err? {
        EntryMissing(v, first, k);
        NotTheEnd(v, first, k * ENTRIES_PER_SECTOR);
        return Some(Err(sector.error));
      }
      var scan := FindInSector(v, first, k, sector.value, short);
      match scan {
        case Found(entry) =>
          return Some(Ok(entry));
        case NoMore =>
          EndIsLive(v, first);
          return Some(Err(FileNotFound));
        case Continue =>
          index, k := index + 1, k + 1;
      }
    }
    assert k == (c + 1) * v.sectorsPerCluster;
    return None;
  }

  lemma NothingFound(v: Volume, first: nat, short: Bytes)
    requires v.sectorsPerCluster > 0
    ensures Live(v, first, 0) && Absent(v, first, short, 0)
  {
  }

  lemma NotTheEnd(v: Volume, first: nat, n: nat)
    requires v.sectorsPerCluster > 0 && EntryAt(v, first, n).Err?
    ensures !EndsAt(v, first, n)
  {
  }

  lemma EndIsLive(v: Volume, first: nat)
    requires v.sectorsPerCluster > 0
    ensures forall n: nat :: EndsAt(v, first, n) ==> Live(v, first, n)
  {
  }

  lemma OneFirstMatch(v: Volume, first: nat, short: Bytes, i: nat, j: nat)
    requires v.sectorsPerCluster > 0 && FirstMatch(v, first, short, i) && FirstMatch(v, first, short, j)
    ensures i == j
  {
    hide EntryAt;
  }

  /** The entries of a directory determine what a lookup answers, errors included. */
  lemma LookupIsDetermined(v: Volume, first: nat, component: Bytes, r: Result<DirectoryEntry, StorageError>,
                           r': Result<DirectoryEntry, StorageError>)
    requires v.sectorsPerCluster > 0 && LookupRight(v, first, component, r) && LookupRight(v, first, component, r')
    ensures r == r'
  {
    var made := MakeShortName(component);
    hide EntryAt, Matches, MakeShortName, ParseEntry;
    if made.Some? {
      var short := made.value;
      if r.Err? { FailedLookup(v, first, short, r); }
      if r'.Err? { FailedLookup(v, first, short, r'); }
      if r.Ok? && r'.Ok? {
        var i: nat :| FirstMatch(v, first, short, i) && r.value == ParseEntry(EntryAt(v, first, i).value);
        var j: nat :| FirstMatch(v, first, short, j) && r'.value == ParseEntry(EntryAt(v, first, j).value);
        OneFirstMatch(v, first, short, i, j);
      }
    }
  }

  lemma {:induction false} SomeMatchIsFirst(v: Volume, first: nat, short: Bytes, j: nat) returns (i: nat)
    requires v.sectorsPerCluster > 0 && Live(v, first, j + 1) && Matches(EntryAt(v, first, j).value, short)
    ensures i <= j && FirstMatch(v, first, short, i)
    decreases j
  {
    hide EntryAt, Matches;
    LiveShorter(v, first, j, j + 1);
    if Absent(v, first, short, j) {
      i := j;
    } else {
      var m :| 0 <= m < j && Matches(EntryAt(v, first, m).value, short);
      LiveShorter(v, first, m + 1, j);
      i := SomeMatchIsFirst(v, first, short, m);
    }
  }

  /** Listing and lookup agree: in a directory that lists successfully, looking up the displayed
      name of any visible, well-formed entry finds an entry with that very name, the first one. */
  lemma ListedIsFound(v: Volume, first: nat, n: nat, j: nat, r: Result<DirectoryEntry, StorageError>)
    requires v.sectorsPerCluster > 0 && EndsAt(v, first, n) && j < n
    requires Visible(EntryAt(v, first, j).value) && WellFormedName(NameOf(EntryAt(v, first, j).value))
    requires LookupRight(v, first, Display(NameOf(EntryAt(v, first, j).value)), r)
    ensures var name := NameOf(EntryAt(v, first, j).value);
            && r.Ok?
            && exists i: nat ::
                 i <= j && FirstMatch(v, first, name, i) && r.value == ParseEntry(EntryAt(v, first, i).value)
  {
    var name := NameOf(EntryAt(v, first, j).value);
    hide EntryAt, WellFormedName, Display, MakeShortName, ParseEntry;
    MadeOfDisplay(name);
    LiveShorter(v, first, j + 1, n);
    var i := SomeMatchIsFirst(v, first, name, j);
    if r.Err? { FailedLookup(v, first, name, r); }
    forall m: nat | FirstMatch(v, first, name, m) ensures m == i {
      OneFirstMatch(v, first, name, i, m);
    }
  }

  /** And whatever is listed is the line of a visible entry: an entry that is found by its
      displayed name is in every successful listing. */
  lemma {:induction false} LineIsListed(v: Volume, first: nat, n: nat, j: nat) returns (front: Bytes, rest: Bytes)
    requires v.sectorsPerCluster > 0 && Live(v, first, n) && j < n
    ensures Listing(v, first, n) == front + ListLine(EntryAt(v, first, j).value) + rest
    decreases n
  {
    hide EntryAt, ListLine;
    LiveShorter(v, first, n - 1, n);
    var last := ListLine(EntryAt(v, first, n - 1).value);
    if j == n - 1 {
      front, rest := Listing(v, first, n - 1), [];
    } else {
      front, rest := LineIsListed(v, first, n - 1, j);
      rest := rest + last;
    }
  }

  // ---------------------------------------------------------------------------
  // Directories without an end marker.

  /** A directory that fills its `n` clusters to the last entry cannot be listed, however large
      the buffer: behind its last entry the end of the chain is an error. */
  lemma FullDirectoryFails(v: Volume, first: nat, n: nat, now: Bytes, r: Result<nat, StorageError>)
    requires v.sectorsPerCluster > 0 && Live(v, first, EntriesIn(v, n)) && NthCluster(v, first, n) == Err(FileNotFound)
    requires ListedRight(v, first, now, r)
    ensures r == Err(if |Listing(v, first, EntriesIn(v, n))| > |now| then BufferTooSmall else FileNotFound)
  {
    hide EntryAt, Listing, NthCluster, NthSector, Live, ListedRight, EntriesIn;
    ChainEndsAt(v, first, n);
    var end := EntriesIn(v, n);
    var right: Result<nat, StorageError> := Err(if |Listing(v, first, end)| > |now| then BufferTooSmall
        else FileNotFound);
    StoppedListing(v, first, now, end, right);
    ListingIsDetermined(v, first, now, now, r, right);
  }

  lemma ChainEndsAt(v: Volume, first: nat, n: nat)
    requires v.sectorsPerCluster > 0 && NthCluster(v, first, n) == Err(FileNotFound)
    ensures EntryAt(v, first, EntriesIn(v, n)) == Err(FileNotFound)
  {
    hide NthCluster, NthSector, EntryAt;
    SectorAt(v, first, n, 0);
    EntryMissing(v, first, n * v.sectorsPerCluster + 0);
  }

  lemma StoppedListing(v: Volume, first: nat, now: Bytes, n: nat, r: Result<nat, StorageError>)
    requires v.sectorsPerCluster > 0 && Live(v, first, n) && r.Err?
    requires if |Listing(v, first, n)| > |now| then r.error == BufferTooSmall else EntryAt(v, first, n) == Err(r.error)
    ensures ListedRight(v, first, now, r)
  {
    hide Listing, EntryAt, Live;
  }

  function Repeated(b: Byte): (sector: Bytes)
    ensures |sector| == SECTOR_SIZE && forall i :: 0 <= i < SECTOR_SIZE ==> sector[i] == b
  {
    seq(SECTOR_SIZE, _ => b)
  }

  /** A boot sector, a FAT all of whose chains end, and a root directory of one sector with sixteen
      files AAAAAAAA.AAA. */
  function FullDevice(): Device {
    lba => Some(if lba == 0 then BootSector() else Repeated(if lba == 1 then 255 else 65))
  }

  const FULL_GEOMETRY := Geometry(1, 1, 1, 0, 100, 9, 2)

  function BootSector(): (sector: Bytes)
    ensures |sector| == SECTOR_SIZE
  {
    seq(SECTOR_SIZE, i requires 0 <= i < SECTOR_SIZE => BootByte(i))
  }

  function BootByte(i: nat): Byte {
    if i == 12 then 2
    else if i in {13, 14, 16} then 1
    else if i == 32 then 100
    else if i == 36 then 9
    else if i == 44 then 2
    else 0
  }

  function FullVolume(): Volume {
    Volume(FullDevice(), 0, 100, 1, 1, 2, 10)
  }

  lemma SmallFields(n: Byte)
    ensures ToLe(n, 2) == [n, 0] && ToLe(n, 4) == [n, 0, 0, 0] && ToLe(SECTOR_SIZE, 2) == [0, 2]
  {
    assert ToLe(n / 256, 1) == [0];
    assert ToLe(n / 256 / 256, 2) == [0, 0];
  }

  lemma FullDeviceMounts()
    ensures Mount(FullDevice(), 0, 100) == Ok(FullVolume())
  {
    hide BootSector, Formatted, Mount;
    BootIsFormatted();
    MountReadsBack(FullDevice(), 0, 100, FULL_GEOMETRY, BootSector());
  }

  lemma BootIsFormatted()
    ensures Formatted(FULL_GEOMETRY, BootSector())
  {
    hide BootSector, ToLe;
    var b := BootSector();
    BootField(11, 13, [0, 2]);
    BootField(13, 14, [1]);
    BootField(14, 16, [1, 0]);
    BootField(16, 17, [1]);
    BootField(17, 19, [0, 0]);
    BootField(19, 21, [0, 0]);
    BootField(22, 24, [0, 0]);
    BootField(32, 36, [100, 0, 0, 0]);
    BootField(36, 40, [9, 0, 0, 0]);
    BootField(44, 48, [2, 0, 0, 0]);
    assert b[13] == b[13..14][0] && b[16] == b[16..17][0];
    SmallFields(0);
    SmallFields(1);
    SmallFields(2);
    SmallFields(9);
    SmallFields(100);
  }

  lemma BootField(from: nat, to: nat, field: Bytes)
    requires from <= to <= SECTOR_SIZE && |field| == to - from && forall i :: from <= i < to ==>
               field[i - from] == BootByte(i)
    ensures BootSector()[from..to] == field
  {
  }

  /** The device mounts, its root has sixteen visible files, and no buffer is large enough to list
      them. */
  lemma FullDirectoryExists()
    ensures Mount(FullDevice(), 0, 100) == Ok(FullVolume())
    ensures var v := FullVolume();
            && Live(v, v.root, 16)
            && (forall j :: 0 <= j < 16 ==> Visible(EntryAt(v, v.root, j).value))
            && forall now: Bytes, r: Result<nat, StorageError> ::
                 ListedRight(v, v.root, now, r) && |Listing(v, v.root, 16)| <= |now| ==> r == Err(FileNotFound)
  {
    hide EntryAt, NthSector, NthCluster, Listing, ListedRight, Repeated, EntryIn, FullDevice, Mount;
    var v := FullVolume();
    FullDeviceMounts();
    FullEntries(v);
    ChainOfOnes(v);
    assert Live(v, 2, EntriesIn(v, 1));
    forall now: Bytes, r: Result<nat, StorageError> | ListedRight(v, 2, now, r) && |Listing(v, 2, 16)| <= |now|
      ensures r == Err(FileNotFound)
    {
      FullDirectoryFails(v, 2, 1, now, r);
    }
  }

  lemma FullEntries(v: Volume)
    requires v == FullVolume()
    ensures forall j: nat :: j < 16 ==>
              EntryAt(v, 2, j) == Ok(EntryIn(Repeated(65), j)) && EntryIn(Repeated(65), j)[0] == 65 &&
                  EntryIn(Repeated(65), j)[11] == 65
  {
    hide EntryAt;
    var full := Repeated(65);
    assert NthCluster(v, 2, 0) == Ok(2) && ClusterToLba(v, 2) == Ok(10);
    assert ReadSector(v, 10) == Ok(full) && NthSector(v, 2, 0) == Ok(full);
    hide NthSector;
    forall j: nat | j < 16 ensures EntryAt(v, 2, j) == Ok(EntryIn(full, j)) {
      EntryOfSector(v, 2, 0, j, full);
    }
  }

  lemma FourBytes()
    ensures Power256(4) == 0x1_0000_0000
  {
    assert Power256(2) == 0x1_0000;
  }

  lemma ChainOfOnes(v: Volume)
    requires v == FullVolume()
    ensures NthCluster(v, 2, 1) == Err(FileNotFound)
  {
    var fat := Repeated(255);
    assert ReadSector(v, 1) == Ok(fat);
    var entry := fat[8..12];
    FromLeOfOnes(entry);
    assert FromLe(entry) == 0xffff_ffff by { FourBytes(); }
    hide FromLe;
    assert NextCluster(v, 2) == Err(FileNotFound);
    assert NthCluster(v, 2, 0) == Ok(2);
  }

  // ---------------------------------------------------------------------------
  // Acyclic chains.

  /** The chain never comes back to a cluster. */
  ghost predicate Acyclic(v: Volume, first: nat) {
    forall i: nat, j: nat :: i < j && NthCluster(v, first, i).Ok? && NthCluster(v, first, j).Ok? ==>
      NthCluster(v, first, i) != NthCluster(v, first, j)
  }

  lemma BoundIsPositive(s: seq<nat>, m: nat)
    requires s != [] && forall i :: 0 <= i < |s| ==> s[i] < m
    ensures m > 0
  {
    assert s[0] < m;
  }

  lemma {:induction false} Pigeonhole(s: seq<nat>, m: nat)
    requires forall i :: 0 <= i < |s| ==> s[i] < m
    requires forall i, j :: 0 <= i < j < |s| ==> s[i] != s[j]
    ensures |s| <= m
    decreases m
  {
    if m == 0 {
      if s != [] { BoundIsPositive(s, m); }
    } else if k :| 0 <= k < |s| && s[k] == m - 1 {
      Pigeonhole(s[..k] + s[k + 1..], m - 1);
    } else {
      Pigeonhole(s, m - 1);
    }
  }

  lemma ClusterOfLive(v: Volume, first: nat, bound: nat, c: nat)
    requires v.sectorsPerCluster > 0 && Live(v, first, EntriesIn(v, bound)) && c < bound
    ensures NthCluster(v, first, c).Ok? && NthCluster(v, first, c).value < v.start + v.sectorCount + 2
  {
    var k := c * v.sectorsPerCluster + 0;
    MulStep(c, bound, v.sectorsPerCluster);
    LiveSector(v, first, bound * v.sectorsPerCluster, k);
    SectorAt(v, first, c, 0);
    hide NthSector, NthCluster, Live;
    LowCluster(v, NthCluster(v, first, c).value);
  }

  lemma LiveSector(v: Volume, first: nat, n: nat, k: nat)
    requires v.sectorsPerCluster > 0 && Live(v, first, n * ENTRIES_PER_SECTOR) && k < n
    ensures NthSector(v, first, k).Ok?
  {
    hide NthSector;
    assert EntryAt(v, first, k * ENTRIES_PER_SECTOR).Ok?;
  }

  lemma LowCluster(v: Volume, cluster: nat)
    requires v.sectorsPerCluster > 0 && ClusterToLba(v, cluster).Ok?
    ensures cluster < v.start + v.sectorCount + 2
  {
    if cluster >= 2 { Scaled(cluster - 2, v.sectorsPerCluster); }
  }

  lemma Scaled(a: nat, d: nat)
    requires d > 0
    ensures a <= a * d
  {
    assert a * d == a + a * (d - 1);
  }

  /** On an acyclic chain the entries come to an end: with the marker or with an error. */
  lemma AcyclicChainEnds(v: Volume, first: nat)
    requires v.sectorsPerCluster > 0 && Acyclic(v, first)
    ensures !Live(v, first, EntriesIn(v, v.start + v.sectorCount + 3))
  {
    hide NthCluster, EntryAt;
    var bound := v.start + v.sectorCount + 3;
    if Live(v, first, EntriesIn(v, bound)) {
      forall c: nat | c < bound
        ensures NthCluster(v, first, c).Ok? && NthCluster(v, first, c).value < v.start + v.sectorCount + 2
      {
        ClusterOfLive(v, first, bound, c);
      }
      hide Live;
      var chain := seq(bound, c requires 0 <= c < bound => NthCluster(v, first, c).value);
      Pigeonhole(chain, v.start + v.sectorCount + 2);
    }
  }

  /** So every listing and every lookup in an acyclic chain ends. */
  lemma AcyclicScanStops(v: Volume, first: nat, size: nat, component: Bytes)
    requires v.sectorsPerCluster > 0 && Acyclic(v, first)
    ensures ListingEnds(v, first, size) && LookupEnds(v, first, component)
  {
    hide Live, Acyclic, EntriesIn, MakeShortName;
    var bound := v.start + v.sectorCount + 3;
    AcyclicChainEnds(v, first);
    assert !ListsPast(v, first, size, bound);
    var made := MakeShortName(component);
    if made.Some? { assert !LooksPast(v, first, made.value, bound); }
  }

  // ---------------------------------------------------------------------------
  // Paths.

  datatype Resolved = RootDirectory | Directory(cluster: nat) | File(entry: DirectoryEntry)

  /** `path.split('/')` without the empty parts. */
  function Components(path: Bytes): seq<Bytes> {
    NonEmpty(Paths.Split(path))
  }

  function NonEmpty(parts: seq<Bytes>): seq<Bytes> {
    if parts == [] then [] else if parts[0] == [] then NonEmpty(parts[1..]) else [parts[0]] + NonEmpty(parts[1..])
  }

  /** Component after component: all but the last must be directories. */
  ghost predicate ResolvesTo(v: Volume, first: nat, parts: seq<Bytes>, r: Result<Resolved, StorageError>)
    requires v.sectorsPerCluster > 0
    decreases |parts|, 1
  {
    parts != [] && exists found: Result<DirectoryEntry, StorageError> ::
      LookupRight(v, first, parts[0], found) && Follows(v, found, parts, r)
  }

  ghost predicate Follows(v: Volume, found: Result<DirectoryEntry, StorageError>, parts: seq<Bytes>,
                          r: Result<Resolved, StorageError>)
    requires v.sectorsPerCluster > 0 && parts != []
    decreases |parts|, 0
  {
    match found
    case Err(e) => r == Err(e)
    case Ok(entry) =>
      if |parts| == 1 then r == Ok(if entry.isDirectory then Directory(entry.firstCluster) else File(entry))
      else if !entry.isDirectory then r == Err(FileNotFound)
      else ResolvesTo(v, entry.firstCluster, parts[1..], r)
  }

  /** Every lookup on the way ends: the first, and behind each directory it may find, the rest. */
  ghost predicate WalkEnds(v: Volume, first: nat, parts: seq<Bytes>)
    requires v.sectorsPerCluster > 0
    decreases |parts|
  {
    parts != [] ==>
      && LookupEnds(v, first, parts[0])
      && forall found: DirectoryEntry :: LookupRight(v, first, parts[0], Ok(found)) && found.isDirectory ==>
           WalkEnds(v, found.firstCluster, parts[1..])
  }

  ghost predicate ResolutionEnds(v: Volume, path: Bytes)
    requires v.sectorsPerCluster > 0
  {
    path != [] && path[0] == SLASH ==> WalkEnds(v, v.root, Components(path))
  }

  /** Exactly the resolutions that end have a right answer. */
  lemma {:induction false} WalkEndsIfAnswered(v: Volume, first: nat, parts: seq<Bytes>,
                                              r: Result<Resolved, StorageError>)
    requires v.sectorsPerCluster > 0 && ResolvesTo(v, first, parts, r)
    ensures WalkEnds(v, first, parts)
    decreases |parts|
  {
    hide LookupRight, LookupEnds;
    var found: Result<DirectoryEntry, StorageError> :|
      LookupRight(v, first, parts[0], found) && Follows(v, found, parts, r);
    LookupEndsIfAnswered(v, first, parts[0], found);
    forall other: DirectoryEntry | LookupRight(v, first, parts[0], Ok(other)) && other.isDirectory
      ensures WalkEnds(v, other.firstCluster, parts[1..])
    {
      LookupIsDetermined(v, first, parts[0], found, Ok(other));
      if |parts| > 1 { WalkEndsIfAnswered(v, other.firstCluster, parts[1..], r); }
    }
  }

  /** What an absolute path names. */
  ghost predicate Names(v: Volume, path: Bytes, r: Result<Resolved, StorageError>)
    requires v.sectorsPerCluster > 0
  {
    if path == [] || path[0] != SLASH then r == Err(PathNotAbsolute)
    else if Components(path) == [] then r == Ok(RootDirectory)
    else ResolvesTo(v, v.root, Components(path), r)
  }

  /** The volume determines what a path names. */
  lemma {:induction false} ResolutionIsDetermined(v: Volume, first: nat, parts: seq<Bytes>,
                                                  r: Result<Resolved, StorageError>,
                                                  r': Result<Resolved, StorageError>)
    requires v.sectorsPerCluster > 0 && ResolvesTo(v, first, parts, r) && ResolvesTo(v, first, parts, r')
    ensures r == r'
    decreases |parts|
  {
    hide LookupRight;
    var found: Result<DirectoryEntry, StorageError> :|
      LookupRight(v, first, parts[0], found) && Follows(v, found, parts, r);
    var found': Result<DirectoryEntry, StorageError> :|
      LookupRight(v, first, parts[0], found') && Follows(v, found', parts, r');
    LookupIsDetermined(v, first, parts[0], found, found');
    if found.Ok? && |parts| > 1 && found.value.isDirectory {
      ResolutionIsDetermined(v, found.value.firstCluster, parts[1..], r, r');
    }
  }

  /** Slashes alone have no components. */
  lemma {:induction false} SlashesAreTheRoot(path: Bytes)
    ensures (forall i :: 0 <= i < |path| ==> path[i] == SLASH) ==> Components(path) == []
  {
    if path != [] { SlashesAreTheRoot(path[1..]); }
  }

  method ResolveAbsolute(v: Volume, path: Bytes) returns (r: Result<Resolved, StorageError>)
    requires v.sectorsPerCluster > 0 && ResolutionEnds(v, path)
    ensures Names(v, path, r)
    ensures path == [] || path[0] != SLASH ==> r == Err(PathNotAbsolute)
    ensures path != [] && (forall i :: 0 <= i < |path| ==> path[i] == SLASH) ==> r == Ok(RootDirectory)
  {
    if path == [] || path[0] != SLASH { return Err(PathNotAbsolute); }
    SlashesAreTheRoot(path);
    var parts := Components(path);
    if parts == [] { return Ok(RootDirectory); }
    r := ResolveParts(v, v.root, parts);
  }

  /** The loop over the components, one lookup per turn. */
  method ResolveParts(v: Volume, first: nat, parts: seq<Bytes>) returns (r: Result<Resolved, StorageError>)
    requires v.sectorsPerCluster > 0 && parts != [] && WalkEnds(v, first, parts)
    ensures ResolvesTo(v, first, parts, r)
  {
    hide FoundRight, MakeShortName, LookupEnds, LookupRight;
    var cluster, index := first, 0;
    assert parts[0..] == parts;
    while true
      invariant index < |parts| && WalkEnds(v, cluster, parts[index..])
      invariant forall q: Result<Resolved, StorageError> :: ResolvesTo(v, cluster, parts[index..], q) ==>
                  ResolvesTo(v, first, parts, q)
      decreases |parts| - index
    {
      assert parts[index..][0] == parts[index] && parts[index..][1..] == parts[index + 1..];
      var found := FindInDirectory(v, cluster, parts[index]);
      if found.Err? {
        r := Err(found.error);
        assert Follows(v, found, parts[index..], r);
        return;
      }
      var entry := found.value;
      if index + 1 == |parts| {
        r := Ok(if entry.isDirectory then Directory(entry.firstCluster) else File(entry));
        assert Follows(v, found, parts[index..], r);
        return;
      }
      if !entry.isDirectory {
        r := Err(FileNotFound);
        assert Follows(v, found, parts[index..], r);
        return;
      }
      forall q: Result<Resolved, StorageError> | ResolvesTo(v, entry.firstCluster, parts[index + 1..], q)
        ensures ResolvesTo(v, first, parts, q)
      {
        assert Follows(v, found, parts[index..], q);
      }
      cluster, index := entry.firstCluster, index + 1;
    }
  }

  /** The directory a name leads into. */
  function Entered(v: Volume, named: Result<Resolved, StorageError>): Result<nat, StorageError> {
    match named
    case Err(e) => Err(e)
    case Ok(RootDirectory) => Ok(v.root)
    case Ok(Directory(cluster)) => Ok(cluster)
    case Ok(File(_)) => Err(NotADirectory)
  }

  method OpenAbsolute(v: Volume, path: Bytes) returns (r: Result<DirectoryEntry, StorageError>)
    requires v.sectorsPerCluster > 0 && ResolutionEnds(v, path)
    ensures exists named :: Names(v, path, named) &&
              match named
              case Err(e) => r == Err(e)
              case Ok(File(entry)) => r == Ok(entry)
              case Ok(_) => r == Err(NotAFile)
  {
    hide ResolutionEnds, Names;
    var resolved := ResolveAbsolute(v, path);
    if resolved.Err? { return Err(resolved.error); }
    if resolved.value.File? { return Ok(resolved.value.entry); }
    return Err(NotAFile);
  }

  method EnsureDir(v: Volume, path: Bytes) returns (r: Result<(), StorageError>)
    requires v.sectorsPerCluster > 0 && ResolutionEnds(v, path)
    ensures exists named :: Names(v, path, named) &&
              match named
              case Err(e) => r == Err(e)
              case Ok(File(_)) => r == Err(NotADirectory)
              case Ok(_) => r == Ok(())
  {
    hide ResolutionEnds, Names;
    var resolved := ResolveAbsolute(v, path);
    if resolved.Err? { return Err(resolved.error); }
    return if resolved.value.File? then Err(NotADirectory) else Ok(());
  }

  /** `read_dir`: the directory the path names, listed; a file is refused. */
  method ReadDir(v: Volume, path: Bytes, buffer: array<Byte>) returns (r: Result<nat, StorageError>)
    requires v.sectorsPerCluster > 0 && ResolutionEnds(v, path)
    requires forall named :: Names(v, path, named) && Entered(v, named).Ok? ==>
               ListingEnds(v, Entered(v, named).value, buffer.Length)
    modifies buffer
    ensures exists named :: Names(v, path, named) &&
              match named
              case Err(e) => r == Err(e) && buffer[..] == old(buffer[..])
              case Ok(File(_)) => r == Err(NotADirectory) && buffer[..] == old(buffer[..])
              case Ok(RootDirectory) => ListedRight(v, v.root, buffer[..], r)
              case Ok(Directory(cluster)) => ListedRight(v, cluster, buffer[..], r)
  {
    hide Names, ListedRight, ListingEnds, ResolutionEnds;
    var resolved := ResolveAbsolute(v, path);
    if resolved.Err? { return Err(resolved.error); }
    var start := v.root;
    match resolved.value {
      case RootDirectory =>
      case Directory(cluster) => start := cluster;
      case File(_) => return Err(NotADirectory);
    }
    r := ListDirectory(v, start, buffer);
  }

  // ---------------------------------------------------------------------------
  // Mounting.

  /** The boot sector, field by field. */
  function Mount(device: Device, start: nat, count: nat): (r: Result<Volume, StorageError>)
    ensures r.Ok? ==> 0 < r.value.sectorsPerCluster && 0 < r.value.reserved && start < r.value.firstData
  {
    var blank := Volume(device, start, count, 1, 1, 0, 0);
    var read := ReadSector(blank, start);
    if read.Err? then Err(read.error) else MountFrom(device, start, count, read.value)
  }

  function MountFrom(device: Device, start: nat, count: nat, b: Bytes): (r: Result<Volume, StorageError>)
    requires |b| == SECTOR_SIZE
    ensures r.Ok? ==> 0 < r.value.sectorsPerCluster && 0 < r.value.reserved && start < r.value.firstData
  {
    var total := if ReadLe(b, 19, 2) != 0 then ReadLe(b, 19, 2) else ReadLe(b, 32, 4);
    if ReadLe(b, 11, 2) != SECTOR_SIZE || b[13] == 0 || ReadLe(b, 14, 2) == 0 || b[16] == 0
       || ReadLe(b, 17, 2) != 0 || ReadLe(b, 22, 2) != 0 || ReadLe(b, 36, 4) == 0 then Err(InvalidFat32BootSector)
    else if total == 0 || total > count then Err(InvalidFat32BootSector)
    else Ok(Volume(device, start, count, b[13], ReadLe(b, 14, 2), ReadLe(b, 44, 4),
                   start + ReadLe(b, 14, 2) + b[16] * ReadLe(b, 36, 4)))
  }

  /** What a formatter decides (FAT32 specification, Boot Sector and BPB Structure). */
  datatype Geometry = Geometry(sectorsPerCluster: Byte, reserved: nat, fats: Byte, shortTotal: nat, total: nat,
      sectorsPerFat: nat, root: nat)

  ghost predicate Fields(g: Geometry) {
    g.reserved < 0x1_0000 && g.shortTotal < 0x1_0000 && g.total < 0x1_0000_0000 && g.sectorsPerFat < 0x1_0000_0000 &&
        g.root < 0x1_0000_0000
  }

  /** A boot sector of this geometry: the fields at their offsets, any bytes between them. */
  ghost predicate Formatted(g: Geometry, b: Bytes) {
    && |b| == SECTOR_SIZE
    && b[11..13] == ToLe(SECTOR_SIZE, 2) && b[13] == g.sectorsPerCluster && b[14..16] == ToLe(g.reserved, 2) &&
         b[16] == g.fats
    && b[17..19] == ToLe(0, 2) && b[19..21] == ToLe(g.shortTotal, 2) && b[22..24] == ToLe(0, 2)
    && b[32..36] == ToLe(g.total, 4) && b[36..40] == ToLe(g.sectorsPerFat, 4) && b[44..48] == ToLe(g.root, 4)
  }

  /** The 32-bit count of sectors counts only when the 16-bit one is zero. */
  function TotalOf(g: Geometry): nat {
    if g.shortTotal != 0 then g.shortTotal else g.total
  }

  /** Mounting reads back what was formatted, if and only if no count is zero and the volume fits
      the partition: reserved sectors, then the FATs, then the data. */
  lemma MountReadsBack(device: Device, start: nat, count: nat, g: Geometry, b: Bytes)
    requires device(start) == Some(b) && Formatted(g, b) && Fields(g)
    ensures Mount(device, start, count) ==
            if || g.sectorsPerCluster == 0 || g.reserved == 0 || g.fats == 0 || g.sectorsPerFat == 0
               || TotalOf(g) == 0 || TotalOf(g) > count
            then Err(InvalidFat32BootSector)
            else Ok(Volume(device, start, count, g.sectorsPerCluster, g.reserved, g.root,
                start + g.reserved + g.fats * g.sectorsPerFat))
  {
    hide FromLe, ToLe;
    SmallPowers();
    hide Power256;
    FromToLe(SECTOR_SIZE, 2);
    FromToLe(g.reserved, 2);
    FromToLe(0, 2);
    FromToLe(g.shortTotal, 2);
    FromToLe(g.total, 4);
    FromToLe(g.sectorsPerFat, 4);
    FromToLe(g.root, 4);
  }

  /** Nothing else is mounted. */
  lemma OnlyFormattedMounts(device: Device, start: nat, count: nat) returns (g: Geometry)
    requires Mount(device, start, count).Ok?
    ensures device(start).Some? && Formatted(g, device(start).value) && Fields(g)
  {
    hide ReadLe, ToLe;
    SmallPowers();
    hide Power256;
    var b := device(start).value;
    FieldOf(b, 11, 2);
    FieldOf(b, 14, 2);
    FieldOf(b, 17, 2);
    FieldOf(b, 19, 2);
    FieldOf(b, 22, 2);
    FieldOf(b, 32, 4);
    FieldOf(b, 36, 4);
    FieldOf(b, 44, 4);
    g := Geometry(b[13], ReadLe(b, 14, 2), b[16], ReadLe(b, 19, 2), ReadLe(b, 32, 4), ReadLe(b, 36, 4),
        ReadLe(b, 44, 4));
  }
}
