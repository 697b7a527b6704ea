// Files and directories as they lie on the device, sector by sector
// (kernel/kernel/src/storage/fat32.rs; Microsoft FAT32 specification, FAT Data
// Structure and FAT Directory Structure).
module FatLayouts {
  import opened Prelude
  import opened Words
  import opened ShortNames
  import opened Fat32s
  import Paths

  /** Sector `lba` of the device holds these 512 bytes. */
  ghost predicate Holds(device: Device, lba: nat, bytes: Bytes) {
    |bytes| == 512 && device(lba) == Some(bytes)
  }

  /** The four bytes of `cluster` in the table that starts at `fat`. */
  ghost predicate FatWord(device: Device, fat: nat, cluster: nat, word: nat) {
    var sector, at := device(fat + 4 * cluster / 512), 4 * cluster % 512;
    && sector.Some? && |sector.value| == 512 && at + 4 <= 512
    && word < 0x1_0000_0000 && sector.value[at..at + 4] == ToLe(word, 4)
  }

  /** The first of the cluster's sectors. */
  function DataSector(g: Geometry, start: nat, cluster: nat): int {
    start + g.reserved + g.fats * g.sectorsPerFat + (cluster - 2) * g.sectorsPerCluster
  }

  /** The partition at `start`, of `count` sectors, is a FAT32 volume of this geometry. */
  ghost predicate Partition(device: Device, start: nat, count: nat, g: Geometry) {
    && (exists b :: Holds(device, start, b) && Formatted(g, b)) && Fields(g)
    && 0 < g.sectorsPerCluster && 0 < g.reserved && 0 < g.fats && 0 < g.sectorsPerFat && 0 < TotalOf(g) <= count
  }

  /** Cluster `c` is in the partition, and its sectors hold these bytes. */
  ghost predicate ClusterHolds(device: Device, start: nat, count: nat, g: Geometry, c: nat, bytes: Bytes) {
    && 2 <= c && DataSector(g, start, c) < start + count && |bytes| == g.sectorsPerCluster * 512
    && forall i :: 0 <= i < g.sectorsPerCluster ==> SectorHolds(device, DataSector(g, start, c), i, bytes)
  }

  ghost predicate SectorHolds(device: Device, first: int, i: nat, bytes: Bytes) {
    0 <= first && 512 * i + 512 <= |bytes| && Holds(device, first + i, bytes[512 * i..512 * i + 512])
  }

  /** The clusters hold these pieces, and the table leads from each to the next; the top four bits of its
      entries mean nothing. */
  ghost predicate Chained(device: Device, start: nat, count: nat, g: Geometry, clusters: seq<nat>, pieces: seq<Bytes>) {
    && 0 < |clusters| == |pieces|
    && (forall i :: 0 <= i < |clusters| ==> ClusterHolds(device, start, count, g, clusters[i], pieces[i]))
    && (forall i :: 0 <= i < |clusters| - 1 ==> LeadsTo(device, start, g, clusters[i], clusters[i + 1]))
  }

  ghost predicate LeadsTo(device: Device, start: nat, g: Geometry, c: nat, next: nat) {
    && 2 <= next < 0xfff_fff7
    && exists top: nat :: top < 16 && FatWord(device, start + g.reserved, c, top * 0x1000_0000 + next)
  }

  function Together(pieces: seq<Bytes>): Bytes {
    if pieces == [] then [] else Together(pieces[..|pieces| - 1]) + pieces[|pieces| - 1]
  }

  // ---------------------------------------------------------------------------
  // The file allocation table.

  function VolumeOf(device: Device, start: nat, count: nat, g: Geometry): Volume {
    Volume(device, start, count, g.sectorsPerCluster, g.reserved, g.root,
        start + g.reserved + g.fats * g.sectorsPerFat)
  }

  lemma PartitionMounts(device: Device, start: nat, count: nat, g: Geometry)
    requires Partition(device, start, count, g)
    ensures Mount(device, start, count) == Ok(VolumeOf(device, start, count, g))
  {
    hide Mount, Formatted, Fields;
    var b :| Holds(device, start, b) && Formatted(g, b);
    MountReadsBack(device, start, count, g, b);
  }

  /** What the table's word of a cluster means: its low 28 bits are the next cluster, unless they are
      too small, mark a bad cluster, or end the chain. */
  lemma TableWordMeans(v: Volume, cluster: nat, word: nat)
    requires FatWord(v.device, v.start + v.reserved, cluster, word)
    ensures NextCluster(v, cluster) ==
            var next := word % 0x1000_0000;
            if next < 2 || next == 0xfff_fff7 then Err(InvalidFat32BootSector)
            else if 0xfff_fff8 <= next then Err(FileNotFound)
            else Ok(next)
  {
    hide ToLe, ReadLe;
    SmallPowers();
    hide Power256;
    var sector := v.device(v.start + v.reserved + 4 * cluster / 512).value;
    FieldIs(sector, 4 * cluster % 512, 4, word);
  }

  lemma LeadsToNext(v: Volume, g: Geometry, c: nat, next: nat)
    requires v == VolumeOf(v.device, v.start, v.sectorCount, g) && LeadsTo(v.device, v.start, g, c, next)
    ensures NextCluster(v, c) == Ok(next)
  {
    hide NextCluster, FatWord;
    var top: nat :| top < 16 && FatWord(v.device, v.start + g.reserved, c, top * 0x1000_0000 + next);
    TableWordMeans(v, c, top * 0x1000_0000 + next);
  }

  /** On this volume, a chain of clusters that hold these pieces. */
  ghost predicate Stored(v: Volume, g: Geometry, clusters: seq<nat>, pieces: seq<Bytes>) {
    && v == VolumeOf(v.device, v.start, v.sectorCount, g) && 0 < g.sectorsPerCluster
    && Chained(v.device, v.start, v.sectorCount, g, clusters, pieces)
  }

  lemma {:induction false} NthOfChain(v: Volume, g: Geometry, clusters: seq<nat>, pieces: seq<Bytes>, k: nat)
    requires Stored(v, g, clusters, pieces)
    requires k < |clusters|
    ensures NthCluster(v, clusters[0], k) == Ok(clusters[k])
  {
    hide NextCluster, LeadsTo, ClusterHolds;
    if k > 0 {
      NthOfChain(v, g, clusters, pieces, k - 1);
      LeadsToNext(v, g, clusters[k - 1], clusters[k]);
    }
  }

  // ---------------------------------------------------------------------------
  // Chains read back.

  lemma SectorOfCluster(v: Volume, g: Geometry, c: nat, bytes: Bytes, i: nat)
    requires v == VolumeOf(v.device, v.start, v.sectorCount, g) && i < g.sectorsPerCluster
    requires ClusterHolds(v.device, v.start, v.sectorCount, g, c, bytes)
    ensures 512 * i + 512 <= |bytes|
    ensures ClusterSector(v, c, i) == Ok(bytes[512 * i..512 * i + 512])
  {
    assert SectorHolds(v.device, DataSector(g, v.start, c), i, bytes);
  }

  lemma {:induction false} TogetherSize(pieces: seq<Bytes>, size: nat)
    requires forall i :: 0 <= i < |pieces| ==> |pieces[i]| == size
    ensures |Together(pieces)| == |pieces| * size
    decreases |pieces|
  {
    if pieces != [] { TogetherSize(pieces[..|pieces| - 1], size); }
  }

  lemma {:induction false} TogetherAt(pieces: seq<Bytes>, c: nat)
    requires c < |pieces|
    ensures var at := |Together(pieces[..c])|;
            at + |pieces[c]| <= |Together(pieces)| && Together(pieces)[at..at + |pieces[c]|] == pieces[c]
    decreases |pieces|
  {
    var n := |pieces| - 1;
    var front := pieces[..n];
    assert Together(pieces) == Together(front) + pieces[n];
    hide Together;
    if c < n {
      TogetherAt(front, c);
      assert front[..c] == pieces[..c];
      InFront(Together(front), pieces[n], |Together(pieces[..c])|, |Together(pieces[..c])| + |pieces[c]|);
    } else {
      InBack(Together(front), pieces[n], 0, |pieces[n]|);
      assert pieces[n][0..|pieces[n]|] == pieces[n];
    }
  }

  lemma InFront(a: Bytes, b: Bytes, from: nat, to: nat)
    requires from <= to <= |a|
    ensures (a + b)[from..to] == a[from..to]
  {
  }

  lemma InBack(a: Bytes, b: Bytes, from: nat, to: nat)
    requires from <= to <= |b|
    ensures (a + b)[|a| + from..|a| + to] == b[from..to]
  {
  }

  /** Sector `i` of the chain's cluster number `c`. */
  lemma SectorOfChain(v: Volume, g: Geometry, clusters: seq<nat>, pieces: seq<Bytes>, c: nat, i: nat, k: nat)
    requires Stored(v, g, clusters, pieces) && c < |clusters| && i < g.sectorsPerCluster
    requires k == c * g.sectorsPerCluster + i
    ensures 512 * k + 512 <= |Together(pieces)|
    ensures NthSector(v, clusters[0], k) == Ok(Together(pieces)[512 * k..512 * k + 512])
  {
    NthOfChain(v, g, clusters, pieces, c);
    SectorAt(v, clusters[0], c, i);
    assert ClusterHolds(v.device, v.start, v.sectorCount, g, clusters[c], pieces[c]);
    SectorOfCluster(v, g, clusters[c], pieces[c], i);
    PieceSizes(v, g, clusters, pieces);
    hide NthSector, NthCluster, ClusterSector, Stored, Together, ClusterHolds;
    TogetherSize(pieces[..c], g.sectorsPerCluster * 512);
    Regroup(c, g.sectorsPerCluster);
    TogetherAt(pieces, c);
    var at := |Together(pieces[..c])|;
    assert 512 * k == at + 512 * i;
    SliceOfSlice(Together(pieces), at, |pieces[c]|, 512 * i, 512);
  }

  lemma Regroup(c: nat, n: nat)
    ensures c * (n * 512) == 512 * (c * n)
  {
  }

  lemma PieceSizes(v: Volume, g: Geometry, clusters: seq<nat>, pieces: seq<Bytes>)
    requires Stored(v, g, clusters, pieces)
    ensures forall j :: 0 <= j < |pieces| ==> |pieces[j]| == g.sectorsPerCluster * 512
  {
    hide LeadsTo, SectorHolds;
    forall j | 0 <= j < |pieces| ensures |pieces[j]| == g.sectorsPerCluster * 512 {
      assert ClusterHolds(v.device, v.start, v.sectorCount, g, clusters[j], pieces[j]);
    }
  }

  /** Every sector of a stored chain is read as stored. */
  lemma ChainReads(v: Volume, g: Geometry, clusters: seq<nat>, pieces: seq<Bytes>, k: nat)
    requires Stored(v, g, clusters, pieces) && 512 * k < |Together(pieces)|
    ensures 512 * k + 512 <= |Together(pieces)|
    ensures NthSector(v, clusters[0], k) == Ok(Together(pieces)[512 * k..512 * k + 512])
  {
    hide NthSector, Together, Stored;
    StoredSize(v, g, clusters, pieces);
    PlaceOf(k, g.sectorsPerCluster, |clusters|);
    SectorOfChain(v, g, clusters, pieces, k / g.sectorsPerCluster, k % g.sectorsPerCluster, k);
  }

  lemma StoredSize(v: Volume, g: Geometry, clusters: seq<nat>, pieces: seq<Bytes>)
    requires Stored(v, g, clusters, pieces)
    ensures |clusters| == |pieces| && 0 < g.sectorsPerCluster
    ensures |Together(pieces)| == |clusters| * (g.sectorsPerCluster * 512)
  {
    PieceSizes(v, g, clusters, pieces);
    TogetherSize(pieces, g.sectorsPerCluster * 512);
  }

  /** Sector `k` is one of cluster `k / n`. */
  lemma PlaceOf(k: nat, n: nat, clusters: nat)
    requires 0 < n && 512 * k < clusters * (n * 512)
    ensures k / n < clusters && k % n < n && k == k / n * n + k % n
  {
    Regroup(clusters, n);
    Quotients(k, n);
    Smaller(k / n, clusters, n);
  }

  lemma Quotients(k: nat, n: nat)
    requires 0 < n
    ensures k / n * n + k % n == k
  {
  }

  lemma Smaller(a: nat, b: nat, n: nat)
    requires a * n < b * n
    ensures a < b
  {
  }

  // ---------------------------------------------------------------------------
  // Files.

  lemma {:induction false} SectorsAreStored(v: Volume, g: Geometry, clusters: seq<nat>, pieces: seq<Bytes>, n: nat)
    requires Stored(v, g, clusters, pieces) && 512 * n <= |Together(pieces)|
    ensures Readable(v, clusters[0], n)
    ensures Sectors(v, clusters[0], n) == Together(pieces)[..512 * n]
  {
    hide Stored, NthSector, Together;
    assert 0 < |clusters| && 0 < v.sectorsPerCluster by { StoredParts(v, g, clusters, pieces); }
    if n > 0 {
      SectorsAreStored(v, g, clusters, pieces, n - 1);
      ChainReads(v, g, clusters, pieces, n - 1);
      var all := Together(pieces);
      assert all[..512 * n] == all[..512 * (n - 1)] + all[512 * (n - 1)..512 * n];
    }
  }

  lemma StoredParts(v: Volume, g: Geometry, clusters: seq<nat>, pieces: seq<Bytes>)
    requires Stored(v, g, clusters, pieces)
    ensures 0 < |clusters| && v.sectorsPerCluster == g.sectorsPerCluster && 0 < v.sectorsPerCluster
  {
  }

  /** A file stored in a chain of clusters is read as what is stored there, cut at its size. */
  lemma StoredFileReads(v: Volume, g: Geometry, clusters: seq<nat>, pieces: seq<Bytes>, size: nat)
    requires Stored(v, g, clusters, pieces) && size <= |Together(pieces)|
    ensures v.sectorsPerCluster > 0 && Readable(v, clusters[0], SectorsFor(size))
    ensures size <= SectorsFor(size) * 512
    ensures Sectors(v, clusters[0], SectorsFor(size))[..size] == Together(pieces)[..size]
  {
    hide Stored, NthSector, Together, Readable, Sectors;
    StoredParts(v, g, clusters, pieces);
    StoredSize(v, g, clusters, pieces);
    WholeSectors(size, |clusters|, g.sectorsPerCluster);
    SectorsAreStored(v, g, clusters, pieces, SectorsFor(size));
  }

  lemma WholeSectors(size: nat, clusters: nat, n: nat)
    requires size <= clusters * (n * 512)
    ensures 512 * SectorsFor(size) <= clusters * (n * 512) && size <= SectorsFor(size) * 512
  {
    Regroup(clusters, n);
  }

  /** Where the table ends the chain behind its last cluster, a file that claims more cannot be read. */
  lemma ChainStopsThere(v: Volume, g: Geometry, clusters: seq<nat>, pieces: seq<Bytes>, word: nat)
    requires Stored(v, g, clusters, pieces)
    requires FatWord(v.device, v.start + v.reserved, clusters[|clusters| - 1], word)
    requires 0xfff_fff8 <= word % 0x1000_0000
    ensures v.sectorsPerCluster > 0
    ensures NthSector(v, clusters[0], |clusters| * v.sectorsPerCluster) == Err(FileNotFound)
  {
    hide NextCluster, FatWord;
    var n := |clusters|;
    NthOfChain(v, g, clusters, pieces, n - 1);
    TableWordMeans(v, clusters[n - 1], word);
    SectorAt(v, clusters[0], n, 0);
    assert n * v.sectorsPerCluster + 0 == n * v.sectorsPerCluster;
  }

  // ---------------------------------------------------------------------------
  // Directories.

  /** Entry `j` of a stored directory is its bytes from 32 * j on. */
  lemma EntryIsStored(v: Volume, g: Geometry, clusters: seq<nat>, pieces: seq<Bytes>, j: nat)
    requires Stored(v, g, clusters, pieces) && 32 * j < |Together(pieces)|
    ensures v.sectorsPerCluster > 0 && 32 * j + 32 <= |Together(pieces)|
    ensures EntryAt(v, clusters[0], j) == Ok(Together(pieces)[32 * j..32 * j + 32])
  {
    hide Stored, NthSector, Together;
    StoredParts(v, g, clusters, pieces);
    var k, t := j / 16, j % 16;
    ChainReads(v, g, clusters, pieces, k);
    SliceOfSlice(Together(pieces), 512 * k, 512, 32 * t, 32);
  }

  /** A directory entry for a name: attributes, first cluster in two halves, size. */
  ghost predicate EntryLaid(e: Bytes, name: Bytes, attributes: Byte, cluster: nat, size: nat) {
    && |e| == 32 && |name| == 11 && e[0..11] == name && e[11] == attributes
    && cluster < 0x1_0000_0000 && e[20..22] == ToLe(cluster / 0x1_0000, 2) && e[26..28] == ToLe(cluster % 0x1_0000, 2)
    && size < 0x1_0000_0000 && e[28..32] == ToLe(size, 4)
  }

  /** Neither the end marker, nor deleted, nor a volume label or a piece of a long name. */
  predicate Shown(name: Bytes, attributes: Byte)
    requires |name| == 11
  {
    name[0] != 0 && name[0] != 0xe5 && attributes / 8 % 2 == 0
  }

  lemma EntryReads(e: Bytes, name: Bytes, attributes: Byte, cluster: nat, size: nat)
    requires EntryLaid(e, name, attributes, cluster, size)
    ensures ParseEntry(e) == DirectoryEntry(cluster, size, attributes / 16 % 2 == 1)
    ensures NameOf(e) == name && (Visible(e) <==> Shown(name, attributes)) && (e[0] == 0 <==> name[0] == 0)
  {
    hide ReadLe, ToLe;
    assert e[0] == e[0..11][0];
    SmallPowers();
    hide Power256;
    FieldIs(e, 20, 2, cluster / 0x1_0000);
    FieldIs(e, 26, 2, cluster % 0x1_0000);
    FieldIs(e, 28, 4, size);
  }

  /** An entry that is not in the way of a search for a name: no end marker, and another name or not shown. */
  ghost predicate PassedOver(e: Bytes, short: Bytes) {
    |e| == 32 && |short| == 11 && e[0] != 0 && (e[0..11] == short ==> !Shown(short, e[11]))
  }

  /** What a component names in a directory is the first shown entry with its short name. */
  lemma StoredEntryIsFound(v: Volume, g: Geometry, clusters: seq<nat>, pieces: seq<Bytes>, component: Bytes, j: nat,
                           attributes: Byte, cluster: nat, size: nat)
    requires Stored(v, g, clusters, pieces) && MakeShortName(component).Some? && 32 * j + 32 <= |Together(pieces)|
    requires var short := MakeShortName(component).value;
             && |short| == 11 && Shown(short, attributes)
             && EntryLaid(Together(pieces)[32 * j..32 * j + 32], short, attributes, cluster, size)
             && forall i :: 0 <= i < j ==> PassedOver(Together(pieces)[32 * i..32 * i + 32], short)
    ensures v.sectorsPerCluster > 0
    ensures LookupRight(v, clusters[0], component, Ok(DirectoryEntry(cluster, size, attributes / 16 % 2 == 1)))
  {
    hide Stored, EntryAt, Together, EntryLaid, MakeShortName, ParseEntry, Shown, PassedOver;
    StoredParts(v, g, clusters, pieces);
    var first, short := clusters[0], MakeShortName(component).value;
    EntryIsStored(v, g, clusters, pieces, j);
    EntryReads(Together(pieces)[32 * j..32 * j + 32], short, attributes, cluster, size);
    assert EntryAt(v, first, j).value[0] != 0 by { FirstShown(short, attributes); }
    forall i | 0 <= i < j
      ensures EntryAt(v, first, i).Ok? && EntryAt(v, first, i).value[0] != 0
      ensures !Matches(EntryAt(v, first, i).value, short)
    {
      EntryIsStored(v, g, clusters, pieces, i);
      PassedDoesNotMatch(Together(pieces)[32 * i..32 * i + 32], short);
    }
    assert FirstMatch(v, first, short, j);
  }

  lemma FirstShown(name: Bytes, attributes: Byte)
    requires |name| == 11 && Shown(name, attributes)
    ensures name[0] != 0
  {
  }

  lemma PassedDoesNotMatch(e: Bytes, short: Bytes)
    requires PassedOver(e, short)
    ensures |e| == 32 && e[0] != 0 && !Matches(e, short)
  {
    assert e[0] == e[0..11][0];
  }

  /** What a directory entry is for: a component under which it can be looked up, or nothing a listing shows. */
  datatype Item = Named(component: Bytes, attributes: Byte, cluster: nat, size: nat) | Unlisted

  ghost predicate ItemsLaid(data: Bytes, items: seq<Item>) {
    && 32 * |items| + 32 <= |data|
    && forall j :: 0 <= j < |items| ==> ItemLaid(data, j, items[j])
  }

  ghost predicate ItemLaid(data: Bytes, j: nat, item: Item) {
    && 32 * j + 32 <= |data|
    && match item
       case Named(component, attributes, cluster, size) => NameLaid(data[32 * j..32 * j + 32], item)
       case Unlisted => NotListed(data[32 * j..32 * j + 32])
  }

  ghost predicate NameLaid(e: Bytes, item: Item)
    requires item.Named?
  {
    && MakeShortName(item.component).Some?
    && EntryLaid(e, MakeShortName(item.component).value, item.attributes, item.cluster, item.size)
  }

  /** A deleted entry, a volume label or a piece of a long name, or one of the two dot entries. */
  ghost predicate NotListed(e: Bytes) {
    && |e| == 32 && e[0] != 0
    && (|| e[0] == 0xe5 || e[11] / 8 % 2 == 1
        || e[0..11] == [46, 32, 32, 32, 32, 32, 32, 32, 32, 32, 32]
        || e[0..11] == [46, 46, 32, 32, 32, 32, 32, 32, 32, 32, 32])
  }

  /** The line of a name that is no volume label: its component in upper case. */
  function LineOf(item: Item): Bytes {
    if item.Named? && item.attributes / 8 % 2 == 0 then Upper(item.component) + [10] else []
  }

  function Lines(items: seq<Item>): Bytes {
    if items == [] then [] else Lines(items[..|items| - 1]) + LineOf(items[|items| - 1])
  }

  lemma DotsAreNotListed(e: Bytes, dots: nat)
    requires |e| == 32 && 1 <= dots <= 2
    requires (forall i :: 0 <= i < dots ==> e[i] == 46) && forall i :: dots <= i < 11 ==> e[i] == 32
    ensures ListLine(e) == []
  {
    var base, extension := NameOf(e)[..8], NameOf(e)[8..];
    assert TrimmedLen(base) == dots by { assert base[dots - 1] != SPACE; }
    assert TrimmedLen(extension) == 0;
    assert Display(NameOf(e)) == base[..dots];
    assert dots == 1 ==> base[..dots] == [DOT];
    assert dots == 2 ==> base[..dots] == [DOT, DOT];
  }

  lemma UnlistedHasNoLine(e: Bytes)
    requires NotListed(e)
    ensures ListLine(e) == []
  {
    hide Display;
    var name := e[0..11];
    assert forall i :: 0 <= i < 11 ==> name[i] == e[i];
    if name == [46, 32, 32, 32, 32, 32, 32, 32, 32, 32, 32] {
      DotsAreNotListed(e, 1);
    } else if name == [46, 46, 32, 32, 32, 32, 32, 32, 32, 32, 32] {
      DotsAreNotListed(e, 2);
    }
  }

  lemma LineOfItem(data: Bytes, j: nat, item: Item)
    requires ItemLaid(data, j, item)
    ensures var e := data[32 * j..32 * j + 32]; |e| == 32 && e[0] != 0 && ListLine(e) == LineOf(item)
  {
    hide NotListed, NameLaid, ListLine;
    if item.Named? {
      LineOfName(data[32 * j..32 * j + 32], item);
    } else {
      UnlistedHasNoLine(data[32 * j..32 * j + 32]);
      UnlistedIsLive(data[32 * j..32 * j + 32]);
    }
  }

  lemma UnlistedIsLive(e: Bytes)
    requires NotListed(e)
    ensures |e| == 32 && e[0] != 0
  {
  }

  lemma LineOfName(e: Bytes, item: Item)
    requires item.Named? && NameLaid(e, item)
    ensures |e| == 32 && e[0] != 0 && ListLine(e) == LineOf(item)
  {
    hide Display, Upper, EntryLaid, ParseEntry;
    var short := MakeShortName(item.component).value;
    assert |e| == 32 && |short| == 11 by { LaidSizes(e, short, item); }
    EntryReads(e, short, item.attributes, item.cluster, item.size);
    DisplayOfMade(item.component);
    MadeStarts(item.component);
    hide MakeShortName;
  }

  lemma LaidSizes(e: Bytes, short: Bytes, item: Item)
    requires item.Named? && EntryLaid(e, short, item.attributes, item.cluster, item.size)
    ensures |e| == 32 && |short| == 11
  {
  }

  /** A made name starts with a character, and is not displayed as a dot. */
  lemma MadeStarts(component: Bytes)
    requires MakeShortName(component).Some?
    ensures var short := MakeShortName(component).value; short[0] != 0 && short[0] != 0xe5
    ensures !IsDotName(Upper(component))
  {
    var base := component[..DotFrom(component, 0)];
    assert NormalizeByte(base[0]).Some?;
    assert Upper(component)[0] == ToUpper(component[0]);
  }

  lemma NoLines()
    ensures Lines([]) == []
  {
  }

  lemma LinesPush(items: seq<Item>, n: nat)
    requires 0 < n <= |items|
    ensures Lines(items[..n]) == Lines(items[..n - 1]) + LineOf(items[n - 1])
  {
    assert items[..n][..n - 1] == items[..n - 1];
  }

  /** A stored directory is listed item by item. */
  lemma {:induction false} StoredDirectoryLists(v: Volume, g: Geometry, clusters: seq<nat>, pieces: seq<Bytes>,
                                                items: seq<Item>, n: nat)
    requires Stored(v, g, clusters, pieces) && ItemsLaid(Together(pieces), items) && n <= |items|
    ensures v.sectorsPerCluster > 0 && Live(v, clusters[0], n)
    ensures Listing(v, clusters[0], n) == Lines(items[..n])
    ensures Together(pieces)[32 * n] == 0 ==> EndsAt(v, clusters[0], n)
  {
    hide Stored, EntryAt, Together, ItemLaid, ListLine, LineOf, Lines;
    StoredParts(v, g, clusters, pieces);
    EntryIsStored(v, g, clusters, pieces, n);
    if n == 0 {
      assert items[..0] == [];
      NoLines();
    } else {
      StoredDirectoryLists(v, g, clusters, pieces, items, n - 1);
      EntryIsStored(v, g, clusters, pieces, n - 1);
      LineOfItem(Together(pieces), n - 1, items[n - 1]);
      LinesPush(items, n);
    }
  }

  // ---------------------------------------------------------------------------
  // From the path to the bytes.

  /** A directory stored from `first` on has an entry for the component, the first shown one of its name. */
  ghost predicate DirectoryHas(v: Volume, g: Geometry, first: nat, component: Bytes, e: DirectoryEntry) {
    exists clusters, pieces, j: nat, attributes ::
      EntryStored(v, g, clusters, pieces, first, component, j, attributes, e)
  }

  ghost predicate EntryStored(v: Volume, g: Geometry, clusters: seq<nat>, pieces: seq<Bytes>, first: nat,
                              component: Bytes, j: nat, attributes: Byte, e: DirectoryEntry) {
    && Stored(v, g, clusters, pieces) && clusters[0] == first
    && MakeShortName(component).Some? && 32 * j + 32 <= |Together(pieces)|
    && var short := MakeShortName(component).value;
       && |short| == 11 && Shown(short, attributes) && e.isDirectory == (attributes / 16 % 2 == 1)
       && EntryLaid(Together(pieces)[32 * j..32 * j + 32], short, attributes, e.firstCluster, e.size)
       && forall i :: 0 <= i < j ==> PassedOver(Together(pieces)[32 * i..32 * i + 32], short)
  }

  /** From the directory at `first`, the components lead to this entry, through directories. */
  ghost predicate PathLeads(v: Volume, g: Geometry, first: nat, parts: seq<Bytes>, e: DirectoryEntry)
    decreases |parts|
  {
    && parts != []
    && if |parts| == 1 then DirectoryHas(v, g, first, parts[0], e)
       else exists d: DirectoryEntry ::
              && d.isDirectory && DirectoryHas(v, g, first, parts[0], d)
              && PathLeads(v, g, d.firstCluster, parts[1..], e)
  }

  lemma StoredIsLookedUp(v: Volume, g: Geometry, first: nat, component: Bytes, e: DirectoryEntry)
    requires DirectoryHas(v, g, first, component, e)
    ensures v.sectorsPerCluster > 0 && LookupRight(v, first, component, Ok(e))
  {
    hide Stored, EntryLaid, MakeShortName, Shown, PassedOver, Together, LookupRight;
    var clusters, pieces, j: nat, attributes :|
      EntryStored(v, g, clusters, pieces, first, component, j, attributes, e);
    StoredEntryIsFound(v, g, clusters, pieces, component, j, attributes, e.firstCluster, e.size);
  }

  lemma {:induction false} StoredPathResolves(v: Volume, g: Geometry, first: nat, parts: seq<Bytes>, e: DirectoryEntry)
    requires PathLeads(v, g, first, parts, e)
    ensures v.sectorsPerCluster > 0
    ensures ResolvesTo(v, first, parts, Ok(if e.isDirectory then Directory(e.firstCluster) else File(e)))
    decreases |parts|
  {
    hide DirectoryHas, LookupRight;
    if |parts| == 1 {
      StoredIsLookedUp(v, g, first, parts[0], e);
      assert Follows(v, Ok(e), parts, Ok(if e.isDirectory then Directory(e.firstCluster) else File(e)));
    } else {
      var d: DirectoryEntry :| d.isDirectory && DirectoryHas(v, g, first, parts[0], d)
                               && PathLeads(v, g, d.firstCluster, parts[1..], e);
      StoredIsLookedUp(v, g, first, parts[0], d);
      StoredPathResolves(v, g, d.firstCluster, parts[1..], e);
      assert Follows(v, Ok(d), parts, Ok(if e.isDirectory then Directory(e.firstCluster) else File(e)));
    }
  }

  /** A stored directory whose end marker comes before any shown entry for the component. */
  ghost predicate DirectoryLacks(v: Volume, g: Geometry, first: nat, component: Bytes) {
    exists clusters, pieces, n: nat :: EndsWithout(v, g, clusters, pieces, first, component, n)
  }

  ghost predicate EndsWithout(v: Volume, g: Geometry, clusters: seq<nat>, pieces: seq<Bytes>, first: nat,
                              component: Bytes, n: nat) {
    && Stored(v, g, clusters, pieces) && clusters[0] == first
    && MakeShortName(component).Some? && 32 * n + 32 <= |Together(pieces)| && Together(pieces)[32 * n] == 0
    && forall i :: 0 <= i < n ==> PassedOver(Together(pieces)[32 * i..32 * i + 32], MakeShortName(component).value)
  }

  lemma MissingIsNotFound(v: Volume, g: Geometry, first: nat, component: Bytes)
    requires DirectoryLacks(v, g, first, component)
    ensures v.sectorsPerCluster > 0 && LookupRight(v, first, component, Err(FileNotFound))
  {
    hide Stored, EntryAt, Together, MakeShortName, PassedOver;
    var clusters, pieces, n: nat :| EndsWithout(v, g, clusters, pieces, first, component, n);
    var short := MakeShortName(component).value;
    StoredParts(v, g, clusters, pieces);
    EntryIsStored(v, g, clusters, pieces, n);
    forall i | 0 <= i < n
      ensures EntryAt(v, first, i).Ok? && EntryAt(v, first, i).value[0] != 0
      ensures !Matches(EntryAt(v, first, i).value, short)
    {
      EntryIsStored(v, g, clusters, pieces, i);
      PassedDoesNotMatch(Together(pieces)[32 * i..32 * i + 32], short);
    }
    assert Live(v, first, n) && Absent(v, first, short, n) && EndsAt(v, first, n);
  }

  /** Whether a path of components leads nowhere: to a component that is no name, to one that its directory
      does not have, or through a file. */
  ghost predicate PathStops(v: Volume, g: Geometry, first: nat, parts: seq<Bytes>, e: StorageError)
    decreases |parts|
  {
    && parts != []
    && (|| (MakeShortName(parts[0]).None? && e == InvalidShortName)
        || (DirectoryLacks(v, g, first, parts[0]) && e == FileNotFound)
        || (exists d: DirectoryEntry ::
              && DirectoryHas(v, g, first, parts[0], d) && |parts| > 1
              && if d.isDirectory then PathStops(v, g, d.firstCluster, parts[1..], e) else e == FileNotFound))
  }

  lemma {:induction false} StoppedPathFails(v: Volume, g: Geometry, first: nat, parts: seq<Bytes>, e: StorageError)
    requires v.sectorsPerCluster > 0 && PathStops(v, g, first, parts, e)
    ensures ResolvesTo(v, first, parts, Err(e))
    decreases |parts|
  {
    hide DirectoryHas, DirectoryLacks, LookupRight, MakeShortName;
    if MakeShortName(parts[0]).None? && e == InvalidShortName {
      NoNameIsRefused(v, first, parts[0]);
      assert Follows(v, Err(e), parts, Err(e));
    } else if DirectoryLacks(v, g, first, parts[0]) && e == FileNotFound {
      MissingIsNotFound(v, g, first, parts[0]);
      assert Follows(v, Err(e), parts, Err(e));
    } else {
      var d: DirectoryEntry :|
        && DirectoryHas(v, g, first, parts[0], d) && |parts| > 1
        && if d.isDirectory then PathStops(v, g, d.firstCluster, parts[1..], e) else e == FileNotFound;
      StoredIsLookedUp(v, g, first, parts[0], d);
      if d.isDirectory { StoppedPathFails(v, g, d.firstCluster, parts[1..], e); }
      assert Follows(v, Ok(d), parts, Err(e));
    }
  }

  lemma NoNameIsRefused(v: Volume, first: nat, component: Bytes)
    requires v.sectorsPerCluster > 0 && MakeShortName(component).None?
    ensures LookupRight(v, first, component, Err(InvalidShortName))
  {
  }

  /** Where a partition holds a file under this path, it mounts, the path is found to name the file, and
      reading it gives the bytes that are stored. */
  lemma StoredFileIsRead(device: Device, start: nat, count: nat, g: Geometry, path: Bytes, e: DirectoryEntry,
                         clusters: seq<nat>, pieces: seq<Bytes>)
    requires Partition(device, start, count, g) && path != [] && path[0] == SLASH
    requires var v := VolumeOf(device, start, count, g);
             && PathLeads(v, g, g.root, Components(path), e) && !e.isDirectory
             && Stored(v, g, clusters, pieces) && clusters[0] == e.firstCluster && e.size <= |Together(pieces)|
    ensures var v := VolumeOf(device, start, count, g);
            && Mount(device, start, count) == Ok(v) && v.sectorsPerCluster > 0
            && ResolutionEnds(v, path) && Names(v, path, Ok(File(e)))
            && Readable(v, e.firstCluster, SectorsFor(e.size)) && e.size <= SectorsFor(e.size) * 512
            && Sectors(v, e.firstCluster, SectorsFor(e.size))[..e.size] == Together(pieces)[..e.size]
  {
    hide Partition, Stored, Mount, Together, Sectors, Readable, SectorsFor, ResolvesTo, WalkEnds;
    var v := VolumeOf(device, start, count, g);
    PartitionMounts(device, start, count, g);
    StoredPathResolves(v, g, g.root, Components(path), e);
    WalkEndsIfAnswered(v, v.root, Components(path), Ok(File(e)));
    StoredFileReads(v, g, clusters, pieces, e.size);
  }

  /** What a path is cut into: at every slash, without the empty pieces. */
  lemma ComponentsAre(a: Bytes, b: Bytes)
    ensures Components([]) == []
    ensures Components(a + [0x2f] + b) == Components(a) + Components(b)
    ensures a != [] && 0x2f !in a ==> Components(a) == [a]
  {
    Paths.SplitConcat(a, b);
    NonEmptyConcat(Paths.Split(a), Paths.Split(b));
    if a != [] && 0x2f !in a {
      Paths.SplitSimple(a);
      NothingEmpty([a]);
    }
  }

  lemma {:induction false} NonEmptyConcat(a: seq<Bytes>, b: seq<Bytes>)
    ensures NonEmpty(a + b) == NonEmpty(a) + NonEmpty(b)
  {
    if a == [] {
      assert a + b == b;
    } else {
      assert (a + b)[1..] == a[1..] + b;
      NonEmptyConcat(a[1..], b);
    }
  }

  /** The components of a normalized path are those it was rendered from. */
  lemma ComponentsOfNormal(stack: Paths.Stack)
    requires Paths.ProperStack(stack)
    ensures Components(Paths.Render(stack)) == stack
  {
    if stack == [] {
      var parts: seq<Bytes> := [[], []];
      assert Paths.Split([SLASH]) == parts;
      assert parts[1..] == [[]];
      assert NonEmpty([[]]) == [];
    } else {
      Paths.SplitJoined(stack);
      assert ([[]] + stack)[1..] == stack;
      NothingEmpty(stack);
    }
  }

  lemma {:induction false} NothingEmpty(parts: seq<Bytes>)
    requires forall i :: 0 <= i < |parts| ==> parts[i] != []
    ensures NonEmpty(parts) == parts
  {
    if parts != [] { NothingEmpty(parts[1..]); }
  }
}
