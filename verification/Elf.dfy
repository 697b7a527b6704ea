// libs/elf/src/lib.rs: the shared ELF64 parser.
module Elf {
  import opened Prelude
  import opened Words

  const PT_LOAD: nat := 1
  const PF_W: nat := 2
  const HEADER_SIZE: nat := 64
  const PROGRAM_HEADER_SIZE: nat := 56
  const ELF_CLASS_64: nat := 2
  const ELF_DATA_LE: nat := 1
  const ELF_TYPE_EXECUTABLE: nat := 2
  const ELF_MACHINE_X86_64: nat := 0x3e

  datatype ElfError =
    | HeaderTooSmall | InvalidMagic | UnsupportedClass | UnsupportedEncoding | UnsupportedType | UnsupportedMachine
    | UnsupportedVersion | ProgramHeaderTruncated | ProgramHeaderTableOutOfRange | SegmentExtendsPastFile
    | AddressOutOfRange

  datatype ElfHeader = ElfHeader(entry: nat, tableOffset: nat, entrySize: nat, count: nat)

  datatype ProgramHeader = ProgramHeader(
    kind: nat, flags: nat, offset: nat, virtualAddress: nat, fileSize: nat, memorySize: nat)
  {
    /** The bytes of the file this segment is filled from. */
    function FileRange(fileLength: nat): Result<(nat, nat), ElfError> {
      if offset + fileSize > U64_MAX then Err(AddressOutOfRange)
      else if offset + fileSize > fileLength then Err(SegmentExtendsPastFile)
      else Ok((offset, offset + fileSize))
    }

    predicate IsWritable() { flags / PF_W % 2 == 1 }
  }

  function ParseHeader(bytes: Bytes): Result<ElfHeader, ElfError> {
    if |bytes| < HEADER_SIZE then Err(HeaderTooSmall)
    else if bytes[0..4] != [0x7f, 69, 76, 70] then Err(InvalidMagic)
    else if bytes[4] != ELF_CLASS_64 then Err(UnsupportedClass)
    else if bytes[5] != ELF_DATA_LE then Err(UnsupportedEncoding)
    else if bytes[6] != 1 then Err(UnsupportedVersion)
    else if ReadLe(bytes, 16, 2) != ELF_TYPE_EXECUTABLE then Err(UnsupportedType)
    else if ReadLe(bytes, 18, 2) != ELF_MACHINE_X86_64 then Err(UnsupportedMachine)
    else if ReadLe(bytes, 20, 4) != 1 then Err(UnsupportedVersion)
    else
      var offset, size, count := ReadLe(bytes, 32, 8), ReadLe(bytes, 54, 2), ReadLe(bytes, 56, 2);
      if offset + size * count > U64_MAX then Err(AddressOutOfRange)
      else if offset + size * count > |bytes| then Err(ProgramHeaderTableOutOfRange)
      else Ok(ElfHeader(ReadLe(bytes, 24, 8), offset, size, count))
  }

  function ParseProgramHeader(bytes: Bytes): Result<ProgramHeader, ElfError> {
    if |bytes| < PROGRAM_HEADER_SIZE then Err(ProgramHeaderTruncated)
    else Ok(ProgramHeader(ReadLe(bytes, 0, 4), ReadLe(bytes, 4, 4), ReadLe(bytes, 8, 8), ReadLe(bytes, 16, 8),
                          ReadLe(bytes, 32, 8), ReadLe(bytes, 40, 8)))
  }

  /** The table lies inside the file: what a successful parse guarantees. */
  ghost predicate TableFits(bytes: Bytes, h: ElfHeader) {
    h.tableOffset + h.entrySize * h.count <= |bytes|
  }

  lemma ParsedTableFits(bytes: Bytes)
    ensures ParseHeader(bytes).Ok? ==> TableFits(bytes, ParseHeader(bytes).value)
  {
  }

  lemma EntryFits(bytes: Bytes, h: ElfHeader, i: nat)
    requires TableFits(bytes, h) && i < h.count
    ensures h.tableOffset + h.entrySize * i + h.entrySize <= |bytes|
  {
    assert h.entrySize * i + h.entrySize == h.entrySize * (i + 1);
    assert h.entrySize * (i + 1) <= h.entrySize * h.count;
  }

  /** Entry `i` of the table. */
  function HeaderAt(bytes: Bytes, h: ElfHeader, i: nat): Result<ProgramHeader, ElfError>
    requires TableFits(bytes, h) && i < h.count
  {
    EntryFits(bytes, h, i);
    ParseProgramHeader(bytes[h.tableOffset + h.entrySize * i..h.tableOffset + h.entrySize * i + h.entrySize])
  }

  // ---------------------------------------------------------------------------
  // The layout of a file (System V gABI, chapter 4, ELF Header, and chapter 5, Program Header).

  /** The file starts with this header: an executable for x86-64, all its fields little-endian. */
  ghost predicate HeaderLaid(file: Bytes, h: ElfHeader) {
    && |file| >= 64 && file[0..4] == [0x7f, 69, 76, 70] && file[4..7] == [2, 1, 1]
    && file[16..18] == ToLe(2, 2) && file[18..20] == ToLe(62, 2) && file[20..24] == ToLe(1, 4)
    && h.entry < WORD_LIMIT && file[24..32] == ToLe(h.entry, 8)
    && h.tableOffset < WORD_LIMIT && file[32..40] == ToLe(h.tableOffset, 8)
    && h.entrySize < 0x1_0000 && file[54..56] == ToLe(h.entrySize, 2)
    && h.count < 0x1_0000 && file[56..58] == ToLe(h.count, 2)
  }

  /** At `at`, 56 bytes hold this program header. */
  ghost predicate EntryLaid(file: Bytes, at: nat, p: ProgramHeader) {
    && at + 56 <= |file|
    && p.kind < 0x1_0000_0000 && file[at..at + 4] == ToLe(p.kind, 4)
    && p.flags < 0x1_0000_0000 && file[at + 4..at + 8] == ToLe(p.flags, 4)
    && p.offset < WORD_LIMIT && file[at + 8..at + 16] == ToLe(p.offset, 8)
    && p.virtualAddress < WORD_LIMIT && file[at + 16..at + 24] == ToLe(p.virtualAddress, 8)
    && p.fileSize < WORD_LIMIT && file[at + 32..at + 40] == ToLe(p.fileSize, 8)
    && p.memorySize < WORD_LIMIT && file[at + 40..at + 48] == ToLe(p.memorySize, 8)
  }

  /** Parsing a header gives what was laid out, when its table lies in the file. */
  lemma HeaderReadsBack(file: Bytes, h: ElfHeader)
    requires HeaderLaid(file, h)
    ensures ParseHeader(file) ==
            if h.tableOffset + h.entrySize * h.count > U64_MAX then Err(AddressOutOfRange)
            else if h.tableOffset + h.entrySize * h.count > |file| then Err(ProgramHeaderTableOutOfRange)
            else Ok(h)
  {
    assert file[4] == 2 && file[5] == 1 && file[6] == 1 by {
      assert file[4..7][0] == 2 && file[4..7][1] == 1 && file[4..7][2] == 1;
    }
    hide ReadLe, ToLe;
    SmallPowers();
    WordPower();
    hide Power256;
    FieldIs(file, 16, 2, 2);
    FieldIs(file, 18, 2, 62);
    FieldIs(file, 20, 4, 1);
    FieldIs(file, 24, 8, h.entry);
    FieldIs(file, 32, 8, h.tableOffset);
    FieldIs(file, 54, 2, h.entrySize);
    FieldIs(file, 56, 2, h.count);
  }

  /** And nothing else parses. */
  lemma OnlyLaidHeadersParse(file: Bytes)
    requires ParseHeader(file).Ok?
    ensures HeaderLaid(file, ParseHeader(file).value)
  {
    hide ReadLe, ToLe;
    SmallPowers();
    WordPower();
    hide Power256;
    FieldOf(file, 16, 2);
    FieldOf(file, 18, 2);
    FieldOf(file, 20, 4);
    FieldOf(file, 24, 8);
    FieldOf(file, 32, 8);
    FieldOf(file, 54, 2);
    FieldOf(file, 56, 2);
  }

  /** Entry `i` of the table is read as `p` exactly where entries are large enough and `p` is laid out
      at its place. */
  lemma EntryReadsBack(file: Bytes, h: ElfHeader, i: nat, p: ProgramHeader)
    requires TableFits(file, h) && i < h.count
    ensures HeaderAt(file, h, i) == Ok(p) <==> h.entrySize >= 56 && EntryLaid(file, h.tableOffset + h.entrySize * i, p)
    ensures h.entrySize < 56 ==> HeaderAt(file, h, i) == Err(ProgramHeaderTruncated)
  {
    EntryFits(file, h, i);
    var at := h.tableOffset + h.entrySize * i;
    var entry := file[at..at + h.entrySize];
    assert HeaderAt(file, h, i) == ParseProgramHeader(entry);
    if h.entrySize >= 56 {
      hide ParseProgramHeader, EntryLaid, ReadLe, ToLe, FromLe;
      EntryParses(file, at, entry, p);
    }
  }

  lemma EntryParses(file: Bytes, at: nat, entry: Bytes, p: ProgramHeader)
    requires 56 <= |entry| && at + |entry| <= |file| && entry == file[at..at + |entry|]
    ensures ParseProgramHeader(entry) == Ok(p) <==> EntryLaid(file, at, p)
  {
    hide ReadLe, ToLe;
    SmallPowers();
    WordPower();
    hide Power256;
    FieldAt(file, at, entry, 0, 4, p.kind);
    FieldAt(file, at, entry, 4, 4, p.flags);
    FieldAt(file, at, entry, 8, 8, p.offset);
    FieldAt(file, at, entry, 16, 8, p.virtualAddress);
    FieldAt(file, at, entry, 32, 8, p.fileSize);
    FieldAt(file, at, entry, 40, 8, p.memorySize);
  }

  /** A field of an entry, in the file. */
  lemma FieldAt(file: Bytes, at: nat, entry: Bytes, offset: nat, n: nat, value: nat)
    requires at + |entry| <= |file| && entry == file[at..at + |entry|] && offset + n <= |entry|
    ensures ReadLe(entry, offset, n) == value <==>
            value < Power256(n) && file[at + offset..at + offset + n] == ToLe(value, n)
  {
    hide ReadLe, ToLe, Power256;
    SliceOfSlice(file, at, |entry|, offset, n);
    FieldOf(entry, offset, n);
    if value < Power256(n) { FieldIs(entry, offset, n, value); }
  }

  class ProgramHeaderIter {
    const bytes: Bytes
    const header: ElfHeader
    var next: nat

    constructor (bytes: Bytes, header: ElfHeader)
      ensures this.bytes == bytes && this.header == header && next == 0
    {
      this.bytes, this.header, next := bytes, header, 0;
    }

    /** Over a table that fits, yields every entry once, in order, and then nothing. */
    method Next() returns (item: Option<Result<ProgramHeader, ElfError>>)
      modifies this
      ensures next == if old(next) < header.count then old(next) + 1 else old(next)
      ensures old(next) >= header.count ==> item.None?
      ensures TableFits(bytes, header) && |bytes| <= U64_MAX && old(next) < header.count ==>
                item == Some(HeaderAt(bytes, header, old(next)))
    {
      if next >= header.count { return None; }
      var index := next;
      next := next + 1;
      var offset := header.tableOffset + header.entrySize * index;
      if TableFits(bytes, header) { EntryFits(bytes, header, index); }
      if offset + header.entrySize > U64_MAX || offset + header.entrySize > |bytes| { return None; }
      return Some(ParseProgramHeader(bytes[offset..offset + header.entrySize]));
    }
  }
}
