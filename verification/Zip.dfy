/** The stored ZIP archive that wraps the spreadsheet export, and an independent reader that follows
    APPNOTE.TXT sections 4.3.7, 4.3.12 and 4.3.16. */
module Zip {
  import opened Bits
  import opened Results
  import Crc32

  /** One file of the archive, its name and content already encoded to bytes. */
  datatype File = File(name: seq<Byte>, content: seq<Byte>)

  const LOCAL_SIGNATURE := 0x0403_4b50
  const CENTRAL_SIGNATURE := 0x0201_4b50
  const END_SIGNATURE := 0x0605_4b50

  // ----- what the writer lays down

  function Blank(n: nat): (r: seq<Byte>)
    ensures |r| == n && forall i :: 0 <= i < n ==> r[i] == 0
  {
    seq(n, i => 0)
  }

  function LocalHeader(crc: nat, size: nat, nameLength: nat): (h: seq<Byte>)
    ensures |h| == 30
  {
    U32(LOCAL_SIGNATURE) + U16(20) + Blank(8) + U32(crc) + U32(size) + U32(size) + U16(nameLength) + Blank(2)
  }

  function CentralStart(): (h: seq<Byte>)
    ensures |h| == 16
  {
    U32(CENTRAL_SIGNATURE) + U16(20) + U16(20) + Blank(8)
  }

  function CentralHeader(crc: nat, size: nat, nameLength: nat, offset: nat): (h: seq<Byte>)
    ensures |h| == 46
  {
    CentralStart() + U32(crc) + U32(size) + U32(size) + U16(nameLength) + Blank(12) + U32(offset)
  }

  function EndRecord(count: nat, size: nat, offset: nat): (r: seq<Byte>)
    ensures |r| == 22
  {
    U32(END_SIGNATURE) + Blank(4) + U16(count) + U16(count) + U32(size) + U32(offset) + Blank(2)
  }

  function LocalSize(file: File): nat {
    30 + |file.name| + |file.content|
  }

  function LocalRecord(file: File): (r: seq<Byte>)
    ensures |r| == LocalSize(file)
  {
    LocalHeader(Crc32.Checksum(file.content), |file.content|, |file.name|) + file.name + file.content
  }

  function CentralRecord(file: File, offset: nat): (r: seq<Byte>)
    ensures |r| == 46 + |file.name|
  {
    CentralHeader(Crc32.Checksum(file.content), |file.content|, |file.name|, offset) + file.name
  }

  function LocalArea(files: seq<File>): seq<Byte> {
    if files == [] then [] else LocalRecord(files[0]) + LocalArea(files[1..])
  }

  function CentralArea(files: seq<File>, offset: nat): seq<Byte> {
    if files == [] then [] else CentralRecord(files[0], offset) + CentralArea(files[1..], offset + LocalSize(files[0]))
  }

  function Archive(files: seq<File>): seq<Byte> {
    var locals, central := LocalArea(files), CentralArea(files, 0);
    locals + central + EndRecord(|files|, |central|, |locals|)
  }

  predicate FileFits(file: File, offset: nat) {
    |file.name| < 0x1_0000 && |file.content| < 0x1_0000_0000 && offset < 0x1_0000_0000
  }

  predicate FilesFit(files: seq<File>, offset: nat) {
    files != [] ==> FileFits(files[0], offset) && FilesFit(files[1..], offset + LocalSize(files[0]))
  }

  /** Every value fits the 16- or 32-bit field it is written to. */
  predicate Fits(files: seq<File>) {
    && FilesFit(files, 0)
    && |files| < 0x1_0000
    && |LocalArea(files)| < 0x1_0000_0000
    && |CentralArea(files, 0)| < 0x1_0000_0000
  }

  // ----- the writer

  /** A zeroed buffer filled from the left: `done` is written, everything behind it still blank. */
  ghost predicate Written(data: seq<Byte>, done: seq<Byte>) {
    |done| <= |data| && data[..|done|] == done && data[|done|..] == Blank(|data| - |done|)
  }

  lemma Skip(data: seq<Byte>, done: seq<Byte>, gap: nat)
    requires Written(data, done) && |done| + gap <= |data|
    ensures Written(data, done + Blank(gap))
  {
  }

  method WriteUInt16LE(buffer: array<Byte>, value: nat, at: nat, ghost done: seq<Byte>)
    requires Written(buffer[..], done) && |done| == at
    requires at + 2 <= buffer.Length && value < 0x1_0000
    modifies buffer
    ensures Written(buffer[..], done + U16(value))
  {
    buffer[at], buffer[at + 1] := value % 256, value / 256;
    assert buffer[..at + 2] == buffer[..at] + U16(value);
    assert buffer[at + 2..] == old(buffer[at..])[2..];
  }

  method WriteUInt32LE(buffer: array<Byte>, value: nat, at: nat, ghost done: seq<Byte>)
    requires Written(buffer[..], done) && |done| == at
    requires at + 4 <= buffer.Length && value < 0x1_0000_0000
    modifies buffer
    ensures Written(buffer[..], done + U32(value))
  {
    buffer[at], buffer[at + 1] := value % 256, value / 256 % 256;
    buffer[at + 2], buffer[at + 3] := value / 65536 % 256, value / 16777216;
    assert buffer[..at + 4] == buffer[..at] + U32(value);
    assert buffer[at + 4..] == old(buffer[at..])[4..];
  }

  /** The checksum and the two sizes, equal because nothing is compressed. */
  method WriteSizes(buffer: array<Byte>, crc: nat, size: nat, at: nat, ghost done: seq<Byte>)
    requires |done| == at && at + 12 <= buffer.Length && Written(buffer[..], done)
    requires crc < 0x1_0000_0000 && size < 0x1_0000_0000
    modifies buffer
    ensures Written(buffer[..], done + U32(crc) + U32(size) + U32(size))
  {
    hide U32;
    WriteUInt32LE(buffer, crc, at, done);
    WriteUInt32LE(buffer, size, at + 4, done + U32(crc));
    WriteUInt32LE(buffer, size, at + 8, done + U32(crc) + U32(size));
  }

  method BuildLocalHeader(crc: nat, size: nat, nameLength: nat) returns (header: array<Byte>)
    requires crc < 0x1_0000_0000 && size < 0x1_0000_0000 && nameLength < 0x1_0000
    ensures fresh(header) && header[..] == LocalHeader(crc, size, nameLength)
  {
    hide U16;
    hide U32;
    hide Blank;
    header := new Byte[30](i => 0);
    ghost var d: seq<Byte> := [];
    WriteUInt32LE(header, LOCAL_SIGNATURE, 0, d);
    d := d + U32(LOCAL_SIGNATURE);
    WriteUInt16LE(header, 20, 4, d);
    d := d + U16(20);
    Skip(header[..], d, 8);
    d := d + Blank(8);
    WriteSizes(header, crc, size, 14, d);
    d := d + U32(crc) + U32(size) + U32(size);
    WriteUInt16LE(header, nameLength, 26, d);
    d := d + U16(nameLength);
    Skip(header[..], d, 2);
  }

  /** The signature and the two versions. */
  method WriteCentralStart(header: array<Byte>)
    requires header.Length >= 16 && Written(header[..], [])
    modifies header
    ensures Written(header[..], CentralStart())
  {
    hide U16, U32, Blank;
    ghost var d: seq<Byte> := [];
    WriteUInt32LE(header, CENTRAL_SIGNATURE, 0, d);
    d := d + U32(CENTRAL_SIGNATURE);
    WriteUInt16LE(header, 20, 4, d);
    d := d + U16(20);
    WriteUInt16LE(header, 20, 6, d);
    d := d + U16(20);
    Skip(header[..], d, 8);
    d := d + Blank(8);
    assert d == CentralStart();
  }

  method BuildCentralHeader(crc: nat, size: nat, nameLength: nat, offset: nat) returns (header: array<Byte>)
    requires crc < 0x1_0000_0000 && size < 0x1_0000_0000 && nameLength < 0x1_0000 && offset < 0x1_0000_0000
    ensures fresh(header) && header[..] == CentralHeader(crc, size, nameLength, offset)
  {
    hide U16, U32, Blank, CentralStart;
    header := new Byte[46](i => 0);
    WriteCentralStart(header);
    ghost var d := CentralStart();
    WriteSizes(header, crc, size, 16, d);
    d := d + U32(crc) + U32(size) + U32(size);
    WriteUInt16LE(header, nameLength, 28, d);
    d := d + U16(nameLength);
    Skip(header[..], d, 12);
    d := d + Blank(12);
    WriteUInt32LE(header, offset, 42, d);
    d := d + U32(offset);
  }

  method BuildEndRecord(count: nat, size: nat, offset: nat) returns (header: array<Byte>)
    requires count < 0x1_0000 && size < 0x1_0000_0000 && offset < 0x1_0000_0000
    ensures fresh(header) && header[..] == EndRecord(count, size, offset)
  {
    hide U16;
    hide U32;
    hide Blank;
    header := new Byte[22](i => 0);
    ghost var d: seq<Byte> := [];
    WriteUInt32LE(header, END_SIGNATURE, 0, d);
    d := d + U32(END_SIGNATURE);
    Skip(header[..], d, 4);
    d := d + Blank(4);
    WriteUInt16LE(header, count, 8, d);
    d := d + U16(count);
    WriteUInt16LE(header, count, 10, d);
    d := d + U16(count);
    WriteUInt32LE(header, size, 12, d);
    d := d + U32(size);
    WriteUInt32LE(header, offset, 16, d);
    d := d + U32(offset);
    Skip(header[..], d, 2);
  }

  /** What every header holds besides its variable fields: the signature, "PK" and two more bytes, the version 2.0
      to extract and for the central header the version made by, then zeros. */
  lemma HeadersAsWritten(crc: nat, size: nat, nameLength: nat, offset: nat, count: nat)
    ensures var h := LocalHeader(crc, size, nameLength);
            && h[..14] == [0x50, 0x4b, 0x03, 0x04, 20, 0, 0, 0, 0, 0, 0, 0, 0, 0]
            && h[28..] == [0, 0]
    ensures var h := CentralHeader(crc, size, nameLength, offset);
            && h[..16] == [0x50, 0x4b, 0x01, 0x02, 20, 0, 20, 0, 0, 0, 0, 0, 0, 0, 0, 0]
            && h[30..42] == [0, 0, 0, 0, 0, 0, 0, 0, 0, 0, 0, 0]
    ensures var r := EndRecord(count, size, offset);
            && r[..8] == [0x50, 0x4b, 0x05, 0x06, 0, 0, 0, 0]
            && r[20..] == [0, 0]
  {
    SignatureBytes();
  }

  lemma SignatureBytes()
    ensures U32(LOCAL_SIGNATURE) == [0x50, 0x4b, 0x03, 0x04]
    ensures U32(CENTRAL_SIGNATURE) == [0x50, 0x4b, 0x01, 0x02]
    ensures U32(END_SIGNATURE) == [0x50, 0x4b, 0x05, 0x06]
  {
  }

  lemma {:induction false} LocalSnoc(files: seq<File>, file: File)
    ensures LocalArea(files + [file]) == LocalArea(files) + LocalRecord(file)
  {
    hide LocalRecord;
    if files == [] {
      assert files + [file] == [file];
      assert LocalArea([file]) == LocalRecord(file) + LocalArea([]);
    } else {
      assert (files + [file])[1..] == files[1..] + [file];
      LocalSnoc(files[1..], file);
    }
  }

  lemma {:induction false} CentralSnoc(files: seq<File>, file: File, offset: nat)
    ensures CentralArea(files + [file], offset) ==
            CentralArea(files, offset) + CentralRecord(file, offset + |LocalArea(files)|)
    decreases |files|
  {
    hide CentralRecord;
    hide LocalRecord;
    if files == [] {
      assert files + [file] == [file];
      assert CentralArea([file], offset) == CentralRecord(file, offset) + CentralArea([], offset + LocalSize(file));
    } else {
      assert (files + [file])[1..] == files[1..] + [file];
      CentralSnoc(files[1..], file, offset + LocalSize(files[0]));
    }
  }

  lemma {:induction false} FitSnoc(files: seq<File>, file: File, offset: nat)
    ensures FilesFit(files + [file], offset) <==>
            FilesFit(files, offset) && FileFits(file, offset + |LocalArea(files)|)
    decreases |files|
  {
    hide LocalRecord;
    if files == [] {
      assert files + [file] == [file];
    } else {
      assert (files + [file])[1..] == files[1..] + [file];
      FitSnoc(files[1..], file, offset + LocalSize(files[0]));
    }
  }

  lemma {:induction false} PrefixFits(files: seq<File>, i: nat, offset: nat)
    requires i <= |files| && FilesFit(files, offset)
    ensures FilesFit(files[..i], offset)
    decreases i
  {
    if i > 0 {
      assert files[..i][1..] == files[1..][..i - 1];
      PrefixFits(files[1..], i - 1, offset + LocalSize(files[0]));
    }
  }

  lemma {:induction false} FitEach(files: seq<File>, offset: nat)
    ensures FilesFit(files, offset) <==>
            forall i :: 0 <= i < |files| ==>
              && |files[i].name| <= 0xffff && |files[i].content| <= 0xffff_ffff
              && offset + |LocalArea(files[..i])| <= 0xffff_ffff
    decreases |files|
  {
    hide LocalRecord;
    if files != [] {
      var first, rest, next := files[0], files[1..], offset + LocalSize(files[0]);
      FitEach(rest, next);
      assert LocalArea(files[..0]) == [];
      forall i | 1 <= i < |files|
        ensures offset + |LocalArea(files[..i])| == next + |LocalArea(rest[..i - 1])| && rest[i - 1] == files[i]
      {
        assert files[..i] == [first] + rest[..i - 1];
        assert files[..i][0] == first && files[..i][1..] == rest[..i - 1];
      }
      if FilesFit(files, offset) {
        forall i | 0 <= i < |files|
          ensures && |files[i].name| <= 0xffff && |files[i].content| <= 0xffff_ffff
                  && offset + |LocalArea(files[..i])| <= 0xffff_ffff
        {
          if i > 0 {
            assert |rest[i - 1].name| <= 0xffff;
          }
        }
      } else if FileFits(first, offset) {
        var k :| 0 <= k < |rest|
          && !(|rest[k].name| <= 0xffff && |rest[k].content| <= 0xffff_ffff
               && next + |LocalArea(rest[..k])| <= 0xffff_ffff);
        assert files[k + 1] == rest[k];
      }
    }
  }

  /** The archive fits exactly when every name's length and the number of files fit 16 bits, and every content's length,
      every offset of a file and the directory's size and position 32. */
  lemma FitsMeans(files: seq<File>)
    ensures Fits(files) <==>
            && (forall i :: 0 <= i < |files| ==>
                  && |files[i].name| <= 0xffff && |files[i].content| <= 0xffff_ffff
                  && |LocalArea(files[..i])| <= 0xffff_ffff)
            && |files| <= 0xffff && |LocalArea(files)| <= 0xffff_ffff && |CentralArea(files, 0)| <= 0xffff_ffff
  {
    FitEach(files, 0);
  }

  lemma LocalRecordParts(file: File)
    ensures LocalRecord(file)
            == LocalHeader(Crc32.Checksum(file.content), |file.content|, |file.name|) + file.name + file.content
  {
  }

  lemma CentralRecordParts(file: File, offset: nat)
    ensures CentralRecord(file, offset) ==
            CentralHeader(Crc32.Checksum(file.content), |file.content|, |file.name|, offset) + file.name
  {
  }

  /** `zipStore`: a value too large for its field makes the write throw. */
  method ZipStore(files: seq<File>) returns (result: Result<seq<Byte>>)
    ensures result.Ok? <==> Fits(files)
    ensures result.Ok? ==> result.value == Archive(files)
  {
    hide LocalHeader;
    hide CentralHeader;
    hide EndRecord;
    hide LocalRecord;
    hide CentralRecord;
    var localParts: seq<Byte> := [];
    var centralParts: seq<Byte> := [];
    var offset := 0;
    for i := 0 to |files|
      invariant FilesFit(files[..i], 0)
      invariant localParts == LocalArea(files[..i])
      invariant centralParts == CentralArea(files[..i], 0)
      invariant offset == |localParts|
    {
      var file := files[i];
      assert files[..i + 1] == files[..i] + [file];
      LocalSnoc(files[..i], file);
      CentralSnoc(files[..i], file, 0);
      FitSnoc(files[..i], file, 0);
      if |file.name| >= 0x1_0000 || |file.content| >= 0x1_0000_0000 || offset >= 0x1_0000_0000 {
        if FilesFit(files, 0) {
          PrefixFits(files, i + 1, 0);
        }
        return Failed("ERR_OUT_OF_RANGE");
      }
      var crc := Crc32.Compute(file.content);
      var localHeader := BuildLocalHeader(crc, |file.content|, |file.name|);
      localParts := localParts + (localHeader[..] + file.name + file.content);
      assert localHeader[..] + file.name + file.content == LocalRecord(file) by { LocalRecordParts(file); }
      var centralHeader := BuildCentralHeader(crc, |file.content|, |file.name|, offset);
      centralParts := centralParts + (centralHeader[..] + file.name);
      assert centralHeader[..] + file.name == CentralRecord(file, offset) by { CentralRecordParts(file, offset); }
      offset := offset + 30 + |file.name| + |file.content|;
    }
    assert files[..|files|] == files;
    if |files| >= 0x1_0000 || |centralParts| >= 0x1_0000_0000 || offset >= 0x1_0000_0000 {
      return Failed("ERR_OUT_OF_RANGE");
    }
    var end := BuildEndRecord(|files|, |centralParts|, offset);
    result := Ok(localParts + centralParts + end[..]);
  }

  // ----- an independent reader

  /** What a reader recovers for one file. */
  datatype Item = Item(name: seq<Byte>, content: seq<Byte>, crc: nat)

  /** Scans backwards for an end record whose comment reaches exactly to the end of the data. */
  function FindEnd(data: seq<Byte>, from: int): (end: Option<nat>)
    requires from + 22 <= |data|
    ensures end.Some? ==> end.value + 22 <= |data|
    decreases from + 1
  {
    if from < 0 then None
    else if ReadU32(data, from) == END_SIGNATURE && from + 22 + ReadU16(data, from + 20) == |data| then Some(from)
    else FindEnd(data, from - 1)
  }

  /** Reads the stored content behind a local header, which must agree with the directory on the name, the
      checksum and both sizes. */
  function ReadLocal(data: seq<Byte>, at: nat, name: seq<Byte>, crc: nat, size: nat): Option<seq<Byte>> {
    if at + 30 > |data| || ReadU32(data, at) != LOCAL_SIGNATURE || ReadU16(data, at + 8) != 0 then None
    else if ReadU32(data, at + 14) != crc then None
    else if ReadU32(data, at + 18) != size || ReadU32(data, at + 22) != size then None
    else
      var nameStart := at + 30;
      var start := nameStart + ReadU16(data, at + 26) + ReadU16(data, at + 28);
      if start + size > |data| || data[nameStart..nameStart + ReadU16(data, at + 26)] != name then None
      else Some(data[start..start + size])
  }

  /** Walks the central directory. */
  function ReadCentral(data: seq<Byte>, at: nat, count: nat): Option<seq<Item>>
    decreases count
  {
    if count == 0 then Some([])
    else if at + 46 > |data| || ReadU32(data, at) != CENTRAL_SIGNATURE || ReadU16(data, at + 10) != 0 then None
    else if ReadU32(data, at + 24) != ReadU32(data, at + 20) then None
    else
      var nameEnd := at + 46 + ReadU16(data, at + 28);
      if nameEnd > |data| then None
      else
        var name := data[at + 46..nameEnd];
        var next := nameEnd + ReadU16(data, at + 30) + ReadU16(data, at + 32);
        var crc, size := ReadU32(data, at + 16), ReadU32(data, at + 20);
        match (ReadLocal(data, ReadU32(data, at + 42), name, crc, size), ReadCentral(data, next, count - 1))
        case (Some(content), Some(rest)) => Some([Item(name, content, crc)] + rest)
        case _ => None
  }

  function ReadArchive(data: seq<Byte>): Option<seq<Item>> {
    match FindEnd(data, |data| - 22)
    case None => None
    case Some(end) =>
      var start, size := ReadU32(data, end + 16), ReadU32(data, end + 12);
      if start + size != end || ReadU16(data, end + 8) != ReadU16(data, end + 10) then None
      else ReadCentral(data, start, ReadU16(data, end + 10))
  }

  // ----- round trip

  function ItemOf(file: File): Item {
    Item(file.name, file.content, Crc32.Checksum(file.content))
  }

  function Items(files: seq<File>): seq<Item> {
    if files == [] then [] else [ItemOf(files[0])] + Items(files[1..])
  }

  /** `piece` stands at `pos` in `data`. */
  ghost predicate At(data: seq<Byte>, pos: nat, piece: seq<Byte>) {
    pos + |piece| <= |data| && data[pos..pos + |piece|] == piece
  }

  lemma AtSplit(data: seq<Byte>, pos: nat, a: seq<Byte>, b: seq<Byte>)
    requires At(data, pos, a + b)
    ensures At(data, pos, a) && At(data, pos + |a|, b)
  {
    var whole := data[pos..pos + |a + b|];
    assert whole[..|a|] == a && whole[|a|..] == b;
    assert data[pos..pos + |a|] == whole[..|a|];
    assert data[pos + |a|..pos + |a| + |b|] == whole[|a|..];
  }

  /** A piece keeps its fields wherever it stands. */
  lemma FieldAt16(data: seq<Byte>, pos: nat, piece: seq<Byte>, k: nat)
    requires At(data, pos, piece) && k + 2 <= |piece|
    ensures ReadU16(data, pos + k) == ReadU16(piece, k)
  {
  }

  lemma FieldAt32(data: seq<Byte>, pos: nat, piece: seq<Byte>, k: nat)
    requires At(data, pos, piece) && k + 4 <= |piece|
    ensures ReadU32(data, pos + k) == ReadU32(piece, k)
  {
  }

  ghost predicate LocalFields(h: seq<Byte>, crc: nat, size: nat, nameLength: nat) {
    && |h| == 30
    && ReadU32(h, 0) == LOCAL_SIGNATURE
    && ReadU16(h, 8) == 0
    && ReadU32(h, 14) == crc
    && ReadU32(h, 18) == size
    && ReadU32(h, 22) == size
    && ReadU16(h, 26) == nameLength
    && ReadU16(h, 28) == 0
  }

  lemma LocalHeaderFields(crc: nat, size: nat, nameLength: nat)
    requires crc < 0x1_0000_0000 && size < 0x1_0000_0000 && nameLength < 0x1_0000
    ensures LocalFields(LocalHeader(crc, size, nameLength), crc, size, nameLength)
  {
    var h := LocalHeader(crc, size, nameLength);
    ReadBack32(h, 0, LOCAL_SIGNATURE);
    ReadBack32(h, 14, crc);
    ReadBack32(h, 18, size);
    ReadBack32(h, 22, size);
    ReadBack16(h, 26, nameLength);
  }

  ghost predicate CentralFields(data: seq<Byte>, at: nat, crc: nat, size: nat, nameLength: nat, offset: nat) {
    && at + 46 <= |data|
    && ReadU32(data, at) == CENTRAL_SIGNATURE
    && ReadU16(data, at + 10) == 0
    && ReadU32(data, at + 16) == crc
    && ReadU32(data, at + 20) == size
    && ReadU32(data, at + 24) == size
    && ReadU16(data, at + 28) == nameLength
    && ReadU16(data, at + 30) == 0
    && ReadU16(data, at + 32) == 0
    && ReadU32(data, at + 42) == offset
  }

  lemma CentralHeaderFields(crc: nat, size: nat, nameLength: nat, offset: nat)
    requires crc < 0x1_0000_0000 && size < 0x1_0000_0000 && nameLength < 0x1_0000 && offset < 0x1_0000_0000
    ensures CentralFields(CentralHeader(crc, size, nameLength, offset), 0, crc, size, nameLength, offset)
  {
    var h := CentralHeader(crc, size, nameLength, offset);
    ReadBack32(h, 0, CENTRAL_SIGNATURE);
    ReadBack32(h, 16, crc);
    ReadBack32(h, 20, size);
    ReadBack32(h, 24, size);
    ReadBack16(h, 28, nameLength);
    ReadBack32(h, 42, offset);
  }

  lemma CentralFieldsCarry(data: seq<Byte>, at: nat, h: seq<Byte>, crc: nat, size: nat, nameLength: nat, offset: nat)
    requires At(data, at, h) && CentralFields(h, 0, crc, size, nameLength, offset)
    ensures CentralFields(data, at, crc, size, nameLength, offset)
  {
  }

  ghost predicate EndFields(r: seq<Byte>, count: nat, size: nat, offset: nat) {
    && |r| == 22
    && ReadU32(r, 0) == END_SIGNATURE
    && ReadU16(r, 8) == count
    && ReadU16(r, 10) == count
    && ReadU32(r, 12) == size
    && ReadU32(r, 16) == offset
    && ReadU16(r, 20) == 0
  }

  lemma EndRecordFields(count: nat, size: nat, offset: nat)
    requires count < 0x1_0000 && size < 0x1_0000_0000 && offset < 0x1_0000_0000
    ensures EndFields(EndRecord(count, size, offset), count, size, offset)
  {
    var r := EndRecord(count, size, offset);
    ReadBack32(r, 0, END_SIGNATURE);
    ReadBack16(r, 8, count);
    ReadBack16(r, 10, count);
    ReadBack32(r, 12, size);
    ReadBack32(r, 16, offset);
  }

  lemma LocalReadsBack(data: seq<Byte>, at: nat, h: seq<Byte>, name: seq<Byte>, crc: nat, content: seq<Byte>)
    requires At(data, at, h + name + content) && LocalFields(h, crc, |content|, |name|)
    ensures ReadLocal(data, at, name, crc, |content|) == Some(content)
  {
    AtSplit(data, at, h + name, content);
    AtSplit(data, at, h, name);
    FieldAt32(data, at, h, 0);
    FieldAt16(data, at, h, 8);
    FieldAt32(data, at, h, 14);
    FieldAt32(data, at, h, 18);
    FieldAt32(data, at, h, 22);
    FieldAt16(data, at, h, 26);
    FieldAt16(data, at, h, 28);
  }

  /** One step of the walk. */
  lemma CentralStep(data: seq<Byte>, at: nat, count: nat, item: Item, offset: nat, rest: seq<Item>)
    requires count > 0
    requires CentralFields(data, at, item.crc, |item.content|, |item.name|, offset)
    requires At(data, at + 46, item.name)
    requires ReadLocal(data, offset, item.name, item.crc, |item.content|) == Some(item.content)
    requires ReadCentral(data, at + 46 + |item.name|, count - 1) == Some(rest)
    ensures ReadCentral(data, at, count) == Some([item] + rest)
  {
    hide ReadU16;
    hide ReadU32;
    hide ReadLocal;
  }

  lemma RecordReadsBack(data: seq<Byte>, at: nat, count: nat, file: File, offset: nat, rest: seq<Item>)
    requires count > 0 && FileFits(file, offset)
    requires At(data, at, CentralRecord(file, offset)) && At(data, offset, LocalRecord(file))
    requires ReadCentral(data, at + 46 + |file.name|, count - 1) == Some(rest)
    ensures ReadCentral(data, at, count) == Some([ItemOf(file)] + rest)
  {
    hide ReadCentral, ReadLocal, ReadU16, ReadU32, LocalHeader, CentralHeader, LocalRecord, CentralRecord, LocalFields,
      CentralFields, At;
    LocalRecordParts(file);
    CentralRecordParts(file, offset);
    var crc, size, n := Crc32.Checksum(file.content), |file.content|, |file.name|;
    LocalHeaderFields(crc, size, n);
    LocalReadsBack(data, offset, LocalHeader(crc, size, n), file.name, crc, file.content);
    AtSplit(data, at, CentralHeader(crc, size, n, offset), file.name);
    CentralHeaderFields(crc, size, n, offset);
    CentralFieldsCarry(data, at, CentralHeader(crc, size, n, offset), crc, size, n, offset);
    CentralStep(data, at, count, ItemOf(file), offset, rest);
  }

  lemma NothingListed(data: seq<Byte>, at: nat)
    ensures ReadCentral(data, at, 0) == Some([])
  {
  }

  /** Walking the directory written for `files` finds each of them behind its recorded offset. */
  lemma {:induction false} CentralReadsBack(data: seq<Byte>, at: nat, files: seq<File>, offset: nat)
    requires FilesFit(files, offset)
    requires At(data, at, CentralArea(files, offset)) && At(data, offset, LocalArea(files))
    ensures ReadCentral(data, at, |files|) == Some(Items(files))
    decreases |files|
  {
    hide ReadCentral, LocalRecord, CentralRecord, At;
    if files == [] {
      NothingListed(data, at);
    } else {
      var next := offset + LocalSize(files[0]);
      AtSplit(data, at, CentralRecord(files[0], offset), CentralArea(files[1..], next));
      AtSplit(data, offset, LocalRecord(files[0]), LocalArea(files[1..]));
      CentralReadsBack(data, at + 46 + |files[0].name|, files[1..], next);
      RecordReadsBack(data, at, |files|, files[0], offset, Items(files[1..]));
    }
  }

  lemma EndFound(data: seq<Byte>, end: nat, r: seq<Byte>, count: nat, size: nat, offset: nat)
    requires |data| == end + 22 && At(data, end, r) && EndFields(r, count, size, offset)
    ensures FindEnd(data, |data| - 22) == Some(end)
    ensures ReadU16(data, end + 8) == ReadU16(data, end + 10) == count
    ensures ReadU32(data, end + 12) == size && ReadU32(data, end + 16) == offset
  {
  }

  /** Whatever archive is written, the reader gets back the same names, contents and checksums in
      order, and the end record gives the true size and position of the directory. */
  lemma RoundTrip(files: seq<File>)
    requires Fits(files)
    ensures ReadArchive(Archive(files)) == Some(Items(files))
    ensures var data, end := Archive(files), |Archive(files)| - 22;
            && ReadU32(data, end + 16) == |LocalArea(files)|
            && ReadU32(data, end + 12) == |CentralArea(files, 0)| == end - |LocalArea(files)|
            && At(data, ReadU32(data, end + 16), CentralArea(files, 0))
  {
    hide LocalArea;
    hide CentralArea;
    hide ReadCentral;
    hide FindEnd;
    hide EndRecord;
    hide EndFields;
    hide ReadU16;
    hide ReadU32;
    var locals, central := LocalArea(files), CentralArea(files, 0);
    var record := EndRecord(|files|, |central|, |locals|);
    var data, end := Archive(files), |locals| + |central|;
    assert At(data, 0, locals) && At(data, |locals|, central) && At(data, end, record);
    EndRecordFields(|files|, |central|, |locals|);
    EndFound(data, end, record, |files|, |central|, |locals|);
    CentralReadsBack(data, |locals|, files, 0);
  }
}
