/** File information structures as bytes: a next-entry offset, a file-name length and a trailing file
    name at layout-dependent positions, and whole buffers of them chained by next-entry offsets. */
module FileInformation {
  import opened Wrappers
  import opened Text

  newtype byte = b: int | 0 <= b < 0x100

  const U32_LIMIT: nat := 0x1_0000_0000

  // ---------- Words and characters in bytes ----------

  function ReadU32(s: seq<byte>, at: nat): (r: nat)
    requires at + 4 <= |s|
    ensures r < U32_LIMIT
  {
    s[at] as nat + 0x100 * s[at + 1] as nat + 0x1_0000 * s[at + 2] as nat + 0x100_0000 * s[at + 3] as nat
  }

  function EncodeU32(v: nat): (r: seq<byte>)
    requires v < U32_LIMIT
    ensures |r| == 4
  {
    var v1 := v / 0x100;
    var v2 := v1 / 0x100;
    [(v % 0x100) as byte, (v1 % 0x100) as byte, (v2 % 0x100) as byte, (v2 / 0x100) as byte]
  }

  /** Some bytes with others written over them. */
  function Overwrite(s: seq<byte>, at: nat, bytes: seq<byte>): (r: seq<byte>)
    requires at + |bytes| <= |s|
    ensures |r| == |s|
  {
    s[..at] + bytes + s[at + |bytes|..]
  }

  function WriteU32(s: seq<byte>, at: nat, v: nat): (r: seq<byte>)
    requires at + 4 <= |s| && v < U32_LIMIT
    ensures |r| == |s|
  {
    Overwrite(s, at, EncodeU32(v))
  }

  lemma ReadWrittenU32(s: seq<byte>, at: nat, v: nat)
    requires at + 4 <= |s| && v < U32_LIMIT
    ensures ReadU32(WriteU32(s, at, v), at) == v
  {
    assert WriteU32(s, at, v)[at..at + 4] == EncodeU32(v)[0..0 + 4];
    ReadSameU32(WriteU32(s, at, v), at, EncodeU32(v), 0);
    ReadEncodedU32(v);
  }

  lemma ReadEncodedU32(v: nat)
    requires v < U32_LIMIT
    ensures ReadU32(EncodeU32(v), 0) == v
  {
  }

  /** Reading depends only on the four bytes read. */
  lemma ReadSameU32(s: seq<byte>, i: nat, t: seq<byte>, j: nat)
    requires i + 4 <= |s| && j + 4 <= |t| && s[i..i + 4] == t[j..j + 4]
    ensures ReadU32(s, i) == ReadU32(t, j)
  {
    assert s[i] == s[i..i + 4][0] && s[i + 1] == s[i..i + 4][1] && s[i + 2] == s[i..i + 4][2]
        && s[i + 3] == s[i..i + 4][3];
    assert t[j] == t[j..j + 4][0] && t[j + 1] == t[j..j + 4][1] && t[j + 2] == t[j..j + 4][2]
        && t[j + 3] == t[j..j + 4][3];
  }

  lemma ReadSlice(s: seq<byte>, at: nat, size: nat, i: nat)
    requires i + 4 <= size && at + size <= |s|
    ensures ReadU32(s[at..at + size], i) == ReadU32(s, at + i)
  {
    var e := s[at..at + size];
    assert e[i] == s[at + i] && e[i + 1] == s[at + i + 1] && e[i + 2] == s[at + i + 2] && e[i + 3] == s[at + i + 3];
  }

  lemma WriteKeepsAfter(s: seq<byte>, at: nat, v: nat, i: nat, j: nat)
    requires at + 4 <= i <= j <= |s| && v < U32_LIMIT
    ensures WriteU32(s, at, v)[i..j] == s[i..j]
  {
    var r, after := WriteU32(s, at, v), s[at + 4..];
    forall k | i <= k < j
      ensures r[k] == s[k]
    {
      assert |s[..at] + EncodeU32(v)| == at + 4;
      assert r[k] == after[k - at - 4];
    }
  }

  lemma WriteTwice(s: seq<byte>, at: nat, v: nat, w: nat)
    requires at + 4 <= |s| && v < U32_LIMIT && w < U32_LIMIT
    ensures WriteU32(WriteU32(s, at, v), at, w) == WriteU32(s, at, w)
  {
  }

  function DecodeChars(s: seq<byte>): (r: wstring)
    ensures |r| == |s| / 2
  {
    seq(|s| / 2, i requires 0 <= i < |s| / 2 => (s[2 * i] as int + 0x100 * s[2 * i + 1] as int) as wchar)
  }

  function EncodeChars(name: wstring): (r: seq<byte>)
    ensures |r| == 2 * |name|
  {
    seq(2 * |name|, i requires 0 <= i < 2 * |name| =>
      if i % 2 == 0 then (name[i / 2] as int % 0x100) as byte else (name[i / 2] as int / 0x100) as byte)
  }

  lemma DecodeEncoded(name: wstring)
    ensures DecodeChars(EncodeChars(name)) == name
  {
    var s := EncodeChars(name);
    forall i | 0 <= i < |name|
      ensures DecodeChars(s)[i] == name[i]
    {
      assert (2 * i) % 2 == 0 && (2 * i) / 2 == i && (2 * i + 1) % 2 == 1 && (2 * i + 1) / 2 == i;
    }
  }

  method CopyBytes(source: array<byte>, from: nat, dest: array<byte>, at: nat, n: nat)
    requires source != dest && from + n <= source.Length && at + n <= dest.Length
    modifies dest
    ensures dest[..] == Overwrite(old(dest[..]), at, source[from..from + n])
  {
    forall i | 0 <= i < n {
      dest[at + i] := source[from + i];
    }
    assert dest[at..at + n] == source[from..from + n];
    assert dest[..at] == old(dest[..at]) && dest[at + n..] == old(dest[at + n..]);
  }

  method StoreU32(buffer: array<byte>, at: nat, v: nat)
    requires at + 4 <= buffer.Length && v < U32_LIMIT
    modifies buffer
    ensures buffer[..] == WriteU32(old(buffer[..]), at, v)
  {
    var bytes := EncodeU32(v);
    buffer[at], buffer[at + 1], buffer[at + 2], buffer[at + 3] := bytes[0], bytes[1], bytes[2], bytes[3];
    assert buffer[at..at + 4] == bytes;
    assert buffer[..at] == old(buffer[..at]) && buffer[at + 4..] == old(buffer[at + 4..]);
  }

  method StoreChars(buffer: array<byte>, at: nat, chars: wstring)
    requires at + 2 * |chars| <= buffer.Length
    modifies buffer
    ensures buffer[..] == Overwrite(old(buffer[..]), at, EncodeChars(chars))
  {
    var bytes := EncodeChars(chars);
    forall i | 0 <= i < |bytes| {
      buffer[at + i] := bytes[i];
    }
    assert buffer[at..at + |bytes|] == bytes;
    assert buffer[..at] == old(buffer[..at]) && buffer[at + |bytes|..] == old(buffer[at + |bytes|..]);
  }

  lemma SliceOfSlice(s: seq<byte>, from: nat, size: nat, n: nat)
    requires from + size <= |s| && n <= size
    ensures s[from..from + size][..n] == s[from..from + n]
  {
  }

  // ---------- One structure ----------

  /** Where the common fields are. The fields do not overlap, and the fixed part includes the first
      character of the name. */
  datatype Layout = Layout(
    structureBaseSize: nat, offsetOfNextEntryOffset: nat, offsetOfFileNameLength: nat, offsetOfFileName: nat)
  {
    predicate Valid() {
      && offsetOfNextEntryOffset + 4 <= offsetOfFileNameLength
      && offsetOfFileNameLength + 4 <= offsetOfFileName
      && offsetOfFileName + 2 <= structureBaseSize < 0x1_0000
    }

    /** The structure always has room for its fields and its name, and no more than that. */
    function SizeForFileNameLength(fileNameLength: nat): (r: nat)
      ensures r >= structureBaseSize && r >= offsetOfFileName + fileNameLength
      ensures r == structureBaseSize || r == offsetOfFileName + fileNameLength
    {
      if structureBaseSize >= offsetOfFileName + fileNameLength then structureBaseSize
      else offsetOfFileName + fileNameLength
    }
  }

  /** The layouts of the structures for which directories can be enumerated, by information class: size,
      then where the next-entry offset, the name length and the name are, given natural alignment. */
  function LayoutForFileInformationClass(fileInformationClass: nat): (r: Option<Layout>)
    ensures r.Some? ==> r.value.Valid() && r.value.offsetOfNextEntryOffset == 0 && r.value.structureBaseSize % 4 == 0
  {
    match fileInformationClass
    case 1 => Some(Layout(72, 0, 60, 64))
    case 2 => Some(Layout(72, 0, 60, 68))
    case 3 => Some(Layout(96, 0, 60, 94))
    case 12 => Some(Layout(16, 0, 8, 12))
    case 37 => Some(Layout(112, 0, 60, 104))
    case 38 => Some(Layout(88, 0, 60, 80))
    case 50 => Some(Layout(96, 0, 60, 92))
    case 60 => Some(Layout(96, 0, 60, 88))
    case 63 => Some(Layout(120, 0, 60, 114))
    case _ => None
  }

  /** A field of a structure: how many bytes it takes, and at multiples of what it begins. */
  datatype Field = Field(size: nat, alignment: nat)

  function Several(n: nat, field: Field): Field {
    Field(n * field.size, field.alignment)
  }

  const ULONG := Field(4, 4)
  const LARGE_INTEGER := Field(8, 8)
  const CCHAR := Field(1, 1)
  const WCHAR := Field(2, 2)
  const GUID := Field(16, 4)
  const FILE_ID_128 := Field(16, 1)

  /** The next multiple of an alignment, which is 1, 2, 4 or 8. */
  function RoundUp(at: nat, alignment: nat): nat {
    match alignment
    case 2 => (at + 1) / 2 * 2
    case 4 => (at + 3) / 4 * 4
    case 8 => (at + 7) / 8 * 8
    case _ => at
  }

  /** Where a field ends that comes next. */
  function Then(at: nat, field: Field): nat {
    RoundUp(at, field.alignment) + field.size
  }

  /** The fields before the length of the name: next-entry offset and file index, and in most structures four times, two
      sizes and the attributes. */
  function EndBeforeLength(fileInformationClass: nat): nat {
    var end := Then(Then(0, ULONG), ULONG);
    if fileInformationClass == 12 then end else Then(Then(end, Several(6, LARGE_INTEGER)), ULONG)
  }

  /** The fields between the length of the name and the name. */
  function EndBeforeName(fileInformationClass: nat, at: nat): nat {
    match fileInformationClass
    case 2 => Then(at, ULONG)
    case 3 => Then(Then(Then(at, ULONG), CCHAR), Several(12, WCHAR))
    case 37 => Then(Then(Then(Then(at, ULONG), CCHAR), Several(12, WCHAR)), LARGE_INTEGER)
    case 38 => Then(Then(at, ULONG), LARGE_INTEGER)
    case 50 => Then(Then(Then(at, LARGE_INTEGER), GUID), ULONG)
    case 60 => Then(Then(Then(at, ULONG), ULONG), FILE_ID_128)
    case 63 => Then(Then(Then(Then(Then(at, ULONG), ULONG), FILE_ID_128), CCHAR), Several(12, WCHAR))
    case _ => at
  }

  lemma Ends(at: nat)
    ensures Then(at, ULONG) == (at + 3) / 4 * 4 + 4 && Then(at, LARGE_INTEGER) == (at + 7) / 8 * 8 + 8
    ensures Then(at, CCHAR) == at + 1 && Then(at, Several(12, WCHAR)) == (at + 1) / 2 * 2 + 24
    ensures Then(at, GUID) == (at + 3) / 4 * 4 + 16 && Then(at, FILE_ID_128) == at + 16
    ensures Then(at, WCHAR) == (at + 1) / 2 * 2 + 2 && Then(at, Several(6, LARGE_INTEGER)) == (at + 7) / 8 * 8 + 48
  {
  }

  lemma LengthEnds(c: nat)
    ensures Then(EndBeforeLength(c), ULONG) == if c == 12 then 12 else 64
    ensures RoundUp(EndBeforeLength(c), 4) == if c == 12 then 8 else 60
  {
    hide Then;
    Ends(0);
    Ends(4);
    Ends(8);
    Ends(56);
    Ends(60);
  }

  /** Where the names are. */
  function NameAt(c: nat): nat {
    match c
    case 2 => 68
    case 3 => 94
    case 12 => 12
    case 37 => 104
    case 38 => 80
    case 50 => 92
    case 60 => 88
    case 63 => 114
    case _ => 64
  }

  lemma NameEnds(c: nat)
    ensures EndBeforeName(c, if c == 12 then 12 else 64) == NameAt(c)
  {
    hide Then;
    Ends(64);
    Ends(68);
    match c
    case 3 =>
      Ends(69);
    case 37 =>
      Ends(69);
      Ends(94);
    case 50 =>
      Ends(72);
      Ends(88);
    case 60 =>
      Ends(72);
    case 63 =>
      Ends(72);
      Ends(88);
      Ends(89);
    case _ =>
  }

  /** The layouts are those that follow from the fields of the structures, the name having one character. */
  lemma LayoutsFollowFromFields(fileInformationClass: nat)
    ensures
      LayoutForFileInformationClass(fileInformationClass).Some? <==>
      fileInformationClass in {1, 2, 3, 12, 37, 38, 50, 60, 63}
    ensures
      LayoutForFileInformationClass(fileInformationClass).Some? ==>
        var layout := LayoutForFileInformationClass(fileInformationClass).value;
        var length, name :=
          EndBeforeLength(fileInformationClass),
          EndBeforeName(fileInformationClass, Then(EndBeforeLength(fileInformationClass), ULONG));
        && layout.offsetOfNextEntryOffset == RoundUp(0, ULONG.alignment)
        && layout.offsetOfFileNameLength == RoundUp(length, ULONG.alignment)
        && layout.offsetOfFileName == RoundUp(name, WCHAR.alignment)
        && layout.structureBaseSize ==
           RoundUp(Then(name, WCHAR), (if fileInformationClass == 12 then ULONG else LARGE_INTEGER).alignment)
  {
    hide RoundUp, EndBeforeLength, EndBeforeName, Then;
    if LayoutForFileInformationClass(fileInformationClass).Some? {
      LengthEnds(fileInformationClass);
      NameEnds(fileInformationClass);
      Ends(NameAt(fileInformationClass));
      Padded(fileInformationClass);
    }
  }

  lemma Padded(c: nat)
    requires LayoutForFileInformationClass(c).Some?
    ensures
      var layout := LayoutForFileInformationClass(c).value;
      && layout.offsetOfNextEntryOffset == RoundUp(0, 4)
      && layout.offsetOfFileNameLength == (if c == 12 then 8 else 60)
      && layout.offsetOfFileName == RoundUp(NameAt(c), 2)
      && layout.structureBaseSize == RoundUp((NameAt(c) + 1) / 2 * 2 + 2, if c == 12 then 4 else 8)
  {
  }


  type FileInfo = seq<byte>

  function NameLength(layout: Layout, s: FileInfo): nat
    requires layout.Valid() && layout.structureBaseSize <= |s|
  {
    ReadU32(s, layout.offsetOfFileNameLength)
  }

  function SizeOfStruct(layout: Layout, s: FileInfo): nat
    requires layout.Valid() && layout.structureBaseSize <= |s|
  {
    layout.SizeForFileNameLength(NameLength(layout, s))
  }

  /** Bytes that hold exactly one structure. */
  predicate IsStruct(layout: Layout, s: FileInfo) {
    layout.Valid() && layout.structureBaseSize <= |s| < U32_LIMIT && |s| == SizeOfStruct(layout, s)
  }

  function FileName(layout: Layout, s: FileInfo): (r: wstring)
    requires IsStruct(layout, s)
  {
    DecodeChars(s[layout.offsetOfFileName..layout.offsetOfFileName + NameLength(layout, s)])
  }

  function WithNextEntryOffset(layout: Layout, s: FileInfo, v: nat): (r: FileInfo)
    requires layout.Valid() && layout.structureBaseSize <= |s| && v < U32_LIMIT
    ensures |r| == |s|
  {
    WriteU32(s, layout.offsetOfNextEntryOffset, v)
  }

  /** Everything a structure says apart from where the next one is. */
  function Content(layout: Layout, s: FileInfo): (r: FileInfo)
    requires layout.Valid() && layout.structureBaseSize <= |s|
    ensures |r| == |s|
  {
    WithNextEntryOffset(layout, s, 0)
  }

  /** The next-entry offset has no influence on anything else. */
  lemma NextEntryOffsetIsSeparate(layout: Layout, s: FileInfo, v: nat)
    requires IsStruct(layout, s) && v < U32_LIMIT
    ensures
      var r := WithNextEntryOffset(layout, s, v);
      && IsStruct(layout, r) && FileName(layout, r) == FileName(layout, s)
      && Content(layout, r) == Content(layout, s)
      && ReadU32(r, layout.offsetOfNextEntryOffset) == v
  {
    var at, n, f := layout.offsetOfNextEntryOffset, layout.offsetOfFileNameLength, layout.offsetOfFileName;
    ReadWrittenU32(s, at, v);
    WriteKeepsAfter(s, at, v, n, n + 4);
    ReadSameU32(WriteU32(s, at, v), n, s, n);
    WriteKeepsAfter(s, at, v, f, f + NameLength(layout, s));
    WriteTwice(s, at, v, 0);
  }

  function Min(a: nat, b: nat): nat {
    if a <= b then a else b
  }

  /** The number of characters of a name that fit into what is left of a buffer. */
  function WritableChars(layout: Layout, capacity: nat, name: wstring): (r: nat)
    requires layout.Valid() && layout.structureBaseSize <= capacity
    ensures r <= |name| && layout.SizeForFileNameLength(2 * r) <= capacity
  {
    Min((capacity - layout.offsetOfFileName) / 2, |name|)
  }

  /** Replaces the name of the structure at the start of a buffer, and its length and next-entry
      offset accordingly. */
  function WithFileName(layout: Layout, buffer: seq<byte>, name: wstring): (r: seq<byte>)
    requires layout.Valid() && layout.structureBaseSize <= |buffer| < U32_LIMIT
    ensures |r| == |buffer|
  {
    var n, f := WritableChars(layout, |buffer|, name), layout.offsetOfFileName;
    var named := Overwrite(buffer, f, EncodeChars(name[..n]));
    WithNextEntryOffset(
      layout, WriteU32(named, layout.offsetOfFileNameLength, 2 * n), layout.SizeForFileNameLength(2 * n))
  }

  method WriteFileName(layout: Layout, buffer: array<byte>, name: wstring)
    requires layout.Valid() && layout.structureBaseSize <= buffer.Length < U32_LIMIT
    modifies buffer
    ensures buffer[..] == WithFileName(layout, old(buffer[..]), name)
  {
    var n, f := WritableChars(layout, buffer.Length, name), layout.offsetOfFileName;
    ghost var named := Overwrite(buffer[..], f, EncodeChars(name[..n]));
    StoreChars(buffer, f, name[..n]);
    assert buffer[..] == named;
    StoreU32(buffer, layout.offsetOfFileNameLength, 2 * n);
    assert buffer[..] == WriteU32(named, layout.offsetOfFileNameLength, 2 * n);
    StoreU32(buffer, layout.offsetOfNextEntryOffset, layout.SizeForFileNameLength(2 * n));
  }

  // ---------- Chained structures ----------

  /** A complete structure starts at a position. */
  predicate EntryAt(layout: Layout, buffer: seq<byte>, at: nat) {
    && layout.Valid()
    && at + layout.structureBaseSize <= |buffer|
    && at + layout.SizeForFileNameLength(ReadU32(buffer, at + layout.offsetOfFileNameLength)) <= |buffer|
  }

  function SizeAt(layout: Layout, buffer: seq<byte>, at: nat): (r: nat)
    requires EntryAt(layout, buffer, at)
    ensures layout.structureBaseSize <= r && at + r <= |buffer|
  {
    layout.SizeForFileNameLength(ReadU32(buffer, at + layout.offsetOfFileNameLength))
  }

  function NextAt(layout: Layout, buffer: seq<byte>, at: nat): nat
    requires EntryAt(layout, buffer, at)
  {
    ReadU32(buffer, at + layout.offsetOfNextEntryOffset)
  }

  /** Following next-entry offsets from a position stays inside the buffer, never steps back into a
      structure, and ends at an offset of zero. */
  predicate Chain(layout: Layout, buffer: seq<byte>, at: nat)
    decreases |buffer| - at
  {
    && EntryAt(layout, buffer, at)
    && (NextAt(layout, buffer, at) == 0
        || (SizeAt(layout, buffer, at) <= NextAt(layout, buffer, at)
            && at + NextAt(layout, buffer, at) <= |buffer|
            && Chain(layout, buffer, at + NextAt(layout, buffer, at))))
  }

  /** The structures met on the way. */
  function Entries(layout: Layout, buffer: seq<byte>, at: nat): (r: seq<FileInfo>)
    requires Chain(layout, buffer, at)
    ensures r != []
    decreases |buffer| - at
  {
    var size, next := SizeAt(layout, buffer, at), NextAt(layout, buffer, at);
    if next == 0 then [buffer[at..at + size]] else [buffer[at..at + size]] + Entries(layout, buffer, at + next)
  }

  lemma StructAt(layout: Layout, buffer: seq<byte>, at: nat)
    requires EntryAt(layout, buffer, at) && |buffer| < U32_LIMIT
    ensures IsStruct(layout, buffer[at..at + SizeAt(layout, buffer, at)])
  {
    var e := buffer[at..at + SizeAt(layout, buffer, at)];
    var n := layout.offsetOfFileNameLength;
    ReadSlice(buffer, at, |e|, n);
  }

  /** After a name is written, the buffer starts with a complete structure that has this name, cut off
      only where the buffer ends. */
  lemma NameIsWritten(layout: Layout, buffer: seq<byte>, name: wstring)
    requires layout.Valid() && layout.structureBaseSize <= |buffer| < U32_LIMIT
    ensures
      var r, n := WithFileName(layout, buffer, name), WritableChars(layout, |buffer|, name);
      && EntryAt(layout, r, 0)
      && SizeAt(layout, r, 0) == layout.SizeForFileNameLength(2 * n)
      && IsStruct(layout, r[..SizeAt(layout, r, 0)])
      && FileName(layout, r[..SizeAt(layout, r, 0)]) == name[..n]
  {
    LengthIsWritten(layout, buffer, name);
    CharsAreWritten(layout, buffer, name[..WritableChars(layout, |buffer|, name)]);
    NamedStruct(layout, WithFileName(layout, buffer, name), name[..WritableChars(layout, |buffer|, name)]);
  }

  lemma NamedStruct(layout: Layout, buffer: seq<byte>, name: wstring)
    requires layout.Valid() && layout.SizeForFileNameLength(2 * |name|) <= |buffer| < U32_LIMIT
    requires ReadU32(buffer, layout.offsetOfFileNameLength) == 2 * |name|
    requires buffer[layout.offsetOfFileName..layout.offsetOfFileName + 2 * |name|] == EncodeChars(name)
    ensures EntryAt(layout, buffer, 0) && SizeAt(layout, buffer, 0) == layout.SizeForFileNameLength(2 * |name|)
    ensures IsStruct(layout, buffer[..SizeAt(layout, buffer, 0)])
    ensures FileName(layout, buffer[..SizeAt(layout, buffer, 0)]) == name
  {
    var f, size := layout.offsetOfFileName, SizeAt(layout, buffer, 0);
    StructAt(layout, buffer, 0);
    TakeSlice(buffer, size, f, f + 2 * |name|);
    ReadSlice(buffer, 0, size, layout.offsetOfFileNameLength);
    var s, chars := buffer[..size], EncodeChars(name);
    assert NameLength(layout, s) == 2 * |name|;
    assert s[f..f + 2 * |name|] == chars;
    assert FileName(layout, s) == DecodeChars(chars);
    DecodeEncoded(name);
  }

  lemma LengthIsWritten(layout: Layout, buffer: seq<byte>, name: wstring)
    requires layout.Valid() && layout.structureBaseSize <= |buffer| < U32_LIMIT
    ensures
      ReadU32(WithFileName(layout, buffer, name), layout.offsetOfFileNameLength) ==
      2 * WritableChars(layout, |buffer|, name)
  {
    var n, l, f := WritableChars(layout, |buffer|, name), layout.offsetOfFileNameLength, layout.offsetOfFileName;
    var named := Overwrite(buffer, f, EncodeChars(name[..n]));
    var sized := WriteU32(named, l, 2 * n);
    ReadWrittenU32(named, l, 2 * n);
    WriteKeepsAfter(sized, layout.offsetOfNextEntryOffset, layout.SizeForFileNameLength(2 * n), l, l + 4);
    ReadSameU32(WithFileName(layout, buffer, name), l, sized, l);
  }

  lemma TakeSlice(s: seq<byte>, size: nat, from: nat, to: nat)
    requires from <= to <= size <= |s|
    ensures s[0..size] == s[..size] && s[..size][from..to] == s[from..to]
  {
  }

  lemma CharsAreWritten(layout: Layout, buffer: seq<byte>, chars: wstring)
    requires layout.Valid() && layout.SizeForFileNameLength(2 * |chars|) <= |buffer| < U32_LIMIT
    ensures
      var f, n := layout.offsetOfFileName, 2 * |chars|;
      var named := Overwrite(buffer, f, EncodeChars(chars));
      var sized := WriteU32(named, layout.offsetOfFileNameLength, n);
      var r := WithNextEntryOffset(layout, sized, layout.SizeForFileNameLength(n));
      r[f..f + n] == EncodeChars(chars)
  {
    var f, n := layout.offsetOfFileName, 2 * |chars|;
    var named := Overwrite(buffer, f, EncodeChars(chars));
    MiddleOfThree(buffer[..f], EncodeChars(chars), buffer[f + n..]);
    WriteKeepsAfter(named, layout.offsetOfFileNameLength, n, f, f + n);
    var sized := WriteU32(named, layout.offsetOfFileNameLength, n);
    WriteKeepsAfter(sized, layout.offsetOfNextEntryOffset, layout.SizeForFileNameLength(n), f, f + n);
  }

  lemma MiddleOfThree(a: seq<byte>, b: seq<byte>, c: seq<byte>)
    ensures (a + b + c)[|a|..|a| + |b|] == b
  {
  }

  lemma {:induction false} EntriesAreStructs(layout: Layout, buffer: seq<byte>, at: nat)
    requires Chain(layout, buffer, at) && |buffer| < U32_LIMIT
    ensures forall e :: e in Entries(layout, buffer, at) ==> IsStruct(layout, e)
    decreases |buffer| - at
  {
    StructAt(layout, buffer, at);
    if NextAt(layout, buffer, at) != 0 {
      EntriesAreStructs(layout, buffer, at + NextAt(layout, buffer, at));
    }
  }

  // ---------- Storing into a buffer in place ----------

  method ClearNextEntryOffset(layout: Layout, buffer: array<byte>, at: nat)
    requires layout.Valid() && at + layout.structureBaseSize <= buffer.Length
    modifies buffer
    ensures buffer[..] == WriteU32(old(buffer[..]), at + layout.offsetOfNextEntryOffset, 0)
  {
    StoreU32(buffer, at + layout.offsetOfNextEntryOffset, 0);
  }

  /** Makes a structure point just past its own end. */
  method UpdateNextEntryOffset(layout: Layout, buffer: array<byte>, at: nat)
    requires EntryAt(layout, buffer[..], at) && buffer.Length < U32_LIMIT
    modifies buffer
    ensures
      buffer[..] ==
      WriteU32(old(buffer[..]), at + layout.offsetOfNextEntryOffset, SizeAt(layout, old(buffer[..]), at))
  {
    StoreU32(buffer, at + layout.offsetOfNextEntryOffset, SizeAt(layout, buffer[..], at));
  }

  /** Stores a name length, and the next-entry offset that goes with it. */
  method WriteFileNameLength(layout: Layout, buffer: array<byte>, fileNameLength: nat)
    requires layout.Valid() && layout.structureBaseSize <= buffer.Length
    requires layout.SizeForFileNameLength(fileNameLength) < U32_LIMIT
    modifies buffer
    ensures
      buffer[..] ==
      WithNextEntryOffset(
        layout, WriteU32(old(buffer[..]), layout.offsetOfFileNameLength, fileNameLength),
        layout.SizeForFileNameLength(fileNameLength))
  {
    StoreU32(buffer, layout.offsetOfFileNameLength, fileNameLength);
    StoreU32(buffer, layout.offsetOfNextEntryOffset, layout.SizeForFileNameLength(fileNameLength));
  }

  lemma OverwriteNext(before: seq<byte>, packed: seq<byte>, next: seq<byte>)
    requires |packed| + |next| <= |before|
    ensures Overwrite(Overwrite(before, 0, packed), |packed|, next) == Overwrite(before, 0, packed + next)
  {
  }

  lemma OverwrittenAt(before: seq<byte>, packed: seq<byte>, next: seq<byte>)
    requires |packed| + |next| <= |before|
    ensures Overwrite(before, 0, packed + next)[|packed|..|packed| + |next|] == next
  {
  }

  lemma WriteInside(before: seq<byte>, packed: seq<byte>, next: seq<byte>, i: nat, v: nat)
    requires |packed| + |next| <= |before| && i + 4 <= |next| && v < U32_LIMIT
    ensures
      WriteU32(Overwrite(before, 0, packed + next), |packed| + i, v) ==
      Overwrite(before, 0, packed + WriteU32(next, i, v))
  {
  }

  // ---------- Packing ----------

  predicate AreStructs(layout: Layout, entries: seq<FileInfo>) {
    layout.Valid() && forall e :: e in entries ==> IsStruct(layout, e)
  }

  /** Structures one right after the other, each pointing just past its own end. */
  function Packed(layout: Layout, entries: seq<FileInfo>): (r: seq<byte>)
    requires AreStructs(layout, entries)
  {
    if entries == [] then []
    else
      var n := |entries| - 1;
      assert entries[n] in entries;
      Packed(layout, entries[..n]) + WithNextEntryOffset(layout, entries[n], |entries[n]|)
  }

  /** The same with the last structure marked as the last. */
  function PackedAndClosed(layout: Layout, entries: seq<FileInfo>): (r: seq<byte>)
    requires AreStructs(layout, entries)
  {
    if entries == [] then []
    else
      var n := |entries| - 1;
      assert entries[n] in entries;
      Packed(layout, entries[..n]) + Content(layout, entries[n])
  }

  function TotalSize(entries: seq<FileInfo>): nat {
    if entries == [] then 0 else TotalSize(entries[..|entries| - 1]) + |entries[|entries| - 1]|
  }

  lemma {:induction false} TotalSizeCons(first: FileInfo, rest: seq<FileInfo>)
    ensures TotalSize([first] + rest) == |first| + TotalSize(rest)
  {
    var n := |rest| - 1;
    if rest == [] {
      assert [first] + rest == [first] && [first][..0] == [];
    } else {
      TotalSizeCons(first, rest[..n]);
      assert ([first] + rest)[..n + 1] == [first] + rest[..n];
    }
  }

  lemma {:induction false} PackedSize(layout: Layout, entries: seq<FileInfo>)
    requires AreStructs(layout, entries)
    ensures |Packed(layout, entries)| == TotalSize(entries) == |PackedAndClosed(layout, entries)|
  {
    if entries != [] {
      PackedSize(layout, entries[..|entries| - 1]);
    }
  }

  function Contents(layout: Layout, entries: seq<FileInfo>): (r: seq<FileInfo>)
    requires AreStructs(layout, entries)
    ensures |r| == |entries|
  {
    seq(|entries|, i requires 0 <= i < |entries| => assert entries[i] in entries; Content(layout, entries[i]))
  }

  /** How the k-th structure is stored. */
  function Stored(layout: Layout, entries: seq<FileInfo>, k: nat): FileInfo
    requires AreStructs(layout, entries) && k < |entries|
  {
    assert entries[k] in entries;
    if k == |entries| - 1 then Content(layout, entries[k])
    else WithNextEntryOffset(layout, entries[k], |entries[k]|)
  }

  lemma TotalSizeStep(entries: seq<FileInfo>, k: nat)
    requires k < |entries|
    ensures TotalSize(entries[..k + 1]) == TotalSize(entries[..k]) + |entries[k]|
  {
    assert entries[..k + 1][..k] == entries[..k];
  }

  lemma {:induction false} TotalSizeMonotone(entries: seq<FileInfo>, k: nat)
    requires k <= |entries|
    ensures TotalSize(entries[..k]) <= TotalSize(entries)
    decreases |entries| - k
  {
    if k < |entries| {
      TotalSizeStep(entries, k);
      TotalSizeMonotone(entries, k + 1);
    } else {
      assert entries[..k] == entries;
    }
  }

  lemma SliceOfConcat(a: seq<byte>, b: seq<byte>, from: nat, to: nat)
    requires from <= to <= |a|
    ensures (a + b)[from..to] == a[from..to]
  {
  }

  lemma {:induction false} PackedSlice(layout: Layout, entries: seq<FileInfo>, k: nat)
    requires AreStructs(layout, entries) && k < |entries|
    ensures
      var from, to := TotalSize(entries[..k]), TotalSize(entries[..k + 1]);
      assert entries[k] in entries;
      && from <= to <= |Packed(layout, entries)|
      && Packed(layout, entries)[from..to] == WithNextEntryOffset(layout, entries[k], |entries[k]|)
  {
    var n := |entries| - 1;
    assert entries[n] in entries;
    var before, last := Packed(layout, entries[..n]), WithNextEntryOffset(layout, entries[n], |entries[n]|);
    assert Packed(layout, entries) == before + last;
    PackedSize(layout, entries[..n]);
    TotalSizeStep(entries, k);
    var from, to := TotalSize(entries[..k]), TotalSize(entries[..k + 1]);
    if k < n {
      PackedSlice(layout, entries[..n], k);
      assert entries[..n][..k] == entries[..k] && entries[..n][..k + 1] == entries[..k + 1];
      SliceOfConcat(before, last, from, to);
    } else {
      assert (before + last)[from..to] == last;
    }
  }

  lemma SliceOfThree(a: seq<byte>, b: seq<byte>, c: seq<byte>, from: nat, to: nat)
    requires from <= to <= |a|
    ensures (a + b + c)[from..to] == a[from..to]
  {
  }

  ghost predicate StoredAt(layout: Layout, buffer: seq<byte>, entries: seq<FileInfo>, k: nat)
    requires AreStructs(layout, entries) && k < |entries|
  {
    var from, to := TotalSize(entries[..k]), TotalSize(entries[..k + 1]);
    from <= to <= |buffer| && buffer[from..to] == Stored(layout, entries, k)
  }

  lemma StoredSlice(layout: Layout, entries: seq<FileInfo>, rest: seq<byte>, k: nat)
    requires AreStructs(layout, entries) && k < |entries|
    ensures
      StoredAt(layout, PackedAndClosed(layout, entries) + rest, entries, k)
  {
    var n := |entries| - 1;
    assert entries[n] in entries;
    var before, last := Packed(layout, entries[..n]), Content(layout, entries[n]);
    PackedSize(layout, entries[..n]);
    TotalSizeStep(entries, k);
    var from, to := TotalSize(entries[..k]), TotalSize(entries[..k + 1]);
    if k < n {
      PackedSlice(layout, entries[..n], k);
      assert entries[..n][..k] == entries[..k] && entries[..n][..k + 1] == entries[..k + 1];
      SliceOfThree(before, last, rest, from, to);
    } else {
      MiddleOfThree(before, last, rest);
    }
  }

  lemma StoredEntry(layout: Layout, buffer: seq<byte>, at: nat, e: FileInfo)
    requires IsStruct(layout, e) && at + |e| <= |buffer| && buffer[at..at + |e|] == e
    ensures EntryAt(layout, buffer, at) && SizeAt(layout, buffer, at) == |e|
    ensures NextAt(layout, buffer, at) == ReadU32(e, layout.offsetOfNextEntryOffset)
  {
    var n, o := layout.offsetOfFileNameLength, layout.offsetOfNextEntryOffset;
    ReadSlice(buffer, at, |e|, n);
    ReadSlice(buffer, at, |e|, o);
  }

  lemma ContentsCons(layout: Layout, e: FileInfo, entries: seq<FileInfo>)
    requires IsStruct(layout, e) && AreStructs(layout, entries)
    ensures AreStructs(layout, [e] + entries)
    ensures Contents(layout, [e] + entries) == [Content(layout, e)] + Contents(layout, entries)
  {
  }

  /** What a walk from a position gives, apart from next-entry offsets. */
  ghost predicate Walks(layout: Layout, buffer: seq<byte>, at: nat, contents: seq<FileInfo>) {
    && Chain(layout, buffer, at)
    && AreStructs(layout, Entries(layout, buffer, at))
    && Contents(layout, Entries(layout, buffer, at)) == contents
  }

  lemma WalkLast(layout: Layout, buffer: seq<byte>, at: nat)
    requires EntryAt(layout, buffer, at) && NextAt(layout, buffer, at) == 0 && |buffer| < U32_LIMIT
    ensures Walks(layout, buffer, at, [Content(layout, buffer[at..at + SizeAt(layout, buffer, at)])])
  {
    var e := buffer[at..at + SizeAt(layout, buffer, at)];
    StructAt(layout, buffer, at);
    assert Entries(layout, buffer, at) == [e];
    assert Contents(layout, [e]) == [Content(layout, e)];
  }

  lemma WalkStep(layout: Layout, buffer: seq<byte>, at: nat, next: nat, tail: seq<FileInfo>)
    requires EntryAt(layout, buffer, at) && NextAt(layout, buffer, at) == next && |buffer| < U32_LIMIT
    requires SizeAt(layout, buffer, at) <= next && at + next <= |buffer| && Walks(layout, buffer, at + next, tail)
    ensures Walks(layout, buffer, at, [Content(layout, buffer[at..at + SizeAt(layout, buffer, at)])] + tail)
  {
    hide ReadU32, Overwrite, IsStruct;
    var e, rest := buffer[at..at + SizeAt(layout, buffer, at)], Entries(layout, buffer, at + next);
    StructAt(layout, buffer, at);
    EntriesStep(layout, buffer, at, |e|, next);
    WalkCons(layout, buffer, at, e, rest);
  }

  lemma WalkCons(layout: Layout, buffer: seq<byte>, at: nat, e: FileInfo, rest: seq<FileInfo>)
    requires IsStruct(layout, e) && AreStructs(layout, rest)
    requires Chain(layout, buffer, at) && Entries(layout, buffer, at) == [e] + rest
    ensures Walks(layout, buffer, at, [Content(layout, e)] + Contents(layout, rest))
  {
    ContentsCons(layout, e, rest);
  }

  lemma EntriesStep(layout: Layout, buffer: seq<byte>, at: nat, size: nat, next: nat)
    requires EntryAt(layout, buffer, at) && SizeAt(layout, buffer, at) == size && NextAt(layout, buffer, at) == next
    requires next == 0 || (size <= next && at + next <= |buffer| && Chain(layout, buffer, at + next))
    ensures Chain(layout, buffer, at)
    ensures
      Entries(layout, buffer, at) ==
      if next == 0 then [buffer[at..at + size]]
      else [buffer[at..at + size]] + Entries(layout, buffer, at + next)
  {
  }

  lemma StoredFacts(layout: Layout, buffer: seq<byte>, entries: seq<FileInfo>, k: nat)
    returns (at: nat, stored: FileInfo)
    requires AreStructs(layout, entries) && k < |entries| && StoredAt(layout, buffer, entries, k)
    ensures at == TotalSize(entries[..k]) && TotalSize(entries[..k + 1]) == at + |entries[k]|
    ensures |stored| == |entries[k]| && IsStruct(layout, stored) && IsStruct(layout, entries[k])
    ensures at + |stored| <= |buffer| && buffer[at..at + |stored|] == stored
    ensures Content(layout, stored) == Content(layout, entries[k])
    ensures ReadU32(stored, layout.offsetOfNextEntryOffset) == if k == |entries| - 1 then 0 else |stored|
  {
    assert entries[k] in entries;
    at, stored := TotalSize(entries[..k]), Stored(layout, entries, k);
    TotalSizeStep(entries, k);
    NextEntryOffsetIsSeparate(layout, entries[k], if k == |entries| - 1 then 0 else |entries[k]|);
  }

  /** The k-th stored structure as a walk meets it. */
  lemma StoredEntryAt(layout: Layout, buffer: seq<byte>, entries: seq<FileInfo>, k: nat) returns (at: nat, size: nat)
    requires AreStructs(layout, entries) && k < |entries| && StoredAt(layout, buffer, entries, k)
    ensures at == TotalSize(entries[..k]) && TotalSize(entries[..k + 1]) == at + size
    ensures EntryAt(layout, buffer, at) && SizeAt(layout, buffer, at) == size
    ensures NextAt(layout, buffer, at) == if k == |entries| - 1 then 0 else size
    ensures Content(layout, buffer[at..at + size]) == Content(layout, entries[k]) && IsStruct(layout, entries[k])
  {
    var stored;
    at, stored := StoredFacts(layout, buffer, entries, k);
    size := |stored|;
    assert buffer[at..at + size] == stored;
    assert Content(layout, buffer[at..at + size]) == Content(layout, stored);
    StoredEntry(layout, buffer, at, stored);
  }

  lemma ContentsSuffix(layout: Layout, entries: seq<FileInfo>, k: nat)
    requires AreStructs(layout, entries) && k < |entries| && IsStruct(layout, entries[k])
    ensures Contents(layout, entries)[k..] == [Content(layout, entries[k])] + Contents(layout, entries)[k + 1..]
  {
  }

  lemma {:induction false} WalkStored(layout: Layout, buffer: seq<byte>, entries: seq<FileInfo>, k: nat)
    requires AreStructs(layout, entries) && k < |entries|
    requires |buffer| < U32_LIMIT && forall j: nat :: j < |entries| ==> StoredAt(layout, buffer, entries, j)
    ensures Walks(layout, buffer, TotalSize(entries[..k]), Contents(layout, entries)[k..])
    decreases |entries| - k
  {
    hide ReadU32, Overwrite, IsStruct, Walks, TotalSize;
    assert StoredAt(layout, buffer, entries, k);
    if k == |entries| - 1 {
      var at, size := StoredEntryAt(layout, buffer, entries, k);
      WalkLast(layout, buffer, at);
      ContentsSuffix(layout, entries, k);
      assert Contents(layout, entries)[k..] == [Content(layout, entries[k])];
    } else {
      WalkStored(layout, buffer, entries, k + 1);
      WalkStoredStep(layout, buffer, entries, k);
    }
  }

  lemma WalkStoredStep(layout: Layout, buffer: seq<byte>, entries: seq<FileInfo>, k: nat)
    requires AreStructs(layout, entries) && k + 1 < |entries| && |buffer| < U32_LIMIT
    requires StoredAt(layout, buffer, entries, k)
    requires Walks(layout, buffer, TotalSize(entries[..k + 1]), Contents(layout, entries)[k + 1..])
    ensures Walks(layout, buffer, TotalSize(entries[..k]), Contents(layout, entries)[k..])
  {
    hide ReadU32, Overwrite, IsStruct, Walks;
    var at, size := StoredEntryAt(layout, buffer, entries, k);
    WalkStep(layout, buffer, at, size, Contents(layout, entries)[k + 1..]);
    ContentsSuffix(layout, entries, k);
  }

  /** Walking a packed buffer by next-entry offsets, until one is zero, gives back exactly the
      structures that were packed, whatever bytes follow them. */
  lemma UnpackPacked(layout: Layout, entries: seq<FileInfo>, rest: seq<byte>)
    requires AreStructs(layout, entries) && entries != []
    requires |PackedAndClosed(layout, entries) + rest| < U32_LIMIT
    ensures Walks(layout, PackedAndClosed(layout, entries) + rest, 0, Contents(layout, entries))
  {
    var buffer := PackedAndClosed(layout, entries) + rest;
    forall j: nat | j < |entries|
      ensures StoredAt(layout, buffer, entries, j)
    {
      StoredSlice(layout, entries, rest, j);
    }
    WalkStored(layout, buffer, entries, 0);
    assert TotalSize(entries[..0]) == 0;
    assert Contents(layout, entries)[0..] == Contents(layout, entries);
  }
}
