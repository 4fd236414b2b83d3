/**
 * The stored-only ZIP writer and the reader of zip.js (PKWARE APPNOTE sections 4.3.7, 4.3.12, 4.3.16 and
 * 4.4.7), byte by byte. Names are JavaScript strings; the UTF-8 codec, the raw inflater and the checksum
 * are parameters of the model.
 */
module Zip {
  import opened Text
  import Crc32

  type Byte = x: int | 0 <= x < 0x100
  type Bytes = seq<Byte>
  type Word = x: int | 0 <= x < 0x1_0000_0000

  datatype File = File(name: string, data: Bytes)

  datatype Codec = Codec(
    encode: string -> Bytes,
    decode: Bytes -> string,
    inflate: Bytes -> Option<Bytes>
  )

  datatype Error = OutOfRange | NotAnArchive | BadCentralDirectory | UnsupportedMethod | BadDeflateStream

  const LOCAL: Bytes := [0x50, 0x4B, 3, 4]
  const CENTRAL: Bytes := [0x50, 0x4B, 1, 2]
  const END: Bytes := [0x50, 0x4B, 5, 6]
  const CENTRAL_WORD: Word := 0x02014b50

  // ---------------------------------------------------------------- little-endian fields

  function U16(v: int): (r: Bytes)
    requires 0 <= v < 0x1_0000
    ensures |r| == 2
  {
    [v % 0x100, v / 0x100]
  }

  function U32(v: Word): (r: Bytes)
    ensures |r| == 4
  {
    [v % 0x100, v / 0x100 % 0x100, v / 0x1_0000 % 0x100, v / 0x100_0000]
  }

  function U16At(buf: Bytes, at: nat): Option<nat> {
    if at + 2 > |buf| then None
    else
      var v: int := (buf[at] as int) + 0x100 * (buf[at + 1] as int);
      Some(v)
  }

  function U32At(buf: Bytes, at: nat): Option<nat> {
    if at + 4 > |buf| then None
    else
      var v: int := (buf[at] as int) + 0x100 * (buf[at + 1] as int) + 0x1_0000 * (buf[at + 2] as int) + 0x100_0000 * (buf[at + 3] as int);
      Some(v)
  }

  /** `part` stands at `at` in `buf`. */
  predicate Stands(buf: Bytes, at: nat, part: Bytes) {
    at + |part| <= |buf| && buf[at..at + |part|] == part
  }

  lemma StandsInside(buf: Bytes, at: nat, whole: Bytes, pre: Bytes, part: Bytes, post: Bytes)
    requires Stands(buf, at, whole) && whole == pre + part + post
    ensures Stands(buf, at + |pre|, part)
  {
    var at' := at + |pre|;
    forall i | 0 <= i < |part| ensures buf[at' + i] == part[i] {
      assert buf[at' + i] == buf[at..at + |whole|][|pre| + i];
    }
    assert buf[at'..at' + |part|] == part;
  }

  lemma ReadsU16(buf: Bytes, at: nat, v: nat)
    requires v < 0x1_0000 && Stands(buf, at, U16(v))
    ensures U16At(buf, at) == Some(v)
  {
    var s := buf[at..at + 2];
    assert buf[at] == s[0] && buf[at + 1] == s[1];
  }

  lemma ReadsU32(buf: Bytes, at: nat, v: Word)
    requires Stands(buf, at, U32(v))
    ensures U32At(buf, at) == Some(v)
  {
    var s := buf[at..at + 4];
    assert buf[at] == s[0] && buf[at + 1] == s[1] && buf[at + 2] == s[2] && buf[at + 3] == s[3];
    FourDigits(v);
  }

  lemma FourDigits(v: Word)
    ensures U32(v)[0] + 0x100 * U32(v)[1] as int + 0x1_0000 * U32(v)[2] as int + 0x100_0000 * U32(v)[3] as int == v
  {
    assert v / 0x1_0000 == v / 0x100 / 0x100 && v / 0x100_0000 == v / 0x1_0000 / 0x100;
  }

  // ---------------------------------------------------------------- the writer

  /** `crc32` of the data, as the number the header fields hold. */
  function Crc(data: Bytes): Word {
    Crc32.Checksum(seq(|data|, i requires 0 <= i < |data| => data[i] as Crc32.Byte)) as int
  }

  /** The fields of a file fit its headers. */
  predicate FileFits(f: File, c: Codec) {
    |c.encode(f.name)| < 0x1_0000 && |f.data| < 0x1_0000_0000
  }

  /** The fields both headers share: checksum, the two sizes, and the lengths of name and extra field. */
  function Sizes(f: File, c: Codec): (r: Bytes)
    requires FileFits(f, c)
    ensures |r| == 16
  {
    U32(Crc(f.data)) + U32(|f.data|) + U32(|f.data|) + U16(|c.encode(f.name)|) + U16(0)
  }

  const LOCAL_START: Bytes := LOCAL + U16(20) + U16(0) + U16(0) + U16(0) + U16(0)
  const CENTRAL_START: Bytes := CENTRAL + U16(20) + U16(20) + U16(0) + U16(0) + U16(0) + U16(0)

  function LocalHead(f: File, c: Codec): (r: Bytes)
    requires FileFits(f, c)
    ensures |r| == 30
  {
    LOCAL_START + Sizes(f, c)
  }

  function Local(f: File, c: Codec): (r: Bytes)
    requires FileFits(f, c)
    ensures |r| == 30 + |c.encode(f.name)| + |f.data|
  {
    LocalHead(f, c) + c.encode(f.name) + f.data
  }

  /** Comment length, disk, attributes and the offset of the local header. */
  function CentralTail(offset: Word): (r: Bytes)
    ensures |r| == 14
  {
    U16(0) + U16(0) + U16(0) + U32(0) + U32(offset)
  }

  function CentralHead(f: File, offset: Word, c: Codec): (r: Bytes)
    requires FileFits(f, c)
    ensures |r| == 46
  {
    CENTRAL_START + Sizes(f, c) + CentralTail(offset)
  }

  function Central(f: File, offset: Word, c: Codec): (r: Bytes)
    requires FileFits(f, c)
    ensures |r| == 46 + |c.encode(f.name)|
  {
    CentralHead(f, offset, c) + c.encode(f.name)
  }

  function LocalsSize(files: seq<File>, c: Codec): nat {
    if files == [] then 0
    else LocalsSize(files[..|files| - 1], c) + 30 + |c.encode(files[|files| - 1].name)| + |files[|files| - 1].data|
  }

  function CentralsSize(files: seq<File>, c: Codec): nat {
    if files == [] then 0
    else CentralsSize(files[..|files| - 1], c) + 46 + |c.encode(files[|files| - 1].name)|
  }

  /** Every file fits, and starts below four gigabytes. */
  predicate RecordsFit(files: seq<File>, c: Codec) {
    files != [] ==>
      var front := files[..|files| - 1];
      RecordsFit(front, c) && FileFits(files[|files| - 1], c) && LocalsSize(front, c) < 0x1_0000_0000
  }

  function Locals(files: seq<File>, c: Codec): (r: Bytes)
    requires RecordsFit(files, c)
    ensures |r| == LocalsSize(files, c)
  {
    if files == [] then [] else Locals(files[..|files| - 1], c) + Local(files[|files| - 1], c)
  }

  function Centrals(files: seq<File>, c: Codec): (r: Bytes)
    requires RecordsFit(files, c)
    ensures |r| == CentralsSize(files, c)
  {
    if files == [] then []
    else
      var front := files[..|files| - 1];
      Centrals(front, c) + Central(files[|files| - 1], LocalsSize(front, c), c)
  }

  function EndRecord(count: nat, size: Word, offset: Word): (r: Bytes)
    requires count < 0x1_0000
    ensures |r| == 22
  {
    END + U16(0) + U16(0) + U16(count) + U16(count) + U32(size) + U32(offset) + U16(0)
  }

  /** The archive can be written: no 16- or 32-bit field overflows. */
  predicate Fits(files: seq<File>, c: Codec) {
    && RecordsFit(files, c)
    && |files| < 0x1_0000
    && CentralsSize(files, c) < 0x1_0000_0000
    && LocalsSize(files, c) < 0x1_0000_0000
  }

  function Archive(files: seq<File>, c: Codec): Bytes
    requires Fits(files, c)
  {
    Locals(files, c) + Centrals(files, c) + EndRecord(|files|, CentralsSize(files, c), LocalsSize(files, c))
  }

  /** Fitting, without the running offsets: small names, few files, and two total sizes. */
  lemma {:induction false} FitsIff(files: seq<File>, c: Codec)
    ensures Fits(files, c) <==>
            && (forall f :: f in files ==> |c.encode(f.name)| < 0x1_0000)
            && |files| < 0x1_0000
            && CentralsSize(files, c) < 0x1_0000_0000
            && LocalsSize(files, c) < 0x1_0000_0000
  {
    if LocalsSize(files, c) < 0x1_0000_0000 {
      RecordsFitIff(files, c);
    }
  }

  lemma {:induction false} RecordsFitIff(files: seq<File>, c: Codec)
    requires LocalsSize(files, c) < 0x1_0000_0000
    ensures RecordsFit(files, c) <==> forall f :: f in files ==> |c.encode(f.name)| < 0x1_0000
  {
    if files != [] {
      var front, last := files[..|files| - 1], files[|files| - 1];
      RecordsFitIff(front, c);
      InLast(files);
      assert FileFits(last, c) <==> |c.encode(last.name)| < 0x1_0000;
    }
  }

  lemma InLast<T>(s: seq<T>)
    requires s != []
    ensures forall x :: x in s <==> x in s[..|s| - 1] || x == s[|s| - 1]
  {
    assert s == s[..|s| - 1] + [s[|s| - 1]];
  }

  lemma LastOf<T>(s: seq<T>, i: nat)
    requires i < |s|
    ensures s[..i + 1][..i] == s[..i] && s[..i + 1][i] == s[i]
  {
  }

  lemma {:induction false} FitsSoFar(files: seq<File>, n: nat, c: Codec)
    requires n <= |files| && RecordsFit(files, c)
    ensures RecordsFit(files[..n], c)
    decreases |files| - n
  {
    if n < |files| {
      FitsSoFar(files, n + 1, c);
      LastOf(files, n);
    } else {
      assert files[..n] == files;
    }
  }

  /** `zipStore`: it throws exactly when some field overflows, and otherwise writes the archive. */
  method ZipStore(files: seq<File>, c: Codec) returns (r: Result<Bytes, Error>)
    ensures r == if Fits(files, c) then Ok(Archive(files, c)) else Err(OutOfRange)
  {
    var locals: Bytes := [];
    var centrals: Bytes := [];
    var offset := 0;
    for i := 0 to |files|
      invariant RecordsFit(files[..i], c)
      invariant locals == Locals(files[..i], c) && centrals == Centrals(files[..i], c)
      invariant offset == |locals|
    {
      var file := files[i];
      LastOf(files, i);
      if !FileFits(file, c) || offset >= 0x1_0000_0000 {
        if RecordsFit(files, c) { FitsSoFar(files, i + 1, c); }
        return Err(OutOfRange);
      }
      var local := Local(file, c);
      locals := locals + local;
      centrals := centrals + Central(file, offset, c);
      offset := offset + |local|;
    }
    assert files[..|files|] == files;
    if |files| >= 0x1_0000 || |centrals| >= 0x1_0000_0000 || offset >= 0x1_0000_0000 {
      return Err(OutOfRange);
    }
    return Ok(locals + centrals + EndRecord(|files|, |centrals|, offset));
  }

  // ---------------------------------------------------------------- the reader

  /** `Buffer.slice`, which clamps to the buffer. */
  function Slice(buf: Bytes, from: nat, to: nat): Bytes
    requires from <= to
  {
    if from >= |buf| then [] else if to >= |buf| then buf[from..] else buf[from..to]
  }

  function Slashed(name: string): (r: string)
    ensures |r| == |name|
    ensures forall i :: 0 <= i < |r| ==> r[i] == if name[i] == '\\' then '/' else name[i]
  {
    seq(|name|, i requires 0 <= i < |name| => if name[i] == '\\' then '/' else name[i])
  }

  predicate EndAt(buf: Bytes, at: int) {
    0 <= at && at + 4 <= |buf| && buf[at] == END[0] && buf[at + 1] == END[1] && buf[at + 2] == END[2] && buf[at + 3] == END[3]
  }

  /** The last place, at or before `from`, where an end record may start. */
  function LastEnd(buf: Bytes, from: int): Option<nat>
    requires from + 22 <= |buf|
    decreases from + 1
  {
    if from < 0 then None
    else if EndAt(buf, from) then Some(from)
    else LastEnd(buf, from - 1)
  }

  datatype Entry = Entry(name: string, data: Bytes, next: nat)

  function Inflated(kind: nat, compressed: Bytes, c: Codec): Result<Bytes, Error> {
    if kind == 8 then (match c.inflate(compressed) case Some(data) => Ok(data) case None => Err(BadDeflateStream))
    else if kind != 0 then Err(UnsupportedMethod)
    else Ok(compressed)
  }

  /** The data of an entry, found through its local header. */
  function ReadLocal(buf: Bytes, kind: nat, size: nat, local: nat, c: Codec): Result<Bytes, Error> {
    match (U16At(buf, local + 26), U16At(buf, local + 28))
    case (Some(nameLen), Some(extraLen)) =>
      var start := local + 30 + nameLen + extraLen;
      Inflated(kind, Slice(buf, start, start + size), c)
    case _ => Err(OutOfRange)
  }

  /** One central record and what it points at. */
  function ReadEntry(buf: Bytes, offset: nat, c: Codec): Result<Entry, Error> {
    match U32At(buf, offset)
    case None => Err(OutOfRange)
    case Some(signature) =>
      if signature != CENTRAL_WORD then Err(BadCentralDirectory)
      else
        match (U16At(buf, offset + 10), U32At(buf, offset + 20), U16At(buf, offset + 28), U16At(buf, offset + 30),
               U16At(buf, offset + 32), U32At(buf, offset + 42))
        case (Some(kind), Some(size), Some(nameLen), Some(extraLen), Some(commentLen), Some(local)) =>
          var name := c.decode(Slice(buf, offset + 46, offset + 46 + nameLen));
          (match ReadLocal(buf, kind, size, local, c)
           case Err(e) => Err(e)
           case Ok(data) => Ok(Entry(name, data, offset + 46 + nameLen + extraLen + commentLen)))
        case _ => Err(OutOfRange)
  }

  function ReadEntries(buf: Bytes, offset: nat, count: nat, files: map<string, Bytes>, c: Codec)
    : Result<map<string, Bytes>, Error>
    decreases count
  {
    if count == 0 then Ok(files)
    else
      match ReadEntry(buf, offset, c)
      case Err(e) => Err(e)
      case Ok(entry) => ReadEntries(buf, entry.next, count - 1, files[Slashed(entry.name) := entry.data], c)
  }

  function Unzipped(buf: Bytes, c: Codec): Result<map<string, Bytes>, Error> {
    if |buf| < 22 then Err(NotAnArchive)
    else
      match LastEnd(buf, |buf| - 22)
      case None => Err(NotAnArchive)
      case Some(end) =>
        match (U16At(buf, end + 10), U32At(buf, end + 16))
        case (Some(count), Some(offset)) => ReadEntries(buf, offset, count, map[], c)
        case _ => Err(OutOfRange)
  }

  lemma {:induction false} LastEndIs(buf: Bytes, from: int, at: int)
    requires from + 22 <= |buf| && at <= from
    requires forall i :: at < i <= from ==> !EndAt(buf, i)
    requires at < 0 || EndAt(buf, at)
    ensures LastEnd(buf, from) == if at < 0 then None else Some(at)
    decreases from + 1
  {
    if from >= 0 && at < from {
      LastEndIs(buf, from - 1, at);
    }
  }

  lemma FieldsInside(buf: Bytes, at: nat)
    requires at + 22 <= |buf|
    ensures U16At(buf, at + 10).Some? && U32At(buf, at + 16).Some?
  {
  }

  /** The backward search for the end record; -1 if there is none. */
  method FindEnd(bytes: Bytes) returns (eocd: int)
    ensures eocd < 0 <==> |bytes| < 22 || LastEnd(bytes, |bytes| - 22).None?
    ensures eocd >= 0 ==> eocd + 22 <= |bytes| && LastEnd(bytes, |bytes| - 22) == Some(eocd)
  {
    eocd := -1;
    var i := |bytes| - 22;
    while i >= 0 && eocd < 0
      invariant -1 <= eocd && (eocd < 0 || eocd <= |bytes| - 22) && i <= |bytes| - 22
      invariant (eocd >= 0 ==> i < eocd) && (|bytes| >= 22 ==> -1 <= i)
      invariant forall k :: i < k <= |bytes| - 22 && eocd < k ==> !EndAt(bytes, k)
      invariant eocd < 0 || EndAt(bytes, eocd)
      decreases i
    {
      if bytes[i] == 0x50 && bytes[i + 1] == 0x4B && bytes[i + 2] == 5 && bytes[i + 3] == 6 {
        eocd := i;
      }
      i := i - 1;
    }
    if |bytes| >= 22 {
      LastEndIs(bytes, |bytes| - 22, eocd);
    }
  }

  /** `unzip`: the end record, then one pass over the central directory. */
  method Unzip(bytes: Bytes, c: Codec) returns (r: Result<map<string, Bytes>, Error>)
    ensures r == Unzipped(bytes, c)
  {
    hide U16At, U32At, ReadEntry, LastEnd, Slashed;
    var eocd := FindEnd(bytes);
    if eocd < 0 {
      return Err(NotAnArchive);
    }
    FieldsInside(bytes, eocd);
    var entries := U16At(bytes, eocd + 10).value;
    var offset := U32At(bytes, eocd + 16).value;
    var files: map<string, Bytes> := map[];
    for n := 0 to entries
      invariant ReadEntries(bytes, offset, entries - n, files, c) == Unzipped(bytes, c)
    {
      var entry := ReadEntry(bytes, offset, c);
      if entry.Err? {
        return Err(entry.error);
      }
      files := files[Slashed(entry.value.name) := entry.value.data];
      offset := entry.value.next;
    }
    return Ok(files);
  }

  // ---------------------------------------------------------------- the round trip

  /** What a reader's map holds after the files have been set in order. */
  function Named(files: seq<File>, m: map<string, Bytes>): map<string, Bytes> {
    if files == [] then m else Named(files[1..], m[Slashed(files[0].name) := files[0].data])
  }

  /** The file's two records stand at these places. */
  ghost predicate Placed(buf: Bytes, f: File, central: nat, local: nat, c: Codec) {
    && FileFits(f, c) && local < 0x1_0000_0000
    && Stands(buf, central, Central(f, local, c))
    && Stands(buf, local, Local(f, c))
  }

  lemma CentralSignature(buf: Bytes, offset: nat)
    requires Stands(buf, offset, CENTRAL)
    ensures U32At(buf, offset) == Some(CENTRAL_WORD)
  {
    var s := buf[offset..offset + 4];
    assert buf[offset] == s[0] && buf[offset + 1] == s[1] && buf[offset + 2] == s[2] && buf[offset + 3] == s[3];
  }

  /** What stands in a part stands in the whole. */
  lemma StandsIn(buf: Bytes, at: nat, whole: Bytes, k: nat, part: Bytes)
    requires Stands(buf, at, whole) && Stands(whole, k, part)
    ensures Stands(buf, at + k, part)
  {
    StandsInside(buf, at, whole, whole[..k], part, whole[k + |part|..]);
  }

  lemma SizesFields(f: File, c: Codec)
    requires FileFits(f, c)
    ensures Stands(Sizes(f, c), 4, U32(|f.data|)) && Stands(Sizes(f, c), 12, U16(|c.encode(f.name)|))
    ensures Stands(Sizes(f, c), 14, U16(0))
  {
    hide U16, U32;
  }

  lemma CentralTailFields(offset: Word)
    ensures Stands(CentralTail(offset), 0, U16(0)) && Stands(CentralTail(offset), 10, U32(offset))
  {
    hide U16, U32;
  }

  lemma CentralHeadFields(f: File, local: Word, c: Codec)
    requires FileFits(f, c)
    ensures var h := CentralHead(f, local, c);
            && Stands(h, 0, CENTRAL)
            && Stands(h, 10, U16(0)) && Stands(h, 20, U32(|f.data|)) && Stands(h, 28, U16(|c.encode(f.name)|))
            && Stands(h, 30, U16(0)) && Stands(h, 32, U16(0)) && Stands(h, 42, U32(local))
  {
    hide U32;
    var h := CentralHead(f, local, c);
    assert Stands(CENTRAL_START, 0, CENTRAL) && Stands(CENTRAL_START, 10, U16(0));
    hide Stands, U16, CentralTail, Sizes;
    SizesFields(f, c);
    CentralTailFields(local);
    HeadParts(CENTRAL_START, Sizes(f, c), CentralTail(local));
    StandsIn(h, 0, CENTRAL_START, 0, CENTRAL);
    StandsIn(h, 0, CENTRAL_START, 10, U16(0));
    StandsIn(h, 16, Sizes(f, c), 4, U32(|f.data|));
    StandsIn(h, 16, Sizes(f, c), 12, U16(|c.encode(f.name)|));
    StandsIn(h, 16, Sizes(f, c), 14, U16(0));
    StandsIn(h, 32, CentralTail(local), 0, U16(0));
    StandsIn(h, 32, CentralTail(local), 10, U32(local));
  }

  lemma HeadParts(a: Bytes, b: Bytes, z: Bytes)
    ensures Stands(a + b + z, 0, a) && Stands(a + b + z, |a|, b) && Stands(a + b + z, |a| + |b|, z)
  {
  }

  lemma LocalHeadFields(f: File, c: Codec)
    requires FileFits(f, c)
    ensures Stands(LocalHead(f, c), 26, U16(|c.encode(f.name)|)) && Stands(LocalHead(f, c), 28, U16(0))
  {
    hide Stands, Sizes, U16, U32;
    SizesFields(f, c);
    HeadParts(LOCAL_START, Sizes(f, c), []);
    assert LocalHead(f, c) == LOCAL_START + Sizes(f, c) + [];
    StandsIn(LocalHead(f, c), 14, Sizes(f, c), 12, U16(|c.encode(f.name)|));
    StandsIn(LocalHead(f, c), 14, Sizes(f, c), 14, U16(0));
  }

  lemma Slices(buf: Bytes, at: nat, part: Bytes)
    requires Stands(buf, at, part)
    ensures Slice(buf, at, at + |part|) == part
  {
  }

  lemma StandsLeft(buf: Bytes, at: nat, a: Bytes, b: Bytes)
    requires Stands(buf, at, a + b)
    ensures Stands(buf, at, a) && Stands(buf, at + |a|, b)
  {
    StandsInside(buf, at, a + b, [], a, b);
    StandsInside(buf, at, a + b, a, b, []);
  }

  lemma CentralReads(buf: Bytes, f: File, central: nat, local: Word, c: Codec)
    requires Placed(buf, f, central, local, c)
    ensures U32At(buf, central) == Some(CENTRAL_WORD)
    ensures U16At(buf, central + 10) == Some(0) && U32At(buf, central + 20) == Some(|f.data|)
    ensures U16At(buf, central + 28) == Some(|c.encode(f.name)|)
    ensures U16At(buf, central + 30) == Some(0) && U16At(buf, central + 32) == Some(0)
    ensures U32At(buf, central + 42) == Some(local)
    ensures Slice(buf, central + 46, central + 46 + |c.encode(f.name)|) == c.encode(f.name)
  {
    hide U16, U32, U16At, U32At, CentralHead, Stands, Slice;
    var h := CentralHead(f, local, c);
    StandsLeft(buf, central, h, c.encode(f.name));
    CentralHeadFields(f, local, c);
    StandsIn(buf, central, h, 0, CENTRAL);
    CentralSignature(buf, central);
    StandsIn(buf, central, h, 10, U16(0));
    ReadsU16(buf, central + 10, 0);
    StandsIn(buf, central, h, 20, U32(|f.data|));
    ReadsU32(buf, central + 20, |f.data|);
    StandsIn(buf, central, h, 28, U16(|c.encode(f.name)|));
    ReadsU16(buf, central + 28, |c.encode(f.name)|);
    StandsIn(buf, central, h, 30, U16(0));
    ReadsU16(buf, central + 30, 0);
    StandsIn(buf, central, h, 32, U16(0));
    ReadsU16(buf, central + 32, 0);
    StandsIn(buf, central, h, 42, U32(local));
    ReadsU32(buf, central + 42, local);
    Slices(buf, central + 46, c.encode(f.name));
  }

  lemma LocalReads(buf: Bytes, f: File, local: nat, c: Codec)
    requires FileFits(f, c) && Stands(buf, local, Local(f, c))
    ensures U16At(buf, local + 26) == Some(|c.encode(f.name)|) && U16At(buf, local + 28) == Some(0)
    ensures ReadLocal(buf, 0, |f.data|, local, c) == Ok(f.data)
  {
    hide U16, U32, U16At, U32At, LocalHead, Stands, Slice;
    var h := LocalHead(f, c);
    StandsLeft(buf, local, h + c.encode(f.name), f.data);
    StandsLeft(buf, local, h, c.encode(f.name));
    LocalHeadFields(f, c);
    StandsIn(buf, local, h, 26, U16(|c.encode(f.name)|));
    ReadsU16(buf, local + 26, |c.encode(f.name)|);
    StandsIn(buf, local, h, 28, U16(0));
    ReadsU16(buf, local + 28, 0);
    Slices(buf, local + 30 + |c.encode(f.name)|, f.data);
  }

  /** Reading a written entry gives back its name and its bytes. */
  lemma EntryReads(buf: Bytes, f: File, central: nat, local: Word, c: Codec)
    requires Placed(buf, f, central, local, c)
    ensures ReadEntry(buf, central, c)
         == Ok(Entry(c.decode(c.encode(f.name)), f.data, central + 46 + |c.encode(f.name)|))
  {
    hide U16At, U32At, Stands, Slice, ReadLocal, Central, Local;
    CentralReads(buf, f, central, local, c);
    LocalReads(buf, f, local, c);
  }

  /** Where the records of file `i` stand. */
  function LocalAt(files: seq<File>, i: nat, c: Codec): nat
    requires i <= |files|
  {
    LocalsSize(files[..i], c)
  }

  function CentralAt(files: seq<File>, i: nat, c: Codec): nat
    requires i <= |files|
  {
    LocalsSize(files, c) + CentralsSize(files[..i], c)
  }

  lemma {:induction false} LocalStands(files: seq<File>, i: nat, c: Codec)
    requires i < |files| && RecordsFit(files, c)
    ensures FileFits(files[i], c) && Stands(Locals(files, c), LocalAt(files, i, c), Local(files[i], c))
  {
    hide Local;
    var n := |files| - 1;
    var front := files[..n];
    if i < n {
      LocalStands(front, i, c);
      assert front[..i] == files[..i];
      StandsLeft(Locals(files, c), 0, Locals(front, c), Local(files[n], c));
      StandsIn(Locals(files, c), 0, Locals(front, c), LocalAt(files, i, c), Local(files[i], c));
    } else {
      StandsLeft(Locals(files, c), 0, Locals(front, c), Local(files[n], c));
    }
  }

  lemma {:induction false} CentralStands(files: seq<File>, i: nat, c: Codec)
    requires i < |files| && RecordsFit(files, c)
    ensures FileFits(files[i], c) && LocalAt(files, i, c) < 0x1_0000_0000
    ensures Stands(Centrals(files, c), CentralsSize(files[..i], c), Central(files[i], LocalAt(files, i, c), c))
  {
    hide Central;
    var n := |files| - 1;
    var front := files[..n];
    if i < n {
      CentralStands(front, i, c);
      assert front[..i] == files[..i];
      var at := CentralsSize(files[..i], c);
      var one := Central(files[i], LocalAt(files, i, c), c);
      StandsLeft(Centrals(files, c), 0, Centrals(front, c), Central(files[n], LocalsSize(front, c), c));
      StandsIn(Centrals(files, c), 0, Centrals(front, c), at, one);
    } else {
      StandsLeft(Centrals(files, c), 0, Centrals(front, c), Central(files[n], LocalsSize(front, c), c));
    }
  }

  /** Every file's records stand in the archive where the offsets say. */
  lemma RecordsArePlaced(files: seq<File>, i: nat, c: Codec)
    requires Fits(files, c) && i < |files|
    ensures Placed(Archive(files, c), files[i], CentralAt(files, i, c), LocalAt(files, i, c), c)
  {
    hide Central, Local, EndRecord, Stands, Locals, Centrals;
    var buf := Archive(files, c);
    CentralStands(files, i, c);
    LocalStands(files, i, c);
    ThreeParts(Locals(files, c), Centrals(files, c), EndRecord(|files|, CentralsSize(files, c), LocalsSize(files, c)));
    var one := Central(files[i], LocalAt(files, i, c), c);
    StandsIn(buf, 0, Locals(files, c), LocalAt(files, i, c), Local(files[i], c));
    StandsIn(buf, LocalsSize(files, c), Centrals(files, c), CentralsSize(files[..i], c), one);
  }

  lemma ThreeParts(a: Bytes, b: Bytes, z: Bytes)
    ensures Stands(a + b + z, 0, a) && Stands(a + b + z, |a|, b)
  {
  }

  /** The offset field of every central record points at that file's own local header. */
  lemma CentralPointsAtLocal(files: seq<File>, i: nat, c: Codec)
    requires Fits(files, c) && i < |files|
    ensures U32At(Archive(files, c), CentralAt(files, i, c)) == Some(CENTRAL_WORD)
    ensures var local := U32At(Archive(files, c), CentralAt(files, i, c) + 42);
            local.Some? && FileFits(files[i], c) && Stands(Archive(files, c), local.value, Local(files[i], c))
  {
    hide U16At, U32At, Archive, Stands;
    RecordsArePlaced(files, i, c);
    CentralReads(Archive(files, c), files[i], CentralAt(files, i, c), LocalAt(files, i, c), c);
  }

  lemma {:induction false} EntriesRead(files: seq<File>, i: nat, m: map<string, Bytes>, c: Codec)
    requires Fits(files, c) && i <= |files|
    requires forall f :: f in files ==> c.decode(c.encode(f.name)) == f.name
    ensures ReadEntries(Archive(files, c), CentralAt(files, i, c), |files| - i, m, c) == Ok(Named(files[i..], m))
    decreases |files| - i
  {
    hide Archive, Fits, ReadEntry, Slashed, Stands;
    if i < |files| {
      var f := files[i];
      RecordsArePlaced(files, i, c);
      EntryReads(Archive(files, c), f, CentralAt(files, i, c), LocalAt(files, i, c), c);
      assert f in files;
      LastOf(files, i);
      assert CentralAt(files, i + 1, c) == CentralAt(files, i, c) + 46 + |c.encode(f.name)|;
      EntriesRead(files, i + 1, m[Slashed(f.name) := f.data], c);
      assert files[i..][1..] == files[i + 1..];
    }
  }

  lemma EndFields(count: nat, size: Word, offset: Word)
    requires count < 0x1_0000
    ensures var e := EndRecord(count, size, offset);
            Stands(e, 0, END) && Stands(e, 10, U16(count)) && Stands(e, 16, U32(offset))
  {
    hide U16, U32;
  }

  lemma EndReads(files: seq<File>, c: Codec)
    requires Fits(files, c)
    ensures var buf := Archive(files, c);
            && |buf| >= 22 && LastEnd(buf, |buf| - 22) == Some(|buf| - 22)
            && U16At(buf, |buf| - 12) == Some(|files|) && U32At(buf, |buf| - 6) == Some(LocalsSize(files, c))
  {
    hide U16, U32, U16At, U32At, EndRecord, Stands, LastEnd, Locals, Centrals;
    var buf := Archive(files, c);
    var size, offset := CentralsSize(files, c), LocalsSize(files, c);
    var at := |buf| - 22;
    StandsLeft(buf, 0, Locals(files, c) + Centrals(files, c), EndRecord(|files|, size, offset));
    EndFields(|files|, size, offset);
    StandsIn(buf, at, EndRecord(|files|, size, offset), 0, END);
    StandsIn(buf, at, EndRecord(|files|, size, offset), 10, U16(|files|));
    StandsIn(buf, at, EndRecord(|files|, size, offset), 16, U32(offset));
    ReadsU16(buf, at + 10, |files|);
    ReadsU32(buf, at + 16, offset);
    EndStands(buf, at);
  }

  lemma EndStands(buf: Bytes, at: nat)
    requires Stands(buf, at, END) && at + 22 == |buf|
    ensures LastEnd(buf, at) == Some(at)
  {
    var s := buf[at..at + 4];
    assert buf[at] == s[0] && buf[at + 1] == s[1] && buf[at + 2] == s[2] && buf[at + 3] == s[3];
  }

  /**
   * Unzipping what was zipped, for every list of files that fits: each name, with its backslashes turned, has
   * the bytes of the last file so named.
   */
  lemma RoundTrip(files: seq<File>, c: Codec)
    requires Fits(files, c)
    requires forall f :: f in files ==> c.decode(c.encode(f.name)) == f.name
    ensures Unzipped(Archive(files, c), c) == Ok(Named(files, map[]))
  {
    hide Archive, U16At, U32At, ReadEntries, Fits, Named;
    EndReads(files, c);
    EntriesRead(files, 0, map[], c);
    assert files[0..] == files && CentralAt(files, 0, c) == LocalsSize(files, c);
  }

  // ---------------------------------------------------------------- which lists survive

  /** No two files have the same name once backslashes are turned. */
  ghost predicate NamesDiffer(files: seq<File>) {
    forall i, j :: 0 <= i < j < |files| ==> Slashed(files[i].name) != Slashed(files[j].name)
  }

  lemma {:induction false} NamedKeys(files: seq<File>, m: map<string, Bytes>)
    ensures Named(files, m).Keys == m.Keys + set i | 0 <= i < |files| :: Slashed(files[i].name)
  {
    hide Slashed;
    if files != [] {
      var m' := m[Slashed(files[0].name) := files[0].data];
      NamedKeys(files[1..], m');
      forall i | 0 <= i < |files|
        ensures Slashed(files[i].name) in Named(files, m)
      {
        if i > 0 { assert files[i] == files[1..][i - 1]; }
      }
    }
  }

  lemma {:induction false} NamedKeeps(files: seq<File>, m: map<string, Bytes>, name: string)
    requires forall i :: 0 <= i < |files| ==> Slashed(files[i].name) != name
    requires name in m
    ensures name in Named(files, m) && Named(files, m)[name] == m[name]
  {
    hide Slashed;
    if files != [] {
      NamedKeeps(files[1..], m[Slashed(files[0].name) := files[0].data], name);
    }
  }

  lemma {:induction false} NamedHolds(files: seq<File>, m: map<string, Bytes>, i: nat)
    requires i < |files|
    requires forall j :: i < j < |files| ==> Slashed(files[j].name) != Slashed(files[i].name)
    ensures Slashed(files[i].name) in Named(files, m) && Named(files, m)[Slashed(files[i].name)] == files[i].data
  {
    hide Slashed;
    var m' := m[Slashed(files[0].name) := files[0].data];
    if i == 0 {
      forall j | 0 <= j < |files[1..]| ensures Slashed(files[1..][j].name) != Slashed(files[0].name) {
        assert files[1..][j] == files[j + 1];
      }
      NamedKeeps(files[1..], m', Slashed(files[0].name));
    } else {
      assert files[1..][i - 1] == files[i];
      forall j | i - 1 < j < |files[1..]| ensures Slashed(files[1..][j].name) != Slashed(files[i].name) {
        assert files[1..][j] == files[j + 1];
      }
      NamedHolds(files[1..], m', i - 1);
    }
  }

  /** The map has as many names as the archive has files exactly when the names differ. */
  lemma NothingLostIff(files: seq<File>)
    ensures |Named(files, map[])| == |files| <==> NamesDiffer(files)
  {
    hide Slashed, Named;
    NamedKeys(files, map[]);
    var names := seq(|files|, i requires 0 <= i < |files| => Slashed(files[i].name));
    SameKeys(files, names);
    assert |Named(files, map[])| == |Named(files, map[]).Keys|;
    if NamesDiffer(files) {
      CountOnce(names);
    } else {
      var i, j :| 0 <= i < j < |files| && Slashed(files[i].name) == Slashed(files[j].name);
      assert names[..j][i] == names[j];
      FewerValues(names, j);
    }
  }

  lemma SameKeys(files: seq<File>, names: seq<string>)
    requires |names| == |files| && forall i :: 0 <= i < |files| ==> names[i] == Slashed(files[i].name)
    ensures (set i | 0 <= i < |files| :: Slashed(files[i].name)) == set x | x in names
  {
    hide Slashed;
    forall x | x in names ensures exists i :: 0 <= i < |files| && Slashed(files[i].name) == x {
      var i :| 0 <= i < |names| && names[i] == x;
    }
  }

  lemma {:induction false} CountOnce(names: seq<string>)
    requires forall i, j :: 0 <= i < j < |names| ==> names[i] != names[j]
    ensures |set x | x in names| == |names|
  {
    if names != [] {
      var rest := names[..|names| - 1];
      CountOnce(rest);
      assert (set x | x in names) == (set x | x in rest) + {names[|names| - 1]};
    }
  }

  lemma SlashedSame(name: string)
    ensures Slashed(name) == name <==> '\\' !in name
  {
    if '\\' !in name {
      assert Slashed(name) == name;
    } else {
      var i :| 0 <= i < |name| && name[i] == '\\';
      assert Slashed(name)[i] == '/';
    }
  }

  /** Files with different, backslash-free names come back as exactly those names with exactly those bytes. */
  lemma ExactRoundTrip(files: seq<File>, c: Codec)
    requires Fits(files, c)
    requires forall f :: f in files ==> c.decode(c.encode(f.name)) == f.name && '\\' !in f.name
    requires forall i, j :: 0 <= i < j < |files| ==> files[i].name != files[j].name
    ensures Unzipped(Archive(files, c), c).Ok?
    ensures var m := Unzipped(Archive(files, c), c).value;
            && |m| == |files|
            && forall f :: f in files ==> f.name in m && m[f.name] == f.data
  {
    hide Fits, Archive, Unzipped, Slashed;
    RoundTrip(files, c);
    forall f | f in files ensures Slashed(f.name) == f.name { SlashedSame(f.name); }
    NothingLostIff(files);
    forall f | f in files ensures f.name in Named(files, map[]) && Named(files, map[])[f.name] == f.data {
      var i :| 0 <= i < |files| && files[i] == f;
      NamedHolds(files, map[], i);
    }
  }
}
