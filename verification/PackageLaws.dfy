/**
 * What the checkpoint package is, told from its bytes and texts: the fields of the archive at the offsets of
 * PKWARE APPNOTE sections 4.3.7, 4.3.12 and 4.3.16, archives that others wrote, the check value of the
 * checksum, which texts are refused, and what a package that was accepted holds.
 */
module PackageLaws {
  import opened Text
  import Crc32
  import Zip
  import Checkpoint

  type Bytes = Zip.Bytes

  // ---------------------------------------------------------------- the checksum

  lemma Fed(data: seq<Crc32.Byte>, b: Crc32.Byte, crc: bv32, next: bv32)
    requires Crc32.Register(data) == crc && Crc32.FeedBits(crc, b as bv32, 8) == next
    ensures Crc32.Register(data + [b]) == next
  {
    hide Crc32.FeedBits;
    Crc32.RegisterSnoc(data, b);
  }

  /** The checksum of no bytes and of the letter `a`. */
  lemma CheckValue()
    ensures Crc32.Checksum([]) == 0
    ensures Crc32.Checksum([0x61]) == 0xE8B7BE43
  {
    assert Crc32.FeedBits(0xFFFF_FFFF, 0x61, 8) == 0x174841BC;
    Fed([], 0x61, 0xFFFF_FFFF, 0x174841BC);
    assert [] + [0x61 as Crc32.Byte] == [0x61];
  }

  // ---------------------------------------------------------------- fields of an archive

  /** The number that little-endian bytes spell. */
  function Value(bytes: Bytes): nat {
    if bytes == [] then 0
    else
      var low: int := bytes[0];
      low + 256 * Value(bytes[1..])
  }

  /** At `at` stands a field of `width` bytes with this value. */
  predicate Holds(buf: Bytes, at: nat, width: nat, value: nat) {
    at + width <= |buf| && Value(buf[at..at + width]) == value
  }


  lemma TwoBytes(b: Bytes)
    requires |b| == 2
    ensures Value(b) == b[0] as int + 256 * b[1] as int
  {
    assert Value(b[1..]) == b[1] as int + 256 * Value(b[1..][1..]);
  }

  lemma FourBytes(b: Bytes)
    requires |b| == 4
    ensures Value(b) == b[0] as int + 0x100 * b[1] as int + 0x1_0000 * b[2] as int + 0x100_0000 * b[3] as int
  {
    TwoBytes(b[2..]);
    assert b[1..][1..] == b[2..];
    assert Value(b[1..]) == b[1] as int + 256 * Value(b[2..]);
  }

  lemma TwoHold(buf: Bytes, at: nat, v: nat)
    ensures Holds(buf, at, 2, v) <==> Zip.U16At(buf, at) == Some(v)
  {
    if at + 2 <= |buf| { TwoBytes(buf[at..at + 2]); }
  }

  lemma FourHold(buf: Bytes, at: nat, v: nat)
    ensures Holds(buf, at, 4, v) <==> Zip.U32At(buf, at) == Some(v)
  {
    if at + 4 <= |buf| { FourBytes(buf[at..at + 4]); }
  }

  /** The checksum of a file's bytes. */
  ghost predicate HasChecksum(data: Bytes, sum: nat) {
    forall bits: seq<Crc32.Byte> ::
      |bits| == |data| && (forall i :: 0 <= i < |data| ==> bits[i] as int == data[i] as int) ==>
        sum == Crc32.Checksum(bits) as int
  }

  /** Checksum, both sizes, length of the name and no extra field. */
  ghost predicate SharedFields(buf: Bytes, at: nat, f: Zip.File, c: Zip.Codec) {
    && (exists sum :: Holds(buf, at, 4, sum) && HasChecksum(f.data, sum))
    && Holds(buf, at + 4, 4, |f.data|) && Holds(buf, at + 8, 4, |f.data|)
    && Holds(buf, at + 12, 2, |c.encode(f.name)|) && Holds(buf, at + 14, 2, 0)
  }

  /** A local file header, the name and the stored bytes: version 2.0, no flags, method stored, no date. */
  ghost predicate LocalRecord(buf: Bytes, at: nat, f: Zip.File, c: Zip.Codec) {
    && Holds(buf, at, 4, 0x04034b50) && Holds(buf, at + 4, 2, 20)
    && Holds(buf, at + 6, 2, 0) && Holds(buf, at + 8, 2, 0) && Holds(buf, at + 10, 2, 0) && Holds(buf, at + 12, 2, 0)
    && SharedFields(buf, at + 14, f, c)
    && c.encode(f.name) + f.data <= buf[at + 30..]
  }

  /** A central directory header and the name: no comment, disk zero, no attributes, the local header's place. */
  ghost predicate CentralRecord(buf: Bytes, at: nat, local: nat, f: Zip.File, c: Zip.Codec) {
    && Holds(buf, at, 4, 0x02014b50) && Holds(buf, at + 4, 2, 20) && Holds(buf, at + 6, 2, 20)
    && Holds(buf, at + 8, 2, 0) && Holds(buf, at + 10, 2, 0) && Holds(buf, at + 12, 2, 0) && Holds(buf, at + 14, 2, 0)
    && SharedFields(buf, at + 16, f, c)
    && Holds(buf, at + 32, 2, 0) && Holds(buf, at + 34, 2, 0) && Holds(buf, at + 36, 2, 0) && Holds(buf, at + 38, 4, 0)
    && Holds(buf, at + 42, 4, local)
    && c.encode(f.name) <= buf[at + 46..]
  }

  /** The end of central directory record, for one disk and without a comment. */
  predicate EndOfDirectory(buf: Bytes, at: nat, count: nat, start: nat) {
    && |buf| == at + 22 && start <= at
    && Holds(buf, at, 4, 0x06054b50) && Holds(buf, at + 4, 2, 0) && Holds(buf, at + 6, 2, 0)
    && Holds(buf, at + 8, 2, count) && Holds(buf, at + 10, 2, count)
    && Holds(buf, at + 12, 4, at - start) && Holds(buf, at + 16, 4, start) && Holds(buf, at + 20, 2, 0)
  }

  /** The local records from the start, the central records behind them and the end record, without a gap. */
  ghost predicate LaidOut(buf: Bytes, files: seq<Zip.File>, ls: seq<nat>, cs: seq<nat>, c: Zip.Codec) {
    && |ls| == |cs| == |files| + 1 && ls[0] == 0 && ls[|files|] == cs[0]
    && (forall i :: 0 <= i < |files| ==> ls[i + 1] == ls[i] + 30 + |c.encode(files[i].name)| + |files[i].data|)
    && (forall i :: 0 <= i < |files| ==> cs[i + 1] == cs[i] + 46 + |c.encode(files[i].name)|)
    && (forall i :: 0 <= i < |files| ==> LocalRecord(buf, ls[i], files[i], c))
    && (forall i :: 0 <= i < |files| ==> CentralRecord(buf, cs[i], ls[i], files[i], c))
    && EndOfDirectory(buf, cs[|files|], |files|, cs[0])
  }

  lemma TwoStand(buf: Bytes, at: nat, v: nat)
    requires v < 0x1_0000 && Zip.Stands(buf, at, Zip.U16(v))
    ensures Holds(buf, at, 2, v)
  {
    hide Zip.Stands, Zip.U16, Zip.U16At, Holds;
    Zip.ReadsU16(buf, at, v);
    TwoHold(buf, at, v);
  }

  lemma FourStand(buf: Bytes, at: nat, v: Zip.Word)
    requires Zip.Stands(buf, at, Zip.U32(v))
    ensures Holds(buf, at, 4, v)
  {
    hide Zip.Stands, Zip.U32, Zip.U32At, Holds;
    Zip.ReadsU32(buf, at, v);
    FourHold(buf, at, v);
  }

  lemma CrcIs(data: Bytes)
    ensures HasChecksum(data, Zip.Crc(data))
  {
    hide Crc32.Checksum;
    forall bits: seq<Crc32.Byte>
      | |bits| == |data| && (forall i :: 0 <= i < |data| ==> bits[i] as int == data[i] as int)
      ensures Zip.Crc(data) == Crc32.Checksum(bits) as int
    {
      assert bits == seq(|data|, i requires 0 <= i < |data| => data[i] as Crc32.Byte);
    }
  }

  lemma SharedStand(buf: Bytes, at: nat, f: Zip.File, c: Zip.Codec)
    requires Zip.FileFits(f, c) && Zip.Stands(buf, at, Zip.Sizes(f, c))
    ensures SharedFields(buf, at, f, c)
  {
    hide Zip.Stands, Zip.U16, Zip.U32, Zip.Crc, Holds, HasChecksum;
    var crc, size, len, none := Zip.U32(Zip.Crc(f.data)), Zip.U32(|f.data|), Zip.U16(|c.encode(f.name)|), Zip.U16(0);
    Zip.StandsLeft(buf, at, crc + size + size + len, none);
    Zip.StandsLeft(buf, at, crc + size + size, len);
    Zip.StandsLeft(buf, at, crc + size, size);
    Zip.StandsLeft(buf, at, crc, size);
    FourStand(buf, at, Zip.Crc(f.data));
    CrcIs(f.data);
    FourStand(buf, at + 4, |f.data|);
    FourStand(buf, at + 8, |f.data|);
    TwoStand(buf, at + 12, |c.encode(f.name)|);
    TwoStand(buf, at + 14, 0);
  }

  lemma Tail(buf: Bytes, at: nat, a: Bytes)
    requires Zip.Stands(buf, at, a)
    ensures at <= |buf| && a <= buf[at..]
  {
    assert buf[at..][..|a|] == buf[at..at + |a|];
  }

  lemma SignatureHolds(buf: Bytes, at: nat, sign: Bytes)
    requires Zip.Stands(buf, at, sign) && |sign| == 4
    ensures Holds(buf, at, 4, Value(sign))
  {
  }

  lemma Signatures()
    ensures Value(Zip.LOCAL) == 0x04034b50 && Value(Zip.CENTRAL) == 0x02014b50 && Value(Zip.END) == 0x06054b50
  {
    FourBytes(Zip.LOCAL);
    FourBytes(Zip.CENTRAL);
    FourBytes(Zip.END);
  }

  lemma LocalStart(buf: Bytes, at: nat)
    requires Zip.Stands(buf, at, Zip.LOCAL_START)
    ensures Holds(buf, at, 4, 0x04034b50) && Holds(buf, at + 4, 2, 20)
    ensures Holds(buf, at + 6, 2, 0) && Holds(buf, at + 8, 2, 0) && Holds(buf, at + 10, 2, 0) && Holds(buf, at + 12, 2, 0)
  {
    hide Zip.Stands, Zip.U16, Holds, Value;
    var z := Zip.U16(0);
    Zip.StandsLeft(buf, at, Zip.LOCAL + Zip.U16(20) + z + z + z, z);
    Zip.StandsLeft(buf, at, Zip.LOCAL + Zip.U16(20) + z + z, z);
    Zip.StandsLeft(buf, at, Zip.LOCAL + Zip.U16(20) + z, z);
    Zip.StandsLeft(buf, at, Zip.LOCAL + Zip.U16(20), z);
    Zip.StandsLeft(buf, at, Zip.LOCAL, Zip.U16(20));
    SignatureHolds(buf, at, Zip.LOCAL);
    Signatures();
    TwoStand(buf, at + 4, 20);
    TwoStand(buf, at + 6, 0);
    TwoStand(buf, at + 8, 0);
    TwoStand(buf, at + 10, 0);
    TwoStand(buf, at + 12, 0);
  }

  lemma CentralStart(buf: Bytes, at: nat)
    requires Zip.Stands(buf, at, Zip.CENTRAL_START)
    ensures Holds(buf, at, 4, 0x02014b50) && Holds(buf, at + 4, 2, 20) && Holds(buf, at + 6, 2, 20)
    ensures Holds(buf, at + 8, 2, 0) && Holds(buf, at + 10, 2, 0) && Holds(buf, at + 12, 2, 0) && Holds(buf, at + 14, 2, 0)
  {
    hide Zip.Stands, Zip.U16, Holds, Value;
    var v, z := Zip.U16(20), Zip.U16(0);
    Zip.StandsLeft(buf, at, Zip.CENTRAL + v + v + z + z + z, z);
    Zip.StandsLeft(buf, at, Zip.CENTRAL + v + v + z + z, z);
    Zip.StandsLeft(buf, at, Zip.CENTRAL + v + v + z, z);
    Zip.StandsLeft(buf, at, Zip.CENTRAL + v + v, z);
    Zip.StandsLeft(buf, at, Zip.CENTRAL + v, v);
    Zip.StandsLeft(buf, at, Zip.CENTRAL, v);
    SignatureHolds(buf, at, Zip.CENTRAL);
    Signatures();
    TwoStand(buf, at + 4, 20);
    TwoStand(buf, at + 6, 20);
    TwoStand(buf, at + 8, 0);
    TwoStand(buf, at + 10, 0);
    TwoStand(buf, at + 12, 0);
    TwoStand(buf, at + 14, 0);
  }

  lemma CentralEnd(buf: Bytes, at: nat, local: Zip.Word)
    requires Zip.Stands(buf, at, Zip.CentralTail(local))
    ensures Holds(buf, at, 2, 0) && Holds(buf, at + 2, 2, 0) && Holds(buf, at + 4, 2, 0) && Holds(buf, at + 6, 4, 0)
    ensures Holds(buf, at + 10, 4, local)
  {
    hide Zip.Stands, Zip.U16, Zip.U32, Holds;
    var z := Zip.U16(0);
    Zip.StandsLeft(buf, at, z + z + z + Zip.U32(0), Zip.U32(local));
    Zip.StandsLeft(buf, at, z + z + z, Zip.U32(0));
    Zip.StandsLeft(buf, at, z + z, z);
    Zip.StandsLeft(buf, at, z, z);
    TwoStand(buf, at, 0);
    TwoStand(buf, at + 2, 0);
    TwoStand(buf, at + 4, 0);
    FourStand(buf, at + 6, 0);
    FourStand(buf, at + 10, local);
  }

  lemma LocalIs(buf: Bytes, at: nat, f: Zip.File, c: Zip.Codec)
    requires Zip.FileFits(f, c) && Zip.Stands(buf, at, Zip.Local(f, c))
    ensures LocalRecord(buf, at, f, c)
  {
    hide Zip.Stands, Holds, SharedFields, Zip.Sizes;
    assert Zip.Local(f, c) == Zip.LOCAL_START + Zip.Sizes(f, c) + (c.encode(f.name) + f.data);
    Zip.StandsLeft(buf, at, Zip.LOCAL_START + Zip.Sizes(f, c), c.encode(f.name) + f.data);
    Zip.StandsLeft(buf, at, Zip.LOCAL_START, Zip.Sizes(f, c));
    LocalStart(buf, at);
    SharedStand(buf, at + 14, f, c);
    Tail(buf, at + 30, c.encode(f.name) + f.data);
  }

  lemma CentralIs(buf: Bytes, at: nat, local: Zip.Word, f: Zip.File, c: Zip.Codec)
    requires Zip.FileFits(f, c) && Zip.Stands(buf, at, Zip.Central(f, local, c))
    ensures CentralRecord(buf, at, local, f, c)
  {
    hide Zip.Stands, Holds, SharedFields, Zip.Sizes, Zip.CentralTail;
    var start, sizes, tail := Zip.CENTRAL_START, Zip.Sizes(f, c), Zip.CentralTail(local);
    Zip.StandsLeft(buf, at, start + sizes + tail, c.encode(f.name));
    Zip.StandsLeft(buf, at, start + sizes, tail);
    Zip.StandsLeft(buf, at, start, sizes);
    CentralStart(buf, at);
    SharedStand(buf, at + 16, f, c);
    CentralEnd(buf, at + 32, local);
    Tail(buf, at + 46, c.encode(f.name));
  }

  lemma EndIs(buf: Bytes, at: nat, count: nat, size: Zip.Word, start: Zip.Word)
    requires count < 0x1_0000 && |buf| == at + 22 && at == start + size
    requires Zip.Stands(buf, at, Zip.EndRecord(count, size, start))
    ensures EndOfDirectory(buf, at, count, start)
  {
    hide Zip.Stands, Zip.U16, Zip.U32, Holds, Value;
    var z, n := Zip.U16(0), Zip.U16(count);
    Zip.StandsLeft(buf, at, Zip.END + z + z + n + n + Zip.U32(size) + Zip.U32(start), z);
    Zip.StandsLeft(buf, at, Zip.END + z + z + n + n + Zip.U32(size), Zip.U32(start));
    Zip.StandsLeft(buf, at, Zip.END + z + z + n + n, Zip.U32(size));
    Zip.StandsLeft(buf, at, Zip.END + z + z + n, n);
    Zip.StandsLeft(buf, at, Zip.END + z + z, n);
    Zip.StandsLeft(buf, at, Zip.END + z, z);
    Zip.StandsLeft(buf, at, Zip.END, z);
    SignatureHolds(buf, at, Zip.END);
    Signatures();
    TwoStand(buf, at + 4, 0);
    TwoStand(buf, at + 6, 0);
    TwoStand(buf, at + 8, count);
    TwoStand(buf, at + 10, count);
    FourStand(buf, at + 12, size);
    FourStand(buf, at + 16, start);
    TwoStand(buf, at + 20, 0);
  }

  /** What the writer writes is an archive of these files, every field at its offset. */
  lemma ArchiveIsZip(files: seq<Zip.File>, c: Zip.Codec)
    requires Zip.Fits(files, c)
    ensures exists ls, cs :: LaidOut(Zip.Archive(files, c), files, ls, cs, c)
  {
    hide Zip.Archive, Zip.Fits, Zip.LocalAt, Zip.CentralAt, LocalRecord, CentralRecord, EndOfDirectory;
    var n, buf := |files|, Zip.Archive(files, c);
    var ls: seq<nat> := seq(n + 1, i requires 0 <= i <= n => Zip.LocalAt(files, i, c));
    var cs: seq<nat> := seq(n + 1, i requires 0 <= i <= n => Zip.CentralAt(files, i, c));
    forall i | 0 <= i < n
      ensures ls[i + 1] == ls[i] + 30 + |c.encode(files[i].name)| + |files[i].data|
      ensures cs[i + 1] == cs[i] + 46 + |c.encode(files[i].name)|
      ensures LocalRecord(buf, ls[i], files[i], c) && CentralRecord(buf, cs[i], ls[i], files[i], c)
    {
      RecordsAre(files, i, c);
    }
    Ends(files, c);
    assert LaidOut(buf, files, ls, cs, c);
  }

  lemma RecordsAre(files: seq<Zip.File>, i: nat, c: Zip.Codec)
    requires Zip.Fits(files, c) && i < |files|
    ensures Zip.LocalAt(files, i + 1, c) == Zip.LocalAt(files, i, c) + 30 + |c.encode(files[i].name)| + |files[i].data|
    ensures Zip.CentralAt(files, i + 1, c) == Zip.CentralAt(files, i, c) + 46 + |c.encode(files[i].name)|
    ensures LocalRecord(Zip.Archive(files, c), Zip.LocalAt(files, i, c), files[i], c)
    ensures CentralRecord(Zip.Archive(files, c), Zip.CentralAt(files, i, c), Zip.LocalAt(files, i, c), files[i], c)
  {
    hide Zip.Archive, Zip.Fits, Zip.Local, Zip.Central, Zip.Stands, LocalRecord, CentralRecord;
    Zip.LastOf(files, i);
    Zip.RecordsArePlaced(files, i, c);
    LocalIs(Zip.Archive(files, c), Zip.LocalAt(files, i, c), files[i], c);
    CentralIs(Zip.Archive(files, c), Zip.CentralAt(files, i, c), Zip.LocalAt(files, i, c), files[i], c);
  }

  lemma Ends(files: seq<Zip.File>, c: Zip.Codec)
    requires Zip.Fits(files, c)
    ensures Zip.LocalAt(files, 0, c) == 0 && Zip.LocalAt(files, |files|, c) == Zip.CentralAt(files, 0, c)
    ensures EndOfDirectory(Zip.Archive(files, c), Zip.CentralAt(files, |files|, c), |files|, Zip.CentralAt(files, 0, c))
  {
    hide Zip.Archive, Zip.EndRecord, Zip.Stands, Zip.RecordsFit, EndOfDirectory;
    assert files[..0] == [] && files[..|files|] == files;
    EndStands(files, c);
    EndIs(Zip.Archive(files, c), Zip.CentralAt(files, |files|, c), |files|, Zip.CentralsSize(files, c),
          Zip.LocalsSize(files, c));
  }

  lemma EndStands(files: seq<Zip.File>, c: Zip.Codec)
    requires Zip.Fits(files, c)
    ensures var size, start := Zip.CentralsSize(files, c), Zip.LocalsSize(files, c);
            && Zip.Stands(Zip.Archive(files, c), start + size, Zip.EndRecord(|files|, size, start))
            && |Zip.Archive(files, c)| == start + size + 22
  {
    var size, start := Zip.CentralsSize(files, c), Zip.LocalsSize(files, c);
    hide Zip.Stands, Zip.EndRecord, Zip.Locals, Zip.Centrals;
    var end := Zip.EndRecord(|files|, size, start);
    var front := Zip.Locals(files, c) + Zip.Centrals(files, c);
    AtTheEnd(front, end);
    assert Zip.Archive(files, c) == front + end;
  }

  lemma AtTheEnd(a: Bytes, b: Bytes)
    ensures Zip.Stands(a + b, |a|, b)
  {
  }

  // ---------------------------------------------------------------- archives of others

  /** A file as any archive may have it: lengths of extra fields and comment, another name in the local header. */
  datatype Packed = Packed(
    sign: nat,
    kind: nat,
    name: Bytes,
    extra: nat,
    comment: nat,
    local: nat,
    localName: nat,
    localExtra: nat,
    bytes: Bytes
  )

  predicate Describes(buf: Bytes, at: nat, e: Packed) {
    && Holds(buf, at, 4, e.sign) && Holds(buf, at + 10, 2, e.kind) && Holds(buf, at + 20, 4, |e.bytes|)
    && Holds(buf, at + 28, 2, |e.name|) && Holds(buf, at + 30, 2, e.extra) && Holds(buf, at + 32, 2, e.comment)
    && Holds(buf, at + 42, 4, e.local)
    && Holds(buf, e.local + 26, 2, e.localName) && Holds(buf, e.local + 28, 2, e.localExtra)
    && e.local + 30 + e.localName + e.localExtra <= |buf| && e.bytes <= buf[e.local + 30 + e.localName + e.localExtra..]
    && at + 46 <= |buf| && e.name <= buf[at + 46..]
  }

  /** The file can be read: stored, or deflated in a stream the inflater takes. */
  predicate Opens(e: Packed, c: Zip.Codec) {
    e.sign == 0x02014b50 && (e.kind == 0 || (e.kind == 8 && c.inflate(e.bytes).Some?))
  }

  function Opened(e: Packed, c: Zip.Codec): Bytes
    requires Opens(e, c)
  {
    if e.kind == 0 then e.bytes else c.inflate(e.bytes).value
  }

  predicate Complaint(e: Packed, error: Zip.Error) {
    && (e.sign != 0x02014b50 ==> error == Zip.BadCentralDirectory)
    && (e.sign == 0x02014b50 && e.kind != 0 && e.kind != 8 ==> error == Zip.UnsupportedMethod)
    && (e.sign == 0x02014b50 && e.kind == 8 ==> error == Zip.BadDeflateStream)
  }

  /** Here, and nowhere behind, stands an end record. */
  predicate LastEndRecord(buf: Bytes, at: nat) {
    && at + 22 <= |buf| && Holds(buf, at, 4, 0x06054b50)
    && forall k :: at < k <= |buf| - 22 ==> !Holds(buf, k, 4, 0x06054b50)
  }

  ghost predicate Directory(buf: Bytes, es: seq<Packed>, at: seq<nat>) {
    && |at| == |es| + 1
    && (forall i :: 0 <= i < |es| ==> Describes(buf, at[i], es[i]))
    && (forall i :: 0 <= i < |es| ==> at[i + 1] == at[i] + 46 + |es[i].name| + es[i].extra + es[i].comment)
  }

  lemma EntryIs(buf: Bytes, at: nat, e: Packed, c: Zip.Codec)
    requires Describes(buf, at, e)
    ensures var r := Zip.ReadEntry(buf, at, c);
            if Opens(e, c) then
              r == Ok(Zip.Entry(c.decode(e.name), Opened(e, c), at + 46 + |e.name| + e.extra + e.comment))
            else r.Err? && Complaint(e, r.error)
  {
    hide Holds, Zip.U16At, Zip.U32At, Zip.Slice;
    FourHold(buf, at, e.sign);
    TwoHold(buf, at + 10, e.kind);
    FourHold(buf, at + 20, |e.bytes|);
    TwoHold(buf, at + 28, |e.name|);
    TwoHold(buf, at + 30, e.extra);
    TwoHold(buf, at + 32, e.comment);
    FourHold(buf, at + 42, e.local);
    TwoHold(buf, e.local + 26, e.localName);
    TwoHold(buf, e.local + 28, e.localExtra);
    SliceIs(buf, at + 46, e.name);
    SliceIs(buf, e.local + 30 + e.localName + e.localExtra, e.bytes);
  }

  lemma SliceIs(buf: Bytes, at: nat, part: Bytes)
    requires at <= |buf| && part <= buf[at..]
    ensures Zip.Slice(buf, at, at + |part|) == part
  {
    assert buf[at..][..|part|] == buf[at..at + |part|];
  }

  /** The files that the entries stand for, in their order. */
  function FilesOf(es: seq<Packed>, c: Zip.Codec): (r: seq<Zip.File>)
    requires forall e :: e in es ==> Opens(e, c)
    ensures |r| == |es|
  {
    seq(|es|, i requires 0 <= i < |es| => Zip.File(c.decode(es[i].name), Opened(es[i], c)))
  }

  lemma {:induction false} EntriesAre(buf: Bytes, es: seq<Packed>, at: seq<nat>, m: map<string, Bytes>, c: Zip.Codec)
    requires Directory(buf, es, at) && forall e :: e in es ==> Opens(e, c)
    ensures Zip.ReadEntries(buf, at[0], |es|, m, c) == Ok(Zip.Named(FilesOf(es, c), m))
  {
    hide Zip.ReadEntry, Zip.Slashed, Describes, Opens, Opened;
    if es != [] {
      var files := FilesOf(es, c);
      EntryIs(buf, at[0], es[0], c);
      EntriesAre(buf, es[1..], at[1..], m[Zip.Slashed(files[0].name) := files[0].data], c);
      assert files[1..] == FilesOf(es[1..], c);
    }
  }

  lemma {:induction false} EntriesStop(buf: Bytes, es: seq<Packed>, at: seq<nat>, bad: nat, m: map<string, Bytes>, c: Zip.Codec)
    requires Directory(buf, es, at) && bad < |es| && !Opens(es[bad], c) && forall e :: e in es[..bad] ==> Opens(e, c)
    ensures var r := Zip.ReadEntries(buf, at[0], |es|, m, c); r.Err? && Complaint(es[bad], r.error)
  {
    hide Zip.ReadEntry, Zip.Slashed, Describes, Opens, Opened, Complaint;
    EntryIs(buf, at[0], es[0], c);
    if bad > 0 {
      assert es[0] in es[..bad] && es[1..][..bad - 1] == es[..bad][1..] && es[1..][bad - 1] == es[bad];
      EntriesStop(buf, es[1..], at[1..], bad - 1, m[Zip.Slashed(c.decode(es[0].name)) := Opened(es[0], c)], c);
    }
  }

  lemma EndIff(buf: Bytes, at: nat)
    requires at + 22 <= |buf|
    ensures Zip.EndAt(buf, at) <==> Holds(buf, at, 4, 0x06054b50)
  {
    FourBytes(buf[at..at + 4]);
  }

  lemma EntryNeverDenies(buf: Bytes, at: nat, c: Zip.Codec)
    ensures Zip.ReadEntry(buf, at, c) != Err(Zip.NotAnArchive)
  {
    hide Zip.U16At, Zip.U32At, Zip.Slice;
  }

  lemma {:induction false} EntriesNeverDeny(buf: Bytes, at: nat, count: nat, m: map<string, Bytes>, c: Zip.Codec)
    ensures Zip.ReadEntries(buf, at, count, m, c) != Err(Zip.NotAnArchive)
    decreases count
  {
    hide Zip.ReadEntry, Zip.Slashed;
    EntryNeverDenies(buf, at, c);
    if count > 0 && Zip.ReadEntry(buf, at, c).Ok? {
      var entry := Zip.ReadEntry(buf, at, c).value;
      EntriesNeverDeny(buf, entry.next, count - 1, m[Zip.Slashed(entry.name) := entry.data], c);
    }
  }

  lemma {:induction false} NoEndIff(buf: Bytes, from: int)
    requires from + 22 <= |buf|
    ensures Zip.LastEnd(buf, from).None? <==> forall at :: 0 <= at <= from ==> !Holds(buf, at, 4, 0x06054b50)
    decreases from + 1
  {
    hide Holds, Zip.EndAt;
    if from >= 0 {
      EndIff(buf, from);
      NoEndIff(buf, from - 1);
    }
  }

  /** Reading reports that this is no archive exactly when no end record stands where one would fit. */
  lemma NoArchiveIff(buf: Bytes, c: Zip.Codec)
    ensures Zip.Unzipped(buf, c) == Err(Zip.NotAnArchive)
       <==> forall at :: 0 <= at <= |buf| - 22 ==> !Holds(buf, at, 4, 0x06054b50)
  {
    hide Holds, Zip.EndAt, Zip.LastEnd, Zip.ReadEntries, Zip.U16At, Zip.U32At;
    if |buf| >= 22 {
      NoEndIff(buf, |buf| - 22);
      var end := Zip.LastEnd(buf, |buf| - 22);
      if end.Some? {
        var count, start := Zip.U16At(buf, end.value + 10), Zip.U32At(buf, end.value + 16);
        if count.Some? && start.Some? { EntriesNeverDeny(buf, start.value, count.value, map[], c); }
      }
    }
  }

  lemma DirectoryFound(buf: Bytes, at: nat, count: nat, start: nat, c: Zip.Codec)
    requires LastEndRecord(buf, at) && Holds(buf, at + 10, 2, count) && Holds(buf, at + 16, 4, start)
    ensures Zip.Unzipped(buf, c) == Zip.ReadEntries(buf, start, count, map[], c)
  {
    hide Holds, Zip.EndAt, Zip.U16At, Zip.U32At, Zip.ReadEntries;
    forall k | at <= k <= |buf| - 22 ensures Zip.EndAt(buf, k) <==> k == at { EndIff(buf, k); }
    Zip.LastEndIs(buf, |buf| - 22, at);
    TwoHold(buf, at + 10, count);
    FourHold(buf, at + 16, start);
  }

  /** `name` is what entry `i`, and no later one, is called once its backslashes are turned. */
  ghost predicate LastCalled(es: seq<Packed>, i: nat, name: string, c: Zip.Codec) {
    && i < |es| && Zip.Slashed(c.decode(es[i].name)) == name
    && forall j :: i < j < |es| ==> Zip.Slashed(c.decode(es[j].name)) != name
  }

  /**
   * Reading an archive that anyone wrote: stored and deflated files, extra fields, comments and gaps. If every
   * file opens, each name has the bytes of the last file so called.
   */
  lemma ForeignReads(buf: Bytes, es: seq<Packed>, at: seq<nat>, end: nat, c: Zip.Codec)
    requires Directory(buf, es, at) && LastEndRecord(buf, end)
    requires Holds(buf, end + 10, 2, |es|) && Holds(buf, end + 16, 4, at[0])
    requires forall e :: e in es ==> Opens(e, c)
    ensures Zip.Unzipped(buf, c).Ok?
    ensures var m := Zip.Unzipped(buf, c).value;
            && (forall name :: name in m <==> exists i :: LastCalled(es, i, name, c))
            && (forall i: nat, name :: LastCalled(es, i, name, c) ==>
                  i < |es| && es[i] in es && name in m && m[name] == Opened(es[i], c))
  {
    hide Holds, LastEndRecord, Describes, LastCalled, Opens, Opened, Zip.Unzipped, Zip.ReadEntries, Zip.Named;
    DirectoryFound(buf, end, |es|, at[0], c);
    EntriesAre(buf, es, at, map[], c);
    NamesAre(es, c);
  }

  lemma NamesAre(es: seq<Packed>, c: Zip.Codec)
    requires forall e :: e in es ==> Opens(e, c)
    ensures var m := Zip.Named(FilesOf(es, c), map[]);
            && (forall name :: name in m <==> exists i :: LastCalled(es, i, name, c))
            && (forall i: nat, name :: LastCalled(es, i, name, c) ==>
                  i < |es| && es[i] in es && name in m && m[name] == Opened(es[i], c))
  {
    hide Zip.Slashed, Opens, Opened, Zip.Named;
    var files := FilesOf(es, c);
    var m := Zip.Named(files, map[]);
    Zip.NamedKeys(files, map[]);
    forall name | name in m ensures exists i :: LastCalled(es, i, name, c) {
      var i: nat :| i < |files| && Zip.Slashed(files[i].name) == name;
      LastOne(es, i, c);
    }
    forall i: nat, name | LastCalled(es, i, name, c)
      ensures i < |es| && es[i] in es && name in m && m[name] == Opened(es[i], c)
    {
      Zip.NamedHolds(files, map[], i);
    }
  }

  lemma LastOne(es: seq<Packed>, i: nat, c: Zip.Codec)
    requires i < |es|
    ensures exists k :: LastCalled(es, k, Zip.Slashed(c.decode(es[i].name)), c)
    decreases |es| - i
  {
    hide Zip.Slashed;
    var name := Zip.Slashed(c.decode(es[i].name));
    if j :| i < j < |es| && Zip.Slashed(c.decode(es[j].name)) == name {
      LastOne(es, j, c);
    } else {
      assert LastCalled(es, i, name, c);
    }
  }

  /** Otherwise the complaint is about the first file that does not open. */
  lemma ForeignStops(buf: Bytes, es: seq<Packed>, at: seq<nat>, end: nat, i: nat, c: Zip.Codec)
    requires Directory(buf, es, at) && LastEndRecord(buf, end)
    requires Holds(buf, end + 10, 2, |es|) && Holds(buf, end + 16, 4, at[0])
    requires i < |es| && !Opens(es[i], c) && forall e :: e in es[..i] ==> Opens(e, c)
    ensures Zip.Unzipped(buf, c).Err? && Complaint(es[i], Zip.Unzipped(buf, c).error)
  {
    hide Holds, LastEndRecord, Describes, Opens, Complaint, Zip.Unzipped, Zip.ReadEntries;
    DirectoryFound(buf, end, |es|, at[0], c);
    EntriesStop(buf, es, at, i, map[], c);
  }

  // ---------------------------------------------------------------- refused texts

  const CAPITALS: string := "ABCDEFGHIJKLMNOPQRSTUVWXYZ"
  const SMALL: string := "abcdefghijklmnopqrstuvwxyz"
  const DIGITS: string := "0123456789"

  predicate AllOf(text: string, chars: string) {
    forall i :: 0 <= i < |text| ==> text[i] in chars
  }

  /** `part` stands somewhere in `text`. */
  ghost predicate Contains(text: string, part: string) {
    exists before, after :: text == before + part + after
  }

  /** A private key, a service key of twelve and an access key of sixteen letters or digits. */
  ghost predicate Secret(part: string) {
    || part == "BEGIN PRIVATE KEY" || part == "BEGIN OPENSSH PRIVATE KEY"
    || (|part| == 15 && part[..3] == "sk-" && AllOf(part[3..], CAPITALS + SMALL + DIGITS))
    || (|part| == 20 && part[..4] == "AKIA" && AllOf(part[4..], CAPITALS + DIGITS))
  }

  /** A home directory of macOS, Linux or Windows. */
  ghost predicate HomePath(part: string) {
    || part == "/Users/" || part == "/home/"
    || (|part| == 8 && part[0] in CAPITALS + SMALL && part[1..] == ":\\Users")
  }

  /** The text shows something of this kind; only the bundle may name local paths. */
  ghost predicate Shows(entry: string, text: string, danger: Checkpoint.Danger) {
    match danger
    case Credential => exists part :: Secret(part) && Contains(text, part)
    case Transcript => Contains(text, "pi-transcript") || Contains(text, "\"type\":\"session\"")
    case RawCache => Contains(text, "state/raw/") || Contains(text, "\"/raw/")
    case LocalPath => entry != "wiki.bundle" && exists part :: HomePath(part) && Contains(text, part)
  }

  lemma LettersAre(c: char)
    ensures c in CAPITALS <==> Checkpoint.Upper(c)
    ensures c in SMALL <==> 'a' <= c <= 'z'
    ensures c in DIGITS <==> Checkpoint.Digit(c)
  {
  }

  lemma IncludesIff(text: string, part: string)
    ensures Checkpoint.Includes(text, part) <==> Contains(text, part)
  {
    if i :| 0 <= i <= |text| && part <= text[i..] {
      assert text == text[..i] + part + text[i + |part|..];
    }
    if before, after :| text == before + part + after {
      assert text[|before|..] == part + after;
    }
  }

  lemma CharsAt(text: string, from: nat, to: nat, chars: string)
    requires from <= to <= |text|
    ensures AllOf(text[..to][from..], chars) <==> forall i :: from <= i < to ==> text[i] in chars
  {
    var part := text[..to][from..];
    assert forall i :: from <= i < to ==> part[i - from] == text[i];
    assert forall i :: 0 <= i < |part| ==> part[i] == text[from + i];
  }

  lemma StartIs(text: string, start: string)
    requires |start| <= |text|
    ensures start <= text <==> text[..|start|] == start
  {
  }

  lemma ServiceKeyAt(text: string)
    ensures Checkpoint.ApiKeyAt(text)
       <==> |text| >= 15 && text[..3] == "sk-" && AllOf(text[..15][3..], CAPITALS + SMALL + DIGITS)
  {
    if |text| >= 15 {
      StartIs(text, "sk-");
      CharsAt(text, 3, 15, CAPITALS + SMALL + DIGITS);
      hide Checkpoint.Letter, Checkpoint.Digit, AllOf;
      forall i | 3 <= i < 15
        ensures text[i] in CAPITALS + SMALL + DIGITS <==> Checkpoint.Letter(text[i]) || Checkpoint.Digit(text[i])
      {
        LetterIs(text[i]);
      }
    }
  }

  lemma LetterIs(c: char)
    ensures c in CAPITALS + SMALL <==> Checkpoint.Letter(c)
    ensures c in CAPITALS + SMALL + DIGITS <==> Checkpoint.Letter(c) || Checkpoint.Digit(c)
    ensures c in CAPITALS + DIGITS <==> Checkpoint.Upper(c) || Checkpoint.Digit(c)
  {
    LettersAre(c);
  }

  lemma CloudKeyAt(text: string)
    ensures Checkpoint.AccessKeyAt(text)
       <==> |text| >= 20 && text[..4] == "AKIA" && AllOf(text[..20][4..], CAPITALS + DIGITS)
  {
    if |text| >= 20 {
      StartIs(text, "AKIA");
      CharsAt(text, 4, 20, CAPITALS + DIGITS);
      hide Checkpoint.Upper, Checkpoint.Digit, AllOf;
      forall i | 4 <= i < 20
        ensures text[i] in CAPITALS + DIGITS <==> Checkpoint.Upper(text[i]) || Checkpoint.Digit(text[i])
      {
        LetterIs(text[i]);
      }
    }
  }

  lemma Shown(text: string, i: nat, part: string)
    requires i <= |text| && part <= text[i..]
    ensures Contains(text, part)
  {
    assert text == text[..i] + part + text[i + |part|..];
  }

  lemma KeyIsSecret(text: string, i: nat)
    requires i <= |text| && (Checkpoint.ApiKeyAt(text[i..]) || Checkpoint.AccessKeyAt(text[i..]))
    ensures exists part :: Secret(part) && Contains(text, part)
  {
    hide Contains, Checkpoint.ApiKeyAt, Checkpoint.AccessKeyAt, AllOf;
    var rest := text[i..];
    ServiceKeyAt(rest);
    CloudKeyAt(rest);
    var n := if Checkpoint.ApiKeyAt(rest) then 15 else 20;
    assert rest[..n][..3] == rest[..3] && rest[..n][..4] == rest[..4];
    assert Secret(rest[..n]);
    Shown(text, i, rest[..n]);
  }

  lemma SecretIsKey(rest: string, part: string)
    requires Secret(part) && part <= rest && |part| != 17 && |part| != 25
    ensures Checkpoint.ApiKeyAt(rest) || Checkpoint.AccessKeyAt(rest)
  {
    hide Checkpoint.ApiKeyAt, Checkpoint.AccessKeyAt, AllOf;
    ServiceKeyAt(rest);
    CloudKeyAt(rest);
    assert part[..3] == rest[..3] && part[..4] == rest[..4] && part == rest[..|part|];
  }

  lemma CredentialIff(text: string)
    ensures Checkpoint.HasCredential(text) <==> exists part :: Secret(part) && Contains(text, part)
  {
    IncludesIff(text, "BEGIN PRIVATE KEY");
    IncludesIff(text, "BEGIN OPENSSH PRIVATE KEY");
    assert Secret("BEGIN PRIVATE KEY") && Secret("BEGIN OPENSSH PRIVATE KEY");
    forall part | Secret(part) && Contains(text, part) ensures Checkpoint.HasCredential(text) {
      IncludesIff(text, part);
      SecretShows(text, part);
    }
    forall i | 0 <= i <= |text| && (Checkpoint.ApiKeyAt(text[i..]) || Checkpoint.AccessKeyAt(text[i..]))
      ensures exists part :: Secret(part) && Contains(text, part)
    {
      KeyIsSecret(text, i);
    }
    hide Contains, Checkpoint.Includes, Checkpoint.ApiKeyAt, Checkpoint.AccessKeyAt, Secret;
  }

  lemma SecretShows(text: string, part: string)
    requires Secret(part) && Checkpoint.Includes(text, part)
    ensures Checkpoint.HasCredential(text)
  {
    hide Checkpoint.ApiKeyAt, Checkpoint.AccessKeyAt, AllOf;
    if |part| != 17 && |part| != 25 {
      var i :| 0 <= i <= |text| && part <= text[i..];
      SecretIsKey(text[i..], part);
    } else {
      hide Checkpoint.Includes;
      assert part == "BEGIN PRIVATE KEY" || part == "BEGIN OPENSSH PRIVATE KEY";
    }
  }

  lemma DriveIsHome(text: string, i: nat)
    requires i <= |text| && Checkpoint.DrivePathAt(text[i..])
    ensures exists part :: HomePath(part) && Contains(text, part)
  {
    hide Contains;
    var rest := text[i..];
    LetterIs(rest[0]);
    assert rest[..8][1..] == rest[1..][..7];
    assert HomePath(rest[..8]);
    Shown(text, i, rest[..8]);
  }

  lemma HomeShows(text: string, part: string)
    requires HomePath(part) && Checkpoint.Includes(text, part)
    ensures Checkpoint.HasLocalPath(text)
  {
    if |part| == 8 {
      var i :| 0 <= i <= |text| && part <= text[i..];
      var rest := text[i..];
      assert part == rest[..8] && rest[1..][..7] == part[1..];
      LetterIs(part[0]);
      assert Checkpoint.DrivePathAt(rest);
    }
  }

  lemma HomePathIff(text: string)
    ensures Checkpoint.HasLocalPath(text) <==> exists part :: HomePath(part) && Contains(text, part)
  {
    IncludesIff(text, "/Users/");
    IncludesIff(text, "/home/");
    assert HomePath("/Users/") && HomePath("/home/");
    forall part | HomePath(part) && Contains(text, part) ensures Checkpoint.HasLocalPath(text) {
      IncludesIff(text, part);
      HomeShows(text, part);
    }
    forall i | 0 <= i <= |text| && Checkpoint.DrivePathAt(text[i..])
      ensures exists part :: HomePath(part) && Contains(text, part)
    {
      DriveIsHome(text, i);
    }
    hide Contains, Checkpoint.Includes, Checkpoint.DrivePathAt, HomePath;
  }

  /** What is refused, told from the decoded text; the first kind of danger it shows is the one reported. */
  lemma RefusalIff(entry: string, data: Bytes, t: Checkpoint.Tools)
    ensures var text, r := t.zip.decode(data), Checkpoint.Refusal(entry, data, t);
            && (r.None? <==> forall danger :: !Shows(entry, text, danger))
            && (r == Some(Checkpoint.Unsafe(entry, Checkpoint.Credential)) <==> Shows(entry, text, Checkpoint.Credential))
            && (r == Some(Checkpoint.Unsafe(entry, Checkpoint.Transcript)) ==> Shows(entry, text, Checkpoint.Transcript))
            && (r == Some(Checkpoint.Unsafe(entry, Checkpoint.RawCache)) ==> Shows(entry, text, Checkpoint.RawCache))
            && (r == Some(Checkpoint.Unsafe(entry, Checkpoint.LocalPath)) ==> Shows(entry, text, Checkpoint.LocalPath))
  {
    var text := t.zip.decode(data);
    ShowsIff(entry, text);
    hide Contains, Checkpoint.Includes, Checkpoint.HasLocalPath, Checkpoint.HasCredential, Secret, HomePath, Shows;
    if Checkpoint.Refusal(entry, data, t).None? {
      forall danger ensures !Shows(entry, text, danger) {
        match danger case Credential => case Transcript => case RawCache => case LocalPath =>
      }
    }
  }

  lemma ShowsIff(entry: string, text: string)
    ensures Shows(entry, text, Checkpoint.Credential) <==> Checkpoint.HasCredential(text)
    ensures Shows(entry, text, Checkpoint.Transcript)
       <==> Checkpoint.Includes(text, "pi-transcript") || Checkpoint.Includes(text, "\"type\":\"session\"")
    ensures Shows(entry, text, Checkpoint.RawCache)
       <==> Checkpoint.Includes(text, "state/raw/") || Checkpoint.Includes(text, "\"/raw/")
    ensures Shows(entry, text, Checkpoint.LocalPath) <==> entry != Checkpoint.BUNDLE && Checkpoint.HasLocalPath(text)
  {
    hide Contains, Checkpoint.Includes, Checkpoint.HasLocalPath, Checkpoint.HasCredential, Secret, HomePath;
    CredentialIff(text);
    HomePathIff(text);
    IncludesIff(text, "pi-transcript");
    IncludesIff(text, "\"type\":\"session\"");
    IncludesIff(text, "state/raw/");
    IncludesIff(text, "\"/raw/");
  }

  // ---------------------------------------------------------------- packages

  /** No kind of danger shows in the text of this entry. */
  ghost predicate Harmless(entry: string, data: Bytes, t: Checkpoint.Tools) {
    forall danger :: !Shows(entry, t.zip.decode(data), danger)
  }

  /** The size and the digest that the manifest gives an entry are those of its bytes. */
  ghost predicate Attested(m: Checkpoint.Manifest, name: string, data: Bytes, t: Checkpoint.Tools) {
    name in m.entries && m.entries[name].size == Some(|data|) && m.entries[name].digest == Some(t.digest(data))
  }

  lemma HarmlessIff(name: string, data: Bytes, t: Checkpoint.Tools)
    ensures Harmless(name, data, t) <==> Checkpoint.Refusal(name, data, t).None?
  {
    hide Checkpoint.Refusal, Shows;
    RefusalIff(name, data, t);
  }

  lemma FiveEntries(files: map<string, Bytes>)
    ensures Checkpoint.HasExactlyTheEntries(files)
       <==> files.Keys == {"manifest.json", "config.json", "state.json", "wiki.bundle", "prepared-run.json"}
  {
  }

  /**
   * A package is accepted exactly when it unpacks to the five entries and no others, the manifest is of schema
   * version 1, no text shows anything dangerous and the manifest attests the four other parts.
   */
  lemma AcceptedIff(bytes: Bytes, p: Checkpoint.Parsed, t: Checkpoint.Tools)
    ensures Checkpoint.Accepted(bytes, p, t) <==>
            && Zip.Unzipped(bytes, t.zip) == Ok(p.files)
            && p.files.Keys == {"manifest.json", "config.json", "state.json", "wiki.bundle", "prepared-run.json"}
            && t.parse(p.files["manifest.json"]) == Some(p.manifest) && p.manifest.schemaVersion == Some(1)
            && (forall name :: name in p.files ==> Harmless(name, p.files[name], t))
            && (forall name :: name in p.files && name != "manifest.json" ==> Attested(p.manifest, name, p.files[name], t))
  {
    hide Checkpoint.Refusal, Harmless, Zip.Unzipped, Checkpoint.HasExactlyTheEntries;
    FiveEntries(p.files);
    if p.files.Keys == {"manifest.json", "config.json", "state.json", "wiki.bundle", "prepared-run.json"} {
      forall name | name in p.files
        ensures Harmless(name, p.files[name], t) <==> Checkpoint.Refusal(name, p.files[name], t).None?
      {
        HarmlessIff(name, p.files[name], t);
      }
      Checkpoint.RecordedAreEntries();
      assert forall name :: name in Checkpoint.ENTRY_NAMES <==> name in p.files;
    }
  }

  /** A checkpoint can be made exactly of a clean wiki with a configuration, a readable state and harmless parts. */
  lemma CreatableIff(x: Checkpoint.Input, t: Checkpoint.Tools)
    ensures Checkpoint.Creatable(x, t) <==>
            && x.config.Some? && x.state.Some? && !x.dirty && t.published(x.state.value).Some?
            && Harmless("config.json", x.config.value, t) && Harmless("state.json", x.state.value, t)
            && Harmless("prepared-run.json", x.prepared, t) && Harmless("wiki.bundle", x.bundle, t)
            && Zip.Fits(Checkpoint.PackedFiles(x, t), t.zip)
  {
    hide Checkpoint.Refusal, Harmless, Zip.Fits;
    if x.config.Some? && x.state.Some? {
      var checked := Checkpoint.CheckedAtCreation(x, x.config.value, x.state.value);
      Checkpoint.RefusedNone(checked, t);
      assert checked[0] in checked && checked[1] in checked && checked[2] in checked && checked[3] in checked;
      HarmlessIff("config.json", x.config.value, t);
      HarmlessIff("state.json", x.state.value, t);
      HarmlessIff("prepared-run.json", x.prepared, t);
      HarmlessIff("wiki.bundle", x.bundle, t);
    }
  }

  /** What the manifest of a new checkpoint says: the published commit of the state, and a target only when ready. */
  lemma ManifestMeans(x: Checkpoint.Input, t: Checkpoint.Tools)
    requires Checkpoint.Creatable(x, t)
    ensures var m := Checkpoint.CreatedFrom(x, t).manifest;
            && m.schemaVersion == Some(1) && Some(m.publishedCommit) == t.published(x.state.value)
            && m.readyToPublish == x.readyToPublish
            && (x.readyToPublish ==> m.targetCommit == x.targetCommit && m.targetTreeHash == x.targetTreeHash
                                     && m.baseTreeHash == x.baseTreeHash)
            && (!x.readyToPublish ==> m.targetCommit == None && m.targetTreeHash == None && m.baseTreeHash == None)
            && Attested(m, "config.json", x.config.value, t) && Attested(m, "state.json", x.state.value, t)
            && Attested(m, "wiki.bundle", x.bundle, t) && Attested(m, "prepared-run.json", x.prepared, t)
    ensures var c := Checkpoint.CreatedFrom(x, t); c.size == |c.bytes| && c.digest == t.digest(c.bytes)
  {
  }
}
