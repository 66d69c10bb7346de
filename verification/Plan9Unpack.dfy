/**
 The parser (plan9/unpack.go), over anything that offers the interface of plan9/buffer.go:
 a flat buffer, or the stream over segmented guest memory.
 */
module Plan9Unpack {
  import opened Words
  import opened ByteStrings
  import opened VirtioStream
  import opened Plan9Wire
  import opened Plan9RoundTrip
  import opened Plan9Codec
  import Plan9Stream

  /** One of the two buffers, as the parser sees it: a string and a cursor. */
  class Buffer {
    const flat: FlatBuffer?
    const stream: VirtioStream?

    ghost predicate Valid()
      reads this, flat, stream, if stream != null then {stream.buf} else {}, if stream != null then stream.buf.data else []
    {
      (flat == null <==> stream != null) && (stream != null ==> stream.buf.Valid())
    }

    ghost function Data(): Bytes
      requires Valid()
      reads this, flat, stream, if stream != null then {stream.buf} else {}, if stream != null then stream.buf.data else []
    {
      if flat != null then flat.data else stream.buf.flat
    }

    function Cursor(): nat
      requires Valid()
      reads this, flat, stream, if stream != null then {stream.buf} else {}, if stream != null then stream.buf.data else []
    {
      if flat != null then flat.readOffset else stream.readOffset
    }

    /** The object behind. */
    function Handle(): set<object> {
      if flat != null then {flat} else if stream != null then {stream} else {}
    }

    constructor Flat(b: FlatBuffer)
      ensures Valid() && flat == b && stream == null
    {
      flat, stream := b, null;
    }

    constructor Segmented(s: VirtioStream)
      requires s.buf.Valid()
      ensures Valid() && flat == null && stream == s
    {
      flat, stream := null, s;
    }

    method ReadLeft() returns (n: int)
      requires Valid()
      ensures n == |Data()| - Cursor()
    {
      if flat != null { n := flat.ReadLeft(); } else { n := stream.ReadLeft(); }
    }

    method Read8() returns (v: u8)
      requires Valid()
      modifies Handle()
      ensures Valid() && Data() == old(Data())
      ensures v == U8(Data(), old(Cursor())) && Cursor() == old(Cursor()) + 1
    {
      if flat != null {
        v := flat.Read8();
      } else {
        FitsWidth(stream.buf.flat, stream.readOffset, 1);
        Widths();
        var n := stream.ReadN(1);
        v := n;
      }
    }

    method Read16() returns (v: u16)
      requires Valid()
      modifies Handle()
      ensures Valid() && Data() == old(Data())
      ensures v == U16(Data(), old(Cursor())) && Cursor() == old(Cursor()) + 2
    {
      if flat != null {
        v := flat.Read16();
      } else {
        FitsWidth(stream.buf.flat, stream.readOffset, 2);
        Widths();
        var n := stream.ReadN(2);
        v := n;
      }
    }

    method Read32() returns (v: u32)
      requires Valid()
      modifies Handle()
      ensures Valid() && Data() == old(Data())
      ensures v == U32(Data(), old(Cursor())) && Cursor() == old(Cursor()) + 4
    {
      if flat != null {
        v := flat.Read32();
      } else {
        FitsWidth(stream.buf.flat, stream.readOffset, 4);
        Widths();
        var n := stream.ReadN(4);
        v := n;
      }
    }

    method Read64() returns (v: u64)
      requires Valid()
      modifies Handle()
      ensures Valid() && Data() == old(Data())
      ensures v == U64(Data(), old(Cursor())) && Cursor() == old(Cursor()) + 8
    {
      if flat != null {
        v := flat.Read64();
      } else {
        FitsWidth(stream.buf.flat, stream.readOffset, 8);
        Widths();
        var n := stream.ReadN(8);
        v := n;
      }
    }

    method ReadString() returns (b: Bytes)
      requires Valid()
      modifies Handle()
      ensures Valid() && Data() == old(Data())
      ensures (b, Cursor()) == Str(Data(), old(Cursor()))
    {
      if flat != null { b := flat.ReadString(); } else { b := stream.ReadString(); }
    }

    method ReadBytes(n: nat) returns (b: Bytes)
      requires Valid()
      modifies Handle()
      ensures Valid() && Data() == old(Data())
      ensures b == Padded(Data(), old(Cursor()), n) && Cursor() == old(Cursor()) + n
    {
      if flat != null { b := flat.ReadBytes(n); } else { b := stream.ReadBytes(n); }
    }
  }

  method Gqid(buf: Buffer) returns (q: Qid)
    requires buf.Valid()
    modifies buf.Handle()
    ensures buf.Valid() && buf.Data() == old(buf.Data())
    ensures q == QidAt(buf.Data(), old(buf.Cursor())) && buf.Cursor() == old(buf.Cursor()) + 13
  {
    hide Buffer.Valid, Buffer.Data, Buffer.Cursor;
    var typ := buf.Read8();
    var version := buf.Read32();
    var path := buf.Read64();
    q := Qid(typ, version, path);
  }

  method Gstat(buf: Buffer, dotu: bool) returns (d: Dir)
    requires buf.Valid()
    modifies buf.Handle()
    ensures buf.Valid() && buf.Data() == old(buf.Data())
    ensures (d, buf.Cursor()) == StatAt(buf.Data(), old(buf.Cursor()), dotu)
  {
    hide FixedAt, NamesAt, ExtraAt, Buffer.Valid, Buffer.Data, Buffer.Cursor;
    d := GstatFixed(buf);
    d := GstatNames(buf, d);
    if dotu { d := GstatExtra(buf, d); }
  }

  method GstatNames(buf: Buffer, fixed: Dir) returns (d: Dir)
    requires buf.Valid()
    modifies buf.Handle()
    ensures buf.Valid() && buf.Data() == old(buf.Data())
    ensures (d, buf.Cursor()) == NamesAt(fixed, buf.Data(), old(buf.Cursor()))
  {
    hide Str, Buffer.Valid, Buffer.Data, Buffer.Cursor;
    var name := buf.ReadString();
    var uid := buf.ReadString();
    var gid := buf.ReadString();
    var muid := buf.ReadString();
    d := fixed.(name := name, uid := uid, gid := gid, muid := muid);
  }

  /** The fields of 9P2000.u. */
  method GstatExtra(buf: Buffer, plain: Dir) returns (d: Dir)
    requires buf.Valid()
    modifies buf.Handle()
    ensures buf.Valid() && buf.Data() == old(buf.Data())
    ensures (d, buf.Cursor()) == ExtraAt(plain, buf.Data(), old(buf.Cursor()))
  {
    hide Str, U32, Buffer.Valid, Buffer.Data, Buffer.Cursor;
    var ext := buf.ReadString();
    var uidnum := buf.Read32();
    var gidnum := buf.Read32();
    var muidnum := buf.Read32();
    d := plain.(ext := ext, uidnum := uidnum, gidnum := gidnum, muidnum := muidnum);
  }

  /** The fields of fixed width; the rest is preset as for plain 9P2000. */
  method GstatFixed(buf: Buffer) returns (d: Dir)
    requires buf.Valid()
    modifies buf.Handle()
    ensures buf.Valid() && buf.Data() == old(buf.Data())
    ensures d == FixedAt(buf.Data(), old(buf.Cursor())) && buf.Cursor() == old(buf.Cursor()) + 41
  {
    hide U16, U32, U64, QidAt, Buffer.Valid, Buffer.Data, Buffer.Cursor;
    var _ := buf.Read16();
    var typ := buf.Read16();
    var dev := buf.Read32();
    var qid := Gqid(buf);
    var mode := buf.Read32();
    var atime := buf.Read32();
    var mtime := buf.Read32();
    var length := buf.Read64();
    d := Dir(typ, dev, qid, mode, atime, mtime, length, [], [], [], [], [], NOUID, NOUID, NOUID);
  }

  method Glogin(buf: Buffer, dotu: bool, absent: u32) returns (c: Content)
    requires buf.Valid()
    modifies buf.Handle()
    ensures buf.Valid() && buf.Data() == old(buf.Data())
    ensures (c, buf.Cursor()) == LoginAt(buf.Data(), old(buf.Cursor()), dotu, absent)
  {
    hide U32, Str, Buffer.Valid, Buffer.Data, Buffer.Cursor;
    var uname := buf.ReadString();
    var aname := buf.ReadString();
    var unamenum := absent;
    if dotu {
      var left := buf.ReadLeft();
      if left > 0 { unamenum := buf.Read32(); } else { unamenum := NOUID; }
    }
    c := Login(uname, aname, unamenum);
  }

  method Gnames(buf: Buffer, n: nat) returns (names: seq<Bytes>)
    requires buf.Valid()
    modifies buf.Handle()
    ensures buf.Valid() && buf.Data() == old(buf.Data())
    ensures (names, buf.Cursor()) == StrsAt(buf.Data(), old(buf.Cursor()), n)
  {
    hide Buffer.Valid, Buffer.Data, Buffer.Cursor;
    names := [];
    for i := 0 to n
      invariant buf.Valid() && buf.Data() == old(buf.Data())
      invariant (names, buf.Cursor()) == StrsAt(buf.Data(), old(buf.Cursor()), i)
    {
      var name := buf.ReadString();
      names := names + [name];
    }
  }

  method Gqids(buf: Buffer, n: nat) returns (qids: seq<Qid>)
    requires buf.Valid()
    modifies buf.Handle()
    ensures buf.Valid() && buf.Data() == old(buf.Data())
    ensures qids == QidsAt(buf.Data(), old(buf.Cursor()), n) && buf.Cursor() == old(buf.Cursor()) + 13 * n
  {
    hide Buffer.Valid, Buffer.Data, Buffer.Cursor;
    qids := [];
    for i := 0 to n
      invariant buf.Valid() && buf.Data() == old(buf.Data())
      invariant qids == QidsAt(buf.Data(), old(buf.Cursor()), i) && buf.Cursor() == old(buf.Cursor()) + 13 * i
    {
      var q := Gqid(buf);
      qids := qids + [q];
    }
  }

  /** Requests: the fields after the header. */
  method UnpackRequest(buf: Buffer, fc: Fcall, dotu: bool) returns (r: Parsed)
    requires buf.Valid()
    modifies buf.Handle()
    ensures buf.Valid() && buf.Data() == old(buf.Data())
    ensures r == RequestAt(fc, buf.Data(), old(buf.Cursor()), dotu)
    ensures r.Parsed? ==> buf.Cursor() == r.end
  {
    hide U8, U16, U32, U64, Str, StrsAt, StatAt, LoginAt, Buffer.Valid, Buffer.Data, Buffer.Cursor;
    var f := fc;
    match fc.typ {
    case 100 =>
      var msize := buf.Read32();
      var version := buf.ReadString();
      f := f.(content := Version(msize, version));
    case 102 =>
      var afid := buf.Read32();
      var c := Glogin(buf, dotu, NOUID);
      f := f.(afid := afid, content := c);
    case 104 =>
      var fid := buf.Read32();
      var afid := buf.Read32();
      var c := Glogin(buf, dotu, 0);
      f := f.(fid := fid, afid := afid, content := c);
    case 108 =>
      var oldtag := buf.Read16();
      f := f.(content := OldTag(oldtag));
    case 110 =>
      var fid := buf.Read32();
      var newfid := buf.Read32();
      var m := buf.Read16();
      var names := Gnames(buf, m);
      f := f.(fid := fid, newfid := newfid, content := Names(names));
    case 112 =>
      var fid := buf.Read32();
      var mode := buf.Read8();
      f := f.(fid := fid, content := Mode(mode));
    case 114 =>
      var fid := buf.Read32();
      var name := buf.ReadString();
      var perm := buf.Read32();
      var mode := buf.Read8();
      var ext := [];
      if dotu { ext := buf.ReadString(); }
      f := f.(fid := fid, content := Creation(name, perm, mode, ext));
    case 126 =>
      var fid := buf.Read32();
      var _ := buf.Read16();
      var d := Gstat(buf, dotu);
      f := f.(fid := fid, content := Stat(d));
    case _ =>
      if fc.typ == 116 || fc.typ == 118 {
        var fid := buf.Read32();
        var offset := buf.Read64();
        var count := buf.Read32();
        f := f.(fid := fid, content := Range(offset, count));
      } else if fc.typ == 120 || fc.typ == 122 || fc.typ == 124 {
        var fid := buf.Read32();
        f := f.(fid := fid);
      } else {
        return Bad(InvalidMessage);
      }
    }
    return Parsed(f, buf.Cursor());
  }

  /** Replies: the fields after the header. */
  method UnpackReply(buf: Buffer, fc: Fcall, dotu: bool) returns (r: Parsed)
    requires buf.Valid()
    modifies buf.Handle()
    ensures buf.Valid() && buf.Data() == old(buf.Data())
    ensures r == ReplyAt(fc, buf.Data(), old(buf.Cursor()), dotu)
    ensures r.Parsed? ==> buf.Cursor() == r.end
  {
    hide U8, U16, U32, Str, QidAt, QidsAt, StatAt, Buffer.Valid, Buffer.Data, Buffer.Cursor;
    var c := Nothing;
    var f := fc;
    if fc.typ == 101 {
      var msize := buf.Read32();
      var version := buf.ReadString();
      c := Version(msize, version);
    } else if fc.typ == 103 || fc.typ == 105 {
      var q := Gqid(buf);
      c := OneQid(q);
    } else if fc.typ == 107 {
      var error := buf.ReadString();
      var errornum := 0;
      if dotu { errornum := buf.Read32(); }
      c := Error(error, errornum);
    } else if fc.typ == 111 {
      var n := buf.Read16();
      var qids := Gqids(buf, n);
      c := Qids(qids);
    } else if fc.typ == 113 || fc.typ == 115 {
      var q := Gqid(buf);
      var iounit := buf.Read32();
      var fid := buf.Read32();
      var mode := buf.Read8();
      f := f.(fid := fid);
      c := Opened(q, iounit, mode);
    } else if fc.typ == 117 {
      var count := buf.Read32();
      var _ := buf.ReadBytes(count);
      c := Count(count);
    } else if fc.typ == 119 {
      var count := buf.Read32();
      c := Count(count);
    } else if fc.typ == 125 {
      var _ := buf.Read16();
      var d := Gstat(buf, dotu);
      c := Stat(d);
    } else if fc.typ == 109 || fc.typ == 121 || fc.typ == 123 || fc.typ == 127 {
      return Parsed(fc, buf.Cursor());
    } else {
      return Bad(InvalidMessage);
    }
    return Parsed(f.(content := c), buf.Cursor());
  }

  method Unpack(buf: Buffer, dotu: bool) returns (r: Parsed)
    requires buf.Valid()
    modifies buf.Handle()
    ensures buf.Valid() && buf.Data() == old(buf.Data())
    ensures r == Parse(buf.Data(), old(buf.Cursor()), dotu)
    ensures r.Parsed? ==> buf.Cursor() == r.end
  {
    hide U8, U16, U32, ContentAt, MinSize, Buffer.Valid, Buffer.Data, Buffer.Cursor;
    var left := buf.ReadLeft();
    if left < HEADER { return Bad(BufferInsufficient); }
    var size := buf.Read32();
    var typ := buf.Read8();
    var tag := buf.Read16();
    left := buf.ReadLeft();
    if size - HEADER > left || size < HEADER { return Bad(BufferInsufficient); }
    if typ < TVERSION || typ >= TLAST { return Bad(InvalidMessage); }
    if size < MinSize(typ, dotu) { return Bad(BufferInsufficient); }
    var fc := Fcall(size, typ, tag, NOFID, NOFID, NOFID, Nothing);
    r := UnpackContent(buf, fc, dotu);
  }

  /** The part that depends on the type of the message. */
  method UnpackContent(buf: Buffer, fc: Fcall, dotu: bool) returns (r: Parsed)
    requires buf.Valid()
    modifies buf.Handle()
    ensures buf.Valid() && buf.Data() == old(buf.Data())
    ensures r == ContentAt(fc, buf.Data(), old(buf.Cursor()), dotu)
    ensures r.Parsed? ==> buf.Cursor() == r.end
  {
    hide RequestAt, ReplyAt, Buffer.Valid, Buffer.Data, Buffer.Cursor;
    if fc.typ % 2 == 0 {
      r := UnpackRequest(buf, fc, dotu);
    } else {
      r := UnpackReply(buf, fc, dotu);
    }
  }

  /** Pack a reply, rewind, unpack: every field is back, except that Rwstat is refused
      under plain 9P2000. */
  method PackAndUnpack(buf: FlatBuffer, r: Reply, tag: u16, dotu: bool) returns (ok: bool, p: Parsed)
    requires Fits(r) && HEADER + BodySize(r, dotu) < WRAP32 && (r.Rread? ==> r.count < WRAP32 - 4)
    modifies buf
    ensures ok <==> buf.bookmark + HEADER + BodySize(r, dotu) <= old(|buf.data|)
                    && buf.bookmark + HEADER + |Body(r, dotu)| <= old(|buf.data|)
    ensures ok ==> if r.Rwstat? && !dotu then p == Bad(BufferInsufficient)
                   else && p.Parsed? && Recovered(p.fcall.content, r, dotu)
                        && p.fcall.typ == TypeOf(r) && p.fcall.tag == tag && p.fcall.size == HEADER + BodySize(r, dotu)
  {
    hide Parse, Recovered, BodySize, Body, Fits;
    ok := Pack(buf, r, tag, dotu);
    buf.ReadRewind();
    if ok { PackedThenParsed(old(buf.data), buf.Now(), r, tag, dotu); }
    var reader := new Buffer.Flat(buf);
    p := Unpack(reader, dotu);
  }

  /** The same through the stream, on whatever segments: if no number of the reply
      straddles a boundary, every field is back. */
  method PackAndUnpackSegments(stream: VirtioStream, r: Reply, tag: u16, dotu: bool) returns (ok: bool, p: Parsed)
    requires stream.buf.Valid()
    requires Fits(r) && HEADER + BodySize(r, dotu) < WRAP32 && (r.Rread? ==> r.count < WRAP32 - 4)
    modifies stream, stream.buf.data, stream.buf`flat
    ensures stream.buf.Valid()
    ensures ok && Plan9Stream.Unbroken(stream.buf.lens, stream.bookmark, Plan9Stream.ReplyFields(r, tag, dotu)) ==>
              if r.Rwstat? && !dotu then p == Bad(BufferInsufficient)
              else && p.Parsed? && Recovered(p.fcall.content, r, dotu)
                   && p.fcall.typ == TypeOf(r) && p.fcall.tag == tag && p.fcall.size == HEADER + BodySize(r, dotu)
  {
    hide Parse, Recovered, BodySize, Fits, ReplyBytes, Plan9Stream.Unbroken, Plan9Stream.ReplyFields, VirtioBuffer.Valid;
    ghost var before := stream.buf.flat;
    ok := Plan9Stream.PackReply(stream, r, tag, dotu);
    if ok && Plan9Stream.Unbroken(stream.buf.lens, stream.bookmark, Plan9Stream.ReplyFields(r, tag, dotu)) {
      Plan9Stream.PackedOverSegmentsParses(before, stream.buf.flat, stream.bookmark, r, tag, dotu);
    }
    stream.ReadRewind();
    var reader := new Buffer.Segmented(stream);
    p := Unpack(reader, dotu);
  }
}
