/** The reply packers, working through the cursor of a buffer. */
module Plan9Codec {
  import opened Words
  import opened ByteStrings
  import opened Plan9Wire
  import opened Plan9RoundTrip

  /** The writing side of a buffer at one moment. */
  datatype Moment = Moment(bookmark: nat, data: Bytes, writeOffset: nat, base: Bytes, out: Bytes) {
    /** The log tells the contents. */
    predicate Logged() {
      writeOffset == bookmark + |out| <= |data| && data == Splice(base, bookmark, out)
    }
  }

  /** What writing `b` does to the cursor, the length, the bytes before it and the log. */
  ghost predicate Extended(s: Moment, t: Moment, b: Bytes) {
    && t.bookmark == s.bookmark && t.base == s.base && t.writeOffset == s.writeOffset + |b|
    && SameUpTo(s.data, t.data, s.writeOffset)
    && (s.Logged() && t.writeOffset <= |t.data| ==> t.Logged() && t.out == s.out + b)
  }

  /** Two writes in a row are one longer write. */
  lemma Compose(s: Moment, t: Moment, u: Moment, a: Bytes, b: Bytes)
    requires Extended(s, t, a) && Extended(t, u, b)
    ensures Extended(s, u, a + b)
  {
    SameTrans(s.data, t.data, u.data, s.writeOffset, t.writeOffset);
    Chain(s.out, a, b);
  }

  /** A buffer with one flat backing string.  `out` logs what was written since the
      last rewind, over the contents `base` found then. */
  class FlatBuffer {
    const bookmark: nat
    var data: Bytes
    var readOffset: nat
    var writeOffset: nat
    ghost var base: Bytes
    ghost var out: Bytes

    ghost predicate Logged() reads this { Now().Logged() }

    constructor (contents: Bytes, mark: nat)
      requires mark <= |contents|
      ensures data == contents && bookmark == readOffset == writeOffset == mark
      ensures Logged() && base == contents && out == []
    {
      data, bookmark, readOffset, writeOffset := contents, mark, mark, mark;
      base, out := contents, [];
      EmptySplice(contents, mark);
    }

    function ReadLeft(): int reads this { |data| - readOffset }

    function WriteLeft(): int reads this { |data| - writeOffset }

    method ReadRewind()
      modifies this`readOffset
      ensures readOffset == bookmark
    {
      readOffset := bookmark;
    }

    method WriteRewind()
      modifies this`writeOffset, this`base, this`out
      ensures writeOffset == bookmark && base == data && out == []
      ensures bookmark <= |data| ==> Logged()
    {
      writeOffset, base, out := bookmark, data, [];
      EmptySplice(data, bookmark);
    }

    ghost function Now(): Moment reads this { Moment(bookmark, data, writeOffset, base, out) }

    method WriteN(size: nat, value: nat)
      modifies this`data, this`writeOffset, this`out
      ensures data == PutNumber(old(data), old(writeOffset), size, value)
      ensures Extended(old(Now()), Now(), ToLE(value, size))
    {
      var b := ToLE(value, size);
      LogStep(base, bookmark, out, data, writeOffset, b);
      data := PutNumber(data, writeOffset, size, value);
      writeOffset := writeOffset + size;
      out := out + b;
    }

    method WriteBytes(b: Bytes)
      modifies this`data, this`writeOffset, this`out
      ensures data == Splice(old(data), old(writeOffset), b)
      ensures Extended(old(Now()), Now(), b)
    {
      LogStep(base, bookmark, out, data, writeOffset, b);
      data := Splice(data, writeOffset, b);
      writeOffset := writeOffset + |b|;
      out := out + b;
    }

    method WriteString(b: Bytes)
      modifies this`data, this`writeOffset, this`out
      ensures Extended(old(Now()), Now(), StringBytes(b))
    {
      hide *;
      ghost var s := Now();
      WriteN(2, Low16(|b|));
      ghost var t := Now();
      WriteBytes(b);
      Compose(s, t, Now(), ToLE(Low16(|b|), 2), b);
      StringParts(b);
    }

    method ReadN(size: nat) returns (v: nat)
      modifies this`readOffset
      ensures v == NumberAt(data, old(readOffset), size) && readOffset == old(readOffset) + size
    {
      v := NumberAt(data, readOffset, size);
      readOffset := readOffset + size;
    }

    method Read8() returns (v: u8)
      modifies this`readOffset
      ensures v == U8(data, old(readOffset)) && readOffset == old(readOffset) + 1
    {
      FitsWidth(data, readOffset, 1);
      Widths();
      v := ReadN(1);
    }

    method Read16() returns (v: u16)
      modifies this`readOffset
      ensures v == U16(data, old(readOffset)) && readOffset == old(readOffset) + 2
    {
      FitsWidth(data, readOffset, 2);
      Widths();
      v := ReadN(2);
    }

    method Read32() returns (v: u32)
      modifies this`readOffset
      ensures v == U32(data, old(readOffset)) && readOffset == old(readOffset) + 4
    {
      FitsWidth(data, readOffset, 4);
      Widths();
      v := ReadN(4);
    }

    method Read64() returns (v: u64)
      modifies this`readOffset
      ensures v == U64(data, old(readOffset)) && readOffset == old(readOffset) + 8
    {
      FitsWidth(data, readOffset, 8);
      Widths();
      v := ReadN(8);
    }

    method ReadString() returns (b: Bytes)
      modifies this`readOffset
      ensures (b, readOffset) == Str(data, old(readOffset))
    {
      var n := Read16();
      b := ReadBytes(n);
    }

    method ReadBytes(n: nat) returns (b: Bytes)
      modifies this`readOffset
      ensures b == Padded(data, old(readOffset), n) && readOffset == old(readOffset) + n
    {
      b := Padded(data, readOffset, n);
      readOffset := readOffset + n;
    }
  }

  /** Two strings agree before `off`. */
  ghost predicate SameUpTo(a: Bytes, b: Bytes, off: nat) {
    |a| == |b| && forall i | 0 <= i < |a| && i < off :: a[i] == b[i]
  }

  lemma SameTrans(a: Bytes, b: Bytes, c: Bytes, off: nat, off': nat)
    requires SameUpTo(a, b, off) && SameUpTo(b, c, off') && off <= off'
    ensures SameUpTo(a, c, off)
  {
  }

  lemma EmptySplice(d: Bytes, off: nat)
    ensures Splice(d, off, []) == d
  {
  }

  lemma Chain(o: Bytes, a: Bytes, b: Bytes)
    ensures (o + a) + b == o + (a + b)
  {
  }

  lemma StringParts(b: Bytes)
    ensures StringBytes(b) == ToLE(Low16(|b|), 2) + b
  {
  }

  /** One more write inside the buffer is one longer splice of what was there. */
  lemma LogStep(base: Bytes, mark: nat, out: Bytes, data: Bytes, off: nat, b: Bytes)
    ensures SameUpTo(data, Splice(data, off, b), off)
    ensures data == Splice(base, mark, out) && off == mark + |out| ==>
              Splice(data, off, b) == Splice(base, mark, out + b)
  {
    SpliceConcat(base, mark, out, b);
  }

  method Pqid(buf: FlatBuffer, q: Qid)
    modifies buf`data, buf`writeOffset, buf`out
    ensures Extended(old(buf.Now()), buf.Now(), QidBytes(q))
  {
    hide Extended, FlatBuffer.Now, ToLE;
    ghost var s := buf.Now();
    buf.WriteN(1, q.typ);
    ghost var t1 := buf.Now();
    buf.WriteN(4, q.version);
    ghost var t2 := buf.Now();
    Compose(s, t1, t2, ToLE(q.typ, 1), ToLE(q.version, 4));
    buf.WriteN(8, q.path);
    Compose(s, t2, buf.Now(), ToLE(q.typ, 1) + ToLE(q.version, 4), ToLE(q.path, 8));
  }

  method PstatHead(buf: FlatBuffer, d: Dir, dotu: bool)
    modifies buf`data, buf`writeOffset, buf`out
    ensures Extended(old(buf.Now()), buf.Now(), StatHead(d, dotu))
  {
    hide Extended, FlatBuffer.Now, ToLE, QidBytes, StatSize;
    ghost var s := buf.Now();
    buf.WriteN(2, Low16(StatSize(d, dotu) - 2));
    ghost var t1 := buf.Now();
    ghost var b1 := ToLE(Low16(StatSize(d, dotu) - 2), 2);
    buf.WriteN(2, d.typ);
    ghost var t2 := buf.Now();
    Compose(s, t1, t2, b1, ToLE(d.typ, 2));
    ghost var b2 := b1 + ToLE(d.typ, 2);
    buf.WriteN(4, d.dev);
    ghost var t3 := buf.Now();
    Compose(s, t2, t3, b2, ToLE(d.dev, 4));
    ghost var b3 := b2 + ToLE(d.dev, 4);
    Pqid(buf, d.qid);
    ghost var t4 := buf.Now();
    Compose(s, t3, t4, b3, QidBytes(d.qid));
    ghost var b4 := b3 + QidBytes(d.qid);
    buf.WriteN(4, d.mode);
    ghost var t5 := buf.Now();
    Compose(s, t4, t5, b4, ToLE(d.mode, 4));
    ghost var b5 := b4 + ToLE(d.mode, 4);
    buf.WriteN(4, d.atime);
    ghost var t6 := buf.Now();
    Compose(s, t5, t6, b5, ToLE(d.atime, 4));
    ghost var b6 := b5 + ToLE(d.atime, 4);
    buf.WriteN(4, d.mtime);
    ghost var t7 := buf.Now();
    Compose(s, t6, t7, b6, ToLE(d.mtime, 4));
    ghost var b7 := b6 + ToLE(d.mtime, 4);
    buf.WriteN(8, d.length);
    Compose(s, t7, buf.Now(), b7, ToLE(d.length, 8));
  }

  method PstatNames(buf: FlatBuffer, d: Dir)
    modifies buf`data, buf`writeOffset, buf`out
    ensures Extended(old(buf.Now()), buf.Now(), StatNames(d))
  {
    hide Extended, FlatBuffer.Now, StringBytes;
    ghost var s := buf.Now();
    buf.WriteString(d.name);
    ghost var t1 := buf.Now();
    buf.WriteString(d.uid);
    ghost var t2 := buf.Now();
    Compose(s, t1, t2, StringBytes(d.name), StringBytes(d.uid));
    buf.WriteString(d.gid);
    ghost var t3 := buf.Now();
    Compose(s, t2, t3, StringBytes(d.name) + StringBytes(d.uid), StringBytes(d.gid));
    buf.WriteString(d.muid);
    Compose(s, t3, buf.Now(), StringBytes(d.name) + StringBytes(d.uid) + StringBytes(d.gid), StringBytes(d.muid));
  }

  method PstatExtra(buf: FlatBuffer, d: Dir)
    modifies buf`data, buf`writeOffset, buf`out
    ensures Extended(old(buf.Now()), buf.Now(), StatExtra(d))
  {
    hide Extended, FlatBuffer.Now, StringBytes, ToLE;
    ghost var s := buf.Now();
    buf.WriteString(d.ext);
    ghost var t1 := buf.Now();
    buf.WriteN(4, d.uidnum);
    ghost var t2 := buf.Now();
    Compose(s, t1, t2, StringBytes(d.ext), ToLE(d.uidnum, 4));
    buf.WriteN(4, d.gidnum);
    ghost var t3 := buf.Now();
    Compose(s, t2, t3, StringBytes(d.ext) + ToLE(d.uidnum, 4), ToLE(d.gidnum, 4));
    buf.WriteN(4, d.muidnum);
    Compose(s, t3, buf.Now(), StringBytes(d.ext) + ToLE(d.uidnum, 4) + ToLE(d.gidnum, 4), ToLE(d.muidnum, 4));
  }

  /** Write one stat entry.  The size returned is the number of bytes the cursor moved,
      whether or not they all fitted. */
  method Pstat(buf: FlatBuffer, d: Dir, dotu: bool) returns (sz: nat)
    modifies buf`data, buf`writeOffset, buf`out
    ensures sz == StatSize(d, dotu) && Extended(old(buf.Now()), buf.Now(), StatBytes(d, dotu))
  {
    hide Extended, FlatBuffer.Now, StatHead, StatNames, StatExtra, StatSize;
    sz := StatSize(d, dotu);
    ghost var s := buf.Now();
    PstatHead(buf, d, dotu);
    ghost var t1 := buf.Now();
    PstatNames(buf, d);
    ghost var t2 := buf.Now();
    Compose(s, t1, t2, StatHead(d, dotu), StatNames(d));
    if dotu {
      PstatExtra(buf, d);
      Compose(s, t2, buf.Now(), StatHead(d, dotu) + StatNames(d), StatExtra(d));
    } else {
      assert StatBytes(d, dotu) == StatHead(d, dotu) + StatNames(d);
    }
  }

  /** How a packer leaves the buffer: it succeeds exactly when header, body and the
      data a read reply announces fit, and then the reply stands at the bookmark. */
  ghost predicate Replied(before: Bytes, t: Moment, r: Reply, tag: u16, dotu: bool, ok: bool) {
    && (ok <==> t.bookmark + HEADER + BodySize(r, dotu) <= |before| && t.bookmark + HEADER + |Body(r, dotu)| <= |before|)
    && |t.data| == |before|
    && (t.bookmark + HEADER + BodySize(r, dotu) > |before| ==> t.data == before)
    && (ok ==> && t.data == Splice(before, t.bookmark, ReplyBytes(r, tag, dotu))
               && t.writeOffset == t.bookmark + |ReplyBytes(r, tag, dotu)|
               && t.Logged() && t.base == before && t.out == ReplyBytes(r, tag, dotu))
  }

  /** The header has been written and the rest of the announced message fits. */
  ghost predicate Begun(before: Bytes, t: Moment, size: nat, typ: u8, tag: u16) {
    && t.Logged() && t.base == before && t.out == HeaderBytes(HEADER + size, typ, tag)
    && t.bookmark + HEADER + size <= |before| == |t.data|
  }

  method PackCommon(buf: FlatBuffer, size: nat, typ: u8, tag: u16) returns (ok: bool)
    modifies buf`data, buf`writeOffset, buf`base, buf`out
    ensures ok <==> buf.bookmark + HEADER + size <= |old(buf.data)|
    ensures ok ==> Begun(old(buf.data), buf.Now(), size, typ, tag)
    ensures !ok ==> buf.data == old(buf.data)
  {
    buf.WriteRewind();
    if buf.WriteLeft() < HEADER + size { return false; }
    ghost var s := buf.Now();
    PackHeader(buf, HEADER + size, typ, tag);
    assert s.out + HeaderBytes(HEADER + size, typ, tag) == HeaderBytes(HEADER + size, typ, tag);
    return true;
  }

  method PackHeader(buf: FlatBuffer, size: nat, typ: u8, tag: u16)
    modifies buf`data, buf`writeOffset, buf`out
    ensures Extended(old(buf.Now()), buf.Now(), HeaderBytes(size, typ, tag))
  {
    hide Extended, FlatBuffer.Now, ToLE;
    ghost var s := buf.Now();
    buf.WriteN(4, size % WRAP32);
    ghost var t1 := buf.Now();
    buf.WriteN(1, typ);
    ghost var t2 := buf.Now();
    Compose(s, t1, t2, ToLE(size % WRAP32, 4), ToLE(typ, 1));
    buf.WriteN(2, tag);
    Compose(s, t2, buf.Now(), ToLE(size % WRAP32, 4) + ToLE(typ, 1), ToLE(tag, 2));
  }

  /** Body written after the header: the packer is done. */
  lemma Finish(before: Bytes, s: Moment, t: Moment, r: Reply, tag: u16, dotu: bool)
    requires Begun(before, s, BodySize(r, dotu), TypeOf(r), tag) && Extended(s, t, Body(r, dotu))
    ensures Replied(before, t, r, tag, dotu, t.writeOffset <= |t.data|)
  {
    hide Body, HeaderBytes, BodySize, Splice;
  }

  /** The fifth byte of a message tells its type. */
  predicate HasType(data: Bytes, mark: nat, typ: u8) { mark + 4 < |data| && data[mark + 4] == typ }

  lemma TypeByte(before: Bytes, t: Moment, r: Reply, tag: u16, dotu: bool, ok: bool)
    requires Replied(before, t, r, tag, dotu, ok)
    ensures ok ==> HasType(t.data, t.bookmark, TypeOf(r))
  {
    hide Body, BodySize, TypeOf;
    TypeIsFifth(r, tag, dotu);
  }

  lemma TypeIsFifth(r: Reply, tag: u16, dotu: bool)
    ensures var b := ReplyBytes(r, tag, dotu); |b| >= HEADER && b[4] == TypeOf(r)
  {
    hide Body, BodySize, TypeOf;
    OneByte(TypeOf(r));
  }

  lemma OneByte(v: u8)
    ensures ToLE(v, 1) == [v]
  {
    assert ToLE(v / 256, 0) == [];
  }

  lemma Refuse(before: Bytes, t: Moment, r: Reply, tag: u16, dotu: bool)
    requires t.bookmark + HEADER + BodySize(r, dotu) > |before| && t.data == before
    ensures Replied(before, t, r, tag, dotu, false)
  {
  }

  /** Did the writes stay inside the buffer? */
  predicate CheckBuffer(buf: FlatBuffer)
    reads buf
    ensures CheckBuffer(buf) == (buf.Now().writeOffset <= |buf.Now().data|)
  {
    buf.WriteLeft() >= 0
  }

  lemma NothingWritten(s: Moment)
    ensures Extended(s, s, [])
  {
    assert s.out + [] == s.out;
  }

  method PackRversion(buf: FlatBuffer, tag: u16, msize: u32, version: Bytes) returns (ok: bool)
    modifies buf`data, buf`writeOffset, buf`base, buf`out
    ensures Replied(old(buf.data), buf.Now(), Rversion(msize, version), tag, false, ok)
    ensures ok ==> HasType(buf.data, buf.bookmark, 101)
  {
    hide Extended, Begun, Replied, ToLE, QidBytes, StringBytes, StatBytes, StatSize;
    ghost var r := Rversion(msize, version);
    ok := PackCommon(buf, 4 + 2 + |version|, TypeOf(Rversion(msize, version)), tag);
    if !ok { Refuse(buf.data, buf.Now(), r, tag, false); return; }
    ghost var s := buf.Now();
    buf.WriteN(4, msize);
    ghost var t := buf.Now();
    buf.WriteString(version);
    Compose(s, t, buf.Now(), ToLE(msize, 4), StringBytes(version));
    Finish(old(buf.data), s, buf.Now(), r, tag, false);
    TypeByte(old(buf.data), buf.Now(), r, tag, false, CheckBuffer(buf));
    return CheckBuffer(buf);
  }

  method PackRauth(buf: FlatBuffer, tag: u16, qid: Qid) returns (ok: bool)
    modifies buf`data, buf`writeOffset, buf`base, buf`out
    ensures Replied(old(buf.data), buf.Now(), Rauth(qid), tag, false, ok)
    ensures ok ==> HasType(buf.data, buf.bookmark, 103)
  {
    hide Extended, Begun, Replied, ToLE, QidBytes, StringBytes, StatBytes, StatSize;
    ghost var r := Rauth(qid);
    ok := PackCommon(buf, 13, TypeOf(Rauth(qid)), tag);
    if !ok { Refuse(buf.data, buf.Now(), r, tag, false); return; }
    ghost var s := buf.Now();
    Pqid(buf, qid);
    Finish(old(buf.data), s, buf.Now(), r, tag, false);
    TypeByte(old(buf.data), buf.Now(), r, tag, false, CheckBuffer(buf));
    return CheckBuffer(buf);
  }

  method PackRerror(buf: FlatBuffer, tag: u16, error: Bytes, errornum: u32, dotu: bool) returns (ok: bool)
    modifies buf`data, buf`writeOffset, buf`base, buf`out
    ensures Replied(old(buf.data), buf.Now(), Rerror(error, errornum), tag, dotu, ok)
    ensures ok ==> HasType(buf.data, buf.bookmark, 107)
  {
    hide Extended, Begun, Replied, ToLE, QidBytes, StringBytes, StatBytes, StatSize;
    ghost var r := Rerror(error, errornum);
    ok := PackCommon(buf, 2 + |error| + if dotu then 4 else 0, TypeOf(Rerror(error, errornum)), tag);
    if !ok { Refuse(buf.data, buf.Now(), r, tag, dotu); return; }
    ghost var s := buf.Now();
    buf.WriteString(error);
    ghost var t := buf.Now();
    if dotu {
      buf.WriteN(4, errornum);
      Compose(s, t, buf.Now(), StringBytes(error), ToLE(errornum, 4));
    } else {
      assert Body(r, dotu) == StringBytes(error);
    }
    Finish(old(buf.data), s, buf.Now(), r, tag, dotu);
    TypeByte(old(buf.data), buf.Now(), r, tag, dotu, CheckBuffer(buf));
    return CheckBuffer(buf);
  }

  method PackRflush(buf: FlatBuffer, tag: u16) returns (ok: bool)
    modifies buf`data, buf`writeOffset, buf`base, buf`out
    ensures Replied(old(buf.data), buf.Now(), Rflush, tag, false, ok)
    ensures ok ==> HasType(buf.data, buf.bookmark, 109)
  {
    hide Extended, Begun, Replied, ToLE, QidBytes, StringBytes, StatBytes, StatSize;
    ghost var r := Rflush;
    ok := PackCommon(buf, 0, TypeOf(Rflush), tag);
    if !ok { Refuse(buf.data, buf.Now(), r, tag, false); return; }
    ghost var s := buf.Now();
    NothingWritten(s);
    Finish(old(buf.data), s, buf.Now(), r, tag, false);
    TypeByte(old(buf.data), buf.Now(), r, tag, false, CheckBuffer(buf));
    return CheckBuffer(buf);
  }

  method PackRattach(buf: FlatBuffer, tag: u16, qid: Qid) returns (ok: bool)
    modifies buf`data, buf`writeOffset, buf`base, buf`out
    ensures Replied(old(buf.data), buf.Now(), Rattach(qid), tag, false, ok)
    ensures ok ==> HasType(buf.data, buf.bookmark, 105)
  {
    hide Extended, Begun, Replied, ToLE, QidBytes, StringBytes, StatBytes, StatSize;
    ghost var r := Rattach(qid);
    ok := PackCommon(buf, 13, TypeOf(Rattach(qid)), tag);
    if !ok { Refuse(buf.data, buf.Now(), r, tag, false); return; }
    ghost var s := buf.Now();
    Pqid(buf, qid);
    Finish(old(buf.data), s, buf.Now(), r, tag, false);
    TypeByte(old(buf.data), buf.Now(), r, tag, false, CheckBuffer(buf));
    return CheckBuffer(buf);
  }

  method PackRwalk(buf: FlatBuffer, tag: u16, qids: seq<Qid>) returns (ok: bool)
    modifies buf`data, buf`writeOffset, buf`base, buf`out
    ensures Replied(old(buf.data), buf.Now(), Rwalk(qids), tag, false, ok)
    ensures ok ==> HasType(buf.data, buf.bookmark, 111)
  {
    hide Extended, Begun, Replied, ToLE, QidBytes, StringBytes, StatBytes, StatSize;
    ghost var r := Rwalk(qids);
    ok := PackCommon(buf, 2 + |qids| * 13, TypeOf(Rwalk(qids)), tag);
    if !ok { Refuse(buf.data, buf.Now(), r, tag, false); return; }
    ghost var s := buf.Now();
    buf.WriteN(2, Low16(|qids|));
    ghost var count := ToLE(Low16(|qids|), 2);
    assert count + QidsBytes([]) == count;
    for i := 0 to |qids|
      invariant Extended(s, buf.Now(), count + QidsBytes(qids[..i]))
    {
      ghost var t := buf.Now();
      Pqid(buf, qids[i]);
      Compose(s, t, buf.Now(), count + QidsBytes(qids[..i]), QidBytes(qids[i]));
      OneMoreQid(count, qids, i);
    }
    assert qids[..|qids|] == qids;
    Finish(old(buf.data), s, buf.Now(), r, tag, false);
    TypeByte(old(buf.data), buf.Now(), r, tag, false, CheckBuffer(buf));
    return CheckBuffer(buf);
  }

  method PackRopen(buf: FlatBuffer, tag: u16, qid: Qid, iounit: u32) returns (ok: bool)
    modifies buf`data, buf`writeOffset, buf`base, buf`out
    ensures Replied(old(buf.data), buf.Now(), Ropen(qid, iounit), tag, false, ok)
    ensures ok ==> HasType(buf.data, buf.bookmark, 113)
  {
    hide Extended, Begun, Replied, ToLE, QidBytes, StringBytes, StatBytes, StatSize;
    ghost var r := Ropen(qid, iounit);
    ok := PackCommon(buf, 13 + 4, TypeOf(Ropen(qid, iounit)), tag);
    if !ok { Refuse(buf.data, buf.Now(), r, tag, false); return; }
    ghost var s := buf.Now();
    Pqid(buf, qid);
    ghost var t := buf.Now();
    buf.WriteN(4, iounit);
    Compose(s, t, buf.Now(), QidBytes(qid), ToLE(iounit, 4));
    Finish(old(buf.data), s, buf.Now(), r, tag, false);
    TypeByte(old(buf.data), buf.Now(), r, tag, false, CheckBuffer(buf));
    return CheckBuffer(buf);
  }

  method PackRcreate(buf: FlatBuffer, tag: u16, qid: Qid, iounit: u32) returns (ok: bool)
    modifies buf`data, buf`writeOffset, buf`base, buf`out
    ensures Replied(old(buf.data), buf.Now(), Rcreate(qid, iounit), tag, false, ok)
    ensures ok ==> HasType(buf.data, buf.bookmark, 115)
  {
    hide Extended, Begun, Replied, ToLE, QidBytes, StringBytes, StatBytes, StatSize;
    ghost var r := Rcreate(qid, iounit);
    ok := PackCommon(buf, 13 + 4, TypeOf(Rcreate(qid, iounit)), tag);
    if !ok { Refuse(buf.data, buf.Now(), r, tag, false); return; }
    ghost var s := buf.Now();
    Pqid(buf, qid);
    ghost var t := buf.Now();
    buf.WriteN(4, iounit);
    Compose(s, t, buf.Now(), QidBytes(qid), ToLE(iounit, 4));
    Finish(old(buf.data), s, buf.Now(), r, tag, false);
    TypeByte(old(buf.data), buf.Now(), r, tag, false, CheckBuffer(buf));
    return CheckBuffer(buf);
  }

  method PackRread(buf: FlatBuffer, tag: u16, count: u32) returns (ok: bool)
    modifies buf`data, buf`writeOffset, buf`base, buf`out
    ensures Replied(old(buf.data), buf.Now(), Rread(count), tag, false, ok)
    ensures ok ==> HasType(buf.data, buf.bookmark, 117)
  {
    hide Extended, Begun, Replied, ToLE, QidBytes, StringBytes, StatBytes, StatSize;
    ghost var r := Rread(count);
    ok := PackCommon(buf, (4 + count) % WRAP32, TypeOf(Rread(count)), tag);
    if !ok { Refuse(buf.data, buf.Now(), r, tag, false); return; }
    ghost var s := buf.Now();
    buf.WriteN(4, count);
    Finish(old(buf.data), s, buf.Now(), r, tag, false);
    TypeByte(old(buf.data), buf.Now(), r, tag, false, CheckBuffer(buf));
    return CheckBuffer(buf);
  }

  method PackRwrite(buf: FlatBuffer, tag: u16, count: u32) returns (ok: bool)
    modifies buf`data, buf`writeOffset, buf`base, buf`out
    ensures Replied(old(buf.data), buf.Now(), Rwrite(count), tag, false, ok)
    ensures ok ==> HasType(buf.data, buf.bookmark, 119)
  {
    hide Extended, Begun, Replied, ToLE, QidBytes, StringBytes, StatBytes, StatSize;
    ghost var r := Rwrite(count);
    ok := PackCommon(buf, 4, TypeOf(Rwrite(count)), tag);
    if !ok { Refuse(buf.data, buf.Now(), r, tag, false); return; }
    ghost var s := buf.Now();
    buf.WriteN(4, count);
    Finish(old(buf.data), s, buf.Now(), r, tag, false);
    TypeByte(old(buf.data), buf.Now(), r, tag, false, CheckBuffer(buf));
    return CheckBuffer(buf);
  }

  method PackRclunk(buf: FlatBuffer, tag: u16) returns (ok: bool)
    modifies buf`data, buf`writeOffset, buf`base, buf`out
    ensures Replied(old(buf.data), buf.Now(), Rclunk, tag, false, ok)
    ensures ok ==> HasType(buf.data, buf.bookmark, 121)
  {
    hide Extended, Begun, Replied, ToLE, QidBytes, StringBytes, StatBytes, StatSize;
    ghost var r := Rclunk;
    ok := PackCommon(buf, 0, TypeOf(Rclunk), tag);
    if !ok { Refuse(buf.data, buf.Now(), r, tag, false); return; }
    ghost var s := buf.Now();
    NothingWritten(s);
    Finish(old(buf.data), s, buf.Now(), r, tag, false);
    TypeByte(old(buf.data), buf.Now(), r, tag, false, CheckBuffer(buf));
    return CheckBuffer(buf);
  }

  method PackRremove(buf: FlatBuffer, tag: u16) returns (ok: bool)
    modifies buf`data, buf`writeOffset, buf`base, buf`out
    ensures Replied(old(buf.data), buf.Now(), Rremove, tag, false, ok)
    ensures ok ==> HasType(buf.data, buf.bookmark, 123)
  {
    hide Extended, Begun, Replied, ToLE, QidBytes, StringBytes, StatBytes, StatSize;
    ghost var r := Rremove;
    ok := PackCommon(buf, 0, TypeOf(Rremove), tag);
    if !ok { Refuse(buf.data, buf.Now(), r, tag, false); return; }
    ghost var s := buf.Now();
    NothingWritten(s);
    Finish(old(buf.data), s, buf.Now(), r, tag, false);
    TypeByte(old(buf.data), buf.Now(), r, tag, false, CheckBuffer(buf));
    return CheckBuffer(buf);
  }

  method PackRstat(buf: FlatBuffer, tag: u16, dir: Dir, dotu: bool) returns (ok: bool)
    modifies buf`data, buf`writeOffset, buf`base, buf`out
    ensures Replied(old(buf.data), buf.Now(), Rstat(dir), tag, dotu, ok)
    ensures ok ==> HasType(buf.data, buf.bookmark, 125)
  {
    hide Extended, Begun, Replied, ToLE, QidBytes, StringBytes, StatBytes, StatSize;
    ghost var r := Rstat(dir);
    ok := PackCommon(buf, 2 + StatSize(dir, dotu), TypeOf(Rstat(dir)), tag);
    if !ok { Refuse(buf.data, buf.Now(), r, tag, dotu); return; }
    ghost var s := buf.Now();
    buf.WriteN(2, Low16(StatSize(dir, dotu)));
    ghost var t := buf.Now();
    var sz := Pstat(buf, dir, dotu);
    Compose(s, t, buf.Now(), ToLE(Low16(StatSize(dir, dotu)), 2), StatBytes(dir, dotu));
    Finish(old(buf.data), s, buf.Now(), r, tag, dotu);
    TypeByte(old(buf.data), buf.Now(), r, tag, dotu, CheckBuffer(buf));
    return CheckBuffer(buf);
  }

  method PackRwstat(buf: FlatBuffer, tag: u16) returns (ok: bool)
    modifies buf`data, buf`writeOffset, buf`base, buf`out
    ensures Replied(old(buf.data), buf.Now(), Rwstat, tag, false, ok)
    ensures ok ==> HasType(buf.data, buf.bookmark, 127)
  {
    hide Extended, Begun, Replied, ToLE, QidBytes, StringBytes, StatBytes, StatSize;
    ghost var r := Rwstat;
    ok := PackCommon(buf, 0, TypeOf(Rwstat), tag);
    if !ok { Refuse(buf.data, buf.Now(), r, tag, false); return; }
    ghost var s := buf.Now();
    NothingWritten(s);
    Finish(old(buf.data), s, buf.Now(), r, tag, false);
    TypeByte(old(buf.data), buf.Now(), r, tag, false, CheckBuffer(buf));
    return CheckBuffer(buf);
  }

  lemma OneMoreQid(count: Bytes, qids: seq<Qid>, i: nat)
    requires i < |qids|
    ensures count + QidsBytes(qids[..i]) + QidBytes(qids[i]) == count + QidsBytes(qids[..i + 1])
  {
    assert qids[..i + 1][..i] == qids[..i];
    Chain(count, QidsBytes(qids[..i]), QidBytes(qids[i]));
  }

  // ----- Packing, then parsing

  /** The dialect changes the layout of error and stat replies only. */
  lemma EitherDialect(before: Bytes, t: Moment, r: Reply, tag: u16, dotu: bool, ok: bool)
    requires !r.Rerror? && !r.Rstat? && Replied(before, t, r, tag, false, ok)
    ensures Replied(before, t, r, tag, dotu, ok)
  {
    assert Body(r, dotu) == Body(r, false) && BodySize(r, dotu) == BodySize(r, false);
  }

  /** Whatever was in the buffer, a packer that succeeded leaves a message from which
      the parser recovers every field, with the exception the tables make. */
  lemma PackedThenParsed(before: Bytes, t: Moment, r: Reply, tag: u16, dotu: bool)
    requires Replied(before, t, r, tag, dotu, true) && Fits(r)
    requires HEADER + BodySize(r, dotu) < WRAP32 && (r.Rread? ==> r.count < WRAP32 - 4)
    ensures var p := Parse(t.data, t.bookmark, dotu);
            if r.Rwstat? && !dotu then p == Bad(BufferInsufficient)
            else && p.Parsed? && Recovered(p.fcall.content, r, dotu)
                 && p.fcall.typ == TypeOf(r) && p.fcall.tag == tag
                 && p.fcall.size == HEADER + BodySize(r, dotu)
                 && (r.Ropen? || r.Rcreate? || p.end == t.bookmark + p.fcall.size)
  {
    hide Parse, Recovered, ReplyBytes, BodySize, Body, Fits, Splice;
    ReplyLength(r, tag, dotu);
    SpliceInside(before, t.bookmark, ReplyBytes(r, tag, dotu));
    RoundTrip(t.data, t.bookmark, r, tag, dotu);
  }

  lemma ReplyLength(r: Reply, tag: u16, dotu: bool)
    ensures |ReplyBytes(r, tag, dotu)| == HEADER + |Body(r, dotu)|
  {
  }

  /** The packer of each reply. */
  method Pack(buf: FlatBuffer, r: Reply, tag: u16, dotu: bool) returns (ok: bool)
    modifies buf`data, buf`writeOffset, buf`base, buf`out
    ensures Replied(old(buf.data), buf.Now(), r, tag, dotu, ok)
  {
    hide Replied;
    match r {
    case Rversion(msize, version) => ok := PackRversion(buf, tag, msize, version);
    case Rauth(qid) => ok := PackRauth(buf, tag, qid);
    case Rerror(error, errornum) => ok := PackRerror(buf, tag, error, errornum, dotu);
    case Rflush => ok := PackRflush(buf, tag);
    case Rattach(qid) => ok := PackRattach(buf, tag, qid);
    case Rwalk(qids) => ok := PackRwalk(buf, tag, qids);
    case Ropen(qid, iounit) => ok := PackRopen(buf, tag, qid, iounit);
    case Rcreate(qid, iounit) => ok := PackRcreate(buf, tag, qid, iounit);
    case Rread(count) => ok := PackRread(buf, tag, count);
    case Rwrite(count) => ok := PackRwrite(buf, tag, count);
    case Rclunk => ok := PackRclunk(buf, tag);
    case Rremove => ok := PackRremove(buf, tag);
    case Rstat(dir) => ok := PackRstat(buf, tag, dir, dotu);
    case Rwstat => ok := PackRwstat(buf, tag);
    }
    if !r.Rerror? && !r.Rstat? { EitherDialect(old(buf.data), buf.Now(), r, tag, dotu, ok); }
  }
}
