/**
 Packing replies through the stream over guest memory.

 A packer is a straight list of writes: numbers of fixed width and byte strings.  This
 module says what such a list does to a segmented buffer, and when a reply that was
 packed so is the reply.
 */
module Plan9Stream {
  import opened Words
  import opened ByteStrings
  import opened VirtioStream
  import opened Plan9Wire
  import opened Plan9RoundTrip

  datatype Field = Num(size: nat, value: nat) | Raw(b: Bytes)

  function FieldBytes(x: Field): Bytes { if x.Num? then ToLE(x.value, x.size) else x.b }

  function FieldsBytes(xs: seq<Field>): Bytes {
    if xs == [] then [] else FieldBytes(xs[0]) + FieldsBytes(xs[1..])
  }

  predicate FixedWidths(xs: seq<Field>) { forall x | x in xs :: x.Num? ==> IsWidth(x.size) }

  // ----- The writes of the packers

  function HeaderFields(size: nat, typ: u8, tag: u16): seq<Field> {
    [Num(4, size % WRAP32), Num(1, typ), Num(2, tag)]
  }

  function StringFields(s: Bytes): seq<Field> { [Num(2, Low16(|s|)), Raw(s)] }

  function QidFields(q: Qid): seq<Field> { [Num(1, q.typ), Num(4, q.version), Num(8, q.path)] }

  function QidsFields(qs: seq<Qid>): seq<Field> {
    if qs == [] then [] else QidsFields(qs[..|qs| - 1]) + QidFields(qs[|qs| - 1])
  }

  function StatHeadFields(d: Dir, dotu: bool): seq<Field> {
    [Num(2, Low16(StatSize(d, dotu) - 2)), Num(2, d.typ), Num(4, d.dev)] + QidFields(d.qid)
    + [Num(4, d.mode), Num(4, d.atime), Num(4, d.mtime), Num(8, d.length)]
  }

  function StatNamesFields(d: Dir): seq<Field> {
    StringFields(d.name) + StringFields(d.uid) + StringFields(d.gid) + StringFields(d.muid)
  }

  function StatExtraFields(d: Dir): seq<Field> {
    StringFields(d.ext) + [Num(4, d.uidnum), Num(4, d.gidnum), Num(4, d.muidnum)]
  }

  function StatFields(d: Dir, dotu: bool): seq<Field> {
    StatHeadFields(d, dotu) + StatNamesFields(d) + if dotu then StatExtraFields(d) else []
  }

  function BodyFields(r: Reply, dotu: bool): seq<Field> {
    match r
    case Rversion(msize, version) => [Num(4, msize)] + StringFields(version)
    case Rauth(qid) => QidFields(qid)
    case Rattach(qid) => QidFields(qid)
    case Rerror(error, errornum) => StringFields(error) + if dotu then [Num(4, errornum)] else []
    case Rwalk(qids) => [Num(2, Low16(|qids|))] + QidsFields(qids)
    case Ropen(qid, iounit) => QidFields(qid) + [Num(4, iounit)]
    case Rcreate(qid, iounit) => QidFields(qid) + [Num(4, iounit)]
    case Rread(count) => [Num(4, count)]
    case Rwrite(count) => [Num(4, count)]
    case Rstat(dir) => [Num(2, Low16(StatSize(dir, dotu)))] + StatFields(dir, dotu)
    case _ => []
  }

  function ReplyFields(r: Reply, tag: u16, dotu: bool): seq<Field> {
    HeaderFields(HEADER + BodySize(r, dotu), TypeOf(r), tag) + BodyFields(r, dotu)
  }

  // ----- They make up the reply

  lemma {:induction false} FieldsConcat(xs: seq<Field>, ys: seq<Field>)
    ensures FieldsBytes(xs + ys) == FieldsBytes(xs) + FieldsBytes(ys)
  {
    if xs == [] {
      assert xs + ys == ys;
    } else {
      assert (xs + ys)[1..] == xs[1..] + ys;
      FieldsConcat(xs[1..], ys);
    }
  }

  lemma NoFields()
    ensures FieldsBytes([]) == []
  {
  }

  lemma OneField(x: Field)
    ensures FieldsBytes([x]) == FieldBytes(x)
  {
    assert [x][1..] == [];
    assert FieldBytes(x) + [] == FieldBytes(x);
  }

  lemma TwoFields(x: Field, y: Field)
    ensures FieldsBytes([x, y]) == FieldBytes(x) + FieldBytes(y)
  {
    hide FieldsBytes;
    FieldsConcat([x], [y]);
    OneField(x);
    OneField(y);
    assert [x] + [y] == [x, y];
  }

  lemma ThreeFields(x: Field, y: Field, z: Field)
    ensures FieldsBytes([x, y, z]) == FieldBytes(x) + FieldBytes(y) + FieldBytes(z)
  {
    hide FieldsBytes;
    FieldsConcat([x, y], [z]);
    TwoFields(x, y);
    OneField(z);
    assert [x, y] + [z] == [x, y, z];
  }

  lemma StringIs(s: Bytes)
    ensures FieldsBytes(StringFields(s)) == StringBytes(s)
  {
    TwoFields(Num(2, Low16(|s|)), Raw(s));
  }

  lemma QidIs(q: Qid)
    ensures FieldsBytes(QidFields(q)) == QidBytes(q)
  {
    ThreeFields(Num(1, q.typ), Num(4, q.version), Num(8, q.path));
  }

  lemma {:induction false} QidsAre(qs: seq<Qid>)
    ensures FieldsBytes(QidsFields(qs)) == QidsBytes(qs)
  {
    if qs != [] {
      QidsAre(qs[..|qs| - 1]);
      QidIs(qs[|qs| - 1]);
      FieldsConcat(QidsFields(qs[..|qs| - 1]), QidFields(qs[|qs| - 1]));
    }
  }

  lemma StatHeadIs(d: Dir, dotu: bool)
    ensures FieldsBytes(StatHeadFields(d, dotu)) == StatHead(d, dotu)
  {
    hide FieldsBytes, ToLE, QidBytes, StatSize, QidFields;
    var a, b, e, g := Num(2, Low16(StatSize(d, dotu) - 2)), Num(2, d.typ), Num(4, d.dev), Num(4, d.mode);
    var h, i, j := Num(4, d.atime), Num(4, d.mtime), Num(8, d.length);
    ThreeFields(a, b, e);
    QidIs(d.qid);
    ThreeFields(g, h, i);
    OneField(j);
    FieldsConcat([g, h, i], [j]);
    assert [g, h, i] + [j] == [g, h, i, j];
    FieldsConcat([a, b, e], QidFields(d.qid));
    FieldsConcat([a, b, e] + QidFields(d.qid), [g, h, i, j]);
  }

  lemma StatNamesAre(d: Dir)
    ensures FieldsBytes(StatNamesFields(d)) == StatNames(d)
  {
    hide FieldsBytes, StringBytes, StringFields;
    StringIs(d.name);
    StringIs(d.uid);
    StringIs(d.gid);
    StringIs(d.muid);
    FieldsConcat(StringFields(d.name), StringFields(d.uid));
    FieldsConcat(StringFields(d.name) + StringFields(d.uid), StringFields(d.gid));
    FieldsConcat(StringFields(d.name) + StringFields(d.uid) + StringFields(d.gid), StringFields(d.muid));
  }

  lemma StatExtraIs(d: Dir)
    ensures FieldsBytes(StatExtraFields(d)) == StatExtra(d)
  {
    hide FieldsBytes, StringBytes, StringFields, ToLE;
    StringIs(d.ext);
    ThreeFields(Num(4, d.uidnum), Num(4, d.gidnum), Num(4, d.muidnum));
    FieldsConcat(StringFields(d.ext), [Num(4, d.uidnum), Num(4, d.gidnum), Num(4, d.muidnum)]);
  }

  lemma StatIs(d: Dir, dotu: bool)
    ensures FieldsBytes(StatFields(d, dotu)) == StatBytes(d, dotu)
  {
    hide StatHeadFields, StatNamesFields, StatExtraFields, StatHead, StatNames, StatExtra;
    StatHeadIs(d, dotu);
    StatNamesAre(d);
    StatExtraIs(d);
    var extra := if dotu then StatExtraFields(d) else [];
    FieldsConcat(StatHeadFields(d, dotu), StatNamesFields(d));
    FieldsConcat(StatHeadFields(d, dotu) + StatNamesFields(d), extra);
  }

  lemma BodyIs(r: Reply, dotu: bool)
    ensures FieldsBytes(BodyFields(r, dotu)) == Body(r, dotu)
  {
    hide FieldsBytes, StringFields, QidFields, QidsFields, StatFields, StringBytes, QidBytes, QidsBytes, StatBytes, ToLE, StatSize;
    match r
    case Rversion(msize, version) =>
      OneField(Num(4, msize)); StringIs(version); FieldsConcat([Num(4, msize)], StringFields(version));
    case Rerror(error, errornum) =>
      OneField(Num(4, errornum)); NoFields(); StringIs(error);
      FieldsConcat(StringFields(error), if dotu then [Num(4, errornum)] else []);
    case Rauth(qid) => QidIs(qid);
    case Rattach(qid) => QidIs(qid);
    case Rwalk(qids) =>
      var n := Num(2, Low16(|qids|));
      OneField(n); QidsAre(qids); FieldsConcat([n], QidsFields(qids));
    case Ropen(qid, iounit) => QidIs(qid); OneField(Num(4, iounit)); FieldsConcat(QidFields(qid), [Num(4, iounit)]);
    case Rcreate(qid, iounit) => QidIs(qid); OneField(Num(4, iounit)); FieldsConcat(QidFields(qid), [Num(4, iounit)]);
    case Rread(count) => OneField(Num(4, count));
    case Rwrite(count) => OneField(Num(4, count));
    case Rstat(dir) =>
      var n := Num(2, Low16(StatSize(dir, dotu)));
      OneField(n); StatIs(dir, dotu); FieldsConcat([n], StatFields(dir, dotu));
    case _ => NoFields();
  }

  lemma FieldsMakeReply(r: Reply, tag: u16, dotu: bool)
    ensures FieldsBytes(ReplyFields(r, tag, dotu)) == ReplyBytes(r, tag, dotu) && FixedWidths(ReplyFields(r, tag, dotu))
  {
    hide FieldsBytes, BodyFields, Body, BodySize, ToLE;
    var size := HEADER + BodySize(r, dotu);
    ThreeFields(Num(4, size % WRAP32), Num(1, TypeOf(r)), Num(2, tag));
    BodyIs(r, dotu);
    FieldsConcat(HeaderFields(size, TypeOf(r), tag), BodyFields(r, dotu));
    BodyWidths(r, dotu);
  }

  lemma {:induction false} QidsWidths(qs: seq<Qid>)
    ensures FixedWidths(QidsFields(qs))
  {
    if qs != [] { QidsWidths(qs[..|qs| - 1]); }
  }

  lemma BodyWidths(r: Reply, dotu: bool)
    ensures FixedWidths(BodyFields(r, dotu))
  {
    hide StatSize, Low16, StatFields, QidsFields;
    if r.Rwalk? { QidsWidths(r.qids); }
    if r.Rstat? { StatWidths(r.dir, dotu); }
  }

  lemma StatWidths(d: Dir, dotu: bool)
    ensures FixedWidths(StatFields(d, dotu))
  {
    hide StatSize, Low16;
    assert FixedWidths(StatHeadFields(d, dotu));
    assert FixedWidths(StatNamesFields(d));
    assert FixedWidths(StatExtraFields(d));
    hide StatHeadFields, StatNamesFields, StatExtraFields;
  }

  lemma LengthOf(buf: VirtioBuffer)
    requires buf.Valid()
    ensures |buf.flat| == buf.length
  {
  }

  // ----- Writing them to a segmented buffer

  /** No number lies across the boundary of two segments. */
  predicate Unbroken(lens: seq<nat>, off: nat, xs: seq<Field>)
    decreases |xs|
  {
    xs == [] || ((xs[0].Num? ==> !Straddles(lens, off, xs[0].size)) && Unbroken(lens, off + |FieldBytes(xs[0])|, xs[1..]))
  }

  /** The cursor ends where it should if and only if no number was broken, and then the
      flat string has the bytes of the fields at the cursor and is otherwise as before. */
  method WriteFields(stream: VirtioStream, xs: seq<Field>)
    requires stream.buf.Valid() && FixedWidths(xs)
    modifies stream`writeOffset, stream.buf.data, stream.buf`flat
    ensures stream.buf.Valid() && |stream.buf.flat| == old(|stream.buf.flat|)
    ensures stream.writeOffset >= old(stream.writeOffset) + |FieldsBytes(xs)|
    ensures stream.writeOffset == old(stream.writeOffset) + |FieldsBytes(xs)|
            <==> Unbroken(stream.buf.lens, old(stream.writeOffset), xs)
    ensures Unbroken(stream.buf.lens, old(stream.writeOffset), xs)
            && old(stream.writeOffset) + |FieldsBytes(xs)| <= |stream.buf.flat| ==>
              stream.buf.flat == Splice(old(stream.buf.flat), old(stream.writeOffset), FieldsBytes(xs))
    decreases |xs|
  {
    hide VirtioBuffer.Valid, Straddles, ToLE, Splice;
    LengthOf(stream.buf);
    ghost var before, start := stream.buf.flat, stream.writeOffset;
    if xs == [] {
      SpliceNothing(before, start);
      return;
    }
    var x := xs[0];
    if x.Num? { stream.WriteN(x.size, x.value); } else { stream.WriteBytes(x.b); }
    LengthOf(stream.buf);
    ghost var rest := FieldsBytes(xs[1..]);
    SpliceConcat(before, start, FieldBytes(x), rest);
    WriteFields(stream, xs[1..]);
  }

  // ----- Packing a reply

  /** Rewind, test for room, write all fields: the packers on a segmented buffer. */
  method PackReply(stream: VirtioStream, r: Reply, tag: u16, dotu: bool) returns (ok: bool)
    requires stream.buf.Valid()
    modifies stream`writeOffset, stream.buf.data, stream.buf`flat
    ensures stream.buf.Valid() && |stream.buf.flat| == old(|stream.buf.flat|)
    ensures stream.bookmark + HEADER + BodySize(r, dotu) > |stream.buf.flat| ==> !ok && stream.buf.flat == old(stream.buf.flat)
    ensures stream.bookmark + HEADER + BodySize(r, dotu) <= |stream.buf.flat| ==>
              (stream.writeOffset == stream.bookmark + |ReplyBytes(r, tag, dotu)|
               <==> Unbroken(stream.buf.lens, stream.bookmark, ReplyFields(r, tag, dotu)))
    ensures Unbroken(stream.buf.lens, stream.bookmark, ReplyFields(r, tag, dotu)) ==>
              && (ok <==> && stream.bookmark + HEADER + BodySize(r, dotu) <= |stream.buf.flat|
                          && stream.bookmark + |ReplyBytes(r, tag, dotu)| <= |stream.buf.flat|)
              && (ok ==> stream.buf.flat == Splice(old(stream.buf.flat), stream.bookmark, ReplyBytes(r, tag, dotu)))
  {
    hide VirtioBuffer.Valid, Unbroken, BodySize, ReplyBytes, ReplyFields, FieldsBytes, Splice;
    LengthOf(stream.buf);
    stream.WriteRewind();
    if stream.WriteLeft() < HEADER + BodySize(r, dotu) { return false; }
    FieldsMakeReply(r, tag, dotu);
    WriteFields(stream, ReplyFields(r, tag, dotu));
    return stream.WriteLeft() >= 0;
  }

  /** What was packed through the stream, on whatever segments, is parsed back to every
      field, if no number was broken. */
  lemma PackedOverSegmentsParses(before: Bytes, flat: Bytes, mark: nat, r: Reply, tag: u16, dotu: bool)
    requires mark + |ReplyBytes(r, tag, dotu)| <= |before| && flat == Splice(before, mark, ReplyBytes(r, tag, dotu))
    requires Fits(r) && mark + HEADER + BodySize(r, dotu) <= |before|
    requires HEADER + BodySize(r, dotu) < WRAP32 && (r.Rread? ==> r.count < WRAP32 - 4)
    ensures var p := Parse(flat, mark, dotu);
            if r.Rwstat? && !dotu then p == Bad(BufferInsufficient)
            else && p.Parsed? && Recovered(p.fcall.content, r, dotu)
                 && p.fcall.typ == TypeOf(r) && p.fcall.tag == tag && p.fcall.size == HEADER + BodySize(r, dotu)
  {
    hide Parse, Recovered, ReplyBytes, BodySize, Fits, Splice;
    SpliceInside(before, mark, ReplyBytes(r, tag, dotu));
    RoundTrip(flat, mark, r, tag, dotu);
  }

  // ----- Replies inside one segment

  lemma {:induction false} RoomInside(lens: seq<nat>, off: nat, k: nat)
    requires k < RoomAt(lens, off)
    ensures RoomAt(lens, off + k) == RoomAt(lens, off) - k
    decreases |lens|
  {
    if off >= lens[0] { RoomInside(lens[1..], off - lens[0], k); }
  }

  /** Fields that all lie in one segment are not broken. */
  lemma {:induction false} OneSegmentUnbroken(lens: seq<nat>, off: nat, xs: seq<Field>)
    requires |FieldsBytes(xs)| <= RoomAt(lens, off)
    ensures Unbroken(lens, off, xs)
    decreases |xs|
  {
    hide ToLE, Total, RoomAt;
    if xs != [] {
      var k := |FieldBytes(xs[0])|;
      assert |FieldsBytes(xs)| == k + |FieldsBytes(xs[1..])|;
      if k < RoomAt(lens, off) {
        RoomInside(lens, off, k);
        OneSegmentUnbroken(lens, off + k, xs[1..]);
      } else {
        NothingLeft(lens, off + k, xs[1..]);
      }
    }
  }

  lemma {:induction false} NothingLeft(lens: seq<nat>, off: nat, xs: seq<Field>)
    requires FieldsBytes(xs) == []
    ensures Unbroken(lens, off, xs)
    decreases |xs|
  {
    if xs != [] { NothingLeft(lens, off, xs[1..]); }
  }
}
