/** What the parser makes of a reply the packer wrote. */
module Plan9RoundTrip {
  import opened Words
  import opened ByteStrings
  import opened Plan9Wire

  /** The bytes `b` stand at position `o` of `f`. */
  ghost predicate At(f: Bytes, o: nat, b: Bytes) { o + |b| <= |f| && f[o..o + |b|] == b }

  lemma AtSplit(f: Bytes, o: nat, a: Bytes, b: Bytes)
    requires At(f, o, a + b)
    ensures At(f, o, a) && At(f, o + |a|, b)
  {
    var w := f[o..o + |a + b|];
    assert w[..|a|] == a && w[|a|..] == b;
    assert f[o..o + |a|] == w[..|a|] && f[o + |a|..o + |a| + |b|] == w[|a|..];
  }

  lemma AtNumber(f: Bytes, o: nat, v: nat, n: nat)
    requires At(f, o, ToLE(v, n)) && v < Pow256(n)
    ensures NumberAt(f, o, n) == v
  {
    FromToLE(v, n);
  }

  lemma AtU8(f: Bytes, o: nat, v: u8)
    requires At(f, o, ToLE(v, 1))
    ensures U8(f, o) == v
  {
    Widths();
    AtNumber(f, o, v, 1);
  }

  lemma AtU16(f: Bytes, o: nat, v: u16)
    requires At(f, o, ToLE(v, 2))
    ensures U16(f, o) == v
  {
    Widths();
    AtNumber(f, o, v, 2);
  }

  lemma AtU32(f: Bytes, o: nat, v: u32)
    requires At(f, o, ToLE(v, 4))
    ensures U32(f, o) == v
  {
    Widths();
    AtNumber(f, o, v, 4);
  }

  lemma AtU64(f: Bytes, o: nat, v: u64)
    requires At(f, o, ToLE(v, 8))
    ensures U64(f, o) == v
  {
    Widths();
    AtNumber(f, o, v, 8);
  }

  lemma AtString(f: Bytes, o: nat, s: Bytes)
    requires At(f, o, StringBytes(s)) && |s| < WRAP16
    ensures Str(f, o) == (s, o + 2 + |s|)
  {
    AtSplit(f, o, ToLE(Low16(|s|), 2), s);
    AtU16(f, o, |s|);
    PaddedInside(f, o + 2, |s|);
  }

  lemma AtQid(f: Bytes, o: nat, q: Qid)
    requires At(f, o, QidBytes(q))
    ensures QidAt(f, o) == q
  {
    AtSplit(f, o, ToLE(q.typ, 1) + ToLE(q.version, 4), ToLE(q.path, 8));
    AtSplit(f, o, ToLE(q.typ, 1), ToLE(q.version, 4));
    AtU8(f, o, q.typ);
    AtU32(f, o + 1, q.version);
    AtU64(f, o + 5, q.path);
  }

  lemma {:induction false} AtQids(f: Bytes, o: nat, qs: seq<Qid>)
    requires At(f, o, QidsBytes(qs))
    ensures QidsAt(f, o, |qs|) == qs
  {
    if qs != [] {
      var rest, last := qs[..|qs| - 1], qs[|qs| - 1];
      AtSplit(f, o, QidsBytes(rest), QidBytes(last));
      AtQids(f, o, rest);
      AtQid(f, o + 13 * |rest|, last);
    }
  }

  predicate NamesFit(d: Dir) {
    |d.name| < WRAP16 && |d.uid| < WRAP16 && |d.gid| < WRAP16 && |d.muid| < WRAP16 && |d.ext| < WRAP16
  }

  function Fixed(d: Dir): Dir {
    d.(name := [], uid := [], gid := [], muid := [], ext := [], uidnum := NOUID, gidnum := NOUID, muidnum := NOUID)
  }

  lemma AtStatHead(f: Bytes, o: nat, d: Dir, dotu: bool)
    requires At(f, o, StatHead(d, dotu))
    ensures FixedAt(f, o) == Fixed(d)
  {
    var b0 := ToLE(Low16(StatSize(d, dotu) - 2), 2);
    var b1 := b0 + ToLE(d.typ, 2);
    var b2 := b1 + ToLE(d.dev, 4);
    var b3 := b2 + QidBytes(d.qid);
    var b4 := b3 + ToLE(d.mode, 4);
    var b5 := b4 + ToLE(d.atime, 4);
    var b6 := b5 + ToLE(d.mtime, 4);
    AtSplit(f, o, b6, ToLE(d.length, 8));
    AtSplit(f, o, b5, ToLE(d.mtime, 4));
    AtSplit(f, o, b4, ToLE(d.atime, 4));
    AtSplit(f, o, b3, ToLE(d.mode, 4));
    AtSplit(f, o, b2, QidBytes(d.qid));
    AtSplit(f, o, b1, ToLE(d.dev, 4));
    AtSplit(f, o, b0, ToLE(d.typ, 2));
    AtU16(f, o + 2, d.typ);
    AtU32(f, o + 4, d.dev);
    AtQid(f, o + 8, d.qid);
    AtU32(f, o + 21, d.mode);
    AtU32(f, o + 25, d.atime);
    AtU32(f, o + 29, d.mtime);
    AtU64(f, o + 33, d.length);
  }

  predicate NamesStand(f: Bytes, o: nat, d: Dir) {
    var p1 := o + 2 + |d.name|;
    var p2 := p1 + 2 + |d.uid|;
    var p3 := p2 + 2 + |d.gid|;
    && Str(f, o) == (d.name, p1) && Str(f, p1) == (d.uid, p2)
    && Str(f, p2) == (d.gid, p3) && Str(f, p3) == (d.muid, p3 + 2 + |d.muid|)
  }

  predicate ExtraStands(f: Bytes, o: nat, d: Dir) {
    var p := o + 2 + |d.ext|;
    && Str(f, o) == (d.ext, p) && U32(f, p) == d.uidnum
    && U32(f, p + 4) == d.gidnum && U32(f, p + 8) == d.muidnum
  }

  lemma AtStatNames(f: Bytes, o: nat, d: Dir)
    requires At(f, o, StatNames(d)) && NamesFit(d)
    ensures NamesStand(f, o, d)
  {
    hide At, Str, StringBytes;
    var a, b := StringBytes(d.name), StringBytes(d.name) + StringBytes(d.uid);
    var c := b + StringBytes(d.gid);
    AtSplit(f, o, c, StringBytes(d.muid));
    AtSplit(f, o, b, StringBytes(d.gid));
    AtSplit(f, o, a, StringBytes(d.uid));
    AtString(f, o, d.name);
    AtString(f, o + |a|, d.uid);
    AtString(f, o + |b|, d.gid);
    AtString(f, o + |c|, d.muid);
  }

  lemma AtStatExtra(f: Bytes, o: nat, d: Dir)
    requires At(f, o, StatExtra(d)) && NamesFit(d)
    ensures ExtraStands(f, o, d)
  {
    var a := StringBytes(d.ext);
    var b := a + ToLE(d.uidnum, 4);
    var c := b + ToLE(d.gidnum, 4);
    AtSplit(f, o, c, ToLE(d.muidnum, 4));
    AtSplit(f, o, b, ToLE(d.gidnum, 4));
    AtSplit(f, o, a, ToLE(d.uidnum, 4));
    AtString(f, o, d.ext);
    AtU32(f, o + |a|, d.uidnum);
    AtU32(f, o + |b|, d.gidnum);
    AtU32(f, o + |c|, d.muidnum);
  }

  /** Plain 9P2000 does not carry the last four fields. */
  function Carried(d: Dir, dotu: bool): Dir {
    if dotu then d else d.(ext := [], uidnum := NOUID, gidnum := NOUID, muidnum := NOUID)
  }

  lemma AtStatParts(f: Bytes, o: nat, d: Dir, dotu: bool)
    requires At(f, o, StatBytes(d, dotu))
    ensures At(f, o, StatHead(d, dotu)) && At(f, o + 41, StatNames(d))
    ensures dotu ==> At(f, o + 41 + |StatNames(d)|, StatExtra(d))
  {
    var extra := if dotu then StatExtra(d) else [];
    AtSplit(f, o, StatHead(d, dotu) + StatNames(d), extra);
    AtSplit(f, o, StatHead(d, dotu), StatNames(d));
  }

  /** A stat entry is read back, and reading ends exactly where the entry ends. */
  lemma AtStat(f: Bytes, o: nat, d: Dir, dotu: bool)
    requires At(f, o, StatBytes(d, dotu)) && NamesFit(d)
    ensures StatAt(f, o, dotu) == (Carried(d, dotu), o + StatSize(d, dotu))
  {
    hide At, FixedAt, VariableAt, NamesStand, ExtraStands, Carried, Fixed, StatHead, StatNames, StatExtra, StatBytes, StatSize;
    AtStatParts(f, o, d, dotu);
    AtStatHead(f, o, d, dotu);
    AtStatNames(f, o + 41, d);
    if dotu { AtStatExtra(f, o + 41 + |StatNames(d)|, d); }
    VariableFrom(f, o + 41, d, dotu);
  }

  lemma NamesFrom(e: Dir, f: Bytes, o: nat, d: Dir)
    requires NamesStand(f, o, d)
    ensures NamesAt(e, f, o) == (e.(name := d.name, uid := d.uid, gid := d.gid, muid := d.muid), o + |StatNames(d)|)
  {
  }

  lemma ExtraFrom(e: Dir, f: Bytes, o: nat, d: Dir)
    requires ExtraStands(f, o, d)
    ensures ExtraAt(e, f, o) ==
            (e.(ext := d.ext, uidnum := d.uidnum, gidnum := d.gidnum, muidnum := d.muidnum), o + |StatExtra(d)|)
  {
  }

  lemma VariableFrom(f: Bytes, o: nat, d: Dir, dotu: bool)
    requires NamesStand(f, o, d) && (dotu ==> ExtraStands(f, o + |StatNames(d)|, d))
    ensures VariableAt(Fixed(d), f, o, dotu) == (Carried(d, dotu), o - 41 + StatSize(d, dotu))
  {
    hide NamesAt, ExtraAt, NamesStand, ExtraStands, StatNames, StatExtra;
    NamesFrom(Fixed(d), f, o, d);
    var e := Fixed(d).(name := d.name, uid := d.uid, gid := d.gid, muid := d.muid);
    if dotu { ExtraFrom(e, f, o + |StatNames(d)|, d); }
  }

  /** Every string and list of the reply fits its 16-bit count. */
  predicate Fits(r: Reply) {
    match r
    case Rversion(_, version) => |version| < WRAP16
    case Rerror(error, _) => |error| < WRAP16
    case Rwalk(qids) => |qids| < WRAP16
    case Rstat(dir) => NamesFit(dir)
    case _ => true
  }

  /** Every field the reply carries came back. */
  predicate Recovered(c: Content, r: Reply, dotu: bool) {
    match r
    case Rversion(msize, version) => c == Version(msize, version)
    case Rauth(qid) => c == OneQid(qid)
    case Rattach(qid) => c == OneQid(qid)
    case Rerror(error, errornum) => c == Error(error, if dotu then errornum else 0)
    case Rwalk(qids) => c == Qids(qids)
    case Ropen(qid, iounit) => c.Opened? && c.qid == qid && c.iounit == iounit
    case Rcreate(qid, iounit) => c.Opened? && c.qid == qid && c.iounit == iounit
    case Rread(count) => c == Count(count)
    case Rwrite(count) => c == Count(count)
    case Rstat(dir) => c == Stat(Carried(dir, dotu))
    case _ => c == Nothing
  }

  /** The header fields survive, and the content is that of the reply. */
  predicate Returned(p: Parsed, fc: Fcall, o: nat, r: Reply, dotu: bool) {
    && p.Parsed? && Recovered(p.fcall.content, r, dotu)
    && p.fcall.size == fc.size && p.fcall.typ == fc.typ && p.fcall.tag == fc.tag
    && (r.Ropen? || r.Rcreate? || p.end == o + |Body(r, dotu)| + if r.Rread? then r.count else 0)
  }

  lemma VersionReply(fc: Fcall, f: Bytes, o: nat, msize: u32, version: Bytes)
    requires At(f, o, ToLE(msize, 4) + StringBytes(version)) && |version| < WRAP16
    ensures VersionAt(fc, f, o) == Parsed(fc.(content := Version(msize, version)), o + 6 + |version|)
  {
    hide At, U32, Str, StringBytes, ToLE;
    AtSplit(f, o, ToLE(msize, 4), StringBytes(version));
    AtU32(f, o, msize);
    AtString(f, o + 4, version);
  }

  lemma ErrorReply(fc: Fcall, f: Bytes, o: nat, r: Reply, dotu: bool)
    requires At(f, o, Body(r, dotu)) && Fits(r) && fc.typ == TypeOf(r) && r.Rerror?
    ensures Returned(ReplyAt(fc, f, o, dotu), fc, o, r, dotu)
  {
    hide At, U32, Str, StringBytes, ToLE;
    AtSplit(f, o, StringBytes(r.error), if dotu then ToLE(r.errornum, 4) else []);
    AtString(f, o, r.error);
    if dotu { AtU32(f, o + 2 + |r.error|, r.errornum); }
  }

  lemma QidReplies(fc: Fcall, f: Bytes, o: nat, r: Reply, dotu: bool)
    requires At(f, o, Body(r, dotu)) && Fits(r) && fc.typ == TypeOf(r)
    requires r.Rauth? || r.Rattach? || r.Ropen? || r.Rcreate?
    ensures Returned(ReplyAt(fc, f, o, dotu), fc, o, r, dotu)
  {
    hide At, U8, U32, QidAt, QidBytes, ToLE;
    if r.Ropen? || r.Rcreate? {
      AtSplit(f, o, QidBytes(r.qid), ToLE(r.iounit, 4));
      AtU32(f, o + 13, r.iounit);
    }
    AtQid(f, o, r.qid);
  }

  lemma WalkReply(fc: Fcall, f: Bytes, o: nat, r: Reply, dotu: bool)
    requires At(f, o, Body(r, dotu)) && Fits(r) && fc.typ == TypeOf(r) && r.Rwalk?
    ensures Returned(ReplyAt(fc, f, o, dotu), fc, o, r, dotu)
  {
    hide At, U16, QidsAt, QidsBytes, ToLE, Low16;
    AtWalk(f, o, r.qids);
    assert ReplyAt(fc, f, o, dotu) == Parsed(fc.(content := Qids(r.qids)), o + 2 + 13 * |r.qids|);
  }

  lemma AtWalk(f: Bytes, o: nat, qids: seq<Qid>)
    requires At(f, o, ToLE(Low16(|qids|), 2) + QidsBytes(qids)) && |qids| < WRAP16
    ensures U16(f, o) == |qids| && QidsAt(f, o + 2, U16(f, o)) == qids
  {
    hide At, QidsBytes, QidsAt, ToLE, U16;
    AtSplit(f, o, ToLE(Low16(|qids|), 2), QidsBytes(qids));
    AtU16(f, o, |qids|);
    AtQids(f, o + 2, qids);
  }

  lemma StatReply(fc: Fcall, f: Bytes, o: nat, r: Reply, dotu: bool)
    requires At(f, o, Body(r, dotu)) && Fits(r) && fc.typ == TypeOf(r) && r.Rstat?
    ensures Returned(ReplyAt(fc, f, o, dotu), fc, o, r, dotu)
  {
    hide At, StatAt, StatBytes, Carried, StatSize, ToLE, NamesFit, Low16;
    AtStatBody(f, o, r.dir, dotu);
    StatReplyAt(fc, f, o, dotu);
  }

  lemma StatReplyAt(fc: Fcall, f: Bytes, o: nat, dotu: bool)
    requires fc.typ == 125
    ensures ReplyAt(fc, f, o, dotu) ==
            Parsed(fc.(content := Stat(StatAt(f, o + 2, dotu).0)), StatAt(f, o + 2, dotu).1)
  {
    hide StatAt;
  }

  lemma AtStatBody(f: Bytes, o: nat, d: Dir, dotu: bool)
    requires At(f, o, ToLE(Low16(StatSize(d, dotu)), 2) + StatBytes(d, dotu)) && NamesFit(d)
    ensures StatAt(f, o + 2, dotu) == (Carried(d, dotu), o + 2 + StatSize(d, dotu))
  {
    hide At, StatAt, StatBytes, StatSize, Carried, ToLE;
    AtSplit(f, o, ToLE(Low16(StatSize(d, dotu)), 2), StatBytes(d, dotu));
    AtStat(f, o + 2, d, dotu);
  }

  lemma CountReplies(fc: Fcall, f: Bytes, o: nat, r: Reply, dotu: bool)
    requires At(f, o, Body(r, dotu)) && fc.typ == TypeOf(r) && (r.Rread? || r.Rwrite?)
    ensures Returned(ReplyAt(fc, f, o, dotu), fc, o, r, dotu)
  {
    hide At, U32, ToLE;
    AtU32(f, o, r.count);
  }

  lemma BodyRoundTrip(fc: Fcall, f: Bytes, o: nat, r: Reply, dotu: bool)
    requires At(f, o, Body(r, dotu)) && Fits(r) && fc.typ == TypeOf(r) && fc.content == Nothing
    ensures Returned(ContentAt(fc, f, o, dotu), fc, o, r, dotu)
  {
    hide At, ToLE, StringBytes, U32, VersionAt, QidAt, QidsAt, StatAt, OpenedAt, Str, U16, StatSize;
    assert ContentAt(fc, f, o, dotu) == ReplyAt(fc, f, o, dotu);
    if r.Rversion? { VersionReply(fc, f, o, r.msize, r.version); }
    else if r.Rerror? { ErrorReply(fc, f, o, r, dotu); }
    else if r.Rauth? || r.Rattach? || r.Ropen? || r.Rcreate? { QidReplies(fc, f, o, r, dotu); }
    else if r.Rwalk? { WalkReply(fc, f, o, r, dotu); }
    else if r.Rstat? { StatReply(fc, f, o, r, dotu); }
    else if r.Rread? || r.Rwrite? { CountReplies(fc, f, o, r, dotu); }
  }

  /** No table entry stops a reply, except that plain 9P2000 has none for Rwstat. */
  lemma MinSizeAdmits(r: Reply, dotu: bool)
    ensures HEADER + |Body(r, dotu)| >= MinSize(TypeOf(r), dotu) <==> !(r.Rwstat? && !dotu)
  {
    hide StringBytes, QidBytes, QidsBytes, StatBytes, ToLE;
  }

  /** Packing a reply and parsing it gives back every field, under either dialect,
      for every reply but Rwstat under plain 9P2000, which the parser refuses. */
  lemma RoundTrip(f: Bytes, o: nat, r: Reply, tag: u16, dotu: bool)
    requires At(f, o, ReplyBytes(r, tag, dotu)) && Fits(r)
    requires HEADER + BodySize(r, dotu) < WRAP32 && o + HEADER + BodySize(r, dotu) <= |f|
    requires r.Rread? ==> r.count < WRAP32 - 4
    ensures var p := Parse(f, o, dotu);
            if r.Rwstat? && !dotu then p == Bad(BufferInsufficient)
            else && p.Parsed? && Recovered(p.fcall.content, r, dotu)
                 && p.fcall.typ == TypeOf(r) && p.fcall.tag == tag
                 && p.fcall.size == HEADER + BodySize(r, dotu)
                 && (r.Ropen? || r.Rcreate? || p.end == o + p.fcall.size)
  {
    hide At, U8, U16, U32, ContentAt, Recovered, Body, HeaderBytes, Parse, MinSize, Fits;
    var size := HEADER + BodySize(r, dotu);
    AtSplit(f, o, HeaderBytes(size, TypeOf(r), tag), Body(r, dotu));
    AtHeader(f, o, size, TypeOf(r), tag);
    BodyRoundTrip(Fcall(size, TypeOf(r), tag, NOFID, NOFID, NOFID, Nothing), f, o + HEADER, r, dotu);
    ParseReduces(f, o, size, TypeOf(r), tag, dotu);
    MinSizeAdmits(r, dotu);
    ReadBody(r, dotu);
  }

  lemma ReadBody(r: Reply, dotu: bool)
    ensures r.Rread? ==> |Body(r, dotu)| == 4
  {
  }

  lemma ParseReduces(f: Bytes, o: nat, size: u32, typ: u8, tag: u16, dotu: bool)
    requires HEADER <= size && o + size <= |f| && TVERSION <= typ < TLAST
    requires U32(f, o) == size && U8(f, o + 4) == typ && U16(f, o + 5) == tag
    ensures Parse(f, o, dotu) ==
            if size < MinSize(typ, dotu) then Bad(BufferInsufficient)
            else ContentAt(Fcall(size, typ, tag, NOFID, NOFID, NOFID, Nothing), f, o + HEADER, dotu)
  {
  }

  lemma AtHeader(f: Bytes, o: nat, size: u32, typ: u8, tag: u16)
    requires At(f, o, HeaderBytes(size, typ, tag))
    ensures U32(f, o) == size && U8(f, o + 4) == typ && U16(f, o + 5) == tag
  {
    AtSplit(f, o, ToLE(size, 4) + ToLE(typ, 1), ToLE(tag, 2));
    AtSplit(f, o, ToLE(size, 4), ToLE(typ, 1));
    AtU32(f, o, size);
    AtU8(f, o + 4, typ);
    AtU16(f, o + 5, tag);
  }
}
