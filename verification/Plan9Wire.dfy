/**
 The 9P wire format as functions on a flat byte string: how a reply is laid out,
 and what the parser makes of the bytes at a position.
 */
module Plan9Wire {
  import opened Words
  import opened ByteStrings

  const NOTAG: u16 := 0xFFFF
  const NOFID: u32 := 0xFFFF_FFFF
  const NOUID: u32 := 0xFFFF_FFFF
  const HEADER: nat := 7
  const TVERSION: u8 := 100
  const TLAST: u8 := 128

  datatype Qid = Qid(typ: u8, version: u32, path: u64)

  datatype Dir = Dir(typ: u16, dev: u32, qid: Qid, mode: u32, atime: u32, mtime: u32, length: u64,
                     name: Bytes, uid: Bytes, gid: Bytes, muid: Bytes,
                     ext: Bytes, uidnum: u32, gidnum: u32, muidnum: u32)

  datatype Reply =
    | Rversion(msize: u32, version: Bytes) | Rauth(qid: Qid) | Rerror(error: Bytes, errornum: u32)
    | Rflush | Rattach(qid: Qid) | Rwalk(qids: seq<Qid>)
    | Ropen(qid: Qid, iounit: u32) | Rcreate(qid: Qid, iounit: u32)
    | Rread(count: u32) | Rwrite(count: u32) | Rclunk | Rremove | Rstat(dir: Dir) | Rwstat

  function TypeOf(r: Reply): u8 {
    match r
    case Rversion(_, _) => 101
    case Rauth(_) => 103
    case Rattach(_) => 105
    case Rerror(_, _) => 107
    case Rflush => 109
    case Rwalk(_) => 111
    case Ropen(_, _) => 113
    case Rcreate(_, _) => 115
    case Rread(_) => 117
    case Rwrite(_) => 119
    case Rclunk => 121
    case Rremove => 123
    case Rstat(_) => 125
    case Rwstat => 127
  }

  // ----- Layout

  function StringBytes(s: Bytes): (b: Bytes)
    ensures |b| == 2 + |s|
  {
    ToLE(Low16(|s|), 2) + s
  }

  function QidBytes(q: Qid): (b: Bytes)
    ensures |b| == 13
  {
    ToLE(q.typ, 1) + ToLE(q.version, 4) + ToLE(q.path, 8)
  }

  function QidsBytes(qs: seq<Qid>): (b: Bytes)
    ensures |b| == 13 * |qs|
  {
    if qs == [] then [] else QidsBytes(qs[..|qs| - 1]) + QidBytes(qs[|qs| - 1])
  }

  /** statsz: the size of a stat entry including its own two length bytes. */
  function StatSize(d: Dir, dotu: bool): nat {
    2 + 2 + 4 + 13 + 4 + 4 + 4 + 8 + 2 + 2 + 2 + 2 + |d.name| + |d.uid| + |d.gid| + |d.muid|
    + if dotu then 2 + 4 + 4 + 4 + |d.ext| else 0
  }

  function StatHead(d: Dir, dotu: bool): (b: Bytes)
    ensures |b| == 41
  {
    ToLE(Low16(StatSize(d, dotu) - 2), 2) + ToLE(d.typ, 2) + ToLE(d.dev, 4) + QidBytes(d.qid)
    + ToLE(d.mode, 4) + ToLE(d.atime, 4) + ToLE(d.mtime, 4) + ToLE(d.length, 8)
  }

  function StatNames(d: Dir): (b: Bytes)
    ensures |b| == 8 + |d.name| + |d.uid| + |d.gid| + |d.muid|
  {
    StringBytes(d.name) + StringBytes(d.uid) + StringBytes(d.gid) + StringBytes(d.muid)
  }

  function StatExtra(d: Dir): (b: Bytes)
    ensures |b| == 14 + |d.ext|
  {
    StringBytes(d.ext) + ToLE(d.uidnum, 4) + ToLE(d.gidnum, 4) + ToLE(d.muidnum, 4)
  }

  /** An entry occupies exactly the size announced for it. */
  function StatBytes(d: Dir, dotu: bool): (b: Bytes)
    ensures |b| == StatSize(d, dotu)
  {
    StatHead(d, dotu) + StatNames(d) + if dotu then StatExtra(d) else []
  }

  function Body(r: Reply, dotu: bool): Bytes {
    match r
    case Rversion(msize, version) => ToLE(msize, 4) + StringBytes(version)
    case Rauth(qid) => QidBytes(qid)
    case Rattach(qid) => QidBytes(qid)
    case Rerror(error, errornum) => StringBytes(error) + if dotu then ToLE(errornum, 4) else []
    case Rwalk(qids) => ToLE(Low16(|qids|), 2) + QidsBytes(qids)
    case Ropen(qid, iounit) => QidBytes(qid) + ToLE(iounit, 4)
    case Rcreate(qid, iounit) => QidBytes(qid) + ToLE(iounit, 4)
    case Rread(count) => ToLE(count, 4)
    case Rwrite(count) => ToLE(count, 4)
    case Rstat(dir) => ToLE(Low16(StatSize(dir, dotu)), 2) + StatBytes(dir, dotu)
    case _ => []
  }

  /** What the packer counts as the body: for a read reply the data that will follow
      is included, and that sum is taken in 32 bits. */
  function BodySize(r: Reply, dotu: bool): nat {
    if r.Rread? then (4 + r.count) % WRAP32 else |Body(r, dotu)|
  }

  function HeaderBytes(size: nat, typ: u8, tag: u16): (b: Bytes)
    ensures |b| == HEADER
  {
    ToLE(size % WRAP32, 4) + ToLE(typ, 1) + ToLE(tag, 2)
  }

  function ReplyBytes(r: Reply, tag: u16, dotu: bool): Bytes {
    HeaderBytes(HEADER + BodySize(r, dotu), TypeOf(r), tag) + Body(r, dotu)
  }

  // ----- Parsing

  function U8(f: Bytes, o: nat): u8 { FitsWidth(f, o, 1); Widths(); NumberAt(f, o, 1) }
  function U16(f: Bytes, o: nat): u16 { FitsWidth(f, o, 2); Widths(); NumberAt(f, o, 2) }
  function U32(f: Bytes, o: nat): u32 { FitsWidth(f, o, 4); Widths(); NumberAt(f, o, 4) }
  function U64(f: Bytes, o: nat): u64 { FitsWidth(f, o, 8); Widths(); NumberAt(f, o, 8) }

  lemma FitsWidth(f: Bytes, o: nat, n: nat)
    ensures NumberAt(f, o, n) < Pow256(n)
  {
    if o + n <= |f| { FromLEBound(f[o..o + n]); }
  }

  /** A counted string: its bytes and the position after it. */
  function Str(f: Bytes, o: nat): (Bytes, nat) {
    (Padded(f, o + 2, U16(f, o)), o + 2 + U16(f, o))
  }

  function QidAt(f: Bytes, o: nat): Qid { Qid(U8(f, o), U32(f, o + 1), U64(f, o + 5)) }

  function QidsAt(f: Bytes, o: nat, n: nat): (qs: seq<Qid>)
    ensures |qs| == n
  {
    if n == 0 then [] else QidsAt(f, o, n - 1) + [QidAt(f, o + 13 * (n - 1))]
  }

  /** `n` counted strings and the position after them. */
  function StrsAt(f: Bytes, o: nat, n: nat): (r: (seq<Bytes>, nat))
    ensures |r.0| == n
  {
    if n == 0 then ([], o) else
      var (names, p) := StrsAt(f, o, n - 1);
      var (name, q) := Str(f, p);
      (names + [name], q)
  }

  /** The fixed part of a stat entry. */
  function FixedAt(f: Bytes, o: nat): Dir {
    Dir(U16(f, o + 2), U32(f, o + 4), QidAt(f, o + 8), U32(f, o + 21), U32(f, o + 25), U32(f, o + 29),
        U64(f, o + 33), [], [], [], [], [], NOUID, NOUID, NOUID)
  }

  function NamesAt(d: Dir, f: Bytes, o: nat): (Dir, nat) {
    var (name, p1) := Str(f, o);
    var (uid, p2) := Str(f, p1);
    var (gid, p3) := Str(f, p2);
    var (muid, p4) := Str(f, p3);
    (d.(name := name, uid := uid, gid := gid, muid := muid), p4)
  }

  function ExtraAt(d: Dir, f: Bytes, o: nat): (Dir, nat) {
    var (ext, p) := Str(f, o);
    (d.(ext := ext, uidnum := U32(f, p), gidnum := U32(f, p + 4), muidnum := U32(f, p + 8)), p + 12)
  }

  function VariableAt(fixed: Dir, f: Bytes, o: nat, dotu: bool): (Dir, nat) {
    var (d, p) := NamesAt(fixed, f, o);
    if dotu then ExtraAt(d, f, p) else (d, p)
  }

  function StatAt(f: Bytes, o: nat, dotu: bool): (Dir, nat) { VariableAt(FixedAt(f, o), f, o + 41, dotu) }

  datatype Failure = BufferInsufficient | InvalidMessage

  /** The fields a message type fills in besides the header and the three fids. */
  datatype Content =
    | Version(msize: u32, version: Bytes)
    | Login(uname: Bytes, aname: Bytes, unamenum: u32)
    | OneQid(qid: Qid) | OldTag(oldtag: u16) | Error(error: Bytes, errornum: u32)
    | Names(wname: seq<Bytes>) | Qids(wqid: seq<Qid>)
    | Mode(mode: u8) | Opened(qid: Qid, iounit: u32, mode: u8)
    | Creation(name: Bytes, perm: u32, mode: u8, ext: Bytes)
    | Range(offset: u64, count: u32) | Count(count: u32) | Stat(dir: Dir) | Nothing

  datatype Fcall = Fcall(size: u32, typ: u8, tag: u16, fid: u32, afid: u32, newfid: u32, content: Content)

  datatype Parsed = Parsed(fcall: Fcall, end: nat) | Bad(failure: Failure)

  /** The minimum sizes as the two tables list them, from Tversion on.  The first is
      meant for 9P2000 and is consulted for 9P2000.u, and the other way round; the
      second has no entry for Rwstat, so that type finds the one after it. */
  const MIN_SIZES: seq<u32> :=
    [6, 6, 8, 13, 12, 13, 0, 2, 2, 0, 10, 2, 5, 17, 11, 17, 16, 4, 16, 4, 4, 0, 4, 0, 4, 4, 8, 0, 20, 4, 20, 4, 16, 0]
  const MIN_SIZES_U: seq<u32> :=
    [6, 6, 12, 13, 16, 13, 0, 6, 2, 0, 10, 2, 5, 17, 13, 17, 16, 4, 16, 4, 4, 0, 4, 0, 4, 4, 8, 20, 4, 20, 4, 16, 0]

  function MinSize(typ: u8, dotu: bool): u32
    requires TVERSION <= typ < TLAST
  {
    if dotu then MIN_SIZES[typ - TVERSION] else MIN_SIZES_U[typ - TVERSION]
  }

  /** Uid of a login: present on the wire only if bytes remain. */
  function LoginAt(f: Bytes, o: nat, dotu: bool, absent: u32): (Content, nat) {
    var (uname, p) := Str(f, o);
    var (aname, q) := Str(f, p);
    if !dotu then (Login(uname, aname, absent), q)
    else if |f| - q > 0 then (Login(uname, aname, U32(f, q)), q + 4)
    else (Login(uname, aname, NOUID), q)
  }

  /** The type-specific part of a message: requests have even types. */
  function ContentAt(fc: Fcall, f: Bytes, o: nat, dotu: bool): Parsed {
    if fc.typ % 2 == 0 then RequestAt(fc, f, o, dotu) else ReplyAt(fc, f, o, dotu)
  }

  function RequestAt(fc: Fcall, f: Bytes, o: nat, dotu: bool): Parsed {
    match fc.typ
    case 100 => VersionAt(fc, f, o)
    case 102 =>
      var (c, e) := LoginAt(f, o + 4, dotu, NOUID);
      Parsed(fc.(afid := U32(f, o), content := c), e)
    case 104 =>
      var (c, e) := LoginAt(f, o + 8, dotu, 0);
      Parsed(fc.(fid := U32(f, o), afid := U32(f, o + 4), content := c), e)
    case 108 => Parsed(fc.(content := OldTag(U16(f, o))), o + 2)
    case 110 => WalkAt(fc, f, o)
    case 112 => Parsed(fc.(fid := U32(f, o), content := Mode(U8(f, o + 4))), o + 5)
    case 114 => CreateAt(fc, f, o, dotu)
    case 116 => Parsed(fc.(fid := U32(f, o), content := Range(U64(f, o + 4), U32(f, o + 12))), o + 16)
    case 118 => Parsed(fc.(fid := U32(f, o), content := Range(U64(f, o + 4), U32(f, o + 12))), o + 16)
    case 126 =>
      var (d, e) := StatAt(f, o + 6, dotu);
      Parsed(fc.(fid := U32(f, o), content := Stat(d)), e)
    case _ =>
      if fc.typ == 120 || fc.typ == 122 || fc.typ == 124 then Parsed(fc.(fid := U32(f, o)), o + 4)
      else Bad(InvalidMessage)
  }

  function ReplyAt(fc: Fcall, f: Bytes, o: nat, dotu: bool): Parsed {
    match fc.typ
    case 101 => VersionAt(fc, f, o)
    case 103 => Parsed(fc.(content := OneQid(QidAt(f, o))), o + 13)
    case 105 => Parsed(fc.(content := OneQid(QidAt(f, o))), o + 13)
    case 107 =>
      var (error, e) := Str(f, o);
      Parsed(fc.(content := Error(error, if dotu then U32(f, e) else 0)), if dotu then e + 4 else e)
    case 111 => Parsed(fc.(content := Qids(QidsAt(f, o + 2, U16(f, o)))), o + 2 + 13 * U16(f, o))
    case 113 => OpenedAt(fc, f, o)
    case 115 => OpenedAt(fc, f, o)
    case 117 => Parsed(fc.(content := Count(U32(f, o))), o + 4 + U32(f, o))
    case 119 => Parsed(fc.(content := Count(U32(f, o))), o + 4)
    case 125 =>
      var (d, e) := StatAt(f, o + 2, dotu);
      Parsed(fc.(content := Stat(d)), e)
    case _ =>
      if fc.typ == 109 || fc.typ == 121 || fc.typ == 123 || fc.typ == 127 then Parsed(fc, o)
      else Bad(InvalidMessage)
  }

  function WalkAt(fc: Fcall, f: Bytes, o: nat): Parsed {
    var (names, e) := StrsAt(f, o + 10, U16(f, o + 8));
    Parsed(fc.(fid := U32(f, o), newfid := U32(f, o + 4), content := Names(names)), e)
  }

  function CreateAt(fc: Fcall, f: Bytes, o: nat, dotu: bool): Parsed {
    var (name, p) := Str(f, o + 4);
    var (ext, e) := if dotu then Str(f, p + 5) else ([], p + 5);
    Parsed(fc.(fid := U32(f, o), content := Creation(name, U32(f, p), U8(f, p + 4), ext)), e)
  }

  function VersionAt(fc: Fcall, f: Bytes, o: nat): Parsed {
    var (version, e) := Str(f, o + 4);
    Parsed(fc.(content := Version(U32(f, o), version)), e)
  }

  /** Open and create replies are read five bytes past what their packer writes. */
  function OpenedAt(fc: Fcall, f: Bytes, o: nat): Parsed {
    Parsed(fc.(fid := U32(f, o + 17), content := Opened(QidAt(f, o), U32(f, o + 13), U8(f, o + 21))), o + 22)
  }

  function Parse(f: Bytes, o: nat, dotu: bool): Parsed {
    if |f| - o < HEADER then Bad(BufferInsufficient) else
      var size, typ, tag := U32(f, o), U8(f, o + 4), U16(f, o + 5);
      if size - HEADER > |f| - (o + HEADER) || size < HEADER then Bad(BufferInsufficient)
      else if typ < TVERSION || typ >= TLAST then Bad(InvalidMessage)
      else if size < MinSize(typ, dotu) then Bad(BufferInsufficient)
      else ContentAt(Fcall(size, typ, tag, NOFID, NOFID, NOFID, Nothing), f, o + HEADER, dotu)
  }
}
