/**
 The requests of 9P2000 and 9P2000.u as the protocol lays them out (intro(5) in section 5
 of the Plan 9 manual), and what the parser makes of them.
 */
module Plan9Requests {
  import opened Words
  import opened ByteStrings
  import opened Plan9Wire
  import opened Plan9RoundTrip
  import opened Plan9Codec

  datatype Request =
    | Tversion(msize: u32, version: Bytes)
    | Tauth(afid: u32, uname: Bytes, aname: Bytes, unamenum: u32)
    | Tattach(fid: u32, afid: u32, uname: Bytes, aname: Bytes, unamenum: u32)
    | Tflush(oldtag: u16)
    | Twalk(fid: u32, newfid: u32, names: seq<Bytes>)
    | Topen(fid: u32, mode: u8)
    | Tcreate(fid: u32, name: Bytes, perm: u32, mode: u8, ext: Bytes)
    | Tread(fid: u32, offset: u64, count: u32)
    | Twrite(fid: u32, offset: u64, data: Bytes)
    | Tclunk(fid: u32) | Tremove(fid: u32) | Tstat(fid: u32) | Twstat(fid: u32, dir: Dir)

  function RequestType(m: Request): u8 {
    match m
    case Tversion(_, _) => 100
    case Tauth(_, _, _, _) => 102
    case Tattach(_, _, _, _, _) => 104
    case Tflush(_) => 108
    case Twalk(_, _, _) => 110
    case Topen(_, _) => 112
    case Tcreate(_, _, _, _, _) => 114
    case Tread(_, _, _) => 116
    case Twrite(_, _, _) => 118
    case Tclunk(_) => 120
    case Tremove(_) => 122
    case Tstat(_) => 124
    case Twstat(_, _) => 126
  }

  function StringsBytes(names: seq<Bytes>): Bytes {
    if names == [] then [] else StringsBytes(names[..|names| - 1]) + StringBytes(names[|names| - 1])
  }

  function LoginBytes(uname: Bytes, aname: Bytes, unamenum: u32, dotu: bool): Bytes {
    StringBytes(uname) + (StringBytes(aname) + if dotu then ToLE(unamenum, 4) else [])
  }

  function RequestBody(m: Request, dotu: bool): Bytes {
    match m
    case Tversion(msize, version) => ToLE(msize, 4) + StringBytes(version)
    case Tauth(afid, uname, aname, n) => ToLE(afid, 4) + LoginBytes(uname, aname, n, dotu)
    case Tattach(fid, afid, uname, aname, n) => ToLE(fid, 4) + (ToLE(afid, 4) + LoginBytes(uname, aname, n, dotu))
    case Tflush(oldtag) => ToLE(oldtag, 2)
    case Twalk(fid, newfid, names) =>
      ToLE(fid, 4) + (ToLE(newfid, 4) + (ToLE(Low16(|names|), 2) + StringsBytes(names)))
    case Topen(fid, mode) => ToLE(fid, 4) + ToLE(mode, 1)
    case Tcreate(fid, name, perm, mode, ext) =>
      ToLE(fid, 4) + (StringBytes(name) + (ToLE(perm, 4) + (ToLE(mode, 1) + if dotu then StringBytes(ext) else [])))
    case Tread(fid, offset, count) => ToLE(fid, 4) + (ToLE(offset, 8) + ToLE(count, 4))
    case Twrite(fid, offset, data) => ToLE(fid, 4) + (ToLE(offset, 8) + (ToLE(|data| % WRAP32, 4) + data))
    case Tclunk(fid) => ToLE(fid, 4)
    case Tremove(fid) => ToLE(fid, 4)
    case Tstat(fid) => ToLE(fid, 4)
    case Twstat(fid, dir) => ToLE(fid, 4) + (ToLE(Low16(StatSize(dir, dotu)), 2) + StatBytes(dir, dotu))
  }

  function RequestBytes(m: Request, tag: u16, dotu: bool): Bytes {
    HeaderBytes(HEADER + |RequestBody(m, dotu)|, RequestType(m), tag) + RequestBody(m, dotu)
  }

  predicate ShortNames(names: seq<Bytes>) { forall i | 0 <= i < |names| :: |names[i]| < WRAP16 }

  predicate RequestFits(m: Request) {
    match m
    case Tversion(_, version) => |version| < WRAP16
    case Tauth(_, uname, aname, _) => |uname| < WRAP16 && |aname| < WRAP16
    case Tattach(_, _, uname, aname, _) => |uname| < WRAP16 && |aname| < WRAP16
    case Twalk(_, _, names) => |names| < WRAP16 && ShortNames(names)
    case Tcreate(_, name, _, _, ext) => |name| < WRAP16 && |ext| < WRAP16
    case Twrite(_, _, data) => |data| < WRAP32
    case Twstat(_, dir) => NamesFit(dir)
    case _ => true
  }

  /** Every field of the request is where the server looks for it, and no fid is set
      that the request does not carry. */
  predicate Understood(c: Fcall, m: Request, dotu: bool) {
    match m
    case Tversion(msize, version) => Fids(c, NOFID, NOFID, NOFID) && c.content == Version(msize, version)
    case Tauth(afid, uname, aname, n) =>
      Fids(c, NOFID, afid, NOFID) && c.content == Login(uname, aname, if dotu then n else NOUID)
    case Tattach(fid, afid, uname, aname, n) =>
      Fids(c, fid, afid, NOFID) && c.content == Login(uname, aname, if dotu then n else 0)
    case Tflush(oldtag) => Fids(c, NOFID, NOFID, NOFID) && c.content == OldTag(oldtag)
    case Twalk(fid, newfid, names) => Fids(c, fid, NOFID, newfid) && c.content == Names(names)
    case Topen(fid, mode) => Fids(c, fid, NOFID, NOFID) && c.content == Mode(mode)
    case Tcreate(fid, name, perm, mode, ext) =>
      Fids(c, fid, NOFID, NOFID) && c.content == Creation(name, perm, mode, if dotu then ext else [])
    case Tread(fid, offset, count) => Fids(c, fid, NOFID, NOFID) && c.content == Range(offset, count)
    case Twrite(fid, offset, data) => Fids(c, fid, NOFID, NOFID) && |data| < WRAP32 && c.content == Range(offset, |data|)
    case Twstat(fid, dir) => Fids(c, fid, NOFID, NOFID) && c.content == Stat(Carried(dir, dotu))
    case _ => Fids(c, m.fid, NOFID, NOFID) && c.content == Nothing
  }

  predicate Fids(c: Fcall, fid: u32, afid: u32, newfid: u32) { c.fid == fid && c.afid == afid && c.newfid == newfid }

  /** The data of a write is left for the transfer that follows. */
  function Unread(m: Request): nat { if m.Twrite? then |m.data| else 0 }

  predicate Got(p: Parsed, fc: Fcall, o: nat, m: Request, dotu: bool) {
    && p.Parsed? && Understood(p.fcall, m, dotu)
    && p.fcall.size == fc.size && p.fcall.typ == fc.typ && p.fcall.tag == fc.tag
    && p.end == o + |RequestBody(m, dotu)| - Unread(m)
  }

  predicate Blank(fc: Fcall, m: Request) {
    fc.typ == RequestType(m) && Fids(fc, NOFID, NOFID, NOFID) && fc.content == Nothing
  }

  // ----- The body of each request

  lemma {:induction false} AtStrings(f: Bytes, o: nat, names: seq<Bytes>)
    requires At(f, o, StringsBytes(names)) && ShortNames(names)
    ensures StrsAt(f, o, |names|) == (names, o + |StringsBytes(names)|)
    decreases |names|
  {
    hide At, Str, StringBytes, StringsBytes, StrsAt, ShortNames;
    if names == [] {
      NoStrings(f, o);
    } else {
      var front, last := names[..|names| - 1], names[|names| - 1];
      LastString(names);
      AtSplit(f, o, StringsBytes(front), StringBytes(last));
      AtStrings(f, o, front);
      AtString(f, o + |StringsBytes(front)|, last);
      OneMoreString(f, o, front, last);
      assert names == front + [last] && |names| == |front| + 1;
    }
  }

  lemma LastString(names: seq<Bytes>)
    requires names != [] && ShortNames(names)
    ensures StringsBytes(names) == StringsBytes(names[..|names| - 1]) + StringBytes(names[|names| - 1])
    ensures ShortNames(names[..|names| - 1]) && |names[|names| - 1]| < WRAP16
  {
  }

  lemma NoStrings(f: Bytes, o: nat)
    ensures StringsBytes([]) == [] && StrsAt(f, o, 0) == ([], o)
  {
  }

  lemma OneMoreString(f: Bytes, o: nat, front: seq<Bytes>, last: Bytes)
    requires StrsAt(f, o, |front|).0 == front && Str(f, StrsAt(f, o, |front|).1).0 == last
    ensures StrsAt(f, o, |front| + 1) == (front + [last], Str(f, StrsAt(f, o, |front|).1).1)
  {
    hide Str;
  }

  lemma AtLogin(f: Bytes, o: nat, uname: Bytes, aname: Bytes, n: u32, dotu: bool, absent: u32)
    requires At(f, o, LoginBytes(uname, aname, n, dotu)) && |uname| < WRAP16 && |aname| < WRAP16
    ensures LoginAt(f, o, dotu, absent) ==
            (Login(uname, aname, if dotu then n else absent), o + |LoginBytes(uname, aname, n, dotu)|)
  {
    hide Str, StringBytes, U32, ToLE;
    var extra := if dotu then ToLE(n, 4) else [];
    AtSplit(f, o, StringBytes(uname), StringBytes(aname) + extra);
    AtSplit(f, o + 2 + |uname|, StringBytes(aname), extra);
    AtString(f, o, uname);
    AtString(f, o + 2 + |uname|, aname);
    if dotu { AtU32(f, o + 4 + |uname| + |aname|, n); }
  }

  lemma LoginRequests(fc: Fcall, f: Bytes, o: nat, m: Request, dotu: bool)
    requires At(f, o, RequestBody(m, dotu)) && RequestFits(m) && Blank(fc, m) && (m.Tauth? || m.Tattach?)
    ensures Got(RequestAt(fc, f, o, dotu), fc, o, m, dotu)
  {
    hide At, LoginAt, LoginBytes, U32, ToLE;
    var login := LoginBytes(m.uname, m.aname, m.unamenum, dotu);
    if m.Tauth? {
      AtSplit(f, o, ToLE(m.afid, 4), login);
      AtU32(f, o, m.afid);
      AtLogin(f, o + 4, m.uname, m.aname, m.unamenum, dotu, NOUID);
    } else {
      AtSplit(f, o, ToLE(m.fid, 4), ToLE(m.afid, 4) + login);
      AtSplit(f, o + 4, ToLE(m.afid, 4), login);
      AtU32(f, o, m.fid);
      AtU32(f, o + 4, m.afid);
      AtLogin(f, o + 8, m.uname, m.aname, m.unamenum, dotu, 0);
    }
  }

  lemma WalkRequest(fc: Fcall, f: Bytes, o: nat, m: Request, dotu: bool)
    requires At(f, o, RequestBody(m, dotu)) && RequestFits(m) && Blank(fc, m) && m.Twalk?
    ensures Got(RequestAt(fc, f, o, dotu), fc, o, m, dotu)
  {
    hide At, StrsAt, StringsBytes, U16, U32, ToLE, Low16, ShortNames;
    WalkFields(f, o, m.fid, m.newfid, m.names);
  }

  lemma WalkFields(f: Bytes, o: nat, fid: u32, newfid: u32, names: seq<Bytes>)
    requires At(f, o, ToLE(fid, 4) + (ToLE(newfid, 4) + (ToLE(Low16(|names|), 2) + StringsBytes(names))))
    requires |names| < WRAP16 && ShortNames(names)
    ensures U32(f, o) == fid && U32(f, o + 4) == newfid && U16(f, o + 8) == |names|
    ensures StrsAt(f, o + 10, |names|) == (names, o + 10 + |StringsBytes(names)|)
  {
    hide At, StrsAt, StringsBytes, U16, U32, ToLE, Low16, ShortNames;
    var count, b := ToLE(Low16(|names|), 2), StringsBytes(names);
    AtSplit(f, o, ToLE(fid, 4), ToLE(newfid, 4) + (count + b));
    AtSplit(f, o + 4, ToLE(newfid, 4), count + b);
    AtSplit(f, o + 8, count, b);
    AtU32(f, o, fid);
    AtU32(f, o + 4, newfid);
    LowOfCount(|names|);
    AtU16(f, o + 8, |names|);
    AtStrings(f, o + 10, names);
  }

  lemma LowOfCount(n: nat)
    requires n < WRAP16
    ensures Low16(n) == n
  {
  }

  lemma CreateRequest(fc: Fcall, f: Bytes, o: nat, m: Request, dotu: bool)
    requires At(f, o, RequestBody(m, dotu)) && RequestFits(m) && Blank(fc, m) && m.Tcreate?
    ensures Got(RequestAt(fc, f, o, dotu), fc, o, m, dotu)
  {
    hide At, Str, StringBytes, U8, U32, ToLE;
    CreateHead(f, o, m.fid, m.name, ToLE(m.perm, 4) + (ToLE(m.mode, 1) + if dotu then StringBytes(m.ext) else []));
    CreateTail(f, o + 6 + |m.name|, m.perm, m.mode, m.ext, dotu);
  }

  lemma CreateHead(f: Bytes, o: nat, fid: u32, name: Bytes, tail: Bytes)
    requires At(f, o, ToLE(fid, 4) + (StringBytes(name) + tail)) && |name| < WRAP16
    ensures U32(f, o) == fid && Str(f, o + 4) == (name, o + 6 + |name|) && At(f, o + 6 + |name|, tail)
  {
    hide At, Str, StringBytes, U32, ToLE;
    AtSplit(f, o, ToLE(fid, 4), StringBytes(name) + tail);
    AtSplit(f, o + 4, StringBytes(name), tail);
    AtU32(f, o, fid);
    AtString(f, o + 4, name);
  }

  lemma CreateTail(f: Bytes, p: nat, perm: u32, mode: u8, ext: Bytes, dotu: bool)
    requires At(f, p, ToLE(perm, 4) + (ToLE(mode, 1) + if dotu then StringBytes(ext) else [])) && |ext| < WRAP16
    ensures U32(f, p) == perm && U8(f, p + 4) == mode
    ensures dotu ==> Str(f, p + 5) == (ext, p + 7 + |ext|)
  {
    hide At, Str, StringBytes, U8, U32, ToLE;
    var b := if dotu then StringBytes(ext) else [];
    AtSplit(f, p, ToLE(perm, 4), ToLE(mode, 1) + b);
    AtSplit(f, p + 4, ToLE(mode, 1), b);
    AtU32(f, p, perm);
    AtU8(f, p + 4, mode);
    if dotu { AtString(f, p + 5, ext); }
  }

  lemma RangeRequests(fc: Fcall, f: Bytes, o: nat, m: Request, dotu: bool)
    requires At(f, o, RequestBody(m, dotu)) && RequestFits(m) && Blank(fc, m) && (m.Tread? || m.Twrite?)
    ensures Got(RequestAt(fc, f, o, dotu), fc, o, m, dotu)
  {
    hide At, U32, U64, ToLE;
    var count := if m.Tread? then m.count else |m.data|;
    var tail := if m.Tread? then ToLE(count, 4) else ToLE(count, 4) + m.data;
    AtSplit(f, o, ToLE(m.fid, 4), ToLE(m.offset, 8) + tail);
    AtSplit(f, o + 4, ToLE(m.offset, 8), tail);
    if m.Twrite? { AtSplit(f, o + 12, ToLE(count, 4), m.data); }
    AtU32(f, o, m.fid);
    AtU64(f, o + 4, m.offset);
    AtU32(f, o + 12, count);
  }

  lemma StatRequest(fc: Fcall, f: Bytes, o: nat, m: Request, dotu: bool)
    requires At(f, o, RequestBody(m, dotu)) && RequestFits(m) && Blank(fc, m) && m.Twstat?
    ensures Got(RequestAt(fc, f, o, dotu), fc, o, m, dotu)
  {
    hide At, StatAt, StatBytes, StatSize, Carried, U32, ToLE, Low16, NamesFit;
    AtSplit(f, o, ToLE(m.fid, 4), ToLE(Low16(StatSize(m.dir, dotu)), 2) + StatBytes(m.dir, dotu));
    AtU32(f, o, m.fid);
    AtStatBody(f, o + 4, m.dir, dotu);
  }

  lemma ShortRequests(fc: Fcall, f: Bytes, o: nat, m: Request, dotu: bool)
    requires At(f, o, RequestBody(m, dotu)) && Blank(fc, m)
    requires m.Tflush? || m.Topen? || m.Tclunk? || m.Tremove? || m.Tstat?
    ensures Got(RequestAt(fc, f, o, dotu), fc, o, m, dotu)
  {
    hide At, U8, U16, U32, ToLE;
    if m.Tflush? {
      AtU16(f, o, m.oldtag);
    } else {
      if m.Topen? {
        AtSplit(f, o, ToLE(m.fid, 4), ToLE(m.mode, 1));
        AtU8(f, o + 4, m.mode);
      }
      AtU32(f, o, m.fid);
    }
  }

  lemma RequestBodyParses(fc: Fcall, f: Bytes, o: nat, m: Request, dotu: bool)
    requires At(f, o, RequestBody(m, dotu)) && RequestFits(m) && Blank(fc, m)
    ensures Got(ContentAt(fc, f, o, dotu), fc, o, m, dotu)
  {
    hide At, RequestAt, ReplyAt, RequestFits, RequestBody, Understood;
    if m.Tauth? || m.Tattach? { LoginRequests(fc, f, o, m, dotu); }
    else if m.Tversion? { VersionRequest(fc, f, o, m, dotu); }
    else if m.Twalk? { WalkRequest(fc, f, o, m, dotu); }
    else if m.Tcreate? { CreateRequest(fc, f, o, m, dotu); }
    else if m.Tread? || m.Twrite? { RangeRequests(fc, f, o, m, dotu); }
    else if m.Twstat? { StatRequest(fc, f, o, m, dotu); }
    else { ShortRequests(fc, f, o, m, dotu); }
  }

  lemma VersionRequest(fc: Fcall, f: Bytes, o: nat, m: Request, dotu: bool)
    requires At(f, o, RequestBody(m, dotu)) && RequestFits(m) && Blank(fc, m) && m.Tversion?
    ensures Got(RequestAt(fc, f, o, dotu), fc, o, m, dotu)
  {
    hide At, VersionAt, StringBytes, ToLE;
    VersionReply(fc, f, o, m.msize, m.version);
  }

  // ----- The whole message

  /** No table entry stops a request, in either dialect. */
  lemma RequestAdmitted(m: Request, dotu: bool)
    ensures HEADER + |RequestBody(m, dotu)| >= MinSize(RequestType(m), dotu)
  {
    hide StringBytes, StringsBytes, StatBytes, ToLE;
  }

  /** Every request laid out as the protocol says is parsed to exactly its fields, and
      parsing ends where the request ends, or where the data of a write begin. */
  lemma RequestParses(f: Bytes, o: nat, m: Request, tag: u16, dotu: bool)
    requires At(f, o, RequestBytes(m, tag, dotu)) && RequestFits(m) && HEADER + |RequestBody(m, dotu)| < WRAP32
    ensures var p := Parse(f, o, dotu);
            && p.Parsed? && Understood(p.fcall, m, dotu) && p.fcall.typ == RequestType(m) && p.fcall.tag == tag
            && p.fcall.size == |RequestBytes(m, tag, dotu)| && p.end == o + p.fcall.size - Unread(m)
  {
    hide U8, U16, U32, ContentAt, Understood, RequestBody, HeaderBytes, Parse, MinSize, RequestFits;
    var body := RequestBody(m, dotu);
    var size := HEADER + |body|;
    AtSplit(f, o, HeaderBytes(size, RequestType(m), tag), body);
    AtHeader(f, o, size, RequestType(m), tag);
    RequestBodyParses(Fcall(size, RequestType(m), tag, NOFID, NOFID, NOFID, Nothing), f, o + HEADER, m, dotu);
    ParseReduces(f, o, size, RequestType(m), tag, dotu);
    RequestAdmitted(m, dotu);
  }

  // ----- Types

  /** The request that a reply answers, by name; an error answers any. */
  predicate Answers(r: Reply, m: Request) {
    match r
    case Rversion(_, _) => m.Tversion?
    case Rauth(_) => m.Tauth?
    case Rattach(_) => m.Tattach?
    case Rerror(_, _) => true
    case Rflush => m.Tflush?
    case Rwalk(_) => m.Twalk?
    case Ropen(_, _) => m.Topen?
    case Rcreate(_, _) => m.Tcreate?
    case Rread(_) => m.Tread?
    case Rwrite(_) => m.Twrite?
    case Rclunk => m.Tclunk?
    case Rremove => m.Tremove?
    case Rstat(_) => m.Tstat?
    case Rwstat => m.Twstat?
  }

  /** The type of a message on the wire, in its fifth byte. */
  function TypeOnWire(b: Bytes): u8 { if |b| > 4 then b[4] else 0 }

  /** On the wire a reply has the type of the request it answers plus one, and an error 107. */
  lemma ReplyTypes(r: Reply, m: Request, tag: u16, dotu: bool)
    requires Answers(r, m)
    ensures TypeOnWire(ReplyBytes(r, tag, dotu)) ==
            if r.Rerror? then 107 else TypeOnWire(RequestBytes(m, tag, dotu)) + 1
  {
    hide Body, BodySize, RequestBody;
    TypeIsFifth(r, tag, dotu);
    OneByte(RequestType(m));
  }

  /** No two kinds of reply have the same type. */
  lemma ReplyTypesDiffer(r: Reply, s: Reply, m: Request, tag: u16, dotu: bool)
    requires Answers(r, m) && TypeOnWire(ReplyBytes(r, tag, dotu)) == TypeOnWire(ReplyBytes(s, tag, dotu))
    ensures r.Rerror? <==> s.Rerror?
    ensures Answers(s, m)
  {
    hide ReplyBytes;
    TypeIsFifth(r, tag, dotu);
    TypeIsFifth(s, tag, dotu);
  }

  /** The numbers of the requests. */
  lemma RequestTypes(m: Request, tag: u16, dotu: bool)
    ensures TypeOnWire(RequestBytes(m, tag, dotu)) == 100 + 2 * (
              if m.Tversion? then 0 else if m.Tauth? then 1 else if m.Tattach? then 2 else if m.Tflush? then 4
              else if m.Twalk? then 5 else if m.Topen? then 6 else if m.Tcreate? then 7 else if m.Tread? then 8
              else if m.Twrite? then 9 else if m.Tclunk? then 10 else if m.Tremove? then 11 else if m.Tstat? then 12
              else 13)
  {
    hide RequestBody;
    OneByte(RequestType(m));
  }

  // ----- What is refused

  /** A message of which less has arrived than its header announces, even if the header
      itself is cut, is refused. */
  lemma TruncatedIsRefused(f: Bytes, o: nat, size: u32, typ: u8, tag: u16, dotu: bool)
    requires HEADER <= size && o <= |f| && |f| - o < size
    requires |f| - o >= HEADER ==> At(f, o, HeaderBytes(size, typ, tag))
    ensures Parse(f, o, dotu) == Bad(BufferInsufficient)
  {
    hide ContentAt, MinSize, HeaderBytes, U8, U16, U32, At;
    if |f| - o >= HEADER { AtHeader(f, o, size, typ, tag); }
  }

  /** So no proper prefix of a request is taken for a message. */
  lemma RequestPrefixIsRefused(m: Request, tag: u16, dotu: bool, n: nat)
    requires n < |RequestBytes(m, tag, dotu)| < WRAP32
    ensures Parse(RequestBytes(m, tag, dotu)[..n], 0, dotu) == Bad(BufferInsufficient)
  {
    hide Parse, RequestBody, HeaderBytes;
    var b, body := RequestBytes(m, tag, dotu), RequestBody(m, dotu);
    var size := HEADER + |body|;
    var f := b[..n];
    if n >= HEADER { assert f[0..HEADER] == HeaderBytes(size, RequestType(m), tag); }
    TruncatedIsRefused(f, 0, size, RequestType(m), tag, dotu);
  }

  /** A message is refused exactly when it is shorter than a header, its announced size
      is less than that or more than has arrived or below the minimum of its type, or its
      type is none that exists; types are looked at before minimum sizes. */
  lemma RefusedExactly(f: Bytes, o: nat, dotu: bool)
    requires o <= |f|
    ensures var size, typ, left := NumberAt(f, o, 4), NumberAt(f, o + 4, 1), |f| - o;
            var bare, unknown := left < 7 || size < 7 || size > left, typ < 100 || typ > 127;
            && (Parse(f, o, dotu) == Bad(BufferInsufficient) <==> bare || (!unknown && size < MinSize(typ, dotu)))
            && (Parse(f, o, dotu) == Bad(InvalidMessage) <==> !bare && (unknown || typ == 106))
  {
    hide MinSize, U8, U16, U32, NumberAt, ContentAt;
    NumbersAre(f, o);
    NoMinimumForErrors(dotu);
    var size, typ, tag := U32(f, o), U8(f, o + 4), U16(f, o + 5);
    if 100 <= typ <= 127 {
      ContentRefused(Fcall(size, typ, tag, NOFID, NOFID, NOFID, Nothing), f, o + HEADER, dotu);
    }
  }

  /** Of the types there are only the error request, which nobody sends, is unknown. */
  lemma ContentRefused(fc: Fcall, f: Bytes, o: nat, dotu: bool)
    requires 100 <= fc.typ <= 127
    ensures var p := ContentAt(fc, f, o, dotu);
            (p.Bad? <==> fc.typ == 106) && (p.Bad? ==> p == Bad(InvalidMessage))
  {
    hide U8, U16, U32, U64, Str, StrsAt, StatAt, LoginAt, QidAt, QidsAt;
  }

  lemma NumbersAre(f: Bytes, o: nat)
    ensures U32(f, o) == NumberAt(f, o, 4) && U8(f, o + 4) == NumberAt(f, o + 4, 1)
  {
  }

  lemma NoMinimumForErrors(dotu: bool)
    ensures MinSize(106, dotu) == 0
  {
  }

  /** A request that carries nothing of variable length. */
  predicate IsBare(m: Request) {
    match m
    case Tversion(_, version) => version == []
    case Tauth(_, uname, aname, _) => uname == [] && aname == []
    case Tattach(_, _, uname, aname, _) => uname == [] && aname == []
    case Twalk(_, _, names) => names == []
    case Tcreate(_, name, _, _, ext) => name == [] && ext == []
    case Twrite(_, _, data) => data == []
    case _ => true
  }

  /** The minimum size of a request is the length of the shortest body of its kind in the
      other dialect, without the header that the announced size counts; only for a change
      of fields it is less. */
  lemma MinimumOfRequest(m: Request, dotu: bool)
    requires IsBare(m)
    ensures if m.Twstat? then MinSize(126, dotu) == 8
            else MinSize(RequestType(m), !dotu) == |RequestBody(m, dotu)|
  {
    hide StringBytes, QidBytes, StatBytes, ToLE;
  }

  predicate IsBareReply(r: Reply) {
    match r
    case Rversion(_, version) => version == []
    case Rerror(error, _) => error == []
    case Rwalk(qids) => qids == []
    case _ => true
  }

  /** So it is for the replies, with the entry that is missing for one of them. */
  lemma MinimumOfReply(r: Reply, dotu: bool)
    requires IsBareReply(r)
    ensures if r.Rstat? then MinSize(125, dotu) == 4
            else MinSize(TypeOf(r), !dotu) == if r.Rwstat? && dotu then 20 else |Body(r, dotu)|
  {
    hide StringBytes, QidBytes, StatBytes, ToLE;
  }
}
