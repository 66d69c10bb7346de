/**
 Reading a directory page by page.

 A read at offset zero captures the listing; each later read must continue at the
 offset reached.  Every reply carries whole stat entries only.
 */
module DirectoryPaging {
  import opened Words
  import opened ByteStrings
  import opened Plan9Wire
  import opened Plan9RoundTrip
  import opened Plan9Codec

  datatype Listing = None | Some(entries: seq<Dir>)

  datatype Outcome = BadOffset | HostError | NoRoom | Sent(entries: nat, bytes: u32)

  function EntriesBytes(ds: seq<Dir>, dotu: bool): Bytes {
    if ds == [] then [] else EntriesBytes(ds[..|ds| - 1], dotu) + StatBytes(ds[|ds| - 1], dotu)
  }

  function Rest(l: Listing): seq<Dir> { if l.None? then [] else l.entries }

  /** How many leading entries one reply takes: one more as long as the sum stays
      below the count and inside the buffer. */
  predicate Taken(ds: seq<Dir>, dotu: bool, count: nat, room: int, n: nat) {
    && n <= |ds| && (n > 0 ==> |EntriesBytes(ds[..n], dotu)| < count)
    && 11 + |EntriesBytes(ds[..n], dotu)| <= room
    && (n < |ds| ==> |EntriesBytes(ds[..n + 1], dotu)| >= count || 11 + |EntriesBytes(ds[..n + 1], dotu)| > room)
  }

  /** The directory part of a fid. */
  class DirectoryFid {
    var diroffset: u64
    var direntries: Listing
    ghost var listing: seq<Dir>      // as captured by the last read at offset zero
    ghost var returned: seq<Dir>     // sent to the client since then
    ghost var sent: Bytes            // as bytes, each page in the dialect of its day

    /** Nothing lost, repeated or split, and the offset counts the bytes sent. */
    ghost predicate Valid()
      reads this
    {
      returned + Rest(direntries) == listing && diroffset == |sent| % WRAP64
    }

    constructor ()
      ensures Valid() && listing == [] && returned == [] && sent == []
    {
      diroffset, direntries, listing, returned, sent := 0, None, [], [], [];
    }

    /** Entries to send from; at offset zero `children` is what the host answered. */
    method ReadDir(offset: u64, children: Listing) returns (ok: bool, entries: seq<Dir>, bad: Outcome)
      requires Valid()
      modifies this
      ensures Valid()
      ensures offset != 0 ==> listing == old(listing) && returned == old(returned) && direntries == old(direntries)
      ensures sent == if offset == 0 then [] else old(sent)
      ensures offset != 0 ==> (ok <==> offset == old(diroffset)) && bad == BadOffset
      ensures offset == 0 ==> listing == Rest(children) && returned == [] && direntries == children
      ensures offset == 0 ==> (ok <==> children.Some?) && bad == HostError
      ensures ok ==> entries == Rest(direntries)
    {
      ok, entries, bad := false, [], if offset == 0 then HostError else BadOffset;
      if offset != 0 && offset != diroffset { return; }
      if offset == 0 {
        diroffset := 0;
        direntries := children;
        listing, returned, sent := Rest(children), [], [];
        if children.None? { return; }
      }
      ok, entries := true, Rest(direntries);
    }

    /** Account for `n` entries that went out in `bytes` bytes. */
    method ReadDirPost(bytes: u32, n: nat, ghost page: Bytes)
      requires Valid() && n <= |Rest(direntries)| && bytes == |page|
      modifies this
      ensures Valid() && listing == old(listing) && sent == old(sent) + page
      ensures returned == old(returned) + old(Rest(direntries))[..n]
      ensures Rest(direntries) == old(Rest(direntries))[n..]
    {
      ghost var rest := Rest(direntries);
      ModularSum(|sent|, bytes);
      assert rest == rest[..n] + rest[n..];
      returned, sent := returned + rest[..n], sent + page;
      diroffset := (diroffset + bytes) % WRAP64;
      direntries := if direntries.Some? && n < |direntries.entries| then Some(direntries.entries[n..]) else None;
    }

    /** One Tread on the directory, in the dialect that is agreed on at the time:
        capture or continue, pack a page of whole entries, account for them. */
    method Read(buf: FlatBuffer, tag: u16, offset: u64, count: u32, children: Listing, dotu: bool)
      returns (o: Outcome, ghost source: seq<Dir>)
      requires Valid()
      modifies this, buf`data, buf`writeOffset, buf`base, buf`out
      ensures Valid()
      ensures listing == if offset == 0 then Rest(children) else old(listing)
      ensures source == if offset == 0 then Rest(children) else old(Rest(direntries))
      ensures o == BadOffset <==> offset != 0 && offset != old(diroffset)
      ensures o == HostError <==> offset == 0 && children.None?
      ensures o == NoRoom ==> buf.bookmark + 11 > |buf.data|
      ensures o.Sent? ==> Page(buf.data, buf.bookmark, tag, source, dotu, count, o.entries, o.bytes)
      ensures returned == (if offset == 0 then [] else old(returned)) + SentEntries(o, source)
      ensures o.Sent? ==> Rest(direntries) == source[o.entries..]
      ensures sent == (if offset == 0 then [] else old(sent)) + SentBytes(o, source, dotu)
      ensures |buf.data| == old(|buf.data|)
    {
      hide EntriesBytes, SentEntries, SentBytes, Page;
      var ok, entries, bad := ReadDir(offset, children);
      source := if offset == 0 then Rest(children) else old(Rest(direntries));
      NothingSent(returned, sent, bad, source, dotu);
      NothingSent(returned, sent, NoRoom, source, dotu);
      if !ok { return bad, source; }
      var n, written;
      ok, n, written := PackPage(buf, tag, entries, count, dotu);
      if !ok { return NoRoom, source; }
      SomeSent(n, written, source, dotu);
      ReadDirPost(written, n, EntriesBytes(source[..n], dotu));
      return Sent(n, written), source;
    }
  }

  /** Pack an empty reply, then whole entries behind it, then the header again with
      their size.  Once the empty reply fitted, the final one does. */
  method PackPage(buf: FlatBuffer, tag: u16, entries: seq<Dir>, count: u32, dotu: bool)
    returns (ok: bool, n: nat, written: u32)
    modifies buf`data, buf`writeOffset, buf`base, buf`out
    ensures !ok ==> buf.bookmark + 11 > |buf.data|
    ensures ok ==> n <= |entries| && written == |EntriesBytes(entries[..n], dotu)|
    ensures ok ==> Page(buf.data, buf.bookmark, tag, entries, dotu, count, n, written)
    ensures |buf.data| == old(|buf.data|)
  {
    hide EntriesBytes, ReplyBytes, Splice, Replied, Taken, At, Page;
    n, written := 0, 0;
    ok := PackRread(buf, tag, 0);
    RefusedRead(old(buf.data), buf.Now(), 0, tag, ok);
    if !ok { return; }
    n, written := PackEntries(buf, tag, entries, count, dotu);
    ghost var packed := buf.data;
    EntriesRoom(entries, dotu, count, |buf.data| - buf.bookmark, n);
    ok := PackRread(buf, tag, written);
    RefusedRead(packed, buf.Now(), written, tag, ok);
    HeaderKeepsData(packed, buf.Now(), tag, written, EntriesBytes(entries[..n], dotu), ok);
    PageStands(buf.data, buf.bookmark, tag, entries, dotu, count, n, written);
  }

  /** The reply stands in the buffer: announced size, then that many bytes of whole
      entries, as many as the rule takes. */
  ghost predicate Page(data: Bytes, mark: nat, tag: u16, source: seq<Dir>, dotu: bool, count: u32, n: nat, bytes: u32) {
    && Taken(source, dotu, count, |data| - mark, n)
    && n <= |source| && bytes == |EntriesBytes(source[..n], dotu)|
    && At(data, mark, ReplyBytes(Rread(bytes), tag, false))
    && At(data, mark + 11, EntriesBytes(source[..n], dotu))
  }

  lemma PageStands(data: Bytes, mark: nat, tag: u16, source: seq<Dir>, dotu: bool, count: u32, n: nat, bytes: u32)
    requires Taken(source, dotu, count, |data| - mark, n) && n <= |source|
    requires bytes == |EntriesBytes(source[..n], dotu)| && At(data, mark, ReplyBytes(Rread(bytes), tag, false))
    requires At(data, mark + 11, EntriesBytes(source[..n], dotu))
    ensures Page(data, mark, tag, source, dotu, count, n, bytes)
  {
  }

  function SentEntries(o: Outcome, source: seq<Dir>): seq<Dir> {
    if o.Sent? && o.entries <= |source| then source[..o.entries] else []
  }

  function SentBytes(o: Outcome, source: seq<Dir>, dotu: bool): Bytes { EntriesBytes(SentEntries(o, source), dotu) }

  lemma NothingSent(before: seq<Dir>, sent: Bytes, o: Outcome, source: seq<Dir>, dotu: bool)
    ensures !o.Sent? ==> before + SentEntries(o, source) == before && sent + SentBytes(o, source, dotu) == sent
  {
  }

  lemma SomeSent(n: nat, bytes: u32, source: seq<Dir>, dotu: bool)
    requires n <= |source|
    ensures SentEntries(Sent(n, bytes), source) == source[..n]
    ensures SentBytes(Sent(n, bytes), source, dotu) == EntriesBytes(source[..n], dotu)
  {
  }

  /** A read header is refused only if it and the announced bytes do not fit. */
  lemma RefusedRead(before: Bytes, t: Moment, count: u32, tag: u16, ok: bool)
    requires Replied(before, t, Rread(count), tag, false, ok)
    ensures !ok ==> t.bookmark + 11 + count > |before|
    ensures |t.data| == |before|
    ensures ok ==> t.Logged() && t.out == ReplyBytes(Rread(count), tag, false)
  {
  }

  lemma EntriesRoom(ds: seq<Dir>, dotu: bool, count: nat, room: int, n: nat)
    requires Taken(ds, dotu, count, room, n)
    ensures n <= |ds| && 11 + |EntriesBytes(ds[..n], dotu)| <= room
  {
  }

  /** Announcing the size rewrites the header and leaves the entries in place. */
  lemma HeaderKeepsData(before: Bytes, t: Moment, tag: u16, written: u32, b: Bytes, ok: bool)
    requires Replied(before, t, Rread(written), tag, false, ok) && ok && At(before, t.bookmark + 11, b)
    ensures At(t.data, t.bookmark, ReplyBytes(Rread(written), tag, false)) && At(t.data, t.bookmark + 11, b)
  {
    var head := ReplyBytes(Rread(written), tag, false);
    ReplyLength(Rread(written), tag, false);
    SpliceInside(before, t.bookmark, head);
    assert t.data[t.bookmark + 11..t.bookmark + 11 + |b|] == before[t.bookmark + 11..t.bookmark + 11 + |b|];
  }

  /** An empty page, which a client takes for the end, is sent exactly when nothing is
      left or the next entry alone does not fit the count or the buffer. */
  lemma EmptyPage(ds: seq<Dir>, dotu: bool, count: nat, room: int, n: nat)
    requires Taken(ds, dotu, count, room, n)
    ensures |EntriesBytes(ds[..n], dotu)| == 0 <==>
              ds == [] || StatSize(ds[0], dotu) >= count || 11 + StatSize(ds[0], dotu) > room
  {
    hide EntriesBytes, StatBytes, StatSize;
    if ds == [] {
      NoEntriesNoBytes(ds, n, dotu);
    } else {
      FirstEntry(ds, dotu);
      if n == 0 {
        NoEntriesNoBytes(ds, 0, dotu);
      } else {
        EntriesConcat(ds[..1], ds[1..n], dotu);
        assert ds[..n] == ds[..1] + ds[1..n];
      }
    }
  }

  lemma FirstEntry(ds: seq<Dir>, dotu: bool)
    requires ds != []
    ensures |EntriesBytes(ds[..1], dotu)| == StatSize(ds[0], dotu) > 0
  {
    OneMoreEntry(ds, 0, dotu);
    assert ds[..0] == [];
  }

  lemma ModularSum(a: nat, b: nat)
    ensures (a % WRAP64 + b) % WRAP64 == (a + b) % WRAP64
  {
  }

  lemma {:induction false} EntriesConcat(a: seq<Dir>, b: seq<Dir>, dotu: bool)
    ensures EntriesBytes(a + b, dotu) == EntriesBytes(a, dotu) + EntriesBytes(b, dotu)
  {
    if b == [] {
      assert a + b == a;
      assert EntriesBytes(a, dotu) + [] == EntriesBytes(a, dotu);
    } else {
      var rest, last := b[..|b| - 1], b[|b| - 1];
      EntriesConcat(a, rest, dotu);
      assert (a + b)[..|a + b| - 1] == a + rest && (a + b)[|a + b| - 1] == last;
      Chain(EntriesBytes(a, dotu), EntriesBytes(rest, dotu), StatBytes(last, dotu));
    }
  }

  lemma OneMoreEntry(ds: seq<Dir>, n: nat, dotu: bool)
    requires n < |ds|
    ensures EntriesBytes(ds[..n + 1], dotu) == EntriesBytes(ds[..n], dotu) + StatBytes(ds[n], dotu)
  {
    assert ds[..n + 1][..n] == ds[..n];
  }

  /** The buffer holds the read header and `n` entries, and the log says so. */
  ghost predicate Holding(t: Moment, tag: u16, ds: seq<Dir>, n: nat, dotu: bool) {
    n <= |ds| && t.Logged() && t.out == ReplyBytes(Rread(0), tag, false) + EntriesBytes(ds[..n], dotu)
  }

  lemma HoldingNone(t: Moment, tag: u16, ds: seq<Dir>, dotu: bool)
    requires t.Logged() && t.out == ReplyBytes(Rread(0), tag, false)
    ensures Holding(t, tag, ds, 0, dotu) && |EntriesBytes(ds[..0], dotu)| == 0
  {
    assert ds[..0] == [];
    assert t.out + [] == t.out;
  }

  /** One more entry: either it fits and the log grows, or the room is too small. */
  lemma HoldingMore(s: Moment, t: Moment, tag: u16, ds: seq<Dir>, n: nat, dotu: bool)
    requires Holding(s, tag, ds, n, dotu) && n < |ds| && Extended(s, t, StatBytes(ds[n], dotu))
    ensures |EntriesBytes(ds[..n + 1], dotu)| == |EntriesBytes(ds[..n], dotu)| + StatSize(ds[n], dotu)
    ensures t.writeOffset == t.bookmark + 11 + |EntriesBytes(ds[..n + 1], dotu)| && t.bookmark == s.bookmark
    ensures t.writeOffset <= |t.data| ==> Holding(t, tag, ds, n + 1, dotu)
    ensures At(t.data, t.bookmark + 11, EntriesBytes(ds[..n], dotu)) && |t.data| == |s.data|
    ensures t.bookmark + 11 + |EntriesBytes(ds[..n], dotu)| <= |t.data|
  {
    hide ReplyBytes, StatBytes, EntriesBytes, Splice;
    ReplyLength(Rread(0), tag, false);
    ReadBody(Rread(0), false);
    OneMoreEntry(ds, n, dotu);
    Chain(ReplyBytes(Rread(0), tag, false), EntriesBytes(ds[..n], dotu), StatBytes(ds[n], dotu));
    EntriesStand(s, ReplyBytes(Rread(0), tag, false), EntriesBytes(ds[..n], dotu), t.data);
  }

  lemma HoldingStands(t: Moment, tag: u16, ds: seq<Dir>, n: nat, dotu: bool)
    requires Holding(t, tag, ds, n, dotu)
    ensures At(t.data, t.bookmark + 11, EntriesBytes(ds[..n], dotu))
    ensures t.bookmark + 11 + |EntriesBytes(ds[..n], dotu)| <= |t.data|
  {
    hide ReplyBytes, EntriesBytes, Splice;
    ReplyLength(Rread(0), tag, false);
    ReadBody(Rread(0), false);
    EntriesStand(t, ReplyBytes(Rread(0), tag, false), EntriesBytes(ds[..n], dotu), t.data);
  }

  /** Pack entries after the read header until the next would not fit.  The last one
      tried may leave bytes behind the ones that count. */
  method PackEntries(buf: FlatBuffer, tag: u16, entries: seq<Dir>, count: u32, dotu: bool)
    returns (n: nat, written: u32)
    requires buf.Now().Logged() && buf.out == ReplyBytes(Rread(0), tag, false)
    modifies buf`data, buf`writeOffset, buf`out
    ensures |buf.data| == old(|buf.data|)
    ensures Taken(entries, dotu, count, |buf.data| - buf.bookmark, n)
    ensures written == |EntriesBytes(entries[..n], dotu)|
    ensures At(buf.data, buf.bookmark + 11, EntriesBytes(entries[..n], dotu))
  {
    hide Holding, EntriesBytes, StatBytes, ReplyBytes, Splice, Extended, At, StatSize;
    n, written := 0, 0;
    HoldingNone(buf.Now(), tag, entries, dotu);
    while n < |entries|
      invariant n <= |entries| && |buf.data| == old(|buf.data|)
      invariant written == |EntriesBytes(entries[..n], dotu)| && (n > 0 ==> written < count)
      invariant Holding(buf.Now(), tag, entries, n, dotu)
    {
      ghost var s := buf.Now();
      var packed := Pstat(buf, entries[n], dotu);
      HoldingMore(s, buf.Now(), tag, entries, n, dotu);
      if buf.WriteLeft() >= 0 && written + packed < count {
        n, written := n + 1, written + packed;
      } else {
        return;
      }
    }
    HoldingStands(buf.Now(), tag, entries, n, dotu);
  }

  /** What the log says is in the buffer, also after bytes behind it changed. */
  lemma EntriesStand(s: Moment, head: Bytes, b: Bytes, data: Bytes)
    requires s.Logged() && s.out == head + b && |head| == 11 && SameUpTo(s.data, data, s.writeOffset)
    ensures At(data, s.bookmark + 11, b)
  {
    SpliceInside(s.base, s.bookmark, s.out);
    assert s.data[s.bookmark..s.writeOffset] == head + b;
    assert data[s.bookmark..s.writeOffset] == head + b;
    AtSplit(data, s.bookmark, head, b);
  }

  // ----- A client

  /** The client's view between two reads: what it has, what the last page was, and
      what is left, all cut from the same listing. */
  ghost predicate Between(all: seq<Dir>, dotu: bool, got: seq<Dir>, source: seq<Dir>, rest: seq<Dir>, o: Outcome) {
    && o.Sent? && o.entries <= |source| && rest == source[o.entries..]
    && got + rest == all && |source| <= |all| && source == all[|all| - |source|..]
    && o.bytes == |EntriesBytes(source[..o.entries], dotu)|
  }

  lemma BetweenAfter(all: seq<Dir>, dotu: bool, had: seq<Dir>, source: seq<Dir>, o: Outcome)
    requires o.Sent? && o.entries <= |source| && had + source == all
    requires o.bytes == |EntriesBytes(source[..o.entries], dotu)|
    ensures Between(all, dotu, had + source[..o.entries], source, source[o.entries..], o)
  {
    hide EntriesBytes;
    assert source[..o.entries] + source[o.entries..] == source;
    assert had + source[..o.entries] + source[o.entries..] == had + (source[..o.entries] + source[o.entries..]);
  }

  /** 9P2000.u entries are the longer ones. */
  lemma {:induction false} PlainIsShorter(ds: seq<Dir>, dotu: bool)
    ensures |EntriesBytes(ds, dotu)| <= |EntriesBytes(ds, true)|
  {
    if ds != [] { PlainIsShorter(ds[..|ds| - 1], dotu); }
  }

  /** One more page, in either dialect, keeps the bytes sent below those of 9P2000.u. */
  lemma BoundGrows(sent: Bytes, got: seq<Dir>, page: seq<Dir>, dotu: bool)
    requires |sent| <= |EntriesBytes(got, true)|
    ensures |sent + EntriesBytes(page, dotu)| <= |EntriesBytes(got + page, true)|
  {
    hide EntriesBytes;
    EntriesConcat(got, page, true);
    PlainIsShorter(page, dotu);
  }

  /** The offset after a non-empty page is not mistaken for a fresh start. */
  lemma OffsetMoves(sent: Bytes, got: seq<Dir>, rest: seq<Dir>)
    requires 0 < |sent| <= |EntriesBytes(got, true)| && |EntriesBytes(got + rest, true)| < WRAP64
    ensures |sent| % WRAP64 != 0
  {
    hide EntriesBytes;
    EntriesConcat(got, rest, true);
    SmallMod(|sent|);
  }

  lemma SmallMod(x: nat)
    requires 0 < x < WRAP64
    ensures x % WRAP64 != 0
  {
  }

  lemma PageFacts(data: Bytes, mark: nat, tag: u16, source: seq<Dir>, dotu: bool, count: u32, n: nat, bytes: u32)
    requires Page(data, mark, tag, source, dotu, count, n, bytes)
    ensures Taken(source, dotu, count, |data| - mark, n) && n <= |source| && bytes == |EntriesBytes(source[..n], dotu)|
  {
  }

  /** After an empty page nothing is left, if every entry alone fits. */
  lemma EmptyMeansDone(all: seq<Dir>, dotu: bool, got: seq<Dir>, source: seq<Dir>, rest: seq<Dir>, o: Outcome, count: u32, room: int)
    requires Between(all, dotu, got, source, rest, o) && o.bytes == 0 && Taken(source, dotu, count, room, o.entries)
    requires forall d | d in all :: StatSize(d, true) < count && 11 + StatSize(d, true) <= room
    ensures got == all
  {
    hide Taken, EntriesBytes;
    if source != [] {
      assert source[0] in all && StatSize(source[0], dotu) <= StatSize(source[0], true);
    }
    EmptyPage(source, dotu, count, room, o.entries);
    assert source == [] && rest == [];
  }

  /** A client that reads at zero and then wherever the offset stands until a page is
      empty has received the whole listing, provided each entry alone fits a page, even
      if the dialect changes from page to page. */
  method FetchAll(fid: DirectoryFid, buf: FlatBuffer, tag: u16, count: u32, children: seq<Dir>) returns (got: seq<Dir>)
    requires fid.Valid() && |EntriesBytes(children, true)| < WRAP64 && buf.bookmark + 11 <= |buf.data|
    requires forall d | d in children :: StatSize(d, true) < count && 11 + StatSize(d, true) <= |buf.data| - buf.bookmark
    modifies fid, buf`data, buf`writeOffset, buf`base, buf`out
    ensures fid.Valid() && got == children
  {
    hide EntriesBytes, Taken, Page, StatSize, Between, SentEntries, SentBytes;
    ghost var room := |buf.data| - buf.bookmark;
    var o, dotu;
    ghost var source;
    o, source, got, dotu := FirstPage(fid, buf, tag, count, children, room);
    while o.bytes > 0
      invariant fid.Valid() && fid.listing == children && |buf.data| == old(|buf.data|)
      invariant Progress(fid, dotu, got, source, o, count, room)
      decreases |children| - |got| + if o.bytes > 0 then 1 else 0
    {
      ProgressFacts(fid, dotu, got, source, o, count, room);
      OffsetMoves(fid.sent, got, Rest(fid.direntries));
      o, source, got, dotu := NextPage(fid, buf, tag, count, got, room);
    }
    ProgressFacts(fid, dotu, got, source, o, count, room);
    EmptyMeansDone(children, dotu, got, source, Rest(fid.direntries), o, count, room);
  }

  /** Between two reads: `o` is the last page, sent in dialect `dotu` from `source`. */
  ghost predicate Progress(fid: DirectoryFid, dotu: bool, got: seq<Dir>, source: seq<Dir>, o: Outcome, count: u32, room: int)
    reads fid
  {
    && fid.returned == got && o.Sent? && Between(fid.listing, dotu, got, source, Rest(fid.direntries), o)
    && Taken(source, dotu, count, room, o.entries)
    && |fid.sent| <= |EntriesBytes(got, true)| && (o.bytes > 0 ==> |fid.sent| > 0)
  }

  lemma ProgressFacts(fid: DirectoryFid, dotu: bool, got: seq<Dir>, source: seq<Dir>, o: Outcome, count: u32, room: int)
    requires Progress(fid, dotu, got, source, o, count, room)
    ensures fid.returned == got && got + Rest(fid.direntries) == fid.listing && |got| <= |fid.listing|
  {
    hide EntriesBytes, Taken;
  }

  method FirstPage(fid: DirectoryFid, buf: FlatBuffer, tag: u16, count: u32, children: seq<Dir>, ghost room: int)
    returns (o: Outcome, ghost source: seq<Dir>, got: seq<Dir>, dotu: bool)
    requires fid.Valid() && buf.bookmark + 11 <= |buf.data| && room == |buf.data| - buf.bookmark
    modifies fid, buf`data, buf`writeOffset, buf`base, buf`out
    ensures fid.Valid() && fid.listing == children && |buf.data| == old(|buf.data|)
    ensures Progress(fid, dotu, got, source, o, count, room)
  {
    hide EntriesBytes, Taken, Page, SentEntries, SentBytes, Between;
    dotu := *;
    o, source := fid.Read(buf, tag, 0, count, Some(children), dotu);
    PageFacts(buf.data, buf.bookmark, tag, source, dotu, count, o.entries, o.bytes);
    BetweenAfter(children, dotu, [], source, o);
    SomeSent(o.entries, o.bytes, source, dotu);
    NoEntriesNoBytes(source, 0, true);
    BoundGrows([], [], source[..o.entries], dotu);
    got := children[..o.entries];
    assert [] + source[..o.entries] == got && [] + source == children;
  }

  method NextPage(fid: DirectoryFid, buf: FlatBuffer, tag: u16, count: u32, got: seq<Dir>, ghost room: int)
    returns (o: Outcome, ghost source: seq<Dir>, got': seq<Dir>, dotu: bool)
    requires fid.Valid() && fid.returned == got && fid.diroffset != 0 && |fid.sent| <= |EntriesBytes(got, true)|
    requires buf.bookmark + 11 <= |buf.data| && room == |buf.data| - buf.bookmark
    modifies fid, buf`data, buf`writeOffset, buf`base, buf`out
    ensures fid.Valid() && fid.listing == old(fid.listing) && |buf.data| == old(|buf.data|)
    ensures Progress(fid, dotu, got', source, o, count, room)
    ensures |got| <= |got'| <= |fid.listing| && (o.bytes > 0 ==> |got| < |got'|)
  {
    hide EntriesBytes, Taken, Page, SentEntries, SentBytes, Between;
    var rest := Rest(fid.direntries);
    dotu := *;
    o, source := fid.Read(buf, tag, fid.diroffset, count, None, dotu);
    PageFacts(buf.data, buf.bookmark, tag, source, dotu, count, o.entries, o.bytes);
    BetweenAfter(fid.listing, dotu, got, rest, o);
    SomeSent(o.entries, o.bytes, rest, dotu);
    BoundGrows(old(fid.sent), got, rest[..o.entries], dotu);
    got' := got + rest[..o.entries];
    NoEntriesNoBytes(rest, o.entries, dotu);
  }

  lemma NoEntriesNoBytes(ds: seq<Dir>, n: nat, dotu: bool)
    requires n <= |ds|
    ensures n == 0 ==> |EntriesBytes(ds[..n], dotu)| == 0 && |EntriesBytes([], dotu)| == 0
  {
  }
}
