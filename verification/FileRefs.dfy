/**
 Reference counts of the 9P server.

 The pool maps a fid number to a fid, which counts its users and points at a file;
 every file counts the fids that point at it.  File objects are named by numbers, and
 the tables below hold the fields that take part in the counting.  What the host file
 system answers is a parameter.
 */
module FileRefs {

  type Path = seq<string>      // [] is the root directory
  type FileId = nat

  const NOTAG := 0xFFFF
  const NOFID := 0xFFFF_FFFF

  datatype Fid = Fid(num: nat, refs: int, path: Path, file: FileId, isOpen: bool)

  datatype Found = Missing | Got(file: FileId)

  /** The requests that touch a count, with what the counting depends on. */
  datatype Request =
    | Tattach(fid: nat, afid: nat)
    | Twalk(fid: nat, newfid: nat, names: seq<seq<string>>)
    | Topen(fid: nat)
    | Tcreate(fid: nat, name: seq<string>)
    | Tread(fid: nat, children: seq<string>)     // names found in the backing directories
    | Twrite(fid: nat)
    | Tclunk(fid: nat) | Tremove(fid: nat)
    | Tother(fid: nat)                           // stat, wstat without rename
    | Tplain                                     // version, auth, flush

  /** What the host answers while a request is served.  Step `i` is the i-th name of a walk
      or child of a directory, or, for a creation, the path of `i` names. */
  datatype Host = Host(
    found: nat -> bool,      // the stat of a file that is not listed yet succeeds
    present: nat -> bool,    // a layer has the file; for a creation, the write layer
    cleared: nat -> bool,    // what a removal left behind could be taken away
    done: nat -> bool,       // the host call that makes the file or reads its fields succeeds
    allowed: bool,           // the kind and mode of the file admit the request
    fits: bool)              // the reply fits the buffer

  /** The host finds every file on a way of `n` names, and every one exists. */
  predicate AllThere(host: Host, n: nat) { forall i | 0 <= i < n :: host.found(i) && host.present(i) }

  /** Of `n` files, the fields of every one that exists can be read. */
  predicate AllRead(host: Host, n: nat) { forall i | 0 <= i < n :: host.present(i) ==> host.done(i) }

  /** A file of a path of `n` names is made: it is missing, nothing is left in its place, and
      the host makes it. */
  predicate Makes(host: Host, n: nat) { !host.present(n) && host.cleared(n) && host.done(n) }

  predicate Creates(host: Host, n: nat) { host.allowed && Makes(host, n) && host.fits }

  /** A request that names no fid where one is needed brings the server down, and so
      does a removal whose parent directory cannot be found: it unlocks twice.  A request
      that is led back to a file whose lock it holds waits for ever. */
  datatype Outcome = Answered | Crashed | Hung

  /** The request works on a fid and names none. */
  predicate NeedsFid(m: Request) {
    !m.Tplain? && !m.Tattach? && !m.Tread? && !m.Twrite? && m.fid == NOFID
  }

  /** One segment of a name applied to a clean path. */
  function Step(p: Path, seg: string): Path {
    if seg == "" || seg == "." then p
    else if seg == ".." then (if p == [] then [] else p[..|p| - 1])
    else p + [seg]
  }

  /** A name, split at its slashes, joined to a path and cleaned. */
  function Join(p: Path, name: seq<string>): Path
    decreases |name|
  {
    if name == [] then p else Join(Step(p, name[0]), name[1..])
  }

  function JoinAll(p: Path, names: seq<seq<string>>): Path {
    if names == [] then p else Join(JoinAll(p, names[..|names| - 1]), names[|names| - 1])
  }

  /** A name of its own, not one that stands for a directory on the way. */
  predicate Plain(seg: string) { seg != "" && seg != "." && seg != ".." }

  predicate Clean(p: Path) { forall i | 0 <= i < |p| :: Plain(p[i]) }

  /** Joining keeps paths clean: of a clean path and any name nothing but plain names is left. */
  lemma {:induction false} JoinIsClean(p: Path, name: seq<string>)
    requires Clean(p)
    ensures Clean(Join(p, name))
    decreases |name|
  {
    if name != [] { JoinIsClean(Step(p, name[0]), name[1..]); }
  }

  /** Joining name by name is joining at once. */
  lemma {:induction false} JoinInParts(p: Path, a: seq<string>, b: seq<string>)
    ensures Join(p, a + b) == Join(Join(p, a), b)
    decreases |a|
  {
    if a == [] {
      assert a + b == b;
    } else {
      assert (a + b)[1..] == a[1..] + b;
      JoinInParts(Step(p, a[0]), a[1..], b);
    }
  }

  /** A plain name leads to a child of its own, two dots lead back to the directory and stay
      at the root, and one dot or nothing stays. */
  lemma JoinLaws(p: Path, a: string, b: string)
    requires Plain(a) && Plain(b)
    ensures Dir(Join(p, [a])) == p && |Join(p, [a])| == |p| + 1
    ensures Join(p, [a]) == Join(p, [b]) ==> a == b
    ensures Join(p, [a, ".."]) == p && Join([], [".."]) == [] && Join(p, ["."]) == p == Join(p, [""])
  {
    assert Join(p, [a]) == p + [a] && Join(p, [b]) == p + [b];
    assert (p + [a])[|p|] == a && (p + [b])[|p|] == b;
    assert [a, ".."][1..] == [".."] && [".."][1..] == [];
    assert Join(p, [a, ".."]) == Join(p + [a], [".."]) == (p + [a])[..|p|];
    assert ["."][1..] == [] && [""][1..] == [];
  }

  lemma JoinNone(p: Path)
    ensures forall names: seq<seq<string>> :: JoinAll(p, names[..0]) == p
  {
  }

  lemma JoinOne(p: Path, names: seq<seq<string>>, i: nat)
    requires i < |names|
    ensures JoinAll(p, names[..i + 1]) == Join(JoinAll(p, names[..i]), names[i])
  {
    assert names[..i + 1][..i] == names[..i];
  }

  function Dir(p: Path): Path { if p == [] then [] else p[..|p| - 1] }

  /** The fids that point at `f`. */
  function Pointers(pool: map<nat, Fid>, f: FileId): set<nat> {
    set k | k in pool && pool[k].file == f
  }

  /** Every count is the number of fids pointing at the file, one more for the root,
      and one more for each reference `extra` that a request still holds. */
  ghost predicate Counted(pool: map<nat, Fid>, refs: map<FileId, int>, root: FileId, extra: multiset<FileId>) {
    && (forall f | f in refs :: refs[f] == |Pointers(pool, f)| + (if f == root then 1 else 0) + extra[f])
    && (forall k | k in pool :: pool[k].file in refs)
    && root in refs && (forall f | f in extra :: f in refs)
  }

  /** Fids are keyed by their own number and used by nobody but the pool, except that
      fid `held` has `count` references. */
  predicate Keyed(pool: map<nat, Fid>, held: nat, count: int) {
    forall k | k in pool :: pool[k].num == k && pool[k].refs == if k == held then count else 1
  }

  /** `file` is the file listed under `path`. */
  predicate Listed(files: map<Path, FileId>, path: Path, file: FileId) { path in files && files[path] == file }

  /** The same, unless the last reference to what a fid pointed at before, given back
      under the path `gone` that it had, unlisted that path. */
  predicate ListedBut(files: map<Path, FileId>, path: Path, file: FileId, gone: Path) {
    Listed(files, path, file) || (path == gone && path !in files)
  }

  /** No path of at least `n` names has been unlisted. */
  ghost predicate StaysListed(before: map<Path, FileId>, after: map<Path, FileId>, n: nat) {
    forall p | p in before && |p| >= n :: Listed(after, p, before[p])
  }

  /** The new fid stands at the path reached and points at the file listed there; a walk
      onto the fid itself moves it and closes it; nothing else changed. */
  ghost predicate WalkedTo(before: map<nat, Fid>, after: map<nat, Fid>, k: nat, newfid: nat, names: seq<seq<string>>,
                           files: map<Path, FileId>)
    requires k in before
  {
    var path := JoinAll(before[k].path, names);
    && newfid in after
    && after == before[newfid := if newfid == k then before[k].(path := path, file := after[k].file, isOpen := false)
                                 else Fid(newfid, 1, path, after[newfid].file, false)]
    && (newfid == k || newfid !in before)
    && (if names == [] then after[newfid].file == before[k].file
        else if newfid == k then ListedBut(files, path, after[k].file, before[k].path)
        else Listed(files, path, after[newfid].file))
  }

  /** The parent of a path is listed, none of the files locked, and the write layer has it. */
  predicate Reaches(files: map<Path, FileId>, path: Path, locked: set<FileId>, host: Host) {
    Dir(path) in files && files[Dir(path)] !in locked && host.present(|Dir(path)|)
  }

  /** The fid is open, keeps its path, and points at the file listed under its path joined
      with the name. */
  ghost predicate CreatedAt(before: map<nat, Fid>, after: map<nat, Fid>, k: nat, name: seq<string>, files: map<Path, FileId>)
    requires k in before
  {
    && k in after && !before[k].isOpen && after == before[k := before[k].(file := after[k].file, isOpen := true)]
    && ListedBut(files, Join(before[k].path, name), after[k].file, before[k].path)
  }

  lemma AddPointer(pool: map<nat, Fid>, k: nat, fid: Fid, f: FileId)
    requires k !in pool
    ensures |Pointers(pool[k := fid], f)| == |Pointers(pool, f)| + if fid.file == f then 1 else 0
  {
    assert Pointers(pool[k := fid], f) == Pointers(pool, f) + if fid.file == f then {k} else {};
  }

  lemma DropPointer(pool: map<nat, Fid>, k: nat, f: FileId)
    requires k in pool
    ensures |Pointers(pool - {k}, f)| == |Pointers(pool, f)| - if pool[k].file == f then 1 else 0
  {
    assert Pointers(pool - {k}, f) == Pointers(pool, f) - if pool[k].file == f then {k} else {};
  }

  /** A fid entered, dropped or moved: its reference changes hands between the pool and
      the request. */
  lemma CountEntered(pool: map<nat, Fid>, refs: map<FileId, int>, root: FileId, extra: multiset<FileId>, k: nat, fid: Fid)
    requires Counted(pool, refs, root, extra) && k !in pool && fid.file in extra
    ensures Counted(pool[k := fid], refs, root, extra - multiset{fid.file})
  {
    forall f ensures |Pointers(pool[k := fid], f)| == |Pointers(pool, f)| + if fid.file == f then 1 else 0 {
      AddPointer(pool, k, fid, f);
    }
  }

  lemma CountDropped(pool: map<nat, Fid>, refs: map<FileId, int>, root: FileId, extra: multiset<FileId>, k: nat)
    requires Counted(pool, refs, root, extra) && k in pool
    ensures Counted(pool - {k}, refs, root, extra + multiset{pool[k].file})
  {
    forall f ensures |Pointers(pool - {k}, f)| == |Pointers(pool, f)| - if pool[k].file == f then 1 else 0 {
      DropPointer(pool, k, f);
    }
  }

  lemma CountMoved(pool: map<nat, Fid>, refs: map<FileId, int>, root: FileId, extra: multiset<FileId>, k: nat, fid: Fid)
    requires Counted(pool, refs, root, extra) && k in pool && fid.file in extra
    ensures Counted(pool[k := fid], refs, root, extra - multiset{fid.file} + multiset{pool[k].file})
  {
    hide Counted;
    CountDropped(pool, refs, root, extra, k);
    CountEntered(pool - {k}, refs, root, extra + multiset{pool[k].file}, k, fid);
    assert (pool - {k})[k := fid] == pool[k := fid];
    assert extra + multiset{pool[k].file} - multiset{fid.file} == extra - multiset{fid.file} + multiset{pool[k].file};
  }

  lemma CountKept(pool: map<nat, Fid>, refs: map<FileId, int>, root: FileId, extra: multiset<FileId>, k: nat, fid: Fid)
    requires Counted(pool, refs, root, extra) && k in pool && fid.file == pool[k].file
    ensures Counted(pool[k := fid], refs, root, extra)
  {
    assert forall f :: Pointers(pool[k := fid], f) == Pointers(pool, f);
  }

  class Server {
    var pool: map<nat, Fid>
    var files: map<Path, FileId>
    var refs: map<FileId, int>
    var reqs: set<nat>
    var root: FileId
    var next: FileId

    ghost predicate Accounted(extra: multiset<FileId>)
      reads this
    {
      && Counted(pool, refs, root, extra)
      && (forall p | p in files :: files[p] in refs) && [] in files && files[[]] == root
      && (forall f | f in refs :: f < next)
    }

    /** The state between requests. */
    ghost predicate Valid()
      reads this
    {
      Accounted(multiset{}) && Keyed(pool, 0, 1)
    }

    constructor ()
      ensures Valid() && pool == map[] && reqs == {}
    {
      pool, files, refs, reqs, root, next := map[], map[[] := 0], map[0 := 1], {}, 0, 1;
    }

    method IncRef(f: FileId, ghost extra: multiset<FileId>)
      requires Accounted(extra) && f in refs
      modifies this`refs
      ensures Accounted(extra + multiset{f}) && refs.Keys == old(refs.Keys)
    {
      refs := refs[f := refs[f] + 1];
    }

    /** Give a reference back; the last one unlists the file under the given path.  The
        root is listed under another name than the one its fids carry. */
    method DecRef(f: FileId, path: Path, ghost extra: multiset<FileId>)
      requires Accounted(extra) && f in extra
      modifies this`refs, this`files
      ensures Accounted(extra - multiset{f}) && refs.Keys == old(refs.Keys)
      ensures f in old(refs) && f in refs && refs[f] == old(refs[f]) - 1
      ensures files == if refs[f] == 0 && path != [] then old(files) - {path} else old(files)
    {
      refs := refs[f := refs[f] - 1];
      if refs[f] == 0 && path != [] {
        files := files - {path};
      }
    }

    /** The file of a path, created if need be, with a reference for the caller. */
    method Lookup(path: Path, found: bool, ghost extra: multiset<FileId>) returns (r: Found)
      requires Accounted(extra)
      modifies this`refs, this`files, this`next
      ensures r.Missing? ==> Accounted(extra)
      ensures r.Got? ==> Accounted(extra + multiset{r.file})
      ensures r.Missing? <==> path !in old(files) && !found
      ensures path in old(files) ==> r == Got(old(files)[path])
      ensures path !in old(files) && r.Got? ==> r.file !in old(refs)
      ensures r.Got? ==> files == old(files)[path := r.file]
      ensures r.Missing? ==> files == old(files)
      ensures refs.Keys >= old(refs.Keys)
    {
      if path in files {
        IncRef(files[path], extra);
        return Got(files[path]);
      }
      if !found { return Missing; }
      refs := refs[next := 1];
      files := files[path := next];
      assert Pointers(pool, next) == {};
      assert extra[next] == 0;
      next := next + 1;
      return Got(next - 1);
    }

    // ----- Fids

    method GetFid(k: nat) returns (ok: bool)
      requires Valid()
      modifies this`pool
      ensures ok <==> k in old(pool)
      ensures pool == if ok then old(pool)[k := old(pool)[k].(refs := 2)] else old(pool)
      ensures Accounted(multiset{}) && pool.Keys == old(pool.Keys) && (ok ==> Keyed(pool, k, 2))
      ensures !ok ==> Valid()
    {
      hide Counted;
      ok := k in pool;
      if ok {
        CountKept(pool, refs, root, multiset{}, k, pool[k].(refs := pool[k].refs + 1));
        pool := pool[k := pool[k].(refs := pool[k].refs + 1)];
      }
    }

    /** Enter a fid for a file whose reference the caller hands over. */
    method NewFid(k: nat, path: Path, f: FileId, ghost extra: multiset<FileId>, ghost held: nat, ghost count: int)
      returns (ok: bool)
      requires Accounted(extra) && f in extra && Keyed(pool, held, count) && (k == held ==> held in pool)
      modifies this`pool
      ensures ok <==> k !in old(pool)
      ensures pool == if ok then old(pool)[k := Fid(k, 1, path, f, false)] else old(pool)
      ensures Keyed(pool, held, count) && (held in old(pool) ==> held in pool)
      ensures Accounted(if ok then extra - multiset{f} else extra)
    {
      hide Counted;
      if k in pool { return false; }
      var fid := Fid(k, 1, path, f, false);
      CountEntered(pool, refs, root, extra, k, fid);
      pool := pool[k := fid];
      return true;
    }

    /** Point a fid at another file whose reference the caller hands over; the
        reference to the old one is given back. */
    method Repoint(k: nat, path: Path, f: FileId, open: bool, ghost extra: multiset<FileId>, ghost count: int)
      requires Accounted(extra) && f in extra && k in pool && Keyed(pool, k, count)
      modifies this`pool, this`refs, this`files
      ensures Accounted(extra - multiset{f}) && k in pool && Keyed(pool, k, count)
      ensures pool == old(pool)[k := old(pool)[k].(path := path, file := f, isOpen := open)]
      ensures files == old(files) || files == old(files) - {old(pool)[k].path}
    {
      hide Counted;
      var fid := pool[k];
      var moved := fid.(path := path, file := f, isOpen := open);
      CountMoved(pool, refs, root, extra, k, moved);
      pool := pool[k := moved];
      DecRef(fid.file, fid.path, extra - multiset{f} + multiset{fid.file});
      assert extra - multiset{f} + multiset{fid.file} - multiset{fid.file} == extra - multiset{f};
    }

    /** Give a reference to a fid back; the last one takes it out of the pool. */
    method DecRefFid(k: nat, ghost extra: multiset<FileId>, ghost count: int)
      requires Accounted(extra) && k in pool && Keyed(pool, k, count)
      modifies this`pool, this`refs, this`files
      ensures Accounted(extra) && Keyed(pool, k, count - 1)
      ensures pool == if count == 1 then old(pool) - {k} else old(pool)[k := old(pool)[k].(refs := count - 1)]
      ensures count != 1 ==> files == old(files)
    {
      hide Counted;
      var fid := pool[k].(refs := pool[k].refs - 1);
      if fid.refs == 0 {
        CountDropped(pool, refs, root, extra, k);
        pool := pool - {k};
        DecRef(fid.file, fid.path, extra + multiset{fid.file});
        assert extra + multiset{fid.file} - multiset{fid.file} == extra;
      } else {
        CountKept(pool, refs, root, extra, k, fid);
        pool := pool[k := fid];
      }
    }

    // ----- Operations on a fid `k` that the request holds

    /** Attach a fid to the root. */
    method Attach(k: nat, ghost held: nat, ghost count: int) returns (ok: bool)
      requires Accounted(multiset{}) && Keyed(pool, held, count) && (k == held ==> held in pool)
      modifies this`pool, this`refs, this`files
      ensures Accounted(multiset{}) && Keyed(pool, held, count) && (held in old(pool) ==> held in pool)
      ensures ok <==> k !in old(pool)
      ensures pool == if ok then old(pool)[k := Fid(k, 1, [], root, false)] else old(pool)
    {
      IncRef(root, multiset{});
      assert multiset{} + multiset{root} == multiset{root};
      ok := NewFid(k, [], root, multiset{root}, held, count);
      if !ok { DecRef(root, [], multiset{root}); }
    }

    /** Exchange the file held for the one a name leads to. */
    method WalkOne(path: Path, file: FileId, name: seq<string>, found: bool, present: bool)
      returns (ok: bool, path': Path, file': FileId)
      requires Accounted(multiset{file})
      modifies this`refs, this`files, this`next
      ensures Accounted(if ok then multiset{file'} else multiset{}) && path' == Join(path, name)
      ensures ok ==> present && Listed(files, path', file')
      ensures found && present ==> ok
    {
      hide Server.Accounted, Join;
      DecRef(file, path, multiset{file});
      assert multiset{file} - multiset{file} == multiset{};
      ok, path', file' := false, Join(path, name), file;
      var r := Lookup(path', found, multiset{});
      if r.Missing? { return; }
      file' := r.file;
      assert multiset{} + multiset{file'} == multiset{file'};
      if present {
        ok := true;
      } else {
        DecRef(file', path', multiset{file'});
        assert multiset{file'} - multiset{file'} == multiset{};
      }
    }

    /** Walk name by name, always holding exactly the file reached. */
    method WalkNames(k: nat, names: seq<seq<string>>, host: Host) returns (ok: bool, path: Path, file: FileId)
      requires Accounted(multiset{}) && k in pool
      modifies this`refs, this`files, this`next
      ensures Accounted(if ok then multiset{file} else multiset{})
      ensures ok ==> path == JoinAll(pool[k].path, names)
      ensures ok ==> if names == [] then file == pool[k].file else Listed(files, path, file)
      ensures ok ==> forall i | 0 <= i < |names| :: host.present(i)
      ensures AllThere(host, |names|) ==> ok
    {
      hide Server.Accounted, Join, JoinAll;
      ok, path, file := true, pool[k].path, pool[k].file;
      PooledIsCounted(k, multiset{});
      IncRef(file, multiset{});
      assert multiset{} + multiset{file} == multiset{file};
      JoinNone(path);
      for i := 0 to |names|
        invariant ok && Accounted(multiset{file}) && path == JoinAll(pool[k].path, names[..i])
        invariant if i == 0 then file == pool[k].file else Listed(files, path, file)
        invariant forall j | 0 <= j < i :: host.present(j)
      {
        JoinOne(pool[k].path, names, i);
        ok, path, file := WalkOne(path, file, names[i], host.found(i), host.present(i));
        if !ok { return; }
      }
      assert names[..|names|] == names;
    }

    lemma PooledIsCounted(k: nat, extra: multiset<FileId>)
      requires Accounted(extra) && k in pool
      ensures pool[k].file in refs
    {
    }

    method Walk(k: nat, newfid: nat, names: seq<seq<string>>, host: Host) returns (ok: bool)
      requires Accounted(multiset{}) && k in pool && Keyed(pool, k, 2)
      modifies this`pool, this`refs, this`files, this`next
      ensures Accounted(multiset{}) && k in pool && Keyed(pool, k, 2)
      ensures !ok ==> pool == old(pool)
      ensures ok ==> WalkedTo(old(pool), pool, k, newfid, names, files)
      ensures ok ==> forall i | 0 <= i < |names| :: host.present(i)
      ensures AllThere(host, |names|) && (newfid == k || newfid !in old(pool)) ==> ok
    {
      hide Server.Accounted, JoinAll;
      var path, file;
      ok, path, file := WalkNames(k, names, host);
      if !ok { return; }
      assert multiset{file} - multiset{file} == multiset{};
      if newfid == pool[k].num {
        Repoint(k, path, file, false, multiset{file}, 2);
      } else {
        ok := NewFid(newfid, path, file, multiset{file}, k, 2);
        if !ok { DecRef(file, path, multiset{file}); }
      }
    }

    /** Create a file that is missing in the write layer, and before it what is missing
        of the path to it: each level locks its file, looks up the parent, creates it and
        gives it back.  `locked` are the files whose locks the request holds. */
    method CreateTree(f: FileId, path: Path, locked: set<FileId>, host: Host, ghost extra: multiset<FileId>)
      returns (ok: bool, o: Outcome)
      requires Accounted(extra) && (path == [] ==> f == root)
      modifies this`refs, this`files, this`next
      ensures o.Answered? ==> Accounted(extra)
      ensures f in locked ==> o.Hung?
      ensures o.Answered? && (Dir(path) in old(files) || host.found(|Dir(path)|)) ==>
                (ok <==> Makes(host, |path|))
      ensures ok ==> o.Answered? && Makes(host, |path|)
      ensures f !in locked && host.present(|path|) ==> o.Answered?
      ensures f !in locked && Reaches(old(files), path, locked + {f}, host) ==> o.Answered?
      ensures !o.Crashed?
      ensures StaysListed(old(files), files, |path|)
      decreases |path|, if root in locked then 0 else 1, 0
    {
      ok, o := false, Answered;
      if f in locked { o := Hung; return; }
      if host.present(|path|) || !host.cleared(|path|) { return; }
      ok, o := MakeTree(path, locked + {f}, host, extra);
      if ok { ok := host.done(|path|); }
    }

    method MakeTree(path: Path, locked: set<FileId>, host: Host, ghost extra: multiset<FileId>)
      returns (ok: bool, o: Outcome)
      requires Accounted(extra)
      modifies this`refs, this`files, this`next
      ensures o.Answered? ==> Accounted(extra)
      ensures Dir(path) in old(files) && old(files)[Dir(path)] in locked ==> o.Hung?
      ensures ok <==> o.Answered? && (Dir(path) in old(files) || host.found(|Dir(path)|))
      ensures !ok ==> o == if Dir(path) in old(files) || host.found(|Dir(path)|) then Hung else Answered
      ensures Reaches(old(files), path, locked, host) ==> o.Answered?
      ensures StaysListed(old(files), files, |path|)
      decreases |Dir(path)|, if root in locked then 0 else 1, 1
    {
      hide Server.Accounted;
      ListedRoot(extra);
      var r := Lookup(Dir(path), host.found(|Dir(path)|), extra);
      if r.Missing? { return false, Answered; }
      ok, o := CreateTree(r.file, Dir(path), locked, host, extra + multiset{r.file});
      if !o.Answered? { return; }
      DecRef(r.file, Dir(path), extra + multiset{r.file});
      assert extra + multiset{r.file} - multiset{r.file} == extra;
      ok := true;
    }

    lemma ListedIsCounted(path: Path, extra: multiset<FileId>)
      requires Accounted(extra) && path in files
      ensures files[path] in refs
    {
    }

    lemma ListedRoot(extra: multiset<FileId>)
      requires Accounted(extra)
      ensures [] in files && files[[]] == root
    {
    }

    /** Look a path up and create its file, with a reference for the caller. */
    method CreateNew(path: Path, host: Host) returns (ok: bool, o: Outcome, file: FileId)
      requires Accounted(multiset{})
      modifies this`refs, this`files, this`next
      ensures o.Answered? ==> Accounted(if ok then multiset{file} else multiset{})
      ensures ok ==> o.Answered? && Listed(files, path, file) && Makes(host, |path|)
      ensures o.Answered? && (forall i :: host.found(i)) ==> (ok <==> Makes(host, |path|))
      ensures path != [] && Reaches(old(files), path, if path in old(files) then {old(files)[path]} else {}, host)
              ==> o.Answered?
    {
      hide Server.Accounted;
      ok, o, file := false, Answered, 0;
      ListedRoot(multiset{});
      if Dir(path) in files { ListedIsCounted(Dir(path), multiset{}); }
      var r := Lookup(path, host.found(|path|), multiset{});
      if r.Missing? { return; }
      file := r.file;
      assert multiset{} + multiset{file} == multiset{file};
      ok, o := CreateTree(file, path, {}, host, multiset{file});
      if o.Answered? && !ok {
        DecRef(file, path, multiset{file});
        assert multiset{file} - multiset{file} == multiset{};
      }
    }

    /** Create a file in the directory of the fid and move the fid onto it, once the
        reply went out; the fid keeps the path of the directory. */
    method Create(k: nat, name: seq<string>, host: Host) returns (ok: bool, o: Outcome)
      requires Accounted(multiset{}) && k in pool && Keyed(pool, k, 2)
      modifies this`pool, this`refs, this`files, this`next
      ensures o.Answered? ==> Accounted(multiset{})
      ensures k in pool && Keyed(pool, k, 2) && (!o.Answered? ==> !ok)
      ensures !ok ==> pool == old(pool)
      ensures ok ==> CreatedAt(old(pool), pool, k, name, files)
      ensures ok ==> Creates(host, |Join(old(pool)[k].path, name)|)
      ensures o.Answered? && !old(pool)[k].isOpen && (forall i :: host.found(i)) ==>
                (ok <==> Creates(host, |Join(old(pool)[k].path, name)|))
      ensures var path := Join(old(pool)[k].path, name);
              path != [] && Reaches(old(files), path, if path in old(files) then {old(files)[path]} else {}, host)
              ==> o.Answered?
    {
      hide Server.Accounted, Join, Dir, Reaches, Makes;
      ok, o := false, Answered;
      if pool[k].isOpen || !host.allowed { return; }
      var path := Join(pool[k].path, name);
      var file;
      ok, o, file := CreateNew(path, host);
      if !ok { return; }
      assert multiset{file} - multiset{file} == multiset{};
      ok := host.fits;
      if ok {
        Repoint(k, pool[k].path, file, true, multiset{file}, 2);
      } else {
        DecRef(file, path, multiset{file});
      }
    }

    /** Look up and give back every child of a directory. */
    method Children(dir: Path, names: seq<string>, host: Host) returns (ok: bool)
      requires Accounted(multiset{})
      modifies this`refs, this`files, this`next
      ensures Accounted(multiset{})
      ensures ok ==> AllRead(host, |names|)
      ensures AllRead(host, |names|) && (forall i | 0 <= i < |names| :: host.found(i)) ==> ok
    {
      hide Server.Accounted, Join;
      for i := 0 to |names|
        invariant Accounted(multiset{}) && AllRead(host, i)
      {
        var path := Join(dir, [names[i]]);
        var r := Lookup(path, host.found(i), multiset{});
        if r.Missing? { return false; }
        assert multiset{} + multiset{r.file} == multiset{r.file};
        assert multiset{r.file} - multiset{r.file} == multiset{};
        DecRef(r.file, path, multiset{r.file});
        if host.present(i) && !host.done(i) { return false; }
      }
      return true;
    }

    /** Open a fid that is not open yet, once the reply went out. */
    method Open(k: nat, host: Host) returns (ok: bool)
      requires Accounted(multiset{}) && k in pool && Keyed(pool, k, 2)
      modifies this`pool
      ensures Accounted(multiset{}) && k in pool && Keyed(pool, k, 2)
      ensures ok <==> !old(pool)[k].isOpen && host.allowed && host.fits
      ensures pool == if ok then old(pool)[k := old(pool)[k].(isOpen := true)] else old(pool)
    {
      hide Counted;
      if pool[k].isOpen || !host.allowed { return false; }
      ok := host.fits;
      if ok {
        CountKept(pool, refs, root, multiset{}, k, pool[k].(isOpen := true));
        pool := pool[k := pool[k].(isOpen := true)];
      }
    }

    /** Drop the pool's reference first, whatever becomes of the removal, which holds the
        lock of the file. */
    method Remove(k: nat, host: Host) returns (o: Outcome)
      requires Accounted(multiset{}) && k in pool && Keyed(pool, k, 2)
      modifies this`pool, this`refs, this`files, this`next
      ensures o.Answered? ==> Accounted(multiset{})
      ensures k in pool && Keyed(pool, k, 1)
      ensures pool == old(pool)[k := old(pool)[k].(refs := 1)]
      ensures var path := old(pool)[k].path;
              var unlinked := host.fits && host.cleared(|path|);
              && (o.Crashed? <==> unlinked && Dir(path) !in old(files) && !host.found(|Dir(path)|))
              && (!unlinked || Reaches(old(files), path, {old(pool)[k].file}, host) ==> o.Answered?)
              && (unlinked && Dir(path) in old(files) && old(files)[Dir(path)] == old(pool)[k].file ==> o.Hung?)
    {
      var path, file := pool[k].path, pool[k].file;
      DecRefFid(k, multiset{}, 2);
      if !host.fits || !host.cleared(|path|) { return Answered; }
      var made;
      made, o := MakeTree(path, {file}, host, multiset{});
      if o.Answered? && !made { o := Crashed; }
    }

    // ----- Requests

    /** One request from tag to reply, on every success and error path. */
    method Handle(tag: nat, m: Request, host: Host) returns (o: Outcome)
      requires Valid()
      modifies this
      ensures o.Answered? ==> Valid() && reqs == old(reqs)
      ensures o.Answered? ==>
                if tag in old(reqs) && tag != NOTAG then pool == old(pool) else Answer(old(pool), pool, m, root, files, host)
      ensures root == old(root)
      ensures !o.Answered? ==> m.Tcreate? || m.Tremove? || NeedsFid(m)
    {
      hide Answer;
      if tag != NOTAG {
        if tag in reqs { return Answered; }
        reqs := reqs + {tag};
      }
      o := Dispatch(m, host);
      if tag != NOTAG { reqs := reqs - {tag}; }
      assert tag != NOTAG ==> old(reqs) + {tag} - {tag} == old(reqs);
    }

    method Dispatch(m: Request, host: Host) returns (o: Outcome)
      requires Valid()
      modifies this`pool, this`refs, this`files, this`next
      ensures o.Answered? ==> Valid() && Answer(old(pool), pool, m, root, files, host)
      ensures !o.Answered? ==> m.Tcreate? || m.Tremove? || NeedsFid(m)
    {
      hide Server.Accounted, Effect;
      if m.Tplain? { return Answered; }
      var user := if m.Tattach? then m.afid else m.fid;
      if user == NOFID {
        if m.Tattach? {
          var _ := Attach(m.fid, m.fid + 1, 1);
        }
        return if m.Tattach? || m.Tread? || m.Twrite? then Answered else Crashed;
      }
      o := DispatchHeld(user, m, host);
    }

    /** Take the fid, operate, give it back. */
    method DispatchHeld(k: nat, m: Request, host: Host) returns (o: Outcome)
      requires Valid() && k != NOFID && !m.Tplain? && k == if m.Tattach? then m.afid else m.fid
      modifies this`pool, this`refs, this`files, this`next
      ensures o.Answered? ==> Valid() && Answer(old(pool), pool, m, root, files, host)
      ensures !o.Answered? ==> m.Tcreate? || m.Tremove?
    {
      hide Server.Accounted, Effect, Answer;
      o := Answered;
      var known := GetFid(k);
      if !known {
        UnknownAnswer(pool, k, m, root, files, host);
        return;
      }
      ghost var taken := pool;
      var left;
      left, o := Operate(k, m, host);
      if !o.Answered? { return; }
      ghost var done := pool;
      ghost var listed := files;
      DecRefFid(k, multiset{}, left);
      if left == 1 { GivenUpUnlists(taken, done, k, m, root, listed, files, host); }
      EffectAnswers(old(pool), taken, done, pool, k, m, left, root, files, host);
    }

    /** The operation of a request that holds its fid; `left` is how many references to
        the fid remain afterwards. */
    method Operate(k: nat, m: Request, host: Host) returns (left: int, o: Outcome)
      requires Accounted(multiset{}) && k in pool && Keyed(pool, k, 2) && !m.Tplain?
      modifies this`pool, this`refs, this`files, this`next
      ensures o.Answered? ==> Accounted(multiset{})
      ensures k in pool && Keyed(pool, k, left) && (left == 1 || left == 2)
      ensures Effect(old(pool), pool, k, m, left, root, files, host) && (!o.Answered? ==> m.Tcreate? || m.Tremove?)
    {
      hide Server.Accounted;
      left, o := 2, Answered;
      match m {
        case Tattach(fid, _) =>
          var _ := Attach(fid, k, 2);
        case Twalk(_, newfid, names) =>
          var _ := Walk(k, newfid, names, host);
        case Topen(_) =>
          var _ := Open(k, host);
        case Tcreate(_, name) =>
          var made;
          made, o := Create(k, name, host);
        case Tread(_, children) =>
          if host.allowed {      // a directory, read from its start
            var _ := Children(pool[k].path, children, host);
          }
        case Tclunk(_) =>
          if host.fits {
            DecRefFid(k, multiset{}, 2);
            left := 1;
          }
        case Tremove(_) =>
          o := Remove(k, host);
          left := 1;
        case Twrite(_) =>
        case Tother(_) =>
      }
    }

    /** After any sequence of whole requests every pooled fid has one reference and its
        own number as key, and every file is referenced once by each fid that points at
        it and once more if it is the root. */
    method Serve(requests: seq<(nat, Request, Host)>) returns (o: Outcome)
      requires Valid()
      modifies this
      ensures o.Answered? ==> Valid() && reqs == old(reqs)
    {
      o := Answered;
      for i := 0 to |requests|
        invariant o.Answered? && Valid() && reqs == old(reqs)
      {
        o := Handle(requests[i].0, requests[i].1, requests[i].2);
        if !o.Answered? { return; }
      }
    }
  }

  predicate Opens(fid: Fid, host: Host) { !fid.isOpen && host.allowed && host.fits }

  /** A walk changes nothing or arrives, which it does only if every file on the way exists,
      and certainly if the host finds all of them and the new number is free. */
  ghost predicate WalkAnswer(before: map<nat, Fid>, after: map<nat, Fid>, k: nat, newfid: nat, names: seq<seq<string>>,
                             files: map<Path, FileId>, host: Host)
    requires k in before
  {
    var arrives := WalkedTo(before, after, k, newfid, names, files);
    && (after == before || (arrives && forall i | 0 <= i < |names| :: host.present(i)))
    && (AllThere(host, |names|) && (newfid == k || newfid !in before) ==> arrives)
  }

  /** What a request may do to the pool while it holds fid `k`: attach enters a fid at
      the root, walk enters or moves one, open and create work on a fid that is not open,
      clunk and remove give up the pool's reference to it, and everything else leaves the
      pool alone. */
  ghost predicate Effect(before: map<nat, Fid>, after: map<nat, Fid>, k: nat, m: Request, left: int, root: FileId,
                         files: map<Path, FileId>, host: Host)
    requires k in before
  {
    match m
    case Tattach(fid, _) =>
      left == 2 && if fid in before then after == before
                   else after == before[fid := Fid(fid, 1, [], root, false)]
    case Twalk(_, newfid, names) =>
      left == 2 && WalkAnswer(before, after, k, newfid, names, files, host)
    case Topen(_) =>
      left == 2 && after == if Opens(before[k], host) then before[k := before[k].(isOpen := true)] else before
    case Tcreate(_, name) =>
      left == 2 && (after == before || (CreatedAt(before, after, k, name, files)
                                        && Creates(host, |Join(before[k].path, name)|)))
    case Tclunk(_) => left == (if host.fits then 1 else 2) && after == before[k := before[k].(refs := left)]
    case Tremove(_) => left == 1 && after == before[k := before[k].(refs := 1)]
    case _ => left == 2 && after == before
  }

  /** What a request has done to the pool when it is answered, all it took given back. */
  ghost predicate Answer(before: map<nat, Fid>, after: map<nat, Fid>, m: Request, root: FileId, files: map<Path, FileId>,
                         host: Host) {
    match m
    case Tattach(fid, _) =>
      after == if fid !in before && (m.afid == NOFID || m.afid in before)
               then before[fid := Fid(fid, 1, [], root, false)] else before
    case Twalk(fid, newfid, names) =>
      if fid in before then WalkAnswer(before, after, fid, newfid, names, files, host) else after == before
    case Topen(fid) =>
      after == if fid in before && Opens(before[fid], host) then before[fid := before[fid].(isOpen := true)] else before
    case Tcreate(fid, name) =>
      after == before || (fid in before && CreatedAt(before, after, fid, name, files)
                          && Creates(host, |Join(before[fid].path, name)|))
    case Tclunk(fid) => after == if host.fits then before - {fid} else before
    case Tremove(fid) => after == before - {fid}
    case _ => after == before
  }

  lemma UnknownAnswer(pool: map<nat, Fid>, k: nat, m: Request, root: FileId, files: map<Path, FileId>,
                      host: Host)
    requires k !in pool && k != NOFID && !m.Tplain? && k == if m.Tattach? then m.afid else m.fid
    ensures Answer(pool, pool, m, root, files, host)
  {
    assert pool - {k} == pool;
  }

  /** What gives the fid up says nothing of the listing, which may change with it. */
  lemma GivenUpUnlists(before: map<nat, Fid>, after: map<nat, Fid>, k: nat, m: Request, root: FileId,
                       files: map<Path, FileId>, files': map<Path, FileId>, host: Host)
    requires k in before && Effect(before, after, k, m, 1, root, files, host)
    ensures Effect(before, after, k, m, 1, root, files', host)
  {
  }

  /** Taking the fid, operating on it and giving it back adds up to the answer. */
  lemma EffectAnswers(before: map<nat, Fid>, taken: map<nat, Fid>, done: map<nat, Fid>, after: map<nat, Fid>,
                      k: nat, m: Request, left: int, root: FileId, files: map<Path, FileId>, host: Host)
    requires k in before && Keyed(before, 0, 1) && !m.Tplain? && k == if m.Tattach? then m.afid else m.fid
    requires taken == before[k := before[k].(refs := 2)]
    requires k in done && Effect(taken, done, k, m, left, root, files, host) && (left == 1 || left == 2)
    requires after == if left == 1 then done - {k} else done[k := done[k].(refs := 1)]
    ensures Answer(before, after, m, root, files, host)
  {
    hide JoinAll, Join, WalkAnswer, WalkedTo, CreatedAt, Creates;
    assert before[k].(refs := 2).(refs := 1) == before[k];
    assert taken[k := before[k]] == before;
    assert taken - {k} == before - {k};
    match m {
      case Twalk(_, newfid, names) => WalkedAnswer(before, taken, done, after, k, newfid, names, files, host);
      case Tcreate(_, name) =>
        if done != taken { CreatedAnswer(before, taken, done, after, k, name, files); }
      case _ =>
    }
  }

  lemma WalkedAnswer(before: map<nat, Fid>, taken: map<nat, Fid>, done: map<nat, Fid>, after: map<nat, Fid>, k: nat,
                     newfid: nat, names: seq<seq<string>>, files: map<Path, FileId>, host: Host)
    requires k in before && before[k].refs == 1 && taken == before[k := before[k].(refs := 2)]
    requires WalkAnswer(taken, done, k, newfid, names, files, host)
    requires k in done && after == done[k := done[k].(refs := 1)]
    ensures WalkAnswer(before, after, k, newfid, names, files, host)
  {
    hide JoinAll, AllThere, Listed, ListedBut;
    assert before[k].(refs := 2).(refs := 1) == before[k];
    assert taken[k := before[k]] == before;
  }

  lemma CreatedAnswer(before: map<nat, Fid>, taken: map<nat, Fid>, done: map<nat, Fid>, after: map<nat, Fid>, k: nat,
                      name: seq<string>, files: map<Path, FileId>)
    requires k in before && before[k].refs == 1 && taken == before[k := before[k].(refs := 2)]
    requires CreatedAt(taken, done, k, name, files) && after == done[k := done[k].(refs := 1)]
    ensures CreatedAt(before, after, k, name, files)
  {
    hide Join, ListedBut;
  }

  /** What Valid says of one file, and that a file nobody points at is not counted. */
  lemma UnusedHasNoCount(pool: map<nat, Fid>, refs: map<FileId, int>, root: FileId, f: FileId)
    requires Counted(pool, refs, root, multiset{}) && f in refs && f != root
    ensures refs[f] == 0 <==> forall k | k in pool :: pool[k].file != f
    ensures refs[f] >= 0 && refs[root] >= 1
  {
    if exists k :: k in pool && pool[k].file == f {
      var k :| k in pool && pool[k].file == f;
      assert k in Pointers(pool, f);
    } else {
      assert Pointers(pool, f) == {};
    }
  }
}
