/**
 Where a path of the exported tree lives on the host (plan9/file.go).

 The tree is an overlay: a table of writable directories and a table of lists of
 readable ones, each keyed by the prefix of the paths it serves.  Both are hash tables,
 so they are scanned in an order that changes from call to call.
 */
module Overlay {

  /** What the host says of one of its paths.  A file that carries the deletion mark
      stands for a file that was removed. */
  datatype Answer = Absent | Present(mode: nat, deleted: bool)

  datatype Fs = Fs(write: map<string, string>, read: map<string, seq<string>>)

  /** The host's answers during one call, and how it joins two path names. */
  datatype Host = Host(lstat: string -> Answer, join: (string, string) -> string)

  /** The fields of a file that a resolution fills in. */
  datatype Paths = Paths(readPath: string, readExists: bool,
                         writePath: string, writeExists: bool, writeDeleted: bool, mode: nat)

  predicate Live(host: Host, backing: string, rest: string) {
    var a := host.lstat(host.join(backing, rest));
    a.Present? && !a.deleted
  }

  /** A prefix serves a path when some directory of its list has the file. */
  predicate Serves(fs: Fs, host: Host, path: string, prefix: string)
    requires prefix in fs.read && prefix <= path
  {
    exists i | 0 <= i < |fs.read[prefix]| :: Live(host, fs.read[prefix][i], path[|prefix|..])
  }

  /** The longest non-empty prefix of the write table, or the working directory. */
  ghost predicate WriteChoice(fs: Fs, path: string, prefix: string, backing: string) {
    && prefix <= path
    && (forall p | p in fs.write && p <= path :: |p| <= |prefix|)
    && if prefix == "" then backing == "." else prefix in fs.write && fs.write[prefix] == backing
  }

  /** The last directory that has the file, in the list of the longest prefix that
      serves the path. */
  ghost predicate ReadChoice(fs: Fs, host: Host, path: string, prefix: string, backing: string) {
    && prefix in fs.read && prefix <= path
    && LastLive(fs.read[prefix], host, path[|prefix|..], backing)
    && (forall p | p in fs.read && p <= path && |p| > |prefix| :: !Serves(fs, host, path, p))
  }

  ghost predicate LastLive(backings: seq<string>, host: Host, rest: string, backing: string) {
    exists i | 0 <= i < |backings| ::
      && backings[i] == backing && Live(host, backing, rest)
      && forall j | i < j < |backings| :: !Live(host, backings[j], rest)
  }

  ghost predicate Unserved(fs: Fs, host: Host, path: string) {
    forall p | p in fs.read && p <= path :: !Serves(fs, host, path, p)
  }

  /** What a resolution of `path` yields for a file whose mode was `mode`. */
  ghost predicate Resolved(fs: Fs, host: Host, path: string, mode: nat, f: Paths) {
    exists prefix, backing ::
      && WriteChoice(fs, path, prefix, backing)
      && f.writePath == host.join(backing, path[|prefix|..])
      && ResolvedWrite(host, f)
      && ResolvedRead(fs, host, path, mode, f, prefix, backing)
  }

  ghost predicate ResolvedWrite(host: Host, f: Paths) {
    var a := host.lstat(f.writePath);
    f.writeExists == a.Present? && f.writeDeleted == (a.Present? && a.deleted)
  }

  /** Without a readable file the read path falls back on the writable place; the mode
      is that of the writable file, else of the readable one, else what it was. */
  ghost predicate ResolvedRead(fs: Fs, host: Host, path: string, mode: nat, f: Paths, wprefix: string, wbacking: string)
    requires wprefix <= path
  {
    && f.readExists == !Unserved(fs, host, path)
    && (exists prefix, backing ::
          && prefix <= path && f.readPath == host.join(backing, path[|prefix|..])
          && if f.readExists then ReadChoice(fs, host, path, prefix, backing)
             else prefix == wprefix && backing == wbacking)
    && f.mode == ModeOf(host, f.(mode := mode))
  }

  function ModeOf(host: Host, f: Paths): nat {
    var w := host.lstat(f.writePath);
    var r := host.lstat(f.readPath);
    if w.Present? then (if w.deleted then f.mode else w.mode)
    else if f.readExists && r.Present? then r.mode else f.mode
  }

  class File {
    var paths: Paths

    constructor ()
      ensures paths == Paths("", false, "", false, false, 0)
    {
      paths := Paths("", false, "", false, false, 0);
    }

    /** Resolve a path, whatever the order in which the two tables are scanned. */
    method FindPaths(fs: Fs, host: Host, path: string)
      modifies this
      ensures Resolved(fs, host, path, old(paths.mode), paths)
    {
      var wprefix, wbacking := FindWrite(fs, path);
      var writePath := host.join(wbacking, path[|wprefix|..]);
      var a := host.lstat(writePath);
      var mode := paths.mode;
      if a.Present? && !a.deleted { mode := a.mode; }
      var found, prefix, backing, readMode := FindRead(fs, host, path, wprefix, wbacking, a.Present?, mode);
      paths := Paths(host.join(backing, path[|prefix|..]), found,
                     writePath, a.Present?, a.Present? && a.deleted, readMode);
    }

    /** The scan of the write table. */
    method FindWrite(fs: Fs, path: string) returns (prefix: string, backing: string)
      ensures WriteChoice(fs, path, prefix, backing)
    {
      prefix, backing := "", ".";
      var todo := fs.write.Keys;
      while todo != {}
        invariant todo <= fs.write.Keys && prefix <= path
        invariant forall p | p in fs.write && p !in todo && p <= path :: |p| <= |prefix|
        invariant if prefix == "" then backing == "." else prefix in fs.write && fs.write[prefix] == backing
        decreases |todo|
      {
        var p :| p in todo;
        todo := todo - {p};
        if p <= path && |p| > |prefix| {
          prefix, backing := p, fs.write[p];
        }
      }
    }

    /** The scan of the read table, which also settles the mode of a file that has no
        writable counterpart. */
    method FindRead(fs: Fs, host: Host, path: string, wprefix: string, wbacking: string, written: bool, old_mode: nat)
      returns (found: bool, prefix: string, backing: string, mode: nat)
      requires wprefix <= path
      ensures prefix <= path && found == !Unserved(fs, host, path)
      ensures if found then ReadChoice(fs, host, path, prefix, backing) else prefix == wprefix && backing == wbacking
      ensures var r := host.lstat(host.join(backing, path[|prefix|..]));
              mode == if !written && found && r.Present? then r.mode else old_mode
    {
      found, prefix, backing, mode := false, wprefix, wbacking, old_mode;
      var todo := fs.read.Keys;
      while todo != {}
        invariant todo <= fs.read.Keys && prefix <= path
        invariant !found ==> prefix == wprefix && backing == wbacking && mode == old_mode
        invariant found ==> prefix in fs.read && LastLive(fs.read[prefix], host, path[|prefix|..], backing)
        invariant found ==> mode == ReadMode(host, written, old_mode, host.join(backing, path[|prefix|..]))
        invariant forall p | p in fs.read && p !in todo && p <= path && (!found || |p| > |prefix|) :: !Serves(fs, host, path, p)
        decreases |todo|
      {
        var p :| p in todo;
        todo := todo - {p};
        if p <= path && (!found || |p| > |prefix|) {
          var hit, b, m := FindBacking(fs.read[p], host, path[|p|..], written, mode);
          if hit {
            found, prefix, backing, mode := true, p, b, m;
          }
        }
      }
    }
  }

  function ReadMode(host: Host, written: bool, mode: nat, path: string): nat {
    var r := host.lstat(path);
    if !written && r.Present? then r.mode else mode
  }

  /** The scan of one list of directories: later ones shadow earlier ones. */
  method FindBacking(backings: seq<string>, host: Host, rest: string, written: bool, old_mode: nat)
    returns (hit: bool, backing: string, mode: nat)
    ensures hit <==> exists i | 0 <= i < |backings| :: Live(host, backings[i], rest)
    ensures hit ==> LastLive(backings, host, rest, backing)
    ensures mode == if hit then ReadMode(host, written, old_mode, host.join(backing, rest)) else old_mode
  {
    hit, backing, mode := false, "", old_mode;
    for i := 0 to |backings|
      invariant !hit ==> mode == old_mode && forall j | 0 <= j < i :: !Live(host, backings[j], rest)
      invariant hit ==> exists k | 0 <= k < i :: && backings[k] == backing && Live(host, backing, rest)
                                                 && forall j | k < j < i :: !Live(host, backings[j], rest)
      invariant hit ==> mode == ReadMode(host, written, old_mode, host.join(backing, rest))
    {
      var a := host.lstat(host.join(backings[i], rest));
      if a.Present? && !a.deleted {
        hit, backing := true, backings[i];
        if !written { mode := a.mode; }
      }
    }
  }

  // ----- Order independence

  lemma PrefixesBySize(path: string, p: string, q: string)
    requires p <= path && q <= path && |p| == |q|
    ensures p == q
  {
    assert p == path[..|p|] == q;
  }

  /** Two scans of the same tables against the same host agree, in whatever orders they
      went: a path has one resolution. */
  lemma ResolutionIsUnique(fs: Fs, host: Host, path: string, mode: nat, f: Paths, g: Paths)
    requires Resolved(fs, host, path, mode, f) && Resolved(fs, host, path, mode, g)
    ensures f == g
  {
    var p, b :| WriteChoice(fs, path, p, b) && f.writePath == host.join(b, path[|p|..])
                && ResolvedRead(fs, host, path, mode, f, p, b);
    var q, c :| WriteChoice(fs, path, q, c) && g.writePath == host.join(c, path[|q|..])
                && ResolvedRead(fs, host, path, mode, g, q, c);
    PrefixesBySize(path, p, q);
    SameReadPath(fs, host, path, mode, f, g, p, b);
  }

  lemma SameReadPath(fs: Fs, host: Host, path: string, mode: nat, f: Paths, g: Paths, p: string, b: string)
    requires p <= path && ResolvedRead(fs, host, path, mode, f, p, b) && ResolvedRead(fs, host, path, mode, g, p, b)
    ensures f.readExists == g.readExists && f.readPath == g.readPath
  {
    hide Unserved, ReadChoice, ModeOf;
    if f.readExists {
      var r, x :| r <= path && f.readPath == host.join(x, path[|r|..]) && ReadChoice(fs, host, path, r, x);
      var s, y :| s <= path && g.readPath == host.join(y, path[|s|..]) && ReadChoice(fs, host, path, s, y);
      ReadChoiceIsUnique(fs, host, path, r, x, s, y);
    }
  }

  lemma ReadChoiceIsUnique(fs: Fs, host: Host, path: string, r: string, x: string, s: string, y: string)
    requires ReadChoice(fs, host, path, r, x) && ReadChoice(fs, host, path, s, y)
    ensures r == s && x == y
  {
    hide Live;
    assert Serves(fs, host, path, r) && Serves(fs, host, path, s);
    PrefixesBySize(path, r, s);
  }

  /** A file of the exported tree. */
  predicate FileExists(f: Paths) { !f.writeDeleted && (f.readExists || f.writeExists) }

  /** The file of a path exists exactly when no deletion mark stands at its writable
      place and either that place or a readable directory has it. */
  lemma ExistsThroughLayers(fs: Fs, host: Host, path: string, mode: nat, f: Paths)
    requires Resolved(fs, host, path, mode, f)
    ensures FileExists(f) <==>
            match host.lstat(f.writePath)
            case Present(_, deleted) => !deleted
            case Absent => exists p | p in fs.read && p <= path :: Serves(fs, host, path, p)
  {
    var p, b :| WriteChoice(fs, path, p, b) && ResolvedWrite(host, f)
                && ResolvedRead(fs, host, path, mode, f, p, b);
  }
}
