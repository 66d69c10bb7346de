/**
 The pool of open file descriptors: a priority queue in an array, every file knowing
 its own position, trimmed to a limit by mutually recursive updates and removals.
 */
module FileLru {

  class File {
    var index: int       // position in the queue, -1 when absent
    var used: int        // time of last use
    var readFd: int      // -1 when closed
    var writeFd: int

    constructor ()
      ensures index == -1 && readFd == -1 && writeFd == -1
    {
      index, used, readFd, writeFd := -1, 0, -1, -1;
    }

    predicate Closed() reads this { readFd == -1 && writeFd == -1 }
  }

  /** Every entry knows its position, so no file is queued twice. */
  lemma NoDuplicates(lru: seq<File>)
    requires forall i | 0 <= i < |lru| :: lru[i].index == i
    ensures forall i, j | 0 <= i < j < |lru| :: lru[i] != lru[j]
  {
  }

  ghost function Members(lru: seq<File>): set<File> { set f | f in lru }

  class Fs {
    const fdlimit: nat
    var lru: seq<File>
    ghost var files: set<File>

    /** Queue and positions agree, except for files about to be marked absent. */
    ghost predicate Indexed(except: set<File>)
      reads this, files
    {
      && (forall i | 0 <= i < |lru| :: lru[i] in files && lru[i] !in except && lru[i].index == i)
      && (forall f | f in files && f !in except :: f.index == -1 || (0 <= f.index < |lru| && lru[f.index] == f))
    }

    /** Only queued files hold descriptors. */
    ghost predicate OpenQueued(except: set<File>)
      reads this, files
    {
      forall f | f in files && f !in except :: f in Members(lru) || f.Closed()
    }

    constructor (limit: nat)
      ensures fdlimit == limit && lru == [] && files == {} && Indexed({}) && OpenQueued({})
    {
      fdlimit, lru, files := limit, [], {};
    }

    method SwapLru(i1: nat, i2: nat, ghost except: set<File>)
      requires Indexed(except) && i1 < |lru| && i2 < |lru|
      modifies this`lru, files`index
      ensures Indexed(except) && lru == old(lru)[i1 := old(lru)[i2]][i2 := old(lru)[i1]]
    {
      var older := lru[i1];
      lru := lru[i1 := lru[i2]];
      lru[i1].index := i1;
      lru := lru[i2 := older];
      lru[i2].index := i2;
    }

    /** No queued file was used later. */
    ghost predicate Newest(file: File)
      reads this, lru, file
    {
      forall f | f in lru :: f.used <= file.used
    }

    /** Neither file below it in the heap was used earlier. */
    ghost predicate AboveOlder(file: File)
      reads this, lru, file
    {
      && 0 <= file.index < |lru|
      && forall j | j == 2 * file.index || j == 2 * file.index + 1 :: 0 <= j < |lru| ==> file.used <= lru[j].used
    }

    /** Move a queued file up and then down.  The members stay; a file used last
        never moves towards the front. */
    method Bubble(file: File, ghost except: set<File>)
      requires Indexed(except) && file in lru
      modifies this`lru, files`index
      ensures Indexed(except) && Members(lru) == old(Members(lru)) && |lru| == old(|lru|)
      ensures file in lru && (old(Newest(file)) ==> file.index >= old(file.index))
      ensures AboveOlder(file)
    {
      hide Members;
      BubbleUp(file, except);
      BubbleDown(file, except);
    }

    method BubbleUp(file: File, ghost except: set<File>)
      requires Indexed(except) && file in lru
      modifies this`lru, files`index
      ensures Indexed(except) && Members(lru) == old(Members(lru)) && |lru| == old(|lru|)
      ensures file in lru && (old(Newest(file)) ==> file.index >= old(file.index))
      ensures 0 <= file.index < |lru| && (file.index == 0 || lru[file.index / 2].used <= file.used)
    {
      hide Members;
      InMembers(lru);
      var index := file.index;
      while index != 0
        invariant Indexed(except) && 0 <= index < |lru| && lru[index] == file
        invariant Members(lru) == old(Members(lru)) && |lru| == old(|lru|)
        invariant old(Newest(file)) ==> index >= old(file.index)
        decreases index
      {
        if file.used < lru[index / 2].used {
          InMembers(lru);
          SwapKeepsMembers(lru, index, index / 2);
          SwapLru(index, index / 2, except);
          index := index / 2;
        } else {
          break;
        }
      }
    }

    method BubbleDown(file: File, ghost except: set<File>)
      requires Indexed(except) && file in lru
      modifies this`lru, files`index
      ensures Indexed(except) && Members(lru) == old(Members(lru)) && |lru| == old(|lru|)
      ensures file in lru && file.index >= old(file.index)
      ensures AboveOlder(file)
    {
      hide Members;
      var index := file.index;
      while index * 2 < |lru|
        invariant Indexed(except) && old(file.index) <= index < |lru| && lru[index] == file
        invariant Members(lru) == old(Members(lru)) && |lru| == old(|lru|)
        decreases |lru| - index
      {
        var left := index * 2;
        if file.used > lru[left].used {
          SwapKeepsMembers(lru, index, left);
          SwapLru(index, left, except);
          index := left;
        } else if left + 1 < |lru| && file.used > lru[left + 1].used {
          SwapKeepsMembers(lru, index, left + 1);
          SwapLru(index, left + 1, except);
          index := left + 1;
        } else {
          break;
        }
      }
    }

    /** Close a file and take it out of the queue; its place goes to the last file,
        which then finds its own position.  May trim the queue further. */
    method RemoveLru(file: File, ghost except: set<File>)
      requires Indexed(except) && OpenQueued({}) && file in files && file !in except
      modifies this`lru, files`index, files`readFd, files`writeFd
      ensures Indexed(except) && OpenQueued({}) && file.index == -1 && file.Closed()
      ensures Members(lru) <= old(Members(lru)) - {file} && |lru| <= old(|lru|)
      ensures old(|lru|) - 1 <= fdlimit ==> Members(lru) == old(Members(lru)) - {file}
      ensures old(file.index) == 0 ==> |lru| <= fdlimit
      ensures forall f | f in lru && f in files :: f.readFd == old(f.readFd) && f.writeFd == old(f.writeFd)
      decreases |lru|, 0
    {
      hide Members;
      InMembers(lru);
      file.readFd, file.writeFd := -1, -1;
      if file.index != -1 {
        if file.index == |lru| - 1 {
          Truncate(file, except);
        } else {
          var other := SwapOut(file, except);
          UpdateLru(other, except + {file});
        }
        file.index := -1;
      }
    }

    /** Give the place of a file in the middle to the last one. */
    method SwapOut(file: File, ghost except: set<File>) returns (other: File)
      requires Indexed(except) && file in files && file !in except && 0 <= file.index < |lru| - 1
      modifies this`lru, files`index
      ensures Indexed(except + {file}) && |lru| == old(|lru|) - 1
      ensures Members(lru) == old(Members(lru)) - {file}
      ensures other in files && other !in except + {file} && other.index == old(file.index)
    {
      hide Members;
      var at := file.index;
      other := lru[|lru| - 1];
      SwapKeepsMembers(lru, at, |lru| - 1);
      SwapLru(at, |lru| - 1, except);
      assert lru[|lru| - 1] == file && lru[at] == other;
      Truncate(file, except);
    }

    /** Cut off the last entry, whose file is about to be marked absent. */
    method Truncate(file: File, ghost except: set<File>)
      requires Indexed(except) && file in files && file !in except && file.index == |lru| - 1 >= 0
      modifies this`lru
      ensures Indexed(except + {file}) && |lru| == old(|lru|) - 1 && lru == old(lru)[..|lru|]
      ensures Members(lru) == old(Members(lru)) - {file}
    {
      NoDuplicates(lru);
      DropLast(lru);
      lru := lru[..|lru| - 1];
    }

    /** Let a queued file find its position, then trim the queue. */
    method UpdateLru(file: File, ghost except: set<File>)
      requires Indexed(except) && OpenQueued({}) && file in files && file !in except
      modifies this`lru, files`index, files`readFd, files`writeFd
      ensures Indexed(except) && OpenQueued({})
      ensures Members(lru) <= old(Members(lru)) && |lru| <= old(|lru|)
      ensures old(|lru|) <= fdlimit ==> Members(lru) == old(Members(lru))
      ensures old(file.index) != -1 ==> |lru| <= fdlimit
      ensures old(Newest(file)) && old(file.index) >= 1 && old(|lru|) == fdlimit + 1 ==> file in lru
      ensures forall f | f in lru && f in files :: f.readFd == old(f.readFd) && f.writeFd == old(f.writeFd)
      decreases |lru|, 2
    {
      hide Members;
      if file.index == -1 { return; }
      InMembers(lru);
      Bubble(file, except);
      InMembers(lru);
      FlushLru(except);
      InMembers(lru);
    }

    /** Over the limit, remove the file at the front. */
    method FlushLru(ghost except: set<File>)
      requires Indexed(except) && OpenQueued({})
      modifies this`lru, files`index, files`readFd, files`writeFd
      ensures Indexed(except) && OpenQueued({}) && |lru| <= fdlimit
      ensures Members(lru) <= old(Members(lru)) && |lru| <= old(|lru|)
      ensures old(|lru|) <= fdlimit ==> Members(lru) == old(Members(lru))
      ensures old(|lru|) == fdlimit + 1 ==> Members(lru) == old(Members(lru)) - {old(lru)[0]}
      ensures forall f | f in lru && f in files :: f.readFd == old(f.readFd) && f.writeFd == old(f.writeFd)
      decreases |lru|, 1
    {
      if |lru| > fdlimit {
        RemoveLru(lru[0], except);
      }
    }

    /** A file is used at time `now`: queue it if need be, stamp it, reposition, trim.
        On return the limit holds again; if it held before and the clock does not run
        backwards, the file just used is still queued. */
    method TouchLru(file: File, now: int)
      requires Indexed({}) && OpenQueued({file}) && file in files
      modifies this`lru, file`used, files`index, files`readFd, files`writeFd
      ensures Indexed({}) && OpenQueued({}) && |lru| <= fdlimit
      ensures Members(lru) <= old(Members(lru)) + {file}
      ensures fdlimit >= 1 && old(|lru|) <= fdlimit && (forall f | f in old(lru) :: old(f.used) <= now) ==> file in lru
      ensures old(|lru|) < fdlimit ==> Members(lru) == old(Members(lru)) + {file}
      ensures file.used == now
      ensures forall f | f in lru && f in files :: f.readFd == old(f.readFd) && f.writeFd == old(f.writeFd)
    {
      file.used := now;
      if file.index == -1 {
        Push(lru, file);
        lru := lru + [file];
        file.index := |lru| - 1;
      }
      UpdateLru(file, {});
    }

    /** The state between requests. */
    ghost predicate Quiet()
      reads this, files
    {
      Indexed({}) && OpenQueued({}) && |lru| <= fdlimit
    }

    method NewFile() returns (file: File)
      requires Quiet()
      modifies this`files
      ensures Quiet() && files == old(files) + {file} && fresh(file) && lru == old(lru)
    {
      file := new File();
      files := files + {file};
    }

    /** What both lock routines do once a descriptor is open: a queued file may be
        repositioned later, an unqueued one is queued at once. */
    method Opened(file: File, now: int)
      requires Indexed({}) && OpenQueued({file}) && |lru| <= fdlimit && file in files
      modifies this`lru, file`used, files`index, files`readFd, files`writeFd
      ensures Quiet()
      ensures fdlimit >= 1 && (forall f | f in old(lru) :: old(f.used) <= now) ==> file in lru
      ensures forall f | f in lru && f in files :: f.readFd == old(f.readFd) && f.writeFd == old(f.writeFd)
    {
      InMembers(lru);
      if file.index == -1 { TouchLru(file, now); }
    }

    /** Make sure there is a descriptor to read from; `fd` is what the host would open. */
    method LockRead(file: File, fd: int, now: int) returns (ok: bool)
      requires Quiet() && file in files
      modifies this`lru, file`used, files`index, files`readFd, files`writeFd
      ensures Quiet() && (ok <==> old(file.readFd) != -1 || old(file.writeFd) != -1 || fd != -1)
      ensures ok && fdlimit >= 1 && (forall f | f in old(lru) :: old(f.used) <= now) ==> file in lru && file.readFd != -1
    {
      if file.readFd == -1 {
        if file.writeFd != -1 {
          file.readFd := file.writeFd;
        } else if fd != -1 {
          file.readFd := fd;
        } else {
          return false;
        }
      }
      Opened(file, now);
      return true;
    }

    /** Make sure there is a descriptor to write to; one open for reading is replaced. */
    method LockWrite(file: File, fd: int, now: int) returns (ok: bool)
      requires Quiet() && file in files
      modifies this`lru, file`used, files`index, files`readFd, files`writeFd
      ensures Quiet() && (ok <==> old(file.writeFd) != -1 || fd != -1)
      ensures ok && fdlimit >= 1 && (forall f | f in old(lru) :: old(f.used) <= now) ==> file in lru && file.writeFd != -1
    {
      if file.writeFd == -1 {
        if fd == -1 { return false; }
        file.writeFd, file.readFd := fd, -1;
      }
      Opened(file, now);
      return true;
    }

    /** The last reference is gone: close the file and forget it. */
    method Release(file: File)
      requires Quiet() && file in files
      modifies this`lru, files`index, files`readFd, files`writeFd
      ensures Quiet() && file.Closed() && file.index == -1
    {
      RemoveLru(file, {});
    }

    /** Between requests at most `fdlimit` files hold descriptors. */
    lemma DescriptorBound()
      requires Quiet()
      ensures |set f | f in files && !f.Closed()| <= fdlimit
    {
      var open := set f | f in files && !f.Closed();
      assert open <= Members(lru);
      SubsetSize(open, Members(lru));
      MemberCount(lru);
    }
  }

  lemma {:induction false} MemberCount(lru: seq<File>)
    ensures |Members(lru)| <= |lru|
  {
    if lru != [] {
      var front, last := lru[..|lru| - 1], lru[|lru| - 1];
      MemberCount(front);
      assert lru == front + [last];
      Push(front, last);
    }
  }

  lemma {:induction false} SubsetSize(a: set<File>, b: set<File>)
    requires a <= b
    ensures |a| <= |b|
  {
    if a != {} {
      var x :| x in a;
      SubsetSize(a - {x}, b - {x});
    }
  }

  lemma InMembers(lru: seq<File>)
    ensures forall f :: f in lru <==> f in Members(lru)
  {
  }

  lemma DropLast(lru: seq<File>)
    requires |lru| > 0 && forall i, j | 0 <= i < j < |lru| :: lru[i] != lru[j]
    ensures Members(lru[..|lru| - 1]) == Members(lru) - {lru[|lru| - 1]}
  {
    var front, last := lru[..|lru| - 1], lru[|lru| - 1];
    assert lru == front + [last];
  }

  lemma Push(lru: seq<File>, f: File)
    ensures Members(lru + [f]) == Members(lru) + {f}
  {
  }

  lemma SwapKeepsMembers(lru: seq<File>, i: nat, j: nat)
    requires i < |lru| && j < |lru|
    ensures Members(lru[i := lru[j]][j := lru[i]]) == Members(lru)
  {
    var t := lru[i := lru[j]][j := lru[i]];
    forall f | f in lru ensures f in t {
      var k :| 0 <= k < |lru| && lru[k] == f;
      assert t[if k == i then j else if k == j then i else k] == f;
    }
  }
}
