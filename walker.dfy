/**
 * `skfs.walk`: a resumable depth-first walk over the directory tree, like
 * Python's `os.walk`. The walker keeps a stack of directories still to
 * list (the `walklist`); each step lists the directory on top through the
 * library's directory walk and the fan-out callback, reports its
 * directories and files, pushes the allocated subdirectories and drops the
 * directory it listed.
 *
 * The stack is a sequence whose LAST element is the head of `walklist`,
 * the entry a step takes next.
 */
module Walker {

  import opened Common
  import opened Identifier
  import opened Dents

  /** The FS_FLAG_NAME_ALLOC / FS_FLAG_NAME_UNALLOC choice passed to the
      library's directory walk. */
  datatype WalkFlags = WalkFlags(alloc: bool, unalloc: bool)

  /** One entry the directory walk reports to the callback, with the
      FS_FLAG_NAME_ALLOC bit of its flags. */
  datatype Reported = Reported(dent: Dent, alloc: bool)

  /** What the library's directory walk of one directory does: report its
      entries in order, or end with the library's error flag set. */
  datatype Scan = Scanned(dents: seq<Reported>) | ScanError

  /**
   * The parts of the opened filesystem the walk consults: whether it is
   * NTFS, the root inode, the directory walk, the path-to-inode lookup
   * (`lookup_inode`, 0 when not found), and the reports of the walk that
   * `lookup_path` runs for an inode.
   */
  datatype FileSystem = FileSystem(
    ntfs: bool,
    rootInum: nat,
    dentWalk: (nat, WalkFlags) -> Scan,
    lookupInode: string -> nat,
    pathWalk: nat -> PathWalk)

  /** How one entry is reported, following the names/inodes choice: the
      identifier with the path, the identifier alone, the path alone, or
      nothing. */
  datatype Item = Both(ref: InodeRef, name: string) | InodeOnly(ref: InodeRef) | NameOnly(name: string) | NoItem

  /** What one step of the iterator gives. */
  datatype Step =
    | Done
    | WalkError
    | Yield(root: Item, dirs: seq<Item>, files: seq<Item>)

  function RefOf(e: Entry): InodeRef {
    InodeRef(StreamId(e.inode, e.atype, e.id), e.alloc)
  }

  function Project(names: bool, inodes: bool, e: Entry): (it: Item)
    ensures it == NoItem <==> !names && !inodes
    ensures names && inodes ==> it.Both?
    ensures inodes && !names ==> it.InodeOnly?
    ensures names && !inodes ==> it.NameOnly?
    ensures it.Both? || it.InodeOnly? ==> it.ref == RefOf(e)
    ensures it.Both? || it.NameOnly? ==> it.name == e.path
  {
    if inodes && names then Both(RefOf(e), e.path)
    else if inodes then InodeOnly(RefOf(e))
    else if names then NameOnly(e.path)
    else NoItem
  }

  /** The list the directory walk builds: the callback's entries for each
      reported entry, in order. */
  function Listing(ntfs: bool, rs: seq<Reported>): seq<Entry>
  {
    if rs == [] then []
    else Listing(ntfs, rs[..|rs| - 1]) + DentEntries(ntfs, rs[|rs| - 1].dent, rs[|rs| - 1].alloc)
  }

  /** The library's directory walk calling the fan-out callback for each
      entry in turn. */
  method DentWalk(ntfs: bool, rs: seq<Reported>) returns (list: seq<Entry>)
    ensures list == Listing(ntfs, rs)
  {
    list := [];
    var i := 0;
    while i < |rs|
      invariant 0 <= i <= |rs|
      invariant list == Listing(ntfs, rs[..i])
    {
      assert rs[..i + 1][..i] == rs[..i];
      list := ListdentCallback(ntfs, rs[i].dent, rs[i].alloc, list);
      i := i + 1;
    }
    assert rs[..i] == rs;
  }

  /** The path a pushed subdirectory gets: "/" + name under the root path
      "/", parent + "/" + name under any other. */
  function JoinPath(parent: string, name: string): (p: string)
    ensures |p| == |name| + 1 + (if parent == "/" then 0 else |parent|)
    ensures p[|p| - |name|..] == name && p[|p| - |name| - 1] == '/'
    ensures parent != "/" ==> p[..|parent|] == parent
  {
    var p := if parent == "/" then "/" + name else parent + "/" + name;
    assert p[|p| - |name|..] == name;
    assert parent != "/" ==> p[..|parent|] == parent;
    p
  }

  /** The reported items of the directories, or of the files, of a list. */
  function Items(names: bool, inodes: bool, es: seq<Entry>, dirs: bool): seq<Item>
  {
    if es == [] then []
    else
      var e := es[|es| - 1];
      Items(names, inodes, es[..|es| - 1], dirs)
      + (if IsDirType(e.entType) == dirs && (names || inodes) then [Project(names, inodes, e)] else [])
  }

  /** The entries a step pushes: the allocated directories, in list order,
      with their paths joined to the parent's. */
  function Pushed(parent: string, es: seq<Entry>): (p: seq<Entry>)
    ensures |p| <= |es|
    ensures forall k :: 0 <= k < |p| ==> IsDirType(p[k].entType) && p[k].alloc
  {
    if es == [] then []
    else
      var e := es[|es| - 1];
      Pushed(parent, es[..|es| - 1])
      + (if IsDirType(e.entType) && e.alloc then [e.(path := JoinPath(parent, e.path))] else [])
  }

  /** The entry a walk starts from (type and id 0, allocated): the inode
      given, or the one the path names; the path given, or the one the
      reverse lookup finds (empty when it finds none). */
  function RootEntry(fs: FileSystem, path: Option<string>, inode: nat): (e: Entry)
    requires inode != 0 || path.Some?
    ensures e.atype == 0 && e.id == 0 && e.alloc
    ensures inode != 0 ==> e.inode == inode
    ensures inode == 0 ==> e.inode == fs.lookupInode(path.value)
    ensures path.Some? ==> e.path == path.value
    ensures path.None? ==>
              var found := LookupPath(fs.rootInum, e.inode, fs.pathWalk(e.inode));
              && (found.Found? ==> e.path == found.path)
              && (!found.Found? ==> e.path == "")
    ensures path.None? && e.inode == fs.rootInum ==> e.path == "/"
  {
    var ino := if inode == 0 then fs.lookupInode(path.value) else inode;
    var p := if path.Some? then path.value
             else match LookupPath(fs.rootInum, ino, fs.pathWalk(ino))
               case Found(q) => q
               case _ => "";
    Entry(p, ino, 0, 0, 0, true)
  }

  class Walker {
    const fs: FileSystem
    const flags: WalkFlags
    const names: bool
    const inodes: bool
    /** The directories still to list; the last one is listed next. */
    var stack: seq<Entry>

    constructor(fs: FileSystem, flags: WalkFlags, names: bool, inodes: bool, root: Entry)
      ensures this.fs == fs && this.flags == flags
      ensures this.names == names && this.inodes == inodes
      ensures stack == [root]
    {
      this.fs := fs;
      this.flags := flags;
      this.names := names;
      this.inodes := inodes;
      stack := [root];
    }

    /**
     * skfs_walkiter_iternext. An empty stack ends the walk. Otherwise the
     * top directory is listed; on a listing error the step fails and the
     * stack is left as it was, so the next step lists the same directory.
     * Otherwise every directory entry is reported among the directories and
     * every other among the files, the allocated directories are pushed in
     * list order (the last one ends on top) and the listed directory is
     * removed.
     */
    method Next() returns (s: Step)
      modifies this`stack
      ensures old(stack) == [] ==> s == Done && stack == []
      ensures old(stack) != [] ==>
        var top := old(stack)[|old(stack)| - 1];
        match fs.dentWalk(top.inode, flags)
        case ScanError => s == WalkError && stack == old(stack)
        case Scanned(rs) =>
          var es := Listing(fs.ntfs, rs);
          && s == Yield(Project(names, inodes, top), Items(names, inodes, es, true),
                        Items(names, inodes, es, false))
          && stack == old(stack)[..|old(stack)| - 1] + Pushed(top.path, es)
    {
      if stack == [] {
        return Done;
      }
      var n := |stack|;
      var dw := stack[n - 1];
      var scan := fs.dentWalk(dw.inode, flags);
      if scan.ScanError? {
        return WalkError;
      }
      var es := DentWalk(fs.ntfs, scan.dents);
      var dirs, files, pushed := Sort(names, inodes, dw.path, es);
      // the pushed directories go on top of the listed one, which is then
      // taken out from under them
      ghost var before := stack;
      stack := stack + pushed;
      TakeOutUnder(before, pushed);
      stack := stack[..n - 1] + stack[n..];
      s := Yield(Project(names, inodes, dw), dirs, files);
    }
  }

  /** The loop of skfs_walkiter_iternext over the listed entries: each
      directory is reported among the directories and, when allocated,
      pushed under its joined path; every other entry among the files. */
  method Sort(names: bool, inodes: bool, parent: string, es: seq<Entry>)
    returns (dirs: seq<Item>, files: seq<Item>, pushed: seq<Entry>)
    ensures dirs == Items(names, inodes, es, true)
    ensures files == Items(names, inodes, es, false)
    ensures pushed == Pushed(parent, es)
  {
    dirs, files, pushed := [], [], [];
    var i := 0;
    while i < |es|
      invariant 0 <= i <= |es|
      invariant dirs == Items(names, inodes, es[..i], true)
      invariant files == Items(names, inodes, es[..i], false)
      invariant pushed == Pushed(parent, es[..i])
    {
      var e := es[i];
      ListStep(names, inodes, parent, es, i);
      var item := Project(names, inodes, e);
      if IsDirType(e.entType) {
        if inodes || names {
          dirs := dirs + [item];
        }
        if e.alloc {
          pushed := pushed + [e.(path := JoinPath(parent, e.path))];
        }
      } else {
        if inodes || names {
          files := files + [item];
        }
      }
      i := i + 1;
    }
    assert es[..i] == es;
  }

  /**
   * skfs_walkiter_init: fails only when neither an inode nor a path is
   * given; otherwise the stack holds the root entry alone.
   */
  method Start(fs: FileSystem, path: Option<string>, inode: nat, alloc: bool, unalloc: bool,
               names: bool, inodes: bool)
    returns (w: Option<Walker>)
    ensures w.None? <==> inode == 0 && path.None?
    ensures w.Some? ==> fresh(w.value) && w.value.fs == fs
                        && w.value.flags == WalkFlags(alloc, unalloc)
                        && w.value.names == names && w.value.inodes == inodes
                        && w.value.stack == [RootEntry(fs, path, inode)]
  {
    if inode == 0 && path.None? {
      return None;
    }
    var ino := if inode == 0 then fs.lookupInode(path.value) else inode;
    var p: string;
    if path.None? {
      var found := LookupPath(fs.rootInum, ino, fs.pathWalk(ino));
      p := if found.Found? then found.path else "";
    } else {
      p := path.value;
    }
    var root := Entry(p, ino, 0, 0, 0, true);
    var walker := new Walker(fs, WalkFlags(alloc, unalloc), names, inodes, root);
    return Some(walker);
  }

  /** Removing the element just below what was appended leaves the rest of
      the old sequence followed by the appended part. */
  lemma TakeOutUnder<T>(st: seq<T>, pushed: seq<T>)
    requires |st| > 0
    ensures var all := st + pushed;
      all[..|st| - 1] + all[|st|..] == st[..|st| - 1] + pushed
  {
    var all := st + pushed;
    assert all[..|st| - 1] == st[..|st| - 1];
    assert all[|st|..] == pushed;
  }

  /** One more entry of the list: what it adds to each output. */
  lemma ListStep(names: bool, inodes: bool, parent: string, es: seq<Entry>, i: nat)
    requires i < |es|
    ensures var e := es[i];
      && Items(names, inodes, es[..i + 1], true) == Items(names, inodes, es[..i], true)
           + (if IsDirType(e.entType) && (names || inodes) then [Project(names, inodes, e)] else [])
      && Items(names, inodes, es[..i + 1], false) == Items(names, inodes, es[..i], false)
           + (if !IsDirType(e.entType) && (names || inodes) then [Project(names, inodes, e)] else [])
      && Pushed(parent, es[..i + 1]) == Pushed(parent, es[..i])
           + (if IsDirType(e.entType) && e.alloc then [e.(path := JoinPath(parent, e.path))] else [])
  {
    assert es[..i + 1][..i] == es[..i];
    assert es[..i + 1][i] == es[i];
  }

  /** Every entry is reported exactly once, among the directories or among
      the files, whenever names or inodes are asked for. */
  lemma {:induction false} ItemsPartition(names: bool, inodes: bool, es: seq<Entry>)
    requires names || inodes
    ensures |Items(names, inodes, es, true)| + |Items(names, inodes, es, false)| == |es|
    ensures |Items(names, inodes, es, true)| == CountKind(es, true)
    ensures |Items(names, inodes, es, false)| == CountKind(es, false)
  {
    if es != [] {
      ItemsPartition(names, inodes, es[..|es| - 1]);
    }
  }

  /** The number of directories (`dirs`) or of other entries (`!dirs`) in a
      list. */
  function CountKind(es: seq<Entry>, dirs: bool): nat
  {
    if es == [] then 0
    else CountKind(es[..|es| - 1], dirs) + (if IsDirType(es[|es| - 1].entType) == dirs then 1 else 0)
  }

  /** Where each entry is reported: a directory is the item after the
      directories before it in the directory list, and any other entry the
      item after the other entries before it in the file list. */
  lemma {:induction false} ItemsPlacement(names: bool, inodes: bool, es: seq<Entry>, dirs: bool)
    requires names || inodes
    ensures forall k :: 0 <= k < |es| && IsDirType(es[k].entType) == dirs ==>
              && CountKind(es[..k], dirs) < |Items(names, inodes, es, dirs)|
              && Items(names, inodes, es, dirs)[CountKind(es[..k], dirs)] == Project(names, inodes, es[k])
  {
    if es != [] {
      var init, last := es[..|es| - 1], es[|es| - 1];
      ItemsPlacement(names, inodes, init, dirs);
      ItemsPartition(names, inodes, init);
      var items, items0 := Items(names, inodes, es, dirs), Items(names, inodes, init, dirs);
      assert items == items0 + (if IsDirType(last.entType) == dirs then [Project(names, inodes, last)] else []);
      forall k | 0 <= k < |es| && IsDirType(es[k].entType) == dirs
        ensures CountKind(es[..k], dirs) < |items| && items[CountKind(es[..k], dirs)] == Project(names, inodes, es[k])
      {
        if k < |init| {
          assert es[..k] == init[..k] && es[k] == init[k];
          var j := CountKind(init[..k], dirs);
          assert j < |items0| && items0[j] == Project(names, inodes, init[k]);
          assert items[j] == items0[j];
        } else {
          assert es[..k] == init;
          assert CountKind(init, dirs) == |items0|;
        }
      }
    }
  }

  /** Only allocated directories are pushed, each under its parent's path,
      and every allocated directory of the list is pushed. */
  lemma {:induction false} PushedExact(parent: string, es: seq<Entry>)
    ensures forall p :: p in Pushed(parent, es) ==>
              IsDirType(p.entType) && p.alloc
              && exists k :: 0 <= k < |es| && p == es[k].(path := JoinPath(parent, es[k].path))
    ensures forall k :: 0 <= k < |es| && IsDirType(es[k].entType) && es[k].alloc ==>
              es[k].(path := JoinPath(parent, es[k].path)) in Pushed(parent, es)
  {
    if es != [] {
      var init := es[..|es| - 1];
      PushedExact(parent, init);
      forall p | p in Pushed(parent, es)
        ensures exists k :: 0 <= k < |es| && p == es[k].(path := JoinPath(parent, es[k].path))
      {
        if p in Pushed(parent, init) {
          var k :| 0 <= k < |init| && p == init[k].(path := JoinPath(parent, init[k].path));
          assert es[k] == init[k];
        } else {
          assert p == es[|es| - 1].(path := JoinPath(parent, es[|es| - 1].path));
        }
      }
      forall k | 0 <= k < |es| && IsDirType(es[k].entType) && es[k].alloc
        ensures es[k].(path := JoinPath(parent, es[k].path)) in Pushed(parent, es)
      {
        if k < |init| {
          assert es[k] == init[k];
        }
      }
    }
  }

  /** A pushed path starts with '/' whenever the parent's does, so every
      path of a walk from an absolute start stays absolute. */
  lemma JoinPathShape(parent: string, name: string)
    requires |parent| > 0 && parent[0] == '/'
    ensures JoinPath(parent, name)[0] == '/'
  {
    var p := JoinPath(parent, name);
    if parent != "/" {
      assert p[0] == p[..|parent|][0];
    }
  }
}
