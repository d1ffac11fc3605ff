/**
 * The callbacks the Sleuthkit binding hands to the parsing library's
 * directory and inode walks: the fan-out of one directory entry into one
 * synthetic entry per NTFS data stream (`listdent_walk_callback_dent` and
 * `listdent_add_dent`), the same fan-out for the unlinked-inode scan
 * (`inode_walk_callback`), and the reverse lookup of a path from an inode
 * (`lookup_path` and `lookup_path_cb`).
 *
 * The library's records are values here: an entry (FS_DENT) with the inode
 * record it points at (FS_INODE), whose attribute list (FS_DATA) is a
 * sequence in the library's order.
 */
module Dents {

  import opened Common
  import opened Identifier

  /** NTFS attribute types of a data stream and of a directory index root. */
  const NTFS_ATYPE_DATA: nat := 0x80
  const NTFS_ATYPE_IDXROOT: nat := 0x90

  /** The directory bit of an entry type, and the type of a regular file. */
  const FS_DENT_DIR: nat := 4
  const FS_DENT_REG: nat := 8

  /** One attribute of an inode: type, id, stream name, in-use flag. */
  datatype Attr = Attr(atype: nat, id: nat, name: string, inUse: bool)

  /** The inode record an entry points at: its address, whether its mode is
      a directory, and its attributes in list order. */
  datatype Meta = Meta(addr: nat, isDir: bool, attrs: seq<Attr>)

  /** A directory entry as the walk reports it; `fsi` is absent when the
      library could not load the inode record. */
  datatype Dent = Dent(name: string, inode: nat, entType: nat, fsi: Option<Meta>)

  /** `struct dentwalk`: one synthetic entry, with the FS_FLAG_NAME_ALLOC bit
      of the walk flags it was reported with. */
  datatype Entry = Entry(path: string, inode: nat, atype: nat, id: nat, entType: nat, alloc: bool)

  /** `ent_type & FS_DENT_DIR`. */
  predicate IsDirType(t: nat) {
    (t / FS_DENT_DIR) % 2 == 1
  }

  /** ISDOT: the names "." and "..". */
  predicate IsDot(name: string) {
    name == "." || name == ".."
  }

  /** The test in front of a directory's data stream: a two-character name
      that starts with a dot. */
  predicate IsDotPair(name: string) {
    |name| == 2 && name[0] == '.'
  }

  /** A named stream other than the default "$Data" data stream or the
      default "$I30" index is shown after a colon. */
  predicate ShowsStreamName(attr: Option<Attr>) {
    && attr.Some?
    && ((attr.value.atype == NTFS_ATYPE_DATA && attr.value.name != "$Data")
        || (attr.value.atype == NTFS_ATYPE_IDXROOT && attr.value.name != "$I30"))
  }

  /** listdent_add_dent: the entry for `d` and one of its attributes (or
      none), typed with `d`'s entry type. */
  function AddDent(d: Dent, attr: Option<Attr>, alloc: bool): (e: Entry)
    ensures e.inode == d.inode && e.entType == d.entType && e.alloc == alloc
    ensures attr.None? ==> e.atype == 0 && e.id == 0
    ensures attr.Some? ==> e.atype == attr.value.atype && e.id == attr.value.id
    ensures ShowsStreamName(attr) <==> e.path != d.name
    ensures ShowsStreamName(attr) ==> e.path == d.name + ":" + attr.value.name
  {
    var suffix := if ShowsStreamName(attr) then ":" + attr.value.name else "";
    assert |d.name + suffix| == |d.name| + |suffix|;
    Entry(d.name + suffix, d.inode, if attr.Some? then attr.value.atype else 0,
          if attr.Some? then attr.value.id else 0, d.entType, alloc)
  }

  /** An attribute that sets `printed`: a data stream or an index root. */
  predicate Printing(a: Attr) {
    a.atype == NTFS_ATYPE_DATA || a.atype == NTFS_ATYPE_IDXROOT
  }

  predicate AnyPrinting(run: seq<Attr>) {
    exists k :: 0 <= k < |run| && Printing(run[k])
  }

  /** The length of the leading run of in-use attributes: the fan-out loop
      stops at the first attribute that is not in use. */
  function RunLength(attrs: seq<Attr>): (n: nat)
    ensures n <= |attrs|
    ensures forall k :: 0 <= k < n ==> attrs[k].inUse
    ensures n == |attrs| || !attrs[n].inUse
  {
    if attrs == [] || !attrs[0].inUse then 0 else 1 + RunLength(attrs[1..])
  }

  /** Where the fan-out loop stopped: the first attribute not in use, or
      none at the end of the list. */
  function StopAttr(attrs: seq<Attr>): (a: Option<Attr>)
    ensures a.None? <==> RunLength(attrs) == |attrs|
    ensures a.None? ==> forall k :: 0 <= k < |attrs| ==> attrs[k].inUse
    ensures a.Some? ==> a.value == attrs[RunLength(attrs)] && !a.value.inUse
  {
    var n := RunLength(attrs);
    if n == |attrs| then None else Some(attrs[n])
  }

  /** The entries one in-use attribute of `d` yields. A data stream of a
      directory is typed as a regular file, and skipped for a two-character
      name that starts with a dot; an index root is skipped for "." and "..". */
  function StreamEntries(d: Dent, isDir: bool, a: Attr, alloc: bool): (es: seq<Entry>)
    ensures |es| <= 1
    ensures es != [] ==> Printing(a) && es[0].atype == a.atype && es[0].id == a.id
  {
    if a.atype == NTFS_ATYPE_DATA then
      if !isDir then [AddDent(d, Some(a), alloc)]
      else if IsDotPair(d.name) then []
      else [AddDent(d.(entType := FS_DENT_REG), Some(a), alloc)]
    else if a.atype == NTFS_ATYPE_IDXROOT then
      if IsDot(d.name) then [] else [AddDent(d, Some(a), alloc)]
    else []
  }

  /** The entries a run of attributes yields, in attribute order. */
  function Streams(d: Dent, isDir: bool, run: seq<Attr>, alloc: bool): seq<Entry>
  {
    if run == [] then []
    else Streams(d, isDir, run[..|run| - 1], alloc) + StreamEntries(d, isDir, run[|run| - 1], alloc)
  }

  /**
   * listdent_walk_callback_dent: the entries appended for one directory
   * entry. On NTFS with an inode record, the stream entries of the leading
   * in-use run, then one fallback entry (with the attribute where the run
   * stopped) when the run holds no data stream and no index root at all.
   * Otherwise one entry without a stream, unless the name is "." or "..".
   */
  function DentEntries(ntfs: bool, d: Dent, alloc: bool): (es: seq<Entry>)
    ensures forall k :: 0 <= k < |es| ==> es[k].inode == d.inode && es[k].alloc == alloc
  {
    if ntfs && d.fsi.Some? then
      var attrs := d.fsi.value.attrs;
      var run := attrs[..RunLength(attrs)];
      StreamsInode(d, d.fsi.value.isDir, run, alloc);
      Streams(d, d.fsi.value.isDir, run, alloc)
      + (if AnyPrinting(run) then [] else [AddDent(d, StopAttr(attrs), alloc)])
    else if IsDot(d.name) then []
    else [AddDent(d, None, alloc)]
  }

  lemma {:induction false} StreamsInode(d: Dent, isDir: bool, run: seq<Attr>, alloc: bool)
    ensures forall e :: e in Streams(d, isDir, run, alloc) ==> e.inode == d.inode && e.alloc == alloc
  {
    if run != [] {
      StreamsInode(d, isDir, run[..|run| - 1], alloc);
    }
  }

  /** The callback as the source runs it: on NTFS a loop over the
      attributes with a `printed` flag (see StreamsLoop), appending to the
      walk's list. */
  method ListdentCallback(ntfs: bool, d: Dent, alloc: bool, list: seq<Entry>)
    returns (list': seq<Entry>)
    ensures list' == list + DentEntries(ntfs, d, alloc)
  {
    // the entries this call appends to the walk's list
    var added: seq<Entry> := [];
    if ntfs && d.fsi.Some? {
      var attrs := d.fsi.value.attrs;
      var printed, i;
      added, printed, i := StreamsLoop(d, d.fsi.value.isDir, attrs, alloc);
      var stop := if i < |attrs| then Some(attrs[i]) else None;
      if !printed {
        added := added + [AddDent(d, stop, alloc)];
      }
    } else if !IsDot(d.name) {
      added := added + [AddDent(d, None, alloc)];
    }
    list' := list + added;
  }

  /** The attribute loop of listdent_walk_callback_dent: it stops at the first
      attribute not in use, skips a directory's data stream for a
      two-character dot name, and sets `printed` for every data stream or
      index root. */
  method StreamsLoop(d: Dent, isDir: bool, attrs: seq<Attr>, alloc: bool)
    returns (added: seq<Entry>, printed: bool, i: nat)
    ensures i == RunLength(attrs)
    ensures added == Streams(d, isDir, attrs[..i], alloc)
    ensures printed <==> AnyPrinting(attrs[..i])
  {
    added, printed, i := [], false, 0;
    while i < |attrs| && attrs[i].inUse
      invariant 0 <= i <= RunLength(attrs)
      invariant added == Streams(d, isDir, attrs[..i], alloc)
      invariant printed <==> AnyPrinting(attrs[..i])
    {
      var a := attrs[i];
      RunStep(d, isDir, attrs, i, alloc);
      if a.atype == NTFS_ATYPE_DATA {
        printed := true;
        if isDir {
          if IsDotPair(d.name) {
            i := i + 1;
            continue;
          }
          added := added + [AddDent(d.(entType := FS_DENT_REG), Some(a), alloc)];
        } else {
          added := added + [AddDent(d, Some(a), alloc)];
        }
      } else if a.atype == NTFS_ATYPE_IDXROOT {
        printed := true;
        if !IsDot(d.name) {
          added := added + [AddDent(d, Some(a), alloc)];
        }
      }
      i := i + 1;
    }
  }

  /** One more attribute of the run: its entries come after the others, and
      it sets `printed` when it is a data stream or an index root. */
  lemma RunStep(d: Dent, isDir: bool, attrs: seq<Attr>, i: nat, alloc: bool)
    requires i < |attrs|
    ensures Streams(d, isDir, attrs[..i + 1], alloc)
            == Streams(d, isDir, attrs[..i], alloc) + StreamEntries(d, isDir, attrs[i], alloc)
    ensures AnyPrinting(attrs[..i + 1]) <==> AnyPrinting(attrs[..i]) || Printing(attrs[i])
  {
    var run := attrs[..i + 1];
    assert run[..i] == attrs[..i];
    assert run[i] == attrs[i];
    if AnyPrinting(run) && !Printing(attrs[i]) {
      var k :| 0 <= k < |run| && Printing(run[k]);
      assert attrs[..i][k] == run[k];
    }
    if AnyPrinting(attrs[..i]) {
      var k :| 0 <= k < i && Printing(attrs[..i][k]);
      assert run[k] == attrs[..i][k];
    }
  }

  /** Every stream entry comes from an in-use attribute of the run that is a
      data stream or an index root, and carries its type and id. */
  lemma {:induction false} StreamsFromRun(d: Dent, isDir: bool, run: seq<Attr>, alloc: bool, e: Entry)
    requires e in Streams(d, isDir, run, alloc)
    ensures exists k :: 0 <= k < |run| && Printing(run[k])
              && e.atype == run[k].atype && e.id == run[k].id
  {
    var init, last := run[..|run| - 1], run[|run| - 1];
    if e in Streams(d, isDir, init, alloc) {
      StreamsFromRun(d, isDir, init, alloc, e);
      var k :| 0 <= k < |init| && Printing(init[k]) && e.atype == init[k].atype && e.id == init[k].id;
      assert run[k] == init[k];
    } else {
      assert e in StreamEntries(d, isDir, last, alloc);
      assert run[|run| - 1] == last;
    }
  }

  /** The data stream of a directory inode is never presented as a
      directory: its entry is typed as a regular file. */
  lemma {:induction false} DirectoryDataIsRegular(d: Dent, run: seq<Attr>, alloc: bool, e: Entry)
    requires e in Streams(d, true, run, alloc) && e.atype == NTFS_ATYPE_DATA
    ensures e.entType == FS_DENT_REG && !IsDirType(e.entType)
  {
    var init, last := run[..|run| - 1], run[|run| - 1];
    if e in Streams(d, true, init, alloc) {
      DirectoryDataIsRegular(d, init, alloc, e);
    }
  }

  /** A run yields at most one entry per attribute; without directories and
      dot names, exactly one per data stream or index root. */
  lemma {:induction false} StreamsCount(d: Dent, isDir: bool, run: seq<Attr>, alloc: bool)
    ensures |Streams(d, isDir, run, alloc)| <= |run|
    ensures !isDir && !IsDot(d.name) ==>
              |Streams(d, isDir, run, alloc)| == CountPrinting(run)
    ensures |Streams(d, isDir, run, alloc)| <= CountPrinting(run)
    ensures |Streams(d, isDir, run, alloc)|
            == (if isDir && IsDotPair(d.name) then 0 else CountType(run, NTFS_ATYPE_DATA))
               + (if IsDot(d.name) then 0 else CountType(run, NTFS_ATYPE_IDXROOT))
  {
    if run != [] {
      StreamsCount(d, isDir, run[..|run| - 1], alloc);
    }
  }

  function CountPrinting(run: seq<Attr>): nat
  {
    if run == [] then 0
    else CountPrinting(run[..|run| - 1]) + (if Printing(run[|run| - 1]) then 1 else 0)
  }

  /** The number of attributes of type `t` in a run. */
  function CountType(run: seq<Attr>, t: nat): nat
  {
    if run == [] then 0
    else CountType(run[..|run| - 1], t) + (if run[|run| - 1].atype == t then 1 else 0)
  }

  /** The dot-name rules: the data streams of a directory whose name is two
      characters starting with '.' are not listed, and the index roots of "."
      and ".." are not listed; every other data stream or index root is. */
  lemma {:induction false} DotNameStreams(d: Dent, isDir: bool, run: seq<Attr>, alloc: bool)
    ensures isDir && IsDotPair(d.name) ==>
              forall e :: e in Streams(d, isDir, run, alloc) ==> e.atype != NTFS_ATYPE_DATA
    ensures IsDot(d.name) ==>
              forall e :: e in Streams(d, isDir, run, alloc) ==> e.atype != NTFS_ATYPE_IDXROOT
    ensures forall k :: 0 <= k < |run| && run[k].atype == NTFS_ATYPE_DATA
                        && !(isDir && IsDotPair(d.name)) ==>
              AddDent(if isDir then d.(entType := FS_DENT_REG) else d, Some(run[k]), alloc)
                in Streams(d, isDir, run, alloc)
    ensures forall k :: 0 <= k < |run| && run[k].atype == NTFS_ATYPE_IDXROOT && !IsDot(d.name) ==>
              AddDent(d, Some(run[k]), alloc) in Streams(d, isDir, run, alloc)
  {
    if run != [] {
      var init := run[..|run| - 1];
      DotNameStreams(d, isDir, init, alloc);
      assert Streams(d, isDir, run, alloc)
             == Streams(d, isDir, init, alloc) + StreamEntries(d, isDir, run[|run| - 1], alloc);
      forall k | 0 <= k < |init|
        ensures run[k] == init[k]
      {
      }
    }
  }

  /** The fallback: on NTFS an entry whose in-use run has no data stream and
      no index root still yields exactly one entry, typed from the attribute
      where the run stopped (none at the end of the list); a run that has one
      yields its stream entries and no fallback. */
  lemma FallbackEntry(d: Dent, alloc: bool)
    requires d.fsi.Some?
    ensures var attrs := d.fsi.value.attrs;
      var run := attrs[..RunLength(attrs)];
      && (!AnyPrinting(run) ==> DentEntries(true, d, alloc) == [AddDent(d, StopAttr(attrs), alloc)])
      && (AnyPrinting(run) ==> DentEntries(true, d, alloc) == Streams(d, d.fsi.value.isDir, run, alloc))
  {
    var run := d.fsi.value.attrs[..RunLength(d.fsi.value.attrs)];
    if !AnyPrinting(run) {
      NoPrintingNoStreams(d, d.fsi.value.isDir, run, alloc);
    }
  }

  lemma {:induction false} NoPrintingNoStreams(d: Dent, isDir: bool, run: seq<Attr>, alloc: bool)
    requires !AnyPrinting(run)
    ensures Streams(d, isDir, run, alloc) == []
  {
    if run != [] {
      var init := run[..|run| - 1];
      assert !AnyPrinting(init) by {
        forall k | 0 <= k < |init| ensures !Printing(init[k]) {
          assert init[k] == run[k];
        }
      }
      NoPrintingNoStreams(d, isDir, init, alloc);
      assert !Printing(run[|run| - 1]);
    }
  }

  /** Without NTFS streams there is one entry, with type and id 0 and the
      plain name, except for "." and "..", which yield none. */
  lemma PlainEntry(ntfs: bool, d: Dent, alloc: bool)
    requires !ntfs || d.fsi.None?
    ensures IsDot(d.name) <==> DentEntries(ntfs, d, alloc) == []
    ensures !IsDot(d.name) ==>
              DentEntries(ntfs, d, alloc) == [Entry(d.name, d.inode, 0, 0, d.entType, alloc)]
  {
  }

  /** `skfs_inode`: a stream identifier and the allocation flag. */
  datatype InodeRef = InodeRef(stream: StreamId, alloc: bool)

  /** The identifiers of the in-use data streams among `attrs`, in order. */
  function DataStreams(addr: nat, attrs: seq<Attr>, alloc: bool): seq<InodeRef>
  {
    if attrs == [] then []
    else
      var a := attrs[|attrs| - 1];
      DataStreams(addr, attrs[..|attrs| - 1], alloc)
      + (if a.inUse && a.atype == NTFS_ATYPE_DATA then [InodeRef(StreamId(addr, a.atype, a.id), alloc)] else [])
  }

  /** inode_walk_callback: on NTFS one identifier per in-use data stream
      (every attribute is visited; those not in use are skipped); elsewhere
      one identifier with type and id 0. */
  function InodeEntries(ntfs: bool, m: Meta, alloc: bool): seq<InodeRef>
  {
    if ntfs then DataStreams(m.addr, m.attrs, alloc)
    else [InodeRef(StreamId(m.addr, 0, 0), alloc)]
  }

  method InodeWalkCallback(ntfs: bool, m: Meta, alloc: bool, list: seq<InodeRef>)
    returns (list': seq<InodeRef>)
    ensures list' == list + InodeEntries(ntfs, m, alloc)
  {
    list' := list;
    if ntfs {
      var i := 0;
      while i < |m.attrs|
        invariant 0 <= i <= |m.attrs|
        invariant list' == list + DataStreams(m.addr, m.attrs[..i], alloc)
      {
        var a := m.attrs[i];
        assert m.attrs[..i + 1][..i] == m.attrs[..i];
        if !a.inUse {
          i := i + 1;
          continue;
        }
        if a.atype == NTFS_ATYPE_DATA {
          list' := list' + [InodeRef(StreamId(m.addr, a.atype, a.id), alloc)];
        }
        i := i + 1;
      }
      assert m.attrs[..i] == m.attrs;
    } else {
      list' := list' + [InodeRef(StreamId(m.addr, 0, 0), alloc)];
    }
  }

  /** Every identifier of the scan names an in-use data stream of the inode,
      and every in-use data stream has one. */
  lemma {:induction false} DataStreamsExact(addr: nat, attrs: seq<Attr>, alloc: bool)
    ensures forall r :: r in DataStreams(addr, attrs, alloc) ==>
              r.alloc == alloc && r.stream.inode == addr && r.stream.atype == NTFS_ATYPE_DATA
              && exists k :: 0 <= k < |attrs| && attrs[k].inUse && attrs[k].atype == NTFS_ATYPE_DATA
                             && attrs[k].id == r.stream.id
    ensures forall k :: 0 <= k < |attrs| && attrs[k].inUse && attrs[k].atype == NTFS_ATYPE_DATA ==>
              InodeRef(StreamId(addr, NTFS_ATYPE_DATA, attrs[k].id), alloc) in DataStreams(addr, attrs, alloc)
  {
    if attrs != [] {
      var init := attrs[..|attrs| - 1];
      DataStreamsExact(addr, init, alloc);
      forall r | r in DataStreams(addr, attrs, alloc)
        ensures exists k :: 0 <= k < |attrs| && attrs[k].inUse && attrs[k].atype == NTFS_ATYPE_DATA
                             && attrs[k].id == r.stream.id
      {
        if r in DataStreams(addr, init, alloc) {
          var k :| 0 <= k < |init| && init[k].inUse && init[k].atype == NTFS_ATYPE_DATA
                   && init[k].id == r.stream.id;
          assert attrs[k] == init[k];
        } else {
          assert attrs[|attrs| - 1].id == r.stream.id;
        }
      }
      forall k | 0 <= k < |attrs| && attrs[k].inUse && attrs[k].atype == NTFS_ATYPE_DATA
        ensures InodeRef(StreamId(addr, NTFS_ATYPE_DATA, attrs[k].id), alloc) in DataStreams(addr, attrs, alloc)
      {
        if k < |init| {
          assert attrs[k] == init[k];
        }
      }
    }
  }

  /** One entry a path-finding walk reports: the directory it was found in
      (relative to the root, with a trailing '/'), its name and inode. */
  datatype Located = Located(dir: string, name: string, inode: nat)

  /** What the walk lookup_path runs reports, in order, and whether it
      failed after reporting them (it stops at the first match, so a match
      means it did not fail). */
  datatype PathWalk = PathWalk(reports: seq<Located>, failed: bool)

  datatype PathLookup = Found(path: string) | NotFound | LookupError

  /** The index of the first report naming `inode`. */
  function FirstMatch(reports: seq<Located>, inode: nat): (k: Option<nat>)
    ensures k.Some? ==> k.value < |reports| && reports[k.value].inode == inode
                        && forall j :: 0 <= j < k.value ==> reports[j].inode != inode
    ensures k.None? ==> forall j :: 0 <= j < |reports| ==> reports[j].inode != inode
  {
    if reports == [] then None
    else if reports[0].inode == inode then Some(0)
    else
      var k := FirstMatch(reports[1..], inode);
      if k.Some? then Some(k.value + 1) else None
  }

  /**
   * lookup_path: the root inode is "/" without a walk; otherwise the first
   * report of the walk that names the inode gives "/" + its directory + its
   * name, and without one the result says whether the walk failed.
   */
  function LookupPath(rootInum: nat, inode: nat, walk: PathWalk): (r: PathLookup)
    ensures inode == rootInum ==> r == Found("/")
    ensures inode != rootInum ==>
              (r.Found? <==> exists j :: 0 <= j < |walk.reports| && walk.reports[j].inode == inode)
    ensures inode != rootInum && r.Found? ==>
              exists k :: 0 <= k < |walk.reports| && walk.reports[k].inode == inode
                          && r.path == "/" + walk.reports[k].dir + walk.reports[k].name
                          && forall j :: 0 <= j < k ==> walk.reports[j].inode != inode
    ensures r == LookupError <==> inode != rootInum && walk.failed
                                  && forall j :: 0 <= j < |walk.reports| ==> walk.reports[j].inode != inode
  {
    if inode == rootInum then Found("/")
    else
      var k := FirstMatch(walk.reports, inode);
      if k.Some? then Found("/" + walk.reports[k.value].dir + walk.reports[k.value].name)
      else if walk.failed then LookupError
      else NotFound
  }
}
