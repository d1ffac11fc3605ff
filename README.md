# PyFlag filesystem readers: Sleuthkit binding and OLE2 reader

This project models two readers of PyFlag's disk-image layer.

**The Sleuthkit binding (`sk.c`).** This is the C extension module that lets Python walk a filesystem through the Sleuthkit library. It covers:

- the stream identifier `inode-type-id` and its parser;
- the callbacks that turn the library's directory, inode and block walks into lists;
- the reverse path lookup;
- the `skfs.walk` iterator, a stack-based depth-first walk like `os.walk`;
- the file object `skfile`, which records a file's blocks (or its resident NTFS data) when it opens, and then reads, seeks and tells.

**The OLE2 compound-document reader (`libole2.py`).** It covers:

- the header check;
- the big-block depot;
- block chains;
- reassembled runs of blocks;
- the property-set directory;
- reading a property's stream (`cat`) and listing a directory (`ls`).

The modules:

- `Common`: bytes and `Option`.
- `BlockArith`: quotient and remainder facts used by the block arithmetic.
- `Identifier`: `parse_inode_str` and the `"%llu-%u-%u"` formatting, with a round trip.
- `FileReader`: `getblocks_walk_callback` and the `skfile` object. `SkFile` is a class whose fields the methods update.
- `Dents`: the directory-entry fan-out callback, the inode walk callback and `lookup_path`.
- `Walker`: `skfs_walkiter_init` and `skfs_walkiter_iternext`. `Walker` is a class whose stack field each step updates.
- `Ole2`: `OLEFile` and `DepotList`.

Library calls that cannot be seen from the binding are parameters of the model:

- the directory walk (the entries it reports, or its error flag);
- `lookup_inode`;
- the walk behind `lookup_path`;
- the image's block reads;
- the UCS-16 name decoding.

Fixed C and Python semantics are written out:

- `strtoull` on LP64 (64-bit, with `ERANGE` saturation and negation modulo 2^64);
- the truncation of `strtoul` into a `uint32_t`;
- Python's negative indexing;
- Python's clamping, and negative slice bounds;
- `LONG` is signed little-endian 32-bit, and `WORD` is unsigned 16-bit.

Where the code and its prose description differ, the model follows the code:

- A walk step whose directory listing fails leaves that directory on the stack (`sk.c:636-644` returns before `list_del`), so the next step lists it again.
- `parse_inode_str` fails only when the inode conversion overflows. Text with no digits gives inode 0, and bad type or id text is accepted.
- `printed` is set by any DATA or IDXROOT attribute in the in-use run, even when the `..` directory's data stream is skipped. The fallback entry therefore appears only when the run has none.
- `skfile_read` does not check the cursor against the size. A cursor past the end makes the clamped length negative, and the Python string constructor then rejects it. The model returns `NegativeLength`. The cursor still moves by that length, which puts it back at the size.
- `read_depot` ignores its `blocksize` argument and uses the class's 0x200.
- `ent_type & FS_DENT_DIR` is a bit test. With FS_DENT_DIR = 4 it also holds for entry types that have that bit set besides directories.

## Model

| member | source | states |
|---|---|---|
| Identifier.StrToUnsigned | src/filesystems/sleuthkit/python/sk.c:270 | the conversion ends inside the text at or after its start; the value fits 64 bits; an overflow gives the largest value |
| Identifier.OptionalField | src/filesystems/sleuthkit/python/sk.c:274-277 | a '-' at the position sets the field to a 32-bit value and moves past it; without a '-' the field and the position are unchanged |
| Identifier.ParseInodeStr | src/filesystems/sleuthkit/python/sk.c:266-280 | fails exactly when the inode conversion overflows; the inode is the converted value; the result fits the C fields when the caller's defaults do; with no '-' after the inode, type and id keep the caller's values |
| Identifier.ParseTypeAfterDash | src/filesystems/sleuthkit/python/sk.c:274-275 | after a '-' that follows the inode, type is the 32-bit truncation of the number converted behind that dash |
| Identifier.ParseIdAfterSecondDash | src/filesystems/sleuthkit/python/sk.c:276-277 | a second '-' right where the type's conversion stopped sets id to the 32-bit truncation of the number converted behind it |
| Identifier.ParseIdWithoutSecondDash | src/filesystems/sleuthkit/python/sk.c:276-277 | without a '-' where the type field stopped, id keeps the caller's value, even when type was overwritten |
| Identifier.Decimal | src/filesystems/sleuthkit/python/sk.c:744 | the decimal text is non-empty, all digits, and has no leading zero except for 0 |
| Identifier.Format | src/filesystems/sleuthkit/python/sk.c:741-748 | the identifier text holds only digits and dashes |
| Identifier.DecimalValue | src/filesystems/sleuthkit/python/sk.c:744 | the digits `%llu` prints denote the number printed |
| Identifier.StrToUnsignedDigits | src/filesystems/sleuthkit/python/sk.c:270 | a maximal run of digits whose value fits converts to that value and stops right after the run |
| Identifier.ParseJoined | src/filesystems/sleuthkit/python/sk.c:266-280 | three digit runs joined by '-' parse to their three values |
| Identifier.RoundTrip | src/filesystems/sleuthkit/python/sk.c:266-280 | parsing the `"%llu-%u-%u"` text of any in-range identifier gives it back, whatever the caller's fields held |
| FileReader.Report | src/filesystems/sleuthkit/python/sk.c:194-219 | a report of size <= 0 changes nothing; a resident one replaces the buffer and sets the size to its own; any other appends its extent at the tail and adds its size |
| FileReader.CollectNonResident | src/filesystems/sleuthkit/python/sk.c:208-215 | after a walk without resident data, the block list is every positive report in call order, the size is the sum of their sizes, and there is no resident buffer |
| FileReader.CollectResidentLast | src/filesystems/sleuthkit/python/sk.c:203-207 | after the last positive report, if it is resident, the resident buffer is its data and the size is its size |
| FileReader.Collect | src/filesystems/sleuthkit/python/sk.c:194-219 | the state the walk leaves never has a negative size, and holds no more extents than there were reports |
| FileReader.SumSizesBound | src/filesystems/sleuthkit/python/sk.c:909-927 | when no extent exceeds a block, the recorded size is at most the number of blocks times the block size |
| FileReader.Stored | src/filesystems/sleuthkit/python/sk.c:909-927 | the recorded blocks laid end to end are block-size bytes each |
| FileReader.StoredAt | src/filesystems/sleuthkit/python/sk.c:929-934 | byte `pos` of the blocks laid end to end is byte `pos mod block_size` of block `pos / block_size` |
| FileReader.ClampLength | src/filesystems/sleuthkit/python/sk.c:893-895 | with the cursor inside the file the length is the request or what is left, whichever is smaller, and a negative request gives what is left; past the end it is `size - readptr`, which is negative, so the cursor moved by it lands back on the size |
| FileReader.LoadBlocks | src/filesystems/sleuthkit/python/sk.c:904-927 | the buffer holds `readlen + 2*block_size` bytes; what was read is the file's bytes from the block holding the cursor, up to at least the end of the request or of the recorded blocks; the rest of the buffer is zero |
| FileReader.LoadStep | src/filesystems/sleuthkit/python/sk.c:911-926 | one iteration of the block loop: blocks wholly before the cursor are skipped; the first one read lands at the buffer's start; each later one follows it; the loop stops once the request is covered |
| FileReader.ReadExtents | src/filesystems/sleuthkit/python/sk.c:904-934 | the bytes returned number `readlen` and are the file's bytes from the cursor on |
| FileReader.WindowOfStored | src/filesystems/sleuthkit/python/sk.c:929-934 | when the recorded blocks cover the request, the bytes copied out are exactly the window `readptr..readptr+readlen` of the blocks laid end to end |
| FileReader.SkFile.Open | src/filesystems/sleuthkit/python/sk.c:843-864 | opening resets the state and replays the block walk: the state is the fold of the reports, with the cursor at 0 |
| FileReader.SkFile.WalkCallback | src/filesystems/sleuthkit/python/sk.c:194-219 | the new state is `Report` applied to the old one |
| FileReader.SkFile.Read | src/filesystems/sleuthkit/python/sk.c:879-935 | the cursor advances by the clamped length; a negative length is an error; resident data gives its slice; otherwise, when the read buffer cannot be allocated the read fails with MemoryError and the cursor stays, and else the bytes are the file's bytes from the old cursor |
| FileReader.SkFile.Seek | src/filesystems/sleuthkit/python/sk.c:937-960 | whence 0/1/2 set the cursor to offset, cursor+offset or size+offset, with no bounds check; any other whence fails and leaves the cursor unchanged |
| FileReader.SkFile.Tell | src/filesystems/sleuthkit/python/sk.c:962-965 | returns the cursor |
| Dents.AddDent | src/filesystems/sleuthkit/python/sk.c:69-96 | the entry keeps the inode, the entry type and the alloc flag; type and id are 0 without an attribute and the attribute's otherwise; the path gains ":" + stream name exactly when the attribute is a non-default DATA or IDXROOT stream |
| Dents.RunLength | src/filesystems/sleuthkit/python/sk.c:115 | the walk over attributes covers exactly the leading run that is in use |
| Dents.StopAttr | src/filesystems/sleuthkit/python/sk.c:115 | the loop stops at the first attribute not in use: there is none exactly when every attribute is in use; otherwise it is the attribute right after the in-use run, and it is not in use |
| Dents.StreamEntries | src/filesystems/sleuthkit/python/sk.c:117-162 | one in-use attribute yields at most one entry, only when it is a data stream or an index root, and that entry carries the attribute's type and id |
| Dents.DentEntries | src/filesystems/sleuthkit/python/sk.c:103-179 | every entry the callback adds carries the directory entry's inode and alloc flag |
| Dents.StreamsInode | src/filesystems/sleuthkit/python/sk.c:115-165 | every stream entry carries the directory entry's inode and alloc flag |
| Dents.ListdentCallback | src/filesystems/sleuthkit/python/sk.c:103-179 | the list after the callback is the list before, followed by the entry's fan-out entries in attribute order |
| Dents.StreamsLoop | src/filesystems/sleuthkit/python/sk.c:112-165 | the loop ends at the first attribute not in use, has appended the stream entries of the in-use run, and `printed` is set exactly when that run holds a DATA or IDXROOT attribute |
| Dents.RunStep | src/filesystems/sleuthkit/python/sk.c:115-165 | one more attribute of the run adds that attribute's stream entries and sets `printed` exactly when it is DATA or IDXROOT |
| Dents.StreamsFromRun | src/filesystems/sleuthkit/python/sk.c:115-165 | any stream entry at all implies a DATA or IDXROOT attribute in the run |
| Dents.DirectoryDataIsRegular | src/filesystems/sleuthkit/python/sk.c:133-147 | a directory's data stream is listed with entry type REG, which is not a directory type |
| Dents.StreamsCount | src/filesystems/sleuthkit/python/sk.c:115-165 | at most one stream entry per in-use attribute and per printing attribute; exactly one per DATA attribute unless the entry is a directory whose name is two characters starting with '.', plus exactly one per IDXROOT attribute unless the name is "." or ".." |
| Dents.DotNameStreams | src/filesystems/sleuthkit/python/sk.c:133-162 | a directory named with '.' and one more character lists no data stream; "." and ".." list no index root; every other DATA attribute is listed (typed REG for a directory) and every other IDXROOT attribute is listed |
| Dents.FallbackEntry | src/filesystems/sleuthkit/python/sk.c:167-171 | on NTFS, a run with no DATA or IDXROOT attribute gives exactly one entry, for the attribute the loop stopped at (none at the end of the list); a run with one gives exactly its stream entries and no fallback |
| Dents.NoPrintingNoStreams | src/filesystems/sleuthkit/python/sk.c:167-171 | a run with no DATA or IDXROOT attribute gives no stream entries |
| Dents.PlainEntry | src/filesystems/sleuthkit/python/sk.c:173-177 | off NTFS or without an inode, "." and ".." give nothing and any other name gives one entry with type and id 0 |
| Dents.InodeWalkCallback | src/filesystems/sleuthkit/python/sk.c:29-63 | the list after the callback is the list before, followed by the inode's identifiers |
| Dents.DataStreamsExact | src/filesystems/sleuthkit/python/sk.c:35-51 | on NTFS the identifiers are exactly the in-use DATA attributes, with their ids |
| Dents.FirstMatch | src/filesystems/sleuthkit/python/sk.c:232-241 | the walk stops at the first reported entry with the inode sought; none means no entry has it |
| Dents.LookupPath | src/filesystems/sleuthkit/python/sk.c:245-263 | the root inode gives "/"; otherwise the path is "/" + dir + name of the first match; an error exactly when the walk failed without a match |
| Walker.Project | src/filesystems/sleuthkit/python/sk.c:708-717 | both flags give the identifier and the path, inodes alone the identifier, names alone the path, neither nothing |
| Walker.DentWalk | src/filesystems/sleuthkit/python/sk.c:636-639 | the directory's list is the callback's entries for each reported entry, in order |
| Walker.JoinPath | src/filesystems/sleuthkit/python/sk.c:677-681 | a joined path ends with '/' + the entry's name; under "/" nothing else precedes that, under any other parent the parent's path does |
| Walker.JoinPathShape | src/filesystems/sleuthkit/python/sk.c:677-681 | a pushed path keeps the parent's leading '/' |
| Walker.RootEntry | src/filesystems/sleuthkit/python/sk.c:599-613 | the start entry has type and id 0 and is allocated; its inode is the given one or the one the path names; its path is the given one, or else the reverse lookup's path when the lookup finds one, "" when it does not, and "/" for the root inode |
| Walker.Sort | src/filesystems/sleuthkit/python/sk.c:649-699 | the directories, the files and the entries pushed are the list's directory items, file items and allocated directories, in list order |
| Walker.ItemsPartition | src/filesystems/sleuthkit/python/sk.c:663-694 | when names or inodes are asked for, every listed entry is reported once: the directory items number the directory entries and the file items the others |
| Walker.ItemsPlacement | src/filesystems/sleuthkit/python/sk.c:663-694 | each entry is reported among the directories exactly when its type is a directory, at the position given by the entries of its kind before it, in the form the flags choose |
| Walker.Pushed | src/filesystems/sleuthkit/python/sk.c:674-684 | only allocated directories are pushed, and no more entries than the list holds |
| Walker.PushedExact | src/filesystems/sleuthkit/python/sk.c:674-684 | the pushed entries are exactly the allocated directories, each under its joined path |
| Walker.Walker.constructor | src/filesystems/sleuthkit/python/sk.c:594-613 | the stack holds the start entry alone |
| Walker.Walker.Next | src/filesystems/sleuthkit/python/sk.c:618-727 | an empty stack ends the walk; a listing error fails and keeps the stack; otherwise the step yields the top entry, its directories and its files, and the stack becomes the rest plus the pushed directories, the last of them on top |
| Walker.Start | src/filesystems/sleuthkit/python/sk.c:558-616 | fails exactly when neither an inode nor a path is given; otherwise the walker's stack is the start entry |
| Ole2.PyIndex | libs/libole2.py:228 | a Python index is valid exactly when it lies in `-len..len-1`; a negative one counts from the end |
| Ole2.PySlice | libs/libole2.py:237 | a Python slice is a contiguous piece of the sequence starting at the normalised lower bound, and the plain slice when both bounds are in range |
| Ole2.PySliceBound | libs/libole2.py:202 | a slice `[lo:lo+size]` with a non-negative size has at most `size` elements |
| Ole2.PyPrefix | libs/libole2.py:197 | `s[:size]` with a non-negative size has the smaller of `size` and `len(s)` elements and is a prefix of `s` |
| Ole2.LongAt | libs/libole2.py:111-119 | a LONG field is a signed 32-bit value |
| Ole2.Longs | libs/libole2.py:170-171 | `LONG_ARRAY(data, n)` gives `n` LONG values, the k-th at byte 4k |
| Ole2.ReadDepotList | libs/libole2.py:74-84 | the list read is the words up to and including the first negative one; the read fails, as truncated, exactly when no full word is negative |
| Ole2.DepotListUnique | libs/libole2.py:74-84 | the depot list of the data is unique |
| Ole2.ReadDepot | libs/libole2.py:163-173 | the depot is the 128 entries of each non-negative list block, in list order; it fails, as truncated, exactly when some such block lies past the data |
| Ole2.NonNegative | libs/libole2.py:168 | the entries kept are non-negative and no more than the list has |
| Ole2.NonNegativeIn | libs/libole2.py:168 | every kept entry comes from the list |
| Ole2.DepotSkipsNegative | libs/libole2.py:163-173 | negative list entries (the -1 end marker) contribute nothing; the depot has 128 entries per non-negative entry |
| Ole2.DepotAppend | libs/libole2.py:163-173 | the depot of two lists one after the other is their two depots one after the other |
| Ole2.FollowChain | libs/libole2.py:220-230 | the chain followed is the chain the depot defines from `start` |
| Ole2.ChainOf | libs/libole2.py:220-230 | a chain starts at its start block and holds at most one more block than the bound on its steps |
| Ole2.ChainShape | libs/libole2.py:220-230 | a chain starts at `start`; each block after it is the depot entry of the one before; -2 is only last, and last exactly when the chain completes; a failed lookup is an index out of range |
| Ole2.CompleteChainFollowed | libs/libole2.py:220-230 | conversely, every linked sequence ending in -2 is the chain followed from its first block |
| Ole2.ChainMoreFuel | libs/libole2.py:220-230 | a chain that ended does not change with a larger bound on its length |
| Ole2.Window | libs/libole2.py:237 | `data[lo:lo+len]` has at most `len` bytes, and is exactly those bytes when they lie inside the data |
| Ole2.ReadRun | libs/libole2.py:232-239 | the blocks of a run joined together are at most one block size per entry of the run |
| Ole2.ReadRunLength | libs/libole2.py:232-239 | a run gives at most one block per non-negative index, and exactly that when every block lies inside the data |
| Ole2.ReadRunSkipsNegative | libs/libole2.py:237 | negative indexes (the -2 that ends a chain) add nothing to a run |
| Ole2.ReadRunAppend | libs/libole2.py:232-239 | the run of two index lists one after the other is their runs one after the other |
| Ole2.RawName | libs/libole2.py:100-102 | the name is a prefix of the decoded name, cut to `pps_sizeofname / 2` characters |
| Ole2.DecodeProperty | libs/libole2.py:104-121 | size of name, type, next, dir, start block and size are read at offsets 0x40, 0x42, 0x48, 0x4C, 0x74 and 0x78 |
| Ole2.Properties | libs/libole2.py:154-157 | one property per whole 128-byte record of the directory stream; property k is the record at bytes 128k..128(k+1) decoded |
| Ole2.Cat | libs/libole2.py:175-202 | an unforced property that is not the root or a file gives ''; root or large properties succeed exactly when their big-block chain ends, and give a prefix of it, at most `size` bytes long; a chain through a missing index is IndexError and one over the bound ChainTooLong; small ones succeed exactly when the small stream exists, and give its Python slice `[64*sb : 64*sb+size]`, which is its bytes from block `sb` on when that range lies inside it |
| Ole2.CatBigLength | libs/libole2.py:192-197 | a big-block read of a complete chain gives the smaller of `size` and the chain's length |
| Ole2.Ls | libs/libole2.py:208-218 | the result is `LsOf` of the properties: IndexError when `pps_dir` is out of range; otherwise a listing that starts with the property `pps_dir` names, each next one is the property its predecessor's `pps_next` names, and it stops at the first `pps_next` outside `1..count-1` |
| Ole2.LsShape | libs/libole2.py:208-218 | with `pps_dir` in range the listing either ends, no longer than the bound allows, starting at `pps_dir`, linked by `pps_next` and with its last `pps_next` out of range; or it is cut off, and then a linked run of bound + 1 properties from `pps_dir` exists whose last `pps_next` would still be followed |
| Ole2.LsListed | libs/libole2.py:208-218 | conversely, every linked run from `pps_dir` whose last `pps_next` is out of range is the listing ls gives |
| Ole2.LsMoreFuel | libs/libole2.py:213-215 | a listing that ended does not change with a larger bound |
| Ole2.Open | libs/libole2.py:134-161 | short data is an error; a wrong magic is an error exactly when the data is long enough; a depot list with no negative word is truncated; otherwise the result is Ok exactly when every step succeeds: a depot block past the data is truncated, a bad chain index or an empty property list is IndexError, a chain over the bound is ChainTooLong, and the small stream's error is passed on; on success, the depot list, the depot, a complete root chain, the properties decoded from it, and the small stream as `cat` of the first property |

## Left out

**Binding glue.** These are Python binding glue around the modelled logic: `skfs_listdir`, `skfs_stat`, `skfs_iwalk`, `skfs_open` and the other type boilerplate (reference counting, argument parsing, `tp_*` slots).

**Library calls taken as parameters.** The library's walks (`dent_walk`, `inode_walk`, `file_walk`, `ntfs_find_file`), `fs_ifind_path_ret` behind `lookup_inode`, and the image reads behind `fs_read_block` are library code. They are parameters of the model. fs_tools.h (ISDOT, the FS_DENT and NTFS_ATYPE constants) is not part of this model. Its values are taken as FS_DENT_DIR = 4, FS_DENT_REG = 8, DATA = 0x80 and IDXROOT = 0x90.

**C string and memory handling.**

- Names hold no NUL byte and are not truncated to `name_max - 1`.
- The root entry's `ent_type`, left uninitialised by `talloc`, is modelled as 0.
- The `malloc` read buffer's uninitialised bytes, past the blocks read, are modelled as 0.
- Dents.InodeWalkCallback: the NULL `fs_inode` case of `inode_walk_callback` is not modelled; the inode's metadata is always present.
- Walker.RootEntry: when `lookup_path` finds nothing, the path the C code leaves unset is modelled as the empty string.
- FileReader.SkFile.Read: requires a non-negative cursor, and a resident buffer holding at least `size` bytes. With a negative cursor the resident path reads before its buffer. On the extent path, C's `%` of a negative cursor is not modelled: with a cursor of -block_size the copy starts at the buffer's start and stays inside it. The allocation's outcome is the `allocOk` parameter.
- FileReader.SkFile.Open: the constructor models a file walk that completes; the IOError raised when the walk sets the library's error (sk.c:861-864) is not modelled.
- FileReader: the C `int` widths of `readptr`, `size`, the seek offset, the read length and the block loop's counters `cur` and `written` (sk.c:882, 910-925) are not modelled; they are unbounded integers, so a file past 2 GiB, where those counters overflow, reads as if they did not.

**OLE2 reader.**

- The `format` module's struct decoding is not part of this model. LONG and WORD are read directly. The UCS16_STR decoding is the `nameOf` parameter.
- A LONG or LONG_ARRAY that runs past the data is modelled as the `Truncated` error, and so is data shorter than the 0x200-byte header.
- Ole2.Ls: `number_of_properties` is taken as the number of properties. The chain of `pps_next` links is followed only up to a bound; `ChainTooLong` stands for a listing that would go on, possibly forever.
- Ole2.FollowChain: the chain is followed only up to a bound (`fuel`); `OutOfFuel` stands for a cycle in the depot, on which the Python loop never ends.
- Ole2.Cat: the length bound `|r| <= size` is stated only for a non-negative `pps_size`. On the big-block path a negative one slices Python-style from the end, and only the prefix property is stated there.
- The `print` in `cat`, the `root()` accessor, and the `__main__` driver are left out.
