/**
 * The processed-videos directory as an abstract state: a listing of
 * (name, creation time) entries in `os.listdir` order, with unique names.
 * Creation times are integers; only their order matters to the model.
 */
module Files {

  datatype FileEntry = FileEntry(name: string, ctime: int)

  predicate DistinctNames(files: seq<FileEntry>) {
    forall i, j :: 0 <= i < j < |files| ==> files[i].name != files[j].name
  }

  /** The listing without every entry whose name is in `names`, order kept. */
  function RemoveNames(files: seq<FileEntry>, names: set<string>): (r: seq<FileEntry>)
    ensures forall e :: e in r <==> e in files && e.name !in names
    ensures |r| <= |files|
  {
    if files == [] then []
    else (if files[0].name in names then [] else [files[0]]) + RemoveNames(files[1..], names)
  }

  /** Writing a file: any previous file of that name is replaced by the new one. */
  function Put(files: seq<FileEntry>, e: FileEntry): (r: seq<FileEntry>)
    ensures e in r
    ensures forall x :: x in r <==> x == e || (x in files && x.name != e.name)
  {
    RemoveNames(files, {e.name}) + [e]
  }

  lemma {:induction false} RemoveNamesKeepsDistinct(files: seq<FileEntry>, names: set<string>)
    requires DistinctNames(files)
    ensures DistinctNames(RemoveNames(files, names))
  {
    if files != [] {
      RemoveNamesKeepsDistinct(files[1..], names);
      var rest := RemoveNames(files[1..], names);
      forall x | x in rest
        ensures x.name != files[0].name
      {
        var k :| 0 <= k < |files[1..]| && files[1..][k] == x;
        assert files[k + 1] == x;
      }
    }
  }

  /** An entry whose name is new can go in front of a listing with unique names. */
  lemma ConsKeepsDistinct(x: FileEntry, files: seq<FileEntry>)
    requires DistinctNames(files)
    requires forall y :: y in files ==> y.name != x.name
    ensures DistinctNames([x] + files)
  {
    var r := [x] + files;
    forall i, j | 0 <= i < j < |r|
      ensures r[i].name != r[j].name
    {
      assert r[j] == files[j - 1];
      if i > 0 {
        assert r[i] == files[i - 1];
      }
    }
  }

  lemma PutKeepsDistinct(files: seq<FileEntry>, e: FileEntry)
    requires DistinctNames(files)
    ensures DistinctNames(Put(files, e))
  {
    RemoveNamesKeepsDistinct(files, {e.name});
  }

  /** The entries of a listing, as a set. */
  function Entries(files: seq<FileEntry>): set<FileEntry> {
    set e | e in files
  }

  /** A listing has at least as many positions as entries, and exactly as many when its names are unique. */
  lemma {:induction false} EntriesCount(files: seq<FileEntry>)
    ensures |Entries(files)| <= |files|
    ensures DistinctNames(files) ==> |Entries(files)| == |files|
  {
    if files != [] {
      var init, last := files[..|files| - 1], files[|files| - 1];
      assert files == init + [last];
      assert Entries(files) == Entries(init) + {last};
      EntriesCount(init);
      if DistinctNames(files) {
        assert DistinctNames(init);
        forall k | 0 <= k < |init|
          ensures init[k] != last
        {
          assert files[k] == init[k];
        }
        assert last !in Entries(init);
      }
    }
  }

  /** A listing with unique names, each of whose entries is in `b`, is no longer than `b`. */
  lemma CountWithin(a: seq<FileEntry>, b: seq<FileEntry>)
    requires DistinctNames(a)
    requires forall e :: e in a ==> e in b
    ensures |a| <= |b|
  {
    EntriesCount(a);
    EntriesCount(b);
    var ea, eb := Entries(a), Entries(b);
    assert eb == ea + (eb - ea);
  }

  lemma {:induction false} RemoveNothing(files: seq<FileEntry>)
    ensures RemoveNames(files, {}) == files
  {
    if files != [] {
      RemoveNothing(files[1..]);
    }
  }

  /** Removing one name after a set of names is removing their union. */
  lemma {:induction false} RemoveNamesTwice(files: seq<FileEntry>, names: set<string>, name: string)
    ensures RemoveNames(RemoveNames(files, names), {name}) == RemoveNames(files, names + {name})
  {
    if files != [] {
      RemoveNamesTwice(files[1..], names, name);
      var head := if files[0].name in names then [] else [files[0]];
      var rest := RemoveNames(files[1..], names);
      if files[0].name !in names {
        assert RemoveNames(files, names) == [files[0]] + rest;
        assert (head + rest)[1..] == rest;
      } else {
        assert RemoveNames(files, names) == rest;
      }
    }
  }

  /** The processed-videos directory, changed in place by file creation and `os.remove`. */
  class Directory {
    var files: seq<FileEntry>

    ghost predicate Valid()
      reads this
    {
      DistinctNames(files)
    }

    constructor (initial: seq<FileEntry>)
      requires DistinctNames(initial)
      ensures Valid() && files == initial
    {
      files := initial;
    }

    /** A file written into the directory (download, upload save, ffmpeg output). */
    method Create(e: FileEntry)
      requires Valid()
      modifies this
      ensures Valid()
      ensures files == Put(old(files), e)
    {
      PutKeepsDistinct(files, e);
      files := Put(files, e);
    }

    /** A successful `os.remove(name)`; a failing one is modelled by not calling this. */
    method Remove(name: string)
      requires Valid()
      modifies this
      ensures Valid()
      ensures files == RemoveNames(old(files), {name})
    {
      RemoveNamesKeepsDistinct(files, {name});
      files := RemoveNames(files, {name});
    }
  }
}
