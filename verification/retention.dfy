/**
 * The retention policy (`cleanup_old_videos` in app.py): list the `.mp4`
 * files of the processed directory, order them by creation time (oldest
 * first, ties in listing order, as Python's stable sort does) and remove all
 * but the newest KEEP; a removal that raises is skipped, and an exception
 * while listing makes the whole call a no-op.
 */
module Retention {
  import opened Files

  const KEEP: nat := 3

  predicate IsVideo(name: string) {
    |name| >= 4 && name[|name| - 4..] == ".mp4"
  }

  /** The `.mp4` entries of a listing, in listing order. */
  function Videos(listing: seq<FileEntry>): (v: seq<FileEntry>)
    ensures forall e :: e in v <==> e in listing && IsVideo(e.name)
    ensures |v| <= |listing|
  {
    if listing == [] then []
    else
      var last := listing[|listing| - 1];
      Videos(listing[..|listing| - 1]) + (if IsVideo(last.name) then [last] else [])
  }

  predicate SortedByCtime(s: seq<FileEntry>) {
    forall i, j :: 0 <= i < j < |s| ==> s[i].ctime <= s[j].ctime
  }

  /** Puts `e` before the first entry that is not older than it. */
  function Insert(e: FileEntry, s: seq<FileEntry>): (r: seq<FileEntry>)
    ensures multiset(r) == multiset(s) + multiset{e}
  {
    if s == [] || e.ctime <= s[0].ctime then [e] + s
    else
      assert s == [s[0]] + s[1..];
      [s[0]] + Insert(e, s[1..])
  }

  /**
   * `list.sort(key=ctime)`: a stable sort by creation time. Each element is
   * inserted before the equal-time elements that follow it in the input.
   */
  function SortByCtime(s: seq<FileEntry>): (r: seq<FileEntry>)
    ensures multiset(r) == multiset(s)
  {
    if s == [] then []
    else
      assert s == [s[0]] + s[1..];
      Insert(s[0], SortByCtime(s[1..]))
  }

  lemma {:induction false} InsertKeepsSorted(e: FileEntry, s: seq<FileEntry>)
    requires SortedByCtime(s)
    ensures SortedByCtime(Insert(e, s))
  {
    if !(s == [] || e.ctime <= s[0].ctime) {
      InsertKeepsSorted(e, s[1..]);
      var rest := Insert(e, s[1..]);
      forall x | x in rest
        ensures s[0].ctime <= x.ctime
      {
        assert x in multiset(rest);
        if x != e {
          assert x in multiset(s[1..]);
          var k :| 0 <= k < |s[1..]| && s[1..][k] == x;
          assert s[k + 1] == x;
        }
      }
      ConsKeepsSorted(s[0], rest);
    }
  }

  lemma ConsKeepsSorted(x: FileEntry, s: seq<FileEntry>)
    requires SortedByCtime(s)
    requires forall y :: y in s ==> x.ctime <= y.ctime
    ensures SortedByCtime([x] + s)
  {
    var r := [x] + s;
    forall i, j | 0 <= i < j < |r|
      ensures r[i].ctime <= r[j].ctime
    {
      assert r[j] == s[j - 1];
      if i > 0 {
        assert r[i] == s[i - 1];
      }
    }
  }

  /** The sort orders by creation time, oldest first. */
  lemma {:induction false} SortIsSorted(s: seq<FileEntry>)
    ensures SortedByCtime(SortByCtime(s))
  {
    if s != [] {
      SortIsSorted(s[1..]);
      InsertKeepsSorted(s[0], SortByCtime(s[1..]));
    }
  }

  lemma SortKeepsLength(s: seq<FileEntry>)
    ensures |SortByCtime(s)| == |s|
  {
    assert |multiset(SortByCtime(s))| == |multiset(s)|;
  }

  lemma SortKeepsMembers(s: seq<FileEntry>)
    ensures forall x :: x in SortByCtime(s) <==> x in s
  {
    forall x
      ensures x in SortByCtime(s) <==> x in s
    {
      assert x in SortByCtime(s) <==> x in multiset(SortByCtime(s));
      assert x in s <==> x in multiset(s);
    }
  }

  /** The entries created at time `c`, in order. */
  function WithCtime(s: seq<FileEntry>, c: int): seq<FileEntry> {
    if s == [] then []
    else (if s[0].ctime == c then [s[0]] else []) + WithCtime(s[1..], c)
  }

  lemma {:induction false} InsertIsStable(e: FileEntry, s: seq<FileEntry>, c: int)
    ensures WithCtime(Insert(e, s), c) == (if e.ctime == c then [e] else []) + WithCtime(s, c)
  {
    if s == [] || e.ctime <= s[0].ctime {
      assert ([e] + s)[1..] == s;
    } else {
      InsertIsStable(e, s[1..], c);
      var rest := Insert(e, s[1..]);
      assert ([s[0]] + rest)[1..] == rest;
    }
  }

  /** Entries with equal creation times keep their listing order. */
  lemma {:induction false} SortIsStable(s: seq<FileEntry>, c: int)
    ensures WithCtime(SortByCtime(s), c) == WithCtime(s, c)
  {
    if s != [] {
      SortIsStable(s[1..], c);
      InsertIsStable(s[0], SortByCtime(s[1..]), c);
    }
  }

  /** Sorting keeps names unique. */
  lemma {:induction false} SortKeepsDistinct(s: seq<FileEntry>)
    requires DistinctNames(s)
    ensures DistinctNames(SortByCtime(s))
  {
    if s != [] {
      SortKeepsDistinct(s[1..]);
      var e := s[0];
      forall x | x in s[1..]
        ensures x.name != e.name
      {
        var k :| 0 <= k < |s[1..]| && s[1..][k] == x;
        assert s[k + 1] == x;
      }
      SortKeepsMembers(s[1..]);
      InsertKeepsDistinct(e, SortByCtime(s[1..]));
    }
  }

  lemma {:induction false} InsertKeepsDistinct(e: FileEntry, s: seq<FileEntry>)
    requires DistinctNames(s)
    requires forall x :: x in s ==> x.name != e.name
    ensures DistinctNames(Insert(e, s))
  {
    if s == [] || e.ctime <= s[0].ctime {
      ConsKeepsDistinct(e, s);
    } else {
      InsertKeepsDistinct(e, s[1..]);
      var rest := Insert(e, s[1..]);
      forall x | x in rest
        ensures x.name != s[0].name
      {
        assert x in multiset(rest);
        if x != e {
          assert x in multiset(s[1..]);
          var k :| 0 <= k < |s[1..]| && s[1..][k] == x;
          assert s[k + 1] == x;
        }
      }
      ConsKeepsDistinct(s[0], rest);
    }
  }

  /** The video entries oldest first, as `video_files` stands after its sort. */
  function ByAge(listing: seq<FileEntry>): seq<FileEntry> {
    SortByCtime(Videos(listing))
  }

  lemma ByAgeIsVideos(listing: seq<FileEntry>)
    ensures |ByAge(listing)| == |Videos(listing)|
    ensures multiset(ByAge(listing)) == multiset(Videos(listing))
    ensures forall e :: e in ByAge(listing) <==> e in listing && IsVideo(e.name)
  {
    SortKeepsLength(Videos(listing));
    SortKeepsMembers(Videos(listing));
  }

  /** `video_files[:-3]` when there are more than three videos, else nothing. */
  function ToDelete(listing: seq<FileEntry>): (r: seq<FileEntry>)
    ensures forall e :: e in r ==> e in listing && IsVideo(e.name)
    ensures |r| == if |Videos(listing)| > KEEP then |Videos(listing)| - KEEP else 0
  {
    var v := ByAge(listing);
    ByAgeIsVideos(listing);
    if |v| > KEEP then v[..|v| - KEEP] else []
  }

  /** The videos that survive the selection: the last three of `video_files`. */
  function Kept(listing: seq<FileEntry>): (r: seq<FileEntry>)
    ensures forall e :: e in r ==> e in listing && IsVideo(e.name)
    ensures |r| == if |Videos(listing)| > KEEP then KEEP else |Videos(listing)|
  {
    var v := ByAge(listing);
    ByAgeIsVideos(listing);
    if |v| > KEEP then v[|v| - KEEP..] else v
  }

  /** The names whose removal succeeds: the selected ones whose `os.remove` does not raise. */
  function Removed(selected: seq<FileEntry>, removeFails: set<string>): set<string> {
    set e | e in selected && e.name !in removeFails :: e.name
  }

  lemma RemovedSnoc(selected: seq<FileEntry>, x: FileEntry, removeFails: set<string>)
    ensures x.name in removeFails ==> Removed(selected + [x], removeFails) == Removed(selected, removeFails)
    ensures x.name !in removeFails ==> Removed(selected + [x], removeFails) == Removed(selected, removeFails) + {x.name}
  {
  }

  /**
   * The directory after `cleanup_old_videos`. `scanFails` stands for an
   * exception from `os.listdir` or `os.path.getctime`, which the outer
   * handler swallows before anything is removed; `removeFails` names the
   * files whose `os.remove` raises.
   */
  function AfterCleanup(files: seq<FileEntry>, scanFails: bool, removeFails: set<string>): (r: seq<FileEntry>)
    ensures scanFails ==> r == files
    ensures forall e :: e in r ==> e in files
    ensures |r| <= |files|
  {
    if scanFails then files else RemoveNames(files, Removed(ToDelete(files), removeFails))
  }

  /** With at most three videos nothing is selected; with more, something is. */
  lemma NothingSelectedIffFewVideos(listing: seq<FileEntry>)
    ensures ToDelete(listing) == [] <==> |Videos(listing)| <= KEEP
  {
  }

  /** The selected and the kept videos together are the videos, oldest first. */
  lemma SelectionSplitsVideos(listing: seq<FileEntry>)
    ensures ToDelete(listing) + Kept(listing) == ByAge(listing)
    ensures multiset(ToDelete(listing)) + multiset(Kept(listing)) == multiset(Videos(listing))
  {
    var d, kept := ToDelete(listing), Kept(listing);
    SplitAtKeep(listing);
    ByAgeIsVideos(listing);
    assert multiset(d + kept) == multiset(d) + multiset(kept);
  }

  lemma SplitAtKeep(listing: seq<FileEntry>)
    ensures ToDelete(listing) + Kept(listing) == ByAge(listing)
  {
    var v := ByAge(listing);
    var k := if |v| > KEEP then |v| - KEEP else 0;
    assert v[..k] + v[k..] == v;
  }

  /** Every selected file is no newer than every kept file. */
  lemma SelectedNoNewerThanKept(listing: seq<FileEntry>)
    ensures forall d, k :: d in ToDelete(listing) && k in Kept(listing) ==> d.ctime <= k.ctime
  {
    var v := ByAge(listing);
    SortIsSorted(Videos(listing));
    var n := if |v| > KEEP then |v| - KEEP else 0;
    assert ToDelete(listing) == v[..n] && Kept(listing) == v[n..];
    SortedHalves(v, n);
  }

  lemma SortedHalves(v: seq<FileEntry>, n: nat)
    requires SortedByCtime(v) && n <= |v|
    ensures forall d, k :: d in v[..n] && k in v[n..] ==> d.ctime <= k.ctime
  {
    forall d, k | d in v[..n] && k in v[n..]
      ensures d.ctime <= k.ctime
    {
      var i :| 0 <= i < n && v[..n][i] == d;
      var j :| 0 <= j < |v| - n && v[n..][j] == k;
      assert v[i] == d && v[n + j] == k;
    }
  }

  /** With unique names no file is both selected and kept. */
  lemma SelectedAndKeptDisjoint(listing: seq<FileEntry>)
    requires DistinctNames(listing)
    ensures forall e :: e in ToDelete(listing) ==> e !in Kept(listing)
  {
    var v := ByAge(listing);
    VideosKeepDistinct(listing);
    SortKeepsDistinct(Videos(listing));
    var k := if |v| > KEEP then |v| - KEEP else 0;
    assert ToDelete(listing) == v[..k] && Kept(listing) == v[k..];
    DistinctHalves(v, k);
  }

  lemma DistinctHalves(v: seq<FileEntry>, k: nat)
    requires DistinctNames(v) && k <= |v|
    ensures forall e :: e in v[..k] ==> e !in v[k..]
  {
  }

  lemma {:induction false} VideosKeepDistinct(listing: seq<FileEntry>)
    requires DistinctNames(listing)
    ensures DistinctNames(Videos(listing))
  {
    if listing != [] {
      var init := listing[..|listing| - 1];
      assert DistinctNames(init);
      VideosKeepDistinct(init);
      forall x | x in Videos(init)
        ensures x.name != listing[|listing| - 1].name
      {
        var k :| 0 <= k < |init| && init[k] == x;
        assert listing[k] == x;
      }
    }
  }

  /**
   * Cleanup removes exactly the selected files whose removal does not
   * raise; one failing removal does not stop the others, and no other file
   * (no non-`.mp4` file in particular) is touched.
   */
  lemma CleanupRemovesExactlySelected(files: seq<FileEntry>, removeFails: set<string>)
    requires DistinctNames(files)
    ensures forall e :: e in AfterCleanup(files, false, removeFails) <==>
      e in files && !(e in ToDelete(files) && e.name !in removeFails)
  {
    var sel := ToDelete(files);
    forall e | e in files && e.name in Removed(sel, removeFails)
      ensures e in sel && e.name !in removeFails
    {
      var d :| d in sel && d.name !in removeFails && d.name == e.name;
      var i :| 0 <= i < |files| && files[i] == d;
      var j :| 0 <= j < |files| && files[j] == e;
      assert i == j;
    }
  }

  /** Cleanup only ever deletes `.mp4` files. */
  lemma CleanupDeletesOnlyVideos(files: seq<FileEntry>, scanFails: bool, removeFails: set<string>)
    ensures forall e :: e in files && e !in AfterCleanup(files, scanFails, removeFails) ==> IsVideo(e.name)
  {
    forall e | e in files && e !in AfterCleanup(files, scanFails, removeFails)
      ensures IsVideo(e.name)
    {
      var d :| d in ToDelete(files) && d.name !in removeFails && d.name == e.name;
    }
  }

  /** A listing exception, or at most three videos, leaves the directory as it was. */
  lemma CleanupNoOp(files: seq<FileEntry>, scanFails: bool, removeFails: set<string>)
    requires scanFails || |Videos(files)| <= KEEP
    ensures AfterCleanup(files, scanFails, removeFails) == files
  {
    if !scanFails {
      assert Removed(ToDelete(files), removeFails) == {};
      RemoveNothing(files);
    }
  }

  /**
   * When no removal raises, the videos left are exactly the newest three
   * (or all of them, if there were at most three).
   */
  lemma CleanupKeepsNewest(files: seq<FileEntry>, removeFails: set<string>)
    requires DistinctNames(files)
    requires forall e :: e in ToDelete(files) ==> e.name !in removeFails
    ensures forall e :: e in AfterCleanup(files, false, removeFails) && IsVideo(e.name) <==> e in Kept(files)
  {
    CleanupRemovesExactlySelected(files, removeFails);
    SelectedAndKeptDisjoint(files);
    SelectionSplitsVideos(files);
    forall e | e in files && IsVideo(e.name)
      ensures e in ToDelete(files) || e in Kept(files)
    {
      assert e in Videos(files);
      assert e in multiset(ToDelete(files)) + multiset(Kept(files));
    }
  }

  /**
   * When the listing succeeds and no removal raises, at most three `.mp4`
   * files remain.
   */
  lemma CleanupLeavesAtMostThree(files: seq<FileEntry>)
    requires DistinctNames(files)
    ensures |Videos(AfterCleanup(files, false, {}))| <= KEEP
  {
    var after := AfterCleanup(files, false, {});
    CleanupKeepsNewest(files, {});
    RemoveNamesKeepsDistinct(files, Removed(ToDelete(files), {}));
    VideosKeepDistinct(after);
    CountWithin(Videos(after), Kept(files));
  }

  /** The collection loop of the cleanup: the `.mp4` entries of a listing, in order. */
  method CollectVideos(listing: seq<FileEntry>) returns (videoFiles: seq<FileEntry>)
    ensures videoFiles == Videos(listing)
  {
    videoFiles := [];
    for i := 0 to |listing|
      invariant videoFiles == Videos(listing[..i])
    {
      assert listing[..i + 1][..i] == listing[..i];
      if IsVideo(listing[i].name) {
        videoFiles := videoFiles + [listing[i]];
      }
    }
    assert listing[..|listing|] == listing;
  }

  /** The deletion loop: each `os.remove` that raises is skipped and the loop goes on. */
  method RemoveEach(dir: Directory, filesToDelete: seq<FileEntry>, removeFails: set<string>)
    requires dir.Valid()
    modifies dir
    ensures dir.Valid()
    ensures dir.files == RemoveNames(old(dir.files), Removed(filesToDelete, removeFails))
  {
    ghost var listing := dir.files;
    assert Removed(filesToDelete[..0], removeFails) == {};
    RemoveNothing(listing);
    for j := 0 to |filesToDelete|
      invariant dir.Valid()
      invariant dir.files == RemoveNames(listing, Removed(filesToDelete[..j], removeFails))
    {
      var name := filesToDelete[j].name;
      ghost var before := Removed(filesToDelete[..j], removeFails);
      assert filesToDelete[..j + 1] == filesToDelete[..j] + [filesToDelete[j]];
      RemovedSnoc(filesToDelete[..j], filesToDelete[j], removeFails);
      if name !in removeFails {
        RemoveNamesTwice(listing, before, name);
        dir.Remove(name);
      }
    }
    assert filesToDelete[..|filesToDelete|] == filesToDelete;
  }

  /**
   * The cleanup procedure, on the directory in place: collect the `.mp4`
   * entries, sort them by creation time and remove all but the last KEEP.
   */
  method CleanupOldVideos(dir: Directory, scanFails: bool, removeFails: set<string>)
    requires dir.Valid()
    modifies dir
    ensures dir.Valid()
    ensures dir.files == AfterCleanup(old(dir.files), scanFails, removeFails)
  {
    if scanFails {
      return;
    }
    ghost var listing := dir.files;
    var videoFiles := CollectVideos(dir.files);
    SortKeepsLength(videoFiles);
    videoFiles := SortByCtime(videoFiles);
    assert videoFiles == ByAge(listing);
    if |videoFiles| > KEEP {
      var filesToDelete := videoFiles[..|videoFiles| - KEEP];
      assert filesToDelete == ToDelete(listing);
      RemoveEach(dir, filesToDelete, removeFails);
    } else {
      CleanupNoOp(listing, scanFails, removeFails);
    }
  }
}
