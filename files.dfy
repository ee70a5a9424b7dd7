/**
 * The watched directory as the supervisor sees it: a walk order of file
 * entries.  Two passes read it: the activity scan (newest modification time
 * among tracked extensions) and the retention sweep (delete stale `.ts`
 * files).
 */
module Files {
  import opened Wrappers
  import opened Strings

  /** One file met by the directory walk: its base name, its modification time
      in whole seconds (None when reading it raises) and whether deleting it
      would succeed. */
  datatype FileEntry = FileEntry(name: string, mtime: Option<int>, removable: bool)

  /** The name ends with one of the extensions, ignoring case: no file is
      tracked without extensions, and none is shorter than the extension it
      is tracked by. */
  predicate Tracked(name: string, exts: seq<string>)
    ensures |exts| == 0 ==> !Tracked(name, exts)
    ensures Tracked(name, exts) ==> exists i :: 0 <= i < |exts| && |exts[i]| <= |name|
  {
    exists i :: 0 <= i < |exts| && EndsWith(Lower(name), Lower(exts[i]))
  }

  /** The entry counts for the activity scan and carries modification time `m`. */
  predicate Candidate(e: FileEntry, exts: seq<string>, m: int)
  {
    Tracked(e.name, exts) && e.mtime == Some(m)
  }

  /** The newest modification time among tracked, readable entries, or 0. */
  function LatestMtime(dir: seq<FileEntry>, exts: seq<string>): (r: int)
    ensures r >= 0
    ensures forall i, m :: 0 <= i < |dir| && Candidate(dir[i], exts, m) ==> m <= r
    ensures r > 0 ==> exists i :: 0 <= i < |dir| && Candidate(dir[i], exts, r)
  {
    if |dir| == 0 then
      0
    else
      var init := dir[..|dir| - 1];
      var e := dir[|dir| - 1];
      var prev := LatestMtime(init, exts);
      assert forall i :: 0 <= i < |init| ==> init[i] == dir[i];
      if Tracked(e.name, exts) && e.mtime.Some? && e.mtime.value > prev then e.mtime.value else prev
  }

  /** The activity scan: walks the entries once, keeping the first entry
      with the largest modification time seen so far. */
  method ScanLatest(dir: seq<FileEntry>, exts: seq<string>) returns (latest: int, latestFile: Option<string>)
    ensures latest == LatestMtime(dir, exts)
    ensures latestFile.Some? <==> latest > 0
    ensures latestFile.Some? ==>
              exists i :: 0 <= i < |dir| && dir[i].name == latestFile.value && Candidate(dir[i], exts, latest)
                && forall j :: 0 <= j < i ==> !Candidate(dir[j], exts, latest)
  {
    latest, latestFile := 0, None;
    ghost var at := 0;
    var k := 0;
    while k < |dir|
      invariant 0 <= k <= |dir|
      invariant latest == LatestMtime(dir[..k], exts)
      invariant latestFile.Some? <==> latest > 0
      invariant latestFile.Some? ==>
                  0 <= at < k && dir[at].name == latestFile.value && Candidate(dir[at], exts, latest)
                  && forall j :: 0 <= j < at ==> !Candidate(dir[j], exts, latest)
    {
      assert dir[..k + 1][..k] == dir[..k];
      var e := dir[k];
      if Tracked(e.name, exts) {
        match e.mtime {
          case None =>
          case Some(m) =>
            if m > latest {
              forall j | 0 <= j < k ensures !Candidate(dir[j], exts, m) {
                assert dir[..k][j] == dir[j];
              }
              latest, latestFile := m, Some(e.name);
              at := k;
            }
        }
      }
      k := k + 1;
    }
    assert dir[..k] == dir;
  }

  /** The suffix the retention sweep deletes, whatever extensions are tracked. */
  const CleanupSuffix: string := ".ts"

  /** Files modified before this instant are past the retention window. */
  function Cutoff(now: int, hours: int): int
  {
    now - hours * 3600
  }

  /** The sweep deletes the entry: a `.ts` name in any case, a readable
      modification time strictly before the cutoff, and a delete that succeeds. */
  predicate Swept(e: FileEntry, cutoff: int)
  {
    EndsWith(Lower(e.name), CleanupSuffix) && e.mtime.Some? && e.mtime.value < cutoff && e.removable
  }

  /** The directory after a sweep: the entries not deleted, in walk order. */
  function Survivors(dir: seq<FileEntry>, cutoff: int): (r: seq<FileEntry>)
    ensures |r| <= |dir|
    ensures forall k :: 0 <= k < |r| ==> !Swept(r[k], cutoff)
  {
    if |dir| == 0 then []
    else
      var rest := Survivors(dir[..|dir| - 1], cutoff);
      if Swept(dir[|dir| - 1], cutoff) then rest else rest + [dir[|dir| - 1]]
  }

  /** The sweep keeps exactly the entries it does not delete. */
  lemma {:induction false} SurvivorsExactly(dir: seq<FileEntry>, cutoff: int)
    ensures forall e :: e in Survivors(dir, cutoff) <==> e in dir && !Swept(e, cutoff)
  {
    if |dir| > 0 {
      var init := dir[..|dir| - 1];
      SurvivorsExactly(init, cutoff);
      assert dir == init + [dir[|dir| - 1]];
    }
  }

  /** Deletion count of a sweep. */
  function SweptCount(dir: seq<FileEntry>, cutoff: int): (n: nat)
    ensures n == |dir| - |Survivors(dir, cutoff)|
  {
    if |dir| == 0 then 0
    else SweptCount(dir[..|dir| - 1], cutoff) + (if Swept(dir[|dir| - 1], cutoff) then 1 else 0)
  }

  /** One retention sweep: deletes every stale `.ts` entry it can; a failed
      read or delete is skipped and the sweep goes on. */
  method CleanupFiles(dir: seq<FileEntry>, now: int, hours: int) returns (kept: seq<FileEntry>, count: nat)
    ensures kept == Survivors(dir, Cutoff(now, hours))
    ensures count == SweptCount(dir, Cutoff(now, hours)) == |dir| - |kept|
    ensures forall e :: e in kept <==> e in dir && !Swept(e, Cutoff(now, hours))
  {
    var cutoff := Cutoff(now, hours);
    kept, count := [], 0;
    var k := 0;
    while k < |dir|
      invariant 0 <= k <= |dir|
      invariant kept == Survivors(dir[..k], cutoff)
      invariant count == SweptCount(dir[..k], cutoff)
    {
      assert dir[..k + 1][..k] == dir[..k];
      var e := dir[k];
      if EndsWith(Lower(e.name), CleanupSuffix) {
        match e.mtime {
          case None =>
            kept := kept + [e];
          case Some(m) =>
            if m < cutoff && e.removable {
              count := count + 1;
            } else {
              kept := kept + [e];
            }
        }
      } else {
        kept := kept + [e];
      }
      k := k + 1;
    }
    assert dir[..k] == dir;
    SurvivorsExactly(dir, cutoff);
  }

  /** Entries that are not `.ts`, or not older than the cutoff, survive any sweep. */
  lemma SweepSparesFreshAndUntracked(dir: seq<FileEntry>, cutoff: int, e: FileEntry)
    requires e in dir
    requires !EndsWith(Lower(e.name), CleanupSuffix) || (e.mtime.Some? && e.mtime.value >= cutoff)
    ensures e in Survivors(dir, cutoff)
  {
    SurvivorsExactly(dir, cutoff);
  }

  /** One hour of retention: a file 3601 s old goes, one 3599 s old stays. */
  lemma SweepOneHourBoundary(now: int)
    ensures var old1 := FileEntry("a.TS", Some(now - 3601), true);
            var new1 := FileEntry("b.ts", Some(now - 3599), true);
            Survivors([old1, new1], Cutoff(now, 1)) == [new1]
  {
    var old1 := FileEntry("a.TS", Some(now - 3601), true);
    var new1 := FileEntry("b.ts", Some(now - 3599), true);
    assert [old1, new1][..1] == [old1];
    assert Lower(old1.name) == "a.ts";
  }
}
