/**
 * What the supervisor decides about operating-system processes, with the
 * system calls themselves abstracted: how the executable is launched (by its
 * suffix) and which entries of a process-table snapshot are taken for an
 * earlier copy of it and stopped before a new launch.
 */
module Processes {
  import opened Strings

  /** How the executable is started. */
  datatype LaunchMode =
    | ThroughShell   // batch and command files, run by the platform shell
    | ThroughBash    // shell scripts, run as `bash <path>`
    | Direct         // anything else, run as is

  /** The launch mode, chosen by the lower-cased suffix of the path; the
      batch suffixes are tested before `.sh`. */
  function ChooseLaunch(path: string): (m: LaunchMode)
    ensures m == ThroughShell <==> EndsWith(Lower(path), ".bat") || EndsWith(Lower(path), ".cmd")
    ensures m == ThroughBash <==> m != ThroughShell && EndsWith(Lower(path), ".sh")
  {
    var p := Lower(path);
    if EndsWith(p, ".bat") || EndsWith(p, ".cmd") then ThroughShell
    else if EndsWith(p, ".sh") then ThroughBash
    else Direct
  }

  /** What is handed to the OS: the argument vector and whether a shell runs it. */
  datatype Launch = Launch(argv: seq<string>, shell: bool)

  function LaunchCommand(path: string): (l: Launch)
    ensures |l.argv| >= 1 && l.argv[|l.argv| - 1] == path
    ensures l.shell <==> ChooseLaunch(path) == ThroughShell
    ensures ChooseLaunch(path) == ThroughBash ==> l.argv == ["bash", path]
    ensures ChooseLaunch(path) != ThroughBash ==> l.argv == [path]
  {
    match ChooseLaunch(path)
    case ThroughShell => Launch([path], true)
    case ThroughBash => Launch(["bash", path], false)
    case Direct => Launch([path], false)
  }

  /** The choice ignores the case of the path. */
  lemma LaunchIgnoresCase(path: string)
    ensures ChooseLaunch(Lower(path)) == ChooseLaunch(path)
  {
    LowerIdempotent(path);
  }

  /** Any stem followed by `.bat` or `.cmd` in any case runs through the shell;
      followed by `.sh` in any case runs through bash. */
  lemma LaunchBySuffix(stem: string, ext: string)
    ensures Lower(ext) == ".bat" || Lower(ext) == ".cmd" ==> ChooseLaunch(stem + ext) == ThroughShell
    ensures Lower(ext) == ".sh" ==> ChooseLaunch(stem + ext) == ThroughBash
  {
    LowerAppend(stem, ext);
    var p := Lower(stem + ext);
    assert p[|p| - |ext|..] == Lower(ext);
    if Lower(ext) == ".sh" {
      assert p[|p| - 1] == 'h';
    }
  }

  /** `os.path.basename` with `/` as the separator: the text after the last slash. */
  function BaseName(path: string): (r: string)
    ensures EndsWith(path, r)
    ensures '/' !in r
    ensures |r| < |path| ==> path[|path| - |r| - 1] == '/'
  {
    if |path| == 0 then ""
    else if path[|path| - 1] == '/' then ""
    else
      var init := path[..|path| - 1];
      var r := BaseName(init);
      SuffixAppend(init, path[|path| - 1], |init| - |r|);
      assert path == init + [path[|path| - 1]];
      r + [path[|path| - 1]]
  }

  lemma SuffixAppend(a: string, c: char, i: nat)
    requires i <= |a|
    ensures (a + [c])[i..] == a[i..] + [c]
  {
  }

  /** One entry of the process-table snapshot: its name and command line
      (empty when unavailable) and whether stopping it returns without error. */
  datatype ProcInfo = ProcInfo(name: string, cmdline: seq<string>, stoppable: bool)

  /** The duplicate test: a non-empty command line is searched, case-sensitively,
      in its space-joined form; only without one is the name searched, ignoring case. */
  predicate Matches(exeName: string, p: ProcInfo)
    ensures Matches(exeName, p) ==> |p.cmdline| > 0 || |p.name| > 0
    ensures exeName == [] ==> (Matches(exeName, p) <==> |p.cmdline| > 0 || |p.name| > 0)
  {
    assert exeName == [] ==> OccursAt(Join(p.cmdline, " "), exeName, 0) && OccursAt(Lower(p.name), Lower(exeName), 0);
    if |p.cmdline| > 0 then Contains(Join(p.cmdline, " "), exeName)
    else |p.name| > 0 && Contains(Lower(p.name), Lower(exeName))
  }

  /** An argument holding the executable name makes its process a match,
      whatever the process is called. */
  lemma MatchByArgument(exeName: string, p: ProcInfo, k: nat)
    requires k < |p.cmdline| && Contains(p.cmdline[k], exeName)
    ensures Matches(exeName, p)
    ensures forall n :: Matches(exeName, p.(name := n))
  {
    ContainsInJoin(p.cmdline, " ", k, exeName);
  }

  /** Without a command line, the name test ignores case on both sides. */
  lemma MatchByNameIgnoresCase(exeName: string, p: ProcInfo)
    requires |p.cmdline| == 0
    ensures Matches(exeName, p) == Matches(Lower(exeName), p)
    ensures Matches(exeName, p) == Matches(exeName, p.(name := Lower(p.name)))
  {
    LowerIdempotent(exeName);
    LowerIdempotent(p.name);
  }

  /** The command-line test is case-sensitive while the name test is not. */
  lemma MatchCaseDependsOnSource()
    ensures !Matches("rec.exe", ProcInfo("rec.exe", ["C:/REC.EXE"], true))
    ensures Matches("rec.exe", ProcInfo("REC.EXE", [], true))
  {
    var hay := "C:/REC.EXE";
    assert Join(["C:/REC.EXE"], " ") == hay;
    forall i | 0 <= i && i + 7 <= |hay| ensures !OccursAt(hay, "rec.exe", i) {
      assert hay[i] != 'r';
    }
    assert Lower("REC.EXE") == "rec.exe";
    assert OccursAt(Lower("REC.EXE"), Lower("rec.exe"), 0);
  }

  /** Entries that match and stop cleanly, counted over the snapshot. */
  function KilledCount(exeName: string, procs: seq<ProcInfo>): (n: nat)
    ensures n <= |procs|
  {
    if |procs| == 0 then 0
    else
      var p := procs[|procs| - 1];
      KilledCount(exeName, procs[..|procs| - 1]) + (if Matches(exeName, p) && p.stoppable then 1 else 0)
  }

  /** Matching entries, counted over the snapshot. */
  function MatchCount(exeName: string, procs: seq<ProcInfo>): nat
  {
    if |procs| == 0 then 0
    else MatchCount(exeName, procs[..|procs| - 1]) + (if Matches(exeName, procs[|procs| - 1]) then 1 else 0)
  }

  /** At most every match is killed, and every match is when all stop cleanly. */
  lemma {:induction false} KilledAtMostMatches(exeName: string, procs: seq<ProcInfo>)
    ensures KilledCount(exeName, procs) <= MatchCount(exeName, procs)
    ensures (forall i :: 0 <= i < |procs| ==> procs[i].stoppable) ==>
              KilledCount(exeName, procs) == MatchCount(exeName, procs)
  {
    if |procs| > 0 {
      var init := procs[..|procs| - 1];
      KilledAtMostMatches(exeName, init);
      assert forall i :: 0 <= i < |init| ==> init[i] == procs[i];
    }
  }

  /** Stops every earlier copy of the executable in the snapshot; a process
      whose stop raises is skipped without being counted. */
  method KillExisting(execPath: string, procs: seq<ProcInfo>) returns (killed: nat)
    ensures killed == KilledCount(BaseName(execPath), procs)
  {
    var exeName := BaseName(execPath);
    killed := 0;
    var k := 0;
    while k < |procs|
      invariant 0 <= k <= |procs|
      invariant killed == KilledCount(exeName, procs[..k])
    {
      var p := procs[k];
      assert procs[..k + 1][..k] == procs[..k] && procs[..k + 1][k] == p;
      assert KilledCount(exeName, procs[..k + 1])
               == KilledCount(exeName, procs[..k]) + (if Matches(exeName, p) && p.stoppable then 1 else 0);
      if |p.cmdline| > 0 {
        var line := Join(p.cmdline, " ");
        if Contains(line, exeName) && p.stoppable {
          killed := killed + 1;
        }
      } else if |p.name| > 0 && Contains(Lower(p.name), Lower(exeName)) && p.stoppable {
        killed := killed + 1;
      }
      k := k + 1;
    }
    assert procs[..k] == procs;
  }
}
