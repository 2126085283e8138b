/** Rotation (`delete_backups`): before a new backup is triggered, a
    `sudo rm -f` is issued for every path in the remote backups folder that
    ends with `.tar`, and every other entry is skipped with a warning. The
    remote `ls` outputs are inputs; the `sudo rm -f <path>` commands are
    represented by the paths they name. */
module Rotation {
  import opened Text
  import opened Paths

  const ArchiveExtension := ".tar"

  /** `ls <config path> | grep backups` printed at least one line. */
  predicate BackupsFolderExists(configLines: seq<string>)
  {
    exists i :: 0 <= i < |configLines| && Contains(configLines[i], "backups")
  }

  /** `get_backups_filenames`: the lines of `ls`, each stripped. */
  function BackupFilenames(lines: seq<string>): (names: seq<string>)
    ensures |names| == |lines|
  {
    seq(|lines|, i requires 0 <= i < |lines| => Strip(lines[i]))
  }

  /** Each name joined onto the backups folder, in listing order. */
  function Joined(base: string, names: seq<string>): (paths: seq<string>)
    ensures |paths| == |names|
  {
    seq(|names|, i requires 0 <= i < |names| => Join(base, names[i]))
  }

  predicate IsArchive(path: string)
  {
    EndsWith(path, ArchiveExtension)
  }

  /** The first `n` paths whose archive test gives `archive`, in their
      original order (the deleted ones for `true`, the skipped ones for
      `false`). */
  function SelectFirst(paths: seq<string>, n: nat, archive: bool): (r: seq<string>)
    requires n <= |paths|
    ensures |r| <= n
  {
    if n == 0 then []
    else SelectFirst(paths, n - 1, archive) + (if IsArchive(paths[n - 1]) == archive then [paths[n - 1]] else [])
  }

  function Select(paths: seq<string>, archive: bool): seq<string>
  {
    SelectFirst(paths, |paths|, archive)
  }

  datatype Outcome = Outcome(deleted: seq<string>, skipped: seq<string>)

  /** What one call of `delete_backups` does, given the three `ls` outputs
      it reads: the config folder (for the `grep backups` test), the
      backups folder (for the count) and the backups folder again (for the
      loop). */
  function RotationPlan(configLines: seq<string>, countLines: seq<string>, lines: seq<string>, base: string): Outcome
  {
    if BackupsFolderExists(configLines) && |countLines| > 0 then
      var paths := Joined(base, BackupFilenames(lines));
      Outcome(Select(paths, true), Select(paths, false))
    else
      Outcome([], [])
  }

  /** `delete_backups`: rotation runs only when the backups folder was
      found and is non-empty. */
  method DeleteBackups(configLines: seq<string>, countLines: seq<string>, lines: seq<string>, base: string)
    returns (result: Outcome)
    ensures result == RotationPlan(configLines, countLines, lines, base)
  {
    if BackupsFolderExists(configLines) && |countLines| > 0 {
      result := RemoveArchives(base, BackupFilenames(lines));
    } else {
      result := Outcome([], []);
    }
  }

  /** The loop of `delete_backups`: one delete per archive path, one
      warning per other entry, in listing order. */
  method RemoveArchives(base: string, names: seq<string>) returns (result: Outcome)
    ensures result == Outcome(Select(Joined(base, names), true), Select(Joined(base, names), false))
  {
    var deleted: seq<string> := [];
    var skipped: seq<string> := [];
    ghost var paths := Joined(base, names);
    for i := 0 to |names|
      invariant deleted == SelectFirst(paths, i, true)
      invariant skipped == SelectFirst(paths, i, false)
    {
      var absolutePath := Join(base, names[i]);
      assert absolutePath == paths[i];
      if !IsArchive(absolutePath) {
        skipped := skipped + [absolutePath];
      } else {
        deleted := deleted + [absolutePath];
      }
    }
    result := Outcome(deleted, skipped);
  }

  /** A path is among the first `n` selected exactly when it is among the
      first `n` listed and its archive test gives the requested answer. */
  lemma {:induction false} SelectFirstMembership(paths: seq<string>, n: nat, archive: bool, p: string)
    requires n <= |paths|
    ensures p in SelectFirst(paths, n, archive) <==> p in paths[..n] && IsArchive(p) == archive
  {
    if n > 0 {
      SelectFirstMembership(paths, n - 1, archive, p);
      assert paths[..n] == paths[..n - 1] + [paths[n - 1]];
    }
  }

  lemma SelectMembership(paths: seq<string>, archive: bool, p: string)
    ensures p in Select(paths, archive) <==> p in paths && IsArchive(p) == archive
  {
    SelectFirstMembership(paths, |paths|, archive, p);
    assert paths[..|paths|] == paths;
  }

  /** Every path is either deleted or skipped, so the two lists together
      are as long as the listing. */
  lemma {:induction false} SelectFirstSplits(paths: seq<string>, n: nat)
    requires n <= |paths|
    ensures |SelectFirst(paths, n, true)| + |SelectFirst(paths, n, false)| == n
  {
    if n > 0 {
      SelectFirstSplits(paths, n - 1);
    }
  }

  /** Rotation issues `sudo rm -f` for the entry at a listing position
      exactly when its file name ends with `.tar`, skips it exactly
      otherwise, and does nothing at all unless the backups folder was found
      and non-empty. */
  lemma RotationDeletesExactlyArchives(configLines: seq<string>, countLines: seq<string>, lines: seq<string>, base: string)
    ensures var out := RotationPlan(configLines, countLines, lines, base);
      var names := BackupFilenames(lines);
      && (!(BackupsFolderExists(configLines) && |countLines| > 0) ==> out.deleted == [] && out.skipped == [])
      && (BackupsFolderExists(configLines) && |countLines| > 0 ==>
            && |out.deleted| + |out.skipped| == |lines|
            && (forall i :: 0 <= i < |names| ==>
                  (Join(base, names[i]) in out.deleted <==> EndsWith(names[i], ArchiveExtension))
                  && (Join(base, names[i]) in out.skipped <==> !EndsWith(names[i], ArchiveExtension))))
    ensures forall p :: p in RotationPlan(configLines, countLines, lines, base).deleted ==> IsArchive(p)
  {
    var names := BackupFilenames(lines);
    var paths := Joined(base, names);
    SelectFirstSplits(paths, |paths|);
    forall i | 0 <= i < |names|
      ensures (Join(base, names[i]) in Select(paths, true) <==> EndsWith(names[i], ArchiveExtension))
      ensures (Join(base, names[i]) in Select(paths, false) <==> !EndsWith(names[i], ArchiveExtension))
    {
      JoinedSuffixIsNameSuffix(base, names[i], ArchiveExtension);
      assert paths[i] == Join(base, names[i]);
      SelectMembership(paths, true, paths[i]);
      SelectMembership(paths, false, paths[i]);
    }
    forall p | p in Select(paths, true)
      ensures IsArchive(p)
    {
      SelectMembership(paths, true, p);
    }
  }

  /** An `ls` line is a file name followed by a newline; stripping it gives
      the name back when the name has no surrounding whitespace. */
  lemma StripListingLine(name: string)
    requires name != [] && !IsSpace(name[0]) && !IsSpace(name[|name| - 1])
    ensures Strip(name + "\n") == name
  {
    var line := name + "\n";
    assert LeadingSpaces(line) == 0;
    assert line[..|line| - 1] == name;
    assert TrailingSpaces(line) == 1;
  }

  /** The scenario of a backups folder that holds one archive and one note:
      `rm` is issued for the archive and the note is skipped. */
  lemma RotationOfArchiveAndNote(configLines: seq<string>, base: string, archive: string, note: string)
    requires BackupsFolderExists(configLines)
    requires archive != [] && !IsSpace(archive[0]) && !IsSpace(archive[|archive| - 1])
    requires note != [] && !IsSpace(note[0]) && !IsSpace(note[|note| - 1])
    requires EndsWith(archive, ArchiveExtension) && !EndsWith(note, ArchiveExtension)
    ensures var lines := [archive + "\n", note + "\n"];
      RotationPlan(configLines, lines, lines, base) == Outcome([Join(base, archive)], [Join(base, note)])
  {
    var lines := [archive + "\n", note + "\n"];
    StripListingLine(archive);
    StripListingLine(note);
    var names := BackupFilenames(lines);
    assert names == [archive, note];
    var paths := Joined(base, names);
    JoinedSuffixIsNameSuffix(base, archive, ArchiveExtension);
    JoinedSuffixIsNameSuffix(base, note, ArchiveExtension);
    assert IsArchive(paths[0]) && !IsArchive(paths[1]);
    assert SelectFirst(paths, 1, true) == [paths[0]];
    assert SelectFirst(paths, 1, false) == [];
    assert Select(paths, true) == [Join(base, archive)];
    assert Select(paths, false) == [Join(base, note)];
  }

  /** The backups folder counts as existing only when some line of the
      config folder listing holds `backups`: the lemma returns the line and
      the position. */
  lemma BackupsFolderFound(configLines: seq<string>) returns (i: nat, j: nat)
    requires BackupsFolderExists(configLines)
    ensures i < |configLines| && j + 7 <= |configLines[i]| && configLines[i][j..j + 7] == "backups"
  {
    i :| 0 <= i < |configLines| && Contains(configLines[i], "backups");
    j := ContainsOccurs(configLines[i], "backups");
  }

  /** `grep backups` finds the `backups` entry of the config folder. */
  lemma BackupsEntryFound(configLines: seq<string>, i: nat)
    requires i < |configLines| && configLines[i] == "backups\n"
    ensures BackupsFolderExists(configLines)
  {
    ContainsAt(configLines[i], "backups", 0);
  }
}
