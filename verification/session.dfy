/** One run of the backup script, from the path normalisation to the last
    transferred backup: destination and connection checks, the config
    folder check, rotation, the API check, existence polling, and then, for
    every file in the backups folder, stabilization polling, the remote
    checksum, the transfer and the checksum decision. Every remote or local
    observation is a field of `Observations`; the local folder is a map
    from file paths to contents. */
module Session {
  import opened Wrappers
  import opened Text
  import opened Paths
  import Rotation
  import opened Polling
  import opened Transfer
  import opened Checksum

  /** `path_contains_ha_config`: the config folder lists `configuration.yaml`. */
  predicate PathContainsHaConfig(listing: seq<string>)
  {
    "configuration.yaml" in listing
  }

  /** What the script observes about one listed backup file: the size
      `stat` reports at every stabilization attempt, the lines `md5sum`
      prints, the bytes of the file, and the local file name derived from
      its modification time and extension. */
  datatype Artifact = Artifact(sizes: seq<nat>, md5Lines: seq<string>, content: seq<byte>, localName: string)

  /** Everything the script reads from the outside world, in the order it
      reads it. */
  datatype Observations = Observations(
    url: string,
    path: string,
    localPath: string,
    destinationExists: bool,
    connected: bool,
    configListing: seq<string>,  // sftp.listdir of the config folder
    configLines: seq<string>,    // ls of the config folder
    countLines: seq<string>,     // ls of the backups folder, for the count
    rotationLines: seq<string>,  // ls of the backups folder, for the loop
    apiRunning: bool,
    existenceCounts: seq<nat>,   // entries in the backups folder per attempt
    backupLines: seq<string>,    // ls of the backups folder after creation
    artifacts: seq<Artifact>,    // one per line of backupLines
    localFiles: map<string, seq<byte>>)

  /** One observation per attempt that can happen. */
  predicate WellFormed(obs: Observations)
  {
    && |obs.existenceCounts| >= ExistenceAttempts
    && |obs.artifacts| == |obs.backupLines|
    && forall i :: 0 <= i < |obs.artifacts| ==> |obs.artifacts[i].sizes| >= StabilizationAttempts
  }

  /** The ways the script stops: its `quit()` calls, and the uncaught
      `IndexError` when `md5sum` prints no line. */
  datatype Reason =
    | DestinationMissing
    | ConnectionFailed
    | NotAConfigFolder
    | ApiUnavailable
    | BackupNotCreated
    | CreationTooLong(remotePath: string)
    | NoChecksumOutput(remotePath: string)
    | ChecksumMismatch(localFile: string)

  datatype Status = Completed | Stopped(reason: Reason)

  /** The effect of a run: the rotation it performed, the local folder it
      leaves, and how it ended. */
  datatype Report = Report(rotation: Rotation.Outcome, localFiles: map<string, seq<byte>>, status: Status)

  /** The effect of processing one backup file: the local folder after it,
      and the reason the script stops there, if it does. */
  datatype Step = Step(localFiles: map<string, seq<byte>>, stop: Option<Reason>)

  // ---------------------------------------------------------------------
  // Specification
  // ---------------------------------------------------------------------

  /** One iteration of the loop over the listed backups, with `rule` the
      deletion guard of line 149. */
  function ArtifactStep(backupsPath: string, localPath: string, name: string, a: Artifact,
                        files: map<string, seq<byte>>, digest: seq<byte> -> string, rule: Rule): Step
    requires |a.sizes| >= StabilizationAttempts
  {
    var remotePath := Join(backupsPath, name);
    if StabilizationOutcome(a.sizes).TooLong? then Step(files, Some(CreationTooLong(remotePath)))
    else
      match ParseMd5Output(a.md5Lines)
      case Failure(_) => Step(files, Some(NoChecksumOutput(remotePath)))
      case Success(sourceSum) =>
        var localFile := Join(localPath, a.localName);
        if DecideWith(rule, sourceSum, digest(a.content)).deletesLocal then
          Step(files - {localFile}, Some(ChecksumMismatch(localFile)))
        else
          Step(files[localFile := a.content], None)
  }

  /** The loop over the listed backups from position `i` on. */
  function ArtifactsFrom(backupsPath: string, localPath: string, names: seq<string>, artifacts: seq<Artifact>,
                         i: nat, files: map<string, seq<byte>>, digest: seq<byte> -> string, rule: Rule): Step
    requires i <= |names| == |artifacts|
    requires forall k :: 0 <= k < |artifacts| ==> |artifacts[k].sizes| >= StabilizationAttempts
    decreases |names| - i
  {
    if i == |names| then Step(files, None)
    else
      var step := ArtifactStep(backupsPath, localPath, names[i], artifacts[i], files, digest, rule);
      if step.stop.Some? then step
      else ArtifactsFrom(backupsPath, localPath, names, artifacts, i + 1, step.localFiles, digest, rule)
  }

  /** The script from the API check on, once rotation has run. */
  function AfterRotation(obs: Observations, rotation: Rotation.Outcome, digest: seq<byte> -> string, rule: Rule): Report
    requires WellFormed(obs)
  {
    if !obs.apiRunning then Report(rotation, obs.localFiles, Stopped(ApiUnavailable))
    else if ExistenceOutcome(obs.existenceCounts).NotCreated? then Report(rotation, obs.localFiles, Stopped(BackupNotCreated))
    else
      var backupsPath := BackupsPath(WithTrailingSlash(obs.path));
      var names := Rotation.BackupFilenames(obs.backupLines);
      var step := ArtifactsFrom(backupsPath, WithTrailingSlash(obs.localPath), names, obs.artifacts, 0, obs.localFiles, digest, rule);
      Report(rotation, step.localFiles, if step.stop.Some? then Stopped(step.stop.value) else Completed)
  }

  /** A whole run, with `digest` the MD5 hex digest function and `rule`
      the deletion guard of line 149. */
  function SessionSpec(obs: Observations, digest: seq<byte> -> string, rule: Rule): Report
    requires WellFormed(obs)
  {
    if !obs.destinationExists then Report(Rotation.Outcome([], []), obs.localFiles, Stopped(DestinationMissing))
    else if !obs.connected then Report(Rotation.Outcome([], []), obs.localFiles, Stopped(ConnectionFailed))
    else if !PathContainsHaConfig(obs.configListing) then Report(Rotation.Outcome([], []), obs.localFiles, Stopped(NotAConfigFolder))
    else
      var backupsPath := BackupsPath(WithTrailingSlash(obs.path));
      var rotation := Rotation.RotationPlan(obs.configLines, obs.countLines, obs.rotationLines, backupsPath);
      AfterRotation(obs, rotation, digest, rule)
  }

  // ---------------------------------------------------------------------
  // The script
  // ---------------------------------------------------------------------

  /** One iteration of the loop over the listed backups: wait for the file
      to stop growing, read the remote checksum, copy the file while hashing
      it, and compare. */
  method ProcessBackup(backupsPath: string, localPath: string, name: string, a: Artifact,
                       files: map<string, seq<byte>>, digest: seq<byte> -> string, rule: Rule) returns (step: Step)
    requires |a.sizes| >= StabilizationAttempts
    ensures step == ArtifactStep(backupsPath, localPath, name, a, files, digest, rule)
  {
    var remotePath := Join(backupsPath, name);
    var created := AwaitStable(a.sizes);
    if created.TooLong? {
      return Step(files, Some(CreationTooLong(remotePath)));
    }
    var parsed := ParseMd5Output(a.md5Lines);
    if parsed.Failure? {
      return Step(files, Some(NoChecksumOutput(remotePath)));
    }
    var sourceSum := parsed.value;
    var localFile := Join(localPath, a.localName);
    var source := new RemoteFile.Open(a.content);
    var dest := new LocalFile.Create();
    var md5 := new Md5Accumulator(digest);
    var downloadedBits := CopyAndHash(source, dest, md5);
    assert dest.contents == a.content && dest.Flushed() == a.content;
    var written := files[localFile := dest.contents];
    var localSum := md5.HexDigest();
    assert localSum == digest(a.content);
    var decision := DecideWith(rule, sourceSum, localSum);
    if decision.deletesLocal {
      step := Step(written - {localFile}, Some(ChecksumMismatch(localFile)));
      assert written - {localFile} == files - {localFile};
    } else {
      step := Step(written, None);
    }
  }

  /** The script from line 45 to line 153: with `AsWritten` exactly as
      written, with `Intended` with the deletion guard of line 149 corrected. */
  method RunSession(obs: Observations, digest: seq<byte> -> string, rule: Rule) returns (report: Report)
    requires WellFormed(obs)
    ensures report == SessionSpec(obs, digest, rule)
  {
    var sourcePath := WithTrailingSlash(obs.path);
    var backupsPath := BackupsPath(sourcePath);
    var localPath := WithTrailingSlash(obs.localPath);
    var noRotation := Rotation.Outcome([], []);
    if !obs.destinationExists {
      return Report(noRotation, obs.localFiles, Stopped(DestinationMissing));
    }
    if !obs.connected {
      return Report(noRotation, obs.localFiles, Stopped(ConnectionFailed));
    }
    if !PathContainsHaConfig(obs.configListing) {
      return Report(noRotation, obs.localFiles, Stopped(NotAConfigFolder));
    }
    var rotation := Rotation.DeleteBackups(obs.configLines, obs.countLines, obs.rotationLines, backupsPath);
    if !obs.apiRunning {
      return Report(rotation, obs.localFiles, Stopped(ApiUnavailable));
    }
    var existence := AwaitCreation(obs.existenceCounts);
    if existence.NotCreated? {
      return Report(rotation, obs.localFiles, Stopped(BackupNotCreated));
    }
    var names := Rotation.BackupFilenames(obs.backupLines);
    var files := obs.localFiles;
    ghost var whole := ArtifactsFrom(backupsPath, localPath, names, obs.artifacts, 0, obs.localFiles, digest, rule);
    for i := 0 to |names|
      invariant ArtifactsFrom(backupsPath, localPath, names, obs.artifacts, i, files, digest, rule) == whole
    {
      var step := ProcessBackup(backupsPath, localPath, names[i], obs.artifacts[i], files, digest, rule);
      if step.stop.Some? {
        return Report(rotation, step.localFiles, Stopped(step.stop.value));
      }
      files := step.localFiles;
    }
    report := Report(rotation, files, Completed);
  }


  // ---------------------------------------------------------------------
  // Properties
  // ---------------------------------------------------------------------

  /** A backup lets the loop go on exactly when it stabilized and
      `md5sum` printed a line, and, under the intended guard, that line
      gives the digest of its bytes; it is then stored under its local name.
      Only the intended guard stops on a mismatch, and then no copy is left.
      No other local file changes. */
  lemma ArtifactStepSpec(backupsPath: string, localPath: string, name: string, a: Artifact,
                         files: map<string, seq<byte>>, digest: seq<byte> -> string, rule: Rule)
    requires |a.sizes| >= StabilizationAttempts
    ensures var step := ArtifactStep(backupsPath, localPath, name, a, files, digest, rule);
      var localFile := Join(localPath, a.localName);
      && (step.stop.None? <==>
            && StabilizationOutcome(a.sizes).Stable?
            && ParseMd5Output(a.md5Lines).Success?
            && (rule == Intended ==> ParseMd5Output(a.md5Lines).value == digest(a.content)))
      && (step.stop.None? ==> step.localFiles == files[localFile := a.content])
      && (step.stop.Some? && step.stop.value.ChecksumMismatch? ==>
            rule == Intended && step.stop.value.localFile == localFile && localFile !in step.localFiles)
      && (forall f :: f in files && f != localFile ==> f in step.localFiles && step.localFiles[f] == files[f])
  {
  }

  /** When the loop from position `i` gets through, the backup at every
      position `k` from `i` on stabilized, had a checksum line (one that
      matches its bytes, under the intended guard) and is in the local
      folder. */
  lemma {:induction false} ArtifactsCompleteSpec(backupsPath: string, localPath: string, names: seq<string>,
                                                 artifacts: seq<Artifact>, i: nat, files: map<string, seq<byte>>,
                                                 digest: seq<byte> -> string, rule: Rule, k: nat)
    requires i <= k < |names| == |artifacts|
    requires forall j :: 0 <= j < |artifacts| ==> |artifacts[j].sizes| >= StabilizationAttempts
    requires ArtifactsFrom(backupsPath, localPath, names, artifacts, i, files, digest, rule).stop.None?
    ensures StabilizationOutcome(artifacts[k].sizes).Stable?
    ensures ParseMd5Output(artifacts[k].md5Lines).Success?
    ensures rule == Intended ==> ParseMd5Output(artifacts[k].md5Lines).value == digest(artifacts[k].content)
    ensures Join(localPath, artifacts[k].localName) in ArtifactsFrom(backupsPath, localPath, names, artifacts, i, files, digest, rule).localFiles
    decreases k - i
  {
    var step := ArtifactStep(backupsPath, localPath, names[i], artifacts[i], files, digest, rule);
    ArtifactStepSpec(backupsPath, localPath, names[i], artifacts[i], files, digest, rule);
    if k == i {
      ArtifactsFrameSpec(backupsPath, localPath, names, artifacts, i + 1, step.localFiles, digest, rule,
                         Join(localPath, artifacts[i].localName));
    } else {
      ArtifactsCompleteSpec(backupsPath, localPath, names, artifacts, i + 1, step.localFiles, digest, rule, k);
    }
  }

  /** A local file is present after the loop from position `i` when it
      was present before and is written by none of the backups from `i` on,
      or when it is written by one of them and the loop gets through. In
      the first case it keeps its contents. */
  lemma {:induction false} ArtifactsFrameSpec(backupsPath: string, localPath: string, names: seq<string>,
                                              artifacts: seq<Artifact>, i: nat, files: map<string, seq<byte>>,
                                              digest: seq<byte> -> string, rule: Rule, f: string)
    requires i <= |names| == |artifacts|
    requires forall k :: 0 <= k < |artifacts| ==> |artifacts[k].sizes| >= StabilizationAttempts
    requires f in files
    ensures var step := ArtifactsFrom(backupsPath, localPath, names, artifacts, i, files, digest, rule);
      && ((forall k :: i <= k < |names| ==> f != Join(localPath, artifacts[k].localName))
            ==> f in step.localFiles && step.localFiles[f] == files[f])
      && (step.stop.None? ==> f in step.localFiles)
    decreases |names| - i
  {
    if i < |names| {
      var step := ArtifactStep(backupsPath, localPath, names[i], artifacts[i], files, digest, rule);
      ArtifactStepSpec(backupsPath, localPath, names[i], artifacts[i], files, digest, rule);
      if step.stop.None? {
        ArtifactsFrameSpec(backupsPath, localPath, names, artifacts, i + 1, step.localFiles, digest, rule, f);
      }
    }
  }

  /** The loop from position `i` stops on a mismatch only under the
      intended guard, and then the mismatched copy is not in the local
      folder. */
  lemma {:induction false} ArtifactsMismatchSpec(backupsPath: string, localPath: string, names: seq<string>,
                                                 artifacts: seq<Artifact>, i: nat, files: map<string, seq<byte>>,
                                                 digest: seq<byte> -> string, rule: Rule)
    requires i <= |names| == |artifacts|
    requires forall k :: 0 <= k < |artifacts| ==> |artifacts[k].sizes| >= StabilizationAttempts
    ensures var step := ArtifactsFrom(backupsPath, localPath, names, artifacts, i, files, digest, rule);
      step.stop.Some? && step.stop.value.ChecksumMismatch? ==>
        rule == Intended && step.stop.value.localFile !in step.localFiles
    decreases |names| - i
  {
    if i < |names| {
      var step := ArtifactStep(backupsPath, localPath, names[i], artifacts[i], files, digest, rule);
      ArtifactStepSpec(backupsPath, localPath, names[i], artifacts[i], files, digest, rule);
      if step.stop.None? {
        ArtifactsMismatchSpec(backupsPath, localPath, names, artifacts, i + 1, step.localFiles, digest, rule);
      }
    }
  }

  /** A run that stops before rotation deletes nothing and leaves the local
      folder as it was. */
  lemma EarlyStopDeletesNothing(obs: Observations, digest: seq<byte> -> string, rule: Rule)
    requires WellFormed(obs)
    requires !obs.destinationExists || !obs.connected || !PathContainsHaConfig(obs.configListing)
    ensures SessionSpec(obs, digest, rule).rotation.deleted == []
    ensures SessionSpec(obs, digest, rule).localFiles == obs.localFiles
    ensures SessionSpec(obs, digest, rule).status.Stopped?
  {
  }

  /** A completed run passed every check and issued `rm` only for
      archives; every listed backup stabilized, had a checksum line, and is
      in the local folder. Under the intended guard every one of them also
      matched its checksum line; as written, none needed to. */
  lemma CompletedRunVerifiedEveryBackup(obs: Observations, digest: seq<byte> -> string, rule: Rule)
    requires WellFormed(obs)
    requires SessionSpec(obs, digest, rule).status == Completed
    ensures obs.destinationExists && obs.connected && PathContainsHaConfig(obs.configListing) && obs.apiRunning
    ensures ExistenceOutcome(obs.existenceCounts).Created?
    ensures forall p :: p in SessionSpec(obs, digest, rule).rotation.deleted ==> Rotation.IsArchive(p)
    ensures forall k :: 0 <= k < |obs.artifacts| ==>
      && StabilizationOutcome(obs.artifacts[k].sizes).Stable?
      && ParseMd5Output(obs.artifacts[k].md5Lines).Success?
      && (rule == Intended ==> ParseMd5Output(obs.artifacts[k].md5Lines).value == digest(obs.artifacts[k].content))
      && Join(WithTrailingSlash(obs.localPath), obs.artifacts[k].localName) in SessionSpec(obs, digest, rule).localFiles
  {
    var backupsPath := BackupsPath(WithTrailingSlash(obs.path));
    Rotation.RotationDeletesExactlyArchives(obs.configLines, obs.countLines, obs.rotationLines, backupsPath);
    var names := Rotation.BackupFilenames(obs.backupLines);
    var localPath := WithTrailingSlash(obs.localPath);
    var step := ArtifactsFrom(backupsPath, localPath, names, obs.artifacts, 0, obs.localFiles, digest, rule);
    assert step.stop.None? && SessionSpec(obs, digest, rule).localFiles == step.localFiles;
    forall k | 0 <= k < |obs.artifacts|
      ensures StabilizationOutcome(obs.artifacts[k].sizes).Stable?
      ensures ParseMd5Output(obs.artifacts[k].md5Lines).Success?
      ensures rule == Intended ==> ParseMd5Output(obs.artifacts[k].md5Lines).value == digest(obs.artifacts[k].content)
      ensures Join(localPath, obs.artifacts[k].localName) in step.localFiles
    {
      ArtifactsCompleteSpec(backupsPath, localPath, names, obs.artifacts, 0, obs.localFiles, digest, rule, k);
    }
  }

  /** Only the intended guard stops a run on a checksum mismatch, and the
      mismatched local copy is then gone from the local folder: the script
      as written never stops on one. */
  lemma MismatchLeavesNoCopy(obs: Observations, digest: seq<byte> -> string, rule: Rule)
    requires WellFormed(obs)
    requires SessionSpec(obs, digest, rule).status.Stopped? && SessionSpec(obs, digest, rule).status.reason.ChecksumMismatch?
    ensures rule == Intended
    ensures SessionSpec(obs, digest, rule).status.reason.localFile !in SessionSpec(obs, digest, rule).localFiles
  {
    var backupsPath := BackupsPath(WithTrailingSlash(obs.path));
    var names := Rotation.BackupFilenames(obs.backupLines);
    ArtifactsMismatchSpec(backupsPath, WithTrailingSlash(obs.localPath), names, obs.artifacts, 0, obs.localFiles, digest, rule);
  }

  /** A run only ever writes local files under the names of listed backups:
      every other file of the local folder is left as it was. */
  lemma RunTouchesOnlyBackupNames(obs: Observations, digest: seq<byte> -> string, rule: Rule, f: string)
    requires WellFormed(obs)
    requires f in obs.localFiles
    requires forall k :: 0 <= k < |obs.artifacts| ==> f != Join(WithTrailingSlash(obs.localPath), obs.artifacts[k].localName)
    ensures f in SessionSpec(obs, digest, rule).localFiles && SessionSpec(obs, digest, rule).localFiles[f] == obs.localFiles[f]
  {
    var backupsPath := BackupsPath(WithTrailingSlash(obs.path));
    var names := Rotation.BackupFilenames(obs.backupLines);
    ArtifactsFrameSpec(backupsPath, WithTrailingSlash(obs.localPath), names, obs.artifacts, 0, obs.localFiles, digest, rule, f);
  }

  /** A run in which every check passes and the one listed backup has a
      checksum line completes and stores the backup's bytes under its local
      name when the line matches the bytes, under either guard; when it does
      not match, the script as written still completes and keeps the copy,
      while the intended guard stops and leaves no copy. */
  lemma OneBackupRun(obs: Observations, digest: seq<byte> -> string, rule: Rule)
    requires WellFormed(obs) && |obs.artifacts| == 1
    requires obs.destinationExists && obs.connected && PathContainsHaConfig(obs.configListing) && obs.apiRunning
    requires ExistenceOutcome(obs.existenceCounts).Created?
    requires StabilizationOutcome(obs.artifacts[0].sizes).Stable?
    requires ParseMd5Output(obs.artifacts[0].md5Lines).Success?
    ensures var localFile := Join(WithTrailingSlash(obs.localPath), obs.artifacts[0].localName);
      var matches := ParseMd5Output(obs.artifacts[0].md5Lines).value == digest(obs.artifacts[0].content);
      && (matches || rule == AsWritten ==>
            && SessionSpec(obs, digest, rule).status == Completed
            && SessionSpec(obs, digest, rule).localFiles == obs.localFiles[localFile := obs.artifacts[0].content])
      && (!matches && rule == Intended ==>
            && SessionSpec(obs, digest, rule).status == Stopped(ChecksumMismatch(localFile))
            && SessionSpec(obs, digest, rule).localFiles == obs.localFiles - {localFile})
  {
    var backupsPath := BackupsPath(WithTrailingSlash(obs.path));
    var localPath := WithTrailingSlash(obs.localPath);
    var names := Rotation.BackupFilenames(obs.backupLines);
    var a := obs.artifacts[0];
    ArtifactStepSpec(backupsPath, localPath, names[0], a, obs.localFiles, digest, rule);
    var step := ArtifactStep(backupsPath, localPath, names[0], a, obs.localFiles, digest, rule);
    if step.stop.None? {
      assert ArtifactsFrom(backupsPath, localPath, names, obs.artifacts, 1, step.localFiles, digest, rule) == step;
    }
  }
}
