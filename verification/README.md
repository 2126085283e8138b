# ha-backup in Dafny

A model of `ha-backup.py`, a script that backs up a Home Assistant
installation. The script:

- normalises the URL, config path and destination path;
- checks that the remote config folder holds `configuration.yaml`;
- rotates the remote backups folder: it issues `sudo rm -f` for every listed path that ends with `.tar` and skips everything else;
- asks the Home Assistant API to create a backup;
- polls until the backups folder lists something (at most 5 attempts);
- then handles each listed backup in turn:
  - polls until the backup's size has stopped changing (at most 120 attempts);
  - reads the backup's remote `md5sum`;
  - copies it in 2048-byte chunks while hashing the bytes written locally;
  - compares the two checksums.

Every remote or local observation is an input of the model: `ls` outputs,
sizes seen at each attempt, `md5sum` lines, the backup's bytes and the
local folder. A stop of the script (a `quit()`, or the uncaught `IndexError`
when `md5sum` prints no line) is a `Stopped(reason)` result.

Modules:

- `Text`: the `str` operations the script relies on: `endswith`, substring search (what `grep` matches), `strip()` and `split(" ")[0]`.
- `Paths`: the normalisation at lines 43, 45 and 48, and POSIX `os.path.join` with two arguments.
- `Rotation`: `delete_backups` and its helpers. The loop is a method proved against a selection function.
- `Polling`: the existence and stabilization loops. Each is a method with a `for` loop, proved against a recursive specification function.
- `Transfer`: the copy loop over three objects:
  - the remote file, with a read position;
  - the local file, with its contents and flushed prefix;
  - the MD5 accumulator, which holds the bytes fed to it.

  The loop is proved to write every byte once, in order, in the chunks the reads return, and to hash exactly the flushed bytes.
- `Checksum`: parsing of the `md5sum` output, and the decision at lines 148-152, both as written and as intended.
- `Session`: the script from line 45 to line 153. `RunSession` runs the stage methods in order and is proved equal to the specification function `SessionSpec`. The lemmas about `SessionSpec` state what a run guarantees. Both take a `Rule` that selects the deletion guard of line 149: `AsWritten` is the script exactly as written, where a mismatched copy is kept and the loop goes on; `Intended` is the corrected guard, where a mismatch deletes the copy and stops the run. Every lemma holds for both, and says where the two differ.

MD5 itself is a parameter `digest: seq<byte> -> string`. The accumulator holds it, and the hex digest is `digest(bytes fed)`.

## Model

| member | source | states |
|---|---|---|
| Text.Strip | ha-backup.py:16 | the stripped line is no longer than the line and neither starts nor ends with whitespace |
| Text.StripKeepsTrimmed | ha-backup.py:16 | a line without surrounding whitespace is left unchanged by `strip()` |
| Text.StripIdempotent | ha-backup.py:16 | stripping twice is stripping once |
| Text.StripIsSlice | ha-backup.py:16 | what `strip()` keeps is one contiguous slice of the line, and everything cut away on either side is whitespace |
| Text.FirstField | ha-backup.py:122 | `split(" ")[0]` is a space-free prefix of its input, followed by a space whenever it is shorter than the input |
| Text.Contains | ha-backup.py:13 | what `grep` matches on: the pattern occurs in the line; characterised in both directions by `Text.ContainsAt` and `Text.ContainsOccurs` |
| Text.ContainsAt | ha-backup.py:13 | `grep backups` matches a line that holds `backups` at any position |
| Text.ContainsOccurs | ha-backup.py:13 | conversely, a line `grep backups` matches holds `backups` at some position, which the lemma returns |
| Paths.Join | ha-backup.py:25 | POSIX `os.path.join` with two arguments; its shape is stated by `Paths.JoinShape` and `Paths.JoinedSuffixIsNameSuffix` |
| Paths.JoinShape | ha-backup.py:25 | `os.path.join(base, name)` ends with `name`; it starts with `base` unless `name` is absolute; and it is `name` itself or has a `/` right before `name` |
| Paths.JoinedSuffixIsNameSuffix | ha-backup.py:25-26 | a joined path ends with a slash-free suffix such as `.tar` exactly when the file name does |
| Paths.WithTrailingSlash | ha-backup.py:45-48 | the normalised path ends with `/`, extends the input by at most one character, and equals the input when that already ends with `/` |
| Paths.WithTrailingSlashIdempotent | ha-backup.py:45-48 | normalising a normalised path changes nothing |
| Paths.ApiUrl | ha-backup.py:43 | the endpoint ends with `/api`, starts with the given URL and is at most 4 characters longer |
| Paths.ApiUrlIsNormalisedUrlPlusApi | ha-backup.py:43 | the endpoint is the URL with exactly one `/` added, then `api`, whichever form the URL had |
| Paths.BackupsPath | ha-backup.py:46 | the backups folder `os.path.join(source_path, "backups/")`; its value is stated by `Paths.BackupsPathOfNormalised` |
| Paths.BackupsPathOfNormalised | ha-backup.py:45-46 | the backups folder is the normalised config path followed by `backups/`, so it ends with `/backups/` |
| Rotation.BackupFilenames | ha-backup.py:15-16 | one stripped name per line of `ls` |
| Rotation.StripListingLine | ha-backup.py:16 | an `ls` line `name\n` strips back to `name` when the name has no surrounding whitespace |
| Rotation.BackupsFolderExists | ha-backup.py:12-13 | `ls <path>` piped to `grep backups` prints a line: some line of the listing holds `backups`; both directions by `Rotation.BackupsEntryFound` and `Rotation.BackupsFolderFound` |
| Rotation.BackupsFolderFound | ha-backup.py:12-13 | the backups folder counts as existing only when some listing line holds `backups`, at a position the lemma returns |
| Rotation.BackupsEntryFound | ha-backup.py:12-13 | a `backups` entry in the config folder listing makes the backups folder count as existing |
| Rotation.DeleteBackups | ha-backup.py:21-30 | the result of `delete_backups` is the rotation plan: the delete and skip lists of the listing when the folder exists and is non-empty, nothing otherwise |
| Rotation.RemoveArchives | ha-backup.py:24-30 | the loop issues `rm` for the joined paths that end with `.tar` and skips the others, each list in listing order |
| Rotation.SelectFirstMembership | ha-backup.py:24-30 | a path is among those selected from the first `n` exactly when it is among the first `n` listed and its `.tar` test gives the requested answer |
| Rotation.SelectMembership | ha-backup.py:24-30 | the same statement for the whole listing |
| Rotation.SelectFirstSplits | ha-backup.py:24-30 | every listed path is either deleted or skipped, so the two lists together are as long as the listing |
| Rotation.RotationDeletesExactlyArchives | ha-backup.py:21-30 | rotation issues no `sudo rm -f` unless the backups folder was found and is non-empty; otherwise it issues one for the entry at each position exactly when its name ends with `.tar` and skips it exactly otherwise; every path given to `rm` ends with `.tar` |
| Rotation.RotationOfArchiveAndNote | ha-backup.py:21-30 | a folder holding an archive and a note: `rm` is issued for the archive's path, the note is skipped |
| Polling.AwaitCreation | ha-backup.py:88-99 | the existence loop returns the outcome of the existence specification |
| Polling.ExistenceFromSpec | ha-backup.py:89-96 | the attempts from `i` on succeed at the first attempt whose listing is non-empty, and fail when all of them are empty |
| Polling.ExistenceSucceedsAt | ha-backup.py:89-96 | existence succeeds at attempt `k` exactly when attempts 1 to k-1 saw an empty folder and attempt `k` did not |
| Polling.ExistenceFailsIffAllEmpty | ha-backup.py:88-99 | existence fails exactly when all five listings were empty |
| Polling.AwaitStable | ha-backup.py:105-120 | the stabilization loop returns the outcome of the stabilization specification |
| Polling.StabilizationFromSpec | ha-backup.py:107-117 | the attempts from `i` on stop at the first attempt whose size is positive and equal to the previous one; otherwise they run out with the last size equal to the 120th sample |
| Polling.StabilizesAt | ha-backup.py:107-115 | stabilization succeeds at attempt `k` exactly when samples k-1 and k are equal and positive and no earlier pair was; it never succeeds at attempt 1 |
| Polling.StabilizationTimesOut | ha-backup.py:107-120 | the loop runs out exactly when no adjacent pair of samples is equal and positive, and the last recorded size is then the 120th sample |
| Polling.StabilizesOnSecondEqualSample | ha-backup.py:105-115 | samples 0, 50, 50 are stable at attempt 3 with size 50 |
| Transfer.RemoteFile.Open | ha-backup.py:125 | opening the remote backup puts the read position at 0 |
| Transfer.RemoteFile.Read | ha-backup.py:138 | `read(size)` returns the next `size` bytes, fewer at the end of the file and none once the end is reached, and moves the position past them |
| Transfer.LocalFile.Create | ha-backup.py:137 | opening with `"wb"` gives an empty file with nothing written |
| Transfer.LocalFile.Write | ha-backup.py:139 | `write` appends the chunk and leaves the flushed prefix alone |
| Transfer.LocalFile.Flush | ha-backup.py:140 | `flush` hands all written bytes to the operating system |
| Transfer.Md5Accumulator.constructor | ha-backup.py:132 | a fresh accumulator has been fed nothing |
| Transfer.Md5Accumulator.HexDigest | ha-backup.py:146 | `hexdigest()` is the digest of exactly the bytes fed so far; `Transfer.CopyAndHash` states that those are the flushed bytes |
| Transfer.Md5Accumulator.Update | ha-backup.py:141 | `update` appends the chunk to the hashed bytes |
| Transfer.StoreChunk | ha-backup.py:139-141 | one loop body: the chunk is appended and flushed, and the same chunk is hashed |
| Transfer.CopyAndHash | ha-backup.py:136-146 | after the loop, the read position is at the end; the local file holds exactly the remote bytes, all flushed, written in the chunks `read(2048)` returns; the hash was fed exactly the flushed bytes; and the counter is 2048 times the number of chunks |
| Transfer.ChunksAdvance | ha-backup.py:138-139 | writing the next chunk leaves exactly the chunks of the rest of the file to be written |
| Transfer.ChunksStep | ha-backup.py:138 | reading from a position yields the next chunk, then the chunks of the rest |
| Transfer.ChunksReassemble | ha-backup.py:138-139 | the chunks, concatenated, are the file's bytes |
| Transfer.ChunkSizes | ha-backup.py:138 | no chunk is empty and none exceeds 2048 bytes |
| Transfer.ChunksFullButLast | ha-backup.py:138 | every chunk but the last is exactly 2048 bytes |
| Transfer.ChunkCount | ha-backup.py:138 | the number of chunks is the file size divided by 2048, rounded up |
| Transfer.DownloadedBitsBounds | ha-backup.py:136-143 | the final counter is at least the file size and less than the size plus 2048; it equals the size exactly when the size is a multiple of 2048 |
| Transfer.ShortFileIsOneChunk | ha-backup.py:138 | a file of 1 to 2048 bytes is read in one chunk |
| Checksum.ParseMd5Output | ha-backup.py:122 | the parse fails exactly when `md5sum` printed no line; otherwise the digest is a space-free prefix of the stripped first line |
| Checksum.FirstFieldOfWord | ha-backup.py:122 | the text before the first space of `word + " " + ...` is `word` |
| Checksum.ParseMd5Line | ha-backup.py:122 | the line `<digest> *<path>` gives the 32-digit digest back, whatever the path and whatever lines follow |
| Checksum.DecideAsWritten | ha-backup.py:148-152 | as written, the message says "matching" exactly when the digests are equal, and the local copy is never deleted |
| Checksum.Decide | ha-backup.py:148-152 | intended rule: the message says "matching" exactly when the digests are equal, and the copy is deleted exactly when it does not match |
| Checksum.AsWrittenKeepsMismatchedCopy | ha-backup.py:148-152 | a mismatched copy is reported as not matching, yet kept as written; the intended rule deletes it |
| Checksum.RulesAgreeExactlyOnMatches | ha-backup.py:148-152 | the written and intended rules agree exactly on matching copies |
| Session.PathContainsHaConfig | ha-backup.py:9-10 | the config folder lists `configuration.yaml`; `Session.EarlyStopDeletesNothing` states what its failure does |
| Session.ProcessBackup | ha-backup.py:101-153 | one iteration of the per-backup loop gives the specified step under the given guard of line 149: stabilize, parse the checksum, copy, compare, and with `AsWritten` keep the copy and go on whatever the comparison says |
| Session.RunSession | ha-backup.py:45-153 | a run of the script gives the specified report, under the given guard of line 149 |
| Session.ArtifactStepSpec | ha-backup.py:101-153 | a backup lets the loop go on exactly when it stabilized and `md5sum` printed a line, and, under the intended guard, that line equals the digest of its bytes; it is then stored under its local name; only the intended guard stops on a mismatch, leaving no copy; no other local file changes |
| Session.ArtifactsCompleteSpec | ha-backup.py:101-153 | when the loop gets through, every backup from a position on stabilized, had a checksum line (matching its bytes under the intended guard) and is in the local folder |
| Session.ArtifactsFrameSpec | ha-backup.py:131-151 | a local file no backup writes is left as it was, and a file that was present stays present when the loop gets through |
| Session.ArtifactsMismatchSpec | ha-backup.py:148-152 | the loop stops on a mismatch only under the intended guard, and the mismatched copy is then gone |
| Session.EarlyStopDeletesNothing | ha-backup.py:49-71 | a missing destination, a failed connection, or a config folder without `configuration.yaml` stops the run before any rotation or local write |
| Session.CompletedRunVerifiedEveryBackup | ha-backup.py:45-153 | a completed run passed every check; it issued `rm` only for `.tar` paths; every listed backup stabilized, had a checksum line and is in the local folder; under the intended guard each also matched its checksum |
| Session.MismatchLeavesNoCopy | ha-backup.py:148-152 | only the intended guard stops a run on a checksum mismatch, and then no copy of the mismatched backup is left; the script as written never stops on one |
| Session.RunTouchesOnlyBackupNames | ha-backup.py:131-151 | every local file whose name no listed backup maps to keeps its contents |
| Session.OneBackupRun | ha-backup.py:101-153 | with every check passing and one listed backup: a matching copy completes the run and is stored under either guard; a mismatched copy is still stored and the run completes as written, while the intended guard stops and leaves no copy |

## Left out

- SSH and SFTP sessions, `exec_command`, `sftp.open`, `stat` and `read`, the remote `ls`, `md5sum` and `sudo rm` commands: the model receives their outputs as inputs and reports the `rm` commands as the delete list.
- The Home Assistant client (lines 76-85 and 156-163): the API check is one boolean input; the backup trigger and the update of `input_datetime.backup_last` are not modelled.
- `time.sleep` between polling attempts: waiting has no logical effect.
- MD5 itself: `hashlib` is a parameter function from bytes to a hex string.
- The local file name (lines 130-131): `datetime` formatting of the modification time and `os.path.splitext` are library behaviour, so the name is an input.
- The printed progress percentage (line 144) and all other messages: only the integer counter is modelled.
- Argument parsing, the `os.path.exists` check (a boolean input), the connection credentials and the final `close` calls.
- `Text.IsSpace`: covers the whitespace Python's `str.isspace` accepts in the Latin-1 range only; wider Unicode whitespace is not modelled.
- `Polling.AwaitCreation`, `Polling.AwaitStable`: they require one observation per attempt that can happen (5 and 120), since the source polls a live system.
- `Session.WellFormed`: the run requires one `Artifact` observation per line of the post-creation listing. The script issues separate `ls` calls at lines 13, 19, 24, 90 and 101, and the model takes each of their outputs as its own input.
- `Rotation.SelectFirstSplits`: states that the delete and skip lists together have the length of the listing, not that they are a permutation of it. Membership in each list is stated exactly by `Rotation.RotationDeletesExactlyArchives`.
- Shell word splitting and globbing of the paths pasted unquoted into `ls`, `rm -f` and `md5sum` commands (lines 13, 16, 30, 122) are not modelled. The delete list is the list of `rm` arguments, so "only `.tar` paths are removed" holds for those arguments, not for what a shell makes of a name with spaces or `*`.
- `Transfer.LocalFile.Flush`: `flush()` only hands the buffered bytes to the operating system; without `os.fsync` nothing is durable, and neither `fsync` nor what reaches the disk is modelled. "Flushed" means "passed to the operating system".
- An uncaught exception from a remote call (other than the missing `md5sum` line) is not modelled.

## Findings

| source | as written | input that shows it | evidently intended | confidence | as-written member | corrected member |
|---|---|---|---|---|---|---|
| ha-backup.py:149 | `if source_md5_sum != source_md5_sum` compares the remote digest with itself, so the deletion branch at lines 150-152 never runs | remote digest `"abc"`, local digest `"def"`: line 148 prints "NOT matching", but the local copy is kept and the script reports the backup transferred | delete the local copy and stop when the remote digest differs from the local one, as the message at line 148 and the branch body imply | not executed | Checksum.DecideAsWritten | Checksum.Decide |
