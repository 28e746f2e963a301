# Verified model of the release, update and CI helpers of open-node

Dafny 4.11 models of the self-contained algorithms and protocols of the repository, and proofs about
them. `dafny verify dfyconfig.toml` checks everything.

| area | modules |
|---|---|
| split of the backend test files over CI shards (longest first, least loaded shard) | `LptSchedule`, `TestShards`, `LptTightness` |
| the root update helper between panel, installer and readers of `state.json` | `UpdateHelper`, `UpdateRequest`, `UpdateSafety`, `UpdateStateFile`, `UpdateStatus`, `UpdateTimes`, `UpdateRuns`, `UpdateLeftovers`, `UpdateProgress`, `UpdateRemoval`, `UpdateHistory`, `UpdateAccount` |
| bounded reads, complete writes and the tar preflight of the age download | `ByteStreams`, `TarPreflight`, `TarLimits` |
| wheel RECORD: two writers, one checker, and `csv` between them | `CsvFormat`, `CsvGrammar`, `WheelRecord`, `WheelPrograms`, `WheelContents` |
| SHA256SUMS printer and readers; `KEY=value` readers and editor | `ChecksumFile`, `ChecksumShapes`, `EnvFile`, `EnvShapes`, `TextLines`, `TextShapes` |
| process tree closure and redaction of the bootstrap smoke | `ProcessTree`, `Redaction` |
| shared | `Common`, `Alphabets`, `Sorting` |

Code that changes things step by step is a method with a loop (the shards are objects whose fields are
updated and whose lists are sorted in place; streams are objects). The update helper is a transition
system: `Next` takes a world and one action of the helper, the panel, the installer, an outsider, or a
failure, and is total, so a behaviour is any list of actions. Every statement about the helper is about
every such list. A power loss leaves of each directory entry any value it had since the directory was
last synced, and of each file without `fsync` any bytes at all.

## How the main results fit together

* **Sharding.** `BuildShards` returns what `BuildSpec` says. About `BuildSpec`: it succeeds exactly when
  `BuildSucceedsIff` says, its shards are a partition, locally optimal, within the factor
  4/3 - 1/(3m) of every other split, and independent of the order of the input. The factor is proved
  without an exchange argument: jobs above a third of the capacity count double, and then no machine
  of the other schedule holds more than two while every machine here holds at least two. For every
  number of shards there are files that reach the factor.
  With weights that may be zero or negative the "empty shard" error can occur; `BuildSucceedsIff` gives
  the exact condition, and the weight floor of `discover_test_files` excludes it. `ShardsAreFilledInTurn`
  says which file is on which shard.
* **Update helper.** `InstallerStartsAreSafe` (never two starts for one request file, each one
  justified by what this run consumed, asked and read) has `UpdateCanSucceed` as its counterpart: from any
  world with a valid request a behaviour ends with that revision deployed. The panel creates the
  request file and then writes into it in place, so the helper can read a file that is still
  changing; the event `Scribbled` marks this, and what a run acts on is then what it read, not what the file
  finally held. The helper compares the inode of the name and then removes by name: the file removed is the
  one that was read if and only if the panel leaves the name alone in between (`RemovesWhatItReadIff`), and a
  request put there in between can be lost unread (`RequestCanBeLost`).
  Everything a run is told is an event (`EveryEventIsTrue`: the manifest, the exit code, the marker were as
  recorded), and `EveryPayloadIsTrue` reads each status and each field of a payload off the earlier events.
* **Tar preflight.** `IsArchive` is the printer's image: members one after the other, then at least two
  zero blocks. `Preflight` succeeds exactly on it and returns the layout of the only member list that
  prints to the input. `TarLimits.AcceptedIff` gives the accepted members in numbers.
* **RECORD.** With PEP 376 and PEP 427 rows in the CSV form of section 2 of RFC 4180, the written RECORD
  passes the checker exactly when `csv` can carry the member names that go in. Releases of Python's `csv`
  that do not quote a field because of a carriage return (the model's `bare`) cannot carry a name like
  "a\rb", and no other check on a wheel refuses such a name; with the others the condition always holds.
  The conditions are on the names of the source archive, for the release as it renames them. A rename
  that lands on an existing member (`NoClash` fails) loses a member, yet the RECORD of what is left
  still passes.
  What the members of a rebuilt wheel contain is in `WheelContents`; what `csv.reader` does with text that was not printed is stated as a grammar (`CsvGrammar.ReadIff`).
* **Redaction.** `ReplaceIff` says what one replacement keeps and what it turns into markers. A secret is left
  in no text and beside no other secrets if and only if it cannot touch a marker: laid over "[REDACTED]" with
  at least one shared character, it disagrees with it somewhere (`CompleteIff`). Secrets without brackets touch
  only as parts of "REDACTED"; secrets that end in "[" or begin with "]" always touch. For one given set the
  condition is exact when touching secrets are parts of the marker (`SetCompleteIff`); whether a secret that
  runs across the edge of the marker leaks depends on its companions.
* **KEY=value.** Editing commutes with parsing if and only if the key is one that `parse_env` can return
  and the value has no line break but in its trailing blanks; the two readers agree if and only if no
  value ends in a blank. `EnvIff` and `ManifestIff` say which lines each reader takes and what they say;
  `SplitLinesIff` and `StripIff` do the same for the text functions below them.

## Model

| member | source | states |
|---|---|---|
| LptSchedule.LoadsConserveWork | scripts/ci/run_backend_test_shard.py:59-62 | for any assignment of jobs to machines, the loads add up to the total weight |
| LptSchedule.GreedyTarget | scripts/ci/run_backend_test_shard.py:60 | each file goes to a shard of least load among those before it, and every shard of lower index is strictly heavier |
| LptSchedule.LocalOptimum | scripts/ci/run_backend_test_shard.py:55-62 | longest first on non-negative weights: load(s) <= load(t) + weight of any job on s |
| LptSchedule.NoOverflowByCounting | scripts/ci/run_backend_test_shard.py:55-62 | if the last job weighs more than a third of the capacity, a greedy overflow would need more jobs than any schedule within that capacity can hold |
| LptSchedule.GrahamBound | scripts/ci/run_backend_test_shard.py:54-62 | 3m * load <= (4m - 1) * cap for every machine, against every schedule whose loads are at most cap |
| TestShards.BuildSucceedsIff | scripts/ci/run_backend_test_shard.py:49-52 | success iff 1 <= count <= number of files, no path twice, and at least count - 1 files of positive weight |
| TestShards.ShardsPartitionTheFiles | scripts/ci/run_backend_test_shard.py:54-75 | the shards hold exactly the input files; index, weight = sum of its files, not empty, in code point order of the paths |
| TestShards.NoEmptyShardIff | scripts/ci/run_backend_test_shard.py:70-71 | no shard is empty iff count <= files of positive weight + 1 |
| TestShards.CheckShards | scripts/ci/run_backend_test_shard.py:64-71 | the three checks on the filled shards return exactly the error or success of the specification; coverage is always exact |
| TestShards.Discovered | scripts/ci/run_backend_test_shard.py:38-45 | every discovered file keeps its path and weighs its line count, an empty one 1 |
| TestShards.DiscoveredFilesAlwaysShard | scripts/ci/run_backend_test_shard.py:38-75 | with the weight floor, distinct paths and a legal count none of the errors can occur |
| TestShards.ShardsAreLocallyOptimal | scripts/ci/run_backend_test_shard.py:55-62 | no file can be moved to another shard with profit |
| TestShards.ShardsWithinGrahamBound | scripts/ci/run_backend_test_shard.py:54-62 | every returned shard is within (4/3 - 1/(3m)) of the heaviest shard of any other split of the same files |
| TestShards.FillingExists | scripts/ci/run_backend_test_shard.py:55-62 | the files can be placed heaviest first, ties in code point order, each on the lightest shard and the first of those |
| TestShards.ShardsAreFilledInTurn | scripts/ci/run_backend_test_shard.py:55-62 | however they are placed in that order and by that rule, the returned shards hold exactly what this puts on each |
| LptTightness.GrahamBoundIsReached | scripts/ci/run_backend_test_shard.py:54-62 | for every number m of shards there are files whose first shard gets 4m - 1 while another split gives every shard 3m, so the factor is reached |
| TestShards.OrderDoesNotMatter | scripts/ci/run_backend_test_shard.py:55-75 | the result, errors included, is the same for every permutation of the input |
| TestShards.JobsRunEveryFileOnce | scripts/ci/run_backend_test_shard.py:48-75 | jobs that each compute their own split from their own listing run every file exactly once between them |
| TestShards.LeastLoaded | scripts/ci/run_backend_test_shard.py:60 | the shard of least weight, the first one on a tie |
| TestShards.Shard.Add | scripts/ci/run_backend_test_shard.py:61-62 | appends the file and adds its weight, index unchanged |
| TestShards.Shard.SortFiles | scripts/ci/run_backend_test_shard.py:74 | sorts the list in place by path, weight and index unchanged |
| TestShards.PlaceFiles | scripts/ci/run_backend_test_shard.py:59-62 | the loop leaves in each shard the load and the files of the greedy schedule |
| TestShards.BuildShards | scripts/ci/run_backend_test_shard.py:48-75 | returns fresh shards equal to the specification, or exactly its error; "incomplete" never occurs |
| Sorting.SortBySorts | scripts/ci/run_backend_test_shard.py:55-58 | `sorted` with a total preorder gives a sorted list |
| Sorting.SortByPermutes | scripts/ci/run_backend_test_shard.py:55-58 | and a permutation of the input |
| Sorting.SortByIsStable | scripts/vps/smoke-agent-bootstrap.py:77 | entries that the order does not tell apart keep the order of the input |
| Sorting.SortedIsUnique | scripts/ci/run_backend_test_shard.py:55-58 | under an antisymmetric order there is only one sorted permutation |
| Sorting.TextLeIff | scripts/ci/run_backend_test_shard.py:55-58 | the path comparison is the order by the first difference: there the first text ends or has the smaller character |
| UpdateRequest.ReadsExactlyRequests | deploy/application_update_helper.py:234-253 | a request is read iff the content has a legal size and is an object with exactly the five fields of a well-formed request, and it is that request |
| UpdateRequest.QueuedIsRead | backend/app/open_node/services/application_updates.py:156-162 | if the JSON text loads as the fields that the panel dumps, the helper reads the request that was queued |
| UpdateSafety.StepKeepsInv | deploy/application_update_helper.py:189-362 | every action of helper, panel, installer, outsider or failure keeps the invariant |
| UpdateSafety.InstallerStartsAreSafe | deploy/application_update_helper.py:212-343 | over all behaviours: no request file is behind two installer starts, and each start follows the consumption of its file by the same run, for an `apply` request whose revision equals the one remote tip seen and differs from the one deployed revision read |
| UpdateSafety.ReadChunk | deploy/application_update_helper.py:59-68 | one read call leaves a prefix of the file, or at its end the whole file |
| UpdateSafety.LaunchIsJustified | deploy/application_update_helper.py:292-343 | the step that starts the installer has the justification at that moment |
| UpdateSafety.CanLaunchComesFrom | deploy/application_update_helper.py:298-343 | no step leads back to a point from which the installer may be started, so a run starts it once |
| UpdateStateFile.ReaderSeesOldOrNew | deploy/application_update_helper.py:189-209 | while at most one payload is published, readers see the whole previous content or the whole new payload, through short writes, exceptions, kills and power losses |
| UpdateStateFile.StateFileIsAlwaysWhole | deploy/application_update_helper.py:71-77 | in every state of every behaviour `state.json` is absent or one whole payload |
| UpdateStateFile.ReaderSeesLastPublished | deploy/application_update_helper.py:205-207 | without power loss `state.json` is the payload published last |
| UpdateStateFile.ReturnedWriteIsDurable | deploy/application_update_helper.py:201-207 | once `write_state` returns, its payload is visible and no power loss takes it back |
| UpdateStateFile.DataStep | deploy/application_update_helper.py:193-206 | a file that `state.json` may show is never written |
| UpdateRuns.EveryRunFollowsARoute | deploy/application_update_helper.py:292-362 | each run is of one kind: `initialize` consumes nothing and publishes nothing, idle or recovery_required, without id; `process` publishes nothing, a lone failed without id, or a prefix of checking then failed, current or available, or checking, updating then succeeded, failed or recovery_required, all under the id parsed from the content this run consumed and one start time |
| UpdateStatus.ReturnEndsAtRest | deploy/application_update_helper.py:300-349 | a run that consumed a request and returned ends in a status that is not transient |
| UpdateStatus.TransientMeansCrash | deploy/application_update_helper.py:292-362 | `checking` or `updating` as the last payload of a run means a kill, a power loss, or an exception of `manifest`, `run_update` or `write_state` |
| UpdateLeftovers.TransientFileMeansCrash | deploy/application_update_helper.py:292-362 | without power loss and while no helper runs, a transient status in `state.json` was left there by such a run |
| UpdateStatus.StatusAgreesWithRevisions | deploy/application_update_helper.py:165-186 | unless an outsider changed the manifest earlier in the run: succeeded and current carry equal revisions and has_update false, available and updating carry has_update true |
| UpdateStatus.WriteForesees | deploy/application_update_helper.py:317-349 | the status chosen still fits the manifest that `state_payload` reads again |
| UpdateTimes.EveryPayloadIsDated | deploy/application_update_helper.py:165-186 | start time iff request id, check time iff remote revision, completion time iff the status ends a request |
| UpdateHistory.StepKeepsHistory | deploy/application_update_helper.py:189-362 | every event of a run follows from the events before it: no question before the request, no installer without answer and manifest, no status or end but the one they call for |
| UpdateAccount.EveryEventIsTrue | deploy/application_update_helper.py:165-362 | over all behaviours, each event was recorded by one step and says what was so then: the manifest read, the exit code, the marker, the answer of the remote, the file behind the name, the payload in place |
| UpdateAccount.EveryPayloadIsTrue | deploy/application_update_helper.py:165-186 | over all behaviours, each of the eight statuses is published iff the earlier events of the run call for it (succeeded iff exit code 0 and the manifest read again is the tip; recovery_required iff the marker was seen), latest_revision is the answer of the remote, current_revision the manifest last read, id and times those of the events |
| UpdateAccount.CurrentWasDeployed | deploy/application_update_helper.py:170-178 | current_revision was the deployed revision of the world in which the run last read the manifest for a payload |
| UpdateAccount.EveryEndIsTrue | deploy/application_update_helper.py:292-362 | a run returns or raises as its events call for: a refused request, no answer, a failed installation, or an exception of `manifest`, `run_update` or `write_state` |
| UpdateAccount.OnlySafeFilesAreConsumed | deploy/application_update_helper.py:220-231 | no run removes or consumes a request file that it did not find safe and of 2 to 4096 bytes before |
| UpdateProgress.UpdateCanSucceed | deploy/application_update_helper.py:292-349 | from any idle world with a valid `apply` request for another revision, some behaviour consumes it, installs that revision and publishes succeeded under its id |
| UpdateProgress.StateCanBeWritten | deploy/application_update_helper.py:189-209 | with a readable manifest, state_payload and `write_state` can complete: the payload is visible, manifest and request name are unchanged, the history only grows |
| UpdateProgress.RequestCanBeConsumed | deploy/application_update_helper.py:212-253 | on every valid request file, check or apply, `read_request` can complete with exactly that request |
| UpdateRemoval.RemovesWhatItReadIff | deploy/application_update_helper.py:228-231 | over all behaviours: the file whose name a run removes is the file it read iff the panel neither removed nor put the request between the comparison and the removal |
| UpdateRemoval.RequestCanBeLost | deploy/application_update_helper.py:228-232 | from every idle world with a valid request, and for any newer content, some behaviour reads the older request for execution and removes the newer one unread, and neither the name nor a power loss can bring it back |
| ByteStreams.ReadBounded | scripts/container/fetch-age.py:90-105 | against any chunking and any clock: the whole rest of the stream, or a refusal iff it is longer than the limit, a read returned too much or the deadline passed; at most limit + 1 bytes consumed |
| ByteStreams.ReadUpTo | deploy/application_update_helper.py:59-68 | exactly the first min(length, maximum + 1) bytes |
| ByteStreams.WriteAll | deploy/application_update_helper.py:71-77 | everything is appended iff no write fails; otherwise a prefix is there |
| ByteStreams.WriteFile | scripts/container/fetch-age.py:194-199 | the file is the data iff no write reports a bad count; otherwise it holds a prefix |
| TarPreflight.Preflight | scripts/container/fetch-age.py:134-167 | succeeds exactly on the archives, and returns the layout of the one member list whose archive the input is |
| TarPreflight.PrintedIsAccepted | scripts/container/fetch-age.py:145-163 | the printed form of a permitted member passes every check and is read back as itself |
| TarPreflight.RawAt | scripts/container/fetch-age.py:141-163 | the accepted member is permitted and prints to exactly the blocks it was read from |
| TarPreflight.ForcedStep | scripts/container/fetch-age.py:141-164 | where an archive goes on, the checks pass and every archive equal to the input has the member found there |
| TarPreflight.Decided | scripts/container/fetch-age.py:165-167 | the checks behind the loop decide between success and the absence of any archive |
| TarPreflight.AtMostNineMembers | scripts/container/fetch-age.py:38-53 | distinct permitted names leave room for nine members, so the limit of 32 is never met |
| TarPreflight.RoomForOne | scripts/container/fetch-age.py:140-144 | inside the loop a whole header block is ahead and the count check passes |
| TarPreflight.ArchiveIsUnambiguous | scripts/container/fetch-age.py:134-167 | a byte string is the archive of at most one list of members |
| TarPreflight.MembersTileTheArchive | scripts/container/fetch-age.py:156-165 | members are block aligned, each starts where the one before ends, zeros behind the last |
| TarPreflight.MembersAreDisjoint | scripts/container/fetch-age.py:156-164 | extents are pairwise disjoint and increasing |
| TarPreflight.SliceIsContent | scripts/container/fetch-age.py:156-158 | the slice named by a returned member is its content |
| TarPreflight.SelectedFiles | scripts/container/fetch-age.py:177-189 | exactly the two selected names with the contents of their members; refusal iff the input is not an archive |
| TarLimits.AcceptedIff | scripts/container/fetch-age.py:134-167 | members whose headers decode and announce their content, followed by zero blocks, are accepted iff there are two such blocks, every member is a directory "age", one of seven programs of 1 to 16777216 bytes or a licence of 1 to 65536 bytes, without links and extensions, none occurs twice, and both installed files are there |
| TarLimits.AcceptedIsFramed | scripts/container/fetch-age.py:134-167 | whatever is accepted is made of such members |
| CsvFormat.ReadBack | scripts/vps/build-agent-release.py:264 | printed rows whose fields survive are read back unchanged |
| CsvFormat.ReadBackIff | scripts/vps/smoke-agent-service.py:59-68 | reading back gives the rows iff no carriage return stands in a field left unquoted |
| CsvFormat.CutRows | scripts/vps/build-agent-release.py:264-265 | the first field that does not survive leaves its row different and short, or nothing is read |
| CsvGrammar.ReadIff | scripts/vps/build-agent-release.py:264 | `csv.reader` on any text: it returns rows iff the text is written by the grammar of bare and quoted fields, commas and line ends, and then the rows that this means; all other text is refused |
| CsvGrammar.PrintFieldIs | scripts/vps/smoke-agent-service.py:59-68 | a field is quoted iff it holds a comma, a quote, a newline or, but for older releases, a carriage return |
| WheelRecord.VerifyRecord | scripts/vps/build-agent-release.py:263-280 | accepts iff members are distinct (checked at line 239) and RECORD can be read and lists, in any order, exactly the right row of each member |
| WheelRecord.VerifyRows | scripts/vps/build-agent-release.py:265-280 | the row checks accept iff the rows are, as a multiset, the right rows |
| WheelRecord.CheckRow | scripts/vps/build-agent-release.py:271-280 | one row passes iff it is the row that belongs to its member |
| WheelRecord.AcceptedListsEachMemberOnce | scripts/vps/build-agent-release.py:263-280 | an accepted RECORD has one row for each archive member and nothing else |
| WheelRecord.WriteRecord | scripts/vps/smoke-agent-lifecycle.py:77-87 | prints a row for every other member in dictionary order, and the RECORD's own row last |
| WheelRecord.WrittenRowsAreRight | scripts/vps/smoke-agent-service.py:59-69 | these are the right rows of the finished archive |
| WheelRecord.WriterMeetsChecker | scripts/vps/build-agent-release.py:263-280 | the archive with its written RECORD is accepted iff `csv` can carry the names of the given members and of the RECORD |
| WheelRecord.ReturnInNameIsRejected | scripts/vps/build-agent-release.py:263-280 | with an older `csv` a wheel with the member "a\rb" is refused |
| WheelRecord.DecimalIsNumber | scripts/vps/build-agent-release.py:280 | the size field reads back as the length |
| WheelRecord.DecimalIff | scripts/vps/build-agent-release.py:280 | `str` of a length is the one text of digits without leading zeros that reads back as it |
| WheelRecord.DecimalIsInjective | scripts/vps/build-agent-release.py:280 | contents with the same size field have the same length |
| WheelRecord.Read | scripts/vps/build-agent-release.py:275 | the data of a member of that name, nothing iff there is none |
| WheelRecord.ReadIsLast | scripts/vps/build-agent-release.py:275 | of several members with one name the last is read |
| WheelRecord.Put | scripts/vps/smoke-agent-service.py:69 | names keep their order, a new name goes to the end, other members are unchanged |
| WheelPrograms.VariantWheel | scripts/vps/smoke-agent-service.py:42-73 | the edited dictionary with its RECORD replaced; fails iff the edited member or a RECORD is missing |
| WheelContents.VariantSucceedsIff | scripts/vps/smoke-agent-service.py:42-58 | a variant is built iff the edited member and a RECORD are in the source |
| WheelContents.VariantContents | scripts/vps/smoke-agent-service.py:42-73 | the edited member reads as its old content with the text behind or in front, every other member but the RECORD as in the source |
| WheelContents.ReadOfDict | scripts/vps/smoke-agent-service.py:43 | the dictionary of an archive reads as the archive does |
| WheelPrograms.VariantPassesCheck | scripts/vps/smoke-agent-service.py:42-72 | under the RECORD that the script picks, the first of the source, the variant passes the checker iff `csv` can carry the member names of the source |
| WheelPrograms.NamesOfDict | scripts/vps/smoke-agent-service.py:43 | the dictionary of an archive has exactly its names |
| WheelPrograms.FirstEndingOfDict | scripts/vps/smoke-agent-service.py:58 | repeated members or not, the dictionary and the archive have the same first name with an ending |
| WheelPrograms.RenameLosesNothingIff | scripts/vps/smoke-agent-lifecycle.py:58-63 | the rename keeps every member iff no renamed member lands on one that stays |
| WheelPrograms.RenameKeepsContents | scripts/vps/smoke-agent-lifecycle.py:58-63 | without such a clash each content is found under its new name |
| WheelPrograms.ReleaseWheel | scripts/vps/smoke-agent-lifecycle.py:51-92 | the renamed, versioned and edited dictionary with its RECORD written |
| WheelContents.ReleaseContents | scripts/vps/smoke-agent-lifecycle.py:51-92 | every member alone under its new name reads there as in the candidate, METADATA with the version set, `__init__.py` with the suffix behind, `__main__.py` with the prefix in front |
| WheelContents.ReleaseSucceedsIff | scripts/vps/smoke-agent-lifecycle.py:51-75 | once METADATA takes the version, a release is built iff both edited members are there under their new names |
| WheelPrograms.ReleasePassesCheck | scripts/vps/smoke-agent-lifecycle.py:51-92 | a finished release passes the checker iff `csv` can carry the renamed member names of the candidate and the name of the RECORD, clashes and further dist-info directories included |
| WheelPrograms.DictIsItself | scripts/vps/smoke-agent-lifecycle.py:51-52 | an archive without repeated names is its own dictionary |
| ChecksumFile.PrintSums | scripts/vps/build-agent-release.py:412-415 | one line of digest, two blanks and name for each asset |
| ChecksumFile.CheckBackup | scripts/vps/smoke-control-plane-installer.py:208-238 | accepts iff the text parses to exactly the digest map of the other files |
| ChecksumShapes.ParseSumIff | scripts/vps/smoke-control-plane-installer.py:48 | a line is taken iff it is 64 hex digits, two blanks and a name in the alphabet |
| ChecksumFile.ReadBack | scripts/vps/build-agent-release.py:444-447 | accepts iff every line splits at one pair of blanks into a digest and a file that has it |
| ChecksumShapes.ReadBackLineIff | scripts/vps/build-agent-release.py:445-447 | a line passes iff it is the final digest of a file, two blanks and the name, which has no two blanks in a row |
| ChecksumFile.ChecksumRoundTrip | scripts/vps/build-agent-release.py:412-423 | for asset names in the reader's alphabet the printed text has one line per asset, parses back to the printed map, and is accepted for exactly the files with these digests |
| ChecksumFile.BuilderReadsBackIff | scripts/vps/build-agent-release.py:440-447 | the read-back of printed text succeeds iff every printed digest is the one of the written file |
| EnvFile.ParseEnv | scripts/vps/smoke-control-plane-installer.py:135-147 | the dictionary of the lines, or a refusal |
| EnvShapes.EnvIff | scripts/vps/smoke-control-plane-installer.py:135-147 | `parse_env` returns a map iff every line is blank, a comment or, between blanks, `key=value`, no key occurs twice, and the map is what they say |
| EnvFile.ReplaceEnvValue | scripts/vps/smoke-control-plane-installer.py:150-156 | replaces the one line that begins with the key, refuses iff there is not exactly one |
| EnvFile.EditThenParse | scripts/vps/smoke-control-plane-installer.py:135-156 | for every value, the edited text parses to the old map with only that key changed, up to trailing blanks, iff the key is one that `parse_env` can return and the value has no line break but in trailing blanks |
| EnvFile.KeysAreParsable | scripts/vps/smoke-control-plane-installer.py:138-146 | every key returned is free of "=" and does not begin with a blank or "#" |
| EnvFile.Manifest | deploy/application_update_helper.py:139-162 | succeeds iff every line parses, the expected entries agree and the deployed revision is well formed |
| EnvShapes.ManifestIff | deploy/application_update_helper.py:142-146 | the loop of `manifest` returns a map iff every line is `KEY=value` with an upper-case key, no key occurs twice, and the map is what they say |
| EnvShapes.PrintedManifestIsRead | deploy/application_update_helper.py:139-162 | a manifest of one line per key, values without line breaks, reads back as the map it was printed from |
| EnvShapes.ExpectedKeysAreKeys | deploy/application_update_helper.py:147-161 | the ten keys that `manifest` looks at are such keys |
| EnvFile.ManifestIsEnv | deploy/application_update_helper.py:142-146 | what the helper's loop accepts `parse_env` accepts, same keys, same values up to trailing blanks |
| EnvFile.ReadersAgreeIff | scripts/vps/smoke-control-plane-installer.py:137-146 | the two readers return the same map iff no value ends in a blank |
| TextLines.SplitJoined | scripts/vps/smoke-control-plane-installer.py:151-156 | lines joined with newlines split into the same lines |
| TextShapes.SplitLinesIff | scripts/vps/smoke-control-plane-installer.py:137 | `splitlines` returns the lines of the one way to cut the text into lines and line ends |
| TextShapes.StripIff | scripts/vps/smoke-control-plane-installer.py:138 | `strip` takes all blanks, and nothing else, from both ends |
| ProcessTree.ProcessTree | scripts/vps/smoke-agent-bootstrap.py:195-208 | terminates on every finite relation, cycles included, with exactly the processes reachable from the root |
| Redaction.Scrub | scripts/vps/smoke-agent-bootstrap.py:76-80 | the replacements of all secrets, longest first |
| Redaction.ReplaceIff | scripts/vps/smoke-agent-bootstrap.py:79 | cut at every leftmost, not overlapping occurrence, text and result have the same pieces, with the secret and with a marker between them |
| Redaction.ScrubIsReplacing | scripts/vps/smoke-agent-bootstrap.py:76-80 | the result comes from the text by one such replacement for each secret that is not empty, longest first, secrets of one length in the given order |
| Redaction.RedactionIsComplete | scripts/vps/smoke-agent-bootstrap.py:76-80 | a secret that cannot touch a marker occurs nowhere in the result, whatever the other secrets are and however they overlap |
| Redaction.WholeSecretBecomesOneMarker | scripts/vps/smoke-agent-bootstrap.py:77 | longest first: if no secret is part of the marker, a text that is a secret becomes one marker even if other secrets are parts of it |
| Redaction.CompleteIff | scripts/vps/smoke-agent-bootstrap.py:76-80 | for every secret: left in no text beside any secrets iff it cannot touch a marker |
| Redaction.TouchedLeaks | scripts/vps/smoke-agent-bootstrap.py:76-80 | a secret that can touch a marker is left in a text that is constructed, beside one other secret |
| Redaction.TouchesIff | scripts/vps/smoke-agent-bootstrap.py:79 | touching is occurring beside a marker with a shared character |
| Redaction.PlainTouches | scripts/vps/smoke-agent-bootstrap.py:79 | without brackets, touching is being part of "REDACTED" |
| Redaction.SetCompleteIff | scripts/vps/smoke-agent-bootstrap.py:76-80 | for a set whose touching secrets are parts of the marker: complete on every text iff there are none |
| Redaction.PlainSetCompleteIff | scripts/vps/smoke-agent-bootstrap.py:76-80 | for a set of secrets without brackets: complete on every text iff none is part of "REDACTED" |
| Redaction.PartOfMarkerLeaks | scripts/vps/smoke-agent-bootstrap.py:79 | a secret that is part of the marker is left in some redacted text |
| Redaction.BracketSecretLeaks | scripts/vps/smoke-agent-bootstrap.py:79 | every secret that ends in "[" or begins with "]" is left in some text beside some other secret |

## Left out

- WheelRecord.VerifyRecord: covers the RECORD part of `verify_wheel`; the metadata, tag, link, path, size and source comparison checks of that function are not modelled.
- Redaction.SetCompleteIff: does not decide sets with a secret that runs across the edge of a marker; `CompleteIff` decides each secret over all sets.
- UpdateRequest.QueuedIsRead: takes the JSON round trip of the panel's fields as given, because JSON text is a parameter.
- ByteStreams.WriteFile: exclusive creation, flush, fsync and the mode of the file are not modelled.
- TarPreflight.SelectedFiles: starts behind the checksum and the decompression; gzip, the pinned digests and the download are not modelled. Its re-checks of length and key set can never fail, which is why they do not appear.
- EnvFile.Manifest: takes the file as text; the ownership and size checks in front of it are the outcome `None` of the manifest in `UpdateHelper`.
- ProcessTree.ProcessTree: works on one snapshot of the children files; processes that start or end meanwhile are not modelled.
- UpdateHelper allows one helper process at a time (the systemd unit is a oneshot service); an `--initialize` run at the same moment as another run is not modelled.
- In `UpdateHelper` file type, owner, mode and link checks are one boolean outcome (`Verdict`); the panel always creates a new inode, so hard links to a request file do not occur, and it does not touch `state.json`. The leftover temporary file of a failed `write_state` is not removed.
- Fixed or derived payload fields (schema version, managed, message, release URL, license) are omitted; JSON text, SHA-256, base64url (section 5 of RFC 4648), UTF-8 and the field decoding of a tar header are parameters.
- `installer.recovery` exists or not as the environment pleases; the installer is a process that may set the manifest in any way while it runs and returns any code.
- Rows of one CSV field, the field size limit, and NUL characters; zip containers are lists of named byte strings.
- `build_bootstrap`, `verify_bootstrap` and BUILD.json.
- The other scripts and services of the repository: they drive Docker, systemd, browsers and the network around code that is not part of this model.
