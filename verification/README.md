# What borgmatic-manager promises, proved

A Dafny model of the parts of borgmatic-manager whose mistakes lose data, and proofs of what
those parts are there to guarantee. Nothing here executes the Go program: the model says what
its code does, branch by branch, and Dafny proves the rest.

* **Archive collisions** (`Glob`, `GlobSyntax`, `FormatLanguage`, `FormatSyntax`,
  `CollisionDecider`, `ArchiveFormat`, `Graph`, `Tarjan`, `SinkCycles`, `Refusal`,
  `Generation`). Groups may share a borg repository, and retention deletes whatever a group's
  glob matches. Glob matching and the names a format can write are defined on their own, by
  recursion, and pinned down from the writer's side: what is written in glob syntax or in a
  format, whatever it is, is read as what was meant. The set simulation of the generator is
  proved to decide when the two meet, Tarjan's algorithm to find the components it is used
  for, and the refusal rounds to leave groups that cannot prune each other.
* **The staged restore** (`ScratchNames`, `RestoreDisk`, `RestoreSwap`, `RestoreRecovery`). A
  directory is a map from names to inodes with contents and an ownership mark, and every
  system call is a step. A run may die, or power may fail, between any two: what was known
  to be on disk at the last flush and everything since may then mix. The next run ends with
  the volume holding exactly the old tree or exactly the new one. A failing call is counted,
  so that what a restore does is exact where none fails, and tidy where one does.
* **Locks and reaping** (`RunLocks`, `Reaper`, `ReaperRace`). Any number of backups and
  restores in any number of processes, one acquisition at a time, with processes dying
  anywhere; and the removal of dump helpers by runs, start-up reapers and lock-file sweepers.
* **Persistent state** (`GroupCache`, `Schedule`, `ScheduleUpdates`). What a group contains,
  what is known of each repository, and the locked changes to the schedule file.
* **Attribution, toolchain, timer** (`Attribution`, `Toolchain`, `Wake`). Which repositories
  an error message blames, a link that always names a finished installation, and how late,
  or early, the scheduler wakes for a group.

`dafny verify dfyconfig.toml` checks everything.

## Where the model stands beside the code

* Text is a sequence of characters, not of UTF-8 bytes. Lists the code sorts only to make
  logs stable are taken in any order, since no result depends on it; where order matters
  (lock keys, candidate spellings) it is modelled.
* **Inverted ranges.** `[z-a]` compiles to a class that admits nothing. No collision is ever
  missed because of it, but the decider can then claim one that cannot happen.
  `ExactPatterns` gives the exact condition: every class of the pattern admits a character.
* **Brackets in a group's own format.** The text outside placeholders is copied into the glob
  as it stands, so a bracket there starts a class and the group's own archives may go
  unmatched. Where classes stand only before the first star of the glob or behind its last,
  `OuterBracketsExactly` is exact for every format: the text before the first placeholder,
  read as a glob, matches itself and the text behind the last one the end of itself, and then
  every archive of the group is matched, or not and then none is, as for `[a]-{now}`
  (`BracketedPrefixIsMissed`).
* **Mutual claims.** The comment at `internal/config/generate.go:757-759` says that mutual
  matches, identical resolved formats included, refuse both groups. The rounds do not
  promise that: when one of the two also claims an innocent third group, it goes alone in an
  earlier round and the other stays. `MutualOffenderCanSurvive` is a sharing in which this
  happens to two groups with identical globs and segments, and `MutualPairIsPlanned` the
  plan it comes from: two groups with the format `{hostname:{group}}` and one with
  `{group}`. `RefusedTogether` says exactly when one round refuses both: every round while
  both are there is a cycle round, or both or neither of them claim an innocent group.
  `TwinsBothRefused` is the case the comment has in mind, identical formats and globs in the
  same repositories, and `NotBothSurvive` is what always holds.
* **A kill, a clearing, a power loss.** The code's comments ask that a swap be on disk
  before the copy it replaced is removed (`cmd/borgmatic-manager/restore_swap.go:164-165`),
  and a restore that runs to its end does so. A run killed between the exchange and that
  flush leaves the old tree under the staging name (`ExchangeExposes`), and the next run's
  clearing removes it without flushing the exchange first; if power fails then, the names
  may come back as they were. The exact condition is `ClearingIsSafeExactlyWhenUnexposed`:
  whatever a power loss leaves during clearing is recoverable if and only if no marked
  staging directory with contents that removal can spoil is what the volume was in some
  state not yet flushed. A pair of renames never meets the exception
  (`RenamePairUnexposed`), nor does a directory a power loss has just left
  (`OneStateUnexposed`). Otherwise a power loss at any moment of a run loses nothing
  (`NextRun`, `RestoreRun`, `InterruptedRestore`).
* **A second rename pair.** A kill at any moment of recovery and clearing is harmless
  (`NextRun`), and so is one at any moment of a restore, also when an earlier one was killed
  after it reserved a name (`RestoreRun`). The exception is a marked copy with data that
  lies beside a present volume, as a restore killed after its second rename leaves it: if
  the next restore has to use renames too and is killed between them, the volume is gone
  beside two marked copies with data and recovery refuses to choose (`TwoCopiesAreStuck`).
  `MovedAsideExactly` is the exact condition: the state between the renames is recoverable
  if and only if no other marked displaced directory was there.
* **A liveness lock that fails.** A run that cannot take its liveness lock removes the lock
  file so that its process id protects it. A sweeper that had listed the file and was still to
  try it recreates it, and a reaper that starts in between finds it there unheld and reaps a
  live run: `ExposedRunIsReaped` is such an execution. `ReapedLiveExactlyWhenExposed` shows
  that this is the only way: from the moment the file is removed, some continuation reaps the
  run alive if and only if a sweeper was still to try it then. A run that got its lock is
  never reaped alive.
* Taking a lock file (open, create, lock) is one step, lock-file names are injective in their
  keys, run ids are never reused, and neither are the random names of temporary directories.

## Model

| member | source | states |
|---|---|---|
| `Glob.PlainClassInhabited` | internal/config/generate.go:1075-1112 | a class that is not negated admits a character exactly when one of its ranges is not inverted |
| `Glob.ClassRoundTrip` | internal/config/generate.go:1053-1112 | a class written out in glob syntax, wherever in a pattern it stands, is read back as that class and ends where its text ends |
| `GlobSyntax.BracketReadBack` | internal/config/generate.go:1075-1112 | a class written after `[`, `[!` or `[^` from lone characters and ranges in any order, with `]` in first place or `-` in last if wanted, is read back wherever it stands: it ends where its text ends and admits exactly those members, or for the negated openings all others |
| `GlobSyntax.UnclosedBracket` | internal/config/generate.go:1053-1067 | a `[` with no `]` behind it is read as itself |
| `GlobSyntax.PatternMeansWhatIsWritten` | internal/config/generate.go:1053-1112 | a pattern written from stars, question marks, characters and such classes matches exactly the names made up of what each of them stands for |
| `FormatLanguage.SharedNameIsClaimed` | internal/config/generate.go:935-943 | for every pattern and format that have a name in common the decider's criterion holds: no collision is missed, whatever the classes |
| `FormatLanguage.ClaimIsShared` | internal/config/generate.go:935-943 | when every class admits a character, the criterion holds only if there is a common name |
| `FormatLanguage.ExactPatterns` | internal/config/generate.go:935-943 | the criterion is exact for a pattern against all formats if and only if every class of the pattern admits a character |
| `FormatLanguage.InvertedRangeClaimsTooMuch` | internal/config/generate.go:1100-1108 | `[z-a]` against a format that may write anything is claimed although no name is shared |
| `FormatLanguage.KnownFormatsAreExact` | internal/config/generate.go:935-943 | against formats made of alternatives and digit runs only, the criterion is exact for every pattern |
| `CollisionDecider.ParseCharClass` | internal/config/generate.go:1075-1112 | the scan of a bracket recognises a class, its negation by `!` or `^`, its ranges and its end exactly as the grammar does, and an unterminated one not at all |
| `CollisionDecider.PatternElement` | internal/config/generate.go:1053-1067 | the element at a position and where the next one starts, as the grammar has it |
| `CollisionDecider.StarClosure` | internal/config/generate.go:1125-1141 | following stars for nothing changes no continuation the position set accepts and closes it under skipping stars |
| `CollisionDecider.Step` | internal/config/generate.go:1027-1043 | after one offered symbol the set accepts exactly the continuations some position moves to |
| `CollisionDecider.StepRune` | internal/config/generate.go:1007-1009 | the set after a character accepts what the set before accepts with that character in front |
| `CollisionDecider.StepDigit` | internal/config/generate.go:1014-1023 | the same for an unknown digit, by way of the ten digits |
| `CollisionDecider.Consume` | internal/config/generate.go:995-1004 | the set after a text accepts what the set before accepts with that text in front |
| `CollisionDecider.ConsumeDigits` | internal/config/generate.go:1116-1122 | the same for every run of that many digits |
| `CollisionDecider.PatternMatchesFormat` | internal/config/generate.go:943-987 | the simulation returns true if and only if the pattern claims some name spelt by the format |
| `CollisionDecider.PatternOvermatches` | internal/config/generate.go:928-933 | an unknown pattern or format counts as overmatching, otherwise the decider's answer |
| `ArchiveFormat.StrftimeSegments` | internal/config/generate.go:1238-1284 | the loop over a timestamp specification compiles it as its grammar says, directive by directive, literal percent and trailing percent included |
| `ArchiveFormat.PlaceholderSound` | internal/config/generate.go:1205-1234 | whatever borg puts in place of a placeholder on this host, at any time, is among what its segments write |
| `FormatSyntax.PiecesReadBack` | internal/config/generate.go:1157-1190 | a format is read back piece by piece, to its end: a character as itself, what stands between two braces as a placeholder whose token lacks the braces inside it, and an opening brace that stays open as one unterminated rest |
| `FormatSyntax.EveryFormatIsWritten` | internal/config/generate.go:1157-1190 | and every format is written in that way |
| `FormatSyntax.GlobReadBack` | internal/config/generate.go:1506-1523 | the glob of a format has one star for each outermost pair of braces and every other character as it stands, in order |
| `FormatSyntax.TokenReadBack` | internal/config/generate.go:1205-1208 | the name of a placeholder is what stands before its first colon, in lower case and without white space around it, and its specification all that stands behind |
| `FormatSyntax.SpecificationExactly` | internal/config/generate.go:1238-1284 | the segments of a timestamp specification write exactly the texts it can show, directive by directive: a month from 01 to 12, four digits for a year, anything for a directive that is not known |
| `FormatSyntax.PlaceholderExactly` | internal/config/generate.go:1205-1234 | the segments of a placeholder write exactly the host name or its short form, the user, what the timestamp can show, or anything where none of these is known |
| `FormatSyntax.FormatExactly` | internal/config/generate.go:1157-1190 | so a format writes exactly the names put together, in order, from its characters and what each placeholder can stand for |
| `ArchiveFormat.ArchiveFormatSegments` | internal/config/generate.go:1157-1190 | nested, stray and unterminated braces included, the scanner compiles exactly the pieces of the format |
| `ArchiveFormat.ArchiveMatchPattern` | internal/config/generate.go:1506-1523 | the glob made from a format is its text with a star for each placeholder |
| `ArchiveFormat.EveryWrittenNameIsGenerated` | internal/config/generate.go:1157-1190 | every name the format can expand to, on any host and at any time, is among those its segments write |
| `ArchiveFormat.OwnNamesAreMatched` | internal/config/generate.go:1506-1523 | a group's own glob matches every name its segments write, when no bracket in the glob starts a class |
| `ArchiveFormat.OwnArchivesAreMatched` | internal/config/generate.go:1506-1523 | and so every archive the group writes |
| `ArchiveFormat.BracketFreeFormatsAreCovered` | internal/config/generate.go:1506-1523 | a format whose text outside placeholders has no bracket is always covered by its own glob, nested, stray and unterminated braces included |
| `ArchiveFormat.LeadingBracketsExactly` | internal/config/generate.go:1506-1523 | when no class of the glob reaches to or lies behind its first star, all names of the format are matched if and only if the text before its first placeholder, read as a glob, matches itself, and otherwise none is |
| `ArchiveFormat.OuterBracketsExactly` | internal/config/generate.go:1506-1523 | when no class lies between the first star of the glob and the last, all names of the format are matched if and only if the text before the first placeholder matches itself and the text behind the last one the end of itself, and otherwise none is |
| `ArchiveFormat.LeadingTextMissed` | internal/config/generate.go:1506-1523 | for every format: if one character of the text before the first placeholder does not satisfy the glob element in its place, no name of the format is matched, whatever follows |
| `ArchiveFormat.PlainFormatsCoveredExactly` | internal/config/generate.go:1506-1523 | for formats without placeholders or stars the glob matches the one name they write if and only if no bracket starts a class |
| `ArchiveFormat.BracketedTextIsMissed` | internal/config/generate.go:1506-1523 | the format `[a]` writes a name its own glob does not match |
| `ArchiveFormat.BracketedPrefixIsMissed` | internal/config/generate.go:1506-1523 | no name of the format `[a]-{now}` is matched by its own glob |
| `Tarjan.Search.StrongConnect` | internal/config/generate.go:864-892 | one call of the depth-first search keeps the invariant of index, low link, stack and components and finishes the component of its node |
| `Tarjan.Search.PopComponent` | internal/config/generate.go:880-891 | exactly the entries from a node up leave the stack, and all get the same new number |
| `Tarjan.PopKeeps` | internal/config/generate.go:880-891 | those entries are exactly the nodes that reach the node and are reached from it, one whole strongly connected component, and the invariant holds without them |
| `SinkCycles.StronglyConnectedComponents` | internal/config/generate.go:848-897 | two nodes get the same number if and only if each reaches the other |
| `SinkCycles.SinkCycleByNumber` | internal/config/generate.go:899-914 | a component without an escaping edge and with more than one member is exactly a sink cycle, defined by reachability |
| `SinkCycles.SinkCycleMembers` | internal/config/generate.go:848-922 | the members returned are exactly the nodes in sink cycles, or all nodes when there are none |
| `Graph.SinkCycleExists` | internal/config/generate.go:915-920 | when every node has a successor, every successor is a node and none is its own, some node is in a sink cycle, so the fallback that refuses everybody is unreachable |
| `Refusal.FindConflicts` | internal/config/generate.go:776-803 | the edges found among groups not yet refused are all the conflicts and only those |
| `Refusal.NextRound` | internal/config/generate.go:806-830 | a round refuses the groups that claim an innocent one, or, when there are none, those in sink cycles |
| `Refusal.OvermatchingPatterns` | internal/config/generate.go:769-839 | the loop refuses exactly the groups outside the fixpoint of the rounds and gives each a group it claims in a shared repository |
| `Refusal.RoundRefusesSomeone` | internal/config/generate.go:776-838 | while a conflict is left each round refuses at least one group, so the rounds end |
| `Refusal.SurvivorsDoNotConflict` | internal/config/generate.go:769-839 | no group left claims another left in a repository they share |
| `Refusal.HarmlessSurvives` | internal/config/generate.go:776-838 | a group that claims nobody is never refused |
| `Refusal.RefusalJustified` | internal/config/generate.go:776-838 | a refused group claims one that survives to the end, or lies in a sink cycle of the groups then left, all of which went with it |
| `Refusal.NotBothSurvive` | internal/config/generate.go:757-759 | of two groups one of which claims the other, not both survive |
| `Refusal.RefusedTogether` | internal/config/generate.go:757-759 | of two groups that claim each other, some round refuses both if and only if every round while both are left is a cycle round or finds that both or neither claim an innocent group |
| `Refusal.TwinsBothRefused` | internal/config/generate.go:757-759 | two groups with the same format, the same glob and the same repositories that match each other are both refused |
| `Refusal.MutualOffenderSurvives` | internal/config/generate.go:757-759 | if one of a mutual pair also claims an innocent third, it is refused and the other survives |
| `Refusal.MutualOffenderCanSurvive` | internal/config/generate.go:757-759 | a sharing in which that happens |
| `Generation.MutualPairIsPlanned` | internal/config/generate.go:408-418 | the plan of three groups whose formats give that sharing and pass the token pass |
| `Generation.TokenPass` | internal/config/generate.go:362-397 | kept and refused groups are those given, and a group is refused if and only if it lacks the token and one of its repositories is listed by another group as well, or by itself twice |
| `Generation.TokenedExactly` | internal/config/generate.go:362-397 | the same of the set of kept groups that the later passes are about |
| `Generation.BuildSharing` | internal/config/generate.go:408-418 | the maps given to the overlap check say who writes where, with which pattern and format |
| `Generation.OverlapPass` | internal/config/generate.go:423-439 | the groups refused by the overlap check leave in order and each with its reason |
| `Generation.SurvivorsKeepTheirArchives` | internal/config/generate.go:769-839 | the glob of a surviving group matches no archive another surviving group in a shared repository can write, at any time |
| `Generation.Plan` | internal/config/generate.go:362-442 | kept and refused groups together are exactly the groups given, each once; the kept ones stay in order; a group is refused for its token exactly when it needs one and lacks it, and for its glob only if it shares a repository with the victim named and can match its archives; and kept groups' archives are apart unless the overlap check is bypassed |
| `ScratchNames.PatternKeepsName` | cmd/borgmatic-manager/restore_swap.go:900-911 | the trailing star puts the random digits at the end whatever stars the volume's name contains |
| `ScratchNames.RecognisedExactly` | cmd/borgmatic-manager/restore_swap.go:920-931 | the names recognised for a volume and purpose are exactly those creation makes for them, with any run of decimal digits |
| `ScratchNames.OneOwner` | cmd/borgmatic-manager/restore_swap.go:909-931 | a name belongs to one volume and one purpose: staging, replaced and kept names are never confused and two volumes never share one |
| `ScratchNames.NotTheVolume` | cmd/borgmatic-manager/restore_swap.go:909-931 | no scratch name is the volume's own |
| `RestoreDisk.HeldIsSafe` | cmd/borgmatic-manager/restore_swap.go:69-190 | while the stake of a restore is held in every state since the last flush, any mix of their names and contents that a power loss may leave is recoverable |
| `RestoreDisk.SafeExactlyWhenAnchored` | cmd/borgmatic-manager/restore_swap.go:148-189 | every such mix is recoverable if and only if what is the volume in one of the states holds a complete tree in all of them |
| `RestoreSwap.SiblingsWithPrefix` | cmd/borgmatic-manager/restore_swap.go:835-856 | exactly the entries of that shape, and no error when the parent may not be listed |
| `RestoreSwap.ClearStagingLeftovers` | cmd/borgmatic-manager/restore_swap.go:978-1005 | at every moment only marked staging directories of this volume are being removed and every other name and tree is as it was; none is left when it succeeds and may list and read, and nothing is touched when it may not |
| `RestoreSwap.ClearingIsSafeExactlyWhenUnexposed` | cmd/borgmatic-manager/restore_swap.go:978-1005 | from a directory that survives a power loss, every moment of every removal of a marked staging directory survives one if and only if none of those directories, with contents that a removal cut short can spoil, is what the volume was in a state not yet flushed |
| `RestoreSwap.CreateStagingLike` | cmd/borgmatic-manager/restore_swap.go:1147-1175 | a new claimed directory that is neither the volume nor anybody else's, and on failure nothing at stake is lost |
| `RestoreSwap.SwapIntoPlace` | cmd/borgmatic-manager/restore_swap.go:217-249 | exchange or rename pair: swapped, unchanged or stranded, with both inodes where the result says, and recoverable at every moment; where the exchange is available the volume is never missing, whatever else fails; one failing call leaves names and mark as they were, and stranding takes two |
| `RestoreSwap.SwapByRenamePair` | cmd/borgmatic-manager/restore_swap.go:254-310 | the same for the pair of renames and its roll-back, the volume being claimed before it moves and never displaced to a staging name |
| `RestoreSwap.RetainOrWarn` | cmd/borgmatic-manager/restore_swap.go:1609-1677 | the copy to be kept is under the returned name, complete, and the volume is untouched; with no failing call that name is new and not one a later run clears |
| `RestoreSwap.FinishSwap` | cmd/borgmatic-manager/restore_swap.go:148-189 | the replaced copy is removed only after the swap is on disk, and the volume holds the extracted tree throughout; when a call fails the copy is kept under a name no later run clears |
| `RestoreSwap.RestoreWithSwap` | cmd/borgmatic-manager/restore_swap.go:69-190 | no error: the volume holds the extracted tree; an error: it still holds the original; stranded: both trees are complete at the two reported names. With no failing call the outcome is exact: an error for an extract of nothing the archive does not allow and for a subvolume that cannot be made read-only, an error that names the kept extract if the volume has come into use, and otherwise the swap, unmarked and with nothing left behind; a failing call that alone stops it leaves nothing either, and one after the swap leaves nothing a later run would take for a leftover. Where the exchange is available the volume is there at every moment. Other names are untouched but for marked staging leftovers; and, on a filesystem that holds marks and with nothing marked left over, every state passed through is recoverable, and so is whatever a power loss leaves at any moment if it was at the start and clearing puts nothing at risk |
| `RestoreRecovery.RemoveAbandoned` | cmd/borgmatic-manager/restore_swap.go:393-428 | while the volume is there only empty marked reservations are removed, and all of them when it succeeds and marks can be read: what is left holds data; the volume stays, and clearing is exposed afterwards exactly when it was before |
| `RestoreRecovery.CollectOurs` | cmd/borgmatic-manager/restore_swap.go:437-460 | only marked directories are candidates, and all of them where marks can be read |
| `RestoreRecovery.PickDisplaced` | cmd/borgmatic-manager/restore_swap.go:462-493 | the candidate chosen is the one with data when one has, two with data stop the recovery, and a single one is taken without a look |
| `RestoreRecovery.RecoverInterruptedSwap` | cmd/borgmatic-manager/restore_swap.go:363-528 | from any state: contents never change, only empty marked directories go and at most one marked directory becomes the missing volume; the volume is back exactly when there was a candidate, and never after an ambiguous choice; beside a present volume only copies with data stay; what survives a power loss still does, and clearing is at risk after it exactly when it was before |
| `RestoreRecovery.NextRun` | cmd/borgmatic-manager/main.go:1490-1507 | from any recoverable state every state passed through is recoverable, and recovery and clearing end with the volume holding exactly one of the trees and with no reservation left beside it; it gets there unless a call fails or the choice is ambiguous, and when no call fails a volume it puts back carries no mark and has no marked directory left beside it; from a directory that survives a power loss every moment does if clearing is not at risk at the start |
| `RestoreRecovery.RestoreRun` | cmd/borgmatic-manager/main.go:1490-1507 | recovery, clearing and a new staged restore: the outcome is told in terms of the tree that was recovered, and is the wanted one when no call fails; an extract of nothing that is not allowed never becomes the volume; where the exchange is available a volume that is there stays there at every moment; unless a marked displaced directory lies beside the volume that recovery would not take away, every state passed through is recoverable to an earlier tree or the new one, and so is whatever a power loss leaves if it was at the start and clearing is not at risk |
| `RestoreRecovery.MovedAsideExactly` | cmd/borgmatic-manager/restore_swap.go:254-310 | the state after the first rename of a pair is recoverable if and only if there was no marked displaced directory but the one reserved |
| `RestoreRecovery.TwoCopiesAreStuck` | cmd/borgmatic-manager/restore_swap.go:462-493 | a missing volume with two marked copies that hold data is not recoverable |
| `RestoreRecovery.InterruptedRestore` | cmd/borgmatic-manager/main.go:1490-1507 | recovery, clearing and restore cut short anywhere by a death or a power loss, and the run after it: that run gets through unless a call fails, passes through recoverable states only and ends with an old tree or the extracted one, and with an old one if the extract was refused; a power loss during it loses nothing either, always after a power loss and after a death if nothing is exposed |
| `RestoreRecovery.ExchangeExposes` | cmd/borgmatic-manager/restore_swap.go:217-249 | after an exchange not yet flushed the old tree under the staging name is exposed |
| `RestoreRecovery.RenamePairUnexposed` | cmd/borgmatic-manager/restore_swap.go:254-310 | after a pair of renames, flushed or not, nothing is |
| `RestoreRecovery.OneStateUnexposed` | cmd/borgmatic-manager/restore_swap.go:978-1005 | in a directory with nothing unflushed nothing is exposed |
| `RunLocks.ExtractRepoKeys` | internal/config/generate.go:1350-1376 | one key per distinct canonical repository, without duplicates |
| `RunLocks.SemaphoreKeysAscend` | internal/runner/runner.go:202-211 | a backup waits for its semaphores in strictly ascending order, that of the snapshots first and then those of its repositories by name |
| `RunLocks.StringLessExactly` | internal/runner/runner.go:202-211 | names are ordered by the first character in which they differ, and a prefix comes first |
| `RunLocks.SemaphoreKeysCover` | internal/runner/runner.go:202-211 | the keys are the snapshot key when there are hooks and one for each repository, and never a group's |
| `RunLocks.RestoreLockKeys` | cmd/borgmatic-manager/main.go:1736-1767 | group keys then repository keys, without duplicates: exactly those of the source group and of every group that backs up the target volume |
| `RunLocks.AlwaysConsistent` | internal/runner/runner.go:193-269 | in every state of every execution the lock tables hold exactly what callers took and have not released |
| `RunLocks.ReturnedHoldsNothing` | internal/runner/runner.go:193-269 | a caller that has returned, by whatever path, holds no semaphore and no file lock |
| `RunLocks.RunningJobsExclude` | internal/runner/runner.go:193-269 | no two running jobs share a group, a repository or, as backups, snapshot hooks |
| `RunLocks.RestoreKeepsBackupsOut` | cmd/borgmatic-manager/main.go:1479-1488 | while a restore runs no backup of its source group, of a group that backs up its volume, or into any of their repositories runs |
| `RunLocks.NoCyclicWait` | internal/runner/runner.go:200-230 | no circle of callers waiting for each other, of any length, in any execution |
| `RunLocks.NeverStuck` | internal/runner/runner.go:200-230 | whenever a caller is blocked the holder of some semaphore is not, and can go on without cancellation or death |
| `Reaper.AlwaysInv` | internal/runner/runner.go:280-300 | the invariant tying runs, lock files, records, reapers and sweepers holds in every execution |
| `Reaper.ReaperSparesLiveRuns` | cmd/borgmatic-manager/main.go:450-493 | a run whose helpers a reaper removes is dead or has done its own reaping, unless it never had its lock and a sweeper was still to try its lock file when it removed it |
| `Reaper.LockedRunIsSafe` | cmd/borgmatic-manager/main.go:474-493 | a run that got its liveness lock is reaped by another only after it died or did its own reaping |
| `Reaper.ExposedRunIsReaped` | cmd/borgmatic-manager/main.go:515-544 | an execution, from nothing, in which the exception happens |
| `ReaperRace.ReapedLiveExactlyWhenExposed` | internal/runner/runner.go:280-289 | from the moment a run removes the lock file it was denied, some continuation reaps it alive if and only if a sweeper was still to try that file |
| `ReaperRace.OrphanIsReaped` | cmd/borgmatic-manager/main.go:450-518 | a run on record whose owner is gone can be reaped by a manager that starts now, provided nobody is at its lock file and the file is there or its process id is free: its helpers are removed, and then its record and its lock file |
| `ReaperRace.RunCleansUp` | internal/runner/runner.go:280-301 | a run just begun can go on to hold its liveness lock with its record in place, and from there to its end with its own helpers reaped and neither record nor lock file left |
| `GroupCache.MergeClaims` | internal/state/groupcache.go:289-306 | who claims a volume after a cycle: those that do now and recorded ones that are away |
| `GroupCache.MergeVolumes` | internal/state/groupcache.go:267-284 | what was found, then every cached volume not found, whose path exists and that was not deselected; those are the offline ones |
| `GroupCache.MergeDatabases` | internal/state/groupcache.go:337-354 | what was found and every cached database of another key |
| `GroupCache.ReconcileGroup` | internal/state/groupcache.go:193-241 | members, claims, offline marks and configuration of one group after a cycle |
| `GroupCache.Cache.Reconcile` | internal/state/groupcache.go:165-248 | the file, the in-memory copy and the merged view after a cycle agree, every group is reconciled and none is left empty; without lock or read the file is left alone and every group found is returned as it was found |
| `GroupCache.ViewAfter` | internal/state/groupcache.go:165-248 | a volume is in view after a cycle if and only if it was found, or was in view with an existing path and not released: nobody claims it any more, somebody is recorded to have, and all who are recorded are among the containers known to be there |
| `GroupCache.FoundWins` | internal/state/groupcache.go:267-284 | a volume that was found is recorded as it was found, and no remembered one of its name beside it |
| `GroupCache.ClaimsAfter` | internal/state/groupcache.go:289-306 | who is on record for a volume after a cycle, exactly: who claims it now, and who was on record and is not known to be there |
| `GroupCache.DatabasesAfter` | internal/state/groupcache.go:337-354 | which databases a group has after a cycle, exactly: those found and those remembered of which none of the same type, container and name was found |
| `GroupCache.KeyIsIdentity` | internal/state/groupcache.go:38-42 | the key tells apart databases of the same type and name in two containers |
| `GroupCache.ClaimRemembered` | internal/state/groupcache.go:286-306 | a claim stays on record while its volume is in view and its claimer is not seen to let go |
| `GroupCache.NoSilentLoss` | internal/state/groupcache.go:165-248 | over any number of cycles a volume leaves only if its path is gone or every container that claimed it was, since that claim, seen there without claiming it |
| `GroupCache.ReleasedIsDropped` | internal/state/groupcache.go:165-248 | and it does leave: in the first cycle that finds nobody claiming it and everybody there who was on record or has claimed it since |
| `GroupCache.DatabasesStay` | internal/state/groupcache.go:337-354 | a cached database never leaves |
| `Schedule.Store.RecordRun` | internal/state/schedule.go:408-503 | the group's record after a run: every repository's record has moved through the events of that run about it |
| `Wake.SuccessHolds` | internal/state/schedule.go:375-384 | after a recorded success, and whatever runs, other successes and absences are recorded since, the group is due again exactly when a period has passed, its members differ or the clock went back |
| `Schedule.Store.Retain` | internal/state/schedule.go:513-535 | present groups stop counting absences, absent ones count on or expire |
| `Schedule.ReconcileInventory` | internal/state/schedule.go:450-490 | configured repositories are materialised, repointed ones start anew, others are dropped |
| `Schedule.HistoryBelongsToDestination` | internal/state/schedule.go:399-503 | after any sequence of runs, with or without paths, last success, statistics and outcome are those of the newest event of their kind since the repository was last repointed or dropped |
| `Schedule.JudgedInOrder` | internal/state/schedule.go:416-448 | the outcomes a run is recorded by for one repository are all those about it, in the order reported |
| `Schedule.InventoryIsExact` | internal/state/schedule.go:464-490 | after a run that knows the inventory the records are exactly those of the configured ids |
| `Schedule.HistoryIsTheTail` | internal/state/schedule.go:492-498 | the history is the newest 90 outcomes, oldest first, each with its time, result and inventory and without its log and its per-repository part |
| `Schedule.TwoCyclesOfGrace` | internal/state/schedule.go:513-535 | an unprotected group that stays away survives two cycles and goes in the third |
| `Schedule.StaysExactly` | internal/state/schedule.go:513-535 | for every sequence of cycles: a record goes in the first in which its group is absent and unprotected and was absent in the two before, and in no other |
| `Schedule.AbsencesCounted` | internal/state/schedule.go:513-535 | as long as it is there a record is as it was, but for the number of cycles since its group was last there |
| `Schedule.ProtectedStays` | internal/state/schedule.go:513-535 | a protected group keeps its record however long it is away |
| `ScheduleUpdates.NoLostUpdates` | internal/state/schedule.go:279-312 | in any interleaving, with failed reads and writes and dying processes, the file is what the completed changes give one after another in lock order |
| `ScheduleUpdates.ChangeIsMade` | internal/state/schedule.go:279-312 | a change that finds the lock free and meets no failure is made to what is there, a missing or corrupt file counting as empty, and heals a corrupt one even when it changes nothing |
| `ScheduleUpdates.PendingUntilCleared` | internal/state/schedule.go:316-332 | a pending record is there from its recording to its clearing whatever other changes come between |
| `Attribution.TokenOccurrences` | internal/runner/runner.go:1139-1158 | every offset where a path stands as a whole token, overlapping ones included, in order |
| `Attribution.TokenStandsApart` | internal/runner/runner.go:1139-1158 | a path between two texts is a token there exactly when it is not empty and nothing but a delimiter touches it |
| `Attribution.Delimiters` | internal/runner/runner.go:1262-1280 | which characters of ASCII are delimiters, one by one |
| `Attribution.CreditCandidate` | internal/runner/runner.go:1107-1123 | one spelling's tokens are credited where nothing at least as long has been |
| `Attribution.ImplicatedRepos` | internal/runner/runner.go:1086-1126 | credited stretches are whole tokens, pairwise disjoint, a token goes uncredited only if it overlaps a credited one that is longer, or as long and of a repository configured no later, and exactly the repositories with a credit are blamed |
| `Attribution.LongestIsCredited` | internal/runner/runner.go:1073-1085 | a token longer than every configured token it overlaps is credited |
| `Attribution.EmbeddedIsNotBlamed` | internal/runner/runner.go:1073-1085 | a path inside a credited longer one is not credited there |
| `Attribution.MatchResults` | internal/runner/runner.go:831-895 | each result goes to at most one repository, on exact or canonical evidence or as the only one left, and no evidence is left unused; exact evidence goes first: a repository goes without a result it names exactly only for an earlier such result, or where the result went to an earlier repository that names it exactly; canonical evidence comes next, by the same rule |
| `Toolchain.StepSparesCurrent` | internal/toolchain/toolchain.go:478-578 | a step keeps a good link good, moves it only to a finished version, and leaves the version it names as it is |
| `Toolchain.PointerStaysGood` | internal/toolchain/toolchain.go:407-452 | once `current` links to a finished version it does in every later state of any number of processes dying anywhere |
| `Toolchain.CleanupSparesCurrent` | internal/toolchain/toolchain.go:694-733 | no cleanup removes or breaks the version `current` names |
| `Toolchain.UpdateInstalls` | internal/toolchain/toolchain.go:478-578 | whatever earlier attempts left, a process that finds the lock free and meets no failure can go on until the link names its new, finished version, what it named before is kept as it was, and nothing else is left |
| `Wake.Due` | internal/scheduler/scheduler.go:294-306 | exactly when a group is due, that changed members are reported exactly when they are the reason, and otherwise that the next time is one period after the last success |
| `Wake.EffectivePeriod` | internal/scheduler/scheduler.go:319-327 | the first positive one of the group's label and the file, and the manager's period when neither is |
| `Wake.Scheduler.NextWake` | internal/scheduler/scheduler.go:539-593 | the sleep is the earliest of a period, the postponement, a lock retry and the deadlines of the groups that drive it, or the minimum where that is longer: never past one of them by more than the minimum, and never short of them all |
| `Wake.Scheduler.RunAllGroups` | internal/scheduler/scheduler.go:331-457 | what a cycle makes of every live group, by the outcome of its run; absent ones lose their marks and, after two cycles and unless cached, their record |
| `Wake.Scheduler.RunCycle` | internal/scheduler/scheduler.go:461-530 | a failed pre-run check puts the cycle off for a fixed time and changes nothing else; a passed one ends a postponement and the groups run |
| `Wake.Scheduler.RunGroup` | internal/scheduler/scheduler.go:363-429 | what a run or its being put off makes of one group, and of no other: the mark of the try, except where this process was already at it; a lock retry exactly where another process held the lock; a record changed by success alone |
| `Wake.WokenInTime` | internal/scheduler/scheduler.go:539-593 | a present group is woken at most the minimum sleep after the first moment its period makes it due |
| `Wake.Scheduler.CycleThenSleep` | internal/scheduler/scheduler.go:461-593 | after a cycle every live group is woken for at most the minimum sleep after its lock retry and after the end of a period from its last success or attempt, except one nothing is known of whose run was in progress; and the sleep ends no earlier: only at a period, a standing postponement, or such a moment of a live group, or after the minimum; after a skipped cycle it ends with the postponement |

## Left out

- Process execution, signals, pipes, timeouts, journald and the metrics exporter: only the lock, record and reaping steps of a run are modelled, and the child's run is one step.
- Docker and Podman, HTTP download, unpacking and checksums: in the toolchain, building a version is one step that may fail.
- YAML and JSON, label parsing, redaction, terminal output and the status commands.
- `ArchiveFormat.EveryWrittenNameIsGenerated`: directive characters are ASCII; placeholder names are lower-cased as ASCII, years lie between 1000 and 9999, and borg's own doubled-brace escapes are not modelled, because the generator does not treat them. Borg is taken to read a placeholder's name and specification as the generator does: `{now:}` renders as nothing on both sides, and a conversion such as that of `{hostname:>20}` is ignored on both.
- `ArchiveFormat.StrftimeSegments`: the code's loop goes byte by byte, so a directive character outside ASCII leaves stray bytes behind in its literal, which match no such character of another glob; the model reads it as one unknown directive.
- `ArchiveFormat.OwnNamesAreMatched`: one direction only; for a class between two placeholders whether a name is matched depends on what they write, and `ArchiveFormat.OuterBracketsExactly` leaves that case out.
- `RestoreSwap.RestoreWithSwap`: its guarantee for crashes asks that no marked replaced directory was left over; with one, recovery chooses by emptiness or refuses, as `RestoreRecovery.RecoverInterruptedSwap` states for every state.
- `RestoreSwap.CreateStagingLike`: replacing the placeholder by a btrfs subvolume and copying owner, mode, labels, attributes and quotas is one step that may fail.
- Making staging read-only and asking whether the volume is still unused: the answers are inputs of the restore.
- Marking a directory fails only where the filesystem keeps no user attributes; other causes are not modelled.
- Resolving a symlinked data directory and the probe directory made to see whether staging is possible.
- Merge and in-place restores write into live data and promise no atomicity.
- What TryRunGroup returns to its caller is not part of the lock states; `Wake` takes it as an input.
- `Reaper.ReaperSparesLiveRuns`: pending records without a process id, from before it was stored, are not modelled.
- `GroupCache.NoSilentLoss`: cycles that cannot lock or read the cache, and failed writes of it, are not part of a history.
- Canonical repository keys and identities are an arbitrary function of the path; symlinks and environment variables are not modelled. The spellings of a repository are an input of `Attribution.ImplicatedRepos`.
- perRepoFailure's choice between measured, implicated, confirmed and unknown repositories, and the probes behind it.
- `Toolchain.CleanupSparesCurrent`: which superseded directories a running borgmatic still uses is an arbitrary choice of the cleanup step.
- The event listener, debouncing and the order in which goroutines of a cycle finish.
