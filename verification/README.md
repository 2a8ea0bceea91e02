# NetworkDisk in Dafny

NetworkDisk is a private cloud store: users keep a forest of files and directories, deleted rows go
to a recycle bin, file contents are stored once per digest, and every user has a `storage_used`
account. This project models four parts of it and proves what they keep over whole runs.

* **The file forest** (`internal/service/file.go` over `internal/store/file.go`). `FileTable`,
  `TableEdits` and `Sizes` hold the row table, its ancestor relation, the effect of every statement on
  the forest and the sums of sizes; `FileQueries` holds the recursive queries as loops; `Names` the
  search for a free name. `FileOps` says what each operation does to the stored state; `Service` is the
  program as it runs, a class whose methods change rows, accounts, blobs and sessions step by step and
  are proved to do what `FileOps` says. `Effects` says independently of both, in columns and ancestors, when
  each operation commits, what every row, account, blob and session is afterwards, and what each error
  means. `Structure`, `Accounting`, `Blobs`, `Stranding`, `FileSizes` and
  `SiblingNames` prove what one operation keeps, `Reachable` what holds over every run, `RecycleBin` what
  the bin promises, and `Departures` shows concrete inputs on which the code does something else than it
  sets out to do.
* **Chunked upload**: `Chunks` (slicing, storing, merging), `Uploader` (the browser's callbacks).
* **Refresh-token rotation** under free interleaving: `Tokens`.
* **Counters with caps**: `Limiter` (request limiter, share-password counter, login-code counter),
  `Shares` (download cap), `VerifyToken` (the signed token of a password-protected share).

## Where the code departs from its intent

The model keeps the code as it is. Each departure has a concrete input in `Departures`, and an
if-and-only-if over whole runs in `Reachable` says exactly when the intended property survives. The
runs start from any state that meets the property; the empty system does (`Reachable.EmptyIsFine`).

* The move guard (`internal/service/file.go:750`, `:964`) asks whether the moved directory lies under
  the target; its message speaks of the reverse. A move into one's own subtree is accepted and closes a
  cycle, a harmless move up to an ancestor is refused. `Reachable.ForestOverRun`,
  `Structure.IntendedGuardIsExact`, `Structure.RefusedMoveWasHarmless`.
* Purging and automatic cleaning charge back bytes that deletion already charged back; deleting a
  deleted file, and selections that share a file, charge twice. The clamp at 0 turns the account into a
  lower bound of the active bytes over every run; `Reachable.BooksExactOverRun` says when it stays equal.
* Overwriting a directory deletes its row alone; a chunked upload finished after its directory was
  deleted lands under the deleted directory. `Reachable.StructureOverRun`.
* Restoring does not look at names, neither at that of the row nor at those below it, where a late
  completion may have put an active sibling; a batch move checks each name only against the state before
  the batch; and a finished chunked upload with new content takes its name unchecked.
  `Reachable.NamesOverRun`.
* Rows that share a blob and are purged or cleaned together leave the blob behind.
  `Reachable.BlobsHeldOverRun`.
* The size of a chunked upload is the announced one, whatever the chunks add up to.
  `Reachable.SizesTrueOverRun`.
* The repository's README (line 160) offers `rename` and `error` for `on_name_conflict`; the code
  (`internal/service/file.go:515-539`) knows `overwrite` and takes everything else as `rename`. The
  model follows the code.

## Assumptions

Each statement or transaction is one atomic step, and an operation of the file service is one step.
Two lookups are `LIMIT 1` without an order, so their answers are inputs that must be possible answers.
SHA-256 is any function without collisions, the HMAC any function; storage keys, upload ids and token
families are fresh; clocks are parameters. Names are given after trimming, and their length is counted
in characters that stand for bytes. The table's inserts fail on a missing user or parent row, as its
foreign keys demand.

## Model

| member | source | states |
|---|---|---|
| FileTable.BelowStep | internal/store/file.go:669-673 | a row lies below r iff its parent is r or lies below r: the closure one step of the recursive query unfolds |
| FileTable.LongChainIsCyclic | internal/store/file.go:669-673 | a chain of parents longer than the table ends on a cycle, so only a cycle can keep a recursive query from ending |
| FileTable.AcyclicIsGrounded | internal/store/file.go:700-704 | without cycles every chain of parents ends within as many steps as there are rows |
| FileTable.AncestorsRelated | internal/service/file.go:883-936 | two ancestors of one row are equal or one lies below the other, which is why unrelated selections never meet |
| FileTable.CycleAbove | internal/service/file.go:784-798 | whatever lies above a row on a cycle lies on that cycle |
| FileTable.LevelsDisjoint | internal/store/file.go:669-673 | off a cycle a row turns up in one round of the recursive query only, so UNION ALL repeats nothing |
| FileQueries.Reach | internal/store/file.go:668-673 | the rounds end and list every row below the root exactly once; the query is aborted iff the root is below itself |
| FileQueries.DescendantIDs | internal/store/file.go:659-692 | lists exactly the rows with the root as a proper ancestor and the wanted deletion status, each once; fails iff the root is on a cycle |
| FileQueries.DescendantCounts | internal/store/file.go:725-743 | the two numbers are the cardinalities of the files and directories reached through deleted rows only |
| FileQueries.FilesInRecycleBin | internal/store/file.go:292-321 | lists once each the user's deleted rows whose parent is not a deleted row, the latest deletion first |
| FileQueries.FileAncestors | internal/store/file.go:694-723 | returns the chain of active rows that leads to the given one, each entry the parent of the next and the first without an active parent; no answer only below an active cycle |
| TableEdits.InsertKeepsForest | internal/store/file.go:563-583 | a new row changes no ancestor relation and closes no cycle; the table stays sound iff its parent is active |
| TableEdits.SoftDeleteKeepsForest | internal/store/file.go:540-561 | soft deletion moves nothing and keeps the table sound iff no active child is left below a deleted row |
| TableEdits.UndeleteKeepsForest | internal/store/file.go:745-764 | undeletion moves nothing and keeps the table sound iff every row undeleted gets an active parent |
| TableEdits.RemoveKeepsForest | internal/store/file.go:789-806 | removal keeps the table sound iff no child of a removed row survives, and then changes no ancestor relation |
| TableEdits.RetitleKeepsForest | internal/store/file.go:616-630 | renaming keeps soundness and acyclicity |
| TableEdits.ReparentKeepsSound | internal/store/file.go:604-614 | re-linking to the root, or of active rows to an active directory of the same owner, keeps the table sound even when it closes a cycle |
| TableEdits.ReparentAcyclicIff | internal/service/file.go:978-982 | re-linking a set of rows keeps the forest acyclic iff none of them is the target or one of its ancestors |
| TableEdits.TargetChainUnchanged | internal/service/file.go:952-982 | a permitted move leaves the target's own ancestors alone, so checking every row before moving any is enough |
| TableEdits.MoveUnderSelfMakesCycle | internal/service/file.go:749-755 | moving a set of rows below one of its members makes a cycle, wherever the others stand |
| TableEdits.FewerLinksNoCycle | internal/store/file.go:540-614 | in any table, statements that drop rows or links close no cycle |
| TableEdits.NewRowNoCycle | internal/store/file.go:563-583 | in any table, a row under a new id closes no cycle, whatever its parent |
| Sizes.SumAfterSoftDelete | internal/store/file.go:452-468 | deleting rows lowers a user's active bytes by exactly those of the rows that were active and the user's |
| Sizes.SumAfterUndelete | internal/store/file.go:452-468 | undeleting rows raises a user's active bytes by exactly those of the rows that were deleted and the user's |
| Sizes.SumAfterInsert | internal/store/file.go:452-468 | a new row adds its size to its owner's active bytes, unless it is a directory |
| Decimal.ParsePrinted | internal/service/share.go:262-280 | parsing a printed 64-bit number gives it back |
| Decimal.PrintNatInjective | internal/service/file.go:529 | different numbers print differently |
| Decimal.PrintedLength | internal/service/file.go:529 | the number of digits is that of the number in base ten, without leading zeros |
| Decimal.ParsesIff | internal/service/share.go:280 | exactly the non-empty runs of digits are numbers |
| Decimal.OutOfRangeIsRefused | internal/service/share.go:280 | a number that does not fit in 64 bits is refused |
| Names.FirstFree | internal/service/file.go:526-538 | an answer is the numbered candidate with the least free number from i on; a conflict means all of them are taken; any other error means a candidate is too long |
| Names.ResolveName | internal/service/file.go:506-540 | the name returned is free, and valid if the desired one was |
| Names.ResolvedNameForm | internal/service/file.go:506-540 | a free desired name is kept as it is; a taken one gets the least free number, in brackets, before its extension |
| Names.ExtMeaning | internal/service/file.go:120 | the extension starts at the last dot of the last path element; without such a dot it is empty |
| Names.LowerMeaning | internal/service/file.go:120 | lower-casing changes the letters A to Z alone |
| Names.CandidatesDiffer | internal/service/file.go:529 | candidates with different numbers are different names |
| Names.RenameSucceeds | internal/service/file.go:526-538 | in a directory with at most 999 active entries the search finds a name, provided the candidates fit in 255 bytes |
| Names.RenameFailsIff | internal/service/file.go:506-540 | the search fails iff the desired name and all 999 numbered variants are taken |
| Names.AllTakenIsCrowded | internal/service/file.go:526-538 | if all are taken the directory has at least 1000 active entries |
| OpShapes.UploadShape | internal/service/file.go:111-261 | a committed upload inserts a row in an active directory of the user whose name was free, or takes the place of the row it names; anything else leaves the state alone |
| OpShapes.CompleteShape | internal/service/file.go:1329-1443 | a committed completion inserts a row for the merged chunks; its name collides iff neither a duplicate was renamed nor the name was free |
| OpShapes.CopyShape | internal/service/file.go:800-866 | a committed copy shares everything with its source but directory and name, and its name was free |
| Effects.CreateDirEffect | internal/service/file.go:282-305 | commits iff the name fits, the parent is the root or an active directory of the user and no active sibling has the name; adds one empty active directory there and changes nothing else |
| Effects.UploadCommitsIff | internal/service/file.go:111-156 | commits iff name, extension, parent and size pass and a name is found: the desired one if vacant or overwritten, else a numbered one |
| Effects.UploadEffect | internal/service/file.go:158-254 | adds the row asked for, with size and digest of the bytes; marks the overwritten row alone deleted at that instant; shares the key of an active file with the digest if there is one, else stores the bytes under the fresh key; bills the user for the difference and nobody else |
| Effects.CopyEffect | internal/service/file.go:800-866 | commits iff source, target and name pass; adds the source's columns under target and name, charges its size, and changes nothing else |
| Effects.InitEffect | internal/service/file.go:1255-1299 | accepted iff name, size, parent and extension pass; opens one empty session with exactly the user, directory, name and size asked for, the configured or default chunk size and the least sufficient chunk count |
| Effects.ChunkStored | internal/service/file.go:1301-1327 | an accepted chunk is held under its index as the prefix of the data that fits, and no other chunk, session or row changes |
| Effects.CompleteCommitsIff | internal/service/file.go:1329-1436 | commits iff the session is the user's, all chunks are there, its directory still has a row and its name, or the one a duplicate is renamed to, fits |
| Effects.CompleteEffect | internal/service/file.go:1371-1442 | adds the session's file to the session's directory under that name, shares or stores the merged bytes, bills the owner and closes this session alone |
| Effects.CompleteRefused | internal/service/file.go:1376-1383 | a refused completion changes nothing, except that it closes the session when it got as far as naming a duplicate |
| Effects.RenameEffect | internal/service/file.go:307-347 | commits iff the row is the user's and the name fits and is its own or vacant; the row then carries the name, and nothing else changes |
| Effects.MoveEffect | internal/service/file.go:733-782 | commits iff target and row pass in their columns; the row's parent is then the target, the root included, and nothing else changes |
| Effects.BatchMoveEffect | internal/service/file.go:938-987 | commits iff every listed row passes; exactly the listed rows then have the target as parent, and nothing else changes |
| Effects.DeleteEffect | internal/service/file.go:349-399 | commits iff the row is the user's and no directory on a cycle; exactly the row and the active rows below a directory carry the given date, and the user alone is billed back for them |
| Effects.BatchDeleteEffect | internal/service/file.go:883-936 | commits iff every listed row is active, the user's and off cycles; exactly the rows reached from one of them carry the given date |
| Effects.RestoreEffect | internal/service/file.go:587-650 | commits iff the row is deleted, the user's, and a file only if its parent is there; exactly it and the deleted rows below it become active, an orphaned directory moves to the root, and the user alone is billed |
| Effects.PurgeEffect | internal/service/file.go:652-731 | removes exactly the row and the deleted rows below it; survivors keep every column; exactly the blobs whose only holder went are freed; the user alone is billed back |
| Effects.CleaningEffect | internal/service/file.go:1129-1235 | a row survives iff it is active, or deleted no earlier than the cutoff and below no directory off cycles deleted earlier; survivors keep every column; exactly the blobs of files that alone held them are freed; each owner is billed back for the bytes that went |
| Effects.NothingToClean | internal/store/file.go:497-501 | with nothing deleted before the cutoff a cleaning changes nothing |
| Effects.CalibrateAndCancel | internal/service/file.go:1087-1103 | calibration sets one account to the active bytes and changes nothing else; cancelling drops one session |
| Effects.ExtensionRule | internal/service/file.go:483-498 | the allowed list, if there is one, admits exactly its extensions; otherwise the blocked list refuses exactly its own |
| Effects.BlockedIsRefused | internal/service/file.go:120-123 | a file with a blocked extension gets in neither by an upload nor by a chunked one |
| Effects.RefusalsAreTrue | internal/service/file.go:111-1443 | whatever error an operation reports, the request has that fault |
| Structure.InsertSoundIff | internal/service/file.go:448-481 | inserting below a directory of the owner keeps the forest well-formed iff that directory is active |
| Structure.AddFileSoundIff | internal/service/file.go:172-200 | an upload's transaction keeps the forest well-formed iff its directory is active and the overwritten row has no active child |
| Structure.UploadSoundIff | internal/service/file.go:111-261 | the same for the whole upload, in terms of the request |
| Structure.CompleteSoundIff | internal/service/file.go:1329-1443 | finishing a chunked upload keeps the forest well-formed iff the session's directory is still active |
| Structure.CreateDirKeeps | internal/service/file.go:282-305 | making a directory keeps the forest well-formed and acyclic |
| Structure.CopyKeeps | internal/service/file.go:800-866 | copying keeps the forest well-formed and acyclic |
| Structure.SubtreeIsClosed | internal/service/file.go:360-381 | the collected rows are off every cycle, of one owner, closed downwards for their status, and all but the first have their parent at or below the first |
| Structure.DeleteKeeps | internal/service/file.go:349-399 | deleting keeps the forest well-formed and acyclic: nothing active is left below a deleted directory |
| Structure.BatchDeleteKeeps | internal/service/file.go:883-936 | the same for deleting any selection, overlapping or not |
| Structure.SubtreeAfterDetach | internal/service/file.go:636-640 | re-linking a row to the root changes nothing below it |
| Structure.RestoreKeeps | internal/service/file.go:587-650 | restoring, with or without re-linking to the root, keeps the forest well-formed and acyclic |
| Structure.PurgeKeeps | internal/service/file.go:652-731 | purging leaves no row without its parent |
| Structure.SweptIsClosed | internal/service/file.go:1143-1178 | what an automatic cleaning collects is deleted and contains every child of what it contains |
| Structure.AutoCleanKeeps | internal/service/file.go:1129-1235 | automatic cleaning keeps the forest well-formed and acyclic |
| Structure.RenameKeeps | internal/service/file.go:307-347 | renaming keeps the forest well-formed and acyclic |
| Structure.MoveKeeps | internal/service/file.go:733-782 | moving keeps parents existing, active and of the same owner, even when it closes a cycle |
| Structure.BatchMoveKeeps | internal/service/file.go:938-987 | the same for a batch |
| Structure.MoveAcyclicIff | internal/service/file.go:733-782 | on any acyclic table a committed move keeps it acyclic iff the target is neither the row nor below it |
| Structure.BatchMoveAcyclicIff | internal/service/file.go:938-987 | on any acyclic table a committed batch keeps it acyclic iff, before it, the target was neither one of the rows nor below one |
| Structure.IntendedGuardIsExact | internal/service/file.go:750-753 | the test the error message describes, target among the row's active descendants, is the exact condition for a cycle |
| Structure.RefusedMoveWasHarmless | internal/service/file.go:750-753 | every move refused as a cycle would have kept the forest acyclic |
| Structure.GuardIsReversed | internal/service/file.go:750-753 | without cycles the guard as coded refuses a directory iff it lies below the target |
| Accounting.LossKeepsAccounts | internal/store/user.go:288-298 | charging back at least what left keeps the account below the active bytes; it stays equal iff charged exactly or nothing is left active |
| Accounting.AddFileBalance | internal/service/file.go:172-200 | an upload, also an overwriting one, keeps the inequality and wherever it held the equality |
| Accounting.CopyBalance | internal/service/file.go:855-864 | a copy charges its owner exactly the bytes that become active |
| Accounting.DeleteBalance | internal/service/file.go:349-399 | deletion charges back at least the bytes that stop being active, and touches no other user |
| Accounting.DeleteExactIff | internal/service/file.go:349-399 | deletion keeps an exact account exact iff it does not delete a non-empty file a second time (or nothing else is active) |
| Accounting.BatchDeleteBalance | internal/service/file.go:883-936 | batch deletion charges back the counted bytes, which are at least the distinct ones |
| Accounting.CountedOnceIff | internal/service/file.go:889-918 | the bytes counted are those of the distinct rows iff no two selected rows reach the same non-empty file |
| Accounting.BatchDeleteExactIff | internal/service/file.go:883-936 | batch deletion keeps an exact account exact iff no two selected rows reach the same non-empty file, or the selection covers every non-empty active file of the user |
| Accounting.DisjointSelectionsCountOnce | internal/service/file.go:889-918 | a selection without repetition in which no row lies below another is counted once |
| Accounting.RestoreBalance | internal/service/file.go:587-650 | restoring credits exactly the bytes that become active |
| Accounting.PurgeBalance | internal/service/file.go:652-731 | purging frees no active byte and charges back the purged ones |
| Accounting.PurgeExactIff | internal/service/file.go:674-729 | purging keeps an exact account exact iff the purged rows hold no bytes or the user has none active |
| Accounting.AutoCleanBalance | internal/service/file.go:1186-1233 | cleaning keeps the inequality, and each user's exact account exact iff that user's swept rows hold no bytes or no active bytes remain |
| Accounting.StepKeepsAccounts | internal/service/file.go:111-1235 | every operation keeps links within one user and storage_used at most the active bytes; those that do not subtract keep equality too |
| Blobs.FreedKeysUnused | internal/service/file.go:690-712 | no purge frees the blob of a row that survives it |
| Blobs.PurgeKeepsBlobs | internal/service/file.go:690-724 | after a purge every surviving file reads the bytes it read before |
| Blobs.AddFileRefines | internal/service/file.go:158-254 | an upload adds one readable row with the uploaded bytes, sharing a blob or not, and changes no other file's bytes |
| Blobs.CopyStep | internal/service/file.go:844-865 | a copy reads back its source's bytes |
| Blobs.CompleteStep | internal/service/file.go:1371-1442 | a finished chunked upload reads back the merged bytes |
| Blobs.StepRefines | internal/service/file.go:111-1443 | every operation does to the bytes behind each file what a store with separate bytes per file does |
| Blobs.DeduplicationIsInvisible | internal/service/file.go:111-1443 | the same over every run, from every properly stored state |
| Blobs.StrandedIff | internal/service/file.go:690-721 | a purge leaves an unused blob behind iff it removes all of at least two rows that share it |
| Blobs.SweepStrandedIff | internal/service/file.go:1186-1228 | so does an automatic cleaning |
| Stranding.StepHeldIff | internal/service/file.go:111-1443 | a committed operation keeps every stored blob held by a row iff it does not remove all of a blob's several holders |
| FileSizes.StepSizesIff | internal/service/file.go:111-1443 | a committed operation keeps every file's size equal to the bytes it reads back iff it is not a completion whose chunks add up to another number than announced |
| SiblingNames.AddFileDistinctIff | internal/service/file.go:172-200 | an upload's transaction keeps sibling names distinct iff it replaces the row of that name or the name is free |
| SiblingNames.UploadKeepsDistinct | internal/service/file.go:111-261 | uploads keep sibling names distinct in both conflict modes |
| SiblingNames.CompleteDistinctIff | internal/service/file.go:1376-1426 | finishing a chunked upload keeps them distinct iff a duplicate was renamed or the name is free |
| SiblingNames.RestoreDistinctIff | internal/service/file.go:587-650 | restoring keeps them distinct iff no restored row's name is taken where the row lands and no two restored rows land in one directory under one name |
| SiblingNames.BatchMoveDistinctIff | internal/service/file.go:938-987 | a committed batch move keeps them distinct iff the moved names differ from each other |
| SiblingNames.MoveKeepsDistinct | internal/service/file.go:768-777 | moving one row keeps them distinct |
| SiblingNames.RenameKeepsDistinct | internal/service/file.go:307-347 | renaming keeps them distinct, also for a row in the recycle bin |
| SiblingNames.CopyKeepsDistinct | internal/service/file.go:818-857 | copying keeps them distinct |
| SiblingNames.CreateDirKeepsDistinct | internal/service/file.go:297-304 | making a directory keeps them distinct |
| SiblingNames.StepDistinctIff | internal/service/file.go:111-1443 | every committed operation, in any state a run reaches, keeps them distinct iff it meets the condition given for its kind |
| Reachable.FailureIsClean | internal/service/file.go:111-1443 | a refused operation changes nothing, except that it may close an upload session |
| Reachable.StepSoundIff | internal/service/file.go:111-1443 | a committed operation keeps the forest well-formed iff it neither overwrites a directory with active children nor fills a deleted one |
| Reachable.StepAcyclicIff | internal/service/file.go:111-1443 | a committed operation, in any state a run reaches, keeps the forest acyclic iff it is not a move below the moved row |
| Reachable.StepExactIff | internal/service/file.go:111-1235 | a committed operation keeps every account equal to the active bytes iff it meets the condition given for its kind |
| Reachable.RunIff | internal/service/file.go:111-1443 | what each operation keeps exactly under a condition, a run keeps throughout exactly when every operation that was not refused met it |
| Reachable.EmptyIsFine | internal/service/file.go:50-58 | the empty system meets every property the run results start from |
| Reachable.AccountsOverEveryRun | internal/store/user.go:288-310 | over every run of all operations storage_used lies between 0 and the user's active bytes |
| Reachable.BooksExactOverRun | internal/store/user.go:288-310 | from any exact accounts, as calibration leaves them, they are exact throughout a run iff every committed operation met that condition |
| Reachable.StructureOverRun | internal/service/file.go:111-1443 | the forest is well-formed throughout a run iff no committed upload overwrote a directory with active children or filled a deleted one |
| Reachable.ForestOverRun | internal/service/file.go:733-987 | over every run the parent links stay a forest iff no committed move went below its own row |
| Reachable.NamesOverRun | internal/store/file.go:632-657 | over every run active siblings keep distinct names iff every committed operation met the naming condition |
| Reachable.BlobsHeldOverRun | internal/service/file.go:690-721 | over every run each stored blob stays held by a row iff no committed purge or cleaning took all of a blob's several holders |
| Reachable.SizesTrueOverRun | internal/service/file.go:1389-1426 | over every run each file's size is the number of bytes it reads back iff every committed completion merged as many as announced |
| Reachable.ContentsOverEveryRun | internal/service/file.go:263-280 | from the empty system on, every surviving file reads back the bytes it was created with |
| RecycleBin.RootsUnrelated | internal/store/file.go:298 | no listed root lies below another |
| RecycleBin.BinIsPartitioned | internal/store/file.go:292-321 | in any table without deleted rows on a cycle, each deleted row leads through deleted rows up to exactly one listed root |
| RecycleBin.ListingPartitionsBin | internal/store/file.go:292-321 | in a well-formed forest every deleted row of the user is, or lies below, exactly one listed root, whatever stands between |
| RecycleBin.PurgeRoot | internal/service/file.go:652-731 | purging a listed root succeeds and takes just that root off the listing |
| RecycleBin.PurgingListingEmptiesBin | internal/service/file.go:652-731 | in a well-formed forest purging listed roots takes exactly them off the listing, keeps the forest well-formed, and leaves no deleted row of the user once all are purged |
| RecycleBin.PurgesAddUp | internal/service/file.go:652-731 | purging deleted rows one after another, in any order and overlapping or not, removes exactly what each would have removed alone |
| RecycleBin.PurgingEmptiesAnyBin | internal/service/file.go:652-731 | in any table without deleted rows on a cycle, purging all listed roots removes exactly the user's deleted rows |
| RecycleBin.CountsMatchPurge | internal/service/file.go:576-584 | what is counted below a deleted directory is what purging the directory removes besides it |
| RecycleBin.CountsMatchPurgeIff | internal/store/file.go:725-743 | in any table the two agree iff no active row stands between the directory and a deleted row below it |
| RecycleBin.BreadcrumbIsComplete | internal/service/file.go:94-104 | in a well-formed forest the breadcrumb of an active row starts at a row without parent |
| RecycleBin.BreadcrumbExists | internal/store/file.go:694-723 | without cycles no breadcrumb query is aborted |
| RecycleBin.DeleteThenRestore | internal/service/file.go:349-650 | in any state a run reaches, deleting and restoring an active row fails iff it is a file whose parent is gone; else it gives back the rows, except that a directory without parent moves to the root and exactly the descendants deleted earlier become active too; storage_used ends higher by exactly their bytes if it covered the deleted ones |
| Departures.MoveIntoOwnSubtreeAccepted | internal/service/file.go:749-755 | a move into a child directory is accepted and closes a cycle |
| Departures.BatchMoveIntoOwnSubtreeAccepted | internal/service/file.go:963-969 | so is a batch move |
| Departures.MoveUpRefused | internal/service/file.go:749-755 | a harmless move up to an ancestor is refused as a cycle |
| Departures.PurgeChargesTwice | internal/service/file.go:725-729 | purging one byte zeroes the account of a user who still has an active byte |
| Departures.DeletingTwiceChargesTwice | internal/service/file.go:357-381 | deleting a deleted file succeeds and takes its byte off again |
| Departures.OverlappingSelectionChargesTwice | internal/service/file.go:889-931 | a directory deleted together with a file inside it takes the file's byte off twice and zeroes the account of a user who still has an active byte |
| Departures.CleaningChargesTwice | internal/service/file.go:1204-1233 | cleaning one expired byte zeroes the account of a user who still has an active byte |
| Departures.RestoreMakesTwins | internal/service/file.go:633-640 | a restored file gets a sibling of the same name |
| Departures.RestoreMakesTwinsBelow | internal/service/file.go:606-640 | a file restored with its directory meets an active sibling of its name already there |
| Departures.CompletionMakesTwins | internal/service/file.go:1417-1426 | a chunked upload with new content is completed under a name already taken |
| Departures.BatchMoveMakesTwins | internal/service/file.go:970-982 | two files of one name are moved together into one directory |
| Departures.PurgingTwoCopiesStrandsBlob | internal/service/file.go:697-703 | two copies purged together leave their blob behind |
| Departures.CleaningTwoCopiesStrandsBlob | internal/service/file.go:1189-1194 | so do two copies cleaned together |
| Departures.OverwriteStrandsChildren | internal/service/file.go:228-239 | overwriting a directory leaves an active row under a deleted one |
| Departures.LateCompletionLandsInBin | internal/service/file.go:1417-1434 | a chunked upload finished late becomes an active row under a deleted directory |
| Departures.ShortChunkMisstatesSize | internal/service/file.go:1423-1426 | a file announced as one byte whose chunk arrived empty claims a byte it does not have |
| Service.CountByStorageKey | internal/store/file.go:122-134 | returns the number of rows holding the key, deleted ones included, and 0 for the empty key |
| Service.SumActiveStorage | internal/store/file.go:452-468 | returns the sum of the user's active file sizes |
| Service.FileByHash | internal/store/file.go:150-167 | returns some active file with the digest if there is one |
| Service.FileByName | internal/store/file.go:169-198 | returns some active row of that name in the directory if there is one |
| Service.FreeCandidate | internal/service/file.go:526-538 | the loop over candidate numbers finds the least free one or fails as specified |
| Service.ResolveNameConflict | internal/service/file.go:506-540 | gives a possible answer of the name resolution in both conflict modes |
| Service.CollectSubtree | internal/service/file.go:360-381 | the loop collects the row and its descendants of the given status, each once, with the exact sum of their file sizes; fails iff the directory lies on a cycle |
| Service.FreeableKeys | internal/service/file.go:690-712 | the loop with its `checked` map returns exactly the keys of the batch held by at most one row |
| Service.FileService.UpdateUserStorageUsed | internal/store/user.go:300-310 | adds the delta to one account, never below 0, and touches no other |
| Service.FileService.ValidateParentDir | internal/service/file.go:448-466 | accepts exactly active directories of the user, and says which test failed first |
| Service.FileService.ValidateExtension | internal/service/file.go:483-498 | with a list of allowed extensions accepts exactly those, without one exactly those not blocked, ignoring case |
| Service.FileService.CreateFile | internal/store/file.go:563-583 | inserts the row under the next id, or changes nothing on a bad name, a missing user or a missing parent |
| Service.FileService.CreateDir | internal/service/file.go:282-305 | the new state and the answer are those of the specification, error cases included |
| Service.FileService.StoreFile | internal/service/file.go:222-254 | the transaction commits as a whole or leaves rows, accounts and blobs as they were |
| Service.FileService.UploadFile | internal/service/file.go:111-261 | the new state and the answer are the specified ones for some possible answers of the two lookups |
| Service.FileService.UploadIsOperation | internal/service/file.go:111-261 | what the program's upload does is, for a fresh key, an operation of the runs the whole-run results cover |
| Service.FileService.CopyFile | internal/service/file.go:800-866 | the new state and the answer are those of the specification |
| Service.FileService.InitUpload | internal/service/file.go:1255-1299 | opens a session with the rounded-up chunk count, or refuses and changes nothing |
| Service.FileService.UploadChunk | internal/service/file.go:1301-1327 | stores the chunk, cut to the chunk size, over any earlier one of its index; refuses other users and indices out of range |
| Service.FileService.UploadStatus | internal/service/file.go:1445-1462 | lists exactly the indices the server holds, in increasing order |
| Service.FileService.MergeChunks | internal/service/file.go:1338-1365 | yields the chunks joined in index order iff all are there |
| Service.FileService.CompleteUpload | internal/service/file.go:1329-1443 | the new state and the answer are the specified ones for some possible answer of the digest lookup |
| Service.FileService.CompletionIsOperation | internal/service/file.go:1329-1443 | the same for the program's completion of a chunked upload |
| Service.FileService.FinishDuplicate | internal/service/file.go:1376-1403 | the duplicate branch closes the session first, so it stays closed when the name search fails |
| Service.FileService.RenameFile | internal/service/file.go:307-347 | the new state and the answer are those of the specification |
| Service.FileService.IsDescendantOf | internal/service/file.go:784-798 | tells whether the second row is the first or one of its active descendants; no answer iff the first is on a cycle |
| Service.FileService.MoveFile | internal/service/file.go:733-782 | the new state and the answer are those of the specification |
| Service.FileService.CheckMoves | internal/service/file.go:952-977 | reports the first refused row of the batch, if any, and changes nothing |
| Service.FileService.BatchMove | internal/service/file.go:938-987 | re-links every listed row, or none |
| Service.FileService.BatchSoftDelete | internal/store/file.go:540-561 | marks exactly the listed rows, also those deleted before |
| Service.FileService.DeleteFile | internal/service/file.go:349-399 | deletes the row with its active descendants and charges back their bytes |
| Service.FileService.BatchDelete | internal/service/file.go:883-936 | deletes the active subtrees of all listed rows or fails on the first bad one; a byte reached twice is charged back twice |
| Service.FileService.RestoreFiles | internal/store/file.go:745-764 | clears the mark of exactly the listed rows |
| Service.FileService.RestoreFile | internal/service/file.go:587-650 | restores the row with its deleted descendants, to the root if a directory's parent is gone, and refuses a file whose parent is gone |
| Service.FileService.HardDeleteFiles | internal/store/file.go:789-806 | removes exactly the listed rows |
| Service.FileService.PermanentDeleteFile | internal/service/file.go:652-731 | removes the row with its deleted descendants, the blobs only they held, and charges back their bytes |
| Service.FileService.CollectSwept | internal/service/file.go:1143-1178 | the loop with its `processed` map lists every expired row and every deleted row below an expired directory once |
| Service.FileService.GatherSwept | internal/service/file.go:1183-1207 | gathers exactly the keys to free and, per user, the bytes of the swept files |
| Service.FileService.AutoCleanRecycle | internal/service/file.go:1129-1235 | removes the swept rows, frees their blobs, charges every owner, and returns how many rows went |
| Service.FileService.CalibrateStorage | internal/service/file.go:1087-1103 | sets one account to the user's active bytes |
| Service.FileService.AllUserIDsPaginated | internal/store/user.go:316-340 | returns the accounts of one page, or all of them for limit 0 |
| Service.FileService.CalibrateAllStorage | internal/service/file.go:1105-1127 | the paging loop ends, counts every account once, and leaves every account equal to its active bytes |
| Chunks.CountsAgree | web/static/js/app.js:375 | the browser's rounded-up division of numbers gives the server's integer count |
| Chunks.SlicesPartition | web/static/js/app.js:395-397 | every byte of the file lies in exactly one slice, and that slice has a number below the count |
| Chunks.JoinedSlices | internal/service/file.go:1350-1364 | joining the first n slices gives the file up to the n-th boundary |
| Chunks.DeliveredChunks | internal/service/file.go:1301-1327 | after any run in which its owner sends only slices of the file, an open session holds the slice of each index that arrived, repeated or out of order, and no other chunk |
| Chunks.MergeGivesFile | internal/service/file.go:1338-1365 | whatever else runs between, all chunks are present iff every index arrived, and then the merge is the file |
| Chunks.SessionEffect | internal/service/file.go:1255-1327 | no operation changes an open session but by storing a chunk in it |
| Chunks.CompletedRow | internal/service/file.go:1371-1442 | a committed completion adds a row of the announced size that reads back the merged bytes |
| Chunks.UploadedFileReadsBack | internal/service/file.go:1255-1443 | end to end, interleaved with any other operations: missing chunks are refused iff an index did not arrive, and a committed upload is an active file of the user in the directory asked for, under the name asked for or the one a duplicate is renamed to, with its size and digest, that reads back the bytes |
| Uploader.StepKeepsSane | web/static/js/app.js:389-428 | every callback keeps all indices before `index` stored, the retry count within bounds and a completion only with everything stored |
| Uploader.CompletesOnlyWhenStored | web/static/js/app.js:371-459 | under every sequence of answers, failures, timers, pauses, resumes and cancels of one chain the completion is requested only once the server holds every chunk, and no chunk is sent more than 1 + MAX_CHUNK_RETRIES times per visit |
| Uploader.RequestsBounded | web/static/js/app.js:401-427 | over all events of a chain a chunk is sent at most 1 + MAX_CHUNK_RETRIES times, and as often again for each resume |
| Uploader.ResumedUploadIsSafe | web/static/js/app.js:543-557 | the same for a chain resumed from the server's list of stored indices |
| Uploader.FirstRequest | web/static/js/app.js:377-399 | a chain starts with the chunk it is given, or requests the completion past the last one |
| Uploader.ChainStarts | web/static/js/app.js:384-399 | a resumed chain goes on with the chunk its index names, or requests the completion |
| Uploader.FailureIsRetried | web/static/js/app.js:417-427 | a failed chunk is sent again after its timer, three times; then the chain fails |
| Uploader.RetriedUploadCompletes | web/static/js/app.js:389-428 | a chain whose chunks each fail at most three times stores every chunk and requests the completion once |
| Uploader.UndisturbedUploadCompletes | web/static/js/app.js:389-428 | a chain that is left alone delivers each missing chunk once and then requests the completion once |
| Uploader.PauseAndCancel | web/static/js/app.js:383-385 | pausing changes nothing else; a cancelled chain is paused past its end and cannot be resumed |
| Uploader.PausedIsSilent | web/static/js/app.js:389-418 | a paused chain sends nothing and completes nothing until it is resumed; a cancelled one never does |
| Uploader.FirstMissing | web/static/js/app.js:545-550 | finds the least index the server does not hold |
| Uploader.ChunkedUpload.Next | web/static/js/app.js:389-399 | sends the current chunk, requests the completion past the last one, or stops when paused |
| Uploader.ChunkedUpload.SendChunk | web/static/js/app.js:401-410 | makes one request unless paused |
| Uploader.ChunkedUpload.OnSuccess | web/static/js/app.js:411-416 | moves on to the next chunk |
| Uploader.ChunkedUpload.OnFailure | web/static/js/app.js:417-427 | arms a timer for the same chunk until the retries are used up, then gives up |
| Uploader.ChunkedUpload.OnTimer | web/static/js/app.js:420-422 | repeats the request with one more retry counted |
| Uploader.ChunkedUpload.ResumeUpload | web/static/js/app.js:384 | continues the chain where it stopped |
| Uploader.ChunkedUpload.CancelUpload | web/static/js/app.js:385 | stops the chain for good |
| Tokens.StepKeepsInv | internal/service/user.go:149-281 | every statement keeps all but the newest token of a family revoked and revives no family without a live token |
| Tokens.CommitKeepsInv | internal/service/user.go:165-192 | so does the transaction of a refresh, although its token was read before the transaction |
| Tokens.AtMostOneLiveToken | internal/service/user.go:149-209 | under every interleaving a family has at most one unrevoked token, and it is the family's newest |
| Tokens.ReuseKillsFamily | internal/service/user.go:155-160 | once the family of a reused token is revoked it never has a live token again, whatever refreshes are in flight |
| Tokens.PasswordChangeEndsSessions | internal/service/user.go:223-250 | after a password change every live token of the user belongs to a family created afterwards: no earlier token or in-flight refresh of one has a live successor |
| Tokens.StepRevokes | internal/store/user.go:127-170 | each statement revokes or drops exactly the rows it is for, and changes no other column |
| Tokens.StepIssues | internal/store/user.go:98-125 | rows are added by logins and by refreshes whose token is still live, one each, and by nothing else |
| Tokens.ReadLeadsTo | internal/service/user.go:149-163 | a read changes no token; it leads to rotation for a live unexpired token and to the family's revocation for a revoked one |
| Tokens.RefreshIssuesSuccessor | internal/service/user.go:165-192 | a refresh whose token is still live revokes it and adds exactly one live token of the same user and family with the new expiry |
| Tokens.RefreshRollsBack | internal/service/user.go:171-173 | any other refresh changes no token |
| Tokens.RefreshSucceeds | internal/service/user.go:149-209 | whatever else runs between read and transaction, unless it revokes or drops the token the refresh ends with a live successor |
| Tokens.LoginThenRefresh | internal/service/user.go:149-281 | from a login to a refresh without revocation in between the family ends with a live token of the new expiry |
| Tokens.TokenStore.CreateRefreshToken | internal/store/user.go:98-125 | inserts one live token under the next id |
| Tokens.TokenStore.RevokeRefreshToken | internal/store/user.go:127-145 | succeeds iff the token was there and unrevoked, and revokes it |
| Tokens.TokenStore.IssueTokens | internal/service/user.go:256-281 | starts a family with one live token |
| Tokens.TokenStore.RefreshRead | internal/service/user.go:149-163 | goes on iff the token is there, unrevoked and unexpired; a revoked one leads on to revoking its family |
| Tokens.TokenStore.RevokeTokenFamily | internal/store/user.go:257-266 | revokes exactly the tokens of the family read |
| Tokens.TokenStore.RefreshCommit | internal/service/user.go:165-192 | rotates the token iff it is still unrevoked, and otherwise changes no token |
| Tokens.TokenStore.Logout | internal/service/user.go:211-221 | revokes the one token, and fails iff it was not live |
| Tokens.TokenStore.RevokeDeviceFamily | internal/store/user.go:397-418 | revokes the user's tokens of the family, and fails iff none was live |
| Tokens.TokenStore.DeleteExpired | internal/store/user.go:268-274 | drops exactly the expired tokens |
| Tokens.TokenStore.RevokeAllOf | internal/store/user.go:161-170 | revokes every token of the user and no other |
| Limiter.GatesAreLimiters | internal/service/share.go:176-189 | the share-password gate and the login-code gate decide and count as the request limiter does |
| Limiter.GrantsWithinCap | internal/middleware/ratelimit.go:57-71 | ties the entry's count and reset instant to the grants of any earlier window-long interval |
| Limiter.WindowBound | internal/middleware/ratelimit.go:57-71 | in any interval as long as the window at most 2 * limit - 1 requests of a host are granted |
| Limiter.BoundIsReached | internal/middleware/ratelimit.go:57-71 | for every limit some schedule reaches that bound |
| Limiter.CountIsGrants | internal/middleware/ratelimit.go:57-71 | the entry counts the requests granted since its window opened, and the last request fell inside the window |
| Limiter.RefusedIff | internal/middleware/ratelimit.go:57-71 | a request is refused exactly when the window is still open and `limit` requests were granted in it |
| Limiter.LoginGateRule | internal/service/user.go:118-134 | five codes in a quarter of an hour |
| Limiter.StepTouches | internal/middleware/ratelimit.go:37-71 | a request changes its host's entry alone; a cleanup drops exactly the entries whose window is over |
| Limiter.CleanupInvisible | internal/middleware/ratelimit.go:37-55 | cleaning up at any moments never changes a later answer |
| Limiter.HostBound | internal/middleware/ratelimit.go:37-71 | the bound holds for each host of the whole table, whatever the cleanups and the other hosts do |
| Limiter.GateIsLimiter | internal/service/user.go:118-141 | since the last success a gate, with the periodic cleanup running at any moments, lets through what the plain limiter would |
| Limiter.GateBound | internal/service/user.go:392-408 | between successes both gates let through at most 2 * limit - 1 attempts in any interval as long as their window |
| Limiter.AttemptLimiter.TrySharePassword | internal/service/share.go:176-189 | answers and counts as the share-password gate, for one address only |
| Limiter.AttemptLimiter.TryLoginCode | internal/service/user.go:122-134 | answers and counts as the login-code gate, for one account only |
| Limiter.AttemptLimiter.Reset | internal/service/share.go:328-332 | a success forgets the counter of that address or account |
| Limiter.AttemptLimiter.Cleanup | internal/service/user.go:401-407 | drops exactly the expired counters that had reached the limit |
| Limiter.RateLimiter.Allow | internal/middleware/ratelimit.go:57-71 | answers and changes the host's entry as specified, and no other entry |
| Limiter.RateLimiter.Cleanup | internal/middleware/ratelimit.go:43-50 | drops exactly the expired entries |
| Shares.StepKeepsInv | internal/service/share.go:216-258 | every step keeps the views equal to the granted, lost and pending downloads and within the cap |
| Shares.CapHolds | internal/service/share.go:216-258 | under every interleaving of both download paths with stale reads the views never exceed max_downloads and cover the granted downloads |
| Shares.OpensIff | internal/service/share.go:149-243 | a download starts iff the share is unexpired and, without a verify token, below its cap, without password and its file is there |
| Shares.CountsIff | internal/store/share.go:119-141 | counting takes one view iff there is room, and grants an unverified download at once |
| Shares.OpenDownloadSucceeds | internal/service/share.go:216-228 | an unverified request for an open share with room is granted and takes one view |
| Shares.VerifiedDownloadSucceeds | internal/service/share.go:230-258 | so is a verified one, if its file is still there |
| Shares.BarredGetNothing | internal/service/share.go:157-223 | requests after the expiry, or without a verify token for a share with a password, get nothing, however many there are |
| Shares.ShareRow.IncrementViewCountIfUnderMax | internal/store/share.go:119-141 | counts a view iff the share is unlimited or below the maximum read earlier |
| Shares.ShareRow.OpenShare | internal/service/share.go:149-223 | lets an unverified download start iff the share is unexpired, below its cap, without password and its file is there |
| Shares.ShareRow.OpenVerified | internal/service/share.go:234-243 | lets a verified download start iff the share is unexpired, whatever its views |
| Shares.ShareRow.CountView | internal/service/share.go:224-226 | counts the view or ends the download |
| Shares.ShareRow.ServeFile | internal/service/share.go:247-257 | serves the counted download, or loses it when the file is gone |
| VerifyToken.Base64RoundTrip | internal/service/share.go:267-272 | decoding unpadded base64url (section 5 of RFC 4648) gives back every encoded byte string |
| VerifyToken.DecodeEncoded | internal/service/share.go:267-272 | the same through the decoder that skips line breaks |
| VerifyToken.DecodesIff | internal/service/share.go:272-275 | a text decodes iff, line breaks aside, it holds symbols of the alphabet alone and no lone last one |
| VerifyToken.TestVectors | internal/service/share.go:267 | the encoding agrees with the examples of section 10 of RFC 4648 |
| VerifyToken.SplitSigned | internal/service/share.go:276-279 | splitting at bars into three gives back expiry, share token and signature, whatever the signature contains |
| VerifyToken.SplitsIff | internal/service/share.go:276-279 | a text splits in three exactly as a bar-free part, a bar-free part and the rest |
| VerifyToken.VerifyTokenRoundTrip | internal/service/share.go:260-298 | a signed token is accepted iff it is presented for the share it was signed for and no later than its expiry second |
| VerifyToken.AcceptedIff | internal/service/share.go:271-298 | any text whatever is accepted iff it decodes to an unexpired expiry, this share token and the MAC of the two |
| VerifyToken.OtherSignatureIsRejected | internal/service/share.go:290-296 | a text with any other third part is refused |
| VerifyToken.BarredTokenIsRejected | internal/service/share.go:276-289 | no verify token is ever accepted for a share token with a bar in it |

## Left out

- Service.FileService.UploadFile: does not model temporary files, MIME detection, thumbnails and disk failures, and takes the upload as one step without `lockHash`, whose unlock lets a second holder in.
- Service.FileService.CompleteUpload: does not model the comparison with the session's digest, because no code sets that digest.
- Service.FileService.AutoCleanRecycle: does not model the row-by-row fallback after a failed batch removal, because statements do not fail here.
- FileQueries.Reach: a recursive query is aborted only when it would never end; MySQL's bound on the recursion depth is not modelled.
- Tokens.PasswordChangeEndsSessions: speaks of token families; a login that checked the old password before the change and inserts its token after it counts as a later login.
- Limiter.GateBound: assumes a limit of at least 1 and a window that is not negative, and covers Login's use of the counter, not the use EnableTOTP and DisableTOTP make of it.
- Shares.CapHolds: follows one share row, whose terms no statement changes.
- Uploader.CompletesOnlyWhenStored: one chain at a time; with two chains at once `index` runs ahead of what is stored.
- Uploader.ChunkedUpload.ResumeUpload: called only when no request or timer is pending, so that one chain is at work.
- VerifyToken.VerifyTokenRoundTrip: the share token is free of bars, as the hexadecimal ones the service draws are; BarredTokenIsRejected covers the others.
- Names.ToLower and the name comparisons cover ASCII letters and exact equality; the database's collation and trimming of names are not modelled.
- Interleavings inside one file operation: the service reads outside its transactions, and only sequences of whole operations are covered.
- 64-bit overflow of sizes and sums, and foreign keys from shares and temporary links to files.
- HTTP handlers, middleware other than the limiter, configuration, previews, tags, search, audit logs, zip downloads, stars, time stamps and thumbnails: no state with an invariant of interest.
- Registration, password hashing, JWT signing and one-time codes: calls whose inside is not modelled.
- Pausing and resuming downloads in the browser: the saved partial blob drops the earlier part, so nothing comes back round.
