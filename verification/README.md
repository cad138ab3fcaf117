# magic.lambda.io in Dafny

This project models the file-system slots of magic.lambda.io. They are the Hyperlambda
keywords that copy, move, save, list and execute files and folders below an
application's root folder. Each slot receives a call node, evaluates its arguments,
turns relative paths into absolute ones, and calls a file, folder or stream service.

Two generations of slots are modelled side by side, because the repository ships both:

- the older `io.files.*` / `io.folders.*` slots, which join paths with
  `PathResolver.CombinePaths`;
- the later `io.file.*` / `io.folder.*` / `io.stream.*` slots, which go through an
  `IRootResolver`.

The disk is an abstract `map<string, Content>`, and every service call a slot makes is
appended to a trace. This lets the contracts speak about the order and number of calls
as well as the resulting files.

Collaborators the slots cannot see are parameters of the model:

- `eval`: the `eval` signal;
- `parse`: the Hyperlambda parser;
- `run`: evaluation inside a result scope;
- the directory listings of the services and of the disk;
- the callback of `utilities/Helpers.cs`.

The only concrete root resolver in the repository is the test resolver
(`magic.lambda.io.tests/helpers/Common.cs`), so that is the resolver modelled.

Modules, one per source component:

- `Results`: error kinds and results.
- `Strings`: the .NET string operations used.
- `Nodes`: call nodes and the child operations used on them.
- `Services`: the abstract filesystem, the services and the call trace.
- `PathResolver` and `RootResolver`: path handling.
- `GetPathFolder`.
- `Utilities`, `FileCopyMove`, `FilesCopyMove` and `Helpers`: copy and move.
- `SaveFile` and `SaveFileStream`.
- `Listing`, `Sorting`, `ListFile`, `ListFolder`, `FilesList` and `FoldersList`: listings.
- `ExecuteFile` and `EvalFile`.

The two copy-and-move helpers of `helpers/Utilities.cs` differ for folders. The synchronous
helper deletes an existing folder destination first, so a folder move onto it succeeds. The
asynchronous helper does not probe or delete a folder destination, so the move is refused
(`Utilities.AsyncFolderMoveDiverges`).

## Model

| member | source | states |
|---|---|---|
| PathResolver.Normalize | magic.lambda.io/utilities/PathResolver.cs:23-26 | the result is the input's prefix with every '\\' turned into '/', and what is dropped after it is a run of separators; no trailing '/' is left |
| PathResolver.NormalizeIdempotent | magic.lambda.io/utilities/PathResolver.cs:25 | normalising twice is normalising once |
| PathResolver.NormalizeIgnoresTrailingSlash | magic.lambda.io/utilities/PathResolver.cs:25 | a trailing '/' or '\\' does not change the normalised path |
| PathResolver.PathPart | magic.lambda.io/utilities/PathResolver.cs:15-18 | the path part has no backslash and no leading '/'; the characters dropped from the front are all separators, and each kept character is the path's own with '\\' turned into '/' |
| PathResolver.CombinePaths | magic.lambda.io/utilities/PathResolver.cs:15-18 | the result has no backslash, starts with the normalised root followed by one '/', and has exactly one '/' at the join; after the join it is the path's suffix, with '\\' turned into '/', and everything dropped before that suffix is separators |
| PathResolver.CombineIgnoresRootForm | magic.lambda.io/utilities/PathResolver.cs:17 | a root with a trailing separator, or already normalised, combines the same way |
| PathResolver.CombineIgnoresLeadingSlashes | magic.lambda.io/utilities/PathResolver.cs:17 | any run of leading '/' or '\\' on the path is dropped |
| PathResolver.CombineOfSeparators | magic.lambda.io/utilities/PathResolver.cs:17 | a path made only of separators combines to the root followed by one '/' |
| PathResolver.CombineKeepsTrailingSlash | magic.lambda.io/utilities/PathResolver.cs:17 | a path ending in '/' gives a result ending in '/' |
| PathResolver.CombineVerbatim | magic.lambda.io/utilities/PathResolver.cs:17 | a forward-slash path without leading '/' is appended unchanged |
| PathResolver.CombineDoesNotConfine | magic.lambda.io/utilities/PathResolver.cs:17 | "../" segments pass through, so the combined path is not confined to the root |
| RootResolver.Resolver.AbsolutePath | magic.lambda.io.tests/helpers/Common.cs:28-31 | the result is the root followed by a suffix of the input; the part of the input left out is all separators, and the kept part does not start with one |
| RootResolver.Resolver.RelativePath | magic.lambda.io.tests/helpers/Common.cs:33-36 | succeeds exactly when the root is non-empty and at most one character longer than the path, otherwise an out-of-range error; the result is the path's suffix that keeps the root's last character |
| RootResolver.AbsoluteIgnoresLeadingSeparators | magic.lambda.io.tests/helpers/Common.cs:30 | leading '/' and '\\' on the relative path do not change the absolute path |
| RootResolver.RelativeOfAbsolute | magic.lambda.io.tests/helpers/Common.cs:28-36 | with a root ending in '/', relative of absolute is the input with one leading '/' and no other leading separators |
| RootResolver.AbsoluteOfRelative | magic.lambda.io.tests/helpers/Common.cs:28-36 | with a root ending in a separator, absolute of relative gives back a path under the root |
| RootResolver.RoundTripNeedsSeparator | magic.lambda.io.tests/helpers/Common.cs:28-36 | with a one-character root that is not a separator, relative of a path starting with that character is the whole path, and absolute of it doubles the character |
| RootResolver.AbsoluteIsCombine | magic.lambda.io.tests/helpers/Common.cs:28-31 | for a normalised root ending in '/', the resolver and `CombinePaths` agree on backslash-free paths |
| GetPathFolder.FolderOf | magic.lambda.io/folder/GetPathFolder.cs:29-41 | the result ends in '/'; a path ending in '/' is returned as is; otherwise the result starts with '/' and its segments are all of the path's but the last, and with two or more segments it has no empty segment ("//") |
| GetPathFolder.Signal | magic.lambda.io/folder/GetPathFolder.cs:26-43 | succeeds exactly on a text value and replaces the value by its folder |
| GetPathFolder.FolderOfIdempotent | magic.lambda.io/folder/GetPathFolder.cs:29-41 | the folder of a folder is itself |
| GetPathFolder.EmptySegmentsDropped | magic.lambda.io/folder/GetPathFolder.cs:35 | empty segments are dropped: `a//b/c` gives `/a/b/` |
| GetPathFolder.BackslashIsNotSeparator | magic.lambda.io/folder/GetPathFolder.cs:35 | only '/' splits: a backslash stays inside a segment |
| GetPathFolder.SingleSegmentGivesDoubleSlash | magic.lambda.io/folder/GetPathFolder.cs:36-41 | a path of at most one segment, not ending in '/', yields "//" |
| GetPathFolder.FolderOfCorrected | magic.lambda.io/folder/GetPathFolder.cs:29-41 | as `FolderOf`, and the result never holds "//" |
| GetPathFolder.CorrectedSingleSegment | magic.lambda.io/folder/GetPathFolder.cs:36-41 | for a single segment the corrected folder is "/" and differs from the one as written |
| Nodes.WithoutFirstNamedCount | magic.lambda.io/stream/SaveFileStream.cs:70-75 | untying the first child of a name lowers that name's count by one exactly when there was one |
| Nodes.WithoutNamed | magic.lambda.io/files/EvalFile.cs:48-51 | no child of the name is left, and the count of removed children is the name's count |
| Nodes.WithoutNamedKeeps | magic.lambda.io/files/EvalFile.cs:48-51 | a child survives exactly when it has another name |
| Utilities.SanityCheckArguments | magic.lambda.io/helpers/Utilities.cs:90-94 | fails exactly on a call without children, with the `[io.file.copy]` message |
| Utilities.Derive | magic.lambda.io/helpers/Utilities.cs:108-122 | folders get a trailing '/' on both paths; a file destination ending in '/' receives the source's file name; nothing else changes |
| Utilities.FolderDeriveIdempotent | magic.lambda.io/helpers/Utilities.cs:109-116 | deriving folder paths twice is deriving them once |
| Utilities.GetCopyMovePaths | magic.lambda.io/helpers/Utilities.cs:99-134 | on success the two absolute paths differ and lie under the root; equal paths fail with the slot's same-path message |
| Utilities.SamePathGuardIgnoresLeadingSlash | magic.lambda.io/helpers/Utilities.cs:125-130 | "/x" and "x" are caught as the same path |
| Utilities.Transfer | magic.lambda.io/helpers/Utilities.cs:36-48 | the calls made are the existence probe when one is asked for, a delete only when probed and an entry of the service's kind is at the destination, then one copy or move |
| Utilities.CopyMoveHelper | magic.lambda.io/helpers/Utilities.cs:21-49 | a call without children fails before evaluation; otherwise the node is evaluated, and either the path error is reported or the probe, delete and transfer follow |
| Utilities.CopyMoveHelperAsync | magic.lambda.io/helpers/Utilities.cs:54-83 | as the synchronous helper for files; for folders there is no existence probe and no delete |
| Utilities.ExactlyOneTransfer | magic.lambda.io/helpers/Utilities.cs:41-48 | a successful derivation leads to exactly one copy or move call |
| Utilities.CopyDistinct | magic.lambda.io/helpers/Utilities.cs:37-44 | a copy of a file to a different path holding no folder succeeds, keeps the source and gives the destination its content |
| Utilities.MoveDistinct | magic.lambda.io/helpers/Utilities.cs:37-48 | a move of a file to a different path holding no folder succeeds, removes the source and gives the destination its content |
| Utilities.CopyKeepsBoth | magic.lambda.io/helpers/Utilities.cs:37-44 | copying an existing file onto a path holding no folder leaves source and destination with the source's content |
| Utilities.MoveReplaces | magic.lambda.io/helpers/Utilities.cs:37-48 | moving an existing file onto a path holding no folder leaves only the destination, with the source's content |
| Utilities.AsyncAgreesOnFiles | magic.lambda.io/helpers/Utilities.cs:54-83 | for files the two helpers are identical |
| Utilities.AsyncFolderMoveDiverges | magic.lambda.io/helpers/Utilities.cs:70-71 | moving a folder onto an existing folder succeeds synchronously and is refused asynchronously |
| Utilities.AsyncFolderSkipsProbe | magic.lambda.io/helpers/Utilities.cs:70-82 | for folders the asynchronous helper makes no `Exists` call: after evaluation comes the copy or move alone |
| Utilities.FileServiceSkipsFolders | magic.lambda.io/files/CopyFile.cs:55-60 | the file service does not see folders: a folder destination is neither deleted nor replaced and the transfer is refused; a folder source is not found and stays |
| FileCopyMove.Slot | magic.lambda.io/file/CopyFile.cs:38-55 | the check runs before evaluation; the paths come from the evaluated node; an existing destination is deleted before the copy or move |
| FileCopyMove.SlotIsHelper | magic.lambda.io/file/MoveFile.cs:38-55 | with the check and derivation of `helpers/Utilities.cs`, the slot is exactly that helper's file mode |
| FileCopyMove.CopyToOtherPath | magic.lambda.io/file/CopyFile.cs:48-54 | copying a file to a different path holding no folder keeps the source and gives the destination its content |
| FileCopyMove.MoveToOtherPath | magic.lambda.io/file/MoveFile.cs:48-54 | moving a file to a different path holding no folder leaves only the destination, with the source's content |
| FilesCopyMove.ResolvePaths | magic.lambda.io/files/CopyFile.cs:49-52 | both paths are combined with the root folder; with file-name appending, a destination ending in '/' receives the source's file name |
| FilesCopyMove.Run | magic.lambda.io/files/CopyFile.cs:41-61 | a call without children fails unevaluated; otherwise evaluation, the `File.Exists` probe, the delete of a file (not a folder) at the destination, and one transfer |
| FilesCopyMove.CopyVariantsDiffer | magic.lambda.io/files/CopyFile.cs:69-91 | the asynchronous copy differs only in its exception type and in not appending the file name |
| FilesCopyMove.SelfTransferLosesFile | magic.lambda.io/files/CopyFile.cs:54-60 | when both paths resolve to one existing file, `CopySync` and `MoveSync` each delete it and then fail for want of a source |
| FilesCopyMove.CopySyncGuarded | magic.lambda.io/files/CopyFile.cs:41-61 | equal resolved paths are refused after evaluation and before any filesystem call |
| FilesCopyMove.GuardedCopyKeepsSource | magic.lambda.io/files/CopyFile.cs:54-60 | the guarded copy never loses an existing source |
| FilesCopyMove.CopyToOtherPath | magic.lambda.io/files/CopyFile.cs:54-60 | copying a file to a different path holding no folder keeps both files with the source's content |
| FilesCopyMove.MoveToOtherPath | magic.lambda.io/files/MoveFile.cs:57-61 | moving a file to a different path holding no folder leaves only the destination, with the source's content |
| FilesCopyMove.FolderDestinationRefused | magic.lambda.io/files/CopyFile.cs:54-60 | a folder at the destination is not deleted, the copy or move is refused, and the disk is unchanged |
| Helpers.SanityCheckInvocation | magic.lambda.io/utilities/Helpers.cs:56-60 | fails exactly on a call without children, with a message naming the slot |
| Helpers.Arguments | magic.lambda.io/utilities/Helpers.cs:72 | the callback receives the absolute source and destination; a non-text value is a conversion error, no children is a no-elements error |
| Helpers.Invoke | magic.lambda.io/utilities/Helpers.cs:66-73 | the callback is called once with the absolute paths of the value and first child, and the disk is what it returns; a bad argument fails with no call |
| Helpers.Execute | magic.lambda.io/utilities/Helpers.cs:24-34 | a call without children fails unevaluated; otherwise evaluation and then the callback |
| Helpers.ExecuteAsync | magic.lambda.io/utilities/Helpers.cs:39-49 | the asynchronous form is the synchronous one |
| Helpers.OnlyTheCallback | magic.lambda.io/utilities/Helpers.cs:66-73 | the trace holds only the evaluation and one callback, and the filesystem is what the callback made of it |
| Helpers.SamePathReachesCallback | magic.lambda.io/utilities/Helpers.cs:72 | with no guard, "/x" and "x" reach the callback as one path |
| SaveFile.GetArgs | magic.lambda.io/file/SaveFile.cs:101-104 | succeeds exactly on a text value and a first child of the right kind, giving the absolute path and content |
| SaveFile.Signal | magic.lambda.io/file/SaveFile.cs:40-63 | evaluation comes first, and the slot name is read from the evaluated node; an unknown name fails after it; success means exactly the save of the derived content |
| SaveFile.SaveThenLoad | magic.lambda.io/file/SaveFile.cs:49-52 | what a text save writes is what a load returns |
| SaveFile.SecondSaveWins | magic.lambda.io/file/SaveFile.cs:49-52 | saving twice to one path leaves the second content |
| SaveFile.SaveTouchesOnePath | magic.lambda.io/file/SaveFile.cs:46-58 | every other path is unchanged |
| SaveFileStream.Overwrite | magic.lambda.io/stream/SaveFileStream.cs:69-75 | true without an `overwrite` child, else that child's flag |
| SaveFileStream.Stripped | magic.lambda.io/stream/SaveFileStream.cs:70-78 | evaluation sees the children with exactly the first `overwrite` child removed, so one fewer if there was one; name and value are kept |
| SaveFileStream.Clear | magic.lambda.io/stream/SaveFileStream.cs:45-46 | with `overwrite` the destination is probed, and a file there is deleted; without it nothing is called; no other path changes |
| SaveFileStream.Store | magic.lambda.io/stream/SaveFileStream.cs:45-47 | the calls are the probe and delete of the clearing step, then one save; with a replacing service it always succeeds, with a refusing one exactly when the destination is free or a file there may be deleted; success puts the stream at the destination only, failure is a conflict with the disk unchanged |
| SaveFileStream.Signal | magic.lambda.io/stream/SaveFileStream.cs:42-48 | a bad `overwrite` fails before evaluation and leaves everything untouched; a bad target fails after one evaluation; otherwise the evaluated node is stored at the target |
| SaveFileStream.SavesExactlyWhenAllowed | magic.lambda.io/stream/SaveFileStream.cs:42-48 | the slot succeeds exactly when the flag and target are valid and the service replaces, the destination is free, or a file there may be deleted; then the disk differs only at the destination |
| SaveFileStream.DefaultReplaces | magic.lambda.io/stream/SaveFileStream.cs:69 | by default an existing destination file is replaced, whatever the service does with existing paths |
| SaveFileStream.KeepLeavesItToService | magic.lambda.io/stream/SaveFileStream.cs:45-47 | with `overwrite: false` there is no probe and no delete, only one save call, and the outcome is the stream service's |
| SaveFileStream.StreamAfterOverwrite | magic.lambda.io/stream/SaveFileStream.cs:74-84 | the stream is read from the first child left after the `overwrite` node is untied |
| Listing.DisplayHidden | magic.lambda.io/file/ListFiles.cs:91-93 | false without a `display-hidden` child, else that child's flag |
| Listing.VisibleMember | magic.lambda.io/file/ListFiles.cs:112-113 | an entry is kept exactly when it is listed and either hidden entries are shown or it is not hidden |
| Listing.VisibleAll | magic.lambda.io/file/ListFiles.cs:112 | showing hidden entries keeps every entry in order |
| Listing.LabelsPointwise | magic.lambda.io/file/ListFiles.cs:114 | the listing succeeds exactly when every kept path converts, and then child by child |
| Listing.AddEntries | magic.lambda.io/file/ListFiles.cs:53-57 | the loop adding one child per kept entry computes the reference listing, including its first failure |
| ListFile.Signal | magic.lambda.io/file/ListFiles.cs:42-58 | a flat listing for `io.file.list`, recursive otherwise; the node is emptied; the children are exactly the kept files' relative paths in order; a relative-path failure fails the call |
| ListFile.RelativePathsStartWithSlash | magic.lambda.io/file/ListFiles.cs:114 | under a root ending in '/', every listed file is shown with a leading '/' |
| ListFile.HiddenFilesOnlyOnRequest | magic.lambda.io/file/ListFiles.cs:109-115 | without `display-hidden` a file is listed exactly when its name does not start with '.'; with it, every file is |
| ListFolder.Signal | magic.lambda.io/folder/ListFolders.cs:40-51 | the children are exactly the kept folders' relative paths in order |
| ListFolder.FileNameOfLastSegment | magic.lambda.io/folder/ListFolders.cs:100 | the name of a folder is its last segment after the final '/' |
| ListFolder.HiddenByOwnName | magic.lambda.io/folder/ListFolders.cs:100 | a folder is hidden by its own name, with or without a trailing '/' |
| Sorting.Sort | magic.lambda.io/files/ListFiles.cs:46 | the result is sorted and a permutation of the listing |
| Sorting.SortedUnique | magic.lambda.io/files/ListFiles.cs:46 | two sorted permutations of each other are equal |
| Sorting.SortIdempotent | magic.lambda.io/files/ListFiles.cs:46 | sorting a sorted listing changes nothing |
| FilesList.CutRoot | magic.lambda.io/files/ListFiles.cs:51 | succeeds exactly when the path is at least as long as the root, and the path is the root-length prefix followed by the result |
| FilesList.Children | magic.lambda.io/files/ListFiles.cs:48-51 | succeeds exactly when every kept path is at least as long as the root; each child is one path with the root cut off, in order |
| FilesList.Signal | magic.lambda.io/files/ListFiles.cs:39-53 | the value is kept and the children are the sorted, kept files without the root; the disk is listed once |
| FilesList.ShownSorted | magic.lambda.io/files/ListFiles.cs:46-51 | the files are shown in sorted order |
| FilesList.ShownStartWithSlash | magic.lambda.io/files/ListFiles.cs:42-51 | every file inside the listed folder is shown as a path starting with '/' |
| FoldersList.FolderLabel | magic.lambda.io/folders/ListFolders.cs:51 | the shown path ends in exactly one '/' |
| FoldersList.Children | magic.lambda.io/folders/ListFolders.cs:51-52 | succeeds exactly when every shown folder is at least as long as the root; each child is the folder without the root and with one trailing '/', in order |
| FoldersList.Run | magic.lambda.io/folders/ListFolders.cs:39-53 | the value is kept; the children are the shown folders, by the filter as written or corrected |
| FoldersList.AsWrittenShowHiddenListsNothing | magic.lambda.io/folders/ListFolders.cs:50 | as written, `display-hidden: true` lists no folder |
| FoldersList.AsWrittenShowsHiddenFolder | magic.lambda.io/folders/ListFolders.cs:50 | as written, a '.'-named folder under a root not starting with '.' is listed by default; the corrected filter drops it |
| FoldersList.CorrectedFilter | magic.lambda.io/folders/ListFolders.cs:50 | corrected: every folder with `display-hidden`, otherwise exactly those whose name does not start with '.' |
| FoldersList.FolderShownWithSlashes | magic.lambda.io/folders/ListFolders.cs:51 | a folder "foo" directly under the root is shown as "/foo/" |
| ExecuteFile.GetLambda | magic.lambda.io/file/ExecuteFile.cs:94-114 | `.filename` comes first, then the caller's `.arguments` if any, then the parsed lambda without its first `.arguments` |
| ExecuteFile.ApplyResult | magic.lambda.io/file/ExecuteFile.cs:119-127 | the call node takes the result's value and children |
| ExecuteFile.ApplyResultForgetsCall | magic.lambda.io/file/ExecuteFile.cs:119-127 | the call node's old value and children make no difference, and a second result overrides the first |
| ExecuteFile.Signal | magic.lambda.io/file/ExecuteFile.cs:41-60 | a non-text value or a failed load fails before evaluation; otherwise one load, one evaluation, and the result applied |
| ExecuteFile.ArgumentsReachScript | magic.lambda.io/file/ExecuteFile.cs:103-107 | the script has the caller's `.arguments` plus any declared beyond the first |
| ExecuteFile.MissingFileNotEvaluated | magic.lambda.io/file/ExecuteFile.cs:48-49 | a missing file fails after one load, with the call node untouched |
| EvalFile.Lambda | magic.lambda.io/files/EvalFile.cs:43-55 | the lambda holds the file text as its value, and the parsed nodes without any `.arguments`, with the caller's `.arguments` in front if any |
| EvalFile.Signal | magic.lambda.io/files/EvalFile.cs:40-74 | the file at the combined path is read; the call node takes the result's value and children |
| EvalFile.ArgumentsExactlyFromCaller | magic.lambda.io/files/EvalFile.cs:48-55 | the script sees one `.arguments`, holding the caller's children, or none |
| EvalFile.DeclarationsKept | magic.lambda.io/files/EvalFile.cs:48-51 | every other declaration of the file reaches the script |

## Left out

- Constructors and their null checks: they only store the resolver and the services.
- Asynchronous execution: each `SignalAsync` runs the same steps as its `Signal`, unless a difference is modelled (copy helpers, `files/CopyFile.cs`).
- `GetEx<T>` conversions of the node library: a value of the wrong kind, including null, gives a conversion error instead of a .NET conversion.
- Partial results: a listing whose relative-path conversion throws part-way is modelled as failing with no children. The node's partial state after the exception is not modelled.
- Folder contents: a folder is one entry of the filesystem map. A folder copy or move does not carry files below it, and listings come from parameters.
- Service semantics: `File.Copy`, `File.Move`, the stream service and the folder service are abstract entries with the refusals stated in `Services`; real I/O errors are not modelled.
- SaveFileStream.Store: the stream service's contract only promises that the stream is saved, so its behaviour on an existing path is the parameter `StreamSave` (replace or refuse); the model promises the slot's calls for both and leaves the outcome to the service.
- FilesCopyMove.CopyAsync: its copy through `File.OpenRead`, `File.Create` and `CopyToAsync` is modelled as one copy call, with the refusals of `File.Copy`.
- `List<string>.Sort()`: it uses the culture-sensitive comparer; the model sorts by character code (`Sorting.LessEq`).
- `Path.GetFileName` and `DirectoryInfo.Name` treat '\\' as a separator on Windows; the model splits on '/' only.
- The host application's `IRootResolver` is not part of this model; the test resolver of `magic.lambda.io.tests/helpers/Common.cs` stands in for it. `utilities/RootResolver.cs` is a static class holding a `Root` string, not an `IRootResolver`; only the top-level `SaveFile.cs`, `LoadFile.cs` and `CreateFolder.cs` slots read it, and they are outside this model.
- Hyperlambda parsing, `eval`, the `slots.result` scope, and the `Action<string, string>` callback of `utilities/Helpers.cs`: these are parameters. A callback that throws is not modelled.
- EvalFile.Signal: the disk read is modelled as the text load of `Services`, so a binary file is a conversion error rather than decoded text.
- FileCopyMove.Slot: the folder namespace's `Utilities.SanityCheckArguments` and `Utilities.GetPaths` are not part of this model, so they are parameters.
- Zip slots, stream opening and reading, and the other context slots: outside the modelled core.

## Findings

| source | as written | input that shows it | evidently intended | confidence | as-written member | corrected member |
|---|---|---|---|---|---|---|
| magic.lambda.io/folder/GetPathFolder.cs:36-41 | "/" + Join of all segments but the last + "/" | `foo.txt` gives `//` | `/` for a file at the top level | high, not executed | GetPathFolder.SingleSegmentGivesDoubleSlash | GetPathFolder.CorrectedSingleSegment |
| magic.lambda.io/files/CopyFile.cs:54-60 | deletes an existing destination, then copies, with no same-path check | `io.files.copy:/a.txt` with child `a.txt` deletes `/a.txt` and the copy then fails | refuse equal paths, as `helpers/Utilities.cs:129-130` does | high, not executed | FilesCopyMove.SelfTransferLosesFile | FilesCopyMove.GuardedCopyKeepsSource |
| magic.lambda.io/folders/ListFolders.cs:50 | `!displayHiddenFolders && !idx.StartsWith(".")` on the full path | `display-hidden: true` lists nothing; `<root>/.git` is listed by default | show all with `display-hidden`, else hide folders whose own name starts with '.' | high, not executed | FoldersList.AsWrittenShowHiddenListsNothing | FoldersList.CorrectedFilter |
