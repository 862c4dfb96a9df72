# filepicker: the directory walkers, the selection filter and the cache

This project models the core of a VS Code extension that lists every file under
a directory, keeps the files whose names match a set of regular expressions and
lets the user pick one. The model is written in Dafny and has proofs.

A filesystem is an abstract tree. `FileTree.Node` is a `File`, a `Dir` with its
entries in `readdir` order, or an `Unreadable` directory. An `Unreadable`
directory exists, but listing it fails. A path is a sequence of segments, and
`path.join` is concatenation. Every `Promise.all` is read as an order-preserving
sequential map, and every rejection as a `Failure` result.

- `FsWalker` models `getDirectory` and `Directory.getFiles` (src/fs.ts). This
  walker is exercised by the test suite. It validates the root, maps each entry
  to a `FileInfo`, recurses into subdirectories and rewrites their results'
  relative paths, then flattens everything in listing order. One walker is
  parameterised by the rewrite prefix. `AsWritten` is the program's behaviour:
  the full path of the directory being listed. `Intended` is the corrected
  behaviour: the subdirectory's own name. See Findings.
- `Picker` models `getFiles` and `select` (src/extension.ts), the walker the
  extension actually uses. The relative path is passed down the recursion, so
  every result is relative to the root. `select` compiles the filters, refuses
  an empty path, walks the tree, builds one item per file (its label is the
  relative path, its absolute path is the root joined with it), and keeps the
  items whose file name matches at least one filter. The user's choice in the
  picker is a parameter.
- `Cache` models `FilePickerCache` (src/cache.ts) as a value over
  `map<string, string>`.
- `Agreement` proves that the corrected `fs.ts` walker and the `extension.ts`
  walker report the same names and relative paths.
- `Wrappers`, `Seqs`, `FileTree` and `Errors` are shared definitions: results,
  flattening, the tree with its reference enumeration `Leaves` and relational
  `FileAt`, and the error kinds.

Points where the code's behaviour is easy to misread:

- src/fs.ts:77 prefixes the enclosing directory's full path, so
  `fileRelativePath` is not root-relative; see Findings.
- An empty filter list is accepted and keeps nothing (src/extension.ts:82-86).
- The empty-path check (src/extension.ts:75-77) comes after the filters are
  compiled (src/extension.ts:71-73). A malformed filter is therefore reported
  even when the path is empty.
- The `extension.ts` walker does not validate its root, and it rejects without
  a reason (src/extension.ts:56-58). In the model every failure of that walker
  is the reason-less `Rejected`.

## Model

| member | source | states |
|---|---|---|
| `FsWalker.GetDirectory` | src/fs.ts:20-26 | Fails with `NotADirectory(dir)` exactly when nothing, or something other than a directory, exists at `dir`. Otherwise it returns a handle bound to `dir` and to what lives there. |
| `FsWalker.ToFileInfo` | src/fs.ts:57 | The record for a listed entry is named after it and carries its name alone as relative path. Its absolute path is the listed directory joined with that relative path. It is a directory exactly when the entry is not a file, and a file entry gives a leaf record. |
| `FsWalker.Rewrite` | src/fs.ts:76-79 | Only the relative path changes: it becomes the prefix joined with the old relative path. The absolute path, name and kind are copied, and the length is kept. |
| `FsWalker.EntryFiles` | src/fs.ts:73-86 | One entry's list succeeds exactly when nothing below it fails to list. It holds as many records as there are files below the entry, and no record is a directory. |
| `FsWalker.RecurseIntoSubDirectories` | src/fs.ts:72-87 | Produces one list per entry. A non-directory entry `n` of `dir` yields the singleton (`dir/n`, `n`, `n`, not a directory). The walk succeeds exactly when no directory below fails to list, and only with `ReadFailed` otherwise. The flattened output has one record per file leaf, and every record is a non-directory whose two paths end with its name. |
| `FsWalker.GetFiles` | src/fs.ts:52-60 | Succeeds exactly when the handle's target is a readable directory. The result then holds one non-directory record per file below it. |
| `FsWalker.ListFiles` | src/fs.ts:20-60 | `getDirectory(dir).getFiles()` fails with `NotADirectory(dir)` exactly when the root is missing or is a file. A root directory that exists but cannot be read fails with another error. It succeeds exactly when the root is a readable directory. |
| `FsWalker.RootRefusedWithMessage` | src/fs.ts:20-26 | For every root, the walk fails with the message "<dir> is not a directory" exactly when nothing, or a file, exists at `dir`. |
| `FsWalker.FilePathsAreReal` | src/fs.ts:57-75 | The absolute paths, in output order, are `dir` joined with the real path of each file below it, in depth-first listing order. |
| `FsWalker.RelativePathsFollowTree` | src/fs.ts:72-87 | Each relative path is the file's real path with every enclosing level's rewrite prefix put in front. As written, that prefix is the full path of the directory being listed. |
| `FsWalker.RecurseIsPerEntry` | src/fs.ts:73-86 | On a readable listing, the walk's list at position `i` is exactly what entry `i` yields. This is the `Promise.all` reading: one result per entry, in order. |
| `FsWalker.RecurseAppend` | src/fs.ts:73-86 | Per-entry lists are order-preserving. Listing `a + b` gives the lists of `a` followed by those of `b`. |
| `FsWalker.EntryFilesContiguous` | src/fs.ts:62-70 | In the flattened output, entry `i`'s files form one block. Everything from the entries before it comes first, and everything from the entries after it comes after. |
| `Seqs.Flatten` | src/fs.ts:64-68 | `flatMap` with the identity, also used at src/extension.ts:53-55. An item is in the result exactly when it is in one of the lists. |
| `FsWalker.EmptyTreeYieldsNothing` | src/fs.ts:64-68 | A directory with no files below it, only empty directories, yields the empty list. |
| `FsWalker.RelativePathNotRootRelative` | src/fs.ts:77 | Take root `a` holding directory `b` holding file `f`. The file is reported with relative path `a/f`, but its path relative to the root is `b/f`. |
| `FsWalker.IntendedPathsAreRootRelative` | src/fs.ts:77 | With the corrected rewrite, each relative path is the root-relative path of a file that exists. Each absolute path is the root joined with it. |
| `FsWalker.TestRootIsNotADirectory` | src/test/suite/directory.test.ts:21-51 | A missing root and a root that is a file are both refused with "test is not a directory". |
| `FsWalker.TestNoSubdirectories` | src/test/suite/directory.test.ts:74-86 | A root holding one file yields exactly that file: path `test/test.txt`, relative path `test.txt`, not a directory. |
| `FsWalker.TestEmptySubdirectory` | src/test/suite/directory.test.ts:88-112 | An empty subdirectory contributes nothing, whether or not it has a sibling file. |
| `FsWalker.TestSubdirectoryAndFiles` | src/test/suite/directory.test.ts:114-131 | The nested file comes first, with path `test/test/test.txt` and relative path `test/test.txt`. The direct file follows. |
| `Picker.EntryFiles` | src/extension.ts:41-48 | One entry's list succeeds exactly when nothing below it fails to list, and fails only with `Rejected`. Its relative paths are the accumulated prefix joined with the real paths of the files within the entry. Each ends with the file's name. |
| `Picker.Probe` | src/extension.ts:29-32 | The `lstat` record carries the entry's name and kind. Its relative path is the parent's relative path extended by the name and ends with that name. Its full path is the listed directory joined with the name. |
| `Picker.Collect` | src/extension.ts:27-55 | Produces one list per entry, in listing order. It succeeds exactly when the tree is readable and otherwise rejects as a whole. The flattened relative paths are the prefix joined with each file's real path, in depth-first listing order. |
| `Picker.CollectIsPerEntry` | src/extension.ts:27-55 | On a readable listing, list `i` of the walk is exactly what entry `i` yields, as `Promise.all` delivers one result per entry in order. |
| `Picker.GetFiles` | src/extension.ts:25-60 | Succeeds exactly when the target is a readable directory. The result has one entry per file, and its relative paths are the given prefix joined with each file's real path, in order. |
| `Picker.ToCandidates` | src/extension.ts:80-81 | Each item is labelled with the walk's relative path. Its absolute path is the directory joined with that label, and its file name is the entry's name. |
| `Picker.Compile` | src/extension.ts:71-73 | Succeeds exactly when every pattern compiles. It otherwise fails with the index of the first malformed pattern. |
| `Picker.Keep` | src/extension.ts:82-86 | An item is kept exactly when it is an input item whose file name matches some filter. The kept items are a subsequence of the input, so their order is preserved. How many times each item is kept is stated by `KeepMultiplicity`. |
| `Picker.Select` | src/extension.ts:62-86 | Fails with a pattern error exactly when some pattern is malformed. With valid patterns and an empty path it fails with "No path specified" whatever the tree, and that error arises for no other path. Otherwise it succeeds exactly when the root is a readable directory. |
| `Picker.Pick` | src/extension.ts:88-95 | The answer is the chosen item's absolute path, or none when the user cancels. |
| `Picker.KeepAppend` | src/extension.ts:82-86 | Filtering distributes over concatenation, so kept items keep their relative order. |
| `Picker.KeepMultiplicity` | src/extension.ts:82-86 | Filtering keeps a matching item exactly as many times as it occurs in the input, and keeps any other item zero times. |
| `Picker.KeepNoFilters` | src/extension.ts:82-86 | An empty filter list keeps nothing. |
| `Picker.CompiledMatches` | src/extension.ts:83-85 | The compiled filters match a name exactly when one of the given patterns does. |
| `Picker.MatchesInOrder` | src/extension.ts:83-85 | `some` tries the filters in order. A name matches exactly when the first filter matches it or, failing that, one of the remaining filters does; an empty list matches nothing. |
| `Picker.SelectSound` | src/extension.ts:79-86 | Every offered item names a file that exists below the root. Its absolute path is the root joined with its label, its label ends with its file name, and a pattern matches that name. |
| `Picker.SelectComplete` | src/extension.ts:79-86 | Every file below the root whose name a pattern matches is offered, labelled with its root-relative path. |
| `Picker.SelectNoFilters` | src/extension.ts:82-86 | With no filters, a successful selection offers nothing. |
| `Picker.PickedPathIsRealFile` | src/extension.ts:88-95 | A chosen path is the root joined with the path of a file that exists below it. |
| `Picker.TxtFilterDropsLog` | src/extension.ts:79-86 | Take a tree with `a.txt` and `b.log` and the filter `\.txt$`. Only `a.txt` is offered, with label `a.txt` and path `root/a.txt`. |
| `Cache.New` | src/cache.ts:4-6 | A fresh cache has no entries. |
| `Cache.HasLastSelectedFile` | src/cache.ts:12-14 | `has` holds exactly when some file is stored under the path. |
| `Cache.GetLastSelectedFile` | src/cache.ts:8-14 | `get` returns a value exactly when `has` holds for the path. |
| `Cache.StoreSelectedFile` | src/cache.ts:16-18 | Afterwards the path yields the stored file, and every other path yields what it did before. |
| `Cache.ClearSelectedFile` | src/cache.ts:20-22 | Afterwards the path is absent and yields nothing, and every other path yields what it did before. |
| `Cache.StoreOverwrites` | src/cache.ts:16-18 | A second store under the same path replaces the first. |
| `Cache.ClearUndoesStore` | src/cache.ts:20-22 | Clearing a path after storing under it is the same as just clearing it. |
| `Agreement.WalkersAgree` | src/extension.ts:25-60 | On a readable tree, the corrected `fs.ts` walker and the `extension.ts` walker (`Picker.GetFiles`) report the same names and relative paths, in the same order. |
| `Errors.Message` | src/fs.ts:22 | A message is composed exactly for `NotADirectory` and `NoPathSpecified`, the latter at src/extension.ts:76. Every other error carries only what the runtime gives it. |
| `Errors.NoPathMessage` | src/extension.ts:76 | An empty directory path is reported with the text "No path specified". |

## Findings

| source | as written | input that shows it | evidently intended | confidence | as-written member | corrected member |
|---|---|---|---|---|---|---|
| src/fs.ts:77 | A subdirectory's results get `context.dir`, the full path of the directory being listed, prefixed to their relative path | Root `a` holding directory `b` holding file `f`: the reported relative path is `a/f` | Prefix the subdirectory's name, giving `b/f`, the path relative to the root | high; not executed | `FsWalker.RelativePathNotRootRelative` | `FsWalker.IntendedPathsAreRootRelative` |

The suite's case with a subdirectory (src/test/suite/directory.test.ts:114-131)
passes only because the root and the subdirectory are both named `test`.
`FsWalker.TestSubdirectoryAndFiles` proves that scenario for the code as
written.

## Left out

- Real filesystem I/O (`readdir`, `lstat`, `existsSync`, `lstatSync`) is left out. The tree stands for the filesystem, and `Option<Node>` stands for what exists at a path.
- The only I/O failure modelled is a directory that cannot be listed. An entry that vanishes between `readdir` and `lstat` (src/extension.ts:33-35) is not a separate case. That walker would reject the whole call for it, as it does for an unreadable directory.
- Symbolic links are left out. Neither `Dirent.isDirectory` nor `lstat` follows them, so a link is a file leaf here.
- Promise scheduling and concurrency are left out. When several siblings fail, the program's `Promise.all` reports whichever rejection comes first in time. `FsWalker.RecurseIntoSubDirectories` reports the first in listing order.
- `fillMissingFileInfo` and `fillMissingFileInfos` (src/fs.ts:32-43) are not modelled: nothing calls them.
- The copy of each record in `flatSubDirectories` (src/fs.ts:65-67) is the identity on values. The model flattens directly.
- The regular-expression engine is left out. A filter is a predicate on names, and a pattern that fails to compile is `Malformed`.
- `path.join` normalisation (`.`, `..`, repeated or platform separators) is left out. Names are non-empty plain segments, and the empty string `''` is the empty path.
- The VS Code side is left out: `showQuickPick` becomes the `choice` parameter of `Picker.Pick`, and `activate`, `deactivate` and `registerCommand` (src/extension.ts:99-110) are not modelled.
- The `storeCache` and `placeHolder` arguments of `select` are left out, and so is the global `cache` (src/extension.ts:9). `select` does not use them for filtering, so the cache is modelled on its own.
- `Cache.StoreSelectedFile` returns the updated cache. The program's method mutates its `Map` and returns it.
- `FsWalker.FileInfo.isDirectory` is a plain boolean. The program's field is optional, but the walker always sets it.
- `Picker.Select` checks only for an empty path. The program also refuses `undefined`, which has no counterpart here.
- `Picker.Select` takes the filters as a sequence and cannot model a missing `filters` argument. The program then throws a `TypeError` from `rawFilters.map` (src/extension.ts:71), before the path check.
- The model has no lemma for repeated listings of an unchanged tree giving equal results. The model's functions are deterministic, so this holds by construction.
