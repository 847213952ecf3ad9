# simple-dbx-py folder walks, in Dafny

This project models the recursive folder walks of `Files` in simple-dbx-py's
`files.py`. Each walk lists a Dropbox folder, visits its entries in the order
the provider yields them, and builds one of three in-memory shapes:

- **Tree mode**: `getContentsOfDirAsDict(src, return_as="tree")`. A dict
  `{"_files_": [...], <leaf>: <subtree>, ...}` that nests as deep as the
  remote tree does.
- **All mode**: `getContentsOfDirAsDict(src, return_as=<anything else>)`. One
  dict `main` is shared by the whole recursion. Each call writes its own key,
  `src` as its caller passed it, mapped to the names of its direct files; the
  root's key is the `src` of the top-level call, and each subfolder's key is
  its `path_display`. A subfolder whose listing fails is mapped to its error
  object instead. The root call returns the dict. Nested calls return only
  their own file list.
- **List mode**: `getContentsOfDirAsList(src, level, return_name_only)`. A
  flat list of names or display paths. When `curr_level < level`, a folder is
  handed to the tree-mode walk, and `main += <dict>` appends that dict's keys.

The remote side is an inductive value: `Entry = File | Folder(contents) |
Deleted`, with each folder carrying the listing that `files_list_folder`
would return for it (`Listing = Ok(entries) | Err(error)`).

Python dicts are association lists in insertion order:

- `d[k] = v` overwrites an existing key in place and appends a new key.
- Iterating a dict yields its keys.

The leaf name `path_display.split("/")[-1]` is the function `Remote.Leaf`.

The walks are imperative, as in the source:

- `TreeMode.WalkTree`, `AllMode.WalkAll` and `ListMode.WalkList` are methods
  with a loop over the entries.
- All mode's shared `main` is the class `AllMode.SharedDict`. Every nested
  call updates it in place.
- Each method is proved equal to a pure specification function that
  recurses over prefixes of the entry list: `TreeOf`, `AllOf` / `AllRoot`,
  and `ListOf`. The properties are lemmas about those functions.

The walks catch an `ApiError` and return `error_message.error` as a value.
The model keeps that value as `PyErr(e)`. A Python `TypeError` is not caught
and ends the whole top-level call. The model represents that outcome as
`Outcome.TypeError`. It arises in two places:

- In tree mode, when a folder whose leaf is `_files_` has replaced the
  `"_files_"` list and a File entry comes after it.
- In list mode, when `main += <error object>` is reached.

A listing failure is caught by the call that made the listing
(files.py:138-139, 179-180) and never propagates as an `ApiError`:

- In tree mode, a failing subfolder's error object is stored under the
  subfolder's leaf, and the walk goes on.
- In all mode, it is stored under the subfolder's path, and the walk goes on.
- In list mode, a failing listing of the call's own folder is returned as the
  error object. A failing subfolder below the depth bound makes
  `main += <error object>` raise a `TypeError` (files.py:132).

The docstring calls `level` the "depth of directory" (files.py:114), but
below the depth bound list mode does not list a subfolder's entries: it hands
the subfolder to the tree-mode walk, and `main += <dict>` adds that dict's
keys, `_files_` and then the subfolder's own folder leaves. A subfolder's
files never appear, and every `level >= 2` gives the same list.
`ListMode.ExampleLevelTwo` works through a concrete folder that shows this.

## Model

| member | source | states |
|---|---|---|
| Remote.LeafIsLastSegment | files.py:160 | The leaf of a path is its longest suffix without '/'. The path is a prefix followed by the leaf, the leaf holds no '/', and the prefix is empty or ends in '/'. This is `split("/")[-1]`. |
| Remote.LeafOfChildPath | files.py:160 | For `parent + "/" + name` with a name free of '/', the leaf is the entry's name. So a tree key is the folder's name. |
| Dicts.GetFindsKeys | files.py:162 | A lookup finds a value exactly when the key is among the dict's keys. |
| Dicts.Put | files.py:160 | `d[k] = v` keeps the key order when `k` is present and appends `k` otherwise. Afterwards `k` reads `v` and every other key reads what it read before. |
| Dicts.PutSame | files.py:172 | Assigning a key the value it already holds leaves the dict unchanged. |
| Dicts.PutFresh | files.py:176 | Assigning a new key appends the pair at the end. |
| Dicts.PutAllConcat | files.py:170-176 | Running two runs of assignments in turn is the same as running their concatenation. |
| Dicts.PutAllExtends | files.py:170-176 | A run of assignments never removes or reorders a key. The old key list is a prefix of the new one. |
| Dicts.PutAllFresh | files.py:170-176 | Assignments of distinct new keys append the pairs exactly. |
| Dicts.DedupSpec | files.py:156-160 | The key order of a dict built by assigning keys in turn has no repeats and the same members, and its first element is the first key assigned. |
| Dicts.DedupOfDistinct | files.py:156-160 | Assigning keys that are already distinct keeps them in their given order. |
| Values.Extend | files.py:132-134 | `list += v` succeeds exactly when `v` is not an error object, and the old list is then a prefix of the result. |
| TreeMode.TreeOf | files.py:155-164 | A tree-mode call never returns a list. It returns either the caught error or a dict. |
| TreeMode.WalkTree | files.py:152-164 | The loop that fills `tree` key by key, with one recursive call per Folder entry, returns exactly the tree-mode value of the listing. This includes the caught error and the TypeError. |
| TreeMode.TypeErrorPersists | files.py:158-162 | A TypeError raised at any entry ends the whole loop. |
| TreeMode.TreeKeys | files.py:156-160 | The keys of a tree are `_files_` first, then the leaf of each Folder entry in listing order. A repeated leaf keeps its first position. |
| TreeMode.TreeValues | files.py:156-162 | Each key holds the tree of the last Folder entry with that leaf, because a later one overwrites it. When no folder has taken `_files_`, that key holds the File entries' names in listing order. A key with no folder holds nothing. |
| TreeMode.SubfolderErrorStored | files.py:160 | A subfolder whose listing fails does not stop the walk. Its caught error is stored under its leaf. |
| TreeMode.TreeShape | files.py:155-164 | A tree returned for a listed folder is a dict whose first key is `_files_` and whose keys are distinct. |
| TreeMode.DeletedIgnored | files.py:158-162 | Deleted entries have no effect on the tree. |
| TreeMode.TreeRaises | files.py:158-162 | The walk raises exactly when a subfolder's walk raises or a File follows a folder with leaf `_files_`. Otherwise `_files_` holds a list exactly when no folder has that leaf. |
| TreeMode.TreeCountsEveryFile | files.py:155-164 | For a remote tree with no listing error, no folder leaf `_files_` and distinct leaves per folder, the `_files_` lists together hold exactly as many names as there are File entries in the whole subtree. |
| TreeMode.TreeCountsEveryFileIn | files.py:158-162 | For such a listing, the tree is `_files_` mapped to the file names, followed by the folder leaves in listing order. Its file-name total is the subtree's File count. |
| TreeMode.CountFolderStep | files.py:159-160 | In such a listing, a Folder entry appends its leaf and its subtree, which adds the subtree's File count to the total. |
| TreeMode.CleanTreeKeys | files.py:156-160 | For a clean remote tree, no assignment overwrites a key: the tree's keys are exactly `_files_` and then the leaf of every Folder entry, in listing order. |
| TreeMode.CountFileStep | files.py:161-162 | A File entry appends its name to the `_files_` list in front and leaves the folder keys alone. |
| AllMode.SharedDict.constructor | files.py:167 | The root call's `main` starts empty. |
| AllMode.SharedDict.Assign | files.py:172 | `main[k] = v` updates the shared dict in place with dict-assignment semantics. |
| AllMode.WalkAll | files.py:165-177 | A call that is handed `main` leaves it, and returns a value, exactly as the all-mode specification gives for that listing and the old `main`. |
| AllMode.WalkAllRoot | files.py:166-180 | The root call returns the whole shared dict, or the error of its own listing. |
| AllMode.AllItemsFiles | files.py:168-174 | The local `files` list holds the names of the direct File entries, in listing order. |
| AllMode.NestedWriteRepeated | files.py:172-177 | After a successful nested call, `main[src]` already holds the value the call returns. So the parent's write `main[path] = <that value>` changes nothing. |
| AllMode.AllIsPostOrderWrites | files.py:165-180 | A nested call returns its error and leaves `main` unchanged, or it returns its direct file names and applies exactly the post-order writes of its subtree to `main`. |
| AllMode.AllItemsIsPostOrderWrites | files.py:170-174 | After the loop, `main` holds the old dict with every subfolder's post-order writes applied in listing order. |
| AllMode.RootMapsSrcToItsFiles | files.py:166-177 | The root result is a dict that maps `src` to the names of its direct File entries. |
| AllMode.RootIsPostOrder | files.py:166-177 | When visited paths do not repeat, the root result is exactly the post-order list. Each descendant folder's path maps to its own file names, or to its caught error, with subfolders before parents and `src` last. |
| AllMode.MainOnlyGrows | files.py:167-176 | A nested call only extends or overwrites the shared dict. Every key it held before is still there, in the same position. |
| ListMode.WalkList | files.py:117-139 | The loop that grows `main` returns exactly the list-mode value of the listing. This includes the caught error and the TypeError. |
| ListMode.ListTypeErrorPersists | files.py:130-134 | A TypeError raised at any entry ends the whole loop. |
| ListMode.ShallowListsLiveEntries | files.py:130-134 | At the depth bound, the call appends one label for each non-Deleted entry, files and folders alike, in listing order. The label is `name` or `path_display` according to `return_name_only`. |
| ListMode.DeepLevelsAgree | files.py:131-132 | Below the depth bound, every `level` gives the same outcome, so every `level >= 2` behaves like `level = 2`. |
| ListMode.DeepStep | files.py:131-134 | Below the depth bound, one entry adds its part. A Folder whose tree walk returns adds `_files_` and then its own distinct folder leaves. A File adds its label and a Deleted entry adds nothing. |
| ListMode.DeepListsTreeKeys | files.py:131-134 | Below the depth bound, when every subfolder walk returns, each Folder adds `_files_` and then its own distinct folder leaves (its tree's keys). A File adds its label and a Deleted entry adds nothing. |
| ListMode.FailingSubfolderRaises | files.py:132 | Below the depth bound, a subfolder whose listing fails, or whose tree walk raises, makes the whole call raise a TypeError. |
| ListMode.ExampleLevelOne | files.py:117-136 | For `/a` holding `f1`, `b/f2` and an empty `c`, `level=1` gives `["f1", "b", "c"]`. |
| ListMode.ExampleSubtrees | files.py:155-164 | In that example, the tree of `b` is `{"_files_": ["f2"]}` and the tree of `c` is `{"_files_": []}`. |
| ListMode.ExampleLevelTwo | files.py:131-132 | In that example, `level=2` gives `["f1", "_files_", "_files_"]`. The file `f2` never appears. |

## Left out

- `Files.__init__` and the `getDropbox*Instance` helpers (files.py:14-28) only build an SDK client or return SDK classes.
- `readFromDir`, `writeToDir`, `removeFromDir` and `getContentsOfDir` (files.py:36-108) are network transfers plus local file I/O and the OS clock. The same leaf-name expression appears at files.py:48; the model states it only for display paths (files.py:160).
- The Dropbox client and `files_list_folder` are not modelled. Each folder carries its listing, already materialised. Pagination (`has_more`, cursors) is ignored, as in the code.
- The contents of `ApiError.error` are opaque. The model carries them as an uninterpreted detail string.
- The `isinstance` tests are replaced by matching on the three entry kinds. Metadata of any other kind is not modelled.
- List mode's `main` keyword argument is modelled as the starting accumulator `acc`. The model does not capture that a caller's own list object is mutated in place, or that it may alias another list. The `main` and `curr_level` that list mode passes to the tree walk are ignored, since tree mode never reads its `kwargs`.
- TreeMode.TreeCountsEveryFile also assumes that the folder leaves within one listing are distinct. Two folders with the same leaf would overwrite one subtree, and its files would no longer be counted.
- ListMode.DeepListsTreeKeys states the list only when every subfolder listing succeeds and its tree walk returns. The other cases are given by ListMode.FailingSubfolderRaises.
- AllMode.RootIsPostOrder assumes that visited paths do not repeat. With repeats, AllMode.AllIsPostOrderWrites still gives the result as the same writes applied in order.
- Python object identity is not modelled. For example, the list in `main[src]` is the very object a nested call returns.
