/** `getContentsOfDirAsList(src, level, return_name_only, **kwargs)`
    (files.py:117-139). Each entry that is not Deleted adds its `name` or its
    `path_display` to the list `main`, except a Folder met while
    `curr_level < level`: that one is handed to the tree-mode dict walk and
    `main += <its dict>` adds the dict's keys. The `level`, `curr_level` and
    `main` passed along go into the dict walk's `kwargs`, which tree mode
    never reads, so the recursion is a full tree walk whose only trace in the
    list is its key list. */
module ListMode {
  import opened Remote
  import opened Dicts
  import opened Values
  import opened TreeMode

  /** The string recorded for an entry: its `name` or its `path_display`. */
  function Label(e: Entry, nameOnly: bool): string
  {
    if nameOnly then e.name else e.pathDisplay
  }

  /** The labels of `es`, one per entry, in order. */
  function Labels(es: seq<Entry>, nameOnly: bool): seq<string>
  {
    seq(|es|, i requires 0 <= i < |es| => Label(es[i], nameOnly))
  }

  /** The list `main` once the loop has handled the entries `es`, starting
      from `acc`. */
  function ListItems(es: seq<Entry>, level: int, currLevel: int, nameOnly: bool, acc: seq<string>): Outcome<seq<string>>
    decreases es
  {
    if es == [] then Returned(acc)
    else
      match ListItems(es[..|es| - 1], level, currLevel, nameOnly, acc)
      case TypeError => TypeError
      case Returned(m) => ListStep(m, es[|es| - 1], level, currLevel, nameOnly)
  }

  /** One pass of the loop body. */
  function ListStep(m: seq<string>, e: Entry, level: int, currLevel: int, nameOnly: bool): Outcome<seq<string>>
  {
    if e.Folder? && currLevel < level then
      match TreeOf(e.contents)
      case TypeError => TypeError
      case Returned(v) => Extend(m, v)
    else if !e.Deleted? then Returned(m + [Label(e, nameOnly)])
    else Returned(m)
  }

  /** The call's outcome: the listing's error, caught and returned, or the
      list `main`. `currLevel` and `acc` are the `curr_level` and `main`
      keyword arguments; a caller that passes neither gets 1 and []. */
  function ListOf(l: Listing, level: int, nameOnly: bool, currLevel: int, acc: seq<string>): Outcome<PyVal>
  {
    match l
    case Err(e) => Returned(PyErr(e))
    case Ok(es) =>
      match ListItems(es, level, currLevel, nameOnly, acc)
      case TypeError => TypeError
      case Returned(xs) => Returned(PyList(xs))
  }

  /** The list walk as the source runs it. */
  method WalkList(l: Listing, level: int, nameOnly: bool, currLevel: int, acc: seq<string>)
    returns (r: Outcome<PyVal>)
    ensures r == ListOf(l, level, nameOnly, currLevel, acc)
  {
    match l
    case Err(e) =>
      return Returned(PyErr(e));
    case Ok(es) =>
      var main := acc;
      var i := 0;
      while i < |es|
        invariant 0 <= i <= |es|
        invariant ListItems(es[..i], level, currLevel, nameOnly, acc) == Returned(main)
      {
        assert es[..i + 1][..i] == es[..i];
        var e := es[i];
        if e.Folder? && currLevel < level {
          var sub := WalkTree(e.contents);
          var extended := if sub.TypeError? then TypeError else Extend(main, sub.value);
          if extended.TypeError? {
            ListTypeErrorPersists(es, i + 1, level, currLevel, nameOnly, acc);
            return TypeError;
          }
          main := extended.value;
        } else if !e.Deleted? {
          main := main + [Label(e, nameOnly)];
        }
        i := i + 1;
      }
      assert es[..i] == es;
      return Returned(PyList(main));
  }

  /** A TypeError raised while handling some entry ends the whole loop. */
  lemma {:induction false} ListTypeErrorPersists(es: seq<Entry>, n: nat, level: int, currLevel: int, nameOnly: bool, acc: seq<string>)
    requires n <= |es| && ListItems(es[..n], level, currLevel, nameOnly, acc) == TypeError
    ensures ListItems(es, level, currLevel, nameOnly, acc) == TypeError
    decreases es
  {
    if n < |es| {
      var init := es[..|es| - 1];
      assert init[..n] == es[..n];
      ListTypeErrorPersists(init, n, level, currLevel, nameOnly, acc);
    } else {
      assert es[..n] == es;
    }
  }

  /** At the depth bound (`level=1` at the top) nothing is recursed into:
      the call appends exactly one label per entry that is not Deleted,
      files and folders alike, in listing order. */
  lemma {:induction false} ShallowListsLiveEntries(es: seq<Entry>, level: int, currLevel: int, nameOnly: bool, acc: seq<string>)
    requires level <= currLevel
    ensures ListItems(es, level, currLevel, nameOnly, acc) == Returned(acc + Labels(Live(es), nameOnly))
    decreases es
  {
    if es == [] {
      assert Labels(Live(es), nameOnly) == [];
      assert acc + [] == acc;
    } else {
      var init := es[..|es| - 1];
      ShallowListsLiveEntries(init, level, currLevel, nameOnly, acc);
      var last := es[|es| - 1];
      var m := acc + Labels(Live(init), nameOnly);
      assert ListItems(es, level, currLevel, nameOnly, acc) == ListStep(m, last, level, currLevel, nameOnly);
      if last.Deleted? {
        assert Live(es) == Live(init);
      } else {
        assert Live(es) == Live(init) + [last];
        assert Labels(Live(es), nameOnly) == Labels(Live(init), nameOnly) + [Label(last, nameOnly)];
        assert m + [Label(last, nameOnly)] == acc + Labels(Live(es), nameOnly);
      }
    }
  }

  /** Below the depth bound, how far below does not matter: every
      `level` above `currLevel` gives the same outcome, so at the top every
      `level >= 2` behaves like `level=2`. */
  lemma {:induction false} DeepLevelsAgree(es: seq<Entry>, level: int, level': int, currLevel: int, nameOnly: bool, acc: seq<string>)
    requires currLevel < level && currLevel < level'
    ensures ListItems(es, level, currLevel, nameOnly, acc) == ListItems(es, level', currLevel, nameOnly, acc)
    decreases es
  {
    if es != [] {
      DeepLevelsAgree(es[..|es| - 1], level, level', currLevel, nameOnly, acc);
    }
  }

  /** What one entry adds to the list below the depth bound, when its
      folder walk succeeds: a Folder adds the keys of its tree, `_files_`
      and then the distinct leaves of its own subfolders; a File adds its
      label; a Deleted entry nothing. */
  function DeepPart(e: Entry, nameOnly: bool): seq<string>
    requires e.Folder? ==> e.contents.Ok?
  {
    match e
    case Folder(_, _, c) => Dedup([FilesKey] + FolderLeaves(c.entries))
    case File(_, _) => [Label(e, nameOnly)]
    case Deleted(_, _) => []
  }

  function DeepParts(es: seq<Entry>, nameOnly: bool): seq<string>
    requires forall i :: 0 <= i < |es| && es[i].Folder? ==> es[i].contents.Ok?
  {
    if es == [] then []
    else DeepParts(es[..|es| - 1], nameOnly) + DeepPart(es[|es| - 1], nameOnly)
  }

  /** Below the depth bound, one entry adds its part: a Folder whose tree
      walk returns adds its tree's keys. */
  lemma DeepStep(m: seq<string>, e: Entry, level: int, currLevel: int, nameOnly: bool)
    requires currLevel < level
    requires e.Folder? ==> e.contents.Ok? && TreeOf(e.contents).Returned?
    ensures ListStep(m, e, level, currLevel, nameOnly) == Returned(m + DeepPart(e, nameOnly))
  {
    if e.Folder? {
      var c := e.contents;
      TreeKeys(c.entries);
      var t := TreeItems(c.entries).value;
      assert TreeOf(c) == Returned(PyDict(t));
    } else if e.Deleted? {
      assert m + DeepPart(e, nameOnly) == m;
    }
  }

  /** Below the depth bound, with every subfolder listed and walked without
      a TypeError, the list gains the parts of the entries in listing order:
      never the files of a subfolder, only the key list of its tree. */
  lemma {:induction false} DeepListsTreeKeys(es: seq<Entry>, level: int, currLevel: int, nameOnly: bool, acc: seq<string>)
    requires currLevel < level
    requires forall i :: 0 <= i < |es| && es[i].Folder? ==> es[i].contents.Ok? && TreeOf(es[i].contents).Returned?
    ensures ListItems(es, level, currLevel, nameOnly, acc) == Returned(acc + DeepParts(es, nameOnly))
    decreases es
  {
    if es == [] {
      assert acc + [] == acc;
    } else {
      var init := es[..|es| - 1];
      var last := es[|es| - 1];
      assert forall i :: 0 <= i < |init| ==> init[i] == es[i];
      DeepListsTreeKeys(init, level, currLevel, nameOnly, acc);
      var m := acc + DeepParts(init, nameOnly);
      assert ListItems(es, level, currLevel, nameOnly, acc) == ListStep(m, last, level, currLevel, nameOnly);
      DeepStep(m, last, level, currLevel, nameOnly);
      assert DeepParts(es, nameOnly) == DeepParts(init, nameOnly) + DeepPart(last, nameOnly);
      assert m + DeepPart(last, nameOnly) == acc + DeepParts(es, nameOnly);
    }
  }

  /** Below the depth bound, a subfolder whose listing fails makes the call
      raise a TypeError, since `main += <error object>` cannot iterate it;
      so does a subfolder whose own tree walk raises. */
  lemma FailingSubfolderRaises(es: seq<Entry>, i: nat, level: int, currLevel: int, nameOnly: bool, acc: seq<string>)
    requires currLevel < level
    requires i < |es| && es[i].Folder? && (es[i].contents.Err? || TreeOf(es[i].contents).TypeError?)
    ensures ListItems(es, level, currLevel, nameOnly, acc) == TypeError
  {
  }

  /** The folder `/a` holding the file `f1`, the folder `b` (holding the
      file `f2`) and the empty folder `c`. */
  function ExampleListing(): Listing
  {
    Ok([File("f1", "/a/f1"),
        Folder("b", "/a/b", Ok([File("f2", "/a/b/f2")])),
        Folder("c", "/a/c", Ok([]))])
  }

  /** On that folder, `level=1` lists the three direct entries, files and
      folders alike. */
  lemma ExampleLevelOne()
    ensures ListOf(ExampleListing(), 1, true, 1, []) == Returned(PyList(["f1", "b", "c"]))
  {
    var es := ExampleListing().entries;
    ShallowListsLiveEntries(es, 1, 1, true, []);
    assert es[..2][..1] == es[..1];
    assert Live(es[..1]) == [es[0]];
    assert Live(es[..2]) == [es[0], es[1]];
    assert Live(es) == es;
    assert Labels(es, true) == ["f1", "b", "c"];
    assert [] + ["f1", "b", "c"] == ["f1", "b", "c"];
  }

  /** The trees of the two subfolders: `b` lists `f2` under `_files_`, and
      `c` has an empty `_files_`. */
  lemma ExampleSubtrees()
    ensures TreeOf(ExampleListing().entries[1].contents) == Returned(PyDict([Binding(FilesKey, PyList(["f2"]))]))
    ensures TreeOf(ExampleListing().entries[2].contents) == Returned(PyDict([Binding(FilesKey, PyList([]))]))
  {
    var bs := ExampleListing().entries[1].contents.entries;
    var t0 := [Binding(FilesKey, PyList([]))];
    assert bs[..0] == [];
    assert TreeItems(bs[..0]) == Returned(t0);
    assert Get(t0, FilesKey) == Some(PyList([]));
    assert TreeItems(bs) == TreeStep(t0, bs[0]);
    assert [] + ["f2"] == ["f2"];
    assert t0[1..] == [];
    assert Put(t0, FilesKey, PyList(["f2"])) == [Binding(FilesKey, PyList(["f2"]))];
    assert TreeItems(bs) == Returned([Binding(FilesKey, PyList(["f2"]))]);
    assert TreeItems(ExampleListing().entries[2].contents.entries) == Returned(t0);
  }

  lemma ExampleDeepParts()
    ensures DeepParts(ExampleListing().entries, true) == ["f1", FilesKey, FilesKey]
  {
    var es := ExampleListing().entries;
    assert FolderLeaves(es[1].contents.entries) == [];
    assert FolderLeaves(es[2].contents.entries) == [];
    assert [FilesKey] + [] == [FilesKey];
    assert Dedup([FilesKey]) == [FilesKey];
    assert es[..2][..1] == es[..1];
    assert es[..1][..0] == [];
    assert DeepParts(es[..1], true) == ["f1"];
    assert DeepParts(es[..2], true) == ["f1", FilesKey];
  }

  /** On that folder, `level=2` lists `f1` and then, for each subfolder, its
      tree's only key `_files_`: the file `f2` inside `b` never appears. */
  lemma ExampleLevelTwo()
    ensures ListOf(ExampleListing(), 2, true, 1, []) == Returned(PyList(["f1", FilesKey, FilesKey]))
  {
    var es := ExampleListing().entries;
    ExampleSubtrees();
    ExampleDeepParts();
    DeepListsTreeKeys(es, 2, 1, true, []);
    assert [] + ["f1", FilesKey, FilesKey] == ["f1", FilesKey, FilesKey];
  }
}
