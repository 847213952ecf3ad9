/** `getContentsOfDirAsDict(src, return_as="tree")` (files.py:146-164,
    179-180): a dict that starts as `{"_files_": []}`, gets the name of each
    File entry appended to its `"_files_"` list and, for each Folder entry,
    the key `path_display.split("/")[-1]` mapped to that folder's own tree. */
module TreeMode {
  import opened Remote
  import opened Dicts
  import opened Values

  /** The reserved key holding a folder's direct file names. */
  const FilesKey: string := "_files_"


  /** The value tree mode returns for a folder with listing `l`: its tree,
      or the listing's error, caught and returned. */
  function TreeOf(l: Listing): (r: Outcome<PyVal>)
    ensures r.Returned? ==> !r.value.PyList?
    decreases l
  {
    match l
    case Err(e) => Returned(PyErr(e))
    case Ok(es) =>
      match TreeItems(es)
      case TypeError => TypeError
      case Returned(t) => Returned(PyDict(t))
  }

  /** The dict `tree` once the loop has handled the entries `es`. */
  function TreeItems(es: seq<Entry>): Outcome<Items>
    decreases es
  {
    if es == [] then Returned([Binding(FilesKey, PyList([]))])
    else
      match TreeItems(es[..|es| - 1])
      case TypeError => TypeError
      case Returned(t) => TreeStep(t, es[|es| - 1])
  }

  /** One pass of the loop body. `tree["_files_"] += [name]` raises a
      TypeError when a folder whose leaf is `_files_` has replaced the list. */
  function TreeStep(t: Items, e: Entry): Outcome<Items>
    decreases e
  {
    match e
    case Folder(_, p, c) =>
      (match TreeOf(c)
       case TypeError => TypeError
       case Returned(v) => Returned(Put(t, Leaf(p), v)))
    case File(n, _) =>
      var cur := Get(t, FilesKey);
      if cur.Some? && cur.value.PyList? then Returned(Put(t, FilesKey, PyList(cur.value.elems + [n])))
      else TypeError
    case Deleted(_, _) => Returned(t)
  }

  /** The walk as the source runs it: one listing, one loop filling `tree`
      key by key, one recursive call per Folder entry. */
  method WalkTree(l: Listing) returns (r: Outcome<PyVal>)
    ensures r == TreeOf(l)
    decreases l
  {
    match l
    case Err(e) =>
      return Returned(PyErr(e));
    case Ok(es) =>
      var tree: Items := [Binding(FilesKey, PyList([]))];
      var i := 0;
      while i < |es|
        invariant 0 <= i <= |es|
        invariant TreeItems(es[..i]) == Returned(tree)
      {
        assert es[..i + 1][..i] == es[..i];
        assert TreeItems(es[..i + 1]) == TreeStep(tree, es[i]);
        match es[i] {
          case Folder(_, p, c) =>
            var sub := WalkTree(c);
            if sub.TypeError? {
              TypeErrorPersists(es, i + 1);
              return TypeError;
            }
            tree := Put(tree, Leaf(p), sub.value);
          case File(n, _) =>
            var cur := Get(tree, FilesKey);
            if cur.Some? && cur.value.PyList? {
              tree := Put(tree, FilesKey, PyList(cur.value.elems + [n]));
            } else {
              TypeErrorPersists(es, i + 1);
              return TypeError;
            }
          case Deleted(_, _) =>
        }
        i := i + 1;
      }
      assert es[..i] == es;
      return Returned(PyDict(tree));
  }

  /** A TypeError raised while handling some entry ends the whole loop. */
  lemma {:induction false} TypeErrorPersists(es: seq<Entry>, n: nat)
    requires n <= |es| && TreeItems(es[..n]) == TypeError
    ensures TreeItems(es) == TypeError
    decreases es
  {
    if n < |es| {
      var init := es[..|es| - 1];
      assert init[..n] == es[..n];
      TypeErrorPersists(init, n);
    } else {
      assert es[..n] == es;
    }
  }

  /** The contents of the last Folder entry of `es` whose leaf is `k`. */
  function LastFolder(es: seq<Entry>, k: string): Option<Listing>
  {
    if es == [] then None
    else if es[|es| - 1].Folder? && Leaf(es[|es| - 1].pathDisplay) == k then Some(es[|es| - 1].contents)
    else LastFolder(es[..|es| - 1], k)
  }

  /** The keys of a tree are `_files_` first, then the leaf of each Folder
      entry in listing order, a repeated leaf keeping its first place. */
  lemma {:induction false} TreeKeys(es: seq<Entry>)
    requires TreeItems(es).Returned?
    ensures Keys(TreeItems(es).value) == Dedup([FilesKey] + FolderLeaves(es))
    decreases es
  {
    var xs := [FilesKey] + FolderLeaves(es);
    if es == [] {
      assert xs == [FilesKey];
      assert xs[..0] == [];
    } else {
      var init := es[..|es| - 1];
      var t0 := TreeItems(init).value;
      var t := TreeItems(es).value;
      TreeKeys(init);
      var xs0 := [FilesKey] + FolderLeaves(init);
      DedupSpec(xs0);
      assert TreeItems(es) == TreeStep(t0, es[|es| - 1]);
      match es[|es| - 1] {
        case Folder(_, p, c) =>
          assert t == Put(t0, Leaf(p), TreeOf(c).value);
          assert xs == xs0 + [Leaf(p)];
          assert xs[..|xs| - 1] == xs0;
          assert Dedup(xs) == if Leaf(p) in Dedup(xs0) then Dedup(xs0) else Dedup(xs0) + [Leaf(p)];
        case File(n, _) =>
          assert FilesKey in Keys(t0);
          assert xs == xs0;
        case Deleted(_, _) =>
          assert xs == xs0;
      }
    }
  }

  /** What each key of a tree holds: the tree of the last Folder entry with
      that leaf (an earlier one is overwritten), and under `_files_`, when
      no folder has taken that key, the names of the File entries in order. */
  lemma {:induction false} TreeValues(es: seq<Entry>, k: string)
    requires TreeItems(es).Returned?
    ensures var t := TreeItems(es).value;
      LastFolder(es, k).Some? ==> Get(t, k).Some? && TreeOf(LastFolder(es, k).value) == Returned(Get(t, k).value)
    ensures LastFolder(es, k).None? && k != FilesKey ==> Get(TreeItems(es).value, k) == None
    ensures LastFolder(es, k).None? && k == FilesKey ==> Get(TreeItems(es).value, k) == Some(PyList(FileNames(es)))
    decreases es
  {
    if es != [] {
      var init := es[..|es| - 1];
      var last := es[|es| - 1];
      var t0 := TreeItems(init).value;
      var t := TreeItems(es).value;
      assert TreeItems(es) == TreeStep(t0, last);
      TreeValues(init, k);
      match last {
        case Folder(_, p, c) =>
          assert t == Put(t0, Leaf(p), TreeOf(c).value);
          assert FileNames(es) == FileNames(init);
          if Leaf(p) != k {
            assert LastFolder(es, k) == LastFolder(init, k);
          }
        case File(n, _) =>
          assert LastFolder(es, k) == LastFolder(init, k);
          var xs := Get(t0, FilesKey).value.elems;
          assert t == Put(t0, FilesKey, PyList(xs + [n]));
          assert FileNames(es) == FileNames(init) + [n];
        case Deleted(_, _) =>
          assert t == t0;
          assert LastFolder(es, k) == LastFolder(init, k);
          assert FileNames(es) == FileNames(init);
      }
    }
  }

  /** A failing subfolder listing does not stop the walk: its error value is
      stored under the subfolder's key. */
  lemma SubfolderErrorStored(es: seq<Entry>, k: string, e: ApiError)
    requires TreeItems(es).Returned?
    requires LastFolder(es, k) == Some(Err(e))
    ensures Get(TreeItems(es).value, k) == Some(PyErr(e))
  {
    TreeValues(es, k);
  }

  /** Every tree returned for a listed folder is a dict whose first key is
      `_files_` and whose keys are distinct. */
  lemma TreeShape(l: Listing)
    requires l.Ok? && TreeOf(l).Returned?
    ensures TreeOf(l).value.PyDict?
    ensures var ks := Keys(TreeOf(l).value.pairs); |ks| > 0 && ks[0] == FilesKey && Distinct(ks)
  {
    TreeKeys(l.entries);
    DedupSpec([FilesKey] + FolderLeaves(l.entries));
  }

  /** Deleted entries have no effect on a tree. */
  lemma {:induction false} DeletedIgnored(es: seq<Entry>)
    ensures TreeItems(Live(es)) == TreeItems(es)
    decreases es
  {
    if es != [] {
      var init := es[..|es| - 1];
      DeletedIgnored(init);
      var live := Live(es);
      if es[|es| - 1].Deleted? {
        assert live == Live(init);
      } else {
        assert live == Live(init) + [es[|es| - 1]];
        assert live[..|live| - 1] == Live(init);
      }
    }
  }

  /** Some Folder entry of `es` has the leaf `_files_`. */
  ghost predicate HasFilesFolder(es: seq<Entry>)
  {
    exists i :: 0 <= i < |es| && es[i].Folder? && Leaf(es[i].pathDisplay) == FilesKey
  }

  /** A Folder entry with the leaf `_files_` comes before some File entry. */
  ghost predicate FilesShadowed(es: seq<Entry>)
  {
    exists i, j :: 0 <= i < j < |es| && es[i].Folder? && Leaf(es[i].pathDisplay) == FilesKey && es[j].File?
  }

  /** The walk of some subfolder raises. */
  ghost predicate SubtreeRaises(es: seq<Entry>)
  {
    exists i :: 0 <= i < |es| && es[i].Folder? && TreeOf(es[i].contents).TypeError?
  }

  /** `HasFilesFolder` one entry at a time. */
  lemma HasFilesFolderSnoc(es: seq<Entry>)
    requires es != []
    ensures var last := es[|es| - 1];
      HasFilesFolder(es) <==> HasFilesFolder(es[..|es| - 1]) || (last.Folder? && Leaf(last.pathDisplay) == FilesKey)
  {
  }

  /** `SubtreeRaises` one entry at a time. */
  lemma SubtreeRaisesSnoc(es: seq<Entry>)
    requires es != []
    ensures var last := es[|es| - 1];
      SubtreeRaises(es) <==> SubtreeRaises(es[..|es| - 1]) || (last.Folder? && TreeOf(last.contents).TypeError?)
  {
  }

  /** `FilesShadowed` one entry at a time: a File entry completes it when
      an earlier folder has the leaf `_files_`. */
  lemma FilesShadowedSnoc(es: seq<Entry>)
    requires es != []
    ensures var init := es[..|es| - 1];
      FilesShadowed(es) <==> FilesShadowed(init) || (es[|es| - 1].File? && HasFilesFolder(init))
  {
  }

  /** The loop raises exactly when a subfolder's walk raises or a File comes
      after a folder that has taken the `_files_` key; while it runs,
      `_files_` holds a list exactly until such a folder is met. */
  lemma {:induction false} TreeRaises(es: seq<Entry>)
    ensures TreeItems(es).TypeError? <==> FilesShadowed(es) || SubtreeRaises(es)
    ensures TreeItems(es).Returned? ==>
      Get(TreeItems(es).value, FilesKey).Some? &&
      (Get(TreeItems(es).value, FilesKey).value.PyList? <==> !HasFilesFolder(es))
    decreases es
  {
    if es == [] {
      assert TreeItems(es) == Returned([Binding(FilesKey, PyList([]))]);
    } else {
      var init := es[..|es| - 1];
      var last := es[|es| - 1];
      TreeRaises(init);
      HasFilesFolderSnoc(es);
      SubtreeRaisesSnoc(es);
      FilesShadowedSnoc(es);
      if TreeItems(init).Returned? {
        var t0 := TreeItems(init).value;
        assert TreeItems(es) == TreeStep(t0, last);
        match last {
          case Folder(_, p, c) =>
            if TreeOf(c).Returned? {
              assert TreeItems(es) == Returned(Put(t0, Leaf(p), TreeOf(c).value));
            }
          case File(_, _) =>
          case Deleted(_, _) =>
        }
      }
    }
  }

  /** A listing with no error at any depth, in which no folder's leaf is
      `_files_` and the folder leaves of each listing are distinct (as the
      provider's unique names within one folder make them). */
  ghost predicate Clean(l: Listing)
    decreases l
  {
    l.Ok? && CleanIn(l.entries)
  }

  ghost predicate CleanIn(es: seq<Entry>)
    decreases es
  {
    es == [] ||
    (CleanIn(es[..|es| - 1]) &&
     match es[|es| - 1]
     case Folder(_, p, c) =>
       Leaf(p) != FilesKey && Leaf(p) !in FolderLeaves(es[..|es| - 1]) && Clean(c)
     case _ => true)
  }

  /** The total length of all `_files_` lists inside a tree-mode value. */
  function ListedFiles(v: PyVal): nat
    decreases v
  {
    match v
    case PyDict(ps) => ListedFilesIn(ps)
    case _ => 0
  }

  function ListedFilesIn(ps: Items): nat
    decreases ps
  {
    if ps == [] then 0
    else
      (if ps[0].key == FilesKey && ps[0].val.PyList? then |ps[0].val.elems| else ListedFiles(ps[0].val)) +
      ListedFilesIn(ps[1..])
  }

  lemma {:induction false} ListedFilesInAppend(ps: Items, k: string, v: PyVal)
    requires k != FilesKey
    ensures ListedFilesIn(ps + [Binding(k, v)]) == ListedFilesIn(ps) + ListedFiles(v)
    decreases ps
  {
    if ps == [] {
      assert ps + [Binding(k, v)] == [Binding(k, v)];
    } else {
      assert (ps + [Binding(k, v)])[1..] == ps[1..] + [Binding(k, v)];
      ListedFilesInAppend(ps[1..], k, v);
    }
  }

  /** Over a clean remote tree, tree mode lists every File entry of the
      whole subtree exactly once across its `_files_` lists. */
  lemma {:induction false} TreeCountsEveryFile(l: Listing)
    requires Clean(l)
    ensures TreeOf(l).Returned? && ListedFiles(TreeOf(l).value) == FileCount(l)
    decreases l
  {
    TreeCountsEveryFileIn(l.entries);
  }

  /** A tree holding `_files_` mapped to the names of the File entries of
      `es`, then the folder leaves of `es` in listing order, with as many
      names in all its `_files_` lists as there are File entries below `es`. */
  ghost predicate CountedTree(t: Items, es: seq<Entry>)
  {
    |t| > 0 && Keys(t)[1..] == FolderLeaves(es) &&
    t[0] == Binding(FilesKey, PyList(FileNames(es))) &&
    ListedFilesIn(t) == FileCountIn(es)
  }

  lemma {:induction false} TreeCountsEveryFileIn(es: seq<Entry>)
    requires CleanIn(es)
    ensures TreeItems(es).Returned? && CountedTree(TreeItems(es).value, es)
    decreases es
  {
    if es == [] {
      var t := TreeItems(es).value;
      assert ListedFilesIn(t[1..]) == 0;
    } else {
      var init := es[..|es| - 1];
      var last := es[|es| - 1];
      TreeCountsEveryFileIn(init);
      var t0 := TreeItems(init).value;
      assert TreeItems(es) == TreeStep(t0, last);
      match last {
        case Folder(_, _, c) =>
          TreeCountsEveryFile(c);
          CountFolderStep(t0, es);
        case File(_, _) =>
          CountFileStep(t0, es);
        case Deleted(_, _) =>
          assert FolderLeaves(es) == FolderLeaves(init);
          assert FileNames(es) == FileNames(init);
          assert FileCountIn(es) == FileCountIn(init);
      }
    }
  }

  /** A Folder entry with a new leaf other than `_files_` appends its leaf
      and its counted subtree. */
  lemma CountFolderStep(t0: Items, es: seq<Entry>)
    requires es != [] && es[|es| - 1].Folder?
    requires var init := es[..|es| - 1]; var leaf := Leaf(es[|es| - 1].pathDisplay);
      CountedTree(t0, init) && leaf != FilesKey && leaf !in FolderLeaves(init)
    requires var c := es[|es| - 1].contents;
      TreeOf(c).Returned? && ListedFiles(TreeOf(c).value) == FileCount(c)
    ensures TreeStep(t0, es[|es| - 1]).Returned? && CountedTree(TreeStep(t0, es[|es| - 1]).value, es)
  {
    var init := es[..|es| - 1];
    var last := es[|es| - 1];
    var leaf := Leaf(last.pathDisplay);
    var c := last.contents;
    var v := TreeOf(c).value;
    var k0 := Keys(t0);
    var t := t0 + [Binding(leaf, v)];
    assert k0 == [FilesKey] + k0[1..];
    assert leaf !in k0;
    PutFresh(t0, leaf, v);
    assert TreeStep(t0, last) == Returned(Put(t0, leaf, v));
    ListedFilesInAppend(t0, leaf, v);
    KeysSnoc(t0, Binding(leaf, v));
    assert Keys(t)[1..] == k0[1..] + [leaf];
    assert t[0] == t0[0];
    assert FolderLeaves(es) == FolderLeaves(init) + [leaf];
    assert FileNames(es) == FileNames(init);
    assert FileCountIn(es) == FileCountIn(init) + FileCount(c);
  }

  /** A File entry appends its name to the `_files_` list in front. */
  lemma CountFileStep(t0: Items, es: seq<Entry>)
    requires es != [] && es[|es| - 1].File? && CountedTree(t0, es[..|es| - 1])
    ensures TreeStep(t0, es[|es| - 1]).Returned? && CountedTree(TreeStep(t0, es[|es| - 1]).value, es)
  {
    var init := es[..|es| - 1];
    var n := es[|es| - 1].name;
    var k0 := Keys(t0);
    assert k0 == [FilesKey] + k0[1..];
    assert Get(t0, FilesKey) == Some(PyList(FileNames(init)));
    var t := Put(t0, FilesKey, PyList(FileNames(init) + [n]));
    assert t == [Binding(FilesKey, PyList(FileNames(init) + [n]))] + t0[1..];
    assert t[1..] == t0[1..];
    assert TreeStep(t0, es[|es| - 1]) == Returned(t);
    assert Keys(t) == k0;
    assert FolderLeaves(es) == FolderLeaves(init);
    assert FileNames(es) == FileNames(init) + [n];
    assert FileCountIn(es) == FileCountIn(init) + 1;
  }

  /** In a clean listing `_files_` and the folder leaves are all distinct. */
  lemma {:induction false} CleanLeavesDistinct(es: seq<Entry>)
    requires CleanIn(es)
    ensures Distinct([FilesKey] + FolderLeaves(es))
    decreases es
  {
    if es != [] {
      var init := es[..|es| - 1];
      var last := es[|es| - 1];
      CleanLeavesDistinct(init);
      var xs0 := [FilesKey] + FolderLeaves(init);
      if last.Folder? {
        var leaf := Leaf(last.pathDisplay);
        var xs := [FilesKey] + FolderLeaves(es);
        assert xs == xs0 + [leaf];
        assert leaf !in xs0;
        assert forall i :: 0 <= i < |xs0| ==> xs[i] == xs0[i];
      } else {
        assert FolderLeaves(es) == FolderLeaves(init);
      }
    }
  }

  /** The tree of a clean listing has exactly the keys `_files_` and then the
      leaf of each Folder entry, in listing order: no assignment overwrote a
      key. */
  lemma CleanTreeKeys(l: Listing)
    requires Clean(l)
    ensures TreeOf(l).Returned? && TreeOf(l).value.PyDict?
    ensures Keys(TreeOf(l).value.pairs) == [FilesKey] + FolderLeaves(l.entries)
  {
    TreeCountsEveryFile(l);
    TreeKeys(l.entries);
    CleanLeavesDistinct(l.entries);
    DedupOfDistinct([FilesKey] + FolderLeaves(l.entries));
  }
}
