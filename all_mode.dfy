/** `getContentsOfDirAsDict(src, return_as=...)` with any `return_as` other
    than "tree" (files.py:165-180): one dict `main`, shared by every call of
    the recursion, maps each visited folder's `path_display` to the names of
    its direct File entries. The call made without a `main` argument is the
    root: it returns the whole dict; the nested calls return only their own
    file list. */
module AllMode {
  import opened Remote
  import opened Dicts
  import opened Values

  /** The dict `main`, updated in place by every call that shares it. */
  class SharedDict {
    var items: Items

    constructor ()
      ensures items == []
    {
      items := [];
    }

    /** `main[k] = v`. */
    method Assign(k: string, v: PyVal)
      modifies this
      ensures items == Put(old(items), k, v)
    {
      items := Put(items, k, v);
    }
  }

  /** A nested call for folder `src` with listing `l`, handed the dict
      `main`: the dict afterwards, and the value the call returns. */
  function AllOf(src: string, l: Listing, main: Items): (Items, PyVal)
    decreases l
  {
    match l
    case Err(e) => (main, PyErr(e))
    case Ok(es) =>
      var (m, files) := AllItems(es, main);
      (Put(m, src, PyList(files)), PyList(files))
  }

  /** The dict `main` and the local list `files` once the loop has handled
      the entries `es`. */
  function AllItems(es: seq<Entry>, main: Items): (Items, seq<string>)
    decreases es
  {
    if es == [] then (main, [])
    else
      var (m, files) := AllItems(es[..|es| - 1], main);
      match es[|es| - 1]
      case Folder(_, p, c) =>
        var (m', ret) := AllOf(p, c, m);
        (Put(m', p, ret), files)
      case File(n, _) => (m, files + [n])
      case Deleted(_, _) => (m, files)
  }

  /** The root call, made without `main`: the listing's error, or the whole
      dict. */
  function AllRoot(src: string, l: Listing): PyVal
  {
    match l
    case Err(e) => PyErr(e)
    case Ok(_) => PyDict(AllOf(src, l, []).0)
  }

  /** A nested call, as the source runs it: the loop writes each subfolder's
      entry into `main` after the subfolder's own call returns, and `main[src]`
      last. */
  method WalkAll(src: string, l: Listing, main: SharedDict) returns (ret: PyVal)
    modifies main
    ensures (main.items, ret) == AllOf(src, l, old(main.items))
    decreases l
  {
    match l
    case Err(e) =>
      return PyErr(e);
    case Ok(es) =>
      var files: seq<string> := [];
      var i := 0;
      while i < |es|
        invariant 0 <= i <= |es|
        invariant (main.items, files) == AllItems(es[..i], old(main.items))
      {
        assert es[..i + 1][..i] == es[..i];
        match es[i] {
          case Folder(_, p, c) =>
            var sub := WalkAll(p, c, main);
            main.Assign(p, sub);
          case File(n, _) =>
            files := files + [n];
          case Deleted(_, _) =>
        }
        i := i + 1;
      }
      assert es[..i] == es;
      main.Assign(src, PyList(files));
      return PyList(files);
  }

  /** The root call: it creates `main`, and returns it unless its own listing
      failed. */
  method WalkAllRoot(src: string, l: Listing) returns (r: PyVal)
    ensures r == AllRoot(src, l)
  {
    var main := new SharedDict();
    var ret := WalkAll(src, l, main);
    if ret.PyErr? {
      return ret;
    }
    return PyDict(main.items);
  }

  /** Every write the walk of folder `src` makes to `main`, in order: each
      subfolder's writes (for a subfolder whose listing failed, the error
      under its path), then `src` with its direct file names. */
  function PostOrder(src: string, l: Listing): Items
    decreases l
  {
    match l
    case Err(e) => [Binding(src, PyErr(e))]
    case Ok(es) => PostOrderIn(es) + [Binding(src, PyList(FileNames(es)))]
  }

  function PostOrderIn(es: seq<Entry>): Items
    decreases es
  {
    if es == [] then []
    else
      PostOrderIn(es[..|es| - 1]) +
      (match es[|es| - 1]
       case Folder(_, p, c) => PostOrder(p, c)
       case _ => [])
  }

  /** The local list is the names of the File entries, in listing order. */
  lemma {:induction false} AllItemsFiles(es: seq<Entry>, main: Items)
    ensures AllItems(es, main).1 == FileNames(es)
    decreases es
  {
    if es != [] {
      AllItemsFiles(es[..|es| - 1], main);
    }
  }

  /** After a nested call with a successful listing, `main[src]` already
      holds the value the call returns, so the caller's own write
      `main[path] = <that value>` changes nothing. */
  lemma NestedWriteRepeated(src: string, l: Listing, main: Items)
    requires l.Ok?
    ensures Get(AllOf(src, l, main).0, src) == Some(AllOf(src, l, main).1)
    ensures Put(AllOf(src, l, main).0, src, AllOf(src, l, main).1) == AllOf(src, l, main).0
  {
    var (m, ret) := AllOf(src, l, main);
    PutSame(m, src, ret);
  }

  /** A nested call returns its listing's error, or its local file list;
      its effect on `main` is exactly the assignments of its post-order
      writes (none when its own listing failed). */
  lemma {:induction false} AllIsPostOrderWrites(src: string, l: Listing, main: Items)
    ensures l.Err? ==> AllOf(src, l, main) == (main, PyErr(l.error))
    ensures l.Ok? ==> AllOf(src, l, main) == (PutAll(main, PostOrder(src, l)), PyList(FileNames(l.entries)))
    decreases l
  {
    if l.Ok? {
      var es := l.entries;
      AllItemsIsPostOrderWrites(es, main);
      AllItemsFiles(es, main);
      var b := Binding(src, PyList(FileNames(es)));
      PutAllConcat(main, PostOrderIn(es), [b]);
      assert PutAll(PutAll(main, PostOrderIn(es)), [b]) == Put(PutAll(main, PostOrderIn(es)), b.key, b.val);
    }
  }

  lemma {:induction false} AllItemsIsPostOrderWrites(es: seq<Entry>, main: Items)
    ensures AllItems(es, main).0 == PutAll(main, PostOrderIn(es))
    decreases es
  {
    if es != [] {
      var init := es[..|es| - 1];
      AllItemsIsPostOrderWrites(init, main);
      var m := AllItems(init, main).0;
      match es[|es| - 1] {
        case Folder(_, p, c) =>
          AllIsPostOrderWrites(p, c, m);
          assert PostOrderIn(es) == PostOrderIn(init) + PostOrder(p, c);
          PutAllConcat(main, PostOrderIn(init), PostOrder(p, c));
          if c.Ok? {
            NestedWriteRepeated(p, c, m);
          } else {
            assert PutAll(m, PostOrder(p, c)) == Put(m, p, PyErr(c.error));
          }
        case File(_, _) =>
          assert AllItems(es, main).0 == m;
          assert PostOrderIn(es) == PostOrderIn(init);
        case Deleted(_, _) =>
          assert AllItems(es, main).0 == m;
          assert PostOrderIn(es) == PostOrderIn(init);
      }
    }
  }

  /** The root result maps `src` to the names of its direct File entries. */
  lemma RootMapsSrcToItsFiles(src: string, l: Listing)
    requires l.Ok?
    ensures AllRoot(src, l).PyDict?
    ensures Get(AllRoot(src, l).pairs, src) == Some(PyList(FileNames(l.entries)))
  {
    AllItemsFiles(l.entries, []);
  }

  /** When no two visited folders share a path, the root result is exactly
      the post-order list of writes: every descendant folder's path mapped
      to its own direct file names (or its listing error), each subfolder
      before its parent, and `src` last. */
  lemma RootIsPostOrder(src: string, l: Listing)
    requires l.Ok?
    requires Distinct(Keys(PostOrder(src, l)))
    ensures AllRoot(src, l) == PyDict(PostOrder(src, l))
  {
    AllIsPostOrderWrites(src, l, []);
    assert [] + PostOrder(src, l) == PostOrder(src, l);
    PutAllFresh([], PostOrder(src, l));
  }

  /** The shared dict is only ever extended or overwritten: every key it
      held before a nested call is still there, in the same place. */
  lemma MainOnlyGrows(src: string, l: Listing, main: Items)
    ensures Keys(main) <= Keys(AllOf(src, l, main).0)
  {
    AllIsPostOrderWrites(src, l, main);
    if l.Ok? {
      PutAllExtends(main, PostOrder(src, l));
    }
  }
}
