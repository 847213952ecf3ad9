/** The remote side of a folder walk: what one listing call per folder returns.
    The Dropbox client and its `files_list_folder` call are not modelled; each
    folder instead carries the listing that call would have produced, already
    materialised, so a remote tree is a finite inductive value. */
module Remote {

  /** The detail an `ApiError` carries; its contents are opaque to the walks. */
  datatype ApiError = ApiError(detail: string)

  /** One item of a listing: FileMetadata, FolderMetadata or DeletedMetadata,
      with its `name` and `path_display`. A folder carries its own listing. */
  datatype Entry =
    | File(name: string, pathDisplay: string)
    | Folder(name: string, pathDisplay: string, contents: Listing)
    | Deleted(name: string, pathDisplay: string)

  /** The outcome of listing one folder: its entries in the order the
      provider yields them, or the error the listing call raised. */
  datatype Listing = Ok(entries: seq<Entry>) | Err(error: ApiError)

  /** `path.split("/")[-1]`: the part of `path` after its last '/', or the
      whole of `path` when it has none. */
  function Leaf(path: string): string
  {
    if path == [] then []
    else if path[|path| - 1] == '/' then []
    else Leaf(path[..|path| - 1]) + [path[|path| - 1]]
  }

  /** The leaf is the longest suffix of the path without '/': the path is
      some prefix followed by the leaf, the leaf holds no '/', and the
      prefix is empty or ends in '/'. */
  lemma LeafIsLastSegment(path: string)
    ensures |Leaf(path)| <= |path| && path == path[..|path| - |Leaf(path)|] + Leaf(path)
    ensures '/' !in Leaf(path)
    ensures |Leaf(path)| < |path| ==> path[|path| - |Leaf(path)| - 1] == '/'
  {
    LeafHasNoSlash(path);
    LeafIsSuffix(path);
  }

  lemma {:induction false} LeafHasNoSlash(path: string)
    ensures '/' !in Leaf(path)
  {
    if path != [] && path[|path| - 1] != '/' {
      var init := path[..|path| - 1];
      LeafHasNoSlash(init);
      assert forall x :: x in Leaf(init) + [path[|path| - 1]] ==> x in Leaf(init) || x == path[|path| - 1];
    }
  }

  lemma {:induction false} LeafIsSuffix(path: string)
    ensures |Leaf(path)| <= |path| && path == path[..|path| - |Leaf(path)|] + Leaf(path)
    ensures |Leaf(path)| < |path| ==> path[|path| - |Leaf(path)| - 1] == '/'
  {
    if path == [] {
    } else if path[|path| - 1] == '/' {
      assert path[..|path|] == path;
    } else {
      var init, c := path[..|path| - 1], path[|path| - 1];
      LeafIsSuffix(init);
      var r' := Leaf(init);
      var h := init[..|init| - |r'|];
      assert Leaf(path) == r' + [c];
      assert path == h + (r' + [c]) by {
        assert path == init + [c];
      }
      assert path[..|h|] == h;
      if |h| > 0 {
        assert path[|h| - 1] == init[|h| - 1];
      }
    }
  }

  /** A child's display path is its parent's path, '/', and its name, so the
      leaf of the path is the child's name. */
  lemma {:induction false} LeafOfChildPath(parent: string, name: string)
    requires '/' !in name
    ensures Leaf(parent + "/" + name) == name
  {
    var p := parent + "/" + name;
    if name == [] {
      assert p[|p| - 1] == '/';
    } else {
      var init := name[..|name| - 1];
      assert p[..|p| - 1] == parent + "/" + init;
      assert name[|name| - 1] in name;
      LeafOfChildPath(parent, init);
      assert init + [name[|name| - 1]] == name;
    }
  }

  /** The names of the File entries of `es`, in listing order. */
  function FileNames(es: seq<Entry>): seq<string>
  {
    if es == [] then []
    else FileNames(es[..|es| - 1]) + (if es[|es| - 1].File? then [es[|es| - 1].name] else [])
  }

  /** The leaf names of the Folder entries of `es`, in listing order. */
  function FolderLeaves(es: seq<Entry>): seq<string>
  {
    if es == [] then []
    else
      FolderLeaves(es[..|es| - 1]) +
      (if es[|es| - 1].Folder? then [Leaf(es[|es| - 1].pathDisplay)] else [])
  }

  /** The entries of `es` that are not Deleted, in listing order. */
  function Live(es: seq<Entry>): seq<Entry>
  {
    if es == [] then []
    else Live(es[..|es| - 1]) + (if es[|es| - 1].Deleted? then [] else [es[|es| - 1]])
  }

  /** The number of File entries anywhere below a listing; a failed listing has none. */
  function FileCount(l: Listing): nat
    decreases l
  {
    match l
    case Err(_) => 0
    case Ok(es) => FileCountIn(es)
  }

  function FileCountIn(es: seq<Entry>): nat
    decreases es
  {
    if es == [] then 0
    else
      FileCountIn(es[..|es| - 1]) +
      (match es[|es| - 1]
       case File(_, _) => 1
       case Folder(_, _, c) => FileCount(c)
       case Deleted(_, _) => 0)
  }
}
