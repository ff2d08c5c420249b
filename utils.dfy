/** The run helpers of the command-line tool: the image-file filter and the
    directory walk, the `--target_list` parser, the two resolution rules for
    targets and image paths, and the row written to the run log. The file
    system is abstract: a directory walk is a value, and "is a directory" /
    "is a file" are functions supplied by the caller. */
module Utils {
  import opened Wrappers
  import opened Text

  // ---------------------------------------------------------------------------
  // get_image_paths
  // ---------------------------------------------------------------------------

  /** The extensions `get_image_paths` accepts by default (no leading dot). */
  const ImageExtensions: seq<string> := ["jpg", "jpeg", "png", "gif"]

  /** `s.endswith(suffixes)` for a tuple of suffixes: some suffix ends `s`. */
  predicate EndsWithAny(s: string, suffixes: seq<string>)
    decreases |suffixes|
  {
    suffixes != [] && (EndsWith(s, suffixes[0]) || EndsWithAny(s, suffixes[1..]))
  }

  lemma {:induction false} EndsWithAnyIffSome(s: string, suffixes: seq<string>)
    ensures EndsWithAny(s, suffixes) <==> exists i :: 0 <= i < |suffixes| && EndsWith(s, suffixes[i])
    decreases |suffixes|
  {
    if suffixes != [] {
      EndsWithAnyIffSome(s, suffixes[1..]);
      if EndsWithAny(s, suffixes[1..]) {
        var i :| 0 <= i < |suffixes[1..]| && EndsWith(s, suffixes[1..][i]);
        assert EndsWith(s, suffixes[i + 1]);
      }
      if exists i :: 0 <= i < |suffixes| && EndsWith(s, suffixes[i]) {
        var i :| 0 <= i < |suffixes| && EndsWith(s, suffixes[i]);
        if i > 0 {
          assert suffixes[1..][i - 1] == suffixes[i];
        }
      }
    }
  }

  /** A file is collected when its lowercased name ends with one of the
      extensions (the check is on the bare suffix, so "photojpg" passes). */
  predicate IsImageFile(name: string)
  {
    EndsWithAny(Lower(name), ImageExtensions)
  }

  lemma ImageFileIffExtension(name: string)
    ensures IsImageFile(name) <==> exists i :: 0 <= i < |ImageExtensions| && EndsWith(Lower(name), ImageExtensions[i])
  {
    EndsWithAnyIffSome(Lower(name), ImageExtensions);
  }

  /** The test ignores case: a name and its lowercased form are treated alike. */
  lemma ImageFileIgnoresCase(name: string)
    ensures IsImageFile(name) <==> IsImageFile(Lower(name))
  {
    assert Lower(Lower(name)) == Lower(name);
  }

  /** One triple of `os.walk`: a directory and the names of the files in it. */
  datatype WalkEntry = WalkEntry(root: string, files: seq<string>)

  /** `os.path.join(root, name)` for a plain file name. */
  function JoinPath(root: string, name: string): string
  {
    if root == "" || EndsWith(root, "/") then root + name else root + "/" + name
  }

  /** The collected paths of one directory, in listing order. */
  function ImagesIn(root: string, files: seq<string>): seq<string>
  {
    if files == [] then []
    else
      var last := files[|files| - 1];
      ImagesIn(root, files[..|files| - 1]) + (if IsImageFile(last) then [JoinPath(root, last)] else [])
  }

  /** The collected paths of a whole walk, in walk order. */
  function ImagesOf(walk: seq<WalkEntry>): seq<string>
  {
    if walk == [] then []
    else ImagesOf(walk[..|walk| - 1]) + ImagesIn(walk[|walk| - 1].root, walk[|walk| - 1].files)
  }

  /** File `j` of the listing is an image and `x` is its joined path. */
  predicate ListedImage(root: string, files: seq<string>, j: int, x: string)
  {
    0 <= j < |files| && IsImageFile(files[j]) && x == JoinPath(root, files[j])
  }

  lemma ImagesInMembers(root: string, files: seq<string>, x: string)
    ensures x in ImagesIn(root, files) <==> exists j :: ListedImage(root, files, j, x)
  {
    if x in ImagesIn(root, files) {
      var j := ImagesInSound(root, files, x);
    }
    if exists j :: ListedImage(root, files, j, x) {
      var j :| ListedImage(root, files, j, x);
      ImagesInComplete(root, files, j, x);
    }
  }

  /** Every collected path comes from a listed image file. */
  lemma {:induction false} ImagesInSound(root: string, files: seq<string>, x: string) returns (j: int)
    requires x in ImagesIn(root, files)
    ensures ListedImage(root, files, j, x)
  {
    var init := files[..|files| - 1];
    if x in ImagesIn(root, init) {
      j := ImagesInSound(root, init, x);
    } else {
      j := |files| - 1;
    }
  }

  /** Every listed image file is collected. */
  lemma {:induction false} ImagesInComplete(root: string, files: seq<string>, j: int, x: string)
    requires ListedImage(root, files, j, x)
    ensures x in ImagesIn(root, files)
  {
    var init := files[..|files| - 1];
    if j < |init| {
      assert init[j] == files[j];
      ImagesInComplete(root, init, j, x);
    }
  }

  /** Entry `i` of the walk lists image file `j`, and `x` is its joined path. */
  predicate WalkedImage(walk: seq<WalkEntry>, i: int, j: int, x: string)
  {
    0 <= i < |walk| && ListedImage(walk[i].root, walk[i].files, j, x)
  }

  /** A path is collected exactly when it joins a directory of the walk with an
      image file listed in that directory. */
  lemma ImagesOfMembers(walk: seq<WalkEntry>, x: string)
    ensures x in ImagesOf(walk) <==> exists i, j :: WalkedImage(walk, i, j, x)
  {
    if x in ImagesOf(walk) {
      var i, j := ImagesOfSound(walk, x);
    }
    if exists i, j :: WalkedImage(walk, i, j, x) {
      var i, j :| WalkedImage(walk, i, j, x);
      ImagesOfComplete(walk, i, j, x);
    }
  }

  lemma {:induction false} ImagesOfSound(walk: seq<WalkEntry>, x: string) returns (i: int, j: int)
    requires x in ImagesOf(walk)
    ensures WalkedImage(walk, i, j, x)
  {
    var init := walk[..|walk| - 1];
    var last := walk[|walk| - 1];
    if x in ImagesOf(init) {
      i, j := ImagesOfSound(init, x);
    } else {
      i := |walk| - 1;
      j := ImagesInSound(last.root, last.files, x);
    }
  }

  lemma {:induction false} ImagesOfComplete(walk: seq<WalkEntry>, i: int, j: int, x: string)
    requires WalkedImage(walk, i, j, x)
    ensures x in ImagesOf(walk)
  {
    var init := walk[..|walk| - 1];
    var last := walk[|walk| - 1];
    if i < |init| {
      assert init[i] == walk[i];
      ImagesOfComplete(init, i, j, x);
    } else {
      ImagesInComplete(last.root, last.files, j, x);
    }
  }

  /** `get_image_paths`: walks the listing and appends every image file. */
  method GetImagePaths(walk: seq<WalkEntry>) returns (imageFiles: seq<string>)
    ensures imageFiles == ImagesOf(walk)
  {
    imageFiles := [];
    for i := 0 to |walk|
      invariant imageFiles == ImagesOf(walk[..i])
    {
      var entry := walk[i];
      for j := 0 to |entry.files|
        invariant imageFiles == ImagesOf(walk[..i]) + ImagesIn(entry.root, entry.files[..j])
      {
        assert entry.files[..j + 1][..j] == entry.files[..j];
        if IsImageFile(entry.files[j]) {
          imageFiles := imageFiles + [JoinPath(entry.root, entry.files[j])];
        }
      }
      assert entry.files[..|entry.files|] == entry.files;
      assert walk[..i + 1][..i] == walk[..i];
    }
    assert walk[..|walk|] == walk;
  }

  // ---------------------------------------------------------------------------
  // --target_list
  // ---------------------------------------------------------------------------

  /** The `--target_list` converter: split on "," and strip every item; empty
      items are kept. */
  function ParseTargetList(s: string): (r: seq<string>)
    ensures |r| == |Split(s, ',')| == Count(s, ',') + 1
    ensures forall k :: 0 <= k < |r| ==> r[k] == Strip(Split(s, ',')[k])
  {
    SplitCount(s, ',');
    var parts := Split(s, ',');
    seq(|parts|, k requires 0 <= k < |parts| => Strip(parts[k]))
  }

  /** Every item is free of commas and has no surrounding whitespace. */
  lemma TargetListItemsClean(s: string)
    ensures forall k :: 0 <= k < |ParseTargetList(s)| ==> ',' !in ParseTargetList(s)[k]
    ensures forall k :: 0 <= k < |ParseTargetList(s)| && ParseTargetList(s)[k] != [] ==>
      !IsSpace(ParseTargetList(s)[k][0]) && !IsSpace(ParseTargetList(s)[k][|ParseTargetList(s)[k]| - 1])
  {
    forall k | 0 <= k < |ParseTargetList(s)| ensures ',' !in ParseTargetList(s)[k] {
      TargetItemClean(s, k);
    }
  }

  lemma TargetItemClean(s: string, k: nat)
    requires k < |ParseTargetList(s)|
    ensures ',' !in ParseTargetList(s)[k]
  {
    var parts := Split(s, ',');
    assert ',' !in parts[k];
    StripKeepsAbsent(parts[k], ',');
  }

  /** A comma splits the list in two: the items of the whole are those of
      the left part followed by those of the right, in order. */
  lemma TargetListAppend(a: string, b: string)
    ensures ParseTargetList(a + "," + b) == ParseTargetList(a) + ParseTargetList(b)
  {
    SplitAppend(a, b, ',');
    assert a + "," + b == a + [','] + b;
  }

  /** A string without a comma is a one-item list: the string stripped. */
  lemma TargetListOfPiece(s: string)
    requires ',' !in s
    ensures ParseTargetList(s) == [Strip(s)]
  {
    SplitPlain(s, ',');
  }

  /** A blank item is kept, as an empty string, at its own position. */
  lemma TargetListKeepsBlankItems(s: string, k: nat)
    requires k < |Split(s, ',')| && AllSpace(Split(s, ',')[k])
    ensures k < |ParseTargetList(s)| && ParseTargetList(s)[k] == ""
  {
    StripEmptyIffAllSpace(Split(s, ',')[k]);
  }

  // ---------------------------------------------------------------------------
  // resolve_target_list
  // ---------------------------------------------------------------------------

  /** `DATA_PATH / name` with DATA_PATH = "data" (pathlib's join, without its
      normalisation of "." and repeated separators). */
  function DataPath(name: string): (p: string)
    ensures name != "" && name[0] != '/' ==> p == "data/" + name
  {
    if name == "" then "data" else if name[0] == '/' then name else "data/" + name
  }

  /** The culture list to use and, when it came from a predefined list, that
      list's name (Python's `False` is `None`). */
  datatype TargetResolution = TargetResolution(targets: seq<string>, predefinedName: Option<string>)

  const IndexErrorMessage := "list index out of range"

  /** `resolve_target_list`: one argument naming a predefined list loads it,
      anything else is returned unchanged. `arg[0]` is read before the length
      test, so an empty argument is an IndexError. */
  function ResolveTargetList(arg: seq<string>, predefined: set<string>,
                             load: string -> Result<seq<string>, string>): (r: Result<TargetResolution, string>)
    ensures arg == [] ==> r == Err(IndexErrorMessage)
    ensures arg != [] && |arg| == 1 && DataPath(arg[0]) in predefined ==>
      (match load(DataPath(arg[0]))
       case Ok(list) => r == Ok(TargetResolution(list, Some(arg[0])))
       case Err(e) => r == Err(e))
    ensures arg != [] && !(|arg| == 1 && DataPath(arg[0]) in predefined) ==>
      r == Ok(TargetResolution(arg, None))
  {
    if arg == [] then Err(IndexErrorMessage)
    else
      var path := DataPath(arg[0]);
      if |arg| == 1 && path in predefined then
        match load(path)
        case Ok(list) => Ok(TargetResolution(list, Some(arg[0])))
        case Err(e) => Err(e)
      else Ok(TargetResolution(arg, None))
  }

  // ---------------------------------------------------------------------------
  // resolve_image_paths
  // ---------------------------------------------------------------------------

  /** What the resolution rule may ask of the file system. */
  datatype FileSystem = FileSystem(isDir: string -> bool, isFile: string -> bool, walk: string -> seq<WalkEntry>)

  /** The resolved image list and whether it came from a folder. */
  datatype ImageSelection = ImageSelection(paths: seq<string>, isFolder: bool)

  const InvalidPathsMessage := "Invalid file paths"

  function ExistingFiles(fs: FileSystem, paths: seq<string>): (r: seq<string>)
    ensures forall x :: x in r <==> x in paths && fs.isFile(x)
    ensures |r| <= |paths|
  {
    if paths == [] then []
    else (if fs.isFile(paths[0]) then [paths[0]] else []) + ExistingFiles(fs, paths[1..])
  }

  /** `resolve_image_paths`. No paths (None or an empty list): the sorted images
      of the default dataset, as a folder. One path that is a directory: the
      sorted images below it, as a folder. Otherwise the sorted paths that are
      existing files, as a list, and FileNotFoundError when there are none. */
  function ResolveImagePaths(imagePaths: Option<seq<string>>, fs: FileSystem, defaultDataset: string): (r: Result<ImageSelection, string>)
    ensures r.Ok? ==> SortedStrings(r.value.paths)
    ensures (imagePaths.None? || imagePaths.value == []) ==>
      r.Ok? && r.value.isFolder && multiset(r.value.paths) == multiset(ImagesOf(fs.walk(defaultDataset)))
    ensures imagePaths.Some? && |imagePaths.value| == 1 && fs.isDir(imagePaths.value[0]) ==>
      r.Ok? && r.value.isFolder && multiset(r.value.paths) == multiset(ImagesOf(fs.walk(imagePaths.value[0])))
    ensures imagePaths.Some? && imagePaths.value != [] && !(|imagePaths.value| == 1 && fs.isDir(imagePaths.value[0])) ==>
      (r.Err? <==> forall p :: p in imagePaths.value ==> !fs.isFile(p)) &&
      (r.Err? ==> r.error == InvalidPathsMessage) &&
      (r.Ok? ==> !r.value.isFolder && multiset(r.value.paths) == multiset(ExistingFiles(fs, imagePaths.value)))
  {
    if imagePaths.Some? && imagePaths.value != [] then
      var ps := imagePaths.value;
      if |ps| == 1 && fs.isDir(ps[0]) then
        Ok(ImageSelection(SortStrings(ImagesOf(fs.walk(ps[0]))), true))
      else
        var valid := ExistingFiles(fs, ps);
        if valid == [] then Err(InvalidPathsMessage)
        else
          assert valid[0] in valid;
          Ok(ImageSelection(SortStrings(valid), false))
    else
      Ok(ImageSelection(SortStrings(ImagesOf(fs.walk(defaultDataset))), true))
  }

  /** The list case keeps exactly the existing files, each as often as given. */
  lemma ResolvedListIsExistingFiles(imagePaths: seq<string>, fs: FileSystem, defaultDataset: string, x: string)
    requires imagePaths != [] && !(|imagePaths| == 1 && fs.isDir(imagePaths[0]))
    requires ResolveImagePaths(Some(imagePaths), fs, defaultDataset).Ok?
    ensures x in ResolveImagePaths(Some(imagePaths), fs, defaultDataset).value.paths <==> x in imagePaths && fs.isFile(x)
  {
    var r := ResolveImagePaths(Some(imagePaths), fs, defaultDataset).value.paths;
    assert x in r <==> x in multiset(r);
    assert x in ExistingFiles(fs, imagePaths) <==> x in multiset(ExistingFiles(fs, imagePaths));
  }

  // ---------------------------------------------------------------------------
  // log_run_metadata
  // ---------------------------------------------------------------------------

  /** The fields of the run arguments that the log row reads. */
  datatype RunArgs = RunArgs(timestamp: string, targetList: seq<string>, predefinedName: Option<string>,
                             imagePaths: seq<string>, isFolder: bool)

  datatype LogRow = LogRow(timestamp: string, imageInputType: string, numImages: nat,
                           imagePaths: string, targets: string)

  /** The non-empty, non-"." components of a path. */
  function Components(p: string): (r: seq<string>)
    ensures forall k :: 0 <= k < |r| ==> r[k] != "" && r[k] != "."
  {
    var parts := Split(p, '/');
    NonTrivial(parts)
  }

  function NonTrivial(parts: seq<string>): (r: seq<string>)
    ensures forall k :: 0 <= k < |r| ==> r[k] != "" && r[k] != "."
  {
    if parts == [] then []
    else (if parts[0] != "" && parts[0] != "." then [parts[0]] else []) + NonTrivial(parts[1..])
  }

  /** `Path(p).parent.name`: the last component of the parent, "" when there is none. */
  function ParentName(p: string): string
  {
    var c := Components(p);
    if |c| >= 2 then c[|c| - 2] else ""
  }

  /** Python truthiness of `is_predefined_list`: a non-empty list name. */
  predicate HasPredefined(args: RunArgs)
  {
    args.predefinedName.Some? && args.predefinedName.value != ""
  }

  /** The row `log_run_metadata` appends. For a folder run the folder name is
      taken from the first path, an IndexError when there is none. */
  function RunLogRow(args: RunArgs): (r: Result<LogRow, string>)
    ensures r.Err? <==> args.isFolder && args.imagePaths == []
    ensures r.Ok? ==> r.value.numImages == |args.imagePaths| && r.value.timestamp == args.timestamp
    ensures r.Ok? ==> r.value.imageInputType == (if args.isFolder then "folder" else "list")
    ensures r.Ok? ==> r.value.targets == (if HasPredefined(args) then args.predefinedName.value else Join(args.targetList, ','))
    ensures r.Ok? && args.isFolder ==> r.value.imagePaths == ParentName(args.imagePaths[0])
    ensures r.Ok? && !args.isFolder ==> r.value.imagePaths == Join(args.imagePaths, ' ')
  {
    if args.isFolder && args.imagePaths == [] then Err(IndexErrorMessage)
    else
      var targets := if HasPredefined(args) then args.predefinedName.value else Join(args.targetList, ',');
      Ok(LogRow(args.timestamp,
                if args.isFolder then "folder" else "list",
                |args.imagePaths|,
                if args.isFolder then ParentName(args.imagePaths[0]) else Join(args.imagePaths, ' '),
                targets))
  }

  /** When the targets were typed in (no predefined list) and contain no comma,
      the logged `targets` field splits back into exactly the target list. */
  lemma LoggedTargetsRoundTrip(args: RunArgs)
    requires !HasPredefined(args) && !(args.isFolder && args.imagePaths == [])
    requires args.targetList != []
    requires forall k :: 0 <= k < |args.targetList| ==> ',' !in args.targetList[k]
    ensures Split(RunLogRow(args).value.targets, ',') == args.targetList
  {
    SplitJoin(args.targetList, ',');
  }
}
