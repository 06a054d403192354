/** Image collection: the walk over the configured directories that gathers
    every regular file with a `jpg` or `png` extension (`load_images` in
    src/main.rs). The file system is replaced by a snapshot of what each
    configured directory held when it was read. */
module Images {
  import opened Wrappers

  /** A directory entry as the listing reports it: whether its path is a
      regular file, its extension if the path has one, and the path as text. */
  datatype Entry = Entry(isFile: bool, ext: Option<string>, path: string)

  /** One step of iterating over a directory listing: an entry, or the I/O
      error that the iteration reported in its place. */
  datatype Item = Read(entry: Entry) | Failed

  /** A configured directory in the snapshot: absent, present but impossible
      to open, or present with its listing in iteration order. */
  datatype Dir = Missing | Unreadable | Listing(items: seq<Item>)

  /** A successful collection: never empty. */
  type ImageList = s: seq<string> | |s| > 0 witness [""]

  /** Why no image list could be produced. */
  datatype LoadError = IoError | NoImages

  /** An entry is an image when it is a regular file whose extension is
      exactly "jpg" or "png"; the comparison is case-sensitive. */
  predicate IsImage(e: Entry)
  {
    e.isFile && e.ext.Some? && (e.ext.value == "jpg" || e.ext.value == "png")
  }

  /** The item at position `j` of a listing is an image entry. */
  predicate ImageItem(items: seq<Item>, j: int)
  {
    0 <= j < |items| && items[j].Read? && IsImage(items[j].entry)
  }

  /** Entry `j` of directory `i` is an image entry of a directory that exists. */
  predicate ImageAt(dirs: seq<Dir>, i: int, j: int)
  {
    0 <= i < |dirs| && dirs[i].Listing? && ImageItem(dirs[i].items, j)
  }

  /** Paths of the image entries of a listing, in listing order. */
  function Pictures(items: seq<Item>): seq<string>
  {
    if |items| == 0 then []
    else
      var last := items[|items| - 1];
      Pictures(items[..|items| - 1]) + (if last.Read? && IsImage(last.entry) then [last.entry.path] else [])
  }

  /** Paths of the image entries of all existing directories: directories in
      the configured order, each listing in its own order. */
  function Found(dirs: seq<Dir>): seq<string>
  {
    if |dirs| == 0 then []
    else
      var last := dirs[|dirs| - 1];
      Found(dirs[..|dirs| - 1]) + (if last.Listing? then Pictures(last.items) else [])
  }

  /** The iteration over a listing reported an error somewhere. */
  predicate ItemFault(items: seq<Item>)
  {
    exists j :: 0 <= j < |items| && items[j].Failed?
  }

  /** Some existing directory could not be opened or its listing reported an
      error; a missing directory is never a fault. */
  predicate IoFault(dirs: seq<Dir>)
  {
    exists i :: 0 <= i < |dirs| && (dirs[i].Unreadable? || (dirs[i].Listing? && ItemFault(dirs[i].items)))
  }

  /** Reference definition of the collection's result: an I/O fault anywhere
      wins, an empty collection is an error, otherwise the collected paths. */
  function Load(dirs: seq<Dir>): Result<ImageList, LoadError>
  {
    if IoFault(dirs) then Err(IoError)
    else if |Found(dirs)| == 0 then Err(NoImages)
    else Ok(Found(dirs))
  }

  /** The collection as the program performs it: one pass over the
      directories, skipping missing ones, appending every image entry of the
      others, and giving up on the first I/O error. */
  method LoadImages(dirs: seq<Dir>) returns (r: Result<ImageList, LoadError>)
    ensures r == Load(dirs)
  {
    var images: seq<string> := [];
    var k := 0;
    while k < |dirs|
      invariant 0 <= k <= |dirs|
      invariant !IoFault(dirs[..k])
      invariant images == Found(dirs[..k])
    {
      var d := dirs[k];
      if d.Unreadable? {
        return Err(IoError);
      } else if d.Listing? {
        var items := d.items;
        var j := 0;
        while j < |items|
          invariant 0 <= j <= |items|
          invariant !ItemFault(items[..j])
          invariant images == Found(dirs[..k]) + Pictures(items[..j])
        {
          var it := items[j];
          if it.Failed? {
            assert ItemFault(dirs[k].items) by { assert dirs[k].items[j].Failed?; }
            return Err(IoError);
          }
          var e := it.entry;
          if e.isFile && e.ext.Some? {
            if e.ext.value == "jpg" || e.ext.value == "png" {
              images := images + [e.path];
            }
          }
          assert items[..j + 1][..j] == items[..j];
          j := j + 1;
        }
        assert items[..j] == items;
      }
      // a missing directory is skipped with a warning
      assert dirs[..k + 1][..k] == dirs[..k];
      k := k + 1;
    }
    assert dirs[..k] == dirs;
    if |images| == 0 {
      return Err(NoImages);
    }
    return Ok(images);
  }

  /** Positions of the image entries of a listing whose path is `p`. */
  function ImageSlots(items: seq<Item>, p: string): set<nat>
  {
    set j: nat | j < |items| && ImageItem(items, j) && items[j].entry.path == p
  }

  /** Listings concatenate: the images of `x + y` are those of `x` followed
      by those of `y`. */
  lemma {:induction false} PicturesAppend(x: seq<Item>, y: seq<Item>)
    ensures Pictures(x + y) == Pictures(x) + Pictures(y)
    decreases |y|
  {
    if |y| == 0 {
      assert x + y == x;
    } else {
      var n := |y| - 1;
      var last := y[n];
      var tail := if last.Read? && IsImage(last.entry) then [last.entry.path] else [];
      assert (x + y)[..|x + y| - 1] == x + y[..n];
      assert (x + y)[|x + y| - 1] == last;
      assert Pictures(x + y) == Pictures(x + y[..n]) + tail;
      PicturesAppend(x, y[..n]);
      assert Pictures(y) == Pictures(y[..n]) + tail;
    }
  }

  /** Directory lists concatenate: the images of `a + b` are those of `a`
      followed by those of `b`, so the configured order is kept. */
  lemma {:induction false} FoundAppend(a: seq<Dir>, b: seq<Dir>)
    ensures Found(a + b) == Found(a) + Found(b)
    decreases |b|
  {
    if |b| == 0 {
      assert a + b == a;
    } else {
      var n := |b| - 1;
      var last := b[n];
      var tail := if last.Listing? then Pictures(last.items) else [];
      assert (a + b)[..|a + b| - 1] == a + b[..n];
      assert (a + b)[|a + b| - 1] == last;
      assert Found(a + b) == Found(a + b[..n]) + tail;
      FoundAppend(a, b[..n]);
      assert Found(b) == Found(b[..n]) + tail;
    }
  }

  /** A path is among a listing's pictures exactly when some image entry of
      the listing has that path. */
  lemma {:induction false} PicturesMember(items: seq<Item>, p: string)
    ensures p in Pictures(items) <==> exists j :: ImageItem(items, j) && items[j].entry.path == p
    decreases |items|
  {
    if |items| > 0 {
      var n := |items| - 1;
      var front := items[..n];
      PicturesMember(front, p);
      if exists j :: ImageItem(items, j) && items[j].entry.path == p {
        var j :| ImageItem(items, j) && items[j].entry.path == p;
        if j < n {
          assert ImageItem(front, j) && front[j].entry.path == p;
        }
      }
      if exists j :: ImageItem(front, j) && front[j].entry.path == p {
        var j :| ImageItem(front, j) && front[j].entry.path == p;
        assert ImageItem(items, j) && items[j].entry.path == p;
      }
    }
  }

  /** Every image entry of a listing contributes its path exactly once: the
      number of occurrences of `p` among the pictures is the number of image
      entries whose path is `p`. */
  lemma {:induction false} PicturesMultiplicity(items: seq<Item>, p: string)
    ensures multiset(Pictures(items))[p] == |ImageSlots(items, p)|
    decreases |items|
  {
    if |items| == 0 {
      assert ImageSlots(items, p) == {};
    } else {
      var n := |items| - 1;
      var front := items[..n];
      PicturesMultiplicity(front, p);
      var last := items[n];
      var tail := if last.Read? && IsImage(last.entry) then [last.entry.path] else [];
      assert Pictures(items) == Pictures(front) + tail;
      assert multiset(Pictures(items)) == multiset(Pictures(front)) + multiset(tail);
      SlotsStep(items, p);
    }
  }

  /** How the positions of `p`'s image entries grow by one item. */
  lemma SlotsStep(items: seq<Item>, p: string)
    requires |items| > 0
    ensures var n := |items| - 1;
      ImageSlots(items, p)
        == ImageSlots(items[..n], p) + (if ImageItem(items, n) && items[n].entry.path == p then {n} else {})
    ensures |items| - 1 !in ImageSlots(items[..|items| - 1], p)
  {
  }

  /** Every collected path is that of an image entry of an existing
      directory. */
  lemma {:induction false} FoundSound(dirs: seq<Dir>, p: string)
    requires p in Found(dirs)
    ensures exists i, j :: ImageAt(dirs, i, j) && dirs[i].items[j].entry.path == p
    decreases |dirs|
  {
    var n := |dirs| - 1;
    var front := dirs[..n];
    var last := dirs[n];
    if p in Found(front) {
      FoundSound(front, p);
      var i, j :| ImageAt(front, i, j) && front[i].items[j].entry.path == p;
      assert ImageAt(dirs, i, j) && dirs[i].items[j].entry.path == p;
    } else {
      assert last.Listing? && p in Pictures(last.items);
      PicturesMember(last.items, p);
      var j :| ImageItem(last.items, j) && last.items[j].entry.path == p;
      assert ImageAt(dirs, n, j) && dirs[n].items[j].entry.path == p;
    }
  }

  /** The path of every image entry of an existing directory is collected. */
  lemma {:induction false} FoundComplete(dirs: seq<Dir>, i: int, j: int)
    requires ImageAt(dirs, i, j)
    ensures dirs[i].items[j].entry.path in Found(dirs)
    decreases |dirs|
  {
    var n := |dirs| - 1;
    var front := dirs[..n];
    var p := dirs[i].items[j].entry.path;
    if i < n {
      assert ImageAt(front, i, j);
      FoundComplete(front, i, j);
    } else {
      PicturesMember(dirs[n].items, p);
    }
  }

  /** A path is collected exactly when some existing directory holds an
      image entry with that path. */
  lemma FoundMember(dirs: seq<Dir>, p: string)
    ensures p in Found(dirs) <==> exists i, j :: ImageAt(dirs, i, j) && dirs[i].items[j].entry.path == p
  {
    if p in Found(dirs) {
      FoundSound(dirs, p);
    }
    if exists i, j :: ImageAt(dirs, i, j) && dirs[i].items[j].entry.path == p {
      var i, j :| ImageAt(dirs, i, j) && dirs[i].items[j].entry.path == p;
      FoundComplete(dirs, i, j);
    }
  }

  /** The collection fails with `NoImages` exactly when no directory could
      fail with an I/O error and no existing directory holds an image entry. */
  lemma LoadNoImagesIff(dirs: seq<Dir>)
    ensures Load(dirs) == Err(NoImages) <==> !IoFault(dirs) && forall i, j :: !ImageAt(dirs, i, j)
  {
    if |Found(dirs)| > 0 {
      var p := Found(dirs)[0];
      FoundMember(dirs, p);
    }
    if exists i, j :: ImageAt(dirs, i, j) {
      var i, j :| ImageAt(dirs, i, j);
      FoundMember(dirs, dirs[i].items[j].entry.path);
    }
  }

  /** On success the collection holds only image entries of existing
      directories, and all of them. */
  lemma LoadOkMember(dirs: seq<Dir>, p: string)
    requires Load(dirs).Ok?
    ensures p in Load(dirs).value <==> exists i, j :: ImageAt(dirs, i, j) && dirs[i].items[j].entry.path == p
  {
    FoundMember(dirs, p);
  }

  /** A missing directory contributes nothing and causes no error: the
      directories after it are processed as if it were not configured. */
  lemma MissingSkipped(a: seq<Dir>, b: seq<Dir>)
    ensures Load(a + [Missing] + b) == Load(a + b)
  {
    var with := a + [Missing] + b;
    var without := a + b;
    FoundAppend(a + [Missing], b);
    FoundAppend(a, [Missing]);
    assert [Missing][..0] == [];
    assert Found([Missing]) == [];
    FoundAppend(a, b);
    assert Found(with) == Found(without);
    if IoFault(with) {
      var i :| 0 <= i < |with| && (with[i].Unreadable? || (with[i].Listing? && ItemFault(with[i].items)));
      if i < |a| {
        assert with[i] == without[i];
      } else {
        assert with[i] == without[i - 1];
      }
      assert IoFault(without);
    }
    if IoFault(without) {
      var i :| 0 <= i < |without| && (without[i].Unreadable? || (without[i].Listing? && ItemFault(without[i].items)));
      if i < |a| {
        assert with[i] == without[i];
      } else {
        assert with[i + 1] == without[i];
      }
      assert IoFault(with);
    }
  }
}
