/** scripts/merge_dataset_for_training.py: collecting authentic and tampered
    frames, balancing the two classes, splitting them into train, val and
    test, and naming the copied images and their label files. */
module MergeDataset {
  import opened Wrappers
  import opened Numerics
  import opened Strings
  import Paths

  /** A path `root.rglob("*")` yields, relative to the root: its parts and
      whether it is a directory. */
  datatype Found = Found(parts: seq<string>, isDir: bool)

  function LastPart(f: Found): string
  {
    if f.parts == [] then "" else f.parts[|f.parts| - 1]
  }

  predicate IsImageSuffix(suffix: string)
  {
    suffix == ".jpg" || suffix == ".jpeg" || suffix == ".png"
  }

  /** `p.suffix.lower() in exts`; directories are not excluded. */
  predicate IsImagePath(f: Found)
  {
    IsImageSuffix(Lower(Paths.Suffix(LastPart(f))))
  }

  /** `find_images_recursively`: the image paths, in the walk's order. */
  function FindImages(tree: seq<Found>): (r: seq<Found>)
    ensures |r| <= |tree|
    ensures forall f :: f in r <==> f in tree && IsImagePath(f)
  {
    if tree == [] then []
    else (if IsImagePath(tree[0]) then [tree[0]] else []) + FindImages(tree[1..])
  }

  /** `(img, label, rel_slug)` */
  datatype Item = Item(source: Found, classLabel: int, slug: string)

  /** `"__".join(rel.parts)` */
  function Slug(parts: seq<string>): string
  {
    Join(parts, "__")
  }

  /** `collect_frames` */
  method CollectFrames(tree: seq<Found>, classLabel: int) returns (items: seq<Item>)
    ensures |items| == |FindImages(tree)|
    ensures forall i :: 0 <= i < |items| ==>
      items[i] == Item(FindImages(tree)[i], classLabel, Slug(FindImages(tree)[i].parts))
  {
    var images := FindImages(tree);
    items := [];
    for i := 0 to |images|
      invariant |items| == i
      invariant forall k :: 0 <= k < i ==> items[k] == Item(images[k], classLabel, Slug(images[k].parts))
    {
      var img := images[i];
      items := items + [Item(img, classLabel, Slug(img.parts))];
    }
  }

  /** A Python list of items, which `random.shuffle` permutes in place. */
  class ItemList {
    var items: seq<Item>

    constructor(items: seq<Item>)
      ensures this.items == items
    {
      this.items := items;
    }
  }

  datatype Split = Split(train: seq<Item>, val: seq<Item>, test: seq<Item>)

  /** `SPLIT`: the train and val fractions; test takes the rest. */
  const TrainFraction: real := 0.7
  const ValFraction: real := 0.2

  /** `int(SPLIT[0] * total)` and `int(SPLIT[1] * total)` over exact reals. */
  function SplitSizes(total: nat): (sizes: (nat, nat))
    ensures sizes.0 + sizes.1 <= total
  {
    var nTrain := Trunc(TrainFraction * total as real);
    var nVal := Trunc(ValFraction * total as real);
    assert nTrain as real + nVal as real <= 0.9 * total as real;
    (nTrain, nVal)
  }

  /** The three slices of the shuffled combined list. */
  function Partition(combined: seq<Item>): Split
  {
    var (nTrain, nVal) := SplitSizes(|combined|);
    Split(combined[..nTrain], combined[nTrain..nTrain + nVal], combined[nTrain + nVal..])
  }

  function Min(a: nat, b: nat): nat
  {
    if a <= b then a else b
  }

  /** The two class heads the combined list is shuffled from, once both
      lists have been shuffled; when both names denote one list the second
      shuffle is the one that holds. */
  function Heads(sameList: bool, authOrder: seq<Item>, tampOrder: seq<Item>): seq<Item>
  {
    var n := Min(|authOrder|, |tampOrder|);
    (if sameList then tampOrder else authOrder)[..n] + tampOrder[..n]
  }

  /** `balanced_split(auth_items, tamp_items)`. The three `random.shuffle`
      outcomes are given as `authOrder`, `tampOrder` and `combinedOrder`,
      each a permutation of the list it shuffles. */
  method BalancedSplit(auth: ItemList, tamp: ItemList,
                       authOrder: seq<Item>, tampOrder: seq<Item>, combinedOrder: seq<Item>)
    returns (r: Result<Split>)
    modifies auth, tamp
    requires multiset(authOrder) == multiset(auth.items)
    requires multiset(tampOrder) == multiset(tamp.items)
    requires multiset(combinedOrder)
          == multiset(Heads(auth == tamp, authOrder, tampOrder))
    ensures Min(old(|auth.items|), old(|tamp.items|)) == 0 ==>
      r == Err(RuntimeError) && auth.items == old(auth.items) && tamp.items == old(tamp.items)
    ensures Min(old(|auth.items|), old(|tamp.items|)) > 0 ==>
      r == Ok(Partition(combinedOrder)) && tamp.items == tampOrder && (auth != tamp ==> auth.items == authOrder)
  {
    var n := Min(|auth.items|, |tamp.items|);
    if n == 0 {
      return Err(RuntimeError);
    }
    assert |multiset(authOrder)| == |authOrder| && |multiset(tampOrder)| == |tampOrder|;
    auth.items := authOrder;
    tamp.items := tampOrder;
    var authHead := auth.items[..n];
    var tampHead := tamp.items[..n];
    var combined := authHead + tampHead;
    assert multiset(combinedOrder) == multiset(combined);
    combined := combinedOrder;
    var total := |combined|;
    var nTrain := Trunc(TrainFraction * total as real);
    var nVal := Trunc(ValFraction * total as real);
    r := Ok(Split(combined[..nTrain], combined[nTrain..nTrain + nVal], combined[nTrain + nVal..]));
  }

  /** A copied image and its label file. */
  datatype Copy = Copy(source: Found, image: string, labelFile: string, labelText: string)

  /** The destination name: the slug, with `.jpg` substituted for a suffix
      that is not an image suffix. */
  function ImageName(slug: string): string
  {
    if IsImageSuffix(Lower(Paths.Suffix(slug))) then slug else Paths.WithSuffix(slug, ".jpg")
  }

  /** One iteration of `copy_and_write`. */
  function CopyOf(outRoot: string, splitName: string, item: Item): Result<Copy>
  {
    if item.source.isDir then Err(IsADirectory)
    else
      var imgDir := Paths.Join(Paths.Join(outRoot, splitName), "images");
      var lblDir := Paths.Join(Paths.Join(outRoot, splitName), "labels");
      var name := ImageName(item.slug);
      Ok(Copy(item.source, Paths.Join(imgDir, name), Paths.Join(lblDir, Paths.Stem(name) + ".txt"),
              IntToString(item.classLabel)))
  }

  function CopyResults(outRoot: string, splitName: string, items: seq<Item>): (rs: seq<Result<Copy>>)
    ensures |rs| == |items|
    ensures forall i :: 0 <= i < |items| ==> rs[i] == CopyOf(outRoot, splitName, items[i])
  {
    seq(|items|, i requires 0 <= i < |items| => CopyOf(outRoot, splitName, items[i]))
  }

  /** `copy_and_write`: the copies made, or the first error. */
  method CopyAndWrite(items: seq<Item>, splitName: string, outRoot: string) returns (r: Result<seq<Copy>>)
    ensures r == Collect(CopyResults(outRoot, splitName, items))
  {
    ghost var rs := CopyResults(outRoot, splitName, items);
    var imgDir := Paths.Join(Paths.Join(outRoot, splitName), "images");
    var lblDir := Paths.Join(Paths.Join(outRoot, splitName), "labels");
    var copies: seq<Copy> := [];
    for i := 0 to |items|
      invariant Collect(rs[..i]) == Ok(copies)
    {
      var item := items[i];
      var dstImg := item.slug;
      if !IsImageSuffix(Lower(Paths.Suffix(dstImg))) {
        dstImg := Paths.WithSuffix(dstImg, ".jpg");
      }
      assert dstImg == ImageName(item.slug);
      var dstLbl := Paths.Join(lblDir, Paths.Stem(dstImg) + ".txt");
      if item.source.isDir {
        CollectErr(rs, i);
        return Err(IsADirectory);
      }
      var copy := Copy(item.source, Paths.Join(imgDir, dstImg), dstLbl, IntToString(item.classLabel));
      assert rs[i] == Ok(copy);
      CollectOk(rs, i, copies, copy);
      copies := copies + [copy];
    }
    assert rs[..|items|] == rs;
    return Ok(copies);
  }
}

/** What the dataset merge promises: the partition and its sizes, the class
    balance, and the names of the copied images and label files. */
module MergeDatasetProperties {
  import opened Wrappers
  import opened Numerics
  import opened Strings
  import Paths
  import opened MergeDataset

  /** train, val and test are consecutive slices that make up the combined
      list exactly, with `int(0.7·total)` and `int(0.2·total)` items in the
      first two. */
  lemma PartitionCovers(combined: seq<Item>)
    ensures Partition(combined).train + Partition(combined).val + Partition(combined).test == combined
    ensures |Partition(combined).train| == Trunc(0.7 * |combined| as real)
    ensures |Partition(combined).val| == Trunc(0.2 * |combined| as real)
    ensures |Partition(combined).test| == |combined| - |Partition(combined).train| - |Partition(combined).val|
  {
    var (a, b) := SplitSizes(|combined|);
    assert combined[..a] + combined[a..a + b] + combined[a + b..] == combined;
  }

  /** Ten items split 7 / 2 / 1; two items split 1 / 0 / 1. */
  lemma SplitSizesExamples()
    ensures SplitSizes(10) == (7, 2) && SplitSizes(2) == (1, 0) && SplitSizes(30) == (21, 6)
  {
  }

  function LabelCount(s: seq<Item>, l: int): nat
  {
    if s == [] then 0 else LabelCount(s[..|s| - 1], l) + (if s[|s| - 1].classLabel == l then 1 else 0)
  }

  lemma {:induction false} LabelCountAppend(a: seq<Item>, b: seq<Item>, l: int)
    ensures LabelCount(a + b, l) == LabelCount(a, l) + LabelCount(b, l)
    decreases |b|
  {
    if b == [] {
      assert a + b == a;
    } else {
      assert (a + b)[..|a + b| - 1] == a + b[..|b| - 1];
      LabelCountAppend(a, b[..|b| - 1], l);
    }
  }

  /** Counting a label does not depend on the order of the items. */
  lemma {:induction false} LabelCountPermutation(a: seq<Item>, b: seq<Item>, l: int)
    requires multiset(a) == multiset(b)
    ensures LabelCount(a, l) == LabelCount(b, l)
    decreases |a|
  {
    if a != [] {
      var x := a[|a| - 1];
      assert x in multiset(b);
      var j :| 0 <= j < |b| && b[j] == x;
      var b' := b[..j] + b[j + 1..];
      assert b == b[..j] + [x] + b[j + 1..];
      assert a == a[..|a| - 1] + [x];
      assert multiset(a) == multiset(a[..|a| - 1]) + multiset{x};
      assert multiset(b) == multiset(b[..j]) + multiset{x} + multiset(b[j + 1..]);
      assert multiset(b') == multiset(b[..j]) + multiset(b[j + 1..]);
      assert multiset(a[..|a| - 1]) == multiset(a) - multiset{x};
      assert multiset(b') == multiset(b) - multiset{x};
      LabelCountPermutation(a[..|a| - 1], b', l);
      LabelCountAppend(b[..j] + [x], b[j + 1..], l);
      LabelCountAppend(b[..j], [x], l);
      LabelCountAppend(b[..j], b[j + 1..], l);
    }
  }

  lemma {:induction false} LabelCountUniform(s: seq<Item>, l: int)
    requires forall i :: 0 <= i < |s| ==> s[i].classLabel == l
    ensures LabelCount(s, l) == |s|
    ensures forall m :: m != l ==> LabelCount(s, m) == 0
  {
    if s != [] {
      LabelCountUniform(s[..|s| - 1], l);
    }
  }

  /** With authentic items labelled 0 and tampered items labelled 1, the
      combined list holds n = min(|auth|, |tamp|) items of each class. */
  lemma BalancedClasses(authOrder: seq<Item>, tampOrder: seq<Item>, combined: seq<Item>)
    requires forall i :: 0 <= i < |authOrder| ==> authOrder[i].classLabel == 0
    requires forall i :: 0 <= i < |tampOrder| ==> tampOrder[i].classLabel == 1
    requires multiset(combined) == multiset(Heads(false, authOrder, tampOrder))
    ensures |combined| == 2 * Min(|authOrder|, |tampOrder|)
    ensures LabelCount(combined, 0) == Min(|authOrder|, |tampOrder|)
    ensures LabelCount(combined, 1) == Min(|authOrder|, |tampOrder|)
  {
    var n := Min(|authOrder|, |tampOrder|);
    var heads := Heads(false, authOrder, tampOrder);
    assert |multiset(combined)| == |combined| && |multiset(heads)| == |heads|;
    LabelCountPermutation(combined, heads, 0);
    LabelCountPermutation(combined, heads, 1);
    LabelCountAppend(authOrder[..n], tampOrder[..n], 0);
    LabelCountAppend(authOrder[..n], tampOrder[..n], 1);
    LabelCountUniform(authOrder[..n], 0);
    LabelCountUniform(tampOrder[..n], 1);
  }

  /** A collected image's slug already ends in its image suffix, so the
      `.jpg` substitution never applies to it. */
  lemma {:induction false} SlugKeepsSuffix(parts: seq<string>)
    requires parts != []
    requires Paths.SuffixDot(parts[|parts| - 1]) >= 0
    ensures Paths.Suffix(Slug(parts)) == Paths.Suffix(parts[|parts| - 1])
  {
    if |parts| > 1 {
      Paths.SuffixAppend(Slug(parts[..|parts| - 1]) + "__", parts[|parts| - 1]);
    }
  }

  lemma CollectedNameKept(f: Found)
    requires f.parts != [] && IsImagePath(f)
    ensures ImageName(Slug(f.parts)) == Slug(f.parts)
  {
    assert Paths.Suffix(LastPart(f)) != "";
    SlugKeepsSuffix(f.parts);
  }

  /** Every destination name has an image suffix. */
  lemma ImageNameIsImage(slug: string)
    requires slug != []
    ensures IsImageSuffix(Lower(Paths.Suffix(ImageName(slug))))
  {
    if !IsImageSuffix(Lower(Paths.Suffix(slug))) {
      Paths.WithSuffixSuffix(slug, ".jpg");
      var l := Lower(".jpg");
      assert l == ".jpg" by {
        assert l[0] == '.' && l[1] == 'j' && l[2] == 'p' && l[3] == 'g';
      }
    }
  }

  /** A collected file is copied under its slug into `images/`, and its label
      file `<stem>.txt` in `labels/` holds the class label as a decimal
      numeral that reads back as the label. */
  lemma CopyNaming(outRoot: string, splitName: string, f: Found, classLabel: nat)
    requires f.parts != [] && IsImagePath(f) && !f.isDir
    ensures CopyOf(outRoot, splitName, Item(f, classLabel, Slug(f.parts))) == Ok(Copy(f,
      Paths.Join(Paths.Join(Paths.Join(outRoot, splitName), "images"), Slug(f.parts)),
      Paths.Join(Paths.Join(Paths.Join(outRoot, splitName), "labels"), Paths.Stem(Slug(f.parts)) + ".txt"),
      IntToString(classLabel)))
    ensures ParseDecimal(IntToString(classLabel)) == classLabel
  {
    CollectedNameKept(f);
    ParseDecimalDigits(classLabel);
  }

  /** The slug is not injective: two different relative paths can share
      one destination name, and the later copy overwrites the earlier. */
  lemma SlugCollision()
    ensures ["a__b", "c.jpg"] != ["a", "b__c.jpg"]
    ensures Slug(["a__b", "c.jpg"]) == Slug(["a", "b__c.jpg"]) == "a__b__c.jpg"
  {
    assert ["a__b", "c.jpg"][..1] == ["a__b"];
    assert ["a", "b__c.jpg"][..1] == ["a"];
  }

  /** The suffix test does not look at the kind of path: a directory named
      like an image is collected, and copying it fails. */
  lemma DirectoryNamedLikeImage()
    ensures FindImages([Found(["clip.png"], true)]) == [Found(["clip.png"], true)]
    ensures CopyOf("out", "train", Item(Found(["clip.png"], true), 1, "clip.png")) == Err(IsADirectory)
  {
    assert Paths.RFind("clip.png", '.') == 4 by {
      assert "clip.png"[..7][..6][..5] == "clip.";
    }
    assert Paths.Suffix("clip.png") == ".png";
    assert Lower(".png") == ".png";
  }
}
