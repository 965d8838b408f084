/** `remote_build_list`: the recursive listing of a remote directory tree. */
module SyncTree {
  import opened Bytes
  import opened SyncMessages
  import opened SyncService
  import opened SyncClient
  import opened SyncTransfers

  const SLASH: byte := 47
  const DOT: byte := 46

  predicate IsDir(mode: uint32) { mode / 0x1000 % 16 == 4 }
  predicate IsLink(mode: uint32) { mode / 0x1000 % 16 == 10 }

  /** The test that keeps the recursion out of "." and "..". */
  predicate IsDots(name: seq<byte>) {
    name == [DOT] || name == [DOT, DOT]
  }

  // ---- a remote tree ----

  /** An entry of a directory: a directory with its own entries, "." or "..", or anything else. */
  datatype Item =
    | Sub(dent: Dent, items: seq<Item>)
    | Dots(dent: Dent)
    | Leaf(dent: Dent)

  ghost predicate ItemOk(it: Item) {
    && 0 !in it.dent.name
    && match it
       case Sub(e, items) => DirMode(e.mode) && e.name != [46] && e.name != [46, 46] && ItemsOk(items)
       case Dots(e) => DirMode(e.mode) && (e.name == [46] || e.name == [46, 46])
       case Leaf(e) => !DirMode(e.mode)
  }

  /** The file type bits of a directory; and of a regular file or a link. */
  predicate DirMode(mode: uint32) { mode % 0x1_0000 - mode % 0x1000 == 0x4000 }

  predicate FileMode(mode: uint32) {
    mode % 0x1_0000 - mode % 0x1000 == 0x8000 || mode % 0x1_0000 - mode % 0x1000 == 0xa000
  }

  lemma Modes(mode: uint32)
    ensures DirMode(mode) <==> IsDir(mode)
    ensures FileMode(mode) <==> IsRegular(mode) || IsLink(mode)
  {
    var q, r := mode / 0x1000, mode % 0x1000;
    var h, l := q / 16, q % 16;
    assert mode == 0x1_0000 * h + (0x1000 * l + r);
    LowPart(mode, h, 0x1000 * l + r);
  }

  lemma LowPart(x: nat, h: nat, y: nat)
    requires x == 0x1_0000 * h + y && y < 0x1_0000
    ensures x % 0x1_0000 == y
  {
  }

  ghost predicate ItemsOk(items: seq<Item>) {
    forall i :: 0 <= i < |items| ==> ItemOk(items[i])
  }

  function Dents(items: seq<Item>): seq<Dent> {
    if items == [] then [] else [items[0].dent] + Dents(items[1..])
  }

  /** The entries that LIST reports: names of at most 256 bytes. */
  function Visible(items: seq<Item>): (v: seq<Item>)
    ensures forall i :: 0 <= i < |v| ==> v[i] in items && |v[i].dent.name| <= NAME_MAX
  {
    if items == [] then []
    else
      var v := Visible(items[1..]);
      assert forall it :: it in items[1..] ==> it in items;
      if |items[0].dent.name| > NAME_MAX then v else [items[0]] + v
  }

  function Below(path: Path, name: seq<byte>): Path { path + name + [SLASH] }

  /** The device's directories at and below `rpath` are those of the tree. */
  ghost predicate Serves(d: Disk, rpath: Path, items: seq<Item>)
    decreases items
  {
    && rpath in d.dirs && d.dirs[rpath] == Dents(items)
    && forall i :: 0 <= i < |items| && Descends(items[i]) ==> Serves(d, Below(rpath, items[i].dent.name), items[i].items)
  }

  /** The entries the walk goes down into. */
  predicate Descends(it: Item) { it.Sub? && |it.dent.name| <= NAME_MAX }

  /** Every directory that the walk reaches has a path the client may ask for. */
  ghost predicate Fits(rpath: Path, items: seq<Item>)
    decreases items
  {
    && |rpath| <= MAX_NAME
    && forall i :: 0 <= i < |items| && Descends(items[i]) ==> Fits(Below(rpath, items[i].dent.name), items[i].items)
  }

  // ---- what should be collected ----

  datatype CopyInfo = CopyInfo(src: Path, dst: Path, time: uint32, mode: uint32, size: uint32)

  function FileInfo(rpath: Path, lpath: Path, e: Dent): CopyInfo {
    CopyInfo(rpath + e.name, lpath + e.name, e.time, e.mode, e.size)
  }

  predicate Wanted(e: Dent) { IsRegular(e.mode) || IsLink(e.mode) }

  /** All files of the tree, each with source and destination under the same relative name. */
  function Files(rpath: Path, lpath: Path, items: seq<Item>): seq<CopyInfo>
    decreases items, 0
  {
    if items == [] then [] else ItemFiles(rpath, lpath, items[0]) + Files(rpath, lpath, items[1..])
  }

  function ItemFiles(rpath: Path, lpath: Path, it: Item): seq<CopyInfo>
    decreases it, 1
  {
    if |it.dent.name| > NAME_MAX then []
    else
      match it
      case Leaf(e) => if Wanted(e) then [FileInfo(rpath, lpath, e)] else []
      case Sub(e, items) => Files(Below(rpath, e.name), Below(lpath, e.name), items)
      case Dots(_) => []
  }

  /** Source and destination lie under the same relative name. */
  ghost predicate SameRelative(rpath: Path, lpath: Path, ci: CopyInfo) {
    exists rel: Path :: Relates(rpath, lpath, ci, rel)
  }

  predicate Relates(rpath: Path, lpath: Path, ci: CopyInfo, rel: Path) {
    ci.src == rpath + rel && ci.dst == lpath + rel
  }

  lemma {:induction false} FilesRelate(rpath: Path, lpath: Path, items: seq<Item>, ci: CopyInfo)
    requires ci in Files(rpath, lpath, items)
    ensures SameRelative(rpath, lpath, ci)
    decreases items, 0
  {
    if ci in ItemFiles(rpath, lpath, items[0]) {
      ItemRelates(rpath, lpath, items[0], ci);
    } else {
      FilesRelate(rpath, lpath, items[1..], ci);
    }
  }

  lemma {:induction false} ItemRelates(rpath: Path, lpath: Path, it: Item, ci: CopyInfo)
    requires ci in ItemFiles(rpath, lpath, it)
    ensures SameRelative(rpath, lpath, ci)
    decreases it, 1
  {
    match it {
      case Leaf(e) => assert Relates(rpath, lpath, ci, e.name);
      case Sub(e, items) =>
        FilesRelate(Below(rpath, e.name), Below(lpath, e.name), items, ci);
        var rel: Path :| Relates(Below(rpath, e.name), Below(lpath, e.name), ci, rel);
        RelateBelow(rpath, e.name, rel);
        RelateBelow(lpath, e.name, rel);
        assert Relates(rpath, lpath, ci, e.name + [SLASH] + rel);
    }
  }

  lemma RelateBelow(path: Path, name: Path, rel: Path)
    ensures Below(path, name) + rel == path + (name + [SLASH] + rel)
  {
  }

  /** Entry `e` of the tree lies at the relative name `rel`: the way down leads through directories other
      than "." and "..", and no name on it has more than 256 bytes. */
  ghost predicate Reaches(items: seq<Item>, rel: Path, e: Dent)
    decreases items, 0
  {
    exists i :: 0 <= i < |items| && ReachesVia(items[i], rel, e)
  }

  ghost predicate ReachesVia(it: Item, rel: Path, e: Dent)
    decreases it, 1
  {
    var n := |it.dent.name|;
    && n <= 256
    && ( (e == it.dent && rel == e.name)
         || (it.Sub? && |rel| > n && rel[..n + 1] == it.dent.name + [SLASH] && Reaches(it.items, rel[n + 1..], e)) )
  }

  /** `ci` is the copy of a regular file or link of the tree, with its time, mode and size, and source
      and destination under the same relative name. */
  ghost predicate Copies(rpath: Path, lpath: Path, items: seq<Item>, ci: CopyInfo, rel: Path, e: Dent) {
    && Reaches(items, rel, e) && FileMode(e.mode)
    && ci == CopyInfo(rpath + rel, lpath + rel, e.time, e.mode, e.size)
  }

  lemma DownBytes(path: Path, name: Path, rel: Path)
    ensures
      var down := name + [SLASH] + rel;
      && |down| > |name| && down[..|name| + 1] == name + [SLASH] && down[|name| + 1..] == rel
      && Below(path, name) + rel == path + down
  {
    RelateBelow(path, name, rel);
  }

  /** Whatever is collected is such a copy. */
  lemma {:induction false} FilesSound(rpath: Path, lpath: Path, items: seq<Item>, ci: CopyInfo) returns (rel: Path, e: Dent)
    requires ItemsOk(items) && ci in Files(rpath, lpath, items)
    ensures Copies(rpath, lpath, items, ci, rel, e)
    decreases items, 0
  {
    if ci in ItemFiles(rpath, lpath, items[0]) {
      rel, e := ItemSound(rpath, lpath, items[0], ci);
    } else {
      rel, e := FilesSound(rpath, lpath, items[1..], ci);
      var i :| 0 <= i < |items[1..]| && ReachesVia(items[1..][i], rel, e);
      assert items[1..][i] == items[i + 1];
    }
  }

  lemma {:induction false} ItemSound(rpath: Path, lpath: Path, it: Item, ci: CopyInfo) returns (rel: Path, e: Dent)
    requires ItemOk(it) && ci in ItemFiles(rpath, lpath, it)
    ensures ReachesVia(it, rel, e) && FileMode(e.mode) && ci == CopyInfo(rpath + rel, lpath + rel, e.time, e.mode, e.size)
    decreases it, 1
  {
    match it {
      case Leaf(d) =>
        Modes(d.mode);
        rel, e := d.name, d;
      case Sub(d, items) =>
        var below;
        below, e := FilesSound(Below(rpath, d.name), Below(lpath, d.name), items, ci);
        DownBytes(rpath, d.name, below);
        DownBytes(lpath, d.name, below);
        rel := d.name + [SLASH] + below;
    }
  }

  lemma {:induction false} ItemIn(rpath: Path, lpath: Path, items: seq<Item>, i: nat, ci: CopyInfo)
    requires i < |items| && ci in ItemFiles(rpath, lpath, items[i])
    ensures ci in Files(rpath, lpath, items)
  {
    if i > 0 {
      ItemIn(rpath, lpath, items[1..], i - 1, ci);
    }
  }

  /** Every such copy is collected. */
  lemma {:induction false} FilesComplete(rpath: Path, lpath: Path, items: seq<Item>, ci: CopyInfo, rel: Path, e: Dent)
    requires ItemsOk(items) && Copies(rpath, lpath, items, ci, rel, e)
    ensures ci in Files(rpath, lpath, items)
    decreases items, 0
  {
    var i :| 0 <= i < |items| && ReachesVia(items[i], rel, e);
    assert ItemOk(items[i]);
    ItemComplete(rpath, lpath, items[i], ci, rel, e);
    ItemIn(rpath, lpath, items, i, ci);
  }

  lemma {:induction false} ItemComplete(rpath: Path, lpath: Path, it: Item, ci: CopyInfo, rel: Path, e: Dent)
    requires ItemOk(it) && ReachesVia(it, rel, e) && FileMode(e.mode)
    requires ci == CopyInfo(rpath + rel, lpath + rel, e.time, e.mode, e.size)
    ensures ci in ItemFiles(rpath, lpath, it)
    decreases it, 1
  {
    Modes(e.mode);
    if e == it.dent && rel == e.name {
      assert it.Leaf?;
      assert ItemFiles(rpath, lpath, it) == [FileInfo(rpath, lpath, e)];
    } else {
      var n := |it.dent.name|;
      var below := rel[n + 1..];
      assert rel == it.dent.name + [SLASH] + below;
      DownBytes(rpath, it.dent.name, below);
      DownBytes(lpath, it.dent.name, below);
      FilesComplete(Below(rpath, it.dent.name), Below(lpath, it.dent.name), it.items, ci, below, e);
    }
  }

  /** Every directory of the walk has a path of at most 1024 bytes, its closing slash included. */
  ghost predicate PathsShort(rpath: Path, items: seq<Item>) {
    && |rpath| <= 1024
    && forall rel, e :: Reaches(items, rel, e) && DirMode(e.mode) && e.name != [46] && e.name != [46, 46] ==> |rpath + rel| + 1 <= 1024
  }

  lemma {:induction false} FitsShort(rpath: Path, items: seq<Item>, rel: Path, e: Dent)
    requires ItemsOk(items) && Fits(rpath, items)
    requires Reaches(items, rel, e) && DirMode(e.mode) && e.name != [46] && e.name != [46, 46]
    ensures |rpath + rel| + 1 <= 1024
    decreases items
  {
    var i :| 0 <= i < |items| && ReachesVia(items[i], rel, e);
    var it := items[i];
    assert ItemOk(it);
    if e == it.dent && rel == e.name {
      assert Descends(it);
    } else {
      assert Descends(it);
      FitsShort(Below(rpath, it.dent.name), items[i].items, rel[|it.dent.name| + 1..], e);
    }
  }

  lemma {:induction false} ShortFits(rpath: Path, items: seq<Item>)
    requires ItemsOk(items) && PathsShort(rpath, items)
    ensures Fits(rpath, items)
    decreases items
  {
    forall i | 0 <= i < |items| && Descends(items[i])
      ensures Fits(Below(rpath, items[i].dent.name), items[i].items)
    {
      ShortBelow(rpath, items, i);
      assert ItemOk(items[i]);
      ShortFits(Below(rpath, items[i].dent.name), items[i].items);
    }
  }

  lemma ShortBelow(rpath: Path, items: seq<Item>, i: nat)
    requires ItemsOk(items) && PathsShort(rpath, items) && i < |items| && Descends(items[i])
    ensures PathsShort(Below(rpath, items[i].dent.name), items[i].items)
  {
    var it := items[i];
    assert ItemOk(it);
    assert ReachesVia(it, it.dent.name, it.dent);
    assert Reaches(items, it.dent.name, it.dent);
    forall rel, e | Reaches(it.items, rel, e) && DirMode(e.mode) && e.name != [46] && e.name != [46, 46]
      ensures |Below(rpath, it.dent.name) + rel| + 1 <= 1024
    {
      var down := it.dent.name + [SLASH] + rel;
      DownBytes(rpath, it.dent.name, rel);
      assert ReachesVia(it, down, e);
      assert Reaches(items, down, e);
    }
  }

  lemma FitsExactly(rpath: Path, items: seq<Item>)
    requires ItemsOk(items)
    ensures Fits(rpath, items) <==> PathsShort(rpath, items)
  {
    if Fits(rpath, items) {
      forall rel, e | Reaches(items, rel, e) && DirMode(e.mode) && e.name != [46] && e.name != [46, 46]
        ensures |rpath + rel| + 1 <= 1024
      {
        FitsShort(rpath, items, rel, e);
      }
    }
    if PathsShort(rpath, items) {
      ShortFits(rpath, items);
    }
  }

  /** As in a file system: within a directory no name occurs twice, and none contains a slash. */
  ghost predicate Tidy(items: seq<Item>) {
    && (forall i :: 0 <= i < |items| ==> SLASH !in items[i].dent.name && (items[i].Sub? ==> Tidy(items[i].items)))
    && (forall i, j :: 0 <= i < j < |items| ==> items[i].dent.name != items[j].dent.name)
  }

  /** No source is listed twice. */
  ghost predicate SourcesOnce(m: multiset<CopyInfo>) {
    && (forall a :: a in m ==> m[a] == 1)
    && (forall a, b :: a in m && b in m && a.src == b.src ==> a == b)
  }

  /** `src` is the entry `name` of directory `rpath`, or lies below it. */
  predicate StartsAt(rpath: Path, name: Path, src: Path) {
    src == rpath + name || (|src| > |rpath| + |name| && src[..|rpath| + |name| + 1] == Below(rpath, name))
  }

  lemma StartBytes(rpath: Path, name: Path, src: Path)
    requires StartsAt(rpath, name, src)
    ensures
      var n := |rpath| + |name|;
      && |src| >= n && (forall j :: |rpath| <= j < n ==> src[j] == name[j - |rpath|])
      && (|src| > n ==> src[n] == SLASH)
  {
    var b, n := Below(rpath, name), |rpath| + |name|;
    assert forall j :: |rpath| <= j < n ==> b[j] == name[j - |rpath|];
    if src == rpath + name {
    } else {
      assert forall k :: 0 <= k <= n ==> src[k] == src[..n + 1][k] == b[k];
    }
  }

  /** The first component of a relative name is determined. */
  lemma OneStart(rpath: Path, name: Path, name': Path, src: Path)
    requires StartsAt(rpath, name, src) && StartsAt(rpath, name', src) && SLASH !in name && SLASH !in name'
    ensures name == name'
  {
    StartBytes(rpath, name, src);
    StartBytes(rpath, name', src);
    assert |name| >= |name'| by { SameLength(rpath, name, name', src); }
    assert |name'| >= |name| by { SameLength(rpath, name', name, src); }
    assert forall k :: 0 <= k < |name| ==> name[k] == src[|rpath| + k] == name'[k];
  }

  lemma SameLength(rpath: Path, name: Path, name': Path, src: Path)
    requires |src| >= |rpath| + |name'| && (|src| > |rpath| + |name| ==> src[|rpath| + |name|] == SLASH)
    requires forall j :: |rpath| <= j < |rpath| + |name'| ==> src[j] != SLASH
    ensures |name| >= |name'|
  {
  }

  lemma {:induction false} ItemStarts(rpath: Path, lpath: Path, it: Item, ci: CopyInfo)
    requires ci in ItemFiles(rpath, lpath, it)
    ensures StartsAt(rpath, it.dent.name, ci.src)
  {
    if it.Sub? {
      var below := Below(rpath, it.dent.name);
      FilesRelate(below, Below(lpath, it.dent.name), it.items, ci);
      var rel: Path :| Relates(below, Below(lpath, it.dent.name), ci, rel);
      assert ci.src[..|below|] == below;
    }
  }

  lemma {:induction false} FilesStart(rpath: Path, lpath: Path, items: seq<Item>, ci: CopyInfo) returns (k: nat)
    requires ci in Files(rpath, lpath, items)
    ensures k < |items| && StartsAt(rpath, items[k].dent.name, ci.src)
  {
    if ci in ItemFiles(rpath, lpath, items[0]) {
      ItemStarts(rpath, lpath, items[0], ci);
      k := 0;
    } else {
      k := FilesStart(rpath, lpath, items[1..], ci);
      k := k + 1;
    }
  }

  lemma OnceTogether(a: seq<CopyInfo>, b: seq<CopyInfo>)
    requires SourcesOnce(multiset(a)) && SourcesOnce(multiset(b))
    requires forall x, y :: x in a && y in b ==> x.src != y.src
    ensures SourcesOnce(multiset(a + b))
  {
    assert forall x :: x in multiset(a) <==> x in a;
    assert forall x :: x in multiset(b) <==> x in b;
  }

  /** The first entry's files and those of the other entries have different sources. */
  lemma Apart(rpath: Path, lpath: Path, items: seq<Item>, x: CopyInfo, y: CopyInfo)
    requires items != [] && Tidy(items) && x in ItemFiles(rpath, lpath, items[0]) && y in Files(rpath, lpath, items[1..])
    ensures x.src != y.src
  {
    ItemStarts(rpath, lpath, items[0], x);
    var k := FilesStart(rpath, lpath, items[1..], y);
    assert items[1..][k] == items[k + 1];
    if x.src == y.src {
      OneStart(rpath, items[0].dent.name, items[k + 1].dent.name, x.src);
    }
  }

  lemma TidyTail(items: seq<Item>)
    requires items != [] && Tidy(items)
    ensures Tidy(items[1..])
  {
    var t := items[1..];
    assert forall i :: 0 <= i < |t| ==> t[i] == items[i + 1];
  }

  lemma {:induction false} FilesOnce(rpath: Path, lpath: Path, items: seq<Item>)
    requires Tidy(items)
    ensures SourcesOnce(multiset(Files(rpath, lpath, items)))
    decreases items, 0
  {
    if items != [] {
      TidyTail(items);
      FilesOnce(rpath, lpath, items[1..]);
      ItemOnce(rpath, lpath, items[0]);
      forall x, y | x in ItemFiles(rpath, lpath, items[0]) && y in Files(rpath, lpath, items[1..])
        ensures x.src != y.src
      {
        Apart(rpath, lpath, items, x, y);
      }
      OnceTogether(ItemFiles(rpath, lpath, items[0]), Files(rpath, lpath, items[1..]));
    }
  }

  lemma {:induction false} ItemOnce(rpath: Path, lpath: Path, it: Item)
    requires it.Sub? ==> Tidy(it.items)
    ensures SourcesOnce(multiset(ItemFiles(rpath, lpath, it)))
    decreases it, 1
  {
    if it.Sub? {
      FilesOnce(Below(rpath, it.dent.name), Below(lpath, it.dent.name), it.items);
    }
  }

  /** What a walk has added to a file list: the copies of the regular files and links of the tree, all of
      them and nothing else; and from an empty list no source twice. */
  ghost predicate Collected(rpath: Path, lpath: Path, items: seq<Item>, filelist: seq<CopyInfo>, files: seq<CopyInfo>) {
    && multiset(files) == multiset(filelist) + multiset(Files(rpath, lpath, items))
    && (forall ci :: ci in files ==> ci in filelist || exists rel, e :: Copies(rpath, lpath, items, ci, rel, e))
    && (forall ci, rel, e :: Copies(rpath, lpath, items, ci, rel, e) ==> ci in files)
    && (Tidy(items) && filelist == [] ==> SourcesOnce(multiset(files)))
  }

  lemma AllCollected(rpath: Path, lpath: Path, items: seq<Item>, filelist: seq<CopyInfo>, files: seq<CopyInfo>)
    requires ItemsOk(items) && multiset(files) == multiset(filelist) + multiset(Files(rpath, lpath, items))
    ensures Collected(rpath, lpath, items, filelist, files)
  {
    forall ci | ci in files && ci !in filelist
      ensures exists rel, e :: Copies(rpath, lpath, items, ci, rel, e)
    {
      assert ci in multiset(files);
      var rel, e := FilesSound(rpath, lpath, items, ci);
    }
    forall ci, rel, e | Copies(rpath, lpath, items, ci, rel, e)
      ensures ci in files
    {
      FilesComplete(rpath, lpath, items, ci, rel, e);
      assert ci in multiset(files);
    }
    if Tidy(items) {
      FilesOnce(rpath, lpath, items);
    }
  }

  /** The file list after the callback has seen the first `n` entries, newest first. */
  function FilesTo(rpath: Path, lpath: Path, vis: seq<Item>, n: nat): seq<CopyInfo>
    requires n <= |vis|
  {
    if n == 0 then []
    else if vis[n - 1].Leaf? && Wanted(vis[n - 1].dent) then [FileInfo(rpath, lpath, vis[n - 1].dent)] + FilesTo(rpath, lpath, vis, n - 1)
    else FilesTo(rpath, lpath, vis, n - 1)
  }

  /** The directories on the callback's list after the first `n` entries, newest first. */
  function SubsTo(vis: seq<Item>, n: nat): (subs: seq<Item>)
    requires n <= |vis|
    ensures forall i :: 0 <= i < |subs| ==> subs[i].Sub? && subs[i] in vis[..n]
  {
    if n == 0 then []
    else
      var subs := SubsTo(vis, n - 1);
      assert vis[..n] == vis[..n - 1] + [vis[n - 1]];
      if vis[n - 1].Sub? then [vis[n - 1]] + subs else subs
  }

  /** The files below the given directories. */
  function Under(rpath: Path, lpath: Path, subs: seq<Item>): seq<CopyInfo>
    requires forall i :: 0 <= i < |subs| ==> subs[i].Sub?
  {
    if subs == [] then [] else SubFiles(rpath, lpath, subs[0]) + Under(rpath, lpath, subs[1..])
  }

  function SubFiles(rpath: Path, lpath: Path, it: Item): seq<CopyInfo>
    requires it.Sub?
  {
    Files(Below(rpath, it.dent.name), Below(lpath, it.dent.name), it.items)
  }

  lemma {:induction false} VisibleFiles(rpath: Path, lpath: Path, items: seq<Item>)
    ensures Files(rpath, lpath, Visible(items)) == Files(rpath, lpath, items)
  {
    if items != [] {
      VisibleFiles(rpath, lpath, items[1..]);
      assert Files(rpath, lpath, items) == ItemFiles(rpath, lpath, items[0]) + Files(rpath, lpath, items[1..]);
      if |items[0].dent.name| <= NAME_MAX {
        FilesCons(rpath, lpath, items[0], Visible(items[1..]));
      } else {
        assert ItemFiles(rpath, lpath, items[0]) == [];
      }
    }
  }

  lemma FilesCons(rpath: Path, lpath: Path, it: Item, items: seq<Item>)
    ensures Files(rpath, lpath, [it] + items) == ItemFiles(rpath, lpath, it) + Files(rpath, lpath, items)
  {
    assert ([it] + items)[1..] == items;
  }

  lemma {:induction false} FilesAppend(rpath: Path, lpath: Path, items: seq<Item>, it: Item)
    ensures Files(rpath, lpath, items + [it]) == Files(rpath, lpath, items) + ItemFiles(rpath, lpath, it)
  {
    if items == [] {
      assert items + [it] == [it] && [it][1..] == [];
      assert Files(rpath, lpath, [it]) == ItemFiles(rpath, lpath, it) + [];
    } else {
      assert (items + [it])[1..] == items[1..] + [it];
      FilesAppend(rpath, lpath, items[1..], it);
      Assoc(ItemFiles(rpath, lpath, items[0]), Files(rpath, lpath, items[1..]), ItemFiles(rpath, lpath, it));
    }
  }

  lemma UnderCons(rpath: Path, lpath: Path, it: Item, subs: seq<Item>)
    requires it.Sub? && forall i :: 0 <= i < |subs| ==> subs[i].Sub?
    ensures Under(rpath, lpath, [it] + subs) == SubFiles(rpath, lpath, it) + Under(rpath, lpath, subs)
  {
    assert ([it] + subs)[1..] == subs;
  }

  /** What one more entry adds to the two phases. */
  lemma PhasesStep(rpath: Path, lpath: Path, vis: seq<Item>, n: nat)
    requires 0 < n <= |vis| && |vis[n - 1].dent.name| <= NAME_MAX
    ensures Phases(rpath, lpath, vis, n) == Phases(rpath, lpath, vis, n - 1) + multiset(ItemFiles(rpath, lpath, vis[n - 1]))
  {
    var it := vis[n - 1];
    match it {
      case Sub(_, _) => UnderCons(rpath, lpath, it, SubsTo(vis, n - 1));
      case Leaf(e) =>
        if Wanted(e) {
          assert FilesTo(rpath, lpath, vis, n) == ItemFiles(rpath, lpath, it) + FilesTo(rpath, lpath, vis, n - 1);
        }
      case Dots(_) =>
    }
  }

  /** The files that the two phases of the walk collect from the first `n` entries. */
  ghost function Phases(rpath: Path, lpath: Path, vis: seq<Item>, n: nat): multiset<CopyInfo>
    requires n <= |vis|
  {
    multiset(FilesTo(rpath, lpath, vis, n)) + multiset(Under(rpath, lpath, SubsTo(vis, n)))
  }

  /** The walk's two phases account for every file once. */
  lemma {:induction false} FilesSplit(rpath: Path, lpath: Path, vis: seq<Item>, n: nat)
    requires n <= |vis| && forall i :: 0 <= i < |vis| ==> |vis[i].dent.name| <= NAME_MAX
    ensures multiset(Files(rpath, lpath, vis[..n])) == Phases(rpath, lpath, vis, n)
  {
    if n > 0 {
      FilesSplit(rpath, lpath, vis, n - 1);
      assert vis[..n] == vis[..n - 1] + [vis[n - 1]];
      FilesAppend(rpath, lpath, vis[..n - 1], vis[n - 1]);
      PhasesStep(rpath, lpath, vis, n);
    }
  }

  lemma {:induction false} VisibleListed(items: seq<Item>)
    ensures Listed(Dents(items)) == Dents(Visible(items))
    ensures |Dents(items)| == |items|
  {
    if items != [] {
      VisibleListed(items[1..]);
      var ds := Dents(items);
      assert ds[0] == items[0].dent && ds[1..] == Dents(items[1..]);
      var v := Visible(items[1..]);
      if |items[0].dent.name| <= NAME_MAX {
        assert ([items[0]] + v)[1..] == v;
      }
    }
  }

  lemma {:induction false} DentAt(items: seq<Item>, i: nat)
    requires i < |items|
    ensures |Dents(items)| == |items| && Dents(items)[i] == items[i].dent
  {
    VisibleListed(items);
    if i > 0 {
      DentAt(items[1..], i - 1);
    }
  }

  lemma {:induction false} VisibleKeeps(items: seq<Item>, it: Item)
    requires it in items && |it.dent.name| <= NAME_MAX
    ensures it in Visible(items)
  {
    if it != items[0] {
      VisibleKeeps(items[1..], it);
    }
  }

  // ---- LIST over the wire ----

  datatype Listing = Listing(dents: seq<Dent>, rest: seq<byte>) | BadListing

  /** The loop of `sync_ls`. */
  function ReadDents(s: seq<byte>): Listing
    decreases |s|
  {
    if |s| < 20 then BadListing
    else
      var id, n := ReadLe32(s, 0), ReadLe32(s, 16);
      if id == ID_DONE then Listing([], s[20..])
      else if id != ID_DENT || n > NAME_MAX || |s| < 20 + n then BadListing
      else
        match ReadDents(s[20 + n..])
        case BadListing => BadListing
        case Listing(dents, rest) =>
          Listing([Dent(ReadLe32(s, 4), ReadLe32(s, 8), ReadLe32(s, 12), s[20..20 + n])] + dents, rest)
  }

  lemma DentRead(id: uint32, e: Dent, rest: seq<byte>)
    requires |e.name| <= NAME_MAX
    ensures
      var s := DentBytes(id, e) + rest;
      && |s| >= 20 + |e.name| && ReadLe32(s, 0) == id && ReadLe32(s, 16) == |e.name|
      && Dent(ReadLe32(s, 4), ReadLe32(s, 8), ReadLe32(s, 12), s[20..20 + |e.name|]) == e
      && s[20 + |e.name|..] == rest
  {
    var s := DentBytes(id, e) + rest;
    assert s[0..4] == Le32(id) && s[4..8] == Le32(e.mode) && s[8..12] == Le32(e.size);
    assert s[12..16] == Le32(e.time) && s[16..20] == Le32(|e.name|);
    Le32RoundTrip(s, 0, id);
    Le32RoundTrip(s, 4, e.mode);
    Le32RoundTrip(s, 8, e.size);
    Le32RoundTrip(s, 12, e.time);
    Le32RoundTrip(s, 16, |e.name|);
    assert s[20..20 + |e.name|] == e.name;
  }

  /** What `do_list` sends, `sync_ls` reads back entry by entry, up to the end marker. */
  lemma {:induction false} DentsRoundTrip(es: seq<Dent>, rest: seq<byte>)
    requires forall i :: 0 <= i < |es| ==> |es[i].name| <= NAME_MAX
    ensures ReadDents(DentsBytes(es) + EndOfList + rest) == Listing(es, rest)
  {
    var s := DentsBytes(es) + EndOfList + rest;
    if es == [] {
      assert s == EndOfList + rest;
      DentRead(ID_DONE, Dent(0, 0, 0, []), rest);
    } else {
      var more := DentsBytes(es[1..]) + EndOfList + rest;
      assert s == DentBytes(ID_DENT, es[0]) + more;
      DentRead(ID_DENT, es[0], more);
      DentsRoundTrip(es[1..], rest);
      assert [es[0]] + es[1..] == es;
    }
  }

  lemma DentStep(s: seq<byte>, h: seq<byte>)
    requires |s| >= 20 && h == s[..20]
    ensures forall k :: 0 <= k <= 16 ==> ReadLe32(h, k) == ReadLe32(s, k)
    ensures
      var n := ReadLe32(s, 16);
      ReadLe32(s, 0) != ID_DONE && ReadLe32(s, 0) == ID_DENT && n <= NAME_MAX && |s| >= 20 + n ==>
        ReadDents(s) == LaterDents([Dent(ReadLe32(s, 4), ReadLe32(s, 8), ReadLe32(s, 12), s[20..20 + n])], ReadDents(s[20 + n..]))
  {
  }

  datatype OneDent = Entry(e: Dent) | ListEnd | Broken

  /** One turn of the loop of `sync_ls`. */
  method ReadDent(wire: Channel) returns (r: OneDent)
    modifies wire`inbox
    ensures
      match r
      case Entry(e) => ReadDents(old(wire.inbox)) == LaterDents([e], ReadDents(wire.inbox)) && |wire.inbox| < |old(wire.inbox)|
      case ListEnd => ReadDents(old(wire.inbox)) == Listing([], wire.inbox)
      case Broken => ReadDents(old(wire.inbox)) == BadListing
  {
    ghost var s := wire.inbox;
    var ok, h := wire.Readx(20);
    if !ok {
      return Broken;
    }
    DentStep(s, h);
    var id, n := ReadLe32(h, 0), ReadLe32(h, 16);
    if id == ID_DONE {
      return ListEnd;
    }
    if id != ID_DENT || n > NAME_MAX {
      return Broken;
    }
    var name;
    ok, name := wire.Readx(n);
    if !ok {
      return Broken;
    }
    assert name == s[20..20 + n] && wire.inbox == s[20 + n..];
    r := Entry(Dent(ReadLe32(h, 4), ReadLe32(h, 8), ReadLe32(h, 12), name));
  }

  /** The reply half of `sync_ls`; the callback's arguments, in order. */
  method ReadList(wire: Channel) returns (dents: Option<seq<Dent>>)
    modifies wire`inbox
    ensures
      match ReadDents(old(wire.inbox))
      case BadListing => dents == None
      case Listing(es, rest) => dents == Some(es) && wire.inbox == rest
  {
    var es: seq<Dent> := [];
    ghost var s0 := ReadDents(wire.inbox);
    assert s0.Listing? ==> [] + s0.dents == s0.dents;
    while true
      invariant s0 == LaterDents(es, ReadDents(wire.inbox))
      decreases |wire.inbox|
    {
      var r := ReadDent(wire);
      match r {
        case Entry(e) =>
          LaterStep(es, e, ReadDents(wire.inbox));
          es := es + [e];
        case ListEnd =>
          assert es + [] == es;
          return Some(es);
        case Broken =>
          return None;
      }
    }
  }

  function LaterDents(es: seq<Dent>, l: Listing): Listing {
    if l.Listing? then Listing(es + l.dents, l.rest) else l
  }

  lemma LaterStep(es: seq<Dent>, e: Dent, l: Listing)
    ensures LaterDents(es, LaterDents([e], l)) == LaterDents(es + [e], l)
  {
    if l.Listing? {
      Assoc(es, [e], l.dents);
    }
  }

  /** `sync_ls` against the service: it fails exactly on a path of more than 1024 bytes, and leaves the
      connection ready for the next request. */
  method SyncLs(conn: Connection, path: Path) returns (dents: Option<seq<Dent>>)
    requires conn.Idle() && 0 !in path
    modifies conn.client.wire, conn.service, conn.service.wire
    ensures conn.Idle() && conn.service.disk == old(conn.service.disk)
    ensures dents.None? <==> |path| > MAX_NAME
    ensures
      var disk := conn.service.disk;
      dents.Some? ==> dents.value == if path in disk.dirs then Listed(disk.dirs[path]) else []
  {
    if |path| > MAX_NAME {
      return None;
    }
    ghost var x := conn.Exchange(ListOp(path));
    ghost var disk := conn.service.disk;
    ghost var es := if path in disk.dirs then Listed(disk.dirs[path]) else [];
    DentsRoundTrip(es, []);
    assert DentsBytes(es) + EndOfList + [] == x.reply;
    dents := ReadList(conn.client.wire);
  }

  // ---- the recursive walk ----

  /** A directory on the walk's list: where to ask and where to put things. */
  datatype DirInfo = DirInfo(src: Path, dst: Path)

  /** The directory list after the callback has seen the first `n` entries, newest first. */
  function DirsTo(rpath: Path, lpath: Path, vis: seq<Item>, n: nat): seq<DirInfo>
    requires n <= |vis|
  {
    if n == 0 then []
    else if vis[n - 1].Sub? then
      [DirInfo(Below(rpath, vis[n - 1].dent.name), Below(lpath, vis[n - 1].dent.name))] + DirsTo(rpath, lpath, vis, n - 1)
    else DirsTo(rpath, lpath, vis, n - 1)
  }

  ghost predicate DirsMatch(rpath: Path, lpath: Path, dirs: seq<DirInfo>, subs: seq<Item>) {
    && |dirs| == |subs|
    && forall i :: 0 <= i < |subs| ==> dirs[i] == DirInfo(Below(rpath, subs[i].dent.name), Below(lpath, subs[i].dent.name))
  }

  lemma {:induction false} DirsToMatch(rpath: Path, lpath: Path, vis: seq<Item>, n: nat)
    requires n <= |vis|
    ensures DirsMatch(rpath, lpath, DirsTo(rpath, lpath, vis, n), SubsTo(vis, n))
  {
    if n > 0 {
      DirsToMatch(rpath, lpath, vis, n - 1);
    }
  }

  /** `sync_ls_build_list_cb` over a whole listing: each file and each directory other than "." and
      ".." is put in front of its list. */
  method SortEntries(rpath: Path, lpath: Path, dents: seq<Dent>, filelist: seq<CopyInfo>, ghost vis: seq<Item>)
    returns (files: seq<CopyInfo>, dirs: seq<DirInfo>)
    requires |dents| == |vis| && (forall i :: 0 <= i < |vis| ==> dents[i] == vis[i].dent) && ItemsOk(vis)
    ensures files == FilesTo(rpath, lpath, vis, |vis|) + filelist
    ensures dirs == DirsTo(rpath, lpath, vis, |vis|)
  {
    files, dirs := filelist, [];
    var i := 0;
    while i < |dents|
      invariant 0 <= i <= |dents|
      invariant files == FilesTo(rpath, lpath, vis, i) + filelist
      invariant dirs == DirsTo(rpath, lpath, vis, i)
    {
      assert ItemOk(vis[i]);
      var e := dents[i];
      Modes(e.mode);
      if IsDir(e.mode) {
        if !IsDots(e.name) {
          dirs := [DirInfo(Below(rpath, e.name), Below(lpath, e.name))] + dirs;
        }
      } else if IsRegular(e.mode) || IsLink(e.mode) {
        Assoc([FileInfo(rpath, lpath, e)], FilesTo(rpath, lpath, vis, i), filelist);
        files := [FileInfo(rpath, lpath, e)] + files;
      }
      i := i + 1;
    }
  }

  lemma {:induction false} SubsMembers(vis: seq<Item>, n: nat, k: nat)
    requires k < n <= |vis| && vis[k].Sub?
    ensures vis[k] in SubsTo(vis, n)
  {
    if k < n - 1 {
      SubsMembers(vis, n - 1, k);
    }
  }

  /** `order` lists the entries of a directory that the walk goes down into. */
  ghost predicate Lists(order: seq<Item>, items: seq<Item>) {
    && (forall i :: 0 <= i < |order| ==> order[i] in items && Descends(order[i]))
    && (forall k :: 0 <= k < |items| && Descends(items[k]) ==> items[k] in order)
  }

  lemma SubsList(items: seq<Item>)
    ensures Lists(SubsTo(Visible(items), |Visible(items)|), items)
  {
    var vis := Visible(items);
    var order := SubsTo(vis, |vis|);
    forall i | 0 <= i < |order|
      ensures order[i] in items && Descends(order[i])
    {
      var k :| 0 <= k < |vis| && vis[k] == order[i];
    }
    forall k | 0 <= k < |items| && Descends(items[k])
      ensures items[k] in order
    {
      VisibleKeeps(items, items[k]);
      var j :| 0 <= j < |vis| && vis[j] == items[k];
      SubsMembers(vis, |vis|, j);
    }
  }

  /** `remote_build_list`. On every tree it terminates. It succeeds exactly when no directory it
      reaches has a path of more than 1024 bytes, and then it has added each file of the tree once,
      with source and destination under the same relative name, and no source twice. */
  method RemoteBuildList(conn: Connection, rpath: Path, lpath: Path, filelist: seq<CopyInfo>, ghost items: seq<Item>)
    returns (ok: bool, files: seq<CopyInfo>)
    requires conn.Idle() && 0 !in rpath && ItemsOk(items) && Serves(conn.service.disk, rpath, items)
    modifies conn.client.wire, conn.service, conn.service.wire
    ensures conn.Idle() && conn.service.disk == old(conn.service.disk)
    ensures ok <==> Fits(rpath, items)
    ensures ok <==> PathsShort(rpath, items)
    ensures ok ==> Collected(rpath, lpath, items, filelist, files)
    decreases items, 2
  {
    files := filelist;
    var listed := SyncLs(conn, rpath);
    if listed.None? {
      FitsExactly(rpath, items);
      return false, filelist;
    }
    ghost var vis := Visible(items);
    VisibleListed(items);
    ListedItems(items, listed.value);
    var dirs;
    files, dirs := SortEntries(rpath, lpath, listed.value, filelist, vis);
    SubsList(items);
    DirsToMatch(rpath, lpath, vis, |vis|);
    ok, files := Descend(conn, rpath, lpath, files, dirs, items, SubsTo(vis, |vis|));
    FilesSplit(rpath, lpath, vis, |vis|);
    assert vis[..|vis|] == vis;
    VisibleFiles(rpath, lpath, items);
    FitsExactly(rpath, items);
    if ok {
      AllCollected(rpath, lpath, items, filelist, files);
    }
  }

  lemma ListedItems(items: seq<Item>, dents: seq<Dent>)
    requires ItemsOk(items) && dents == Dents(Visible(items))
    ensures |dents| == |Visible(items)| && ItemsOk(Visible(items))
    ensures forall i :: 0 <= i < |dents| ==> dents[i] == Visible(items)[i].dent
  {
    var vis := Visible(items);
    VisibleListed(vis);
    forall i | 0 <= i < |vis|
      ensures ItemOk(vis[i]) && dents[i] == vis[i].dent
    {
      assert vis[i] in items;
      DentAt(vis, i);
    }
  }

  /** An entry to descend into is served by the device. */
  lemma SubReady(d: Disk, rpath: Path, items: seq<Item>, it: Item) returns (k: nat)
    requires 0 !in rpath && ItemsOk(items) && Serves(d, rpath, items) && it in items && Descends(it)
    ensures k < |items| && items[k] == it
    ensures 0 !in Below(rpath, it.dent.name) && ItemsOk(it.items) && Serves(d, Below(rpath, it.dent.name), it.items)
    ensures Fits(rpath, items) ==> FitsBelow(rpath, it)
  {
    k :| 0 <= k < |items| && items[k] == it;
    assert ItemOk(items[k]);
  }

  ghost predicate FitsBelow(rpath: Path, it: Item) {
    it.Sub? && Fits(Below(rpath, it.dent.name), it.items)
  }

  lemma AllFit(rpath: Path, items: seq<Item>, order: seq<Item>)
    requires |rpath| <= MAX_NAME && Lists(order, items)
    requires forall i :: 0 <= i < |order| ==> FitsBelow(rpath, order[i])
    ensures Fits(rpath, items)
  {
    forall k | 0 <= k < |items| && Descends(items[k])
      ensures Fits(Below(rpath, items[k].dent.name), items[k].items)
    {
      var i :| 0 <= i < |order| && order[i] == items[k];
    }
  }

  /** One turn of the second loop of `remote_build_list`. */
  method VisitOne(conn: Connection, rpath: Path, lpath: Path, filelist: seq<CopyInfo>, dir: DirInfo, ghost items: seq<Item>, ghost it: Item)
    returns (ok: bool, files: seq<CopyInfo>)
    requires conn.Idle() && 0 !in rpath && ItemsOk(items) && Serves(conn.service.disk, rpath, items) && it in items && Descends(it)
    requires dir == DirInfo(Below(rpath, it.dent.name), Below(lpath, it.dent.name))
    modifies conn.client.wire, conn.service, conn.service.wire
    ensures conn.Idle() && conn.service.disk == old(conn.service.disk)
    ensures ok <==> FitsBelow(rpath, it)
    ensures !ok ==> !Fits(rpath, items)
    ensures ok ==> multiset(files) == multiset(filelist) + multiset(SubFiles(rpath, lpath, it))
    decreases items, 0
  {
    ghost var k := SubReady(conn.service.disk, rpath, items, it);
    ok, files := RemoteBuildList(conn, dir.src, dir.dst, filelist, items[k].items);
  }

  /** The second loop of `remote_build_list`, down the list of directories. */
  method Descend(conn: Connection, rpath: Path, lpath: Path, filelist: seq<CopyInfo>, dirs: seq<DirInfo>,
                 ghost items: seq<Item>, ghost order: seq<Item>)
    returns (ok: bool, files: seq<CopyInfo>)
    requires conn.Idle() && 0 !in rpath && |rpath| <= MAX_NAME && ItemsOk(items) && Serves(conn.service.disk, rpath, items)
    requires Lists(order, items) && DirsMatch(rpath, lpath, dirs, order)
    modifies conn.client.wire, conn.service, conn.service.wire
    ensures conn.Idle() && conn.service.disk == old(conn.service.disk)
    ensures ok <==> Fits(rpath, items)
    ensures ok ==> multiset(files) == multiset(filelist) + multiset(Under(rpath, lpath, order))
    decreases items, 1
  {
    files := filelist;
    var i := 0;
    ghost var total := multiset(filelist) + multiset(Under(rpath, lpath, order));
    assert order[0..] == order;
    while i < |dirs|
      invariant conn.Idle() && conn.service.disk == old(conn.service.disk)
      invariant 0 <= i <= |order| && (forall j :: 0 <= j < i ==> FitsBelow(rpath, order[j]))
      invariant multiset(files) + multiset(Under(rpath, lpath, order[i..])) == total
    {
      ok, files := VisitOne(conn, rpath, lpath, files, dirs[i], items, order[i]);
      if !ok {
        return;
      }
      UnderTail(rpath, lpath, order, i);
      i := i + 1;
    }
    AllFit(rpath, items, order);
    ok := true;
  }

  lemma UnderTail(rpath: Path, lpath: Path, order: seq<Item>, i: nat)
    requires i < |order| && forall j :: 0 <= j < |order| ==> order[j].Sub?
    ensures Under(rpath, lpath, order[i..]) == SubFiles(rpath, lpath, order[i]) + Under(rpath, lpath, order[i + 1..])
  {
    assert order[i..][0] == order[i] && order[i..][1..] == order[i + 1..];
  }
}
