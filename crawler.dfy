/**
  `crawler`: flattens the target paths into the list of files to process.
  The file system is a finite tree; `os.path.isdir` is "the node is a
  directory" and `os.listdir` is the directory's entries in their stored order.
*/
module Crawler {
  import opened Common

  /** Anything that is not a directory (regular file, special file, ...) is a `File`. */
  datatype Node = File | Directory(entries: seq<Entry>)

  datatype Entry = Entry(name: string, node: Node)

  /** A path together with what it names. */
  datatype Target = Target(path: Path, node: Node)

  function Size(node: Node): nat
    decreases node, 1
  {
    match node
    case File => 1
    case Directory(es) => 1 + SizeOf(es)
  }

  function SizeOf(es: seq<Entry>): nat
    decreases es, 0
  {
    if es == [] then 0 else Size(es[0].node) + SizeOf(es[1..])
  }

  function SizeAll(ts: seq<Target>): nat
    decreases |ts|
  {
    if ts == [] then 0 else Size(ts[0].node) + SizeAll(ts[1..])
  }

  /** `subpaths`: each entry named `path + '/' + name`. */
  function Children(path: Path, es: seq<Entry>): (r: seq<Target>)
    ensures |r| == |es|
    ensures SizeAll(r) == SizeOf(es)
    decreases |es|
  {
    if es == [] then []
    else [Target(path + "/" + es[0].name, es[0].node)] + Children(path, es[1..])
  }

  /** The paths of the non-directories under `node`, depth first in entry order. */
  function Leaves(path: Path, node: Node): seq<Path>
    decreases node, 1
  {
    match node
    case File => [path]
    case Directory(es) => LeavesOf(path, es)
  }

  function LeavesOf(path: Path, es: seq<Entry>): seq<Path>
    decreases es, 0
  {
    if es == [] then []
    else Leaves(path + "/" + es[0].name, es[0].node) + LeavesOf(path, es[1..])
  }

  /** What `crawler` returns: the leaves of every target, target after target. */
  function Crawled(ts: seq<Target>): seq<Path>
    decreases |ts|
  {
    if ts == [] then [] else Leaves(ts[0].path, ts[0].node) + Crawled(ts[1..])
  }

  lemma {:induction false} CrawledChildren(path: Path, es: seq<Entry>)
    ensures Crawled(Children(path, es)) == LeavesOf(path, es)
    decreases |es|
  {
    if es != [] {
      CrawledChildren(path, es[1..]);
    }
  }

  /** `for p in os.listdir(path): subpaths.append(path + '/' + p)` */
  method ListSubpaths(path: Path, es: seq<Entry>) returns (subpaths: seq<Target>)
    ensures subpaths == Children(path, es)
  {
    subpaths := [];
    for j := 0 to |es|
      invariant subpaths == Children(path, es[..j])
    {
      ChildrenAppend(path, es[..j], es[j]);
      assert es[..j + 1] == es[..j] + [es[j]];
      subpaths := subpaths + [Target(path + "/" + es[j].name, es[j].node)];
    }
    assert es[..|es|] == es;
  }

  /**
    `crawler(paths)`: a non-directory is appended as it is; a directory's
    entries become `path + '/' + name` and are crawled recursively, their
    results appended in order.
  */
  method Crawl(paths: seq<Target>) returns (unrolledPaths: seq<Path>)
    ensures unrolledPaths == Crawled(paths)
    decreases SizeAll(paths)
  {
    unrolledPaths := [];
    for i := 0 to |paths|
      invariant unrolledPaths + Crawled(paths[i..]) == Crawled(paths)
      invariant SizeAll(paths[i..]) <= SizeAll(paths)
    {
      var path := paths[i];
      CrawledStep(paths, i);
      ghost var later := Crawled(paths[i + 1..]);
      match path.node
      case Directory(es) =>
        var subpaths := ListSubpaths(path.path, es);
        CrawledChildren(path.path, es);
        var found := Crawl(subpaths);
        assert found == Leaves(path.path, path.node);
        ghost var before := unrolledPaths;
        unrolledPaths := AppendAll(unrolledPaths, found);
        assert before + (found + later) == unrolledPaths + later;
      case File =>
        assert unrolledPaths + ([path.path] + later) == (unrolledPaths + [path.path]) + later;
        unrolledPaths := unrolledPaths + [path.path];
    }
    assert paths[|paths|..] == [];
  }

  /** One target of the loop: its leaves come first, and it is part of the size. */
  lemma CrawledStep(paths: seq<Target>, i: nat)
    requires i < |paths|
    ensures Crawled(paths[i..]) == Leaves(paths[i].path, paths[i].node) + Crawled(paths[i + 1..])
    ensures SizeAll(paths[i..]) == Size(paths[i].node) + SizeAll(paths[i + 1..])
  {
    assert paths[i..][0] == paths[i] && paths[i..][1..] == paths[i + 1..];
  }

  /** `for p in crawler(subpaths): unrolled_paths.append(p)` */
  method AppendAll(unrolledPaths: seq<Path>, found: seq<Path>) returns (r: seq<Path>)
    ensures r == unrolledPaths + found
  {
    r := unrolledPaths;
    for k := 0 to |found|
      invariant r == unrolledPaths + found[..k]
    {
      assert found[..k + 1] == found[..k] + [found[k]];
      r := r + [found[k]];
    }
    assert found[..|found|] == found;
  }

  lemma {:induction false} ChildrenAppend(path: Path, es: seq<Entry>, e: Entry)
    ensures Children(path, es + [e]) == Children(path, es) + [Target(path + "/" + e.name, e.node)]
    decreases |es|
  {
    if es == [] {
      assert es + [e] == [e];
    } else {
      assert (es + [e])[0] == es[0] && (es + [e])[1..] == es[1..] + [e];
      ChildrenAppend(path, es[1..], e);
    }
  }
}
