/** What `crawler` guarantees, proved from `Crawler.Crawled`. */
module CrawlerProperties {
  import opened Common
  import opened Crawler

  /** Targets are crawled one after another: crawling `a + b` is crawling `a`, then `b`. */
  lemma {:induction false} CrawledAppend(a: seq<Target>, b: seq<Target>)
    ensures Crawled(a + b) == Crawled(a) + Crawled(b)
    decreases |a|
  {
    if a == [] {
      assert a + b == b;
    } else {
      assert (a + b)[0] == a[0] && (a + b)[1..] == a[1..] + b;
      CrawledAppend(a[1..], b);
    }
  }

  /** Paths that are not directories come out unchanged and in the order given. */
  lemma {:induction false} CrawledFiles(ts: seq<Target>)
    requires forall i :: 0 <= i < |ts| ==> ts[i].node == File
    ensures Crawled(ts) == seq(|ts|, i requires 0 <= i < |ts| => ts[i].path)
    decreases |ts|
  {
    if ts != [] {
      CrawledFiles(ts[1..]);
    }
  }

  /** A directory is replaced, where it stands, by the crawl of its entries. */
  lemma CrawledDirectoryInPlace(a: seq<Target>, path: Path, es: seq<Entry>, b: seq<Target>)
    ensures Crawled(a + [Target(path, Directory(es))] + b)
         == Crawled(a) + Crawled(Children(path, es)) + Crawled(b)
  {
    CrawledAppend(a + [Target(path, Directory(es))], b);
    CrawledAppend(a, [Target(path, Directory(es))]);
    CrawledChildren(path, es);
    assert Crawled([Target(path, Directory(es))]) == LeavesOf(path, es) + Crawled([]);
  }

  // ---------------------------------------------------------------------------
  // Completeness

  /** The number of non-directories in a tree. */
  function FileCount(node: Node): nat
    decreases node, 1
  {
    match node
    case File => 1
    case Directory(es) => FileCountOf(es)
  }

  function FileCountOf(es: seq<Entry>): nat
    decreases es, 0
  {
    if es == [] then 0 else FileCount(es[0].node) + FileCountOf(es[1..])
  }

  /** One path per non-directory of the tree, whatever the names. */
  lemma {:induction false} LeafCount(path: Path, node: Node)
    ensures |Leaves(path, node)| == FileCount(node)
    decreases node, 1
  {
    if node.Directory? {
      LeafCountOf(path, node.entries);
    }
  }

  lemma {:induction false} LeafCountOf(path: Path, es: seq<Entry>)
    ensures |LeavesOf(path, es)| == FileCountOf(es)
    decreases es, 0
  {
    if es != [] {
      LeafCount(path + "/" + es[0].name, es[0].node);
      LeafCountOf(path, es[1..]);
    }
  }

  /** The paths of the directories of the tree, its root included. */
  ghost function DirPaths(path: Path, node: Node): set<Path>
    decreases node, 1
  {
    match node
    case File => {}
    case Directory(es) => {path} + DirPathsOf(path, es)
  }

  ghost function DirPathsOf(path: Path, es: seq<Entry>): set<Path>
    decreases es, 0
  {
    if es == [] then {} else DirPaths(path + "/" + es[0].name, es[0].node) + DirPathsOf(path, es[1..])
  }

  /** `p` is `path` or lies below it. */
  predicate Under(p: Path, path: Path) {
    |p| >= |path| && p[..|path|] == path && (|p| == |path| || p[|path|] == '/')
  }

  predicate NoSlash(name: string) {
    forall k :: 0 <= k < |name| ==> name[k] != '/'
  }

  /** What `os.listdir` guarantees: distinct entry names without '/', all the way down. */
  ghost predicate WellNamed(node: Node)
    decreases node, 1
  {
    match node
    case File => true
    case Directory(es) => WellNamedOf(es)
  }

  ghost predicate WellNamedOf(es: seq<Entry>)
    decreases es, 0
  {
    && (forall i :: 0 <= i < |es| ==> NoSlash(es[i].name) && WellNamed(es[i].node))
    && (forall i, j :: 0 <= i < j < |es| ==> es[i].name != es[j].name)
  }

  lemma UnderTrans(p: Path, q: Path, path: Path)
    requires Under(p, q) && StrictlyBelow(q, path)
    ensures StrictlyBelow(p, path)
  {
    assert p[..|q|][..|path|] == p[..|path|];
  }

  /** `p` lies strictly below `path`. */
  predicate StrictlyBelow(p: Path, path: Path) {
    |p| > |path| && p[..|path|] == path && p[|path|] == '/'
  }

  lemma ChildBelow(path: Path, name: string)
    ensures StrictlyBelow(path + "/" + name, path)
  {
    assert (path + "/" + name)[..|path|] == path;
  }

  /** Every path the crawl finds for a tree lies under the tree's own path. */
  lemma {:induction false} LeavesUnder(path: Path, node: Node)
    ensures forall p :: p in Leaves(path, node) ==> Under(p, path)
    ensures node.Directory? ==> forall p :: p in Leaves(path, node) ==> StrictlyBelow(p, path)
    ensures forall d :: d in DirPaths(path, node) ==> Under(d, path)
    decreases node, 1
  {
    if node.Directory? {
      LeavesOfBelow(path, node.entries);
    }
  }

  lemma {:induction false} LeavesOfBelow(path: Path, es: seq<Entry>)
    ensures forall p :: p in LeavesOf(path, es) ==> StrictlyBelow(p, path)
    ensures forall d :: d in DirPathsOf(path, es) ==> StrictlyBelow(d, path)
    decreases es, 0
  {
    if es != [] {
      var child := path + "/" + es[0].name;
      LeavesUnder(child, es[0].node);
      LeavesOfBelow(path, es[1..]);
      ChildBelow(path, es[0].name);
      forall p | p in Leaves(child, es[0].node) || p in DirPaths(child, es[0].node) ensures StrictlyBelow(p, path) {
        UnderTrans(p, child, path);
      }
    }
  }

  /** Paths under two differently named entries of one directory never coincide. */
  lemma Separate(path: Path, n1: string, n2: string, p: Path, q: Path)
    requires NoSlash(n1) && NoSlash(n2) && n1 != n2
    requires Under(p, path + "/" + n1) && Under(q, path + "/" + n2)
    ensures p != q
  {
    var c1, c2 := path + "/" + n1, path + "/" + n2;
    if |n1| == |n2| {
      assert c1[|path| + 1..] == n1 && c2[|path| + 1..] == n2;
      assert p[..|c1|] == c1 != c2 == q[..|c2|];
    } else if |n1| < |n2| {
      assert q[|c1|] == c2[|c1|] == n2[|n1|] != '/';
    } else {
      assert p[|c2|] == c1[|c2|] == n1[|n2|] != '/';
    }
  }

  /** Everything found under a list of entries lies under one of them. */
  lemma {:induction false} UnderSomeEntry(path: Path, es: seq<Entry>)
    ensures forall p :: p in LeavesOf(path, es) || p in DirPathsOf(path, es) ==>
      exists j :: 0 <= j < |es| && Under(p, path + "/" + es[j].name)
    decreases |es|
  {
    if es != [] {
      var child := path + "/" + es[0].name;
      LeavesUnder(child, es[0].node);
      UnderSomeEntry(path, es[1..]);
      assert LeavesOf(path, es) == Leaves(child, es[0].node) + LeavesOf(path, es[1..]);
      assert DirPathsOf(path, es) == DirPaths(child, es[0].node) + DirPathsOf(path, es[1..]);
      forall p | p in LeavesOf(path, es) || p in DirPathsOf(path, es)
        ensures exists j :: 0 <= j < |es| && Under(p, path + "/" + es[j].name)
      {
        if p in Leaves(child, es[0].node) || p in DirPaths(child, es[0].node) {
          assert Under(p, path + "/" + es[0].name);
        } else {
          assert p in LeavesOf(path, es[1..]) || p in DirPathsOf(path, es[1..]);
          var j :| 0 <= j < |es[1..]| && Under(p, path + "/" + es[1..][j].name);
          assert es[1..][j] == es[j + 1];
        }
      }
    }
  }

  lemma DistinctAppend(a: seq<Path>, b: seq<Path>)
    requires Distinct(a) && Distinct(b)
    requires forall x, y :: x in a && y in b ==> x != y
    ensures Distinct(a + b)
  {
    forall i, j | 0 <= i < j < |a + b| ensures (a + b)[i] != (a + b)[j] {
      if j < |a| {
        assert (a + b)[i] == a[i] && (a + b)[j] == a[j];
      } else if i < |a| {
        assert (a + b)[i] == a[i] && a[i] in a;
        assert (a + b)[j] == b[j - |a|] && b[j - |a|] in b;
      } else {
        assert (a + b)[i] == b[i - |a|] && (a + b)[j] == b[j - |a|];
      }
    }
  }

  /**
    Crawl completeness for a tree whose directories list distinct names
    without '/': every non-directory is found exactly once, and no path found
    is the path of a directory.
  */
  lemma {:induction false} LeavesDistinct(path: Path, node: Node)
    requires WellNamed(node)
    ensures Distinct(Leaves(path, node))
    ensures forall p :: p in Leaves(path, node) ==> p !in DirPaths(path, node)
    decreases node, 1
  {
    if node.Directory? {
      LeavesOfDistinct(path, node.entries);
      LeavesUnder(path, node);
    }
  }

  lemma {:induction false} LeavesOfDistinct(path: Path, es: seq<Entry>)
    requires WellNamedOf(es)
    ensures Distinct(LeavesOf(path, es))
    ensures forall p :: p in LeavesOf(path, es) ==> p !in DirPathsOf(path, es)
    decreases es, 0
  {
    if es != [] {
      var e0, rest := es[0], es[1..];
      var child := path + "/" + e0.name;
      assert WellNamedOf(rest) by {
        forall i, j | 0 <= i < j < |rest| ensures rest[i].name != rest[j].name {
          assert rest[i] == es[i + 1] && rest[j] == es[j + 1];
        }
        forall i | 0 <= i < |rest| ensures NoSlash(rest[i].name) && WellNamed(rest[i].node) {
          assert rest[i] == es[i + 1];
        }
      }
      LeavesDistinct(child, e0.node);
      LeavesOfDistinct(path, rest);
      LeavesUnder(child, e0.node);
      UnderSomeEntry(path, rest);
      // Anything under the first entry differs from anything under the others.
      forall x, y | (x in Leaves(child, e0.node) || x in DirPaths(child, e0.node))
                 && (y in LeavesOf(path, rest) || y in DirPathsOf(path, rest))
        ensures x != y
      {
        var j :| 0 <= j < |rest| && Under(y, path + "/" + rest[j].name);
        assert rest[j] == es[j + 1];
        Separate(path, e0.name, rest[j].name, x, y);
      }
      DistinctAppend(Leaves(child, e0.node), LeavesOf(path, rest));
    }
  }

  /**
    `crawler` on one well-named tree returns exactly its non-directories:
    as many paths as the tree has files, none twice, none a directory.
  */
  lemma CrawlComplete(t: Target)
    requires WellNamed(t.node)
    ensures |Crawled([t])| == FileCount(t.node)
    ensures Distinct(Crawled([t]))
    ensures forall p :: p in Crawled([t]) ==> p !in DirPaths(t.path, t.node)
  {
    assert Crawled([t]) == Leaves(t.path, t.node) + Crawled([]);
    assert Crawled([t]) == Leaves(t.path, t.node);
    LeafCount(t.path, t.node);
    LeavesDistinct(t.path, t.node);
  }
}
