/** What a whole run of the file loop guarantees, proved from `Commit.RunFiles`. */
module RunProperties {
  import opened Common
  import opened Keystream
  import opened Rows
  import opened Commit
  import opened CommitProperties

  /**
    A run over `a + b` is a run over `a` followed, unless it aborted, by a
    run over `b` on the files `a` left, the two counts added.
  */
  lemma {:induction false} RunAppend(files: map<Path, Document>, a: seq<Path>, b: seq<Path>,
                                     ks: Stream, sel: Selection, dryRun: bool)
    ensures var ra := RunFiles(files, a, ks, sel, dryRun);
            var rb := RunFiles(ra.files, b, ks, sel, dryRun);
            RunFiles(files, a + b, ks, sel, dryRun)
              == if ra.abort.Some? then ra else Run(rb.files, ra.processed + rb.processed, rb.abort)
    decreases |a|
  {
    if a == [] {
      assert a + b == b;
    } else {
      assert (a + b)[0] == a[0] && (a + b)[1..] == a[1..] + b;
      var t := a[0];
      if t in files {
        match FileStep(files[t], ks, sel, dryRun)
        case RowFailed(_) =>
        case Rewritten(out) =>
          RunAppend(files[t := Document(out, false)], a[1..], b, ks, sel, dryRun);
        case Previewed(_) =>
          RunAppend(files, a[1..], b, ks, sel, dryRun);
        case Skipped =>
          RunAppend(files, a[1..], b, ks, sel, dryRun);
      }
    }
  }

  /** The store a file step leaves, when it does not end the run. */
  function AfterStep(files: map<Path, Document>, t: Path, step: FileOutcome): map<Path, Document> {
    if step.Rewritten? then files[t := Document(step.rows, false)] else files
  }

  /** A first target that opens and fits the columns is stepped over into the rest of the run. */
  lemma RunFirst(files: map<Path, Document>, targets: seq<Path>, ks: Stream, sel: Selection, dryRun: bool)
    requires targets != [] && targets[0] in files
    requires !FileStep(files[targets[0]], ks, sel, dryRun).RowFailed?
    ensures var step := FileStep(files[targets[0]], ks, sel, dryRun);
            var r1 := RunFiles(AfterStep(files, targets[0], step), targets[1..], ks, sel, dryRun);
            RunFiles(files, targets, ks, sel, dryRun)
              == Run(r1.files, r1.processed + (if step.Rewritten? then 1 else 0), r1.abort)
  {
  }

  /**
    The run stops at target `k`: the abort names it, and the run over the
    targets before it ends without abort on the same files and count.
  */
  predicate StopsAt(files: map<Path, Document>, targets: seq<Path>, ks: Stream, sel: Selection,
                    dryRun: bool, k: int)
  {
    && 0 <= k < |targets|
    && RunFiles(files, targets, ks, sel, dryRun).abort.Some?
    && RunFiles(files, targets, ks, sel, dryRun).abort.value.path == targets[k]
    && RunFiles(files, targets[..k], ks, sel, dryRun).abort == None
    && RunFiles(files, targets[..k], ks, sel, dryRun).files == RunFiles(files, targets, ks, sel, dryRun).files
    && RunFiles(files, targets[..k], ks, sel, dryRun).processed == RunFiles(files, targets, ks, sel, dryRun).processed
  }

  /** A stop at target `k` of the rest of the run is a stop at target `k + 1` of the whole run. */
  lemma StopsAtLater(files: map<Path, Document>, targets: seq<Path>, ks: Stream, sel: Selection,
                     dryRun: bool, k: int)
    requires targets != [] && targets[0] in files
    requires !FileStep(files[targets[0]], ks, sel, dryRun).RowFailed?
    requires StopsAt(AfterStep(files, targets[0], FileStep(files[targets[0]], ks, sel, dryRun)),
                     targets[1..], ks, sel, dryRun, k)
    ensures StopsAt(files, targets, ks, sel, dryRun, k + 1)
  {
    var t, rest := targets[0], targets[1..];
    var prefix := targets[..k + 1];
    assert prefix[0] == t && prefix[1..] == rest[..k];
    assert targets[k + 1] == rest[k];
    RunFirst(files, targets, ks, sel, dryRun);
    RunFirst(files, prefix, ks, sel, dryRun);
  }

  /**
    An `IndexError` or an unopenable file stops the run at target `k`: the
    files before it stay as they were rewritten and counted, and target `k`
    itself is not written.
  */
  lemma {:induction false} RunAbortKeepsEarlier(files: map<Path, Document>, targets: seq<Path>,
                                                ks: Stream, sel: Selection, dryRun: bool)
    requires RunFiles(files, targets, ks, sel, dryRun).abort.Some?
    ensures exists k :: 0 <= k < |targets| && StopsAt(files, targets, ks, sel, dryRun, k)
    decreases |targets|
  {
    var t, rest := targets[0], targets[1..];
    if t in files && !FileStep(files[t], ks, sel, dryRun).RowFailed? {
      var files' := AfterStep(files, t, FileStep(files[t], ks, sel, dryRun));
      RunFirst(files, targets, ks, sel, dryRun);
      RunAbortKeepsEarlier(files', rest, ks, sel, dryRun);
      var k :| 0 <= k < |rest| && StopsAt(files', rest, ks, sel, dryRun, k);
      StopsAtLater(files, targets, ks, sel, dryRun, k);
    } else {
      assert targets[..0] == [];
      assert StopsAt(files, targets, ks, sel, dryRun, 0);
    }
  }

  /** A dry run writes nothing and counts nothing, whatever happens. */
  lemma {:induction false} RunDryRun(files: map<Path, Document>, targets: seq<Path>, ks: Stream, sel: Selection)
    ensures RunFiles(files, targets, ks, sel, true).files == files
    ensures RunFiles(files, targets, ks, sel, true).processed == 0
    decreases |targets|
  {
    if targets != [] {
      RunDryRun(files, targets[1..], ks, sel);
    }
  }

  /** `processed_files` counts rewrites, at most one per target. */
  lemma {:induction false} RunCountBound(files: map<Path, Document>, targets: seq<Path>, ks: Stream,
                                         sel: Selection, dryRun: bool)
    ensures RunFiles(files, targets, ks, sel, dryRun).processed <= |targets|
    decreases |targets|
  {
    if targets != [] && targets[0] in files {
      var step := FileStep(files[targets[0]], ks, sel, dryRun);
      var files' := if step.Rewritten? then files[targets[0] := Document(step.rows, false)] else files;
      RunCountBound(files', targets[1..], ks, sel, dryRun);
    }
  }

  /** A run touches only the files it is given, and creates or removes none. */
  lemma {:induction false} RunFrame(files: map<Path, Document>, targets: seq<Path>, ks: Stream,
                                    sel: Selection, dryRun: bool)
    ensures RunFiles(files, targets, ks, sel, dryRun).files.Keys == files.Keys
    ensures forall p :: p in files && p !in targets ==> RunFiles(files, targets, ks, sel, dryRun).files[p] == files[p]
    decreases |targets|
  {
    if targets != [] && targets[0] in files {
      var step := FileStep(files[targets[0]], ks, sel, dryRun);
      var files' := if step.Rewritten? then files[targets[0] := Document(step.rows, false)] else files;
      RunFrame(files', targets[1..], ks, sel, dryRun);
      forall p | p in files && p !in targets
        ensures RunFiles(files, targets, ks, sel, dryRun).files[p] == files[p]
      {
        assert p != targets[0] && p !in targets[1..];
      }
    }
  }

  /**
    One file of the loop: an out-of-range column ends the run with nothing
    written; a file that fails to parse, or any file in a dry run, is neither
    written nor counted; otherwise the file is replaced by its transformed
    rows and counted once.
  */
  lemma CommitOneFile(files: map<Path, Document>, t: Path, ks: Stream, sel: Selection, dryRun: bool)
    requires t in files
    ensures var r := RunFiles(files, [t], ks, sel, dryRun);
      match TransformTable(ks, 0, files[t].rows, sel)
      case Failed(e) => r == Run(files, 0, Some(ColumnOutOfRange(t, e.row, e.column)))
      case Transformed(out, _) =>
        r == if files[t].malformed || dryRun then Run(files, 0, None)
             else Run(files[t := Document(out, false)], 1, None)
  {
    assert [t][1..] == [];
  }

  /** A file whose parse fails is never written, however often the run meets it. */
  lemma {:induction false} RunKeepsMalformed(files: map<Path, Document>, targets: seq<Path>, ks: Stream,
                                             sel: Selection, dryRun: bool)
    ensures forall p :: p in files && files[p].malformed ==>
      p in RunFiles(files, targets, ks, sel, dryRun).files
      && RunFiles(files, targets, ks, sel, dryRun).files[p] == files[p]
    decreases |targets|
  {
    if targets != [] && targets[0] in files {
      var step := FileStep(files[targets[0]], ks, sel, dryRun);
      var files' := if step.Rewritten? then files[targets[0] := Document(step.rows, false)] else files;
      RunKeepsMalformed(files', targets[1..], ks, sel, dryRun);
      forall p | p in files && files[p].malformed
        ensures files'[p] == files[p]
      {
        if step.Rewritten? {
          assert p != targets[0];
        }
      }
    }
  }

  /** Changing a file the run is not given changes nothing else about the run. */
  lemma {:induction false} RunUpdateOutside(files: map<Path, Document>, targets: seq<Path>, ks: Stream,
                                            sel: Selection, dryRun: bool, p: Path, d: Document)
    requires p !in targets
    ensures var r := RunFiles(files, targets, ks, sel, dryRun);
            RunFiles(files[p := d], targets, ks, sel, dryRun) == Run(r.files[p := d], r.processed, r.abort)
    decreases |targets|
  {
    if targets != [] {
      var t := targets[0];
      assert t != p && p !in targets[1..];
      if t in files {
        assert files[p := d][t] == files[t];
        var step := FileStep(files[t], ks, sel, dryRun);
        if step.Rewritten? {
          var doc := Document(step.rows, false);
          RunUpdateOutside(files[t := doc], targets[1..], ks, sel, dryRun, p, d);
          assert files[p := d][t := doc] == files[t := doc][p := d];
        } else if !step.RowFailed? {
          RunUpdateOutside(files, targets[1..], ks, sel, dryRun, p, d);
        }
      }
    }
  }

  /** A file rewritten by one pass is rewritten back by the same pass. */
  lemma FileStepInvolution(doc: Document, ks: Stream, sel: Selection)
    requires FileStep(doc, ks, sel, false).Rewritten?
    ensures !doc.malformed
    ensures FileStep(Document(FileStep(doc, ks, sel, false).rows, false), ks, sel, false) == Rewritten(doc.rows)
  {
    TableInvolution(ks, 0, doc.rows, sel);
  }

  /** A file whose every row has the selected columns: its visit cannot end the run. */
  predicate Visitable(doc: Document, ks: Stream, sel: Selection) {
    TransformTable(ks, 0, doc.rows, sel).Transformed?
  }

  /** What one visit of the file loop leaves at a path, outside a dry run. */
  function Visit(doc: Document, ks: Stream, sel: Selection): Document {
    match FileStep(doc, ks, sel, false)
    case Rewritten(out) => Document(out, false)
    case _ => doc
  }

  /** What `k` visits in a row leave at a path. */
  function Visits(doc: Document, ks: Stream, sel: Selection, k: nat): Document
    decreases k
  {
    if k == 0 then doc else Visits(Visit(doc, ks, sel), ks, sel, k - 1)
  }

  /** Visits of well-formed files among `targets`: what a run with no abort counts. */
  function WellFormedVisits(files: map<Path, Document>, targets: seq<Path>): nat
    decreases |targets|
  {
    if targets == [] then 0
    else (if targets[0] in files && !files[targets[0]].malformed then 1 else 0)
         + WellFormedVisits(files, targets[1..])
  }

  /** A visit is undone by a second one, keeps the parse flag, and cannot fail the next time. */
  lemma VisitInvolution(doc: Document, ks: Stream, sel: Selection)
    requires Visitable(doc, ks, sel)
    ensures Visitable(Visit(doc, ks, sel), ks, sel)
    ensures Visit(doc, ks, sel).malformed == doc.malformed
    ensures Visit(Visit(doc, ks, sel), ks, sel) == doc
  {
    if !doc.malformed {
      FileStepInvolution(doc, ks, sel);
    }
  }

  /** `a` visits followed by `b` more are `a + b` visits. */
  lemma {:induction false} VisitsAdd(doc: Document, ks: Stream, sel: Selection, a: nat, b: nat)
    ensures Visits(Visits(doc, ks, sel, a), ks, sel, b) == Visits(doc, ks, sel, a + b)
    decreases a
  {
    if a > 0 {
      VisitsAdd(Visit(doc, ks, sel), ks, sel, a - 1, b);
    }
  }

  /** An even number of visits leaves a visitable file as it was. */
  lemma {:induction false} VisitsEven(doc: Document, ks: Stream, sel: Selection, m: nat)
    requires Visitable(doc, ks, sel)
    ensures Visits(doc, ks, sel, 2 * m) == doc
    decreases m
  {
    if m > 0 {
      var once := Visit(doc, ks, sel);
      VisitInvolution(doc, ks, sel);
      assert Visits(doc, ks, sel, 2 * m) == Visits(once, ks, sel, 2 * m - 1);
      assert Visits(once, ks, sel, 2 * m - 1) == Visits(Visit(once, ks, sel), ks, sel, 2 * (m - 1));
      VisitsEven(doc, ks, sel, m - 1);
    }
  }

  /** Any number of visits keeps a file visitable and keeps its parse flag. */
  lemma {:induction false} VisitsKeep(doc: Document, ks: Stream, sel: Selection, k: nat)
    requires Visitable(doc, ks, sel)
    ensures Visitable(Visits(doc, ks, sel, k), ks, sel)
    ensures Visits(doc, ks, sel, k).malformed == doc.malformed
    decreases k
  {
    if k > 0 {
      VisitInvolution(doc, ks, sel);
      VisitsKeep(Visit(doc, ks, sel), ks, sel, k - 1);
    }
  }

  /** `k` visits repeated `k` more times restore the file, and keep it visitable on the way. */
  lemma VisitsTwice(doc: Document, ks: Stream, sel: Selection, k: nat)
    requires Visitable(doc, ks, sel)
    ensures Visitable(Visits(doc, ks, sel, k), ks, sel)
    ensures Visits(doc, ks, sel, k).malformed == doc.malformed
    ensures Visits(Visits(doc, ks, sel, k), ks, sel, k) == doc
  {
    VisitsKeep(doc, ks, sel, k);
    VisitsAdd(doc, ks, sel, k, k);
    VisitsEven(doc, ks, sel, k);
  }

  /** Two stores with the same paths and parse flags count the same visits. */
  lemma {:induction false} WellFormedVisitsFlags(files: map<Path, Document>, g: map<Path, Document>,
                                                 targets: seq<Path>)
    requires g.Keys == files.Keys
    requires forall p :: p in files ==> g[p].malformed == files[p].malformed
    ensures WellFormedVisits(g, targets) == WellFormedVisits(files, targets)
    decreases |targets|
  {
    if targets != [] {
      WellFormedVisitsFlags(files, g, targets[1..]);
    }
  }

  /** The first target of a run that does not abort exists and is visitable. */
  lemma RunHeadVisitable(files: map<Path, Document>, targets: seq<Path>, ks: Stream, sel: Selection)
    requires targets != []
    requires RunFiles(files, targets, ks, sel, false).abort == None
    ensures targets[0] in files && Visitable(files[targets[0]], ks, sel)
  {
  }

  /** The first step of a run on a visitable file: one visit, counted when the file is well-formed. */
  lemma RunHeadStep(files: map<Path, Document>, targets: seq<Path>, ks: Stream, sel: Selection)
    requires targets != [] && targets[0] in files && Visitable(files[targets[0]], ks, sel)
    ensures var doc := files[targets[0]];
            var r1 := RunFiles(files[targets[0] := Visit(doc, ks, sel)], targets[1..], ks, sel, false);
            RunFiles(files, targets, ks, sel, false)
              == Run(r1.files, r1.processed + (if doc.malformed then 0 else 1), r1.abort)
  {
    var t := targets[0];
    var doc := files[t];
    if doc.malformed {
      assert files[t := doc] == files;
    }
  }

  /** Every target of a run that does not abort exists and is visitable when the run starts. */
  lemma {:induction false} RunTargetsVisitable(files: map<Path, Document>, targets: seq<Path>, ks: Stream,
                                               sel: Selection)
    requires RunFiles(files, targets, ks, sel, false).abort == None
    ensures forall i :: 0 <= i < |targets| ==> targets[i] in files && Visitable(files[targets[i]], ks, sel)
    decreases |targets|
  {
    if targets != [] {
      var t, rest := targets[0], targets[1..];
      RunHeadVisitable(files, targets, ks, sel);
      RunHeadStep(files, targets, ks, sel);
      var doc := files[t];
      VisitInvolution(doc, ks, sel);
      var files1 := files[t := Visit(doc, ks, sel)];
      RunTargetsVisitable(files1, rest, ks, sel);
      forall i | 0 < i < |targets|
        ensures targets[i] in files && Visitable(files[targets[i]], ks, sel)
      {
        assert targets[i] == rest[i - 1];
      }
    }
  }

  /** Visiting `t` first and then `rest` visits each path as often as `[t] + rest` names it. */
  lemma VisitsCons(doc: Document, t: Path, rest: seq<Path>, p: Path, visited: Document, ks: Stream, sel: Selection)
    requires visited == if p == t then Visit(doc, ks, sel) else doc
    ensures Visits(visited, ks, sel, multiset(rest)[p]) == Visits(doc, ks, sel, multiset([t] + rest)[p])
  {
    if p == t {
      assert multiset([t] + rest)[p] == multiset(rest)[p] + 1;
    } else {
      assert multiset([t] + rest)[p] == multiset(rest)[p];
    }
  }

  /** A run that does not abort leaves each file as its own number of visits does. */
  lemma {:induction false} RunVisitsFiles(files: map<Path, Document>, targets: seq<Path>, ks: Stream,
                                          sel: Selection)
    requires RunFiles(files, targets, ks, sel, false).abort == None
    ensures forall p :: p in files ==> p in RunFiles(files, targets, ks, sel, false).files
    ensures forall p :: p in files ==>
      RunFiles(files, targets, ks, sel, false).files[p] == Visits(files[p], ks, sel, multiset(targets)[p])
    decreases |targets|
  {
    if targets != [] {
      var t, rest := targets[0], targets[1..];
      RunHeadVisitable(files, targets, ks, sel);
      RunHeadStep(files, targets, ks, sel);
      var files1 := files[t := Visit(files[t], ks, sel)];
      var r1 := RunFiles(files1, rest, ks, sel, false);
      assert RunFiles(files, targets, ks, sel, false).files == r1.files;
      RunVisitsFiles(files1, rest, ks, sel);
      assert targets == [t] + rest;
      forall p | p in files
        ensures p in r1.files && r1.files[p] == Visits(files[p], ks, sel, multiset(targets)[p])
      {
        VisitsCons(files[p], t, rest, p, files1[p], ks, sel);
      }
    }
  }

  /** A run that does not abort counts the visits to well-formed files. */
  lemma {:induction false} RunVisitsCount(files: map<Path, Document>, targets: seq<Path>, ks: Stream,
                                          sel: Selection)
    requires RunFiles(files, targets, ks, sel, false).abort == None
    ensures RunFiles(files, targets, ks, sel, false).processed == WellFormedVisits(files, targets)
    decreases |targets|
  {
    if targets != [] {
      var t, rest := targets[0], targets[1..];
      RunHeadVisitable(files, targets, ks, sel);
      RunHeadStep(files, targets, ks, sel);
      VisitInvolution(files[t], ks, sel);
      var files1 := files[t := Visit(files[t], ks, sel)];
      RunVisitsCount(files1, rest, ks, sel);
      WellFormedVisitsFlags(files, files1, rest);
    }
  }

  /**
    A run with no abort, repeated paths included: every target exists and is
    visitable, each file ends as its own number of visits leaves it, whatever
    the order, and the count is the number of visits to well-formed files.
  */
  lemma RunVisits(files: map<Path, Document>, targets: seq<Path>, ks: Stream, sel: Selection)
    requires RunFiles(files, targets, ks, sel, false).abort == None
    ensures forall i :: 0 <= i < |targets| ==> targets[i] in files && Visitable(files[targets[i]], ks, sel)
    ensures RunFiles(files, targets, ks, sel, false).files.Keys == files.Keys
    ensures forall p :: p in files ==>
      RunFiles(files, targets, ks, sel, false).files[p] == Visits(files[p], ks, sel, multiset(targets)[p])
    ensures RunFiles(files, targets, ks, sel, false).processed == WellFormedVisits(files, targets)
  {
    RunFrame(files, targets, ks, sel, false);
    RunTargetsVisitable(files, targets, ks, sel);
    RunVisitsFiles(files, targets, ks, sel);
    RunVisitsCount(files, targets, ks, sel);
  }

  /** With every target present and visitable, the run cannot abort. */
  lemma {:induction false} RunNoAbort(files: map<Path, Document>, targets: seq<Path>, ks: Stream, sel: Selection)
    requires forall i :: 0 <= i < |targets| ==> targets[i] in files && Visitable(files[targets[i]], ks, sel)
    ensures RunFiles(files, targets, ks, sel, false).abort == None
    decreases |targets|
  {
    if targets != [] {
      var t, rest := targets[0], targets[1..];
      var doc := files[t];
      RunHeadStep(files, targets, ks, sel);
      VisitInvolution(doc, ks, sel);
      var files1 := files[t := Visit(doc, ks, sel)];
      forall i | 0 <= i < |rest|
        ensures rest[i] in files1 && Visitable(files1[rest[i]], ks, sel)
      {
        assert rest[i] == targets[i + 1];
      }
      RunNoAbort(files1, rest, ks, sel);
    }
  }

  /**
    A store where each file has had its own number of visits: visiting it as
    often again restores every file, and every target stays visitable.
  */
  lemma VisitedStore(files: map<Path, Document>, g: map<Path, Document>, targets: seq<Path>,
                     ks: Stream, sel: Selection)
    requires forall i :: 0 <= i < |targets| ==> targets[i] in files && Visitable(files[targets[i]], ks, sel)
    requires g.Keys == files.Keys
    requires forall p :: p in files ==> g[p] == Visits(files[p], ks, sel, multiset(targets)[p])
    ensures forall i :: 0 <= i < |targets| ==> targets[i] in g && Visitable(g[targets[i]], ks, sel)
    ensures forall p :: p in files ==> g[p].malformed == files[p].malformed
    ensures forall p :: p in files ==> Visits(g[p], ks, sel, multiset(targets)[p]) == files[p]
  {
    forall p | p in files
      ensures multiset(targets)[p] > 0 ==> Visitable(g[p], ks, sel)
      ensures g[p].malformed == files[p].malformed
      ensures Visits(g[p], ks, sel, multiset(targets)[p]) == files[p]
    {
      if multiset(targets)[p] > 0 {
        assert p in multiset(targets);
        var i :| 0 <= i < |targets| && targets[i] == p;
        VisitsTwice(files[p], ks, sel, multiset(targets)[p]);
      }
    }
    forall i | 0 <= i < |targets|
      ensures targets[i] in g && Visitable(g[targets[i]], ks, sel)
    {
      assert targets[i] in multiset(targets);
    }
  }

  /**
    Encryption and decryption are the same command: running the same
    password and column selection over the same targets twice, a path given
    or reached more than once included, leaves every file as it was, with
    the same count of altered files.
  */
  lemma RunInvolution(files: map<Path, Document>, targets: seq<Path>, ks: Stream, sel: Selection)
    requires RunFiles(files, targets, ks, sel, false).abort == None
    ensures var r := RunFiles(files, targets, ks, sel, false);
            RunFiles(r.files, targets, ks, sel, false) == Run(files, r.processed, None)
  {
    var r := RunFiles(files, targets, ks, sel, false);
    RunVisits(files, targets, ks, sel);
    VisitedStore(files, r.files, targets, ks, sel);
    RunNoAbort(r.files, targets, ks, sel);
    RunVisits(r.files, targets, ks, sel);
    WellFormedVisitsFlags(files, r.files, targets);
    var r2 := RunFiles(r.files, targets, ks, sel, false);
    assert r2.files == files;
  }

  /**
    Nothing stops the same path from being given twice: a well-formed file
    is then transformed and transformed back within one run, and both passes
    are counted.
  */
  lemma SameFileTwice(files: map<Path, Document>, t: Path, ks: Stream, sel: Selection)
    requires t in files && !files[t].malformed
    requires TransformTable(ks, 0, files[t].rows, sel).Transformed?
    ensures RunFiles(files, [t, t], ks, sel, false) == Run(files, 2, None)
  {
    var doc := files[t];
    var out := TransformTable(ks, 0, doc.rows, sel).rows;
    var files1 := files[t := Document(out, false)];
    CommitOneFile(files, t, ks, sel, false);
    assert RunFiles(files, [t], ks, sel, false) == Run(files1, 1, None);
    TableInvolution(ks, 0, doc.rows, sel);
    assert files1[t].rows == out;
    CommitOneFile(files1, t, ks, sel, false);
    assert files1[t := Document(doc.rows, false)] == files;
    assert RunFiles(files1, [t], ks, sel, false) == Run(files, 1, None);
    RunAppend(files, [t], [t], ks, sel, false);
    assert [t] + [t] == [t, t];
  }
}
