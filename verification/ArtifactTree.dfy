/** The artifact directory of a qualification set: an explicit-stack scan with limits
    that lists every file of the tree exactly once. */
module ArtifactTree {

  const MAX_ARTIFACTS: nat := 256
  const MAX_ARTIFACT_TREE_DEPTH: nat := 8
  const MAX_ARTIFACT_TREE_ENTRIES: nat := 256 * 9

  type Path = seq<string>
  type Bytes = seq<int>

  /** What a directory entry can be; `Broken` cannot be inspected, `Special` is
      neither a directory, a link nor a regular file. The entries of a directory are
      given in the order of their names. */
  datatype Node =
    | Dir(readable: bool, entries: seq<Entry>)
    | Regular(content: Bytes, readable: bool)
    | Special
    | Link
    | Broken

  datatype Entry = Entry(name: string, node: Node)

  datatype Found = Found(path: Path, node: Node)

  predicate IsFile(n: Node) {
    n.Regular? || n.Special?
  }

  // ---------------------------------------------------------------- measures of a tree

  /** What can be added up over a tree: its entries, its files (links included), its
      flaws, and how often a given file occurs in it. */
  datatype Measure = Entries | Files | Flaws | Occurrences(f: Found)

  /** What one entry at a path contributes by itself. */
  function Own(m: Measure, n: Node, path: Path): nat {
    match m
    case Entries => 1
    case Files => if IsFile(n) || n.Link? then 1 else 0
    case Flaws => if n.Link? || n.Broken? || (n.Dir? && |path| > 8) then 1 else 0
    case Occurrences(f) => if IsFile(n) && f == Found(path, n) then 1 else 0
  }

  /** What lies inside a directory. */
  function Inside(m: Measure, d: Node, path: Path): nat
    requires d.Dir?
    decreases d, 0
  {
    (if m.Flaws? && !d.readable then 1 else 0) + All(m, d.entries, path)
  }

  function All(m: Measure, es: seq<Entry>, path: Path): nat
    decreases es, 1
  {
    if es == [] then 0
    else
      var last := es[|es| - 1];
      All(m, es[..|es| - 1], path) + Own(m, last.node, path + [last.name]) + Below(m, last, path)
  }

  function Below(m: Measure, e: Entry, path: Path): nat
    decreases e, 2
  {
    if e.node.Dir? then Inside(m, e.node, path + [e.name]) else 0
  }

  /** Readable throughout, without links, not too deep, not too large. */
  ghost predicate Fits(root: Node)
    requires root.Dir?
  {
    && Inside(Flaws, root, []) == 0
    && Inside(Entries, root, []) <= 2304
    && Inside(Files, root, []) <= 256
  }

  // ---------------------------------------------------------------- the scan

  datatype Pending = Pending(node: Node, path: Path)

  datatype State = State(stack: seq<Pending>, files: seq<Found>, entryCount: nat, fileCount: nat,
                         errors: nat, halted: bool)

  predicate AllDirs(stack: seq<Pending>) {
    forall i :: 0 <= i < |stack| ==> stack[i].node.Dir?
  }

  ghost function Waiting(m: Measure, stack: seq<Pending>): nat
    requires AllDirs(stack)
  {
    if stack == [] then 0
    else
      var top := stack[|stack| - 1];
      Waiting(m, stack[..|stack| - 1]) + Inside(m, top.node, top.path)
  }

  ghost function Occurs(files: seq<Found>, f: Found): nat {
    if files == [] then 0
    else Occurs(files[..|files| - 1], f) + (if files[|files| - 1] == f then 1 else 0)
  }

  ghost function Done(m: Measure, st: State): nat {
    match m
    case Entries => st.entryCount
    case Files => st.fileCount
    case Flaws => 0
    case Occurrences(f) => Occurs(st.files, f)
  }

  lemma WaitingPush(m: Measure, stack: seq<Pending>, p: Pending)
    requires AllDirs(stack) && p.node.Dir?
    ensures AllDirs(stack + [p])
    ensures Waiting(m, stack + [p]) == Waiting(m, stack) + Inside(m, p.node, p.path)
  {
  }

  lemma OccursSnoc(files: seq<Found>, g: Found, f: Found)
    ensures Occurs(files + [g], f) == Occurs(files, f) + (if g == f then 1 else 0)
  {
  }

  /** What is done, what waits on the stack and what is left of the directory at hand
      make up the whole tree; while there is no error nothing was passed over. The
      entries of the directory at hand are counted ahead, before any is looked at. */
  ghost predicate Balanced(root: Node, st: State, left: seq<Entry>, path: Path)
    requires root.Dir?
  {
    && AllDirs(st.stack)
    && (forall m :: Sum(m, st, left, path) <= Inside(m, root, []) + Ahead(m, left))
    && (st.errors == 0 ==> forall m :: Sum(m, st, left, path) == Inside(m, root, []) + Ahead(m, left))
  }

  ghost function Sum(m: Measure, st: State, left: seq<Entry>, path: Path): nat
    requires AllDirs(st.stack)
  {
    Done(m, st) + Waiting(m, st.stack) + All(m, left, path)
  }

  function Ahead(m: Measure, left: seq<Entry>): nat {
    if m.Entries? then |left| else 0
  }

  predicate Limited(st: State) {
    st.errors == 0 ==> st.entryCount <= MAX_ARTIFACT_TREE_ENTRIES && st.fileCount <= MAX_ARTIFACTS
  }

  /** One directory entry. */
  function Look(st: State, n: Node, path: Path): State {
    match n
    case Broken => st.(errors := st.errors + 1)
    case Link =>
      var st' := st.(errors := st.errors + 1, fileCount := st.fileCount + 1);
      if st'.fileCount > MAX_ARTIFACTS then st'.(errors := st'.errors + 1, halted := true) else st'
    case Dir(_, _) =>
      if |path| > MAX_ARTIFACT_TREE_DEPTH then st.(errors := st.errors + 1)
      else st.(stack := st.stack + [Pending(n, path)])
    case _ =>
      var st' := st.(fileCount := st.fileCount + 1);
      if st'.fileCount > MAX_ARTIFACTS then st'.(errors := st'.errors + 1, halted := true)
      else st'.(files := st'.files + [Found(path, n)])
  }

  ghost predicate Moved(m: Measure, st: State, st': State, share: nat)
    requires AllDirs(st.stack)
  {
    && AllDirs(st'.stack) && st'.errors >= st.errors
    && Done(m, st') + Waiting(m, st'.stack) <= Done(m, st) + Waiting(m, st.stack) + share
    && (st'.errors == 0 ==> Done(m, st') + Waiting(m, st'.stack) == Done(m, st) + Waiting(m, st.stack) + share)
  }

  ghost function Share(m: Measure, e: Entry, path: Path): nat {
    (if m.Entries? then 0 else Own(m, e.node, path + [e.name])) + Below(m, e, path)
  }

  lemma LookAtDirMoves(m: Measure, st: State, e: Entry, path: Path)
    requires AllDirs(st.stack) && e.node.Dir?
    ensures Moved(m, st, Look(st, e.node, path + [e.name]), Share(m, e, path))
  {
  }

  lemma LookAtFileMoves(m: Measure, st: State, e: Entry, path: Path)
    requires AllDirs(st.stack) && IsFile(e.node)
    ensures Moved(m, st, Look(st, e.node, path + [e.name]), Share(m, e, path))
  {
    if m.Occurrences? {
      OccursSnoc(st.files, Found(path + [e.name], e.node), m.f);
    }
  }

  /** Looking at an entry moves its own share to what is done and its inside to the
      stack, or else counts an error. */
  lemma LookMoves(m: Measure, st: State, e: Entry, path: Path)
    requires AllDirs(st.stack)
    ensures Moved(m, st, Look(st, e.node, path + [e.name]), Share(m, e, path))
  {
    if e.node.Dir? {
      LookAtDirMoves(m, st, e, path);
    } else if IsFile(e.node) {
      LookAtFileMoves(m, st, e, path);
    }
  }

  lemma AllSnoc(m: Measure, es: seq<Entry>, k: nat, path: Path)
    requires k < |es|
    ensures All(m, es[..k + 1], path) ==
            All(m, es[..k], path) + Own(m, es[k].node, path + [es[k].name]) + Below(m, es[k], path)
  {
    assert es[..k + 1][..k] == es[..k];
  }

  lemma LookKeepsBalance(root: Node, st: State, es: seq<Entry>, k: nat, path: Path)
    requires root.Dir? && k < |es| && Balanced(root, st, es[..k + 1], path)
    ensures Balanced(root, Look(st, es[k].node, path + [es[k].name]), es[..k], path)
  {
    var st' := Look(st, es[k].node, path + [es[k].name]);
    forall m
      ensures AllDirs(st'.stack) && st'.errors >= st.errors
      ensures Sum(m, st', es[..k], path) <= Inside(m, root, []) + Ahead(m, es[..k])
      ensures st'.errors == 0 ==> Sum(m, st', es[..k], path) == Inside(m, root, []) + Ahead(m, es[..k])
    {
      AllSnoc(m, es, k, path);
      LookMoves(m, st, es[k], path);
      assert Sum(m, st, es[..k + 1], path) <= Inside(m, root, []) + Ahead(m, es[..k + 1]);
    }
  }

  /** An error is counted only for a tree that does not fit. */
  lemma LookBlamesFairly(root: Node, st: State, es: seq<Entry>, k: nat, path: Path)
    requires root.Dir? && k < |es| && Balanced(root, st, es[..k + 1], path) && st.errors == 0
    requires Look(st, es[k].node, path + [es[k].name]).errors > 0
    ensures !Fits(root)
  {
  }

  lemma LookShrinks(st: State, e: Entry, path: Path)
    requires AllDirs(st.stack)
    ensures var st' := Look(st, e.node, path + [e.name]);
            && AllDirs(st'.stack)
            && Work(st') <= Work(st) + 1 + Below(Entries, e, path)
  {
    if e.node.Dir? {
      WaitingPush(Entries, st.stack, Pending(e.node, path + [e.name]));
    }
  }

  /** What every moment of the scan keeps. */
  ghost predicate Sound(root: Node, st: State, left: seq<Entry>, path: Path)
    requires root.Dir?
  {
    && Balanced(root, st, left, path) && Limited(st)
    && (st.errors > 0 ==> !Fits(root)) && (st.halted ==> st.errors > 0)
  }

  lemma LookKeepsSound(root: Node, st: State, es: seq<Entry>, k: nat, path: Path)
    requires root.Dir? && k < |es| && Sound(root, st, es[..k + 1], path) && !st.halted
    ensures Sound(root, Look(st, es[k].node, path + [es[k].name]), es[..k], path)
  {
    LookKeepsBalance(root, st, es, k, path);
    if st.errors == 0 && Look(st, es[k].node, path + [es[k].name]).errors > 0 {
      LookBlamesFairly(root, st, es, k, path);
    }
  }

  ghost function Work(st: State): nat
    requires AllDirs(st.stack)
  {
    Waiting(Entries, st.stack) + |st.stack|
  }

  method LookAtAll(root: Node, st0: State, es: seq<Entry>, path: Path) returns (st: State)
    requires root.Dir? && Sound(root, st0, es, path) && !st0.halted
    ensures exists k :: 0 <= k <= |es| && Sound(root, st, es[..k], path) && (k == 0 || st.halted)
    ensures AllDirs(st.stack) && Work(st) <= Work(st0) + All(Entries, es, path)
  {
    st := st0;
    assert es[..|es|] == es;
    var k := |es|;
    while k > 0 && !st.halted
      invariant 0 <= k <= |es|
      invariant Sound(root, st, es[..k], path)
      invariant Work(st) + All(Entries, es[..k], path) <= Work(st0) + All(Entries, es, path)
    {
      k := k - 1;
      LookKeepsSound(root, st, es, k, path);
      LookShrinks(st, es[k], path);
      AllSnoc(Entries, es, k, path);
      st := Look(st, es[k].node, path + [es[k].name]);
    }
  }

  // ---------------------------------------------------------------- directories

  lemma {:induction false} EntriesCounted(es: seq<Entry>, path: Path)
    ensures |es| <= All(Entries, es, path)
  {
    if es != [] {
      EntriesCounted(es[..|es| - 1], path);
    }
  }

  function Popped(st: State): State
    requires st.stack != []
  {
    st.(stack := st.stack[..|st.stack| - 1])
  }

  /** Reading the names of a directory counts them, up to the limit. */
  method CountEntries(st0: State, n: nat) returns (st: State)
    requires !st0.halted
    ensures st.halted <==> n > 0 && st0.entryCount + n > 2304
    ensures !st.halted ==> st == st0.(entryCount := st0.entryCount + n)
    ensures st.halted ==> st.stack == st0.stack && st.files == st0.files && st.errors > 0
  {
    st := st0;
    for i := 0 to n
      invariant st == st0.(entryCount := st0.entryCount + i)
      invariant i > 0 ==> st.entryCount <= MAX_ARTIFACT_TREE_ENTRIES
    {
      st := st.(entryCount := st.entryCount + 1);
      if st.entryCount > MAX_ARTIFACT_TREE_ENTRIES {
        return st.(errors := st.errors + 1, halted := true);
      }
    }
  }

  lemma PopUnbalances(root: Node, st: State, m: Measure)
    requires root.Dir? && Balanced(root, st, [], []) && st.stack != []
    ensures var top := st.stack[|st.stack| - 1];
            && AllDirs(Popped(st).stack) && top.node.Dir?
            && Done(m, st) + Waiting(m, Popped(st).stack) + Inside(m, top.node, top.path) <= Inside(m, root, [])
            && (st.errors == 0 ==>
                 Done(m, st) + Waiting(m, Popped(st).stack) + Inside(m, top.node, top.path) == Inside(m, root, []))
            && Done(m, Popped(st)) == Done(m, st)
  {
  }

  /** A directory that cannot be read is passed over, with an error. */
  lemma SkipKeepsBalance(root: Node, st: State)
    requires root.Dir? && Balanced(root, st, [], []) && st.stack != []
    ensures Balanced(root, Popped(st).(errors := st.errors + 1), [], [])
    ensures AllDirs(st.stack) && st.errors == 0 && !st.stack[|st.stack| - 1].node.readable ==> !Fits(root)
  {
  }

  /** A directory that is opened has its entries counted ahead. */
  lemma OpenKeepsBalance(root: Node, st: State)
    requires root.Dir? && Balanced(root, st, [], []) && st.stack != []
    requires st.stack[|st.stack| - 1].node.Dir? && st.stack[|st.stack| - 1].node.readable
    ensures var top := st.stack[|st.stack| - 1];
            var es := top.node.entries;
            && Balanced(root, Popped(st).(entryCount := st.entryCount + |es|), es, top.path)
            && st.entryCount + |es| <= Inside(Entries, root, [])
  {
    var top := st.stack[|st.stack| - 1];
    var es := top.node.entries;
    var st' := Popped(st).(entryCount := st.entryCount + |es|);
    forall m
      ensures AllDirs(st'.stack)
      ensures Sum(m, st', es, top.path) <= Inside(m, root, []) + Ahead(m, es)
      ensures st'.errors == 0 ==> Sum(m, st', es, top.path) == Inside(m, root, []) + Ahead(m, es)
    {
      PopUnbalances(root, st, m);
      assert Done(m, st') == Done(m, st) + Ahead(m, es);
    }
    PopUnbalances(root, st, Entries);
    EntriesCounted(es, top.path);
  }

  ghost predicate NotRepeated(root: Node, files: seq<Found>)
    requires root.Dir?
  {
    forall f :: Occurs(files, f) <= Inside(Occurrences(f), root, [])
  }

  /** A scan that is over or has nothing at hand. */
  ghost predicate Settled(root: Node, st: State)
    requires root.Dir?
  {
    && AllDirs(st.stack) && NotRepeated(root, st.files)
    && (st.errors > 0 ==> !Fits(root)) && (st.halted ==> st.errors > 0)
    && (!st.halted ==> Balanced(root, st, [], []) && Limited(st))
  }

  lemma SoundIsSettled(root: Node, st: State, left: seq<Entry>, path: Path)
    requires root.Dir? && Sound(root, st, left, path) && (left == [] || st.halted)
    ensures Settled(root, st)
  {
  }

  /** One turn of the scan handles the directory on top of the stack. */
  method Turn(root: Node, st0: State) returns (st: State)
    requires root.Dir? && Settled(root, st0) && !st0.halted && st0.stack != []
    ensures Settled(root, st)
    ensures !st.halted ==> Work(st) < Work(st0)
  {
    var top := st0.stack[|st0.stack| - 1];
    if !top.node.readable {
      SkipKeepsBalance(root, st0);
      st := Popped(st0).(errors := st0.errors + 1);
      return;
    }
    OpenKeepsBalance(root, st0);
    st := CountEntries(Popped(st0), |top.node.entries|);
    if !st.halted {
      st := LookAtAll(root, st, top.node.entries, top.path);
      ghost var k :| 0 <= k <= |top.node.entries| && Sound(root, st, top.node.entries[..k], top.path)
                     && (k == 0 || st.halted);
      SoundIsSettled(root, st, top.node.entries[..k], top.path);
    }
  }

  /** The scan ends; it reports no error exactly for the trees that fit, and then it
      has listed every file as often as it occurs; it never lists one more often. */
  method ScanTree(root: Node) returns (files: seq<Found>, errors: nat)
    requires root.Dir?
    ensures errors == 0 <==> Fits(root)
    ensures NotRepeated(root, files)
    ensures errors == 0 ==> forall f :: Occurs(files, f) == Inside(Occurrences(f), root, [])
  {
    var st := State([Pending(root, [])], [], 0, 0, 0, false);
    StartBalanced(root);
    while st.stack != [] && !st.halted
      invariant Settled(root, st)
      decreases !st.halted, Work(st)
    {
      st := Turn(root, st);
    }
    files, errors := st.files, st.errors;
    if errors == 0 {
      EndComplete(root, st);
    }
  }

  lemma StartBalanced(root: Node)
    requires root.Dir?
    ensures Balanced(root, State([Pending(root, [])], [], 0, 0, 0, false), [], [])
  {
    var st := State([Pending(root, [])], [], 0, 0, 0, false);
    forall m ensures AllDirs(st.stack) && Sum(m, st, [], []) == Inside(m, root, []) + Ahead(m, []) {
      WaitingPush(m, [], Pending(root, []));
      assert [] + [Pending(root, [])] == st.stack;
    }
  }

  /** At the end nothing waits, so what was done is the whole tree. */
  lemma EndComplete(root: Node, st: State)
    requires root.Dir? && Balanced(root, st, [], []) && st.stack == [] && st.errors == 0
    requires Limited(st)
    ensures Fits(root)
    ensures forall f :: Occurs(st.files, f) == Inside(Occurrences(f), root, [])
  {
  }

  // ---------------------------------------------------------------- files by their paths

  ghost predicate DistinctNames(es: seq<Entry>) {
    && (forall i, j :: 0 <= i < j < |es| ==> es[i].name != es[j].name)
    && forall i :: 0 <= i < |es| && es[i].node.Dir? ==> DistinctNames(es[i].node.entries)
  }

  /** A path names a node by descending from entry to entry. */
  ghost predicate Names(es: seq<Entry>, path: Path, n: Node)
    decreases |path|, 0
  {
    path != [] && exists i :: 0 <= i < |es| && es[i].name == path[0] && Reached(es[i].node, path[1..], n)
  }

  ghost predicate Reached(here: Node, rest: Path, n: Node)
    decreases |rest|, 1
  {
    if rest == [] then here == n else here.Dir? && Names(here.entries, rest, n)
  }

  lemma PathSplits(p: Path, name: string, q: Path)
    ensures p + [name] <= q <==> p <= q && q[|p|..] != [] && q[|p|..][0] == name
    ensures p + [name] <= q ==> q[|p| + 1..] == q[|p|..][1..]
  {}

  lemma {:induction false} EntryOccurs(f: Found, e: Entry, p: Path)
    requires IsFile(f.node) && (e.node.Dir? ==> DistinctNames(e.node.entries))
    ensures Own(Occurrences(f), e.node, p + [e.name]) + Below(Occurrences(f), e, p) ==
            if p + [e.name] <= f.path && Reached(e.node, f.path[|p| + 1..], f.node) then 1 else 0
    decreases e, 2
  {
    var here := p + [e.name];
    if here <= f.path && f.path[|p| + 1..] == [] {
      assert here == f.path;
    }
    if e.node.Dir? {
      OccursIffNamed(f, e.node.entries, here);
    }
  }

  /** In a tree whose directories do not repeat a name, a file occurs once where its
      path leads to it and nowhere else. */
  lemma {:induction false} OccursIffNamed(f: Found, es: seq<Entry>, p: Path)
    requires IsFile(f.node) && DistinctNames(es)
    ensures All(Occurrences(f), es, p) ==
            if p <= f.path && Names(es, f.path[|p|..], f.node) then 1 else 0
    decreases es, 1
  {
    if es != [] {
      var n := |es| - 1;
      var init, last := es[..n], es[n];
      OccursIffNamed(f, init, p);
      EntryOccurs(f, last, p);
      PathSplits(p, last.name, f.path);
      if p <= f.path {
        NamesSnoc(init, last, f.path[|p|..], f.node);
        assert es == init + [last];
      }
    }
  }

  lemma NamesSnoc(init: seq<Entry>, last: Entry, path: Path, n: Node)
    requires DistinctNames(init + [last])
    ensures Names(init + [last], path, n) <==>
            Names(init, path, n) || (path != [] && last.name == path[0] && Reached(last.node, path[1..], n))
    ensures path != [] && last.name == path[0] ==> !Names(init, path, n)
  {
    var es := init + [last];
    assert es[|init|] == last;
    if i :| path != [] && 0 <= i < |init| && init[i].name == path[0] && Reached(init[i].node, path[1..], n) {
      assert es[i] == init[i];
      assert es[i].name != es[|init|].name;
    }
    if i :| path != [] && 0 <= i < |es| && es[i].name == path[0] && Reached(es[i].node, path[1..], n) {
      if i < |init| {
        assert es[i] == init[i];
      }
    }
  }

  lemma {:induction false} OnlyFilesOccur(f: Found, es: seq<Entry>, p: Path)
    requires !IsFile(f.node)
    ensures All(Occurrences(f), es, p) == 0
    decreases es
  {
    if es != [] {
      var last := es[|es| - 1];
      OnlyFilesOccur(f, es[..|es| - 1], p);
      if last.node.Dir? {
        OnlyFilesOccur(f, last.node.entries, p + [last.name]);
      }
      assert Below(Occurrences(f), last, p) == 0;
    }
  }

  ghost predicate FileAt(root: Node, path: Path, n: Node)
    requires root.Dir?
  {
    IsFile(n) && Names(root.entries, path, n)
  }

  lemma OccursIffFileAt(root: Node, f: Found)
    requires root.Dir? && DistinctNames(root.entries)
    ensures Inside(Occurrences(f), root, []) == if FileAt(root, f.path, f.node) then 1 else 0
  {
    if IsFile(f.node) {
      OccursIffNamed(f, root.entries, []);
      assert f.path[0..] == f.path;
    } else {
      OnlyFilesOccur(f, root.entries, []);
    }
  }

  lemma {:induction false} PathNamesOne(es: seq<Entry>, path: Path, n: Node, n': Node)
    requires DistinctNames(es) && Names(es, path, n) && Names(es, path, n')
    ensures n == n'
    decreases |path|
  {
    var i :| 0 <= i < |es| && es[i].name == path[0] && Reached(es[i].node, path[1..], n);
    var j :| 0 <= j < |es| && es[j].name == path[0] && Reached(es[j].node, path[1..], n');
    assert i == j;
    if path[1..] != [] {
      PathNamesOne(es[i].node.entries, path[1..], n, n');
    }
  }

  lemma {:induction false} OccursIffListed(files: seq<Found>, f: Found)
    ensures Occurs(files, f) > 0 <==> f in files
  {
    if files != [] {
      OccursIffListed(files[..|files| - 1], f);
      assert files == files[..|files| - 1] + [files[|files| - 1]];
    }
  }

  lemma {:induction false} TwoOccur(files: seq<Found>, i: nat, j: nat)
    requires i < j < |files| && files[i] == files[j]
    ensures Occurs(files, files[i]) >= 2
  {
    var n := |files| - 1;
    if j == n {
      assert files[..n][i] == files[i];
      OccursIffListed(files[..n], files[i]);
    } else {
      TwoOccur(files[..n], i, j);
    }
  }

  ghost predicate DistinctPaths(files: seq<Found>) {
    forall i, j :: 0 <= i < j < |files| ==> files[i].path != files[j].path
  }

  /** Whatever the scan returns, errors or not, names no path twice and no path that
      does not lead to that file. */
  lemma ListingIsDistinct(root: Node, files: seq<Found>)
    requires root.Dir? && DistinctNames(root.entries) && NotRepeated(root, files)
    ensures DistinctPaths(files)
    ensures forall f :: f in files ==> FileAt(root, f.path, f.node)
  {
    forall f | f in files ensures FileAt(root, f.path, f.node) {
      OccursIffListed(files, f);
      OccursIffFileAt(root, f);
    }
    forall i, j | 0 <= i < j < |files| ensures files[i].path != files[j].path {
      if files[i].path == files[j].path {
        assert files[i] in files && files[j] in files;
        PathNamesOne(root.entries, files[i].path, files[i].node, files[j].node);
        TwoOccur(files, i, j);
        OccursIffFileAt(root, files[i]);
      }
    }
  }

  /** Without an error the listing is the set of files of the tree. */
  lemma ListingIsComplete(root: Node, files: seq<Found>)
    requires root.Dir? && DistinctNames(root.entries)
    requires forall f :: Occurs(files, f) == Inside(Occurrences(f), root, [])
    ensures forall f :: f in files <==> FileAt(root, f.path, f.node)
  {
    forall f ensures f in files <==> FileAt(root, f.path, f.node) {
      OccursIffListed(files, f);
      OccursIffFileAt(root, f);
    }
  }
}
