/** The artifact manifest of a qualification set against the files that are present. */
module ArtifactManifest {
  import opened ArtifactTree

  const MAX_ARTIFACT_BYTES: nat := 64 * 1024 * 1024
  const MAX_ARTIFACT_TOTAL_BYTES: nat := 512 * 1024 * 1024

  datatype Item = Item(path: Path, size: int, digest: string)

  function Aggregate(manifest: seq<Item>): int {
    if manifest == [] then 0 else Aggregate(manifest[..|manifest| - 1]) + manifest[|manifest| - 1].size
  }

  ghost predicate DistinctItems(manifest: seq<Item>) {
    forall i, j :: 0 <= i < j < |manifest| ==> manifest[i].path != manifest[j].path
  }

  predicate InRange(item: Item) {
    0 <= item.size <= 67_108_864
  }

  ghost predicate AllInRange(manifest: seq<Item>) {
    forall i :: 0 <= i < |manifest| ==> InRange(manifest[i])
  }

  ghost function ItemPaths(manifest: seq<Item>): set<Path> {
    set i | 0 <= i < |manifest| :: manifest[i].path
  }

  ghost predicate Shape(manifest: seq<Item>) {
    && 1 <= |manifest| <= 256
    && DistinctItems(manifest)
    && AllInRange(manifest)
    && Aggregate(manifest) <= 536_870_912
  }

  /** The shape of a manifest. */
  method CheckShape(manifest: seq<Item>) returns (errors: nat)
    ensures errors == 0 <==> Shape(manifest)
  {
    if !(1 <= |manifest| <= MAX_ARTIFACTS) {
      return 1;
    }
    errors := 0;
    var seen: set<Path> := {};
    var aggregate := 0;
    for n := 0 to |manifest|
      invariant seen == ItemPaths(manifest[..n])
      invariant aggregate == Aggregate(manifest[..n])
      invariant errors == 0 <==> DistinctItems(manifest[..n]) && AllInRange(manifest[..n])
    {
      var item := manifest[n];
      ItemsSnoc(manifest, n);
      if item.path in seen {
        errors := errors + 1;
      }
      seen := seen + {item.path};
      if !InRange(item) {
        errors := errors + 1;
      }
      aggregate := aggregate + item.size;
    }
    assert manifest[..|manifest|] == manifest;
    if aggregate > MAX_ARTIFACT_TOTAL_BYTES {
      errors := errors + 1;
    }
  }

  lemma ItemsSnoc(manifest: seq<Item>, n: nat)
    requires n < |manifest|
    ensures ItemPaths(manifest[..n + 1]) == ItemPaths(manifest[..n]) + {manifest[n].path}
    ensures Aggregate(manifest[..n + 1]) == Aggregate(manifest[..n]) + manifest[n].size
    ensures AllInRange(manifest[..n + 1]) <==> AllInRange(manifest[..n]) && InRange(manifest[n])
    ensures DistinctItems(manifest[..n + 1]) <==>
            DistinctItems(manifest[..n]) && manifest[n].path !in ItemPaths(manifest[..n])
  {
    var p, q := manifest[..n], manifest[..n + 1];
    assert q[..n] == p && q == p + [manifest[n]];
    assert forall i :: 0 <= i < n ==> q[i].path == p[i].path;
    assert q[n].path in ItemPaths(q);
    ItemsApart(p, q);
  }

  lemma ItemsApart(p: seq<Item>, q: seq<Item>)
    requires |q| == |p| + 1 && forall i :: 0 <= i < |p| ==> q[i] == p[i]
    ensures DistinctItems(q) <==> DistinctItems(p) && q[|p|].path !in ItemPaths(p)
  {
  }

  // ---------------------------------------------------------------- budgets

  /** The listed bytes of the paths that are present. */
  ghost function Budget(manifest: seq<Item>, present: set<Path>): int {
    if manifest == [] then 0
    else
      var last := manifest[|manifest| - 1];
      Budget(manifest[..|manifest| - 1], present) + (if last.path in present then last.size else 0)
  }

  lemma {:induction false} BudgetWithin(manifest: seq<Item>, present: set<Path>)
    requires AllInRange(manifest)
    ensures 0 <= Budget(manifest, present) <= Aggregate(manifest)
  {
    if manifest != [] {
      BudgetWithin(manifest[..|manifest| - 1], present);
    }
  }

  lemma {:induction false} BudgetGrows(manifest: seq<Item>, present: set<Path>, k: nat)
    requires DistinctItems(manifest) && k < |manifest| && manifest[k].path !in present
    ensures Budget(manifest, present + {manifest[k].path}) == Budget(manifest, present) + manifest[k].size
  {
    var n := |manifest| - 1;
    var p := manifest[k].path;
    if k == n {
      BudgetIgnores(manifest[..n], present, p);
    } else {
      assert manifest[..n][k] == manifest[k];
      BudgetGrows(manifest[..n], present, k);
    }
  }

  lemma {:induction false} BudgetIgnores(manifest: seq<Item>, present: set<Path>, p: Path)
    requires forall i :: 0 <= i < |manifest| ==> manifest[i].path != p
    ensures Budget(manifest, present + {p}) == Budget(manifest, present)
  {
    if manifest != [] {
      BudgetIgnores(manifest[..|manifest| - 1], present, p);
    }
  }

  // ---------------------------------------------------------------- verification

  /** `listed` looks up the manifest by path. */
  ghost predicate Indexes(listed: map<Path, Item>, manifest: seq<Item>) {
    && (forall p :: p in listed ==> listed[p] in manifest && listed[p].path == p)
    && (forall i :: 0 <= i < |manifest| ==> manifest[i].path in listed)
  }

  method Index(manifest: seq<Item>) returns (listed: map<Path, Item>)
    ensures Indexes(listed, manifest)
  {
    listed := map[];
    for n := 0 to |manifest|
      invariant forall p :: p in listed ==> listed[p] in manifest && listed[p].path == p
      invariant forall i :: 0 <= i < n ==> manifest[i].path in listed
    {
      listed := listed[manifest[n].path := manifest[n]];
    }
  }

  predicate Matches(hash: Bytes -> string, n: Node, item: Item) {
    n.Regular? && n.readable && |n.content| == item.size && hash(n.content) == item.digest
  }

  predicate Good(hash: Bytes -> string, f: Found, listed: map<Path, Item>) {
    f.path in listed && Matches(hash, f.node, listed[f.path])
  }

  ghost predicate AllGood(hash: Bytes -> string, files: seq<Found>, listed: map<Path, Item>) {
    forall i :: 0 <= i < |files| ==> Good(hash, files[i], listed)
  }

  ghost function PathsOf(files: seq<Found>): set<Path> {
    set i | 0 <= i < |files| :: files[i].path
  }

  lemma PathsSnoc(files: seq<Found>, n: nat)
    requires n < |files|
    ensures PathsOf(files[..n + 1]) == PathsOf(files[..n]) + {files[n].path}
    ensures DistinctPaths(files) ==> files[n].path !in PathsOf(files[..n])
  {
  }

  /** A good file is within both byte limits, because the manifest is. */
  lemma GoodFileFits(hash: Bytes -> string, f: Found, manifest: seq<Item>, listed: map<Path, Item>, present: set<Path>)
    requires Shape(manifest) && Indexes(listed, manifest) && Good(hash, f, listed) && f.path !in present
    ensures |f.node.content| <= 67_108_864
    ensures Budget(manifest, present) + |f.node.content| == Budget(manifest, present + {f.path})
    ensures Budget(manifest, present + {f.path}) <= 536_870_912
  {
    var k :| 0 <= k < |manifest| && manifest[k] == listed[f.path];
    assert InRange(manifest[k]);
    BudgetGrows(manifest, present, k);
    BudgetWithin(manifest, present + {f.path});
  }

  datatype Outcome = Passed(size: nat) | Failed(errors: nat) | Stopped

  /** One listed file: reading stops for good at a byte limit. */
  method CheckFile(hash: Bytes -> string, f: Found, listed: map<Path, Item>, aggregate: int) returns (r: Outcome)
    ensures r.Passed? <==>
      Good(hash, f, listed) && |f.node.content| <= 67_108_864
      && |f.node.content| <= 536_870_912 - aggregate
    ensures r.Passed? ==> r.size == |f.node.content|
    ensures r.Failed? ==> r.errors > 0 && !Good(hash, f, listed)
    ensures r.Stopped? ==>
      && f.node.Regular?
      && (|f.node.content| > 67_108_864 || |f.node.content| > 536_870_912 - aggregate)
  {
    if !f.node.Regular? || f.path !in listed || !f.node.readable {
      return Failed(1);
    }
    var size := |f.node.content|;
    if size > MAX_ARTIFACT_BYTES || size > MAX_ARTIFACT_TOTAL_BYTES - aggregate {
      return Stopped;
    }
    var item := listed[f.path];
    var wrong := (if size != item.size then 1 else 0) + (if hash(f.node.content) != item.digest then 1 else 0);
    return if wrong == 0 then Passed(size) else Failed(wrong);
  }

  function SizeRead(f: Found, listed: map<Path, Item>): nat {
    if f.node.Regular? && f.node.readable && f.path in listed then |f.node.content| else 0
  }

  /** With a well-shaped manifest the byte limits never decide: the files pass exactly
      when each is listed and has the listed size and digest. */
  method CheckFiles(hash: Bytes -> string, files: seq<Found>, manifest: seq<Item>, listed: map<Path, Item>)
    returns (errors: nat, present: set<Path>, aggregate: int)
    requires Indexes(listed, manifest)
    ensures Shape(manifest) && DistinctPaths(files) ==> (errors == 0 <==> AllGood(hash, files, listed))
    ensures Shape(manifest) && DistinctPaths(files) && errors == 0 ==>
              present == PathsOf(files) && aggregate <= MAX_ARTIFACT_TOTAL_BYTES
  {
    errors, present, aggregate := 0, {}, 0;
    ghost var sane := Shape(manifest) && DistinctPaths(files);
    if sane {
      BudgetWithin(manifest, {});
      BudgetOfNone(manifest);
    }
    for n := 0 to |files|
      invariant present == PathsOf(files[..n])
      invariant errors == 0 ==> AllGood(hash, files[..n], listed)
      invariant sane && errors == 0 ==> aggregate == Budget(manifest, present) <= MAX_ARTIFACT_TOTAL_BYTES
      invariant sane && errors > 0 ==> !AllGood(hash, files, listed)
    {
      var f := files[n];
      PathsSnoc(files, n);
      if sane && errors == 0 && Good(hash, f, listed) {
        GoodFileFits(hash, f, manifest, listed, present);
      }
      present := present + {f.path};
      var r := CheckFile(hash, f, listed, aggregate);
      match r {
        case Passed(size) => aggregate := aggregate + size;
        case Failed(e) => errors := errors + e; aggregate := aggregate + SizeRead(f, listed);
        case Stopped => errors := errors + 1; break;
      }
    }
    assert files[..|files|] == files;
  }

  lemma {:induction false} BudgetOfNone(manifest: seq<Item>)
    ensures Budget(manifest, {}) == 0
  {
    if manifest != [] {
      BudgetOfNone(manifest[..|manifest| - 1]);
    }
  }

  /** The files of the tree are exactly the listed ones, with the listed contents. */
  ghost predicate Exact(hash: Bytes -> string, root: Node, manifest: seq<Item>)
    requires root.Dir?
  {
    && (forall p, n :: FileAt(root, p, n) ==> ListedAs(hash, manifest, p, n))
    && (forall k :: 0 <= k < |manifest| ==> IsPresent(root, manifest[k].path))
  }

  ghost predicate IsPresent(root: Node, p: Path)
    requires root.Dir?
  {
    exists n :: FileAt(root, p, n)
  }

  ghost predicate ListedAs(hash: Bytes -> string, manifest: seq<Item>, p: Path, n: Node) {
    exists k :: 0 <= k < |manifest| && manifest[k].path == p && Matches(hash, n, manifest[k])
  }

  lemma GoodIffListed(hash: Bytes -> string, f: Found, manifest: seq<Item>, listed: map<Path, Item>)
    requires Indexes(listed, manifest) && DistinctItems(manifest)
    ensures Good(hash, f, listed) <==> ListedAs(hash, manifest, f.path, f.node)
  {
  }

  lemma ExactIsGood(hash: Bytes -> string, root: Node, files: seq<Found>, manifest: seq<Item>, listed: map<Path, Item>)
    requires root.Dir? && Indexes(listed, manifest) && DistinctItems(manifest) && Exact(hash, root, manifest)
    requires forall f :: f in files <==> FileAt(root, f.path, f.node)
    ensures AllGood(hash, files, listed) && listed.Keys <= PathsOf(files)
  {
    forall i | 0 <= i < |files| ensures Good(hash, files[i], listed) {
      assert files[i] in files;
      GoodIffListed(hash, files[i], manifest, listed);
    }
    forall p | p in listed ensures p in PathsOf(files) {
      var k :| 0 <= k < |manifest| && manifest[k] == listed[p];
      assert IsPresent(root, manifest[k].path);
      var n :| FileAt(root, p, n);
      assert Found(p, n) in files;
    }
  }

  lemma GoodIsExact(hash: Bytes -> string, root: Node, files: seq<Found>, manifest: seq<Item>, listed: map<Path, Item>)
    requires root.Dir? && Indexes(listed, manifest) && DistinctItems(manifest)
    requires forall f :: f in files <==> FileAt(root, f.path, f.node)
    requires AllGood(hash, files, listed) && listed.Keys <= PathsOf(files)
    ensures Exact(hash, root, manifest)
  {
    forall p, n | FileAt(root, p, n) ensures ListedAs(hash, manifest, p, n) {
      assert Found(p, n) in files;
      GoodIffListed(hash, Found(p, n), manifest, listed);
    }
    forall k | 0 <= k < |manifest| ensures IsPresent(root, manifest[k].path) {
      assert manifest[k].path in PathsOf(files);
      var i :| 0 <= i < |files| && files[i].path == manifest[k].path;
      assert files[i] in files;
    }
  }

  lemma NothingMissing(a: set<Path>, b: set<Path>)
    ensures |a - b| == 0 <==> a <= b
  {
    if a <= b {
      assert a - b == {};
    } else {
      var x :| x in a && x !in b;
      assert x in a - b;
    }
  }

  /** Scan, check every file, look for missing ones. */
  method VerifyArtifacts(hash: Bytes -> string, root: Node, manifest: seq<Item>) returns (errors: nat)
    requires root.Dir? ==> DistinctNames(root.entries)
    ensures Shape(manifest) ==> (errors == 0 <==> root.Dir? && Fits(root) && Exact(hash, root, manifest))
  {
    if !root.Dir? {
      return 1;
    }
    var listed := Index(manifest);
    var files, scan := ScanTree(root);
    ListingIsDistinct(root, files);
    var bad, present, aggregate := CheckFiles(hash, files, manifest, listed);
    var missing := listed.Keys - present;
    errors := scan + bad + |missing| + (if aggregate > MAX_ARTIFACT_TOTAL_BYTES then 1 else 0);
    if scan == 0 && Shape(manifest) {
      ListingIsComplete(root, files);
      NothingMissing(listed.Keys, present);
      if Exact(hash, root, manifest) {
        ExactIsGood(hash, root, files, manifest, listed);
      } else if bad == 0 && listed.Keys <= present {
        GoodIsExact(hash, root, files, manifest, listed);
      }
    }
  }

  /** A qualification set passes the artifact checks exactly when its manifest is well
      shaped, its tree fits, and the tree holds exactly what the manifest lists. */
  method CheckArtifacts(hash: Bytes -> string, root: Node, manifest: seq<Item>) returns (errors: nat)
    requires root.Dir? ==> DistinctNames(root.entries)
    ensures errors == 0 <==> Shape(manifest) && root.Dir? && Fits(root) && Exact(hash, root, manifest)
  {
    var shape := CheckShape(manifest);
    var verify := VerifyArtifacts(hash, root, manifest);
    errors := shape + verify;
  }
}
