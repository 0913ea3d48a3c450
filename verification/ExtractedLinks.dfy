/** Where the links of an extracted archive lead on disk, where a link in the middle of
    a path is followed, against where the check of the archive says they lead. */
module ExtractedLinks {
  import opened Options
  import opened ReleaseLinks

  // ---------------------------------------------------------------- opening a path

  /** The extracted tree: its directories, its files, and the text of each link. */
  datatype Disk = Disk(dirs: set<Path>, files: set<Path>, texts: map<Path, Path>)

  predicate IsDir(d: Disk, p: Path) {
    p in d.dirs && p !in d.files && p !in d.texts
  }

  /** One piece from a directory, when it is not the name of a link. */
  function Step(d: Disk, p: Path, x: string): Option<Path> {
    if IsName(x) && p + [x] !in d.dirs && p + [x] !in d.files then None else Move(p, x)
  }

  /** What the file system opens, with at most so many links followed; nothing when a
      piece is missing, is entered without being a directory, or leaves the tree. */
  function Open(d: Disk, p: Path, pieces: Path, hops: nat): Option<Path>
    decreases hops, |pieces|
  {
    if pieces == [] then Some(p)
    else if !IsDir(d, p) then None
    else if IsName(pieces[0]) && p + [pieces[0]] in d.texts then
      if hops == 0 then None
      else match Open(d, p, d.texts[p + [pieces[0]]], hops - 1)
        case None => None
        case Some(q) => Open(d, q, pieces[1..], hops - 1)
    else match Step(d, p, pieces[0])
      case None => None
      case Some(q) => Open(d, q, pieces[1..], hops)
  }

  ghost predicate Leads(d: Disk, p: Path, pieces: Path, q: Path) {
    exists hops: nat :: Open(d, p, pieces, hops) == Some(q)
  }

  lemma {:induction false} MoreHops(d: Disk, p: Path, pieces: Path, hops: nat, more: nat)
    requires Open(d, p, pieces, hops).Some? && hops <= more
    ensures Open(d, p, pieces, more) == Open(d, p, pieces, hops)
    decreases hops, |pieces|
  {
    if pieces != [] {
      var x := pieces[0];
      if IsName(x) && p + [x] in d.texts {
        MoreHops(d, p, d.texts[p + [x]], hops - 1, more - 1);
        MoreHops(d, Open(d, p, d.texts[p + [x]], hops - 1).value, pieces[1..], hops - 1, more - 1);
      } else {
        MoreHops(d, Step(d, p, x).value, pieces[1..], hops, more);
      }
    }
  }

  lemma LeadsUnique(d: Disk, p: Path, pieces: Path, q: Path, r: Path)
    requires Leads(d, p, pieces, q) && Leads(d, p, pieces, r)
    ensures q == r
  {
    var f: nat :| Open(d, p, pieces, f) == Some(q);
    var g: nat :| Open(d, p, pieces, g) == Some(r);
    if f <= g {
      MoreHops(d, p, pieces, f, g);
    } else {
      MoreHops(d, p, pieces, g, f);
    }
  }

  lemma {:induction false} OpenJoin(d: Disk, p: Path, a: Path, b: Path, f: nat, g: nat)
    requires Open(d, p, a, f).Some? && Open(d, Open(d, p, a, f).value, b, g).Some?
    ensures Open(d, p, a + b, f + g) == Open(d, Open(d, p, a, f).value, b, g)
    decreases f, |a|
  {
    if a == [] {
      assert a + b == b;
      MoreHops(d, p, b, g, f + g);
    } else {
      var x := a[0];
      assert (a + b)[0] == x && (a + b)[1..] == a[1..] + b;
      if IsName(x) && p + [x] in d.texts {
        MoreHops(d, p, d.texts[p + [x]], f - 1, f + g - 1);
        OpenJoin(d, Open(d, p, d.texts[p + [x]], f - 1).value, a[1..], b, f - 1, g);
      } else {
        OpenJoin(d, Step(d, p, x).value, a[1..], b, f, g);
      }
    }
  }

  lemma LeadsJoin(d: Disk, p: Path, a: Path, q: Path, b: Path, r: Path)
    requires Leads(d, p, a, q) && Leads(d, q, b, r)
    ensures Leads(d, p, a + b, r)
  {
    var f: nat :| Open(d, p, a, f) == Some(q);
    var g: nat :| Open(d, q, b, g) == Some(r);
    OpenJoin(d, p, a, b, f, g);
  }

  lemma {:induction false} OpenSplit(d: Disk, p: Path, a: Path, b: Path, hops: nat)
    requires Open(d, p, a + b, hops).Some?
    ensures Open(d, p, a, hops).Some?
    ensures Open(d, Open(d, p, a, hops).value, b, hops) == Open(d, p, a + b, hops)
    decreases hops, |a|
  {
    if a == [] {
      assert a + b == b;
    } else {
      var x := a[0];
      assert (a + b)[0] == x && (a + b)[1..] == a[1..] + b;
      if IsName(x) && p + [x] in d.texts {
        var q := Open(d, p, d.texts[p + [x]], hops - 1).value;
        OpenSplit(d, q, a[1..], b, hops - 1);
        MoreHops(d, Open(d, q, a[1..], hops - 1).value, b, hops - 1, hops);
      } else {
        OpenSplit(d, Step(d, p, x).value, a[1..], b, hops);
      }
    }
  }

  lemma LeadsSplit(d: Disk, p: Path, a: Path, b: Path, r: Path) returns (q: Path)
    requires Leads(d, p, a + b, r)
    ensures Leads(d, p, a, q) && Leads(d, q, b, r)
  {
    var hops: nat :| Open(d, p, a + b, hops) == Some(r);
    OpenSplit(d, p, a, b, hops);
    q := Open(d, p, a, hops).value;
  }

  // ---------------------------------------------------------------- walking as written

  /** Before each of its pieces the written path stands, by its text alone, on a
      directory: not on a link, not on a file, not on nothing. */
  predicate OnDirectories(d: Disk, base: Path, pieces: Path) {
    forall k :: 0 <= k < |pieces| ==>
      Normal(base, pieces[..k]).Some? && IsDir(d, Normal(base, pieces[..k]).value)
  }

  /** Before each of its pieces the file system stands where the text says. */
  ghost predicate AsWritten(d: Disk, base: Path, pieces: Path) {
    forall k :: 0 <= k < |pieces| ==>
      Normal(base, pieces[..k]).Some? && Leads(d, base, pieces[..k], Normal(base, pieces[..k]).value)
  }

  lemma StepLeads(d: Disk, p: Path, x: string)
    requires IsDir(d, p) && Move(p, x).Some?
    requires IsName(x) ==> p + [x] !in d.texts && (p + [x] in d.dirs || p + [x] in d.files)
    ensures Leads(d, p, [x], Move(p, x).value)
  {
    assert Open(d, Move(p, x).value, [x][1..], 0) == Move(p, x);
    assert Open(d, p, [x], 0) == Move(p, x);
  }

  lemma {:induction false} StandsAsWritten(d: Disk, base: Path, pieces: Path, k: nat)
    requires OnDirectories(d, base, pieces) && k < |pieces|
    ensures Leads(d, base, pieces[..k], Normal(base, pieces[..k]).value)
  {
    if k == 0 {
      assert Open(d, base, pieces[..0], 0) == Some(base);
    } else {
      StandsAsWritten(d, base, pieces, k - 1);
      NormalSnoc(base, pieces, k - 1);
      var p := Normal(base, pieces[..k - 1]).value;
      assert IsDir(d, p) && IsDir(d, Normal(base, pieces[..k]).value);
      StepLeads(d, p, pieces[k - 1]);
      LeadsJoin(d, base, pieces[..k - 1], p, [pieces[k - 1]], Normal(base, pieces[..k]).value);
      assert pieces[..k] == pieces[..k - 1] + [pieces[k - 1]];
    }
  }

  /** Whoever walks as written, to some end, has stood on directories. */
  lemma StoodOnDirectories(d: Disk, base: Path, pieces: Path, r: Path)
    requires AsWritten(d, base, pieces) && Leads(d, base, pieces, r)
    ensures OnDirectories(d, base, pieces)
  {
    forall k | 0 <= k < |pieces| ensures IsDir(d, Normal(base, pieces[..k]).value) {
      assert pieces == pieces[..k] + pieces[k..];
      var q := LeadsSplit(d, base, pieces[..k], pieces[k..], r);
      LeadsUnique(d, base, pieces[..k], q, Normal(base, pieces[..k]).value);
    }
  }

  // ---------------------------------------------------------------- links

  /** The link on disk has a text that resolves as checked, to a place that is there. */
  ghost predicate ShowsLink(d: Disk, links: Links, p: Path)
    requires p in links && p in d.texts
  {
    && Clean(p) && d.texts[p] != [] && TargetOf(p, d.texts[p]) == Some(links[p])
    && (links[p] in links || links[p] in d.dirs || links[p] in d.files)
  }

  ghost predicate Shows(d: Disk, links: Links) {
    && d.texts.Keys == links.Keys
    && forall p {:trigger ShowsLink(d, links, p)} :: p in links ==> ShowsLink(d, links, p)
  }

  /** Opening the link goes by the text of its own path and of its target, and ends
      where the chain of resolved targets ends. */
  ghost predicate LeadsAsChecked(d: Disk, links: Links, p: Path)
    requires p in d.texts
  {
    && AsWritten(d, [], p) && AsWritten(d, Parent(p), d.texts[p])
    && exists hops: nat :: Follow(links, p, hops) !in links && Leads(d, [], p, Follow(links, p, hops))
  }

  /** The way to the link and the way it writes stand on directories before each piece. */
  predicate Direct(d: Disk, p: Path)
    requires p in d.texts
  {
    OnDirectories(d, [], p) && OnDirectories(d, Parent(p), d.texts[p])
  }

  ghost predicate AllDirect(d: Disk, links: Links)
    requires links.Keys == d.texts.Keys
  {
    forall p :: p in links ==> Direct(d, p)
  }

  ghost predicate AllLeadAsChecked(d: Disk, links: Links)
    requires links.Keys == d.texts.Keys
  {
    forall p :: p in links ==> LeadsAsChecked(d, links, p)
  }

  lemma {:induction false} CleanIsNormal(p: Path, k: nat)
    requires Clean(p) && k <= |p|
    ensures Normal([], p[..k]) == Some(p[..k])
  {
    if k > 0 {
      CleanIsNormal(p, k - 1);
      NormalSnoc([], p, k - 1);
      assert p[..k] == p[..k - 1] + [p[k - 1]];
    }
  }

  lemma OpenLink(d: Disk, p: Path, x: string, hops: nat)
    requires IsDir(d, p) && IsName(x) && p + [x] in d.texts
    ensures Open(d, p, [x], hops) == if hops == 0 then None else Open(d, p, d.texts[p + [x]], hops - 1)
  {
    assert [x][1..] == [];
  }

  /** The last piece of a link's path is its text, read in its directory. */
  lemma LastHop(d: Disk, p: Path, x: string, r: Path)
    requires IsName(x) && p + [x] in d.texts
    ensures Leads(d, p, [x], r) <==> IsDir(d, p) && Leads(d, p, d.texts[p + [x]], r)
  {
    if Leads(d, p, [x], r) {
      var f: nat :| Open(d, p, [x], f) == Some(r);
      assert IsDir(d, p);
      OpenLink(d, p, x, f);
      assert Open(d, p, d.texts[p + [x]], f - 1) == Some(r);
    }
    if IsDir(d, p) && Leads(d, p, d.texts[p + [x]], r) {
      var f: nat :| Open(d, p, d.texts[p + [x]], f) == Some(r);
      OpenLink(d, p, x, f + 1);
      assert Open(d, p, [x], f + 1) == Some(r);
    }
  }

  lemma OpenNothing(d: Disk, p: Path, r: Path)
    requires Leads(d, p, [], r)
    ensures r == p
  {
  }

  /** Who gets to a link by its path has read its text. */
  lemma TextIsRead(d: Disk, p: Path, r: Path)
    requires p in d.texts && p != [] && Clean(p) && AsWritten(d, [], p) && Leads(d, [], p, r)
    ensures Leads(d, Parent(p), d.texts[p], r)
  {
    var n := |p| - 1;
    assert p == p[..n] + [p[n]];
    var q := LeadsSplit(d, [], p[..n], [p[n]], r);
    CleanIsNormal(p, n);
    LeadsUnique(d, [], p[..n], q, p[..n]);
    LastHop(d, p[..n], p[n], r);
  }

  lemma CheckedIsDirect(d: Disk, links: Links, p: Path)
    requires Shows(d, links) && p in links && LeadsAsChecked(d, links, p)
    ensures Direct(d, p)
  {
    assert ShowsLink(d, links, p);
    var hops: nat :| Follow(links, p, hops) !in links && Leads(d, [], p, Follow(links, p, hops));
    var r := Follow(links, p, hops);
    StoodOnDirectories(d, [], p, r);
    if p == [] {
      OpenNothing(d, p, r);
    } else {
      TextIsRead(d, p, r);
      StoodOnDirectories(d, Parent(p), d.texts[p], r);
    }
  }

  /** A place and everything above it is a directory. */
  predicate Rooted(d: Disk, p: Path) {
    forall j :: 0 <= j <= |p| ==> IsDir(d, p[..j])
  }

  lemma RootedLeads(d: Disk, p: Path)
    requires Rooted(d, p) && Clean(p)
    ensures Leads(d, [], p, p)
  {
    var pieces := p + ["."];
    forall k | 0 <= k < |pieces| ensures Normal([], pieces[..k]) == Some(p[..k]) {
      CleanIsNormal(p, k);
      assert pieces[..k] == p[..k];
    }
    StandsAsWritten(d, [], pieces, |p|);
    assert pieces[..|p|] == p && p[..|p|] == p;
  }

  lemma MoveStaysRooted(d: Disk, p: Path, x: string)
    requires Rooted(d, p) && Move(p, x).Some? && IsDir(d, Move(p, x).value)
    ensures Rooted(d, Move(p, x).value)
  {
    var q := Move(p, x).value;
    forall j | 0 <= j <= |q| ensures IsDir(d, q[..j]) {
      if j <= |p| && j < |q| {
        assert q[..j] == p[..j];
      } else {
        assert q[..j] == q;
      }
    }
  }

  lemma {:induction false} StaysRooted(d: Disk, base: Path, pieces: Path, k: nat)
    requires OnDirectories(d, base, pieces) && Rooted(d, base) && k < |pieces|
    ensures Rooted(d, Normal(base, pieces[..k]).value)
  {
    if k > 0 {
      StaysRooted(d, base, pieces, k - 1);
      NormalSnoc(base, pieces, k - 1);
      assert IsDir(d, Normal(base, pieces[..k]).value);
      MoveStaysRooted(d, Normal(base, pieces[..k - 1]).value, pieces[k - 1]);
    }
  }

  lemma {:induction false} FollowFirst(links: Links, p: Path, hops: nat)
    requires p in links
    ensures Follow(links, p, hops + 1) == Follow(links, links[p], hops)
  {
    if hops > 0 {
      FollowFirst(links, p, hops - 1);
    }
  }

  lemma {:induction false} FollowEnd(links: Links, p: Path, hops: nat)
    requires p !in links
    ensures Follow(links, p, hops) == p
  {
    if hops > 0 {
      FollowEnd(links, p, hops - 1);
    }
  }

  /** From the last directory of a target the last piece leads to the end of the chain. */
  lemma LastPiece(d: Disk, links: Links, n: Path, x: string, r: Path)
    requires Shows(d, links) && Rooted(d, n) && Clean(n) && Move(n, x).Some?
    requires IsName(x) && n + [x] in links ==> Leads(d, [], n + [x], r)
    requires !(IsName(x) && n + [x] in links) ==> r == Move(n, x).value
    requires IsName(x) && n + [x] !in links ==> n + [x] in d.dirs || n + [x] in d.files
    ensures Leads(d, n, [x], r)
  {
    assert n[..|n|] == n;
    if IsName(x) && n + [x] in links {
      var q := LeadsSplit(d, [], n, [x], r);
      RootedLeads(d, n);
      LeadsUnique(d, [], n, q, n);
    } else {
      StepLeads(d, n, x);
    }
  }

  /** The last directory of a target and its last piece. */
  ghost predicate Splits(d: Disk, base: Path, t: Path, n: Path, x: string, q: Path) {
    && t != [] && x == t[|t| - 1] && Normal(base, t) == Move(n, x) == Some(q)
    && Leads(d, base, t[..|t| - 1], n) && Rooted(d, n) && Clean(n)
  }

  lemma SplitTarget(d: Disk, base: Path, t: Path, q: Path) returns (n: Path, x: string)
    requires t != [] && OnDirectories(d, base, t) && Rooted(d, base) && Clean(base) && Normal(base, t) == Some(q)
    ensures Splits(d, base, t, n, x, q)
  {
    var m := |t| - 1;
    n, x := Normal(base, t[..m]).value, t[m];
    StandsAsWritten(d, base, t, m);
    StaysRooted(d, base, t, m);
    NormalSnoc(base, t, m);
    assert t[..m + 1] == t;
    NormalIffInside(base, t[..m]);
  }

  lemma TargetLeads(d: Disk, links: Links, base: Path, t: Path, n: Path, x: string, q: Path, r: Path)
    requires Shows(d, links) && Splits(d, base, t, n, x, q)
    requires q in links ==> IsName(x) ==> Leads(d, [], q, r)
    requires q !in links ==> r == q && (q in d.dirs || q in d.files)
    ensures Leads(d, base, t, r)
  {
    if !(IsName(x) && n + [x] in links) {
      NotALink(d, links, n, x);
    }
    LastPiece(d, links, n, x, r);
    LeadsJoin(d, base, t[..|t| - 1], n, [x], r);
    assert t == t[..|t| - 1] + [x];
  }

  lemma LinkIsOpened(d: Disk, p: Path, r: Path)
    requires p in d.texts && p != [] && Clean(p) && Rooted(d, Parent(p)) && Leads(d, Parent(p), d.texts[p], r)
    ensures Leads(d, [], p, r)
  {
    var base, x := Parent(p), p[|p| - 1];
    assert p == base + [x] && base[..|base|] == base;
    LastHop(d, base, x, r);
    RootedLeads(d, base);
    LeadsJoin(d, [], base, base, [x], r);
  }

  lemma DirectIsNotRoot(d: Disk, p: Path)
    requires p in d.texts && d.texts[p] != [] && Direct(d, p)
    ensures p != []
  {
    assert IsDir(d, Normal(Parent(p), d.texts[p][..0]).value);
  }

  /** A direct link leads where its resolved target leads. */
  lemma DirectLink(d: Disk, links: Links, p: Path, r: Path)
    requires Shows(d, links) && p in links && Direct(d, p)
    requires links[p] in links ==> Leads(d, [], links[p], r)
    requires links[p] !in links ==> r == links[p]
    ensures Leads(d, [], p, r)
  {
    assert ShowsLink(d, links, p);
    DirectIsNotRoot(d, p);
    ParentRooted(d, p);
    var n, x := SplitTarget(d, Parent(p), d.texts[p], links[p]);
    TargetLeads(d, links, Parent(p), d.texts[p], n, x, links[p], r);
    LinkIsOpened(d, p, r);
  }

  /** When every link is direct, opening one leads to the end of its chain. */
  lemma {:induction false} DirectLeads(d: Disk, links: Links, p: Path, hops: nat)
    requires Shows(d, links) && p in links && Follow(links, p, hops) !in links
    requires AllDirect(d, links)
    ensures Leads(d, [], p, Follow(links, p, hops))
    decreases hops
  {
    FollowFirst(links, p, hops - 1);
    if links[p] in links {
      DirectLeads(d, links, links[p], hops - 1);
    } else {
      FollowEnd(links, links[p], hops - 1);
    }
    assert Direct(d, p);
    DirectLink(d, links, p, Follow(links, p, hops));
  }

  lemma ParentRooted(d: Disk, p: Path)
    requires p != [] && Clean(p) && OnDirectories(d, [], p)
    ensures Rooted(d, Parent(p)) && Clean(Parent(p))
  {
    forall j | 0 <= j <= |Parent(p)| ensures IsDir(d, Parent(p)[..j]) {
      CleanIsNormal(p, j);
      assert Parent(p)[..j] == p[..j];
    }
  }

  /** A piece that names no link leads to no link. */
  lemma NotALink(d: Disk, links: Links, n: Path, x: string)
    requires Shows(d, links) && Rooted(d, n) && Move(n, x).Some? && !(IsName(x) && n + [x] in links)
    ensures Move(n, x).value !in links
  {
    assert n[..|n|] == n;
    if x == ".." {
      assert IsDir(d, n[..|n| - 1]);
    }
  }

  /** All links lead where the check says, by the way their text says, exactly when no
      path to a link and no target stands on anything but a directory before its last
      piece. */
  lemma LinksLeadAsChecked(d: Disk, links: Links)
    requires Shows(d, links) && AllGrounded(links)
    ensures AllLeadAsChecked(d, links) <==> AllDirect(d, links)
  {
    if AllLeadAsChecked(d, links) {
      forall p | p in links ensures Direct(d, p) {
        assert LeadsAsChecked(d, links, p);
        CheckedIsDirect(d, links, p);
      }
    }
    if AllDirect(d, links) {
      forall p | p in links ensures LeadsAsChecked(d, links, p) {
        assert Grounded(links, p) && Direct(d, p);
        var hops: nat :| Follow(links, p, hops) !in links;
        DirectLeads(d, links, p, hops);
        WalksAsWritten(d, [], p);
        WalksAsWritten(d, Parent(p), d.texts[p]);
      }
    }
  }

  lemma WalksAsWritten(d: Disk, base: Path, pieces: Path)
    requires OnDirectories(d, base, pieces)
    ensures AsWritten(d, base, pieces)
  {
    forall k | 0 <= k < |pieces| ensures Leads(d, base, pieces[..k], Normal(base, pieces[..k]).value) {
      StandsAsWritten(d, base, pieces, k);
    }
  }

  // ---------------------------------------------------------------- archives

  ghost function TextsOf(members: seq<Member>): map<Path, Path> {
    if members == [] then map[]
    else
      var m := members[|members| - 1];
      var rest := TextsOf(members[..|members| - 1]);
      if LinkOf(m).Some? then rest[PathOf(m) := m.kind.target] else rest
  }

  /** Extraction makes the listed directories, and those above every member. */
  ghost function DirsOf(members: seq<Member>): set<Path> {
    {[]}
    + (set i | 0 <= i < |members| && members[i].kind.Directory? :: PathOf(members[i]))
    + (set i, k | 0 <= i < |members| && 0 <= k < |PathOf(members[i])| :: PathOf(members[i])[..k])
  }

  ghost function FilesOf(members: seq<Member>): set<Path> {
    set i | 0 <= i < |members| && members[i].kind.File? :: PathOf(members[i])
  }

  ghost function DiskOf(members: seq<Member>): Disk {
    Disk(DirsOf(members), FilesOf(members), TextsOf(members))
  }

  lemma {:induction false} TextsMatch(members: seq<Member>)
    ensures TextsOf(members).Keys == LinksOf(members).Keys
    ensures forall p :: p in LinksOf(members) ==>
              TextsOf(members)[p] != [] && TargetOf(p, TextsOf(members)[p]) == Some(LinksOf(members)[p])
  {
    if members != [] {
      TextsMatch(members[..|members| - 1]);
    }
  }

  lemma {:induction false} LinkIsKey(members: seq<Member>, i: nat)
    requires i < |members| && LinkOf(members[i]).Some?
    ensures PathOf(members[i]) in LinksOf(members)
  {
    var n := |members| - 1;
    if i < n {
      assert members[..n][i] == members[i];
      LinkIsKey(members[..n], i);
    }
  }

  lemma PlaceIsThere(members: seq<Member>, p: Path)
    requires Accepted(members) && p in PathsOf(members)
    ensures Clean(p)
    ensures p in LinksOf(members) || p in DirsOf(members) || p in FilesOf(members)
  {
    var i :| 0 <= i < |members| && PathOf(members[i]) == p;
    assert SafeMember(members[i]) && Supported(members[i], PathsOf(members));
    if members[i].kind.Link? {
      LinkIsKey(members, i);
    }
  }

  lemma DiskShows(members: seq<Member>)
    requires Accepted(members)
    ensures Shows(DiskOf(members), LinksOf(members))
  {
    var d, links := DiskOf(members), LinksOf(members);
    TextsMatch(members);
    assert members[..|members|] == members;
    forall p | p in links ensures ShowsLink(d, links, p) {
      LinksAreMembers(members, |members|, p);
      PlaceIsThere(members, p);
      PlaceIsThere(members, links[p]);
    }
  }

  /** The links of an accepted archive lead on disk where the check says, by the way
      their texts say, exactly when every link is direct. */
  lemma ArchiveLinksLead(members: seq<Member>)
    requires Accepted(members)
    ensures LinksOf(members).Keys == DiskOf(members).texts.Keys
    ensures AllLeadAsChecked(DiskOf(members), LinksOf(members)) <==> AllDirect(DiskOf(members), LinksOf(members))
  {
    DiskShows(members);
    LinksLeadAsChecked(DiskOf(members), LinksOf(members));
  }

  /** Then opening a link leads to a member that is not a link. */
  lemma DirectLinksEndInMembers(members: seq<Member>, p: Path) returns (r: Path)
    requires Accepted(members) && LinksOf(members).Keys == DiskOf(members).texts.Keys
    requires AllDirect(DiskOf(members), LinksOf(members)) && p in LinksOf(members)
    ensures r in PathsOf(members) - LinksOf(members).Keys && Leads(DiskOf(members), [], p, r)
  {
    DiskShows(members);
    var hops := LinksEndInMembers(members, p);
    r := Follow(LinksOf(members), p, hops);
    DirectLeads(DiskOf(members), LinksOf(members), p, hops);
  }

  // ---------------------------------------------------------------- a detour

  /** Five different names. */
  datatype Names = Names(x: string, s: string, e: string, d: string, l: string)

  predicate Different(n: Names) {
    && IsName(n.x) && IsName(n.s) && IsName(n.e) && IsName(n.d) && IsName(n.l)
    && PlainText(n.x) && PlainText(n.s) && PlainText(n.e) && PlainText(n.d) && PlainText(n.l)
    && n.s != n.x && n.d != n.x && n.d != n.s && n.l != n.x && n.l != n.s && n.l != n.d && n.e != n.x
  }

  /** Files x and s/x, the directory s/e, a link d to s/e, and a link l written d/../x. */
  function Detour(n: Names): seq<Member> {
    [Member([n.x], File, 0), Member([n.s, n.x], File, 0), Member([n.s, n.e], Directory, 0),
     Member([n.d], Link([n.s, n.e]), 0), Member([n.l], Link([n.d, "..", n.x]), 0)]
  }

  lemma DetourText(n: Names, u: Path)
    requires Different(n) && u == [n.d, "..", n.x]
    ensures Normal([], u) == Some([n.x]) && Plain(u)
  {
    NormalSnoc([], u, 0);
    NormalSnoc([], u, 1);
    NormalSnoc([], u, 2);
    assert u[..0] == [] && u[..3] == u && [n.d][..0] == [];
    assert [] + [n.d] == [n.d] && [] + [n.x] == [n.x] && PlainText(u[1]);
  }

  lemma DetourTargets(n: Names)
    requires Different(n)
    ensures TargetOf([n.d], [n.s, n.e]) == Some([n.s, n.e])
    ensures TargetOf([n.l], [n.d, "..", n.x]) == Some([n.x])
  {
    var t := [n.s, n.e];
    CleanIsNormal(t, 2);
    assert t[..2] == t && Parent([n.d]) == [] && Parent([n.l]) == [];
    DetourText(n, [n.d, "..", n.x]);
  }

  lemma DetourLinks(n: Names, m: seq<Member>)
    requires Different(n) && m == Detour(n)
    ensures LinksOf(m) == map[[n.d] := [n.s, n.e], [n.l] := [n.x]]
    ensures TextsOf(m) == map[[n.d] := [n.s, n.e], [n.l] := [n.d, "..", n.x]]
  {
    DetourTargets(n);
    assert m[..0] == [] && m[..5] == m;
    LinksSnoc(m, 0);
    LinksSnoc(m, 1);
    LinksSnoc(m, 2);
    LinksSnoc(m, 3);
    LinksSnoc(m, 4);
  }

  lemma LinksSnoc(members: seq<Member>, k: nat)
    requires k < |members|
    ensures LinksOf(members[..k + 1]) ==
            if LinkOf(members[k]).Some? then LinksOf(members[..k])[PathOf(members[k]) := LinkOf(members[k]).value]
            else LinksOf(members[..k])
    ensures TextsOf(members[..k + 1]) ==
            if LinkOf(members[k]).Some? then TextsOf(members[..k])[PathOf(members[k]) := members[k].kind.target]
            else TextsOf(members[..k])
  {
    assert members[..k + 1][..k] == members[..k];
  }

  lemma {:induction false} NothingToStore(members: seq<Member>)
    requires forall i :: 0 <= i < |members| ==> SizeOf(members[i]) == 0
    ensures TotalSize(members) == 0
  {
    if members != [] {
      NothingToStore(members[..|members| - 1]);
    }
  }

  lemma NamedMember(m: Member, name: Path)
    requires m.name == name && name != [] && Clean(name) && Plain(name)
    ensures SafeMember(m) && PathOf(m) == name
  {
    assert IsName(name[|name| - 1]) && IsName(name[0]);
  }

  lemma DetourPaths(n: Names, m: seq<Member>)
    requires Different(n) && m == Detour(n)
    ensures forall i :: 0 <= i < 5 ==> SafeMember(m[i]) && PathOf(m[i]) == m[i].name
  {
    forall i | 0 <= i < 5 ensures SafeMember(m[i]) && PathOf(m[i]) == m[i].name {
      NamedMember(m[i], m[i].name);
    }
  }

  lemma DetourDistinct(n: Names, m: seq<Member>, i: nat, j: nat)
    requires Different(n) && m == Detour(n) && i < j < 5
    ensures m[i].name != m[j].name
  {
    assert m[i].name[|m[i].name| - 1] != m[j].name[|m[j].name| - 1] || |m[i].name| != |m[j].name|;
  }

  lemma DetourInventory(n: Names, m: seq<Member>)
    requires Different(n) && m == Detour(n)
    ensures Inventory(m)
  {
    NothingToStore(m);
    DetourPaths(n, m);
    forall i, j | 0 <= i < j < |m| ensures PathOf(m[i]) != PathOf(m[j]) {
      DetourDistinct(n, m, i, j);
    }
  }

  lemma DetourIsSupported(n: Names, m: seq<Member>)
    requires Different(n) && m == Detour(n)
    ensures forall i :: 0 <= i < |m| ==> Supported(m[i], PathsOf(m))
  {
    DetourTargets(n);
    assert PathOf(m[0]) in PathsOf(m) && PathOf(m[2]) in PathsOf(m);
  }

  lemma DetourIsGrounded(n: Names, links: Links)
    requires Different(n) && links == map[[n.d] := [n.s, n.e], [n.l] := [n.x]]
    ensures AllGrounded(links)
  {
    assert Follow(links, [n.d], 0) == [n.d] && Follow(links, [n.d], 1) == [n.s, n.e];
    assert Follow(links, [n.l], 0) == [n.l] && Follow(links, [n.l], 1) == [n.x];
  }

  lemma DetourIsAccepted(n: Names, m: seq<Member>)
    requires Different(n) && m == Detour(n)
    ensures Accepted(m)
  {
    DetourInventory(n, m);
    DetourIsSupported(n, m);
    DetourLinks(n, m);
    DetourIsGrounded(n, LinksOf(m));
  }

  lemma DetourDirs(n: Names, m: seq<Member>)
    requires Different(n) && m == Detour(n)
    ensures [] in DirsOf(m) && [n.s] in DirsOf(m) && [n.s, n.e] in DirsOf(m)
  {
    assert PathOf(m[1])[..1] == [n.s];
    assert PathOf(m[2]) == [n.s, n.e];
  }

  lemma DetourFiles(n: Names, m: seq<Member>)
    requires Different(n) && m == Detour(n)
    ensures FilesOf(m) == {[n.x], [n.s, n.x]}
  {
    assert PathOf(m[0]) == [n.x] && PathOf(m[1]) == [n.s, n.x];
  }

  lemma DetourDisk(n: Names, m: seq<Member>, d: Disk)
    requires Different(n) && m == Detour(n) && d == DiskOf(m)
    ensures IsDir(d, []) && IsDir(d, [n.s]) && IsDir(d, [n.s, n.e]) && [n.s, n.x] in d.files
    ensures d.texts == map[[n.d] := [n.s, n.e], [n.l] := [n.d, "..", n.x]]
  {
    DetourLinks(n, m);
    DetourDirs(n, m);
    DetourFiles(n, m);
  }

  lemma OpenStep(d: Disk, p: Path, pieces: Path, q: Path, hops: nat)
    requires pieces != [] && IsDir(d, p) && Step(d, p, pieces[0]) == Some(q)
    requires IsName(pieces[0]) ==> p + [pieces[0]] !in d.texts
    ensures Open(d, p, pieces, hops) == Open(d, q, pieces[1..], hops)
  {
  }

  lemma DetourOpens(n: Names, d: Disk, t: Path, u: Path)
    requires Different(n) && t == [n.s, n.e] && u == [n.d, "..", n.x]
    requires IsDir(d, []) && IsDir(d, [n.s]) && IsDir(d, t) && [n.s, n.x] in d.files
    requires d.texts == map[[n.d] := t, [n.l] := u]
    ensures Open(d, [], u, 1) == Some([n.s, n.x])
  {
    assert [] + [n.s] == [n.s] && [n.s] + [n.e] == t && [n.s] + [n.x] == [n.s, n.x] && t[..1] == [n.s];
    OpenStep(d, [], t, [n.s], 0);
    OpenStep(d, [n.s], t[1..], t, 0);
    assert Open(d, t, t[1..][1..], 0) == Some(t);
    OpenStep(d, t, u[1..], [n.s], 0);
    OpenStep(d, [n.s], u[1..][1..], [n.s, n.x], 0);
    assert Open(d, [n.s, n.x], u[1..][1..][1..], 0) == Some([n.s, n.x]);
    assert [] + [u[0]] == [n.d];
  }

  /** The check accepts this archive and takes l for a link to the file x; on disk it
      leads to the other file, s/x. */
  lemma DetourLeadsAstray(n: Names)
    requires Different(n)
    ensures Accepted(Detour(n)) && Follow(LinksOf(Detour(n)), [n.l], 1) == [n.x]
    ensures Leads(DiskOf(Detour(n)), [], [n.l], [n.s, n.x]) && !Leads(DiskOf(Detour(n)), [], [n.l], [n.x])
  {
    var m := Detour(n);
    DetourIsAccepted(n, m);
    DetourLinks(n, m);
    assert Follow(LinksOf(m), [n.l], 0) == [n.l];
    var d := DiskOf(m);
    DetourDisk(n, m, d);
    DetourOpens(n, d, [n.s, n.e], [n.d, "..", n.x]);
    assert [] + [n.l] == [n.l];
    LastHop(d, [], n.l, [n.s, n.x]);
    if Leads(d, [], [n.l], [n.x]) {
      LeadsUnique(d, [], [n.l], [n.x], [n.s, n.x]);
    }
  }
}
