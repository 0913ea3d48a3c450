/** Link targets of a release archive: lexical resolution, the member inventory and
    the walk along chains of links. A raw name is given by its pieces between
    slashes, so "/a" is ["", "a"], "a/" is ["a", ""] and the empty name is [""]. */
module ReleaseLinks {
  import opened Options
  import Sets

  type Path = seq<string>

  const MAX_MEMBERS: nat := 100_000
  const MAX_UNCOMPRESSED_BYTES: nat := 8 * 1024 * 1024 * 1024

  /** No backslash, colon or control character. */
  predicate PlainText(piece: string) {
    forall i :: 0 <= i < |piece| ==> piece[i] != '\\' && piece[i] != ':' && piece[i] as int >= 0x20
  }

  predicate Plain(pieces: Path) {
    forall i :: 0 <= i < |pieces| ==> PlainText(pieces[i])
  }

  predicate IsName(piece: string) {
    piece != "" && piece != "." && piece != ".."
  }

  predicate Clean(p: Path) {
    forall i :: 0 <= i < |p| ==> IsName(p[i])
  }

  // ---------------------------------------------------------------- resolution

  /** Where a path stands after the first pieces, or nowhere once it has climbed
      above the root. */
  function Normal(base: Path, pieces: Path): Option<Path> {
    if pieces == [] then Some(base)
    else match Normal(base, pieces[..|pieces| - 1])
      case None => None
      case Some(stack) => Move(stack, pieces[|pieces| - 1])
  }

  function Move(stack: Path, piece: string): Option<Path> {
    if piece == "" || piece == "." then Some(stack)
    else if piece == ".." then (if stack == [] then None else Some(stack[..|stack| - 1]))
    else Some(stack + [piece])
  }

  lemma NormalSnoc(base: Path, pieces: Path, n: nat)
    requires n < |pieces|
    ensures Normal(base, pieces[..n + 1]) ==
            match Normal(base, pieces[..n]) case None => None case Some(stack) => Move(stack, pieces[n])
  {
    assert pieces[..n + 1][..n] == pieces[..n];
  }

  lemma {:induction false} NoneStays(base: Path, pieces: Path, n: nat)
    requires n <= |pieces| && Normal(base, pieces[..n]).None?
    ensures Normal(base, pieces).None?
    decreases |pieces| - n
  {
    if n == |pieces| {
      assert pieces[..n] == pieces;
    } else {
      NormalSnoc(base, pieces, n);
      NoneStays(base, pieces, n + 1);
    }
  }

  /** How deep the path stands: names go down one level, ".." goes up one. */
  function Level(start: int, pieces: Path): int {
    if pieces == [] then start
    else
      var last := pieces[|pieces| - 1];
      Level(start, pieces[..|pieces| - 1]) + (if last == ".." then -1 else if IsName(last) then 1 else 0)
  }

  ghost predicate StaysInside(start: int, pieces: Path) {
    forall k :: 0 <= k <= |pieces| ==> Level(start, pieces[..k]) >= 0
  }

  /** Resolution succeeds exactly when no prefix climbs above the root. */
  lemma {:induction false} NormalIffInside(base: Path, pieces: Path)
    requires Clean(base)
    ensures Normal(base, pieces).Some? <==> StaysInside(|base|, pieces)
    ensures Normal(base, pieces).Some? ==>
              Clean(Normal(base, pieces).value) && |Normal(base, pieces).value| == Level(|base|, pieces)
    decreases |pieces|
  {
    var n := |pieces|;
    assert pieces[..n] == pieces;
    if n > 0 {
      var init := pieces[..n - 1];
      NormalIffInside(base, init);
      assert forall k :: 0 <= k <= n - 1 ==> init[..k] == pieces[..k];
      assert StaysInside(|base|, pieces) <==> StaysInside(|base|, init) && Level(|base|, pieces) >= 0;
    }
  }

  /** A tree of directories without links: named children and their parents. */
  datatype Tree = Tree(child: map<(nat, string), nat>, parent: map<nat, nat>)

  ghost predicate Lawful(t: Tree) {
    forall n: nat, x: string :: (n, x) in t.child ==>
      t.child[(n, x)] in t.parent && t.parent[t.child[(n, x)]] == n
  }

  function Enter(t: Tree, n: nat, piece: string): Option<nat> {
    if piece == "" || piece == "." then Some(n)
    else if piece == ".." then (if n in t.parent then Some(t.parent[n]) else None)
    else if (n, piece) in t.child then Some(t.child[(n, piece)])
    else None
  }

  /** What a file system does with a path: enter it piece by piece. */
  function Visit(t: Tree, n: nat, pieces: Path): Option<nat> {
    if pieces == [] then Some(n)
    else match Visit(t, n, pieces[..|pieces| - 1])
      case None => None
      case Some(m) => Enter(t, m, pieces[|pieces| - 1])
  }

  lemma VisitSnoc(t: Tree, n: nat, pieces: Path, piece: string)
    ensures Visit(t, n, pieces + [piece]) ==
            match Visit(t, n, pieces) case None => None case Some(m) => Enter(t, m, piece)
  {
  }

  /** Without links resolution keeps the meaning: in every such tree in which the
      written path leads somewhere, the resolved path leads to the same place. */
  lemma {:induction false} NormalKeepsMeaning(t: Tree, root: nat, base: Path, pieces: Path)
    requires Lawful(t) && Clean(base) && Normal(base, pieces).Some?
    requires Visit(t, root, base + pieces).Some?
    ensures Visit(t, root, Normal(base, pieces).value) == Visit(t, root, base + pieces)
    decreases |pieces|
  {
    if pieces == [] {
      assert base + pieces == base;
    } else {
      var init, last := pieces[..|pieces| - 1], pieces[|pieces| - 1];
      assert base + pieces == (base + init) + [last];
      VisitSnoc(t, root, base + init, last);
      NormalKeepsMeaning(t, root, base, init);
      NormalIffInside(base, init);
      MoveKeepsMeaning(t, root, Normal(base, init).value, last);
    }
  }

  lemma MoveKeepsMeaning(t: Tree, root: nat, stack: Path, piece: string)
    requires Lawful(t) && Clean(stack) && Move(stack, piece).Some?
    requires Visit(t, root, stack).Some? && Enter(t, Visit(t, root, stack).value, piece).Some?
    ensures Visit(t, root, Move(stack, piece).value) == Enter(t, Visit(t, root, stack).value, piece)
  {
  }

  /** The pieces before the last: the directory that holds a member. */
  function Parent(member: Path): Path {
    if member == [] then [] else member[..|member| - 1]
  }

  ghost function TargetOf(member: Path, target: Path): Option<Path> {
    if target == [] || target[0] == "" || !Plain(target) then None
    else
      var r := Normal(Parent(member), target);
      if r.Some? && r.value == [] then None else r
  }

  /** The target of a link: rejected when it is empty, absolute, badly written or
      climbs out of the archive, and when it is the root itself. */
  method LinkTarget(member: Path, target: Path) returns (r: Option<Path>)
    requires Clean(member)
    ensures r == TargetOf(member, target)
    ensures r.Some? <==>
      && target != [] && target[0] != "" && Plain(target)
      && StaysInside(|Parent(member)|, target) && Level(|Parent(member)|, target) > 0
    ensures r.Some? ==> r.value != [] && Clean(r.value)
  {
    if target == [] || target[0] == "" || !Plain(target) {
      return None;
    }
    var parts := Parent(member);
    NormalIffInside(Parent(member), target);
    for n := 0 to |target|
      invariant Normal(Parent(member), target[..n]) == Some(parts)
    {
      NormalSnoc(Parent(member), target, n);
      var part := target[n];
      if part == ".." {
        if parts == [] {
          NoneStays(Parent(member), target, n + 1);
          return None;
        }
        parts := parts[..|parts| - 1];
      } else if part != "." && part != "" {
        parts := parts + [part];
      }
    }
    assert target[..|target|] == target;
    return if parts != [] then Some(parts) else None;
  }

  // ---------------------------------------------------------------- the inventory

  datatype Kind = Directory | File | Link(target: Path) | Other

  datatype Member = Member(name: Path, kind: Kind, size: int)

  /** Trailing slashes do not count. */
  function StripEnd(pieces: Path): Path {
    if pieces != [] && pieces[|pieces| - 1] == "" then StripEnd(pieces[..|pieces| - 1]) else pieces
  }

  lemma {:induction false} StripEndIsLongest(pieces: Path)
    ensures var r := StripEnd(pieces);
            r <= pieces && (r == [] || r[|r| - 1] != "") && forall i :: |r| <= i < |pieces| ==> pieces[i] == ""
  {
    if pieces != [] && pieces[|pieces| - 1] == "" { StripEndIsLongest(pieces[..|pieces| - 1]); }
  }

  /** The name "." is the archive's own root, the path without pieces. */
  function PathOf(m: Member): Path {
    var name := StripEnd(m.name);
    if name == ["."] then [] else name
  }

  predicate SafeName(name: Path) {
    name == ["."] || (name != [] && Clean(name) && Plain(name))
  }

  predicate SafeMember(m: Member) {
    SafeName(StripEnd(m.name))
  }

  function SizeOf(m: Member): int {
    if m.kind.File? then m.size else 0
  }

  function TotalSize(members: seq<Member>): int {
    if members == [] then 0 else TotalSize(members[..|members| - 1]) + SizeOf(members[|members| - 1])
  }

  ghost function PathsOf(members: seq<Member>): set<Path> {
    set i | 0 <= i < |members| :: PathOf(members[i])
  }

  ghost predicate Inventory(members: seq<Member>) {
    && |members| <= 100_000
    && (forall i :: 0 <= i < |members| ==> SafeMember(members[i]) && SizeOf(members[i]) >= 0)
    && (forall i, j :: 0 <= i < j < |members| ==> PathOf(members[i]) != PathOf(members[j]))
    && TotalSize(members) <= 8_589_934_592
  }

  lemma {:induction false} TotalGrows(members: seq<Member>, n: nat)
    requires n <= |members| && forall i :: 0 <= i < |members| ==> SizeOf(members[i]) >= 0
    ensures TotalSize(members[..n]) <= TotalSize(members)
    decreases |members| - n
  {
    if n == |members| {
      assert members[..n] == members;
    } else {
      assert members[..n + 1][..n] == members[..n];
      TotalGrows(members, n + 1);
    }
  }

  ghost predicate Admits(members: seq<Member>, n: nat)
    requires n < |members|
  {
    && n < MAX_MEMBERS && SafeMember(members[n]) && SizeOf(members[n]) >= 0
    && PathOf(members[n]) !in PathsOf(members[..n])
    && TotalSize(members[..n]) + SizeOf(members[n]) <= MAX_UNCOMPRESSED_BYTES
  }

  lemma InventoryPrefix(members: seq<Member>, n: nat)
    requires n < |members| && Inventory(members)
    ensures Admits(members, n)
  {
    assert members[..n + 1][..n] == members[..n];
    TotalGrows(members, n + 1);
  }

  lemma InventorySnoc(members: seq<Member>, n: nat)
    requires n < |members| && Inventory(members[..n]) && Admits(members, n)
    ensures Inventory(members[..n + 1])
  {
    var p, q := members[..n], members[..n + 1];
    assert q[..n] == p && q == p + [members[n]];
    forall i | 0 <= i < n ensures PathOf(q[i]) != PathOf(q[n]) {
      assert PathOf(p[i]) in PathsOf(p);
    }
  }

  lemma PathsSnoc(members: seq<Member>, n: nat)
    requires n < |members|
    ensures PathsOf(members[..n + 1]) == PathsOf(members[..n]) + {PathOf(members[n])}
  {
  }

  /** The inventory check, with the running total, accepts exactly the inventories. */
  method CheckedMembers(members: seq<Member>) returns (ok: bool, paths: set<Path>)
    ensures ok <==> Inventory(members)
    ensures ok ==> paths == PathsOf(members)
  {
    paths := {};
    var total := 0;
    for n := 0 to |members|
      invariant Inventory(members[..n])
      invariant total == TotalSize(members[..n])
      invariant paths == PathsOf(members[..n])
    {
      var m := members[n];
      var size := SizeOf(m);
      if Inventory(members) {
        InventoryPrefix(members, n);
      }
      if n >= MAX_MEMBERS || !SafeMember(m) || PathOf(m) in paths || size < 0 {
        return false, {};
      }
      total := total + size;
      if total > MAX_UNCOMPRESSED_BYTES {
        return false, {};
      }
      InventorySnoc(members, n);
      PathsSnoc(members, n);
      assert members[..n + 1][..n] == members[..n];
      paths := paths + {PathOf(m)};
    }
    assert members[..|members|] == members;
    ok := true;
  }

  // ---------------------------------------------------------------- chains of links

  type Links = map<Path, Path>

  function Follow(links: Links, p: Path, hops: nat): Path {
    if hops == 0 then p
    else
      var q := Follow(links, p, hops - 1);
      if q in links then links[q] else q
  }

  /** Following the link reaches something that is not a link. */
  ghost predicate Grounded(links: Links, p: Path) {
    exists hops: nat :: Follow(links, p, hops) !in links
  }

  lemma {:induction false} NeverLeaves(links: Links, s: set<Path>, p: Path, hops: nat)
    requires p in s && forall q :: q in s ==> q in links && links[q] in s
    ensures Follow(links, p, hops) in s
  {
    if hops > 0 {
      NeverLeaves(links, s, p, hops - 1);
    }
  }

  /** The walk from one link: it ends, and fails exactly when the link leads nowhere. */
  method WalkLink(links: Links, link: Path) returns (ok: bool)
    ensures ok <==> Grounded(links, link)
  {
    var visited: set<Path> := {};
    var current := link;
    ghost var hops := 0;
    while current in links
      invariant current == Follow(links, link, hops)
      invariant visited <= links.Keys
      invariant current == link || link in visited
      invariant forall q :: q in visited ==> links[q] in visited || links[q] == current
      decreases |links.Keys - visited|
    {
      if current in visited {
        forall h: nat ensures Follow(links, link, h) in links {
          NeverLeaves(links, visited, link, h);
        }
        return false;
      }
      assert links.Keys - (visited + {current}) < links.Keys - visited;
      Smaller(links.Keys - (visited + {current}), links.Keys - visited);
      visited := visited + {current};
      current := links[current];
      hops := hops + 1;
    }
    return true;
  }

  lemma Smaller(a: set<Path>, b: set<Path>)
    requires a < b
    ensures |a| < |b|
  {
    var x :| x in b && x !in a;
    Sets.SubsetSize(a, b - {x});
  }

  ghost predicate AllGrounded(links: Links) {
    forall p :: p in links ==> Grounded(links, p)
  }

  method WalkLinks(links: Links) returns (ok: bool)
    ensures ok <==> AllGrounded(links)
  {
    var rest := links.Keys;
    while rest != {}
      invariant rest <= links.Keys
      invariant forall p :: p in links && p !in rest ==> Grounded(links, p)
      decreases |rest|
    {
      var p :| p in rest;
      var grounded := WalkLink(links, p);
      if !grounded {
        return false;
      }
      rest := rest - {p};
    }
    return true;
  }

  // ---------------------------------------------------------------- the whole check

  ghost function LinkOf(m: Member): Option<Path> {
    if m.kind.Link? then TargetOf(PathOf(m), m.kind.target) else None
  }

  ghost predicate Supported(m: Member, paths: set<Path>) {
    !m.kind.Other? && (m.kind.Link? ==> LinkOf(m).Some? && LinkOf(m).value in paths)
  }

  ghost function LinksOf(members: seq<Member>): Links {
    if members == [] then map[]
    else
      var m := members[|members| - 1];
      var rest := LinksOf(members[..|members| - 1]);
      if LinkOf(m).Some? then rest[PathOf(m) := LinkOf(m).value] else rest
  }

  method CollectLinks(members: seq<Member>, paths: set<Path>) returns (ok: bool, links: Links)
    requires forall i :: 0 <= i < |members| ==> SafeMember(members[i])
    ensures ok <==> forall i :: 0 <= i < |members| ==> Supported(members[i], paths)
    ensures ok ==> links == LinksOf(members)
  {
    links := map[];
    for n := 0 to |members|
      invariant forall i :: 0 <= i < n ==> Supported(members[i], paths)
      invariant links == LinksOf(members[..n])
    {
      var m := members[n];
      assert members[..n + 1][..n] == members[..n];
      if m.kind.Other? {
        return false, map[];
      }
      if m.kind.Link? {
        var target := LinkTarget(PathOf(m), m.kind.target);
        if target.None? || target.value !in paths {
          return false, map[];
        }
        links := links[PathOf(m) := target.value];
      }
    }
    assert members[..|members|] == members;
    ok := true;
  }

  ghost predicate Accepted(members: seq<Member>) {
    && Inventory(members)
    && (forall i :: 0 <= i < |members| ==> Supported(members[i], PathsOf(members)))
    && AllGrounded(LinksOf(members))
  }

  /** An archive is extracted exactly when its names are safe and distinct, its sizes
      are within the limits, every link resolves to a member, and every chain of links
      comes to an end. */
  method CheckArchive(members: seq<Member>) returns (ok: bool)
    ensures ok <==> Accepted(members)
  {
    var paths, links;
    ok, paths := CheckedMembers(members);
    if ok {
      ok, links := CollectLinks(members, paths);
      if ok {
        ok := WalkLinks(links);
      }
    }
  }

  lemma {:induction false} LinksAreMembers(members: seq<Member>, n: nat, p: Path)
    requires n <= |members| && forall i :: 0 <= i < |members| ==> Supported(members[i], PathsOf(members))
    requires p in LinksOf(members[..n])
    ensures p in PathsOf(members) && LinksOf(members[..n])[p] in PathsOf(members)
  {
    assert members[..n][..n - 1] == members[..n - 1];
    assert members[..n][n - 1] == members[n - 1];
    assert Supported(members[n - 1], PathsOf(members));
    if p in LinksOf(members[..n - 1]) {
      LinksAreMembers(members, n - 1, p);
    }
  }

  lemma {:induction false} FollowStaysInArchive(members: seq<Member>, p: Path, hops: nat)
    requires forall i :: 0 <= i < |members| ==> Supported(members[i], PathsOf(members))
    requires p in PathsOf(members)
    ensures Follow(LinksOf(members), p, hops) in PathsOf(members)
  {
    if hops > 0 {
      FollowStaysInArchive(members, p, hops - 1);
      var q := Follow(LinksOf(members), p, hops - 1);
      assert members[..|members|] == members;
      if q in LinksOf(members) {
        LinksAreMembers(members, |members|, q);
      }
    }
  }

  /** In an accepted archive the chain of resolved targets from every link ends in a
      member that is not a link. */
  lemma LinksEndInMembers(members: seq<Member>, p: Path) returns (hops: nat)
    requires Accepted(members) && p in LinksOf(members)
    ensures Follow(LinksOf(members), p, hops) in PathsOf(members) - LinksOf(members).Keys
  {
    assert members[..|members|] == members;
    LinksAreMembers(members, |members|, p);
    hops :| Follow(LinksOf(members), p, hops) !in LinksOf(members);
    FollowStaysInArchive(members, p, hops);
  }
}
