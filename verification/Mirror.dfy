/** The filtered directory mirror of secrets_store.rs, over a file system of paths. */
module Mirror {
  type Name = string
  type Path = seq<Name>

  datatype Node = File(bytes: seq<bv8>) | Dir

  type Nodes = map<Path, Node>

  /** Which relative paths are copied: the `should_copy` argument. */
  type Filter = Path -> bool

  const ACTIVE_SESSION := "active_session.json"
  const TMP := ".tmp"

  predicate NameSyncs(name: Name) {
    name != ACTIVE_SESSION && !(|name| >= |TMP| && name[|name| - |TMP|..] == TMP)
  }

  /** `browserbase_path_should_sync`: only the file name counts. */
  predicate ShouldSync(rel: Path) {
    rel == [] || NameSyncs(rel[|rel| - 1])
  }

  /** Every step of `rel` below `root` passes the filter. */
  ghost predicate Kept(keep: Filter, root: Path, rel: Path) {
    forall i :: 1 <= i <= |rel| ==> keep(root + rel[..i])
  }

  lemma KeptCons(keep: Filter, root: Path, n: Name, rel: Path)
    ensures Kept(keep, root, [n] + rel) <==> keep(root + [n]) && Kept(keep, root + [n], rel)
  {
    var all := [n] + rel;
    assert all[..1] == [n];
    forall i | 1 <= i <= |rel| ensures root + all[..i + 1] == (root + [n]) + rel[..i] {
    }
    if keep(root + [n]) && Kept(keep, root + [n], rel) {
      forall i | 1 <= i <= |all| ensures keep(root + all[..i]) {
        if i > 1 {
          assert root + all[..i] == (root + [n]) + rel[..i - 1];
        }
      }
    }
    if Kept(keep, root, all) {
      forall i | 1 <= i <= |rel| ensures keep((root + [n]) + rel[..i]) {
        assert root + all[..i + 1] == (root + [n]) + rel[..i];
      }
    }
  }

  ghost predicate EndsWith(name: Name, suffix: string) {
    exists base: string :: name == base + suffix
  }

  /** A name is left out exactly when it is the active-session file or ends in `.tmp`. */
  lemma NameSyncsMeans(name: Name)
    ensures NameSyncs(name) <==> name != "active_session.json" && !EndsWith(name, ".tmp")
  {
    if |name| >= 4 && name[|name| - 4..] == ".tmp" {
      assert name == name[..|name| - 4] + ".tmp";
    }
    if EndsWith(name, ".tmp") {
      var base: string :| name == base + ".tmp";
      assert name[|name| - 4..] == ".tmp";
    }
  }

  /** For the browserbase filter: no component is an excluded name. */
  lemma KeptMeansEveryNameSyncs(rel: Path)
    ensures Kept(ShouldSync, [], rel) <==>
              forall i :: 0 <= i < |rel| ==> rel[i] != "active_session.json" && !EndsWith(rel[i], ".tmp")
  {
    forall i | 0 <= i < |rel| ensures NameSyncs(rel[i]) <==> rel[i] != "active_session.json" && !EndsWith(rel[i], ".tmp") {
      NameSyncsMeans(rel[i]);
    }
    forall i | 1 <= i <= |rel| ensures [] + rel[..i] == rel[..i] && rel[..i][i - 1] == rel[i - 1] {
    }
    if Kept(ShouldSync, [], rel) {
      forall i | 0 <= i < |rel| ensures NameSyncs(rel[i]) {
        assert ShouldSync([] + rel[..i + 1]);
        assert [] + rel[..i + 1] == rel[..i + 1];
      }
    }
  }

  function Parent(p: Path): Path
    requires p != []
  {
    p[..|p| - 1]
  }

  ghost predicate WellFormed(nodes: Nodes) {
    && [] in nodes && nodes[[]] == Dir
    && forall p | p in nodes && p != [] :: Parent(p) in nodes && nodes[Parent(p)] == Dir
  }

  predicate IsDir(nodes: Nodes, p: Path) {
    p in nodes && nodes[p] == Dir
  }

  predicate Disjoint(a: Path, b: Path) {
    !(a <= b) && !(b <= a)
  }

  lemma Comparable(a: Path, b: Path, c: Path)
    ensures a <= c && b <= c ==> a <= b || b <= a
  {
  }

  lemma ChildPrefix(p: Path, n: Name, q: Path)
    ensures p + [n] <= q <==> p < q && q[|p|] == n
    ensures p + [n] <= q ==> q == p + ([n] + q[|p| + 1..])
  {
  }

  /** All ancestors of an existing path are directories. */
  lemma {:induction false} PrefixExists(nodes: Nodes, p: Path, q: Path)
    requires WellFormed(nodes)
    ensures q in nodes && p <= q ==> p in nodes && (p != q ==> nodes[p] == Dir)
    decreases |q|
  {
    if q in nodes && p <= q && p != q {
      assert p <= Parent(q);
      PrefixExists(nodes, p, Parent(q));
    }
  }

  function Below(dest: Path, q: Path): Path
    requires dest <= q
  {
    q[|dest|..]
  }

  predicate Same(a: Nodes, b: Nodes, p: Path, q: Path) {
    (p in a <==> q in b) && (p in a ==> a[p] == b[q])
  }

  /** `q`, at or below `dest`, is in `now` exactly if its kept counterpart below `src` was in `before`. */
  ghost predicate Mirrors(before: Nodes, now: Nodes, keep: Filter, rel: Path, src: Path, dest: Path, q: Path)
    requires dest <= q
  {
    var r := Below(dest, q);
    if Kept(keep, rel, r) then Same(now, before, q, src + r) else q !in now
  }

  /** The pure filter: below `dest` the kept part of `src`, elsewhere nothing changed. */
  ghost predicate IsMirror(before: Nodes, now: Nodes, keep: Filter, rel: Path, src: Path, dest: Path) {
    forall q: Path :: if dest <= q then Mirrors(before, now, keep, rel, src, dest, q) else Same(now, before, q, q)
  }

  function Children(nodes: Nodes, p: Path): set<Name> {
    set q | q in nodes && |q| == |p| + 1 && p <= q :: q[|p|]
  }

  lemma ChildrenMember(nodes: Nodes, p: Path, n: Name)
    ensures n in Children(nodes, p) <==> p + [n] in nodes
  {
    if n in Children(nodes, p) {
      var q :| q in nodes && |q| == |p| + 1 && p <= q && q[|p|] == n;
      assert q == p + [n];
    }
    if p + [n] in nodes {
      assert (p + [n])[|p|] == n;
    }
  }

  function Without(nodes: Nodes, p: Path): Nodes {
    map q | q in nodes && !(p <= q) :: nodes[q]
  }

  /** `now` is `before` less `p` and all that lies below it. */
  ghost predicate Removed(before: Nodes, now: Nodes, p: Path) {
    forall q: Path :: if p <= q then q !in now else Same(now, before, q, q)
  }

  lemma RemovedIsWithout(before: Nodes, now: Nodes, p: Path)
    requires Removed(before, now, p)
    ensures now == Without(before, p)
  {
    assert forall q: Path | q in now :: !(p <= q) && Same(now, before, q, q);
    assert forall q: Path | q in before && !(p <= q) :: Same(now, before, q, q);
  }

  function Under(nodes: Nodes, p: Path): set<Path> {
    set q | q in nodes && p <= q
  }

  lemma WithoutWellFormed(nodes: Nodes, p: Path)
    requires WellFormed(nodes) && p != []
    ensures WellFormed(Without(nodes, p))
  {
  }

  lemma AddWellFormed(nodes: Nodes, p: Path, node: Node)
    requires WellFormed(nodes) && p != [] && IsDir(nodes, Parent(p))
    requires node == Dir || !IsDir(nodes, p)
    ensures WellFormed(nodes[p := node])
  {
  }

  // ---------------------------------------------------------------- bookkeeping for the two loops

  /** A directory entry that may still be in `dest` when the copying loop starts. */
  ghost predicate EntryFits(nodes: Nodes, keep: Filter, rel: Path, src: Path, dest: Path, n: Name) {
    dest + [n] in nodes ==>
      src + [n] in nodes && keep(rel + [n]) && (nodes[src + [n]] == Dir <==> nodes[dest + [n]] == Dir)
  }

  /** Everything at and below one entry of `dest` is what it should be. */
  ghost predicate EntryDone(before: Nodes, now: Nodes, keep: Filter, rel: Path, src: Path, dest: Path, n: Name) {
    forall q: Path :: dest + [n] <= q ==> dest <= q && Mirrors(before, now, keep, rel, src, dest, q)
  }

  /** Dropping an entry takes all below it; every entry of `dest` not in `todo` that does not fit is dropped, nothing else. */
  ghost predicate DroppedAt(before: Nodes, now: Nodes, keep: Filter, rel: Path, src: Path, dest: Path, todo: set<Name>, q: Path) {
    if dest < q && q[|dest|] !in todo && !EntryFits(before, keep, rel, src, dest, q[|dest|]) then q !in now
    else Same(now, before, q, q)
  }

  ghost predicate Dropped(before: Nodes, now: Nodes, keep: Filter, rel: Path, src: Path, dest: Path, todo: set<Name>) {
    forall q: Path :: DroppedAt(before, now, keep, rel, src, dest, todo, q)
  }

  lemma NothingDropped(nodes: Nodes, keep: Filter, rel: Path, src: Path, dest: Path)
    ensures Dropped(nodes, nodes, keep, rel, src, dest, Children(nodes, dest))
  {
    forall q: Path ensures DroppedAt(nodes, nodes, keep, rel, src, dest, Children(nodes, dest), q) {
      if dest < q {
        ChildrenMember(nodes, dest, q[|dest|]);
      }
    }
  }

  lemma FitsUnlessDropped(before: Nodes, now: Nodes, keep: Filter, rel: Path, src: Path, dest: Path, todo: set<Name>, n: Name)
    requires Dropped(before, now, keep, rel, src, dest, todo) && Disjoint(src, dest)
    ensures n in todo || EntryFits(before, keep, rel, src, dest, n) ==>
              (EntryFits(now, keep, rel, src, dest, n) <==> EntryFits(before, keep, rel, src, dest, n))
    ensures n !in todo ==> EntryFits(now, keep, rel, src, dest, n)
  {
    DisjointBelow(src, dest, [n], n);
    assert DroppedAt(before, now, keep, rel, src, dest, todo, src + [n]);
    assert DroppedAt(before, now, keep, rel, src, dest, todo, dest + [n]);
  }

  lemma DropStep(before: Nodes, mid: Nodes, now: Nodes, keep: Filter, rel: Path, src: Path, dest: Path, todo: set<Name>, n: Name)
    requires Dropped(before, mid, keep, rel, src, dest, todo) && Disjoint(src, dest) && n in todo
    requires now == if EntryFits(mid, keep, rel, src, dest, n) then mid else Without(mid, dest + [n])
    ensures Dropped(before, now, keep, rel, src, dest, todo - {n})
  {
    FitsUnlessDropped(before, mid, keep, rel, src, dest, todo, n);
    forall q: Path ensures DroppedAt(before, now, keep, rel, src, dest, todo - {n}, q) {
      assert DroppedAt(before, mid, keep, rel, src, dest, todo, q);
      ChildPrefix(dest, n, q);
    }
  }

  lemma DroppedFits(before: Nodes, now: Nodes, keep: Filter, rel: Path, src: Path, dest: Path)
    requires Dropped(before, now, keep, rel, src, dest, {}) && Disjoint(src, dest)
    ensures OutsideSame(before, now, dest)
    ensures forall n :: EntryFits(now, keep, rel, src, dest, n)
  {
    forall q: Path | !(dest <= q) ensures Same(now, before, q, q) {
      assert DroppedAt(before, now, keep, rel, src, dest, {}, q);
    }
    forall n ensures EntryFits(now, keep, rel, src, dest, n) {
      FitsUnlessDropped(before, now, keep, rel, src, dest, {}, n);
    }
  }

  ghost predicate OutsideSame(before: Nodes, now: Nodes, dest: Path) {
    forall q: Path :: !(dest <= q) ==> Same(now, before, q, q)
  }

  lemma DisjointBelow(src: Path, dest: Path, r: Path, n: Name)
    requires Disjoint(src, dest)
    ensures !(dest <= src + r) && Disjoint(src + [n], dest + [n])
  {
    Comparable(dest, src, src + r);
    ChildPrefix(src, n, dest + [n]);
    ChildPrefix(dest, n, src + [n]);
    Comparable(src, dest, dest + [n]);
    Comparable(dest, src, src + [n]);
  }

  lemma SameTrans(a: Nodes, b: Nodes, c: Nodes, dest: Path)
    requires OutsideSame(a, b, dest) && OutsideSame(b, c, dest)
    ensures OutsideSame(a, c, dest)
  {
    forall q: Path | !(dest <= q) ensures Same(c, a, q, q) {
      assert Same(b, a, q, q) && Same(c, b, q, q);
    }
  }

  /** Nothing changed outside an entry of `dest`, so nothing changed outside `dest`. */
  lemma WidenSame(a: Nodes, b: Nodes, dest: Path, n: Name)
    requires OutsideSame(a, b, dest + [n])
    ensures OutsideSame(a, b, dest)
  {
  }

  /** The recursive call did one entry. */
  lemma EntryDoneByCall(before: Nodes, mid: Nodes, now: Nodes, keep: Filter, rel: Path, src: Path, dest: Path, n: Name)
    requires Disjoint(src, dest) && keep(rel + [n])
    requires OutsideSame(before, mid, dest)
    requires IsMirror(mid, now, keep, rel + [n], src + [n], dest + [n])
    ensures EntryDone(before, now, keep, rel, src, dest, n)
  {
    forall q: Path | dest + [n] <= q ensures dest <= q && Mirrors(before, now, keep, rel, src, dest, q) {
      ChildPrefix(dest, n, q);
      var r := Below(dest + [n], q);
      assert Below(dest, q) == [n] + r;
      KeptCons(keep, rel, n, r);
      assert src + [n] + r == src + ([n] + r);
      DisjointBelow(src, dest, [n] + r, n);
      assert Mirrors(mid, now, keep, rel + [n], src + [n], dest + [n], q);
      assert Same(mid, before, src + ([n] + r), src + ([n] + r));
    }
  }

  /** A copied file did one entry. */
  lemma EntryDoneByCopy(before: Nodes, now: Nodes, keep: Filter, rel: Path, src: Path, dest: Path, n: Name)
    requires WellFormed(before) && WellFormed(now) && keep(rel + [n])
    requires src + [n] in before && before[src + [n]] != Dir
    requires dest + [n] in now && now[dest + [n]] == before[src + [n]]
    ensures EntryDone(before, now, keep, rel, src, dest, n)
  {
    forall q: Path | dest + [n] <= q ensures dest <= q && Mirrors(before, now, keep, rel, src, dest, q) {
      ChildPrefix(dest, n, q);
      var r := Below(dest, q);
      assert r == [n] + r[1..];
      KeptCons(keep, rel, n, r[1..]);
      ChildPrefix(src, n, src + r);
      PrefixExists(now, dest + [n], q);
      PrefixExists(before, src + [n], src + r);
      if |r| == 1 {
        assert r == [n] && q == dest + [n];
      }
    }
  }

  /** An entry that is not copied and not there is done. */
  lemma EntryDoneByAbsence(before: Nodes, now: Nodes, keep: Filter, rel: Path, src: Path, dest: Path, n: Name)
    requires WellFormed(before) && WellFormed(now) && dest + [n] !in now
    requires src + [n] !in before || !keep(rel + [n])
    ensures EntryDone(before, now, keep, rel, src, dest, n)
  {
    forall q: Path | dest + [n] <= q ensures dest <= q && Mirrors(before, now, keep, rel, src, dest, q) {
      ChildPrefix(dest, n, q);
      var r := Below(dest, q);
      assert r == [n] + r[1..];
      KeptCons(keep, rel, n, r[1..]);
      ChildPrefix(src, n, src + r);
      PrefixExists(now, dest + [n], q);
      PrefixExists(before, src + [n], src + r);
    }
  }

  /** Work on one entry leaves the finished ones alone. */
  lemma EntryDoneKept(before: Nodes, mid: Nodes, now: Nodes, keep: Filter, rel: Path, src: Path, dest: Path, n: Name, other: Name)
    requires EntryDone(before, mid, keep, rel, src, dest, other) && n != other && OutsideSame(mid, now, dest + [n])
    ensures EntryDone(before, now, keep, rel, src, dest, other)
  {
    forall q: Path | dest + [other] <= q ensures dest <= q && Mirrors(before, now, keep, rel, src, dest, q) {
      ChildPrefix(dest, n, q);
      ChildPrefix(dest, other, q);
      assert Mirrors(before, mid, keep, rel, src, dest, q);
      assert Same(now, mid, q, q);
    }
  }

  /** All entries done: the mirror is complete. */
  lemma AllEntriesDone(before: Nodes, now: Nodes, keep: Filter, rel: Path, src: Path, dest: Path)
    requires IsDir(before, src) && IsDir(now, dest) && OutsideSame(before, now, dest)
    requires forall n :: EntryDone(before, now, keep, rel, src, dest, n)
    ensures IsMirror(before, now, keep, rel, src, dest)
  {
    forall q: Path ensures if dest <= q then Mirrors(before, now, keep, rel, src, dest, q) else Same(now, before, q, q) {
      if dest <= q {
        var r := Below(dest, q);
        if r == [] {
          assert q == dest && src + r == src;
        } else {
          assert dest + [r[0]] <= q;
          assert EntryDone(before, now, keep, rel, src, dest, r[0]);
        }
      }
    }
  }

  // ---------------------------------------------------------------- the file system object

  datatype Result = Ok | Err

  class FileSystem {
    var nodes: Nodes

    ghost predicate Valid()
      reads this
    {
      WellFormed(nodes)
    }

    method RemovePath(p: Path)
      requires Valid() && p != []
      modifies this
      ensures Valid() && Removed(old(nodes), nodes, p)
    {
      WithoutWellFormed(nodes, p);
      nodes := Without(nodes, p);
    }

    method CreateDir(p: Path)
      requires Valid() && p != [] && IsDir(nodes, Parent(p)) && (p in nodes ==> nodes[p] == Dir)
      modifies this
      ensures Valid() && nodes == old(nodes)[p := Dir]
    {
      AddWellFormed(nodes, p, Dir);
      nodes := nodes[p := Dir];
    }

    method CopyFile(src: Path, dest: Path)
      requires Valid() && src in nodes && nodes[src] != Dir
      requires dest != [] && IsDir(nodes, Parent(dest)) && !IsDir(nodes, dest)
      modifies this
      ensures Valid() && nodes == old(nodes)[dest := old(nodes)[src]]
    {
      AddWellFormed(nodes, dest, nodes[src]);
      nodes := nodes[dest := nodes[src]];
    }

    /** Body of the first loop, for one entry of `dest`. */
    method DropEntry(src: Path, dest: Path, rel: Path, keep: Filter, n: Name)
      requires Valid() && IsDir(nodes, dest) && Disjoint(src, dest)
      modifies this
      ensures Valid() && IsDir(nodes, dest)
      ensures nodes == if EntryFits(old(nodes), keep, rel, src, dest, n) then old(nodes) else Without(old(nodes), dest + [n])
    {
      if dest + [n] in nodes {
        if src + [n] !in nodes || !keep(rel + [n]) {
          RemovePath(dest + [n]);
        } else if IsDir(nodes, src + [n]) != IsDir(nodes, dest + [n]) {
          RemovePath(dest + [n]);
        }
      }
      if nodes != old(nodes) {
        RemovedIsWithout(old(nodes), nodes, dest + [n]);
      }
    }

    /** First loop: drop every entry of `dest` that has no counterpart of the same kind to keep. */
    method DropStale(src: Path, dest: Path, rel: Path, keep: Filter)
      requires Valid() && IsDir(nodes, src) && IsDir(nodes, dest) && Disjoint(src, dest)
      modifies this
      ensures Valid() && IsDir(nodes, dest) && Dropped(old(nodes), nodes, keep, rel, src, dest, {})
    {
      var todo := Children(nodes, dest);
      NothingDropped(nodes, keep, rel, src, dest);
      while todo != {}
        invariant Valid() && IsDir(nodes, dest)
        invariant Dropped(old(nodes), nodes, keep, rel, src, dest, todo)
        decreases |todo|
      {
        var n :| n in todo;
        ghost var mid := nodes;
        DropEntry(src, dest, rel, keep, n);
        DropStep(old(nodes), mid, nodes, keep, rel, src, dest, todo, n);
        todo := todo - {n};
      }
    }

    /** `mirror_dir_recursive_filtered`: make `dest` the filtered copy of `src`. */
    method MirrorDir(src: Path, dest: Path, rel: Path, keep: Filter)
      requires Valid() && IsDir(nodes, src) && IsDir(nodes, dest) && Disjoint(src, dest)
      modifies this
      ensures Valid() && IsMirror(old(nodes), nodes, keep, rel, src, dest)
      decreases |Under(nodes, src)|, 1
    {
      DropStale(src, dest, rel, keep);
      DroppedFits(old(nodes), nodes, keep, rel, src, dest);
      var todo := Children(nodes, src);
      ghost var dropped := nodes;
      forall n | n !in todo ensures EntryDone(old(nodes), nodes, keep, rel, src, dest, n) {
        ChildrenMember(nodes, src, n);
        DisjointBelow(src, dest, [n], n);
        assert Same(nodes, old(nodes), src + [n], src + [n]);
        assert EntryFits(nodes, keep, rel, src, dest, n);
        EntryDoneByAbsence(old(nodes), nodes, keep, rel, src, dest, n);
      }
      while todo != {}
        invariant Valid() && IsDir(nodes, dest) && OutsideSame(old(nodes), nodes, dest)
        invariant todo <= Children(dropped, src)
        invariant forall n :: n in todo ==> EntryFits(nodes, keep, rel, src, dest, n)
        invariant forall n :: n !in todo ==> EntryDone(old(nodes), nodes, keep, rel, src, dest, n)
        decreases |todo|
      {
        var n :| n in todo;
        ghost var mid := nodes;
        ChildrenMember(dropped, src, n);
        DisjointBelow(src, dest, [n], n);
        assert Same(dropped, old(nodes), src + [n], src + [n]);
        MirrorEntry(old(nodes), src, dest, rel, keep, n);
        EntriesKept(old(nodes), mid, nodes, keep, rel, src, dest, n, todo);
        todo := todo - {n};
      }
      DisjointBelow(src, dest, [], "");
      assert src + [] == src;
      AllEntriesDone(old(nodes), nodes, keep, rel, src, dest);
    }

    /** Body of the second loop, for one entry of `src`. */
    method MirrorEntry(ghost before: Nodes, src: Path, dest: Path, rel: Path, keep: Filter, n: Name)
      requires Valid() && WellFormed(before) && IsDir(nodes, dest) && Disjoint(src, dest)
      requires OutsideSame(before, nodes, dest) && IsDir(before, src) && src + [n] in before
      requires EntryFits(nodes, keep, rel, src, dest, n)
      modifies this
      ensures Valid() && OutsideSame(old(nodes), nodes, dest + [n])
      ensures EntryDone(before, nodes, keep, rel, src, dest, n)
      decreases |Under(before, src)|, 0
    {
      var from, to := src + [n], dest + [n];
      DisjointBelow(src, dest, [n], n);
      assert Same(nodes, before, from, from);
      assert Parent(to) == dest;
      if !keep(rel + [n]) {
        EntryDoneByAbsence(before, nodes, keep, rel, src, dest, n);
        return;
      }
      if IsDir(nodes, from) {
        MakeDir(to);
        ghost var mid := nodes;
        WidenSame(old(nodes), mid, dest, n);
        SameTrans(before, old(nodes), mid, dest);
        assert Same(mid, before, from, from);
        SmallerBelow(before, mid, src, dest, n);
        MirrorDir(from, to, rel + [n], keep);
        EntryDoneByCall(before, mid, nodes, keep, rel, src, dest, n);
        MirrorOutside(mid, nodes, keep, rel + [n], from, to);
        SameTrans(old(nodes), mid, nodes, to);
      } else {
        CopyFile(from, to);
        EntryDoneByCopy(before, nodes, keep, rel, src, dest, n);
      }
    }

    /** `create_dir_all` */
    method CreateDirAll(p: Path) returns (result: Result)
      requires Valid()
      modifies this
      ensures Valid() && (result == Ok <==> !Blocked(old(nodes), p))
      ensures if result == Ok then DirsMade(old(nodes), nodes, p) else nodes == old(nodes)
    {
      for i := 0 to |p|
        invariant Valid() && DirsMade(old(nodes), nodes, p[..i])
        invariant nodes == old(nodes) || p[..i] !in old(nodes)
        invariant forall q: Path :: q <= p[..i] && q in old(nodes) ==> old(nodes)[q] == Dir
      {
        var q := p[..i + 1];
        assert q == p[..i] + [p[i]] && Parent(q) == p[..i];
        assert DirMadeAt(old(nodes), nodes, p[..i], q) && DirMadeAt(old(nodes), nodes, p[..i], p[..i]);
        PrefixExists(old(nodes), p[..i], q);
        if q in nodes && nodes[q] != Dir {
          assert q <= p;
          return Err;
        }
        OneMoreDir(old(nodes), nodes, p[..i], p[i]);
        CreateDir(q);
        forall x: Path | x <= q && x in old(nodes) ensures old(nodes)[x] == Dir {
          if x != q {
            assert x == q[..|x|] == p[..i][..|x|];
          }
        }
      }
      assert p[..|p|] == p;
      return Ok;
    }

    /** `mirror_optional_dir_filtered` */
    method MirrorOptionalDir(src: Path, dest: Path, keep: Filter) returns (result: Result)
      requires Valid() && Disjoint(src, dest)
      modifies this
      ensures Valid()
      ensures result == Ok <==> CanSync(old(nodes), src, dest)
      ensures if result == Ok then IsSynced(old(nodes), nodes, keep, src, dest) else nodes == old(nodes)
    {
      ClearUnblocks(nodes, dest);
      if src !in nodes {
        if dest in nodes {
          if nodes[dest] != Dir {
            return Err;
          }
          RemovePath(dest);
          RemovedIsWithout(old(nodes), nodes, dest);
        } else {
          MissingIsWithout(nodes, dest);
        }
        ghost var cleared := nodes;
        result := CreateDirAll(dest);
        if result == Ok {
          SyncedByClearing(old(nodes), cleared, nodes, keep, src, dest);
        } else {
          PathWithoutBlock(old(nodes), dest);
        }
        return;
      }
      if nodes[src] != Dir {
        return Err;
      }
      if dest in nodes && nodes[dest] != Dir {
        RemovePath(dest);
        RemovedIsWithout(old(nodes), nodes, dest);
      }
      ghost var cleared := nodes;
      result := CreateDirAll(dest);
      if result != Ok {
        PathWithoutBlock(old(nodes), dest);
        return;
      }
      ghost var ready := nodes;
      assert DirMadeAt(cleared, ready, dest, src) && DirMadeAt(cleared, ready, dest, dest);
      MirrorDir(src, dest, [], keep);
      SyncedByMirror(old(nodes), cleared, ready, nodes, keep, src, dest);
    }

    /** User state into the workspace. */
    method SyncUserToWorkspace(user: Path, workspace: Path) returns (result: Result)
      requires Valid() && Disjoint(user, WorkspaceDir(workspace))
      modifies this
      ensures Valid() && (result == Ok <==> CanSync(old(nodes), user, workspace + [".secrets"] + ["browserbase"]))
      ensures if result == Ok then IsSynced(old(nodes), nodes, ShouldSync, user, workspace + [".secrets"] + ["browserbase"])
              else nodes == old(nodes)
    {
      result := MirrorOptionalDir(user, WorkspaceDir(workspace), ShouldSync);
    }

    /** Workspace state back to the user. */
    method SyncWorkspaceToUser(workspace: Path, user: Path) returns (result: Result)
      requires Valid() && Disjoint(user, WorkspaceDir(workspace))
      modifies this
      ensures Valid() && (result == Ok <==> CanSync(old(nodes), workspace + [".secrets"] + ["browserbase"], user))
      ensures if result == Ok then IsSynced(old(nodes), nodes, ShouldSync, workspace + [".secrets"] + ["browserbase"], user)
              else nodes == old(nodes)
    {
      result := MirrorOptionalDir(WorkspaceDir(workspace), user, ShouldSync);
    }

    /** Both syncs, nothing written to the workspace in between. The second can only fail if the user's directory is blocked. */
    method SyncThereAndBack(user: Path, workspace: Path) returns (result: Result)
      requires Valid() && Disjoint(user, WorkspaceDir(workspace))
      modifies this
      ensures Valid()
      ensures result == Ok <==>
                CanSync(old(nodes), user, WorkspaceDir(workspace)) && !Blocked(old(nodes), Parent(user))
      ensures result == Ok ==> forall r: Path :: Restored(old(nodes), nodes, ShouldSync, user, WorkspaceDir(workspace), r)
    {
      result := SyncUserToWorkspace(user, workspace);
      if result == Ok {
        ghost var mid := nodes;
        SyncedBlocks(old(nodes), mid, ShouldSync, user, WorkspaceDir(workspace));
        result := SyncWorkspaceToUser(workspace, user);
        if result == Ok {
          forall r: Path ensures Restored(old(nodes), nodes, ShouldSync, user, WorkspaceDir(workspace), r) {
            RoundTrip(old(nodes), mid, nodes, ShouldSync, user, WorkspaceDir(workspace), r);
          }
        }
      }
    }

    /** Make `p` a directory, replacing a file of that name. */
    method MakeDir(p: Path)
      requires Valid() && p != [] && IsDir(nodes, Parent(p))
      modifies this
      ensures Valid() && IsDir(nodes, p) && OutsideSame(old(nodes), nodes, p)
    {
      if p in nodes && nodes[p] != Dir {
        RemovePath(p);
      }
      CreateDir(p);
    }
  }

  function WorkspaceDir(workspace: Path): Path {
    workspace + [".secrets"] + ["browserbase"]
  }

  /** Without `dest` itself, only its ancestors can block it. */
  lemma ClearUnblocks(nodes: Nodes, dest: Path)
    requires WellFormed(nodes) && dest != []
    ensures Blocked(Without(nodes, dest), dest) <==> Blocked(nodes, Parent(dest))
    ensures !(dest in nodes && nodes[dest] != Dir) ==> (Blocked(nodes, dest) <==> Blocked(nodes, Parent(dest)))
    ensures dest in nodes ==> !Blocked(nodes, Parent(dest))
  {
    assert dest == Parent(dest) + [dest[|dest| - 1]];
    if dest in nodes {
      forall q: Path | q <= Parent(dest) ensures q in nodes && nodes[q] == Dir {
        SnocPrefix(Parent(dest), dest[|dest| - 1], q);
        PrefixExists(nodes, q, dest);
      }
    }
    forall q: Path | q in nodes ensures q <= dest <==> q <= Parent(dest) || q == dest {
      SnocPrefix(Parent(dest), dest[|dest| - 1], q);
    }
    if Blocked(nodes, Parent(dest)) {
      var q: Path :| q <= Parent(dest) && q in nodes && nodes[q] != Dir;
      assert q <= dest && !(dest <= q) && q in Without(nodes, dest);
    }
    if Blocked(Without(nodes, dest), dest) {
      var q: Path :| q <= dest && q in Without(nodes, dest) && Without(nodes, dest)[q] != Dir;
      assert q <= Parent(dest) && q in nodes;
    }
  }

  lemma MissingIsWithout(nodes: Nodes, dest: Path)
    requires WellFormed(nodes) && dest !in nodes
    ensures Without(nodes, dest) == nodes
  {
    forall q | q in nodes ensures !(dest <= q) {
      PrefixExists(nodes, dest, q);
    }
  }

  /** A blocked path is not there, so clearing it changed nothing. */
  lemma PathWithoutBlock(nodes: Nodes, dest: Path)
    requires WellFormed(nodes) && dest != [] && Blocked(nodes, Parent(dest))
    ensures dest !in nodes && Without(nodes, dest) == nodes
  {
    ClearUnblocks(nodes, dest);
    MissingIsWithout(nodes, dest);
  }

  /** Some path up to `p` is a file. */
  ghost predicate Blocked(nodes: Nodes, p: Path) {
    exists q: Path :: q <= p && q in nodes && nodes[q] != Dir
  }

  /** `src`, if there, is a directory, and no file is in the way of `dest`, which may be a file only if it gets replaced. */
  ghost predicate CanSync(nodes: Nodes, src: Path, dest: Path)
    requires dest != []
  {
    && !Blocked(nodes, Parent(dest))
    && (src in nodes ==> nodes[src] == Dir)
    && (src !in nodes && dest in nodes ==> nodes[dest] == Dir)
  }

  predicate DirMadeAt(before: Nodes, now: Nodes, p: Path, q: Path) {
    if q <= p then IsDir(now, q) else Same(now, before, q, q)
  }

  /** `now` is `before` with all of `p` made directories. */
  ghost predicate DirsMade(before: Nodes, now: Nodes, p: Path) {
    forall q: Path :: DirMadeAt(before, now, p, q)
  }

  lemma SnocPrefix(p: Path, n: Name, q: Path)
    ensures q <= p + [n] <==> q <= p || q == p + [n]
  {
  }

  lemma OneMoreDir(before: Nodes, now: Nodes, p: Path, n: Name)
    requires DirsMade(before, now, p)
    ensures DirsMade(before, now[p + [n] := Dir], p + [n])
  {
    var now', p' := now[p + [n] := Dir], p + [n];
    forall q: Path ensures DirMadeAt(before, now', p', q) {
      SnocPrefix(p, n, q);
      assert DirMadeAt(before, now, p, q);
    }
  }

  ghost predicate SyncedAt(before: Nodes, now: Nodes, keep: Filter, src: Path, dest: Path, q: Path) {
    if dest <= q then
      if src in before then Mirrors(before, now, keep, [], src, dest, q)
      else (q in now <==> q == dest) && (q in now ==> now[q] == Dir)
    else if q <= dest then IsDir(now, q)
    else Same(now, before, q, q)
  }

  /** The whole state after a sync: `dest` mirrors `src`, or is an empty directory if there is no `src`. */
  ghost predicate IsSynced(before: Nodes, now: Nodes, keep: Filter, src: Path, dest: Path) {
    forall q: Path :: SyncedAt(before, now, keep, src, dest, q)
  }

  lemma SyncedByMirror(before: Nodes, cleared: Nodes, ready: Nodes, now: Nodes, keep: Filter, src: Path, dest: Path)
    requires Disjoint(src, dest) && src in before && OutsideSame(before, cleared, dest)
    requires DirsMade(cleared, ready, dest) && IsMirror(ready, now, keep, [], src, dest)
    ensures IsSynced(before, now, keep, src, dest)
  {
    forall q: Path ensures SyncedAt(before, now, keep, src, dest, q) {
      if dest <= q {
        var r := Below(dest, q);
        assert Mirrors(ready, now, keep, [], src, dest, q);
        DisjointBelow(src, dest, r, "");
        ShortPrefix(src, r, dest);
        assert DirMadeAt(cleared, ready, dest, src + r) && Same(cleared, before, src + r, src + r);
      } else {
        assert Same(now, ready, q, q) && DirMadeAt(cleared, ready, dest, q) && Same(cleared, before, q, q);
      }
    }
  }

  lemma ShortPrefix(a: Path, r: Path, b: Path)
    ensures a + r <= b ==> a <= b
  {
  }

  lemma SyncedByClearing(before: Nodes, cleared: Nodes, now: Nodes, keep: Filter, src: Path, dest: Path)
    requires src !in before && cleared == Without(before, dest)
    requires DirsMade(cleared, now, dest)
    ensures IsSynced(before, now, keep, src, dest)
  {
    forall q: Path ensures SyncedAt(before, now, keep, src, dest, q) {
      assert dest <= q && q <= dest ==> q == dest;
      assert DirMadeAt(cleared, now, dest, q);
    }
  }

  lemma MissingStays(nodes: Nodes, p: Path, r: Path)
    requires WellFormed(nodes) && p !in nodes
    ensures p + r !in nodes
  {
    PrefixExists(nodes, p, p + r);
  }

  /** After a sync from `src` to `dest`, the way back is blocked exactly if it was before. */
  lemma SyncedBlocks(before: Nodes, mid: Nodes, keep: Filter, src: Path, dest: Path)
    requires WellFormed(before) && Disjoint(src, dest) && CanSync(before, src, dest) && IsSynced(before, mid, keep, src, dest)
    ensures CanSync(mid, dest, src) <==> !Blocked(before, Parent(src))
  {
    assert SyncedAt(before, mid, keep, src, dest, dest) && Below(dest, dest) == [] && src + [] == src;
    assert IsDir(mid, dest);
    if Blocked(before, Parent(src)) {
      var q: Path :| q <= Parent(src) && q in before && before[q] != Dir;
      SyncKeepsFiles(before, mid, keep, src, dest, q);
      assert q in mid && mid[q] != Dir;
    }
    if Blocked(mid, Parent(src)) {
      var q: Path :| q <= Parent(src) && q in mid && mid[q] != Dir;
      SyncKeepsFiles(before, mid, keep, src, dest, q);
      assert q in before && before[q] != Dir;
    }
  }

  lemma SyncKeepsFiles(before: Nodes, mid: Nodes, keep: Filter, src: Path, dest: Path, q: Path)
    requires Disjoint(src, dest) && !Blocked(before, Parent(dest)) && IsSynced(before, mid, keep, src, dest) && q <= Parent(src)
    ensures q in mid && mid[q] != Dir <==> q in before && before[q] != Dir
  {
    assert SyncedAt(before, mid, keep, src, dest, q);
    ShorterPrefix(q, src, dest);
    if q <= dest {
      assert dest == Parent(dest) + [dest[|dest| - 1]];
      SnocPrefix(Parent(dest), dest[|dest| - 1], q);
    }
  }

  lemma ShorterPrefix(q: Path, src: Path, dest: Path)
    requires src != [] && q <= Parent(src) && Disjoint(src, dest)
    ensures q <= src && !(dest <= q)
  {
  }

  /** What a round trip leaves at the relative path `r`. */
  ghost predicate Restored(before: Nodes, after: Nodes, keep: Filter, user: Path, workspace: Path, r: Path) {
    && (user + r in after <==> r == [] || (user + r in before && Kept(keep, [], r)))
    && IsDir(after, user)
    && (user + r in before && Kept(keep, [], r) ==> after[user + r] == before[user + r])
    && Same(after, after, workspace + r, user + r)
  }

  /**
   * User to workspace to user leaves the user's directory with exactly its kept part, the workspace holding
   * the same, and an empty directory where the user had none.
   */
  lemma RoundTrip(before: Nodes, mid: Nodes, after: Nodes, keep: Filter, user: Path, workspace: Path, r: Path)
    requires WellFormed(before) && Disjoint(user, workspace) && (user in before ==> IsDir(before, user))
    requires IsSynced(before, mid, keep, user, workspace) && IsSynced(mid, after, keep, workspace, user)
    ensures Restored(before, after, keep, user, workspace, r)
  {
    var u, w := user + r, workspace + r;
    assert user <= u && Below(user, u) == r && workspace <= w && Below(workspace, w) == r;
    DisjointBelow(user, workspace, r, "");
    DisjointBelow(workspace, user, r, "");
    assert Below(workspace, workspace) == [] == Below(user, user) && user + [] == user && workspace + [] == workspace;
    assert SyncedAt(mid, after, keep, workspace, user, user);
    assert SyncedAt(before, mid, keep, user, workspace, workspace) && SyncedAt(before, mid, keep, user, workspace, w);
    assert SyncedAt(mid, after, keep, workspace, user, u) && SyncedAt(mid, after, keep, workspace, user, w);
    ShortPrefix(workspace, r, user);
    assert (w == workspace <==> r == []) && (u == user <==> r == []);
    if user !in before {
      MissingStays(before, user, r);
    }
  }

  lemma MirrorOutside(before: Nodes, now: Nodes, keep: Filter, rel: Path, src: Path, dest: Path)
    requires IsMirror(before, now, keep, rel, src, dest)
    ensures OutsideSame(before, now, dest)
  {
  }

  /** The recursive call works on strictly fewer source paths. */
  lemma SmallerBelow(before: Nodes, now: Nodes, src: Path, dest: Path, n: Name)
    requires Disjoint(src, dest) && src in before && OutsideSame(before, now, dest)
    ensures |Under(now, src + [n])| < |Under(before, src)|
  {
    var a, b := Under(now, src + [n]), Under(before, src);
    forall q | q in a ensures q in b && q != src {
      ChildPrefix(src, n, q);
      assert q == src + q[|src|..];
      DisjointBelow(src, dest, q[|src|..], n);
      assert Same(now, before, q, q);
    }
    assert a <= b - {src};
    SubsetSize(a, b - {src});
  }

  lemma {:induction false} SubsetSize<T>(a: set<T>, b: set<T>)
    requires a <= b
    ensures |a| <= |b|
    decreases |a|
  {
    if a != {} {
      var x :| x in a;
      SubsetSize(a - {x}, b - {x});
    }
  }

  lemma EntriesKept(before: Nodes, mid: Nodes, now: Nodes, keep: Filter, rel: Path, src: Path, dest: Path, n: Name, todo: set<Name>)
    requires Disjoint(src, dest) && n in todo && IsDir(mid, dest) && OutsideSame(before, mid, dest)
    requires OutsideSame(mid, now, dest + [n]) && EntryDone(before, now, keep, rel, src, dest, n)
    requires forall m :: m in todo ==> EntryFits(mid, keep, rel, src, dest, m)
    requires forall m :: m !in todo ==> EntryDone(before, mid, keep, rel, src, dest, m)
    ensures IsDir(now, dest) && OutsideSame(before, now, dest)
    ensures forall m :: m in todo - {n} ==> EntryFits(now, keep, rel, src, dest, m)
    ensures forall m :: m !in todo - {n} ==> EntryDone(before, now, keep, rel, src, dest, m)
  {
    assert Same(now, mid, dest, dest);
    WidenSame(mid, now, dest, n);
    SameTrans(before, mid, now, dest);
    forall m | m in todo - {n} ensures EntryFits(now, keep, rel, src, dest, m) {
      assert EntryFits(mid, keep, rel, src, dest, m);
      ChildPrefix(dest, n, dest + [m]);
      assert Same(now, mid, dest + [m], dest + [m]);
      DisjointBelow(src, dest, [m], m);
      ChildPrefix(dest, n, src + [m]);
      assert Same(now, mid, src + [m], src + [m]);
    }
    forall m | m !in todo - {n} ensures EntryDone(before, now, keep, rel, src, dest, m) {
      if m != n {
        EntryDoneKept(before, mid, now, keep, rel, src, dest, n, m);
      }
    }
  }
}
