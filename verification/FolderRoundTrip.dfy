/** A packed folder unpacks to the same files and directories. */
module FolderRoundTrip {
  import opened Wrappers
  import opened FolderTree
  import opened FolderUnpack

  // ---------------------------------------------------------------- the tree and its paths

  function Child(children: Forest, name: string): Option<Node> {
    if children.Nil? then None else if children.name == name then Some(children.node) else Child(children.rest, name)
  }

  /** The node at a path below this one. */
  function Find(node: Node, rel: Path): Option<Node>
    decreases |rel|
  {
    if rel == [] then Some(node)
    else if !node.Dir? then None
    else match Child(node.children, rel[0]) case None => None case Some(child) => Find(child, rel[1..])
  }

  /** What a node leaves on disk; links and special files leave nothing. */
  function Left(node: Option<Node>): Option<Entry> {
    match node case Some(File(data)) => Some(FileEntry(data)) case Some(Dir(_)) => Some(DirEntry) case _ => None
  }

  function Lookup(fs: FileSystem, p: Path): Option<Entry> { if p in fs then Some(fs[p]) else None }

  lemma {:induction false} FlatKeys(at: Path, node: Node)
    ensures forall p | p in Flat(at, node) :: at <= p
    decreases node
  {
    if node.Dir? {
      FlatAllKeys(at, node.children);
    }
  }

  /** Paths below one entry of a directory. */
  lemma BelowEntry(at: Path, name: string, p: Path)
    ensures at + [name] <= p <==> at <= p && |p| > |at| && p[|at|] == name
  {
    var below := at + [name];
    if below <= p {
      assert p[|at|] == below[|at|] && p[..|at|] == below[..|at|];
    }
    if at <= p && |p| > |at| && p[|at|] == name {
      assert p[..|below|] == below;
    }
  }

  lemma {:induction false} FlatAllKeys(at: Path, children: Forest)
    ensures forall p | p in FlatAll(at, children) :: at <= p && |p| > |at| && NameIn(p[|at|], children)
    decreases children
  {
    if children.Cons? {
      FlatKeys(at + [children.name], children.node);
      FlatAllKeys(at, children.rest);
      forall p | at + [children.name] <= p
        ensures at <= p && |p| > |at| && p[|at|] == children.name
      {
        BelowEntry(at, children.name, p);
      }
    }
  }

  /** The path map of a tree holds each of its files and directories, and nothing else. */
  lemma {:induction false} FlatIsTree(at: Path, node: Node, rel: Path)
    requires WellNamed(node)
    ensures Lookup(Flat(at, node), at + rel) == Left(Find(node, rel))
    decreases node
  {
    if node.Dir? {
      FlatAllKeys(at, node.children);
      if rel == [] {
        assert at + rel == at;
      } else {
        assert at + rel != at;
        FlatAllIsForest(at, node.children, rel);
      }
    } else {
      assert at + rel == at <==> rel == [];
    }
  }

  lemma {:induction false} FlatAllIsForest(at: Path, children: Forest, rel: Path)
    requires AllWellNamed(children) && rel != []
    ensures Lookup(FlatAll(at, children), at + rel)
         == match Child(children, rel[0]) case None => None case Some(child) => Left(Find(child, rel[1..]))
    decreases children
  {
    if children.Cons? {
      var name, rest := children.name, children.rest;
      FlatAllIsForest(at, rest, rel);
      FlatAllKeys(at, rest);
      FlatKeys(at + [name], children.node);
      assert (at + rel)[|at|] == rel[0];
      if rel[0] == name {
        NotThere(rest, name);
        assert at + [name] + rel[1..] == at + rel;
        FlatIsTree(at + [name], children.node, rel[1..]);
      } else {
        assert (at + [name])[|at|] == name;
        assert !(at + [name] <= at + rel);
      }
    }
  }

  lemma {:induction false} NotThere(children: Forest, name: string)
    requires !NameIn(name, children)
    ensures Child(children, name).None?
  {
    if children.Cons? {
      NotThere(children.rest, name);
    }
  }

  // ---------------------------------------------------------------- unpacking what was packed

  /** Every directory on the way to `p`, and `p` itself, is there. */
  ghost predicate DirsTo(fs: FileSystem, p: Path) { forall n | 0 < n <= |p| :: p[..n] in fs && fs[p[..n]].DirEntry? }

  lemma {:induction false} NothingToMake(fs: FileSystem, p: Path)
    requires DirsTo(fs, p)
    ensures MadeDirs(fs, p) == Some(fs)
    decreases |p|
  {
    if p != [] {
      var up := Parent(p);
      assert forall n | 0 < n <= |up| :: up[..n] == p[..n];
      NothingToMake(fs, up);
      assert p[..|p|] == p;
    }
  }

  lemma {:induction false} UnpackedConcat(fs: FileSystem, base: Path, a: seq<Member>, b: seq<Member>)
    requires Named(a) && Named(b)
    ensures Named(a + b)
    ensures Unpacked(fs, base, a + b) == match Unpacked(fs, base, a) case None => None case Some(mid) => Unpacked(mid, base, b)
    decreases |b|
  {
    if b == [] {
      assert a + b == a;
    } else {
      assert (a + b)[..|a + b| - 1] == a + b[..|b| - 1];
      UnpackedConcat(fs, base, a, b[..|b| - 1]);
    }
  }

  ghost predicate FreeBelow(fs: FileSystem, at: Path) { forall p | p in fs :: !(at <= p) }

  lemma UnpackedSingle(fs: FileSystem, m: Member)
    requires Parts(m.name) != []
    ensures Unpacked(fs, [], [m]) == UnpackedOne(fs, [], m)
  {
    assert [m][..0] == [];
  }

  /** The first member of an entry: its file, or its directory before what is in it. */
  lemma UnpackEntry(fs: FileSystem, at: Path, m: Member, fs': FileSystem)
    requires at != [] && Parts(m.name) == at && DirsTo(fs, Parent(at)) && at !in fs && !m.kind.Unsupported?
    requires fs' == fs[at := if m.kind.Directory? then DirEntry else FileEntry(m.data)]
    ensures Unpacked(fs, [], [m]) == Some(fs')
    ensures m.kind.Directory? ==> DirsTo(fs', at)
  {
    UnpackedSingle(fs, m);
    assert [] + at == at;
    NothingToMake(fs, Parent(at));
    forall n | 0 < n <= |at|
      ensures at[..n] in fs'
      ensures m.kind.Directory? ==> fs'[at[..n]].DirEntry?
    {
      if n < |at| {
        assert at[..n] == Parent(at)[..n];
      } else {
        assert at[..n] == at;
      }
    }
  }

  /** Two runs of members, one after the other. */
  lemma UnpackBoth(fs: FileSystem, a: seq<Member>, here: FileSystem, b: seq<Member>, there: FileSystem)
    requires Named(a) && Unpacked(fs, [], a) == Some(fs + here)
    requires Named(b) && Unpacked(fs + here, [], b) == Some(fs + here + there)
    ensures Named(a + b) && Unpacked(fs, [], a + b) == Some(fs + (here + there))
  {
    UnpackedConcat(fs, [], a, b);
    assert fs + here + there == fs + (here + there);
  }

  lemma {:induction false} UnpackPacked(fs: FileSystem, at: Path, arc: string, node: Node)
    requires at != [] && Parts(arc) == at && WellNamed(node)
    requires DirsTo(fs, Parent(at)) && FreeBelow(fs, at)
    ensures Named(Packed(arc, node)) && Unpacked(fs, [], Packed(arc, node)) == Some(fs + Flat(at, node))
    decreases node
  {
    match node
    case Other =>
      assert fs + Flat(at, node) == fs;
    case File(data) =>
      var here := map[at := FileEntry(data)];
      assert fs[at := FileEntry(data)] == fs + here;
      UnpackEntry(fs, at, Member(arc, Regular, data), fs + here);
    case Dir(children) =>
      UnpackDir(fs, at, arc, children);
  }

  lemma {:induction false} UnpackDir(fs: FileSystem, at: Path, arc: string, children: Forest)
    requires at != [] && Parts(arc) == at && AllWellNamed(children)
    requires DirsTo(fs, Parent(at)) && FreeBelow(fs, at)
    ensures Named(Packed(arc, Dir(children))) && Unpacked(fs, [], Packed(arc, Dir(children))) == Some(fs + Flat(at, Dir(children)))
    decreases children, 1
  {
    var first, here := [Member(arc, Directory, [])], map[at := DirEntry];
    assert fs[at := DirEntry] == fs + here;
    UnpackEntry(fs, at, Member(arc, Directory, []), fs + here);
    ChildrenFree(fs, at, children, fs + here);
    UnpackPackedAll(fs + here, at, arc, children);
    UnpackBoth(fs, first, here, PackedAll(arc, children), FlatAll(at, children));
  }

  ghost predicate FreeBelowAll(fs: FileSystem, at: Path, children: Forest) {
    forall p | p in fs && at <= p && |p| > |at| :: !NameIn(p[|at|], children)
  }

  lemma ChildrenFree(fs: FileSystem, at: Path, children: Forest, fs': FileSystem)
    requires FreeBelow(fs, at) && fs' == fs[at := DirEntry]
    ensures FreeBelowAll(fs', at, children)
  {
  }

  lemma {:induction false} UnpackPackedAll(fs: FileSystem, at: Path, arc: string, children: Forest)
    requires at != [] && Parts(arc) == at && AllWellNamed(children)
    requires DirsTo(fs, at) && FreeBelowAll(fs, at, children)
    ensures Named(PackedAll(arc, children)) && Unpacked(fs, [], PackedAll(arc, children)) == Some(fs + FlatAll(at, children))
    decreases children, 0
  {
    match children
    case Nil =>
      assert fs + FlatAll(at, children) == fs;
    case Cons(name, node, rest) =>
      var below := at + [name];
      var here, there := Flat(below, node), FlatAll(at, rest);
      PartsJoin(arc, name);
      assert Parent(below) == at;
      BelowFree(fs, at, children);
      UnpackPacked(fs, below, arc + ['/'] + name, node);
      FlatKeys(below, node);
      OneChildDone(fs, at, children, fs + here);
      UnpackPackedAll(fs + here, at, arc, rest);
      UnpackBoth(fs, Packed(arc + ['/'] + name, node), here, PackedAll(arc, rest), there);
  }

  lemma BelowFree(fs: FileSystem, at: Path, children: Forest)
    requires children.Cons? && FreeBelowAll(fs, at, children)
    ensures FreeBelow(fs, at + [children.name])
  {
    forall p | p in fs
      ensures !(at + [children.name] <= p)
    {
      BelowEntry(at, children.name, p);
    }
  }

  lemma OneChildDone(fs: FileSystem, at: Path, children: Forest, fs': FileSystem)
    requires children.Cons? && AllWellNamed(children) && DirsTo(fs, at) && FreeBelowAll(fs, at, children)
    requires forall p | p in fs :: p in fs' && (fs'[p] == fs[p] || at + [children.name] <= p)
    requires forall p | p in fs' :: p in fs || at + [children.name] <= p
    ensures DirsTo(fs', at) && FreeBelowAll(fs', at, children.rest)
  {
    forall p | at + [children.name] <= p
      ensures at <= p && |p| > |at| && p[|at|] == children.name
    {
      BelowEntry(at, children.name, p);
    }
    BelowFree(fs, at, children);
  }

  // ---------------------------------------------------------------- which archives are accepted

  /** Names of packed members lie below the root and are safe, but for backslashes. */
  ghost predicate Placed(m: Member, root: string) {
    && !m.kind.Unsupported? && m.name != [] && m.name[0] != '/'
    && Parts(m.name) != [] && Parts(m.name)[0] == root && ".." !in Parts(m.name)
  }

  ghost predicate AllPlaced(ms: seq<Member>, root: string) { forall m | m in ms :: Placed(m, root) }

  predicate NoneHasBackslash(ms: seq<Member>) { forall m | m in ms :: '\\' !in m.name }

  lemma {:induction false} PackedPlaced(arc: string, node: Node, root: string)
    requires Placed(Member(arc, Regular, []), root) && WellNamed(node)
    ensures AllPlaced(Packed(arc, node), root)
    ensures NoneHasBackslash(Packed(arc, node)) <==> node.Other? || ('\\' !in arc && NoBackslash(node))
    decreases node
  {
    if node.Dir? {
      PackedAllPlaced(arc, node.children, root);
      BackslashConcat([Member(arc, Directory, [])], PackedAll(arc, node.children));
    }
  }

  lemma BackslashConcat(a: seq<Member>, b: seq<Member>)
    ensures NoneHasBackslash(a + b) <==> NoneHasBackslash(a) && NoneHasBackslash(b)
  {
    assert forall m | m in a || m in b :: m in a + b;
  }

  lemma {:induction false} PackedAllPlaced(arc: string, children: Forest, root: string)
    requires Placed(Member(arc, Regular, []), root) && AllWellNamed(children)
    ensures AllPlaced(PackedAll(arc, children), root)
    ensures '\\' !in arc ==> (NoneHasBackslash(PackedAll(arc, children)) <==> NoBackslashes(children))
    decreases children
  {
    if children.Cons? {
      var below := arc + ['/'] + children.name;
      PartsJoin(arc, children.name);
      PackedPlaced(below, children.node, root);
      PackedAllPlaced(arc, children.rest, root);
      BackslashConcat(Packed(below, children.node), PackedAll(arc, children.rest));
    }
  }

  /**
   Packing any folder and unpacking the archive: accepted exactly when no
   packed name holds a backslash, and then every file and directory comes back
   with its data while links and special files are gone.
   */
  lemma PackUnpack(root: string, folder: Node, ms: seq<Member>)
    requires IsName(root) && folder.Dir? && WellNamed(folder) && ms == Packed(root, folder)
    ensures OneFolder(ms, root) <==> '\\' !in root && NoBackslash(folder)
    ensures Named(ms) && Content(ms) == Some(Flat([root], folder))
    ensures forall rel :: Lookup(Content(ms).value, [root] + rel) == Left(Find(folder, rel))
  {
    PartsOfName(root);
    PackedPlaced(root, folder, root);
    assert ms[0] == Member(root, Directory, []);
    assert forall m | m in ms :: RootOfMember(m) == Ok(root) <==> '\\' !in m.name;
    UnpackPacked(map[], [root], root, folder);
    assert map[] + Flat([root], folder) == Flat([root], folder);
    forall rel
      ensures Lookup(Flat([root], folder), [root] + rel) == Left(Find(folder, rel))
    {
      FlatIsTree([root], folder, rel);
    }
  }

  /**
   A folder packed here and extracted there, without faults: refused exactly if
   a packed name holds a backslash, the name is taken, or it is the staging
   directory's; otherwise the destination gains just the tree, every file and
   directory with its data, without links and special files.
   */
  method PackThenExtract(name: string, folder: Node, disk: Disk, staging: string) returns (r: Result<string, ArchiveError>)
    requires IsName(name) && folder.Dir? && WellNamed(folder)
    requires disk.Valid() && disk.Faultless() && Unused(disk.entries, staging)
    modifies disk`entries, disk`calls
    ensures disk.Valid()
    ensures r == Ok(name) <==> '\\' !in name && NoBackslash(folder) && [name] !in old(disk.entries) && name != staging
    ensures r != Ok(name) ==> r.Err? && disk.entries == old(disk.entries)
    ensures r.Ok? ==>
              && disk.entries == old(disk.entries) + Flat([name], folder)
              && forall rel :: Lookup(disk.entries, [name] + rel) == Left(Find(folder, rel))
  {
    var members, _ := Pack(name, folder);
    PackUnpack(name, folder, members);
    ghost var before := disk.entries;
    assert members[0].name == name;
    r := Extract(disk, members, staging);
    if r.Ok? {
      assert r.value == name;
      forall rel
        ensures Lookup(disk.entries, [name] + rel) == Left(Find(folder, rel))
      {
        assert ([name] + rel)[..1] == [name];
        if [name] + rel in before {
          TopOf(before, [name] + rel);
        }
      }
    }
  }
}
