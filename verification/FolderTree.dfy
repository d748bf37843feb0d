/**
 Packing a folder: the tree on disk, the member list tarfile makes of it, and
 the names an archive may hold (services/folder_service.py).

 The tar byte format is left out: an archive is its list of members.
 */
module FolderTree {
  import opened Wrappers
  import opened Bytes

  /** `Other` is a symlink, a special file, or a further name of a hard-linked file. */
  datatype Node = File(data: bytes) | Dir(children: Forest) | Other

  /** A directory's entries, in the order tarfile visits them. */
  datatype Forest = Nil | Cons(name: string, node: Node, rest: Forest)

  datatype Kind = Regular | Directory | Unsupported

  datatype Member = Member(name: string, kind: Kind, data: bytes)

  // ---------------------------------------------------------------- names

  /** A POSIX file name. */
  predicate IsName(s: string) { s != "" && s != "." && s != ".." && '/' !in s }

  function SlashAt(s: string): (n: nat)
    ensures n <= |s| && (n < |s| ==> s[n] == '/')
  {
    if s == [] || s[0] == '/' then 0 else 1 + SlashAt(s[1..])
  }

  /** `PurePosixPath(s).parts` of a relative path. */
  function Parts(s: string): seq<string>
    decreases |s|
  {
    var n := SlashAt(s);
    var more := if n == |s| then [] else Parts(s[n + 1..]);
    if s[..n] == "" || s[..n] == "." then more else [s[..n]] + more
  }

  lemma {:induction false} SlashAtFirst(head: string, rest: string)
    requires '/' !in head && (rest == [] || rest[0] == '/')
    ensures SlashAt(head + rest) == |head|
  {
    if head == [] {
      assert head + rest == rest;
    } else {
      assert (head + rest)[1..] == head[1..] + rest;
      SlashAtFirst(head[1..], rest);
    }
  }

  lemma PartsOfName(s: string)
    requires IsName(s)
    ensures Parts(s) == [s]
  {
    PartsOfOne(s);
  }

  lemma PartsSplit(head: string, rest: string, whole: string)
    requires '/' !in head && whole == head + ['/'] + rest
    ensures Parts(whole) == (if head == "" || head == "." then [] else [head]) + Parts(rest)
  {
    SlashAtFirst(head, ['/'] + rest);
    assert whole == head + (['/'] + rest);
    assert whole[..|head|] == head && whole[|head| + 1..] == rest;
  }

  lemma PartsOfOne(s: string)
    requires '/' !in s
    ensures Parts(s) == if s == "" || s == "." then [] else [s]
  {
    SlashAtFirst(s, []);
    assert s + [] == s && s[..|s|] == s;
  }

  lemma LastPart(arc: string, name: string)
    requires '/' !in arc
    ensures Parts(arc + ['/'] + name) == Parts(arc) + Parts(name)
  {
    PartsSplit(arc, name, arc + ['/'] + name);
    PartsOfOne(arc);
  }

  lemma Regroup(head: string, rest: string, name: string)
    ensures head + ['/'] + rest + ['/'] + name == head + ['/'] + (rest + ['/'] + name)
  {
  }

  /** `os.path.join(arc, name)` has one more part. */
  lemma {:induction false} PartsJoin(arc: string, name: string)
    requires IsName(name)
    ensures Parts(arc + ['/'] + name) == Parts(arc) + [name]
    decreases |arc|, 1
  {
    var n := SlashAt(arc);
    NoSlashBefore(arc);
    if n == |arc| {
      assert arc[..n] == arc;
      LastPart(arc, name);
      PartsOfName(name);
    } else {
      PartsJoinSplit(arc[..n], arc[n + 1..], arc, name);
    }
  }

  lemma {:induction false} PartsJoinSplit(head: string, rest: string, arc: string, name: string)
    requires IsName(name) && '/' !in head && arc == head + ['/'] + rest
    ensures Parts(arc + ['/'] + name) == Parts(arc) + [name]
    decreases |rest|, 2
  {
    PartsJoin(rest, name);
    PartsSplit(head, rest, arc);
    Regroup(head, rest, name);
    PartsSplit(head, rest + ['/'] + name, arc + ['/'] + name);
  }

  lemma {:induction false} NoSlashBefore(s: string)
    ensures '/' !in s[..SlashAt(s)]
  {
    if s != [] && s[0] != '/' {
      NoSlashBefore(s[1..]);
      assert s[..SlashAt(s)] == [s[0]] + s[1..][..SlashAt(s[1..])];
    }
  }

  lemma {:induction false} PartsAreNames(s: string)
    ensures forall q | q in Parts(s) :: q != "" && q != "." && '/' !in q
    decreases |s|
  {
    NoSlashBefore(s);
    var n := SlashAt(s);
    if n < |s| {
      PartsAreNames(s[n + 1..]);
    }
  }

  /** A path that is its own first part has no other. */
  lemma OwnFirstPart(s: string)
    requires Parts(s) != [] && Parts(s)[0] == s && ".." !in Parts(s)
    ensures Parts(s) == [s] && IsName(s)
  {
    PartsAreNames(s);
    assert s in Parts(s);
    PartsOfName(s);
  }

  // ---------------------------------------------------------------- packing

  /** What `tar.add` with the filter `_regular_only` records for one entry and everything below it. */
  function Packed(arc: string, node: Node): seq<Member>
    decreases node
  {
    match node
    case File(data) => [Member(arc, Regular, data)]
    case Dir(children) => [Member(arc, Directory, [])] + PackedAll(arc, children)
    case Other => []
  }

  function PackedAll(arc: string, children: Forest): seq<Member>
    decreases children
  {
    match children
    case Nil => []
    case Cons(name, node, rest) => Packed(arc + ['/'] + name, node) + PackedAll(arc, rest)
  }

  function FileMembers(ms: seq<Member>): nat {
    if ms == [] then 0 else FileMembers(ms[..|ms| - 1]) + if ms[|ms| - 1].kind.Regular? then 1 else 0
  }

  /** The archive being written, and `_pack`'s count of files. */
  class Archive {
    var members: seq<Member>
    var fileCount: nat

    predicate Valid()
      reads this
    {
      fileCount == FileMembers(members)
    }

    constructor ()
      ensures Valid() && members == []
    {
      members, fileCount := [], 0;
    }

    /** The filter: counts files, keeps directories, drops the rest. */
    method RegularOnly(kind: Kind) returns (keep: bool)
      modifies this`fileCount
      ensures keep == !kind.Unsupported? && fileCount == old(fileCount) + if kind.Regular? then 1 else 0
    {
      if kind.Regular? {
        fileCount := fileCount + 1;
      }
      keep := !kind.Unsupported?;
    }

    /** `tar.add`. */
    method Add(arc: string, node: Node)
      requires Valid()
      modifies this
      ensures Valid() && members == old(members) + Packed(arc, node)
      decreases node
    {
      var kind := match node case File(_) => Regular case Dir(_) => Directory case Other => Unsupported;
      var keep := RegularOnly(kind);
      if !keep {
        return;
      }
      ghost var before := members;
      members := members + [Member(arc, kind, if node.File? then node.data else [])];
      assert members[..|members| - 1] == before;
      if node.Dir? {
        AddAll(arc, node.children);
        assert before + [Member(arc, kind, [])] + PackedAll(arc, node.children) == before + Packed(arc, node);
      }
    }

    method AddAll(arc: string, children: Forest)
      requires Valid()
      modifies this
      ensures Valid() && members == old(members) + PackedAll(arc, children)
      decreases children
    {
      if children.Cons? {
        ghost var before := members;
        var below := arc + ['/'] + children.name;
        Add(below, children.node);
        AddAll(arc, children.rest);
        assert before + Packed(below, children.node) + PackedAll(arc, children.rest)
            == before + (Packed(below, children.node) + PackedAll(arc, children.rest));
      }
    }
  }

  /** `_pack`. */
  method Pack(name: string, folder: Node) returns (members: seq<Member>, fileCount: nat)
    ensures members == Packed(name, folder) && fileCount == FileMembers(members)
  {
    var archive := new Archive();
    archive.Add(name, folder);
    members, fileCount := archive.members, archive.fileCount;
    assert [] + Packed(name, folder) == Packed(name, folder);
  }

  // ---------------------------------------------------------------- the tree as paths

  type Path = seq<string>

  /** `LinkEntry` can only be something that was in the destination before. */
  datatype Entry = FileEntry(data: bytes) | DirEntry | LinkEntry(dangling: bool)

  type FileSystem = map<Path, Entry>

  /** The files and directories of a tree, by path. */
  function Flat(at: Path, node: Node): FileSystem
    decreases node
  {
    match node
    case File(data) => map[at := FileEntry(data)]
    case Dir(children) => map[at := DirEntry] + FlatAll(at, children)
    case Other => map[]
  }

  function FlatAll(at: Path, children: Forest): FileSystem
    decreases children
  {
    match children
    case Nil => map[]
    case Cons(name, node, rest) => Flat(at + [name], node) + FlatAll(at, rest)
  }

  predicate NameIn(name: string, children: Forest) { children.Cons? && (children.name == name || NameIn(name, children.rest)) }

  /** What a directory tree on a POSIX file system satisfies. */
  predicate WellNamed(node: Node) { node.Dir? ==> AllWellNamed(node.children) }

  predicate AllWellNamed(children: Forest) {
    children.Cons? ==> && IsName(children.name) && !NameIn(children.name, children.rest)
                       && WellNamed(children.node) && AllWellNamed(children.rest)
  }

  /** No file or directory below has a backslash in its name. */
  predicate NoBackslash(node: Node) { node.Dir? ==> NoBackslashes(node.children) }

  predicate NoBackslashes(children: Forest) {
    children.Cons? ==> && (children.node.Other? || ('\\' !in children.name && NoBackslash(children.node)))
                       && NoBackslashes(children.rest)
  }

  // ---------------------------------------------------------------- the root of an archive

  datatype ArchiveError = EmptyArchive | LinkOrSpecial | UnsafePath | Nameless | NotOneFolder | AlreadyThere | Failed

  predicate Unsafe(name: string) { (name != [] && name[0] == '/') || ".." in Parts(name) || '\\' in name }

  /** One round of the loop in `_archive_root`. */
  function RootOfMember(m: Member): Result<string, ArchiveError> {
    if m.kind.Unsupported? then Err(LinkOrSpecial)
    else if Unsafe(m.name) then Err(UnsafePath)
    else if Parts(m.name) == [] then Err(Nameless)
    else Ok(Parts(m.name)[0])
  }

  function Roots(ms: seq<Member>): Result<set<string>, ArchiveError> {
    if ms == [] then Ok({})
    else
      match Roots(ms[..|ms| - 1])
      case Err(e) => Err(e)
      case Ok(before) => match RootOfMember(ms[|ms| - 1]) case Err(e) => Err(e) case Ok(r) => Ok(before + {r})
  }

  /** Every member sits below `root`, whose own entry comes first. */
  ghost predicate OneFolder(ms: seq<Member>, root: string) {
    && ms != [] && ms[0].kind.Directory? && ms[0].name == root
    && forall m | m in ms :: RootOfMember(m) == Ok(root)
  }

  lemma {:induction false} RootsFacts(ms: seq<Member>)
    ensures Roots(ms).Ok? <==> forall m | m in ms :: RootOfMember(m).Ok?
    ensures Roots(ms).Ok? ==> forall r :: r in Roots(ms).value <==> exists m | m in ms :: RootOfMember(m) == Ok(r)
  {
    if ms != [] {
      RootsFacts(ms[..|ms| - 1]);
      assert ms == ms[..|ms| - 1] + [ms[|ms| - 1]];
    }
  }

  /** What the loop over all of them amounts to, when it runs to the end or stops at the first bad member. */
  lemma {:induction false} RootsStop(ms: seq<Member>, i: nat, e: ArchiveError)
    requires i < |ms| && Roots(ms[..i]).Ok? && RootOfMember(ms[i]) == Err(e)
    ensures Roots(ms) == Err(e)
  {
    var init := ms[..|ms| - 1];
    if i < |ms| - 1 {
      assert init[..i] == ms[..i];
      RootsStop(init, i, e);
    }
  }

  /** `_archive_root`. */
  method ArchiveRoot(ms: seq<Member>) returns (r: Result<string, ArchiveError>)
    ensures r.Ok? ==> OneFolder(ms, r.value)
    ensures r.Err? ==> forall root :: !OneFolder(ms, root)
    ensures ms == [] ==> r == Err(EmptyArchive)
    ensures ms != [] && Roots(ms).Err? ==> r == Err(Roots(ms).error)
    ensures ms != [] && Roots(ms).Ok? && r.Err? ==> r == Err(NotOneFolder)
  {
    if ms == [] {
      return Err(EmptyArchive);
    }
    var roots := {};
    for i := 0 to |ms|
      invariant Roots(ms[..i]) == Ok(roots)
    {
      var root := RootOfMember(ms[i]);
      if root.Err? {
        RootsStop(ms, i, root.error);
        RootsFacts(ms);
        return Err(root.error);
      }
      assert ms[..i + 1][..i] == ms[..i];
      roots := roots + {root.value};
    }
    assert ms[..|ms|] == ms;
    RootsFacts(ms);
    assert ms[0] in ms;
    var root :| root in roots;
    if roots != {root} || !ms[0].kind.Directory? || ms[0].name != root {
      return Err(NotOneFolder);
    }
    r := Ok(root);
  }
}
