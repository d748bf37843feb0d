/**
 Unpacking an archive: `_extract` of services/folder_service.py, on the
 destination folder seen as a map from paths to entries.
 */
module FolderUnpack {
  import opened Wrappers
  import opened Bytes
  import opened FolderTree

  // ---------------------------------------------------------------- file system calls

  function Parent(p: Path): Path
    requires p != []
  {
    p[..|p| - 1]
  }

  /** `Path.mkdir(parents=True, exist_ok=True)`; the empty path is the destination itself. */
  function MadeDirs(fs: FileSystem, p: Path): Option<FileSystem> {
    if p == [] then Some(fs)
    else
      match MadeDirs(fs, Parent(p))
      case None => None
      case Some(above) => if p !in above then Some(above[p := DirEntry]) else if above[p].DirEntry? then Some(above) else None
  }

  /** The parent's `mkdir`, then `open(p, "xb")` and the copy. */
  function Created(fs: FileSystem, p: Path, data: bytes): Option<FileSystem>
    requires p != []
  {
    match MadeDirs(fs, Parent(p))
    case None => None
    case Some(above) => if p in above then None else Some(above[p := FileEntry(data)])
  }

  /** One member of the extraction loop, below `base`. */
  function UnpackedOne(fs: FileSystem, base: Path, m: Member): Option<FileSystem>
    requires Parts(m.name) != []
  {
    if m.kind.Directory? then MadeDirs(fs, base + Parts(m.name)) else Created(fs, base + Parts(m.name), m.data)
  }

  /** No member's name is empty once taken apart. */
  predicate Named(ms: seq<Member>) { forall m | m in ms :: Parts(m.name) != [] }

  function Unpacked(fs: FileSystem, base: Path, ms: seq<Member>): Option<FileSystem>
    requires Named(ms)
  {
    if ms == [] then Some(fs)
    else match Unpacked(fs, base, ms[..|ms| - 1]) case None => None case Some(before) => UnpackedOne(before, base, ms[|ms| - 1])
  }

  /** The folder an archive describes, by paths relative to where it is unpacked. */
  function Content(ms: seq<Member>): Option<FileSystem>
    requires Named(ms)
  {
    Unpacked(map[], [], ms)
  }

  // ---------------------------------------------------------------- looking below one directory

  /** What lies below the top-level directory `top`, by relative paths. */
  function Under(fs: FileSystem, top: string): FileSystem {
    var keys := set p | p in fs && |p| > 1 && p[0] == top :: p[1..];
    map q | q in keys && [top] + q in fs :: fs[[top] + q]
  }

  lemma UnderFacts(fs: FileSystem, top: string)
    ensures forall q :: q in Under(fs, top) <==> q != [] && [top] + q in fs
    ensures forall q | q in Under(fs, top) :: Under(fs, top)[q] == fs[[top] + q]
  {
    forall q | q != [] && [top] + q in fs
      ensures q in Under(fs, top)
    {
      var p := [top] + q;
      assert p[1..] == q;
    }
    forall p | p in fs && |p| > 1 && p[0] == top
      ensures [top] + p[1..] == p
    {
    }
  }

  lemma UnderAt(fs: FileSystem, top: string, q: Path)
    requires q != []
    ensures q in Under(fs, top) <==> [top] + q in fs
    ensures q in Under(fs, top) ==> Under(fs, top)[q] == fs[[top] + q]
  {
    UnderFacts(fs, top);
  }

  lemma UnderUpdate(fs: FileSystem, top: string, q: Path, e: Entry)
    requires q != []
    ensures Under(fs[[top] + q := e], top) == Under(fs, top)[q := e]
  {
    UnderFacts(fs, top);
    UnderFacts(fs[[top] + q := e], top);
    assert forall q' :: [top] + q' == [top] + q <==> q' == q by {
      assert forall q' :: ([top] + q')[1..] == q';
    }
  }

  /** Nothing outside `top` differs. */
  ghost predicate SameOutside(a: FileSystem, b: FileSystem, top: string) {
    forall p | p == [] || p[0] != top :: (p in a <==> p in b) && (p in a ==> a[p] == b[p])
  }

  /** Making directories below `top` is making them in what lies below it. */
  lemma {:induction false} MadeDirsUnder(fs: FileSystem, top: string, q: Path, r: Option<FileSystem>)
    requires [top] in fs && fs[[top]].DirEntry? && r == MadeDirs(fs, [top] + q)
    ensures r.Some? <==> MadeDirs(Under(fs, top), q).Some?
    ensures r.Some? ==> && MadeDirs(Under(fs, top), q) == Some(Under(r.value, top)) && SameOutside(fs, r.value, top)
                        && [top] in r.value && r.value[[top]].DirEntry?
    decreases |q|
  {
    var p := [top] + q;
    if q == [] {
      assert p == [top] && Parent(p) == [] && MadeDirs(fs, Parent(p)) == Some(fs);
    } else {
      assert Parent(p) == [top] + Parent(q);
      var above := MadeDirs(fs, Parent(p));
      MadeDirsUnder(fs, top, Parent(q), above);
      if above.Some? {
        UnderFacts(above.value, top);
        UnderUpdate(above.value, top, q, DirEntry);
      }
    }
  }

  lemma {:induction false} UnpackedUnder(fs: FileSystem, top: string, ms: seq<Member>, r: Option<FileSystem>)
    requires Named(ms)
    requires [top] in fs && fs[[top]].DirEntry? && r == Unpacked(fs, [top], ms)
    ensures r.Some? <==> Unpacked(Under(fs, top), [], ms).Some?
    ensures r.Some? ==> && Unpacked(Under(fs, top), [], ms) == Some(Under(r.value, top)) && SameOutside(fs, r.value, top)
                        && [top] in r.value && r.value[[top]].DirEntry?
    decreases |ms|
  {
    if ms != [] {
      var before := Unpacked(fs, [top], ms[..|ms| - 1]);
      UnpackedUnder(fs, top, ms[..|ms| - 1], before);
      if before.Some? {
        UnpackedOneUnder(before.value, top, ms[|ms| - 1], r);
      }
    }
  }

  lemma UnpackedOneUnder(fs: FileSystem, top: string, m: Member, r: Option<FileSystem>)
    requires Parts(m.name) != [] && [top] in fs && fs[[top]].DirEntry? && r == UnpackedOne(fs, [top], m)
    ensures r.Some? <==> UnpackedOne(Under(fs, top), [], m).Some?
    ensures r.Some? ==> && UnpackedOne(Under(fs, top), [], m) == Some(Under(r.value, top)) && SameOutside(fs, r.value, top)
                        && [top] in r.value && r.value[[top]].DirEntry?
  {
    var q := Parts(m.name);
    assert [] + q == q;
    if m.kind.Directory? {
      MadeDirsUnder(fs, top, q, r);
    } else {
      var p := [top] + q;
      assert Parent(p) == [top] + Parent(q);
      var above := MadeDirs(fs, Parent(p));
      MadeDirsUnder(fs, top, Parent(q), above);
      if above.Some? {
        UnderFacts(above.value, top);
        UnderUpdate(above.value, top, q, FileEntry(m.data));
      }
    }
  }

  // ---------------------------------------------------------------- well-formed file systems

  /** The entry at `p` sits in a directory. */
  predicate Sits(fs: FileSystem, p: Path) { p != [] && (|p| > 1 ==> Parent(p) in fs && fs[Parent(p)].DirEntry?) }

  ghost predicate Rooted(fs: FileSystem) { [] !in fs && forall p {:trigger Sits(fs, p)} :: p in fs ==> Sits(fs, p) }

  /** Nothing is called that, or lies below it. */
  ghost predicate Unused(fs: FileSystem, top: string) { forall p | p in fs :: p == [] || p[0] != top }

  lemma {:induction false} TopOf(fs: FileSystem, p: Path)
    requires Rooted(fs) && p in fs
    ensures p != [] && p[..1] in fs
    decreases |p|
  {
    assert Sits(fs, p);
    if |p| > 1 {
      TopOf(fs, Parent(p));
      assert Parent(p)[..1] == p[..1];
    } else {
      assert p[..1] == p;
    }
  }

  lemma RootedUpdate(fs: FileSystem, p: Path, e: Entry)
    requires Rooted(fs) && p !in fs && Sits(fs, p)
    ensures Rooted(fs[p := e])
  {
    var after := fs[p := e];
    forall q: Path | q in after
      ensures Sits(after, q)
    {
      assert q != p ==> Sits(fs, q);
    }
  }

  /** Nothing is lost or altered, and what is new lies at or below `at`. */
  ghost predicate AddsBelow(a: FileSystem, b: FileSystem, at: Path) {
    && (forall p | p in a :: p in b && b[p] == a[p])
    && (forall p | p in b :: p in a || at <= p)
  }

  /** The same, with what is new on the way to `to`. */
  ghost predicate AddsToward(a: FileSystem, b: FileSystem, to: Path) {
    && (forall p | p in a :: p in b && b[p] == a[p])
    && (forall p | p in b :: p in a || (p != [] && p <= to))
  }

  lemma SharedPrefix(p: Path, at: Path, to: Path)
    requires p <= to && at <= to && |p| <= |at|
    ensures p == at[..|p|]
  {
  }

  lemma TowardIsBelow(a: FileSystem, b: FileSystem, at: Path, to: Path)
    requires AddsToward(a, b, to) && at <= to && forall n | 0 < n < |at| :: at[..n] in a
    ensures AddsBelow(a, b, at)
  {
    forall p | p in b && p !in a
      ensures at <= p
    {
      if |p| < |at| {
        SharedPrefix(p, at, to);
      }
    }
  }

  // ---------------------------------------------------------------- the destination folder

  /**
   The destination and what happens to the system calls on it: the nth call
   fails when `fails(n)`; a copy that fails leaves `cut(n)` bytes; a removal
   that fails leaves the paths that satisfy `survives`.
   */
  class Disk {
    var entries: FileSystem
    var calls: nat
    const fails: nat -> bool
    const cut: nat -> nat
    const survives: Path -> bool

    ghost predicate Valid()
      reads this
    {
      Rooted(entries)
    }

    ghost predicate Faultless() { forall n :: !fails(n) }

    constructor (entries: FileSystem, fails: nat -> bool, cut: nat -> nat, survives: Path -> bool)
      requires Rooted(entries)
      ensures Valid() && this.entries == entries && this.fails == fails && this.cut == cut && this.survives == survives
    {
      this.entries, this.calls, this.fails, this.cut, this.survives := entries, 0, fails, cut, survives;
    }

    method Call() returns (ok: bool)
      modifies this`calls
      ensures Faultless() ==> ok
    {
      ok := !fails(calls);
      calls := calls + 1;
    }

    /** `mkdir` with parents. */
    method MakeDirs(p: Path) returns (ok: bool)
      requires Valid()
      modifies this`entries, this`calls
      ensures Valid() && AddsToward(old(entries), entries, p)
      ensures ok ==> MadeDirs(old(entries), p) == Some(entries)
      ensures ok && p != [] ==> p in entries && entries[p].DirEntry?
      ensures !ok && Faultless() ==> MadeDirs(old(entries), p).None?
      decreases |p|
    {
      if p == [] {
        return true;
      }
      ok := MakeDirs(Parent(p));
      if !ok {
        return;
      }
      if p in entries {
        ok := entries[p].DirEntry?;
        return;
      }
      ok := Call();
      if ok {
        RootedUpdate(entries, p, DirEntry);
        entries := entries[p := DirEntry];
      }
    }

    /** The file's folder, then the file itself, which must be new. */
    method CreateFile(p: Path, data: bytes) returns (ok: bool)
      requires Valid() && p != []
      modifies this`entries, this`calls
      ensures Valid() && AddsToward(old(entries), entries, p)
      ensures ok ==> Created(old(entries), p, data) == Some(entries)
      ensures !ok && Faultless() ==> Created(old(entries), p, data).None?
    {
      ok := MakeDirs(Parent(p));
      if !ok || p in entries {
        return false;
      }
      ok := Call();
      if !ok {
        return;
      }
      var copied := Call();
      var n := if copied || cut(calls) > |data| then |data| else cut(calls);
      RootedUpdate(entries, p, FileEntry(data[..n]));
      entries := entries[p := FileEntry(data[..n])];
      ok := copied;
      assert copied ==> data[..n] == data;
    }

    /** One member of the loop in `_extract`: all writes stay below staging/root. */
    method UnpackMember(staging: string, root: string, m: Member) returns (ok: bool)
      requires Valid() && RootOfMember(m) == Ok(root) && [staging] in entries
      modifies this`entries, this`calls
      ensures Valid() && AddsBelow(old(entries), entries, [staging, root])
      ensures ok ==> UnpackedOne(old(entries), [staging], m) == Some(entries)
      ensures !ok && Faultless() ==> UnpackedOne(old(entries), [staging], m).None?
    {
      ghost var before := entries;
      var path := [staging] + Parts(m.name);
      assert path[..1] == [staging] && [staging, root] == path[..2] && [staging, root][..1] == [staging];
      if m.kind.Directory? {
        ok := MakeDirs(path);
      } else {
        ok := CreateFile(path, m.data);
      }
      TowardIsBelow(before, entries, [staging, root], path);
    }

    /** `rename` of a directory; the case of an empty directory in the way does not come up. */
    method Rename(from: Path, to: Path) returns (ok: bool)
      modifies this`entries, this`calls
      ensures ok ==> from in old(entries) && to !in old(entries) && entries == Moved(old(entries), from, to)
      ensures !ok ==> entries == old(entries)
      ensures !ok && Faultless() ==> from !in old(entries) || to in old(entries)
    {
      ok := Call();
      if ok {
        ok := from in entries && to !in entries;
        if ok {
          entries := Moved(entries, from, to);
        }
      }
    }

    /** `shutil.rmtree(staging, ignore_errors=True)`. */
    method RemoveTree(top: string)
      modifies this`entries, this`calls
      ensures SameOutside(old(entries), entries, top)
      ensures Faultless() || (forall p :: !survives(p)) ==> entries == Without(old(entries), top)
    {
      var ok := Call();
      entries := map p | p in entries && (p == [] || p[0] != top || (!ok && survives(p))) :: entries[p];
    }

    method UnpackMembers(staging: string, root: string, ms: seq<Member>) returns (ok: bool)
      requires Valid() && [staging] in entries && Named(ms) && forall m | m in ms :: RootOfMember(m) == Ok(root)
      modifies this`entries, this`calls
      ensures Valid() && AddsBelow(old(entries), entries, [staging, root])
      ensures ok ==> Unpacked(old(entries), [staging], ms) == Some(entries)
      ensures !ok && Faultless() ==> Unpacked(old(entries), [staging], ms).None?
    {
      ghost var start := entries;
      for i := 0 to |ms|
        invariant Valid() && AddsBelow(start, entries, [staging, root])
        invariant Unpacked(start, [staging], ms[..i]) == Some(entries)
      {
        ghost var upTo := ms[..i + 1];
        assert upTo[..i] == ms[..i] && upTo[i] == ms[i];
        ok := UnpackMember(staging, root, ms[i]);
        if !ok {
          if Faultless() {
            assert Unpacked(start, [staging], upTo).None?;
            UnpackedStops(start, [staging], ms, i + 1);
          }
          return;
        }
      }
      assert ms[..|ms|] == ms;
      ok := true;
    }
  }

  lemma {:induction false} UnpackedStops(fs: FileSystem, base: Path, ms: seq<Member>, i: nat)
    requires i <= |ms| && Named(ms) && Unpacked(fs, base, ms[..i]).None?
    ensures Unpacked(fs, base, ms).None?
    decreases |ms|
  {
    if i == |ms| {
      assert ms[..i] == ms;
    } else {
      assert ms[..|ms| - 1][..i] == ms[..i];
      UnpackedStops(fs, base, ms[..|ms| - 1], i);
    }
  }

  // ---------------------------------------------------------------- rename and clean-up

  /** The file system with the directory `from` and all below it moved to `to`. */
  function Moved(fs: FileSystem, from: Path, to: Path): FileSystem {
    var keys := set p | p in fs && from <= p :: to + p[|from|..];
    (map p | p in fs && !(from <= p) :: fs[p])
    + map q | q in keys && |to| <= |q| && from + q[|to|..] in fs :: fs[from + q[|to|..]]
  }

  lemma MovedFacts(fs: FileSystem, from: Path, to: Path, p: Path)
    ensures var below := to <= p && from + p[|to|..] in fs;
            && (p in Moved(fs, from, to) <==> below || (p in fs && !(from <= p)))
            && (p in Moved(fs, from, to) ==> Moved(fs, from, to)[p] == if below then fs[from + p[|to|..]] else fs[p])
  {
    var keys := set p | p in fs && from <= p :: to + p[|from|..];
    if to <= p && from + p[|to|..] in fs {
      var was := from + p[|to|..];
      assert was[|from|..] == p[|to|..] && to + p[|to|..] == p;
      assert p in keys;
    }
    if p in keys {
      var was :| was in fs && from <= was && p == to + was[|from|..];
      assert p[|to|..] == was[|from|..] && from + was[|from|..] == was;
    }
  }

  /** What is left once `top` is removed. */
  function Without(fs: FileSystem, top: string): FileSystem { map p | p in fs && (p == [] || p[0] != top) :: fs[p] }

  lemma {:induction false} ContentIsFolder(ms: seq<Member>, root: string, fs: FileSystem)
    requires Named(ms) && (forall m | m in ms :: RootOfMember(m) == Ok(root)) && Unpacked(map[], [], ms) == Some(fs)
    ensures forall p | p in fs :: p != [] && p[0] == root
    decreases |ms|
  {
    if ms != [] {
      var init, m := ms[..|ms| - 1], ms[|ms| - 1];
      assert m in ms;
      var before := Unpacked(map[], [], init).value;
      ContentIsFolder(init, root, before);
      OneAdds(before, m, fs);
      forall p | p in fs && p !in before
        ensures p != [] && p[0] == root
      {
        assert p[0] == Parts(m.name)[0];
      }
    }
  }

  lemma OneAdds(fs: FileSystem, m: Member, after: FileSystem)
    requires Parts(m.name) != [] && UnpackedOne(fs, [], m) == Some(after)
    ensures AddsToward(fs, after, Parts(m.name))
  {
    var p := Parts(m.name);
    assert [] + p == p;
    if m.kind.Directory? {
      StaysToward(fs, p);
    } else {
      StaysToward(fs, Parent(p));
      TowardParent(fs, MadeDirs(fs, Parent(p)).value, p);
    }
  }

  lemma TowardParent(a: FileSystem, b: FileSystem, p: Path)
    requires p != [] && AddsToward(a, b, Parent(p))
    ensures AddsToward(a, b, p)
  {
    forall q | q in b && q !in a
      ensures q <= p
    {
      PrefixOfParent(q, p);
    }
  }

  lemma PrefixOfParent(q: Path, p: Path)
    requires p != [] && q <= Parent(p)
    ensures q <= p
  {
  }

  lemma {:induction false} StaysToward(fs: FileSystem, p: Path)
    ensures MadeDirs(fs, p).Some? ==> AddsToward(fs, MadeDirs(fs, p).value, p)
    decreases |p|
  {
    if p != [] {
      StaysToward(fs, Parent(p));
    }
  }

  /** Two file systems agree on one path. */
  ghost predicate Agree(a: FileSystem, b: FileSystem, p: Path) { (p in a <==> p in b) && (p in a ==> a[p] == b[p]) }

  /** After the rename and the clean-up, the destination holds what it did and the folder. */
  lemma FolderArrives(before: FileSystem, fs: FileSystem, staging: string, root: string, content: FileSystem, after: FileSystem)
    requires Rooted(before) && Unused(before, staging) && [root] !in before && staging != root
    requires SameOutside(before, fs, staging) && Under(fs, staging) == content
    requires forall p | p in content :: p != [] && p[0] == root
    requires after == Without(Moved(fs, [staging, root], [root]), staging)
    ensures after == before + content
  {
    forall p
      ensures Agree(after, before + content, p)
    {
      if p == [] {
        MovedFacts(fs, [staging, root], [root], p);
      } else if p[0] != staging {
        FolderArrivesAt(before, fs, staging, root, content, p);
      }
    }
    SameMap(after, before + content);
  }

  lemma SameMap(a: FileSystem, b: FileSystem)
    requires forall p :: Agree(a, b, p)
    ensures a == b
  {
    assert forall p | p in a :: Agree(a, b, p);
    assert forall p | p in b :: Agree(a, b, p);
  }

  lemma FolderArrivesAt(before: FileSystem, fs: FileSystem, staging: string, root: string, content: FileSystem, p: Path)
    requires Rooted(before) && [root] !in before && staging != root && p != [] && p[0] != staging
    requires SameOutside(before, fs, staging) && Under(fs, staging) == content
    requires forall p | p in content :: p != [] && p[0] == root
    ensures Agree(Moved(fs, [staging, root], [root]), before + content, p)
  {
    UnderAt(fs, staging, p);
    if p in before {
      TopOf(before, p);
      assert p[..1] == [p[0]];
    }
    ArrivesAt(before, fs, staging, root, content, Moved(fs, [staging, root], [root]), p);
  }

  lemma ArrivesAt(before: FileSystem, fs: FileSystem, staging: string, root: string, content: FileSystem, moved: FileSystem, p: Path)
    requires p != [] && p[0] != staging && moved == Moved(fs, [staging, root], [root])
    requires p[0] != root ==> Agree(before, fs, p) && p !in content
    requires p[0] == root ==> p !in before && p !in fs
    requires p in content <==> [staging] + p in fs
    requires p in content ==> content[p] == fs[[staging] + p]
    ensures Agree(moved, before + content, p)
  {
    MovedFacts(fs, [staging, root], [root], p);
    if p[0] == root {
      assert p[..1] == [root];
      assert [staging, root] + p[1..] == [staging] + p;
    }
  }

  lemma StillRooted(before: FileSystem, fs: FileSystem, staging: string, root: string, content: FileSystem)
    requires Rooted(before) && Rooted(fs) && Under(fs, staging) == content
    requires forall p | p in content :: p != [] && p[0] == root
    requires forall p | p in before :: p !in content
    ensures Rooted(before + content)
  {
    forall p | p in before + content
      ensures Sits(before + content, p)
    {
      if p in content {
        UnderAt(fs, staging, p);
        assert Sits(fs, [staging] + p);
        if |p| > 1 {
          assert Parent([staging] + p) == [staging] + Parent(p);
          UnderAt(fs, staging, Parent(p));
        }
      } else {
        assert Sits(before, p);
        assert |p| > 1 ==> Parent(p) !in content;
      }
    }
  }

  /** The folder's own entry is in its content. */
  lemma {:induction false} RootIsThere(ms: seq<Member>, root: string, fs: FileSystem)
    requires Named(ms) && OneFolder(ms, root) && Unpacked(map[], [], ms) == Some(fs)
    ensures [root] in fs && fs[[root]].DirEntry?
    decreases |ms|
  {
    var init, m := ms[..|ms| - 1], ms[|ms| - 1];
    assert m in ms && [] + Parts(m.name) == Parts(m.name);
    if |ms| == 1 {
      assert Unpacked(map[], [], init) == Some(map[]);
      OwnFirstPart(root);
      assert MadeDirs(map[], Parent([root])) == Some(map[]);
    } else {
      var before := Unpacked(map[], [], init).value;
      RootIsThere(init, root, before);
      OneAdds(before, m, fs);
    }
  }

  // ---------------------------------------------------------------- the whole extraction

  /** Staging directory made, members unpacked, folder renamed: everything before the clean-up. */
  method Stage(disk: Disk, ms: seq<Member>, staging: string, root: string) returns (ok: bool)
    requires disk.Valid() && Named(ms) && OneFolder(ms, root)
    requires Unused(disk.entries, staging)
    modifies disk`entries, disk`calls
    ensures !ok ==> SameOutside(old(disk.entries), disk.entries, staging)
    ensures ok ==> && Content(ms).Some? && staging != root && [root] !in old(disk.entries)
                   && Without(disk.entries, staging) == old(disk.entries) + Content(ms).value
                   && Rooted(old(disk.entries) + Content(ms).value)
    ensures !ok && disk.Faultless() ==> Content(ms).None? || staging == root || [root] in old(disk.entries)
  {
    ok := disk.Call();
    if !ok {
      return;
    }
    ghost var before := disk.entries;
    ghost var start := before[[staging] := DirEntry];
    assert [staging] !in before;
    RootedUpdate(before, [staging], DirEntry);
    disk.entries := disk.entries[[staging] := DirEntry];
    UnderFacts(start, staging);
    assert Under(start, staging) == map[];
    ok := disk.UnpackMembers(staging, root, ms);
    UnpackedUnder(start, staging, ms, Unpacked(start, [staging], ms));
    if !ok {
      BelowIsInside(start, disk.entries, [staging, root]);
      return;
    }
    ghost var full := disk.entries;
    ok := disk.Rename([staging, root], [root]);
    Renamed(before, full, ms, staging, root);
    if !ok {
      UnpackedUnder(start, staging, ms, Some(full));
    }
  }

  /** What the rename finds, and what it leaves. */
  lemma Renamed(before: FileSystem, full: FileSystem, ms: seq<Member>, staging: string, root: string)
    requires Rooted(before) && Rooted(full) && Named(ms) && OneFolder(ms, root)
    requires Unused(before, staging) && SameOutside(before, full, staging)
    requires [staging] in full && Content(ms) == Some(Under(full, staging))
    ensures [staging, root] in full
    ensures [root] in full <==> [root] in before || staging == root
    ensures [root] !in full ==> && Without(Moved(full, [staging, root], [root]), staging) == before + Content(ms).value
                                && Rooted(before + Content(ms).value)
  {
    var content := Content(ms).value;
    ContentIsFolder(ms, root, content);
    RootIsThere(ms, root, content);
    UnderFacts(full, staging);
    assert [staging] + [root] == [staging, root];
    if [root] !in full {
      FolderArrives(before, full, staging, root, content, Without(Moved(full, [staging, root], [root]), staging));
      forall p | p in before
        ensures p !in content
      {
        TopOf(before, p);
        assert p[..1] != [root];
        assert p[..1] == [p[0]];
      }
      StillRooted(before, full, staging, root, content);
    }
  }

  lemma BelowIsInside(a: FileSystem, b: FileSystem, at: Path)
    requires |at| == 2 && AddsBelow(a, b, at)
    ensures SameOutside(a, b, at[0])
  {
  }

  /**
   `_extract`.  `staging` is the unused name that mkdtemp picks.  Outside the
   staging directory the destination is left as it was, or gains exactly the
   folder that the archive describes.
   */
  method Extract(disk: Disk, ms: seq<Member>, staging: string) returns (r: Result<string, ArchiveError>)
    requires disk.Valid() && Unused(disk.entries, staging)
    modifies disk`entries, disk`calls
    ensures r.Ok? ==>
              && OneFolder(ms, r.value) && [r.value] !in old(disk.entries) && Named(ms) && Content(ms).Some?
              && SameOutside(old(disk.entries) + Content(ms).value, disk.entries, staging)
    ensures r.Err? ==> SameOutside(old(disk.entries), disk.entries, staging)
    ensures disk.Faultless() || (forall p :: !disk.survives(p)) ==>
              && disk.Valid()
              && disk.entries == if r.Ok? then old(disk.entries) + Content(ms).value else old(disk.entries)
    ensures disk.Faultless() ==>
              forall root | OneFolder(ms, root) && Named(ms) ::
                r == Ok(root) <==> [root] !in old(disk.entries) && Content(ms).Some? && staging != root
    ensures r.Ok? ==> staging != r.value
    // an existing name is refused before anything is written
    ensures forall root | OneFolder(ms, root) ::
              (r == Err(AlreadyThere) <==> [root] in old(disk.entries) && old(disk.entries)[[root]] != LinkEntry(true))
    ensures r.Err? && r.error != Failed ==> disk.entries == old(disk.entries)
    ensures r.Err? && r.error != Failed && r.error != AlreadyThere ==> forall root :: !OneFolder(ms, root)
  {
    var named := ArchiveRoot(ms);
    if named.Err? {
      return named;
    }
    var root := named.value;
    assert ms[0] in ms;
    assert forall other | OneFolder(ms, other) :: other == root;
    if [root] in disk.entries && disk.entries[[root]] != LinkEntry(true) {
      return Err(AlreadyThere);
    }
    ghost var before := disk.entries;
    var ok := Stage(disk, ms, staging, root);
    ghost var staged := disk.entries;
    disk.RemoveTree(staging);
    assert !ok ==> Without(staged, staging) == before;
    r := if ok then Ok(root) else Err(Failed);
  }
}
