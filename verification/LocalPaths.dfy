/** Local paths of a dependency and their precedence: local_path_info.py,
    dependency_info.py and manager.py of the dependency manager. */
module LocalPaths {
  import opened Basics

  type Path = string

  /** A priority group: paths of equal rank, of which the newest file is taken. */
  type Group = seq<Path>

  /** The existing files with their modification times; none has an empty path. */
  type Files = f: map<Path, int> | "" !in f witness map[]

  // ----- the path that is chosen

  function Existing(g: Group, files: Files): (r: Group)
    ensures forall p <- r :: p in files
  {
    if g == [] then [] else (if g[0] in files then [g[0]] else []) + Existing(g[1..], files)
  }

  /** max by modification time, the first of equals. */
  function Newest(g: Group, files: Files): (p: Path)
    requires g != [] && forall q <- g :: q in files
    ensures p in g
  {
    if |g| == 1 then g[0]
    else
      var p := Newest(g[1..], files);
      if files[g[0]] >= files[p] then g[0] else p
  }

  function GroupPath(g: Group, files: Files): Option<Path> {
    if Existing(g, files) == [] then None else Some(Newest(Existing(g, files), files))
  }

  function OrElse<T>(a: Option<T>, b: Option<T>): Option<T> {
    if a.Some? then a else b
  }

  /** The choice of the first group that has a file. */
  function PathOf(groups: seq<Group>, files: Files): Option<Path> {
    if groups == [] then None else OrElse(GroupPath(groups[0], files), PathOf(groups[1..], files))
  }

  // ----- merging

  predicate InSome(path: Path, groups: seq<Group>) {
    exists g <- groups :: path in g
  }

  function Without(g: Group, groups: seq<Group>): Group {
    if g == [] then [] else (if InSome(g[0], groups) then [] else [g[0]]) + Without(g[1..], groups)
  }

  function Joined(own: seq<Group>, g: Group): seq<Group> {
    var kept := Without(g, own);
    if kept == [] then own else own + [kept]
  }

  /** `own` after Update with the groups `more`. */
  function Merged(own: seq<Group>, more: seq<Group>): seq<Group>
    decreases |more|
  {
    if more == [] then own else Merged(Joined(own, more[0]), more[1..])
  }

  // ----- the code of LocalPathInfo

  class LocalPathInfo {
    var groups: seq<Group>

    constructor (groups: seq<Group>)
      ensures this.groups == groups
    {
      this.groups := groups;
    }

    method GetLocalPath(files: Files) returns (path: Option<Path>)
      ensures path == PathOf(groups, files)
    {
      var i := 0;
      while i < |groups|
        invariant 0 <= i <= |groups|
        invariant PathOf(groups[i..], files) == PathOf(groups, files)
      {
        assert groups[i..][0] == groups[i] && groups[i..][1..] == groups[i + 1..];
        var group := Existing(groups[i], files);
        if group != [] {
          return Some(Newest(group, files));
        }
        i := i + 1;
      }
      return None;
    }

    predicate IsPathInLocalPaths(path: Path)
      reads this
    {
      InSome(path, groups)
    }

    method Update(info: LocalPathInfo?)
      modifies this
      ensures groups == if info == null then old(groups) else Merged(old(groups), old(info.groups))
    {
      if info == null {
        return;
      }
      var more := info.groups;
      ghost var own := groups;
      var i := 0;
      while i < |more|
        invariant 0 <= i <= |more|
        invariant Merged(groups, more[i..]) == Merged(own, more)
      {
        assert more[i..][0] == more[i] && more[i..][1..] == more[i + 1..];
        AddGroup(more[i]);
        i := i + 1;
      }
    }

    /** One round of the loop over the other instance's groups. */
    method AddGroup(g: Group)
      modifies this
      ensures groups == Joined(old(groups), g)
    {
      var groupList := [];
      var j := 0;
      while j < |g|
        invariant 0 <= j <= |g| && groups == old(groups)
        invariant groupList + Without(g[j..], groups) == Without(g, groups)
      {
        assert g[j..][0] == g[j] && g[j..][1..] == g[j + 1..];
        KeepOne(groupList, g[j..], groups);
        if !IsPathInLocalPaths(g[j]) {
          groupList := groupList + [g[j]];
        }
        j := j + 1;
      }
      assert g[j..] == [] && groupList + [] == groupList;
      if groupList != [] {
        groups := groups + [groupList];
      }
    }
  }

  lemma KeepOne(kept: Group, g: Group, groups: seq<Group>)
    requires g != []
    ensures kept + Without(g, groups)
         == (if InSome(g[0], groups) then kept else kept + [g[0]]) + Without(g[1..], groups)
  {
    var rest := Without(g[1..], groups);
    assert [] + rest == rest;
    Regroup(kept, [g[0]], rest);
  }

  // ----- what the chosen path is

  /** No file of `g` is newer than `p`, and those before it are older. */
  ghost predicate FirstNewest(g: Group, p: Path, files: Files) {
    exists i :: 0 <= i < |g| && NewestAt(g, i, files) && g[i] == p
  }

  ghost predicate NewestAt(g: Group, i: nat, files: Files)
    requires i < |g|
  {
    g[i] in files && forall j :: 0 <= j < |g| && g[j] in files ==>
      if j < i then files[g[j]] < files[g[i]] else files[g[j]] <= files[g[i]]
  }

  lemma {:induction false} NewestIsFirst(g: Group, files: Files) returns (i: nat)
    requires g != [] && forall q <- g :: q in files
    ensures i < |g| && NewestAt(g, i, files) && g[i] == Newest(g, files)
  {
    if |g| == 1 {
      i := 0;
    } else {
      var k := NewestIsFirst(g[1..], files);
      i := if files[g[0]] >= files[g[1..][k]] then 0 else k + 1;
      forall j | 0 < j < |g| ensures g[j] == g[1..][j - 1] {
      }
    }
  }

  lemma NewestOfExisting(g: Group, files: Files)
    requires Existing(g, files) != []
    ensures FirstNewest(g, Newest(Existing(g, files), files), files)
  {
    var r := Existing(g, files);
    var i := NewestIsFirst(r, files);
    var p := r[i];
    var k := FirstAt(g, p, files);
    forall j | 0 <= j < |g| && g[j] in files
      ensures if j < k then files[g[j]] < files[p] else files[g[j]] <= files[p]
    {
      ExistingOrder(g, j, k, i, files);
    }
    assert NewestAt(g, k, files);
  }

  /** Where `p` stands first. */
  ghost function FirstAt(g: Group, p: Path, files: Files): (k: nat)
    requires p in Existing(g, files)
    ensures k < |g| && g[k] == p && p !in g[..k]
  {
    if g[0] == p then 0 else
      var k := FirstAt(g[1..], p, files);
      assert g[..k + 1] == [g[0]] + g[1..][..k];
      k + 1
  }

  lemma ExistingOrder(g: Group, j: nat, k: nat, i: nat, files: Files)
    requires j < |g| && k < |g| && g[j] in files && g[k] !in g[..k] && i < |Existing(g, files)|
    requires NewestAt(Existing(g, files), i, files) && Existing(g, files)[i] == g[k]
    ensures if j < k then files[g[j]] < files[g[k]] else files[g[j]] <= files[g[k]]
  {
    var a := PlaceInExisting(g, j, files);
    if j < k {
      BeforeInExisting(g, j, k, i, files);
    }
  }

  lemma {:induction false} PlaceInExisting(g: Group, j: nat, files: Files) returns (a: nat)
    requires j < |g| && g[j] in files
    ensures a < |Existing(g, files)| && a <= j && Existing(g, files)[a] == g[j]
  {
    if j == 0 {
      a := 0;
    } else {
      a := PlaceInExisting(g[1..], j - 1, files);
      if g[0] in files {
        a := a + 1;
      }
    }
  }

  /** What stands before the first `g[k]` stands before every place of it. */
  lemma {:induction false} BeforeInExisting(g: Group, j: nat, k: nat, i: nat, files: Files)
    requires j < k < |g| && g[j] in files && g[k] !in g[..k]
    requires i < |Existing(g, files)| && Existing(g, files)[i] == g[k]
    ensures exists a :: 0 <= a < i && Existing(g, files)[a] == g[j]
  {
    var rest := Existing(g[1..], files);
    assert g[0] in g[..k];
    var shift := if g[0] in files then 1 else 0;
    assert Existing(g, files)[i] == rest[i - shift];
    if j == 0 {
      assert Existing(g, files)[0] == g[0];
    } else {
      assert g[..k] == [g[0]] + g[1..][..k - 1];
      BeforeInExisting(g[1..], j - 1, k - 1, i - shift, files);
      var a :| 0 <= a < i - shift && rest[a] == g[1..][j - 1];
      assert Existing(g, files)[a + shift] == g[j];
    }
  }

  /** The choice: the first newest file of the first group that has a file. */
  lemma {:induction false} PathMeaning(groups: seq<Group>, files: Files)
    ensures match PathOf(groups, files)
            case Some(p) => exists i :: 0 <= i < |groups| && NoFiles(groups[..i], files) &&
                                        FirstNewest(groups[i], p, files)
            case None => NoFiles(groups, files)
  {
    if groups != [] {
      var g, rest := groups[0], groups[1..];
      if Existing(g, files) != [] {
        NewestOfExisting(g, files);
        assert NoFiles(groups[..0], files);
      } else {
        NothingExists(g, files);
        PathMeaning(rest, files);
        if PathOf(rest, files).Some? {
          var p := PathOf(rest, files).value;
          var i :| 0 <= i < |rest| && NoFiles(rest[..i], files) && FirstNewest(rest[i], p, files);
          assert groups[..i + 1] == [g] + rest[..i] && groups[i + 1] == rest[i];
          assert NoFiles(groups[..i + 1], files);
        }
      }
    }
  }

  ghost predicate NoFile(g: Group, files: Files) {
    forall p <- g :: p !in files
  }

  ghost predicate NoFiles(groups: seq<Group>, files: Files) {
    forall g <- groups :: NoFile(g, files)
  }

  lemma {:induction false} NothingExists(g: Group, files: Files)
    ensures Existing(g, files) == [] <==> NoFile(g, files)
  {
    if g != [] {
      NothingExists(g[1..], files);
    }
  }

  // ----- merging keeps precedence

  lemma {:induction false} PathOfAppended(groups: seq<Group>, g: Group, files: Files)
    ensures PathOf(groups + [g], files) == OrElse(PathOf(groups, files), GroupPath(g, files))
  {
    if groups == [] {
      assert [g][1..] == [] && groups + [g] == [g];
    } else {
      assert (groups + [g])[0] == groups[0] && (groups + [g])[1..] == groups[1..] + [g];
      PathOfAppended(groups[1..], g, files);
    }
  }

  /** Paths left out of a group because they are listed already have no file, if no listed
      path has one. */
  lemma {:induction false} WithoutKeepsFiles(g: Group, groups: seq<Group>, files: Files)
    requires NoFiles(groups, files)
    ensures Existing(Without(g, groups), files) == Existing(g, files)
  {
    if g != [] {
      var p, rest := g[0], Without(g[1..], groups);
      WithoutKeepsFiles(g[1..], groups, files);
      ExistingFirst(p, rest, files);
      if InSome(p, groups) {
        var h :| h in groups && p in h;
        assert NoFile(h, files);
        assert Without(g, groups) == rest && [] + Existing(rest, files) == Existing(rest, files);
      }
    }
  }

  lemma ExistingFirst(p: Path, rest: Group, files: Files)
    ensures Existing([p] + rest, files) == (if p in files then [p] else []) + Existing(rest, files)
    ensures [] + rest == rest
  {
    assert ([p] + rest)[1..] == rest;
  }

  /** On a fixed file system the merged choice is the receiver's, or else the argument's. */
  lemma {:induction false} MergeKeepsPrecedence(own: seq<Group>, more: seq<Group>, files: Files)
    ensures PathOf(Merged(own, more), files) == OrElse(PathOf(own, files), PathOf(more, files))
    decreases |more|
  {
    if more != [] {
      var kept := Without(more[0], own);
      MergeKeepsPrecedence(Joined(own, more[0]), more[1..], files);
      PathOfAppended(own, kept, files);
      if PathOf(own, files) == None {
        PathMeaning(own, files);
        WithoutKeepsFiles(more[0], own, files);
      }
    }
  }

  lemma {:induction false} WithoutHolds(g: Group, groups: seq<Group>, p: Path)
    ensures p in Without(g, groups) <==> p in g && !InSome(p, groups)
  {
    if g != [] {
      WithoutHolds(g[1..], groups, p);
      assert p in g <==> p == g[0] || p in g[1..];
    }
  }

  /** Groups from position `start` on hold something, and no path of a group before them. */
  ghost predicate NoRepeats(groups: seq<Group>, start: nat) {
    && (forall i :: start <= i < |groups| ==> groups[i] != [])
    && forall i, j :: start <= i < |groups| && 0 <= j < i ==> Disjoint(groups[j], groups[i])
  }

  ghost predicate Disjoint(g: Group, h: Group) {
    forall p <- g :: p !in h
  }

  lemma JoinedHolds(own: seq<Group>, g: Group, p: Path)
    ensures InSome(p, Joined(own, g)) <==> InSome(p, own) || p in g
  {
    var kept := Without(g, own);
    WithoutHolds(g, own, p);
    assert forall h :: h in own + [kept] <==> h in own || h == kept;
  }

  lemma JoinedRepeatsNothing(own: seq<Group>, g: Group, start: nat)
    requires NoRepeats(own, start)
    ensures NoRepeats(Joined(own, g), start)
  {
    var kept := Without(g, own);
    forall j, p | 0 <= j < |own| && p in own[j] ensures p !in kept {
      WithoutHolds(g, own, p);
      assert own[j] in own;
    }
    forall j | 0 <= j < |own| ensures Disjoint(own[j], kept) {
    }
  }

  /** Merging keeps the receiver's groups in front, loses no path of either side and adds
      none that is listed already. */
  lemma {:induction false} MergeAddsTheRest(own: seq<Group>, more: seq<Group>, start: nat, p: Path)
    requires start <= |own| && NoRepeats(own, start)
    ensures own <= Merged(own, more) && NoRepeats(Merged(own, more), start)
    ensures InSome(p, Merged(own, more)) <==> InSome(p, own) || InSome(p, more)
    decreases |more|
  {
    if more != [] {
      JoinedHolds(own, more[0], p);
      JoinedRepeatsNothing(own, more[0], start);
      MergeAddsTheRest(Joined(own, more[0]), more[1..], start, p);
      assert forall h :: h in more <==> h == more[0] || h in more[1..];
    }
  }

  // ----- the information on a dependency

  /** Information on where to download from; not looked into here. */
  type CloudInfo = string

  type Name = string

  /** Dependency and platform. */
  type Key = (Name, Name)

  datatype Info = Info(key: Key, configPaths: seq<Path>, local: Option<seq<Group>>, cloud: Option<CloudInfo>)

  predicate Updatable(a: Info, b: Info) {
    a.key == b.key && !(a.cloud.Some? && b.cloud.Some?)
  }

  function MergedLocal(a: Option<seq<Group>>, b: Option<seq<Group>>): Option<seq<Group>> {
    if a.None? then b else if b.None? then a else Some(Merged(a.value, b.value))
  }

  /** `a` after Update with `b`; when that raises, the configuration paths are there. */
  function Updated(a: Info, b: Info): Info {
    var r := a.(configPaths := a.configPaths + b.configPaths);
    if Updatable(a, b) then r.(local := MergedLocal(a.local, b.local), cloud := OrElse(a.cloud, b.cloud)) else r
  }

  class DependencyInfo {
    const key: Key
    var configPaths: seq<Path>
    var localPathInfo: LocalPathInfo?
    var cloudStorageInfo: Option<CloudInfo>

    /** The source raises ValueError for an empty dependency or platform. */
    constructor (key: Key, configPath: Path, local: LocalPathInfo?, cloud: Option<CloudInfo>)
      requires key.0 != "" && key.1 != ""
      ensures this.key == key && configPaths == [configPath] && localPathInfo == local && cloudStorageInfo == cloud
    {
      this.key := key;
      configPaths := [configPath];
      localPathInfo := local;
      cloudStorageInfo := cloud;
    }

    ghost function View(): Info
      reads this, localPathInfo
    {
      Info(key, configPaths, if localPathInfo == null then None else Some(localPathInfo.groups), cloudStorageInfo)
    }

    method Update(other: DependencyInfo) returns (ok: bool)
      modifies this, localPathInfo
      ensures ok == Updatable(old(View()), old(other.View()))
      ensures View() == Updated(old(View()), old(other.View()))
      ensures localPathInfo == old(if localPathInfo == null && ok then other.localPathInfo else localPathInfo)
    {
      configPaths := configPaths + other.configPaths;
      if key != other.key {
        return false;
      }
      if other.cloudStorageInfo.Some? {
        if cloudStorageInfo.Some? {
          return false;
        }
        cloudStorageInfo := other.cloudStorageInfo;
      }
      if localPathInfo == null {
        localPathInfo := other.localPathInfo;
      } else {
        localPathInfo.Update(other.localPathInfo);
      }
      ok := true;
    }

    method GetLocalPath(files: Files) returns (path: Option<Path>)
      ensures path == PathOfInfo(View(), files)
    {
      if localPathInfo == null {
        return None;
      }
      path := localPathInfo.GetLocalPath(files);
    }
  }

  function PathOfInfo(i: Info, files: Files): Option<Path> {
    if i.local.None? then None else PathOf(i.local.value, files)
  }

  /** The configuration paths are appended in any case; what is known first of a dependency
      stays, and a rejected update changes nothing else. */
  lemma UpdatedMeaning(a: Info, b: Info)
    ensures var r := Updated(a, b);
            && r.key == a.key && r.configPaths == a.configPaths + b.configPaths
            && (a.cloud.Some? ==> r.cloud == a.cloud)
            && (!Updatable(a, b) ==> r.local == a.local && r.cloud == a.cloud)
            && (Updatable(a, b) ==> (a.cloud.None? ==> r.cloud == b.cloud) && (a.local.None? ==> r.local == b.local))
    ensures Updatable(a, b) <==> a.key == b.key && (a.cloud.None? || b.cloud.None?)
  {
  }

  lemma UpdateKeepsPrecedence(a: Info, b: Info, files: Files)
    requires Updatable(a, b)
    ensures PathOfInfo(Updated(a, b), files) == OrElse(PathOfInfo(a, files), PathOfInfo(b, files))
  {
    if a.local.Some? && b.local.Some? {
      MergeKeepsPrecedence(a.local.value, b.local.value, files);
    }
  }
}
