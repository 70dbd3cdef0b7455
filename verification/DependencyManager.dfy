/** The table of dependencies built from a list of configurations, most important first:
    manager.py of the dependency manager. */
module DependencyManager {
  import opened Basics
  import opened LocalPaths

  /** What a configuration gives for one dependency and platform. */
  datatype Entry = Entry(key: Key, configPath: Path, localPaths: seq<Path>, cloud: Option<CloudInfo>)

  datatype Config = Config(configType: string, entries: seq<Entry>)

  const DEFAULT_TYPE: Name := "default"

  function Singletons(paths: seq<Path>): seq<Group> {
    if paths == [] then [] else [[paths[0]]] + Singletons(paths[1..])
  }

  function InfoOf(e: Entry): Info {
    Info(e.key, [e.configPath], if e.localPaths == [] then None else Some(Singletons(e.localPaths)), e.cloud)
  }

  // ----- the table as a value

  type Table = map<Key, Info>

  predicate Named(e: Entry) {
    e.key.0 != "" && e.key.1 != ""
  }

  /** None when building raises. */
  function AddEntry(t: Table, e: Entry): Option<Table> {
    if !Named(e) then None
    else if e.key !in t then Some(t[e.key := InfoOf(e)])
    else if Updatable(t[e.key], InfoOf(e)) then Some(t[e.key := Updated(t[e.key], InfoOf(e))])
    else None
  }

  function AddEntries(t: Table, es: seq<Entry>): Option<Table>
    decreases |es|
  {
    if es == [] then Some(t)
    else
      match AddEntry(t, es[0])
      case None => None
      case Some(u) => AddEntries(u, es[1..])
  }

  predicate Supported(c: Config, supported: seq<string>) {
    supported == [] || c.configType in supported
  }

  function AddConfig(t: Table, c: Config, supported: seq<string>): Option<Table> {
    if Supported(c, supported) then AddEntries(t, c.entries) else None
  }

  function AddConfigs(t: Table, cs: seq<Config>, supported: seq<string>): Option<Table>
    decreases |cs|
  {
    if cs == [] then Some(t)
    else
      match AddConfig(t, cs[0], supported)
      case None => None
      case Some(u) => AddConfigs(u, cs[1..], supported)
  }

  /** The key whose information is used. */
  function Lookup(t: Table, key: Key): Key {
    if key in t then key else (key.0, DEFAULT_TYPE)
  }

  function LocalPathIn(t: Table, key: Key, files: Files): Option<Path> {
    var k := Lookup(t, key);
    if k in t then PathOfInfo(t[k], files) else None
  }

  // ----- the code

  class DependencyManager {
    const supportedConfigs: seq<string>
    var lookupDict: map<Key, DependencyInfo>
    ghost var table: Table
    /** The objects of the table, with the key that each belongs to. */
    ghost var owner: map<object, Key>

    ghost predicate Valid()
      reads this, owner.Keys
    {
      && this !in owner
      && lookupDict.Keys == table.Keys
      && forall k :: k in lookupDict ==> ValidAt(k)
    }

    ghost predicate ValidAt(k: Key)
      requires k in lookupDict && k in table
      reads this, owner.Keys
    {
      var info := lookupDict[k];
      && info in owner && owner[info] == k
      && (info.localPathInfo != null ==> info.localPathInfo in owner && owner[info.localPathInfo] == k)
      && info.View() == table[k] && table[k].key == k
    }

    constructor (supported: seq<string>)
      ensures Valid() && owner == map[] && table == map[] && supportedConfigs == supported
    {
      supportedConfigs := supported;
      lookupDict := map[];
      table := map[];
      owner := map[];
    }

    method Add(e: Entry) returns (ok: bool)
      requires Valid()
      modifies this, owner.Keys
      ensures ok == AddEntry(old(table), e).Some?
      ensures ok ==> Valid() && fresh(owner.Keys - old(owner.Keys)) && table == AddEntry(old(table), e).value
    {
      if !Named(e) {
        return false;
      }
      var local: LocalPathInfo? := null;
      if e.localPaths != [] {
        local := new LocalPathInfo(Singletons(e.localPaths));
      }
      var info := new DependencyInfo(e.key, e.configPath, local, e.cloud);
      if e.key !in lookupDict {
        Insert(info);
        ok := true;
      } else {
        ok := Merge(info);
      }
    }

    method Insert(info: DependencyInfo)
      requires Valid() && info.key !in lookupDict && Parts(info) !! owner.Keys && this !in Parts(info)
      modifies this
      ensures Valid() && table == old(table)[info.key := info.View()]
      ensures owner.Keys == old(owner.Keys) + Parts(info)
    {
      lookupDict := lookupDict[info.key := info];
      table := table[info.key := info.View()];
      owner := WithParts(owner, info);
      forall k | k in lookupDict ensures ValidAt(k) {
        assert k != info.key ==> old(ValidAt(k));
      }
    }

    method Merge(info: DependencyInfo) returns (ok: bool)
      requires Valid() && info.key in lookupDict && Parts(info) !! owner.Keys && this !in Parts(info)
      modifies this, owner.Keys
      ensures ok == Updatable(old(table[info.key]), old(info.View()))
      ensures ok ==> Valid() && table == old(table)[info.key := Updated(old(table[info.key]), old(info.View()))]
      ensures owner.Keys == old(owner.Keys) + old(Parts(info))
    {
      var mine := lookupDict[info.key];
      assert ValidAt(info.key);
      ghost var merged := Updated(table[info.key], info.View());
      ghost var grown := WithParts(owner, info);
      ok := mine.Update(info);
      owner := grown;
      if ok {
        assert mine.View() == merged;
        table := table[info.key := merged];
        forall k | k in lookupDict && k != info.key ensures ValidAt(k) {
          assert old(ValidAt(k)) && lookupDict[k] != mine;
          assert lookupDict[k].View() == old(lookupDict[k].View());
        }
        assert ValidAt(info.key);
      }
    }

    method UpdateDependencies(c: Config) returns (ok: bool)
      requires Valid()
      modifies this, owner.Keys
      ensures ok == AddConfig(old(table), c, supportedConfigs).Some?
      ensures ok ==>
                Valid() && fresh(owner.Keys - old(owner.Keys)) &&
                table == AddConfig(old(table), c, supportedConfigs).value
    {
      if supportedConfigs != [] && c.configType !in supportedConfigs {
        return false;
      }
      var i := 0;
      while i < |c.entries|
        invariant 0 <= i <= |c.entries|
        invariant Valid() && fresh(owner.Keys - old(owner.Keys))
        invariant AddEntries(table, c.entries[i..]) == AddEntries(old(table), c.entries)
      {
        assert c.entries[i..][0] == c.entries[i] && c.entries[i..][1..] == c.entries[i + 1..];
        ok := Add(c.entries[i]);
        if !ok {
          return;
        }
        i := i + 1;
      }
      ok := true;
    }

    /** The rest of the source's constructor. */
    method UpdateAll(configs: seq<Config>) returns (ok: bool)
      requires Valid()
      modifies this, owner.Keys
      ensures ok == AddConfigs(old(table), configs, supportedConfigs).Some?
      ensures ok ==>
                Valid() && fresh(owner.Keys - old(owner.Keys)) &&
                table == AddConfigs(old(table), configs, supportedConfigs).value
    {
      var i := 0;
      while i < |configs|
        invariant 0 <= i <= |configs|
        invariant Valid() && fresh(owner.Keys - old(owner.Keys))
        invariant AddConfigs(table, configs[i..], supportedConfigs) == AddConfigs(old(table), configs, supportedConfigs)
      {
        assert configs[i..][0] == configs[i] && configs[i..][1..] == configs[i + 1..];
        ok := UpdateDependencies(configs[i]);
        if !ok {
          return;
        }
        i := i + 1;
      }
      ok := true;
    }

    method GetDependencyInfo(key: Key) returns (info: DependencyInfo?)
      requires Valid()
      ensures info == if Lookup(table, key) in lookupDict then lookupDict[Lookup(table, key)] else null
    {
      var k := key;
      if k !in lookupDict {
        k := (key.0, DEFAULT_TYPE);
      }
      info := if k in lookupDict then lookupDict[k] else null;
    }

    /** None when the source raises NoPathFoundError. */
    method LocalPath(key: Key, files: Files) returns (path: Option<Path>)
      requires Valid()
      ensures path == LocalPathIn(table, key, files)
    {
      var info := GetDependencyInfo(key);
      if info == null {
        return None;
      }
      path := info.GetLocalPath(files);
      ChosenExists(info.View(), files);
      if path.None? || path.value == "" || path.value !in files {
        return None;
      }
    }
  }

  ghost function Parts(i: DependencyInfo): set<object>
    reads i
  {
    if i.localPathInfo == null then {i} else {i, i.localPathInfo}
  }

  ghost function WithParts(owner: map<object, Key>, i: DependencyInfo): (r: map<object, Key>)
    requires Parts(i) !! owner.Keys
    reads i
    ensures r.Keys == owner.Keys + Parts(i)
  {
    var r := owner[i := i.key];
    if i.localPathInfo == null then r else r[i.localPathInfo := i.key]
  }

  lemma ChosenExists(i: Info, files: Files)
    ensures PathOfInfo(i, files).Some? ==> PathOfInfo(i, files).value in files
  {
    if i.local.Some? {
      PathMeaning(i.local.value, files);
    }
  }

  // ----- what a lookup gives

  function AllEntries(cs: seq<Config>): seq<Entry> {
    if cs == [] then [] else cs[0].entries + AllEntries(cs[1..])
  }

  predicate Configured(es: seq<Entry>, key: Key) {
    exists e <- es :: e.key == key
  }

  /** The choice of the first entry for `key` that has an existing file. */
  function FirstChoice(es: seq<Entry>, key: Key, files: Files): Option<Path> {
    if es == [] then None
    else OrElse(if es[0].key == key then PathOfInfo(InfoOf(es[0]), files) else None, FirstChoice(es[1..], key, files))
  }

  /** All the local paths for `key`, most important first. */
  function PathsFor(es: seq<Entry>, key: Key): seq<Path> {
    if es == [] then [] else (if es[0].key == key then es[0].localPaths else []) + PathsFor(es[1..], key)
  }

  /** `r` is the first of `paths` that is an existing file, None when none is. */
  ghost predicate IsFirstFile(paths: seq<Path>, files: Files, r: Option<Path>) {
    match r
    case Some(p) => exists i :: 0 <= i < |paths| && FileStandsFirst(paths, i, files) && paths[i] == p
    case None => forall p <- paths :: p !in files
  }

  ghost predicate FileStandsFirst(paths: seq<Path>, i: nat, files: Files)
    requires i < |paths|
  {
    paths[i] in files && forall j :: 0 <= j < i ==> paths[j] !in files
  }

  function FirstFile(paths: seq<Path>, files: Files): Option<Path> {
    if paths == [] then None else if paths[0] in files then Some(paths[0]) else FirstFile(paths[1..], files)
  }

  lemma {:induction false} FirstFileIs(paths: seq<Path>, files: Files)
    ensures IsFirstFile(paths, files, FirstFile(paths, files))
  {
    if paths != [] {
      var rest := paths[1..];
      FirstFileIs(rest, files);
      if paths[0] in files {
        assert FileStandsFirst(paths, 0, files);
      } else if FirstFile(rest, files).Some? {
        var i :| 0 <= i < |rest| && FileStandsFirst(rest, i, files) && rest[i] == FirstFile(rest, files).value;
        assert forall j :: 0 < j < |paths| ==> paths[j] == rest[j - 1];
        assert FileStandsFirst(paths, i + 1, files);
      }
    }
  }

  lemma {:induction false} FirstFileOfSum(a: seq<Path>, b: seq<Path>, files: Files)
    ensures FirstFile(a + b, files) == OrElse(FirstFile(a, files), FirstFile(b, files))
  {
    if a == [] {
      assert a + b == b;
    } else {
      FirstOfSum(a, b);
      FirstFileOfSum(a[1..], b, files);
    }
  }

  /** An entry's choice is its first existing file. */
  lemma {:induction false} SingletonsChoose(paths: seq<Path>, files: Files)
    ensures PathOf(Singletons(paths), files) == FirstFile(paths, files)
  {
    if paths != [] {
      var g := [paths[0]];
      SingletonsChoose(paths[1..], files);
      var rest := Singletons(paths[1..]);
      assert g[1..] == [];
      assert ([g] + rest)[1..] == rest;
      assert Existing(g, files) == if paths[0] in files then g else [];
    }
  }

  lemma {:induction false} FirstChoiceIsFirstFile(es: seq<Entry>, key: Key, files: Files)
    ensures FirstChoice(es, key, files) == FirstFile(PathsFor(es, key), files)
  {
    if es != [] {
      var e := es[0];
      FirstChoiceIsFirstFile(es[1..], key, files);
      SingletonsChoose(e.localPaths, files);
      FirstFileOfSum(if e.key == key then e.localPaths else [], PathsFor(es[1..], key), files);
    }
  }

  function ConfigPathsOf(es: seq<Entry>, key: Key): seq<Path> {
    if es == [] then [] else (if es[0].key == key then [es[0].configPath] else []) + ConfigPathsOf(es[1..], key)
  }

  /** How many entries for `key` say where to download from. */
  function Downloads(es: seq<Entry>, key: Key): nat {
    if es == [] then 0 else (if es[0].key == key && es[0].cloud.Some? then 1 else 0) + Downloads(es[1..], key)
  }

  ghost predicate Keyed(t: Table) {
    forall k :: k in t ==> t[k].key == k
  }

  function PathIn(t: Table, k: Key, files: Files): Option<Path> {
    if k in t then PathOfInfo(t[k], files) else None
  }

  function DownloadsIn(t: Table, k: Key): nat {
    if k in t && t[k].cloud.Some? then 1 else 0
  }

  function PathsIn(t: Table, k: Key): seq<Path> {
    if k in t then t[k].configPaths else []
  }

  lemma EntryAdds(t: Table, e: Entry, k: Key, files: Files)
    requires Keyed(t)
    ensures AddEntry(t, e).Some? <==> Named(e) && !(e.cloud.Some? && DownloadsIn(t, e.key) > 0)
    ensures AddEntry(t, e).Some? ==>
      var u := AddEntry(t, e).value;
      && Keyed(u)
      && (k in u <==> k in t || k == e.key)
      && PathIn(u, k, files) == OrElse(PathIn(t, k, files), if e.key == k then PathOfInfo(InfoOf(e), files) else None)
      && DownloadsIn(u, k) == DownloadsIn(t, k) + (if e.key == k && e.cloud.Some? then 1 else 0)
      && PathsIn(u, k) == PathsIn(t, k) + (if e.key == k then [e.configPath] else [])
  {
    if e.key in t && Updatable(t[e.key], InfoOf(e)) {
      UpdateKeepsPrecedence(t[e.key], InfoOf(e), files);
    }
  }

  lemma {:induction false} EntriesAdd(t: Table, es: seq<Entry>, k: Key, files: Files)
    requires Keyed(t) && AddEntries(t, es).Some?
    ensures var u := AddEntries(t, es).value;
      && Keyed(u)
      && (k in u <==> k in t || Configured(es, k))
      && PathIn(u, k, files) == OrElse(PathIn(t, k, files), FirstChoice(es, k, files))
      && PathsIn(u, k) == PathsIn(t, k) + ConfigPathsOf(es, k)
    decreases |es|
  {
    if es != [] {
      EntryAdds(t, es[0], k, files);
      EntriesAdd(AddEntry(t, es[0]).value, es[1..], k, files);
    }
  }

  /** Building raises only for an unnamed entry or a second place to download from. */
  lemma {:induction false} EntriesRaiseIff(t: Table, es: seq<Entry>)
    requires Keyed(t)
    ensures AddEntries(t, es).Some?
       <==> (forall e <- es :: Named(e)) &&
            forall k :: Downloads(es, k) > 0 ==> DownloadsIn(t, k) + Downloads(es, k) <= 1
    decreases |es|
  {
    if es != [] {
      var e := es[0];
      assert forall x :: x in es <==> x == e || x in es[1..];
      EntryAdds(t, e, e.key, map[]);
      if AddEntry(t, e).Some? {
        var u := AddEntry(t, e).value;
        EntriesRaiseIff(u, es[1..]);
        forall k ensures DownloadsIn(u, k) + Downloads(es[1..], k) == DownloadsIn(t, k) + Downloads(es, k) {
          EntryAdds(t, e, k, map[]);
        }
      } else if Named(e) {
        assert DownloadsIn(t, e.key) + Downloads(es, e.key) > 1;
      }
    }
  }

  lemma {:induction false} EntriesInTurn(t: Table, a: seq<Entry>, b: seq<Entry>)
    ensures AddEntries(t, a + b)
         == match AddEntries(t, a) { case None => None case Some(u) => AddEntries(u, b) }
    decreases |a|
  {
    if a == [] {
      assert a + b == b;
    } else {
      assert (a + b)[0] == a[0] && (a + b)[1..] == a[1..] + b;
      if AddEntry(t, a[0]).Some? {
        EntriesInTurn(AddEntry(t, a[0]).value, a[1..], b);
      }
    }
  }

  predicate AllSupported(cs: seq<Config>, supported: seq<string>) {
    forall c <- cs :: Supported(c, supported)
  }

  /** Where one configuration ends and the next begins does not matter. */
  lemma {:induction false} ConfigsAreEntries(t: Table, cs: seq<Config>, supported: seq<string>)
    ensures AddConfigs(t, cs, supported) == if AllSupported(cs, supported) then AddEntries(t, AllEntries(cs)) else None
    decreases |cs|
  {
    if cs != [] {
      assert forall c :: c in cs <==> c == cs[0] || c in cs[1..];
      EntriesInTurn(t, cs[0].entries, AllEntries(cs[1..]));
      if AddConfig(t, cs[0], supported).Some? {
        ConfigsAreEntries(AddConfig(t, cs[0], supported).value, cs[1..], supported);
      }
    }
  }

  /** For any list of configurations that can be built, a lookup gives the first existing
      file among all the paths that the configurations list for the pair, in order; `default`
      counts only when no configuration names the platform. */
  lemma LocalPathIsFirstChoice(cs: seq<Config>, supported: seq<string>, key: Key, files: Files)
    requires AddConfigs(map[], cs, supported).Some?
    ensures var t, es := AddConfigs(map[], cs, supported).value, AllEntries(cs);
            IsFirstFile(PathsFor(es, if Configured(es, key) then key else (key.0, "default")), files,
                        LocalPathIn(t, key, files))
  {
    var es := AllEntries(cs);
    var k := if Configured(es, key) then key else (key.0, DEFAULT_TYPE);
    ConfigsAreEntries(map[], cs, supported);
    EntriesAdd(map[], es, key, files);
    EntriesAdd(map[], es, (key.0, DEFAULT_TYPE), files);
    FirstChoiceIsFirstFile(es, k, files);
    FirstFileIs(PathsFor(es, k), files);
  }

  /** Building succeeds if and only if every configuration is of a supported type, no entry
      is unnamed, and no pair is given two places to download from. */
  lemma BuildsIff(cs: seq<Config>, supported: seq<string>)
    ensures AddConfigs(map[], cs, supported).Some?
       <==> && (supported != [] ==> forall c <- cs :: c.configType in supported)
            && (forall e <- AllEntries(cs) :: e.key.0 != "" && e.key.1 != "")
            && (forall k :: Downloads(AllEntries(cs), k) <= 1)
  {
    ConfigsAreEntries(map[], cs, supported);
    EntriesRaiseIff(map[], AllEntries(cs));
    assert forall k :: DownloadsIn(map[], k) == 0;
  }

  /** The configuration files that an error message names, in order. */
  lemma ConfigPathsAreListed(cs: seq<Config>, supported: seq<string>, key: Key)
    requires AddConfigs(map[], cs, supported).Some? && Configured(AllEntries(cs), key)
    ensures var t := AddConfigs(map[], cs, supported).value;
            key in t && t[key].configPaths == ConfigPathsOf(AllEntries(cs), key)
  {
    ConfigsAreEntries(map[], cs, supported);
    EntriesAdd(map[], AllEntries(cs), key, map[]);
  }
}
