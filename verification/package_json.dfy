/**
 The scaffolder's in-memory `package.json` editor
 (packages/create/src/Package.js): the defaults `read` fills in, the
 guarded field, script and dependency edits, the normalisation `save`
 applies before writing, and how the package manager is chosen.

 The manifest is an ordered JSON object. The file system enters as
 parameters: the parsed file (or its absence) and which lock files exist.
 The npm user agent is a parameter as well, and so is the scaffolder's
 own version.
 */
module PackageJson {

  import opened Wrappers
  import opened Strings
  import opened OrderedMap
  import opened Json
  import KeyOrder
  import Seqs

  /** The manifest object, members in insertion order. */
  type Pkg = Entries<Json>

  const ScriptsKey: string := "scripts"
  const DependenciesKey: string := "dependencies"
  const DevDependenciesKey: string := "devDependencies"

  /** The manifest `read` starts from when there is no `package.json`. */
  const Skeleton: Pkg :=
    [("name", JStr("")), ("description", JStr("")), ("version", JStr("0.0.0")), ("type", JStr("module"))]

  /** `undefined` or `null`: the values `??` replaces. */
  predicate Nullish(v: Option<Json>)
  {
    v.None? || v == Some(JNull)
  }

  /** A plain object with distinct keys. */
  predicate IsObject(v: Option<Json>)
  {
    v.Some? && v.value.JObj? && UniqueKeys(v.value.members)
  }

  /** A value `read` leaves usable as a section: absent, `null` or an object. */
  predicate Usable(v: Option<Json>)
  {
    Nullish(v) || IsObject(v)
  }

  /** The manifest the editing methods rely on: its three sections are objects. */
  predicate Shaped(pkg: Pkg)
  {
    UniqueKeys(pkg)
    && IsObject(Get(pkg, ScriptsKey))
    && IsObject(Get(pkg, DependenciesKey))
    && IsObject(Get(pkg, DevDependenciesKey))
  }

  /** `pkg[key] = pkg[key] ?? {}` turned `before` into `after` at `key`. */
  predicate Defaulted(before: Pkg, after: Pkg, key: string)
  {
    Get(after, key) == if Nullish(Get(before, key)) then Some(JObj([])) else Get(before, key)
  }

  // ---------------------------------------------------------------------------
  // read
  // ---------------------------------------------------------------------------

  /** One `??= {}` step of `read`. */
  function OrEmpty(pkg: Pkg, key: string): (r: Pkg)
    requires UniqueKeys(pkg)
    ensures UniqueKeys(r)
    ensures Defaulted(pkg, r, key)
    ensures forall k :: k != key ==> Get(r, k) == Get(pkg, k)
    ensures Keys(r) == if HasKey(pkg, key) then Keys(pkg) else Keys(pkg) + [key]
  {
    if Nullish(Get(pkg, key)) then Put(pkg, key, JObj([])) else pkg
  }

  /**
   `read()`: the parsed file, or the skeleton when there is none, with a
   missing or `null` `scripts`, `dependencies` and `devDependencies` each
   replaced by an empty object. Every other member is kept as it was. The
   result is fit for editing exactly when each section was absent, `null`
   or an object.
   */
  function Read(file: Option<Pkg>): (r: Pkg)
    requires file.Some? ==> UniqueKeys(file.value)
    ensures UniqueKeys(r)
    ensures Defaulted(file.GetOr(Skeleton), r, ScriptsKey)
    ensures Defaulted(file.GetOr(Skeleton), r, DependenciesKey)
    ensures Defaulted(file.GetOr(Skeleton), r, DevDependenciesKey)
    ensures forall k :: k != ScriptsKey && k != DependenciesKey && k != DevDependenciesKey ==>
              Get(r, k) == Get(file.GetOr(Skeleton), k)
    ensures Shaped(r) <==> Usable(Get(file.GetOr(Skeleton), ScriptsKey))
                           && Usable(Get(file.GetOr(Skeleton), DependenciesKey))
                           && Usable(Get(file.GetOr(Skeleton), DevDependenciesKey))
  {
    SkeletonFacts();
    ReadSections(file.GetOr(Skeleton))
  }

  /** The three `??= {}` steps of `read`, in order. */
  function ReadSections(src: Pkg): (r: Pkg)
    requires UniqueKeys(src)
    ensures UniqueKeys(r)
    ensures Defaulted(src, r, ScriptsKey)
    ensures Defaulted(src, r, DependenciesKey)
    ensures Defaulted(src, r, DevDependenciesKey)
    ensures forall k :: k != ScriptsKey && k != DependenciesKey && k != DevDependenciesKey ==> Get(r, k) == Get(src, k)
    ensures Shaped(r) <==> Usable(Get(src, ScriptsKey)) && Usable(Get(src, DependenciesKey)) && Usable(Get(src, DevDependenciesKey))
  {
    SectionKeysDistinct();
    var p1 := OrEmpty(src, ScriptsKey);
    var p2 := OrEmpty(p1, DependenciesKey);
    var r := OrEmpty(p2, DevDependenciesKey);
    assert Defaulted(src, r, ScriptsKey) by {
      assert Get(r, ScriptsKey) == Get(p2, ScriptsKey) == Get(p1, ScriptsKey);
    }
    assert Defaulted(src, r, DependenciesKey) by {
      assert Get(r, DependenciesKey) == Get(p2, DependenciesKey);
      assert Get(p1, DependenciesKey) == Get(src, DependenciesKey);
    }
    assert Defaulted(src, r, DevDependenciesKey) by {
      assert Get(p2, DevDependenciesKey) == Get(p1, DevDependenciesKey) == Get(src, DevDependenciesKey);
    }
    DefaultedObject(src, r, ScriptsKey);
    DefaultedObject(src, r, DependenciesKey);
    DefaultedObject(src, r, DevDependenciesKey);
    r
  }

  /** After `??= {}` a section is an object exactly when it was absent, `null` or an object. */
  lemma DefaultedObject(before: Pkg, after: Pkg, key: string)
    requires Defaulted(before, after, key)
    ensures IsObject(Get(after, key)) <==> Usable(Get(before, key))
  {
  }

  lemma SectionKeysDistinct()
    ensures ScriptsKey != DependenciesKey && ScriptsKey != DevDependenciesKey && DependenciesKey != DevDependenciesKey
  {
    assert |ScriptsKey| == 7 && |DependenciesKey| == 12 && |DevDependenciesKey| == 15;
  }

  lemma SkeletonFacts()
    ensures UniqueKeys(Skeleton)
    ensures !HasKey(Skeleton, ScriptsKey) && !HasKey(Skeleton, DependenciesKey) && !HasKey(Skeleton, DevDependenciesKey)
    ensures Get(Skeleton, "version") == Some(JStr("0.0.0")) && Get(Skeleton, "type") == Some(JStr("module"))
  {
    assert Skeleton[2] == ("version", JStr("0.0.0"));
    assert Skeleton[3] == ("type", JStr("module"));
  }

  /** Assigning a key the object lacks appends it. */
  lemma PutNew(m: Pkg, k: string, v: Json)
    requires !HasKey(m, k)
    ensures Put(m, k, v) == m + [(k, v)]
  {
    assert KeyIndex(m, k).None?;
  }

  /**
   Reading with no file gives the skeleton followed by the three empty
   sections, in that order, ready for editing.
   */
  lemma ReadMissingFile()
    ensures Read(None) == Skeleton + [(ScriptsKey, JObj([]))] + [(DependenciesKey, JObj([]))] + [(DevDependenciesKey, JObj([]))]
    ensures Shaped(Read(None))
  {
    SkeletonFacts();
    SectionsAppended(Skeleton);
  }

  /** On an object with none of the sections, `read` appends the three empty sections in order. */
  lemma SectionsAppended(base: Pkg)
    requires UniqueKeys(base)
    requires !HasKey(base, ScriptsKey) && !HasKey(base, DependenciesKey) && !HasKey(base, DevDependenciesKey)
    ensures ReadSections(base) == base + [(ScriptsKey, JObj([]))] + [(DependenciesKey, JObj([]))] + [(DevDependenciesKey, JObj([]))]
  {
    SectionKeysDistinct();
    var e1, e2, e3 := (ScriptsKey, JObj([])), (DependenciesKey, JObj([])), (DevDependenciesKey, JObj([]));
    StillLacks(base, e1, DependenciesKey);
    StillLacks(base, e1, DevDependenciesKey);
    StillLacks(base + [e1], e2, DevDependenciesKey);
    OrEmptyAppends(base, ScriptsKey);
    OrEmptyAppends(base + [e1], DependenciesKey);
    OrEmptyAppends(base + [e1] + [e2], DevDependenciesKey);
  }

  lemma OrEmptyAppends(m: Pkg, k: string)
    requires UniqueKeys(m) && !HasKey(m, k)
    ensures OrEmpty(m, k) == m + [(k, JObj([]))]
  {
    PutNew(m, k, JObj([]));
  }

  lemma StillLacks(m: Pkg, e: (string, Json), k: string)
    requires !HasKey(m, k) && e.0 != k
    ensures !HasKey(m + [e], k)
  {
    assert forall i :: 0 <= i < |m| ==> (m + [e])[i] == m[i];
  }

  // ---------------------------------------------------------------------------
  // Fields
  // ---------------------------------------------------------------------------

  /** `!obj[key]`: the member is missing or holds a falsy value. */
  predicate Unset(obj: Entries<Json>, key: string)
  {
    Get(obj, key).None? || !Truthy(Get(obj, key).value)
  }

  /**
   `addField(key, value, { overwrite })`: the member is assigned when it
   was missing or falsy, or when `overwrite` is set; otherwise nothing
   changes. No other member is touched.
   */
  function AddField(pkg: Pkg, key: string, value: Json, overwrite: bool): (r: Pkg)
    requires UniqueKeys(pkg)
    ensures UniqueKeys(r)
    ensures Get(r, key) == Some(value) || Get(r, key) == Get(pkg, key)
    ensures Get(r, key) != Get(pkg, key) ==> overwrite || Unset(pkg, key)
    ensures (overwrite || Unset(pkg, key)) ==> Get(r, key) == Some(value)
    ensures forall k :: k != key ==> Get(r, k) == Get(pkg, k)
  {
    if Unset(pkg, key) || overwrite then Put(pkg, key, value) else pkg
  }

  /** `hasField(name, value)`: strict equality with a string value. */
  predicate HasField(pkg: Pkg, name: string, value: string)
  {
    Get(pkg, name) == Some(JStr(value))
  }

  /**
   A set (truthy) field survives `addField` without `overwrite`, so a
   second non-overwriting `addField` after a truthy one changes nothing;
   and the field then answers `hasField` with the first value.
   */
  lemma AddFieldKeepsFirst(pkg: Pkg, key: string, first: string, second: Json)
    requires UniqueKeys(pkg) && Unset(pkg, key) && first != ""
    ensures AddField(AddField(pkg, key, JStr(first), false), key, second, false) == AddField(pkg, key, JStr(first), false)
    ensures HasField(AddField(AddField(pkg, key, JStr(first), false), key, second, false), key, first)
  {
    var p1 := AddField(pkg, key, JStr(first), false);
    assert Get(p1, key) == Some(JStr(first));
    assert !Unset(p1, key);
  }

  /** `addField` keeps the manifest editable unless it overwrites a section with a non-object. */
  lemma AddFieldShaped(pkg: Pkg, key: string, value: Json, overwrite: bool)
    requires Shaped(pkg)
    requires key == ScriptsKey || key == DependenciesKey || key == DevDependenciesKey ==> IsObject(Some(value))
    ensures Shaped(AddField(pkg, key, value, overwrite))
  {
  }

  // ---------------------------------------------------------------------------
  // Sections
  // ---------------------------------------------------------------------------

  /** The members of an object-valued section. */
  function Section(pkg: Pkg, key: string): (r: Entries<Json>)
    requires IsObject(Get(pkg, key))
    ensures UniqueKeys(r)
  {
    Get(pkg, key).value.members
  }

  /** `pkg[section][name] = value`: the section object is updated in place. */
  function SetIn(pkg: Pkg, section: string, name: string, value: Json): (r: Pkg)
    requires Shaped(pkg) && IsObject(Get(pkg, section))
    ensures Shaped(r)
    ensures Keys(r) == Keys(pkg)
    ensures IsObject(Get(r, section))
    ensures Get(Section(r, section), name) == Some(value)
    ensures forall n :: n != name ==> Get(Section(r, section), n) == Get(Section(pkg, section), n)
    ensures forall k :: k != section ==> Get(r, k) == Get(pkg, k)
  {
    var inner := Put(Section(pkg, section), name, value);
    ReplaceSection(pkg, section, inner);
    Put(pkg, section, JObj(inner))
  }

  /** Replacing an object-valued section by another object keeps the manifest editable. */
  lemma ReplaceSection(pkg: Pkg, section: string, inner: Entries<Json>)
    requires Shaped(pkg) && IsObject(Get(pkg, section)) && UniqueKeys(inner)
    ensures Shaped(Put(pkg, section, JObj(inner)))
    ensures Keys(Put(pkg, section, JObj(inner))) == Keys(pkg)
  {
  }

  // ---------------------------------------------------------------------------
  // Scripts
  // ---------------------------------------------------------------------------

  /** `getScript(name)`. */
  function GetScript(pkg: Pkg, name: string): Option<Json>
    requires Shaped(pkg)
  {
    Get(Section(pkg, ScriptsKey), name)
  }

  /** `hasScriptName(name)`: some key of `scripts` is `name`. */
  function HasScriptName(pkg: Pkg, name: string): (r: bool)
    requires Shaped(pkg)
    ensures r <==> GetScript(pkg, name).Some?
  {
    name in Keys(Section(pkg, ScriptsKey))
  }

  /**
   `hasScript(regex)`: some script's value passes `regex.test`, given here
   as the predicate `test`.
   */
  function HasScript(pkg: Pkg, test: Json -> bool): (r: bool)
    requires Shaped(pkg)
    ensures r <==> exists name :: GetScript(pkg, name).Some? && test(GetScript(pkg, name).value)
  {
    var scripts := Section(pkg, ScriptsKey);
    var r := exists i :: 0 <= i < |scripts| && test(scripts[i].1);
    assert r ==> exists name :: GetScript(pkg, name).Some? && test(GetScript(pkg, name).value) by {
      if r {
        var i :| 0 <= i < |scripts| && test(scripts[i].1);
        assert GetScript(pkg, scripts[i].0) == Some(scripts[i].1);
      }
    }
    r
  }

  /** The condition under which `addScript` assigns. */
  predicate ScriptAdded(pkg: Pkg, name: string, regexTest: Option<Json -> bool>, overwrite: bool)
    requires Shaped(pkg)
  {
    (overwrite || !HasScriptName(pkg, name)) && (regexTest.None? || !HasScript(pkg, regexTest.value))
  }

  /**
   `addScript(name, script, { regexTest, overwrite })`: the script is
   stored under `name` when the name is free (or `overwrite` is set) and,
   if a test is given, no existing script passes it. Only that script can
   change.
   */
  function AddScript(pkg: Pkg, name: string, script: string, regexTest: Option<Json -> bool>, overwrite: bool): (r: Pkg)
    requires Shaped(pkg)
    ensures Shaped(r) && Keys(r) == Keys(pkg)
    ensures GetScript(r, name) == if ScriptAdded(pkg, name, regexTest, overwrite) then Some(JStr(script)) else GetScript(pkg, name)
    ensures forall n :: n != name ==> GetScript(r, n) == GetScript(pkg, n)
    ensures forall k :: k != ScriptsKey ==> Get(r, k) == Get(pkg, k)
  {
    if ScriptAdded(pkg, name, regexTest, overwrite) then SetIn(pkg, ScriptsKey, name, JStr(script)) else pkg
  }

  /**
   Without `overwrite` an existing script is never replaced, and with a
   test a matching script already present blocks the addition.
   */
  lemma AddScriptGuards(pkg: Pkg, name: string, script: string, regexTest: Option<Json -> bool>, overwrite: bool)
    requires Shaped(pkg)
    ensures !overwrite && GetScript(pkg, name).Some? ==> AddScript(pkg, name, script, regexTest, overwrite) == pkg
    ensures regexTest.Some? && HasScript(pkg, regexTest.value) ==> AddScript(pkg, name, script, regexTest, overwrite) == pkg
  {
  }

  /**
   A script added with a test it passes satisfies that test afterwards, so
   repeating the same `addScript` changes nothing.
   */
  lemma AddScriptSettles(pkg: Pkg, name: string, script: string, test: Json -> bool, overwrite: bool)
    requires Shaped(pkg) && test(JStr(script))
    requires overwrite || GetScript(pkg, name).None?
    ensures HasScript(AddScript(pkg, name, script, Some(test), overwrite), test)
    ensures var r := AddScript(pkg, name, script, Some(test), overwrite);
            AddScript(r, name, script, Some(test), overwrite) == r
  {
    var r := AddScript(pkg, name, script, Some(test), overwrite);
    if ScriptAdded(pkg, name, Some(test), overwrite) {
      assert GetScript(r, name) == Some(JStr(script));
    }
  }

  // ---------------------------------------------------------------------------
  // Dependencies
  // ---------------------------------------------------------------------------

  /** `dev ? 'devDependencies' : 'dependencies'`. */
  function DepsKey(dev: bool): string
  {
    if dev then DevDependenciesKey else DependenciesKey
  }

  /** `pkg[DepsKey(dev)][name]`. */
  function GetDep(pkg: Pkg, dev: bool, name: string): Option<Json>
    requires Shaped(pkg)
  {
    Get(Section(pkg, DepsKey(dev)), name)
  }

  /** `!deps[name]`. */
  predicate DepUnset(pkg: Pkg, dev: bool, name: string)
    requires Shaped(pkg)
  {
    Unset(Section(pkg, DepsKey(dev)), name)
  }

  /**
   `addDep(name, version, { dev, overwrite })`: the version goes into
   `devDependencies` or `dependencies` when the entry there is missing or
   falsy, or when `overwrite` is set. The other section and every other
   entry are untouched.
   */
  function AddDep(pkg: Pkg, name: string, version: string, dev: bool, overwrite: bool): (r: Pkg)
    requires Shaped(pkg)
    ensures Shaped(r) && Keys(r) == Keys(pkg)
    ensures GetDep(r, dev, name) == if overwrite || DepUnset(pkg, dev, name) then Some(JStr(version)) else GetDep(pkg, dev, name)
    ensures forall n :: n != name ==> GetDep(r, dev, n) == GetDep(pkg, dev, n)
    ensures dev ==> forall n :: GetDep(r, false, n) == GetDep(pkg, false, n)
    ensures !dev ==> forall n :: GetDep(r, true, n) == GetDep(pkg, true, n)
    ensures Get(r, ScriptsKey) == Get(pkg, ScriptsKey)
  {
    SectionKeysDistinct();
    if overwrite || DepUnset(pkg, dev, name) then SetIn(pkg, DepsKey(dev), name, JStr(version)) else pkg
  }

  /** `hasDep(name)`: a truthy entry in `dependencies` or in `devDependencies`. */
  function HasDep(pkg: Pkg, name: string): (r: bool)
    requires Shaped(pkg)
    ensures r <==> exists dev :: GetDep(pkg, dev, name).Some? && Truthy(GetDep(pkg, dev, name).value)
  {
    var r := !DepUnset(pkg, false, name) || !DepUnset(pkg, true, name);
    assert r ==> exists dev :: GetDep(pkg, dev, name).Some? && Truthy(GetDep(pkg, dev, name).value) by {
      if !DepUnset(pkg, false, name) {
        assert GetDep(pkg, false, name).Some? && Truthy(GetDep(pkg, false, name).value);
      } else if !DepUnset(pkg, true, name) {
        assert GetDep(pkg, true, name).Some? && Truthy(GetDep(pkg, true, name).value);
      }
    }
    r
  }

  /**
   After `addDep` with a non-empty version the package has the dependency,
   whether or not the entry was replaced; without `overwrite` a truthy
   entry keeps its version.
   */
  lemma AddDepThenHasDep(pkg: Pkg, name: string, version: string, dev: bool, overwrite: bool)
    requires Shaped(pkg) && version != ""
    ensures HasDep(AddDep(pkg, name, version, dev, overwrite), name)
    ensures !overwrite && !DepUnset(pkg, dev, name) ==> AddDep(pkg, name, version, dev, overwrite) == pkg
  {
    var r := AddDep(pkg, name, version, dev, overwrite);
    assert Truthy(GetDep(r, dev, name).value);
  }

  /** The scope the framework's own packages are published under. */
  const VesselScope: string := "@vessel-js/"

  /**
   The version `addVesselDep` records: a link to the local checkout when
   `link` is set (prefixed `link:` for yarn), otherwise the workspace
   protocol or a caret range on the scaffolder's own version.
   */
  function VesselDepVersion(name: string, workspace: bool, link: Option<string>, manager: string, version: string): (r: string)
    ensures r != ""
    ensures link.None? || link.value == "" ==> r == if workspace then "workspace:*" else "^" + version
    ensures link.Some? && link.value != "" ==>
              r == (if manager == "yarn" then "link:" else "") + link.value + "/" + name
  {
    if link.Some? && link.value != "" then (if manager == "yarn" then "link:" else "") + link.value + "/" + name
    else if workspace then "workspace:*"
    else "^" + version
  }

  /**
   `addVesselDep(name)`: `@vessel-js/<name>` is always (re)assigned in
   `devDependencies`; nothing else changes, and the package then has the
   dependency.
   */
  function AddVesselDep(pkg: Pkg, name: string, workspace: bool, link: Option<string>, manager: string, version: string): (r: Pkg)
    requires Shaped(pkg)
    ensures Shaped(r) && Keys(r) == Keys(pkg)
    ensures GetDep(r, true, VesselScope + name) == Some(JStr(VesselDepVersion(name, workspace, link, manager, version)))
    ensures forall n :: n != VesselScope + name ==> GetDep(r, true, n) == GetDep(pkg, true, n)
    ensures forall n :: GetDep(r, false, n) == GetDep(pkg, false, n)
  {
    SectionKeysDistinct();
    SetIn(pkg, DevDependenciesKey, VesselScope + name, JStr(VesselDepVersion(name, workspace, link, manager, version)))
  }

  /**
   After `addVesselDep(name)` the package has `@vessel-js/<name>`, and a
   second call changes nothing.
   */
  lemma AddVesselDepSettles(pkg: Pkg, name: string, workspace: bool, link: Option<string>, manager: string, version: string)
    requires Shaped(pkg)
    ensures HasDep(AddVesselDep(pkg, name, workspace, link, manager, version), VesselScope + name)
    ensures var r := AddVesselDep(pkg, name, workspace, link, manager, version);
            AddVesselDep(r, name, workspace, link, manager, version) == r
  {
    var r := AddVesselDep(pkg, name, workspace, link, manager, version);
    assert GetDep(r, true, VesselScope + name).Some? && Truthy(GetDep(r, true, VesselScope + name).value);
    SameAssignment(r, DevDependenciesKey, VesselScope + name, JStr(VesselDepVersion(name, workspace, link, manager, version)));
  }

  /** Assigning a section entry the value it already holds changes nothing. */
  lemma SameAssignment(pkg: Pkg, section: string, name: string, value: Json)
    requires Shaped(pkg) && IsObject(Get(pkg, section)) && Get(Section(pkg, section), name) == Some(value)
    ensures SetIn(pkg, section, name, value) == pkg
  {
    PutSame(Section(pkg, section), name, value);
    PutSame(pkg, section, JObj(Section(pkg, section)));
  }

  /** `m[k] = v` when `m[k]` is already `v` leaves the object as it was. */
  lemma PutSame<V>(m: Entries<V>, k: string, v: V)
    requires Get(m, k) == Some(v)
    ensures Put(m, k, v) == m
  {
    var i := KeyIndex(m, k).value;
    assert m[i := (k, v)] == m;
  }

  // ---------------------------------------------------------------------------
  // save
  // ---------------------------------------------------------------------------

  /** A saved section: an object holding the original members sorted by key. */
  predicate Normalised(v: Option<Json>, original: Entries<Json>)
  {
    v.Some? && v.value.JObj? && KeyOrder.Sorted(v.value.members) && multiset(v.value.members) == multiset(original)
  }

  /**
   The object `save` serialises: both dependency sections sorted by key,
   `dependencies` dropped when it has no members (assigning `undefined`
   makes `JSON.stringify` omit it), everything else as it was.
   */
  function Save(pkg: Pkg): (r: Pkg)
    requires Shaped(pkg)
    ensures UniqueKeys(r)
    ensures HasKey(r, DependenciesKey) <==> |Section(pkg, DependenciesKey)| > 0
    ensures HasKey(r, DependenciesKey) ==> Normalised(Get(r, DependenciesKey), Section(pkg, DependenciesKey))
    ensures Normalised(Get(r, DevDependenciesKey), Section(pkg, DevDependenciesKey))
    ensures forall k :: k != DependenciesKey && k != DevDependenciesKey ==> Get(r, k) == Get(pkg, k)
    ensures HasKey(r, DependenciesKey) ==> Keys(r) == Keys(pkg)
    ensures !HasKey(r, DependenciesKey) ==> Keys(r) == Seqs.Filter(Keys(pkg), OtherKey(DependenciesKey))
  {
    SectionKeysDistinct();
    var deps := KeyOrder.Sort(Section(pkg, DependenciesKey));
    var devDeps := KeyOrder.Sort(Section(pkg, DevDependenciesKey));
    assert |deps| == |Section(pkg, DependenciesKey)| by {
      assert |multiset(deps)| == |multiset(Section(pkg, DependenciesKey))|;
    }
    var sorted := SortSections(pkg);
    if |deps| == 0 then Omit(sorted, DependenciesKey) else sorted
  }

  /** The two assignments of sorted sections at the start of `save`. */
  function SortSections(pkg: Pkg): (r: Pkg)
    requires Shaped(pkg)
    ensures UniqueKeys(r) && Keys(r) == Keys(pkg)
    ensures Get(r, DependenciesKey) == Some(JObj(KeyOrder.Sort(Section(pkg, DependenciesKey))))
    ensures Get(r, DevDependenciesKey) == Some(JObj(KeyOrder.Sort(Section(pkg, DevDependenciesKey))))
    ensures forall k :: k != DependenciesKey && k != DevDependenciesKey ==> Get(r, k) == Get(pkg, k)
  {
    SectionKeysDistinct();
    var deps := KeyOrder.Sort(Section(pkg, DependenciesKey));
    var devDeps := KeyOrder.Sort(Section(pkg, DevDependenciesKey));
    var p1 := Put(pkg, DependenciesKey, JObj(deps));
    assert HasKey(p1, DevDependenciesKey);
    Put(p1, DevDependenciesKey, JObj(devDeps))
  }

  /** Whether a member name differs from `key`. */
  function OtherKey(key: string): string -> bool
  {
    (k: string) => k != key
  }

  /** The object without the member `key`, as serialising an `undefined` member leaves it. */
  function Omit(m: Pkg, key: string): (r: Pkg)
    requires UniqueKeys(m)
    ensures UniqueKeys(r) && !HasKey(r, key)
    ensures forall k :: k != key ==> Get(r, k) == Get(m, k)
    ensures Keys(r) == Seqs.Filter(Keys(m), OtherKey(key))
  {
    match KeyIndex(m, key)
    case None =>
      Seqs.FilterAll(Keys(m), OtherKey(key));
      m
    case Some(i) =>
      forall k | k != key ensures Get(m[..i] + m[i + 1..], k) == Get(m, k) {
        RemoveAtGet(m, i, k);
      }
      RemoveAtGet(m, i, key);
      RemoveAtKeys(m, i);
      m[..i] + m[i + 1..]
  }

  /** Removing the entry at `i` of an object with distinct keys removes exactly its key from the key list. */
  lemma RemoveAtKeys(m: Pkg, i: nat)
    requires UniqueKeys(m) && i < |m|
    ensures Keys(m[..i] + m[i + 1..]) == Seqs.Filter(Keys(m), OtherKey(m[i].0))
  {
    var key := m[i].0;
    var p := OtherKey(key);
    var a, b := Keys(m[..i]), Keys(m[i + 1..]);
    KeysAround(m, i);
    KeysAppend(m[..i], m[i + 1..]);
    forall j | 0 <= j < |a| ensures p(a[j]) {
      assert a[j] == m[j].0;
    }
    forall j | 0 <= j < |b| ensures p(b[j]) {
      assert b[j] == m[i + 1 + j].0;
    }
    Seqs.FilterDropOne(a, key, b, p);
  }


  lemma RemoveAtGet(m: Pkg, i: nat, k: string)
    requires UniqueKeys(m) && i < |m|
    ensures UniqueKeys(m[..i] + m[i + 1..]) && !HasKey(m[..i] + m[i + 1..], m[i].0)
    ensures k != m[i].0 ==> Get(m[..i] + m[i + 1..], k) == Get(m, k)
  {
    var r := m[..i] + m[i + 1..];
    assert forall j :: 0 <= j < |r| ==> r[j] == if j < i then m[j] else m[j + 1];
    if k != m[i].0 && Get(m, k).Some? {
      var j :| 0 <= j < |m| && m[j] == (k, Get(m, k).value);
      assert r[if j < i then j else j - 1] == m[j];
    }
  }

  /** Two objects with the same keys in the same order and the same values are the same object. */
  lemma SameEntries(a: Pkg, b: Pkg)
    requires UniqueKeys(a) && Keys(a) == Keys(b) && forall k :: Get(a, k) == Get(b, k)
    ensures a == b
  {
    assert UniqueKeys(b) by {
      assert forall i :: 0 <= i < |b| ==> b[i].0 == Keys(a)[i];
    }
    forall i | 0 <= i < |a| ensures a[i] == b[i] {
      assert a[i].0 == Keys(a)[i] == b[i].0;
      assert Get(a, a[i].0) == Some(a[i].1) && Get(b, b[i].0) == Some(b[i].1);
    }
  }

  /**
   What `save` writes depends only on which entries each dependency
   section holds, not on the order they were added in.
   */
  lemma SaveIgnoresInsertionOrder(p: Pkg, q: Pkg)
    requires Shaped(p) && Shaped(q) && Keys(p) == Keys(q)
    requires forall k :: k != DependenciesKey && k != DevDependenciesKey ==> Get(p, k) == Get(q, k)
    requires multiset(Section(p, DependenciesKey)) == multiset(Section(q, DependenciesKey))
    requires multiset(Section(p, DevDependenciesKey)) == multiset(Section(q, DevDependenciesKey))
    ensures Save(p) == Save(q)
  {
    KeyOrder.SortCanonical(Section(p, DependenciesKey), Section(q, DependenciesKey));
    KeyOrder.SortCanonical(Section(p, DevDependenciesKey), Section(q, DevDependenciesKey));
    var sp, sq := SortSections(p), SortSections(q);
    forall k ensures Get(sp, k) == Get(sq, k) {
      if k != DependenciesKey && k != DevDependenciesKey {
        assert Get(sp, k) == Get(p, k) == Get(q, k) == Get(sq, k);
      }
    }
    SameEntries(sp, sq);
  }

  /** `save` keeps every dependency's version: lookups in the saved sections answer as before. */
  lemma SaveKeepsVersions(pkg: Pkg, name: string)
    requires Shaped(pkg)
    ensures IsObject(Get(Save(pkg), DevDependenciesKey))
    ensures Get(Section(Save(pkg), DevDependenciesKey), name) == Get(Section(pkg, DevDependenciesKey), name)
    ensures HasKey(Save(pkg), DependenciesKey) ==>
              IsObject(Get(Save(pkg), DependenciesKey))
              && Get(Section(Save(pkg), DependenciesKey), name) == Get(Section(pkg, DependenciesKey), name)
  {
    KeyOrder.SortKeepsValues(Section(pkg, DevDependenciesKey), name);
    KeyOrder.SortKeepsValues(Section(pkg, DependenciesKey), name);
  }

  // ---------------------------------------------------------------------------
  // Package manager detection
  // ---------------------------------------------------------------------------

  /** Which lock files exist in the target directory. */
  datatype LockFiles = LockFiles(packageLock: bool, yarnLock: bool, pnpmLock: bool)

  /** `getPkgManagerFromLockFile()`: the first lock file found, in the order npm, yarn, pnpm. */
  function LockFileManager(locks: LockFiles): (r: Option<string>)
    ensures r.None? <==> !locks.packageLock && !locks.yarnLock && !locks.pnpmLock
    ensures locks.packageLock ==> r == Some("npm")
    ensures !locks.packageLock && locks.yarnLock ==> r == Some("yarn")
    ensures !locks.packageLock && !locks.yarnLock && locks.pnpmLock ==> r == Some("pnpm")
  {
    if locks.packageLock then Some("npm")
    else if locks.yarnLock then Some("yarn")
    else if locks.pnpmLock then Some("pnpm")
    else None
  }

  /** The name and version `getPkgInfoFromUserAgent` extracts; a missing version is `undefined`. */
  datatype AgentInfo = AgentInfo(name: string, version: Option<string>)

  /**
   `getPkgInfoFromUserAgent()` on `npm_config_user_agent`: nothing when it
   is unset or empty; otherwise the first space-separated word split at
   `/`. The name is the part of the agent before its first space or `/`.
   */
  function UserAgentInfo(userAgent: Option<string>): (r: Option<AgentInfo>)
    ensures r.None? <==> userAgent.None? || userAgent.value == ""
    ensures r.Some? ==> ' ' !in r.value.name && '/' !in r.value.name && IsPrefix(r.value.name, userAgent.value)
    ensures r.Some? && r.value.version.Some? ==> '/' !in r.value.version.value
  {
    if userAgent.None? || userAgent.value == "" then None
    else
      var spec := Split(userAgent.value, ' ')[0];
      var parts := Split(spec, '/');
      SplitHead(userAgent.value, ' ');
      SplitHead(spec, '/');
      assert userAgent.value[..|parts[0]|] == spec[..|parts[0]|];
      Some(AgentInfo(parts[0], if |parts| > 1 then Some(parts[1]) else None))
  }

  /** The first piece of a split is the text before the first separator. */
  lemma SplitHead(s: string, c: char)
    ensures Split(s, c)[0] == BeforeFirst(s, c)
  {
  }

  /** The text before the first `c` of `a + [c] + b`, when `a` has no `c`, is `a`. */
  lemma {:induction false} BeforeFirstAt(a: string, c: char, b: string)
    requires c !in a
    ensures BeforeFirst(a + [c] + b, c) == a
  {
    if |a| > 0 {
      assert (a + [c] + b)[1..] == a[1..] + [c] + b;
      BeforeFirstAt(a[1..], c, b);
      assert a == [a[0]] + a[1..];
    }
  }

  /**
   The `manager` field: the lock file's manager if there is one, else the
   user agent's name, else `npm`. An empty name from the user agent is
   kept, since `??` only replaces `undefined`.
   */
  function Manager(locks: LockFiles, userAgent: Option<string>): (r: string)
    ensures locks.packageLock ==> r == "npm"
    ensures !locks.packageLock && locks.yarnLock ==> r == "yarn"
    ensures !locks.packageLock && !locks.yarnLock && locks.pnpmLock ==> r == "pnpm"
    ensures LockFileManager(locks).None? && (userAgent.None? || userAgent.value == "") ==> r == "npm"
    ensures LockFileManager(locks).None? && userAgent.Some? && userAgent.value != "" ==>
              ' ' !in r && '/' !in r && IsPrefix(r, userAgent.value)
  {
    match LockFileManager(locks)
    case Some(m) => m
    case None =>
      match UserAgentInfo(userAgent)
      case Some(info) => info.name
      case None => "npm"
  }

  /**
   A user agent of the usual shape `<name>/<version> <rest>` yields that
   name and version, and without lock files the name is the manager.
   */
  lemma UserAgentRoundTrip(name: string, version: string, rest: string)
    requires ' ' !in name && '/' !in name && ' ' !in version && '/' !in version
    ensures UserAgentInfo(Some(name + "/" + version + " " + rest)) == Some(AgentInfo(name, Some(version)))
    ensures Manager(LockFiles(false, false, false), Some(name + "/" + version + " " + rest)) == name
  {
    var spec := name + "/" + version;
    assert ' ' !in spec;
    BeforeFirstAt(spec, ' ', rest);
    SplitHead(spec + " " + rest, ' ');
    BeforeFirstAt(name, '/', version);
    assert spec[|name| + 1..] == version;
    assert Split(version, '/') == [version];
    assert Split(spec, '/') == [name, version];
  }

  /** A user agent that starts with a space or `/` makes the manager the empty string. */
  lemma EmptyAgentName(userAgent: string)
    requires |userAgent| > 0 && (userAgent[0] == ' ' || userAgent[0] == '/')
    ensures Manager(LockFiles(false, false, false), Some(userAgent)) == ""
  {
  }
}
