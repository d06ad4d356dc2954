/**
 * The apps document store of the server: `data/apps.json` holds one
 * `AppsData` document. Every operation loads the document (falling back to,
 * and writing, an empty default when the file is missing or fails the
 * schema), changes it in memory, and saves it; a save stamps
 * `lastModified`, validates, backs up the current file and replaces it.
 */
module AppsStorage {
  import opened Common
  import opened AppSchema
  import opened Backups

  const Prefix := "apps-"
  const ValidationFailed := "validation failed"

  /** The state of `data/apps.json`. */
  type AppsFile = DocFile<AppsData>

  /** What a caller hands to `addApp`: an app without id, timestamps and version. */
  datatype AppFields = AppFields(
    name: string, kind: string, icon: string, url: string, color: string, status: string,
    descriptionShort: string, info: Option<AppInfo>, pos: Point, dim: Dimensions, widgets: seq<Widget>)

  /** The fields pass the app schema once id, timestamps and version are added. */
  predicate ValidFields(f: AppFields) {
    && |f.name| >= 1
    && f.kind == "app"
    && (f.info.Some? ==> ValidInfo(f.info.value))
    && ValidPosition(f.pos)
    && ValidDimensions(f.dim)
    && (forall i | 0 <= i < |f.widgets| :: ValidWidget(f.widgets[i]))
  }

  function DefaultData(now: string): AppsData {
    AppsData(1, [], now)
  }

  predicate LoadsCleanly(f: AppsFile) {
    f.Parsed? && ValidAppsData(f.data)
  }

  /** `loadAppsData`: the stored document when it passes the schema, else the empty default. */
  function LoadedData(f: AppsFile, now: string): (d: AppsData)
    ensures ValidAppsData(d)
    ensures LoadsCleanly(f) ==> d == f.data
    ensures !LoadsCleanly(f) ==> d.apps == [] && d.version == 1
  {
    if LoadsCleanly(f) then f.data else DefaultData(now)
  }

  /** `saveAppsData` up to the write: stamp `lastModified`, then validate. */
  function Stamped(d: AppsData, now: string): (r: Result<AppsData>)
    ensures r.Ok? <==> ValidAppsData(d)
    ensures r.Ok? ==> r.value.apps == d.apps && r.value.version == d.version && r.value.lastModified == now
  {
    var s := d.(lastModified := now);
    if ValidAppsData(s) then Ok(s) else Err(ValidationFailed)
  }

  function FileAfterLoad(f: AppsFile, now: string): AppsFile {
    if LoadsCleanly(f) then f else Parsed(DefaultData(now))
  }

  function NamesAfterLoad(f: AppsFile, names: seq<string>, now: string): seq<string> {
    if LoadsCleanly(f) then names else BackedUp(f, names, Prefix, now)
  }

  // ---------------------------------------------------------------------
  // The in-memory operations on a loaded document.

  predicate HasId(a: App, id: string) {
    a.id == id
  }

  /** `data.apps.find(app => app.id === id) || null`. */
  function AppById(d: AppsData, id: string): (r: Option<App>)
    ensures r.Some? <==> exists i | 0 <= i < |d.apps| :: d.apps[i].id == id
    ensures r.Some? ==> r.value.id == id && exists k | 0 <= k < |d.apps| ::
              d.apps[k] == r.value && forall j | 0 <= j < k :: d.apps[j].id != id
  {
    Find(d.apps, (a: App) => HasId(a, id))
  }

  function NewApp(f: AppFields, id: string, now: string): App {
    App(id, f.name, f.kind, f.icon, f.url, f.color, f.status, f.descriptionShort, f.info,
        f.pos, f.dim, f.widgets, now, now, 1)
  }

  /** `Omit<App, 'id' | 'createdAt' | 'updatedAt' | 'version'>`: the fields a caller supplies. */
  function FieldsOf(a: App): AppFields {
    AppFields(a.name, a.kind, a.icon, a.url, a.color, a.status, a.descriptionShort, a.info,
      a.pos, a.dim, a.widgets)
  }

  /**
   * `addApp` in memory: the old apps stay in place, the new one follows
   * them with the given id, version 1 and both stamps `now`, and the
   * document version goes up by one.
   */
  function WithNewApp(d: AppsData, f: AppFields, id: string, now: string): (r: AppsData)
    ensures |r.apps| == |d.apps| + 1 && r.apps[..|d.apps|] == d.apps && r.version == d.version + 1
    ensures var a := r.apps[|d.apps|]; a.id == id && a.version == 1 && a.createdAt == now && a.updatedAt == now
    ensures FieldsOf(r.apps[|d.apps|]) == f
  {
    d.(apps := d.apps + [NewApp(f, id, now)], version := d.version + 1)
  }

  /**
   * `Partial<App>`, what `updateApp` takes: any key of an app, absent keys
   * being `None`. The widget routes pass `{widgets: [...]}` here. The keys
   * `id`, `updatedAt` and `version` are not carried, because the spread
   * overwrites them whatever the update holds.
   */
  datatype AppUpdate = AppUpdate(
    name: Option<string>, kind: Option<string>, icon: Option<string>, url: Option<string>,
    color: Option<string>, status: Option<string>, descriptionShort: Option<string>,
    info: Option<AppInfo>, pos: Option<Point>, dim: Option<Dimensions>,
    widgets: Option<seq<Widget>>, createdAt: Option<string>)

  const NoUpdate := AppUpdate(None, None, None, None, None, None, None, None, None, None, None, None)

  /**
   * The update a validated request body becomes: the body's keys, and none
   * of the keys the update schema does not have.
   */
  function FromRequest(p: AppPatch): (u: AppUpdate)
    ensures u.kind.None? && u.status.None? && u.widgets.None? && u.createdAt.None?
    ensures u.name == p.name && u.icon == p.icon && u.url == p.url && u.color == p.color
    ensures u.descriptionShort == p.descriptionShort && u.info == p.info && u.pos == p.pos && u.dim == p.dim
  {
    NoUpdate.(name := p.name, icon := p.icon, url := p.url, color := p.color,
      descriptionShort := p.descriptionShort, info := p.info, pos := p.pos, dim := p.dim)
  }

  /** An update whose every carried key passes the app schema. */
  predicate ValidUpdate(u: AppUpdate) {
    && (u.name.Some? ==> |u.name.value| >= 1)
    && (u.kind.Some? ==> u.kind.value == "app")
    && (u.info.Some? ==> ValidInfo(u.info.value))
    && (u.pos.Some? ==> ValidPosition(u.pos.value))
    && (u.dim.Some? ==> ValidDimensions(u.dim.value))
    && (u.widgets.Some? ==> forall i | 0 <= i < |u.widgets.value| :: ValidWidget(u.widgets.value[i]))
  }

  /** A body that passes the update schema becomes a valid update. */
  lemma RequestUpdateIsValid(p: AppPatch)
    requires ValidAppPatch(p)
    ensures ValidUpdate(FromRequest(p))
  {
  }

  /**
   * The result `r` of spreading the update `u` over the app `a`: every key
   * the update carries wins, every key it lacks keeps `a`'s value, and the
   * keys an update cannot carry stay as they were.
   */
  predicate PatchApplied(a: App, u: AppUpdate, r: App) {
    && (u.name.Some? ==> r.name == u.name.value) && (u.name.None? ==> r.name == a.name)
    && (u.kind.Some? ==> r.kind == u.kind.value) && (u.kind.None? ==> r.kind == a.kind)
    && (u.status.Some? ==> r.status == u.status.value) && (u.status.None? ==> r.status == a.status)
    && (u.widgets.Some? ==> r.widgets == u.widgets.value) && (u.widgets.None? ==> r.widgets == a.widgets)
    && (u.createdAt.Some? ==> r.createdAt == u.createdAt.value) && (u.createdAt.None? ==> r.createdAt == a.createdAt)
    && (u.icon.Some? ==> r.icon == u.icon.value) && (u.icon.None? ==> r.icon == a.icon)
    && (u.url.Some? ==> r.url == u.url.value) && (u.url.None? ==> r.url == a.url)
    && (u.color.Some? ==> r.color == u.color.value) && (u.color.None? ==> r.color == a.color)
    && (u.descriptionShort.Some? ==> r.descriptionShort == u.descriptionShort.value)
    && (u.descriptionShort.None? ==> r.descriptionShort == a.descriptionShort)
    && (u.info.Some? ==> r.info == u.info) && (u.info.None? ==> r.info == a.info)
    && (u.pos.Some? ==> r.pos == u.pos.value) && (u.pos.None? ==> r.pos == a.pos)
    && (u.dim.Some? ==> r.dim == u.dim.value) && (u.dim.None? ==> r.dim == a.dim)
  }

  /**
   * `{...app, ...updates, id, updatedAt, version: app.version + 1}`: the
   * update's keys override, the requested id wins over any id in the
   * update, `updatedAt` is `now` and the app's version goes up by one.
   */
  function Patched(a: App, u: AppUpdate, id: string, now: string): (r: App)
    ensures PatchApplied(a, u, r)
    ensures r.id == id && r.updatedAt == now && r.version == a.version + 1
  {
    a.(name := u.name.GetOr(a.name), icon := u.icon.GetOr(a.icon), url := u.url.GetOr(a.url),
       color := u.color.GetOr(a.color), descriptionShort := u.descriptionShort.GetOr(a.descriptionShort),
       info := if u.info.Some? then u.info else a.info,
       pos := u.pos.GetOr(a.pos), dim := u.dim.GetOr(a.dim),
       kind := u.kind.GetOr(a.kind), status := u.status.GetOr(a.status),
       widgets := u.widgets.GetOr(a.widgets), createdAt := u.createdAt.GetOr(a.createdAt),
       id := id, updatedAt := now, version := a.version + 1)
  }

  /**
   * `updateApp` in memory: None exactly when no app has the id; else the new
   * document, of the same length and one version up, which holds the
   * patched app under the requested id.
   */
  function UpdatedData(d: AppsData, id: string, u: AppUpdate, now: string): (r: Option<(AppsData, App)>)
    ensures r.None? <==> AppById(d, id).None?
    ensures r.Some? ==> && |r.value.0.apps| == |d.apps| && r.value.0.version == d.version + 1
                        && r.value.1.id == id && r.value.1 in r.value.0.apps
  {
    var k := FirstIndex(d.apps, (a: App) => HasId(a, id));
    if k == -1 then None
    else
      var a := Patched(d.apps[k], u, id, now);
      assert d.apps[k := a][k] == a;
      Some((d.(apps := d.apps[k := a], version := d.version + 1), a))
  }

  /**
   * `deleteApp` in memory: None when no app has the id; else a document one
   * version up in which no app has it.
   */
  function WithoutApp(d: AppsData, id: string): (r: Option<AppsData>)
    ensures r.None? ==> forall i | 0 <= i < |d.apps| :: d.apps[i].id != id
    ensures r.Some? ==> r.value.version == d.version + 1 && forall a | a in r.value.apps :: a.id != id
  {
    var keep := (a: App) => !HasId(a, id);
    var rest := Filter(d.apps, keep);
    if |rest| == |d.apps| then
      assert forall i | 0 <= i < |d.apps| :: d.apps[i].id != id by {
        forall i | 0 <= i < |d.apps| && d.apps[i].id == id ensures false {
          FilterDropsRejected(d.apps, keep, i);
        }
      }
      None
    else Some(d.(apps := rest, version := d.version + 1))
  }

  // ---------------------------------------------------------------------
  // Properties of the in-memory operations.

  /** With a fresh id, the new app is last, has version 1, and every earlier app stays in place. */
  lemma AddAppends(d: AppsData, f: AppFields, id: string, now: string)
    requires forall i | 0 <= i < |d.apps| :: d.apps[i].id != id
    ensures var r := WithNewApp(d, f, id, now);
      && |r.apps| == |d.apps| + 1 && r.apps[..|d.apps|] == d.apps
      && r.version == d.version + 1
      && AppById(r, id) == Some(r.apps[|d.apps|])
      && r.apps[|d.apps|].version == 1 && r.apps[|d.apps|].id == id
      && FieldsOf(r.apps[|d.apps|]) == f
      && forall other | other != id :: AppById(r, other) == AppById(d, other)
  {
    var r := WithNewApp(d, f, id, now);
    assert r.apps[..|d.apps|] == d.apps;
    forall other | other != id ensures AppById(r, other) == AppById(d, other) {
      FirstIndexAppend(d.apps, NewApp(f, id, now), (a: App) => HasId(a, other));
    }
    FirstIndexAppend(d.apps, NewApp(f, id, now), (a: App) => HasId(a, id));
  }

  lemma {:induction false} FirstIndexAppend(xs: seq<App>, x: App, p: App -> bool)
    ensures FirstIndex(xs + [x], p) ==
      (if FirstIndex(xs, p) >= 0 then FirstIndex(xs, p) else if p(x) then |xs| else -1)
  {
    if xs != [] {
      assert (xs + [x])[1..] == xs[1..] + [x];
      FirstIndexAppend(xs[1..], x, p);
    }
  }

  lemma AddPreservesValidity(d: AppsData, f: AppFields, id: string, now: string)
    requires ValidAppsData(d) && ValidFields(f)
    ensures ValidAppsData(WithNewApp(d, f, id, now))
  {
  }

  /**
   * Updating an absent id gives nothing; updating a present one replaces
   * exactly the first app with that id by one that takes the update's keys,
   * keeps the requested id whatever the patch holds, and bumps both version
   * counters.
   */
  lemma UpdateReplacesFirstMatch(d: AppsData, id: string, u: AppUpdate, now: string)
    ensures UpdatedData(d, id, u, now).None? <==> AppById(d, id).None?
    ensures UpdatedData(d, id, u, now).Some? ==>
      var (r, a) := UpdatedData(d, id, u, now).value;
      && a.id == id && a.version == AppById(d, id).value.version + 1 && a.updatedAt == now
      && PatchApplied(AppById(d, id).value, u, a)
      && r.version == d.version + 1 && |r.apps| == |d.apps|
      && AppById(r, id) == Some(a)
      && exists k | 0 <= k < |d.apps| :: r.apps[k] == a && d.apps[k] == AppById(d, id).value
           && forall i | 0 <= i < |d.apps| && i != k :: r.apps[i] == d.apps[i]
  {
    var k := FirstIndex(d.apps, (a: App) => HasId(a, id));
    if k != -1 {
      var (r, a) := UpdatedData(d, id, u, now).value;
      assert a == Patched(d.apps[k], u, id, now);
      assert FirstIndex(r.apps, (b: App) => HasId(b, id)) == k by {
        FirstIndexSame(d.apps, r.apps, k, (b: App) => HasId(b, id));
      }
    }
  }

  /** Two sequences that agree below `k` and both match at `k` have the same first match. */
  lemma {:induction false} FirstIndexSame(xs: seq<App>, ys: seq<App>, k: int, p: App -> bool)
    requires 0 <= k < |xs| == |ys| && FirstIndex(xs, p) == k && p(ys[k])
    requires forall j | 0 <= j < k :: xs[j] == ys[j]
    ensures FirstIndex(ys, p) == k
  {
    if k > 0 {
      FirstIndexSame(xs[1..], ys[1..], k - 1, p);
    }
  }

  /** The empty patch changes nothing but the timestamp and the per-app version. */
  lemma EmptyPatchOnlyBumps(a: App, now: string)
    ensures Patched(a, FromRequest(EmptyPatch), a.id, now) == a.(updatedAt := now, version := a.version + 1)
  {
  }

  /**
   * The update the widget routes make, `{widgets: [...]}`, replaces the
   * app's widget list and otherwise changes only the timestamp and the
   * per-app version.
   */
  lemma WidgetsUpdateReplacesList(a: App, ws: seq<Widget>, now: string)
    ensures Patched(a, NoUpdate.(widgets := Some(ws)), a.id, now)
      == a.(widgets := ws, updatedAt := now, version := a.version + 1)
  {
  }

  lemma UpdatePreservesValidity(d: AppsData, id: string, u: AppUpdate, now: string)
    requires ValidAppsData(d) && ValidUpdate(u)
    ensures UpdatedData(d, id, u, now).Some? ==> ValidAppsData(UpdatedData(d, id, u, now).value.0)
  {
  }

  /** Deleting gives nothing exactly when no app has the id. */
  lemma DeleteFindsNothing(d: AppsData, id: string)
    ensures WithoutApp(d, id).None? <==> AppById(d, id).None?
  {
    var keep := (a: App) => !HasId(a, id);
    if AppById(d, id).Some? {
      var i :| 0 <= i < |d.apps| && d.apps[i].id == id;
      FilterDropsRejected(d.apps, keep, i);
    } else {
      FilterAllKept(d.apps, keep);
    }
  }

  /**
   * A delete that happens removes every app with the id, keeps each other
   * app as often as before and in order, and bumps the version.
   */
  lemma DeleteRemovesAll(d: AppsData, id: string)
    requires WithoutApp(d, id).Some?
    ensures var r := WithoutApp(d, id).value;
      && r.version == d.version + 1 && |r.apps| < |d.apps|
      && AppById(r, id).None?
      && r.apps == Filter(d.apps, (a: App) => !HasId(a, id))
      && (forall a: App | a.id != id :: multiset(r.apps)[a] == multiset(d.apps)[a])
  {
    var keep := (a: App) => !HasId(a, id);
    var rest := Filter(d.apps, keep);
    assert forall i | 0 <= i < |rest| :: rest[i] in rest;
    forall a: App | a.id != id ensures multiset(rest)[a] == multiset(d.apps)[a] {
      FilterCount(d.apps, keep, a);
    }
  }

  lemma DeletePreservesValidity(d: AppsData, id: string)
    requires ValidAppsData(d)
    ensures WithoutApp(d, id).Some? ==> ValidAppsData(WithoutApp(d, id).value)
  {
    var rest := Filter(d.apps, (a: App) => !HasId(a, id));
    assert forall i | 0 <= i < |rest| :: rest[i] in d.apps;
  }

  // ---------------------------------------------------------------------
  // The store: the document file and the shared backup directory.

  class AppsStore {
    var file: AppsFile
    const dir: BackupDir

    constructor (file: AppsFile, dir: BackupDir)
      ensures this.file == file && this.dir == dir
    {
      this.file := file;
      this.dir := dir;
    }

    /** `atomicWrite`: back up the current file if there is one, then replace it. */
    method Write(d: AppsData, now: string)
      modifies this, dir
      ensures file == Parsed(d)
      ensures dir.names == BackedUp(old(file), old(dir.names), Prefix, now)
    {
      if !file.Missing? {
        dir.Backup(Prefix, now);
      }
      file := Parsed(d);
    }

    /** `loadAppsData`: a file that is missing, not JSON or off-schema is replaced by the default. */
    method Load(now: string) returns (d: AppsData)
      modifies this, dir
      ensures d == LoadedData(old(file), now) && ValidAppsData(d)
      ensures file == FileAfterLoad(old(file), now)
      ensures dir.names == NamesAfterLoad(old(file), old(dir.names), now)
    {
      if LoadsCleanly(file) {
        d := file.data;
      } else {
        d := DefaultData(now);
        Write(d, now);
      }
    }

    /** `saveAppsData`: an off-schema document is refused before anything is written. */
    method Save(d: AppsData, now: string) returns (r: Result<AppsData>)
      modifies this, dir
      ensures r == Stamped(d, now)
      ensures r.Ok? ==> file == Parsed(r.value) && dir.names == BackedUp(old(file), old(dir.names), Prefix, now)
      ensures r.Err? ==> file == old(file) && dir.names == old(dir.names)
    {
      r := Stamped(d, now);
      if r.Ok? {
        Write(r.value, now);
      }
    }

    /** `getAppById`. */
    method GetAppById(id: string, now: string) returns (r: Option<App>)
      modifies this, dir
      ensures r == AppById(LoadedData(old(file), now), id)
      ensures file == FileAfterLoad(old(file), now)
      ensures dir.names == NamesAfterLoad(old(file), old(dir.names), now)
    {
      var data := Load(now);
      r := Find(data.apps, (a: App) => HasId(a, id));
    }

    /** `addApp` with the fresh id `id`: push, bump, save. */
    method AddApp(f: AppFields, id: string, now: string) returns (r: Result<App>)
      modifies this, dir
      ensures var d := WithNewApp(LoadedData(old(file), now), f, id, now);
        && (r.Ok? <==> Stamped(d, now).Ok?)
        && (r.Ok? ==> (r.value == NewApp(f, id, now) && file == Parsed(Stamped(d, now).value)
              && dir.names == BackedUp(FileAfterLoad(old(file), now), NamesAfterLoad(old(file), old(dir.names), now), Prefix, now)))
        && (r.Err? ==> (file == FileAfterLoad(old(file), now)
              && dir.names == NamesAfterLoad(old(file), old(dir.names), now)))
    {
      var data := Load(now);
      var saved := Save(WithNewApp(data, f, id, now), now);
      if saved.Ok? {
        r := Ok(NewApp(f, id, now));
      } else {
        r := Err(saved.error);
      }
    }

    /** `updateApp`: an absent id gives `null` and no save. */
    method UpdateApp(id: string, u: AppUpdate, now: string) returns (r: Result<Option<App>>)
      modifies this, dir
      ensures var up := UpdatedData(LoadedData(old(file), now), id, u, now);
        && (up.None? ==> (r == Ok(None) && file == FileAfterLoad(old(file), now)
              && dir.names == NamesAfterLoad(old(file), old(dir.names), now)))
        && (up.Some? ==> (r.Ok? <==> Stamped(up.value.0, now).Ok?))
        && (up.Some? && r.Ok? ==> (r.value == Some(up.value.1) && file == Parsed(Stamped(up.value.0, now).value)
              && dir.names == BackedUp(FileAfterLoad(old(file), now), NamesAfterLoad(old(file), old(dir.names), now), Prefix, now)))
        && (up.Some? && r.Err? ==> (file == FileAfterLoad(old(file), now)
              && dir.names == NamesAfterLoad(old(file), old(dir.names), now)))
    {
      var data := Load(now);
      var up := UpdatedData(data, id, u, now);
      if up.None? {
        return Ok(None);
      }
      var saved := Save(up.value.0, now);
      if saved.Ok? {
        r := Ok(Some(up.value.1));
      } else {
        r := Err(saved.error);
      }
    }

    /** `deleteApp`: false, and no save, when nothing was removed. */
    method DeleteApp(id: string, now: string) returns (r: Result<bool>)
      modifies this, dir
      ensures var del := WithoutApp(LoadedData(old(file), now), id);
        && (del.None? ==> (r == Ok(false) && file == FileAfterLoad(old(file), now)
              && dir.names == NamesAfterLoad(old(file), old(dir.names), now)))
        && (del.Some? ==> (r == Ok(true) <==> Stamped(del.value, now).Ok?) && (r.Ok? ==> r == Ok(true)))
        && (del.Some? && r.Ok? ==> (file == Parsed(Stamped(del.value, now).value)
              && dir.names == BackedUp(FileAfterLoad(old(file), now), NamesAfterLoad(old(file), old(dir.names), now), Prefix, now)))
        && (del.Some? && r.Err? ==> (file == FileAfterLoad(old(file), now)
              && dir.names == NamesAfterLoad(old(file), old(dir.names), now)))
    {
      var data := Load(now);
      var del := WithoutApp(data, id);
      if del.None? {
        return Ok(false);
      }
      var saved := Save(del.value, now);
      if saved.Ok? {
        r := Ok(true);
      } else {
        r := Err(saved.error);
      }
    }
  }

  /**
   * On a valid stored document with valid inputs, every save of the three
   * writing operations succeeds: the schema check at the write never fires.
   */
  lemma WritesStayValid(d: AppsData, f: AppFields, id: string, u: AppUpdate, now: string)
    requires ValidAppsData(d) && ValidFields(f) && ValidUpdate(u)
    ensures Stamped(WithNewApp(d, f, id, now), now).Ok?
    ensures UpdatedData(d, id, u, now).Some? ==> Stamped(UpdatedData(d, id, u, now).value.0, now).Ok?
    ensures WithoutApp(d, id).Some? ==> Stamped(WithoutApp(d, id).value, now).Ok?
  {
    AddPreservesValidity(d, f, id, now);
    UpdatePreservesValidity(d, id, u, now);
    DeletePreservesValidity(d, id);
  }
}
