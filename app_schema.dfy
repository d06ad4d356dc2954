/**
 * The apps document and its zod schemas (positions, dimensions, widgets,
 * apps, the apps document, and the create/update request bodies) as
 * datatypes and validity predicates. Enum-like fields stay strings so that
 * the schema's enum and literal checks are real conditions here.
 */
module AppSchema {
  import opened Common

  const MinSize := 1
  const MaxSize := 6

  /** `{w, h}` grid size. */
  datatype Dimensions = Dimensions(w: int, h: int)

  datatype AppInfo = AppInfo(format: string, content: string)

  datatype Widget = Widget(
    id: string, title: string, kind: string, widgetType: string, content: string,
    pos: Point, dim: Dimensions, visible: bool, color: string,
    createdAt: string, updatedAt: string)

  datatype App = App(
    id: string, name: string, kind: string, icon: string, url: string, color: string,
    status: string, descriptionShort: string, info: Option<AppInfo>,
    pos: Point, dim: Dimensions, widgets: seq<Widget>,
    createdAt: string, updatedAt: string, version: int)

  datatype AppsData = AppsData(version: int, apps: seq<App>, lastModified: string)

  /** Body of a create request; the optional keys are `Option`s. */
  datatype CreateApp = CreateApp(
    name: string, icon: string, url: string, color: string, descriptionShort: string,
    info: Option<AppInfo>, pos: Option<Point>, dim: Option<Dimensions>)

  /** Body of an update request: every key of `CreateApp` is optional. */
  datatype AppPatch = AppPatch(
    name: Option<string>, icon: Option<string>, url: Option<string>, color: Option<string>,
    descriptionShort: Option<string>, info: Option<AppInfo>, pos: Option<Point>,
    dim: Option<Dimensions>)

  // AppPositionSchema
  predicate ValidPosition(p: Point) {
    p.x >= 0 && p.y >= 0
  }

  // AppDimensionsSchema
  predicate ValidDimensions(d: Dimensions) {
    MinSize <= d.w <= MaxSize && MinSize <= d.h <= MaxSize
  }

  // AppInfoSchema
  predicate ValidInfo(i: AppInfo) {
    i.format in {"markdown", "html"}
  }

  // WidgetSchema
  predicate ValidWidget(w: Widget) {
    && |w.title| >= 1
    && w.kind == "widget"
    && w.widgetType in {"markdown", "html"}
    && ValidPosition(w.pos)
    && ValidDimensions(w.dim)
  }

  // AppSchema
  predicate ValidApp(a: App) {
    && |a.name| >= 1
    && a.kind == "app"
    && (a.info.Some? ==> ValidInfo(a.info.value))
    && ValidPosition(a.pos)
    && ValidDimensions(a.dim)
    && (forall i | 0 <= i < |a.widgets| :: ValidWidget(a.widgets[i]))
    && a.version >= 1
  }

  // AppsDataSchema
  predicate ValidAppsData(d: AppsData) {
    d.version >= 1 && forall i | 0 <= i < |d.apps| :: ValidApp(d.apps[i])
  }

  // CreateAppSchema
  predicate ValidCreateApp(c: CreateApp) {
    && |c.name| >= 1
    && (c.info.Some? ==> ValidInfo(c.info.value))
    && (c.pos.Some? ==> ValidPosition(c.pos.value))
    && (c.dim.Some? ==> ValidDimensions(c.dim.value))
  }

  // UpdateAppSchema = CreateAppSchema.partial()
  predicate ValidAppPatch(p: AppPatch) {
    && (p.name.Some? ==> |p.name.value| >= 1)
    && (p.info.Some? ==> ValidInfo(p.info.value))
    && (p.pos.Some? ==> ValidPosition(p.pos.value))
    && (p.dim.Some? ==> ValidDimensions(p.dim.value))
  }

  const EmptyPatch := AppPatch(None, None, None, None, None, None, None, None)

  /** Every key of the update schema is optional: the empty body passes. */
  lemma EmptyPatchIsValid()
    ensures ValidAppPatch(EmptyPatch)
  {
  }
}
