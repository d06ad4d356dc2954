/**
 * The dashboard tree document and its zod schemas (node, structure, and the
 * create/update request bodies) as datatypes and validity predicates.
 */
module DashboardSchema {
  import opened Common

  datatype Metadata = Metadata(
    createdAt: string, updatedAt: string, createdBy: string, tags: seq<string>, isTemplate: bool)

  datatype Permissions = Permissions(view: seq<string>, edit: seq<string>, admin: seq<string>)

  datatype Config = Config(widgets: seq<string>, layout: string, permissions: Permissions)

  datatype Node = Node(
    id: string, name: string, nodeType: string, description: Option<string>,
    icon: string, color: string, parentId: Option<string>, children: seq<string>,
    position: Point, metadata: Metadata, config: Config)

  datatype Structure = Structure(
    version: int, nodes: map<string, Node>, rootId: string, lastModified: string)

  /** Body of a create request. */
  datatype CreateDashboard = CreateDashboard(
    name: string, nodeType: string, description: Option<string>, icon: string, color: string,
    parentId: Option<string>, tags: Option<seq<string>>)

  /** Body of an update request: every key of `CreateDashboard` is optional. */
  datatype DashboardPatch = DashboardPatch(
    name: Option<string>, nodeType: Option<string>, description: Option<string>,
    icon: Option<string>, color: Option<string>, parentId: Option<string>,
    tags: Option<seq<string>>)

  const NodeTypes: set<string> := {"main", "personal", "project", "team"}
  const CreatableTypes: set<string> := {"personal", "project", "team"}
  const Layouts: set<string> := {"grid", "kanban", "list"}

  // DashboardNodeSchema; the string-list fields are string lists by their type.
  predicate ValidNode(n: Node) {
    |n.name| >= 1 && n.nodeType in NodeTypes && n.config.layout in Layouts
  }

  // DashboardStructureSchema
  predicate ValidStructure(s: Structure) {
    s.version >= 1 && forall k | k in s.nodes :: ValidNode(s.nodes[k])
  }

  // CreateDashboardSchema
  predicate ValidCreateDashboard(c: CreateDashboard) {
    |c.name| >= 1 && c.nodeType in CreatableTypes
  }

  // UpdateDashboardSchema = CreateDashboardSchema.partial()
  predicate ValidDashboardPatch(p: DashboardPatch) {
    (p.name.Some? ==> |p.name.value| >= 1) && (p.nodeType.Some? ==> p.nodeType.value in CreatableTypes)
  }

  /** A request body that passed the create schema never asks for a `main` node. */
  lemma CreateNeverMain(c: CreateDashboard)
    requires ValidCreateDashboard(c)
    ensures c.nodeType != "main" && c.nodeType in NodeTypes
  {
  }

  /**
   * Validity is field-wise: a structure whose root is missing, whose node is
   * stored under a foreign key, whose children point nowhere and whose node
   * sits at a negative position still passes the structure schema.
   */
  lemma ValidityIsFieldWise()
    ensures exists s: Structure ::
      && ValidStructure(s)
      && s.rootId !in s.nodes
      && (exists k | k in s.nodes :: s.nodes[k].id != k)
      && (exists k | k in s.nodes :: s.nodes[k].position.x < 0
                                  && (exists c | c in s.nodes[k].children :: c !in s.nodes))
  {
    var meta := Metadata("", "", "system", [], false);
    var cfg := Config([], "grid", Permissions([], [], []));
    var n := Node("b", "B", "team", None, "", "", Some("x"), ["ghost"], Point(-5, 0), meta, cfg);
    var s := Structure(1, map["a" := n], "root", "");
    assert s.nodes["a"].id != "a";
    assert "ghost" in s.nodes["a"].children;
  }
}
