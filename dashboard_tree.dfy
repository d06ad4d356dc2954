/**
 * The dashboard tree store of the server: `data/dashboards.json` holds one
 * `Structure`, a record of nodes keyed by id, with a root id. Nodes are
 * inserted under a parent (whose `children` list gains the new id), updated
 * with their id pinned, deleted (never the root, and unlinked from their
 * parent), and read back as a breadcrumb by following `parentId` links.
 * Loading, validating and backing up work as for the apps document.
 */
module DashboardTree {
  import opened Common
  import opened DashboardSchema
  import opened Backups

  const Prefix := "dashboards-"
  const ValidationFailed := "validation failed"

  /** The state of `data/dashboards.json`. */
  type TreeFile = DocFile<Structure>

  function SystemMetadata(now: string, tags: seq<string>): Metadata {
    Metadata(now, now, "system", tags, false)
  }

  /**
   * The structure `loadDashboardStructure` writes when there is no usable
   * file: version 1, rooted at `main`, with the four system dashboards.
   */
  function DefaultStructure(now: string): (r: Structure)
    ensures r.version == 1 && r.rootId == "main" && r.lastModified == now
    ensures "main" in r.nodes && r.nodes["main"].parentId.None? && |r.nodes["main"].children| == 3
  {
    var main := Node("main", "WebSuite IO", "main", Some("Hauptdashboard für alle Bereiche"),
      "\U{1F3E0}", "#3b82f6", None, ["personal", "projects", "teams"], Point(0, 0),
      SystemMetadata(now, []), Config([], "grid", Permissions(["*"], ["admin"], ["admin"])));
    var personal := Node("personal", "Persönliches Dashboard", "personal",
      Some("Ihr persönlicher Arbeitsbereich"), "\U{1F464}", "#10b981", Some("main"), [], Point(-200, 150),
      SystemMetadata(now, ["personal"]), Config([], "grid", Permissions(["user"], ["user"], ["user"])));
    var projects := Node("projects", "Projekte", "project", Some("Alle Projekt-Dashboards"),
      "\U{1F4C1}", "#8b5cf6", Some("main"), [], Point(0, 150),
      SystemMetadata(now, ["projects"]), Config([], "grid", Permissions(["*"], ["project-manager"], ["admin"])));
    var teams := Node("teams", "Teams", "team", Some("Alle Team-Dashboards"),
      "\U{1F465}", "#f59e0b", Some("main"), [], Point(200, 150),
      SystemMetadata(now, ["teams"]), Config([], "grid", Permissions(["*"], ["team-lead"], ["admin"])));
    Structure(1, map["main" := main, "personal" := personal, "projects" := projects, "teams" := teams],
      "main", now)
  }

  /**
   * Parent/children consistency: every node is stored under its own id, the
   * root exists, no node has the empty id, every listed child exists and
   * names its lister as parent, and every node whose parent exists is listed
   * by that parent.
   */
  predicate Consistent(s: Structure) {
    && "" !in s.nodes
    && s.rootId in s.nodes
    && (forall k | k in s.nodes :: s.nodes[k].id == k)
    && (forall k, c | k in s.nodes && c in s.nodes[k].children ::
          c in s.nodes && s.nodes[c].parentId == Some(k))
    && (forall k | k in s.nodes && s.nodes[k].parentId.Some? && s.nodes[k].parentId.value in s.nodes ::
          k in s.nodes[s.nodes[k].parentId.value].children)
  }

  /** The default structure passes the schema, is consistent, and hangs the three areas under `main`. */
  lemma DefaultIsConsistent(now: string)
    ensures var s := DefaultStructure(now);
      && ValidStructure(s) && Consistent(s)
      && s.nodes.Keys == {"main", "personal", "projects", "teams"}
      && s.nodes[s.rootId].parentId.None?
      && s.nodes[s.rootId].children == ["personal", "projects", "teams"]
      && forall c | c in s.nodes[s.rootId].children :: s.nodes[c].parentId == Some(s.rootId)
  {
    var s := DefaultStructure(now);
    DefaultNodes(now);
    forall k, c | k in s.nodes && c in s.nodes[k].children
      ensures c in s.nodes && s.nodes[c].parentId == Some(k)
    {
      assert k == "main";
    }
    forall k | k in s.nodes && s.nodes[k].parentId.Some? && s.nodes[k].parentId.value in s.nodes
      ensures k in s.nodes[s.nodes[k].parentId.value].children
    {
      assert k != "main";
    }
  }

  /** The four default nodes, one by one. */
  lemma DefaultNodes(now: string)
    ensures var s := DefaultStructure(now);
      && s.version == 1 && s.rootId == "main"
      && s.nodes.Keys == {"main", "personal", "projects", "teams"}
      && s.nodes["main"].parentId.None? && s.nodes["main"].children == ["personal", "projects", "teams"]
      && (forall k | k in s.nodes && k != "main" :: s.nodes[k].parentId == Some("main") && s.nodes[k].children == [])
      && (forall k | k in s.nodes :: s.nodes[k].id == k && ValidNode(s.nodes[k]))
  {
    var s := DefaultStructure(now);
    assert s.nodes.Keys == {"main", "personal", "projects", "teams"};
    assert "main" != "personal" && "main" != "projects" && "main" != "teams";
  }

  // ---------------------------------------------------------------------
  // Loading and saving.

  predicate LoadsCleanly(f: TreeFile) {
    f.Parsed? && ValidStructure(f.data)
  }

  /** `loadDashboardStructure`: the stored structure when it passes the schema, else the default. */
  function LoadedStructure(f: TreeFile, now: string): (s: Structure)
    ensures ValidStructure(s)
    ensures LoadsCleanly(f) ==> s == f.data
    ensures !LoadsCleanly(f) ==> s.rootId == "main" && s.version == 1 && Consistent(s)
  {
    if LoadsCleanly(f) then f.data
    else
      DefaultIsConsistent(now);
      DefaultStructure(now)
  }

  /** `saveDashboardStructure` up to the write: stamp `lastModified`, then validate. */
  function Stamped(s: Structure, now: string): (r: Result<Structure>)
    ensures r.Ok? <==> ValidStructure(s)
    ensures r.Ok? ==> r.value.nodes == s.nodes && r.value.rootId == s.rootId
                      && r.value.version == s.version && r.value.lastModified == now
  {
    var t := s.(lastModified := now);
    if ValidStructure(t) then Ok(t) else Err(ValidationFailed)
  }

  function FileAfterLoad(f: TreeFile, now: string): TreeFile {
    if LoadsCleanly(f) then f else Parsed(DefaultStructure(now))
  }

  function NamesAfterLoad(f: TreeFile, names: seq<string>, now: string): seq<string> {
    if LoadsCleanly(f) then names else BackedUp(f, names, Prefix, now)
  }

  // ---------------------------------------------------------------------
  // The in-memory operations on a loaded structure.

  /** `structure.nodes[id] || null`. */
  function NodeById(s: Structure, id: string): (r: Option<Node>)
    ensures r.Some? <==> id in s.nodes
    ensures r.Some? ==> r.value == s.nodes[id]
  {
    if id in s.nodes then Some(s.nodes[id]) else None
  }

  /** What a caller hands to `addDashboardNode`: a node without id and metadata, plus any `metadata.tags`. */
  datatype NodeFields = NodeFields(
    name: string, nodeType: string, description: Option<string>, icon: string, color: string,
    parentId: Option<string>, children: seq<string>, position: Point, config: Config,
    tags: Option<seq<string>>)

  /**
   * The node `addDashboardNode` builds: the given id, both stamps `now`,
   * created by `user`, not a template, and the request's tags or none.
   */
  function NewNode(f: NodeFields, id: string, now: string): (r: Node)
    ensures r.id == id && r.parentId == f.parentId && r.children == f.children
    ensures r.metadata == Metadata(now, now, "user", f.tags.GetOr([]), false)
  {
    Node(id, f.name, f.nodeType, f.description, f.icon, f.color, f.parentId, f.children, f.position,
      Metadata(now, now, "user", f.tags.GetOr([]), false), f.config)
  }

  /** Append `id` to the children of the node stored under `p`. */
  function AdoptChild(nodes: map<string, Node>, p: string, id: string): map<string, Node>
    requires p in nodes
  {
    nodes[p := nodes[p].(children := nodes[p].children + [id])]
  }

  /**
   * `addDashboardNode` in memory: store the node, link it under an existing
   * parent, bump the version. Every old key stays, and a node that is not
   * its own parent is stored as built.
   */
  function WithNode(s: Structure, f: NodeFields, id: string, now: string): (r: Structure)
    ensures id in r.nodes && r.version == s.version + 1 && r.rootId == s.rootId
    ensures forall k | k in s.nodes :: k in r.nodes
    ensures f.parentId != Some(id) ==> r.nodes[id] == NewNode(f, id, now)
  {
    var n := NewNode(f, id, now);
    var nodes := s.nodes[id := n];
    var linked := if Truthy(n.parentId) && n.parentId.value in nodes then AdoptChild(nodes, n.parentId.value, id) else nodes;
    s.(nodes := linked, version := s.version + 1)
  }

  /** The keys of `updates.metadata` (its `updatedAt` is overwritten anyway). */
  datatype MetadataPatch = MetadataPatch(
    createdAt: Option<string>, createdBy: Option<string>, tags: Option<seq<string>>, isTemplate: Option<bool>)

  /** `Partial<DashboardNode>`: the keys an update may carry. */
  datatype NodePatch = NodePatch(
    id: Option<string>, name: Option<string>, nodeType: Option<string>, description: Option<string>,
    icon: Option<string>, color: Option<string>, parentId: Option<string>, children: Option<seq<string>>,
    position: Option<Point>, metadata: Option<MetadataPatch>, config: Option<Config>)

  /** `{...metadata, ...updates.metadata, updatedAt}`: the patch's keys win, `updatedAt` is `now`. */
  function MergedMetadata(m: Metadata, u: Option<MetadataPatch>, now: string): (r: Metadata)
    ensures MetadataPatchApplied(m, u, r) && r.updatedAt == now
  {
    match u
    case None => m.(updatedAt := now)
    case Some(p) =>
      m.(createdAt := p.createdAt.GetOr(m.createdAt), createdBy := p.createdBy.GetOr(m.createdBy),
         tags := p.tags.GetOr(m.tags), isTemplate := p.isTemplate.GetOr(m.isTemplate), updatedAt := now)
  }

  /**
   * `{...node, ...updates, id, metadata: merged}`: the update's keys win,
   * the requested id wins over any id in the update, and the metadata is
   * merged with a fresh `updatedAt`.
   */
  function PatchedNode(n: Node, u: NodePatch, id: string, now: string): (r: Node)
    ensures NodePatchApplied(n, u, r) && r.id == id && r.metadata.updatedAt == now
  {
    Node(id, u.name.GetOr(n.name), u.nodeType.GetOr(n.nodeType),
      if u.description.Some? then u.description else n.description,
      u.icon.GetOr(n.icon), u.color.GetOr(n.color),
      if u.parentId.Some? then u.parentId else n.parentId,
      u.children.GetOr(n.children), u.position.GetOr(n.position),
      MergedMetadata(n.metadata, u.metadata, now), u.config.GetOr(n.config))
  }

  /**
   * `updateDashboardNode` in memory: None exactly for an absent id; else the
   * new structure, with the same keys and one version up, holding the
   * returned node under the id.
   */
  function UpdatedStructure(s: Structure, id: string, u: NodePatch, now: string): (r: Option<(Structure, Node)>)
    ensures r.None? <==> id !in s.nodes
    ensures r.Some? ==> && r.value.0.nodes.Keys == s.nodes.Keys && r.value.0.version == s.version + 1
                        && r.value.0.nodes[id] == r.value.1 && r.value.1.id == id
  {
    if id !in s.nodes then None
    else
      var n := PatchedNode(s.nodes[id], u, id, now);
      Some((s.(nodes := s.nodes[id := n], version := s.version + 1), n))
  }

  /**
   * The patch an update request body becomes: the body's keys are spread
   * onto the node, so its top-level `tags` lands beside `metadata`, which
   * the node schema then drops.
   */
  function BodyPatch(p: DashboardPatch): (r: NodePatch)
    ensures r.metadata.None? && r.id.None? && r.children.None?
    ensures r.name == p.name && r.parentId == p.parentId
  {
    NodePatch(None, p.name, p.nodeType, p.description, p.icon, p.color, p.parentId, None, None, None, None)
  }

  /** Remove every occurrence of `id` from the children of the node stored under `p`. */
  function DropChild(nodes: map<string, Node>, p: string, id: string): map<string, Node>
    requires p in nodes
  {
    nodes[p := nodes[p].(children := Filter(nodes[p].children, (c: string) => c != id))]
  }

  /**
   * `deleteDashboardNode` in memory, on the snapshot it loaded: None for an
   * absent id or the root; else unlink the node from its parent, remove it,
   * and bump the version. The node's descendants stay in the snapshot.
   */
  function WithoutNode(s: Structure, id: string): (r: Option<Structure>)
    ensures r.None? <==> id !in s.nodes || id == s.rootId
    ensures r.Some? ==> r.value.nodes.Keys == s.nodes.Keys - {id} && r.value.version == s.version + 1
  {
    if id !in s.nodes || id == s.rootId then None
    else
      var n := s.nodes[id];
      var unlinked := if Truthy(n.parentId) && n.parentId.value in s.nodes then DropChild(s.nodes, n.parentId.value, id) else s.nodes;
      Some(s.(nodes := unlinked - {id}, version := s.version + 1))
  }

  /** One step of the breadcrumb: `{id: node.id, name: node.name, type: node.type}`. */
  datatype Crumb = Crumb(id: string, name: string, nodeType: string)

  function CrumbOf(n: Node): Crumb {
    Crumb(n.id, n.name, n.nodeType)
  }

  /**
   * The breadcrumb of the chain starting at `current`, root-most first,
   * following at most `fuel` parent links; None when the fuel runs out
   * before the chain ends.
   */
  function Walk(s: Structure, current: Option<string>, fuel: nat): (r: Option<seq<Crumb>>)
    decreases fuel
    ensures r.Some? ==> |r.value| <= fuel
    ensures r.Some? && Truthy(current) && current.value in s.nodes ==>
      r.value != [] && r.value[|r.value| - 1] == CrumbOf(s.nodes[current.value])
  {
    if !Truthy(current) || current.value !in s.nodes then Some([])
    else if fuel == 0 then None
    else
      match Walk(s, s.nodes[current.value].parentId, fuel - 1)
      case None => None
      case Some(path) => Some(path + [CrumbOf(s.nodes[current.value])])
  }

  /** The chain from `id` ends: `getBreadcrumbPath` terminates exactly on such ids. */
  predicate ChainEnds(s: Structure, id: string) {
    Walk(s, Some(id), |s.nodes|).Some?
  }

  // ---------------------------------------------------------------------
  // Properties of the in-memory operations.

  /** A node id that nothing in the structure refers to yet. */
  predicate Fresh(s: Structure, id: string) {
    && id != ""
    && id !in s.nodes
    && forall k | k in s.nodes :: s.nodes[k].parentId != Some(id)
  }

  /**
   * With a fresh id: the node is stored under it with `user` metadata and the
   * given tags (or none), an existing parent lists it as its last child, no
   * other node changes, and the version goes up by one.
   */
  lemma AddInserts(s: Structure, f: NodeFields, id: string, now: string)
    requires Fresh(s, id) && f.parentId != Some(id)
    ensures var r := WithNode(s, f, id, now);
      && r.nodes.Keys == s.nodes.Keys + {id}
      && r.nodes[id] == NewNode(f, id, now)
      && r.nodes[id].metadata == Metadata(now, now, "user", f.tags.GetOr([]), false)
      && r.version == s.version + 1 && r.rootId == s.rootId
      && (forall k | k in s.nodes && (f.parentId != Some(k) || k == "") :: r.nodes[k] == s.nodes[k])
      && (Truthy(f.parentId) && f.parentId.value in s.nodes ==>
            r.nodes[f.parentId.value] == s.nodes[f.parentId.value].(children := s.nodes[f.parentId.value].children + [id]))
  {
  }

  /** Inserting a fresh, childless node keeps the structure consistent and valid. */
  lemma AddPreservesConsistency(s: Structure, f: NodeFields, id: string, now: string)
    requires Consistent(s) && Fresh(s, id) && f.parentId != Some(id) && f.children == []
    requires ValidStructure(s) && |f.name| >= 1 && f.nodeType in NodeTypes && f.config.layout in Layouts
    ensures Consistent(WithNode(s, f, id, now)) && ValidStructure(WithNode(s, f, id, now))
  {
    var r := WithNode(s, f, id, now);
    AddKeepsChildLinks(s, f, id, now);
    AddKeepsParentLinks(s, f, id, now);
    AddKeepsNodesValid(s, f, id, now);
    assert "" !in r.nodes by {
      WithNodeKeys(s, f, id, now);
    }
  }

  /** Adding a node adds exactly its key. */
  lemma WithNodeKeys(s: Structure, f: NodeFields, id: string, now: string)
    ensures WithNode(s, f, id, now).nodes.Keys == s.nodes.Keys + {id}
  {
  }

  /** Every stored node keeps its key as its id and passes the node schema. */
  lemma AddKeepsNodesValid(s: Structure, f: NodeFields, id: string, now: string)
    requires Consistent(s) && ValidStructure(s) && |f.name| >= 1 && f.nodeType in NodeTypes && f.config.layout in Layouts
    ensures var r := WithNode(s, f, id, now);
      forall k | k in r.nodes :: r.nodes[k].id == k && ValidNode(r.nodes[k])
  {
    var r := WithNode(s, f, id, now);
    forall k | k in r.nodes ensures r.nodes[k].id == k && ValidNode(r.nodes[k]) {
      if k != id {
        assert r.nodes[k].id == s.nodes[k].id && r.nodes[k].name == s.nodes[k].name;
        assert r.nodes[k].nodeType == s.nodes[k].nodeType && r.nodes[k].config == s.nodes[k].config;
      }
    }
  }

  /** Every child the new structure lists points back at its parent. */
  lemma AddKeepsChildLinks(s: Structure, f: NodeFields, id: string, now: string)
    requires Consistent(s) && Fresh(s, id) && f.parentId != Some(id) && f.children == []
    ensures var r := WithNode(s, f, id, now);
      forall k, c | k in r.nodes && c in r.nodes[k].children :: c in r.nodes && r.nodes[c].parentId == Some(k)
  {
    var r := WithNode(s, f, id, now);
    forall k, c | k in r.nodes && c in r.nodes[k].children
      ensures c in r.nodes && r.nodes[c].parentId == Some(k)
    {
      assert k != id;
      if f.parentId == Some(k) {
        assert r.nodes[k].children == s.nodes[k].children + [id];
        if c != id {
          assert c in s.nodes[k].children;
        }
      } else {
        assert r.nodes[k] == s.nodes[k];
        assert c in s.nodes[k].children;
      }
    }
  }

  /** Every node whose parent is stored is listed among that parent's children. */
  lemma AddKeepsParentLinks(s: Structure, f: NodeFields, id: string, now: string)
    requires Consistent(s) && Fresh(s, id) && f.parentId != Some(id)
    ensures var r := WithNode(s, f, id, now);
      forall k | k in r.nodes && r.nodes[k].parentId.Some? && r.nodes[k].parentId.value in r.nodes ::
        k in r.nodes[r.nodes[k].parentId.value].children
  {
    var r := WithNode(s, f, id, now);
    forall k | k in r.nodes && r.nodes[k].parentId.Some? && r.nodes[k].parentId.value in r.nodes
      ensures k in r.nodes[r.nodes[k].parentId.value].children
    {
      var q := r.nodes[k].parentId.value;
      if k == id {
        assert r.nodes[q].children == s.nodes[q].children + [id];
      } else {
        assert r.nodes[k].parentId == s.nodes[k].parentId;
        assert q != id;
        assert k in s.nodes[q].children;
      }
    }
  }

  /**
   * Updating an absent id gives nothing. Updating a present one stores a
   * node that keeps the requested id whatever the patch says, takes every
   * key the patch has, merges metadata with `updatedAt` refreshed, leaves
   * the other nodes alone, and bumps the version.
   */
  lemma UpdatePinsId(s: Structure, id: string, u: NodePatch, now: string)
    ensures UpdatedStructure(s, id, u, now).None? <==> id !in s.nodes
    ensures UpdatedStructure(s, id, u, now).Some? ==>
      var (r, n) := UpdatedStructure(s, id, u, now).value;
      && n.id == id && r.nodes[id] == n && r.nodes.Keys == s.nodes.Keys
      && (forall k | k in s.nodes && k != id :: r.nodes[k] == s.nodes[k])
      && r.version == s.version + 1 && r.rootId == s.rootId
      && (u.name.Some? ==> n.name == u.name.value) && (u.name.None? ==> n.name == s.nodes[id].name)
      && (u.parentId.None? ==> n.parentId == s.nodes[id].parentId)
      && n.metadata.updatedAt == now
      && (u.metadata.Some? && u.metadata.value.tags.Some? ==> n.metadata.tags == u.metadata.value.tags.value)
      && (u.metadata.None? ==> n.metadata == s.nodes[id].metadata.(updatedAt := now))
      && NodePatchApplied(s.nodes[id], u, n)
  {
    if id in s.nodes {
    }
  }

  /**
   * The result `r` of spreading the update `u` over the node `n`: every key
   * the update carries wins and every key it lacks keeps `n`'s value.
   */
  predicate NodePatchApplied(n: Node, u: NodePatch, r: Node) {
    && (u.name.Some? ==> r.name == u.name.value) && (u.name.None? ==> r.name == n.name)
    && (u.nodeType.Some? ==> r.nodeType == u.nodeType.value) && (u.nodeType.None? ==> r.nodeType == n.nodeType)
    && (u.description.Some? ==> r.description == u.description)
    && (u.description.None? ==> r.description == n.description)
    && (u.icon.Some? ==> r.icon == u.icon.value) && (u.icon.None? ==> r.icon == n.icon)
    && (u.color.Some? ==> r.color == u.color.value) && (u.color.None? ==> r.color == n.color)
    && (u.parentId.Some? ==> r.parentId == u.parentId) && (u.parentId.None? ==> r.parentId == n.parentId)
    && (u.children.Some? ==> r.children == u.children.value) && (u.children.None? ==> r.children == n.children)
    && (u.position.Some? ==> r.position == u.position.value) && (u.position.None? ==> r.position == n.position)
    && (u.config.Some? ==> r.config == u.config.value) && (u.config.None? ==> r.config == n.config)
    && MetadataPatchApplied(n.metadata, u.metadata, r.metadata)
  }

  /**
   * The merged metadata `r`: each key `updates.metadata` carries wins, the
   * others keep their value; `updatedAt` is left to the caller.
   */
  predicate MetadataPatchApplied(m: Metadata, u: Option<MetadataPatch>, r: Metadata) {
    var p := u.GetOr(MetadataPatch(None, None, None, None));
    && (p.createdAt.Some? ==> r.createdAt == p.createdAt.value) && (p.createdAt.None? ==> r.createdAt == m.createdAt)
    && (p.createdBy.Some? ==> r.createdBy == p.createdBy.value) && (p.createdBy.None? ==> r.createdBy == m.createdBy)
    && (p.tags.Some? ==> r.tags == p.tags.value) && (p.tags.None? ==> r.tags == m.tags)
    && (p.isTemplate.Some? ==> r.isTemplate == p.isTemplate.value)
    && (p.isTemplate.None? ==> r.isTemplate == m.isTemplate)
  }

  /** An update request body never changes a node's tags or metadata other than `updatedAt`. */
  lemma BodyTagsAreIgnored(s: Structure, id: string, p: DashboardPatch, now: string)
    requires id in s.nodes
    ensures UpdatedStructure(s, id, BodyPatch(p), now).value.1.metadata == s.nodes[id].metadata.(updatedAt := now)
  {
  }

  /** An update that leaves `parentId` and `children` alone keeps the structure consistent. */
  lemma UpdatePreservesConsistency(s: Structure, id: string, u: NodePatch, now: string)
    requires Consistent(s) && u.parentId.None? && u.children.None?
    ensures UpdatedStructure(s, id, u, now).Some? ==> Consistent(UpdatedStructure(s, id, u, now).value.0)
  {
    if id in s.nodes {
      var r := UpdatedStructure(s, id, u, now).value.0;
      assert forall k | k in r.nodes ::
        r.nodes[k].id == s.nodes[k].id && r.nodes[k].parentId == s.nodes[k].parentId && r.nodes[k].children == s.nodes[k].children;
      SameLinksConsistent(s, r);
    }
  }

  /** A structure with the same keys, root, ids and links as a consistent one is consistent. */
  lemma SameLinksConsistent(s: Structure, r: Structure)
    requires Consistent(s) && r.nodes.Keys == s.nodes.Keys && r.rootId == s.rootId
    requires forall k | k in r.nodes ::
      r.nodes[k].id == s.nodes[k].id && r.nodes[k].parentId == s.nodes[k].parentId && r.nodes[k].children == s.nodes[k].children
    ensures Consistent(r)
  {
  }

  /**
   * Deleting refuses an absent id and the root. Otherwise the node is gone,
   * its parent no longer lists it, every other node is as before, and the
   * version goes up by one.
   */
  lemma DeleteUnlinks(s: Structure, id: string)
    ensures WithoutNode(s, id).None? <==> id !in s.nodes || id == s.rootId
    ensures WithoutNode(s, id).Some? ==>
      var r := WithoutNode(s, id).value;
      && r.nodes.Keys == s.nodes.Keys - {id}
      && r.version == s.version + 1 && r.rootId == s.rootId
      && (forall k | k in r.nodes :: id !in r.nodes[k].children || s.nodes[id].parentId != Some(k) || k == "")
      && (forall k | k in r.nodes && s.nodes[id].parentId != Some(k) :: r.nodes[k] == s.nodes[k])
      && (forall k | k in r.nodes && s.nodes[id].parentId == Some(k) && k != "" ::
            r.nodes[k] == s.nodes[k].(children := Filter(s.nodes[k].children, (c: string) => c != id)))
  {
  }

  /** In a consistent structure a delete leaves every child list naming stored nodes that point back. */
  lemma DeleteKeepsChildLinks(s: Structure, id: string)
    requires Consistent(s) && WithoutNode(s, id).Some?
    ensures var r := WithoutNode(s, id).value;
      forall k, c | k in r.nodes && c in r.nodes[k].children :: c in r.nodes && r.nodes[c].parentId == Some(k)
  {
    DeletedNodes(s, id);
    ChildLinksKept(s, WithoutNode(s, id).value, id);
  }

  /** Child links survive dropping `id` from the map and some children from their lists. */
  lemma ChildLinksKept(s: Structure, r: Structure, id: string)
    requires Consistent(s)
    requires r.nodes.Keys == s.nodes.Keys - {id}
    requires forall k | k in r.nodes :: r.nodes[k].parentId == s.nodes[k].parentId
    requires forall k, c | k in r.nodes && c in r.nodes[k].children :: c in s.nodes[k].children && c != id
    ensures forall k, c | k in r.nodes && c in r.nodes[k].children :: c in r.nodes && r.nodes[c].parentId == Some(k)
  {
    forall k, c | k in r.nodes && c in r.nodes[k].children
      ensures c in r.nodes && r.nodes[c].parentId == Some(k)
    {
      assert c in s.nodes[k].children;
    }
  }

  /**
   * The nodes a delete leaves: all but `id`, each with its parent link, and
   * each listing only children it listed before, never `id`.
   */
  lemma DeletedNodes(s: Structure, id: string)
    requires Consistent(s) && WithoutNode(s, id).Some?
    ensures var r := WithoutNode(s, id).value;
      && r.nodes.Keys == s.nodes.Keys - {id}
      && (forall k | k in r.nodes :: r.nodes[k].parentId == s.nodes[k].parentId)
      && (forall k, c | k in r.nodes && c in r.nodes[k].children :: c in s.nodes[k].children && c != id)
  {
    var r := WithoutNode(s, id).value;
    forall k, c | k in r.nodes && c in r.nodes[k].children
      ensures c in s.nodes[k].children && c != id
    {
      if s.nodes[id].parentId == Some(k) {
        assert r.nodes[k].children == Filter(s.nodes[k].children, (x: string) => x != id);
        assert c in s.nodes[k].children && c != id;
      } else {
        assert r.nodes[k] == s.nodes[k];
        assert c in s.nodes[k].children;
      }
    }
  }

  /** In a consistent structure a delete leaves every node with a stored parent listed by it. */
  lemma DeleteKeepsParentLinks(s: Structure, id: string)
    requires Consistent(s) && WithoutNode(s, id).Some?
    ensures var r := WithoutNode(s, id).value;
      forall k | k in r.nodes && r.nodes[k].parentId.Some? && r.nodes[k].parentId.value in r.nodes ::
        k in r.nodes[r.nodes[k].parentId.value].children
  {
    var r := WithoutNode(s, id).value;
    var p := s.nodes[id].parentId;
    forall k | k in r.nodes && r.nodes[k].parentId.Some? && r.nodes[k].parentId.value in r.nodes
      ensures k in r.nodes[r.nodes[k].parentId.value].children
    {
      var q := r.nodes[k].parentId.value;
      if p == Some(k) {
        assert r.nodes[k].parentId == s.nodes[k].parentId;
      } else {
        assert r.nodes[k] == s.nodes[k];
      }
      assert k in s.nodes[q].children;
      if p == Some(q) {
        assert r.nodes[q].children == Filter(s.nodes[q].children, (x: string) => x != id);
      } else {
        assert r.nodes[q] == s.nodes[q];
      }
    }
  }

  /** A delete keeps a consistent, valid structure consistent and valid. */
  lemma DeletePreservesConsistency(s: Structure, id: string)
    requires Consistent(s) && ValidStructure(s)
    ensures WithoutNode(s, id).Some? ==> Consistent(WithoutNode(s, id).value) && ValidStructure(WithoutNode(s, id).value)
  {
    if WithoutNode(s, id).Some? {
      var r := WithoutNode(s, id).value;
      DeleteKeepsChildLinks(s, id);
      DeleteKeepsParentLinks(s, id);
      assert forall k | k in r.nodes :: r.nodes[k].id == k && ValidNode(r.nodes[k]) by {
        forall k | k in r.nodes ensures r.nodes[k].id == k && ValidNode(r.nodes[k]) {
          assert r.nodes[k].id == s.nodes[k].id && r.nodes[k].name == s.nodes[k].name;
          assert r.nodes[k].nodeType == s.nodes[k].nodeType && r.nodes[k].config == s.nodes[k].config;
        }
      }
    }
  }

  /** The breadcrumb of an id that is empty or not stored is empty. */
  lemma WalkUnknown(s: Structure, id: string, fuel: nat)
    requires id == "" || id !in s.nodes
    ensures Walk(s, Some(id), fuel) == Some([])
  {
  }

  /**
   * A finished breadcrumb ends with the node itself, every crumb is a stored
   * node, each crumb's parent is the crumb before it, and the first crumb
   * has no stored parent.
   */
  lemma {:induction false} WalkLinks(s: Structure, current: Option<string>, fuel: nat)
    requires forall k | k in s.nodes :: s.nodes[k].id == k
    requires Walk(s, current, fuel).Some?
    decreases fuel
    ensures var path := Walk(s, current, fuel).value;
      && (Truthy(current) && current.value in s.nodes ==>
            |path| > 0 && path[|path| - 1] == CrumbOf(s.nodes[current.value]))
      && (forall i | 0 <= i < |path| :: path[i].id in s.nodes && path[i] == CrumbOf(s.nodes[path[i].id]))
      && (forall i | 0 < i < |path| :: s.nodes[path[i].id].parentId == Some(path[i - 1].id))
      && (|path| > 0 ==> var first := s.nodes[path[0].id].parentId;
                          !Truthy(first) || first.value !in s.nodes)
  {
    if Truthy(current) && current.value in s.nodes {
      var parent := s.nodes[current.value].parentId;
      WalkLinks(s, parent, fuel - 1);
      var prefix := Walk(s, parent, fuel - 1).value;
      var path := Walk(s, current, fuel).value;
      assert path == prefix + [CrumbOf(s.nodes[current.value])];
      if prefix != [] {
        assert Truthy(parent) && parent.value in s.nodes;
        assert prefix[|prefix| - 1].id == parent.value;
      }
    }
  }

  /** The walk does not depend on the fuel once it has enough. */
  lemma {:induction false} WalkFuel(s: Structure, current: Option<string>, fuel: nat, more: nat)
    requires Walk(s, current, fuel).Some? && fuel <= more
    ensures Walk(s, current, more) == Walk(s, current, fuel)
    decreases fuel
  {
    if Truthy(current) && current.value in s.nodes {
      WalkFuel(s, s.nodes[current.value].parentId, fuel - 1, more - 1);
    }
  }

  /** `getBreadcrumbPath`'s loop: prepend a crumb, move to the parent, until the chain leaves the map. */
  method BreadcrumbPath(s: Structure, nodeId: string) returns (path: seq<Crumb>)
    requires ChainEnds(s, nodeId)
    ensures Some(path) == Walk(s, Some(nodeId), |s.nodes|)
  {
    path := [];
    var currentId := Some(nodeId);
    ghost var fuel: nat := |s.nodes|;
    while Truthy(currentId) && currentId.value in s.nodes
      invariant Walk(s, currentId, fuel).Some?
      invariant Walk(s, Some(nodeId), |s.nodes|).value == Walk(s, currentId, fuel).value + path
      decreases fuel
    {
      var node := s.nodes[currentId.value];
      ghost var rest := Walk(s, node.parentId, fuel - 1).value;
      assert Walk(s, currentId, fuel).value == rest + [CrumbOf(node)];
      path := [CrumbOf(node)] + path;
      currentId := node.parentId;
      fuel := fuel - 1;
    }
    assert Walk(s, currentId, fuel) == Some([]);
    assert Walk(s, Some(nodeId), |s.nodes|).value == [] + path;
    assert [] + path == path;
  }

  /** A node that is its own parent: the chain from it never ends, whatever the fuel. */
  lemma {:induction false} SelfLoopNeverEnds(s: Structure, id: string, fuel: nat)
    requires id != "" && id in s.nodes && s.nodes[id].parentId == Some(id)
    ensures Walk(s, Some(id), fuel).None?
    decreases fuel
  {
    if fuel > 0 {
      SelfLoopNeverEnds(s, id, fuel - 1);
    }
  }

  /**
   * As written, `updateDashboardNode` stores a patch whose `parentId` is the
   * node's own id, and from then on `getBreadcrumbPath` on that node loops
   * for ever: the chain from it never ends.
   */
  lemma SelfParentUpdateHangs(s: Structure, id: string, u: NodePatch, now: string)
    requires id != "" && id in s.nodes && u.parentId == Some(id)
    ensures UpdatedStructure(s, id, u, now).Some?
    ensures !ChainEnds(UpdatedStructure(s, id, u, now).value.0, id)
  {
    var r := UpdatedStructure(s, id, u, now).value.0;
    SelfLoopNeverEnds(r, id, |r.nodes|);
  }

  /**
   * The breadcrumb as intended: the walk up the parent chain also stops at
   * an id it has already visited, so it ends on every structure.
   */
  function SafeWalk(s: Structure, current: Option<string>, seen: set<string>): seq<Crumb>
    decreases s.nodes.Keys - seen
  {
    if !Truthy(current) || current.value !in s.nodes || current.value in seen then []
    else
      assert s.nodes.Keys - (seen + {current.value}) < s.nodes.Keys - seen;
      SafeWalk(s, s.nodes[current.value].parentId, seen + {current.value}) + [CrumbOf(s.nodes[current.value])]
  }

  /**
   * The intended breadcrumb ends with the node itself, every crumb is a
   * stored node visited once, each crumb's parent is the crumb before it,
   * and the first crumb's parent is not stored or was already visited.
   */
  lemma {:induction false} SafeWalkLinks(s: Structure, current: Option<string>, seen: set<string>)
    requires forall k | k in s.nodes :: s.nodes[k].id == k
    decreases s.nodes.Keys - seen
    ensures var path := SafeWalk(s, current, seen);
      && (Truthy(current) && current.value in s.nodes && current.value !in seen ==>
            |path| > 0 && path[|path| - 1] == CrumbOf(s.nodes[current.value]))
      && (forall i | 0 <= i < |path| :: path[i].id in s.nodes && path[i].id !in seen && path[i] == CrumbOf(s.nodes[path[i].id]))
      && (forall i, j | 0 <= i < j < |path| :: path[i].id != path[j].id)
      && (forall i | 0 < i < |path| :: s.nodes[path[i].id].parentId == Some(path[i - 1].id))
      && (|path| > 0 ==> var first := s.nodes[path[0].id].parentId;
                          !Truthy(first) || first.value !in s.nodes || first.value in seen
                          || exists i | 0 <= i < |path| :: path[i].id == first.value)
  {
    if Truthy(current) && current.value in s.nodes && current.value !in seen {
      var c := current.value;
      var parent := s.nodes[c].parentId;
      assert s.nodes.Keys - (seen + {c}) < s.nodes.Keys - seen;
      SafeWalkLinks(s, parent, seen + {c});
      var prefix := SafeWalk(s, parent, seen + {c});
      var path := SafeWalk(s, current, seen);
      assert path == prefix + [CrumbOf(s.nodes[c])];
      assert path[|path| - 1].id == c;
      if prefix != [] {
        assert Truthy(parent) && parent.value in s.nodes;
        assert prefix[|prefix| - 1].id == parent.value;
        var first := s.nodes[prefix[0].id].parentId;
        assert path[0] == prefix[0];
        if Truthy(first) && first.value in s.nodes && first.value !in seen {
          if first.value == c {
            assert path[|path| - 1].id == first.value;
          } else {
            var i :| 0 <= i < |prefix| && prefix[i].id == first.value;
            assert path[i] == prefix[i];
          }
        }
      } else {
        assert path[0].id == c;
        var first := s.nodes[c].parentId;
        if Truthy(first) && first.value in s.nodes && first.value !in seen {
          assert first.value == c;
        }
      }
    }
  }

  /** The crumbs of a finished walk up to a crumb are that crumb's own walk. */
  lemma {:induction false} WalkSuffix(s: Structure, current: Option<string>, fuel: nat, i: int)
    requires forall k | k in s.nodes :: s.nodes[k].id == k
    requires Walk(s, current, fuel).Some? && 0 <= i < |Walk(s, current, fuel).value|
    ensures var path := Walk(s, current, fuel).value;
      Walk(s, Some(path[i].id), fuel) == Some(path[..i + 1])
    decreases fuel
  {
    var path := Walk(s, current, fuel).value;
    var c := current.value;
    var parent := s.nodes[c].parentId;
    var prefix := Walk(s, parent, fuel - 1).value;
    assert path == prefix + [CrumbOf(s.nodes[c])];
    if i == |prefix| {
      assert path[..i + 1] == path;
    } else {
      WalkSuffix(s, parent, fuel - 1, i);
      WalkFuel(s, Some(prefix[i].id), fuel - 1, fuel);
      assert path[..i + 1] == prefix[..i + 1];
    }
  }

  /** A finished walk never comes back to the node it started from. */
  lemma WalkNoReturn(s: Structure, id: string, fuel: nat)
    requires forall k | k in s.nodes :: s.nodes[k].id == k
    requires id != "" && id in s.nodes && Walk(s, Some(id), fuel).Some?
    ensures forall cr | cr in Walk(s, s.nodes[id].parentId, fuel - 1).value :: cr.id != id
  {
    var prefix := Walk(s, s.nodes[id].parentId, fuel - 1).value;
    forall i | 0 <= i < |prefix| ensures prefix[i].id != id {
      if prefix[i].id == id {
        WalkSuffix(s, s.nodes[id].parentId, fuel - 1, i);
        WalkFuel(s, Some(id), fuel - 1, fuel);
      }
    }
  }

  /**
   * Where the chain ends, the intended breadcrumb is the one the loop as
   * written produces: the extra stop never fires on such chains.
   */
  lemma {:induction false} SafeWalkAgrees(s: Structure, current: Option<string>, fuel: nat, seen: set<string>)
    requires forall k | k in s.nodes :: s.nodes[k].id == k
    requires Walk(s, current, fuel).Some?
    requires forall i | 0 <= i < |Walk(s, current, fuel).value| :: Walk(s, current, fuel).value[i].id !in seen
    ensures SafeWalk(s, current, seen) == Walk(s, current, fuel).value
    decreases fuel
  {
    if Truthy(current) && current.value in s.nodes {
      var c := current.value;
      var parent := s.nodes[c].parentId;
      var prefix := Walk(s, parent, fuel - 1).value;
      var path := Walk(s, current, fuel).value;
      assert path == prefix + [CrumbOf(s.nodes[c])];
      assert path[|prefix|].id == c;
      WalkNoReturn(s, c, fuel);
      forall i | 0 <= i < |prefix| ensures prefix[i].id !in seen + {c} {
        assert prefix[i] == path[i];
        assert prefix[i] in prefix;
      }
      SafeWalkAgrees(s, parent, fuel - 1, seen + {c});
    }
  }

  /** On a chain that ends, the intended breadcrumb equals the one as written. */
  lemma SafeBreadcrumbAgrees(s: Structure, id: string)
    requires forall k | k in s.nodes :: s.nodes[k].id == k
    requires ChainEnds(s, id)
    ensures SafeWalk(s, Some(id), {}) == Walk(s, Some(id), |s.nodes|).value
  {
    SafeWalkAgrees(s, Some(id), |s.nodes|, {});
  }

  /** On the self-parent node the intended breadcrumb is that node alone. */
  lemma SafeWalkSelfParent(s: Structure, id: string)
    requires id != "" && id in s.nodes && s.nodes[id].parentId == Some(id)
    ensures SafeWalk(s, Some(id), {}) == [CrumbOf(s.nodes[id])]
  {
    assert SafeWalk(s, Some(id), {id}) == [];
  }

  /** The intended loop: `getBreadcrumbPath` with a set of visited ids. */
  method SafeBreadcrumbPath(s: Structure, nodeId: string) returns (path: seq<Crumb>)
    ensures path == SafeWalk(s, Some(nodeId), {})
  {
    path := [];
    var currentId := Some(nodeId);
    var seen: set<string> := {};
    while Truthy(currentId) && currentId.value in s.nodes && currentId.value !in seen
      invariant SafeWalk(s, Some(nodeId), {}) == SafeWalk(s, currentId, seen) + path
      decreases s.nodes.Keys - seen
    {
      var node := s.nodes[currentId.value];
      assert s.nodes.Keys - (seen + {currentId.value}) < s.nodes.Keys - seen;
      path := [CrumbOf(node)] + path;
      seen := seen + {currentId.value};
      currentId := node.parentId;
    }
  }

  // ---------------------------------------------------------------------
  // The store: the structure file and the shared backup directory.

  class DashboardStore {
    var file: TreeFile
    const dir: BackupDir

    constructor (file: TreeFile, dir: BackupDir)
      ensures this.file == file && this.dir == dir
    {
      this.file := file;
      this.dir := dir;
    }

    /** `atomicWrite`: back up the current file if there is one, then replace it. */
    method Write(s: Structure, now: string)
      modifies this, dir
      ensures file == Parsed(s)
      ensures dir.names == BackedUp(old(file), old(dir.names), Prefix, now)
    {
      if !file.Missing? {
        dir.Backup(Prefix, now);
      }
      file := Parsed(s);
    }

    /** `loadDashboardStructure`: a missing, unparsable or off-schema file is replaced by the default. */
    method Load(now: string) returns (s: Structure)
      modifies this, dir
      ensures s == LoadedStructure(old(file), now) && ValidStructure(s)
      ensures file == FileAfterLoad(old(file), now)
      ensures dir.names == NamesAfterLoad(old(file), old(dir.names), now)
    {
      if LoadsCleanly(file) {
        s := file.data;
      } else {
        s := DefaultStructure(now);
        Write(s, now);
      }
    }

    /** `saveDashboardStructure`: an off-schema structure is refused before anything is written. */
    method Save(s: Structure, now: string) returns (r: Result<Structure>)
      modifies this, dir
      ensures r == Stamped(s, now)
      ensures r.Ok? ==> file == Parsed(r.value) && dir.names == BackedUp(old(file), old(dir.names), Prefix, now)
      ensures r.Err? ==> file == old(file) && dir.names == old(dir.names)
    {
      r := Stamped(s, now);
      if r.Ok? {
        Write(r.value, now);
      }
    }

    /** `getDashboardNode`. */
    method GetNode(id: string, now: string) returns (r: Option<Node>)
      modifies this, dir
      ensures r == NodeById(LoadedStructure(old(file), now), id)
      ensures file == FileAfterLoad(old(file), now)
      ensures dir.names == NamesAfterLoad(old(file), old(dir.names), now)
    {
      var s := Load(now);
      if id in s.nodes {
        r := Some(s.nodes[id]);
      } else {
        r := None;
      }
    }

    /** `addDashboardNode` with the fresh id `id`: store, link under the parent, bump, save. */
    method AddNode(f: NodeFields, id: string, now: string) returns (r: Result<Node>)
      modifies this, dir
      ensures var s := WithNode(LoadedStructure(old(file), now), f, id, now);
        && (r.Ok? <==> Stamped(s, now).Ok?)
        && (r.Ok? ==> (r.value == NewNode(f, id, now) && file == Parsed(Stamped(s, now).value)
              && dir.names == BackedUp(FileAfterLoad(old(file), now), NamesAfterLoad(old(file), old(dir.names), now), Prefix, now)))
        && (r.Err? ==> (file == FileAfterLoad(old(file), now)
              && dir.names == NamesAfterLoad(old(file), old(dir.names), now)))
    {
      var s := Load(now);
      var saved := Save(WithNode(s, f, id, now), now);
      if saved.Ok? {
        r := Ok(NewNode(f, id, now));
      } else {
        r := Err(saved.error);
      }
    }

    /** `updateDashboardNode`: an absent id gives `null` and no save. */
    method UpdateNode(id: string, u: NodePatch, now: string) returns (r: Result<Option<Node>>)
      modifies this, dir
      ensures var up := UpdatedStructure(LoadedStructure(old(file), now), id, u, now);
        && (up.None? ==> (r == Ok(None) && file == FileAfterLoad(old(file), now)
              && dir.names == NamesAfterLoad(old(file), old(dir.names), now)))
        && (up.Some? ==> (r.Ok? <==> Stamped(up.value.0, now).Ok?))
        && (up.Some? && r.Ok? ==> (r.value == Some(up.value.1) && file == Parsed(Stamped(up.value.0, now).value)
              && dir.names == BackedUp(FileAfterLoad(old(file), now), NamesAfterLoad(old(file), old(dir.names), now), Prefix, now)))
        && (up.Some? && r.Err? ==> (file == FileAfterLoad(old(file), now)
              && dir.names == NamesAfterLoad(old(file), old(dir.names), now)))
    {
      var s := Load(now);
      var up := UpdatedStructure(s, id, u, now);
      if up.None? {
        return Ok(None);
      }
      var saved := Save(up.value.0, now);
      if saved.Ok? {
        r := Ok(Some(up.value.1));
      } else {
        r := Err(saved.error);
      }
    }

    /**
     * `deleteDashboardNode` as it ends on disk: the outer call saves the
     * snapshot it loaded before recursing, so only the node itself goes.
     */
    method DeleteNode(id: string, now: string) returns (r: Result<bool>)
      modifies this, dir
      ensures var del := WithoutNode(LoadedStructure(old(file), now), id);
        && (del.None? ==> (r == Ok(false) && file == FileAfterLoad(old(file), now)
              && dir.names == NamesAfterLoad(old(file), old(dir.names), now)))
        && (del.Some? ==> (r.Ok? <==> Stamped(del.value, now).Ok?) && (r.Ok? ==> r == Ok(true)))
        && (del.Some? && r.Ok? ==> (file == Parsed(Stamped(del.value, now).value)
              && dir.names == BackedUp(FileAfterLoad(old(file), now), NamesAfterLoad(old(file), old(dir.names), now), Prefix, now)))
        && (del.Some? && r.Err? ==> (file == FileAfterLoad(old(file), now)
              && dir.names == NamesAfterLoad(old(file), old(dir.names), now)))
    {
      var s := Load(now);
      var del := WithoutNode(s, id);
      if del.None? {
        return Ok(false);
      }
      var saved := Save(del.value, now);
      if saved.Ok? {
        r := Ok(true);
      } else {
        r := Err(saved.error);
      }
    }

    /**
     * `getBreadcrumbPath` on the loaded structure, with the loop that stops
     * at a visited id: on a chain that ends it is the loop as written, and
     * on a parent cycle it ends where the loop as written would not.
     */
    method GetBreadcrumbPath(nodeId: string, now: string) returns (path: seq<Crumb>)
      modifies this, dir
      ensures path == SafeWalk(LoadedStructure(old(file), now), Some(nodeId), {})
      ensures var s := LoadedStructure(old(file), now);
        (forall k | k in s.nodes :: s.nodes[k].id == k) && ChainEnds(s, nodeId) ==>
          Some(path) == Walk(s, Some(nodeId), |s.nodes|)
      ensures file == FileAfterLoad(old(file), now)
      ensures dir.names == NamesAfterLoad(old(file), old(dir.names), now)
    {
      var s := Load(now);
      path := SafeBreadcrumbPath(s, nodeId);
      if (forall k | k in s.nodes :: s.nodes[k].id == k) && ChainEnds(s, nodeId) {
        SafeBreadcrumbAgrees(s, nodeId);
      }
    }
  }
}
