/** Resolving workspace references, with and without the per-client cache (clients/akuity/client.go). */
module WorkspaceCache {
  import opened Wrappers

  datatype Workspace = Workspace(id: string, name: string, isDefault: bool)
  datatype Instance = Instance(id: string, name: string, workspaceID: string)

  /** A fixed platform; `hasOrg` says whether the client was given an organization gateway. */
  datatype Server = Server(hasOrg: bool, workspaces: seq<Workspace>, argo: seq<Instance>, kargo: seq<Instance>)

  /** Which of the platform's lists can be reached during one lookup. */
  datatype Up = Up(workspaces: bool, instances: bool)
  const ALL_UP := Up(true, true)
  datatype Failure = Absent | Rejected | Unreachable

  type Answer = Result<string, Failure>

  // ----- What the platform answers -----

  function FirstDefault(ws: seq<Workspace>): Option<Workspace> {
    if ws == [] then None else if ws[0].isDefault then Some(ws[0]) else FirstDefault(ws[1..])
  }

  function FirstWithID(ws: seq<Workspace>, id: string): Option<Workspace> {
    if ws == [] then None else if ws[0].id == id then Some(ws[0]) else FirstWithID(ws[1..], id)
  }

  function FirstNamed(ws: seq<Workspace>, name: string): Option<Workspace> {
    if ws == [] then None else if ws[0].name == name then Some(ws[0]) else FirstNamed(ws[1..], name)
  }

  /** The default when nothing is named; otherwise an ID match wins over any name match. */
  function FindWorkspace(ws: seq<Workspace>, ref: string): Option<Workspace> {
    if ref == "" then FirstDefault(ws)
    else if FirstWithID(ws, ref).Some? then FirstWithID(ws, ref)
    else FirstNamed(ws, ref)
  }

  lemma {:induction false} FoundDefault(ws: seq<Workspace>) returns (i: nat)
    ensures match FirstDefault(ws)
      case None => forall w | w in ws :: !w.isDefault
      case Some(w) => i < |ws| && ws[i] == w && w.isDefault && forall j | 0 <= j < i :: !ws[j].isDefault
    decreases |ws|
  {
    i := 0;
    if ws != [] && !ws[0].isDefault {
      i := FoundDefault(ws[1..]);
      i := i + 1;
    }
  }

  lemma {:induction false} FoundID(ws: seq<Workspace>, id: string) returns (i: nat)
    ensures match FirstWithID(ws, id)
      case None => forall w | w in ws :: w.id != id
      case Some(w) => i < |ws| && ws[i] == w && w.id == id && forall j | 0 <= j < i :: ws[j].id != id
    decreases |ws|
  {
    i := 0;
    if ws != [] && ws[0].id != id {
      i := FoundID(ws[1..], id);
      i := i + 1;
    }
  }

  lemma {:induction false} FoundName(ws: seq<Workspace>, name: string) returns (i: nat)
    ensures match FirstNamed(ws, name)
      case None => forall w | w in ws :: w.name != name
      case Some(w) => i < |ws| && ws[i] == w && w.name == name && forall j | 0 <= j < i :: ws[j].name != name
    decreases |ws|
  {
    i := 0;
    if ws != [] && ws[0].name != name {
      i := FoundName(ws[1..], name);
      i := i + 1;
    }
  }

  /** A reference finds the first workspace it qualifies: the empty one a default workspace, any other the workspace
      of that ID, wherever it stands, and only where there is none a workspace of that name. */
  lemma FindsExactly(ws: seq<Workspace>, ref: string) returns (i: nat)
    ensures match FindWorkspace(ws, ref)
      case None =>
        if ref == "" then forall w | w in ws :: !w.isDefault else forall w | w in ws :: w.id != ref && w.name != ref
      case Some(w) =>
        && i < |ws| && ws[i] == w
        && if ref == "" then w.isDefault && forall j | 0 <= j < i :: !ws[j].isDefault
           else if exists x :: x in ws && x.id == ref then w.id == ref && forall j | 0 <= j < i :: ws[j].id != ref
           else w.name == ref && forall j | 0 <= j < i :: ws[j].name != ref
  {
    var d := FoundDefault(ws);
    var k := FoundID(ws, ref);
    var n := FoundName(ws, ref);
    i := if ref == "" then d else if FirstWithID(ws, ref).Some? then k else n;
  }

  /** One scan finds it: an ID match ends the scan, the first name match waits for its end. */
  method ResolveWorkspace(ws: seq<Workspace>, name: string) returns (found: Option<Workspace>)
    ensures found == FindWorkspace(ws, name)
  {
    var nameMatch := None;
    for i := 0 to |ws|
      invariant name == "" ==> FirstDefault(ws) == FirstDefault(ws[i..])
      invariant name != "" ==> FirstWithID(ws, name) == FirstWithID(ws[i..], name)
      invariant name != "" ==> FirstNamed(ws, name) == if nameMatch.Some? then nameMatch else FirstNamed(ws[i..], name)
      invariant name == "" ==> nameMatch.None?
    {
      var w := ws[i];
      assert ws[i..][0] == w && ws[i..][1..] == ws[i + 1..];
      if name == "" {
        if w.isDefault { return Some(w); }
        continue;
      }
      if w.id == name { return Some(w); }
      if nameMatch.None? && w.name == name { nameMatch := Some(w); }
    }
    found := nameMatch;
  }

  function ByID(instances: seq<Instance>, id: string): Option<Instance> {
    if instances == [] then None else if instances[0].id == id then Some(instances[0]) else ByID(instances[1..], id)
  }

  function ByName(instances: seq<Instance>, name: string): Option<Instance> {
    if instances == [] then None
    else if instances[0].name == name then Some(instances[0])
    else ByName(instances[1..], name)
  }

  /** Kargo has no lookup by ID; the client lists and filters. */
  method GetKargoInstanceByID(instances: seq<Instance>, id: string) returns (found: Option<Instance>)
    ensures found == ByID(instances, id)
  {
    for i := 0 to |instances|
      invariant ByID(instances, id) == ByID(instances[i..], id)
    {
      assert instances[i..][0] == instances[i] && instances[i..][1..] == instances[i + 1..];
      if instances[i].id == id { return Some(instances[i]); }
    }
    found := None;
  }

  function ByIDOrName(instances: seq<Instance>, ref: string): Option<Instance> {
    if ByID(instances, ref).Some? then ByID(instances, ref) else ByName(instances, ref)
  }

  ghost predicate UniqueIDs(instances: seq<Instance>) {
    forall i, j | 0 <= i < j < |instances| :: instances[i].id != instances[j].id
  }

  lemma {:induction false} FoundByNameIsFoundByID(instances: seq<Instance>, name: string)
    requires UniqueIDs(instances) && ByName(instances, name).Some?
    ensures ByID(instances, ByName(instances, name).value.id) == ByName(instances, name)
    ensures ByName(instances, name).value in instances
    decreases |instances|
  {
    if instances[0].name != name {
      FoundByNameIsFoundByID(instances[1..], name);
      var k :| 0 <= k < |instances[1..]| && instances[1..][k] == ByName(instances, name).value;
      assert instances[0].id != instances[k + 1].id;
    }
  }

  // ----- Without the cache -----

  datatype Lookup =
    | ForRef(ref: string)
    | ForArgo(id: string)
    | ForKargo(id: string)
    | ForKargoRef(ref: string)
    | ForArgoApply(workspace: string, byID: bool, target: string)
    | ForKargoApply(workspace: string, byID: bool, target: string)

  function ResolveRef(s: Server, up: Up, ref: string): Answer {
    if !s.hasOrg then Ok(ref)
    else if !up.workspaces then Err(Unreachable)
    else match FindWorkspace(s.workspaces, ref)
      case Some(w) => Ok(w.id)
      case None => Err(if ref == "" then Absent else Rejected)
  }

  function OfInstance(s: Server, up: Up, found: Option<Instance>): Answer {
    if !up.instances then Err(Unreachable)
    else match found
      case None => Err(Absent)
      case Some(i) => if i.workspaceID != "" then Ok(i.workspaceID) else ResolveRef(s, up, "")
  }

  function OfApply(s: Server, up: Up, found: Option<Instance>): Answer {
    if !s.hasOrg then Ok("")
    else if !up.instances then Err(Unreachable)
    else if found.Some? && found.value.workspaceID != "" then Ok(found.value.workspaceID)
    else ResolveRef(s, up, "")
  }

  function Uncached(s: Server, up: Up, l: Lookup): Answer {
    match l
    case ForRef(ref) => ResolveRef(s, up, ref)
    case ForArgo(id) => OfInstance(s, up, ByID(s.argo, id))
    case ForKargo(id) => OfInstance(s, up, ByID(s.kargo, id))
    case ForKargoRef(ref) => OfInstance(s, up, ByIDOrName(s.kargo, ref))
    case ForArgoApply(ws, byID, target) =>
      if ws != "" then ResolveRef(s, up, ws)
      else if byID then OfInstance(s, up, ByID(s.argo, target))
      else OfApply(s, up, ByName(s.argo, target))
    case ForKargoApply(ws, byID, target) =>
      if ws != "" then ResolveRef(s, up, ws)
      else if byID then OfInstance(s, up, ByID(s.kargo, target))
      else OfApply(s, up, ByName(s.kargo, target))
  }

  lemma {:induction false} InstanceByID(instances: seq<Instance>, i: Instance)
    requires UniqueIDs(instances) && i in instances
    ensures ByID(instances, i.id) == Some(i)
    decreases |instances|
  {
    if instances[0] != i {
      var k :| 0 <= k < |instances| && instances[k] == i;
      assert i in instances[1..] by { assert instances[1..][k - 1] == i; }
      InstanceByID(instances[1..], i);
      assert instances[0].id != instances[k].id;
    }
  }

  lemma {:induction false} NoInstance(instances: seq<Instance>, key: string)
    ensures ByID(instances, key).None? <==> forall i | i in instances :: i.id != key
    ensures ByName(instances, key).None? <==> forall i | i in instances :: i.name != key
    ensures ByName(instances, key).Some? ==>
      ByName(instances, key).value in instances && ByName(instances, key).value.name == key
    decreases |instances|
  {
    if instances != [] { NoInstance(instances[1..], key); }
  }

  /** A reference is taken as it is without an organization; with one, it fails exactly when the platform cannot be
      asked or nothing qualifies, and no reference at all then means there is no default workspace. */
  lemma ReferencesFail(s: Server, up: Up, ref: string)
    ensures !s.hasOrg ==> Uncached(s, up, ForRef(ref)) == Ok(ref)
    ensures s.hasOrg && !up.workspaces ==> Uncached(s, up, ForRef(ref)) == Err(Unreachable)
    ensures s.hasOrg && up.workspaces ==>
      && (Uncached(s, up, ForRef("")) == Err(Absent) <==> forall w | w in s.workspaces :: !w.isDefault)
      && (ref != "" ==>
            (Uncached(s, up, ForRef(ref)) == Err(Rejected)
             <==> forall w | w in s.workspaces :: w.id != ref && w.name != ref))
  {
    var i := FindsExactly(s.workspaces, ref);
    var j := FindsExactly(s.workspaces, "");
    hide FindWorkspace;
  }

  /** What a lookup by instance means: an instance stands for the workspace it names, or for the default one; by ID, and
      for Kargo also by a name that is no ID. */
  lemma InstanceLookups(s: Server, up: Up, i: Instance)
    requires up.instances
    ensures UniqueIDs(s.argo) && i in s.argo ==>
      Uncached(s, up, ForArgo(i.id)) == if i.workspaceID != "" then Ok(i.workspaceID) else Uncached(s, up, ForRef(""))
    ensures UniqueIDs(s.kargo) && i in s.kargo ==>
      && Uncached(s, up, ForKargo(i.id))
         == (if i.workspaceID != "" then Ok(i.workspaceID) else Uncached(s, up, ForRef("")))
      && Uncached(s, up, ForKargoRef(i.id)) == Uncached(s, up, ForKargo(i.id))
    ensures (forall x | x in s.argo :: x.id != i.id) ==> Uncached(s, up, ForArgo(i.id)) == Err(Absent)
    ensures (forall x | x in s.kargo :: x.id != i.id) ==> Uncached(s, up, ForKargo(i.id)) == Err(Absent)
  {
    hide FindWorkspace;
    if UniqueIDs(s.argo) && i in s.argo { InstanceByID(s.argo, i); }
    if UniqueIDs(s.kargo) && i in s.kargo { InstanceByID(s.kargo, i); }
    NoInstance(s.argo, i.id);
    NoInstance(s.kargo, i.id);
  }

  /** What a lookup for an Apply means: a pinned workspace decides whatever the target; a target by ID stands for
      itself; a target by name for the instance of that name, or, where there is none yet or it names no workspace,
      for the default workspace; and without an organization there is no workspace to send. */
  lemma ApplyLookups(s: Server, up: Up, workspace: string, byID: bool, target: string)
    ensures workspace != "" ==>
      && Uncached(s, up, ForArgoApply(workspace, byID, target)) == Uncached(s, up, ForRef(workspace))
      && Uncached(s, up, ForKargoApply(workspace, byID, target)) == Uncached(s, up, ForRef(workspace))
    ensures workspace == "" && byID ==>
      && Uncached(s, up, ForArgoApply(workspace, byID, target)) == Uncached(s, up, ForArgo(target))
      && Uncached(s, up, ForKargoApply(workspace, byID, target)) == Uncached(s, up, ForKargo(target))
    ensures workspace == "" && !byID && !s.hasOrg ==>
      && Uncached(s, up, ForArgoApply(workspace, byID, target)) == Ok("")
      && Uncached(s, up, ForKargoApply(workspace, byID, target)) == Ok("")
    ensures workspace == "" && !byID && s.hasOrg && up.instances ==>
      && ((forall i | i in s.argo :: i.name != target) ==>
            Uncached(s, up, ForArgoApply(workspace, byID, target)) == Uncached(s, up, ForRef("")))
      && ((forall i | i in s.kargo :: i.name != target) ==>
            Uncached(s, up, ForKargoApply(workspace, byID, target)) == Uncached(s, up, ForRef("")))
  {
    hide FindWorkspace;
    NoInstance(s.argo, target);
    NoInstance(s.kargo, target);
  }

  /** And a lookup by the name of the only instance called so agrees with the lookup by its ID. */
  lemma NameLookupIsIDLookup(s: Server, up: Up, i: Instance)
    requires UniqueIDs(s.argo) && UniqueIDs(s.kargo) && s.hasOrg && up.instances
    ensures i in s.argo && (forall x | x in s.argo && x.name == i.name :: x == i) ==>
      Uncached(s, up, ForArgoApply("", false, i.name)) == Uncached(s, up, ForArgo(i.id))
    ensures i in s.kargo && (forall x | x in s.kargo && x.name == i.name :: x == i) ==>
      Uncached(s, up, ForKargoApply("", false, i.name)) == Uncached(s, up, ForKargo(i.id))
  {
    hide FindWorkspace;
    NoInstance(s.argo, i.name);
    NoInstance(s.kargo, i.name);
    if i in s.argo { InstanceByID(s.argo, i); }
    if i in s.kargo { InstanceByID(s.kargo, i); }
  }

  /** A workspace is found by its own ID, by its name where that is no ID and first of its kind, and the default by
      nothing. */
  lemma ReferencesResolve(s: Server, up: Up, w: Workspace)
    requires s.hasOrg && up.workspaces && w in s.workspaces
    requires forall x | x in s.workspaces && x.id == w.id :: x == w
    ensures w.id != "" ==> Uncached(s, up, ForRef(w.id)) == Ok(w.id)
    ensures w.name != "" && (forall x | x in s.workspaces :: x.id != w.name && (x.name == w.name ==> x == w)) ==>
      Uncached(s, up, ForRef(w.name)) == Ok(w.id)
    ensures w.isDefault && (forall x | x in s.workspaces && x.isDefault :: x == w) ==>
      Uncached(s, up, ForRef("")) == Ok(w.id)
  {
    var i := FindsExactly(s.workspaces, w.id);
    var j := FindsExactly(s.workspaces, w.name);
    var k := FindsExactly(s.workspaces, "");
    hide FindWorkspace;
  }

  // ----- With it -----

  datatype Cache = Cache(refs: map<string, string>, argo: map<string, string>, kargo: map<string, string>)
  const DEFAULT_KEY := "<default>"

  function CacheKey(ref: string): string { if ref == "" then DEFAULT_KEY else ref }

  function Set(m: map<string, string>, id: string, v: string): map<string, string> {
    if id == "" then m else m[id := v]
  }

  function RefVia(s: Server, c: Cache, up: Up, ref: string): (Answer, Cache) {
    if !s.hasOrg then (Ok(ref), c)
    else if CacheKey(ref) in c.refs then (Ok(c.refs[CacheKey(ref)]), c)
    else match ResolveRef(s, up, ref)
      case Ok(id) => (Ok(id), c.(refs := c.refs[CacheKey(ref) := id]))
      case Err(e) => (Err(e), c)
  }

  /** The workspace an instance names, or the default one. */
  function WorkspaceVia(s: Server, c: Cache, up: Up, i: Instance): (Answer, Cache) {
    if i.workspaceID != "" then (Ok(i.workspaceID), c) else RefVia(s, c, up, "")
  }

  function ArgoVia(s: Server, c: Cache, up: Up, id: string): (Answer, Cache) {
    if id in c.argo then (Ok(c.argo[id]), c)
    else if !up.instances then (Err(Unreachable), c)
    else match ByID(s.argo, id)
      case None => (Err(Absent), c)
      case Some(i) =>
        var (a, c') := WorkspaceVia(s, c, up, i);
        (a, if a.Ok? then c'.(argo := Set(c'.argo, id, a.value)) else c')
  }

  /** Lookups by ID and by ID-or-name fill the same map, under the key asked for and under the instance's ID. */
  function KargoVia(s: Server, c: Cache, up: Up, key: string, found: Option<Instance>): (Answer, Cache) {
    if key in c.kargo then (Ok(c.kargo[key]), c)
    else if !up.instances then (Err(Unreachable), c)
    else match found
      case None => (Err(Absent), c)
      case Some(i) =>
        var (a, c') := WorkspaceVia(s, c, up, i);
        (a, if a.Ok? then c'.(kargo := Set(Set(c'.kargo, key, a.value), i.id, a.value)) else c')
  }

  function ArgoApplyVia(s: Server, c: Cache, up: Up, name: string): (Answer, Cache) {
    if !s.hasOrg then (Ok(""), c)
    else if !up.instances then (Err(Unreachable), c)
    else match ByName(s.argo, name)
      case Some(i) =>
        if i.workspaceID != "" then (Ok(i.workspaceID), c.(argo := Set(c.argo, i.id, i.workspaceID)))
        else RefVia(s, c, up, "")
      case None => RefVia(s, c, up, "")
  }

  function KargoApplyVia(s: Server, c: Cache, up: Up, name: string): (Answer, Cache) {
    if !s.hasOrg then (Ok(""), c)
    else if !up.instances then (Err(Unreachable), c)
    else match ByName(s.kargo, name)
      case Some(i) =>
        if i.workspaceID != "" then (Ok(i.workspaceID), c.(kargo := Set(c.kargo, i.id, i.workspaceID)))
        else RefVia(s, c, up, "")
      case None => RefVia(s, c, up, "")
  }

  function Cached(s: Server, c: Cache, up: Up, l: Lookup): (Answer, Cache) {
    match l
    case ForRef(ref) => RefVia(s, c, up, ref)
    case ForArgo(id) => ArgoVia(s, c, up, id)
    case ForKargo(id) => KargoVia(s, c, up, id, ByID(s.kargo, id))
    case ForKargoRef(ref) => KargoVia(s, c, up, ref, ByIDOrName(s.kargo, ref))
    case ForArgoApply(ws, byID, target) =>
      if ws != "" then RefVia(s, c, up, ws)
      else if byID then ArgoVia(s, c, up, target)
      else ArgoApplyVia(s, c, up, target)
    case ForKargoApply(ws, byID, target) =>
      if ws != "" then RefVia(s, c, up, ws)
      else if byID then KargoVia(s, c, up, target, ByID(s.kargo, target))
      else KargoApplyVia(s, c, up, target)
  }

  // ----- They agree -----

  /** Both the default workspace and one spelt like its cache key exist, and they differ. */
  predicate LiteralConfuses(s: Server) {
    && s.hasOrg
    && FindWorkspace(s.workspaces, "").Some? && FindWorkspace(s.workspaces, DEFAULT_KEY).Some?
    && FindWorkspace(s.workspaces, "").value.id != FindWorkspace(s.workspaces, DEFAULT_KEY).value.id
  }

  predicate MentionsLiteral(l: Lookup) {
    match l
    case ForRef(ref) => ref == DEFAULT_KEY
    case ForArgoApply(ws, _, _) => ws == DEFAULT_KEY
    case ForKargoApply(ws, _, _) => ws == DEFAULT_KEY
    case _ => false
  }

  predicate Agrees(v: string, a: Answer) { a.Ok? ==> a.value == v }

  /** Each cached value is what the platform would answer, if it would answer. */
  ghost predicate Coherent(s: Server, c: Cache, literal: bool) {
    && (!s.hasOrg ==> c.refs == map[])
    && (forall k | k in c.refs :: k != DEFAULT_KEY || literal ==> Agrees(c.refs[k], ResolveRef(s, ALL_UP, k)))
    && (DEFAULT_KEY in c.refs ==> Agrees(c.refs[DEFAULT_KEY], ResolveRef(s, ALL_UP, "")))
    && (forall k | k in c.argo :: Agrees(c.argo[k], Uncached(s, ALL_UP, ForArgo(k))))
    && (forall k | k in c.kargo :: Agrees(c.kargo[k], Uncached(s, ALL_UP, ForKargoRef(k))))
  }

  /** The answer `a` and cache `c` a lookup leaves are right: what the platform would say, and still coherent. */
  ghost predicate Right(s: Server, up: Up, truth: Answer, now: Answer, out: (Answer, Cache), literal: bool) {
    && Coherent(s, out.1, literal)
    && (now.Ok? ==> out.0.Ok?)
    && (out.0.Ok? ==> Agrees(out.0.value, truth))
    && (now.Ok? ==> now == truth)
  }

  lemma RefViaRight(s: Server, c: Cache, up: Up, ref: string, literal: bool)
    requires Coherent(s, c, literal) && (literal ==> !LiteralConfuses(s)) && (ref == DEFAULT_KEY ==> literal)
    ensures Right(s, up, ResolveRef(s, ALL_UP, ref), ResolveRef(s, up, ref), RefVia(s, c, up, ref), literal)
    ensures RefVia(s, c, up, ref).1.argo == c.argo && RefVia(s, c, up, ref).1.kargo == c.kargo
  {
    hide FindWorkspace;
  }

  lemma WorkspaceViaRight(s: Server, c: Cache, up: Up, i: Instance, literal: bool)
    requires Coherent(s, c, literal) && (literal ==> !LiteralConfuses(s)) && up.instances
    ensures Right(s, up, OfInstance(s, ALL_UP, Some(i)), OfInstance(s, up, Some(i)), WorkspaceVia(s, c, up, i), literal)
    ensures WorkspaceVia(s, c, up, i).1.argo == c.argo && WorkspaceVia(s, c, up, i).1.kargo == c.kargo
  {
    hide FindWorkspace;
    hide Coherent;
    RefViaRight(s, c, up, "", literal);
  }

  lemma NowIsTruth(s: Server, up: Up, l: Lookup)
    ensures Uncached(s, up, l).Ok? ==> Uncached(s, ALL_UP, l) == Uncached(s, up, l)
  {}

  lemma ArgoViaRight(s: Server, c: Cache, up: Up, id: string, literal: bool)
    requires Coherent(s, c, literal) && (literal ==> !LiteralConfuses(s))
    ensures Right(s, up, Uncached(s, ALL_UP, ForArgo(id)), Uncached(s, up, ForArgo(id)), ArgoVia(s, c, up, id), literal)
  {
    hide FindWorkspace;
    hide ResolveRef;
    hide WorkspaceVia;
    hide LiteralConfuses;
    if id !in c.argo && up.instances && ByID(s.argo, id).Some? {
      WorkspaceViaRight(s, c, up, ByID(s.argo, id).value, literal);
    }
    NowIsTruth(s, up, ForArgo(id));
  }

  /** Storing one more coherent Kargo workspace. */
  lemma SetKargoCoherent(s: Server, c: Cache, key: string, v: string, literal: bool)
    requires Coherent(s, c, literal) && Agrees(v, Uncached(s, ALL_UP, ForKargoRef(key)))
    ensures Coherent(s, c.(kargo := Set(c.kargo, key, v)), literal)
  {
    hide Uncached;
    hide ResolveRef;
  }

  lemma KargoHit(s: Server, c: Cache, key: string, l: Lookup, literal: bool)
    requires Coherent(s, c, literal) && key in c.kargo && (l == ForKargo(key) || l == ForKargoRef(key))
    ensures Agrees(c.kargo[key], Uncached(s, ALL_UP, l))
  {}

  lemma {:induction false} FoundHasID(instances: seq<Instance>, id: string)
    ensures ByID(instances, id).Some? ==> ByID(instances, id).value.id == id
    decreases |instances|
  {
    if instances != [] { FoundHasID(instances[1..], id); }
  }

  /** The instance found by ID-or-name is the one its own ID finds. */
  lemma {:induction false} KargoIDs(instances: seq<Instance>, key: string)
    requires UniqueIDs(instances)
    ensures ByID(instances, key).Some? ==>
      ByIDOrName(instances, key) == ByID(instances, key) && ByID(instances, key).value.id == key
    ensures ByIDOrName(instances, key).Some? ==>
      ByIDOrName(instances, ByIDOrName(instances, key).value.id) == ByIDOrName(instances, key)
  {
    FoundHasID(instances, key);
    if ByID(instances, key).None? && ByName(instances, key).Some? {
      FoundByNameIsFoundByID(instances, key);
    }
  }

  lemma KargoViaRight(s: Server, c: Cache, up: Up, l: Lookup, key: string, found: Option<Instance>, literal: bool)
    requires Coherent(s, c, literal) && (literal ==> !LiteralConfuses(s)) && UniqueIDs(s.kargo)
    requires
      || (l == ForKargo(key) && found == ByID(s.kargo, key))
      || (l == ForKargoRef(key) && found == ByIDOrName(s.kargo, key))
    ensures Right(s, up, Uncached(s, ALL_UP, l), Uncached(s, up, l), KargoVia(s, c, up, key, found), literal)
  {
    hide FindWorkspace;
    hide ResolveRef;
    hide WorkspaceVia;
    hide LiteralConfuses;
    hide Coherent;
    NowIsTruth(s, up, l);
    if key in c.kargo {
      KargoHit(s, c, key, l, literal);
    } else if up.instances && found.Some? {
      var i := found.value;
      WorkspaceViaRight(s, c, up, i, literal);
      var (a, c') := WorkspaceVia(s, c, up, i);
      if a.Ok? {
        KargoIDs(s.kargo, key);
        SetKargoCoherent(s, c', key, a.value, literal);
        SetKargoCoherent(s, c'.(kargo := Set(c'.kargo, key, a.value)), i.id, a.value, literal);
      }
    }
  }

  lemma ArgoApplyRight(s: Server, c: Cache, up: Up, name: string, literal: bool)
    requires Coherent(s, c, literal) && (literal ==> !LiteralConfuses(s)) && UniqueIDs(s.argo)
    ensures var l := ForArgoApply("", false, name);
      Right(s, up, Uncached(s, ALL_UP, l), Uncached(s, up, l), ArgoApplyVia(s, c, up, name), literal)
  {
    hide FindWorkspace;
    hide LiteralConfuses;
    RefViaRight(s, c, up, "", literal);
    if ByName(s.argo, name).Some? {
      FoundByNameIsFoundByID(s.argo, name);
    }
    hide RefVia;
    hide ResolveRef;
  }

  lemma KargoApplyRight(s: Server, c: Cache, up: Up, name: string, literal: bool)
    requires Coherent(s, c, literal) && (literal ==> !LiteralConfuses(s)) && UniqueIDs(s.kargo)
    ensures var l := ForKargoApply("", false, name);
      Right(s, up, Uncached(s, ALL_UP, l), Uncached(s, up, l), KargoApplyVia(s, c, up, name), literal)
  {
    hide FindWorkspace;
    hide LiteralConfuses;
    RefViaRight(s, c, up, "", literal);
    if ByName(s.kargo, name).Some? {
      FoundByNameIsFoundByID(s.kargo, name);
    }
    hide RefVia;
    hide ResolveRef;
  }

  lemma CachedRight(s: Server, c: Cache, up: Up, l: Lookup, literal: bool)
    requires Coherent(s, c, literal) && (literal ==> !LiteralConfuses(s)) && (MentionsLiteral(l) ==> literal)
    requires UniqueIDs(s.argo) && UniqueIDs(s.kargo)
    ensures Right(s, up, Uncached(s, ALL_UP, l), Uncached(s, up, l), Cached(s, c, up, l), literal)
  {
    hide Right;
    hide Coherent;
    hide RefVia;
    hide ArgoVia;
    hide KargoVia;
    match l {
      case ForRef(ref) => RefViaRight(s, c, up, ref, literal);
      case ForArgo(id) => ArgoViaRight(s, c, up, id, literal);
      case ForKargo(id) => KargoViaRight(s, c, up, l, id, ByID(s.kargo, id), literal);
      case ForKargoRef(ref) => KargoViaRight(s, c, up, l, ref, ByIDOrName(s.kargo, ref), literal);
      case ForArgoApply(ws, byID, target) =>
        if ws != "" {
          RefViaRight(s, c, up, ws, literal);
        } else if byID {
          ArgoViaRight(s, c, up, target, literal);
        } else {
          ArgoApplyRight(s, c, up, target, literal);
        }
      case ForKargoApply(ws, byID, target) =>
        if ws != "" {
          RefViaRight(s, c, up, ws, literal);
        } else if byID {
          KargoViaRight(s, c, up, ForKargo(target), target, ByID(s.kargo, target), literal);
        } else {
          KargoApplyRight(s, c, up, target, literal);
        }
    }
  }

  type History = seq<(Lookup, Up)>

  function After(s: Server, h: History): Cache {
    if h == [] then Cache(map[], map[], map[])
    else Cached(s, After(s, h[..|h| - 1]), h[|h| - 1].1, h[|h| - 1].0).1
  }

  predicate Literal(h: History) {
    exists i :: 0 <= i < |h| && MentionsLiteral(h[i].0)
  }

  lemma {:induction false} AfterCoherent(s: Server, h: History, literal: bool)
    requires UniqueIDs(s.argo) && UniqueIDs(s.kargo)
    requires (literal ==> !LiteralConfuses(s)) && (Literal(h) ==> literal)
    ensures Coherent(s, After(s, h), literal)
    decreases |h|
  {
    hide Cached;
    hide LiteralConfuses;
    if h != [] {
      var init := h[..|h| - 1];
      assert forall i | 0 <= i < |init| :: init[i] == h[i];
      AfterCoherent(s, init, literal);
      CachedRight(s, After(s, init), h[|h| - 1].1, h[|h| - 1].0, literal);
    }
  }

  /** After any lookups, with any outages: whenever the platform would answer, the cache gives the same answer,
      unless a workspace really is called or numbered `<default>`, is not the default, and has been asked for. */
  lemma CacheIsTransparent(s: Server, h: History, l: Lookup, up: Up)
    requires UniqueIDs(s.argo) && UniqueIDs(s.kargo)
    requires !LiteralConfuses(s) || (!Literal(h) && !MentionsLiteral(l))
    ensures Uncached(s, up, l).Ok? ==> Cached(s, After(s, h), up, l).0 == Uncached(s, up, l)
  {
    var literal := !LiteralConfuses(s);
    AfterCoherent(s, h, literal);
    CachedRight(s, After(s, h), up, l, literal);
  }

  ghost predicate SameAnswer(s: Server, h: History, l: Lookup, up: Up) {
    Uncached(s, up, l).Ok? ==> Cached(s, After(s, h), up, l).0 == Uncached(s, up, l)
  }

  ghost predicate Transparent(s: Server) {
    forall h, l, up :: SameAnswer(s, h, l, up)
  }

  /** And that exception is exact. */
  lemma TransparentExactly(s: Server)
    requires UniqueIDs(s.argo) && UniqueIDs(s.kargo)
    ensures Transparent(s) <==> !LiteralConfuses(s)
  {
    if LiteralConfuses(s) {
      var h := [(ForRef(DEFAULT_KEY), ALL_UP)];
      assert h[..0] == [];
      assert After(s, h).refs[DEFAULT_KEY] == FindWorkspace(s.workspaces, DEFAULT_KEY).value.id;
      assert !SameAnswer(s, h, ForRef(""), ALL_UP);
    } else {
      forall h, l, up ensures SameAnswer(s, h, l, up) {
        CacheIsTransparent(s, h, l, up);
      }
    }
  }

  /** What the cache is for: a lookup that has succeeded is answered again with the platform unreachable. */
  lemma SecondLookupIsLocal(s: Server, c: Cache, up: Up, l: Lookup)
    requires Cached(s, c, up, l).0.Ok?
    requires match l
      case ForRef(_) => true
      case ForArgo(id) => id != ""
      case ForKargo(id) => id != ""
      case ForKargoRef(ref) => ref != ""
      case _ => false
    ensures var (a, c') := Cached(s, c, up, l);
      Cached(s, c', Up(false, false), l) == (a, c')
  {
    hide FindWorkspace;
    FoundHasID(s.kargo, if l.ForKargo? then l.id else "");
  }

  /** And a lookup by name that found an instance answers the lookup by its ID as well. */
  lemma NameLookupServesID(s: Server, c: Cache, up: Up, l: Lookup, i: Instance)
    requires i.id != "" && Cached(s, c, up, l).0.Ok? && s.hasOrg
    requires match l
      case ForKargoRef(ref) => ref !in c.kargo && ByIDOrName(s.kargo, ref) == Some(i)
      case ForArgoApply(ws, byID, name) => ws == "" && !byID && ByName(s.argo, name) == Some(i) && i.workspaceID != ""
      case ForKargoApply(ws, byID, name) => ws == "" && !byID && ByName(s.kargo, name) == Some(i) && i.workspaceID != ""
      case _ => false
    ensures var (a, c') := Cached(s, c, up, l);
      Cached(s, c', Up(false, false), if l.ForArgoApply? then ForArgo(i.id) else ForKargo(i.id)) == (a, c')
  {
    hide FindWorkspace;
    hide ByName;
    hide ByID;
  }

  // ----- The client -----

  class Client {
    const server: Server
    var refs: map<string, string>
    var argoByInstance: map<string, string>
    var kargoByInstance: map<string, string>

    constructor (server: Server)
      ensures this.server == server && Contents() == Cache(map[], map[], map[])
    {
      this.server := server;
      refs, argoByInstance, kargoByInstance := map[], map[], map[];
    }

    function Contents(): Cache
      reads this
    {
      Cache(refs, argoByInstance, kargoByInstance)
    }

    method ResolveWorkspaceID(up: Up, ref: string) returns (id: Answer)
      modifies this
      ensures (id, Contents()) == RefVia(server, old(Contents()), up, ref)
    {
      if !server.hasOrg { return Ok(ref); }
      if CacheKey(ref) in refs { return Ok(refs[CacheKey(ref)]); }
      if !up.workspaces { return Err(Unreachable); }
      var w := ResolveWorkspace(server.workspaces, ref);
      if w.None? { return Err(if ref == "" then Absent else Rejected); }
      refs := refs[CacheKey(ref) := w.value.id];
      id := Ok(w.value.id);
    }

    method SetArgoInstance(instanceID: string, workspaceID: string)
      modifies this`argoByInstance
      ensures argoByInstance == Set(old(argoByInstance), instanceID, workspaceID)
    {
      if instanceID == "" { return; }
      argoByInstance := argoByInstance[instanceID := workspaceID];
    }

    method SetKargoInstance(instanceID: string, workspaceID: string)
      modifies this`kargoByInstance
      ensures kargoByInstance == Set(old(kargoByInstance), instanceID, workspaceID)
    {
      if instanceID == "" { return; }
      kargoByInstance := kargoByInstance[instanceID := workspaceID];
    }

    method ArgoWorkspaceIDForInstance(up: Up, instanceID: string) returns (id: Answer)
      modifies this
      ensures (id, Contents()) == ArgoVia(server, old(Contents()), up, instanceID)
    {
      if instanceID in argoByInstance { return Ok(argoByInstance[instanceID]); }
      if !up.instances { return Err(Unreachable); }
      var inst := ByID(server.argo, instanceID);
      if inst.None? { return Err(Absent); }
      if inst.value.workspaceID != "" {
        SetArgoInstance(instanceID, inst.value.workspaceID);
        return Ok(inst.value.workspaceID);
      }
      id := ResolveWorkspaceID(up, "");
      if id.Err? { return; }
      SetArgoInstance(instanceID, id.value);
    }

    method ArgoWorkspaceIDForApply(up: Up, workspace: string, byID: bool, target: string) returns (id: Answer)
      modifies this
      ensures (id, Contents()) == Cached(server, old(Contents()), up, ForArgoApply(workspace, byID, target))
    {
      if workspace != "" {
        id := ResolveWorkspaceID(up, workspace);
        return;
      }
      if byID {
        id := ArgoWorkspaceIDForInstance(up, target);
        return;
      }
      if !server.hasOrg { return Ok(""); }
      if !up.instances { return Err(Unreachable); }
      var inst := ByName(server.argo, target);
      if inst.Some? && inst.value.workspaceID != "" {
        SetArgoInstance(inst.value.id, inst.value.workspaceID);
        return Ok(inst.value.workspaceID);
      }
      id := ResolveWorkspaceID(up, "");
    }

    method KargoWorkspaceIDForInstance(up: Up, instanceID: string) returns (id: Answer)
      modifies this
      ensures (id, Contents()) == Cached(server, old(Contents()), up, ForKargo(instanceID))
    {
      FoundHasID(server.kargo, instanceID);
      if instanceID in kargoByInstance { return Ok(kargoByInstance[instanceID]); }
      if !up.instances { return Err(Unreachable); }
      var inst := GetKargoInstanceByID(server.kargo, instanceID);
      if inst.None? { return Err(Absent); }
      if inst.value.workspaceID != "" {
        SetKargoInstance(instanceID, inst.value.workspaceID);
        assert kargoByInstance == Set(kargoByInstance, instanceID, inst.value.workspaceID);
        return Ok(inst.value.workspaceID);
      }
      id := ResolveWorkspaceID(up, "");
      if id.Err? { return; }
      SetKargoInstance(instanceID, id.value);
      assert kargoByInstance == Set(kargoByInstance, instanceID, id.value);
    }

    /** A reference may be an ID or a name; the answer is kept under it and under the instance's ID. */
    method KargoWorkspaceIDForRef(up: Up, ref: string) returns (id: Answer)
      modifies this
      ensures (id, Contents()) == Cached(server, old(Contents()), up, ForKargoRef(ref))
    {
      if ref in kargoByInstance { return Ok(kargoByInstance[ref]); }
      if !up.instances { return Err(Unreachable); }
      var inst := GetKargoInstanceByID(server.kargo, ref);
      if inst.None? { inst := ByName(server.kargo, ref); }
      if inst.None? { return Err(Absent); }
      if inst.value.workspaceID != "" {
        SetKargoInstance(ref, inst.value.workspaceID);
        SetKargoInstance(inst.value.id, inst.value.workspaceID);
        return Ok(inst.value.workspaceID);
      }
      id := ResolveWorkspaceID(up, "");
      if id.Err? { return; }
      SetKargoInstance(ref, id.value);
      SetKargoInstance(inst.value.id, id.value);
    }

    method KargoWorkspaceIDForApply(up: Up, workspace: string, byID: bool, target: string) returns (id: Answer)
      modifies this
      ensures (id, Contents()) == Cached(server, old(Contents()), up, ForKargoApply(workspace, byID, target))
    {
      if workspace != "" {
        id := ResolveWorkspaceID(up, workspace);
        return;
      }
      if byID {
        id := KargoWorkspaceIDForInstance(up, target);
        return;
      }
      if !server.hasOrg { return Ok(""); }
      if !up.instances { return Err(Unreachable); }
      var inst := ByName(server.kargo, target);
      if inst.Some? && inst.value.workspaceID != "" {
        SetKargoInstance(inst.value.id, inst.value.workspaceID);
        return Ok(inst.value.workspaceID);
      }
      id := ResolveWorkspaceID(up, "");
    }
  }
}
