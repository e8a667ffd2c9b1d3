/** Workspace authorization with a cache of each principal's capabilities: runs
through the cache give the answers of runs without one. */
module Authorization {
  import opened Options

  // --------------------------------------------------------------- identity store

  type Id = nat
  type Capability = string

  const WORKSPACE_ADMIN: Capability := "workspace:admin"
  const WORKSPACE_WRITE: Capability := "workspace:write"
  const IDENTITY_MANAGE: Capability := "identity:manage"

  datatype Identity = Identity(workspace: Id, active: bool)
  datatype Role = Role(workspace: Id, capabilities: set<Capability>)
  datatype Grant = Grant(workspace: Id, member: Id, role: Id)

  /** Workspaces by whether they are active; identifiers are unique across
  workspaces. */
  datatype Store = Store(
    workspaces: map<Id, bool>,
    members: map<Id, Identity>,
    roles: map<Id, Role>,
    grants: set<Grant>,
    accounts: map<Id, Identity>)

  datatype Mutation =
    | CreateMember(id: Id)
    | RevokeMember(id: Id)
    | CreateRole(id: Id)
    | SetRoleCapabilities(role: Id, capabilities: set<Capability>)
    | AssignRole(member: Id, role: Id)
    | CreateServiceAccount(id: Id)
    | RevokeServiceAccount(id: Id)

  predicate ActiveWorkspace(s: Store, w: Id) {
    w in s.workspaces && s.workspaces[w]
  }

  predicate MemberIn(s: Store, w: Id, m: Id) {
    m in s.members && s.members[m].workspace == w
  }

  predicate RoleIn(s: Store, w: Id, r: Id) {
    r in s.roles && s.roles[r].workspace == w
  }

  predicate AccountIn(s: Store, w: Id, a: Id) {
    a in s.accounts && s.accounts[a].workspace == w
  }

  /** The store after a mutation in a workspace; none if it is refused. `valid`
  stands for the checks on names, times and capability lists. */
  function Apply(s: Store, w: Id, m: Mutation, valid: bool): (r: Option<Store>) {
    if !valid then None
    else match m
      case CreateMember(id) =>
        if !ActiveWorkspace(s, w) || id in s.members then None
        else Some(s.(members := s.members[id := Identity(w, true)]))
      case RevokeMember(id) =>
        if !MemberIn(s, w, id) then None
        else Some(s.(members := s.members[id := Identity(w, false)]))
      case CreateRole(id) =>
        if !ActiveWorkspace(s, w) || id in s.roles then None
        else Some(s.(roles := s.roles[id := Role(w, {})]))
      case SetRoleCapabilities(role, capabilities) =>
        if !RoleIn(s, w, role) then None
        else Some(s.(roles := s.roles[role := Role(w, capabilities)]))
      case AssignRole(member, role) =>
        if !MemberIn(s, w, member) || !RoleIn(s, w, role) then None
        else if exists g | g in s.grants :: g.member == member && g.role == role then None
        else Some(s.(grants := s.grants + {Grant(w, member, role)}))
      case CreateServiceAccount(id) =>
        if !ActiveWorkspace(s, w) || id in s.accounts then None
        else Some(s.(accounts := s.accounts[id := Identity(w, true)]))
      case RevokeServiceAccount(id) =>
        if !AccountIn(s, w, id) then None
        else Some(s.(accounts := s.accounts[id := Identity(w, false)]))
  }

  // -------------------------------------------------------------------- decisions

  datatype Mode = LocalTrusted | Server
  datatype Principal = Member(id: Id) | ServiceAccount(id: Id)
  datatype Key = Key(workspace: Id, principal: Principal)

  function RoleIds(s: Store, w: Id, m: Id): (ids: set<Id>) {
    set g | g in s.grants && g.workspace == w && g.member == m :: g.role
  }

  function CapabilitiesOf(s: Store, ids: set<Id>): (cs: set<Capability>) {
    set r, c | r in ids && r in s.roles && c in s.roles[r].capabilities :: c
  }

  /** What a principal may do, read from the store; none if it is unknown or no
  longer active. Service accounts hold no capability yet. */
  function Load(s: Store, key: Key): (r: Option<set<Capability>>) {
    match key.principal
    case Member(m) =>
      var ids := RoleIds(s, key.workspace, m);
      if !MemberIn(s, key.workspace, m) || !s.members[m].active then None
      else if exists r | r in ids :: !RoleIn(s, key.workspace, r) then None
      else Some(CapabilitiesOf(s, ids))
    case ServiceAccount(a) =>
      if !AccountIn(s, key.workspace, a) || !s.accounts[a].active then None else Some({})
  }

  predicate Grants(cs: set<Capability>, c: Capability) {
    c in cs || WORKSPACE_ADMIN in cs
  }

  /** The answer without a cache. */
  predicate Decide(mode: Mode, s: Store, w: Id, principal: Option<Principal>, c: Capability) {
    match principal
    case None => mode.LocalTrusted?
    case Some(p) =>
      ActiveWorkspace(s, w) && Load(s, Key(w, p)).Some? && Grants(Load(s, Key(w, p)).value, c)
  }

  type Cache = map<Key, set<Capability>>

  datatype Answer = Answer(allowed: bool, cache: Cache)

  /** The answer through the cache, and the cache it leaves. A failed load is not
  remembered. */
  function Authorize(mode: Mode, s: Store, cache: Cache, w: Id, principal: Option<Principal>, c: Capability)
    : (r: Answer)
  {
    match principal
    case None => Answer(mode.LocalTrusted?, cache)
    case Some(p) =>
      var key := Key(w, p);
      if !ActiveWorkspace(s, w) then Answer(false, cache)
      else if key in cache then Answer(Grants(cache[key], c), cache)
      else match Load(s, key)
        case None => Answer(false, cache)
        case Some(cs) => Answer(Grants(cs, c), cache[key := cs])
  }

  function Invalidate(cache: Cache, w: Id): (r: Cache) {
    map key | key in cache && key.workspace != w :: cache[key]
  }

  // ------------------------------------------------------------------------- runs

  /** Requests name a workspace and may carry a principal. */
  datatype Request =
    | Check(workspace: Id, principal: Option<Principal>, capability: Capability)
    | Identities(workspace: Id, principal: Option<Principal>, mutation: Mutation, valid: bool)
    | Archive(workspace: Id, principal: Option<Principal>, target: Id, valid: bool)
    | CreateWorkspace(workspace: Id, target: Id, valid: bool)

  datatype Response = Denied | Refused | Done

  function ArchiveIn(s: Store, w: Id, target: Id, valid: bool): (r: Option<Store>) {
    if target != w || !ActiveWorkspace(s, target) || !valid then None
    else Some(s.(workspaces := s.workspaces[target := false]))
  }

  function CreateIn(s: Store, w: Id, target: Id, valid: bool): (r: Option<Store>) {
    if target != w || target in s.workspaces || !valid then None
    else Some(s.(workspaces := s.workspaces[target := true]))
  }

  datatype Plain = Plain(store: Store, response: Response)

  function Outcome(s: Store, r: Option<Store>): Plain {
    if r.Some? then Plain(r.value, Done) else Plain(s, Refused)
  }

  /** One request without a cache. */
  function PlainStep(mode: Mode, s: Store, req: Request): (r: Plain) {
    match req
    case Check(w, p, c) => Plain(s, if Decide(mode, s, w, p, c) then Done else Denied)
    case Identities(w, p, m, valid) =>
      if !Decide(mode, s, w, p, WORKSPACE_WRITE) || !Decide(mode, s, w, p, IDENTITY_MANAGE) then Plain(s, Denied)
      else Outcome(s, Apply(s, w, m, valid))
    case Archive(w, p, target, valid) =>
      if !Decide(mode, s, w, p, WORKSPACE_WRITE) then Plain(s, Denied)
      else Outcome(s, ArchiveIn(s, w, target, valid))
    case CreateWorkspace(w, target, valid) =>
      if !mode.LocalTrusted? then Plain(s, Denied)
      else Outcome(s, CreateIn(s, w, target, valid))
  }

  datatype Cached = Cached(store: Store, cache: Cache, response: Response)

  /** One request through the cache: identity changes drop what is cached for
  their workspace, archiving does not. */
  function CachedStep(mode: Mode, s: Store, cache: Cache, req: Request): (r: Cached) {
    match req
    case Check(w, p, c) =>
      var a := Authorize(mode, s, cache, w, p, c);
      Cached(s, a.cache, if a.allowed then Done else Denied)
    case Identities(w, p, m, valid) =>
      var a := Authorize(mode, s, cache, w, p, WORKSPACE_WRITE);
      if !a.allowed then Cached(s, a.cache, Denied)
      else
        var b := Authorize(mode, s, a.cache, w, p, IDENTITY_MANAGE);
        if !b.allowed then Cached(s, b.cache, Denied)
        else
          var t := Apply(s, w, m, valid);
          if t.None? then Cached(s, b.cache, Refused) else Cached(t.value, Invalidate(b.cache, w), Done)
    case Archive(w, p, target, valid) =>
      var a := Authorize(mode, s, cache, w, p, WORKSPACE_WRITE);
      if !a.allowed then Cached(s, a.cache, Denied)
      else
        var o := Outcome(s, ArchiveIn(s, w, target, valid));
        Cached(o.store, a.cache, o.response)
    case CreateWorkspace(w, target, valid) =>
      if !mode.LocalTrusted? then Cached(s, cache, Denied)
      else
        var o := Outcome(s, CreateIn(s, w, target, valid));
        Cached(o.store, cache, o.response)
  }

  /** Every cached entry is what a fresh load gives. */
  predicate Coherent(s: Store, cache: Cache) {
    forall key | key in cache :: Load(s, key) == Some(cache[key])
  }

  lemma {:induction false} AuthorizeExact(mode: Mode, s: Store, cache: Cache, w: Id, principal: Option<Principal>,
                                          c: Capability)
    requires Coherent(s, cache)
    ensures var a := Authorize(mode, s, cache, w, principal, c);
            a.allowed == Decide(mode, s, w, principal, c) && Coherent(s, a.cache)
  {
  }

  /** A change in one workspace leaves what is loaded in the others alone. */
  lemma {:induction false} ApplyLocal(s: Store, w: Id, m: Mutation, valid: bool, key: Key)
    requires key.workspace != w && Apply(s, w, m, valid).Some?
    ensures Load(Apply(s, w, m, valid).value, key) == Load(s, key)
  {
    var t := Apply(s, w, m, valid).value;
    if key.principal.Member? {
      var ids := RoleIds(s, key.workspace, key.principal.id);
      assert RoleIds(t, key.workspace, key.principal.id) == ids;
      assert forall r | r in ids :: RoleIn(t, key.workspace, r) == RoleIn(s, key.workspace, r);
      if forall r | r in ids :: RoleIn(s, key.workspace, r) {
        assert forall r | r in ids :: t.roles[r] == s.roles[r];
        assert CapabilitiesOf(t, ids) == CapabilitiesOf(s, ids);
      }
    }
  }

  /** Archiving or creating a workspace changes no identity. */
  lemma {:induction false} WorkspacesOnly(s: Store, t: Store, key: Key)
    requires t == s.(workspaces := t.workspaces)
    ensures Load(t, key) == Load(s, key)
  {
  }

  lemma {:induction false} InvalidateCoherent(s: Store, cache: Cache, w: Id, m: Mutation, valid: bool)
    requires Coherent(s, cache) && Apply(s, w, m, valid).Some?
    ensures Coherent(Apply(s, w, m, valid).value, Invalidate(cache, w))
  {
    forall key | key in Invalidate(cache, w)
      ensures Load(Apply(s, w, m, valid).value, key) == Some(cache[key])
    {
      ApplyLocal(s, w, m, valid, key);
    }
  }

  lemma {:induction false} WorkspacesCoherent(s: Store, t: Store, cache: Cache)
    requires Coherent(s, cache) && t == s.(workspaces := t.workspaces)
    ensures Coherent(t, cache)
  {
  }

  /** A coherent cache stays coherent and cannot be told from no cache. */
  lemma {:induction false} StepTransparent(mode: Mode, s: Store, cache: Cache, req: Request)
    requires Coherent(s, cache)
    ensures var c := CachedStep(mode, s, cache, req);
            Coherent(c.store, c.cache) && Plain(c.store, c.response) == PlainStep(mode, s, req)
  {
    match req
    case Check(w, p, c) => AuthorizeExact(mode, s, cache, w, p, c);
    case Identities(w, p, m, valid) =>
      AuthorizeExact(mode, s, cache, w, p, WORKSPACE_WRITE);
      var a := Authorize(mode, s, cache, w, p, WORKSPACE_WRITE);
      AuthorizeExact(mode, s, a.cache, w, p, IDENTITY_MANAGE);
      if Apply(s, w, m, valid).Some? {
        InvalidateCoherent(s, Authorize(mode, s, a.cache, w, p, IDENTITY_MANAGE).cache, w, m, valid);
      }
    case Archive(w, p, target, valid) =>
      AuthorizeExact(mode, s, cache, w, p, WORKSPACE_WRITE);
      WorkspacesCoherent(s, Outcome(s, ArchiveIn(s, w, target, valid)).store,
                         Authorize(mode, s, cache, w, p, WORKSPACE_WRITE).cache);
    case CreateWorkspace(w, target, valid) =>
      WorkspacesCoherent(s, Outcome(s, CreateIn(s, w, target, valid)).store, cache);
  }

  /** The stores and responses of a run of requests, without a cache. */
  function PlainRun(mode: Mode, s: Store, reqs: seq<Request>): (r: (Store, seq<Response>))
    decreases |reqs|
  {
    if reqs == [] then (s, [])
    else
      var step := PlainStep(mode, s, reqs[0]);
      var rest := PlainRun(mode, step.store, reqs[1..]);
      (rest.0, [step.response] + rest.1)
  }

  /** The same through the cache. */
  function CachedRun(mode: Mode, s: Store, cache: Cache, reqs: seq<Request>): (r: (Store, Cache, seq<Response>))
    decreases |reqs|
  {
    if reqs == [] then (s, cache, [])
    else
      var step := CachedStep(mode, s, cache, reqs[0]);
      var rest := CachedRun(mode, step.store, step.cache, reqs[1..]);
      (rest.0, rest.1, [step.response] + rest.2)
  }

  /** Over every run from an empty cache, each entry is a fresh load and every
  response is the uncached one. */
  lemma {:induction false} RunTransparent(mode: Mode, s: Store, cache: Cache, reqs: seq<Request>)
    requires Coherent(s, cache)
    ensures var c := CachedRun(mode, s, cache, reqs);
            Coherent(c.0, c.1) && (c.0, c.2) == PlainRun(mode, s, reqs)
    decreases |reqs|
  {
    if reqs != [] {
      var step := CachedStep(mode, s, cache, reqs[0]);
      StepTransparent(mode, s, cache, reqs[0]);
      RunTransparent(mode, step.store, step.cache, reqs[1..]);
    }
  }

  /** A request in one workspace never changes a decision in another. */
  lemma {:induction false} StepIsolated(mode: Mode, s: Store, req: Request, w: Id, p: Option<Principal>, c: Capability)
    requires w != req.workspace
    ensures Decide(mode, PlainStep(mode, s, req).store, w, p, c) == Decide(mode, s, w, p, c)
  {
    var t := PlainStep(mode, s, req).store;
    if p.Some? {
      var key := Key(w, p.value);
      match req
      case Check(_, _, _) =>
      case Identities(v, _, m, valid) =>
        if t != s {
          ApplyLocal(s, v, m, valid, key);
        }
      case Archive(_, _, _, _) => WorkspacesOnly(s, t, key);
      case CreateWorkspace(_, _, _) => WorkspacesOnly(s, t, key);
    }
  }

  /** A principal that is known in a workspace and no longer active. */
  predicate Revoked(s: Store, w: Id, p: Principal) {
    match p
    case Member(m) => MemberIn(s, w, m) && !s.members[m].active
    case ServiceAccount(a) => AccountIn(s, w, a) && !s.accounts[a].active
  }

  lemma {:induction false} RunKeepsRevoked(mode: Mode, s: Store, reqs: seq<Request>, w: Id, p: Principal)
    requires Revoked(s, w, p)
    ensures Revoked(PlainRun(mode, s, reqs).0, w, p)
    decreases |reqs|
  {
    if reqs != [] {
      RunKeepsRevoked(mode, PlainStep(mode, s, reqs[0]).store, reqs[1..], w, p);
    }
  }

  /** Once a revocation is answered, no later request of that principal is
  allowed, whatever was cached before and whatever happens in between. */
  lemma {:induction false} RevocationHolds(mode: Mode, s: Store, cache: Cache, caller: Option<Principal>, w: Id,
                                           p: Principal,
                        reqs: seq<Request>, c: Capability)
    requires Coherent(s, cache)
    ensures var m := if p.Member? then RevokeMember(p.id) else RevokeServiceAccount(p.id);
            var first := CachedStep(mode, s, cache, Identities(w, caller, m, true));
            var later := CachedRun(mode, first.store, first.cache, reqs);
            first.response.Done? ==> !Authorize(mode, later.0, later.1, w, Some(p), c).allowed
  {
    var m := if p.Member? then RevokeMember(p.id) else RevokeServiceAccount(p.id);
    var req := Identities(w, caller, m, true);
    var first := CachedStep(mode, s, cache, req);
    StepTransparent(mode, s, cache, req);
    RunTransparent(mode, first.store, first.cache, reqs);
    if first.response.Done? {
      var later := CachedRun(mode, first.store, first.cache, reqs);
      RunKeepsRevoked(mode, first.store, reqs, w, p);
      AuthorizeExact(mode, later.0, later.1, w, Some(p), c);
    }
  }

  lemma {:induction false} RunKeepsArchived(mode: Mode, s: Store, reqs: seq<Request>, w: Id)
    requires w in s.workspaces && !s.workspaces[w]
    ensures w in PlainRun(mode, s, reqs).0.workspaces && !PlainRun(mode, s, reqs).0.workspaces[w]
    decreases |reqs|
  {
    if reqs != [] {
      RunKeepsArchived(mode, PlainStep(mode, s, reqs[0]).store, reqs[1..], w);
    }
  }

  /** Once an archival is answered no principal is allowed anything there, though
  the cache is not cleared. */
  lemma {:induction false} ArchivalHolds(mode: Mode, s: Store, cache: Cache, caller: Option<Principal>, w: Id,
                                         target: Id,
                      reqs: seq<Request>, p: Principal, c: Capability)
    requires Coherent(s, cache)
    ensures var first := CachedStep(mode, s, cache, Archive(w, caller, target, true));
            var later := CachedRun(mode, first.store, first.cache, reqs);
            first.response.Done? ==> target == w && !Authorize(mode, later.0, later.1, w, Some(p), c).allowed
  {
    var req := Archive(w, caller, target, true);
    var first := CachedStep(mode, s, cache, req);
    StepTransparent(mode, s, cache, req);
    RunTransparent(mode, first.store, first.cache, reqs);
    if first.response.Done? {
      RunKeepsArchived(mode, first.store, reqs, w);
    }
  }

  // ------------------------------------------------------- what decisions mean

  /** The member holds a role of the workspace with the capability. */
  predicate HoldsBy(s: Store, w: Id, m: Id, c: Capability) {
    exists g | g in s.grants ::
      g.workspace == w && g.member == m && g.role in s.roles && c in s.roles[g.role].capabilities
  }

  /** Every role granted to the member in the workspace is one of the workspace. */
  predicate RolesKnown(s: Store, w: Id, m: Id) {
    forall g | g in s.grants && g.workspace == w && g.member == m :: RoleIn(s, w, g.role)
  }

  predicate ActiveMember(s: Store, w: Id, m: Id) {
    MemberIn(s, w, m) && s.members[m].active
  }

  /** Who is allowed what, on the store alone: callers without a principal in local mode
  only, service accounts never, and members of an active workspace by the roles
  granted to them there. */
  lemma {:induction false} DecideExact(mode: Mode, s: Store, w: Id, principal: Option<Principal>, c: Capability)
    ensures Decide(mode, s, w, principal, c) <==>
            match principal
            case None => mode.LocalTrusted?
            case Some(ServiceAccount(_)) => false
            case Some(Member(m)) =>
              && ActiveWorkspace(s, w) && ActiveMember(s, w, m) && RolesKnown(s, w, m)
              && (HoldsBy(s, w, m, c) || HoldsBy(s, w, m, "workspace:admin"))
  {
    match principal
    case Some(Member(m)) =>
      RolesKnownExactly(s, w, m);
      HoldsExactly(s, w, m, c);
      HoldsExactly(s, w, m, WORKSPACE_ADMIN);
    case _ =>
  }

  lemma {:induction false} RolesKnownExactly(s: Store, w: Id, m: Id)
    ensures RolesKnown(s, w, m) <==> forall r | r in RoleIds(s, w, m) :: RoleIn(s, w, r)
  {
    if forall r | r in RoleIds(s, w, m) :: RoleIn(s, w, r) {
      forall g | g in s.grants && g.workspace == w && g.member == m ensures RoleIn(s, w, g.role) {
        assert g.role in RoleIds(s, w, m);
      }
    }
  }

  lemma {:induction false} HoldsExactly(s: Store, w: Id, m: Id, c: Capability)
    ensures HoldsBy(s, w, m, c) <==> c in CapabilitiesOf(s, RoleIds(s, w, m))
  {
    if HoldsBy(s, w, m, c) {
      var g :| g in s.grants && g.workspace == w && g.member == m && g.role in s.roles
               && c in s.roles[g.role].capabilities;
      assert g.role in RoleIds(s, w, m);
    }
  }

  /** What is loaded for a principal: for an active member whose roles are known, exactly
  the capabilities of those roles; for an active service account nothing. */
  lemma {:induction false} LoadExact(s: Store, key: Key)
    ensures match key.principal
            case Member(m) =>
              && (Load(s, key).Some? <==> ActiveMember(s, key.workspace, m) && RolesKnown(s, key.workspace, m))
              && (Load(s, key).Some? ==> forall c :: c in Load(s, key).value <==> HoldsBy(s, key.workspace, m, c))
            case ServiceAccount(a) =>
              && (Load(s, key).Some? <==> AccountIn(s, key.workspace, a) && s.accounts[a].active)
              && (Load(s, key).Some? ==> Load(s, key).value == {})
  {
    match key.principal
    case Member(m) =>
      RolesKnownExactly(s, key.workspace, m);
      forall c ensures HoldsBy(s, key.workspace, m, c) <==> c in CapabilitiesOf(s, RoleIds(s, key.workspace, m)) {
        HoldsExactly(s, key.workspace, m, c);
      }
    case ServiceAccount(_) =>
  }

  /** Grants name members and roles of their own workspace. */
  predicate Sound(s: Store) {
    forall g | g in s.grants :: MemberIn(s, g.workspace, g.member) && RoleIn(s, g.workspace, g.role)
  }

  lemma {:induction false} StepKeepsSound(mode: Mode, s: Store, req: Request)
    requires Sound(s)
    ensures Sound(PlainStep(mode, s, req).store)
  {
  }

  lemma {:induction false} RunKeepsSound(mode: Mode, s: Store, reqs: seq<Request>)
    requires Sound(s)
    ensures Sound(PlainRun(mode, s, reqs).0)
    decreases |reqs|
  {
    if reqs != [] {
      StepKeepsSound(mode, s, reqs[0]);
      RunKeepsSound(mode, PlainStep(mode, s, reqs[0]).store, reqs[1..]);
    }
  }

  /** The member holds the capability by a role other than this one. */
  predicate HoldsByOther(s: Store, w: Id, m: Id, c: Capability, role: Id) {
    exists g | g in s.grants ::
      && g.workspace == w && g.member == m && g.role != role
      && g.role in s.roles && c in s.roles[g.role].capabilities
  }

  predicate Assigned(s: Store, w: Id, m: Id, role: Id) {
    Grant(w, m, role) in s.grants
  }

  /** What a change does to who holds what in its workspace. */
  lemma {:induction false} ChangeHolds(s: Store, w: Id, m: Mutation, x: Id, c: Capability)
    requires Sound(s) && Apply(s, w, m, true).Some?
    ensures var t := Apply(s, w, m, true).value;
            match m
            case AssignRole(member, role) =>
              HoldsBy(t, w, x, c) <==> HoldsBy(s, w, x, c) || (x == member && c in s.roles[role].capabilities)
            case SetRoleCapabilities(role, capabilities) =>
              HoldsBy(t, w, x, c) <==>
                HoldsByOther(s, w, x, c, role) || (Assigned(s, w, x, role) && c in capabilities)
            case _ => HoldsBy(t, w, x, c) <==> HoldsBy(s, w, x, c)
  {
    var t := Apply(s, w, m, true).value;
    match m
    case AssignRole(member, role) =>
      var g := Grant(w, member, role);
      assert t.grants == s.grants + {g} && g in t.grants;
      if HoldsBy(s, w, x, c) {
        var h :| h in s.grants && h.workspace == w && h.member == x && h.role in s.roles
                 && c in s.roles[h.role].capabilities;
        assert h in t.grants;
      }
    case SetRoleCapabilities(role, capabilities) =>
      if HoldsByOther(s, w, x, c, role) {
        var h :| h in s.grants && h.workspace == w && h.member == x && h.role != role && h.role in s.roles
                 && c in s.roles[h.role].capabilities;
        assert h in t.grants && t.roles[h.role] == s.roles[h.role];
      }
      if HoldsBy(t, w, x, c) {
        var h :| h in t.grants && h.workspace == w && h.member == x && h.role in t.roles
                 && c in t.roles[h.role].capabilities;
        assert h in s.grants;
        if h.role == role {
          assert h == Grant(w, x, role);
        }
      }
    case CreateRole(id) => HoldsInBoth(s, t, w, x, c);
    case _ => HoldsInBoth(s, t, w, x, c);
  }

  /** Where grants and the granted roles stay, holdings stay. */
  lemma {:induction false} HoldsInBoth(s: Store, t: Store, w: Id, x: Id, c: Capability)
    requires s.grants == t.grants
    requires forall g | g in s.grants :: g.role in s.roles && g.role in t.roles && s.roles[g.role] == t.roles[g.role]
    ensures HoldsBy(t, w, x, c) <==> HoldsBy(s, w, x, c)
  {
  }

  /** A new member holds nothing. */
  lemma {:induction false} NewMemberHoldsNothing(s: Store, w: Id, id: Id, c: Capability)
    requires Sound(s) && id !in s.members
    ensures !HoldsBy(s, w, id, c)
  {
  }

  /** What an identity change does to the decisions in its workspace, for every member
  and capability. */
  lemma {:induction false} ChangeDecides(mode: Mode, s: Store, w: Id, m: Mutation, x: Id, c: Capability)
    requires Sound(s) && ActiveWorkspace(s, w) && Apply(s, w, m, true).Some?
    ensures var t := Apply(s, w, m, true).value;
            var before, after := Decide(mode, s, w, Some(Member(x)), c), Decide(mode, t, w, Some(Member(x)), c);
            match m
            case CreateMember(id) => after <==> x != id && before
            case RevokeMember(id) => after <==> x != id && before
            case AssignRole(member, role) =>
              var added := s.roles[role].capabilities;
              after <==> before || (x == member && ActiveMember(s, w, x) && (c in added || "workspace:admin" in added))
            case SetRoleCapabilities(role, now) =>
              after <==> && ActiveMember(s, w, x)
                         && (|| HoldsByOther(s, w, x, c, role) || HoldsByOther(s, w, x, "workspace:admin", role)
                             || (Assigned(s, w, x, role) && (c in now || "workspace:admin" in now)))
            case _ => after <==> before
  {
    var t := Apply(s, w, m, true).value;
    DecideExact(mode, s, w, Some(Member(x)), c);
    DecideExact(mode, t, w, Some(Member(x)), c);
    ChangeHolds(s, w, m, x, c);
    ChangeHolds(s, w, m, x, WORKSPACE_ADMIN);
    SoundRolesKnown(s, w, x);
    ApplyKeepsSound(s, w, m);
    SoundRolesKnown(t, w, x);
    if m.CreateMember? && x == m.id {
      NewMemberHoldsNothing(s, w, x, c);
      NewMemberHoldsNothing(s, w, x, WORKSPACE_ADMIN);
    }
  }

  lemma {:induction false} SoundRolesKnown(s: Store, w: Id, x: Id)
    requires Sound(s)
    ensures RolesKnown(s, w, x)
  {
  }

  lemma {:induction false} ApplyKeepsSound(s: Store, w: Id, m: Mutation)
    requires Sound(s) && Apply(s, w, m, true).Some?
    ensures Sound(Apply(s, w, m, true).value)
  {
  }

  /** Nothing changes the store without authority: a workspace is created in local mode
  only, archived by someone who may write it, and its identities changed by someone
  who may also manage them. */
  lemma {:induction false} ChangesAreAuthorized(mode: Mode, s: Store, req: Request)
    requires PlainStep(mode, s, req).store != s
    ensures PlainStep(mode, s, req).response.Done?
    ensures match req
            case Check(_, _, _) => false
            case CreateWorkspace(_, _, _) => mode.LocalTrusted?
            case Archive(w, p, target, _) => target == w && Decide(mode, s, w, p, "workspace:write")
            case Identities(w, p, _, _) =>
              Decide(mode, s, w, p, "workspace:write") && Decide(mode, s, w, p, "identity:manage")
  {
  }

  // ------------------------------------------------------------------ the service

  class Service {
    const mode: Mode
    var store: Store
    var cache: Cache

    constructor (mode: Mode, store: Store)
      ensures this.mode == mode && this.store == store && cache == map[]
      ensures Coherent(store, cache)
    {
      this.mode, this.store, this.cache := mode, store, map[];
    }

    /** Reads the roles one by one. */
    method LoadCapabilities(key: Key) returns (r: Option<set<Capability>>)
      ensures r == Load(store, key)
      ensures key.principal.ServiceAccount? && r.Some? ==> r.value == {}
      ensures key.principal.Member? ==>
                var w, m := key.workspace, key.principal.id;
                && (r.Some? <==> ActiveMember(store, w, m) && RolesKnown(store, w, m))
                && (r.Some? ==> forall c :: c in r.value <==> HoldsBy(store, w, m, c))
    {
      LoadExact(store, key);
      match key.principal
      case ServiceAccount(a) =>
        return if !AccountIn(store, key.workspace, a) || !store.accounts[a].active then None else Some({});
      case Member(m) =>
        if !MemberIn(store, key.workspace, m) || !store.members[m].active {
          return None;
        }
        var capabilities: set<Capability> := {};
        var ids := RoleIds(store, key.workspace, m);
        ghost var seen: set<Id> := {};
        var left := ids;
        while left != {}
          invariant seen + left == ids
          invariant forall r | r in seen :: RoleIn(store, key.workspace, r)
          invariant capabilities == CapabilitiesOf(store, seen)
          decreases left
        {
          var role :| role in left;
          if !RoleIn(store, key.workspace, role) {
            return None;
          }
          capabilities := capabilities + store.roles[role].capabilities;
          seen, left := seen + {role}, left - {role};
        }
        return Some(capabilities);
    }

    method CheckCapability(w: Id, principal: Option<Principal>, c: Capability) returns (allowed: bool)
      modifies `cache
      ensures Answer(allowed, cache) == Authorize(mode, store, old(cache), w, principal, c)
    {
      if principal.None? {
        return mode.LocalTrusted?;
      }
      if !ActiveWorkspace(store, w) {
        return false;
      }
      var key := Key(w, principal.value);
      var capabilities: set<Capability>;
      if key in cache {
        capabilities := cache[key];
      } else {
        var loaded := LoadCapabilities(key);
        if loaded.None? {
          return false;
        }
        cache := cache[key := loaded.value];
        capabilities := loaded.value;
      }
      return c in capabilities || WORKSPACE_ADMIN in capabilities;
    }

    /** Drops the entries of one workspace and no others, unchanged; what is left is
    coherent with any store that agrees on the other workspaces. */
    method InvalidateWorkspace(w: Id)
      modifies `cache
      ensures forall key :: key in cache <==> key in old(cache) && key.workspace != w
      ensures forall key | key in cache :: cache[key] == old(cache)[key]
      ensures (forall key | key in old(cache) && key.workspace != w :: Load(store, key) == Some(old(cache)[key]))
          ==> Coherent(store, cache)
    {
      cache := map key | key in cache && key.workspace != w :: cache[key];
    }

    /** One request, as a step of the cached run. */
    method Handle(req: Request) returns (response: Response)
      modifies this
      ensures Cached(store, cache, response) == CachedStep(mode, old(store), old(cache), req)
      ensures old(Coherent(store, cache)) ==> Coherent(store, cache)
      ensures old(Coherent(store, cache)) ==> Plain(store, response) == PlainStep(mode, old(store), req)
    {
      if Coherent(store, cache) {
        StepTransparent(mode, store, cache, req);
      }
      match req
      case Check(w, p, c) =>
        var allowed := CheckCapability(w, p, c);
        return if allowed then Done else Denied;
      case Identities(w, p, m, valid) =>
        var writes := CheckCapability(w, p, WORKSPACE_WRITE);
        if !writes {
          return Denied;
        }
        var manages := CheckCapability(w, p, IDENTITY_MANAGE);
        if !manages {
          return Denied;
        }
        var applied := Apply(store, w, m, valid);
        if applied.None? {
          return Refused;
        }
        store := applied.value;
        ghost var before := cache;
        InvalidateWorkspace(w);
        assert cache == Invalidate(before, w);
        return Done;
      case Archive(w, p, target, valid) =>
        var writes := CheckCapability(w, p, WORKSPACE_WRITE);
        if !writes {
          return Denied;
        }
        var applied := ArchiveIn(store, w, target, valid);
        if applied.None? {
          return Refused;
        }
        store := applied.value;
        return Done;
      case CreateWorkspace(w, target, valid) =>
        if !mode.LocalTrusted? {
          return Denied;
        }
        var applied := CreateIn(store, w, target, valid);
        if applied.None? {
          return Refused;
        }
        store := applied.value;
        return Done;
    }
  }

}
