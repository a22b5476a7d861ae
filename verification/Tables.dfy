/**
  The replicated state machine without indices: tables plus a set of membership
  edges. Every uniqueness check is a scan over rows. The indexed machine in
  module Fsm is proved to refine this one.
 */
module Tables {
  import opened Domain
  import opened Inverses

  datatype Edge = Edge(group: string, user: string)

  datatype Db = Db(
    users: map<string, User>,
    groups: map<string, Group>,
    tokens: map<string, Token>,
    projects: map<string, Project>,
    traces: map<string, TraceMeta>,
    meta: map<string, string>,
    edges: set<Edge>)

  const EMPTY := Db(map[], map[], map[], map[], map[], map[], {})

  type Fold = string -> string

  // --- secondary keys of the rows ---------------------------------------------

  ghost function UserNames(fold: Fold, users: map<string, User>): map<string, string> {
    map id | id in users :: fold(users[id].username)
  }

  ghost function UserOAuths(users: map<string, User>): map<string, string> {
    map id | id in users && users[id].oauthId != "" :: OAuthKey(users[id].oauthProvider, users[id].oauthId)
  }

  ghost function GroupNames(fold: Fold, groups: map<string, Group>): map<string, string> {
    map id | id in groups :: fold(groups[id].name)
  }

  ghost function ProjectNames(fold: Fold, projects: map<string, Project>): map<string, string> {
    map id | id in projects :: fold(projects[id].name)
  }

  ghost function TokenHashes(tokens: map<string, Token>): map<string, string> {
    map id | id in tokens :: tokens[id].tokenHash
  }

  ghost function TokenUsers(tokens: map<string, Token>): map<string, string> {
    map id | id in tokens :: tokens[id].userId
  }

  // --- one function per command -------------------------------------------------

  function Stamp(given: Time, fallback: Time): Time {
    if given == ZERO_TIME then fallback else given
  }

  /** Insert-only and update-only upserts, each refusing a key that is taken. */
  function Verdict(present: bool, create: bool, taken: bool): Outcome {
    if present && create then Err(Conflict)
    else if !present && !create then Err(NotFound)
    else if taken then Err(Conflict)
    else Ok(true)
  }

  /** The row as stored: creation times stay, a missing update time is filled in. */
  function UserRow(users: map<string, User>, u: User): User {
    if u.id in users then u.(createdAt := users[u.id].createdAt, updatedAt := Stamp(u.updatedAt, users[u.id].updatedAt))
    else u.(updatedAt := Stamp(u.updatedAt, u.createdAt))
  }

  function GroupRow(groups: map<string, Group>, g: Group): Group {
    if g.id in groups then g.(createdAt := groups[g.id].createdAt, updatedAt := Stamp(g.updatedAt, groups[g.id].updatedAt))
    else g.(updatedAt := Stamp(g.updatedAt, g.createdAt))
  }

  function ProjectRow(projects: map<string, Project>, p: Project): Project {
    if p.id in projects
    then p.(createdAt := projects[p.id].createdAt, updatedAt := Stamp(p.updatedAt, projects[p.id].updatedAt))
    else p.(updatedAt := Stamp(p.updatedAt, p.createdAt))
  }

  /** Another user has the name or, where given, the OAuth identity. */
  ghost predicate UserTaken(fold: Fold, users: map<string, User>, u: User) {
    || Taken(UserNames(fold, users), u.id, fold(u.username))
    || (u.oauthId != "" && Taken(UserOAuths(users), u.id, OAuthKey(u.oauthProvider, u.oauthId)))
  }

  ghost function UpsertUser(fold: Fold, db: Db, u: User, create: bool): (r: (Db, Outcome))
    ensures r.0 == db.(users := r.0.users)
  {
    var out := Verdict(u.id in db.users, create, UserTaken(fold, db.users, u));
    (if out.Ok? then db.(users := db.users[u.id := UserRow(db.users, u)]) else db, out)
  }

  ghost function WithoutUserTokens(tokens: map<string, Token>, userId: string): map<string, Token> {
    map id | id in tokens && tokens[id].userId != userId :: tokens[id]
  }

  ghost function ForgetUser(traces: map<string, TraceMeta>, userId: string): map<string, TraceMeta> {
    map t | t in traces :: if traces[t].userId == userId then traces[t].(userId := "") else traces[t]
  }

  ghost function ForgetGroup(traces: map<string, TraceMeta>, groupId: string): map<string, TraceMeta> {
    map t | t in traces :: if traces[t].groupId == groupId then traces[t].(groupId := "") else traces[t]
  }

  ghost function UnassignProjects(projects: map<string, Project>, groupId: string): map<string, Project> {
    map p | p in projects :: if projects[p].groupId == groupId then projects[p].(groupId := "") else projects[p]
  }

  ghost function WithoutUser(edges: set<Edge>, id: string): set<Edge> {
    set e | e in edges && e.user != id
  }

  ghost function WithoutGroup(edges: set<Edge>, id: string): set<Edge> {
    set e | e in edges && e.group != id
  }

  ghost function MemberEdges(groupId: string, userIds: seq<string>): set<Edge> {
    set u | u in userIds :: Edge(groupId, u)
  }

  ghost function DeleteUser(db: Db, id: string): (r: (Db, Outcome))
    ensures r.0 == db.(users := r.0.users, tokens := r.0.tokens, edges := r.0.edges, traces := r.0.traces)
  {
    if id !in db.users then (db, Err(NotFound))
    else (db.(users := db.users - {id},
              tokens := WithoutUserTokens(db.tokens, id),
              edges := WithoutUser(db.edges, id),
              traces := ForgetUser(db.traces, id)), Ok(true))
  }

  ghost function UpsertGroup(fold: Fold, db: Db, g: Group, create: bool): (r: (Db, Outcome))
    ensures r.0 == db.(groups := r.0.groups)
  {
    var out := Verdict(g.id in db.groups, create, Taken(GroupNames(fold, db.groups), g.id, fold(g.name)));
    (if out.Ok? then db.(groups := db.groups[g.id := GroupRow(db.groups, g)]) else db, out)
  }

  ghost function DeleteGroup(db: Db, id: string): (r: (Db, Outcome))
    ensures r.0 == db.(groups := r.0.groups, projects := r.0.projects, edges := r.0.edges, traces := r.0.traces)
  {
    if id !in db.groups then (db, Err(NotFound))
    else (db.(groups := db.groups - {id},
              projects := UnassignProjects(db.projects, id),
              edges := WithoutGroup(db.edges, id),
              traces := ForgetGroup(db.traces, id)), Ok(true))
  }

  ghost function SetMembers(db: Db, groupId: string, userIds: seq<string>): (r: (Db, Outcome))
    ensures r.0 == db.(edges := r.0.edges)
  {
    if groupId !in db.groups || exists u <- userIds :: u !in db.users then (db, Err(NotFound))
    else (db.(edges := WithoutGroup(db.edges, groupId) + MemberEdges(groupId, userIds)), Ok(true))
  }

  ghost function UpsertProject(fold: Fold, db: Db, p: Project, create: bool): (r: (Db, Outcome))
    ensures r.0 == db.(projects := r.0.projects)
  {
    var out := Verdict(p.id in db.projects, create, Taken(ProjectNames(fold, db.projects), p.id, fold(p.name)));
    (if out.Ok? then db.(projects := db.projects[p.id := ProjectRow(db.projects, p)]) else db, out)
  }

  ghost function DeleteProject(db: Db, id: string): (r: (Db, Outcome))
    ensures r.0 == db.(projects := r.0.projects)
  {
    if id !in db.projects then (db, Err(NotFound)) else (db.(projects := db.projects - {id}), Ok(true))
  }

  /** The hash belongs to some other user's token. */
  ghost predicate HashTaken(tokens: map<string, Token>, t: Token) {
    exists o :: o in tokens && tokens[o].tokenHash == t.tokenHash && tokens[o].userId != t.userId
  }

  ghost function UpsertToken(db: Db, t: Token): (r: (Db, Outcome))
    ensures r.0 == db.(tokens := r.0.tokens)
  {
    if HashTaken(db.tokens, t) then (db, Err(Conflict))
    else (db.(tokens := WithoutUserTokens(db.tokens, t.userId)[t.id := t]), Ok(true))
  }

  ghost function TouchToken(db: Db, id: string, at: Time): (r: Db)
    ensures r == db.(tokens := r.tokens)
  {
    if id !in db.tokens then db
    else db.(tokens := db.tokens[id := db.tokens[id].(lastUsedAt := Some(at))])
  }

  function First(a: string, b: string): string {
    if a == "" then b else a
  }

  function Latest(was: string, given: string): string {
    First(given, was)
  }

  function ProvisionRow(row: Option<TraceMeta>, id: string, user: string, version: string, at: Time): TraceMeta {
    match row
    case None => TraceMeta(id, user, "", "", "", "", version, "", "", 0, ZERO_TIME, at)
    case Some(m) => m.(userId := First(m.userId, user), version := Latest(m.version, version), updatedAt := at)
  }

  /** A terminal status always wins; any other one only over a non-terminal row. */
  function IngestStatus(e: TraceMeta, m: TraceMeta): string {
    if Terminal(m.status) then m.status
    else if m.status != "" && !Terminal(e.status) then m.status
    else e.status
  }

  function IngestRow(row: Option<TraceMeta>, m: TraceMeta): TraceMeta {
    match row
    case None => m
    case Some(e) =>
      e.(groupId := First(e.groupId, m.groupId),
         projectName := Latest(e.projectName, m.projectName),
         status := IngestStatus(e, m),
         failureReason := if Terminal(m.status) then "" else e.failureReason,
         version := Latest(e.version, m.version),
         ciProvider := Latest(e.ciProvider, m.ciProvider),
         ciRepo := Latest(e.ciRepo, m.ciRepo),
         durationMs := if m.durationMs != 0 then m.durationMs else e.durationMs,
         startedAt := Stamp(m.startedAt, e.startedAt),
         updatedAt := m.updatedAt)
  }

  function FailRow(m: TraceMeta, reason: string, at: Time): TraceMeta {
    if Terminal(m.status) then m
    else m.(status := "failed", failureReason := reason, updatedAt := at)
  }

  function RowOf(traces: map<string, TraceMeta>, id: string): Option<TraceMeta> {
    if id in traces then Some(traces[id]) else None
  }

  ghost function MarkFailed(db: Db, id: string, reason: string, at: Time): (r: (Db, Outcome))
    ensures r.0 == db.(traces := r.0.traces)
  {
    if id !in db.traces then (db, Ok(false))
    else (db.(traces := db.traces[id := FailRow(db.traces[id], reason, at)]), Ok(!Terminal(db.traces[id].status)))
  }

  // --- dispatch -----------------------------------------------------------------

  /** A decoded log entry. `Nop` covers the retired kinds and the session kinds, which touch no table. */
  datatype Action =
    | DoUpsertUser(user: User, create: bool)
    | DoDeleteUser(id: string)
    | DoUpsertGroup(group: Group, create: bool)
    | DoDeleteGroup(id: string)
    | DoSetMembers(groupId: string, userIds: seq<string>)
    | DoUpsertProject(project: Project, create: bool)
    | DoDeleteProject(id: string)
    | DoUpsertToken(token: Token)
    | DoDeleteToken(userId: string)
    | DoTouchToken(id: string, at: Time)
    | DoProvision(id: string, userId: string, version: string, at: Time)
    | DoIngest(row: TraceMeta)
    | DoMarkFailed(id: string, reason: string, at: Time)
    | DoSetMeta(key: string, val: string)
    | DoDeleteTrace(id: string)
    | Nop
    | Reject(error: Error)

  function DecodeEntity(kind: nat, p: Payload): Action {
    if kind == KIND_UPSERT_USER && p.UserPayload? then DoUpsertUser(p.user.ToDomain(), p.user.create)
    else if kind == KIND_DELETE_USER && p.IdPayload? then DoDeleteUser(p.id)
    else if kind == KIND_UPSERT_GROUP && p.GroupPayload? then DoUpsertGroup(p.group, p.createGroup)
    else if kind == KIND_DELETE_GROUP && p.IdPayload? then DoDeleteGroup(p.id)
    else if kind == KIND_SET_MEMBERS && p.MembersPayload? then DoSetMembers(p.groupId, p.userIds)
    else if kind == KIND_UPSERT_PROJECT && p.ProjectPayload? then DoUpsertProject(p.project, p.createProject)
    else if kind == KIND_DELETE_PROJECT && p.IdPayload? then DoDeleteProject(p.id)
    else if kind == KIND_UPSERT_TOKEN && p.TokenPayload? then DoUpsertToken(p.token)
    else if kind == KIND_DELETE_TOKEN && p.OwnerPayload? then DoDeleteToken(p.userId)
    else if kind == KIND_TOUCH_TOKEN && p.TouchPayload? then DoTouchToken(p.tokenId, p.at)
    else Reject(Undecodable)
  }

  function DecodeTrace(kind: nat, p: Payload): Action {
    if kind == KIND_TRACE_PROVISION && p.ProvisionPayload? then
      DoProvision(p.provTraceId, p.provUserId, p.provVersion, p.provAt)
    else if kind == KIND_TRACE_INGEST && p.IngestPayload? then DoIngest(p.row)
    else if kind == KIND_MARK_FAILED && p.FailPayload? then DoMarkFailed(p.failTraceId, p.reason, p.failAt)
    else if kind == KIND_SET_META && p.MetaPayload? then DoSetMeta(p.key, p.val)
    else if kind == KIND_DELETE_TRACE && p.TracePayload? then DoDeleteTrace(p.traceId)
    else Reject(Undecodable)
  }

  /** Retired kinds never look at their payload; slot 17 and anything past 25 is unknown. */
  function Decode(c: Command): Action {
    if 1 <= c.kind <= 10 then DecodeEntity(c.kind, c.payload)
    else if 11 <= c.kind <= 14 || c.kind == KIND_DELETE_TRACE then DecodeTrace(c.kind, c.payload)
    else if ReservedKind(c.kind) then Nop
    else if SessionKind(c.kind) then (if c.payload.LeasePayload? then Nop else Reject(Undecodable))
    else Reject(UnknownKind)
  }

  ghost function Provision(db: Db, id: string, userId: string, version: string, at: Time): (r: Db)
    ensures r == db.(traces := r.traces)
  {
    db.(traces := db.traces[id := ProvisionRow(RowOf(db.traces, id), id, userId, version, at)])
  }

  ghost function Ingest(db: Db, m: TraceMeta): (r: Db)
    ensures r == db.(traces := r.traces)
  {
    db.(traces := db.traces[m.traceId := IngestRow(RowOf(db.traces, m.traceId), m)])
  }

  ghost function Act(fold: Fold, db: Db, a: Action): (Db, Outcome) {
    match a
    case DoUpsertUser(u, create) => UpsertUser(fold, db, u, create)
    case DoDeleteUser(id) => DeleteUser(db, id)
    case DoUpsertGroup(g, create) => UpsertGroup(fold, db, g, create)
    case DoDeleteGroup(id) => DeleteGroup(db, id)
    case DoSetMembers(groupId, userIds) => SetMembers(db, groupId, userIds)
    case DoUpsertProject(p, create) => UpsertProject(fold, db, p, create)
    case DoDeleteProject(id) => DeleteProject(db, id)
    case DoUpsertToken(t) => UpsertToken(db, t)
    case DoDeleteToken(userId) => (db.(tokens := WithoutUserTokens(db.tokens, userId)), Ok(true))
    case DoTouchToken(id, at) => (TouchToken(db, id, at), Ok(true))
    case DoProvision(id, userId, version, at) => (Provision(db, id, userId, version, at), Ok(true))
    case DoIngest(m) => (Ingest(db, m), Ok(true))
    case DoMarkFailed(id, reason, at) => MarkFailed(db, id, reason, at)
    case DoSetMeta(key, val) => (db.(meta := db.meta[key := val]), Ok(true))
    case DoDeleteTrace(id) => (db.(traces := db.traces - {id}), Ok(true))
    case Nop => (db, Ok(true))
    case Reject(e) => (db, Err(e))
  }

  /** Applies one log entry: the deterministic core of the state machine. */
  ghost function Step(fold: Fold, db: Db, c: Command): (Db, Outcome) {
    Act(fold, db, Decode(c))
  }

  ghost function Run(fold: Fold, db: Db, log: seq<Command>): Db
    decreases |log|
  {
    if log == [] then db else Run(fold, Step(fold, db, log[0]).0, log[1..])
  }

  lemma {:induction false} RunAppend(fold: Fold, db: Db, a: seq<Command>, b: seq<Command>)
    ensures Run(fold, db, a + b) == Run(fold, Run(fold, db, a), b)
    decreases |a|
  {
    if a == [] {
      assert a + b == b;
    } else {
      assert (a + b)[1..] == a[1..] + b;
      RunAppend(fold, Step(fold, db, a[0]).0, a[1..], b);
    }
  }

  // --- consistency ----------------------------------------------------------------

  ghost predicate RowsKeyed(db: Db) {
    && (forall id <- db.users :: db.users[id].id == id)
    && (forall id <- db.groups :: db.groups[id].id == id)
    && (forall id <- db.tokens :: db.tokens[id].id == id)
    && (forall id <- db.projects :: db.projects[id].id == id)
    && (forall id <- db.traces :: db.traces[id].traceId == id)
  }

  ghost predicate UsersUnique(fold: Fold, users: map<string, User>) {
    Injective(UserNames(fold, users)) && Injective(UserOAuths(users))
  }

  ghost predicate TokensUnique(tokens: map<string, Token>) {
    Injective(TokenHashes(tokens)) && Injective(TokenUsers(tokens))
  }

  ghost predicate KeysUnique(fold: Fold, db: Db) {
    && UsersUnique(fold, db.users)
    && Injective(GroupNames(fold, db.groups))
    && Injective(ProjectNames(fold, db.projects))
    && TokensUnique(db.tokens)
  }

  ghost predicate EdgesLive(db: Db) {
    forall e <- db.edges :: e.group in db.groups && e.user in db.users
  }

  ghost predicate Consistent(fold: Fold, db: Db) {
    RowsKeyed(db) && KeysUnique(fold, db) && EdgesLive(db)
  }

  lemma UserKeysAfterPut(fold: Fold, users: map<string, User>, u: User)
    ensures UserNames(fold, users[u.id := u]) == UserNames(fold, users)[u.id := fold(u.username)]
    ensures UserOAuths(users[u.id := u]) ==
            if u.oauthId != "" then UserOAuths(users)[u.id := OAuthKey(u.oauthProvider, u.oauthId)]
            else UserOAuths(users) - {u.id}
  {
  }

  lemma TouchTokenKeepsKeys(tokens: map<string, Token>, id: string, at: Time)
    requires id in tokens
    ensures TokenHashes(tokens[id := tokens[id].(lastUsedAt := Some(at))]) == TokenHashes(tokens)
    ensures TokenUsers(tokens[id := tokens[id].(lastUsedAt := Some(at))]) == TokenUsers(tokens)
  {
  }
}
