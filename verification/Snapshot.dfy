/**
  Snapshots hold primary rows and edges only; Restore rebuilds every index and
  replaces the live state. The main result: cutting any log at any point with a
  snapshot and a restore yields the same fourteen maps as replaying it whole.
 */
module Snapshot {
  import opened Domain
  import opened Inverses
  import opened Tables
  import opened Coherence
  import opened Indexed
  import opened Refinement
  import opened Fsm

  datatype Payload = Payload(
    users: seq<CmdUser>,
    groups: seq<Group>,
    memberships: seq<Edge>,
    tokens: seq<Token>,
    projects: seq<Project>,
    traces: seq<TraceMeta>,
    meta: map<string, string>)

  /** The rows are the values of the table, in some order. */
  ghost predicate Lists<T(!new)>(rows: seq<T>, table: map<string, T>) {
    (forall r <- rows :: exists id :: id in table && table[id] == r) && (forall id <- table :: table[id] in rows)
  }

  ghost predicate ListsUsers(rows: seq<CmdUser>, table: map<string, User>) {
    && (forall r <- rows :: r.id in table && table[r.id] == r.ToDomain())
    && (forall id <- table :: CmdUserFrom(table[id]) in rows)
  }

  /** The payload records exactly this database, in whatever row order. */
  ghost predicate Captures(p: Payload, db: Db) {
    && ListsUsers(p.users, db.users)
    && Lists(p.groups, db.groups)
    && Lists(p.tokens, db.tokens)
    && Lists(p.projects, db.projects)
    && Lists(p.traces, db.traces)
    && p.meta == db.meta
    && (set e | e in p.memberships) == db.edges
  }

  method CopySlice<T(!new)>(table: map<string, T>) returns (out: seq<T>)
    ensures Lists(out, table) && |out| == |table|
  {
    out := [];
    var todo := table.Keys;
    while todo != {}
      invariant todo <= table.Keys && |out| + |todo| == |table|
      invariant forall r <- out :: exists id :: id in table && table[id] == r
      invariant forall id | id in table && id !in todo :: table[id] in out
    {
      var id :| id in todo;
      out := out + [table[id]];
      todo := todo - {id};
    }
  }

  method CopyUsers(users: map<string, User>) returns (out: seq<CmdUser>)
    requires forall id <- users :: users[id].id == id
    ensures ListsUsers(out, users) && |out| == |users|
  {
    out := [];
    var todo := users.Keys;
    while todo != {}
      invariant todo <= users.Keys && |out| + |todo| == |users|
      invariant forall r <- out :: r.id in users && users[r.id] == r.ToDomain()
      invariant forall id | id in users && id !in todo :: CmdUserFrom(users[id]) in out
    {
      var id :| id in todo;
      out := out + [CmdUserFrom(users[id])];
      todo := todo - {id};
    }
  }

  method CopyEdges(m: Adjacency) returns (out: seq<Edge>)
    ensures (set e | e in out) == EdgesOf(m)
  {
    out := [];
    var todo := m.Keys;
    while todo != {}
      invariant todo <= m.Keys
      invariant forall e :: e in out <==> e in EdgesOf(m) && e.group !in todo
    {
      var gid :| gid in todo;
      todo := todo - {gid};
      var members := m[gid];
      while members != {}
        invariant members <= m[gid]
        invariant forall e :: e in out <==> e in EdgesOf(m) && e.group !in todo && (e.group == gid ==> e.user !in members)
      {
        var uid :| uid in members;
        out := out + [Edge(gid, uid)];
        members := members - {uid};
      }
    }
  }

  method Snapshot(s: FsmState) returns (p: Payload)
    requires RowsKeyed(s.Database())
    ensures Captures(p, s.Database())
  {
    var groups := CopySlice(s.groups);
    var projects := CopySlice(s.projects);
    var traces := CopySlice(s.traces);
    var users := CopyUsers(s.users);
    var tokens := CopySlice(s.tokens);
    var edges := CopyEdges(s.memberships);
    p := Payload(users, groups, edges, tokens, projects, traces, s.meta);
  }

  // --- restoring ------------------------------------------------------------------

  ghost predicate Part<T>(some: map<string, T>, table: map<string, T>) {
    forall id <- some :: id in table && some[id] == table[id]
  }

  /** Storing a row of an injectively keyed table never collides with a stored one. */
  lemma KeyFree(some: map<string, string>, index: map<string, string>, all: map<string, string>, id: string)
    requires Inverse(some, index) && Within(some, all) && Injective(all) && id in all
    ensures id !in some ==> all[id] !in index
    ensures id in some ==> all[id] in index && index[all[id]] == id
  {
  }

  lemma NoUsers(fold: Fold)
    ensures UsersOk(fold, map[], map[], map[])
  {
  }

  lemma UserFree(fold: Fold, users: map<string, User>, byName: Index, byOAuth: Index, table: map<string, User>, u: User)
    requires UsersOk(fold, users, byName, byOAuth) && Part(users, table) && UsersUnique(fold, table)
    requires u.id in table && table[u.id] == u
    ensures UsersOk(fold, users[u.id := u], byName[fold(u.username) := u.id],
                    if u.oauthId != "" then byOAuth[OAuthKey(u.oauthProvider, u.oauthId) := u.id] else byOAuth)
  {
    hide OAuthKey, Injective;
    KeyFree(UserNames(fold, users), byName, UserNames(fold, table), u.id);
    if u.oauthId != "" { KeyFree(UserOAuths(users), byOAuth, UserOAuths(table), u.id); }
    if u.id in users {
      assert users[u.id := u] == users && byName[fold(u.username) := u.id] == byName;
      if u.oauthId != "" { assert byOAuth[OAuthKey(u.oauthProvider, u.oauthId) := u.id] == byOAuth; }
    } else {
      InsertUserOk(fold, users, byName, byOAuth, u);
    }
  }

  method LoadUser(s: FsmState, u: User, ghost table: map<string, User>)
    modifies s`users, s`usersByName, s`usersByOAuth
    ensures old(UsersLoading(s, table)) && u.id in table && table[u.id] == u ==>
            UsersLoading(s, table) && s.users.Keys == old(s.users.Keys) + {u.id}
  {
    if UsersLoading(s, table) && u.id in table && table[u.id] == u {
      UserFree(s.fold, s.users, s.usersByName, s.usersByOAuth, table, u);
    }
    s.StoreUser(u);
  }

  ghost predicate UsersLoading(s: FsmState, table: map<string, User>)
    reads s
  {
    UsersUnique(s.fold, table) && UsersOk(s.fold, s.users, s.usersByName, s.usersByOAuth) && Part(s.users, table)
  }

  lemma UserListed(rows: seq<CmdUser>, table: map<string, User>, i: nat)
    requires ListsUsers(rows, table) && i < |rows|
    ensures rows[i].id in table && table[rows[i].id] == rows[i].ToDomain()
  {
  }

  lemma UsersComplete(users: map<string, User>, rows: seq<CmdUser>, table: map<string, User>)
    requires Part(users, table) && ListsUsers(rows, table) && forall id <- table :: table[id].id == id
    requires forall k | 0 <= k < |rows| :: rows[k].id in users
    ensures users == table
  {
  }

  method LoadUsers(s: FsmState, rows: seq<CmdUser>, ghost table: map<string, User>)
    requires s.users == map[] && s.usersByName == map[] && s.usersByOAuth == map[]
    modifies s`users, s`usersByName, s`usersByOAuth
    ensures ListsUsers(rows, table) && UsersUnique(s.fold, table) && (forall id <- table :: table[id].id == id) ==>
            UsersOk(s.fold, s.users, s.usersByName, s.usersByOAuth) && s.users == table
  {
    hide UsersUnique, UsersOk, ListsUsers;
    ghost var faithful := ListsUsers(rows, table) && UsersUnique(s.fold, table);
    assert UsersOk(s.fold, map[], map[], map[]) by { NoUsers(s.fold); }
    for i := 0 to |rows|
      invariant faithful ==> UsersLoading(s, table) && forall k | 0 <= k < i :: rows[k].id in s.users
    {
      if faithful { UserListed(rows, table, i); }
      LoadUser(s, rows[i].ToDomain(), table);
    }
    if faithful && forall id <- table :: table[id].id == id { UsersComplete(s.users, rows, table); }
  }

  // --- the other tables ---------------------------------------------------------------

  ghost predicate Keyed<T>(table: map<string, T>, key: T -> string) {
    forall id <- table :: key(table[id]) == id
  }

  lemma RowListed<T(!new)>(rows: seq<T>, table: map<string, T>, key: T -> string, i: nat)
    requires Lists(rows, table) && Keyed(table, key) && i < |rows|
    ensures key(rows[i]) in table && table[key(rows[i])] == rows[i]
  {
    assert rows[i] in rows;
  }

  lemma RowsComplete<T(!new)>(some: map<string, T>, rows: seq<T>, table: map<string, T>, key: T -> string)
    requires Part(some, table) && Lists(rows, table) && Keyed(table, key)
    requires forall k | 0 <= k < |rows| :: key(rows[k]) in some
    ensures some == table
  {
  }

  lemma GroupFree(fold: Fold, groups: map<string, Group>, byName: Index, table: map<string, Group>, r: Group)
    requires GroupsOk(fold, groups, byName) && Part(groups, table) && Injective(GroupNames(fold, table))
    requires r.id in table && table[r.id] == r
    ensures GroupsOk(fold, groups[r.id := r], byName[fold(r.name) := r.id])
  {
    KeyFree(GroupNames(fold, groups), byName, GroupNames(fold, table), r.id);
    if r.id in groups {
      assert groups[r.id := r] == groups && byName[fold(r.name) := r.id] == byName;
    } else {
      InverseInsert(GroupNames(fold, groups), byName, r.id, fold(r.name));
      assert GroupNames(fold, groups[r.id := r]) == GroupNames(fold, groups)[r.id := fold(r.name)];
    }
  }

  ghost predicate GroupsLoading(s: FsmState, table: map<string, Group>)
    reads s
  {
    GroupsOk(s.fold, s.groups, s.groupsByName) && Part(s.groups, table)
  }

  method LoadGroups(s: FsmState, rows: seq<Group>, ghost table: map<string, Group>)
    requires s.groups == map[] && s.groupsByName == map[]
    modifies s`groups, s`groupsByName
    ensures Lists(rows, table) && Injective(GroupNames(s.fold, table)) && Keyed(table, (r: Group) => r.id) ==>
            GroupsOk(s.fold, s.groups, s.groupsByName) && s.groups == table
  {
    hide Lists, Injective, Keyed;
    ghost var faithful := Lists(rows, table) && Injective(GroupNames(s.fold, table)) && Keyed(table, (r: Group) => r.id);
    for i := 0 to |rows|
      invariant faithful ==> GroupsLoading(s, table) && forall k | 0 <= k < i :: rows[k].id in s.groups
    {
      if faithful {
        RowListed(rows, table, (r: Group) => r.id, i);
        GroupFree(s.fold, s.groups, s.groupsByName, table, rows[i]);
      }
      s.StoreGroup(rows[i]);
    }
    if faithful { RowsComplete(s.groups, rows, table, (r: Group) => r.id); }
  }

  lemma ProjectFree(fold: Fold, projects: map<string, Project>, byName: Index, table: map<string, Project>, r: Project)
    requires ProjectsOk(fold, projects, byName) && Part(projects, table) && Injective(ProjectNames(fold, table))
    requires r.id in table && table[r.id] == r
    ensures ProjectsOk(fold, projects[r.id := r], byName[fold(r.name) := r.id])
  {
    KeyFree(ProjectNames(fold, projects), byName, ProjectNames(fold, table), r.id);
    if r.id in projects {
      assert projects[r.id := r] == projects && byName[fold(r.name) := r.id] == byName;
    } else {
      InverseInsert(ProjectNames(fold, projects), byName, r.id, fold(r.name));
      assert ProjectNames(fold, projects[r.id := r]) == ProjectNames(fold, projects)[r.id := fold(r.name)];
    }
  }

  ghost predicate ProjectsLoading(s: FsmState, table: map<string, Project>)
    reads s
  {
    ProjectsOk(s.fold, s.projects, s.projectsByName) && Part(s.projects, table)
  }

  method LoadProjects(s: FsmState, rows: seq<Project>, ghost table: map<string, Project>)
    requires s.projects == map[] && s.projectsByName == map[]
    modifies s`projects, s`projectsByName
    ensures Lists(rows, table) && Injective(ProjectNames(s.fold, table)) && Keyed(table, (r: Project) => r.id) ==>
            ProjectsOk(s.fold, s.projects, s.projectsByName) && s.projects == table
  {
    hide Lists, Injective, Keyed;
    ghost var faithful := Lists(rows, table) && Injective(ProjectNames(s.fold, table)) && Keyed(table, (r: Project) => r.id);
    for i := 0 to |rows|
      invariant faithful ==> ProjectsLoading(s, table) && forall k | 0 <= k < i :: rows[k].id in s.projects
    {
      if faithful {
        RowListed(rows, table, (r: Project) => r.id, i);
        ProjectFree(s.fold, s.projects, s.projectsByName, table, rows[i]);
      }
      s.StoreProject(rows[i]);
    }
    if faithful { RowsComplete(s.projects, rows, table, (r: Project) => r.id); }
  }

  lemma TokenFree(tokens: map<string, Token>, byHash: Index, byUser: Index, table: map<string, Token>, t: Token)
    requires TokensOk(tokens, byHash, byUser) && Part(tokens, table) && TokensUnique(table)
    requires t.id in table && table[t.id] == t
    ensures TokensOk(tokens[t.id := t], byHash[t.tokenHash := t.id], byUser[t.userId := t.id])
  {
    KeyFree(TokenHashes(tokens), byHash, TokenHashes(table), t.id);
    KeyFree(TokenUsers(tokens), byUser, TokenUsers(table), t.id);
    if t.id in tokens {
      assert tokens[t.id := t] == tokens;
      assert byHash[t.tokenHash := t.id] == byHash && byUser[t.userId := t.id] == byUser;
    } else {
      TokensPut(tokens, byHash, byUser, t);
    }
  }

  ghost predicate TokensLoading(s: FsmState, table: map<string, Token>)
    reads s
  {
    TokensUnique(table) && TokensOk(s.tokens, s.tokensByHash, s.tokensByUser) && Part(s.tokens, table)
  }

  method LoadToken(s: FsmState, t: Token, ghost table: map<string, Token>)
    modifies s`tokens, s`tokensByHash, s`tokensByUser
    ensures old(TokensLoading(s, table)) && t.id in table && table[t.id] == t ==>
            TokensLoading(s, table) && s.tokens.Keys == old(s.tokens.Keys) + {t.id}
  {
    if TokensLoading(s, table) && t.id in table && table[t.id] == t {
      TokenFree(s.tokens, s.tokensByHash, s.tokensByUser, table, t);
    }
    s.StoreToken(t);
  }

  method LoadTokens(s: FsmState, rows: seq<Token>, ghost table: map<string, Token>)
    requires s.tokens == map[] && s.tokensByHash == map[] && s.tokensByUser == map[]
    modifies s`tokens, s`tokensByHash, s`tokensByUser
    ensures Lists(rows, table) && TokensUnique(table) && Keyed(table, (t: Token) => t.id) ==>
            TokensOk(s.tokens, s.tokensByHash, s.tokensByUser) && s.tokens == table
  {
    hide Lists, TokensUnique, Keyed, TokensOk;
    ghost var faithful := Lists(rows, table) && TokensUnique(table) && Keyed(table, (t: Token) => t.id);
    NoTokens();
    for i := 0 to |rows|
      invariant faithful ==> TokensLoading(s, table) && forall k | 0 <= k < i :: rows[k].id in s.tokens
    {
      if faithful { RowListed(rows, table, (t: Token) => t.id, i); }
      LoadToken(s, rows[i], table);
    }
    if faithful { RowsComplete(s.tokens, rows, table, (t: Token) => t.id); }
  }

  lemma NoTokens()
    ensures TokensOk(map[], map[], map[])
  {
  }

  method LoadTraces(s: FsmState, rows: seq<TraceMeta>, ghost table: map<string, TraceMeta>)
    requires s.traces == map[]
    modifies s`traces
    ensures Lists(rows, table) && Keyed(table, (m: TraceMeta) => m.traceId) ==> s.traces == table
  {
    hide Lists, Keyed;
    ghost var faithful := Lists(rows, table) && Keyed(table, (m: TraceMeta) => m.traceId);
    for i := 0 to |rows|
      invariant faithful ==> Part(s.traces, table) && forall k | 0 <= k < i :: rows[k].traceId in s.traces
    {
      if faithful { RowListed(rows, table, (m: TraceMeta) => m.traceId, i); }
      s.traces := s.traces[rows[i].traceId := rows[i]];
    }
    if faithful { RowsComplete(s.traces, rows, table, (m: TraceMeta) => m.traceId); }
  }

  method LoadEdges(s: FsmState, rows: seq<Edge>)
    requires s.memberships == map[] && s.membershipsByUser == map[]
    modifies s`memberships, s`membershipsByUser
    ensures NoEmpty(s.memberships) && NoEmpty(s.membershipsByUser) && Mirrored(s.memberships, s.membershipsByUser)
    ensures EdgesOf(s.memberships) == set e | e in rows
  {
    for i := 0 to |rows|
      invariant NoEmpty(s.memberships) && NoEmpty(s.membershipsByUser)
      invariant forall g, u :: HasEdge(s.memberships, g, u) <==> Edge(g, u) in rows[..i]
      invariant forall u, g :: HasEdge(s.membershipsByUser, u, g) <==> Edge(g, u) in rows[..i]
    {
      assert rows[..i + 1] == rows[..i] + [rows[i]];
      s.AddMembership(rows[i].group, rows[i].user);
    }
    assert rows[..|rows|] == rows;
    forall e: Edge ensures e in EdgesOf(s.memberships) <==> e in rows {
      EdgesOfMember(s.memberships, e.group, e.user);
      assert e == Edge(e.group, e.user);
    }
  }

  /** Replaces the live maps, never merging: these two together take over all fourteen. */
  method AdoptAccounts(s: FsmState, other: FsmState)
    requires s != other
    modifies s`users, s`usersByName, s`usersByOAuth, s`groups, s`groupsByName, s`memberships, s`membershipsByUser
    ensures s.users == old(other.users) && s.usersByName == old(other.usersByName)
    ensures s.usersByOAuth == old(other.usersByOAuth) && s.groups == old(other.groups)
    ensures s.groupsByName == old(other.groupsByName) && s.memberships == old(other.memberships)
    ensures s.membershipsByUser == old(other.membershipsByUser)
  {
    s.users := other.users;
    s.usersByName := other.usersByName;
    s.usersByOAuth := other.usersByOAuth;
    s.groups := other.groups;
    s.groupsByName := other.groupsByName;
    s.memberships := other.memberships;
    s.membershipsByUser := other.membershipsByUser;
  }

  method AdoptAssets(s: FsmState, other: FsmState)
    requires s != other
    modifies s`tokens, s`tokensByHash, s`tokensByUser, s`projects, s`projectsByName, s`traces, s`meta
    ensures s.tokens == old(other.tokens) && s.tokensByHash == old(other.tokensByHash)
    ensures s.tokensByUser == old(other.tokensByUser) && s.projects == old(other.projects)
    ensures s.projectsByName == old(other.projectsByName) && s.traces == old(other.traces)
    ensures s.meta == old(other.meta)
  {
    s.tokens := other.tokens;
    s.tokensByHash := other.tokensByHash;
    s.tokensByUser := other.tokensByUser;
    s.projects := other.projects;
    s.projectsByName := other.projectsByName;
    s.traces := other.traces;
    s.meta := other.meta;
  }

  /** Users, groups and the edges between them. */
  method LoadAccounts(s: FsmState, p: Payload, ghost db: Db)
    requires s.users == map[] && s.usersByName == map[] && s.usersByOAuth == map[]
    requires s.groups == map[] && s.groupsByName == map[] && s.memberships == map[] && s.membershipsByUser == map[]
    modifies s`users, s`usersByName, s`usersByOAuth, s`groups, s`groupsByName, s`memberships, s`membershipsByUser
    ensures Captures(p, db) && Consistent(s.fold, db) ==>
      && UsersOk(s.fold, s.users, s.usersByName, s.usersByOAuth) && s.users == db.users
      && GroupsOk(s.fold, s.groups, s.groupsByName) && s.groups == db.groups
      && MembersOk(s.users.Keys, s.groups.Keys, s.memberships, s.membershipsByUser) && EdgesOf(s.memberships) == db.edges
  {
    hide UsersUnique, TokensUnique, Injective, Keyed, Lists, ListsUsers, EdgesOf, EdgesLive;
    hide UsersOk, GroupsOk, MembersOk, NoEmpty, Mirrored, RowsKeyed;
    if Consistent(s.fold, db) { RowsAreKeyed(db); }
    LoadUsers(s, p.users, db.users);
    LoadGroups(s, p.groups, db.groups);
    LoadEdges(s, p.memberships);
    if Captures(p, db) && Consistent(s.fold, db) { EdgesAreLive(s.memberships, s.membershipsByUser, db); }
  }

  method LoadAssets(s: FsmState, p: Payload, ghost db: Db)
    requires s.tokens == map[] && s.tokensByHash == map[] && s.tokensByUser == map[]
    requires s.projects == map[] && s.projectsByName == map[] && s.traces == map[]
    modifies s`tokens, s`tokensByHash, s`tokensByUser, s`projects, s`projectsByName, s`traces, s`meta
    ensures Captures(p, db) && Consistent(s.fold, db) ==>
      && TokensOk(s.tokens, s.tokensByHash, s.tokensByUser) && s.tokens == db.tokens
      && ProjectsOk(s.fold, s.projects, s.projectsByName) && s.projects == db.projects
      && TracesOk(s.traces) && s.traces == db.traces && s.meta == db.meta
  {
    hide UsersUnique, TokensUnique, Injective, Keyed, Lists, ListsUsers, EdgesLive;
    hide TokensOk, ProjectsOk, TracesOk, RowsKeyed;
    if Consistent(s.fold, db) { RowsAreKeyed(db); }
    LoadTokens(s, p.tokens, db.tokens);
    LoadProjects(s, p.projects, db.projects);
    LoadTraces(s, p.traces, db.traces);
    s.meta := p.meta;
  }

  /** Builds a state from a payload; `db` names the database the payload was taken from, if any. */
  method Load(p: Payload, fold: Fold, ghost db: Db) returns (s: FsmState)
    ensures fresh(s) && s.fold == fold
    ensures Captures(p, db) && Consistent(fold, db) ==> s.Valid() && s.Database() == db
  {
    hide Captures, Consistent, EdgesOf, UsersOk, GroupsOk, ProjectsOk, TokensOk, TracesOk, MembersOk;
    s := new FsmState(fold);
    LoadAccounts(s, p, db);
    LoadAssets(s, p, db);
  }

  lemma RowsAreKeyed(db: Db)
    requires RowsKeyed(db)
    ensures TracesOk(db.traces) && forall id <- db.users :: db.users[id].id == id
    ensures Keyed(db.groups, (r: Group) => r.id) && Keyed(db.projects, (r: Project) => r.id)
    ensures Keyed(db.tokens, (t: Token) => t.id) && Keyed(db.traces, (m: TraceMeta) => m.traceId)
  {
  }

  lemma EdgesAreLive(m: Adjacency, back: Adjacency, db: Db)
    requires NoEmpty(m) && NoEmpty(back) && Mirrored(m, back) && EdgesOf(m) == db.edges && EdgesLive(db)
    ensures MembersOk(db.users.Keys, db.groups.Keys, m, back)
  {
    forall g | g in m ensures g in db.groups {
      var u :| u in m[g];
      EdgesOfMember(m, g, u);
    }
    forall u | u in back ensures u in db.users {
      var g :| g in back[u];
      assert HasEdge(back, u, g);
      EdgesOfMember(m, g, u);
    }
  }

  /** Installs a snapshot on a live replica, whatever it held before. */
  method Restore(s: FsmState, p: Payload, ghost db: Db)
    modifies s
    ensures Captures(p, db) && Consistent(s.fold, db) ==> s.Valid() && s.Database() == db
  {
    hide Captures, Consistent, EdgesOf, UsersOk, GroupsOk, ProjectsOk, TokensOk, TracesOk, MembersOk;
    var t := Load(p, s.fold, db);
    AdoptAccounts(s, t);
    AdoptAssets(s, t);
  }

  /** Restoring a snapshot of any reachable replica brings back all fourteen maps exactly if the indices were exact. */
  method RoundTrip(s: FsmState, target: FsmState)
    requires s.Reachable() && target.fold == s.fold && s != target
    modifies target
    ensures target.Valid() && target.Database() == s.Database()
    ensures target.Contents() == s.Contents() <==> s.Valid()
  {
    SoundConsistent(s.fold, s.Contents());
    assert RowsKeyed(s.Database());
    hide Coherent, Sound, TablesOf, Consistent;
    var p := Snapshot(s);
    Restore(target, p, s.Database());
    if s.Valid() { CoherentUnique(s.fold, target.Contents(), s.Contents()); }
  }

  /**
    For every log and every cut: replaying the whole log, and restoring a
    snapshot of the prefix onto any replica before replaying the suffix, end in
    the same fourteen maps.
   */
  method ResumeFromSnapshot(log: seq<Command>, cut: nat, target: FsmState) returns (whole: FsmState)
    requires cut <= |log| && RunKeeps(target.fold, EMPTY, log)
    modifies target
    ensures whole.Contents() == target.Contents() == RunMaps(target.fold, NO_MAPS, log)
    ensures target.Valid() && target.Database() == Run(target.fold, EMPTY, log)
  {
    hide Coherent, Sound, TablesOf, Consistent;
    var fold := target.fold;
    assert log == log[..cut] + log[cut..];
    RunAppend(fold, EMPTY, log[..cut], log[cut..]);
    RunKeepsSplit(fold, EMPTY, log[..cut], log[cut..]);
    whole := new FsmState(fold);
    var _ := whole.Replay(log);
    var prefix := new FsmState(fold);
    var _ := prefix.Replay(log[..cut]);
    RoundTrip(prefix, target);
    CoherentSound(fold, target.Contents());
    var _ := target.Replay(log[cut..]);
    CoherentUnique(fold, whole.Contents(), target.Contents());
  }

  lemma {:induction false} RunKeepsSplit(fold: Fold, db: Db, a: seq<Command>, b: seq<Command>)
    requires RunKeeps(fold, db, a + b)
    ensures RunKeeps(fold, db, a) && RunKeeps(fold, Run(fold, db, a), b)
    decreases |a|
  {
    if a == [] {
      assert a + b == b;
    } else {
      assert (a + b)[1..] == a[1..] + b;
      RunKeepsSplit(fold, Step(fold, db, a[0]).0, a[1..], b);
    }
  }

  // --- the rules are exactly what the theorem needs ----------------------------------------

  /** The maps with every index rebuilt, which is what a restored snapshot holds. */
  ghost function Rebuilt(fold: Fold, m: Maps): Maps {
    m.(usersByName := Inverted(UserNames(fold, m.users)),
       tokensByHash := Inverted(TokenHashes(m.tokens)),
       tokensByUser := Inverted(TokenUsers(m.tokens)))
  }

  lemma RebuiltCoherent(fold: Fold, m: Maps)
    requires Sound(fold, m)
    ensures Coherent(fold, Rebuilt(fold, m)) && TablesOf(Rebuilt(fold, m)) == TablesOf(m)
  {
    CoversInjective(UserNames(fold, m.users), m.usersByName);
    CoversInjective(TokenHashes(m.tokens), m.tokensByHash);
    CoversInjective(TokenUsers(m.tokens), m.tokensByUser);
    InvertedIsInverse(UserNames(fold, m.users));
    InvertedIsInverse(TokenHashes(m.tokens));
    InvertedIsInverse(TokenUsers(m.tokens));
    hide Inverted, Inverse, EdgesOf;
  }

  /** Replaying the rest on a restored snapshot of the prefix ends where replaying the whole log ends. */
  ghost predicate Resumes(fold: Fold, log: seq<Command>, cut: nat)
    requires cut <= |log|
  {
    RunMaps(fold, Rebuilt(fold, RunMaps(fold, NO_MAPS, log[..cut])), log[cut..]) == RunMaps(fold, NO_MAPS, log)
  }

  lemma NoMapsCoherent(fold: Fold)
    ensures Coherent(fold, NO_MAPS) && Sound(fold, NO_MAPS) && TablesOf(NO_MAPS) == EMPTY
  {
    assert Coherent(fold, NO_MAPS);
    CoherentSound(fold, NO_MAPS);
  }

  lemma ResumeAt(fold: Fold, log: seq<Command>, cut: nat)
    requires cut <= |log| && RunKeeps(fold, EMPTY, log)
    ensures Resumes(fold, log, cut)
  {
    hide Coherent, Sound, TablesOf, Rebuilt, StepMaps;
    NoMapsCoherent(fold);
    assert log == log[..cut] + log[cut..];
    RunKeepsSplit(fold, EMPTY, log[..cut], log[cut..]);
    RunRefines(fold, NO_MAPS, log[..cut]);
    var m := RunMaps(fold, NO_MAPS, log[..cut]);
    CoherentSound(fold, m);
    RebuiltCoherent(fold, m);
    CoherentUnique(fold, m, Rebuilt(fold, m));
    RunMapsAppend(fold, NO_MAPS, log[..cut], log[cut..]);
  }

  lemma PrefixesResume(fold: Fold, log: seq<Command>, n: nat, cut: nat)
    requires cut <= n <= |log| && RunKeeps(fold, EMPTY, log)
    ensures Resumes(fold, log[..n], cut)
  {
    hide Resumes, RunKeeps;
    assert log == log[..n] + log[n..];
    RunKeepsSplit(fold, EMPTY, log[..n], log[n..]);
    ResumeAt(fold, log[..n], cut);
  }

  /** A log keeps the rules if and only if every prefix of it resumes from every cut. */
  lemma ResumesIffRulesKept(fold: Fold, log: seq<Command>)
    ensures RunKeeps(fold, EMPTY, log) <==> forall n, cut | 0 <= cut <= n <= |log| :: Resumes(fold, log[..n], cut)
  {
    hide Coherent, Sound, TablesOf, Resumes, RunMaps, RunKeeps;
    if RunKeeps(fold, EMPTY, log) {
      forall n, cut | 0 <= cut <= n <= |log| ensures Resumes(fold, log[..n], cut) { PrefixesResume(fold, log, n, cut); }
    } else {
      NoMapsCoherent(fold);
      CoherentThroughoutIff(fold, NO_MAPS, log);
      var k :| 0 <= k <= |log| && !Coherent(fold, RunMaps(fold, NO_MAPS, log[..k]));
      ResumesOnlyCoherent(fold, log[..k]);
      assert !Resumes(fold, log[..k], k);
    }
  }

  lemma ResumesOnlyCoherent(fold: Fold, log: seq<Command>)
    ensures Resumes(fold, log, |log|) ==> Coherent(fold, RunMaps(fold, NO_MAPS, log))
  {
    hide Coherent, Sound, TablesOf, Rebuilt, StepMaps, Consistent;
    NoMapsCoherent(fold);
    RunSound(fold, NO_MAPS, log);
    assert log[..|log|] == log && log[|log|..] == [];
    RebuiltCoherent(fold, RunMaps(fold, NO_MAPS, log));
  }
}
