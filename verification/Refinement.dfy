/**
  The indexed replica against the index-free machine: with exact indices every
  command refines its scan-based specification, and the indices stay exact if
  and only if the command fails or respects the name and token rules.
 */
module Refinement {
  import opened Domain
  import opened Inverses
  import opened Tables
  import opened Coherence
  import opened Indexed

  /** What a caller must respect for the indices to stay exact. */
  predicate Rule(fold: Fold, db: Db, a: Action) {
    match a
    case DoUpsertUser(u, _) => NameRule(fold, db.users, u)
    case DoUpsertToken(t) => TokenRule(db.tokens, t)
    case _ => true
  }

  ghost predicate Keeps(fold: Fold, db: Db, c: Command) {
    Step(fold, db, c).1.Err? || Rule(fold, db, Decode(c))
  }

  ghost predicate RunKeeps(fold: Fold, db: Db, log: seq<Command>)
    decreases |log|
  {
    log == [] || (Keeps(fold, db, log[0]) && RunKeeps(fold, Step(fold, db, log[0]).0, log[1..]))
  }

  /** Beyond soundness, coherence asks for exact user and token entries. */
  lemma CoherentIff(fold: Fold, m: Maps)
    requires Sound(fold, m)
    ensures Coherent(fold, m) <==>
      UsersOk(fold, m.users, m.usersByName, m.usersByOAuth) && TokensOk(m.tokens, m.tokensByHash, m.tokensByUser)
  {
  }

  // --- users ---------------------------------------------------------------------------

  lemma UpdateUserExact(fold: Fold, users: map<string, User>, byName: Index, byOAuth: Index, u: User)
    requires UsersOk(fold, users, byName, byOAuth) && u.id in users && !Holds(byName, fold(u.username), u.id, true)
    requires u.oauthId != "" ==> !Holds(byOAuth, OAuthKey(u.oauthProvider, u.oauthId), u.id, true)
    ensures
      var names, oauths := NamesAfterUpdate(fold, users[u.id], u, byName), OAuthsAfterUpdate(users[u.id], u, byOAuth);
      UsersOk(fold, users[u.id := u], names, oauths) <==> NameRule(fold, users, u)
  {
    UserTakenByIndex(fold, users, byName, byOAuth, u);
    NamesAfterUpdateInverse(fold, users, u, byName);
    OAuthsAfterUpdateInverse(fold, users, u, byOAuth);
    hide Inverse, UserNames, UserOAuths, NamesAfterUpdate, OAuthsAfterUpdate, NameRule;
  }

  lemma StoreUserExact(fold: Fold, m: Maps, u: User)
    requires UsersOk(fold, m.users, m.usersByName, m.usersByOAuth) && !UserHolds(fold, m, u)
    ensures var d := StoreUser(fold, m, u);
      UsersOk(fold, d.users, d.usersByName, d.usersByOAuth) <==> NameRule(fold, m.users, u)
  {
    hide UsersOk, OAuthKey, NamesAfterUpdate, OAuthsAfterUpdate;
    if u.id in m.users { UpdateUserExact(fold, m.users, m.usersByName, m.usersByOAuth, u); }
    else { InsertUserOk(fold, m.users, m.usersByName, m.usersByOAuth, u); }
  }

  lemma PutUserExact(fold: Fold, m: Maps, u: User, create: bool)
    requires UsersOk(fold, m.users, m.usersByName, m.usersByOAuth)
    ensures var (d, out) := PutUser(fold, m, u, create);
      UsersOk(fold, d.users, d.usersByName, d.usersByOAuth) <==> out.Err? || NameRule(fold, m.users, u)
  {
    hide UsersOk, OAuthKey, StoreUser, Stamp;
    if PutUser(fold, m, u, create).1.Ok? { StoreUserExact(fold, m, UserRow(m.users, u)); }
  }

  lemma UserHoldsIff(fold: Fold, m: Maps, u: User)
    requires UsersOk(fold, m.users, m.usersByName, m.usersByOAuth)
    ensures UserHolds(fold, m, u) <==> UserTaken(fold, m.users, u)
  {
    UserTakenByIndex(fold, m.users, m.usersByName, m.usersByOAuth, u);
    hide UsersOk, OAuthKey, Taken, UserNames, UserOAuths;
  }

  lemma StoreUserTables(fold: Fold, m: Maps, u: User)
    ensures TablesOf(StoreUser(fold, m, u)) == TablesOf(m).(users := m.users[u.id := u])
  {
    hide EdgesOf, NamesAfterUpdate, OAuthsAfterUpdate, OAuthKey;
  }

  lemma PutUserTables(fold: Fold, m: Maps, u: User, create: bool)
    requires UsersOk(fold, m.users, m.usersByName, m.usersByOAuth)
    ensures PutUser(fold, m, u, create).1 == UpsertUser(fold, TablesOf(m), u, create).1
    ensures TablesOf(PutUser(fold, m, u, create).0) == UpsertUser(fold, TablesOf(m), u, create).0
  {
    UserHoldsIff(fold, m, u);
    assert UserRow(m.users, u).id == u.id && TablesOf(m).users == m.users;
    StoreUserTables(fold, m, UserRow(m.users, u));
    hide UsersOk, UserRow, StoreUser, UserHolds, UserTaken, Verdict, TablesOf;
  }

  lemma DetachUserTables(m: Maps, id: string)
    requires MembersOk(m.users.Keys, m.groups.Keys, m.memberships, m.membershipsByUser)
    ensures TablesOf(DetachUser(m, id)) ==
      TablesOf(m).(edges := WithoutUser(EdgesOf(m.memberships), id), traces := ForgetUser(m.traces, id))
  {
    UnlinkUserOk(m.users.Keys, m.groups.Keys, m.memberships, m.membershipsByUser, id);
    hide MembersOk, DropMember, ForgetUser, WithoutUser, EdgesOf;
  }

  lemma RemoveUserTables(fold: Fold, m: Maps, id: string)
    requires id in m.users
    ensures TablesOf(RemoveUserRow(fold, m, id)) == TablesOf(m).(users := m.users - {id})
  {
    hide EdgesOf, OAuthKey;
  }

  lemma DropUserTables(fold: Fold, m: Maps, id: string)
    requires TokensOk(m.tokens, m.tokensByHash, m.tokensByUser)
    requires MembersOk(m.users.Keys, m.groups.Keys, m.memberships, m.membershipsByUser)
    ensures DropUser(fold, m, id).1 == DeleteUser(TablesOf(m), id).1
    ensures TablesOf(DropUser(fold, m, id).0) == DeleteUser(TablesOf(m), id).0
  {
    hide TokensOk, MembersOk, DropTokenOf, DetachUser, RemoveUserRow, WithoutUser, WithoutUserTokens, ForgetUser, EdgesOf;
    if id in m.users {
      DropTokenTables(m, id);
      DetachUserTables(DropTokenOf(m, id), id);
      RemoveUserTables(fold, DetachUser(DropTokenOf(m, id), id), id);
    }
  }

  lemma DropUserTokens(fold: Fold, m: Maps, id: string)
    requires TokensOk(m.tokens, m.tokensByHash, m.tokensByUser)
    ensures var d := DropUser(fold, m, id).0; TokensOk(d.tokens, d.tokensByHash, d.tokensByUser)
  {
    hide TokensOk, DropTokenOf, DetachUser, RemoveUserRow;
    if id in m.users { DropTokenExact(m, id); }
  }

  lemma DropUserExact(fold: Fold, m: Maps, id: string)
    requires UsersOk(fold, m.users, m.usersByName, m.usersByOAuth)
    ensures var d := DropUser(fold, m, id).0; UsersOk(fold, d.users, d.usersByName, d.usersByOAuth)
  {
    hide UsersOk, OAuthKey, DetachUser, DropTokenOf;
    if id in m.users { RemoveUserOk(fold, m.users, m.usersByName, m.usersByOAuth, id); }
  }

  // --- tokens --------------------------------------------------------------------------

  lemma DropTokenExact(m: Maps, userId: string)
    requires TokensOk(m.tokens, m.tokensByHash, m.tokensByUser)
    ensures var d := DropTokenOf(m, userId);
      && TokensOk(d.tokens, d.tokensByHash, d.tokensByUser) && d.tokens == WithoutUserTokens(m.tokens, userId)
      && userId !in d.tokensByUser && d.tokensByHash.Keys <= m.tokensByHash.Keys
  {
    TokensNone(m.tokens, m.tokensByHash, m.tokensByUser, userId);
    if userId in m.tokensByUser {
      OwnerByIndex(m.tokens, m.tokensByHash, m.tokensByUser, userId);
      TokensRemove(m.tokens, m.tokensByHash, m.tokensByUser, m.tokensByUser[userId]);
    }
    hide TokensOk, WithoutUserTokens;
  }

  lemma DropTokenTables(m: Maps, userId: string)
    requires TokensOk(m.tokens, m.tokensByHash, m.tokensByUser)
    ensures TablesOf(DropTokenOf(m, userId)) == TablesOf(m).(tokens := WithoutUserTokens(m.tokens, userId))
  {
    hide TokensOk, DropTokenOf, WithoutUserTokens, EdgesOf;
    DropTokenExact(m, userId);
  }

  /** Exact entries make the dereference safe and the two lookups a scan. */
  lemma PutTokenBranch(m: Maps, t: Token)
    requires TokensOk(m.tokens, m.tokensByHash, m.tokensByUser)
    ensures HashTaken(m.tokens, t) ==> PutToken(m, t) == (m, Err(Conflict))
    ensures !HashTaken(m.tokens, t) ==> PutToken(m, t) == (StoreToken(DropTokenOf(m, t.userId), t), Ok(true))
    ensures !HashTaken(m.tokens, t) ==> t.tokenHash !in DropTokenOf(m, t.userId).tokensByHash
  {
    hide TokensOk, HashTaken, StoreToken;
    HashTakenByIndex(m.tokens, m.tokensByHash, m.tokensByUser, t);
    HashByIndex(m.tokens, m.tokensByHash, m.tokensByUser, t.tokenHash);
    if t.userId in m.tokensByUser { OwnerByIndex(m.tokens, m.tokensByHash, m.tokensByUser, t.userId); }
  }

  lemma PutTokenTables(m: Maps, t: Token)
    requires TokensOk(m.tokens, m.tokensByHash, m.tokensByUser)
    ensures PutToken(m, t).1 == UpsertToken(TablesOf(m), t).1
    ensures TablesOf(PutToken(m, t).0) == UpsertToken(TablesOf(m), t).0
  {
    hide TokensOk, HashTaken, PutToken, DropTokenOf, WithoutUserTokens, EdgesOf;
    PutTokenBranch(m, t);
    DropTokenTables(m, t.userId);
  }

  lemma PutTokenExact(m: Maps, t: Token)
    requires TokensOk(m.tokens, m.tokensByHash, m.tokensByUser)
    ensures var (d, out) := PutToken(m, t);
      TokensOk(d.tokens, d.tokensByHash, d.tokensByUser) <==> out.Err? || TokenRule(m.tokens, t)
  {
    assert t.id in WithoutUserTokens(m.tokens, t.userId) <==> !TokenRule(m.tokens, t);
    hide TokensOk, HashTaken, TokenRule, PutToken, DropTokenOf, WithoutUserTokens;
    PutTokenBranch(m, t);
    if !HashTaken(m.tokens, t) {
      var e := DropTokenOf(m, t.userId);
      DropTokenExact(m, t.userId);
      TokensPut(e.tokens, e.tokensByHash, e.tokensByUser, t);
    }
  }

  lemma StampTokenExact(m: Maps, id: string, at: Time)
    requires TokensOk(m.tokens, m.tokensByHash, m.tokensByUser)
    ensures TokensOk(StampToken(m, id, at).tokens, m.tokensByHash, m.tokensByUser)
  {
    if id in m.tokens { TouchTokenKeepsKeys(m.tokens, id, at); }
    hide Inverse, TokenHashes, TokenUsers;
  }

  lemma StampTokenTables(m: Maps, id: string, at: Time)
    ensures TablesOf(StampToken(m, id, at)) == TouchToken(TablesOf(m), id, at)
  {
    hide EdgesOf;
  }

  // --- groups, members, projects, traces: never affected by stale entries ----------------

  lemma GroupTakenByIndex(fold: Fold, groups: map<string, Group>, byName: Index, id: string, name: string)
    requires GroupsOk(fold, groups, byName)
    ensures Taken(GroupNames(fold, groups), id, name) <==> Holds(byName, name, id, id in groups)
  {
    TakenByIndex(GroupNames(fold, groups), byName, id, name);
  }

  lemma ProjectTakenByIndex(fold: Fold, projects: map<string, Project>, byName: Index, id: string, name: string)
    requires ProjectsOk(fold, projects, byName)
    ensures Taken(ProjectNames(fold, projects), id, name) <==> Holds(byName, name, id, id in projects)
  {
    TakenByIndex(ProjectNames(fold, projects), byName, id, name);
  }

  lemma StoreGroupTables(fold: Fold, m: Maps, g: Group)
    ensures TablesOf(StoreGroup(fold, m, g)) == TablesOf(m).(groups := m.groups[g.id := g])
  {
    hide EdgesOf;
  }

  lemma PutGroupTables(fold: Fold, m: Maps, g: Group, create: bool)
    requires GroupsOk(fold, m.groups, m.groupsByName)
    ensures PutGroup(fold, m, g, create).1 == UpsertGroup(fold, TablesOf(m), g, create).1
    ensures TablesOf(PutGroup(fold, m, g, create).0) == UpsertGroup(fold, TablesOf(m), g, create).0
  {
    assert GroupRow(m.groups, g).id == g.id && TablesOf(m).groups == m.groups;
    StoreGroupTables(fold, m, GroupRow(m.groups, g));
    hide GroupsOk, GroupNames, Taken, GroupRow, StoreGroup, Holds, Verdict, TablesOf;
    GroupTakenByIndex(fold, m.groups, m.groupsByName, g.id, fold(g.name));
  }

  lemma DropGroupTables(fold: Fold, m: Maps, id: string)
    requires MembersOk(m.users.Keys, m.groups.Keys, m.memberships, m.membershipsByUser)
    ensures var (d, out) := DropGroup(fold, m, id);
      (TablesOf(d), out) == DeleteGroup(TablesOf(m), id)
  {
    UnlinkGroupOk(m.users.Keys, m.groups.Keys, m.memberships, m.membershipsByUser, id);
    hide MembersOk, DropMember, ForgetGroup, UnassignProjects, WithoutGroup, EdgesOf;
  }

  lemma RelinkEdges(m: Adjacency, id: string, userIds: seq<string>)
    ensures var members := set u | u in userIds;
      EdgesOf(if members == {} then m - {id} else m[id := members]) == WithoutGroup(EdgesOf(m), id) + MemberEdges(id, userIds)
  {
    var members := set u | u in userIds;
    var n := if members == {} then m - {id} else m[id := members];
    forall e: Edge ensures e in EdgesOf(n) <==> (e in EdgesOf(m) && e.group != id) || e in MemberEdges(id, userIds) {
      EdgesOfMember(m, e.group, e.user);
      EdgesOfMember(n, e.group, e.user);
      assert HasEdge(n, e.group, e.user) <==> (HasEdge(m, e.group, e.user) && e.group != id) || (e.group == id && e.user in members);
      assert e in MemberEdges(id, userIds) <==> e.group == id && e.user in userIds;
    }
  }

  lemma PutMembersTables(m: Maps, groupId: string, userIds: seq<string>)
    ensures var (d, out) := PutMembers(m, groupId, userIds);
      (TablesOf(d), out) == SetMembers(TablesOf(m), groupId, userIds)
  {
    RelinkEdges(m.memberships, groupId, userIds);
    hide EdgesOf, WithoutGroup, MemberEdges, DropMember, AddMember;
    var members := set u | u in userIds;
    assert members <= m.users.Keys <==> forall u <- userIds :: u in m.users;
  }

  lemma StoreProjectTables(fold: Fold, m: Maps, p: Project)
    ensures TablesOf(StoreProject(fold, m, p)) == TablesOf(m).(projects := m.projects[p.id := p])
  {
    hide EdgesOf;
  }

  lemma PutProjectTables(fold: Fold, m: Maps, p: Project, create: bool)
    requires ProjectsOk(fold, m.projects, m.projectsByName)
    ensures PutProject(fold, m, p, create).1 == UpsertProject(fold, TablesOf(m), p, create).1
    ensures TablesOf(PutProject(fold, m, p, create).0) == UpsertProject(fold, TablesOf(m), p, create).0
  {
    assert ProjectRow(m.projects, p).id == p.id && TablesOf(m).projects == m.projects;
    StoreProjectTables(fold, m, ProjectRow(m.projects, p));
    hide ProjectsOk, ProjectNames, Taken, ProjectRow, StoreProject, Holds, Verdict, TablesOf;
    ProjectTakenByIndex(fold, m.projects, m.projectsByName, p.id, fold(p.name));
  }

  /** The commands whose effect depends on the user and token entries. */
  predicate ReadsEntries(a: Action) {
    a.DoUpsertUser? || a.DoDeleteUser? || a.DoUpsertToken? || a.DoDeleteToken?
  }

  lemma TraceActionRefines(fold: Fold, m: Maps, a: Action)
    requires TraceAction(a)
    ensures (TablesOf(EnactTrace(m, a).0), EnactTrace(m, a).1) == Act(fold, TablesOf(m), a)
  {
    hide EdgesOf, ProvisionRow, IngestRow, FailRow, RowOf;
  }

  lemma TraceActionEnacts(fold: Fold, m: Maps, a: Action)
    requires TraceAction(a)
    ensures Enact(fold, m, a) == EnactTrace(m, a)
  {
  }

  /** All other commands do what the scan-based machine does in every reachable replica. */
  lemma OthersRefine(fold: Fold, m: Maps, a: Action)
    requires Sound(fold, m) && !ReadsEntries(a)
    ensures (TablesOf(Enact(fold, m, a).0), Enact(fold, m, a).1) == Act(fold, TablesOf(m), a)
  {
    hide UsersSound, GroupsOk, ProjectsOk, TokensSound, TracesOk, MembersOk, TablesOf;
    if TraceAction(a) {
      hide Act, Enact, EnactTrace;
      TraceActionRefines(fold, m, a);
      TraceActionEnacts(fold, m, a);
      return;
    }
    hide PutGroup, DropGroup, PutMembers, PutProject, DropProject, StampToken, EnactTrace;
    hide UpsertGroup, DeleteGroup, SetMembers, UpsertProject, DeleteProject, TouchToken, MarkFailed, Provision, Ingest;
    match a
    case DoUpsertGroup(g, create) => PutGroupTables(fold, m, g, create);
    case DoDeleteGroup(id) => DropGroupTables(fold, m, id);
    case DoSetMembers(groupId, userIds) => PutMembersTables(m, groupId, userIds);
    case DoUpsertProject(p, create) => PutProjectTables(fold, m, p, create);
    case DoDeleteProject(id) => DropProjectTables(fold, m, id);
    case DoTouchToken(id, at) => StampTokenTables(m, id, at);
    case _ =>
  }

  lemma DropProjectTables(fold: Fold, m: Maps, id: string)
    ensures (TablesOf(DropProject(fold, m, id).0), DropProject(fold, m, id).1) == DeleteProject(TablesOf(m), id)
  {
    hide EdgesOf;
  }

  lemma OthersKeepEntries(fold: Fold, m: Maps, a: Action)
    requires !ReadsEntries(a)
    ensures var d := Enact(fold, m, a).0;
      && d.users == m.users && d.usersByName == m.usersByName && d.usersByOAuth == m.usersByOAuth
      && d.tokensByHash == m.tokensByHash && d.tokensByUser == m.tokensByUser
      && (a.DoTouchToken? || d.tokens == m.tokens)
  {
    hide PutGroup, DropGroup, PutMembers, PutProject, DropProject, StampToken, EnactTrace;
  }

  // --- the whole machine ----------------------------------------------------------------

  lemma UsersRefine(fold: Fold, m: Maps, a: Action)
    requires Coherent(fold, m) && (a.DoUpsertUser? || a.DoDeleteUser?)
    ensures (TablesOf(Enact(fold, m, a).0), Enact(fold, m, a).1) == Act(fold, TablesOf(m), a)
    ensures var (d, out) := Enact(fold, m, a);
      && TokensOk(d.tokens, d.tokensByHash, d.tokensByUser)
      && (UsersOk(fold, d.users, d.usersByName, d.usersByOAuth) <==> out.Err? || Rule(fold, TablesOf(m), a))
  {
    assert TablesOf(m).users == m.users;
    hide UsersOk, GroupsOk, ProjectsOk, TokensOk, TracesOk, MembersOk, TablesOf, NameRule;
    hide PutUser, DropUser, UpsertUser, DeleteUser;
    match a
    case DoUpsertUser(u, create) =>
      PutUserTables(fold, m, u, create);
      PutUserExact(fold, m, u, create);
    case DoDeleteUser(id) =>
      DropUserTables(fold, m, id);
      DropUserExact(fold, m, id);
      DropUserTokens(fold, m, id);
  }

  lemma TokensRefine(fold: Fold, m: Maps, a: Action)
    requires Coherent(fold, m) && (a.DoUpsertToken? || a.DoDeleteToken?)
    ensures (TablesOf(Enact(fold, m, a).0), Enact(fold, m, a).1) == Act(fold, TablesOf(m), a)
    ensures var (d, out) := Enact(fold, m, a);
      && UsersOk(fold, d.users, d.usersByName, d.usersByOAuth)
      && (TokensOk(d.tokens, d.tokensByHash, d.tokensByUser) <==> out.Err? || Rule(fold, TablesOf(m), a))
  {
    assert TablesOf(m).tokens == m.tokens;
    hide UsersOk, GroupsOk, ProjectsOk, TokensOk, TracesOk, MembersOk, TablesOf, TokenRule;
    hide PutToken, DropTokenOf, UpsertToken, WithoutUserTokens;
    match a
    case DoUpsertToken(t) =>
      PutTokenTables(m, t);
      PutTokenExact(m, t);
    case DoDeleteToken(userId) =>
      DropTokenTables(m, userId);
      DropTokenExact(m, userId);
  }

  /** One command on a coherent replica: the specified tables and outcome, and coherent again exactly under the rules. */
  lemma EnactRefines(fold: Fold, m: Maps, a: Action)
    requires Coherent(fold, m)
    ensures (TablesOf(Enact(fold, m, a).0), Enact(fold, m, a).1) == Act(fold, TablesOf(m), a)
    ensures Coherent(fold, Enact(fold, m, a).0) <==> Enact(fold, m, a).1.Err? || Rule(fold, TablesOf(m), a)
  {
    CoherentSound(fold, m);
    EnactSound(fold, m, a);
    CoherentIff(fold, Enact(fold, m, a).0);
    if a.DoUpsertUser? || a.DoDeleteUser? {
      UsersRefine(fold, m, a);
    } else if a.DoUpsertToken? || a.DoDeleteToken? {
      TokensRefine(fold, m, a);
    } else {
      OthersRefine(fold, m, a);
      OthersKeepEntries(fold, m, a);
      if a.DoTouchToken? { StampTokenExact(m, a.id, a.at); }
    }
    hide UsersOk, TokensOk, Sound, Enact, Act, TablesOf;
  }

  /** What one command keeps, whatever the state of the indices. */
  lemma EnactContract(fold: Fold, m: Maps, a: Action)
    ensures Sound(fold, m) ==> Sound(fold, Enact(fold, m, a).0)
    ensures Coherent(fold, m) ==>
      && (TablesOf(Enact(fold, m, a).0), Enact(fold, m, a).1) == Act(fold, TablesOf(m), a)
      && (Coherent(fold, Enact(fold, m, a).0) <==> Enact(fold, m, a).1.Err? || Rule(fold, TablesOf(m), a))
  {
    hide Sound, Coherent, Enact, Act, TablesOf, Rule;
    if Sound(fold, m) { EnactSound(fold, m, a); }
    if Coherent(fold, m) { EnactRefines(fold, m, a); }
  }

  lemma {:induction false} RunRefines(fold: Fold, m: Maps, log: seq<Command>)
    requires Coherent(fold, m) && RunKeeps(fold, TablesOf(m), log)
    ensures Coherent(fold, RunMaps(fold, m, log)) && TablesOf(RunMaps(fold, m, log)) == Run(fold, TablesOf(m), log)
    ensures Applied(fold, m, log) == |log|
    decreases |log|
  {
    hide Coherent, TablesOf, Enact, Act;
    if log != [] {
      EnactRefines(fold, m, Decode(log[0]));
      NoPanic(fold, m, log[0]);
      RunRefines(fold, StepMaps(fold, m, log[0]).0, log[1..]);
    }
  }

  lemma NoPanic(fold: Fold, m: Maps, c: Command)
    requires Coherent(fold, m)
    ensures !StepMaps(fold, m, c).1.Panic?
  {
    PanicIff(fold, m, c);
    assert forall u <- m.tokensByUser :: m.tokensByUser[u] in TokenUsers(m.tokens);
    hide StepMaps, Decode;
  }

  /** The rules are the exact condition: they hold along a log if and only if every state of the run is coherent. */
  lemma {:induction false} CoherentThroughoutIff(fold: Fold, m: Maps, log: seq<Command>)
    requires Coherent(fold, m)
    ensures RunKeeps(fold, TablesOf(m), log) <==> forall k | 0 <= k <= |log| :: Coherent(fold, RunMaps(fold, m, log[..k]))
    decreases |log|
  {
    hide Coherent, TablesOf, Enact, Act;
    if log == [] {
      assert log[..0] == [];
    } else {
      var d := StepMaps(fold, m, log[0]).0;
      EnactRefines(fold, m, Decode(log[0]));
      NoPanic(fold, m, log[0]);
      forall k | 0 <= k <= |log| - 1 ensures RunMaps(fold, m, log[..k + 1]) == RunMaps(fold, d, log[1..][..k]) {
        assert log[..k + 1][1..] == log[1..][..k];
      }
      assert RunMaps(fold, m, log[..0]) == m;
      assert RunMaps(fold, m, log[..1]) == d by { assert log[1..][..0] == []; }
      if Coherent(fold, d) {
        CoherentThroughoutIff(fold, d, log[1..]);
        if forall k | 0 <= k <= |log| :: Coherent(fold, RunMaps(fold, m, log[..k])) {
          forall k | 0 <= k <= |log[1..]| ensures Coherent(fold, RunMaps(fold, d, log[1..][..k])) {
            assert Coherent(fold, RunMaps(fold, m, log[..k + 1]));
          }
        } else {
          var k :| 0 <= k <= |log| && !Coherent(fold, RunMaps(fold, m, log[..k]));
          assert k > 0 && !Coherent(fold, RunMaps(fold, d, log[1..][..k - 1]));
        }
      }
    }
  }
}
