/**
  The replica as a function on its fourteen maps: what every command does to the
  tables and to the indices, whether or not the indices are exact, and the
  invariant that holds of every log without any condition on it.
 */
module Indexed {
  import opened Domain
  import opened Inverses
  import opened Tables
  import opened Coherence

  const NO_MAPS := Maps(map[], map[], map[], map[], map[], map[], map[], map[], map[], map[], map[], map[], map[], map[])

  // --- one function per command; each names the maps it may touch ----------------------

  /** The key leads to another row, or for a new row to any. */
  predicate Holds(index: Index, key: string, id: string, present: bool) {
    key in index && (present ==> index[key] != id)
  }

  predicate UserHolds(fold: Fold, m: Maps, u: User) {
    || Holds(m.usersByName, fold(u.username), u.id, u.id in m.users)
    || (u.oauthId != "" && Holds(m.usersByOAuth, OAuthKey(u.oauthProvider, u.oauthId), u.id, u.id in m.users))
  }

  /** An update drops the entries of the old row first, except that of an empty name. */
  function StoreUser(fold: Fold, m: Maps, u: User): (r: Maps)
    ensures r == m.(users := r.users, usersByName := r.usersByName, usersByOAuth := r.usersByOAuth)
  {
    var key := OAuthKey(u.oauthProvider, u.oauthId);
    m.(users := m.users[u.id := u],
       usersByName := if u.id in m.users then NamesAfterUpdate(fold, m.users[u.id], u, m.usersByName)
                      else m.usersByName[fold(u.username) := u.id],
       usersByOAuth := if u.id in m.users then OAuthsAfterUpdate(m.users[u.id], u, m.usersByOAuth)
                       else if u.oauthId != "" then m.usersByOAuth[key := u.id] else m.usersByOAuth)
  }

  ghost function PutUser(fold: Fold, m: Maps, u: User, create: bool): (r: (Maps, Outcome))
    ensures r.0 == m.(users := r.0.users, usersByName := r.0.usersByName, usersByOAuth := r.0.usersByOAuth)
    ensures r.1.Ok? || (r.1.Err? && r.0 == m)
  {
    var out := Verdict(u.id in m.users, create, UserHolds(fold, m, u));
    (if out.Ok? then StoreUser(fold, m, UserRow(m.users, u)) else m, out)
  }

  /** The edges and trace attributions of a user. */
  ghost function DetachUser(m: Maps, id: string): (r: Maps)
    ensures r == m.(memberships := r.memberships, membershipsByUser := r.membershipsByUser, traces := r.traces)
  {
    m.(memberships := DropMember(m.memberships, id),
       membershipsByUser := m.membershipsByUser - {id},
       traces := ForgetUser(m.traces, id))
  }

  function RemoveUserRow(fold: Fold, m: Maps, id: string): (r: Maps)
    requires id in m.users
    ensures r == m.(users := r.users, usersByName := r.usersByName, usersByOAuth := r.usersByOAuth)
  {
    var u := m.users[id];
    m.(users := m.users - {id},
       usersByName := m.usersByName - {fold(u.username)},
       usersByOAuth := if u.oauthId != "" then m.usersByOAuth - {OAuthKey(u.oauthProvider, u.oauthId)}
                       else m.usersByOAuth)
  }

  /** The user goes with whatever token its owner entry leads to. */
  ghost function DropUser(fold: Fold, m: Maps, id: string): (r: (Maps, Outcome))
    ensures r.0 == m.(users := r.0.users, usersByName := r.0.usersByName, usersByOAuth := r.0.usersByOAuth,
                      memberships := r.0.memberships, membershipsByUser := r.0.membershipsByUser,
                      tokens := r.0.tokens, tokensByHash := r.0.tokensByHash, tokensByUser := r.0.tokensByUser,
                      traces := r.0.traces)
    ensures r.1.Ok? || (r.1.Err? && r.0 == m)
  {
    if id !in m.users then (m, Err(NotFound))
    else (RemoveUserRow(fold, DetachUser(DropTokenOf(m, id), id), id), Ok(true))
  }

  function StoreGroup(fold: Fold, m: Maps, g: Group): (r: Maps)
    ensures r == m.(groups := r.groups, groupsByName := r.groupsByName)
  {
    var rest := if g.id in m.groups then m.groupsByName - {fold(m.groups[g.id].name)} else m.groupsByName;
    m.(groups := m.groups[g.id := g], groupsByName := rest[fold(g.name) := g.id])
  }

  ghost function PutGroup(fold: Fold, m: Maps, g: Group, create: bool): (r: (Maps, Outcome))
    ensures r.0 == m.(groups := r.0.groups, groupsByName := r.0.groupsByName)
    ensures r.1.Ok? || (r.1.Err? && r.0 == m)
  {
    var out := Verdict(g.id in m.groups, create, Holds(m.groupsByName, fold(g.name), g.id, g.id in m.groups));
    (if out.Ok? then StoreGroup(fold, m, GroupRow(m.groups, g)) else m, out)
  }

  /** The edges, project assignments and trace attributions of a group. */
  ghost function DetachGroup(m: Maps, id: string): (r: Maps)
    ensures r == m.(memberships := r.memberships, membershipsByUser := r.membershipsByUser,
                    projects := r.projects, traces := r.traces)
  {
    m.(memberships := m.memberships - {id},
       membershipsByUser := DropMember(m.membershipsByUser, id),
       projects := UnassignProjects(m.projects, id),
       traces := ForgetGroup(m.traces, id))
  }

  function RemoveGroupRow(fold: Fold, m: Maps, id: string): (r: Maps)
    requires id in m.groups
    ensures r == m.(groups := r.groups, groupsByName := r.groupsByName)
  {
    m.(groups := m.groups - {id}, groupsByName := m.groupsByName - {fold(m.groups[id].name)})
  }

  ghost function DropGroup(fold: Fold, m: Maps, id: string): (r: (Maps, Outcome))
    ensures r.0 == m.(groups := r.0.groups, groupsByName := r.0.groupsByName, memberships := r.0.memberships,
                      membershipsByUser := r.0.membershipsByUser, projects := r.0.projects, traces := r.0.traces)
    ensures r.1.Ok? || (r.1.Err? && r.0 == m)
  {
    if id !in m.groups then (m, Err(NotFound)) else (RemoveGroupRow(fold, DetachGroup(m, id), id), Ok(true))
  }

  ghost function PutMembers(m: Maps, groupId: string, userIds: seq<string>): (r: (Maps, Outcome))
    ensures r.0 == m.(memberships := r.0.memberships, membershipsByUser := r.0.membershipsByUser)
    ensures r.1.Ok? || (r.1.Err? && r.0 == m)
  {
    var members := set u | u in userIds;
    if groupId !in m.groups || !(members <= m.users.Keys) then (m, Err(NotFound))
    else
      (m.(memberships := if members == {} then m.memberships - {groupId} else m.memberships[groupId := members],
          membershipsByUser := AddMember(DropMember(m.membershipsByUser, groupId), members, groupId)), Ok(true))
  }

  function StoreProject(fold: Fold, m: Maps, p: Project): (r: Maps)
    ensures r == m.(projects := r.projects, projectsByName := r.projectsByName)
  {
    var rest := if p.id in m.projects then m.projectsByName - {fold(m.projects[p.id].name)} else m.projectsByName;
    m.(projects := m.projects[p.id := p], projectsByName := rest[fold(p.name) := p.id])
  }

  ghost function PutProject(fold: Fold, m: Maps, p: Project, create: bool): (r: (Maps, Outcome))
    ensures r.0 == m.(projects := r.0.projects, projectsByName := r.0.projectsByName)
    ensures r.1.Ok? || (r.1.Err? && r.0 == m)
  {
    var out := Verdict(p.id in m.projects, create, Holds(m.projectsByName, fold(p.name), p.id, p.id in m.projects));
    (if out.Ok? then StoreProject(fold, m, ProjectRow(m.projects, p)) else m, out)
  }

  ghost function DropProject(fold: Fold, m: Maps, id: string): (r: (Maps, Outcome))
    ensures r.0 == m.(projects := r.0.projects, projectsByName := r.0.projectsByName)
    ensures r.1.Ok? || (r.1.Err? && r.0 == m)
  {
    if id !in m.projects then (m, Err(NotFound))
    else (m.(projects := m.projects - {id}, projectsByName := m.projectsByName - {fold(m.projects[id].name)}), Ok(true))
  }

  /** Removes a token with its entries; a missing row is left missing. */
  function RemoveToken(m: Maps, id: string): (r: Maps)
    ensures r == m.(tokens := r.tokens, tokensByHash := r.tokensByHash, tokensByUser := r.tokensByUser)
  {
    if id !in m.tokens then m
    else m.(tokens := m.tokens - {id},
            tokensByHash := m.tokensByHash - {m.tokens[id].tokenHash},
            tokensByUser := m.tokensByUser - {m.tokens[id].userId})
  }

  function DropTokenOf(m: Maps, userId: string): (r: Maps)
    ensures r == m.(tokens := r.tokens, tokensByHash := r.tokensByHash, tokensByUser := r.tokensByUser)
  {
    if userId in m.tokensByUser then RemoveToken(m, m.tokensByUser[userId]) else m
  }

  function StoreToken(m: Maps, t: Token): (r: Maps)
    ensures r == m.(tokens := r.tokens, tokensByHash := r.tokensByHash, tokensByUser := r.tokensByUser)
  {
    m.(tokens := m.tokens[t.id := t],
       tokensByHash := m.tokensByHash[t.tokenHash := t.id],
       tokensByUser := m.tokensByUser[t.userId := t.id])
  }

  /** An owner entry that leads to no row is dereferenced all the same. */
  function PutToken(m: Maps, t: Token): (r: (Maps, Outcome))
    ensures r.0 == m.(tokens := r.0.tokens, tokensByHash := r.0.tokensByHash, tokensByUser := r.0.tokensByUser)
    ensures r.1.Ok? || r.0 == m
    ensures r.1.Panic? <==> t.userId in m.tokensByUser && m.tokensByUser[t.userId] !in m.tokens
  {
    if t.userId in m.tokensByUser then
      var existing := m.tokensByUser[t.userId];
      if existing !in m.tokens then (m, Panic)
      else if t.tokenHash != m.tokens[existing].tokenHash && Holds(m.tokensByHash, t.tokenHash, existing, true) then
        (m, Err(Conflict))
      else (StoreToken(RemoveToken(m, existing), t), Ok(true))
    else if t.tokenHash in m.tokensByHash then (m, Err(Conflict))
    else (StoreToken(m, t), Ok(true))
  }

  function StampToken(m: Maps, id: string, at: Time): (r: Maps)
    ensures r == m.(tokens := r.tokens)
  {
    if id !in m.tokens then m else m.(tokens := m.tokens[id := m.tokens[id].(lastUsedAt := Some(at))])
  }

  function MarkTrace(m: Maps, id: string, reason: string, at: Time): (r: (Maps, Outcome))
    ensures r.0 == m.(traces := r.0.traces) && r.1.Ok?
  {
    if id !in m.traces then (m, Ok(false))
    else (m.(traces := m.traces[id := FailRow(m.traces[id], reason, at)]), Ok(!Terminal(m.traces[id].status)))
  }

  predicate TraceAction(a: Action) {
    a.DoProvision? || a.DoIngest? || a.DoMarkFailed? || a.DoSetMeta? || a.DoDeleteTrace? || a.Nop? || a.Reject?
  }

  function EnactTrace(m: Maps, a: Action): (r: (Maps, Outcome))
    requires TraceAction(a)
    ensures r.0 == m.(traces := r.0.traces, meta := r.0.meta)
    ensures r.1.Ok? || (r.1.Err? && r.0 == m)
  {
    match a
    case DoProvision(id, userId, version, at) =>
      (m.(traces := m.traces[id := ProvisionRow(RowOf(m.traces, id), id, userId, version, at)]), Ok(true))
    case DoIngest(row) => (m.(traces := m.traces[row.traceId := IngestRow(RowOf(m.traces, row.traceId), row)]), Ok(true))
    case DoMarkFailed(id, reason, at) => MarkTrace(m, id, reason, at)
    case DoSetMeta(key, val) => (m.(meta := m.meta[key := val]), Ok(true))
    case DoDeleteTrace(id) => (m.(traces := m.traces - {id}), Ok(true))
    case Nop => (m, Ok(true))
    case Reject(e) => (m, Err(e))
  }

  ghost function Enact(fold: Fold, m: Maps, a: Action): (r: (Maps, Outcome))
    ensures r.1.Ok? || r.0 == m
  {
    match a
    case DoUpsertUser(u, create) => PutUser(fold, m, u, create)
    case DoDeleteUser(id) => DropUser(fold, m, id)
    case DoUpsertGroup(g, create) => PutGroup(fold, m, g, create)
    case DoDeleteGroup(id) => DropGroup(fold, m, id)
    case DoSetMembers(groupId, userIds) => PutMembers(m, groupId, userIds)
    case DoUpsertProject(p, create) => PutProject(fold, m, p, create)
    case DoDeleteProject(id) => DropProject(fold, m, id)
    case DoUpsertToken(t) => PutToken(m, t)
    case DoDeleteToken(userId) => (DropTokenOf(m, userId), Ok(true))
    case DoTouchToken(id, at) => (StampToken(m, id, at), Ok(true))
    case _ => EnactTrace(m, a)
  }

  /** Applies one log entry; an entry that fails or panics has changed nothing. */
  ghost function StepMaps(fold: Fold, m: Maps, c: Command): (r: (Maps, Outcome))
    ensures r.1.Ok? || r.0 == m
  {
    Enact(fold, m, Decode(c))
  }

  /** A panic ends the process, so nothing after it is applied. */
  ghost function RunMaps(fold: Fold, m: Maps, log: seq<Command>): Maps
    decreases |log|
  {
    if log == [] || StepMaps(fold, m, log[0]).1.Panic? then m
    else RunMaps(fold, StepMaps(fold, m, log[0]).0, log[1..])
  }

  /** How many entries are applied before the first panic. */
  ghost function Applied(fold: Fold, m: Maps, log: seq<Command>): (n: nat)
    ensures n <= |log|
    decreases |log|
  {
    if log == [] || StepMaps(fold, m, log[0]).1.Panic? then 0
    else 1 + Applied(fold, StepMaps(fold, m, log[0]).0, log[1..])
  }

  // --- which tables a command may touch, table by table ----------------------------------

  lemma UsersFrame(fold: Fold, m: Maps, a: Action)
    ensures a.DoUpsertUser? || a.DoDeleteUser? || Enact(fold, m, a).0.users == m.users
  {
    hide PutGroup, DropGroup, PutMembers, PutProject, DropProject, PutToken, DropTokenOf, StampToken, EnactTrace;
  }

  lemma GroupsFrame(fold: Fold, m: Maps, a: Action)
    ensures a.DoUpsertGroup? || a.DoDeleteGroup? || Enact(fold, m, a).0.groups == m.groups
  {
    hide PutUser, DropUser, PutMembers, PutProject, DropProject, PutToken, DropTokenOf, StampToken, EnactTrace;
  }

  lemma ProjectsFrame(fold: Fold, m: Maps, a: Action)
    ensures a.DoUpsertProject? || a.DoDeleteProject? || a.DoDeleteGroup? || Enact(fold, m, a).0.projects == m.projects
  {
    hide PutUser, DropUser, PutGroup, PutMembers, PutToken, DropTokenOf, StampToken, EnactTrace;
  }

  /** Traces change by trace commands and by the two cascades. */
  lemma TracesAfter(fold: Fold, m: Maps, a: Action)
    ensures Enact(fold, m, a).0.traces ==
      if a.DoDeleteUser? && a.id in m.users then ForgetUser(m.traces, a.id)
      else if a.DoDeleteGroup? && a.id in m.groups then ForgetGroup(m.traces, a.id)
      else if TraceAction(a) then EnactTrace(m, a).0.traces
      else m.traces
  {
    hide PutUser, PutGroup, PutMembers, PutProject, DropProject, PutToken, DropTokenOf, StampToken, EnactTrace;
    hide RemoveUserRow, RemoveGroupRow, ForgetUser, ForgetGroup, DropMember, UnassignProjects;
  }

  // --- the membership maps -------------------------------------------------------------

  lemma DropMemberEdges(m: Adjacency, b: string)
    ensures NoEmpty(DropMember(m, b)) && DropMember(m, b).Keys <= m.Keys
    ensures forall x, y :: HasEdge(DropMember(m, b), x, y) <==> HasEdge(m, x, y) && y != b
  {
    forall x, y | HasEdge(m, x, y) && y != b ensures HasEdge(DropMember(m, b), x, y) {
      assert y in m[x] - {b};
    }
  }

  lemma AddMemberEdges(m: Adjacency, into: set<string>, b: string)
    requires NoEmpty(m)
    ensures NoEmpty(AddMember(m, into, b)) && AddMember(m, into, b).Keys == m.Keys + into
    ensures forall x, y :: HasEdge(AddMember(m, into, b), x, y) <==> HasEdge(m, x, y) || (x in into && y == b)
  {
    forall a | a in AddMember(m, into, b) ensures AddMember(m, into, b)[a] != {} {
      if a in into { assert b in AddMember(m, into, b)[a]; } else { assert m[a] != {}; }
    }
  }

  /** Takes `b` out of every inner set and drops the sets that become empty. */
  function DropMember(m: Adjacency, b: string): Adjacency {
    map a | a in m && m[a] - {b} != {} :: m[a] - {b}
  }

  function AddMember(m: Adjacency, into: set<string>, b: string): Adjacency {
    map a | a in m.Keys + into :: (if a in m then m[a] else {}) + (if a in into then {b} else {})
  }

  // --- every command keeps the replica sound ---------------------------------------------

  lemma ReplaceUserSound(fold: Fold, users: map<string, User>, byName: Index, byOAuth: Index, u: User)
    requires UsersSound(fold, users, byName, byOAuth) && u.id in users && !Holds(byName, fold(u.username), u.id, true)
    requires u.oauthId != "" ==> !Holds(byOAuth, OAuthKey(u.oauthProvider, u.oauthId), u.id, true)
    ensures UsersSound(fold, users[u.id := u], NamesAfterUpdate(fold, users[u.id], u, byName),
                       OAuthsAfterUpdate(users[u.id], u, byOAuth))
  {
    assert UserNames(fold, users[u.id := u]) == UserNames(fold, users)[u.id := fold(u.username)] by {
      UserKeysAfterPut(fold, users, u);
    }
    ButReplace(UserNames(fold, users), byName, fold(""), u.id, fold(u.username));
    if u.oauthId != "" { TakenByIndex(UserOAuths(users), byOAuth, u.id, OAuthKey(u.oauthProvider, u.oauthId)); }
    OAuthsAfterUpdateInverse(fold, users, u, byOAuth);
    hide UserOAuths, OAuthKey, OAuthsAfterUpdate, Inverse, InverseBut;
  }

  lemma InsertUserSound(fold: Fold, users: map<string, User>, byName: Index, byOAuth: Index, u: User)
    requires UsersSound(fold, users, byName, byOAuth) && u.id !in users && fold(u.username) !in byName
    requires u.oauthId != "" ==> OAuthKey(u.oauthProvider, u.oauthId) !in byOAuth
    ensures UsersSound(fold, users[u.id := u], byName[fold(u.username) := u.id],
                       if u.oauthId != "" then byOAuth[OAuthKey(u.oauthProvider, u.oauthId) := u.id] else byOAuth)
  {
    UserKeysAfterPut(fold, users, u);
    ButInsert(UserNames(fold, users), byName, fold(""), u.id, fold(u.username));
    if u.oauthId != "" {
      InverseInsert(UserOAuths(users), byOAuth, u.id, OAuthKey(u.oauthProvider, u.oauthId));
    } else {
      assert UserOAuths(users) - {u.id} == UserOAuths(users);
    }
    hide Inverse, InverseBut, OAuthKey;
  }

  lemma StoreUserSound(fold: Fold, m: Maps, u: User)
    requires UsersSound(fold, m.users, m.usersByName, m.usersByOAuth) && !UserHolds(fold, m, u)
    ensures var d := StoreUser(fold, m, u); UsersSound(fold, d.users, d.usersByName, d.usersByOAuth)
  {
    hide UsersSound, OAuthKey, NamesAfterUpdate, OAuthsAfterUpdate;
    if u.id in m.users { ReplaceUserSound(fold, m.users, m.usersByName, m.usersByOAuth, u); }
    else { InsertUserSound(fold, m.users, m.usersByName, m.usersByOAuth, u); }
  }

  lemma PutUserUsers(fold: Fold, m: Maps, u: User, create: bool)
    requires UsersSound(fold, m.users, m.usersByName, m.usersByOAuth)
    ensures var d := PutUser(fold, m, u, create).0;
      UsersSound(fold, d.users, d.usersByName, d.usersByOAuth) && m.users.Keys <= d.users.Keys
  {
    hide UsersSound, OAuthKey, NamesAfterUpdate, OAuthsAfterUpdate, Stamp;
    if PutUser(fold, m, u, create).1.Ok? { StoreUserSound(fold, m, UserRow(m.users, u)); }
  }

  lemma PutUserSound(fold: Fold, m: Maps, u: User, create: bool)
    requires Sound(fold, m)
    ensures Sound(fold, PutUser(fold, m, u, create).0)
  {
    hide UsersSound, GroupsOk, ProjectsOk, TokensSound, TracesOk, PutUser, NoEmpty, Mirrored;
    PutUserUsers(fold, m, u, create);
  }

  lemma RemoveUserSound(fold: Fold, users: map<string, User>, byName: Index, byOAuth: Index, id: string)
    requires UsersSound(fold, users, byName, byOAuth) && id in users
    ensures var u := users[id];
      UsersSound(fold, users - {id}, byName - {fold(u.username)},
                 if u.oauthId != "" then byOAuth - {OAuthKey(u.oauthProvider, u.oauthId)} else byOAuth)
  {
    var keys := UserNames(fold, users);
    ButRemove(keys, byName, fold(""), id);
    assert UserNames(fold, users - {id}) == keys - {id};
    assert UserOAuths(users - {id}) == UserOAuths(users) - {id};
    if users[id].oauthId != "" {
      InverseRemove(UserOAuths(users), byOAuth, id);
    } else {
      assert UserOAuths(users) - {id} == UserOAuths(users);
    }
    hide Inverse, InverseBut, OAuthKey;
  }

  lemma RemoveTokenSound(m: Maps, id: string)
    requires TokensSound(m.tokens, m.tokensByHash, m.tokensByUser)
    ensures var d := RemoveToken(m, id); TokensSound(d.tokens, d.tokensByHash, d.tokensByUser)
  {
    if id in m.tokens {
      CoversRemove(TokenHashes(m.tokens), m.tokensByHash, id);
      CoversRemove(TokenUsers(m.tokens), m.tokensByUser, id);
      assert TokenHashes(m.tokens - {id}) == TokenHashes(m.tokens) - {id};
      assert TokenUsers(m.tokens - {id}) == TokenUsers(m.tokens) - {id};
    }
  }

  lemma StoreTokenSound(m: Maps, t: Token)
    requires TokensSound(m.tokens, m.tokensByHash, m.tokensByUser)
    requires forall o <- m.tokens :: m.tokens[o].tokenHash != t.tokenHash && m.tokens[o].userId != t.userId
    ensures var d := StoreToken(m, t); TokensSound(d.tokens, d.tokensByHash, d.tokensByUser)
  {
    CoversPut(TokenHashes(m.tokens), m.tokensByHash, t.id, t.tokenHash);
    CoversPut(TokenUsers(m.tokens), m.tokensByUser, t.id, t.userId);
    assert TokenHashes(m.tokens[t.id := t]) == TokenHashes(m.tokens)[t.id := t.tokenHash];
    assert TokenUsers(m.tokens[t.id := t]) == TokenUsers(m.tokens)[t.id := t.userId];
    hide Covers;
  }

  /** A token that stays behind shares neither hash nor owner with the one being stored. */
  lemma PutTokenFree(m: Maps, t: Token, o: string)
    requires TokensSound(m.tokens, m.tokensByHash, m.tokensByUser) && PutToken(m, t).1.Ok? && o in m.tokens
    requires t.userId in m.tokensByUser ==> o != m.tokensByUser[t.userId]
    ensures m.tokens[o].tokenHash != t.tokenHash && m.tokens[o].userId != t.userId
  {
    var hashes, owners := TokenHashes(m.tokens), TokenUsers(m.tokens);
    assert hashes[o] in m.tokensByHash && m.tokensByHash[hashes[o]] == o;
    assert owners[o] in m.tokensByUser && m.tokensByUser[owners[o]] == o;
    if t.userId in m.tokensByUser {
      var existing := m.tokensByUser[t.userId];
      assert hashes[existing] in m.tokensByHash && m.tokensByHash[hashes[existing]] == existing;
    }
  }

  /** Even through a stale owner entry, no hash and no owner ever gets a second token. */
  lemma PutTokenSound(m: Maps, t: Token)
    requires TokensSound(m.tokens, m.tokensByHash, m.tokensByUser)
    ensures var d := PutToken(m, t).0; TokensSound(d.tokens, d.tokensByHash, d.tokensByUser)
  {
    if PutToken(m, t).1.Ok? {
      forall o | o in m.tokens && (t.userId in m.tokensByUser ==> o != m.tokensByUser[t.userId])
        ensures m.tokens[o].tokenHash != t.tokenHash && m.tokens[o].userId != t.userId
      {
        PutTokenFree(m, t, o);
      }
      hide TokensSound;
      if t.userId in m.tokensByUser {
        RemoveTokenSound(m, m.tokensByUser[t.userId]);
        StoreTokenSound(RemoveToken(m, m.tokensByUser[t.userId]), t);
      } else {
        StoreTokenSound(m, t);
      }
    }
  }

  lemma UnlinkUserOk(users: set<string>, groups: set<string>, m: Adjacency, byUser: Adjacency, id: string)
    requires MembersOk(users, groups, m, byUser)
    ensures MembersOk(users - {id}, groups, DropMember(m, id), byUser - {id})
    ensures EdgesOf(DropMember(m, id)) == WithoutUser(EdgesOf(m), id)
  {
    DropMemberEdges(m, id);
    hide DropMember;
    forall e: Edge ensures e in EdgesOf(DropMember(m, id)) <==> e in EdgesOf(m) && e.user != id {
      EdgesOfMember(m, e.group, e.user);
      EdgesOfMember(DropMember(m, id), e.group, e.user);
    }
  }

  lemma UnlinkGroupOk(users: set<string>, groups: set<string>, m: Adjacency, byUser: Adjacency, id: string)
    requires MembersOk(users, groups, m, byUser)
    ensures MembersOk(users, groups - {id}, m - {id}, DropMember(byUser, id))
    ensures EdgesOf(m - {id}) == WithoutGroup(EdgesOf(m), id)
  {
    DropMemberEdges(byUser, id);
    hide DropMember;
    forall e: Edge ensures e in EdgesOf(m - {id}) <==> e in EdgesOf(m) && e.group != id {
      EdgesOfMember(m, e.group, e.user);
      EdgesOfMember(m - {id}, e.group, e.user);
    }
  }

  lemma DropTokenOfSound(m: Maps, userId: string)
    requires TokensSound(m.tokens, m.tokensByHash, m.tokensByUser)
    ensures var d := DropTokenOf(m, userId); TokensSound(d.tokens, d.tokensByHash, d.tokensByUser)
  {
    hide TokensSound, RemoveToken;
    if userId in m.tokensByUser { RemoveTokenSound(m, m.tokensByUser[userId]); }
  }

  lemma ForgetOk(traces: map<string, TraceMeta>, id: string)
    requires TracesOk(traces)
    ensures TracesOk(ForgetUser(traces, id)) && TracesOk(ForgetGroup(traces, id))
  {
  }

  lemma DropUserSound(fold: Fold, m: Maps, id: string)
    requires Sound(fold, m)
    ensures Sound(fold, DropUser(fold, m, id).0)
  {
    hide UsersSound, GroupsOk, ProjectsOk, TokensSound, MembersOk, TracesOk, DropMember, ForgetUser, DropTokenOf, OAuthKey;
    if id in m.users {
      RemoveUserSound(fold, m.users, m.usersByName, m.usersByOAuth, id);
      DropTokenOfSound(m, id);
      UnlinkUserOk(m.users.Keys, m.groups.Keys, m.memberships, m.membershipsByUser, id);
      ForgetOk(m.traces, id);
      assert (m.users - {id}).Keys == m.users.Keys - {id};
    }
  }

  lemma PutGroupGroups(fold: Fold, m: Maps, g: Group, create: bool)
    requires GroupsOk(fold, m.groups, m.groupsByName)
    ensures var d := PutGroup(fold, m, g, create).0;
      GroupsOk(fold, d.groups, d.groupsByName) && m.groups.Keys <= d.groups.Keys
  {
    hide GroupsOk, Stamp;
    if PutGroup(fold, m, g, create).1.Ok? {
      var row := GroupRow(m.groups, g);
      if g.id in m.groups { ReplaceGroupOk(fold, m.groups, m.groupsByName, row); }
      else { InsertGroupOk(fold, m.groups, m.groupsByName, row); }
    }
  }

  lemma PutGroupSound(fold: Fold, m: Maps, g: Group, create: bool)
    requires Sound(fold, m)
    ensures Sound(fold, PutGroup(fold, m, g, create).0)
  {
    hide UsersSound, GroupsOk, ProjectsOk, TokensSound, TracesOk, PutGroup, NoEmpty, Mirrored;
    PutGroupGroups(fold, m, g, create);
  }

  lemma DropGroupSound(fold: Fold, m: Maps, id: string)
    requires Sound(fold, m)
    ensures Sound(fold, DropGroup(fold, m, id).0)
  {
    hide UsersSound, GroupsOk, ProjectsOk, TokensSound, MembersOk, TracesOk, DropMember, ForgetGroup, UnassignProjects;
    if id in m.groups {
      RemoveGroupOk(fold, m.groups, m.groupsByName, id);
      UnlinkGroupOk(m.users.Keys, m.groups.Keys, m.memberships, m.membershipsByUser, id);
      UnassignProjectsOk(fold, m.projects, m.projectsByName, id);
      ForgetOk(m.traces, id);
      assert (m.groups - {id}).Keys == m.groups.Keys - {id};
    }
  }

  lemma RelinkOk(users: set<string>, groups: set<string>, m: Adjacency, byUser: Adjacency, id: string, members: set<string>)
    requires MembersOk(users, groups, m, byUser) && id in groups && members <= users
    ensures MembersOk(users, groups, if members == {} then m - {id} else m[id := members],
                      AddMember(DropMember(byUser, id), members, id))
  {
    DropMemberEdges(byUser, id);
    AddMemberEdges(DropMember(byUser, id), members, id);
    hide DropMember, AddMember;
  }

  lemma PutMembersOk(m: Maps, groupId: string, userIds: seq<string>)
    requires MembersOk(m.users.Keys, m.groups.Keys, m.memberships, m.membershipsByUser)
    ensures var d := PutMembers(m, groupId, userIds).0;
      MembersOk(m.users.Keys, m.groups.Keys, d.memberships, d.membershipsByUser)
  {
    hide MembersOk, DropMember, AddMember;
    var members := set u | u in userIds;
    if groupId in m.groups && members <= m.users.Keys {
      RelinkOk(m.users.Keys, m.groups.Keys, m.memberships, m.membershipsByUser, groupId, members);
    }
  }

  lemma PutProjectProjects(fold: Fold, m: Maps, p: Project, create: bool)
    requires ProjectsOk(fold, m.projects, m.projectsByName)
    ensures var d := PutProject(fold, m, p, create).0; ProjectsOk(fold, d.projects, d.projectsByName)
  {
    hide ProjectsOk, Stamp;
    if PutProject(fold, m, p, create).1.Ok? {
      var row := ProjectRow(m.projects, p);
      if p.id in m.projects { ReplaceProjectOk(fold, m.projects, m.projectsByName, row); }
      else { InsertProjectOk(fold, m.projects, m.projectsByName, row); }
    }
  }

  lemma StampTokenSound(m: Maps, id: string, at: Time)
    requires TokensSound(m.tokens, m.tokensByHash, m.tokensByUser)
    ensures var d := StampToken(m, id, at); TokensSound(d.tokens, d.tokensByHash, d.tokensByUser)
  {
    if id in m.tokens { TouchTokenKeepsKeys(m.tokens, id, at); }
  }

  lemma TraceActionOk(m: Maps, a: Action)
    requires TracesOk(m.traces) && TraceAction(a)
    ensures TracesOk(EnactTrace(m, a).0.traces)
  {
    hide IngestStatus, First, Latest, Stamp, Terminal;
  }

  lemma AccountsSound(fold: Fold, m: Maps, a: Action)
    requires Sound(fold, m) && (a.DoUpsertUser? || a.DoDeleteUser? || a.DoUpsertGroup? || a.DoDeleteGroup? || a.DoSetMembers?)
    ensures Sound(fold, Enact(fold, m, a).0)
  {
    hide UsersSound, GroupsOk, ProjectsOk, TokensSound, TracesOk, MembersOk;
    hide PutUser, DropUser, PutGroup, DropGroup, PutMembers;
    match a
    case DoUpsertUser(u, create) => PutUserSound(fold, m, u, create);
    case DoDeleteUser(id) => DropUserSound(fold, m, id);
    case DoUpsertGroup(g, create) => PutGroupSound(fold, m, g, create);
    case DoDeleteGroup(id) => DropGroupSound(fold, m, id);
    case DoSetMembers(groupId, userIds) => PutMembersOk(m, groupId, userIds);
  }

  lemma AssetsSound(fold: Fold, m: Maps, a: Action)
    requires Sound(fold, m)
    requires a.DoUpsertProject? || a.DoDeleteProject? || a.DoUpsertToken? || a.DoDeleteToken? || a.DoTouchToken?
    ensures Sound(fold, Enact(fold, m, a).0)
  {
    hide UsersSound, GroupsOk, ProjectsOk, TokensSound, TracesOk, MembersOk;
    hide PutProject, PutToken, DropTokenOf, StampToken;
    match a
    case DoUpsertProject(p, create) => PutProjectProjects(fold, m, p, create);
    case DoDeleteProject(id) => if id in m.projects { RemoveProjectOk(fold, m.projects, m.projectsByName, id); }
    case DoUpsertToken(t) => PutTokenSound(m, t);
    case DoDeleteToken(userId) => DropTokenOfSound(m, userId);
    case DoTouchToken(id, at) => StampTokenSound(m, id, at);
  }

  lemma TracesSound(fold: Fold, m: Maps, a: Action)
    requires Sound(fold, m) && TraceAction(a)
    ensures Sound(fold, Enact(fold, m, a).0)
  {
    hide UsersSound, GroupsOk, ProjectsOk, TokensSound, TracesOk, MembersOk, EnactTrace;
    TraceActionOk(m, a);
  }

  /** Whatever the command and however stale the indices, the replica stays sound. */
  lemma EnactSound(fold: Fold, m: Maps, a: Action)
    requires Sound(fold, m)
    ensures Sound(fold, Enact(fold, m, a).0)
  {
    hide Sound, Enact;
    if TraceAction(a) {
      TracesSound(fold, m, a);
    } else if a.DoUpsertUser? || a.DoDeleteUser? || a.DoUpsertGroup? || a.DoDeleteGroup? || a.DoSetMembers? {
      AccountsSound(fold, m, a);
    } else {
      AssetsSound(fold, m, a);
    }
  }

  /** Every log: rows keyed, secondary keys unique, edges mirrored and live, rows found by their keys. */
  lemma {:induction false} RunSound(fold: Fold, m: Maps, log: seq<Command>)
    requires Sound(fold, m)
    ensures Sound(fold, RunMaps(fold, m, log)) && Consistent(fold, TablesOf(RunMaps(fold, m, log)))
    decreases |log|
  {
    hide Sound, Enact, Consistent;
    if log == [] || StepMaps(fold, m, log[0]).1.Panic? {
      SoundConsistent(fold, m);
    } else {
      EnactSound(fold, m, Decode(log[0]));
      RunSound(fold, StepMaps(fold, m, log[0]).0, log[1..]);
    }
  }

  /** A replica panics at an entry exactly when it stores a token for a user whose owner entry leads to no row. */
  lemma PanicIff(fold: Fold, m: Maps, c: Command)
    ensures StepMaps(fold, m, c).1.Panic? <==>
      var a := Decode(c);
      a.DoUpsertToken? && a.token.userId in m.tokensByUser && m.tokensByUser[a.token.userId] !in m.tokens
  {
    hide PutUser, DropUser, PutGroup, DropGroup, PutMembers, PutProject, DropProject, PutToken, DropTokenOf, StampToken;
    hide EnactTrace, Decode;
  }

  lemma {:induction false} RunApplied(fold: Fold, m: Maps, log: seq<Command>)
    ensures var n := Applied(fold, m, log);
      && RunMaps(fold, m, log) == RunMaps(fold, m, log[..n]) && Applied(fold, m, log[..n]) == n
      && (n < |log| ==> StepMaps(fold, RunMaps(fold, m, log), log[n]).1.Panic?)
    decreases |log|
  {
    hide StepMaps;
    var n := Applied(fold, m, log);
    if n > 0 {
      var d := StepMaps(fold, m, log[0]).0;
      RunApplied(fold, d, log[1..]);
      assert log[..n][1..] == log[1..][..n - 1];
    }
  }

  lemma {:induction false} RunMapsSnoc(fold: Fold, m: Maps, log: seq<Command>, c: Command)
    requires Applied(fold, m, log + [c]) == |log| + 1
    ensures Applied(fold, m, log) == |log|
    ensures RunMaps(fold, m, log + [c]) == StepMaps(fold, RunMaps(fold, m, log), c).0
    decreases |log|
  {
    hide StepMaps;
    if log == [] {
      assert (log + [c])[1..] == [];
    } else {
      assert (log + [c])[1..] == log[1..] + [c];
      RunMapsSnoc(fold, StepMaps(fold, m, log[0]).0, log[1..], c);
    }
  }

  lemma {:induction false} RunMapsAppend(fold: Fold, m: Maps, a: seq<Command>, b: seq<Command>)
    requires Applied(fold, m, a) == |a|
    ensures RunMaps(fold, m, a + b) == RunMaps(fold, RunMaps(fold, m, a), b)
    decreases |a|
  {
    hide StepMaps;
    if a == [] {
      assert a + b == b;
    } else {
      assert (a + b)[1..] == a[1..] + b;
      RunMapsAppend(fold, StepMaps(fold, m, a[0]).0, a[1..], b);
    }
  }
}
