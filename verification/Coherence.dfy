/**
  What it means for the fourteen maps of the in-memory replica to agree: each
  secondary index is the inverse of its table's keys, and the two membership
  maps are mirror images. The tables alone determine all the rest.
 */
module Coherence {
  import opened Domain
  import opened Inverses
  import opened Tables

  type Index = map<string, string>
  type Adjacency = map<string, set<string>>

  datatype Maps = Maps(
    users: map<string, User>,
    usersByName: Index,
    usersByOAuth: Index,
    groups: map<string, Group>,
    groupsByName: Index,
    memberships: Adjacency,
    membershipsByUser: Adjacency,
    tokens: map<string, Token>,
    tokensByHash: Index,
    tokensByUser: Index,
    projects: map<string, Project>,
    projectsByName: Index,
    traces: map<string, TraceMeta>,
    meta: map<string, string>)

  // --- membership graph -----------------------------------------------------------

  predicate HasEdge(m: Adjacency, a: string, b: string) {
    a in m && b in m[a]
  }

  ghost predicate NoEmpty(m: Adjacency) {
    forall a <- m :: m[a] != {}
  }

  ghost predicate Mirrored(m: Adjacency, back: Adjacency) {
    forall a, b :: HasEdge(m, a, b) <==> HasEdge(back, b, a)
  }

  function Link(m: Adjacency, a: string, b: string): Adjacency {
    m[a := (if a in m then m[a] else {}) + {b}]
  }

  /** Removes an edge and then the inner set if it became empty. */
  function Unlink(m: Adjacency, a: string, b: string): Adjacency {
    var rest := (if a in m then m[a] else {}) - {b};
    if rest == {} then m - {a} else m[a := rest]
  }

  lemma LinkEdges(m: Adjacency, a: string, b: string)
    requires NoEmpty(m)
    ensures NoEmpty(Link(m, a, b))
    ensures forall x, y :: HasEdge(Link(m, a, b), x, y) <==> HasEdge(m, x, y) || (x == a && y == b)
  {
  }

  lemma UnlinkEdges(m: Adjacency, a: string, b: string)
    requires NoEmpty(m)
    ensures NoEmpty(Unlink(m, a, b))
    ensures forall x, y :: HasEdge(Unlink(m, a, b), x, y) <==> HasEdge(m, x, y) && !(x == a && y == b)
  {
    var rest := (if a in m then m[a] else {}) - {b};
    forall y | HasEdge(m, a, y) && y != b ensures y in rest && rest != {} {
    }
  }

  ghost function EdgesOf(m: Adjacency): set<Edge> {
    set g, u | g in m && u in m[g] :: Edge(g, u)
  }

  lemma EdgesOfMember(m: Adjacency, g: string, u: string)
    ensures Edge(g, u) in EdgesOf(m) <==> HasEdge(m, g, u)
  {
  }

  /** Without empty inner sets the edges determine the map. */
  lemma EdgesDetermine(m: Adjacency, n: Adjacency)
    requires NoEmpty(m) && NoEmpty(n)
    requires forall a, b :: HasEdge(m, a, b) <==> HasEdge(n, a, b)
    ensures m == n
  {
    forall a | a in m ensures a in n && m[a] == n[a] {
      var b :| b in m[a];
      assert HasEdge(m, a, b);
      assert forall c :: c in m[a] <==> HasEdge(m, a, c);
      assert forall c :: c in n[a] <==> HasEdge(n, a, c);
    }
    forall a | a in n ensures a in m {
      var b :| b in n[a];
      assert HasEdge(n, a, b);
    }
  }

  // --- coherence, table by table ----------------------------------------------------

  ghost predicate UsersOk(fold: Fold, users: map<string, User>, byName: Index, byOAuth: Index) {
    && (forall id <- users :: users[id].id == id)
    && Inverse(UserNames(fold, users), byName)
    && Inverse(UserOAuths(users), byOAuth)
  }

  ghost predicate GroupsOk(fold: Fold, groups: map<string, Group>, byName: Index) {
    (forall id <- groups :: groups[id].id == id) && Inverse(GroupNames(fold, groups), byName)
  }

  ghost predicate ProjectsOk(fold: Fold, projects: map<string, Project>, byName: Index) {
    (forall id <- projects :: projects[id].id == id) && Inverse(ProjectNames(fold, projects), byName)
  }

  ghost predicate TokensOk(tokens: map<string, Token>, byHash: Index, byUser: Index) {
    && (forall id <- tokens :: tokens[id].id == id)
    && Inverse(TokenHashes(tokens), byHash)
    && Inverse(TokenUsers(tokens), byUser)
  }

  ghost predicate MembersOk(users: set<string>, groups: set<string>, m: Adjacency, byUser: Adjacency) {
    NoEmpty(m) && NoEmpty(byUser) && Mirrored(m, byUser) && m.Keys <= groups && byUser.Keys <= users
  }

  ghost predicate TracesOk(traces: map<string, TraceMeta>) {
    forall id <- traces :: traces[id].traceId == id
  }

  ghost predicate Coherent(fold: Fold, m: Maps) {
    && UsersOk(fold, m.users, m.usersByName, m.usersByOAuth)
    && GroupsOk(fold, m.groups, m.groupsByName)
    && ProjectsOk(fold, m.projects, m.projectsByName)
    && TokensOk(m.tokens, m.tokensByHash, m.tokensByUser)
    && MembersOk(m.users.Keys, m.groups.Keys, m.memberships, m.membershipsByUser)
    && TracesOk(m.traces)
  }

  // --- what holds even when entries are left over --------------------------------------

  /** Rows are found by name, and the only name that can be left over is the empty one. */
  ghost predicate UsersSound(fold: Fold, users: map<string, User>, byName: Index, byOAuth: Index) {
    && (forall id <- users :: users[id].id == id)
    && InverseBut(UserNames(fold, users), byName, fold(""))
    && Inverse(UserOAuths(users), byOAuth)
  }

  ghost predicate TokensSound(tokens: map<string, Token>, byHash: Index, byUser: Index) {
    && (forall id <- tokens :: tokens[id].id == id)
    && Covers(TokenHashes(tokens), byHash)
    && Covers(TokenUsers(tokens), byUser)
  }

  /** The invariant of every reachable replica: nothing but name and token entries can be stale. */
  ghost predicate Sound(fold: Fold, m: Maps) {
    && UsersSound(fold, m.users, m.usersByName, m.usersByOAuth)
    && GroupsOk(fold, m.groups, m.groupsByName)
    && ProjectsOk(fold, m.projects, m.projectsByName)
    && TokensSound(m.tokens, m.tokensByHash, m.tokensByUser)
    && MembersOk(m.users.Keys, m.groups.Keys, m.memberships, m.membershipsByUser)
    && TracesOk(m.traces)
  }

  lemma CoherentSound(fold: Fold, m: Maps)
    requires Coherent(fold, m)
    ensures Sound(fold, m)
  {
  }

  /** What a replica stores once its indices are forgotten. */
  ghost function TablesOf(m: Maps): Db {
    Db(m.users, m.groups, m.tokens, m.projects, m.traces, m.meta, EdgesOf(m.memberships))
  }

  /** Two coherent replicas with the same tables agree on all fourteen maps. */
  lemma CoherentUnique(fold: Fold, m: Maps, n: Maps)
    requires Coherent(fold, m) && Coherent(fold, n)
    requires TablesOf(m) == TablesOf(n)
    ensures m == n
  {
    InverseUnique(UserNames(fold, m.users), m.usersByName, n.usersByName);
    InverseUnique(UserOAuths(m.users), m.usersByOAuth, n.usersByOAuth);
    InverseUnique(GroupNames(fold, m.groups), m.groupsByName, n.groupsByName);
    InverseUnique(ProjectNames(fold, m.projects), m.projectsByName, n.projectsByName);
    InverseUnique(TokenHashes(m.tokens), m.tokensByHash, n.tokensByHash);
    InverseUnique(TokenUsers(m.tokens), m.tokensByUser, n.tokensByUser);
    forall a, b ensures HasEdge(m.memberships, a, b) <==> HasEdge(n.memberships, a, b) {
      EdgesOfMember(m.memberships, a, b);
      EdgesOfMember(n.memberships, a, b);
    }
    EdgesDetermine(m.memberships, n.memberships);
    EdgesDetermine(m.membershipsByUser, n.membershipsByUser);
  }

  /** A sound replica holds a consistent database: covering indices keep every key unique. */
  lemma SoundConsistent(fold: Fold, m: Maps)
    requires Sound(fold, m)
    ensures Consistent(fold, TablesOf(m))
  {
    CoversInjective(UserNames(fold, m.users), m.usersByName);
    CoversInjective(UserOAuths(m.users), m.usersByOAuth);
    CoversInjective(GroupNames(fold, m.groups), m.groupsByName);
    CoversInjective(ProjectNames(fold, m.projects), m.projectsByName);
    CoversInjective(TokenHashes(m.tokens), m.tokensByHash);
    CoversInjective(TokenUsers(m.tokens), m.tokensByUser);
    forall e | e in EdgesOf(m.memberships) ensures e.group in m.groups && e.user in m.users {
      assert HasEdge(m.memberships, e.group, e.user) && HasEdge(m.membershipsByUser, e.user, e.group);
    }
  }

  // --- index maintenance under an update ---------------------------------------------

  /** Both conflict checks of a user upsert, read off the indices. */
  lemma UserTakenByIndex(fold: Fold, users: map<string, User>, byName: Index, byOAuth: Index, u: User)
    requires UsersOk(fold, users, byName, byOAuth)
    ensures Taken(UserNames(fold, users), u.id, fold(u.username)) <==>
            fold(u.username) in byName && byName[fold(u.username)] != u.id
    ensures var key := OAuthKey(u.oauthProvider, u.oauthId);
            Taken(UserOAuths(users), u.id, key) <==> key in byOAuth && byOAuth[key] != u.id
    ensures u.id !in users ==> (fold(u.username) in byName ==> byName[fold(u.username)] != u.id)
    ensures var key := OAuthKey(u.oauthProvider, u.oauthId);
            u.id !in users ==> (key in byOAuth ==> byOAuth[key] != u.id)
  {
  }

  /** A provider without the separator byte keeps OAuth keys apart. */
  lemma OAuthKeyInjective(p: string, id: string, q: string, other: string)
    requires '\0' !in p && '\0' !in q && OAuthKey(p, id) == OAuthKey(q, other)
    ensures p == q && id == other
  {
    var k := OAuthKey(p, id);
    assert k[|p|] == '\0' && OAuthKey(q, other)[|q|] == '\0';
    assert k[..|p|] == p && OAuthKey(q, other)[..|q|] == q;
    assert k[|p| + 1..] == id && OAuthKey(q, other)[|q| + 1..] == other;
  }

  /** The one way an update of a user leaves a stale name behind: the stored name was empty. */
  predicate NameRule(fold: Fold, users: map<string, User>, u: User) {
    u.id in users && users[u.id].username == "" ==> fold(u.username) == fold("")
  }

  function NamesAfterUpdate(fold: Fold, was: User, u: User, byName: Index): Index {
    (if was.username != "" then byName - {fold(was.username)} else byName)[fold(u.username) := u.id]
  }

  lemma NamesAfterUpdateInverse(fold: Fold, users: map<string, User>, u: User, byName: Index)
    requires u.id in users && Inverse(UserNames(fold, users), byName)
    requires !Taken(UserNames(fold, users), u.id, fold(u.username))
    ensures Inverse(UserNames(fold, users[u.id := u]), NamesAfterUpdate(fold, users[u.id], u, byName))
            <==> NameRule(fold, users, u)
  {
    var keys, was := UserNames(fold, users), users[u.id];
    UserKeysAfterPut(fold, users, u);
    assert keys[u.id] in byName && byName[keys[u.id]] == u.id;
    if was.username != "" {
      InverseReplace(keys, byName, u.id, fold(u.username));
    } else if fold(u.username) == fold("") {
      assert keys[u.id := fold(u.username)] == keys;
      assert byName[fold(u.username) := u.id] == byName;
    } else {
      var after := NamesAfterUpdate(fold, was, u, byName);
      assert fold("") in after && after[fold("")] == u.id;
      assert keys[u.id := fold(u.username)][u.id] != fold("");
    }
  }

  function OAuthsAfterUpdate(was: User, u: User, byOAuth: Index): Index {
    var dropped := if was.oauthId != "" then byOAuth - {OAuthKey(was.oauthProvider, was.oauthId)} else byOAuth;
    if u.oauthId != "" then dropped[OAuthKey(u.oauthProvider, u.oauthId) := u.id] else dropped
  }

  lemma OAuthsAfterUpdateInverse(fold: Fold, users: map<string, User>, u: User, byOAuth: Index)
    requires u.id in users && Inverse(UserOAuths(users), byOAuth)
    requires u.oauthId != "" ==> !Taken(UserOAuths(users), u.id, OAuthKey(u.oauthProvider, u.oauthId))
    ensures Inverse(UserOAuths(users[u.id := u]), OAuthsAfterUpdate(users[u.id], u, byOAuth))
  {
    var keys, was := UserOAuths(users), users[u.id];
    var key := OAuthKey(u.oauthProvider, u.oauthId);
    UserKeysAfterPut(fold, users, u);
    if u.oauthId != "" { TakenByIndex(keys, byOAuth, u.id, key); }
    if was.oauthId != "" {
      InverseRemove(keys, byOAuth, u.id);
      if u.oauthId != "" { InverseReplace(keys, byOAuth, u.id, key); }
    } else {
      assert keys - {u.id} == keys;
      if u.oauthId != "" { InverseInsert(keys, byOAuth, u.id, key); }
    }
  }

  lemma InsertUserOk(fold: Fold, users: map<string, User>, byName: Index, byOAuth: Index, u: User)
    requires UsersOk(fold, users, byName, byOAuth) && u.id !in users && fold(u.username) !in byName
    requires u.oauthId != "" ==> OAuthKey(u.oauthProvider, u.oauthId) !in byOAuth
    ensures UsersOk(fold, users[u.id := u], byName[fold(u.username) := u.id],
                    if u.oauthId != "" then byOAuth[OAuthKey(u.oauthProvider, u.oauthId) := u.id] else byOAuth)
  {
    UserKeysAfterPut(fold, users, u);
    InverseInsert(UserNames(fold, users), byName, u.id, fold(u.username));
    if u.oauthId != "" {
      InverseInsert(UserOAuths(users), byOAuth, u.id, OAuthKey(u.oauthProvider, u.oauthId));
    } else {
      assert UserOAuths(users) - {u.id} == UserOAuths(users);
    }
  }

  lemma RemoveUserOk(fold: Fold, users: map<string, User>, byName: Index, byOAuth: Index, id: string)
    requires UsersOk(fold, users, byName, byOAuth) && id in users
    ensures var u := users[id];
      UsersOk(fold, users - {id}, byName - {fold(u.username)},
              if u.oauthId != "" then byOAuth - {OAuthKey(u.oauthProvider, u.oauthId)} else byOAuth)
  {
    InverseRemove(UserNames(fold, users), byName, id);
    assert UserNames(fold, users - {id}) == UserNames(fold, users) - {id};
    assert UserOAuths(users - {id}) == UserOAuths(users) - {id};
    if users[id].oauthId != "" {
      InverseRemove(UserOAuths(users), byOAuth, id);
    } else {
      assert UserOAuths(users) - {id} == UserOAuths(users);
    }
  }

  lemma InsertGroupOk(fold: Fold, groups: map<string, Group>, byName: Index, g: Group)
    requires GroupsOk(fold, groups, byName) && g.id !in groups && fold(g.name) !in byName
    ensures GroupsOk(fold, groups[g.id := g], byName[fold(g.name) := g.id])
  {
    InverseInsert(GroupNames(fold, groups), byName, g.id, fold(g.name));
    assert GroupNames(fold, groups[g.id := g]) == GroupNames(fold, groups)[g.id := fold(g.name)];
  }

  lemma ReplaceGroupOk(fold: Fold, groups: map<string, Group>, byName: Index, g: Group)
    requires GroupsOk(fold, groups, byName) && g.id in groups && (fold(g.name) in byName ==> byName[fold(g.name)] == g.id)
    ensures GroupsOk(fold, groups[g.id := g], (byName - {fold(groups[g.id].name)})[fold(g.name) := g.id])
  {
    TakenByIndex(GroupNames(fold, groups), byName, g.id, fold(g.name));
    InverseReplace(GroupNames(fold, groups), byName, g.id, fold(g.name));
    assert GroupNames(fold, groups[g.id := g]) == GroupNames(fold, groups)[g.id := fold(g.name)];
  }

  lemma RemoveGroupOk(fold: Fold, groups: map<string, Group>, byName: Index, id: string)
    requires GroupsOk(fold, groups, byName) && id in groups
    ensures GroupsOk(fold, groups - {id}, byName - {fold(groups[id].name)})
  {
    InverseRemove(GroupNames(fold, groups), byName, id);
    assert GroupNames(fold, groups - {id}) == GroupNames(fold, groups) - {id};
  }

  lemma InsertProjectOk(fold: Fold, projects: map<string, Project>, byName: Index, p: Project)
    requires ProjectsOk(fold, projects, byName) && p.id !in projects && fold(p.name) !in byName
    ensures ProjectsOk(fold, projects[p.id := p], byName[fold(p.name) := p.id])
  {
    InverseInsert(ProjectNames(fold, projects), byName, p.id, fold(p.name));
    assert ProjectNames(fold, projects[p.id := p]) == ProjectNames(fold, projects)[p.id := fold(p.name)];
  }

  lemma ReplaceProjectOk(fold: Fold, projects: map<string, Project>, byName: Index, p: Project)
    requires ProjectsOk(fold, projects, byName) && p.id in projects
    requires fold(p.name) in byName ==> byName[fold(p.name)] == p.id
    ensures ProjectsOk(fold, projects[p.id := p], (byName - {fold(projects[p.id].name)})[fold(p.name) := p.id])
  {
    TakenByIndex(ProjectNames(fold, projects), byName, p.id, fold(p.name));
    InverseReplace(ProjectNames(fold, projects), byName, p.id, fold(p.name));
    assert ProjectNames(fold, projects[p.id := p]) == ProjectNames(fold, projects)[p.id := fold(p.name)];
  }

  lemma RemoveProjectOk(fold: Fold, projects: map<string, Project>, byName: Index, id: string)
    requires ProjectsOk(fold, projects, byName) && id in projects
    ensures ProjectsOk(fold, projects - {id}, byName - {fold(projects[id].name)})
  {
    InverseRemove(ProjectNames(fold, projects), byName, id);
    assert ProjectNames(fold, projects - {id}) == ProjectNames(fold, projects) - {id};
  }

  lemma UnassignProjectsOk(fold: Fold, projects: map<string, Project>, byName: Index, groupId: string)
    requires ProjectsOk(fold, projects, byName)
    ensures ProjectsOk(fold, UnassignProjects(projects, groupId), byName)
  {
    assert ProjectNames(fold, UnassignProjects(projects, groupId)) == ProjectNames(fold, projects);
  }

  /** A token ID must not already belong to another user's token. */
  predicate TokenRule(tokens: map<string, Token>, t: Token) {
    t.id in tokens ==> tokens[t.id].userId == t.userId
  }

  lemma TokensRemove(tokens: map<string, Token>, byHash: Index, byUser: Index, id: string)
    requires TokensOk(tokens, byHash, byUser) && id in tokens
    ensures TokensOk(tokens - {id}, byHash - {tokens[id].tokenHash}, byUser - {tokens[id].userId})
    ensures tokens - {id} == WithoutUserTokens(tokens, tokens[id].userId)
  {
    var hashes, owners := TokenHashes(tokens), TokenUsers(tokens);
    InverseRemove(hashes, byHash, id);
    InverseRemove(owners, byUser, id);
    assert TokenHashes(tokens - {id}) == hashes - {id};
    assert TokenUsers(tokens - {id}) == owners - {id};
    forall o | o in tokens && o != id ensures tokens[o].userId != tokens[id].userId {
      assert byUser[owners[o]] == o && byUser[owners[id]] == id;
    }
  }

  /** A user absent from the by-user index owns no token. */
  lemma TokensNone(tokens: map<string, Token>, byHash: Index, byUser: Index, userId: string)
    requires TokensOk(tokens, byHash, byUser)
    ensures userId !in byUser ==> WithoutUserTokens(tokens, userId) == tokens
  {
    assert forall o <- tokens :: TokenUsers(tokens)[o] in byUser;
  }

  /** A lookup by owner lands on a live token of that owner, which also answers for its own hash. */
  lemma OwnerByIndex(tokens: map<string, Token>, byHash: Index, byUser: Index, userId: string)
    requires TokensOk(tokens, byHash, byUser) && userId in byUser
    ensures byUser[userId] in tokens && tokens[byUser[userId]].userId == userId
    ensures var hash := tokens[byUser[userId]].tokenHash; hash in byHash && byHash[hash] == byUser[userId]
  {
  }

  lemma HashByIndex(tokens: map<string, Token>, byHash: Index, byUser: Index, hash: string)
    requires TokensOk(tokens, byHash, byUser)
    ensures hash in byHash ==> byHash[hash] in tokens && tokens[byHash[hash]].tokenHash == hash
  {
  }

  lemma TokensPut(tokens: map<string, Token>, byHash: Index, byUser: Index, t: Token)
    requires TokensOk(tokens, byHash, byUser) && t.tokenHash !in byHash && t.userId !in byUser
    ensures TokensOk(tokens[t.id := t], byHash[t.tokenHash := t.id], byUser[t.userId := t.id]) <==> t.id !in tokens
  {
    var hashes, owners := TokenHashes(tokens), TokenUsers(tokens);
    var after := tokens[t.id := t];
    assert TokenHashes(after) == hashes[t.id := t.tokenHash];
    assert TokenUsers(after) == owners[t.id := t.userId];
    if t.id !in tokens {
      InverseInsert(hashes, byHash, t.id, t.tokenHash);
      InverseInsert(owners, byUser, t.id, t.userId);
    } else {
      var stale := owners[t.id];
      assert stale in byUser && byUser[stale] == t.id && stale != t.userId;
      assert byUser[t.userId := t.id][stale] == t.id && TokenUsers(after)[t.id] == t.userId;
    }
  }

  /** The two lookups of an upsert amount to one scan for another owner of the hash. */
  lemma HashTakenByIndex(tokens: map<string, Token>, byHash: Index, byUser: Index, t: Token)
    requires TokensOk(tokens, byHash, byUser)
    ensures HashTaken(tokens, t) <==>
            t.tokenHash in byHash && !(t.userId in byUser && byUser[t.userId] == byHash[t.tokenHash])
  {
    var hashes, owners := TokenHashes(tokens), TokenUsers(tokens);
    if t.tokenHash in byHash {
      var o := byHash[t.tokenHash];
      assert o in hashes && hashes[o] == t.tokenHash;
      assert owners[o] in byUser && byUser[owners[o]] == o;
      if t.userId in byUser && byUser[t.userId] == o { assert owners[o] == t.userId; }
    }
    forall o | o in tokens && tokens[o].tokenHash == t.tokenHash ensures t.tokenHash in byHash && byHash[t.tokenHash] == o {
      assert hashes[o] in byHash;
    }
  }
}
