/**
  The in-memory replica: fourteen maps updated in place by one method per
  command. Map iteration visits keys in an arbitrary order. Each method is proved
  to compute its function on the maps, whether or not the indices are exact, and
  with it to keep the replica sound and to refine the index-free machine.
 */
module Fsm {
  import opened Domain
  import opened Inverses
  import opened Tables
  import opened Coherence
  import opened Indexed
  import opened Refinement

  class FsmState {
    const fold: Fold

    var users: map<string, User>
    var usersByName: Index
    var usersByOAuth: Index
    var groups: map<string, Group>
    var groupsByName: Index
    var memberships: Adjacency
    var membershipsByUser: Adjacency
    var tokens: map<string, Token>
    var tokensByHash: Index
    var tokensByUser: Index
    var projects: map<string, Project>
    var projectsByName: Index
    var traces: map<string, TraceMeta>
    var meta: map<string, string>

    ghost function Contents(): Maps
      reads this
    {
      Maps(users, usersByName, usersByOAuth, groups, groupsByName, memberships, membershipsByUser,
           tokens, tokensByHash, tokensByUser, projects, projectsByName, traces, meta)
    }

    ghost function Database(): Db
      reads this
    {
      TablesOf(Contents())
    }

    /** The indices are exact. */
    ghost predicate Valid()
      reads this
    {
      Coherent(fold, Contents())
    }

    /** What holds in every reachable state. */
    ghost predicate Reachable()
      reads this
    {
      Sound(fold, Contents())
    }

    constructor (fold: Fold)
      ensures this.fold == fold && Contents() == NO_MAPS && Valid() && Reachable() && Database() == EMPTY
    {
      this.fold := fold;
      users, usersByName, usersByOAuth := map[], map[], map[];
      groups, groupsByName := map[], map[];
      memberships, membershipsByUser := map[], map[];
      tokens, tokensByHash, tokensByUser := map[], map[], map[];
      projects, projectsByName := map[], map[];
      traces, meta := map[], map[];
      new;
      assert Coherent(fold, NO_MAPS) && TablesOf(NO_MAPS) == EMPTY;
      CoherentSound(fold, NO_MAPS);
      hide Coherent, Sound, TablesOf;
    }

    // --- users ------------------------------------------------------------------

    method StoreUser(u: User)
      modifies `users, `usersByName, `usersByOAuth
      ensures users == old(users)[u.id := u]
      ensures usersByName == old(usersByName)[fold(u.username) := u.id]
      ensures usersByOAuth == if u.oauthId != "" then old(usersByOAuth)[OAuthKey(u.oauthProvider, u.oauthId) := u.id]
                              else old(usersByOAuth)
    {
      users := users[u.id := u];
      usersByName := usersByName[fold(u.username) := u.id];
      if u.oauthId != "" {
        usersByOAuth := usersByOAuth[OAuthKey(u.oauthProvider, u.oauthId) := u.id];
      }
    }

    /** An empty old name keeps its index entry, every other old entry goes. */
    method ReplaceUser(u: User)
      requires u.id in users
      modifies `users, `usersByName, `usersByOAuth
      ensures Contents() == Indexed.StoreUser(fold, old(Contents()), u) && users == old(users)[u.id := u]
    {
      hide OAuthKey;
      var existing := users[u.id];
      if existing.username != "" { usersByName := usersByName - {fold(existing.username)}; }
      if existing.oauthId != "" {
        usersByOAuth := usersByOAuth - {OAuthKey(existing.oauthProvider, existing.oauthId)};
      }
      StoreUser(u);
    }

    method UpdateUser(u: User, create: bool) returns (out: Outcome)
      requires u.id in users
      modifies `users, `usersByName, `usersByOAuth
      ensures (Contents(), out) == PutUser(fold, old(Contents()), u, create)
      ensures out.Ok? ==> users == old(users)[u.id := u.(
        createdAt := old(users)[u.id].createdAt,
        updatedAt := if u.updatedAt != 0 then u.updatedAt else old(users)[u.id].updatedAt)]
    {
      hide OAuthKey, Indexed.StoreUser;
      var lower, key, existing := fold(u.username), OAuthKey(u.oauthProvider, u.oauthId), users[u.id];
      if create { return Err(Conflict); }
      if lower in usersByName && usersByName[lower] != u.id { return Err(Conflict); }
      if u.oauthId != "" && key in usersByOAuth && usersByOAuth[key] != u.id { return Err(Conflict); }
      ReplaceUser(u.(createdAt := existing.createdAt,
                     updatedAt := if u.updatedAt == ZERO_TIME then existing.updatedAt else u.updatedAt));
      return Ok(true);
    }

    method CreateUser(u: User, create: bool) returns (out: Outcome)
      requires u.id !in users
      modifies `users, `usersByName, `usersByOAuth
      ensures (Contents(), out) == PutUser(fold, old(Contents()), u, create)
      ensures out.Ok? ==> users == old(users)[u.id := u.(updatedAt := if u.updatedAt != 0 then u.updatedAt else u.createdAt)]
    {
      hide OAuthKey;
      var lower, key := fold(u.username), OAuthKey(u.oauthProvider, u.oauthId);
      if !create { return Err(NotFound); }
      if lower in usersByName { return Err(Conflict); }
      if u.oauthId != "" && key in usersByOAuth { return Err(Conflict); }
      StoreUser(u.(updatedAt := if u.updatedAt == ZERO_TIME then u.createdAt else u.updatedAt));
      return Ok(true);
    }

    method UpsertUser(u: User, create: bool) returns (out: Outcome)
      modifies `users, `usersByName, `usersByOAuth
      ensures (Contents(), out) == PutUser(fold, old(Contents()), u, create)
      ensures out.Ok? ==> users == old(users)[u.id := u.(
        createdAt := if u.id in old(users) then old(users)[u.id].createdAt else u.createdAt,
        updatedAt := if u.updatedAt != 0 then u.updatedAt
                     else if u.id in old(users) then old(users)[u.id].updatedAt else u.createdAt)]
    {
      hide PutUser;
      if u.id in users { out := UpdateUser(u, create); } else { out := CreateUser(u, create); }
    }

    /** The token behind the owner entry, the edges, the trace attributions and the row go together. */
    method DeleteUser(id: string) returns (out: Outcome)
      requires MembersOk(users.Keys, groups.Keys, memberships, membershipsByUser)
      modifies `users, `usersByName, `usersByOAuth, `memberships, `membershipsByUser
      modifies `tokens, `tokensByHash, `tokensByUser, `traces
      ensures (Contents(), out) == DropUser(fold, old(Contents()), id)
    {
      hide MembersOk, DropTokenOf, Indexed.DetachUser, RemoveUserRow;
      if id !in users { return Err(NotFound); }
      DeleteToken(id);
      DetachUser(id);
      DropUserRow(id);
      return Ok(true);
    }

    method DetachUser(id: string)
      requires MembersOk(users.Keys, groups.Keys, memberships, membershipsByUser)
      modifies `memberships, `membershipsByUser, `traces
      ensures Contents() == Indexed.DetachUser(old(Contents()), id)
    {
      hide MembersOk, ForgetUser, DropMember;
      UnlinkUser(id);
      ForgetUserInTraces(id);
    }

    method DropUserRow(id: string)
      requires id in users
      modifies `users, `usersByName, `usersByOAuth
      ensures Contents() == RemoveUserRow(fold, old(Contents()), id)
    {
      var u := users[id];
      users := users - {id};
      usersByName := usersByName - {fold(u.username)};
      if u.oauthId != "" {
        usersByOAuth := usersByOAuth - {OAuthKey(u.oauthProvider, u.oauthId)};
      }
    }

    /** Drops every edge of a user, in both directions. */
    method UnlinkUser(id: string)
      requires MembersOk(users.Keys, groups.Keys, memberships, membershipsByUser)
      modifies `memberships, `membershipsByUser
      ensures memberships == DropMember(old(memberships), id) && membershipsByUser == old(membershipsByUser) - {id}
    {
      var todo := if id in membershipsByUser then membershipsByUser[id] else {};
      while todo != {}
        invariant todo <= if id in membershipsByUser then membershipsByUser[id] else {}
        invariant NoEmpty(memberships) && membershipsByUser == old(membershipsByUser)
        invariant forall g, u :: HasEdge(memberships, g, u) <==>
                                 HasEdge(old(memberships), g, u) && (u != id || g in todo)
      {
        var gid :| gid in todo;
        UnlinkEdges(memberships, gid, id);
        memberships := Unlink(memberships, gid, id);
        todo := todo - {gid};
      }
      membershipsByUser := membershipsByUser - {id};
      DropMemberEdges(old(memberships), id);
      EdgesDetermine(memberships, DropMember(old(memberships), id));
    }

    method ForgetUserInTraces(id: string)
      modifies `traces
      ensures traces == ForgetUser(old(traces), id)
    {
      var todo := traces.Keys;
      while todo != {}
        invariant todo <= traces.Keys == old(traces).Keys
        invariant forall t <- todo :: traces[t] == old(traces)[t]
        invariant forall t | t in traces && t !in todo :: traces[t] == ForgetUser(old(traces), id)[t]
      {
        var t :| t in todo;
        if traces[t].userId == id {
          traces := traces[t := traces[t].(userId := "")];
        }
        todo := todo - {t};
      }
    }

    // --- groups -----------------------------------------------------------------

    method StoreGroup(g: Group)
      modifies `groups, `groupsByName
      ensures groups == old(groups)[g.id := g]
      ensures groupsByName == old(groupsByName)[fold(g.name) := g.id]
    {
      groups := groups[g.id := g];
      groupsByName := groupsByName[fold(g.name) := g.id];
    }

    method UpsertGroup(g: Group, create: bool) returns (out: Outcome)
      modifies `groups, `groupsByName
      ensures (Contents(), out) == PutGroup(fold, old(Contents()), g, create)
      ensures out.Ok? ==> groups == old(groups)[g.id := g.(
        createdAt := if g.id in old(groups) then old(groups)[g.id].createdAt else g.createdAt,
        updatedAt := if g.updatedAt != 0 then g.updatedAt
                     else if g.id in old(groups) then old(groups)[g.id].updatedAt else g.createdAt)]
    {
      var lower := fold(g.name);
      if g.id in groups {
        var existing := groups[g.id];
        if create { return Err(Conflict); }
        if lower in groupsByName && groupsByName[lower] != g.id { return Err(Conflict); }
        groupsByName := groupsByName - {fold(existing.name)};
        StoreGroup(g.(createdAt := existing.createdAt,
                      updatedAt := if g.updatedAt == ZERO_TIME then existing.updatedAt else g.updatedAt));
        return Ok(true);
      }
      if !create { return Err(NotFound); }
      if lower in groupsByName { return Err(Conflict); }
      StoreGroup(g.(updatedAt := if g.updatedAt == ZERO_TIME then g.createdAt else g.updatedAt));
      return Ok(true);
    }

    method DeleteGroup(id: string) returns (out: Outcome)
      requires MembersOk(users.Keys, groups.Keys, memberships, membershipsByUser)
      modifies `groups, `groupsByName, `memberships, `membershipsByUser, `projects, `traces
      ensures (Contents(), out) == DropGroup(fold, old(Contents()), id)
    {
      hide MembersOk, Indexed.DetachGroup, RemoveGroupRow;
      if id !in groups { return Err(NotFound); }
      DetachGroup(id);
      DropGroupRow(id);
      return Ok(true);
    }

    /** The cascades: the group's edges, project assignments and trace attributions. */
    method DetachGroup(id: string)
      requires MembersOk(users.Keys, groups.Keys, memberships, membershipsByUser)
      modifies `memberships, `membershipsByUser, `projects, `traces
      ensures Contents() == Indexed.DetachGroup(old(Contents()), id)
    {
      hide MembersOk, UnassignProjects, ForgetGroup, DropMember;
      DropGroupEdges(id);
      UnassignProjectsOf(id);
      ForgetGroupInTraces(id);
    }

    method DropGroupEdges(id: string)
      requires MembersOk(users.Keys, groups.Keys, memberships, membershipsByUser)
      modifies `memberships, `membershipsByUser
      ensures memberships == old(memberships) - {id} && membershipsByUser == DropMember(old(membershipsByUser), id)
    {
      hide MembersOk, DropMember;
      UnlinkGroup(id);
      memberships := memberships - {id};
    }

    method DropGroupRow(id: string)
      requires id in groups
      modifies `groups, `groupsByName
      ensures Contents() == RemoveGroupRow(fold, old(Contents()), id)
    {
      var g := groups[id];
      groups := groups - {id};
      groupsByName := groupsByName - {fold(g.name)};
    }

    /** Drops the reverse edges of a group; the caller then rewrites the forward ones. */
    method UnlinkGroup(id: string)
      requires MembersOk(users.Keys, groups.Keys, memberships, membershipsByUser)
      modifies `membershipsByUser
      ensures membershipsByUser == DropMember(old(membershipsByUser), id)
    {
      var todo := if id in memberships then memberships[id] else {};
      while todo != {}
        invariant todo <= if id in memberships then memberships[id] else {}
        invariant NoEmpty(membershipsByUser)
        invariant forall u, g :: HasEdge(membershipsByUser, u, g) <==>
                                 HasEdge(old(membershipsByUser), u, g) && (g != id || u in todo)
      {
        var uid :| uid in todo;
        UnlinkEdges(membershipsByUser, uid, id);
        membershipsByUser := Unlink(membershipsByUser, uid, id);
        todo := todo - {uid};
      }
      DropMemberEdges(old(membershipsByUser), id);
      EdgesDetermine(membershipsByUser, DropMember(old(membershipsByUser), id));
    }

    method UnassignProjectsOf(id: string)
      modifies `projects
      ensures projects == UnassignProjects(old(projects), id)
    {
      var todo := projects.Keys;
      while todo != {}
        invariant todo <= projects.Keys == old(projects).Keys
        invariant forall p <- todo :: projects[p] == old(projects)[p]
        invariant forall p | p in projects && p !in todo :: projects[p] == UnassignProjects(old(projects), id)[p]
      {
        var p :| p in todo;
        if projects[p].groupId == id {
          projects := projects[p := projects[p].(groupId := "")];
        }
        todo := todo - {p};
      }
    }

    method ForgetGroupInTraces(id: string)
      modifies `traces
      ensures traces == ForgetGroup(old(traces), id)
    {
      var todo := traces.Keys;
      while todo != {}
        invariant todo <= traces.Keys == old(traces).Keys
        invariant forall t <- todo :: traces[t] == old(traces)[t]
        invariant forall t | t in traces && t !in todo :: traces[t] == ForgetGroup(old(traces), id)[t]
      {
        var t :| t in todo;
        if traces[t].groupId == id {
          traces := traces[t := traces[t].(groupId := "")];
        }
        todo := todo - {t};
      }
    }

    method SetMembers(groupId: string, userIds: seq<string>) returns (out: Outcome)
      requires MembersOk(users.Keys, groups.Keys, memberships, membershipsByUser)
      modifies `memberships, `membershipsByUser
      ensures (Contents(), out) == PutMembers(old(Contents()), groupId, userIds)
    {
      hide MembersOk, DropMember, AddMember;
      if groupId !in groups { return Err(NotFound); }
      for i := 0 to |userIds|
        invariant forall k | 0 <= k < i :: userIds[k] in users
      {
        if userIds[i] !in users {
          assert userIds[i] in set u | u in userIds;
          return Err(NotFound);
        }
      }
      ReplaceMembers(groupId, userIds);
      return Ok(true);
    }

    method ReplaceMembers(groupId: string, userIds: seq<string>)
      requires MembersOk(users.Keys, groups.Keys, memberships, membershipsByUser)
      modifies `memberships, `membershipsByUser
      ensures var members := set u | u in userIds;
        && memberships == (if members == {} then old(memberships) - {groupId} else old(memberships)[groupId := members])
        && membershipsByUser == AddMember(DropMember(old(membershipsByUser), groupId), members, groupId)
    {
      UnlinkGroup(groupId);
      DropMemberEdges(old(membershipsByUser), groupId);
      var members := {};
      for i := 0 to |userIds|
        invariant members == set k | 0 <= k < i :: userIds[k]
      {
        members := members + {userIds[i]};
      }
      assert members == set u | u in userIds;
      AddMemberEdges(membershipsByUser, members, groupId);
      if members == {} {
        memberships := memberships - {groupId};
        EdgesDetermine(membershipsByUser, AddMember(membershipsByUser, members, groupId));
        return;
      }
      memberships := memberships[groupId := members];
      LinkMembers(groupId, members);
    }

    /** Records the edges of a group whose forward set is already in place. */
    method LinkMembers(groupId: string, members: set<string>)
      requires groupId in memberships && memberships[groupId] == members
      requires NoEmpty(memberships) && NoEmpty(membershipsByUser)
      modifies `memberships, `membershipsByUser
      ensures memberships == old(memberships) && membershipsByUser == AddMember(old(membershipsByUser), members, groupId)
    {
      var todo := members;
      while todo != {}
        invariant todo <= members
        invariant memberships == old(memberships) && NoEmpty(membershipsByUser)
        invariant forall u, g :: HasEdge(membershipsByUser, u, g) <==>
                                 HasEdge(old(membershipsByUser), u, g) || (g == groupId && u in members - todo)
      {
        var uid :| uid in todo;
        AddMembership(groupId, uid);
        assert memberships[groupId] == members;
        todo := todo - {uid};
      }
      AddMemberEdges(old(membershipsByUser), members, groupId);
      EdgesDetermine(membershipsByUser, AddMember(old(membershipsByUser), members, groupId));
    }

    method AddMembership(groupId: string, userId: string)
      requires NoEmpty(memberships) && NoEmpty(membershipsByUser)
      modifies `memberships, `membershipsByUser
      ensures memberships == Link(old(memberships), groupId, userId)
      ensures membershipsByUser == Link(old(membershipsByUser), userId, groupId)
      ensures NoEmpty(memberships) && NoEmpty(membershipsByUser)
      ensures forall g, u :: HasEdge(memberships, g, u) <==>
                             HasEdge(old(memberships), g, u) || (g == groupId && u == userId)
      ensures forall u, g :: HasEdge(membershipsByUser, u, g) <==>
                             HasEdge(old(membershipsByUser), u, g) || (g == groupId && u == userId)
    {
      hide HasEdge, NoEmpty;
      if groupId !in memberships { memberships := memberships[groupId := {}]; }
      memberships := memberships[groupId := memberships[groupId] + {userId}];
      if userId !in membershipsByUser { membershipsByUser := membershipsByUser[userId := {}]; }
      membershipsByUser := membershipsByUser[userId := membershipsByUser[userId] + {groupId}];
      assert memberships == Link(old(memberships), groupId, userId);
      assert membershipsByUser == Link(old(membershipsByUser), userId, groupId);
      LinkEdges(old(memberships), groupId, userId);
      LinkEdges(old(membershipsByUser), userId, groupId);
    }

    // --- projects ---------------------------------------------------------------

    method StoreProject(p: Project)
      modifies `projects, `projectsByName
      ensures projects == old(projects)[p.id := p]
      ensures projectsByName == old(projectsByName)[fold(p.name) := p.id]
    {
      projects := projects[p.id := p];
      projectsByName := projectsByName[fold(p.name) := p.id];
    }

    method UpsertProject(p: Project, create: bool) returns (out: Outcome)
      modifies `projects, `projectsByName
      ensures (Contents(), out) == PutProject(fold, old(Contents()), p, create)
      ensures out.Ok? ==> projects == old(projects)[p.id := p.(
        createdAt := if p.id in old(projects) then old(projects)[p.id].createdAt else p.createdAt,
        updatedAt := if p.updatedAt != 0 then p.updatedAt
                     else if p.id in old(projects) then old(projects)[p.id].updatedAt else p.createdAt)]
    {
      var lower := fold(p.name);
      if p.id !in projects {
        if !create { return Err(NotFound); }
        if lower in projectsByName { return Err(Conflict); }
        StoreProject(p.(updatedAt := if p.updatedAt == ZERO_TIME then p.createdAt else p.updatedAt));
        return Ok(true);
      }
      var existing := projects[p.id];
      if create { return Err(Conflict); }
      if lower in projectsByName && projectsByName[lower] != p.id { return Err(Conflict); }
      projectsByName := projectsByName - {fold(existing.name)};
      StoreProject(p.(createdAt := existing.createdAt,
                      updatedAt := if p.updatedAt == ZERO_TIME then existing.updatedAt else p.updatedAt));
      return Ok(true);
    }

    method DeleteProject(id: string) returns (out: Outcome)
      modifies `projects, `projectsByName
      ensures (Contents(), out) == DropProject(fold, old(Contents()), id)
    {
      if id !in projects { return Err(NotFound); }
      var p := projects[id];
      projects := projects - {id};
      projectsByName := projectsByName - {fold(p.name)};
      return Ok(true);
    }

    // --- tokens -----------------------------------------------------------------

    method StoreToken(t: Token)
      modifies `tokens, `tokensByHash, `tokensByUser
      ensures Contents() == Indexed.StoreToken(old(Contents()), t)
      ensures tokens == old(tokens)[t.id := t]
      ensures tokensByHash == old(tokensByHash)[t.tokenHash := t.id]
      ensures tokensByUser == old(tokensByUser)[t.userId := t.id]
    {
      tokens := tokens[t.id := t];
      tokensByHash := tokensByHash[t.tokenHash := t.id];
      tokensByUser := tokensByUser[t.userId := t.id];
    }

    method RemoveToken(id: string)
      modifies `tokens, `tokensByHash, `tokensByUser
      ensures Contents() == Indexed.RemoveToken(old(Contents()), id)
    {
      if id !in tokens { return; }
      var t := tokens[id];
      tokens := tokens - {id};
      tokensByHash := tokensByHash - {t.tokenHash};
      tokensByUser := tokensByUser - {t.userId};
    }

    /** Panics exactly when the owner entry leads to no row. */
    method UpsertToken(t: Token) returns (out: Outcome)
      modifies `tokens, `tokensByHash, `tokensByUser
      ensures (Contents(), out) == PutToken(old(Contents()), t)
      ensures out.Panic? <==> t.userId in old(tokensByUser) && old(tokensByUser)[t.userId] !in old(tokens)
    {
      hide Indexed.StoreToken, Indexed.RemoveToken;
      if t.userId in tokensByUser {
        var existing := tokensByUser[t.userId];
        if existing !in tokens { return Panic; }
        if t.tokenHash != tokens[existing].tokenHash {
          if t.tokenHash in tokensByHash && tokensByHash[t.tokenHash] != existing { return Err(Conflict); }
        }
        RemoveToken(existing);
      } else if t.tokenHash in tokensByHash {
        return Err(Conflict);
      }
      StoreToken(t);
      return Ok(true);
    }

    method DeleteToken(userId: string)
      modifies `tokens, `tokensByHash, `tokensByUser
      ensures Contents() == DropTokenOf(old(Contents()), userId)
    {
      if userId in tokensByUser { RemoveToken(tokensByUser[userId]); }
    }

    method TouchToken(id: string, at: Time)
      modifies `tokens
      ensures Contents() == StampToken(old(Contents()), id, at)
    {
      if id !in tokens { return; }
      tokens := tokens[id := tokens[id].(lastUsedAt := Some(at))];
    }

    // --- trace metadata -----------------------------------------------------------

    method UpsertTraceProvision(id: string, userId: string, version: string, at: Time)
      modifies `traces
      ensures traces == old(traces)[id := ProvisionRow(RowOf(old(traces), id), id, userId, version, at)]
    {
      if id !in traces {
        traces := traces[id := TraceMeta(id, userId, "", "", "", "", version, "", "", 0, ZERO_TIME, at)];
        return;
      }
      var row := traces[id];
      if row.userId == "" { row := row.(userId := userId); }
      if version != "" { row := row.(version := version); }
      traces := traces[id := row.(updatedAt := at)];
    }

    method UpsertTraceIngest(m: TraceMeta)
      modifies `traces
      ensures traces == old(traces)[m.traceId := IngestRow(RowOf(old(traces), m.traceId), m)]
    {
      if m.traceId !in traces {
        traces := traces[m.traceId := m];
        return;
      }
      var row := MergeIngest(traces[m.traceId], m);
      traces := traces[m.traceId := row];
    }

    method MarkTraceFailed(id: string, reason: string, at: Time) returns (changed: bool)
      modifies `traces
      ensures (Contents(), Ok(changed)) == MarkTrace(old(Contents()), id, reason, at)
      ensures changed <==> id in old(traces) && !Terminal(old(traces)[id].status)
      ensures changed ==> traces[id].status == "failed" && traces[id].failureReason == reason
      ensures !changed ==> traces == old(traces)
    {
      if id !in traces { return false; }
      var m := traces[id];
      if m.status == "success" || m.status == "failed" {
        assert traces[id := m] == traces;
        return false;
      }
      traces := traces[id := m.(status := "failed", failureReason := reason, updatedAt := at)];
      return true;
    }

    // --- reads by secondary key -------------------------------------------------------

    /** Every row is found by its name; only the empty name can lead to a wrong row or to none. */
    method ReadUserByUsername(username: string) returns (r: Lookup<User>)
      requires Reachable()
      ensures forall id <- users :: fold(users[id].username) == fold(username) ==> r == Found(users[id])
      ensures r.Found? ==> r.row.id in users && users[r.row.id] == r.row
      ensures fold(username) != fold("") || Valid() ==>
        !r.Crash? && (r.Found? ==> fold(r.row.username) == fold(username))
      ensures r.Crash? <==> fold(username) in usersByName && usersByName[fold(username)] !in users
      ensures !r.NilRow?
    {
      var lower := fold(username);
      assert forall id <- users :: UserNames(fold, users)[id] == fold(users[id].username);
      if lower !in usersByName { return Missing; }
      var id := usersByName[lower];
      return if id in users then Found(users[id]) else Crash;
    }

    method ReadUserByOAuth(provider: string, oauthId: string) returns (r: Lookup<User>)
      requires Reachable()
      ensures r.Found? ==>
        && r.row.id in users && users[r.row.id] == r.row && r.row.oauthId != ""
        && OAuthKey(r.row.oauthProvider, r.row.oauthId) == OAuthKey(provider, oauthId)
      ensures !r.Found? ==> r.Missing? && forall id <- users ::
        users[id].oauthId == "" || OAuthKey(users[id].oauthProvider, users[id].oauthId) != OAuthKey(provider, oauthId)
    {
      var key := OAuthKey(provider, oauthId);
      LookupByIndex(UserOAuths(users), usersByOAuth, key);
      if key !in usersByOAuth {
        assert forall id <- users :: users[id].oauthId != "" ==> id in UserOAuths(users);
        return Missing;
      }
      return Found(users[usersByOAuth[key]]);
    }

    method ReadGroupByName(name: string) returns (r: Lookup<Group>)
      requires Reachable()
      ensures r.Found? ==> r.row.id in groups && groups[r.row.id] == r.row && fold(r.row.name) == fold(name)
      ensures !r.Found? ==> r.Missing? && forall id <- groups :: fold(groups[id].name) != fold(name)
    {
      var lower := fold(name);
      LookupByIndex(GroupNames(fold, groups), groupsByName, lower);
      assert forall id <- groups :: GroupNames(fold, groups)[id] == fold(groups[id].name);
      if lower !in groupsByName { return Missing; }
      return Found(groups[groupsByName[lower]]);
    }

    method ReadProjectByName(name: string) returns (r: Lookup<Project>)
      requires Reachable()
      ensures r.Found? ==> r.row.id in projects && projects[r.row.id] == r.row && fold(r.row.name) == fold(name)
      ensures !r.Found? ==> r.Missing? && forall id <- projects :: fold(projects[id].name) != fold(name)
    {
      var lower := fold(name);
      LookupByIndex(ProjectNames(fold, projects), projectsByName, lower);
      assert forall id <- projects :: ProjectNames(fold, projects)[id] == fold(projects[id].name);
      if lower !in projectsByName { return Missing; }
      return Found(projects[projectsByName[lower]]);
    }

    /** A live token is always found by its hash; a left-over entry may give a token with another hash, or a nil row. */
    method ReadTokenByHash(hash: string) returns (r: Lookup<Token>)
      requires Reachable()
      ensures forall id <- tokens :: tokens[id].tokenHash == hash ==> r == Found(tokens[id])
      ensures r.Found? ==> r.row.id in tokens && tokens[r.row.id] == r.row
      ensures Valid() ==> !r.NilRow? && (r.Found? ==> r.row.tokenHash == hash)
      ensures r.NilRow? <==> hash in tokensByHash && tokensByHash[hash] !in tokens
      ensures !r.Crash?
    {
      assert forall id <- tokens :: TokenHashes(tokens)[id] == tokens[id].tokenHash;
      if hash !in tokensByHash { return Missing; }
      var id := tokensByHash[hash];
      return if id in tokens then Found(tokens[id]) else NilRow;
    }

    /** Each user has at most one token, and it is found. */
    method ReadTokenByUser(userId: string) returns (r: Lookup<Token>)
      requires Reachable()
      ensures forall id <- tokens :: tokens[id].userId == userId ==> r == Found(tokens[id])
      ensures r.Found? ==> r.row.id in tokens && tokens[r.row.id] == r.row
      ensures Valid() ==> !r.NilRow? && (r.Found? ==> r.row.userId == userId)
      ensures r.NilRow? <==> userId in tokensByUser && tokensByUser[userId] !in tokens
      ensures !r.Crash?
    {
      assert forall id <- tokens :: TokenUsers(tokens)[id] == tokens[id].userId;
      if userId !in tokensByUser { return Missing; }
      var id := tokensByUser[userId];
      return if id in tokens then Found(tokens[id]) else NilRow;
    }

    // --- dispatch -----------------------------------------------------------------

    method ApplyEntity(a: Action) returns (out: Outcome)
      requires Reachable() && !TraceAction(a)
      modifies this
      ensures (Contents(), out) == Enact(fold, old(Contents()), a)
    {
      assert MembersOk(users.Keys, groups.Keys, memberships, membershipsByUser);
      hide Sound, MembersOk, PutUser, DropUser, PutGroup, DropGroup, PutMembers, PutProject, DropProject;
      hide PutToken, DropTokenOf, StampToken;
      out := Ok(true);
      match a
      case DoUpsertUser(u, create) => out := UpsertUser(u, create);
      case DoDeleteUser(id) => out := DeleteUser(id);
      case DoUpsertGroup(g, create) => out := UpsertGroup(g, create);
      case DoDeleteGroup(id) => out := DeleteGroup(id);
      case DoSetMembers(groupId, userIds) => out := SetMembers(groupId, userIds);
      case DoUpsertProject(p, create) => out := UpsertProject(p, create);
      case DoDeleteProject(id) => out := DeleteProject(id);
      case DoUpsertToken(t) => out := UpsertToken(t);
      case DoDeleteToken(userId) => DeleteToken(userId);
      case DoTouchToken(id, at) => TouchToken(id, at);
    }

    method ApplyTrace(a: Action) returns (out: Outcome)
      requires TraceAction(a)
      modifies `traces, `meta
      ensures (Contents(), out) == EnactTrace(old(Contents()), a)
    {
      hide ProvisionRow, IngestRow, MarkTrace;
      out := Ok(true);
      match a
      case DoProvision(id, userId, version, at) => UpsertTraceProvision(id, userId, version, at);
      case DoIngest(m) => UpsertTraceIngest(m);
      case DoMarkFailed(id, reason, at) =>
        var changed := MarkTraceFailed(id, reason, at);
        out := Ok(changed);
      case DoSetMeta(key, val) => meta := meta[key := val];
      case DoDeleteTrace(id) => traces := traces - {id};
      case Nop =>
      case Reject(e) => out := Err(e);
    }

    /**
      One log entry. In every reachable state: the outcome and all fourteen maps
      are determined, failing or panicking changes nothing, and the state reached
      is sound. With exact indices it is the index-free step, and the indices stay
      exact if and only if the entry fails or keeps the rules.
     */
    method Apply(c: Command) returns (out: Outcome)
      requires Reachable()
      modifies this
      ensures Reachable() && (Contents(), out) == StepMaps(fold, old(Contents()), c)
      ensures !out.Ok? ==> Contents() == old(Contents())
      ensures old(Valid()) ==>
        (Database(), out) == Step(fold, old(Database()), c) && (Valid() <==> Keeps(fold, old(Database()), c))
    {
      hide Sound, Coherent, TablesOf, Enact, Act, Rule;
      EnactContract(fold, Contents(), Decode(c));
      var a := Decode(c);
      if TraceAction(a) {
        TraceStep(fold, Contents(), a);
        out := ApplyTrace(a);
      } else {
        out := ApplyEntity(a);
      }
    }

    /** Replays a log up to its end or to the first entry that panics. */
    method Replay(log: seq<Command>) returns (n: nat)
      requires Reachable()
      modifies this
      ensures Reachable() && Contents() == RunMaps(fold, old(Contents()), log)
      ensures n == Applied(fold, old(Contents()), log)
      ensures old(Valid()) && RunKeeps(fold, old(Database()), log) ==>
        Valid() && Database() == Run(fold, old(Database()), log) && n == |log|
    {
      hide Sound, Coherent, TablesOf, StepMaps;
      if Valid() && RunKeeps(fold, Database(), log) { RunRefines(fold, Contents(), log); }
      ghost var start := Contents();
      n := 0;
      while n < |log|
        invariant n <= |log| && Reachable()
        invariant RunMaps(fold, Contents(), log[n..]) == RunMaps(fold, start, log)
        invariant n + Applied(fold, Contents(), log[n..]) == Applied(fold, start, log)
      {
        assert log[n..][0] == log[n] && log[n..][1..] == log[n + 1..];
        var out := Apply(log[n]);
        if out.Panic? { return; }
        n := n + 1;
      }
    }
  }

  lemma TraceStep(fold: Fold, m: Maps, a: Action)
    requires TraceAction(a)
    ensures Enact(fold, m, a) == EnactTrace(m, a)
  {
  }

  method MergeStatus(existing: TraceMeta, m: TraceMeta) returns (status: string, failureReason: string)
    ensures status == IngestStatus(existing, m)
    ensures failureReason == if Terminal(m.status) then "" else existing.failureReason
  {
    status, failureReason := existing.status, existing.failureReason;
    if m.status == "success" || m.status == "failed" {
      status, failureReason := m.status, "";
    } else if m.status != "" && existing.status != "success" && existing.status != "failed" {
      status := m.status;
    }
  }

  method MergeIngest(existing: TraceMeta, m: TraceMeta) returns (row: TraceMeta)
    ensures row == IngestRow(Some(existing), m)
  {
    hide Terminal, IngestStatus;
    var groupId, projectName := existing.groupId, existing.projectName;
    if groupId == "" { groupId := m.groupId; }
    if m.projectName != "" { projectName := m.projectName; }
    var status, failureReason := MergeStatus(existing, m);
    var version, ciProvider, ciRepo := existing.version, existing.ciProvider, existing.ciRepo;
    if m.version != "" { version := m.version; }
    if m.ciProvider != "" { ciProvider := m.ciProvider; }
    if m.ciRepo != "" { ciRepo := m.ciRepo; }
    var durationMs, startedAt := existing.durationMs, existing.startedAt;
    if m.durationMs != 0 { durationMs := m.durationMs; }
    if m.startedAt != ZERO_TIME { startedAt := m.startedAt; }
    row := TraceMeta(existing.traceId, existing.userId, groupId, projectName, status, failureReason,
                     version, ciProvider, ciRepo, durationMs, startedAt, m.updatedAt);
  }
}
