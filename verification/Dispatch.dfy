/**
  The wire format: what a log entry does, given the number of its kind and the
  fields of its payload, and which rows it leaves. Everything is spelled out in
  numbers, rows and edges, independently of how entries are decoded.
 */
module Dispatch {
  import opened Domain
  import opened Inverses
  import opened Tables
  import opened Coherence
  import opened Indexed

  // --- numbers and payloads -----------------------------------------------------------

  /** The kinds of users, groups and members; a user's fields come one by one. */
  lemma AccountKinds(fold: Fold, m: Maps, id: string, w: CmdUser, g: Group, create: bool, userIds: seq<string>)
    ensures StepMaps(fold, m, Command(1, UserPayload(w))) ==
      PutUser(fold, m, User(w.id, w.username, w.role, w.passwordHash, w.oauthProvider, w.oauthId, w.oauthTokenCiphertext,
                            w.oauthGroupIds, w.oauthGroups, w.oauthAdmin, w.deactivatedAt, w.tokenVersion,
                            w.createdAt, w.updatedAt), w.create)
    ensures StepMaps(fold, m, Command(2, IdPayload(id))) == DropUser(fold, m, id)
    ensures StepMaps(fold, m, Command(3, GroupPayload(g, create))) == PutGroup(fold, m, g, create)
    ensures StepMaps(fold, m, Command(4, IdPayload(id))) == DropGroup(fold, m, id)
    ensures StepMaps(fold, m, Command(5, MembersPayload(id, userIds))) == PutMembers(m, id, userIds)
  {
    hide PutUser, DropUser, PutGroup, DropGroup, PutMembers, PutProject, DropProject, PutToken, DropTokenOf, StampToken, EnactTrace;
  }

  /** The kinds of projects and tokens. */
  lemma AssetKinds(fold: Fold, m: Maps, id: string, p: Project, t: Token, create: bool, at: Time)
    ensures StepMaps(fold, m, Command(6, ProjectPayload(p, create))) == PutProject(fold, m, p, create)
    ensures StepMaps(fold, m, Command(7, IdPayload(id))) == DropProject(fold, m, id)
    ensures StepMaps(fold, m, Command(8, TokenPayload(t))) == PutToken(m, t)
    ensures StepMaps(fold, m, Command(9, OwnerPayload(id))) == (DropTokenOf(m, id), Ok(true))
    ensures StepMaps(fold, m, Command(10, TouchPayload(id, at))) ==
      (if id in m.tokens then m.(tokens := m.tokens[id := m.tokens[id].(lastUsedAt := Some(at))]) else m, Ok(true))
  {
    hide PutUser, DropUser, PutGroup, DropGroup, PutMembers, PutProject, DropProject, PutToken, DropTokenOf, EnactTrace;
  }

  /** A provisioned trace: the first owner and the last version stay. */
  lemma ProvisionKind(fold: Fold, m: Maps, id: string, user: string, version: string, at: Time)
    ensures StepMaps(fold, m, Command(11, ProvisionPayload(id, user, version, at))) ==
      (m.(traces := m.traces[id :=
         if id !in m.traces then TraceMeta(id, user, "", "", "", "", version, "", "", 0, 0, at)
         else m.traces[id].(userId := if m.traces[id].userId == "" then user else m.traces[id].userId,
                            version := if version != "" then version else m.traces[id].version,
                            updatedAt := at)]), Ok(true))
  {
  }

  /** An ingested trace is stored as it comes, or merged into the row that is there. */
  lemma IngestKind(fold: Fold, m: Maps, row: TraceMeta)
    ensures StepMaps(fold, m, Command(12, IngestPayload(row))) ==
      (m.(traces := m.traces[row.traceId :=
         if row.traceId in m.traces then Merged(m.traces[row.traceId], row) else row]), Ok(true))
  {
    if row.traceId in m.traces { MergedIsIngest(m.traces[row.traceId], row); }
    hide Merged, IngestStatus;
  }

  /** A failure mark changes a row that has not ended, and says whether it did. */
  lemma MarkFailedKind(fold: Fold, m: Maps, id: string, reason: string, at: Time)
    ensures StepMaps(fold, m, Command(13, FailPayload(id, reason, at))) ==
      if id in m.traces && m.traces[id].status != "success" && m.traces[id].status != "failed"
      then (m.(traces := m.traces[id := m.traces[id].(status := "failed", failureReason := reason, updatedAt := at)]), Ok(true))
      else (m, Ok(false))
  {
    assert id in m.traces ==> m.traces[id := m.traces[id]] == m.traces;
  }

  lemma SettingAndDeletionKinds(fold: Fold, m: Maps, id: string, key: string, val: string)
    ensures StepMaps(fold, m, Command(14, MetaPayload(key, val))) == (m.(meta := m.meta[key := val]), Ok(true))
    ensures StepMaps(fold, m, Command(22, TracePayload(id))) == (m.(traces := m.traces - {id}), Ok(true))
  {
  }

  /** An ingested row over a stored one, written from the fields each of them has. */
  function Merged(was: TraceMeta, row: TraceMeta): TraceMeta {
    TraceMeta(
      was.traceId,
      was.userId,
      if was.groupId == "" then row.groupId else was.groupId,
      if row.projectName == "" then was.projectName else row.projectName,
      if row.status == "success" || row.status == "failed" then row.status
      else if row.status == "" || was.status == "success" || was.status == "failed" then was.status
      else row.status,
      if row.status == "success" || row.status == "failed" then "" else was.failureReason,
      if row.version == "" then was.version else row.version,
      if row.ciProvider == "" then was.ciProvider else row.ciProvider,
      if row.ciRepo == "" then was.ciRepo else row.ciRepo,
      if row.durationMs == 0 then was.durationMs else row.durationMs,
      if row.startedAt == 0 then was.startedAt else row.startedAt,
      row.updatedAt)
  }

  lemma MergedIsIngest(was: TraceMeta, row: TraceMeta)
    ensures IngestRow(Some(was), row) == Merged(was, row)
  {
  }

  /** The payload has the form its kind asks for. */
  predicate WellShaped(kind: nat, p: Payload) {
    || (kind == 1 && p.UserPayload?) || (kind == 2 && p.IdPayload?) || (kind == 3 && p.GroupPayload?)
    || (kind == 4 && p.IdPayload?) || (kind == 5 && p.MembersPayload?) || (kind == 6 && p.ProjectPayload?)
    || (kind == 7 && p.IdPayload?) || (kind == 8 && p.TokenPayload?) || (kind == 9 && p.OwnerPayload?)
    || (kind == 10 && p.TouchPayload?) || (kind == 11 && p.ProvisionPayload?) || (kind == 12 && p.IngestPayload?)
    || (kind == 13 && p.FailPayload?) || (kind == 14 && p.MetaPayload?) || (kind == 22 && p.TracePayload?)
    || ((kind == 23 || kind == 24) && p.LeasePayload?)
  }

  /** All other entries leave the maps alone; together with the lemmas above this covers every entry. */
  lemma IdleKinds(fold: Fold, m: Maps, kind: nat, p: Payload)
    ensures 1 <= kind <= 14 || 22 <= kind <= 24 ==>
      WellShaped(kind, p) || StepMaps(fold, m, Command(kind, p)) == (m, Err(Undecodable))
    ensures kind == 15 || kind == 16 || 18 <= kind <= 21 || kind == 25 || ((kind == 23 || kind == 24) && p.LeasePayload?) ==>
      StepMaps(fold, m, Command(kind, p)) == (m, Ok(true))
    ensures kind == 0 || kind == 17 || kind > 25 ==> StepMaps(fold, m, Command(kind, p)) == (m, Err(UnknownKind))
  {
    hide PutUser, DropUser, PutGroup, DropGroup, PutMembers, PutProject, DropProject, PutToken, DropTokenOf, StampToken;
  }

  // --- the rows an upsert leaves --------------------------------------------------------

  /** A stored user is the given one; only the creation time and a missing update time come from elsewhere. */
  lemma UserWritten(fold: Fold, m: Maps, w: CmdUser)
    ensures var (d, out) := StepMaps(fold, m, Command(1, UserPayload(w)));
      d.users == if !out.Ok? then m.users else m.users[w.id :=
        User(w.id, w.username, w.role, w.passwordHash, w.oauthProvider, w.oauthId, w.oauthTokenCiphertext,
             w.oauthGroupIds, w.oauthGroups, w.oauthAdmin, w.deactivatedAt, w.tokenVersion,
             if w.id in m.users then m.users[w.id].createdAt else w.createdAt,
             if w.updatedAt != 0 then w.updatedAt
             else if w.id in m.users then m.users[w.id].updatedAt else w.createdAt)]
  {
    hide UserHolds, NamesAfterUpdate, OAuthsAfterUpdate, OAuthKey;
  }

  lemma GroupWritten(fold: Fold, m: Maps, g: Group, create: bool)
    ensures var (d, out) := StepMaps(fold, m, Command(3, GroupPayload(g, create)));
      d.groups == if !out.Ok? then m.groups else m.groups[g.id :=
        Group(g.id, g.name, g.description, g.maxRunnerSessions, g.agentAvailable, g.autoAssignPattern,
              if g.id in m.groups then m.groups[g.id].createdAt else g.createdAt,
              if g.updatedAt != 0 then g.updatedAt
              else if g.id in m.groups then m.groups[g.id].updatedAt else g.createdAt)]
  {
    hide Holds;
  }

  lemma ProjectWritten(fold: Fold, m: Maps, p: Project, create: bool)
    ensures var (d, out) := StepMaps(fold, m, Command(6, ProjectPayload(p, create)));
      d.projects == if !out.Ok? then m.projects else m.projects[p.id :=
        Project(p.id, p.name, p.groupId,
                if p.id in m.projects then m.projects[p.id].createdAt else p.createdAt,
                if p.updatedAt != 0 then p.updatedAt
                else if p.id in m.projects then m.projects[p.id].updatedAt else p.createdAt)]
  {
    hide Holds;
  }

  // --- which upserts are accepted ---------------------------------------------------------

  /** Creating what exists conflicts, updating what does not is not found, and a key in use conflicts. */
  predicate Answers(out: Outcome, present: bool, create: bool, inUse: bool) {
    && (out == Ok(true) <==> present != create && !inUse)
    && (out == Err(NotFound) <==> !present && !create)
    && (out == Err(Conflict) <==> (present && create) || (present != create && inUse))
  }

  ghost predicate UserInUse(fold: Fold, m: Maps, w: CmdUser) {
    exists o <- m.users :: o != w.id && (
      || fold(m.users[o].username) == fold(w.username)
      || (w.oauthId != "" && m.users[o].oauthId != ""
          && OAuthKey(m.users[o].oauthProvider, m.users[o].oauthId) == OAuthKey(w.oauthProvider, w.oauthId)))
  }

  lemma NameHeldIff(fold: Fold, m: Maps, id: string, name: string)
    requires UsersSound(fold, m.users, m.usersByName, m.usersByOAuth)
    requires fold(name) != fold("") || UsersOk(fold, m.users, m.usersByName, m.usersByOAuth)
    ensures Holds(m.usersByName, fold(name), id, id in m.users) <==>
      exists o <- m.users :: o != id && fold(m.users[o].username) == fold(name)
  {
    var keys := UserNames(fold, m.users);
    assert forall o <- m.users :: keys[o] == fold(m.users[o].username);
    if fold(name) in m.usersByName {
      var o := m.usersByName[fold(name)];
      assert o in m.users && fold(m.users[o].username) == fold(name);
    }
  }

  lemma OAuthHeldIff(fold: Fold, m: Maps, id: string, key: string)
    requires UsersSound(fold, m.users, m.usersByName, m.usersByOAuth)
    ensures Holds(m.usersByOAuth, key, id, id in m.users) <==>
      exists o <- m.users :: o != id && m.users[o].oauthId != ""
                             && OAuthKey(m.users[o].oauthProvider, m.users[o].oauthId) == key
  {
    hide OAuthKey;
    var keys := UserOAuths(m.users);
    assert forall o <- m.users :: m.users[o].oauthId != "" ==>
      o in keys && keys[o] == OAuthKey(m.users[o].oauthProvider, m.users[o].oauthId);
    if key in m.usersByOAuth {
      var o := m.usersByOAuth[key];
      assert o in keys && keys[o] == key;
    }
  }

  lemma UserHeldIff(fold: Fold, m: Maps, w: CmdUser)
    requires UsersSound(fold, m.users, m.usersByName, m.usersByOAuth)
    requires fold(w.username) != fold("") || UsersOk(fold, m.users, m.usersByName, m.usersByOAuth)
    ensures UserHolds(fold, m, w.ToDomain()) <==> UserInUse(fold, m, w)
  {
    NameHeldIff(fold, m, w.id, w.username);
    OAuthHeldIff(fold, m, w.id, OAuthKey(w.oauthProvider, w.oauthId));
    hide UsersSound, UsersOk, OAuthKey, Holds;
  }

  lemma PutUserAnswers(fold: Fold, m: Maps, u: User, create: bool)
    ensures Answers(PutUser(fold, m, u, create).1, u.id in m.users, create, UserHolds(fold, m, u))
  {
    hide UserHolds, StoreUser;
  }

  /** In every reachable state, unless the name is empty and the name index has a left-over entry. */
  lemma UserAnswers(fold: Fold, m: Maps, w: CmdUser)
    requires Sound(fold, m) && (fold(w.username) != fold("") || Coherent(fold, m))
    ensures Answers(StepMaps(fold, m, Command(1, UserPayload(w))).1, w.id in m.users, w.create, UserInUse(fold, m, w))
  {
    UserHeldIff(fold, m, w);
    PutUserAnswers(fold, m, w.ToDomain(), w.create);
    hide Sound, Coherent, PutUser, UserHolds, UserInUse, Answers;
  }

  lemma GroupAnswers(fold: Fold, m: Maps, g: Group, create: bool)
    requires Sound(fold, m)
    ensures Answers(StepMaps(fold, m, Command(3, GroupPayload(g, create))).1, g.id in m.groups, create,
                    exists o <- m.groups :: o != g.id && fold(m.groups[o].name) == fold(g.name))
  {
    var keys := GroupNames(fold, m.groups);
    TakenByIndex(keys, m.groupsByName, g.id, fold(g.name));
    assert forall o <- m.groups :: keys[o] == fold(m.groups[o].name);
    hide UsersSound, TokensSound, ProjectsOk, MembersOk, TracesOk, StoreGroup;
  }

  lemma ProjectAnswers(fold: Fold, m: Maps, p: Project, create: bool)
    requires Sound(fold, m)
    ensures Answers(StepMaps(fold, m, Command(6, ProjectPayload(p, create))).1, p.id in m.projects, create,
                    exists o <- m.projects :: o != p.id && fold(m.projects[o].name) == fold(p.name))
  {
    var keys := ProjectNames(fold, m.projects);
    TakenByIndex(keys, m.projectsByName, p.id, fold(p.name));
    assert forall o <- m.projects :: keys[o] == fold(m.projects[o].name);
    hide UsersSound, TokensSound, GroupsOk, MembersOk, TracesOk, StoreProject;
  }

  // --- tokens and members -----------------------------------------------------------------

  ghost predicate HashInUse(m: Maps, t: Token) {
    exists o <- m.tokens :: m.tokens[o].tokenHash == t.tokenHash && m.tokens[o].userId != t.userId
  }

  lemma TokenAnswer(m: Maps, t: Token)
    requires TokensOk(m.tokens, m.tokensByHash, m.tokensByUser)
    ensures PutToken(m, t).1 == if HashInUse(m, t) then Err(Conflict) else Ok(true)
  {
    var hashes, owners := TokenHashes(m.tokens), TokenUsers(m.tokens);
    assert forall o <- m.tokens :: hashes[o] == m.tokens[o].tokenHash && owners[o] == m.tokens[o].userId;
    LookupByIndex(hashes, m.tokensByHash, t.tokenHash);
    LookupByIndex(owners, m.tokensByUser, t.userId);
    hide Inverse, TokenHashes, TokenUsers, StoreToken, RemoveToken;
  }

  lemma TokenRows(m: Maps, t: Token)
    requires TokensOk(m.tokens, m.tokensByHash, m.tokensByUser) && PutToken(m, t).1.Ok?
    ensures var d := PutToken(m, t).0;
      && t.id in d.tokens && d.tokens[t.id] == t
      && (forall o | o != t.id :: o in d.tokens <==> o in m.tokens && m.tokens[o].userId != t.userId)
      && (forall o <- d.tokens | o != t.id :: d.tokens[o] == m.tokens[o])
  {
    var owners := TokenUsers(m.tokens);
    assert forall o <- m.tokens :: owners[o] == m.tokens[o].userId;
    LookupByIndex(owners, m.tokensByUser, t.userId);
    hide TokensOk, TokenUsers;
  }

  /** With exact indices: refused iff another user has the hash, else it replaces all of its owner's tokens. */
  lemma TokenWritten(fold: Fold, m: Maps, t: Token)
    requires TokensOk(m.tokens, m.tokensByHash, m.tokensByUser)
    ensures var (d, out) := StepMaps(fold, m, Command(8, TokenPayload(t)));
      && out == (if HashInUse(m, t) then Err(Conflict) else Ok(true))
      && (out.Ok? ==> t.id in d.tokens && d.tokens[t.id] == t)
      && (out.Ok? ==> forall o | o != t.id :: o in d.tokens <==> o in m.tokens && m.tokens[o].userId != t.userId)
      && (out.Ok? ==> forall o <- d.tokens | o != t.id :: d.tokens[o] == m.tokens[o])
  {
    hide PutToken, TokensOk, HashInUse;
    TokenAnswer(m, t);
    if PutToken(m, t).1.Ok? { TokenRows(m, t); }
  }

  /** Deleting a user's token leaves every other one. */
  lemma TokenDeleted(fold: Fold, m: Maps, userId: string)
    requires TokensOk(m.tokens, m.tokensByHash, m.tokensByUser)
    ensures StepMaps(fold, m, Command(9, OwnerPayload(userId))).0.tokens ==
      map o | o in m.tokens && m.tokens[o].userId != userId :: m.tokens[o]
  {
    OthersTokens(m, userId);
    hide TokensOk, DropTokenOf;
  }

  lemma OthersTokens(m: Maps, userId: string)
    requires TokensOk(m.tokens, m.tokensByHash, m.tokensByUser)
    ensures DropTokenOf(m, userId).tokens == map o | o in m.tokens && m.tokens[o].userId != userId :: m.tokens[o]
  {
    var owners := TokenUsers(m.tokens);
    assert forall o <- m.tokens :: owners[o] == m.tokens[o].userId;
    LookupByIndex(owners, m.tokensByUser, userId);
    hide TokensOk, TokenUsers;
  }

  /** Afterwards the group has exactly the given members, in both directions, and other groups what they had. */
  lemma MembersWritten(fold: Fold, m: Maps, groupId: string, userIds: seq<string>)
    ensures var (d, out) := StepMaps(fold, m, Command(5, MembersPayload(groupId, userIds)));
      && out == (if groupId in m.groups && forall u <- userIds :: u in m.users then Ok(true) else Err(NotFound))
      && (out.Ok? ==> forall g, u :: HasEdge(d.memberships, g, u) <==>
            if g == groupId then u in userIds else HasEdge(m.memberships, g, u))
      && (out.Ok? ==> forall u, g :: HasEdge(d.membershipsByUser, u, g) <==>
            if g == groupId then u in userIds else HasEdge(m.membershipsByUser, u, g))
  {
    MembersRows(m, groupId, userIds);
    hide PutMembers, HasEdge;
  }

  lemma MembersRows(m: Maps, groupId: string, userIds: seq<string>)
    ensures var (d, out) := PutMembers(m, groupId, userIds);
      && out == (if groupId in m.groups && forall u <- userIds :: u in m.users then Ok(true) else Err(NotFound))
      && (out.Ok? ==> forall g, u :: HasEdge(d.memberships, g, u) <==>
            if g == groupId then u in userIds else HasEdge(m.memberships, g, u))
      && (out.Ok? ==> forall u, g :: HasEdge(d.membershipsByUser, u, g) <==>
            if g == groupId then u in userIds else HasEdge(m.membershipsByUser, u, g))
  {
    var members := set u | u in userIds;
    assert members <= m.users.Keys <==> forall u <- userIds :: u in m.users;
    DropMemberEdges(m.membershipsByUser, groupId);
    AddMemberEdges(DropMember(m.membershipsByUser, groupId), members, groupId);
    assert forall u :: u in userIds <==> u in members;
    hide DropMember, AddMember;
    if PutMembers(m, groupId, userIds).1.Ok? {
      var d := PutMembers(m, groupId, userIds).0.memberships;
      assert forall g | g != groupId :: g in d <==> g in m.memberships;
      assert groupId in d <==> members != {};
    }
  }
}
