/** Properties of whole command logs: safety, atomicity, erasure, cascades. */
module Runs {
  import opened Domain
  import opened Inverses
  import opened Tables
  import opened Coherence
  import opened Indexed
  import opened Refinement
  import opened Fsm

  // --- a log-only condition under which the indices are exact in every reachable state ----

  /** Names are non-empty and a token ID always comes with the same user. */
  predicate WellFormed(c: Command, owner: string -> string) {
    match Decode(c)
    case DoUpsertUser(u, _) => u.username != ""
    case DoUpsertToken(t) => t.userId == owner(t.id)
    case _ => true
  }

  ghost predicate Disciplined(db: Db, owner: string -> string) {
    && (forall id <- db.users :: db.users[id].username != "")
    && (forall id <- db.tokens :: db.tokens[id].userId == owner(id))
  }

  lemma NamesStayNonEmpty(fold: Fold, db: Db, a: Action)
    requires forall id <- db.users :: db.users[id].username != ""
    requires a.DoUpsertUser? ==> a.user.username != ""
    ensures var d := Act(fold, db, a).0; forall id <- d.users :: d.users[id].username != ""
  {
    hide UserTaken, Stamp, WithoutUser, ForgetUser, WithoutUserTokens;
    hide UpsertGroup, DeleteGroup, SetMembers, UpsertProject, DeleteProject, UpsertToken, TouchToken;
    hide MarkFailed, Provision, Ingest;
  }

  lemma OwnersStay(fold: Fold, db: Db, a: Action, owner: string -> string)
    requires forall id <- db.tokens :: db.tokens[id].userId == owner(id)
    requires a.DoUpsertToken? ==> a.token.userId == owner(a.token.id)
    ensures var d := Act(fold, db, a).0; forall id <- d.tokens :: d.tokens[id].userId == owner(id)
  {
    hide HashTaken, WithoutUser, ForgetUser;
    hide UpsertUser, UpsertGroup, DeleteGroup, SetMembers, UpsertProject, DeleteProject, MarkFailed, Provision, Ingest;
  }

  lemma ActDisciplined(fold: Fold, db: Db, c: Command, owner: string -> string)
    requires Disciplined(db, owner) && WellFormed(c, owner)
    ensures Disciplined(Step(fold, db, c).0, owner) && Keeps(fold, db, c)
  {
    NamesStayNonEmpty(fold, db, Decode(c));
    OwnersStay(fold, db, Decode(c), owner);
    hide Act, Decode;
  }

  lemma {:induction false} WellFormedLogKeeps(fold: Fold, db: Db, log: seq<Command>, owner: string -> string)
    requires Disciplined(db, owner) && forall c <- log :: WellFormed(c, owner)
    ensures RunKeeps(fold, db, log)
    decreases |log|
  {
    if log != [] {
      ActDisciplined(fold, db, log[0], owner);
      WellFormedLogKeeps(fold, Step(fold, db, log[0]).0, log[1..], owner);
    }
  }

  /**
    Every log leads to a sound replica with unique keys and live, mirrored edges;
    a well-formed one to exact indices.
   */
  method Reach(fold: Fold, log: seq<Command>, ghost owner: string -> string) returns (s: FsmState, n: nat)
    ensures s.fold == fold && s.Reachable() && s.Contents() == RunMaps(fold, NO_MAPS, log)
    ensures Consistent(fold, s.Database())
    ensures (forall c <- log :: WellFormed(c, owner)) ==>
      s.Valid() && s.Database() == Run(fold, EMPTY, log) && n == |log|
  {
    hide Coherent, Sound, TablesOf, Consistent, WellFormed;
    if forall c <- log :: WellFormed(c, owner) { WellFormedLogKeeps(fold, EMPTY, log, owner); }
    s := new FsmState(fold);
    n := s.Replay(log);
    SoundConsistent(fold, s.Contents());
  }

  // --- atomicity --------------------------------------------------------------------------

  /** Drops what returned an error, every retired kind and every session command; a panic stays, as it ends the run. */
  ghost function Effective(fold: Fold, m: Maps, log: seq<Command>): seq<Command>
    decreases |log|
  {
    if log == [] then []
    else
      var (d, out) := StepMaps(fold, m, log[0]);
      var rest := Effective(fold, d, log[1..]);
      if out.Err? || ReservedKind(log[0].kind) || SessionKind(log[0].kind) then rest else [log[0]] + rest
  }

  lemma IdleKindChangesNothing(fold: Fold, m: Maps, c: Command)
    requires ReservedKind(c.kind) || SessionKind(c.kind)
    ensures StepMaps(fold, m, c).0 == m && !StepMaps(fold, m, c).1.Panic?
  {
  }

  /** On every log, erasing them leads to the same fourteen maps. */
  lemma {:induction false} ErasureKeepsMaps(fold: Fold, m: Maps, log: seq<Command>)
    ensures RunMaps(fold, m, Effective(fold, m, log)) == RunMaps(fold, m, log)
    decreases |log|
  {
    hide StepMaps;
    if log != [] {
      var (d, out) := StepMaps(fold, m, log[0]);
      ErasureKeepsMaps(fold, d, log[1..]);
      if !out.Err? && (ReservedKind(log[0].kind) || SessionKind(log[0].kind)) {
        IdleKindChangesNothing(fold, m, log[0]);
      } else if !out.Err? {
        var rest := Effective(fold, d, log[1..]);
        assert ([log[0]] + rest)[1..] == rest;
      }
    }
  }

  /** Replicas fed with a log and with its erased form hold the same maps. */
  method ReplayErased(fold: Fold, log: seq<Command>, erased: seq<Command>) returns (a: FsmState, b: FsmState)
    requires erased == Effective(fold, NO_MAPS, log)
    ensures a.Contents() == b.Contents()
  {
    hide Coherent, Sound, TablesOf;
    ErasureKeepsMaps(fold, NO_MAPS, log);
    a := new FsmState(fold);
    var _ := a.Replay(log);
    b := new FsmState(fold);
    var _ := b.Replay(erased);
  }

  // --- creation times -----------------------------------------------------------------------

  predicate DeletesUser(c: Command, id: string) { Decode(c) == DoDeleteUser(id) }
  predicate DeletesGroup(c: Command, id: string) { Decode(c) == DoDeleteGroup(id) }
  predicate DeletesProject(c: Command, id: string) { Decode(c) == DoDeleteProject(id) }

  ghost predicate UserSince(m: Maps, id: string, at: Time) { id in m.users && m.users[id].createdAt == at }
  ghost predicate GroupSince(m: Maps, id: string, at: Time) { id in m.groups && m.groups[id].createdAt == at }
  ghost predicate ProjectSince(m: Maps, id: string, at: Time) { id in m.projects && m.projects[id].createdAt == at }

  lemma StepKeepsUser(fold: Fold, m: Maps, c: Command, id: string, at: Time)
    requires UserSince(m, id, at) && !DeletesUser(c, id)
    ensures UserSince(StepMaps(fold, m, c).0, id, at)
  {
    UsersFrame(fold, m, Decode(c));
    hide Decode, OAuthKey, NamesAfterUpdate, OAuthsAfterUpdate, DropTokenOf, DropMember, ForgetUser;
    hide PutGroup, DropGroup, PutMembers, PutProject, DropProject, PutToken, StampToken, EnactTrace;
  }

  lemma StepKeepsGroup(fold: Fold, m: Maps, c: Command, id: string, at: Time)
    requires GroupSince(m, id, at) && !DeletesGroup(c, id)
    ensures GroupSince(StepMaps(fold, m, c).0, id, at)
  {
    GroupsFrame(fold, m, Decode(c));
    hide Decode, DropMember, ForgetGroup, UnassignProjects;
    hide PutUser, DropUser, PutMembers, PutProject, DropProject, PutToken, DropTokenOf, StampToken, EnactTrace;
  }

  lemma StepKeepsProject(fold: Fold, m: Maps, c: Command, id: string, at: Time)
    requires ProjectSince(m, id, at) && !DeletesProject(c, id)
    ensures ProjectSince(StepMaps(fold, m, c).0, id, at)
  {
    ProjectsFrame(fold, m, Decode(c));
    hide Decode, DropMember, ForgetGroup;
    hide PutUser, DropUser, PutGroup, PutMembers, PutToken, DropTokenOf, StampToken, EnactTrace;
  }

  /** Until it is deleted, a user, group or project survives every log with its creation time. */
  lemma {:induction false} CreatedAtIsPermanent(fold: Fold, m: Maps, log: seq<Command>, id: string, at: Time)
    ensures UserSince(m, id, at) && (forall c <- log :: !DeletesUser(c, id)) ==> UserSince(RunMaps(fold, m, log), id, at)
    ensures GroupSince(m, id, at) && (forall c <- log :: !DeletesGroup(c, id)) ==> GroupSince(RunMaps(fold, m, log), id, at)
    ensures ProjectSince(m, id, at) && (forall c <- log :: !DeletesProject(c, id)) ==>
      ProjectSince(RunMaps(fold, m, log), id, at)
    decreases |log|
  {
    hide StepMaps, DeletesUser, DeletesGroup, DeletesProject, UserSince, GroupSince, ProjectSince;
    if log != [] {
      var c, d := log[0], StepMaps(fold, m, log[0]).0;
      if UserSince(m, id, at) && !DeletesUser(c, id) { StepKeepsUser(fold, m, c, id, at); }
      if GroupSince(m, id, at) && !DeletesGroup(c, id) { StepKeepsGroup(fold, m, c, id, at); }
      if ProjectSince(m, id, at) && !DeletesProject(c, id) { StepKeepsProject(fold, m, c, id, at); }
      CreatedAtIsPermanent(fold, d, log[1..], id, at);
    }
  }

  // --- cascades -------------------------------------------------------------------------------

  /** The owner entry leads to somebody else's token. */
  predicate LeadsAstray(m: Maps, userId: string) {
    userId in m.tokensByUser && m.tokensByUser[userId] in m.tokens && m.tokens[m.tokensByUser[userId]].userId != userId
  }

  /** No token of the user survives; another's does not either exactly when the owner entry leads there. */
  lemma DropTokenCascade(m: Maps, id: string)
    requires TokensSound(m.tokens, m.tokensByHash, m.tokensByUser)
    ensures var d := DropTokenOf(m, id);
      && (forall t <- d.tokens :: d.tokens[t].userId != id && t in m.tokens && d.tokens[t] == m.tokens[t])
      && ((forall t <- m.tokens :: m.tokens[t].userId != id ==> t in d.tokens) <==> !LeadsAstray(m, id))
  {
    var d := DropTokenOf(m, id);
    forall t <- m.tokens ensures m.tokens[t].userId == id ==> id in m.tokensByUser && m.tokensByUser[id] == t {
      assert TokenUsers(m.tokens)[t] == m.tokens[t].userId;
    }
    hide TokensSound;
    if LeadsAstray(m, id) { assert m.tokensByUser[id] in m.tokens && m.tokensByUser[id] !in d.tokens; }
  }

  /** After a deletion nothing names the user, and every other row but a token that was led to is as before. */
  lemma DeleteUserCascade(fold: Fold, m: Maps, id: string)
    requires Sound(fold, m) && id in m.users && id != ""
    ensures var d := DropUser(fold, m, id).0;
      && d.users == m.users - {id} && (forall t <- d.tokens :: d.tokens[t].userId != id)
      && (forall g, u :: HasEdge(d.memberships, g, u) <==> HasEdge(m.memberships, g, u) && u != id)
      && (forall t <- d.traces :: d.traces[t].userId != id) && d.traces.Keys == m.traces.Keys
      && (forall t <- m.traces :: d.traces[t].(userId := m.traces[t].userId) == m.traces[t])
      && (forall t <- m.traces :: m.traces[t].userId != id ==> d.traces[t] == m.traces[t])
      && ((forall t <- m.tokens :: m.tokens[t].userId != id ==> t in d.tokens && d.tokens[t] == m.tokens[t])
          <==> !LeadsAstray(m, id))
  {
    DropTokenCascade(m, id);
    DropMemberEdges(m.memberships, id);
    assert DropUser(fold, m, id).0.tokens == DropTokenOf(m, id).tokens;
    hide Sound, DropTokenOf, DropMember, LeadsAstray, HasEdge;
  }

  lemma DeleteGroupCascade(fold: Fold, m: Maps, id: string)
    requires Sound(fold, m) && id in m.groups && id != ""
    ensures var d := DropGroup(fold, m, id).0;
      && d.groups == m.groups - {id}
      && (forall g, u :: HasEdge(d.memberships, g, u) <==> HasEdge(m.memberships, g, u) && g != id)
      && (forall u, g :: HasEdge(d.membershipsByUser, u, g) <==> HasEdge(m.membershipsByUser, u, g) && g != id)
      && (forall p <- d.projects :: d.projects[p].groupId != id) && (forall t <- d.traces :: d.traces[t].groupId != id)
      && d.projects.Keys == m.projects.Keys && d.traces.Keys == m.traces.Keys
      && (forall p <- m.projects :: d.projects[p].(groupId := m.projects[p].groupId) == m.projects[p])
      && (forall p <- m.projects :: m.projects[p].groupId != id ==> d.projects[p] == m.projects[p])
      && (forall t <- m.traces :: d.traces[t].(groupId := m.traces[t].groupId) == m.traces[t])
      && (forall t <- m.traces :: m.traces[t].groupId != id ==> d.traces[t] == m.traces[t])
      && d.users == m.users && d.tokens == m.tokens && d.meta == m.meta
  {
    DropMemberEdges(m.membershipsByUser, id);
    hide Sound, DropMember;
  }

  // --- what breaking a rule leads to -------------------------------------------------------------

  /** A token ID reused for another user leaves the first owner's entry leading to that user's token. */
  lemma ReuseLeadsAstray(m: Maps, t: Token)
    requires TokensOk(m.tokens, m.tokensByHash, m.tokensByUser) && PutToken(m, t).1.Ok? && !TokenRule(m.tokens, t)
    ensures LeadsAstray(PutToken(m, t).0, m.tokens[t.id].userId)
    ensures PutToken(m, t).0.tokensByUser[m.tokens[t.id].userId] == t.id
  {
    PutTokenBranch(m, t);
    DropTokenExact(m, t.userId);
    var owner := m.tokens[t.id].userId;
    assert TokenUsers(m.tokens)[t.id] == owner;
    assert t.id in DropTokenOf(m, t.userId).tokens;
    assert TokenUsers(DropTokenOf(m, t.userId).tokens)[t.id] == owner;
  }

  /** Storing the first owner's next token then deletes the other user's. */
  lemma AstrayLosesToken(m: Maps, t: Token)
    requires LeadsAstray(m, t.userId) && PutToken(m, t).1.Ok? && t.id != m.tokensByUser[t.userId]
    ensures m.tokensByUser[t.userId] !in PutToken(m, t).0.tokens
  {
  }

  /** And once that token has been deleted, storing one panics. */
  lemma AstrayPanics(m: Maps, t: Token)
    requires LeadsAstray(m, t.userId)
    ensures var other := m.tokens[m.tokensByUser[t.userId]].userId;
      other in m.tokensByUser && m.tokensByUser[other] == m.tokensByUser[t.userId] ==>
        PutToken(DropTokenOf(m, other), t).1.Panic?
  {
  }

  function TokenEntry(t: Token): Command {
    Command(KIND_UPSERT_TOKEN, TokenPayload(t))
  }

  function DeleteEntry(userId: string): Command {
    Command(KIND_DELETE_TOKEN, OwnerPayload(userId))
  }

  lemma TokenSteps(fold: Fold, m: Maps, t: Token, userId: string)
    ensures StepMaps(fold, m, TokenEntry(t)) == PutToken(m, t)
    ensures StepMaps(fold, m, DeleteEntry(userId)) == (DropTokenOf(m, userId), Ok(true))
  {
    hide PutToken, DropTokenOf;
  }

  function UserEntry(u: User, create: bool): Command {
    Command(KIND_UPSERT_USER, UserPayload(CmdUserFrom(u).(create := create)))
  }

  lemma RunCons(fold: Fold, m: Maps, c: Command, log: seq<Command>)
    requires !StepMaps(fold, m, c).1.Panic?
    ensures RunMaps(fold, m, [c] + log) == RunMaps(fold, StepMaps(fold, m, c).0, log)
    ensures Applied(fold, m, [c] + log) == 1 + Applied(fold, StepMaps(fold, m, c).0, log)
  {
    hide StepMaps;
    assert ([c] + log)[1..] == log;
  }

  /** The maps after one token, and after its ID was reused. */
  function OneToken(t: Token): Maps {
    NO_MAPS.(tokens := map[t.id := t], tokensByHash := map[t.tokenHash := t.id], tokensByUser := map[t.userId := t.id])
  }

  function ReusedId(t: Token, u: Token): Maps {
    NO_MAPS.(tokens := map[u.id := u],
             tokensByHash := map[t.tokenHash := u.id, u.tokenHash := u.id],
             tokensByUser := map[t.userId := u.id, u.userId := u.id])
  }

  predicate Reuses(t: Token, u: Token) {
    u.id == t.id && u.userId != t.userId && u.tokenHash != t.tokenHash
  }

  lemma ReuseReached(fold: Fold, t: Token, u: Token, log: seq<Command>)
    requires Reuses(t, u)
    ensures RunMaps(fold, NO_MAPS, [TokenEntry(t), TokenEntry(u)] + log) == RunMaps(fold, ReusedId(t, u), log)
    ensures Applied(fold, NO_MAPS, [TokenEntry(t), TokenEntry(u)] + log) == 2 + Applied(fold, ReusedId(t, u), log)
  {
    assert PutToken(NO_MAPS, t) == (OneToken(t), Ok(true));
    assert PutToken(OneToken(t), u) == (ReusedId(t, u), Ok(true)) by {
      assert map[t.id := t][u.id := u] == map[u.id := u];
    }
    hide StepMaps, PutToken;
    TokenSteps(fold, NO_MAPS, t, "");
    TokenSteps(fold, OneToken(t), u, "");
    RunCons(fold, NO_MAPS, TokenEntry(t), [TokenEntry(u)] + log);
    RunCons(fold, OneToken(t), TokenEntry(u), log);
    assert [TokenEntry(t), TokenEntry(u)] + log == [TokenEntry(t)] + ([TokenEntry(u)] + log);
  }

  lemma AfterReuse(t: Token, u: Token, v: Token)
    requires Reuses(t, u) && v.userId == t.userId
    ensures PutToken(ReusedId(t, u), v).1 == Ok(true) && PutToken(ReusedId(t, u), v).0.tokens == map[v.id := v]
    ensures PutToken(DropTokenOf(ReusedId(t, u), u.userId), v).1.Panic?
  {
    assert map[u.id := u] - {u.id} == map[];
  }

  /** A log with a reused token ID does not keep the rules, and its replica is not coherent. */
  lemma ReuseBreaksRules(fold: Fold, t: Token, u: Token)
    requires Reuses(t, u)
    ensures !RunKeeps(fold, EMPTY, [TokenEntry(t), TokenEntry(u)])
  {
    var log := [TokenEntry(t), TokenEntry(u)];
    var db := Step(fold, EMPTY, log[0]).0;
    assert Tables.UpsertToken(EMPTY, t).0.tokens == map[t.id := t];
    assert db.tokens == map[t.id := t];
    assert !HashTaken(db.tokens, u) && !TokenRule(db.tokens, u);
    assert Step(fold, db, log[1]).1 == Ok(true) && !Keeps(fold, db, log[1]);
    assert log[1..][0] == log[1];
  }

  /** From the empty state: the other user's token is lost. */
  lemma ReuseLosesToken(fold: Fold, t: Token, u: Token, v: Token)
    requires Reuses(t, u) && v.userId == t.userId
    ensures RunMaps(fold, NO_MAPS, [TokenEntry(t), TokenEntry(u), TokenEntry(v)]).tokens == map[v.id := v]
  {
    hide PutToken, ReusedId;
    AfterReuse(t, u, v);
    hide StepMaps;
    TokenSteps(fold, ReusedId(t, u), v, "");
    ReuseReached(fold, t, u, [TokenEntry(v)]);
    RunCons(fold, ReusedId(t, u), TokenEntry(v), []);
    assert [TokenEntry(t), TokenEntry(u)] + [TokenEntry(v)] == [TokenEntry(t), TokenEntry(u), TokenEntry(v)];
    assert [TokenEntry(v)] + [] == [TokenEntry(v)];
  }

  /** From the empty state: the fourth entry dereferences a missing row. */
  lemma ReusePanics(fold: Fold, t: Token, u: Token, v: Token)
    requires Reuses(t, u) && v.userId == t.userId
    ensures Applied(fold, NO_MAPS, [TokenEntry(t), TokenEntry(u), DeleteEntry(u.userId), TokenEntry(v)]) == 3
  {
    var delete := DeleteEntry(u.userId);
    hide PutToken, DropTokenOf, ReusedId;
    var m := ReusedId(t, u);
    var d := DropTokenOf(m, u.userId);
    AfterReuse(t, u, v);
    hide StepMaps;
    TokenSteps(fold, m, v, u.userId);
    TokenSteps(fold, d, v, u.userId);
    ReuseReached(fold, t, u, [delete, TokenEntry(v)]);
    RunCons(fold, m, delete, [TokenEntry(v)]);
    assert [delete] + [TokenEntry(v)] == [delete, TokenEntry(v)];
    assert [TokenEntry(t), TokenEntry(u)] + [delete, TokenEntry(v)] == [TokenEntry(t), TokenEntry(u), delete, TokenEntry(v)];
  }

  /** A user stored with an empty name and then renamed: the log breaks the name rule. */
  lemma RenameBreaksRules(fold: Fold, u: User, name: string)
    requires u.username == "" && fold(name) != fold("")
    ensures !RunKeeps(fold, EMPTY, [UserEntry(u, true), UserEntry(u.(username := name), false)])
  {
    var log := [UserEntry(u, true), UserEntry(u.(username := name), false)];
    var db, v := Step(fold, EMPTY, log[0]).0, u.(username := name);
    assert Decode(log[0]) == DoUpsertUser(u, true) && Decode(log[1]) == DoUpsertUser(v, false);
    assert !UserTaken(fold, EMPTY.users, u);
    assert db.users == map[u.id := UserRow(EMPTY.users, u)];
    assert !UserTaken(fold, db.users, v) && !NameRule(fold, db.users, v);
    assert Step(fold, db, log[1]).1 == Ok(true) && !Keeps(fold, db, log[1]);
    assert log[1..][0] == log[1];
  }

  /** A left-over empty name turns away every other user who would take it, though nobody has it. */
  lemma LeftoverNameBlocks(fold: Fold, m: Maps, u: User)
    requires fold("") in m.usersByName && m.usersByName[fold("")] != u.id && fold(u.username) == fold("")
    ensures u.id !in m.users ==> PutUser(fold, m, u, true) == (m, Err(Conflict))
    ensures u.id in m.users ==> PutUser(fold, m, u, false) == (m, Err(Conflict))
  {
    hide OAuthKey, StoreUser, UserRow;
  }

  /** The renaming leaves the empty name behind, leading to a user who no longer has it. */
  lemma RenameLeavesName(fold: Fold, m: Maps, u: User)
    requires UsersOk(fold, m.users, m.usersByName, m.usersByOAuth) && PutUser(fold, m, u, false).1.Ok?
    requires !NameRule(fold, m.users, u)
    ensures var d := PutUser(fold, m, u, false).0;
      fold("") in d.usersByName && d.usersByName[fold("")] == u.id && forall id <- d.users :: fold(d.users[id].username) != fold("")
  {
    assert UserNames(fold, m.users)[u.id] == fold("");
    assert forall id <- m.users :: UserNames(fold, m.users)[id] == fold(m.users[id].username);
    hide OAuthKey, OAuthsAfterUpdate, Stamp;
  }
}
