/**
  Rows, command payloads and results of the replicated state machine.

  JSON is taken to be the identity, instants are integers with 0 as the zero
  time, and a payload of the wrong shape stands for a decode failure.
 */
module Domain {

  datatype Option<+T> = None | Some(value: T)

  type Time = int
  const ZERO_TIME: Time := 0

  datatype User = User(
    id: string,
    username: string,
    role: string,
    passwordHash: string,
    oauthProvider: string,
    oauthId: string,
    oauthTokenCiphertext: string,
    oauthGroupIds: seq<string>,
    oauthGroups: seq<string>,
    oauthAdmin: bool,
    deactivatedAt: Option<Time>,
    tokenVersion: int,
    createdAt: Time,
    updatedAt: Time)

  /** The wire form of a user; `create` selects insert-only or update-only. */
  datatype CmdUser = CmdUser(
    id: string,
    username: string,
    role: string,
    passwordHash: string,
    oauthProvider: string,
    oauthId: string,
    oauthTokenCiphertext: string,
    oauthGroupIds: seq<string>,
    oauthGroups: seq<string>,
    oauthAdmin: bool,
    deactivatedAt: Option<Time>,
    tokenVersion: int,
    createdAt: Time,
    updatedAt: Time,
    create: bool)
  {
    function ToDomain(): User {
      User(id, username, role, passwordHash, oauthProvider, oauthId, oauthTokenCiphertext,
           oauthGroupIds, oauthGroups, oauthAdmin, deactivatedAt, tokenVersion, createdAt, updatedAt)
    }
  }

  function CmdUserFrom(u: User): CmdUser {
    CmdUser(u.id, u.username, u.role, u.passwordHash, u.oauthProvider, u.oauthId, u.oauthTokenCiphertext,
            u.oauthGroupIds, u.oauthGroups, u.oauthAdmin, u.deactivatedAt, u.tokenVersion,
            u.createdAt, u.updatedAt, false)
  }

  datatype Group = Group(
    id: string,
    name: string,
    description: string,
    maxRunnerSessions: int,
    agentAvailable: bool,
    autoAssignPattern: string,
    createdAt: Time,
    updatedAt: Time)

  datatype Project = Project(id: string, name: string, groupId: string, createdAt: Time, updatedAt: Time)

  datatype Token = Token(
    id: string,
    userId: string,
    tokenHash: string,
    tokenCiphertext: string,
    prefix: string,
    createdAt: Time,
    lastUsedAt: Option<Time>)

  datatype TraceMeta = TraceMeta(
    traceId: string,
    userId: string,
    groupId: string,
    projectName: string,
    status: string,
    failureReason: string,
    version: string,
    ciProvider: string,
    ciRepo: string,
    durationMs: int,
    startedAt: Time,
    updatedAt: Time)

  datatype Payload =
    | UserPayload(user: CmdUser)
    | GroupPayload(group: Group, createGroup: bool)
    | ProjectPayload(project: Project, createProject: bool)
    | TokenPayload(token: Token)
    | MembersPayload(groupId: string, userIds: seq<string>)
    | OwnerPayload(userId: string)
    | TouchPayload(tokenId: string, at: Time)
    | ProvisionPayload(provTraceId: string, provUserId: string, provVersion: string, provAt: Time)
    | IngestPayload(row: TraceMeta)
    | FailPayload(failTraceId: string, reason: string, failAt: Time)
    | MetaPayload(key: string, val: string)
    | TracePayload(traceId: string)
    | IdPayload(id: string)
    | LeasePayload(certFp: string, leaseAt: Time)
    | Garbage

  /** One Raft log entry; `kind` is the persisted numeric command kind. */
  datatype Command = Command(kind: nat, payload: Payload)

  const KIND_UPSERT_USER := 1
  const KIND_DELETE_USER := 2
  const KIND_UPSERT_GROUP := 3
  const KIND_DELETE_GROUP := 4
  const KIND_SET_MEMBERS := 5
  const KIND_UPSERT_PROJECT := 6
  const KIND_DELETE_PROJECT := 7
  const KIND_UPSERT_TOKEN := 8
  const KIND_DELETE_TOKEN := 9
  const KIND_TOUCH_TOKEN := 10
  const KIND_TRACE_PROVISION := 11
  const KIND_TRACE_INGEST := 12
  const KIND_MARK_FAILED := 13
  const KIND_SET_META := 14
  const KIND_DELETE_TRACE := 22
  const KIND_UPSERT_SESSION := 23
  const KIND_TOUCH_SESSION := 24

  /** The retired registry-cache kinds, replayed as no-ops (slot 17 is unknown instead). */
  predicate ReservedKind(kind: nat) {
    kind == 15 || kind == 16 || 18 <= kind <= 21 || kind == 25
  }

  predicate SessionKind(kind: nat) {
    kind == KIND_UPSERT_SESSION || kind == KIND_TOUCH_SESSION
  }

  datatype Error = NotFound | Conflict | Undecodable | UnknownKind

  /**
    What a command ends in: `Ok(changed)` carries markTraceFailed's boolean, true
    elsewhere; `Panic` is the dereference of a missing row, which ends the process.
   */
  datatype Outcome = Ok(changed: bool) | Err(error: Error) | Panic

  /** What a read by secondary key ends in; a left-over entry gives `NilRow`, or `Crash` where the row is copied. */
  datatype Lookup<+T> = Found(row: T) | Missing | NilRow | Crash

  predicate Terminal(status: string) {
    status == "success" || status == "failed"
  }

  const OAUTH_SEPARATOR := "\0"

  function OAuthKey(provider: string, oauthId: string): string {
    provider + OAUTH_SEPARATOR + oauthId
  }
}
