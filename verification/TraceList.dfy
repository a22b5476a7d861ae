/**
  The scoped trace listing: filter, join display names, sort, clamp. The page is
  a function of the tables alone, and what a non-admin lists is compared with
  what the per-trace visibility rule allows.
 */
module TraceList {
  import opened Domain
  import opened Ordering
  import opened Tables
  import opened Text
  import opened Fsm

  const DEFAULT_LIMIT := 100
  const MAX_LIMIT := 500

  datatype Filter = Filter(
    groupIds: seq<string>,
    includeUnassigned: bool,
    unassignedOnly: bool,
    userId: string,
    ciRepo: string,
    username: string,
    limit: int)

  datatype Row = Row(meta: TraceMeta, groupName: string, username: string)

  function SortKey(m: TraceMeta): Time {
    if m.startedAt != ZERO_TIME then m.startedAt else m.updatedAt
  }

  /** Newest first, then by trace ID. */
  predicate RowLess(a: Row, b: Row) {
    SortKey(a.meta) > SortKey(b.meta) ||
    (SortKey(a.meta) == SortKey(b.meta) && StringLess(a.meta.traceId, b.meta.traceId))
  }

  function ClampLimit(n: int): (r: nat)
    ensures 1 <= r <= MAX_LIMIT
  {
    if n <= 0 then DEFAULT_LIMIT else if n > MAX_LIMIT then MAX_LIMIT else n
  }

  predicate ContainsFold(fold: Fold, s: string, sub: string) {
    sub == "" || Contains(fold(s), fold(sub))
  }

  /** The scope part of the filter. */
  predicate Matches(f: Filter, m: TraceMeta) {
    if f.unassignedOnly then m.groupId == ""
    else if |f.groupIds| > 0 then
      m.groupId in f.groupIds || (f.userId != "" && m.groupId == "" && m.userId == f.userId)
    else if !f.includeUnassigned && f.userId != "" then m.userId == f.userId
    else true
  }

  /** The row as displayed: names joined in, an unset status shown as running. */
  function Joined(users: map<string, User>, groups: map<string, Group>, m: TraceMeta): Row {
    Row(if m.status == "" || m.status == "unset" then m.(status := "running") else m,
        if m.groupId in groups then groups[m.groupId].name else "",
        if m.userId in users then users[m.userId].username else "")
  }

  predicate TextMatches(fold: Fold, f: Filter, r: Row) {
    && (f.ciRepo == "" || ContainsFold(fold, r.meta.ciRepo, f.ciRepo) || ContainsFold(fold, r.meta.projectName, f.ciRepo))
    && (f.username == "" || ContainsFold(fold, r.username, f.username))
  }

  ghost predicate Wanted(fold: Fold, db: Db, f: Filter, t: string) {
    t in db.traces && Matches(f, db.traces[t]) && TextMatches(fold, f, Joined(db.users, db.groups, db.traces[t]))
  }

  /** All wanted rows, in display order. */
  ghost predicate IsListing(fold: Fold, db: Db, f: Filter, all: seq<Row>) {
    && Sorted(RowLess, all)
    && (forall r <- all :: Wanted(fold, db, f, r.meta.traceId) && r == Joined(db.users, db.groups, db.traces[r.meta.traceId]))
    && (forall t <- db.traces :: Wanted(fold, db, f, t) ==> Joined(db.users, db.groups, db.traces[t]) in all)
  }

  ghost predicate TracesKeyed(traces: map<string, TraceMeta>) {
    forall t <- traces :: traces[t].traceId == t
  }

  lemma RowLessAsymmetric(s: seq<Row>)
    ensures Asymmetric(RowLess, s)
  {
    forall x, y | x in s && y in s && RowLess(x, y) ensures !RowLess(y, x) {
      StringLessTotal(x.meta.traceId, y.meta.traceId);
    }
  }

  lemma RowLessLinear(s: seq<Row>)
    requires forall x, y | x in s && y in s && x.meta.traceId == y.meta.traceId :: x == y
    ensures Linear(RowLess, s)
  {
    RowLessAsymmetric(s);
    forall x, y | x in s && y in s && x != y ensures RowLess(x, y) || RowLess(y, x) {
      StringLessTotal(x.meta.traceId, y.meta.traceId);
    }
    forall x, y, z | x in s && y in s && z in s && RowLess(x, y) && RowLess(y, z) ensures RowLess(x, z) {
      if SortKey(x.meta) == SortKey(y.meta) == SortKey(z.meta) {
        StringLessTransitive(x.meta.traceId, y.meta.traceId, z.meta.traceId);
      }
    }
  }

  /** The tables and the filter determine the listing: map iteration order cannot show. */
  lemma ListingUnique(fold: Fold, db: Db, f: Filter, a: seq<Row>, b: seq<Row>)
    requires TracesKeyed(db.traces) && IsListing(fold, db, f, a) && IsListing(fold, db, f, b)
    ensures a == b
  {
    RowLessAsymmetric(a);
    SortedUnique(RowLess, a, b);
  }

  // --- what a page is, in rows and numbers --------------------------------------------------

  /** The start, else the last update. */
  function Recency(m: TraceMeta): Time {
    if m.startedAt == 0 then m.updatedAt else m.startedAt
  }

  ghost function RequestedIds(fold: Fold, db: Db, f: Filter): set<string> {
    set t | t in db.traces && Requested(fold, db, f, t)
  }

  /** A limit that is not positive asks for 100 rows; nobody gets more than 500. */
  function RowsFor(limit: int, wanted: nat): nat {
    var asked := if limit <= 0 then 100 else if limit > 500 then 500 else limit;
    if wanted < asked then wanted else asked
  }

  /** The row of a stored trace with the names of its group and owner. */
  ghost predicate ShowsTrace(db: Db, r: Row) {
    var t := r.meta.traceId;
    && t in db.traces
    && r.meta == db.traces[t].(status := if db.traces[t].status in {"", "unset"} then "running" else db.traces[t].status)
    && r.groupName == (if r.meta.groupId in db.groups then db.groups[r.meta.groupId].name else "")
    && r.username == (if r.meta.userId in db.users then db.users[r.meta.userId].username else "")
  }

  /** Newest first, ties by trace ID. */
  ghost predicate NewestFirst(page: seq<Row>) {
    forall i, j | 0 <= i < j < |page| ::
      || Recency(page[i].meta) > Recency(page[j].meta)
      || (Recency(page[i].meta) == Recency(page[j].meta) && StringLess(page[i].meta.traceId, page[j].meta.traceId))
  }

  /** The text occurs in the value, letter case aside. */
  ghost predicate Mentions(fold: Fold, value: string, text: string) {
    exists before, after :: fold(value) == before + fold(text) + after
  }

  /** In the caller's terms: in scope, and mentioning the texts asked for. */
  ghost predicate Requested(fold: Fold, db: Db, f: Filter, t: string) {
    t in db.traces &&
    var m := db.traces[t];
    && (f.unassignedOnly ==> m.groupId == "")
    && (!f.unassignedOnly && f.groupIds != [] ==>
          m.groupId in f.groupIds || (m.groupId == "" && m.userId == f.userId && f.userId != ""))
    && (!f.unassignedOnly && f.groupIds == [] && !f.includeUnassigned && f.userId != "" ==> m.userId == f.userId)
    && (f.ciRepo != "" ==> Mentions(fold, m.ciRepo, f.ciRepo) || Mentions(fold, m.projectName, f.ciRepo))
    && (f.username != "" ==> Mentions(fold, if m.userId in db.users then db.users[m.userId].username else "", f.username))
  }

  lemma MentionsIff(fold: Fold, value: string, text: string)
    ensures Contains(fold(value), fold(text)) <==> Mentions(fold, value, text)
  {
    var v, x := fold(value), fold(text);
    if Contains(v, x) {
      var i: nat :| i <= |v| && OccursAt(v, x, i);
      assert v == v[..i] + x + v[i + |x|..];
    }
    if Mentions(fold, value, text) {
      var before, after :| v == before + x + after;
      assert OccursAt(v, x, |before|);
    }
  }

  lemma WantedMeaning(fold: Fold, db: Db, f: Filter, t: string)
    ensures Wanted(fold, db, f, t) <==> Requested(fold, db, f, t)
  {
    hide Contains, Mentions;
    if t in db.traces {
      var m := db.traces[t];
      var name := if m.userId in db.users then db.users[m.userId].username else "";
      MentionsIff(fold, m.ciRepo, f.ciRepo);
      MentionsIff(fold, m.projectName, f.ciRepo);
      MentionsIff(fold, name, f.username);
      assert Joined(db.users, db.groups, m).username == name;
    }
  }

  function IdsOf(all: seq<Row>): seq<string> {
    seq(|all|, i requires 0 <= i < |all| => all[i].meta.traceId)
  }

  lemma {:induction false} DistinctSize(s: seq<string>)
    requires Distinct(s)
    ensures |set x | x in s| == |s|
  {
    if s != [] {
      var rest, x := s[1..], s[0];
      DistinctSize(rest);
      assert x !in rest;
      assert (set y | y in s) == (set y | y in rest) + {x};
    }
  }

  lemma ListingIds(fold: Fold, db: Db, f: Filter, all: seq<Row>, t: string)
    requires TracesKeyed(db.traces) && IsListing(fold, db, f, all)
    ensures t in RequestedIds(fold, db, f) <==> t in IdsOf(all)
  {
    WantedMeaning(fold, db, f, t);
    hide Wanted, Requested, Sorted;
    if t in RequestedIds(fold, db, f) {
      var r := Joined(db.users, db.groups, db.traces[t]);
      assert r in all && r.meta.traceId == t;
      var i :| 0 <= i < |all| && all[i] == r;
      assert IdsOf(all)[i] == t;
    }
    if t in IdsOf(all) {
      var i :| 0 <= i < |all| && IdsOf(all)[i] == t;
      assert all[i] in all;
      InDomain(fold, db, f, t);
    }
  }

  lemma InDomain(fold: Fold, db: Db, f: Filter, t: string)
    requires Wanted(fold, db, f, t)
    ensures t in db.traces
  {
  }

  lemma IdsDistinct(fold: Fold, db: Db, f: Filter, all: seq<Row>)
    requires IsListing(fold, db, f, all)
    ensures Distinct(IdsOf(all))
  {
    hide Wanted;
    forall i, j | 0 <= i < j < |all| ensures all[i].meta.traceId != all[j].meta.traceId {
      assert all[i] in all && all[j] in all && RowLess(all[i], all[j]);
      StringLessTotal(all[i].meta.traceId, all[j].meta.traceId);
    }
  }

  lemma ListingSize(fold: Fold, db: Db, f: Filter, all: seq<Row>)
    requires TracesKeyed(db.traces) && IsListing(fold, db, f, all)
    ensures |all| == |RequestedIds(fold, db, f)|
  {
    hide IsListing, RequestedIds;
    IdsDistinct(fold, db, f, all);
    DistinctSize(IdsOf(all));
    forall t ensures t in RequestedIds(fold, db, f) <==> t in IdsOf(all) { ListingIds(fold, db, f, all, t); }
    assert (set x | x in IdsOf(all)) == RequestedIds(fold, db, f);
  }

  lemma PageMeaning(fold: Fold, db: Db, f: Filter, all: seq<Row>, page: seq<Row>)
    requires TracesKeyed(db.traces) && IsListing(fold, db, f, all)
    requires page == if |all| > ClampLimit(f.limit) then all[..ClampLimit(f.limit)] else all
    ensures NewestFirst(page) && |page| == RowsFor(f.limit, |RequestedIds(fold, db, f)|)
    ensures forall r <- page :: ShowsTrace(db, r) && r.meta.traceId in RequestedIds(fold, db, f)
    ensures forall r <- page, t <- RequestedIds(fold, db, f) :: t in IdsOf(page) || Recency(r.meta) >= Recency(db.traces[t])
  {
    hide Wanted, RequestedIds, Requested, IdsOf, Joined;
    ListingSize(fold, db, f, all);
    forall i, j | 0 <= i < j < |page| ensures RowLess(page[i], page[j]) { assert RowLess(all[i], all[j]); }
    forall r | r in page ensures ShowsTrace(db, r) && r.meta.traceId in RequestedIds(fold, db, f) {
      assert r in all;
      ListedShows(fold, db, f, all, r);
    }
    hide IsListing, RowLess, ShowsTrace, ClampLimit, Recency;
    assert page <= all;
    forall r, t | r in page && t in RequestedIds(fold, db, f)
      ensures t in db.traces && (t in IdsOf(page) || Recency(r.meta) >= Recency(db.traces[t]))
    {
      NothingNewerLeft(fold, db, f, all, page, r, t);
    }
  }

  lemma ListedShows(fold: Fold, db: Db, f: Filter, all: seq<Row>, r: Row)
    requires IsListing(fold, db, f, all) && r in all
    ensures ShowsTrace(db, r) && r.meta.traceId in RequestedIds(fold, db, f)
  {
    WantedMeaning(fold, db, f, r.meta.traceId);
    InDomain(fold, db, f, r.meta.traceId);
    hide Wanted, Requested;
  }

  /** A wanted trace that did not make it onto the page is no newer than any that did. */
  lemma NothingNewerLeft(fold: Fold, db: Db, f: Filter, all: seq<Row>, page: seq<Row>, r: Row, t: string)
    requires TracesKeyed(db.traces) && IsListing(fold, db, f, all) && page <= all
    requires r in page && t in RequestedIds(fold, db, f)
    ensures t in db.traces && (t in IdsOf(page) || Recency(r.meta) >= Recency(db.traces[t]))
  {
    WantedMeaning(fold, db, f, t);
    hide Wanted, Requested, Sorted;
    var row := Joined(db.users, db.groups, db.traces[t]);
    assert Recency(row.meta) == Recency(db.traces[t]) && row.meta.traceId == t;
    assert row in all;
    hide Joined;
    var i :| 0 <= i < |page| && page[i] == r;
    var j :| 0 <= j < |all| && all[j] == row;
    if j < |page| {
      assert IdsOf(page)[j] == t;
    } else {
      SortedAt(all, i, j);
    }
  }

  lemma SortedAt(all: seq<Row>, i: nat, j: nat)
    requires Sorted(RowLess, all) && i < j < |all|
    ensures Recency(all[i].meta) >= Recency(all[j].meta)
  {
    assert RowLess(all[i], all[j]);
  }

  method ListTraces(s: FsmState, f: Filter) returns (page: seq<Row>)
    requires TracesKeyed(s.traces)
    ensures |page| <= MAX_LIMIT
    ensures exists all :: IsListing(s.fold, s.Database(), f, all)
    ensures forall all | IsListing(s.fold, s.Database(), f, all) ::
      page == if |all| > ClampLimit(f.limit) then all[..ClampLimit(f.limit)] else all
    ensures NewestFirst(page) && |page| == RowsFor(f.limit, |RequestedIds(s.fold, s.Database(), f)|)
    ensures forall r <- page :: ShowsTrace(s.Database(), r) && r.meta.traceId in RequestedIds(s.fold, s.Database(), f)
    ensures forall r <- page, t <- RequestedIds(s.fold, s.Database(), f) ::
      t in IdsOf(page) || Recency(r.meta) >= Recency(s.traces[t])
  {
    var out: seq<Row> := [];
    ghost var db := s.Database();
    var todo := s.traces.Keys;
    while todo != {}
      invariant todo <= s.traces.Keys && Distinct(out)
      invariant forall r <- out :: r.meta.traceId !in todo && Wanted(s.fold, db, f, r.meta.traceId)
                                   && r == Joined(s.users, s.groups, s.traces[r.meta.traceId])
      invariant forall t | t in s.traces && t !in todo ::
        Wanted(s.fold, db, f, t) ==> Joined(s.users, s.groups, s.traces[t]) in out
    {
      var t :| t in todo;
      todo := todo - {t};
      var m := s.traces[t];
      if Matches(f, m) {
        var r := Joined(s.users, s.groups, m);
        if TextMatches(s.fold, f, r) {
          out := out + [r];
        }
      }
    }
    RowLessLinear(out);
    SortCorrect(RowLess, out);
    var all := Sort(RowLess, out);
    assert IsListing(s.fold, db, f, all);
    var limit := ClampLimit(f.limit);
    page := if |all| > limit then all[..limit] else all;
    PageMeaning(s.fold, db, f, all, page);
    forall other | IsListing(s.fold, db, f, other) ensures other == all {
      ListingUnique(s.fold, db, f, other, all);
    }
  }

  // --- visibility --------------------------------------------------------------------

  datatype Identity = Identity(userId: string, admin: bool, groupIds: seq<string>)

  const UNASSIGNED := "unassigned"

  method BuildFilter(id: Identity, groupArgs: seq<string>, ciRepo: string, username: string, limit: int)
    returns (f: Filter)
    ensures f.ciRepo == ciRepo && f.username == username && f.limit == limit
    ensures !id.admin ==> f == ScopeOf(id).(ciRepo := ciRepo, username := username, limit := limit)
    ensures id.admin ==> forall m: TraceMeta :: m.groupId != UNASSIGNED ==> (Matches(f, m) <==>
      if UNASSIGNED in groupArgs then m.groupId == "" else groupArgs == [] || m.groupId in groupArgs)
  {
    f := Filter([], false, false, "", ciRepo, username, limit);
    if id.admin {
      f := f.(includeUnassigned := true);
      for i := 0 to |groupArgs|
        invariant f.ciRepo == ciRepo && f.username == username && f.limit == limit
        invariant f.includeUnassigned && f.userId == ""
        invariant f.unassignedOnly <==> UNASSIGNED in groupArgs[..i]
        invariant forall g :: g in f.groupIds <==> g in groupArgs[..i] && g != UNASSIGNED
      {
        if groupArgs[i] == UNASSIGNED {
          f := f.(unassignedOnly := true);
        } else {
          f := f.(groupIds := f.groupIds + [groupArgs[i]]);
        }
      }
      assert groupArgs[..|groupArgs|] == groupArgs;
      assert |groupArgs| > 0 ==> groupArgs[0] in groupArgs;
      assert |f.groupIds| > 0 ==> f.groupIds[0] in f.groupIds;
    } else {
      f := f.(groupIds := id.groupIds, userId := id.userId);
    }
  }

  /** The scope a non-admin's list query carries. */
  function ScopeOf(id: Identity): Filter {
    Filter(id.groupIds, false, false, id.userId, "", "", 0)
  }

  /** The per-trace rule: admin, owner, or member of the trace's group. */
  predicate Visible(id: Identity, m: TraceMeta) {
    || id.admin
    || (m.userId != "" && m.userId == id.userId)
    || (m.groupId != "" && m.groupId in id.groupIds)
  }

  /** Loads the row; an unknown trace is for admins only. */
  predicate Authorized(id: Identity, db: Db, traceId: string) {
    if traceId in db.traces then Visible(id, db.traces[traceId]) else id.admin
  }

  /** Neither an empty group ID nor an identity with no scope at all. */
  predicate ScopeRule(id: Identity) {
    "" !in id.groupIds && (id.groupIds != [] || id.userId != "")
  }

  const BLANK := TraceMeta("t", "", "", "", "", "", "", "", "", 0, 0, 0)

  /** Listing shows a non-admin only what the per-trace rule allows, exactly under ScopeRule. */
  lemma ListWithinVisible(id: Identity)
    requires !id.admin
    ensures (forall m: TraceMeta :: Matches(ScopeOf(id), m) ==> Visible(id, m)) <==> ScopeRule(id)
  {
    if !ScopeRule(id) {
      assert Matches(ScopeOf(id), BLANK) && !Visible(id, BLANK);
    }
  }

  /** What the rule allows and the list still omits: own traces filed under a foreign group. */
  lemma VisibleBeyondList(id: Identity, m: TraceMeta)
    requires !id.admin && ScopeRule(id)
    ensures Visible(id, m) && !Matches(ScopeOf(id), m) <==>
      id.groupIds != [] && m.userId == id.userId != "" && m.groupId != "" && m.groupId !in id.groupIds
  {
  }

  /** In every state and for every filter text and limit, a listed trace is an authorized one. */
  lemma ListedIsAuthorized(fold: Fold, db: Db, id: Identity, f: Filter, all: seq<Row>, r: Row)
    requires !id.admin && ScopeRule(id)
    requires f.(ciRepo := "", username := "", limit := 0) == ScopeOf(id)
    requires IsListing(fold, db, f, all) && r in all
    ensures Authorized(id, db, r.meta.traceId)
  {
  }
}
