/**
  The closed form of a trace row after any command history in which the trace is
  not deleted: for the status a terminal ingest beats a disconnect failure, which
  beats every in-flight status; for the other fields the last or the first value
  offered wins. A history counts up to the first entry that panics, if any.
 */
module TraceMerge {
  import opened Domain
  import opened Inverses
  import opened Tables
  import opened Coherence
  import opened Indexed

  datatype View = Absent | Present(status: string, reason: string)

  function ViewOf(m: Maps, x: string): View {
    if x in m.traces then Present(m.traces[x].status, m.traces[x].failureReason) else Absent
  }

  // --- what an entry of the log does to trace x --------------------------------------

  predicate Ingests(c: Command, x: string) {
    Decode(c).DoIngest? && Decode(c).row.traceId == x
  }

  predicate Creates(c: Command, x: string) {
    Ingests(c, x) || (Decode(c).DoProvision? && Decode(c).id == x)
  }

  predicate Finishes(c: Command, x: string) {
    Ingests(c, x) && Terminal(Decode(c).row.status)
  }

  predicate Reports(c: Command, x: string) {
    Ingests(c, x) && Decode(c).row.status != ""
  }

  predicate Fails(c: Command, x: string) {
    Decode(c).DoMarkFailed? && Decode(c).id == x
  }

  predicate Deletes(c: Command, x: string) {
    Decode(c) == DoDeleteTrace(x)
  }

  // --- positions in the log; -1 stands for none ---------------------------------------

  function FirstCreate(log: seq<Command>, x: string): (i: int)
    ensures -1 <= i < |log|
    ensures i == -1 ==> forall k | 0 <= k < |log| :: !Creates(log[k], x)
    ensures i >= 0 ==> Creates(log[i], x) && forall k | 0 <= k < i :: !Creates(log[k], x)
  {
    if log == [] then -1
    else
      var last := |log| - 1;
      var i := FirstCreate(log[..last], x);
      if i >= 0 then i else if Creates(log[last], x) then last else -1
  }

  function LastFinish(log: seq<Command>, x: string): (i: int)
    ensures -1 <= i < |log|
    ensures i == -1 ==> forall k | 0 <= k < |log| :: !Finishes(log[k], x)
    ensures i >= 0 ==> Finishes(log[i], x) && forall k | i < k < |log| :: !Finishes(log[k], x)
  {
    if log == [] then -1
    else if Finishes(log[|log| - 1], x) then |log| - 1
    else LastFinish(log[..|log| - 1], x)
  }

  function LastReport(log: seq<Command>, x: string): (i: int)
    ensures -1 <= i < |log|
    ensures i == -1 ==> forall k | 0 <= k < |log| :: !Reports(log[k], x)
    ensures i >= 0 ==> Reports(log[i], x) && forall k | i < k < |log| :: !Reports(log[k], x)
  {
    if log == [] then -1
    else if Reports(log[|log| - 1], x) then |log| - 1
    else LastReport(log[..|log| - 1], x)
  }

  /** A failure mark that finds the row in place. */
  predicate Lands(log: seq<Command>, k: nat, x: string)
    requires k < |log|
  {
    Fails(log[k], x) && FirstCreate(log[..k], x) >= 0
  }

  function FirstFail(log: seq<Command>, x: string): (i: int)
    ensures -1 <= i < |log|
    ensures i == -1 ==> forall k: nat | k < |log| :: !Lands(log, k, x)
    ensures i >= 0 ==> Lands(log, i, x) && forall k: nat | k < i :: !Lands(log, k, x)
  {
    if log == [] then -1
    else
      var last := |log| - 1;
      var i := FirstFail(log[..last], x);
      assert forall k: nat | k < last :: Lands(log, k, x) == Lands(log[..last], k, x) by {
        forall k: nat | k < last ensures Lands(log, k, x) == Lands(log[..last], k, x) {
          assert log[..last][..k] == log[..k];
        }
      }
      if i >= 0 then i else if Lands(log, last, x) then last else -1
  }

  function ClosedForm(log: seq<Command>, x: string): View {
    var create, finish, fail, report := FirstCreate(log, x), LastFinish(log, x), FirstFail(log, x), LastReport(log, x);
    if create < 0 then Absent
    else if finish >= 0 then
      Present(Decode(log[finish]).row.status, if finish == create then Decode(log[finish]).row.failureReason else "")
    else if fail >= 0 then Present("failed", Decode(log[fail]).reason)
    else
      Present(if report >= 0 then Decode(log[report]).row.status else "",
              if Ingests(log[create], x) then Decode(log[create]).row.failureReason else "")
  }

  // --- the closed form is what the merge rules compute -----------------------------------

  function ViewStep(v: View, c: Command, x: string): View {
    if Ingests(c, x) then
      var m := Decode(c).row;
      if v.Absent? then Present(m.status, m.failureReason)
      else if Terminal(m.status) then Present(m.status, "")
      else if m.status != "" && !Terminal(v.status) then Present(m.status, v.reason)
      else v
    else if Creates(c, x) then (if v.Absent? then Present("", "") else v)
    else if Fails(c, x) then
      (if v.Absent? || Terminal(v.status) then v else Present("failed", Decode(c).reason))
    else v
  }

  /** What an entry does to the row of x; `lands` says whether a deletion finds its user or group. */
  function RowStep(row: Option<TraceMeta>, a: Action, x: string, lands: bool): Option<TraceMeta> {
    match a
    case DoProvision(id, userId, version, at) =>
      if id == x then Some(ProvisionRow(row, id, userId, version, at)) else row
    case DoIngest(m) => if m.traceId == x then Some(IngestRow(row, m)) else row
    case DoMarkFailed(id, reason, at) =>
      if id == x && row.Some? then Some(FailRow(row.value, reason, at)) else row
    case DoDeleteUser(id) =>
      if lands && row.Some? && row.value.userId == id then Some(row.value.(userId := "")) else row
    case DoDeleteGroup(id) =>
      if lands && row.Some? && row.value.groupId == id then Some(row.value.(groupId := "")) else row
    case DoDeleteTrace(id) => if id == x then None else row
    case _ => row
  }

  predicate Lives(m: Maps, a: Action) {
    (a.DoDeleteUser? && a.id in m.users) || (a.DoDeleteGroup? && a.id in m.groups)
  }

  lemma MarkTraceTable(m: Maps, id: string, reason: string, at: Time)
    ensures MarkTrace(m, id, reason, at).0.traces ==
      if id in m.traces then m.traces[id := FailRow(m.traces[id], reason, at)] else m.traces
  {
    hide FailRow, Terminal;
  }

  lemma TraceRowStep(m: Maps, a: Action, x: string)
    requires TraceAction(a)
    ensures RowOf(EnactTrace(m, a).0.traces, x) == RowStep(RowOf(m.traces, x), a, x, Lives(m, a))
  {
    hide ProvisionRow, IngestRow, FailRow, Terminal;
    if a.DoMarkFailed? { MarkTraceTable(m, a.id, a.reason, a.at); }
    hide MarkTrace;
    var t := EnactTrace(m, a).0.traces;
    match a
    case DoProvision(id, userId, version, at) =>
      assert t == m.traces[id := ProvisionRow(RowOf(m.traces, id), id, userId, version, at)];
    case DoIngest(row) => assert t == m.traces[row.traceId := IngestRow(RowOf(m.traces, row.traceId), row)];
    case DoDeleteTrace(id) => assert t == m.traces - {id};
    case _ =>
  }

  lemma RowCommutes(fold: Fold, m: Maps, c: Command, x: string)
    ensures RowOf(StepMaps(fold, m, c).0.traces, x) == RowStep(RowOf(m.traces, x), Decode(c), x, Lives(m, Decode(c)))
  {
    TracesAfter(fold, m, Decode(c));
    if TraceAction(Decode(c)) { TraceRowStep(m, Decode(c), x); }
    hide Enact, EnactTrace, Decode, ProvisionRow, IngestRow, FailRow;
  }

  /** No other command, failing or not, touches a trace's status or failure reason. */
  lemma ViewCommutes(fold: Fold, m: Maps, c: Command, x: string)
    requires !Deletes(c, x)
    ensures ViewOf(StepMaps(fold, m, c).0, x) == ViewStep(ViewOf(m, x), c, x)
  {
    hide StepMaps, Decode;
    RowCommutes(fold, m, c, x);
  }

  /** How each position moves when one more entry is appended. */
  lemma PositionsSnoc(log: seq<Command>, c: Command, x: string)
    ensures var more, n := log + [c], |log|;
      && FirstCreate(more, x) ==
         (if FirstCreate(log, x) >= 0 then FirstCreate(log, x) else if Creates(c, x) then n else -1)
      && LastFinish(more, x) == (if Finishes(c, x) then n else LastFinish(log, x))
      && LastReport(more, x) == (if Reports(c, x) then n else LastReport(log, x))
      && FirstFail(more, x) ==
         (if FirstFail(log, x) >= 0 then FirstFail(log, x) else if Fails(c, x) && FirstCreate(log, x) >= 0 then n else -1)
  {
    hide Decode;
    assert (log + [c])[..|log|] == log;
  }

  lemma ClosedFormSnoc(log: seq<Command>, c: Command, x: string)
    ensures ClosedForm(log + [c], x) == ViewStep(ClosedForm(log, x), c, x)
  {
    hide Decode, FirstCreate, LastFinish, LastReport, FirstFail;
    PositionsSnoc(log, c, x);
  }

  lemma {:induction false} FullClosedForm(fold: Fold, m: Maps, log: seq<Command>, x: string)
    requires x !in m.traces && (forall c <- log :: !Deletes(c, x)) && Applied(fold, m, log) == |log|
    ensures ViewOf(RunMaps(fold, m, log), x) == ClosedForm(log, x)
    decreases |log|
  {
    hide StepMaps, ClosedForm, Deletes, Applied;
    if log == [] {
      EmptyForm(x);
    } else {
      var front, c := log[..|log| - 1], log[|log| - 1];
      assert log == front + [c];
      RunMapsSnoc(fold, m, front, c);
      FullClosedForm(fold, m, front, x);
      ViewCommutes(fold, RunMaps(fold, m, front), c, x);
      ClosedFormSnoc(front, c, x);
    }
  }

  lemma EmptyForm(x: string)
    ensures ClosedForm([], x) == Absent
  {
  }

  /** The main result: for every history without a deletion of x. */
  lemma TraceClosedForm(fold: Fold, m: Maps, log: seq<Command>, x: string)
    requires x !in m.traces && forall c <- log :: !Deletes(c, x)
    ensures ViewOf(RunMaps(fold, m, log), x) == ClosedForm(log[..Applied(fold, m, log)], x)
  {
    hide StepMaps, ClosedForm, Deletes;
    RunApplied(fold, m, log);
    FullClosedForm(fold, m, log[..Applied(fold, m, log)], x);
  }

  lemma StickyStep(fold: Fold, m: Maps, c: Command, x: string)
    requires x in m.traces && Terminal(m.traces[x].status) && !Deletes(c, x)
    ensures var d := StepMaps(fold, m, c).0;
      x in d.traces && Terminal(d.traces[x].status) && (!Finishes(c, x) ==> ViewOf(d, x) == ViewOf(m, x))
  {
    hide StepMaps, Decode;
    ViewCommutes(fold, m, c, x);
    assert ViewOf(StepMaps(fold, m, c).0, x).Present?;
  }

  /** A finished trace never goes back: only another terminal ingest can change its status. */
  lemma {:induction false} TerminalIsSticky(fold: Fold, m: Maps, log: seq<Command>, x: string)
    requires x in m.traces && Terminal(m.traces[x].status) && forall c <- log :: !Deletes(c, x)
    ensures var d := RunMaps(fold, m, log);
      && x in d.traces && Terminal(d.traces[x].status)
      && ((forall c <- log :: !Finishes(c, x)) ==> ViewOf(d, x) == ViewOf(m, x))
    decreases |log|
  {
    hide StepMaps, Decode;
    if log != [] {
      var c, d := log[0], StepMaps(fold, m, log[0]).0;
      assert c in log && forall k <- log[1..] :: k in log;
      StickyStep(fold, m, c, x);
      hide Deletes, Finishes, Terminal;
      TerminalIsSticky(fold, d, log[1..], x);
    }
  }

  // --- fields where the last non-empty value wins -------------------------------------------

  datatype Field = VersionField | ProjectField | ProviderField | RepoField

  function FieldOf(m: TraceMeta, f: Field): string {
    match f
    case VersionField => m.version
    case ProjectField => m.projectName
    case ProviderField => m.ciProvider
    case RepoField => m.ciRepo
  }

  /** The value an entry offers for a field of trace x; "" when it offers none. */
  function Offered(c: Command, x: string, f: Field): string {
    if Ingests(c, x) then FieldOf(Decode(c).row, f)
    else if Creates(c, x) && f.VersionField? then Decode(c).version
    else ""
  }

  function FieldView(m: Maps, x: string, f: Field): string {
    if x in m.traces then FieldOf(m.traces[x], f) else ""
  }

  lemma FieldStep(fold: Fold, m: Maps, c: Command, x: string, f: Field)
    requires !Deletes(c, x)
    ensures FieldView(StepMaps(fold, m, c).0, x, f) ==
            if Offered(c, x, f) != "" then Offered(c, x, f) else FieldView(m, x, f)
  {
    hide StepMaps, Decode, IngestStatus, Stamp;
    RowCommutes(fold, m, c, x);
  }

  function LastOffer(log: seq<Command>, x: string, f: Field): string {
    if log == [] then ""
    else if Offered(log[|log| - 1], x, f) != "" then Offered(log[|log| - 1], x, f)
    else LastOffer(log[..|log| - 1], x, f)
  }

  /** It is the last non-empty value offered, or "" when there is none. */
  lemma {:induction false} LastOfferIsLast(log: seq<Command>, x: string, f: Field)
    ensures LastOffer(log, x, f) == "" ==> forall k | 0 <= k < |log| :: Offered(log[k], x, f) == ""
    ensures LastOffer(log, x, f) != "" ==>
      exists k :: 0 <= k < |log| && Offered(log[k], x, f) == LastOffer(log, x, f)
                  && forall j | k < j < |log| :: Offered(log[j], x, f) == ""
  {
    hide Offered;
    if log != [] { LastOfferIsLast(log[..|log| - 1], x, f); }
  }

  lemma {:induction false} FullLastOffer(fold: Fold, m: Maps, log: seq<Command>, x: string, f: Field)
    requires x !in m.traces && (forall c <- log :: !Deletes(c, x)) && Applied(fold, m, log) == |log|
    ensures FieldView(RunMaps(fold, m, log), x, f) == LastOffer(log, x, f)
    decreases |log|
  {
    hide StepMaps, Offered, Deletes, Applied;
    if log != [] {
      var front, c := log[..|log| - 1], log[|log| - 1];
      assert log == front + [c];
      RunMapsSnoc(fold, m, front, c);
      FullLastOffer(fold, m, front, x, f);
      FieldStep(fold, RunMaps(fold, m, front), c, x, f);
    }
  }

  /** Version, project, CI provider and CI repository: the last non-empty value offered, if any. */
  lemma LastOfferWins(fold: Fold, m: Maps, log: seq<Command>, x: string, f: Field)
    requires x !in m.traces && forall c <- log :: !Deletes(c, x)
    ensures FieldView(RunMaps(fold, m, log), x, f) == LastOffer(log[..Applied(fold, m, log)], x, f)
  {
    hide StepMaps, LastOffer, Deletes;
    RunApplied(fold, m, log);
    FullLastOffer(fold, m, log[..Applied(fold, m, log)], x, f);
  }

  // --- numbers and instants -------------------------------------------------------------------

  datatype Gauge = DurationGauge | StartGauge

  function GaugeOf(m: TraceMeta, g: Gauge): int {
    if g.DurationGauge? then m.durationMs else m.startedAt
  }

  /** The value an ingest of trace x reports; 0 when it reports none. */
  function Reading(c: Command, x: string, g: Gauge): int {
    if Ingests(c, x) then GaugeOf(Decode(c).row, g) else 0
  }

  function GaugeView(m: Maps, x: string, g: Gauge): int {
    if x in m.traces then GaugeOf(m.traces[x], g) else 0
  }

  lemma GaugeStep(fold: Fold, m: Maps, c: Command, x: string, g: Gauge)
    requires !Deletes(c, x)
    ensures GaugeView(StepMaps(fold, m, c).0, x, g) == if Reading(c, x, g) != 0 then Reading(c, x, g) else GaugeView(m, x, g)
  {
    hide StepMaps, Decode, IngestStatus, First, Latest;
    RowCommutes(fold, m, c, x);
  }

  /** The last entry that reports a value; -1 stands for none. */
  function LastReading(log: seq<Command>, x: string, g: Gauge): (i: int)
    ensures -1 <= i < |log|
    ensures i == -1 ==> forall k | 0 <= k < |log| :: Reading(log[k], x, g) == 0
    ensures i >= 0 ==> Reading(log[i], x, g) != 0 && forall k | i < k < |log| :: Reading(log[k], x, g) == 0
  {
    if log == [] then -1
    else if Reading(log[|log| - 1], x, g) != 0 then |log| - 1
    else LastReading(log[..|log| - 1], x, g)
  }

  function LastValue(log: seq<Command>, x: string, g: Gauge): int {
    var i := LastReading(log, x, g);
    if i < 0 then 0 else Reading(log[i], x, g)
  }

  lemma LastValueSnoc(log: seq<Command>, c: Command, x: string, g: Gauge)
    ensures LastValue(log + [c], x, g) == if Reading(c, x, g) != 0 then Reading(c, x, g) else LastValue(log, x, g)
  {
    hide Reading;
    assert (log + [c])[..|log|] == log;
  }

  lemma {:induction false} FullLastValue(fold: Fold, m: Maps, log: seq<Command>, x: string, g: Gauge)
    requires x !in m.traces && (forall c <- log :: !Deletes(c, x)) && Applied(fold, m, log) == |log|
    ensures GaugeView(RunMaps(fold, m, log), x, g) == LastValue(log, x, g)
    decreases |log|
  {
    hide StepMaps, Reading, Deletes, Applied;
    if log != [] {
      var front, c := log[..|log| - 1], log[|log| - 1];
      assert log == front + [c];
      RunMapsSnoc(fold, m, front, c);
      FullLastValue(fold, m, front, x, g);
      GaugeStep(fold, RunMaps(fold, m, front), c, x, g);
      LastValueSnoc(front, c, x, g);
    }
  }

  /** Duration and start: the last non-zero value an ingest reported, else zero. */
  lemma LastReadingWins(fold: Fold, m: Maps, log: seq<Command>, x: string, g: Gauge)
    requires x !in m.traces && forall c <- log :: !Deletes(c, x)
    ensures GaugeView(RunMaps(fold, m, log), x, g) == LastValue(log[..Applied(fold, m, log)], x, g)
  {
    hide StepMaps, LastValue, Deletes;
    RunApplied(fold, m, log);
    FullLastValue(fold, m, log[..Applied(fold, m, log)], x, g);
  }

  /** An ingest, a provision, or a failure mark on a row that is there and has not ended. */
  predicate Touches(log: seq<Command>, k: nat, x: string)
    requires k < |log|
  {
    || Creates(log[k], x)
    || (Fails(log[k], x) && var v := ClosedForm(log[..k], x); v.Present? && !Terminal(v.status))
  }

  /** The update time an entry carries. */
  function TimeOf(c: Command): Time {
    match Decode(c)
    case DoIngest(row) => row.updatedAt
    case DoProvision(_, _, _, at) => at
    case DoMarkFailed(_, _, at) => at
    case _ => ZERO_TIME
  }

  function LastTouch(log: seq<Command>, x: string): (i: int)
    ensures -1 <= i < |log|
    ensures i == -1 ==> forall k: nat | k < |log| :: !Touches(log, k, x)
    ensures i >= 0 ==> Touches(log, i, x) && forall k: nat | i < k < |log| :: !Touches(log, k, x)
  {
    if log == [] then -1
    else
      var last := |log| - 1;
      assert forall k: nat | k < last :: Touches(log, k, x) == Touches(log[..last], k, x) by {
        forall k: nat | k < last ensures Touches(log, k, x) == Touches(log[..last], k, x) {
          assert log[..last][..k] == log[..k];
        }
      }
      if Touches(log, last, x) then last else LastTouch(log[..last], x)
  }

  function TouchedAt(log: seq<Command>, x: string): Time {
    var i := LastTouch(log, x);
    if i < 0 then ZERO_TIME else TimeOf(log[i])
  }

  function UpdatedView(m: Maps, x: string): Time {
    if x in m.traces then m.traces[x].updatedAt else ZERO_TIME
  }

  lemma UpdatedStep(fold: Fold, m: Maps, c: Command, x: string)
    requires !Deletes(c, x)
    ensures UpdatedView(StepMaps(fold, m, c).0, x) ==
      var v := ViewOf(m, x);
      if Creates(c, x) || (Fails(c, x) && v.Present? && !Terminal(v.status)) then TimeOf(c) else UpdatedView(m, x)
  {
    hide StepMaps, Decode, IngestStatus, First, Latest, Stamp;
    RowCommutes(fold, m, c, x);
  }

  lemma TouchedSnoc(log: seq<Command>, c: Command, x: string)
    ensures TouchedAt(log + [c], x) ==
      var v := ClosedForm(log, x);
      if Creates(c, x) || (Fails(c, x) && v.Present? && !Terminal(v.status)) then TimeOf(c) else TouchedAt(log, x)
  {
    hide Creates, Fails, ClosedForm, TimeOf;
    assert (log + [c])[..|log|] == log;
  }

  lemma {:induction false} FullTouchedAt(fold: Fold, m: Maps, log: seq<Command>, x: string)
    requires x !in m.traces && (forall c <- log :: !Deletes(c, x)) && Applied(fold, m, log) == |log|
    ensures UpdatedView(RunMaps(fold, m, log), x) == TouchedAt(log, x)
    decreases |log|
  {
    hide StepMaps, ClosedForm, Creates, Fails, TimeOf, Deletes, Applied, TouchedAt;
    if log == [] {
      Untouched(x);
    } else {
      var front, c := log[..|log| - 1], log[|log| - 1];
      assert log == front + [c];
      RunMapsSnoc(fold, m, front, c);
      FullTouchedAt(fold, m, front, x);
      FullClosedForm(fold, m, front, x);
      UpdatedStep(fold, RunMaps(fold, m, front), c, x);
      TouchedSnoc(front, c, x);
    }
  }

  lemma Untouched(x: string)
    ensures TouchedAt([], x) == ZERO_TIME
  {
  }

  /** The update time: that of the last ingest, provision or effective failure mark. */
  lemma LastTouchWins(fold: Fold, m: Maps, log: seq<Command>, x: string)
    requires x !in m.traces && forall c <- log :: !Deletes(c, x)
    ensures UpdatedView(RunMaps(fold, m, log), x) == TouchedAt(log[..Applied(fold, m, log)], x)
  {
    hide StepMaps, TouchedAt, Deletes;
    RunApplied(fold, m, log);
    FullTouchedAt(fold, m, log[..Applied(fold, m, log)], x);
  }

  // --- owner and group: the first value wins until what it names is deleted -------------------

  datatype Attribution = Owner | Team

  function NameOf(row: TraceMeta, w: Attribution): string {
    if w.Owner? then row.userId else row.groupId
  }

  function NameIn(m: Maps, x: string, w: Attribution): string {
    if x in m.traces then NameOf(m.traces[x], w) else ""
  }

  /** The value an entry offers; an ingest names the owner only when it creates the row. */
  function Names(c: Command, x: string, w: Attribution, present: bool): string {
    if Ingests(c, x) then (if w.Owner? && present then "" else NameOf(Decode(c).row, w))
    else if Creates(c, x) && w.Owner? then Decode(c).userId
    else ""
  }

  /** A successful deletion of the named user or group. */
  predicate Unnames(m: Maps, c: Command, w: Attribution, name: string) {
    if w.Owner? then Decode(c) == DoDeleteUser(name) && name in m.users
    else Decode(c) == DoDeleteGroup(name) && name in m.groups
  }

  lemma NameStep(fold: Fold, m: Maps, c: Command, x: string, w: Attribution)
    requires !Deletes(c, x)
    ensures NameIn(StepMaps(fold, m, c).0, x, w) ==
      var was := NameIn(m, x, w);
      if was == "" then Names(c, x, w, x in m.traces) else if Unnames(m, c, w, was) then "" else was
  {
    hide StepMaps, Decode, IngestStatus, Stamp, Latest;
    RowCommutes(fold, m, c, x);
  }

  predicate Created(log: seq<Command>, x: string) {
    FirstCreate(log, x) >= 0
  }

  function NameAt(log: seq<Command>, k: nat, x: string, w: Attribution): string
    requires k < |log|
  {
    Names(log[k], x, w, Created(log[..k], x))
  }

  ghost predicate UnnamedAt(fold: Fold, m: Maps, log: seq<Command>, k: nat, w: Attribution, name: string)
    requires k < |log|
  {
    Unnames(RunMaps(fold, m, log[..k]), log[k], w, name)
  }

  /** The entry whose value stands; -1 stands for none. */
  ghost function Holder(fold: Fold, m: Maps, log: seq<Command>, x: string, w: Attribution): (h: int)
    ensures -1 <= h < |log|
  {
    if log == [] then -1
    else
      var last := |log| - 1;
      var h := Holder(fold, m, log[..last], x, w);
      if h < 0 then (if NameAt(log, last, x, w) != "" then last else -1)
      else if UnnamedAt(fold, m, log, last, w, NameAt(log, h, x, w)) then -1
      else h
  }

  ghost function HeldName(fold: Fold, m: Maps, log: seq<Command>, x: string, w: Attribution): string {
    var h := Holder(fold, m, log, x, w);
    if h < 0 then "" else NameAt(log, h, x, w)
  }

  lemma NameAtFront(log: seq<Command>, k: nat, x: string, w: Attribution)
    requires k < |log| - 1
    ensures NameAt(log[..|log| - 1], k, x, w) == NameAt(log, k, x, w)
  {
    assert log[..|log| - 1][..k] == log[..k];
  }

  lemma UnnamedFront(fold: Fold, m: Maps, log: seq<Command>, k: nat, w: Attribution, name: string)
    requires k < |log| - 1
    ensures UnnamedAt(fold, m, log[..|log| - 1], k, w, name) == UnnamedAt(fold, m, log, k, w, name)
  {
    assert log[..|log| - 1][..k] == log[..k];
  }

  lemma DeletionNamesNothing(fold: Fold, m: Maps, log: seq<Command>, k: nat, x: string, w: Attribution, name: string)
    requires k < |log|
    ensures UnnamedAt(fold, m, log, k, w, name) ==> NameAt(log, k, x, w) == ""
  {
    hide Decode, FirstCreate;
  }

  /** Something was deleted by an entry after j and before `end`. */
  ghost predicate Cleared(fold: Fold, m: Maps, log: seq<Command>, j: int, end: int, w: Attribution) {
    exists i: nat, name :: j < i < end && i < |log| && UnnamedAt(fold, m, log, i, w, name)
  }

  /**
    What stands was offered and not deleted since, and every value offered before
    it came before a deletion; nothing stands only if every value offered did.
   */
  lemma {:induction false} HolderMeaning(fold: Fold, m: Maps, log: seq<Command>, x: string, w: Attribution)
    ensures var h := Holder(fold, m, log, x, w);
      && (h >= 0 ==> NameAt(log, h, x, w) != "")
      && (h >= 0 ==> forall k: nat | h < k < |log| :: !UnnamedAt(fold, m, log, k, w, NameAt(log, h, x, w)))
      && (h >= 0 ==> forall j: nat | j < h && NameAt(log, j, x, w) != "" :: Cleared(fold, m, log, j, h, w))
      && (h < 0 ==> forall j: nat | j < |log| && NameAt(log, j, x, w) != "" :: Cleared(fold, m, log, j, |log|, w))
    decreases |log|
  {
    hide NameAt, UnnamedAt;
    if log != [] {
      var last := |log| - 1;
      var front := log[..last];
      var was, h := Holder(fold, m, front, x, w), Holder(fold, m, log, x, w);
      HolderMeaning(fold, m, front, x, w);
      if was >= 0 {
        NameAtFront(log, was, x, w);
        DeletionNamesNothing(fold, m, log, last, x, w, NameAt(log, was, x, w));
      }
      if h >= 0 && h == was {
        forall k: nat | h < k < last ensures !UnnamedAt(fold, m, log, k, w, NameAt(log, h, x, w)) {
          UnnamedFront(fold, m, log, k, w, NameAt(log, h, x, w));
        }
      }
      forall j: nat | j < last && NameAt(log, j, x, w) != ""
        ensures h >= 0 && j < h ==> Cleared(fold, m, log, j, h, w)
        ensures h < 0 ==> Cleared(fold, m, log, j, |log|, w)
      {
        NameAtFront(log, j, x, w);
        HolderClears(fold, m, log, x, w, j);
      }
    }
  }

  /** One more entry keeps earlier clearings, and a deletion of what stood clears the rest. */
  lemma HolderClears(fold: Fold, m: Maps, log: seq<Command>, x: string, w: Attribution, j: nat)
    requires j < |log| - 1 && NameAt(log, j, x, w) != ""
    requires var front := log[..|log| - 1]; var was := Holder(fold, m, front, x, w);
      j < was || was < 0 ==> Cleared(fold, m, front, j, if was >= 0 then was else |front|, w)
    ensures var h := Holder(fold, m, log, x, w);
      (h >= 0 && j < h ==> Cleared(fold, m, log, j, h, w)) && (h < 0 ==> Cleared(fold, m, log, j, |log|, w))
  {
    hide NameAt, UnnamedAt;
    var last := |log| - 1;
    var was := Holder(fold, m, log[..last], x, w);
    if was >= 0 && j >= was {
      assert Holder(fold, m, log, x, w) < 0 ==> UnnamedAt(fold, m, log, last, w, NameAt(log, was, x, w));
    } else {
      ClearedFront(fold, m, log, j, if was >= 0 then was else last, w);
    }
  }

  lemma ClearedFront(fold: Fold, m: Maps, log: seq<Command>, j: int, end: int, w: Attribution)
    requires 0 < |log| && end < |log| && Cleared(fold, m, log[..|log| - 1], j, end, w)
    ensures Cleared(fold, m, log, j, end, w) && Cleared(fold, m, log, j, |log|, w)
  {
    var i: nat, name :| j < i < end && i < |log| - 1 && UnnamedAt(fold, m, log[..|log| - 1], i, w, name);
    UnnamedFront(fold, m, log, i, w, name);
  }

  lemma {:induction false} FullAttribution(fold: Fold, m: Maps, log: seq<Command>, x: string, w: Attribution)
    requires x !in m.traces && (forall c <- log :: !Deletes(c, x)) && Applied(fold, m, log) == |log|
    ensures NameIn(RunMaps(fold, m, log), x, w) == HeldName(fold, m, log, x, w)
    decreases |log|
  {
    hide StepMaps, Deletes, Applied, Names, Unnames, ClosedForm;
    if log != [] {
      var last := |log| - 1;
      var front, c := log[..last], log[last];
      assert log == front + [c];
      RunMapsSnoc(fold, m, front, c);
      FullAttribution(fold, m, front, x, w);
      FullClosedForm(fold, m, front, x);
      FormPresent(front, x);
      NameStep(fold, RunMaps(fold, m, front), c, x, w);
      var h := Holder(fold, m, front, x, w);
      if h >= 0 {
        HolderMeaning(fold, m, front, x, w);
        NameAtFront(log, h, x, w);
      }
    }
  }

  lemma FormPresent(log: seq<Command>, x: string)
    ensures ClosedForm(log, x).Present? <==> FirstCreate(log, x) >= 0
  {
    hide FirstCreate, LastFinish, FirstFail, LastReport, Decode;
  }

  /** The owner and the group: the first value offered since what stood before was deleted. */
  lemma FirstOfferHolds(fold: Fold, m: Maps, log: seq<Command>, x: string, w: Attribution)
    requires x !in m.traces && forall c <- log :: !Deletes(c, x)
    ensures NameIn(RunMaps(fold, m, log), x, w) == HeldName(fold, m, log[..Applied(fold, m, log)], x, w)
  {
    hide StepMaps, HeldName, Deletes;
    RunApplied(fold, m, log);
    FullAttribution(fold, m, log[..Applied(fold, m, log)], x, w);
  }
}
