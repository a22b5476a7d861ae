/**
  Paginated log search: a batched, bounded scan with two cursor anchors, proved
  against a plain filter of the whole window.

  The log backend is a finite sequence ordered by time. A query returns its
  earliest entries, at most one batch, from a start instant on; a batch is taken
  as already in time order.
 */
module LogSearch {
  import opened Text

  const BATCH := 1000
  const MAX_SCAN := 5000

  datatype Entry = Entry(ts: int, line: string, span: string)

  datatype Mode = ContainsMode | RegexMode(matches: string -> bool)

  datatype Request = Request(
    spanIds: seq<string>,
    query: string,
    mode: Mode,
    start: int,
    limit: int,
    cursor: int,
    includeCounts: bool)

  datatype Page = Page(entries: seq<Entry>, next: int, counts: map<string, nat>)

  predicate MatchLine(line: string, query: string, mode: Mode) {
    query == "" || match mode case RegexMode(matches) => matches(line) case ContainsMode => Contains(line, query)
  }

  predicate Hit(req: Request, e: Entry) {
    (req.spanIds == [] || e.span in req.spanIds) && MatchLine(e.line, req.query, req.mode)
  }

  function Hits(req: Request, s: seq<Entry>): seq<Entry> {
    if s == [] then []
    else
      var front, e := s[..|s| - 1], s[|s| - 1];
      if Hit(req, e) then Hits(req, front) + [e] else Hits(req, front)
  }

  /** Matches per span; entries without a span are not counted. */
  function SpanCounts(hits: seq<Entry>): map<string, nat> {
    if hits == [] then map[]
    else
      var c, span := SpanCounts(hits[..|hits| - 1]), hits[|hits| - 1].span;
      if span == "" then c else c[span := (if span in c then c[span] else 0) + 1]
  }

  function Limit(req: Request): (n: nat)
    ensures n >= 1
  {
    if req.limit <= 0 then BATCH else req.limit
  }

  function Origin(req: Request): int {
    if req.cursor == 0 then req.start else req.cursor
  }

  function Take<T>(s: seq<T>, n: nat): seq<T> {
    if |s| > n then s[..n] else s
  }

  // --- the backend --------------------------------------------------------------------

  ghost predicate InOrder(store: seq<Entry>) {
    && (forall i, j | 0 <= i < j < |store| :: store[i].ts <= store[j].ts)
    && (forall e <- store :: e.ts >= 0)
  }

  ghost predicate DistinctTimes(store: seq<Entry>) {
    forall i, j | 0 <= i < j < |store| :: store[i].ts != store[j].ts
  }

  /** The part of the window at or after an instant. */
  function From(store: seq<Entry>, start: int): seq<Entry> {
    if store == [] || store[0].ts >= start then store else From(store[1..], start)
  }

  function Query(store: seq<Entry>, start: int): seq<Entry> {
    Take(From(store, start), BATCH)
  }

  // --- what one call examines and returns ------------------------------------------------

  /** The raw entries of up to `rounds` consecutive batches. */
  function Examined(store: seq<Entry>, cursor: int, rounds: nat): seq<Entry>
    decreases rounds
  {
    if rounds == 0 then []
    else
      var b := Query(store, cursor);
      if |b| < BATCH then b else b + Examined(store, b[|b| - 1].ts + 1, rounds - 1)
  }

  /** Did the rounds run into the end of the window? */
  predicate Exhausted(store: seq<Entry>, cursor: int, rounds: nat)
    decreases rounds
  {
    rounds > 0 &&
    var b := Query(store, cursor);
    |b| < BATCH || Exhausted(store, b[|b| - 1].ts + 1, rounds - 1)
  }

  const ROUNDS: nat := MAX_SCAN / BATCH

  function PageEntries(store: seq<Entry>, req: Request, cursor: int): seq<Entry> {
    Take(Hits(req, Examined(store, cursor, ROUNDS)), Limit(req))
  }

  function PageNext(store: seq<Entry>, req: Request, cursor: int): int {
    var raw := Examined(store, cursor, ROUNDS);
    var hits := Hits(req, raw);
    if |hits| >= Limit(req) then hits[Limit(req) - 1].ts + 1
    else if !Exhausted(store, cursor, ROUNDS) && raw != [] then raw[|raw| - 1].ts + 1
    else 0
  }

  class ScanState {
    var matches: seq<Entry>
    var counts: map<string, nat>
    var lastRawTs: int
    var pageAnchorTs: int
    var pageFull: bool

    constructor ()
      ensures matches == [] && counts == map[] && !pageFull
    {
      matches, counts, lastRawTs, pageAnchorTs, pageFull := [], map[], 0, 0, false;
    }

    /** The fields summarize the raw entries seen so far. */
    ghost predicate Reflects(req: Request, seen: seq<Entry>)
      reads this
    {
      var hits := Hits(req, seen);
      && matches == Take(hits, Limit(req))
      && (pageFull <==> |hits| >= Limit(req))
      && (matches != [] ==> pageAnchorTs == matches[|matches| - 1].ts)
      && (seen != [] ==> lastRawTs == seen[|seen| - 1].ts)
      && counts == (if req.includeCounts then SpanCounts(hits) else map[])
    }

    /** One raw entry; answers whether the page just filled with nothing left to count. */
    method ScanEntry(entry: Entry, req: Request, ghost seen: seq<Entry>) returns (stop: bool)
      requires Reflects(req, seen) && (pageFull ==> req.includeCounts)
      modifies this
      ensures Reflects(req, seen + [entry]) && lastRawTs == entry.ts
      ensures stop <==> pageFull && !req.includeCounts
    {
      HitsSnoc(req, seen, entry);
      hide Hits, SpanCounts, MatchLine, Limit;
      lastRawTs := entry.ts;
      if req.spanIds != [] {
        if entry.span !in req.spanIds { return false; }
      }
      if !MatchLine(entry.line, req.query, req.mode) { return false; }
      if req.includeCounts && entry.span != "" {
        counts := counts[entry.span := (if entry.span in counts then counts[entry.span] else 0) + 1];
      }
      if pageFull { return false; }
      matches := matches + [entry];
      pageAnchorTs := lastRawTs;
      if |matches| >= Limit(req) {
        pageFull := true;
        if !req.includeCounts { return true; }
      }
      return false;
    }

    method ScanBatch(raw: seq<Entry>, req: Request, ghost seen: seq<Entry>) returns (stop: bool, ghost n: nat)
      requires Reflects(req, seen) && (pageFull ==> req.includeCounts)
      modifies this
      ensures n <= |raw| && Reflects(req, seen + raw[..n])
      ensures stop <==> pageFull && !req.includeCounts
      ensures !stop ==> n == |raw|
      ensures !stop && raw != [] ==> lastRawTs == raw[|raw| - 1].ts
    {
      hide Reflects;
      assert seen + raw[..0] == seen;
      for i := 0 to |raw|
        invariant Reflects(req, seen + raw[..i]) && (pageFull ==> req.includeCounts)
        invariant i > 0 ==> lastRawTs == raw[i - 1].ts
      {
        assert seen + raw[..i + 1] == seen + raw[..i] + [raw[i]];
        stop := ScanEntry(raw[i], req, seen + raw[..i]);
        if stop { return true, i + 1; }
      }
      return false, |raw|;
    }
  }

  lemma NothingSeen(req: Request)
    ensures Hits(req, []) == [] && SpanCounts([]) == map[] && Limit(req) >= 1
  {
  }

  lemma HitsSnoc(req: Request, s: seq<Entry>, e: Entry)
    ensures Hits(req, s + [e]) == if Hit(req, e) then Hits(req, s) + [e] else Hits(req, s)
    ensures SpanCounts(Hits(req, s) + [e]) ==
            var c := SpanCounts(Hits(req, s));
            if e.span == "" then c else c[e.span := (if e.span in c then c[e.span] else 0) + 1]
  {
    assert (s + [e])[..|s|] == s;
    assert (Hits(req, s) + [e])[..|Hits(req, s)|] == Hits(req, s);
  }

  lemma {:induction false} HitsAppend(req: Request, s: seq<Entry>, t: seq<Entry>)
    ensures Hits(req, s + t) == Hits(req, s) + Hits(req, t)
    decreases |t|
  {
    if t == [] {
      assert s + t == s;
    } else {
      var front, e := t[..|t| - 1], t[|t| - 1];
      assert s + t == (s + front) + [e] && t == front + [e];
      HitsAppend(req, s, front);
      HitsSnoc(req, s + front, e);
      HitsSnoc(req, front, e);
    }
  }

  /** A page that filled on a prefix of the raw entries is the page of all of them. */
  lemma FullPageIsFinal(req: Request, end: seq<Entry>, rest: seq<Entry>)
    requires |Hits(req, end)| >= Limit(req)
    ensures Take(Hits(req, end + rest), Limit(req)) == Take(Hits(req, end), Limit(req))
    ensures |Hits(req, end + rest)| >= Limit(req)
    ensures Hits(req, end + rest)[Limit(req) - 1] == Hits(req, end)[Limit(req) - 1]
  {
    HitsAppend(req, end, rest);
  }

  lemma {:induction false} ExaminedBound(store: seq<Entry>, cursor: int, rounds: nat)
    ensures |Examined(store, cursor, rounds)| <= rounds * BATCH
    ensures rounds > 0 && !Exhausted(store, cursor, rounds) ==> Examined(store, cursor, rounds) != []
    decreases rounds
  {
    if rounds > 0 {
      var b := Query(store, cursor);
      if |b| == BATCH { ExaminedBound(store, b[|b| - 1].ts + 1, rounds - 1); }
    }
  }

  /** One turn of the scan loop: what the current batch leaves for later rounds. */
  lemma NextRound(store: seq<Entry>, cursor: int, rounds: nat)
    requires rounds > 0
    ensures var b, later := Query(store, cursor), Later(store, cursor, rounds);
      && |b| <= BATCH
      && Examined(store, cursor, rounds) == b + later
      && (|b| < BATCH ==> later == [] && Exhausted(store, cursor, rounds))
      && (|b| == BATCH ==> later == Examined(store, b[|b| - 1].ts + 1, rounds - 1))
      && (|b| == BATCH ==> Exhausted(store, cursor, rounds) == Exhausted(store, b[|b| - 1].ts + 1, rounds - 1))
  {
  }

  lemma NoRounds(store: seq<Entry>, cursor: int)
    ensures Examined(store, cursor, 0) == [] && !Exhausted(store, cursor, 0)
  {
  }

  function Later(store: seq<Entry>, cursor: int, rounds: nat): seq<Entry>
    requires rounds > 0
  {
    var b := Query(store, cursor);
    if |b| < BATCH then [] else Examined(store, b[|b| - 1].ts + 1, rounds - 1)
  }

  /** What the scan has in hand when it stops determines the page. */
  lemma PageReady(store: seq<Entry>, req: Request, seen: seq<Entry>, rest: seq<Entry>, exhausted: bool)
    requires Examined(store, Origin(req), ROUNDS) == seen + rest
    requires rest == [] || (|Hits(req, seen)| >= Limit(req) && !req.includeCounts)
    requires |Hits(req, seen)| < Limit(req) ==> exhausted == Exhausted(store, Origin(req), ROUNDS)
    ensures PageEntries(store, req, Origin(req)) == Take(Hits(req, seen), Limit(req))
    ensures |Hits(req, seen)| < Limit(req) && !exhausted ==> seen != []
    ensures PageNext(store, req, Origin(req)) ==
      if |Hits(req, seen)| >= Limit(req) then Hits(req, seen)[Limit(req) - 1].ts + 1
      else if !exhausted then seen[|seen| - 1].ts + 1 else 0
    ensures req.includeCounts ==> seen == Examined(store, Origin(req), ROUNDS)
  {
    ExaminedBound(store, Origin(req), ROUNDS);
    if |Hits(req, seen)| >= Limit(req) {
      FullPageIsFinal(req, seen, rest);
    } else {
      assert seen + rest == seen;
    }
    assert req.includeCounts ==> seen + rest == seen;
  }

  lemma {:induction false} HitsMembers(req: Request, s: seq<Entry>)
    ensures forall e :: e in Hits(req, s) <==> e in s && Hit(req, e)
  {
    if s != [] {
      var front, last := s[..|s| - 1], s[|s| - 1];
      HitsMembers(req, front);
      assert forall e :: e in s <==> e in front || e == last;
    }
  }

  // --- the filter a caller has in mind -------------------------------------------------------

  /** The line holds the text somewhere. */
  ghost predicate Holds(line: string, text: string) {
    exists before, after :: line == before + text + after
  }

  /** Asked for, in the caller's terms: in the window, of a requested span, with the text. */
  ghost predicate AskedFor(store: seq<Entry>, req: Request, e: Entry) {
    && e in store
    && e.ts >= (if req.cursor != 0 then req.cursor else req.start)
    && (req.spanIds != [] ==> e.span in req.spanIds)
    && (req.query != "" ==> if req.mode.RegexMode? then req.mode.matches(e.line) else Holds(e.line, req.query))
  }

  lemma ContainsIff(line: string, text: string)
    ensures Contains(line, text) <==> Holds(line, text)
  {
    if Contains(line, text) {
      var i: nat :| i <= |line| && OccursAt(line, text, i);
      assert line == line[..i] + text + line[i + |text|..];
    }
    if Holds(line, text) {
      var before, after :| line == before + text + after;
      assert OccursAt(line, text, |before|);
    }
  }

  lemma {:induction false} FromMembers(store: seq<Entry>, start: int)
    requires InOrder(store)
    ensures forall e :: e in From(store, start) <==> e in store && e.ts >= start
    decreases |store|
  {
    if store != [] {
      if store[0].ts >= start {
        forall e | e in store ensures e.ts >= start {
          var i :| 0 <= i < |store| && store[i] == e;
          assert i > 0 ==> store[0].ts <= store[i].ts;
        }
      } else {
        assert forall e <- store[1..] :: e in store;
        FromMembers(store[1..], start);
        assert forall e :: e in store <==> e == store[0] || e in store[1..];
      }
    }
  }

  lemma {:induction false} ExaminedWithin(store: seq<Entry>, cursor: int, rounds: nat)
    requires InOrder(store)
    ensures forall e <- Examined(store, cursor, rounds) :: e in store && e.ts >= cursor
    decreases rounds
  {
    if rounds > 0 {
      hide From, InOrder;
      FromMembers(store, cursor);
      var b := Query(store, cursor);
      assert forall e <- b :: e in From(store, cursor);
      if |b| == BATCH {
        ExaminedWithin(store, b[|b| - 1].ts + 1, rounds - 1);
        assert b[|b| - 1] in b;
      }
    }
  }

  lemma PageAskedFor(store: seq<Entry>, req: Request)
    requires InOrder(store)
    ensures forall e <- PageEntries(store, req, Origin(req)) :: AskedFor(store, req, e)
  {
    var raw := Examined(store, Origin(req), ROUNDS);
    ExaminedWithin(store, Origin(req), ROUNDS);
    HitsMembers(req, raw);
    hide Examined, Hits, InOrder;
    forall e | e in PageEntries(store, req, Origin(req)) ensures AskedFor(store, req, e) {
      assert e in Hits(req, raw);
      ContainsIff(e.line, req.query);
    }
  }

  lemma LimitInNumbers(req: Request)
    ensures Limit(req) == if req.limit > 0 then req.limit else 1000
  {
  }

  /** One page: entries and cursor do not depend on counting, and at most MAX_SCAN entries are examined. */
  method SearchTraceLogs(store: seq<Entry>, req: Request) returns (page: Page, examined: nat)
    ensures page.entries == PageEntries(store, req, Origin(req))
    ensures page.next == PageNext(store, req, Origin(req))
    ensures page.counts == if req.includeCounts then SpanCounts(Hits(req, Examined(store, Origin(req), ROUNDS))) else map[]
    ensures examined <= 5000 && |page.entries| <= (if req.limit > 0 then req.limit else 1000)
    ensures page.next != 0 ==> |page.entries| == (if req.limit > 0 then req.limit else 1000) || examined == 5000
    ensures InOrder(store) ==> forall e <- page.entries :: AskedFor(store, req, e)
  {

    hide Hits, SpanCounts, Examined, Exhausted, Query, Later, Origin, Limit, InOrder, AskedFor, PageEntries, PageNext;
    var cursor := Origin(req);
    var st := new ScanState();
    var scanned, exhausted := 0, false;
    examined := 0;
    ghost var seen: seq<Entry> := [];
    ghost var rest, rounds: nat := Examined(store, cursor, ROUNDS), ROUNDS;
    NothingSeen(req);
    while scanned < MAX_SCAN
      invariant scanned + rounds * BATCH == MAX_SCAN && examined == scanned && !exhausted
      invariant Examined(store, Origin(req), ROUNDS) == seen + rest && rest == Examined(store, cursor, rounds)
      invariant Exhausted(store, Origin(req), ROUNDS) == Exhausted(store, cursor, rounds)
      invariant st.Reflects(req, seen) && (st.pageFull ==> req.includeCounts)
      decreases rounds
    {
      hide ScanState.Reflects;
      var raw := Query(store, cursor);
      NextRound(store, cursor, rounds);
      ghost var later := Later(store, cursor, rounds);
      if |raw| == 0 {
        exhausted, rest := true, [];
        break;
      }
      var stop; ghost var n;
      stop, n := st.ScanBatch(raw, req, seen);
      examined := examined + |raw|;
      if stop {
        assert seen + (raw + later) == (seen + raw[..n]) + (raw[n..] + later);
        seen, rest := seen + raw[..n], raw[n..] + later;
        break;
      }
      assert raw[..n] == raw && seen + (raw + later) == (seen + raw) + later;
      seen, rest := seen + raw, later;
      scanned := scanned + |raw|;
      if |raw| < BATCH {
        exhausted := true;
        break;
      }
      assert st.lastRawTs == raw[|raw| - 1].ts;
      cursor := st.lastRawTs + 1;
      rounds := rounds - 1;
    }
    NoRounds(store, cursor);
    PageReady(store, req, seen, rest, exhausted);
    var next := 0;
    if st.pageFull {
      next := st.pageAnchorTs + 1;
    } else if !exhausted {
      next := st.lastRawTs + 1;
    }
    page := Page(st.matches, next, st.counts);
    LimitInNumbers(req);
    if InOrder(store) { PageAskedFor(store, req); }
  }
}
