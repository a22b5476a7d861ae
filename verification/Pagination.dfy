/**
  Following the Next cursor page by page. The pages concatenated are always an
  in-order selection of the plain filter, and they are all of it for every
  request exactly when no two log entries share a timestamp.
 */
module Pagination {
  import opened LogSearch
  import opened Ordering
  import opened Selections

  // --- selections of log entries -----------------------------------------------------------

  lemma {:induction false} SelectionInOrder(a: seq<Entry>, b: seq<Entry>)
    requires Selection(a, b) && InOrder(b)
    ensures InOrder(a)
    decreases |b|
  {
    if a != [] {
      forall x | x in a ensures x in b { SelectionMember(a, b, x); }
      if a[0] == b[0] && Selection(a[1..], b[1..]) {
        SelectionInOrder(a[1..], b[1..]);
        forall i | 0 < i < |a| ensures a[0].ts <= a[i].ts { assert a[i] in b; }
      } else {
        SelectionInOrder(a, b[1..]);
      }
    }
  }

  lemma {:induction false} SelectionHits(req: Request, a: seq<Entry>, b: seq<Entry>)
    requires Selection(a, b)
    ensures Selection(Hits(req, a), Hits(req, b))
    decreases |b|
  {
    if a != [] {
      assert a == [a[0]] + a[1..] && b == [b[0]] + b[1..];
      HitsAppend(req, [b[0]], b[1..]);
      if a[0] == b[0] && Selection(a[1..], b[1..]) {
        HitsAppend(req, [a[0]], a[1..]);
        SelectionHits(req, a[1..], b[1..]);
        SelectionSelf(Hits(req, [a[0]]));
        SelectionAppend(Hits(req, [a[0]]), Hits(req, [b[0]]), Hits(req, a[1..]), Hits(req, b[1..]));
      } else {
        SelectionHits(req, a, b[1..]);
        SelectionWiden(Hits(req, a), Hits(req, [b[0]]), Hits(req, b[1..]), []);
        assert Hits(req, b) == Hits(req, [b[0]]) + Hits(req, b[1..]) + [];
      }
    }
  }

  /** Elements that cannot come from the later part come from the earlier one. */
  lemma {:induction false} SelectionBelow(a: seq<Entry>, early: seq<Entry>, late: seq<Entry>)
    requires Selection(a, early + late) && forall x <- a :: x !in late
    ensures Selection(a, early)
    decreases |early|
  {
    if a != [] {
      if early == [] {
        assert early + late == late;
        SelectionMember(a, late, a[0]);
      } else {
        assert (early + late)[0] == early[0] && (early + late)[1..] == early[1..] + late;
        if a[0] == early[0] && Selection(a[1..], early[1..] + late) {
          SelectionBelow(a[1..], early[1..], late);
        } else {
          SelectionBelow(a, early[1..], late);
        }
      }
    }
  }

  // --- the window seen from a cursor ---------------------------------------------------------

  /** From is the suffix that starts at the first entry not before the cursor. */
  lemma {:induction false} FromIsSuffix(store: seq<Entry>, cursor: int) returns (k: nat)
    requires InOrder(store)
    ensures k <= |store| && From(store, cursor) == store[k..] && InOrder(From(store, cursor))
    ensures forall i | 0 <= i < k :: store[i].ts < cursor
    ensures forall i | k <= i < |store| :: store[i].ts >= cursor
  {
    if store == [] || store[0].ts >= cursor {
      k := 0;
    } else {
      assert forall e <- store[1..] :: e in store;
      k := FromIsSuffix(store[1..], cursor);
      k := k + 1;
    }
  }

  /** Moving the cursor forward splits the window. */
  lemma FromSplit(store: seq<Entry>, cursor: int, next: int) returns (early: seq<Entry>)
    requires InOrder(store) && cursor <= next
    ensures From(store, cursor) == early + From(store, next)
    ensures forall e <- early :: cursor <= e.ts < next
    ensures forall e <- From(store, next) :: e.ts >= next
  {
    hide From;
    var k := FromIsSuffix(store, cursor);
    var n := FromIsSuffix(store, next);
    assert n == |store| || store[n].ts >= cursor;
    early := store[k..n];
    assert store[k..] == store[k..n] + store[n..];
  }

  lemma {:induction false} ExaminedSelection(store: seq<Entry>, cursor: int, rounds: nat)
    requires InOrder(store)
    ensures Selection(Examined(store, cursor, rounds), From(store, cursor))
    decreases rounds
  {
    if rounds > 0 {
      hide Selection, From, InOrder;
      var all, b := From(store, cursor), Query(store, cursor);
      assert all == b + all[|b|..];
      SelectionSelf(b);
      if |b| < BATCH {
        SelectionWiden(b, [], b, all[|b|..]);
        assert [] + b + all[|b|..] == all;
      } else {
        var next := b[|b| - 1].ts + 1;
        ExaminedSelection(store, next, rounds - 1);
        BatchSelection(store, cursor, next, Examined(store, next, rounds - 1));
      }
    }
  }

  /** A full batch followed by a selection from after it. */
  lemma BatchSelection(store: seq<Entry>, cursor: int, next: int, later: seq<Entry>)
    requires InOrder(store) && |Query(store, cursor)| == BATCH
    requires next == Query(store, cursor)[BATCH - 1].ts + 1 && Selection(later, From(store, next))
    ensures Selection(Query(store, cursor) + later, From(store, cursor))
  {
    var b := Query(store, cursor);
    var k := FromIsSuffix(store, cursor);
    assert b[BATCH - 1] == store[k + BATCH - 1];
    hide Selection, From;
    var early := FromSplit(store, cursor, next);
    BatchIsEarly(store, cursor, early, next);
    SelectionSelf(b);
    SelectionWiden(b, [], b, early[BATCH..]);
    assert [] + b + early[BATCH..] == early;
    SelectionAppend(b, early, later, From(store, next));
  }

  lemma BatchIsEarly(store: seq<Entry>, cursor: int, early: seq<Entry>, next: int)
    requires InOrder(store) && |Query(store, cursor)| == BATCH
    requires next == Query(store, cursor)[BATCH - 1].ts + 1
    requires From(store, cursor) == early + From(store, next)
    requires forall e <- From(store, next) :: e.ts >= next
    ensures |early| >= BATCH && early[..BATCH] == Query(store, cursor)
  {
  }

  // --- one page -------------------------------------------------------------------------------

  /** A page takes from the part of the window before its Next cursor, and a nonzero Next makes progress. */
  lemma PageStep(store: seq<Entry>, req: Request, cursor: int) returns (early: seq<Entry>)
    requires InOrder(store)
    ensures var entries, next := PageEntries(store, req, cursor), PageNext(store, req, cursor);
      && Selection(entries, Hits(req, From(store, cursor)))
      && (next != 0 ==>
          && next >= 1 && next > cursor && early != []
          && From(store, cursor) == early + From(store, next)
          && Selection(entries, Hits(req, early)))
  {
    hide Examined, Exhausted, From, Selection, Hits;
    early := [];
    var raw := Examined(store, cursor, ROUNDS);
    var hits := Hits(req, raw);
    var entries, next := PageEntries(store, req, cursor), PageNext(store, req, cursor);
    var all := From(store, cursor);
    var k := FromIsSuffix(store, cursor);
    ExaminedSelection(store, cursor, ROUNDS);
    SelectionHits(req, raw, all);
    TakeSelection(hits, Limit(req), Hits(req, all));
    if next != 0 {
      HitsMembers(req, raw);
      var anchor := if |hits| >= Limit(req) then hits[Limit(req) - 1] else raw[|raw| - 1];
      assert anchor in raw && next == anchor.ts + 1;
      SelectionMember(raw, all, anchor);
      early := FromSplit(store, cursor, next);
      assert anchor in early;
      HitsAppend(req, early, From(store, next));
      forall x | x in entries ensures x !in Hits(req, From(store, next)) {
        EntriesBeforeNext(store, req, cursor, x);
        HitsMembers(req, From(store, next));
      }
      SelectionBelow(entries, Hits(req, early), Hits(req, From(store, next)));
    }
  }

  lemma TakeSelection<T>(a: seq<T>, n: nat, b: seq<T>)
    requires Selection(a, b)
    ensures Selection(Take(a, n), b)
  {
    if |a| > n { PrefixSelection(a, n, b); }
  }

  lemma EntriesBeforeNext(store: seq<Entry>, req: Request, cursor: int, x: Entry)
    requires InOrder(store) && PageNext(store, req, cursor) != 0 && x in PageEntries(store, req, cursor)
    ensures x.ts < PageNext(store, req, cursor)
  {
    hide Examined, Exhausted, From, Selection, Hits;
    var raw := Examined(store, cursor, ROUNDS);
    var hits := Hits(req, raw);
    var k := FromIsSuffix(store, cursor);
    ExaminedSelection(store, cursor, ROUNDS);
    SelectionInOrder(raw, From(store, cursor));
    HitsMembers(req, raw);
    if |hits| >= Limit(req) {
      HitsInOrder(req, raw);
    }
  }

  lemma {:induction false} HitsInOrder(req: Request, s: seq<Entry>)
    requires InOrder(s)
    ensures InOrder(Hits(req, s))
  {
    if s != [] {
      var front, last := s[..|s| - 1], s[|s| - 1];
      assert forall e <- front :: e in s && e.ts <= last.ts;
      HitsInOrder(req, front);
      HitsMembers(req, front);
      var hits := Hits(req, front);
      forall i | 0 <= i < |hits| ensures hits[i].ts <= last.ts && hits[i].ts >= 0 { assert hits[i] in front; }
      assert last in s;
    }
  }

  // --- all pages --------------------------------------------------------------------------------

  /** Follows Next until it is 0; terminates because each page uses up part of the window. */
  ghost function AllPages(store: seq<Entry>, req: Request, cursor: int): seq<Entry>
    requires InOrder(store)
    decreases |From(store, cursor)|
  {
    var next := PageNext(store, req, cursor);
    if next == 0 then PageEntries(store, req, cursor)
    else
      assert |From(store, next)| < |From(store, cursor)| by { var early := PageStep(store, req, cursor); }
      PageEntries(store, req, cursor) + AllPages(store, req, next)
  }

  /** Entries and Next depend on the cursor the page starts from, not on the request's own. */
  lemma {:induction false} HitsIgnoreCursor(req: Request, cursor: int, s: seq<Entry>)
    ensures Hits(req.(cursor := cursor), s) == Hits(req, s)
    decreases |s|
  {
    if s != [] { HitsIgnoreCursor(req, cursor, s[..|s| - 1]); }
  }

  lemma PageIgnoresCursor(store: seq<Entry>, req: Request, own: int, cursor: int)
    ensures PageEntries(store, req.(cursor := own), cursor) == PageEntries(store, req, cursor)
    ensures PageNext(store, req.(cursor := own), cursor) == PageNext(store, req, cursor)
  {
    HitsIgnoreCursor(req, own, Examined(store, cursor, ROUNDS));
  }

  /** Calls again with each Next until it is 0. */
  method CollectPages(store: seq<Entry>, req: Request) returns (all: seq<Entry>)
    requires InOrder(store)
    ensures all == AllPages(store, req, Origin(req))
  {
    hide PageEntries, PageNext, Examined, Hits, From, InOrder, Selection;
    var page, examined := SearchTraceLogs(store, req);
    all := page.entries;
    ghost var cursor := Origin(req);
    while page.next != 0
      invariant page.next == PageNext(store, req, cursor)
      invariant all + (if page.next == 0 then [] else AllPages(store, req, page.next)) == AllPages(store, req, Origin(req))
      decreases |From(store, cursor)|
    {
      var next := page.next;
      ghost var early := PageStep(store, req, cursor);
      PageIgnoresCursor(store, req, next, next);
      page, examined := SearchTraceLogs(store, req.(cursor := next));
      all, cursor := all + page.entries, next;
    }
  }

  /** With or without ties: in order, nothing repeated, nothing that is not a match. */
  lemma {:induction false} PagesAreSelection(store: seq<Entry>, req: Request, cursor: int)
    requires InOrder(store)
    ensures Selection(AllPages(store, req, cursor), Hits(req, From(store, cursor)))
    decreases |From(store, cursor)|
  {
    var next := PageNext(store, req, cursor);
    var early := PageStep(store, req, cursor);
    if next != 0 {
      PagesAreSelection(store, req, next);
      HitsAppend(req, early, From(store, next));
      SelectionAppend(PageEntries(store, req, cursor), Hits(req, early),
                      AllPages(store, req, next), Hits(req, From(store, next)));
    }
  }

  lemma PagesAscendWithoutRepeats(store: seq<Entry>, req: Request, cursor: int)
    requires InOrder(store)
    ensures InOrder(AllPages(store, req, cursor))
    ensures multiset(AllPages(store, req, cursor)) <= multiset(Hits(req, From(store, cursor)))
  {
    PagesAreSelection(store, req, cursor);
    var k := FromIsSuffix(store, cursor);
    HitsInOrder(req, From(store, cursor));
    SelectionInOrder(AllPages(store, req, cursor), Hits(req, From(store, cursor)));
    SelectionMultiset(AllPages(store, req, cursor), Hits(req, From(store, cursor)));
  }

  // --- completeness for distinct timestamps ---------------------------------------------------------

  lemma FromAfter(store: seq<Entry>, cursor: int, p: nat)
    requires InOrder(store) && DistinctTimes(store) && p < |From(store, cursor)|
    ensures From(store, From(store, cursor)[p].ts + 1) == From(store, cursor)[p + 1..]
  {
    hide From;
    var k := FromIsSuffix(store, cursor);
    var next := From(store, cursor)[p].ts + 1;
    var n := FromIsSuffix(store, next);
    assert store[k + p].ts == next - 1;
    assert k + p + 1 < |store| ==> store[k + p + 1].ts >= next;
  }

  lemma {:induction false} ExaminedDistinct(store: seq<Entry>, cursor: int, rounds: nat)
    requires InOrder(store) && DistinctTimes(store)
    ensures Examined(store, cursor, rounds) == Take(From(store, cursor), rounds * BATCH)
    ensures Exhausted(store, cursor, rounds) <==> |From(store, cursor)| < rounds * BATCH
    decreases rounds
  {
    if rounds > 0 {
      hide From, InOrder, DistinctTimes;
      var all, b := From(store, cursor), Query(store, cursor);
      if |b| == BATCH {
        FromAfter(store, cursor, BATCH - 1);
        ExaminedDistinct(store, b[|b| - 1].ts + 1, rounds - 1);
        assert b + Take(all[BATCH..], (rounds - 1) * BATCH) == Take(all, rounds * BATCH);
      }
    }
  }

  predicate Earlier(a: Entry, b: Entry) {
    a.ts < b.ts
  }

  /** However the streams of a batch come interleaved, sorting it by time gives the batch the scan works on. */
  lemma SortRestoresBatch(store: seq<Entry>, cursor: int, raw: seq<Entry>)
    requires InOrder(store) && DistinctTimes(store)
    requires Distinct(raw) && SameElements(raw, Query(store, cursor))
    ensures Sort(Earlier, raw) == Query(store, cursor)
  {
    hide From;
    var batch := Query(store, cursor);
    var k := FromIsSuffix(store, cursor);
    assert forall i | 0 <= i < |batch| :: batch[i] == store[k + i];
    assert Linear(Earlier, raw) by {
      forall x, y | x in raw && y in raw && x != y ensures x.ts != y.ts { assert x in batch && y in batch; }
    }
    SortCorrect(Earlier, raw);
    SortedUnique(Earlier, Sort(Earlier, raw), batch);
  }

  /** Where in the raw entries the n-th match sits. */
  lemma {:induction false} NthHit(req: Request, s: seq<Entry>, n: nat) returns (p: nat)
    requires 1 <= n <= |Hits(req, s)|
    ensures p < |s| && s[p] == Hits(req, s)[n - 1] && Hits(req, s[..p + 1]) == Hits(req, s)[..n]
  {
    var front := s[..|s| - 1];
    if n <= |Hits(req, front)| {
      p := NthHit(req, front, n);
      assert front[..p + 1] == s[..p + 1];
    } else {
      p := |s| - 1;
      assert s[..p + 1] == s;
    }
  }

  /** A page that fills at some match resumes right after it. */
  lemma FullPageComplete(store: seq<Entry>, req: Request, cursor: int, raw: seq<Entry>)
    requires InOrder(store) && DistinctTimes(store)
    requires raw <= From(store, cursor) && |Hits(req, raw)| >= Limit(req)
    ensures var anchor := Hits(req, raw)[Limit(req) - 1];
      && anchor.ts >= 0
      && Hits(req, From(store, cursor)) == Hits(req, raw)[..Limit(req)] + Hits(req, From(store, anchor.ts + 1))
  {
    hide Hits, From;
    var all := From(store, cursor);
    var p := NthHit(req, raw, Limit(req));
    var k := FromIsSuffix(store, cursor);
    assert all[..p + 1] == raw[..p + 1] && all == all[..p + 1] + all[p + 1..];
    HitsAppend(req, all[..p + 1], all[p + 1..]);
    FromAfter(store, cursor, p);
    assert all[p] == raw[p] && all[p] in all;
  }

  /** A page that runs out of budget resumes right after the last raw entry. */
  lemma ShortPageComplete(store: seq<Entry>, req: Request, cursor: int, raw: seq<Entry>)
    requires InOrder(store) && DistinctTimes(store) && raw <= From(store, cursor) && raw != []
    ensures raw[|raw| - 1].ts >= 0
    ensures Hits(req, From(store, cursor)) == Hits(req, raw) + Hits(req, From(store, raw[|raw| - 1].ts + 1))
  {
    hide Hits, From;
    var all := From(store, cursor);
    var k := FromIsSuffix(store, cursor);
    assert all == raw + all[|raw|..];
    HitsAppend(req, raw, all[|raw|..]);
    FromAfter(store, cursor, |raw| - 1);
    assert all[|raw| - 1] in all;
  }

  lemma PageComplete(store: seq<Entry>, req: Request, cursor: int)
    requires InOrder(store) && DistinctTimes(store)
    ensures var entries, next := PageEntries(store, req, cursor), PageNext(store, req, cursor);
      Hits(req, From(store, cursor)) == if next == 0 then entries else entries + Hits(req, From(store, next))
  {
    hide Examined, Exhausted, Hits, From, InOrder, DistinctTimes;
    var raw := Examined(store, cursor, ROUNDS);
    ExaminedDistinct(store, cursor, ROUNDS);
    if |Hits(req, raw)| >= Limit(req) {
      FullPageComplete(store, req, cursor, raw);
    } else if !Exhausted(store, cursor, ROUNDS) {
      ShortPageComplete(store, req, cursor, raw);
    }
  }

  lemma {:induction false} PagesComplete(store: seq<Entry>, req: Request, cursor: int)
    requires InOrder(store) && DistinctTimes(store)
    ensures AllPages(store, req, cursor) == Hits(req, From(store, cursor))
    decreases |From(store, cursor)|
  {
    PageComplete(store, req, cursor);
    var early := PageStep(store, req, cursor);
    if PageNext(store, req, cursor) != 0 { PagesComplete(store, req, PageNext(store, req, cursor)); }
  }

  // --- in the caller's terms -----------------------------------------------------------------------

  lemma HitsAskedFor(store: seq<Entry>, req: Request)
    requires InOrder(store)
    ensures forall e :: e in Hits(req, From(store, Origin(req))) <==> AskedFor(store, req, e)
  {
    HitsMembers(req, From(store, Origin(req)));
    FromMembers(store, Origin(req));
    hide Hits, From, InOrder;
    forall e: Entry ensures Hit(req, e) && e.ts >= Origin(req) && e in store <==> AskedFor(store, req, e) {
      ContainsIff(e.line, req.query);
    }
  }

  lemma DistinctSuffix(store: seq<Entry>, cursor: int)
    requires InOrder(store) && DistinctTimes(store)
    ensures DistinctTimes(From(store, cursor)) && InOrder(From(store, cursor))
  {
    var k := FromIsSuffix(store, cursor);
  }

  lemma {:induction false} HitsDistinct(req: Request, s: seq<Entry>)
    requires InOrder(s) && DistinctTimes(s)
    ensures DistinctTimes(Hits(req, s))
  {
    if s != [] {
      var front, last := s[..|s| - 1], s[|s| - 1];
      assert forall e <- front :: e in s;
      HitsDistinct(req, front);
      HitsMembers(req, front);
      var hits := Hits(req, front);
      forall i | 0 <= i < |hits| ensures hits[i].ts != last.ts { assert hits[i] in front; }
    }
  }

  /** All pages together: only what was asked for, ascending, and with distinct timestamps all of it, once. */
  lemma AllAskedFor(store: seq<Entry>, req: Request)
    requires InOrder(store)
    ensures var all := AllPages(store, req, Origin(req));
      && (forall e <- all :: AskedFor(store, req, e))
      && (forall i, j | 0 <= i < j < |all| :: all[i].ts <= all[j].ts)
      && (DistinctTimes(store) ==> (forall e :: e in all <==> AskedFor(store, req, e)))
      && (DistinctTimes(store) ==> forall i, j | 0 <= i < j < |all| :: all[i].ts < all[j].ts)
  {
    hide AllPages, Hits, From, AskedFor, Selection, Origin;
    var all, hits := AllPages(store, req, Origin(req)), Hits(req, From(store, Origin(req)));
    HitsAskedFor(store, req);
    PagesAreSelection(store, req, Origin(req));
    forall e | e in all ensures e in hits { SelectionMember(all, hits, e); }
    PagesAscendWithoutRepeats(store, req, Origin(req));
    if DistinctTimes(store) {
      PagesComplete(store, req, Origin(req));
      DistinctSuffix(store, Origin(req));
      HitsDistinct(req, From(store, Origin(req)));
    }
  }

  /**
    A client that calls again with each Next it is given gets only what it asked
    for, in ascending order; with distinct timestamps it gets all of it, once.
   */
  method FollowNext(store: seq<Entry>, req: Request) returns (all: seq<Entry>)
    requires InOrder(store)
    ensures all == AllPages(store, req, Origin(req))
    ensures forall e <- all :: AskedFor(store, req, e)
    ensures forall i, j | 0 <= i < j < |all| :: all[i].ts <= all[j].ts
    ensures DistinctTimes(store) ==> forall e :: e in all <==> AskedFor(store, req, e)
    ensures DistinctTimes(store) ==> forall i, j | 0 <= i < j < |all| :: all[i].ts < all[j].ts
  {
    hide AllPages, AskedFor, DistinctTimes;
    all := CollectPages(store, req);
    AllAskedFor(store, req);
  }

  // --- and only for those ------------------------------------------------------------------------------

  /** Every request, paged from its start, returns every match of its window. */
  ghost predicate AlwaysComplete(store: seq<Entry>)
    requires InOrder(store)
  {
    forall req: Request :: AllPages(store, req, req.start) == Hits(req, From(store, req.start))
  }

  function EveryLine(start: int): Request {
    Request([], "", ContainsMode, start, 1, 0, false)
  }

  /** One entry per page: the first page holds the first entry and skips to the next instant. */
  lemma FirstOfMany(store: seq<Entry>, t: int)
    requires InOrder(store) && From(store, t) != [] && From(store, t)[0].ts == t >= 0
    ensures var req := EveryLine(t);
      PageEntries(store, req, t) == [From(store, t)[0]] && PageNext(store, req, t) == t + 1
  {
    hide Examined, Exhausted, Hits, From, InOrder;
    ExaminedStartsWith(store, t, ROUNDS);
    EveryLineHits(EveryLine(t), Examined(store, t, ROUNDS));
  }

  lemma TieInWindow(store: seq<Entry>, i: nat)
    requires InOrder(store) && i + 1 < |store| && store[i].ts == store[i + 1].ts
    ensures var t := store[i].ts; var all := From(store, t);
      |all| >= 2 && all[0].ts == all[1].ts == t >= 0
  {
    hide From;
    var k := FromIsSuffix(store, store[i].ts);
    assert store[k].ts <= store[i].ts && store[k + 1].ts <= store[i + 1].ts && store[i] in store;
  }

  /** Two entries at one instant, one entry per page: the second is lost. */
  lemma TieIsLost(store: seq<Entry>, i: nat)
    requires InOrder(store) && i + 1 < |store| && store[i].ts == store[i + 1].ts
    ensures var req := EveryLine(store[i].ts);
      AllPages(store, req, store[i].ts) != Hits(req, From(store, store[i].ts))
  {
    hide *;
    var t := store[i].ts;
    var req := EveryLine(t);
    TieInWindow(store, i);
    FirstOfMany(store, t);
    AllPagesUnfold(store, req, t);
    EveryLineAgain(t);
    EveryLineHits(req, From(store, t));
    LaterPages(store, req, t + 1);
    var rest := AllPages(store, req, t + 1);
    assert |rest| > 0 ==> rest[0] in rest;
  }

  lemma EveryLineAgain(t: int)
    ensures EveryLine(t).start == t
  {
  }

  lemma AllPagesUnfold(store: seq<Entry>, req: Request, cursor: int)
    requires InOrder(store) && PageNext(store, req, cursor) != 0
    ensures AllPages(store, req, cursor) ==
            PageEntries(store, req, cursor) + AllPages(store, req, PageNext(store, req, cursor))
  {
    hide Examined, Exhausted, Hits, From, PageNext, PageEntries;
  }

  lemma LaterPages(store: seq<Entry>, req: Request, cursor: int)
    requires InOrder(store)
    ensures forall x <- AllPages(store, req, cursor) :: x.ts >= cursor
  {
    hide AllPages, Examined, Exhausted, Hits, From, PageNext, PageEntries;
    PagesAreSelection(store, req, cursor);
    HitsMembers(req, From(store, cursor));
    var k := FromIsSuffix(store, cursor);
    forall x | x in AllPages(store, req, cursor) ensures x.ts >= cursor {
      SelectionMember(AllPages(store, req, cursor), Hits(req, From(store, cursor)), x);
    }
  }

  lemma {:induction false} EveryLineHits(req: Request, s: seq<Entry>)
    requires req == EveryLine(req.start)
    ensures Hits(req, s) == s
  {
    if s != [] {
      EveryLineHits(req, s[..|s| - 1]);
      assert s == s[..|s| - 1] + [s[|s| - 1]];
    }
  }

  lemma ExaminedStartsWith(store: seq<Entry>, cursor: int, rounds: nat)
    requires From(store, cursor) != [] && rounds > 0
    ensures Examined(store, cursor, rounds) != [] && Examined(store, cursor, rounds)[0] == From(store, cursor)[0]
  {
  }

  /** Pagination loses nothing, for every request, exactly when timestamps are distinct. */
  lemma CompleteIffDistinct(store: seq<Entry>)
    requires InOrder(store)
    ensures AlwaysComplete(store) <==> DistinctTimes(store)
  {
    if DistinctTimes(store) {
      forall req: Request ensures AllPages(store, req, req.start) == Hits(req, From(store, req.start)) {
        PagesComplete(store, req, req.start);
      }
    } else {
      var i, j :| 0 <= i < j < |store| && store[i].ts == store[j].ts;
      assert store[i].ts <= store[i + 1].ts <= store[j].ts;
      TieIsLost(store, i);
      EveryLineAgain(store[i].ts);
    }
  }

  // --- counts ------------------------------------------------------------------------------------------

  function CountSpan(s: seq<Entry>, span: string): nat {
    if s == [] then 0 else CountSpan(s[..|s| - 1], span) + if s[|s| - 1].span == span then 1 else 0
  }

  lemma {:induction false} CountsAreExact(hits: seq<Entry>, span: string)
    requires span != ""
    ensures (if span in SpanCounts(hits) then SpanCounts(hits)[span] else 0) == CountSpan(hits, span)
    ensures span in SpanCounts(hits) <==> CountSpan(hits, span) > 0
  {
    if hits != [] { CountsAreExact(hits[..|hits| - 1], span); }
  }

  lemma {:induction false} HitsIgnoreCounting(req: Request, counting: bool, s: seq<Entry>)
    ensures Hits(req.(includeCounts := counting), s) == Hits(req, s)
  {
    if s != [] { HitsIgnoreCounting(req, counting, s[..|s| - 1]); }
  }

  /** Asking for counts changes neither the entries of a page nor its Next cursor. */
  lemma CountingChangesNoPage(store: seq<Entry>, req: Request, counting: bool, cursor: int)
    ensures PageEntries(store, req.(includeCounts := counting), cursor) == PageEntries(store, req, cursor)
    ensures PageNext(store, req.(includeCounts := counting), cursor) == PageNext(store, req, cursor)
  {
    hide Examined, Exhausted, Hits;
    HitsIgnoreCounting(req, counting, Examined(store, cursor, ROUNDS));
  }

  /** With distinct timestamps the counted entries are the first 5000 of the window. */
  lemma CountedWindow(store: seq<Entry>, req: Request)
    requires InOrder(store) && DistinctTimes(store)
    ensures Examined(store, Origin(req), ROUNDS) == Take(From(store, Origin(req)), 5000)
  {
    ExaminedDistinct(store, Origin(req), ROUNDS);
  }
}
