/**
  The live-event hub: subscriptions change under the write lock, broadcasts send
  under the read lock, and one pump per client drains its bounded channel.

  A run is any sequence of events. A broadcast is a start, one non-blocking send
  per subscriber in any order, and a finish; several may overlap, and pumps run
  in between. Broadcasts are numbered as they take the read lock, and a channel
  carries numbers, which stand for the message with that number in the log.
  Panics of the channel operations are recorded in the state.
 */
module LiveHub {
  import opened Selections

  const CAPACITY: nat := 256

  type Topic = string
  type Client = string

  datatype Post = Post(topic: Topic, text: string)

  /**
    A client's channel and pump: what was offered to it, accepted into it and
    received from it; the topic, and the length of the log on joining and leaving.
   */
  datatype Chan = Chan(
    home: Topic,
    base: nat,
    left: nat,
    buffer: seq<nat>,
    closed: bool,
    pumps: nat,
    doneClosed: bool,
    offered: seq<nat>,
    accepted: seq<nat>,
    received: seq<nat>,
    lost: bool)

  const NEW_CHAN := Chan("", 0, 0, [], false, 0, false, [], [], [], false)

  /** `casts` holds the broadcasts in progress with the clients still to be served. */
  datatype Hub = Hub(
    topics: map<Topic, set<Client>>,
    chans: map<Client, Chan>,
    casts: map<nat, set<Client>>,
    log: seq<Post>,
    panicked: bool)

  const EMPTY_HUB := Hub(map[], map[], map[], [], false)

  datatype Event =
    | Subscribe(topic: Topic, client: Client)
    | Unsubscribe(topic: Topic, client: Client)
    | Start(topic: Topic, text: string)
    | Send(no: nat, client: Client)
    | Finish(no: nat)
    | Receive(client: Client)
    | WriteError(client: Client)

  function ChanOf(h: Hub, c: Client): Chan {
    if c in h.chans then h.chans[c] else NEW_CHAN
  }

  function Put(h: Hub, c: Client, ch: Chan): Hub {
    h.(chans := h.chans[c := ch])
  }

  /** The write lock is free only when no broadcast is in progress. */
  predicate Writable(h: Hub) {
    h.casts == map[]
  }

  function SubscribeStep(h: Hub, t: Topic, c: Client): Hub {
    var ch := ChanOf(h, c);
    Put(h, c, ch.(pumps := ch.pumps + 1, home := t, base := |h.log|))
      .(topics := h.topics[t := (if t in h.topics then h.topics[t] else {}) + {c}])
  }

  function UnsubscribeStep(h: Hub, t: Topic, c: Client): Hub {
    if t !in h.topics then h
    else
      var rest := h.topics[t] - {c};
      var topics := if rest == {} then h.topics - {t} else h.topics[t := rest];
      if c in h.topics[t] then
        var ch := ChanOf(h, c);
        Put(h, c, ch.(closed := true, left := |h.log|)).(topics := topics, panicked := h.panicked || ch.closed)
      else h.(topics := topics)
  }

  function StartStep(h: Hub, t: Topic, text: string): Hub {
    var logged := h.(log := h.log + [Post(t, text)]);
    if t in h.topics then logged.(casts := h.casts[|h.log| := h.topics[t]]) else logged
  }

  /** Non-blocking: a full buffer skips the client. Sending on a closed channel panics. */
  function Offer(ch: Chan, no: nat): Chan {
    if |ch.buffer| < CAPACITY then
      ch.(buffer := ch.buffer + [no], offered := ch.offered + [no], accepted := ch.accepted + [no])
    else ch.(offered := ch.offered + [no], lost := true)
  }

  function SendStep(h: Hub, no: nat, c: Client): Hub {
    if !Pending(h, c, no) then h
    else
      var ch := ChanOf(h, c);
      Put(h, c, Offer(ch, no)).(casts := h.casts[no := h.casts[no] - {c}], panicked := h.panicked || ch.closed)
  }

  /** A pump leaves: it closes `done`, which must happen once. */
  function PumpExit(h: Hub, c: Client): Hub {
    var ch := ChanOf(h, c);
    if ch.pumps == 0 then h
    else Put(h, c, ch.(pumps := ch.pumps - 1, doneClosed := true)).(panicked := h.panicked || ch.doneClosed)
  }

  function ReceiveStep(h: Hub, c: Client): Hub {
    var ch := ChanOf(h, c);
    if ch.pumps == 0 then h
    else if ch.buffer != [] then Put(h, c, ch.(buffer := ch.buffer[1..], received := ch.received + [ch.buffer[0]]))
    else if ch.closed then PumpExit(h, c)
    else h
  }

  function FinishStep(h: Hub, no: nat): Hub {
    if no in h.casts && h.casts[no] == {} then h.(casts := h.casts - {no}) else h
  }

  function Step(h: Hub, e: Event): Hub {
    match e
    case Subscribe(t, c) => if Writable(h) then SubscribeStep(h, t, c) else h
    case Unsubscribe(t, c) => if Writable(h) then UnsubscribeStep(h, t, c) else h
    case Start(t, text) => StartStep(h, t, text)
    case Send(no, c) => SendStep(h, no, c)
    case Finish(no) => FinishStep(h, no)
    case Receive(c) => ReceiveStep(h, c)
    case WriteError(c) => PumpExit(h, c)
  }

  function Exec(h: Hub, run: seq<Event>): Hub
    decreases |run|
  {
    if run == [] then h else Exec(Step(h, run[0]), run[1..])
  }

  // --- the invariant --------------------------------------------------------------------

  predicate Pending(h: Hub, c: Client, no: nat) {
    no in h.casts && c in h.casts[no]
  }

  /** Where the client's stay on its topic ends, as far as the log goes. */
  function Until(log: seq<Post>, ch: Chan): nat {
    if ch.closed then ch.left else |log|
  }

  /** Broadcasts of the client's topic during its stay. */
  predicate Due(log: seq<Post>, ch: Chan, no: nat) {
    ch.base <= no < Until(log, ch) && no < |log| && log[no].topic == ch.home
  }

  predicate Distinct(s: seq<nat>) {
    forall i, j | 0 <= i < j < |s| :: s[i] != s[j]
  }

  predicate ChanOk(ch: Chan) {
    && |ch.buffer| <= 256
    && ch.accepted == ch.received + ch.buffer
    && Selection(ch.accepted, ch.offered)
    && (!ch.lost ==> ch.accepted == ch.offered)
    && ch.pumps + (if ch.doneClosed then 1 else 0) == 1
  }

  /** Offered once each: what is due, except what is still pending. */
  ghost predicate OffersOk(h: Hub, c: Client, ch: Chan) {
    && Distinct(ch.offered)
    && ch.base <= Until(h.log, ch) <= |h.log|
    && (forall no :: no in ch.offered <==> Due(h.log, ch, no) && !Pending(h, c, no))
  }

  predicate Subscribed(h: Hub, t: Topic, c: Client) {
    t in h.topics && c in h.topics[t]
  }

  ghost predicate TopicsOk(h: Hub) {
    && (forall t <- h.topics :: h.topics[t] != {})
    && (forall t, c :: Subscribed(h, t, c) <==> c in h.chans && !h.chans[c].closed && h.chans[c].home == t)
  }

  /** A pending send is due to a subscriber. */
  ghost predicate PendingOk(h: Hub, c: Client, no: nat) {
    no < |h.log| && Subscribed(h, h.log[no].topic, c) && c in h.chans && Due(h.log, h.chans[c], no)
  }

  ghost predicate CastsOk(h: Hub) {
    && (forall no <- h.casts :: no < |h.log|)
    && (forall no: nat, c | Pending(h, c, no) :: PendingOk(h, c, no))
  }

  ghost predicate ChansOk(h: Hub) {
    forall c <- h.chans :: ChanOk(h.chans[c]) && OffersOk(h, c, h.chans[c])
  }

  ghost predicate Inv(h: Hub) {
    !h.panicked && TopicsOk(h) && CastsOk(h) && ChansOk(h)
  }

  lemma OfferOk(ch: Chan, no: nat)
    requires ChanOk(ch)
    ensures ChanOk(Offer(ch, no))
  {
    SelectionSelf([no]);
    if |ch.buffer| < CAPACITY {
      SelectionAppend(ch.accepted, ch.offered, [no], [no]);
    } else {
      SelectionAppend(ch.accepted, ch.offered, [], [no]);
      assert ch.accepted + [] == ch.accepted;
    }
  }

  /** A step that leaves log, pending sends and the client's stay and offers alone keeps the offers sound. */
  lemma OffersFrame(h: Hub, g: Hub, c: Client, ch: Chan, dh: Chan)
    requires OffersOk(h, c, ch) && g.log == h.log
    requires dh.(buffer := ch.buffer, pumps := ch.pumps, doneClosed := ch.doneClosed, received := ch.received) == ch
    requires forall no :: Pending(g, c, no) == Pending(h, c, no)
    ensures OffersOk(g, c, dh)
  {
    assert forall no :: Due(g.log, dh, no) == Due(h.log, ch, no);
  }

  /** When one channel is replaced and no send begins or ends, the others stay sound. */
  lemma ChansFrame(h: Hub, g: Hub, c: Client, dh: Chan)
    requires ChansOk(h) && g.log == h.log && g.chans == h.chans[c := dh]
    requires ChanOk(dh) && OffersOk(g, c, dh)
    requires forall no: nat, d | d != c :: Pending(g, d, no) == Pending(h, d, no)
    ensures ChansOk(g)
  {
    hide ChanOk, Pending;
    forall d <- g.chans ensures ChanOk(g.chans[d]) && OffersOk(g, d, g.chans[d]) {
      if d != c { OffersFrame(h, g, d, h.chans[d], h.chans[d]); }
    }
  }

  lemma SubscribeInv(h: Hub, t: Topic, c: Client)
    requires Inv(h) && Writable(h) && c !in h.chans
    ensures Inv(SubscribeStep(h, t, c))
  {
    var g := SubscribeStep(h, t, c);
    var ch := NEW_CHAN.(pumps := 1, home := t, base := |h.log|);
    assert ChanOk(ch) && OffersOk(g, c, ch);
    ChansFrame(h, g, c, ch);
    hide ChansOk, ChanOk, OffersOk;
    assert TopicsOk(g) by {
      assert forall u, d :: Subscribed(g, u, d) <==> Subscribed(h, u, d) || (u == t && d == c);
    }
  }

  lemma UnsubscribeInv(h: Hub, t: Topic, c: Client)
    requires Inv(h) && Writable(h)
    ensures Inv(UnsubscribeStep(h, t, c))
  {
    if Subscribed(h, t, c) {
      var g, ch := UnsubscribeStep(h, t, c), h.chans[c];
      var dh := ch.(closed := true, left := |h.log|);
      assert forall no :: Due(g.log, dh, no) == Due(h.log, ch, no);
      assert ChanOk(dh) && OffersOk(g, c, dh);
      ChansFrame(h, g, c, dh);
      hide ChansOk, ChanOk, OffersOk;
      assert TopicsOk(g) by {
        assert forall u, d :: Subscribed(g, u, d) <==> Subscribed(h, u, d) && !(u == t && d == c);
      }
    } else if t in h.topics {
      assert h.topics[t] - {c} == h.topics[t];
      assert h.topics[t := h.topics[t]] == h.topics;
    }
  }

  lemma StartOffers(h: Hub, t: Topic, text: string, c: Client)
    requires Inv(h) && c in h.chans
    ensures OffersOk(StartStep(h, t, text), c, h.chans[c])
  {
    var g, ch, n := StartStep(h, t, text), h.chans[c], |h.log|;
    assert OffersOk(h, c, ch);
    hide ChansOk;
    forall no: nat | no != n
      ensures Due(g.log, ch, no) == Due(h.log, ch, no) && Pending(g, c, no) == Pending(h, c, no)
    {
    }
    assert Due(g.log, ch, n) == Subscribed(h, t, c) == Pending(g, c, n);
  }

  lemma StartInv(h: Hub, t: Topic, text: string)
    requires Inv(h)
    ensures Inv(StartStep(h, t, text))
  {
    var g := StartStep(h, t, text);
    forall c <- h.chans ensures OffersOk(g, c, h.chans[c]) { StartOffers(h, t, text, c); }
    assert forall c <- h.chans :: h.chans[c].base <= |h.log|;
    hide ChanOk, OffersOk;
    assert TopicsOk(g) by { assert forall u, d :: Subscribed(g, u, d) == Subscribed(h, u, d); }
    assert CastsOk(g) by {
      forall no: nat, c | Pending(g, c, no) ensures PendingOk(g, c, no) {
        if no != |h.log| { assert Pending(h, c, no); } else { assert Subscribed(h, t, c); }
      }
    }
  }

  lemma SendOffers(h: Hub, no: nat, c: Client, ch: Chan)
    requires OffersOk(h, c, ch) && Pending(h, c, no) && Due(h.log, ch, no) && h.log == SendStep(h, no, c).log
    ensures OffersOk(SendStep(h, no, c), c, Offer(ch, no))
  {
    var g, dh := SendStep(h, no, c), Offer(ch, no);
    assert no !in ch.offered && dh.offered == ch.offered + [no];
    forall k: nat
      ensures Due(g.log, dh, k) == Due(h.log, ch, k)
      ensures Pending(g, c, k) == (Pending(h, c, k) && k != no)
    {
    }
    hide Pending, Due, SendStep, Offer;
  }

  lemma SendInv(h: Hub, no: nat, c: Client)
    requires Inv(h)
    ensures Inv(SendStep(h, no, c))
  {
    if Pending(h, c, no) {
      var g, ch := SendStep(h, no, c), h.chans[c];
      var dh := Offer(ch, no);
      assert dh.home == ch.home && dh.closed == ch.closed && dh.base == ch.base && dh.left == ch.left;
      OfferOk(ch, no);
      assert PendingOk(h, c, no);
      SendOffers(h, no, c, ch);
      hide ChanOk, OffersOk, Offer;
      assert ChansOk(g) by { ChansFrame(h, g, c, dh); }
      hide ChansOk;
      assert TopicsOk(g) by { assert forall u, d :: Subscribed(g, u, d) == Subscribed(h, u, d); }
      assert CastsOk(g) by {
        forall k: nat, d | Pending(g, d, k) ensures PendingOk(g, d, k) { assert Pending(h, d, k); }
      }
    }
  }

  lemma FinishInv(h: Hub, no: nat)
    requires Inv(h)
    ensures Inv(FinishStep(h, no))
  {
    var g := FinishStep(h, no);
    assert forall k: nat, d :: Pending(g, d, k) == Pending(h, d, k);
    forall c <- h.chans ensures OffersOk(g, c, h.chans[c]) { OffersFrame(h, g, c, h.chans[c], h.chans[c]); }
    hide ChanOk, OffersOk, Pending;
    assert TopicsOk(g) by { assert forall u, d :: Subscribed(g, u, d) == Subscribed(h, u, d); }
    assert CastsOk(g) by {
      forall k: nat, d | Pending(g, d, k) ensures PendingOk(g, d, k) { assert PendingOk(h, d, k); }
    }
  }

  /** A pump's step on its own channel. */
  lemma PumpInv(h: Hub, c: Client, dh: Chan)
    requires Inv(h) && c in h.chans && ChanOk(dh)
    requires var ch := h.chans[c];
      dh.(buffer := ch.buffer, pumps := ch.pumps, doneClosed := ch.doneClosed, received := ch.received) == ch
    ensures Inv(Put(h, c, dh))
  {
    var g := Put(h, c, dh);
    assert forall k: nat, d :: Pending(g, d, k) == Pending(h, d, k);
    OffersFrame(h, g, c, h.chans[c], dh);
    ChansFrame(h, g, c, dh);
    hide ChansOk, ChanOk, OffersOk, Pending;
    assert TopicsOk(g) by { assert forall u, d :: Subscribed(g, u, d) == Subscribed(h, u, d); }
    assert CastsOk(g) by {
      forall k: nat, d | Pending(g, d, k) ensures PendingOk(g, d, k) { assert PendingOk(h, d, k); }
    }
  }

  lemma PumpExitInv(h: Hub, c: Client)
    requires Inv(h)
    ensures Inv(PumpExit(h, c))
  {
    var ch := ChanOf(h, c);
    if ch.pumps > 0 { PumpInv(h, c, ch.(pumps := ch.pumps - 1, doneClosed := true)); }
  }

  lemma ReceiveInv(h: Hub, c: Client)
    requires Inv(h)
    ensures Inv(ReceiveStep(h, c))
  {
    PumpExitInv(h, c);
    var ch := ChanOf(h, c);
    if ch.pumps > 0 && ch.buffer != [] {
      assert (ch.received + [ch.buffer[0]]) + ch.buffer[1..] == ch.received + ch.buffer;
      PumpInv(h, c, ch.(buffer := ch.buffer[1..], received := ch.received + [ch.buffer[0]]));
    }
    hide Inv;
  }

  lemma StepInv(h: Hub, e: Event)
    requires Inv(h) && (e.Subscribe? ==> e.client !in h.chans)
    ensures Inv(Step(h, e))
  {
    hide Inv;
    match e
    case Subscribe(t, c) => if Writable(h) { SubscribeInv(h, t, c); }
    case Unsubscribe(t, c) => if Writable(h) { UnsubscribeInv(h, t, c); }
    case Start(t, text) => StartInv(h, t, text);
    case Send(no, c) => SendInv(h, no, c);
    case Finish(no) => FinishInv(h, no);
    case Receive(c) => ReceiveInv(h, c);
    case WriteError(c) => PumpExitInv(h, c);
  }

  /** Each client is handed to Subscribe at most once in the run, and to nobody in `used`. */
  ghost predicate SubscribesOnce(run: seq<Event>, used: set<Client>)
    decreases |run|
  {
    run == [] ||
    (if run[0].Subscribe?
     then run[0].client !in used && SubscribesOnce(run[1..], used + {run[0].client})
     else SubscribesOnce(run[1..], used))
  }

  /** Only subscribed clients have a channel in use. */
  lemma StepChans(h: Hub, e: Event)
    requires Inv(h)
    ensures Step(h, e).chans.Keys <= h.chans.Keys + (if e.Subscribe? then {e.client} else {})
  {
    if e.Send? && Pending(h, e.client, e.no) { assert PendingOk(h, e.client, e.no); }
    if e.Unsubscribe? && Subscribed(h, e.topic, e.client) { assert e.client in h.chans; }
  }

  /** Every interleaving: no send after close, no double close, no empty topic, sound channels. */
  lemma {:induction false} HubIsSafe(h: Hub, run: seq<Event>, used: set<Client>)
    requires Inv(h) && h.chans.Keys <= used && SubscribesOnce(run, used)
    ensures Inv(Exec(h, run))
    decreases |run|
  {
    if run != [] {
      var e := run[0];
      StepInv(h, e);
      StepChans(h, e);
      HubIsSafe(Step(h, e), run[1..], if e.Subscribe? then used + {e.client} else used);
    }
  }

  /**
    Every interleaving: what a client was offered is each broadcast of its topic
    during its stay exactly once, except those whose send to it is still to come.
   */
  lemma OfferedOnce(run: seq<Event>, c: Client, no: nat)
    requires SubscribesOnce(run, {})
    ensures var h := Exec(EMPTY_HUB, run); var ch := ChanOf(h, c);
      && Distinct(ch.offered)
      && (c in h.chans ==> (no in ch.offered <==> Due(h.log, ch, no) && !Pending(h, c, no)))
      && (c in h.chans && Writable(h) ==> (no in ch.offered <==> Due(h.log, ch, no)))
  {
    HubIsSafe(EMPTY_HUB, run, {});
    var h := Exec(EMPTY_HUB, run);
    if c in h.chans { assert OffersOk(h, c, h.chans[c]); }
  }

  /** What a client has received is an in-order selection of its offers, complete once drained if nothing was lost. */
  lemma ReceivedInOrder(run: seq<Event>, c: Client)
    requires SubscribesOnce(run, {})
    ensures var ch := ChanOf(Exec(EMPTY_HUB, run), c);
      && Selection(ch.received, ch.offered)
      && (!ch.lost ==> ch.received + ch.buffer == ch.offered)
      && |ch.buffer| <= 256
  {
    HubIsSafe(EMPTY_HUB, run, {});
    var h := Exec(EMPTY_HUB, run);
    var ch := ChanOf(h, c);
    if c in h.chans { assert ChanOk(h.chans[c]); }
    assert ch.accepted[..|ch.received|] == ch.received;
    PrefixSelection(ch.accepted, |ch.received|, ch.offered);
  }

  /** Entry k of the run is a send to the client that finds its buffer full. */
  ghost predicate FullAt(h: Hub, run: seq<Event>, k: nat, c: Client)
    requires k < |run|
  {
    var g, e := Exec(h, run[..k]), run[k];
    e.Send? && e.client == c && Pending(g, c, e.no) && |ChanOf(g, c).buffer| >= 256
  }

  lemma LossStep(h: Hub, e: Event, c: Client)
    ensures ChanOf(Step(h, e), c).lost <==>
      ChanOf(h, c).lost || (e.Send? && e.client == c && Pending(h, c, e.no) && |ChanOf(h, c).buffer| >= CAPACITY)
  {
  }

  /** In every run, a client has lost a message if and only if some send found 256 messages waiting. */
  lemma {:induction false} LossIffFullBuffer(h: Hub, run: seq<Event>, c: Client)
    ensures ChanOf(Exec(h, run), c).lost <==> ChanOf(h, c).lost || exists k: nat | k < |run| :: FullAt(h, run, k, c)
    decreases |run|
  {
    hide Step, Pending;
    if run != [] {
      var g := Step(h, run[0]);
      LossStep(h, run[0], c);
      LossIffFullBuffer(g, run[1..], c);
      assert run[..0] == [];
      assert ChanOf(g, c).lost <==> ChanOf(h, c).lost || FullAt(h, run, 0, c);
      forall k: nat | k < |run| - 1 ensures FullAt(g, run[1..], k, c) == FullAt(h, run, k + 1, c) {
        assert run[..k + 1][1..] == run[1..][..k];
      }
      if k: nat :| k < |run| && FullAt(h, run, k, c) {
        if k > 0 { assert FullAt(g, run[1..], k - 1, c); }
      }
      if k: nat :| k < |run| - 1 && FullAt(g, run[1..], k, c) { assert FullAt(h, run, k + 1, c); }
    }
  }

  // --- order across broadcasts --------------------------------------------------------------

  predicate Ascending(s: seq<nat>) {
    forall i, j | 0 <= i < j < |s| :: s[i] < s[j]
  }

  lemma AscendingSnoc(s: seq<nat>, x: nat)
    requires Ascending(s) && forall k | k in s :: k < x
    ensures Ascending(s + [x])
  {
    var t := s + [x];
    forall i, j | 0 <= i < j < |t| ensures t[i] < t[j] { assert t[i] == s[i] && s[i] in s; }
  }

  /** Nobody on the topic is waiting for an earlier broadcast. */
  ghost predicate Served(h: Hub, t: Topic) {
    forall c, no: nat | Subscribed(h, t, c) :: !Pending(h, c, no)
  }

  /** Every broadcast of the run starts when the earlier ones have served its topic. */
  ghost predicate Serial(h: Hub, run: seq<Event>)
    decreases |run|
  {
    run == [] || ((run[0].Start? ==> Served(h, run[0].topic)) && Serial(Step(h, run[0]), run[1..]))
  }

  ghost predicate InOrderFor(h: Hub, c: Client) {
    && Ascending(ChanOf(h, c).offered)
    && (forall i: nat, j: nat | Pending(h, c, i) && Pending(h, c, j) :: i == j)
    && (forall no: nat, k | Pending(h, c, no) && k in ChanOf(h, c).offered :: k < no)
  }

  /** Steps other than starts and the client's own sends neither add offers nor pending sends. */
  lemma InOrderFrame(h: Hub, g: Hub, c: Client)
    requires InOrderFor(h, c) && ChanOf(g, c).offered == ChanOf(h, c).offered
    requires forall no: nat :: Pending(g, c, no) ==> Pending(h, c, no)
    ensures InOrderFor(g, c)
  {
  }

  lemma InOrderSend(h: Hub, no: nat, c: Client)
    requires InOrderFor(h, c) && Pending(h, c, no)
    ensures InOrderFor(SendStep(h, no, c), c)
  {
    var g := SendStep(h, no, c);
    assert ChanOf(g, c).offered == ChanOf(h, c).offered + [no];
    AscendingSnoc(ChanOf(h, c).offered, no);
    assert forall k: nat :: Pending(g, c, k) == (Pending(h, c, k) && k != no);
  }

  lemma OffersLogged(h: Hub, c: Client)
    requires ChansOk(h)
    ensures forall k | k in ChanOf(h, c).offered :: k < |h.log|
  {
    if c in h.chans { assert OffersOk(h, c, h.chans[c]); }
  }

  /** A start adds one pending send for each subscriber and no offer. */
  lemma StartPends(h: Hub, t: Topic, text: string, c: Client, k: nat)
    requires CastsOk(h)
    ensures Pending(StartStep(h, t, text), c, k) == if k == |h.log| then Subscribed(h, t, c) else Pending(h, c, k)
    ensures ChanOf(StartStep(h, t, text), c) == ChanOf(h, c)
  {
  }

  lemma InOrderStart(h: Hub, t: Topic, text: string, c: Client)
    requires Inv(h) && InOrderFor(h, c) && Served(h, t)
    ensures InOrderFor(StartStep(h, t, text), c)
  {
    var g, n := StartStep(h, t, text), |h.log|;
    OffersLogged(h, c);
    hide StartStep, ChansOk, CastsOk, TopicsOk, Pending, ChanOf, Subscribed, Ascending;
    forall k: nat ensures Pending(g, c, k) == if k == n then Subscribed(h, t, c) else Pending(h, c, k) {
      StartPends(h, t, text, c, k);
    }
    StartPends(h, t, text, c, n);
  }

  lemma InOrderStep(h: Hub, e: Event, c: Client)
    requires Inv(h) && InOrderFor(h, c) && (e.Start? ==> Served(h, e.topic))
    requires e.Subscribe? ==> e.client !in h.chans
    ensures InOrderFor(Step(h, e), c)
  {
    match e
    case Start(t, text) => InOrderStart(h, t, text, c);
    case Send(no, d) =>
      if d == c && Pending(h, c, no) { InOrderSend(h, no, c); } else { InOrderFrame(h, Step(h, e), c); }
    case _ => InOrderFrame(h, Step(h, e), c);
  }

  /** Broadcasts that do not overlap on a client are offered to it in order. */
  lemma {:induction false} SerialKeepsOrder(h: Hub, run: seq<Event>, used: set<Client>, c: Client)
    requires Inv(h) && h.chans.Keys <= used && SubscribesOnce(run, used)
    requires InOrderFor(h, c) && Serial(h, run)
    ensures InOrderFor(Exec(h, run), c)
    decreases |run|
  {
    if run != [] {
      var e := run[0];
      StepInv(h, e);
      StepChans(h, e);
      InOrderStep(h, e, c);
      SerialKeepsOrder(Step(h, e), run[1..], if e.Subscribe? then used + {e.client} else used, c);
    }
  }

  lemma ExecThree(h: Hub, a: Event, b: Event, c: Event)
    ensures Exec(h, [a, b, c]) == Step(Step(Step(h, a), b), c)
  {
    hide Step;
    assert [a, b, c][1..] == [b, c] && [b, c][1..] == [c] && [c][1..] == [];
    assert Exec(Step(h, a), [b, c]) == Exec(Step(Step(h, a), b), [c]);
  }

  lemma SendAppends(h: Hub, c: Client, no: nat, k: nat)
    requires Pending(h, c, no)
    ensures ChanOf(SendStep(h, no, c), c).offered == ChanOf(h, c).offered + [no]
    ensures k != no ==> Pending(SendStep(h, no, c), c, k) == Pending(h, c, k)
  {
  }

  /** A start while a subscriber still waits can be followed by sends that reorder its offers. */
  lemma OverlapReorders(h: Hub, t: Topic, text: string, c: Client, no: nat)
    requires Inv(h) && Subscribed(h, t, c) && Pending(h, c, no)
    ensures !Ascending(ChanOf(Exec(h, [Start(t, text), Send(|h.log|, c), Send(no, c)]), c).offered)
  {
    var n, s := |h.log|, ChanOf(h, c).offered;
    hide ChansOk, TopicsOk;
    ExecThree(h, Start(t, text), Send(n, c), Send(no, c));
    var h1 := StartStep(h, t, text);
    assert no < n && Pending(h1, c, n) && Pending(h1, c, no) && ChanOf(h1, c).offered == s;
    hide CastsOk, Exec, StartStep, SendStep, Pending, ChanOf;
    SendAppends(h1, c, n, no);
    SendAppends(SendStep(h1, n, c), c, no, n);
    var r := s + [n] + [no];
    assert r[|s|] == n && r[|s| + 1] == no;
  }

  /** The broadcasts of a topic among the numbers `from <= no < to`. */
  function Window(log: seq<Post>, t: Topic, from: nat, to: nat): seq<nat>
    requires from <= to <= |log|
  {
    if from == to then []
    else Window(log, t, from, to - 1) + (if log[to - 1].topic == t then [to - 1] else [])
  }

  lemma {:induction false} WindowMembers(log: seq<Post>, t: Topic, from: nat, to: nat)
    requires from <= to <= |log|
    ensures Ascending(Window(log, t, from, to))
    ensures forall no :: no in Window(log, t, from, to) <==> from <= no < to && log[no].topic == t
  {
    if from < to {
      WindowMembers(log, t, from, to - 1);
      AscendingSnoc(Window(log, t, from, to - 1), to - 1);
    }
  }

  lemma {:induction false} AscendingUnique(a: seq<nat>, b: seq<nat>)
    requires Ascending(a) && Ascending(b) && forall x :: x in a <==> x in b
    ensures a == b
  {
    if a != [] || b != [] {
      var x := if a != [] then a[0] else b[0];
      assert x in a && x in b;
      var m, n := |a| - 1, |b| - 1;
      assert a[m] in b && b[n] in a;
      assert a[m] == b[n];
      forall x ensures x in a[..m] <==> x in b[..n] {
        assert x in a[..m] ==> x in a && x != a[m];
        assert x in b[..n] ==> x in b && x != b[n];
        assert x in a ==> x in a[..m] || x == a[m];
        assert x in b ==> x in b[..n] || x == b[n];
      }
      AscendingUnique(a[..m], b[..n]);
      assert a == a[..m] + [a[m]] && b == b[..n] + [b[n]];
    }
  }

  lemma OfferedIsWindow(h: Hub, c: Client)
    requires Inv(h) && c in h.chans && Ascending(h.chans[c].offered) && forall no: nat :: !Pending(h, c, no)
    ensures var ch := h.chans[c];
      ch.base <= Until(h.log, ch) <= |h.log| && ch.offered == Window(h.log, ch.home, ch.base, Until(h.log, ch))
  {
    var ch := h.chans[c];
    assert OffersOk(h, c, ch);
    hide ChansOk, TopicsOk, CastsOk;
    WindowMembers(h.log, ch.home, ch.base, Until(h.log, ch));
    AscendingUnique(ch.offered, Window(h.log, ch.home, ch.base, Until(h.log, ch)));
  }

  /**
    Without overlap and with nothing pending, a client was offered exactly its
    topic's broadcasts between joining and leaving, in order; it received them
    all, up to what still waits in its buffer, unless the buffer was ever full.
   */
  lemma StreamDelivered(run: seq<Event>, c: Client)
    requires SubscribesOnce(run, {}) && Serial(EMPTY_HUB, run)
    ensures var h := Exec(EMPTY_HUB, run);
      c in h.chans && (forall no: nat :: !Pending(h, c, no)) ==>
        var ch := h.chans[c];
        && ch.base <= Until(h.log, ch) <= |h.log|
        && ch.offered == Window(h.log, ch.home, ch.base, Until(h.log, ch))
        && Selection(ch.received, ch.offered)
        && ((forall k: nat | k < |run| :: !FullAt(EMPTY_HUB, run, k, c)) ==> ch.received + ch.buffer == ch.offered)
  {
    LossIffFullBuffer(EMPTY_HUB, run, c);
    SerialKeepsOrder(EMPTY_HUB, run, {}, c);
    HubIsSafe(EMPTY_HUB, run, {});
    ReceivedInOrder(run, c);
    hide Inv, Serial, SubscribesOnce, Exec, Step, Selection, Ascending, Window, Until, FullAt;
    var h := Exec(EMPTY_HUB, run);
    if c in h.chans && (forall no: nat :: !Pending(h, c, no)) { OfferedIsWindow(h, c); }
  }

  // --- why a client may subscribe only once -------------------------------------------------

  predicate NoSubscribe(run: seq<Event>) {
    forall e <- run :: !e.Subscribe?
  }

  lemma {:induction false} NoSubscribeOnce(run: seq<Event>, used: set<Client>)
    requires NoSubscribe(run)
    ensures SubscribesOnce(run, used)
    decreases |run|
  {
    if run != [] { NoSubscribeOnce(run[1..], used); }
  }

  lemma ExecTwo(h: Hub, a: Event, b: Event)
    ensures Exec(h, [a, b]) == Step(Step(h, a), b)
  {
    hide Step;
    assert [a, b][1..] == [b] && [b][1..] == [];
    assert Exec(Step(h, a), [b]) == Exec(Step(Step(h, a), b), []);
  }

  /** A broadcast to a subscriber whose channel is closed. */
  lemma SendToClosed(h: Hub, t: Topic, c: Client)
    requires Subscribed(h, t, c) && c in h.chans && h.chans[c].closed
    ensures Step(StartStep(h, t, ""), Send(|h.log|, c)).panicked
  {
    assert Pending(StartStep(h, t, ""), c, |h.log|);
  }

  /** On a second topic: leaving the first closes the channel under the second. */
  lemma LeaveThenSend(h: Hub, t: Topic, home: Topic, c: Client)
    requires Writable(h) && home != t && Subscribed(h, home, c) && Subscribed(h, t, c) && c in h.chans
    ensures Step(StartStep(UnsubscribeStep(h, home, c), t, ""), Send(|h.log|, c)).panicked
  {
    var g := UnsubscribeStep(h, home, c);
    assert Subscribed(g, t, c) && g.chans[c].closed && g.log == h.log;
    SendToClosed(g, t, c);
  }

  /** Two pumps on one client: the second to leave closes `done` again. */
  lemma PumpsCollide(h: Hub, c: Client)
    requires c in h.chans && h.chans[c].pumps + (if h.chans[c].doneClosed then 1 else 0) == 2
    ensures PumpExit(PumpExit(h, c), c).panicked
  {
  }

  lemma SecondSubscribePanics(h: Hub, t: Topic, c: Client) returns (run: seq<Event>)
    requires Inv(h) && Writable(h) && c in h.chans
    ensures NoSubscribe(run) && Exec(SubscribeStep(h, t, c), run).panicked
  {
    var g, ch := SubscribeStep(h, t, c), h.chans[c];
    assert ChanOk(ch) && (!ch.closed ==> Subscribed(h, ch.home, c));
    assert Subscribed(g, t, c) && Writable(g) && g.log == h.log && g.chans[c] == ch.(pumps := ch.pumps + 1, home := t, base := |h.log|);
    assert !ch.closed && ch.home != t ==> Subscribed(g, ch.home, c);
    hide Inv, SubscribeStep, Subscribed, StartStep, UnsubscribeStep, SendStep, PumpExit, ChanOk, Selection;
    assert ch.pumps + (if ch.doneClosed then 1 else 0) == 1;
    if ch.closed {
      run := [Start(t, ""), Send(|h.log|, c)];
      SendToClosed(g, t, c);
      ExecTwo(g, run[0], run[1]);
    } else if ch.home != t {
      run := [Unsubscribe(ch.home, c), Start(t, ""), Send(|h.log|, c)];
      LeaveThenSend(g, t, ch.home, c);
      ExecThree(g, run[0], run[1], run[2]);
    } else {
      run := [WriteError(c), WriteError(c)];
      PumpsCollide(g, c);
      ExecTwo(g, run[0], run[1]);
    }
  }

  /** Exactly the first subscription of a client is safe, whatever follows it. */
  lemma SubscribeSafeIff(h: Hub, t: Topic, c: Client)
    requires Inv(h) && Writable(h)
    ensures (forall run | NoSubscribe(run) :: !Exec(SubscribeStep(h, t, c), run).panicked) <==> c !in h.chans
  {
    if c in h.chans {
      var run := SecondSubscribePanics(h, t, c);
      assert NoSubscribe(run) && Exec(SubscribeStep(h, t, c), run).panicked;
    } else {
      var g := SubscribeStep(h, t, c);
      SubscribeInv(h, t, c);
      forall run | NoSubscribe(run) ensures !Exec(g, run).panicked {
        NoSubscribeOnce(run, g.chans.Keys);
        HubIsSafe(g, run, g.chans.Keys);
      }
    }
  }

  // --- pumps deliver ---------------------------------------------------------------------------

  /** The client's pump comes round n times while nothing else happens. */
  function Rounds(c: Client, n: nat): seq<Event> {
    seq(n, _ => Receive(c))
  }

  lemma RoundsCons(h: Hub, c: Client, n: nat)
    requires n > 0
    ensures Exec(h, Rounds(c, n)) == Exec(ReceiveStep(h, c), Rounds(c, n - 1))
  {
    assert Rounds(c, n)[0] == Receive(c) && Rounds(c, n)[1..] == Rounds(c, n - 1);
  }

  /** The n oldest messages have moved from the buffer to the receiver. */
  function Taken(ch: Chan, n: nat): Chan
    requires n <= |ch.buffer|
  {
    ch.(buffer := ch.buffer[n..], received := ch.received + ch.buffer[..n])
  }

  lemma TakenAgain(ch: Chan, n: nat)
    requires 0 < n <= |ch.buffer|
    ensures Taken(ch, 0) == ch && Taken(Taken(ch, 1), n - 1) == Taken(ch, n)
  {
    var one := Taken(ch, 1);
    assert one.buffer[n - 1..] == ch.buffer[n..];
    assert one.received + one.buffer[..n - 1] == ch.received + ch.buffer[..n];
  }

  lemma ReceiveTakes(h: Hub, c: Client)
    requires c in h.chans && h.chans[c].pumps > 0 && h.chans[c].buffer != []
    ensures ReceiveStep(h, c) == Put(h, c, Taken(h.chans[c], 1))
  {
    assert h.chans[c].buffer[..1] == [h.chans[c].buffer[0]];
  }

  /** A live pump takes one message per round, the oldest first. */
  lemma {:induction false} PumpTakes(h: Hub, c: Client, n: nat)
    requires c in h.chans && h.chans[c].pumps > 0 && n <= |h.chans[c].buffer|
    ensures Exec(h, Rounds(c, n)) == Put(h, c, Taken(h.chans[c], n))
    decreases n
  {
    var ch := h.chans[c];
    if n == 0 {
      assert Taken(ch, 0) == ch && h.chans[c := ch] == h.chans;
    } else {
      RoundsCons(h, c, n);
      ReceiveTakes(h, c);
      TakenAgain(ch, n);
      var g, one := ReceiveStep(h, c), Taken(ch, 1);
      assert g.chans[c] == one && one.pumps == ch.pumps && |one.buffer| == |ch.buffer| - 1;
      hide ReceiveStep, Exec, Rounds, Taken;
      PumpTakes(g, c, n - 1);
      assert h.chans[c := one][c := Taken(ch, n)] == h.chans[c := Taken(ch, n)];
    }
  }

  /**
    As many rounds of a live pump as there are messages waiting deliver all of them
    in order, so that everything accepted is received; one round more and the pump
    of a client that has left closes down, while any other waits.
   */
  lemma PumpDrains(h: Hub, c: Client)
    requires Inv(h) && c in h.chans && h.chans[c].pumps > 0
    ensures var ch, g := h.chans[c], Exec(h, Rounds(c, |h.chans[c].buffer|));
      && g == Put(h, c, ch.(buffer := [], received := ch.received + ch.buffer))
      && g.chans[c].received == ch.accepted
      && (!ch.lost ==> g.chans[c].received == ch.offered)
      && (ch.closed ==> Step(g, Receive(c)).chans[c].doneClosed && Step(g, Receive(c)).chans[c].pumps == 0)
      && (!ch.closed ==> Step(g, Receive(c)) == g)
  {
    var ch := h.chans[c];
    assert ChanOk(ch);
    hide Inv, Selection;
    PumpTakes(h, c, |ch.buffer|);
    assert ch.buffer[|ch.buffer|..] == [] && ch.buffer[..|ch.buffer|] == ch.buffer;
  }
}
