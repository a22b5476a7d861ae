/**
  Agreement on a certificate authority through one shared Secret.

  Pods run concurrently; each API call on the Secret is atomic. A run is any
  sequence of events: a pod performs its next call, performs it and then fails
  locally, fails or times out, or restarts. Nobody deletes the Secret.
 */
module CaProtocol {

  type Pod = string

  /** `Empty` exists with blank values; `Malformed` lacks a key. CA number 0 is the blank one. */
  datatype Secret = Absent | Malformed | Empty | Holds(ca: nat)

  datatype Protocol = RaftCa | MintingCa

  datatype Phase =
    | Begin
    | Creating(own: nat)
    | Rereading(own: nat)
    | Overwriting(own: nat)
    | Polling
    | Done(ca: nat)
    | Failed

  datatype State = State(secret: Secret, phases: map<Pod, Phase>, minted: nat, returned: set<nat>)

  datatype Act = Advance | AdvanceThenFail | Error | Restart

  datatype Event = Event(pod: Pod, act: Act)

  function PhaseOf(s: State, p: Pod): Phase {
    if p in s.phases then s.phases[p] else Begin
  }

  function Go(s: State, p: Pod, ph: Phase): State {
    s.(phases := s.phases[p := ph], returned := if ph.Done? then s.returned + {ph.ca} else s.returned)
  }

  function Generate(s: State, p: Pod): State {
    Go(s, p, Creating(s.minted)).(minted := s.minted + 1)
  }

  /** First contact: the minting protocol looks before it generates, the Raft one does not. */
  function BeginStep(proto: Protocol, boot: bool, s: State, p: Pod): State {
    if proto.RaftCa? then (if boot then Generate(s, p) else Go(s, p, Polling))
    else
      match s.secret
      case Holds(ca) => Go(s, p, Done(ca))
      case Malformed => Go(s, p, Failed)
      case _ => if boot then Generate(s, p) else Go(s, p, Polling)
  }

  function CreateStep(s: State, p: Pod, own: nat): State {
    if s.secret.Absent? then Go(s.(secret := Holds(own)), p, Done(own)) else Go(s, p, Rereading(own))
  }

  function RereadStep(proto: Protocol, s: State, p: Pod, own: nat): State {
    match s.secret
    case Holds(ca) => Go(s, p, Done(ca))
    case Empty => Go(s, p, if proto.RaftCa? then Done(0) else Overwriting(own))
    case _ => Go(s, p, Failed)
  }

  function OverwriteStep(s: State, p: Pod, own: nat): State {
    if s.secret.Absent? then Go(s, p, Failed) else Go(s.(secret := Holds(own)), p, Done(own))
  }

  function PollStep(proto: Protocol, s: State, p: Pod): State {
    match s.secret
    case Holds(ca) => Go(s, p, Done(ca))
    case Empty => Go(s, p, if proto.RaftCa? then Done(0) else Polling)
    case Malformed => Go(s, p, Failed)
    case Absent => s
  }

  function AdvanceStep(proto: Protocol, boot: bool, s: State, p: Pod): State {
    match PhaseOf(s, p)
    case Begin => BeginStep(proto, boot, s, p)
    case Creating(own) => CreateStep(s, p, own)
    case Rereading(own) => RereadStep(proto, s, p, own)
    case Overwriting(own) => OverwriteStep(s, p, own)
    case Polling => PollStep(proto, s, p)
    case _ => s
  }

  function Step(proto: Protocol, boot: set<Pod>, s: State, e: Event): State {
    match e.act
    case Advance => AdvanceStep(proto, e.pod in boot, s, e.pod)
    case AdvanceThenFail =>
      // the call took effect, but caching or parsing the result failed: nothing is returned
      var t := AdvanceStep(proto, e.pod in boot, s, e.pod);
      t.(phases := t.phases[e.pod := Failed], returned := s.returned)
    case Error => if PhaseOf(s, e.pod).Done? then s else Go(s, e.pod, Failed)
    case Restart => Go(s, e.pod, Begin)
  }

  function Exec(proto: Protocol, boot: set<Pod>, s: State, run: seq<Event>): State
    decreases |run|
  {
    if run == [] then s else Exec(proto, boot, Step(proto, boot, s, run[0]), run[1..])
  }

  function Initial(secret: Secret): State {
    State(secret, map[], 1, {})
  }

  /** Everything any pod ever returned, also before a restart, is one CA. */
  ghost predicate Agreed(s: State) {
    forall a, b | a in s.returned && b in s.returned :: a == b
  }

  ghost predicate AlwaysAgrees(proto: Protocol, boot: set<Pod>, secret: Secret) {
    forall run: seq<Event> :: Agreed(Exec(proto, boot, Initial(secret), run))
  }

  ghost predicate AtMostOne(boot: set<Pod>) {
    forall p, q | p in boot && q in boot :: p == q
  }

  // --- safety -------------------------------------------------------------------------

  /** What a read of this Secret returns, if anything. */
  predicate Yields(proto: Protocol, secret: Secret, ca: nat) {
    secret == Holds(ca) || (proto.RaftCa? && secret.Empty? && ca == 0)
  }

  /** A pod about to overwrite is the only writer and the Secret is still empty. */
  ghost predicate SafeToOverwrite(boot: set<Pod>, s: State) {
    forall p <- s.phases | s.phases[p].Overwriting? :: s.secret.Empty? && AtMostOne(boot)
  }

  ghost predicate WritersBoot(boot: set<Pod>, s: State) {
    forall p <- s.phases | s.phases[p].Creating? || s.phases[p].Rereading? || s.phases[p].Overwriting? :: p in boot
  }

  ghost predicate Inv(proto: Protocol, boot: set<Pod>, s: State) {
    && (forall a <- s.returned :: Yields(proto, s.secret, a))
    && WritersBoot(boot, s)
    && SafeToOverwrite(boot, s)
    && (proto.MintingCa? && s.secret.Empty? ==> AtMostOne(boot))
    && (proto.RaftCa? ==> forall p <- s.phases :: !s.phases[p].Overwriting?)
  }

  lemma AdvanceInv(proto: Protocol, boot: set<Pod>, s: State, p: Pod)
    requires Inv(proto, boot, s)
    ensures Inv(proto, boot, AdvanceStep(proto, p in boot, s, p))
  {
  }

  lemma StepInv(proto: Protocol, boot: set<Pod>, s: State, e: Event)
    requires Inv(proto, boot, s)
    ensures Inv(proto, boot, Step(proto, boot, s, e))
  {
    AdvanceInv(proto, boot, s, e.pod);
    hide AdvanceStep;
    AdvanceKeepsReturned(proto, e.pod in boot, s, e.pod);
  }

  lemma AdvanceKeepsReturned(proto: Protocol, boot: bool, s: State, p: Pod)
    ensures s.returned <= AdvanceStep(proto, boot, s, p).returned
  {
  }

  lemma {:induction false} ExecInv(proto: Protocol, boot: set<Pod>, s: State, run: seq<Event>)
    requires Inv(proto, boot, s)
    ensures Inv(proto, boot, Exec(proto, boot, s, run))
    decreases |run|
  {
    if run != [] {
      StepInv(proto, boot, s, run[0]);
      ExecInv(proto, boot, Step(proto, boot, s, run[0]), run[1..]);
    }
  }

  /** The Raft CA: any number of bootstrap pods, any initial Secret, any interleaving. */
  lemma RaftCaAgrees(boot: set<Pod>, secret: Secret)
    ensures AlwaysAgrees(RaftCa, boot, secret)
  {
    forall run: seq<Event> ensures Agreed(Exec(RaftCa, boot, Initial(secret), run)) {
      ExecInv(RaftCa, boot, Initial(secret), run);
    }
  }

  /** Two bootstrap pods that both find the Secret empty both overwrite it. */
  lemma RaceOnEmptySecret(boot: set<Pod>, p: Pod, q: Pod)
    requires p in boot && q in boot && p != q
    ensures exists run: seq<Event> :: !Agreed(Exec(MintingCa, boot, Initial(Empty), run))
  {
    var a, b := Event(p, Advance), Event(q, Advance);
    var s0 := Initial(Empty);
    var s2 := Step(MintingCa, boot, Step(MintingCa, boot, s0, a), b);
    assert s2.phases == map[p := Creating(1), q := Creating(2)];
    var s4 := Step(MintingCa, boot, Step(MintingCa, boot, s2, a), b);
    assert s4.phases == map[p := Rereading(1), q := Rereading(2)];
    var s6 := Step(MintingCa, boot, Step(MintingCa, boot, s4, a), b);
    assert s6.phases == map[p := Overwriting(1), q := Overwriting(2)];
    var s8 := Step(MintingCa, boot, Step(MintingCa, boot, s6, a), b);
    assert 1 in s8.returned && 2 in s8.returned;
    Twice(boot, s6, a, b, []);
    Twice(boot, s4, a, b, [a, b]);
    Twice(boot, s2, a, b, [a, b, a, b]);
    Twice(boot, s0, a, b, [a, b, a, b, a, b]);
    assert !Agreed(Exec(MintingCa, boot, s0, [a, b] + [a, b, a, b, a, b]));
  }

  lemma Twice(boot: set<Pod>, s: State, a: Event, b: Event, rest: seq<Event>)
    ensures Exec(MintingCa, boot, s, [a, b] + rest) ==
            Exec(MintingCa, boot, Step(MintingCa, boot, Step(MintingCa, boot, s, a), b), rest)
  {
    assert ([a, b] + rest)[1..] == [b] + rest && ([b] + rest)[1..] == rest;
  }

  /** The minting CA: every interleaving agrees exactly unless two bootstrap pods start from an empty Secret. */
  lemma MintingCaAgreesIff(boot: set<Pod>, secret: Secret)
    ensures AlwaysAgrees(MintingCa, boot, secret) <==> !secret.Empty? || AtMostOne(boot)
  {
    if !secret.Empty? || AtMostOne(boot) {
      forall run: seq<Event> ensures Agreed(Exec(MintingCa, boot, Initial(secret), run)) {
        ExecInv(MintingCa, boot, Initial(secret), run);
      }
    } else {
      var p, q :| p in boot && q in boot && p != q;
      RaceOnEmptySecret(boot, p, q);
    }
  }

  /** Once a CA is in the Secret no event changes it, so a restarted pod gets the same one back. */
  lemma StoredCaIsPermanent(proto: Protocol, boot: set<Pod>, s: State, e: Event)
    requires Inv(proto, boot, s) && s.secret.Holds?
    ensures Step(proto, boot, s, e).secret == s.secret
  {
  }

  // --- progress -----------------------------------------------------------------------------

  /** The pod makes its next n calls while nobody else does anything. */
  function Alone(p: Pod, n: nat): seq<Event> {
    seq(n, _ => Event(p, Advance))
  }

  lemma AloneCons(proto: Protocol, boot: set<Pod>, s: State, p: Pod, n: nat)
    requires n > 0
    ensures Exec(proto, boot, s, Alone(p, n)) == Exec(proto, boot, AdvanceStep(proto, p in boot, s, p), Alone(p, n - 1))
  {
    assert Alone(p, n)[0] == Event(p, Advance) && Alone(p, n)[1..] == Alone(p, n - 1);
  }

  lemma AloneDone(proto: Protocol, boot: set<Pod>, s: State, p: Pod)
    ensures Exec(proto, boot, s, Alone(p, 0)) == s
  {
  }

  /** A bootstrap pod that finds no Secret stores its own CA there and returns it, in two calls. */
  lemma BootstrapStores(proto: Protocol, boot: set<Pod>, s: State, p: Pod)
    requires p in boot && PhaseOf(s, p) == Begin && s.secret == Absent
    ensures var t := Exec(proto, boot, s, Alone(p, 2));
      t.secret == Holds(s.minted) && PhaseOf(t, p) == Done(s.minted) && t.returned == s.returned + {s.minted}
  {
    hide Exec, Alone;
    AloneCons(proto, boot, s, p, 2);
    var u := AdvanceStep(proto, true, s, p);
    AloneCons(proto, boot, u, p, 1);
    AloneDone(proto, boot, AdvanceStep(proto, true, u, p), p);
  }

  /** The minting protocol repairs an empty Secret in four calls: look, create, read again, overwrite. */
  lemma BootstrapRepairs(boot: set<Pod>, s: State, p: Pod)
    requires p in boot && PhaseOf(s, p) == Begin && s.secret == Empty
    ensures var t := Exec(MintingCa, boot, s, Alone(p, 4));
      t.secret == Holds(s.minted) && PhaseOf(t, p) == Done(s.minted) && t.returned == s.returned + {s.minted}
  {
    hide Exec, Alone;
    AloneCons(MintingCa, boot, s, p, 4);
    var u := AdvanceStep(MintingCa, true, s, p);
    AloneCons(MintingCa, boot, u, p, 3);
    var v := AdvanceStep(MintingCa, true, u, p);
    AloneCons(MintingCa, boot, v, p, 2);
    var w := AdvanceStep(MintingCa, true, v, p);
    AloneCons(MintingCa, boot, w, p, 1);
    AloneDone(MintingCa, boot, AdvanceStep(MintingCa, true, w, p), p);
  }

  /** Once a CA is stored every pod that starts or goes on alone returns it within three calls; only an overwriter does not. */
  lemma EveryoneReturnsIt(proto: Protocol, boot: set<Pod>, s: State, q: Pod)
    requires s.secret.Holds? && !PhaseOf(s, q).Overwriting? && !PhaseOf(s, q).Done? && !PhaseOf(s, q).Failed?
    ensures var t := Exec(proto, boot, s, Alone(q, 3));
      PhaseOf(t, q) == Done(s.secret.ca) && t.secret == s.secret && t.returned == s.returned + {s.secret.ca}
    ensures PhaseOf(s, q) == Polling ==> PhaseOf(Step(proto, boot, s, Event(q, Advance)), q) == Done(s.secret.ca)
  {
    hide Exec, Alone;
    AloneCons(proto, boot, s, q, 3);
    var u := AdvanceStep(proto, q in boot, s, q);
    AloneCons(proto, boot, u, q, 2);
    var v := AdvanceStep(proto, q in boot, u, q);
    AloneCons(proto, boot, v, q, 1);
    AloneDone(proto, boot, AdvanceStep(proto, q in boot, v, q), q);
  }

  /** Without a Secret a pod that may not write waits, however often it looks. */
  lemma {:induction false} OthersWait(proto: Protocol, boot: set<Pod>, s: State, q: Pod, n: nat)
    requires s.secret == Absent && q !in boot && (PhaseOf(s, q) == Begin || PhaseOf(s, q) == Polling)
    ensures var t := Exec(proto, boot, s, Alone(q, n));
      t.secret == Absent && t.returned == s.returned && (n > 0 ==> PhaseOf(t, q) == Polling)
    decreases n
  {
    hide Exec, Alone;
    if n == 0 {
      AloneDone(proto, boot, s, q);
    } else {
      AloneCons(proto, boot, s, q, n);
      OthersWait(proto, boot, AdvanceStep(proto, false, s, q), q, n - 1);
      if n == 1 { AloneDone(proto, boot, AdvanceStep(proto, false, s, q), q); }
    }
  }
}
