/**
  Stable pod names: the address a pod derives for itself, the one its peers list
  for it, the names in its certificates, and who may seed the cluster.
 */
module Discovery {
  import opened Text
  import opened CaProtocol

  datatype Peer = Peer(id: string, address: string)

  /** `port` is the effective Raft port and `bindHost` the fallback derived from the bind address. */
  datatype Config = Config(
    nodeId: string,
    advertiseAddr: string,
    bindHost: string,
    peers: seq<Peer>,
    replicas: int,
    statefulSet: string,
    headless: string,
    namespace: string,
    clusterDomain: string,
    port: nat,
    caBootstrap: bool)

  datatype Result<T> = Ok(value: T) | Err

  /** `<sts>-<ordinal>`, as the StatefulSet controller names its pods. */
  function HostName(sts: string, i: nat): string {
    sts + "-" + Itoa(i)
  }

  function PodName(cfg: Config, host: string): string {
    var name := host + "." + cfg.headless + "." + cfg.namespace + ".svc";
    if cfg.clusterDomain != "" then name + "." + cfg.clusterDomain else name
  }

  function PodAddress(cfg: Config, host: string): string {
    PodName(cfg, host) + ":" + Itoa(cfg.port)
  }

  /** The ordinal, when the host is `<sts>-<n>` for a non-negative n. */
  function PodOrdinal(host: string, sts: string): Parsed {
    var prefix := sts + "-";
    if sts == "" || !HasPrefix(host, prefix) then Bad
    else
      var n := Atoi(host[|prefix|..]);
      if n.Num? && n.value >= 0 then n else Bad
  }

  /** DNS discovery is selected and complete. */
  predicate DnsReady(cfg: Config) {
    1 <= cfg.replicas < INT_LIMIT && cfg.statefulSet != "" && cfg.headless != "" && cfg.namespace != ""
  }

  lemma AddressInFull(cfg: Config, i: nat)
    ensures HostName(cfg.statefulSet, i) == cfg.statefulSet + "-" + Itoa(i)
    ensures PodAddress(cfg, HostName(cfg.statefulSet, i)) ==
      cfg.statefulSet + "-" + Itoa(i) + "." + cfg.headless + "." + cfg.namespace + ".svc"
      + (if cfg.clusterDomain == "" then "" else "." + cfg.clusterDomain) + ":" + Itoa(cfg.port)
  {
    hide Itoa;
    var name := cfg.statefulSet + "-" + Itoa(i) + "." + cfg.headless + "." + cfg.namespace + ".svc";
    assert name + "" == name && (name + ".") + cfg.clusterDomain == name + ("." + cfg.clusterDomain);
  }

  method Resolve(cfg: Config) returns (r: Result<seq<Peer>>)
    requires cfg.replicas < INT_LIMIT
    ensures r.Ok? <==> DnsReady(cfg)
    ensures r.Ok? ==> |r.value| == cfg.replicas
    ensures r.Ok? ==> forall i | 0 <= i < |r.value| ::
      r.value[i] == Peer(HostName(cfg.statefulSet, i), PodAddress(cfg, HostName(cfg.statefulSet, i)))
    ensures r.Ok? ==> forall i: nat | i < |r.value| ::
      && r.value[i].id == cfg.statefulSet + "-" + Itoa(i)
      && r.value[i].address == cfg.statefulSet + "-" + Itoa(i) + "." + cfg.headless + "." + cfg.namespace + ".svc"
                               + (if cfg.clusterDomain == "" then "" else "." + cfg.clusterDomain) + ":" + Itoa(cfg.port)
  {
    forall i: nat { AddressInFull(cfg, i); }
    hide HostName, PodAddress, Itoa;
    if cfg.replicas < 1 || cfg.statefulSet == "" || cfg.headless == "" || cfg.namespace == "" { return Err; }
    var peers: seq<Peer> := [];
    for i := 0 to cfg.replicas
      invariant |peers| == i
      invariant forall k | 0 <= k < i ::
        peers[k] == Peer(HostName(cfg.statefulSet, k), PodAddress(cfg, HostName(cfg.statefulSet, k)))
    {
      var host := HostName(cfg.statefulSet, i);
      peers := peers + [Peer(host, PodAddress(cfg, host))];
    }
    return Ok(peers);
  }

  function SelfFor(cfg: Config, host: string): Result<Peer> {
    if PodOrdinal(host, cfg.statefulSet).Num? then Ok(Peer(host, PodAddress(cfg, host)))
    else if cfg.advertiseAddr != "" then Ok(Peer(cfg.nodeId, cfg.advertiseAddr))
    else Err
  }

  function DeriveAdvertiseAddr(cfg: Config, host: string): string {
    if cfg.advertiseAddr != "" then cfg.advertiseAddr
    else if PodOrdinal(host, cfg.statefulSet).Num? && cfg.headless != "" && cfg.namespace != "" then PodAddress(cfg, host)
    else cfg.bindHost
  }

  lemma OrdinalRoundTrip(sts: string, i: nat)
    requires sts != "" && i < INT_LIMIT
    ensures PodOrdinal(HostName(sts, i), sts) == Num(i)
  {
    AtoiOfItoa(i);
    assert HostName(sts, i)[..|sts| + 1] == sts + "-" && HostName(sts, i)[|sts| + 1..] == Itoa(i);
  }

  /** Every pod knows itself under the very ID and address its peers list for that ordinal. */
  lemma SelfIsListed(cfg: Config, i: nat)
    requires DnsReady(cfg) && i < cfg.replicas
    ensures var host := HostName(cfg.statefulSet, i);
      && SelfFor(cfg, host) == Ok(Peer(host, PodAddress(cfg, host)))
      && (cfg.advertiseAddr == "" ==> DeriveAdvertiseAddr(cfg, host) == PodAddress(cfg, host))
  {
    OrdinalRoundTrip(cfg.statefulSet, i);
  }

  // --- seeding ---------------------------------------------------------------------------

  datatype Boot = Boot(nodeId: string, seeds: bool)

  /**
    The node ID is the configured one, else the pod's own, else `persisted`, the
    generated ID kept on disk; the pod seeds the cluster if it is the first
    resolved voter or cannot tell who it is.
   */
  method ResolveBootstrapState(cfg: Config, host: string, persisted: Result<string>) returns (r: Result<Boot>)
    requires cfg.replicas < INT_LIMIT
    ensures r.Ok? <==> DnsReady(cfg) && (cfg.nodeId != "" || OwnId(cfg, host) != "" || persisted.Ok?)
    ensures r.Ok? ==> (r.value.seeds <==> SelfFor(cfg, host).Err? || OwnId(cfg, host) == HostName(cfg.statefulSet, 0))
    ensures r.Ok? && cfg.nodeId != "" ==> r.value.nodeId == cfg.nodeId
    ensures r.Ok? && cfg.nodeId == "" && OwnId(cfg, host) != "" ==> r.value.nodeId == OwnId(cfg, host)
    ensures r.Ok? && cfg.nodeId == OwnId(cfg, host) == "" ==> r.value.nodeId == persisted.value
  {
    hide HostName, SelfFor;
    var resolved := Resolve(cfg);
    if resolved.Err? { return Err; }
    var seeds, nodeId := true, cfg.nodeId;
    var self := SelfFor(cfg, host);
    if self.Ok? && |resolved.value| > 0 { seeds := self.value.id == resolved.value[0].id; }
    if nodeId == "" && self.Ok? { nodeId := self.value.id; }
    if nodeId == "" {
      if persisted.Err? { return Err; }
      nodeId := persisted.value;
    }
    return Ok(Boot(nodeId, seeds));
  }

  /** The ID a pod finds for itself, "" when it finds none. */
  function OwnId(cfg: Config, host: string): string {
    if SelfFor(cfg, host).Ok? then SelfFor(cfg, host).value.id else ""
  }

  /** Among the pods of the set exactly ordinal 0 seeds, and each runs under the ID its peers list for it unless one is configured. */
  method SeedIsUnique(cfg: Config, i: nat, persisted: Result<string>) returns (b: Boot)
    requires DnsReady(cfg) && i < cfg.replicas
    ensures b.seeds <==> i == 0
    ensures cfg.nodeId == "" ==> b.nodeId == HostName(cfg.statefulSet, i)
  {
    SelfIsListed(cfg, i);
    HostNameInjective(cfg.statefulSet, i, 0);
    assert HostName(cfg.statefulSet, i) != "";
    var r := ResolveBootstrapState(cfg, HostName(cfg.statefulSet, i), persisted);
    b := r.value;
  }

  lemma HostNameInjective(sts: string, i: nat, j: nat)
    ensures HostName(sts, i) == HostName(sts, j) ==> i == j
  {
    assert HostName(sts, i)[|sts| + 1..] == Itoa(i) && HostName(sts, j)[|sts| + 1..] == Itoa(j);
    ItoaInjective(i, j);
  }

  // --- who may write the certificate authorities ----------------------------------------------

  predicate SingleNode(cfg: Config) {
    cfg.replicas <= 1 && |cfg.peers| <= 1
  }

  predicate RaftCaBootstrap(cfg: Config, host: string) {
    cfg.caBootstrap || SingleNode(cfg) || HasSuffix(host, "-0")
  }

  predicate MintingCaBootstrap(cfg: Config, host: string) {
    SingleNode(cfg) || HasSuffix(host, "-0")
  }

  lemma OrdinalZeroSuffix(sts: string, i: nat)
    ensures HasSuffix(HostName(sts, i), "-0") <==> i == 0
  {
    var host := HostName(sts, i);
    if i < 10 {
      assert host == sts + "-" + [DigitChar(i)];
      assert host[|host| - 2..] == ['-', DigitChar(i)];
    } else {
      var tens := Itoa(i / 10);
      assert host == sts + "-" + tens + [DigitChar(i % 10)];
      assert host[|host| - 2] == tens[|tens| - 1] && IsDigit(tens[|tens| - 1]);
      assert host[|host| - 2..][0] == host[|host| - 2];
    }
  }

  /** Who may write: everybody in a single-node deployment, else ordinal 0, and for the Raft CA whoever is told to. */
  lemma WritersInFull(cfg: Config, i: nat, host: string)
    ensures MintingCaBootstrap(cfg, cfg.statefulSet + "-" + Itoa(i)) <==> (cfg.replicas <= 1 && |cfg.peers| <= 1) || i == 0
    ensures RaftCaBootstrap(cfg, cfg.statefulSet + "-" + Itoa(i)) <==>
      cfg.caBootstrap || (cfg.replicas <= 1 && |cfg.peers| <= 1) || i == 0
    ensures (cfg.replicas <= 1 && |cfg.peers| <= 1) ==> MintingCaBootstrap(cfg, host) && RaftCaBootstrap(cfg, host)
  {
    hide Itoa, HasSuffix;
    OrdinalZeroSuffix(cfg.statefulSet, i);
  }

  function Writers(cfg: Config, pods: nat): set<Pod> {
    set i: nat | i < pods && MintingCaBootstrap(cfg, HostName(cfg.statefulSet, i)) :: HostName(cfg.statefulSet, i)
  }

  /** In a StatefulSet the minting CA is agreed on in every run, even from an empty Secret. */
  lemma StatefulSetMintingCaAgrees(cfg: Config, pods: nat, secret: Secret)
    requires pods <= 1 || !SingleNode(cfg)
    ensures AlwaysAgrees(MintingCa, Writers(cfg, pods), secret)
  {
    var boot := Writers(cfg, pods);
    forall p, q | p in boot && q in boot ensures p == q {
      var i: nat :| i < pods && MintingCaBootstrap(cfg, HostName(cfg.statefulSet, i)) && p == HostName(cfg.statefulSet, i);
      var j: nat :| j < pods && MintingCaBootstrap(cfg, HostName(cfg.statefulSet, j)) && q == HostName(cfg.statefulSet, j);
      OrdinalZeroSuffix(cfg.statefulSet, i);
      OrdinalZeroSuffix(cfg.statefulSet, j);
    }
    MintingCaAgreesIff(boot, secret);
  }

  function RaftWriters(cfg: Config, pods: nat): set<Pod> {
    set i: nat | i < pods && RaftCaBootstrap(cfg, HostName(cfg.statefulSet, i)) :: HostName(cfg.statefulSet, i)
  }

  /** The Raft CA has a writer, is agreed on in every run, and unless forced or alone ordinal 0 is its only writer. */
  lemma StatefulSetRaftCaAgrees(cfg: Config, pods: nat, secret: Secret)
    requires pods > 0
    ensures HostName(cfg.statefulSet, 0) in RaftWriters(cfg, pods)
    ensures AlwaysAgrees(RaftCa, RaftWriters(cfg, pods), secret)
    ensures pods > 1 ==>
      (RaftWriters(cfg, pods) == {HostName(cfg.statefulSet, 0)} <==> !cfg.caBootstrap && !SingleNode(cfg))
  {
    var boot, zero := RaftWriters(cfg, pods), HostName(cfg.statefulSet, 0);
    OrdinalZeroSuffix(cfg.statefulSet, 0);
    RaftCaAgrees(boot, secret);
    if cfg.caBootstrap || SingleNode(cfg) {
      HostNameInjective(cfg.statefulSet, 1, 0);
      assert pods > 1 ==> HostName(cfg.statefulSet, 1) in boot;
    } else {
      forall p | p in boot ensures p == zero {
        var i: nat :| i < pods && RaftCaBootstrap(cfg, HostName(cfg.statefulSet, i)) && p == HostName(cfg.statefulSet, i);
        OrdinalZeroSuffix(cfg.statefulSet, i);
      }
    }
  }

  // --- certificate names ---------------------------------------------------------------------

  /** The candidate names, before duplicates go. */
  function SanCandidates(cfg: Config, host: string): seq<string> {
    var base := host + "." + cfg.headless;
    var baseNs := base + "." + cfg.namespace;
    [host, "localhost"]
    + (if cfg.headless == "" then [] else
         [base] + (if cfg.namespace == "" then [] else
           [baseNs, baseNs + ".svc"] + (if cfg.clusterDomain == "" then [] else [baseNs + ".svc." + cfg.clusterDomain])))
  }

  /** Keeps the first occurrence of everything, in order. */
  function Deduped(s: seq<string>): (d: seq<string>)
    ensures forall n :: n in d <==> n in s
    ensures forall i, j | 0 <= i < j < |d| :: d[i] != d[j]
  {
    if s == [] then []
    else
      var d := Deduped(s[..|s| - 1]);
      if s[|s| - 1] in s[..|s| - 1] then d else d + [s[|s| - 1]]
  }

  const LOOPBACK := "127.0.0.1"

  method PodSans(cfg: Config, host: string) returns (names: seq<string>, ips: seq<string>)
    ensures names == Deduped(SanCandidates(cfg, host)) && ips == ["127.0.0.1"]
    ensures forall n :: n in names <==>
      || n == host || n == "localhost"
      || (cfg.headless != "" && n == host + "." + cfg.headless)
      || (cfg.headless != "" && cfg.namespace != "" && n == host + "." + cfg.headless + "." + cfg.namespace)
      || (cfg.headless != "" && cfg.namespace != "" && n == host + "." + cfg.headless + "." + cfg.namespace + ".svc")
      || (cfg.headless != "" && cfg.namespace != "" && cfg.clusterDomain != ""
          && n == host + "." + cfg.headless + "." + cfg.namespace + ".svc." + cfg.clusterDomain)
    ensures forall i, j | 0 <= i < j < |names| :: names[i] != names[j]
  {
    var all := SanCandidates(cfg, host);
    var seen: set<string> := {};
    names := [];
    for i := 0 to |all|
      invariant names == Deduped(all[..i])
      invariant forall n :: n in seen <==> n in names
    {
      assert all[..i + 1][..i] == all[..i];
      if all[i] !in seen {
        seen := seen + {all[i]};
        names := names + [all[i]];
      }
    }
    assert all[..|all|] == all;
    ips := [LOOPBACK];
  }

  function ServerCertSans(cfg: Config, host: string): seq<string> {
    if host == "" || cfg.headless == "" || cfg.namespace == "" then []
    else
      var base := host + "." + cfg.headless + "." + cfg.namespace + ".svc";
      if cfg.clusterDomain != "" then [base + "." + cfg.clusterDomain, base] else [base]
  }

  // --- the host a follower dials -----------------------------------------------------------------

  function LastColon(s: string): (i: int)
    ensures -1 <= i < |s|
    ensures i >= 0 ==> s[i] == ':' && forall k | i < k < |s| :: s[k] != ':'
    ensures i < 0 ==> forall k | 0 <= k < |s| :: s[k] != ':'
  {
    if s == "" then -1 else if s[|s| - 1] == ':' then |s| - 1 else LastColon(s[..|s| - 1])
  }

  /** Host and port of an address without brackets. */
  function SplitHostPort(s: string): Result<(string, string)> {
    var i := LastColon(s);
    if i < 0 || ':' in s[..i] || '[' in s || ']' in s then Err else Ok((s[..i], s[i + 1..]))
  }

  /** Where a follower forwards: the leader's host with the internal control port. */
  function ForwardHost(leaderAddress: string): Result<string> {
    var split := SplitHostPort(leaderAddress);
    if split.Err? || split.value.0 == "" then Err else Ok(split.value.0)
  }

  predicate DnsText(s: string) {
    forall c <- s :: c != ':' && c != '[' && c != ']'
  }

  lemma SplitAddress(name: string, port: nat)
    requires DnsText(name)
    ensures SplitHostPort(name + ":" + Itoa(port)) == Ok((name, Itoa(port)))
  {
    var s := name + ":" + Itoa(port);
    var i := LastColon(s);
    assert s[|name|] == ':';
    forall k | |name| < k < |s| ensures IsDigit(s[k]) { assert s[k] == Itoa(port)[k - |name| - 1]; }
    assert i == |name|;
    assert s[..i] == name && s[i + 1..] == Itoa(port);
    forall c | c in s ensures c != '[' && c != ']' {
      var k :| 0 <= k < |s| && s[k] == c;
      assert k < |name| ==> s[k] == name[k] && name[k] in name;
    }
  }

  /** The host dialled on the forward hop is named by both certificates of the pod behind it. */
  lemma ForwardHostIsCertified(cfg: Config, i: nat)
    requires DnsReady(cfg) && i < cfg.replicas && cfg.advertiseAddr == ""
    requires DnsText(cfg.statefulSet) && DnsText(cfg.headless) && DnsText(cfg.namespace) && DnsText(cfg.clusterDomain)
    ensures var host := HostName(cfg.statefulSet, i);
      var dialled := ForwardHost(DeriveAdvertiseAddr(cfg, host));
      && dialled == Ok(PodName(cfg, host))
      && dialled.value in ServerCertSans(cfg, host)
      && dialled.value in Deduped(SanCandidates(cfg, host))
  {
    var host := HostName(cfg.statefulSet, i);
    SelfIsListed(cfg, i);
    assert DnsText(host) by {
      forall c | c in host ensures c != ':' && c != '[' && c != ']' {
        assert c in cfg.statefulSet || c == '-' || c in Itoa(i);
      }
    }
    NameIsDnsText(cfg, host);
    SplitAddress(PodName(cfg, host), cfg.port);
    NameIsCandidate(cfg, host);
  }

  lemma NameIsDnsText(cfg: Config, host: string)
    requires DnsText(host) && DnsText(cfg.headless) && DnsText(cfg.namespace) && DnsText(cfg.clusterDomain)
    ensures DnsText(PodName(cfg, host)) && PodName(cfg, host) != ""
  {
  }

  lemma NameIsCandidate(cfg: Config, host: string)
    requires cfg.headless != "" && cfg.namespace != ""
    ensures PodName(cfg, host) in SanCandidates(cfg, host)
  {
    var baseNs := host + "." + cfg.headless + "." + cfg.namespace;
    assert baseNs + ".svc" == host + "." + cfg.headless + "." + cfg.namespace + ".svc";
    if cfg.clusterDomain != "" {
      assert baseNs + ".svc." + cfg.clusterDomain == (baseNs + ".svc") + "." + cfg.clusterDomain;
      assert SanCandidates(cfg, host)[5] == baseNs + ".svc." + cfg.clusterDomain;
    } else {
      assert SanCandidates(cfg, host)[4] == baseNs + ".svc";
    }
  }
}
