/**
  Reconciling the Raft voter set with the resolved peers. Every configuration
  change is atomic and may fail; a failed run can stop anywhere, also between
  the removal and the re-addition of a voter.
 */
module Membership {
  import opened Domain
  import opened Discovery

  /** The network as the caller sees it: which addresses are names, and what they resolve to. */
  datatype Net = Net(isName: string -> bool, lookup: string -> Option<string>)

  predicate AddrChanged(net: Net, current: string, desired: string) {
    current != desired && (!net.isName(desired) || net.lookup(desired) != Some(current))
  }

  /** Peers by ID: blank IDs are ignored and a later entry replaces an earlier one. */
  function Desired(peers: seq<Peer>): map<string, string> {
    if peers == [] then map[]
    else
      var d, last := Desired(peers[..|peers| - 1]), peers[|peers| - 1];
      if last.id != "" then d[last.id := last.address] else d
  }

  /** The peer at i is named and no later one has its ID. */
  predicate Stands(peers: seq<Peer>, i: nat) {
    i < |peers| && peers[i].id != "" && forall j | i < j < |peers| :: peers[j].id != peers[i].id
  }

  /** Some peer has this ID. */
  predicate Named(peers: seq<Peer>, id: string) {
    exists i | 0 <= i < |peers| :: peers[i].id == id
  }

  lemma {:induction false} DesiredIds(peers: seq<Peer>, id: string)
    ensures id in Desired(peers) <==> id != "" && Named(peers, id)
  {
    if peers != [] {
      var front, last := peers[..|peers| - 1], peers[|peers| - 1];
      DesiredIds(front, id);
      if Named(front, id) {
        var i :| 0 <= i < |front| && front[i].id == id;
        assert peers[i].id == id;
      }
      if Named(peers, id) && last.id != id {
        var i :| 0 <= i < |peers| && peers[i].id == id;
        assert front[i].id == id;
      }
    }
  }

  lemma {:induction false} DesiredAddress(peers: seq<Peer>, i: nat)
    requires Stands(peers, i)
    ensures peers[i].id in Desired(peers) && Desired(peers)[peers[i].id] == peers[i].address
  {
    var n := |peers| - 1;
    if i < n {
      assert forall j | i < j < n :: peers[..n][j].id == peers[j].id;
      DesiredAddress(peers[..n], i);
      assert peers[n].id != peers[i].id;
    }
  }

  lemma DesiredMeaning(peers: seq<Peer>)
    ensures forall id :: id in Desired(peers) <==> id != "" && Named(peers, id)
    ensures forall i: nat | Stands(peers, i) :: peers[i].id in Desired(peers) && Desired(peers)[peers[i].id] == peers[i].address
  {
    forall id ensures id in Desired(peers) <==> id != "" && Named(peers, id) { DesiredIds(peers, id); }
    forall i: nat | Stands(peers, i)
      ensures peers[i].id in Desired(peers) && Desired(peers)[peers[i].id] == peers[i].address
    {
      DesiredAddress(peers, i);
    }
  }

  /** Every desired ID has a peer that stands for it. */
  lemma {:induction false} SomePeerStands(peers: seq<Peer>, id: string) returns (i: nat)
    requires id in Desired(peers)
    ensures Stands(peers, i) && peers[i].id == id
  {
    var n := |peers| - 1;
    if peers[n].id == id {
      DesiredIds(peers, id);
      i := n;
    } else {
      i := SomePeerStands(peers[..n], id);
    }
  }

  /** The configuration one successful run leaves: the desired voters, keeping addresses that still hold. */
  function Target(net: Net, current: map<string, string>, desired: map<string, string>): map<string, string> {
    map id | id in desired ::
      if id in current && !AddrChanged(net, current[id], desired[id]) then current[id] else desired[id]
  }

  lemma TargetSettled(net: Net, current: map<string, string>, desired: map<string, string>)
    ensures Target(net, current, desired).Keys == desired.Keys
    ensures forall id <- desired :: var addr := Target(net, current, desired)[id];
      addr == desired[id] || (net.isName(desired[id]) && net.lookup(desired[id]) == Some(addr))
  {
  }

  /** Reconciling is a projection: a second run has nothing to do. */
  lemma TargetIdempotent(net: Net, current: map<string, string>, desired: map<string, string>)
    ensures Target(net, Target(net, current, desired), desired) == Target(net, current, desired)
  {
  }

  ghost predicate Stale(net: Net, current: map<string, string>, desired: map<string, string>, id: string) {
    id in desired && id in current && AddrChanged(net, current[id], desired[id])
  }

  /** Mid-run: every voter sits at the address it had or the one it should have. */
  ghost predicate Between(now: map<string, string>, was: map<string, string>, desired: map<string, string>) {
    forall id <- now :: (id in was && now[id] == was[id]) || (id in desired && now[id] == desired[id])
  }

  class Cluster {
    var servers: map<string, string>

    method AddVoter(id: string, address: string) returns (ok: bool)
      modifies this
      ensures servers == if ok then old(servers)[id := address] else old(servers)
    {
      if * { return false; }
      servers := servers[id := address];
      return true;
    }

    method RemoveServer(id: string) returns (ok: bool)
      modifies this
      ensures servers == if ok then old(servers) - {id} else old(servers)
    {
      if * { return false; }
      servers := servers - {id};
      return true;
    }

    /** Removes and re-adds a voter; a failure in between leaves it out. */
    method Move(id: string, address: string) returns (ok: bool)
      requires id in servers
      modifies this
      ensures ok ==> servers == old(servers)[id := address]
      ensures !ok ==> forall k <- servers :: k in old(servers) && servers[k] == old(servers)[k]
    {
      ok := RemoveServer(id);
      if !ok { return false; }
      ok := AddVoter(id, address);
    }

    method AddMissing(desired: map<string, string>) returns (added: seq<string>, ok: bool)
      modifies this
      ensures Between(servers, old(servers), desired)
      ensures ok ==> servers == desired + old(servers)
      ensures ok ==> forall id :: id in added <==> id in desired && id !in old(servers)
    {
      added := [];
      var current, todo := servers, desired.Keys;
      while todo != {}
        invariant todo <= desired.Keys
        invariant servers.Keys == current.Keys + (desired.Keys - todo)
        invariant forall id <- servers :: servers[id] == if id in current then current[id] else desired[id]
        invariant forall id :: id in added <==> id in desired.Keys - todo && id !in current
      {
        var id :| id in todo;
        todo := todo - {id};
        if id !in current {
          ok := AddVoter(id, desired[id]);
          if !ok { return added, false; }
          added := added + [id];
        }
      }
      ok := true;
    }

    method UpdateStale(net: Net, current: map<string, string>, desired: map<string, string>)
      returns (updated: seq<string>, ok: bool)
      requires servers == desired + current
      modifies this
      ensures Between(servers, current, desired)
      ensures ok ==> servers.Keys == desired.Keys + current.Keys
      ensures ok ==> forall id <- servers ::
        servers[id] == if id !in current || Stale(net, current, desired, id) then desired[id] else current[id]
      ensures ok ==> forall id :: id in updated <==> Stale(net, current, desired, id)
    {
      hide AddrChanged;
      updated := [];
      var todo := desired.Keys;
      while todo != {}
        invariant todo <= desired.Keys && servers.Keys == desired.Keys + current.Keys
        invariant forall id <- servers ::
          servers[id] == if id !in current || (id !in todo && Stale(net, current, desired, id)) then desired[id] else current[id]
        invariant forall id :: id in updated <==> id !in todo && Stale(net, current, desired, id)
      {
        var id :| id in todo;
        todo := todo - {id};
        if id in current && AddrChanged(net, current[id], desired[id]) {
          ok := Move(id, desired[id]);
          if !ok { return updated, false; }
          updated := updated + [id];
        }
      }
      ok := true;
    }

    method RemoveExtra(current: map<string, string>, desired: map<string, string>) returns (removed: seq<string>, ok: bool)
      requires servers.Keys == desired.Keys + current.Keys
      modifies this
      ensures forall id <- servers :: id in old(servers) && servers[id] == old(servers)[id]
      ensures ok ==> servers.Keys == desired.Keys
      ensures ok ==> forall id :: id in removed <==> id in current && id !in desired
    {
      removed := [];
      var todo := current.Keys;
      while todo != {}
        invariant todo <= current.Keys && servers.Keys == desired.Keys + todo
        invariant forall id <- servers :: id in old(servers) && servers[id] == old(servers)[id]
        invariant forall id :: id in removed <==> id in current && id !in todo && id !in desired
      {
        var id :| id in todo;
        todo := todo - {id};
        if id !in desired {
          ok := RemoveServer(id);
          if !ok { return removed, false; }
          removed := removed + [id];
        }
      }
      ok := true;
    }

    /**
      From any configuration: success reaches Target exactly and reports exactly
      what it changed. In terms of the peers: the voters are the named ones, each
      at its peer's address, or at the address it had if that is what its peer's
      address resolves to, in which case it is not reported. However the run ends,
      every voter sits where it was or where a peer of that ID is listed.
     */
    method Reconcile(net: Net, peers: seq<Peer>)
      returns (added: seq<string>, updated: seq<string>, removed: seq<string>, ok: bool)
      modifies this
      ensures Between(servers, old(servers), Desired(peers))
      ensures ok ==> servers == Target(net, old(servers), Desired(peers))
      ensures ok ==> forall id :: id in added <==> id in Desired(peers) && id !in old(servers)
      ensures ok ==> forall id :: id in updated <==> Stale(net, old(servers), Desired(peers), id)
      ensures ok ==> forall id :: id in removed <==> id in old(servers) && id !in Desired(peers)
      ensures ok ==> forall id :: id in servers <==> id != "" && Named(peers, id)
      ensures ok ==> forall i: nat | Stands(peers, i) :: var id, address := peers[i].id, peers[i].address;
        id in servers && (
          if id in old(servers) && old(servers)[id] != address
             && net.isName(address) && net.lookup(address) == Some(old(servers)[id])
          then servers[id] == old(servers)[id] && id !in updated
          else servers[id] == address && (id in updated <==> id in old(servers) && old(servers)[id] != address))
      ensures forall id <- servers ::
        || (id in old(servers) && servers[id] == old(servers)[id])
        || (id != "" && exists i | 0 <= i < |peers| :: peers[i] == Peer(id, servers[id]))
    {
      DesiredListed(peers);
      hide Desired, Stands, Named, AddrChanged;
      added, updated, removed := [], [], [];
      if * { return [], [], [], false; }
      var current := servers;
      var desired := IndexPeers(peers);
      added, ok := AddMissing(desired);
      if !ok { return; }
      updated, ok := UpdateStale(net, current, desired);
      if !ok { return; }
      removed, ok := RemoveExtra(current, desired);
      if ok { InPeerTerms(net, current, servers, updated, peers); }
    }

    /** A second successful run with the same resolutions changes nothing and says so. */
    method ReconcileTwice(net: Net, peers: seq<Peer>)
      returns (added: seq<string>, updated: seq<string>, removed: seq<string>, ok: bool)
      modifies this
      ensures ok ==> added == [] && updated == [] && removed == []
      ensures ok ==> servers == Target(net, old(servers), Desired(peers))
    {
      added, updated, removed, ok := Reconcile(net, peers);
      if !ok { return; }
      TargetIdempotent(net, old(servers), Desired(peers));
      added, updated, removed, ok := Reconcile(net, peers);
      if ok {
        TargetSettled(net, old(servers), Desired(peers));
        assert forall id :: id !in added && id !in updated && id !in removed;
        FirstElement(added);
        FirstElement(updated);
        FirstElement(removed);
      }
    }
  }

  /** A desired address is some peer's. */
  lemma DesiredListed(peers: seq<Peer>)
    ensures forall id <- Desired(peers) :: id != "" && exists i | 0 <= i < |peers| :: peers[i] == Peer(id, Desired(peers)[id])
  {
    DesiredMeaning(peers);
    forall id <- Desired(peers) ensures exists i | 0 <= i < |peers| :: peers[i] == Peer(id, Desired(peers)[id]) {
      var i := SomePeerStands(peers, id);
      assert peers[i] == Peer(id, Desired(peers)[id]);
    }
  }

  lemma InPeerTerms(net: Net, was: map<string, string>, now: map<string, string>, updated: seq<string>, peers: seq<Peer>)
    requires now.Keys == Desired(peers).Keys && (forall id :: id in updated <==> Stale(net, was, Desired(peers), id))
    requires forall id <- now ::
      now[id] == if id !in was || Stale(net, was, Desired(peers), id) then Desired(peers)[id] else was[id]
    ensures now == Target(net, was, Desired(peers))
    ensures forall id :: id in now <==> id != "" && Named(peers, id)
    ensures forall i: nat | Stands(peers, i) :: var id, address := peers[i].id, peers[i].address;
      id in now && (
        if id in was && was[id] != address && net.isName(address) && net.lookup(address) == Some(was[id])
        then now[id] == was[id] && id !in updated
        else now[id] == address && (id in updated <==> id in was && was[id] != address))
  {
    DesiredMeaning(peers);
    hide Desired, Stands, Named;
  }

  lemma FirstElement(s: seq<string>)
    ensures s != [] ==> s[0] in s
  {
  }

  method IndexPeers(peers: seq<Peer>) returns (d: map<string, string>)
    ensures d == Desired(peers)
  {
    d := map[];
    for i := 0 to |peers|
      invariant d == Desired(peers[..i])
    {
      assert peers[..i + 1][..i] == peers[..i];
      if peers[i].id != "" { d := d[peers[i].id := peers[i].address]; }
    }
    assert peers[..|peers|] == peers;
  }
}
