// components/clock_sync/tsf_sync.cpp, find_peer_ and receive_: the table of peers' raw lines and
// the gates a packet passes on its way into it.
module PeerTable {
  import opened Numeric
  import opened TsfLine

  const MAX_PEERS: nat := 8
  const TSF_MAGIC: int := 0x534E5446
  const TSF_VERSION: int := 1

  // mapValid, mapSeen and line are the peer's published line; seen orders evictions.
  datatype Peer = Peer(mac: int, used: bool, seen: int, mapValid: bool, mapSeen: int, line: Line)

  // Peer{}
  const EMPTY_PEER: Peer := Peer(0, false, 0, false, 0, Line(0, 0, 0.0))

  function Fresh(mac: int, now: int): Peer {
    EMPTY_PEER.(mac := mac, used := true, seen := now)
  }

  predicate Holds(p: Peer, mac: int) {
    p.used && p.mac == mac
  }

  // ----- find_peer_

  function Scan(peers: seq<Peer>, mac: int, i: nat, oldest: nat): (slot: nat)
    requires i <= |peers| && oldest < |peers|
    ensures slot < |peers|
    decreases |peers| - i
  {
    if i == |peers| then oldest
    else if Holds(peers[i], mac) || !peers[i].used then i
    else Scan(peers, mac, i + 1, if peers[i].seen < peers[oldest].seen then i else oldest)
  }

  function Slot(peers: seq<Peer>, mac: int): (slot: nat)
    requires peers != []
    ensures slot < |peers|
  {
    Scan(peers, mac, 0, 0)
  }

  function FindPeer(peers: seq<Peer>, mac: int, now: int): (r: seq<Peer>)
    requires peers != []
    ensures |r| == |peers|
  {
    var i := Slot(peers, mac);
    if Holds(peers[i], mac) then peers else peers[i := Fresh(mac, now)]
  }

  // Slots fill from the front, are never given back, and no two hold the same address.
  ghost predicate WellFormed(peers: seq<Peer>) {
    && |peers| == MAX_PEERS
    && (forall i, j :: 0 <= i < j < |peers| && peers[j].used ==> peers[i].used)
    && (forall i, j :: 0 <= i < j < |peers| && peers[i].used && peers[j].used ==> peers[i].mac != peers[j].mac)
  }

  // A slot that would be taken for a new address: the first unused one, or with none the one
  // heard from longest ago, the first of those on a tie.
  ghost predicate IsVictim(peers: seq<Peer>, i: nat)
    requires i < |peers|
  {
    if exists j :: 0 <= j < |peers| && !peers[j].used then
      !peers[i].used && forall j :: 0 <= j < i ==> peers[j].used
    else
      && (forall j :: 0 <= j < |peers| ==> peers[i].seen <= peers[j].seen)
      && (forall j :: 0 <= j < i ==> peers[i].seen < peers[j].seen)
  }

  lemma {:induction false} ScanFinds(peers: seq<Peer>, mac: int, i: nat, oldest: nat)
    requires WellFormed(peers) && i <= |peers| && oldest < |peers| && (oldest < i || i == oldest == 0)
    requires forall j :: 0 <= j < i ==> peers[j].used && peers[j].mac != mac
    requires forall j :: 0 <= j < i ==> peers[oldest].seen <= peers[j].seen
    requires forall j :: 0 <= j < oldest ==> peers[oldest].seen < peers[j].seen
    ensures var slot := Scan(peers, mac, i, oldest);
      if exists j :: 0 <= j < |peers| && Holds(peers[j], mac) then Holds(peers[slot], mac) else IsVictim(peers, slot)
    decreases |peers| - i
  {
    if i < |peers| && peers[i].used && peers[i].mac != mac {
      ScanFinds(peers, mac, i + 1, if peers[i].seen < peers[oldest].seen then i else oldest);
    } else if i < |peers| && !peers[i].used {
      assert forall j :: i <= j < |peers| ==> !peers[j].used;
    }
  }

  // The scan finds the address wherever it is in the table, and otherwise picks the victim.
  lemma SlotFinds(peers: seq<Peer>, mac: int)
    requires WellFormed(peers)
    ensures if exists j :: 0 <= j < |peers| && Holds(peers[j], mac) then Holds(peers[Slot(peers, mac)], mac)
      else IsVictim(peers, Slot(peers, mac))
  {
    ScanFinds(peers, mac, 0, 0);
  }

  // What the table says about an address.
  function Lookup(peers: seq<Peer>, mac: int): Option<Peer>
    requires peers != []
  {
    var p := peers[Slot(peers, mac)];
    if Holds(p, mac) then Some(p) else None
  }

  lemma LookupIs(peers: seq<Peer>, i: nat)
    requires WellFormed(peers) && i < |peers| && peers[i].used
    ensures Slot(peers, peers[i].mac) == i && Lookup(peers, peers[i].mac) == Some(peers[i])
  {
    SlotFinds(peers, peers[i].mac);
  }

  // Finding an address keeps the table well formed, gives it the slot the scan stopped at, and
  // leaves every other slot as it was.
  lemma FindPeerKeeps(peers: seq<Peer>, mac: int, now: int)
    requires WellFormed(peers)
    ensures var (i, r) := (Slot(peers, mac), FindPeer(peers, mac, now));
      && WellFormed(r) && Holds(r[i], mac) && Slot(r, mac) == i
      && r == peers[i := r[i]]
      && r[i] == if Lookup(peers, mac).Some? then peers[i] else Fresh(mac, now)
  {
    SlotFinds(peers, mac);
    var i, r := Slot(peers, mac), FindPeer(peers, mac, now);
    assert WellFormed(r);
    LookupIs(r, i);
  }

  // ----- packets

  // adopted is the sender's adopted mapping at the line's base, for comparison only.
  datatype Packet = Packet(magic: int, version: int, sender: int, bssid: int, server: int, stream: int,
    noMapping: bool, line: Line, adopted: Option<int>)

  // A datagram and the TSF sample taken when it is evaluated.
  datatype Arrival = Arrival(pkt: Packet, sample: Sample)

  // The receiver's side of the gates; a stream of 0 is unknown.
  datatype Receiver = Receiver(mac: int, bssid: int, server: int, stream: int, now: int, est: Estimate,
    plausibility: int)

  predicate Admits(rx: Receiver, pkt: Packet) {
    && pkt.magic == TSF_MAGIC && pkt.version == TSF_VERSION
    && pkt.sender != rx.mac
    && pkt.bssid == rx.bssid
    && pkt.server == rx.server
    && !(pkt.stream != 0 && rx.stream != 0 && pkt.stream != rx.stream)
  }

  predicate Plausible(rx: Receiver, offset: int) {
    rx.est.valid && rx.est.mature ==> AbsInt(offset - Trunc(rx.est.offsetMs * 1000.0)) <= rx.plausibility
  }

  predicate Pools(rx: Receiver, a: Arrival) {
    && !a.pkt.noMapping
    && var e := Evaluate(a.pkt.line, a.sample);
    e.Offset? && Plausible(rx, e.us)
  }

  function Heard(p: Peer, rx: Receiver, a: Arrival): Peer {
    if Pools(rx, a) then p.(seen := rx.now, mapValid := true, mapSeen := rx.now, line := a.pkt.line)
    else p.(seen := rx.now)
  }

  function Receive(peers: seq<Peer>, rx: Receiver, a: Arrival): (r: seq<Peer>)
    requires peers != []
    ensures |r| == |peers|
  {
    if !Admits(rx, a.pkt) then peers
    else
      var t, i := FindPeer(peers, a.pkt.sender, rx.now), Slot(peers, a.pkt.sender);
      t[i := Heard(t[i], rx, a)]
  }

  // The receive loop: in order of arrival, the last one last.
  function ReceiveAll(peers: seq<Peer>, rx: Receiver, arrivals: seq<Arrival>): (r: seq<Peer>)
    requires peers != []
    ensures |r| == |peers|
  {
    if arrivals == [] then peers
    else Receive(ReceiveAll(peers, rx, arrivals[..|arrivals| - 1]), rx, arrivals[|arrivals| - 1])
  }

  // ----- what a packet does to the table

  // Only the sender's slot changes: it keeps what it held, or starts afresh if the sender was not
  // in the table, and takes the line exactly when the packet passes every gate.
  lemma ReceiveChangesOneSlot(peers: seq<Peer>, rx: Receiver, a: Arrival)
    requires WellFormed(peers)
    ensures WellFormed(Receive(peers, rx, a))
    ensures !Admits(rx, a.pkt) ==> Receive(peers, rx, a) == peers
    ensures Admits(rx, a.pkt) ==>
      var (mac, prior) := (a.pkt.sender, Lookup(peers, a.pkt.sender));
      var i := Slot(peers, mac);
      && Receive(peers, rx, a) == peers[i := Receive(peers, rx, a)[i]]
      && Lookup(Receive(peers, rx, a), mac) ==
           Some(Heard(if prior.Some? then prior.value else Fresh(mac, rx.now), rx, a))
      && (prior.None? ==> IsVictim(peers, i))
  {
    if Admits(rx, a.pkt) {
      var mac := a.pkt.sender;
      SlotFinds(peers, mac);
      FindPeerKeeps(peers, mac, rx.now);
      hide Pools, Scan, Slot;
      var r, i := Receive(peers, rx, a), Slot(peers, mac);
      assert WellFormed(r);
      assert Holds(r[i], mac);
      LookupIs(r, i);
    }
  }

  // An address already in the table, or a table with room, costs no other address its slot.
  lemma OthersKeepTheirSlot(peers: seq<Peer>, rx: Receiver, a: Arrival, mac: int)
    requires WellFormed(peers) && mac != a.pkt.sender
    requires Lookup(peers, a.pkt.sender).Some? || !peers[MAX_PEERS - 1].used
    ensures WellFormed(Receive(peers, rx, a))
    ensures Lookup(Receive(peers, rx, a), mac) == Lookup(peers, mac)
  {
    ReceiveChangesOneSlot(peers, rx, a);
    if Admits(rx, a.pkt) {
      hide Pools, Scan, Receive, Heard;
      var r, i := Receive(peers, rx, a), Slot(peers, a.pkt.sender);
      SlotFinds(peers, mac);
      SlotFinds(r, mac);
      if Lookup(peers, mac).Some? {
        var j := Slot(peers, mac);
        assert j != i;
        LookupIs(r, j);
      } else if Lookup(r, mac).Some? {
        var j := Slot(r, mac);
        if j != i {
          LookupIs(peers, j);
        }
      }
    }
  }
}
