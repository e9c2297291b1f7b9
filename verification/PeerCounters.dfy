/** Peer bookkeeping: per-torrent and per-session counters of peers in each state. */
module PeerCounters {
  import opened Outcomes

  type Addr = nat

  datatype PeerState = Queued | Connecting | Live | Dead | NotNeeded

  datatype Peer = Peer(state: PeerState, outgoing: Option<Addr>)

  datatype Counters = Counters(queued: nat, connecting: nat, live: nat, dead: nat, notNeeded: nat)
  {
    function Get(st: PeerState): nat {
      match st
      case Queued => queued
      case Connecting => connecting
      case Live => live
      case Dead => dead
      case NotNeeded => notNeeded
    }

    function Set(st: PeerState, n: nat): (r: Counters)
      ensures forall other: PeerState :: r.Get(other) == if other == st then n else Get(other)
    {
      match st
      case Queued => this.(queued := n)
      case Connecting => this.(connecting := n)
      case Live => this.(live := n)
      case Dead => this.(dead := n)
      case NotNeeded => this.(notNeeded := n)
    }

    function Inc(st: PeerState): Counters { Set(st, Get(st) + 1) }

    /** Callers show that there is something to take away. */
    function Dec(st: PeerState): Counters
      requires Get(st) > 0
    {
      Set(st, Get(st) - 1)
    }
  }

  const ZERO: Counters := Counters(0, 0, 0, 0, 0)

  function Matching(peers: map<Addr, Peer>, st: PeerState): set<Addr> {
    set a | a in peers && peers[a].state == st
  }

  /** Each counter is the number of peers in its state. */
  ghost predicate Counts(c: Counters, peers: map<Addr, Peer>) {
    forall st :: c.Get(st) == |Matching(peers, st)|
  }

  ghost predicate Covers(total: Counters, part: Counters) {
    forall st :: total.Get(st) >= part.Get(st)
  }

  /** Counting a peer in, or out, in both places. */
  lemma BothCounted(total: Counters, part: Counters, st: PeerState)
    requires Covers(total, part)
    ensures Covers(total.Inc(st), part.Inc(st)) && SameRest(total, part, total.Inc(st), part.Inc(st))
    ensures part.Get(st) > 0 ==>
              total.Get(st) > 0 && Covers(total.Dec(st), part.Dec(st)) && SameRest(total, part, total.Dec(st), part.Dec(st))
  {
    forall o: PeerState ensures total.Inc(st).Get(o) - part.Inc(st).Get(o) == total.Get(o) - part.Get(o) {}
    if part.Get(st) > 0 {
      assert total.Get(st) >= part.Get(st);
      forall o: PeerState ensures total.Dec(st).Get(o) - part.Dec(st).Get(o) == total.Get(o) - part.Get(o) {}
    }
  }

  /** Both counters moved by the same amounts: the part of `total` that is not `part` is kept. */
  ghost predicate SameRest(total: Counters, part: Counters, total': Counters, part': Counters) {
    forall st :: total'.Get(st) - part'.Get(st) == total.Get(st) - part.Get(st)
  }

  /** Each counter by its own name. */
  lemma CountersByName(c: Counters, peers: map<Addr, Peer>)
    requires Counts(c, peers)
    ensures c.queued == |Matching(peers, Queued)|
    ensures c.connecting == |Matching(peers, Connecting)|
    ensures c.live == |Matching(peers, Live)|
    ensures c.dead == |Matching(peers, Dead)|
    ensures c.notNeeded == |Matching(peers, NotNeeded)|
  {
    assert c.Get(Queued) == |Matching(peers, Queued)| && c.Get(Connecting) == |Matching(peers, Connecting)|;
    assert c.Get(Live) == |Matching(peers, Live)| && c.Get(Dead) == |Matching(peers, Dead)|;
    assert c.Get(NotNeeded) == |Matching(peers, NotNeeded)|;
  }

  lemma CountsInsert(c: Counters, peers: map<Addr, Peer>, a: Addr, p: Peer)
    requires Counts(c, peers) && a !in peers
    ensures Counts(c.Inc(p.state), peers[a := p])
  {
    forall st ensures c.Inc(p.state).Get(st) == |Matching(peers[a := p], st)| {
      var before, after := Matching(peers, st), Matching(peers[a := p], st);
      assert a !in before && c.Get(st) == |before|;
      if st == p.state {
        assert after == before + {a};
      } else {
        assert after == before;
      }
    }
  }

  lemma CountsRemove(c: Counters, peers: map<Addr, Peer>, a: Addr)
    requires Counts(c, peers) && a in peers
    ensures c.Get(peers[a].state) > 0 && Counts(c.Dec(peers[a].state), peers - {a})
  {
    assert a in Matching(peers, peers[a].state);
    forall st ensures |Matching(peers - {a}, st)| == c.Get(st) - (if st == peers[a].state then 1 else 0) {
      assert Matching(peers - {a}, st) == Matching(peers, st) - {a};
    }
  }

  datatype Incoming = Accepted | LimitReached | AlreadyConnected

  predicate Retried(p: Peer) { p.state == NotNeeded && p.outgoing.Some? }

  /** A peer after reconnecting was tried: queued if it was not needed and its address is its own. */
  function Requeued(p: Peer, a: Addr): Peer {
    if p.state == NotNeeded && p.outgoing == Some(a) then p.(state := Queued) else p
  }

  class SessionStats {
    var peers: Counters

    constructor ()
      ensures peers == ZERO
    {
      peers := ZERO;
    }
  }

  class PeerStates {
    const session: SessionStats
    var stats: Counters
    var states: map<Addr, Peer>

    /** Every counter of the torrent is exact, and the session counts at least as many. */
    ghost predicate Valid()
      reads this, session
    {
      Counts(stats, states) && Covers(session.peers, stats)
    }

    constructor (session: SessionStats)
      ensures Valid() && this.session == session && states == map[] && stats == ZERO
    {
      this.session := session;
      stats := ZERO;
      states := map[];
      new;
      forall st ensures stats.Get(st) == |Matching(states, st)| {
        assert Matching(states, st) == {};
      }
    }

    /** A new peer, in some state. */
    method Insert(a: Addr, p: Peer)
      requires Valid() && a !in states
      modifies this, session
      ensures Valid() && states == old(states)[a := p]
      ensures SameRest(old(session.peers), old(stats), session.peers, stats)
    {
      CountsInsert(stats, states, a, p);
      BothCounted(session.peers, stats, p.state);
      session.peers := session.peers.Inc(p.state);
      stats := stats.Inc(p.state);
      states := states[a := p];
    }

    /** A known peer moves to a new state; its old one is counted down without underflow. */
    method SetState(a: Addr, new_: PeerState)
      requires Valid() && a in states
      modifies this, session
      ensures Valid() && states == old(states)[a := old(states)[a].(state := new_)]
      ensures SameRest(old(session.peers), old(stats), session.peers, stats)
    {
      var p := states[a];
      CountsRemove(stats, states, a);
      BothCounted(session.peers, stats, p.state);
      CountsInsert(stats.Dec(p.state), states - {a}, a, p.(state := new_));
      BothCounted(session.peers.Dec(p.state), stats.Dec(p.state), new_);
      assert (states - {a})[a := p.(state := new_)] == states[a := p.(state := new_)];
      session.peers := session.peers.Dec(p.state).Inc(new_);
      stats := stats.Dec(p.state).Inc(new_);
      states := states[a := p.(state := new_)];
    }

    method AddIfNotSeen(a: Addr) returns (added: bool)
      requires Valid()
      modifies this, session
      ensures Valid() && (added <==> a !in old(states))
      ensures states == if added then old(states)[a := Peer(Queued, Some(a))] else old(states)
      ensures SameRest(old(session.peers), old(stats), session.peers, stats)
    {
      if a in states {
        return false;
      }
      Insert(a, Peer(Queued, Some(a)));
      return true;
    }

    /** An incoming connection makes the peer live, unless the limit of live peers is reached or the
        peer is already connecting or live. */
    method AddIncoming(a: Addr, permit: bool) returns (r: Incoming)
      requires Valid()
      modifies this, session
      ensures Valid()
      ensures r == if !permit then LimitReached
                   else if a in old(states) && old(states)[a].state in {Connecting, Live} then AlreadyConnected
                   else Accepted
      ensures states == if r != Accepted then old(states)
                        else old(states)[a := Peer(Live, if a in old(states) then old(states)[a].outgoing else None)]
      ensures SameRest(old(session.peers), old(stats), session.peers, stats)
    {
      if !permit {
        return LimitReached;
      }
      if a !in states {
        Insert(a, Peer(Live, None));
        return Accepted;
      }
      if states[a].state.Connecting? || states[a].state.Live? {
        return AlreadyConnected;
      }
      SetState(a, Queued);
      SetState(a, Live);
      return Accepted;
    }

    method MarkPeerConnecting(a: Addr) returns (ok: bool)
      requires Valid()
      modifies this, session
      ensures Valid() && (ok <==> a in old(states) && old(states)[a].state in {Queued, NotNeeded})
      ensures states == if ok then old(states)[a := old(states)[a].(state := Connecting)] else old(states)
      ensures SameRest(old(session.peers), old(stats), session.peers, stats)
    {
      if a !in states || !(states[a].state.Queued? || states[a].state.NotNeeded?) {
        return false;
      }
      SetState(a, Connecting);
      return true;
    }

    method ConnectingToLive(a: Addr) returns (ok: bool)
      requires Valid()
      modifies this, session
      ensures Valid() && (ok <==> a in old(states) && old(states)[a].state == Connecting)
      ensures states == if ok then old(states)[a := old(states)[a].(state := Live)] else old(states)
      ensures SameRest(old(session.peers), old(stats), session.peers, stats)
    {
      if a !in states || !states[a].state.Connecting? {
        return false;
      }
      SetState(a, Queued);
      SetState(a, Live);
      return true;
    }

    method MarkPeerNotNeeded(a: Addr) returns (prev: Option<PeerState>)
      requires Valid()
      modifies this, session
      ensures Valid() && prev == if a in old(states) then Some(old(states)[a].state) else None
      ensures states == if a in old(states) then old(states)[a := old(states)[a].(state := NotNeeded)] else old(states)
      ensures SameRest(old(session.peers), old(stats), session.peers, stats)
    {
      if a !in states {
        return None;
      }
      prev := Some(states[a].state);
      SetState(a, NotNeeded);
    }

    /** A peer that is not needed is queued again if its outgoing address is its own. */
    method ReconnectNotNeededPeer(a: Addr) returns (retry: Option<Addr>)
      requires Valid() && a in states
      modifies this, session
      ensures Valid()
      ensures retry == if old(states)[a].state == NotNeeded then old(states)[a].outgoing else None
      ensures states == if old(states)[a].state == NotNeeded && old(states)[a].outgoing == Some(a)
                        then old(states)[a := old(states)[a].(state := Queued)] else old(states)
      ensures SameRest(old(session.peers), old(stats), session.peers, stats)
    {
      if !states[a].state.NotNeeded? {
        return None;
      }
      retry := states[a].outgoing;
      if states[a].outgoing == Some(a) {
        SetState(a, Queued);
      }
    }

    /** Every peer that is not needed is given another chance; `retry` are the addresses to connect to. */
    method ReconnectAll() returns (retry: set<Addr>)
      requires Valid()
      modifies this, session
      ensures Valid() && states.Keys == old(states).Keys
      ensures forall a :: a in states ==>
                && states[a].outgoing == old(states)[a].outgoing
                && states[a].state == if old(states)[a] == Peer(NotNeeded, Some(a)) then Queued else old(states)[a].state
      ensures forall b :: b in retry <==> exists a :: a in old(states) && old(states)[a] == Peer(NotNeeded, Some(b))
      ensures SameRest(old(session.peers), old(stats), session.peers, stats)
    {
      retry := {};
      var todo := states.Keys;
      ghost var done: set<Addr> := {};
      while todo != {}
        invariant Valid() && states.Keys == old(states).Keys == done + todo && done !! todo
        invariant forall a :: a in states ==> states[a] == if a in done then Requeued(old(states)[a], a) else old(states)[a]
        invariant retry == set a | a in done && Retried(old(states)[a]) :: old(states)[a].outgoing.value
        invariant SameRest(old(session.peers), old(stats), session.peers, stats)
        decreases todo
      {
        var a :| a in todo;
        var r := ReconnectNotNeededPeer(a);
        if r.Some? { retry := retry + {r.value}; }
        done, todo := done + {a}, todo - {a};
      }
      assert done == old(states).Keys;
      forall b | exists a :: a in old(states) && old(states)[a] == Peer(NotNeeded, Some(b)) ensures b in retry {
        var a :| a in old(states) && old(states)[a] == Peer(NotNeeded, Some(b));
        assert a in done && Retried(old(states)[a]);
      }
    }

    method DropPeer(a: Addr)
      requires Valid()
      modifies this, session
      ensures Valid() && states == old(states) - {a}
      ensures SameRest(old(session.peers), old(stats), session.peers, stats)
    {
      if a in states {
        var st := states[a].state;
        CountsRemove(stats, states, a);
        BothCounted(session.peers, stats, st);
        stats := stats.Dec(st);
        session.peers := session.peers.Dec(st);
        states := states - {a};
      } else {
        assert states - {a} == states;
      }
    }

    /** What becomes of a peer whose connection ended: forgotten if it was in no connected state,
        left alone if not needed, else parked as not needed or dead, or dropped for good. A live peer
        with requests to cancel on a paused torrent is an error, and the peer is left queued. */
    method OnPeerDied(a: Addr, requests: bool, paused: bool, failed: bool, finished: bool, incoming: bool, retriesLeft: bool)
      returns (ok: bool)
      requires Valid()
      modifies this, session
      ensures Valid()
      ensures ok <==> !(a in old(states) && old(states)[a].state == Live && requests && paused)
      ensures states == if ok then AfterDeath(old(states), a, failed, finished, incoming, retriesLeft)
                        else old(states)[a := old(states)[a].(state := Queued)]
      ensures states.Keys - {a} == old(states).Keys - {a} && forall b :: b in states && b != a ==> states[b] == old(states)[b]
      ensures a in states ==> a in old(states) && states[a].outgoing == old(states)[a].outgoing
      ensures ok && a in old(states) ==>
                match old(states)[a].state
                case NotNeeded => a in states && states[a].state == NotNeeded
                case Queued => a !in states
                case Dead => a !in states
                case _ =>
                  if failed && !finished && !incoming && !retriesLeft then a !in states
                  else a in states && states[a].state == if failed && !finished then Dead else NotNeeded
      ensures SameRest(old(session.peers), old(stats), session.peers, stats)
    {
      ok := true;
      if a !in states {
        return;
      }
      var prev := states[a].state;
      SetState(a, Queued);
      if prev.Live? && requests && paused {
        return false;
      }
      if prev.NotNeeded? {
        SetState(a, NotNeeded);
        return;
      }
      if prev.Queued? || prev.Dead? {
        DropPeer(a);
        return;
      }
      if !failed || finished {
        SetState(a, NotNeeded);
        return;
      }
      SetState(a, Dead);
      if !incoming && !retriesLeft {
        DropPeer(a);
      }
    }

    /** The torrent is dropped: its peers leave the session's counters, and nothing else does. */
    method DropAll()
      requires Valid()
      modifies this, session
      ensures Valid() && states == map[] && stats == ZERO
      ensures forall st :: session.peers.Get(st) == old(session.peers).Get(st) - old(stats).Get(st)
    {
      while states != map[]
        invariant Valid() && SameRest(old(session.peers), old(stats), session.peers, stats)
        decreases |states|
      {
        var a :| a in states;
        assert |states - {a}| < |states| by { assert (states - {a}).Keys == states.Keys - {a}; }
        DropPeer(a);
      }
      forall st ensures stats.Get(st) == 0 {
        assert Matching(states, st) == {};
      }
      assert stats.Get(Queued) == 0 && stats.Get(Connecting) == 0 && stats.Get(Live) == 0
             && stats.Get(Dead) == 0 && stats.Get(NotNeeded) == 0;
    }
  }

  function AfterDeath(states: map<Addr, Peer>, a: Addr, failed: bool, finished: bool, incoming: bool, retriesLeft: bool): map<Addr, Peer> {
    if a !in states || states[a].state.NotNeeded? then states
    else if states[a].state.Queued? || states[a].state.Dead? then states - {a}
    else if !failed || finished then states[a := states[a].(state := NotNeeded)]
    else if incoming || retriesLeft then states[a := states[a].(state := Dead)]
    else states - {a}
  }

  // ---- many torrents in one session ----

  /** The peers in state `st` over the first `n` torrents. */
  function SumOver(torrents: seq<Counters>, st: PeerState, n: nat): nat
    requires n <= |torrents|
  {
    if n == 0 then 0 else SumOver(torrents, st, n - 1) + torrents[n - 1].Get(st)
  }

  ghost predicate SessionExact(total: Counters, torrents: seq<Counters>) {
    forall st :: total.Get(st) == SumOver(torrents, st, |torrents|)
  }

  lemma {:induction false} SumUpdate(torrents: seq<Counters>, st: PeerState, i: nat, c: Counters, n: nat)
    requires i < |torrents| && n <= |torrents|
    ensures SumOver(torrents[i := c], st, n)
            == SumOver(torrents, st, n) + (if i < n then c.Get(st) - torrents[i].Get(st) else 0)
  {
    if n > 0 { SumUpdate(torrents, st, i, c, n - 1); }
  }

  lemma {:induction false} SumCovers(torrents: seq<Counters>, st: PeerState, i: nat, n: nat)
    requires i < n <= |torrents|
    ensures SumOver(torrents, st, n) >= torrents[i].Get(st)
  {
    if i < n - 1 { SumCovers(torrents, st, i, n - 1); }
  }

  /** An exact session covers each of its torrents, which is what their operations rely on. */
  lemma ExactCovers(total: Counters, torrents: seq<Counters>, i: nat)
    requires SessionExact(total, torrents) && i < |torrents|
    ensures Covers(total, torrents[i])
  {
    forall st ensures total.Get(st) >= torrents[i].Get(st) { SumCovers(torrents, st, i, |torrents|); }
  }

  /** What a session goes through: torrents are added, change their own counters together with the
      session's, and are dropped. */
  datatype Event = Added | Changed(torrent: nat, counters: Counters) | Dropped(torrent: nat)

  ghost predicate Happens(total: Counters, torrents: seq<Counters>, e: Event, total': Counters, torrents': seq<Counters>) {
    match e
    case Added => total' == total && torrents' == torrents + [ZERO]
    case Changed(i, c) =>
      i < |torrents| && torrents' == torrents[i := c] && SameRest(total, torrents[i], total', c)
    case Dropped(i) =>
      && i < |torrents| && torrents' == torrents[i := ZERO]
      && forall st :: total'.Get(st) == total.Get(st) - torrents[i].Get(st)
  }

  ghost predicate History(totals: seq<Counters>, torrents: seq<seq<Counters>>, events: seq<Event>) {
    && |totals| == |torrents| == |events| + 1 && totals[0] == ZERO && torrents[0] == []
    && forall k :: 0 <= k < |events| ==>
         Happens(totals[k], torrents[k], events[k], totals[k + 1], torrents[k + 1])
  }

  /** Over every history the session's counters are the sums over its torrents. */
  lemma {:induction false} SessionAlwaysExact(totals: seq<Counters>, torrents: seq<seq<Counters>>, events: seq<Event>, n: nat)
    requires History(totals, torrents, events) && n <= |events|
    ensures SessionExact(totals[n], torrents[n])
  {
    if n > 0 {
      SessionAlwaysExact(totals, torrents, events, n - 1);
      EventKeepsExact(totals[n - 1], torrents[n - 1], events[n - 1], totals[n], torrents[n]);
    }
  }

  lemma EventKeepsExact(total: Counters, torrents: seq<Counters>, e: Event, total': Counters, torrents': seq<Counters>)
    requires SessionExact(total, torrents) && Happens(total, torrents, e, total', torrents')
    ensures SessionExact(total', torrents')
  {
    forall st ensures total'.Get(st) == SumOver(torrents', st, |torrents'|) {
      match e
      case Added =>
        SumPrefix(torrents, torrents', st, |torrents|);
      case Changed(i, c) => SumUpdate(torrents, st, i, c, |torrents|);
      case Dropped(i) => SumUpdate(torrents, st, i, ZERO, |torrents|);
    }
  }

  lemma {:induction false} SumPrefix(a: seq<Counters>, b: seq<Counters>, st: PeerState, n: nat)
    requires n <= |a| && n <= |b| && forall k :: 0 <= k < n ==> a[k] == b[k]
    ensures SumOver(a, st, n) == SumOver(b, st, n)
  {
    if n > 0 { SumPrefix(a, b, st, n - 1); }
  }
}
