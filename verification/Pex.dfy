/** Peer exchange (BEP 11): telling a peer, in bounded messages, which peers are live. */
module Pex {
  import opened Lengths

  type Addr = nat

  const MAX_SENT_PEERS: nat := 50

  datatype Message = Message(connected: set<Addr>, dropped: set<Addr>)

  /** Up to fifty elements of a set, whichever come first. */
  method TakeSome(s: set<Addr>) returns (r: set<Addr>)
    ensures r <= s && |r| == Min(MAX_SENT_PEERS, |s|)
  {
    r := {};
    var rest := s;
    while |r| < MAX_SENT_PEERS && rest != {}
      invariant r + rest == s && r !! rest && |r| <= MAX_SENT_PEERS
      decreases |rest|
    {
      var a :| a in rest;
      r, rest := r + {a}, rest - {a};
    }
    assert |s| == |r| + |rest|;
    if rest == {} { assert r == s; }
  }

  /** What a receiver holds after applying a message. */
  function Apply(held: set<Addr>, m: Message): set<Addr> { held - m.dropped + m.connected }

  /** One message for a given live set: news only, bounded, and never both ways. */
  ghost predicate IsDelta(view: set<Addr>, live: set<Addr>, m: Message) {
    && m.connected <= live - view && |m.connected| == Min(MAX_SENT_PEERS, |live - view|)
    && m.dropped <= view - live && |m.dropped| == Min(MAX_SENT_PEERS, |view - live|)
  }

  class PexSender {
    var view: set<Addr>   // the peer's view of live peers

    constructor ()
      ensures view == {}
    {
      view := {};
    }

    /** One tick. The message, if any, is a delta towards the live set, and the sender's view
        becomes what a receiver that held the old view then holds. */
    method Tick(live: set<Addr>) returns (m: Message)
      modifies this
      ensures IsDelta(old(view), live, m) && m.connected !! m.dropped
      ensures view == Apply(old(view), m) && view == old(view) - m.dropped + m.connected
      ensures |m.connected| <= 50 && |m.dropped| <= 50
      ensures m.connected <= live - old(view) && m.dropped <= old(view) - live
    {
      var connected := TakeSome(live - view);
      var dropped := TakeSome(view - live);
      m := Message(connected, dropped);
      if connected != {} || dropped != {} {
        view := view - dropped;
        view := view + connected;
      }
    }
  }

  /** A delta moves exactly its entries out of the difference, on both sides. */
  lemma DeltaShrinks(view: set<Addr>, live: set<Addr>, m: Message)
    requires IsDelta(view, live, m)
    ensures |live - Apply(view, m)| == Max(0, |live - view| - MAX_SENT_PEERS)
    ensures |Apply(view, m) - live| == Max(0, |view - live| - MAX_SENT_PEERS)
  {
    assert live - Apply(view, m) == (live - view) - m.connected;
    assert Apply(view, m) - live == (view - live) - m.dropped;
  }

  /** The views before, between and after ticks, each a delta towards the live set of its tick. */
  ghost predicate Ticks(views: seq<set<Addr>>, lives: seq<set<Addr>>, ms: seq<Message>) {
    && |views| == |ms| + 1 && |lives| == |ms|
    && forall k :: 0 <= k < |ms| ==> IsDelta(views[k], lives[k], ms[k]) && views[k + 1] == Apply(views[k], ms[k])
  }

  /** What a receiver holds after the first `n` messages. */
  function Received(held: set<Addr>, ms: seq<Message>, n: nat): set<Addr>
    requires n <= |ms|
  {
    if n == 0 then held else Apply(Received(held, ms, n - 1), ms[n - 1])
  }

  /** A receiver that applies the messages always holds the sender's view, whatever the live sets. */
  lemma {:induction false} ReceiverHoldsView(views: seq<set<Addr>>, lives: seq<set<Addr>>, ms: seq<Message>, n: nat)
    requires Ticks(views, lives, ms) && n <= |ms|
    ensures Received(views[0], ms, n) == views[n]
  {
    if n > 0 { ReceiverHoldsView(views, lives, ms, n - 1); }
  }

  /** While the live set stays the same, both differences shrink by fifty per tick. */
  lemma {:induction false} DifferenceAfter(views: seq<set<Addr>>, live: set<Addr>, ms: seq<Message>, n: nat)
    requires Ticks(views, seq(|ms|, _ => live), ms) && n <= |ms|
    ensures |live - views[n]| == Max(0, |live - views[0]| - n * MAX_SENT_PEERS)
    ensures |views[n] - live| == Max(0, |views[0] - live| - n * MAX_SENT_PEERS)
  {
    if n > 0 {
      DifferenceAfter(views, live, ms, n - 1);
      DeltaShrinks(views[n - 1], live, ms[n - 1]);
    }
  }

  /** For a fixed live set the view becomes the live set in exactly
      `ceil(max(|live - view|, |view - live|) / 50)` ticks: then, and no earlier. */
  lemma Converges(views: seq<set<Addr>>, live: set<Addr>, ms: seq<Message>, n: nat)
    requires Ticks(views, seq(|ms|, _ => live), ms) && n <= |ms|
    ensures views[n] == live
            <==> n >= CeilDiv(Max(|live - views[0]|, |views[0] - live|), 50)
  {
    DifferenceAfter(views, live, ms, n);
    assert views[n] == live <==> live - views[n] == {} && views[n] - live == {} by {
      if live - views[n] == {} && views[n] - live == {} {
        forall a ensures a in views[n] <==> a in live {
          assert a !in live - views[n] && a !in views[n] - live;
        }
      }
    }
  }
}
