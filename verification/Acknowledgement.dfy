/** What the segments of net/tcp.cc say about the bytes received: the numbers in them, when they are
    sent, and the states they lead to. */
module Acknowledgements {
  import opened Tcp

  /** The number that acknowledges `j` bytes: the peer's initial number plus one, plus `j`. */
  function Past(j: nat): nat { Next(ISS + 1, j) }

  /** The number acknowledges some prefix of the bytes accepted. */
  ghost predicate NotBeyond(seg: Segment, accepted: nat) {
    exists j :: 0 <= j <= accepted && seg.ackNum == Past(j)
  }

  /** A segment that acknowledges exactly the bytes accepted so far. */
  ghost predicate AcksAll(w: System, x: Side, seg: Segment) {
    seg in w.net && seg.from == x && seg.kind == Ack && seg.ackNum == Past(|Get(w, x).accepted|)
  }

  ghost predicate NumberOk(w: System, seg: Segment) {
    && (seg.kind == SynAck ==> seg.ackNum == Next(ISS, 1))
    && (seg.kind in {Ack, FinAck} && !Get(w, seg.from).finSeen ==> NotBeyond(seg, |Get(w, seg.from).accepted|))
  }

  /** The bytes accepted have been acknowledged, and the handshake completed by the client's ACK. */
  ghost predicate Acknowledged(w: System) {
    && (forall seg :: seg in w.net ==> NumberOk(w, seg))
    && (forall x :: !Get(w, x).finSeen && Get(w, x).accepted != [] ==> exists seg :: AcksAll(w, x, seg))
    && (Opened(w.client.socket) ==> Segment(Client, Ack, Next(ISS, 1), Next(ISS, 1), []) in w.net)
  }

  // ----- What a delivery sends

  /** Replies carry the number the socket has afterwards. */
  lemma ReplyNumbers(s: Socket, seg: Segment, pad: nat, reply: Segment)
    requires reply in Resolve(s, seg, pad).sends
    ensures reply.ackNum == Resolve(s, seg, pad).socket.ackNum && reply.from == s.side && reply.kind != Syn
    ensures reply.kind == SynAck ==> seg.kind == Syn && reply.ackNum == Next(seg.seqNum, 1)
  {
    hide NonZero;
    hide Padded;
  }

  /** Bytes are accepted only with an acknowledgement. */
  lemma AcceptedIsAcked(s: Socket, seg: Segment, pad: nat)
    requires Resolve(s, seg, pad).accepted != []
    ensures var o := Resolve(s, seg, pad);
      o.sends == [Segment(s.side, Ack, s.seqNum, o.socket.ackNum, [])] && s.state == o.socket.state
  {
    hide NonZero;
    hide Padded;
  }

  lemma FirstAck(s: Socket, seg: Segment, pad: nat)
    requires !Opened(s) && Opened(Resolve(s, seg, pad).socket) && s.side == Client && s.state == SynSent
    requires s.seqNum == ISS
    requires seg.kind == SynAck && seg.seqNum == ISS
    ensures Segment(Client, Ack, Next(ISS, 1), Next(ISS, 1), []) in Resolve(s, seg, pad).sends
  {}

  lemma AbsorbKeeps(h: Host, seg: Segment, pad: nat)
    ensures var g, o := Absorb(h, seg, pad), Resolve(h.socket, seg, pad);
      && g.accepted == h.accepted + o.accepted && (h.finSeen ==> g.finSeen) && g.socket == o.socket
  {
    hide Resolve;
  }

  /** A reply's number, when no FIN has been processed. */
  lemma ReplyOk(w: System, to: Side, seg: Segment, pad: nat, reply: Segment)
    requires Inv(w) && Enabled(w, Deliver(to, seg, pad)) && reply in Resolve(Get(w, to).socket, seg, pad).sends
    ensures NumberOk(After(w, Deliver(to, seg, pad)), reply)
  {
    hide Resolve;
    hide Handshake;
    hide SenderOk;
    var v := After(w, Deliver(to, seg, pad));
    var g := Get(v, to);
    SidesOf(w);
    assert SegmentOk(w, seg);
    DeliverInv(w, to, seg, pad);
    ReplyNumbers(Get(w, to).socket, seg, pad, reply);
    AbsorbKeeps(Get(w, to), seg, pad);
    ReplyForm(Get(w, to).socket, seg, pad, reply);
    hide SegmentOk;
    if reply.kind in {Ack, FinAck} && !g.finSeen {
      SyncedReply(w, to, seg, pad, reply);
      assert ReceiverOk(g, Get(v, Peer(to)).sent);
      assert reply.ackNum == Past(|g.accepted|);
    }
  }

  lemma SyncedReply(w: System, to: Side, seg: Segment, pad: nat, reply: Segment)
    requires Inv(w) && Enabled(w, Deliver(to, seg, pad)) && reply in Resolve(Get(w, to).socket, seg, pad).sends
    requires reply.kind in {Ack, FinAck}
    ensures Synced(Resolve(Get(w, to).socket, seg, pad).socket)
  {
    if seg.kind in {Ack, FinAck} {
      AckMeansSynced(w, seg);
    }
    hide Inv;
    hide NonZero;
    hide Padded;
  }

  lemma StillNotBeyond(w: System, v: System, seg: Segment)
    requires NumberOk(w, seg) && |Get(w, seg.from).accepted| <= |Get(v, seg.from).accepted|
    requires Get(w, seg.from).finSeen ==> Get(v, seg.from).finSeen
    ensures NumberOk(v, seg)
  {}

  lemma DeliverAcked(w: System, to: Side, seg: Segment, pad: nat)
    requires Inv(w) && Acknowledged(w) && Enabled(w, Deliver(to, seg, pad))
    ensures Acknowledged(After(w, Deliver(to, seg, pad)))
  {
    var v := After(w, Deliver(to, seg, pad));
    DeliverNumbers(w, to, seg, pad);
    DeliverAcksAll(w, to, seg, pad);
    DeliverFirstAck(w, to, seg, pad);
  }

  lemma DeliverNumbers(w: System, to: Side, seg: Segment, pad: nat)
    requires Inv(w) && Acknowledged(w) && Enabled(w, Deliver(to, seg, pad))
    ensures var v := After(w, Deliver(to, seg, pad)); forall s :: s in v.net ==> NumberOk(v, s)
  {
    hide Inv;
    hide Resolve;
    var v := After(w, Deliver(to, seg, pad));
    AbsorbKeeps(Get(w, to), seg, pad);
    forall s | s in v.net ensures NumberOk(v, s) {
      if s in w.net {
        StillNotBeyond(w, v, s);
      } else {
        ReplyOk(w, to, seg, pad, s);
      }
    }
  }

  lemma DeliverAcksAll(w: System, to: Side, seg: Segment, pad: nat)
    requires Inv(w) && Acknowledged(w) && Enabled(w, Deliver(to, seg, pad))
    ensures var v := After(w, Deliver(to, seg, pad));
      forall x :: !Get(v, x).finSeen && Get(v, x).accepted != [] ==> exists s :: AcksAll(v, x, s)
  {
    var v := After(w, Deliver(to, seg, pad));
    var o := Resolve(Get(w, to).socket, seg, pad);
    SidesOf(w);
    hide Resolve;
    AbsorbKeeps(Get(w, to), seg, pad);
    forall x | !Get(v, x).finSeen && Get(v, x).accepted != [] ensures exists s :: AcksAll(v, x, s) {
      if x == to && o.accepted != [] {
        AcceptedIsAcked(Get(w, to).socket, seg, pad);
        var reply := o.sends[0];
        assert reply in o.sends;
        ReplyIsAll(w, to, seg, pad, reply);
        assert AcksAll(v, x, reply);
      } else {
        assert Get(w, x).accepted == Get(v, x).accepted;
        var s :| AcksAll(w, x, s);
        assert AcksAll(v, x, s);
      }
    }
  }

  lemma ReplyIsAll(w: System, to: Side, seg: Segment, pad: nat, reply: Segment)
    requires Inv(w) && Enabled(w, Deliver(to, seg, pad)) && reply in Resolve(Get(w, to).socket, seg, pad).sends
    requires reply.kind == Ack && !Absorb(Get(w, to), seg, pad).finSeen
    ensures reply.ackNum == Past(|Absorb(Get(w, to), seg, pad).accepted|)
  {
    AbsorbReceiver(w, to, seg, pad);
    ReplyNumbers(Get(w, to).socket, seg, pad, reply);
    SyncedReply(w, to, seg, pad, reply);
    hide Inv;
    hide Resolve;
  }

  lemma DeliverFirstAck(w: System, to: Side, seg: Segment, pad: nat)
    requires Inv(w) && Acknowledged(w) && Enabled(w, Deliver(to, seg, pad))
    ensures var v := After(w, Deliver(to, seg, pad));
      Opened(v.client.socket) ==> Segment(Client, Ack, Next(ISS, 1), Next(ISS, 1), []) in v.net
  {
    SidesOf(w);
    var v := After(w, Deliver(to, seg, pad));
    if to == Client && Opened(v.client.socket) && !Opened(w.client.socket) {
      assert SegmentOk(w, seg) && SenderOk(w.client);
      OpensBySynAck(w.client.socket, seg, pad);
      FirstAck(w.client.socket, seg, pad);
    }
    hide Resolve;
    hide Inv;
  }

  lemma OpensBySynAck(s: Socket, seg: Segment, pad: nat)
    requires !Opened(s) && Opened(Resolve(s, seg, pad).socket) && s.state !in {Listening, SynReceived}
    ensures s.state == SynSent && seg.kind == SynAck
  {
    hide NonZero;
    hide Padded;
  }

  // ----- Every event, every run

  lemma OtherAcked(w: System, e: Event)
    requires Inv(w) && Acknowledged(w) && Enabled(w, e) && !e.Deliver?
    ensures Acknowledged(After(w, e))
  {
    hide ReceiverOk;
    hide SenderOk;
    hide SegmentOk;
    hide Handshake;
    hide NumberOk;
    hide AcksAll;
    var v := After(w, e);
    SidesOf(w);
    OtherKeeps(w, e);
    forall s | s in v.net ensures NumberOk(v, s) {
      if s in w.net {
        StillNotBeyond(w, v, s);
      } else {
        NewNumberOk(w, e, s);
      }
    }
    forall x | !Get(v, x).finSeen && Get(v, x).accepted != [] ensures exists s :: AcksAll(v, x, s) {
      var s :| AcksAll(w, x, s);
      StillAcksAll(w, v, x, s);
    }
    hide After;
  }

  lemma OtherKeeps(w: System, e: Event)
    requires Enabled(w, e) && !e.Deliver?
    ensures var v := After(w, e);
      && w.net <= v.net && (Opened(v.client.socket) ==> Opened(w.client.socket))
      && forall y :: Get(v, y).accepted == Get(w, y).accepted && Get(v, y).finSeen == Get(w, y).finSeen
  {}

  lemma StillAcksAll(w: System, v: System, x: Side, s: Segment)
    requires AcksAll(w, x, s) && w.net <= v.net && Get(v, x).accepted == Get(w, x).accepted
    ensures AcksAll(v, x, s)
  {}

  /** What an application sends acknowledges what has been accepted. */
  lemma NewNumberOk(w: System, e: Event, s: Segment)
    requires Enabled(w, e) && !e.Deliver? && s in After(w, e).net && s !in w.net
    requires w.client.socket.side == Client && w.server.socket.side == Server
    requires forall y :: ReceiverOk(Get(w, y), Get(w, Peer(y)).sent)
    ensures NumberOk(After(w, e), s)
  {
    var x := s.from;
    assert ReceiverOk(Get(w, x), Get(w, Peer(x)).sent);
    if s.kind in {Ack, FinAck} && !Get(w, x).finSeen {
      assert s.ackNum == Past(|Get(w, x).accepted|);
    }
  }

  lemma AfterAcked(w: System, e: Event)
    requires Inv(w) && Acknowledged(w) && Enabled(w, e)
    ensures Acknowledged(After(w, e))
  {
    hide Inv;
    hide Acknowledged;
    if e.Deliver? {
      DeliverAcked(w, e.to, e.seg, e.pad);
    } else {
      OtherAcked(w, e);
    }
  }

  lemma {:induction false} EveryAcknowledged(ws: seq<System>, es: seq<Event>, n: nat)
    requires IsRun(ws, es) && n < |ws|
    ensures Acknowledged(ws[n])
  {
    hide Inv;
    hide Acknowledged;
    hide After;
    hide Enabled;
    if n == 0 {
      NothingSent();
    } else {
      EveryAcknowledged(ws, es, n - 1);
      EveryState(ws, es, n - 1);
      AfterAcked(ws[n - 1], es[n - 1]);
    }
  }

  lemma NothingSent()
    ensures Acknowledged(Start())
  {}

  /** In every run, until it processes a FIN: what a host has accepted it has acknowledged, by the number one past the
      last byte counting from the peer's initial number plus one, and it has acknowledged nothing beyond. The SYN, ACK
      acknowledges the client's initial number, and the ACK that completes the handshake the server's. */
  lemma BytesAcknowledged(ws: seq<System>, es: seq<Event>, n: nat, x: Side)
    requires IsRun(ws, es) && n < |ws|
    ensures var h, net := Get(ws[n], x), ws[n].net;
      && (!h.finSeen && h.accepted != [] ==>
            exists seg :: seg in net && seg.from == x && seg.kind == Ack && seg.ackNum == Past(|h.accepted|))
      && (!h.finSeen ==> forall seg :: seg in net && seg.from == x && seg.kind in {Ack, FinAck} ==>
            exists j :: 0 <= j <= |h.accepted| && seg.ackNum == Past(j))
      && (forall seg :: seg in net && seg.kind == SynAck ==> seg.ackNum == Next(ISS, 1))
      && (Opened(ws[n].client.socket) ==>
            exists seg :: seg in net && seg.from == Client && seg.kind == Ack && seg.ackNum == Next(ISS, 1))
  {
    EveryAcknowledged(ws, es, n);
    hide IsRun;
    var h := Get(ws[n], x);
    if !h.finSeen && h.accepted != [] {
      var seg :| AcksAll(ws[n], x, seg);
      assert seg in ws[n].net;
    }
    if !h.finSeen {
      forall seg | seg in ws[n].net && seg.from == x && seg.kind in {Ack, FinAck}
        ensures exists j :: 0 <= j <= |h.accepted| && seg.ackNum == Past(j)
      {
        assert NumberOk(ws[n], seg);
        var j :| 0 <= j <= |h.accepted| && seg.ackNum == Past(j);
      }
    }
    assert forall seg :: seg in ws[n].net ==> NumberOk(ws[n], seg);
  }

  // ----- What one delivery does

  /** The transitions a segment can cause. */
  predicate Moves(s: TcpState, k: Kind, t: TcpState) {
    || (s == Listening && k == Syn && t == SynReceived)
    || (s == SynSent && k == SynAck && t == Established)
    || (s == SynReceived && k == Ack && t == Established)
    || (s == Established && k == FinAck && t == CloseWait)
    || (s == CloseWait && k in {Ack, FinAck} && t == Closed)
    || (s == FinWait1 && k == Ack && t == FinWait2)
    || (s in {FinWait1, FinWait2} && k == FinAck && t == Closed)
  }

  /** The state after a delivery is the one of that table; without an entry it stays. */
  lemma StateLaw(w: System, to: Side, seg: Segment, pad: nat)
    requires Enabled(w, Deliver(to, seg, pad))
    ensures var s, t := Get(w, to).socket.state, Get(After(w, Deliver(to, seg, pad)), to).socket.state;
      Moves(s, seg.kind, t) || (t == s && forall u :: !Moves(s, seg.kind, u))
  {
    hide NonZero;
    hide Padded;
  }

  /** The states in which an ACK is not answered by a change of state. */
  predicate TakesData(s: TcpState) {
    s !in {NoSocket, Freed, SynReceived, FinWait1, CloseWait}
  }

  /** A data segment in such a state: in sequence, the bytes that count are accepted, buffered if there is room,
      and acknowledged by one ACK; out of sequence, nothing happens. */
  lemma DataLaw(w: System, to: Side, seg: Segment, pad: nat)
    requires Inv(w) && Enabled(w, Deliver(to, seg, pad)) && seg.kind == Ack && TakesData(Get(w, to).socket.state)
    ensures var v, h := After(w, Deliver(to, seg, pad)), Get(w, to);
      var g := Get(v, to);
      if seg.seqNum != h.socket.ackNum then v == w
      else
        && h.accepted <= g.accepted
        && var chunk := g.accepted[|h.accepted|..];
        && chunk <= seg.payload && |chunk| == NonZero(seg.payload)
        && g.socket == h.socket.(ackNum := Next(h.socket.ackNum, |chunk|), queue := g.socket.queue)
        && g.socket.queue == h.socket.queue + (if h.socket.hasBuffers && |h.socket.queue| < 9 then [chunk] else [])
        && v.net == w.net + {Segment(to, Ack, h.socket.seqNum, Next(h.socket.ackNum, |chunk|), [])}
  {
    SidesOf(w);
    hide Inv;
    var h := Get(w, to);
    DataOutcome(h.socket, seg, pad);
    hide Resolve;
    var o := Resolve(h.socket, seg, pad);
    if seg.seqNum == h.socket.ackNum {
      assert (h.accepted + o.accepted)[|h.accepted|..] == o.accepted;
    } else {
      assert h.accepted + [] == h.accepted && h.stored + [] == h.stored;
      assert w.net + {} == w.net;
    }
  }

  lemma DataOutcome(s: Socket, seg: Segment, pad: nat)
    requires seg.kind == Ack && TakesData(s.state)
    ensures var o := Resolve(s, seg, pad);
      if seg.seqNum != s.ackNum then o == Outcome(s, [], [], [])
      else
        && o.accepted <= seg.payload && |o.accepted| == NonZero(seg.payload)
        && o.socket == s.(ackNum := Next(s.ackNum, |o.accepted|), queue := o.socket.queue)
        && o.socket.queue == s.queue + (if s.hasBuffers && |s.queue| < 9 then [o.accepted] else [])
        && o.sends == [Segment(s.side, Ack, s.seqNum, Next(s.ackNum, |o.accepted|), [])]
  {
    PaddingCountsNothing(seg.payload, pad);
    var n := NonZero(seg.payload);
    assert Padded(seg.payload, pad)[..n] == seg.payload[..n];
    assert s.queue + [] == s.queue;
  }

  /** A FIN counts as one more: an established host acknowledges it, answers with its own, and a host that has sent its
      own acknowledges it. */
  lemma FinLaw(w: System, to: Side, seg: Segment, pad: nat)
    requires Inv(w) && Enabled(w, Deliver(to, seg, pad)) && seg.kind == FinAck
    requires Get(w, to).socket.state in {Established, FinWait1, FinWait2}
    ensures var v, s := After(w, Deliver(to, seg, pad)), Get(w, to).socket;
      var ack := Segment(to, Ack, s.seqNum, Next(s.ackNum, 1), []);
      && Get(v, to).socket.ackNum == Next(s.ackNum, 1) && Get(v, to).socket.seqNum == s.seqNum && Get(v, to).finSeen
      && Get(v, to).accepted == Get(w, to).accepted
      && v.net == w.net + (if s.state == Established then {ack,
        Segment(to, FinAck, s.seqNum, Next(s.ackNum, 1), [])} else {ack})
  {
    SidesOf(w);
    hide Inv;
    assert Get(w, to).accepted + [] == Get(w, to).accepted;
  }

  /** What the application sends goes out with the current numbers, and counts in the sequence space. */
  lemma SendLaw(w: System, x: Side, data: seq<nat>)
    requires Inv(w) && Enabled(w, Send(x, data))
    ensures var v, s := After(w, Send(x, data)), Get(w, x).socket;
      && v.net == w.net + {Segment(x, Ack, s.seqNum, s.ackNum, data)} && Get(v, x).sent == Get(w, x).sent + data
      && Get(v, x).socket == s.(seqNum := Next(s.seqNum, |data|)) && Get(v, Peer(x)) == Get(w, Peer(x))
  {
    SidesOf(w);
    hide Inv;
  }

  /** Closing sends a FIN with the current numbers, which counts as one in the sequence space. */
  lemma CloseLaw(w: System, x: Side)
    requires Inv(w) && Enabled(w, Disconnect(x))
    ensures var v, s := After(w, Disconnect(x)), Get(w, x).socket;
      && v.net == w.net + {Segment(x, FinAck, s.seqNum, s.ackNum, [])} && Get(v, Peer(x)) == Get(w, Peer(x))
      && Get(v, x).socket == s.(state := FinWait1, seqNum := Next(s.seqNum, 1))
  {
    SidesOf(w);
    hide Inv;
  }
}
