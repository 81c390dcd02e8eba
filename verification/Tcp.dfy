/** The TCP state machine of net/tcp.cc between two hosts, over a network that may lose, duplicate and reorder
    segments (sections 3.5 and 3.10.7 of RFC 9293). Bytes are naturals below 256. */
module Tcp {

  const WRAP := 0x1_0000_0000
  /** connect and resolve_packet start both directions at 0. */
  const ISS := 0
  /** A ring of ten buffers holds nine. */
  const RING := 9

  datatype Side = Client | Server

  function Peer(x: Side): Side { if x == Client then Server else Client }

  /** The flags SYN, SYN|ACK, ACK and FIN|ACK; PSH is masked off before the switch. */
  datatype Kind = Syn | SynAck | Ack | FinAck

  datatype Segment = Segment(from: Side, kind: Kind, seqNum: nat, ackNum: nat, payload: seq<nat>)

  /** NoSocket: nothing is bound to the port, before listen or connect and after close_socket. */
  datatype TcpState =
    | NoSocket | Listening | SynSent | SynReceived | Established
    | FinWait1 | FinWait2 | CloseWait | Closed | Freed

  /** A socket. `queue` holds the chunks in the receive ring; connect leaves the ring without buffers. */
  datatype Socket = Socket(side: Side, state: TcpState, seqNum: nat, ackNum: nat, queue: seq<seq<nat>>,
    hasBuffers: bool)

  /** What resolve_packet does: the socket after it, the segments it sends, the bytes it acknowledges and the
      bytes that reach a buffer. */
  datatype Outcome = Outcome(socket: Socket, sends: seq<Segment>, accepted: seq<nat>, stored: seq<nat>)

  function Emit(s: Socket, kind: Kind, payload: seq<nat>): Segment {
    Segment(s.side, kind, s.seqNum, s.ackNum, payload)
  }

  /** real_len: the bytes that are not zero. */
  function NonZero(data: seq<nat>): (n: nat)
    ensures n <= |data|
  {
    if data == [] then 0 else NonZero(data[..|data| - 1]) + if data[|data| - 1] != 0 then 1 else 0
  }

  /** Ethernet pads short frames with zero bytes, and the length passed up includes them. */
  function Padded(payload: seq<nat>, pad: nat): seq<nat> {
    payload + seq(pad, _ => 0)
  }

  function Next(n: nat, k: nat): nat { (n + k) % WRAP }

  function ReceiveData(s: Socket, seg: Segment, pad: nat): Outcome {
    if seg.seqNum != s.ackNum then Outcome(s, [], [], [])
    else
      var frame := Padded(seg.payload, pad);
      var chunk := frame[..NonZero(frame)];
      var kept := s.hasBuffers && |s.queue| < RING;
      var t := s.(ackNum := Next(s.ackNum, |chunk|), queue := if kept then s.queue + [chunk] else s.queue);
      Outcome(t, [Emit(t, Ack, [])], chunk, if kept then chunk else [])
  }

  function Resolve(s: Socket, seg: Segment, pad: nat): Outcome {
    if s.state == NoSocket || s.state == Freed then Outcome(s, [], [], [])
    else match seg.kind
      case Syn =>
        if s.state != Listening then Outcome(s, [], [], [])
        else
          var t := s.(state := SynReceived, ackNum := Next(seg.seqNum, 1), seqNum := ISS);
          Outcome(t.(seqNum := Next(t.seqNum, 1)), [Emit(t, SynAck, [])], [], [])
      case SynAck =>
        if s.state != SynSent then Outcome(s, [], [], [])
        else
          var t := s.(state := Established, seqNum := Next(s.seqNum, 1), ackNum := Next(seg.seqNum, 1));
          Outcome(t, [Emit(t, Ack, [])], [], [])
      case FinAck =>
        if s.state == Established then
          var t := s.(state := CloseWait, ackNum := Next(s.ackNum, 1));
          Outcome(t, [Emit(t, Ack, []), Emit(t, FinAck, [])], [], [])
        else if s.state == CloseWait then Outcome(s.(state := Closed), [], [], [])
        else if s.state == FinWait1 || s.state == FinWait2 then
          var t := s.(state := Closed, ackNum := Next(s.ackNum, 1));
          Outcome(t, [Emit(t, Ack, [])], [], [])
        else Outcome(s, [], [], [])
      case Ack =>
        if s.state == SynReceived then Outcome(s.(state := Established), [], [], [])
        else if s.state == FinWait1 then Outcome(s.(state := FinWait2), [], [], [])
        else if s.state == CloseWait then Outcome(s.(state := Closed), [], [], [])
        else ReceiveData(s, seg, pad)
  }

  // ----- Two hosts and the network

  /** A socket with its history: bytes handed to send, bytes acknowledged, bytes that reached a buffer, whether
      acknowledged bytes were dropped for want of a buffer, whether a FIN was processed, FINs sent by the application,
      and what recv gave to it. */
  datatype Host = Host(socket: Socket, sent: seq<nat>, accepted: seq<nat>, stored: seq<nat>,
                       lost: bool, finSeen: bool, fins: nat, app: Reads)

  /** The chunks taken out of the ring, the bytes of them recv handed over, whether a chunk was cut, and whether bytes
      were handed over after a cut. */
  datatype Reads = Reads(taken: seq<nat>, fetched: seq<nat>, cut: bool, gap: bool)

  /** What recv copies of a chunk for a buffer of `len` bytes. */
  function Clip(chunk: seq<nat>, len: nat): seq<nat> { if len < |chunk| then chunk[..len] else chunk }

  function Read(r: Reads, chunk: seq<nat>, len: nat): Reads {
    var got := Clip(chunk, len);
    Reads(r.taken + chunk, r.fetched + got, r.cut || len < |chunk|, r.gap || (r.cut && got != []))
  }

  /** `net` holds every segment ever sent: each may arrive any number of times, in any order, or never. */
  datatype System = System(client: Host, server: Host, net: set<Segment>)

  function Get(w: System, x: Side): Host { if x == Client then w.client else w.server }

  function Put(w: System, x: Side, h: Host): System {
    if x == Client then w.(client := h) else w.(server := h)
  }

  function Idle(x: Side): Host {
    Host(Socket(x, NoSocket, 0, 0, [], false), [], [], [], false, false, 0, Reads([], [], false, false))
  }

  function Start(): System { System(Idle(Client), Idle(Server), {}) }

  datatype Event =
    | Listen
    | Connect
    | Deliver(to: Side, seg: Segment, pad: nat)
    | Send(who: Side, data: seq<nat>)
    | Fetch(who: Side, len: nat)
    | Disconnect(who: Side)
    | CloseSocket(who: Side)

  /** Applications send and close only on an established connection, and a direction carries fewer than 2^32
      bytes. */
  predicate Enabled(w: System, e: Event) {
    match e
    case Listen => w.server.socket.state == NoSocket
    case Connect => w.client.socket.state == NoSocket
    case Deliver(to, seg, _) => seg in w.net && seg.from == Peer(to)
    case Send(x, data) => Get(w, x).socket.state == Established && |Get(w, x).sent| + |data| < WRAP
    case Fetch(x, _) => Get(w, x).socket.queue != []
    case Disconnect(x) => Get(w, x).socket.state == Established
    case CloseSocket(x) => Get(w, x).socket.state == Established
  }

  function Elems(s: seq<Segment>): set<Segment> { set x | x in s }

  /** The first FIN a socket acts on. */
  predicate ProcessesFin(s: Socket, seg: Segment) {
    seg.kind == FinAck && s.state in {Established, CloseWait, FinWait1, FinWait2}
  }

  function Absorb(h: Host, seg: Segment, pad: nat): Host {
    var o := Resolve(h.socket, seg, pad);
    Host(o.socket, h.sent, h.accepted + o.accepted, h.stored + o.stored,
         h.lost || o.stored != o.accepted, h.finSeen || ProcessesFin(h.socket, seg), h.fins, h.app)
  }

  function After(w: System, e: Event): System
    requires Enabled(w, e)
  {
    match e
    case Listen => w.(server := w.server.(socket := w.server.socket.(state := Listening, hasBuffers := true)))
    case Connect =>
      var s := w.client.socket.(state := SynSent, seqNum := ISS, ackNum := 0);
      w.(client := w.client.(socket := s), net := w.net + {Emit(s, Syn, [])})
    case Deliver(to, seg, pad) =>
      Put(w, to, Absorb(Get(w, to), seg, pad)).(net := w.net + Elems(Resolve(Get(w, to).socket, seg, pad).sends))
    case Send(x, data) =>
      var h := Get(w, x);
      Put(w, x, h.(socket := h.socket.(seqNum := Next(h.socket.seqNum, |data|)), sent := h.sent + data))
        .(net := w.net + {Emit(h.socket, Ack, data)})
    case Fetch(x, len) =>
      var h := Get(w, x);
      Put(w, x, h.(socket := h.socket.(queue := h.socket.queue[1..]), app := Read(h.app, h.socket.queue[0], len)))
    case Disconnect(x) => Closing(w, x, FinWait1)
    case CloseSocket(x) => Closing(w, x, Freed)
  }

  /** disconnect: send FIN|ACK and count it in the sequence space. */
  function Closing(w: System, x: Side, state: TcpState): System {
    var h := Get(w, x);
    var s := h.socket.(state := FinWait1);
    Put(w, x, h.(socket := s.(state := state, seqNum := Next(s.seqNum, 1)), fins := h.fins + 1))
      .(net := w.net + {Emit(s, FinAck, [])})
  }

  // ----- The invariant

  /** The host has agreed on the peer's initial sequence number. */
  predicate Synced(s: Socket) { s.state !in {NoSocket, Listening, SynSent} }

  /** The host is or has been ESTABLISHED. */
  predicate Opened(s: Socket) { Synced(s) && s.state != SynReceived }

  /** The payload lies in the sender's stream where the sequence number says. */
  ghost predicate Fits(seg: Segment, sent: seq<nat>) {
    seg.payload != [] ==> exists pos :: FitsAt(seg, sent, pos)
  }

  ghost predicate FitsAt(seg: Segment, sent: seq<nat>, pos: nat) {
    && pos + |seg.payload| <= |sent| && seg.seqNum == Next(ISS + 1, pos)
    && seg.payload == sent[pos..pos + |seg.payload|]
  }

  ghost predicate SegmentOk(w: System, seg: Segment) {
    match seg.kind
    case Syn => seg.from == Client && seg.seqNum == ISS && w.client.socket.state != NoSocket
    case SynAck => seg.from == Server && seg.seqNum == ISS && Synced(w.server.socket)
    case Ack => Opened(Get(w, seg.from).socket) && Fits(seg, Get(w, seg.from).sent)
    case FinAck => Opened(Get(w, seg.from).socket)
  }

  /** The three segments of the handshake were sent before the states they lead to. */
  ghost predicate Handshake(w: System) {
    && w.client.socket.side == Client && w.server.socket.side == Server
    && w.client.socket.state !in {Listening, SynReceived} && w.server.socket.state != SynSent
    && (Synced(w.server.socket) ==> exists seg :: seg in w.net && seg.from == Client && seg.kind == Syn)
    && (Opened(w.client.socket) ==> exists seg :: seg in w.net && seg.from == Server && seg.kind == SynAck)
    && (Opened(w.server.socket) ==> exists seg :: seg in w.net && seg.from == Client && seg.kind == Ack)
  }

  /** Sequence number of the next byte to send. */
  ghost predicate SenderOk(h: Host) {
    && |h.sent| < WRAP
    && (!Opened(h.socket) ==> h.sent == [] && h.fins == 0)
    && (h.socket.state in {Established, CloseWait} ==> h.fins == 0)
    && (h.socket.state == SynSent ==> h.socket.seqNum == ISS)
    && (Synced(h.socket) ==> h.socket.seqNum == Next(ISS + 1, |h.sent| + h.fins))
  }

  /** Until a FIN is processed, the acknowledged bytes are a prefix of what the peer sent, and ack_num is one past
      them, counting from the peer's initial number plus one. */
  ghost predicate ReceiverOk(h: Host, peerSent: seq<nat>) {
    && (!Synced(h.socket) ==> h.accepted == [] && !h.finSeen)
    && (Synced(h.socket) && !h.finSeen ==>
          h.socket.ackNum == Next(ISS + 1, |h.accepted|) && h.accepted <= peerSent)
    && (!h.lost ==> h.stored == h.accepted)
  }

  ghost predicate Inv(w: System) {
    && Handshake(w)
    && (forall seg :: seg in w.net ==> SegmentOk(w, seg))
    && (forall x :: SenderOk(Get(w, x)) && ReceiverOk(Get(w, x), Get(w, Peer(x)).sent))
  }

  // ----- Preservation

  lemma StartInv()
    ensures Inv(Start())
  {}

  /** An acknowledgement or FIN from one side means the other side is past its SYN. */
  lemma AckMeansSynced(w: System, seg: Segment)
    requires Inv(w) && seg in w.net && seg.kind in {Ack, FinAck}
    ensures Synced(Get(w, Peer(seg.from)).socket)
  {
    assert SegmentOk(w, seg);
    if seg.from == Client {
      var s :| s in w.net && s.from == Server && s.kind == SynAck;
      assert SegmentOk(w, s);
    } else {
      var s :| s in w.net && s.from == Client && s.kind == Ack;
      assert SegmentOk(w, s);
    }
  }

  lemma SamePosition(pos: nat, k: nat)
    requires pos < WRAP && k < WRAP && Next(ISS + 1, pos) == Next(ISS + 1, k)
    ensures pos == k
  {
    assert (1 + pos) / WRAP <= 1 && (1 + k) / WRAP <= 1;
  }

  lemma NextSmall(n: nat, k: nat)
    ensures Next(n, k) < WRAP
  {}

  lemma NextNext(n: nat, j: nat, k: nat)
    ensures Next(Next(n, j), k) == Next(n, j + k)
  {
    var q := (n + j) / WRAP;
    assert n + j == q * WRAP + (n + j) % WRAP;
    assert n + j + k == q * WRAP + ((n + j) % WRAP + k);
  }

  /** The heart of the prefix property: an accepted chunk continues the accepted prefix. */
  lemma ReceiveDataOk(h: Host, peerSent: seq<nat>, seg: Segment, pad: nat)
    requires ReceiverOk(h, peerSent) && Synced(h.socket) && !h.finSeen && Fits(seg, peerSent) && |peerSent| < WRAP
    ensures var o := ReceiveData(h.socket, seg, pad);
      && o.socket.ackNum == Next(ISS + 1, |h.accepted + o.accepted|) && h.accepted + o.accepted <= peerSent
  {
    hide NonZero;
    hide Padded;
    hide Next;
    NextSmall(ISS + 1, |h.accepted|);
    var o := ReceiveData(h.socket, seg, pad);
    ChunkIs(h.socket, seg, pad);
    var k, n := |h.accepted|, |o.accepted|;
    if seg.seqNum != h.socket.ackNum || seg.payload == [] {
      assert h.accepted + o.accepted == h.accepted;
    } else {
      var pos :| FitsAt(seg, peerSent, pos);
      SamePosition(pos, k);
      NextNext(ISS + 1, k, n);
      assert h.accepted + o.accepted == peerSent[..k + n];
    }
  }

  /** What a segment in sequence adds: a prefix of its payload. */
  lemma ChunkIs(s: Socket, seg: Segment, pad: nat)
    ensures var o := ReceiveData(s, seg, pad);
      && (seg.seqNum != s.ackNum ==> o.accepted == [] && o.socket == s)
      && (seg.seqNum == s.ackNum ==> o.accepted <= seg.payload && o.socket.ackNum == Next(s.ackNum, |o.accepted|))
      && (seg.payload == [] && s.ackNum < WRAP ==> o.accepted == [] && o.socket.ackNum == s.ackNum)
  {
    PaddingCountsNothing(seg.payload, pad);
    var n := NonZero(seg.payload);
    assert Padded(seg.payload, pad)[..n] == seg.payload[..n];
  }

  lemma AbsorbReceiver(w: System, to: Side, seg: Segment, pad: nat)
    requires Inv(w) && seg in w.net && seg.from == Peer(to)
    ensures ReceiverOk(Absorb(Get(w, to), seg, pad), Get(w, Peer(to)).sent)
  {
    var h, sent := Get(w, to), Get(w, Peer(to)).sent;
    assert SegmentOk(w, seg);
    assert SenderOk(Get(w, Peer(to))) && ReceiverOk(h, sent);
    if seg.kind in {Ack, FinAck} {
      AckMeansSynced(w, seg);
    }
    hide Inv;
    hide Fits;
    AbsorbOk(h, sent, seg, pad);
  }

  lemma AbsorbOk(h: Host, sent: seq<nat>, seg: Segment, pad: nat)
    requires ReceiverOk(h, sent) && |sent| < WRAP && (seg.kind in {Ack, FinAck} ==> Synced(h.socket))
    requires seg.kind in {Syn, SynAck} ==> seg.seqNum == ISS
    requires seg.kind == Ack ==> Fits(seg, sent)
    ensures ReceiverOk(Absorb(h, seg, pad), sent)
  {
    hide Fits;
    if seg.kind == Ack && !h.finSeen {
      ReceiveDataOk(h, sent, seg, pad);
    }
  }

  /** The connection only moves forward. */
  ghost predicate Forward(h: Host, g: Host) {
    && g.socket.side == h.socket.side && h.sent <= g.sent
    && (h.socket.state != NoSocket ==> g.socket.state != NoSocket)
    && (Synced(h.socket) ==> Synced(g.socket)) && (Opened(h.socket) ==> Opened(g.socket))
  }

  lemma AbsorbForward(h: Host, seg: Segment, pad: nat)
    ensures Forward(h, Absorb(h, seg, pad))
  {}

  lemma AbsorbSender(h: Host, seg: Segment, pad: nat)
    requires SenderOk(h)
    ensures SenderOk(Absorb(h, seg, pad))
  {
    NextNext(ISS, 1, 0);
  }

  lemma FitsMono(seg: Segment, sent: seq<nat>, more: seq<nat>)
    requires Fits(seg, sent) && sent <= more
    ensures Fits(seg, more)
  {
    if seg.payload != [] {
      var pos :| FitsAt(seg, sent, pos);
      assert FitsAt(seg, more, pos);
    }
  }

  lemma SegmentsForward(w: System, v: System, seg: Segment)
    requires SegmentOk(w, seg) && Forward(w.client, v.client) && Forward(w.server, v.server)
    ensures SegmentOk(v, seg)
  {
    if seg.kind == Ack {
      FitsMono(seg, Get(w, seg.from).sent, Get(v, seg.from).sent);
    }
  }

  /** Every segment a delivery makes the receiver send is in order. */
  lemma RepliesOk(w: System, to: Side, seg: Segment, pad: nat, reply: Segment)
    requires Inv(w) && seg in w.net && seg.from == Peer(to)
    requires reply in Resolve(Get(w, to).socket, seg, pad).sends
    ensures SegmentOk(Put(w, to, Absorb(Get(w, to), seg, pad)), reply)
  {
    if seg.kind in {Ack, FinAck} {
      AckMeansSynced(w, seg);
    }
    hide Fits;
    hide SenderOk;
    hide ReceiverOk;
    hide Inv;
    SidesOf(w);
    AbsorbSent(Get(w, to), seg, pad);
    ReplyForm(Get(w, to).socket, seg, pad, reply);
    hide Resolve;
    EmptyFits(reply, Get(w, to).sent);
  }

  lemma SidesOf(w: System)
    requires Inv(w)
    ensures w.client.socket.side == Client && w.server.socket.side == Server
    ensures w.client.socket.state !in {Listening, SynReceived} && w.server.socket.state != SynSent
  {}

  /** What can be sent in answer, and what the socket is then. */
  lemma ReplyForm(s: Socket, seg: Segment, pad: nat, reply: Segment)
    requires reply in Resolve(s, seg, pad).sends
    ensures reply.from == s.side && reply.payload == [] && reply.kind != Syn
    ensures reply.kind == SynAck ==> s.state == Listening && reply.seqNum == ISS && Synced(Resolve(s, seg, pad).socket)
    ensures reply.kind == FinAck ==> Opened(Resolve(s, seg, pad).socket)
    ensures reply.kind == Ack && seg.kind in {Syn, SynAck} ==> Opened(Resolve(s, seg, pad).socket)
    ensures reply.kind == Ack && Synced(s) ==> Opened(Resolve(s, seg, pad).socket)
  {}

  lemma EmptyFits(seg: Segment, sent: seq<nat>)
    ensures seg.payload == [] ==> Fits(seg, sent)
  {}

  lemma DeliverHandshake(w: System, to: Side, seg: Segment, pad: nat)
    requires Inv(w) && seg in w.net && seg.from == Peer(to)
    ensures Handshake(After(w, Deliver(to, seg, pad)))
  {
    assert SegmentOk(w, seg);
    var v := After(w, Deliver(to, seg, pad));
    assert w.net <= v.net;
    var h := Get(w, to);
    assert Opened(Absorb(h, seg, pad).socket) && !Opened(h.socket) ==>
      (to == Client && seg.kind == SynAck) || (to == Server && seg.kind == Ack);
    assert Synced(Absorb(h, seg, pad).socket) && !Synced(h.socket) ==>
      (to == Client && seg.kind == SynAck) || (to == Server && seg.kind == Syn);
  }

  lemma DeliverInv(w: System, to: Side, seg: Segment, pad: nat)
    requires Inv(w) && seg in w.net && seg.from == Peer(to)
    ensures Inv(After(w, Deliver(to, seg, pad)))
  {
    var v := After(w, Deliver(to, seg, pad));
    DeliverHandshake(w, to, seg, pad);
    AbsorbReceiver(w, to, seg, pad);
    var h := Get(w, to);
    assert SenderOk(h);
    AbsorbSender(h, seg, pad);
    AbsorbForward(h, seg, pad);
    hide Handshake;
    hide Absorb;
    hide Resolve;
    AbsorbSent(h, seg, pad);
    forall x ensures SenderOk(Get(v, x)) && ReceiverOk(Get(v, x), Get(v, Peer(x)).sent) {
      assert SenderOk(Get(w, x)) && ReceiverOk(Get(w, x), Get(w, Peer(x)).sent);
    }
    forall s | s in v.net ensures SegmentOk(v, s) {
      if s in w.net {
        assert SegmentOk(w, s);
        SegmentsForward(w, v, s);
      } else {
        RepliesOk(w, to, seg, pad, s);
      }
    }
  }

  lemma AbsorbSent(h: Host, seg: Segment, pad: nat)
    ensures Absorb(h, seg, pad).sent == h.sent
  {}

  lemma SendInv(w: System, x: Side, data: seq<nat>)
    requires Inv(w) && Enabled(w, Send(x, data))
    ensures Inv(After(w, Send(x, data)))
  {
    SendHosts(w, x, data);
    SendSegments(w, x, data);
    SidesOf(w);
    hide SegmentOk;
    hide SenderOk;
    hide ReceiverOk;
  }

  lemma SendHosts(w: System, x: Side, data: seq<nat>)
    requires Inv(w) && Enabled(w, Send(x, data))
    ensures var v := After(w, Send(x, data));
      forall y :: SenderOk(Get(v, y)) && ReceiverOk(Get(v, y), Get(v, Peer(y)).sent)
  {
    hide SegmentOk;
    hide Handshake;
    hide Next;
    var v := After(w, Send(x, data));
    var h := Get(w, x);
    assert SenderOk(h);
    NextNext(ISS + 1, |h.sent|, |data|);
    forall y ensures SenderOk(Get(v, y)) && ReceiverOk(Get(v, y), Get(v, Peer(y)).sent) {
      assert SenderOk(Get(w, y)) && ReceiverOk(Get(w, y), Get(w, Peer(y)).sent);
    }
  }

  lemma SendSegments(w: System, x: Side, data: seq<nat>)
    requires Inv(w) && Enabled(w, Send(x, data))
    ensures var v := After(w, Send(x, data)); forall s :: s in v.net ==> SegmentOk(v, s)
  {
    hide ReceiverOk;
    var v := After(w, Send(x, data));
    var h := Get(w, x);
    var seg := Emit(h.socket, Ack, data);
    SidesOf(w);
    assert SenderOk(h);
    assert Forward(w.client, v.client) && Forward(w.server, v.server);
    forall s | s in v.net ensures SegmentOk(v, s) {
      if s == seg {
        assert data == (h.sent + data)[|h.sent|..|h.sent| + |data|];
        assert FitsAt(seg, h.sent + data, |h.sent|);
      } else {
        assert SegmentOk(w, s);
        SegmentsForward(w, v, s);
      }
    }
  }

  lemma CloseInv(w: System, x: Side, state: TcpState)
    requires Inv(w) && Get(w, x).socket.state == Established && state in {FinWait1, Freed}
    ensures Inv(Closing(w, x, state))
  {
    CloseHosts(w, x, state);
    CloseSegments(w, x, state);
    SidesOf(w);
    hide SegmentOk;
    hide SenderOk;
    hide ReceiverOk;
  }

  lemma CloseHosts(w: System, x: Side, state: TcpState)
    requires Inv(w) && Get(w, x).socket.state == Established && state in {FinWait1, Freed}
    ensures var v := Closing(w, x, state);
      forall y :: SenderOk(Get(v, y)) && ReceiverOk(Get(v, y), Get(v, Peer(y)).sent)
  {
    hide SegmentOk;
    hide Handshake;
    hide Next;
    var v := Closing(w, x, state);
    var h := Get(w, x);
    assert SenderOk(h);
    NextNext(ISS + 1, |h.sent|, 1);
    forall y ensures SenderOk(Get(v, y)) && ReceiverOk(Get(v, y), Get(v, Peer(y)).sent) {
      assert SenderOk(Get(w, y)) && ReceiverOk(Get(w, y), Get(w, Peer(y)).sent);
    }
  }

  lemma CloseSegments(w: System, x: Side, state: TcpState)
    requires Inv(w) && Get(w, x).socket.state == Established && state in {FinWait1, Freed}
    ensures var v := Closing(w, x, state); forall s :: s in v.net ==> SegmentOk(v, s)
  {
    hide ReceiverOk;
    hide SenderOk;
    SidesOf(w);
    var v := Closing(w, x, state);
    assert Forward(w.client, v.client) && Forward(w.server, v.server);
    forall s | s in v.net ensures SegmentOk(v, s) {
      if s in w.net {
        assert SegmentOk(w, s);
        SegmentsForward(w, v, s);
      }
    }
  }

  lemma OpenInv(w: System, e: Event)
    requires Inv(w) && Enabled(w, e) && (e.Listen? || e.Connect? || e.Fetch?)
    ensures Inv(After(w, e))
  {
    OpenHosts(w, e);
    OpenSegments(w, e);
    SidesOf(w);
    hide SegmentOk;
    hide SenderOk;
    hide ReceiverOk;
  }

  lemma OpenHosts(w: System, e: Event)
    requires Inv(w) && Enabled(w, e) && (e.Listen? || e.Connect? || e.Fetch?)
    ensures var v := After(w, e); forall y :: SenderOk(Get(v, y)) && ReceiverOk(Get(v, y), Get(v, Peer(y)).sent)
  {
    hide SegmentOk;
    hide Handshake;
    hide Next;
    var v := After(w, e);
    forall y ensures SenderOk(Get(v, y)) && ReceiverOk(Get(v, y), Get(v, Peer(y)).sent) {
      assert SenderOk(Get(w, y)) && ReceiverOk(Get(w, y), Get(w, Peer(y)).sent);
    }
  }

  lemma OpenSegments(w: System, e: Event)
    requires Inv(w) && Enabled(w, e) && (e.Listen? || e.Connect? || e.Fetch?)
    ensures var v := After(w, e); forall s :: s in v.net ==> SegmentOk(v, s)
  {
    hide ReceiverOk;
    hide SenderOk;
    SidesOf(w);
    var v := After(w, e);
    assert Forward(w.client, v.client) && Forward(w.server, v.server);
    forall s | s in v.net ensures SegmentOk(v, s) {
      if s in w.net {
        assert SegmentOk(w, s);
        SegmentsForward(w, v, s);
      }
    }
  }

  lemma AfterInv(w: System, e: Event)
    requires Inv(w) && Enabled(w, e)
    ensures Inv(After(w, e))
  {
    match e
    case Listen => OpenInv(w, e);
    case Connect => OpenInv(w, e);
    case Fetch(x, len) => OpenInv(w, e);
    case Deliver(to, seg, pad) => DeliverInv(w, to, seg, pad);
    case Send(x, data) => SendInv(w, x, data);
    case Disconnect(x) => CloseInv(w, x, FinWait1);
    case CloseSocket(x) => CloseInv(w, x, Freed);
  }

  ghost predicate IsRun(ws: seq<System>, es: seq<Event>) {
    && |ws| == |es| + 1 && ws[0] == Start()
    && forall k :: 0 <= k < |es| ==> Enabled(ws[k], es[k]) && ws[k + 1] == After(ws[k], es[k])
  }

  lemma {:induction false} EveryState(ws: seq<System>, es: seq<Event>, n: nat)
    requires IsRun(ws, es) && n < |ws|
    ensures Inv(ws[n])
  {
    if n == 0 {
      StartInv();
    } else {
      EveryState(ws, es, n - 1);
      AfterInv(ws[n - 1], es[n - 1]);
    }
  }

  /** Safety of the byte stream in every run: until it processes a FIN, what a host has acknowledged is a prefix of
      what the other sent; and so is what it has buffered, unless an acknowledged chunk found no buffer. */
  lemma PrefixDelivery(ws: seq<System>, es: seq<Event>, n: nat, x: Side)
    requires IsRun(ws, es) && n < |ws| && !Get(ws[n], x).finSeen
    ensures Get(ws[n], x).accepted <= Get(ws[n], Peer(x)).sent
    ensures !Get(ws[n], x).lost ==> Get(ws[n], x).stored <= Get(ws[n], Peer(x)).sent
  {
    EveryState(ws, es, n);
    assert ReceiverOk(Get(ws[n], x), Get(ws[n], Peer(x)).sent);
  }

  // ----- What the application gets

  function Concat(chunks: seq<seq<nat>>): seq<nat> {
    if chunks == [] then [] else chunks[0] + Concat(chunks[1..])
  }

  lemma {:induction false} ConcatSnoc(chunks: seq<seq<nat>>, c: seq<nat>)
    ensures Concat(chunks + [c]) == Concat(chunks) + c
  {
    if chunks == [] {
      assert chunks + [c] == [c];
    } else {
      assert (chunks + [c])[1..] == chunks[1..] + [c];
      ConcatSnoc(chunks[1..], c);
    }
  }

  /** Without a cut everything taken was handed over; a byte handed over after a cut stands too far to the front. */
  ghost predicate ReadsOk(r: Reads) {
    && |r.fetched| <= |r.taken| && (if r.cut then |r.fetched| < |r.taken| else r.fetched == r.taken)
    && (if r.gap then Shifted(r) else r.fetched <= r.taken)
  }

  ghost predicate Shifted(r: Reads) {
    exists j, k :: 0 <= j < |r.fetched| && j < k < |r.taken| && r.fetched[j] == r.taken[k]
  }

  lemma ReadOk(r: Reads, chunk: seq<nat>, len: nat)
    requires ReadsOk(r)
    ensures ReadsOk(Read(r, chunk, len))
  {
    var t, got := Read(r, chunk, len), Clip(chunk, len);
    if r.gap {
      var j, k :| 0 <= j < |r.fetched| && j < k < |r.taken| && r.fetched[j] == r.taken[k];
      assert t.fetched[j] == t.taken[k];
    } else if r.cut && got != [] {
      assert t.fetched[|r.fetched|] == got[0] == chunk[0] == t.taken[|r.taken|];
    }
  }

  /** The buffered bytes are those taken and those still in the ring. */
  ghost predicate RingOk(h: Host) {
    h.stored == h.app.taken + Concat(h.socket.queue) && ReadsOk(h.app)
  }

  lemma AbsorbRing(h: Host, seg: Segment, pad: nat)
    requires RingOk(h)
    ensures RingOk(Absorb(h, seg, pad))
  {
    hide Resolve;
    hide ReadsOk;
    hide Concat;
    var o := Resolve(h.socket, seg, pad);
    ResolveRing(h.socket, seg, pad);
    if o.socket.queue == h.socket.queue + [o.stored] {
      ConcatSnoc(h.socket.queue, o.stored);
    } else {
      assert h.stored + [] == h.stored;
    }
  }

  lemma ResolveRing(s: Socket, seg: Segment, pad: nat)
    ensures var o := Resolve(s, seg, pad);
      (o.socket.queue == s.queue && o.stored == []) || o.socket.queue == s.queue + [o.stored]
  {
    hide NonZero;
    hide Padded;
  }

  lemma AfterRing(w: System, e: Event)
    requires Enabled(w, e) && RingOk(w.client) && RingOk(w.server)
    ensures RingOk(After(w, e).client) && RingOk(After(w, e).server)
  {
    hide ReadsOk;
    match e
    case Deliver(to, seg, pad) =>
      hide Resolve;
      AbsorbRing(Get(w, to), seg, pad);
    case Fetch(x, len) =>
      var r, q := Get(w, x).app, Get(w, x).socket.queue;
      ReadOk(r, q[0], len);
      assert r.taken + q[0] + Concat(q[1..]) == r.taken + Concat(q);
    case _ =>
  }

  lemma {:induction false} EveryRing(ws: seq<System>, es: seq<Event>, n: nat)
    requires IsRun(ws, es) && n < |ws|
    ensures RingOk(ws[n].client) && RingOk(ws[n].server)
  {
    hide RingOk;
    if n == 0 {
      StartRing();
    } else {
      EveryRing(ws, es, n - 1);
      hide After;
      AfterRing(ws[n - 1], es[n - 1]);
    }
  }

  lemma StartRing()
    ensures RingOk(Start().client) && RingOk(Start().server)
  {}

  ghost predicate AllDifferent(s: seq<nat>) {
    forall i, j :: 0 <= i < j < |s| ==> s[i] != s[j]
  }

  /** What recv hands over, before a FIN and with no chunk lost: the chunks taken are a prefix of what the peer sent;
      the bytes handed over are all of them exactly when no chunk was cut, and are a prefix of what was sent as long as
      nothing is handed over after a cut. From then on they are not a prefix of any stream of pairwise different
      bytes. */
  lemma HandedOver(ws: seq<System>, es: seq<Event>, n: nat, x: Side)
    requires IsRun(ws, es) && n < |ws| && !Get(ws[n], x).finSeen && !Get(ws[n], x).lost
    ensures var r, sent := Get(ws[n], x).app, Get(ws[n], Peer(x)).sent;
      && r.taken <= sent && (r.fetched == r.taken <==> !r.cut)
      && (!r.gap ==> r.fetched <= sent) && (AllDifferent(sent) ==> (r.fetched <= sent <==> !r.gap))
  {
    hide After;
    hide Enabled;
    PrefixDelivery(ws, es, n, x);
    EveryRing(ws, es, n);
    hide IsRun;
    var h, sent := Get(ws[n], x), Get(ws[n], Peer(x)).sent;
    var r := h.app;
    assert r.taken <= h.stored;
    if r.gap {
      var j, k :| 0 <= j < |r.fetched| && j < k < |r.taken| && r.fetched[j] == r.taken[k];
      assert r.taken[k] == sent[k];
    }
  }

  // ----- A run with such a cut

  const DATA1: Segment := Segment(Client, Ack, 1, 1, [1, 2])
  const DATA2: Segment := Segment(Client, Ack, 3, 1, [3])

  /** The client has connected and sent 1, 2 and then 3; the server is at `queue`. */
  ghost predicate Sent(w: System, queue: seq<seq<nat>>, ack: nat, r: Reads) {
    && w.server.socket == Socket(Server, Established, 1, ack, queue, true) && w.server.app == r
    && w.client.sent == [1, 2, 3] && {DATA1, DATA2} <= w.net
  }

  const SYN: Segment := Segment(Client, Syn, 0, 0, [])
  const SYN_ACK: Segment := Segment(Server, SynAck, 0, 1, [])
  const ACK: Segment := Segment(Client, Ack, 1, 1, [])

  /** The handshake up to the server's answer. */
  lemma Calling() returns (ws: seq<System>, es: seq<Event>)
    ensures IsRun(ws, es) && |es| == 3 && SYN_ACK in ws[3].net
    ensures ws[3].client == Idle(Client).(socket := ws[3].client.socket)
    ensures ws[3].client.socket == Socket(Client, SynSent, 0, 0, [], false)
    ensures ws[3].server == Idle(Server).(socket := Socket(Server, SynReceived, 1, 1, [], true))
  {
    es := [Listen, Connect, Deliver(Server, SYN, 0)];
    var w1 := After(Start(), es[0]);
    var w2 := After(w1, es[1]);
    assert SYN in w2.net;
    ws := [Start(), w1, w2, After(w2, es[2])];
  }

  /** Its end. */
  lemma Answering(w: System) returns (w4: System, w5: System)
    requires SYN_ACK in w.net && w.client == Idle(Client).(socket := Socket(Client, SynSent, 0, 0, [], false))
    requires w.server == Idle(Server).(socket := Socket(Server, SynReceived, 1, 1, [], true))
    ensures Enabled(w, Deliver(Client, SYN_ACK, 0)) && w4 == After(w, Deliver(Client, SYN_ACK, 0))
    ensures Enabled(w4, Deliver(Server, ACK, 0)) && w5 == After(w4, Deliver(Server, ACK, 0))
    ensures w5.client == Idle(Client).(socket := Socket(Client, Established, 1, 1, [], false))
    ensures w5.server == Idle(Server).(socket := Socket(Server, Established, 1, 1, [], true))
  {
    hide NonZero;
    hide Padded;
    w4 := After(w, Deliver(Client, SYN_ACK, 0));
    assert ACK in w4.net && w4.client.socket == Socket(Client, Established, 1, 1, [], false);
    w5 := After(w4, Deliver(Server, ACK, 0));
  }

  /** The two sends. */
  lemma Sending(w: System) returns (w6: System, w7: System)
    requires w.client == Idle(Client).(socket := Socket(Client, Established, 1, 1, [], false))
    requires w.server == Idle(Server).(socket := Socket(Server, Established, 1, 1, [], true))
    ensures Enabled(w, Send(Client, [1, 2])) && w6 == After(w, Send(Client, [1, 2]))
    ensures Enabled(w6, Send(Client, [3])) && w7 == After(w6, Send(Client, [3]))
    ensures Sent(w7, [], 1, Reads([], [], false, false))
  {
    w6 := After(w, Send(Client, [1, 2]));
    w7 := After(w6, Send(Client, [3]));
  }

  /** The seven events of the handshake and the two sends. */
  lemma Opening() returns (ws: seq<System>, es: seq<Event>)
    ensures IsRun(ws, es) && |es| == 7 && Sent(ws[7], [], 1, Reads([], [], false, false))
  {
    hide After;
    hide Enabled;
    hide Sent;
    var begun, calls := Calling();
    var w4, w5 := Answering(begun[3]);
    var w6, w7 := Sending(w5);
    ws := begun + [w4, w5, w6, w7];
    es := calls + [Deliver(Client, SYN_ACK, 0), Deliver(Server, ACK, 0), Send(Client, [1, 2]), Send(Client, [3])];
  }

  lemma Arrives(w: System, queue: seq<seq<nat>>, r: Reads, seg: Segment)
    requires (queue == [] && seg == DATA1) || (queue == [[1, 2]] && seg == DATA2)
    requires Sent(w, queue, seg.seqNum, r)
    ensures var v := After(w, Deliver(Server, seg, 0));
      Enabled(w, Deliver(Server, seg, 0)) && Sent(v, queue + [seg.payload], seg.seqNum + |seg.payload|, r)
  {
    AllNonZero(seg.payload);
    PaddingCountsNothing(seg.payload, 0);
    WholeChunkIff(w.server.socket, seg, 0);
  }

  /** The server's application reads the chunks 1 2 and 3 with room for one byte at a time: it gets 1 3. */
  lemma CutLosesBytes() returns (ws: seq<System>, es: seq<Event>)
    ensures IsRun(ws, es) && |es| == 11
    ensures var w := ws[11];
      w.server.app.fetched == [1, 3] && w.client.sent == [1, 2, 3] && !(w.server.app.fetched <= w.client.sent)
  {
    hide After;
    hide Enabled;
    var begun, first := Opening();
    var w7 := begun[7];
    var r := Reads([], [], false, false);
    Arrives(w7, [], r, DATA1);
    var w8 := After(w7, Deliver(Server, DATA1, 0));
    assert [] + [[1, 2]] == [[1, 2]];
    Arrives(w8, [[1, 2]], r, DATA2);
    var w9 := After(w8, Deliver(Server, DATA2, 0));
    Fetches(w9, [[1, 2], [3]], 4, r);
    var w10 := After(w9, Fetch(Server, 1));
    Fetches(w10, [[3]], 4, Read(r, [1, 2], 1));
    var w11 := After(w10, Fetch(Server, 1));
    es := first + [Deliver(Server, DATA1, 0), Deliver(Server, DATA2, 0), Fetch(Server, 1), Fetch(Server, 1)];
    ws := begun + [w8, w9, w10, w11];
    assert [1, 2][..1] == [1];
    assert [1, 3][1] != [1, 2, 3][1];
  }

  lemma Fetches(w: System, queue: seq<seq<nat>>, ack: nat, r: Reads)
    requires queue != [] && Sent(w, queue, ack, r)
    ensures Enabled(w, Fetch(Server, 1)) && Sent(After(w, Fetch(Server, 1)), queue[1..], ack, Read(r, queue[0], 1))
  {}

  /** ESTABLISHED is reached only through SYN, SYN|ACK and ACK: on the client after the server's answer to its SYN,
      on the server after the client's ACK. */
  lemma ThreeWayHandshake(ws: seq<System>, es: seq<Event>, n: nat)
    requires IsRun(ws, es) && n < |ws|
    ensures var w := ws[n];
      && (Opened(w.client.socket) ==>
            && Synced(w.server.socket)
            && (exists seg :: seg in w.net && seg.from == Client && seg.kind == Syn && seg.seqNum == ISS)
            && (exists seg :: seg in w.net && seg.from == Server && seg.kind == SynAck && seg.seqNum == ISS))
      && (Opened(w.server.socket) ==>
            Opened(w.client.socket) && exists seg :: seg in w.net && seg.from == Client && seg.kind == Ack)
  {
    EveryState(ws, es, n);
    var w := ws[n];
    if Opened(w.client.socket) {
      var a :| a in w.net && a.from == Server && a.kind == SynAck;
      assert SegmentOk(w, a);
      var s :| s in w.net && s.from == Client && s.kind == Syn;
      assert SegmentOk(w, s);
    }
    if Opened(w.server.socket) {
      var s :| s in w.net && s.from == Client && s.kind == Ack;
      assert SegmentOk(w, s);
    }
  }

  /** The delivery that synchronises a host sets ack_num to the peer's initial sequence number plus one. */
  lemma InitialAck(ws: seq<System>, es: seq<Event>, n: nat, x: Side)
    requires IsRun(ws, es) && n < |es|
    requires !Synced(Get(ws[n], x).socket) && Synced(Get(ws[n + 1], x).socket)
    ensures Get(ws[n + 1], x).socket.ackNum == Next(ISS, 1) && Get(ws[n + 1], x).accepted == []
    ensures es[n].Deliver? && es[n].to == x && es[n].seg.kind == if x == Client then SynAck else Syn
  {
    EveryState(ws, es, n);
    EveryState(ws, es, n + 1);
    var w, e := ws[n], es[n];
    assert ReceiverOk(Get(w, x), Get(w, Peer(x)).sent);
    if e.Deliver? {
      assert SegmentOk(w, e.seg);
    }
  }

  /** A chunk is dropped exactly when it is not empty and the ring has no buffer: the ring is full, or the socket
      came from connect, which never gives it buffers. */
  lemma LostIff(h: Host, seg: Segment, pad: nat)
    ensures var o := Resolve(h.socket, seg, pad);
      o.stored != o.accepted <==> o.accepted != [] && (!h.socket.hasBuffers || |h.socket.queue| >= RING)
  {
    hide NonZero;
    hide Padded;
  }

  /** A client's ring never holds anything: what it acknowledges is lost. */
  ghost predicate Bufferless(h: Host) {
    !h.socket.hasBuffers && h.stored == [] && (h.lost <==> h.accepted != [])
  }

  lemma AbsorbBufferless(h: Host, seg: Segment, pad: nat)
    requires Bufferless(h)
    ensures Bufferless(Absorb(h, seg, pad))
  {
    hide NonZero;
    hide Padded;
  }

  lemma {:induction false} ClientBuffersNothing(ws: seq<System>, es: seq<Event>, n: nat)
    requires IsRun(ws, es) && n < |ws|
    ensures ws[n].client.stored == [] && (ws[n].client.lost <==> ws[n].client.accepted != [])
    ensures Bufferless(ws[n].client)
  {
    if n > 0 {
      ClientBuffersNothing(ws, es, n - 1);
      var w, e := ws[n - 1], es[n - 1];
      hide Resolve;
      if e.Deliver? && e.to == Client {
        AbsorbBufferless(w.client, e.seg, e.pad);
      }
    }
  }

  lemma {:induction false} PaddingCountsNothing(payload: seq<nat>, pad: nat)
    ensures NonZero(Padded(payload, pad)) == NonZero(payload)
  {
    var frame := Padded(payload, pad);
    if pad == 0 {
      assert frame == payload;
    } else {
      PaddingCountsNothing(payload, pad - 1);
      assert frame[..|frame| - 1] == Padded(payload, pad - 1);
    }
  }

  lemma {:induction false} AllNonZero(data: seq<nat>)
    ensures NonZero(data) == |data| <==> forall i :: 0 <= i < |data| ==> data[i] != 0
  {
    if data != [] {
      var init := data[..|data| - 1];
      AllNonZero(init);
      assert (forall i :: 0 <= i < |data| ==> data[i] != 0) <==>
        (forall i :: 0 <= i < |init| ==> init[i] != 0) && data[|data| - 1] != 0 by {
        assert forall i :: 0 <= i < |init| ==> init[i] == data[i];
        assert data == init + [data[|data| - 1]];
      }
    }
  }

  /** A segment in sequence is taken whole, and nothing of the frame's padding with it, exactly when no byte of it is
      zero; otherwise its tail is dropped and never asked for again. */
  lemma WholeChunkIff(s: Socket, seg: Segment, pad: nat)
    requires seg.seqNum == s.ackNum
    ensures ReceiveData(s, seg, pad).accepted <= seg.payload
    ensures ReceiveData(s, seg, pad).accepted == seg.payload <==>
      forall i :: 0 <= i < |seg.payload| ==> seg.payload[i] != 0
  {
    PaddingCountsNothing(seg.payload, pad);
    AllNonZero(seg.payload);
    var n := NonZero(seg.payload);
    assert Padded(seg.payload, pad)[..n] == seg.payload[..n];
    if n == |seg.payload| {
      assert seg.payload[..n] == seg.payload;
    }
  }

  // ----- The code

  /** The loop that computes real_len. */
  method RealLen(data: seq<nat>) returns (n: nat)
    ensures n == NonZero(data)
  {
    n := 0;
    var i := 0;
    while i < |data|
      invariant 0 <= i <= |data| && n == NonZero(data[..i])
    {
      assert data[..i + 1][..i] == data[..i];
      if data[i] != 0 {
        n := n + 1;
      }
      i := i + 1;
    }
    assert data[..i] == data;
  }

  class TcpSocket {
    const side: Side
    var state: TcpState
    var seqNum: nat
    var ackNum: nat
    var queue: seq<seq<nat>>
    const hasBuffers: bool
    /** Segments handed to the driver, oldest first. */
    var outbox: seq<Segment>

    ghost function View(): Socket
      reads this
    {
      Socket(side, state, seqNum, ackNum, queue, hasBuffers)
    }

    /** listen gives the ring its buffers. */
    constructor Listen()
      ensures View() == Socket(Server, Listening, 0, 0, [], true) && outbox == []
    {
      side, state, seqNum, ackNum, queue, hasBuffers, outbox := Server, Listening, 0, 0, [], true, [];
    }

    /** connect sends the SYN; it does not initialise the receive ring. */
    constructor Connect()
      ensures View() == Socket(Client, SynSent, ISS, 0, [], false)
      ensures outbox == [Segment(Client, Syn, ISS, 0, [])]
    {
      side, state, seqNum, ackNum, queue, hasBuffers := Client, SynSent, 0, 0, [], false;
      outbox := [Segment(Client, Syn, 0, 0, [])];
    }

    /** send with format_packet: the header carries seq_num, which then moves past the payload. */
    method Transmit(kind: Kind, payload: seq<nat>)
      requires seqNum < WRAP
      modifies this`outbox, this`seqNum
      ensures outbox == old(outbox) + [Emit(old(View()), kind, payload)]
      ensures seqNum == Next(old(seqNum), |payload|)
    {
      outbox := outbox + [Segment(side, kind, seqNum, ackNum, payload)];
      seqNum := (seqNum + |payload|) % WRAP;
    }

    /** The default branch: count the non-zero bytes, copy that many, acknowledge. */
    method TakeData(seg: Segment, pad: nat)
      requires seqNum < WRAP
      modifies this`queue, this`ackNum, this`outbox, this`seqNum
      ensures var o := ReceiveData(old(View()), seg, pad); View() == o.socket && outbox == old(outbox) + o.sends
      ensures seqNum == old(seqNum)
    {
      var dataStart := seg.payload + seq(pad, _ => 0);
      var realLen := RealLen(dataStart);
      if seg.seqNum == ackNum {
        if hasBuffers && |queue| < RING {
          var buf: seq<nat> := [];
          var i := 0;
          while i < realLen
            invariant 0 <= i <= realLen && buf == dataStart[..i]
          {
            buf := buf + [dataStart[i]];
            i := i + 1;
          }
          queue := queue + [buf];
        }
        ackNum := (ackNum + realLen) % WRAP;
        Transmit(Ack, []);
      }
    }

    method OnSyn(seg: Segment)
      requires seg.kind == Syn && state == Listening
      modifies this
      ensures var o := Resolve(old(View()), seg, 0); View() == o.socket && outbox == old(outbox) + o.sends
    {
      state := SynReceived;
      ackNum := (seg.seqNum + 1) % WRAP;
      seqNum := 0;
      Transmit(SynAck, []);
      seqNum := (seqNum + 1) % WRAP;
    }

    method OnSynAck(seg: Segment)
      requires seg.kind == SynAck && state == SynSent
      modifies this
      ensures var o := Resolve(old(View()), seg, 0); View() == o.socket && outbox == old(outbox) + o.sends
    {
      state := Established;
      seqNum := (seqNum + 1) % WRAP;
      ackNum := (seg.seqNum + 1) % WRAP;
      Transmit(Ack, []);
    }

    method OnFin(seg: Segment)
      requires seg.kind == FinAck && seqNum < WRAP && state != NoSocket && state != Freed
      modifies this
      ensures var o := Resolve(old(View()), seg, 0); View() == o.socket && outbox == old(outbox) + o.sends
    {
      if state == Established {
        state := CloseWait;
        ackNum := (ackNum + 1) % WRAP;
        Transmit(Ack, []);
        Transmit(FinAck, []);
      } else if state == CloseWait {
        state := Closed;
      } else if state == FinWait1 || state == FinWait2 {
        state := Closed;
        ackNum := (ackNum + 1) % WRAP;
        Transmit(Ack, []);
      }
    }

    /** resolve_packet on the socket bound to the destination port. */
    method ResolvePacket(seg: Segment, pad: nat)
      requires seqNum < WRAP
      modifies this
      ensures var o := Resolve(old(View()), seg, pad); View() == o.socket && outbox == old(outbox) + o.sends
    {
      hide ReceiveData;
      if state == NoSocket || state == Freed {
        return;
      }
      match seg.kind {
        case Syn =>
          if state == Listening {
            OnSyn(seg);
          }
        case SynAck =>
          if state == SynSent {
            OnSynAck(seg);
          }
        case FinAck => OnFin(seg);
        case Ack =>
          if state == SynReceived {
            state := Established;
          } else if state == FinWait1 {
            state := FinWait2;
          } else if state == CloseWait {
            state := Closed;
          } else {
            TakeData(seg, pad);
          }
      }
    }

    /** recv: at most `len` bytes of the oldest chunk; the rest of that chunk is gone. */
    method Recv(len: nat) returns (buf: seq<nat>)
      requires queue != []
      modifies this`queue
      ensures queue == old(queue)[1..] && buf == Clip(old(queue)[0], len)
    {
      var content := queue[0];
      queue := queue[1..];
      buf := content[..if len > |content| then |content| else len];
    }

    method Disconnect()
      requires seqNum < WRAP
      modifies this`state, this`outbox, this`seqNum
      ensures state == FinWait1 && seqNum == Next(old(seqNum), 1)
      ensures outbox == old(outbox) + [Emit(old(View()), FinAck, [])]
    {
      state := FinWait1;
      Transmit(FinAck, []);
      seqNum := (seqNum + 1) % WRAP;
    }
  }
}
