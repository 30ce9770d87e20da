/** The peer link screen: the events a peer transport emits, and the
    status line, connection flag and peer bookkeeping the link keeps as it
    starts a host or a client, stops, sends and reacts to events. A
    received message that decodes to a move is forwarded to the game
    screen. The transports themselves (Bluetooth sockets, discovery) are
    not part of this model. */
module PeerSession {
  import opened GameData
  import opened GameLogic
  import opened WireCodec
  import opened GameSession

  /** What a peer transport reports. */
  datatype PeerEvent =
    | Connected(peerName: string)
    | Disconnected(reason: string)
    | Message(json: string)
    | Error(message: string)

  /** Whether a transport was started as the host or as a client searching
      for the named host. */
  datatype Role = Host | Client(target: string)

  /** A transport the link created; `active` until it is stopped. */
  datatype Peer = Peer(role: Role, active: bool)

  /** The link: the status line, the connection flag, every transport
      created so far in creation order, and the index of the one the link
      currently holds (the link keeps its reference after stopping it). */
  datatype Link = Link(status: string, connected: bool, peers: seq<Peer>, current: Option<nat>)

  /** A freshly created link: idle, not connected, no transport. */
  const InitialLink: Link := Link("Idle", false, [], None)

  /** The link holds a transport it created, and no transport other than
      the one it holds is running. */
  predicate Wellformed(l: Link)
  {
    && (l.current.Some? ==> l.current.value < |l.peers|)
    && (forall i :: 0 <= i < |l.peers| && l.peers[i].active ==> l.current == Some(i))
  }

  lemma InitialLinkWellformed()
    ensures Wellformed(InitialLink) && !InitialLink.connected && InitialLink.status == "Idle"
  {
  }

  /** `peer?.stop()`: the held transport, if any, is no longer running;
      every other transport is as it was. */
  function StopHeld(l: Link): (ps: seq<Peer>)
    ensures |ps| == |l.peers|
    ensures forall i :: 0 <= i < |ps| ==> ps[i].role == l.peers[i].role
    ensures forall i :: 0 <= i < |ps| ==> (ps[i].active <==> l.peers[i].active && l.current != Some(i))
  {
    if l.current.Some? && l.current.value < |l.peers| then
      l.peers[l.current.value := l.peers[l.current.value].(active := false)]
    else
      l.peers
  }

  /** Replaces the held transport by a new running one in the given role;
      the connection flag is left as it was. */
  function StartPeer(l: Link, role: Role, status: string): (r: Link)
    ensures r.status == status && r.connected == l.connected
    ensures |r.peers| == |l.peers| + 1 && r.current == Some(|l.peers|)
    ensures r.peers[|l.peers|] == Peer(role, true)
    ensures forall i :: 0 <= i < |l.peers| ==>
              r.peers[i].role == l.peers[i].role &&
              (r.peers[i].active <==> l.peers[i].active && l.current != Some(i))
  {
    Link(status, l.connected, StopHeld(l) + [Peer(role, true)], Some(|l.peers|))
  }

  /** `startBluetoothHost`: stop the held transport, create and hold a host. */
  function StartHost(l: Link): (r: Link)
    ensures r.status == "Hosting via Bluetooth..." && r.connected == l.connected
    ensures |r.peers| == |l.peers| + 1 && r.current == Some(|l.peers|) && r.peers[|l.peers|] == Peer(Host, true)
  {
    StartPeer(l, Host, "Hosting via Bluetooth...")
  }

  /** `connectBluetooth`: stop the held transport, create and hold a client
      searching for `target`. */
  function Connect(l: Link, target: string): (r: Link)
    ensures r.status == "Searching for host..." && r.connected == l.connected
    ensures |r.peers| == |l.peers| + 1 && r.current == Some(|l.peers|) && r.peers[|l.peers|] == Peer(Client(target), true)
  {
    StartPeer(l, Client(target), "Searching for host...")
  }

  /** `stop`: stop the held transport, which stays held; not connected,
      idle. */
  function Stop(l: Link): (r: Link)
    ensures r.status == "Idle" && !r.connected && r.current == l.current
    ensures forall i :: 0 <= i < |r.peers| ==> !r.peers[i].active || l.current != Some(i)
  {
    Link("Idle", false, StopHeld(l), l.current)
  }

  /** What `send` hands to a transport: the text, and which transport. */
  datatype Outgoing = Outgoing(peer: nat, text: string)

  /** `send`: the text goes to the held transport unchanged; with no
      transport it goes nowhere. */
  function Send(l: Link, message: string): (r: Option<Outgoing>)
    ensures r.Some? <==> l.current.Some?
    ensures r.Some? ==> r.value == Outgoing(l.current.value, message)
  {
    match l.current
    case Some(i) => Some(Outgoing(i, message))
    case None => None
  }

  /** Where the text goes: on a wellformed link, to the one transport that
      is running, if any; after starting a host or a client, to that new
      running transport; after `stop`, to the held transport, which is no
      longer running. */
  lemma SendTarget(l: Link, message: string, target: string)
    requires Wellformed(l)
    ensures forall i :: 0 <= i < |l.peers| && l.peers[i].active ==> Send(l, message) == Some(Outgoing(i, message))
    ensures var h := StartHost(l);
      Send(h, message) == Some(Outgoing(|l.peers|, message)) && h.peers[|l.peers|].active
    ensures var c := Connect(l, target);
      Send(c, message) == Some(Outgoing(|l.peers|, message)) && c.peers[|l.peers|].active
    ensures var o := Send(Stop(l), message);
      o.Some? ==> o.value.peer < |Stop(l).peers| && !Stop(l).peers[o.value.peer].active
  {
  }

  /** A link after one event, and the move it forwards to the game screen. */
  datatype Reaction = Reaction(link: Link, forward: Option<Pos>)

  /** The event collector. A connection sets the flag and names the peer;
      a disconnection clears it and gives the reason; an error is shown
      and leaves the flag; a message is trimmed, shown, and forwarded when
      it decodes to two Ints. Only the status line and the flag change. */
  function OnEvent(l: Link, ev: PeerEvent): (r: Reaction)
    ensures r.link.peers == l.peers && r.link.current == l.current
    ensures ev.Connected? ==> r.link.connected && r.link.status == "Connected to " + ev.peerName
    ensures ev.Disconnected? ==> !r.link.connected && r.link.status == "Disconnected: " + ev.reason
    ensures ev.Error? ==> r.link.connected == l.connected && r.link.status == "Error: " + ev.message
    ensures ev.Message? ==> r.link.connected == l.connected && r.link.status == "Received: " + Trim(ev.json)
    ensures ev.Message? ==> r.forward == DecodeMove(Trim(ev.json))
    ensures !ev.Message? ==> r.forward == None
  {
    match ev
    case Connected(name) => Reaction(l.(connected := true, status := "Connected to " + name), None)
    case Disconnected(reason) => Reaction(l.(connected := false, status := "Disconnected: " + reason), None)
    case Error(message) => Reaction(l.(status := "Error: " + message), None)
    case Message(json) =>
      var raw := Trim(json);
      Reaction(l.(status := "Received: " + raw), DecodeMove(raw))
  }

  /** Starting, connecting, stopping and every event keep the link
      wellformed: at most one transport runs, and it is the held one. */
  lemma OperationsKeepWellformed(l: Link, target: string, ev: PeerEvent)
    requires Wellformed(l)
    ensures Wellformed(StartHost(l)) && Wellformed(Connect(l, target))
    ensures Wellformed(Stop(l)) && Wellformed(OnEvent(l, ev).link)
  {
    StartPeerKeepsWellformed(l, Host, "Hosting via Bluetooth...");
    StartPeerKeepsWellformed(l, Client(target), "Searching for host...");
  }

  lemma StartPeerKeepsWellformed(l: Link, role: Role, status: string)
    requires Wellformed(l)
    ensures Wellformed(StartPeer(l, role, status))
  {
    var r := StartPeer(l, role, status);
    forall i | 0 <= i < |l.peers|
      ensures !r.peers[i].active
    {
    }
  }

  // ---------------------------------------------------------------------
  // Runs of events
  // ---------------------------------------------------------------------

  /** The link after the collector has seen `evs`, in order. */
  function Run(l: Link, evs: seq<PeerEvent>): Link
  {
    if |evs| == 0 then l
    else OnEvent(Run(l, evs[..|evs| - 1]), evs[|evs| - 1]).link
  }

  /** The connection verdict of the latest connection or disconnection
      event in `evs`, if there is one. */
  function LastVerdict(evs: seq<PeerEvent>): Option<bool>
  {
    if |evs| == 0 then None
    else if evs[|evs| - 1].Connected? then Some(true)
    else if evs[|evs| - 1].Disconnected? then Some(false)
    else LastVerdict(evs[..|evs| - 1])
  }

  /** The connection flag tells whether the latest connection event was a
      connection; messages and errors never move it, and with no such
      event it is what it was. */
  lemma {:induction false} ConnectedFollowsLastVerdict(l: Link, evs: seq<PeerEvent>)
    ensures Run(l, evs).connected == match LastVerdict(evs) case Some(b) => b case None => l.connected
  {
    if |evs| > 0 {
      ConnectedFollowsLastVerdict(l, evs[..|evs| - 1]);
    }
  }

  /** However many events arrive, the transports and the held one stay as
      they were. */
  lemma {:induction false} RunKeepsPeers(l: Link, evs: seq<PeerEvent>)
    ensures Run(l, evs).peers == l.peers && Run(l, evs).current == l.current
  {
    if |evs| > 0 {
      RunKeepsPeers(l, evs[..|evs| - 1]);
    }
  }

  // ---------------------------------------------------------------------
  // A move travelling from one device to the other
  // ---------------------------------------------------------------------

  /** A message carrying a move's text, with any whitespace around it, is
      forwarded as exactly that move. */
  lemma ReceivedMoveIsForwarded(l: Link, p: Pos, pre: string, post: string)
    requires IntMin <= p.row <= IntMax && IntMin <= p.col <= IntMax
    requires AllWhitespace(pre) && AllWhitespace(post)
    ensures OnEvent(l, Message(pre + EncodeMove(p) + post)).forward == Some(p)
    ensures OnEvent(l, Message(pre + EncodeMove(p) + post)).link.status == "Received: " + EncodeMove(p)
  {
    var t := EncodeMove(p);
    IntToStringCharacters(p.row);
    IntToStringCharacters(p.col);
    assert t[0] == IntToString(p.row)[0];
    assert t[|t| - 1] == IntToString(p.col)[|IntToString(p.col)| - 1];
    TrimRemovesPadding(pre, t, post);
    DecodeEncodeMove(p);
  }

  /** The game screen's side of the collector: a forwarded move is handed
      to `onRemoteMoveReceived`, when a game screen is attached. */
  function Deliver(r: Reaction, game: Option<GameState>, difficulty: Difficulty,
                   mode: GameMode, now: int): (o: Option<RemoteOutcome>)
    ensures o.Some? <==> r.forward.Some? && game.Some?
  {
    match (r.forward, game)
    case (Some(p), Some(s)) => Some(OnRemoteMoveReceived(s, p.row, p.col, difficulty, mode, now))
    case _ => None
  }

  /** The sender's side: on an empty cell of an undecided game a tap in
      peer mode plays the turn-parity symbol there, hands on the move's
      text, and saves a result exactly when the game is now decided. */
  lemma SenderPlays(s: GameState, p: Pos, difficulty: Difficulty, coin: bool, roll: nat, now: int)
    requires !IsOver(s) && InRange(p) && Cell(s.board, p) == EmptyCell
    ensures var r := MakeMove(s, PlayerVsPlayerP2P, difficulty, p, coin, roll, now);
      && r.sent == Some(EncodeMove(p))
      && r.state == Play(s, p, MoverSymbol(PlayerVsPlayerP2P, s.turn)).state
      && (r.saved.Some? <==> IsOver(r.state))
  {
  }

  /** The receiver's side: the same cell gets the same symbol, and
      `checkGameFinished` then decides as `checkGameEnd` does. */
  lemma ReceiverPlays(s: GameState, p: Pos, difficulty: Difficulty, mode: GameMode, now: int)
    requires Marks(s.board) && InRange(p) && Cell(s.board, p) == EmptyCell
    ensures var r := OnRemoteMoveReceived(s, p.row, p.col, difficulty, mode, now);
      && r.Applied?
      && r.state == Play(s, p, MoverSymbol(PlayerVsPlayerP2P, s.turn)).state
  {
    var mark := MoverSymbol(PlayerVsPlayerP2P, s.turn);
    var next := s.(board := Place(s.board, p, mark), turn := s.turn + 1);
    PlaceKeepsMarks(s.board, p, mark);
    FinishedAgreesWithGameEnd(next);
    assert OnRemoteMoveReceived(s, p.row, p.col, difficulty, mode, now).state == CheckGameFinished(next);
  }

  /** A received move's text reaches the game screen as that move. */
  lemma DeliveredMoveIsApplied(l: Link, s: GameState, p: Pos, difficulty: Difficulty, mode: GameMode, now: int)
    requires InRange(p)
    ensures Deliver(OnEvent(l, Message(EncodeMove(p))), Some(s), difficulty, mode, now) ==
            Some(OnRemoteMoveReceived(s, p.row, p.col, difficulty, mode, now))
  {
    ReceivedMoveIsForwarded(l, p, "", "");
    assert "" + EncodeMove(p) + "" == EncodeMove(p);
  }

  /** Two devices showing the same undecided game stay in step: the text a
      tap on an empty cell sends over the link, once received, makes the
      other device write the same symbol into the same cell and reach the
      same state, and both save a result exactly when the game is now
      decided. */
  lemma ReceiverMirrorsSender(s: GameState, p: Pos, l: Link, difficulty: Difficulty,
                              coin: bool, roll: nat, now: int)
    requires Marks(s.board) && !IsOver(s)
    requires InRange(p) && Cell(s.board, p) == EmptyCell
    ensures var sender := MakeMove(s, PlayerVsPlayerP2P, difficulty, p, coin, roll, now);
      && sender.sent.Some?
      && var o := Deliver(OnEvent(l, Message(sender.sent.value)), Some(s), difficulty, PlayerVsPlayerP2P, now);
      && o.Some? && o.value.Applied?
      && o.value.state == sender.state
      && (o.value.saved.Some? <==> sender.saved.Some?)
  {
    SenderPlays(s, p, difficulty, coin, roll, now);
    ReceiverPlays(s, p, difficulty, PlayerVsPlayerP2P, now);
    DeliveredMoveIsApplied(l, s, p, difficulty, PlayerVsPlayerP2P, now);
  }
}
