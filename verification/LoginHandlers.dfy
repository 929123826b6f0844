/** The two sides of the login as the objects they are: the server's connection handler
    (internal/network/handler.go, login.go, configuration.go) and the test client
    (internal/e2e/client.go), each reading the packets that reach it one after the other. */
module LoginHandlers {
  import opened Login

  // ---- A handler that runs to its end

  function Ran(s: Side): Side
    decreases |s.todo|
  {
    if s.todo == [] then s else Ran(Done(s))
  }

  function Packets(s: Side): seq<Packet>
    decreases |s.todo|
  {
    if s.todo == [] then [] else Sent(s) + Packets(Done(s))
  }

  lemma Unfold(s: Side, was: seq<Packet>)
    requires s.todo != []
    ensures Ran(s) == Ran(Done(s)) && was + Packets(s) == was + Sent(s) + Packets(Done(s))
  {
    assert was + (Sent(s) + Packets(Done(s))) == was + Sent(s) + Packets(Done(s));
  }

  function Acted(v: Server): Server
    requires v.side.todo != []
  {
    v.(side := Done(v.side), step := if v.side.todo[0].SetReady? then Ready else v.step)
  }

  function RanServer(v: Server): Server
    decreases |v.side.todo|
  {
    if v.side.todo == [] then v else RanServer(Acted(v))
  }

  // ---- Everything a side makes of the packets that reach it

  function Serving(k: Config, v: Server, inbox: seq<Packet>): Server
    decreases |inbox|
  {
    if inbox == [] || v.side.failed || v.side.phase == Play then v
    else Serving(k, RanServer(ServerRead(k, v, inbox[0])), inbox[1..])
  }

  function ServingPackets(k: Config, v: Server, inbox: seq<Packet>): seq<Packet>
    decreases |inbox|
  {
    if inbox == [] || v.side.failed || v.side.phase == Play then []
    else
      var next := ServerRead(k, v, inbox[0]);
      Packets(next.side) + ServingPackets(k, RanServer(next), inbox[1..])
  }

  function Reading(c: Side, inbox: seq<Packet>): Side
    decreases |inbox|
  {
    if inbox == [] || c.failed || c.phase == Play then c else Reading(Ran(ClientRead(c, inbox[0])), inbox[1..])
  }

  function ReadingPackets(c: Side, inbox: seq<Packet>): seq<Packet>
    decreases |inbox|
  {
    if inbox == [] || c.failed || c.phase == Play then []
    else
      var next := ClientRead(c, inbox[0]);
      Packets(next) + ReadingPackets(Ran(next), inbox[1..])
  }

  lemma ServeNext(k: Config, v: Server, was: seq<Packet>, inbox: seq<Packet>)
    requires inbox != [] && !v.side.failed && v.side.phase != Play
    ensures var next := ServerRead(k, v, inbox[0]);
            && Serving(k, v, inbox) == Serving(k, RanServer(next), inbox[1..])
            && was + ServingPackets(k, v, inbox)
               == was + Packets(next.side) + ServingPackets(k, RanServer(next), inbox[1..])
  {
    hide ServerRead, RanServer, Packets;
    var next := ServerRead(k, v, inbox[0]);
    assert was + (Packets(next.side) + ServingPackets(k, RanServer(next), inbox[1..]))
        == was + Packets(next.side) + ServingPackets(k, RanServer(next), inbox[1..]);
  }

  lemma ServeDone(k: Config, v: Server, was: seq<Packet>, inbox: seq<Packet>)
    requires inbox == [] || v.side.failed || v.side.phase == Play
    ensures Serving(k, v, inbox) == v && was + ServingPackets(k, v, inbox) == was
  {
  }

  // ---- The server

  class Handler {
    const k: Config
    var state: Phase
    var threshold: int
    var loginStep: LoginStep
    var protocolVersion: int
    var profile: string
    var failed: bool
    var wire: seq<Packet>
    /** What the running handler has still to do. */
    ghost var todo: seq<Act>

    constructor (k: Config)
      ensures this.k == k && View() == Initial(k).server && wire == []
    {
      this.k := k;
      state, threshold, loginStep, protocolVersion := Handshaking, -1, Start, 0;
      profile, failed, wire, todo := "", false, [], [];
    }

    ghost function View(): Server
      reads this
    {
      Server(Side(state, threshold, todo, failed), loginStep, protocolVersion, profile)
    }

    /** The state and the wire when the handler is through. */
    ghost function End(): (Server, seq<Packet>)
      reads this
    {
      (RanServer(View()), wire + Packets(View().side))
    }

    method SendPacket(id: int, body: Body)
      requires todo != [] && todo[0] == Send(id, body)
      modifies this`wire, this`todo
      ensures todo == old(todo[1..]) && End() == old(End())
    {
      Unfold(View().side, wire);
      wire := wire + [Packet(id, body, threshold, state)];
      todo := todo[1..];
    }

    method HandleHandshake(p: Packet)
      requires todo == []
      modifies this
      ensures wire == old(wire) && View() == Login.HandleHandshake(old(View()), p)
    {
      if p.id != HANDSHAKE || !p.body.Hello? {
        failed := true;
        return;
      }
      protocolVersion := p.body.version;
      if p.body.next == NEXT_STATUS {
        state := Status;
      } else if p.body.next == NEXT_LOGIN || p.body.next == NEXT_TRANSFER {
        state := LoginPhase;
      } else {
        failed := true;
      }
    }

    /** `next`, the state and what it makes the handler do, has been run to its end. */
    ghost predicate Handled(next: Server, was: seq<Packet>)
      reads this
    {
      todo == [] && View() == RanServer(next) && wire == was + Packets(next.side)
    }

    method HandleStatus(p: Packet)
      requires todo == []
      modifies this
      ensures Handled(Login.HandleStatus(old(View()), p), old(wire))
    {
      if p.id == STATUS_REQUEST {
        todo := [Send(STATUS_RESPONSE, Other)];
        SendPacket(STATUS_RESPONSE, Other);
      } else if p.id == PING_REQUEST && p.body.Number? {
        todo := [Send(PONG_RESPONSE, p.body)];
        SendPacket(PONG_RESPONSE, p.body);
      } else {
        failed := true;
      }
    }

    method HandleLogin(p: Packet)
      requires todo == []
      modifies this
      ensures Handled(Login.HandleLogin(k, old(View()), p), old(wire))
    {
      if p.id == LOGIN_START {
        HandleLoginStart(p);
      } else if p.id == LOGIN_ACKNOWLEDGED && loginStep == Ready {
        state := Configuration;
        BeginConfiguration();
      } else {
        failed := true;
      }
    }

    method HandleLoginStart(p: Packet)
      requires todo == []
      modifies this
      ensures Handled(Login.HandleLoginStart(k, old(View()), p), old(wire))
    {
      if loginStep != Start || protocolVersion != PROTOCOL || !p.body.Name? || !ValidPlayerName(p.body.name) {
        failed := true;
        return;
      }
      profile := p.body.name;
      todo := Login.FinishLogin(k, profile);
      FinishLogin();
    }

    /** Compression is switched on after its packet is sent and before the next one is. */
    method FinishLogin()
      requires todo == Login.FinishLogin(k, profile)
      modifies this`threshold, this`loginStep, this`wire, this`todo
      ensures todo == [] && End() == old(End())
    {
      if k.threshold >= 0 {
        SendPacket(SET_COMPRESSION, Number(k.threshold));
        EnableCompression(k.threshold);
      }
      SetReady();
      SendPacket(LOGIN_SUCCESS, Name(profile));
    }

    method EnableCompression(t: int)
      requires todo != [] && todo[0] == Compress(t)
      modifies this`threshold, this`todo
      ensures threshold == t && todo == old(todo[1..]) && End() == old(End())
    {
      Unfold(View().side, wire);
      assert wire + [] == wire;
      threshold := t;
      todo := todo[1..];
    }

    method SetReady()
      requires todo != [] && todo[0] == Act.SetReady
      modifies this`loginStep, this`todo
      ensures loginStep == Ready && todo == old(todo[1..]) && End() == old(End())
    {
      Unfold(View().side, wire);
      assert wire + [] == wire;
      loginStep := Ready;
      todo := todo[1..];
    }

    method BeginConfiguration()
      requires todo == []
      modifies this`wire, this`todo
      ensures Handled(old(View()).(side := old(View()).side.(todo := OPENING)), old(wire))
    {
      todo := OPENING;
      SendPacket(CONFIG_CUSTOM_PAYLOAD_CB, Other);
      SendPacket(CONFIG_FEATURES, Other);
      SendPacket(CONFIG_KNOWN_PACKS_CB, Other);
    }

    method HandleConfiguration(p: Packet)
      requires todo == []
      modifies this
      ensures Handled(Login.HandleConfiguration(k, old(View()), p), old(wire))
    {
      if p.id == CONFIG_KNOWN_PACKS_SB {
        HandleKnownPacks(p);
      } else if p.id == CONFIG_CLIENT_INFORMATION || p.id == CONFIG_CUSTOM_PAYLOAD {
        failed := failed || p.body.Bad?;
      } else if p.id == CONFIG_FINISH_SB {
        state := Play;
      }
    }

    method HandleKnownPacks(p: Packet)
      requires todo == [] && p.id == CONFIG_KNOWN_PACKS_SB
      modifies this`wire, this`todo, this`failed
      ensures Handled(Login.HandleConfiguration(k, old(View()), p), old(wire))
    {
      if p.body.Bad? {
        failed := true;
        return;
      }
      todo := Registries(k.registries);
      ghost var all, end := todo, End();
      for i := 0 to k.registries
        invariant todo == all[i..] && End() == end
      {
        SendPacket(CONFIG_REGISTRY_DATA, Other);
      }
      SendPacket(CONFIG_TAGS, Other);
      SendPacket(CONFIG_FINISH_CB, Other);
    }

    /** One packet: read under the connection's threshold, then routed by its state. */
    method Dispatch(p: Packet)
      requires todo == []
      modifies this
      ensures Handled(ServerRead(k, old(View()), p), old(wire))
    {
      if p.threshold != threshold {
        failed := true;
        return;
      }
      match state
      case Handshaking => HandleHandshake(p);
      case Status => HandleStatus(p);
      case LoginPhase => HandleLogin(p);
      case Configuration => HandleConfiguration(p);
      case Play => failed := true;
    }

    /** The read loop up to the play phase. */
    method Serve(inbox: seq<Packet>)
      requires todo == []
      modifies this
      ensures todo == [] && View() == Serving(k, old(View()), inbox)
      ensures wire == old(wire) + ServingPackets(k, old(View()), inbox)
    {
      hide Serving, ServingPackets, ServerRead, RanServer, Packets;
      var i := 0;
      assert inbox[0..] == inbox;
      while i < |inbox| && !failed && state != Play
        invariant i <= |inbox| && todo == []
        invariant Serving(k, View(), inbox[i..]) == Serving(k, old(View()), inbox)
        invariant wire + ServingPackets(k, View(), inbox[i..]) == old(wire) + ServingPackets(k, old(View()), inbox)
      {
        assert inbox[i..][1..] == inbox[i + 1..];
        ServeNext(k, View(), wire, inbox[i..]);
        Dispatch(inbox[i]);
        i := i + 1;
      }
      ServeDone(k, View(), wire, inbox[i..]);
    }
  }

  // ---- The client

  class Client {
    const k: Config
    var state: Phase
    var compressionThreshold: int
    var failed: bool
    var wire: seq<Packet>
    /** What the client has still to do before it reads on. */
    ghost var todo: seq<Act>

    constructor (k: Config)
      ensures this.k == k && View() == Initial(k).client && wire == []
    {
      this.k := k;
      state, compressionThreshold, failed, wire, todo := Handshaking, -1, false, [], Hellos(k);
    }

    ghost function View(): Side
      reads this
    {
      Side(state, compressionThreshold, todo, failed)
    }

    /** The state and the wire when all of the inbox has been read. */
    ghost function End(inbox: seq<Packet>): (Side, seq<Packet>)
      reads this
    {
      (Reading(Ran(View()), inbox), wire + Packets(View()) + ReadingPackets(Ran(View()), inbox))
    }

    method SendPacket(id: int, body: Body, ghost inbox: seq<Packet>)
      requires todo != [] && todo[0] == Send(id, body)
      modifies this`wire, this`todo
      ensures todo == old(todo[1..]) && End(inbox) == old(End(inbox))
    {
      Unfold(View(), wire);
      wire := wire + [Packet(id, body, compressionThreshold, state)];
      todo := todo[1..];
    }

    method Enter(phase: Phase, ghost inbox: seq<Packet>)
      requires todo != [] && todo[0] == Act.Enter(phase)
      modifies this`state, this`todo
      ensures state == phase && todo == old(todo[1..]) && End(inbox) == old(End(inbox))
    {
      Unfold(View(), wire);
      assert wire + [] == wire;
      state := phase;
      todo := todo[1..];
    }

    /** Reading one more packet leaves what it makes the client do. */
    lemma ReadStep(pkt: Packet, inbox: seq<Packet>)
      requires todo == [] && state != Play && !failed
      ensures var next := ClientRead(View(), pkt);
              End([pkt] + inbox) == (Reading(Ran(next), inbox), wire + Packets(next) + ReadingPackets(Ran(next), inbox))
    {
      hide ClientRead;
      var next := ClientRead(View(), pkt);
      assert ([pkt] + inbox)[1..] == inbox && wire + [] == wire;
      assert wire + (Packets(next) + ReadingPackets(Ran(next), inbox))
          == wire + Packets(next) + ReadingPackets(Ran(next), inbox);
    }

    /** Say hello and read until the login succeeds; n packets of the inbox are read. */
    method Login(inbox: seq<Packet>) returns (ok: bool, n: nat)
      requires state == Handshaking && !failed && todo == Hellos(k)
      modifies this
      ensures n <= |inbox| && End(inbox[n..]) == old(End(inbox))
      ensures if ok then !failed && state == Configuration && todo == ACKNOWLEDGE[2..]
              else todo == [] && (failed || n == |inbox|)
    {
      hide Reading, ReadingPackets, Ran, Packets;
      n, ok := 0, false;
      assert inbox[0..] == inbox;
      SendPacket(HANDSHAKE, Hello(k.version, NEXT_LOGIN), inbox);
      Enter(LoginPhase, inbox);
      SendPacket(LOGIN_START, Name(k.name), inbox);
      while n < |inbox| && !failed
        invariant n <= |inbox| && state == LoginPhase && todo == [] && End(inbox[n..]) == old(End(inbox))
      {
        var pkt := inbox[n];
        assert inbox[n..] == [pkt] + inbox[n + 1..];
        n := n + 1;
        ok := ReadLogin(pkt, inbox[n..]);
        if ok {
          return;
        }
      }
    }

    /** One packet of the login phase; the first good one with the profile ends it. */
    method ReadLogin(pkt: Packet, ghost inbox: seq<Packet>) returns (done: bool)
      requires state == LoginPhase && !failed && todo == []
      modifies this
      ensures End(inbox) == old(End([pkt] + inbox))
      ensures if done then !failed && state == Configuration && todo == ACKNOWLEDGE[2..]
              else state == LoginPhase && todo == []
    {
      hide Reading, ReadingPackets, Ran, Packets;
      ReadStep(pkt, inbox);
      done := false;
      if pkt.threshold != compressionThreshold {
        failed := true;
      } else if pkt.id == SET_COMPRESSION && pkt.body.Number? {
        compressionThreshold := pkt.body.n;
      } else if pkt.id == LOGIN_SUCCESS && !pkt.body.Bad? {
        todo := ACKNOWLEDGE;
        SendPacket(LOGIN_ACKNOWLEDGED, Other, inbox);
        Enter(Configuration, inbox);
        done := true;
      } else {
        failed := true;
      }
    }

    /** The configuration phase, to the first finish packet. */
    method CompleteConfiguration(inbox: seq<Packet>)
      requires state == Configuration && !failed && todo == ACKNOWLEDGE[2..]
      modifies this
      ensures todo == [] && (View(), wire) == old(End(inbox))
    {
      hide Ran, Packets;
      var n := 0;
      assert inbox[0..] == inbox;
      SendPacket(CONFIG_CLIENT_INFORMATION, Other, inbox);
      SendPacket(CONFIG_CUSTOM_PAYLOAD, Other, inbox);
      while n < |inbox| && !failed && state != Play
        invariant n <= |inbox| && (state == Configuration || state == Play) && todo == []
        invariant End(inbox[n..]) == old(End(inbox))
      {
        var pkt := inbox[n];
        assert inbox[n..] == [pkt] + inbox[n + 1..];
        n := n + 1;
        ReadConfiguration(pkt, inbox[n..]);
      }
      Through(inbox[n..]);
    }

    /** A client that reads no more is where it ends. */
    lemma Through(inbox: seq<Packet>)
      requires todo == [] && (inbox == [] || failed || state == Play)
      ensures End(inbox) == (View(), wire)
    {
      assert wire + [] + [] == wire;
    }

    /** One packet of the configuration phase. */
    method ReadConfiguration(pkt: Packet, ghost inbox: seq<Packet>)
      requires state == Configuration && !failed && todo == []
      modifies this
      ensures (state == Configuration || state == Play) && todo == [] && End(inbox) == old(End([pkt] + inbox))
    {
      hide Reading, ReadingPackets, Ran, Packets;
      ReadStep(pkt, inbox);
      if pkt.threshold != compressionThreshold || (pkt.id in CLIENT_DECODED && pkt.body.Bad?) {
        failed := true;
      } else if pkt.id == CONFIG_KNOWN_PACKS_CB {
        todo := CHOOSE_PACKS;
        SendPacket(CONFIG_KNOWN_PACKS_SB, Other, inbox);
      } else if pkt.id == CONFIG_KEEP_ALIVE_CB {
        todo := [Send(CONFIG_KEEP_ALIVE_SB, pkt.body)];
        SendPacket(CONFIG_KEEP_ALIVE_SB, pkt.body, inbox);
      } else if pkt.id == CONFIG_PING {
        todo := [Send(CONFIG_PONG, pkt.body)];
        SendPacket(CONFIG_PONG, pkt.body, inbox);
      } else if pkt.id == CONFIG_FINISH_CB {
        todo := FINISH;
        SendPacket(CONFIG_FINISH_SB, Other, inbox);
        Enter(Play, inbox);
      } else if pkt.id == CONFIG_DISCONNECT {
        failed := true;
      }
    }

    /** The whole of the client's part. */
    method Join(inbox: seq<Packet>)
      requires state == Handshaking && !failed && todo == Hellos(k)
      modifies this
      ensures todo == [] && (View(), wire) == old(End(inbox))
    {
      var ok, n := Login(inbox);
      if ok {
        CompleteConfiguration(inbox[n..]);
      } else {
        Through(inbox[n..]);
      }
    }
  }

  // ---- The conversation

  /** The client's packets from the i-th on. */
  function FromClient(k: Config, i: nat): seq<Packet>
    requires i <= CLIENT_PACKETS
  {
    seq(CLIENT_PACKETS - i, j requires 0 <= j < CLIENT_PACKETS - i => ClientPacket(k, i + j))
  }

  function FromServer(k: Config, i: nat, to: nat): seq<Packet>
    requires i <= to <= ServerPackets(k)
  {
    seq(to - i, j requires 0 <= j < to - i => ServerPacket(k, i + j))
  }

  lemma FromServerJoin(k: Config, i: nat, m: nat, to: nat)
    requires i <= m <= to <= ServerPackets(k)
    ensures FromServer(k, i, m) + FromServer(k, m, to) == FromServer(k, i, to)
  {
  }

  lemma {:induction false} ServerRuns(k: Config, read: nat, acts: nat)
    requires read <= CLIENT_PACKETS && acts <= |ServerTodo(k, read)|
    ensures var all := |ServerTodo(k, read)|;
            && RanServer(ServerAt(k, read, acts)) == ServerAt(k, read, all)
            && ServerSent(k, read, acts) <= ServerSent(k, read, all) <= ServerPackets(k)
            && Packets(ServerAt(k, read, acts).side)
               == FromServer(k, ServerSent(k, read, acts), ServerSent(k, read, all))
    decreases |ServerTodo(k, read)| - acts
  {
    hide ServerAt, ServerSent, ServerTodo, ServerPacket;
    ServerTodoLeft(k, read, acts);
    ServerSentBound(k, read, acts);
    if acts < |ServerTodo(k, read)| {
      ServerActs(k, read, acts);
      ServerSends(k, read, acts);
      ServerRuns(k, read, acts + 1);
      var n, m := ServerSent(k, read, acts), ServerSent(k, read, acts + 1);
      var to := ServerSent(k, read, |ServerTodo(k, read)|);
      assert Sent(ServerAt(k, read, acts).side) == FromServer(k, n, m);
      FromServerJoin(k, n, m, to);
    }
  }

  lemma ServerSentBound(k: Config, read: nat, acts: nat)
    requires read <= CLIENT_PACKETS && acts <= |ServerTodo(k, read)|
    ensures ServerSent(k, read, acts) <= ServerPackets(k)
  {
  }

  lemma {:induction false} ServesFrom(k: Config, read: nat)
    requires Welcome(k) && read <= CLIENT_PACKETS
    ensures var v, n := ServerAt(k, read, |ServerTodo(k, read)|), ServerSent(k, read, |ServerTodo(k, read)|);
            && n <= ServerPackets(k)
            && Serving(k, v, FromClient(k, read)) == ServerAt(k, CLIENT_PACKETS, 0)
            && ServingPackets(k, v, FromClient(k, read)) == FromServer(k, n, ServerPackets(k))
    decreases CLIENT_PACKETS - read
  {
    hide ServerAt, ServerSent, ServerTodo, ServerPacket, ClientPacket, ServerRead, RanServer, Packets;
    var all := |ServerTodo(k, read)|;
    ServerRuns(k, read, 0);
    ServerTodoLeft(k, read, all);
    ServerNotFailed(k, read, all);
    ServerSentFull(k, read);
    if read < CLIENT_PACKETS {
      ServerTurn(k, read);
      ServerRuns(k, read + 1, 0);
      ServesFrom(k, read + 1);
      assert FromClient(k, read)[1..] == FromClient(k, read + 1);
      FromServerJoin(k, ServerSent(k, read, all), ServerSent(k, read + 1, |ServerTodo(k, read + 1)|), ServerPackets(k));
    }
  }

  /** Given the client's packets the server writes exactly the ones the client expects, and plays. */
  lemma ServerConversation(k: Config)
    requires Welcome(k)
    ensures var v := Serving(k, Initial(k).server, FromClient(k, 0));
            v.side.phase == Play && !v.side.failed && v.profile == k.name && v.side.threshold == Agreed(k)
    ensures ServingPackets(k, Initial(k).server, FromClient(k, 0)) == FromServer(k, 0, ServerPackets(k))
  {
    ServesFrom(k, 0);
  }

  lemma {:induction false} ClientRuns(k: Config, read: nat, acts: nat)
    requires read <= ServerPackets(k) && acts <= |ClientTodo(k, read)|
    ensures var all := |ClientTodo(k, read)|;
            && Ran(ClientAt(k, read, acts)) == ClientAt(k, read, all)
            && ClientSent(k, read, acts) <= ClientSent(k, read, all) <= CLIENT_PACKETS
            && Packets(ClientAt(k, read, acts)) + FromClient(k, ClientSent(k, read, all))
               == FromClient(k, ClientSent(k, read, acts))
    decreases |ClientTodo(k, read)| - acts
  {
    hide ClientAt, ClientSent, ClientTodo, ClientPacket, FromClient, Done, Sent;
    ClientTodoLeft(k, read, acts);
    ClientSentBound(k, read, acts);
    if acts < |ClientTodo(k, read)| {
      ClientActs(k, read, acts);
      ClientSends(k, read, acts);
      ClientRuns(k, read, acts + 1);
      var n, m := ClientSent(k, read, acts), ClientSent(k, read, acts + 1);
      var sent, later := Sent(ClientAt(k, read, acts)), Packets(ClientAt(k, read, acts + 1));
      FromClientStep(k, sent, n, m);
      assert sent + later + FromClient(k, ClientSent(k, read, |ClientTodo(k, read)|))
          == sent + (later + FromClient(k, ClientSent(k, read, |ClientTodo(k, read)|)));
    }
  }

  lemma FromClientStep(k: Config, sent: seq<Packet>, n: nat, m: nat)
    requires n + |sent| == m <= CLIENT_PACKETS && (sent != [] ==> sent == [ClientPacket(k, n)])
    ensures sent + FromClient(k, m) == FromClient(k, n)
  {
    hide ClientPacket;
  }

  lemma ClientSentBound(k: Config, read: nat, acts: nat)
    requires read <= ServerPackets(k) && acts <= |ClientTodo(k, read)|
    ensures ClientSent(k, read, acts) <= CLIENT_PACKETS
  {
  }

  lemma {:induction false} ReadsFrom(k: Config, read: nat)
    requires read <= ServerPackets(k)
    ensures var c, n := ClientAt(k, read, |ClientTodo(k, read)|), ClientSent(k, read, |ClientTodo(k, read)|);
            && n <= CLIENT_PACKETS
            && Reading(c, FromServer(k, read, ServerPackets(k))) == ClientAt(k, ServerPackets(k), 2)
            && ReadingPackets(c, FromServer(k, read, ServerPackets(k))) == FromClient(k, n)
    decreases ServerPackets(k) - read
  {
    hide ClientAt, ClientSent, ClientTodo, ServerPacket, ClientPacket, ClientRead, Ran, Packets;
    var all := |ClientTodo(k, read)|;
    ClientRuns(k, read, all);
    ClientTodoLeft(k, read, all);
    ClientNotFailed(k, read, all);
    ClientSentFull(k, read);
    if read < ServerPackets(k) {
      ClientTurn(k, read);
      ClientRuns(k, read + 1, 0);
      ReadsFrom(k, read + 1);
      assert FromServer(k, read, ServerPackets(k))[1..] == FromServer(k, read + 1, ServerPackets(k));
    }
  }

  /** Given the server's packets the client writes exactly the ones the server expects, and plays. */
  lemma ClientConversation(k: Config)
    ensures var c := Reading(Ran(Initial(k).client), FromServer(k, 0, ServerPackets(k)));
            c.phase == Play && !c.failed && c.threshold == Agreed(k)
    ensures Packets(Initial(k).client) + ReadingPackets(Ran(Initial(k).client), FromServer(k, 0, ServerPackets(k)))
            == FromClient(k, 0)
  {
    ClientRuns(k, 0, 0);
    ReadsFrom(k, 0);
  }

  /** One question of the status phase is answered with one packet. */
  lemma StatusReply(k: Config, v: Server, p: Packet)
    requires v.side == Side(Status, -1, [], false) && p.threshold == -1 && (p.id == 0 || (p.id == 1 && p.body.Number?))
    ensures var next := ServerRead(k, v, p);
            && Packets(next.side) == [Packet(p.id, if p.id == 0 then Other else p.body, -1, Status)]
            && RanServer(next) == v
  {
    var next := ServerRead(k, v, p);
    assert next.side.todo[1..] == [];
    assert Done(next.side).todo == [] && Packets(Done(next.side)) == [];
    assert RanServer(Acted(next)) == Acted(next) == v;
  }

  /** A client that asks for the status, whatever its version, gets the status and then its ping back, and
      nothing else; any other packet ends the connection. */
  lemma StatusConversation(k: Config, version: int, n: int, more: Packet)
    requires more.id != 0 && more.id != 1
    ensures var inbox := [Packet(0, Hello(version, 1), -1, Handshaking), Packet(0, Other, -1, Status),
                          Packet(1, Number(n), -1, Status), more];
            && ServingPackets(k, Initial(k).server, inbox)
               == [Packet(0, Other, -1, Status), Packet(1, Number(n), -1, Status)]
            && Serving(k, Initial(k).server, inbox).side == Side(Status, -1, [], true)
  {
    var hello, ask, ping := Packet(0, Hello(version, 1), -1, Handshaking), Packet(0, Other, -1, Status),
                            Packet(1, Number(n), -1, Status);
    var v0 := Initial(k).server;
    var v1 := ServerRead(k, v0, hello);
    var v2 := ServerRead(k, v1, more);
    assert v1.side == Side(Status, -1, [], false) && RanServer(v1) == v1 && Packets(v1.side) == [];
    assert v2.side == Side(Status, -1, [], true) && RanServer(v2) == v2 && Packets(v2.side) == [];
    StatusReply(k, v1, ask);
    StatusReply(k, v1, ping);
    hide ServerRead, RanServer, Packets;
    ServeDone(k, v2, [], []);
    ServeNext(k, v1, [], [more]);
    ServeNext(k, v1, [], [ping, more]);
    ServeNext(k, v1, [], [ask, ping, more]);
    ServeNext(k, v0, [], [hello, ask, ping, more]);
    assert [more][1..] == [] && [ping, more][1..] == [more] && [ask, ping, more][1..] == [ping, more];
    assert [hello, ask, ping, more][1..] == [ask, ping, more];
  }
}
