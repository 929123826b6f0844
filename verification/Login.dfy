/** Offline login, from the first byte to the play phase, between the server's handlers
    (internal/network/handler.go, login.go, configuration.go) and the test client
    (internal/e2e/client.go), over two FIFO links. A handler's sends are steps of their own, so the
    peer may read the first before the last is sent. */
module Login {
  datatype Phase = Handshaking | Status | LoginPhase | Configuration | Play
  datatype LoginStep = Start | WaitKey | Ready

  const PROTOCOL := 775
  const NEXT_STATUS := 1
  const NEXT_LOGIN := 2
  const NEXT_TRANSFER := 3

  // Packet ids. The same number means different packets in different phases and directions.
  const HANDSHAKE := 0x00
  const STATUS_REQUEST := 0x00
  const STATUS_RESPONSE := 0x00
  const PING_REQUEST := 0x01
  const PONG_RESPONSE := 0x01
  const LOGIN_START := 0x00
  const LOGIN_ACKNOWLEDGED := 0x03
  const CONFIG_CLIENT_INFORMATION := 0x00
  const CONFIG_CUSTOM_PAYLOAD := 0x02
  const CONFIG_FINISH_SB := 0x03
  const CONFIG_KEEP_ALIVE_SB := 0x04
  const CONFIG_PONG := 0x05
  const CONFIG_KNOWN_PACKS_SB := 0x07
  const LOGIN_SUCCESS := 0x02
  const SET_COMPRESSION := 0x03
  const CONFIG_CUSTOM_PAYLOAD_CB := 0x01
  const CONFIG_DISCONNECT := 0x02
  const CONFIG_FINISH_CB := 0x03
  const CONFIG_KEEP_ALIVE_CB := 0x04
  const CONFIG_PING := 0x05
  const CONFIG_REGISTRY_DATA := 0x07
  const CONFIG_FEATURES := 0x0c
  const CONFIG_TAGS := 0x0d
  const CONFIG_KNOWN_PACKS_CB := 0x0e

  /** The parts of packet bodies that decide anything. A bad body is one its reader cannot decode. */
  datatype Body = Hello(version: int, next: int) | Name(name: string) | Number(n: int) | Other | Bad

  /** A packet on a link, with the threshold it was framed under and its writer's phase. */
  datatype Packet = Packet(id: int, body: Body, threshold: int, phase: Phase)

  datatype Act = Send(id: int, body: Body) | Compress(threshold: int) | SetReady | Enter(phase: Phase)

  /** One side: what it knows, what its current handler still has to do, whether it gave up. */
  datatype Side = Side(phase: Phase, threshold: int, todo: seq<Act>, failed: bool)

  datatype Server = Server(side: Side, step: LoginStep, version: int, profile: string)

  /** The choices of one login: the client's name and version, the server's threshold (negative: none) and
      how many registries it synchronises. */
  datatype Config = Config(name: string, version: int, threshold: int, registries: nat)

  datatype State = State(client: Side, server: Server, toServer: seq<Packet>, toClient: seq<Packet>)

  predicate NameChar(c: char) { c == '_' || '0' <= c <= '9' || 'A' <= c <= 'Z' || 'a' <= c <= 'z' }

  predicate ValidPlayerName(name: string) {
    1 <= |name| <= 16 && forall i :: 0 <= i < |name| ==> NameChar(name[i])
  }

  predicate Welcome(k: Config) { k.version == PROTOCOL && ValidPlayerName(k.name) }

  // ---- The server's handlers

  function FinishLogin(k: Config, name: string): seq<Act> {
    (if k.threshold >= 0 then [Send(SET_COMPRESSION, Number(k.threshold)), Compress(k.threshold)] else [])
    + [SetReady, Send(LOGIN_SUCCESS, Name(name))]
  }

  const OPENING: seq<Act> := [
    Send(CONFIG_CUSTOM_PAYLOAD_CB, Other), Send(CONFIG_FEATURES, Other), Send(CONFIG_KNOWN_PACKS_CB, Other)]

  function Registries(n: nat): (r: seq<Act>)
    ensures |r| == n + 2
    ensures forall i :: 0 <= i < n ==> r[i] == Send(CONFIG_REGISTRY_DATA, Other)
    ensures r[n] == Send(CONFIG_TAGS, Other) && r[n + 1] == Send(CONFIG_FINISH_CB, Other)
  {
    seq(n, i => Send(CONFIG_REGISTRY_DATA, Other)) + [Send(CONFIG_TAGS, Other), Send(CONFIG_FINISH_CB, Other)]
  }

  function Reject(v: Server): Server { v.(side := v.side.(failed := true)) }
  function Do(v: Server, todo: seq<Act>): Server { v.(side := v.side.(todo := todo)) }

  function HandleHandshake(v: Server, p: Packet): Server {
    if p.id != HANDSHAKE || !p.body.Hello? then Reject(v)
    else
      var v1 := v.(version := p.body.version);
      if p.body.next == NEXT_STATUS then v1.(side := v1.side.(phase := Status))
      else if p.body.next == NEXT_LOGIN || p.body.next == NEXT_TRANSFER then v1.(side := v1.side.(phase := LoginPhase))
      else Reject(v1)
  }

  function HandleLoginStart(k: Config, v: Server, p: Packet): Server {
    if v.step != Start then Reject(v)
    else if v.version != PROTOCOL then Reject(v)
    else if !p.body.Name? || !ValidPlayerName(p.body.name) then Reject(v)
    else Do(v.(profile := p.body.name), FinishLogin(k, p.body.name))
  }

  function HandleLogin(k: Config, v: Server, p: Packet): Server {
    if p.id == LOGIN_START then HandleLoginStart(k, v, p)
    else if p.id == LOGIN_ACKNOWLEDGED then
      if v.step != Ready then Reject(v)
      else Do(v.(side := v.side.(phase := Configuration)), OPENING)
    else Reject(v)
  }

  function HandleStatus(v: Server, p: Packet): Server {
    if p.id == STATUS_REQUEST then Do(v, [Send(STATUS_RESPONSE, Other)])
    else if p.id == PING_REQUEST && p.body.Number? then Do(v, [Send(PONG_RESPONSE, p.body)])
    else Reject(v)
  }

  /** The ids whose bodies the server decodes in the configuration phase. */
  const DECODED := {CONFIG_CLIENT_INFORMATION, CONFIG_CUSTOM_PAYLOAD, CONFIG_KNOWN_PACKS_SB}

  function HandleConfiguration(k: Config, v: Server, p: Packet): Server {
    if p.id in DECODED && p.body.Bad? then Reject(v)
    else if p.id == CONFIG_KNOWN_PACKS_SB then Do(v, Registries(k.registries))
    else if p.id == CONFIG_FINISH_SB then v.(side := v.side.(phase := Play))
    else v
  }

  /** A packet framed under another threshold cannot be read. */
  function ServerRead(k: Config, v: Server, p: Packet): Server {
    if p.threshold != v.side.threshold then Reject(v)
    else
      match v.side.phase
      case Handshaking => HandleHandshake(v, p)
      case Status => HandleStatus(v, p)
      case LoginPhase => HandleLogin(k, v, p)
      case Configuration => HandleConfiguration(k, v, p)
      case _ => Reject(v)
  }

  // ---- The client

  function Hellos(k: Config): seq<Act> {
    [Send(HANDSHAKE, Hello(k.version, NEXT_LOGIN)), Enter(LoginPhase), Send(LOGIN_START, Name(k.name))]
  }

  const ACKNOWLEDGE: seq<Act> := [
    Send(LOGIN_ACKNOWLEDGED, Other), Enter(Configuration),
    Send(CONFIG_CLIENT_INFORMATION, Other), Send(CONFIG_CUSTOM_PAYLOAD, Other)]

  const CHOOSE_PACKS: seq<Act> := [Send(CONFIG_KNOWN_PACKS_SB, Other)]
  const FINISH: seq<Act> := [Send(CONFIG_FINISH_SB, Other), Enter(Play)]

  function ClientLoginRead(c: Side, p: Packet): Side {
    if p.id == SET_COMPRESSION then
      if p.body.Number? then c.(threshold := p.body.n) else c.(failed := true)
    else if p.id == LOGIN_SUCCESS && !p.body.Bad? then c.(todo := ACKNOWLEDGE)
    else c.(failed := true)
  }

  /** The ids whose bodies the client decodes in the configuration phase. */
  const CLIENT_DECODED := {
    CONFIG_CUSTOM_PAYLOAD_CB, CONFIG_FEATURES, CONFIG_KNOWN_PACKS_CB, CONFIG_KEEP_ALIVE_CB, CONFIG_PING}

  function ClientConfigurationRead(c: Side, p: Packet): Side {
    if p.id in CLIENT_DECODED && p.body.Bad? then c.(failed := true)
    else if p.id == CONFIG_KNOWN_PACKS_CB then c.(todo := CHOOSE_PACKS)
    else if p.id == CONFIG_KEEP_ALIVE_CB then c.(todo := [Send(CONFIG_KEEP_ALIVE_SB, p.body)])
    else if p.id == CONFIG_PING then c.(todo := [Send(CONFIG_PONG, p.body)])
    else if p.id == CONFIG_FINISH_CB then c.(todo := FINISH)
    else if p.id == CONFIG_DISCONNECT then c.(failed := true)
    else c
  }

  function ClientRead(c: Side, p: Packet): Side {
    if p.threshold != c.threshold then c.(failed := true)
    else
      match c.phase
      case LoginPhase => ClientLoginRead(c, p)
      case Configuration => ClientConfigurationRead(c, p)
      case _ => c.(failed := true)
  }

  // ---- Steps

  datatype Step = ClientDoes | ClientReads | ServerDoes | ServerReads

  predicate CanDo(s: Side) { !s.failed && s.todo != [] }
  predicate CanRead(s: Side, link: seq<Packet>) { !s.failed && s.todo == [] && s.phase != Play && link != [] }

  predicate Enabled(s: State, step: Step) {
    match step
    case ClientDoes => CanDo(s.client)
    case ClientReads => CanRead(s.client, s.toClient)
    case ServerDoes => CanDo(s.server.side)
    case ServerReads => CanRead(s.server.side, s.toServer)
  }

  /** One act of a side, and the packet it puts on its link if any. */
  function Done(s: Side): Side
    requires s.todo != []
  {
    var rest := s.(todo := s.todo[1..]);
    match s.todo[0]
    case Compress(t) => rest.(threshold := t)
    case Enter(phase) => rest.(phase := phase)
    case _ => rest
  }

  function Sent(s: Side): seq<Packet>
    requires s.todo != []
  {
    if s.todo[0].Send? then [Packet(s.todo[0].id, s.todo[0].body, s.threshold, s.phase)] else []
  }

  function Next(k: Config, s: State, step: Step): State
    requires Enabled(s, step)
  {
    match step
    case ClientDoes => s.(client := Done(s.client), toServer := s.toServer + Sent(s.client))
    case ClientReads => s.(client := ClientRead(s.client, s.toClient[0]), toClient := s.toClient[1..])
    case ServerDoes =>
      var v := s.server;
      s.(server := v.(side := Done(v.side), step := if v.side.todo[0].SetReady? then Ready else v.step),
         toClient := s.toClient + Sent(v.side))
    case ServerReads => s.(server := ServerRead(k, s.server, s.toServer[0]), toServer := s.toServer[1..])
  }

  function Initial(k: Config): State {
    State(Side(Handshaking, -1, Hellos(k), false),
          Server(Side(Handshaking, -1, [], false), Start, 0, ""), [], [])
  }

  ghost predicate IsRun(k: Config, s: State, run: seq<Step>)
    decreases |run|
  {
    run == [] || (Enabled(s, run[0]) && IsRun(k, Next(k, s, run[0]), run[1..]))
  }

  ghost function After(k: Config, s: State, run: seq<Step>): State
    requires IsRun(k, s, run)
    decreases |run|
  {
    if run == [] then s else After(k, Next(k, s, run[0]), run[1..])
  }

  // ---- The whole conversation, and where each side stands in it

  /** Both sides' threshold once compression is settled. */
  function Agreed(k: Config): int { if k.threshold >= 0 then k.threshold else -1 }
  function C(k: Config): nat { if k.threshold >= 0 then 1 else 0 }

  const CLIENT_PACKETS := 7

  function ClientPacket(k: Config, i: nat): Packet
    requires i < CLIENT_PACKETS
  {
    var t := Agreed(k);
    if i == 0 then Packet(HANDSHAKE, Hello(k.version, NEXT_LOGIN), -1, Handshaking)
    else if i == 1 then Packet(LOGIN_START, Name(k.name), -1, LoginPhase)
    else if i == 2 then Packet(LOGIN_ACKNOWLEDGED, Other, t, LoginPhase)
    else if i == 3 then Packet(CONFIG_CLIENT_INFORMATION, Other, t, Configuration)
    else if i == 4 then Packet(CONFIG_CUSTOM_PAYLOAD, Other, t, Configuration)
    else if i == 5 then Packet(CONFIG_KNOWN_PACKS_SB, Other, t, Configuration)
    else Packet(CONFIG_FINISH_SB, Other, t, Configuration)
  }

  function ServerPackets(k: Config): nat { C(k) + k.registries + 6 }

  function ServerPacket(k: Config, i: nat): Packet
    requires i < ServerPackets(k)
  {
    var t, c := Agreed(k), C(k);
    if i < c then Packet(SET_COMPRESSION, Number(k.threshold), -1, LoginPhase)
    else if i == c then Packet(LOGIN_SUCCESS, Name(k.name), t, LoginPhase)
    else if i == c + 1 then Packet(CONFIG_CUSTOM_PAYLOAD_CB, Other, t, Configuration)
    else if i == c + 2 then Packet(CONFIG_FEATURES, Other, t, Configuration)
    else if i == c + 3 then Packet(CONFIG_KNOWN_PACKS_CB, Other, t, Configuration)
    else if i < c + 4 + k.registries then Packet(CONFIG_REGISTRY_DATA, Other, t, Configuration)
    else if i == c + 4 + k.registries then Packet(CONFIG_TAGS, Other, t, Configuration)
    else Packet(CONFIG_FINISH_CB, Other, t, Configuration)
  }

  /** Packets read by the server and acts done of the handler of the last one; the same of the client. */
  datatype Place = Place(read: nat, acts: nat, clientRead: nat, clientActs: nat)

  function ServerTodo(k: Config, read: nat): seq<Act> {
    if read == 2 then FinishLogin(k, k.name)
    else if read == 3 then OPENING
    else if read == 6 then Registries(k.registries)
    else []
  }

  function ClientTodo(k: Config, read: nat): seq<Act> {
    if read == 0 then Hellos(k)
    else if read == C(k) + 1 then ACKNOWLEDGE
    else if read == C(k) + 4 then CHOOSE_PACKS
    else if read == ServerPackets(k) then FINISH
    else []
  }

  function ServerSent(k: Config, read: nat, acts: nat): nat {
    var c := C(k);
    if read < 2 then 0
    else if read == 2 then
      if acts == 0 then 0 else if acts < 2 * c + 2 then c else c + 1
    else if read == 3 then c + 1 + acts
    else if read < 6 then c + 4
    else if read == 6 then c + 4 + acts
    else ServerPackets(k)
  }

  function ClientSent(k: Config, read: nat, acts: nat): nat {
    var c := C(k);
    if read == 0 then (if acts == 0 then 0 else if acts < 3 then 1 else 2)
    else if read < c + 1 then 2
    else if read == c + 1 then (if acts == 0 then 2 else if acts < 3 then 3 else 1 + acts)
    else if read < c + 4 then 5
    else if read == c + 4 then 5 + acts
    else if read < ServerPackets(k) then 6
    else if acts == 0 then 6 else 7
  }

  function ServerAt(k: Config, read: nat, acts: nat): Server
    requires acts <= |ServerTodo(k, read)|
  {
    var compressed := read > 2 || (read == 2 && acts >= 2 * C(k));
    var phase := if read == 0 then Handshaking else if read < 3 then LoginPhase
                 else if read < CLIENT_PACKETS then Configuration else Play;
    Server(Side(phase, if compressed then Agreed(k) else -1, ServerTodo(k, read)[acts..], false),
           if read > 2 || (read == 2 && acts >= 2 * C(k) + 1) then Ready else Start,
           if read > 0 then k.version else 0,
           if read > 1 then k.name else "")
  }

  function ClientAt(k: Config, read: nat, acts: nat): Side
    requires acts <= |ClientTodo(k, read)|
  {
    var c := C(k);
    var phase := if read == 0 && acts < 2 then Handshaking
                 else if read < c + 1 || (read == c + 1 && acts < 2) then LoginPhase
                 else if read == ServerPackets(k) && acts == 2 then Play
                 else Configuration;
    Side(phase, if read >= c then Agreed(k) else -1, ClientTodo(k, read)[acts..], false)
  }

  ghost predicate Link(k: Config, link: seq<Packet>, from: nat, to: nat, server: bool) {
    && from <= to <= (if server then ServerPackets(k) else CLIENT_PACKETS)
    && |link| == to - from
    && forall i :: 0 <= i < |link| ==>
         link[i] == if server then ServerPacket(k, from + i) else ClientPacket(k, from + i)
  }

  ghost predicate Stands(k: Config, s: State, at: Place) {
    && at.read <= CLIENT_PACKETS && at.acts <= |ServerTodo(k, at.read)|
    && at.clientRead <= ServerPackets(k) && at.clientActs <= |ClientTodo(k, at.clientRead)|
    && s.server == ServerAt(k, at.read, at.acts)
    && s.client == ClientAt(k, at.clientRead, at.clientActs)
    && Link(k, s.toServer, at.read, ClientSent(k, at.clientRead, at.clientActs), false)
    && Link(k, s.toClient, at.clientRead, ServerSent(k, at.read, at.acts), true)
  }

  /** How many steps lead there. */
  function Steps(k: Config, at: Place): nat {
    var c := C(k);
    at.read + at.acts + at.clientRead + at.clientActs
    + (if at.read > 2 then 2 * c + 2 else 0) + (if at.read > 3 then 3 else 0)
    + (if at.read > 6 then k.registries + 2 else 0)
    + (if at.clientRead > 0 then 3 else 0) + (if at.clientRead > c + 1 then 4 else 0)
    + (if at.clientRead > c + 4 then 1 else 0)
  }

  /** The steps of a whole login. */
  function Total(k: Config): nat { 3 * C(k) + 2 * k.registries + 30 }

  lemma InitialStands(k: Config)
    ensures Stands(k, Initial(k), Place(0, 0, 0, 0))
  {
  }

  // Each side on its own: what a packet read, or an act done, makes of it.

  lemma ServerTurn(k: Config, read: nat)
    requires Welcome(k) && read < CLIENT_PACKETS
    ensures var acts := |ServerTodo(k, read)|;
            var v, p := ServerAt(k, read, acts), ClientPacket(k, read);
            && p.threshold == v.side.threshold && p.phase == v.side.phase
            && ServerRead(k, v, p) == ServerAt(k, read + 1, 0)
            && ServerSent(k, read, acts) == ServerSent(k, read + 1, 0)
  {
  }

  lemma ClientTurn(k: Config, read: nat)
    requires read < ServerPackets(k) && ClientAt(k, read, |ClientTodo(k, read)|).phase != Handshaking
    ensures var acts := |ClientTodo(k, read)|;
            var c, p := ClientAt(k, read, acts), ServerPacket(k, read);
            && p.threshold == c.threshold && p.phase == c.phase
            && ClientRead(c, p) == ClientAt(k, read + 1, 0)
            && ClientSent(k, read, acts) == ClientSent(k, read + 1, 0)
  {
  }

  lemma ClientActs(k: Config, read: nat, acts: nat)
    requires read <= ServerPackets(k) && acts < |ClientTodo(k, read)|
    ensures var c := ClientAt(k, read, acts);
            c.todo != [] && ClientAt(k, read, acts + 1) == Done(c)
  {
  }

  lemma ClientSends(k: Config, read: nat, acts: nat)
    requires read <= ServerPackets(k) && acts < |ClientTodo(k, read)|
    ensures var c, n := ClientAt(k, read, acts), ClientSent(k, read, acts);
            && c.todo != [] && n + |Sent(c)| == ClientSent(k, read, acts + 1) <= CLIENT_PACKETS
            && (Sent(c) != [] ==> Sent(c) == [ClientPacket(k, n)])
  {
  }

  /** One act of the server: where it stands next and what it sent. */
  lemma ServerActs(k: Config, read: nat, acts: nat)
    requires read <= CLIENT_PACKETS && acts < |ServerTodo(k, read)|
    ensures var v := ServerAt(k, read, acts);
            && v.side.todo != []
            && ServerAt(k, read, acts + 1)
            == v.(side := Done(v.side), step := if v.side.todo[0].SetReady? then Ready else v.step)
  {
  }

  lemma ServerSends(k: Config, read: nat, acts: nat)
    requires read <= CLIENT_PACKETS && acts < |ServerTodo(k, read)|
    ensures var v, n := ServerAt(k, read, acts), ServerSent(k, read, acts);
            && v.side.todo != [] && n + |Sent(v.side)| == ServerSent(k, read, acts + 1) <= ServerPackets(k)
            && (Sent(v.side) != [] ==> Sent(v.side) == [ServerPacket(k, n)])
  {
  }

  lemma ServerTodoLeft(k: Config, read: nat, acts: nat)
    requires acts <= |ServerTodo(k, read)|
    ensures ServerAt(k, read, acts).side.todo != [] <==> acts < |ServerTodo(k, read)|
    ensures ServerAt(k, read, acts).side.phase == Play <==> read >= CLIENT_PACKETS
  {
  }

  lemma ClientTodoLeft(k: Config, read: nat, acts: nat)
    requires acts <= |ClientTodo(k, read)|
    ensures ClientAt(k, read, acts).todo != [] <==> acts < |ClientTodo(k, read)|
    ensures read <= ServerPackets(k) && acts == |ClientTodo(k, read)| ==>
              (ClientAt(k, read, acts).phase == Play <==> read == ServerPackets(k))
    ensures acts == |ClientTodo(k, read)| ==> ClientAt(k, read, acts).phase != Handshaking
  {
  }

  // Both together.

  lemma StandsServerReads(k: Config, s: State, at: Place)
    requires Welcome(k) && Stands(k, s, at) && Enabled(s, ServerReads)
    ensures Stands(k, Next(k, s, ServerReads), Place(at.read + 1, 0, at.clientRead, at.clientActs))
    ensures at.acts == |ServerTodo(k, at.read)|
  {
    hide ServerAt, ClientAt, ServerSent, ClientSent, ServerTodo, ClientTodo, ServerPacket, ClientPacket, ServerRead;
    ServerTodoLeft(k, at.read, at.acts);
    ServerTurn(k, at.read);
  }

  lemma StandsServerDoes(k: Config, s: State, at: Place)
    requires Stands(k, s, at) && Enabled(s, ServerDoes)
    ensures Stands(k, Next(k, s, ServerDoes), at.(acts := at.acts + 1))
  {
    hide ServerAt, ClientAt, ServerSent, ClientSent, ServerTodo, ClientTodo, ServerPacket, ClientPacket, Done, Sent;
    ServerTodoLeft(k, at.read, at.acts);
    ServerActs(k, at.read, at.acts);
    ServerSends(k, at.read, at.acts);
  }

  lemma StandsClientReads(k: Config, s: State, at: Place)
    requires Stands(k, s, at) && Enabled(s, ClientReads)
    ensures Stands(k, Next(k, s, ClientReads), Place(at.read, at.acts, at.clientRead + 1, 0))
    ensures at.clientActs == |ClientTodo(k, at.clientRead)|
  {
    hide ServerAt, ClientAt, ServerSent, ClientSent, ServerTodo, ClientTodo, ServerPacket, ClientPacket, ClientRead;
    ClientTodoLeft(k, at.clientRead, at.clientActs);
    ClientTurn(k, at.clientRead);
  }

  lemma StandsClientDoes(k: Config, s: State, at: Place)
    requires Stands(k, s, at) && Enabled(s, ClientDoes)
    ensures Stands(k, Next(k, s, ClientDoes), at.(clientActs := at.clientActs + 1))
  {
    hide ServerAt, ClientAt, ServerSent, ClientSent, ServerTodo, ClientTodo, ServerPacket, ClientPacket, Done, Sent;
    ClientTodoLeft(k, at.clientRead, at.clientActs);
    ClientActs(k, at.clientRead, at.clientActs);
    ClientSends(k, at.clientRead, at.clientActs);
  }

  // ---- Every interleaving

  function Moved(at: Place, step: Step): Place {
    match step
    case ServerReads => Place(at.read + 1, 0, at.clientRead, at.clientActs)
    case ServerDoes => at.(acts := at.acts + 1)
    case ClientReads => Place(at.read, at.acts, at.clientRead + 1, 0)
    case ClientDoes => at.(clientActs := at.clientActs + 1)
  }

  lemma StandsNext(k: Config, s: State, at: Place, step: Step)
    requires Welcome(k) && Stands(k, s, at) && Enabled(s, step)
    ensures Stands(k, Next(k, s, step), Moved(at, step))
    ensures Steps(k, Moved(at, step)) == Steps(k, at) + 1
  {
    hide ServerAt, ClientAt, ServerSent, ClientSent, ServerTodo, ClientTodo, Next, Steps;
    ServerTodoLeft(k, at.read, at.acts);
    ClientTodoLeft(k, at.clientRead, at.clientActs);
    match step {
      case ServerReads => StandsServerReads(k, s, at);
      case ServerDoes => StandsServerDoes(k, s, at);
      case ClientReads => StandsClientReads(k, s, at);
      case ClientDoes => StandsClientDoes(k, s, at);
    }
    StepsNext(k, at, step);
  }

  lemma StepsNext(k: Config, at: Place, step: Step)
    requires step.ServerReads? ==> at.acts == |ServerTodo(k, at.read)| && at.read < CLIENT_PACKETS
    requires step.ClientReads? ==> at.clientActs == |ClientTodo(k, at.clientRead)| && at.clientRead < ServerPackets(k)
    ensures Steps(k, Moved(at, step)) == Steps(k, at) + 1
  {
  }

  lemma {:induction false} RunStands(k: Config, s: State, at: Place, run: seq<Step>) returns (end: Place)
    requires Welcome(k) && Stands(k, s, at) && IsRun(k, s, run)
    ensures Stands(k, After(k, s, run), end) && Steps(k, end) == Steps(k, at) + |run|
    decreases |run|
  {
    if run == [] {
      end := at;
    } else {
      StandsNext(k, s, at, run[0]);
      end := RunStands(k, Next(k, s, run[0]), Moved(at, run[0]), run[1..]);
    }
  }

  ghost predicate BothPlay(s: State) {
    && s.client.phase == Play && s.server.side.phase == Play
    && s.client.todo == [] && s.server.side.todo == []
    && s.toServer == [] && s.toClient == []
  }

  /** Both have read everything and done everything. */
  function Last(k: Config): Place { Place(CLIENT_PACKETS, 0, ServerPackets(k), 2) }

  ghost predicate Within(k: Config, at: Place) {
    && at.read <= CLIENT_PACKETS && at.acts <= |ServerTodo(k, at.read)|
    && at.clientRead <= ServerPackets(k) && at.clientActs <= |ClientTodo(k, at.clientRead)|
  }

  lemma StepsBound(k: Config, at: Place)
    requires Within(k, at)
    ensures Steps(k, at) <= Total(k)
    ensures Steps(k, at) == Total(k) <==> at == Last(k)
  {
    ServerStepsBound(k, at.read, at.acts);
    ClientStepsBound(k, at.clientRead, at.clientActs);
  }

  lemma ServerStepsBound(k: Config, read: nat, acts: nat)
    requires read <= CLIENT_PACKETS && acts <= |ServerTodo(k, read)|
    ensures var n := read + acts + (if read > 2 then 2 * C(k) + 2 else 0) + (if read > 3 then 3 else 0)
                     + (if read > 6 then k.registries + 2 else 0);
            && n <= 14 + 2 * C(k) + k.registries
            && (n == 14 + 2 * C(k) + k.registries <==> read == CLIENT_PACKETS && acts == 0)
  {
  }

  lemma ClientStepsBound(k: Config, read: nat, acts: nat)
    requires read <= ServerPackets(k) && acts <= |ClientTodo(k, read)|
    ensures var n := read + acts + (if read > 0 then 3 else 0) + (if read > C(k) + 1 then 4 else 0)
                     + (if read > C(k) + 4 then 1 else 0);
            && n <= 16 + C(k) + k.registries
            && (n == 16 + C(k) + k.registries <==> read == ServerPackets(k) && acts == 2)
  {
  }

  /** Neither side can have read all that was sent to it, with nothing left to do, before the last place. */
  lemma SomethingSent(k: Config, read: nat, clientRead: nat)
    requires read <= CLIENT_PACKETS && clientRead <= ServerPackets(k)
    ensures (read == CLIENT_PACKETS && clientRead == ServerPackets(k))
            || ClientSent(k, clientRead, |ClientTodo(k, clientRead)|) > read
            || ServerSent(k, read, |ServerTodo(k, read)|) > clientRead
  {
    ClientSentFull(k, clientRead);
    ServerSentFull(k, read);
  }

  lemma ClientSentFull(k: Config, read: nat)
    requires read <= ServerPackets(k)
    ensures ClientSent(k, read, |ClientTodo(k, read)|) ==
              if read <= C(k) then 2 else if read < C(k) + 4 then 5 else if read < ServerPackets(k) then 6 else 7
  {
  }

  lemma ServerSentFull(k: Config, read: nat)
    requires read <= CLIENT_PACKETS
    ensures ServerSent(k, read, |ServerTodo(k, read)|) ==
              if read < 2 then 0 else if read == 2 then C(k) + 1 else if read < 6 then C(k) + 4 else ServerPackets(k)
  {
  }

  lemma ServerNotFailed(k: Config, read: nat, acts: nat)
    requires read <= CLIENT_PACKETS && acts <= |ServerTodo(k, read)|
    ensures !ServerAt(k, read, acts).side.failed
    ensures read == CLIENT_PACKETS ==> |ServerTodo(k, read)| == 0
  {
  }

  lemma ClientNotFailed(k: Config, read: nat, acts: nat)
    requires read <= ServerPackets(k) && acts <= |ClientTodo(k, read)|
    ensures !ClientAt(k, read, acts).failed
    ensures read == ServerPackets(k) ==> |ClientTodo(k, read)| == 2
  {
  }

  /** Short of the last place some side has something to do or to read. */
  lemma CanGoOn(k: Config, s: State, at: Place) returns (step: Step)
    requires Stands(k, s, at) && at != Last(k)
    ensures Enabled(s, step)
  {
    hide ServerAt, ClientAt, ServerSent, ClientSent, ServerTodo, ClientTodo, ServerPacket, ClientPacket;
    ServerTodoLeft(k, at.read, at.acts);
    ClientTodoLeft(k, at.clientRead, at.clientActs);
    ServerNotFailed(k, at.read, at.acts);
    ClientNotFailed(k, at.clientRead, at.clientActs);
    SomethingSent(k, at.read, at.clientRead);
    step := if at.clientActs < |ClientTodo(k, at.clientRead)| then ClientDoes
            else if at.acts < |ServerTodo(k, at.read)| then ServerDoes
            else if at.read < CLIENT_PACKETS && s.toServer != [] then ServerReads
            else ClientReads;
  }

  lemma LastIsPlay(k: Config, s: State, at: Place)
    requires Stands(k, s, at)
    ensures BothPlay(s) <==> at == Last(k)
  {
    hide ServerAt, ClientAt, ServerSent, ClientSent, ServerTodo, ClientTodo, ServerPacket, ClientPacket;
    ServerTodoLeft(k, at.read, at.acts);
    ClientTodoLeft(k, at.clientRead, at.clientActs);
    ServerNotFailed(k, at.read, at.acts);
    ClientNotFailed(k, at.clientRead, at.clientActs);
    ClientSentFull(k, ServerPackets(k));
    ServerSentFull(k, CLIENT_PACKETS);
  }

  /** A place is the last one, or some side can go on. */
  lemma EndOrOn(k: Config, s: State, at: Place)
    requires Stands(k, s, at)
    ensures Steps(k, at) <= Total(k)
    ensures BothPlay(s) <==> Steps(k, at) == Total(k)
    ensures BothPlay(s) || exists step :: Enabled(s, step)
  {
    hide Steps, Stands, BothPlay, Enabled;
    StandsWithin(k, s, at);
    StepsBound(k, at);
    LastIsPlay(k, s, at);
    if at != Last(k) { var step := CanGoOn(k, s, at); }
  }

  lemma StandsWithin(k: Config, s: State, at: Place)
    requires Stands(k, s, at)
    ensures Within(k, at)
  {
  }

  /** Every run with a valid name takes at most Total steps; one that has taken fewer can go on
      whatever it did so far; one that has taken them all has both sides in the play phase, with the
      same threshold and nothing left on the links. No side ever gives up. */
  lemma EveryRunReachesPlay(k: Config, run: seq<Step>)
    requires Welcome(k) && IsRun(k, Initial(k), run)
    ensures var s := After(k, Initial(k), run);
            && !s.client.failed && !s.server.side.failed
            && |run| <= Total(k)
            && (|run| < Total(k) ==> exists step :: Enabled(s, step))
            && (|run| == Total(k) ==> BothPlay(s))
            && (BothPlay(s) ==>
                  s.client.threshold == s.server.side.threshold == Agreed(k) && s.server.profile == k.name)
  {
    InitialStands(k);
    var at := RunStands(k, Initial(k), Place(0, 0, 0, 0), run);
    EndOrOn(k, After(k, Initial(k), run), at);
  }

  /** A packet about to be read was framed under the reader's threshold and written in the
      reader's phase. */
  lemma ReadAsWritten(k: Config, run: seq<Step>)
    requires Welcome(k) && IsRun(k, Initial(k), run)
    ensures var s := After(k, Initial(k), run);
            && (Enabled(s, ServerReads) ==>
                  s.toServer[0].threshold == s.server.side.threshold && s.toServer[0].phase == s.server.side.phase)
            && (Enabled(s, ClientReads) ==>
                  s.toClient[0].threshold == s.client.threshold && s.toClient[0].phase == s.client.phase)
  {
    InitialStands(k);
    var at := RunStands(k, Initial(k), Place(0, 0, 0, 0), run);
    var s := After(k, Initial(k), run);
    hide ServerAt, ClientAt, ServerSent, ClientSent, ServerTodo, ClientTodo, ServerPacket, ClientPacket;
    if Enabled(s, ServerReads) {
      ServerTodoLeft(k, at.read, at.acts);
      ServerTurn(k, at.read);
    }
    if Enabled(s, ClientReads) {
      ClientTodoLeft(k, at.clientRead, at.clientActs);
      ClientTurn(k, at.clientRead);
    }
  }

  // ---- A client the server refuses

  ghost predicate Unserved(k: Config, s: State) {
    && s.toClient == [] && s.server.side.todo == [] && s.server.step == Start
    && (s.server.side.phase == Handshaking || (s.server.side.phase == LoginPhase && s.server.version == k.version))
    && (forall i :: 0 <= i < |s.toServer| ==> s.toServer[i].body.Name? ==> s.toServer[i].body.name == k.name)
    && (forall i :: 0 <= i < |s.toServer| ==> s.toServer[i].body.Hello? ==>
          s.toServer[i].body == Hello(k.version, NEXT_LOGIN))
    && (forall i :: 0 <= i < |s.client.todo| ==> s.client.todo[i] in Hellos(k))
    && s.client.phase != Play
  }

  lemma UnservedNext(k: Config, s: State, step: Step)
    requires !Welcome(k) && Unserved(k, s) && Enabled(s, step)
    ensures Unserved(k, Next(k, s, step))
  {
  }

  lemma {:induction false} UnservedRun(k: Config, s: State, run: seq<Step>)
    requires !Welcome(k) && Unserved(k, s) && IsRun(k, s, run)
    ensures Unserved(k, After(k, s, run))
    decreases |run|
  {
    if run != [] {
      UnservedNext(k, s, run[0]);
      UnservedRun(k, Next(k, s, run[0]), run[1..]);
    }
  }

  /** The version and the names the server takes, by number and character code. */
  ghost predicate Accepted(k: Config) {
    && k.version == 775 && 1 <= |k.name| <= 16
    && forall c :: c in k.name ==>
         c as int == 95 || 48 <= c as int <= 57 || 65 <= c as int <= 90 || 97 <= c as int <= 122
  }

  lemma WelcomeMeans(k: Config)
    ensures Welcome(k) <==> Accepted(k)
  {
    if Accepted(k) {
      forall i | 0 <= i < |k.name| ensures NameChar(k.name[i]) { assert k.name[i] in k.name; }
    }
  }

  /** A client of another version or with another name gets no answer in any run and never past the login
      phase; any other one can be led to the play phase from wherever a run has got. */
  lemma LoginExactly(k: Config, run: seq<Step>)
    requires IsRun(k, Initial(k), run)
    ensures var s := After(k, Initial(k), run);
            && (!Accepted(k) ==>
                  && s.toClient == [] && s.client.phase != Play
                  && (s.server.side.phase == Handshaking || s.server.side.phase == LoginPhase))
            && (Accepted(k) ==> BothPlay(s) || exists step :: Enabled(s, step))
  {
    WelcomeMeans(k);
    if Welcome(k) { EveryRunReachesPlay(k, run); } else { UnservedRun(k, Initial(k), run); }
  }

  // ---- The packets by number

  /** The ids of the whole conversation, in order. */
  lemma ConversationIds(k: Config)
    ensures forall i :: 0 <= i < 7 ==> ClientPacket(k, i).id == [0x00, 0x00, 0x03, 0x00, 0x02, 0x07, 0x03][i]
    ensures k.threshold >= 0 ==> ServerPacket(k, 0).id == 0x03 && ServerPacket(k, 0).body == Number(k.threshold)
    ensures var c := if k.threshold >= 0 then 1 else 0;
            && ServerPackets(k) == c + k.registries + 6
            && (forall i :: 0 <= i < 4 ==> ServerPacket(k, c + i).id == [0x02, 0x01, 0x0c, 0x0e][i])
            && (forall i :: c + 4 <= i < c + 4 + k.registries ==> ServerPacket(k, i).id == 0x07)
            && ServerPacket(k, c + 4 + k.registries).id == 0x0d && ServerPacket(k, c + 5 + k.registries).id == 0x03
  {
  }

  // ---- What the server makes of any packet

  ghost predicate NameTaken(b: Body) { b.Name? && Accepted(Config(b.name, 775, 0, 0)) }

  /** Exactly when the server gives a connection up on reading a packet. */
  lemma ServerRefusesExactly(k: Config, v: Server, p: Packet)
    requires !v.side.failed
    ensures ServerRead(k, v, p).side.failed <==>
              || p.threshold != v.side.threshold
              || match v.side.phase
                 case Handshaking => !(p.id == 0 && p.body.Hello? && 1 <= p.body.next <= 3)
                 case Status => !(p.id == 0 || (p.id == 1 && p.body.Number?))
                 case LoginPhase =>
                   !((p.id == 0 && v.step == Start && v.version == 775 && NameTaken(p.body))
                     || (p.id == 3 && v.step == Ready))
                 case Configuration => (p.id == 0 || p.id == 2 || p.id == 7) && p.body.Bad?
                 case Play => true
  {
    if p.body.Name? {
      WelcomeMeans(Config(p.body.name, 775, 0, 0));
    }
  }

  /** And what it does otherwise: the phase it goes to, and what it sends and does, in order. */
  lemma ServerAnswersExactly(k: Config, v: Server, p: Packet)
    requires !v.side.failed && v.side.todo == [] && !ServerRead(k, v, p).side.failed
    ensures var w := ServerRead(k, v, p);
            match v.side.phase
            case Handshaking =>
              && w.version == p.body.version && w.side.todo == []
              && w.side.phase == (if p.body.next == 1 then Status else LoginPhase)
            case Status =>
              w == v.(side := v.side.(todo := [if p.id == 0 then Send(0, Other) else Send(1, p.body)]))
            case LoginPhase =>
              if p.id == 0 then
                && w.profile == p.body.name && w.side.phase == LoginPhase && w.step == v.step
                && var t := k.threshold;
                w.side.todo == (if t >= 0 then [Send(3, Number(t)), Compress(t)] else [])
                               + [SetReady, Send(2, Name(p.body.name))]
              else
                w.side.phase == Configuration && w.side.todo == [Send(1, Other), Send(12, Other), Send(14, Other)]
            case Configuration =>
              if p.id == 7 then
                && w.side.phase == Configuration && |w.side.todo| == k.registries + 2
                && (forall i :: 0 <= i < k.registries ==> w.side.todo[i] == Send(7, Other))
                && w.side.todo[k.registries] == Send(13, Other) && w.side.todo[k.registries + 1] == Send(3, Other)
              else w == if p.id == 3 then v.(side := v.side.(phase := Play)) else v
            case Play => false
  {
  }

  // ---- What the client makes of any packet

  lemma ClientRefusesExactly(c: Side, p: Packet)
    requires !c.failed
    ensures ClientRead(c, p).failed <==>
              || p.threshold != c.threshold
              || match c.phase
                 case LoginPhase => !((p.id == 3 && p.body.Number?) || (p.id == 2 && !p.body.Bad?))
                 case Configuration =>
                   p.id == 2 || (p.body.Bad? && (p.id == 1 || p.id == 4 || p.id == 5 || p.id == 12 || p.id == 14))
                 case _ => true
  {
  }

  lemma ClientAnswersExactly(c: Side, p: Packet)
    requires !c.failed && c.todo == [] && !ClientRead(c, p).failed
    ensures var d := ClientRead(c, p);
            if c.phase == LoginPhase then
              if p.id == 3 then d == c.(threshold := p.body.n)
              else d == c.(todo := [Send(3, Other), Enter(Configuration), Send(0, Other), Send(2, Other)])
            else if p.id == 14 then d == c.(todo := [Send(7, Other)])
            else if p.id == 4 || p.id == 5 then d == c.(todo := [Send(p.id, p.body)])
            else if p.id == 3 then d == c.(todo := [Send(3, Other), Enter(Play)])
            else d == c
  {
  }
}
