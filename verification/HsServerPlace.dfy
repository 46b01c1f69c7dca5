/** Where a server stands in the script, and that its turns follow the script when the client
    does and no callback fails. */
module HsServerPlace {
  import opened HsMessages
  import opened HsServer

  function PlaceOf(s: Server): nat {
    match s.state
    case StartAccept => 0
    case ReadClientHello => 0
    case SelectCertificate => 0
    case SelectParameters => 0
    case SendServerHello => 1
    case SendServerCertificate => 2
    case SendServerKeyExchange => 4
    case SendServerHelloDone => 5
    case ReadClientCertificate => 7
    case VerifyClientCertificate => 8
    case ReadClientKeyExchange => 8
    case ReadClientCertificateVerify => 9
    case ReadChangeCipherSpec => if s.config.flags.resumed then 5 else 10
    case ProcessChangeCipherSpec => (if s.config.flags.resumed then 5 else 10) + (if s.wait.ReadCcs? then 0 else 1)
    case ReadNextProto => if s.config.flags.resumed then 6 else 11
    case ReadChannelId => if s.config.flags.resumed then 7 else 12
    case ReadClientFinished => if s.config.flags.resumed then 8 else 13
    case SendServerFinished => if s.config.flags.resumed then 2 else 14
    case FinishServerHandshake => if s.config.flags.resumed then 9 else 17
    case Done => if s.config.flags.resumed then 9 else 17
  }

  /** A flight is held back only as long as it is being put together, or about to be flushed. */
  predicate Sending(s: Server) {
    || s.wait.Flush? || s.state.SendServerCertificate? || s.state.SendServerKeyExchange?
    || s.state.SendServerHelloDone? || s.state.SendServerFinished?
  }

  /** The states that only a full handshake goes through. */
  predicate FullOnly(s: Server) {
    || s.state.SendServerCertificate? || s.state.SendServerKeyExchange? || s.state.SendServerHelloDone?
    || s.state.ReadClientCertificate? || s.state.VerifyClientCertificate? || s.state.ReadClientKeyExchange?
    || s.state.ReadClientCertificateVerify?
  }

  /** What a server and a client with or without a certificate will do. */
  function SetupOf(config: Config, clientHasCert: bool): Setup {
    Setup(config.flags, Requests(config), clientHasCert, config.hint)
  }

  /** What a server at its place knows. */
  ghost predicate Knows(g: Setup, s: Server) {
    && !s.wait.Failed?
    && (s.wait.ReadMessage? ==> Reads(s))
    && (s.wait.ReadCcs? ==> s.state.ProcessChangeCipherSpec?)
    && (s.state.Done? ==> s.wait.Go?)
    && (s.flight != [] ==> Sending(s))
    && g.flags == s.config.flags && g.hint == s.config.hint && g.certRequest == Requests(s.config)
    && (FullOnly(s) ==> !g.flags.resumed)
    && (Rank(s) >= 4 ==> s.requested == g.certRequest)
    && (Rank(s) >= 9 ==> s.peerCert == (g.certRequest && g.clientHasCert))
  }

  /** The server stands at its place; what is to come, and `toClient` and then its flight, are in
      step with the client's place `i`. */
  ghost predicate At(g: Setup, s: Server, i: nat, toServer: seq<Item>, toClient: seq<Item>) {
    ServerStands(g, i, PlaceOf(s), s.transcript, toServer, toClient + s.flight)
  }

  ghost predicate Ready(g: Setup, s: Server, i: nat, toServer: seq<Item>, toClient: seq<Item>) {
    s.wait.Go? && Safe(s) && Knows(g, s) && At(g, s, i, toServer, toClient)
  }

  ghost predicate Receives(g: Setup, s: Server, i: nat, toServer: seq<Item>, toClient: seq<Item>) {
    Ready(g, s, i, toServer, toClient) && Reads(s) && toServer != [] && toServer[0].Handshake?
  }

  /** The server after a turn stands at its place again. */
  ghost predicate Follows(g: Setup, t: Turn, i: nat, toServer: seq<Item>, toClient: seq<Item>) {
    && (t.Took? ==> toServer != [])
    && Knows(g, t.side) && At(g, t.side, i, if t.Took? then toServer[1..] else toServer, toClient)
  }

  lemma Behind(a: seq<Item>, b: seq<Item>, c: seq<Item>)
    ensures a + b + c == a + (b + c)
  {
  }

  lemma NoChainYet(s: Server)
    requires Safe(s) && Rank(s) <= 8
    ensures !s.peerCert
  {
    hide SignedInFull;
  }

  lemma HeldToCheck(s: Server)
    requires Safe(s) && s.state.ReadClientCertificateVerify?
    ensures s.peerCert ==> Buffer(s) == s.transcript
  {
    hide SignedInFull;
  }

  /** What the server says at a place, if anything. */
  lemma ServerAdds(g: Setup, i: nat, j: nat, p: Place, t: seq<Message>, item: Item, toServer: seq<Item>, toClient:
                   seq<Item>, flight: seq<Item>)
    requires ServerStands(g, i, j, t, toServer, toClient + flight)
    requires j < Places(g.flags.resumed) && p == PlaceAt(g.flags.resumed, j) && !FromClient(p)
    requires Taken(g, p) ==> item == ItemFor(g, p, t)
    ensures ServerStands(g, i, j + 1, if Taken(g, p) then Hashed(t, item) else t,
                         toServer, toClient + (flight + if Taken(g, p) then [item] else []))
  {
    hide ServerStands, PlaceAt, FromClient, ItemFor;
    if Taken(g, p) {
      ServerSays(g, i, j, p, t, toServer, toClient + flight);
      Behind(toClient, flight, [item]);
    } else {
      ServerSkips(g, i, j, p, t, toServer, toClient + flight);
      assert flight + [] == flight;
    }
  }

  // ------------------------------------------------------------------ one by one

  /** A callback is asked again, and nothing else happens. */
  lemma Asks(g: Setup, s: Server, i: nat, toServer: seq<Item>, toClient: seq<Item>)
    requires Ready(g, s, i, toServer, toClient) && !s.state.ProcessChangeCipherSpec? && !s.state.Done?
    ensures Knows(g, Await(s, Again))
    ensures At(g, Await(s, Again), i, toServer, toClient)
  {
    hide ServerStands, Safe, Reads, Requests;
  }

  lemma Waits(g: Setup, s: Server, i: nat, toServer: seq<Item>, toClient: seq<Item>)
    requires Ready(g, s, i, toServer, toClient) && Reads(s)
    ensures Knows(g, Await(s, ReadMessage))
    ensures At(g, Await(s, ReadMessage), i, toServer, toClient)
  {
    hide ServerStands, Safe, Requests;
  }

  lemma Accepts(g: Setup, s: Server, i: nat, toServer: seq<Item>, toClient: seq<Item>)
    requires Ready(g, s, i, toServer, toClient) && s.state.StartAccept?
    ensures Knows(g, GoTo(s, ReadClientHello))
    ensures At(g, GoTo(s, ReadClientHello), i, toServer, toClient)
  {
    hide ServerStands, Safe, Reads, Requests;
  }

  lemma HelloKept(g: Setup, s: Server, i: nat, toServer: seq<Item>, toClient: seq<Item>)
    requires Receives(g, s, i, toServer, toClient) && s.state.ReadClientHello?
    ensures toServer[0].m.ClientHello?
    ensures Knows(g, GoTo(s, SelectCertificate))
    ensures At(g, GoTo(s, SelectCertificate), i, toServer, toClient)
  {
    hide ServerStands, Safe, Requests;
    ServerHears(g, i, 0, PClientHello, s.transcript, toServer, toClient + s.flight);
  }

  lemma HelloRead(g: Setup, s: Server, o: Outcome, i: nat, toServer: seq<Item>, toClient: seq<Item>)
    requires Receives(g, s, i, toServer, toClient) && s.state.ReadClientHello? && !o.Bad?
    ensures Follows(g, DoReadClientHello(s, toServer[0].m, o), i, toServer, toClient)
  {
    hide Knows, At, Safe, Reads, Requests;
    Asks(g, s, i, toServer, toClient);
    HelloKept(g, s, i, toServer, toClient);
  }

  lemma HelloStillKept(g: Setup, s: Server, i: nat, toServer: seq<Item>, toClient: seq<Item>)
    requires Receives(g, s, i, toServer, toClient) && s.state.SelectCertificate?
    ensures toServer[0].m.ClientHello?
    ensures Knows(g, GoTo(s, SelectParameters))
    ensures At(g, GoTo(s, SelectParameters), i, toServer, toClient)
  {
    hide ServerStands, Safe, Requests;
    ServerHears(g, i, 0, PClientHello, s.transcript, toServer, toClient + s.flight);
  }

  lemma CertificateSelected(g: Setup, s: Server, o: Outcome, i: nat, toServer: seq<Item>, toClient: seq<Item>)
    requires Receives(g, s, i, toServer, toClient) && s.state.SelectCertificate? && !o.Bad?
    ensures Follows(g, DoSelectCertificate(s, toServer[0].m, o), i, toServer, toClient)
  {
    hide Knows, At, Safe, Reads, Requests;
    Asks(g, s, i, toServer, toClient);
    HelloStillKept(g, s, i, toServer, toClient);
  }

  lemma HelloTakenAt(g: Setup, s: Server, held: bool, i: nat, toServer: seq<Item>, toClient: seq<Item>)
    requires At(g, s, i, toServer, toClient) && s.state.SelectParameters? && toServer != [] && toServer[0].Handshake?
    ensures toServer[0].m.ClientHello?
    ensures At(g, Take(s.(requested := g.certRequest, held := held), toServer[0].m, SendServerHello),
               i, toServer[1..], toClient)
  {
    hide ServerStands;
    ServerHears(g, i, 0, PClientHello, s.transcript, toServer, toClient + s.flight);
  }

  lemma HelloTakenKnows(g: Setup, s: Server, held: bool, m: Message)
    requires Knows(g, s) && s.state.SelectParameters? && s.wait.Go?
    ensures Knows(g, Take(s.(requested := g.certRequest, held := held), m, SendServerHello))
  {
    hide Reads, Requests;
  }

  lemma ParametersSelected(g: Setup, s: Server, o: Outcome, i: nat, toServer: seq<Item>, toClient: seq<Item>)
    requires Receives(g, s, i, toServer, toClient) && s.state.SelectParameters? && !o.Bad?
    ensures Follows(g, DoSelectParameters(s, toServer[0].m, o), i, toServer, toClient)
  {
    hide Knows, At, Safe, Reads, Requests;
    SetupKnown(g, s);
    Asks(g, s, i, toServer, toClient);
    HelloTakenAt(g, s, s.held && g.certRequest, i, toServer, toClient);
    HelloTakenKnows(g, s, s.held && g.certRequest, toServer[0].m);
  }

  lemma HelloSaid(g: Setup, s: Server, i: nat, toServer: seq<Item>, toClient: seq<Item>, state: State)
    requires && Ready(g, s, i, toServer, toClient) && s.state.SendServerHello?
             && state == if g.flags.resumed then SendServerFinished else SendServerCertificate
    ensures Knows(g, GoTo(Emit(s, ServerHello(g.flags)), state))
    ensures At(g, GoTo(Emit(s, ServerHello(g.flags)), state), i, toServer, toClient)
  {
    hide ServerStands, Safe, Requests;
    ServerSays(g, i, 1, PServerHello, s.transcript, toServer, toClient + s.flight);
    Behind(toClient, s.flight, [Handshake(ServerHello(g.flags))]);
  }

  lemma HelloSent(g: Setup, s: Server, o: Outcome, i: nat, toServer: seq<Item>, toClient: seq<Item>)
    requires Ready(g, s, i, toServer, toClient) && s.state.SendServerHello? && !o.Bad?
    ensures Knows(g, DoSendServerHello(s, o))
    ensures At(g, DoSendServerHello(s, o), i, toServer, toClient)
  {
    hide Knows, At, GoTo, Emit, Safe, Requests;
    SetupKnown(g, s);
    HelloSaid(g, s, i, toServer, toClient, if g.flags.resumed then SendServerFinished else SendServerCertificate);
  }

  lemma CertificatesStand(g: Setup, s: Server, i: nat, toServer: seq<Item>, toClient: seq<Item>)
    requires && ServerStands(g, i, 2, s.transcript, toServer, toClient + s.flight) && s.config.flags == g.flags
             && !g.flags.resumed
    ensures ServerStands(g, i, 4, AfterStatus(s), toServer, toClient + (s.flight + Certificates(s)))
  {
    hide ServerStands;
    var first: seq<Item> := if g.flags.certAuth then [Handshake(Certificate(true, false))] else [];
    var second: seq<Item> := if g.flags.certAuth && g.flags.status then [Handshake(CertificateStatus)] else [];
    ServerAdds(g, i, 2, PServerCert, s.transcript, Handshake(Certificate(true, false)), toServer, toClient, s.flight);
    ServerAdds(g, i, 3, PStatus, AfterCertificate(s), Handshake(CertificateStatus), toServer, toClient,
               s.flight + first);
    Behind(s.flight, first, second);
  }

  lemma CertificatesSaid(g: Setup, s: Server, i: nat, toServer: seq<Item>, toClient: seq<Item>)
    requires Ready(g, s, i, toServer, toClient) && s.state.SendServerCertificate?
    ensures Knows(g, DoSendServerCertificate(s, Good))
    ensures At(g, DoSendServerCertificate(s, Good), i, toServer, toClient)
  {
    hide ServerStands, Safe, AfterStatus, Certificates, Reads, Requests;
    CertificatesStand(g, s, i, toServer, toClient);
  }

  lemma KeyExchangeSaid(g: Setup, s: Server, i: nat, toServer: seq<Item>, toClient: seq<Item>)
    requires Ready(g, s, i, toServer, toClient) && s.state.SendServerKeyExchange? && g.KeyExchangeSent()
    ensures Knows(g, GoTo(Emit(s, ServerKeyExchange), SendServerHelloDone))
    ensures At(g, GoTo(Emit(s, ServerKeyExchange), SendServerHelloDone), i, toServer, toClient)
  {
    hide ServerStands, Safe, Requests;
    ServerSays(g, i, 4, PKeyExchange, s.transcript, toServer, toClient + s.flight);
    Behind(toClient, s.flight, [Handshake(ServerKeyExchange)]);
  }

  lemma KeyExchangeSkipped(g: Setup, s: Server, i: nat, toServer: seq<Item>, toClient: seq<Item>)
    requires Ready(g, s, i, toServer, toClient) && s.state.SendServerKeyExchange? && !g.KeyExchangeSent()
    ensures Knows(g, GoTo(s, SendServerHelloDone))
    ensures At(g, GoTo(s, SendServerHelloDone), i, toServer, toClient)
  {
    hide ServerStands, Safe, Requests;
    ServerSkips(g, i, 4, PKeyExchange, s.transcript, toServer, toClient + s.flight);
  }

  lemma SetupKnown(g: Setup, s: Server)
    requires Knows(g, s)
    ensures g.flags == s.config.flags && g.hint == s.config.hint && g.certRequest == Requests(s.config)
  {
  }

  lemma KeyExchangeSent(g: Setup, s: Server, o: Outcome, i: nat, toServer: seq<Item>, toClient: seq<Item>)
    requires Ready(g, s, i, toServer, toClient) && s.state.SendServerKeyExchange? && !o.Bad?
    ensures Knows(g, DoSendServerKeyExchange(s, o))
    ensures At(g, DoSendServerKeyExchange(s, o), i, toServer, toClient)
  {
    hide Knows, At, GoTo, Emit, Safe, Requests;
    SetupKnown(g, s);
    Asks(g, s, i, toServer, toClient);
    if g.KeyExchangeSent() {
      KeyExchangeSaid(g, s, i, toServer, toClient);
    } else {
      KeyExchangeSkipped(g, s, i, toServer, toClient);
    }
  }

  lemma HelloDoneStands(g: Setup, s: Server, i: nat, toServer: seq<Item>, toClient: seq<Item>)
    requires && ServerStands(g, i, 5, s.transcript, toServer, toClient + s.flight) && s.requested == g.certRequest
             && !g.flags.resumed
    ensures ServerStands(g, i, 7, AfterRequest(s) + [ServerHelloDone], toServer, toClient + (s.flight + HelloDone(s)))
  {
    hide ServerStands;
    var first: seq<Item> := if g.certRequest then [Handshake(CertificateRequest)] else [];
    ServerAdds(g, i, 5, PRequest, s.transcript, Handshake(CertificateRequest), toServer, toClient, s.flight);
    ServerAdds(g, i, 6, PHelloDone, AfterRequest(s), Handshake(ServerHelloDone), toServer, toClient, s.flight + first);
    Behind(s.flight, first, [Handshake(ServerHelloDone)]);
  }

  lemma HelloDoneSaid(g: Setup, s: Server, i: nat, toServer: seq<Item>, toClient: seq<Item>)
    requires Ready(g, s, i, toServer, toClient) && s.state.SendServerHelloDone?
    ensures Knows(g, s.(transcript := AfterRequest(s) + [ServerHelloDone], flight := s.flight + HelloDone(s),
                        state := ReadClientCertificate, wait := Flush))
    ensures At(g, s.(transcript := AfterRequest(s) + [ServerHelloDone], flight := s.flight + HelloDone(s),
                     state := ReadClientCertificate, wait := Flush),
               i, toServer, toClient)
  {
    hide ServerStands, Safe, AfterRequest, HelloDone, Reads, Requests;
    HelloDoneStands(g, s, i, toServer, toClient);
  }

  lemma ChainTaken(g: Setup, s: Server, i: nat, toServer: seq<Item>, toClient: seq<Item>)
    requires Receives(g, s, i, toServer, toClient) && s.state.ReadClientCertificate?
    ensures toServer[0].m.Certificate?
    ensures Knows(g, Take(s.(peerCert := !toServer[0].m.empty, held := s.held && !toServer[0].m.empty),
                          toServer[0].m, VerifyClientCertificate))
    ensures At(g, Take(s.(peerCert := !toServer[0].m.empty, held := s.held && !toServer[0].m.empty),
                       toServer[0].m, VerifyClientCertificate),
               i, toServer[1..], toClient)
  {
    hide ServerStands, Safe, Requests;
    ServerHears(g, i, 7, PClientCert, s.transcript, toServer, toClient + s.flight);
  }

  lemma ChainRead(g: Setup, s: Server, o: Outcome, i: nat, toServer: seq<Item>, toClient: seq<Item>)
    requires Receives(g, s, i, toServer, toClient) && s.state.ReadClientCertificate? && !o.Bad?
    ensures Follows(g, DoReadClientCertificate(s, toServer[0].m, o), i, toServer, toClient)
  {
    hide Knows, At, Safe, Reads, Requests;
    ChainTaken(g, s, i, toServer, toClient);
  }

  lemma ChainPassed(g: Setup, s: Server, i: nat, toServer: seq<Item>, toClient: seq<Item>)
    requires Ready(g, s, i, toServer, toClient) && s.state.ReadClientCertificate? && !Reads(s)
    ensures Knows(g, GoTo(s, VerifyClientCertificate))
    ensures At(g, GoTo(s, VerifyClientCertificate), i, toServer, toClient)
  {
    hide ServerStands, Safe, Requests;
    NoChainYet(s);
    ServerSkips(g, i, 7, PClientCert, s.transcript, toServer, toClient + s.flight);
  }

  lemma Unverified(g: Setup, s: Server, i: nat, toServer: seq<Item>, toClient: seq<Item>)
    requires Ready(g, s, i, toServer, toClient) && s.state.VerifyClientCertificate?
    ensures Knows(g, GoTo(s, ReadClientKeyExchange))
    ensures At(g, GoTo(s, ReadClientKeyExchange), i, toServer, toClient)
  {
    hide ServerStands, Safe, Reads, Requests;
  }

  lemma Verified(g: Setup, s: Server, i: nat, toServer: seq<Item>, toClient: seq<Item>)
    requires Ready(g, s, i, toServer, toClient) && s.state.VerifyClientCertificate?
    ensures Knows(g, GoTo(s.(verified := true), ReadClientKeyExchange))
    ensures At(g, GoTo(s.(verified := true), ReadClientKeyExchange), i, toServer, toClient)
  {
    hide ServerStands, Safe, Reads, Requests;
  }

  lemma ChainVerified(g: Setup, s: Server, o: Outcome, i: nat, toServer: seq<Item>, toClient: seq<Item>)
    requires Ready(g, s, i, toServer, toClient) && s.state.VerifyClientCertificate? && !o.Bad?
    ensures Knows(g, DoVerifyClientCertificate(s, o))
    ensures At(g, DoVerifyClientCertificate(s, o), i, toServer, toClient)
  {
    hide Knows, At, GoTo, Emit, Safe, Requests;
    Asks(g, s, i, toServer, toClient);
    Unverified(g, s, i, toServer, toClient);
    Verified(g, s, i, toServer, toClient);
  }

  lemma KeyTaken(g: Setup, s: Server, i: nat, toServer: seq<Item>, toClient: seq<Item>)
    requires Receives(g, s, i, toServer, toClient) && s.state.ReadClientKeyExchange?
    ensures toServer[0].m.ClientKeyExchange?
    ensures Knows(g, Take(s, toServer[0].m, ReadClientCertificateVerify))
    ensures At(g, Take(s, toServer[0].m, ReadClientCertificateVerify), i, toServer[1..], toClient)
  {
    hide ServerStands, Safe, Requests;
    ServerHears(g, i, 8, PClientKey, s.transcript, toServer, toClient + s.flight);
  }

  lemma KeyRead(g: Setup, s: Server, o: Outcome, i: nat, toServer: seq<Item>, toClient: seq<Item>)
    requires Receives(g, s, i, toServer, toClient) && s.state.ReadClientKeyExchange? && !o.Bad?
    ensures Follows(g, DoReadClientKeyExchange(s, toServer[0].m, o), i, toServer, toClient)
  {
    hide Knows, At, Safe, Reads, Requests;
    Asks(g, s, i, toServer, toClient);
    KeyTaken(g, s, i, toServer, toClient);
  }

  lemma SignatureTaken(g: Setup, s: Server, i: nat, toServer: seq<Item>, toClient: seq<Item>)
    requires Receives(g, s, i, toServer, toClient) && s.state.ReadClientCertificateVerify?
    ensures toServer[0].m == CertificateVerify(Buffer(s))
    ensures Knows(g, Take(s.(held := false, signed := true), toServer[0].m, ReadChangeCipherSpec))
    ensures At(g, Take(s.(held := false, signed := true), toServer[0].m, ReadChangeCipherSpec),
               i, toServer[1..], toClient)
  {
    hide ServerStands, Safe, Requests;
    HeldToCheck(s);
    ServerHears(g, i, 9, PVerify, s.transcript, toServer, toClient + s.flight);
  }

  lemma SignatureRead(g: Setup, s: Server, o: Outcome, i: nat, toServer: seq<Item>, toClient: seq<Item>)
    requires Receives(g, s, i, toServer, toClient) && s.state.ReadClientCertificateVerify? && !o.Bad?
    ensures Follows(g, DoReadClientCertificateVerify(s, toServer[0].m, o), i, toServer, toClient)
  {
    hide Knows, At, Safe, Reads, Requests;
    SignatureTaken(g, s, i, toServer, toClient);
  }

  lemma SignaturePassed(g: Setup, s: Server, i: nat, toServer: seq<Item>, toClient: seq<Item>)
    requires Ready(g, s, i, toServer, toClient) && s.state.ReadClientCertificateVerify? && !Reads(s)
    ensures Knows(g, GoTo(s.(held := false), ReadChangeCipherSpec))
    ensures At(g, GoTo(s.(held := false), ReadChangeCipherSpec), i, toServer, toClient)
  {
    hide ServerStands, Safe, Requests;
    ServerSkips(g, i, 9, PVerify, s.transcript, toServer, toClient + s.flight);
  }

  lemma AwaitsCcs(g: Setup, s: Server, i: nat, toServer: seq<Item>, toClient: seq<Item>)
    requires Ready(g, s, i, toServer, toClient) && s.state.ReadChangeCipherSpec?
    ensures Knows(g, GoTo(s.(wait := ReadCcs), ProcessChangeCipherSpec))
    ensures At(g, GoTo(s.(wait := ReadCcs), ProcessChangeCipherSpec), i, toServer, toClient)
  {
    hide ServerStands, Safe, Reads, Requests;
  }

  lemma KeysRead(g: Setup, s: Server, i: nat, toServer: seq<Item>, toClient: seq<Item>)
    requires Ready(g, s, i, toServer, toClient) && s.state.ProcessChangeCipherSpec?
    ensures Knows(g, GoTo(s.(readKeys := true), ReadNextProto))
    ensures At(g, GoTo(s.(readKeys := true), ReadNextProto), i, toServer, toClient)
  {
    hide ServerStands, Safe, Reads, Requests;
  }

  lemma NextProtoTaken(g: Setup, s: Server, i: nat, toServer: seq<Item>, toClient: seq<Item>)
    requires Receives(g, s, i, toServer, toClient) && s.state.ReadNextProto?
    ensures toServer[0].m.NextProto?
    ensures Knows(g, Take(s, toServer[0].m, ReadChannelId))
    ensures At(g, Take(s, toServer[0].m, ReadChannelId), i, toServer[1..], toClient)
  {
    hide ServerStands, Safe, Requests;
    if g.flags.resumed {
      ServerHears(g, i, 6, PNextProto, s.transcript, toServer, toClient + s.flight);
    } else {
      ServerHears(g, i, 11, PNextProto, s.transcript, toServer, toClient + s.flight);
    }
  }

  lemma NextProtoRead(g: Setup, s: Server, o: Outcome, i: nat, toServer: seq<Item>, toClient: seq<Item>)
    requires Receives(g, s, i, toServer, toClient) && s.state.ReadNextProto? && !o.Bad?
    ensures Follows(g, DoReadNextProto(s, toServer[0].m, o), i, toServer, toClient)
  {
    hide Knows, At, Safe, Reads, Requests;
    NextProtoTaken(g, s, i, toServer, toClient);
  }

  lemma NextProtoPassed(g: Setup, s: Server, i: nat, toServer: seq<Item>, toClient: seq<Item>)
    requires Ready(g, s, i, toServer, toClient) && s.state.ReadNextProto? && !Reads(s)
    ensures Knows(g, GoTo(s, ReadChannelId))
    ensures At(g, GoTo(s, ReadChannelId), i, toServer, toClient)
  {
    hide ServerStands, Safe, Requests;
    if g.flags.resumed {
      ServerSkips(g, i, 6, PNextProto, s.transcript, toServer, toClient + s.flight);
    } else {
      ServerSkips(g, i, 11, PNextProto, s.transcript, toServer, toClient + s.flight);
    }
  }

  lemma ChannelIdTaken(g: Setup, s: Server, i: nat, toServer: seq<Item>, toClient: seq<Item>)
    requires Receives(g, s, i, toServer, toClient) && s.state.ReadChannelId?
    ensures toServer[0].m == ChannelId(s.transcript)
    ensures Knows(g, Take(s, toServer[0].m, ReadClientFinished))
    ensures At(g, Take(s, toServer[0].m, ReadClientFinished), i, toServer[1..], toClient)
  {
    hide ServerStands, Safe, Requests;
    if g.flags.resumed {
      ServerHears(g, i, 7, PChannelId, s.transcript, toServer, toClient + s.flight);
    } else {
      ServerHears(g, i, 12, PChannelId, s.transcript, toServer, toClient + s.flight);
    }
  }

  lemma ChannelIdRead(g: Setup, s: Server, o: Outcome, i: nat, toServer: seq<Item>, toClient: seq<Item>)
    requires Receives(g, s, i, toServer, toClient) && s.state.ReadChannelId? && !o.Bad?
    ensures Follows(g, DoReadChannelId(s, toServer[0].m, o), i, toServer, toClient)
  {
    hide Knows, At, Safe, Reads, Requests;
    ChannelIdTaken(g, s, i, toServer, toClient);
  }

  lemma ChannelIdPassed(g: Setup, s: Server, i: nat, toServer: seq<Item>, toClient: seq<Item>)
    requires Ready(g, s, i, toServer, toClient) && s.state.ReadChannelId? && !Reads(s)
    ensures Knows(g, GoTo(s, ReadClientFinished))
    ensures At(g, GoTo(s, ReadClientFinished), i, toServer, toClient)
  {
    hide ServerStands, Safe, Requests;
    if g.flags.resumed {
      ServerSkips(g, i, 7, PChannelId, s.transcript, toServer, toClient + s.flight);
    } else {
      ServerSkips(g, i, 12, PChannelId, s.transcript, toServer, toClient + s.flight);
    }
  }

  lemma LastFinishedTaken(g: Setup, s: Server, i: nat, toServer: seq<Item>, toClient: seq<Item>)
    requires Receives(g, s, i, toServer, toClient) && s.state.ReadClientFinished? && g.flags.resumed
    ensures toServer[0].m == Finished(false, s.transcript) && s.config.flags.resumed
    ensures Knows(g, Take(s.(finishedOk := true), toServer[0].m, FinishServerHandshake))
    ensures At(g, Take(s.(finishedOk := true), toServer[0].m, FinishServerHandshake),
               i, toServer[1..], toClient)
  {
    hide ServerStands, Safe, Requests;
    ServerHears(g, i, 8, PClientFinished, s.transcript, toServer, toClient + s.flight);
  }

  lemma FirstFinishedTaken(g: Setup, s: Server, i: nat, toServer: seq<Item>, toClient: seq<Item>)
    requires Receives(g, s, i, toServer, toClient) && s.state.ReadClientFinished? && !g.flags.resumed
    ensures toServer[0].m == Finished(false, s.transcript) && !s.config.flags.resumed
    ensures Knows(g, Take(s.(finishedOk := true), toServer[0].m, SendServerFinished))
    ensures At(g, Take(s.(finishedOk := true), toServer[0].m, SendServerFinished),
               i, toServer[1..], toClient)
  {
    hide ServerStands, Safe, Requests;
    ServerHears(g, i, 13, PClientFinished, s.transcript, toServer, toClient + s.flight);
  }

  lemma FinishedRead(g: Setup, s: Server, o: Outcome, i: nat, toServer: seq<Item>, toClient: seq<Item>)
    requires Receives(g, s, i, toServer, toClient) && s.state.ReadClientFinished? && !o.Bad?
    ensures Follows(g, DoReadClientFinished(s, toServer[0].m, o), i, toServer, toClient)
  {
    hide Knows, At, Safe, Reads, Requests;
    if g.flags.resumed {
      LastFinishedTaken(g, s, i, toServer, toClient);
    } else {
      FirstFinishedTaken(g, s, i, toServer, toClient);
    }
  }

  lemma TicketSays(g: Setup, s: Server, i: nat, j: nat, toServer: seq<Item>, toClient: seq<Item>)
    requires ServerStands(g, i, j, s.transcript, toServer, toClient + s.flight)
    requires s.config.flags == g.flags && j == if g.flags.resumed then 2 else 14
    ensures var ticket: seq<Item> := if g.flags.ticket then [Handshake(NewSessionTicket)] else [];
            ServerStands(g, i, j + 1, AfterTicket(s), toServer, toClient + (s.flight + ticket))
  {
    hide ServerStands;
    ServerAdds(g, i, j, PTicket, s.transcript, Handshake(NewSessionTicket), toServer, toClient, s.flight);
  }

  lemma CcsSays(g: Setup, s: Server, i: nat, j: nat, toServer: seq<Item>, toClient: seq<Item>, flight: seq<Item>)
    requires ServerStands(g, i, j, AfterTicket(s), toServer, toClient + flight)
    requires s.config.flags == g.flags && j == if g.flags.resumed then 3 else 15
    ensures var finished := [Handshake(Finished(true, AfterTicket(s)))];
            ServerStands(g, i, j + 2, WithFinished(s), toServer, toClient + (flight + [ChangeCipherSpec] + finished))
  {
    hide ServerStands, AfterTicket;
    ServerAdds(g, i, j, PServerCcs, AfterTicket(s), ChangeCipherSpec, toServer, toClient, flight);
    ServerAdds(g, i, j + 1, PServerFinished, AfterTicket(s), Handshake(Finished(true, AfterTicket(s))),
               toServer, toClient, flight + [ChangeCipherSpec]);
  }

  /** NewSessionTicket, ChangeCipherSpec and Finished, from the place `j` on. */
  lemma LastFlightSays(g: Setup, s: Server, i: nat, j: nat, toServer: seq<Item>, toClient: seq<Item>)
    requires ServerStands(g, i, j, s.transcript, toServer, toClient + s.flight)
    requires s.config.flags == g.flags && j == if g.flags.resumed then 2 else 14
    ensures ServerStands(g, i, j + 3, WithFinished(s), toServer, toClient + (s.flight + LastFlight(s)))
  {
    hide ServerStands, WithFinished, AfterTicket;
    var ticket: seq<Item> := if g.flags.ticket then [Handshake(NewSessionTicket)] else [];
    var finished := [Handshake(Finished(true, AfterTicket(s)))];
    TicketSays(g, s, i, j, toServer, toClient);
    CcsSays(g, s, i, j + 1, toServer, toClient, s.flight + ticket);
    assert s.flight + ticket + [ChangeCipherSpec] + finished == s.flight + (ticket + [ChangeCipherSpec] + finished);
  }

  lemma FinishedSaid(g: Setup, s: Server, i: nat, toServer: seq<Item>, toClient: seq<Item>)
    requires Ready(g, s, i, toServer, toClient) && s.state.SendServerFinished?
    ensures Knows(g, DoSendServerFinished(s, Good))
    ensures At(g, DoSendServerFinished(s, Good), i, toServer, toClient)
  {
    hide ServerStands, Safe, Reads, WithFinished, LastFlight;
    if g.flags.resumed {
      NoChainYet(s);
    }
    LastFlightSays(g, s, i, PlaceOf(s), toServer, toClient);
  }

  lemma Completed(g: Setup, s: Server, i: nat, toServer: seq<Item>, toClient: seq<Item>)
    requires Ready(g, s, i, toServer, toClient) && s.state.FinishServerHandshake?
    ensures Knows(g, GoTo(s, Done))
    ensures At(g, GoTo(s, Done), i, toServer, toClient)
  {
    hide ServerStands, Safe, Reads, Requests;
  }

  // -------------------------------------------------------------------- together

  lemma ReadFollows(g: Setup, s: Server, o: Outcome, i: nat, toServer: seq<Item>, toClient: seq<Item>)
    requires Receives(g, s, i, toServer, toClient) && !o.Bad?
    ensures Follows(g, DoRead(s, toServer[0].m, o), i, toServer, toClient)
  {
    hide Knows, At, Safe, DoReadClientHello, DoSelectCertificate, DoSelectParameters, DoReadClientCertificate,
         DoReadClientKeyExchange, DoReadClientCertificateVerify, DoReadNextProto, DoReadChannelId, DoReadClientFinished;
    match s.state {
      case ReadClientHello => HelloRead(g, s, o, i, toServer, toClient);
      case SelectCertificate => CertificateSelected(g, s, o, i, toServer, toClient);
      case SelectParameters => ParametersSelected(g, s, o, i, toServer, toClient);
      case ReadClientCertificate => ChainRead(g, s, o, i, toServer, toClient);
      case ReadClientKeyExchange => KeyRead(g, s, o, i, toServer, toClient);
      case ReadClientCertificateVerify => SignatureRead(g, s, o, i, toServer, toClient);
      case ReadNextProto => NextProtoRead(g, s, o, i, toServer, toClient);
      case ReadChannelId => ChannelIdRead(g, s, o, i, toServer, toClient);
      case ReadClientFinished => FinishedRead(g, s, o, i, toServer, toClient);
    }
  }

  lemma SendingFollows(g: Setup, s: Server, o: Outcome, i: nat, toServer: seq<Item>, toClient: seq<Item>)
    requires Ready(g, s, i, toServer, toClient) && !o.Bad?
    requires || s.state.SendServerHello? || s.state.SendServerCertificate? || s.state.SendServerHelloDone?
             || s.state.SendServerFinished?
    ensures Knows(g, DoOther(s, o)) && At(g, DoOther(s, o), i, toServer, toClient)
  {
    hide Knows, At, Safe, WithFinished, LastFlight, Emit, AfterStatus, Certificates, AfterRequest, HelloDone;
    match s.state {
      case SendServerHello => HelloSent(g, s, o, i, toServer, toClient);
      case SendServerCertificate => CertificatesSaid(g, s, i, toServer, toClient);
      case SendServerHelloDone => HelloDoneSaid(g, s, i, toServer, toClient);
      case SendServerFinished => FinishedSaid(g, s, i, toServer, toClient);
    }
  }

  lemma OtherFollows(g: Setup, s: Server, o: Outcome, i: nat, toServer: seq<Item>, toClient: seq<Item>)
    requires Ready(g, s, i, toServer, toClient) && !Reads(s) && !s.state.Done? && !o.Bad?
    ensures Knows(g, DoOther(s, o)) && At(g, DoOther(s, o), i, toServer, toClient)
  {
    hide Knows, At, Safe, DoSendServerHello, DoSendServerCertificate, DoSendServerKeyExchange, DoSendServerHelloDone,
         DoVerifyClientCertificate, DoSendServerFinished;
    match s.state {
      case StartAccept => Accepts(g, s, i, toServer, toClient);
      case SendServerKeyExchange => KeyExchangeSent(g, s, o, i, toServer, toClient);
      case ReadClientCertificate => ChainPassed(g, s, i, toServer, toClient);
      case VerifyClientCertificate => ChainVerified(g, s, o, i, toServer, toClient);
      case ReadClientCertificateVerify => SignaturePassed(g, s, i, toServer, toClient);
      case ReadChangeCipherSpec => AwaitsCcs(g, s, i, toServer, toClient);
      case ProcessChangeCipherSpec => KeysRead(g, s, i, toServer, toClient);
      case ReadNextProto => NextProtoPassed(g, s, i, toServer, toClient);
      case ReadChannelId => ChannelIdPassed(g, s, i, toServer, toClient);
      case FinishServerHandshake => Completed(g, s, i, toServer, toClient);
      case _ => SendingFollows(g, s, o, i, toServer, toClient);
    }
  }

  lemma DoFollows(g: Setup, s: Server, got: Received, o: Outcome, i: nat, toServer: seq<Item>, toClient: seq<Item>)
    requires Ready(g, s, i, toServer, toClient) && !s.state.Done? && !o.Bad?
    requires got.Received? ==> toServer != [] && toServer[0] == Handshake(got.m)
    ensures Follows(g, Do(s, got, o), i, toServer, toClient)
  {
    hide Knows, At, Safe, DoRead, DoOther;
    if !Reads(s) {
      OtherFollows(g, s, o, i, toServer, toClient);
    } else if got.Received? {
      ReadFollows(g, s, o, i, toServer, toClient);
    } else {
      Waits(g, s, i, toServer, toClient);
    }
  }

  /** A server that waits waits for the client: for a message, or for ChangeCipherSpec. */
  lemma {:induction false} Expects(g: Setup, s: Server)
    requires Safe(s) && Knows(g, s) && (s.wait.ReadMessage? || s.wait.ReadCcs?)
    ensures PlaceOf(s) < Places(g.flags.resumed)
    ensures var k := Ahead(g, PlaceOf(s));
            && k < Places(g.flags.resumed) && TakenAt(g, k) && FromClientAt(g, k)
            && (ItemAt(g, k).Handshake? <==> s.wait.ReadMessage?)
  {
    hide SignedInFull, Before, Requests;
    NextComes(g, PlaceOf(s), PlaceOf(s));
  }

  /** What arrives when the server waits is what it waits for. */
  lemma ExpectedArrives(g: Setup, s: Server, i: nat, toServer: seq<Item>, toClient: seq<Item>)
    requires Safe(s) && Knows(g, s) && At(g, s, i, toServer, toClient) && toServer != []
    requires s.wait.ReadMessage? || s.wait.ReadCcs?
    ensures toServer[0].Handshake? <==> s.wait.ReadMessage?
  {
    hide Safe, Knows, PlaceOf, TakenAt, FromClientAt, ItemAt;
    Expects(g, s);
    FirstIsNext(g, PlaceOf(s), i);
  }

  lemma CcsKnown(g: Setup, s: Server)
    requires Knows(g, s) && s.wait.ReadCcs?
    ensures Knows(g, Await(s, Go)) && PlaceOf(Await(s, Go)) == PlaceOf(s) + 1
  {
  }

  lemma CcsTaken(g: Setup, s: Server, i: nat, toServer: seq<Item>, toClient: seq<Item>)
    requires Safe(s) && Knows(g, s) && At(g, s, i, toServer, toClient) && toServer != [] && s.wait.ReadCcs?
    ensures Knows(g, Await(s, Go))
    ensures At(g, Await(s, Go), i, toServer[1..], toClient)
  {
    hide ServerStands, Safe, Reads;
    CcsKnown(g, s);
    ServerHears(g, i, PlaceOf(s), PClientCcs, s.transcript, toServer, toClient + s.flight);
  }

  lemma Resumes(g: Setup, s: Server, i: nat, toServer: seq<Item>, toClient: seq<Item>)
    requires Knows(g, s) && At(g, s, i, toServer, toClient) && (s.wait.Again? || s.wait.ReadMessage?)
    ensures Knows(g, Await(s, Go))
    ensures At(g, Await(s, Go), i, toServer, toClient)
  {
    hide ServerStands, Reads;
  }

  lemma Flushed(g: Setup, s: Server, i: nat, toServer: seq<Item>, toClient: seq<Item>)
    requires Knows(g, s) && At(g, s, i, toServer, toClient) && s.wait.Flush?
    ensures Knows(g, s.(flight := [], wait := Go))
    ensures At(g, s.(flight := [], wait := Go), i, toServer, toClient + s.flight)
  {
    hide ServerStands, Reads;
    assert toClient + s.flight + [] == toClient + s.flight;
  }

  /** The items at hand are the first of those to come, and the message read is there. */
  predicate Arrived(e: End, inbox: seq<Item>, toServer: seq<Item>) {
    inbox <= toServer && (e.buffered ==> inbox != [] && inbox[0].Handshake?)
  }

  /** A turn follows the script, whatever has arrived so far. */
  lemma StepFollows(g: Setup, e: End, inbox: seq<Item>, o: Outcome, i: nat, toServer: seq<Item>, toClient: seq<Item>)
    requires && Safe(e.hs) && Knows(g, e.hs) && At(g, e.hs, i, toServer, toClient) && Arrived(e, inbox, toServer)
             && !o.Bad?
    ensures var t := Step(e, inbox, o);
            (t.taken ==> inbox != []) && (t.end.buffered ==> !t.taken && inbox != [] && inbox[0].Handshake?)
    ensures var t := Step(e, inbox, o);
            Knows(g, t.end.hs) && At(g, t.end.hs, i, if t.taken then toServer[1..] else toServer, toClient + t.sent)
  {
    hide Knows, At, Safe, Do, Await, Fail;
    assert toClient + [] == toClient;
    KnowsNoFailure(g, e.hs);
    var got := GetMessage(e.buffered, inbox);
    if e.hs.wait.Go? {
      if e.hs.state.Done? {
        DoneStays(e.hs, got, o);
      } else {
        TakesWhatItGot(e.hs, got, o);
        DoFollows(g, e.hs, got, o, i, toServer, toClient);
      }
    } else if e.hs.wait.Flush? {
      Flushed(g, e.hs, i, toServer, toClient);
    } else if e.hs.wait.Again? {
      Resumes(g, e.hs, i, toServer, toClient);
    } else if inbox != [] {
      ExpectedArrives(g, e.hs, i, toServer, toClient);
      if e.hs.wait.ReadMessage? {
        Resumes(g, e.hs, i, toServer, toClient);
      } else {
        CcsTaken(g, e.hs, i, toServer, toClient);
      }
    }
  }

  lemma KnowsNoFailure(g: Setup, s: Server)
    requires Knows(g, s)
    ensures !s.wait.Failed?
  {
  }

  /** A waiting side holds nothing back. */
  lemma WaitsEmptyHanded(g: Setup, s: Server)
    requires Knows(g, s) && (s.wait.ReadMessage? || s.wait.ReadCcs? || s.state.Done?)
    ensures s.flight == []
  {
  }
}
