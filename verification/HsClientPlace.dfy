/** Where a client stands in the script, and that its turns follow the script when the server
    does and no callback fails. */
module HsClientPlace {
  import opened HsMessages
  import opened HsClient

  function PlaceOf(c: Client): nat {
    match c.state
    case StartConnect => 0
    case EnterEarlyData => 1
    case ReadServerHello => 1
    case ReadServerCertificate => 2
    case ReadCertificateStatus => 3
    case VerifyServerCertificate => 4
    case ReadServerKeyExchange => 4
    case ReadCertificateRequest => 5
    case ReadServerHelloDone => 6
    case SendClientCertificate => 7
    case SendClientKeyExchange => 8
    case SendClientCertificateVerify => 9
    case SendClientFinished => if c.flags.resumed then 5 else 10
    case FinishFlight => if c.flags.resumed then 9 else 14
    case ReadSessionTicket => if c.flags.resumed then 2 else 14
    case ProcessChangeCipherSpec => (if c.flags.resumed then 3 else 15) + (if c.wait.ReadCcs? then 0 else 1)
    case ReadServerFinished => if c.flags.resumed then 4 else 16
    case FinishClientHandshake => if c.flags.resumed then 9 else 17
    case Done => if c.flags.resumed then 9 else 17
  }

  /** A flight is held back only as long as it is being put together, or about to be flushed. */
  predicate Sending(c: Client) {
    || c.wait.Flush? || c.state.SendClientKeyExchange? || c.state.SendClientCertificateVerify?
    || c.state.SendClientFinished?
  }

  /** What a client at its place knows. */
  ghost predicate Knows(g: Setup, c: Client) {
    && !c.wait.Failed?
    && (c.wait.ReadMessage? ==> Reads(c))
    && (c.wait.ReadCcs? ==> c.state.ProcessChangeCipherSpec?)
    && (c.state.Done? ==> c.wait.Go?)
    && (c.flight != [] ==> Sending(c))
    && c.hasCert == g.clientHasCert
    && (Rank(c) >= 3 ==> c.flags == g.flags)
    && (Rank(c) >= 8 ==> c.requested == g.certRequest)
    && (g.certRequest ==> g.flags.certAuth && !g.flags.resumed)
  }

  /** The client stands at its place; `toServer` and then its flight, and what is to come, are
      in step with the server's place `j`. */
  ghost predicate At(g: Setup, c: Client, j: nat, toServer: seq<Item>, toClient: seq<Item>) {
    ClientStands(g, PlaceOf(c), j, c.transcript, toServer + c.flight, toClient)
  }

  ghost predicate Ready(g: Setup, c: Client, j: nat, toServer: seq<Item>, toClient: seq<Item>) {
    c.wait.Go? && Safe(c) && Knows(g, c) && At(g, c, j, toServer, toClient)
  }

  ghost predicate Receives(g: Setup, c: Client, j: nat, toServer: seq<Item>, toClient: seq<Item>) {
    Ready(g, c, j, toServer, toClient) && Reads(c) && toClient != [] && toClient[0].Handshake?
  }

  /** The client after a turn stands at its place again. */
  ghost predicate Follows(g: Setup, t: Turn, j: nat, toServer: seq<Item>, toClient: seq<Item>) {
    && (t.Took? ==> toClient != [])
    && Knows(g, t.side) && At(g, t.side, j, toServer, if t.Took? then toClient[1..] else toClient)
  }

  lemma Behind(a: seq<Item>, b: seq<Item>, c: seq<Item>)
    ensures a + b + c == a + (b + c)
  {
  }

  lemma FullUntilTicket(c: Client)
    requires Safe(c) && Rank(c) < 14
    ensures !c.flags.resumed
  {
    hide SignedInFull;
  }

  lemma NotRequestedYet(c: Client)
    requires Safe(c) && Rank(c) <= 7
    ensures !c.requested
  {
    hide SignedInFull;
  }

  lemma HeldToSign(c: Client)
    requires Safe(c) && c.state.SendClientCertificateVerify?
    ensures c.requested && c.hasCert ==> Buffer(c) == c.transcript
  {
    hide SignedInFull;
  }

  // ------------------------------------------------------------------ one by one

  /** A callback is asked again, and nothing else happens. */
  lemma Asks(g: Setup, c: Client, j: nat, toServer: seq<Item>, toClient: seq<Item>)
    requires Ready(g, c, j, toServer, toClient) && !c.state.ProcessChangeCipherSpec? && !c.state.Done?
    ensures Knows(g, Await(c, Again))
    ensures At(g, Await(c, Again), j, toServer, toClient)
  {
    hide ClientStands, Safe, Reads;
  }

  lemma HelloSent(g: Setup, c: Client, j: nat, toServer: seq<Item>, toClient: seq<Item>)
    requires Ready(g, c, j, toServer, toClient) && c.state.StartConnect?
    ensures Knows(g, DoStartConnect(c, Good))
    ensures At(g, DoStartConnect(c, Good), j, toServer, toClient)
  {
    hide ClientStands, Safe;
    ClientSays(g, 0, j, PClientHello, c.transcript, toServer + c.flight, toClient);
    Behind(toServer, c.flight, [Handshake(ClientHello)]);
  }

  lemma HelloTaken(g: Setup, c: Client, j: nat, toServer: seq<Item>, toClient: seq<Item>)
    requires Receives(g, c, j, toServer, toClient) && c.state.ReadServerHello?
    ensures toClient[0].m.ServerHello?
    ensures Knows(g, DoReadServerHello(c, toClient[0].m, Good).side)
    ensures At(g, DoReadServerHello(c, toClient[0].m, Good).side, j, toServer, toClient[1..])
  {
    hide ClientStands, Safe;
    FullUntilTicket(c);
    NotRequestedYet(c);
    ClientHears(g, 1, j, PServerHello, c.transcript, toServer + c.flight, toClient);
  }

  lemma HelloRead(g: Setup, c: Client, o: Outcome, j: nat, toServer: seq<Item>, toClient: seq<Item>)
    requires Receives(g, c, j, toServer, toClient) && c.state.ReadServerHello? && !o.Bad?
    ensures Follows(g, DoReadServerHello(c, toClient[0].m, o), j, toServer, toClient)
  {
    hide Knows, At, Safe, Reads;
    HelloTaken(g, c, j, toServer, toClient);
  }

  lemma CertificateTaken(g: Setup, c: Client, j: nat, toServer: seq<Item>, toClient: seq<Item>)
    requires Receives(g, c, j, toServer, toClient) && c.state.ReadServerCertificate?
    ensures toClient[0].m == Certificate(true, false)
    ensures Knows(g, Take(c, toClient[0].m, ReadCertificateStatus))
    ensures At(g, Take(c, toClient[0].m, ReadCertificateStatus), j, toServer, toClient[1..])
  {
    hide ClientStands, Safe;
    FullUntilTicket(c);
    ClientHears(g, 2, j, PServerCert, c.transcript, toServer + c.flight, toClient);
  }

  lemma CertificateRead(g: Setup, c: Client, o: Outcome, j: nat, toServer: seq<Item>, toClient: seq<Item>)
    requires Receives(g, c, j, toServer, toClient) && c.state.ReadServerCertificate? && !o.Bad?
    ensures Follows(g, DoReadServerCertificate(c, toClient[0].m, o), j, toServer, toClient)
  {
    hide Knows, At, Safe, Reads;
    CertificateTaken(g, c, j, toServer, toClient);
  }

  lemma StatusTaken(g: Setup, c: Client, j: nat, toServer: seq<Item>, toClient: seq<Item>)
    requires Receives(g, c, j, toServer, toClient) && c.state.ReadCertificateStatus? && g.flags.certAuth
    ensures toClient[0].m.CertificateStatus?
    ensures Knows(g, Take(c, toClient[0].m, VerifyServerCertificate))
    ensures At(g, Take(c, toClient[0].m, VerifyServerCertificate), j, toServer, toClient[1..])
  {
    hide ClientStands, Safe;
    FullUntilTicket(c);
    ClientHears(g, 3, j, PStatus, c.transcript, toServer + c.flight, toClient);
  }

  lemma StatusPassed(g: Setup, c: Client, j: nat, toServer: seq<Item>, toClient: seq<Item>)
    requires Receives(g, c, j, toServer, toClient) && c.state.ReadCertificateStatus? && !g.flags.certAuth
    ensures !toClient[0].m.CertificateStatus?
    ensures Knows(g, GoTo(c, VerifyServerCertificate))
    ensures At(g, GoTo(c, VerifyServerCertificate), j, toServer, toClient)
  {
    hide ClientStands, Safe;
    FullUntilTicket(c);
    ClientSkips(g, 3, j, PStatus, c.transcript, toServer + c.flight, toClient);
    if g.KeyExchangeSent() {
      ClientHears(g, 4, j, PKeyExchange, c.transcript, toServer + c.flight, toClient);
    } else {
      ClientSkips(g, 4, j, PKeyExchange, c.transcript, toServer + c.flight, toClient);
      ClientSkips(g, 5, j, PRequest, c.transcript, toServer + c.flight, toClient);
      ClientHears(g, 6, j, PHelloDone, c.transcript, toServer + c.flight, toClient);
    }
  }

  lemma StatusRead(g: Setup, c: Client, o: Outcome, j: nat, toServer: seq<Item>, toClient: seq<Item>)
    requires Receives(g, c, j, toServer, toClient) && c.state.ReadCertificateStatus? && !o.Bad?
    ensures Follows(g, DoReadCertificateStatus(c, toClient[0].m, o), j, toServer, toClient)
  {
    hide Knows, At, Safe, Reads;
    if g.flags.certAuth {
      StatusTaken(g, c, j, toServer, toClient);
    } else {
      StatusPassed(g, c, j, toServer, toClient);
    }
  }

  lemma Unverified(g: Setup, c: Client, j: nat, toServer: seq<Item>, toClient: seq<Item>)
    requires Ready(g, c, j, toServer, toClient) && c.state.VerifyServerCertificate?
    ensures Knows(g, GoTo(c, ReadServerKeyExchange))
    ensures At(g, GoTo(c, ReadServerKeyExchange), j, toServer, toClient)
  {
    hide ClientStands, Safe, Reads;
  }

  lemma Verified(g: Setup, c: Client, j: nat, toServer: seq<Item>, toClient: seq<Item>)
    requires Ready(g, c, j, toServer, toClient) && c.state.VerifyServerCertificate?
    ensures Knows(g, GoTo(c.(verified := true), ReadServerKeyExchange))
    ensures At(g, GoTo(c.(verified := true), ReadServerKeyExchange), j, toServer, toClient)
  {
    hide ClientStands, Safe, Reads;
  }

  lemma ChainVerified(g: Setup, c: Client, o: Outcome, j: nat, toServer: seq<Item>, toClient: seq<Item>)
    requires Ready(g, c, j, toServer, toClient) && c.state.VerifyServerCertificate? && !o.Bad?
    ensures Knows(g, DoVerifyServerCertificate(c, o))
    ensures At(g, DoVerifyServerCertificate(c, o), j, toServer, toClient)
  {
    hide Knows, At, GoTo, Emit, Safe;
    Asks(g, c, j, toServer, toClient);
    Unverified(g, c, j, toServer, toClient);
    Verified(g, c, j, toServer, toClient);
  }

  lemma KeyExchangeTaken(g: Setup, c: Client, j: nat, toServer: seq<Item>, toClient: seq<Item>)
    requires Receives(g, c, j, toServer, toClient) && c.state.ReadServerKeyExchange? && g.KeyExchangeSent()
    ensures toClient[0].m.ServerKeyExchange?
    ensures Knows(g, Take(c, toClient[0].m, ReadCertificateRequest))
    ensures At(g, Take(c, toClient[0].m, ReadCertificateRequest), j, toServer, toClient[1..])
  {
    hide ClientStands, Safe;
    FullUntilTicket(c);
    ClientHears(g, 4, j, PKeyExchange, c.transcript, toServer + c.flight, toClient);
  }

  lemma KeyExchangePassed(g: Setup, c: Client, j: nat, toServer: seq<Item>, toClient: seq<Item>)
    requires Receives(g, c, j, toServer, toClient) && c.state.ReadServerKeyExchange? && !g.KeyExchangeSent()
    ensures !toClient[0].m.ServerKeyExchange? && !c.flags.requiresKeyExchange
    ensures Knows(g, GoTo(c, ReadCertificateRequest))
    ensures At(g, GoTo(c, ReadCertificateRequest), j, toServer, toClient)
  {
    hide ClientStands, Safe;
    FullUntilTicket(c);
    ClientSkips(g, 4, j, PKeyExchange, c.transcript, toServer + c.flight, toClient);
    if g.certRequest {
      ClientHears(g, 5, j, PRequest, c.transcript, toServer + c.flight, toClient);
    } else {
      ClientSkips(g, 5, j, PRequest, c.transcript, toServer + c.flight, toClient);
      ClientHears(g, 6, j, PHelloDone, c.transcript, toServer + c.flight, toClient);
    }
  }

  lemma KeyExchangeRead(g: Setup, c: Client, o: Outcome, j: nat, toServer: seq<Item>, toClient: seq<Item>)
    requires Receives(g, c, j, toServer, toClient) && c.state.ReadServerKeyExchange? && !o.Bad?
    ensures Follows(g, DoReadServerKeyExchange(c, toClient[0].m, o), j, toServer, toClient)
  {
    hide Knows, At, Safe, Reads;
    if g.KeyExchangeSent() {
      KeyExchangeTaken(g, c, j, toServer, toClient);
    } else {
      KeyExchangePassed(g, c, j, toServer, toClient);
    }
  }

  lemma RequestTaken(g: Setup, c: Client, j: nat, toServer: seq<Item>, toClient: seq<Item>)
    requires Receives(g, c, j, toServer, toClient) && c.state.ReadCertificateRequest? && g.certRequest
    ensures toClient[0].m.CertificateRequest?
    ensures Knows(g, Take(c.(requested := true), toClient[0].m, ReadServerHelloDone))
    ensures At(g, Take(c.(requested := true), toClient[0].m, ReadServerHelloDone),
               j, toServer, toClient[1..])
  {
    hide ClientStands, Safe;
    FullUntilTicket(c);
    ClientHears(g, 5, j, PRequest, c.transcript, toServer + c.flight, toClient);
  }

  lemma RequestPassed(g: Setup, c: Client, j: nat, toServer: seq<Item>, toClient: seq<Item>)
    requires Receives(g, c, j, toServer, toClient) && c.state.ReadCertificateRequest? && !g.certRequest
    ensures toClient[0].m.ServerHelloDone?
    ensures Knows(g, GoTo(c.(held := false), ReadServerHelloDone))
    ensures At(g, GoTo(c.(held := false), ReadServerHelloDone), j, toServer, toClient)
  {
    hide ClientStands, Safe;
    FullUntilTicket(c);
    NotRequestedYet(c);
    ClientSkips(g, 5, j, PRequest, c.transcript, toServer + c.flight, toClient);
    ClientHears(g, 6, j, PHelloDone, c.transcript, toServer + c.flight, toClient);
  }

  lemma RequestRead(g: Setup, c: Client, o: Outcome, j: nat, toServer: seq<Item>, toClient: seq<Item>)
    requires Receives(g, c, j, toServer, toClient) && c.state.ReadCertificateRequest? && !o.Bad?
    ensures Follows(g, DoReadCertificateRequest(c, toClient[0].m, o), j, toServer, toClient)
  {
    hide Knows, At, Safe, Reads;
    if g.certRequest {
      RequestTaken(g, c, j, toServer, toClient);
    } else {
      RequestPassed(g, c, j, toServer, toClient);
    }
  }

  lemma HelloDoneTaken(g: Setup, c: Client, j: nat, toServer: seq<Item>, toClient: seq<Item>)
    requires Receives(g, c, j, toServer, toClient) && c.state.ReadServerHelloDone?
    ensures toClient[0].m.ServerHelloDone?
    ensures Knows(g, Take(c, toClient[0].m, SendClientCertificate))
    ensures At(g, Take(c, toClient[0].m, SendClientCertificate), j, toServer, toClient[1..])
  {
    hide ClientStands, Safe;
    FullUntilTicket(c);
    ClientHears(g, 6, j, PHelloDone, c.transcript, toServer + c.flight, toClient);
  }

  lemma HelloDoneRead(g: Setup, c: Client, o: Outcome, j: nat, toServer: seq<Item>, toClient: seq<Item>)
    requires Receives(g, c, j, toServer, toClient) && c.state.ReadServerHelloDone? && !o.Bad?
    ensures Follows(g, DoReadServerHelloDone(c, toClient[0].m, o), j, toServer, toClient)
  {
    hide Knows, At, Safe, Reads;
    HelloDoneTaken(g, c, j, toServer, toClient);
  }

  lemma NoCertificateAsked(g: Setup, c: Client, j: nat, toServer: seq<Item>, toClient: seq<Item>)
    requires Ready(g, c, j, toServer, toClient) && c.state.SendClientCertificate? && !g.certRequest
    ensures Knows(g, GoTo(c, SendClientKeyExchange))
    ensures At(g, GoTo(c, SendClientKeyExchange), j, toServer, toClient)
  {
    hide ClientStands, Safe;
    FullUntilTicket(c);
    ClientSkips(g, 7, j, PClientCert, c.transcript, toServer + c.flight, toClient);
  }

  lemma CertificateSaid(g: Setup, c: Client, j: nat, toServer: seq<Item>, toClient: seq<Item>)
    requires Ready(g, c, j, toServer, toClient) && c.state.SendClientCertificate? && g.certRequest
    ensures Knows(g, GoTo(Emit(c.(held := c.held && c.hasCert), Certificate(false, !c.hasCert)), SendClientKeyExchange))
    ensures At(g, GoTo(Emit(c.(held := c.held && c.hasCert), Certificate(false, !c.hasCert)), SendClientKeyExchange),
               j, toServer, toClient)
  {
    hide ClientStands, Safe;
    FullUntilTicket(c);
    ClientSays(g, 7, j, PClientCert, c.transcript, toServer + c.flight, toClient);
    Behind(toServer, c.flight, [Handshake(Certificate(false, !c.hasCert))]);
  }

  lemma RequestKnown(g: Setup, c: Client)
    requires Knows(g, c) && (c.state.SendClientCertificate? || c.state.SendClientCertificateVerify?)
    ensures c.requested == g.certRequest && c.hasCert == g.clientHasCert
  {
  }

  lemma CertificateSent(g: Setup, c: Client, o: Outcome, j: nat, toServer: seq<Item>, toClient: seq<Item>)
    requires Ready(g, c, j, toServer, toClient) && c.state.SendClientCertificate? && !o.Bad?
    ensures Knows(g, DoSendClientCertificate(c, o))
    ensures At(g, DoSendClientCertificate(c, o), j, toServer, toClient)
  {
    hide Knows, At, GoTo, Emit, Safe;
    RequestKnown(g, c);
    Asks(g, c, j, toServer, toClient);
    if g.certRequest {
      CertificateSaid(g, c, j, toServer, toClient);
    } else {
      NoCertificateAsked(g, c, j, toServer, toClient);
    }
  }

  lemma KeySent(g: Setup, c: Client, j: nat, toServer: seq<Item>, toClient: seq<Item>)
    requires Ready(g, c, j, toServer, toClient) && c.state.SendClientKeyExchange?
    ensures Knows(g, DoSendClientKeyExchange(c, Good))
    ensures At(g, DoSendClientKeyExchange(c, Good), j, toServer, toClient)
  {
    hide ClientStands, Safe;
    FullUntilTicket(c);
    ClientSays(g, 8, j, PClientKey, c.transcript, toServer + c.flight, toClient);
    Behind(toServer, c.flight, [Handshake(ClientKeyExchange)]);
  }

  lemma NoVerifyAsked(g: Setup, c: Client, j: nat, toServer: seq<Item>, toClient: seq<Item>)
    requires Ready(g, c, j, toServer, toClient) && c.state.SendClientCertificateVerify?
    requires !g.certRequest || !g.clientHasCert
    ensures Knows(g, GoTo(c, SendClientFinished))
    ensures At(g, GoTo(c, SendClientFinished), j, toServer, toClient)
  {
    hide ClientStands, Safe;
    FullUntilTicket(c);
    ClientSkips(g, 9, j, PVerify, c.transcript, toServer + c.flight, toClient);
  }

  lemma VerifySaid(g: Setup, c: Client, j: nat, toServer: seq<Item>, toClient: seq<Item>)
    requires && Ready(g, c, j, toServer, toClient) && c.state.SendClientCertificateVerify? && g.certRequest
             && g.clientHasCert
    ensures Knows(g, GoTo(Emit(c, CertificateVerify(Buffer(c))).(held := false), SendClientFinished))
    ensures At(g, GoTo(Emit(c, CertificateVerify(Buffer(c))).(held := false), SendClientFinished),
               j, toServer, toClient)
  {
    hide ClientStands, Safe;
    FullUntilTicket(c);
    HeldToSign(c);
    ClientSays(g, 9, j, PVerify, c.transcript, toServer + c.flight, toClient);
    Behind(toServer, c.flight, [Handshake(CertificateVerify(c.transcript))]);
  }

  lemma VerifySent(g: Setup, c: Client, o: Outcome, j: nat, toServer: seq<Item>, toClient: seq<Item>)
    requires Ready(g, c, j, toServer, toClient) && c.state.SendClientCertificateVerify? && !o.Bad?
    ensures Knows(g, DoSendClientCertificateVerify(c, o))
    ensures At(g, DoSendClientCertificateVerify(c, o), j, toServer, toClient)
  {
    hide Knows, At, GoTo, Emit, Safe;
    RequestKnown(g, c);
    Asks(g, c, j, toServer, toClient);
    if g.certRequest && g.clientHasCert {
      VerifySaid(g, c, j, toServer, toClient);
    } else {
      NoVerifyAsked(g, c, j, toServer, toClient);
    }
  }

  lemma FlightGone(g: Setup, c: Client, j: nat, toServer: seq<Item>, toClient: seq<Item>)
    requires Ready(g, c, j, toServer, toClient) && c.state.FinishFlight? && c.flags.resumed
    ensures Knows(g, GoTo(c, FinishClientHandshake))
    ensures At(g, GoTo(c, FinishClientHandshake), j, toServer, toClient)
  {
    hide ClientStands, Safe, Reads;
  }

  lemma FlightGoesOn(g: Setup, c: Client, j: nat, toServer: seq<Item>, toClient: seq<Item>, wait: Wait)
    requires Ready(g, c, j, toServer, toClient) && c.state.FinishFlight? && !c.flags.resumed
    requires wait.Go? || wait.Again?
    ensures Knows(g, GoTo(c.(wait := wait), ReadSessionTicket))
    ensures At(g, GoTo(c.(wait := wait), ReadSessionTicket), j, toServer, toClient)
  {
    hide ClientStands, Safe, Reads;
  }

  lemma TicketTaken(g: Setup, c: Client, j: nat, toServer: seq<Item>, toClient: seq<Item>)
    requires Receives(g, c, j, toServer, toClient) && c.state.ReadSessionTicket?
    ensures toClient[0].m.NewSessionTicket?
    ensures Knows(g, DoReadSessionTicket(c, toClient[0].m, Good).side)
    ensures At(g, DoReadSessionTicket(c, toClient[0].m, Good).side, j, toServer, toClient[1..])
  {
    hide ClientStands, Safe;
    if g.flags.resumed {
      ClientHears(g, 2, j, PTicket, c.transcript, toServer + c.flight, toClient);
    } else {
      ClientHears(g, 14, j, PTicket, c.transcript, toServer + c.flight, toClient);
    }
  }

  lemma TicketRead(g: Setup, c: Client, o: Outcome, j: nat, toServer: seq<Item>, toClient: seq<Item>)
    requires Receives(g, c, j, toServer, toClient) && c.state.ReadSessionTicket? && !o.Bad?
    ensures Follows(g, DoReadSessionTicket(c, toClient[0].m, o), j, toServer, toClient)
  {
    hide Knows, At, Safe, Reads;
    TicketTaken(g, c, j, toServer, toClient);
  }

  lemma KeysRead(g: Setup, c: Client, j: nat, toServer: seq<Item>, toClient: seq<Item>)
    requires Ready(g, c, j, toServer, toClient) && c.state.ProcessChangeCipherSpec?
    ensures Knows(g, GoTo(c.(readKeys := true), ReadServerFinished))
    ensures At(g, GoTo(c.(readKeys := true), ReadServerFinished), j, toServer, toClient)
  {
    hide ClientStands, Safe, Reads;
  }

  lemma LastFinishedTaken(g: Setup, c: Client, j: nat, toServer: seq<Item>, toClient: seq<Item>)
    requires Receives(g, c, j, toServer, toClient) && c.state.ReadServerFinished? && !g.flags.resumed
    ensures toClient[0].m == Finished(true, c.transcript) && !c.flags.resumed
    ensures Knows(g, Take(c.(finishedOk := true), toClient[0].m, FinishClientHandshake))
    ensures At(g, Take(c.(finishedOk := true), toClient[0].m, FinishClientHandshake),
               j, toServer, toClient[1..])
  {
    hide ClientStands, Safe;
    ClientHears(g, 16, j, PServerFinished, c.transcript, toServer + c.flight, toClient);
  }

  lemma FirstFinishedTaken(g: Setup, c: Client, j: nat, toServer: seq<Item>, toClient: seq<Item>)
    requires Receives(g, c, j, toServer, toClient) && c.state.ReadServerFinished? && g.flags.resumed
    ensures toClient[0].m == Finished(true, c.transcript) && c.flags.resumed
    ensures Knows(g, Take(c.(finishedOk := true), toClient[0].m, SendClientFinished))
    ensures At(g, Take(c.(finishedOk := true), toClient[0].m, SendClientFinished),
               j, toServer, toClient[1..])
  {
    hide ClientStands, Safe;
    ClientHears(g, 4, j, PServerFinished, c.transcript, toServer + c.flight, toClient);
  }

  lemma FinishedRead(g: Setup, c: Client, o: Outcome, j: nat, toServer: seq<Item>, toClient: seq<Item>)
    requires Receives(g, c, j, toServer, toClient) && c.state.ReadServerFinished? && !o.Bad?
    ensures Follows(g, DoReadServerFinished(c, toClient[0].m), j, toServer, toClient)
  {
    hide Knows, At, Safe, Reads;
    if g.flags.resumed {
      FirstFinishedTaken(g, c, j, toServer, toClient);
    } else {
      LastFinishedTaken(g, c, j, toServer, toClient);
    }
  }

  lemma Entered(g: Setup, c: Client, j: nat, toServer: seq<Item>, toClient: seq<Item>)
    requires Ready(g, c, j, toServer, toClient) && c.state.EnterEarlyData?
    ensures Knows(g, GoTo(c, ReadServerHello))
    ensures At(g, GoTo(c, ReadServerHello), j, toServer, toClient)
  {
    hide ClientStands, Safe, Reads;
  }

  lemma CertificatePassed(g: Setup, c: Client, j: nat, toServer: seq<Item>, toClient: seq<Item>)
    requires Ready(g, c, j, toServer, toClient) && c.state.ReadServerCertificate? && !Reads(c)
    ensures Knows(g, GoTo(c, ReadCertificateStatus))
    ensures At(g, GoTo(c, ReadCertificateStatus), j, toServer, toClient)
  {
    hide ClientStands, Safe;
    FullUntilTicket(c);
    ClientSkips(g, 2, j, PServerCert, c.transcript, toServer + c.flight, toClient);
  }

  lemma StatusNotExpected(g: Setup, c: Client, j: nat, toServer: seq<Item>, toClient: seq<Item>)
    requires Ready(g, c, j, toServer, toClient) && c.state.ReadCertificateStatus? && !Reads(c)
    ensures Knows(g, GoTo(c, VerifyServerCertificate))
    ensures At(g, GoTo(c, VerifyServerCertificate), j, toServer, toClient)
  {
    hide ClientStands, Safe;
    FullUntilTicket(c);
    ClientSkips(g, 3, j, PStatus, c.transcript, toServer + c.flight, toClient);
  }

  lemma RequestNotExpected(g: Setup, c: Client, j: nat, toServer: seq<Item>, toClient: seq<Item>)
    requires Ready(g, c, j, toServer, toClient) && c.state.ReadCertificateRequest? && !Reads(c)
    ensures Knows(g, GoTo(c, ReadServerHelloDone))
    ensures At(g, GoTo(c, ReadServerHelloDone), j, toServer, toClient)
  {
    hide ClientStands, Safe;
    FullUntilTicket(c);
    NotRequestedYet(c);
    ClientSkips(g, 5, j, PRequest, c.transcript, toServer + c.flight, toClient);
  }

  lemma TicketPassed(g: Setup, c: Client, j: nat, toServer: seq<Item>, toClient: seq<Item>)
    requires Ready(g, c, j, toServer, toClient) && c.state.ReadSessionTicket? && !Reads(c)
    ensures Knows(g, GoTo(c.(wait := ReadCcs), ProcessChangeCipherSpec))
    ensures At(g, GoTo(c.(wait := ReadCcs), ProcessChangeCipherSpec), j, toServer, toClient)
  {
    hide ClientStands, Safe;
    if g.flags.resumed {
      ClientSkips(g, 2, j, PTicket, c.transcript, toServer + c.flight, toClient);
    } else {
      ClientSkips(g, 14, j, PTicket, c.transcript, toServer + c.flight, toClient);
    }
  }

  lemma Completed(g: Setup, c: Client, j: nat, toServer: seq<Item>, toClient: seq<Item>)
    requires Ready(g, c, j, toServer, toClient) && c.state.FinishClientHandshake?
    ensures Knows(g, GoTo(c, Done))
    ensures At(g, GoTo(c, Done), j, toServer, toClient)
  {
    hide ClientStands, Safe, Reads;
  }

  lemma Waits(g: Setup, c: Client, j: nat, toServer: seq<Item>, toClient: seq<Item>)
    requires Ready(g, c, j, toServer, toClient) && Reads(c)
    ensures Knows(g, Await(c, ReadMessage))
    ensures At(g, Await(c, ReadMessage), j, toServer, toClient)
  {
    hide ClientStands, Safe;
  }

  /** What the client says at a place of its last flight, if anything. */
  lemma ClientAdds(g: Setup, i: nat, j: nat, p: Place, t: seq<Message>, item: Item, toServer: seq<Item>, flight:
                   seq<Item>, toClient: seq<Item>)
    requires ClientStands(g, i, j, t, toServer + flight, toClient)
    requires i < Places(g.flags.resumed) && p == PlaceAt(g.flags.resumed, i) && FromClient(p)
    requires Taken(g, p) ==> item == ItemFor(g, p, t)
    ensures ClientStands(g, i + 1, j, if Taken(g, p) then Hashed(t, item) else t,
                         toServer + (flight + if Taken(g, p) then [item] else []), toClient)
  {
    hide ClientStands, PlaceAt, FromClient, ItemFor;
    if Taken(g, p) {
      ClientSays(g, i, j, p, t, toServer + flight, toClient);
      Behind(toServer, flight, [item]);
    } else {
      ClientSkips(g, i, j, p, t, toServer + flight, toClient);
      assert flight + [] == flight;
    }
  }

  lemma NextProtoSays(g: Setup, c: Client, i: nat, j: nat, toServer: seq<Item>, toClient: seq<Item>)
    requires ClientStands(g, i, j, c.transcript, toServer + c.flight, toClient)
    requires c.flags == g.flags && i == if g.flags.resumed then 5 else 10
    ensures var npn: seq<Item> := if c.flags.npn then [Handshake(NextProto)] else [];
            ClientStands(g, i + 2, j, AfterNextProto(c), toServer + (c.flight + [ChangeCipherSpec] + npn), toClient)
  {
    hide ClientStands;
    ClientAdds(g, i, j, PClientCcs, c.transcript, ChangeCipherSpec, toServer, c.flight, toClient);
    ClientAdds(g, i + 1, j, PNextProto, c.transcript, Handshake(NextProto), toServer,
               c.flight + [ChangeCipherSpec], toClient);
  }

  lemma ChannelIdSays(g: Setup, c: Client, i: nat, j: nat, toServer: seq<Item>, flight: seq<Item>, toClient: seq<Item>)
    requires ClientStands(g, i, j, AfterNextProto(c), toServer + flight, toClient)
    requires c.flags == g.flags && i == if g.flags.resumed then 7 else 12
    ensures var id: seq<Item> := if c.flags.channelId then [Handshake(ChannelId(AfterNextProto(c)))] else [];
            ClientStands(g, i + 2, j, WithFinished(c),
                         toServer + (flight + id + [Handshake(Finished(false, AfterChannelId(c)))]), toClient)
  {
    hide ClientStands, AfterNextProto;
    var id: seq<Item> := if c.flags.channelId then [Handshake(ChannelId(AfterNextProto(c)))] else [];
    ClientAdds(g, i, j, PChannelId, AfterNextProto(c), Handshake(ChannelId(AfterNextProto(c))), toServer, flight,
               toClient);
    ClientAdds(g, i + 1, j, PClientFinished, AfterChannelId(c), Handshake(Finished(false, AfterChannelId(c))),
               toServer, flight + id, toClient);
  }

  /** ChangeCipherSpec, NextProto, ChannelId and Finished, from the place `i` on. */
  lemma LastFlightSays(g: Setup, c: Client, i: nat, j: nat, toServer: seq<Item>, toClient: seq<Item>)
    requires ClientStands(g, i, j, c.transcript, toServer + c.flight, toClient)
    requires c.flags == g.flags && i == if g.flags.resumed then 5 else 10
    ensures ClientStands(g, i + 4, j, WithFinished(c), toServer + (c.flight + LastFlight(c)), toClient)
  {
    hide ClientStands, WithFinished, AfterNextProto, AfterChannelId;
    var npn: seq<Item> := if c.flags.npn then [Handshake(NextProto)] else [];
    var id: seq<Item> := if c.flags.channelId then [Handshake(ChannelId(AfterNextProto(c)))] else [];
    var finished := [Handshake(Finished(false, AfterChannelId(c)))];
    NextProtoSays(g, c, i, j, toServer, toClient);
    ChannelIdSays(g, c, i + 2, j, toServer, c.flight + [ChangeCipherSpec] + npn, toClient);
    assert c.flight + [ChangeCipherSpec] + npn + id + finished == c.flight + ([ChangeCipherSpec] + npn + id + finished);
  }

  lemma FinishedSaid(g: Setup, c: Client, j: nat, toServer: seq<Item>, toClient: seq<Item>)
    requires Ready(g, c, j, toServer, toClient) && c.state.SendClientFinished?
    ensures Knows(g, DoSendClientFinished(c, Good))
    ensures At(g, DoSendClientFinished(c, Good), j, toServer, toClient)
  {
    hide ClientStands, Safe, Reads, WithFinished, LastFlight;
    LastFlightSays(g, c, PlaceOf(c), j, toServer, toClient);
  }

  // -------------------------------------------------------------------- together

  lemma ReadFollows(g: Setup, c: Client, o: Outcome, j: nat, toServer: seq<Item>, toClient: seq<Item>)
    requires Receives(g, c, j, toServer, toClient) && !o.Bad?
    ensures Follows(g, DoRead(c, toClient[0].m, o), j, toServer, toClient)
  {
    hide Knows, At, Safe, DoReadServerHello, DoReadServerCertificate, DoReadCertificateStatus, DoReadServerKeyExchange,
         DoReadCertificateRequest, DoReadServerHelloDone, DoReadSessionTicket, DoReadServerFinished;
    match c.state {
      case ReadServerHello => HelloRead(g, c, o, j, toServer, toClient);
      case ReadServerCertificate => CertificateRead(g, c, o, j, toServer, toClient);
      case ReadCertificateStatus => StatusRead(g, c, o, j, toServer, toClient);
      case ReadServerKeyExchange => KeyExchangeRead(g, c, o, j, toServer, toClient);
      case ReadCertificateRequest => RequestRead(g, c, o, j, toServer, toClient);
      case ReadServerHelloDone => HelloDoneRead(g, c, o, j, toServer, toClient);
      case ReadSessionTicket => TicketRead(g, c, o, j, toServer, toClient);
      case ReadServerFinished => FinishedRead(g, c, o, j, toServer, toClient);
    }
  }

  lemma SendingFollows(g: Setup, c: Client, o: Outcome, j: nat, toServer: seq<Item>, toClient: seq<Item>)
    requires Ready(g, c, j, toServer, toClient) && !o.Bad?
    requires || c.state.StartConnect? || c.state.SendClientKeyExchange? || c.state.SendClientFinished?
             || c.state.FinishFlight?
    ensures Knows(g, DoOther(c, o)) && At(g, DoOther(c, o), j, toServer, toClient)
  {
    hide Knows, At, Safe, WithFinished, LastFlight, Emit;
    match c.state {
      case StartConnect => HelloSent(g, c, j, toServer, toClient);
      case SendClientKeyExchange => KeySent(g, c, j, toServer, toClient);
      case SendClientFinished =>
        Asks(g, c, j, toServer, toClient);
        FinishedSaid(g, c, j, toServer, toClient);
      case FinishFlight =>
        if c.flags.resumed {
          FlightGone(g, c, j, toServer, toClient);
        } else {
          FlightGoesOn(g, c, j, toServer, toClient, if o.Retry? then Again else Go);
        }
    }
  }

  lemma OtherFollows(g: Setup, c: Client, o: Outcome, j: nat, toServer: seq<Item>, toClient: seq<Item>)
    requires Ready(g, c, j, toServer, toClient) && !Reads(c) && !c.state.Done? && !o.Bad?
    ensures Knows(g, DoOther(c, o)) && At(g, DoOther(c, o), j, toServer, toClient)
  {
    hide Knows, At, Safe, DoStartConnect, DoVerifyServerCertificate, DoSendClientCertificate, DoSendClientKeyExchange,
         DoSendClientCertificateVerify, DoSendClientFinished, DoFinishFlight;
    match c.state {
      case EnterEarlyData => Entered(g, c, j, toServer, toClient);
      case ReadServerCertificate => CertificatePassed(g, c, j, toServer, toClient);
      case ReadCertificateStatus => StatusNotExpected(g, c, j, toServer, toClient);
      case VerifyServerCertificate => ChainVerified(g, c, o, j, toServer, toClient);
      case ReadCertificateRequest => RequestNotExpected(g, c, j, toServer, toClient);
      case SendClientCertificate => CertificateSent(g, c, o, j, toServer, toClient);
      case SendClientCertificateVerify => VerifySent(g, c, o, j, toServer, toClient);
      case ReadSessionTicket => TicketPassed(g, c, j, toServer, toClient);
      case ProcessChangeCipherSpec => KeysRead(g, c, j, toServer, toClient);
      case FinishClientHandshake => Completed(g, c, j, toServer, toClient);
      case _ => SendingFollows(g, c, o, j, toServer, toClient);
    }
  }

  lemma DoFollows(g: Setup, c: Client, got: Received, o: Outcome, j: nat, toServer: seq<Item>, toClient: seq<Item>)
    requires Ready(g, c, j, toServer, toClient) && !c.state.Done? && !o.Bad?
    requires got.Received? ==> toClient != [] && toClient[0] == Handshake(got.m)
    ensures Follows(g, Do(c, got, o), j, toServer, toClient)
  {
    hide Knows, At, Safe, DoRead, DoOther;
    if !Reads(c) {
      OtherFollows(g, c, o, j, toServer, toClient);
    } else if got.Received? {
      ReadFollows(g, c, o, j, toServer, toClient);
    } else {
      Waits(g, c, j, toServer, toClient);
    }
  }

  /** A client that waits waits for the server: for a message, or for ChangeCipherSpec. */
  lemma Expects(g: Setup, c: Client)
    requires Safe(c) && Knows(g, c) && (c.wait.ReadMessage? || c.wait.ReadCcs?)
    ensures PlaceOf(c) < Places(g.flags.resumed)
    ensures var k := Ahead(g, PlaceOf(c));
            && k < Places(g.flags.resumed) && TakenAt(g, k) && !FromClientAt(g, k)
            && (ItemAt(g, k).Handshake? <==> c.wait.ReadMessage?)
  {
    hide SignedInFull, Before;
    if Rank(c) <= 8 {
      HelloExpected(g, PlaceOf(c));
    } else {
      NextComes(g, PlaceOf(c), PlaceOf(c));
    }
  }

  lemma HelloExpected(g: Setup, i: nat)
    requires i == 1 || (1 <= i <= 6 && !g.flags.resumed)
    ensures var k := Ahead(g, i);
            k < Places(g.flags.resumed) && TakenAt(g, k) && !FromClientAt(g, k) && ItemAt(g, k).Handshake?
  {
    hide Before;
    NextComes(g, i, if i == 1 then 1 else 6);
  }

  /** What arrives when the client waits is what it waits for. */
  lemma ExpectedArrives(g: Setup, c: Client, j: nat, toServer: seq<Item>, toClient: seq<Item>)
    requires Safe(c) && Knows(g, c) && At(g, c, j, toServer, toClient) && toClient != []
    requires c.wait.ReadMessage? || c.wait.ReadCcs?
    ensures toClient[0].Handshake? <==> c.wait.ReadMessage?
  {
    hide Safe, Knows, PlaceOf, TakenAt, FromClientAt, ItemAt;
    Expects(g, c);
    FirstIsNext(g, PlaceOf(c), j);
  }

  lemma CcsTaken(g: Setup, c: Client, j: nat, toServer: seq<Item>, toClient: seq<Item>)
    requires Safe(c) && Knows(g, c) && At(g, c, j, toServer, toClient) && toClient != [] && c.wait.ReadCcs?
    ensures Knows(g, Await(c, Go))
    ensures At(g, Await(c, Go), j, toServer, toClient[1..])
  {
    hide ClientStands, Safe, Reads;
    ClientHears(g, PlaceOf(c), j, PServerCcs, c.transcript, toServer + c.flight, toClient);
  }

  lemma Resumes(g: Setup, c: Client, j: nat, toServer: seq<Item>, toClient: seq<Item>)
    requires Knows(g, c) && At(g, c, j, toServer, toClient) && (c.wait.Again? || c.wait.ReadMessage?)
    ensures Knows(g, Await(c, Go))
    ensures At(g, Await(c, Go), j, toServer, toClient)
  {
    hide ClientStands, Reads;
  }

  lemma Flushed(g: Setup, c: Client, j: nat, toServer: seq<Item>, toClient: seq<Item>)
    requires Knows(g, c) && At(g, c, j, toServer, toClient) && c.wait.Flush?
    ensures Knows(g, c.(flight := [], wait := Go))
    ensures At(g, c.(flight := [], wait := Go), j, toServer + c.flight, toClient)
  {
    hide ClientStands, Reads;
    assert toServer + c.flight + [] == toServer + c.flight;
  }

  /** The items at hand are the first of those to come, and the message read is there. */
  predicate Arrived(e: End, inbox: seq<Item>, toClient: seq<Item>) {
    inbox <= toClient && (e.buffered ==> inbox != [] && inbox[0].Handshake?)
  }

  /** A turn follows the script, whatever has arrived so far. */
  lemma StepFollows(g: Setup, e: End, inbox: seq<Item>, o: Outcome, j: nat, toServer: seq<Item>, toClient: seq<Item>)
    requires && Safe(e.hs) && Knows(g, e.hs) && At(g, e.hs, j, toServer, toClient) && Arrived(e, inbox, toClient)
             && !o.Bad?
    ensures var t := Step(e, inbox, o);
            (t.taken ==> inbox != []) && (t.end.buffered ==> !t.taken && inbox != [] && inbox[0].Handshake?)
    ensures var t := Step(e, inbox, o);
            Knows(g, t.end.hs) && At(g, t.end.hs, j, toServer + t.sent, if t.taken then toClient[1..] else toClient)
  {
    hide Knows, At, Safe, Do, Await, Fail;
    assert toServer + [] == toServer;
    KnowsNoFailure(g, e.hs);
    var got := GetMessage(e.buffered, inbox);
    if e.hs.wait.Go? {
      if e.hs.state.Done? {
        DoneStays(e.hs, got, o);
      } else {
        TakesWhatItGot(e.hs, got, o);
        DoFollows(g, e.hs, got, o, j, toServer, toClient);
      }
    } else if e.hs.wait.Flush? {
      Flushed(g, e.hs, j, toServer, toClient);
    } else if e.hs.wait.Again? {
      Resumes(g, e.hs, j, toServer, toClient);
    } else if inbox != [] {
      ExpectedArrives(g, e.hs, j, toServer, toClient);
      if e.hs.wait.ReadMessage? {
        Resumes(g, e.hs, j, toServer, toClient);
      } else {
        CcsTaken(g, e.hs, j, toServer, toClient);
      }
    }
  }

  lemma KnowsNoFailure(g: Setup, c: Client)
    requires Knows(g, c)
    ensures !c.wait.Failed?
  {
  }

  /** A waiting side holds nothing back. */
  lemma WaitsEmptyHanded(g: Setup, c: Client)
    requires Knows(g, c) && (c.wait.ReadMessage? || c.wait.ReadCcs? || c.state.Done?)
    ensures c.flight == []
  {
  }
}
