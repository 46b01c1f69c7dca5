/** The server side of the TLS 1.0 to 1.2 handshake: one function for every state, and what
    holds of the server whatever it is sent. */
module HsServer {
  import opened HsMessages

  datatype State =
    | StartAccept | ReadClientHello | SelectCertificate | SelectParameters | SendServerHello
    | SendServerCertificate | SendServerKeyExchange | SendServerHelloDone | ReadClientCertificate
    | VerifyClientCertificate | ReadClientKeyExchange | ReadClientCertificateVerify
    | ReadChangeCipherSpec | ProcessChangeCipherSpec | ReadNextProto | ReadChannelId
    | ReadClientFinished | SendServerFinished | FinishServerHandshake | Done

  /** What the server settles on when it has read the ClientHello. */
  datatype Config = Config(flags: Flags, verifyPeer: bool, hint: bool)

  /** The members of `SSL_HANDSHAKE` and its connection that the states look at or change. */
  datatype Server = Server(state: State, wait: Wait, flight: seq<Item>, config: Config,
                           requested: bool, peerCert: bool, transcript: seq<Message>, held: bool,
                           verified: bool, signed: bool, readKeys: bool, writeKeys: bool, finishedOk: bool)

  function Initial(config: Config): Server {
    Server(StartAccept, Go, [], config, false, false, [], true, false, false, false, false, false)
  }

  /** The side after a turn that had a message to read, and whether the message was taken. */
  datatype Turn = Kept(side: Server) | Took(side: Server)

  function Fail(s: Server): Server {
    s.(wait := Failed)
  }

  function Await(s: Server, wait: Wait): Server {
    s.(wait := wait)
  }

  function GoTo(s: Server, state: State): Server {
    s.(state := state)
  }

  /** The message is hashed, and then released. */
  function Take(s: Server, m: Message, state: State): Server {
    s.(transcript := s.transcript + [m], state := state)
  }

  function Emit(s: Server, m: Message): Server {
    s.(transcript := s.transcript + [m], flight := s.flight + [Handshake(m)])
  }

  // -------------------------------------------------------------- state by state

  /** The ClientHello stays where it is until the parameters are selected. */
  function DoReadClientHello(s: Server, m: Message, o: Outcome): Turn {
    if !m.ClientHello? || o.Bad? then Kept(Fail(s))
    else if o.Retry? then Kept(Await(s, Again))
    else Kept(GoTo(s, SelectCertificate))
  }

  function DoSelectCertificate(s: Server, m: Message, o: Outcome): Turn {
    if !m.ClientHello? || o.Bad? then Kept(Fail(s))
    else if o.Retry? then Kept(Await(s, Again))
    else Kept(GoTo(s, SelectParameters))
  }

  /** A certificate is requested in full handshakes with certificate ciphers only. */
  predicate Requests(config: Config) {
    !config.flags.resumed && config.verifyPeer && config.flags.certAuth
  }

  function DoSelectParameters(s: Server, m: Message, o: Outcome): Turn {
    if !m.ClientHello? || o.Bad? then Kept(Fail(s))
    else if o.Retry? then Kept(Await(s, Again))
    else
      Took(Take(s.(requested := Requests(s.config), held := s.held && Requests(s.config)), m, SendServerHello))
  }

  function DoSendServerHello(s: Server, o: Outcome): Server {
    if o.Bad? then Fail(s)
    else
      GoTo(Emit(s, ServerHello(s.config.flags)),
           if s.config.flags.resumed then SendServerFinished else SendServerCertificate)
  }

  function AfterCertificate(s: Server): seq<Message> {
    if s.config.flags.certAuth then s.transcript + [Certificate(true, false)] else s.transcript
  }

  function AfterStatus(s: Server): seq<Message> {
    if s.config.flags.certAuth && s.config.flags.status then AfterCertificate(s) + [CertificateStatus]
    else AfterCertificate(s)
  }

  function Certificates(s: Server): seq<Item> {
    (if s.config.flags.certAuth then [Handshake(Certificate(true, false))] else [])
    + (if s.config.flags.certAuth && s.config.flags.status then [Handshake(CertificateStatus)] else [])
  }

  function DoSendServerCertificate(s: Server, o: Outcome): Server {
    if o.Bad? then Fail(s)
    else GoTo(s.(transcript := AfterStatus(s), flight := s.flight + Certificates(s)), SendServerKeyExchange)
  }

  function DoSendServerKeyExchange(s: Server, o: Outcome): Server {
    if !s.config.flags.requiresKeyExchange && (s.config.flags.certAuth || !s.config.hint) then
      GoTo(s, SendServerHelloDone)
    else if o.Bad? then Fail(s)
    else if s.config.flags.certAuth && o.Retry? then Await(s, Again)
    else GoTo(Emit(s, ServerKeyExchange), SendServerHelloDone)
  }

  function AfterRequest(s: Server): seq<Message> {
    if s.requested then s.transcript + [CertificateRequest] else s.transcript
  }

  function HelloDone(s: Server): seq<Item> {
    (if s.requested then [Handshake(CertificateRequest)] else []) + [Handshake(ServerHelloDone)]
  }

  function DoSendServerHelloDone(s: Server, o: Outcome): Server {
    if o.Bad? then Fail(s)
    else
      s.(transcript := AfterRequest(s) + [ServerHelloDone], flight := s.flight + HelloDone(s),
         state := ReadClientCertificate, wait := Flush)
  }

  function DoReadClientCertificate(s: Server, m: Message, o: Outcome): Turn {
    if !m.Certificate? || o.Bad? then Kept(Fail(s))
    else Took(Take(s.(peerCert := !m.empty, held := s.held && !m.empty), m, VerifyClientCertificate))
  }

  function DoVerifyClientCertificate(s: Server, o: Outcome): Server {
    if !s.peerCert then GoTo(s, ReadClientKeyExchange)
    else if o.Bad? then Fail(s)
    else if o.Retry? then Await(s, Again)
    else GoTo(s.(verified := true), ReadClientKeyExchange)
  }

  /** Decrypting the premaster secret may have to be asked for again. */
  function DoReadClientKeyExchange(s: Server, m: Message, o: Outcome): Turn {
    if !m.ClientKeyExchange? || o.Bad? then Kept(Fail(s))
    else if o.Retry? then Kept(Await(s, Again))
    else Took(Take(s, m, ReadClientCertificateVerify))
  }

  /** What a signature over the handshake buffer is checked against. */
  function Buffer(s: Server): seq<Message> {
    if s.held then s.transcript else []
  }

  function DoReadClientCertificateVerify(s: Server, m: Message, o: Outcome): Turn {
    if m != CertificateVerify(Buffer(s)) || o.Bad? then Kept(Fail(s))
    else Took(Take(s.(held := false, signed := true), m, ReadChangeCipherSpec))
  }

  function DoProcessChangeCipherSpec(s: Server, o: Outcome): Server {
    if o.Bad? then Fail(s) else GoTo(s.(readKeys := true), ReadNextProto)
  }

  function DoReadNextProto(s: Server, m: Message, o: Outcome): Turn {
    if !m.NextProto? || o.Bad? then Kept(Fail(s)) else Took(Take(s, m, ReadChannelId))
  }

  function DoReadChannelId(s: Server, m: Message, o: Outcome): Turn {
    if m != ChannelId(s.transcript) || o.Bad? then Kept(Fail(s)) else Took(Take(s, m, ReadClientFinished))
  }

  /** The MAC is computed over the transcript before the message is hashed itself. */
  function DoReadClientFinished(s: Server, m: Message, o: Outcome): Turn {
    if m != Finished(false, s.transcript) || o.Bad? then Kept(Fail(s))
    else
      Took(Take(s.(finishedOk := true), m,
                 if s.config.flags.resumed then FinishServerHandshake else SendServerFinished))
  }

  function AfterTicket(s: Server): seq<Message> {
    if s.config.flags.ticket then s.transcript + [NewSessionTicket] else s.transcript
  }

  /** The transcript behind the server's last flight; the MAC covers all in front of it. */
  function WithFinished(s: Server): seq<Message> {
    AfterTicket(s) + [Finished(true, AfterTicket(s))]
  }

  function LastFlight(s: Server): seq<Item> {
    (if s.config.flags.ticket then [Handshake(NewSessionTicket)] else [])
    + [ChangeCipherSpec] + [Handshake(Finished(true, AfterTicket(s)))]
  }

  function DoSendServerFinished(s: Server, o: Outcome): Server {
    if o.Bad? then Fail(s)
    else
      s.(flight := s.flight + LastFlight(s), transcript := WithFinished(s), writeKeys := true, wait := Flush,
         state := if s.config.flags.resumed then ReadChangeCipherSpec else FinishServerHandshake)
  }

  /** The states that read a message do so only when their message is to be expected. */
  predicate Reads(s: Server) {
    match s.state
    case ReadClientHello => true
    case SelectCertificate => true
    case SelectParameters => true
    case ReadClientCertificate => s.requested
    case ReadClientKeyExchange => true
    case ReadClientCertificateVerify => s.peerCert
    case ReadNextProto => s.config.flags.npn
    case ReadChannelId => s.config.flags.channelId
    case ReadClientFinished => true
    case _ => false
  }

  function DoRead(s: Server, m: Message, o: Outcome): Turn
    requires Reads(s)
  {
    match s.state
    case ReadClientHello => DoReadClientHello(s, m, o)
    case SelectCertificate => DoSelectCertificate(s, m, o)
    case SelectParameters => DoSelectParameters(s, m, o)
    case ReadClientCertificate => DoReadClientCertificate(s, m, o)
    case ReadClientKeyExchange => DoReadClientKeyExchange(s, m, o)
    case ReadClientCertificateVerify => DoReadClientCertificateVerify(s, m, o)
    case ReadNextProto => DoReadNextProto(s, m, o)
    case ReadChannelId => DoReadChannelId(s, m, o)
    case ReadClientFinished => DoReadClientFinished(s, m, o)
  }

  /** States that have nothing to do, because their message is not to be expected or at all. */
  function DoNothing(s: Server): Server {
    match s.state
    case StartAccept => GoTo(s, ReadClientHello)
    case ReadClientCertificate => GoTo(s, VerifyClientCertificate)
    case ReadClientCertificateVerify => GoTo(s.(held := false), ReadChangeCipherSpec)
    case ReadChangeCipherSpec => GoTo(s.(wait := ReadCcs), ProcessChangeCipherSpec)
    case ReadNextProto => GoTo(s, ReadChannelId)
    case ReadChannelId => GoTo(s, ReadClientFinished)
    case FinishServerHandshake => GoTo(s, Done)
    case _ => s
  }

  function DoOther(s: Server, o: Outcome): Server
    requires !Reads(s)
  {
    match s.state
    case SendServerHello => DoSendServerHello(s, o)
    case SendServerCertificate => DoSendServerCertificate(s, o)
    case SendServerKeyExchange => DoSendServerKeyExchange(s, o)
    case SendServerHelloDone => DoSendServerHelloDone(s, o)
    case VerifyClientCertificate => DoVerifyClientCertificate(s, o)
    case ProcessChangeCipherSpec => DoProcessChangeCipherSpec(s, o)
    case SendServerFinished => DoSendServerFinished(s, o)
    case _ => DoNothing(s)
  }

  /** One turn of the loop of `ssl_server_handshake`, with what `get_message` gives. */
  function Do(s: Server, got: Received, o: Outcome): Turn {
    if !Reads(s) then Kept(DoOther(s, o))
    else if got.NoMessage? then Kept(Await(s, ReadMessage))
    else DoRead(s, got.m, o)
  }

  /** A side of the connection: its handshake, and whether a message has been read for it. */
  datatype End = End(hs: Server, buffered: bool)

  /** The side after a turn, whether it took the first item that arrived, and what it sent. */
  datatype Moved = Moved(end: End, taken: bool, sent: seq<Item>)

  /** One turn of `ssl_run_handshake`: what was waited for is resolved, or the loop goes on. */
  function Step(e: End, inbox: seq<Item>, o: Outcome): Moved {
    match e.hs.wait
    case Failed => Moved(e, false, [])
    case Go =>
      var t := Do(e.hs, GetMessage(e.buffered, inbox), o);
      Moved(End(t.side, e.buffered && t.Kept?), t.Took?, [])
    case Again => Moved(e.(hs := Await(e.hs, Go)), false, [])
    case Flush => Moved(e.(hs := e.hs.(flight := [], wait := Go)), false, e.hs.flight)
    case ReadMessage =>
      if inbox == [] then Moved(e, false, [])
      else if inbox[0].Handshake? then Moved(End(Await(e.hs, Go), true), false, [])
      else Moved(e.(hs := Fail(e.hs)), false, [])
    case ReadCcs =>
      if inbox == [] then Moved(e, false, [])
      else if inbox[0].ChangeCipherSpec? then Moved(e.(hs := Await(e.hs, Go)), true, [])
      else Moved(e.(hs := Fail(e.hs)), false, [])
  }

  // ------------------------------------------------------------- control safety

  /** Any run against any peer: at every turn some items have arrived, and the content of a
      message and the callbacks come out as they like. */
  datatype Input = Input(inbox: seq<Item>, outcome: Outcome)

  function Run(config: Config, inputs: seq<Input>): End {
    if inputs == [] then End(Initial(config), false)
    else
      var last := inputs[|inputs| - 1];
      Step(Run(config, inputs[..|inputs| - 1]), last.inbox, last.outcome).end
  }

  /** How far a state is along the handshake; a resumed session has the server's Finished
      before the client's. */
  function Rank(s: Server): (n: nat)
    ensures n <= 19
  {
    match s.state
    case StartAccept => 0
    case ReadClientHello => 1
    case SelectCertificate => 2
    case SelectParameters => 3
    case SendServerHello => 4
    case SendServerCertificate => 5
    case SendServerKeyExchange => 6
    case SendServerHelloDone => 7
    case ReadClientCertificate => 8
    case VerifyClientCertificate => 9
    case ReadClientKeyExchange => 10
    case ReadClientCertificateVerify => 11
    case ReadChangeCipherSpec => 12
    case ProcessChangeCipherSpec => 13
    case ReadNextProto => 14
    case ReadChannelId => 15
    case ReadClientFinished => 16
    case SendServerFinished => if s.config.flags.resumed then 5 else 17
    case FinishServerHandshake => 18
    case Done => 19
  }

  ghost predicate Safe(s: Server) {
    // The handshake buffer is there as long as a signature over it may have to be checked.
    && (Rank(s) <= 3 ==> s.held && !s.requested)
    && (s.requested && Rank(s) <= 8 ==> s.held)
    && (s.requested ==> s.config.flags.certAuth && !s.config.flags.resumed)
    && (Rank(s) <= 8 ==> !s.peerCert)
    && (s.peerCert ==> s.requested)
    && (s.peerCert && Rank(s) <= 11 ==> s.held)
    // A client chain is verified, and the client has signed for it.
    && (s.peerCert && Rank(s) >= 10 ==> s.verified)
    && (s.peerCert && Rank(s) >= 12 ==> s.signed)
    // Read keys come before the client's Finished, and that before the end.
    && (Rank(s) >= 14 ==> s.readKeys)
    && (Rank(s) >= 17 ==> s.finishedOk)
    && SignedInFull(s.transcript)
  }

  /** A turn of the loop that keeps what is safe and leads on. */
  ghost predicate Onward(s: Server, s': Server) {
    Safe(s') && Rank(s') > Rank(s)
  }

  /** What a state can do: lead on, fail, or have a callback asked again. */
  ghost predicate Proceeds(s: Server, o: Outcome, s': Server) {
    Onward(s, s') || s' == Fail(s) || (o.Retry? && s' == Await(s, Again))
  }

  /** Waiting leaves the handshake where it is. */
  lemma WaitingIsSafe(s: Server, wait: Wait, flight: seq<Item>)
    requires Safe(s)
    ensures Safe(s.(wait := wait, flight := flight))
  {
    hide SignedInFull;
  }

  /** The states that are left behind without a message. */
  lemma Passed(s: Server, state: State)
    requires Safe(s) && s.wait.Go?
    requires || (s.state.StartAccept? && state.ReadClientHello?)
             || (s.state.ReadClientHello? && state.SelectCertificate?)
             || (s.state.SelectCertificate? && state.SelectParameters?)
             || (s.state.SendServerKeyExchange? && state.SendServerHelloDone?)
             || (s.state.ReadClientCertificate? && !s.requested && state.VerifyClientCertificate?)
             || (s.state.VerifyClientCertificate? && !s.peerCert && state.ReadClientKeyExchange?)
             || (s.state.ReadNextProto? && state.ReadChannelId?)
             || (s.state.ReadChannelId? && state.ReadClientFinished?)
             || (s.state.FinishServerHandshake? && state.Done?)
    ensures Onward(s, GoTo(s, state))
  {
    hide SignedInFull;
  }

  /** A message taken that changes nothing else. */
  lemma MessageTaken(s: Server, m: Message, state: State)
    requires Safe(s) && s.wait.Go? && !m.CertificateVerify? && !m.Finished?
    requires || (s.state.ReadClientKeyExchange? && state.ReadClientCertificateVerify?)
             || (s.state.ReadNextProto? && state.ReadChannelId?)
             || (s.state.ReadChannelId? && state.ReadClientFinished?)
    ensures Onward(s, Take(s, m, state))
  {
    SignedMore(s.transcript, m);
    hide SignedInFull;
  }

  lemma HelloTaken(s: Server, m: Message, requested: bool)
    requires Safe(s) && s.wait.Go? && s.state.SelectParameters? && m.ClientHello?
    requires requested ==> !s.config.flags.resumed && s.config.flags.certAuth
    ensures s.held
    ensures Onward(s, Take(s.(requested := requested, held := requested), m, SendServerHello))
  {
    SignedMore(s.transcript, m);
    hide SignedInFull;
  }

  lemma ChainTaken(s: Server, m: Message)
    requires Safe(s) && s.wait.Go? && s.state.ReadClientCertificate? && s.requested && m.Certificate?
    ensures s.held
    ensures Onward(s, Take(s.(peerCert := !m.empty, held := !m.empty), m, VerifyClientCertificate))
  {
    SignedMore(s.transcript, m);
    hide SignedInFull;
  }

  lemma SignatureTaken(s: Server, m: Message)
    requires Safe(s) && s.wait.Go? && s.state.ReadClientCertificateVerify? && s.peerCert
    requires m == CertificateVerify(Buffer(s))
    ensures Onward(s, Take(s.(held := false, signed := true), m, ReadChangeCipherSpec))
  {
    assert s.held;
    SignedMore(s.transcript, m);
    hide SignedInFull;
  }

  lemma FinishedTaken(s: Server, m: Message, state: State)
    requires Safe(s) && s.wait.Go? && s.state.ReadClientFinished? && m == Finished(false, s.transcript)
    requires state == if s.config.flags.resumed then FinishServerHandshake else SendServerFinished
    ensures Onward(s, Take(s.(finishedOk := true), m, state))
  {
    SignedMore(s.transcript, m);
    hide SignedInFull;
  }

  lemma ReadHelloIsSafe(s: Server, m: Message, o: Outcome)
    requires Safe(s) && s.wait.Go?
    ensures s.state.ReadClientHello? ==> Proceeds(s, o, DoReadClientHello(s, m, o).side)
    ensures s.state.SelectCertificate? ==> Proceeds(s, o, DoSelectCertificate(s, m, o).side)
    ensures s.state.SelectParameters? ==> Proceeds(s, o, DoSelectParameters(s, m, o).side)
  {
    hide Safe, Onward, Fail, Await, Take, GoTo;
    match s.state {
      case ReadClientHello => Passed(s, SelectCertificate);
      case SelectCertificate => Passed(s, SelectParameters);
      case SelectParameters =>
        if m.ClientHello? {
          HelloTaken(s, m, Requests(s.config));
        }
      case _ =>
    }
  }

  lemma ReadChainIsSafe(s: Server, m: Message, o: Outcome)
    requires Safe(s) && s.wait.Go? && Reads(s)
    ensures s.state.ReadClientCertificate? ==> Proceeds(s, o, DoReadClientCertificate(s, m, o).side)
    ensures s.state.ReadClientCertificateVerify? ==> Proceeds(s, o, DoReadClientCertificateVerify(s, m, o).side)
  {
    hide Safe, Onward, Fail, Await, Take, GoTo, Buffer;
    match s.state {
      case ReadClientCertificate =>
        if m.Certificate? {
          ChainTaken(s, m);
        }
      case ReadClientCertificateVerify =>
        if m == CertificateVerify(Buffer(s)) {
          SignatureTaken(s, m);
        }
      case _ =>
    }
  }

  lemma PlainReadIsSafe(s: Server, m: Message, o: Outcome)
    requires Safe(s) && s.wait.Go?
    ensures s.state.ReadClientKeyExchange? ==> Proceeds(s, o, DoReadClientKeyExchange(s, m, o).side)
    ensures s.state.ReadNextProto? ==> Proceeds(s, o, DoReadNextProto(s, m, o).side)
    ensures s.state.ReadChannelId? ==> Proceeds(s, o, DoReadChannelId(s, m, o).side)
  {
    hide Safe, Onward, Fail, Await, Take;
    match s.state {
      case ReadClientKeyExchange =>
        if m.ClientKeyExchange? {
          MessageTaken(s, m, ReadClientCertificateVerify);
        }
      case ReadNextProto =>
        if m.NextProto? {
          MessageTaken(s, m, ReadChannelId);
        }
      case ReadChannelId =>
        if m == ChannelId(s.transcript) {
          MessageTaken(s, m, ReadClientFinished);
        }
      case _ =>
    }
  }

  lemma ReadFinishedIsSafe(s: Server, m: Message, o: Outcome)
    requires Safe(s) && s.wait.Go? && s.state.ReadClientFinished?
    ensures Proceeds(s, o, DoReadClientFinished(s, m, o).side)
  {
    hide Safe, Onward, Fail, Await, Take;
    if m == Finished(false, s.transcript) {
      FinishedTaken(s, m, if s.config.flags.resumed then FinishServerHandshake else SendServerFinished);
    }
  }

  lemma ReadIsSafe(s: Server, m: Message, o: Outcome)
    requires Safe(s) && s.wait.Go? && Reads(s)
    ensures Proceeds(s, o, DoRead(s, m, o).side)
  {
    hide Safe, Onward, Fail, Await, DoReadClientHello, DoSelectCertificate, DoSelectParameters, DoReadClientCertificate,
         DoReadClientKeyExchange, DoReadClientCertificateVerify, DoReadNextProto, DoReadChannelId, DoReadClientFinished;
    ReadHelloIsSafe(s, m, o);
    ReadChainIsSafe(s, m, o);
    PlainReadIsSafe(s, m, o);
    if s.state.ReadClientFinished? {
      ReadFinishedIsSafe(s, m, o);
    }
  }

  /** Sending what is neither a signature nor a MAC. */
  lemma EmittingIsSafe(s: Server, m: Message)
    requires Safe(s) && !m.CertificateVerify? && !m.Finished?
    ensures Safe(Emit(s, m))
  {
    SignedMore(s.transcript, m);
    hide SignedInFull;
  }

  /** The states that lead on behind the server's own messages. */
  lemma Sent(s: Server, state: State, wait: Wait)
    requires Safe(s) && s.wait.Go?
    requires || (s.state.SendServerHello?
                 && state == if s.config.flags.resumed then SendServerFinished else SendServerCertificate)
             || (s.state.SendServerCertificate? && state.SendServerKeyExchange?)
             || (s.state.SendServerKeyExchange? && state.SendServerHelloDone?)
             || (s.state.SendServerHelloDone? && state.ReadClientCertificate?)
    ensures Onward(s, s.(state := state, wait := wait))
  {
    hide SignedInFull;
  }

  lemma ChainVerified(s: Server)
    requires Safe(s) && s.wait.Go? && s.state.VerifyClientCertificate?
    ensures Onward(s, GoTo(s.(verified := true), ReadClientKeyExchange))
  {
    hide SignedInFull;
  }

  lemma NothingSigned(s: Server)
    requires Safe(s) && s.wait.Go? && s.state.ReadClientCertificateVerify? && !s.peerCert
    ensures Onward(s, GoTo(s.(held := false), ReadChangeCipherSpec))
  {
    hide SignedInFull;
  }

  lemma AwaitsCcs(s: Server)
    requires Safe(s) && s.wait.Go? && s.state.ReadChangeCipherSpec?
    ensures Onward(s, GoTo(s.(wait := ReadCcs), ProcessChangeCipherSpec))
  {
    hide SignedInFull;
  }

  lemma KeysRead(s: Server)
    requires Safe(s) && s.wait.Go? && s.state.ProcessChangeCipherSpec?
    ensures Onward(s, GoTo(s.(readKeys := true), ReadNextProto))
  {
    hide SignedInFull;
  }

  lemma FinishedSigned(s: Server)
    requires SignedInFull(s.transcript)
    ensures SignedInFull(WithFinished(s))
  {
    hide SignedInFull;
    SignedMore(s.transcript, NewSessionTicket);
    SignedMore(AfterTicket(s), Finished(true, AfterTicket(s)));
  }

  lemma FlightSent(s: Server, state: State)
    requires Safe(s) && s.wait.Go? && s.state.SendServerFinished?
    requires state == if s.config.flags.resumed then ReadChangeCipherSpec else FinishServerHandshake
    ensures Onward(s, s.(flight := s.flight + LastFlight(s), transcript := WithFinished(s), writeKeys := true,
                         wait := Flush, state := state))
  {
    FinishedSigned(s);
    hide SignedInFull, WithFinished, LastFlight;
  }

  lemma HelloSent(s: Server, o: Outcome)
    requires Safe(s) && s.wait.Go? && s.state.SendServerHello?
    ensures Proceeds(s, o, DoSendServerHello(s, o))
  {
    hide Safe, Rank;
    EmittingIsSafe(s, ServerHello(s.config.flags));
    Sent(Emit(s, ServerHello(s.config.flags)),
         if s.config.flags.resumed then SendServerFinished else SendServerCertificate, Go);
    SameRank(s, Emit(s, ServerHello(s.config.flags)));
  }

  lemma SameRank(s: Server, s': Server)
    requires s.state == s'.state && s.config == s'.config
    ensures Rank(s) == Rank(s')
  {
  }

  lemma CertificatesSigned(s: Server)
    requires SignedInFull(s.transcript)
    ensures SignedInFull(AfterStatus(s))
  {
    hide SignedInFull;
    SignedMore(s.transcript, Certificate(true, false));
    SignedMore(AfterCertificate(s), CertificateStatus);
  }

  lemma CertificatesSent(s: Server)
    requires Safe(s) && s.wait.Go? && s.state.SendServerCertificate?
    ensures Onward(s, GoTo(s.(transcript := AfterStatus(s), flight := s.flight + Certificates(s)),
                           SendServerKeyExchange))
  {
    CertificatesSigned(s);
    hide SignedInFull, AfterStatus, Certificates;
  }

  lemma KeyExchangeSent(s: Server, o: Outcome)
    requires Safe(s) && s.wait.Go? && s.state.SendServerKeyExchange?
    ensures Proceeds(s, o, DoSendServerKeyExchange(s, o))
  {
    hide Safe, Rank;
    Passed(s, SendServerHelloDone);
    EmittingIsSafe(s, ServerKeyExchange);
    Sent(Emit(s, ServerKeyExchange), SendServerHelloDone, Go);
    SameRank(s, Emit(s, ServerKeyExchange));
  }

  lemma HelloDoneSigned(s: Server)
    requires SignedInFull(s.transcript)
    ensures SignedInFull(AfterRequest(s) + [ServerHelloDone])
  {
    hide SignedInFull;
    SignedMore(s.transcript, CertificateRequest);
    SignedMore(AfterRequest(s), ServerHelloDone);
  }

  lemma HelloDoneSent(s: Server)
    requires Safe(s) && s.wait.Go? && s.state.SendServerHelloDone?
    ensures Onward(s, s.(transcript := AfterRequest(s) + [ServerHelloDone], flight := s.flight + HelloDone(s),
                         state := ReadClientCertificate, wait := Flush))
  {
    HelloDoneSigned(s);
    hide SignedInFull, AfterRequest, HelloDone;
  }

  lemma OtherIsSafe(s: Server, o: Outcome)
    requires Safe(s) && s.wait.Go? && !Reads(s) && !s.state.Done?
    ensures Proceeds(s, o, DoOther(s, o))
  {
    hide Safe, Onward, Fail, Await, GoTo, DoSendServerHello, DoSendServerKeyExchange, AfterStatus, Certificates,
         AfterRequest, HelloDone,
         WithFinished, LastFlight;
    match s.state {
      case StartAccept => Passed(s, ReadClientHello);
      case SendServerHello => HelloSent(s, o);
      case SendServerCertificate => CertificatesSent(s);
      case SendServerKeyExchange => KeyExchangeSent(s, o);
      case SendServerHelloDone => HelloDoneSent(s);
      case ReadClientCertificate => Passed(s, VerifyClientCertificate);
      case VerifyClientCertificate =>
        if s.peerCert {
          ChainVerified(s);
        } else {
          Passed(s, ReadClientKeyExchange);
        }
      case ReadClientCertificateVerify => NothingSigned(s);
      case ReadChangeCipherSpec => AwaitsCcs(s);
      case ProcessChangeCipherSpec => KeysRead(s);
      case ReadNextProto => Passed(s, ReadChannelId);
      case ReadChannelId => Passed(s, ReadClientFinished);
      case SendServerFinished =>
        FlightSent(s, if s.config.flags.resumed then ReadChangeCipherSpec else FinishServerHandshake);
      case FinishServerHandshake => Passed(s, Done);
      case _ =>
    }
  }

  lemma DoProceeds(s: Server, got: Received, o: Outcome)
    requires Safe(s) && s.wait.Go? && !s.state.Done?
    ensures var t := Do(s, got, o);
            Proceeds(s, o, t.side) || (got.NoMessage? && t == Kept(Await(s, ReadMessage)))
  {
    hide DoRead, DoOther, Safe, Proceeds, Reads;
    if !Reads(s) {
      OtherIsSafe(s, o);
    } else if got.Received? {
      ReadIsSafe(s, got.m, o);
    }
  }

  lemma DoIsSafe(s: Server, got: Received, o: Outcome)
    requires Safe(s) && s.wait.Go? && !s.state.Done?
    ensures Safe(Do(s, got, o).side)
  {
    hide Do, Safe, Rank;
    DoProceeds(s, got, o);
    WaitingIsSafe(s, Failed, s.flight);
    WaitingIsSafe(s, Again, s.flight);
    WaitingIsSafe(s, ReadMessage, s.flight);
  }

  lemma DoneStays(s: Server, got: Received, o: Outcome)
    requires s.state.Done?
    ensures Do(s, got, o) == Kept(s)
  {
  }

  lemma StepIsSafe(e: End, inbox: seq<Item>, o: Outcome)
    requires Safe(e.hs)
    ensures Safe(Step(e, inbox, o).end.hs)
  {
    hide Safe, Do, Rank;
    var got := GetMessage(e.buffered, inbox);
    match e.hs.wait {
      case Failed =>
      case Go =>
        if e.hs.state.Done? {
          DoneStays(e.hs, got, o);
        } else {
          DoIsSafe(e.hs, got, o);
        }
      case Flush => WaitingIsSafe(e.hs, Go, []);
      case _ =>
        WaitingIsSafe(e.hs, Go, e.hs.flight);
        WaitingIsSafe(e.hs, Failed, e.hs.flight);
    }
  }

  lemma {:induction false} RunIsSafe(config: Config, inputs: seq<Input>)
    ensures Safe(Run(config, inputs).hs)
  {
    hide Step;
    if inputs != [] {
      var last := inputs[|inputs| - 1];
      RunIsSafe(config, inputs[..|inputs| - 1]);
      StepIsSafe(Run(config, inputs[..|inputs| - 1]), last.inbox, last.outcome);
    }
  }

  /** Whatever the peer sends: a server that reaches the end has checked the client's Finished
      after installing its read keys; if it got a client chain, it has verified it and has
      checked the client's signature; what it checks a signature against is there when it does;
      and every signature and MAC it accepted covers the whole transcript. */
  lemma ServerControl(config: Config, inputs: seq<Input>)
    ensures var s := Run(config, inputs).hs;
            && (s.state.Done? ==> s.readKeys && s.finishedOk)
            && (s.state.Done? && s.peerCert ==> s.verified && s.signed)
            && (s.state.ReadClientCertificateVerify? && s.peerCert ==> s.held)
            && SignedInFull(s.transcript)
  {
    hide SignedInFull, Run;
    RunIsSafe(config, inputs);
  }

  /** A turn leads on, unless it fails, has a callback asked again, or comes to wait for a message
      that is not there; for a resumed session the end is in other order. */
  lemma TurnsLeadOn(s: Server, got: Received, o: Outcome)
    requires Safe(s) && s.wait.Go? && !s.state.Done?
    ensures var t := Do(s, got, o);
            || Rank(t.side) > Rank(s) || t.side == Fail(s) || (o.Retry? && t.side == Await(s, Again))
            || (got.NoMessage? && t == Kept(Await(s, ReadMessage)))
  {
    hide Do, Rank, Safe;
    DoProceeds(s, got, o);
  }

  /** The turns of a state come before those of the next. */
  function Turns(wait: Wait, buffered: bool): (n: nat)
    ensures n <= 4
  {
    match wait
    case Failed => 0
    case Go => if buffered then 0 else 2
    case ReadMessage => 1
    case Again => 3
    case ReadCcs => 3
    case Flush => 4
  }

  /** How much of the handshake is left. */
  function Remaining(e: End): (n: nat) {
    (20 - Rank(e.hs)) * 5 + Turns(e.hs.wait, e.buffered)
  }

  /** A turn of the loop brings the end nearer, unless it fails or has a callback asked again. */
  lemma GoLeadsOn(e: End, got: Received, o: Outcome)
    requires Safe(e.hs) && !e.hs.state.Done? && e.hs.wait.Go? && (e.buffered ==> got.Received?)
    ensures var t := Do(e.hs, got, o);
            || t.side.wait.Failed? || (o.Retry? && t.side == Await(e.hs, Again))
            || Remaining(End(t.side, e.buffered && t.Kept?)) < Remaining(e)
  {
    hide Safe, Do, Rank;
    TurnsLeadOn(e.hs, got, o);
    SameRank(e.hs, Await(e.hs, ReadMessage));
    var t := Do(e.hs, got, o);
    if Rank(t.side) > Rank(e.hs) {
      assert (20 - Rank(t.side)) * 5 + 5 <= (20 - Rank(e.hs)) * 5;
    }
  }

  /** What is waited for brings the end nearer. */
  lemma WaitLeadsOn(e: End, e': End)
    requires e'.hs.state == e.hs.state && e'.hs.config == e.hs.config
    requires Turns(e'.hs.wait, e'.buffered) < Turns(e.hs.wait, e.buffered)
    ensures Remaining(e') < Remaining(e)
  {
    hide Rank, Turns;
    SameRank(e.hs, e'.hs);
  }

  lemma AgainLeadsOn(e: End, inbox: seq<Item>)
    requires e.hs.wait.Again?
    ensures Remaining(Step(e, inbox, Good).end) < Remaining(e)
  {
    hide Remaining;
    WaitLeadsOn(e, End(Await(e.hs, Go), e.buffered));
  }

  lemma FlushLeadsOn(e: End, inbox: seq<Item>)
    requires e.hs.wait.Flush?
    ensures Remaining(Step(e, inbox, Good).end) < Remaining(e)
  {
    hide Remaining;
    WaitLeadsOn(e, End(e.hs.(flight := [], wait := Go), e.buffered));
  }

  lemma MessageLeadsOn(e: End, inbox: seq<Item>)
    requires e.hs.wait.ReadMessage? && inbox != []
    ensures var e' := Step(e, inbox, Good).end; e'.hs.wait.Failed? || Remaining(e') < Remaining(e)
  {
    hide Remaining;
    WaitLeadsOn(e, End(Await(e.hs, Go), true));
  }

  lemma CcsLeadsOn(e: End, inbox: seq<Item>)
    requires e.hs.wait.ReadCcs? && inbox != []
    ensures var e' := Step(e, inbox, Good).end; e'.hs.wait.Failed? || Remaining(e') < Remaining(e)
  {
    hide Remaining;
    WaitLeadsOn(e, End(Await(e.hs, Go), e.buffered));
  }

  lemma GoIsTurn(e: End, inbox: seq<Item>)
    requires e.hs.wait.Go?
    ensures var t := Do(e.hs, GetMessage(e.buffered, inbox), Good);
            Step(e, inbox, Good).end == End(t.side, e.buffered && t.Kept?)
  {
    hide Do;
  }

  /** With what it waits for at hand, and no callback to be asked again, every turn brings the
      end nearer, unless it fails. */
  lemma {:induction false} StepLeadsOn(e: End, inbox: seq<Item>)
    requires Safe(e.hs) && !e.hs.wait.Failed? && (e.hs.wait.Go? ==> !e.hs.state.Done?)
    requires e.hs.wait.Go? && e.buffered ==> GetMessage(true, inbox).Received?
    requires inbox == [] ==> !e.hs.wait.ReadMessage? && !e.hs.wait.ReadCcs?
    ensures var t := Step(e, inbox, Good);
            t.end.hs.wait.Failed? || Remaining(t.end) < Remaining(e)
  {
    hide Safe, Do, Rank, Remaining, Step;
    match e.hs.wait {
      case Go =>
        GoLeadsOn(e, GetMessage(e.buffered, inbox), Good);
        GoIsTurn(e, inbox);
      case Again => AgainLeadsOn(e, inbox);
      case Flush => FlushLeadsOn(e, inbox);
      case ReadMessage => MessageLeadsOn(e, inbox);
      case ReadCcs => CcsLeadsOn(e, inbox);
      case Failed =>
    }
  }

  lemma AnswerLeadsOn(e: End, inbox: seq<Item>)
    requires Safe(e.hs) && !e.hs.wait.Go?
    requires inbox == [] ==> !e.hs.wait.ReadMessage? && !e.hs.wait.ReadCcs?
    ensures var t := Step(e, inbox, Good); t.end.hs.wait.Go? ==> Remaining(t.end) < Remaining(e)
  {
    hide Do, Safe, Rank, Remaining;
    if !e.hs.wait.Failed? {
      StepLeadsOn(e, inbox);
    }
  }

  lemma RankNeverFalls(s: Server, got: Received, o: Outcome)
    requires Safe(s) && s.wait.Go? && !s.state.Done?
    ensures var s' := Do(s, got, o).side; Rank(s') > Rank(s) || (!s'.wait.Go? && Rank(s') == Rank(s))
  {
    hide Do, Safe, Rank;
    TurnsLeadOn(s, got, o);
    SameRank(s, Await(s, Again));
    SameRank(s, Await(s, ReadMessage));
    SameRank(s, Fail(s));
  }

  lemma DoneIsSafe(s: Server)
    requires Safe(s) && s.state.Done?
    ensures s.readKeys && s.finishedOk
  {
    hide SignedInFull;
  }

  lemma TakesWhatItGot(s: Server, got: Received, o: Outcome)
    ensures Do(s, got, o).Took? ==> got.Received?
  {
    hide DoRead, DoOther, Reads;
  }
}
