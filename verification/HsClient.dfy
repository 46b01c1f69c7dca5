/** The client side of the TLS 1.0 to 1.2 handshake: one function for every state, and what
    holds of the client whatever it is sent. */
module HsClient {
  import opened HsMessages

  datatype State =
    | StartConnect | EnterEarlyData | ReadServerHello | ReadServerCertificate | ReadCertificateStatus
    | VerifyServerCertificate | ReadServerKeyExchange | ReadCertificateRequest | ReadServerHelloDone
    | SendClientCertificate | SendClientKeyExchange | SendClientCertificateVerify | SendClientFinished
    | FinishFlight | ReadSessionTicket | ProcessChangeCipherSpec | ReadServerFinished
    | FinishClientHandshake | Done

  /** The members of `SSL_HANDSHAKE` and its connection that the states look at or change. */
  datatype Client = Client(state: State, wait: Wait, flight: seq<Item>, flags: Flags,
                           requested: bool, hasCert: bool, transcript: seq<Message>, held: bool,
                           verified: bool, readKeys: bool, writeKeys: bool, finishedOk: bool)

  const NO_FLAGS := Flags(false, false, false, false, false, false, false)

  function Initial(hasCert: bool): Client {
    Client(StartConnect, Go, [], NO_FLAGS, false, hasCert, [], true, false, false, false, false)
  }

  /** The side after a turn that had a message to read, and whether the message was taken. */
  datatype Turn = Kept(side: Client) | Took(side: Client)

  function Fail(c: Client): Client {
    c.(wait := Failed)
  }

  function Await(c: Client, wait: Wait): Client {
    c.(wait := wait)
  }

  function GoTo(c: Client, state: State): Client {
    c.(state := state)
  }

  /** The message is hashed, and then released. */
  function Take(c: Client, m: Message, state: State): Client {
    c.(transcript := c.transcript + [m], state := state)
  }

  function Emit(c: Client, m: Message): Client {
    c.(transcript := c.transcript + [m], flight := c.flight + [Handshake(m)])
  }

  // -------------------------------------------------------------- state by state

  function DoReadServerHello(c: Client, m: Message, o: Outcome): Turn {
    if !m.ServerHello? || o.Bad? then Kept(Fail(c))
    else
      Took(Take(c, m, if m.flags.resumed then ReadSessionTicket else ReadServerCertificate)
            .(flags := m.flags, held := c.held && !m.flags.resumed && m.flags.certAuth))
  }

  function DoReadServerCertificate(c: Client, m: Message, o: Outcome): Turn {
    if !m.Certificate? || m.empty || o.Bad? then Kept(Fail(c)) else Took(Take(c, m, ReadCertificateStatus))
  }

  /** A server may change its mind about sending the message. */
  function DoReadCertificateStatus(c: Client, m: Message, o: Outcome): Turn {
    if !m.CertificateStatus? then Kept(GoTo(c, VerifyServerCertificate))
    else if o.Bad? then Kept(Fail(c)) else Took(Take(c, m, VerifyServerCertificate))
  }

  function DoVerifyServerCertificate(c: Client, o: Outcome): Client {
    if !c.flags.certAuth then GoTo(c, ReadServerKeyExchange)
    else if o.Bad? then Fail(c)
    else if o.Retry? then Await(c, Again)
    else GoTo(c.(verified := true), ReadServerKeyExchange)
  }

  function DoReadServerKeyExchange(c: Client, m: Message, o: Outcome): Turn {
    if !m.ServerKeyExchange? then
      if c.flags.requiresKeyExchange then Kept(Fail(c)) else Kept(GoTo(c, ReadCertificateRequest))
    else if o.Bad? then Kept(Fail(c)) else Took(Take(c, m, ReadCertificateRequest))
  }

  function DoReadCertificateRequest(c: Client, m: Message, o: Outcome): Turn {
    if m.ServerHelloDone? then Kept(GoTo(c.(held := false), ReadServerHelloDone))
    else if !m.CertificateRequest? || o.Bad? then Kept(Fail(c))
    else Took(Take(c.(requested := true), m, ReadServerHelloDone))
  }

  function DoReadServerHelloDone(c: Client, m: Message, o: Outcome): Turn {
    if !m.ServerHelloDone? || o.Bad? then Kept(Fail(c)) else Took(Take(c, m, SendClientCertificate))
  }

  function DoSendClientCertificate(c: Client, o: Outcome): Client {
    if !c.requested then GoTo(c, SendClientKeyExchange)
    else if o.Bad? then Fail(c)
    else if o.Retry? then Await(c, Again)
    else GoTo(Emit(c.(held := c.held && c.hasCert), Certificate(false, !c.hasCert)), SendClientKeyExchange)
  }

  function DoSendClientKeyExchange(c: Client, o: Outcome): Client {
    if o.Bad? then Fail(c) else GoTo(Emit(c, ClientKeyExchange), SendClientCertificateVerify)
  }

  /** What a signature over the handshake buffer covers. */
  function Buffer(c: Client): seq<Message> {
    if c.held then c.transcript else []
  }

  function DoSendClientCertificateVerify(c: Client, o: Outcome): Client {
    if !c.requested || !c.hasCert then GoTo(c, SendClientFinished)
    else if o.Bad? then Fail(c)
    else if o.Retry? then Await(c, Again)
    else GoTo(Emit(c, CertificateVerify(Buffer(c))).(held := false), SendClientFinished)
  }

  function AfterNextProto(c: Client): seq<Message> {
    if c.flags.npn then c.transcript + [NextProto] else c.transcript
  }

  function AfterChannelId(c: Client): seq<Message> {
    if c.flags.channelId then AfterNextProto(c) + [ChannelId(AfterNextProto(c))] else AfterNextProto(c)
  }

  /** The transcript behind the client's last flight; the MAC covers all in front of it, and so
      does the signature with the Channel ID. */
  function WithFinished(c: Client): seq<Message> {
    AfterChannelId(c) + [Finished(false, AfterChannelId(c))]
  }

  function LastFlight(c: Client): seq<Item> {
    [ChangeCipherSpec]
    + (if c.flags.npn then [Handshake(NextProto)] else [])
    + (if c.flags.channelId then [Handshake(ChannelId(AfterNextProto(c)))] else [])
    + [Handshake(Finished(false, AfterChannelId(c)))]
  }

  function DoSendClientFinished(c: Client, o: Outcome): Client {
    if o.Bad? then Fail(c)
    else if c.flags.channelId && o.Retry? then Await(c, Again)
    else
      c.(flight := c.flight + LastFlight(c), transcript := WithFinished(c), writeKeys := true,
         state := FinishFlight, wait := Flush)
  }

  /** After a full handshake's flight the client may return early, with False Start. */
  function DoFinishFlight(c: Client, o: Outcome): Client {
    if c.flags.resumed then GoTo(c, FinishClientHandshake)
    else if o.Bad? then Fail(c)
    else GoTo(c.(wait := if o.Retry? then Again else Go), ReadSessionTicket)
  }

  function DoReadSessionTicket(c: Client, m: Message, o: Outcome): Turn {
    if !m.NewSessionTicket? || o.Bad? then Kept(Fail(c))
    else
      Took(Take(c.(wait := ReadCcs), m, ProcessChangeCipherSpec))
  }

  /** The MAC is computed over the transcript before the message is hashed itself. */
  function DoReadServerFinished(c: Client, m: Message): Turn {
    if m != Finished(true, c.transcript) then Kept(Fail(c))
    else
      Took(Take(c.(finishedOk := true), m, if c.flags.resumed then SendClientFinished else FinishClientHandshake))
  }

  /** The states that read a message do so only when their message is to be expected. */
  predicate Reads(c: Client) {
    match c.state
    case ReadServerHello => true
    case ReadServerCertificate => c.flags.certAuth
    case ReadCertificateStatus => c.flags.status
    case ReadServerKeyExchange => true
    case ReadCertificateRequest => c.flags.certAuth
    case ReadServerHelloDone => true
    case ReadSessionTicket => c.flags.ticket
    case ReadServerFinished => true
    case _ => false
  }

  function DoRead(c: Client, m: Message, o: Outcome): Turn
    requires Reads(c)
  {
    match c.state
    case ReadServerHello => DoReadServerHello(c, m, o)
    case ReadServerCertificate => DoReadServerCertificate(c, m, o)
    case ReadCertificateStatus => DoReadCertificateStatus(c, m, o)
    case ReadServerKeyExchange => DoReadServerKeyExchange(c, m, o)
    case ReadCertificateRequest => DoReadCertificateRequest(c, m, o)
    case ReadServerHelloDone => DoReadServerHelloDone(c, m, o)
    case ReadSessionTicket => DoReadSessionTicket(c, m, o)
    case ReadServerFinished => DoReadServerFinished(c, m)
  }

  function DoStartConnect(c: Client, o: Outcome): Client {
    if o.Bad? then Fail(c) else Emit(c, ClientHello).(state := EnterEarlyData, wait := Flush)
  }

  function DoProcessChangeCipherSpec(c: Client, o: Outcome): Client {
    if o.Bad? then Fail(c) else GoTo(c.(readKeys := true), ReadServerFinished)
  }

  /** States that have nothing to do, because their message is not to be expected or at all. */
  function DoNothing(c: Client): Client {
    match c.state
    case EnterEarlyData => GoTo(c, ReadServerHello)
    case ReadServerCertificate => GoTo(c, ReadCertificateStatus)
    case ReadCertificateStatus => GoTo(c, VerifyServerCertificate)
    case ReadCertificateRequest => GoTo(c, ReadServerHelloDone)
    case ReadSessionTicket => GoTo(c.(wait := ReadCcs), ProcessChangeCipherSpec)
    case FinishClientHandshake => GoTo(c, Done)
    case _ => c
  }

  function DoOther(c: Client, o: Outcome): Client
    requires !Reads(c)
  {
    match c.state
    case StartConnect => DoStartConnect(c, o)
    case VerifyServerCertificate => DoVerifyServerCertificate(c, o)
    case SendClientCertificate => DoSendClientCertificate(c, o)
    case SendClientKeyExchange => DoSendClientKeyExchange(c, o)
    case SendClientCertificateVerify => DoSendClientCertificateVerify(c, o)
    case SendClientFinished => DoSendClientFinished(c, o)
    case FinishFlight => DoFinishFlight(c, o)
    case ProcessChangeCipherSpec => DoProcessChangeCipherSpec(c, o)
    case _ => DoNothing(c)
  }

  /** One turn of the loop of `ssl_client_handshake`, with what `get_message` gives. */
  function Do(c: Client, got: Received, o: Outcome): Turn {
    if !Reads(c) then Kept(DoOther(c, o))
    else if got.NoMessage? then Kept(Await(c, ReadMessage))
    else DoRead(c, got.m, o)
  }

  /** A side of the connection: its handshake, and whether a message has been read for it. */
  datatype End = End(hs: Client, buffered: bool)

  /** The side after a turn, whether it took the first item that arrived, and what it sent. */
  datatype Moved = Moved(end: End, taken: bool, sent: seq<Item>)

  /** One turn of `ssl_run_handshake`: what was waited for is resolved, or the loop goes on. */
  function Step(e: End, inbox: seq<Item>, o: Outcome): Moved {
    match e.hs.wait
    case Failed => Moved(e, false, [])
    case Go =>
      var t := Do(e.hs, GetMessage(e.buffered, inbox), o);
      Moved(End(t.side, e.buffered && t.Kept?), t.Took?, [])
    case Again => Moved(e.(hs := Await(e.hs, Go)), false, [])
    case Flush => Moved(e.(hs := e.hs.(flight := [], wait := Go)), false, e.hs.flight)
    case ReadMessage =>
      if inbox == [] then Moved(e, false, [])
      else if inbox[0].Handshake? then Moved(End(Await(e.hs, Go), true), false, [])
      else Moved(e.(hs := Fail(e.hs)), false, [])
    case ReadCcs =>
      if inbox == [] then Moved(e, false, [])
      else if inbox[0].ChangeCipherSpec? then Moved(e.(hs := Await(e.hs, Go)), true, [])
      else Moved(e.(hs := Fail(e.hs)), false, [])
  }

  // ------------------------------------------------------------- control safety

  /** Any run against any peer: at every turn some items have arrived, and the content of a
      message and the callbacks come out as they like. */
  datatype Input = Input(inbox: seq<Item>, outcome: Outcome)

  function Run(hasCert: bool, inputs: seq<Input>): End {
    if inputs == [] then End(Initial(hasCert), false)
    else
      var last := inputs[|inputs| - 1];
      Step(Run(hasCert, inputs[..|inputs| - 1]), last.inbox, last.outcome).end
  }

  /** How far a state is along the handshake; the end of the two kinds of handshake is in
      different order. */
  function Rank(c: Client): (n: nat)
    ensures n <= 20
  {
    match c.state
    case StartConnect => 0
    case EnterEarlyData => 1
    case ReadServerHello => 2
    case ReadServerCertificate => 3
    case ReadCertificateStatus => 4
    case VerifyServerCertificate => 5
    case ReadServerKeyExchange => 6
    case ReadCertificateRequest => 7
    case ReadServerHelloDone => 8
    case SendClientCertificate => 9
    case SendClientKeyExchange => 10
    case SendClientCertificateVerify => 11
    case SendClientFinished => if c.flags.resumed then 17 else 12
    case FinishFlight => if c.flags.resumed then 18 else 13
    case ReadSessionTicket => 14
    case ProcessChangeCipherSpec => 15
    case ReadServerFinished => 16
    case FinishClientHandshake => 19
    case Done => 20
  }

  ghost predicate Safe(c: Client) {
    // The handshake buffer is there as long as a signature over it may be needed.
    && (Rank(c) <= 2 ==> c.held)
    && (Rank(c) <= 7 ==> !c.requested)
    && (c.flags.certAuth && !c.flags.resumed && 3 <= Rank(c) <= 7 ==> c.held)
    && (c.requested && c.hasCert && Rank(c) <= 11 ==> c.held)
    && (c.requested ==> c.flags.certAuth && !c.flags.resumed)
    && (c.flags.resumed ==> Rank(c) >= 14)
    // The chain is verified before the key exchange.
    && (c.flags.certAuth && !c.flags.resumed && Rank(c) >= 6 ==> c.verified)
    && (Rank(c) <= 10 ==> ClientKeyExchange !in c.transcript)
    // Read keys come before the server's Finished, and that before the end.
    && (Rank(c) >= 16 ==> c.readKeys)
    && (Rank(c) >= 17 ==> c.finishedOk)
    && SignedInFull(c.transcript)
  }

  /** A turn of the loop that keeps what is safe and leads on. */
  ghost predicate Onward(c: Client, c': Client) {
    Safe(c') && Rank(c') > Rank(c)
  }

  /** What a state can do: lead on, fail, or have a callback asked again. */
  ghost predicate Proceeds(c: Client, o: Outcome, c': Client) {
    Onward(c, c') || c' == Fail(c) || (o.Retry? && c' == Await(c, Again))
  }

  /** Waiting leaves the handshake where it is. */
  lemma WaitingIsSafe(c: Client, wait: Wait, flight: seq<Item>)
    requires Safe(c)
    ensures Safe(c.(wait := wait, flight := flight))
  {
    hide SignedInFull;
  }

  lemma HelloTaken(c: Client, m: Message, state: State, held: bool)
    requires Safe(c) && c.wait.Go? && c.state.ReadServerHello? && m.ServerHello?
    requires state == if m.flags.resumed then ReadSessionTicket else ReadServerCertificate
    requires held == (!m.flags.resumed && m.flags.certAuth)
    ensures c.held && Onward(c, Take(c, m, state).(flags := m.flags, held := held))
  {
    SignedMore(c.transcript, m);
    hide SignedInFull;
  }

  lemma ReadServerHelloSafe(c: Client, m: Message, o: Outcome)
    requires Safe(c) && c.wait.Go? && c.state.ReadServerHello?
    ensures Proceeds(c, o, DoReadServerHello(c, m, o).side)
  {
    hide Safe, Onward, Fail, Await;
    if m.ServerHello? {
      HelloTaken(c, m, if m.flags.resumed then ReadSessionTicket else ReadServerCertificate,
                 !m.flags.resumed && m.flags.certAuth);
    }
  }

  /** A message taken that changes nothing else. */
  lemma MessageTaken(c: Client, m: Message, state: State)
    requires Safe(c) && c.wait.Go? && !m.CertificateVerify? && !m.Finished? && m != ClientKeyExchange
    requires || (c.state.ReadServerCertificate? && state.ReadCertificateStatus?)
             || (c.state.ReadCertificateStatus? && state.VerifyServerCertificate?)
             || (c.state.ReadServerKeyExchange? && state.ReadCertificateRequest?)
             || (c.state.ReadServerHelloDone? && state.SendClientCertificate?)
    ensures Onward(c, Take(c, m, state))
  {
    SignedMore(c.transcript, m);
    hide SignedInFull;
  }

  lemma NoKeyExchange(c: Client)
    requires Safe(c) && c.wait.Go? && c.state.ReadServerKeyExchange?
    ensures Onward(c, GoTo(c, ReadCertificateRequest))
  {
    hide SignedInFull;
  }

  lemma PlainReadIsSafe(c: Client, m: Message, o: Outcome)
    requires Safe(c) && c.wait.Go?
    ensures c.state.ReadServerCertificate? ==> Proceeds(c, o, DoReadServerCertificate(c, m, o).side)
    ensures c.state.ReadCertificateStatus? ==> Proceeds(c, o, DoReadCertificateStatus(c, m, o).side)
    ensures c.state.ReadServerKeyExchange? ==> Proceeds(c, o, DoReadServerKeyExchange(c, m, o).side)
    ensures c.state.ReadServerHelloDone? ==> Proceeds(c, o, DoReadServerHelloDone(c, m, o).side)
  {
    hide Safe, Onward, Fail, Await, Take, GoTo;
    match c.state {
      case ReadServerCertificate =>
        if m.Certificate? {
          MessageTaken(c, m, ReadCertificateStatus);
        }
      case ReadCertificateStatus =>
        NoStatus(c);
        if m.CertificateStatus? {
          MessageTaken(c, m, VerifyServerCertificate);
        }
      case ReadServerKeyExchange =>
        NoKeyExchange(c);
        if m.ServerKeyExchange? {
          MessageTaken(c, m, ReadCertificateRequest);
        }
      case ReadServerHelloDone =>
        if m.ServerHelloDone? {
          MessageTaken(c, m, SendClientCertificate);
        }
      case _ =>
    }
  }

  lemma ReadCertificateRequestSafe(c: Client, m: Message, o: Outcome)
    requires Safe(c) && c.wait.Go? && c.state.ReadCertificateRequest? && Reads(c)
    ensures Proceeds(c, o, DoReadCertificateRequest(c, m, o).side)
  {
    hide SignedInFull;
    if m.CertificateRequest? {
      SignedMore(c.transcript, m);
    }
  }

  lemma TicketTaken(c: Client, m: Message)
    requires Safe(c) && c.wait.Go? && c.state.ReadSessionTicket? && m.NewSessionTicket?
    ensures Onward(c, Take(c, m, ProcessChangeCipherSpec).(wait := ReadCcs))
  {
    hide SignedInFull;
    SignedMore(c.transcript, m);
  }

  lemma ReadSessionTicketSafe(c: Client, m: Message, o: Outcome)
    requires Safe(c) && c.wait.Go? && c.state.ReadSessionTicket?
    ensures Proceeds(c, o, DoReadSessionTicket(c, m, o).side)
  {
    hide Safe, Onward, Fail, Await;
    if m.NewSessionTicket? {
      TicketTaken(c, m);
    }
  }

  lemma FinishedTaken(c: Client, m: Message, state: State)
    requires Safe(c) && c.wait.Go? && c.state.ReadServerFinished? && m == Finished(true, c.transcript)
    requires state == if c.flags.resumed then SendClientFinished else FinishClientHandshake
    ensures Onward(c, Take(c, m, state).(finishedOk := true))
  {
    hide SignedInFull;
    SignedMore(c.transcript, m);
  }

  lemma ReadServerFinishedSafe(c: Client, m: Message)
    requires Safe(c) && c.wait.Go? && c.state.ReadServerFinished?
    ensures Proceeds(c, Good, DoReadServerFinished(c, m).side)
  {
    hide Safe, Onward, Fail, Await;
    if m == Finished(true, c.transcript) {
      FinishedTaken(c, m, if c.flags.resumed then SendClientFinished else FinishClientHandshake);
    }
  }

  lemma ReadIsSafe(c: Client, m: Message, o: Outcome)
    requires Safe(c) && c.wait.Go? && Reads(c)
    ensures Proceeds(c, o, DoRead(c, m, o).side)
  {
    hide Safe, Onward, Fail, Await, DoReadServerHello, DoReadServerCertificate, DoReadCertificateStatus,
         DoReadServerKeyExchange,
         DoReadCertificateRequest, DoReadServerHelloDone, DoReadSessionTicket, DoReadServerFinished;
    PlainReadIsSafe(c, m, o);
    match c.state {
      case ReadServerHello => ReadServerHelloSafe(c, m, o);
      case ReadCertificateRequest => ReadCertificateRequestSafe(c, m, o);
      case ReadSessionTicket => ReadSessionTicketSafe(c, m, o);
      case ReadServerFinished => ReadServerFinishedSafe(c, m);
      case _ =>
    }
  }

  lemma FinishedSigned(c: Client)
    requires SignedInFull(c.transcript)
    ensures SignedInFull(WithFinished(c))
  {
    hide SignedInFull;
    SignedMore(c.transcript, NextProto);
    SignedMore(AfterNextProto(c), ChannelId(AfterNextProto(c)));
    SignedMore(AfterChannelId(c), Finished(false, AfterChannelId(c)));
  }

  lemma Started(c: Client)
    requires Safe(c) && c.wait.Go? && c.state.StartConnect?
    ensures Onward(c, Emit(c, ClientHello).(state := EnterEarlyData, wait := Flush))
  {
    hide SignedInFull;
    SignedMore(c.transcript, ClientHello);
  }

  lemma Entered(c: Client)
    requires Safe(c) && c.wait.Go? && c.state.EnterEarlyData?
    ensures Onward(c, GoTo(c, ReadServerHello))
  {
    hide SignedInFull;
  }

  lemma NoCertificate(c: Client)
    requires Safe(c) && c.wait.Go? && c.state.ReadServerCertificate?
    ensures Onward(c, GoTo(c, ReadCertificateStatus))
  {
    hide SignedInFull;
  }

  lemma NoStatus(c: Client)
    requires Safe(c) && c.wait.Go? && c.state.ReadCertificateStatus?
    ensures Onward(c, GoTo(c, VerifyServerCertificate))
  {
    hide SignedInFull;
  }

  lemma NotVerified(c: Client)
    requires Safe(c) && c.wait.Go? && c.state.VerifyServerCertificate? && !c.flags.certAuth
    ensures Onward(c, GoTo(c, ReadServerKeyExchange))
  {
    hide SignedInFull;
  }

  lemma Verified(c: Client)
    requires Safe(c) && c.wait.Go? && c.state.VerifyServerCertificate?
    ensures Onward(c, GoTo(c.(verified := true), ReadServerKeyExchange))
  {
    hide SignedInFull;
  }

  lemma NoRequest(c: Client)
    requires Safe(c) && c.wait.Go? && c.state.ReadCertificateRequest? && !c.flags.certAuth
    ensures Onward(c, GoTo(c, ReadServerHelloDone))
  {
    hide SignedInFull;
  }

  lemma NotRequested(c: Client)
    requires Safe(c) && c.wait.Go? && c.state.SendClientCertificate? && !c.requested
    ensures Onward(c, GoTo(c, SendClientKeyExchange))
  {
    hide SignedInFull;
  }

  lemma CertificateSent(c: Client)
    requires Safe(c) && c.wait.Go? && c.state.SendClientCertificate?
    ensures Onward(c, GoTo(Emit(c.(held := c.held && c.hasCert), Certificate(false, !c.hasCert)),
                           SendClientKeyExchange))
  {
    hide SignedInFull;
    SignedMore(c.transcript, Certificate(false, !c.hasCert));
  }

  lemma KeySent(c: Client)
    requires Safe(c) && c.wait.Go? && c.state.SendClientKeyExchange?
    ensures Onward(c, GoTo(Emit(c, ClientKeyExchange), SendClientCertificateVerify))
  {
    hide SignedInFull;
    SignedMore(c.transcript, ClientKeyExchange);
  }

  lemma NotSigned(c: Client)
    requires Safe(c) && c.wait.Go? && c.state.SendClientCertificateVerify? && (!c.requested || !c.hasCert)
    ensures Onward(c, GoTo(c, SendClientFinished))
  {
    hide SignedInFull;
  }

  lemma Signed(c: Client)
    requires Safe(c) && c.wait.Go? && c.state.SendClientCertificateVerify? && c.requested && c.hasCert
    ensures Onward(c, GoTo(Emit(c, CertificateVerify(Buffer(c))).(held := false), SendClientFinished))
  {
    hide SignedInFull;
    SignedMore(c.transcript, CertificateVerify(c.transcript));
  }

  lemma FlightSent(c: Client)
    requires Safe(c) && c.wait.Go? && c.state.SendClientFinished?
    ensures Onward(c, c.(flight := c.flight + LastFlight(c), transcript := WithFinished(c), writeKeys := true,
                         state := FinishFlight, wait := Flush))
  {
    FinishedSigned(c);
    hide SignedInFull, WithFinished, LastFlight;
  }

  lemma FlightDone(c: Client)
    requires Safe(c) && c.wait.Go? && c.state.FinishFlight? && c.flags.resumed
    ensures Onward(c, GoTo(c, FinishClientHandshake))
  {
    hide SignedInFull;
  }

  lemma FlightGoesOn(c: Client, wait: Wait)
    requires Safe(c) && c.wait.Go? && c.state.FinishFlight? && !c.flags.resumed
    ensures Onward(c, GoTo(c.(wait := wait), ReadSessionTicket))
  {
    hide SignedInFull;
  }

  lemma NoTicket(c: Client)
    requires Safe(c) && c.wait.Go? && c.state.ReadSessionTicket?
    ensures Onward(c, GoTo(c.(wait := ReadCcs), ProcessChangeCipherSpec))
  {
    hide SignedInFull;
  }

  lemma KeysRead(c: Client)
    requires Safe(c) && c.wait.Go? && c.state.ProcessChangeCipherSpec?
    ensures Onward(c, GoTo(c.(readKeys := true), ReadServerFinished))
  {
    hide SignedInFull;
  }

  lemma Completed(c: Client)
    requires Safe(c) && c.wait.Go? && c.state.FinishClientHandshake?
    ensures Onward(c, GoTo(c, Done))
  {
    hide SignedInFull;
  }

  lemma SendingIsSafe(c: Client, o: Outcome)
    requires Safe(c) && c.wait.Go?
    ensures c.state.StartConnect? ==> Proceeds(c, o, DoStartConnect(c, o))
    ensures c.state.VerifyServerCertificate? ==> Proceeds(c, o, DoVerifyServerCertificate(c, o))
    ensures c.state.SendClientCertificate? ==> Proceeds(c, o, DoSendClientCertificate(c, o))
    ensures c.state.SendClientKeyExchange? ==> Proceeds(c, o, DoSendClientKeyExchange(c, o))
    ensures c.state.SendClientCertificateVerify? ==> Proceeds(c, o, DoSendClientCertificateVerify(c, o))
    ensures c.state.SendClientFinished? ==> Proceeds(c, o, DoSendClientFinished(c, o))
    ensures c.state.FinishFlight? ==> Proceeds(c, o, DoFinishFlight(c, o))
    ensures c.state.ProcessChangeCipherSpec? ==> Proceeds(c, o, DoProcessChangeCipherSpec(c, o))
  {
    hide Safe, Onward, Fail, Await, WithFinished, LastFlight, Emit, GoTo;
    match c.state {
      case StartConnect => Started(c);
      case VerifyServerCertificate =>
        if !c.flags.certAuth {
          NotVerified(c);
        }
        Verified(c);
      case SendClientCertificate =>
        if !c.requested {
          NotRequested(c);
        }
        CertificateSent(c);
      case SendClientKeyExchange => KeySent(c);
      case SendClientCertificateVerify =>
        if !c.requested || !c.hasCert {
          NotSigned(c);
        } else {
          Signed(c);
        }
      case SendClientFinished => FlightSent(c);
      case FinishFlight =>
        if c.flags.resumed {
          FlightDone(c);
        } else {
          FlightGoesOn(c, if o.Retry? then Again else Go);
        }
      case ProcessChangeCipherSpec => KeysRead(c);
      case _ =>
    }
  }

  lemma OtherIsSafe(c: Client, o: Outcome)
    requires Safe(c) && c.wait.Go? && !Reads(c) && !c.state.Done?
    ensures Proceeds(c, o, DoOther(c, o))
  {
    hide Safe, Onward, Fail, Await, GoTo, DoStartConnect, DoVerifyServerCertificate, DoSendClientCertificate,
         DoSendClientKeyExchange,
         DoSendClientCertificateVerify, DoSendClientFinished, DoFinishFlight, DoProcessChangeCipherSpec;
    SendingIsSafe(c, o);
    match c.state {
      case EnterEarlyData => Entered(c);
      case ReadServerCertificate => NoCertificate(c);
      case ReadCertificateStatus => NoStatus(c);
      case ReadCertificateRequest => NoRequest(c);
      case ReadSessionTicket => NoTicket(c);
      case FinishClientHandshake => Completed(c);
      case _ =>
    }
  }

  lemma DoProceeds(c: Client, got: Received, o: Outcome)
    requires Safe(c) && c.wait.Go? && !c.state.Done?
    ensures var t := Do(c, got, o);
            Proceeds(c, o, t.side) || (got.NoMessage? && t == Kept(Await(c, ReadMessage)))
  {
    hide DoRead, DoOther, Safe, Proceeds, Reads;
    if !Reads(c) {
      OtherIsSafe(c, o);
    } else if got.Received? {
      ReadIsSafe(c, got.m, o);
    }
  }

  lemma DoIsSafe(c: Client, got: Received, o: Outcome)
    requires Safe(c) && c.wait.Go? && !c.state.Done?
    ensures Safe(Do(c, got, o).side)
  {
    hide Do, Safe, Rank;
    DoProceeds(c, got, o);
    WaitingIsSafe(c, Failed, c.flight);
    WaitingIsSafe(c, Again, c.flight);
    WaitingIsSafe(c, ReadMessage, c.flight);
  }

  lemma DoneStays(c: Client, got: Received, o: Outcome)
    requires c.state.Done?
    ensures Do(c, got, o) == Kept(c)
  {
  }

  lemma StepIsSafe(e: End, inbox: seq<Item>, o: Outcome)
    requires Safe(e.hs)
    ensures Safe(Step(e, inbox, o).end.hs)
  {
    hide Safe, Do, Rank;
    var got := GetMessage(e.buffered, inbox);
    match e.hs.wait {
      case Failed =>
      case Go =>
        if e.hs.state.Done? {
          DoneStays(e.hs, got, o);
        } else {
          DoIsSafe(e.hs, got, o);
        }
      case Flush => WaitingIsSafe(e.hs, Go, []);
      case _ =>
        WaitingIsSafe(e.hs, Go, e.hs.flight);
        WaitingIsSafe(e.hs, Failed, e.hs.flight);
    }
  }

  lemma {:induction false} RunIsSafe(hasCert: bool, inputs: seq<Input>)
    ensures Safe(Run(hasCert, inputs).hs)
  {
    hide Step;
    if inputs != [] {
      var last := inputs[|inputs| - 1];
      RunIsSafe(hasCert, inputs[..|inputs| - 1]);
      StepIsSafe(Run(hasCert, inputs[..|inputs| - 1]), last.inbox, last.outcome);
    }
  }

  /** Whatever the peer sends: a client that reaches the end has checked the server's Finished
      after installing its read keys; it sends no ClientKeyExchange of a certificate handshake
      before it has verified the chain; and a signature it sends covers the whole transcript. */
  lemma ClientControl(hasCert: bool, inputs: seq<Input>)
    ensures var c := Run(hasCert, inputs).hs;
            && (c.state.Done? ==> c.readKeys && c.finishedOk)
            && (ClientKeyExchange in c.transcript && c.flags.certAuth && !c.flags.resumed ==> c.verified)
            && (c.state.SendClientCertificateVerify? && c.requested && c.hasCert ==> c.held)
            && SignedInFull(c.transcript)
  {
    hide SignedInFull, Run;
    RunIsSafe(hasCert, inputs);
  }

  /** A turn leads on, unless it fails, has a callback asked again, or comes to wait for a message
      that is not there; for a resumed session the end is in other order. */
  lemma TurnsLeadOn(c: Client, got: Received, o: Outcome)
    requires Safe(c) && c.wait.Go? && !c.state.Done?
    ensures var t := Do(c, got, o);
            || Rank(t.side) > Rank(c) || t.side == Fail(c) || (o.Retry? && t.side == Await(c, Again))
            || (got.NoMessage? && t == Kept(Await(c, ReadMessage)))
  {
    hide Do, Rank, Safe;
    DoProceeds(c, got, o);
  }

  /** The turns of a state come before those of the next. */
  function Turns(wait: Wait, buffered: bool): (n: nat)
    ensures n <= 4
  {
    match wait
    case Failed => 0
    case Go => if buffered then 0 else 2
    case ReadMessage => 1
    case Again => 3
    case ReadCcs => 3
    case Flush => 4
  }

  /** How much of the handshake is left. */
  function Remaining(e: End): (n: nat) {
    (20 - Rank(e.hs)) * 5 + Turns(e.hs.wait, e.buffered)
  }

  lemma SameRank(c: Client, c': Client)
    requires c.state == c'.state && c.flags == c'.flags
    ensures Rank(c) == Rank(c')
  {
  }

  /** A turn of the loop brings the end nearer, unless it fails or has a callback asked again. */
  lemma GoLeadsOn(e: End, got: Received, o: Outcome)
    requires Safe(e.hs) && !e.hs.state.Done? && e.hs.wait.Go? && (e.buffered ==> got.Received?)
    ensures var t := Do(e.hs, got, o);
            || t.side.wait.Failed? || (o.Retry? && t.side == Await(e.hs, Again))
            || Remaining(End(t.side, e.buffered && t.Kept?)) < Remaining(e)
  {
    hide Safe, Do, Rank;
    TurnsLeadOn(e.hs, got, o);
    SameRank(e.hs, Await(e.hs, ReadMessage));
    var t := Do(e.hs, got, o);
    if Rank(t.side) > Rank(e.hs) {
      assert (20 - Rank(t.side)) * 5 + 5 <= (20 - Rank(e.hs)) * 5;
    }
  }

  /** What is waited for brings the end nearer. */
  lemma WaitLeadsOn(e: End, e': End)
    requires e'.hs.state == e.hs.state && e'.hs.flags == e.hs.flags
    requires Turns(e'.hs.wait, e'.buffered) < Turns(e.hs.wait, e.buffered)
    ensures Remaining(e') < Remaining(e)
  {
    hide Rank, Turns;
    SameRank(e.hs, e'.hs);
  }

  lemma AgainLeadsOn(e: End, inbox: seq<Item>)
    requires e.hs.wait.Again?
    ensures Remaining(Step(e, inbox, Good).end) < Remaining(e)
  {
    hide Remaining;
    WaitLeadsOn(e, End(Await(e.hs, Go), e.buffered));
  }

  lemma FlushLeadsOn(e: End, inbox: seq<Item>)
    requires e.hs.wait.Flush?
    ensures Remaining(Step(e, inbox, Good).end) < Remaining(e)
  {
    hide Remaining;
    WaitLeadsOn(e, End(e.hs.(flight := [], wait := Go), e.buffered));
  }

  lemma MessageLeadsOn(e: End, inbox: seq<Item>)
    requires e.hs.wait.ReadMessage? && inbox != []
    ensures var e' := Step(e, inbox, Good).end; e'.hs.wait.Failed? || Remaining(e') < Remaining(e)
  {
    hide Remaining;
    WaitLeadsOn(e, End(Await(e.hs, Go), true));
  }

  lemma CcsLeadsOn(e: End, inbox: seq<Item>)
    requires e.hs.wait.ReadCcs? && inbox != []
    ensures var e' := Step(e, inbox, Good).end; e'.hs.wait.Failed? || Remaining(e') < Remaining(e)
  {
    hide Remaining;
    WaitLeadsOn(e, End(Await(e.hs, Go), e.buffered));
  }

  lemma GoIsTurn(e: End, inbox: seq<Item>)
    requires e.hs.wait.Go?
    ensures var t := Do(e.hs, GetMessage(e.buffered, inbox), Good);
            Step(e, inbox, Good).end == End(t.side, e.buffered && t.Kept?)
  {
    hide Do;
  }

  /** With what it waits for at hand, and no callback to be asked again, every turn brings the
      end nearer, unless it fails. */
  lemma {:induction false} StepLeadsOn(e: End, inbox: seq<Item>)
    requires Safe(e.hs) && !e.hs.wait.Failed? && (e.hs.wait.Go? ==> !e.hs.state.Done?)
    requires e.hs.wait.Go? && e.buffered ==> GetMessage(true, inbox).Received?
    requires inbox == [] ==> !e.hs.wait.ReadMessage? && !e.hs.wait.ReadCcs?
    ensures var t := Step(e, inbox, Good);
            t.end.hs.wait.Failed? || Remaining(t.end) < Remaining(e)
  {
    hide Safe, Do, Rank, Remaining, Step;
    match e.hs.wait {
      case Go =>
        GoLeadsOn(e, GetMessage(e.buffered, inbox), Good);
        GoIsTurn(e, inbox);
      case Again => AgainLeadsOn(e, inbox);
      case Flush => FlushLeadsOn(e, inbox);
      case ReadMessage => MessageLeadsOn(e, inbox);
      case ReadCcs => CcsLeadsOn(e, inbox);
      case Failed =>
    }
  }

  lemma AnswerLeadsOn(e: End, inbox: seq<Item>)
    requires Safe(e.hs) && !e.hs.wait.Go?
    requires inbox == [] ==> !e.hs.wait.ReadMessage? && !e.hs.wait.ReadCcs?
    ensures var t := Step(e, inbox, Good); t.end.hs.wait.Go? ==> Remaining(t.end) < Remaining(e)
  {
    hide Do, Safe, Rank, Remaining;
    if !e.hs.wait.Failed? {
      StepLeadsOn(e, inbox);
    }
  }

  lemma RankNeverFalls(c: Client, got: Received, o: Outcome)
    requires Safe(c) && c.wait.Go? && !c.state.Done?
    ensures var c' := Do(c, got, o).side; Rank(c') > Rank(c) || (!c'.wait.Go? && Rank(c') == Rank(c))
  {
    hide Do, Safe, Rank;
    TurnsLeadOn(c, got, o);
    SameRank(c, Await(c, Again));
    SameRank(c, Await(c, ReadMessage));
    SameRank(c, Fail(c));
  }

  lemma DoneIsSafe(c: Client)
    requires Safe(c) && c.state.Done?
    ensures c.readKeys && c.finishedOk
  {
    hide SignedInFull;
  }

  lemma TakesWhatItGot(c: Client, got: Received, o: Outcome)
    ensures Do(c, got, o).Took? ==> got.Received?
  {
    hide DoRead, DoOther, Reads;
  }
}
