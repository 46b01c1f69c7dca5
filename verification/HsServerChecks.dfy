/** Which turns of the server consult the content of a message, a callback or a primitive, and that
    none of them can come out badly in a handshake that goes on. */
module HsServerChecks {
  import opened HsMessages
  import opened HsServer

  // ------------------------------------------------------------------- one turn

  /** The message is not one that the state takes. */
  predicate Unexpected(s: Server, m: Message) {
    match s.state
    case ReadClientHello => !m.ClientHello?
    case SelectCertificate => !m.ClientHello?
    case SelectParameters => !m.ClientHello?
    case ReadClientCertificate => s.requested && !m.Certificate?
    case ReadClientKeyExchange => !m.ClientKeyExchange?
    case ReadClientCertificateVerify => s.peerCert && m != CertificateVerify(if s.held then s.transcript else [])
    case ReadNextProto => s.config.flags.npn && !m.NextProto?
    case ReadChannelId => s.config.flags.channelId && m != ChannelId(s.transcript)
    case ReadClientFinished => m != Finished(false, s.transcript)
    case _ => false
  }

  /** A ServerKeyExchange is sent if the cipher needs one, or a PSK cipher has a hint to give. */
  predicate SendsKeyExchange(config: Config) {
    config.flags.requiresKeyExchange || (!config.flags.certAuth && config.hint)
  }

  /** The turn has something checked, by the server itself or by a callback: the content of the
      message, the certificate chain, the signature, or making a message of its own. */
  predicate Consults(s: Server, got: Received) {
    match s.state
    case SendServerHello => true
    case SendServerCertificate => true
    case SendServerKeyExchange => SendsKeyExchange(s.config)
    case SendServerHelloDone => true
    case VerifyClientCertificate => s.peerCert
    case ProcessChangeCipherSpec => true
    case SendServerFinished => true
    case _ => Reads(s) && got.Received?
  }

  /** The callback may want to be asked again. */
  predicate Defers(s: Server) {
    match s.state
    case ReadClientHello => true
    case SelectCertificate => true
    case SelectParameters => true
    case SendServerKeyExchange => s.config.flags.requiresKeyExchange && s.config.flags.certAuth
    case VerifyClientCertificate => s.peerCert
    case ReadClientKeyExchange => true
    case _ => false
  }

  predicate Refuses(s: Server, got: Received, o: Outcome) {
    (got.Received? && Unexpected(s, got.m)) || (Consults(s, got) && o.Bad?)
  }

  /** How a turn comes out: refused, put off, or on to another state. */
  ghost predicate ComesOut(s: Server, t: Turn, refused: bool, putOff: bool) {
    if refused then t == Kept(Fail(s))
    else if putOff then t == Kept(Await(s, Again))
    else !t.side.wait.Failed? && t.side.state != s.state
  }

  /** What has been checked behind a turn. */
  ghost predicate Checks(s: Server, s': Server, chain: bool, signature: bool, mac: bool) {
    && s'.verified == (s.verified || chain) && s'.signed == (s.signed || signature)
    && s'.finishedOk == (s.finishedOk || mac)
  }

  /** Taking a message, or going on without it, changes nothing that is checked. */
  lemma MovesOn(s: Server, m: Message, state: State)
    ensures var s' := Take(s, m, state);
            && s'.state == state && s'.wait == s.wait && s'.verified == s.verified && s'.signed == s.signed
            && s'.finishedOk == s.finishedOk
    ensures var s' := GoTo(s, state);
            && s'.state == state && s'.wait == s.wait && s'.verified == s.verified && s'.signed == s.signed
            && s'.finishedOk == s.finishedOk
  {
  }

  lemma ClientHelloTurn(s: Server, m: Message, o: Outcome)
    requires s.wait.Go? && s.state.ReadClientHello?
    ensures ComesOut(s, DoReadClientHello(s, m, o), !m.ClientHello? || o.Bad?, o.Retry?)
    ensures Checks(s, DoReadClientHello(s, m, o).side, false, false, false)
  {
  }

  lemma SelectCertificateTurn(s: Server, m: Message, o: Outcome)
    requires s.wait.Go? && s.state.SelectCertificate?
    ensures ComesOut(s, DoSelectCertificate(s, m, o), !m.ClientHello? || o.Bad?, o.Retry?)
    ensures Checks(s, DoSelectCertificate(s, m, o).side, false, false, false)
  {
  }

  lemma SelectParametersTurn(s: Server, m: Message, o: Outcome)
    requires s.wait.Go? && s.state.SelectParameters?
    ensures ComesOut(s, DoSelectParameters(s, m, o), !m.ClientHello? || o.Bad?, o.Retry?)
    ensures Checks(s, DoSelectParameters(s, m, o).side, false, false, false)
  {
  }

  lemma ClientCertificateTurn(s: Server, m: Message, o: Outcome)
    requires s.wait.Go? && s.state.ReadClientCertificate? && s.requested
    ensures ComesOut(s, DoReadClientCertificate(s, m, o), !m.Certificate? || o.Bad?, false)
    ensures Checks(s, DoReadClientCertificate(s, m, o).side, false, false, false)
  {
  }

  lemma ClientKeyExchangeTurn(s: Server, m: Message, o: Outcome)
    requires s.wait.Go? && s.state.ReadClientKeyExchange?
    ensures ComesOut(s, DoReadClientKeyExchange(s, m, o), !m.ClientKeyExchange? || o.Bad?, o.Retry?)
    ensures Checks(s, DoReadClientKeyExchange(s, m, o).side, false, false, false)
  {
  }

  lemma ClientCertificateVerifyTurn(s: Server, m: Message, o: Outcome)
    requires s.wait.Go? && s.state.ReadClientCertificateVerify? && s.peerCert
    ensures ComesOut(s, DoReadClientCertificateVerify(s, m, o), m != CertificateVerify(Buffer(s)) || o.Bad?, false)
    ensures Checks(s, DoReadClientCertificateVerify(s, m, o).side, false,
                   m == CertificateVerify(Buffer(s)) && !o.Bad?, false)
  {
  }

  lemma NextProtoTurn(s: Server, m: Message, o: Outcome)
    requires s.wait.Go? && s.state.ReadNextProto? && s.config.flags.npn
    ensures ComesOut(s, DoReadNextProto(s, m, o), !m.NextProto? || o.Bad?, false)
    ensures Checks(s, DoReadNextProto(s, m, o).side, false, false, false)
  {
  }

  lemma ChannelIdTurn(s: Server, m: Message, o: Outcome)
    requires s.wait.Go? && s.state.ReadChannelId? && s.config.flags.channelId
    ensures ComesOut(s, DoReadChannelId(s, m, o), m != ChannelId(s.transcript) || o.Bad?, false)
    ensures Checks(s, DoReadChannelId(s, m, o).side, false, false, false)
  {
  }

  lemma ClientFinishedTurn(s: Server, m: Message, o: Outcome)
    requires s.wait.Go? && s.state.ReadClientFinished?
    ensures ComesOut(s, DoReadClientFinished(s, m, o), m != Finished(false, s.transcript) || o.Bad?, false)
    ensures Checks(s, DoReadClientFinished(s, m, o).side, false, false, m == Finished(false, s.transcript) && !o.Bad?)
  {
  }

  /** What it takes for a reading state to refuse. */
  lemma RefusalsOfReading(s: Server, m: Message, o: Outcome)
    requires Reads(s)
    ensures Refuses(s, Received(m), o) == match s.state
              case ReadClientHello => !m.ClientHello? || o.Bad?
              case SelectCertificate => !m.ClientHello? || o.Bad?
              case SelectParameters => !m.ClientHello? || o.Bad?
              case ReadClientCertificate => !m.Certificate? || o.Bad?
              case ReadClientKeyExchange => !m.ClientKeyExchange? || o.Bad?
              case ReadClientCertificateVerify => m != CertificateVerify(Buffer(s)) || o.Bad?
              case ReadNextProto => !m.NextProto? || o.Bad?
              case ReadChannelId => m != ChannelId(s.transcript) || o.Bad?
              case ReadClientFinished => m != Finished(false, s.transcript) || o.Bad?
              case _ => false
  {
  }

  /** A turn that reads, with its message there. */
  lemma ReadTurn(s: Server, m: Message, o: Outcome)
    requires s.wait.Go? && Reads(s)
    ensures ComesOut(s, DoRead(s, m, o), Refuses(s, Received(m), o), Defers(s) && o.Retry?)
    ensures Checks(s, DoRead(s, m, o).side, false,
                   s.state.ReadClientCertificateVerify? && m == CertificateVerify(Buffer(s)) && !o.Bad?,
                   s.state.ReadClientFinished? && m == Finished(false, s.transcript) && !o.Bad?)
  {
    RefusalsOfReading(s, m, o);
    hide ComesOut, Checks, Refuses, Buffer, DoReadClientHello, DoSelectCertificate, DoSelectParameters,
         DoReadClientCertificate, DoReadClientKeyExchange, DoReadClientCertificateVerify, DoReadNextProto,
         DoReadChannelId, DoReadClientFinished;
    match s.state {
      case ReadClientHello => ClientHelloTurn(s, m, o);
      case SelectCertificate => SelectCertificateTurn(s, m, o);
      case SelectParameters => SelectParametersTurn(s, m, o);
      case ReadClientCertificate => ClientCertificateTurn(s, m, o);
      case ReadClientKeyExchange => ClientKeyExchangeTurn(s, m, o);
      case ReadClientCertificateVerify => ClientCertificateVerifyTurn(s, m, o);
      case ReadNextProto => NextProtoTurn(s, m, o);
      case ReadChannelId => ChannelIdTurn(s, m, o);
      case ReadClientFinished => ClientFinishedTurn(s, m, o);
      case _ =>
    }
  }

  lemma SendServerHelloTurn(s: Server, o: Outcome)
    requires s.wait.Go? && s.state.SendServerHello?
    ensures ComesOut(s, Kept(DoSendServerHello(s, o)), o.Bad?, false)
    ensures Checks(s, DoSendServerHello(s, o), false, false, false)
  {
  }

  lemma SendServerCertificateTurn(s: Server, o: Outcome)
    requires s.wait.Go? && s.state.SendServerCertificate?
    ensures ComesOut(s, Kept(DoSendServerCertificate(s, o)), o.Bad?, false)
    ensures Checks(s, DoSendServerCertificate(s, o), false, false, false)
  {
    hide AfterStatus, Certificates;
  }

  lemma SendServerKeyExchangeTurn(s: Server, o: Outcome)
    requires s.wait.Go? && s.state.SendServerKeyExchange?
    ensures ComesOut(s, Kept(DoSendServerKeyExchange(s, o)), SendsKeyExchange(s.config) && o.Bad?,
                     s.config.flags.requiresKeyExchange && s.config.flags.certAuth && o.Retry?)
    ensures Checks(s, DoSendServerKeyExchange(s, o), false, false, false)
  {
    hide Emit, GoTo;
    EmitChangesNothing(s, ServerKeyExchange);
    MovesOn(s, ServerKeyExchange, SendServerHelloDone);
    MovesOn(Emit(s, ServerKeyExchange), ServerKeyExchange, SendServerHelloDone);
  }

  lemma EmitChangesNothing(s: Server, m: Message)
    ensures var s' := Emit(s, m);
            && s'.state == s.state && s'.wait == s.wait && s'.verified == s.verified && s'.signed == s.signed
            && s'.finishedOk == s.finishedOk
  {
  }

  lemma SendServerHelloDoneTurn(s: Server, o: Outcome)
    requires s.wait.Go? && s.state.SendServerHelloDone?
    ensures ComesOut(s, Kept(DoSendServerHelloDone(s, o)), o.Bad?, false)
    ensures Checks(s, DoSendServerHelloDone(s, o), false, false, false)
  {
    hide AfterRequest, HelloDone;
  }

  lemma VerifyClientCertificateTurn(s: Server, o: Outcome)
    requires s.wait.Go? && s.state.VerifyClientCertificate?
    ensures ComesOut(s, Kept(DoVerifyClientCertificate(s, o)), s.peerCert && o.Bad?, s.peerCert && o.Retry?)
    ensures Checks(s, DoVerifyClientCertificate(s, o), s.peerCert && o.Good?, false, false)
  {
  }

  lemma ProcessChangeCipherSpecTurn(s: Server, o: Outcome)
    requires s.wait.Go? && s.state.ProcessChangeCipherSpec?
    ensures ComesOut(s, Kept(DoProcessChangeCipherSpec(s, o)), o.Bad?, false)
    ensures Checks(s, DoProcessChangeCipherSpec(s, o), false, false, false)
  {
  }

  lemma SendServerFinishedTurn(s: Server, o: Outcome)
    requires s.wait.Go? && s.state.SendServerFinished?
    ensures ComesOut(s, Kept(DoSendServerFinished(s, o)), o.Bad?, false)
    ensures Checks(s, DoSendServerFinished(s, o), false, false, false)
  {
    hide LastFlight, WithFinished;
  }

  lemma IdleTurn(s: Server)
    requires s.wait.Go?
    requires || s.state.StartAccept? || s.state.ReadClientCertificate? || s.state.ReadClientCertificateVerify?
             || s.state.ReadChangeCipherSpec? || s.state.ReadNextProto? || s.state.ReadChannelId?
             || s.state.FinishServerHandshake?
    ensures ComesOut(s, Kept(DoNothing(s)), false, false) && Checks(s, DoNothing(s), false, false, false)
  {
  }

  /** What it takes for a state that reads nothing to refuse. */
  lemma RefusalsOfWorking(s: Server, o: Outcome)
    requires !Reads(s)
    ensures Refuses(s, NoMessage, o) == match s.state
              case SendServerHello => o.Bad?
              case SendServerCertificate => o.Bad?
              case SendServerKeyExchange => SendsKeyExchange(s.config) && o.Bad?
              case SendServerHelloDone => o.Bad?
              case VerifyClientCertificate => s.peerCert && o.Bad?
              case ProcessChangeCipherSpec => o.Bad?
              case SendServerFinished => o.Bad?
              case _ => false
  {
  }

  /** A turn that reads nothing. */
  lemma WorkTurn(s: Server, o: Outcome)
    requires s.wait.Go? && !Reads(s) && !s.state.Done?
    ensures ComesOut(s, Kept(DoOther(s, o)), Refuses(s, NoMessage, o), Defers(s) && o.Retry?)
    ensures Checks(s, DoOther(s, o), s.state.VerifyClientCertificate? && s.peerCert && o.Good?, false, false)
  {
    RefusalsOfWorking(s, o);
    hide ComesOut, Checks, Refuses, DoNothing, DoSendServerHello, DoSendServerCertificate, DoSendServerKeyExchange,
         DoSendServerHelloDone, DoVerifyClientCertificate, DoProcessChangeCipherSpec, DoSendServerFinished;
    match s.state {
      case SendServerHello => SendServerHelloTurn(s, o);
      case SendServerCertificate => SendServerCertificateTurn(s, o);
      case SendServerKeyExchange => SendServerKeyExchangeTurn(s, o);
      case SendServerHelloDone => SendServerHelloDoneTurn(s, o);
      case VerifyClientCertificate => VerifyClientCertificateTurn(s, o);
      case ProcessChangeCipherSpec => ProcessChangeCipherSpecTurn(s, o);
      case SendServerFinished => SendServerFinishedTurn(s, o);
      case _ => IdleTurn(s);
    }
  }

  /** A turn is refused if and only if the message is not to be expected or what is consulted
      comes out badly, and put off if and only if a callback wants to be asked again; the chain
      is verified by a good outcome alone, the signature and the Finished are checked by the right
      ones alone. */
  lemma TurnComesOut(s: Server, got: Received, o: Outcome)
    requires s.wait.Go? && !s.state.Done? && (Reads(s) ==> got.Received?)
    ensures ComesOut(s, Do(s, got, o), Refuses(s, got, o), Defers(s) && o.Retry?)
    ensures Checks(s, Do(s, got, o).side,
                   s.state.VerifyClientCertificate? && s.peerCert && o.Good?,
                   s.state.ReadClientCertificateVerify? && s.peerCert
                   && got == Received(CertificateVerify(Buffer(s))) && !o.Bad?,
                   s.state.ReadClientFinished? && got == Received(Finished(false, s.transcript)) && !o.Bad?)
  {
    hide DoRead, DoOther, Reads, ComesOut, Checks, Buffer;
    if Reads(s) {
      ReadTurn(s, got.m, o);
      ReadingIsNoWork(s);
    } else {
      WorkTurn(s, o);
      WorkRefusesAlike(s, got, o);
    }
  }

  lemma ReadingIsNoWork(s: Server)
    requires Reads(s)
    ensures !s.state.VerifyClientCertificate? && (s.state.ReadClientCertificateVerify? ==> s.peerCert)
  {
  }

  /** A message that is there already is not looked at. */
  lemma WorkRefusesAlike(s: Server, got: Received, o: Outcome)
    requires !Reads(s)
    ensures Refuses(s, got, o) == Refuses(s, NoMessage, o) && !s.state.ReadClientFinished?
    ensures s.state.ReadClientCertificateVerify? ==> !s.peerCert
  {
  }

  // ------------------------------------------------------------------ whole runs

  /** Where a run stands before turn `k`. */
  function Before(config: Config, inputs: seq<Input>, k: nat): End
    requires k <= |inputs|
  {
    Run(config, inputs[..k])
  }

  /** Turn `k` of a run is refused. */
  predicate RefusedAt(config: Config, inputs: seq<Input>, k: nat)
    requires k < |inputs|
  {
    var e := Before(config, inputs, k);
    e.hs.wait.Go? && Refuses(e.hs, GetMessage(e.buffered, inputs[k].inbox), inputs[k].outcome)
  }

  lemma OnlyReceivedIsRefused(s: Server, got: Received, o: Outcome)
    ensures s.state.Done? || (Reads(s) && got.NoMessage?) ==> !Refuses(s, got, o)
  {
  }

  lemma StepRefuses(e: End, inbox: seq<Item>, o: Outcome)
    requires e.hs.wait.Go? && Refuses(e.hs, GetMessage(e.buffered, inbox), o)
    ensures Step(e, inbox, o) == Moved(End(Fail(e.hs), e.buffered), false, [])
  {
    hide Do, Refuses;
    var got := GetMessage(e.buffered, inbox);
    OnlyReceivedIsRefused(e.hs, got, o);
    TurnComesOut(e.hs, got, o);
  }

  lemma RunStep(config: Config, inputs: seq<Input>, k: nat)
    requires k < |inputs|
    ensures Before(config, inputs, k + 1)
         == Step(Before(config, inputs, k), inputs[k].inbox, inputs[k].outcome).end
  {
    hide Step;
    assert inputs[..k + 1][..k] == inputs[..k];
  }

  lemma {:induction false} FailedForGood(config: Config, inputs: seq<Input>, k: nat, n: nat)
    requires k <= n <= |inputs| && Before(config, inputs, k).hs.wait.Failed?
    ensures Before(config, inputs, n) == Before(config, inputs, k)
    decreases n - k
  {
    hide Run, Do;
    if k < n {
      FailedForGood(config, inputs, k, n - 1);
      RunStep(config, inputs, n - 1);
    }
  }

  /** Once a turn has been refused the handshake has failed where it stood: whatever else comes,
      nothing more is taken, hashed or sent, and the end is not reached. */
  lemma RefusalIsFinal(config: Config, inputs: seq<Input>, k: nat)
    requires k < |inputs| && RefusedAt(config, inputs, k)
    ensures Run(config, inputs).hs == Fail(Before(config, inputs, k).hs)
    ensures !Run(config, inputs).hs.state.Done?
  {
    hide Run, Step, Refuses;
    var e := Before(config, inputs, k);
    StepRefuses(e, inputs[k].inbox, inputs[k].outcome);
    RunStep(config, inputs, k);
    FailedForGood(config, inputs, k + 1, |inputs|);
    assert inputs[..|inputs|] == inputs;
    OnlyReceivedIsRefused(e.hs, GetMessage(e.buffered, inputs[k].inbox), inputs[k].outcome);
  }

  /** A ChangeCipherSpec came where a message was awaited, or the other way around. */
  predicate WrongItem(wait: Wait, inbox: seq<Item>) {
    inbox != [] && (if wait.ReadMessage? then inbox[0].ChangeCipherSpec? else wait.ReadCcs? && inbox[0].Handshake?)
  }

  /** What is awaited is taken up, and only that. */
  lemma AwaitedIsTaken(e: End, inbox: seq<Item>, o: Outcome)
    requires e.hs.wait.ReadMessage? || e.hs.wait.ReadCcs?
    ensures var t := Step(e, inbox, o);
            && (WrongItem(e.hs.wait, inbox) <==> t.end.hs == Fail(e.hs))
            && (inbox != [] && !WrongItem(e.hs.wait, inbox) <==> t.end.hs == Await(e.hs, Go))
            && (inbox == [] <==> t == Moved(e, false, []))
            && (t.taken <==> e.hs.wait.ReadCcs? && inbox != [] && inbox[0].ChangeCipherSpec?)
            && (t.end.buffered <==> e.buffered || (e.hs.wait.ReadMessage? && inbox != [] && inbox[0].Handshake?))
            && t.sent == []
  {
    hide Do;
    assert Fail(e.hs).wait.Failed? && Await(e.hs, Go).wait.Go?;
  }

  /** The wrong item ends the handshake for good. */
  lemma WrongItemIsFinal(config: Config, inputs: seq<Input>, k: nat)
    requires k < |inputs| && WrongItem(Before(config, inputs, k).hs.wait, inputs[k].inbox)
    ensures Run(config, inputs).hs == Fail(Before(config, inputs, k).hs)
  {
    hide Run, Step;
    var e := Before(config, inputs, k);
    AwaitedIsTaken(e, inputs[k].inbox, inputs[k].outcome);
    RunStep(config, inputs, k);
    FailedForGood(config, inputs, k + 1, |inputs|);
    assert inputs[..|inputs|] == inputs;
  }

  /** Nothing was ever refused in a handshake that has not failed, or is done. */
  lemma NothingWasRefused(config: Config, inputs: seq<Input>)
    requires !Run(config, inputs).hs.wait.Failed? || Run(config, inputs).hs.state.Done?
    ensures forall k :: 0 <= k < |inputs| ==> !RefusedAt(config, inputs, k)
  {
    hide Run, RefusedAt;
    forall k | 0 <= k < |inputs|
      ensures !RefusedAt(config, inputs, k)
    {
      if RefusedAt(config, inputs, k) {
        RefusalIsFinal(config, inputs, k);
      }
    }
  }

  // --------------------------------------------------------- what has been checked

  /** At turn `k` the certificate chain of the client was found good. */
  predicate ChainGoodAt(config: Config, inputs: seq<Input>, k: nat)
    requires k < |inputs|
  {
    var s := Before(config, inputs, k).hs;
    s.wait.Go? && s.state.VerifyClientCertificate? && s.peerCert && inputs[k].outcome.Good?
  }

  /** At turn `k` the client's signature was received, over the server's transcript, and was
      found good. */
  predicate SignatureGoodAt(config: Config, inputs: seq<Input>, k: nat)
    requires k < |inputs|
  {
    var e := Before(config, inputs, k);
    && e.hs.wait.Go? && e.hs.state.ReadClientCertificateVerify? && e.hs.peerCert && !inputs[k].outcome.Bad?
    && GetMessage(e.buffered, inputs[k].inbox) == Received(CertificateVerify(e.hs.transcript))
  }

  /** At turn `k` the client's Finished was received, over the server's transcript. */
  predicate FinishedGoodAt(config: Config, inputs: seq<Input>, k: nat)
    requires k < |inputs|
  {
    var e := Before(config, inputs, k);
    && e.hs.wait.Go? && e.hs.state.ReadClientFinished? && !inputs[k].outcome.Bad?
    && GetMessage(e.buffered, inputs[k].inbox) == Received(Finished(false, e.hs.transcript))
  }

  lemma GoesOn(e: End, inbox: seq<Item>, o: Outcome)
    requires e.hs.wait.Go?
    ensures Step(e, inbox, o).end.hs == Do(e.hs, GetMessage(e.buffered, inbox), o).side
  {
    hide Do;
  }

  lemma WaitIsNoCheck(s: Server, wait: Wait, flight: seq<Item>)
    ensures Checks(s, Await(s, wait), false, false, false) && Checks(s, Fail(s), false, false, false)
    ensures Checks(s, s.(flight := flight, wait := wait), false, false, false)
  {
  }

  lemma WaitingChecksNothing(e: End, inbox: seq<Item>, o: Outcome)
    requires !e.hs.wait.Go?
    ensures Checks(e.hs, Step(e, inbox, o).end.hs, false, false, false)
  {
    hide Do, GetMessage, Await, Fail;
    WaitIsNoCheck(e.hs, Go, []);
  }

  lemma WaitsForMessage(s: Server, o: Outcome)
    requires Reads(s)
    ensures Do(s, NoMessage, o) == Kept(Await(s, ReadMessage))
  {
    hide DoRead, Reads;
  }

  /** A signature that is accepted is over the whole transcript. */
  lemma BufferIsWhole(s: Server)
    requires Safe(s) && s.state.ReadClientCertificateVerify? && s.peerCert
    ensures Buffer(s) == s.transcript
  {
    hide SignedInFull;
  }

  /** Only a good outcome verifies, and only the right signature and the right MAC are accepted. */
  lemma StepChecks(e: End, inbox: seq<Item>, o: Outcome)
    ensures var s, s', got := e.hs, Step(e, inbox, o).end.hs, GetMessage(e.buffered, inbox);
            && (s'.verified && !s.verified ==>
                  s.wait.Go? && s.state.VerifyClientCertificate? && s.peerCert && o.Good?)
            && (s'.signed && !s.signed ==>
                  && s.wait.Go? && s.state.ReadClientCertificateVerify? && s.peerCert && !o.Bad?
                  && got == Received(CertificateVerify(Buffer(s))))
            && (s'.finishedOk && !s.finishedOk ==>
                  && s.wait.Go? && s.state.ReadClientFinished? && !o.Bad?
                  && got == Received(Finished(false, s.transcript)))
  {
    hide Do, Reads, GetMessage, ComesOut, Step, Buffer;
    var got := GetMessage(e.buffered, inbox);
    if !e.hs.wait.Go? {
      WaitingChecksNothing(e, inbox, o);
    } else {
      GoesOn(e, inbox, o);
      if e.hs.state.Done? {
        DoneStays(e.hs, got, o);
      } else if Reads(e.hs) && got.NoMessage? {
        WaitsForMessage(e.hs, o);
      } else {
        TurnComesOut(e.hs, got, o);
      }
    }
  }

  lemma {:induction false} VerifiedSomewhere(config: Config, inputs: seq<Input>, n: nat) returns (k: nat)
    requires n <= |inputs| && Before(config, inputs, n).hs.verified
    ensures k < n && ChainGoodAt(config, inputs, k)
    decreases n
  {
    hide Step, Run, Buffer;
    if n == 0 {
      BeginsUnchecked(config, inputs);
      assert false;
    } else {
      RunStep(config, inputs, n - 1);
      if Before(config, inputs, n - 1).hs.verified {
        k := VerifiedSomewhere(config, inputs, n - 1);
      } else {
        k := n - 1;
        StepChecks(Before(config, inputs, k), inputs[k].inbox, inputs[k].outcome);
      }
    }
  }

  lemma {:induction false} SignedSomewhere(config: Config, inputs: seq<Input>, n: nat) returns (k: nat)
    requires n <= |inputs| && Before(config, inputs, n).hs.signed
    ensures k < n && SignatureGoodAt(config, inputs, k)
    decreases n
  {
    hide Step, Run, Safe, GetMessage, Buffer;
    if n == 0 {
      BeginsUnchecked(config, inputs);
      assert false;
    } else {
      RunStep(config, inputs, n - 1);
      if Before(config, inputs, n - 1).hs.signed {
        k := SignedSomewhere(config, inputs, n - 1);
      } else {
        k := n - 1;
        RunIsSafe(config, inputs[..k]);
        StepChecks(Before(config, inputs, k), inputs[k].inbox, inputs[k].outcome);
        BufferIsWhole(Before(config, inputs, k).hs);
      }
    }
  }

  lemma {:induction false} FinishedSomewhere(config: Config, inputs: seq<Input>, n: nat) returns (k: nat)
    requires n <= |inputs| && Before(config, inputs, n).hs.finishedOk
    ensures k < n && FinishedGoodAt(config, inputs, k)
    decreases n
  {
    hide Step, Run, GetMessage, Buffer;
    if n == 0 {
      BeginsUnchecked(config, inputs);
      assert false;
    } else {
      RunStep(config, inputs, n - 1);
      if Before(config, inputs, n - 1).hs.finishedOk {
        k := FinishedSomewhere(config, inputs, n - 1);
      } else {
        k := n - 1;
        StepChecks(Before(config, inputs, k), inputs[k].inbox, inputs[k].outcome);
      }
    }
  }

  lemma BeginsUnchecked(config: Config, inputs: seq<Input>)
    ensures var s := Before(config, inputs, 0).hs; !s.verified && !s.signed && !s.finishedOk
  {
  }

  /** All that had to be checked was: the Finished over the server's own transcript was received;
      if there is a client chain, it was found good, and so was a signature over the transcript as
      it stood then; nothing was refused. */
  ghost predicate Checked(config: Config, inputs: seq<Input>, chain: bool) {
    && (exists k :: 0 <= k < |inputs| && FinishedGoodAt(config, inputs, k))
    && (chain ==> exists k :: 0 <= k < |inputs| && ChainGoodAt(config, inputs, k))
    && (chain ==> exists k :: 0 <= k < |inputs| && SignatureGoodAt(config, inputs, k))
    && (forall k :: 0 <= k < |inputs| ==> !RefusedAt(config, inputs, k))
  }

  /** A server that is done has had all of it checked. */
  lemma DoneMeansChecked(config: Config, inputs: seq<Input>)
    requires Run(config, inputs).hs.state.Done?
    ensures Checked(config, inputs, Run(config, inputs).hs.peerCert)
  {
    hide Run, FinishedGoodAt, SignatureGoodAt, ChainGoodAt, RefusedAt;
    ServerControl(config, inputs);
    assert inputs[..|inputs|] == inputs;
    var k := FinishedSomewhere(config, inputs, |inputs|);
    if Run(config, inputs).hs.peerCert {
      var i := VerifiedSomewhere(config, inputs, |inputs|);
      var j := SignedSomewhere(config, inputs, |inputs|);
    }
    NothingWasRefused(config, inputs);
  }
}
