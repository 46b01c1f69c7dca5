/** Which turns of the client consult the content of a message, a callback or a primitive, and that
    none of them can come out badly in a handshake that goes on. */
module HsClientChecks {
  import opened HsMessages
  import opened HsClient

  // ------------------------------------------------------------------- one turn

  /** The message is not one that the state takes, or lets be for the next state. */
  predicate Unexpected(c: Client, m: Message) {
    match c.state
    case ReadServerHello => !m.ServerHello?
    case ReadServerCertificate => c.flags.certAuth && (!m.Certificate? || m.empty)
    case ReadServerKeyExchange => !m.ServerKeyExchange? && c.flags.requiresKeyExchange
    case ReadCertificateRequest => c.flags.certAuth && !m.CertificateRequest? && !m.ServerHelloDone?
    case ReadServerHelloDone => !m.ServerHelloDone?
    case ReadSessionTicket => c.flags.ticket && !m.NewSessionTicket?
    case ReadServerFinished => m != Finished(true, c.transcript)
    case _ => false
  }

  /** The turn has something checked, by the client itself or by a callback: the content of the
      message, the certificate chain, the signature, or making a message of its own. */
  predicate Consults(c: Client, got: Received) {
    match c.state
    case StartConnect => true
    case ReadServerHello => got.Received?
    case ReadServerCertificate => c.flags.certAuth && got.Received?
    case ReadCertificateStatus => c.flags.status && got.Received? && got.m.CertificateStatus?
    case VerifyServerCertificate => c.flags.certAuth
    case ReadServerKeyExchange => got.Received? && got.m.ServerKeyExchange?
    case ReadCertificateRequest => c.flags.certAuth && got.Received? && !got.m.ServerHelloDone?
    case ReadServerHelloDone => got.Received?
    case SendClientCertificate => c.requested
    case SendClientKeyExchange => true
    case SendClientCertificateVerify => c.requested && c.hasCert
    case SendClientFinished => true
    case FinishFlight => !c.flags.resumed
    case ReadSessionTicket => c.flags.ticket && got.Received?
    case ProcessChangeCipherSpec => true
    case _ => false
  }

  /** The callback may want to be asked again. */
  predicate Defers(c: Client) {
    match c.state
    case VerifyServerCertificate => c.flags.certAuth
    case SendClientCertificate => c.requested
    case SendClientCertificateVerify => c.requested && c.hasCert
    case SendClientFinished => c.flags.channelId
    case _ => false
  }

  predicate Refuses(c: Client, got: Received, o: Outcome) {
    (got.Received? && Unexpected(c, got.m)) || (Consults(c, got) && o.Bad?)
  }

  /** How a turn comes out: refused, put off, or on to another state. */
  ghost predicate ComesOut(c: Client, t: Turn, refused: bool, putOff: bool) {
    if refused then t == Kept(Fail(c))
    else if putOff then t == Kept(Await(c, Again))
    else !t.side.wait.Failed? && t.side.state != c.state
  }

  /** What has been checked behind a turn. */
  ghost predicate Checks(c: Client, c': Client, chain: bool, mac: bool) {
    c'.verified == (c.verified || chain) && c'.finishedOk == (c.finishedOk || mac)
  }

  /** A turn that reads, with its message there. */
  ghost predicate ReadsWell(c: Client, m: Message, o: Outcome, t: Turn) {
    && ComesOut(c, t, Refuses(c, Received(m), o), false)
    && Checks(c, t.side, false, c.state.ReadServerFinished? && m == Finished(true, c.transcript))
  }

  /** Taking a message, or going on without it, changes nothing that is checked. */
  lemma MovesOn(c: Client, m: Message, state: State)
    ensures var c' := Take(c, m, state);
            c'.state == state && c'.wait == c.wait && c'.verified == c.verified && c'.finishedOk == c.finishedOk
    ensures var c' := GoTo(c, state);
            c'.state == state && c'.wait == c.wait && c'.verified == c.verified && c'.finishedOk == c.finishedOk
  {
  }

  lemma ServerHelloTurn(c: Client, m: Message, o: Outcome)
    requires c.wait.Go? && c.state.ReadServerHello?
    ensures ComesOut(c, DoReadServerHello(c, m, o), !m.ServerHello? || o.Bad?, false)
    ensures Checks(c, DoReadServerHello(c, m, o).side, false, false)
  {
    hide Take, GoTo;
    MovesOn(c, m, ReadSessionTicket);
    MovesOn(c, m, ReadServerCertificate);
  }

  lemma ServerCertificateTurn(c: Client, m: Message, o: Outcome)
    requires c.wait.Go? && c.state.ReadServerCertificate? && c.flags.certAuth
    ensures ComesOut(c, DoReadServerCertificate(c, m, o), !m.Certificate? || m.empty || o.Bad?, false)
    ensures Checks(c, DoReadServerCertificate(c, m, o).side, false, false)
  {
    hide Take, GoTo;
    MovesOn(c, m, ReadCertificateStatus);
  }

  lemma CertificateStatusTurn(c: Client, m: Message, o: Outcome)
    requires c.wait.Go? && c.state.ReadCertificateStatus? && c.flags.status
    ensures ComesOut(c, DoReadCertificateStatus(c, m, o), m.CertificateStatus? && o.Bad?, false)
    ensures Checks(c, DoReadCertificateStatus(c, m, o).side, false, false)
  {
  }

  lemma ServerKeyExchangeTurn(c: Client, m: Message, o: Outcome)
    requires c.wait.Go? && c.state.ReadServerKeyExchange?
    ensures ComesOut(c, DoReadServerKeyExchange(c, m, o),
                     if m.ServerKeyExchange? then o.Bad? else c.flags.requiresKeyExchange, false)
    ensures Checks(c, DoReadServerKeyExchange(c, m, o).side, false, false)
  {
    hide Take, GoTo;
    MovesOn(c, m, ReadCertificateRequest);
  }

  lemma CertificateRequestTurn(c: Client, m: Message, o: Outcome)
    requires c.wait.Go? && c.state.ReadCertificateRequest? && c.flags.certAuth
    ensures ComesOut(c, DoReadCertificateRequest(c, m, o),
                     !m.ServerHelloDone? && (!m.CertificateRequest? || o.Bad?), false)
    ensures Checks(c, DoReadCertificateRequest(c, m, o).side, false, false)
  {
  }

  lemma ServerHelloDoneTurn(c: Client, m: Message, o: Outcome)
    requires c.wait.Go? && c.state.ReadServerHelloDone?
    ensures ComesOut(c, DoReadServerHelloDone(c, m, o), !m.ServerHelloDone? || o.Bad?, false)
    ensures Checks(c, DoReadServerHelloDone(c, m, o).side, false, false)
  {
    hide Take, GoTo;
    MovesOn(c, m, SendClientCertificate);
  }

  lemma SessionTicketTurn(c: Client, m: Message, o: Outcome)
    requires c.wait.Go? && c.state.ReadSessionTicket? && c.flags.ticket
    ensures ComesOut(c, DoReadSessionTicket(c, m, o), !m.NewSessionTicket? || o.Bad?, false)
    ensures Checks(c, DoReadSessionTicket(c, m, o).side, false, false)
  {
  }

  lemma ServerFinishedTurn(c: Client, m: Message, o: Outcome)
    requires c.wait.Go? && c.state.ReadServerFinished?
    ensures ComesOut(c, DoReadServerFinished(c, m), m != Finished(true, c.transcript), false)
    ensures Checks(c, DoReadServerFinished(c, m).side, false, m == Finished(true, c.transcript))
  {
  }

  /** What it takes for a reading state to refuse. */
  lemma RefusalsOfReading(c: Client, m: Message, o: Outcome)
    requires Reads(c)
    ensures Refuses(c, Received(m), o) == match c.state
              case ReadServerHello => !m.ServerHello? || o.Bad?
              case ReadServerCertificate => !m.Certificate? || m.empty || o.Bad?
              case ReadCertificateStatus => m.CertificateStatus? && o.Bad?
              case ReadServerKeyExchange => if m.ServerKeyExchange? then o.Bad? else c.flags.requiresKeyExchange
              case ReadCertificateRequest => !m.ServerHelloDone? && (!m.CertificateRequest? || o.Bad?)
              case ReadServerHelloDone => !m.ServerHelloDone? || o.Bad?
              case ReadSessionTicket => !m.NewSessionTicket? || o.Bad?
              case ReadServerFinished => m != Finished(true, c.transcript)
              case _ => false
  {
  }

  lemma ReadTurn(c: Client, m: Message, o: Outcome)
    requires c.wait.Go? && Reads(c)
    ensures ReadsWell(c, m, o, DoRead(c, m, o))
  {
    RefusalsOfReading(c, m, o);
    hide ComesOut, Checks, Refuses, DoReadServerHello, DoReadServerCertificate, DoReadCertificateStatus,
         DoReadServerKeyExchange, DoReadCertificateRequest, DoReadServerHelloDone, DoReadSessionTicket,
         DoReadServerFinished;
    match c.state {
      case ReadServerHello => ServerHelloTurn(c, m, o);
      case ReadServerCertificate => ServerCertificateTurn(c, m, o);
      case ReadCertificateStatus => CertificateStatusTurn(c, m, o);
      case ReadServerKeyExchange => ServerKeyExchangeTurn(c, m, o);
      case ReadCertificateRequest => CertificateRequestTurn(c, m, o);
      case ReadServerHelloDone => ServerHelloDoneTurn(c, m, o);
      case ReadSessionTicket => SessionTicketTurn(c, m, o);
      case ReadServerFinished => ServerFinishedTurn(c, m, o);
      case _ =>
    }
  }

  /** A turn that reads nothing. */
  ghost predicate WorksWell(c: Client, o: Outcome, c': Client) {
    && ComesOut(c, Kept(c'), Refuses(c, NoMessage, o), Defers(c) && o.Retry?)
    && Checks(c, c', c.state.VerifyServerCertificate? && c.flags.certAuth && o.Good?, false)
  }

  lemma StartConnectTurn(c: Client, o: Outcome)
    requires c.wait.Go? && c.state.StartConnect?
    ensures ComesOut(c, Kept(DoStartConnect(c, o)), o.Bad?, false)
    ensures Checks(c, DoStartConnect(c, o), false, false)
  {
  }

  lemma VerifyServerCertificateTurn(c: Client, o: Outcome)
    requires c.wait.Go? && c.state.VerifyServerCertificate?
    ensures ComesOut(c, Kept(DoVerifyServerCertificate(c, o)), c.flags.certAuth && o.Bad?, c.flags.certAuth && o.Retry?)
    ensures Checks(c, DoVerifyServerCertificate(c, o), c.flags.certAuth && o.Good?, false)
  {
  }

  lemma SendClientCertificateTurn(c: Client, o: Outcome)
    requires c.wait.Go? && c.state.SendClientCertificate?
    ensures ComesOut(c, Kept(DoSendClientCertificate(c, o)), c.requested && o.Bad?, c.requested && o.Retry?)
    ensures Checks(c, DoSendClientCertificate(c, o), false, false)
  {
  }

  lemma SendClientKeyExchangeTurn(c: Client, o: Outcome)
    requires c.wait.Go? && c.state.SendClientKeyExchange?
    ensures ComesOut(c, Kept(DoSendClientKeyExchange(c, o)), o.Bad?, false)
    ensures Checks(c, DoSendClientKeyExchange(c, o), false, false)
  {
  }

  lemma SendClientCertificateVerifyTurn(c: Client, o: Outcome)
    requires c.wait.Go? && c.state.SendClientCertificateVerify?
    ensures ComesOut(c, Kept(DoSendClientCertificateVerify(c, o)), c.requested && c.hasCert && o.Bad?,
                     c.requested && c.hasCert && o.Retry?)
    ensures Checks(c, DoSendClientCertificateVerify(c, o), false, false)
  {
  }

  lemma SendClientFinishedTurn(c: Client, o: Outcome)
    requires c.wait.Go? && c.state.SendClientFinished?
    ensures ComesOut(c, Kept(DoSendClientFinished(c, o)), o.Bad?, c.flags.channelId && o.Retry?)
    ensures Checks(c, DoSendClientFinished(c, o), false, false)
  {
    hide LastFlight, WithFinished;
  }

  lemma FinishFlightTurn(c: Client, o: Outcome)
    requires c.wait.Go? && c.state.FinishFlight?
    ensures ComesOut(c, Kept(DoFinishFlight(c, o)), !c.flags.resumed && o.Bad?, false)
    ensures Checks(c, DoFinishFlight(c, o), false, false)
  {
  }

  lemma ProcessChangeCipherSpecTurn(c: Client, o: Outcome)
    requires c.wait.Go? && c.state.ProcessChangeCipherSpec?
    ensures ComesOut(c, Kept(DoProcessChangeCipherSpec(c, o)), o.Bad?, false)
    ensures Checks(c, DoProcessChangeCipherSpec(c, o), false, false)
  {
  }

  lemma IdleTurn(c: Client)
    requires c.wait.Go?
    requires || c.state.EnterEarlyData? || c.state.ReadServerCertificate? || c.state.ReadCertificateStatus?
             || c.state.ReadCertificateRequest? || c.state.ReadSessionTicket? || c.state.FinishClientHandshake?
    ensures ComesOut(c, Kept(DoNothing(c)), false, false) && Checks(c, DoNothing(c), false, false)
  {
  }

  /** What it takes for a state that reads nothing to refuse. */
  lemma RefusalsOfWorking(c: Client, o: Outcome)
    requires !Reads(c)
    ensures Refuses(c, NoMessage, o) == match c.state
              case StartConnect => o.Bad?
              case VerifyServerCertificate => c.flags.certAuth && o.Bad?
              case SendClientCertificate => c.requested && o.Bad?
              case SendClientKeyExchange => o.Bad?
              case SendClientCertificateVerify => c.requested && c.hasCert && o.Bad?
              case SendClientFinished => o.Bad?
              case FinishFlight => !c.flags.resumed && o.Bad?
              case ProcessChangeCipherSpec => o.Bad?
              case _ => false
  {
  }

  lemma WorkTurn(c: Client, o: Outcome)
    requires c.wait.Go? && !Reads(c) && !c.state.Done?
    ensures WorksWell(c, o, DoOther(c, o))
  {
    RefusalsOfWorking(c, o);
    hide ComesOut, Checks, Refuses, DoNothing, DoStartConnect, DoVerifyServerCertificate, DoSendClientCertificate,
         DoSendClientKeyExchange, DoSendClientCertificateVerify, DoSendClientFinished, DoFinishFlight,
         DoProcessChangeCipherSpec;
    match c.state {
      case StartConnect => StartConnectTurn(c, o);
      case VerifyServerCertificate => VerifyServerCertificateTurn(c, o);
      case SendClientCertificate => SendClientCertificateTurn(c, o);
      case SendClientKeyExchange => SendClientKeyExchangeTurn(c, o);
      case SendClientCertificateVerify => SendClientCertificateVerifyTurn(c, o);
      case SendClientFinished => SendClientFinishedTurn(c, o);
      case FinishFlight => FinishFlightTurn(c, o);
      case ProcessChangeCipherSpec => ProcessChangeCipherSpecTurn(c, o);
      case _ => IdleTurn(c);
    }
  }

  /** A turn is refused if and only if the message is not to be expected or what is consulted
      comes out badly, and put off if and only if a callback wants to be asked again; the chain
      is verified by a good outcome alone, and the Finished is checked by the right MAC alone. */
  lemma TurnComesOut(c: Client, got: Received, o: Outcome)
    requires c.wait.Go? && !c.state.Done? && (Reads(c) ==> got.Received?)
    ensures ComesOut(c, Do(c, got, o), Refuses(c, got, o), Defers(c) && o.Retry?)
    ensures Checks(c, Do(c, got, o).side,
                   c.state.VerifyServerCertificate? && c.flags.certAuth && o.Good?,
                   c.state.ReadServerFinished? && got == Received(Finished(true, c.transcript)))
  {
    hide DoRead, DoOther, Reads, ComesOut, Checks;
    if Reads(c) {
      ReadTurn(c, got.m, o);
      ReadingDefersNothing(c);
    } else {
      WorkTurn(c, o);
      WorkRefusesAlike(c, got, o);
    }
  }

  lemma ReadingDefersNothing(c: Client)
    requires Reads(c)
    ensures !Defers(c) && !c.state.VerifyServerCertificate?
  {
  }

  /** A message that is there already is not looked at. */
  lemma WorkRefusesAlike(c: Client, got: Received, o: Outcome)
    requires !Reads(c)
    ensures Refuses(c, got, o) == Refuses(c, NoMessage, o) && !c.state.ReadServerFinished?
  {
  }

  // ------------------------------------------------------------------ whole runs

  /** Where a run stands before turn `k`. */
  function Before(hasCert: bool, inputs: seq<Input>, k: nat): End
    requires k <= |inputs|
  {
    Run(hasCert, inputs[..k])
  }

  /** Turn `k` of a run is refused. */
  predicate RefusedAt(hasCert: bool, inputs: seq<Input>, k: nat)
    requires k < |inputs|
  {
    var e := Before(hasCert, inputs, k);
    e.hs.wait.Go? && Refuses(e.hs, GetMessage(e.buffered, inputs[k].inbox), inputs[k].outcome)
  }

  lemma OnlyReceivedIsRefused(c: Client, got: Received, o: Outcome)
    ensures c.state.Done? || (Reads(c) && got.NoMessage?) ==> !Refuses(c, got, o)
  {
  }

  lemma StepRefuses(e: End, inbox: seq<Item>, o: Outcome)
    requires e.hs.wait.Go? && Refuses(e.hs, GetMessage(e.buffered, inbox), o)
    ensures Step(e, inbox, o) == Moved(End(Fail(e.hs), e.buffered), false, [])
  {
    hide Do, Refuses;
    var got := GetMessage(e.buffered, inbox);
    OnlyReceivedIsRefused(e.hs, got, o);
    TurnComesOut(e.hs, got, o);
  }

  lemma RunStep(hasCert: bool, inputs: seq<Input>, k: nat)
    requires k < |inputs|
    ensures Before(hasCert, inputs, k + 1)
         == Step(Before(hasCert, inputs, k), inputs[k].inbox, inputs[k].outcome).end
  {
    hide Step;
    assert inputs[..k + 1][..k] == inputs[..k];
  }

  lemma {:induction false} FailedForGood(hasCert: bool, inputs: seq<Input>, k: nat, n: nat)
    requires k <= n <= |inputs| && Before(hasCert, inputs, k).hs.wait.Failed?
    ensures Before(hasCert, inputs, n) == Before(hasCert, inputs, k)
    decreases n - k
  {
    hide Run, Do;
    if k < n {
      FailedForGood(hasCert, inputs, k, n - 1);
      RunStep(hasCert, inputs, n - 1);
    }
  }

  /** Once a turn has been refused the handshake has failed where it stood: whatever else comes,
      nothing more is taken, hashed or sent, and the end is not reached. */
  lemma RefusalIsFinal(hasCert: bool, inputs: seq<Input>, k: nat)
    requires k < |inputs| && RefusedAt(hasCert, inputs, k)
    ensures Run(hasCert, inputs).hs == Fail(Before(hasCert, inputs, k).hs)
    ensures !Run(hasCert, inputs).hs.state.Done?
  {
    hide Run, Step, Refuses;
    var e := Before(hasCert, inputs, k);
    StepRefuses(e, inputs[k].inbox, inputs[k].outcome);
    RunStep(hasCert, inputs, k);
    FailedForGood(hasCert, inputs, k + 1, |inputs|);
    assert inputs[..|inputs|] == inputs;
    OnlyReceivedIsRefused(e.hs, GetMessage(e.buffered, inputs[k].inbox), inputs[k].outcome);
  }

  /** A ChangeCipherSpec came where a message was awaited, or the other way around. */
  predicate WrongItem(wait: Wait, inbox: seq<Item>) {
    inbox != [] && (if wait.ReadMessage? then inbox[0].ChangeCipherSpec? else wait.ReadCcs? && inbox[0].Handshake?)
  }

  /** What is awaited is taken up, and only that. */
  lemma AwaitedIsTaken(e: End, inbox: seq<Item>, o: Outcome)
    requires e.hs.wait.ReadMessage? || e.hs.wait.ReadCcs?
    ensures var t := Step(e, inbox, o);
            && (WrongItem(e.hs.wait, inbox) <==> t.end.hs == Fail(e.hs))
            && (inbox != [] && !WrongItem(e.hs.wait, inbox) <==> t.end.hs == Await(e.hs, Go))
            && (inbox == [] <==> t == Moved(e, false, []))
            && (t.taken <==> e.hs.wait.ReadCcs? && inbox != [] && inbox[0].ChangeCipherSpec?)
            && (t.end.buffered <==> e.buffered || (e.hs.wait.ReadMessage? && inbox != [] && inbox[0].Handshake?))
            && t.sent == []
  {
    hide Do;
    assert Fail(e.hs).wait.Failed? && Await(e.hs, Go).wait.Go?;
  }

  /** The wrong item ends the handshake for good. */
  lemma WrongItemIsFinal(hasCert: bool, inputs: seq<Input>, k: nat)
    requires k < |inputs| && WrongItem(Before(hasCert, inputs, k).hs.wait, inputs[k].inbox)
    ensures Run(hasCert, inputs).hs == Fail(Before(hasCert, inputs, k).hs)
  {
    hide Run, Step;
    var e := Before(hasCert, inputs, k);
    AwaitedIsTaken(e, inputs[k].inbox, inputs[k].outcome);
    RunStep(hasCert, inputs, k);
    FailedForGood(hasCert, inputs, k + 1, |inputs|);
    assert inputs[..|inputs|] == inputs;
  }

  /** Nothing was ever refused in a handshake that has not failed, or is done. */
  lemma NothingWasRefused(hasCert: bool, inputs: seq<Input>)
    requires !Run(hasCert, inputs).hs.wait.Failed? || Run(hasCert, inputs).hs.state.Done?
    ensures forall k :: 0 <= k < |inputs| ==> !RefusedAt(hasCert, inputs, k)
  {
    hide Run, RefusedAt;
    forall k | 0 <= k < |inputs|
      ensures !RefusedAt(hasCert, inputs, k)
    {
      if RefusedAt(hasCert, inputs, k) {
        RefusalIsFinal(hasCert, inputs, k);
      }
    }
  }

  // --------------------------------------------------------- what has been checked

  /** At turn `k` the certificate chain of the server was found good. */
  predicate ChainGoodAt(hasCert: bool, inputs: seq<Input>, k: nat)
    requires k < |inputs|
  {
    var c := Before(hasCert, inputs, k).hs;
    c.wait.Go? && c.state.VerifyServerCertificate? && c.flags.certAuth && inputs[k].outcome.Good?
  }

  /** At turn `k` the server's Finished was received, over the client's transcript. */
  predicate FinishedGoodAt(hasCert: bool, inputs: seq<Input>, k: nat)
    requires k < |inputs|
  {
    var e := Before(hasCert, inputs, k);
    && e.hs.wait.Go? && e.hs.state.ReadServerFinished?
    && GetMessage(e.buffered, inputs[k].inbox) == Received(Finished(true, e.hs.transcript))
  }

  lemma GoesOn(e: End, inbox: seq<Item>, o: Outcome)
    requires e.hs.wait.Go?
    ensures Step(e, inbox, o).end.hs == Do(e.hs, GetMessage(e.buffered, inbox), o).side
  {
    hide Do;
  }

  lemma WaitingChecksNothing(e: End, inbox: seq<Item>, o: Outcome)
    requires !e.hs.wait.Go?
    ensures var c' := Step(e, inbox, o).end.hs; c'.verified == e.hs.verified && c'.finishedOk == e.hs.finishedOk
  {
    hide Do, GetMessage, Await, Fail;
    WaitIsNoCheck(e.hs, Go, []);
    WaitIsNoCheck(e.hs, Failed, []);
  }

  lemma WaitIsNoCheck(c: Client, wait: Wait, flight: seq<Item>)
    ensures Await(c, wait).verified == c.verified && Await(c, wait).finishedOk == c.finishedOk
    ensures Fail(c).verified == c.verified && Fail(c).finishedOk == c.finishedOk
    ensures var c' := c.(flight := flight, wait := wait); c'.verified == c.verified && c'.finishedOk == c.finishedOk
  {
  }

  /** Only a good outcome verifies, and only the right MAC finishes. */
  lemma StepChecks(e: End, inbox: seq<Item>, o: Outcome)
    ensures var c, c' := e.hs, Step(e, inbox, o).end.hs;
            && (c'.verified && !c.verified ==>
                  c.wait.Go? && c.state.VerifyServerCertificate? && c.flags.certAuth && o.Good?)
            && (c'.finishedOk && !c.finishedOk ==>
                  && c.wait.Go? && c.state.ReadServerFinished?
                  && GetMessage(e.buffered, inbox) == Received(Finished(true, c.transcript)))
  {
    hide Do, Reads, GetMessage, ComesOut, Step;
    var got := GetMessage(e.buffered, inbox);
    if !e.hs.wait.Go? {
      WaitingChecksNothing(e, inbox, o);
    } else {
      GoesOn(e, inbox, o);
      if e.hs.state.Done? {
        DoneStays(e.hs, got, o);
      } else if Reads(e.hs) && got.NoMessage? {
        WaitsForMessage(e.hs, o);
      } else {
        TurnComesOut(e.hs, got, o);
      }
    }
  }

  lemma WaitsForMessage(c: Client, o: Outcome)
    requires Reads(c)
    ensures Do(c, NoMessage, o) == Kept(Await(c, ReadMessage))
  {
    hide DoRead, Reads;
  }

  lemma {:induction false} VerifiedSomewhere(hasCert: bool, inputs: seq<Input>, n: nat) returns (k: nat)
    requires n <= |inputs| && Before(hasCert, inputs, n).hs.verified
    ensures k < n && ChainGoodAt(hasCert, inputs, k)
    decreases n
  {
    hide Step, Run;
    if n == 0 {
      BeginsUnchecked(hasCert, inputs);
      assert false;
    } else {
      RunStep(hasCert, inputs, n - 1);
      if Before(hasCert, inputs, n - 1).hs.verified {
        k := VerifiedSomewhere(hasCert, inputs, n - 1);
      } else {
        k := n - 1;
        StepChecks(Before(hasCert, inputs, k), inputs[k].inbox, inputs[k].outcome);
      }
    }
  }

  lemma {:induction false} FinishedSomewhere(hasCert: bool, inputs: seq<Input>, n: nat) returns (k: nat)
    requires n <= |inputs| && Before(hasCert, inputs, n).hs.finishedOk
    ensures k < n && FinishedGoodAt(hasCert, inputs, k)
    decreases n
  {
    hide Step, Run, GetMessage;
    if n == 0 {
      BeginsUnchecked(hasCert, inputs);
      assert false;
    } else {
      RunStep(hasCert, inputs, n - 1);
      if Before(hasCert, inputs, n - 1).hs.finishedOk {
        k := FinishedSomewhere(hasCert, inputs, n - 1);
      } else {
        k := n - 1;
        StepChecks(Before(hasCert, inputs, k), inputs[k].inbox, inputs[k].outcome);
      }
    }
  }

  lemma BeginsUnchecked(hasCert: bool, inputs: seq<Input>)
    ensures !Before(hasCert, inputs, 0).hs.verified && !Before(hasCert, inputs, 0).hs.finishedOk
  {
  }

  /** Whatever the peer sends: before a client of a full certificate handshake says
      ClientKeyExchange, the chain has been verified and was found good. */
  lemma KeyExchangeMeansGoodChain(hasCert: bool, inputs: seq<Input>)
    requires var c := Run(hasCert, inputs).hs;
             ClientKeyExchange in c.transcript && c.flags.certAuth && !c.flags.resumed
    ensures exists k :: 0 <= k < |inputs| && ChainGoodAt(hasCert, inputs, k)
  {
    hide Run;
    ClientControl(hasCert, inputs);
    assert inputs[..|inputs|] == inputs;
    var k := VerifiedSomewhere(hasCert, inputs, |inputs|);
  }

  /** All that had to be checked was: the Finished over the client's own transcript was received,
      and with a certificate cipher the chain was found good; nothing was refused. */
  ghost predicate Checked(hasCert: bool, inputs: seq<Input>, chain: bool) {
    && (exists k :: 0 <= k < |inputs| && FinishedGoodAt(hasCert, inputs, k))
    && (chain ==> exists k :: 0 <= k < |inputs| && ChainGoodAt(hasCert, inputs, k))
    && (forall k :: 0 <= k < |inputs| ==> !RefusedAt(hasCert, inputs, k))
  }

  /** A client that is done has had all of it checked. */
  lemma DoneMeansChecked(hasCert: bool, inputs: seq<Input>)
    requires Run(hasCert, inputs).hs.state.Done?
    ensures var c := Run(hasCert, inputs).hs; Checked(hasCert, inputs, c.flags.certAuth && !c.flags.resumed)
  {
    hide Run, FinishedGoodAt, ChainGoodAt, RefusedAt, SignedInFull;
    RunIsSafe(hasCert, inputs);
    assert inputs[..|inputs|] == inputs;
    var k := FinishedSomewhere(hasCert, inputs, |inputs|);
    if Run(hasCert, inputs).hs.flags.certAuth && !Run(hasCert, inputs).hs.flags.resumed {
      var i := VerifiedSomewhere(hasCert, inputs, |inputs|);
    }
    NothingWasRefused(hasCert, inputs);
  }
}
