/** `ssl_server_handshake` over a handshake object: the states as methods that update it, and the loop
    that calls them. */
module HsServerLoop {
  import opened HsMessages
  import opened HsServer
  import HsServerChecks

  class ServerHandshake {
    const config: Config
    var state: State
    var wait: Wait
    var flight: seq<Item>
    var requested: bool
    var peerCert: bool
    var transcript: seq<Message>
    var held: bool
    var verified: bool
    var signed: bool
    var readKeys: bool
    var writeKeys: bool
    var finishedOk: bool
    // Whether a message has been read and not been released yet.
    var hasMessage: bool
    ghost var turns: seq<Input>

    function View(): Server
      reads this
    {
      Server(state, wait, flight, config, requested, peerCert, transcript, held, verified, signed,
             readKeys, writeKeys, finishedOk)
    }

    /** The object is where a turn leads from `before`. */
    ghost predicate Turned(before: Server, hadMessage: bool, inbox: seq<Item>, o: Outcome)
      reads this
    {
      Do(before, GetMessage(hadMessage, inbox), o) == (if hasMessage == hadMessage then Kept(View()) else Took(View()))
    }

    method Await(w: Wait)
      modifies this`wait
      ensures View() == HsServer.Await(old(View()), w)
    {
      wait := w;
    }

    method GoTo(next: State)
      modifies this`state
      ensures View() == HsServer.GoTo(old(View()), next)
    {
      state := next;
    }

    /** `tls1_change_cipher_state`. */
    method InstallWriteKeys()
      modifies this`writeKeys
      ensures View() == old(View()).(writeKeys := true)
    {
      writeKeys := true;
    }

    /** The handshake buffer is not needed any more. */
    method FreeBuffer()
      modifies this`held
      ensures View() == old(View()).(held := false)
    {
      held := false;
    }

    /** `ssl_hash_message` and `next_message`. */
    method Take(m: Message)
      modifies this`transcript, this`hasMessage
      ensures View() == old(View()).(transcript := old(transcript) + [m]) && !hasMessage
    {
      transcript := transcript + [m];
      hasMessage := false;
    }

    /** `add_message`, which hashes what is sent. */
    method Add(m: Message)
      modifies this`transcript, this`flight
      ensures View() == old(View()).(transcript := old(transcript) + [m], flight := old(flight) + [Handshake(m)])
    {
      transcript := transcript + [m];
      flight := flight + [Handshake(m)];
    }

    /** A certificate is requested in full handshakes with certificate ciphers only. */
    method DecideRequest()
      modifies this`requested
      ensures requested == Requests(config)
    {
      requested := false;
      if !config.flags.resumed {
        requested := config.verifyPeer;
        if !config.flags.certAuth {
          requested := false;
        }
      }
    }

    method AddCertificates()
      modifies this`transcript, this`flight
      ensures transcript == AfterStatus(old(View())) && flight == old(flight) + Certificates(old(View()))
    {
      if config.flags.certAuth {
        Add(Certificate(true, false));
        if config.flags.status {
          Add(CertificateStatus);
        }
      }
    }

    method AddHelloDone()
      modifies this`transcript, this`flight
      ensures transcript == AfterRequest(old(View())) + [ServerHelloDone]
      ensures flight == old(flight) + HelloDone(old(View()))
    {
      if requested {
        Add(CertificateRequest);
      }
      Add(ServerHelloDone);
    }

    /** The ticket, ChangeCipherSpec and Finished. */
    method AddLastFlight()
      modifies this`transcript, this`flight
      ensures transcript == WithFinished(old(View())) && flight == old(flight) + LastFlight(old(View()))
    {
      ghost var before := View();
      if config.flags.ticket {
        Add(NewSessionTicket);
      }
      flight := flight + [ChangeCipherSpec];
      assert transcript == AfterTicket(before);
      Add(Finished(true, transcript));
    }

    method DoStartAccept(inbox: seq<Item>, o: Outcome)
      requires state.StartAccept? && wait.Go?
      modifies this`state
      ensures Turned(old(View()), old(hasMessage), inbox, o)
    {
      hide HsServer.DoRead, HsServer.DoSendServerHello, HsServer.DoSendServerCertificate,
           HsServer.DoSendServerKeyExchange, HsServer.DoSendServerHelloDone, HsServer.DoVerifyClientCertificate,
           HsServer.DoProcessChangeCipherSpec, HsServer.DoSendServerFinished;
      GoTo(ReadClientHello);
    }

    method DoReadClientHello(inbox: seq<Item>, o: Outcome)
      requires state.ReadClientHello? && wait.Go?
      modifies this`state, this`wait
      ensures Turned(old(View()), old(hasMessage), inbox, o)
    {
      hide HsServer.DoSelectCertificate, HsServer.DoSelectParameters, HsServer.DoReadClientCertificate,
           HsServer.DoReadClientKeyExchange, HsServer.DoReadClientCertificateVerify, HsServer.DoReadNextProto,
           HsServer.DoReadChannelId, HsServer.DoReadClientFinished, HsServer.DoOther;
      var got := GetMessage(hasMessage, inbox);
      if got.NoMessage? {
        Await(ReadMessage);
        return;
      }
      if !got.m.ClientHello? || o.Bad? {
        Await(Failed);
        return;
      }
      if o.Retry? {
        Await(Again);
        return;
      }
      // The message stays until the parameters are selected.
      GoTo(SelectCertificate);
    }

    method DoSelectCertificate(inbox: seq<Item>, o: Outcome)
      requires state.SelectCertificate? && wait.Go?
      modifies this`state, this`wait
      ensures Turned(old(View()), old(hasMessage), inbox, o)
    {
      hide HsServer.DoReadClientHello, HsServer.DoSelectParameters, HsServer.DoReadClientCertificate,
           HsServer.DoReadClientKeyExchange, HsServer.DoReadClientCertificateVerify, HsServer.DoReadNextProto,
           HsServer.DoReadChannelId, HsServer.DoReadClientFinished, HsServer.DoOther;
      var got := GetMessage(hasMessage, inbox);
      if got.NoMessage? {
        Await(ReadMessage);
        return;
      }
      if !got.m.ClientHello? || o.Bad? {
        Await(Failed);
        return;
      }
      if o.Retry? {
        Await(Again);
        return;
      }
      GoTo(SelectParameters);
    }

    method DoSelectParameters(inbox: seq<Item>, o: Outcome)
      requires state.SelectParameters? && wait.Go?
      modifies this`state, this`wait, this`transcript, this`hasMessage, this`requested, this`held
      ensures Turned(old(View()), old(hasMessage), inbox, o)
    {
      hide HsServer.DoReadClientHello, HsServer.DoSelectCertificate, HsServer.DoReadClientCertificate,
           HsServer.DoReadClientKeyExchange, HsServer.DoReadClientCertificateVerify, HsServer.DoReadNextProto,
           HsServer.DoReadChannelId, HsServer.DoReadClientFinished, HsServer.DoOther, HsServer.Requests;
      var got := GetMessage(hasMessage, inbox);
      if got.NoMessage? {
        Await(ReadMessage);
        return;
      }
      if !got.m.ClientHello? || o.Bad? {
        Await(Failed);
        return;
      }
      if o.Retry? {
        Await(Again);
        return;
      }
      DecideRequest();
      if !requested {
        FreeBuffer();
      }
      Take(got.m);
      GoTo(SendServerHello);
    }

    method DoSendServerHello(inbox: seq<Item>, o: Outcome)
      requires state.SendServerHello? && wait.Go?
      modifies this`state, this`wait, this`transcript, this`flight
      ensures Turned(old(View()), old(hasMessage), inbox, o)
    {
      hide HsServer.DoRead, HsServer.DoSendServerCertificate, HsServer.DoSendServerKeyExchange,
           HsServer.DoSendServerHelloDone, HsServer.DoVerifyClientCertificate,
           HsServer.DoProcessChangeCipherSpec, HsServer.DoSendServerFinished, HsServer.DoNothing;
      if o.Bad? {
        Await(Failed);
        return;
      }
      Add(ServerHello(config.flags));
      GoTo(if config.flags.resumed then SendServerFinished else SendServerCertificate);
    }

    method DoSendServerCertificate(inbox: seq<Item>, o: Outcome)
      requires state.SendServerCertificate? && wait.Go?
      modifies this`state, this`wait, this`transcript, this`flight
      ensures Turned(old(View()), old(hasMessage), inbox, o)
    {
      hide HsServer.DoRead, HsServer.DoSendServerHello, HsServer.DoSendServerKeyExchange,
           HsServer.DoSendServerHelloDone, HsServer.DoVerifyClientCertificate,
           HsServer.DoProcessChangeCipherSpec, HsServer.DoSendServerFinished, HsServer.DoNothing,
           HsServer.AfterStatus, HsServer.Certificates;
      if o.Bad? {
        Await(Failed);
        return;
      }
      AddCertificates();
      GoTo(SendServerKeyExchange);
    }

    method DoSendServerKeyExchange(inbox: seq<Item>, o: Outcome)
      requires state.SendServerKeyExchange? && wait.Go?
      modifies this`state, this`wait, this`transcript, this`flight
      ensures Turned(old(View()), old(hasMessage), inbox, o)
    {
      hide HsServer.DoRead, HsServer.DoSendServerHello, HsServer.DoSendServerCertificate,
           HsServer.DoSendServerHelloDone, HsServer.DoVerifyClientCertificate,
           HsServer.DoProcessChangeCipherSpec, HsServer.DoSendServerFinished, HsServer.DoNothing;
      if !config.flags.requiresKeyExchange && (config.flags.certAuth || !config.hint) {
        GoTo(SendServerHelloDone);
        return;
      }
      if o.Bad? {
        Await(Failed);
        return;
      }
      if config.flags.certAuth && o.Retry? {
        Await(Again);
        return;
      }
      Add(ServerKeyExchange);
      GoTo(SendServerHelloDone);
    }

    method DoSendServerHelloDone(inbox: seq<Item>, o: Outcome)
      requires state.SendServerHelloDone? && wait.Go?
      modifies this`state, this`wait, this`transcript, this`flight
      ensures Turned(old(View()), old(hasMessage), inbox, o)
    {
      hide HsServer.DoRead, HsServer.DoSendServerHello, HsServer.DoSendServerCertificate,
           HsServer.DoSendServerKeyExchange, HsServer.DoVerifyClientCertificate,
           HsServer.DoProcessChangeCipherSpec, HsServer.DoSendServerFinished, HsServer.DoNothing, HsServer.AfterRequest,
           HsServer.HelloDone;
      if o.Bad? {
        Await(Failed);
        return;
      }
      AddHelloDone();
      GoTo(ReadClientCertificate);
      Await(Flush);
    }

    method DoReadClientCertificate(inbox: seq<Item>, o: Outcome)
      requires state.ReadClientCertificate? && wait.Go?
      modifies this`state, this`wait, this`transcript, this`hasMessage, this`peerCert, this`held
      ensures Turned(old(View()), old(hasMessage), inbox, o)
    {
      hide HsServer.DoReadClientHello, HsServer.DoSelectCertificate, HsServer.DoSelectParameters,
           HsServer.DoReadClientKeyExchange, HsServer.DoReadClientCertificateVerify, HsServer.DoReadNextProto,
           HsServer.DoReadChannelId, HsServer.DoReadClientFinished, HsServer.DoSendServerHello,
           HsServer.DoSendServerCertificate, HsServer.DoSendServerKeyExchange, HsServer.DoSendServerHelloDone,
           HsServer.DoVerifyClientCertificate, HsServer.DoProcessChangeCipherSpec,
           HsServer.DoSendServerFinished;
      if !requested {
        GoTo(VerifyClientCertificate);
        return;
      }
      var got := GetMessage(hasMessage, inbox);
      if got.NoMessage? {
        Await(ReadMessage);
        return;
      }
      if !got.m.Certificate? || o.Bad? {
        Await(Failed);
        return;
      }
      peerCert := !got.m.empty;
      if got.m.empty {
        FreeBuffer();
      }
      Take(got.m);
      GoTo(VerifyClientCertificate);
    }

    method DoVerifyClientCertificate(inbox: seq<Item>, o: Outcome)
      requires state.VerifyClientCertificate? && wait.Go?
      modifies this`state, this`wait, this`verified
      ensures Turned(old(View()), old(hasMessage), inbox, o)
    {
      hide HsServer.DoRead, HsServer.DoSendServerHello, HsServer.DoSendServerCertificate,
           HsServer.DoSendServerKeyExchange, HsServer.DoSendServerHelloDone, HsServer.DoProcessChangeCipherSpec,
           HsServer.DoSendServerFinished, HsServer.DoNothing;
      if !peerCert {
        GoTo(ReadClientKeyExchange);
        return;
      }
      if o.Bad? {
        Await(Failed);
        return;
      }
      if o.Retry? {
        Await(Again);
        return;
      }
      verified := true;
      GoTo(ReadClientKeyExchange);
    }

    method DoReadClientKeyExchange(inbox: seq<Item>, o: Outcome)
      requires state.ReadClientKeyExchange? && wait.Go?
      modifies this`state, this`wait, this`transcript, this`hasMessage
      ensures Turned(old(View()), old(hasMessage), inbox, o)
    {
      hide HsServer.DoReadClientHello, HsServer.DoSelectCertificate, HsServer.DoSelectParameters,
           HsServer.DoReadClientCertificate, HsServer.DoReadClientCertificateVerify, HsServer.DoReadNextProto,
           HsServer.DoReadChannelId, HsServer.DoReadClientFinished, HsServer.DoOther;
      var got := GetMessage(hasMessage, inbox);
      if got.NoMessage? {
        Await(ReadMessage);
        return;
      }
      if !got.m.ClientKeyExchange? || o.Bad? {
        Await(Failed);
        return;
      }
      if o.Retry? {
        Await(Again);
        return;
      }
      Take(got.m);
      GoTo(ReadClientCertificateVerify);
    }

    method DoReadClientCertificateVerify(inbox: seq<Item>, o: Outcome)
      requires state.ReadClientCertificateVerify? && wait.Go?
      modifies this`state, this`wait, this`transcript, this`hasMessage, this`held, this`signed
      ensures Turned(old(View()), old(hasMessage), inbox, o)
    {
      hide HsServer.DoReadClientHello, HsServer.DoSelectCertificate, HsServer.DoSelectParameters,
           HsServer.DoReadClientCertificate, HsServer.DoReadClientKeyExchange, HsServer.DoReadNextProto,
           HsServer.DoReadChannelId, HsServer.DoReadClientFinished, HsServer.DoSendServerHello,
           HsServer.DoSendServerCertificate, HsServer.DoSendServerKeyExchange, HsServer.DoSendServerHelloDone,
           HsServer.DoVerifyClientCertificate, HsServer.DoProcessChangeCipherSpec,
           HsServer.DoSendServerFinished;
      if !peerCert {
        FreeBuffer();
        GoTo(ReadChangeCipherSpec);
        return;
      }
      CheckSignature(inbox, o);
    }

    /** A CertificateVerify is required, and checked against the handshake buffer. */
    method CheckSignature(inbox: seq<Item>, o: Outcome)
      requires state.ReadClientCertificateVerify? && wait.Go? && peerCert
      modifies this`state, this`wait, this`transcript, this`hasMessage, this`held, this`signed
      ensures Turned(old(View()), old(hasMessage), inbox, o)
    {
      hide HsServer.DoReadClientHello, HsServer.DoSelectCertificate, HsServer.DoSelectParameters,
           HsServer.DoReadClientCertificate, HsServer.DoReadClientKeyExchange, HsServer.DoReadNextProto,
           HsServer.DoReadChannelId, HsServer.DoReadClientFinished, HsServer.DoSendServerHello,
           HsServer.DoSendServerCertificate, HsServer.DoSendServerKeyExchange, HsServer.DoSendServerHelloDone,
           HsServer.DoVerifyClientCertificate, HsServer.DoProcessChangeCipherSpec,
           HsServer.DoSendServerFinished;
      var got := GetMessage(hasMessage, inbox);
      if got.NoMessage? {
        Await(ReadMessage);
        return;
      }
      if got.m != CertificateVerify(if held then transcript else []) || o.Bad? {
        Await(Failed);
        return;
      }
      signed := true;
      FreeBuffer();
      Take(got.m);
      GoTo(ReadChangeCipherSpec);
    }

    method DoReadChangeCipherSpec(inbox: seq<Item>, o: Outcome)
      requires state.ReadChangeCipherSpec? && wait.Go?
      modifies this`state, this`wait
      ensures Turned(old(View()), old(hasMessage), inbox, o)
    {
      hide HsServer.DoRead, HsServer.DoSendServerHello, HsServer.DoSendServerCertificate,
           HsServer.DoSendServerKeyExchange, HsServer.DoSendServerHelloDone, HsServer.DoVerifyClientCertificate,
           HsServer.DoProcessChangeCipherSpec, HsServer.DoSendServerFinished;
      GoTo(ProcessChangeCipherSpec);
      Await(ReadCcs);
    }

    method DoProcessChangeCipherSpec(inbox: seq<Item>, o: Outcome)
      requires state.ProcessChangeCipherSpec? && wait.Go?
      modifies this`state, this`wait, this`readKeys
      ensures Turned(old(View()), old(hasMessage), inbox, o)
    {
      hide HsServer.DoRead, HsServer.DoSendServerHello, HsServer.DoSendServerCertificate,
           HsServer.DoSendServerKeyExchange, HsServer.DoSendServerHelloDone, HsServer.DoVerifyClientCertificate,
           HsServer.DoSendServerFinished, HsServer.DoNothing;
      if o.Bad? {
        Await(Failed);
        return;
      }
      readKeys := true;
      GoTo(ReadNextProto);
    }

    method DoReadNextProto(inbox: seq<Item>, o: Outcome)
      requires state.ReadNextProto? && wait.Go?
      modifies this`state, this`wait, this`transcript, this`hasMessage
      ensures Turned(old(View()), old(hasMessage), inbox, o)
    {
      hide HsServer.DoReadClientHello, HsServer.DoSelectCertificate, HsServer.DoSelectParameters,
           HsServer.DoReadClientCertificate, HsServer.DoReadClientKeyExchange,
           HsServer.DoReadClientCertificateVerify, HsServer.DoReadChannelId, HsServer.DoReadClientFinished,
           HsServer.DoSendServerHello, HsServer.DoSendServerCertificate, HsServer.DoSendServerKeyExchange,
           HsServer.DoSendServerHelloDone, HsServer.DoVerifyClientCertificate,
           HsServer.DoProcessChangeCipherSpec, HsServer.DoSendServerFinished;
      if !config.flags.npn {
        GoTo(ReadChannelId);
        return;
      }
      var got := GetMessage(hasMessage, inbox);
      if got.NoMessage? {
        Await(ReadMessage);
        return;
      }
      if !got.m.NextProto? || o.Bad? {
        Await(Failed);
        return;
      }
      Take(got.m);
      GoTo(ReadChannelId);
    }

    method DoReadChannelId(inbox: seq<Item>, o: Outcome)
      requires state.ReadChannelId? && wait.Go?
      modifies this`state, this`wait, this`transcript, this`hasMessage
      ensures Turned(old(View()), old(hasMessage), inbox, o)
    {
      hide HsServer.DoReadClientHello, HsServer.DoSelectCertificate, HsServer.DoSelectParameters,
           HsServer.DoReadClientCertificate, HsServer.DoReadClientKeyExchange,
           HsServer.DoReadClientCertificateVerify, HsServer.DoReadNextProto, HsServer.DoReadClientFinished,
           HsServer.DoSendServerHello, HsServer.DoSendServerCertificate, HsServer.DoSendServerKeyExchange,
           HsServer.DoSendServerHelloDone, HsServer.DoVerifyClientCertificate,
           HsServer.DoProcessChangeCipherSpec, HsServer.DoSendServerFinished;
      if !config.flags.channelId {
        GoTo(ReadClientFinished);
        return;
      }
      var got := GetMessage(hasMessage, inbox);
      if got.NoMessage? {
        Await(ReadMessage);
        return;
      }
      if got.m != ChannelId(transcript) || o.Bad? {
        Await(Failed);
        return;
      }
      Take(got.m);
      GoTo(ReadClientFinished);
    }

    method DoReadClientFinished(inbox: seq<Item>, o: Outcome)
      requires state.ReadClientFinished? && wait.Go?
      modifies this`state, this`wait, this`transcript, this`hasMessage, this`finishedOk
      ensures Turned(old(View()), old(hasMessage), inbox, o)
    {
      hide HsServer.DoReadClientHello, HsServer.DoSelectCertificate, HsServer.DoSelectParameters,
           HsServer.DoReadClientCertificate, HsServer.DoReadClientKeyExchange,
           HsServer.DoReadClientCertificateVerify, HsServer.DoReadNextProto, HsServer.DoReadChannelId,
           HsServer.DoOther;
      var got := GetMessage(hasMessage, inbox);
      if got.NoMessage? {
        Await(ReadMessage);
        return;
      }
      // The MAC is computed before the message is hashed itself.
      if got.m != Finished(false, transcript) || o.Bad? {
        Await(Failed);
        return;
      }
      finishedOk := true;
      Take(got.m);
      GoTo(if config.flags.resumed then FinishServerHandshake else SendServerFinished);
    }

    method DoSendServerFinished(inbox: seq<Item>, o: Outcome)
      requires state.SendServerFinished? && wait.Go?
      modifies this`state, this`wait, this`transcript, this`flight, this`writeKeys
      ensures Turned(old(View()), old(hasMessage), inbox, o)
    {
      hide HsServer.DoRead, HsServer.DoSendServerHello, HsServer.DoSendServerCertificate,
           HsServer.DoSendServerKeyExchange, HsServer.DoSendServerHelloDone, HsServer.DoVerifyClientCertificate,
           HsServer.DoProcessChangeCipherSpec, HsServer.DoNothing, HsServer.WithFinished, HsServer.LastFlight;
      if o.Bad? {
        Await(Failed);
        return;
      }
      AddLastFlight();
      InstallWriteKeys();
      GoTo(if config.flags.resumed then ReadChangeCipherSpec else FinishServerHandshake);
      Await(Flush);
    }

    method DoFinishServerHandshake(inbox: seq<Item>, o: Outcome)
      requires state.FinishServerHandshake? && wait.Go?
      modifies this`state
      ensures Turned(old(View()), old(hasMessage), inbox, o)
    {
      hide HsServer.DoRead, HsServer.DoSendServerHello, HsServer.DoSendServerCertificate,
           HsServer.DoSendServerKeyExchange, HsServer.DoSendServerHelloDone, HsServer.DoVerifyClientCertificate,
           HsServer.DoProcessChangeCipherSpec, HsServer.DoSendServerFinished;
      GoTo(Done);
    }

    /** The switch over the states. */
    method Switch(inbox: seq<Item>, o: Outcome)
      requires wait.Go? && !state.Done?
      modifies this
      ensures turns == old(turns) && Turned(old(View()), old(hasMessage), inbox, o)
    {
      hide Do, View;
      match state {
        case StartAccept => DoStartAccept(inbox, o);
        case ReadClientHello => DoReadClientHello(inbox, o);
        case SelectCertificate => DoSelectCertificate(inbox, o);
        case SelectParameters => DoSelectParameters(inbox, o);
        case SendServerHello => DoSendServerHello(inbox, o);
        case SendServerCertificate => DoSendServerCertificate(inbox, o);
        case SendServerKeyExchange => DoSendServerKeyExchange(inbox, o);
        case SendServerHelloDone => DoSendServerHelloDone(inbox, o);
        case ReadClientCertificate => DoReadClientCertificate(inbox, o);
        case VerifyClientCertificate => DoVerifyClientCertificate(inbox, o);
        case ReadClientKeyExchange => DoReadClientKeyExchange(inbox, o);
        case ReadClientCertificateVerify => DoReadClientCertificateVerify(inbox, o);
        case ReadChangeCipherSpec => DoReadChangeCipherSpec(inbox, o);
        case ProcessChangeCipherSpec => DoProcessChangeCipherSpec(inbox, o);
        case ReadNextProto => DoReadNextProto(inbox, o);
        case ReadChannelId => DoReadChannelId(inbox, o);
        case ReadClientFinished => DoReadClientFinished(inbox, o);
        case SendServerFinished => DoSendServerFinished(inbox, o);
        case FinishServerHandshake => DoFinishServerHandshake(inbox, o);
        case Done => assert false;
      }
    }

    ghost predicate Valid()
      reads this
    {
      End(View(), hasMessage) == Run(config, turns)
    }

    constructor (config: Config)
      ensures Valid() && turns == [] && this.config == config && wait.Go?
    {
      this.config := config;
      state, wait, flight, requested, peerCert, transcript := StartAccept, Go, [], false, false, [];
      held, verified, signed, readKeys, writeKeys, finishedOk := true, false, false, false, false, false;
      hasMessage, turns := false, [];
    }

    /** What is left of the handshake. */
    ghost function Left(): nat
      reads this
    {
      Remaining(End(View(), hasMessage))
    }

    /** State after state, until the handshake is done or has to wait; the loop ends, because the
        states lead on. It takes one message at most, and what holds of runs holds afterwards. */
    method Loop(inbox: seq<Item>, callbacks: State -> Outcome)
      requires Valid() && wait.Go? && (hasMessage ==> GetMessage(true, inbox).Received?)
      modifies this
      ensures Valid() && old(turns) <= turns
      ensures forall k :: |old(turns)| <= k < |turns| ==> turns[k].inbox == inbox
      ensures state.Done? || !wait.Go?
      ensures state.Done? ==> readKeys && finishedOk
      ensures hasMessage ==> old(hasMessage)
      ensures old(state).Done? ==> wait.Go?
      ensures old(state).Done? || wait.Again? || wait.Failed? || Left() < old(Left())
    {
      hide Do, Safe, Rank, Run, Step, GetMessage, Remaining;
      while !state.Done? && wait.Go?
        invariant Valid() && old(turns) <= turns
        invariant forall k :: |old(turns)| <= k < |turns| ==> turns[k].inbox == inbox
        invariant hasMessage ==> old(hasMessage)
        invariant old(state).Done? ==> state == old(state) && wait.Go?
        invariant || wait.Again? || wait.Failed? || Left() < old(Left())
                  || (state == old(state) && wait.Go? && Left() == old(Left()))
        decreases 20 - Rank(View()), if wait.Go? then 1 else 0
      {
        var o := callbacks(state);
        TurnIsStep(inbox, o);
        TakesWhatItGot(View(), GetMessage(hasMessage, inbox), o);
        ghost var hadMessage := hasMessage;
        assert !hadMessage ==> GetMessage(hadMessage, inbox).NoMessage? by {
          NothingToGet(inbox);
        }
        GoLeadsOn(End(View(), hasMessage), GetMessage(hasMessage, inbox), o);
        turns := turns + [Input(inbox, o)];
        Switch(inbox, o);
        assert hasMessage ==> hadMessage;
      }
      RunIsSafe(config, turns);
      if state.Done? {
        DoneIsSafe(View());
      }
    }

    /** The switch of `ssl_run_handshake` over what is waited for. */
    method Answer(inbox: seq<Item>) returns (taken: bool, sent: seq<Item>)
      requires !wait.Go?
      modifies this`wait, this`flight, this`hasMessage
      ensures Moved(End(View(), hasMessage), taken, sent) == Step(old(End(View(), hasMessage)), inbox, Good)
      ensures (if inbox == [] && (old(wait).ReadMessage? || old(wait).ReadCcs?) then wait == old(wait)
               else wait.Failed? || wait.Go?)
      ensures old(wait).Failed? ==> wait.Failed?
      ensures taken ==> inbox != [] && inbox[0].ChangeCipherSpec?
      ensures hasMessage ==> old(hasMessage) || (inbox != [] && inbox[0].Handshake?)
    {
      hide Do;
      sent, taken := [], false;
      match wait {
        case Failed =>
        case Flush =>
          sent, flight, wait := flight, [], Go;
        case ReadMessage =>
          if inbox != [] {
            if inbox[0].Handshake? {
              hasMessage, wait := true, Go;
            } else {
              wait := Failed;
            }
          }
        case ReadCcs =>
          if inbox != [] {
            if inbox[0].ChangeCipherSpec? {
              taken, wait := true, Go;
            } else {
              wait := Failed;
            }
          }
        case Again =>
          // The caller is to come back.
          wait := Go;
      }
    }

    method Resolve(inbox: seq<Item>) returns (ok: bool, taken: bool, sent: seq<Item>)
      requires Valid() && !wait.Go?
      modifies this
      ensures Valid() && turns == old(turns) + [Input(inbox, Good)]
      ensures Moved(End(View(), hasMessage), taken, sent) == Step(old(End(View(), hasMessage)), inbox, Good)
      ensures ok <==> wait.Go? && !old(wait).Again?
      ensures wait.Go? ==> Left() < old(Left())
      ensures wait.Failed? || wait.Go? || ((wait.ReadMessage? || wait.ReadCcs?) && inbox == [])
      ensures old(wait).Failed? ==> wait.Failed?
      ensures taken ==> inbox != [] && inbox[0].ChangeCipherSpec?
      ensures hasMessage ==> old(hasMessage) || (inbox != [] && inbox[0].Handshake?)
    {
      hide Step, Do, Safe, Remaining;
      RunIsSafe(config, turns);
      if inbox == [] ==> !wait.ReadMessage? && !wait.ReadCcs? {
        AnswerLeadsOn(End(View(), hasMessage), inbox);
      }
      var again := wait.Again?;
      assert (turns + [Input(inbox, Good)])[..|turns|] == turns;
      turns := turns + [Input(inbox, Good)];
      taken, sent := Answer(inbox);
      ok := wait.Go? && !again;
    }

    /** `ssl_run_handshake`: resolves what is waited for and goes on, until the handshake is done or
        there is nothing more to do: for want of bytes, because of a callback, or after a failure. */
    method RunHandshake(arrived: seq<Item>, callbacks: State -> Outcome)
      returns (finished: bool, rest: seq<Item>, sent: seq<Item>)
      requires Valid() && (hasMessage ==> GetMessage(true, arrived).Received?)
      modifies this
      ensures Valid() && IsRest(rest, arrived)
      ensures finished ==> state.Done? && readKeys && finishedOk
      ensures old(turns) <= turns
      ensures finished ==> HsServerChecks.Checked(config, turns, peerCert)
      ensures (!finished ==>
                 || wait.Failed? || wait.Go?
                 || ((wait.ReadMessage? || wait.ReadCcs?) && rest == []))
    {
      hide Do, Safe, Rank, Run, Step, Remaining, HsServerChecks.Checked, IsRest, Valid,
           ServerHandshake.Left;
      rest, sent := arrived, [];
      AllIsRest(arrived);
      while true
        invariant Valid() && IsRest(rest, arrived)
        invariant old(turns) <= turns
        invariant hasMessage ==> GetMessage(true, rest).Received?
        decreases if wait.Again? || wait.Failed? then 0 else 1 + Left()
      {
        if !wait.Go? {
          var ok, taken, more := Resolve(rest);
          sent := sent + more;
          if taken {
            RestOfRest(rest, arrived);
            rest := rest[1..];
          }
          if !ok {
            return false, rest, sent;
          }
        }
        var had := hasMessage;
        Loop(rest, callbacks);
        if had && !hasMessage {
          RestOfRest(rest, arrived);
          rest := rest[1..];
        }
        if wait.Go? {
          DoneIsChecked();
          return true, rest, sent;
        }
      }
    }

    lemma DoneIsChecked()
      requires Valid() && state.Done?
      ensures HsServerChecks.Checked(config, turns, peerCert)
    {
      hide Run, HsServerChecks.Checked;
      HsServerChecks.DoneMeansChecked(config, turns);
    }

    static lemma NothingToGet(inbox: seq<Item>)
      ensures GetMessage(false, inbox).NoMessage?
    {
    }

    lemma TurnIsStep(inbox: seq<Item>, o: Outcome)
      requires Valid() && wait.Go? && !state.Done?
      ensures Safe(View())
      ensures var t := Do(View(), GetMessage(hasMessage, inbox), o);
              && End(t.side, hasMessage && t.Kept?) == Run(config, turns + [Input(inbox, o)])
              && (Rank(t.side) > Rank(View()) || (!t.side.wait.Go? && Rank(t.side) == Rank(View())))
    {
      hide Do, Safe, Rank, GetMessage;
      assert (turns + [Input(inbox, o)])[..|turns|] == turns;
      RunIsSafe(config, turns);
      RankNeverFalls(View(), GetMessage(hasMessage, inbox), o);
    }
  }
}
