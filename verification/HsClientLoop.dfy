/** `ssl_client_handshake` over a handshake object: the states as methods that update it, and the loop
    that calls them. */
module HsClientLoop {
  import opened HsMessages
  import opened HsClient
  import HsClientChecks

  class ClientHandshake {
    const hasCert: bool
    var state: State
    var wait: Wait
    var flight: seq<Item>
    var flags: Flags
    var requested: bool
    var transcript: seq<Message>
    var held: bool
    var verified: bool
    var readKeys: bool
    var writeKeys: bool
    var finishedOk: bool
    // Whether a message has been read and not been released yet.
    var hasMessage: bool
    ghost var turns: seq<Input>

    function View(): Client
      reads this
    {
      Client(state, wait, flight, flags, requested, hasCert, transcript, held, verified,
             readKeys, writeKeys, finishedOk)
    }

    /** The object is where a turn leads from `before`. */
    ghost predicate Turned(before: Client, hadMessage: bool, inbox: seq<Item>, o: Outcome)
      reads this
    {
      Do(before, GetMessage(hadMessage, inbox), o) == (if hasMessage == hadMessage then Kept(View()) else Took(View()))
    }

    method Await(w: Wait)
      modifies this`wait
      ensures View() == HsClient.Await(old(View()), w)
    {
      wait := w;
    }

    method GoTo(next: State)
      modifies this`state
      ensures View() == HsClient.GoTo(old(View()), next)
    {
      state := next;
    }

    /** The handshake buffer is not needed any more. */
    method FreeBuffer()
      modifies this`held
      ensures View() == old(View()).(held := false)
    {
      held := false;
    }

    /** `ssl_hash_message` and `next_message`. */
    method Take(m: Message)
      modifies this`transcript, this`hasMessage
      ensures View() == old(View()).(transcript := old(transcript) + [m]) && !hasMessage
    {
      transcript := transcript + [m];
      hasMessage := false;
    }

    /** `add_message`, which hashes what is sent. */
    method Add(m: Message)
      modifies this`transcript, this`flight
      ensures View() == old(View()).(transcript := old(transcript) + [m], flight := old(flight) + [Handshake(m)])
    {
      transcript := transcript + [m];
      flight := flight + [Handshake(m)];
    }

    /** ChangeCipherSpec, and behind it NextProto, ChannelID and Finished. */
    method AddLastFlight()
      modifies this`transcript, this`flight
      ensures transcript == WithFinished(old(View())) && flight == old(flight) + LastFlight(old(View()))
    {
      ghost var before := View();
      flight := flight + [ChangeCipherSpec];
      if flags.npn {
        Add(NextProto);
      }
      if flags.channelId {
        Add(ChannelId(transcript));
      }
      assert transcript == AfterChannelId(before);
      Add(Finished(false, transcript));
    }

    method DoStartConnect(inbox: seq<Item>, o: Outcome)
      requires state.StartConnect? && wait.Go?
      modifies this`state, this`wait, this`transcript, this`flight
      ensures Turned(old(View()), old(hasMessage), inbox, o)
    {
      hide HsClient.DoRead, HsClient.DoVerifyServerCertificate, HsClient.DoSendClientCertificate,
           HsClient.DoSendClientKeyExchange, HsClient.DoSendClientCertificateVerify,
           HsClient.DoSendClientFinished, HsClient.DoFinishFlight, HsClient.DoProcessChangeCipherSpec,
           HsClient.DoNothing;
      if o.Bad? {
        Await(Failed);
        return;
      }
      Add(ClientHello);
      GoTo(EnterEarlyData);
      Await(Flush);
    }

    method DoEnterEarlyData(inbox: seq<Item>, o: Outcome)
      requires state.EnterEarlyData? && wait.Go?
      modifies this`state
      ensures Turned(old(View()), old(hasMessage), inbox, o)
    {
      hide HsClient.DoRead, HsClient.DoStartConnect, HsClient.DoVerifyServerCertificate,
           HsClient.DoSendClientCertificate, HsClient.DoSendClientKeyExchange,
           HsClient.DoSendClientCertificateVerify, HsClient.DoSendClientFinished, HsClient.DoFinishFlight,
           HsClient.DoProcessChangeCipherSpec;
      GoTo(ReadServerHello);
    }

    method DoReadServerHello(inbox: seq<Item>, o: Outcome)
      requires state.ReadServerHello? && wait.Go?
      modifies this`state, this`wait, this`transcript, this`hasMessage, this`flags, this`held
      ensures Turned(old(View()), old(hasMessage), inbox, o)
    {
      hide HsClient.DoReadServerCertificate, HsClient.DoReadCertificateStatus, HsClient.DoReadServerKeyExchange,
           HsClient.DoReadCertificateRequest, HsClient.DoReadServerHelloDone, HsClient.DoReadSessionTicket,
           HsClient.DoReadServerFinished, HsClient.DoOther;
      var got := GetMessage(hasMessage, inbox);
      if got.NoMessage? {
        Await(ReadMessage);
        return;
      }
      if !got.m.ServerHello? || o.Bad? {
        Await(Failed);
        return;
      }
      flags := got.m.flags;
      // The buffer is needed for client certificates only.
      if flags.resumed || !flags.certAuth {
        FreeBuffer();
      }
      Take(got.m);
      GoTo(if flags.resumed then ReadSessionTicket else ReadServerCertificate);
    }

    method DoReadServerCertificate(inbox: seq<Item>, o: Outcome)
      requires state.ReadServerCertificate? && wait.Go?
      modifies this`state, this`wait, this`transcript, this`hasMessage
      ensures Turned(old(View()), old(hasMessage), inbox, o)
    {
      hide HsClient.DoReadServerHello, HsClient.DoReadCertificateStatus, HsClient.DoReadServerKeyExchange,
           HsClient.DoReadCertificateRequest, HsClient.DoReadServerHelloDone, HsClient.DoReadSessionTicket,
           HsClient.DoReadServerFinished, HsClient.DoStartConnect, HsClient.DoVerifyServerCertificate,
           HsClient.DoSendClientCertificate, HsClient.DoSendClientKeyExchange,
           HsClient.DoSendClientCertificateVerify, HsClient.DoSendClientFinished, HsClient.DoFinishFlight,
           HsClient.DoProcessChangeCipherSpec;
      if !flags.certAuth {
        GoTo(ReadCertificateStatus);
        return;
      }
      var got := GetMessage(hasMessage, inbox);
      if got.NoMessage? {
        Await(ReadMessage);
        return;
      }
      if !got.m.Certificate? || got.m.empty || o.Bad? {
        Await(Failed);
        return;
      }
      Take(got.m);
      GoTo(ReadCertificateStatus);
    }

    method DoReadCertificateStatus(inbox: seq<Item>, o: Outcome)
      requires state.ReadCertificateStatus? && wait.Go?
      modifies this`state, this`wait, this`transcript, this`hasMessage
      ensures Turned(old(View()), old(hasMessage), inbox, o)
    {
      hide HsClient.DoReadServerHello, HsClient.DoReadServerCertificate, HsClient.DoReadServerKeyExchange,
           HsClient.DoReadCertificateRequest, HsClient.DoReadServerHelloDone, HsClient.DoReadSessionTicket,
           HsClient.DoReadServerFinished, HsClient.DoStartConnect, HsClient.DoVerifyServerCertificate,
           HsClient.DoSendClientCertificate, HsClient.DoSendClientKeyExchange,
           HsClient.DoSendClientCertificateVerify, HsClient.DoSendClientFinished, HsClient.DoFinishFlight,
           HsClient.DoProcessChangeCipherSpec;
      if !flags.status {
        GoTo(VerifyServerCertificate);
        return;
      }
      var got := GetMessage(hasMessage, inbox);
      if got.NoMessage? {
        Await(ReadMessage);
        return;
      }
      if !got.m.CertificateStatus? {
        // A server may change its mind about sending the message.
        GoTo(VerifyServerCertificate);
        return;
      }
      if o.Bad? {
        Await(Failed);
        return;
      }
      Take(got.m);
      GoTo(VerifyServerCertificate);
    }

    method DoVerifyServerCertificate(inbox: seq<Item>, o: Outcome)
      requires state.VerifyServerCertificate? && wait.Go?
      modifies this`state, this`wait, this`verified
      ensures Turned(old(View()), old(hasMessage), inbox, o)
    {
      hide HsClient.DoRead, HsClient.DoStartConnect, HsClient.DoSendClientCertificate,
           HsClient.DoSendClientKeyExchange, HsClient.DoSendClientCertificateVerify,
           HsClient.DoSendClientFinished, HsClient.DoFinishFlight, HsClient.DoProcessChangeCipherSpec,
           HsClient.DoNothing;
      if !flags.certAuth {
        GoTo(ReadServerKeyExchange);
        return;
      }
      if o.Bad? {
        Await(Failed);
        return;
      }
      if o.Retry? {
        Await(Again);
        return;
      }
      verified := true;
      GoTo(ReadServerKeyExchange);
    }

    method DoReadServerKeyExchange(inbox: seq<Item>, o: Outcome)
      requires state.ReadServerKeyExchange? && wait.Go?
      modifies this`state, this`wait, this`transcript, this`hasMessage
      ensures Turned(old(View()), old(hasMessage), inbox, o)
    {
      hide HsClient.DoReadServerHello, HsClient.DoReadServerCertificate, HsClient.DoReadCertificateStatus,
           HsClient.DoReadCertificateRequest, HsClient.DoReadServerHelloDone, HsClient.DoReadSessionTicket,
           HsClient.DoReadServerFinished, HsClient.DoOther;
      var got := GetMessage(hasMessage, inbox);
      if got.NoMessage? {
        Await(ReadMessage);
        return;
      }
      if !got.m.ServerKeyExchange? {
        if flags.requiresKeyExchange {
          Await(Failed);
          return;
        }
        GoTo(ReadCertificateRequest);
        return;
      }
      if o.Bad? {
        Await(Failed);
        return;
      }
      Take(got.m);
      GoTo(ReadCertificateRequest);
    }

    method DoReadCertificateRequest(inbox: seq<Item>, o: Outcome)
      requires state.ReadCertificateRequest? && wait.Go?
      modifies this`state, this`wait, this`transcript, this`hasMessage, this`held, this`requested
      ensures Turned(old(View()), old(hasMessage), inbox, o)
    {
      hide HsClient.DoReadServerHello, HsClient.DoReadServerCertificate, HsClient.DoReadCertificateStatus,
           HsClient.DoReadServerKeyExchange, HsClient.DoReadServerHelloDone, HsClient.DoReadSessionTicket,
           HsClient.DoReadServerFinished, HsClient.DoStartConnect, HsClient.DoVerifyServerCertificate,
           HsClient.DoSendClientCertificate, HsClient.DoSendClientKeyExchange,
           HsClient.DoSendClientCertificateVerify, HsClient.DoSendClientFinished, HsClient.DoFinishFlight,
           HsClient.DoProcessChangeCipherSpec;
      if !flags.certAuth {
        GoTo(ReadServerHelloDone);
        return;
      }
      var got := GetMessage(hasMessage, inbox);
      if got.NoMessage? {
        Await(ReadMessage);
        return;
      }
      if got.m.ServerHelloDone? {
        FreeBuffer();
        GoTo(ReadServerHelloDone);
        return;
      }
      if !got.m.CertificateRequest? || o.Bad? {
        Await(Failed);
        return;
      }
      requested := true;
      Take(got.m);
      GoTo(ReadServerHelloDone);
    }

    method DoReadServerHelloDone(inbox: seq<Item>, o: Outcome)
      requires state.ReadServerHelloDone? && wait.Go?
      modifies this`state, this`wait, this`transcript, this`hasMessage
      ensures Turned(old(View()), old(hasMessage), inbox, o)
    {
      hide HsClient.DoReadServerHello, HsClient.DoReadServerCertificate, HsClient.DoReadCertificateStatus,
           HsClient.DoReadServerKeyExchange, HsClient.DoReadCertificateRequest, HsClient.DoReadSessionTicket,
           HsClient.DoReadServerFinished, HsClient.DoOther;
      var got := GetMessage(hasMessage, inbox);
      if got.NoMessage? {
        Await(ReadMessage);
        return;
      }
      if !got.m.ServerHelloDone? || o.Bad? {
        Await(Failed);
        return;
      }
      Take(got.m);
      GoTo(SendClientCertificate);
    }

    method DoSendClientCertificate(inbox: seq<Item>, o: Outcome)
      requires state.SendClientCertificate? && wait.Go?
      modifies this`state, this`wait, this`transcript, this`flight, this`held
      ensures Turned(old(View()), old(hasMessage), inbox, o)
    {
      hide HsClient.DoRead, HsClient.DoStartConnect, HsClient.DoVerifyServerCertificate,
           HsClient.DoSendClientKeyExchange, HsClient.DoSendClientCertificateVerify,
           HsClient.DoSendClientFinished, HsClient.DoFinishFlight, HsClient.DoProcessChangeCipherSpec,
           HsClient.DoNothing;
      if !requested {
        GoTo(SendClientKeyExchange);
        return;
      }
      if o.Bad? {
        Await(Failed);
        return;
      }
      if o.Retry? {
        Await(Again);
        return;
      }
      if !hasCert {
        // Without a certificate nothing will be signed.
        FreeBuffer();
      }
      Add(Certificate(false, !hasCert));
      GoTo(SendClientKeyExchange);
    }

    method DoSendClientKeyExchange(inbox: seq<Item>, o: Outcome)
      requires state.SendClientKeyExchange? && wait.Go?
      modifies this`state, this`wait, this`transcript, this`flight
      ensures Turned(old(View()), old(hasMessage), inbox, o)
    {
      hide HsClient.DoRead, HsClient.DoStartConnect, HsClient.DoVerifyServerCertificate,
           HsClient.DoSendClientCertificate, HsClient.DoSendClientCertificateVerify,
           HsClient.DoSendClientFinished, HsClient.DoFinishFlight, HsClient.DoProcessChangeCipherSpec,
           HsClient.DoNothing;
      if o.Bad? {
        Await(Failed);
        return;
      }
      Add(ClientKeyExchange);
      GoTo(SendClientCertificateVerify);
    }

    method DoSendClientCertificateVerify(inbox: seq<Item>, o: Outcome)
      requires state.SendClientCertificateVerify? && wait.Go?
      modifies this`state, this`wait, this`transcript, this`flight, this`held
      ensures Turned(old(View()), old(hasMessage), inbox, o)
    {
      hide HsClient.DoRead, HsClient.DoStartConnect, HsClient.DoVerifyServerCertificate,
           HsClient.DoSendClientCertificate, HsClient.DoSendClientKeyExchange, HsClient.DoSendClientFinished,
           HsClient.DoFinishFlight, HsClient.DoProcessChangeCipherSpec, HsClient.DoNothing;
      if !requested || !hasCert {
        GoTo(SendClientFinished);
        return;
      }
      if o.Bad? {
        Await(Failed);
        return;
      }
      if o.Retry? {
        Await(Again);
        return;
      }
      Add(CertificateVerify(if held then transcript else []));
      FreeBuffer();
      GoTo(SendClientFinished);
    }

    method DoSendClientFinished(inbox: seq<Item>, o: Outcome)
      requires state.SendClientFinished? && wait.Go?
      modifies this`state, this`wait, this`transcript, this`flight, this`writeKeys
      ensures Turned(old(View()), old(hasMessage), inbox, o)
    {
      hide HsClient.DoRead, HsClient.DoStartConnect, HsClient.DoVerifyServerCertificate,
           HsClient.DoSendClientCertificate, HsClient.DoSendClientKeyExchange,
           HsClient.DoSendClientCertificateVerify, HsClient.DoFinishFlight, HsClient.DoProcessChangeCipherSpec,
           HsClient.DoNothing, HsClient.WithFinished, HsClient.LastFlight;
      if o.Bad? {
        Await(Failed);
        return;
      }
      if flags.channelId && o.Retry? {
        Await(Again);
        return;
      }
      AddLastFlight();
      writeKeys := true;
      GoTo(FinishFlight);
      Await(Flush);
    }

    method DoFinishFlight(inbox: seq<Item>, o: Outcome)
      requires state.FinishFlight? && wait.Go?
      modifies this`state, this`wait
      ensures Turned(old(View()), old(hasMessage), inbox, o)
    {
      hide HsClient.DoRead, HsClient.DoStartConnect, HsClient.DoVerifyServerCertificate,
           HsClient.DoSendClientCertificate, HsClient.DoSendClientKeyExchange,
           HsClient.DoSendClientCertificateVerify, HsClient.DoSendClientFinished,
           HsClient.DoProcessChangeCipherSpec, HsClient.DoNothing;
      if flags.resumed {
        GoTo(FinishClientHandshake);
        return;
      }
      if o.Bad? {
        Await(Failed);
        return;
      }
      // With False Start the handshake returns early.
      GoTo(ReadSessionTicket);
      if o.Retry? {
        Await(Again);
      }
    }

    method DoReadSessionTicket(inbox: seq<Item>, o: Outcome)
      requires state.ReadSessionTicket? && wait.Go?
      modifies this`state, this`wait, this`transcript, this`hasMessage
      ensures Turned(old(View()), old(hasMessage), inbox, o)
    {
      hide HsClient.DoReadServerHello, HsClient.DoReadServerCertificate, HsClient.DoReadCertificateStatus,
           HsClient.DoReadServerKeyExchange, HsClient.DoReadCertificateRequest, HsClient.DoReadServerHelloDone,
           HsClient.DoReadServerFinished, HsClient.DoStartConnect, HsClient.DoVerifyServerCertificate,
           HsClient.DoSendClientCertificate, HsClient.DoSendClientKeyExchange,
           HsClient.DoSendClientCertificateVerify, HsClient.DoSendClientFinished, HsClient.DoFinishFlight,
           HsClient.DoProcessChangeCipherSpec;
      if !flags.ticket {
        Await(ReadCcs);
        GoTo(ProcessChangeCipherSpec);
        return;
      }
      var got := GetMessage(hasMessage, inbox);
      if got.NoMessage? {
        Await(ReadMessage);
        return;
      }
      if !got.m.NewSessionTicket? || o.Bad? {
        Await(Failed);
        return;
      }
      Await(ReadCcs);
      Take(got.m);
      GoTo(ProcessChangeCipherSpec);
    }

    method DoProcessChangeCipherSpec(inbox: seq<Item>, o: Outcome)
      requires state.ProcessChangeCipherSpec? && wait.Go?
      modifies this`state, this`wait, this`readKeys
      ensures Turned(old(View()), old(hasMessage), inbox, o)
    {
      hide HsClient.DoRead, HsClient.DoStartConnect, HsClient.DoVerifyServerCertificate,
           HsClient.DoSendClientCertificate, HsClient.DoSendClientKeyExchange,
           HsClient.DoSendClientCertificateVerify, HsClient.DoSendClientFinished, HsClient.DoFinishFlight,
           HsClient.DoNothing;
      if o.Bad? {
        Await(Failed);
        return;
      }
      readKeys := true;
      GoTo(ReadServerFinished);
    }

    method DoReadServerFinished(inbox: seq<Item>, o: Outcome)
      requires state.ReadServerFinished? && wait.Go?
      modifies this`state, this`wait, this`transcript, this`hasMessage, this`finishedOk
      ensures Turned(old(View()), old(hasMessage), inbox, o)
    {
      hide HsClient.DoReadServerHello, HsClient.DoReadServerCertificate, HsClient.DoReadCertificateStatus,
           HsClient.DoReadServerKeyExchange, HsClient.DoReadCertificateRequest, HsClient.DoReadServerHelloDone,
           HsClient.DoReadSessionTicket, HsClient.DoOther;
      var got := GetMessage(hasMessage, inbox);
      if got.NoMessage? {
        Await(ReadMessage);
        return;
      }
      // The MAC is computed before the message is hashed itself.
      if got.m != Finished(true, transcript) {
        Await(Failed);
        return;
      }
      finishedOk := true;
      Take(got.m);
      GoTo(if flags.resumed then SendClientFinished else FinishClientHandshake);
    }

    method DoFinishClientHandshake(inbox: seq<Item>, o: Outcome)
      requires state.FinishClientHandshake? && wait.Go?
      modifies this`state
      ensures Turned(old(View()), old(hasMessage), inbox, o)
    {
      hide HsClient.DoRead, HsClient.DoStartConnect, HsClient.DoVerifyServerCertificate,
           HsClient.DoSendClientCertificate, HsClient.DoSendClientKeyExchange,
           HsClient.DoSendClientCertificateVerify, HsClient.DoSendClientFinished, HsClient.DoFinishFlight,
           HsClient.DoProcessChangeCipherSpec;
      GoTo(Done);
    }

    /** The switch over the states. */
    method Switch(inbox: seq<Item>, o: Outcome)
      requires wait.Go? && !state.Done?
      modifies this
      ensures turns == old(turns) && Turned(old(View()), old(hasMessage), inbox, o)
    {
      hide Do, View;
      match state {
        case StartConnect => DoStartConnect(inbox, o);
        case EnterEarlyData => DoEnterEarlyData(inbox, o);
        case ReadServerHello => DoReadServerHello(inbox, o);
        case ReadServerCertificate => DoReadServerCertificate(inbox, o);
        case ReadCertificateStatus => DoReadCertificateStatus(inbox, o);
        case VerifyServerCertificate => DoVerifyServerCertificate(inbox, o);
        case ReadServerKeyExchange => DoReadServerKeyExchange(inbox, o);
        case ReadCertificateRequest => DoReadCertificateRequest(inbox, o);
        case ReadServerHelloDone => DoReadServerHelloDone(inbox, o);
        case SendClientCertificate => DoSendClientCertificate(inbox, o);
        case SendClientKeyExchange => DoSendClientKeyExchange(inbox, o);
        case SendClientCertificateVerify => DoSendClientCertificateVerify(inbox, o);
        case SendClientFinished => DoSendClientFinished(inbox, o);
        case FinishFlight => DoFinishFlight(inbox, o);
        case ReadSessionTicket => DoReadSessionTicket(inbox, o);
        case ProcessChangeCipherSpec => DoProcessChangeCipherSpec(inbox, o);
        case ReadServerFinished => DoReadServerFinished(inbox, o);
        case FinishClientHandshake => DoFinishClientHandshake(inbox, o);
        case Done => assert false;
      }
    }

    ghost predicate Valid()
      reads this
    {
      End(View(), hasMessage) == Run(hasCert, turns)
    }

    constructor (hasCert: bool)
      ensures Valid() && turns == [] && this.hasCert == hasCert && wait.Go?
    {
      this.hasCert := hasCert;
      state, wait, flight, flags, requested, transcript := StartConnect, Go, [], NO_FLAGS, false, [];
      held, verified, readKeys, writeKeys, finishedOk := true, false, false, false, false;
      hasMessage, turns := false, [];
    }

    /** What is left of the handshake. */
    ghost function Left(): nat
      reads this
    {
      Remaining(End(View(), hasMessage))
    }

    /** State after state, until the handshake is done or has to wait; the loop ends, because the
        states lead on. It takes one message at most, and what holds of runs holds afterwards. */
    method Loop(inbox: seq<Item>, callbacks: State -> Outcome)
      requires Valid() && wait.Go? && (hasMessage ==> GetMessage(true, inbox).Received?)
      modifies this
      ensures Valid() && old(turns) <= turns
      ensures forall k :: |old(turns)| <= k < |turns| ==> turns[k].inbox == inbox
      ensures state.Done? || !wait.Go?
      ensures state.Done? ==> readKeys && finishedOk
      ensures hasMessage ==> old(hasMessage)
      ensures old(state).Done? ==> wait.Go?
      ensures old(state).Done? || wait.Again? || wait.Failed? || Left() < old(Left())
    {
      hide Do, Safe, Rank, Run, Step, GetMessage, Remaining;
      while !state.Done? && wait.Go?
        invariant Valid() && old(turns) <= turns
        invariant forall k :: |old(turns)| <= k < |turns| ==> turns[k].inbox == inbox
        invariant hasMessage ==> old(hasMessage)
        invariant old(state).Done? ==> state == old(state) && wait.Go?
        invariant || wait.Again? || wait.Failed? || Left() < old(Left())
                  || (state == old(state) && wait.Go? && Left() == old(Left()))
        decreases 20 - Rank(View()), if wait.Go? then 1 else 0
      {
        var o := callbacks(state);
        TurnIsStep(inbox, o);
        TakesWhatItGot(View(), GetMessage(hasMessage, inbox), o);
        ghost var hadMessage := hasMessage;
        assert !hadMessage ==> GetMessage(hadMessage, inbox).NoMessage? by {
          NothingToGet(inbox);
        }
        GoLeadsOn(End(View(), hasMessage), GetMessage(hasMessage, inbox), o);
        turns := turns + [Input(inbox, o)];
        Switch(inbox, o);
        assert hasMessage ==> hadMessage;
      }
      RunIsSafe(hasCert, turns);
      if state.Done? {
        DoneIsSafe(View());
      }
    }

    /** The switch of `ssl_run_handshake` over what is waited for. */
    method Answer(inbox: seq<Item>) returns (taken: bool, sent: seq<Item>)
      requires !wait.Go?
      modifies this`wait, this`flight, this`hasMessage
      ensures Moved(End(View(), hasMessage), taken, sent) == Step(old(End(View(), hasMessage)), inbox, Good)
      ensures (if inbox == [] && (old(wait).ReadMessage? || old(wait).ReadCcs?) then wait == old(wait)
               else wait.Failed? || wait.Go?)
      ensures old(wait).Failed? ==> wait.Failed?
      ensures taken ==> inbox != [] && inbox[0].ChangeCipherSpec?
      ensures hasMessage ==> old(hasMessage) || (inbox != [] && inbox[0].Handshake?)
    {
      hide Do;
      sent, taken := [], false;
      match wait {
        case Failed =>
        case Flush =>
          sent, flight, wait := flight, [], Go;
        case ReadMessage =>
          if inbox != [] {
            if inbox[0].Handshake? {
              hasMessage, wait := true, Go;
            } else {
              wait := Failed;
            }
          }
        case ReadCcs =>
          if inbox != [] {
            if inbox[0].ChangeCipherSpec? {
              taken, wait := true, Go;
            } else {
              wait := Failed;
            }
          }
        case Again =>
          // The caller is to come back.
          wait := Go;
      }
    }

    method Resolve(inbox: seq<Item>) returns (ok: bool, taken: bool, sent: seq<Item>)
      requires Valid() && !wait.Go?
      modifies this
      ensures Valid() && turns == old(turns) + [Input(inbox, Good)]
      ensures Moved(End(View(), hasMessage), taken, sent) == Step(old(End(View(), hasMessage)), inbox, Good)
      ensures ok <==> wait.Go? && !old(wait).Again?
      ensures wait.Go? ==> Left() < old(Left())
      ensures wait.Failed? || wait.Go? || ((wait.ReadMessage? || wait.ReadCcs?) && inbox == [])
      ensures old(wait).Failed? ==> wait.Failed?
      ensures taken ==> inbox != [] && inbox[0].ChangeCipherSpec?
      ensures hasMessage ==> old(hasMessage) || (inbox != [] && inbox[0].Handshake?)
    {
      hide Step, Do, Safe, Remaining;
      RunIsSafe(hasCert, turns);
      if inbox == [] ==> !wait.ReadMessage? && !wait.ReadCcs? {
        AnswerLeadsOn(End(View(), hasMessage), inbox);
      }
      var again := wait.Again?;
      assert (turns + [Input(inbox, Good)])[..|turns|] == turns;
      turns := turns + [Input(inbox, Good)];
      taken, sent := Answer(inbox);
      ok := wait.Go? && !again;
    }

    /** `ssl_run_handshake`: resolves what is waited for and goes on, until the handshake is done or
        there is nothing more to do: for want of bytes, because of a callback, or after a failure. */
    method RunHandshake(arrived: seq<Item>, callbacks: State -> Outcome)
      returns (finished: bool, rest: seq<Item>, sent: seq<Item>)
      requires Valid() && (hasMessage ==> GetMessage(true, arrived).Received?)
      modifies this
      ensures Valid() && IsRest(rest, arrived)
      ensures finished ==> state.Done? && readKeys && finishedOk
      ensures old(turns) <= turns
      ensures finished ==> HsClientChecks.Checked(hasCert, turns, flags.certAuth && !flags.resumed)
      ensures (!finished ==>
                 || wait.Failed? || wait.Go?
                 || ((wait.ReadMessage? || wait.ReadCcs?) && rest == []))
    {
      hide Do, Safe, Rank, Run, Step, Remaining, HsClientChecks.Checked, IsRest, Valid,
           ClientHandshake.Left;
      rest, sent := arrived, [];
      AllIsRest(arrived);
      while true
        invariant Valid() && IsRest(rest, arrived)
        invariant old(turns) <= turns
        invariant hasMessage ==> GetMessage(true, rest).Received?
        decreases if wait.Again? || wait.Failed? then 0 else 1 + Left()
      {
        if !wait.Go? {
          var ok, taken, more := Resolve(rest);
          sent := sent + more;
          if taken {
            RestOfRest(rest, arrived);
            rest := rest[1..];
          }
          if !ok {
            return false, rest, sent;
          }
        }
        var had := hasMessage;
        Loop(rest, callbacks);
        if had && !hasMessage {
          RestOfRest(rest, arrived);
          rest := rest[1..];
        }
        if wait.Go? {
          DoneIsChecked();
          return true, rest, sent;
        }
      }
    }

    lemma DoneIsChecked()
      requires Valid() && state.Done?
      ensures HsClientChecks.Checked(hasCert, turns, flags.certAuth && !flags.resumed)
    {
      hide Run, HsClientChecks.Checked;
      HsClientChecks.DoneMeansChecked(hasCert, turns);
    }

    static lemma NothingToGet(inbox: seq<Item>)
      ensures GetMessage(false, inbox).NoMessage?
    {
    }

    lemma TurnIsStep(inbox: seq<Item>, o: Outcome)
      requires Valid() && wait.Go? && !state.Done?
      ensures Safe(View())
      ensures var t := Do(View(), GetMessage(hasMessage, inbox), o);
              && End(t.side, hasMessage && t.Kept?) == Run(hasCert, turns + [Input(inbox, o)])
              && (Rank(t.side) > Rank(View()) || (!t.side.wait.Go? && Rank(t.side) == Rank(View())))
    {
      hide Do, Safe, Rank, GetMessage;
      assert (turns + [Input(inbox, o)])[..|turns|] == turns;
      RunIsSafe(hasCert, turns);
      RankNeverFalls(View(), GetMessage(hasMessage, inbox), o);
    }
  }
}
