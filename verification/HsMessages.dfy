/** The messages of a TLS 1.0 to 1.2 handshake, and in which order the two sides send them
    (section 7.3 of RFC 5246, with session tickets, NPN, OCSP stapling and Channel ID). */
module HsMessages {

  /** What the ServerHello says or implies: whether a session is resumed, what the cipher
      needs, and which optional messages are to come. */
  datatype Flags = Flags(resumed: bool, certAuth: bool, requiresKeyExchange: bool,
                         status: bool, ticket: bool, npn: bool, channelId: bool)

  /** Signatures and MACs are ideal: they are what they are computed over. */
  datatype Message =
    | ClientHello
    | ServerHello(flags: Flags)
    | Certificate(fromServer: bool, empty: bool)
    | CertificateStatus
    | ServerKeyExchange
    | CertificateRequest
    | ServerHelloDone
    | ClientKeyExchange
    | CertificateVerify(over: seq<Message>)
    | NextProto
    | ChannelId(over: seq<Message>)
    | NewSessionTicket
    | Finished(fromServer: bool, over: seq<Message>)

  datatype Item = Handshake(m: Message) | ChangeCipherSpec

  /** What both sides of a connection have agreed on or are configured with. */
  datatype Setup = Setup(flags: Flags, certRequest: bool, clientHasCert: bool, hint: bool)
  {
    predicate KeyExchangeSent() {
      flags.requiresKeyExchange || (!flags.certAuth && hint)
    }
  }

  /** What a handshake loop waits for (`ssl_hs_wait_t`): nothing, or something that a turn of
      `ssl_run_handshake` resolves; a callback is asked again. */
  datatype Wait = Go | Flush | ReadMessage | ReadCcs | Again | Failed

  /** How the content of a message, a callback or a primitive turns out. */
  datatype Outcome = Good | Bad | Retry

  datatype Received = NoMessage | Received(m: Message)

  /** What `get_message` gives: the message that has been read and not been released yet. */
  function GetMessage(buffered: bool, inbox: seq<Item>): Received {
    if buffered && inbox != [] && inbox[0].Handshake? then Received(inbox[0].m) else NoMessage
  }

  /** What is left of the items that arrived. */
  predicate IsRest(rest: seq<Item>, arrived: seq<Item>) {
    |rest| <= |arrived| && rest == arrived[|arrived| - |rest|..]
  }

  lemma RestOfRest(rest: seq<Item>, arrived: seq<Item>)
    requires IsRest(rest, arrived) && rest != []
    ensures IsRest(rest[1..], arrived)
  {
  }

  lemma AllIsRest(arrived: seq<Item>)
    ensures IsRest(arrived, arrived)
  {
  }

  // ------------------------------------------------------------------ the script

  /** The places of a handshake, in order. Not every one is taken. */
  datatype Place =
    | PClientHello | PServerHello | PServerCert | PStatus | PKeyExchange | PRequest | PHelloDone
    | PClientCert | PClientKey | PVerify | PClientCcs | PNextProto | PChannelId | PClientFinished
    | PTicket | PServerCcs | PServerFinished

  function Places(resumed: bool): (n: nat) {
    if resumed then 9 else 17
  }

  function PlaceAt(resumed: bool, i: nat): Place
    requires i < Places(resumed)
  {
    if i == 0 then PClientHello
    else if i == 1 then PServerHello
    else if resumed then
      (if i == 2 then PTicket
       else if i == 3 then PServerCcs
       else if i == 4 then PServerFinished
       else if i == 5 then PClientCcs
       else if i == 6 then PNextProto
       else if i == 7 then PChannelId
       else PClientFinished)
    else
      (if i == 2 then PServerCert
       else if i == 3 then PStatus
       else if i == 4 then PKeyExchange
       else if i == 5 then PRequest
       else if i == 6 then PHelloDone
       else if i == 7 then PClientCert
       else if i == 8 then PClientKey
       else if i == 9 then PVerify
       else if i == 10 then PClientCcs
       else if i == 11 then PNextProto
       else if i == 12 then PChannelId
       else if i == 13 then PClientFinished
       else if i == 14 then PTicket
       else if i == 15 then PServerCcs
       else PServerFinished)
  }

  predicate FromClient(p: Place) {
    p.PClientHello? || p.PClientCert? || p.PClientKey? || p.PVerify? || p.PClientCcs? || p.PNextProto?
    || p.PChannelId? || p.PClientFinished?
  }

  predicate Taken(g: Setup, p: Place) {
    match p
    case PServerCert => g.flags.certAuth
    case PStatus => g.flags.certAuth && g.flags.status
    case PKeyExchange => g.KeyExchangeSent()
    case PRequest => g.certRequest
    case PClientCert => g.certRequest
    case PVerify => g.certRequest && g.clientHasCert
    case PNextProto => g.flags.npn
    case PChannelId => g.flags.channelId
    case PTicket => g.flags.ticket
    case _ => true
  }

  predicate TakenAt(g: Setup, i: nat)
    requires i < Places(g.flags.resumed)
  {
    Taken(g, PlaceAt(g.flags.resumed, i))
  }

  predicate FromClientAt(g: Setup, i: nat)
    requires i < Places(g.flags.resumed)
  {
    FromClient(PlaceAt(g.flags.resumed, i))
  }

  /** What is sent at a place when `before` has been exchanged. */
  function ItemFor(g: Setup, p: Place, before: seq<Message>): Item {
    match p
    case PClientHello => Handshake(ClientHello)
    case PServerHello => Handshake(ServerHello(g.flags))
    case PServerCert => Handshake(Certificate(true, false))
    case PStatus => Handshake(CertificateStatus)
    case PKeyExchange => Handshake(ServerKeyExchange)
    case PRequest => Handshake(CertificateRequest)
    case PHelloDone => Handshake(ServerHelloDone)
    case PClientCert => Handshake(Certificate(false, !g.clientHasCert))
    case PClientKey => Handshake(ClientKeyExchange)
    case PVerify => Handshake(CertificateVerify(before))
    case PClientCcs => ChangeCipherSpec
    case PNextProto => Handshake(NextProto)
    case PChannelId => Handshake(ChannelId(before))
    case PClientFinished => Handshake(Finished(false, before))
    case PTicket => Handshake(NewSessionTicket)
    case PServerCcs => ChangeCipherSpec
    case PServerFinished => Handshake(Finished(true, before))
  }

  /** The handshake messages exchanged before place `i`. */
  function Before(g: Setup, i: nat): (t: seq<Message>)
    requires i <= Places(g.flags.resumed)
    decreases i
  {
    if i == 0 then []
    else
      var t := Before(g, i - 1);
      var item := ItemFor(g, PlaceAt(g.flags.resumed, i - 1), t);
      if TakenAt(g, i - 1) && item.Handshake? then t + [item.m] else t
  }

  function ItemAt(g: Setup, i: nat): Item
    requires i < Places(g.flags.resumed)
  {
    ItemFor(g, PlaceAt(g.flags.resumed, i), Before(g, i))
  }

  /** What is sent at a place, if anything. */
  function SentAt(g: Setup, i: nat): (s: seq<Item>)
    requires i < Places(g.flags.resumed)
  {
    if TakenAt(g, i) then [ItemAt(g, i)] else []
  }

  /** Everything sent at the places from `a` to `b`. */
  function Items(g: Setup, a: nat, b: nat): (s: seq<Item>)
    requires b <= Places(g.flags.resumed)
    decreases b
  {
    if a >= b then []
    else Items(g, a, b - 1) + SentAt(g, b - 1)
  }

  /** The places from `a` to `b` are, as far as they are taken, those of one side. */
  predicate Only(g: Setup, client: bool, a: nat, b: nat)
    requires b <= Places(g.flags.resumed)
  {
    forall k :: a <= k < b ==> TakenAt(g, k) ==> FromClientAt(g, k) == client
  }

  /** The client stands at place `i`, the server at place `j`; what is under way is what lies
      between them. */
  ghost predicate InStep(g: Setup, i: nat, j: nat, toServer: seq<Item>, toClient: seq<Item>) {
    && i <= Places(g.flags.resumed) && j <= Places(g.flags.resumed)
    && toServer == Items(g, j, i) && Only(g, true, j, i)
    && toClient == Items(g, i, j) && Only(g, false, i, j)
  }

  /** At first both sides stand at the start. */
  lemma {:induction false} BothStart(g: Setup)
    ensures InStep(g, 0, 0, [], []) && Before(g, 0) == []
  {
  }

  lemma {:induction false} ItemsFront(g: Setup, a: nat, b: nat)
    requires a < b <= Places(g.flags.resumed)
    ensures Items(g, a, b) == SentAt(g, a) + Items(g, a + 1, b)
    decreases b
  {
    hide SentAt;
    if a < b - 1 {
      ItemsFront(g, a, b - 1);
      assert SentAt(g, a) + Items(g, a + 1, b - 1) + SentAt(g, b - 1)
          == SentAt(g, a) + (Items(g, a + 1, b - 1) + SentAt(g, b - 1));
    } else {
      assert Items(g, a, b - 1) == [] && Items(g, a + 1, b) == [];
    }
  }

  /** A place that is not taken is passed by without a trace. */
  lemma ClientPasses(g: Setup, i: nat, j: nat, toServer: seq<Item>, toClient: seq<Item>)
    requires InStep(g, i, j, toServer, toClient) && i < Places(g.flags.resumed) && !TakenAt(g, i)
    ensures InStep(g, i + 1, j, toServer, toClient)
  {
    hide TakenAt, ItemAt;
    if i < j {
      ItemsFront(g, i, j);
      assert [] + Items(g, i + 1, j) == Items(g, i + 1, j);
    } else {
      assert Items(g, j, i) + [] == Items(g, j, i);
    }
  }

  lemma ServerPasses(g: Setup, i: nat, j: nat, toServer: seq<Item>, toClient: seq<Item>)
    requires InStep(g, i, j, toServer, toClient) && j < Places(g.flags.resumed) && !TakenAt(g, j)
    ensures InStep(g, i, j + 1, toServer, toClient)
  {
    hide TakenAt, ItemAt;
    if j < i {
      ItemsFront(g, j, i);
      assert [] + Items(g, j + 1, i) == Items(g, j + 1, i);
    } else {
      assert Items(g, i, j) + [] == Items(g, i, j);
    }
  }

  /** A side sends what is its own. */
  lemma ClientSends(g: Setup, i: nat, j: nat, toServer: seq<Item>, toClient: seq<Item>)
    requires InStep(g, i, j, toServer, toClient) && i < Places(g.flags.resumed)
    requires TakenAt(g, i) && FromClientAt(g, i)
    ensures j <= i && InStep(g, i + 1, j, toServer + [ItemAt(g, i)], toClient)
  {
    hide TakenAt, ItemAt, FromClientAt;
    if i < j {
      assert false;
    }
  }

  lemma ServerSends(g: Setup, i: nat, j: nat, toServer: seq<Item>, toClient: seq<Item>)
    requires InStep(g, i, j, toServer, toClient) && j < Places(g.flags.resumed)
    requires TakenAt(g, j) && !FromClientAt(g, j)
    ensures i <= j && InStep(g, i, j + 1, toServer, toClient + [ItemAt(g, j)])
  {
    hide TakenAt, ItemAt, FromClientAt;
    if j < i {
      assert false;
    }
  }

  /** What arrives at a place of the other side is what was to come. */
  lemma ClientReceives(g: Setup, i: nat, j: nat, toServer: seq<Item>, toClient: seq<Item>)
    requires InStep(g, i, j, toServer, toClient) && toClient != []
    ensures i < j
    ensures TakenAt(g, i) ==> toClient[0] == ItemAt(g, i) && InStep(g, i + 1, j, toServer, toClient[1..])
  {
    hide TakenAt, ItemAt;
    if i < j {
      ItemsFront(g, i, j);
      assert Items(g, j, i + 1) == [];
    }
  }

  lemma ServerReceives(g: Setup, i: nat, j: nat, toServer: seq<Item>, toClient: seq<Item>)
    requires InStep(g, i, j, toServer, toClient) && toServer != []
    ensures j < i
    ensures TakenAt(g, j) ==> toServer[0] == ItemAt(g, j) && InStep(g, i, j + 1, toServer[1..], toClient)
  {
    hide TakenAt, ItemAt;
    if j < i {
      ItemsFront(g, j, i);
      assert Items(g, i, j + 1) == [];
    }
  }

  // --------------------------------------------------------- one side at its place

  /** A client at place `i` whose transcript is `t`, in step with a server at place `j`. */
  ghost predicate ClientStands(g: Setup, i: nat, j: nat, t: seq<Message>, toServer: seq<Item>, toClient: seq<Item>) {
    InStep(g, i, j, toServer, toClient) && t == Before(g, i)
  }

  ghost predicate ServerStands(g: Setup, i: nat, j: nat, t: seq<Message>, toServer: seq<Item>, toClient: seq<Item>) {
    InStep(g, i, j, toServer, toClient) && t == Before(g, j)
  }

  /** A transcript behind an item: ChangeCipherSpec is not hashed. */
  function Hashed(t: seq<Message>, item: Item): seq<Message> {
    if item.Handshake? then t + [item.m] else t
  }

  lemma ClientSays(g: Setup, i: nat, j: nat, p: Place, t: seq<Message>, toServer: seq<Item>, toClient: seq<Item>)
    requires ClientStands(g, i, j, t, toServer, toClient)
    requires i < Places(g.flags.resumed) && p == PlaceAt(g.flags.resumed, i) && Taken(g, p) && FromClient(p)
    ensures ClientStands(g, i + 1, j, Hashed(t, ItemFor(g, p, t)), toServer + [ItemFor(g, p, t)], toClient)
  {
    ClientSends(g, i, j, toServer, toClient);
    hide InStep, PlaceAt, Taken, FromClient, ItemFor;
  }

  lemma ClientHears(g: Setup, i: nat, j: nat, p: Place, t: seq<Message>, toServer: seq<Item>, toClient: seq<Item>)
    requires ClientStands(g, i, j, t, toServer, toClient) && toClient != []
    requires i < Places(g.flags.resumed) && p == PlaceAt(g.flags.resumed, i) && Taken(g, p)
    ensures toClient[0] == ItemFor(g, p, t)
    ensures ClientStands(g, i + 1, j, Hashed(t, ItemFor(g, p, t)), toServer, toClient[1..])
  {
    ClientReceives(g, i, j, toServer, toClient);
    hide InStep, PlaceAt, Taken, FromClient, ItemFor;
  }

  lemma ClientSkips(g: Setup, i: nat, j: nat, p: Place, t: seq<Message>, toServer: seq<Item>, toClient: seq<Item>)
    requires ClientStands(g, i, j, t, toServer, toClient)
    requires i < Places(g.flags.resumed) && p == PlaceAt(g.flags.resumed, i) && !Taken(g, p)
    ensures ClientStands(g, i + 1, j, t, toServer, toClient)
  {
    ClientPasses(g, i, j, toServer, toClient);
    hide InStep, PlaceAt, Taken, FromClient, ItemFor;
  }

  lemma ServerSays(g: Setup, i: nat, j: nat, p: Place, t: seq<Message>, toServer: seq<Item>, toClient: seq<Item>)
    requires ServerStands(g, i, j, t, toServer, toClient)
    requires j < Places(g.flags.resumed) && p == PlaceAt(g.flags.resumed, j) && Taken(g, p) && !FromClient(p)
    ensures ServerStands(g, i, j + 1, Hashed(t, ItemFor(g, p, t)), toServer, toClient + [ItemFor(g, p, t)])
  {
    ServerSends(g, i, j, toServer, toClient);
    hide InStep, PlaceAt, Taken, FromClient, ItemFor;
  }

  lemma ServerHears(g: Setup, i: nat, j: nat, p: Place, t: seq<Message>, toServer: seq<Item>, toClient: seq<Item>)
    requires ServerStands(g, i, j, t, toServer, toClient) && toServer != []
    requires j < Places(g.flags.resumed) && p == PlaceAt(g.flags.resumed, j) && Taken(g, p)
    ensures toServer[0] == ItemFor(g, p, t)
    ensures ServerStands(g, i, j + 1, Hashed(t, ItemFor(g, p, t)), toServer[1..], toClient)
  {
    ServerReceives(g, i, j, toServer, toClient);
    hide InStep, PlaceAt, Taken, FromClient, ItemFor;
  }

  lemma ServerSkips(g: Setup, i: nat, j: nat, p: Place, t: seq<Message>, toServer: seq<Item>, toClient: seq<Item>)
    requires ServerStands(g, i, j, t, toServer, toClient)
    requires j < Places(g.flags.resumed) && p == PlaceAt(g.flags.resumed, j) && !Taken(g, p)
    ensures ServerStands(g, i, j + 1, t, toServer, toClient)
  {
    ServerPasses(g, i, j, toServer, toClient);
    hide InStep, PlaceAt, Taken, FromClient, ItemFor;
  }

  /** The first place from `i` on that is taken; at the end there is none. */
  function Ahead(g: Setup, i: nat): (k: nat)
    requires i <= Places(g.flags.resumed)
    ensures i <= k <= Places(g.flags.resumed)
    decreases Places(g.flags.resumed) - i
  {
    if i == Places(g.flags.resumed) || TakenAt(g, i) then i else Ahead(g, i + 1)
  }

  lemma {:induction false} NextComes(g: Setup, i: nat, k: nat)
    requires i <= k < Places(g.flags.resumed) && TakenAt(g, k)
    ensures Ahead(g, i) <= k && TakenAt(g, Ahead(g, i))
    decreases k - i
  {
    hide TakenAt;
    if !TakenAt(g, i) {
      NextComes(g, i + 1, k);
    }
  }

  /** What arrives first is what is sent at the next place. */
  lemma {:induction false} FirstIsNext(g: Setup, a: nat, b: nat)
    requires a <= b <= Places(g.flags.resumed) && Items(g, a, b) != []
    ensures Ahead(g, a) < b && TakenAt(g, Ahead(g, a)) && Items(g, a, b)[0] == ItemAt(g, Ahead(g, a))
    decreases b - a
  {
    hide TakenAt, ItemAt;
    if a < b {
      ItemsFront(g, a, b);
      if !TakenAt(g, a) {
        FirstIsNext(g, a + 1, b);
      }
    }
  }

  /** When nothing is under way, both sides have the same place in front of them. */
  lemma {:induction false} NothingUnderWay(g: Setup, a: nat, b: nat)
    requires a <= b <= Places(g.flags.resumed) && Items(g, a, b) == []
    ensures Ahead(g, a) == Ahead(g, b)
    decreases b - a
  {
    hide TakenAt;
    if a < b {
      ItemsFront(g, a, b);
      NothingUnderWay(g, a + 1, b);
    }
  }

  lemma {:induction false} BeforeGrows(g: Setup, a: nat, b: nat)
    requires a <= b <= Places(g.flags.resumed)
    ensures Before(g, a) <= Before(g, b)
    decreases b
  {
    hide TakenAt, ItemFor;
    if a < b {
      BeforeGrows(g, a, b - 1);
    }
  }

  // ------------------------------------------------------------- what is authenticated

  /** Every signature and every Finished in a transcript covers all that was exchanged before it. */
  predicate SignedInFull(t: seq<Message>) {
    forall k :: 0 <= k < |t| ==> t[k].CertificateVerify? || t[k].Finished? ==> t[k].over == t[..k]
  }

  lemma SignedMore(t: seq<Message>, m: Message)
    requires SignedInFull(t) && (m.CertificateVerify? || m.Finished? ==> m.over == t)
    ensures SignedInFull(t + [m])
  {
    var more := t + [m];
    forall k | 0 <= k < |more|
      ensures more[k].CertificateVerify? || more[k].Finished? ==> more[k].over == more[..k]
    {
      assert more[..k] == t[..k];
      if k == |t| {
        assert t[..k] == t;
      }
    }
  }
}
