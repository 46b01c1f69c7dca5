/** A client and a server over a reliable channel: no side fails, no side gets stuck, and every
    Finished is checked over what it was computed over. */
module HsRun {
  import opened HsMessages
  import C = HsClient
  import S = HsServer
  import CP = HsClientPlace
  import SP = HsServerPlace

  datatype System = System(client: C.End, server: S.End, toServer: seq<Item>, toClient: seq<Item>)

  /** The client and the server take their turns in any order; callbacks may have to be asked again. */
  datatype Move = ClientMoves(outcome: Outcome) | ServerMoves(outcome: Outcome)

  function Initial(config: S.Config, hasCert: bool): System {
    System(C.End(C.Initial(hasCert), false), S.End(S.Initial(config), false), [], [])
  }

  function Rest(items: seq<Item>, taken: bool): seq<Item> {
    if taken && items != [] then items[1..] else items
  }

  function Next(x: System, move: Move): System {
    match move
    case ClientMoves(o) =>
      var t := C.Step(x.client, x.toClient, o);
      System(t.end, x.server, x.toServer + t.sent, Rest(x.toClient, t.taken))
    case ServerMoves(o) =>
      var t := S.Step(x.server, x.toServer, o);
      System(x.client, t.end, Rest(x.toServer, t.taken), x.toClient + t.sent)
  }

  function Run(config: S.Config, hasCert: bool, moves: seq<Move>): System {
    if moves == [] then Initial(config, hasCert)
    else Next(Run(config, hasCert, moves[..|moves| - 1]), moves[|moves| - 1])
  }

  /** No callback and no primitive fails. */
  predicate NothingFails(moves: seq<Move>) {
    forall k :: 0 <= k < |moves| ==> !moves[k].outcome.Bad?
  }

  // ------------------------------------------------------------------ the invariant

  ghost predicate Inv(g: Setup, x: System) {
    && C.Safe(x.client.hs) && S.Safe(x.server.hs)
    && CP.Knows(g, x.client.hs) && SP.Knows(g, x.server.hs)
    && CP.At(g, x.client.hs, SP.PlaceOf(x.server.hs), x.toServer, x.toClient + x.server.hs.flight)
    && SP.At(g, x.server.hs, CP.PlaceOf(x.client.hs), x.toServer + x.client.hs.flight, x.toClient)
    && CP.Arrived(x.client, x.toClient, x.toClient + x.server.hs.flight)
    && SP.Arrived(x.server, x.toServer, x.toServer + x.client.hs.flight)
  }

  lemma BeginsSafely(config: S.Config, hasCert: bool)
    ensures var x := Initial(config, hasCert); C.Safe(x.client.hs) && S.Safe(x.server.hs)
  {
  }

  lemma ClientBeginsKnown(config: S.Config, hasCert: bool)
    ensures CP.Knows(SP.SetupOf(config, hasCert), Initial(config, hasCert).client.hs)
  {
  }

  lemma ServerBeginsKnown(config: S.Config, hasCert: bool)
    ensures SP.Knows(SP.SetupOf(config, hasCert), Initial(config, hasCert).server.hs)
  {
    var s := Initial(config, hasCert).server.hs;
    assert S.Rank(s) < 4 && !SP.FullOnly(s);
    hide S.Requests, S.Rank, SP.FullOnly;
  }

  lemma {:induction false} ClientBegins(config: S.Config, hasCert: bool)
    ensures var g, x := SP.SetupOf(config, hasCert), Initial(config, hasCert);
            && CP.At(g, x.client.hs, SP.PlaceOf(x.server.hs), x.toServer, x.toClient + x.server.hs.flight)
            && CP.Arrived(x.client, x.toClient, x.toClient + x.server.hs.flight)
  {
    hide InStep, Before, SP.SetupOf;
    BothStart(SP.SetupOf(config, hasCert));
  }

  lemma {:induction false} ServerBegins(config: S.Config, hasCert: bool)
    ensures var g, x := SP.SetupOf(config, hasCert), Initial(config, hasCert);
            && SP.At(g, x.server.hs, CP.PlaceOf(x.client.hs), x.toServer + x.client.hs.flight, x.toClient)
            && SP.Arrived(x.server, x.toServer, x.toServer + x.client.hs.flight)
  {
    hide InStep, Before, SP.SetupOf;
    BothStart(SP.SetupOf(config, hasCert));
  }

  lemma Begins(config: S.Config, hasCert: bool)
    ensures Inv(SP.SetupOf(config, hasCert), Initial(config, hasCert))
  {
    hide C.Safe, S.Safe, CP.Knows, SP.Knows, CP.At, SP.At, CP.Arrived, SP.Arrived, Initial;
    BeginsSafely(config, hasCert);
    ClientBeginsKnown(config, hasCert);
    ServerBeginsKnown(config, hasCert);
    ClientBegins(config, hasCert);
    ServerBegins(config, hasCert);
  }

  /** What a client's turn leaves is what the server sees of it. */
  lemma ServerStillStands(g: Setup, c: C.Client, s: S.Server, i: nat, toServer: seq<Item>, toClient: seq<Item>,
                          toServer': seq<Item>, toClient': seq<Item>)
    requires SP.At(g, s, i, toServer, toClient)
    requires CP.At(g, c, SP.PlaceOf(s), toServer', toClient' + s.flight)
    ensures SP.At(g, s, CP.PlaceOf(c), toServer' + c.flight, toClient')
  {
    hide CP.PlaceOf, SP.PlaceOf, InStep, Before;
  }

  lemma ClientStillStands(g: Setup, c: C.Client, s: S.Server, j: nat, toServer: seq<Item>, toClient: seq<Item>,
                          toServer': seq<Item>, toClient': seq<Item>)
    requires CP.At(g, c, j, toServer, toClient)
    requires SP.At(g, s, CP.PlaceOf(c), toServer' + c.flight, toClient')
    ensures CP.At(g, c, SP.PlaceOf(s), toServer', toClient' + s.flight)
  {
    hide CP.PlaceOf, SP.PlaceOf, InStep, Before;
  }

  lemma RestBehind(items: seq<Item>, more: seq<Item>, taken: bool)
    requires taken ==> items != []
    ensures (if taken then (items + more)[1..] else items + more) == Rest(items, taken) + more
  {
  }

  lemma ClientKeeps(g: Setup, x: System, o: Outcome)
    requires Inv(g, x) && !o.Bad?
    ensures Inv(g, Next(x, ClientMoves(o)))
  {
    hide C.Safe, S.Safe, CP.Knows, SP.Knows, CP.At, SP.At, C.Step, CP.PlaceOf, SP.PlaceOf;
    var s := x.server.hs;
    var t := C.Step(x.client, x.toClient, o);
    C.StepIsSafe(x.client, x.toClient, o);
    CP.StepFollows(g, x.client, x.toClient, o, SP.PlaceOf(s), x.toServer, x.toClient + s.flight);
    RestBehind(x.toClient, s.flight, t.taken);
    ServerStillStands(g, t.end.hs, s, CP.PlaceOf(x.client.hs), x.toServer + x.client.hs.flight, x.toClient,
                      x.toServer + t.sent, Rest(x.toClient, t.taken));
  }

  lemma ServerKeeps(g: Setup, x: System, o: Outcome)
    requires Inv(g, x) && !o.Bad?
    ensures Inv(g, Next(x, ServerMoves(o)))
  {
    hide C.Safe, S.Safe, CP.Knows, SP.Knows, CP.At, SP.At, S.Step, CP.PlaceOf, SP.PlaceOf;
    var c := x.client.hs;
    var t := S.Step(x.server, x.toServer, o);
    S.StepIsSafe(x.server, x.toServer, o);
    SP.StepFollows(g, x.server, x.toServer, o, CP.PlaceOf(c), x.toServer + c.flight, x.toClient);
    RestBehind(x.toServer, c.flight, t.taken);
    ClientStillStands(g, c, t.end.hs, SP.PlaceOf(x.server.hs), x.toServer, x.toClient + x.server.hs.flight,
                      Rest(x.toServer, t.taken), x.toClient + t.sent);
  }

  lemma {:induction false} RunKeeps(config: S.Config, hasCert: bool, moves: seq<Move>)
    requires NothingFails(moves)
    ensures Inv(SP.SetupOf(config, hasCert), Run(config, hasCert, moves))
  {
    hide Inv, Next;
    if moves == [] {
      Begins(config, hasCert);
    } else {
      var before := moves[..|moves| - 1];
      RunKeeps(config, hasCert, before);
      match moves[|moves| - 1] {
        case ClientMoves(o) => ClientKeeps(SP.SetupOf(config, hasCert), Run(config, hasCert, before), o);
        case ServerMoves(o) => ServerKeeps(SP.SetupOf(config, hasCert), Run(config, hasCert, before), o);
      }
    }
  }

  // ------------------------------------------------------------------ agreement

  predicate BothDone(x: System) {
    x.client.hs.state.Done? && x.server.hs.state.Done?
  }

  /** As long as no callback fails no side fails, and the two transcripts never differ: one is the
      beginning of the other. Every signature and every Finished in them covers all before it, so
      that a side that accepted one accepted it over what the other has exchanged. */
  lemma TranscriptsAgree(config: S.Config, hasCert: bool, moves: seq<Move>)
    requires NothingFails(moves)
    ensures var x := Run(config, hasCert, moves);
            && !x.client.hs.wait.Failed? && !x.server.hs.wait.Failed?
            && (x.client.hs.transcript <= x.server.hs.transcript || x.server.hs.transcript <= x.client.hs.transcript)
            && SignedInFull(x.client.hs.transcript) && SignedInFull(x.server.hs.transcript)
  {
    hide Run, InStep, CP.PlaceOf, SP.PlaceOf, SignedInFull;
    var g := SP.SetupOf(config, hasCert);
    var x := Run(config, hasCert, moves);
    RunKeeps(config, hasCert, moves);
    var i, j := CP.PlaceOf(x.client.hs), SP.PlaceOf(x.server.hs);
    assert i <= Places(g.flags.resumed) && j <= Places(g.flags.resumed) by {
      Within(g, i, j, x.toServer + x.client.hs.flight, x.toClient + x.server.hs.flight);
    }
    if i <= j {
      BeforeGrows(g, i, j);
    } else {
      BeforeGrows(g, j, i);
    }
  }

  lemma Within(g: Setup, i: nat, j: nat, toServer: seq<Item>, toClient: seq<Item>)
    requires InStep(g, i, j, toServer, toClient)
    ensures i <= Places(g.flags.resumed) && j <= Places(g.flags.resumed)
  {
  }

  /** When both sides are done they have the same transcript, the whole script for what they
      agreed on; both have checked the other's Finished under their read keys; a client chain
      was verified and signed for exactly if it was asked for and there was one. */
  lemma DoneAgree(config: S.Config, hasCert: bool, moves: seq<Move>)
    requires NothingFails(moves) && BothDone(Run(config, hasCert, moves))
    ensures var asks := config.verifyPeer && config.flags.certAuth && !config.flags.resumed;
            var g := Setup(config.flags, asks, hasCert, config.hint);
            var c := Run(config, hasCert, moves).client.hs;
            var s := Run(config, hasCert, moves).server.hs;
            && c.transcript == s.transcript == Before(g, Places(g.flags.resumed)) && c.flags == s.config.flags
            && c.readKeys && c.finishedOk && s.readKeys && s.finishedOk
            && s.peerCert == (asks && hasCert) && (s.peerCert ==> s.verified && s.signed)
            && (c.flags.certAuth && !c.flags.resumed ==> c.verified)
  {
    hide Run, InStep, SignedInFull, Before;
    RunKeeps(config, hasCert, moves);
  }

  // ------------------------------------------------------------------ progress

  /** A turn of this side does something. */
  predicate ClientCanMove(x: System) {
    var c := x.client.hs;
    !c.state.Done? && (x.toClient == [] ==> !c.wait.ReadMessage? && !c.wait.ReadCcs?)
  }

  predicate ServerCanMove(x: System) {
    var s := x.server.hs;
    !s.state.Done? && (x.toServer == [] ==> !s.wait.ReadMessage? && !s.wait.ReadCcs?)
  }

  /** With nothing under way, both sides have the same place ahead of them. */
  lemma BothCannotWait(g: Setup, i: nat, j: nat)
    requires InStep(g, i, j, [], [])
    ensures Ahead(g, i) == Ahead(g, j)
  {
    if i <= j {
      NothingUnderWay(g, i, j);
    } else {
      NothingUnderWay(g, j, i);
    }
  }

  lemma ClientWaits(g: Setup, x: System)
    requires Inv(g, x) && !ClientCanMove(x)
    ensures x.client.hs.flight == []
    ensures !x.client.hs.state.Done? ==> x.toClient == []
    ensures var i := CP.PlaceOf(x.client.hs); i <= Places(g.flags.resumed)
    ensures var k := Ahead(g, CP.PlaceOf(x.client.hs)); k < Places(g.flags.resumed) ==> !FromClientAt(g, k)
    ensures !x.client.hs.state.Done? ==> Ahead(g, CP.PlaceOf(x.client.hs)) < Places(g.flags.resumed)
  {
    hide C.Safe, S.Safe, SP.Knows, CP.At, SP.At, SP.PlaceOf, FromClientAt, TakenAt, ItemAt;
    CP.WaitsEmptyHanded(g, x.client.hs);
    if !x.client.hs.state.Done? {
      CP.Expects(g, x.client.hs);
    }
  }

  lemma ServerWaits(g: Setup, x: System)
    requires Inv(g, x) && !ServerCanMove(x)
    ensures x.server.hs.flight == []
    ensures !x.server.hs.state.Done? ==> x.toServer == []
    ensures var j := SP.PlaceOf(x.server.hs); j <= Places(g.flags.resumed)
    ensures var k := Ahead(g, SP.PlaceOf(x.server.hs)); k < Places(g.flags.resumed) ==> FromClientAt(g, k)
    ensures !x.server.hs.state.Done? ==> Ahead(g, SP.PlaceOf(x.server.hs)) < Places(g.flags.resumed)
  {
    hide C.Safe, S.Safe, CP.Knows, CP.At, SP.At, CP.PlaceOf, FromClientAt, TakenAt, ItemAt;
    SP.WaitsEmptyHanded(g, x.server.hs);
    if !x.server.hs.state.Done? {
      SP.Expects(g, x.server.hs);
    }
  }

  /** Nothing is to come for a side at the end. */
  lemma NothingToCome(g: Setup, i: nat, j: nat, toServer: seq<Item>, toClient: seq<Item>)
    requires InStep(g, i, j, toServer, toClient)
    ensures i == Places(g.flags.resumed) ==> toClient == []
    ensures j == Places(g.flags.resumed) ==> toServer == []
  {
  }

  /** A side that is done leaves nothing for itself on the way. */
  lemma ClientHasRead(g: Setup, x: System)
    requires Inv(g, x) && x.client.hs.state.Done?
    ensures x.toClient == []
  {
    hide C.Safe, S.Safe, SP.Knows, SP.At, SP.PlaceOf, InStep, Before;
    NothingToCome(g, CP.PlaceOf(x.client.hs), SP.PlaceOf(x.server.hs),
                  x.toServer + x.client.hs.flight, x.toClient + x.server.hs.flight);
  }

  lemma ServerHasRead(g: Setup, x: System)
    requires Inv(g, x) && x.server.hs.state.Done?
    ensures x.toServer == []
  {
    hide C.Safe, S.Safe, CP.Knows, CP.At, CP.PlaceOf, InStep, Before;
    NothingToCome(g, CP.PlaceOf(x.client.hs), SP.PlaceOf(x.server.hs),
                  x.toServer + x.client.hs.flight, x.toClient + x.server.hs.flight);
  }

  /** There is no deadlock: as long as one side is not done, one side can take a turn. */
  lemma NoDeadlock(g: Setup, x: System)
    requires Inv(g, x) && !BothDone(x)
    ensures ClientCanMove(x) || ServerCanMove(x)
  {
    hide C.Safe, S.Safe, CP.Knows, SP.Knows, CP.PlaceOf, SP.PlaceOf, InStep, FromClientAt;
    if !ClientCanMove(x) && !ServerCanMove(x) {
      ClientWaits(g, x);
      ServerWaits(g, x);
      if x.client.hs.state.Done? {
        ClientHasRead(g, x);
      }
      if x.server.hs.state.Done? {
        ServerHasRead(g, x);
      }
      assert x.toServer + x.client.hs.flight == [] && x.toClient + x.server.hs.flight == [];
      BothCannotWait(g, CP.PlaceOf(x.client.hs), SP.PlaceOf(x.server.hs));
    }
  }

  function Remaining(x: System): nat {
    C.Remaining(x.client) + S.Remaining(x.server)
  }

  /** Every turn that can be taken brings the end nearer, if no callback has to be asked again. */
  lemma ClientLeadsOn(g: Setup, x: System)
    requires Inv(g, x) && ClientCanMove(x)
    ensures Remaining(Next(x, ClientMoves(Good))) < Remaining(x)
  {
    hide C.Safe, S.Safe, SP.Knows, CP.At, SP.At, C.Remaining, C.Step;
    ClientKeeps(g, x, Good);
    CP.KnowsNoFailure(g, x.client.hs);
    CP.KnowsNoFailure(g, Next(x, ClientMoves(Good)).client.hs);
    C.StepLeadsOn(x.client, x.toClient);
  }

  lemma ServerLeadsOn(g: Setup, x: System)
    requires Inv(g, x) && ServerCanMove(x)
    ensures Remaining(Next(x, ServerMoves(Good))) < Remaining(x)
  {
    hide C.Safe, S.Safe, CP.Knows, CP.At, SP.At, S.Remaining, S.Step;
    ServerKeeps(g, x, Good);
    SP.KnowsNoFailure(g, x.server.hs);
    SP.KnowsNoFailure(g, Next(x, ServerMoves(Good)).server.hs);
    S.StepLeadsOn(x.server, x.toServer);
  }

  lemma RunOne(config: S.Config, hasCert: bool, moves: seq<Move>, move: Move)
    requires NothingFails(moves) && !move.outcome.Bad?
    ensures Run(config, hasCert, moves + [move]) == Next(Run(config, hasCert, moves), move)
    ensures NothingFails(moves + [move])
  {
    assert (moves + [move])[..|moves|] == moves;
  }

  /** From wherever a run without failures has got to, the handshake can be completed. */
  lemma {:induction false} CanComplete(config: S.Config, hasCert: bool, moves: seq<Move>) returns (more: seq<Move>)
    requires NothingFails(moves)
    ensures NothingFails(moves + more) && BothDone(Run(config, hasCert, moves + more))
    decreases Remaining(Run(config, hasCert, moves))
  {
    hide Inv, Next, Run, ClientCanMove, ServerCanMove, Remaining, NothingFails;
    var g := SP.SetupOf(config, hasCert);
    var x := Run(config, hasCert, moves);
    RunKeeps(config, hasCert, moves);
    if BothDone(x) {
      more := [];
      assert moves + more == moves;
    } else {
      NoDeadlock(g, x);
      var move := if ClientCanMove(x) then ClientMoves(Good) else ServerMoves(Good);
      if ClientCanMove(x) {
        ClientLeadsOn(g, x);
      } else {
        ServerLeadsOn(g, x);
      }
      RunOne(config, hasCert, moves, move);
      var rest := CanComplete(config, hasCert, moves + [move]);
      more := [move] + rest;
      assert moves + more == moves + [move] + rest;
    }
  }
}
