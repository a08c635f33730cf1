/**
 * Client and server over two FIFO channels with partial flushes: agreement on the
 * transcript, flushing before reading, freedom from deadlock, and completion.
 */
module TlsJoint {
  import opened TlsMachines
  import opened TlsRunHandshake
  import opened TlsRunShape
  import opened TlsScript
  import opened TlsClientSteps
  import opened TlsServerSteps

  /** Both machines with their waits, the records on the wire in each direction, and whether some step failed from outside. */
  datatype Sys = Sys(c: Client, cw: Wait, s: Server, sw: Wait, c2s: seq<Record>, s2c: seq<Record>, broken: bool)

  /** Who moves, the luck of a step of its machine, and how many records a flush gets onto the wire. */
  datatype Choice = Choice(who: Role, l: Luck, n: nat)

  function MoveClient(y: Sys, l: Luck, n: nat): Sys {
    if Callable(y.cw) then
      var (c, w) := ClientDo(y.c, l);
      y.(c := c, cw := w, broken := y.broken || l.fails)
    else
      var e := ResolveWait(Endpoint(y.c.k, y.cw, y.c2s, y.s2c), n);
      y.(c := y.c.(k := e.k), cw := e.w, c2s := e.out, s2c := e.incoming)
  }

  function MoveServer(y: Sys, l: Luck, n: nat): Sys {
    if Callable(y.sw) then
      var (s, w) := ServerDo(y.s, l);
      y.(s := s, sw := w, broken := y.broken || l.fails)
    else
      var e := ResolveWait(Endpoint(y.s.k, y.sw, y.s2c, y.c2s), n);
      y.(s := y.s.(k := e.k), sw := e.w, s2c := e.out, c2s := e.incoming)
  }

  function Move(y: Sys, x: Choice): Sys {
    if x.who == ClientSide then MoveClient(y, x.l, x.n) else MoveServer(y, x.l, x.n)
  }

  /** The moves of the joint system are those that ssl_run_handshake makes on either side. */
  lemma {:induction false} MovesAgree(y: Sys, l: Luck, n: nat)
    ensures var z := MoveClient(y, l, n);
            Side(AsClient(z.c), z.cw, z.c2s, z.s2c) == MoveSide(Side(AsClient(y.c), y.cw, y.c2s, y.s2c), l, n)
    ensures var z := MoveServer(y, l, n);
            Side(AsServer(z.s), z.sw, z.s2c, z.c2s) == MoveSide(Side(AsServer(y.s), y.sw, y.s2c, y.c2s), l, n)
  {
    hide ClientDo, ServerDo, ResolveWait;
  }

  function Begin(g: Cfg): Sys {
    Sys(NewClient(g.chain), Ok, NewServer(g.p), Ok, [], [], false)
  }

  function RunJoint(g: Cfg, xs: seq<Choice>): Sys {
    if xs == [] then Begin(g) else Move(RunJoint(g, xs[..|xs| - 1]), xs[|xs| - 1])
  }

  function CHalf(g: Cfg, y: Sys): Half {
    ClientHalf(g, y.c, y.cw, y.c2s)
  }

  function SHalf(g: Cfg, y: Sys): Half {
    ServerHalf(g, y.s, y.sw, y.s2c)
  }

  /** Both sides stand on the script h, and nothing has gone wrong that did not come from outside. */
  ghost predicate Inv(g: Cfg, h: Script, y: Sys) {
    && WfParams(g.p)
    && Joint(g, h, CHalf(g, y), SHalf(g, y), ClientSide)
    && ClientFacts(g, y.c, y.cw)
    && ServerFacts(g, y.s, y.sw)
    && (y.cw == Error || y.sw == Error ==> y.broken)
  }

  // ----- the invariant

  lemma {:induction false} BeginInv(g: Cfg)
    requires WfParams(g.p)
    ensures Inv(g, [], Begin(g))
  {
  }

  lemma {:induction false} ClientStepFollows(g: Cfg, h: Script, c: Client, w: Wait, out: seq<Record>, b: Half, l: Luck)
    returns (h': Script)
    requires ClientReady(g, h, c, w, out, b) && !l.fails
    ensures ClientOn(g, h', ClientDo(c, l), out, b)
  {
    hide ClientOn, ClientReady, DoReadServerHello, DoReadServerCertificate, DoReadCertificateStatus,
         DoVerifyServerCertificate, DoReadServerKeyExchange, DoReadCertificateRequest, DoSendClientCertificate,
         DoSendClientCertificateVerify, DoSendClientFinished, DoFinishFlight, DoReadSessionTicket, DoProcessServerCcs,
         DoReadServerFinished;
    h' := h;
    match c.state
    case StartConnect => h' := StartConnectFollows(g, h, c, w, out, b, l);
    case EnterEarlyData => EnterEarlyDataFollows(g, h, c, w, out, b, l);
    case ReadServerHello => ReadServerHelloFollows(g, h, c, w, out, b, l);
    case ReadServerCertificate => h' := ReadServerCertificateFollows(g, h, c, w, out, b, l);
    case ReadCertificateStatus => h' := ReadCertificateStatusFollows(g, h, c, w, out, b, l);
    case VerifyServerCertificate => VerifyServerCertificateFollows(g, h, c, w, out, b, l);
    case ReadServerKeyExchange => h' := ReadServerKeyExchangeFollows(g, h, c, w, out, b, l);
    case ReadCertificateRequest => h' := ReadCertificateRequestFollows(g, h, c, w, out, b, l);
    case ReadServerHelloDone => ReadServerHelloDoneFollows(g, h, c, w, out, b, l);
    case SendClientCertificate => h' := SendClientCertificateFollows(g, h, c, w, out, b, l);
    case SendClientKeyExchange => h' := SendClientKeyExchangeFollows(g, h, c, w, out, b, l);
    case SendClientCertificateVerify => h' := SendClientCertificateVerifyFollows(g, h, c, w, out, b, l);
    case SendClientFinished => h' := SendClientFinishedFollows(g, h, c, w, out, b, l);
    case FinishFlight => FinishFlightFollows(g, h, c, w, out, b, l);
    case ReadSessionTicket => h' := ReadSessionTicketFollows(g, h, c, w, out, b, l);
    case ProcessServerCcs => ProcessServerCcsFollows(g, h, c, w, out, b, l);
    case ReadServerFinished => ReadServerFinishedFollows(g, h, c, w, out, b, l);
    case FinishClient => ClientEndFollows(g, h, c, w, out, b, l);
    case ClientDone => ClientEndFollows(g, h, c, w, out, b, l);
  }

  lemma {:induction false} ServerStepFollows(g: Cfg, h: Script, s: Server, w: Wait, out: seq<Record>, b: Half, l: Luck)
    returns (h': Script)
    requires ServerReady(g, h, s, w, out, b) && !l.fails
    ensures ServerOn(g, h', ServerDo(s, l), out, b)
  {
    hide ServerOn, ServerReady, DoSelectParameters, DoSendServerHello, DoSendServerCertificate,
         DoSendServerKeyExchange, DoSendServerHelloDone, DoReadClientCertificate, DoVerifyClientCertificate,
         DoReadClientKeyExchange, DoReadClientCertificateVerify, DoProcessClientCcs, DoReadNextProto, DoReadChannelId,
         DoReadClientFinished, DoSendServerFinished;
    h' := h;
    match s.state
    case StartAccept => StartAcceptFollows(g, h, s, w, out, b, l);
    case ReadClientHello => ReadClientHelloFollows(g, h, s, w, out, b, l);
    case SelectCertificate => SelectCertificateFollows(g, h, s, w, out, b, l);
    case SelectParameters => SelectParametersFollows(g, h, s, w, out, b, l);
    case SendServerHello => h' := SendServerHelloFollows(g, h, s, w, out, b, l);
    case SendServerCertificate => h' := SendServerCertificateFollows(g, h, s, w, out, b, l);
    case SendServerKeyExchange => h' := SendServerKeyExchangeFollows(g, h, s, w, out, b, l);
    case SendServerHelloDone => h' := SendServerHelloDoneFollows(g, h, s, w, out, b, l);
    case ReadClientCertificate => h' := ReadClientCertificateFollows(g, h, s, w, out, b, l);
    case VerifyClientCertificate => VerifyClientCertificateFollows(g, h, s, w, out, b, l);
    case ReadClientKeyExchange => ReadClientKeyExchangeFollows(g, h, s, w, out, b, l);
    case ReadClientCertificateVerify => h' := ReadClientCertificateVerifyFollows(g, h, s, w, out, b, l);
    case ReadClientCcs => ReadClientCcsFollows(g, h, s, w, out, b, l);
    case ProcessClientCcs => ProcessClientCcsFollows(g, h, s, w, out, b, l);
    case ReadNextProto => h' := ReadNextProtoFollows(g, h, s, w, out, b, l);
    case ReadChannelId => h' := ReadChannelIdFollows(g, h, s, w, out, b, l);
    case ReadClientFinished => ReadClientFinishedFollows(g, h, s, w, out, b, l);
    case SendServerFinished => h' := SendServerFinishedFollows(g, h, s, w, out, b, l);
    case FinishServer => ServerEndFollows(g, h, s, w, out, b, l);
    case ServerDone => ServerEndFollows(g, h, s, w, out, b, l);
  }

  lemma {:induction false} SwapBack(g: Cfg, h: Script, a: Half, b: Half)
    requires Joint(g, h, a, b, ServerSide)
    ensures Joint(g, h, b, a, ClientSide)
  {
    hide Leads;
  }

  /** A failure from outside leaves the side where it stood. */
  lemma {:induction false} ClientFails(g: Cfg, c: Client, w: Wait, l: Luck)
    requires ClientFacts(g, c, w) && Callable(w) && l.fails
    ensures ClientDo(c, l) == (c, Error) && ClientFacts(g, c, Error) && ClientPos(g, c.state, Error) == ClientPos(g, c.state, w)
  {
  }

  lemma {:induction false} ServerFails(g: Cfg, s: Server, w: Wait, l: Luck)
    requires ServerFacts(g, s, w) && Callable(w) && l.fails
    ensures ServerDo(s, l) == (s, Error) && ServerFacts(g, s, Error) && ServerPos(g, s.state, Error) == ServerPos(g, s.state, w)
  {
  }

  lemma {:induction false} ClientCallInv(g: Cfg, h: Script, y: Sys, l: Luck, n: nat)
    returns (h': Script)
    requires Inv(g, h, y) && Callable(y.cw)
    ensures Inv(g, h', MoveClient(y, l, n))
  {
    hide Joint, ClientFacts, ServerFacts, ClientDo;
    h' := h;
    if l.fails {
      ClientFails(g, y.c, y.cw, l);
    } else {
      h' := ClientStepFollows(g, h, y.c, y.cw, y.c2s, SHalf(g, y), l);
    }
  }

  lemma {:induction false} ServerCallInv(g: Cfg, h: Script, y: Sys, l: Luck, n: nat)
    returns (h': Script)
    requires Inv(g, h, y) && Callable(y.sw)
    ensures Inv(g, h', MoveServer(y, l, n))
  {
    hide Joint, ClientFacts, ServerFacts, ServerDo;
    h' := h;
    if l.fails {
      ServerFails(g, y.s, y.sw, l);
    } else {
      Swap(g, h, CHalf(g, y), SHalf(g, y), ClientSide);
      h' := ServerStepFollows(g, h, y.s, y.sw, y.s2c, CHalf(g, y), l);
      var y' := MoveServer(y, l, n);
      SwapBack(g, h', SHalf(g, y'), CHalf(g, y'));
    }
  }

  /** Resolving the wait of side a, whatever it is for, keeps both sides on the script and never fails. */
  lemma {:induction false} ResolveKeeps(g: Cfg, h: Script, a: Half, b: Half, role: Role, w: Wait, n: nat)
    requires Joint(g, h, a, b, role)
    requires w == ReadMessage ==> a.k.inbox == [] && AwaitsMessage(g, a.pos, role, a.k.readOn)
    requires w == ReadCcs ==> a.k.inbox == [] && a.pos == CcsSlot(g, Other(role)) && !a.k.readOn
    ensures var e := ResolveWait(Endpoint(a.k, w, a.out, b.out), n);
            && (e.w == Error ==> w == Error)
            && Joint(g, h, Half(if w == ReadCcs && e.w == Ok then a.pos + 1 else a.pos, e.k, e.out), b.(out := e.incoming), role)
  {
    hide Joint, First, Records, Hist;
    if w == Flush {
      PushKeeps(g, h, a, b, role, n);
    } else if w == ReadMessage && b.out != [] {
      WireHead(g, h, a, b, role);
      ArriveKeeps(g, h, a, b, role);
      assert a.k.inbox + [b.out[0].item.m] == [b.out[0].item.m];
    } else if w == ReadCcs && b.out != [] {
      FirstHere(g, a.pos);
      WireHead(g, h, a, b, role);
      CcsKeeps(g, h, a, b, role);
      TrafficOnly(g, h, a.(pos := a.pos + 1), b.(out := b.out[1..]), role, a.k.(log := Then(a.k.log, CcsRead)));
    }
  }

  lemma {:induction false} ClientResolveInv(g: Cfg, h: Script, y: Sys, l: Luck, n: nat)
    requires Inv(g, h, y) && !Callable(y.cw)
    ensures Inv(g, h, MoveClient(y, l, n))
  {
    hide Joint, ServerFacts, First;
    ResolveKeeps(g, h, CHalf(g, y), SHalf(g, y), ClientSide, y.cw, n);
  }

  lemma {:induction false} ServerResolveInv(g: Cfg, h: Script, y: Sys, l: Luck, n: nat)
    requires Inv(g, h, y) && !Callable(y.sw)
    ensures Inv(g, h, MoveServer(y, l, n))
  {
    hide Joint, ClientFacts, First;
    Swap(g, h, CHalf(g, y), SHalf(g, y), ClientSide);
    ResolveKeeps(g, h, SHalf(g, y), CHalf(g, y), ServerSide, y.sw, n);
    var y' := MoveServer(y, l, n);
    SwapBack(g, h, SHalf(g, y'), CHalf(g, y'));
  }

  lemma {:induction false} MoveInv(g: Cfg, h: Script, y: Sys, x: Choice)
    returns (h': Script)
    requires Inv(g, h, y)
    ensures Inv(g, h', Move(y, x))
  {
    hide Inv, MoveClient, MoveServer;
    h' := h;
    if x.who == ClientSide {
      if Callable(y.cw) {
        h' := ClientCallInv(g, h, y, x.l, x.n);
      } else {
        ClientResolveInv(g, h, y, x.l, x.n);
      }
    } else {
      if Callable(y.sw) {
        h' := ServerCallInv(g, h, y, x.l, x.n);
      } else {
        ServerResolveInv(g, h, y, x.l, x.n);
      }
    }
  }

  /** In every joint run both sides stay on one script. */
  lemma {:induction false} RunInv(g: Cfg, xs: seq<Choice>)
    returns (h: Script)
    requires WfParams(g.p)
    ensures Inv(g, h, RunJoint(g, xs))
    decreases |xs|
  {
    hide Inv, Move;
    if xs == [] {
      BeginInv(g);
      h := [];
    } else {
      var h0 := RunInv(g, xs[..|xs| - 1]);
      h := MoveInv(g, h0, RunJoint(g, xs[..|xs| - 1]), xs[|xs| - 1]);
    }
  }

  // ----- agreement

  lemma {:induction false} HistMonotone(g: Cfg, h: Script, m: nat, n: nat)
    requires m <= n <= |h|
    ensures Hist(g, h, m) <= Hist(g, h, n)
  {
    if m < n {
      HistMonotone(g, h, m, n - 1);
    }
  }

  predicate BothDone(y: Sys) {
    y.c.state == ClientDone && y.s.state == ServerDone
  }

  /**
   * Every joint run, whatever the parameters, the scheduling and the flushes: one transcript is a prefix
   * of the other and they are equal at the end; a Finished that has arrived covers exactly what its reader
   * has hashed; nobody waits to read with an unflushed flight; and no step fails unless the world made one fail.
   */
  lemma {:induction false} Agreement(g: Cfg, xs: seq<Choice>)
    requires WfParams(g.p)
    ensures var y := RunJoint(g, xs);
            && (y.c.k.transcript <= y.s.k.transcript || y.s.k.transcript <= y.c.k.transcript)
            && (BothDone(y) ==> y.c.k.transcript == y.s.k.transcript && y.c.hello == y.s.p.hello)
            && (y.c.state == ReadServerFinished && y.c.k.inbox != [] ==> FinishedOk(y.c.k, false))
            && (y.s.state == ReadClientFinished && y.s.k.inbox != [] ==> FinishedOk(y.s.k, true))
            && (Waiting(y.cw) ==> y.c.k.flight == [])
            && (Waiting(y.sw) ==> y.s.k.flight == [])
            && (y.cw == Error || y.sw == Error ==> y.broken)
  {
    hide RunJoint, Joint, First, Hist, FinishedOk;
    var h := RunInv(g, xs);
    var y := RunJoint(g, xs);
    Transcripts(g, h, CHalf(g, y), SHalf(g, y));
    if y.c.state == ReadServerFinished && y.c.k.inbox != [] {
      ClientSeesFinished(g, h, y);
    }
    if y.s.state == ReadClientFinished && y.s.k.inbox != [] {
      ServerSeesFinished(g, h, y);
    }
  }

  lemma {:induction false} Transcripts(g: Cfg, h: Script, a: Half, b: Half)
    requires Joint(g, h, a, b, ClientSide)
    ensures a.k.transcript <= b.k.transcript || b.k.transcript <= a.k.transcript
    ensures a.pos == b.pos ==> a.k.transcript == b.k.transcript
  {
    hide Hist, First, Records, SlotOk;
    if a.pos <= b.pos {
      HistMonotone(g, h, a.pos, b.pos);
    } else {
      HistMonotone(g, h, b.pos, a.pos);
    }
  }

  lemma {:induction false} ClientSeesFinished(g: Cfg, h: Script, y: Sys)
    requires Inv(g, h, y) && y.c.state == ReadServerFinished && y.c.k.inbox != []
    ensures FinishedOk(y.c.k, false)
  {
    hide Joint, ServerFacts, First, FinishedOk;
    TakeFinished(g, h, CHalf(g, y), SHalf(g, y), ClientSide);
  }

  lemma {:induction false} ServerSeesFinished(g: Cfg, h: Script, y: Sys)
    requires Inv(g, h, y) && y.s.state == ReadClientFinished && y.s.k.inbox != []
    ensures FinishedOk(y.s.k, true)
  {
    hide Joint, ClientFacts, First, FinishedOk;
    Swap(g, h, CHalf(g, y), SHalf(g, y), ClientSide);
    TakeFinished(g, h, SHalf(g, y), CHalf(g, y), ServerSide);
  }

  // ----- progress

  /** The client is not blocked: its machine can be called, it has something to flush, or a record to read. */
  predicate ClientCanMove(y: Sys) {
    if Callable(y.cw) then y.c.state != ClientDone
    else y.cw == Flush || (Waiting(y.cw) && y.s2c != [])
  }

  predicate ServerCanMove(y: Sys) {
    if Callable(y.sw) then y.s.state != ServerDone
    else y.sw == Flush || (Waiting(y.sw) && y.c2s != [])
  }

  /** A side that can move moves, nothing fails or asks to be called again, and a flush writes something. */
  predicate Effective(y: Sys, x: Choice) {
    && (if x.who == ClientSide then ClientCanMove(y) else ServerCanMove(y))
    && !x.l.fails && !x.l.retries && x.n >= 1
  }

  /** A blocked reader stands before a slot of its peer. */
  ghost predicate BeforePeer(g: Cfg, pos: nat, role: Role) {
    First(g, pos) < End(g) && Who(g, First(g, pos)) == Other(role)
  }

  lemma {:induction false} ClientBlocked(g: Cfg, h: Script, y: Sys)
    requires Inv(g, h, y) && !y.broken && !ClientCanMove(y)
    ensures y.c.k.flight == []
    ensures if Waiting(y.cw) then y.s2c == [] && y.c.k.inbox == [] && BeforePeer(g, CHalf(g, y).pos, ClientSide)
            else y.c.state == ClientDone && CHalf(g, y).pos == End(g)
  {
    hide Joint, ServerFacts, First;
    if y.cw == ReadCcs {
      FirstHere(g, CHalf(g, y).pos);
    }
  }

  lemma {:induction false} ServerBlocked(g: Cfg, h: Script, y: Sys)
    requires Inv(g, h, y) && !y.broken && !ServerCanMove(y)
    ensures y.s.k.flight == []
    ensures if Waiting(y.sw) then y.c2s == [] && y.s.k.inbox == [] && BeforePeer(g, SHalf(g, y).pos, ServerSide)
            else y.s.state == ServerDone && SHalf(g, y).pos == End(g)
  {
    hide Joint, ClientFacts, First;
    if y.sw == ReadCcs {
      FirstHere(g, SHalf(g, y).pos);
    }
  }

  /** Unless a step failed from outside, both sides are done or one of them can move. */
  lemma {:induction false} NoDeadlock(g: Cfg, h: Script, y: Sys)
    requires Inv(g, h, y) && !y.broken
    ensures BothDone(y) || ClientCanMove(y) || ServerCanMove(y)
  {
    hide Joint, ClientFacts, ServerFacts, First, ClientCanMove, ServerCanMove;
    if !ClientCanMove(y) && !ServerCanMove(y) {
      ClientBlocked(g, h, y);
      ServerBlocked(g, h, y);
      var a, b := CHalf(g, y), SHalf(g, y);
      Swap(g, h, a, b, ClientSide);
      if Waiting(y.cw) {
        QuietWire(g, h, a, b, ClientSide);
      }
      if Waiting(y.sw) {
        QuietWire(g, h, b, a, ServerSide);
      }
      OnePeerBefore(g, a.pos, b.pos);
    }
  }

  /** Two sides cannot both wait for the other: the first present slot ahead of both has one owner. */
  lemma {:induction false} OnePeerBefore(g: Cfg, p: nat, q: nat)
    requires First(g, p) >= q
    ensures !(First(g, q) >= p && BeforePeer(g, p, ClientSide) && BeforePeer(g, q, ServerSide))
  {
    hide Who;
    if First(g, q) >= p && First(g, p) < End(g) && First(g, q) < End(g) {
      assert First(g, p) == First(g, q);
    }
  }

  function Rest(y: Sys): nat {
    18 - ClientRank(y.c.state, y.c.hello.resumed) + (19 - ServerRank(y.s.state, y.s.p.hello.resumed))
  }

  function Costs(y: Sys): nat {
    Cost(y.c.k, y.cw) + Cost(y.s.k, y.sw)
  }

  predicate Less(y: Sys, z: Sys) {
    Rest(y) < Rest(z) || (Rest(y) == Rest(z) && Costs(y) < Costs(z))
  }

  /** Every effective move makes the rest of the handshake smaller. */
  lemma {:induction false} MoveDecreases(g: Cfg, h: Script, y: Sys, x: Choice)
    requires Inv(g, h, y) && !y.broken && Effective(y, x)
    ensures Less(Move(y, x), y) && !Move(y, x).broken
  {
    hide Joint, ResolveWait, ClientDo, ServerDo, ClientRank, ServerRank, First;
    var h' := MoveInv(g, h, y, x);
    if x.who == ClientSide {
      if Callable(y.cw) {
        ClientProgress(y.c, x.l);
        ClientWaitsOnEmpty(y.c, x.l);
      } else {
        ResolveCosts(Endpoint(y.c.k, y.cw, y.c2s, y.s2c), x.n);
      }
    } else {
      if Callable(y.sw) {
        ServerProgress(y.s, x.l);
        ServerWaitsOnEmpty(y.s, x.l);
      } else {
        ResolveCosts(Endpoint(y.s.k, y.sw, y.s2c, y.c2s), x.n);
      }
    }
  }

  /** k moves of a scheduler, which may look at the whole state. */
  function Drive(y: Sys, sched: Sys -> Choice, k: nat): Sys
    decreases k
  {
    if k == 0 then y else Drive(Move(y, sched(y)), sched, k - 1)
  }

  /** Whichever side a scheduler lets move, as long as it lets somebody move, both sides finish. */
  lemma {:induction false} Completes(g: Cfg, h: Script, y: Sys, sched: Sys -> Choice)
    returns (k: nat)
    requires Inv(g, h, y) && !y.broken
    requires forall z: Sys :: ClientCanMove(z) || ServerCanMove(z) ==> Effective(z, sched(z))
    ensures BothDone(Drive(y, sched, k))
    decreases Rest(y), Costs(y)
  {
    hide Inv, Effective, Move, Rest, Costs, ClientCanMove, ServerCanMove;
    NoDeadlock(g, h, y);
    if BothDone(y) {
      k := 0;
    } else {
      MoveDecreases(g, h, y, sched(y));
      var h' := MoveInv(g, h, y, sched(y));
      k := Completes(g, h', Move(y, sched(y)), sched);
      k := k + 1;
    }
  }
}
