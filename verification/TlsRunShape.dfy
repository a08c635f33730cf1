/**
 * Each handshake machine on its own, against any peer: what a run that completes has
 * done and in which order, why the loop ends, and that a step which asks to be called
 * again has done nothing yet (RFC 5246, sections 7.3 and 7.4.9; RFC 5077, section 3).
 */
module TlsRunShape {
  import opened TlsMachines

  // ----- progress

  /** The order of the client's states in a full and in an abbreviated handshake. */
  function ClientRank(st: ClientState, resumed: bool): (r: nat)
    ensures r <= 18
  {
    match st
    case StartConnect => 0
    case EnterEarlyData => 1
    case ReadServerHello => 2
    case ReadServerCertificate => 3
    case ReadCertificateStatus => 4
    case VerifyServerCertificate => 5
    case ReadServerKeyExchange => 6
    case ReadCertificateRequest => 7
    case ReadServerHelloDone => 8
    case SendClientCertificate => 9
    case SendClientKeyExchange => 10
    case SendClientCertificateVerify => 11
    case SendClientFinished => 12
    case FinishFlight => 13
    case ReadSessionTicket => if resumed then 3 else 14
    case ProcessServerCcs => if resumed then 4 else 15
    case ReadServerFinished => if resumed then 5 else 16
    case FinishClient => 17
    case ClientDone => 18
  }

  function ServerRank(st: ServerState, resumed: bool): (r: nat)
    ensures r <= 19
  {
    match st
    case StartAccept => 0
    case ReadClientHello => 1
    case SelectCertificate => 2
    case SelectParameters => 3
    case SendServerHello => 4
    case SendServerCertificate => 5
    case SendServerKeyExchange => 6
    case SendServerHelloDone => 7
    case ReadClientCertificate => 8
    case VerifyClientCertificate => 9
    case ReadClientKeyExchange => 10
    case ReadClientCertificateVerify => 11
    case ReadClientCcs => 12
    case ProcessClientCcs => 13
    case ReadNextProto => 14
    case ReadChannelId => 15
    case ReadClientFinished => 16
    case SendServerFinished => if resumed then 5 else 17
    case FinishServer => 18
    case ServerDone => 19
  }

  predicate Stays(w: Wait) {
    w == Error || w == ReadMessage || w == Retry
  }

  /** The step advances in its rank, or leaves the handshake exactly as it was and can be repeated. */
  predicate ClientAdvances(c: Client, l: Luck) {
    var (d, w) := ClientDo(c, l);
    if Stays(w) then d == c
    else if c.state == ClientDone then d == c
    else ClientRank(d.state, d.hello.resumed) > ClientRank(c.state, c.hello.resumed) && (w != Ok ==> d.state != ClientDone)
  }

  lemma {:induction false} ClientProgressHello(c: Client, l: Luck)
    requires ClientRank(c.state, false) <= 5
    ensures ClientAdvances(c, l)
  {
    hide Add, ChangeWrite, ChangeRead, HashNext, SendFinished, CheckFinished;
  }

  lemma {:induction false} ClientProgressKeys(c: Client, l: Luck)
    requires 6 <= ClientRank(c.state, false) <= 11
    ensures ClientAdvances(c, l)
  {
    hide Add, ChangeWrite, ChangeRead, HashNext, SendFinished, CheckFinished;
  }

  lemma {:induction false} ClientProgressFlight(c: Client, l: Luck)
    requires 12 <= ClientRank(c.state, false) <= 14
    ensures ClientAdvances(c, l)
  {
    hide Add, ChangeWrite, ChangeRead, HashNext, SendFinished, CheckFinished, FinishedOk;
  }

  lemma {:induction false} ClientProgressFinish(c: Client, l: Luck)
    requires ClientRank(c.state, false) >= 15
    ensures ClientAdvances(c, l)
  {
    hide Add, ChangeWrite, ChangeRead, HashNext, SendFinished, CheckFinished, FinishedOk;
  }

  lemma {:induction false} ClientProgress(c: Client, l: Luck)
    ensures ClientAdvances(c, l)
  {
    hide ClientAdvances;
    var rank := ClientRank(c.state, false);
    if rank <= 5 {
      ClientProgressHello(c, l);
    } else if rank <= 11 {
      ClientProgressKeys(c, l);
    } else if rank <= 14 {
      ClientProgressFlight(c, l);
    } else {
      ClientProgressFinish(c, l);
    }
  }

  predicate ServerAdvances(s: Server, l: Luck) {
    var (t, w) := ServerDo(s, l);
    && t.p == s.p
    && if Stays(w) then t == s
       else if s.state == ServerDone then t == s
       else ServerRank(t.state, s.p.hello.resumed) > ServerRank(s.state, s.p.hello.resumed) && (w != Ok ==> t.state != ServerDone)
  }

  lemma {:induction false} ServerProgressHello(s: Server, l: Luck)
    requires ServerRank(s.state, false) <= 5
    ensures ServerAdvances(s, l)
  {
    hide Add, ChangeWrite, ChangeRead, HashNext, SendFinished, CheckFinished;
  }

  lemma {:induction false} ServerProgressKeys(s: Server, l: Luck)
    requires 6 <= ServerRank(s.state, false) <= 11
    ensures ServerAdvances(s, l)
  {
    hide Add, ChangeWrite, ChangeRead, HashNext, SendFinished, CheckFinished;
  }

  lemma {:induction false} ServerProgressFlight(s: Server, l: Luck)
    requires 12 <= ServerRank(s.state, false) <= 14
    ensures ServerAdvances(s, l)
  {
    hide Add, ChangeWrite, ChangeRead, HashNext, SendFinished, CheckFinished, FinishedOk;
  }

  lemma {:induction false} ServerProgressFinish(s: Server, l: Luck)
    requires ServerRank(s.state, false) >= 15
    ensures ServerAdvances(s, l)
  {
    hide Add, ChangeWrite, ChangeRead, HashNext, SendFinished, CheckFinished, FinishedOk;
  }

  lemma {:induction false} ServerProgress(s: Server, l: Luck)
    ensures ServerAdvances(s, l)
  {
    hide ServerAdvances;
    var rank := ServerRank(s.state, false);
    if rank <= 5 {
      ServerProgressHello(s, l);
    } else if rank <= 11 {
      ServerProgressKeys(s, l);
    } else if rank <= 14 {
      ServerProgressFlight(s, l);
    } else {
      ServerProgressFinish(s, l);
    }
  }

  // ----- runs against any peer

  /** What can happen to a machine: a call, and the four ways in which ssl_run_handshake ends a wait. */
  datatype Input = Call(l: Luck) | Flushed | Message(m: Msg) | CcsRecord

  predicate Callable(w: Wait) {
    w == Ok || w == Retry || w == EarlyReturn
  }

  /** ssl_run_handshake resolves a wait; other inputs do not reach the machine. */
  function Resolve(k: Core, w: Wait, i: Input): (Core, Wait) {
    if w == Flush && i.Flushed? then (k.(flight := []), Ok)
    else if w == ReadMessage && i.Message? then (k.(inbox := k.inbox + [i.m]), Ok)
    else if w == ReadCcs && i.CcsRecord? then (k.(log := Then(k.log, CcsRead)), Ok)
    else (k, w)
  }

  datatype ClientRun = ClientRun(c: Client, wait: Wait)

  function OnClientInput(r: ClientRun, i: Input): ClientRun {
    if i.Call? then
      if Callable(r.wait) then
        var (d, w) := ClientDo(r.c, i.l);
        ClientRun(d, w)
      else r
    else
      var (k, w) := Resolve(r.c.k, r.wait, i);
      ClientRun(r.c.(k := k), w)
  }

  function RunClient(chain: nat, ins: seq<Input>): ClientRun {
    if ins == [] then ClientRun(NewClient(chain), Ok)
    else OnClientInput(RunClient(chain, ins[..|ins| - 1]), ins[|ins| - 1])
  }

  predicate BeforeHello(st: ClientState) {
    st.StartConnect? || st.EnterEarlyData? || st.ReadServerHello?
  }

  /** The states of an abbreviated handshake. */
  predicate ResumedClientState(st: ClientState) {
    st.ReadSessionTicket? || st.ProcessServerCcs? || st.ReadServerFinished? || st.SendClientFinished? || st.FinishFlight?
    || st.FinishClient? || st.ClientDone?
  }

  function Sends(log: Log): Log {
    Then(Then(log, WriteCipherOn), FinishedSent)
  }

  /** The first n of CcsRead, ReadCipherOn, FinishedChecked. */
  function Checks(log: Log, n: nat): Log {
    if n == 0 then log
    else if n == 1 then Then(log, CcsRead)
    else if n == 2 then Then(Then(log, CcsRead), ReadCipherOn)
    else Then(Then(Then(log, CcsRead), ReadCipherOn), FinishedChecked)
  }

  /** What a full handshake with a certificate cipher does first. */
  function Verified(h: Hello): Log {
    if h.certCipher then Then(Nothing, CertVerified) else Nothing
  }

  /** The events of a client that has come to state st; atCcs means that it still waits for the ChangeCipherSpec. */
  function ClientLog(st: ClientState, h: Hello, atCcs: bool): Log {
    var full := Sends(Verified(h));
    match st
    case ReadServerKeyExchange => Verified(h)
    case ReadCertificateRequest => Verified(h)
    case ReadServerHelloDone => Verified(h)
    case SendClientCertificate => Verified(h)
    case SendClientKeyExchange => Verified(h)
    case SendClientCertificateVerify => Verified(h)
    case SendClientFinished => if h.resumed then Checks(Nothing, 3) else Verified(h)
    case FinishFlight => if h.resumed then Sends(Checks(Nothing, 3)) else full
    case ReadSessionTicket => if h.resumed then Nothing else full
    case ProcessServerCcs => Checks(if h.resumed then Nothing else full, if atCcs then 0 else 1)
    case ReadServerFinished => Checks(if h.resumed then Nothing else full, 2)
    case FinishClient => if h.resumed then Sends(Checks(Nothing, 3)) else Checks(full, 3)
    case ClientDone => if h.resumed then Sends(Checks(Nothing, 3)) else Checks(full, 3)
    case _ => Nothing
  }

  ghost predicate ClientInv(r: ClientRun) {
    && (r.c.hello.resumed ==> ResumedClientState(r.c.state))
    && (BeforeHello(r.c.state) ==> r.c.hello == NO_HELLO)
    && (r.wait == ReadCcs ==> r.c.state == ProcessServerCcs)
    && r.c.k.log == ClientLog(r.c.state, r.c.hello, r.wait == ReadCcs)
  }

  lemma {:induction false} LogKept(k: Core, m: Msg)
    ensures Add(k, m).log == k.log
    ensures k.inbox != [] ==> HashNext(k).log == k.log && CheckFinished(k).log == Then(k.log, FinishedChecked)
    ensures k.inbox != [] ==> CheckFinished(k).readOn == k.readOn && CheckFinished(k).flight == k.flight
    ensures ChangeRead(k).log == Then(k.log, ReadCipherOn)
    ensures ChangeWrite(k).log == Then(k.log, WriteCipherOn)
    ensures SendFinished(k, false).log == Then(k.log, FinishedSent) && SendFinished(k, true).log == Then(k.log, FinishedSent)
  {
  }

  lemma {:induction false} ClientFlightLog(c: Client, l: Luck)
    ensures ClientFinishedFlight(c, l).log == Sends(c.k.log)
  {
  }

  ghost predicate StepKeeps(step: (Client, Wait)) {
    ClientInv(ClientRun(step.0, step.1))
  }

  lemma {:induction false} ReadServerHelloKeeps(c: Client, w: Wait, l: Luck)
    requires ClientInv(ClientRun(c, w)) && Callable(w) && c.state == ReadServerHello
    ensures StepKeeps(DoReadServerHello(c, l))
  {
    hide ClientDo;
  }

  lemma {:induction false} ReadServerCertificateKeeps(c: Client, w: Wait, l: Luck)
    requires ClientInv(ClientRun(c, w)) && Callable(w) && c.state == ReadServerCertificate
    ensures StepKeeps(DoReadServerCertificate(c, l))
  {
    hide ClientDo;
  }

  lemma {:induction false} ReadCertificateStatusKeeps(c: Client, w: Wait, l: Luck)
    requires ClientInv(ClientRun(c, w)) && Callable(w) && c.state == ReadCertificateStatus
    ensures StepKeeps(DoReadCertificateStatus(c, l))
  {
    hide ClientDo;
  }

  lemma {:induction false} VerifyServerCertificateKeeps(c: Client, w: Wait, l: Luck)
    requires ClientInv(ClientRun(c, w)) && Callable(w) && c.state == VerifyServerCertificate
    ensures StepKeeps(DoVerifyServerCertificate(c, l))
  {
    hide ClientDo;
  }

  lemma {:induction false} ReadServerKeyExchangeKeeps(c: Client, w: Wait, l: Luck)
    requires ClientInv(ClientRun(c, w)) && Callable(w) && c.state == ReadServerKeyExchange
    ensures StepKeeps(DoReadServerKeyExchange(c, l))
  {
    hide ClientDo;
  }

  lemma {:induction false} ReadCertificateRequestKeeps(c: Client, w: Wait, l: Luck)
    requires ClientInv(ClientRun(c, w)) && Callable(w) && c.state == ReadCertificateRequest
    ensures StepKeeps(DoReadCertificateRequest(c, l))
  {
    hide ClientDo;
  }

  lemma {:induction false} SendClientCertificateKeeps(c: Client, w: Wait, l: Luck)
    requires ClientInv(ClientRun(c, w)) && Callable(w) && c.state == SendClientCertificate
    ensures StepKeeps(DoSendClientCertificate(c, l))
  {
    hide ClientDo;
  }

  lemma {:induction false} SendClientCertificateVerifyKeeps(c: Client, w: Wait, l: Luck)
    requires ClientInv(ClientRun(c, w)) && Callable(w) && c.state == SendClientCertificateVerify
    ensures StepKeeps(DoSendClientCertificateVerify(c, l))
  {
    hide ClientDo;
  }

  lemma {:induction false} SendClientFinishedKeeps(c: Client, w: Wait, l: Luck)
    requires ClientInv(ClientRun(c, w)) && Callable(w) && c.state == SendClientFinished
    ensures StepKeeps(DoSendClientFinished(c, l))
  {
    hide ClientDo;
    ClientFlightLog(c, l);
    hide ClientFinishedFlight;
  }

  lemma {:induction false} FinishFlightKeeps(c: Client, w: Wait, l: Luck)
    requires ClientInv(ClientRun(c, w)) && Callable(w) && c.state == FinishFlight
    ensures StepKeeps(DoFinishFlight(c, l))
  {
    hide ClientDo;
  }

  lemma {:induction false} ReadSessionTicketKeeps(c: Client, w: Wait, l: Luck)
    requires ClientInv(ClientRun(c, w)) && Callable(w) && c.state == ReadSessionTicket
    ensures StepKeeps(DoReadSessionTicket(c, l))
  {
    hide ClientDo, HashNext, CheckFinished, FinishedOk;
    LogKept(c.k, Msg(Finished, Data([])));
  }

  lemma {:induction false} ProcessServerCcsKeeps(c: Client, w: Wait, l: Luck)
    requires ClientInv(ClientRun(c, w)) && Callable(w) && c.state == ProcessServerCcs
    ensures StepKeeps(DoProcessServerCcs(c, l))
  {
    hide ClientDo;
  }

  lemma {:induction false} CheckLog(h: Hello, atCcs: bool)
    ensures ClientLog(if h.resumed then SendClientFinished else FinishClient, h, atCcs) ==
            Then(ClientLog(ReadServerFinished, h, false), FinishedChecked)
  {
  }

  lemma {:induction false} ReadServerFinishedKeeps(c: Client, w: Wait, l: Luck)
    requires ClientInv(ClientRun(c, w)) && Callable(w) && c.state == ReadServerFinished
    ensures StepKeeps(DoReadServerFinished(c, l))
  {
    hide ClientDo, HashNext, CheckFinished, FinishedOk, ClientLog;
    var (d, w') := DoReadServerFinished(c, l);
    if c.k.inbox != [] && FinishedOk(c.k, false) {
      LogKept(c.k, Msg(Finished, Data([])));
      CheckLog(c.hello, false);
      assert ClientInv(ClientRun(d, w'));
    } else {
      assert d == c && w' != ReadCcs;
      assert ClientInv(ClientRun(d, w'));
    }
  }

  /** A call keeps the events in step with the state. */
  lemma {:induction false} ClientCallKeeps(r: ClientRun, l: Luck)
    requires ClientInv(r) && Callable(r.wait)
    ensures ClientInv(OnClientInput(r, Call(l)))
  {
    hide DoReadServerHello, DoReadServerCertificate, DoReadCertificateStatus, DoVerifyServerCertificate,
         DoReadServerKeyExchange, DoReadCertificateRequest, DoSendClientCertificate, DoSendClientCertificateVerify,
         DoSendClientFinished, DoFinishFlight, DoReadSessionTicket, DoProcessServerCcs, DoReadServerFinished;
    match r.c.state
    case StartConnect =>
    case EnterEarlyData =>
    case ReadServerHello => ReadServerHelloKeeps(r.c, r.wait, l);
    case ReadServerCertificate => ReadServerCertificateKeeps(r.c, r.wait, l);
    case ReadCertificateStatus => ReadCertificateStatusKeeps(r.c, r.wait, l);
    case VerifyServerCertificate => VerifyServerCertificateKeeps(r.c, r.wait, l);
    case ReadServerKeyExchange => ReadServerKeyExchangeKeeps(r.c, r.wait, l);
    case ReadCertificateRequest => ReadCertificateRequestKeeps(r.c, r.wait, l);
    case ReadServerHelloDone =>
    case SendClientCertificate => SendClientCertificateKeeps(r.c, r.wait, l);
    case SendClientKeyExchange =>
    case SendClientCertificateVerify => SendClientCertificateVerifyKeeps(r.c, r.wait, l);
    case SendClientFinished => SendClientFinishedKeeps(r.c, r.wait, l);
    case FinishFlight => FinishFlightKeeps(r.c, r.wait, l);
    case ReadSessionTicket => ReadSessionTicketKeeps(r.c, r.wait, l);
    case ProcessServerCcs => ProcessServerCcsKeeps(r.c, r.wait, l);
    case ReadServerFinished => ReadServerFinishedKeeps(r.c, r.wait, l);
    case FinishClient =>
    case ClientDone =>
  }

  lemma {:induction false} ClientResolveKeeps(r: ClientRun, i: Input)
    requires ClientInv(r) && !i.Call?
    ensures ClientInv(OnClientInput(r, i))
  {
  }

  lemma {:induction false} NewClientInv(chain: nat)
    ensures ClientInv(ClientRun(NewClient(chain), Ok))
  {
  }

  lemma {:induction false} ClientNotCalled(r: ClientRun, i: Input)
    requires i.Call? && !Callable(r.wait)
    ensures OnClientInput(r, i) == r
  {
  }

  lemma {:induction false} ClientShape(chain: nat, ins: seq<Input>)
    ensures ClientInv(RunClient(chain, ins))
    decreases |ins|
  {
    hide ClientInv, OnClientInput;
    if ins == [] {
      assert RunClient(chain, ins) == ClientRun(NewClient(chain), Ok);
      NewClientInv(chain);
    } else {
      var pre, i := ins[..|ins| - 1], ins[|ins| - 1];
      ClientShape(chain, pre);
      var r := RunClient(chain, pre);
      if i.Call? {
        if Callable(r.wait) {
          ClientCallKeeps(r, i.l);
        } else {
          ClientNotCalled(r, i);
        }
      } else {
        ClientResolveKeeps(r, i);
      }
    }
  }

  /**
   * Every client run that completes sent one Finished and checked one, in the order that resumption
   * fixes, changed the read cipher after the ChangeCipherSpec and before the check, and in a full
   * handshake with a certificate cipher had the certificate verified before anything else.
   */
  lemma {:induction false} ClientRunShape(chain: nat, ins: seq<Input>)
    requires RunClient(chain, ins).c.state == ClientDone
    ensures var c := RunClient(chain, ins).c;
            c.k.log == if c.hello.resumed then Sends(Checks(Nothing, 3))
                       else Checks(Sends(Verified(c.hello)), 3)
  {
    hide RunClient;
    ClientShape(chain, ins);
  }

  // ----- the server

  datatype ServerRun = ServerRun(s: Server, wait: Wait)

  function OnServerInput(r: ServerRun, i: Input): ServerRun {
    if i.Call? then
      if Callable(r.wait) then
        var (t, w) := ServerDo(r.s, i.l);
        ServerRun(t, w)
      else r
    else
      var (k, w) := Resolve(r.s.k, r.wait, i);
      ServerRun(r.s.(k := k), w)
  }

  function RunServer(p: Params, ins: seq<Input>): ServerRun {
    if ins == [] then ServerRun(NewServer(p), Ok)
    else OnServerInput(RunServer(p, ins[..|ins| - 1]), ins[|ins| - 1])
  }

  predicate FullOnlyState(st: ServerState) {
    st.SendServerCertificate? || st.SendServerKeyExchange? || st.SendServerHelloDone? || st.ReadClientCertificate?
    || st.VerifyClientCertificate? || st.ReadClientKeyExchange? || st.ReadClientCertificateVerify?
  }

  predicate BeforeChain(st: ServerState) {
    st.StartAccept? || st.ReadClientHello? || st.SelectCertificate? || st.SelectParameters? || st.SendServerHello?
    || st.SendServerCertificate? || st.SendServerKeyExchange? || st.SendServerHelloDone? || st.ReadClientCertificate?
  }

  /** A client certificate, if one came, is verified first. */
  function VerifiedChain(chain: nat): Log {
    if chain > 0 then Then(Nothing, CertVerified) else Nothing
  }

  /** The events of a server that has come to state st; atCcs means that it still waits for the ChangeCipherSpec. */
  function ServerLog(st: ServerState, resumed: bool, chain: nat, atCcs: bool): Log {
    var before := if resumed then Sends(Nothing) else VerifiedChain(chain);
    match st
    case ReadClientKeyExchange => VerifiedChain(chain)
    case ReadClientCertificateVerify => VerifiedChain(chain)
    case ReadClientCcs => before
    case ProcessClientCcs => Checks(before, if atCcs then 0 else 1)
    case ReadNextProto => Checks(before, 2)
    case ReadChannelId => Checks(before, 2)
    case ReadClientFinished => Checks(before, 2)
    case SendServerFinished => if resumed then Nothing else Checks(before, 3)
    case FinishServer => if resumed then Checks(before, 3) else Sends(Checks(before, 3))
    case ServerDone => if resumed then Checks(before, 3) else Sends(Checks(before, 3))
    case _ => Nothing
  }

  ghost predicate ServerInv(r: ServerRun) {
    && (r.s.p.hello.resumed ==> !FullOnlyState(r.s.state) && r.s.chain == 0)
    && (BeforeChain(r.s.state) ==> r.s.chain == 0)
    && (r.wait == ReadCcs ==> r.s.state == ProcessClientCcs)
    && r.s.k.log == ServerLog(r.s.state, r.s.p.hello.resumed, r.s.chain, r.wait == ReadCcs)
  }

  ghost predicate ServerStepKeeps(step: (Server, Wait)) {
    ServerInv(ServerRun(step.0, step.1))
  }

  lemma {:induction false} SelectParametersKeeps(s: Server, w: Wait, l: Luck)
    requires ServerInv(ServerRun(s, w)) && Callable(w) && s.state == SelectParameters
    ensures ServerStepKeeps(DoSelectParameters(s, l))
  {
    hide ServerDo, HashNext, CheckFinished, Add;
    LogKept(s.k, Msg(Finished, Data([])));
  }

  lemma {:induction false} SendServerHelloKeeps(s: Server, w: Wait, l: Luck)
    requires ServerInv(ServerRun(s, w)) && Callable(w) && s.state == SendServerHello
    ensures ServerStepKeeps(DoSendServerHello(s, l))
  {
    hide ServerDo, Add, HashNext;
    forall k: Core, m ensures Add(k, m).log == k.log {
      LogKept(k, m);
    }
  }

  lemma {:induction false} SendServerCertificateKeeps(s: Server, w: Wait, l: Luck)
    requires ServerInv(ServerRun(s, w)) && Callable(w) && s.state == SendServerCertificate
    ensures ServerStepKeeps(DoSendServerCertificate(s, l))
  {
    hide ServerDo, Add, HashNext;
    forall k: Core, m ensures Add(k, m).log == k.log {
      LogKept(k, m);
    }
  }

  lemma {:induction false} SendServerKeyExchangeKeeps(s: Server, w: Wait, l: Luck)
    requires ServerInv(ServerRun(s, w)) && Callable(w) && s.state == SendServerKeyExchange
    ensures ServerStepKeeps(DoSendServerKeyExchange(s, l))
  {
    hide ServerDo, Add, HashNext;
    forall k: Core, m ensures Add(k, m).log == k.log {
      LogKept(k, m);
    }
  }

  lemma {:induction false} SendServerHelloDoneKeeps(s: Server, w: Wait, l: Luck)
    requires ServerInv(ServerRun(s, w)) && Callable(w) && s.state == SendServerHelloDone
    ensures ServerStepKeeps(DoSendServerHelloDone(s, l))
  {
    hide ServerDo, Add, HashNext;
    forall k: Core, m ensures Add(k, m).log == k.log {
      LogKept(k, m);
    }
  }

  lemma {:induction false} ReadClientCertificateKeeps(s: Server, w: Wait, l: Luck)
    requires ServerInv(ServerRun(s, w)) && Callable(w) && s.state == ReadClientCertificate
    ensures ServerStepKeeps(DoReadClientCertificate(s, l))
  {
    hide ServerDo, HashNext, CheckFinished, Add;
    LogKept(s.k, Msg(Finished, Data([])));
  }

  lemma {:induction false} VerifyClientCertificateKeeps(s: Server, w: Wait, l: Luck)
    requires ServerInv(ServerRun(s, w)) && Callable(w) && s.state == VerifyClientCertificate
    ensures ServerStepKeeps(DoVerifyClientCertificate(s, l))
  {
    hide ServerDo, Add, HashNext;
    LogKept(s.k, Msg(Finished, Data([])));
  }

  lemma {:induction false} ReadClientKeyExchangeKeeps(s: Server, w: Wait, l: Luck)
    requires ServerInv(ServerRun(s, w)) && Callable(w) && s.state == ReadClientKeyExchange
    ensures ServerStepKeeps(DoReadClientKeyExchange(s, l))
  {
    hide ServerDo, HashNext, CheckFinished, Add;
    LogKept(s.k, Msg(Finished, Data([])));
  }

  lemma {:induction false} ReadClientCertificateVerifyKeeps(s: Server, w: Wait, l: Luck)
    requires ServerInv(ServerRun(s, w)) && Callable(w) && s.state == ReadClientCertificateVerify
    ensures ServerStepKeeps(DoReadClientCertificateVerify(s, l))
  {
    hide ServerDo, HashNext, CheckFinished, Add;
    LogKept(s.k, Msg(Finished, Data([])));
  }

  lemma {:induction false} ProcessClientCcsKeeps(s: Server, w: Wait, l: Luck)
    requires ServerInv(ServerRun(s, w)) && Callable(w) && s.state == ProcessClientCcs
    ensures ServerStepKeeps(DoProcessClientCcs(s, l))
  {
    hide ServerDo, Add, HashNext;
    LogKept(s.k, Msg(Finished, Data([])));
  }

  lemma {:induction false} ReadNextProtoKeeps(s: Server, w: Wait, l: Luck)
    requires ServerInv(ServerRun(s, w)) && Callable(w) && s.state == ReadNextProto
    ensures ServerStepKeeps(DoReadNextProto(s, l))
  {
    hide ServerDo, HashNext, CheckFinished, Add;
    LogKept(s.k, Msg(Finished, Data([])));
  }

  lemma {:induction false} ReadChannelIdKeeps(s: Server, w: Wait, l: Luck)
    requires ServerInv(ServerRun(s, w)) && Callable(w) && s.state == ReadChannelId
    ensures ServerStepKeeps(DoReadChannelId(s, l))
  {
    hide ServerDo, HashNext, CheckFinished, Add;
    LogKept(s.k, Msg(Finished, Data([])));
  }

  lemma {:induction false} ReadClientFinishedKeeps(s: Server, w: Wait, l: Luck)
    requires ServerInv(ServerRun(s, w)) && Callable(w) && s.state == ReadClientFinished
    ensures ServerStepKeeps(DoReadClientFinished(s, l))
  {
    hide ServerDo, HashNext, CheckFinished, FinishedOk, Add;
    LogKept(s.k, Msg(Finished, Data([])));
  }

  lemma {:induction false} SendServerFinishedKeeps(s: Server, w: Wait, l: Luck)
    requires ServerInv(ServerRun(s, w)) && Callable(w) && s.state == SendServerFinished
    ensures ServerStepKeeps(DoSendServerFinished(s, l))
  {
    hide ServerDo, Add, HashNext;
    forall k: Core, m ensures Add(k, m).log == k.log {
      LogKept(k, m);
    }
  }

  lemma {:induction false} ServerCallKeeps(r: ServerRun, l: Luck)
    requires ServerInv(r) && Callable(r.wait)
    ensures ServerInv(OnServerInput(r, Call(l)))
  {
    hide DoSelectParameters, DoSendServerHello, DoSendServerCertificate, DoSendServerKeyExchange,
         DoSendServerHelloDone, DoReadClientCertificate, DoVerifyClientCertificate, DoReadClientKeyExchange,
         DoReadClientCertificateVerify, DoProcessClientCcs, DoReadNextProto, DoReadChannelId, DoReadClientFinished,
         DoSendServerFinished;
    match r.s.state
    case StartAccept =>
    case ReadClientHello =>
    case SelectCertificate =>
    case SelectParameters => SelectParametersKeeps(r.s, r.wait, l);
    case SendServerHello => SendServerHelloKeeps(r.s, r.wait, l);
    case SendServerCertificate => SendServerCertificateKeeps(r.s, r.wait, l);
    case SendServerKeyExchange => SendServerKeyExchangeKeeps(r.s, r.wait, l);
    case SendServerHelloDone => SendServerHelloDoneKeeps(r.s, r.wait, l);
    case ReadClientCertificate => ReadClientCertificateKeeps(r.s, r.wait, l);
    case VerifyClientCertificate => VerifyClientCertificateKeeps(r.s, r.wait, l);
    case ReadClientKeyExchange => ReadClientKeyExchangeKeeps(r.s, r.wait, l);
    case ReadClientCertificateVerify => ReadClientCertificateVerifyKeeps(r.s, r.wait, l);
    case ReadClientCcs =>
    case ProcessClientCcs => ProcessClientCcsKeeps(r.s, r.wait, l);
    case ReadNextProto => ReadNextProtoKeeps(r.s, r.wait, l);
    case ReadChannelId => ReadChannelIdKeeps(r.s, r.wait, l);
    case ReadClientFinished => ReadClientFinishedKeeps(r.s, r.wait, l);
    case SendServerFinished => SendServerFinishedKeeps(r.s, r.wait, l);
    case FinishServer =>
    case ServerDone =>
  }

  lemma {:induction false} ServerResolveKeeps(r: ServerRun, i: Input)
    requires ServerInv(r) && !i.Call?
    ensures ServerInv(OnServerInput(r, i))
  {
  }

  lemma {:induction false} NewServerInv(p: Params)
    ensures ServerInv(ServerRun(NewServer(p), Ok))
  {
  }

  lemma {:induction false} ServerNotCalled(r: ServerRun, i: Input)
    requires i.Call? && !Callable(r.wait)
    ensures OnServerInput(r, i) == r
  {
  }

  lemma {:induction false} ParamsKept(r: ServerRun, i: Input)
    ensures OnServerInput(r, i).s.p == r.s.p
  {
    hide ServerDo;
    if i.Call? {
      ServerProgress(r.s, i.l);
    }
  }

  lemma {:induction false} ServerShape(p: Params, ins: seq<Input>)
    ensures ServerInv(RunServer(p, ins)) && RunServer(p, ins).s.p == p
    decreases |ins|
  {
    hide ServerInv, OnServerInput;
    if ins == [] {
      NewServerInv(p);
    } else {
      var pre, i := ins[..|ins| - 1], ins[|ins| - 1];
      ServerShape(p, pre);
      var r := RunServer(p, pre);
      ParamsKept(r, i);
      if i.Call? {
        if Callable(r.wait) {
          ServerCallKeeps(r, i.l);
        } else {
          ServerNotCalled(r, i);
        }
      } else {
        ServerResolveKeeps(r, i);
      }
    }
  }

  /**
   * Every server run that completes sent one Finished and checked one, in the order that resumption
   * fixes, changed the read cipher after the ChangeCipherSpec and before the check, and in a full
   * handshake had a client certificate verified before anything else.
   */
  lemma {:induction false} ServerRunShape(p: Params, ins: seq<Input>)
    requires RunServer(p, ins).s.state == ServerDone
    ensures var s := RunServer(p, ins).s;
            s.k.log == if p.hello.resumed then Checks(Sends(Nothing), 3) else Sends(Checks(VerifiedChain(s.chain), 3))
  {
    hide RunServer;
    ServerShape(p, ins);
  }
}
