/** Where the server's states stand in the script, and that every step of the server follows it. */
module TlsServerSteps {
  import opened TlsMachines
  import opened TlsRunShape
  import opened TlsScript
  import opened TlsClientSteps

  /** The slot before which a server in state st stands; w tells whether the ChangeCipherSpec has been read. */
  function ServerPos(g: Cfg, st: ServerState, w: Wait): nat {
    var r := g.p.hello.resumed;
    match st
    case StartAccept => 0
    case ReadClientHello => 0
    case SelectCertificate => 0
    case SelectParameters => 0
    case SendServerHello => 1
    case SendServerCertificate => 2
    case SendServerKeyExchange => 4
    case SendServerHelloDone => 5
    case ReadClientCertificate => 7
    case VerifyClientCertificate => 8
    case ReadClientKeyExchange => 8
    case ReadClientCertificateVerify => 9
    case ReadClientCcs => if r then 5 else 10
    case ProcessClientCcs => (if r then 5 else 10) + if w == ReadCcs then 0 else 1
    case ReadNextProto => if r then 6 else 11
    case ReadChannelId => if r then 7 else 12
    case ReadClientFinished => if r then 8 else 13
    case SendServerFinished => if r then 2 else 14
    case FinishServer => End(g)
    case ServerDone => End(g)
  }

  function ServerHalf(g: Cfg, s: Server, w: Wait, out: seq<Record>): Half {
    Half(ServerPos(g, s.state, w), s.k, out)
  }

  /** The read cipher has been changed. */
  predicate ServerReadOn(g: Cfg, st: ServerState) {
    st.ReadNextProto? || st.ReadChannelId? || st.ReadClientFinished? || st.FinishServer? || st.ServerDone?
    || (!g.p.hello.resumed && st.SendServerFinished?)
  }

  /** Between the steps that add to one flight. */
  predicate ServerInFlight(g: Cfg, st: ServerState) {
    st.SendServerCertificate? || st.SendServerKeyExchange? || st.SendServerHelloDone? || (g.p.hello.resumed && st.SendServerFinished?)
  }

  /** The chain the server has received. */
  function ChainSeen(g: Cfg, st: ServerState): nat {
    if g.p.certRequest && ServerRank(st, false) >= 9 then g.chain else 0
  }

  ghost predicate ServerFacts(g: Cfg, s: Server, w: Wait) {
    && s.p == g.p
    && (g.p.hello.resumed ==> !FullOnlyState(s.state))
    && s.chain == (if g.p.hello.resumed then 0 else ChainSeen(g, s.state))
    && (s.k.readOn <==> ServerReadOn(g, s.state))
    && (w != Flush && !ServerInFlight(g, s.state) ==> s.k.flight == [])
    && (s.state.ReadClientCcs? || s.state.ProcessClientCcs? ==> s.k.inbox == [])
    && (w == Flush ==> s.state.ReadClientCertificate? || s.state.ReadClientCcs? || s.state.FinishServer?)
    && (w == ReadCcs ==> s.state.ProcessClientCcs?)
    && (w == ReadMessage ==> s.k.inbox == [] && s.k.flight == [] && AwaitsMessage(g, ServerPos(g, s.state, w), ServerSide, s.k.readOn))
  }

  /** The step r leaves the server on the script, with h as what has been sent so far and b as its peer. */
  ghost predicate ServerOn(g: Cfg, h: Script, r: (Server, Wait), out: seq<Record>, b: Half) {
    && r.1 != Error
    && ServerFacts(g, r.0, r.1)
    && Joint(g, h, ServerHalf(g, r.0, r.1, out), b, ServerSide)
  }

  ghost predicate ServerReady(g: Cfg, h: Script, s: Server, w: Wait, out: seq<Record>, b: Half) {
    WfParams(g.p) && Callable(w) && ServerOn(g, h, (s, w), out, b)
  }

  lemma {:induction false} StartAcceptFollows(g: Cfg, h: Script, s: Server, w: Wait, out: seq<Record>, b: Half, l: Luck)
    requires ServerReady(g, h, s, w, out, b) && !l.fails && s.state == StartAccept
    ensures ServerOn(g, h, ServerDo(s, l), out, b)
  {
    hide Joint, First, Hist;
  }

  lemma {:induction false} ReadClientHelloFollows(g: Cfg, h: Script, s: Server, w: Wait, out: seq<Record>, b: Half,
                                                  l: Luck)
    requires ServerReady(g, h, s, w, out, b) && !l.fails && s.state == ReadClientHello
    ensures ServerOn(g, h, ServerDo(s, l), out, b)
  {
    hide Joint, First, Hist;
    var a := ServerHalf(g, s, w, out);
    FirstHere(g, 0);
    if s.k.inbox != [] {
      InboxIsNext(g, h, a, b, ServerSide);
    }
  }

  lemma {:induction false} SelectCertificateFollows(g: Cfg, h: Script, s: Server, w: Wait, out: seq<Record>, b: Half,
                                                    l: Luck)
    requires ServerReady(g, h, s, w, out, b) && !l.fails && s.state == SelectCertificate
    ensures ServerOn(g, h, ServerDo(s, l), out, b)
  {
    hide Joint, First, Hist;
    var a := ServerHalf(g, s, w, out);
    FirstHere(g, 0);
    if s.k.inbox != [] {
      InboxIsNext(g, h, a, b, ServerSide);
    }
  }

  lemma {:induction false} SelectParametersFollows(g: Cfg, h: Script, s: Server, w: Wait, out: seq<Record>, b: Half,
                                                   l: Luck)
    requires ServerReady(g, h, s, w, out, b) && s.state == SelectParameters
    ensures ServerOn(g, h, DoSelectParameters(s, l), out, b)
  {
    hide Joint, First, Hist;
    var a := ServerHalf(g, s, w, out);
    FirstHere(g, a.pos);
    if s.k.inbox != [] {
      InboxIsNext(g, h, a, b, ServerSide);
      TakeSlot(g, h, a, b, ServerSide);
    }
  }

  lemma {:induction false} SendServerHelloFollows(g: Cfg, h: Script, s: Server, w: Wait, out: seq<Record>, b: Half,
                                                  l: Luck)
    returns (h': Script)
    requires ServerReady(g, h, s, w, out, b) && s.state == SendServerHello
    ensures ServerOn(g, h', DoSendServerHello(s, l), out, b)
  {
    hide Joint, First, Hist;
    var a := ServerHalf(g, s, w, out);
    var m := Msg(ServerHello, Parameters(s.p.hello));
    PutSlot(g, h, a, b, ServerSide, m);
    h' := h + [Hs(m)];
  }

  lemma {:induction false} SendServerCertificateFollows(g: Cfg, h: Script, s: Server, w: Wait, out: seq<Record>,
                                                        b: Half, l: Luck)
    returns (h': Script)
    requires ServerReady(g, h, s, w, out, b) && s.state == SendServerCertificate
    ensures ServerOn(g, h', DoSendServerCertificate(s, l), out, b)
  {
    hide Joint, First, Hist;
    var a := ServerHalf(g, s, w, out);
    var cert, status := Msg(Certificate, Certs(1)), Msg(CertificateStatus, Data(l.bytes));
    h' := OptionalSlot(g, h, a, b, ServerSide, cert);
    h' := OptionalSlot(g, h', Optional(a, Present(g, 2), cert), b, ServerSide, status);
  }

  lemma {:induction false} SendServerKeyExchangeFollows(g: Cfg, h: Script, s: Server, w: Wait, out: seq<Record>,
                                                        b: Half, l: Luck)
    returns (h': Script)
    requires ServerReady(g, h, s, w, out, b) && s.state == SendServerKeyExchange
    ensures ServerOn(g, h', DoSendServerKeyExchange(s, l), out, b)
  {
    hide Joint, First, Hist;
    var a := ServerHalf(g, s, w, out);
    h' := h;
    if !(Present(g, 4) && s.p.hello.certCipher && l.retries) {
      h' := OptionalSlot(g, h, a, b, ServerSide, Msg(ServerKeyExchange, Data(l.bytes)));
    }
  }

  lemma {:induction false} SendServerHelloDoneFollows(g: Cfg, h: Script, s: Server, w: Wait, out: seq<Record>,
                                                      b: Half, l: Luck)
    returns (h': Script)
    requires ServerReady(g, h, s, w, out, b) && s.state == SendServerHelloDone
    ensures ServerOn(g, h', DoSendServerHelloDone(s, l), out, b)
  {
    hide Joint, First, Hist;
    var a := ServerHalf(g, s, w, out);
    var request, done := Msg(CertificateRequest, Data(l.bytes)), Msg(ServerHelloDone, Data([]));
    h' := OptionalSlot(g, h, a, b, ServerSide, request);
    PutSlot(g, h', Optional(a, Present(g, 5), request), b, ServerSide, done);
    h' := h' + [Hs(done)];
  }

  lemma {:induction false} ReadClientCertificateFollows(g: Cfg, h: Script, s: Server, w: Wait, out: seq<Record>,
                                                        b: Half, l: Luck)
    returns (h': Script)
    requires ServerReady(g, h, s, w, out, b) && s.state == ReadClientCertificate
    ensures ServerOn(g, h', DoReadClientCertificate(s, l), out, b)
  {
    hide Joint, First, Hist;
    var a := ServerHalf(g, s, w, out);
    h' := h;
    if !s.p.certRequest {
      SkipSlot(g, h, a, b, ServerSide);
      h' := Longer(h, a.pos, Ccs);
    } else {
      FirstHere(g, a.pos);
      if s.k.inbox != [] {
        InboxIsNext(g, h, a, b, ServerSide);
        TakeSlot(g, h, a, b, ServerSide);
      }
    }
  }

  lemma {:induction false} VerifyClientCertificateFollows(g: Cfg, h: Script, s: Server, w: Wait, out: seq<Record>,
                                                          b: Half, l: Luck)
    requires ServerReady(g, h, s, w, out, b) && s.state == VerifyClientCertificate
    ensures ServerOn(g, h, DoVerifyClientCertificate(s, l), out, b)
  {
    hide Joint, First, Hist;
    var (t, w') := DoVerifyClientCertificate(s, l);
    TrafficOnly(g, h, ServerHalf(g, s, w, out), b, ServerSide, t.k);
  }

  lemma {:induction false} ReadClientKeyExchangeFollows(g: Cfg, h: Script, s: Server, w: Wait, out: seq<Record>,
                                                        b: Half, l: Luck)
    requires ServerReady(g, h, s, w, out, b) && s.state == ReadClientKeyExchange
    ensures ServerOn(g, h, DoReadClientKeyExchange(s, l), out, b)
  {
    hide Joint, First, Hist;
    var a := ServerHalf(g, s, w, out);
    FirstHere(g, a.pos);
    if s.k.inbox != [] {
      InboxIsNext(g, h, a, b, ServerSide);
      TakeSlot(g, h, a, b, ServerSide);
    }
  }

  lemma {:induction false} ReadClientCertificateVerifyFollows(g: Cfg, h: Script, s: Server, w: Wait, out: seq<Record>,
      b: Half, l: Luck)
    returns (h': Script)
    requires ServerReady(g, h, s, w, out, b) && s.state == ReadClientCertificateVerify
    ensures ServerOn(g, h', DoReadClientCertificateVerify(s, l), out, b)
  {
    hide Joint, First, Hist;
    var a := ServerHalf(g, s, w, out);
    h' := h;
    if s.chain == 0 {
      FirstThere(g, 9);
      FirstHere(g, 10);
      if s.k.inbox != [] {
        InboxIsNext(g, h, a, b, ServerSide);
      }
      SkipSlot(g, h, a, b, ServerSide);
      h' := Longer(h, a.pos, Ccs);
    } else {
      FirstHere(g, 9);
      if s.k.inbox != [] {
        InboxIsNext(g, h, a, b, ServerSide);
        TakeSlot(g, h, a, b, ServerSide);
      }
    }
  }

  lemma {:induction false} ReadClientCcsFollows(g: Cfg, h: Script, s: Server, w: Wait, out: seq<Record>, b: Half,
                                                l: Luck)
    requires ServerReady(g, h, s, w, out, b) && !l.fails && s.state == ReadClientCcs
    ensures ServerOn(g, h, ServerDo(s, l), out, b)
  {
    hide Joint, First, Hist;
  }

  lemma {:induction false} ProcessClientCcsFollows(g: Cfg, h: Script, s: Server, w: Wait, out: seq<Record>, b: Half,
                                                   l: Luck)
    requires ServerReady(g, h, s, w, out, b) && s.state == ProcessClientCcs
    ensures ServerOn(g, h, DoProcessClientCcs(s, l), out, b)
  {
    hide Joint, First, Hist;
    TrafficOnly(g, h, ServerHalf(g, s, w, out), b, ServerSide, ChangeRead(s.k));
  }

  lemma {:induction false} ReadNextProtoFollows(g: Cfg, h: Script, s: Server, w: Wait, out: seq<Record>, b: Half,
                                                l: Luck)
    returns (h': Script)
    requires ServerReady(g, h, s, w, out, b) && s.state == ReadNextProto
    ensures ServerOn(g, h', DoReadNextProto(s, l), out, b)
  {
    hide Joint, First, Hist;
    var a := ServerHalf(g, s, w, out);
    h' := h;
    if !s.p.hello.npn {
      SkipSlot(g, h, a, b, ServerSide);
      h' := Longer(h, a.pos, Ccs);
    } else {
      FirstHere(g, a.pos);
      if s.k.inbox != [] {
        InboxIsNext(g, h, a, b, ServerSide);
        TakeSlot(g, h, a, b, ServerSide);
      }
    }
  }

  lemma {:induction false} ReadChannelIdFollows(g: Cfg, h: Script, s: Server, w: Wait, out: seq<Record>, b: Half,
                                                l: Luck)
    returns (h': Script)
    requires ServerReady(g, h, s, w, out, b) && s.state == ReadChannelId
    ensures ServerOn(g, h', DoReadChannelId(s, l), out, b)
  {
    hide Joint, First, Hist;
    var a := ServerHalf(g, s, w, out);
    h' := h;
    if !s.p.hello.channelId {
      SkipSlot(g, h, a, b, ServerSide);
      h' := Longer(h, a.pos, Ccs);
    } else {
      FirstHere(g, a.pos);
      if s.k.inbox != [] {
        InboxIsNext(g, h, a, b, ServerSide);
        TakeSlot(g, h, a, b, ServerSide);
      }
    }
  }

  lemma {:induction false} ReadClientFinishedFollows(g: Cfg, h: Script, s: Server, w: Wait, out: seq<Record>, b: Half,
                                                     l: Luck)
    requires ServerReady(g, h, s, w, out, b) && s.state == ReadClientFinished
    ensures ServerOn(g, h, DoReadClientFinished(s, l), out, b)
  {
    hide Joint, First, Hist, CheckFinished, FinishedOk, KindAt, Present, Who;
    var a := ServerHalf(g, s, w, out);
    FinishedSlotIs(g, ClientSide);
    if s.k.inbox != [] {
      TakeFinished(g, h, a, b, ServerSide);
      LogKept(s.k, Msg(Finished, Data([])));
    }
  }

  lemma {:induction false} ServerFlightFollows(g: Cfg, h: Script, a: Half, b: Half, ticket: Msg)
    returns (h': Script)
    requires Joint(g, h, a, b, ServerSide) && a.pos + 1 == CcsSlot(g, ServerSide) && ticket.kind == NewSessionTicket
    ensures Joint(g, h', Half(a.pos + 3, SendFinished(ChangeWrite(Optional(a, g.p.hello.ticket, ticket).k), true), a.out), b, ServerSide)
    ensures a.k.inbox == []
  {
    hide Joint, First, Hist;
    h' := OptionalSlot(g, h, a, b, ServerSide, ticket);
    var a1 := Optional(a, Present(g, a.pos), ticket);
    OwnSlotIsLast(g, h', a1, b, ServerSide);
    PutCcsSlot(g, h', a1, b, ServerSide);
    var a2 := PutCcs(a1);
    var fin := Msg(Finished, Mac(true, a2.k.transcript));
    PutSlot(g, h' + [Ccs], a2, b, ServerSide, fin);
    h' := h' + [Ccs] + [Hs(fin)];
    TrafficOnly(g, h', PutMsg(a2, fin), b, ServerSide, SendFinished(a2.k, true));
  }

  lemma {:induction false} SendServerFinishedFollows(g: Cfg, h: Script, s: Server, w: Wait, out: seq<Record>, b: Half,
                                                     l: Luck)
    returns (h': Script)
    requires ServerReady(g, h, s, w, out, b) && s.state == SendServerFinished
    ensures ServerOn(g, h', DoSendServerFinished(s, l), out, b)
  {
    hide Joint, First, Hist;
    var a := ServerHalf(g, s, w, out);
    var ticket := Msg(NewSessionTicket, Data(l.bytes));
    h' := ServerFlightFollows(g, h, a, b, ticket);
  }

  lemma {:induction false} ServerEndFollows(g: Cfg, h: Script, s: Server, w: Wait, out: seq<Record>, b: Half, l: Luck)
    requires ServerReady(g, h, s, w, out, b) && !l.fails && (s.state == FinishServer || s.state == ServerDone)
    ensures ServerOn(g, h, ServerDo(s, l), out, b)
  {
    hide Joint, First, Hist;
  }
}
