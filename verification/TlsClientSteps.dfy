/** Where the client's states stand in the script, and that every step of the client follows it. */
module TlsClientSteps {
  import opened TlsMachines
  import opened TlsRunShape
  import opened TlsScript

  /** The slot before which a client in state st stands; w tells whether the ChangeCipherSpec has been read. */
  function ClientPos(g: Cfg, st: ClientState, w: Wait): nat {
    var r := g.p.hello.resumed;
    match st
    case StartConnect => 0
    case EnterEarlyData => 1
    case ReadServerHello => 1
    case ReadServerCertificate => 2
    case ReadCertificateStatus => 3
    case VerifyServerCertificate => 4
    case ReadServerKeyExchange => 4
    case ReadCertificateRequest => 5
    case ReadServerHelloDone => 6
    case SendClientCertificate => 7
    case SendClientKeyExchange => 8
    case SendClientCertificateVerify => 9
    case SendClientFinished => if r then 5 else 10
    case FinishFlight => if r then 9 else 14
    case ReadSessionTicket => if r then 2 else 14
    case ProcessServerCcs => (if r then 3 else 15) + if w == ReadCcs then 0 else 1
    case ReadServerFinished => if r then 4 else 16
    case FinishClient => End(g)
    case ClientDone => End(g)
  }

  function ClientHalf(g: Cfg, c: Client, w: Wait, out: seq<Record>): Half {
    Half(ClientPos(g, c.state, w), c.k, out)
  }

  /** The read cipher has been changed. */
  predicate ClientReadOn(g: Cfg, st: ClientState) {
    st.ReadServerFinished? || st.FinishClient? || st.ClientDone?
    || (g.p.hello.resumed && (st.SendClientFinished? || st.FinishFlight?))
  }

  /** Between the steps that add to one flight. */
  predicate ClientInFlight(g: Cfg, st: ClientState) {
    !g.p.hello.resumed && (st.SendClientKeyExchange? || st.SendClientCertificateVerify? || st.SendClientFinished?)
  }

  /** The next slot is a message of the peer under the current read cipher. */
  ghost predicate AwaitsMessage(g: Cfg, pos: nat, role: Role, readOn: bool) {
    var q := First(g, pos);
    q < End(g) && Who(g, q) == Other(role) && KindAt(g, q).Some? && (q > CcsSlot(g, Other(role)) <==> readOn)
  }

  ghost predicate ClientFacts(g: Cfg, c: Client, w: Wait) {
    && c.chain == g.chain
    && (!BeforeHello(c.state) ==> c.hello == g.p.hello)
    && (g.p.hello.resumed ==> BeforeHello(c.state) || ResumedClientState(c.state))
    && (!g.p.hello.resumed ==> c.certRequest == (g.p.certRequest && ClientRank(c.state, false) >= 8))
    && (c.k.readOn <==> ClientReadOn(g, c.state))
    && (w != Flush && !ClientInFlight(g, c.state) ==> c.k.flight == [])
    && (c.state.ProcessServerCcs? ==> c.k.inbox == [])
    && (w == Flush ==> c.state.EnterEarlyData? || c.state.FinishFlight?)
    && (w == ReadCcs ==> c.state.ProcessServerCcs?)
    && (w == ReadMessage ==> c.k.inbox == [] && c.k.flight == [] && AwaitsMessage(g, ClientPos(g, c.state, w), ClientSide, c.k.readOn))
  }

  /** The step r leaves the client on the script, with h as what has been sent so far and b as its peer. */
  ghost predicate ClientOn(g: Cfg, h: Script, r: (Client, Wait), out: seq<Record>, b: Half) {
    && r.1 != Error
    && ClientFacts(g, r.0, r.1)
    && Joint(g, h, ClientHalf(g, r.0, r.1, out), b, ClientSide)
  }

  ghost predicate ClientReady(g: Cfg, h: Script, c: Client, w: Wait, out: seq<Record>, b: Half) {
    WfParams(g.p) && Callable(w) && ClientOn(g, h, (c, w), out, b)
  }

  lemma {:induction false} StartConnectFollows(g: Cfg, h: Script, c: Client, w: Wait, out: seq<Record>, b: Half,
                                               l: Luck)
    returns (h': Script)
    requires ClientReady(g, h, c, w, out, b) && !l.fails && c.state == StartConnect
    ensures ClientOn(g, h', ClientDo(c, l), out, b)
  {
    hide Joint, First;
    var m := Msg(ClientHello, Data(l.bytes));
    PutSlot(g, h, ClientHalf(g, c, w, out), b, ClientSide, m);
    h' := h + [Hs(m)];
  }

  lemma {:induction false} EnterEarlyDataFollows(g: Cfg, h: Script, c: Client, w: Wait, out: seq<Record>, b: Half,
                                                 l: Luck)
    requires ClientReady(g, h, c, w, out, b) && !l.fails && c.state == EnterEarlyData
    ensures ClientOn(g, h, ClientDo(c, l), out, b)
  {
    hide Joint, First;
  }

  lemma {:induction false} ReadServerHelloFollows(g: Cfg, h: Script, c: Client, w: Wait, out: seq<Record>, b: Half,
                                                  l: Luck)
    requires ClientReady(g, h, c, w, out, b) && c.state == ReadServerHello
    ensures ClientOn(g, h, DoReadServerHello(c, l), out, b)
  {
    hide Joint, First, Hist;
    var a := ClientHalf(g, c, w, out);
    FirstHere(g, 1);
    if c.k.inbox != [] {
      InboxIsNext(g, h, a, b, ClientSide);
      TakeSlot(g, h, a, b, ClientSide);
    }
  }

  lemma {:induction false} ReadServerCertificateFollows(g: Cfg, h: Script, c: Client, w: Wait, out: seq<Record>,
                                                        b: Half, l: Luck)
    returns (h': Script)
    requires ClientReady(g, h, c, w, out, b) && c.state == ReadServerCertificate
    ensures ClientOn(g, h', DoReadServerCertificate(c, l), out, b)
  {
    hide Joint, First, Hist;
    var a := ClientHalf(g, c, w, out);
    h' := h;
    if !c.hello.certCipher {
      SkipSlot(g, h, a, b, ClientSide);
      h' := Longer(h, a.pos, Ccs);
    } else {
      FirstHere(g, 2);
      if c.k.inbox != [] {
        InboxIsNext(g, h, a, b, ClientSide);
        TakeSlot(g, h, a, b, ClientSide);
      }
    }
  }

  lemma {:induction false} ReadCertificateStatusFollows(g: Cfg, h: Script, c: Client, w: Wait, out: seq<Record>,
                                                        b: Half, l: Luck)
    returns (h': Script)
    requires ClientReady(g, h, c, w, out, b) && c.state == ReadCertificateStatus
    ensures ClientOn(g, h', DoReadCertificateStatus(c, l), out, b)
  {
    hide Joint, First, Hist;
    var a := ClientHalf(g, c, w, out);
    h' := h;
    if !c.hello.status {
      SkipSlot(g, h, a, b, ClientSide);
      h' := Longer(h, a.pos, Ccs);
    } else {
      FirstHere(g, 3);
      if c.k.inbox != [] {
        InboxIsNext(g, h, a, b, ClientSide);
        TakeSlot(g, h, a, b, ClientSide);
      }
    }
  }

  lemma {:induction false} VerifyServerCertificateFollows(g: Cfg, h: Script, c: Client, w: Wait, out: seq<Record>,
                                                          b: Half, l: Luck)
    requires ClientReady(g, h, c, w, out, b) && c.state == VerifyServerCertificate
    ensures ClientOn(g, h, DoVerifyServerCertificate(c, l), out, b)
  {
    hide Joint, First;
    var (d, w') := DoVerifyServerCertificate(c, l);
    TrafficOnly(g, h, ClientHalf(g, c, w, out), b, ClientSide, d.k);
  }

  lemma {:induction false} ReadServerKeyExchangeFollows(g: Cfg, h: Script, c: Client, w: Wait, out: seq<Record>,
                                                        b: Half, l: Luck)
    returns (h': Script)
    requires ClientReady(g, h, c, w, out, b) && c.state == ReadServerKeyExchange
    ensures ClientOn(g, h', DoReadServerKeyExchange(c, l), out, b)
  {
    hide Joint, First, Hist;
    var a := ClientHalf(g, c, w, out);
    h' := h;
    NextServerMessage(g);
    if c.k.inbox != [] {
      InboxIsNext(g, h, a, b, ClientSide);
      if c.k.inbox[0].kind == ServerKeyExchange {
        TakeSlot(g, h, a, b, ClientSide);
      } else {
        SkipSlot(g, h, a, b, ClientSide);
        h' := Longer(h, a.pos, Ccs);
      }
    }
  }

  /** The server's optional messages are followed by its ServerHelloDone. */
  lemma {:induction false} NextServerMessage(g: Cfg)
    requires !g.p.hello.resumed
    ensures First(g, 6) == 6
    ensures First(g, 5) == if Present(g, 5) then 5 else 6
    ensures First(g, 4) == if Present(g, 4) then 4 else First(g, 5)
  {
    FirstHere(g, 6);
    if Present(g, 5) {
      FirstHere(g, 5);
    } else {
      FirstThere(g, 5);
    }
    if Present(g, 4) {
      FirstHere(g, 4);
    } else {
      FirstThere(g, 4);
    }
  }

  lemma {:induction false} ReadCertificateRequestFollows(g: Cfg, h: Script, c: Client, w: Wait, out: seq<Record>,
                                                         b: Half, l: Luck)
    returns (h': Script)
    requires ClientReady(g, h, c, w, out, b) && c.state == ReadCertificateRequest
    ensures ClientOn(g, h', DoReadCertificateRequest(c, l), out, b)
  {
    hide Joint, First, Hist;
    var a := ClientHalf(g, c, w, out);
    h' := h;
    NextServerMessage(g);
    if !c.hello.certCipher {
      SkipSlot(g, h, a, b, ClientSide);
      h' := Longer(h, a.pos, Ccs);
    } else if c.k.inbox != [] {
      InboxIsNext(g, h, a, b, ClientSide);
      if c.k.inbox[0].kind == ServerHelloDone {
        SkipSlot(g, h, a, b, ClientSide);
        h' := Longer(h, a.pos, Ccs);
      } else {
        TakeSlot(g, h, a, b, ClientSide);
      }
    }
  }

  lemma {:induction false} ReadServerHelloDoneFollows(g: Cfg, h: Script, c: Client, w: Wait, out: seq<Record>,
                                                      b: Half, l: Luck)
    requires ClientReady(g, h, c, w, out, b) && !l.fails && c.state == ReadServerHelloDone
    ensures ClientOn(g, h, ClientDo(c, l), out, b)
  {
    hide Joint, First, Hist;
    var a := ClientHalf(g, c, w, out);
    NextServerMessage(g);
    if c.k.inbox != [] {
      InboxIsNext(g, h, a, b, ClientSide);
      TakeSlot(g, h, a, b, ClientSide);
    }
  }

  lemma {:induction false} SendClientCertificateFollows(g: Cfg, h: Script, c: Client, w: Wait, out: seq<Record>,
                                                        b: Half, l: Luck)
    returns (h': Script)
    requires ClientReady(g, h, c, w, out, b) && c.state == SendClientCertificate
    ensures ClientOn(g, h', DoSendClientCertificate(c, l), out, b)
  {
    hide Joint, First, Hist;
    var a := ClientHalf(g, c, w, out);
    h' := h;
    if !c.certRequest {
      SkipSlot(g, h, a, b, ClientSide);
      h' := Longer(h, a.pos, Ccs);
    } else if !l.retries {
      var m := Msg(Certificate, Certs(c.chain));
      PutSlot(g, h, a, b, ClientSide, m);
      h' := h + [Hs(m)];
    }
  }

  lemma {:induction false} SendClientKeyExchangeFollows(g: Cfg, h: Script, c: Client, w: Wait, out: seq<Record>,
                                                        b: Half, l: Luck)
    returns (h': Script)
    requires ClientReady(g, h, c, w, out, b) && !l.fails && c.state == SendClientKeyExchange
    ensures ClientOn(g, h', ClientDo(c, l), out, b)
  {
    hide Joint, First, Hist;
    var m := Msg(ClientKeyExchange, Data(l.bytes));
    PutSlot(g, h, ClientHalf(g, c, w, out), b, ClientSide, m);
    h' := h + [Hs(m)];
  }

  lemma {:induction false} SendClientCertificateVerifyFollows(g: Cfg, h: Script, c: Client, w: Wait, out: seq<Record>,
      b: Half, l: Luck)
    returns (h': Script)
    requires ClientReady(g, h, c, w, out, b) && c.state == SendClientCertificateVerify
    ensures ClientOn(g, h', DoSendClientCertificateVerify(c, l), out, b)
  {
    hide Joint, First, Hist;
    var a := ClientHalf(g, c, w, out);
    h' := h;
    if !c.certRequest || c.chain == 0 {
      SkipSlot(g, h, a, b, ClientSide);
      h' := Longer(h, a.pos, Ccs);
    } else if !l.retries {
      var m := Msg(CertificateVerify, Data(l.bytes));
      PutSlot(g, h, a, b, ClientSide, m);
      h' := h + [Hs(m)];
    }
  }

  /** An optional message is sent, or its slot passed. */
  function Optional(a: Half, present: bool, m: Msg): Half {
    if present then PutMsg(a, m) else Skipped(a)
  }

  lemma {:induction false} OptionalSlot(g: Cfg, h: Script, a: Half, b: Half, role: Role, m: Msg)
    returns (h': Script)
    requires Joint(g, h, a, b, role) && a.pos < End(g) && Who(g, a.pos) == role && Fills(g, a.pos, a.k.transcript, m)
    ensures Joint(g, h', Optional(a, Present(g, a.pos), m), b, role)
  {
    hide Joint, First, Hist, KindAt, Present;
    if Present(g, a.pos) {
      PutSlot(g, h, a, b, role, m);
      h' := h + [Hs(m)];
    } else {
      SkipSlot(g, h, a, b, role);
      h' := Longer(h, a.pos, Ccs);
    }
  }

  lemma {:induction false} SendClientFinishedFollows(g: Cfg, h: Script, c: Client, w: Wait, out: seq<Record>, b: Half,
                                                     l: Luck)
    returns (h': Script)
    requires ClientReady(g, h, c, w, out, b) && c.state == SendClientFinished
    ensures ClientOn(g, h', DoSendClientFinished(c, l), out, b)
  {
    hide Joint, First, Hist;
    h' := h;
    if !(c.hello.channelId && l.retries) {
      var a := ClientHalf(g, c, w, out);
      h' := FinishedFlightFollows(g, h, a, c, b, l);
      var (d, w') := DoSendClientFinished(c, l);
      assert d.k == ClientFinishedFlight(c, l) && ClientHalf(g, d, w', out) == Half(a.pos + 4, d.k, out);
    }
  }

  lemma {:induction false} FinishedFlightFollows(g: Cfg, h: Script, a: Half, c: Client, b: Half, l: Luck)
    returns (h': Script)
    requires Joint(g, h, a, b, ClientSide) && a.pos == CcsSlot(g, ClientSide) && a.k == c.k && c.hello == g.p.hello
    ensures Joint(g, h', Half(a.pos + 4, ClientFinishedFlight(c, l), a.out), b, ClientSide)
  {
    hide Joint, First, Hist;
    PutCcsSlot(g, h, a, b, ClientSide);
    var a1 := PutCcs(a);
    var np, id := Msg(NextProto, Data(l.bytes)), Msg(ChannelId, Data(l.bytes));
    var h2 := OptionalSlot(g, h + [Ccs], a1, b, ClientSide, np);
    var a2 := Optional(a1, Present(g, a1.pos), np);
    var h3 := OptionalSlot(g, h2, a2, b, ClientSide, id);
    var a3 := Optional(a2, Present(g, a2.pos), id);
    var fin := Msg(Finished, Mac(false, a3.k.transcript));
    PutSlot(g, h3, a3, b, ClientSide, fin);
    h' := h3 + [Hs(fin)];
    var a4 := PutMsg(a3, fin);
    TrafficOnly(g, h', a4, b, ClientSide, ClientFinishedFlight(c, l));
  }

  lemma {:induction false} FinishFlightFollows(g: Cfg, h: Script, c: Client, w: Wait, out: seq<Record>, b: Half,
                                               l: Luck)
    requires ClientReady(g, h, c, w, out, b) && c.state == FinishFlight
    ensures ClientOn(g, h, DoFinishFlight(c, l), out, b)
  {
    hide Joint, First, Hist;
  }

  lemma {:induction false} ReadSessionTicketFollows(g: Cfg, h: Script, c: Client, w: Wait, out: seq<Record>, b: Half,
                                                    l: Luck)
    returns (h': Script)
    requires ClientReady(g, h, c, w, out, b) && c.state == ReadSessionTicket
    ensures ClientOn(g, h', DoReadSessionTicket(c, l), out, b)
  {
    hide Joint, First, Hist;
    var a := ClientHalf(g, c, w, out);
    h' := h;
    if !c.hello.ticket {
      FirstThere(g, a.pos);
      FirstHere(g, a.pos + 1);
      if c.k.inbox != [] {
        InboxIsNext(g, h, a, b, ClientSide);
      }
      SkipSlot(g, h, a, b, ClientSide);
      h' := Longer(h, a.pos, Ccs);
    } else {
      FirstHere(g, a.pos);
      if c.k.inbox != [] {
        InboxIsNext(g, h, a, b, ClientSide);
        TakeSlot(g, h, a, b, ClientSide);
      }
    }
  }

  lemma {:induction false} ProcessServerCcsFollows(g: Cfg, h: Script, c: Client, w: Wait, out: seq<Record>, b: Half,
                                                   l: Luck)
    requires ClientReady(g, h, c, w, out, b) && c.state == ProcessServerCcs
    ensures ClientOn(g, h, DoProcessServerCcs(c, l), out, b)
  {
    hide Joint, First, Hist;
    TrafficOnly(g, h, ClientHalf(g, c, w, out), b, ClientSide, ChangeRead(c.k));
  }

  lemma {:induction false} ReadServerFinishedFollows(g: Cfg, h: Script, c: Client, w: Wait, out: seq<Record>, b: Half,
                                                     l: Luck)
    requires ClientReady(g, h, c, w, out, b) && c.state == ReadServerFinished
    ensures ClientOn(g, h, DoReadServerFinished(c, l), out, b)
  {
    hide Joint, First, Hist, CheckFinished, FinishedOk, KindAt, Present, Who;
    var a := ClientHalf(g, c, w, out);
    FinishedSlotIs(g, ServerSide);
    if c.k.inbox != [] {
      TakeFinished(g, h, a, b, ClientSide);
      LogKept(c.k, Msg(Finished, Data([])));
    }
  }

  lemma {:induction false} ClientEndFollows(g: Cfg, h: Script, c: Client, w: Wait, out: seq<Record>, b: Half, l: Luck)
    requires ClientReady(g, h, c, w, out, b) && !l.fails && (c.state == FinishClient || c.state == ClientDone)
    ensures ClientOn(g, h, ClientDo(c, l), out, b)
  {
    hide Joint, First, Hist;
  }
}
