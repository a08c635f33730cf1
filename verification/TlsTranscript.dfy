/**
 * What each machine has hashed, whoever its peer is: the messages of RFC 5246, section 7.3, in their
 * order and with nothing between them, and Finished messages that cover all that was hashed before
 * (section 7.4.9). A transcript that was altered on the way never gets past the check.
 */
module TlsTranscript {
  import opened Prelude
  import opened TlsMachines
  import opened TlsRunShape

  function Kinds(t: seq<Msg>): (ks: seq<Kind>)
    ensures |ks| == |t|
  {
    seq(|t|, i requires 0 <= i < |t| => t[i].kind)
  }

  lemma {:induction false} KindsSnoc(t: seq<Msg>, m: Msg)
    ensures Kinds(t + [m]) == Kinds(t) + [m.kind]
  {
  }

  function If(b: bool, kind: Kind): seq<Kind> {
    if b then [kind] else []
  }

  // ----- Finished messages

  ghost predicate NoFinished(t: seq<Msg>) {
    forall i :: 0 <= i < |t| ==> t[i].kind != Finished
  }

  /** Each Finished covers what comes before it. The first is the server's exactly in a resumed handshake. */
  ghost predicate MacsOk(resumed: bool, t: seq<Msg>) {
    forall i :: 0 <= i < |t| && t[i].kind == Finished ==> t[i].body == Mac(resumed == NoFinished(t[..i]), t[..i])
  }

  lemma {:induction false} MacsSnoc(resumed: bool, t: seq<Msg>, m: Msg)
    requires MacsOk(resumed, t)
    requires m.kind == Finished ==> m.body == Mac(resumed == NoFinished(t), t)
    ensures MacsOk(resumed, t + [m])
  {
    hide NoFinished;
    var u := t + [m];
    forall i | 0 <= i < |u| && u[i].kind == Finished ensures u[i].body == Mac(resumed == NoFinished(u[..i]), u[..i]) {
      assert u[..i] == t[..i];
      assert i == |t| ==> t[..i] == t;
    }
  }

  // ----- the client

  /** What a server may send or leave out, whatever it negotiated. */
  datatype Extras = Extras(status: bool, ske: bool, certRequest: bool)

  /** The messages a client hashes in the state of rank i. */
  function ClientFlow(h: Hello, x: Extras, chain: nat, i: nat): seq<Kind> {
    if i == 0 then [ClientHello]
    else if i == 2 then [ServerHello]
    else if i == 12 then If(h.npn, NextProto) + If(h.channelId, ChannelId) + [Finished]
    else if h.resumed then
      if i == 3 then If(h.ticket, NewSessionTicket) else if i == 5 then [Finished] else []
    else if i == 3 then If(h.certCipher, Certificate)
    else if i == 4 then If(x.status, CertificateStatus)
    else if i == 6 then If(x.ske, ServerKeyExchange)
    else if i == 7 then If(x.certRequest, CertificateRequest)
    else if i == 8 then [ServerHelloDone]
    else if i == 9 then If(x.certRequest, Certificate)
    else if i == 10 then [ClientKeyExchange]
    else if i == 11 then If(x.certRequest && chain > 0, CertificateVerify)
    else if i == 14 then If(h.ticket, NewSessionTicket)
    else if i == 16 then [Finished]
    else []
  }

  function ClientUpTo(h: Hello, x: Extras, chain: nat, n: nat): seq<Kind> {
    if n == 0 then [] else ClientUpTo(h, x, chain, n - 1) + ClientFlow(h, x, chain, n - 1)
  }

  /** What is still open at rank n does not matter. */
  lemma {:induction false} ClientUpToKnown(h: Hello, x: Extras, g: Hello, y: Extras, chain: nat, n: nat)
    requires n <= 2 || (g == h && (n <= 4 || y.status == x.status) && (n <= 6 || y.ske == x.ske)
                        && (n <= 7 || y.certRequest == x.certRequest))
    ensures ClientUpTo(g, y, chain, n) == ClientUpTo(h, x, chain, n)
  {
    if n > 0 {
      ClientUpToKnown(h, x, g, y, chain, n - 1);
    }
  }

  /** In a resumed handshake the ranks from 6 to 12 are not used. */
  lemma {:induction false} ResumedGap(h: Hello, x: Extras, chain: nat)
    requires h.resumed
    ensures ClientUpTo(h, x, chain, 12) == ClientUpTo(h, x, chain, 6)
  {
    ResumedGapFrom(h, x, chain, 12);
  }

  lemma {:induction false} ResumedGapFrom(h: Hello, x: Extras, chain: nat, n: nat)
    requires h.resumed && 6 <= n <= 12
    ensures ClientUpTo(h, x, chain, n) == ClientUpTo(h, x, chain, 6)
  {
    if n > 6 {
      ResumedGapFrom(h, x, chain, n - 1);
    }
  }

  lemma {:induction false} ResumedTail(h: Hello, x: Extras, chain: nat, n: nat)
    requires h.resumed && 13 <= n <= 18
    ensures ClientUpTo(h, x, chain, n) == ClientUpTo(h, x, chain, 13)
  {
    if n > 13 {
      ResumedTail(h, x, chain, n - 1);
    }
  }

  lemma {:induction false} FlowFinished(h: Hello, x: Extras, chain: nat, n: nat)
    requires n <= 18
    ensures Finished in ClientUpTo(h, x, chain, n) <==> n > 12 || (h.resumed && n > 5)
  {
    if n > 0 {
      FlowFinished(h, x, chain, n - 1);
      assert Finished in ClientFlow(h, x, chain, n - 1) <==> n == 13 || (if h.resumed then n == 6 else n == 17);
    }
  }

  lemma {:induction false} KindsFinished(t: seq<Msg>)
    ensures NoFinished(t) <==> Finished !in Kinds(t)
  {
    if !NoFinished(t) {
      var i :| 0 <= i < |t| && t[i].kind == Finished;
      assert Kinds(t)[i] == Finished;
    }
  }

  /** The parameters are those of the ServerHello, the server showed a certificate, and the client its own chain. */
  ghost predicate ClientBodies(h: Hello, chain: nat, t: seq<Msg>) {
    forall i :: 0 <= i < |t| ==>
      && (t[i].kind == ServerHello ==> t[i].body == Parameters(h))
      && (t[i].kind == Certificate ==> t[i].body.Certs? && if i == 2 then t[i].body.chain > 0 else t[i].body.chain == chain)
  }

  lemma {:induction false} BodiesSnoc(h: Hello, chain: nat, t: seq<Msg>, m: Msg)
    requires ClientBodies(h, chain, t)
    requires m.kind == ServerHello ==> m.body == Parameters(h)
    requires m.kind == Certificate ==> m.body.Certs? && if |t| == 2 then m.body.chain > 0 else m.body.chain == chain
    ensures ClientBodies(h, chain, t + [m])
  {
  }

  /** What the client knows when it has come to rank n with transcript t. */
  ghost predicate ClientTold(h: Hello, x: Extras, chain: nat, n: nat, t: seq<Msg>) {
    && Kinds(t) == ClientUpTo(h, x, chain, n)
    && MacsOk(h.resumed, t)
    && ClientBodies(h, chain, t)
  }

  /** The server may leave out a status it announced; the key exchange and the request have to fit the cipher. */
  predicate ExtrasOk(h: Hello, x: Extras, n: nat) {
    && (n > 4 && x.status ==> h.status)
    && (n > 6 ==> if h.certCipher then x.ske == h.skeRequired else h.skeRequired ==> x.ske)
    && (n > 7 && x.certRequest ==> h.certCipher)
  }

  ghost predicate ClientStory(r: ClientRun, x: Extras) {
    var c, n := r.c, ClientRank(r.c.state, r.c.hello.resumed);
    && ClientTold(c.hello, x, c.chain, n, c.k.transcript)
    && (n <= 2 ==> c.hello == NO_HELLO)
    && (c.hello.status ==> c.hello.certCipher)
    && (c.hello.resumed ==> ResumedClientState(c.state))
    && (!c.hello.resumed ==> ExtrasOk(c.hello, x, n))
    && (c.certRequest <==> !c.hello.resumed && n > 7 && x.certRequest)
    && (r.wait == EarlyReturn ==> !c.hello.resumed && c.state == ReadSessionTicket)
  }

  /** Going on without a message. */
  lemma {:induction false} ClientPass(h: Hello, x: Extras, chain: nat, n: nat, t: seq<Msg>)
    requires ClientTold(h, x, chain, n, t) && ClientFlow(h, x, chain, n) == []
    ensures ClientTold(h, x, chain, n + 1, t)
  {
    assert ClientUpTo(h, x, chain, n) + [] == ClientUpTo(h, x, chain, n);
  }

  /** Going on with one. */
  lemma {:induction false} ClientHash(h: Hello, x: Extras, chain: nat, n: nat, t: seq<Msg>, m: Msg)
    requires ClientTold(h, x, chain, n, t) && ClientFlow(h, x, chain, n) == [m.kind]
    requires m.kind == Finished ==> m.body == Mac(h.resumed == NoFinished(t), t)
    requires m.kind == ServerHello ==> m.body == Parameters(h)
    requires m.kind == Certificate ==> m.body.Certs? && if |t| == 2 then m.body.chain > 0 else m.body.chain == chain
    ensures ClientTold(h, x, chain, n + 1, t + [m])
  {
    hide MacsOk, ClientBodies, ClientFlow;
    KindsSnoc(t, m);
    MacsSnoc(h.resumed, t, m);
    BodiesSnoc(h, chain, t, m);
  }

  /** Before the ServerHello the transcript does not depend on what the server will say. */
  lemma {:induction false} ClientLearns(x: Extras, chain: nat, t: seq<Msg>, h: Hello)
    requires ClientTold(NO_HELLO, x, chain, 2, t)
    ensures ClientTold(h, x, chain, 2, t) && |t| == 1
  {
    assert ClientUpTo(NO_HELLO, x, chain, 1) == [ClientHello];
    assert Kinds(t) == [ClientHello] && Kinds(t)[0] == t[0].kind;
    ClientUpToKnown(NO_HELLO, x, h, x, chain, 2);
  }

  /** What a step leaves open it may settle. */
  lemma {:induction false} ClientSettles(h: Hello, x: Extras, y: Extras, chain: nat, n: nat, t: seq<Msg>)
    requires ClientTold(h, x, chain, n, t)
    requires (n <= 4 || y.status == x.status) && (n <= 6 || y.ske == x.ske) && (n <= 7 || y.certRequest == x.certRequest)
    ensures ClientTold(h, y, chain, n, t)
  {
    ClientUpToKnown(h, x, h, y, chain, n);
  }

  lemma {:induction false} SecondMessages(h: Hello, x: Extras, chain: nat, n: nat)
    requires !h.resumed && 3 <= n <= 18
    ensures |ClientUpTo(h, x, chain, n)| >= 2 && (n == 3 ==> |ClientUpTo(h, x, chain, n)| == 2)
    ensures n >= 9 ==> |ClientUpTo(h, x, chain, n)| > 2
  {
    if n > 3 {
      SecondMessages(h, x, chain, n - 1);
    } else {
      assert ClientUpTo(h, x, chain, 1) == [ClientHello];
      assert ClientUpTo(h, x, chain, 2) == [ClientHello];
    }
  }

  ghost predicate ClientKeepsStory(step: (Client, Wait), x: Extras) {
    ClientStory(ClientRun(step.0, step.1), x)
  }

  lemma {:induction false} BeginningStory(c: Client, w: Wait, x: Extras, l: Luck)
    requires ClientStory(ClientRun(c, w), x) && Callable(w) && !l.fails
    requires c.state == StartConnect || c.state == EnterEarlyData
    ensures ClientKeepsStory(ClientDo(c, l), x)
  {
    hide ClientTold;
    var t := c.k.transcript;
    if c.state == StartConnect {
      ClientHash(c.hello, x, c.chain, 0, t, Msg(ClientHello, Data(l.bytes)));
    } else {
      ClientPass(c.hello, x, c.chain, 1, t);
    }
  }

  lemma {:induction false} ServerHelloStory(c: Client, w: Wait, x: Extras, l: Luck)
    requires ClientStory(ClientRun(c, w), x) && Callable(w) && c.state == ReadServerHello
    ensures ClientKeepsStory(DoReadServerHello(c, l), x)
  {
    hide ClientTold;
    var (d, w') := DoReadServerHello(c, l);
    if w' == Ok {
      var m := c.k.inbox[0];
      ClientLearns(x, c.chain, c.k.transcript, m.body.hello);
      ClientHash(m.body.hello, x, c.chain, 2, c.k.transcript, m);
    }
  }

  lemma {:induction false} ServerCertificateStory(c: Client, w: Wait, x: Extras, l: Luck)
    requires ClientStory(ClientRun(c, w), x) && Callable(w) && c.state == ReadServerCertificate
    ensures ClientKeepsStory(DoReadServerCertificate(c, l), x)
  {
    var t := c.k.transcript;
    assert Kinds(t) == ClientUpTo(c.hello, x, c.chain, 3);
    SecondMessages(c.hello, x, c.chain, 3);
    hide ClientTold;
    if !c.hello.certCipher {
      ClientPass(c.hello, x, c.chain, 3, t);
    } else if DoReadServerCertificate(c, l).1 == Ok {
      ClientHash(c.hello, x, c.chain, 3, t, c.k.inbox[0]);
    }
  }

  lemma {:induction false} CertificateStatusStory(c: Client, w: Wait, x: Extras, l: Luck) returns (y: Extras)
    requires ClientStory(ClientRun(c, w), x) && Callable(w) && c.state == ReadCertificateStatus
    ensures ClientKeepsStory(DoReadCertificateStatus(c, l), y)
  {
    hide ClientTold;
    var t := c.k.transcript;
    y := x.(status := NextIs(c.k, CertificateStatus) && c.hello.status);
    ClientSettles(c.hello, x, y, c.chain, 4, t);
    if y.status {
      ClientHash(c.hello, y, c.chain, 4, t, c.k.inbox[0]);
    } else {
      ClientPass(c.hello, y, c.chain, 4, t);
    }
  }

  lemma {:induction false} VerifyCertificateStory(c: Client, w: Wait, x: Extras, l: Luck)
    requires ClientStory(ClientRun(c, w), x) && Callable(w) && c.state == VerifyServerCertificate
    ensures ClientKeepsStory(DoVerifyServerCertificate(c, l), x)
  {
    hide ClientTold;
    ClientPass(c.hello, x, c.chain, 5, c.k.transcript);
  }

  lemma {:induction false} ServerKeyExchangeStory(c: Client, w: Wait, x: Extras, l: Luck) returns (y: Extras)
    requires ClientStory(ClientRun(c, w), x) && Callable(w) && c.state == ReadServerKeyExchange
    ensures ClientKeepsStory(DoReadServerKeyExchange(c, l), y)
  {
    hide ClientTold;
    var t := c.k.transcript;
    y := x.(ske := NextIs(c.k, ServerKeyExchange));
    ClientSettles(c.hello, x, y, c.chain, 6, t);
    if y.ske {
      ClientHash(c.hello, y, c.chain, 6, t, c.k.inbox[0]);
    } else {
      ClientPass(c.hello, y, c.chain, 6, t);
    }
  }

  lemma {:induction false} CertificateRequestStory(c: Client, w: Wait, x: Extras, l: Luck) returns (y: Extras)
    requires ClientStory(ClientRun(c, w), x) && Callable(w) && c.state == ReadCertificateRequest
    ensures ClientKeepsStory(DoReadCertificateRequest(c, l), y)
  {
    hide ClientTold;
    var t := c.k.transcript;
    y := x.(certRequest := NextIs(c.k, CertificateRequest) && c.hello.certCipher);
    ClientSettles(c.hello, x, y, c.chain, 7, t);
    if y.certRequest {
      ClientHash(c.hello, y, c.chain, 7, t, c.k.inbox[0]);
    } else {
      ClientPass(c.hello, y, c.chain, 7, t);
    }
  }

  lemma {:induction false} ServerHelloDoneStory(c: Client, w: Wait, x: Extras, l: Luck)
    requires ClientStory(ClientRun(c, w), x) && Callable(w) && c.state == ReadServerHelloDone
    ensures ClientKeepsStory(ClientReads(c, ServerHelloDone, SendClientCertificate, Ok), x)
  {
    hide ClientTold;
    if ClientReads(c, ServerHelloDone, SendClientCertificate, Ok).1 == Ok {
      ClientHash(c.hello, x, c.chain, 8, c.k.transcript, c.k.inbox[0]);
    }
  }

  lemma {:induction false} ClientCertificateStory(c: Client, w: Wait, x: Extras, l: Luck)
    requires ClientStory(ClientRun(c, w), x) && Callable(w) && c.state == SendClientCertificate
    ensures ClientKeepsStory(DoSendClientCertificate(c, l), x)
  {
    var t := c.k.transcript;
    assert Kinds(t) == ClientUpTo(c.hello, x, c.chain, 9);
    SecondMessages(c.hello, x, c.chain, 9);
    hide ClientTold;
    if !c.certRequest {
      ClientPass(c.hello, x, c.chain, 9, t);
    } else if !l.retries {
      ClientHash(c.hello, x, c.chain, 9, t, Msg(Certificate, Certs(c.chain)));
    }
  }

  lemma {:induction false} ClientKeyExchangeStory(c: Client, w: Wait, x: Extras, l: Luck)
    requires ClientStory(ClientRun(c, w), x) && Callable(w) && c.state == SendClientKeyExchange && !l.fails
    ensures ClientKeepsStory(ClientDo(c, l), x)
  {
    hide ClientTold;
    ClientHash(c.hello, x, c.chain, 10, c.k.transcript, Msg(ClientKeyExchange, Data(l.bytes)));
  }

  lemma {:induction false} ClientVerifyStory(c: Client, w: Wait, x: Extras, l: Luck)
    requires ClientStory(ClientRun(c, w), x) && Callable(w) && c.state == SendClientCertificateVerify
    ensures ClientKeepsStory(DoSendClientCertificateVerify(c, l), x)
  {
    hide ClientTold;
    var t := c.k.transcript;
    if !c.certRequest || c.chain == 0 {
      ClientPass(c.hello, x, c.chain, 11, t);
    } else if !l.retries {
      ClientHash(c.hello, x, c.chain, 11, t, Msg(CertificateVerify, Data(l.bytes)));
    }
  }

  /** t' is t and some messages that are not checked. */
  ghost predicate Plainly(h: Hello, chain: nat, t: seq<Msg>, ks: seq<Kind>, u: seq<Msg>) {
    Kinds(u) == Kinds(t) + ks && MacsOk(h.resumed, u) && ClientBodies(h, chain, u) && (NoFinished(u) <==> NoFinished(t))
  }

  lemma {:induction false} PlainlySnoc(h: Hello, chain: nat, t: seq<Msg>, ks: seq<Kind>, u: seq<Msg>, b: bool, m: Msg)
    requires Plainly(h, chain, t, ks, u) && (m.kind == NextProto || m.kind == ChannelId)
    ensures Plainly(h, chain, t, ks + If(b, m.kind), if b then u + [m] else u)
  {
    KindsSnoc(u, m);
    MacsSnoc(h.resumed, u, m);
    BodiesSnoc(h, chain, u, m);
    assert Kinds(t) + ks + [m.kind] == Kinds(t) + (ks + [m.kind]);
    assert ks + [] == ks;
    assert (u + [m])[|u|] == m;
    assert forall i :: 0 <= i < |u| ==> (u + [m])[i] == u[i];
  }

  /** The messages of the client's last flight behind t. */
  function LastFlight(h: Hello, t: seq<Msg>, bytes: seq<byte>): seq<Msg> {
    var t1 := if h.npn then t + [Msg(NextProto, Data(bytes))] else t;
    if h.channelId then t1 + [Msg(ChannelId, Data(bytes))] else t1
  }

  lemma {:induction false} FlightHashes(c: Client, l: Luck)
    ensures var u := LastFlight(c.hello, c.k.transcript, l.bytes);
            ClientFinishedFlight(c, l).transcript == u + [Msg(Finished, Mac(false, u))]
  {
  }

  lemma {:induction false} FlightIsTold(h: Hello, x: Extras, chain: nat, t: seq<Msg>, bytes: seq<byte>)
    requires ClientTold(h, x, chain, 12, t)
    ensures var u := LastFlight(h, t, bytes);
            ClientTold(h, x, chain, 13, u + [Msg(Finished, Mac(false, u))])
  {
    FlowFinished(h, x, chain, 12);
    KindsFinished(t);
    hide MacsOk, ClientBodies, Plainly, Kinds, NoFinished, ClientUpTo;
    var t1 := if h.npn then t + [Msg(NextProto, Data(bytes))] else t;
    var u := LastFlight(h, t, bytes);
    PlainlyStart(h, chain, t);
    PlainlySnoc(h, chain, t, [], t, h.npn, Msg(NextProto, Data(bytes)));
    PlainlySnoc(h, chain, t, [] + If(h.npn, NextProto), t1, h.channelId, Msg(ChannelId, Data(bytes)));
    FlightTold(h, x, chain, t, u, Msg(Finished, Mac(false, u)));
  }

  lemma {:induction false} ClientFlightStory(c: Client, w: Wait, x: Extras, l: Luck)
    requires ClientStory(ClientRun(c, w), x) && Callable(w) && c.state == SendClientFinished
    ensures ClientKeepsStory(DoSendClientFinished(c, l), x)
  {
    hide ClientTold, ClientFinishedFlight, LastFlight;
    FlightHashes(c, l);
    FlightIsTold(c.hello, x, c.chain, c.k.transcript, l.bytes);
  }

  lemma {:induction false} PlainlyStart(h: Hello, chain: nat, t: seq<Msg>)
    requires MacsOk(h.resumed, t) && ClientBodies(h, chain, t)
    ensures Plainly(h, chain, t, [], t)
  {
    assert Kinds(t) + [] == Kinds(t);
  }

  lemma {:induction false} FlightTold(h: Hello, x: Extras, chain: nat, t: seq<Msg>, u: seq<Msg>, fin: Msg)
    requires ClientTold(h, x, chain, 12, t) && (NoFinished(t) <==> !h.resumed)
    requires Plainly(h, chain, t, [] + If(h.npn, NextProto) + If(h.channelId, ChannelId), u)
    requires fin == Msg(Finished, Mac(false, u))
    ensures ClientTold(h, x, chain, 13, u + [fin])
  {
    KindsSnoc(u, fin);
    MacsSnoc(h.resumed, u, fin);
    BodiesSnoc(h, chain, u, fin);
    hide MacsOk, ClientBodies, Kinds, NoFinished;
    var some := If(h.npn, NextProto) + If(h.channelId, ChannelId);
    assert [] + If(h.npn, NextProto) + If(h.channelId, ChannelId) == some;
    assert Kinds(t) + some + [Finished] == Kinds(t) + (some + [Finished]);
    assert ClientFlow(h, x, chain, 12) == some + [Finished];
  }

  lemma {:induction false} FinishFlightStory(c: Client, w: Wait, x: Extras, l: Luck)
    requires ClientStory(ClientRun(c, w), x) && Callable(w) && c.state == FinishFlight
    ensures ClientKeepsStory(DoFinishFlight(c, l), x)
  {
    hide MacsOk, ClientBodies, Kinds;
    if c.hello.resumed {
      ResumedTail(c.hello, x, c.chain, 17);
    } else {
      ClientPass(c.hello, x, c.chain, 13, c.k.transcript);
    }
  }

  lemma {:induction false} SessionTicketStory(c: Client, w: Wait, x: Extras, l: Luck)
    requires ClientStory(ClientRun(c, w), x) && Callable(w) && c.state == ReadSessionTicket
    ensures ClientKeepsStory(DoReadSessionTicket(c, l), x)
  {
    hide ClientTold;
    var n := ClientRank(c.state, c.hello.resumed);
    if !c.hello.ticket {
      ClientPass(c.hello, x, c.chain, n, c.k.transcript);
    } else if DoReadSessionTicket(c, l).1 == ReadCcs {
      ClientHash(c.hello, x, c.chain, n, c.k.transcript, c.k.inbox[0]);
    }
  }

  lemma {:induction false} ServerCcsStory(c: Client, w: Wait, x: Extras, l: Luck)
    requires ClientStory(ClientRun(c, w), x) && Callable(w) && c.state == ProcessServerCcs
    ensures ClientKeepsStory(DoProcessServerCcs(c, l), x)
  {
    hide ClientTold;
    ClientPass(c.hello, x, c.chain, ClientRank(c.state, c.hello.resumed), c.k.transcript);
  }

  /** What a client told so far has to see in the server's Finished. */
  lemma {:induction false} DueMac(h: Hello, x: Extras, chain: nat, t: seq<Msg>, body: Body)
    requires ClientTold(h, x, chain, if h.resumed then 5 else 16, t)
    requires body == Mac(true, t)
    ensures ClientTold(h, x, chain, if h.resumed then 12 else 17, t + [Msg(Finished, body)])
  {
    var n := if h.resumed then 5 else 16;
    FlowFinished(h, x, chain, n);
    KindsFinished(t);
    ResumedGapIf(h, x, chain);
    hide MacsOk, ClientBodies, Kinds, NoFinished, ClientUpTo;
    ClientHash(h, x, chain, n, t, Msg(Finished, body));
  }

  lemma {:induction false} ResumedGapIf(h: Hello, x: Extras, chain: nat)
    ensures h.resumed ==> ClientUpTo(h, x, chain, 12) == ClientUpTo(h, x, chain, 6)
  {
    if h.resumed {
      ResumedGap(h, x, chain);
    }
  }

  lemma {:induction false} ServerFinishedStory(c: Client, w: Wait, x: Extras, l: Luck)
    requires ClientStory(ClientRun(c, w), x) && Callable(w) && c.state == ReadServerFinished
    ensures ClientKeepsStory(DoReadServerFinished(c, l), x)
  {
    hide ClientTold;
    if DoReadServerFinished(c, l).1 == Ok {
      var m := c.k.inbox[0];
      assert m == Msg(Finished, m.body);
      DueMac(c.hello, x, c.chain, c.k.transcript, m.body);
    }
  }

  lemma {:induction false} FinishClientStory(c: Client, w: Wait, x: Extras, l: Luck)
    requires ClientStory(ClientRun(c, w), x) && Callable(w) && !l.fails
    requires c.state == FinishClient || c.state == ClientDone
    ensures ClientKeepsStory(ClientDo(c, l), x)
  {
    hide ClientTold;
    if c.state == FinishClient {
      ClientPass(c.hello, x, c.chain, 17, c.k.transcript);
    }
  }

  lemma {:induction false} ClientCallStory(r: ClientRun, x: Extras, l: Luck) returns (y: Extras)
    requires ClientStory(r, x) && Callable(r.wait)
    ensures ClientStory(OnClientInput(r, Call(l)), y)
  {
    hide ClientTold, DoReadServerHello, DoReadServerCertificate, DoReadCertificateStatus, DoVerifyServerCertificate,
         DoReadServerKeyExchange, DoReadCertificateRequest, DoSendClientCertificate, DoSendClientCertificateVerify,
         DoSendClientFinished, DoFinishFlight, DoReadSessionTicket, DoProcessServerCcs, DoReadServerFinished;
    y := x;
    if !l.fails {
      match r.c.state
      case StartConnect => BeginningStory(r.c, r.wait, x, l);
      case EnterEarlyData => BeginningStory(r.c, r.wait, x, l);
      case ReadServerHello => ServerHelloStory(r.c, r.wait, x, l);
      case ReadServerCertificate => ServerCertificateStory(r.c, r.wait, x, l);
      case ReadCertificateStatus => y := CertificateStatusStory(r.c, r.wait, x, l);
      case VerifyServerCertificate => VerifyCertificateStory(r.c, r.wait, x, l);
      case ReadServerKeyExchange => y := ServerKeyExchangeStory(r.c, r.wait, x, l);
      case ReadCertificateRequest => y := CertificateRequestStory(r.c, r.wait, x, l);
      case ReadServerHelloDone => ServerHelloDoneStory(r.c, r.wait, x, l);
      case SendClientCertificate => ClientCertificateStory(r.c, r.wait, x, l);
      case SendClientKeyExchange => ClientKeyExchangeStory(r.c, r.wait, x, l);
      case SendClientCertificateVerify => ClientVerifyStory(r.c, r.wait, x, l);
      case SendClientFinished => ClientFlightStory(r.c, r.wait, x, l);
      case FinishFlight => FinishFlightStory(r.c, r.wait, x, l);
      case ReadSessionTicket => SessionTicketStory(r.c, r.wait, x, l);
      case ProcessServerCcs => ServerCcsStory(r.c, r.wait, x, l);
      case ReadServerFinished => ServerFinishedStory(r.c, r.wait, x, l);
      case FinishClient => FinishClientStory(r.c, r.wait, x, l);
      case ClientDone => FinishClientStory(r.c, r.wait, x, l);
    }
  }

  lemma {:induction false} ClientResolveStory(r: ClientRun, x: Extras, i: Input)
    requires ClientStory(r, x) && !i.Call?
    ensures ClientStory(OnClientInput(r, i), x)
  {
    hide ClientTold;
  }

  /** In every state of every run the client's transcript is the flow so far, with some extras. */
  lemma {:induction false} ClientTranscript(chain: nat, ins: seq<Input>) returns (x: Extras)
    ensures ClientStory(RunClient(chain, ins), x) && RunClient(chain, ins).c.chain == chain
    decreases |ins|
  {
    if ins == [] {
      x := Extras(false, false, false);
      assert RunClient(chain, ins) == ClientRun(NewClient(chain), Ok);
    } else {
      hide ClientStory, ClientDo;
      var pre, i := ins[..|ins| - 1], ins[|ins| - 1];
      x := ClientTranscript(chain, pre);
      var r := RunClient(chain, pre);
      if i.Call? {
        ClientChainKept(r.c, i.l);
        if Callable(r.wait) {
          x := ClientCallStory(r, x, i.l);
        }
      } else {
        ClientResolveStory(r, x, i);
      }
    }
  }

  lemma {:induction false} ClientChainKept(c: Client, l: Luck)
    ensures ClientDo(c, l).0.chain == c.chain
  {
    hide HashNext, Add, ChangeWrite, ChangeRead, CheckFinished, ClientFinishedFlight, FinishedOk;
  }

  /** The client is behind its check of the server's Finished. */
  predicate ClientBehindCheck(st: ClientState, resumed: bool) {
    st.FinishClient? || st.ClientDone? || (resumed && (st.SendClientFinished? || st.FinishFlight?))
  }

  /** A client that got past the check has a Finished of the server over all that it had hashed itself. */
  lemma {:induction false} ClientChecked(chain: nat, ins: seq<Input>) returns (i: nat)
    requires var c := RunClient(chain, ins).c; ClientBehindCheck(c.state, c.hello.resumed)
    ensures var t := RunClient(chain, ins).c.k.transcript;
            i < |t| && t[i] == Msg(Finished, Mac(true, t[..i]))
  {
    var x := ClientTranscript(chain, ins);
    var c := RunClient(chain, ins).c;
    hide RunClient, ClientUpTo, ClientFlow;
    i := FinishedOfServer(c.hello, x, chain, ClientRank(c.state, c.hello.resumed), c.k.transcript);
  }

  lemma {:induction false} FinishedOfServer(h: Hello, x: Extras, chain: nat, n: nat, t: seq<Msg>) returns (i: nat)
    requires ClientTold(h, x, chain, n, t) && (if h.resumed then 12 <= n <= 18 else 17 <= n <= 18)
    ensures i < |t| && t[i] == Msg(Finished, Mac(true, t[..i]))
  {
    var m := if h.resumed then 6 else 17;
    UpToPrefix(h, x, chain, m, n);
    i := |ClientUpTo(h, x, chain, m)| - 1;
    assert ClientUpTo(h, x, chain, m) == ClientUpTo(h, x, chain, m - 1) + [Finished];
    assert Kinds(t)[i] == Finished;
    var ks := ClientUpTo(h, x, chain, m - 1);
    forall j | 0 <= j < i ensures Kinds(t[..i])[j] == ks[j] {
      assert Kinds(t)[j] == ClientUpTo(h, x, chain, n)[j] == ClientUpTo(h, x, chain, m)[j];
    }
    assert Kinds(t[..i]) == ks;
    FlowFinished(h, x, chain, m - 1);
    KindsFinished(t[..i]);
  }

  lemma {:induction false} UpToPrefix(h: Hello, x: Extras, chain: nat, m: nat, n: nat)
    requires m <= n
    ensures ClientUpTo(h, x, chain, m) <= ClientUpTo(h, x, chain, n)
    decreases n - m
  {
    if m < n {
      UpToPrefix(h, x, chain, m, n - 1);
    }
  }

  /** The handshake returns early in one place only: behind the client's own flight of a full handshake,
      and there exactly when False Start is allowed. */
  lemma {:induction false} EarlyReturnExact(c: Client, l: Luck)
    ensures ClientDo(c, l).1 == EarlyReturn <==> !l.fails && c.state == FinishFlight && !c.hello.resumed && l.falseStart
  {
    hide HashNext, Add, ChangeWrite, ChangeRead, CheckFinished, ClientFinishedFlight, FinishedOk;
  }

  /** The read cipher never changes over an unread message. */
  lemma {:induction false} ClientCipherChangesClean(c: Client, l: Luck)
    ensures !c.k.readOn && ClientDo(c, l).0.k.readOn ==> c.k.inbox == []
  {
    hide FinishedOk;
  }

  lemma {:induction false} ServerCipherChangesClean(s: Server, l: Luck)
    ensures !s.k.readOn && ServerDo(s, l).0.k.readOn ==> s.k.inbox == []
  {
    hide FinishedOk;
  }

  // ----- the server

  /** The messages a server hashes in the state of rank i. */
  function ServerFlow(p: Params, chain: nat, i: nat): seq<Kind> {
    var h := p.hello;
    if i == 3 then [ClientHello]
    else if i == 4 then [ServerHello]
    else if i == 14 then If(h.npn, NextProto)
    else if i == 15 then If(h.channelId, ChannelId)
    else if i == 16 then [Finished]
    else if h.resumed then
      if i == 5 then If(h.ticket, NewSessionTicket) + [Finished] else []
    else if i == 5 then If(h.certCipher, Certificate) + If(h.certCipher && h.status, CertificateStatus)
    else if i == 6 then If(h.skeRequired || p.hint, ServerKeyExchange)
    else if i == 7 then If(p.certRequest, CertificateRequest) + [ServerHelloDone]
    else if i == 8 then If(p.certRequest, Certificate)
    else if i == 10 then [ClientKeyExchange]
    else if i == 11 then If(chain > 0, CertificateVerify)
    else if i == 17 then If(h.ticket, NewSessionTicket) + [Finished]
    else []
  }

  function ServerUpTo(p: Params, chain: nat, n: nat): seq<Kind> {
    if n == 0 then [] else ServerUpTo(p, chain, n - 1) + ServerFlow(p, chain, n - 1)
  }

  /** The client's chain does not matter before its CertificateVerify is due. */
  lemma {:induction false} ServerUpToKnown(p: Params, chain: nat, other: nat, n: nat)
    requires n <= 11
    ensures ServerUpTo(p, chain, n) == ServerUpTo(p, other, n)
  {
    if n > 0 {
      ServerUpToKnown(p, chain, other, n - 1);
    }
  }

  /** Between m and n nothing is hashed. */
  lemma {:induction false} ServerGap(p: Params, chain: nat, m: nat, n: nat)
    requires p.hello.resumed && ((6 <= m <= n <= 12) || (17 <= m <= n))
    ensures ServerUpTo(p, chain, n) == ServerUpTo(p, chain, m)
    decreases n - m
  {
    if m < n {
      ServerGap(p, chain, m, n - 1);
    }
  }

  lemma {:induction false} ServerFlowFinished(p: Params, chain: nat, n: nat)
    requires n <= 19
    ensures Finished in ServerUpTo(p, chain, n) <==> n > 16 || (p.hello.resumed && n > 5)
  {
    if n > 0 {
      ServerFlowFinished(p, chain, n - 1);
      assert Finished in ServerFlow(p, chain, n - 1) <==> n == 17 || (if p.hello.resumed then n == 6 else n == 18);
    }
  }

  lemma {:induction false} ServerStart(p: Params, chain: nat)
    ensures ServerUpTo(p, chain, 3) == [] && ServerUpTo(p, chain, 4) == [ClientHello]
    ensures ServerUpTo(p, chain, 5) == [ClientHello, ServerHello]
  {
    assert ServerUpTo(p, chain, 1) == [];
    assert ServerUpTo(p, chain, 3) == [];
    assert ServerUpTo(p, chain, 4) == [ClientHello];
  }

  /** Up to the client's certificate only the server's own is there, right behind the hellos. */
  lemma {:induction false} OwnCertificate(p: Params, chain: nat, n: nat, j: nat)
    requires n <= 8 && j < |ServerUpTo(p, chain, n)| && ServerUpTo(p, chain, n)[j] == Certificate
    ensures j == 2
  {
    ServerStart(p, chain);
    if n > 5 {
      var ks := ServerUpTo(p, chain, n - 1);
      assert ServerUpTo(p, chain, n) == ks + ServerFlow(p, chain, n - 1);
      hide ServerUpTo;
      if j < |ks| {
        OwnCertificate(p, chain, n - 1, j);
      }
    } else if n < 3 {
      NothingYet(p, chain, n);
    }
  }

  lemma {:induction false} NothingYet(p: Params, chain: nat, n: nat)
    requires n < 3
    ensures ServerUpTo(p, chain, n) == []
  {
    if n > 0 {
      NothingYet(p, chain, n - 1);
    }
  }

  lemma {:induction false} HellosFirst(p: Params, chain: nat, n: nat)
    requires 5 <= n <= 19
    ensures |ServerUpTo(p, chain, n)| >= 2 && (n == 5 ==> |ServerUpTo(p, chain, n)| == 2)
    ensures n >= 8 && !p.hello.resumed ==> |ServerUpTo(p, chain, n)| > 2
  {
    if n > 5 {
      HellosFirst(p, chain, n - 1);
    } else {
      ServerStart(p, chain);
    }
  }

  /** The ServerHello has the parameters, the server shows one certificate, the client the chain the server knows. */
  ghost predicate ServerBodies(p: Params, chain: nat, t: seq<Msg>) {
    forall i :: 0 <= i < |t| ==>
      && (t[i].kind == ServerHello ==> t[i].body == Parameters(p.hello))
      && (t[i].kind == Certificate ==> t[i].body == Certs(if i == 2 then 1 else chain))
  }

  lemma {:induction false} ServerBodiesSnoc(p: Params, chain: nat, t: seq<Msg>, m: Msg)
    requires ServerBodies(p, chain, t)
    requires m.kind == ServerHello ==> m.body == Parameters(p.hello)
    requires m.kind == Certificate ==> m.body == Certs(if |t| == 2 then 1 else chain)
    ensures ServerBodies(p, chain, t + [m])
  {
  }

  ghost predicate ServerTold(p: Params, chain: nat, ks: seq<Kind>, t: seq<Msg>) {
    && Kinds(t) == ks
    && MacsOk(p.hello.resumed, t)
    && ServerBodies(p, chain, t)
  }

  ghost predicate ServerStory(r: ServerRun) {
    var s := r.s;
    && ServerTold(s.p, s.chain, ServerUpTo(s.p, s.chain, ServerRank(s.state, s.p.hello.resumed)), s.k.transcript)
    && (s.p.hello.resumed ==> !FullOnlyState(s.state))
    && (BeforeChain(s.state) || s.p.hello.resumed || !s.p.certRequest ==> s.chain == 0)
  }

  lemma {:induction false} ServerHash(p: Params, chain: nat, ks: seq<Kind>, t: seq<Msg>, m: Msg)
    requires ServerTold(p, chain, ks, t)
    requires m.kind == Finished ==> m.body == Mac(p.hello.resumed == NoFinished(t), t)
    requires m.kind == ServerHello ==> m.body == Parameters(p.hello)
    requires m.kind == Certificate ==> m.body == Certs(if |t| == 2 then 1 else chain)
    ensures ServerTold(p, chain, ks + [m.kind], t + [m])
  {
    hide MacsOk, ServerBodies;
    KindsSnoc(t, m);
    MacsSnoc(p.hello.resumed, t, m);
    ServerBodiesSnoc(p, chain, t, m);
  }

  /** A message that is sent on a condition. */
  lemma {:induction false} ServerHashIf(p: Params, chain: nat, ks: seq<Kind>, t: seq<Msg>, b: bool, m: Msg)
    requires ServerTold(p, chain, ks, t) && m.kind != Finished && m.kind != ServerHello
    requires b && m.kind == Certificate ==> m.body == Certs(if |t| == 2 then 1 else chain)
    ensures ServerTold(p, chain, ks + If(b, m.kind), if b then t + [m] else t)
  {
    hide MacsOk, ServerBodies, Kinds;
    if b {
      ServerHash(p, chain, ks, t, m);
    } else {
      assert ks + [] == ks;
    }
  }

  lemma {:induction false} ServerStep(p: Params, chain: nat, n: nat)
    ensures ServerUpTo(p, chain, n + 1) == ServerUpTo(p, chain, n) + ServerFlow(p, chain, n)
  {
  }

  lemma {:induction false} Concat(a: seq<Kind>, b: seq<Kind>, c: seq<Kind>)
    ensures a + b + c == a + (b + c) && a + [] == a
  {
  }

  ghost predicate ServerKeepsStory(step: (Server, Wait)) {
    ServerStory(ServerRun(step.0, step.1))
  }

  lemma {:induction false} ServerHelloOfClientStory(s: Server, w: Wait, l: Luck)
    requires ServerStory(ServerRun(s, w)) && Callable(w) && !l.fails
    requires s.state == StartAccept || s.state == ReadClientHello || s.state == SelectCertificate || s.state == SelectParameters
    ensures ServerKeepsStory(ServerDo(s, l))
  {
    hide ServerTold;
    var n := ServerRank(s.state, s.p.hello.resumed);
    ServerStep(s.p, s.chain, n);
    var ks := ServerUpTo(s.p, s.chain, n);
    Concat(ks, [], []);
    if s.state == SelectParameters && ServerDo(s, l).1 == Ok {
      ServerHash(s.p, s.chain, ks, s.k.transcript, s.k.inbox[0]);
    }
  }

  lemma {:induction false} SendServerHelloStory(s: Server, w: Wait, l: Luck)
    requires ServerStory(ServerRun(s, w)) && Callable(w) && s.state == SendServerHello
    ensures ServerKeepsStory(DoSendServerHello(s, l))
  {
    hide ServerTold;
    ServerHash(s.p, s.chain, ServerUpTo(s.p, s.chain, 4), s.k.transcript, Msg(ServerHello, Parameters(s.p.hello)));
  }

  lemma {:induction false} SendServerCertificateStory(s: Server, w: Wait, l: Luck)
    requires ServerStory(ServerRun(s, w)) && Callable(w) && s.state == SendServerCertificate
    ensures ServerKeepsStory(DoSendServerCertificate(s, l))
  {
    var p, t, ks := s.p, s.k.transcript, ServerUpTo(s.p, s.chain, 5);
    assert Kinds(t) == ks;
    HellosFirst(p, s.chain, 5);
    hide ServerTold, Kinds;
    var cert, status := p.hello.certCipher, p.hello.certCipher && p.hello.status;
    ServerHashIf(p, s.chain, ks, t, cert, Msg(Certificate, Certs(1)));
    var t1 := if cert then t + [Msg(Certificate, Certs(1))] else t;
    ServerHashIf(p, s.chain, ks + If(cert, Certificate), t1, status, Msg(CertificateStatus, Data(l.bytes)));
    ServerStep(p, s.chain, 5);
    Concat(ks, If(cert, Certificate), If(status, CertificateStatus));
  }

  lemma {:induction false} SendServerKeyExchangeStory(s: Server, w: Wait, l: Luck)
    requires ServerStory(ServerRun(s, w)) && Callable(w) && s.state == SendServerKeyExchange
    ensures ServerKeepsStory(DoSendServerKeyExchange(s, l))
  {
    hide ServerTold;
    var ks := ServerUpTo(s.p, s.chain, 6);
    ServerStep(s.p, s.chain, 6);
    ServerHashIf(s.p, s.chain, ks, s.k.transcript, s.p.hello.skeRequired || s.p.hint, Msg(ServerKeyExchange, Data(l.bytes)));
  }

  lemma {:induction false} SendServerHelloDoneStory(s: Server, w: Wait, l: Luck)
    requires ServerStory(ServerRun(s, w)) && Callable(w) && s.state == SendServerHelloDone
    ensures ServerKeepsStory(DoSendServerHelloDone(s, l))
  {
    hide ServerTold;
    var p, t, ks := s.p, s.k.transcript, ServerUpTo(s.p, s.chain, 7);
    ServerHashIf(p, s.chain, ks, t, p.certRequest, Msg(CertificateRequest, Data(l.bytes)));
    var t1 := if p.certRequest then t + [Msg(CertificateRequest, Data(l.bytes))] else t;
    ServerHash(p, s.chain, ks + If(p.certRequest, CertificateRequest), t1, Msg(ServerHelloDone, Data([])));
    ServerStep(p, s.chain, 7);
    Concat(ks, If(p.certRequest, CertificateRequest), [ServerHelloDone]);
  }

  /** The chain of the client becomes known. */
  lemma {:induction false} ChainKnown(p: Params, t: seq<Msg>, chain: nat)
    requires ServerTold(p, 0, ServerUpTo(p, 0, 8), t)
    ensures ServerTold(p, chain, ServerUpTo(p, chain, 8), t)
  {
    hide MacsOk, ServerUpTo;
    ServerUpToKnown(p, chain, 0, 8);
    forall i | 0 <= i < |t| && t[i].kind == Certificate ensures i == 2 {
      assert Kinds(t)[i] == Certificate;
      OwnCertificate(p, 0, 8, i);
    }
  }

  lemma {:induction false} ReadClientCertificateStory(s: Server, w: Wait, l: Luck)
    requires ServerStory(ServerRun(s, w)) && Callable(w) && s.state == ReadClientCertificate
    ensures ServerKeepsStory(DoReadClientCertificate(s, l))
  {
    var p, t := s.p, s.k.transcript;
    var (d, w') := DoReadClientCertificate(s, l);
    assert Kinds(t) == ServerUpTo(p, 0, 8);
    HellosFirst(p, 0, 8);
    hide ServerTold, Kinds, ServerUpTo;
    if w' == Ok {
      ChainKnown(p, t, d.chain);
      ServerStep(p, d.chain, 8);
      ServerHashIf(p, d.chain, ServerUpTo(p, d.chain, 8), t, p.certRequest, Msg(Certificate, Certs(d.chain)));
    }
  }

  lemma {:induction false} VerifyClientCertificateStory(s: Server, w: Wait, l: Luck)
    requires ServerStory(ServerRun(s, w)) && Callable(w) && s.state == VerifyClientCertificate
    ensures ServerKeepsStory(DoVerifyClientCertificate(s, l))
  {
    hide ServerTold;
    ServerStep(s.p, s.chain, 9);
    Concat(ServerUpTo(s.p, s.chain, 9), [], []);
  }

  lemma {:induction false} ReadClientKeysStory(s: Server, w: Wait, l: Luck)
    requires ServerStory(ServerRun(s, w)) && Callable(w) && !l.fails
    requires s.state == ReadClientKeyExchange || s.state == ReadClientCertificateVerify
    ensures ServerKeepsStory(ServerDo(s, l))
  {
    hide ServerTold;
    var n := ServerRank(s.state, false);
    var ks := ServerUpTo(s.p, s.chain, n);
    ServerStep(s.p, s.chain, n);
    Concat(ks, [], []);
    if ServerDo(s, l).1 == Ok && ServerDo(s, l).0.k.transcript != s.k.transcript {
      ServerHash(s.p, s.chain, ks, s.k.transcript, s.k.inbox[0]);
    }
  }

  lemma {:induction false} ClientCcsStory(s: Server, w: Wait, l: Luck)
    requires ServerStory(ServerRun(s, w)) && Callable(w) && !l.fails
    requires s.state == ReadClientCcs || s.state == ProcessClientCcs
    ensures ServerKeepsStory(ServerDo(s, l))
  {
    hide ServerTold;
    var n := ServerRank(s.state, false);
    ServerStep(s.p, s.chain, n);
    Concat(ServerUpTo(s.p, s.chain, n), [], []);
  }

  lemma {:induction false} ReadNextProtoStory(s: Server, w: Wait, l: Luck)
    requires ServerStory(ServerRun(s, w)) && Callable(w) && s.state == ReadNextProto
    ensures ServerKeepsStory(DoReadNextProto(s, l))
  {
    hide ServerTold, ServerUpTo;
    var ks := ServerUpTo(s.p, s.chain, 14);
    ServerStep(s.p, s.chain, 14);
    Concat(ks, [], []);
    if s.p.hello.npn && DoReadNextProto(s, l).1 == Ok {
      ServerHash(s.p, s.chain, ks, s.k.transcript, s.k.inbox[0]);
    }
  }

  lemma {:induction false} ReadChannelIdStory(s: Server, w: Wait, l: Luck)
    requires ServerStory(ServerRun(s, w)) && Callable(w) && s.state == ReadChannelId
    ensures ServerKeepsStory(DoReadChannelId(s, l))
  {
    hide ServerTold, ServerUpTo;
    var ks := ServerUpTo(s.p, s.chain, 15);
    ServerStep(s.p, s.chain, 15);
    Concat(ks, [], []);
    if s.p.hello.channelId && DoReadChannelId(s, l).1 == Ok {
      ServerHash(s.p, s.chain, ks, s.k.transcript, s.k.inbox[0]);
    }
  }

  /** Who has to be in the MAC of the Finished at rank n, 16 for the client's. */
  lemma {:induction false} ServerDueMac(p: Params, chain: nat, n: nat, t: seq<Msg>)
    requires ServerTold(p, chain, ServerUpTo(p, chain, n), t)
    requires n == 16 || n == if p.hello.resumed then 5 else 17
    ensures (p.hello.resumed == NoFinished(t)) == (n != 16)
  {
    ServerFlowFinished(p, chain, n);
    KindsFinished(t);
  }

  lemma {:induction false} ReadClientFinishedStory(s: Server, w: Wait, l: Luck)
    requires ServerStory(ServerRun(s, w)) && Callable(w) && s.state == ReadClientFinished
    ensures ServerKeepsStory(DoReadClientFinished(s, l))
  {
    hide ServerTold, NoFinished;
    if DoReadClientFinished(s, l).1 == Ok {
      var ks := ServerUpTo(s.p, s.chain, 16);
      ServerDueMac(s.p, s.chain, 16, s.k.transcript);
      ServerHash(s.p, s.chain, ks, s.k.transcript, s.k.inbox[0]);
      ServerStep(s.p, s.chain, 16);
      if s.p.hello.resumed {
        ServerGap(s.p, s.chain, 17, 18);
      }
    }
  }

  /** What the server's last flight hashes behind t. */
  function TicketOf(p: Params, t: seq<Msg>, bytes: seq<byte>): seq<Msg> {
    if p.hello.ticket then t + [Msg(NewSessionTicket, Data(bytes))] else t
  }

  lemma {:induction false} ServerFlightHashes(s: Server, l: Luck)
    ensures var u := TicketOf(s.p, s.k.transcript, l.bytes);
            DoSendServerFinished(s, l).0.k.transcript == u + [Msg(Finished, Mac(true, u))]
  {
  }

  lemma {:induction false} ServerFlightTold(p: Params, chain: nat, n: nat, t: seq<Msg>, bytes: seq<byte>)
    requires ServerTold(p, chain, ServerUpTo(p, chain, n), t) && n == if p.hello.resumed then 5 else 17
    ensures var u := TicketOf(p, t, bytes);
            ServerTold(p, chain, ServerUpTo(p, chain, n + 1), u + [Msg(Finished, Mac(true, u))])
  {
    ServerDueMac(p, chain, n, t);
    TicketKeeps(t, bytes);
    hide ServerTold, NoFinished, ServerUpTo;
    var ks, ticket, u := ServerUpTo(p, chain, n), Msg(NewSessionTicket, Data(bytes)), TicketOf(p, t, bytes);
    ServerHashIf(p, chain, ks, t, p.hello.ticket, ticket);
    ServerHash(p, chain, ks + If(p.hello.ticket, NewSessionTicket), u, Msg(Finished, Mac(true, u)));
    ServerStep(p, chain, n);
    Concat(ks, If(p.hello.ticket, NewSessionTicket), [Finished]);
  }

  lemma {:induction false} SendServerFinishedStory(s: Server, w: Wait, l: Luck)
    requires ServerStory(ServerRun(s, w)) && Callable(w) && s.state == SendServerFinished
    ensures ServerKeepsStory(DoSendServerFinished(s, l))
  {
    ServerFlightHashes(s, l);
    hide ServerTold, ServerUpTo, TicketOf, SendFinished, ChangeWrite, Add;
    ServerFlightTold(s.p, s.chain, ServerRank(s.state, s.p.hello.resumed), s.k.transcript, l.bytes);
    if s.p.hello.resumed {
      ServerGap(s.p, s.chain, 6, 12);
    }
  }

  lemma {:induction false} TicketKeeps(t: seq<Msg>, bytes: seq<byte>)
    ensures NoFinished(t + [Msg(NewSessionTicket, Data(bytes))]) <==> NoFinished(t)
  {
    var u := t + [Msg(NewSessionTicket, Data(bytes))];
    assert forall i :: 0 <= i < |t| ==> u[i] == t[i];
  }

  lemma {:induction false} FinishServerStory(s: Server, w: Wait, l: Luck)
    requires ServerStory(ServerRun(s, w)) && Callable(w) && !l.fails
    requires s.state == FinishServer || s.state == ServerDone
    ensures ServerKeepsStory(ServerDo(s, l))
  {
    hide ServerTold;
    ServerStep(s.p, s.chain, 18);
    Concat(ServerUpTo(s.p, s.chain, 18), [], []);
  }

  lemma {:induction false} ServerCallStory(r: ServerRun, l: Luck)
    requires ServerStory(r) && Callable(r.wait)
    ensures ServerStory(OnServerInput(r, Call(l)))
  {
    hide ServerTold, DoSelectParameters, DoSendServerHello, DoSendServerCertificate, DoSendServerKeyExchange,
         DoSendServerHelloDone, DoReadClientCertificate, DoVerifyClientCertificate, DoReadClientKeyExchange,
         DoReadClientCertificateVerify, DoProcessClientCcs, DoReadNextProto, DoReadChannelId, DoReadClientFinished,
         DoSendServerFinished;
    if !l.fails {
      match r.s.state
      case StartAccept => ServerHelloOfClientStory(r.s, r.wait, l);
      case ReadClientHello => ServerHelloOfClientStory(r.s, r.wait, l);
      case SelectCertificate => ServerHelloOfClientStory(r.s, r.wait, l);
      case SelectParameters => ServerHelloOfClientStory(r.s, r.wait, l);
      case SendServerHello => SendServerHelloStory(r.s, r.wait, l);
      case SendServerCertificate => SendServerCertificateStory(r.s, r.wait, l);
      case SendServerKeyExchange => SendServerKeyExchangeStory(r.s, r.wait, l);
      case SendServerHelloDone => SendServerHelloDoneStory(r.s, r.wait, l);
      case ReadClientCertificate => ReadClientCertificateStory(r.s, r.wait, l);
      case VerifyClientCertificate => VerifyClientCertificateStory(r.s, r.wait, l);
      case ReadClientKeyExchange => ReadClientKeysStory(r.s, r.wait, l);
      case ReadClientCertificateVerify => ReadClientKeysStory(r.s, r.wait, l);
      case ReadClientCcs => ClientCcsStory(r.s, r.wait, l);
      case ProcessClientCcs => ClientCcsStory(r.s, r.wait, l);
      case ReadNextProto => ReadNextProtoStory(r.s, r.wait, l);
      case ReadChannelId => ReadChannelIdStory(r.s, r.wait, l);
      case ReadClientFinished => ReadClientFinishedStory(r.s, r.wait, l);
      case SendServerFinished => SendServerFinishedStory(r.s, r.wait, l);
      case FinishServer => FinishServerStory(r.s, r.wait, l);
      case ServerDone => FinishServerStory(r.s, r.wait, l);
    }
  }

  lemma {:induction false} ServerResolveStory(r: ServerRun, i: Input)
    requires ServerStory(r) && !i.Call?
    ensures ServerStory(OnServerInput(r, i))
  {
    hide ServerTold;
  }

  lemma {:induction false} NewServerStory(p: Params)
    ensures ServerStory(ServerRun(NewServer(p), Ok))
  {
  }

  /** In every state of every run the server's transcript is the flow so far. */
  lemma {:induction false} ServerTranscript(p: Params, ins: seq<Input>)
    ensures ServerStory(RunServer(p, ins)) && RunServer(p, ins).s.p == p
    decreases |ins|
  {
    hide ServerStory, ServerDo;
    if ins == [] {
      NewServerStory(p);
      assert RunServer(p, ins) == ServerRun(NewServer(p), Ok);
    } else {
      var pre, i := ins[..|ins| - 1], ins[|ins| - 1];
      ServerTranscript(p, pre);
      var r := RunServer(p, pre);
      ParamsKept(r, i);
      if i.Call? {
        if Callable(r.wait) {
          ServerCallStory(r, i.l);
        }
      } else {
        ServerResolveStory(r, i);
      }
    }
  }

  predicate ServerBehindCheck(st: ServerState, resumed: bool) {
    st.FinishServer? || st.ServerDone? || (!resumed && st.SendServerFinished?)
  }

  /** A server that got past the check has a Finished of the client over all that it had hashed itself. */
  lemma {:induction false} ServerChecked(p: Params, ins: seq<Input>) returns (i: nat)
    requires ServerBehindCheck(RunServer(p, ins).s.state, p.hello.resumed)
    ensures var t := RunServer(p, ins).s.k.transcript;
            i < |t| && t[i] == Msg(Finished, Mac(false, t[..i]))
  {
    ServerTranscript(p, ins);
    var s := RunServer(p, ins).s;
    hide RunServer, ServerUpTo, ServerFlow;
    i := FinishedOfClient(p, s.chain, ServerRank(s.state, p.hello.resumed), s.k.transcript);
  }

  lemma {:induction false} ServerUpToPrefix(p: Params, chain: nat, m: nat, n: nat)
    requires m <= n
    ensures ServerUpTo(p, chain, m) <= ServerUpTo(p, chain, n)
    decreases n - m
  {
    if m < n {
      ServerUpToPrefix(p, chain, m, n - 1);
    }
  }

  lemma {:induction false} FinishedOfClient(p: Params, chain: nat, n: nat, t: seq<Msg>) returns (i: nat)
    requires ServerTold(p, chain, ServerUpTo(p, chain, n), t) && 17 <= n <= 19
    ensures i < |t| && t[i] == Msg(Finished, Mac(false, t[..i]))
  {
    ServerUpToPrefix(p, chain, 17, n);
    var ks := ServerUpTo(p, chain, 16);
    i := |ks|;
    assert ServerUpTo(p, chain, 17) == ks + [Finished];
    assert Kinds(t)[i] == Finished;
    forall j | 0 <= j < i ensures Kinds(t[..i])[j] == ks[j] {
      assert Kinds(t)[j] == ServerUpTo(p, chain, n)[j] == ServerUpTo(p, chain, 17)[j];
    }
    assert Kinds(t[..i]) == ks;
    ServerFlowFinished(p, chain, 16);
    KindsFinished(t[..i]);
  }
}
