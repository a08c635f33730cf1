/**
 * The TLS 1.0-1.2 handshake machines: one function per machine, one case per do_* step.
 * Cryptography is abstract: a Finished body is the transcript it authenticates, and what
 * lies outside the machines (keys, callbacks, certificate checks, parsing of bodies) is
 * the luck of a step.
 */
module TlsMachines {
  import opened Prelude

  datatype Kind =
    | ClientHello | ServerHello | Certificate | CertificateStatus | ServerKeyExchange
    | CertificateRequest | ServerHelloDone | ClientKeyExchange | CertificateVerify
    | NextProto | ChannelId | NewSessionTicket | Finished

  /** What a ServerHello settles: the session is resumed, the cipher's authentication and key exchange, the extensions. */
  datatype Hello = Hello(resumed: bool, certCipher: bool, skeRequired: bool, status: bool, ticket: bool, npn: bool, channelId: bool)

  datatype Body =
    | Data(bytes: seq<byte>)
    | Parameters(hello: Hello)
    | Certs(chain: nat)
    | Mac(fromServer: bool, over: seq<Msg>)

  datatype Msg = Msg(kind: Kind, body: Body)

  datatype Item = Hs(m: Msg) | Ccs

  /** A record: what it carries and whether the negotiated cipher protects it. */
  datatype Record = Record(item: Item, protected: bool)

  /** ssl_hs_wait_t, without the values of TLS 1.3; Retry stands for all the waits on the application. */
  datatype Wait = Ok | Error | Flush | ReadMessage | ReadCcs | Retry | EarlyReturn

  /** How the world treats a step: an outside failure, a request to be called again, False Start, random contents. */
  datatype Luck = Luck(fails: bool, retries: bool, falseStart: bool, bytes: seq<byte>)

  datatype Event = CertVerified | CcsRead | ReadCipherOn | FinishedChecked | WriteCipherOn | FinishedSent

  /** The events of a run, latest last. */
  datatype Log = Nothing | Then(before: Log, e: Event)

  /** What the two machines have in common: transcript, pending flight, unread messages, cipher states. */
  datatype Core = Core(transcript: seq<Msg>, flight: seq<Record>, inbox: seq<Msg>, readOn: bool, writeOn: bool, log: Log)

  const FRESH := Core([], [], [], false, false, Nothing)

  /** ssl_add_message_cbb: into the transcript and the flight. */
  function Add(k: Core, m: Msg): Core {
    k.(transcript := k.transcript + [m], flight := k.flight + [Record(Hs(m), k.writeOn)])
  }

  /** add_change_cipher_spec and tls1_change_cipher_state for sealing */
  function ChangeWrite(k: Core): Core {
    k.(flight := k.flight + [Record(Ccs, k.writeOn)], writeOn := true, log := Then(k.log, WriteCipherOn))
  }

  /** tls1_change_cipher_state for opening */
  function ChangeRead(k: Core): Core {
    k.(readOn := true, log := Then(k.log, ReadCipherOn))
  }

  /** ssl_hash_message and next_message */
  function HashNext(k: Core): Core
    requires k.inbox != []
  {
    k.(transcript := k.transcript + [k.inbox[0]], inbox := k.inbox[1..])
  }

  predicate NextIs(k: Core, kind: Kind) {
    k.inbox != [] && k.inbox[0].kind == kind
  }

  /** ssl_send_finished */
  function SendFinished(k: Core, server: bool): Core {
    var sent := Add(k, Msg(Finished, Mac(server, k.transcript)));
    sent.(log := Then(sent.log, FinishedSent))
  }

  /** The check of ssl_get_finished: the MAC covers the transcript before the message. */
  predicate FinishedOk(k: Core, server: bool) {
    NextIs(k, Finished) && k.inbox[0].body == Mac(!server, k.transcript)
  }

  function CheckFinished(k: Core): Core
    requires k.inbox != []
  {
    HashNext(k).(log := Then(k.log, FinishedChecked))
  }

  // ----- handshake_client.cc

  datatype ClientState =
    | StartConnect | EnterEarlyData | ReadServerHello | ReadServerCertificate | ReadCertificateStatus
    | VerifyServerCertificate | ReadServerKeyExchange | ReadCertificateRequest | ReadServerHelloDone
    | SendClientCertificate | SendClientKeyExchange | SendClientCertificateVerify | SendClientFinished
    | FinishFlight | ReadSessionTicket | ProcessServerCcs | ReadServerFinished | FinishClient | ClientDone

  /** chain is the length of the client's own certificate chain. */
  datatype Client = Client(state: ClientState, k: Core, hello: Hello, certRequest: bool, chain: nat)

  const NO_HELLO := Hello(false, false, false, false, false, false, false)

  function NewClient(chain: nat): Client {
    Client(StartConnect, FRESH, NO_HELLO, false, chain)
  }

  /** Reads one message of the given kind, hashes it and goes on. */
  function ClientReads(c: Client, kind: Kind, next: ClientState, wait: Wait): (Client, Wait) {
    if c.k.inbox == [] then (c, ReadMessage)
    else if c.k.inbox[0].kind != kind then (c, Error)
    else (c.(k := HashNext(c.k), state := next), wait)
  }

  /** The flight that ends with the client's Finished. */
  function ClientFinishedFlight(c: Client, l: Luck): Core {
    var k0 := ChangeWrite(c.k);
    var k1 := if c.hello.npn then Add(k0, Msg(NextProto, Data(l.bytes))) else k0;
    var k2 := if c.hello.channelId then Add(k1, Msg(ChannelId, Data(l.bytes))) else k1;
    SendFinished(k2, false)
  }

  function DoReadServerHello(c: Client, l: Luck): (Client, Wait) {
    if c.k.inbox == [] then (c, ReadMessage)
    else
      var m := c.k.inbox[0];
      if m.kind != ServerHello || !m.body.Parameters? || (m.body.hello.status && !m.body.hello.certCipher) then (c, Error)
      else
        (c.(k := HashNext(c.k), hello := m.body.hello,
            state := if m.body.hello.resumed then ReadSessionTicket else ReadServerCertificate), Ok)
  }

  function DoReadServerCertificate(c: Client, l: Luck): (Client, Wait) {
    if !c.hello.certCipher then (c.(state := ReadCertificateStatus), Ok)
    else if NextIs(c.k, Certificate) && !(c.k.inbox[0].body.Certs? && c.k.inbox[0].body.chain > 0) then (c, Error)
    else ClientReads(c, Certificate, ReadCertificateStatus, Ok)
  }

  function DoReadCertificateStatus(c: Client, l: Luck): (Client, Wait) {
    if !c.hello.status then (c.(state := VerifyServerCertificate), Ok)
    else if c.k.inbox != [] && !NextIs(c.k, CertificateStatus) then (c.(state := VerifyServerCertificate), Ok)
    else ClientReads(c, CertificateStatus, VerifyServerCertificate, Ok)
  }

  function DoVerifyServerCertificate(c: Client, l: Luck): (Client, Wait) {
    if !c.hello.certCipher then (c.(state := ReadServerKeyExchange), Ok)
    else if l.retries then (c, Retry)
    else (c.(state := ReadServerKeyExchange, k := c.k.(log := Then(c.k.log, CertVerified))), Ok)
  }

  function DoReadServerKeyExchange(c: Client, l: Luck): (Client, Wait) {
    if c.k.inbox != [] && !NextIs(c.k, ServerKeyExchange) then
      if c.hello.skeRequired then (c, Error) else (c.(state := ReadCertificateRequest), Ok)
    else if NextIs(c.k, ServerKeyExchange) && c.hello.certCipher && !c.hello.skeRequired then (c, Error)
    else ClientReads(c, ServerKeyExchange, ReadCertificateRequest, Ok)
  }

  function DoReadCertificateRequest(c: Client, l: Luck): (Client, Wait) {
    if !c.hello.certCipher then (c.(state := ReadServerHelloDone), Ok)
    else if NextIs(c.k, ServerHelloDone) then (c.(state := ReadServerHelloDone), Ok)
    else
      var (d, w) := ClientReads(c, CertificateRequest, ReadServerHelloDone, Ok);
      (if w == Ok then d.(certRequest := true) else d, w)
  }

  function DoSendClientCertificate(c: Client, l: Luck): (Client, Wait) {
    if !c.certRequest then (c.(state := SendClientKeyExchange), Ok)
    else if l.retries then (c, Retry)
    else (c.(k := Add(c.k, Msg(Certificate, Certs(c.chain))), state := SendClientKeyExchange), Ok)
  }

  function DoSendClientCertificateVerify(c: Client, l: Luck): (Client, Wait) {
    if !c.certRequest || c.chain == 0 then (c.(state := SendClientFinished), Ok)
    else if l.retries then (c, Retry)
    else (c.(k := Add(c.k, Msg(CertificateVerify, Data(l.bytes))), state := SendClientFinished), Ok)
  }

  function DoSendClientFinished(c: Client, l: Luck): (Client, Wait) {
    if c.hello.channelId && l.retries then (c, Retry)
    else (c.(k := ClientFinishedFlight(c, l), state := FinishFlight), Flush)
  }

  function DoFinishFlight(c: Client, l: Luck): (Client, Wait) {
    if c.hello.resumed then (c.(state := FinishClient), Ok)
    else (c.(state := ReadSessionTicket), if l.falseStart then EarlyReturn else Ok)
  }

  function DoReadSessionTicket(c: Client, l: Luck): (Client, Wait) {
    if !c.hello.ticket then (c.(state := ProcessServerCcs), ReadCcs)
    else ClientReads(c, NewSessionTicket, ProcessServerCcs, ReadCcs)
  }

  function DoProcessServerCcs(c: Client, l: Luck): (Client, Wait) {
    if c.k.inbox != [] then (c, Error)
    else (c.(k := ChangeRead(c.k), state := ReadServerFinished), Ok)
  }

  function DoReadServerFinished(c: Client, l: Luck): (Client, Wait) {
    if c.k.inbox == [] then (c, ReadMessage)
    else if !FinishedOk(c.k, false) then (c, Error)
    else (c.(k := CheckFinished(c.k), state := if c.hello.resumed then SendClientFinished else FinishClient), Ok)
  }

  /** One iteration of the loop of ssl_client_handshake. */
  function ClientDo(c: Client, l: Luck): (Client, Wait) {
    if l.fails then (c, Error)
    else match c.state
      case StartConnect => (c.(k := Add(c.k, Msg(ClientHello, Data(l.bytes))), state := EnterEarlyData), Flush)
      case EnterEarlyData => (c.(state := ReadServerHello), Ok)
      case ReadServerHello => DoReadServerHello(c, l)
      case ReadServerCertificate => DoReadServerCertificate(c, l)
      case ReadCertificateStatus => DoReadCertificateStatus(c, l)
      case VerifyServerCertificate => DoVerifyServerCertificate(c, l)
      case ReadServerKeyExchange => DoReadServerKeyExchange(c, l)
      case ReadCertificateRequest => DoReadCertificateRequest(c, l)
      case ReadServerHelloDone => ClientReads(c, ServerHelloDone, SendClientCertificate, Ok)
      case SendClientCertificate => DoSendClientCertificate(c, l)
      case SendClientKeyExchange => (c.(k := Add(c.k, Msg(ClientKeyExchange, Data(l.bytes))), state := SendClientCertificateVerify), Ok)
      case SendClientCertificateVerify => DoSendClientCertificateVerify(c, l)
      case SendClientFinished => DoSendClientFinished(c, l)
      case FinishFlight => DoFinishFlight(c, l)
      case ReadSessionTicket => DoReadSessionTicket(c, l)
      case ProcessServerCcs => DoProcessServerCcs(c, l)
      case ReadServerFinished => DoReadServerFinished(c, l)
      case FinishClient => (c.(state := ClientDone), Ok)
      case ClientDone => (c, Ok)
  }

  // ----- handshake_server.cc

  datatype ServerState =
    | StartAccept | ReadClientHello | SelectCertificate | SelectParameters | SendServerHello
    | SendServerCertificate | SendServerKeyExchange | SendServerHelloDone | ReadClientCertificate
    | VerifyClientCertificate | ReadClientKeyExchange | ReadClientCertificateVerify | ReadClientCcs
    | ProcessClientCcs | ReadNextProto | ReadChannelId | ReadClientFinished | SendServerFinished
    | FinishServer | ServerDone

  /** What the server settles in do_select_parameters: also whether it has a PSK hint and wants a certificate. */
  datatype Params = Params(hello: Hello, hint: bool, certRequest: bool)

  /** ext_ocsp_add_serverhello, do_select_parameters and the cipher table rule the other combinations out. */
  predicate WfParams(p: Params) {
    && (p.hello.status ==> p.hello.certCipher && !p.hello.resumed)
    && (p.certRequest ==> p.hello.certCipher && !p.hello.resumed)
    && (p.hint ==> !p.hello.certCipher)
  }

  /** chain is the length of the chain the client sent. */
  datatype Server = Server(state: ServerState, k: Core, p: Params, chain: nat)

  function NewServer(p: Params): Server {
    Server(StartAccept, FRESH, p, 0)
  }

  function ServerReads(s: Server, kind: Kind, next: ServerState): (Server, Wait) {
    if s.k.inbox == [] then (s, ReadMessage)
    else if s.k.inbox[0].kind != kind then (s, Error)
    else (s.(k := HashNext(s.k), state := next), Ok)
  }

  /** The ClientHello stays unread until the parameters are selected. */
  function PeekClientHello(s: Server, l: Luck, next: ServerState): (Server, Wait) {
    if s.k.inbox == [] then (s, ReadMessage)
    else if s.k.inbox[0].kind != ClientHello then (s, Error)
    else if l.retries then (s, Retry)
    else (s.(state := next), Ok)
  }

  function DoSelectParameters(s: Server, l: Luck): (Server, Wait) {
    if NextIs(s.k, ClientHello) && l.retries then (s, Retry)
    else ServerReads(s, ClientHello, SendServerHello)
  }

  function DoSendServerHello(s: Server, l: Luck): (Server, Wait) {
    (s.(k := Add(s.k, Msg(ServerHello, Parameters(s.p.hello))),
        state := if s.p.hello.resumed then SendServerFinished else SendServerCertificate), Ok)
  }

  function DoSendServerCertificate(s: Server, l: Luck): (Server, Wait) {
    var k0 := if s.p.hello.certCipher then Add(s.k, Msg(Certificate, Certs(1))) else s.k;
    var k1 := if s.p.hello.certCipher && s.p.hello.status then Add(k0, Msg(CertificateStatus, Data(l.bytes))) else k0;
    (s.(k := k1, state := SendServerKeyExchange), Ok)
  }

  function DoSendServerKeyExchange(s: Server, l: Luck): (Server, Wait) {
    if !(s.p.hello.skeRequired || s.p.hint) then (s.(state := SendServerHelloDone), Ok)
    else if s.p.hello.certCipher && l.retries then (s, Retry)
    else (s.(k := Add(s.k, Msg(ServerKeyExchange, Data(l.bytes))), state := SendServerHelloDone), Ok)
  }

  function DoSendServerHelloDone(s: Server, l: Luck): (Server, Wait) {
    var k0 := if s.p.certRequest then Add(s.k, Msg(CertificateRequest, Data(l.bytes))) else s.k;
    (s.(k := Add(k0, Msg(ServerHelloDone, Data([]))), state := ReadClientCertificate), Flush)
  }

  function DoReadClientCertificate(s: Server, l: Luck): (Server, Wait) {
    if !s.p.certRequest then (s.(state := VerifyClientCertificate), Ok)
    else if NextIs(s.k, Certificate) then
      if !s.k.inbox[0].body.Certs? then (s, Error)
      else (s.(k := HashNext(s.k), chain := s.k.inbox[0].body.chain, state := VerifyClientCertificate), Ok)
    else ServerReads(s, Certificate, VerifyClientCertificate)
  }

  function DoVerifyClientCertificate(s: Server, l: Luck): (Server, Wait) {
    if s.chain == 0 then (s.(state := ReadClientKeyExchange), Ok)
    else if l.retries then (s, Retry)
    else (s.(state := ReadClientKeyExchange, k := s.k.(log := Then(s.k.log, CertVerified))), Ok)
  }

  function DoReadClientKeyExchange(s: Server, l: Luck): (Server, Wait) {
    if NextIs(s.k, ClientKeyExchange) && l.retries then (s, Retry)
    else ServerReads(s, ClientKeyExchange, ReadClientCertificateVerify)
  }

  function DoReadClientCertificateVerify(s: Server, l: Luck): (Server, Wait) {
    if s.chain == 0 then (s.(state := ReadClientCcs), Ok)
    else ServerReads(s, CertificateVerify, ReadClientCcs)
  }

  function DoProcessClientCcs(s: Server, l: Luck): (Server, Wait) {
    if s.k.inbox != [] then (s, Error)
    else (s.(k := ChangeRead(s.k), state := ReadNextProto), Ok)
  }

  function DoReadNextProto(s: Server, l: Luck): (Server, Wait) {
    if !s.p.hello.npn then (s.(state := ReadChannelId), Ok)
    else ServerReads(s, NextProto, ReadChannelId)
  }

  function DoReadChannelId(s: Server, l: Luck): (Server, Wait) {
    if !s.p.hello.channelId then (s.(state := ReadClientFinished), Ok)
    else ServerReads(s, ChannelId, ReadClientFinished)
  }

  function DoReadClientFinished(s: Server, l: Luck): (Server, Wait) {
    if s.k.inbox == [] then (s, ReadMessage)
    else if !FinishedOk(s.k, true) then (s, Error)
    else (s.(k := CheckFinished(s.k), state := if s.p.hello.resumed then FinishServer else SendServerFinished), Ok)
  }

  function DoSendServerFinished(s: Server, l: Luck): (Server, Wait) {
    var k0 := if s.p.hello.ticket then Add(s.k, Msg(NewSessionTicket, Data(l.bytes))) else s.k;
    (s.(k := SendFinished(ChangeWrite(k0), true), state := if s.p.hello.resumed then ReadClientCcs else FinishServer), Flush)
  }

  /** One iteration of the loop of ssl_server_handshake. */
  function ServerDo(s: Server, l: Luck): (Server, Wait) {
    if l.fails then (s, Error)
    else match s.state
      case StartAccept => (s.(state := ReadClientHello), Ok)
      case ReadClientHello => PeekClientHello(s, l, SelectCertificate)
      case SelectCertificate => PeekClientHello(s, l, SelectParameters)
      case SelectParameters => DoSelectParameters(s, l)
      case SendServerHello => DoSendServerHello(s, l)
      case SendServerCertificate => DoSendServerCertificate(s, l)
      case SendServerKeyExchange => DoSendServerKeyExchange(s, l)
      case SendServerHelloDone => DoSendServerHelloDone(s, l)
      case ReadClientCertificate => DoReadClientCertificate(s, l)
      case VerifyClientCertificate => DoVerifyClientCertificate(s, l)
      case ReadClientKeyExchange => DoReadClientKeyExchange(s, l)
      case ReadClientCertificateVerify => DoReadClientCertificateVerify(s, l)
      case ReadClientCcs => (s.(state := ProcessClientCcs), ReadCcs)
      case ProcessClientCcs => DoProcessClientCcs(s, l)
      case ReadNextProto => DoReadNextProto(s, l)
      case ReadChannelId => DoReadChannelId(s, l)
      case ReadClientFinished => DoReadClientFinished(s, l)
      case SendServerFinished => DoSendServerFinished(s, l)
      case FinishServer => (s.(state := ServerDone), Ok)
      case ServerDone => (s, Ok)
  }
}
