/**
 * The order of a handshake as a list of numbered slots, each owned by one side and
 * possibly absent, and the relation between two endpoints that stand at two slots of
 * the same script: what each has hashed, and what is on its way between them.
 */
module TlsScript {
  import opened Prelude
  import opened TlsMachines

  datatype Role = ClientSide | ServerSide

  function Other(r: Role): Role {
    if r == ClientSide then ServerSide else ClientSide
  }

  /** The parameters the server settles and the length of the client's certificate chain. */
  datatype Cfg = Cfg(p: Params, chain: nat)

  function End(g: Cfg): nat {
    if g.p.hello.resumed then 9 else 17
  }

  /** Whose slot it is: the client has the first slot and the slots of its last flight. */
  function Who(g: Cfg, i: nat): Role {
    if i == 0 then ClientSide
    else if g.p.hello.resumed then if i >= 5 then ClientSide else ServerSide
    else if 7 <= i <= 13 then ClientSide else ServerSide
  }

  /** The slot of the side's ChangeCipherSpec. */
  function CcsSlot(g: Cfg, r: Role): nat {
    if g.p.hello.resumed then if r == ClientSide then 5 else 3
    else if r == ClientSide then 10 else 15
  }

  /** The message of slot i; the two ChangeCipherSpec slots are not messages. */
  function KindAt(g: Cfg, i: nat): Option<Kind> {
    if i == 0 then Some(ClientHello)
    else if i == 1 then Some(ServerHello)
    else if g.p.hello.resumed then
      if i == 2 then Some(NewSessionTicket)
      else if i == 4 || i == 8 then Some(Finished)
      else if i == 6 then Some(NextProto)
      else if i == 7 then Some(ChannelId)
      else None
    else if i == 2 || i == 7 then Some(Certificate)
    else if i == 3 then Some(CertificateStatus)
    else if i == 4 then Some(ServerKeyExchange)
    else if i == 5 then Some(CertificateRequest)
    else if i == 6 then Some(ServerHelloDone)
    else if i == 8 then Some(ClientKeyExchange)
    else if i == 9 then Some(CertificateVerify)
    else if i == 11 then Some(NextProto)
    else if i == 12 then Some(ChannelId)
    else if i == 13 || i == 16 then Some(Finished)
    else if i == 14 then Some(NewSessionTicket)
    else None
  }

  predicate Present(g: Cfg, i: nat) {
    var h := g.p.hello;
    if h.resumed then
      if i == 2 then h.ticket
      else if i == 6 then h.npn
      else if i == 7 then h.channelId
      else i < 9
    else if i == 2 then h.certCipher
    else if i == 3 then h.certCipher && h.status
    else if i == 4 then h.skeRequired || g.p.hint
    else if i == 5 || i == 7 then g.p.certRequest
    else if i == 9 then g.p.certRequest && g.chain > 0
    else if i == 11 then h.npn
    else if i == 12 then h.channelId
    else if i == 14 then h.ticket
    else i < 17
  }

  /** What was sent in each slot so far; absent slots hold anything. */
  type Script = seq<Item>

  /** The messages of the present slots before n: the transcript of a side that stands at n. */
  function Hist(g: Cfg, h: Script, n: nat): seq<Msg>
    requires n <= |h|
  {
    if n == 0 then []
    else Hist(g, h, n - 1) + if Present(g, n - 1) && h[n - 1].Hs? then [h[n - 1].m] else []
  }

  /** The records of the present slots from a to b. */
  function Records(g: Cfg, h: Script, a: nat, b: nat): seq<Record>
    requires b <= |h|
    decreases b
  {
    if b <= a then []
    else Records(g, h, a, b - 1) + if Present(g, b - 1) then [Record(h[b - 1], b - 1 > CcsSlot(g, Who(g, b - 1)))] else []
  }

  /** The first present slot from a on, or the end. */
  function First(g: Cfg, a: nat): (q: nat)
    ensures q >= a
    ensures forall i :: a <= i < q ==> !Present(g, i)
    ensures q < End(g) ==> Present(g, q)
    decreases End(g) - a
  {
    if a >= End(g) || Present(g, a) then a else First(g, a + 1)
  }

  /** The next slot of a handshake that is not at its end is the first one that is present. */
  lemma {:induction false} FirstHere(g: Cfg, a: nat)
    requires a < End(g) && Present(g, a)
    ensures First(g, a) == a
  {
  }

  lemma {:induction false} FirstThere(g: Cfg, a: nat)
    requires a < End(g) && !Present(g, a)
    ensures First(g, a) == First(g, a + 1)
  {
  }

  /** The slot of the side's Finished. */
  function FinishedSlot(g: Cfg, r: Role): nat {
    CcsSlot(g, r) + if r == ClientSide then 3 else 1
  }

  lemma {:induction false} FinishedSlotIs(g: Cfg, r: Role)
    ensures var i := FinishedSlot(g, r);
            && CcsSlot(g, r) < i < End(g) && Present(g, i) && Who(g, i) == r && KindAt(g, i) == Some(Finished)
            && First(g, i) == i
  {
    hide First;
    FirstHere(g, FinishedSlot(g, r));
  }

  /** The contents of slot i: the kind fits, a Finished covers the transcript before it, and the choices of both sides show. */
  predicate SlotOk(g: Cfg, h: Script, i: nat)
    requires i < |h|
  {
    match KindAt(g, i)
    case None => h[i] == Ccs
    case Some(kind) =>
      && h[i].Hs? && h[i].m.kind == kind
      && (kind == Finished ==> h[i].m.body == Mac(Who(g, i) == ServerSide, Hist(g, h, i)))
      && (kind == ServerHello ==> h[i].m.body == Parameters(g.p.hello))
      && (kind == Certificate ==>
            h[i].m.body.Certs? && (if Who(g, i) == ServerSide then h[i].m.body.chain > 0 else h[i].m.body.chain == g.chain))
  }

  /** One side: where it stands, its state, and the records on the wire to its peer. */
  datatype Half = Half(pos: nat, k: Core, out: seq<Record>)

  /** The slot from which on nothing has arrived yet. */
  function Arrived(g: Cfg, b: Half): nat {
    if b.k.inbox == [] then b.pos else First(g, b.pos) + 1
  }

  /** Side a, which owns the slots of role, leads only by slots of its own, and all it sent is hashed, arrived or under way. */
  ghost predicate Leads(g: Cfg, h: Script, a: Half, b: Half, role: Role) {
    && a.pos <= |h|
    && a.k.transcript == Hist(g, h, a.pos)
    && (a.k.writeOn <==> a.pos > CcsSlot(g, role))
    && (forall i :: b.pos <= i < a.pos && Present(g, i) ==> Who(g, i) == role)
    && |b.k.inbox| <= 1
    && (b.k.inbox != [] ==> First(g, b.pos) < a.pos && h[First(g, b.pos)] == Hs(b.k.inbox[0]))
    && a.out + a.k.flight == Records(g, h, Arrived(g, b), a.pos)
  }

  ghost predicate Joint(g: Cfg, h: Script, a: Half, b: Half, role: Role) {
    && |h| == (if a.pos < b.pos then b.pos else a.pos) <= End(g)
    && (forall i :: 0 <= i < |h| && Present(g, i) ==> SlotOk(g, h, i))
    && Leads(g, h, a, b, role)
    && Leads(g, h, b, a, Other(role))
  }

  lemma {:induction false} Swap(g: Cfg, h: Script, a: Half, b: Half, role: Role)
    requires Joint(g, h, a, b, role)
    ensures Joint(g, h, b, a, Other(role))
  {
    hide Leads;
  }

  // ----- the functions on a longer script

  lemma {:induction false} HistPrefix(g: Cfg, h: Script, more: Script, n: nat)
    requires n <= |h|
    ensures Hist(g, h + more, n) == Hist(g, h, n)
  {
    if n > 0 {
      HistPrefix(g, h, more, n - 1);
    }
  }

  lemma {:induction false} RecordsPrefix(g: Cfg, h: Script, more: Script, a: nat, b: nat)
    requires b <= |h|
    ensures Records(g, h + more, a, b) == Records(g, h, a, b)
    decreases b
  {
    if b > a {
      RecordsPrefix(g, h, more, a, b - 1);
    }
  }

  lemma {:induction false} RecordsNone(g: Cfg, h: Script, a: nat, b: nat)
    requires b <= |h| && b <= a
    ensures Records(g, h, a, b) == []
  {
  }

  lemma {:induction false} RecordsAbsent(g: Cfg, h: Script, a: nat, n: nat)
    requires n < |h| && !Present(g, n)
    ensures Records(g, h, a, n + 1) == Records(g, h, a, n)
  {
    hide Present;
  }

  lemma {:induction false} CcsPresent(g: Cfg, r: Role)
    ensures Present(g, CcsSlot(g, r))
  {
  }

  lemma {:induction false} Transcript(g: Cfg, h: Script, a: Half, b: Half, role: Role)
    requires Joint(g, h, a, b, role)
    ensures a.pos <= |h| && a.k.transcript == Hist(g, h, a.pos)
  {
    hide Hist, First, Records, SlotOk;
  }

  /** Nothing present between: the records start at the next present slot. */
  lemma {:induction false} RecordsSkip(g: Cfg, h: Script, a: nat, a': nat, b: nat)
    requires b <= |h| && a <= a' && forall i :: a <= i < a' ==> !Present(g, i)
    ensures Records(g, h, a, b) == Records(g, h, a', b)
    decreases b
  {
    if b > a {
      RecordsSkip(g, h, a, a', b - 1);
    }
  }

  /** The first record of a nonempty stretch is that of its first present slot. */
  lemma {:induction false} RecordsHead(g: Cfg, h: Script, a: nat, b: nat)
    requires b <= |h| && b <= End(g)
    ensures var q := First(g, a);
            Records(g, h, a, b) == if q < b then [Record(h[q], q > CcsSlot(g, Who(g, q)))] + Records(g, h, q + 1, b) else []
    decreases b
  {
    hide Present, Who, CcsSlot, First;
    var q := First(g, a);
    if b > a {
      RecordsHead(g, h, a, b - 1);
      if q == b - 1 {
        assert Records(g, h, q + 1, b) == [];
      }
    }
  }

  lemma {:induction false} SlotOkPrefix(g: Cfg, h: Script, more: Script, i: nat)
    requires i < |h| && SlotOk(g, h, i)
    ensures SlotOk(g, h + more, i)
  {
    HistPrefix(g, h, more, i);
  }

  // ----- one slot at a time

  /** An absent slot is passed. */
  function Skipped(a: Half): Half {
    a.(pos := a.pos + 1)
  }

  function Longer(h: Script, n: nat, x: Item): Script {
    if n < |h| then h else h + [x]
  }

  lemma {:induction false} LongerKeeps(g: Cfg, h: Script, x: Item, a: Half, b: Half, role: Role)
    requires Leads(g, h, a, b, role) && a.pos <= End(g)
    ensures Leads(g, h + [x], a, b, role)
  {
    HistPrefix(g, h, [x], a.pos);
    RecordsPrefix(g, h, [x], Arrived(g, b), a.pos);
  }

  lemma {:induction false} SkipSlot(g: Cfg, h: Script, a: Half, b: Half, role: Role)
    requires Joint(g, h, a, b, role) && a.pos < End(g) && !Present(g, a.pos)
    ensures Joint(g, Longer(h, a.pos, Ccs), Skipped(a), b, role)
  {
    hide KindAt, Present, Hist, Records, SlotOk, First;
    var h' := Longer(h, a.pos, Ccs);
    if a.pos == |h| {
      LongerKeeps(g, h, Ccs, a, b, role);
      LongerKeeps(g, h, Ccs, b, a, Other(role));
      forall i | 0 <= i < |h'| && Present(g, i) ensures SlotOk(g, h', i) {
        SlotOkPrefix(g, h, [Ccs], i);
      }
    }
    SkipLeads(g, h', a, b, role);
    SkipFollows(g, h', b, a, Other(role));
  }

  lemma {:induction false} SkipLeads(g: Cfg, h: Script, a: Half, b: Half, role: Role)
    requires Leads(g, h, a, b, role) && a.pos < |h| <= End(g) && !Present(g, a.pos)
    ensures Leads(g, h, Skipped(a), b, role)
  {
    hide Who, First, Records, Present, CcsSlot, Arrived;
    CcsPresent(g, role);
    RecordsAbsent(g, h, Arrived(g, b), a.pos);
  }

  lemma {:induction false} SkipFollows(g: Cfg, h: Script, b: Half, a: Half, role: Role)
    requires Leads(g, h, b, a, role) && a.pos < |h| <= End(g) && !Present(g, a.pos)
    ensures Leads(g, h, b, Skipped(a), role)
  {
    hide Present, Who, CcsSlot, First, Hist, Records;
    FirstThere(g, a.pos);
    RecordsSkip(g, h, a.pos, a.pos + 1, b.pos);
  }

  /** A side whose next slot is present and its own stands at the end of the script, with nothing left to read. */
  lemma {:induction false} OwnSlotIsLast(g: Cfg, h: Script, a: Half, b: Half, role: Role)
    requires Joint(g, h, a, b, role) && a.pos < End(g) && Present(g, a.pos) && Who(g, a.pos) == role
    ensures a.pos == |h| && a.k.inbox == [] && Arrived(g, b) <= a.pos && b.pos <= a.pos
  {
    hide KindAt, Present, Hist, Records, SlotOk, First, Who;
  }

  function PutMsg(a: Half, m: Msg): Half {
    a.(pos := a.pos + 1, k := Add(a.k, m))
  }

  function PutCcs(a: Half): Half {
    a.(pos := a.pos + 1, k := ChangeWrite(a.k))
  }

  /** The contents a message needs to fill slot i of a script that ends there. */
  predicate Fills(g: Cfg, i: nat, transcript: seq<Msg>, m: Msg) {
    && KindAt(g, i) == Some(m.kind)
    && (m.kind == Finished ==> m.body == Mac(Who(g, i) == ServerSide, transcript))
    && (m.kind == ServerHello ==> m.body == Parameters(g.p.hello))
    && (m.kind == Certificate ==>
          m.body.Certs? && (if Who(g, i) == ServerSide then m.body.chain > 0 else m.body.chain == g.chain))
  }

  lemma {:induction false} PutGood(g: Cfg, h: Script, x: Item)
    requires forall i :: 0 <= i < |h| && Present(g, i) ==> SlotOk(g, h, i)
    requires Present(g, |h|) ==> SlotOk(g, h + [x], |h|)
    ensures forall i :: 0 <= i < |h + [x]| && Present(g, i) ==> SlotOk(g, h + [x], i)
  {
    hide KindAt, Present, Hist, SlotOk;
    forall i | 0 <= i < |h + [x]| && Present(g, i) ensures SlotOk(g, h + [x], i) {
      if i < |h| {
        SlotOkPrefix(g, h, [x], i);
      }
    }
  }

  lemma {:induction false} PutSlot(g: Cfg, h: Script, a: Half, b: Half, role: Role, m: Msg)
    requires Joint(g, h, a, b, role) && a.pos < End(g) && Present(g, a.pos) && Who(g, a.pos) == role
    requires Fills(g, a.pos, a.k.transcript, m)
    ensures Joint(g, h + [Hs(m)], PutMsg(a, m), b, role)
  {
    hide Present, Records, First, Arrived, Hist;
    OwnSlotIsLast(g, h, a, b, role);
    var h' := h + [Hs(m)];
    HistPrefix(g, h, [Hs(m)], a.pos);
    assert SlotOk(g, h', a.pos);
    PutGood(g, h, Hs(m));
    assert a.pos != CcsSlot(g, role);
    PutLeads(g, h, a, b, role, Hs(m), PutMsg(a, m));
    PutFollows(g, h, b, a, Other(role), Hs(m), PutMsg(a, m));
  }

  lemma {:induction false} PutCcsSlot(g: Cfg, h: Script, a: Half, b: Half, role: Role)
    requires Joint(g, h, a, b, role) && a.pos == CcsSlot(g, role)
    ensures Joint(g, h + [Ccs], PutCcs(a), b, role)
  {
    hide Records, First, Arrived, Hist;
    OwnSlotIsLast(g, h, a, b, role);
    var h' := h + [Ccs];
    assert SlotOk(g, h', a.pos);
    PutGood(g, h, Ccs);
    PutLeads(g, h, a, b, role, Ccs, PutCcs(a));
    PutFollows(g, h, b, a, Other(role), Ccs, PutCcs(a));
  }

  lemma {:induction false} PutLeads(g: Cfg, h: Script, a: Half, b: Half, role: Role, x: Item, a': Half)
    requires Leads(g, h, a, b, role) && a.pos == |h| < End(g) && Present(g, a.pos) && Who(g, a.pos) == role
    requires Arrived(g, b) <= a.pos
    requires a'.pos == a.pos + 1 && a'.out == a.out
    requires a'.k.transcript == a.k.transcript + if x.Hs? then [x.m] else []
    requires a'.k.flight == a.k.flight + [Record(x, a.k.writeOn)]
    requires a'.k.writeOn <==> a.pos + 1 > CcsSlot(g, role)
    ensures Leads(g, h + [x], a', b, role)
  {
    hide Present, Who, First, Arrived, CcsSlot;
    var h' := h + [x];
    HistPrefix(g, h, [x], a.pos);
    RecordsPrefix(g, h, [x], Arrived(g, b), a.pos);
    assert a.out + (a.k.flight + [Record(x, a.k.writeOn)]) == a.out + a.k.flight + [Record(x, a.k.writeOn)];
    forall i | b.pos <= i < a'.pos && Present(g, i) ensures Who(g, i) == role {
      assert i == a.pos || i < a.pos;
    }
    if b.k.inbox != [] {
      assert h'[First(g, b.pos)] == h[First(g, b.pos)];
    }
  }

  lemma {:induction false} PutFollows(g: Cfg, h: Script, b: Half, a: Half, role: Role, x: Item, a': Half)
    requires Leads(g, h, b, a, role) && b.pos <= a.pos == |h| && a.k.inbox == [] == a'.k.inbox
    requires a'.pos == a.pos + 1
    ensures Leads(g, h + [x], b, a', role)
  {
    hide Present, Who, CcsSlot;
    HistPrefix(g, h, [x], b.pos);
  }

  /** What is in the inbox is what the script has in the next present slot. */
  lemma {:induction false} InboxIsNext(g: Cfg, h: Script, a: Half, b: Half, role: Role)
    requires Joint(g, h, a, b, role) && a.k.inbox != []
    ensures var q := First(g, a.pos);
            q < |h| && q < End(g) && h[q] == Hs(a.k.inbox[0]) && a.k.inbox == [a.k.inbox[0]] && SlotOk(g, h, q) && Who(g, q) == Other(role)
  {
    hide KindAt, Present, Hist, Records, SlotOk, Who;
  }

  function TakeMsg(a: Half): Half
    requires a.k.inbox != []
  {
    a.(pos := a.pos + 1, k := HashNext(a.k))
  }

  lemma {:induction false} TakeSlot(g: Cfg, h: Script, a: Half, b: Half, role: Role)
    requires Joint(g, h, a, b, role) && a.k.inbox != [] && Present(g, a.pos) && a.pos < End(g)
    ensures Joint(g, h, TakeMsg(a), b, role)
  {
    hide KindAt, Present, SlotOk, Who;
    InboxIsNext(g, h, a, b, role);
    assert First(g, a.pos) == a.pos;
    TakeLeads(g, h, a, b, role);
    TakeFollows(g, h, b, a, Other(role));
  }

  lemma {:induction false} TakeLeads(g: Cfg, h: Script, a: Half, b: Half, role: Role)
    requires Leads(g, h, a, b, role) && a.k.inbox != [] && a.pos < |h| && h[a.pos] == Hs(a.k.inbox[0]) && Present(g, a.pos)
    requires a.pos < b.pos && SlotOk(g, h, a.pos)
    ensures Leads(g, h, TakeMsg(a), b, role)
  {
    hide Present, Who, Records;
    assert a.pos != CcsSlot(g, role);
    RecordsNone(g, h, Arrived(g, b), a.pos);
    RecordsNone(g, h, Arrived(g, b), a.pos + 1);
  }

  lemma {:induction false} TakeFollows(g: Cfg, h: Script, b: Half, a: Half, role: Role)
    requires Leads(g, h, b, a, role) && a.k.inbox != [] && First(g, a.pos) == a.pos
    ensures Leads(g, h, b, TakeMsg(a), role)
  {
    hide Present, Who, Records, Hist;
  }

  /** The peer's Finished covers exactly the reader's transcript, and checking it is taking its slot. */
  lemma {:induction false} TakeFinished(g: Cfg, h: Script, a: Half, b: Half, role: Role)
    requires Joint(g, h, a, b, role) && a.k.inbox != [] && a.pos < End(g) && Present(g, a.pos) && KindAt(g, a.pos) == Some(Finished)
    ensures FinishedOk(a.k, role == ServerSide)
    ensures Joint(g, h, Half(a.pos + 1, CheckFinished(a.k), a.out), b, role)
  {
    hide KindAt, Present, Who, First, Hist, Leads;
    FirstHere(g, a.pos);
    InboxIsNext(g, h, a, b, role);
    Transcript(g, h, a, b, role);
    TakeSlot(g, h, a, b, role);
    TrafficOnly(g, h, TakeMsg(a), b, role, CheckFinished(a.k));
  }

  // ----- the wire

  /** Events and the read cipher do not matter to the peer. */
  predicate SameTraffic(k: Core, k': Core) {
    k'.transcript == k.transcript && k'.flight == k.flight && k'.inbox == k.inbox && k'.writeOn == k.writeOn
  }

  lemma {:induction false} TrafficOnly(g: Cfg, h: Script, a: Half, b: Half, role: Role, k': Core)
    requires Joint(g, h, a, b, role) && SameTraffic(a.k, k')
    ensures Joint(g, h, a.(k := k'), b, role)
  {
    hide KindAt, Present, SlotOk, Who, Records, Hist, First, CcsSlot;
  }

  /** A partial flush: n records of the flight go onto the wire. */
  function Pushed(a: Half, n: nat): Half {
    if n >= |a.k.flight| then a.(out := a.out + a.k.flight, k := a.k.(flight := []))
    else a.(out := a.out + a.k.flight[..n], k := a.k.(flight := a.k.flight[n..]))
  }

  lemma {:induction false} PushKeeps(g: Cfg, h: Script, a: Half, b: Half, role: Role, n: nat)
    requires Joint(g, h, a, b, role)
    ensures Joint(g, h, Pushed(a, n), b, role)
  {
    hide KindAt, Present, SlotOk, Who, Records, Hist, First, CcsSlot;
    var a' := Pushed(a, n);
    if n < |a.k.flight| {
      assert a.k.flight[..n] + a.k.flight[n..] == a.k.flight;
    }
    assert a'.out + a'.k.flight == a.out + a.k.flight;
  }

  /** The next record on the wire is that of the next present slot, which belongs to its sender. */
  lemma {:induction false} WireHead(g: Cfg, h: Script, a: Half, b: Half, role: Role)
    requires Joint(g, h, a, b, role) && a.k.inbox == [] && b.out != []
    ensures var q := First(g, a.pos);
            && q < b.pos <= |h| && q < End(g) && Who(g, q) == Other(role)
            && b.out[0] == Record(h[q], q > CcsSlot(g, Other(role)))
            && b.out[1..] + b.k.flight == Records(g, h, q + 1, b.pos)
            && SlotOk(g, h, q)
  {
    hide KindAt, SlotOk, Hist, CcsSlot, Records;
    RecordsHead(g, h, a.pos, b.pos);
    var q, all := First(g, a.pos), b.out + b.k.flight;
    assert all[0] == b.out[0] && all[1..] == b.out[1..] + b.k.flight;
    if q < b.pos {
      assert all[1..] == Records(g, h, q + 1, b.pos);
    }
  }

  /** An empty wire and flight mean that the peer has nothing ahead. */
  lemma {:induction false} QuietWire(g: Cfg, h: Script, a: Half, b: Half, role: Role)
    requires Joint(g, h, a, b, role) && a.k.inbox == [] && b.out == [] && b.k.flight == []
    ensures First(g, a.pos) >= b.pos
  {
    hide KindAt, SlotOk, Hist, CcsSlot, Records;
    RecordsHead(g, h, a.pos, b.pos);
  }

  /** A handshake record is opened into the inbox. */
  lemma {:induction false} ArriveKeeps(g: Cfg, h: Script, a: Half, b: Half, role: Role)
    requires Joint(g, h, a, b, role) && a.k.inbox == [] && b.out != [] && b.out[0].item.Hs?
    ensures Joint(g, h, a.(k := a.k.(inbox := [b.out[0].item.m])), b.(out := b.out[1..]), role)
  {
    hide KindAt, SlotOk, Hist, CcsSlot, Present;
    WireHead(g, h, a, b, role);
    hide Records, First;
  }

  /** A ChangeCipherSpec record is consumed. */
  lemma {:induction false} CcsKeeps(g: Cfg, h: Script, a: Half, b: Half, role: Role)
    requires Joint(g, h, a, b, role) && a.k.inbox == [] && b.out != [] && b.out[0].item.Ccs? && First(g, a.pos) == a.pos
    ensures Joint(g, h, a.(pos := a.pos + 1), b.(out := b.out[1..]), role)
  {
    hide SlotOk, KindAt, Leads, First, Present, Who, CcsSlot;
    WireHead(g, h, a, b, role);
    CcsTaken(g, h, a, b, role);
    CcsFollows(g, h, b, a, Other(role));
  }

  lemma {:induction false} CcsTaken(g: Cfg, h: Script, a: Half, b: Half, role: Role)
    requires Leads(g, h, a, b, role) && a.pos < b.pos <= |h| && h[a.pos].Ccs? && Who(g, a.pos) == Other(role) && b.out != []
    requires Present(g, a.pos) && SlotOk(g, h, a.pos)
    ensures Leads(g, h, a.(pos := a.pos + 1), b.(out := b.out[1..]), role)
  {
    hide First, Present, Records;
    assert a.pos != CcsSlot(g, role);
    RecordsNone(g, h, Arrived(g, b), a.pos);
    RecordsNone(g, h, Arrived(g, b), a.pos + 1);
    assert Hist(g, h, a.pos + 1) == Hist(g, h, a.pos);
  }

  lemma {:induction false} CcsFollows(g: Cfg, h: Script, b: Half, a: Half, role: Role)
    requires Leads(g, h, b, a, role) && a.k.inbox == [] && b.out != []
    requires b.out[1..] + b.k.flight == Records(g, h, a.pos + 1, b.pos)
    ensures Leads(g, h, b.(out := b.out[1..]), a.(pos := a.pos + 1), role)
  {
    hide First, Present, Records, Hist, Who, CcsSlot;
  }
}
