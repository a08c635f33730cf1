/**
 * ssl_run_handshake around either machine: it resolves what the handshake waits for,
 * runs the machine until the next wait, and stops when the transport or the
 * application has to act.
 */
module TlsRunHandshake {
  import opened Prelude
  import opened TlsMachines
  import opened TlsRunShape
  import opened TlsScript

  datatype Endpoint = Endpoint(k: Core, w: Wait, out: seq<Record>, incoming: seq<Record>)

  /** ssl_run_handshake resolving a wait: a partial flush, or the next record from the peer. */
  function ResolveWait(e: Endpoint, n: nat): Endpoint {
    if e.w == Flush then
      var a := Pushed(Half(0, e.k, e.out), n);
      e.(k := a.k, out := a.out, w := if a.k.flight == [] then Ok else Flush)
    else if (e.w == ReadMessage || e.w == ReadCcs) && e.incoming != [] then
      var r := e.incoming[0];
      if r.protected != e.k.readOn || (e.w == ReadMessage) != r.item.Hs? then e.(w := Error)
      else if r.item.Hs? then e.(k := e.k.(inbox := e.k.inbox + [r.item.m]), w := Ok, incoming := e.incoming[1..])
      else e.(k := e.k.(log := Then(e.k.log, CcsRead)), w := Ok, incoming := e.incoming[1..])
    else e
  }

  predicate Waiting(w: Wait) {
    w == ReadMessage || w == ReadCcs
  }

  /** What a wait still costs before the next step of the machine. */
  function Cost(k: Core, w: Wait): nat {
    match w
    case Flush => 4 + |k.flight|
    case ReadCcs => 3
    case ReadMessage => 1
    case _ => if k.inbox == [] then 2 else 0
  }

  lemma {:induction false} ClientWaitsOnEmpty(c: Client, l: Luck)
    ensures ClientDo(c, l).1 == ReadMessage ==> c.k.inbox == []
    ensures ClientDo(c, l).1 == Retry ==> l.retries
  {
    hide HashNext, Add, ChangeWrite, CheckFinished, ChangeRead, ClientFinishedFlight;
  }

  lemma {:induction false} ServerWaitsOnEmpty(s: Server, l: Luck)
    ensures ServerDo(s, l).1 == ReadMessage ==> s.k.inbox == []
    ensures ServerDo(s, l).1 == Retry ==> l.retries
  {
    hide HashNext, Add, ChangeWrite, CheckFinished, ChangeRead, SendFinished;
  }

  lemma {:induction false} ResolveCosts(e: Endpoint, n: nat)
    requires (e.w == Flush && n >= 1) || (Waiting(e.w) && e.incoming != [])
    requires e.w == ReadMessage ==> e.k.inbox == []
    requires ResolveWait(e, n).w != Error
    ensures Cost(ResolveWait(e, n).k, ResolveWait(e, n).w) < Cost(e.k, e.w)
  {
  }

  /** A wait that is over costs less than it did. */
  lemma {:induction false} ResolvedCosts(e: Endpoint, n: nat)
    requires e.w == Flush || Waiting(e.w)
    requires e.w == ReadMessage ==> e.k.inbox == []
    requires ResolveWait(e, n).w == Ok
    ensures Cost(ResolveWait(e, n).k, Ok) < Cost(e.k, e.w)
  {
  }

  /** Waiting to read is less than being about to find that there is nothing to read. */
  lemma {:induction false} ReadingCosts(k: Core)
    ensures k.inbox == [] ==> Cost(k, ReadMessage) < Cost(k, Ok)
  {
  }

  // ----- either machine

  datatype Machine = AsClient(c: Client) | AsServer(s: Server)

  function CoreOf(m: Machine): Core {
    if m.AsClient? then m.c.k else m.s.k
  }

  function WithCore(m: Machine, k: Core): Machine {
    if m.AsClient? then AsClient(m.c.(k := k)) else AsServer(m.s.(k := k))
  }

  predicate Done(m: Machine) {
    if m.AsClient? then m.c.state == ClientDone else m.s.state == ServerDone
  }

  function Do(m: Machine, l: Luck): (Machine, Wait) {
    if m.AsClient? then
      var (c, w) := ClientDo(m.c, l);
      (AsClient(c), w)
    else
      var (s, w) := ServerDo(m.s, l);
      (AsServer(s), w)
  }

  /** The states still to come. */
  function Left(m: Machine): nat {
    if m.AsClient? then 18 - ClientRank(m.c.state, m.c.hello.resumed) else 19 - ServerRank(m.s.state, m.s.p.hello.resumed)
  }

  lemma {:induction false} DoProgress(m: Machine, l: Luck)
    ensures var (n, w) := Do(m, l);
            && (if Stays(w) then n == m else if Done(m) then n == m else Left(n) < Left(m) && (w != Ok ==> !Done(n)))
            && (w == ReadMessage ==> CoreOf(m).inbox == [])
            && (w == Ok && !Done(m) ==> Left(n) < Left(m))
  {
    hide ClientDo, ServerDo, ClientRank, ServerRank;
    if m.AsClient? {
      ClientProgress(m.c, l);
      ClientWaitsOnEmpty(m.c, l);
    } else {
      ServerProgress(m.s, l);
      ServerWaitsOnEmpty(m.s, l);
    }
  }

  /** One side of the connection: its machine, its wait, and the wires. */
  datatype Side = Side(m: Machine, wait: Wait, out: seq<Record>, incoming: seq<Record>)

  /** A move: one step of the machine if it can be called, otherwise one attempt to resolve its wait. */
  function MoveSide(x: Side, l: Luck, n: nat): Side {
    if Callable(x.wait) then
      var (m, w) := Do(x.m, l);
      x.(m := m, wait := w)
    else
      var e := ResolveWait(Endpoint(CoreOf(x.m), x.wait, x.out, x.incoming), n);
      Side(WithCore(x.m, e.k), e.w, e.out, e.incoming)
  }

  function Moves(x: Side, ms: seq<(Luck, nat)>): Side {
    if ms == [] then x else MoveSide(Moves(x, ms[..|ms| - 1]), ms[|ms| - 1].0, ms[|ms| - 1].1)
  }

  lemma {:induction false} NoMoves(x: Side)
    ensures Moves(x, []) == x
  {
  }

  lemma {:induction false} MovesSnoc(x: Side, ms: seq<(Luck, nat)>, l: Luck, n: nat)
    ensures Moves(x, ms + [(l, n)]) == MoveSide(Moves(x, ms), l, n)
  {
    assert (ms + [(l, n)])[..|ms|] == ms;
  }

  lemma {:induction false} MovesConcat(x: Side, ms: seq<(Luck, nat)>, more: seq<(Luck, nat)>)
    ensures Moves(x, ms + more) == Moves(Moves(x, ms), more)
    decreases |more|
  {
    hide MoveSide;
    if more == [] {
      assert ms + more == ms;
    } else {
      var pre := more[..|more| - 1];
      assert (ms + more)[..|ms + more| - 1] == ms + pre;
      MovesConcat(x, ms, pre);
    }
  }

  /** The luck does not matter to a move that resolves a wait. */
  function AnyLuck(): Luck {
    Luck(false, false, false, [])
  }

  /** A move takes a record off the wire only if it is the one that is waited for, under the read cipher that is in
      force; any other record fails the side and leaves it unread. A move puts on the wire what was pending. */
  lemma {:induction false} OnlyDueRecords(x: Side, l: Luck, n: nat)
    ensures var y := MoveSide(x, l, n);
            && (y.incoming == x.incoming
                || (x.incoming != [] && y.incoming == x.incoming[1..]
                    && x.incoming[0].protected == CoreOf(x.m).readOn
                    && (if x.incoming[0].item.Hs? then x.wait == ReadMessage else x.wait == ReadCcs)))
            && (Waiting(x.wait) && x.incoming != [] && y.incoming == x.incoming ==> y.wait == Error && CoreOf(y.m) == CoreOf(x.m))
            && (!Callable(x.wait) ==> CoreOf(y.m).transcript == CoreOf(x.m).transcript
                                      && y.out + CoreOf(y.m).flight == x.out + CoreOf(x.m).flight)
  {
    hide Do;
    if x.wait == Flush {
      var k := CoreOf(x.m);
      assert Pushed(Half(0, k, x.out), n).out + Pushed(Half(0, k, x.out), n).k.flight == x.out + k.flight;
    }
  }

  /** What ssl_run_handshake reports: the handshake is complete, it may return early, or it must be called again or has failed. */
  datatype Report = Complete | Early | CallAgain | Failed

  class Handshake {
    var m: Machine
    var wait: Wait
    var out: seq<Record>
    var incoming: seq<Record>

    constructor (m: Machine)
      ensures this.m == m && wait == Ok && out == [] && incoming == []
    {
      this.m, wait, out, incoming := m, Ok, [], [];
    }

    ghost function View(): Side
      reads this
    {
      Side(m, wait, out, incoming)
    }

    /** The loop of ssl_client_handshake and ssl_server_handshake; luck tells how the world treats each step. */
    method DoHandshake(luck: nat -> Luck) returns (ghost ms: seq<(Luck, nat)>)
      requires wait == Ok
      modifies this`m, this`wait
      ensures View() == Moves(old(View()), ms)
      ensures wait == Ok <==> Done(m)
      ensures Left(m) < Left(old(m)) || (m == old(m) && (Done(m) || Stays(wait)))
      ensures wait == ReadMessage ==> CoreOf(m).inbox == []
    {
      hide Do, Left, Moves, ResolveWait;
      ms := [];
      NoMoves(View());
      var i := 0;
      while !Done(m)
        invariant wait == Ok && View() == Moves(old(View()), ms)
        invariant Left(m) < Left(old(m)) || m == old(m)
        decreases Left(m)
      {
        DoProgress(m, luck(i));
        MovesSnoc(old(View()), ms, luck(i), 0);
        ms := ms + [(luck(i), 0)];
        var (next, w) := Do(m, luck(i));
        m, wait := next, w;
        if wait != Ok {
          return;
        }
        i := i + 1;
      }
    }

    /** One attempt to resolve the wait. */
    method Resolve(n: nat)
      requires Valid() && !Callable(wait) && wait != Error
      modifies this
      ensures View() == MoveSide(old(View()), AnyLuck(), n)
      ensures Left(m) == Left(old(m))
      ensures wait == Ok || wait == Error || wait == old(wait)
      ensures wait == Ok ==> Cost(CoreOf(m), Ok) < Cost(CoreOf(old(m)), old(wait))
      ensures wait == old(wait) ==> Valid()
    {
      hide Do, Cost;
      var e := ResolveWait(Endpoint(CoreOf(m), wait, out, incoming), n);
      if e.w == Ok {
        ResolvedCosts(Endpoint(CoreOf(m), wait, out, incoming), n);
      }
      m, wait, out, incoming := WithCore(m, e.k), e.w, e.out, e.incoming;
    }

    /** Between calls no wait on the application is stored, and a reader has nothing unread. */
    ghost predicate Valid()
      reads this
    {
      wait != Retry && wait != EarlyReturn && (wait == ReadMessage ==> CoreOf(m).inbox == [])
    }

    /** What a turn of the loop reports when the call ends with the wait raw. */
    static predicate Reports(r: Report, raw: Wait) {
      && (r == Complete <==> raw == Ok)
      && (r == Failed <==> raw == Error)
      && (r == Early <==> raw == EarlyReturn)
    }

    /** One turn of the loop of ssl_run_handshake: resolve the wait, run the machine; None means to go on. */
    method Turn(luck: nat -> Luck, n: nat) returns (r: Option<Report>, ghost ms: seq<(Luck, nat)>, ghost raw: Wait)
      requires Valid()
      modifies this
      ensures Valid()
      ensures Side(m, raw, out, incoming) == Moves(old(View()), ms)
      ensures wait == if raw == Retry || raw == EarlyReturn then Ok else raw
      ensures r.Some? ==> Reports(r.value, raw) && (r.value == Complete ==> Done(m))
      ensures r == None ==> wait == raw
      ensures r == None ==>
                Left(m) < Left(old(m)) || (Left(m) == Left(old(m)) && Cost(CoreOf(m), wait) < old(Cost(CoreOf(m), wait)))
    {
      hide Do, Left, Moves, Cost, ResolveWait, MoveSide;
      ms := [];
      NoMoves(View());
      if wait == Error {
        return Some(Failed), ms, Error;
      }
      if wait != Ok {
        Resolve(n);
        MovesSnoc(old(View()), [], AnyLuck(), n);
        ms := [] + [(AnyLuck(), n)];
        if wait == Error {
          return Some(Failed), ms, Error;
        }
        if wait != Ok {
          return Some(CallAgain), ms, wait;
        }
      }
      ghost var cost := Cost(CoreOf(m), Ok);
      ghost var before := m;
      ghost var more := DoHandshake(luck);
      MovesConcat(old(View()), ms, more);
      ms := ms + more;
      raw := wait;
      if wait == Error {
        return Some(Failed), ms, raw;
      }
      if wait == Ok {
        return Some(Complete), ms, raw;
      }
      if wait == Retry {
        wait := Ok;
        return Some(CallAgain), ms, raw;
      }
      if wait == EarlyReturn {
        wait := Ok;
        return Some(Early), ms, raw;
      }
      ReadingCosts(CoreOf(m));
      assert m == before ==> wait == ReadMessage && Cost(CoreOf(m), wait) < cost;
      r := None;
    }

    /**
     * ssl_run_handshake. luck(i) is the luck of the machine's steps in turn i of the loop, flush(i) what a flush
     * gets onto the wire there. The call is a sequence of moves that ends with the wait raw; the waits on the
     * application are forgotten, so that the next call steps the machine again.
     */
    method Run(luck: nat -> nat -> Luck, flush: nat -> nat) returns (r: Report, ghost ms: seq<(Luck, nat)>, ghost raw: Wait)
      requires Valid()
      modifies this
      ensures Valid()
      ensures Side(m, raw, out, incoming) == Moves(old(View()), ms)
      ensures wait == if raw == Retry || raw == EarlyReturn then Ok else raw
      ensures Reports(r, raw) && (r == Complete ==> Done(m))
    {
      hide Do, Left, Moves, Cost, ResolveWait, MoveSide;
      ms := [];
      NoMoves(View());
      var i := 0;
      while true
        invariant Valid() && View() == Moves(old(View()), ms)
        decreases Left(m), Cost(CoreOf(m), wait)
      {
        var o, more, last := Turn(luck(i), flush(i));
        MovesConcat(old(View()), ms, more);
        ms, raw := ms + more, last;
        if o.Some? {
          r := o.value;
          return;
        }
        i := i + 1;
      }
    }
  }
}
