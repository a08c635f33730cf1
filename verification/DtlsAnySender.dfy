/**
 * The receiver against any sender at all: whatever fragments come in, each byte of a message that is
 * handed out was carried by a fragment which said the same about the message as all others that were
 * let in, and lies within the length allowed.
 */
module DtlsAnySender {
  import opened Prelude
  import opened DtlsMessages
  import opened DtlsReceive

  datatype Event = Hear(f: Fragment) | Take

  /** The receiver, the fragments it did not refuse, and what it handed out. */
  datatype Run = Run(s: State, heard: seq<Fragment>, delivered: seq<Message>, failed: bool)

  ghost function OnEvent(r: Run, N: nat, maxLen: nat, e: Event): Run {
    if r.failed then r
    else match e
      case Hear(f) =>
        var o := OnFragment(r.s, N, maxLen, f);
        if o.verdict == Success then r.(s := o.s, heard := r.heard + [f]) else r.(s := o.s, failed := true)
      case Take =>
        if Available(r.s) then r.(s := Advance(r.s), delivered := r.delivered + [Current(r.s)]) else r
  }

  ghost function RunOf(base: nat, epoch: nat, N: nat, maxLen: nat, es: seq<Event>): Run {
    if es == [] then Run(State(base, epoch, map[], false, false), [], [], false)
    else OnEvent(RunOf(base, epoch, N, maxLen, es[..|es| - 1]), N, maxLen, es[|es| - 1])
  }

  /** The fragment carries byte k of message q of this type and length as b. */
  predicate Carries(f: Fragment, q: nat, typ: byte, len: nat, k: nat, b: byte) {
    && f.seqNum == q && f.typ == typ && f.msgLen == len
    && f.off + |f.body| <= len && f.off <= k < f.off + |f.body| && f.body[k - f.off] == b
  }

  ghost predicate Carried(heard: seq<Fragment>, q: nat, typ: byte, len: nat, k: nat, b: byte) {
    exists j :: 0 <= j < |heard| && Carries(heard[j], q, typ, len, k, b)
  }

  /** All that is known of message q was carried. */
  ghost predicate Backed(heard: seq<Fragment>, q: nat, p: Partial, maxLen: nat) {
    p.msgLen <= maxLen && forall k :: k in p.got ==> k < p.msgLen && Carried(heard, q, p.typ, p.msgLen, k, p.got[k])
  }

  /** A message that was handed out, with each of its bytes carried. */
  ghost predicate Vouched(heard: seq<Fragment>, m: Message, maxLen: nat) {
    |m.body| <= maxLen && forall k :: 0 <= k < |m.body| ==> Carried(heard, m.seqNum, m.typ, |m.body|, k, m.body[k])
  }

  ghost predicate Inv(r: Run, base: nat, N: nat, maxLen: nat) {
    && r.s.next == (base + |r.delivered|) % 0x1_0000
    && (forall q :: q in r.s.parts ==> Backed(r.heard, q, r.s.parts[q], maxLen))
    && (forall i :: 0 <= i < |r.delivered| ==>
          r.delivered[i].seqNum == (base + i) % 0x1_0000 && Vouched(r.heard, r.delivered[i], maxLen))
  }

  lemma {:induction false} CarriedSnoc(heard: seq<Fragment>, f: Fragment, q: nat, typ: byte, len: nat, k: nat, b: byte)
    ensures Carried(heard, q, typ, len, k, b) ==> Carried(heard + [f], q, typ, len, k, b)
    ensures Carries(f, q, typ, len, k, b) ==> Carried(heard + [f], q, typ, len, k, b)
  {
    var more := heard + [f];
    if Carried(heard, q, typ, len, k, b) {
      var j :| 0 <= j < |heard| && Carries(heard[j], q, typ, len, k, b);
      assert more[j] == heard[j];
    }
    assert more[|heard|] == f;
  }

  lemma {:induction false} BackedSnoc(heard: seq<Fragment>, f: Fragment, q: nat, p: Partial, maxLen: nat)
    requires Backed(heard, q, p, maxLen)
    ensures Backed(heard + [f], q, p, maxLen)
  {
    hide Carried;
    forall k | k in p.got ensures k < p.msgLen && Carried(heard + [f], q, p.typ, p.msgLen, k, p.got[k]) {
      CarriedSnoc(heard, f, q, p.typ, p.msgLen, k, p.got[k]);
    }
  }

  lemma {:induction false} VouchedSnoc(heard: seq<Fragment>, f: Fragment, m: Message, maxLen: nat)
    requires Vouched(heard, m, maxLen)
    ensures Vouched(heard + [f], m, maxLen)
  {
    hide Carried;
    forall k | 0 <= k < |m.body| ensures Carried(heard + [f], m.seqNum, m.typ, |m.body|, k, m.body[k]) {
      CarriedSnoc(heard, f, m.seqNum, m.typ, |m.body|, k, m.body[k]);
    }
  }

  /** Merging a fragment that agrees with the message keeps it backed. */
  lemma {:induction false} MergeBacked(heard: seq<Fragment>, f: Fragment, p: Partial, maxLen: nat)
    requires Backed(heard, f.seqNum, p, maxLen) && p.typ == f.typ && p.msgLen == f.msgLen
    requires f.off + |f.body| <= f.msgLen
    ensures Backed(heard + [f], f.seqNum, Merge(p, f), maxLen)
  {
    hide Carried, Covered;
    var r := Merge(p, f);
    forall k | k in r.got ensures k < r.msgLen && Carried(heard + [f], f.seqNum, r.typ, r.msgLen, k, r.got[k]) {
      CarriedSnoc(heard, f, f.seqNum, r.typ, r.msgLen, k, r.got[k]);
    }
  }

  /** While a message is not whole, what comes last overwrites what was there; a whole one is left alone. */
  lemma {:induction false} LastFragmentWins(p: Partial, f: Fragment, k: nat)
    requires k in Merge(p, f).got
    ensures var whole := forall j: nat :: j < p.msgLen ==> j in p.got;
            Merge(p, f).got[k] == if !whole && f.off <= k < f.off + |f.body| then f.body[k - f.off]
                                  else if k in p.got then p.got[k] else 0
    ensures var whole := forall j: nat :: j < p.msgLen ==> j in p.got;
            k in p.got || (!whole && f.off <= k < f.off + |f.body|)
  {
  }

  lemma {:induction false} HearKeeps(r: Run, base: nat, N: nat, maxLen: nat, f: Fragment)
    requires Inv(r, base, N, maxLen) && !r.failed
    ensures Inv(OnEvent(r, N, maxLen, Hear(f)), base, N, maxLen)
  {
    hide Backed, Vouched, Merge;
    var o := OnFragment(r.s, N, maxLen, f);
    forall q | q in r.s.parts ensures Backed(r.heard + [f], q, r.s.parts[q], maxLen) {
      BackedSnoc(r.heard, f, q, r.s.parts[q], maxLen);
    }
    forall i | 0 <= i < |r.delivered| ensures Vouched(r.heard + [f], r.delivered[i], maxLen) {
      VouchedSnoc(r.heard, f, r.delivered[i], maxLen);
    }
    if o.verdict == Success && o.s != r.s {
      var p := PartOf(r.s, f);
      NothingBacked(r.heard, f, maxLen);
      MergeBacked(r.heard, f, p, maxLen);
    }
  }

  lemma {:induction false} NothingBacked(heard: seq<Fragment>, f: Fragment, maxLen: nat)
    ensures f.msgLen <= maxLen ==> Backed(heard, f.seqNum, Partial(f.typ, f.msgLen, map[]), maxLen)
  {
  }

  lemma {:induction false} NextNumber(x: nat)
    ensures (x % 0x1_0000 + 1) % 0x1_0000 == (x + 1) % 0x1_0000
  {
  }

  lemma {:induction false} TakeKeeps(r: Run, base: nat, N: nat, maxLen: nat)
    requires Inv(r, base, N, maxLen) && !r.failed
    ensures Inv(OnEvent(r, N, maxLen, Take), base, N, maxLen)
  {
    hide Carried;
    NextNumber(base + |r.delivered|);
    if Available(r.s) {
      var m := Current(r.s);
      assert Vouched(r.heard, m, maxLen) by {
        var p := r.s.parts[r.s.next];
        assert Backed(r.heard, r.s.next, p, maxLen);
      }
    }
  }

  /** In every run against any sender: what is handed out has consecutive numbers, and all its bytes were carried. */
  lemma {:induction false} AnySender(base: nat, epoch: nat, N: nat, maxLen: nat, es: seq<Event>)
    requires base < 0x1_0000
    ensures Inv(RunOf(base, epoch, N, maxLen, es), base, N, maxLen)
    decreases |es|
  {
    if es != [] {
      hide Inv, OnEvent;
      var pre := es[..|es| - 1];
      AnySender(base, epoch, N, maxLen, pre);
      var r := RunOf(base, epoch, N, maxLen, pre);
      if r.failed {
        FailedStays(r, N, maxLen, es[|es| - 1]);
      } else {
        match es[|es| - 1]
        case Hear(f) => HearKeeps(r, base, N, maxLen, f);
        case Take => TakeKeeps(r, base, N, maxLen);
      }
    }
  }

  lemma {:induction false} FailedStays(r: Run, N: nat, maxLen: nat, e: Event)
    requires r.failed
    ensures OnEvent(r, N, maxLen, e) == r
  {
  }
}
