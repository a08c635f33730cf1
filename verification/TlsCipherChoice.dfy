/** ssl3_choose_cipher: the server's choice among the shared ciphers, with equal-preference groups. */
module TlsCipherChoice {
  import opened Prelude
  import opened Bits

  datatype Cipher = Cipher(id: nat, minVersion: nat, maxVersion: nat, mkey: nat, auth: nat)

  /** The negotiated version and the masks of ssl_get_compatible_server_ciphers. */
  datatype Config = Config(version: nat, maskK: nat, maskA: nat)

  predicate Supported(g: Config, c: Cipher) {
    && c.minVersion <= g.version <= c.maxVersion
    && BitAnd(c.mkey, g.maskK) != 0
    && BitAnd(c.auth, g.maskA) != 0
  }

  /** The cipher can be used and the other side has it. */
  predicate Eligible(g: Config, allow: seq<Cipher>, c: Cipher) {
    Supported(g, c) && c in allow
  }

  /** sk_SSL_CIPHER_find: the first index of c. */
  function IndexOf(s: seq<Cipher>, c: Cipher): (i: nat)
    requires c in s
    ensures i < |s| && s[i] == c && c !in s[..i]
  {
    if s[0] == c then 0 else 1 + IndexOf(s[1..], c)
  }

  /** The last element of i's group: the first flag that is 0 from i on, or the end of the list. No flags: groups of one. */
  function GroupEnd(flags: Option<seq<bool>>, n: nat, i: nat): (e: nat)
    requires flags.Some? ==> |flags.value| == n
    ensures e >= i
    ensures flags.Some? ==> forall k :: i <= k < e && k < n ==> flags.value[k]
    ensures flags.Some? && e < n ==> !flags.value[e]
    decreases n - i
  {
    if i >= n || flags == None || !flags.value[i] then i else GroupEnd(flags, n, i + 1)
  }

  /** Position i is a candidate: an eligible cipher of a group that is closed by a 0. */
  ghost predicate Candidate(g: Config, prio: seq<Cipher>, allow: seq<Cipher>, flags: Option<seq<bool>>, i: nat)
    requires flags.Some? ==> |flags.value| == |prio|
  {
    i < |prio| && Eligible(g, allow, prio[i]) && GroupEnd(flags, |prio|, i) < |prio|
  }

  /** Candidate i comes before or with candidate j: an earlier group, or the same group and no later in the other side's list. */
  ghost predicate Precedes(prio: seq<Cipher>, allow: seq<Cipher>, flags: Option<seq<bool>>, i: nat, j: nat)
    requires flags.Some? ==> |flags.value| == |prio|
    requires i < |prio| && j < |prio| && prio[i] in allow && prio[j] in allow
  {
    var a, b := GroupEnd(flags, |prio|, i), GroupEnd(flags, |prio|, j);
    a < b || (a == b && IndexOf(allow, prio[i]) <= IndexOf(allow, prio[j]))
  }

  ghost predicate Best(g: Config, prio: seq<Cipher>, allow: seq<Cipher>, flags: Option<seq<bool>>, i: nat)
    requires flags.Some? ==> |flags.value| == |prio|
  {
    && Candidate(g, prio, allow, flags, i)
    && forall j: nat :: Candidate(g, prio, allow, flags, j) ==> Precedes(prio, allow, flags, i, j)
  }

  /** r is the best candidate, or there is none. */
  ghost predicate Optimal(g: Config, prio: seq<Cipher>, allow: seq<Cipher>, flags: Option<seq<bool>>, r: Option<Cipher>)
    requires flags.Some? ==> |flags.value| == |prio|
  {
    match r
    case None => forall i: nat :: !Candidate(g, prio, allow, flags, i)
    case Some(c) => exists i: nat :: Best(g, prio, allow, flags, i) && prio[i] == c
  }

  lemma {:induction false} EligibleIsShared(g: Config, allow: seq<Cipher>, c: Cipher)
    requires Eligible(g, allow, c)
    ensures c in allow
  {
  }

  /** There is only one best choice. */
  lemma {:induction false} OptimalUnique(g: Config, prio: seq<Cipher>, allow: seq<Cipher>, flags: Option<seq<bool>>,
                                         r: Option<Cipher>, s: Option<Cipher>)
    requires flags.Some? ==> |flags.value| == |prio|
    requires Optimal(g, prio, allow, flags, r) && Optimal(g, prio, allow, flags, s)
    ensures r == s
  {
    hide GroupEnd, IndexOf, Eligible;
    if r.Some? && s.Some? {
      var i: nat :| Best(g, prio, allow, flags, i) && prio[i] == r.value;
      var j: nat :| Best(g, prio, allow, flags, j) && prio[j] == s.value;
      assert Precedes(prio, allow, flags, i, j) && Precedes(prio, allow, flags, j, i);
      EligibleIsShared(g, allow, prio[i]);
      EligibleIsShared(g, allow, prio[j]);
      assert allow[IndexOf(allow, prio[i])] == allow[IndexOf(allow, prio[j])];
    }
  }

  /** Positions up to i in the group that contains i or starts after it share its end. */
  lemma {:induction false} SameGroup(flags: Option<seq<bool>>, n: nat, s: nat, i: nat)
    requires flags.Some? ==> |flags.value| == n
    requires s <= i < n && (flags == None ==> s == i)
    requires flags.Some? ==> forall k :: s <= k < i ==> flags.value[k]
    ensures GroupEnd(flags, n, s) == GroupEnd(flags, n, i)
    decreases i - s
  {
    if s < i {
      SameGroup(flags, n, s + 1, i);
    }
  }

  method ChooseFrom(g: Config, prio: seq<Cipher>, allow: seq<Cipher>, flags: Option<seq<bool>>)
    returns (r: Option<Cipher>)
    requires flags.Some? ==> |flags.value| == |prio|
    ensures Optimal(g, prio, allow, flags, r)
  {
    hide GroupEnd, Eligible, IndexOf;
    var groupMin: int := -1;
    ghost var start, at: nat := 0, 0;
    var i := 0;
    while i < |prio|
      invariant start <= i <= |prio| && -1 <= groupMin < |allow|
      invariant flags == None ==> groupMin == -1 && start == i
      invariant flags.Some? ==> forall k :: start <= k < i ==> flags.value[k]
      invariant forall j: nat :: j < start && j < |prio| ==> !Candidate(g, prio, allow, flags, j)
      invariant groupMin == -1 ==> forall j: nat :: start <= j < i ==> !Eligible(g, allow, prio[j])
      invariant groupMin >= 0 ==> start <= at < i && LeastIn(g, prio, allow, start, i, at)
      invariant groupMin >= 0 ==> prio[at] in allow && IndexOf(allow, prio[at]) == groupMin
    {
      var c := prio[i];
      var inGroup := flags.Some? && flags.value[i];
      if Eligible(g, allow, c) {
        EligibleIsShared(g, allow, c);
        var index := IndexOf(allow, c);
        if inGroup {
          if groupMin == -1 || groupMin > index {
            at, groupMin := i, index;
          }
        } else {
          if groupMin != -1 && groupMin < index {
            index := groupMin;
          } else {
            at := i;
          }
          assert LeastIn(g, prio, allow, start, i + 1, at) && IndexOf(allow, prio[at]) == index;
          GroupLeast(g, prio, allow, flags, start, i, at);
          r := Some(allow[index]);
          return;
        }
      }
      if flags.Some? && !flags.value[i] && groupMin != -1 {
        GroupLeast(g, prio, allow, flags, start, i, at);
        r := Some(allow[groupMin]);
        return;
      }
      if !inGroup {
        start := i + 1;
      }
      i := i + 1;
    }
    r := None;
  }

  /** at is the eligible position in start..end whose cipher comes first in the other side's list. */
  ghost predicate LeastIn(g: Config, prio: seq<Cipher>, allow: seq<Cipher>, start: nat, end: nat, at: nat)
    requires end <= |prio|
  {
    && start <= at < end && Eligible(g, allow, prio[at])
    && forall j: nat :: start <= j < end && Eligible(g, allow, prio[j]) ==> IndexOf(allow, prio[at]) <= IndexOf(allow, prio[j])
  }

  /** The least eligible position of the first group with one is the best candidate. */
  lemma {:induction false} GroupLeast(g: Config, prio: seq<Cipher>, allow: seq<Cipher>, flags: Option<seq<bool>>,
                                      start: nat, i: nat, at: nat)
    requires flags.Some? ==> |flags.value| == |prio|
    requires start <= i < |prio| && LeastIn(g, prio, allow, start, i + 1, at)
    requires flags == None ==> start == i
    requires flags.Some? ==> !flags.value[i] && forall k :: start <= k < i ==> flags.value[k]
    requires forall j: nat :: j < start ==> !Candidate(g, prio, allow, flags, j)
    ensures Best(g, prio, allow, flags, at)
  {
    hide IndexOf;
    assert GroupEnd(flags, |prio|, i) == i;
    SameGroup(flags, |prio|, at, i);
    forall j: nat | Candidate(g, prio, allow, flags, j) ensures Precedes(prio, allow, flags, at, j) {
      if j <= i {
        SameGroup(flags, |prio|, j, i);
      }
    }
  }

  // ----- the choice in terms of the bits and flags alone

  ghost predicate ShareBit(a: nat, b: nat) {
    exists i: nat :: Bit(a, i) && Bit(b, i)
  }

  /** The cipher has the version, a key exchange and an authentication that the server can do. */
  ghost predicate Usable(g: Config, c: Cipher) {
    c.minVersion <= g.version <= c.maxVersion && ShareBit(c.mkey, g.maskK) && ShareBit(c.auth, g.maskA)
  }

  lemma {:induction false} HasBit(w: nat) returns (i: nat)
    requires w != 0
    ensures Bit(w, i)
  {
    if w % 2 == 1 {
      i := 0;
    } else {
      var j := HasBit(w / 2);
      i := j + 1;
    }
  }

  lemma {:induction false} AndSharesBit(a: nat, b: nat)
    ensures BitAnd(a, b) != 0 <==> ShareBit(a, b)
  {
    if BitAnd(a, b) != 0 {
      var i := HasBit(BitAnd(a, b));
      BitOfAnd(a, b, i);
    }
    if i: nat :| Bit(a, i) && Bit(b, i) {
      BitOfAnd(a, b, i);
      BitOfZero(i);
    }
  }

  lemma {:induction false} EligibleExact(g: Config, allow: seq<Cipher>, c: Cipher)
    ensures Eligible(g, allow, c) <==> Usable(g, c) && c in allow
  {
    hide BitAnd, ShareBit;
    AndSharesBit(c.mkey, g.maskK);
    AndSharesBit(c.auth, g.maskA);
  }

  /** Positions of one group: every flag from the one up to the other is set. */
  ghost predicate Together(flags: Option<seq<bool>>, i: nat, j: nat) {
    i == j || (flags.Some? && forall k :: i <= k < j || j <= k < i ==> 0 <= k < |flags.value| && flags.value[k])
  }

  /** Nothing usable that the other side has stands in an earlier group than position i, nor earlier in
      the other side's list within its group. */
  ghost predicate Wins(g: Config, prio: seq<Cipher>, allow: seq<Cipher>, flags: Option<seq<bool>>, i: nat) {
    && i < |prio| && Usable(g, prio[i]) && prio[i] in allow
    && forall j: nat :: j < |prio| && Usable(g, prio[j]) && prio[j] in allow ==>
         && (j < i ==> Together(flags, j, i))
         && (Together(flags, j, i) ==> IndexOf(allow, prio[i]) <= IndexOf(allow, prio[j]))
  }

  lemma {:induction false} BestWins(g: Config, prio: seq<Cipher>, allow: seq<Cipher>, flags: Option<seq<bool>>, i: nat)
    requires flags.Some? ==> |flags.value| == |prio|
    requires Best(g, prio, allow, flags, i)
    ensures Wins(g, prio, allow, flags, i)
  {
    hide IndexOf, Eligible, Usable;
    EligibleExact(g, allow, prio[i]);
    forall j: nat | j < |prio| && Usable(g, prio[j]) && prio[j] in allow
      ensures j < i ==> Together(flags, j, i)
      ensures Together(flags, j, i) ==> IndexOf(allow, prio[i]) <= IndexOf(allow, prio[j])
    {
      EligibleExact(g, allow, prio[j]);
      if Together(flags, j, i) {
        if j <= i {
          SameGroup(flags, |prio|, j, i);
        } else {
          SameGroup(flags, |prio|, i, j);
        }
        assert Precedes(prio, allow, flags, i, j);
      } else if j < i {
        EarlierGroup(flags, |prio|, j, i);
        ClosedIsCandidate(g, prio, allow, flags, j);
        assert false;
      }
    }
  }

  /** A position before i that is not of its group is of one that ends before i. */
  lemma {:induction false} EarlierGroup(flags: Option<seq<bool>>, n: nat, j: nat, i: nat)
    requires flags.Some? ==> |flags.value| == n
    requires j < i < n && !Together(flags, j, i)
    ensures GroupEnd(flags, n, j) < i <= GroupEnd(flags, n, i)
    decreases i - j
  {
    if flags.Some? && flags.value[j] && j + 1 < i {
      EarlierGroup(flags, n, j + 1, i);
    }
  }

  /** ssl3_choose_cipher; preferServer is SSL_OP_CIPHER_SERVER_PREFERENCE. */
  method ChooseCipher(g: Config, client: seq<Cipher>, server: seq<Cipher>, flags: Option<seq<bool>>, preferServer: bool)
    returns (r: Option<Cipher>)
    requires flags.Some? ==> |flags.value| == |server|
    ensures preferServer ==> Optimal(g, server, client, flags, r)
    ensures !preferServer ==> Optimal(g, client, server, None, r)
    ensures r.Some? ==> r.value in client && r.value in server && Usable(g, r.value)
    ensures r == None && (preferServer && flags.Some? && server != [] ==> !flags.value[|server| - 1]) ==>
              forall c :: c in client && c in server ==> !Usable(g, c)
    ensures r.Some? ==>
              exists i: nat :: if preferServer then Wins(g, server, client, flags, i) && server[i] == r.value
                               else Wins(g, client, server, None, i) && client[i] == r.value
  {
    if preferServer {
      r := ChooseFrom(g, server, client, flags);
      ChoiceMeans(g, server, client, flags, r);
    } else {
      r := ChooseFrom(g, client, server, None);
      ChoiceMeans(g, client, server, None, r);
    }
  }

  lemma {:induction false} ChoiceMeans(g: Config, prio: seq<Cipher>, allow: seq<Cipher>, flags: Option<seq<bool>>,
                                       r: Option<Cipher>)
    requires flags.Some? ==> |flags.value| == |prio|
    requires Optimal(g, prio, allow, flags, r)
    ensures r.Some? ==> exists i: nat :: Wins(g, prio, allow, flags, i) && prio[i] == r.value
    ensures r == None && (flags.Some? && prio != [] ==> !flags.value[|prio| - 1]) ==>
              forall c :: c in allow && c in prio ==> !Usable(g, c)
  {
    hide Eligible, IndexOf, Usable, Precedes, GroupEnd;
    if r.Some? {
      var i: nat :| Best(g, prio, allow, flags, i) && prio[i] == r.value;
      BestWins(g, prio, allow, flags, i);
    } else if flags.Some? && prio != [] ==> !flags.value[|prio| - 1] {
      NoneIffNothingShared(g, prio, allow, flags, r);
      forall c | c in allow && c in prio ensures !Usable(g, c) {
        EligibleExact(g, allow, c);
      }
    }
  }

  /** With flags that close the last group, nothing is chosen exactly when nothing is shared and supported. */
  lemma {:induction false} NoneIffNothingShared(g: Config, prio: seq<Cipher>, allow: seq<Cipher>,
                                                flags: Option<seq<bool>>, r: Option<Cipher>)
    requires flags.Some? ==> |flags.value| == |prio|
    requires Optimal(g, prio, allow, flags, r)
    requires flags.Some? && prio != [] ==> !flags.value[|prio| - 1]
    ensures r == None <==> forall i :: 0 <= i < |prio| ==> !Eligible(g, allow, prio[i])
  {
    hide Eligible, IndexOf, Precedes;
    forall i: nat | i < |prio| ensures GroupEnd(flags, |prio|, i) < |prio| {
      LastCloses(flags, |prio|, i);
    }
    if r == None {
      forall i | 0 <= i < |prio| ensures !Eligible(g, allow, prio[i]) {
        assert !Candidate(g, prio, allow, flags, i);
      }
    }
  }

  lemma {:induction false} LastCloses(flags: Option<seq<bool>>, n: nat, i: nat)
    requires i < n && (flags.Some? ==> |flags.value| == n && !flags.value[n - 1])
    ensures GroupEnd(flags, n, i) < n
    decreases n - i
  {
    if flags.Some? && flags.value[i] {
      LastCloses(flags, n, i + 1);
    }
  }

  /** Position i stands in a group that a 0 closes. */
  predicate Closed(flags: Option<seq<bool>>, n: nat, i: nat)
    requires flags.Some? ==> |flags.value| == n
  {
    i < n && GroupEnd(flags, n, i) < n
  }

  /** Every supported cipher behind the last 0 also stands in a closed group. */
  ghost predicate TailRepeats(g: Config, prio: seq<Cipher>, flags: Option<seq<bool>>)
    requires flags.Some? ==> |flags.value| == |prio|
  {
    forall i: nat :: i < |prio| && Supported(g, prio[i]) ==> exists j: nat :: Closed(flags, |prio|, j) && prio[j] == prio[i]
  }

  /** Whatever the other side offers, none is chosen exactly when nothing is shared and supported. */
  ghost predicate NoneMeansNothing(g: Config, prio: seq<Cipher>, flags: Option<seq<bool>>)
    requires flags.Some? ==> |flags.value| == |prio|
  {
    forall allow: seq<Cipher>, r: Option<Cipher> :: Optimal(g, prio, allow, flags, r) ==>
      (r == None <==> forall i: nat :: i < |prio| ==> !Eligible(g, allow, prio[i]))
  }

  /** A cipher that stands only behind the last 0 is never chosen, not even if it is all there is. */
  lemma {:induction false} OpenGroupIsLost(g: Config, prio: seq<Cipher>, flags: Option<seq<bool>>, i: nat)
    requires flags.Some? ==> |flags.value| == |prio|
    requires i < |prio| && Supported(g, prio[i])
    requires forall j: nat :: Closed(flags, |prio|, j) ==> prio[j] != prio[i]
    ensures Eligible(g, [prio[i]], prio[i]) && Optimal(g, prio, [prio[i]], flags, None)
  {
    forall j: nat ensures !Candidate(g, prio, [prio[i]], flags, j) {
      assert j < |prio| && GroupEnd(flags, |prio|, j) < |prio| ==> Closed(flags, |prio|, j);
    }
  }

  lemma {:induction false} RepeatedTailIsFound(g: Config, prio: seq<Cipher>, allow: seq<Cipher>,
                                               flags: Option<seq<bool>>, i: nat)
    requires flags.Some? ==> |flags.value| == |prio|
    requires TailRepeats(g, prio, flags) && Optimal(g, prio, allow, flags, None) && i < |prio|
    ensures !Eligible(g, allow, prio[i])
  {
    hide GroupEnd, BitAnd, Candidate;
    if Eligible(g, allow, prio[i]) {
      var j: nat :| Closed(flags, |prio|, j) && prio[j] == prio[i];
      ClosedIsCandidate(g, prio, allow, flags, j);
    }
  }

  lemma {:induction false} ClosedIsCandidate(g: Config, prio: seq<Cipher>, allow: seq<Cipher>,
                                             flags: Option<seq<bool>>, j: nat)
    requires flags.Some? ==> |flags.value| == |prio|
    requires Closed(flags, |prio|, j) && Eligible(g, allow, prio[j])
    ensures Candidate(g, prio, allow, flags, j)
  {
    hide GroupEnd, Eligible;
  }

  /** Exactly the flags under which no shared cipher is passed over. */
  lemma {:induction false} NoneExact(g: Config, prio: seq<Cipher>, flags: Option<seq<bool>>)
    requires flags.Some? ==> |flags.value| == |prio|
    ensures NoneMeansNothing(g, prio, flags) <==> TailRepeats(g, prio, flags)
  {
    hide IndexOf, Precedes, GroupEnd, Supported;
    if TailRepeats(g, prio, flags) {
      forall allow: seq<Cipher>, r: Option<Cipher> | Optimal(g, prio, allow, flags, r)
        ensures r == None <==> forall i: nat :: i < |prio| ==> !Eligible(g, allow, prio[i])
      {
        if r == None {
          hide Optimal;
          forall i: nat | i < |prio| ensures !Eligible(g, allow, prio[i]) {
            RepeatedTailIsFound(g, prio, allow, flags, i);
          }
        } else {
          var i: nat :| Best(g, prio, allow, flags, i) && prio[i] == r.value;
        }
      }
    } else {
      hide Optimal;
      var i: nat :| i < |prio| && Supported(g, prio[i]) && !exists j: nat :: Closed(flags, |prio|, j) && prio[j] == prio[i];
      OpenGroupIsLost(g, prio, flags, i);
    }
  }

  /** In client order the choice is the first cipher of the client that the server has and supports. */
  lemma {:induction false} ClientOrder(g: Config, client: seq<Cipher>, server: seq<Cipher>, r: Option<Cipher>, i: nat)
    requires Optimal(g, client, server, None, r)
    requires i < |client| && Eligible(g, server, client[i]) && forall j :: 0 <= j < i ==> !Eligible(g, server, client[j])
    ensures r == Some(client[i])
  {
    hide Eligible, IndexOf;
    assert Candidate(g, client, server, None, i);
    var k: nat :| Best(g, client, server, None, k) && client[k] == r.value;
    assert Precedes(client, server, None, k, i);
  }
}
