/**
 The environment in which the node runs a header download, and what the theorems about any
 environment say in it: work is added up modulo 2^256, a bit is kept for the heights that leave a
 random remainder, and links and difficulties are checked from header to header.
 */
module HeadersSyncNode {
  import opened HeadersSync

  const TWO_256 := 0x1_00000000_00000000_00000000_00000000_00000000_00000000_00000000_00000000

  /** What a sync is constructed with, and the functions of the node it calls. */
  datatype Node = Node(
    start: Header, startHeight: nat, startWork: nat, minWork: nat, maxCommitments: nat, offset: nat,
    hashOf: Header -> Hash, salted: Hash -> bool, permitted: (int, nat, nat) -> bool, proof: nat -> nat)

  /** The environment of a node: nothing but the node's own data and functions. */
  ghost predicate Runs(n: Node, e: Env) {
    && e.start == n.start && e.startHeight == n.startHeight && e.startWork == n.startWork
    && e.minWork == n.minWork && e.maxCommitments == n.maxCommitments
    && e.hashOf == n.hashOf && e.commitment == n.salted && e.permitted == n.permitted
    && (forall height :: e.commitsAt(height) <==> height % 584 == n.offset)
    && (forall work: nat, bits: nat :: e.addWork(work, bits) == (work + n.proof(bits)) % TWO_256)
  }

  lemma {:induction false} NodeRuns(n: Node)
    ensures Runs(n, NodeEnv(n.start, n.startHeight, n.startWork, n.minWork, n.maxCommitments, n.offset, n.hashOf,
                            n.salted, n.permitted, n.proof))
  {
  }

  // ---------------------------------------------------------------- work

  /** The proofs of work of some headers, added up. */
  function Proofs(n: Node, hs: seq<Header>): nat {
    if hs == [] then 0 else Proofs(n, hs[..|hs| - 1]) + n.proof(hs[|hs| - 1].bits)
  }

  lemma {:induction false} WrapTwice(a: nat, b: nat)
    ensures (a % TWO_256 + b) % TWO_256 == (a + b) % TWO_256
  {
    var q, r := a / TWO_256, a % TWO_256;
    var k := (r + b) / TWO_256;
    assert a + b == TWO_256 * (q + k) + (r + b) % TWO_256;
  }

  function Total(n: Node, hs: seq<Header>): nat {
    (n.startWork + Proofs(n, hs)) % TWO_256
  }

  /** The work of a chain is that of the start and of every header, modulo 2^256. */
  lemma {:induction false} WorkIsSum(n: Node, e: Env, hs: seq<Header>)
    requires Runs(n, e) && n.startWork < TWO_256
    ensures Work(e, hs) == Total(n, hs)
  {
    if hs != [] {
      WorkIsSum(n, e, Front(hs));
      WrapTwice(n.startWork + Proofs(n, Front(hs)), n.proof(hs[|hs| - 1].bits));
    }
  }

  /** Some beginning of the chain brings the required work. */
  ghost predicate Enough(n: Node, hs: seq<Header>) {
    exists k :: 0 < k <= |hs| && Total(n, hs[..k]) >= n.minWork
  }

  lemma {:induction false} EnoughNext(n: Node, hs: seq<Header>)
    requires hs != []
    ensures Enough(n, hs) <==> Enough(n, Front(hs)) || Total(n, hs) >= n.minWork
  {
    var front := Front(hs);
    assert hs[..|hs|] == hs;
    if Enough(n, hs) {
      var k :| 0 < k <= |hs| && Total(n, hs[..k]) >= n.minWork;
      assert k < |hs| ==> hs[..k] == front[..k];
    }
    if Enough(n, front) {
      var k :| 0 < k <= |front| && Total(n, front[..k]) >= n.minWork;
      assert hs[..k] == front[..k];
    }
  }

  lemma {:induction false} ReachedIsEnough(n: Node, e: Env, hs: seq<Header>)
    requires Runs(n, e) && n.startWork < TWO_256
    ensures Reached(e, hs) <==> Enough(n, hs)
  {
    if hs != [] {
      ReachedIsEnough(n, e, Front(hs));
      EnoughNext(n, hs);
      WorkIsSum(n, e, hs);
    }
  }

  // ---------------------------------------------------------------- links and difficulties

  function Before(n: Node, hs: seq<Header>, i: nat): Header
    requires i < |hs|
  {
    if i == 0 then n.start else hs[i - 1]
  }

  predicate LinkedAtEvery(n: Node, hs: seq<Header>) {
    forall i :: 0 <= i < |hs| ==> hs[i].prev == n.hashOf(Before(n, hs, i))
  }

  predicate PermittedHere(n: Node, hs: seq<Header>, i: nat)
    requires i < |hs|
  {
    n.permitted(n.startHeight + 1 + i, Before(n, hs, i).bits, hs[i].bits)
  }

  predicate PermittedAtEvery(n: Node, hs: seq<Header>) {
    forall i :: 0 <= i < |hs| ==> PermittedHere(n, hs, i)
  }

  lemma {:induction false} FrontBefore(n: Node, hs: seq<Header>, i: nat)
    requires hs != [] && i < |hs| - 1
    ensures Front(hs)[i] == hs[i] && Before(n, Front(hs), i) == Before(n, hs, i)
  {
  }

  /** A chain is linked if every header names the hash of the one before it. */
  lemma {:induction false} LinkedIs(n: Node, e: Env, hs: seq<Header>)
    requires Runs(n, e)
    ensures Linked(e, hs) <==> LinkedAtEvery(n, hs)
  {
    if hs != [] {
      LinkedIs(n, e, Front(hs));
      forall i: nat | i < |hs| - 1 ensures Front(hs)[i] == hs[i] && Before(n, Front(hs), i) == Before(n, hs, i) {
        FrontBefore(n, hs, i);
      }
      assert Last(e, Front(hs)) == Before(n, hs, |hs| - 1);
    }
  }

  /** And its difficulties are permitted if each is, at its height, after the one before it. */
  lemma {:induction false} TransitionsAre(n: Node, e: Env, hs: seq<Header>)
    requires Runs(n, e)
    ensures Transitions(e, hs) <==> PermittedAtEvery(n, hs)
  {
    if hs != [] {
      TransitionsAre(n, e, Front(hs));
      PermittedNext(n, hs);
      LastPermitted(n, e, hs);
    }
  }

  lemma {:induction false} PermittedNext(n: Node, hs: seq<Header>)
    requires hs != []
    ensures PermittedAtEvery(n, hs) <==> PermittedAtEvery(n, Front(hs)) && PermittedHere(n, hs, |hs| - 1)
  {
    forall i: nat | i < |hs| - 1 ensures PermittedHere(n, Front(hs), i) == PermittedHere(n, hs, i) {
      FrontBefore(n, hs, i);
    }
  }

  lemma {:induction false} LastPermitted(n: Node, e: Env, hs: seq<Header>)
    requires Runs(n, e) && hs != []
    ensures PermittedHere(n, hs, |hs| - 1)
            == e.permitted(e.startHeight + |hs|, Last(e, Front(hs)).bits, hs[|hs| - 1].bits)
  {
    var height := n.startHeight + 1 + (|hs| - 1);
    assert height == e.startHeight + |hs|;
  }

  // ---------------------------------------------------------------- commitments

  /** The salted bits of the first headers whose heights leave the remainder. */
  function Kept(n: Node, hs: seq<Header>, upTo: nat): seq<bool>
    requires upTo <= |hs|
  {
    if upTo == 0 then []
    else
      var rest := Kept(n, hs, upTo - 1);
      if (n.startHeight + upTo) % 584 == n.offset then rest + [n.salted(n.hashOf(hs[upTo - 1]))] else rest
  }

  lemma {:induction false} KeptFront(n: Node, hs: seq<Header>, upTo: nat)
    requires hs != [] && upTo < |hs|
    ensures Kept(n, Front(hs), upTo) == Kept(n, hs, upTo)
  {
    if upTo > 0 {
      KeptFront(n, hs, upTo - 1);
    }
  }

  /** The commitments are these bits. */
  lemma {:induction false} BitsAreKept(n: Node, e: Env, hs: seq<Header>)
    requires Runs(n, e)
    ensures Bits(e, hs) == Kept(n, hs, |hs|)
  {
    if hs != [] {
      BitsAreKept(n, e, Front(hs));
      KeptFront(n, hs, |hs| - 1);
    }
  }

  /** The node keeps one bit for 584 headers. */
  lemma {:induction false} KeptCounted(n: Node, e: Env, hs: seq<Header>)
    requires Runs(n, e) && n.offset < 584
    ensures var k := |Kept(n, hs, |hs|)|; 584 * k < |hs| + 584 && |hs| < 584 * k + 584
  {
    BitsAreKept(n, e, hs);
    CommitmentsCounted(e, n.offset, hs);
  }

  /** The headers whose bits are compared: those before the first that brings enough work. */
  lemma {:induction false} CheckedIs(n: Node, e: Env, hs: seq<Header>)
    requires Runs(n, e) && n.startWork < TWO_256
    ensures var k := |Checked(e, hs)|;
      && k <= |hs| && Checked(e, hs) == hs[..k] && !Enough(n, hs[..k]) && (k < |hs| ==> Enough(n, hs[..k + 1]))
  {
    if hs != [] {
      ReachedIsEnough(n, e, hs);
      assert hs[..|hs|] == hs;
      if Reached(e, hs) {
        var front := Front(hs);
        CheckedIs(n, e, front);
        var k := |Checked(e, hs)|;
        assert front[..k] == hs[..k];
        assert k < |front| ==> front[..k + 1] == hs[..k + 1];
      }
    }
  }

  // ---------------------------------------------------------------- the sync of a node

  /** A new sync: from the given block, its height and its work, nothing stored. */
  lemma {:induction false} BeginsAt(n: Node, e: Env)
    requires Runs(n, e)
    ensures var s := Fresh(e);
      && s.phase == PRESYNC && s.last == n.start && s.height == n.startHeight && s.work == n.startWork
      && s.commitments == [] && s.buffer == [] && TraceInv(e, NewTrace(e))
  {
    FreshTrace(e);
  }

  /** What PRESYNC asks of a message. */
  predicate Acceptable(n: Node, seen: seq<Header>, hs: seq<Header>)
    requires hs != []
  {
    var all := seen + hs;
    && hs[0].prev == n.hashOf(Before(n, all, |seen|))
    && PermittedAtEvery(n, all)
    && |Kept(n, all, |all|)| <= n.maxCommitments
  }

  lemma {:induction false} AcceptableIs(n: Node, e: Env, seen: seq<Header>, hs: seq<Header>)
    requires Runs(n, e) && hs != []
    ensures Acceptable(n, seen, hs) <==> Connects(e, seen, hs) && Transitions(e, seen + hs) && Fits(e, seen + hs)
  {
    TransitionsAre(n, e, seen + hs);
    BitsAreKept(n, e, seen + hs);
  }

  /**
   The answer to any message in PRESYNC, in the node's own terms. REDOWNLOAD begins exactly if the
   message is taken and the work of the start and of all headers seen, which is their sum as long
   as it stays below 2^256, is at least the required one; if it is less, the sync goes on only after
   a full message.
   */
  lemma {:induction false} PresyncAtNode(n: Node, e: Env, t: Trace, m: Message)
    requires Runs(n, e) && n.startWork < TWO_256
    requires TraceInv(e, t) && t.s.phase == PRESYNC && m.headers != []
    ensures var a, now, all := Process(e, t.s, m.headers, m.full), Receive(e, t, m), t.seen + m.headers;
      var ok, work := a.result.success, Total(n, all);
      && (ok <==> Acceptable(n, t.seen, m.headers))
      && (a.result.requestMore <==> ok && (m.full || work >= n.minWork))
      && (now.s.phase == REDOWNLOAD <==> ok && work >= n.minWork)
      && (now.s.phase == PRESYNC <==> ok && work < n.minWork && m.full)
      && (n.startWork + Proofs(n, all) < TWO_256 ==> work == n.startWork + Proofs(n, all))
  {
    PresyncAnswer(e, t, m);
    WorkIsSum(n, e, t.seen + m.headers);
    AcceptableIs(n, e, t.seen, m.headers);
  }

  /** What the sync of a node keeps track of. */
  lemma {:induction false} TracksAtNode(n: Node, e: Env, t: Trace)
    requires Runs(n, e) && n.startWork < TWO_256 && TraceInv(e, t)
    ensures t.s.phase == PRESYNC ==>
              && t.s.work == Total(n, t.seen) && t.s.height == n.startHeight + |t.seen|
              && t.s.commitments == Kept(n, t.seen, |t.seen|)
    ensures t.s.phase == REDOWNLOAD ==>
              && t.s.bufferWork == Total(n, t.accepted) && t.s.bufferHeight == n.startHeight + |t.accepted|
              && Kept(n, Checked(e, t.accepted), |Checked(e, t.accepted)|) + t.s.commitments
                 == Kept(n, t.seen, |t.seen|)
  {
    WorkIsSum(n, e, t.seen);
    WorkIsSum(n, e, t.accepted);
    BitsAreKept(n, e, t.seen);
    BitsAreKept(n, e, Checked(e, t.accepted));
  }

  /**
   The answer to any message in REDOWNLOAD, likewise: it is taken exactly if all that was accepted is
   linked and permitted and its bits, before there is enough work, are the first of those kept.
   */
  lemma {:induction false} RedownloadAtNode(n: Node, e: Env, t: Trace, m: Message)
    requires Runs(n, e) && n.startWork < TWO_256
    requires TraceInv(e, t) && t.s.phase == REDOWNLOAD && m.headers != []
    ensures var a, all := Process(e, t.s, m.headers, m.full), t.accepted + m.headers;
      var ok, checked := a.result.success, Checked(e, all);
      && (ok <==> LinkedAtEvery(n, all) && PermittedAtEvery(n, all)
                  && Kept(n, checked, |checked|) <= Kept(n, t.seen, |t.seen|))
      && (ok && Enough(n, all) ==> t.released + a.result.headers == all)
      && (ok && !Enough(n, all) ==> t.released + a.result.headers
                                    == if |all| <= 13959 then [] else all[..|all| - 13959])
      && (a.result.requestMore <==> ok && m.full && !Enough(n, all))
  {
    var all := t.accepted + m.headers;
    RedownloadAnswer(e, t, m);
    LinkedIs(n, e, all);
    TransitionsAre(n, e, all);
    ReachedIsEnough(n, e, all);
    BitsAreKept(n, e, t.seen);
    BitsAreKept(n, e, Checked(e, all));
  }
}
