/**
 HeadersSyncState: the two-phase header download. PRESYNC keeps one salted bit for every
 HEADER_COMMITMENT_PERIOD-th header of a peer's chain; REDOWNLOAD checks the bits against
 the second copy and releases headers once enough of them lie on top.

 The functions say what each call does to the state; the class at the end is the mutable
 object, proved against them.
 */
module HeadersSync {

  type Hash = nat
  const NULL_HASH: Hash := 0

  const HEADER_COMMITMENT_PERIOD := 584
  const REDOWNLOAD_BUFFER_SIZE := 13959
  const WORK_MODULUS := 0x1_00000000_00000000_00000000_00000000_00000000_00000000_00000000_00000000

  datatype Header = Header(version: int, prev: Hash, merkleRoot: Hash, time: nat, bits: nat, nonce: nat)
  const NULL_HEADER := Header(0, NULL_HASH, NULL_HASH, 0, 0, 0)

  /** A header without its predecessor's hash. */
  datatype Compressed = Compressed(version: int, merkleRoot: Hash, time: nat, bits: nat, nonce: nat) {
    function GetFullHeader(prev: Hash): Header {
      Header(version, prev, merkleRoot, time, bits, nonce)
    }
  }

  function Compress(h: Header): Compressed {
    Compressed(h.version, h.merkleRoot, h.time, h.bits, h.nonce)
  }

  /**
   What a sync is given: the block it starts from, the work to reach, the bound on the
   number of commitments, the heights committed to, the block hash, the salted bit, the
   permitted difficulty changes and the way work is added up. Nothing is assumed of the
   functions; `NodeEnv` gives the heights and the 256-bit sum the node uses.
   */
  datatype Env = Env(
    start: Header, startHeight: nat, startWork: nat, minWork: nat, maxCommitments: nat, commitsAt: int -> bool,
    hashOf: Header -> Hash, commitment: Hash -> bool, permitted: (int, nat, nat) -> bool, addWork: (nat, nat) -> nat)

  function NodeEnv(
    start: Header, startHeight: nat, startWork: nat, minWork: nat, maxCommitments: nat, offset: nat,
    hashOf: Header -> Hash, commitment: Hash -> bool, permitted: (int, nat, nat) -> bool, proof: nat -> nat): Env
  {
    Env(start, startHeight, startWork, minWork, maxCommitments,
        (height: int) => height % HEADER_COMMITMENT_PERIOD == offset, hashOf, commitment, permitted,
        (work: nat, bits: nat) => (work + proof(bits)) % WORK_MODULUS)
  }

  datatype Phase = PRESYNC | REDOWNLOAD | FINAL

  datatype Sync = Sync(
    phase: Phase, work: nat, commitments: seq<bool>, last: Header, height: int,
    buffer: seq<Compressed>, bufferHeight: int, bufferLastHash: Hash, bufferPrevHash: Hash, bufferWork: nat,
    releaseAll: bool)

  function Fresh(e: Env): Sync {
    Sync(PRESYNC, e.startWork, [], e.start, e.startHeight, [], 0, NULL_HASH, NULL_HASH, 0, false)
  }

  function BitOf(e: Env, h: Header): bool {
    e.commitment(e.hashOf(h))
  }

  // ---------------------------------------------------------------- the calls

  datatype Outcome = Outcome(ok: bool, s: Sync)

  /** The state Finalize leaves. */
  function Finalized(s: Sync): Sync {
    s.(phase := FINAL, commitments := [], last := NULL_HEADER, height := 0, buffer := [],
       bufferLastHash := NULL_HASH, bufferPrevHash := NULL_HASH, releaseAll := false)
  }

  /** ValidateAndProcessSingleHeader. */
  function PresyncOne(e: Env, s: Sync, h: Header): Outcome {
    var next := s.height + 1;
    if s.phase != PRESYNC || !e.permitted(next, s.last.bits, h.bits) then Outcome(false, s)
    else
      var t := if e.commitsAt(next) then s.(commitments := s.commitments + [BitOf(e, h)]) else s;
      if e.commitsAt(next) && |t.commitments| > e.maxCommitments then Outcome(false, t)
      else Outcome(true, t.(work := e.addWork(s.work, h.bits), last := h, height := next))
  }

  function PresyncAll(e: Env, s: Sync, hs: seq<Header>): Outcome
    decreases |hs|
  {
    if hs == [] then Outcome(true, s)
    else
      var o := PresyncOne(e, s, hs[0]);
      if !o.ok then o else PresyncAll(e, o.s, hs[1..])
  }

  function BeginRedownload(e: Env, s: Sync): Sync {
    s.(buffer := [], bufferHeight := e.startHeight, bufferPrevHash := e.hashOf(e.start),
       bufferLastHash := e.hashOf(e.start), bufferWork := e.startWork, phase := REDOWNLOAD)
  }

  /** ValidateAndStoreHeadersCommitments. */
  function StoreCommitments(e: Env, s: Sync, hs: seq<Header>): Outcome {
    if hs == [] then Outcome(true, s)
    else if s.phase != PRESYNC || hs[0].prev != e.hashOf(s.last) then Outcome(false, s)
    else
      var o := PresyncAll(e, s, hs);
      if o.ok && o.s.work >= e.minWork then Outcome(true, BeginRedownload(e, o.s)) else o
  }

  /** ValidateAndStoreRedownloadedHeader. */
  function RedownloadOne(e: Env, s: Sync, h: Header): Outcome {
    var next := s.bufferHeight + 1;
    var previousBits := if s.buffer != [] then s.buffer[|s.buffer| - 1].bits else e.start.bits;
    if s.phase != REDOWNLOAD || h.prev != s.bufferLastHash || !e.permitted(next, previousBits, h.bits)
    then Outcome(false, s)
    else
      var work := e.addWork(s.bufferWork, h.bits);
      var t := s.(bufferWork := work, releaseAll := s.releaseAll || work >= e.minWork);
      var u := t.(buffer := t.buffer + [Compress(h)], bufferHeight := next, bufferLastHash := e.hashOf(h));
      if t.releaseAll || !e.commitsAt(next) then Outcome(true, u)
      else if t.commitments == [] then Outcome(false, t)
      else if BitOf(e, h) != t.commitments[0] then Outcome(false, t.(commitments := t.commitments[1..]))
      else Outcome(true, u.(commitments := t.commitments[1..]))
  }

  function RedownloadAll(e: Env, s: Sync, hs: seq<Header>): Outcome
    decreases |hs|
  {
    if hs == [] then Outcome(true, s)
    else
      var o := RedownloadOne(e, s, hs[0]);
      if !o.ok then o else RedownloadAll(e, o.s, hs[1..])
  }

  datatype Popped = Popped(headers: seq<Header>, s: Sync)

  predicate ReadyToPop(s: Sync) {
    |s.buffer| > REDOWNLOAD_BUFFER_SIZE || (|s.buffer| > 0 && s.releaseAll)
  }

  /** PopHeadersReadyForAcceptance. */
  function Pop(e: Env, s: Sync): Popped
    decreases |s.buffer|
  {
    if !ReadyToPop(s) then Popped([], s)
    else
      var h := s.buffer[0].GetFullHeader(s.bufferPrevHash);
      var rest := Pop(e, s.(buffer := s.buffer[1..], bufferPrevHash := e.hashOf(h)));
      Popped([h] + rest.headers, rest.s)
  }

  datatype Result = Result(headers: seq<Header>, success: bool, requestMore: bool)
  datatype Answer = Answer(result: Result, s: Sync)

  /** ProcessNextHeaders before its closing Finalize. */
  function Advance(e: Env, s: Sync, hs: seq<Header>, full: bool): Answer
    requires s.phase != FINAL
  {
    if s.phase == PRESYNC then
      var o := StoreCommitments(e, s, hs);
      Answer(Result([], o.ok, o.ok && (full || o.s.phase == REDOWNLOAD)), o.s)
    else
      var o := RedownloadAll(e, s, hs);
      if !o.ok then Answer(Result([], false, false), o.s)
      else
        var p := Pop(e, o.s);
        Answer(Result(p.headers, true, !(p.s.buffer == [] && p.s.releaseAll) && full), p.s)
  }

  /** ProcessNextHeaders. */
  function Process(e: Env, s: Sync, hs: seq<Header>, full: bool): Answer {
    if hs == [] || s.phase == FINAL then Answer(Result([], false, false), s)
    else
      var a := Advance(e, s, hs, full);
      if a.result.success && a.result.requestMore then a else Answer(a.result, Finalized(a.s))
  }

  // ---------------------------------------------------------------- what a sync has seen

  function Last(e: Env, hs: seq<Header>): Header {
    if hs == [] then e.start else hs[|hs| - 1]
  }

  function Front(hs: seq<Header>): seq<Header>
    requires hs != []
  {
    hs[..|hs| - 1]
  }

  /** The headers form a chain from the starting block. */
  predicate Linked(e: Env, hs: seq<Header>) {
    hs != [] ==> hs[|hs| - 1].prev == e.hashOf(Last(e, Front(hs))) && Linked(e, Front(hs))
  }

  /** Every difficulty is a permitted change from the header's true predecessor. */
  predicate Transitions(e: Env, hs: seq<Header>) {
    hs != [] ==>
      && e.permitted(e.startHeight + |hs|, Last(e, Front(hs)).bits, hs[|hs| - 1].bits)
      && Transitions(e, Front(hs))
  }

  function Work(e: Env, hs: seq<Header>): nat {
    if hs == [] then e.startWork else e.addWork(Work(e, Front(hs)), hs[|hs| - 1].bits)
  }

  /** The commitment bits of a chain, in order of height. */
  function Bits(e: Env, hs: seq<Header>): seq<bool> {
    if hs == [] then []
    else Bits(e, Front(hs)) + if e.commitsAt(e.startHeight + |hs|) then [BitOf(e, hs[|hs| - 1])] else []
  }

  /** Whether some non-empty prefix of a chain carries the required work. */
  predicate Reached(e: Env, hs: seq<Header>) {
    hs != [] && (Reached(e, Front(hs)) || Work(e, hs) >= e.minWork)
  }

  /** The part of a chain before the required work is reached: where commitments are checked. */
  function Checked(e: Env, hs: seq<Header>): seq<Header> {
    if hs == [] then [] else if Reached(e, hs) then Checked(e, Front(hs)) else hs
  }

  // ---------------------------------------------------------------- invariants

  ghost predicate PresyncInv(e: Env, s: Sync, seen: seq<Header>) {
    && s.phase == PRESYNC
    && s.last == Last(e, seen) && s.height == e.startHeight + |seen|
    && s.work == Work(e, seen)
    && s.buffer == [] && s.commitments == Bits(e, seen) && |s.commitments| <= e.maxCommitments
    && Transitions(e, seen)
    && !s.releaseAll
  }

  /** What holds of the accepted and the released headers for good. */
  ghost predicate Durable(e: Env, seen: seq<Header>, accepted: seq<Header>, released: seq<Header>) {
    && released <= accepted
    && Linked(e, accepted)
    && Transitions(e, accepted)
    && (released == [] || |accepted| >= |released| + REDOWNLOAD_BUFFER_SIZE || Reached(e, accepted))
    && Bits(e, Checked(e, accepted)) <= Bits(e, seen)
  }

  /** The buffer is the accepted headers that are not yet released, compressed. */
  ghost predicate Buffered(buffer: seq<Compressed>, accepted: seq<Header>, n: nat) {
    && |accepted| == n + |buffer|
    && forall i :: 0 <= i < |buffer| ==> buffer[i] == Compress(accepted[n + i])
  }

  ghost predicate RedownloadInv(e: Env, s: Sync, seen: seq<Header>, accepted: seq<Header>, released: seq<Header>) {
    var n := |released|;
    && s.phase == REDOWNLOAD
    && released <= accepted && Buffered(s.buffer, accepted, n)
    && s.bufferPrevHash == e.hashOf(Last(e, released))
    && s.bufferLastHash == e.hashOf(Last(e, accepted))
    && s.bufferHeight == e.startHeight + |accepted|
    && s.bufferWork == Work(e, accepted)
    && (s.releaseAll <==> Reached(e, accepted))
    && Bits(e, Checked(e, accepted)) + s.commitments == Bits(e, seen)
    && Linked(e, accepted) && Transitions(e, accepted)
    && (released == [] || |accepted| >= n + REDOWNLOAD_BUFFER_SIZE || Reached(e, accepted))
  }

  /** Between calls the buffer still holds the predecessor of the next header. */
  ghost predicate HasPredecessor(s: Sync, accepted: seq<Header>) {
    s.buffer == [] ==> accepted == []
  }

  // ---------------------------------------------------------------- prefixes

  lemma {:induction false} PrefixLaws(e: Env, hs: seq<Header>, i: nat)
    requires i <= |hs|
    ensures Bits(e, hs[..i]) <= Bits(e, hs)
    ensures Reached(e, hs[..i]) ==> Reached(e, hs)
    ensures Transitions(e, hs) ==> Transitions(e, hs[..i])
    ensures Linked(e, hs) ==> Linked(e, hs[..i])
  {
    if i < |hs| {
      PrefixLaws(e, Front(hs), i);
      assert Front(hs)[..i] == hs[..i];
    } else {
      assert hs[..i] == hs;
    }
  }

  /** There is room for the commitments of a chain. */
  predicate Fits(e: Env, hs: seq<Header>) {
    |Bits(e, hs)| <= e.maxCommitments
  }

  lemma {:induction false} FitsPrefix(e: Env, hs: seq<Header>, more: seq<Header>)
    ensures Fits(e, hs + more) ==> Fits(e, hs)
  {
    assert (hs + more)[..|hs|] == hs;
    PrefixLaws(e, hs + more, |hs|);
  }

  /** The first headers of a chain pass if the chain does. */
  lemma {:induction false} ShorterPasses(e: Env, hs: seq<Header>, more: seq<Header>)
    ensures Transitions(e, hs + more) ==> Transitions(e, hs)
    ensures Linked(e, hs + more) ==> Linked(e, hs)
  {
    assert (hs + more)[..|hs|] == hs;
    PrefixLaws(e, hs + more, |hs|);
  }

  // ---------------------------------------------------------------- PRESYNC

  lemma {:induction false} Snoc(hs: seq<Header>, h: Header)
    ensures Front(hs + [h]) == hs && (hs + [h])[|hs + [h]| - 1] == h && |hs + [h]| == |hs| + 1
  {
  }

  lemma {:induction false} BitsSnoc(e: Env, hs: seq<Header>, h: Header)
    ensures Bits(e, hs + [h]) == Bits(e, hs) + if e.commitsAt(e.startHeight + |hs| + 1) then [BitOf(e, h)] else []
  {
    Snoc(hs, h);
    var n := |hs| + 1;
    assert |hs + [h]| == n;
  }

  lemma {:induction false} PresyncOneKeeps(e: Env, s: Sync, seen: seq<Header>, h: Header)
    requires PresyncInv(e, s, seen) && PresyncOne(e, s, h).ok
    ensures PresyncInv(e, PresyncOne(e, s, h).s, seen + [h])
  {
    Snoc(seen, h);
  }

  lemma {:induction false} PresyncAllKeeps(e: Env, s: Sync, seen: seq<Header>, hs: seq<Header>)
    requires PresyncInv(e, s, seen) && PresyncAll(e, s, hs).ok
    ensures PresyncInv(e, PresyncAll(e, s, hs).s, seen + hs)
    decreases |hs|
  {
    if hs == [] {
      assert seen + hs == seen;
    } else {
      PresyncOneKeeps(e, s, seen, hs[0]);
      PresyncAllKeeps(e, PresyncOne(e, s, hs[0]).s, seen + [hs[0]], hs[1..]);
      assert seen + [hs[0]] + hs[1..] == seen + hs;
    }
  }

  lemma {:induction false} StoreCommitmentsKeeps(e: Env, s: Sync, seen: seq<Header>, hs: seq<Header>)
    requires PresyncInv(e, s, seen) && hs != [] && StoreCommitments(e, s, hs).ok
    ensures var t := StoreCommitments(e, s, hs).s;
            if Work(e, seen + hs) >= e.minWork
            then RedownloadInv(e, t, seen + hs, [], []) && HasPredecessor(t, [])
            else PresyncInv(e, t, seen + hs)
    ensures Transitions(e, seen + hs) && |Bits(e, seen + hs)| <= e.maxCommitments
  {
    PresyncAllKeeps(e, s, seen, hs);
    assert [] + Bits(e, seen + hs) == Bits(e, seen + hs);
  }

  /** A header passes PRESYNC exactly if its difficulty is a permitted change and its commitment fits. */
  lemma {:induction false} PresyncOneExact(e: Env, s: Sync, seen: seq<Header>, h: Header)
    requires PresyncInv(e, s, seen)
    ensures PresyncOne(e, s, h).ok <==> Transitions(e, seen + [h]) && Fits(e, seen + [h])
  {
    Snoc(seen, h);
    BitsSnoc(e, seen, h);
  }

  lemma {:induction false} PresyncAllExact(e: Env, s: Sync, seen: seq<Header>, hs: seq<Header>)
    requires PresyncInv(e, s, seen)
    ensures PresyncAll(e, s, hs).ok <==> Transitions(e, seen + hs) && Fits(e, seen + hs)
    decreases |hs|
  {
    if hs == [] {
      assert seen + hs == seen;
    } else {
      var one, rest := seen + [hs[0]], hs[1..];
      assert one + rest == seen + hs;
      PresyncOneExact(e, s, seen, hs[0]);
      FitsPrefix(e, one, rest);
      ShorterPasses(e, one, rest);
      if PresyncOne(e, s, hs[0]).ok {
        PresyncOneKeeps(e, s, seen, hs[0]);
        PresyncAllExact(e, PresyncOne(e, s, hs[0]).s, one, rest);
      }
    }
  }

  /** The first header of a message builds on what has been seen. */
  predicate Connects(e: Env, seen: seq<Header>, hs: seq<Header>) {
    hs != [] && hs[0].prev == e.hashOf(Last(e, seen))
  }

  /**
   PRESYNC takes a message exactly if it connects, every difficulty in it is a permitted change
   from the header before, and there is room for its commitments.
   */
  lemma {:induction false} MessageExact(e: Env, s: Sync, seen: seq<Header>, hs: seq<Header>)
    requires PresyncInv(e, s, seen) && hs != []
    ensures StoreCommitments(e, s, hs).ok
            <==> Connects(e, seen, hs) && Transitions(e, seen + hs) && Fits(e, seen + hs)
  {
    PresyncAllExact(e, s, seen, hs);
  }

  // ---------------------------------------------------------------- REDOWNLOAD

  lemma {:induction false} LinkedAt(e: Env, hs: seq<Header>, i: nat)
    requires Linked(e, hs) && i < |hs|
    ensures hs[i].prev == e.hashOf(Last(e, hs[..i]))
  {
    if i < |hs| - 1 {
      LinkedAt(e, Front(hs), i);
      assert Front(hs)[..i] == hs[..i];
    }
  }

  lemma {:induction false} PreviousBits(
    e: Env, s: Sync, seen: seq<Header>, accepted: seq<Header>, released: seq<Header>)
    requires RedownloadInv(e, s, seen, accepted, released) && HasPredecessor(s, accepted)
    ensures (if s.buffer != [] then s.buffer[|s.buffer| - 1].bits else e.start.bits) == Last(e, accepted).bits
  {
  }

  lemma {:induction false} AcceptBuffer(buffer: seq<Compressed>, accepted: seq<Header>, n: nat, h: Header)
    requires Buffered(buffer, accepted, n)
    ensures Buffered(buffer + [Compress(h)], accepted + [h], n)
  {
  }

  /** A header accepted in REDOWNLOAD extends the accepted chain, its bit the expected one. */
  lemma {:induction false} RedownloadOneKeeps(
    e: Env, s: Sync, seen: seq<Header>, accepted: seq<Header>, released: seq<Header>, h: Header)
    requires RedownloadInv(e, s, seen, accepted, released) && HasPredecessor(s, accepted)
    requires RedownloadOne(e, s, h).ok
    ensures RedownloadInv(e, RedownloadOne(e, s, h).s, seen, accepted + [h], released)
    ensures HasPredecessor(RedownloadOne(e, s, h).s, accepted + [h])
  {
    var t := RedownloadOne(e, s, h).s;
    Snoc(accepted, h);
    PreviousBits(e, s, seen, accepted, released);
    AcceptBuffer(s.buffer, accepted, |released|, h);
    assert released <= accepted + [h];
    BitsLeft(e, seen, accepted, h, s.commitments, t.commitments);
  }

  /** What is left of the commitments after a header has been checked against the first of them. */
  lemma {:induction false} BitsLeft(
    e: Env, seen: seq<Header>, accepted: seq<Header>, h: Header, before: seq<bool>, after: seq<bool>)
    requires Bits(e, Checked(e, accepted)) + before == Bits(e, seen)
    requires if Reached(e, accepted + [h]) || !e.commitsAt(e.startHeight + |accepted| + 1) then after == before
      else before == [BitOf(e, h)] + after
    ensures Bits(e, Checked(e, accepted + [h])) + after == Bits(e, seen)
  {
    Snoc(accepted, h);
    if !Reached(e, accepted + [h]) {
      CheckedAll(e, accepted);
      CheckedAll(e, accepted + [h]);
      BitsSnoc(e, accepted, h);
    }
  }

  lemma {:induction false} CheckedAll(e: Env, hs: seq<Header>)
    requires !Reached(e, hs)
    ensures Checked(e, hs) == hs
  {
  }

  /** The headers of a message that REDOWNLOAD accepts, up to the first it rejects. */
  function AcceptedIn(e: Env, s: Sync, hs: seq<Header>): seq<Header>
    decreases |hs|
  {
    if hs == [] || !RedownloadOne(e, s, hs[0]).ok then []
    else [hs[0]] + AcceptedIn(e, RedownloadOne(e, s, hs[0]).s, hs[1..])
  }

  lemma {:induction false} Consumed(e: Env, s: Sync, seen: seq<Header>, accepted: seq<Header>, released: seq<Header>)
    requires RedownloadInv(e, s, seen, accepted, released)
    ensures Durable(e, seen, accepted, released)
  {
  }

  lemma {:induction false} Cons(front: seq<Header>, x: Header, rest: seq<Header>)
    ensures front + ([x] + rest) == front + [x] + rest && ([x] + rest)[1..] == rest
  {
  }

  lemma {:induction false} Uncons(front: seq<Header>, hs: seq<Header>)
    requires hs != []
    ensures [hs[0]] + hs[1..] == hs && front + [hs[0]] + hs[1..] == front + hs
  {
    Cons(front, hs[0], hs[1..]);
  }

  lemma {:induction false} RedownloadAllKeeps(
    e: Env, s: Sync, seen: seq<Header>, accepted: seq<Header>, released: seq<Header>, hs: seq<Header>)
    requires RedownloadInv(e, s, seen, accepted, released) && HasPredecessor(s, accepted)
    requires RedownloadAll(e, s, hs).ok
    ensures AcceptedIn(e, s, hs) == hs
    ensures RedownloadInv(e, RedownloadAll(e, s, hs).s, seen, accepted + hs, released)
    ensures HasPredecessor(RedownloadAll(e, s, hs).s, accepted + hs)
    decreases |hs|
  {
    if hs == [] {
      assert accepted + hs == accepted;
    } else {
      RedownloadOneKeeps(e, s, seen, accepted, released, hs[0]);
      RedownloadAllKeeps(e, RedownloadOne(e, s, hs[0]).s, seen, accepted + [hs[0]], released, hs[1..]);
      Uncons(accepted, hs);
    }
  }

  /** The bits checked so far are the first of those shown in PRESYNC. */
  predicate Agrees(e: Env, seen: seq<Header>, hs: seq<Header>) {
    Bits(e, Checked(e, hs)) <= Bits(e, seen)
  }

  lemma {:induction false} CheckedPrefix(e: Env, hs: seq<Header>, i: nat)
    requires i <= |hs|
    ensures Checked(e, hs[..i]) <= Checked(e, hs)
  {
    if i < |hs| {
      CheckedPrefix(e, Front(hs), i);
      assert Front(hs)[..i] == hs[..i];
      PrefixLaws(e, hs, |hs| - 1);
      if !Reached(e, hs) {
        CheckedAll(e, Front(hs));
      }
    } else {
      assert hs[..i] == hs;
    }
  }

  lemma {:induction false} ShorterAgrees(e: Env, seen: seq<Header>, hs: seq<Header>, more: seq<Header>)
    requires Agrees(e, seen, hs + more)
    ensures Agrees(e, seen, hs)
  {
    var a, b := Checked(e, hs), Checked(e, hs + more);
    assert (hs + more)[..|hs|] == hs;
    CheckedPrefix(e, hs + more, |hs|);
    assert b[..|a|] == a;
    PrefixLaws(e, b, |a|);
  }

  /** The bit of the next header is the expected one exactly if the chain with it agrees. */
  lemma {:induction false} NextBitExact(
    e: Env, seen: seq<Header>, accepted: seq<Header>, h: Header, left: seq<bool>)
    requires Bits(e, Checked(e, accepted)) + left == Bits(e, seen)
    ensures Agrees(e, seen, accepted + [h]) <==>
      || Reached(e, accepted + [h]) || !e.commitsAt(e.startHeight + |accepted| + 1)
      || (left != [] && left[0] == BitOf(e, h))
  {
    Snoc(accepted, h);
    if !Reached(e, accepted + [h]) {
      CheckedAll(e, accepted);
      CheckedAll(e, accepted + [h]);
      BitsSnoc(e, accepted, h);
      NextBit(Bits(e, accepted), left, Bits(e, seen), BitOf(e, h));
    }
  }

  lemma {:induction false} NextBit(done: seq<bool>, left: seq<bool>, all: seq<bool>, bit: bool)
    requires done + left == all
    ensures done <= all && (done + [bit] <= all <==> left != [] && left[0] == bit)
  {
    if left != [] {
      assert all[|done|] == left[0];
    }
  }

  /**
   REDOWNLOAD takes a header exactly if it builds on the last one accepted, its difficulty is a
   permitted change, and the commitment bits still agree with those of PRESYNC.
   */
  lemma {:induction false} RedownloadOneExact(
    e: Env, s: Sync, seen: seq<Header>, accepted: seq<Header>, released: seq<Header>, h: Header)
    requires RedownloadInv(e, s, seen, accepted, released) && HasPredecessor(s, accepted)
    ensures RedownloadOne(e, s, h).ok
            <==> Linked(e, accepted + [h]) && Transitions(e, accepted + [h]) && Agrees(e, seen, accepted + [h])
  {
    Snoc(accepted, h);
    PreviousBits(e, s, seen, accepted, released);
    NextBitExact(e, seen, accepted, h, s.commitments);
  }

  lemma {:induction false} RedownloadAllExact(
    e: Env, s: Sync, seen: seq<Header>, accepted: seq<Header>, released: seq<Header>, hs: seq<Header>)
    requires RedownloadInv(e, s, seen, accepted, released) && HasPredecessor(s, accepted)
    ensures RedownloadAll(e, s, hs).ok
            <==> Linked(e, accepted + hs) && Transitions(e, accepted + hs) && Agrees(e, seen, accepted + hs)
    decreases |hs|
  {
    if hs == [] {
      assert accepted + hs == accepted;
      Consumed(e, s, seen, accepted, released);
    } else {
      var one, rest := accepted + [hs[0]], hs[1..];
      Uncons(accepted, hs);
      RedownloadOneExact(e, s, seen, accepted, released, hs[0]);
      ShorterPasses(e, one, rest);
      if RedownloadOne(e, s, hs[0]).ok {
        RedownloadOneKeeps(e, s, seen, accepted, released, hs[0]);
        RedownloadAllExact(e, RedownloadOne(e, s, hs[0]).s, seen, one, released, rest);
      } else if Agrees(e, seen, accepted + hs) {
        ShorterAgrees(e, seen, one, rest);
      }
    }
  }

  /** Even a message that is rejected part way only adds headers that check out. */
  lemma {:induction false} AcceptedInDurable(
    e: Env, s: Sync, seen: seq<Header>, accepted: seq<Header>, released: seq<Header>, hs: seq<Header>)
    requires RedownloadInv(e, s, seen, accepted, released) && HasPredecessor(s, accepted)
    ensures Durable(e, seen, accepted + AcceptedIn(e, s, hs), released)
    decreases |hs|
  {
    if hs == [] || !RedownloadOne(e, s, hs[0]).ok {
      assert accepted + [] == accepted;
      Consumed(e, s, seen, accepted, released);
    } else {
      var t := RedownloadOne(e, s, hs[0]).s;
      RedownloadOneKeeps(e, s, seen, accepted, released, hs[0]);
      AcceptedInDurable(e, t, seen, accepted + [hs[0]], released, hs[1..]);
      Cons(accepted, hs[0], AcceptedIn(e, t, hs[1..]));
    }
  }

  /** One pop rebuilds the next accepted header field for field. */
  lemma {:induction false} PopOne(e: Env, s: Sync, seen: seq<Header>, accepted: seq<Header>, released: seq<Header>)
    requires RedownloadInv(e, s, seen, accepted, released) && ReadyToPop(s)
    ensures s.buffer[0].GetFullHeader(s.bufferPrevHash) == accepted[|released|]
    ensures released + [accepted[|released|]] <= accepted
    ensures RedownloadInv(e, s.(buffer := s.buffer[1..], bufferPrevHash := e.hashOf(accepted[|released|])),
                          seen, accepted, released + [accepted[|released|]])
  {
    LinkedAt(e, accepted, |released|);
    assert accepted[..|released|] == released;
    assert s.buffer[0] == Compress(accepted[|released| + 0]);
    Snoc(released, accepted[|released|]);
  }

  /** PopHeadersReadyForAcceptance returns the next stretch of the accepted chain. */
  lemma {:induction false} PopKeeps(
    e: Env, s: Sync, seen: seq<Header>, accepted: seq<Header>, released: seq<Header>)
    requires RedownloadInv(e, s, seen, accepted, released)
    ensures var p := Pop(e, s);
            && RedownloadInv(e, p.s, seen, accepted, released + p.headers)
            && !ReadyToPop(p.s) && p.s.releaseAll == s.releaseAll
            && (s.buffer != [] && !s.releaseAll ==> p.s.buffer != [])
    decreases |s.buffer|
  {
    if !ReadyToPop(s) {
      assert released + [] == released;
    } else {
      PopOne(e, s, seen, accepted, released);
      var h := accepted[|released|];
      var t := s.(buffer := s.buffer[1..], bufferPrevHash := e.hashOf(h));
      PopKeeps(e, t, seen, accepted, released + [h]);
      assert released + [h] + Pop(e, t).headers == released + Pop(e, s).headers;
    }
  }

  // ---------------------------------------------------------------- whole syncs

  datatype Message = Message(headers: seq<Header>, full: bool)

  /**
   A sync so far: its state, the PRESYNC chain and where its messages start, and the headers
   accepted and released since.
   */
  datatype Trace = Trace(
    s: Sync, seen: seq<Header>, starts: seq<nat>, accepted: seq<Header>, released: seq<Header>)

  function NewTrace(e: Env): Trace {
    Trace(Fresh(e), [], [], [], [])
  }

  /** Every message of PRESYNC builds on what was seen before it. */
  ghost predicate StartsConnect(e: Env, seen: seq<Header>, starts: seq<nat>) {
    forall i :: 0 <= i < |starts| ==> starts[i] < |seen| && Connects(e, seen[..starts[i]], seen[starts[i]..])
  }

  function Receive(e: Env, t: Trace, m: Message): Trace {
    var a := Process(e, t.s, m.headers, m.full);
    if m.headers == [] || t.s.phase == FINAL then t
    else if t.s.phase == PRESYNC then
      if !a.result.success then t.(s := a.s)
      else t.(s := a.s, seen := t.seen + m.headers, starts := t.starts + [|t.seen|])
    else t.(s := a.s, accepted := t.accepted + AcceptedIn(e, t.s, m.headers), released := t.released + a.result.headers)
  }

  ghost predicate TraceInv(e: Env, t: Trace) {
    var durable := Durable(e, t.seen, t.accepted, t.released);
    && durable
    && (t.s.phase == PRESYNC ==> PresyncInv(e, t.s, t.seen) && t.accepted == t.released == [])
    && (t.s.phase == REDOWNLOAD ==>
          && RedownloadInv(e, t.s, t.seen, t.accepted, t.released) && HasPredecessor(t.s, t.accepted)
          && Work(e, t.seen) >= e.minWork && Transitions(e, t.seen) && t.seen != [] && !Reached(e, t.accepted))
    && |Bits(e, t.seen)| <= e.maxCommitments && |t.s.buffer| <= REDOWNLOAD_BUFFER_SIZE
    && StartsConnect(e, t.seen, t.starts)
    && (t.s.phase == FINAL ==> t.s.commitments == [] && t.s.buffer == [])
  }

  lemma {:induction false} StartsOn(e: Env, seen: seq<Header>, starts: seq<nat>, hs: seq<Header>)
    requires StartsConnect(e, seen, starts) && Connects(e, seen, hs)
    ensures StartsConnect(e, seen + hs, starts + [|seen|])
  {
    var all, now := seen + hs, starts + [|seen|];
    forall i | 0 <= i < |now| ensures now[i] < |all| && Connects(e, all[..now[i]], all[now[i]..]) {
      if i < |starts| {
        assert all[..now[i]] == seen[..now[i]];
        assert Connects(e, seen[..starts[i]], seen[starts[i]..]);
      } else {
        assert all[..now[i]] == seen && all[now[i]..] == hs;
      }
    }
  }

  lemma {:induction false} ReceivePresync(e: Env, t: Trace, m: Message)
    requires TraceInv(e, t) && t.s.phase == PRESYNC && m.headers != []
    ensures TraceInv(e, Receive(e, t, m))
  {
    MessageExact(e, t.s, t.seen, m.headers);
    if StoreCommitments(e, t.s, m.headers).ok {
      StoreCommitmentsKeeps(e, t.s, t.seen, m.headers);
      StartsOn(e, t.seen, t.starts, m.headers);
    }
  }

  /** A message that REDOWNLOAD takes: headers come out, and the sync goes on if the message was full. */
  lemma {:induction false} ReceiveTaken(e: Env, t: Trace, m: Message, s: Sync, p: Popped)
    requires TraceInv(e, t) && t.s.phase == REDOWNLOAD && m.headers != []
    requires RedownloadAll(e, t.s, m.headers) == Outcome(true, s) && p == Pop(e, s)
    ensures TraceInv(e, Receive(e, t, m))
  {
    RedownloadAllKeeps(e, t.s, t.seen, t.accepted, t.released, m.headers);
    PopKeeps(e, s, t.seen, t.accepted + m.headers, t.released);
    Consumed(e, p.s, t.seen, t.accepted + m.headers, t.released + p.headers);
  }

  lemma {:induction false} ReceiveRedownload(e: Env, t: Trace, m: Message)
    requires TraceInv(e, t) && t.s.phase == REDOWNLOAD && m.headers != []
    ensures TraceInv(e, Receive(e, t, m))
  {
    var o := RedownloadAll(e, t.s, m.headers);
    if o.ok {
      ReceiveTaken(e, t, m, o.s, Pop(e, o.s));
    } else {
      AcceptedInDurable(e, t.s, t.seen, t.accepted, t.released, m.headers);
      assert t.released + [] == t.released;
    }
  }

  function ReceiveAll(e: Env, t: Trace, ms: seq<Message>): Trace
    decreases |ms|
  {
    if ms == [] then t else ReceiveAll(e, Receive(e, t, ms[0]), ms[1..])
  }

  /**
   Over a whole sync, whatever the peer sends and however it is split: the released headers
   are a prefix of those accepted in REDOWNLOAD, rebuilt exactly; the accepted headers are
   linked from the starting block, each with a permitted difficulty change from its true
   predecessor; they agree with the PRESYNC commitments until the required work is reached;
   a header is only released under REDOWNLOAD_BUFFER_SIZE accepted ones or after that; and
   the commitments and the buffer stay within their bounds (MemoryIsBounded).
   */
  lemma {:induction false} SyncIsSound(e: Env, t: Trace, ms: seq<Message>)
    requires TraceInv(e, t)
    ensures TraceInv(e, ReceiveAll(e, t, ms))
    decreases |ms|
  {
    if ms != [] {
      if ms[0].headers != [] && t.s.phase != FINAL {
        if t.s.phase == PRESYNC {
          ReceivePresync(e, t, ms[0]);
        } else {
          ReceiveRedownload(e, t, ms[0]);
        }
      }
      SyncIsSound(e, Receive(e, t, ms[0]), ms[1..]);
    }
  }

  // ---------------------------------------------------------------- every answer

  /**
   The answer to any message in PRESYNC. It succeeds exactly if the message is taken; more is
   asked for if the message was full or the required work has been shown, and REDOWNLOAD begins
   exactly in the second case. In every other case the sync is over.
   */
  lemma {:induction false} PresyncAnswer(e: Env, t: Trace, m: Message)
    requires TraceInv(e, t) && t.s.phase == PRESYNC && m.headers != []
    ensures var a, now, all := Process(e, t.s, m.headers, m.full), Receive(e, t, m), t.seen + m.headers;
      && a.result.headers == []
      && (a.result.success <==> Connects(e, t.seen, m.headers) && Transitions(e, all) && Fits(e, all))
      && (a.result.requestMore <==> a.result.success && (m.full || Work(e, all) >= e.minWork))
      && now.seen == (if a.result.success then all else t.seen) && now.accepted == now.released == []
      && (now.s.phase == REDOWNLOAD <==> a.result.success && Work(e, all) >= e.minWork)
      && (now.s.phase == PRESYNC <==> a.result.success && Work(e, all) < e.minWork && m.full)
  {
    MessageExact(e, t.s, t.seen, m.headers);
    if StoreCommitments(e, t.s, m.headers).ok {
      StoreCommitmentsKeeps(e, t.s, t.seen, m.headers);
    }
  }

  /** The headers that can be released: all once the work is reached, before that all but a buffer full. */
  function Releasable(e: Env, accepted: seq<Header>): seq<Header> {
    if Reached(e, accepted) then accepted
    else if |accepted| <= 13959 then []
    else accepted[..|accepted| - 13959]
  }

  lemma {:induction false} ReleasedExactly(
    e: Env, s: Sync, seen: seq<Header>, accepted: seq<Header>, released: seq<Header>)
    requires RedownloadInv(e, s, seen, accepted, released) && !ReadyToPop(s)
    ensures released == Releasable(e, accepted)
  {
    assert released == accepted[..|released|];
  }

  /**
   The answer to any message in REDOWNLOAD. It succeeds exactly if the headers accepted so far
   and those of the message form a chain with permitted difficulties that agrees with the
   commitments. Then everything releasable that was not released before is handed out, and more
   is asked for exactly if the message was full and the required work is still missing.
   */
  lemma {:induction false} RedownloadAnswer(e: Env, t: Trace, m: Message)
    requires TraceInv(e, t) && t.s.phase == REDOWNLOAD && m.headers != []
    ensures var a, now, all := Process(e, t.s, m.headers, m.full), Receive(e, t, m), t.accepted + m.headers;
      && (a.result.success <==> Linked(e, all) && Transitions(e, all) && Agrees(e, t.seen, all))
      && (a.result.requestMore <==> a.result.success && m.full && !Reached(e, all))
      && (if a.result.success
          then now.accepted == all && now.released == t.released + a.result.headers == Releasable(e, all)
          else a.result.headers == [] && now.released == t.released)
      && now.s.phase == (if a.result.requestMore then REDOWNLOAD else FINAL)
  {
    RedownloadAllExact(e, t.s, t.seen, t.accepted, t.released, m.headers);
    var o := RedownloadAll(e, t.s, m.headers);
    if o.ok {
      RedownloadAnswered(e, t, m, o.s, Pop(e, o.s));
    } else {
      assert t.released + [] == t.released;
    }
  }

  lemma {:induction false} RedownloadAnswered(e: Env, t: Trace, m: Message, s: Sync, p: Popped)
    requires TraceInv(e, t) && t.s.phase == REDOWNLOAD && m.headers != []
    requires RedownloadAll(e, t.s, m.headers) == Outcome(true, s) && p == Pop(e, s)
    ensures AcceptedIn(e, t.s, m.headers) == m.headers && p.s.phase == REDOWNLOAD
    ensures t.released + p.headers == Releasable(e, t.accepted + m.headers)
    ensures p.s.buffer == [] && p.s.releaseAll <==> Reached(e, t.accepted + m.headers)
  {
    var all := t.accepted + m.headers;
    RedownloadAllKeeps(e, t.s, t.seen, t.accepted, t.released, m.headers);
    PopKeeps(e, s, t.seen, all, t.released);
    ReleasedExactly(e, p.s, t.seen, all, t.released + p.headers);
  }

  /**
   The headers of a message build on one another, which callers check before they pass it on; the
   check passes over a header whose predecessor has the null hash.
   */
  predicate Continuous(e: Env, hs: seq<Header>) {
    forall i :: 0 < i < |hs| ==> e.hashOf(hs[i - 1]) != NULL_HASH ==> hs[i].prev == e.hashOf(hs[i - 1])
  }

  lemma {:induction false} LinkedOn(e: Env, seen: seq<Header>, hs: seq<Header>)
    requires Linked(e, seen) && Continuous(e, hs) && Connects(e, seen, hs) && forall h :: e.hashOf(h) != NULL_HASH
    ensures Linked(e, seen + hs)
    decreases |hs|
  {
    var front, h := hs[..|hs| - 1], hs[|hs| - 1];
    assert seen + hs == seen + front + [h];
    Snoc(seen + front, h);
    if front == [] {
      assert seen + front == seen;
    } else {
      assert Last(e, seen + front) == hs[|hs| - 2];
      LinkedOn(e, seen, front);
    }
  }

  /**
   If the headers of every message are continuous and no header has the null hash, all that was seen
   in PRESYNC is one chain from the start.
   */
  lemma {:induction false} SeenIsLinked(e: Env, t: Trace, ms: seq<Message>)
    requires TraceInv(e, t) && Linked(e, t.seen) && forall h :: e.hashOf(h) != NULL_HASH
    requires forall i :: 0 <= i < |ms| ==> Continuous(e, ms[i].headers)
    ensures Linked(e, ReceiveAll(e, t, ms).seen)
    decreases |ms|
  {
    if ms != [] {
      var now := Receive(e, t, ms[0]);
      SyncIsSound(e, t, ms[..1]);
      assert ReceiveAll(e, t, ms[..1]) == now;
      if ms[0].headers != [] && t.s.phase == PRESYNC {
        PresyncAnswer(e, t, ms[0]);
        if now.seen != t.seen {
          LinkedOn(e, t.seen, ms[0].headers);
        }
      }
      SeenIsLinked(e, now, ms[1..]);
    }
  }

  /** Calls that come too late, or with nothing, fail and change nothing. */
  lemma {:induction false} NothingToDo(e: Env, s: Sync, hs: seq<Header>, full: bool)
    requires hs == [] || s.phase == FINAL
    ensures var a := Process(e, s, hs, full);
      a.s == s && a.result.headers == [] && !a.result.success && !a.result.requestMore
  {
  }

  /** When a call ends a sync, nothing of what the peer sent is kept. */
  lemma {:induction false} OverIsCleared(e: Env, s: Sync, hs: seq<Header>, full: bool)
    requires s.phase != FINAL
    ensures var r := Process(e, s, hs, full).s;
      r.phase == FINAL ==>
        && r.commitments == [] && r.last == NULL_HEADER && r.height == 0 && r.buffer == []
        && r.bufferLastHash == r.bufferPrevHash == NULL_HASH && !r.releaseAll
  {
    if s.phase == REDOWNLOAD {
      RedownloadPhase(e, s, hs);
      PopPhase(e, RedownloadAll(e, s, hs).s);
    } else {
      PresyncPhase(e, s, hs);
    }
  }

  lemma {:induction false} PopPhase(e: Env, s: Sync)
    ensures Pop(e, s).s.phase == s.phase
    decreases |s.buffer|
  {
    if ReadyToPop(s) {
      PopPhase(e, s.(buffer := s.buffer[1..], bufferPrevHash := e.hashOf(s.buffer[0].GetFullHeader(s.bufferPrevHash))));
    }
  }

  lemma {:induction false} PresyncPhase(e: Env, s: Sync, hs: seq<Header>)
    requires s.phase == PRESYNC
    ensures PresyncAll(e, s, hs).s.phase == PRESYNC
    decreases |hs|
  {
    if hs != [] && PresyncOne(e, s, hs[0]).ok {
      PresyncPhase(e, PresyncOne(e, s, hs[0]).s, hs[1..]);
    }
  }

  /** What a peer can make a sync store between calls; nothing is kept once it is over. */
  lemma {:induction false} MemoryIsBounded(e: Env, t: Trace)
    requires TraceInv(e, t)
    ensures |t.s.commitments| <= e.maxCommitments && |t.s.buffer| <= 13959
    ensures t.s.phase == FINAL ==> t.s.commitments == [] && t.s.buffer == []
  {
    if t.s.phase == REDOWNLOAD {
      assert |Bits(e, Checked(e, t.accepted)) + t.s.commitments| == |Bits(e, t.seen)|;
    }
  }

  /** The node commits to one header in 584. */
  lemma {:induction false} CommitmentsCounted(e: Env, offset: nat, hs: seq<Header>)
    requires offset < 584 && forall height :: e.commitsAt(height) <==> height % HEADER_COMMITMENT_PERIOD == offset
    ensures var n := |Bits(e, hs)|;
      && n == (e.startHeight + |hs| - offset) / 584 - (e.startHeight - offset) / 584
      && 584 * n < |hs| + 584 && |hs| < 584 * n + 584
  {
    if hs != [] {
      CommitmentsCounted(e, offset, Front(hs));
      CountNext(e.startHeight + |hs|, offset);
    }
    CountBetween(e.startHeight - offset, e.startHeight + |hs| - offset);
  }

  /** From one height to the next the quotient grows exactly where the remainder is the offset. */
  lemma {:induction false} CountNext(h: int, offset: nat)
    requires offset < 584
    ensures (h - offset) / 584 == (h - 1 - offset) / 584 + if h % 584 == offset then 1 else 0
  {
    var x := h - 1 - offset;
    var q, r := x / 584, x % 584;
    assert x == 584 * q + r && 0 <= r < 584;
    if r == 583 {
      assert h == 584 * (q + 1) + offset;
    } else {
      assert h - offset == 584 * q + (r + 1);
    }
  }

  lemma {:induction false} CountBetween(a: int, b: int)
    requires a <= b
    ensures 584 * (b / 584 - a / 584) < b - a + 584 && b - a < 584 * (b / 584 - a / 584) + 584
  {
    assert a == 584 * (a / 584) + a % 584 && b == 584 * (b / 584) + b % 584;
  }

  lemma {:induction false} FreshTrace(e: Env)
    ensures TraceInv(e, NewTrace(e))
  {
  }

  // ---------------------------------------------------------------- an honest peer

  lemma {:induction false} NotPastSeen(e: Env, seen: seq<Header>, chain: seq<Header>, n: nat)
    requires seen <= chain && n <= |chain| && Reached(e, seen) && !Reached(e, chain[..n])
    ensures chain[..n] <= seen
  {
    if |seen| < n {
      assert chain[..n][..|seen|] == seen;
      PrefixLaws(e, chain[..n], |seen|);
    }
  }

  /** However far a chain that goes on from the one shown is served, its bits agree. */
  lemma {:induction false} RepeatedAgrees(e: Env, seen: seq<Header>, chain: seq<Header>, n: nat)
    requires seen <= chain && Reached(e, seen) && n <= |chain|
    ensures Agrees(e, seen, chain[..n])
  {
    if n > 0 {
      if Reached(e, chain[..n]) {
        RepeatedAgrees(e, seen, chain, n - 1);
        assert Front(chain[..n]) == chain[..n - 1];
      } else {
        NotPastSeen(e, seen, chain, n);
        CheckedAll(e, chain[..n]);
        assert seen[..n] == chain[..n];
        PrefixLaws(e, seen, n);
      }
    }
  }

  /** A peer that repeats the chain it showed in PRESYNC, possibly longer by now, is not rejected. */
  lemma {:induction false} RepeatedHeaderAccepted(
    e: Env, s: Sync, seen: seq<Header>, chain: seq<Header>, accepted: seq<Header>, released: seq<Header>)
    requires RedownloadInv(e, s, seen, accepted, released) && HasPredecessor(s, accepted)
    requires seen <= chain && Linked(e, chain) && Transitions(e, chain) && Reached(e, seen)
    requires accepted <= chain && |accepted| < |chain|
    ensures RedownloadOne(e, s, chain[|accepted|]).ok
  {
    var n := |accepted| + 1;
    assert chain[..n] == accepted + [chain[|accepted|]];
    PrefixLaws(e, chain, n);
    RepeatedAgrees(e, seen, chain, n);
    RedownloadOneExact(e, s, seen, accepted, released, chain[|accepted|]);
  }

  lemma {:induction false} RepeatedMessageAccepted(
    e: Env, s: Sync, seen: seq<Header>, chain: seq<Header>, accepted: seq<Header>, released: seq<Header>,
    hs: seq<Header>)
    requires RedownloadInv(e, s, seen, accepted, released) && HasPredecessor(s, accepted)
    requires seen <= chain && Linked(e, chain) && Transitions(e, chain) && Reached(e, seen)
    requires accepted + hs <= chain
    ensures RedownloadAll(e, s, hs).ok && AcceptedIn(e, s, hs) == hs
    decreases |hs|
  {
    if hs != [] {
      assert accepted == (accepted + hs)[..|accepted|];
      assert hs[0] == (accepted + hs)[|accepted|] == chain[|accepted|];
      RepeatedHeaderAccepted(e, s, seen, chain, accepted, released);
      RedownloadOneKeeps(e, s, seen, accepted, released, hs[0]);
      Uncons(accepted, hs);
      RepeatedMessageAccepted(e, RedownloadOne(e, s, hs[0]).s, seen, chain, accepted + [hs[0]], released, hs[1..]);
    }
  }

  function Concat(ms: seq<Message>): seq<Header> {
    if ms == [] then [] else ms[0].headers + Concat(ms[1..])
  }

  /** One message of the repeated chain: either more is wanted, or everything has been released. */
  lemma {:induction false} RepeatedMessage(e: Env, t: Trace, chain: seq<Header>, m: Message)
    requires TraceInv(e, t) && t.s.phase == REDOWNLOAD && m.headers != []
    requires t.seen <= chain && Linked(e, chain) && Transitions(e, chain)
    requires t.accepted + m.headers <= chain
    ensures var a := Process(e, t.s, m.headers, m.full);
            var now := Receive(e, t, m);
            && a.result.success && now.accepted == t.accepted + m.headers && now.seen == t.seen
            && if Reached(e, now.accepted) then now.released == now.accepted && now.s.phase == FINAL
               else m.full ==> a.result.requestMore && now.s.phase == REDOWNLOAD
  {
    RepeatedMessageAccepted(e, t.s, t.seen, chain, t.accepted, t.released, m.headers);
    RedownloadAllKeeps(e, t.s, t.seen, t.accepted, t.released, m.headers);
    var o := RedownloadAll(e, t.s, m.headers);
    PopKeeps(e, o.s, t.seen, t.accepted + m.headers, t.released);
  }

  /** The second pass: every message is taken, and more is asked for until all is released. */
  ghost predicate ServedToTheEnd(e: Env, t: Trace, ms: seq<Message>)
    decreases |ms|
  {
    && ms != []
    && t.s.phase == REDOWNLOAD
    && var a, now := Process(e, t.s, ms[0].headers, ms[0].full), Receive(e, t, ms[0]);
       && a.result.success
       && now.accepted == t.accepted + ms[0].headers
       && (if Reached(e, now.accepted) then now.released == now.accepted && now.s.phase == FINAL
           else a.result.requestMore && ServedToTheEnd(e, now, ms[1..]))
  }

  /**
   A peer that serves its PRESYNC chain again, in any split into non-empty messages that are
   full until the last, is never rejected: each message is answered with success and, until
   the required work is reached, with a request for more; then every header received so far
   has been released exactly once and the sync is over.
   */
  lemma {:induction false} HonestPeerIsServed(e: Env, t: Trace, chain: seq<Header>, ms: seq<Message>)
    requires TraceInv(e, t) && t.s.phase == REDOWNLOAD
    requires t.seen <= chain && Linked(e, chain) && Transitions(e, chain)
    requires t.accepted + Concat(ms) == chain && FullUntilLast(ms)
    ensures ServedToTheEnd(e, t, ms)
    decreases |ms|
  {
    assert chain[..|t.seen|] == t.seen;
    PrefixLaws(e, chain, |t.seen|);
    assert ms == [] ==> t.accepted == chain;
    if ms != [] {
      var m, rest := ms[0], ms[1..];
      ConcatSplits(t.accepted, ms);
      RepeatedMessage(e, t, chain, m);
      ReceiveRedownload(e, t, m);
      var now := Receive(e, t, m);
      if !Reached(e, now.accepted) {
        FullRest(ms, rest);
        HonestPeerIsServed(e, now, chain, rest);
      }
    }
  }

  /** Messages that are not empty, and full but for the last. */
  predicate FullUntilLast(ms: seq<Message>) {
    forall i :: 0 <= i < |ms| ==> ms[i].headers != [] && (i < |ms| - 1 ==> ms[i].full)
  }

  lemma {:induction false} FullRest(ms: seq<Message>, rest: seq<Message>)
    requires FullUntilLast(ms) && ms != [] && rest == ms[1..]
    ensures FullUntilLast(rest) && (rest != [] ==> ms[0].full)
  {
  }

  // ---------------------------------------------------------------- an honest peer's first pass

  /** The next header of an honest chain. */
  ghost predicate Follows(e: Env, chain: seq<Header>, seen: seq<Header>, hs: seq<Header>) {
    var chained := Transitions(e, chain) && Linked(e, chain);
    chained && seen + hs <= chain
  }

  lemma {:induction false} HonestConnects(e: Env, s: Sync, chain: seq<Header>, seen: seq<Header>, hs: seq<Header>)
    requires PresyncInv(e, s, seen) && Follows(e, chain, seen, hs) && hs != []
    ensures Connects(e, seen, hs) && Transitions(e, seen + hs)
  {
    var n := |seen|;
    assert (seen + hs)[n] == hs[0] && chain[n] == hs[0] && chain[..n] == (seen + hs)[..n] == seen;
    LinkedAt(e, chain, n);
    assert chain[..|seen + hs|] == seen + hs;
    PrefixLaws(e, chain, |seen + hs|);
  }

  /** A message of an honest chain is taken exactly if its commitments fit. */
  lemma {:induction false} HonestMessage(e: Env, t: Trace, chain: seq<Header>, m: Message)
    requires TraceInv(e, t) && t.s.phase == PRESYNC && m.headers != [] && Follows(e, chain, t.seen, m.headers)
    ensures var a, now := Process(e, t.s, m.headers, m.full), Receive(e, t, m);
      && (a.result.success <==> Fits(e, t.seen + m.headers))
      && (a.result.success ==>
            && now.seen == t.seen + m.headers && now.accepted == []
            && (a.result.requestMore <==> m.full || Work(e, now.seen) >= e.minWork)
            && (Work(e, now.seen) >= e.minWork ==> now.s.phase == REDOWNLOAD)
            && (Work(e, now.seen) < e.minWork && m.full ==> now.s.phase == PRESYNC))
  {
    HonestConnects(e, t.s, chain, t.seen, m.headers);
    PresyncAnswer(e, t, m);
  }

  /** Messages that show a chain: none empty, and full until the required work is reached. */
  ghost predicate Shows(e: Env, seen: seq<Header>, ms: seq<Message>)
    decreases |ms|
  {
    && ms != [] && ms[0].headers != []
    && var now := seen + ms[0].headers;
       if Work(e, now) >= e.minWork then ms[1..] == [] else ms[0].full && Shows(e, now, ms[1..])
  }

  /** The first pass: every message is taken and more is asked for, until REDOWNLOAD begins. */
  ghost predicate ShownToTheEnd(e: Env, t: Trace, ms: seq<Message>)
    decreases |ms|
  {
    && ms != [] && t.s.phase == PRESYNC
    && var a, now := Process(e, t.s, ms[0].headers, ms[0].full), Receive(e, t, ms[0]);
       && a.result.success && a.result.requestMore && now.seen == t.seen + ms[0].headers && now.accepted == []
       && (if Work(e, now.seen) >= e.minWork then now.s.phase == REDOWNLOAD && ms[1..] == []
           else ShownToTheEnd(e, now, ms[1..]))
  }

  lemma {:induction false} ConcatSplits(seen: seq<Header>, ms: seq<Message>)
    requires ms != []
    ensures seen + Concat(ms) == seen + ms[0].headers + Concat(ms[1..])
    ensures ms[1..] == [] ==> seen + Concat(ms) == seen + ms[0].headers
  {
  }

  lemma {:induction false} FollowsSplits(
    e: Env, chain: seq<Header>, seen: seq<Header>, hs: seq<Header>, more: seq<Header>)
    requires Follows(e, chain, seen, hs + more)
    ensures Follows(e, chain, seen, hs) && Follows(e, chain, seen + hs, more) && seen + hs + more == seen + (hs + more)
  {
    assert seen + hs + more == seen + (hs + more);
    assert seen + hs == (seen + hs + more)[..|seen + hs|];
  }

  /** An honest chain is shown to the end exactly if its commitments fit. */
  lemma {:induction false} HonestPeerIsHeard(e: Env, t: Trace, chain: seq<Header>, ms: seq<Message>)
    requires TraceInv(e, t) && t.s.phase == PRESYNC
    requires Shows(e, t.seen, ms) && Follows(e, chain, t.seen, Concat(ms))
    ensures ShownToTheEnd(e, t, ms) <==> Fits(e, t.seen + Concat(ms))
    ensures ShownToTheEnd(e, t, ms) ==>
      var r := ReceiveAll(e, t, ms); r.s.phase == REDOWNLOAD && r.seen == t.seen + Concat(ms) && r.accepted == []
    decreases |ms|
  {
    var m, rest, now := ms[0], ms[1..], Receive(e, t, ms[0]);
    ConcatSplits(t.seen, ms);
    FollowsSplits(e, chain, t.seen, m.headers, Concat(rest));
    HonestMessage(e, t, chain, m);
    FitsPrefix(e, t.seen + m.headers, Concat(rest));
    if Fits(e, t.seen + m.headers) && Work(e, t.seen + m.headers) < e.minWork {
      ReceivePresync(e, t, m);
      HonestPeerIsHeard(e, now, chain, rest);
    }
  }

  /** The first pass of HonestSync. */
  lemma {:induction false} HonestFirst(e: Env, t: Trace, chain: seq<Header>, ms: seq<Message>)
    requires t == NewTrace(e) && Linked(e, chain) && Transitions(e, chain) && Shows(e, [], ms) && Concat(ms) <= chain
    ensures TraceInv(e, t) && (ShownToTheEnd(e, t, ms) <==> Fits(e, Concat(ms)))
    ensures ShownToTheEnd(e, t, ms) ==>
      var r := ReceiveAll(e, t, ms); r.s.phase == REDOWNLOAD && r.seen == Concat(ms) && r.accepted == []
  {
    FreshTrace(e);
    assert [] + Concat(ms) == Concat(ms);
    HonestPeerIsHeard(e, t, chain, ms);
  }

  /** The second pass of HonestSync, from the state after the first. */
  lemma {:induction false} HonestSecond(
    e: Env, t: Trace, r: Trace, chain: seq<Header>, first: seq<Message>, second: seq<Message>)
    requires TraceInv(e, t) && r == ReceiveAll(e, t, first) && r.s.phase == REDOWNLOAD && r.accepted == []
    requires r.seen <= chain && Linked(e, chain) && Transitions(e, chain)
    requires Concat(second) == chain && FullUntilLast(second)
    ensures ServedToTheEnd(e, r, second)
  {
    SyncIsSound(e, t, first);
    assert [] + Concat(second) == chain;
    HonestPeerIsServed(e, r, chain, second);
  }

  /**
   A whole sync with an honest peer. It shows a linked chain with permitted difficulties until
   the required work is reached, and then serves the same chain, perhaps grown, from the start;
   both times in any split into messages. It is heard to the end exactly if the commitments of
   the chain shown fit the bound, and then it is served to the end: no message is rejected and
   every header received by then is released exactly once.
   */
  lemma {:induction false} HonestSync(e: Env, chain: seq<Header>, first: seq<Message>, second: seq<Message>)
    requires Linked(e, chain) && Transitions(e, chain)
    requires Shows(e, [], first) && Concat(first) <= chain && Concat(second) == chain
    requires FullUntilLast(second)
    ensures var t := NewTrace(e);
      && (ShownToTheEnd(e, t, first) <==> Fits(e, Concat(first)))
      && (ShownToTheEnd(e, t, first) ==> ServedToTheEnd(e, ReceiveAll(e, t, first), second))
  {
    var t := NewTrace(e);
    HonestFirst(e, t, chain, first);
    if ShownToTheEnd(e, t, first) {
      HonestSecond(e, t, ReceiveAll(e, t, first), chain, first, second);
    }
  }

  /** A node that commits to the first header after its start, and has room for no commitment. */
  function NoRoom(start: Header): Env {
    NodeEnv(start, 0, 0, 1, 0, 1, (h: Header) => 7, (hash: Hash) => true, (height: int, was: nat, now: nat) => true,
            (bits: nat) => 1)
  }

  /** An honest chain of one header with enough work is turned away: the bound of HonestSync is needed. */
  lemma {:induction false} HonestPeerTurnedAway(start: Header)
    ensures var e, chain := NoRoom(start), [Header(1, 7, 0, 0, 0, 0)];
      var ms := [Message(chain, false)];
      && Linked(e, chain) && Transitions(e, chain) && Shows(e, [], ms) && Concat(ms) == chain
      && !ShownToTheEnd(e, NewTrace(e), ms)
  {
    var e, chain := NoRoom(start), [Header(1, 7, 0, 0, 0, 0)];
    var ms := [Message(chain, false)];
    assert Front(chain) == [] && ms[1..] == [] && [] + chain == chain;
    assert Concat(ms) == chain + Concat([]) == chain;
    assert Work(e, chain) == 1 && |Bits(e, chain)| == 1;
    HonestSync(e, chain, ms, ms);
  }

  // ---------------------------------------------------------------- the object

  lemma {:induction false} PopSplits(e: Env, s: Sync, h: Header, front: seq<Header>)
    requires ReadyToPop(s) && h == s.buffer[0].GetFullHeader(s.bufferPrevHash)
    ensures var p := Pop(e, s.(buffer := s.buffer[1..], bufferPrevHash := e.hashOf(h)));
      Pop(e, s).s == p.s && front + Pop(e, s).headers == front + [h] + p.headers
  {
    Cons(front, h, Pop(e, s.(buffer := s.buffer[1..], bufferPrevHash := e.hashOf(h))).headers);
  }

  class HeadersSyncState {
    const env: Env
    var downloadState: Phase
    var currentChainWork: nat
    var headerCommitments: seq<bool>
    var lastHeaderReceived: Header
    var currentHeight: int
    var redownloadedHeaders: seq<Compressed>
    var redownloadBufferLastHeight: int
    var redownloadBufferLastHash: Hash
    var redownloadBufferFirstPrevHash: Hash
    var redownloadChainWork: nat
    var processAllRemainingHeaders: bool

    ghost function Model(): Sync
      reads this
    {
      Sync(downloadState, currentChainWork, headerCommitments, lastHeaderReceived, currentHeight,
           redownloadedHeaders, redownloadBufferLastHeight, redownloadBufferLastHash,
           redownloadBufferFirstPrevHash, redownloadChainWork, processAllRemainingHeaders)
    }

    constructor (e: Env)
      ensures env == e && Model() == Fresh(e)
    {
      env, downloadState := e, PRESYNC;
      currentChainWork, headerCommitments := e.startWork, [];
      lastHeaderReceived, currentHeight := e.start, e.startHeight;
      redownloadedHeaders, redownloadBufferLastHeight, redownloadChainWork := [], 0, 0;
      redownloadBufferLastHash, redownloadBufferFirstPrevHash := NULL_HASH, NULL_HASH;
      processAllRemainingHeaders := false;
    }

    method Finalize()
      modifies this
      ensures Model() == Finalized(old(Model()))
    {
      headerCommitments := [];
      lastHeaderReceived := NULL_HEADER;
      redownloadedHeaders := [];
      redownloadBufferLastHash := NULL_HASH;
      redownloadBufferFirstPrevHash := NULL_HASH;
      processAllRemainingHeaders := false;
      currentHeight := 0;
      downloadState := FINAL;
    }

    method ValidateAndProcessSingleHeader(current: Header) returns (ok: bool)
      modifies this
      ensures Outcome(ok, Model()) == PresyncOne(env, old(Model()), current)
    {
      if downloadState != PRESYNC {
        return false;
      }
      var nextHeight := currentHeight + 1;
      if !env.permitted(nextHeight, lastHeaderReceived.bits, current.bits) {
        return false;
      }
      if env.commitsAt(nextHeight) {
        headerCommitments := headerCommitments + [env.commitment(env.hashOf(current))];
        if |headerCommitments| > env.maxCommitments {
          return false;
        }
      }
      currentChainWork := env.addWork(currentChainWork, current.bits);
      lastHeaderReceived := current;
      currentHeight := nextHeight;
      return true;
    }

    method ValidateAndStoreHeadersCommitments(headers: seq<Header>) returns (ok: bool)
      modifies this
      ensures Outcome(ok, Model()) == StoreCommitments(env, old(Model()), headers)
    {
      if |headers| == 0 {
        return true;
      }
      if downloadState != PRESYNC {
        return false;
      }
      if headers[0].prev != env.hashOf(lastHeaderReceived) {
        return false;
      }
      for i := 0 to |headers|
        invariant PresyncAll(env, old(Model()), headers) == PresyncAll(env, Model(), headers[i..])
      {
        assert headers[i..][1..] == headers[i + 1..];
        ok := ValidateAndProcessSingleHeader(headers[i]);
        if !ok {
          return;
        }
      }
      if currentChainWork >= env.minWork {
        redownloadedHeaders := [];
        redownloadBufferLastHeight := env.startHeight;
        redownloadBufferFirstPrevHash := env.hashOf(env.start);
        redownloadBufferLastHash := env.hashOf(env.start);
        redownloadChainWork := env.startWork;
        downloadState := REDOWNLOAD;
      }
      return true;
    }

    method ValidateAndStoreRedownloadedHeader(header: Header) returns (ok: bool)
      modifies this
      ensures Outcome(ok, Model()) == RedownloadOne(env, old(Model()), header)
    {
      if downloadState != REDOWNLOAD {
        return false;
      }
      var nextHeight := redownloadBufferLastHeight + 1;
      if header.prev != redownloadBufferLastHash {
        return false;
      }
      var previousBits := env.start.bits;
      if |redownloadedHeaders| > 0 {
        previousBits := redownloadedHeaders[|redownloadedHeaders| - 1].bits;
      }
      if !env.permitted(nextHeight, previousBits, header.bits) {
        return false;
      }
      redownloadChainWork := env.addWork(redownloadChainWork, header.bits);
      if redownloadChainWork >= env.minWork {
        processAllRemainingHeaders := true;
      }
      if !processAllRemainingHeaders && env.commitsAt(nextHeight) {
        if |headerCommitments| == 0 {
          return false;
        }
        var expected := headerCommitments[0];
        headerCommitments := headerCommitments[1..];
        if env.commitment(env.hashOf(header)) != expected {
          return false;
        }
      }
      redownloadedHeaders := redownloadedHeaders + [Compress(header)];
      redownloadBufferLastHeight := nextHeight;
      redownloadBufferLastHash := env.hashOf(header);
      return true;
    }

    method PopHeadersReadyForAcceptance() returns (ret: seq<Header>)
      requires downloadState == REDOWNLOAD
      modifies this
      ensures Popped(ret, Model()) == Pop(env, old(Model()))
    {
      ret := [];
      while |redownloadedHeaders| > REDOWNLOAD_BUFFER_SIZE
            || (|redownloadedHeaders| > 0 && processAllRemainingHeaders)
        invariant Pop(env, old(Model())).headers == ret + Pop(env, Model()).headers
        invariant Pop(env, old(Model())).s == Pop(env, Model()).s
        decreases |redownloadedHeaders|
      {
        var h := redownloadedHeaders[0].GetFullHeader(redownloadBufferFirstPrevHash);
        PopSplits(env, Model(), h, ret);
        ret := ret + [h];
        redownloadedHeaders := redownloadedHeaders[1..];
        redownloadBufferFirstPrevHash := env.hashOf(h);
      }
    }

    /** The REDOWNLOAD loop of ProcessNextHeaders. */
    method StoreRedownloaded(headers: seq<Header>) returns (ok: bool)
      modifies this
      ensures Outcome(ok, Model()) == RedownloadAll(env, old(Model()), headers)
    {
      for i := 0 to |headers|
        invariant RedownloadAll(env, old(Model()), headers) == RedownloadAll(env, Model(), headers[i..])
      {
        assert headers[i..][1..] == headers[i + 1..];
        ok := ValidateAndStoreRedownloadedHeader(headers[i]);
        if !ok {
          return;
        }
      }
      return true;
    }

    method ProcessNextHeaders(received: seq<Header>, full: bool) returns (ret: Result)
      modifies this
      ensures Answer(ret, Model()) == Process(env, old(Model()), received, full)
    {
      ret := Result([], false, false);
      if |received| == 0 || downloadState == FINAL {
        return;
      }
      if downloadState == PRESYNC {
        var ok := ValidateAndStoreHeadersCommitments(received);
        ret := Result([], ok, ok && (full || downloadState == REDOWNLOAD));
      } else {
        var ok := StoreRedownloaded(received);
        ret := ret.(success := ok);
        if ok {
          RedownloadPhase(env, old(Model()), received);
          var popped := PopHeadersReadyForAcceptance();
          ret := ret.(headers := popped);
          if !(|redownloadedHeaders| == 0 && processAllRemainingHeaders) && full {
            ret := ret.(requestMore := true);
          }
        }
      }
      if !(ret.success && ret.requestMore) {
        Finalize();
      }
    }
  }

  lemma {:induction false} RedownloadPhase(e: Env, s: Sync, hs: seq<Header>)
    requires s.phase == REDOWNLOAD
    ensures RedownloadAll(e, s, hs).s.phase == REDOWNLOAD
    decreases |hs|
  {
    if hs != [] && RedownloadOne(e, s, hs[0]).ok {
      RedownloadPhase(e, RedownloadOne(e, s, hs[0]).s, hs[1..]);
    }
  }
}
