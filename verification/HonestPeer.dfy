/** What a peer that serves one chain twice achieves; the chain may have grown between the two downloads. */
module HonestPeer {
  import opened HeaderSteps
  import opened HeaderRuns
  import opened HeaderTheorems
  import opened HeaderDifficulty

  function Flat(ms: seq<Message>): seq<Header> {
    if ms == [] then [] else Flat(ms[..|ms| - 1]) + ms[|ms| - 1].headers
  }

  lemma {:induction false} FlatPrefix(ms: seq<Message>, k: nat)
    requires k <= |ms|
    ensures Flat(ms[..k]) <= Flat(ms)
    decreases |ms|
  {
    if k == |ms| {
      assert ms[..k] == ms;
    } else {
      assert ms[..|ms| - 1][..k] == ms[..k];
      FlatPrefix(ms[..|ms| - 1], k);
    }
  }

  lemma FlatNext(ms: seq<Message>, k: nat)
    requires k < |ms|
    ensures Flat(ms[..k + 1]) == Flat(ms[..k]) + ms[k].headers && Flat(ms[..k + 1]) <= Flat(ms)
  {
    assert ms[..k + 1][..k] == ms[..k];
    FlatPrefix(ms, k + 1);
  }

  /** No message is empty, and only the last may be short. */
  ghost predicate Served(ms: seq<Message>) {
    forall i | 0 <= i < |ms| :: ms[i].headers != [] && (i < |ms| - 1 ==> ms[i].full)
  }

  /** Each header names its predecessor, with a difficulty that may follow. */
  ghost predicate GoodChain(c: Config, p: seq<Header>) {
    Linked(c, p) && Permitted(c, p)
  }

  lemma {:induction false} GoodPrefix(c: Config, p: seq<Header>, i: nat)
    requires GoodChain(c, p) && i <= |p|
    ensures GoodChain(c, p[..i])
    decreases |p|
  {
    if i == |p| {
      assert p[..i] == p;
    } else {
      assert p[..|p| - 1][..i] == p[..i];
      GoodPrefix(c, p[..|p| - 1], i);
    }
  }

  lemma GoodAt(c: Config, p: seq<Header>, i: nat)
    requires GoodChain(c, p) && i < |p|
    ensures p[i].prev == PrevHash(c, p[..i])
    ensures c.permitted(c.startHeight + i + 1, PrevBits(c, p[..i]), p[i].bits)
  {
    GoodPrefix(c, p, i + 1);
    assert p[..i + 1][..i] == p[..i];
  }

  // ---- The first download

  ghost predicate FewCommitments(c: Config, p: seq<Header>) {
    |CommitBits(c, p)| <= c.maxCommitments
  }

  lemma FewPrefix(c: Config, p: seq<Header>, i: nat)
    requires FewCommitments(c, p) && i <= |p|
    ensures FewCommitments(c, p[..i])
  {
    hide CommitBits;
    CommitPrefix(c, p, i);
  }

  lemma PresyncOneTakes(c: Config, s: State, q: seq<Header>, h: Header)
    requires PresyncInv(c, s, q) && GoodChain(c, q + [h]) && FewCommitments(c, q + [h])
    ensures PresyncOne(c, s, h).1
  {
    Snoc(q, h);
  }

  lemma {:induction false} PresyncAllTakes(c: Config, s: State, q: seq<Header>, hs: seq<Header>)
    requires PresyncInv(c, s, q) && GoodChain(c, q + hs) && FewCommitments(c, q + hs)
    ensures PresyncAll(c, s, hs).1
    decreases |hs|
  {
    hide PresyncInv, PresyncOne, GoodChain, FewCommitments;
    if hs != [] {
      var n := |hs| - 1;
      assert (q + hs)[..|q| + n] == q + hs[..n];
      GoodPrefix(c, q + hs, |q| + n);
      FewPrefix(c, q + hs, |q| + n);
      PresyncAllTakes(c, s, q, hs[..n]);
      PresyncAllInv(c, s, q, hs[..n]);
      assert q + hs[..n] + [hs[n]] == q + hs;
      PresyncOneTakes(c, PresyncAll(c, s, hs[..n]).0, q + hs[..n], hs[n]);
    }
  }

  /** The first download of a chain, in messages of which only the last brings enough work. */
  ghost predicate FirstServed(c: Config, ms: seq<Message>) {
    && ms != [] && Served(ms) && GoodChain(c, Flat(ms)) && FewCommitments(c, Flat(ms))
    && WorkOf(c, Flat(ms)) >= c.minWork
    && forall k | 0 < k < |ms| :: WorkOf(c, Flat(ms[..k])) < c.minWork
  }

  lemma PresyncMessage(c: Config, t: Total, m: Message)
    requires RunInv(c, t) && t.state.phase == Presync && m.headers != []
    requires GoodChain(c, t.presync + m.headers) && FewCommitments(c, t.presync + m.headers)
    requires m.full || WorkOf(c, t.presync + m.headers) >= c.minWork
    ensures var u := Advance(c, t, m);
            && u.presync == t.presync + m.headers && u.accepted == []
            && u.state.phase == if WorkOf(c, u.presync) >= c.minWork then Redownload else Presync
  {
    hide HistoryOk, RedoInv, PresyncAll, Permitted, CommitBits, WorkOf, GoodChain, FewCommitments;
    var p := t.presync + m.headers;
    PresyncAllTakes(c, t.state, t.presync, m.headers);
    PresyncAllInv(c, t.state, t.presync, m.headers);
    GoodAt(c, p, |t.presync|);
    assert p[..|t.presync|] == t.presync;
  }

  lemma {:induction false} FirstDownload(c: Config, ms: seq<Message>, k: nat)
    requires FirstServed(c, ms) && k <= |ms|
    ensures var t := Run(c, ms[..k]);
            && t.presync == Flat(ms[..k]) && t.accepted == []
            && t.state.phase == if k == |ms| then Redownload else Presync
    decreases k
  {
    hide RunInv, Advance, GoodChain, WorkOf, FewCommitments;
    if k > 0 {
      var n := k - 1;
      FirstDownload(c, ms, n);
      RunKeeps(c, ms[..n]);
      FlatNext(ms, n);
      assert Flat(ms)[..|Flat(ms[..k])|] == Flat(ms[..k]);
      GoodPrefix(c, Flat(ms), |Flat(ms[..k])|);
      FewPrefix(c, Flat(ms), |Flat(ms[..k])|);
      assert ms[..k][..n] == ms[..n];
      assert k == |ms| ==> ms[..k] == ms;
      PresyncMessage(c, Run(c, ms[..n]), ms[n]);
    }
  }

  // ---- One message of the second download

  lemma {:induction false} ReachedPrefix(c: Config, p: seq<Header>, i: nat)
    requires i <= |p| && Reached(c, p[..i])
    ensures Reached(c, p)
    decreases |p|
  {
    hide WorkOf;
    if i < |p| {
      assert p[..|p| - 1][..i] == p[..i];
      ReachedPrefix(c, p[..|p| - 1], i);
    } else {
      assert p[..i] == p;
    }
  }

  lemma NextCommitment(c: Config, p: seq<Header>, i: nat, commitments: seq<bool>)
    requires i < |p| && IsCommitHeight(c, c.startHeight + i + 1)
    requires CommitBits(c, p[..i]) + commitments == CommitBits(c, p)
    ensures commitments != [] && commitments[0] == CommitBit(c, p[i])
  {
    hide CommitBits, CommitBit, IsCommitHeight;
    CommitLast(c, p[..i + 1]);
    assert p[..i + 1][..i] == p[..i];
    CommitPrefix(c, p, i + 1);
    var before := CommitBits(c, p[..i]);
    assert before + [CommitBit(c, p[i])] <= before + commitments;
    assert (before + commitments)[|before|] == CommitBit(c, p[i]);
  }

  /** `p` was taken in the first download and brought enough work; `q` is served in the second. */
  ghost predicate Grown(c: Config, p: seq<Header>, q: seq<Header>) {
    p <= q && Reached(c, p) && GoodChain(c, q)
  }

  /** Beyond the first chain the work suffices, and no commitment is asked for. */
  lemma BeyondReached(c: Config, p: seq<Header>, q: seq<Header>, accepted: seq<Header>)
    requires Grown(c, p, q) && accepted <= q && |p| <= |accepted|
    ensures Reached(c, accepted)
  {
    hide Reached, GoodChain;
    assert accepted[..|p|] == p;
    ReachedPrefix(c, accepted, |p|);
  }

  /** While nothing is buffered a header is compared with the start of the chain, which `h` may follow as well. */
  ghost predicate SeamTaken(c: Config, s: State, accepted: seq<Header>, h: Header) {
    accepted != [] && s.buffer == [] ==> c.permitted(c.startHeight + |accepted| + 1, c.start.bits, h.bits)
  }

  lemma OneTaken(c: Config, s: State, p: seq<Header>, q: seq<Header>, accepted: seq<Header>, released: seq<Header>,
                 h: Header)
    requires RedoInv(c, s, p, accepted, released) && Grown(c, p, q) && accepted + [h] <= q
    ensures RedownloadOne(c, s, h).1 <==> SeamTaken(c, s, accepted, h)
  {
    hide Agrees, Reached, WorkOf, Linked, Permitted, CommitBits, CommitBit, IsCommitHeight, GoodChain;
    var i := |accepted|;
    assert q[..i] == accepted && q[i] == h;
    GoodAt(c, q, i);
    BufferedBits(c, s, accepted, released);
    if i < |p| {
      if !s.processAll && IsCommitHeight(c, c.startHeight + i + 1) {
        assert p[..i] == accepted;
        NextCommitment(c, p, i, s.commitments);
      }
    } else {
      BeyondReached(c, p, q, accepted);
    }
  }

  lemma LaterSeam(c: Config, s: State, p: seq<Header>, accepted: seq<Header>, released: seq<Header>, h: Header)
    requires RedoInv(c, s, p, accepted, released) && |released| < |accepted|
    ensures SeamTaken(c, s, accepted, h)
  {
    hide Agrees, Reached, WorkOf, Linked, Permitted, CommitBits;
  }

  /** A message is taken exactly if its first header is. */
  lemma {:induction false} AllTaken(c: Config, s: State, p: seq<Header>, q: seq<Header>, accepted: seq<Header>,
                                    released: seq<Header>, hs: seq<Header>)
    requires RedoInv(c, s, p, accepted, released) && |released| <= |accepted|
    requires Grown(c, p, q) && hs != [] && accepted + hs <= q
    ensures RedownloadAll(c, s, hs).1 <==> SeamTaken(c, s, accepted, hs[0])
    decreases |hs|
  {
    hide RedoInv, RedownloadOne, Grown, SeamTaken;
    var n := |hs| - 1;
    var (t, ok) := RedownloadAll(c, s, hs[..n]);
    if n > 0 { AllTaken(c, s, p, q, accepted, released, hs[..n]); }
    if ok {
      RedoAllInv(c, s, p, accepted, released, hs[..n]);
      assert accepted + hs[..n] + [hs[n]] == accepted + hs;
      OneTaken(c, t, p, q, accepted + hs[..n], released, hs[n]);
      if n == 0 {
        assert accepted + hs[..n] == accepted;
      } else {
        LaterSeam(c, t, p, accepted + hs[..n], released, hs[n]);
      }
    }
  }

  lemma RedownloadMessage(c: Config, t: Total, m: Message, q: seq<Header>)
    requires RunInv(c, t) && t.state.phase == Redownload && m.headers != []
    requires Grown(c, t.presync, q) && t.accepted + m.headers <= q
    ensures var u := Advance(c, t, m);
            if SeamTaken(c, t.state, t.accepted, m.headers[0]) then
              && u.presync == t.presync && u.accepted == t.accepted + m.headers
              && u.state.phase == if Reached(c, u.accepted) || !m.full then Final else Redownload
            else
              u.presync == t.presync && u.accepted == t.accepted && u.state.phase == Final
  {
    hide HistoryOk, PresyncInv, RedoInv, RedoShape, RedownloadAll, PopReady, Grown, Linked, Reached, Agrees, Permitted,
         SeamTaken;
    var (s, ok) := RedownloadAll(c, t.state, m.headers);
    var a := t.accepted + m.headers;
    RedoParts(c, t.state, t.presync, t.accepted, t.released);
    RedoShapeParts(c, t.state, t.accepted, t.released);
    AllTaken(c, t.state, t.presync, q, t.accepted, t.released, m.headers);
    if ok {
      RedoAllInv(c, t.state, t.presync, t.accepted, t.released, m.headers);
      RedoParts(c, s, t.presync, a, t.released);
      HistoryCount(c, t);
      PopInv(c, s, t.presync, a, t.released);
      RedoShapeParts(c, PopReady(c, s).0, a, t.released + PopReady(c, s).1);
    }
  }

  lemma HistoryCount(c: Config, t: Total)
    requires HistoryOk(c, t)
    ensures |t.released| == ReleasedCount(c, |t.accepted|, Reached(c, t.accepted))
  {
    hide Linked, Reached, Agrees, Permitted, WorkOf;
  }

  // ---- The second download

  /** Without a look-ahead buffer, the first header of message `k` is compared with the start of the chain. */
  ghost predicate SeamAt(c: Config, ms: seq<Message>, k: nat)
    requires k < |ms| && ms[k].headers != []
  {
    k > 0 && !Reached(c, Flat(ms[..k])) ==>
      c.permitted(c.startHeight + |Flat(ms[..k])| + 1, c.start.bits, ms[k].headers[0].bits)
  }

  ghost predicate SeamsBefore(c: Config, ms: seq<Message>, n: nat)
    requires n <= |ms| && Served(ms)
  {
    c.bufferSize > 0 || forall k: nat | k < n :: SeamAt(c, ms, k)
  }

  ghost predicate SeamsTaken(c: Config, ms: seq<Message>)
    requires Served(ms)
  {
    SeamsBefore(c, ms, |ms|)
  }

  /** The chain of the first download, and possibly more, served again. */
  ghost predicate SecondServed(c: Config, first: seq<Message>, second: seq<Message>) {
    Served(second) && Flat(first) <= Flat(second) && GoodChain(c, Flat(second))
  }

  lemma FirstReached(c: Config, first: seq<Message>, second: seq<Message>)
    requires FirstServed(c, first) && SecondServed(c, first, second)
    ensures Grown(c, Flat(first), Flat(second)) && Reached(c, Flat(second))
  {
    hide WorkOf, GoodChain;
    var p, q := Flat(first), Flat(second);
    assert first[|first| - 1].headers != [];
    assert q[..|p|] == p;
    ReachedPrefix(c, q, |p|);
  }

  lemma {:induction false} FlatNonEmpty(ms: seq<Message>)
    requires ms != [] && ms[|ms| - 1].headers != []
    ensures Flat(ms) != []
  {
  }

  /** Whether the seam of the state is that of the messages. */
  lemma SameSeam(c: Config, t: Total, ms: seq<Message>, k: nat)
    requires Served(ms) && k < |ms|
    requires RunInv(c, t) && t.state.phase == Redownload && t.accepted == Flat(ms[..k]) && !Reached(c, t.accepted)
    ensures SeamTaken(c, t.state, t.accepted, ms[k].headers[0]) <==> c.bufferSize > 0 || SeamAt(c, ms, k)
  {
    hide PresyncInv, Linked, Agrees, Permitted, CommitBits, Reached, WorkOf;
    if k > 0 { FlatNonEmpty(ms[..k]); }
  }

  ghost predicate SecondState(c: Config, first: seq<Message>, second: seq<Message>, k: nat, t: Total)
    requires k <= |second| && Served(second)
  {
    && t.presync == Flat(first) && t.accepted <= Flat(second)
    && match t.state.phase
       case Presync => false
       case Redownload =>
         t.accepted == Flat(second[..k]) && !Reached(c, t.accepted) && k < |second| && SeamsBefore(c, second, k)
       case Final => Reached(c, t.accepted) <==> SeamsTaken(c, second)
  }

  lemma {:induction false} SecondDownload(c: Config, first: seq<Message>, second: seq<Message>, k: nat)
    requires FirstServed(c, first) && SecondServed(c, first, second) && k <= |second|
    ensures SecondState(c, first, second, k, Run(c, first + second[..k]))
    decreases k
  {
    hide RunInv, Advance, GoodChain, WorkOf, Reached, FirstServed, SeamsBefore, SecondState;
    FirstReached(c, first, second);
    if k == 0 {
      SecondStarts(c, first, second);
    } else {
      var n := k - 1;
      SecondDownload(c, first, second, n);
      RunKeeps(c, first + second[..n]);
      assert (first + second[..k])[..|first + second[..k]| - 1] == first + second[..n];
      SecondNext(c, first, second, n, Run(c, first + second[..n]));
    }
  }

  lemma SecondStarts(c: Config, first: seq<Message>, second: seq<Message>)
    requires FirstServed(c, first) && SecondServed(c, first, second)
    ensures SecondState(c, first, second, 0, Run(c, first + second[..0]))
  {
    hide RunInv, Advance, GoodChain, WorkOf;
    assert first + second[..0] == first && first[..|first|] == first;
    FirstDownload(c, first, |first|);
    assert first[|first| - 1].headers != [];
  }

  lemma SecondNext(c: Config, first: seq<Message>, second: seq<Message>, n: nat, t: Total)
    requires RunInv(c, t) && Served(second) && n < |second| && SecondState(c, first, second, n, t)
    requires Grown(c, Flat(first), Flat(second)) && Reached(c, Flat(second))
    ensures SecondState(c, first, second, n + 1, Advance(c, t, second[n]))
  {
    hide RunInv, Advance, Grown, Reached, SeamAt, SeamTaken, SeamsBefore;
    if t.state.phase == Final {
      FinalStays(c, t, second[n]);
    } else {
      FlatNext(second, n);
      RedownloadMessage(c, t, second[n], Flat(second));
      SameSeam(c, t, second, n);
      assert n + 1 == |second| ==> second[..n + 1] == second;
      SeamsNext(c, second, n);
    }
  }

  lemma SeamsNext(c: Config, ms: seq<Message>, n: nat)
    requires Served(ms) && n < |ms| && SeamsBefore(c, ms, n)
    ensures SeamsBefore(c, ms, n + 1) <==> c.bufferSize > 0 || SeamAt(c, ms, n)
    ensures Reached(c, Flat(ms[..n + 1])) ==> (SeamsTaken(c, ms) <==> SeamsBefore(c, ms, n + 1))
    ensures SeamsTaken(c, ms) ==> SeamsBefore(c, ms, n + 1)
  {
    hide SeamAt, Reached;
    if Reached(c, Flat(ms[..n + 1])) { SeamsAfter(c, ms, n); }
  }

  /** Once the work suffices, no further comparison is made. */
  lemma SeamsAfter(c: Config, ms: seq<Message>, n: nat)
    requires Served(ms) && n < |ms| && Reached(c, Flat(ms[..n + 1]))
    ensures forall k: nat | n < k < |ms| :: SeamAt(c, ms, k)
  {
    hide Reached;
    forall k: nat | n < k < |ms| ensures SeamAt(c, ms, k) {
      var p, q := Flat(ms[..n + 1]), Flat(ms[..k]);
      assert ms[..k][..n + 1] == ms[..n + 1];
      FlatPrefix(ms[..k], n + 1);
      assert q[..|p|] == p;
      ReachedPrefix(c, q, |p|);
    }
  }

  lemma FinalStays(c: Config, t: Total, m: Message)
    requires t.state.phase == Final
    ensures Advance(c, t, m) == t
  {
  }

  /** A peer that serves a chain with enough work, and then that chain or a longer one again, ends the sync, and what
      is released is a prefix of it. It has enough work exactly if there is a look-ahead buffer, or the first header of
      each later message may also follow the start of the chain. */
  lemma HonestPeerSucceeds(c: Config, first: seq<Message>, second: seq<Message>)
    requires FirstServed(c, first) && SecondServed(c, first, second)
    ensures var t := Run(c, first + second);
            t.state.phase == Final && t.released <= Flat(second) && (Reached(c, t.released) <==> SeamsTaken(c, second))
  {
    hide RunInv, Run, GoodChain, Reached, SeamsTaken, FirstServed, Linked, Flat, PrevHash;
    assert second[..|second|] == second;
    SecondDownload(c, first, second, |second|);
    ReleasedIsChain(c, first + second);
    ReleasedHasLookahead(c, first + second);
    var t := Run(c, first + second);
    assert t.accepted[..|t.released|] == t.released;
    if Reached(c, t.released) { ReachedPrefix(c, t.accepted, |t.released|); }
  }

  /** Without a buffer an honest peer can be refused: the second message does not follow the start. */
  lemma ZeroBufferRefusesHonest()
    ensures var c, first := ZeroBuffer(), [Message([FIRST, SECOND], true)];
            var second := [Message([FIRST], true), Message([SECOND], false)];
            && FirstServed(c, first) && SecondServed(c, first, second)
            && !Reached(c, Run(c, first + second).released)
  {
    hide Run;
    var c, first := ZeroBuffer(), [Message([FIRST, SECOND], true)];
    var second := [Message([FIRST], true), Message([SECOND], false)];
    ZeroBufferServed();
    ZeroBufferSeam();
    hide FirstServed, SecondServed, Served, SeamsTaken, Reached;
    HonestPeerSucceeds(c, first, second);
  }

  lemma ZeroBufferChain()
    ensures GoodChain(ZeroBuffer(), [FIRST, SECOND]) && FewCommitments(ZeroBuffer(), [FIRST, SECOND])
    ensures WorkOf(ZeroBuffer(), [FIRST, SECOND]) == 20 && !Reached(ZeroBuffer(), [FIRST])
  {
    var c := ZeroBuffer();
    assert [FIRST, SECOND][..1] == [FIRST] && [FIRST][..0] == [];
    assert WorkOf(c, []) == 0 && WorkOf(c, [FIRST]) == 10;
    assert Permitted(c, [FIRST]) && Linked(c, [FIRST]);
    assert CommitBits(c, [FIRST]) == [];
  }

  lemma ZeroBufferServed()
    ensures var c, first := ZeroBuffer(), [Message([FIRST, SECOND], true)];
            var second := [Message([FIRST], true), Message([SECOND], false)];
            FirstServed(c, first) && SecondServed(c, first, second)
  {
    hide GoodChain, FewCommitments, WorkOf, ZeroBuffer;
    var first := [Message([FIRST, SECOND], true)];
    var second := [Message([FIRST], true), Message([SECOND], false)];
    ZeroBufferChain();
    ZeroBufferFlat();
    assert ZeroBuffer().minWork == 20 by { ZeroBufferWork(); }
  }

  lemma ZeroBufferWork()
    ensures ZeroBuffer().minWork == 20
  {
  }

  lemma ZeroBufferFlat()
    ensures Flat([Message([FIRST, SECOND], true)]) == [FIRST, SECOND]
    ensures var second := [Message([FIRST], true), Message([SECOND], false)];
            Flat(second[..1]) == [FIRST] && Flat(second) == [FIRST, SECOND]
  {
    var second := [Message([FIRST], true), Message([SECOND], false)];
    assert [Message([FIRST, SECOND], true)][..0] == [];
    assert second[..1] == [Message([FIRST], true)] && second[..1][..0] == [];
  }

  lemma ZeroBufferSeam()
    ensures var second := [Message([FIRST], true), Message([SECOND], false)];
            Served(second) && !SeamsTaken(ZeroBuffer(), second)
  {
    hide Reached, WorkOf, GoodChain, FewCommitments;
    var second := [Message([FIRST], true), Message([SECOND], false)];
    ZeroBufferChain();
    ZeroBufferFlat();
    assert !SeamAt(ZeroBuffer(), second, 1);
  }
}
