/** The difficulty rule in the second download, for every run. */
module HeaderDifficulty {
  import opened HeaderSteps
  import opened HeaderRuns

  // ---- When it holds

  /** If nothing is buffered, a header is compared with the start of the chain; `h` also follows its predecessor. */
  ghost predicate SeamOk(c: Config, s: State, accepted: seq<Header>, h: Header) {
    accepted != [] && s.buffer == [] ==> c.permitted(c.startHeight + |accepted| + 1, PrevBits(c, accepted), h.bits)
  }

  /** If the message is taken in the second download, its first header follows its predecessor. */
  ghost predicate Joins(c: Config, t: Total, m: Message) {
    t.state.phase == Redownload && Process(c, t.state, m.headers, m.full).success ==>
      m.headers != [] && SeamOk(c, t.state, t.accepted, m.headers[0])
  }

  ghost predicate JoinsAt(c: Config, ms: seq<Message>, k: nat)
    requires k < |ms|
  {
    Joins(c, Run(c, ms[..k]), ms[k])
  }

  ghost predicate AllJoin(c: Config, ms: seq<Message>) {
    forall k: nat | k < |ms| :: JoinsAt(c, ms, k)
  }

  lemma AllJoinSnoc(c: Config, ms: seq<Message>)
    requires ms != []
    ensures AllJoin(c, ms) <==> AllJoin(c, ms[..|ms| - 1]) && JoinsAt(c, ms, |ms| - 1)
  {
    hide Joins, Run;
    var n := |ms| - 1;
    forall k: nat | k < n ensures JoinsAt(c, ms[..n], k) <==> JoinsAt(c, ms, k) {
      assert ms[..n][..k] == ms[..k];
    }
    assert AllJoin(c, ms) ==> AllJoin(c, ms[..n]);
  }

  lemma BufferedBits(c: Config, s: State, accepted: seq<Header>, released: seq<Header>)
    requires RedoShape(c, s, accepted, released)
    ensures accepted == [] || s.buffer != [] ==> PreviousBits(c, s) == PrevBits(c, accepted)
  {
    hide Reached, WorkOf;
    if s.buffer != [] {
      var k := |s.buffer| - 1;
      assert s.buffer[k] == Compress(accepted[|released| + k]);
    }
  }

  lemma PermittedSnoc(c: Config, accepted: seq<Header>, h: Header)
    ensures Permitted(c, accepted + [h]) <==>
            Permitted(c, accepted) && c.permitted(c.startHeight + |accepted| + 1, PrevBits(c, accepted), h.bits)
  {
    Snoc(accepted, h);
  }

  lemma OneRule(c: Config, s: State, accepted: seq<Header>, released: seq<Header>, h: Header)
    requires RedoShape(c, s, accepted, released) && RedownloadOne(c, s, h).1
    ensures Permitted(c, accepted + [h]) <==> Permitted(c, accepted) && SeamOk(c, s, accepted, h)
  {
    hide Permitted, Reached, WorkOf, PreviousBits, PrevBits, IsCommitHeight, CommitBit;
    BufferedBits(c, s, accepted, released);
    PermittedSnoc(c, accepted, h);
  }

  lemma {:induction false} AllShape(c: Config, s: State, accepted: seq<Header>, released: seq<Header>, hs: seq<Header>)
    requires RedoShape(c, s, accepted, released) && RedownloadAll(c, s, hs).1
    ensures RedoShape(c, RedownloadAll(c, s, hs).0, accepted + hs, released)
    decreases |hs|
  {
    hide RedoShape, RedownloadOne;
    if hs == [] {
      assert accepted + hs == accepted;
    } else {
      var n := |hs| - 1;
      AllShape(c, s, accepted, released, hs[..n]);
      RedoOneShape(c, RedownloadAll(c, s, hs[..n]).0, accepted + hs[..n], released, hs[n]);
      assert accepted + hs[..n] + [hs[n]] == accepted + hs;
    }
  }

  lemma Buffered(c: Config, s: State, accepted: seq<Header>, released: seq<Header>)
    requires RedoShape(c, s, accepted, released) && |released| < |accepted|
    ensures s.buffer != []
  {
  }

  /** Only the first header of a message can miss the rule. */
  lemma {:induction false} AllRule(c: Config, s: State, accepted: seq<Header>, released: seq<Header>, hs: seq<Header>)
    requires RedoShape(c, s, accepted, released) && hs != [] && RedownloadAll(c, s, hs).1
    ensures Permitted(c, accepted + hs) <==> Permitted(c, accepted) && SeamOk(c, s, accepted, hs[0])
    decreases |hs|
  {
    hide RedoShape, RedownloadOne, Permitted;
    var n := |hs| - 1;
    var t := RedownloadAll(c, s, hs[..n]).0;
    AllShape(c, s, accepted, released, hs[..n]);
    OneRule(c, t, accepted + hs[..n], released, hs[n]);
    assert accepted + hs[..n] + [hs[n]] == accepted + hs;
    if n == 0 {
      assert accepted + hs[..n] == accepted;
    } else {
      AllRule(c, s, accepted, released, hs[..n]);
      RedoShapeParts(c, s, accepted, released);
      Buffered(c, t, accepted + hs[..n], released);
    }
  }

  lemma AdvanceRule(c: Config, t: Total, m: Message)
    requires RunInv(c, t)
    ensures Permitted(c, Advance(c, t, m).accepted) <==> Permitted(c, t.accepted) && Joins(c, t, m)
  {
    hide HistoryOk, PresyncInv, RedoInv, RedoShape, PresyncBatch, RedownloadAll, PopReady, Permitted, SeamOk;
    if Process(c, t.state, m.headers, m.full).success {
      SuccessPhase(c, t.state, m.headers, m.full);
      if t.state.phase == Redownload {
        RedoParts(c, t.state, t.presync, t.accepted, t.released);
        AllRule(c, t.state, t.accepted, t.released, m.headers);
      }
    }
  }

  /** Every accepted difficulty may follow its predecessor's exactly if that is so where each message begins while
      nothing is buffered. */
  lemma {:induction false} DifficultyExact(c: Config, ms: seq<Message>)
    ensures Permitted(c, Run(c, ms).accepted) <==> AllJoin(c, ms)
    decreases |ms|
  {
    hide Permitted, Joins, Advance, AllJoin;
    if ms == [] {
      NonePermitted(c);
    } else {
      var n := |ms| - 1;
      DifficultyExact(c, ms[..n]);
      RunKeeps(c, ms[..n]);
      AdvanceRule(c, Run(c, ms[..n]), ms[n]);
      AllJoinSnoc(c, ms);
    }
  }

  lemma NonePermitted(c: Config)
    ensures Permitted(c, []) && AllJoin(c, [])
  {
  }

  lemma JoinsBuffered(c: Config, t: Total, m: Message)
    requires RunInv(c, t) && c.bufferSize > 0
    ensures Joins(c, t, m)
  {
    hide HistoryOk, PresyncInv, Linked, Agrees, Permitted, CommitBits, Reached, WorkOf, RedownloadAll, PopReady;
  }

  /** With a look-ahead buffer, every accepted difficulty may follow its predecessor's. */
  lemma DifficultyRule(c: Config, ms: seq<Message>)
    requires c.bufferSize > 0
    ensures Permitted(c, Run(c, ms).accepted)
  {
    hide Permitted, Joins, Run;
    DifficultyExact(c, ms);
    forall k: nat | k < |ms| ensures JoinsAt(c, ms, k) {
      RunKeeps(c, ms[..k]);
      JoinsBuffered(c, Run(c, ms[..k]), ms[k]);
    }
  }

  // ---- When it does not

  function Plain(prev: int, bits: nat, nonce: nat): Header {
    Header(0, prev, 0, 0, bits, nonce)
  }

  /** No look-ahead, and difficulties that change at even heights only. */
  function ZeroBuffer(): Config {
    Config((h: Header) => h.nonce, _ => false, (h, a, b) => h % 2 == 0 || a == b, b => if b == 2 then 10 else 1,
           1000, 0, 0, 10, 20, Plain(0, 1, 100), 1, 0)
  }

  // The chain of the first download, and a header that takes the place of the second one in the second download.
  const FIRST := Plain(100, 2, 101)
  const SECOND := Plain(101, 2, 102)
  const REPLACED := Plain(101, 1, 103)

  ghost predicate ReadyFor(s: State, lastHash: int, lastHeight: nat, redoWork: nat) {
    && s.phase == Redownload && s.commitments == [] && s.buffer == [] && s.lastHash == lastHash
    && s.firstPrev == lastHash && s.lastHeight == lastHeight && s.redoWork == redoWork && !s.processAll
  }

  lemma ZeroBufferPresync()
    ensures var t := Run(ZeroBuffer(), [Message([FIRST, SECOND], true)]);
            ReadyFor(t.state, 100, 1, 0) && t.accepted == []
  {
    var c, h1, h2 := ZeroBuffer(), FIRST, SECOND;
    assert [h1, h2][..1] == [h1] && [h1][..0] == [];
    var s := Initial(c);
    assert PresyncAll(c, s, [h1]) == PresyncOne(c, s, h1);
    assert PresyncAll(c, s, [h1, h2]) == PresyncOne(c, PresyncOne(c, s, h1).0, h2);
    assert [Message([h1, h2], true)][..0] == [];
  }

  lemma ZeroBufferOne(s: State, h: Header)
    requires ReadyFor(s, h.prev, s.lastHeight, s.redoWork) && s.lastHeight < 3
    requires ZeroBuffer().permitted(s.lastHeight + 1, 1, h.bits) && s.redoWork + ZeroBuffer().proof(h.bits) < 20
    ensures RedownloadAll(ZeroBuffer(), s, [h]) ==
            (s.(redoWork := s.redoWork + ZeroBuffer().proof(h.bits), buffer := [Compress(h)],
                lastHeight := s.lastHeight + 1, lastHash := h.nonce), true)
  {
    var c := ZeroBuffer();
    assert [h][..0] == [];
    assert RedownloadAll(c, s, []) == (s, true);
    assert c.permitted(s.lastHeight + 1, PreviousBits(c, s), h.bits) && c.hash(h) == h.nonce;
    assert AddWork(s.redoWork, c.proof(h.bits)) == s.redoWork + c.proof(h.bits);
    assert !IsCommitHeight(c, s.lastHeight + 1);
    assert s.buffer + [Compress(h)] == [Compress(h)];
  }

  lemma ZeroBufferPop(s: State, h: Header)
    requires s.phase == Redownload && s.buffer == [Compress(h)] && !s.processAll && s.firstPrev == h.prev
    ensures PopReady(ZeroBuffer(), s) == (s.(buffer := [], firstPrev := h.nonce), [h])
  {
    assert Rebuilt(ZeroBuffer(), s.buffer, s.firstPrev, 0) == [];
    assert Rebuilt(ZeroBuffer(), s.buffer, s.firstPrev, 1) == [h];
    assert s.buffer[1..] == [];
  }

  lemma ZeroBufferTakes(t: Total, h: Header)
    requires ReadyFor(t.state, h.prev, t.state.lastHeight, t.state.redoWork) && t.state.lastHeight < 3
    requires ZeroBuffer().permitted(t.state.lastHeight + 1, 1, h.bits)
    requires t.state.redoWork + ZeroBuffer().proof(h.bits) < 20
    ensures var u := Advance(ZeroBuffer(), t, Message([h], true));
            && ReadyFor(u.state, h.nonce, t.state.lastHeight + 1, t.state.redoWork + ZeroBuffer().proof(h.bits))
            && u.accepted == t.accepted + [h]
  {
    hide RedownloadAll, PopReady, ZeroBuffer, Compress;
    var c, s := ZeroBuffer(), t.state;
    ZeroBufferOne(s, h);
    ZeroBufferPop(RedownloadAll(c, s, [h]).0, h);
  }

  /** A run in which the rule is missed: the second message of the second download begins with a difficulty that only
      follows that of the start. */
  lemma ZeroBufferMissesRule()
    ensures var ms := [Message([FIRST, SECOND], true), Message([FIRST], true), Message([REPLACED], true)];
            var t := Run(ZeroBuffer(), ms);
            t.accepted == [FIRST, REPLACED] && !Permitted(ZeroBuffer(), t.accepted)
  {
    hide Advance;
    var c := ZeroBuffer();
    var m1, m2, m3 := Message([FIRST, SECOND], true), Message([FIRST], true), Message([REPLACED], true);
    ZeroBufferPresync();
    ZeroBufferTakes(Run(c, [m1]), FIRST);
    assert [m1, m2, m3][..2] == [m1, m2] && [m1, m2][..1] == [m1];
    ZeroBufferTakes(Run(c, [m1, m2]), REPLACED);
    assert Run(c, [m1, m2, m3]).accepted == [FIRST, REPLACED];
    assert [FIRST, REPLACED][..1] == [FIRST];
  }
}
