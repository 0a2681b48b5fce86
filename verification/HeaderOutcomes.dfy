/** What each message does to a headers sync, told by the chains that it leads to. */
module HeaderOutcomes {
  import opened HeaderSteps
  import opened HeaderRuns

  // ---- The first download

  /** The headers connect to the chain, every difficulty may follow the one before, and the commitments are not too
      many. */
  ghost predicate FitsFirst(c: Config, p: seq<Header>, hs: seq<Header>) {
    hs != [] && hs[0].prev == PrevHash(c, p) && Plausible(c, p + hs)
  }

  ghost predicate Plausible(c: Config, p: seq<Header>) {
    Permitted(c, p) && |CommitBits(c, p)| <= c.maxCommitments
  }

  lemma PlausibleOne(c: Config, s: State, p: seq<Header>, h: Header)
    requires PresyncInv(c, s, p)
    ensures PresyncOne(c, s, h).1 <==> Plausible(c, p + [h])
  {
    Snoc(p, h);
  }

  lemma PlausibleBefore(c: Config, p: seq<Header>, h: Header)
    requires Plausible(c, p + [h])
    ensures Plausible(c, p)
  {
    Snoc(p, h);
    CommitCount(c, p, p + [h]);
  }

  /** The headers of a message are taken exactly if the longer chain is plausible. */
  lemma {:induction false} PresyncAllExactly(c: Config, s: State, p: seq<Header>, hs: seq<Header>)
    requires PresyncInv(c, s, p)
    ensures PresyncAll(c, s, hs).1 <==> Plausible(c, p + hs)
    decreases |hs|
  {
    hide PresyncOne, Plausible;
    if hs == [] {
      assert p + hs == p;
      assert Plausible(c, p) by { PlausibleNow(c, s, p); }
    } else {
      var n := |hs| - 1;
      PresyncAllExactly(c, s, p, hs[..n]);
      assert p + hs[..n] + [hs[n]] == p + hs;
      if PresyncAll(c, s, hs[..n]).1 {
        PresyncAllInv(c, s, p, hs[..n]);
        PlausibleOne(c, PresyncAll(c, s, hs[..n]).0, p + hs[..n], hs[n]);
      } else if Plausible(c, p + hs) {
        PlausibleBefore(c, p + hs[..n], hs[n]);
      }
    }
  }

  lemma PlausibleNow(c: Config, s: State, p: seq<Header>)
    requires PresyncInv(c, s, p)
    ensures Plausible(c, p)
  {
  }

  /** What a message of the first download does. */
  lemma FirstDownloadMessage(c: Config, ms: seq<Message>, m: Message)
    requires Run(c, ms).state.phase == Presync && m.headers != []
    ensures var t, u := Run(c, ms), Run(c, ms + [m]);
            && t.accepted == u.accepted == [] && t.released == u.released == []
            && if !FitsFirst(c, t.presync, m.headers) then u.presync == t.presync && u.state.phase == Final
               else
                 && u.presync == t.presync + m.headers
                 && u.state.phase == if WorkOf(c, u.presync) >= c.minWork then Redownload
                                     else if m.full then Presync else Final
  {
    hide Run, HistoryOk, RedoInv, PresyncAll, Plausible, WorkOf;
    var t := Run(c, ms);
    RunSnoc(c, ms, m);
    RunKeeps(c, ms);
    PresyncReleased(c, t);
    PresyncAllExactly(c, t.state, t.presync, m.headers);
    if PresyncAll(c, t.state, m.headers).1 { PresyncAllInv(c, t.state, t.presync, m.headers); }
    assert PresyncBatch(c, t.state, m.headers).1 <==> FitsFirst(c, t.presync, m.headers);
  }

  lemma RunSnoc(c: Config, ms: seq<Message>, m: Message)
    ensures Run(c, ms + [m]) == Advance(c, Run(c, ms), m)
  {
    hide Advance;
    Snoc(ms, m);
  }

  lemma PresyncReleased(c: Config, t: Total)
    requires HistoryOk(c, t) && t.accepted == []
    ensures t.released == []
  {
  }

  // ---- The second download

  /** Every difficulty may follow the one before; the first is compared with that of the start if nothing is held. */
  ghost predicate PermittedAfter(c: Config, accepted: seq<Header>, held: bool, hs: seq<Header>) {
    forall i | 0 <= i < |hs| :: c.permitted(c.startHeight + |accepted| + i + 1, BitsBefore(c, accepted, held, hs, i),
                                            hs[i].bits)
  }

  ghost function BitsBefore(c: Config, accepted: seq<Header>, held: bool, hs: seq<Header>, i: nat): nat
    requires i < |hs|
  {
    if i > 0 then hs[i - 1].bits else if held && accepted != [] then accepted[|accepted| - 1].bits else c.start.bits
  }

  /** The headers connect one by one, every difficulty may follow the one before, and at each commitment height before
      the work suffices the bit is that of the first download. */
  ghost predicate FitsAgain(c: Config, presync: seq<Header>, accepted: seq<Header>, held: bool, hs: seq<Header>) {
    Linked(c, accepted + hs) && PermittedAfter(c, accepted, held, hs) && Agrees(c, presync, accepted + hs)
  }

  lemma AgreesBefore(c: Config, presync: seq<Header>, accepted: seq<Header>, h: Header)
    requires Agrees(c, presync, accepted + [h])
    ensures Agrees(c, presync, accepted) && AgreesAt(c, presync, accepted + [h], |accepted|)
  {
    hide Reached, CommitBit;
    forall i: nat | i < |accepted| ensures AgreesAt(c, presync, accepted, i) {
      assert AgreesAt(c, presync, accepted + [h], i);
      assert (accepted + [h])[..i + 1] == accepted[..i + 1];
    }
  }

  /** The stored commitment is compared with the header's bit exactly where the first download has one. */
  lemma CommitExactly(c: Config, s: State, presync: seq<Header>, accepted: seq<Header>, released: seq<Header>,
                      h: Header)
    requires RedoInv(c, s, presync, accepted, released) && h.prev == s.lastHash
             && c.permitted(s.lastHeight + 1, PreviousBits(c, s), h.bits)
    ensures RedownloadOne(c, s, h).1 <==> AgreesAt(c, presync, accepted + [h], |accepted|)
  {
    hide Linked, Agrees, CommitBit, Permitted;
    Snoc(accepted, h);
    assert (accepted + [h])[..|accepted| + 1] == accepted + [h];
    if !Reached(c, accepted + [h]) && IsCommitHeight(c, c.startHeight + |accepted| + 1) {
      if s.commitments == [] {
        CommitLast(c, accepted + [h]);
        if |accepted| < |presync| { CommitCount(c, accepted + [h], presync); }
      } else {
        CommitAt(c, presync, accepted);
      }
    }
  }

  lemma FitsOne(c: Config, s: State, presync: seq<Header>, accepted: seq<Header>, released: seq<Header>, h: Header)
    requires RedoInv(c, s, presync, accepted, released)
    ensures RedownloadOne(c, s, h).1 <==>
            && h.prev == PrevHash(c, accepted) && AgreesAt(c, presync, accepted + [h], |accepted|)
            && c.permitted(c.startHeight + |accepted| + 1,
                           if |released| < |accepted| then accepted[|accepted| - 1].bits else c.start.bits, h.bits)
  {
    hide Linked, Agrees, AgreesAt, CommitBits, CommitBit, Permitted, Reached, WorkOf;
    assert s.buffer != [] ==> s.buffer[|s.buffer| - 1] == Compress(accepted[|accepted| - 1]);
    if h.prev == s.lastHash && c.permitted(s.lastHeight + 1, PreviousBits(c, s), h.bits) {
      CommitExactly(c, s, presync, accepted, released, h);
    }
  }

  lemma PermittedBefore(c: Config, accepted: seq<Header>, held: bool, hs: seq<Header>)
    requires hs != []
    ensures var n := |hs| - 1;
            PermittedAfter(c, accepted, held, hs) <==>
            && PermittedAfter(c, accepted, held, hs[..n])
            && c.permitted(c.startHeight + |accepted| + n + 1, BitsBefore(c, accepted, held, hs, n), hs[n].bits)
  {
    var n := |hs| - 1;
    assert forall i | 0 <= i < n ::
        hs[..n][i] == hs[i] && BitsBefore(c, accepted, held, hs[..n], i) == BitsBefore(c, accepted, held, hs, i);
  }

  lemma FitsBefore(c: Config, presync: seq<Header>, accepted: seq<Header>, held: bool, hs: seq<Header>)
    requires hs != []
    ensures var n := |hs| - 1;
            FitsAgain(c, presync, accepted, held, hs) <==>
            && FitsAgain(c, presync, accepted, held, hs[..n])
            && hs[n].prev == PrevHash(c, accepted + hs[..n])
            && AgreesAt(c, presync, accepted + hs, |accepted| + n)
            && c.permitted(c.startHeight + |accepted| + n + 1, BitsBefore(c, accepted, held, hs, n), hs[n].bits)
  {
    hide Agrees, AgreesAt, PermittedAfter, BitsBefore;
    var n := |hs| - 1;
    var q := accepted + hs[..n];
    assert q + [hs[n]] == accepted + hs;
    Snoc(q, hs[n]);
    if Agrees(c, presync, accepted + hs) { AgreesBefore(c, presync, q, hs[n]); }
    if Agrees(c, presync, q) && AgreesAt(c, presync, q + [hs[n]], |q|) { AgreesSnoc(c, presync, q, hs[n]); }
    PermittedBefore(c, accepted, held, hs);
  }

  /** The headers of a message are taken exactly if they fit. */
  lemma {:induction false} RedownloadAllExactly(c: Config, s: State, presync: seq<Header>, accepted: seq<Header>,
                                                released: seq<Header>, hs: seq<Header>)
    requires RedoInv(c, s, presync, accepted, released) && |released| <= |accepted|
    ensures RedownloadAll(c, s, hs).1 <==> FitsAgain(c, presync, accepted, |released| < |accepted|, hs)
    decreases |hs|
  {
    hide RedownloadOne, RedoInv, FitsAgain, Agrees, AgreesAt, Linked;
    var held := |released| < |accepted|;
    if hs == [] {
      assert FitsAgain(c, presync, accepted, held, hs) by { FitsNow(c, s, presync, accepted, released); }
    } else {
      var n := |hs| - 1;
      RedownloadAllExactly(c, s, presync, accepted, released, hs[..n]);
      FitsBefore(c, presync, accepted, held, hs);
      assert accepted + hs[..n] + [hs[n]] == accepted + hs;
      if RedownloadAll(c, s, hs[..n]).1 {
        RedoAllInv(c, s, presync, accepted, released, hs[..n]);
        FitsOne(c, RedownloadAll(c, s, hs[..n]).0, presync, accepted + hs[..n], released, hs[n]);
      }
    }
  }

  lemma FitsNow(c: Config, s: State, presync: seq<Header>, accepted: seq<Header>, released: seq<Header>)
    requires RedoInv(c, s, presync, accepted, released)
    ensures FitsAgain(c, presync, accepted, |released| < |accepted|, [])
  {
    hide Linked, Agrees, CommitBits, Permitted, Reached, WorkOf;
    assert accepted + [] == accepted;
  }

  /** What a message of the second download does. */
  lemma SecondDownloadMessage(c: Config, ms: seq<Message>, m: Message)
    requires Run(c, ms).state.phase == Redownload && m.headers != []
    ensures var t, u := Run(c, ms), Run(c, ms + [m]);
            && u.presync == t.presync
            && if !FitsAgain(c, t.presync, t.accepted, |t.released| < |t.accepted|, m.headers) then
                 u.accepted == t.accepted && u.released == t.released && u.state.phase == Final
               else
                 && u.accepted == t.accepted + m.headers
                 && u.released <= u.accepted && |u.released| == ReleasedCount(c, |u.accepted|, Reached(c, u.accepted))
                 && u.state.phase == if m.full && !Reached(c, u.accepted) then Redownload else Final
  {
    hide Run, RedoInv, RedoShape, FitsAgain, Linked, Agrees, Permitted, Reached, RedownloadAll, PopReady, WorkOf;
    var t := Run(c, ms);
    RunSnoc(c, ms, m);
    RunKeeps(c, ms);
    RunKeeps(c, ms + [m]);
    RedoParts(c, t.state, t.presync, t.accepted, t.released);
    RedoShapeParts(c, t.state, t.accepted, t.released);
    RedownloadAllExactly(c, t.state, t.presync, t.accepted, t.released, m.headers);
    if RedownloadAll(c, t.state, m.headers).1 {
      var s := RedownloadAll(c, t.state, m.headers).0;
      var a := t.accepted + m.headers;
      RedoAllInv(c, t.state, t.presync, t.accepted, t.released, m.headers);
      RedoParts(c, s, t.presync, a, t.released);
      PopInv(c, s, t.presync, a, t.released);
      RedoShapeParts(c, PopReady(c, s).0, a, t.released + PopReady(c, s).1);
    }
  }

  // ---- Either

  /** A message that brings nothing, or comes after the end, changes nothing. */
  lemma IdleMessage(c: Config, ms: seq<Message>, m: Message)
    requires m.headers == [] || Run(c, ms).state.phase == Final
    ensures Run(c, ms + [m]) == Run(c, ms)
  {
    hide Run;
    RunSnoc(c, ms, m);
  }

  /** A message that is not full ends the sync, unless it brings the first download to its end. */
  lemma NotFullEnds(c: Config, ms: seq<Message>, m: Message)
    requires !m.full && m.headers != []
    ensures var t, u := Run(c, ms), Run(c, ms + [m]);
            u.state.phase ==
            if t.state.phase == Presync && FitsFirst(c, t.presync, m.headers)
               && WorkOf(c, t.presync + m.headers) >= c.minWork then Redownload
            else Final
  {
    hide Run, FitsFirst, FitsAgain, WorkOf, Reached;
    match Run(c, ms).state.phase
    case Presync => FirstDownloadMessage(c, ms, m);
    case Redownload => SecondDownloadMessage(c, ms, m);
    case Final => IdleMessage(c, ms, m);
  }

  /** A message of which nothing is taken ends the sync. */
  lemma RefusedEnds(c: Config, ms: seq<Message>, m: Message)
    requires m.headers != []
    requires Run(c, ms + [m]).presync == Run(c, ms).presync && Run(c, ms + [m]).accepted == Run(c, ms).accepted
    ensures Run(c, ms + [m]).state.phase == Final
  {
    hide Run, FitsFirst, FitsAgain, WorkOf, Reached;
    match Run(c, ms).state.phase
    case Presync => FirstDownloadMessage(c, ms, m);
    case Redownload => SecondDownloadMessage(c, ms, m);
    case Final => IdleMessage(c, ms, m);
  }
}
