/** What the two-phase headers download promises, for every run. */
module HeaderTheorems {
  import opened HeaderSteps
  import opened HeaderRuns

  // ---- Safety

  /** The released headers are a hash-linked prefix of the chain accepted in the second download. */
  lemma ReleasedIsChain(c: Config, ms: seq<Message>)
    ensures var t := Run(c, ms);
            && t.released <= t.accepted && Linked(c, t.accepted)
            && forall i | 0 <= i < |t.released| :: t.released[i].prev == PrevHash(c, t.released[..i])
  {
    hide Run, Agrees, Permitted, Reached, WorkOf, Linked;
    var t := Run(c, ms);
    RunKeeps(c, ms);
    forall i | 0 <= i < |t.released| ensures t.released[i].prev == PrevHash(c, t.released[..i]) {
      LinkedAt(c, t.accepted, i);
      assert t.released[..i] == t.accepted[..i];
    }
  }

  /** At every commitment height before the work suffices, the second download has the bit of the first. */
  lemma CommitmentsMatch(c: Config, ms: seq<Message>, i: nat)
    requires var t := Run(c, ms);
             i < |t.accepted| && !Reached(c, t.accepted[..i + 1]) && IsCommitHeight(c, c.startHeight + i + 1)
    ensures var t := Run(c, ms);
            i < |t.presync| && c.bit(c.hash(t.accepted[i])) == c.bit(c.hash(t.presync[i]))
  {
    hide Run, Permitted, Reached, WorkOf, Linked;
    RunKeeps(c, ms);
    assert AgreesAt(c, Run(c, ms).presync, Run(c, ms).accepted, i);
  }

  /** A header released before the work suffices has the whole look-ahead accepted above it; once the work
      suffices, everything is released. */
  lemma ReleasedHasLookahead(c: Config, ms: seq<Message>)
    ensures var t := Run(c, ms);
            if Reached(c, t.accepted) then t.released == t.accepted
            else t.released == [] || |t.released| + c.bufferSize == |t.accepted|
  {
    hide Run, Agrees, Permitted, Reached, WorkOf, Linked;
    RunKeeps(c, ms);
  }

  /** Nothing is accepted unless the first download was a permitted chain with enough work. */
  lemma AcceptedAfterWork(c: Config, ms: seq<Message>)
    ensures var t := Run(c, ms); Permitted(c, t.presync) && (t.accepted != [] ==> WorkOf(c, t.presync) >= c.minWork)
  {
    hide Run, Agrees, Permitted, Reached, WorkOf, Linked;
    RunKeeps(c, ms);
  }

  /** The headers of a message follow each other, as the caller has checked. */
  ghost predicate Continuous(c: Config, hs: seq<Header>) {
    forall i | 0 < i < |hs| :: hs[i].prev == c.hash(hs[i - 1])
  }

  lemma {:induction false} LinkedAppend(c: Config, p: seq<Header>, hs: seq<Header>)
    requires Linked(c, p) && Continuous(c, hs) && (hs != [] ==> hs[0].prev == PrevHash(c, p))
    ensures Linked(c, p + hs)
    decreases |hs|
  {
    if hs == [] {
      assert p + hs == p;
    } else {
      var n := |hs| - 1;
      LinkedAppend(c, p, hs[..n]);
      assert (p + hs)[..|p + hs| - 1] == p + hs[..n];
      if n == 0 { assert p + hs[..n] == p; }
    }
  }

  /** The first download is hash-linked, though only the first header of each message is compared. */
  lemma {:induction false} PresyncIsLinked(c: Config, ms: seq<Message>)
    requires forall m | m in ms :: Continuous(c, m.headers)
    ensures Linked(c, Run(c, ms).presync)
    decreases |ms|
  {
    hide HistoryOk, RedoInv, RedownloadAll, PopReady, PresyncAll, Linked, Permitted, CommitBits, WorkOf, Continuous;
    if ms == [] {
      assert Linked(c, []) by { LinkedEmpty(c); }
    } else {
      var n := |ms| - 1;
      PresyncIsLinked(c, ms[..n]);
      RunKeeps(c, ms[..n]);
      var t := Run(c, ms[..n]);
      if t.state.phase == Presync && Process(c, t.state, ms[n].headers, ms[n].full).success {
        LinkedAppend(c, t.presync, ms[n].headers);
      }
    }
  }

  lemma LinkedEmpty(c: Config)
    ensures Linked(c, [])
  {
  }

  lemma CommitmentsBounded(c: Config, ms: seq<Message>)
    ensures |Run(c, ms).state.commitments| <= c.maxCommitments
  {
    hide Run, HistoryOk, PresyncInv, RedoInv;
    RunKeeps(c, ms);
  }

  function Rank(p: Phase): nat {
    match p
    case Presync => 0
    case Redownload => 1
    case Final => 2
  }

  lemma ProcessForward(c: Config, t: Total, m: Message)
    requires RunInv(c, t)
    ensures Rank(t.state.phase) <= Rank(Advance(c, t, m).state.phase) && t.released <= Advance(c, t, m).released
    ensures t.state.phase == Final ==> Advance(c, t, m).released == t.released
  {
    hide HistoryOk, PresyncInv, RedoInv, RedownloadAll;
    if t.state.phase == Redownload {
      var o := Process(c, t.state, m.headers, m.full);
      RedownloadPhase(c, t.state, m.headers);
    }
  }

  lemma {:induction false} RedownloadPhase(c: Config, s: State, hs: seq<Header>)
    ensures RedownloadAll(c, s, hs).0.phase == s.phase
    decreases |hs|
  {
    if hs != [] { RedownloadPhase(c, s, hs[..|hs| - 1]); }
  }

  /** Phases only move forward, and what was released stays released. */
  lemma {:induction false} OnlyForward(c: Config, ms: seq<Message>, i: nat)
    requires i <= |ms|
    ensures Rank(Run(c, ms[..i]).state.phase) <= Rank(Run(c, ms).state.phase)
    ensures Run(c, ms[..i]).released <= Run(c, ms).released
    ensures Run(c, ms[..i]).state.phase == Final ==> Run(c, ms).released == Run(c, ms[..i]).released
    decreases |ms|
  {
    hide RunInv, Advance;
    if i == |ms| {
      assert ms[..i] == ms;
    } else {
      assert ms[..|ms| - 1][..i] == ms[..i];
      OnlyForward(c, ms[..|ms| - 1], i);
      RunKeeps(c, ms[..|ms| - 1]);
      ProcessForward(c, Run(c, ms[..|ms| - 1]), ms[|ms| - 1]);
    }
  }
}
