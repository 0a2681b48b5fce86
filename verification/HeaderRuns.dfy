/** What every run of the two-phase headers download keeps. */
module HeaderRuns {
  import opened HeaderSteps

  datatype Message = Message(headers: seq<Header>, full: bool)

  /** The state after some messages, with the headers taken in each phase and those released. */
  datatype Total = Total(state: State, presync: seq<Header>, accepted: seq<Header>, released: seq<Header>)

  function Advance(c: Config, t: Total, m: Message): Total {
    var o := Process(c, t.state, m.headers, m.full);
    if !o.success then t.(state := o.state)
    else if t.state.phase == Presync then t.(state := o.state, presync := t.presync + m.headers)
    else t.(state := o.state, accepted := t.accepted + m.headers, released := t.released + o.headers)
  }

  function Run(c: Config, ms: seq<Message>): Total {
    if ms == [] then Total(Initial(c), [], [], []) else Advance(c, Run(c, ms[..|ms| - 1]), ms[|ms| - 1])
  }

  // ---- Properties of a chain of headers above the start

  function PrevHash(c: Config, hs: seq<Header>): int {
    LastHash(c, hs, c.hash(c.start))
  }

  function PrevBits(c: Config, hs: seq<Header>): nat {
    if hs == [] then c.start.bits else hs[|hs| - 1].bits
  }

  /** Each header names its predecessor's hash. */
  ghost predicate Linked(c: Config, hs: seq<Header>) {
    hs == [] || (Linked(c, hs[..|hs| - 1]) && hs[|hs| - 1].prev == PrevHash(c, hs[..|hs| - 1]))
  }

  /** Each difficulty may follow its predecessor's. */
  ghost predicate Permitted(c: Config, hs: seq<Header>) {
    hs == []
    || (Permitted(c, hs[..|hs| - 1])
        && c.permitted(c.startHeight + |hs|, PrevBits(c, hs[..|hs| - 1]), hs[|hs| - 1].bits))
  }

  function WorkOf(c: Config, hs: seq<Header>): nat {
    if hs == [] then c.startWork else AddWork(WorkOf(c, hs[..|hs| - 1]), c.proof(hs[|hs| - 1].bits))
  }

  /** Some header brings the work to the minimum. */
  ghost predicate Reached(c: Config, hs: seq<Header>) {
    hs != [] && (Reached(c, hs[..|hs| - 1]) || WorkOf(c, hs) >= c.minWork)
  }

  /** The commitment bits at the commitment heights. */
  function CommitBits(c: Config, hs: seq<Header>): seq<bool> {
    if hs == [] then []
    else
      CommitBits(c, hs[..|hs| - 1])
        + if IsCommitHeight(c, c.startHeight + |hs|) then [CommitBit(c, hs[|hs| - 1])] else []
  }

  lemma Snoc<T>(hs: seq<T>, h: T)
    ensures (hs + [h])[..|hs + [h]| - 1] == hs && (hs + [h])[|hs|] == h && hs + [h] != []
  {
  }

  lemma {:induction false} CommitCount(c: Config, a: seq<Header>, b: seq<Header>)
    requires |a| <= |b|
    ensures |CommitBits(c, a)| <= |CommitBits(c, b)|
    ensures |a| == |b| ==> |CommitBits(c, a)| == |CommitBits(c, b)|
    decreases |b|
  {
    if |a| < |b| {
      CommitCount(c, a, b[..|b| - 1]);
    } else if a != [] {
      CommitCount(c, a[..|a| - 1], b[..|b| - 1]);
    }
  }

  lemma {:induction false} CommitPrefix(c: Config, p: seq<Header>, i: nat)
    requires i <= |p|
    ensures CommitBits(c, p[..i]) <= CommitBits(c, p)
    decreases |p|
  {
    if i < |p| {
      assert p[..|p| - 1][..i] == p[..i];
      CommitPrefix(c, p[..|p| - 1], i);
    } else {
      assert p[..i] == p;
    }
  }

  /** The next commitment after those of `a` is that of the header of `p` at the same height. */
  lemma CommitAt(c: Config, p: seq<Header>, a: seq<Header>)
    requires IsCommitHeight(c, c.startHeight + |a| + 1) && |CommitBits(c, a)| < |CommitBits(c, p)|
    ensures |a| < |p| && CommitBits(c, p)[|CommitBits(c, a)|] == CommitBit(c, p[|a|])
  {
    hide CommitBits, CommitBit, IsCommitHeight;
    if |p| <= |a| { CommitCount(c, p, a); }
    assert |a| < |p|;
    var q := p[..|a| + 1];
    CommitLast(c, q);
    assert q[..|a|] == p[..|a|];
    CommitCount(c, a, p[..|a|]);
    CommitPrefix(c, p, |a| + 1);
  }

  lemma CommitLast(c: Config, q: seq<Header>)
    requires q != [] && IsCommitHeight(c, c.startHeight + |q|)
    ensures CommitBits(c, q) == CommitBits(c, q[..|q| - 1]) + [CommitBit(c, q[|q| - 1])]
  {
  }

  // ---- Agreement of the two downloads

  ghost predicate AgreesAt(c: Config, presync: seq<Header>, accepted: seq<Header>, i: nat)
    requires i < |accepted|
  {
    !Reached(c, accepted[..i + 1]) && IsCommitHeight(c, c.startHeight + i + 1) ==>
      i < |presync| && CommitBit(c, presync[i]) == CommitBit(c, accepted[i])
  }

  /** At every commitment height before the work suffices, both downloads have the same bit. */
  ghost predicate Agrees(c: Config, presync: seq<Header>, accepted: seq<Header>) {
    forall i: nat | i < |accepted| :: AgreesAt(c, presync, accepted, i)
  }

  lemma AgreesSnoc(c: Config, presync: seq<Header>, accepted: seq<Header>, h: Header)
    requires Agrees(c, presync, accepted) && AgreesAt(c, presync, accepted + [h], |accepted|)
    ensures Agrees(c, presync, accepted + [h])
  {
    hide Reached, CommitBit;
    forall i: nat | i < |accepted| + 1 ensures AgreesAt(c, presync, accepted + [h], i) {
      if i < |accepted| {
        assert AgreesAt(c, presync, accepted, i);
        assert (accepted + [h])[..i + 1] == accepted[..i + 1];
      }
    }
  }

  // ---- The first download

  ghost predicate PresyncInv(c: Config, s: State, p: seq<Header>) {
    && s.phase == Presync && s.height == c.startHeight + |p|
    && s.last == (if p == [] then c.start else p[|p| - 1])
    && s.work == WorkOf(c, p) && s.commitments == CommitBits(c, p) && |s.commitments| <= c.maxCommitments
    && !s.processAll && Permitted(c, p)
  }

  lemma PresyncOneInv(c: Config, s: State, p: seq<Header>, h: Header)
    requires PresyncInv(c, s, p) && PresyncOne(c, s, h).1
    ensures PresyncInv(c, PresyncOne(c, s, h).0, p + [h])
  {
    Snoc(p, h);
  }

  lemma {:induction false} PresyncAllInv(c: Config, s: State, p: seq<Header>, hs: seq<Header>)
    requires PresyncInv(c, s, p) && PresyncAll(c, s, hs).1
    ensures PresyncInv(c, PresyncAll(c, s, hs).0, p + hs)
    decreases |hs|
  {
    hide PresyncOne, PresyncInv;
    if hs == [] {
      assert p + hs == p;
    } else {
      var n := |hs| - 1;
      PresyncAllInv(c, s, p, hs[..n]);
      PresyncOneInv(c, PresyncAll(c, s, hs[..n]).0, p + hs[..n], hs[n]);
      assert p + hs[..n] + [hs[n]] == p + hs;
    }
  }

  // ---- The second download

  /** The state while a message of the second download is taken in. */
  ghost predicate RedoShape(c: Config, s: State, accepted: seq<Header>, released: seq<Header>) {
    && s.phase == Redownload && s.lastHeight == c.startHeight + |accepted|
    && |released| <= |accepted| && released == accepted[..|released|]
    && s.lastHash == PrevHash(c, accepted) && s.firstPrev == PrevHash(c, released)
    && |s.buffer| == |accepted| - |released|
    && (forall i | 0 <= i < |s.buffer| :: s.buffer[i] == Compress(accepted[|released| + i]))
    && s.redoWork == WorkOf(c, accepted) && (s.processAll <==> Reached(c, accepted))
  }

  ghost predicate RedoInv(c: Config, s: State, presync: seq<Header>, accepted: seq<Header>, released: seq<Header>) {
    && RedoShape(c, s, accepted, released)
    && Linked(c, accepted) && Agrees(c, presync, accepted)
    && (!s.processAll ==> CommitBits(c, accepted) + s.commitments == CommitBits(c, presync))
    && |s.commitments| <= c.maxCommitments
    && (c.bufferSize > 0 ==> Permitted(c, accepted) && (accepted != [] ==> |released| < |accepted|))
  }

  lemma RedoOneShape(c: Config, s: State, accepted: seq<Header>, released: seq<Header>, h: Header)
    requires RedoShape(c, s, accepted, released) && RedownloadOne(c, s, h).1
    ensures RedoShape(c, RedownloadOne(c, s, h).0, accepted + [h], released)
  {
    hide Linked, CommitBits, IsCommitHeight, CommitBit;
    Snoc(accepted, h);
    assert (accepted + [h])[..|released|] == accepted[..|released|];
  }

  lemma RedoOneCommit(c: Config, s: State, presync: seq<Header>, accepted: seq<Header>, released: seq<Header>,
                      h: Header)
    requires RedoShape(c, s, accepted, released) && RedownloadOne(c, s, h).1
    requires Agrees(c, presync, accepted)
    requires !s.processAll ==> CommitBits(c, accepted) + s.commitments == CommitBits(c, presync)
    ensures var t := RedownloadOne(c, s, h).0;
            && Agrees(c, presync, accepted + [h])
            && (!t.processAll ==> CommitBits(c, accepted + [h]) + t.commitments == CommitBits(c, presync))
            && |t.commitments| <= |s.commitments|
  {
    hide Linked, Agrees, CommitBit;
    var t := RedownloadOne(c, s, h).0;
    RedoOneShape(c, s, accepted, released, h);
    Snoc(accepted, h);
    assert (accepted + [h])[..|accepted| + 1] == accepted + [h];
    if !t.processAll && IsCommitHeight(c, c.startHeight + |accepted| + 1) {
      CommitAt(c, presync, accepted);
      assert s.commitments == [s.commitments[0]] + t.commitments;
    }
    AgreesSnoc(c, presync, accepted, h);
  }

  lemma RedoOneChain(c: Config, s: State, accepted: seq<Header>, released: seq<Header>, h: Header)
    requires RedoShape(c, s, accepted, released) && RedownloadOne(c, s, h).1
    requires Linked(c, accepted)
             && (c.bufferSize > 0 ==> Permitted(c, accepted) && (accepted != [] ==> |released| < |accepted|))
    ensures Linked(c, accepted + [h])
            && (c.bufferSize > 0 ==> Permitted(c, accepted + [h]) && |released| < |accepted + [h]|)
  {
    hide Reached, CommitBits, IsCommitHeight, CommitBit;
    Snoc(accepted, h);
    assert s.buffer != [] ==> s.buffer[|s.buffer| - 1] == Compress(accepted[|accepted| - 1]);
  }

  lemma RedoOneInv(c: Config, s: State, presync: seq<Header>, accepted: seq<Header>, released: seq<Header>, h: Header)
    requires RedoInv(c, s, presync, accepted, released) && RedownloadOne(c, s, h).1
    ensures RedoInv(c, RedownloadOne(c, s, h).0, presync, accepted + [h], released)
  {
    hide RedoShape, RedownloadOne, Linked, Agrees, CommitBits, Permitted;
    RedoOneShape(c, s, accepted, released, h);
    RedoOneCommit(c, s, presync, accepted, released, h);
    RedoOneChain(c, s, accepted, released, h);
  }

  lemma {:induction false} RedoAllInv(c: Config, s: State, presync: seq<Header>, accepted: seq<Header>,
                                      released: seq<Header>, hs: seq<Header>)
    requires RedoInv(c, s, presync, accepted, released) && RedownloadAll(c, s, hs).1
    ensures RedoInv(c, RedownloadAll(c, s, hs).0, presync, accepted + hs, released)
    decreases |hs|
  {
    hide RedoInv, RedownloadOne;
    if hs == [] {
      assert accepted + hs == accepted;
    } else {
      var n := |hs| - 1;
      RedoAllInv(c, s, presync, accepted, released, hs[..n]);
      RedoOneInv(c, RedownloadAll(c, s, hs[..n]).0, presync, accepted + hs[..n], released, hs[n]);
      assert accepted + hs[..n] + [hs[n]] == accepted + hs;
    }
  }

  // ---- Releasing

  lemma {:induction false} LinkedAt(c: Config, hs: seq<Header>, i: nat)
    requires Linked(c, hs) && i < |hs|
    ensures hs[i].prev == PrevHash(c, hs[..i])
    decreases |hs|
  {
    if i < |hs| - 1 {
      assert hs[..|hs| - 1][..i] == hs[..i];
      LinkedAt(c, hs[..|hs| - 1], i);
    }
  }

  /** The headers rebuilt from the buffer are those that were accepted. */
  lemma {:induction false} RebuiltAccepted(c: Config, s: State, accepted: seq<Header>, released: seq<Header>, n: nat)
    requires RedoShape(c, s, accepted, released) && Linked(c, accepted) && n <= |s.buffer|
    ensures released + Rebuilt(c, s.buffer, s.firstPrev, n) == accepted[..|released| + n]
    ensures LastHash(c, Rebuilt(c, s.buffer, s.firstPrev, n), s.firstPrev) == PrevHash(c, accepted[..|released| + n])
    decreases n
  {
    hide Linked, Reached, WorkOf;
    if n == 0 {
      assert released + [] == released;
    } else {
      RebuiltAccepted(c, s, accepted, released, n - 1);
      var i := |released| + n - 1;
      LinkedAt(c, accepted, i);
      assert s.buffer[n - 1] == Compress(accepted[i]);
      assert accepted[..i] + [accepted[i]] == accepted[..i + 1];
    }
  }

  function ReleasedCount(c: Config, n: nat, all: bool): nat {
    if all then n else if n > c.bufferSize then n - c.bufferSize else 0
  }

  lemma PopInv(c: Config, s: State, presync: seq<Header>, accepted: seq<Header>, released: seq<Header>)
    requires RedoShape(c, s, accepted, released) && Linked(c, accepted)
    requires |released| <= ReleasedCount(c, |accepted|, s.processAll)
    ensures var (t, out) := PopReady(c, s);
            && RedoShape(c, t, accepted, released + out)
            && |released + out| == ReleasedCount(c, |accepted|, s.processAll)
            && t.commitments == s.commitments && t.processAll == s.processAll
            && (t.buffer == [] <==> |released + out| == |accepted|)
  {
    hide Linked, Reached, WorkOf;
    RebuiltAccepted(c, s, accepted, released, ReadyCount(c, s));
  }

  // ---- Whole runs

  /** What is true of the headers of a run, whatever its phase. */
  ghost predicate HistoryOk(c: Config, t: Total) {
    && Linked(c, t.accepted) && Agrees(c, t.presync, t.accepted) && Permitted(c, t.presync)
    && (c.bufferSize > 0 ==> Permitted(c, t.accepted))
    && |t.released| == ReleasedCount(c, |t.accepted|, Reached(c, t.accepted))
    && t.released == t.accepted[..|t.released|]
    && (t.accepted != [] ==> WorkOf(c, t.presync) >= c.minWork)
  }

  ghost predicate RunInv(c: Config, t: Total) {
    && HistoryOk(c, t)
    && |t.state.commitments| <= c.maxCommitments
    && (t.state.phase == Presync ==> PresyncInv(c, t.state, t.presync) && t.accepted == [])
    && (t.state.phase == Redownload ==>
          && RedoInv(c, t.state, t.presync, t.accepted, t.released)
          && !t.state.processAll && WorkOf(c, t.presync) >= c.minWork)
    && (t.state.phase == Final ==> t.state.commitments == [])
  }

  lemma InitialInv(c: Config)
    ensures RunInv(c, Run(c, []))
  {
  }

  lemma AdvanceIdle(c: Config, t: Total, m: Message)
    requires RunInv(c, t) && !Process(c, t.state, m.headers, m.full).success
    ensures RunInv(c, Advance(c, t, m))
  {
    hide HistoryOk, PresyncInv, RedoInv, PresyncBatch, RedownloadAll, PopReady;
    var o := Process(c, t.state, m.headers, m.full);
    assert o.state == t.state || o.state.phase == Final;
    assert HistoryOk(c, t.(state := o.state)) by { HistoryIgnoresState(c, t, o.state); }
  }

  lemma HistoryIgnoresState(c: Config, t: Total, s: State)
    requires HistoryOk(c, t)
    ensures HistoryOk(c, t.(state := s))
  {
  }

  lemma AdvancePresync(c: Config, t: Total, m: Message)
    requires RunInv(c, t) && t.state.phase == Presync && Process(c, t.state, m.headers, m.full).success
    ensures RunInv(c, Advance(c, t, m))
  {
    hide HistoryOk, PresyncInv, RedoInv, PresyncAll, RedownloadAll, PopReady;
    var (s, ok) := PresyncAll(c, t.state, m.headers);
    var p := t.presync + m.headers;
    PresyncAllInv(c, t.state, t.presync, m.headers);
    PresyncHistory(c, t, m.headers, s);
    if s.work >= c.minWork { StartInv(c, s, p); }
  }

  lemma PresyncHistory(c: Config, t: Total, hs: seq<Header>, s: State)
    requires HistoryOk(c, t) && t.accepted == [] && PresyncInv(c, s, t.presync + hs)
    ensures s.phase == Presync && !s.processAll && s.work == WorkOf(c, t.presync + hs)
            && |s.commitments| <= c.maxCommitments
    ensures forall u :: HistoryOk(c, Total(u, t.presync + hs, t.accepted, t.released)) && t.released == []
  {
  }

  lemma StartInv(c: Config, s: State, p: seq<Header>)
    requires PresyncInv(c, s, p)
    ensures RedoInv(c, StartRedownload(c, s), p, [], [])
  {
  }

  lemma AdvanceRedownload(c: Config, t: Total, m: Message)
    requires RunInv(c, t) && t.state.phase == Redownload && Process(c, t.state, m.headers, m.full).success
    ensures RunInv(c, Advance(c, t, m))
  {
    hide RedoInv, RedoShape, Linked, Agrees, Permitted, Reached, RedownloadAll, PopReady, WorkOf;
    var (s, ok) := RedownloadAll(c, t.state, m.headers);
    var a := t.accepted + m.headers;
    RedoAllInv(c, t.state, t.presync, t.accepted, t.released, m.headers);
    RedoParts(c, t.state, t.presync, t.accepted, t.released);
    RedoParts(c, s, t.presync, a, t.released);
    PopInv(c, s, t.presync, a, t.released);
    var (u, out) := PopReady(c, s);
    RedoShapeParts(c, u, a, t.released + out);
    if !u.processAll {
      RedoJoin(c, u, t.presync, a, t.released + out);
    }
  }

  lemma RedoParts(c: Config, s: State, presync: seq<Header>, accepted: seq<Header>, released: seq<Header>)
    requires RedoInv(c, s, presync, accepted, released)
    ensures RedoShape(c, s, accepted, released) && Linked(c, accepted) && Agrees(c, presync, accepted)
    ensures c.bufferSize > 0 ==> Permitted(c, accepted)
    ensures !s.processAll ==> CommitBits(c, accepted) + s.commitments == CommitBits(c, presync)
    ensures |s.commitments| <= c.maxCommitments && (s.processAll <==> Reached(c, accepted))
  {
    hide Linked, Agrees, Permitted, Reached, CommitBits, WorkOf;
  }

  lemma RedoShapeParts(c: Config, s: State, accepted: seq<Header>, released: seq<Header>)
    requires RedoShape(c, s, accepted, released)
    ensures s.phase == Redownload && |released| <= |accepted| && released == accepted[..|released|]
    ensures s.processAll <==> Reached(c, accepted)
  {
    hide Reached, WorkOf;
  }

  lemma RedoJoin(c: Config, s: State, presync: seq<Header>, accepted: seq<Header>, released: seq<Header>)
    requires RedoShape(c, s, accepted, released) && Linked(c, accepted) && Agrees(c, presync, accepted)
    requires CommitBits(c, accepted) + s.commitments == CommitBits(c, presync) && |s.commitments| <= c.maxCommitments
    requires c.bufferSize > 0 ==> Permitted(c, accepted)
    requires |released| == ReleasedCount(c, |accepted|, false)
    ensures RedoInv(c, s, presync, accepted, released)
  {
    hide Linked, Agrees, Permitted, Reached, CommitBits, WorkOf, RedoShape;
  }

  /** Every run keeps the invariant. */
  lemma {:induction false} RunKeeps(c: Config, ms: seq<Message>)
    ensures RunInv(c, Run(c, ms))
    decreases |ms|
  {
    hide RunInv, Process, Advance;
    if ms == [] {
      InitialInv(c);
    } else {
      var t, m := Run(c, ms[..|ms| - 1]), ms[|ms| - 1];
      RunKeeps(c, ms[..|ms| - 1]);
      if !Process(c, t.state, m.headers, m.full).success {
        AdvanceIdle(c, t, m);
      } else if t.state.phase == Presync {
        AdvancePresync(c, t, m);
      } else {
        SuccessPhase(c, t.state, m.headers, m.full);
        AdvanceRedownload(c, t, m);
      }
    }
  }

  lemma SuccessPhase(c: Config, s: State, hs: seq<Header>, full: bool)
    requires Process(c, s, hs, full).success
    ensures s.phase != Final && hs != []
  {
  }
}
