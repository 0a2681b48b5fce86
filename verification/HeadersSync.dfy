/** The state of one headers sync, updated in place. */
module HeadersSyncs {
  import opened HeaderSteps

  class HeadersSync {
    const config: Config
    var phase: Phase
    var work: nat
    var last: Header
    var height: nat
    var commitments: seq<bool>
    var buffer: seq<Compressed>
    var lastHeight: nat
    var lastHash: int
    var firstPrev: int
    var redoWork: nat
    var processAll: bool

    ghost function Snap(): State
      reads this
    {
      State(phase, work, last, height, commitments, buffer, lastHeight, lastHash, firstPrev, redoWork, processAll)
    }

    constructor (config: Config)
      ensures this.config == config && Snap() == Initial(config)
    {
      this.config := config;
      phase := Presync;
      work := config.startWork;
      last := config.start;
      height := config.startHeight;
      commitments := [];
      buffer := [];
      lastHeight, lastHash, firstPrev, redoWork := 0, 0, 0, 0;
      processAll := false;
    }

    method Finalize()
      modifies this
      ensures Snap() == Finalized(old(Snap()))
    {
      commitments := [];
      last := NULL_HEADER;
      buffer := [];
      lastHash := 0;
      firstPrev := 0;
      processAll := false;
      height := 0;
      phase := Final;
    }

    method ValidateAndProcessSingleHeader(h: Header) returns (ok: bool)
      requires config.period > 0
      modifies this
      ensures (Snap(), ok) == PresyncOne(config, old(Snap()), h) && phase == old(phase)
    {
      if phase != Presync { return false; }
      var next := height + 1;
      if !config.permitted(next, last.bits, h.bits) { return false; }
      if next % config.period == config.offset {
        commitments := commitments + [config.bit(config.hash(h))];
        if |commitments| > config.maxCommitments { return false; }
      }
      work := AddWork(work, config.proof(h.bits));
      last := h;
      height := next;
      return true;
    }

    method ValidateAndStoreHeadersCommitments(hs: seq<Header>) returns (ok: bool)
      requires config.period > 0
      modifies this
      ensures (Snap(), ok) == PresyncBatch(config, old(Snap()), hs) && (phase == old(phase) || phase == Redownload)
    {
      hide PresyncOne;
      if hs == [] { return true; }
      if phase != Presync { return false; }
      if hs[0].prev != config.hash(last) { return false; }
      ghost var s := Snap();
      var i := 0;
      while i < |hs|
        invariant 0 <= i <= |hs| && (Snap(), true) == PresyncAll(config, s, hs[..i]) && phase == s.phase
      {
        ok := ValidateAndProcessSingleHeader(hs[i]);
        assert hs[..i + 1][..i] == hs[..i];
        if !ok {
          PresyncAllStuck(config, s, hs, i + 1);
          return false;
        }
        i := i + 1;
      }
      assert hs[..|hs|] == hs;
      if work >= config.minWork {
        buffer := [];
        lastHeight := config.startHeight;
        firstPrev := config.hash(config.start);
        lastHash := config.hash(config.start);
        redoWork := config.startWork;
        phase := Redownload;
      }
      return true;
    }

    method ValidateAndStoreRedownloadedHeader(h: Header) returns (ok: bool)
      requires config.period > 0
      modifies this
      ensures (Snap(), ok) == RedownloadOne(config, old(Snap()), h) && phase == old(phase)
    {
      if phase != Redownload { return false; }
      var next := lastHeight + 1;
      if h.prev != lastHash { return false; }
      var previousBits := config.start.bits;
      if buffer != [] { previousBits := buffer[|buffer| - 1].bits; }
      if !config.permitted(next, previousBits, h.bits) { return false; }
      redoWork := AddWork(redoWork, config.proof(h.bits));
      if redoWork >= config.minWork { processAll := true; }
      if !processAll && next % config.period == config.offset {
        if commitments == [] { return false; }
        var commitment := config.bit(config.hash(h));
        var expected := commitments[0];
        commitments := commitments[1..];
        if commitment != expected { return false; }
      }
      buffer := buffer + [Compress(h)];
      lastHeight := next;
      lastHash := config.hash(h);
      return true;
    }

    method PopHeadersReadyForAcceptance() returns (r: seq<Header>)
      modifies this`buffer, this`firstPrev
      ensures (Snap(), r) == PopReady(config, old(Snap()))
    {
      r := [];
      if phase != Redownload { return; }
      ghost var s, n := Snap(), ReadyCount(config, Snap());
      while |buffer| > config.bufferSize || (|buffer| > 0 && processAll)
        invariant |r| <= n && buffer == s.buffer[|r|..]
        invariant r == Rebuilt(config, s.buffer, s.firstPrev, |r|) && firstPrev == LastHash(config, r, s.firstPrev)
        decreases |buffer|
      {
        r := r + [buffer[0].Full(firstPrev)];
        buffer := buffer[1..];
        firstPrev := config.hash(r[|r| - 1]);
      }
    }

    method ProcessNextHeaders(hs: seq<Header>, full: bool) returns (headers: seq<Header>, success: bool, more: bool)
      requires config.period > 0
      modifies this
      ensures Outcome(Snap(), headers, success, more) == Process(config, old(Snap()), hs, full)
      ensures hs == [] || old(phase) == Final ==> Snap() == old(Snap()) && headers == [] && !success && !more
      ensures hs != [] ==> (more <==> phase != Final) && (!success ==> headers == [])
      ensures hs != [] && old(phase) == Presync ==>
                headers == [] && (success && !full ==> (more <==> phase == Redownload))
      ensures hs != [] && old(phase) != Presync ==> (more ==> phase == Redownload && full && success)
    {
      hide PresyncBatch, RedownloadOne, PopReady;
      headers, success, more := [], false, false;
      if hs == [] || phase == Final { return; }
      ghost var s := Snap();
      if phase == Presync {
        success := ValidateAndStoreHeadersCommitments(hs);
        if success {
          if full || phase == Redownload { more := true; }
        }
      } else {
        success := RedownloadHeaders(hs);
        if success {
          headers := PopHeadersReadyForAcceptance();
          if buffer == [] && processAll {
          } else if full {
            more := true;
          }
        }
      }
      if !(success && more) { Finalize(); }
    }

    method RedownloadHeaders(hs: seq<Header>) returns (ok: bool)
      requires config.period > 0
      modifies this
      ensures (Snap(), ok) == RedownloadAll(config, old(Snap()), hs) && phase == old(phase)
    {
      hide RedownloadOne;
      ghost var s := Snap();
      var i := 0;
      while i < |hs|
        invariant 0 <= i <= |hs| && (Snap(), true) == RedownloadAll(config, s, hs[..i]) && phase == s.phase
      {
        ok := ValidateAndStoreRedownloadedHeader(hs[i]);
        assert hs[..i + 1][..i] == hs[..i];
        if !ok {
          RedownloadAllStuck(config, s, hs, i + 1);
          return false;
        }
        i := i + 1;
      }
      assert hs[..|hs|] == hs;
      return true;
    }
  }

  /** Once a header of a message is refused, the rest of it is not looked at. */
  lemma {:induction false} PresyncAllStuck(c: Config, s: State, hs: seq<Header>, i: nat)
    requires i <= |hs| && !PresyncAll(c, s, hs[..i]).1
    ensures PresyncAll(c, s, hs) == PresyncAll(c, s, hs[..i])
    decreases |hs|
  {
    hide PresyncOne;
    if i == |hs| {
      assert hs[..i] == hs;
    } else {
      assert hs[..|hs| - 1][..i] == hs[..i];
      PresyncAllStuck(c, s, hs[..|hs| - 1], i);
    }
  }

  lemma {:induction false} RedownloadAllStuck(c: Config, s: State, hs: seq<Header>, i: nat)
    requires i <= |hs| && !RedownloadAll(c, s, hs[..i]).1
    ensures RedownloadAll(c, s, hs) == RedownloadAll(c, s, hs[..i])
    decreases |hs|
  {
    hide RedownloadOne;
    if i == |hs| {
      assert hs[..i] == hs;
    } else {
      assert hs[..|hs| - 1][..i] == hs[..i];
      RedownloadAllStuck(c, s, hs[..|hs| - 1], i);
    }
  }
}
