/** The two-phase headers download, as functions on the state of one sync. */
module HeaderSteps {

  datatype Header = Header(version: int, prev: int, merkle: int, time: nat, bits: nat, nonce: nat)

  /** A header without its predecessor's hash. */
  datatype Compressed = Compressed(version: int, merkle: int, time: nat, bits: nat, nonce: nat) {
    function Full(prev: int): Header {
      Header(version, prev, merkle, time, bits, nonce)
    }
  }

  function Compress(h: Header): Compressed {
    Compressed(h.version, h.merkle, h.time, h.bits, h.nonce)
  }

  const NULL_HEADER := Header(0, 0, 0, 0, 0, 0)

  /** What a sync is created with. The hash, the salted commitment bit, the difficulty rule and the proof of a
      difficulty are arbitrary functions. */
  datatype Config = Config(
    hash: Header -> int, bit: int -> bool, permitted: (int, nat, nat) -> bool, proof: nat -> nat,
    period: nat, offset: nat, bufferSize: nat, maxCommitments: nat, minWork: nat,
    start: Header, startHeight: nat, startWork: nat)

  datatype Phase = Presync | Redownload | Final

  datatype State = State(
    phase: Phase, work: nat, last: Header, height: nat, commitments: seq<bool>,
    buffer: seq<Compressed>, lastHeight: nat, lastHash: int, firstPrev: int, redoWork: nat, processAll: bool)

  datatype Outcome = Outcome(state: State, headers: seq<Header>, success: bool, more: bool)

  const TWO_256: nat := 0x1_0000_0000_0000_0000_0000_0000_0000_0000_0000_0000_0000_0000_0000_0000_0000_0000

  /** Addition of 256-bit work totals. */
  function AddWork(a: nat, b: nat): nat {
    (a + b) % TWO_256
  }

  function Initial(c: Config): State {
    State(Presync, c.startWork, c.start, c.startHeight, [], [], 0, 0, 0, 0, false)
  }

  predicate IsCommitHeight(c: Config, height: nat) {
    c.period > 0 && height % c.period == c.offset
  }

  function CommitBit(c: Config, h: Header): bool {
    c.bit(c.hash(h))
  }

  /** One header of the first download. */
  function PresyncOne(c: Config, s: State, h: Header): (State, bool) {
    var next := s.height + 1;
    if s.phase != Presync || !c.permitted(next, s.last.bits, h.bits) then (s, false)
    else
      var commitments := if IsCommitHeight(c, next) then s.commitments + [CommitBit(c, h)] else s.commitments;
      if IsCommitHeight(c, next) && |commitments| > c.maxCommitments then (s.(commitments := commitments), false)
      else (s.(commitments := commitments, work := AddWork(s.work, c.proof(h.bits)), last := h, height := next), true)
  }

  function PresyncAll(c: Config, s: State, hs: seq<Header>): (State, bool) {
    if hs == [] then (s, true)
    else
      var (t, ok) := PresyncAll(c, s, hs[..|hs| - 1]);
      if ok then PresyncOne(c, t, hs[|hs| - 1]) else (t, false)
  }

  function StartRedownload(c: Config, s: State): State {
    s.(buffer := [], lastHeight := c.startHeight, firstPrev := c.hash(c.start), lastHash := c.hash(c.start),
       redoWork := c.startWork, phase := Redownload)
  }

  /** One message of the first download. */
  function PresyncBatch(c: Config, s: State, hs: seq<Header>): (State, bool) {
    if hs == [] then (s, true)
    else if s.phase != Presync || hs[0].prev != c.hash(s.last) then (s, false)
    else
      var (t, ok) := PresyncAll(c, s, hs);
      if ok && t.work >= c.minWork then (StartRedownload(c, t), true) else (t, ok)
  }

  function PreviousBits(c: Config, s: State): nat {
    if s.buffer != [] then s.buffer[|s.buffer| - 1].bits else c.start.bits
  }

  /** One header of the second download. */
  function RedownloadOne(c: Config, s: State, h: Header): (State, bool) {
    var next := s.lastHeight + 1;
    if s.phase != Redownload || h.prev != s.lastHash || !c.permitted(next, PreviousBits(c, s), h.bits) then (s, false)
    else
      var redoWork := AddWork(s.redoWork, c.proof(h.bits));
      var t := s.(redoWork := redoWork, processAll := s.processAll || redoWork >= c.minWork);
      if !t.processAll && IsCommitHeight(c, next) && t.commitments == [] then (t, false)
      else
        var u := if !t.processAll && IsCommitHeight(c, next) then t.(commitments := t.commitments[1..]) else t;
        if !t.processAll && IsCommitHeight(c, next) && CommitBit(c, h) != t.commitments[0] then (u, false)
        else (u.(buffer := u.buffer + [Compress(h)], lastHeight := next, lastHash := c.hash(h)), true)
  }

  function RedownloadAll(c: Config, s: State, hs: seq<Header>): (State, bool) {
    if hs == [] then (s, true)
    else
      var (t, ok) := RedownloadAll(c, s, hs[..|hs| - 1]);
      if ok then RedownloadOne(c, t, hs[|hs| - 1]) else (t, false)
  }

  /** How many buffered headers may be released. */
  function ReadyCount(c: Config, s: State): (n: nat)
    ensures n <= |s.buffer|
  {
    if s.processAll then |s.buffer| else if |s.buffer| > c.bufferSize then |s.buffer| - c.bufferSize else 0
  }

  /** The first `n` headers of the buffer, with their predecessors' hashes. */
  function Rebuilt(c: Config, buffer: seq<Compressed>, prev: int, n: nat): (hs: seq<Header>)
    requires n <= |buffer|
    ensures |hs| == n
  {
    if n == 0 then []
    else
      var hs := Rebuilt(c, buffer, prev, n - 1);
      hs + [buffer[n - 1].Full(LastHash(c, hs, prev))]
  }

  function LastHash(c: Config, hs: seq<Header>, prev: int): int {
    if hs == [] then prev else c.hash(hs[|hs| - 1])
  }

  function PopReady(c: Config, s: State): (State, seq<Header>) {
    if s.phase != Redownload then (s, [])
    else
      var n := ReadyCount(c, s);
      var hs := Rebuilt(c, s.buffer, s.firstPrev, n);
      (s.(buffer := s.buffer[n..], firstPrev := LastHash(c, hs, s.firstPrev)), hs)
  }

  function Finalized(s: State): State {
    s.(commitments := [], last := NULL_HEADER, buffer := [], lastHash := 0, firstPrev := 0, processAll := false,
       height := 0, phase := Final)
  }

  function Conclude(s: State, headers: seq<Header>, success: bool, more: bool): Outcome {
    Outcome(if success && more then s else Finalized(s), headers, success, more)
  }

  /** One message from the peer. */
  function Process(c: Config, s: State, hs: seq<Header>, full: bool): Outcome {
    if hs == [] || s.phase == Final then Outcome(s, [], false, false)
    else if s.phase == Presync then
      var (t, ok) := PresyncBatch(c, s, hs);
      Conclude(t, [], ok, ok && (full || t.phase == Redownload))
    else
      var (t, ok) := RedownloadAll(c, s, hs);
      if !ok then Conclude(t, [], false, false)
      else
        var (u, out) := PopReady(c, t);
        Conclude(u, out, true, !(u.buffer == [] && u.processAll) && full)
  }
}
