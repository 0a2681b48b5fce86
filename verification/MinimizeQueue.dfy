/** The queue of chunks that may still be split into equal-feerate parts. */
module MinimizeQueue {
  import opened Clusters
  import opened Forests
  import opened Diagrams
  import opened Improving
  import opened Minimizing

  /** A chunk with a pivot transaction, the direction the pivot is being moved in, and whether the
      other direction has been tried already. */
  datatype Entry = Entry(chunk: nat, pivot: nat, down: bool, second: bool)

  ghost predicate EntryOk(g: Cluster, f: Forest, e: Entry) {
    && e.chunk in f.chunk.Values && e.pivot in f.Part(e.chunk)
    && (e.second ==> if e.down then NoneAbove(g, f.Part(e.chunk), e.pivot) else NoneBelow(g, f.Part(e.chunk), e.pivot))
  }

  ghost predicate DistinctChunks(q: seq<Entry>) {
    forall i, j | 0 <= i < j < |q| :: q[i].chunk != q[j].chunk
  }

  ghost predicate Queued(q: seq<Entry>, i: nat) {
    exists e :: e in q && e.chunk == i
  }

  /** Chunks that are not queued are minimal. */
  ghost predicate QueueMinimal(g: Cluster, f: Forest, q: seq<Entry>) {
    && DistinctChunks(q)
    && (forall e | e in q :: EntryOk(g, f, e))
    && (forall i | i in f.chunk.Values && !Queued(q, i) :: MinimalChunk(g, f.Part(i)))
  }

  ghost predicate AllMinimal(g: Cluster, f: Forest) {
    forall i | i in f.chunk.Values :: MinimalChunk(g, f.Part(i))
  }

  lemma EmptyQueue(g: Cluster, f: Forest)
    requires QueueMinimal(g, f, [])
    ensures AllMinimal(g, f)
  {
    hide MinimalChunk;
  }

  /** The queue without its first entry. */
  lemma Rest(q: seq<Entry>)
    requires q != [] && DistinctChunks(q)
    ensures DistinctChunks(q[1..])
    ensures forall e | e in q[1..] :: e in q && e.chunk != q[0].chunk
    ensures forall i :: Queued(q, i) <==> i == q[0].chunk || Queued(q[1..], i)
    ensures !Queued(q[1..], q[0].chunk)
  {
    assert q == [q[0]] + q[1..];
    forall e | e in q[1..] ensures e in q && e.chunk != q[0].chunk {
      var j :| 0 <= j < |q| - 1 && q[1..][j] == e;
      assert q[j + 1] == e;
    }
  }

  lemma Appended(q: seq<Entry>, e: Entry)
    requires DistinctChunks(q) && !Queued(q, e.chunk)
    ensures DistinctChunks(q + [e])
    ensures forall i :: Queued(q + [e], i) <==> i == e.chunk || Queued(q, i)
  {
    assert forall h | h in q :: h.chunk != e.chunk;
    assert e in q + [e];
    forall i ensures Queued(q + [e], i) <==> i == e.chunk || Queued(q, i) {
      if Queued(q, i) {
        var h :| h in q && h.chunk == i;
        assert h in q + [e];
      }
    }
  }

  lemma PopMinimal(g: Cluster, f: Forest, q: seq<Entry>)
    requires q != [] && QueueMinimal(g, f, q) && MinimalChunk(g, f.Part(q[0].chunk))
    ensures QueueMinimal(g, f, q[1..])
  {
    hide MinimalChunk, EntryOk, Queued;
    Rest(q);
  }

  lemma Requeue(g: Cluster, f: Forest, q: seq<Entry>, e: Entry)
    requires q != [] && QueueMinimal(g, f, q) && e.chunk == q[0].chunk && EntryOk(g, f, e)
    ensures QueueMinimal(g, f, q[1..] + [e])
  {
    hide MinimalChunk, EntryOk, Queued;
    Rest(q);
    Appended(q[1..], e);
  }

  /** The chunks other than `ic` and `ip` are the same in both forests. */
  ghost predicate SameElsewhere(f: Forest, f': Forest, ip: nat, ic: nat) {
    && (forall i | i != ip && i != ic :: f'.Part(i) == f.Part(i))
    && (forall i | i != ip && i != ic :: i in f'.chunk.Values <==> i in f.chunk.Values)
  }

  lemma RestOk(g: Cluster, f: Forest, f': Forest, q: seq<Entry>, ip: nat)
    requires q != [] && QueueMinimal(g, f, q) && SameElsewhere(f, f', ip, q[0].chunk) && ip !in f.chunk.Values
    ensures DistinctChunks(q[1..]) && !Queued(q[1..], ip) && !Queued(q[1..], q[0].chunk)
    ensures forall e | e in q[1..] :: EntryOk(g, f', e)
    ensures forall i | i in f'.chunk.Values && i != ip && i != q[0].chunk && !Queued(q[1..], i) ::
            MinimalChunk(g, f'.Part(i))
  {
    hide MinimalChunk, NoneAbove, NoneBelow, Forest.Part;
    Rest(q);
  }

  /** After a self-merge, the chunk is queued again under its new index. */
  lemma RequeueMerged(g: Cluster, f: Forest, f': Forest, q: seq<Entry>, ip: nat)
    requires q != [] && QueueMinimal(g, f, q) && SameElsewhere(f, f', ip, q[0].chunk) && ip !in f.chunk.Values
    requires f'.Part(ip) == f.Part(q[0].chunk) && ip in f'.chunk.Values && q[0].chunk !in f'.chunk.Values
    ensures QueueMinimal(g, f', q[1..] + [q[0].(chunk := ip)])
  {
    hide MinimalChunk, NoneAbove, NoneBelow, Queued, Forest.Part, SameElsewhere;
    RestOk(g, f, f', q, ip);
    assert q[0] in q && EntryOk(g, f, q[0]);
    Appended(q[1..], q[0].(chunk := ip));
  }

  /** After a split, both halves are queued. */
  lemma RequeueSplit(g: Cluster, f: Forest, f': Forest, q: seq<Entry>, ip: nat, a: Entry, b: Entry)
    requires q != [] && QueueMinimal(g, f, q) && SameElsewhere(f, f', ip, q[0].chunk) && ip !in f.chunk.Values
    requires EntryOk(g, f', a) && EntryOk(g, f', b) && a.chunk != b.chunk
    requires (a.chunk == ip && b.chunk == q[0].chunk) || (a.chunk == q[0].chunk && b.chunk == ip)
    ensures QueueMinimal(g, f', q[1..] + [a] + [b])
  {
    hide MinimalChunk, EntryOk, Queued, Forest.Part, SameElsewhere;
    RestOk(g, f, f', q, ip);
    Appended(q[1..], a);
    Appended(q[1..] + [a], b);
  }

  lemma SwapLast(g: Cluster, f: Forest, q: seq<Entry>, a: Entry, b: Entry)
    requires QueueMinimal(g, f, q + [a] + [b])
    ensures QueueMinimal(g, f, q + [b] + [a])
  {
    hide MinimalChunk, EntryOk;
    var u, v := q + [a] + [b], q + [b] + [a];
    assert forall e :: e in u <==> e in v;
    forall i, j | 0 <= i < j < |v| ensures v[i].chunk != v[j].chunk {
      assert v[i] == u[if i == |q| then |q| + 1 else i];
      assert v[j] == u[if j == |q| then |q| + 1 else if j == |q| + 1 then |q| else j];
    }
    forall i ensures Queued(u, i) ==> Queued(v, i) {
    }
  }

  // ---- What becomes of the entry being worked on

  lemma TopClosed(g: Cluster, f: Forest, d: Dep, ip: nat)
    requires EqualTop(g, f, d) && f.CanDeactivate(d, ip)
    requires !TopNeedsBottom(g, f.Deactivated(d, ip), ip, f.chunk[d.parent])
    ensures ClosedIn(g, f.Part(f.chunk[d.parent]), f.top[d])
  {
    hide Cluster.GainOf, ChunkRate, Closed, Connected, IsTop, Forest.Deactivated;
    DeactivatedParts(f, g, d, ip);
    var f', ic := f.Deactivated(d, ip), f.chunk[d.parent];
    forall e | e in g.deps && e.child in f.top[d] && e.parent in f.Part(ic)
      ensures e.parent in f.top[d]
    {
      assert e.child in f'.Part(ip);
      assert e.parent !in f.top[d] ==> e.parent in f'.Part(ic);
    }
  }

  /** The half with the pivot keeps the entry, including what its first stage found out. */
  lemma SplitEntry(g: Cluster, f: Forest, d: Dep, ip: nat, e: Entry)
    requires EqualTop(g, f, d) && f.CanDeactivate(d, ip) && EntryOk(g, f, e) && e.chunk == f.chunk[d.parent]
    requires !TopNeedsBottom(g, f.Deactivated(d, ip), ip, f.chunk[d.parent])
    requires e.pivot in f.top[d] <==> !e.down
    ensures EntryOk(g, f.Deactivated(d, ip), e.(chunk := if e.down then e.chunk else ip))
  {
    hide Cluster.GainOf, Cluster.RateOf, Forest.Valid, NoneAbove, NoneBelow, TopNeedsBottom, ClosedIn,
         Forest.Deactivated;
    var f', ic, t := f.Deactivated(d, ip), f.chunk[d.parent], f.top[d];
    TopClosed(g, f, d, ip);
    EqualSplitRates(g, f, d, ip);
    DeactivatedParts(f, g, d, ip);
    PartNonEmpty(f, ic);
    PartNonEmpty(f', ip);
    PartNonEmpty(f', ic);
    if e.second {
      if e.down {
        LowerInherits(g, f.Part(ic), t, e.pivot);
      } else {
        UpperInherits(g, f.Part(ic), t, e.pivot);
      }
    }
  }

  lemma SplitSame(g: Cluster, f: Forest, d: Dep, ip: nat)
    requires Fits(g, f) && f.Valid(g) && f.CanDeactivate(d, ip)
    ensures SameElsewhere(f, f.Deactivated(d, ip), ip, f.chunk[d.parent])
  {
    hide Closed, Connected, IsTop, Forest.Deactivated;
    DeactivatedParts(f, g, d, ip);
  }

  lemma SelfMergeSame(g: Cluster, f: Forest, d: Dep, ip: nat, e: Dep)
    requires Fits(g, f) && f.Valid(g) && f.CanDeactivate(d, ip) && e in g.deps
    requires e.child in f.Deactivated(d, ip).Part(ip) && e.parent in f.Deactivated(d, ip).Part(f.chunk[d.parent])
    ensures f.Deactivated(d, ip).CanActivate(g, e)
    ensures var f2, ic := f.Deactivated(d, ip).Activated(e), f.chunk[d.parent];
            && SameElsewhere(f, f2, ip, ic) && f2.Part(ip) == f.Part(ic)
            && ip in f2.chunk.Values && ic !in f2.chunk.Values
  {
    hide Forest.Valid, Forest.Deactivated, Forest.Activated, Forest.Part;
    SelfMergeParts(g, f, d, ip, e);
  }

  lemma FreshEntry(g: Cluster, f: Forest, e: Entry)
    requires e.chunk in f.chunk.Values && e.pivot in f.Part(e.chunk) && !e.second
    ensures EntryOk(g, f, e)
  {
  }

  lemma EqualIsOk(g: Cluster, f: Forest, d: Dep)
    requires EqualTop(g, f, d)
    ensures Fits(g, f) && f.Valid(g) && d in f.top
  {
  }

  lemma HeadOk(g: Cluster, f: Forest, q: seq<Entry>)
    requires q != [] && QueueMinimal(g, f, q)
    ensures EntryOk(g, f, q[0])
  {
  }

  /** No split with the pivot on one side: look on the other side, or be done. */
  lemma SecondStage(g: Cluster, f: Forest, q: seq<Entry>)
    requires q != [] && QueueMinimal(g, f, q)
    requires var e := q[0];
             if e.down then NoneBelow(g, f.Part(e.chunk), e.pivot) else NoneAbove(g, f.Part(e.chunk), e.pivot)
    ensures q[0].second ==> QueueMinimal(g, f, q[1..])
    ensures !q[0].second ==> QueueMinimal(g, f, q[1..] + [Entry(q[0].chunk, q[0].pivot, !q[0].down, true)])
  {
    hide NoneAbove, NoneBelow, MinimalChunk, QueueMinimal;
    HeadOk(g, f, q);
    if q[0].second {
      BothSearched(g, f.Part(q[0].chunk), q[0].pivot);
      PopMinimal(g, f, q);
    } else {
      Requeue(g, f, q, Entry(q[0].chunk, q[0].pivot, !q[0].down, true));
    }
  }
}
