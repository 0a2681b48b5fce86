/** Whole runs of the cuckoo cache. */
module CuckooRuns {
  import opened CuckooCaches
  import opened Options

  datatype Op = Insert(e: Element) | Contains(e: Element, erase: bool)

  /** The elements that the operations insert. */
  ghost function InsertedBy(ops: seq<Op>): set<Element> {
    set i | 0 <= i < |ops| && ops[i].Insert? :: ops[i].e
  }

  lemma InsertedNext(ops: seq<Op>, i: nat)
    requires i < |ops|
    ensures InsertedBy(ops[..i + 1]) == InsertedBy(ops[..i]) + if ops[i].Insert? then {ops[i].e} else {}
  {
    var a, b := ops[..i], ops[..i + 1];
    forall x ensures x in InsertedBy(b) <==> x in InsertedBy(a) || (ops[i].Insert? && x == ops[i].e) {
      if x in InsertedBy(b) {
        var k :| 0 <= k < |b| && b[k].Insert? && b[k].e == x;
        if k < i { assert a[k] == b[k]; }
      }
      if x in InsertedBy(a) {
        var k :| 0 <= k < |a| && a[k].Insert? && a[k].e == x;
        assert b[k] == a[k];
      }
      if ops[i].Insert? && x == ops[i].e { assert b[i] == ops[i]; }
    }
  }

  /** Only elements that were inserted before are found, and there are never more live ones than the bound. */
  method Run(c: Cache, ops: seq<Op>) returns (found: seq<bool>, ghost live: seq<nat>)
    requires c.Valid()
    modifies c
    ensures c.Valid() && c.ever == old(c.ever) + InsertedBy(ops) && |found| == |live| == |ops|
    ensures forall i | 0 <= i < |ops| && ops[i].Contains? && found[i] && ops[i].e != UNUSED ::
              ops[i].e in old(c.ever) + InsertedBy(ops[..i])
    ensures forall i | 0 <= i < |ops| :: live[i] <= 2 * (c.epochSize + c.Slack())
    ensures ops != [] ==> live[|ops| - 1] == Count(c.slots, c.size, true) + Count(c.slots, c.size, false)
  {
    hide Count, InsertedBy, Single, Known, Placed;
    found, live := [], [];
    ghost var ever := c.ever;
    assert InsertedBy(ops[..0]) == {} by { NoneInserted(ops[..0]); }
    for i := 0 to |ops|
      invariant c.Valid() && c.ever == ever + InsertedBy(ops[..i]) && |found| == |live| == i
      invariant forall k | 0 <= k < i && ops[k].Contains? && found[k] && ops[k].e != UNUSED ::
                ops[k].e in ever + InsertedBy(ops[..k])
      invariant forall k | 0 <= k < i :: live[k] <= 2 * (c.epochSize + c.Slack())
      invariant i > 0 ==> live[i - 1] == Count(c.slots, c.size, true) + Count(c.slots, c.size, false)
    {
      InsertedNext(ops, i);
      var yes := false;
      match ops[i] {
        case Insert(e) => ghost var checked, dropped, states, moves := c.Insert(e);
        case Contains(e, erase) => yes := c.Contains(e, erase);
      }
      c.Bounded();
      found, live := found + [yes], live + [Count(c.slots, c.size, true) + Count(c.slots, c.size, false)];
    }
    assert ops[..|ops|] == ops;
  }

  lemma NoneInserted(ops: seq<Op>)
    requires ops == []
    ensures InsertedBy(ops) == {}
  {
  }

  /** A new epoch takes no room away. */
  lemma StillRoom(hash: (Element, nat) -> nat, s: Slots, s': Slots, size: nat, e: Element)
    requires HasRoom(hash, s, size, e) && (s' == s || AgedFrom(s, s', size))
    ensures HasRoom(hash, s', size, e)
  {
    hide Location;
    if s' != s && !Full(hash, s, size, e) {
      var j: nat :| j < HASHES && s.erasable[Location(hash, size, e, j)];
      assert s'.erasable[Location(hash, size, e, j)];
    }
  }

  /** An element with a slot that may be overwritten, or in the table already, is found right after it was inserted,
      and so is every element whose insertion dropped nothing. */
  method InsertThenContains(c: Cache, e: Element) returns (found: bool, ghost dropped: Option<Element>)
    requires c.Valid() && e != UNUSED
    modifies c
    ensures c.Valid()
    ensures HasRoom(c.hash, old(c.slots), c.size, e) || dropped == None ==> found
  {
    hide Count, Single, Known, Placed, Full, Inserted, Refreshed, Displaced, AgedFrom, HasRoom;
    ghost var checked, states, moves;
    checked, dropped, states, moves := c.Insert(e);
    if HasRoom(c.hash, old(c.slots), c.size, e) { StillRoom(c.hash, old(c.slots), checked, c.size, e); }
    if dropped == None { NotIn(c.slots, c.size, e); }
    found := c.Contains(e, false);
  }

  /** Erasing an element leaves it to be found until its slot is needed. */
  method EraseThenContains(c: Cache, e: Element) returns (first: bool, second: bool)
    requires c.Valid() && e != UNUSED
    modifies c
    ensures c.Valid() && second == first
  {
    first := c.Contains(e, true);
    second := c.Contains(e, false);
  }
}
