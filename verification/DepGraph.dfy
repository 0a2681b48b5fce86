/** The dependency graph of a cluster: per transaction its feerate, ancestors and descendants. */
module DepGraphs {
  import opened FeeFracs
  import opened Clusters
  import opened Ancestry

  datatype Entry = Entry(feerate: FeeFrac, ancestors: set<nat>, descendants: set<nat>)

  ghost function UpMap(entries: seq<Entry>, used: set<nat>): map<nat, set<nat>> {
    map t | t in used && t < |entries| :: entries[t].ancestors
  }

  ghost function FeeMap(entries: seq<Entry>, used: set<nat>): map<nat, FeeFrac> {
    map t | t in used && t < |entries| :: entries[t].feerate
  }

  /** The ancestor sets form an order on the used positions, the descendant sets are its converse,
      and the last entry is in use. */
  ghost predicate Sound(entries: seq<Entry>, used: set<nat>) {
    && (forall t | t in used :: t < |entries|)
    && (entries != [] ==> |entries| - 1 in used)
    && IsOrder(UpMap(entries, used))
    && (forall t | t in used :: entries[t].descendants == DownOf(UpMap(entries, used), t))
  }

  /** `up` with everything up to `parents` added above `child` and what is below it. */
  ghost function WithParents(up: map<nat, set<nat>>, parents: set<nat>, child: nat): map<nat, set<nat>> {
    map t | t in up :: if child in up[t] then up[t] + Above(up, parents) else up[t]
  }

  ghost function Above(up: map<nat, set<nat>>, s: set<nat>): set<nat> {
    set t, a | t in s && t in up && a in up[t] :: a
  }

  /** Adding dependencies gives an order with the old ones and the new ones ... */
  lemma WithParentsOrder(up: map<nat, set<nat>>, parents: set<nat>, child: nat)
    requires IsOrder(up) && child in up && parents <= up.Keys
    ensures var next := WithParents(up, parents, child);
            IsOrder(next) && parents <= next[child] && forall t | t in up :: up[t] <= next[t]
  {
    var next := WithParents(up, parents, child);
    forall p | p in parents ensures p in next[child] { assert p in up[p]; }
    forall t, a | t in next && a in next[t] && a in next ensures next[a] <= next[t] {
      WithParentsTransitive(up, parents, child, t, a);
    }
  }

  /** ... and it is the least such order. */
  lemma WithParentsLeast(up: map<nat, set<nat>>, parents: set<nat>, child: nat, other: map<nat, set<nat>>)
    requires IsOrder(up) && child in up && parents <= up.Keys
    requires IsOrder(other) && other.Keys == up.Keys && parents <= other[child]
             && forall t | t in up :: up[t] <= other[t]
    ensures forall t | t in up :: WithParents(up, parents, child)[t] <= other[t]
  {
    forall t, a | t in up && child in up[t] && a in Above(up, parents) ensures a in other[t] {
      var p :| p in parents && p in up && a in up[p];
      assert p in other[child] && child in other[t];
      assert a in other[p];
    }
  }

  lemma WithParentsTransitive(up: map<nat, set<nat>>, parents: set<nat>, child: nat, t: nat, a: nat)
    requires IsOrder(up) && child in up && parents <= up.Keys
    requires t in up && a in WithParents(up, parents, child)[t] && a in up
    ensures WithParents(up, parents, child)[a] <= WithParents(up, parents, child)[t]
  {
    if a !in up[t] {
      var p :| p in parents && p in up && a in up[p];
      assert up[a] <= Above(up, parents);
    }
  }

  // ---- Adding and removing transactions

  ghost function Placed(entries: seq<Entry>, pos: nat, e: Entry): seq<Entry>
    requires pos <= |entries|
  {
    if pos == |entries| then entries + [e] else entries[pos := e]
  }

  lemma FirstFree(entries: seq<Entry>, used: set<nat>, pos: nat)
    requires Sound(entries, used) && pos !in used && forall t: nat | t < pos :: t in used
    ensures pos <= |entries|
  {
    assert |entries| !in used;
  }

  lemma AddedSound(entries: seq<Entry>, used: set<nat>, pos: nat, feerate: FeeFrac)
    requires Sound(entries, used) && pos !in used && pos <= |entries|
    ensures var after := Placed(entries, pos, Entry(feerate, {pos}, {pos}));
            && Sound(after, used + {pos})
            && UpMap(after, used + {pos}) == UpMap(entries, used)[pos := {pos}]
            && FeeMap(after, used + {pos}) == FeeMap(entries, used)[pos := feerate]
  {
    hide UpMap, FeeMap, IsOrder, DownOf;
    AddedMaps(entries, used, pos, feerate);
    UpMapIs(entries, used);
    AddedOrder(UpMap(entries, used), pos);
    var after := Placed(entries, pos, Entry(feerate, {pos}, {pos}));
    forall t | t in used + {pos}
      ensures t < |after| && after[t].descendants == DownOf(UpMap(entries, used)[pos := {pos}], t)
    {
      assert t == pos || after[t] == entries[t];
    }
  }

  lemma AddedMaps(entries: seq<Entry>, used: set<nat>, pos: nat, feerate: FeeFrac)
    requires pos !in used && pos <= |entries| && forall t | t in used :: t < |entries|
    ensures var after := Placed(entries, pos, Entry(feerate, {pos}, {pos}));
            && UpMap(after, used + {pos}) == UpMap(entries, used)[pos := {pos}]
            && FeeMap(after, used + {pos}) == FeeMap(entries, used)[pos := feerate]
  {
  }

  lemma AddedOrder(up: map<nat, set<nat>>, pos: nat)
    requires IsOrder(up) && pos !in up
    ensures IsOrder(up[pos := {pos}])
    ensures forall t | t in up :: DownOf(up[pos := {pos}], t) == DownOf(up, t)
    ensures DownOf(up[pos := {pos}], pos) == {pos}
  {
  }

  /** `up` with only the members of `keep` left. */
  ghost function Kept(up: map<nat, set<nat>>, keep: set<nat>): map<nat, set<nat>> {
    map t | t in up && t in keep :: up[t] * keep
  }

  /** `after` are the entries of `before`, restricted to the positions of `keep`. */
  ghost predicate Trimmed(before: seq<Entry>, after: seq<Entry>, keep: set<nat>) {
    && |after| <= |before| && (forall t | t in keep :: t < |after|) && (after != [] ==> |after| - 1 in keep)
    && forall t | 0 <= t < |after| ::
       after[t] == Entry(before[t].feerate, before[t].ancestors * keep, before[t].descendants * keep)
  }

  lemma TrimmedSound(before: seq<Entry>, used: set<nat>, after: seq<Entry>, keep: set<nat>)
    requires Sound(before, used) && keep <= used && Trimmed(before, after, keep)
    ensures Sound(after, keep) && UpMap(after, keep) == Kept(UpMap(before, used), keep)
    ensures FeeMap(after, keep) == map t | t in keep :: before[t].feerate
  {
    var up := UpMap(before, used);
    assert UpMap(after, keep) == Kept(up, keep);
    KeptOrder(up, keep);
    forall t | t in keep ensures after[t].descendants == DownOf(Kept(up, keep), t) {}
  }

  lemma KeptOrder(up: map<nat, set<nat>>, keep: set<nat>)
    requires IsOrder(up) && keep <= up.Keys
    ensures IsOrder(Kept(up, keep))
    ensures forall t | t in keep :: DownOf(Kept(up, keep), t) == DownOf(up, t) * keep
  {
    var k := Kept(up, keep);
    forall t, a | t in k && a in k[t] && a in k ensures k[a] <= k[t] {
      assert up[a] <= up[t];
    }
  }

  /** Restrict every entry to the positions of `keep`. */
  method Restrict(entries: seq<Entry>, keep: set<nat>) returns (r: seq<Entry>)
    ensures |r| == |entries|
    ensures forall t | 0 <= t < |r| ::
            r[t] == Entry(entries[t].feerate, entries[t].ancestors * keep, entries[t].descendants * keep)
  {
    r := [];
    for i := 0 to |entries|
      invariant |r| == i
      invariant forall t | 0 <= t < i ::
                r[t] == Entry(entries[t].feerate, entries[t].ancestors * keep, entries[t].descendants * keep)
    {
      r := r + [Entry(entries[i].feerate, entries[i].ancestors * keep, entries[i].descendants * keep)];
    }
  }

  // ---- Adding dependencies

  method AddDescendants(entries: seq<Entry>, targets: set<nat>, extra: set<nat>) returns (r: seq<Entry>)
    requires forall t | t in targets :: t < |entries|
    ensures |r| == |entries|
    ensures forall t | 0 <= t < |r| ::
            r[t] == if t in targets then entries[t].(descendants := entries[t].descendants + extra) else entries[t]
  {
    r := entries;
    var todo := targets;
    while todo != {}
      invariant todo <= targets && |r| == |entries|
      invariant forall t | 0 <= t < |r| ::
        r[t] == if t in targets - todo then entries[t].(descendants := entries[t].descendants + extra) else entries[t]
      decreases |todo|
    {
      var t :| t in todo;
      r := r[t := r[t].(descendants := r[t].descendants + extra)];
      todo := todo - {t};
    }
  }

  method AddAncestors(entries: seq<Entry>, targets: set<nat>, extra: set<nat>) returns (r: seq<Entry>)
    requires forall t | t in targets :: t < |entries|
    ensures |r| == |entries|
    ensures forall t | 0 <= t < |r| ::
            r[t] == if t in targets then entries[t].(ancestors := entries[t].ancestors + extra) else entries[t]
  {
    r := entries;
    var todo := targets;
    while todo != {}
      invariant todo <= targets && |r| == |entries|
      invariant forall t | 0 <= t < |r| ::
        r[t] == if t in targets - todo then entries[t].(ancestors := entries[t].ancestors + extra) else entries[t]
      decreases |todo|
    {
      var t :| t in todo;
      r := r[t := r[t].(ancestors := r[t].ancestors + extra)];
      todo := todo - {t};
    }
  }

  /** The ancestors of all of `of`. */
  method CollectAncestors(entries: seq<Entry>, ghost used: set<nat>, of: set<nat>) returns (r: set<nat>)
    requires of <= used && forall t | t in used :: t < |entries|
    ensures r == Above(UpMap(entries, used), of)
  {
    r := {};
    var todo := of;
    while todo != {}
      invariant todo <= of && r == Above(UpMap(entries, used), of - todo)
      decreases |todo|
    {
      var t :| t in todo;
      AboveMore(UpMap(entries, used), of - todo, t);
      assert of - todo + {t} == of - (todo - {t});
      r := r + entries[t].ancestors;
      todo := todo - {t};
    }
    assert of - todo == of;
  }

  lemma AboveMore(up: map<nat, set<nat>>, s: set<nat>, t: nat)
    requires t in up
    ensures Above(up, s + {t}) == Above(up, s) + up[t]
  {
  }

  /** `after` has `extra` added above `child` and all its descendants. */
  ghost predicate Linked(before: seq<Entry>, after: seq<Entry>, child: nat, extra: set<nat>)
    requires child < |before|
  {
    && |after| == |before|
    && forall t | 0 <= t < |after| ::
         after[t] == Entry(before[t].feerate,
                           if t in before[child].descendants then before[t].ancestors + extra else before[t].ancestors,
                           if t in extra then before[t].descendants + before[child].descendants
                             else before[t].descendants)
  }

  lemma LinkedSound(before: seq<Entry>, used: set<nat>, after: seq<Entry>, parents: set<nat>, child: nat,
                    extra: set<nat>)
    requires Sound(before, used) && child in used && parents <= used && Linked(before, after, child, extra)
    requires extra == Above(UpMap(before, used), parents - before[child].ancestors) - before[child].ancestors
    ensures Sound(after, used) && UpMap(after, used) == WithParents(UpMap(before, used), parents, child)
    ensures FeeMap(after, used) == FeeMap(before, used)
  {
    hide Above, WithParents, IsOrder, DownOf, UpMap, FeeMap, Linked;
    LinkedUp(before, used, after, parents, child, extra);
    LinkedFees(before, used, after, child, extra);
    var up := UpMap(before, used);
    UpMapIs(before, used);
    WithParentsOrder(up, parents, child);
    forall t | t in used ensures after[t].descendants == DownOf(WithParents(up, parents, child), t) {
      LinkedAt(before, after, child, extra, t);
      LinkedDown(up, parents, child, t);
    }
  }

  lemma LinkedAt(before: seq<Entry>, after: seq<Entry>, child: nat, extra: set<nat>, t: nat)
    requires child < |before| && Linked(before, after, child, extra) && t < |before|
    ensures |after| == |before|
    ensures after[t].descendants ==
            if t in extra then before[t].descendants + before[child].descendants else before[t].descendants
  {
  }

  lemma LinkedFees(before: seq<Entry>, used: set<nat>, after: seq<Entry>, child: nat, extra: set<nat>)
    requires child < |before| && Linked(before, after, child, extra)
    ensures FeeMap(after, used) == FeeMap(before, used) && |after| == |before|
  {
  }

  lemma UpMapIs(entries: seq<Entry>, used: set<nat>)
    requires forall t | t in used :: t < |entries|
    ensures UpMap(entries, used).Keys == used && forall t | t in used :: UpMap(entries, used)[t] == entries[t].ancestors
  {
  }

  lemma LinkedUp(before: seq<Entry>, used: set<nat>, after: seq<Entry>, parents: set<nat>, child: nat, extra: set<nat>)
    requires Sound(before, used) && child in used && parents <= used && Linked(before, after, child, extra)
    requires extra == Above(UpMap(before, used), parents - before[child].ancestors) - before[child].ancestors
    ensures UpMap(after, used) == WithParents(UpMap(before, used), parents, child)
  {
    hide Above;
    var up := UpMap(before, used);
    assert up[child] == before[child].ancestors;
    forall t | t in used ensures after[t].ancestors == WithParents(up, parents, child)[t] {
      if child in up[t] {
        ExtraEnough(up, parents, child, t);
        assert t in before[child].descendants;
      }
    }
  }

  lemma ExtraEnough(up: map<nat, set<nat>>, parents: set<nat>, child: nat, t: nat)
    requires IsOrder(up) && child in up && parents <= up.Keys && t in up && child in up[t]
    ensures up[t] + (Above(up, parents - up[child]) - up[child]) == up[t] + Above(up, parents)
  {
    assert up[child] <= up[t];
    forall a | a in Above(up, parents) && a !in up[child] ensures a in Above(up, parents - up[child]) {
      var p :| p in parents && p in up && a in up[p];
      assert p !in up[child];
    }
  }

  lemma LinkedDown(up: map<nat, set<nat>>, parents: set<nat>, child: nat, t: nat)
    requires IsOrder(up) && child in up && parents <= up.Keys && t in up
    ensures DownOf(WithParents(up, parents, child), t) ==
            if t in Above(up, parents - up[child]) - up[child] then DownOf(up, t) + DownOf(up, child) else DownOf(up, t)
  {
    ExtraEnough(up, parents, child, child);
    var next := WithParents(up, parents, child);
    forall c | c in up ensures t in next[c] <==> t in up[c] || (t in Above(up, parents) && child in up[c]) {}
    if t in up[child] {
      forall c | c in up && child in up[c] ensures t in up[c] { assert up[child] <= up[c]; }
    }
  }

  // ---- Reduced parents and children

  ghost predicate Reached(up: map<nat, set<nat>>, r: set<nat>, a: nat) {
    exists p :: p in r && p in up && a in up[p]
  }

  /** `q` has none of `r` above it, other than itself. */
  ghost predicate Lowest(up: map<nat, set<nat>>, r: set<nat>, q: nat) {
    q in up ==> up[q] * r <= {q}
  }

  /** `r` is made of strict ancestors of `t`, none above another, with all others above them. */
  ghost predicate Generates(up: map<nat, set<nat>>, t: nat, r: set<nat>)
    requires t in up
  {
    && r <= up[t] - {t}
    && (forall q | q in r :: Lowest(up, r, q))
    && (forall a | a in up[t] - {t} :: Reached(up, r, a))
  }

  /** Without cycles, only the reduced parents do that. */
  lemma GeneratesIsReduced(up: map<nat, set<nat>>, t: nat, r: set<nat>)
    requires IsOrder(up) && IsAcyclic(up) && t in up && Generates(up, t, r)
    ensures r == Reduced(up, t)
  {
    forall p | p in r ensures IsReduced(up, t, p) {
      forall q | q in up && q in up[t] && q != t && q != p ensures p !in up[q] {
        OthersBelow(up, t, r, p, q);
      }
    }
    forall p | p in Reduced(up, t) ensures p in r {
      assert Reached(up, r, p);
      var s :| s in r && s in up && p in up[s];
      assert IsReduced(up, t, p);
    }
  }

  lemma OthersBelow(up: map<nat, set<nat>>, t: nat, r: set<nat>, p: nat, q: nat)
    requires IsOrder(up) && IsAcyclic(up) && t in up && Generates(up, t, r)
    requires p in r && q in up && q in up[t] && q != t && q != p
    ensures p !in up[q]
  {
    assert Reached(up, r, q);
    var s :| s in r && s in up && q in up[s];
    assert Lowest(up, r, s);
    if s == p {
      assert q in up[p];
    } else {
      assert up[q] <= up[s];
      assert p !in up[s] * r;
    }
  }

  /** While reducing: the members done have nothing left above them. */
  ghost predicate Reducing(up: map<nat, set<nat>>, t: nat, r: set<nat>, todo: set<nat>)
    requires t in up
  {
    && r <= up[t] - {t} && todo <= up[t] - {t}
    && (forall q | q in r - todo :: Lowest(up, r, q))
    && (forall a | a in up[t] - {t} :: Reached(up, r, a))
  }

  lemma ReducingStart(up: map<nat, set<nat>>, t: nat)
    requires IsOrder(up) && t in up
    ensures Reducing(up, t, up[t] - {t}, up[t] - {t})
  {
    forall a | a in up[t] - {t} ensures Reached(up, up[t] - {t}, a) {
      assert a in up[a];
    }
  }

  lemma ReducingStep(up: map<nat, set<nat>>, t: nat, r: set<nat>, todo: set<nat>, q: nat)
    requires IsOrder(up) && t in up && Reducing(up, t, r, todo) && q in todo && q in up
    ensures Reducing(up, t, if q in r then r - up[q] + {q} else r, todo - {q})
  {
    hide IsOrder, Reached, Lowest;
    if q !in r {
      assert r - (todo - {q}) == r - todo;
    } else {
      var r' := r - up[q] + {q};
      forall a | a in up[t] - {t} ensures Reached(up, r', a) {
        StillReached(up, r, q, a);
      }
      forall p | p in r' - (todo - {q}) ensures Lowest(up, r', p) {
        StillLowest(up, r, q, p);
      }
    }
  }

  lemma StillLowest(up: map<nat, set<nat>>, r: set<nat>, q: nat, p: nat)
    requires q in up && q in r && (p == q || Lowest(up, r, p))
    ensures Lowest(up, r - up[q] + {q}, p)
  {
  }

  lemma StillReached(up: map<nat, set<nat>>, r: set<nat>, q: nat, a: nat)
    requires IsOrder(up) && q in up && q in r && Reached(up, r, a)
    ensures Reached(up, r - up[q] + {q}, a)
  {
    var r' := r - up[q] + {q};
    var p :| p in r && p in up && a in up[p];
    if p in up[q] {
      assert a in up[q] && q in r';
    } else {
      assert p in r';
    }
  }

  // ---- Connected components

  ghost predicate Related(up: map<nat, set<nat>>, a: nat, b: nat) {
    (a in up && b in up[a]) || (b in up && a in up[b])
  }

  /** Nothing in `todo` outside `s` is related to a member of `s`. */
  ghost predicate ClosedWithin(up: map<nat, set<nat>>, todo: set<nat>, s: set<nat>) {
    s <= todo && forall a, b | a in s && b in todo && Related(up, a, b) :: b in s
  }

  /** `s` is the component of `t`: closed, and part of every closed set with `t` in it. */
  ghost predicate IsComponent(up: map<nat, set<nat>>, todo: set<nat>, t: nat, s: set<nat>) {
    && t in s && ClosedWithin(up, todo, s)
    && forall other: set<nat> | ClosedWithin(up, todo, other) && t in other :: s <= other
  }

  /** The ancestors and descendants of `t`. */
  ghost function Around(up: map<nat, set<nat>>, t: nat): set<nat> {
    (if t in up then up[t] else {}) + DownOf(up, t)
  }

  ghost function NextTo(up: map<nat, set<nat>>, s: set<nat>): set<nat> {
    set t, a | t in s && a in Around(up, t) :: a
  }

  lemma AroundRelated(up: map<nat, set<nat>>, a: nat, b: nat)
    ensures b in Around(up, a) <==> Related(up, a, b)
  {
  }

  /** Searching: `found` without the members found last is closed within `found`, and all of it
      is needed. */
  ghost predicate Searching(up: map<nat, set<nat>>, todo: set<nat>, t: nat, found: set<nat>, last: set<nat>) {
    && found <= todo && last <= todo && t in found + last
    && (forall a, b | a in found - last && b in todo && Related(up, a, b) :: b in found)
    && forall other: set<nat> | ClosedWithin(up, todo, other) && t in other :: found + last <= other
  }

  lemma SearchStep(up: map<nat, set<nat>>, todo: set<nat>, t: nat, found: set<nat>, last: set<nat>)
    requires IsOrder(up) && todo <= up.Keys && Searching(up, todo, t, found, last)
    ensures var next := (found + NextTo(up, last)) * todo;
            found <= next && last <= next && Searching(up, todo, t, next, next - found)
  {
    var next := (found + NextTo(up, last)) * todo;
    forall a | a in last ensures a in NextTo(up, last) { assert a in Around(up, a); }
    hide IsOrder, Around;
    forall a, b | a in found && b in todo && Related(up, a, b) ensures b in next {
      AroundRelated(up, a, b);
    }
    hide NextTo;
    forall other: set<nat> | ClosedWithin(up, todo, other) && t in other ensures next <= other {
      SearchNeeded(up, todo, last, other);
    }
  }

  lemma SearchNeeded(up: map<nat, set<nat>>, todo: set<nat>, last: set<nat>, other: set<nat>)
    requires ClosedWithin(up, todo, other) && last <= other
    ensures NextTo(up, last) * todo <= other
  {
    hide Around;
    forall b | b in NextTo(up, last) && b in todo ensures b in other {
      var a :| a in last && b in Around(up, a);
      AroundRelated(up, a, b);
    }
  }

  method CollectNextTo(entries: seq<Entry>, ghost used: set<nat>, start: set<nat>, of: set<nat>) returns (r: set<nat>)
    requires Sound(entries, used) && of <= used
    ensures r == start + NextTo(UpMap(entries, used), of)
  {
    hide UpMap, IsOrder, NextTo, Around;
    r := start;
    var todo := of;
    ghost var up := UpMap(entries, used);
    assert NextTo(up, {}) == {} by { NextToNone(up); }
    assert of - todo == {};
    while todo != {}
      invariant todo <= of && r == start + NextTo(up, of - todo)
      decreases |todo|
    {
      var t :| t in todo;
      NextToMore(up, of - todo, t);
      AroundEntry(entries, used, t);
      assert of - todo + {t} == of - (todo - {t});
      r := r + entries[t].descendants;
      r := r + entries[t].ancestors;
      todo := todo - {t};
    }
    assert of - todo == of;
  }

  lemma NextToNone(up: map<nat, set<nat>>)
    ensures NextTo(up, {}) == {}
  {
  }

  lemma NextToMore(up: map<nat, set<nat>>, s: set<nat>, t: nat)
    ensures NextTo(up, s + {t}) == NextTo(up, s) + Around(up, t)
  {
    hide Around;
  }

  lemma AroundEntry(entries: seq<Entry>, used: set<nat>, t: nat)
    requires Sound(entries, used) && t in used
    ensures Around(UpMap(entries, used), t) == entries[t].ancestors + entries[t].descendants
  {
  }

  class DepGraph {
    const capacity: nat
    var entries: seq<Entry>
    var used: set<nat>

    ghost predicate Valid()
      reads this
    {
      Sound(entries, used) && (forall t | t in used :: t < capacity)
    }

    ghost function Up(): map<nat, set<nat>>
      reads this
    {
      UpMap(entries, used)
    }

    ghost function Fees(): map<nat, FeeFrac>
      reads this
    {
      FeeMap(entries, used)
    }

    constructor (capacity: nat)
      ensures Valid() && used == {} && this.capacity == capacity
    {
      this.capacity := capacity;
      entries, used := [], {};
    }

    /** Add an unconnected transaction at the first free position. */
    method AddTransaction(feerate: FeeFrac) returns (pos: nat)
      requires Valid() && exists t: nat :: t < capacity && t !in used
      modifies this
      ensures Valid() && pos !in old(used) && used == old(used) + {pos}
      ensures forall t: nat | t < pos :: t in old(used)
      ensures Up() == old(Up())[pos := {pos}] && Fees() == old(Fees())[pos := feerate]
    {
      hide Sound, UpMap, FeeMap;
      pos := 0;
      while pos in used
        invariant forall t: nat | t < pos :: t in used
        invariant exists t: nat :: pos <= t < capacity && t !in used
        decreases capacity - pos
      {
        pos := pos + 1;
      }
      FirstFree(entries, used, pos);
      AddedSound(entries, used, pos, feerate);
      if pos == |entries| {
        entries := entries + [Entry(feerate, {pos}, {pos})];
      } else {
        entries := entries[pos := Entry(feerate, {pos}, {pos})];
      }
      used := used + {pos};
    }

    /** Remove positions; what remains keeps its ancestors among what remains. */
    method RemoveTransactions(del: set<nat>)
      requires Valid()
      modifies this
      ensures Valid() && used == old(used) - del
      ensures Up() == Kept(old(Up()), used) && Fees() == map t | t in used && t in old(Fees()) :: old(Fees())[t]
    {
      ghost var before, wasUsed := entries, used;
      used := used - del;
      while entries != [] && |entries| - 1 !in used
        invariant used == wasUsed - del && |entries| <= |before| && entries == before[..|entries|]
        invariant forall t | t in used :: t < |entries|
        decreases |entries|
      {
        entries := entries[..|entries| - 1];
      }
      entries := Restrict(entries, used);
      TrimmedSound(before, wasUsed, entries, used);
    }

    /** Make `child` depend on all of `parents`. */
    method AddDependencies(parents: set<nat>, child: nat)
      requires Valid() && child in used && parents <= used
      modifies this
      ensures Valid() && used == old(used)
      ensures Up() == WithParents(old(Up()), parents, child) && Fees() == old(Fees())
    {
      ghost var before := entries;
      var parAnc := CollectAncestors(entries, used, parents - entries[child].ancestors);
      parAnc := parAnc - entries[child].ancestors;
      InRange(entries, used, child, parents);
      if parAnc != {} {
        var childDesc := entries[child].descendants;
        entries := AddDescendants(entries, parAnc, childDesc);
        entries := AddAncestors(entries, childDesc, parAnc);
      }
      LinkedSound(before, used, entries, parents, child, parAnc);
    }

    /** The reduced parents of `t`. */
    method GetReducedParents(t: nat) returns (r: set<nat>)
      requires Valid() && t in used
      ensures Generates(Up(), t, r)
      ensures IsAcyclic(Up()) ==> r == Reduced(Up(), t)
    {
      hide IsOrder, IsAcyclic, Reached, Lowest, IsReduced;
      ghost var up := Up();
      r := entries[t].ancestors - {t};
      var todo := r;
      ReducingStart(up, t);
      while todo != {}
        invariant Reducing(up, t, r, todo)
        decreases |todo|
      {
        var q :| q in todo;
        AncestorIn(up, t, q);
        ReducingStep(up, t, r, todo, q);
        if q in r {
          r := r - entries[q].ancestors + {q};
        }
        todo := todo - {q};
      }
      if IsAcyclic(up) {
        GeneratesIsReduced(up, t, r);
      }
    }

    /** The reduced children of `t`: those that have it as a reduced parent. */
    method GetReducedChildren(t: nat) returns (r: set<nat>)
      requires Valid() && t in used
      ensures Generates(Down(Up()), t, r)
      ensures IsAcyclic(Up()) ==> forall c | c in used :: c in r <==> t in Reduced(Up(), c)
    {
      hide IsOrder, IsAcyclic, Reached, Lowest, IsReduced, DownOf;
      ghost var down := Down(Up());
      DownIsOrder(Up());
      r := entries[t].descendants - {t};
      var todo := r;
      ReducingStart(down, t);
      while todo != {}
        invariant Reducing(down, t, r, todo)
        decreases |todo|
      {
        var q :| q in todo;
        AncestorIn(down, t, q);
        ReducingStep(down, t, r, todo, q);
        if q in r {
          r := r - entries[q].descendants + {q};
        }
        todo := todo - {q};
      }
      if IsAcyclic(Up()) {
        GeneratesIsReduced(down, t, r);
        forall c | c in used ensures c in r <==> t in Reduced(Up(), c) {
          ReducedConverse(Up(), c, t);
          IsReducedIn(Up(), c, t);
          IsReducedIn(down, t, c);
        }
      }
    }

    /** The connected component of `tx` within `todo`. */
    method GetConnectedComponent(todo: set<nat>, tx: nat) returns (ret: set<nat>)
      requires Valid() && tx in todo && todo <= used
      ensures IsComponent(Up(), todo, tx, ret)
    {
      hide UpMap, IsOrder, NextTo;
      ghost var up := Up();
      UpMapIs(entries, used);
      var toAdd := {tx};
      ret := {};
      var go := true;
      while go
        invariant Searching(up, todo, tx, ret, toAdd) && (go || toAdd == {})
        decreases go, |todo - ret|
      {
        var before := ret;
        SearchStep(up, todo, tx, ret, toAdd);
        ret := CollectNextTo(entries, used, ret, toAdd);
        ret := ret * todo;
        toAdd := ret - before;
        go := toAdd != {};
        if go { ProperSubset(todo - ret, todo - before, Pick(toAdd)); }
      }
    }

    /** Whether the graph is free of dependency cycles. */
    method CheckAcyclic() returns (ok: bool)
      requires Valid()
      ensures ok <==> IsAcyclic(Up())
    {
      var todo := used;
      while todo != {}
        invariant todo <= used
        invariant forall t, a | t in used - todo && a in Up()[t] && a in used && t in Up()[a] :: a == t
        decreases |todo|
      {
        var t :| t in todo;
        if entries[t].ancestors * entries[t].descendants != {t} {
          CycleAt(Up(), t);
          return false;
        }
        forall a | a in Up()[t] && a in used && t in Up()[a] ensures a == t {
          assert a in entries[t].ancestors * entries[t].descendants;
        }
        todo := todo - {t};
      }
      ok := true;
    }
  }

  lemma IsReducedIn(up: map<nat, set<nat>>, t: nat, p: nat)
    requires t in up
    ensures p in Reduced(up, t) <==> IsReduced(up, t, p)
  {
  }

  lemma AncestorIn(up: map<nat, set<nat>>, t: nat, a: nat)
    requires IsOrder(up) && t in up && a in up[t]
    ensures a in up
  {
  }

  lemma InRange(entries: seq<Entry>, used: set<nat>, child: nat, parents: set<nat>)
    requires Sound(entries, used) && child in used && parents <= used
    ensures forall t | t in Above(UpMap(entries, used), parents - entries[child].ancestors) :: t < |entries|
    ensures forall t | t in entries[child].descendants :: t < |entries|
  {
  }

  lemma CycleAt(up: map<nat, set<nat>>, t: nat)
    requires IsOrder(up) && t in up && up[t] * DownOf(up, t) != {t}
    ensures !IsAcyclic(up)
  {
    assert t in up[t] * DownOf(up, t);
    var a :| a in up[t] * DownOf(up, t) && a != t;
  }
}
