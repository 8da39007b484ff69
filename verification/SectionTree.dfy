/** Appending a batch of parsed sections: the cycle walk, and the parent-first insertion loop. */
module SectionTree {
  import opened Results

  /** Version 5 UUIDs as free terms over what they are derived from; a parent link may hold any id. */
  datatype Id = SectionId(ordinal: nat) | OtherId(n: nat)
  datatype BlockId = BlockId(section: nat, ordinal: nat) | OtherBlock(n: nat)

  datatype Block = Block(id: BlockId, ordinal: nat, text: string)
  datatype Section = Section(id: Id, parent: Option<Id>, ordinal: nat, title: string, blocks: seq<Block>)

  function Ids(sections: seq<Section>): set<Id> {
    set i | 0 <= i < |sections| :: sections[i].id
  }

  predicate DistinctIds(sections: seq<Section>) {
    forall i, j | 0 <= i < j < |sections| :: sections[i].id != sections[j].id
  }

  /** The parent links of a batch. A parent outside the batch is a value of this map but not a key. */
  function Parents(sections: seq<Section>): (m: map<Id, Id>)
    ensures m.Keys <= Ids(sections)
  {
    if sections == [] then map[]
    else
      var n := |sections| - 1;
      var init := Parents(sections[..n]);
      assert Ids(sections) == Ids(sections[..n]) + {sections[n].id};
      if sections[n].parent.Some? then init[sections[n].id := sections[n].parent.value] else init
  }

  lemma {:induction false} ParentOf(sections: seq<Section>, i: nat)
    requires DistinctIds(sections) && i < |sections|
    ensures sections[i].id in Parents(sections) <==> sections[i].parent.Some?
    ensures sections[i].parent.Some? ==> Parents(sections)[sections[i].id] == sections[i].parent.value
  {
    var n := |sections| - 1;
    if i < n {
      ParentOf(sections[..n], i);
      assert sections[n].id != sections[i].id;
    } else {
      assert Parents(sections[..n]).Keys <= Ids(sections[..n]);
      assert sections[i].id !in Ids(sections[..n]);
    }
  }

  /** The n-th ancestor, as long as the links lead there. */
  function Ancestor(parents: map<Id, Id>, id: Id, n: nat): Option<Id> {
    if n == 0 then Some(id)
    else
      var a := Ancestor(parents, id, n - 1);
      if a.Some? && a.value in parents then Some(parents[a.value]) else None
  }

  /** Some section is its own ancestor. */
  ghost predicate Cyclic(parents: map<Id, Id>) {
    exists id: Id, n: nat :: n > 0 && Ancestor(parents, id, n) == Some(id)
  }

  lemma {:induction false} AncestorOfAncestor(parents: map<Id, Id>, id: Id, m: nat, n: nat)
    ensures Ancestor(parents, id, m + n) ==
            if Ancestor(parents, id, m).Some? then Ancestor(parents, Ancestor(parents, id, m).value, n) else None
  {
    if n > 0 { AncestorOfAncestor(parents, id, m, n - 1); }
  }

  /** On a cycle there is always another ancestor. */
  lemma {:induction false} CycleNeverEnds(parents: map<Id, Id>, id: Id, n: nat, k: nat)
    requires n > 0 && Ancestor(parents, id, n) == Some(id)
    ensures Ancestor(parents, id, k).Some?
    decreases k
  {
    if k >= n {
      CycleNeverEnds(parents, id, n, k - n);
      AncestorOfAncestor(parents, id, n, k - n);
    } else {
      AncestorOfAncestor(parents, id, k, n - k);
    }
  }

  /** The chain of parents leaves the batch. */
  ghost predicate Ends(parents: map<Id, Id>, id: Id) {
    exists k: nat :: Ancestor(parents, id, k) == None
  }

  // ----- the walk

  /** The walk of one section is at its k-th ancestor, having seen the ones before. */
  ghost predicate Walking(parents: map<Id, Id>, id: Id, k: nat, current: Id, seen: set<Id>) {
    && Ancestor(parents, id, k) == Some(current)
    && seen <= parents.Keys
    && forall x | x in seen :: exists j | 0 <= j < k :: Ancestor(parents, id, j) == Some(x)
  }

  lemma WalkingOn(parents: map<Id, Id>, id: Id, k: nat, current: Id, seen: set<Id>)
    requires Walking(parents, id, k, current, seen) && current in parents
    ensures Walking(parents, id, k + 1, parents[current], seen + {current})
  {
    forall x | x in seen + {current} ensures exists j | 0 <= j < k + 1 :: Ancestor(parents, id, j) == Some(x) {
      if x == current {
        assert Ancestor(parents, id, k) == Some(x);
      } else {
        var j :| 0 <= j < k && Ancestor(parents, id, j) == Some(x);
      }
    }
  }

  lemma SeenAgainIsCycle(parents: map<Id, Id>, id: Id, k: nat, current: Id, seen: set<Id>)
    requires Walking(parents, id, k, current, seen) && current in seen
    ensures Cyclic(parents)
  {
    var j :| 0 <= j < k && Ancestor(parents, id, j) == Some(current);
    AncestorOfAncestor(parents, id, j, k - j);
    assert k - j > 0 && Ancestor(parents, current, k - j) == Some(current);
  }

  method WalkFindsCycle(parents: map<Id, Id>, id: Id) returns (rejected: bool)
    ensures rejected ==> Cyclic(parents)
    ensures !rejected ==> Ends(parents, id)
  {
    var seen: set<Id> := {};
    var current := id;
    ghost var k := 0;
    while current in parents
      invariant Walking(parents, id, k, current, seen)
      decreases parents.Keys - seen
    {
      var parent := parents[current];
      if current in seen {
        SeenAgainIsCycle(parents, id, k, current, seen);
        return true;
      }
      WalkingOn(parents, id, k, current, seen);
      if parent == id {
        assert Ancestor(parents, id, k + 1) == Some(id);
        return true;
      }
      seen := seen + {current};
      current := parent;
      k := k + 1;
    }
    assert Ancestor(parents, id, k + 1) == None;
    rejected := false;
  }

  /** The walks together reject a batch exactly when its parent links are cyclic. */
  method RejectCycles(sections: seq<Section>) returns (rejected: bool)
    requires DistinctIds(sections)
    ensures rejected <==> Cyclic(Parents(sections))
  {
    var parents := Parents(sections);
    for i := 0 to |sections|
      invariant forall j | 0 <= j < i :: Ends(parents, sections[j].id)
    {
      rejected := WalkFindsCycle(parents, sections[i].id);
      if rejected { return; }
    }
    if Cyclic(parents) {
      ghost var id: Id, n: nat :| n > 0 && Ancestor(parents, id, n) == Some(id);
      CycleNeverEnds(parents, id, n, 1);
      assert id in Ids(sections);
      ghost var j :| 0 <= j < |sections| && sections[j].id == id;
      ghost var k: nat :| Ancestor(parents, id, k) == None;
      CycleNeverEnds(parents, id, n, k);
    }
    rejected := false;
  }

  // ----- the insertion loop

  predicate Ready(section: Section, batch: set<Id>, inserted: set<Id>) {
    section.parent.None? || section.parent.value !in batch || section.parent.value in inserted
  }

  /** Every section's parent, if it is in the batch, comes earlier. */
  ghost predicate ParentFirst(order: seq<Section>, batch: set<Id>) {
    forall j | 0 <= j < |order| :: Ready(order[j], batch, Ids(order[..j]))
  }

  lemma ParentFirstSnoc(order: seq<Section>, batch: set<Id>, s: Section)
    requires ParentFirst(order, batch) && Ready(s, batch, Ids(order))
    ensures ParentFirst(order + [s], batch)
    ensures Ids(order + [s]) == Ids(order) + {s.id}
  {
    var all := order + [s];
    forall j | 0 <= j < |all| ensures Ready(all[j], batch, Ids(all[..j])) {
      if j < |order| { assert all[..j] == order[..j]; } else { assert all[..j] == order; }
    }
    assert all[..|order|] == order && all[|order|] == s;
  }

  lemma {:induction false} ParentFirstEarlier(order: seq<Section>, batch: set<Id>, j: nat)
    requires ParentFirst(order, batch) && j < |order|
    requires order[j].parent.Some? && order[j].parent.value in batch
    ensures exists i | 0 <= i < j :: order[i].id == order[j].parent.value
  {
    assert Ready(order[j], batch, Ids(order[..j]));
    var i :| 0 <= i < j && order[..j][i].id == order[j].parent.value;
  }

  /** Whichever list takes the next section, nothing is lost or doubled. */
  lemma OneMore(a: seq<Section>, b: seq<Section>, c: seq<Section>, d: seq<Section>, s: Section)
    requires multiset(a) + multiset(b) == multiset(c) + multiset(d)
    ensures multiset(a + [s]) + multiset(b) == multiset(c) + multiset(d + [s])
    ensures multiset(a) + multiset(b + [s]) == multiset(c) + multiset(d + [s])
  {
    assert multiset(a + [s]) == multiset(a) + multiset{s};
    assert multiset(b + [s]) == multiset(b) + multiset{s};
    assert multiset(d + [s]) == multiset(d) + multiset{s};
    assert multiset(a) + multiset{s} + multiset(b) == multiset(a) + multiset(b) + multiset{s};
    assert multiset(c) + (multiset(d) + multiset{s}) == multiset(c) + multiset(d) + multiset{s};
  }

  /** One pass over the pending sections. */
  method Pass(pending: seq<Section>, batch: set<Id>, order: seq<Section>)
    returns (order': seq<Section>, deferred: seq<Section>)
    requires ParentFirst(order, batch)
    ensures ParentFirst(order', batch)
    ensures |order'| + |deferred| == |order| + |pending| && |deferred| <= |pending|
    ensures multiset(order') + multiset(deferred) == multiset(order) + multiset(pending)
    ensures |deferred| == |pending| ==>
              order' == order && deferred == pending && forall i | 0 <= i < |pending| ::
                !Ready(pending[i], batch, Ids(order))
  {
    order', deferred := order, [];
    for i := 0 to |pending|
      invariant ParentFirst(order', batch)
      invariant |order'| + |deferred| == |order| + i && |deferred| <= i
      invariant multiset(order') + multiset(deferred) == multiset(order) + multiset(pending[..i])
      invariant |deferred| == i ==>
                  order' == order && deferred == pending[..i] && forall k | 0 <= k < i ::
                    !Ready(pending[k], batch, Ids(order))
    {
      var section := pending[i];
      assert pending[..i + 1] == pending[..i] + [section];
      OneMore(order', deferred, order, pending[..i], section);
      if !Ready(section, batch, Ids(order')) {
        deferred := deferred + [section];
        continue;
      }
      ParentFirstSnoc(order', batch, section);
      order' := order' + [section];
    }
    assert pending[..|pending|] == pending;
  }

  /** If nothing pending is ready, the links run in a circle. */
  lemma BlockedMeansCycle(sections: seq<Section>, pending: seq<Section>, inserted: set<Id>)
    requires DistinctIds(sections) && pending != []
    requires forall s | s in pending :: s in sections && !Ready(s, Ids(sections), inserted)
    requires forall s | s in sections :: s in pending || s.id in inserted
    ensures Cyclic(Parents(sections))
  {
    var parents := Parents(sections);
    if !Cyclic(parents) {
      assert Walking(parents, pending[0].id, 0, pending[0].id, {});
      BlockedForever(sections, pending, inserted, pending[0].id, 0, pending[0], {});
    }
  }

  /** The parent of a blocked section is blocked too. */
  lemma NextBlocked(sections: seq<Section>, pending: seq<Section>, inserted: set<Id>, at: Section)
    returns (next: Section)
    requires DistinctIds(sections) && at in pending
    requires forall s | s in pending :: s in sections && !Ready(s, Ids(sections), inserted)
    requires forall s | s in sections :: s in pending || s.id in inserted
    ensures next in pending && at.id in Parents(sections) && Parents(sections)[at.id] == next.id
  {
    var i :| 0 <= i < |sections| && sections[i] == at;
    ParentOf(sections, i);
    var j :| 0 <= j < |sections| && sections[j].id == at.parent.value;
    next := sections[j];
    assert next in sections;
  }

  lemma {:induction false} BlockedForever(sections: seq<Section>, pending: seq<Section>, inserted: set<Id>,
                                          start: Id, k: nat, at: Section, seen: set<Id>)
    requires DistinctIds(sections)
    requires forall s | s in pending :: s in sections && !Ready(s, Ids(sections), inserted)
    requires forall s | s in sections :: s in pending || s.id in inserted
    requires at in pending && Walking(Parents(sections), start, k, at.id, seen)
    ensures Cyclic(Parents(sections))
    decreases Parents(sections).Keys - seen
  {
    if at.id in seen {
      SeenAgainIsCycle(Parents(sections), start, k, at.id, seen);
    } else {
      var next := NextBlocked(sections, pending, inserted, at);
      WalkingOn(Parents(sections), start, k, at.id, seen);
      BlockedForever(sections, pending, inserted, start, k + 1, next, seen + {at.id});
    }
  }

  /** An order that puts parents first leaves no room for a cycle. */
  lemma OrderedMeansAcyclic(sections: seq<Section>, order: seq<Section>)
    requires DistinctIds(sections) && multiset(order) == multiset(sections) && ParentFirst(order, Ids(sections))
    ensures !Cyclic(Parents(sections))
  {
    var parents := Parents(sections);
    if Cyclic(parents) {
      var id: Id, n: nat :| n > 0 && Ancestor(parents, id, n) == Some(id);
      CycleNeverEnds(parents, id, n, 1);
      assert Ancestor(parents, id, 0) == Some(id);
      var j := PositionOf(sections, order, id);
      CycleDescends(sections, order, id, n, 0, j);
    }
  }

  lemma PositionOf(sections: seq<Section>, order: seq<Section>, id: Id) returns (j: nat)
    requires multiset(order) == multiset(sections) && id in Ids(sections)
    ensures j < |order| && order[j].id == id && order[j] in sections
  {
    var i :| 0 <= i < |sections| && sections[i].id == id;
    assert sections[i] in multiset(order);
    j :| 0 <= j < |order| && order[j] == sections[i];
  }

  /** Along a cycle the positions in the order would fall for ever. */
  lemma {:induction false} CycleDescends(sections: seq<Section>, order: seq<Section>, id: Id, n: nat, k: nat, j: nat)
    requires DistinctIds(sections) && multiset(order) == multiset(sections) && ParentFirst(order, Ids(sections))
    requires n > 0 && Ancestor(Parents(sections), id, n) == Some(id)
    requires j < |order| && Ancestor(Parents(sections), id, k) == Some(order[j].id)
    ensures false
    decreases j
  {
    var parents := Parents(sections);
    CycleNeverEnds(parents, id, n, k + 1);
    CycleNeverEnds(parents, id, n, k + 2);
    assert order[j] in multiset(sections);
    var i :| 0 <= i < |sections| && sections[i] == order[j];
    ParentOf(sections, i);
    var p := order[j].parent.value;
    assert p in Ids(sections);
    ParentFirstEarlier(order, Ids(sections), j);
    var j' :| 0 <= j' < j && order[j'].id == p;
    CycleDescends(sections, order, id, n, k + 1, j');
  }

  /** The pass loop: it succeeds exactly on acyclic batches, in at most one pass per section. */
  method InsertParentFirst(sections: seq<Section>) returns (r: Result<seq<Section>>, passes: nat)
    requires DistinctIds(sections)
    ensures r.Ok? <==> !Cyclic(Parents(sections))
    ensures r.Err? ==> r.error == InvalidInput
    ensures r.Ok? ==> multiset(r.value) == multiset(sections) && ParentFirst(r.value, Ids(sections))
    ensures passes <= |sections|
  {
    var batch := Ids(sections);
    var pending := sections;
    var order: seq<Section> := [];
    passes := 0;
    while pending != []
      invariant multiset(order) + multiset(pending) == multiset(sections)
      invariant ParentFirst(order, batch)
      invariant passes + |pending| <= |sections|
      decreases |pending|
    {
      var order', deferred := Pass(pending, batch, order);
      if |deferred| == |pending| {
        forall s | s in pending ensures s in sections && !Ready(s, batch, Ids(order)) {
          assert s in multiset(pending);
          assert s in multiset(sections);
        }
        forall s | s in sections ensures s in pending || s.id in Ids(order) {
          assert s in multiset(sections);
          if s !in pending { assert s in multiset(order); }
        }
        BlockedMeansCycle(sections, pending, Ids(order));
        return Err(InvalidInput), passes + 1;
      }
      order, pending, passes := order', deferred, passes + 1;
    }
    assert multiset(order) == multiset(sections);
    OrderedMeansAcyclic(sections, order);
    r := Ok(order);
  }

  // ----- appending to what is stored

  predicate OutsideParentExists(s: Section, batch: set<Id>, rows: seq<Section>) {
    s.parent.Some? && s.parent.value !in batch ==> s.parent.value in Ids(rows)
  }

  /** Acyclic, with new ids, and with every outside parent already stored. */
  ghost predicate Grafts(rows: seq<Section>, sections: seq<Section>) {
    && !Cyclic(Parents(sections))
    && forall i | 0 <= i < |sections| ::
         sections[i].id !in Ids(rows) && OutsideParentExists(sections[i], Ids(sections), rows)
  }

  lemma AppendedIsValid(rows: seq<Section>, sections: seq<Section>, order: seq<Section>)
    requires DistinctIds(rows)
             && (forall j | 0 <= j < |rows| && rows[j].parent.Some? :: rows[j].parent.value in Ids(rows[..j]))
    requires DistinctIds(sections) && Grafts(rows, sections)
    requires multiset(order) == multiset(sections) && ParentFirst(order, Ids(sections))
    ensures DistinctIds(rows + order)
    ensures forall j | 0 <= j < |rows + order| && (rows + order)[j].parent.Some? ::
              (rows + order)[j].parent.value in Ids((rows + order)[..j])
  {
    var all := rows + order;
    PermutedIdsDistinct(sections, order);
    forall j | 0 <= j < |order|
      ensures order[j].id !in Ids(rows) && OutsideParentExists(order[j], Ids(sections), rows) {
      assert order[j] in multiset(sections);
      var i :| 0 <= i < |sections| && sections[i] == order[j];
    }
    forall j | 0 <= j < |all| && all[j].parent.Some? ensures all[j].parent.value in Ids(all[..j]) {
      if j < |rows| {
        assert all[..j] == rows[..j];
      } else {
        var i := j - |rows|;
        assert all[..j] == rows + order[..i];
        assert Ready(order[i], Ids(sections), Ids(order[..i]));
        IdsOfConcat(rows, order[..i]);
      }
    }
  }

  lemma IdsOfConcat(a: seq<Section>, b: seq<Section>)
    ensures Ids(a + b) == Ids(a) + Ids(b)
  {
    forall x ensures x in Ids(a + b) <==> x in Ids(a) + Ids(b) {
      if x in Ids(a) {
        var i :| 0 <= i < |a| && a[i].id == x;
        assert (a + b)[i].id == x;
      } else if x in Ids(b) {
        var i :| 0 <= i < |b| && b[i].id == x;
        assert (a + b)[|a| + i].id == x;
      }
    }
  }

  lemma {:induction false} PermutedIdsDistinct(sections: seq<Section>, order: seq<Section>)
    requires DistinctIds(sections) && multiset(order) == multiset(sections)
    ensures DistinctIds(order)
  {
    forall i, j | 0 <= i < j < |order| ensures order[i].id != order[j].id {
      if order[i] == order[j] {
        TwiceInMultiset(order, i, j);
        OnceInMultiset(sections, order[i]);
      } else {
        assert order[i] in multiset(sections) && order[j] in multiset(sections);
        var a :| 0 <= a < |sections| && sections[a] == order[i];
        var b :| 0 <= b < |sections| && sections[b] == order[j];
        assert a != b;
      }
    }
  }

  lemma TwiceInMultiset(s: seq<Section>, i: nat, j: nat)
    requires i < j < |s| && s[i] == s[j]
    ensures multiset(s)[s[i]] >= 2
  {
    assert s == s[..j] + [s[j]] + s[j + 1..];
    assert s[i] in s[..j];
    assert s[..j][i] == s[i];
    assert multiset(s[..j])[s[i]] >= 1;
  }

  lemma {:induction false} OnceInMultiset(s: seq<Section>, x: Section)
    requires DistinctIds(s)
    ensures multiset(s)[x] <= 1
  {
    if s != [] {
      var n := |s| - 1;
      assert s == s[..n] + [s[n]];
      OnceInMultiset(s[..n], x);
      assert forall k | 0 <= k < n :: s[..n][k].id != s[n].id;
      assert s[n] !in s[..n];
    }
  }
}
