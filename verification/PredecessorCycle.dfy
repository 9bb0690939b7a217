/** The cycle check over «follows» references, and which edits of the references keep them free of cycles. */
module PredecessorCycle {
  import opened Wrappers
  import opened ScheduleDiff

  type Link = (Item, Option<Item>)

  /** The last link of an item wins. */
  function NextOf(links: seq<Link>): map<Item, Option<Item>> {
    if links == [] then map[] else NextOf(links[..|links| - 1])[links[|links| - 1].0 := links[|links| - 1].1]
  }

  /** `b` is where a walk goes after `a`: a reference that is absent, null or empty ends it. */
  predicate Follows(next: map<Item, Option<Item>>, a: Item, b: Item) { a in next && next[a] == Some(b) && b != "" }

  predicate Ends(next: map<Item, Option<Item>>, a: Item) { a !in next || next[a].None? || next[a].value == "" }

  predicate IsWalk(next: map<Item, Option<Item>>, path: seq<Item>) { forall i :: 0 <= i < |path| - 1 ==> Follows(next, path[i], path[i + 1]) }

  predicate IsCycle(next: map<Item, Option<Item>>, path: seq<Item>) { |path| >= 2 && path[0] == path[|path| - 1] && IsWalk(next, path) }

  ghost predicate HasCycle(next: map<Item, Option<Item>>) { exists path :: IsCycle(next, path) }

  /** No later link is of the same item. */
  predicate IsLast(links: seq<Link>, i: nat) { i < |links| && forall j :: i < j < |links| ==> links[j].0 != links[i].0 }

  lemma {:induction false} NextOfIsLast(links: seq<Link>, a: Item)
    ensures a in NextOf(links) <==> exists i: nat :: IsLast(links, i) && links[i].0 == a
    ensures forall i: nat :: IsLast(links, i) && links[i].0 == a ==> NextOf(links)[a] == links[i].1
  {
    if links != [] {
      var n := |links| - 1;
      var init := links[..n];
      NextOfIsLast(init, a);
      assert IsLast(links, n);
      if links[n].0 != a {
        forall i: nat ensures IsLast(links, i) && links[i].0 == a <==> IsLast(init, i) && init[i].0 == a {
          assert i < n ==> init[i] == links[i];
        }
      }
    }
  }

  /** The references a walk follows, by the list alone: the last one given for an item, unless it is missing, null or empty. */
  lemma FollowsExactly(links: seq<Link>, a: Item, b: Item)
    ensures Follows(NextOf(links), a, b) <==> b != "" && exists i: nat :: IsLast(links, i) && links[i] == (a, Some(b))
    ensures Ends(NextOf(links), a) <==> forall c :: !Follows(NextOf(links), a, c)
  {
    NextOfIsLast(links, a);
    if !Ends(NextOf(links), a) {
      assert Follows(NextOf(links), a, NextOf(links)[a].value);
    }
  }

  // ---------------------------------------------------------------- the check

  lemma {:induction false} WalkStaysOnCycle(next: map<Item, Option<Item>>, path: seq<Item>, cycle: seq<Item>)
    requires path != [] && IsWalk(next, path) && IsCycle(next, cycle) && path[0] in cycle
    ensures path[|path| - 1] in cycle
    decreases |path|
  {
    if |path| > 1 {
      var i :| 0 <= i < |cycle| && cycle[i] == path[0];
      var j := if i == |cycle| - 1 then 0 else i;
      assert Follows(next, cycle[j], cycle[j + 1]) && Follows(next, path[0], path[1]);
      assert path[1] == cycle[j + 1];
      forall k | 0 <= k < |path| - 2 ensures Follows(next, path[1..][k], path[1..][k + 1]) {
        assert Follows(next, path[k + 1], path[k + 2]);
      }
      WalkStaysOnCycle(next, path[1..], cycle);
    }
  }

  lemma CycleGoesOn(next: map<Item, Option<Item>>, cycle: seq<Item>, a: Item)
    requires IsCycle(next, cycle) && a in cycle
    ensures !Ends(next, a)
  {
    var i :| 0 <= i < |cycle| && cycle[i] == a;
    var j := if i == |cycle| - 1 then 0 else i;
    assert Follows(next, cycle[j], cycle[j + 1]);
  }

  /** A walk that ends did not start on a cycle. */
  lemma EndedWalkIsOffCycles(next: map<Item, Option<Item>>, path: seq<Item>, cycle: seq<Item>)
    requires path != [] && IsWalk(next, path) && Ends(next, path[|path| - 1])
    ensures !(IsCycle(next, cycle) && path[0] in cycle)
  {
    if IsCycle(next, cycle) && path[0] in cycle {
      WalkStaysOnCycle(next, path, cycle);
      CycleGoesOn(next, cycle, path[|path| - 1]);
    }
  }

  lemma RepeatIsCycle(next: map<Item, Option<Item>>, path: seq<Item>, cur: Item)
    requires IsWalk(next, path + [cur]) && cur in path
    ensures HasCycle(next)
  {
    var i :| 0 <= i < |path| && path[i] == cur;
    var all := path + [cur];
    var cycle := all[i..];
    forall k | 0 <= k < |cycle| - 1 ensures Follows(next, cycle[k], cycle[k + 1]) {
      assert Follows(next, all[i + k], all[i + k + 1]);
    }
    assert IsCycle(next, cycle);
  }

  /** Walk one chain until it ends or meets an item again. */
  method WalkMeetsItself(next: map<Item, Option<Item>>, start: Item) returns (found: bool)
    ensures found ==> HasCycle(next)
    ensures !found ==> forall cycle :: !(IsCycle(next, cycle) && start in cycle && start != "")
  {
    var seen: set<Item> := {};
    var cur := if start == "" then None else Some(start);
    ghost var path: seq<Item> := [];
    while cur.Some?
      invariant forall x :: x in seen <==> x in path
      invariant cur.Some? ==> IsWalk(next, path + [cur.value]) && (path + [cur.value])[0] == start && cur.value != ""
      invariant cur.None? && path != [] ==> IsWalk(next, path) && path[0] == start && Ends(next, path[|path| - 1])
      invariant cur.None? && path == [] ==> start == ""
      decreases next.Keys - seen, cur.Some?
    {
      var here := cur.value;
      if here in seen {
        RepeatIsCycle(next, path, here);
        return true;
      }
      seen := seen + {here};
      path := path + [here];
      cur := if here in next && next[here] != Some("") then next[here] else None;
      if cur.Some? {
        WalkSnoc(next, path, cur.value);
      }
    }
    if path != [] {
      forall cycle ensures !(IsCycle(next, cycle) && start in cycle) { EndedWalkIsOffCycles(next, path, cycle); }
    }
    return false;
  }

  lemma WalkSnoc(next: map<Item, Option<Item>>, path: seq<Item>, b: Item)
    requires path != [] && IsWalk(next, path) && Follows(next, path[|path| - 1], b)
    ensures IsWalk(next, path + [b]) && (path + [b])[0] == path[0]
  {
  }

  lemma CycleStartsAtKey(next: map<Item, Option<Item>>, cycle: seq<Item>)
    requires IsCycle(next, cycle)
    ensures cycle[0] in next && cycle[0] != "" && cycle[0] in cycle
  {
    assert Follows(next, cycle[0], cycle[1]) && Follows(next, cycle[|cycle| - 2], cycle[|cycle| - 1]);
  }

  method HasPredecessorCycle(links: seq<Link>) returns (found: bool)
    ensures found <==> HasCycle(NextOf(links))
  {
    var next := NextOf(links);
    var todo := next.Keys;
    forall cycle | IsCycle(next, cycle) ensures cycle[0] in todo { CycleStartsAtKey(next, cycle); }
    while todo != {}
      invariant todo <= next.Keys
      invariant forall cycle :: IsCycle(next, cycle) ==> cycle[0] in todo
    {
      var start :| start in todo;
      todo := todo - {start};
      var met := WalkMeetsItself(next, start);
      if met {
        return true;
      }
      forall cycle | IsCycle(next, cycle) ensures cycle[0] in todo { CycleStartsAtKey(next, cycle); }
    }
    return false;
  }

  // ---------------------------------------------------------------- edits that keep the references acyclic

  lemma FewerLinksNoCycle(next: map<Item, Option<Item>>, fewer: map<Item, Option<Item>>)
    requires !HasCycle(next) && forall a, b :: Follows(fewer, a, b) ==> Follows(next, a, b)
    ensures !HasCycle(fewer)
  {
    if HasCycle(fewer) {
      var cycle :| IsCycle(fewer, cycle);
      assert IsCycle(next, cycle);
    }
  }

  /** A new item that nothing follows yet cannot close a cycle, whatever it follows itself. */
  lemma NewItemNoCycle(next: map<Item, Option<Item>>, item: Item, predecessor: Option<Item>)
    requires !HasCycle(next) && predecessor != Some(item) && forall a :: !Follows(next, a, item)
    ensures !HasCycle(next[item := predecessor])
  {
    var more := next[item := predecessor];
    if HasCycle(more) {
      var cycle :| IsCycle(more, cycle);
      forall i | 0 <= i < |cycle| - 1 ensures Follows(next, cycle[i], cycle[i + 1]) {
        var before := if i == 0 then cycle[|cycle| - 2] else cycle[i - 1];
        assert Follows(more, before, cycle[i]) by {
          assert i > 0 ==> Follows(more, cycle[i - 1], cycle[i]);
          assert i == 0 ==> Follows(more, cycle[|cycle| - 2], cycle[|cycle| - 1]);
        }
        assert before != item ==> Follows(next, before, cycle[i]);
        assert cycle[i] != item;
        assert Follows(more, cycle[i], cycle[i + 1]);
      }
      assert IsCycle(next, cycle);
    }
  }
}
