/** The thread list at each position of the string, up to the first match. */
module RegexLevels {
  import opened CharClass
  import opened RegexTree
  import opened RegexCompile
  import opened RegexRun
  import opened RegexVm

  // ---- No instruction is listed twice. ----

  predicate Distinct(list: seq<Thread>) {
    forall x, y :: 0 <= x < y < |list| ==> list[x].pc != list[y].pc
  }

  /** The instructions of the list lie in `to` but not in `from`, and none occurs twice. */
  predicate FreshPcs(list: seq<Thread>, from: set<nat>, to: set<nat>) {
    Distinct(list) && forall x :: 0 <= x < |list| ==> list[x].pc in to - from
  }

  lemma FreshAppend(a: seq<Thread>, b: seq<Thread>, v0: set<nat>, v1: set<nat>, v2: set<nat>)
    requires v0 <= v1 <= v2 && FreshPcs(a, v0, v1) && FreshPcs(b, v1, v2)
    ensures FreshPcs(a + b, v0, v2)
  {}

  lemma {:induction false} AddThreadFresh(p: Program, s: Text, beyond: Char, pc: nat, i: nat, caps: Slots,
                                          visited: set<nat>)
    requires Runnable(p) && pc < |p| && visited <= Pcs(p)
    ensures var r := AddThread(p, s, beyond, pc, i, caps, visited); FreshPcs(r.added, visited, r.visited)
    decreases Pcs(p) - visited
  {
    if pc !in visited {
      var seen := visited + {pc};
      match p[pc]
      case OpSplit(first, second) =>
        var a := AddThread(p, s, beyond, first, i, caps, seen);
        AddThreadFresh(p, s, beyond, first, i, caps, seen);
        AddThreadFresh(p, s, beyond, second, i, caps, a.visited);
        FreshAppend(a.added, AddThread(p, s, beyond, second, i, caps, a.visited).added,
          visited, a.visited, AddThread(p, s, beyond, second, i, caps, a.visited).visited);
      case OpJump(target) => AddThreadFresh(p, s, beyond, target, i, caps, seen);
      case OpAssertBegin => if i == 0 { AddThreadFresh(p, s, beyond, pc + 1, i, caps, seen); }
      case OpAssertEnd => if CharAt(s, beyond, i) == 0 { AddThreadFresh(p, s, beyond, pc + 1, i, caps, seen); }
      case OpSave(save) => AddThreadFresh(p, s, beyond, pc + 1, i, Stored(caps, save, i), seen);
      case _ =>
    }
  }

  lemma {:induction false} StepThreadsFresh(p: Program, s: Text, beyond: Char, list: seq<Thread>, i: nat,
                                            visited: set<nat>)
    requires Runnable(p) && ValidList(p, list) && visited <= Pcs(p)
    ensures var r := StepThreads(p, s, beyond, list, i, visited).next; FreshPcs(r.added, visited, r.visited)
    decreases |list|
  {
    hide FreshPcs;
    if list == [] || p[list[0].pc] == OpMatch {
      NoneFresh(visited);
    } else if Test(p[list[0].pc], CharAt(s, beyond, i)) {
      var t := list[0];
      var c := AddThread(p, s, beyond, t.pc + 1, i + 1, t.caps, visited);
      var rest := StepThreads(p, s, beyond, list[1..], i, c.visited).next;
      AddThreadFresh(p, s, beyond, t.pc + 1, i + 1, t.caps, visited);
      StepThreadsFresh(p, s, beyond, list[1..], i, c.visited);
      FreshAppend(c.added, rest.added, visited, c.visited, rest.visited);
    } else {
      StepThreadsFresh(p, s, beyond, list[1..], i, visited);
    }
  }

  lemma NoneFresh(visited: set<nat>)
    ensures FreshPcs([], visited, visited)
  {}

  lemma {:induction false} CountPcs(p: Program)
    ensures |Pcs(p)| == |p|
  {
    if |p| == 0 {
      assert Pcs(p) == {};
    } else {
      var q := p[..|p| - 1];
      CountPcs(q);
      assert Pcs(p) == Pcs(q) + {|q|} by {
        forall pc: nat ensures pc in Pcs(p) <==> pc in Pcs(q) + {|q|} {
          assert IsPc(p, pc) <==> IsPc(q, pc) || pc == |q|;
        }
      }
    }
  }

  /** A list without repetitions never holds more threads than there are instructions. */
  lemma {:induction false} ListFits(list: seq<Thread>, from: set<nat>, to: set<nat>)
    requires FreshPcs(list, from, to) && from <= to
    ensures |list| + |from| <= |to|
  {
    if list == [] {
      assert |to| == |from| + |to - from|;
    } else {
      var last := |list| - 1;
      var pc := list[last].pc;
      assert FreshPcs(list[..last], from, to - {pc});
      ListFits(list[..last], from, to - {pc});
    }
  }

  // ---- The list holds exactly what is reachable. ----

  /** One step from (q, h) to (pc, i). */
  predicate StepTo(p: Program, s: Text, q: nat, h: nat, pc: nat, i: nat) {
    q < |p| &&
    if Consuming(p[q]) then h < |s| && Test(p[q], s[h]) && pc == q + 1 && i == h + 1
    else i == h && pc in Successors(p, s, 0, q, h)
  }

  /** Instruction pc can be reached at position i, from instruction 0 at the start, in exactly k steps. */
  ghost predicate Reachable(p: Program, s: Text, pc: nat, i: nat, k: nat)
    decreases k
  {
    if k == 0 then pc == 0 && i == 0
    else exists q: nat, h: nat :: Reachable(p, s, q, h, k - 1) && StepTo(p, s, q, h, pc, i)
  }

  ghost predicate ReachableAt(p: Program, s: Text, pc: nat, i: nat) {
    exists k: nat :: Reachable(p, s, pc, i, k)
  }

  lemma ReachMore(p: Program, s: Text, q: nat, h: nat, pc: nat, i: nat)
    requires ReachableAt(p, s, q, h) && StepTo(p, s, q, h, pc, i)
    ensures ReachableAt(p, s, pc, i)
  {
    var k: nat :| Reachable(p, s, q, h, k);
    assert Reachable(p, s, pc, i, k + 1);
  }

  lemma {:induction false} AddThreadReaches(p: Program, s: Text, beyond: Char, pc: nat, i: nat, caps: Slots,
                                            visited: set<nat>)
    requires Runnable(p) && pc < |p| && visited <= Pcs(p) && i <= |s|
    requires ReachableAt(p, s, pc, i)
    ensures forall q :: q in AddThread(p, s, beyond, pc, i, caps, visited).visited ==>
              q in visited || ReachableAt(p, s, q, i)
    decreases Pcs(p) - visited
  {
    if pc !in visited && !Listed(p[pc]) {
      var seen := visited + {pc};
      forall next | next in Successors(p, s, beyond, pc, i) ensures ReachableAt(p, s, next, i) {
        ReachMore(p, s, pc, i, next, i);
      }
      match p[pc]
      case OpSplit(first, second) =>
        var a := AddThread(p, s, beyond, first, i, caps, seen);
        AddThreadReaches(p, s, beyond, first, i, caps, seen);
        AddThreadReaches(p, s, beyond, second, i, caps, a.visited);
      case OpJump(target) => AddThreadReaches(p, s, beyond, target, i, caps, seen);
      case OpAssertBegin => if i == 0 { AddThreadReaches(p, s, beyond, pc + 1, i, caps, seen); }
      case OpAssertEnd => if CharAt(s, beyond, i) == 0 { AddThreadReaches(p, s, beyond, pc + 1, i, caps, seen); }
      case OpSave(save) => AddThreadReaches(p, s, beyond, pc + 1, i, Stored(caps, save, i), seen);
    }
  }

  lemma {:induction false} StepThreadsReaches(p: Program, s: Text, beyond: Char, list: seq<Thread>, i: nat,
                                              visited: set<nat>)
    requires Runnable(p) && ValidList(p, list) && visited <= Pcs(p) && i < |s|
    requires forall t :: t in list ==> ReachableAt(p, s, t.pc, i)
    ensures forall q :: q in StepThreads(p, s, beyond, list, i, visited).next.visited ==>
              q in visited || ReachableAt(p, s, q, i + 1)
    decreases |list|
  {
    if list != [] && p[list[0].pc] != OpMatch {
      var t := list[0];
      if Test(p[t.pc], s[i]) {
        var c := AddThread(p, s, beyond, t.pc + 1, i + 1, t.caps, visited);
        ReachMore(p, s, t.pc, i, t.pc + 1, i + 1);
        AddThreadReaches(p, s, beyond, t.pc + 1, i + 1, t.caps, visited);
        StepThreadsReaches(p, s, beyond, list[1..], i, c.visited);
      } else {
        StepThreadsReaches(p, s, beyond, list[1..], i, visited);
      }
    }
  }

  /** The thread list at position i (with what was visited to build it) when nothing matched before i. */
  function Level(p: Program, s: Text, beyond: Char, width: nat, i: nat): (c: Closure)
    requires Runnable(p)
    ensures ValidList(p, c.added) && c.visited <= Pcs(p)
    decreases i
  {
    if i == 0 then
      AddThreadValid(p, s, beyond, 0, 0, Nulls(width), {});
      AddThread(p, s, beyond, 0, 0, Nulls(width), {})
    else
      var before := Level(p, s, beyond, width, i - 1);
      StepThreadsValid(p, s, beyond, before.added, i - 1, {});
      StepThreads(p, s, beyond, before.added, i - 1, {}).next
  }

  /** No thread waiting at a position before i has arrived at MATCH. */
  predicate NoMatchBefore(p: Program, s: Text, beyond: Char, width: nat, i: nat)
    requires Runnable(p)
  {
    forall h: nat :: h < i ==> forall t :: t in Level(p, s, beyond, width, h).added ==> p[t.pc] != OpMatch
  }

  lemma {:induction false} NoMatchNoHit(p: Program, s: Text, beyond: Char, list: seq<Thread>, i: nat, visited: set<nat>)
    requires Runnable(p) && ValidList(p, list) && visited <= Pcs(p)
    requires forall t :: t in list ==> p[t.pc] != OpMatch
    ensures StepThreads(p, s, beyond, list, i, visited).hit.NoHit?
    decreases |list|
  {
    if list != [] {
      var t := list[0];
      if Test(p[t.pc], CharAt(s, beyond, i)) {
        NoMatchNoHit(p, s, beyond, list[1..], i, AddThread(p, s, beyond, t.pc + 1, i + 1, t.caps, visited).visited);
      } else {
        NoMatchNoHit(p, s, beyond, list[1..], i, visited);
      }
    }
  }

  lemma LevelCovers(p: Program, s: Text, beyond: Char, width: nat, i: nat)
    requires Runnable(p)
    ensures var c := Level(p, s, beyond, width, i);
            Covered(p, s, beyond, i, c.visited, c.visited, c.added) && FreshPcs(c.added, {}, c.visited)
  {
    hide Covered, FreshPcs, StepThreads, AddThread;
    var c := Level(p, s, beyond, width, i);
    assert c.visited - {} == c.visited;
    if i == 0 {
      AddThreadCovers(p, s, beyond, 0, 0, Nulls(width), {});
      AddThreadFresh(p, s, beyond, 0, 0, Nulls(width), {});
    } else {
      var before := Level(p, s, beyond, width, i - 1);
      StepThreadsCovers(p, s, beyond, before.added, i - 1, {});
      StepThreadsFresh(p, s, beyond, before.added, i - 1, {});
    }
  }

  /** Only reachable instructions are visited. */
  lemma {:induction false} LevelReachable(p: Program, s: Text, beyond: Char, width: nat, i: nat)
    requires Runnable(p) && i <= |s|
    ensures forall q :: q in Level(p, s, beyond, width, i).visited ==> ReachableAt(p, s, q, i)
    decreases i
  {
    hide StepThreads, AddThread;
    if i == 0 {
      assert Reachable(p, s, 0, 0, 0);
      AddThreadReaches(p, s, beyond, 0, 0, Nulls(width), {});
    } else {
      var before := Level(p, s, beyond, width, i - 1);
      LevelReachable(p, s, beyond, width, i - 1);
      LevelCovers(p, s, beyond, width, i - 1);
      assert forall x :: 0 <= x < |before.added| ==> ReachableAt(p, s, before.added[x].pc, i - 1);
      LevelStep(p, s, beyond, width, i - 1);
      hide Level;
      StepThreadsReaches(p, s, beyond, before.added, i - 1, {});
    }
  }

  /** A character consumed at position h leads to an instruction visited at h + 1. */
  lemma ConsumeVisits(p: Program, s: Text, beyond: Char, width: nat, q: nat, h: nat)
    requires Runnable(p) && h < |s| && q in Level(p, s, beyond, width, h).visited
    requires q < |p| && Consuming(p[q]) && Test(p[q], s[h])
    requires forall t :: t in Level(p, s, beyond, width, h).added ==> p[t.pc] != OpMatch
    ensures q + 1 in Level(p, s, beyond, width, h + 1).visited
  {
    var c := Level(p, s, beyond, width, h);
    LevelCovers(p, s, beyond, width, h);
    assert HasThread(c.added, q);
    var x :| 0 <= x < |c.added| && c.added[x].pc == q;
    hide Level, Covered;
    NoMatchNoHit(p, s, beyond, c.added, h, {});
    StepThreadsVisits(p, s, beyond, c.added, h, {}, c.added[x]);
    assert Level(p, s, beyond, width, h + 1) == StepThreads(p, s, beyond, c.added, h, {}).next by {
      LevelStep(p, s, beyond, width, h);
    }
  }

  lemma LevelStart(p: Program, s: Text, beyond: Char, width: nat)
    requires Runnable(p)
    ensures 0 in Level(p, s, beyond, width, 0).visited
  {}

  lemma LevelStep(p: Program, s: Text, beyond: Char, width: nat, h: nat)
    requires Runnable(p)
    ensures Level(p, s, beyond, width, h + 1) ==
            StepThreads(p, s, beyond, Level(p, s, beyond, width, h).added, h, {}).next
  {}

  /** Every reachable instruction is visited, as long as no earlier match cut a list short. */
  lemma {:induction false} LevelComplete(p: Program, s: Text, beyond: Char, width: nat, pc: nat, i: nat, k: nat)
    requires Runnable(p) && i <= |s| && NoMatchBefore(p, s, beyond, width, i) && Reachable(p, s, pc, i, k)
    ensures pc in Level(p, s, beyond, width, i).visited
    decreases k
  {
    if k == 0 {
      LevelStart(p, s, beyond, width);
    } else {
      hide Level, StepThreads, AddThread;
      var q: nat, h: nat :| Reachable(p, s, q, h, k - 1) && StepTo(p, s, q, h, pc, i);
      LevelComplete(p, s, beyond, width, q, h, k - 1);
      if Consuming(p[q]) {
        ConsumeVisits(p, s, beyond, width, q, h);
      } else {
        LevelCovers(p, s, beyond, width, h);
      }
    }
  }

  /** Until the first match, the list at position i holds exactly the character and MATCH instructions reachable
      by consuming the first i characters, each once, and so never more than there are instructions. */
  lemma LevelExact(p: Program, s: Text, beyond: Char, width: nat, i: nat)
    requires Runnable(p) && i <= |s| && NoMatchBefore(p, s, beyond, width, i)
    ensures var list := Level(p, s, beyond, width, i).added;
            && Distinct(list) && |list| <= |p|
            && forall pc: nat :: HasThread(list, pc) <==> pc < |p| && Listed(p[pc]) && ReachableAt(p, s, pc, i)
  {
    var c := Level(p, s, beyond, width, i);
    LevelCovers(p, s, beyond, width, i);
    LevelReachable(p, s, beyond, width, i);
    ListFits(c.added, {}, c.visited);
    CountPcs(p);
    assert |c.visited| <= |Pcs(p)| by { SubsetSmaller(c.visited, Pcs(p)); }
    forall pc: nat
      ensures HasThread(c.added, pc) <==> pc < |p| && Listed(p[pc]) && ReachableAt(p, s, pc, i)
    {
      if pc < |p| && Listed(p[pc]) && ReachableAt(p, s, pc, i) {
        var k: nat :| Reachable(p, s, pc, i, k);
        LevelComplete(p, s, beyond, width, pc, i, k);
      }
    }
  }

  lemma SubsetSmaller(a: set<nat>, b: set<nat>)
    requires a <= b
    ensures |a| <= |b|
  {
    assert b == a + (b - a);
  }

  /** While nothing has matched, the run continues from exactly these lists. */
  lemma {:induction false} RunFollowsLevels(p: Program, s: Text, beyond: Char, width: nat, i: nat)
    requires Runnable(p) && i <= |s| && NoMatchBefore(p, s, beyond, width, i)
    requires forall h: nat :: 0 < h <= i ==> Level(p, s, beyond, width, h).added != []
    ensures VmRun(p, s, beyond, width) == Run(p, s, beyond, Level(p, s, beyond, width, i).added, i, NoHit)
    decreases i
  {
    hide StepThreads, AddThread;
    if i != 0 {
      RunFollowsLevels(p, s, beyond, width, i - 1);
      var before := Level(p, s, beyond, width, i - 1);
      NoMatchNoHit(p, s, beyond, before.added, i - 1, {});
      assert Level(p, s, beyond, width, i).added != [];
    }
  }
}
