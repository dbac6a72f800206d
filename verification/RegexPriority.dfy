/** The reference for captures: a depth-first backtracking search that prefers the first branch of every SPLIT and
    never enters an instruction twice at the same position. The thread lists compute the same result. */
module RegexPriority {
  import opened CharClass
  import opened RegexTree
  import opened RegexCompile
  import opened RegexRun
  import opened RegexVm

  /** What was visited at position i (first element), i + 1, ..., |s|. */
  type Visits = seq<set<nat>>

  predicate ValidVisits(p: Program, vs: Visits) {
    forall x :: 0 <= x < |vs| ==> vs[x] <= Pcs(p)
  }

  /** A search result: the slots of the first MATCH met, and what has been visited by then. */
  datatype Found = Found(hit: Hit, visits: Visits)

  /** The backtracking search from instruction pc at position i. */
  function Backtrack(p: Program, s: Text, pc: nat, i: nat, caps: Slots, vs: Visits): (r: Found)
    requires Runnable(p) && pc < |p| && i <= |s| && |vs| == |s| + 1 - i && ValidVisits(p, vs)
    ensures |r.visits| == |vs| && ValidVisits(p, r.visits) && vs[0] <= r.visits[0]
    decreases |s| - i, Pcs(p) - vs[0]
  {
    if pc in vs[0] then Found(NoHit, vs) else
      var seen: Visits := [vs[0] + {pc}] + vs[1..];
      match p[pc]
      case OpMatch => Found(Hit(caps), seen)
      case OpSplit(first, second) =>
        var a := Backtrack(p, s, first, i, caps, seen);
        if a.hit.Hit? then a else Backtrack(p, s, second, i, caps, a.visits)
      case OpJump(target) => Backtrack(p, s, target, i, caps, seen)
      case OpAssertBegin =>
        if i == 0 then Backtrack(p, s, pc + 1, i, caps, seen) else Found(NoHit, seen)
      case OpAssertEnd =>
        if i == |s| then Backtrack(p, s, pc + 1, i, caps, seen) else Found(NoHit, seen)
      case OpSave(save) => Backtrack(p, s, pc + 1, i, Stored(caps, save, i), seen)
      case _ =>
        if i < |s| && Test(p[pc], s[i]) then
          var r := Backtrack(p, s, pc + 1, i + 1, caps, seen[1..]);
          Found(r.hit, [seen[0]] + r.visits)
        else Found(NoHit, seen)
  }

  /** The backtracking search of a whole string. */
  function BacktrackRun(p: Program, s: Text, width: nat): Hit
    requires Runnable(p)
  {
    Backtrack(p, s, 0, 0, Nulls(width), seq(|s| + 1, _ => {})).hit
  }

  /** The search continued from a list of threads waiting at position i, in order; `deeper` is what was visited
      at the positions after i. */
  function TryList(p: Program, s: Text, list: seq<Thread>, i: nat, deeper: Visits): (r: Found)
    requires Runnable(p) && ValidList(p, list) && i <= |s| && |deeper| == |s| - i && ValidVisits(p, deeper)
    ensures |r.visits| == |deeper| && ValidVisits(p, r.visits)
    decreases |list|
  {
    if list == [] then Found(NoHit, deeper) else
      var a := TryThread(p, s, list[0], i, deeper);
      if a.hit.Hit? then a else TryList(p, s, list[1..], i, a.visits)
  }

  function TryThread(p: Program, s: Text, t: Thread, i: nat, deeper: Visits): (r: Found)
    requires Runnable(p) && t.pc < |p| && Listed(p[t.pc]) && i <= |s| && |deeper| == |s| - i && ValidVisits(p, deeper)
    ensures |r.visits| == |deeper| && ValidVisits(p, r.visits)
  {
    if p[t.pc] == OpMatch then Found(Hit(t.caps), deeper)
    else if i < |s| && Test(p[t.pc], s[i]) then Backtrack(p, s, t.pc + 1, i + 1, t.caps, deeper)
    else Found(NoHit, deeper)
  }

  /** Continue with the second search unless the first one succeeded. */
  lemma {:induction false} TryListAppend(p: Program, s: Text, a: seq<Thread>, b: seq<Thread>, i: nat, deeper: Visits)
    requires Runnable(p) && ValidList(p, a) && ValidList(p, b) && i <= |s| && |deeper| == |s| - i
    requires ValidVisits(p, deeper)
    ensures ValidList(p, a + b)
    ensures var r := TryList(p, s, a, i, deeper);
            TryList(p, s, a + b, i, deeper) == if r.hit.Hit? then r else TryList(p, s, b, i, r.visits)
    decreases |a|
  {
    if a == [] {
      assert a + b == b;
    } else {
      assert (a + b)[1..] == a[1..] + b;
      var first := TryThread(p, s, a[0], i, deeper);
      if first.hit.NoHit? {
        TryListAppend(p, s, a[1..], b, i, first.visits);
      }
    }
  }

  /** Searching from pc is the same as first listing the waiting threads at this position and then trying them. */
  lemma {:induction false} BacktrackIsList(p: Program, s: Text, beyond: Char, pc: nat, i: nat, caps: Slots, vs: Visits)
    requires Runnable(p) && pc < |p| && i <= |s| && |vs| == |s| + 1 - i && ValidVisits(p, vs)
    ensures var c := AddThread(p, s, beyond, pc, i, caps, vs[0]);
            && ValidList(p, c.added)
            && var r, l := Backtrack(p, s, pc, i, caps, vs), TryList(p, s, c.added, i, vs[1..]);
               r.hit == l.hit && (r.hit.NoHit? ==> r.visits == [c.visited] + l.visits)
    decreases Pcs(p) - vs[0]
  {
    var c := AddThread(p, s, beyond, pc, i, caps, vs[0]);
    AddThreadValid(p, s, beyond, pc, i, caps, vs[0]);
    if pc in vs[0] {
      assert vs == [vs[0]] + vs[1..];
    } else {
      var seen: Visits := [vs[0] + {pc}] + vs[1..];
      assert seen[1..] == vs[1..];
      match p[pc]
      case OpSplit(first, second) =>
        BacktrackSplit(p, s, beyond, pc, first, second, i, caps, vs);
      case OpJump(target) => BacktrackIsList(p, s, beyond, target, i, caps, seen);
      case OpAssertBegin => if i == 0 { BacktrackIsList(p, s, beyond, pc + 1, i, caps, seen); }
      case OpAssertEnd => if i == |s| { BacktrackIsList(p, s, beyond, pc + 1, i, caps, seen); }
      case OpSave(save) => BacktrackIsList(p, s, beyond, pc + 1, i, Stored(caps, save, i), seen);
      case _ =>
        BacktrackWaits(p, s, beyond, pc, i, caps, vs);
    }
  }

  /** An instruction that waits in the list: a character test or MATCH. */
  lemma BacktrackWaits(p: Program, s: Text, beyond: Char, pc: nat, i: nat, caps: Slots, vs: Visits)
    requires Runnable(p) && pc < |p| && i <= |s| && |vs| == |s| + 1 - i && ValidVisits(p, vs)
    requires pc !in vs[0] && Listed(p[pc])
    ensures var c := AddThread(p, s, beyond, pc, i, caps, vs[0]);
            && ValidList(p, c.added)
            && var r, l := Backtrack(p, s, pc, i, caps, vs), TryList(p, s, c.added, i, vs[1..]);
               r.hit == l.hit && (r.hit.NoHit? ==> r.visits == [c.visited] + l.visits)
  {
    var c := AddThread(p, s, beyond, pc, i, caps, vs[0]);
    assert c.added[1..] == [];
    assert ([vs[0] + {pc}] + vs[1..])[1..] == vs[1..];
  }

  lemma {:induction false} BacktrackSplit(p: Program, s: Text, beyond: Char, pc: nat, first: nat, second: nat,
                                          i: nat, caps: Slots, vs: Visits)
    requires Runnable(p) && pc < |p| && i <= |s| && |vs| == |s| + 1 - i && ValidVisits(p, vs)
    requires pc !in vs[0] && p[pc] == OpSplit(first, second)
    ensures var c := AddThread(p, s, beyond, pc, i, caps, vs[0]);
            && ValidList(p, c.added)
            && var r, l := Backtrack(p, s, pc, i, caps, vs), TryList(p, s, c.added, i, vs[1..]);
               r.hit == l.hit && (r.hit.NoHit? ==> r.visits == [c.visited] + l.visits)
    decreases Pcs(p) - vs[0], 0
  {
    var seen: Visits := [vs[0] + {pc}] + vs[1..];
    assert seen[1..] == vs[1..];
    var a := AddThread(p, s, beyond, first, i, caps, seen[0]);
    var b := AddThread(p, s, beyond, second, i, caps, a.visited);
    BacktrackIsList(p, s, beyond, first, i, caps, seen);
    AddThreadValid(p, s, beyond, second, i, caps, a.visited);
    TryListAppend(p, s, a.added, b.added, i, vs[1..]);
    var ra := Backtrack(p, s, first, i, caps, seen);
    if ra.hit.NoHit? {
      assert ra.visits[0] == a.visited;
      BacktrackIsList(p, s, beyond, second, i, caps, ra.visits);
    }
  }

  /** Trying the threads at position i one by one, each to the end of the string, is the same as advancing all of
      them to position i + 1 first; a MATCH in the list only counts if nothing before it succeeds. */
  lemma {:induction false} TryListAdvances(p: Program, s: Text, beyond: Char, list: seq<Thread>, i: nat, deeper: Visits)
    requires Runnable(p) && ValidList(p, list) && i < |s| && |deeper| == |s| - i && ValidVisits(p, deeper)
    ensures var step := StepThreads(p, s, beyond, list, i, deeper[0]);
            && ValidList(p, step.next.added)
            && var r, l := TryList(p, s, list, i, deeper), TryList(p, s, step.next.added, i + 1, deeper[1..]);
               && r.hit == (if l.hit.Hit? then l.hit else step.hit)
    decreases |list|
  {
    StepThreadsValid(p, s, beyond, list, i, deeper[0]);
    if list != [] && p[list[0].pc] != OpMatch {
      var t := list[0];
      if Test(p[t.pc], s[i]) {
        var c := AddThread(p, s, beyond, t.pc + 1, i + 1, t.caps, deeper[0]);
        var rest := StepThreads(p, s, beyond, list[1..], i, c.visited);
        BacktrackIsList(p, s, beyond, t.pc + 1, i + 1, t.caps, deeper);
        StepThreadsValid(p, s, beyond, list[1..], i, c.visited);
        TryListAppend(p, s, c.added, rest.next.added, i + 1, deeper[1..]);
        var a := TryThread(p, s, t, i, deeper);
        if a.hit.NoHit? {
          assert a.visits[0] == c.visited;
          TryListAdvances(p, s, beyond, list[1..], i, a.visits);
        }
      } else {
        TryListAdvances(p, s, beyond, list[1..], i, deeper);
      }
    }
  }

  lemma {:induction false} TryListAtEnd(p: Program, s: Text, beyond: Char, list: seq<Thread>, visited: set<nat>)
    requires Runnable(p) && ValidList(p, list) && visited <= Pcs(p)
    ensures TryList(p, s, list, |s|, []).hit == StepThreads(p, s, beyond, list, |s|, visited).hit
    decreases |list|
  {
    if list != [] && p[list[0].pc] != OpMatch {
      var t := list[0];
      if Test(p[t.pc], 0) {
        TryListAtEnd(p, s, beyond, list[1..], AddThread(p, s, beyond, t.pc + 1, |s| + 1, t.caps, visited).visited);
      } else {
        TryListAtEnd(p, s, beyond, list[1..], visited);
      }
    }
  }

  function NoVisits(n: nat): (vs: Visits)
    ensures |vs| == n && forall x :: 0 <= x < n ==> vs[x] == {}
  {
    seq(n, _ => {})
  }

  /** The lock-step run from a list gives what the search from that list gives, and otherwise what it had before. */
  lemma {:induction false} RunIsTryList(p: Program, s: Text, beyond: Char, list: seq<Thread>, i: nat, found: Hit)
    requires Runnable(p) && ValidList(p, list) && i <= |s|
    ensures var l := TryList(p, s, list, i, NoVisits(|s| - i)).hit;
            Run(p, s, beyond, list, i, found) == if l.Hit? then l else found
    decreases |s| - i
  {
    hide StepThreads, AddThread, Backtrack, TryThread;
    var r := StepThreads(p, s, beyond, list, i, {});
    var found' := if r.hit.Hit? then r.hit else found;
    StepThreadsValid(p, s, beyond, list, i, {});
    if i == |s| {
      TryListAtEnd(p, s, beyond, list, {});
      assert NoVisits(0) == [];
    } else {
      TryListAdvances(p, s, beyond, list, i, NoVisits(|s| - i));
      assert NoVisits(|s| - i)[1..] == NoVisits(|s| - (i + 1));
      if r.next.added != [] {
        RunIsTryList(p, s, beyond, r.next.added, i + 1, found');
      }
    }
  }

  /** The machine's answer, slots included, is that of the priority-ordered backtracking search. */
  lemma VmIsBacktracking(p: Program, s: Text, beyond: Char, width: nat)
    requires Runnable(p)
    ensures VmRun(p, s, beyond, width) == BacktrackRun(p, s, width)
  {
    var vs := NoVisits(|s| + 1);
    assert vs[1..] == NoVisits(|s|);
    AddThreadValid(p, s, beyond, 0, 0, Nulls(width), {});
    BacktrackIsList(p, s, beyond, 0, 0, Nulls(width), vs);
    RunIsTryList(p, s, beyond, AddThread(p, s, beyond, 0, 0, Nulls(width), {}).added, 0, NoHit);
  }
}
