/** The thread-list virtual machine (cregex_vm.c) as functions on values, and what its runs compute. */
module RegexVm {
  import opened CharClass
  import opened RegexTree
  import opened RegexCompile
  import opened RegexRun

  datatype Thread = Thread(pc: nat, caps: Slots)

  /** The outcome of adding threads at one position: the instructions visited so far and the threads listed. */
  datatype Closure = Closure(visited: set<nat>, added: seq<Thread>)

  datatype Hit = NoHit | Hit(caps: Slots)

  function Pcs(p: Program): set<nat> {
    set pc: nat | pc < |p| && IsPc(p, pc)
  }

  predicate IsPc(p: Program, pc: nat) {
    pc < |p|
  }

  predicate Listed(ins: Instr) {
    ins.OpMatch? || Consuming(ins)
  }

  /** What the VM reads at position i: the terminator is 0, and `beyond` stands for whatever byte follows it. */
  function CharAt(s: Text, beyond: Char, i: nat): Char {
    if i < |s| then s[i] else if i == |s| then 0 else beyond
  }

  /** Follows branches, jumps, assertions and saves from pc, listing the instructions that wait for input. */
  function AddThread(p: Program, s: Text, beyond: Char, pc: nat, i: nat, caps: Slots, visited: set<nat>): (r: Closure)
    requires Runnable(p) && pc < |p| && visited <= Pcs(p)
    ensures visited <= r.visited <= Pcs(p) && pc in r.visited
    decreases Pcs(p) - visited
  {
    if pc in visited then Closure(visited, []) else
      var seen := visited + {pc};
      match p[pc]
      case OpSplit(first, second) =>
        var a := AddThread(p, s, beyond, first, i, caps, seen);
        var b := AddThread(p, s, beyond, second, i, caps, a.visited);
        Closure(b.visited, a.added + b.added)
      case OpJump(target) => AddThread(p, s, beyond, target, i, caps, seen)
      case OpAssertBegin =>
        if i == 0 then AddThread(p, s, beyond, pc + 1, i, caps, seen) else Closure(seen, [])
      case OpAssertEnd =>
        if CharAt(s, beyond, i) == 0 then AddThread(p, s, beyond, pc + 1, i, caps, seen) else Closure(seen, [])
      case OpSave(save) => AddThread(p, s, beyond, pc + 1, i, Stored(caps, save, i), seen)
      case _ => Closure(seen, [Thread(pc, caps)])
  }

  predicate ValidList(p: Program, list: seq<Thread>) {
    forall t :: t in list ==> t.pc < |p| && Listed(p[t.pc])
  }

  lemma {:induction false} AddThreadValid(p: Program, s: Text, beyond: Char, pc: nat, i: nat, caps: Slots,
                                          visited: set<nat>)
    requires Runnable(p) && pc < |p| && visited <= Pcs(p)
    ensures ValidList(p, AddThread(p, s, beyond, pc, i, caps, visited).added)
    decreases Pcs(p) - visited
  {
    if pc !in visited {
      var seen := visited + {pc};
      match p[pc]
      case OpSplit(first, second) =>
        AddThreadValid(p, s, beyond, first, i, caps, seen);
        AddThreadValid(p, s, beyond, second, i, caps, AddThread(p, s, beyond, first, i, caps, seen).visited);
      case OpJump(target) => AddThreadValid(p, s, beyond, target, i, caps, seen);
      case OpAssertBegin => if i == 0 { AddThreadValid(p, s, beyond, pc + 1, i, caps, seen); }
      case OpAssertEnd => if CharAt(s, beyond, i) == 0 { AddThreadValid(p, s, beyond, pc + 1, i, caps, seen); }
      case OpSave(save) => AddThreadValid(p, s, beyond, pc + 1, i, Stored(caps, save, i), seen);
      case _ =>
    }
  }

  /** One pass over the threads at position i: the threads for position i + 1, and the first MATCH met, which
      cuts off the threads after it. */
  datatype Pass = Pass(next: Closure, hit: Hit)

  function StepThreads(p: Program, s: Text, beyond: Char, list: seq<Thread>, i: nat, visited: set<nat>): (r: Pass)
    requires Runnable(p) && ValidList(p, list) && visited <= Pcs(p)
    ensures visited <= r.next.visited <= Pcs(p)
    decreases |list|
  {
    if list == [] then Pass(Closure(visited, []), NoHit) else
      var t := list[0];
      if p[t.pc] == OpMatch then Pass(Closure(visited, []), Hit(t.caps))
      else if Test(p[t.pc], CharAt(s, beyond, i)) then
        var c := AddThread(p, s, beyond, t.pc + 1, i + 1, t.caps, visited);
        var rest := StepThreads(p, s, beyond, list[1..], i, c.visited);
        Pass(Closure(rest.next.visited, c.added + rest.next.added), rest.hit)
      else StepThreads(p, s, beyond, list[1..], i, visited)
  }

  lemma {:induction false} StepThreadsValid(p: Program, s: Text, beyond: Char, list: seq<Thread>, i: nat,
                                            visited: set<nat>)
    requires Runnable(p) && ValidList(p, list) && visited <= Pcs(p)
    ensures ValidList(p, StepThreads(p, s, beyond, list, i, visited).next.added)
    decreases |list|
  {
    if list != [] && p[list[0].pc] != OpMatch {
      var t := list[0];
      if Test(p[t.pc], CharAt(s, beyond, i)) {
        AddThreadValid(p, s, beyond, t.pc + 1, i + 1, t.caps, visited);
        StepThreadsValid(p, s, beyond, list[1..], i, AddThread(p, s, beyond, t.pc + 1, i + 1, t.caps, visited).visited);
      } else {
        StepThreadsValid(p, s, beyond, list[1..], i, visited);
      }
    }
  }

  /** The main loop from position i on, given what has matched so far. */
  function Run(p: Program, s: Text, beyond: Char, list: seq<Thread>, i: nat, found: Hit): Hit
    requires Runnable(p) && ValidList(p, list) && i <= |s|
    decreases |s| - i
  {
    var r := StepThreads(p, s, beyond, list, i, {});
    var found' := if r.hit.Hit? then r.hit else found;
    StepThreadsValid(p, s, beyond, list, i, {});
    if r.next.added == [] || i == |s| then found' else Run(p, s, beyond, r.next.added, i + 1, found')
  }

  function Nulls(width: nat): Slots {
    seq(width, _ => NULL)
  }

  /** The whole run of a program on a string, tracking `width` capture slots. */
  function VmRun(p: Program, s: Text, beyond: Char, width: nat): Hit
    requires Runnable(p)
  {
    AddThreadValid(p, s, beyond, 0, 0, Nulls(width), {});
    Run(p, s, beyond, AddThread(p, s, beyond, 0, 0, Nulls(width), {}).added, 0, NoHit)
  }

  // ---- Soundness: what a listed thread can still do, the thread it came from could do. ----

  lemma {:induction false} AddThreadSound(p: Program, s: Text, beyond: Char, pc: nat, i: nat, caps: Slots,
                                          visited: set<nat>,
                                          t: Thread, k: nat, j: nat, out: Slots)
    returns (k': nat)
    requires Runnable(p) && pc < |p| && visited <= Pcs(p) && i <= |s|
    requires t in AddThread(p, s, beyond, pc, i, caps, visited).added
    requires Delivers(p, s, t.pc, i, t.caps, k, j, out)
    ensures Delivers(p, s, pc, i, caps, k', j, out)
    decreases Pcs(p) - visited
  {
    var seen := visited + {pc};
    match p[pc]
    case OpSplit(first, second) =>
      var a := AddThread(p, s, beyond, first, i, caps, seen);
      if t in a.added {
        k' := AddThreadSound(p, s, beyond, first, i, caps, seen, t, k, j, out);
      } else {
        k' := AddThreadSound(p, s, beyond, second, i, caps, a.visited, t, k, j, out);
      }
      k' := k' + 1;
    case OpJump(target) =>
      k' := AddThreadSound(p, s, beyond, target, i, caps, seen, t, k, j, out);
      k' := k' + 1;
    case OpAssertBegin =>
      k' := AddThreadSound(p, s, beyond, pc + 1, i, caps, seen, t, k, j, out);
      k' := k' + 1;
    case OpAssertEnd =>
      k' := AddThreadSound(p, s, beyond, pc + 1, i, caps, seen, t, k, j, out);
      k' := k' + 1;
    case OpSave(save) =>
      k' := AddThreadSound(p, s, beyond, pc + 1, i, Stored(caps, save, i), seen, t, k, j, out);
      k' := k' + 1;
    case _ =>
      k' := k;
  }

  lemma {:induction false} StepThreadsSound(p: Program, s: Text, beyond: Char, list: seq<Thread>, i: nat,
                                            visited: set<nat>,
                                            t: Thread, k: nat, j: nat, out: Slots)
    returns (o: Thread, k': nat)
    requires Runnable(p) && ValidList(p, list) && visited <= Pcs(p) && i < |s|
    requires t in StepThreads(p, s, beyond, list, i, visited).next.added
    requires Delivers(p, s, t.pc, i + 1, t.caps, k, j, out)
    ensures o in list && Delivers(p, s, o.pc, i, o.caps, k', j, out)
    decreases |list|
  {
    var head := list[0];
    if Test(p[head.pc], s[i]) {
      var c := AddThread(p, s, beyond, head.pc + 1, i + 1, head.caps, visited);
      if t in c.added {
        k' := AddThreadSound(p, s, beyond, head.pc + 1, i + 1, head.caps, visited, t, k, j, out);
        o, k' := head, k' + 1;
      } else {
        o, k' := StepThreadsSound(p, s, beyond, list[1..], i, c.visited, t, k, j, out);
      }
    } else {
      o, k' := StepThreadsSound(p, s, beyond, list[1..], i, visited, t, k, j, out);
    }
  }

  lemma {:induction false} HitIsListed(p: Program, s: Text, beyond: Char, list: seq<Thread>, i: nat, visited: set<nat>)
    returns (o: Thread)
    requires Runnable(p) && ValidList(p, list) && visited <= Pcs(p)
    requires StepThreads(p, s, beyond, list, i, visited).hit.Hit?
    ensures o in list && p[o.pc] == OpMatch && StepThreads(p, s, beyond, list, i, visited).hit == Hit(o.caps)
    decreases |list|
  {
    var t := list[0];
    if p[t.pc] == OpMatch {
      o := t;
    } else if Test(p[t.pc], CharAt(s, beyond, i)) {
      o := HitIsListed(p, s, beyond, list[1..], i, AddThread(p, s, beyond, t.pc + 1, i + 1, t.caps, visited).visited);
    } else {
      o := HitIsListed(p, s, beyond, list[1..], i, visited);
    }
  }

  /** A reported result is delivered by some thread of the list, unless it was found before. */
  lemma {:induction false} RunSound(p: Program, s: Text, beyond: Char, list: seq<Thread>, i: nat, found: Hit)
    returns (t: Thread, k: nat, j: nat)
    requires Runnable(p) && ValidList(p, list) && i <= |s|
    requires Run(p, s, beyond, list, i, found) != found
    ensures t in list && Run(p, s, beyond, list, i, found).Hit?
    ensures i <= j <= |s| && Delivers(p, s, t.pc, i, t.caps, k, j, Run(p, s, beyond, list, i, found).caps)
    decreases |s| - i
  {
    var result := Run(p, s, beyond, list, i, found);
    var r := StepThreads(p, s, beyond, list, i, {});
    var found' := if r.hit.Hit? then r.hit else found;
    StepThreadsValid(p, s, beyond, list, i, {});
    if result == found' {
      t := HitIsListed(p, s, beyond, list, i, {});
      k, j := 0, i;
    } else {
      t, k, j := RunSound(p, s, beyond, r.next.added, i + 1, found');
      t, k := StepThreadsSound(p, s, beyond, list, i, {}, t, k, j, result.caps);
    }
  }

  // ---- Completeness: nothing a thread could do is lost when it is not added again. ----

  /** The instructions pc leads to without consuming input. */
  function Successors(p: Program, s: Text, beyond: Char, pc: nat, i: nat): set<nat>
    requires pc < |p|
  {
    match p[pc]
    case OpSplit(first, second) => {first, second}
    case OpJump(target) => {target}
    case OpAssertBegin => if i == 0 then {pc + 1} else {}
    case OpAssertEnd => if CharAt(s, beyond, i) == 0 then {pc + 1} else {}
    case OpSave(_) => {pc + 1}
    case _ => {}
  }

  predicate HasThread(list: seq<Thread>, pc: nat) {
    exists x :: 0 <= x < |list| && list[x].pc == pc
  }

  /** Everything in `added` is listed or has all its successors visited. */
  ghost predicate Covered(p: Program, s: Text, beyond: Char, i: nat, added: set<nat>, visited: set<nat>,
                          list: seq<Thread>) {
    forall q :: q in added && q < |p| ==>
      (if Listed(p[q]) then HasThread(list, q) else Successors(p, s, beyond, q, i) <= visited)
  }

  lemma HasThreadAppend(a: seq<Thread>, b: seq<Thread>, pc: nat)
    ensures HasThread(a + b, pc) <==> HasThread(a, pc) || HasThread(b, pc)
  {
    if HasThread(a, pc) {
      var x :| 0 <= x < |a| && a[x].pc == pc;
      assert (a + b)[x].pc == pc;
    }
    if HasThread(b, pc) {
      var x :| 0 <= x < |b| && b[x].pc == pc;
      assert (a + b)[|a| + x].pc == pc;
    }
  }

  lemma CoveredJoin(p: Program, s: Text, beyond: Char, i: nat, v0: set<nat>, v1: set<nat>, v2: set<nat>,
                    a: seq<Thread>, b: seq<Thread>)
    requires v0 <= v1 <= v2
    requires Covered(p, s, beyond, i, v1 - v0, v1, a) && Covered(p, s, beyond, i, v2 - v1, v2, b)
    ensures Covered(p, s, beyond, i, v2 - v0, v2, a + b)
  {
    forall q | q in v2 - v0 && q < |p|
      ensures if Listed(p[q]) then HasThread(a + b, q) else Successors(p, s, beyond, q, i) <= v2
    {
      HasThreadAppend(a, b, q);
      assert q in v1 - v0 || q in v2 - v1;
    }
  }

  lemma {:induction false} AddThreadCovers(p: Program, s: Text, beyond: Char, pc: nat, i: nat, caps: Slots,
                                           visited: set<nat>)
    requires Runnable(p) && pc < |p| && visited <= Pcs(p)
    ensures var r := AddThread(p, s, beyond, pc, i, caps, visited);
            Covered(p, s, beyond, i, r.visited - visited, r.visited, r.added)
    decreases Pcs(p) - visited
  {
    if pc !in visited {
      var seen := visited + {pc};
      match p[pc]
      case OpSplit(first, second) =>
        var a := AddThread(p, s, beyond, first, i, caps, seen);
        var b := AddThread(p, s, beyond, second, i, caps, a.visited);
        AddThreadCovers(p, s, beyond, first, i, caps, seen);
        AddThreadCovers(p, s, beyond, second, i, caps, a.visited);
        CoveredJoin(p, s, beyond, i, seen, a.visited, b.visited, a.added, b.added);
      case OpJump(target) => AddThreadCovers(p, s, beyond, target, i, caps, seen);
      case OpAssertBegin => if i == 0 { AddThreadCovers(p, s, beyond, pc + 1, i, caps, seen); }
      case OpAssertEnd => if CharAt(s, beyond, i) == 0 { AddThreadCovers(p, s, beyond, pc + 1, i, caps, seen); }
      case OpSave(save) => AddThreadCovers(p, s, beyond, pc + 1, i, Stored(caps, save, i), seen);
      case _ =>
        assert [Thread(pc, caps)][0].pc == pc;
    }
  }

  lemma {:induction false} StepThreadsCovers(p: Program, s: Text, beyond: Char, list: seq<Thread>, i: nat,
                                             visited: set<nat>)
    requires Runnable(p) && ValidList(p, list) && visited <= Pcs(p)
    ensures var r := StepThreads(p, s, beyond, list, i, visited).next;
            Covered(p, s, beyond, i + 1, r.visited - visited, r.visited, r.added)
    decreases |list|
  {
    hide Covered;
    if list == [] || p[list[0].pc] == OpMatch {
      NothingToCover(p, s, beyond, i + 1, visited);
    } else if Test(p[list[0].pc], CharAt(s, beyond, i)) {
      var t := list[0];
      var c := AddThread(p, s, beyond, t.pc + 1, i + 1, t.caps, visited);
      var rest := StepThreads(p, s, beyond, list[1..], i, c.visited).next;
      AddThreadCovers(p, s, beyond, t.pc + 1, i + 1, t.caps, visited);
      StepThreadsCovers(p, s, beyond, list[1..], i, c.visited);
      CoveredJoin(p, s, beyond, i + 1, visited, c.visited, rest.visited, c.added, rest.added);
    } else {
      StepThreadsCovers(p, s, beyond, list[1..], i, visited);
    }
  }

  lemma NothingToCover(p: Program, s: Text, beyond: Char, i: nat, visited: set<nat>)
    ensures Covered(p, s, beyond, i, visited - visited, visited, [])
  {}

  /** With no MATCH in the list, every thread whose test succeeds leaves its successor visited. */
  lemma {:induction false} StepThreadsVisits(p: Program, s: Text, beyond: Char, list: seq<Thread>, i: nat,
                                             visited: set<nat>, t: Thread)
    requires Runnable(p) && ValidList(p, list) && visited <= Pcs(p)
    requires t in list && p[t.pc] != OpMatch && Test(p[t.pc], CharAt(s, beyond, i))
    requires StepThreads(p, s, beyond, list, i, visited).hit.NoHit?
    ensures t.pc + 1 in StepThreads(p, s, beyond, list, i, visited).next.visited
    decreases |list|
  {
    var head := list[0];
    if Test(p[head.pc], CharAt(s, beyond, i)) {
      var c := AddThread(p, s, beyond, head.pc + 1, i + 1, head.caps, visited);
      if t != head { StepThreadsVisits(p, s, beyond, list[1..], i, c.visited, t); }
    } else {
      StepThreadsVisits(p, s, beyond, list[1..], i, visited, t);
    }
  }

  /** Once all visited instructions are covered, a visited instruction that can still reach MATCH has a listed
      thread that can. */
  lemma {:induction false} CoverAccepts(p: Program, s: Text, beyond: Char, i: nat, visited: set<nat>, list: seq<Thread>,
                                        pc: nat, k: nat, j: nat)
    returns (t: Thread, k': nat)
    requires i <= |s| && visited <= Pcs(p) && Covered(p, s, beyond, i, visited, visited, list) && pc in visited
    requires Delivers(p, s, pc, i, [], k, j, [])
    ensures t in list && k' <= k && Delivers(p, s, t.pc, i, [], k', j, [])
    decreases k
  {
    if Listed(p[pc]) {
      var x :| 0 <= x < |list| && list[x].pc == pc;
      t, k' := list[x], k;
    } else {
      var next :| next in Successors(p, s, beyond, pc, i) && Delivers(p, s, next, i, [], k - 1, j, []);
      t, k' := CoverAccepts(p, s, beyond, i, visited, list, next, k - 1, j);
    }
  }

  lemma {:induction false} RunKeeps(p: Program, s: Text, beyond: Char, list: seq<Thread>, i: nat, found: Hit)
    requires Runnable(p) && ValidList(p, list) && i <= |s| && found.Hit?
    ensures Run(p, s, beyond, list, i, found).Hit?
    decreases |s| - i
  {
    var r := StepThreads(p, s, beyond, list, i, {});
    StepThreadsValid(p, s, beyond, list, i, {});
    if r.next.added != [] && i != |s| {
      RunKeeps(p, s, beyond, r.next.added, i + 1, if r.hit.Hit? then r.hit else found);
    }
  }

  /** If some listed thread can reach MATCH, the run reports a match. */
  lemma {:induction false} RunComplete(p: Program, s: Text, beyond: Char, list: seq<Thread>, i: nat, found: Hit,
                                       t: Thread, k: nat, j: nat)
    requires Runnable(p) && ValidList(p, list) && i <= |s|
    requires t in list && Delivers(p, s, t.pc, i, [], k, j, [])
    ensures Run(p, s, beyond, list, i, found).Hit?
    decreases |s| - i
  {
    hide StepThreads, Run, Delivers, Covered;
    var r := StepThreads(p, s, beyond, list, i, {});
    StepThreadsValid(p, s, beyond, list, i, {});
    RunTurn(p, s, beyond, list, i, found);
    if r.hit.Hit? {
      if r.next.added != [] && i != |s| { RunKeeps(p, s, beyond, r.next.added, i + 1, r.hit); }
    } else {
      NoHitNoMatch(p, s, beyond, list, i, {}, t);
      ThreadConsumes(p, s, beyond, i, list, t, k, j);
      StepThreadsVisits(p, s, beyond, list, i, {}, t);
      StepThreadsCovers(p, s, beyond, list, i, {});
      assert r.next.visited - {} == r.next.visited;
      var t', k' := CoverAccepts(p, s, beyond, i + 1, r.next.visited, r.next.added, t.pc + 1, k - 1, j);
      RunComplete(p, s, beyond, r.next.added, i + 1, found, t', k', j);
    }
  }

  /** One position of a run. */
  lemma RunTurn(p: Program, s: Text, beyond: Char, list: seq<Thread>, i: nat, found: Hit)
    requires Runnable(p) && ValidList(p, list) && i <= |s|
    ensures var r := StepThreads(p, s, beyond, list, i, {});
            var found' := if r.hit.Hit? then r.hit else found;
            && ValidList(p, r.next.added)
            && Run(p, s, beyond, list, i, found) ==
               if r.next.added == [] || i == |s| then found' else Run(p, s, beyond, r.next.added, i + 1, found')
  {
    hide StepThreads;
    StepThreadsValid(p, s, beyond, list, i, {});
  }

  /** A listed thread that can go on and is not at MATCH consumes the character. */
  lemma ThreadConsumes(p: Program, s: Text, beyond: Char, i: nat, list: seq<Thread>, t: Thread, k: nat, j: nat)
    requires Runnable(p) && ValidList(p, list) && i <= |s| && t in list && p[t.pc] != OpMatch
    requires Delivers(p, s, t.pc, i, [], k, j, [])
    ensures i < |s| && k > 0 && Test(p[t.pc], CharAt(s, beyond, i)) && t.pc + 1 < |p|
    ensures Delivers(p, s, t.pc + 1, i + 1, [], k - 1, j, [])
  {}

  lemma {:induction false} NoHitNoMatch(p: Program, s: Text, beyond: Char, list: seq<Thread>, i: nat, visited: set<nat>,
                                        t: Thread)
    requires Runnable(p) && ValidList(p, list) && visited <= Pcs(p) && t in list
    requires StepThreads(p, s, beyond, list, i, visited).hit.NoHit?
    ensures p[t.pc] != OpMatch
    decreases |list|
  {
    var head := list[0];
    if t != head {
      if Test(p[head.pc], CharAt(s, beyond, i)) {
        NoHitNoMatch(p, s, beyond, list[1..], i,
          AddThread(p, s, beyond, head.pc + 1, i + 1, head.caps, visited).visited, t);
      } else {
        NoHitNoMatch(p, s, beyond, list[1..], i, visited, t);
      }
    }
  }

  lemma VmCompletes(p: Program, s: Text, beyond: Char, width: nat, k: nat, j: nat)
    requires Runnable(p) && Delivers(p, s, 0, 0, [], k, j, [])
    ensures VmRun(p, s, beyond, width).Hit?
  {
    hide Delivers, AddThread, Run, Covered;
    AddThreadValid(p, s, beyond, 0, 0, Nulls(width), {});
    var start := AddThread(p, s, beyond, 0, 0, Nulls(width), {});
    AddThreadCovers(p, s, beyond, 0, 0, Nulls(width), {});
    assert start.visited - {} == start.visited;
    var t, k' := CoverAccepts(p, s, beyond, 0, start.visited, start.added, 0, k, j);
    RunComplete(p, s, beyond, start.added, 0, NoHit, t, k', j);
  }


  /** The machine reports a match exactly when some run of the program reaches MATCH, whatever byte lies beyond
      the terminator and however many slots are tracked. */
  lemma VmAccepts(p: Program, s: Text, beyond: Char, width: nat)
    requires Runnable(p)
    ensures VmRun(p, s, beyond, width).Hit? <==> HasRun(p, s)
  {
    hide VmRun;
    if VmRun(p, s, beyond, width).Hit? {
      var k, j := VmSlots(p, s, beyond, width);
      SlotsIrrelevant(p, s, 0, 0, Nulls(width), k, j, VmRun(p, s, beyond, width).caps);
    }
    if HasRun(p, s) {
      var k: nat, j: nat :| Delivers(p, s, 0, 0, [], k, j, []);
      VmCompletes(p, s, beyond, width, k, j);
    }
  }

  /** The slots a match reports are those of an actual run. */
  lemma VmSlots(p: Program, s: Text, beyond: Char, width: nat) returns (k: nat, j: nat)
    requires Runnable(p) && VmRun(p, s, beyond, width).Hit?
    ensures j <= |s| && Delivers(p, s, 0, 0, Nulls(width), k, j, VmRun(p, s, beyond, width).caps)
  {
    AddThreadValid(p, s, beyond, 0, 0, Nulls(width), {});
    var start := AddThread(p, s, beyond, 0, 0, Nulls(width), {});
    var t;
    t, k, j := RunSound(p, s, beyond, start.added, 0, NoHit);
    k := AddThreadSound(p, s, beyond, 0, 0, Nulls(width), {}, t, k, j, VmRun(p, s, beyond, width).caps);
  }

  lemma {:induction false} SlotsIrrelevant(p: Program, s: Text, pc: nat, i: nat, caps: Slots, k: nat, j: nat,
                                           out: Slots)
    requires Delivers(p, s, pc, i, caps, k, j, out)
    ensures Delivers(p, s, pc, i, [], k, j, [])
    decreases k
  {
    match p[pc]
    case OpMatch =>
    case OpSplit(first, second) =>
      if Delivers(p, s, first, i, caps, k - 1, j, out) {
        SlotsIrrelevant(p, s, first, i, caps, k - 1, j, out);
      } else {
        SlotsIrrelevant(p, s, second, i, caps, k - 1, j, out);
      }
    case OpJump(target) => SlotsIrrelevant(p, s, target, i, caps, k - 1, j, out);
    case OpSave(save) => SlotsIrrelevant(p, s, pc + 1, i, Stored(caps, save, i), k - 1, j, out);
    case OpAssertBegin => SlotsIrrelevant(p, s, pc + 1, i, caps, k - 1, j, out);
    case OpAssertEnd => SlotsIrrelevant(p, s, pc + 1, i, caps, k - 1, j, out);
    case _ => SlotsIrrelevant(p, s, pc + 1, i + 1, caps, k - 1, j, out);
  }
}
