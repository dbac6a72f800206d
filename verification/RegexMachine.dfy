/** The virtual machine as cregex_vm.c runs it: two thread lists updated in place and swapped at every position. */
module RegexMachine {
  import opened CharClass
  import opened RegexTree
  import opened RegexCompile
  import opened RegexRun
  import opened RegexVm
  import opened RegexLevels

  const MAX_MATCHES := 64

  function Width(nmatches: nat): nat {
    if nmatches <= MAX_MATCHES then nmatches else MAX_MATCHES
  }

  /** What adding a thread does once its instruction has been marked as visited. */
  ghost function Continue(p: Program, s: Text, beyond: Char, pc: nat, i: nat, caps: Slots, seen: set<nat>): Closure
    requires Runnable(p) && pc < |p| && seen <= Pcs(p)
  {
    match p[pc]
    case OpSplit(first, second) =>
      var a := AddThread(p, s, beyond, first, i, caps, seen);
      var b := AddThread(p, s, beyond, second, i, caps, a.visited);
      Closure(b.visited, a.added + b.added)
    case OpJump(target) => AddThread(p, s, beyond, target, i, caps, seen)
    case OpAssertBegin =>
      if i == 0 then AddThread(p, s, beyond, pc + 1, i, caps, seen) else Closure(seen, [])
    case OpAssertEnd =>
      if CharAt(s, beyond, i) == 0 then AddThread(p, s, beyond, pc + 1, i, caps, seen) else Closure(seen, [])
    case OpSave(save) => AddThread(p, s, beyond, pc + 1, i, Stored(caps, save, i), seen)
    case _ => Closure(seen, [Thread(pc, caps)])
  }

  lemma AddThreadContinues(p: Program, s: Text, beyond: Char, pc: nat, i: nat, caps: Slots, visited: set<nat>)
    requires Runnable(p) && pc < |p| && visited <= Pcs(p) && pc !in visited
    ensures AddThread(p, s, beyond, pc, i, caps, visited) == Continue(p, s, beyond, pc, i, caps, visited + {pc})
  {}

  lemma VisitedAgain(p: Program, s: Text, beyond: Char, pc: nat, i: nat, caps: Slots, visited: set<nat>)
    requires Runnable(p) && pc < |p| && visited <= Pcs(p) && pc in visited
    ensures AddThread(p, s, beyond, pc, i, caps, visited) == Closure(visited, [])
  {}

  /** A thread list: stamps of the position an instruction was last visited at, and the threads with their slots. */
  class ThreadList {
    var nthreads: nat
    const visited: array<int>
    const pcs: array<nat>
    const matches: seq<array<int>>

    constructor (n: nat, rows: seq<array<int>>)
      ensures nthreads == 0 && matches == rows && fresh(visited) && fresh(pcs)
      ensures visited.Length == n && pcs.Length == n
      ensures forall pc :: 0 <= pc < n ==> visited[pc] == 0
    {
      nthreads := 0;
      visited := new int[n](_ => 0);
      pcs := new nat[n](_ => 0);
      matches := rows;
    }

    ghost predicate Valid(n: nat)
      reads this, visited, pcs, matches
    {
      && visited.Length == n && pcs.Length == n && |matches| == n && nthreads <= n
      && (forall k :: 0 <= k < n ==> matches[k].Length == MAX_MATCHES)
      && (forall k, l :: 0 <= k < l < n ==> matches[k] != matches[l])
      && (forall k :: 0 <= k < n ==> matches[k] != visited)
    }

    /** The threads in the list, each with the tracked part of its slots. */
    ghost function View(n: nat, width: nat): seq<Thread>
      requires Valid(n) && width <= MAX_MATCHES
      reads this, visited, pcs, matches
    {
      seq(nthreads, k requires 0 <= k < nthreads && Valid(n) reads this, visited, pcs, matches =>
        Thread(pcs[k], matches[k][..width]))
    }

    ghost function VisitedAt(i: nat): set<nat>
      reads visited
    {
      set pc: nat | pc < visited.Length && visited[pc] == i + 1
    }

    /** No stamp is later than position i. */
    ghost predicate StampedUpTo(i: int)
      reads visited
    {
      forall q :: 0 <= q < visited.Length ==> visited[q] <= i + 1
    }

    method Append(pc: nat, slots: array<int>, n: nat, width: nat)
      requires Valid(n) && nthreads < n && width <= MAX_MATCHES && width <= slots.Length && slots !in matches
      modifies this, pcs, matches
      ensures Valid(n) && View(n, width) == old(View(n, width)) + [Thread(pc, slots[..width])]
      ensures slots[..] == old(slots[..]) && nthreads == old(nthreads) + 1
    {
      ghost var before := View(n, width);
      pcs[nthreads] := pc;
      var row := matches[nthreads];
      for x := 0 to width
        modifies row
        invariant row[..x] == slots[..x]
        invariant slots[..] == old(slots[..])
      {
        row[x] := slots[x];
      }
      nthreads := nthreads + 1;
      assert forall k | 0 <= k < nthreads - 1 :: matches[k][..] == old(matches[k][..]);
      assert forall k | 0 <= k < nthreads - 1 :: View(n, width)[k] == old(View(n, width))[k];
    }

    /** Follows branches, jumps, assertions and saves from pc; a save is undone when its continuation is done. */
    method AddThread(p: Program, s: Text, beyond: Char, pc: nat, sp: nat, slots: array<int>, nmatches: nat)
      requires Runnable(p) && pc < |p| && Valid(|p|) && Width(nmatches) <= slots.Length
      requires slots !in matches && slots != visited
      requires nthreads <= |VisitedAt(sp)| && StampedUpTo(sp)
      modifies this, visited, pcs, matches, slots
      ensures Valid(|p|) && slots[..] == old(slots[..]) && nthreads <= |VisitedAt(sp)|
      ensures var r := RegexVm.AddThread(p, s, beyond, pc, sp, old(slots[..Width(nmatches)]), old(VisitedAt(sp)));
              && VisitedAt(sp) == r.visited
              && View(|p|, Width(nmatches)) == old(View(|p|, Width(nmatches))) + r.added
      ensures StampedUpTo(sp)
      decreases Pcs(p) - VisitedAt(sp), 0
    {
      hide RegexVm.AddThread, Runnable, Continue;
      ghost var width, n := Width(nmatches), |p|;
      ghost var caps, view, before := slots[..width], View(n, width), VisitedAt(sp);
      if visited[pc] == sp + 1 {
        assert RegexVm.AddThread(p, s, beyond, pc, sp, caps, before) == Closure(before, []) by {
          VisitedAgain(p, s, beyond, pc, sp, caps, before);
        }
        return;
      }
      AddThreadContinues(p, s, beyond, pc, sp, caps, before);
      visited[pc] := sp + 1;
      assert VisitedAt(sp) == before + {pc} && View(n, width) == view;
      AddMarked(p, s, beyond, pc, sp, slots, nmatches);
    }

    /** Acts on an instruction that has just been marked as visited at this position. */
    method AddMarked(p: Program, s: Text, beyond: Char, pc: nat, sp: nat, slots: array<int>, nmatches: nat)
      requires Runnable(p) && pc < |p| && Valid(|p|) && Width(nmatches) <= slots.Length
      requires slots !in matches && slots != visited
      requires nthreads < |VisitedAt(sp)| && StampedUpTo(sp)
      modifies this, visited, pcs, matches, slots
      ensures Valid(|p|) && slots[..] == old(slots[..]) && nthreads <= |VisitedAt(sp)|
      ensures var r := Continue(p, s, beyond, pc, sp, old(slots[..Width(nmatches)]), old(VisitedAt(sp)));
              && VisitedAt(sp) == r.visited
              && View(|p|, Width(nmatches)) == old(View(|p|, Width(nmatches))) + r.added
      ensures StampedUpTo(sp)
      decreases Pcs(p) - VisitedAt(sp), 2
    {
      hide RegexVm.AddThread;
      match p[pc]
      case OpSplit(first, second) =>
        AddBoth(p, s, beyond, first, second, sp, slots, nmatches);
      case OpJump(target) =>
        AddThread(p, s, beyond, target, sp, slots, nmatches);
      case OpAssertBegin =>
        if sp == 0 {
          AddThread(p, s, beyond, pc + 1, sp, slots, nmatches);
        }
      case OpAssertEnd =>
        if CharAt(s, beyond, sp) == 0 {
          AddThread(p, s, beyond, pc + 1, sp, slots, nmatches);
        }
      case OpSave(save) =>
        AddSaved(p, s, beyond, pc, save, sp, slots, nmatches);
      case _ =>
        CountPcs(p);
        SubsetSmaller(VisitedAt(sp), Pcs(p));
        Append(pc, slots, |p|, Width(nmatches));
    }

    /** The SAVE instruction: the slot is overwritten for the continuation and then put back. */
    method AddSaved(p: Program, s: Text, beyond: Char, pc: nat, save: nat, sp: nat, slots: array<int>, nmatches: nat)
      requires Runnable(p) && pc + 1 < |p| && Valid(|p|) && Width(nmatches) <= slots.Length
      requires slots !in matches && slots != visited
      requires nthreads <= |VisitedAt(sp)| && StampedUpTo(sp)
      modifies this, visited, pcs, matches, slots
      ensures Valid(|p|) && slots[..] == old(slots[..]) && nthreads <= |VisitedAt(sp)|
      ensures var r := RegexVm.AddThread(p, s, beyond, pc + 1, sp, Stored(old(slots[..Width(nmatches)]), save, sp),
                         old(VisitedAt(sp)));
              && VisitedAt(sp) == r.visited
              && View(|p|, Width(nmatches)) == old(View(|p|, Width(nmatches))) + r.added
      ensures StampedUpTo(sp)
      decreases Pcs(p) - VisitedAt(sp), 1
    {
      hide RegexVm.AddThread, Runnable;
      ghost var width, n := Width(nmatches), |p|;
      ghost var caps, view, before := slots[..width], View(n, width), VisitedAt(sp);
      if save < nmatches && save < MAX_MATCHES {
        var saved := slots[save];
        slots[save] := sp;
        assert VisitedAt(sp) == before && View(n, width) == view;
        assert slots[..width] == caps[save := sp];
        AddThread(p, s, beyond, pc + 1, sp, slots, nmatches);
        ghost var view', visited' := View(n, width), VisitedAt(sp);
        slots[save] := saved;
        assert VisitedAt(sp) == visited' && View(n, width) == view';
      } else {
        AddThread(p, s, beyond, pc + 1, sp, slots, nmatches);
      }
    }

    /** The SPLIT instruction: the first branch takes precedence. */
    method AddBoth(p: Program, s: Text, beyond: Char, first: nat, second: nat, sp: nat, slots: array<int>,
                   nmatches: nat)
      requires Runnable(p) && first < |p| && second < |p| && Valid(|p|) && Width(nmatches) <= slots.Length
      requires slots !in matches && slots != visited
      requires nthreads <= |VisitedAt(sp)| && StampedUpTo(sp)
      modifies this, visited, pcs, matches, slots
      ensures Valid(|p|) && slots[..] == old(slots[..]) && nthreads <= |VisitedAt(sp)|
      ensures var caps := old(slots[..Width(nmatches)]);
              var a := RegexVm.AddThread(p, s, beyond, first, sp, caps, old(VisitedAt(sp)));
              var b := RegexVm.AddThread(p, s, beyond, second, sp, caps, a.visited);
              && VisitedAt(sp) == b.visited
              && View(|p|, Width(nmatches)) == old(View(|p|, Width(nmatches))) + (a.added + b.added)
      ensures StampedUpTo(sp)
      decreases Pcs(p) - VisitedAt(sp), 1
    {
      hide RegexVm.AddThread, Runnable;
      AddThread(p, s, beyond, first, sp, slots, nmatches);
      AddThread(p, s, beyond, second, sp, slots, nmatches);
    }
  }

  /** Two lists that share no storage with each other or with the caller's slots. */
  ghost predicate Apart(current: ThreadList, next: ThreadList, slots: array<int>) {
    && current != next && current.visited != next.visited && current.pcs != next.pcs
    && current.visited != slots && next.visited != slots
    && slots !in current.matches && slots !in next.matches
    && current.visited !in next.matches && next.visited !in current.matches
    && forall row :: row in current.matches ==> row !in next.matches
  }

  /** A pass over `all` that has come as far as `remaining`. */
  ghost predicate Resumes(p: Program, s: Text, beyond: Char, all: seq<Thread>, remaining: seq<Thread>, sp: nat,
                          visited: set<nat>, added: seq<Thread>, hit: Hit)
    requires Runnable(p) && ValidList(p, all) && ValidList(p, remaining) && visited <= Pcs(p)
  {
    var whole := StepThreads(p, s, beyond, all, sp, {});
    var rest := StepThreads(p, s, beyond, remaining, sp, visited);
    && whole.next.added == added + rest.next.added
    && whole.hit == if hit.Hit? then hit else rest.hit
  }

  lemma ResumeStart(p: Program, s: Text, beyond: Char, all: seq<Thread>, sp: nat)
    requires Runnable(p) && ValidList(p, all)
    ensures Resumes(p, s, beyond, all, all, sp, {}, [], NoHit)
  {}

  lemma ResumeEnd(p: Program, s: Text, beyond: Char, all: seq<Thread>, sp: nat,
                  visited: set<nat>, added: seq<Thread>, hit: Hit)
    requires Runnable(p) && ValidList(p, all) && visited <= Pcs(p)
    requires Resumes(p, s, beyond, all, [], sp, visited, added, hit)
    ensures var r := StepThreads(p, s, beyond, all, sp, {}); r.next.added == added && r.hit == hit
  {}

  /** What a pass does with its next thread. */
  lemma ResumeStep(p: Program, s: Text, beyond: Char, all: seq<Thread>, remaining: seq<Thread>, sp: nat,
                   visited: set<nat>, added: seq<Thread>)
    requires Runnable(p) && ValidList(p, all) && ValidList(p, remaining) && visited <= Pcs(p) && remaining != []
    requires Resumes(p, s, beyond, all, remaining, sp, visited, added, NoHit)
    ensures var t := remaining[0];
            if p[t.pc] == OpMatch then Resumes(p, s, beyond, all, [], sp, visited, added, Hit(t.caps))
            else if Test(p[t.pc], CharAt(s, beyond, sp)) then
              var c := AddThread(p, s, beyond, t.pc + 1, sp + 1, t.caps, visited);
              Resumes(p, s, beyond, all, remaining[1..], sp, c.visited, added + c.added, NoHit)
            else Resumes(p, s, beyond, all, remaining[1..], sp, visited, added, NoHit)
  {}

  method CopySlots(from: array<int>, to: array<int>, width: nat)
    requires from != to && width <= from.Length && width <= to.Length
    modifies to
    ensures to[..width] == from[..width] && to[width..] == old(to[width..])
  {
    for x := 0 to width
      invariant to[..x] == from[..x] && to[width..] == old(to[width..])
    {
      to[x] := from[x];
    }
  }

  /** A thread that consumed the character goes into the next list; the current one is not touched. */
  method Resume(current: ThreadList, next: ThreadList, p: Program, s: Text, beyond: Char, i: nat, sp: nat,
                nmatches: nat, ghost slots: array<int>)
    requires Runnable(p) && current.Valid(|p|) && next.Valid(|p|) && Apart(current, next, slots)
    requires i < current.nthreads && current.pcs[i] + 1 < |p|
    requires next.nthreads <= |next.VisitedAt(sp + 1)| && next.StampedUpTo(sp + 1)
    modifies next, next.visited, next.pcs, next.matches, current.matches[i]
    ensures current.Valid(|p|) && next.Valid(|p|) && next.StampedUpTo(sp + 1)
    ensures next.nthreads <= |next.VisitedAt(sp + 1)|
    ensures current.View(|p|, Width(nmatches)) == old(current.View(|p|, Width(nmatches)))
    ensures var caps := old(current.View(|p|, Width(nmatches))[i].caps);
            var r := RegexVm.AddThread(p, s, beyond, old(current.pcs[i]) + 1, sp + 1,
                    caps, old(next.VisitedAt(sp + 1)));
            && next.VisitedAt(sp + 1) == r.visited
            && next.View(|p|, Width(nmatches)) == old(next.View(|p|, Width(nmatches))) + r.added
  {
    hide Runnable, RegexVm.AddThread;
    ghost var width := Width(nmatches);
    ghost var was := current.View(|p|, width);
    next.AddThread(p, s, beyond, current.pcs[i] + 1, sp + 1, current.matches[i], nmatches);
    forall k | 0 <= k < current.nthreads
      ensures current.matches[k][..width] == was[k].caps && current.pcs[k] == was[k].pc
    {
      assert current.matches[k] in current.matches;
    }
    assert current.View(|p|, width) == was;
  }

  /** One pass over the threads waiting at position sp. */
  method StepAll(current: ThreadList, next: ThreadList, p: Program, s: Text, beyond: Char, sp: nat,
                 slots: array<int>, nmatches: nat, before: bool)
    returns (matched: bool)
    requires Runnable(p) && current.Valid(|p|) && next.Valid(|p|) && Apart(current, next, slots)
    requires Width(nmatches) <= slots.Length
    requires ValidList(p, current.View(|p|, Width(nmatches)))
    requires next.nthreads == 0 && next.StampedUpTo(sp) && next.VisitedAt(sp + 1) == {}
    modifies current, current.matches, next, next.visited, next.pcs, next.matches, slots
    ensures current.Valid(|p|) && next.Valid(|p|) && next.StampedUpTo(sp + 1)
    ensures var r := StepThreads(p, s, beyond, old(current.View(|p|, Width(nmatches))), sp, {});
            && next.View(|p|, Width(nmatches)) == r.next.added
            && matched == (before || r.hit.Hit?)
            && slots[..Width(nmatches)] == (if r.hit.Hit? then r.hit.caps else old(slots[..Width(nmatches)]))
    ensures slots[Width(nmatches)..] == old(slots[Width(nmatches)..])
  {
    hide Runnable, Resumes, RegexVm.AddThread, StepThreads;
    var width := Width(nmatches);
    ghost var n, all, hit := |p|, current.View(|p|, width), NoHit;
    ghost var remaining := all;
    matched := before;
    var i := 0;
    ResumeStart(p, s, beyond, all, sp);
    assert next.View(n, width) == [];
    while i < current.nthreads
      modifies current, current.matches, next, next.visited, next.pcs, next.matches, slots
      invariant current.Valid(n) && next.Valid(n) && next.StampedUpTo(sp + 1)
      invariant next.nthreads <= |next.VisitedAt(sp + 1)| && next.VisitedAt(sp + 1) <= Pcs(p)
      invariant i <= |all|
      invariant if hit.NoHit? then current.View(n, width) == all && remaining == all[i..]
                else current.nthreads == 0 && remaining == []
      invariant ValidList(p, remaining)
      invariant Resumes(p, s, beyond, all, remaining, sp, next.VisitedAt(sp + 1), next.View(n, width), hit)
      invariant matched == (before || hit.Hit?)
      invariant slots[..width] == if hit.Hit? then hit.caps else old(slots[..width])
      invariant slots[width..] == old(slots[width..])
      decreases |all| - i
    {
      ResumeStep(p, s, beyond, all, remaining, sp, next.VisitedAt(sp + 1), next.View(n, width));
      assert remaining[0] == current.View(n, width)[i] && remaining[1..] == all[i + 1..];
      var pc := current.pcs[i];
      if p[pc] == OpMatch {
        matched := true;
        current.nthreads := 0;
        CopySlots(current.matches[i], slots, width);
        hit, remaining := Hit(remaining[0].caps), [];
      } else {
        if Test(p[pc], CharAt(s, beyond, sp)) {
          Resume(current, next, p, s, beyond, i, sp, nmatches, slots);
        }
        remaining := remaining[1..];
      }
      i := i + 1;
    }
    ResumeEnd(p, s, beyond, all, sp, next.VisitedAt(sp + 1), next.View(n, width), hit);
  }

  /** Nothing is recorded yet. */
  method ClearSlots(slots: array<int>)
    modifies slots
    ensures slots[..] == Nulls(slots.Length)
  {
    for x := 0 to slots.Length
      invariant slots[..x] == Nulls(x)
    {
      slots[x] := NULL;
    }
  }

  /** Rows of slots for n threads. */
  method NewRows(n: nat) returns (rows: seq<array<int>>)
    ensures |rows| == n && fresh(rows)
    ensures forall k :: 0 <= k < n ==> rows[k].Length == MAX_MATCHES
    ensures forall k, l :: 0 <= k < l < n ==> rows[k] != rows[l]
  {
    rows := [];
    while |rows| < n
      invariant |rows| <= n && fresh(rows)
      invariant forall k :: 0 <= k < |rows| ==> rows[k].Length == MAX_MATCHES
      invariant forall k, l :: 0 <= k < l < |rows| ==> rows[k] != rows[l]
    {
      var row := new int[MAX_MATCHES](_ => NULL);
      rows := rows + [row];
    }
  }

  /** The main loop: one pass per position, after which the two lists change places. */
  method RunThreads(first: ThreadList, second: ThreadList, p: Program, s: Text, beyond: Char,
                    slots: array<int>, nmatches: nat)
    returns (matched: bool)
    requires Runnable(p) && first.Valid(|p|) && second.Valid(|p|) && Apart(first, second, slots)
    requires Width(nmatches) <= slots.Length && ValidList(p, first.View(|p|, Width(nmatches)))
    requires first.StampedUpTo(0) && second.StampedUpTo(-1) && second.nthreads == 0
    modifies first, first.visited, first.pcs, first.matches, second, second.visited, second.pcs, second.matches, slots
    ensures var width := Width(nmatches);
            var result := Run(p, s, beyond, old(first.View(|p|, width)), 0, NoHit);
            && matched == result.Hit?
            && slots[..width] == (if matched then result.caps else old(slots[..width]))
            && slots[width..] == old(slots[width..])
  {
    hide Runnable, StepThreads;
    ghost var n, width := |p|, Width(nmatches);
    ghost var result := Run(p, s, beyond, first.View(n, width), 0, NoHit);
    var current, next := first, second;
    var sp := 0;
    matched := false;
    while true
      modifies first, first.visited, first.pcs, first.matches, second, second.visited, second.pcs, second.matches, slots
      invariant sp <= |s|
      invariant (current == first && next == second) || (current == second && next == first)
      invariant current.Valid(n) && next.Valid(n) && Apart(current, next, slots)
      invariant next.StampedUpTo(sp - 1) && current.StampedUpTo(sp) && next.nthreads == 0
      invariant ValidList(p, current.View(n, width))
      invariant Run(p, s, beyond, current.View(n, width), sp, if matched then Hit(slots[..width]) else NoHit) == result
      invariant !matched ==> slots[..width] == old(slots[..width])
      invariant slots[width..] == old(slots[width..])
      decreases |s| - sp
    {
      ghost var list, found := current.View(n, width), if matched then Hit(slots[..width]) else NoHit;
      StepThreadsValid(p, s, beyond, list, sp, {});
      RunStep(p, s, beyond, list, sp, found);
      hide Run;
      assert next.VisitedAt(sp + 1) == {};
      matched := StepAll(current, next, p, s, beyond, sp, slots, nmatches, matched);
      current, next := next, current;
      next.nthreads := 0;
      if current.nthreads == 0 || sp == |s| {
        assert current.nthreads == 0 <==> current.View(n, width) == [];
        return;
      }
      sp := sp + 1;
    }
  }

  lemma RunStep(p: Program, s: Text, beyond: Char, list: seq<Thread>, i: nat, found: Hit)
    requires Runnable(p) && ValidList(p, list) && i <= |s|
    ensures var r := StepThreads(p, s, beyond, list, i, {});
            var found' := if r.hit.Hit? then r.hit else found;
            && ValidList(p, r.next.added)
            && Run(p, s, beyond, list, i, found) ==
               if r.next.added == [] || i == |s| then found' else Run(p, s, beyond, r.next.added, i + 1, found')
  {
    StepThreadsValid(p, s, beyond, list, i, {});
  }

  /** Runs a program on a string. The slots are those of the match found, or all NULL; slots past the 64th are
      never written. */
  method RunProgram(p: Program, s: Text, beyond: Char, slots: array<int>, nmatches: nat) returns (matched: bool)
    requires Runnable(p) && slots.Length == nmatches
    modifies slots
    ensures var result, width := VmRun(p, s, beyond, Width(nmatches)), Width(nmatches);
            && matched == result.Hit?
            && slots[..width] == (if matched then result.caps else Nulls(width))
            && slots[width..] == Nulls(nmatches - width)
  {
    hide RegexVm.AddThread, Run;
    ghost var n, width := |p|, Width(nmatches);
    ClearSlots(slots);
    assert slots[..width] == Nulls(width) && slots[width..] == Nulls(nmatches - width);
    var rows := NewRows(|p|);
    var current := new ThreadList(|p|, rows);
    rows := NewRows(|p|);
    var next := new ThreadList(|p|, rows);
    AddThreadValid(p, s, beyond, 0, 0, Nulls(width), {});
    assert current.View(n, width) == [] && current.VisitedAt(0) == {};
    current.AddThread(p, s, beyond, 0, 0, slots, nmatches);
    assert current.View(n, width) == RegexVm.AddThread(p, s, beyond, 0, 0, Nulls(width), {}).added;
    matched := RunThreads(current, next, p, s, beyond, slots, nmatches);
  }
}
