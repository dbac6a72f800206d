/** The list of bad blocks (badblocks.c): a sorted array that grows, found in by bisection and walked by an iterator
    that stays in place while blocks are added. */
module BadBlockList {

  /** The content of the list: no two blocks are equal. */
  ghost predicate Ascending(s: seq<nat>) {
    forall i, j | 0 <= i < j < |s| :: s[i] < s[j]
  }

  ghost function Members(s: seq<nat>): set<nat> {
    set x | x in s
  }

  /** A set has just one ascending enumeration, so the members say all there is to say about a list. */
  lemma {:induction false} AscendingUnique(s: seq<nat>, t: seq<nat>)
    requires Ascending(s) && Ascending(t) && Members(s) == Members(t)
    ensures s == t
  {
    if s != [] { assert s[0] in Members(t); }
    if t != [] { assert t[0] in Members(s); }
    if s != [] && t != [] {
      assert s[0] == t[0];
      forall x ensures x in Members(s[1..]) <==> x in Members(t[1..]) {
        assert x in Members(s) <==> x in Members(t);
        assert x in s <==> x == s[0] || x in s[1..];
        assert x in t <==> x == t[0] || x in t[1..];
      }
      AscendingUnique(s[1..], t[1..]);
    }
  }

  /** The blocks of an ascending list above one of its members are those that follow it. */
  lemma Above(s: seq<nat>, k: nat)
    requires Ascending(s) && k < |s|
    ensures Members(s[k + 1..]) == set x | x in Members(s) && s[k] < x
  {
    forall x | x in s && s[k] < x ensures x in s[k + 1..] {
      var i :| 0 <= i < |s| && s[i] == x;
      assert s[k + 1..][i - k - 1] == x;
    }
  }

  /** s with b put in before position j. */
  lemma Placed(s: seq<nat>, b: nat, j: nat)
    requires Ascending(s) && j <= |s|
    requires (j > 0 ==> s[j - 1] < b) && (j < |s| ==> b < s[j])
    ensures Ascending(s[..j] + [b] + s[j..]) && Members(s[..j] + [b] + s[j..]) == Members(s) + {b} && b !in s
  {
    var t := s[..j] + [b] + s[j..];
    assert forall i | 0 <= i < |t| :: t[i] == if i < j then s[i] else if i == j then b else s[i - 1];
    forall i, k | 0 <= i < k < |t| ensures t[i] < t[k] {
      if i < j && j > 0 { assert s[i] <= s[j - 1]; }
      if k > j { assert s[j] <= s[k - 1]; }
    }
    PlacedMembers(s, b, j);
  }

  lemma PlacedMembers(s: seq<nat>, b: nat, j: nat)
    requires j <= |s|
    ensures Members(s[..j] + [b] + s[j..]) == Members(s) + {b}
  {
    var t := s[..j] + [b] + s[j..];
    assert s == s[..j] + s[j..];
    forall x ensures x in t <==> x in s || x == b {}
  }

  lemma MembersAreElements(s: seq<nat>, b: nat)
    ensures b in Members(s) <==> exists i | 0 <= i < |s| :: s[i] == b
  {}

  lemma ShiftedIs(s: seq<nat>, t: seq<nat>, b: nat, j: nat)
    requires j < |t| == |s| + 1 && t[j] == b
    requires forall k | 0 <= k < j :: t[k] == s[k]
    requires forall k | j < k < |t| :: t[k] == s[k - 1]
    ensures t == s[..j] + [b] + s[j..]
  {}

  class BlockList {
    var list: array<nat>
    var num: nat

    ghost predicate Valid()
      reads this, list
    {
      num <= list.Length && list.Length > 0 && Ascending(list[..num])
    }

    ghost function Contents(): seq<nat>
      reads this, list
      requires Valid()
    {
      list[..num]
    }

    /** An empty list with room for size blocks, or for 10. */
    constructor (size: nat)
      ensures Valid() && Contents() == [] && fresh(list)
    {
      list := new nat[if size == 0 then 10 else size](_ => 0);
      num := 0;
    }

    /** Room for 100 more blocks when the array is full. */
    method Grow()
      requires Valid()
      modifies this`list
      ensures Valid() && Contents() == old(Contents()) && num < list.Length
      ensures if old(num) < old(list.Length) then list == old(list)
              else fresh(list) && list.Length == old(list.Length) + 100
    {
      if num >= list.Length {
        var bigger := new nat[list.Length + 100](_ => 0);
        for i := 0 to num
          modifies bigger
          invariant bigger[..i] == list[..i]
        {
          bigger[i] := list[i];
        }
        list := bigger;
      }
    }

    /** Moves the blocks from position j on up by one and puts blk in their place. */
    method Place(blk: nat, j: nat)
      requires Valid() && num < list.Length && j <= num
      requires (j > 0 ==> list[j - 1] < blk) && (j < num ==> blk < list[j])
      modifies this`num, list
      ensures Valid() && Contents() == old(Contents()[..j] + [blk] + Contents()[j..])
    {
      ghost var s := list[..num];
      Placed(s, blk, j);
      hide Ascending, Members;
      ShiftUp(j);
      list[j] := blk;
      num := num + 1;
      ShiftedIs(s, list[..num], blk, j);
    }

    method ShiftUp(j: nat)
      requires num < list.Length && j <= num
      modifies list
      ensures forall k | 0 <= k < j :: list[k] == old(list[k])
      ensures forall k | j < k <= num :: list[k] == old(list[k - 1])
    {
      var i := num;
      while i > j
        invariant j <= i <= num
        invariant forall k | 0 <= k < i :: list[k] == old(list[k])
        invariant forall k | i < k <= num :: list[k] == old(list[k - 1])
      {
        list[i] := list[i - 1];
        i := i - 1;
      }
    }

    /** bb_u64_list_add: the insertion of a block into the set. */
    method Add(blk: nat)
      requires Valid()
      modifies this, list
      ensures Valid() && Members(Contents()) == old(Members(Contents())) + {blk}
      ensures if old(num) < old(list.Length) then list == old(list)
              else fresh(list) && list.Length == old(list.Length) + 100
    {
      Grow();
      ghost var s := Contents();
      MembersAreElements(s, blk);
      hide Members, Ascending;
      if num != 0 && list[num - 1] == blk {
        return;
      }
      if num == 0 || list[num - 1] < blk {
        Append(blk);
        return;
      }
      var known, j := Locate(blk);
      if !known {
        Placed(s, blk, j);
        Place(blk, j);
      }
    }

    method Append(blk: nat)
      requires Valid() && num < list.Length && (num > 0 ==> list[num - 1] < blk)
      modifies this`num, list
      ensures Valid() && Members(Contents()) == old(Members(Contents())) + {blk}
    {
      ghost var s := Contents();
      Placed(s, blk, num);
      hide Members, Ascending;
      list[num] := blk;
      num := num + 1;
      assert list[..num] == s[..|s|] + [blk] + s[|s|..];
    }

    /** The search for the first block above blk. */
    method Locate(blk: nat) returns (known: bool, j: nat)
      requires Valid()
      ensures known <==> blk in Members(Contents())
      ensures !known ==> j <= num && (j > 0 ==> list[j - 1] < blk) && (j < num ==> blk < list[j])
    {
      ghost var s := Contents();
      assert forall i | 0 <= i < num :: s[i] in Members(s);
      j := num;
      var i := 0;
      while i < num
        invariant i <= num && j == num && forall k | 0 <= k < i :: list[k] < blk
      {
        if list[i] == blk {
          return true, j;
        }
        if list[i] > blk {
          return false, i;
        }
        i := i + 1;
      }
      known := false;
    }

    /** bb_u64_list_find: the position of a block, or -1 if it is not on the list. */
    method Find(blk: nat) returns (k: int)
      requires Valid()
      ensures k == -1 <==> blk !in Members(Contents())
      ensures k != -1 ==> 0 <= k < num && list[k] == blk
    {
      MembersAreElements(Contents(), blk);
      if num == 0 {
        return -1;
      }
      var low, high := 0, num - 1;
      if blk == list[low] {
        return low;
      }
      if blk == list[high] {
        return high;
      }
      k := Bisect(blk, low, high);
    }

    /** The bisection between two positions that do not hold the block. */
    method Bisect(blk: nat, from: nat, to: nat) returns (k: int)
      requires Valid() && from <= to < num && (forall i | 0 <= i < num && list[i] == blk :: from < i < to)
      ensures k == -1 <==> forall i | 0 <= i < num :: list[i] != blk
      ensures k != -1 ==> 0 <= k < num && list[k] == blk
    {
      assert forall i, j | 0 <= i < j < num :: list[..num][i] < list[..num][j];
      hide Ascending;
      var low, high := from, to;
      while low < high
        invariant from <= low <= high <= to
        invariant forall i | 0 <= i < num && list[i] == blk :: low < i < high
      {
        var mid := (low + high) / 2;
        if mid == low || mid == high {
          break;
        }
        if blk == list[mid] {
          return mid;
        }
        if blk < list[mid] {
          high := mid;
        } else {
          low := mid;
        }
      }
      return -1;
    }

    method Test(blk: nat) returns (r: bool)
      requires Valid()
      ensures r <==> blk in Members(Contents())
    {
      var k := Find(blk);
      r := !(k < 0);
    }
  }

  /** An iterator over a list: ptr blocks have been handed out. */
  class BlockIterate {
    const bb: BlockList
    var ptr: nat

    constructor (bb: BlockList)
      ensures this.bb == bb && ptr == 0
    {
      this.bb := bb;
      ptr := 0;
    }

    /** bb_u64_list_iterate: the next block, or 0 at the end. */
    method Iterate() returns (more: bool, blk: nat)
      requires bb.Valid()
      modifies this`ptr
      ensures more <==> old(ptr) < bb.num
      ensures more ==> ptr == old(ptr) + 1 && blk == bb.Contents()[old(ptr)]
      ensures !more ==> ptr == old(ptr) && blk == 0
    {
      if ptr < bb.num {
        blk := bb.list[ptr];
        ptr := ptr + 1;
        return true, blk;
      }
      return false, 0;
    }
  }

  datatype ErrorType = READ_ERROR | WRITE_ERROR | CORRUPTION_ERROR

  /** The globals of a scan: the list, what has been reported, and the iterator if there is one. */
  class Reports {
    const bb: BlockList
    const iter: BlockIterate?
    var next_bad: nat
    var num_read_errors: nat
    var num_write_errors: nat
    var num_corruption_errors: nat
    ghost var reported: seq<nat>

    constructor (bb: BlockList, iter: BlockIterate?)
      requires bb.Valid() && bb.num == 0 && (iter != null ==> iter.bb == bb && iter.ptr == 0)
      ensures Valid() && this.bb == bb && this.iter == iter && next_bad == 0 && reported == []
      ensures num_read_errors == num_write_errors == num_corruption_errors == 0
    {
      this.bb, this.iter := bb, iter;
      next_bad, num_read_errors, num_write_errors, num_corruption_errors := 0, 0, 0, 0;
      reported := [];
    }

    /** The reported blocks are those on the list, and each is in one of the counters. */
    ghost predicate Valid()
      reads this, bb, bb.list
    {
      && bb.Valid() && (iter != null ==> iter.bb == bb)
      && bb.num == num_read_errors + num_write_errors + num_corruption_errors
      && Members(reported) == Members(bb.Contents())
    }

    /** The iterator has handed out next_bad last, or nothing yet. */
    ghost predicate Attached()
      reads this, bb, bb.list, iter
      requires Valid()
    {
      && iter != null && iter.ptr <= bb.num
      && next_bad == if iter.ptr == 0 then 0 else bb.Contents()[iter.ptr - 1]
    }

    /** The blocks the iterator has still to hand out. */
    ghost function Remaining(): set<nat>
      reads this, bb, bb.list, iter
      requires Valid() && Attached()
    {
      Members(bb.Contents()[iter.ptr..])
    }

    /** An iterator that has handed out a block above the new one is moved on by one. */
    method KeepPlace(bad: nat, ghost s: seq<nat>, ghost attached: bool)
      requires bb.Valid() && Ascending(s) && bad !in Members(s) && Members(bb.Contents()) == Members(s) + {bad}
      requires iter != null ==> iter.bb == bb
      requires attached ==> iter != null && iter.ptr <= |s| && next_bad == if iter.ptr == 0 then 0 else s[iter.ptr - 1]
      modifies this`next_bad, iter
      ensures bb.num == |s| + 1
      ensures iter != null && old(next_bad) <= bad ==> iter.ptr == old(iter.ptr)
      ensures attached ==> iter.ptr <= bb.num && next_bad == old(next_bad) && (iter.ptr == 0 <==> old(iter.ptr) == 0)
      ensures attached ==> next_bad == if iter.ptr == 0 then 0 else bb.Contents()[iter.ptr - 1]
    {
      ghost var t := bb.Contents();
      ghost var j := OneMorePlace(s, t, bad);
      if iter != null && bad < next_bad {
        var more;
        more, next_bad := iter.Iterate();
      }
    }

    method Count(bad: nat, kind: ErrorType)
      modifies this`num_read_errors, this`num_write_errors, this`num_corruption_errors, this`reported
      ensures reported == old(reported) + [bad] && Members(reported) == old(Members(reported)) + {bad}
      ensures num_read_errors == old(num_read_errors) + if kind == READ_ERROR then 1 else 0
      ensures num_write_errors == old(num_write_errors) + if kind == WRITE_ERROR then 1 else 0
      ensures num_corruption_errors == old(num_corruption_errors) + if kind == CORRUPTION_ERROR then 1 else 0
    {
      PlacedMembers(reported, bad, |reported|);
      assert reported[..|reported|] + [bad] + reported[|reported|..] == reported + [bad];
      reported := reported + [bad];
      match kind {
        case READ_ERROR => num_read_errors := num_read_errors + 1;
        case WRITE_ERROR => num_write_errors := num_write_errors + 1;
        case CORRUPTION_ERROR => num_corruption_errors := num_corruption_errors + 1;
      }
    }

    /** bb_output: reports a block unless it is on the list, and says whether it did. An iterator in use keeps its
        place: the last block it handed out stays the last, and exactly the blocks above it remain. */
    method Output(bad: nat, kind: ErrorType) returns (count: nat)
      requires Valid()
      modifies this, bb, bb.list, iter
      ensures Valid() && (bb.list == old(bb.list) || fresh(bb.list))
      ensures Members(bb.Contents()) == old(Members(bb.Contents())) + {bad}
      ensures count == if bad in old(Members(bb.Contents())) then 0 else 1
      ensures reported == old(reported) + if count == 1 then [bad] else []
      ensures num_read_errors == old(num_read_errors) + if kind == READ_ERROR then count else 0
      ensures num_write_errors == old(num_write_errors) + if kind == WRITE_ERROR then count else 0
      ensures num_corruption_errors == old(num_corruption_errors) + if kind == CORRUPTION_ERROR then count else 0
      ensures iter != null && old(next_bad) <= bad ==> iter.ptr == old(iter.ptr)
      ensures old(Attached()) ==> Attached() && next_bad == old(next_bad)
      ensures old(Attached()) ==> (old(iter.ptr) == 0 <==> iter.ptr == 0)
      ensures old(Attached()) && iter.ptr > 0 ==> Remaining() == set b | b in Members(bb.Contents()) && next_bad < b
    {
      hide Ascending, Members;
      ghost var attached, s := Attached(), bb.Contents();
      var known := bb.Test(bad);
      if known {
        count := 0;
        if attached && iter.ptr > 0 { Above(s, iter.ptr - 1); }
        return;
      }
      bb.Add(bad);
      ghost var t := bb.Contents();
      KeepPlace(bad, s, attached);
      Count(bad, kind);
      if attached && iter.ptr > 0 { Above(t, iter.ptr - 1); }
      count := 1;
    }
  }

  /** The enumeration of a set with a new member is the old one with the member put in its place. */
  lemma OneMorePlace(s: seq<nat>, t: seq<nat>, bad: nat) returns (j: nat)
    requires Ascending(s) && Ascending(t) && bad !in s && Members(t) == Members(s) + {bad}
    ensures j <= |s| && t == s[..j] + [bad] + s[j..]
    ensures (j > 0 ==> s[j - 1] < bad) && (j < |s| ==> bad < s[j])
  {
    j := 0;
    while j < |s| && s[j] < bad
      invariant j <= |s| && (j > 0 ==> s[j - 1] < bad)
    {
      j := j + 1;
    }
    Placed(s, bad, j);
    AscendingUnique(t, s[..j] + [bad] + s[j..]);
  }

  /** An iterator that has come to the end, and has set next_bad to 0, goes on when a block is added: it repeats the
      last block if the new one is below that, and otherwise hands out the new one. */
  method AfterTheEnd(reports: Reports, iter: BlockIterate, bad: nat, kind: ErrorType) returns (blk: nat)
    requires reports.Valid() && reports.iter == iter && reports.next_bad == 0
    requires iter.ptr == reports.bb.num > 0 && bad !in Members(reports.bb.Contents())
    modifies reports, reports.bb, reports.bb.list, iter
    ensures reports.Valid()
    ensures var last := old(reports.bb.Contents()[reports.bb.num - 1]); blk == if bad < last then last else bad
    ensures blk in old(Members(reports.bb.Contents())) <==> bad < old(reports.bb.Contents()[reports.bb.num - 1])
  {
    hide Members, Ascending;
    ghost var s := reports.bb.Contents();
    MembersAreElements(s, s[|s| - 1]);
    MembersAreElements(s, bad);
    var _ := reports.Output(bad, kind);
    ghost var j := OneMorePlace(s, reports.bb.Contents(), bad);
    LastIsGreatest(s, j);
    var more;
    more, blk := iter.Iterate();
  }

  lemma LastIsGreatest(s: seq<nat>, j: nat)
    requires Ascending(s)
    ensures j < |s| ==> s[j] <= s[|s| - 1]
  {}

  lemma OneAndTwo()
    ensures Ascending([5]) && Ascending([3, 5]) && Members([]) == {} && Members([5]) == {5} && Members([3, 5]) == {3, 5}
  {}

  /** Such a run, in which the only block of a list is handed out twice. */
  method EndedIteratorRepeats() returns (first: nat, again: nat)
    ensures first == 5 && again == 5
  {
    OneAndTwo();
    hide Members, Ascending;
    var bb := new BlockList(0);
    var iter := new BlockIterate(bb);
    var reports := new Reports(bb, iter);
    var count := reports.Output(5, READ_ERROR);
    AscendingUnique(bb.Contents(), [5]);
    var more;
    more, first := iter.Iterate();
    more, reports.next_bad := iter.Iterate();
    count := reports.Output(3, READ_ERROR);
    AscendingUnique(bb.Contents(), [3, 5]);
    more, again := iter.Iterate();
  }
}
