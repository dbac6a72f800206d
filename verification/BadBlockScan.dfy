/** The write and read passes of the bad-block scan (badblocks.c), over a device that may do anything. */
module BadBlockScan {
  import opened BadBlockPattern
  import opened BadBlockList
  import opened BadBlockDevice
  import opened BadBlockLog
  import opened BadBlockRecovery

  const MAX_BB: nat := 256
  const PB: nat := 0x4_0000_0000_0000

  lemma SmallerProduct(x: nat, y: nat, z: nat)
    requires x <= y
    ensures x * z <= y * z
  {}

  /** The blocks among the first k from a block on whose data is not what the buffer has. */
  ghost function Differing(data: seq<Block>, buffer: seq<Block>, at: nat, k: nat): set<nat>
    requires k <= |data| <= |buffer|
  {
    if k == 0 then {}
    else Differing(data, buffer, at, k - 1) + if data[k - 1] != buffer[k - 1] then {at + k - 1} else {}
  }

  lemma {:induction false} DifferingMeaning(data: seq<Block>, buffer: seq<Block>, at: nat, k: nat)
    requires k <= |data| <= |buffer|
    ensures forall b :: b in Differing(data, buffer, at, k) <==> at <= b < at + k && data[b - at] != buffer[b - at]
  {
    if k > 0 { DifferingMeaning(data, buffer, at, k - 1); }
  }

  lemma {:induction false} DifferingGrows(data: seq<Block>, buffer: seq<Block>, at: nat, k: nat)
    requires k <= |data| <= |buffer|
    ensures Differing(data, buffer, at, k) <= Differing(data, buffer, at, |data|)
    decreases |data| - k
  {
    if k < |data| { DifferingGrows(data, buffer, at, k + 1); }
  }

  lemma DifferingSteps(data: seq<Block>, buffer: seq<Block>, at: nat, k: nat)
    requires k <= |data| <= |buffer|
    ensures Differing(data, buffer, at, 0) == {}
    ensures k > 0 ==> Differing(data, buffer, at, k) ==
                      Differing(data, buffer, at, k - 1) + if data[k - 1] != buffer[k - 1] then {at + k - 1} else {}
    ensures Differing(data, buffer, at, k) <= Differing(data, buffer, at, |data|)
  {
    DifferingGrows(data, buffer, at, k);
  }

  /** When the buffer has been filled for a complete request, these are the blocks that differ. */
  lemma DifferingIs(u: Setup, p: Pattern, stamped: bool, buffer: seq<Block>, r: Request)
    requires u.Valid() && Ready(u, p, stamped, buffer, r.first) && r.Complete() && r.Within(u)
    ensures Differing(r.data, buffer, r.first, |r.data|) == Differs(u, p, stamped, r)
  {
    hide Slice, Stamp, Differing;
    DifferingMeaning(r.data, buffer, r.first, |r.data|);
  }

  /** From position n on the sequence is in ascending order and below a limit. */
  ghost predicate Rising(s: seq<nat>, n: nat, end: nat) {
    n <= |s| && Ascending(s[n..]) && forall x | x in s[n..] :: x < end
  }

  lemma RisingOn(s: seq<nat>, n: nat, b: nat, end: nat)
    requires Rising(s, n, b) && b < end
    ensures Rising(s, n, end) && Rising(s + [b], n, end)
  {
    var t := s[n..];
    assert (s + [b])[n..] == t + [b];
    assert forall i | 0 <= i < |t| :: t[i] in t;
  }

  /** The buffer holds the pattern, except for the stamps. */
  ghost predicate Patterned(u: Setup, p: Pattern, stamped: bool, buffer: seq<Block>)
    requires u.Valid() && forall i | 0 <= i < |buffer| :: |buffer[i]| == u.size
  {
    if stamped then
      forall i, b: nat | 0 <= i < |buffer| :: Stamp(buffer[i], u.offset, b) == Stamp(Slice(p, u.size, i), u.offset, b)
    else forall i | 0 <= i < |buffer| :: buffer[i] == Slice(p, u.size, i)
  }

  /** The variables of test_rw, and the globals it uses. */
  class Scan {
    const dev: Device
    const setup: Setup
    const cancelled: nat -> bool
    const reports: Reports
    var cells: Cells
    var time: nat
    var buffer: seq<Block>
    var current: nat
    var tryout: nat
    var recover: Recover
    var bb_count: nat
    var cancel_ops: bool
    ghost var log: seq<Request> // of this phase
    ghost var begun: Recover // what recover was when it began

    constructor (dev: Device, setup: Setup, cancelled: nat -> bool, cells: Cells, reports: Reports)
      requires dev.Valid() && setup.Valid() && reports.Valid() && reports.iter == null && reports.bb.num == 0
      ensures Valid() && this.dev == dev && this.setup == setup && this.cancelled == cancelled
      ensures this.reports == reports
      ensures !cancel_ops && bb_count == 0 && recover == Nowhere
    {
      this.dev, this.setup, this.cancelled, this.cells, this.reports := dev, setup, cancelled, cells, reports;
      time, current, tryout, bb_count, cancel_ops, log := 0, setup.first, setup.atOnce, 0, false, [];
      buffer := seq(setup.atOnce, _ => seq<Byte>(setup.size, _ => 0));
      recover, begun := Nowhere, Nowhere;
    }

    ghost predicate Valid()
      reads this, reports, reports.bb, reports.bb.list
    {
      && dev.Valid() && setup.Valid() && reports.iter == null && reports.Valid()
      && bb_count == reports.bb.num
      && |buffer| == setup.atOnce && forall i | 0 <= i < |buffer| :: |buffer[i]| == setup.size
    }

    /** The blocks on the list. */
    ghost function Bad(): set<nat>
      reads this, reports, reports.bb, reports.bb.list
      requires Valid()
    {
      Members(reports.bb.Contents())
    }

    /** pattern_fill, block by block. */
    method Fill(p: Pattern, stamped: bool)
      requires Valid()
      modifies this`buffer
      ensures Valid() && Patterned(setup, p, stamped, buffer)
    {
      buffer := seq(setup.atOnce, i requires i >= 0 => Slice(p, setup.size, i));
    }

    /** Stamps every block of the buffer with the number it is about to be transferred under. */
    method StampAll(p: Pattern, stamped: bool)
      requires Valid() && Patterned(setup, p, stamped, buffer)
      modifies this`buffer
      ensures Valid() && Patterned(setup, p, stamped, buffer)
      ensures Ready(setup, p, stamped, buffer, current)
    {
      hide Slice, Stamp;
      if stamped {
        for i := 0 to setup.atOnce
          invariant Valid() && Patterned(setup, p, stamped, buffer)
          invariant forall j | 0 <= j < i :: buffer[j] == setup.Content(p, stamped, current + j, j)
        {
          StampKeepsPattern(p, i, current + i);
          buffer := buffer[i := Stamp(buffer[i], setup.offset, current + i)];
        }
      }
    }

    lemma StampKeepsPattern(p: Pattern, i: nat, b: nat)
      requires Valid() && Patterned(setup, p, true, buffer) && i < |buffer|
      ensures Stamp(buffer[i], setup.offset, b) == setup.Content(p, true, b, i)
      ensures forall a: nat :: Stamp(Stamp(buffer[i], setup.offset, b), setup.offset, a)
                            == Stamp(Slice(p, setup.size, i), setup.offset, a)
    {
      forall a: nat ensures Stamp(Stamp(buffer[i], setup.offset, b), setup.offset, a)
                         == Stamp(Slice(p, setup.size, i), setup.offset, a) {
        StampOver(Slice(p, setup.size, i), setup.offset, b, a);
      }
    }

    /** What follows a request: a block that failed on its own is reported, a request that was cut short is followed
        by single blocks, and after as many blocks as had been asked for comes the full number again. */
    method Settle(got: nat, kind: ErrorType, ghost r: Request, ghost n: nat)
      requires Valid() && 0 < tryout && current + tryout <= setup.last && kind != CORRUPTION_ERROR
      requires r.first == current && r.count == tryout && r.got == got <= tryout
      modifies this`current, this`tryout, this`recover, this`bb_count, reports, reports.bb, reports.bb.list
      ensures Valid() && (reports.bb.list == old(reports.bb.list) || fresh(reports.bb.list))
      ensures current == old(current) + r.Settled() <= setup.last
      ensures tryout == NextTryout(setup, r, current, old(recover))
      ensures recover == NextRecover(setup, r, current, old(recover))
      ensures Bad() == old(Bad()) + if r.Lone() then {r.first} else {}
      ensures old(bb_count) <= bb_count <= old(bb_count) + r.Settled()
      ensures reports.num_corruption_errors == old(reports.num_corruption_errors)
      ensures kind == READ_ERROR || !r.Lone() ==> reports.num_write_errors == old(reports.num_write_errors)
      ensures kind == WRITE_ERROR || !r.Lone() ==> reports.num_read_errors == old(reports.num_read_errors)
      ensures !r.Lone() ==> reports.reported == old(reports.reported) && bb_count == old(bb_count)
      ensures old(Rising(reports.reported, n, current)) && r.Settled() > 0 ==> Rising(reports.reported, n, current)
    {
      hide Rising, Members;
      ghost var at, reported := current, reports.reported;
      if got == 0 && tryout == 1 {
        Report(current, kind);
        current := current + 1;
      }
      current := current + got;
      if Rising(reported, n, at) && r.Settled() > 0 {
        RisingOn(reported, n, at, current);
      }
      if got != tryout {
        tryout := 1;
        if recover == Nowhere {
          recover := At(current - got + setup.atOnce);
        }
      } else if recover == At(current) {
        tryout := setup.atOnce;
        recover := Nowhere;
      }
    }

    /** bb_output, and what it adds to the count. */
    method Report(b: nat, kind: ErrorType)
      requires Valid()
      modifies this`bb_count, reports, reports.bb, reports.bb.list
      ensures Valid() && (reports.bb.list == old(reports.bb.list) || fresh(reports.bb.list))
      ensures Bad() == old(Bad()) + {b} && old(bb_count) <= bb_count <= old(bb_count) + 1
      ensures reports.reported == old(reports.reported) || reports.reported == old(reports.reported) + [b]
      ensures kind != READ_ERROR ==> reports.num_read_errors == old(reports.num_read_errors)
      ensures kind != WRITE_ERROR ==> reports.num_write_errors == old(reports.num_write_errors)
      ensures kind != CORRUPTION_ERROR || b in old(Bad()) ==>
                reports.num_corruption_errors == old(reports.num_corruption_errors)
    {
      hide Members;
      assert reports.reported + [] == reports.reported;
      var count := reports.Output(b, kind);
      bb_count := bb_count + count;
    }

    /** do_write for the blocks at the start of the buffer. */
    method DoWrite() returns (got: nat, ghost r: Request)
      requires Valid() && tryout <= |buffer|
      modifies this`cells, this`time, this`log
      ensures Valid() && (got, cells) == dev.write(old(time), old(cells), current, buffer[..tryout]) && got <= tryout
      ensures r == Request(current, tryout, got, buffer[..got]) && log == old(log) + [r]
    {
      var (n, after) := dev.write(time, cells, current, buffer[..tryout]);
      got, cells, time := n, after, time + 1;
      r := Request(current, tryout, got, buffer[..got]);
      log := log + [r];
    }

    method DoRead() returns (got: nat, data: seq<Block>, ghost r: Request)
      requires Valid()
      modifies this`time, this`log
      ensures Valid() && r == Request(current, tryout, got, data) && got == |data| <= tryout
      ensures FromRead(dev, cells, r) && log == old(log) + [r]
    {
      var (n, d) := dev.read(time, cells, current, tryout);
      got, data := n, d;
      r := Request(current, tryout, got, data);
      assert (r.got, r.data) == dev.read(time, cells, r.first, r.count);
      time := time + 1;
      log := log + [r];
    }

    /** The checks at the head of both loops. */
    method Stopped() returns (out: bool)
      requires Valid()
      modifies this`cancel_ops
      ensures Valid() && (out ==> cancel_ops) && (cancel_ops ==> out)
      ensures !out ==> bb_count < MAX_BB && !old(cancel_ops)
      ensures out ==> old(cancel_ops) || cancelled(time) || bb_count >= MAX_BB
    {
      if cancelled(time) {
        cancel_ops := true;
      }
      if cancel_ops {
        return true;
      }
      if bb_count >= MAX_BB {
        cancel_ops := true;
        return true;
      }
      return false;
    }

    /** Nothing has been requested in this phase. */
    method Begin()
      requires Valid()
      modifies this`current, this`tryout, this`log, this`begun
      ensures Valid() && current == setup.first && tryout == setup.atOnce && log == [] && begun == recover
    {
      current, tryout, log, begun := setup.first, setup.atOnce, [], recover;
    }

    method Clamp()
      requires Valid() && current < setup.last && 0 < tryout <= setup.atOnce
      modifies this`tryout
      ensures Valid() && tryout == Clamped(setup, current, old(tryout))
    {
      if current + tryout > setup.last {
        tryout := setup.last - current;
      }
    }

    // ---- The write phase. ----

    /** One turn of the write loop. */
    method WriteOnce(p: Pattern, stamped: bool, ghost m: nat) returns (ghost r: Request)
      requires Valid() && Patterned(setup, p, stamped, buffer) && Going(setup, begun, log, current, tryout, recover)
      requires current < setup.last
      modifies this`current, this`tryout, this`recover, this`bb_count, this`cells, this`time, this`log, this`buffer
      modifies reports, reports.bb, reports.bb.list
      ensures Valid() && (reports.bb.list == old(reports.bb.list) || fresh(reports.bb.list))
      ensures Patterned(setup, p, stamped, buffer) && log == old(log) + [r]
      ensures Going(setup, begun, log, current, tryout, recover)
      ensures current == old(current) + r.Settled() && (r.Settled() == 0 ==> old(tryout) > 1 && tryout == 1)
      ensures Bad() == old(Bad()) + if r.Lone() then {r.first} else {}
      ensures old(bb_count) <= bb_count <= old(bb_count) + if r.Lone() then 1 else 0
      ensures reports.num_corruption_errors == old(reports.num_corruption_errors)
      ensures reports.num_read_errors == old(reports.num_read_errors)
      ensures !r.Lone() ==> reports.num_write_errors == old(reports.num_write_errors)
      ensures !r.Lone() ==> reports.reported == old(reports.reported)
      ensures Honest(dev, setup.last) && InPlace(setup, p, stamped, old(Bad()), old(cells), old(current)) ==>
                InPlace(setup, p, stamped, Bad(), cells, current)
      ensures Storing(dev, m) ==> r.Complete()
      ensures Storing(dev, m) && old(AllComplete(log)) && InCells(setup, p, stamped, old(cells), m, old(current)) ==>
                InCells(setup, p, stamped, cells, m, current)
    {
      hide Going, AllComplete, Honest, InPlace, InCells, Storing, Patterned, Members, Rising, NextRecover;
      ghost var bad, log0, tryout0, recover0 := Bad(), log, tryout, recover;
      var got;
      got, r := WriteRequest(p, stamped, m);
      GoesOn(setup, begun, log0, current, tryout0, recover, r);
      Settle(got, WRITE_ERROR, r, 0);
      if InPlace(setup, p, stamped, bad, cells, r.first + got) {
        BadNeedNotBe(setup, p, stamped, bad, if r.Lone() then {r.first} else {}, cells, r.first + got);
      }
    }

    /** The request of a turn of the write loop. */
    method WriteRequest(p: Pattern, stamped: bool, ghost m: nat) returns (got: nat, ghost r: Request)
      requires Valid() && Patterned(setup, p, stamped, buffer) && Going(setup, begun, log, current, tryout, recover)
      requires current < setup.last
      modifies this`tryout, this`cells, this`time, this`log, this`buffer
      ensures Valid() && Patterned(setup, p, stamped, buffer) && tryout == Clamped(setup, current, old(tryout)) > 0
      ensures r == Request(current, tryout, got, r.data) && got == |r.data| <= tryout && log == old(log) + [r]
      ensures Honest(dev, setup.last) && InPlace(setup, p, stamped, Bad(), old(cells), current) ==>
                InPlace(setup, p, stamped, Bad(), cells, current + got)
      ensures Storing(dev, m) ==> r.Complete()
      ensures Storing(dev, m) && old(AllComplete(log)) && InCells(setup, p, stamped, old(cells), m, current) ==>
                InCells(setup, p, stamped, cells, m, current + got)
    {
      hide Honest, InPlace, InCells, Storing, AllComplete;
      Clamp();
      StampAll(p, stamped);
      ghost var was := cells;
      got, r := DoWrite();
      AfterWrite(p, stamped, current, tryout, got, was, Bad(), m);
    }

    lemma AfterWrite(p: Pattern, stamped: bool, at: nat, asked: nat, got: nat, was: Cells, bad: set<nat>, m: nat)
      requires Valid() && Ready(setup, p, stamped, buffer, at) && setup.first <= at && asked <= |buffer|
      requires at + asked <= setup.last && exists t :: (got, cells) == dev.write(t, was, at, buffer[..asked])
      ensures Honest(dev, setup.last) && InPlace(setup, p, stamped, bad, was, at) ==>
                InPlace(setup, p, stamped, bad, cells, at + got)
      ensures Storing(dev, m) ==> got == asked
      ensures Storing(dev, m) && setup.Position(at) == 0 && InCells(setup, p, stamped, was, m, at) ==>
                InCells(setup, p, stamped, cells, m, at + got)
    {
      var d := buffer[..asked];
      var t :| (got, cells) == dev.write(t, was, at, d);
      if Honest(dev, setup.last) && InPlace(setup, p, stamped, bad, was, at) {
        assert Kept(was, at, d, dev.write(t, was, at, d).0, dev.write(t, was, at, d).1, setup.last);
        WrittenInPlace(setup, p, stamped, buffer, at, asked, got, bad, was, cells);
      }
      if Storing(dev, m) && setup.Position(at) == 0 && InCells(setup, p, stamped, was, m, at) {
        WrittenInCells(setup, p, stamped, buffer, at, asked, was, m);
      }
    }

    /** A turn of the write loop, and what has failed by then. */
    method WriteTurn(p: Pattern, stamped: bool, ghost m: nat, ghost before: set<nat>)
      requires Valid() && Patterned(setup, p, stamped, buffer) && Going(setup, begun, log, current, tryout, recover)
      requires current < setup.last && Bad() == before + LoneBlocks(log)
      modifies this`current, this`tryout, this`recover, this`bb_count, this`cells, this`time, this`log, this`buffer
      modifies reports, reports.bb, reports.bb.list
      ensures Valid() && (reports.bb.list == old(reports.bb.list) || fresh(reports.bb.list))
      ensures Patterned(setup, p, stamped, buffer) && Going(setup, begun, log, current, tryout, recover)
      ensures current <= setup.last
      ensures current > old(current) || (current == old(current) && old(tryout) > 1 && tryout == 1)
      ensures Bad() == before + LoneBlocks(log) && old(bb_count) <= bb_count <= old(bb_count) + 1
      ensures reports.num_corruption_errors == old(reports.num_corruption_errors)
      ensures reports.num_read_errors == old(reports.num_read_errors)
      ensures LoneBlocks(log) == {} ==>
                old(LoneBlocks(log)) == {} && reports.num_write_errors == old(reports.num_write_errors)
                && reports.reported == old(reports.reported)
      ensures Honest(dev, setup.last) && InPlace(setup, p, stamped, old(Bad()), old(cells), old(current)) ==>
                InPlace(setup, p, stamped, Bad(), cells, current)
      ensures Storing(dev, m) && old(Stored(p, stamped, m)) ==> Stored(p, stamped, m)
    {
      hide Going, Patterned, Members, LoneBlocks, Honest, InPlace, InCells, Storing, AllComplete;
      ghost var log0 := log;
      ghost var r := WriteOnce(p, stamped, m);
      FoundPlus(setup, p, stamped, log0, r);
      InRange(log, |log0|);
      if Storing(dev, m) && AllComplete(log0) { StillComplete(log0, r); }
    }

    /** On a device whose writes succeed, everything is in its cells. */
    ghost predicate Stored(p: Pattern, stamped: bool, m: nat)
      reads this, reports, reports.bb, reports.bb.list
      requires Valid()
    {
      m > 0 && AllComplete(log) && LoneBlocks(log) == {} && InCells(setup, p, stamped, cells, m, current)
    }

    /** The write phase of a pass, to its end or until it is stopped. */
    method WritePhase(p: Pattern, stamped: bool, ghost m: nat) returns (out: bool)
      requires Valid() && Patterned(setup, p, stamped, buffer)
      modifies this`current, this`tryout, this`recover, this`bb_count, this`cells, this`time, this`log, this`buffer
      modifies this`cancel_ops, this`begun, reports, reports.bb, reports.bb.list
      ensures Valid() && (reports.bb.list == old(reports.bb.list) || fresh(reports.bb.list))
      ensures begun == old(recover)
      ensures Patterned(setup, p, stamped, buffer) && Going(setup, begun, log, current, tryout, recover)
      ensures Bad() == old(Bad()) + LoneBlocks(log)
      ensures old(bb_count) <= bb_count <= if old(bb_count) < MAX_BB then MAX_BB else old(bb_count)
      ensures reports.num_corruption_errors == old(reports.num_corruption_errors)
      ensures reports.num_read_errors == old(reports.num_read_errors)
      ensures LoneBlocks(log) == {} ==>
                reports.num_write_errors == old(reports.num_write_errors) && reports.reported == old(reports.reported)
      ensures if out then cancel_ops && (old(cancel_ops) || bb_count >= MAX_BB || exists t :: cancelled(t))
              else current == setup.last && cancel_ops == old(cancel_ops)
      ensures Honest(dev, setup.last) ==> InPlace(setup, p, stamped, Bad(), cells, current)
      ensures Storing(dev, m) ==> LoneBlocks(log) == {} && InCells(setup, p, stamped, cells, m, current)
      ensures Storing(dev, m) && old(recover) == Nowhere ==> recover == Nowhere
    {
      hide Honest, InPlace, InCells, Going, Patterned, Members, LoneBlocks;
      Begin();
      StartsGoing(setup, recover);
      NothingWritten(p, stamped, m);
      while current < setup.last
        invariant Valid() && (reports.bb.list == old(reports.bb.list) || fresh(reports.bb.list))
        invariant Patterned(setup, p, stamped, buffer) && current <= setup.last
        invariant Going(setup, begun, log, current, tryout, recover)
        invariant Bad() == old(Bad()) + LoneBlocks(log)
        invariant old(bb_count) <= bb_count <= if old(bb_count) < MAX_BB then MAX_BB else old(bb_count)
        invariant cancel_ops == old(cancel_ops) && begun == old(recover)
        invariant reports.num_corruption_errors == old(reports.num_corruption_errors)
        invariant reports.num_read_errors == old(reports.num_read_errors)
        invariant LoneBlocks(log) == {} ==>
                    reports.num_write_errors == old(reports.num_write_errors) &&
                    reports.reported == old(reports.reported)
        invariant Honest(dev, setup.last) ==> InPlace(setup, p, stamped, Bad(), cells, current)
        invariant Storing(dev, m) ==> Stored(p, stamped, m)
        decreases setup.last - current, if tryout > 1 then 1 else 0
      {
        out := Stopped();
        if out {
          break;
        }
        WriteTurn(p, stamped, m, old(Bad()));
      }
      out := current < setup.last;
      StillNowhere(setup, begun, log, current, tryout, recover);
    }

    /** The last request of the log asked for something. */
    lemma InRange(log: seq<Request>, k: nat)
      requires k < |log| && Going(setup, begun, log, current, tryout, recover)
      ensures log[k].Within(setup) && (log[k].Complete() ==> !log[k].Lone()) && current <= setup.last
    {}

    lemma NothingWritten(p: Pattern, stamped: bool, m: nat)
      requires Valid()
      ensures LoneBlocks([]) == {} && InPlace(setup, p, stamped, Bad(), cells, setup.first)
      ensures m > 0 ==> InCells(setup, p, stamped, cells, m, setup.first)
    {}

    // ---- The read phase. ----

    /** One turn of the read loop. */
    method ReadOnce(p: Pattern, stamped: bool, ghost n: nat) returns (out: bool, ghost r: Request)
      requires Valid() && Patterned(setup, p, stamped, buffer) && Going(setup, begun, log, current, tryout, recover)
      requires current < setup.last
      modifies this`current, this`tryout, this`recover, this`bb_count, this`time, this`log, this`buffer
      modifies reports, reports.bb, reports.bb.list
      ensures Valid() && (reports.bb.list == old(reports.bb.list) || fresh(reports.bb.list))
      ensures Patterned(setup, p, stamped, buffer) && Going(setup, begun, log, current, tryout, recover)
      ensures log == old(log) + [r] && FromRead(dev, cells, r)
      ensures current == old(current) + r.Settled() <= setup.last
      ensures (r.Settled() == 0 ==> old(tryout) > 1 && tryout == 1)
      ensures old(bb_count) <= bb_count <= old(bb_count) + setup.atOnce
      ensures out ==> PB <= setup.last * setup.size
      ensures var lone := if r.Lone() then {r.first} else {};
              old(Bad()) + lone <= Bad() <= old(Bad()) + lone + Differs(setup, p, stamped, r)
      ensures !out ==> Bad() == old(Bad()) + (if r.Lone() then {r.first} else {}) + Differs(setup, p, stamped, r)
      ensures reports.num_write_errors == old(reports.num_write_errors)
      ensures !r.Lone() ==> reports.num_read_errors == old(reports.num_read_errors)
      ensures Differs(setup, p, stamped, r) <= old(Bad()) ==>
                reports.num_corruption_errors == old(reports.num_corruption_errors)
      ensures !out && old(Rising(reports.reported, n, current)) ==> Rising(reports.reported, n, current)
    {
      hide Going, Patterned, Members, Rising, FromRead, Differs, Ready;
      var complete, data;
      complete, data, r := ReadAndSettle(p, stamped, n);
      if !complete {
        NothingDiffers(setup, p, stamped, r);
        return false, r;
      }
      DifferingIs(setup, p, stamped, buffer, r);
      out := Compare(data, n);
      SmallerProduct(current, setup.last, setup.size);
    }

    /** The request of a turn, and what follows from how much of it was read. */
    method ReadAndSettle(p: Pattern, stamped: bool, ghost n: nat)
      returns (complete: bool, data: seq<Block>, ghost r: Request)
      requires Valid() && Patterned(setup, p, stamped, buffer) && Going(setup, begun, log, current, tryout, recover)
      requires current < setup.last
      modifies this`current, this`tryout, this`recover, this`bb_count, this`time, this`log, this`buffer
      modifies reports, reports.bb, reports.bb.list
      ensures Valid() && (reports.bb.list == old(reports.bb.list) || fresh(reports.bb.list))
      ensures Patterned(setup, p, stamped, buffer) && Going(setup, begun, log, current, tryout, recover)
      ensures log == old(log) + [r] && FromRead(dev, cells, r) && r.Within(setup) && r.data == data
      ensures complete == r.Complete() && Ready(setup, p, stamped, buffer, r.first) && r.first == old(current)
      ensures current == r.first + r.Settled() <= setup.last && (r.Settled() == 0 ==> old(tryout) > 1 && tryout == 1)
      ensures old(bb_count) <= bb_count <= old(bb_count) + r.Settled()
      ensures complete ==> !r.Lone() && bb_count == old(bb_count)
      ensures Bad() == old(Bad()) + if r.Lone() then {r.first} else {}
      ensures reports.num_write_errors == old(reports.num_write_errors)
      ensures reports.num_corruption_errors == old(reports.num_corruption_errors)
      ensures !r.Lone() ==>
                reports.num_read_errors == old(reports.num_read_errors) && reports.reported == old(reports.reported)
      ensures old(Rising(reports.reported, n, current)) && r.Settled() > 0 ==> Rising(reports.reported, n, current)
    {
      hide Going, Patterned, Members, Rising, FromRead, Ready, NextRecover;
      ghost var log0, tryout0, recover0 := log, tryout, recover;
      var got;
      got, data, r := ReadRequest(p, stamped);
      GoesOn(setup, begun, log0, current, tryout0, recover, r);
      complete := got == tryout;
      Settle(got, READ_ERROR, r, n);
      InRange(log, |log0|);
    }

    /** The request of a turn of the read loop. */
    method ReadRequest(p: Pattern, stamped: bool) returns (got: nat, data: seq<Block>, ghost r: Request)
      requires Valid() && Patterned(setup, p, stamped, buffer) && Going(setup, begun, log, current, tryout, recover)
      requires current < setup.last
      modifies this`tryout, this`time, this`log, this`buffer
      ensures Valid() && Patterned(setup, p, stamped, buffer) && tryout == Clamped(setup, current, old(tryout)) > 0
      ensures r == Request(current, tryout, got, data) && got == |data| <= tryout <= |buffer| && log == old(log) + [r]
      ensures FromRead(dev, cells, r) && Ready(setup, p, stamped, buffer, current)
    {
      hide FromRead, Ready;
      Clamp();
      StampAll(p, stamped);
      got, data, r := DoRead();
    }

    /** The comparison of the blocks of a complete request with the buffer. */
    method Compare(data: seq<Block>, ghost n: nat) returns (out: bool)
      requires Valid() && |data| <= |buffer| && |data| <= current
      modifies this`bb_count, reports, reports.bb, reports.bb.list
      ensures Valid() && (reports.bb.list == old(reports.bb.list) || fresh(reports.bb.list))
      ensures old(bb_count) <= bb_count <= old(bb_count) + |data|
      ensures out ==> PB <= current * setup.size
      ensures old(Bad()) <= Bad() <= old(Bad()) + Differing(data, buffer, current - |data|, |data|)
      ensures !out ==> Bad() == old(Bad()) + Differing(data, buffer, current - |data|, |data|)
      ensures reports.num_write_errors == old(reports.num_write_errors)
      ensures reports.num_read_errors == old(reports.num_read_errors)
      ensures Differing(data, buffer, current - |data|, |data|) <= old(Bad()) ==>
                reports.num_corruption_errors == old(reports.num_corruption_errors)
      ensures !out && old(Rising(reports.reported, n, current - |data|)) ==> Rising(reports.reported, n, current)
    {
      hide Rising, Members, Differing;
      var at := current - |data|;
      DifferingSteps(data, buffer, at, 0);
      for i := 0 to |data|
        invariant Valid() && (reports.bb.list == old(reports.bb.list) || fresh(reports.bb.list))
        invariant old(bb_count) <= bb_count <= old(bb_count) + i
        invariant Bad() == old(Bad()) + Differing(data, buffer, at, i)
        invariant reports.num_write_errors == old(reports.num_write_errors)
        invariant reports.num_read_errors == old(reports.num_read_errors)
        invariant Differing(data, buffer, at, |data|) <= old(Bad()) ==>
                    reports.num_corruption_errors == old(reports.num_corruption_errors)
        invariant old(Rising(reports.reported, n, current - |data|)) ==> Rising(reports.reported, n, at + i)
      {
        DifferingSteps(data, buffer, at, i);
        DifferingSteps(data, buffer, at, i + 1);
        if Rising(reports.reported, n, at + i) {
          RisingOn(reports.reported, n, at + i, at + i + 1);
        }
        if data[i] != buffer[i] {
          if current * setup.size >= PB {
            return true;
          }
          Report(at + i, CORRUPTION_ERROR);
        }
      }
      out := false;
    }

    /** A turn of the read loop, and what has been gathered by then. */
    method ReadTurn(p: Pattern, stamped: bool, ghost n: nat, ghost before: set<nat>) returns (out: bool)
      requires Valid() && Patterned(setup, p, stamped, buffer) && Going(setup, begun, log, current, tryout, recover)
      requires current < setup.last && Gathered(dev, setup, p, stamped, cells, log, before, Bad())
      modifies this`current, this`tryout, this`recover, this`bb_count, this`time, this`log, this`buffer
      modifies reports, reports.bb, reports.bb.list
      ensures Valid() && (reports.bb.list == old(reports.bb.list) || fresh(reports.bb.list))
      ensures Patterned(setup, p, stamped, buffer) && Going(setup, begun, log, current, tryout, recover)
      ensures current <= setup.last
      ensures (current > old(current) || (current == old(current) && old(tryout) > 1 && tryout == 1))
      ensures old(bb_count) <= bb_count <= old(bb_count) + setup.atOnce
      ensures out ==> PB <= setup.last * setup.size && PartlyGathered(dev, setup, p, stamped, cells, log, before, Bad())
      ensures !out ==> Gathered(dev, setup, p, stamped, cells, log, before, Bad())
      ensures reports.num_write_errors == old(reports.num_write_errors)
      ensures LoneBlocks(log) == {} ==>
                old(LoneBlocks(log)) == {} && reports.num_read_errors == old(reports.num_read_errors)
      ensures Corrupt(setup, p, stamped, log) <= before ==>
                old(Corrupt(setup, p, stamped, log)) <= before
                && reports.num_corruption_errors == old(reports.num_corruption_errors)
      ensures !out && old(Rising(reports.reported, n, current)) ==> Rising(reports.reported, n, current)
    {
      hide Going, Patterned, Members, Rising, LoneBlocks, Corrupt, Differs, AllRead, FromRead;
      ghost var log0 := log;
      ghost var r;
      out, r := ReadOnce(p, stamped, n);
      FoundPlus(setup, p, stamped, log0, r);
      ReadPlus(dev, cells, log0, r);
    }

    /** The read phase of a pass, to its end or until it is stopped. What it puts on the list are the blocks that failed
        on their own, and those of complete requests that differ from what the buffer had for them. */
    method ReadPhase(p: Pattern, stamped: bool) returns (out: bool)
      requires Valid() && Patterned(setup, p, stamped, buffer)
      modifies this`current, this`tryout, this`recover, this`bb_count, this`time, this`log, this`buffer
      modifies this`cancel_ops, this`begun, reports, reports.bb, reports.bb.list
      ensures Valid() && (reports.bb.list == old(reports.bb.list) || fresh(reports.bb.list))
      ensures begun == old(recover)
      ensures Patterned(setup, p, stamped, buffer)
      ensures Going(setup, begun, log, current, tryout, recover) && AllRead(dev, cells, log)
      ensures old(bb_count) <= bb_count
      ensures bb_count <= if old(bb_count) < MAX_BB + setup.atOnce then MAX_BB - 1 + setup.atOnce else old(bb_count)
      ensures if out then PB <= setup.last * setup.size
                          || (cancel_ops && (old(cancel_ops) || bb_count >= MAX_BB || exists t :: cancelled(t)))
              else current == setup.last && cancel_ops == old(cancel_ops)
      ensures cancel_ops ==> old(cancel_ops) || bb_count >= MAX_BB || exists t :: cancelled(t)
      ensures old(Bad()) + LoneBlocks(log) <= Bad() <= old(Bad()) + LoneBlocks(log) + Corrupt(setup, p, stamped, log)
      ensures setup.last * setup.size < PB ==> Corrupt(setup, p, stamped, log) <= Bad()
      ensures reports.num_write_errors == old(reports.num_write_errors)
      ensures LoneBlocks(log) == {} ==> reports.num_read_errors == old(reports.num_read_errors)
      ensures Corrupt(setup, p, stamped, log) <= old(Bad()) ==>
                reports.num_corruption_errors == old(reports.num_corruption_errors)
      ensures setup.last * setup.size < PB ==> Rising(reports.reported, old(|reports.reported|), current)
    {
      hide Going, Patterned, Members, Rising, LoneBlocks, Corrupt, AllRead;
      ghost var n := |reports.reported|;
      Begin();
      StartsGoing(setup, recover);
      NothingRead(setup, p, stamped, dev, cells, reports.reported);
      while current < setup.last
        invariant Valid() && (reports.bb.list == old(reports.bb.list) || fresh(reports.bb.list))
        invariant Patterned(setup, p, stamped, buffer) && current <= setup.last
        invariant Going(setup, begun, log, current, tryout, recover)
        invariant old(bb_count) <= bb_count
        invariant bb_count <= if old(bb_count) < MAX_BB + setup.atOnce then MAX_BB - 1 + setup.atOnce else old(bb_count)
        invariant cancel_ops == old(cancel_ops) && begun == old(recover)
        invariant Gathered(dev, setup, p, stamped, cells, log, old(Bad()), Bad())
        invariant reports.num_write_errors == old(reports.num_write_errors)
        invariant LoneBlocks(log) == {} ==> reports.num_read_errors == old(reports.num_read_errors)
        invariant Corrupt(setup, p, stamped, log) <= old(Bad()) ==>
                    reports.num_corruption_errors == old(reports.num_corruption_errors)
        invariant Rising(reports.reported, n, current)
        decreases setup.last - current, if tryout > 1 then 1 else 0
      {
        out := Stopped();
        if out {
          return;
        }
        out := ReadTurn(p, stamped, n, old(Bad()));
        if out {
          return;
        }
      }
      out := false;
    }

    // ---- The passes. ----

    /** Both phases of a pass. On a device whose writes succeed, checked is how far the reads got. */
    method Pass(p: Pattern, stamped: bool, ghost m: nat) returns (out: bool, ghost checked: nat)
      requires Valid() && bb_count < MAX_BB + setup.atOnce && (stamped ==> recover == Nowhere)
      modifies this, reports, reports.bb, reports.bb.list
      ensures Valid() && (reports.bb.list == old(reports.bb.list) || fresh(reports.bb.list))
      ensures bb_count < MAX_BB + setup.atOnce
      ensures old(Bad()) <= Bad() && forall b | b in Bad() :: b in old(Bad()) || setup.first <= b < setup.last
      ensures cancel_ops ==> old(cancel_ops) || bb_count >= MAX_BB || exists t :: cancelled(t)
      ensures out ==> PB <= setup.last * setup.size || cancel_ops
      ensures Honest(dev, setup.last) && setup.size % Period(p) == 0 ==>
                reports.num_corruption_errors == old(reports.num_corruption_errors)
      ensures setup.first <= checked <= setup.last && (!out ==> checked == setup.last)
      ensures setup.last * setup.size < PB && Predictable(dev, setup, p, stamped, m) ==>
                Bad() == old(Bad()) + Predicted(dev, setup, p, stamped, m, checked)
                && reports.num_read_errors == old(reports.num_read_errors)
                && reports.num_write_errors == old(reports.num_write_errors)
                && Rising(reports.reported, old(|reports.reported|), checked)
    {
      hide Honest, InPlace, InCells, Rising, Going, Members, Patterned, LoneBlocks, Corrupt, AllRead, Predicted;
      hide Predictable, Storing;
      Fill(p, stamped);
      ghost var before := Bad();
      checked := setup.first;
      NothingRead(setup, p, stamped, dev, cells, reports.reported);
      NothingPredicted(dev, setup, p, stamped, m);
      PredictableStores(dev, setup, p, stamped, m);
      out := WritePhase(p, stamped, m);
      LogInRange(setup, p, stamped, begun, log, current, tryout, recover);
      if out {
        return;
      }
      ghost var between := Bad();
      out := ReadPhase(p, stamped);
      LogInRange(setup, p, stamped, begun, log, current, tryout, recover);
      checked := current;
      if Honest(dev, setup.last) && setup.size % Period(p) == 0 {
        GoingPhase(setup, begun, log, current, tryout, recover);
        HonestFinds(dev, setup, p, stamped, between, cells, log);
      }
      if Predictable(dev, setup, p, stamped, m) {
        PredictedFinds(dev, setup, p, stamped, cells, m, begun, log, current, tryout, recover);
      }
    }

    /** test_rw: the passes of a scan, and the number of blocks it reports. */
    method TestRw(pattern_type: int, nb_passes: int, ghost m: nat) returns (count: nat)
      requires Valid() && bb_count == 0 && !cancel_ops && recover == Nowhere
      modifies this, reports, reports.bb, reports.bb.list
      ensures Valid() && count == bb_count < MAX_BB + setup.atOnce
      ensures forall b | b in Bad() :: setup.first <= b < setup.last
      ensures cancel_ops && ValidArguments(pattern_type, nb_passes) && setup.last * setup.size <= PB ==>
                count >= MAX_BB || exists t :: cancelled(t)
      ensures !ValidArguments(pattern_type, nb_passes) || setup.last * setup.size > PB ==> cancel_ops && count == 0
      ensures Honest(dev, setup.last)
              && (ValidArguments(pattern_type, nb_passes) ==> EvenPatterns(pattern_type, nb_passes, setup.size)) ==>
                reports.num_corruption_errors == 0
      ensures ValidArguments(pattern_type, nb_passes) && setup.last * setup.size < PB && (forall t :: !cancelled(t))
              && AllPredictable(dev, setup, pattern_type, nb_passes, m) ==>
                reports.num_read_errors == 0 && reports.num_write_errors == 0
                && (count > 0 <==> SomePredicted(dev, setup, pattern_type, nb_passes, m))
      ensures ValidArguments(pattern_type, nb_passes) && setup.last * setup.size < PB && (forall t :: !cancelled(t))
              && Predictable(dev, setup, PATTERNS[pattern_type][0], setup.detect, m)
              && PredictedIn(dev, setup, pattern_type, 0, m) != {} ==>
                count > 0
    {
      hide Members, Tally, AllPredictable, SomePredicted, EvenPatterns, Honest, PredictedIn, Predictable;
      NoneBad();
      if pattern_type < 0 || pattern_type >= 5 || nb_passes < 1 || nb_passes > 4
         || setup.first * setup.size > PB || setup.last * setup.size > PB {
        cancel_ops := true;
        SmallerProduct(setup.first, setup.last, setup.size);
        return 0;
      }
      ghost var passes := Passes(pattern_type, nb_passes, m);
      CountedBad();
      TallyEnds(dev, setup, pattern_type, nb_passes, m, Quiet(), passes, Bad(),
        reports.num_read_errors, reports.num_write_errors);
      count := bb_count;
    }

    /** Below the limit of the comparison, and never cancelled. */
    ghost predicate Quiet() {
      setup.last * setup.size < PB && forall t :: !cancelled(t)
    }

    /** The loop over the passes, of which so many have been begun. */
    method Passes(pattern_type: int, nb_passes: int, ghost m: nat) returns (ghost passes: nat)
      requires Valid() && bb_count == 0 && !cancel_ops && recover == Nowhere
      requires ValidArguments(pattern_type, nb_passes)
      requires setup.last * setup.size <= PB
      modifies this, reports, reports.bb, reports.bb.list
      ensures Valid() && bb_count < MAX_BB + setup.atOnce && passes <= nb_passes
      ensures forall b | b in Bad() :: setup.first <= b < setup.last
      ensures cancel_ops ==> bb_count >= MAX_BB || exists t :: cancelled(t)
      ensures Honest(dev, setup.last) && EvenPatterns(pattern_type, nb_passes, setup.size) ==>
                reports.num_corruption_errors == 0
      ensures Tally(dev, setup, pattern_type, nb_passes, m, Quiet(), passes, Bad(),
                    reports.num_read_errors, reports.num_write_errors)
      ensures Quiet() && passes < nb_passes ==> Bad() != {}
    {
      hide Honest, Rising, Period, Members, Predicted, Predictable, AllPredictable, SomePredicted, EvenPatterns, Tally;
      NoneBad();
      ghost var quiet := Quiet();
      passes := 0;
      NothingTallied(dev, setup, pattern_type, nb_passes, m, quiet);
      for pass := 0 to nb_passes
        invariant Valid() && (reports.bb.list == old(reports.bb.list) || fresh(reports.bb.list))
        invariant bb_count < MAX_BB + setup.atOnce && passes == pass && (pass == 0 ==> recover == Nowhere)
        invariant cancel_ops ==> bb_count >= MAX_BB || exists t :: cancelled(t)
        invariant forall b | b in Bad() :: setup.first <= b < setup.last
        invariant Honest(dev, setup.last) && EvenPatterns(pattern_type, nb_passes, setup.size) ==>
                    reports.num_corruption_errors == 0
        invariant Tally(dev, setup, pattern_type, nb_passes, m, quiet, passes, Bad(),
                        reports.num_read_errors, reports.num_write_errors)
      {
        if cancel_ops {
          break;
        }
        ghost var before, re, wr := Bad(), reports.num_read_errors, reports.num_write_errors;
        var out;
        ghost var checked;
        EvenPattern(pattern_type, nb_passes, setup.size, pass);
        out, checked := Pass(PATTERNS[pattern_type][pass], setup.detect && pass == 0, m);
        CountedBad();
        OneMoreTally(dev, setup, pattern_type, nb_passes, m, quiet, pass, checked, before, Bad(),
          re, wr, reports.num_read_errors, reports.num_write_errors);
        passes := pass + 1;
        if out {
          break;
        }
      }
      CountedBad();
    }

    lemma NoneBad()
      requires Valid() && bb_count == 0
      ensures Bad() == {}
    {}

    lemma CountedBad()
      requires Valid()
      ensures bb_count == 0 <==> Bad() == {}
    {
      if bb_count > 0 { assert reports.bb.Contents()[0] in Bad(); }
    }
  }

  ghost predicate ValidArguments(pattern_type: int, nb_passes: int) {
    0 <= pattern_type < 5 && 1 <= nb_passes <= 4
  }

  /** Whole repetitions of all the patterns to be used fill a block. */
  ghost predicate EvenPatterns(pattern_type: int, nb_passes: int, size: nat)
    requires ValidArguments(pattern_type, nb_passes)
  {
    forall pass | 0 <= pass < nb_passes :: size % Period(PATTERNS[pattern_type][pass]) == 0
  }

  ghost predicate AllPredictable(dev: Device, u: Setup, pattern_type: int, nb_passes: int, m: nat)
    requires u.Valid() && ValidArguments(pattern_type, nb_passes)
  {
    forall pass | 0 <= pass < nb_passes :: Predictable(dev, u, PATTERNS[pattern_type][pass], u.detect && pass == 0, m)
  }

  /** What a whole pass finds on a predictable device. */
  ghost function PredictedIn(dev: Device, u: Setup, pattern_type: int, pass: int, m: nat): set<nat>
    requires u.Valid() && ValidArguments(pattern_type, pass + 1)
  {
    Predicted(dev, u, PATTERNS[pattern_type][pass], u.detect && pass == 0, m, u.last)
  }

  ghost predicate SomePredicted(dev: Device, u: Setup, pattern_type: int, nb_passes: int, m: nat)
    requires u.Valid() && ValidArguments(pattern_type, nb_passes)
  {
    exists pass | 0 <= pass < nb_passes :: PredictedIn(dev, u, pattern_type, pass, m) != {}
  }

  lemma EvenPattern(pattern_type: int, nb_passes: int, size: nat, pass: nat)
    requires ValidArguments(pattern_type, nb_passes) && pass < nb_passes
    ensures EvenPatterns(pattern_type, nb_passes, size) ==> size % Period(PATTERNS[pattern_type][pass]) == 0
  {
    hide Period;
  }

  /** What some passes of an undisturbed scan have found on a predictable device. */
  ghost predicate Tally(dev: Device, u: Setup, pattern_type: int, nb_passes: int, m: nat, quiet: bool,
                        passes: nat, bad: set<nat>, re: nat, wr: nat)
    requires u.Valid() && ValidArguments(pattern_type, nb_passes) && passes <= nb_passes
  {
    && (quiet && AllPredictable(dev, u, pattern_type, nb_passes, m) ==>
          re == 0 && wr == 0
          && (bad == {} <==> forall j | 0 <= j < passes :: PredictedIn(dev, u, pattern_type, j, m) == {}))
    && (quiet && passes > 0 && Predictable(dev, u, PATTERNS[pattern_type][0], u.detect, m)
        && PredictedIn(dev, u, pattern_type, 0, m) != {} ==>
          bad != {})
  }

  lemma NothingTallied(dev: Device, u: Setup, pattern_type: int, nb_passes: int, m: nat, quiet: bool)
    requires u.Valid() && ValidArguments(pattern_type, nb_passes)
    ensures Tally(dev, u, pattern_type, nb_passes, m, quiet, 0, {}, 0, 0)
  {}

  /** One more pass, which has got as far as a block; if not to the end then because much has been found. */
  lemma OneMoreTally(dev: Device, u: Setup, pattern_type: int, nb_passes: int, m: nat, quiet: bool, pass: nat, to: nat,
                     before: set<nat>, bad: set<nat>, re: nat, wr: nat, re': nat, wr': nat)
    requires u.Valid() && ValidArguments(pattern_type, nb_passes) && pass < nb_passes && to <= u.last && before <= bad
    requires Tally(dev, u, pattern_type, nb_passes, m, quiet, pass, before, re, wr)
    requires quiet && Predictable(dev, u, PATTERNS[pattern_type][pass], u.detect && pass == 0, m) ==>
               bad == before + Predicted(dev, u, PATTERNS[pattern_type][pass], u.detect && pass == 0, m, to)
               && re' == re && wr' == wr
    requires quiet && to < u.last ==> bad != {}
    ensures Tally(dev, u, pattern_type, nb_passes, m, quiet, pass + 1, bad, re', wr')
  {
    hide Predictable, Predicted;
    PredictedUpTo(dev, u, pattern_type, pass, m, to);
  }

  /** At the end, or when the scan has been given up for what it had found by then. */
  lemma TallyEnds(dev: Device, u: Setup, pattern_type: int, nb_passes: int, m: nat, quiet: bool,
                  passes: nat, bad: set<nat>, re: nat, wr: nat)
    requires u.Valid() && ValidArguments(pattern_type, nb_passes) && passes <= nb_passes
    requires Tally(dev, u, pattern_type, nb_passes, m, quiet, passes, bad, re, wr)
    requires quiet && passes < nb_passes ==> bad != {}
    ensures quiet && AllPredictable(dev, u, pattern_type, nb_passes, m) ==>
              re == 0 && wr == 0 && (bad != {} <==> SomePredicted(dev, u, pattern_type, nb_passes, m))
    ensures quiet && Predictable(dev, u, PATTERNS[pattern_type][0], u.detect, m)
            && PredictedIn(dev, u, pattern_type, 0, m) != {} ==>
              bad != {}
  {
    hide AllPredictable, Predictable, PredictedIn;
  }

  lemma PredictedUpTo(dev: Device, u: Setup, pattern_type: int, pass: int, m: nat, to: nat)
    requires u.Valid() && ValidArguments(pattern_type, pass + 1) && to <= u.last
    ensures Predicted(dev, u, PATTERNS[pattern_type][pass], u.detect && pass == 0, m, to) <=
            PredictedIn(dev, u, pattern_type, pass, m)
  {}

  /** One of the kinds of devices for which it is known what a pass finds. */
  ghost predicate Predictable(dev: Device, u: Setup, p: Pattern, stamped: bool, m: nat)
    requires u.Valid()
  {
    || (Aliasing(dev, m) && (stamped || u.last <= u.first + m))
    || (Balky(dev, m) && u.last <= m)
    || (OneShort(dev, m) && u.size % Period(p) == 0)
  }

  lemma PredictableStores(dev: Device, u: Setup, p: Pattern, stamped: bool, m: nat)
    requires u.Valid()
    ensures Predictable(dev, u, p, stamped, m) ==> m > 0 && Storing(dev, m)
  {}

  /** What it finds. */
  ghost function Predicted(dev: Device, u: Setup, p: Pattern, stamped: bool, m: nat, to: nat): set<nat>
    requires u.Valid()
  {
    if Aliasing(dev, m) then Covered(u, u.first, to, m)
    else if Balky(dev, m) then Moving(u, p, stamped, to)
    else if stamped then Leftover(u, u.first, to, m)
    else {}
  }

  lemma NothingPredicted(dev: Device, u: Setup, p: Pattern, stamped: bool, m: nat)
    requires u.Valid()
    ensures Predicted(dev, u, p, stamped, m, u.first) == {}
  {}

  lemma PredictedFinds(dev: Device, u: Setup, p: Pattern, stamped: bool, c: Cells, m: nat,
                       start: Recover, log: seq<Request>, current: nat, tryout: nat, recover: Recover)
    requires Going(u, start, log, current, tryout, recover) && (stamped ==> start == Nowhere)
    requires AllRead(dev, c, log) && Predictable(dev, u, p, stamped, m)
    requires m > 0 && InCells(u, p, stamped, c, m, u.last)
    ensures LoneBlocks(log) == {} && Corrupt(u, p, stamped, log) == Predicted(dev, u, p, stamped, m, current)
  {
    hide AllRead, InCells, LoneBlocks, Corrupt, Covered, Moving, Leftover, Chained, Paced, After, AllWithin;
    if Aliasing(dev, m) && (stamped || u.last <= u.first + m) {
      hide Going;
      AliasingFinds(dev, u, p, stamped, c, m, start, log, current, tryout, recover);
    } else if Balky(dev, m) && u.last <= m {
      hide Going;
      BalkyFinds(dev, u, p, stamped, c, m, start, log, current, tryout, recover);
    } else {
      assert Phase(u, start, log, current);
      NotAliasing(dev, m);
      NotBalky(dev, m);
      NeverLone(dev, u, c, m, log);
      if stamped {
        OneShortFinds(dev, u, p, c, m, log, current);
      } else {
        UnstampedFinds(dev, u, p, c, m, log);
      }
    }
  }

  /** When no request has been cut short there is nothing to recover from. */
  lemma StillNowhere(u: Setup, start: Recover, log: seq<Request>, current: nat, tryout: nat, recover: Recover)
    requires Going(u, start, log, current, tryout, recover)
    ensures AllComplete(log) && start == Nowhere ==> recover == Nowhere
  {
    if AllComplete(log) && start == Nowhere { NowhereKept(u, log); }
  }

  lemma GoingPhase(u: Setup, start: Recover, log: seq<Request>, current: nat, tryout: nat, recover: Recover)
    requires Going(u, start, log, current, tryout, recover)
    ensures Phase(u, start, log, current)
  {}

  /** What is found lies in the range. */
  lemma LogInRange(u: Setup, p: Pattern, stamped: bool, start: Recover, log: seq<Request>, current: nat, tryout: nat,
                   recover: Recover)
    requires u.Valid() && Going(u, start, log, current, tryout, recover)
    ensures u.first <= current <= u.last
    ensures forall b | b in LoneBlocks(log) || b in Corrupt(u, p, stamped, log) :: u.first <= b < u.last
  {
    LoneMeaning(log);
    CorruptMeaning(u, p, stamped, log);
    assert forall k | 0 <= k < |log| :: log[k].Within(u);
    hide LoneBlocks, Corrupt;
  }

  lemma StillComplete(log: seq<Request>, r: Request)
    requires AllComplete(log) && r.Complete()
    ensures AllComplete(log + [r])
  {}

  /** The list holds what it held before and what the requests have found. */
  ghost predicate Gathered(dev: Device, u: Setup, p: Pattern, stamped: bool, c: Cells, log: seq<Request>,
                           before: set<nat>, bad: set<nat>)
    requires u.Valid()
  {
    AllRead(dev, c, log) && bad == before + LoneBlocks(log) + Corrupt(u, p, stamped, log)
  }

  ghost predicate PartlyGathered(dev: Device, u: Setup, p: Pattern, stamped: bool, c: Cells, log: seq<Request>,
                                 before: set<nat>, bad: set<nat>)
    requires u.Valid()
  {
    && AllRead(dev, c, log)
    && before + LoneBlocks(log) <= bad <= before + LoneBlocks(log) + Corrupt(u, p, stamped, log)
  }

  lemma NothingDiffers(u: Setup, p: Pattern, stamped: bool, r: Request)
    requires u.Valid() && !r.Complete()
    ensures Differs(u, p, stamped, r) == {}
  {}

  lemma ReadPlus(dev: Device, c: Cells, log: seq<Request>, r: Request)
    requires AllRead(dev, c, log) && FromRead(dev, c, r)
    ensures AllRead(dev, c, log + [r])
  {}

  lemma NothingRead(u: Setup, p: Pattern, stamped: bool, dev: Device, c: Cells, reported: seq<nat>)
    requires u.Valid()
    ensures AllRead(dev, c, []) && LoneBlocks([]) == {} && Corrupt(u, p, stamped, []) == {}
    ensures Rising(reported, |reported|, u.first)
  {}

  // ---- The scan as it is called. ----

  datatype Report = Report(bb_count: nat, num_read_errors: nat, num_write_errors: nat, num_corruption_errors: nat)

  /** BadBlocks: a scan of a whole disk, 64 blocks at a time. On any device the report is consistent and bounded. A
      device that stores blocks in fewer cells than it claims to have is found out, and one that has them all and works
      is not suspected. A device that may fail but keeps what it accepts is never reported corrupt unless the third or
      fourth pattern of the fifth flash type is used; and if it is, one that reads single blocks only is. So the scan
      misjudges some honest device, on a disk of two blocks or more, exactly when those patterns are used. */
  method BadBlocks(dev: Device, cells: Cells, disk_size: nat, nb_passes: int, flash_type: int, detect_fakes: bool,
                   id_offset: nat, cancelled: nat -> bool, ghost m: nat) returns (ok: bool, report: Report)
    requires dev.Valid() && id_offset + 8 <= BLOCK_SIZE && disk_size < TWO64
    ensures report.bb_count == report.num_read_errors + report.num_write_errors + report.num_corruption_errors
    ensures report.bb_count <= 255 + 64 && report.bb_count <= disk_size / BLOCK_SIZE
    ensures Aliasing(dev, m) && m < disk_size / BLOCK_SIZE && detect_fakes && ValidArguments(flash_type, nb_passes)
            && disk_size < PB && (forall t :: !cancelled(t)) ==>
              ok && report.bb_count > 0
    ensures Aliasing(dev, m) && disk_size / BLOCK_SIZE <= m && ValidArguments(flash_type, nb_passes)
            && disk_size < PB && (forall t :: !cancelled(t)) ==>
              ok && report.bb_count == 0
    ensures Honest(dev, disk_size / BLOCK_SIZE)
            && (ValidArguments(flash_type, nb_passes) ==> !(flash_type == 4 && nb_passes > 2)) ==>
              report.num_corruption_errors == 0
    ensures Balky(dev, m) && 2 <= disk_size / BLOCK_SIZE <= m && ValidArguments(flash_type, nb_passes)
            && disk_size < PB && (forall t :: !cancelled(t)) ==>
              report.num_read_errors == 0 && report.num_write_errors == 0
              && (report.num_corruption_errors > 0 <==> flash_type == 4 && nb_passes > 2)
    ensures OneShort(dev, m) && ValidArguments(flash_type, nb_passes)
            && disk_size < PB && (forall t :: !cancelled(t)) ==>
              ok && (detect_fakes && m + 63 < disk_size / BLOCK_SIZE ==> report.bb_count > 0)
              && (!(flash_type == 4 && nb_passes > 2) ==>
                    (report.bb_count > 0 <==> detect_fakes && m + 63 < disk_size / BLOCK_SIZE))
    ensures PB + BLOCK_SIZE <= disk_size ==> !ok && report.bb_count == 0
  {
    assert PB + BLOCK_SIZE <= disk_size ==> disk_size / BLOCK_SIZE * BLOCK_SIZE > PB;
    hide Honest, Aliasing, Balky, OneShort, Period, EvenPatterns;
    hide Predictable, AllPredictable, PredictedIn, SomePredicted;
    var last := disk_size / BLOCK_SIZE;
    var bb := new BlockList(0);
    var reports := new Reports(bb, null);
    ghost var u := Setup(0, last, BLOCK_SIZE, 64, detect_fakes, id_offset);
    var scan := new Scan(dev, Setup(0, last, BLOCK_SIZE, 64, detect_fakes, id_offset), cancelled, cells, reports);
    var count := scan.TestRw(flash_type, nb_passes, m);
    if ValidArguments(flash_type, nb_passes) {
      EvenlyFilled(flash_type, nb_passes);
      AliasingScan(dev, u, flash_type, nb_passes, m);
      BalkyScan(dev, u, flash_type, nb_passes, m);
      OneShortScan(dev, u, flash_type, nb_passes, m);
    }
    assert Members(scan.reports.bb.Contents()) == scan.Bad();
    FewerThan(scan.reports.bb.Contents(), last);
    report := Report(count, reports.num_read_errors, reports.num_write_errors, reports.num_corruption_errors);
    ok := !(scan.cancel_ops && count == 0);
  }

  lemma EvenlyFilled(flash: int, passes: int)
    requires ValidArguments(flash, passes)
    ensures EvenPatterns(flash, passes, BLOCK_SIZE) <==> !(flash == 4 && passes > 2)
  {
    forall pass: nat | pass < 4
      ensures BLOCK_SIZE % Period(PATTERNS[flash][pass]) == 0 <==> !(flash == 4 && pass >= 2)
    {
      UnevenPatterns(flash, pass);
    }
    hide Period;
    if flash == 4 && passes > 2 {
      assert BLOCK_SIZE % Period(PATTERNS[flash][2]) != 0;
    }
  }

  /** An ascending list of numbers below n has at most n of them. */
  lemma {:induction false} FewerThan(s: seq<nat>, n: nat)
    requires Ascending(s) && forall b | b in Members(s) :: b < n
    ensures |s| <= n
  {
    if s != [] {
      assert s[|s| - 1] in Members(s);
      var front := s[..|s| - 1];
      forall b | b in Members(front) ensures b < s[|s| - 1] {
        var i :| 0 <= i < |front| && front[i] == b;
        assert s[i] == b;
      }
      FewerThan(front, s[|s| - 1]);
    }
  }

  lemma AliasingScan(dev: Device, u: Setup, flash: int, passes: int, m: nat)
    requires u.Valid() && u.first == 0 && ValidArguments(flash, passes)
    ensures Aliasing(dev, m) && m < u.last && u.detect ==>
              Predictable(dev, u, PATTERNS[flash][0], u.detect, m) && PredictedIn(dev, u, flash, 0, m) != {}
    ensures Aliasing(dev, m) && u.last <= m ==>
              AllPredictable(dev, u, flash, passes, m) && !SomePredicted(dev, u, flash, passes, m)
  {
    if Aliasing(dev, m) && m < u.last {
      assert UsedAgain(u, 0, m);
      assert 0 in Covered(u, 0, u.last, m);
    }
    if Aliasing(dev, m) && u.last <= m {
      assert Covered(u, 0, u.last, m) == {};
    }
  }

  lemma BalkyScan(dev: Device, u: Setup, flash: int, passes: int, m: nat)
    requires u.Valid() && u.first == 0 && u.size == BLOCK_SIZE && u.atOnce == 64 && ValidArguments(flash, passes)
    ensures Balky(dev, m) && 2 <= u.last <= m ==>
              AllPredictable(dev, u, flash, passes, m)
              && (SomePredicted(dev, u, flash, passes, m) <==> flash == 4 && passes > 2)
  {
    hide Slice, Stamp, Period;
    if Balky(dev, m) && 2 <= u.last <= m {
      NotAliasing(dev, m);
      forall pass: nat | pass < passes
        ensures PredictedIn(dev, u, flash, pass, m) != {} <==> flash == 4 && pass >= 2
      {
        MovingBlocks(u, flash, pass);
      }
      if flash == 4 && passes > 2 { assert PredictedIn(dev, u, flash, 2, m) != {}; }
    }
  }

  lemma NotAliasing(dev: Device, m: nat)
    requires Balky(dev, m) || OneShort(dev, m)
    ensures !Aliasing(dev, m)
    ensures Balky(dev, m) ==> !OneShort(dev, m)
  {
    assert dev.read(0, map[], 0, 3).0 != 3;
  }

  /** Blocks whose content moves with their position exist with the uneven patterns only. */
  lemma MovingBlocks(u: Setup, flash: nat, pass: nat)
    requires u.Valid() && u.first == 0 && u.size == BLOCK_SIZE && u.atOnce == 64 && flash < 5 && pass < 4 && u.last >= 2
    ensures Moving(u, PATTERNS[flash][pass], u.detect && pass == 0, u.last) != {} <==> flash == 4 && pass >= 2
  {
    hide Slice, Stamp, Period;
    var p, stamped := PATTERNS[flash][pass], u.detect && pass == 0;
    UnevenPatterns(flash, pass);
    if flash == 4 && pass >= 2 {
      assert u.Position(1) == 1;
      UnevenSlices(pass, 1, 0);
      assert Moves(u, p, stamped, 1);
      assert 1 in Moving(u, p, stamped, u.last);
    } else {
      forall b: nat ensures !Moves(u, p, stamped, b) {
        ContentAlike(u, p, stamped, b, u.Position(b), 0);
      }
    }
  }

  /** Leftover blocks whose cell is used again exist if the first of them is one. */
  lemma OneShortScan(dev: Device, u: Setup, flash: int, passes: int, m: nat)
    requires u.Valid() && u.first == 0 && u.size == BLOCK_SIZE && u.atOnce == 64 && ValidArguments(flash, passes)
    ensures OneShort(dev, m) ==>
              Predictable(dev, u, PATTERNS[flash][0], u.detect, m)
              && (PredictedIn(dev, u, flash, 0, m) != {} <==> u.detect && m + 63 < u.last)
    ensures OneShort(dev, m) && !(flash == 4 && passes > 2) ==>
              AllPredictable(dev, u, flash, passes, m)
              && (SomePredicted(dev, u, flash, passes, m) <==> u.detect && m + 63 < u.last)
  {
    if OneShort(dev, m) {
      hide OneShort, Period;
      NotAliasing(dev, m);
      NotBalky(dev, m);
      EvenlyFilled(flash, passes);
      UnevenPatterns(flash, 0);
      FirstLeftover(u, m);
      assert u.detect && m + 63 < u.last ==> PredictedIn(dev, u, flash, 0, m) != {};
    }
  }

  lemma FirstLeftover(u: Setup, m: nat)
    requires u.Valid() && u.first == 0 && u.atOnce == 64
    ensures Leftover(u, 0, u.last, m) != {} <==> m + 63 < u.last
  {
    assert u.Position(63) == 63;
    if m + 63 < u.last {
      assert IsLeftover(u, 63, m);
      assert 63 in Leftover(u, 0, u.last, m);
    } else {
      forall b: nat ensures !IsLeftover(u, b, m) {}
    }
  }

  lemma NotBalky(dev: Device, m: nat)
    requires OneShort(dev, m)
    ensures !Balky(dev, m)
  {
    assert dev.read(0, map[], 0, 3).0 == 2;
  }

  lemma BalkyDevice(m: nat, returned: (nat, nat) -> nat)
    requires m > 0 && forall b: nat, n: nat :: returned(b, n) == if n <= 1 then n else 0
    ensures var dev := DeviceWith(m, returned); dev.Valid() && Balky(dev, m) && Honest(dev, m)
  {
    DeviceWithCells(m, returned);
    StoringIsHonest(DeviceWith(m, returned), m, m);
  }

  lemma OneShortDevice(m: nat, returned: (nat, nat) -> nat)
    requires m > 0 && forall b: nat, n: nat :: returned(b, n) == if n <= 1 then n else n - 1
    ensures var dev := DeviceWith(m, returned); dev.Valid() && OneShort(dev, m)
  {
    DeviceWithCells(m, returned);
  }

  lemma SpottyDevice(m: nat, returned: (nat, nat) -> nat)
    requires m > 0
    requires forall b: nat, n: nat :: returned(b, n) == if b < 64 && (n > 1 || b == 63) then 0 else n
    ensures var dev := DeviceWith(m, returned);
            && dev.Valid() && Spotty(dev, m) && Storing(dev, m) && Honest(dev, m)
            && forall t: nat, c, b: nat, n: nat | b >= 64 :: dev.read(t, c, b, n).0 == n
  {
    DeviceWithCells(m, returned);
    StoringIsHonest(DeviceWith(m, returned), m, m);
  }

  /** A pass over such a device, with the first request for all of the 64 blocks and every other one for a single block,
      up to the end of the disk. All of the blocks that follow would have been returned by requests of any size. */
  method NeverFullAgain(last: nat, cells: Cells) returns (scan: Scan)
    requires 64 < last && last * BLOCK_SIZE < PB
    ensures scan.Valid() && scan.setup == Setup(0, last, BLOCK_SIZE, 64, false, 0) && scan.current == last
    ensures forall t: nat, c, b: nat, n: nat | b >= 64 :: scan.dev.read(t, c, b, n).0 == n
    ensures |scan.log| > 65 && scan.log[0].count == 64 && forall k | 0 < k < |scan.log| :: scan.log[k].count == 1
    ensures scan.Bad() == {63}
  {
    hide Spotty, Honest, Going, DeviceWith, Period, InPlace, InCells, Corrupt, LoneBlocks, Storing, Patterned;
    var returned := (b: nat, n: nat) => if b < 64 && (n > 1 || b == 63) then 0 else n;
    SpottyDevice(last, returned);
    var bb := new BlockList(0);
    var reports := new Reports(bb, null);
    scan := new Scan(DeviceWith(last, returned), Setup(0, last, BLOCK_SIZE, 64, false, 0), t => false, cells, reports);
    scan.Fill(0x55, false);
    scan.NoneBad();
    var stopped := scan.WritePhase(0x55, false, last);
    scan.CountedBad();
    ReadSpotty(scan);
  }

  /** The read phase on such a device, after everything has been written. */
  method ReadSpotty(scan: Scan)
    requires scan.Valid() && Spotty(scan.dev, scan.setup.last) && Honest(scan.dev, scan.setup.last)
    requires scan.setup == Setup(0, scan.setup.last, BLOCK_SIZE, 64, false, 0)
    requires 64 < scan.setup.last && scan.setup.last * BLOCK_SIZE < PB && (forall t :: !scan.cancelled(t))
    requires Patterned(scan.setup, 0x55, false, scan.buffer)
    requires InPlace(scan.setup, 0x55, false, {}, scan.cells, scan.setup.last)
    requires scan.bb_count == 0 && !scan.cancel_ops && scan.recover == Nowhere
    modifies scan, scan.reports, scan.reports.bb, scan.reports.bb.list
    ensures scan.Valid() && scan.current == scan.setup.last && scan.Bad() == {63}
    ensures |scan.log| > 65 && scan.log[0].count == 64 && forall k | 0 < k < |scan.log| :: scan.log[k].count == 1
  {
    hide Spotty, Honest, Going, Period, InPlace, Corrupt, LoneBlocks, Patterned, AllRead, Members;
    scan.NoneBad();
    ghost var c := scan.cells;
    var stopped := scan.ReadPhase(0x55, false);
    GoingPhase(scan.setup, scan.begun, scan.log, scan.current, scan.tryout, scan.recover);
    SpottyFinds(scan.dev, scan.setup, c, scan.setup.last, scan.log, scan.Bad());
    FewerThan(scan.reports.bb.Contents(), 64);
    SpottyReads(scan.dev, scan.setup, c, scan.setup.last, scan.log);
    LoneMeaning(scan.log);
  }

  lemma SpottyFinds(dev: Device, u: Setup, c: Cells, m: nat, log: seq<Request>, bad: set<nat>)
    requires u.Valid() && u.size == BLOCK_SIZE && AllWithin(u, log) && AllRead(dev, c, log) && Spotty(dev, m)
    requires Honest(dev, u.last) && InPlace(u, 0x55, false, {}, c, u.last)
    requires bad <= LoneBlocks(log) + Corrupt(u, 0x55, false, log)
    ensures bad <= {63}
  {
    hide Spotty, Honest, InPlace, Corrupt, LoneBlocks, AllWithin, AllRead;
    HonestFinds(dev, u, 0x55, false, {}, c, log);
    SpottyLone(dev, u, c, m, log);
  }

  /** A device that keeps everything, and fails only to read more than one block at a time, is reported corrupt. */
  method HonestDeviceMisjudged(disk_size: nat, nb_passes: int, cells: Cells) returns (ghost dev: Device, report: Report)
    requires 2 * BLOCK_SIZE <= disk_size < PB && 3 <= nb_passes <= 4
    ensures dev.Valid() && Honest(dev, disk_size / BLOCK_SIZE)
    ensures report.num_read_errors == 0 && report.num_write_errors == 0 && report.num_corruption_errors > 0
  {
    hide Honest, Balky, OneShort, Aliasing, DeviceWith;
    var m := disk_size / BLOCK_SIZE;
    var returned := (b: nat, n: nat) => if n <= 1 then n else 0;
    BalkyDevice(m, returned);
    var device := DeviceWith(m, returned);
    var ok;
    ok, report := BadBlocks(device, cells, disk_size, nb_passes, 4, true, 0, t => false, m);
    dev := device;
  }

  /** A device which has up to 63 cells fewer than blocks and returns one block fewer than it is asked for passes for
      one that has them all. */
  method FakeDeviceUnnoticed(disk_size: nat, m: nat, flash_type: int, nb_passes: int, cells: Cells)
    returns (ghost dev: Device, ok: bool, report: Report)
    requires 0 < m < disk_size / BLOCK_SIZE <= m + 63 && disk_size < PB
    requires ValidArguments(flash_type, nb_passes) && !(flash_type == 4 && nb_passes > 2)
    ensures dev.Valid() && OneShort(dev, m) && ok && report.bb_count == 0
  {
    hide Honest, Balky, OneShort, Aliasing, DeviceWith;
    var returned := (b: nat, n: nat) => if n <= 1 then n else n - 1;
    OneShortDevice(m, returned);
    var device := DeviceWith(m, returned);
    ok, report := BadBlocks(device, cells, disk_size, nb_passes, flash_type, true, 0, t => false, m);
    dev := device;
  }

  /** With the two uneven patterns a block that is kept compares equal exactly when the position in the buffer it was
      written from and the one it is compared at agree modulo 3. */
  lemma Misjudged(u: Setup, pass: nat, b: nat, i: nat, j: nat)
    requires u.Valid() && u.size == BLOCK_SIZE && (pass == 2 || pass == 3)
    ensures u.Content(PATTERNS[4][pass], false, b, i) == u.Content(PATTERNS[4][pass], false, b, j) <==> i % 3 == j % 3
  {
    UnevenSlices(pass, i, j);
  }
}
