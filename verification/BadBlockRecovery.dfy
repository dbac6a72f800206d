/** How the requests of a phase of the bad-block scan get smaller and larger again (badblocks.c): when full requests
    resume after one was cut short, and what that means for a device that cuts every one of them short. */
module BadBlockRecovery {
  import opened BadBlockPattern
  import opened BadBlockDevice
  import opened BadBlockLog

  // ---- One request after the other. ----

  lemma {:induction false} PacedAt(u: Setup, start: Recover, log: seq<Request>, k: nat)
    requires u.Valid() && Paced(u, start, log) && k < |log|
    ensures log[k].first <= u.last && log[k].count == Clamped(u, log[k].first, After(u, start, log[..k]).tryout)
    ensures After(u, start, log[..k + 1]) == Next(u, After(u, start, log[..k]), log[k])
  {
    var front := log[..|log| - 1];
    if k < |front| {
      PacedAt(u, start, front, k);
      assert front[..k] == log[..k] && front[..k + 1] == log[..k + 1];
    } else {
      assert log[..k + 1] == log && log[..k] == front;
      assert log[..k + 1][..|log[..k + 1]| - 1] == front;
    }
  }

  lemma {:induction false} ChainedAt(log: seq<Request>, first: nat, end: nat, k: nat)
    requires Chained(log, first, end) && k < |log|
    ensures log[k].first + log[k].Settled() == if k + 1 < |log| then log[k + 1].first else end
  {
    if k < |log| - 1 { ChainedAt(log[..|log| - 1], first, log[|log| - 1].first, k); }
  }

  /** What is known of a phase that has come to its end or been stopped. */
  ghost predicate Phase(u: Setup, start: Recover, log: seq<Request>, end: nat) {
    u.Valid() && Chained(log, u.first, end) && AllWithin(u, log) && Paced(u, start, log)
  }

  /** A turn with single blocks: it is done with one block, and goes on in the same way unless that block was
      transferred and lies just before the point of recovery. */
  lemma SingleTurn(u: Setup, start: Recover, log: seq<Request>, end: nat, k: nat, x: nat)
    requires Phase(u, start, log, end) && k < |log| && After(u, start, log[..k]) == Mode(1, At(x))
    ensures log[k].count == 1 && log[k].first + 1 == if k + 1 < |log| then log[k + 1].first else end
    ensures After(u, start, log[..k + 1]) ==
            if log[k].first + 1 == x && log[k].Complete() then Mode(u.atOnce, Nowhere) else Mode(1, At(x))
  {
    hide After, Paced, Chained;
    PacedAt(u, start, log, k);
    ChainedAt(log, u.first, end, k);
    assert log[k].Within(u);
  }

  /** Up to the point of recovery there are single blocks. */
  lemma {:induction false} SinglesBefore(u: Setup, start: Recover, log: seq<Request>, end: nat, k: nat, x: nat, d: nat)
    requires Phase(u, start, log, end) && k < |log| && After(u, start, log[..k]) == Mode(1, At(x))
    requires log[k].first + d < x <= end
    ensures k + d < |log| && After(u, start, log[..k + d]) == Mode(1, At(x)) && log[k + d].first == log[k].first + d
    decreases d
  {
    hide After, Phase;
    if d > 0 {
      SinglesBefore(u, start, log, end, k, x, d - 1);
      SingleTurn(u, start, log, end, k + d - 1, x);
    }
  }

  /** Once it has been passed there are single blocks to the end of the phase. */
  lemma {:induction false} SinglesAfter(u: Setup, start: Recover, log: seq<Request>, end: nat, k: nat, x: nat, i: nat)
    requires Phase(u, start, log, end) && k <= i < |log|
    requires After(u, start, log[..k]) == Mode(1, At(x)) && log[k].first >= x
    ensures After(u, start, log[..i]) == Mode(1, At(x)) && log[i].first >= x && log[i].count == 1
    decreases i - k
  {
    hide After, Phase;
    if i > k {
      SinglesAfter(u, start, log, end, k, x, i - 1);
      SingleTurn(u, start, log, end, i - 1, x);
    }
    SingleTurn(u, start, log, end, i, x);
  }

  /** A request for several blocks that is cut short sets the point of recovery where it would have ended, had it been a
      full one, unless there is one already. */
  lemma CutShort(u: Setup, start: Recover, log: seq<Request>, end: nat, k: nat)
    requires Phase(u, start, log, end) && k < |log| && log[k].got < log[k].count && log[k].count > 1
    ensures After(u, start, log[..k + 1]) ==
            Mode(1, if After(u, start, log[..k]).recover == Nowhere then At(log[k].first + u.atOnce)
                    else After(u, start, log[..k]).recover)
  {
    hide After, Paced, Chained;
    PacedAt(u, start, log, k);
    assert log[k].Within(u);
  }

  /** After request k the scan goes block by block and is to recover at x. All requests up to there are for single
      blocks, the last of them for x - 1, and the next one, at x, is for as many blocks as ever if x - 1 was
      transferred. If it was not, no request of the phase asks for more than one block again. */
  lemma FullSizeResumes(u: Setup, start: Recover, log: seq<Request>, end: nat, k: nat, x: nat) returns (j: nat)
    requires Phase(u, start, log, end) && k < |log| && After(u, start, log[..k]) == Mode(1, At(x))
    requires log[k].first < x < end
    ensures j == k + (x - log[k].first) < |log| && log[j].first == x
    ensures forall i | k <= i < j :: log[i].first == log[k].first + (i - k) && log[i].count == 1
    ensures if log[j - 1].Complete() then log[j].count == Clamped(u, x, u.atOnce)
            else forall i | j <= i < |log| :: log[i].count == 1
  {
    hide After, Phase;
    j := k + (x - log[k].first);
    SinglesBefore(u, start, log, end, k, x, x - log[k].first - 1);
    SingleTurn(u, start, log, end, j - 1, x);
    forall i | k <= i < j ensures log[i].first == log[k].first + (i - k) && log[i].count == 1 {
      SinglesBefore(u, start, log, end, k, x, i - k);
      SingleTurn(u, start, log, end, i, x);
    }
    if log[j - 1].Complete() {
      Asks(u, start, log, end, j);
    } else {
      forall i | j <= i < |log| ensures log[i].count == 1 {
        SinglesAfter(u, start, log, end, j, x, i);
      }
    }
  }

  lemma Asks(u: Setup, start: Recover, log: seq<Request>, end: nat, k: nat)
    requires Phase(u, start, log, end) && k < |log|
    ensures log[k].first <= u.last && log[k].count == Clamped(u, log[k].first, After(u, start, log[..k]).tryout)
  {
    hide After, Paced, Chained;
    PacedAt(u, start, log, k);
  }

  /** The first request is at the start. */
  lemma {:induction false} StartsAt(log: seq<Request>, first: nat, end: nat)
    requires Chained(log, first, end) && log != []
    ensures log[0].first == first
  {
    if |log| > 1 { StartsAt(log[..|log| - 1], first, log[|log| - 1].first); }
  }

  /** How a device whose first 64 blocks are difficult is read, to the end: no second request is for more than a block,
      although every other would have been met. */
  lemma SpottyReads(dev: Device, u: Setup, c: Cells, m: nat, log: seq<Request>)
    requires Phase(u, Nowhere, log, u.last) && AllRead(dev, c, log) && Spotty(dev, m)
    requires u.first == 0 && u.atOnce == 64 < u.last
    ensures |log| > 65 && log[0].count == 64 && forall k | 0 < k < |log| :: log[k].count == 1
    ensures log[64].Lone() && log[64].first == 63
  {
    hide Chained, Paced, After, Spotty;
    assert log != [] by { assert Chained(log, 0, u.last); StartsNot(log, u.last); }
    StartsAt(log, 0, u.last);
    Asks(u, Nowhere, log, u.last, 0);
    AtFirst(u, log);
    SpottyRead(dev, c, m, log[0]);
    CutShort(u, Nowhere, log, u.last, 0);
    ChainedAt(log, 0, u.last, 0);
    var j := FullSizeResumes(u, Nowhere, log, u.last, 1, 64);
    SpottyRead(dev, c, m, log[j - 1]);
  }

  lemma SpottyRead(dev: Device, c: Cells, m: nat, r: Request)
    requires FromRead(dev, c, r) && Spotty(dev, m)
    ensures r.got == if r.first < 64 && (r.count > 1 || r.first == 63) then 0 else r.count
  {}

  lemma StartsNot(log: seq<Request>, end: nat)
    requires Chained(log, 0, end) && end > 0
    ensures log != []
  {}

  lemma AtFirst(u: Setup, log: seq<Request>)
    ensures After(u, Nowhere, log[..0]) == Mode(u.atOnce, Nowhere)
  {}

  /** Only one block fails on its own there. */
  lemma SpottyLone(dev: Device, u: Setup, c: Cells, m: nat, log: seq<Request>)
    requires u.Valid() && AllWithin(u, log) && AllRead(dev, c, log) && Spotty(dev, m)
    ensures LoneBlocks(log) <= {63}
  {
    hide Spotty;
    LoneMeaning(log);
    hide LoneBlocks;
    forall b | b in LoneBlocks(log) ensures b == 63 {
      var k :| 0 <= k < |log| && log[k].Lone() && log[k].first == b;
      assert FromRead(dev, c, log[k]) && log[k].Within(u);
      SpottyRead(dev, c, m, log[k]);
    }
  }

  // ---- A device that returns one block fewer than asked for. ----

  /** Requests to it are for as many blocks as ever and for the one block that was left, in turn; or else it is the last
      one of all that was left. */
  ghost predicate InTurn(u: Setup, current: nat, mode: Mode)
    requires u.Valid() && u.first <= current
  {
    || current == u.last
    || (mode == Mode(u.atOnce, Nowhere) && u.Position(current) == 0)
    || (mode == Mode(1, At(current + 1)) && u.Position(current) == u.atOnce - 1)
    || (mode.tryout == 1 && current + 1 == u.last)
  }

  /** The last blocks of full requests, up to a limit, if their cell is used again. */
  ghost function Leftover(u: Setup, from: nat, to: nat, m: nat): set<nat>
    requires u.Valid()
  {
    set b | from <= b < to && IsLeftover(u, b, m)
  }

  ghost predicate IsLeftover(u: Setup, b: nat, m: nat)
    requires u.Valid()
  {
    u.first <= b && u.Position(b) == u.atOnce - 1 && UsedAgain(u, b, m)
  }

  lemma OneShortTurn(dev: Device, u: Setup, c: Cells, m: nat, mode: Mode, r: Request)
    requires u.Valid() && r.Within(u) && InTurn(u, r.first, mode) && r.count == Clamped(u, r.first, mode.tryout)
    requires OneShort(dev, m) && FromRead(dev, c, r)
    ensures !r.Lone() && InTurn(u, r.first + r.Settled(), Next(u, mode, r))
    ensures if r.Complete() then r.count == 1
            else forall b | r.first <= b < r.first + r.got :: u.Position(b) != u.atOnce - 1
    ensures r.Complete() ==> u.Position(r.first) == u.atOnce - 1 || r.first + 1 == u.last
  {
    hide Cell;
    assert r.got == if r.count <= 1 then r.count else r.count - 1;
    if mode == Mode(u.atOnce, Nowhere) && u.Position(r.first) == 0 {
      CellsOfRun(r.first - u.first, r.got, u.atOnce);
      CellsOfRun(r.first - u.first, r.count, u.atOnce);
      forall b | r.first <= b < r.first + r.got ensures u.Position(b) == b - r.first {
        CellsOfRun(r.first - u.first, b - r.first, u.atOnce);
      }
    } else if u.Position(r.first) == u.atOnce - 1 {
      NextCell(r.first - u.first, u.atOnce);
    }
  }

  lemma {:induction false} NextCell(n: nat, m: nat)
    requires m > 0 && Cell(n, m) == m - 1
    ensures Cell(n + 1, m) == 0
  {
    if n >= m { NextCell(n - m, m); }
  }

  /** Of a request to such a device only a single block is compared, with what its cell holds. */
  lemma OneShortDiffers(dev: Device, u: Setup, p: Pattern, c: Cells, m: nat, mode: Mode, r: Request)
    requires u.Valid() && r.Within(u) && InTurn(u, r.first, mode) && r.count == Clamped(u, r.first, mode.tryout)
    requires OneShort(dev, m) && FromRead(dev, c, r) && InCells(u, p, true, c, m, u.last) && u.size % Period(p) == 0
    ensures Differs(u, p, true, r) == Leftover(u, r.first, r.first + r.Settled(), m)
  {
    hide InCells, Slice, Stamp, Cell, Period, InTurn;
    OneShortTurn(dev, u, c, m, mode, r);
    hide OneShort;
    if r.Complete() {
      var b := r.first;
      ReadBack(dev, u, p, true, c, m, r, b);
      ContentAlike(u, p, true, b, u.Position(b), 0);
    }
  }

  /** What is found on such a device: the blocks that are left over by full requests, if their cell is used again. */
  lemma {:induction false} OneShortFinds(dev: Device, u: Setup, p: Pattern, c: Cells, m: nat,
                                        log: seq<Request>, current: nat)
    requires Phase(u, Nowhere, log, current) && AllRead(dev, c, log) && OneShort(dev, m)
    requires InCells(u, p, true, c, m, u.last) && u.size % Period(p) == 0
    ensures LoneBlocks(log) == {} && Corrupt(u, p, true, log) == Leftover(u, u.first, current, m)
    ensures u.first <= current && InTurn(u, current, After(u, Nowhere, log))
  {
    hide InCells, OneShort, Period, Differs;
    if log != [] {
      var front, r := log[..|log| - 1], log[|log| - 1];
      assert forall k | 0 <= k < |front| :: front[k] == log[k];
      OneShortFinds(dev, u, p, c, m, front, r.first);
      assert FromRead(dev, c, r) && r.Within(u);
      OneShortTurn(dev, u, c, m, After(u, Nowhere, front), r);
      OneShortDiffers(dev, u, p, c, m, After(u, Nowhere, front), r);
    }
  }

  lemma NeverLone(dev: Device, u: Setup, c: Cells, m: nat, log: seq<Request>)
    requires u.Valid() && AllWithin(u, log) && AllRead(dev, c, log) && OneShort(dev, m)
    ensures LoneBlocks(log) == {}
  {
    forall k | 0 <= k < |log| ensures !log[k].Lone() {
      assert FromRead(dev, c, log[k]) && log[k].Within(u);
    }
    LoneMeaning(log);
    hide LoneBlocks;
  }

  lemma {:induction false} NowhereKept(u: Setup, log: seq<Request>)
    requires AllComplete(log)
    ensures After(u, Nowhere, log).recover == Nowhere
  {
    if log != [] {
      var front := log[..|log| - 1];
      assert forall k | 0 <= k < |front| :: front[k] == log[k];
      NowhereKept(u, front);
      assert log[|log| - 1].Complete();
    }
  }

  /** When blocks are not stamped all of them look alike, and nothing is ever found. */
  lemma UnstampedFinds(dev: Device, u: Setup, p: Pattern, c: Cells, m: nat, log: seq<Request>)
    requires u.Valid() && AllWithin(u, log) && AllRead(dev, c, log) && Fetching(dev, m)
    requires InCells(u, p, false, c, m, u.last) && u.size % Period(p) == 0
    ensures Corrupt(u, p, false, log) == {}
  {
    hide InCells, Corrupt, Period, Fetching, Differs, FromRead;
    CorruptMeaning(u, p, false, log);
    forall b ensures b !in Corrupt(u, p, false, log) {
      if k :| 0 <= k < |log| && b in Differs(u, p, false, log[k]) {
        LooksAlike(dev, u, p, c, m, log[k], b);
      }
    }
  }

  lemma LooksAlike(dev: Device, u: Setup, p: Pattern, c: Cells, m: nat, r: Request, b: nat)
    requires u.Valid() && r.Within(u) && FromRead(dev, c, r) && Fetching(dev, m)
    requires InCells(u, p, false, c, m, u.last) && u.size % Period(p) == 0
    ensures b !in Differs(u, p, false, r)
  {
    hide Slice, Stamp, Cell, Period;
    if b in Differs(u, p, false, r) {
      var t: nat :| (r.got, r.data) == dev.read(t, c, r.first, r.count);
      assert Fetched(c, m, r.first, dev.read(t, c, r.first, r.count).1);
      var i: nat := b - r.first;
      assert r.data[i] == Fetch(c, m, r.first + i);
      var y := Holder(b, m, u.last);
      assert Fetch(c, m, y) == u.Content(p, false, y, u.Position(y));
      SlicesAlike(p, u.size, u.Position(y), i);
    }
  }
}
