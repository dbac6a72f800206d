/** The requests of a phase of the bad-block scan (badblocks.c): how one follows from the other, what they say of each
    block, and what is found by them on devices of different kinds. */
module BadBlockLog {
  import opened BadBlockPattern
  import opened BadBlockList
  import opened BadBlockDevice

  /** A request for count blocks, of which got were transferred. */
  datatype Request = Request(first: nat, count: nat, got: nat, data: seq<Block>)
  {
    /** A block that failed on its own. */
    predicate Lone() { got == 0 && count == 1 }

    predicate Complete() { got == count }

    /** The number of blocks that are done with after the request. */
    function Settled(): nat { if Lone() then 1 else got }

    predicate Within(u: Setup) {
      u.first <= first && 0 < count <= u.atOnce && first + count <= u.last && got == |data| <= count
    }

    /** The block is one of those transferred, and not what the buffer has for it. */
    ghost predicate Off(u: Setup, p: Pattern, stamped: bool, b: nat)
      requires u.Valid()
    {
      first <= b < first + |data| && data[b - first] != u.Content(p, stamped, b, b - first)
    }
  }

  // ---- Which blocks the requests settle. ----

  datatype Fate = Moved | Failed

  /** One entry for each block that a request has settled. */
  function FatesOf(r: Request): seq<(nat, Fate)> {
    if r.Lone() then [(r.first, Failed)] else seq(r.got, k requires k >= 0 => (r.first + k, Moved))
  }

  function Fates(log: seq<Request>): seq<(nat, Fate)> {
    if log == [] then [] else Fates(log[..|log| - 1]) + FatesOf(log[|log| - 1])
  }

  /** Exactly the blocks from first up to end, each once. */
  ghost predicate EachOnce(log: seq<Request>, first: nat, end: nat) {
    first <= end && |Fates(log)| == end - first && forall k | 0 <= k < |Fates(log)| :: Fates(log)[k].0 == first + k
  }

  /** Each request begins where the one before has left off. */
  ghost predicate Chained(log: seq<Request>, first: nat, end: nat) {
    if log == [] then first == end
    else Chained(log[..|log| - 1], first, log[|log| - 1].first) &&
         end == log[|log| - 1].first + log[|log| - 1].Settled()
  }

  /** Such requests settle every block exactly once, as transferred or as failed. */
  lemma {:induction false} ChainedEachOnce(log: seq<Request>, first: nat, end: nat)
    requires Chained(log, first, end)
    ensures EachOnce(log, first, end)
  {
    if log != [] {
      var front, r := log[..|log| - 1], log[|log| - 1];
      ChainedEachOnce(front, first, r.first);
      assert forall k | 0 <= k < |FatesOf(r)| :: FatesOf(r)[k].0 == r.first + k;
      assert |FatesOf(r)| == r.Settled();
    }
  }

  /** The request that settles a block. */
  lemma {:induction false} Settler(log: seq<Request>, first: nat, end: nat, b: nat) returns (k: nat)
    requires Chained(log, first, end) && first <= b < end
    ensures k < |log| && log[k].first <= b < log[k].first + log[k].Settled()
  {
    var r := log[|log| - 1];
    k := |log| - 1;
    if b < r.first { k := Settler(log[..|log| - 1], first, r.first, b); }
  }

  /** Requests come one after the other. */
  lemma {:induction false} InOrder(log: seq<Request>, first: nat, end: nat, i: nat)
    requires Chained(log, first, end) && i < |log|
    ensures first <= log[i].first && log[i].first + log[i].Settled() <= end
    ensures forall j | i < j < |log| :: log[i].first + log[i].Settled() <= log[j].first
  {
    var front, r := log[..|log| - 1], log[|log| - 1];
    if i < |log| - 1 {
      InOrder(front, first, r.first, i);
      assert forall j | i < j < |front| :: front[j] == log[j];
    } else if front != [] {
      InOrder(front, first, r.first, 0);
    }
  }

  // ---- What is found. ----

  /** The blocks that failed on their own. */
  ghost function LoneBlocks(log: seq<Request>): set<nat> {
    if log == [] then {}
    else LoneBlocks(log[..|log| - 1]) + if log[|log| - 1].Lone() then {log[|log| - 1].first} else {}
  }

  /** The blocks of complete requests that are not what the buffer had for them. Those of a request that was cut short
      are never compared. */
  ghost function Corrupt(u: Setup, p: Pattern, stamped: bool, log: seq<Request>): set<nat>
    requires u.Valid()
  {
    if log == [] then {}
    else Corrupt(u, p, stamped, log[..|log| - 1]) + Differs(u, p, stamped, log[|log| - 1])
  }

  ghost function Differs(u: Setup, p: Pattern, stamped: bool, r: Request): set<nat>
    requires u.Valid()
  {
    if r.Complete() then set b | r.first <= b < r.first + |r.data| && r.Off(u, p, stamped, b) else {}
  }

  lemma {:induction false} LoneMeaning(log: seq<Request>)
    ensures forall b :: b in LoneBlocks(log) <==> exists k | 0 <= k < |log| :: log[k].Lone() && log[k].first == b
  {
    if log != [] {
      var front := log[..|log| - 1];
      LoneMeaning(front);
      assert forall k | 0 <= k < |front| :: front[k] == log[k];
    }
  }

  lemma {:induction false} CorruptMeaning(u: Setup, p: Pattern, stamped: bool, log: seq<Request>)
    requires u.Valid()
    ensures forall b :: b in Corrupt(u, p, stamped, log) <==>
              exists k | 0 <= k < |log| :: b in Differs(u, p, stamped, log[k])
  {
    if log != [] {
      var front := log[..|log| - 1];
      hide Differs;
      CorruptMeaning(u, p, stamped, front);
      assert forall k | 0 <= k < |front| :: front[k] == log[k];
    }
  }

  lemma FoundPlus(u: Setup, p: Pattern, stamped: bool, log: seq<Request>, r: Request)
    requires u.Valid()
    ensures LoneBlocks(log + [r]) == LoneBlocks(log) + if r.Lone() then {r.first} else {}
    ensures Corrupt(u, p, stamped, log + [r]) == Corrupt(u, p, stamped, log) + Differs(u, p, stamped, r)
  {
    assert (log + [r])[..|log|] == log;
  }

  // ---- How the requests follow from one another. ----

  datatype Recover = Nowhere | At(block: nat)

  /** How many blocks the next request asks for. */
  function Clamped(u: Setup, current: nat, tryout: nat): nat
    requires current <= u.last
  {
    if current + tryout > u.last then u.last - current else tryout
  }

  /** The size to try after a request that leads up to current, and where the full size is to be tried again. */
  function NextTryout(u: Setup, r: Request, current: nat, recover: Recover): nat {
    if r.got != r.count then 1 else if recover == At(current) then u.atOnce else r.count
  }

  function NextRecover(u: Setup, r: Request, current: nat, recover: Recover): Recover
    requires r.got <= current
  {
    if r.got != r.count then if recover == Nowhere then At(current - r.got + u.atOnce) else recover
    else if recover == At(current) then Nowhere else recover
  }

  /** The loop variables at the head of the loop. */
  datatype Mode = Mode(tryout: nat, recover: Recover)

  /** After the requests of a phase that begins with this point of recovery, which the phases before have left. */
  function After(u: Setup, start: Recover, log: seq<Request>): Mode {
    if log == [] then Mode(u.atOnce, start)
    else Next(u, After(u, start, log[..|log| - 1]), log[|log| - 1])
  }

  function Next(u: Setup, m: Mode, r: Request): Mode {
    var current := r.first + r.Settled();
    Mode(NextTryout(u, r, current, m.recover), NextRecover(u, r, current, m.recover))
  }

  /** Every request asks for as many blocks as the loop variables say after those before it. */
  ghost predicate Paced(u: Setup, start: Recover, log: seq<Request>)
    requires u.Valid()
  {
    log == [] || (var front, r := log[..|log| - 1], log[|log| - 1];
                  && Paced(u, start, front) && r.first <= u.last
                  && r.count == Clamped(u, r.first, After(u, start, front).tryout))
  }

  ghost predicate AllComplete(log: seq<Request>) {
    forall k | 0 <= k < |log| :: log[k].Complete()
  }

  ghost predicate AllWithin(u: Setup, log: seq<Request>) {
    forall k | 0 <= k < |log| :: log[k].Within(u)
  }

  /** Every request begins at the position it would have if none were ever cut short. */
  ghost predicate AllAligned(u: Setup, log: seq<Request>)
    requires u.Valid() && AllWithin(u, log)
  {
    forall k | 0 <= k < |log| :: u.Position(log[k].first) == 0
  }

  /** The next request is aligned and of full size, or there is none. */
  ghost predicate Smooth(u: Setup, current: nat, tryout: nat)
    requires u.Valid() && u.first <= current
  {
    current == u.last || (tryout == u.atOnce && u.Position(current) == 0)
  }

  /** What is known of the requests of a phase at every loop head. */
  ghost predicate Going(u: Setup, start: Recover, log: seq<Request>, current: nat, tryout: nat, recover: Recover) {
    && u.Valid() && u.first <= current <= u.last && 0 < tryout <= u.atOnce
    && Chained(log, u.first, current) && AllWithin(u, log)
    && Paced(u, start, log) && After(u, start, log) == Mode(tryout, recover)
    && (AllComplete(log) ==> Smooth(u, current, tryout) && AllAligned(u, log))
  }

  lemma StartsGoing(u: Setup, start: Recover)
    requires u.Valid()
    ensures Going(u, start, [], u.first, u.atOnce, start)
  {}

  lemma GoesOn(u: Setup, start: Recover, log: seq<Request>, current: nat, tryout: nat, recover: Recover, r: Request)
    requires Going(u, start, log, current, tryout, recover) && current < u.last && r.first == current
    requires r.count == Clamped(u, current, tryout) && r.got == |r.data| <= r.count
    ensures var next := current + r.Settled();
            Going(u, start, log + [r], next, NextTryout(u, r, next, recover), NextRecover(u, r, next, recover))
  {
    var more, next := log + [r], current + r.Settled();
    assert more[..|log|] == log;
    assert Chained(more, u.first, next);
    assert r.Within(u);
    hide Paced, After, Chained;
    PaceGoesOn(u, start, log, tryout, recover, r);
    if AllComplete(more) { SmoothGoesOn(u, log, current, tryout, recover, r); }
  }

  lemma PaceGoesOn(u: Setup, start: Recover, log: seq<Request>, tryout: nat, recover: Recover, r: Request)
    requires u.Valid() && Paced(u, start, log) && After(u, start, log) == Mode(tryout, recover)
    requires r.first <= u.last && r.count == Clamped(u, r.first, tryout)
    ensures Paced(u, start, log + [r]) && After(u, start, log + [r]) == Next(u, Mode(tryout, recover), r)
  {
    assert (log + [r])[..|log|] == log;
  }

  lemma SmoothGoesOn(u: Setup, log: seq<Request>, current: nat, tryout: nat, recover: Recover, r: Request)
    requires u.Valid() && AllWithin(u, log) && u.first <= current < u.last && r.first == current && r.Within(u)
    requires AllComplete(log) ==> Smooth(u, current, tryout) && AllAligned(u, log)
    requires r.count == Clamped(u, current, tryout) && AllComplete(log + [r])
    ensures AllWithin(u, log + [r]) && AllAligned(u, log + [r])
    ensures Smooth(u, current + r.Settled(), NextTryout(u, r, current + r.Settled(), recover))
  {
    assert forall k | 0 <= k < |log| :: (log + [r])[k] == log[k];
    assert r.Complete() by { assert (log + [r])[|log|] == r; }
    CellsOfRun(current - u.first, u.atOnce, u.atOnce);
  }

  // ---- What a read phase finds. ----

  /** The device returned the data of the request from these cells. */
  ghost predicate FromRead(dev: Device, c: Cells, r: Request) {
    exists t: nat :: (r.got, r.data) == dev.read(t, c, r.first, r.count)
  }

  ghost predicate AllRead(dev: Device, c: Cells, log: seq<Request>) {
    forall k | 0 <= k < |log| :: FromRead(dev, c, log[k])
  }

  /** On an honest device, with patterns that fill blocks evenly, only blocks that are known to be bad can differ. */
  lemma HonestFinds(dev: Device, u: Setup, p: Pattern, stamped: bool, bad: set<nat>, c: Cells, log: seq<Request>)
    requires u.Valid() && Honest(dev, u.last) && u.size % Period(p) == 0 && InPlace(u, p, stamped, bad, c, u.last)
    requires AllWithin(u, log) && AllRead(dev, c, log)
    ensures Corrupt(u, p, stamped, log) <= bad
  {
    CorruptMeaning(u, p, stamped, log);
    hide Corrupt, InPlace, Period, Honest, Differs, FromRead;
    forall b | b in Corrupt(u, p, stamped, log) ensures b in bad {
      var k :| 0 <= k < |log| && b in Differs(u, p, stamped, log[k]);
      HonestBlock(dev, u, p, stamped, bad, c, log[k], b);
    }
  }

  lemma HonestBlock(dev: Device, u: Setup, p: Pattern, stamped: bool, bad: set<nat>, c: Cells, r: Request, b: nat)
    requires u.Valid() && Honest(dev, u.last) && u.size % Period(p) == 0 && InPlace(u, p, stamped, bad, c, u.last)
    requires r.Within(u) && FromRead(dev, c, r) && b in Differs(u, p, stamped, r)
    ensures b in bad
  {
    hide InPlace, Period, Slice, Stamp;
    var t: nat :| (r.got, r.data) == dev.read(t, c, r.first, r.count);
    assert Returned(c, r.first, dev.read(t, c, r.first, r.count).1);
    hide Honest;
    var i: nat := b - r.first;
    assert b in c ==> r.data[i] == c[r.first + i];
    PlaceDiffers(u, p, stamped, bad, c, b, r.data[i], i);
  }

  /** The blocks of a range whose cell is used again by a later block of the scan. */
  ghost function Covered(u: Setup, from: nat, to: nat, m: nat): set<nat> {
    set b | from <= b < to && UsedAgain(u, b, m)
  }

  ghost predicate UsedAgain(u: Setup, b: nat, m: nat) {
    b + m < u.last
  }

  /** On a device that stores blocks in m cells and never fails, exactly the blocks whose cell is used again differ. */
  lemma AliasingFinds(dev: Device, u: Setup, p: Pattern, stamped: bool, c: Cells, m: nat,
                      start: Recover, log: seq<Request>, current: nat, tryout: nat, recover: Recover)
    requires Going(u, start, log, current, tryout, recover) && AllRead(dev, c, log) && Aliasing(dev, m)
    requires InCells(u, p, stamped, c, m, u.last) && (stamped || u.last <= u.first + m)
    ensures LoneBlocks(log) == {} && Corrupt(u, p, stamped, log) == Covered(u, u.first, current, m)
  {
    hide InCells, Corrupt, LoneBlocks, Slice, Stamp, Cell;
    forall k | 0 <= k < |log| ensures log[k].Complete() && !log[k].Lone() {
      assert FromRead(dev, c, log[k]) && log[k].Within(u);
    }
    LoneMeaning(log);
    CorruptMeaning(u, p, stamped, log);
    forall b ensures b in Corrupt(u, p, stamped, log) <==> b in Covered(u, u.first, current, m) {
      if k :| 0 <= k < |log| && b in Differs(u, p, stamped, log[k]) {
        InOrder(log, u.first, current, k);
        ReadBack(dev, u, p, stamped, c, m, log[k], b);
        CellsOfRun(log[k].first - u.first, b - log[k].first, u.atOnce);
      }
      if b in Covered(u, u.first, current, m) {
        var k := Settler(log, u.first, current, b);
        ReadBack(dev, u, p, stamped, c, m, log[k], b);
        assert b in Differs(u, p, stamped, log[k]);
      }
    }
  }

  /** What a complete request to such a device returns of a block differs if its cell was used again, and otherwise
      exactly if its content at the position it was written from differs. */
  lemma ReadBack(dev: Device, u: Setup, p: Pattern, stamped: bool, c: Cells, m: nat, r: Request, b: nat)
    requires u.Valid() && r.Within(u) && FromRead(dev, c, r) && Fetching(dev, m) && r.Complete()
    requires InCells(u, p, stamped, c, m, u.last) && (stamped || u.last <= u.first + m)
    requires r.first <= b < r.first + r.got
    ensures r.Off(u, p, stamped, b) <==>
            UsedAgain(u, b, m) || u.Content(p, stamped, b, u.Position(b)) != u.Content(p, stamped, b, b - r.first)
  {
    hide InCells, Slice, Stamp, Cell;
    var t: nat :| (r.got, r.data) == dev.read(t, c, r.first, r.count);
    assert Fetched(c, m, r.first, dev.read(t, c, r.first, r.count).1);
    var i: nat := b - r.first;
    assert r.data[i] == Fetch(c, m, r.first + i);
    CellDiffers(u, p, stamped, c, m, b, i);
  }

  /** The blocks whose content where they are written from is not that of the first position. */
  ghost function Moving(u: Setup, p: Pattern, stamped: bool, to: nat): set<nat>
    requires u.Valid()
  {
    set b | u.first <= b < to && Moves(u, p, stamped, b)
  }

  ghost predicate Moves(u: Setup, p: Pattern, stamped: bool, b: nat)
    requires u.Valid() && u.first <= b
  {
    u.Content(p, stamped, b, u.Position(b)) != u.Content(p, stamped, b, 0)
  }

  /** On a device that keeps everything but reads single blocks only, exactly these differ. */
  lemma BalkyFinds(dev: Device, u: Setup, p: Pattern, stamped: bool, c: Cells, m: nat,
                   start: Recover, log: seq<Request>, current: nat, tryout: nat, recover: Recover)
    requires Going(u, start, log, current, tryout, recover) && AllRead(dev, c, log) && Balky(dev, m) && u.last <= m
    requires InCells(u, p, stamped, c, m, u.last)
    ensures LoneBlocks(log) == {} && Corrupt(u, p, stamped, log) == Moving(u, p, stamped, current)
  {
    hide InCells, Corrupt, LoneBlocks, Slice, Stamp, Cell, AllComplete;
    forall k | 0 <= k < |log|
      ensures !log[k].Lone() && log[k].Within(u) && log[k].got == if log[k].count == 1 then 1 else 0
    {
      assert FromRead(dev, c, log[k]) && log[k].Within(u);
    }
    LoneMeaning(log);
    CorruptMeaning(u, p, stamped, log);
    forall b ensures b in Corrupt(u, p, stamped, log) <==> b in Moving(u, p, stamped, current) {
      if k :| 0 <= k < |log| && b in Differs(u, p, stamped, log[k]) {
        InOrder(log, u.first, current, k);
        ReadBack(dev, u, p, stamped, c, m, log[k], b);
      }
      if b in Moving(u, p, stamped, current) {
        var k := Settler(log, u.first, current, b);
        ReadBack(dev, u, p, stamped, c, m, log[k], b);
        assert b in Differs(u, p, stamped, log[k]);
      }
    }
  }
}
