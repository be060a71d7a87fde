/** sta_q_decide: the drop law for a standing queue, on wrapping 32-bit time.
    RFC 8289 section 3.3, with an integer square root and a rearmed schedule. */
module CoDel {
  import opened Basics
  import opened ISqrt

  const W := 0x1_0000_0000
  const HALF := 0x8000_0000
  const NONE := 0xFFFF

  datatype Config = Config(limit: nat, target: nat, interval: nat, delay: nat, minQ: nat, small: nat)

  /** Drop state of one station; standing and dropping are its two flags. */
  datatype Aqm = Aqm(above: int, next: int, count: nat, last: nat, standing: bool, dropping: bool)

  datatype Verdict = Pass | HardDrop | EarlyDrop

  /** The frame being timed: its token or none, its send tick, the last delay. */
  datatype Probe = Probe(tok: int, tick: int, delay: int)

  function U32(x: int): (r: int)
    ensures 0 <= r < W
  {
    x % W
  }

  function S32(x: int): int {
    var m := x % W;
    if m >= HALF then m - W else m
  }

  // ---------------------------------------------------------------- the law

  /** Neither long enough in frames nor in time in the chip. */
  predicate Below(c: Config, q: nat, ticks: nat) {
    && !(c.target != 0 && q >= c.target)
    && !(c.delay != 0 && q >= c.minQ && U32(ticks * 0x1_0000) >= c.delay)
  }

  function Later(c: Config, a: Aqm, now: int): (Aqm, Verdict) {
    if S32(now - a.next) < 0 then (a, Pass)
    else
      var count := if a.count != 0xFFFF then a.count + 1 else a.count;
      var from := if S32(now - a.next) > S32(c.interval) then now else a.next;
      (a.(count := count, next := U32(from + Gap(c, count))), EarlyDrop)
  }

  function First(c: Config, a: Aqm, now: int): (Aqm, Verdict) {
    var n := (a.count - a.last) % 0x1_0000;
    var count := if n > 1 && S32(now - a.next) < S32(16 * c.interval) then n else 1;
    (a.(count := count, last := if count > 255 then 255 else count, dropping := true,
        next := U32(now + Gap(c, count))), EarlyDrop)
  }

  /** interval / sqrt(count). */
  function Gap(c: Config, count: nat): (g: nat) {
    var r := FloorRoot(count);
    if r == 0 then 0 else c.interval / r
  }

  /** One decision: the station's state after it, and what becomes of the frame. */
  function Decided(c: Config, a: Aqm, now: int, len: nat, q: nat, ticks: nat): (Aqm, Verdict) {
    if c.limit != 0 && q >= c.limit then (a, HardDrop)
    else if Below(c, q, ticks) then (a.(standing := false, dropping := false), Pass)
    else if !a.standing then (a.(standing := true, dropping := false, above := U32(now + c.interval)), Pass)
    else if S32(now - a.above) < 0 || len <= c.small then (a, Pass)
    else if a.dropping then Later(c, a, now)
    else First(c, a, now)
  }

  // ---------------------------------------------------------------- the code

  /** Ticks the station's frames spend in the chip; a lost report is forgotten. */
  function DelayOf(p: Probe, now: int): (r: (int, Probe))
    ensures r.0 >= p.delay && r.1.delay == p.delay
    ensures r.0 > p.delay ==> p.tok != NONE && r.1 == p && r.0 == (now / 0x1_0000 - p.tick) % 0x1_0000
  {
    var age := (now / 0x1_0000 - p.tick) % 0x1_0000;
    if p.tok == NONE then (p.delay, p)
    else if age > 11000 then (p.delay, p.(tok := NONE))
    else if age > p.delay then (age, p)
    else (p.delay, p)
  }

  /** What it says of a frame sent at real time sent and still in the chip: the
      true age in ticks, if the last delay was not longer; past 11000 ticks the
      report counts as lost and the frame is no longer timed. */
  lemma DelayIsReal(p: Probe, sent: nat, now: nat)
    requires p.tok != NONE && p.tick == U32(sent) / 0x1_0000
    requires sent <= now && now / 0x1_0000 - sent / 0x1_0000 < 0x1_0000
    ensures var age := now / 0x1_0000 - sent / 0x1_0000;
            DelayOf(p, U32(now)) ==
              if age > 11000 then (p.delay, p.(tok := NONE)) else (if age > p.delay then age else p.delay, p)
  {
    hide U32;
    TickIs(sent);
    TickIs(now);
    var a, b := sent / 0x1_0000, now / 0x1_0000;
    assert (b % 0x1_0000 - a % 0x1_0000) % 0x1_0000 == b - a;
  }

  /** The tick is bits 16 to 31 of the cycle counter. */
  lemma TickIs(t: nat)
    ensures U32(t) / 0x1_0000 == t / 0x1_0000 % 0x1_0000
  {
    var q, r := t / 0x1_0000, t % 0x1_0000;
    var k := q / 0x1_0000;
    assert t == W * k + (0x1_0000 * (q % 0x1_0000) + r);
    assert U32(t) == 0x1_0000 * (q % 0x1_0000) + r;
  }

  /** The decision looks at the time in the chip. */
  predicate Timed(c: Config, q: nat) {
    && !(c.limit != 0 && q >= c.limit) && !(c.target != 0 && q >= c.target)
    && c.delay != 0 && q >= c.minQ
  }

  class Station {
    var above: int
    var next: int
    var count: nat
    var last: nat
    var standing: bool
    var dropping: bool
    var probe: Probe

    constructor ()
      ensures Law() == Aqm(0, 0, 0, 0, false, false) && probe == Probe(NONE, 0, 0)
    {
      above, next, count, last := 0, 0, 0, 0;
      standing, dropping := false, false;
      probe := Probe(NONE, 0, 0);
    }

    function Law(): Aqm
      reads this
    {
      Aqm(above, next, count, last, standing, dropping)
    }

    predicate Sound()
      reads this
    {
      Lawful(Law()) && 0 <= probe.delay < 0x1_0000
    }

    /** sta_q_delay. */
    method Delay(now: int) returns (ticks: nat)
      requires 0 <= probe.delay
      modifies this`probe
      ensures (ticks, probe) == DelayOf(old(probe), now)
    {
      ticks := probe.delay;
      if probe.tok != NONE {
        var age := (now / 0x1_0000 - probe.tick) % 0x1_0000;
        if age > 11000 {
          probe := probe.(tok := NONE);
        } else if age > ticks {
          ticks := age;
        }
      }
    }

    /** sta_q_decide; q is the count sent less done, never negative. */
    method Decide(c: Config, now: int, len: nat, q: nat) returns (v: Verdict)
      requires Sound() && 0 <= now < W && c.interval < W
      modifies this
      ensures (Law(), v) == Decided(c, old(Law()), now, len, q, old(DelayOf(probe, now).0))
      ensures probe == if Timed(c, q) then old(DelayOf(probe, now).1) else old(probe)
      ensures Sound()
    {
      hide U32, S32, Later, First;
      if c.limit != 0 && q >= c.limit {
        return HardDrop;
      }
      var over := false;
      if c.target != 0 && q >= c.target {
        over := true;
      } else if c.delay != 0 && q >= c.minQ {
        var ticks := Delay(now);
        if U32(ticks * 0x1_0000) >= c.delay {
          over := true;
        }
      }
      if !over {
        standing, dropping := false, false;
        return Pass;
      }
      if !standing {
        standing, dropping := true, false;
        above := U32(now + c.interval);
        return Pass;
      }
      if S32(now - above) < 0 {
        return Pass;
      }
      if len <= c.small {
        return Pass;
      }
      v := DropOrPass(c, now);
    }

    /** A long frame of a queue that has stood for the interval. */
    method DropOrPass(c: Config, now: int) returns (v: Verdict)
      requires Sound() && standing && 0 <= now < W
      modifies this`next, this`count, this`last, this`dropping
      ensures (Law(), v) == if old(dropping) then Later(c, old(Law()), now) else First(c, old(Law()), now)
      ensures Sound()
    {
      hide U32, S32, FloorRoot, IsRoot;
      if dropping {
        if S32(now - next) < 0 {
          return Pass;
        }
        if count != 0xFFFF {
          count := count + 1;
        }
        if S32(now - next) > S32(c.interval) {
          next := now;
        }
      } else {
        var n := (count - last) % 0x1_0000;
        count := if n > 1 && S32(now - next) < S32(16 * c.interval) then n else 1;
        last := if count > 255 then 255 else count;
        dropping := true;
        next := now;
      }
      RootPositive(count);
      var root := Root(count);
      next := U32(next + c.interval / root);
      return EarlyDrop;
    }
  }

  lemma RootPositive(count: nat)
    requires count >= 1
    ensures FloorRoot(count) >= 1
  {
  }

  /** Counts stay in 16 and 8 bits, and a dropping state has counted a drop. */
  predicate Lawful(a: Aqm) {
    && a.count < 0x1_0000 && a.last < 0x100 && (a.dropping ==> a.standing && a.count >= 1)
  }

  // ---------------------------------------------------------------- traces

  /** One decision of a station: real time, which the code sees in 32 bits. */
  datatype Frame = Frame(at: nat, len: nat, q: nat, ticks: nat)

  /** Decisions in time order, with any gaps between them. */
  predicate InTime(evs: seq<Frame>) {
    forall i, j :: 0 <= i < j < |evs| ==> evs[i].at <= evs[j].at
  }

  /** The station's state before decision k. */
  function StateAt(c: Config, evs: seq<Frame>, k: nat): Aqm
    requires k <= |evs|
  {
    if k == 0 then Aqm(0, 0, 0, 0, false, false)
    else
      var e := evs[k - 1];
      Decided(c, StateAt(c, evs, k - 1), U32(e.at), e.len, e.q, e.ticks).0
  }

  function VerdictAt(c: Config, evs: seq<Frame>, k: nat): Verdict
    requires k < |evs|
  {
    Decided(c, StateAt(c, evs, k), U32(evs[k].at), evs[k].len, evs[k].q, evs[k].ticks).1
  }

  /** Decision k saw the queue below target; a hard drop looks no further. */
  predicate SawBelow(c: Config, evs: seq<Frame>, k: nat)
    requires k < |evs|
  {
    !(c.limit != 0 && evs[k].q >= c.limit) && Below(c, evs[k].q, evs[k].ticks)
  }

  predicate NoneBelow(c: Config, evs: seq<Frame>, i: nat, k: nat)
    requires k <= |evs|
  {
    forall m :: i <= m < k ==> !SawBelow(c, evs, m)
  }

  lemma {:induction false} LawfulAt(c: Config, evs: seq<Frame>, k: nat)
    requires k <= |evs|
    ensures Lawful(StateAt(c, evs, k))
  {
    if k > 0 {
      LawfulAt(c, evs, k - 1);
      hide U32, S32, Gap, Below;
    }
  }

  /** A time ahead by no more than half the circle reads as not yet reached. */
  lemma Ahead(now: int, mark: int)
    requires now < mark <= now + HALF
    ensures S32(U32(now) - U32(mark)) < 0
  {
    assert U32(now) == now - now / W * W && U32(mark) == mark - mark / W * W;
    var q := mark / W - now / W;
    assert U32(now) - U32(mark) == now - mark + q * W;
    SameOnCircle(now - mark, q);
  }

  lemma SameOnCircle(x: int, q: int)
    ensures (x + q * W) % W == x % W
  {
  }

  lemma Wraps(x: int, d: int)
    ensures U32(U32(x) + d) == U32(x + d)
  {
    SameOnCircle(x + d, -(x / W));
  }

  /** The mark of a standing queue was set an interval ahead, and no decision
      since then saw the queue below target. */
  lemma {:induction false} MarkedAt(c: Config, evs: seq<Frame>, k: nat) returns (i: nat)
    requires k <= |evs| && StateAt(c, evs, k).standing
    ensures i < k && NoneBelow(c, evs, i, k)
    ensures StateAt(c, evs, k).above == U32(evs[i].at + c.interval)
  {
    hide U32, S32, Gap, Below;
    assert k > 0;
    var a, e := StateAt(c, evs, k - 1), evs[k - 1];
    if StateAt(c, evs, k - 1).standing && !SawBelow(c, evs, k - 1) {
      i := MarkedAt(c, evs, k - 1);
    } else {
      i := k - 1;
      assert StateAt(c, evs, k).above == U32(U32(e.at) + c.interval);
      Wraps(e.at, c.interval);
    }
  }

  /** Every early drop is of a frame longer than small, and the queue has stood
      above target in every decision of at least an interval of real time. */
  lemma DropStands(c: Config, evs: seq<Frame>, k: nat) returns (i: nat)
    requires k < |evs| && InTime(evs) && c.interval <= HALF
    requires VerdictAt(c, evs, k) == EarlyDrop
    ensures evs[k].len > c.small
    ensures i < k && evs[k].at - evs[i].at >= c.interval && NoneBelow(c, evs, i, k + 1)
  {
    hide U32, S32, Gap, Below;
    i := MarkedAt(c, evs, k);
    if evs[k].at < evs[i].at + c.interval {
      Ahead(evs[k].at, evs[i].at + c.interval);
    }
  }

  /** The bound on the interval is exact: at any longer one a standing queue is
      dropped from at once, the mark an interval ahead reading as past. */
  lemma LongIntervalDrops(c: Config, t: nat)
    requires HALF < c.interval < W && c.limit == 0 && 1 == c.target && c.small == 0
    ensures var evs := [Frame(t, 60, 1, 0), Frame(t, 60, 1, 0)];
            InTime(evs) && VerdictAt(c, evs, 1) == EarlyDrop && evs[1].at - evs[0].at < c.interval
  {
    var evs := [Frame(t, 60, 1, 0), Frame(t, 60, 1, 0)];
    hide U32, S32;
    assert StateAt(c, evs, 0) == Aqm(0, 0, 0, 0, false, false);
    assert StateAt(c, evs, 1) == Aqm(U32(U32(t) + c.interval), 0, 0, 0, true, false);
    PastMark(t, c.interval);
  }

  /** A mark more than half the circle ahead reads as past. */
  lemma PastMark(now: nat, d: nat)
    requires HALF < d < W
    ensures S32(U32(now) - U32(U32(now) + d)) >= 0
  {
    Wraps(now, d);
    var q := (now + d) / W - now / W;
    assert U32(now) == now - now / W * W && U32(now + d) == (now + d) - (now + d) / W * W;
    var back: int := 0 - d;
    assert U32(now) - U32(now + d) == back + q * W;
    SameOnCircle(back, q);
  }

  /** What the early drops from i on have added to the schedule: each the
      interval over the root of the count it left. */
  function Owed(c: Config, evs: seq<Frame>, i: nat, k: nat): (o: nat)
    requires i <= k <= |evs|
  {
    if k == i then 0
    else Owed(c, evs, i, k - 1)
         + if VerdictAt(c, evs, k - 1) == EarlyDrop then Gap(c, StateAt(c, evs, k).count) else 0
  }

  /** Decision i begins a dropping state. */
  predicate Begins(c: Config, evs: seq<Frame>, i: nat)
    requires i < |evs|
  {
    VerdictAt(c, evs, i) == EarlyDrop && !StateAt(c, evs, i).dropping
  }

  lemma GapBound(c: Config, count: nat)
    ensures 0 <= Gap(c, count) <= c.interval
  {
    hide FloorRoot;
    var r := FloorRoot(count);
    if r > 0 { DivBounds(c.interval, r); }
  }

  /** In a dropping state the next drop is due, on real time, no earlier than
      the schedule says and no later than an interval from the last decision. */
  lemma {:induction false} DueAt(c: Config, evs: seq<Frame>, i: nat, k: nat) returns (due: int)
    requires i < k <= |evs| && InTime(evs) && c.interval <= HALF
    requires Begins(c, evs, i) && NoneBelow(c, evs, i, k)
    ensures StateAt(c, evs, k).dropping && StateAt(c, evs, k).next == U32(due)
    ensures evs[i].at + Owed(c, evs, i, k) <= due <= evs[k - 1].at + c.interval
    decreases k
  {
    hide U32, S32, Gap, Below, Decided, Begins;
    var a, e := StateAt(c, evs, k - 1), evs[k - 1];
    if k == i + 1 {
      DueFirst(c, evs, i);
      due := e.at + Gap(c, StateAt(c, evs, k).count);
    } else {
      due := DueAt(c, evs, i, k - 1);
      assert !SawBelow(c, evs, k - 1);
      LawfulAt(c, evs, k - 1);
      due := DueNext(c, a, e, due);
    }
  }

  lemma DueFirst(c: Config, evs: seq<Frame>, i: nat)
    requires i < |evs| && Begins(c, evs, i)
    ensures var g := Gap(c, StateAt(c, evs, i + 1).count);
            && StateAt(c, evs, i + 1).dropping && StateAt(c, evs, i + 1).next == U32(evs[i].at + g)
            && Owed(c, evs, i, i + 1) == g && 0 <= g <= c.interval
  {
    hide U32, S32, Gap, Below;
    GapBound(c, StateAt(c, evs, i + 1).count);
    Wraps(evs[i].at, Gap(c, StateAt(c, evs, i + 1).count));
    assert Owed(c, evs, i, i) == 0;
  }

  /** One decision within a dropping state moves the due time on by a drop's gap,
      from the due time, or from now when it is long past. */
  lemma DueNext(c: Config, a: Aqm, e: Frame, due: int) returns (due': int)
    requires Lawful(a) && a.dropping && a.next == U32(due) && due <= e.at + c.interval <= e.at + HALF
    requires (c.limit != 0 && e.q >= c.limit) || !Below(c, e.q, e.ticks)
    ensures var (a', v) := Decided(c, a, U32(e.at), e.len, e.q, e.ticks);
            && a'.dropping && a'.next == U32(due') && due' <= e.at + c.interval
            && due' >= due + if v == EarlyDrop then Gap(c, a'.count) else 0
  {
    hide U32, S32, Gap, Below;
    var (a', v) := Decided(c, a, U32(e.at), e.len, e.q, e.ticks);
    due' := due;
    if v == EarlyDrop {
      if e.at < due { Ahead(e.at, due); }
      var g := Gap(c, a'.count);
      GapBound(c, a'.count);
      Wraps(e.at, g);
      Wraps(due, g);
      due' := (if S32(U32(e.at) - a.next) > S32(c.interval) then e.at else due) + g;
    }
  }

  /** A later drop of a dropping state comes no sooner after the first than the
      sum of interval over root count of the drops before it, on real time,
      whatever the gaps between decisions and however often the clock wraps. */
  lemma DropsSpaced(c: Config, evs: seq<Frame>, i: nat, k: nat)
    requires i < k < |evs| && InTime(evs) && c.interval <= HALF
    requires Begins(c, evs, i) && NoneBelow(c, evs, i, k + 1)
    requires VerdictAt(c, evs, k) == EarlyDrop
    ensures evs[k].at - evs[i].at >= Owed(c, evs, i, k)
    ensures 1 <= StateAt(c, evs, k).count <= StateAt(c, evs, k + 1).count
    ensures StateAt(c, evs, k + 1).count ==
            if StateAt(c, evs, k).count == 0xFFFF then 0xFFFF else StateAt(c, evs, k).count + 1
  {
    hide U32, S32, Gap, Below, Owed, StateAt, Begins, Lawful;
    var due := DueAt(c, evs, i, k);
    LawfulAt(c, evs, k);
    if evs[k].at < due { Ahead(evs[k].at, due); }
    NextDrop(c, evs, k);
  }

  /** One early drop in a dropping state: it was due, and counts one more. */
  lemma NextDrop(c: Config, evs: seq<Frame>, k: nat)
    requires k < |evs| && VerdictAt(c, evs, k) == EarlyDrop && StateAt(c, evs, k).dropping
    requires Lawful(StateAt(c, evs, k))
    ensures S32(U32(evs[k].at) - StateAt(c, evs, k).next) >= 0
    ensures StateAt(c, evs, k).count >= 1
    ensures StateAt(c, evs, k + 1).count ==
            if StateAt(c, evs, k).count == 0xFFFF then 0xFFFF else StateAt(c, evs, k).count + 1
  {
    hide U32, S32, Gap, Below;
  }

  // ---------------------------------------------------------------- one decision, exactly

  /** The limit is set and the queue has reached it. */
  predicate Full(c: Config, q: nat) {
    c.limit != 0 && q >= c.limit
  }

  /** The queue stands above target, in frames or in cycles in the chip. */
  predicate Over(c: Config, e: Frame) {
    || (c.target != 0 && e.q >= c.target)
    || (c.delay != 0 && e.q >= c.minQ && e.ticks * 0x1_0000 >= c.delay)
  }

  lemma SmallTime(x: int)
    requires -HALF <= x < HALF
    ensures S32(x) == x && (x >= 0 ==> U32(x) == x)
  {
  }

  /** A time and a mark less than half the circle apart: the wrapped difference is
      the real one. */
  lemma Nearby(now: int, mark: int)
    requires -HALF <= now - mark < HALF
    ensures S32(U32(now) - U32(mark)) == now - mark
  {
    assert U32(now) == now - now / W * W && U32(mark) == mark - mark / W * W;
    var q := mark / W - now / W;
    assert U32(now) - U32(mark) == now - mark + q * W;
    SameOnCircle(now - mark, q);
    SmallTime(now - mark);
  }

  lemma BelowIs(c: Config, e: Frame)
    requires e.ticks < 0x1_0000
    ensures Below(c, e.q, e.ticks) <==> !Over(c, e)
  {
    SmallCycles(e.ticks);
  }

  lemma SmallCycles(ticks: nat)
    requires ticks < 0x1_0000
    ensures U32(ticks * 0x1_0000) == ticks * 0x1_0000
  {
  }

  /** The drops a dropping state begins with: those of the one just left, if it was
      left before its next drop was 16 intervals late, else one. */
  function Resumed(c: Config, a: Aqm, late: int): nat {
    var n := (a.count - a.last) % 0x1_0000;
    if n > 1 && late < 16 * c.interval then n else 1
  }

  /** The queue is over target, below its limit, and has stood since the mark was set. */
  predicate Stood(c: Config, a: Aqm, e: Frame, mark: int) {
    !Full(c, e.q) && Over(c, e) && a.standing && e.at >= mark
  }

  /** One decision on real time, mark and due being the real times nearest to now
      that above and next stand for. The frame is dropped for the limit exactly when
      the queue has reached it. It is dropped early exactly when it is long, the queue
      is over target and has stood since before the mark, and the next drop of a
      dropping state is due. Standing and dropping end with a queue below target, and
      a full one changes nothing. */
  lemma DecidesExactly(c: Config, a: Aqm, e: Frame, mark: int, due: int)
    requires Lawful(a) && c.interval < HALF && e.ticks < 0x1_0000
    requires a.above == U32(mark) && -HALF <= e.at - mark < HALF
    requires a.next == U32(due) && -HALF <= e.at - due < HALF
    ensures var (a', v) := Decided(c, a, U32(e.at), e.len, e.q, e.ticks);
            && (v == HardDrop <==> Full(c, e.q)) && (v == HardDrop ==> a' == a)
            && (v == EarlyDrop <==> Stood(c, a, e, mark) && e.len > c.small && (a.dropping ==> e.at >= due))
            && (!Full(c, e.q) ==> a'.standing == Over(c, e))
            && (!Full(c, e.q) ==> a'.dropping == (Over(c, e) && a.standing && (a.dropping || v == EarlyDrop)))
            && a'.above == (if !Full(c, e.q) && Over(c, e) && !a.standing then U32(e.at + c.interval) else a.above)
            && (v != EarlyDrop ==> a'.next == a.next && a'.count == a.count && a'.last == a.last)
  {
    hide U32, S32, Gap, Below, Over;
    BelowIs(c, e);
    Nearby(e.at, mark);
    Nearby(e.at, due);
    Wraps(e.at, c.interval);
  }

  /** What an early drop does to the schedule: one more drop, or as many as Resumed
      says; the next is interval over the root of that later, from when this one was
      due if that is no more than an interval past, else from now. */
  lemma DropExactly(c: Config, a: Aqm, e: Frame, due: int)
    requires Lawful(a) && 16 * c.interval < HALF
    requires a.next == U32(due) && -HALF <= e.at - due < HALF
    requires Decided(c, a, U32(e.at), e.len, e.q, e.ticks).1 == EarlyDrop
    ensures var a' := Decided(c, a, U32(e.at), e.len, e.q, e.ticks).0;
            && a'.count == (if !a.dropping then Resumed(c, a, e.at - due)
                            else if a.count == 0xFFFF then a.count else a.count + 1)
            && a'.last == (if a.dropping then a.last else if a'.count > 255 then 255 else a'.count)
            && a'.next == U32((if a.dropping && e.at - due <= c.interval then due else e.at) + Gap(c, a'.count))
  {
    hide U32, S32, Gap, Below;
    Nearby(e.at, due);
    SmallTime(c.interval);
    SmallTime(16 * c.interval);
    var g := Gap(c, Decided(c, a, U32(e.at), e.len, e.q, e.ticks).0.count);
    Wraps(e.at, g);
    Wraps(due, g);
  }

  // ---------------------------------------------------------------- an example

  /** A queue of one frame over a target of one, seen every 100 cycles. */
  function Standing(): (Config, seq<Frame>) {
    (Config(0, 1, 100, 0, 0, 0),
     [Frame(0, 60, 1, 0), Frame(100, 60, 1, 0), Frame(150, 60, 1, 0), Frame(200, 60, 1, 0)])
  }

  lemma SmallRoots()
    ensures FloorRoot(1) == 1 && FloorRoot(2) == 1
  {
    assert FloorRoot(0) == 0;
  }

  /** Its first two decisions, the mark and the first drop. */
  lemma StandingBegins()
    ensures var (c, evs) := Standing();
            && Decided(c, Aqm(0, 0, 0, 0, false, false), U32(0), 60, 1, 0) == (Aqm(100, 0, 0, 0, true, false), Pass)
            && Decided(c, Aqm(100, 0, 0, 0, true, false), U32(100), 60, 1, 0)
               == (Aqm(100, 200, 1, 1, true, true), EarlyDrop)
  {
    hide U32, S32, FloorRoot, IsRoot;
    SmallRoots();
    SmallTime(0);
    SmallTime(100);
    SmallTime(200);
  }

  /** The next two: not due, then due. */
  lemma StandingGoesOn()
    ensures var (c, evs) := Standing();
            && Decided(c, Aqm(100, 200, 1, 1, true, true), U32(150), 60, 1, 0)
               == (Aqm(100, 200, 1, 1, true, true), Pass)
            && Decided(c, Aqm(100, 200, 1, 1, true, true), U32(200), 60, 1, 0).1 == EarlyDrop
  {
    hide U32, S32, FloorRoot, IsRoot;
    SmallTime(0);
    SmallTime(50);
    SmallTime(-50);
    SmallTime(100);
    SmallTime(150);
    SmallTime(200);
  }

  /** The station before each of its decisions. */
  lemma StandingStates()
    ensures var (c, evs) := Standing();
            && StateAt(c, evs, 1) == Aqm(100, 0, 0, 0, true, false)
            && StateAt(c, evs, 2) == StateAt(c, evs, 3) == Aqm(100, 200, 1, 1, true, true)
            && VerdictAt(c, evs, 1) == EarlyDrop && VerdictAt(c, evs, 2) == Pass && VerdictAt(c, evs, 3) == EarlyDrop
  {
    hide Decided, U32;
    var (c, evs) := Standing();
    StandingBegins();
    StandingGoesOn();
    assert StateAt(c, evs, 0) == Aqm(0, 0, 0, 0, false, false);
    assert StateAt(c, evs, 1) == Decided(c, StateAt(c, evs, 0), U32(0), 60, 1, 0).0;
    assert StateAt(c, evs, 2) == Decided(c, StateAt(c, evs, 1), U32(100), 60, 1, 0).0;
  }

  /** It is dropped from after the interval, then again when it is due, not before. */
  lemma StandingDrops()
    ensures var (c, evs) := Standing();
            && InTime(evs) && Begins(c, evs, 1) && NoneBelow(c, evs, 1, 4)
            && VerdictAt(c, evs, 2) == Pass && VerdictAt(c, evs, 3) == EarlyDrop && Owed(c, evs, 1, 3) == 100
  {
    hide FloorRoot, IsRoot, StateAt, VerdictAt, U32, S32;
    var (c, evs) := Standing();
    StandingStates();
    SmallRoots();
    assert Owed(c, evs, 1, 1) == 0 && Owed(c, evs, 1, 2) == 100;
  }
}
