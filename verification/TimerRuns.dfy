/** Whole runs: the wheels against a table that simply lists when each timer is due. */
module TimerRuns {
  import opened Radix
  import opened TimerModel
  import opened TimerProofs

  datatype Op =
    | AddTimer(t: Timer, ticks: nat, interval: nat)
    | DelTimer(t: Timer)
    | TickAll

  /** The ideal scheduler: the number of completed calls, what is due when, and what each call fired. */
  datatype Ideal = Ideal(n: nat, live: map<Timer, Entry>, log: seq<set<Timer>>)

  /** The timers the next call is to fire. */
  ghost function DueNow(d: Ideal): set<Timer> {
    set t | t in d.live && d.live[t].due == d.n
  }

  ghost function IdealStep(d: Ideal, op: Op): Ideal {
    match op
    case AddTimer(t, ticks, interval) =>
      if ticks > TIMER_MAX then d
      else d.(live := d.live[t := Entry(FireAt(d.n, Clamp(ticks)), Clamp(ticks), interval)])
    case DelTimer(t) =>
      if t in d.live && CancelWorks(d.n, d.live[t]) then d.(live := d.live - {t}) else d
    case TickAll =>
      Ideal(d.n + 1, After(d.live, d.n), d.log + [DueNow(d)])
  }

  ghost function IdealRun(d: Ideal, ops: seq<Op>): Ideal
    decreases |ops|
  {
    if ops == [] then d else IdealRun(IdealStep(d, ops[0]), ops[1..])
  }

  /** The wheels before anything happens. */
  function Init(): (s: Sys)
    ensures Shape(s)
  {
    Sys(seq(LEVELS, _ => Wheel(0, seq(60, _ => []))), map[], [])
  }

  /** What callers owe: a new timer object each time, an interval the wheels can hold, and cancelling only what was armed. */
  ghost predicate Allowed(s: Sys, op: Op) {
    match op
    case AddTimer(t, _, interval) => t !in s.recs && interval < Pow(LEVELS)
    case DelTimer(t) => t in s.recs
    case TickAll => true
  }

  /** The state is one the operations are defined on. */
  ghost predicate Ready(s: Sys) {
    Shape(s) && Recorded(s) && AllSane(s)
  }

  lemma ClampLevel(ticks: nat)
    requires ticks <= TIMER_MAX
    ensures Level(Clamp(ticks)) < LEVELS
  {
    assert Pow(4) == TIMER_MAX;
    LevelBound(Clamp(ticks), 5);
  }

  ghost function WheelStep(s: Sys, op: Op): Sys {
    if !Ready(s) || !Allowed(s, op) then s
    else
      match op
      case AddTimer(t, ticks, interval) =>
        if ticks > TIMER_MAX then s
        else
          ClampLevel(ticks);
          Arm(s, t, Clamp(ticks), interval)
      case DelTimer(t) => Cancel(s, t)
      case TickAll => Tick(s)
  }

  ghost function WheelRun(s: Sys, ops: seq<Op>): Sys
    decreases |ops|
  {
    if ops == [] then s else WheelRun(WheelStep(s, ops[0]), ops[1..])
  }

  ghost predicate AllowedRun(s: Sys, ops: seq<Op>)
    decreases |ops|
  {
    ops == [] || (Allowed(s, ops[0]) && AllowedRun(WheelStep(s, ops[0]), ops[1..]))
  }

  /** Where each live timer sits: on the wheel its level names, in the slot served when it is to leave that wheel. */
  ghost function SeatsOf(s: Sys, live: map<Timer, Entry>): map<Timer, (nat, nat)> {
    map t | t in live && t in s.recs :: (s.recs[t].level, SlotAt(DrainAt(live[t], s.recs[t].level), s.recs[t].level))
  }

  lemma SeatsAreForced(s: Sys, n: nat, live: map<Timer, Entry>, seats: map<Timer, (nat, nat)>)
    requires Inv(s, n, live, seats)
    ensures seats == SeatsOf(s, live)
  {
    hide SlotAt, DrainAt, Timely, Level;
    forall t | t in live ensures seats[t] == SeatsOf(s, live)[t] {
      assert OnTime(s.recs[t], seats[t].1, n, live[t]);
    }
  }

  /** The callbacks run so far are, call by call, an enumeration without repetition of what the log says. */
  ghost predicate Enumerates(fired: seq<Timer>, log: seq<set<Timer>>)
    decreases |log|
  {
    if log == [] then fired == []
    else
      var last := log[|log| - 1];
      && |last| <= |fired|
      && (var m := |fired| - |last|;
          && (set t | t in fired[m..]) == last
          && Enumerates(fired[..m], log[..|log| - 1]))
  }

  /** The wheels and the ideal scheduler agree. */
  ghost predicate Agree(s: Sys, d: Ideal) {
    && Ready(s) && Inv(s, d.n, d.live, SeatsOf(s, d.live)) && Settled(s, d.n, d.live)
    && |d.log| == d.n && Enumerates(s.fired, d.log)
    && (forall k, t :: 0 <= k < |d.log| && t in d.log[k] ==> t in s.recs)
  }

  lemma InitAgrees()
    ensures Agree(Init(), Ideal(0, map[], []))
  {
    hide OnTime;
    assert forall i, j :: 0 <= i < LEVELS && 0 <= j < 60 ==> Slot(Init(), i, j) == [];
  }

  lemma {:induction false} BatchSet(batch: seq<Timer>)
    requires NoDup(batch)
    ensures |set t | t in batch| == |batch|
  {
    if batch != [] {
      var rest := batch[..|batch| - 1];
      BatchSet(rest);
      assert (set t | t in batch) == (set t | t in rest) + {batch[|batch| - 1]};
    }
  }

  lemma EnumerateMore(fired: seq<Timer>, batch: seq<Timer>, log: seq<set<Timer>>, now: set<Timer>)
    requires Enumerates(fired, log) && NoDup(batch) && now == set t | t in batch
    ensures Enumerates(fired + batch, log + [now])
  {
    BatchSet(batch);
    assert (fired + batch)[|fired|..] == batch && (fired + batch)[..|fired|] == fired;
    assert (log + [now])[..|log|] == log;
  }

  lemma LiveRecorded(s: Sys, n: nat, live: map<Timer, Entry>, seats: map<Timer, (nat, nat)>)
    requires Inv(s, n, live, seats)
    ensures forall t :: t in live ==> t in s.recs
  {
    hide OnTime;
  }

  lemma TickAgrees(s: Sys, d: Ideal)
    requires Agree(s, d)
    ensures Agree(WheelStep(s, TickAll), IdealStep(d, TickAll))
  {
    LiveRecorded(s, d.n, d.live, SeatsOf(s, d.live));
    hide Inv, After, Tick, Enumerates, SlotAt, DrainAt, Level, Settled, SeatsOf, NoDup;
    var batch, seats := TickInv(s, d.n, d.live, SeatsOf(s, d.live));
    DueBatch(d, batch);
    hide DueNow;
    SeatsAreForced(Tick(s), d.n + 1, After(d.live, d.n), seats);
    InvRecorded(Tick(s), d.n + 1, After(d.live, d.n), seats);
    EnumerateMore(s.fired, batch, d.log, DueNow(d));
    LogRecorded(d.log, DueNow(d), s.recs.Keys);
  }

  lemma DueBatch(d: Ideal, batch: seq<Timer>)
    requires forall t :: t in batch <==> t in d.live && d.live[t].due == d.n
    ensures DueNow(d) == set t | t in batch
  {
  }

  lemma LogRecorded(log: seq<set<Timer>>, now: set<Timer>, recs: set<Timer>)
    requires now <= recs && forall k, t :: 0 <= k < |log| && t in log[k] ==> t in recs
    ensures forall k, t :: 0 <= k < |log + [now]| && t in (log + [now])[k] ==> t in recs
  {
  }

  lemma ArmSettled(s: Sys, n: nat, live: map<Timer, Entry>, t: Timer, ticks: nat, interval: nat)
    requires Shape(s) && Settled(s, n, live) && Level(ticks) < LEVELS
    ensures Settled(Arm(s, t, ticks, interval), n, live[t := Entry(FireAt(n, ticks), ticks, interval)])
    ensures Arm(s, t, ticks, interval).recs.Keys == s.recs.Keys + {t} && Arm(s, t, ticks, interval).fired == s.fired
  {
    hide Level, DrainAt, FireAt, SetSlot, Lead;
  }

  lemma AddAgrees(s: Sys, d: Ideal, t: Timer, ticks: nat, interval: nat)
    requires Agree(s, d) && t !in s.recs && ticks <= TIMER_MAX && interval < Pow(LEVELS)
    ensures Agree(WheelStep(s, AddTimer(t, ticks, interval)), IdealStep(d, AddTimer(t, ticks, interval)))
  {
    ClampLevel(ticks);
    LevelInRange(interval);
    ArmSettled(s, d.n, d.live, t, Clamp(ticks), interval);
    hide OnTime, Enumerates, SlotAt, DrainAt, Level, Seated, Cursors, FireAt, Arm, Settled, Shape;
    var r := Arm(s, t, Clamp(ticks), interval);
    var live := d.live[t := Entry(FireAt(d.n, Clamp(ticks)), Clamp(ticks), interval)];
    var seats := ArmInv(s, d.n, d.live, SeatsOf(s, d.live), t, Clamp(ticks), interval);
    SeatsAreForced(r, d.n, live, seats);
    InvRecorded(r, d.n, live, seats);
  }

  lemma DelAgrees(s: Sys, d: Ideal, t: Timer)
    requires Agree(s, d) && t in s.recs
    ensures Agree(WheelStep(s, DelTimer(t)), IdealStep(d, DelTimer(t)))
  {
    hide OnTime, Enumerates, CancelWorks, SlotAt, DrainAt, Level, Seated, Cursors;
    var live := if t in d.live && CancelWorks(d.n, d.live[t]) then d.live - {t} else d.live;
    var seats := CancelInv(s, d.n, d.live, SeatsOf(s, d.live), t);
    SeatsAreForced(Cancel(s, t), d.n, live, seats);
    InvRecorded(Cancel(s, t), d.n, live, seats);
  }

  lemma StepAgrees(s: Sys, d: Ideal, op: Op)
    requires Agree(s, d) && Allowed(s, op)
    ensures Agree(WheelStep(s, op), IdealStep(d, op))
  {
    match op
    case AddTimer(t, ticks, interval) => if ticks <= TIMER_MAX { AddAgrees(s, d, t, ticks, interval); }
    case DelTimer(t) => DelAgrees(s, d, t);
    case TickAll => TickAgrees(s, d);
  }

  /** Whatever is armed, cancelled and ticked in whatever order, the wheels fire what the ideal scheduler fires. */
  lemma {:induction false} RunAgrees(s: Sys, d: Ideal, ops: seq<Op>)
    requires Agree(s, d) && AllowedRun(s, ops)
    ensures Agree(WheelRun(s, ops), IdealRun(d, ops))
    decreases |ops|
  {
    if ops != [] {
      StepAgrees(s, d, ops[0]);
      RunAgrees(WheelStep(s, ops[0]), IdealStep(d, ops[0]), ops[1..]);
    }
  }

  // ----- when one timer fires -----

  /** The constant distance between the firings of a repeating timer, from its second firing on. */
  function Gap(interval: nat): nat {
    Pow(Level(interval)) * Lead(interval)
  }

  /** The calls that fire a timer which is due at `first` and repeats with `interval`, if that is not 0. */
  ghost predicate FiresAt(first: nat, interval: nat, k: nat) {
    || k == first
    || (interval > 0 && FiresAfter(FireAt(first, interval), Gap(interval), k))
  }

  ghost predicate FiresAfter(second: int, gap: nat, k: int) {
    gap > 0 && second <= k && (k - second) % gap == 0
  }

  lemma GapPositive(interval: nat)
    requires interval > 0
    ensures 0 < Gap(interval) <= interval
  {
    LeadingDigit(interval);
    MulMono(Pow(Level(interval)), 1, Lead(interval));
  }

  /** A repeating timer keeps its interval exactly if the interval is a whole number of slots of its wheel. */
  lemma GapIsInterval(interval: nat)
    requires interval > 0
    ensures Gap(interval) == interval <==> interval % Pow(Level(interval)) == 0
    ensures interval < 60 ==> Gap(interval) == interval
  {
    LeadingDigit(interval);
    hide Pow, Level, Lead;
    WholeSlots(Pow(Level(interval)), interval);
    if interval < 60 { ShortInterval(interval); }
  }

  lemma ShortInterval(interval: nat)
    requires interval < 60
    ensures Pow(Level(interval)) == 1
  {
  }

  lemma WholeSlots(p: nat, x: nat)
    requires p > 0
    ensures p * (x / p) == x <==> x % p == 0
    ensures p == 1 ==> x % p == 0
  {
  }

  /** Re-arming in the call that fires moves the next firing by exactly the gap. */
  lemma GapIsConstant(n: nat, interval: nat)
    requires interval > 0
    ensures FireAt(n, interval) >= 0 && FireAt(FireAt(n, interval), interval) == FireAt(n, interval) + Gap(interval)
  {
    FiresLater(n, interval);
    LeadingDigit(interval);
    OnesClosedForm(Level(interval));
    hide Pow, Ones, Level;
    NextFiring(Pow(Level(interval)), n, Lead(interval), interval % 60, Ones(Level(interval)));
  }

  lemma NextFiring(p: nat, n: nat, lead: nat, r: nat, ones: nat)
    requires p > 0 && 59 * ones == p - 1 && r < 60
    ensures var f := p * (n / p + lead) + r * ones; p * (f / p + lead) + r * ones == f + p * lead
  {
    var q := n / p + lead;
    MulMono(ones, r, 59);
    DivMulAdd(p, q, r * ones);
    Distribute(p, q, lead);
  }

  /** Skipping the first of the later firings leaves the others. */
  lemma FiresStep(first: nat, interval: nat, k: nat)
    requires interval > 0 && first < k
    ensures FireAt(first, interval) >= 0 && (FiresAt(first, interval, k) <==> FiresAt(FireAt(first, interval), interval, k))
  {
    GapPositive(interval);
    GapIsConstant(first, interval);
    hide FireAt, Gap;
    SkipOne(FireAt(first, interval), Gap(interval), k);
  }

  lemma SkipOne(a: int, g: nat, k: int)
    requires g > 0
    ensures FiresAfter(a, g, k) <==> k == a || FiresAfter(a + g, g, k)
  {
    if a <= k {
      var q, r := (k - a) / g, (k - a) % g;
      assert k - a == g * q + r;
      DivUnique(k - a - g, g, q - 1, r);
      if q == 0 && r == 0 { assert k == a; }
      if q < 1 { MulMono(g, q, 0); }
      if q >= 1 { MulMono(g, 1, q); }
    }
  }

  /** A timer that is not live and not armed again never fires. */
  lemma {:induction false} AbsentNeverFires(d: Ideal, ops: seq<Op>, t: Timer)
    requires |d.log| == d.n && t !in d.live
    requires forall op :: op in ops ==> !(op.AddTimer? && op.t == t)
    ensures var d' := IdealRun(d, ops);
      |d'.log| == d'.n && d.log <= d'.log && forall k :: d.n <= k < d'.n ==> t !in d'.log[k]
    decreases |ops|
  {
    if ops != [] { AbsentNeverFires(IdealStep(d, ops[0]), ops[1..], t); }
  }

  /** The number of calls completed when a cancellation of the timer first takes effect, or at the end of the run. */
  ghost function StopsAt(d: Ideal, ops: seq<Op>, t: Timer): nat
    decreases |ops|
  {
    if ops == [] then d.n
    else if ops[0] == DelTimer(t) && t in d.live && CancelWorks(d.n, d.live[t]) then d.n
    else StopsAt(IdealStep(d, ops[0]), ops[1..], t)
  }

  lemma {:induction false} StopsWithin(d: Ideal, ops: seq<Op>, t: Timer)
    ensures d.n <= StopsAt(d, ops, t) <= IdealRun(d, ops).n
    ensures DelTimer(t) !in ops ==> StopsAt(d, ops, t) == IdealRun(d, ops).n
    decreases |ops|
  {
    hide CancelWorks, After;
    if ops != [] {
      StopsWithin(IdealStep(d, ops[0]), ops[1..], t);
      CallsCounted(d, ops);
      CallsCounted(IdealStep(d, ops[0]), ops[1..]);
    }
  }

  lemma {:induction false} AbsentNeverStops(d: Ideal, ops: seq<Op>, t: Timer)
    requires t !in d.live && forall op :: op in ops ==> !(op.AddTimer? && op.t == t)
    ensures StopsAt(d, ops, t) == IdealRun(d, ops).n
    decreases |ops|
  {
    hide CancelWorks;
    if ops != [] { AbsentNeverStops(IdealStep(d, ops[0]), ops[1..], t); }
  }

  /** A live timer fires in exactly the calls its entry stands for, until a cancellation takes effect. */
  lemma {:induction false} LiveFires(d: Ideal, ops: seq<Op>, t: Timer)
    requires |d.log| == d.n && t in d.live && d.n <= d.live[t].due
    requires forall op :: op in ops ==> !(op.AddTimer? && op.t == t)
    ensures var d' := IdealRun(d, ops);
      && |d'.log| == d'.n && d.log <= d'.log
      && forall k :: d.n <= k < d'.n ==>
           (t in d'.log[k] <==> FiresAt(d.live[t].due, d.live[t].interval, k) && k < StopsAt(d, ops, t))
    decreases |ops|
  {
    hide FiresAfter, Gap, FireAt, CancelWorks;
    if ops != [] {
      var d1, e := IdealStep(d, ops[0]), d.live[t];
      StopsWithin(d1, ops[1..], t);
      if ops[0].TickAll? && e.due == d.n {
        FiresNow(d, ops, t);
      } else if ops[0] == DelTimer(t) && CancelWorks(d.n, e) {
        AbsentNeverFires(d1, ops[1..], t);
      } else {
        LiveFires(d1, ops[1..], t);
        if ops[0].TickAll? { NotYet(e, d.n); }
      }
    }
  }

  /** The call in which the timer is due: it fires, and goes on if it repeats. */
  lemma {:induction false} FiresNow(d: Ideal, ops: seq<Op>, t: Timer)
    requires |d.log| == d.n && t in d.live && d.n == d.live[t].due && ops != [] && ops[0].TickAll?
    requires forall op :: op in ops ==> !(op.AddTimer? && op.t == t)
    ensures var d' := IdealRun(d, ops);
      && |d'.log| == d'.n && d.log <= d'.log
      && forall k :: d.n <= k < d'.n ==>
           (t in d'.log[k] <==> FiresAt(d.live[t].due, d.live[t].interval, k) && k < StopsAt(d, ops, t))
    decreases |ops|, 0
  {
    hide FiresAfter, Gap, FireAt, CancelWorks;
    var d1, e := IdealStep(d, ops[0]), d.live[t];
    StopsWithin(d1, ops[1..], t);
    if e.interval == 0 {
      AbsentNeverFires(d1, ops[1..], t);
    } else {
      FiresLater(d.n, e.interval);
      LiveFires(d1, ops[1..], t);
      forall k: nat | d.n < k ensures FiresAt(e.due, e.interval, k) <==> FiresAt(FireAt(e.due, e.interval), e.interval, k) {
        FiresStep(e.due, e.interval, k);
      }
    }
  }

  lemma NotYet(e: Entry, k: nat)
    requires k < e.due
    ensures !FiresAt(e.due, e.interval, k)
  {
    if e.interval > 0 { FiresLater(e.due, e.interval); }
  }

  // ----- from the empty wheels -----

  function Ticks(ops: seq<Op>): nat {
    if ops == [] then 0 else (if ops[0].TickAll? then 1 else 0) + Ticks(ops[1..])
  }

  /** Everything the runs below start from. */
  ghost const START: Ideal := Ideal(0, map[], [])

  lemma {:induction false} CallsCounted(d: Ideal, ops: seq<Op>)
    ensures IdealRun(d, ops).n == d.n + Ticks(ops)
    decreases |ops|
  {
    if ops != [] { CallsCounted(IdealStep(d, ops[0]), ops[1..]); }
  }

  lemma {:induction false} RunInTwo(s: Sys, d: Ideal, a: seq<Op>, b: seq<Op>)
    ensures WheelRun(s, a + b) == WheelRun(WheelRun(s, a), b)
    ensures IdealRun(d, a + b) == IdealRun(IdealRun(d, a), b)
    ensures AllowedRun(s, a + b) <==> AllowedRun(s, a) && AllowedRun(WheelRun(s, a), b)
    decreases |a|
  {
    if a == [] {
      assert a + b == b;
    } else {
      assert (a + b)[0] == a[0] && (a + b)[1..] == a[1..] + b;
      RunInTwo(WheelStep(s, a[0]), IdealStep(d, a[0]), a[1..], b);
    }
  }

  /** After any run the cursors show the number of calls, digit by digit in base 60. */
  lemma Odometer(ops: seq<Op>)
    requires AllowedRun(Init(), ops)
    ensures var s := WheelRun(Init(), ops);
      Shape(s) && forall i :: 0 <= i < LEVELS ==> s.wheels[i].cur == Ticks(ops) / Pow(i) % 60
  {
    hide WheelRun, IdealRun, AllowedRun, Pow, Enumerates, Settled, OnTime, Seated, Recorded, AllSane;
    InitAgrees();
    RunAgrees(Init(), START, ops);
    CallsCounted(START, ops);
  }

  /** A cursor moves in exactly the calls that complete a power of 60, and then every lower cursor is back at 0. */
  lemma CursorMoves(n: nat, next: nat, i: nat)
    requires next == n + 1
    ensures SlotAt(next, i) != SlotAt(n, i) <==> next % Pow(i) == 0
    ensures next % Pow(i) == 0 ==> forall j :: 0 <= j < i ==> SlotAt(next, j) == 0
  {
    NextQuotient(n, Pow(i));
    if next % Pow(i) == 0 {
      forall j | 0 <= j < i ensures SlotAt(next, j) == 0 { MultipleDownTo(next, i, j); }
    }
  }

  lemma NextQuotient(n: nat, p: nat)
    requires p > 0
    ensures (n + 1) / p == n / p + if (n + 1) % p == 0 then 1 else 0
  {
    var q, r := n / p, n % p;
    if r + 1 < p {
      DivUnique(n + 1, p, q, r + 1);
    } else {
      Distribute(p, q, 1);
      DivUnique(n + 1, p, q + 1, 0);
    }
  }

  /** The timer is in this slot and in no other. */
  ghost predicate OnlyIn(s: Sys, t: Timer, wheel: nat, slot: nat)
    requires Shape(s)
  {
    forall i, j :: 0 <= i < LEVELS && 0 <= j < 60 ==> (t in Slot(s, i, j) <==> i == wheel && j == slot)
  }

  /**
   * Conservation: after any run every live timer is in exactly one slot of the wheel its level names, once, and
   * the slots hold nothing else.
   */
  lemma Conservation(ops: seq<Op>)
    requires AllowedRun(Init(), ops)
    ensures var s, live := WheelRun(Init(), ops), IdealRun(START, ops).live;
      && Shape(s) && (forall t :: t in live ==> t in s.recs && s.recs[t].level < LEVELS)
      && (forall t :: t in live ==> exists j :: 0 <= j < 60 && OnlyIn(s, t, s.recs[t].level, j))
      && (forall i, j, t :: 0 <= i < LEVELS && 0 <= j < 60 && t in Slot(s, i, j) ==> t in live)
      && (forall i, j :: 0 <= i < LEVELS && 0 <= j < 60 ==> NoDup(Slot(s, i, j)))
  {
    hide WheelRun, IdealRun, AllowedRun, Enumerates, Settled, OnTime, Cursors, Recorded, AllSane, NoDup, SlotAt, DrainAt,
         Slot, Shape;
    InitAgrees();
    RunAgrees(Init(), START, ops);
    var s, live := WheelRun(Init(), ops), IdealRun(START, ops).live;
    forall t | t in live ensures t in s.recs && s.recs[t].level < LEVELS
      && exists j :: 0 <= j < 60 && OnlyIn(s, t, s.recs[t].level, j)
    {
      SeatIsOnly(s, SeatsOf(s, live), t);
    }
  }

  lemma SeatIsOnly(s: Sys, seats: map<Timer, (nat, nat)>, t: Timer)
    requires Seated(s, seats) && t in seats
    ensures seats[t].1 < 60 && OnlyIn(s, t, s.recs[t].level, seats[t].1)
  {
    hide NoDup, Slot;
  }

  /** A timer object is armed by its callers at most once. */
  lemma {:induction false} ArmedOnce(s: Sys, ops: seq<Op>, t: Timer)
    requires t in s.recs && AllowedRun(s, ops)
    ensures forall op :: op in ops ==> !(op.AddTimer? && op.t == t)
    decreases |ops|
  {
    hide Arm, Cancel, Tick;
    if ops != [] {
      StepKeepsRecords(s, ops[0]);
      ArmedOnce(WheelStep(s, ops[0]), ops[1..], t);
    }
  }

  lemma StepKeepsRecords(s: Sys, op: Op)
    ensures s.recs.Keys <= WheelStep(s, op).recs.Keys
  {
    hide Level, Ready, SetSlot, Without;
  }

  /** How many calls fired a timer. */
  ghost function Firings(log: seq<set<Timer>>, t: Timer): nat {
    if log == [] then 0
    else Firings(log[..|log| - 1], t) + if t in log[|log| - 1] then 1 else 0
  }

  /** The callback of a timer has run once for every call that fired it. */
  lemma {:induction false} CallbacksCounted(fired: seq<Timer>, log: seq<set<Timer>>, t: Timer)
    requires Enumerates(fired, log)
    ensures multiset(fired)[t] == Firings(log, t)
    decreases |log|
  {
    if log != [] {
      var last := log[|log| - 1];
      var m := |fired| - |last|;
      CallbacksCounted(fired[..m], log[..|log| - 1], t);
      OncePerElement(fired[m..], t);
      assert fired == fired[..m] + fired[m..];
    }
  }

  /** A list as long as its set of elements has no repetition. */
  lemma {:induction false} OncePerElement(l: seq<Timer>, t: Timer)
    requires |set u | u in l| == |l|
    ensures multiset(l)[t] == if t in l then 1 else 0
  {
    if l != [] {
      var rest, x := l[..|l| - 1], l[|l| - 1];
      assert l == rest + [x];
      assert (set u | u in l) == (set u | u in rest) + {x};
      FewElements(rest);
      OncePerElement(rest, t);
    }
  }

  lemma {:induction false} FewElements(l: seq<Timer>)
    ensures |set u | u in l| <= |l|
  {
    if l != [] {
      var rest, x := l[..|l| - 1], l[|l| - 1];
      assert (set u | u in l) == (set u | u in rest) + {x};
      FewElements(rest);
    }
  }

  /**
   * Exact firing times over whole runs. A timer armed after n completed calls runs its callback in exactly the
   * calls `FiresAt` names, until a cancellation takes effect, whatever else is armed, cancelled or fired. The first
   * is the next call but one for a delay of 0.
   */
  lemma FiringTimes(before: seq<Op>, t: Timer, ticks: nat, interval: nat, after: seq<Op>)
    requires ticks <= 12960000
    requires AllowedRun(Init(), before + ([AddTimer(t, ticks, interval)] + after))
    ensures var arm := AddTimer(t, ticks, interval);
      var ops, n := before + ([arm] + after), Ticks(before);
      var s, d, first := WheelRun(Init(), ops), IdealRun(START, ops), if ticks == 0 then n + 1 else FireAt(n, ticks);
      var stop := StopsAt(IdealStep(IdealRun(START, before), arm), after, t);
      && Agree(s, d) && |d.log| == Ticks(ops) && n < first
      && multiset(s.fired)[t] == Firings(d.log, t)
      && n <= stop <= Ticks(ops) && (DelTimer(t) !in after ==> stop == Ticks(ops))
      && forall k :: 0 <= k < Ticks(ops) ==> (t in d.log[k] <==> FiresAt(first, interval, k) && k < stop)
  {
    var arm := AddTimer(t, ticks, interval);
    var ops := before + ([arm] + after);
    hide WheelStep, FiresAfter, FireAt, Inv, Settled, Ready, Recorded, AllSane, CancelWorks, Clamp, StopsAt, Agree, FiresAt, AllowedRun,
         Enumerates;
    InitAgrees();
    RunAgrees(Init(), START, ops);
    CallsCounted(START, ops);
    CallsCounted(START, before);
    RunInTwo(Init(), START, before, [arm] + after);
    RunAgrees(Init(), START, before);
    CallbacksCounted(WheelRun(Init(), ops).fired, IdealRun(START, ops).log, t);
    FirstFiring(Ticks(before), ticks);
    ArmedThen(WheelRun(Init(), before), IdealRun(START, before), t, ticks, interval, after);
  }

  /** A delay of 0 counts as 1. */
  lemma FirstFiring(n: nat, ticks: nat)
    ensures FireAt(n, Clamp(ticks)) == if ticks == 0 then n + 1 else FireAt(n, ticks)
  {
    ShortDelays(n, Clamp(ticks));
  }

  /** A delay of more than 60^4 ticks is refused: nothing changes. */
  lemma Refused(s: Sys, d: Ideal, t: Timer, ticks: nat, interval: nat)
    requires ticks > 12960000
    ensures WheelStep(s, AddTimer(t, ticks, interval)) == s && IdealStep(d, AddTimer(t, ticks, interval)) == d
  {
  }

  lemma ArmedThen(s: Sys, d: Ideal, t: Timer, ticks: nat, interval: nat, after: seq<Op>)
    requires Agree(s, d) && ticks <= TIMER_MAX
    requires AllowedRun(s, [AddTimer(t, ticks, interval)] + after)
    ensures var arm := AddTimer(t, ticks, interval);
      var first, d', stop := FireAt(d.n, Clamp(ticks)), IdealRun(d, [arm] + after), StopsAt(IdealStep(d, arm), after, t);
      && d.n < first && |d'.log| == d'.n
      && d.n <= stop <= d'.n && (DelTimer(t) !in after ==> stop == d'.n)
      && forall k :: 0 <= k < d'.n ==> (t in d'.log[k] <==> FiresAt(first, interval, k) && k < stop)
  {
    var arm := AddTimer(t, ticks, interval);
    assert ([arm] + after)[0] == arm && ([arm] + after)[1..] == after;
    FiresLater(d.n, Clamp(ticks));
    AddedOnce(s, d, arm, after);
    hide WheelStep, Agree, FiresAfter, FireAt, CancelWorks, FiresAt, StopsAt, AllowedRun;
    AfterArming(d, t, ticks, interval, after);
  }

  lemma AddedOnce(s: Sys, d: Ideal, arm: Op, after: seq<Op>)
    requires Agree(s, d) && arm.AddTimer? && arm.ticks <= TIMER_MAX && AllowedRun(s, [arm] + after)
    ensures |d.log| == d.n && forall k :: 0 <= k < d.n ==> arm.t !in d.log[k]
    ensures forall op :: op in after ==> !(op.AddTimer? && op.t == arm.t)
  {
    assert ([arm] + after)[0] == arm && ([arm] + after)[1..] == after;
    hide Inv, Settled, Enumerates, Ready;
    AddedRecord(s, arm);
    ArmedOnce(WheelStep(s, arm), after, arm.t);
  }

  lemma AddedRecord(s: Sys, arm: Op)
    requires Ready(s) && arm.AddTimer? && Allowed(s, arm) && arm.ticks <= TIMER_MAX
    ensures arm.t in WheelStep(s, arm).recs
  {
    hide Level, SetSlot;
  }

  lemma AfterArming(d: Ideal, t: Timer, ticks: nat, interval: nat, after: seq<Op>)
    requires |d.log| == d.n && (forall k :: 0 <= k < d.n ==> t !in d.log[k]) && ticks <= TIMER_MAX
    requires forall op :: op in after ==> !(op.AddTimer? && op.t == t)
    requires d.n < FireAt(d.n, Clamp(ticks))
    ensures var d1 := IdealStep(d, AddTimer(t, ticks, interval));
      var first, d', stop := FireAt(d.n, Clamp(ticks)), IdealRun(d1, after), StopsAt(d1, after, t);
      && |d'.log| == d'.n && d.n <= stop <= d'.n && (DelTimer(t) !in after ==> stop == d'.n)
      && forall k :: 0 <= k < d'.n ==> (t in d'.log[k] <==> FiresAt(first, interval, k) && k < stop)
  {
    var first, d1 := FireAt(d.n, Clamp(ticks)), IdealStep(d, AddTimer(t, ticks, interval));
    hide FiresAfter, FireAt, CancelWorks, FiresAt, StopsAt, IdealRun, Clamp;
    LiveFires(d1, after, t);
    StopsWithin(d1, after, t);
    forall k: nat | k < d.n ensures !FiresAt(first, interval, k) { NotYet(Entry(first, Clamp(ticks), interval), k); }
  }

  lemma {:induction false} FiresOnce(log: seq<set<Timer>>, t: Timer, first: nat, stop: nat)
    requires forall k :: 0 <= k < |log| ==> (t in log[k] <==> k == first && k < stop)
    ensures Firings(log, t) == if first < |log| && first < stop then 1 else 0
  {
    if log != [] { FiresOnce(log[..|log| - 1], t, first, stop); }
  }

  /** A one-shot timer's callback runs once if its call has come before a cancellation took effect, and otherwise not. */
  lemma OneShot(before: seq<Op>, t: Timer, ticks: nat, after: seq<Op>)
    requires ticks <= 12960000
    requires AllowedRun(Init(), before + ([AddTimer(t, ticks, 0)] + after))
    ensures var arm, n := AddTimer(t, ticks, 0), Ticks(before);
      multiset(WheelRun(Init(), before + ([arm] + after)).fired)[t] ==
        if (if ticks == 0 then n + 1 else FireAt(n, ticks)) < StopsAt(IdealStep(IdealRun(START, before), arm), after, t) then 1 else 0
  {
    hide WheelRun, IdealRun, AllowedRun, Agree, FireAt, StopsAt;
    FiringTimes(before, t, ticks, 0, after);
    var arm, n := AddTimer(t, ticks, 0), Ticks(before);
    FiresOnce(IdealRun(START, before + ([arm] + after)).log, t, if ticks == 0 then n + 1 else FireAt(n, ticks),
              StopsAt(IdealStep(IdealRun(START, before), arm), after, t));
  }

  // ----- when cancelling is too late -----

  /** For a timer armed after n calls and not yet fired, exactly until when, or where, cancelling takes effect. */
  lemma CancelTerms(n: nat, ticks: nat, interval: nat, now: nat)
    requires ticks > 0
    ensures var p := Pow(Level(ticks)); var block := n / p + Lead(ticks);
      CancelWorks(now, Entry(FireAt(n, ticks), ticks, interval)) <==> now <= p * block || block % 60 == ticks % 60
  {
    LeadingDigit(ticks);
    hide Pow, Ones, Level, Lead;
    var p := Pow(Level(ticks));
    BlockStart(p, n, Lead(ticks));
  }

  /** Nothing but ticks. */
  function Idle(m: nat): (ops: seq<Op>)
    ensures |ops| == m && forall op :: op in ops ==> op == TickAll
  {
    if m == 0 then [] else [TickAll] + Idle(m - 1)
  }

  /** Ticking before a timer is due changes nothing about it. */
  lemma {:induction false} Waits(d: Ideal, m: nat, t: Timer)
    requires t in d.live && d.n + m <= d.live[t].due
    ensures var r := IdealRun(d, Idle(m)); r.n == d.n + m && t in r.live && r.live[t] == d.live[t]
    decreases m
  {
    hide FireAt;
    if m > 0 {
      assert Idle(m)[1..] == Idle(m - 1);
      Waits(IdealStep(d, TickAll), m - 1, t);
    }
  }

  lemma {:induction false} IdleAllowed(s: Sys, m: nat, more: seq<Op>)
    requires AllowedRun(WheelRun(s, Idle(m)), more)
    ensures AllowedRun(s, Idle(m) + more)
    decreases m
  {
    hide WheelStep, Allowed;
    if m == 0 {
      assert Idle(0) + more == more;
    } else {
      var ops := Idle(m) + more;
      assert ops[0] == TickAll && ops[1..] == Idle(m - 1) + more && Idle(m)[1..] == Idle(m - 1);
      assert Allowed(s, TickAll) by { TickAllowed(s); }
      IdleAllowed(WheelStep(s, TickAll), m - 1, more);
    }
  }

  lemma TickAllowed(s: Sys)
    ensures Allowed(s, TickAll)
  {
  }

  lemma {:induction false} StopsAfterIdle(d: Ideal, m: nat, more: seq<Op>, t: Timer)
    ensures StopsAt(d, Idle(m) + more, t) == StopsAt(IdealRun(d, Idle(m)), more, t)
    decreases m
  {
    hide After, CancelWorks;
    if m == 0 {
      assert Idle(0) + more == more;
    } else {
      var ops := Idle(m) + more;
      assert ops[0] == TickAll && ops[1..] == Idle(m - 1) + more && Idle(m)[1..] == Idle(m - 1);
      StopsAfterIdle(IdealStep(d, TickAll), m - 1, more, t);
    }
  }

  lemma {:induction false} RunKeepsRecords(s: Sys, ops: seq<Op>)
    ensures s.recs.Keys <= WheelRun(s, ops).recs.Keys
    decreases |ops|
  {
    hide WheelStep;
    if ops != [] {
      StepKeepsRecords(s, ops[0]);
      RunKeepsRecords(WheelStep(s, ops[0]), ops[1..]);
    }
  }

  /** A delay of 62 ticks is handed down in call 60, to a slot other than the recorded one. */
  lemma LateEntry(t: Timer)
    ensures FireAt(0, 62) == 62 && Clamp(62) == 62 && !CancelWorks(61, Entry(62, 62, 0))
  {
    assert Level(62 / 60) == 0 && Level(62) == 1;
    assert Pow(1) == 60 * Pow(0) && Ones(1) == Ones(0) + Pow(0) && Ones(0) == 0 && Pow(0) == 1;
  }

  /**
   * Cancelling does come too late: a timer of 62 ticks, cancelled after 61 calls, fires in the second call after
   * that as if nothing had happened.
   */
  lemma CancelTooLate(t: Timer)
    ensures var ops := [AddTimer(t, 62, 0)] + (Idle(61) + ([DelTimer(t)] + Idle(2)));
      AllowedRun(Init(), ops) && Ticks(ops) == 63 && multiset(WheelRun(Init(), ops).fired)[t] == 1
  {
    hide AllowedRun, StopsAt, FireAt, WheelRun, IdealRun, Idle, Ticks, CancelWorks;
    var arm, after := AddTimer(t, 62, 0), Idle(61) + ([DelTimer(t)] + Idle(2));
    LateRunAllowed(t);
    LateStop(t);
    LateTicks(t);
    LateEntry(t);
    NoOps();
    assert [] + ([arm] + after) == [arm] + after;
    OneShot([], t, 62, after);
  }

  lemma LateTicks(t: Timer)
    ensures Ticks([AddTimer(t, 62, 0)] + (Idle(61) + ([DelTimer(t)] + Idle(2)))) == 63
  {
    hide Idle;
    IdleTicks(61);
    IdleTicks(2);
    TicksAdd([DelTimer(t)], Idle(2));
    TicksAdd(Idle(61), [DelTimer(t)] + Idle(2));
    TicksAdd([AddTimer(t, 62, 0)], Idle(61) + ([DelTimer(t)] + Idle(2)));
    assert [DelTimer(t)][1..] == [] && [AddTimer(t, 62, 0)][1..] == [];
  }

  lemma {:induction false} TicksAdd(a: seq<Op>, b: seq<Op>)
    ensures Ticks(a + b) == Ticks(a) + Ticks(b)
    decreases |a|
  {
    if a == [] {
      assert a + b == b;
    } else {
      assert (a + b)[0] == a[0] && (a + b)[1..] == a[1..] + b;
      TicksAdd(a[1..], b);
    }
  }

  lemma NoOps()
    ensures IdealRun(START, []) == START && Ticks([]) == 0
  {
  }

  lemma InitReady()
    ensures Ready(Init())
  {
  }

  lemma FirstAllowed(s: Sys, op: Op, rest: seq<Op>)
    requires Allowed(s, op) && AllowedRun(WheelStep(s, op), rest)
    ensures AllowedRun(s, [op] + rest)
  {
    hide WheelStep, Allowed;
    assert ([op] + rest)[0] == op && ([op] + rest)[1..] == rest;
  }

  lemma LateRunAllowed(t: Timer)
    ensures AllowedRun(Init(), [AddTimer(t, 62, 0)] + (Idle(61) + ([DelTimer(t)] + Idle(2))))
  {
    var arm, rest := AddTimer(t, 62, 0), [DelTimer(t)] + Idle(2);
    InitReady();
    hide Ready, WheelStep, Idle, AllowedRun, WheelRun;
    AddedRecord(Init(), arm);
    var s1 := WheelStep(Init(), arm);
    var s2 := WheelRun(s1, Idle(61));
    RunKeepsRecords(s1, Idle(61));
    NothingAllowed(WheelRun(WheelStep(s2, DelTimer(t)), Idle(2)));
    IdleAllowed(WheelStep(s2, DelTimer(t)), 2, []);
    assert Idle(2) + [] == Idle(2);
    FirstAllowed(s2, DelTimer(t), Idle(2));
    IdleAllowed(s1, 61, rest);
    FirstAllowed(Init(), arm, Idle(61) + rest);
  }

  lemma NothingAllowed(s: Sys)
    ensures AllowedRun(s, [])
  {
  }

  lemma LateStop(t: Timer)
    ensures var ops := Idle(61) + ([DelTimer(t)] + Idle(2));
      StopsAt(IdealStep(START, AddTimer(t, 62, 0)), ops, t) == 63
  {
    var rest := [DelTimer(t)] + Idle(2);
    var d1 := IdealStep(START, AddTimer(t, 62, 0));
    LateEntry(t);
    hide Idle, CancelWorks, FireAt;
    Waits(d1, 61, t);
    StopsAfterIdle(d1, 61, rest, t);
    var d2 := IdealRun(d1, Idle(61));
    assert rest[0] == DelTimer(t) && rest[1..] == Idle(2);
    StopsWithin(d2, Idle(2), t);
    CallsCounted(d2, Idle(2));
    IdleTicks(2);
  }

  lemma {:induction false} IdleTicks(m: nat)
    ensures Ticks(Idle(m)) == m
  {
    if m > 0 {
      assert Idle(m)[1..] == Idle(m - 1);
      IdleTicks(m - 1);
    }
  }

  // ----- how far that is from "now plus ticks" -----

  /** Short delays are exact; delays below an hour of ticks are counted from the last multiple of 60. */
  lemma ShortDelays(n: nat, ticks: nat)
    ensures ticks < 60 ==> FireAt(n, ticks) == n + ticks
    ensures 60 <= ticks < 3600 ==> FireAt(n, ticks) == n + ticks - n % 60
  {
    assert Pow(0) == 1 && Ones(0) == 0;
    if 60 <= ticks < 3600 {
      assert Level(ticks / 60) == 0 && Level(ticks) == 1;
      assert Pow(1) == 60 * Pow(0) && Ones(1) == Ones(0) + Pow(0);
    }
  }

  /** The error of any delay, and exactly when there is none. */
  lemma Accuracy(n: nat, ticks: nat)
    requires ticks > 0
    ensures var k := Level(ticks); var p := Pow(k);
      && FireAt(n, ticks) - (n + ticks) == ticks % 60 * Ones(k) - n % p - ticks % p
      && -2 * p < FireAt(n, ticks) - (n + ticks) < p
      && (FireAt(n, ticks) == n + ticks <==> n % p + ticks % p == ticks % 60 * Ones(k))
  {
    OnesClosedForm(Level(ticks));
    hide Pow, Ones, Level;
    ErrorOf(Pow(Level(ticks)), n, ticks, ticks % 60, Ones(Level(ticks)));
  }

  lemma ErrorOf(p: nat, n: nat, ticks: nat, r: nat, ones: nat)
    requires p > 0 && 59 * ones == p - 1 && r < 60
    ensures p * (n / p + ticks / p) + r * ones - (n + ticks) == r * ones - n % p - ticks % p
    ensures 0 <= r * ones < p && 0 <= n % p < p && 0 <= ticks % p < p
  {
    Distribute(p, n / p, ticks / p);
    MulMono(ones, 0, r);
    MulMono(ones, r, 59);
  }

  /** Armed on a boundary of its wheel, a timer is on time exactly when all digits below its leading one are equal. */
  lemma OnTimeWhenAligned(n: nat, ticks: nat)
    requires ticks > 0 && n % Pow(Level(ticks)) == 0
    ensures FireAt(n, ticks) == n + ticks <==> forall i :: 0 <= i < Level(ticks) ==> SlotAt(ticks, i) == ticks % 60
  {
    Accuracy(n, ticks);
    EqualDigits(ticks, Level(ticks));
  }

  /** The lowest k digits add up to what they would if they were all the last one. */
  ghost predicate Uniform(x: nat, k: nat) {
    x % Pow(k) == x % 60 * Ones(k)
  }

  lemma {:induction false} EqualDigits(x: nat, k: nat)
    ensures Uniform(x, k) <==> forall i :: 0 <= i < k ==> SlotAt(x, i) == x % 60
  {
    hide SlotAt;
    if k > 0 {
      UniformStep(x, k - 1);
      hide Uniform;
      EqualDigits(x, k - 1);
    } else {
      assert Pow(0) == 1 && Ones(0) == 0;
    }
  }

  lemma UniformStep(x: nat, k: nat)
    ensures Uniform(x, k + 1) <==> Uniform(x, k) && SlotAt(x, k) == x % 60
  {
    var r := x % 60;
    DivPowSucc(x, k);
    OnesClosedForm(k);
    assert Ones(k + 1) == Ones(k) + Pow(k);
    hide Pow, Ones;
    Distribute(r, Ones(k), Pow(k));
    DigitsMatch(Pow(k), Ones(k), r, SlotAt(x, k), x % Pow(k));
  }

  lemma DigitsMatch(p: nat, ones: nat, r: nat, d: nat, low: nat)
    requires p > 0 && 59 * ones == p - 1 && r < 60 && d < 60 && low < p
    ensures p * d + low == r * ones + r * p <==> d == r && low == r * ones
  {
    MulMono(ones, 0, r);
    MulMono(ones, r, 59);
    if p * d + low == r * ones + r * p {
      assert r * p == p * r;
      DivMulAdd(p, d, low);
      DivMulAdd(p, r, r * ones);
    }
  }
}
