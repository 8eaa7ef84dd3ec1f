/** What the timing wheels do, as functions on values: wheels of slots, each slot a list of timers. */
module TimerModel {
  import opened Radix

  /** The number of wheels a default-constructed scheduler has. */
  const LEVELS: nat := 5
  /** The longest first delay accepted: 60^4 ticks. */
  const TIMER_MAX: nat := 12960000

  class Timer {
    var tickNum: nat
    var slot: nat
    var level: nat
    const interval: nat
    const repeated: bool := interval > 0

    constructor (tickNum: nat, slot: nat, level: nat, interval: nat)
      ensures this.tickNum == tickNum && this.slot == slot && this.level == level
      ensures this.interval == interval
    {
      this.tickNum, this.slot, this.level := tickNum, slot, level;
      this.interval := interval;
    }

    function Fields(): Rec
      reads this
    {
      Rec(tickNum, slot, level, interval)
    }
  }

  /** The fields of one timer. */
  datatype Rec = Rec(tickNum: nat, slot: nat, level: nat, interval: nat)

  /** One wheel: its cursor and its slots. */
  datatype Wheel = Wheel(cur: nat, slots: seq<seq<Timer>>)

  /** All wheels, the fields of every timer ever made, and the timers whose callbacks have run, in order. */
  datatype Sys = Sys(wheels: seq<Wheel>, recs: map<Timer, Rec>, fired: seq<Timer>)

  ghost predicate Shape(s: Sys) {
    && |s.wheels| == LEVELS
    && forall i :: 0 <= i < LEVELS ==> s.wheels[i].cur < 60 && |s.wheels[i].slots| == 60
  }

  function Slot(s: Sys, i: nat, j: nat): seq<Timer>
    requires Shape(s) && i < LEVELS && j < 60
  {
    s.wheels[i].slots[j]
  }

  function SetSlot(s: Sys, i: nat, j: nat, l: seq<Timer>): (r: Sys)
    requires Shape(s) && i < LEVELS && j < 60
    ensures Shape(r) && r.recs == s.recs && r.fired == s.fired
    ensures forall k :: 0 <= k < LEVELS ==> r.wheels[k].cur == s.wheels[k].cur
    ensures forall k, h :: 0 <= k < LEVELS && 0 <= h < 60 ==> Slot(r, k, h) == if k == i && h == j then l else Slot(s, k, h)
  {
    s.(wheels := s.wheels[i := s.wheels[i].(slots := s.wheels[i].slots[j := l])])
  }

  /** The slot a wheel's cursor stands on. */
  function CurSlot(s: Sys, i: nat): seq<Timer>
    requires Shape(s) && i < LEVELS
  {
    Slot(s, i, s.wheels[i].cur)
  }

  function SetCurSlot(s: Sys, i: nat, l: seq<Timer>): Sys
    requires Shape(s) && i < LEVELS
  {
    SetSlot(s, i, s.wheels[i].cur, l)
  }

  /** The wheel a delay belongs to: the position of its leading base-60 digit. */
  function Level(ticks: nat): nat {
    if ticks < 60 then 0 else 1 + Level(ticks / 60)
  }

  /** The leading base-60 digit of a delay. */
  function Lead(ticks: nat): nat {
    if ticks < 60 then ticks else Lead(ticks / 60)
  }

  lemma {:induction false} LeadingDigit(ticks: nat)
    ensures Lead(ticks) == ticks / Pow(Level(ticks)) < 60
    ensures ticks < Pow(Level(ticks) + 1)
    ensures ticks > 0 ==> Lead(ticks) > 0 && Pow(Level(ticks)) <= ticks
  {
    if ticks >= 60 {
      LeadingDigit(ticks / 60);
      var l := Level(ticks / 60);
      DivByPowStep(ticks, l);
      assert ticks / 60 < Pow(l + 1);
      assert ticks < 60 * Pow(l + 1);
    }
  }

  /** Dividing by 60 first or last makes no difference. */
  lemma {:induction false} DivByPowStep(n: nat, k: nat)
    ensures n / 60 / Pow(k) == n / Pow(k + 1)
  {
    if k > 0 {
      DivPowSucc(n / 60, k - 1);
      DivByPowStep(n, k - 1);
      DivPowSucc(n, k);
    }
  }

  lemma LevelBound(ticks: nat, k: nat)
    requires 0 < ticks < Pow(k)
    ensures Level(ticks) < k
  {
    LeadingDigit(ticks);
    if k <= Level(ticks) { PowMono(k, Level(ticks)); }
  }

  /** Exactly which delays some wheel can hold. */
  lemma LevelInRange(ticks: nat)
    ensures Level(ticks) < LEVELS <==> ticks < Pow(LEVELS)
  {
    if ticks > 0 {
      LeadingDigit(ticks);
      if ticks < Pow(LEVELS) { LevelBound(ticks, LEVELS); } else if Level(ticks) < LEVELS { PowMono(Level(ticks) + 1, LEVELS); }
    }
  }

  /** Puts a timer at the back of a slot and records the wheel it is on. */
  function Place(s: Sys, t: Timer, i: nat, j: nat): (r: Sys)
    requires Shape(s) && i < LEVELS && j < 60 && t in s.recs
    ensures Shape(r)
    ensures forall k, h :: 0 <= k < LEVELS && 0 <= h < 60 ==>
      Slot(r, k, h) == if k == i && h == j then Slot(s, k, h) + [t] else Slot(s, k, h)
  {
    SetSlot(s, i, j, Slot(s, i, j) + [t]).(recs := s.recs[t := s.recs[t].(level := i)])
  }

  /** A slot further on, around the wheel. */
  function Turn(cur: nat, steps: nat): (slot: nat)
    ensures slot < 60
  {
    (cur + steps) % 60
  }

  /** Hands a timer down: to the first wheel at or below k that the rest of its delay reaches. */
  function AddLower(s: Sys, t: Timer, k: nat): (r: Sys)
    requires Shape(s) && k < LEVELS && t in s.recs
    ensures Shape(r) && r.fired == s.fired && r.recs.Keys == s.recs.Keys
    ensures forall i :: k < i < LEVELS ==> r.wheels[i] == s.wheels[i]
    ensures forall i :: 0 <= i < LEVELS ==> r.wheels[i].cur == s.wheels[i].cur
  {
    var rest := Low(s.recs[t].tickNum, k + 1);
    if k != 0 && rest == 0 then AddLower(s, t, k - 1)
    else Place(s, t, k, Turn(s.wheels[k].cur, rest))
  }

  /** Empties the current slot of wheel i into the wheels below, front to back. */
  function CheckSlot(s: Sys, i: nat): (r: Sys)
    requires Shape(s) && 0 < i < LEVELS
    requires forall t :: t in CurSlot(s, i) ==> t in s.recs
    ensures Shape(r) && r.fired == s.fired && r.recs.Keys == s.recs.Keys
    ensures forall k :: i < k < LEVELS ==> r.wheels[k] == s.wheels[k]
    ensures forall k :: 0 <= k < LEVELS ==> r.wheels[k].cur == s.wheels[k].cur
    decreases |CurSlot(s, i)|
  {
    var l := CurSlot(s, i);
    if l == [] then s else CheckSlot(AddLower(SetCurSlot(s, i, l[1..]), l[0], i - 1), i)
  }

  /** Arms a timer: leading digit on the wheel of that digit, counted from that wheel's cursor. */
  function Arm(s: Sys, t: Timer, ticks: nat, interval: nat): (r: Sys)
    requires Shape(s) && Level(ticks) < LEVELS
    ensures Shape(r) && forall k :: 0 <= k < LEVELS ==> r.wheels[k].cur == s.wheels[k].cur
  {
    var i := Level(ticks);
    var j := (s.wheels[i].cur + Lead(ticks)) % 60;
    SetSlot(s, i, j, Slot(s, i, j) + [t]).(recs := s.recs[t := Rec(ticks, j, i, interval)])
  }

  /** Arming never touches the slot under a cursor, because the leading digit is never 0. */
  lemma ArmSparesCursor(s: Sys, t: Timer, ticks: nat, interval: nat, k: nat)
    requires Shape(s) && Level(ticks) < LEVELS && ticks > 0 && k < LEVELS
    ensures CurSlot(Arm(s, t, ticks, interval), k) == CurSlot(s, k)
  {
    LeadingDigit(ticks);
  }

  /** What `runSlot` does with one timer: call it and, if it repeats, arm it again. */
  function Fire(s: Sys, t: Timer): (r: Sys)
    requires Shape(s) && t in s.recs && Level(s.recs[t].interval) < LEVELS
    ensures Shape(r) && r.recs.Keys == s.recs.Keys
    ensures r.wheels[0].cur == s.wheels[0].cur && CurSlot(r, 0) == CurSlot(s, 0)
    ensures forall u :: u in s.recs ==> r.recs[u].interval == s.recs[u].interval
  {
    var rec := s.recs[t];
    if rec.level != 0 then s
    else
      var s1 := s.(fired := s.fired + [t]);
      if rec.interval > 0 then
        ArmSparesCursor(s1, t, rec.interval, rec.interval, 0);
        Arm(s1, t, rec.interval, rec.interval)
      else s1
  }

  /** The fields of a timer name a wheel and a slot, and its interval belongs to one of the wheels. */
  ghost predicate Sane(rec: Rec) {
    Level(rec.interval) < LEVELS && rec.level < LEVELS && rec.slot < 60
  }

  ghost predicate AllSane(s: Sys) {
    forall t :: t in s.recs ==> Sane(s.recs[t])
  }

  /** Runs the timers of the bottom wheel's current slot, front to back, and empties it. */
  function RunSlot(s: Sys): (r: Sys)
    requires Shape(s) && AllSane(s) && forall t :: t in CurSlot(s, 0) ==> t in s.recs
    ensures Shape(r) && r.recs.Keys == s.recs.Keys
    decreases |CurSlot(s, 0)|
  {
    var l := CurSlot(s, 0);
    if l == [] then s else RunSlot(Fire(SetCurSlot(s, 0, l[1..]), l[0]))
  }

  /** Every timer in a slot has a record. */
  ghost predicate Recorded(s: Sys)
    requires Shape(s)
  {
    forall i, j, t :: 0 <= i < LEVELS && 0 <= j < 60 && t in Slot(s, i, j) ==> t in s.recs
  }

  /** Empties the current slots of wheels i, i-1, ..., 1. */
  function CheckAll(s: Sys, i: nat): (r: Sys)
    requires Shape(s) && i < LEVELS && Recorded(s) && AllSane(s)
    ensures Shape(r) && Recorded(r) && AllSane(r) && r.recs.Keys == s.recs.Keys
    decreases i
  {
    if i == 0 then s
    else
      CheckSlotKeeps(s, i);
      CheckAll(CheckSlot(s, i), i - 1)
  }

  lemma {:induction false} AddLowerKeeps(s: Sys, t: Timer, k: nat)
    requires Shape(s) && k < LEVELS && t in s.recs && Recorded(s) && AllSane(s)
    ensures Recorded(AddLower(s, t, k)) && AllSane(AddLower(s, t, k))
  {
    if k != 0 && Low(s.recs[t].tickNum, k + 1) == 0 { AddLowerKeeps(s, t, k - 1); }
  }

  lemma {:induction false} CheckSlotKeeps(s: Sys, i: nat)
    requires Shape(s) && 0 < i < LEVELS && Recorded(s) && AllSane(s)
    ensures Recorded(CheckSlot(s, i)) && AllSane(CheckSlot(s, i))
    decreases |CurSlot(s, i)|
  {
    var l := CurSlot(s, i);
    if l != [] {
      var s1 := SetCurSlot(s, i, l[1..]);
      assert l[0] in l;
      AddLowerKeeps(s1, l[0], i - 1);
      CheckSlotKeeps(AddLower(s1, l[0], i - 1), i);
    }
  }

  /** Moves the cursor of wheel i and, each time a cursor wraps to 0, of the wheel above it. */
  function Advance(s: Sys, i: nat): (r: Sys)
    requires Shape(s) && i <= LEVELS
    ensures Shape(r) && r.recs == s.recs && r.fired == s.fired
    ensures forall k :: 0 <= k < LEVELS ==> r.wheels[k].slots == s.wheels[k].slots
    decreases LEVELS - i
  {
    if i == LEVELS then s
    else
      var c := (s.wheels[i].cur + 1) % 60;
      var s1 := s.(wheels := s.wheels[i := s.wheels[i].(cur := c)]);
      if c != 0 then s1 else Advance(s1, i + 1)
  }

  /** One tick: cascade from the top wheel down, run the bottom slot, then move the cursors. */
  function Tick(s: Sys): (r: Sys)
    requires Shape(s) && Recorded(s) && AllSane(s)
    ensures Shape(r) && r.recs.Keys == s.recs.Keys
  {
    Advance(RunSlot(CheckAll(s, LEVELS - 1)), 0)
  }

  /** The delay actually used: 0 becomes 1. */
  function Clamp(ticks: nat): nat {
    if ticks == 0 then 1 else ticks
  }

  /** A list without one timer. */
  function Without(l: seq<Timer>, t: Timer): seq<Timer> {
    if l == [] then []
    else if l[0] == t then Without(l[1..], t)
    else [l[0]] + Without(l[1..], t)
  }

  /** Cancelling looks only in the slot the timer itself has on record. */
  function Cancel(s: Sys, t: Timer): (r: Sys)
    requires Shape(s) && t in s.recs && s.recs[t].level < LEVELS && s.recs[t].slot < 60
    ensures Shape(r)
  {
    var i, j := s.recs[t].level, s.recs[t].slot;
    SetSlot(s, i, j, Without(Slot(s, i, j), t))
  }
}
