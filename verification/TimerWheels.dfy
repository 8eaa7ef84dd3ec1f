/** The scheduler itself: wheels and timers updated in place, each operation tied to its model function. */
module TimerWheels {
  import opened Radix
  import opened TimerModel
  import opened TimerProofs
  import opened TimerRuns

  method CalculatePosByTicks(ticks: nat) returns (slotToAdd: nat, level: nat)
    ensures level == Level(ticks) && slotToAdd == Lead(ticks)
  {
    level := 0;
    var ticksTmp := ticks / 60;
    slotToAdd := ticks;
    while ticksTmp > 0
      invariant slotToAdd < 60 <==> ticksTmp == 0
      invariant ticksTmp == slotToAdd / 60
      invariant level + Level(slotToAdd) == Level(ticks) && Lead(slotToAdd) == Lead(ticks)
      decreases slotToAdd
    {
      slotToAdd := ticksTmp;
      ticksTmp := ticksTmp / 60;
      level := level + 1;
    }
  }

  lemma {:induction false} WithoutIn(l: seq<Timer>, t: Timer)
    ensures forall u :: u in Without(l, t) ==> u in l
  {
    if l != [] { WithoutIn(l[1..], t); }
  }

  /** Writing back what is there. */
  lemma SetSame(s: Sys, i: nat)
    requires Shape(s) && i < LEVELS
    ensures SetCurSlot(s, i, CurSlot(s, i)) == s
  {
    var j := s.wheels[i].cur;
    assert s.wheels[i].slots[j := CurSlot(s, i)] == s.wheels[i].slots;
    assert s.wheels[i := s.wheels[i]] == s.wheels;
  }

  /** What cascading a list from the current slot of wheel i still has to do. */
  ghost function CascadeRest(s: Sys, i: nat, l: seq<Timer>): Sys
    requires Shape(s) && 0 < i < LEVELS && forall t :: t in l ==> t in s.recs
  {
    CheckSlot(SetCurSlot(s, i, l), i)
  }

  lemma SetTwice(s: Sys, i: nat, a: seq<Timer>, b: seq<Timer>)
    requires Shape(s) && i < LEVELS
    ensures Shape(SetCurSlot(s, i, a)) && SetCurSlot(SetCurSlot(s, i, a), i, b) == SetCurSlot(s, i, b)
  {
    var j := s.wheels[i].cur;
    assert s.wheels[i].slots[j := a][j := b] == s.wheels[i].slots[j := b];
  }

  lemma UpdatesSwap<T>(q: seq<T>, k: nat, a: T, i: nat, b: T)
    requires k < |q| && i < |q| && k != i
    ensures q[k := a][i := b] == q[i := b][k := a]
  {
  }

  /** Handing a timer to a lower wheel does not depend on this wheel's slots. */
  lemma {:induction false} LowerCommutes(s: Sys, t: Timer, k: nat, i: nat, l: seq<Timer>)
    requires Shape(s) && k < i < LEVELS && t in s.recs
    ensures Shape(SetCurSlot(s, i, l)) && SetCurSlot(s, i, l).recs == s.recs
    ensures AddLower(SetCurSlot(s, i, l), t, k) == SetCurSlot(AddLower(s, t, k), i, l)
  {
    hide Pow, Place;
    if k != 0 && Low(s.recs[t].tickNum, k + 1) == 0 {
      LowerCommutes(s, t, k - 1, i, l);
    } else {
      PlaceCommutes(s, t, k, Turn(s.wheels[k].cur, Low(s.recs[t].tickNum, k + 1)), i, l);
    }
  }

  lemma PlaceCommutes(s: Sys, t: Timer, k: nat, j: nat, i: nat, l: seq<Timer>)
    requires Shape(s) && k < i < LEVELS && j < 60 && t in s.recs
    ensures Shape(SetCurSlot(s, i, l)) && SetCurSlot(s, i, l).recs == s.recs
    ensures Place(SetCurSlot(s, i, l), t, k, j) == SetCurSlot(Place(s, t, k, j), i, l)
  {
    SetSlotsSwap(s, k, j, Slot(s, k, j) + [t], i, s.wheels[i].cur, l);
  }

  lemma SetSlotsSwap(s: Sys, k: nat, j: nat, a: seq<Timer>, i: nat, c: nat, b: seq<Timer>)
    requires Shape(s) && k < LEVELS && i < LEVELS && j < 60 && c < 60 && (k, j) != (i, c)
    ensures SetSlot(SetSlot(s, k, j, a), i, c, b) == SetSlot(SetSlot(s, i, c, b), k, j, a)
  {
    if k == i {
      UpdatesSwap(s.wheels[k].slots, j, a, c, b);
    } else {
      UpdatesSwap(s.wheels, k, s.wheels[k].(slots := s.wheels[k].slots[j := a]),
                  i, s.wheels[i].(slots := s.wheels[i].slots[c := b]));
    }
  }

  lemma LowerCases(s: Sys, t: Timer, k: nat)
    requires Shape(s) && k < LEVELS && t in s.recs
    ensures var rest := s.recs[t].tickNum % Pow(k + 1);
      AddLower(s, t, k) ==
        if k != 0 && rest == 0 then AddLower(s, t, k - 1) else Place(s, t, k, (s.wheels[k].cur + rest) % 60)
  {
    hide Pow, Place;
  }

  lemma CascadeOne(s: Sys, i: nat, l: seq<Timer>, it: nat)
    requires Shape(s) && 0 < i < LEVELS && it < |l| && forall t :: t in l ==> t in s.recs
    ensures CascadeRest(s, i, l[it..]) == CascadeRest(AddLower(s, l[it], i - 1), i, l[it + 1..])
  {
    hide AddLower;
    var rest := l[it..];
    assert rest[0] == l[it] && rest[1..] == l[it + 1..];
    SetTwice(s, i, rest, rest[1..]);
    LowerCommutes(s, l[it], i - 1, i, rest[1..]);
    assert CurSlot(SetCurSlot(s, i, rest), i) == rest;
  }

  lemma CascadeStart(s: Sys, i: nat)
    requires Shape(s) && 0 < i < LEVELS && forall t :: t in CurSlot(s, i) ==> t in s.recs
    ensures CascadeRest(s, i, CurSlot(s, i)) == CheckSlot(s, i)
  {
    SetSame(s, i);
  }

  lemma CascadeEnd(s: Sys, i: nat)
    requires Shape(s) && 0 < i < LEVELS
    ensures CascadeRest(s, i, []) == SetCurSlot(s, i, [])
  {
  }

  /** What running a list from the bottom wheel's current slot still has to do. */
  ghost function RunRest(s: Sys, l: seq<Timer>): Sys
    requires Shape(s) && AllSane(s) && forall t :: t in l ==> t in s.recs
  {
    RunSlot(SetCurSlot(s, 0, l))
  }

  /** Arming again does not depend on the slot being run: the leading digit is never 0. */
  lemma FireCommutes(s: Sys, t: Timer, l: seq<Timer>)
    requires Shape(s) && t in s.recs && Level(s.recs[t].interval) < LEVELS
    ensures Shape(SetCurSlot(s, 0, l)) && SetCurSlot(s, 0, l).recs == s.recs
    ensures Fire(SetCurSlot(s, 0, l), t) == SetCurSlot(Fire(s, t), 0, l)
  {
    hide Arm, Level, SetSlot;
    var i, s1 := s.recs[t].interval, s.(fired := s.fired + [t]);
    FiredAside(s, s1, l);
    if s.recs[t].level == 0 && i > 0 { ArmCommutes(s1, t, i, i, l); }
  }

  lemma FiredAside(s: Sys, s1: Sys, l: seq<Timer>)
    requires Shape(s) && s1 == s.(fired := s1.fired)
    ensures SetCurSlot(s1, 0, l) == SetCurSlot(s, 0, l).(fired := s1.fired)
  {
  }

  lemma ArmCommutes(s: Sys, t: Timer, ticks: nat, interval: nat, l: seq<Timer>)
    requires Shape(s) && 0 < ticks && Level(ticks) < LEVELS
    ensures Shape(SetCurSlot(s, 0, l))
    ensures Arm(SetCurSlot(s, 0, l), t, ticks, interval) == SetCurSlot(Arm(s, t, ticks, interval), 0, l)
  {
    LeadingDigit(ticks);
    hide Pow, Level, Lead, SetSlot, Slot, CurSlot;
    var k := Level(ticks);
    OtherSlot(s.wheels[k].cur, Lead(ticks));
    InsertCommutes(s, t, k, (s.wheels[k].cur + Lead(ticks)) % 60, interval, ticks, l);
  }

  lemma OtherSlot(c: nat, lead: nat)
    requires c < 60 && 0 < lead < 60
    ensures (c + lead) % 60 != c && (c + lead) % 60 < 60
  {
  }

  /** Appending to one slot and recording it there does not depend on another slot. */
  lemma InsertCommutes(s: Sys, t: Timer, k: nat, j: nat, interval: nat, ticks: nat, l: seq<Timer>)
    requires Shape(s) && k < LEVELS && j < 60 && (k, j) != (0, s.wheels[0].cur)
    ensures Shape(SetCurSlot(s, 0, l))
    ensures var s0, rec := SetCurSlot(s, 0, l), Rec(ticks, j, k, interval);
      SetSlot(s0, k, j, Slot(s0, k, j) + [t]).(recs := s0.recs[t := rec])
      == SetCurSlot(SetSlot(s, k, j, Slot(s, k, j) + [t]).(recs := s.recs[t := rec]), 0, l)
  {
    var s1, rec := SetSlot(s, k, j, Slot(s, k, j) + [t]), Rec(ticks, j, k, interval);
    SetSlotsSwap(s, k, j, Slot(s, k, j) + [t], 0, s.wheels[0].cur, l);
    RecsAside(s1, s1.(recs := s.recs[t := rec]), l);
  }

  lemma RecsAside(s: Sys, s1: Sys, l: seq<Timer>)
    requires Shape(s) && s1 == s.(recs := s1.recs)
    ensures SetCurSlot(s1, 0, l) == SetCurSlot(s, 0, l).(recs := s1.recs)
  {
  }

  lemma RunOne(s: Sys, l: seq<Timer>, it: nat)
    requires Shape(s) && AllSane(s) && it < |l| && forall t :: t in l ==> t in s.recs
    ensures AllSane(Fire(s, l[it])) ==> RunRest(s, l[it..]) == RunRest(Fire(s, l[it]), l[it + 1..])
  {
    hide Fire, Level;
    var rest := l[it..];
    assert rest[0] == l[it] && rest[1..] == l[it + 1..];
    SetTwice(s, 0, rest, rest[1..]);
    FireCommutes(s, l[it], rest[1..]);
    assert CurSlot(SetCurSlot(s, 0, rest), 0) == rest;
  }

  lemma RunStart(s: Sys)
    requires Shape(s) && AllSane(s) && forall t :: t in CurSlot(s, 0) ==> t in s.recs
    ensures RunRest(s, CurSlot(s, 0)) == RunSlot(s)
  {
    SetSame(s, 0);
  }

  lemma RunEnd(s: Sys)
    requires Shape(s) && AllSane(s)
    ensures RunRest(s, []) == SetCurSlot(s, 0, [])
  {
  }

  /** Arming is recording the new position and then appending there. */
  lemma ArmIs(s: Sys, r: Sys, t: Timer, ticks: nat, interval: nat, i: nat, j: nat)
    requires Shape(s) && i == Level(ticks) < LEVELS && j == (s.wheels[i].cur + Lead(ticks)) % 60
    requires r == s.(recs := s.recs[t := Rec(ticks, j, i, interval)])
    ensures Shape(r) && SetSlot(r, i, j, Slot(r, i, j) + [t]) == Arm(s, t, ticks, interval)
  {
    hide Level, Lead;
  }

  // ----- one tick as the loops of the scheduler do it -----

  lemma CheckAllStep(s: Sys, i: nat)
    requires Ready(s) && 0 < i < LEVELS
    ensures Ready(CheckSlot(s, i)) && CheckAll(s, i) == CheckAll(CheckSlot(s, i), i - 1)
  {
    CheckSlotKeeps(s, i);
  }

  lemma CheckAllEnd(s: Sys)
    requires Ready(s)
    ensures CheckAll(s, 0) == s
  {
  }

  function MoveCursor(s: Sys, i: nat): Sys
    requires Shape(s) && i < LEVELS
  {
    s.(wheels := s.wheels[i := s.wheels[i].(cur := (s.wheels[i].cur + 1) % 60)])
  }

  lemma AdvanceStep(s: Sys, i: nat)
    requires Shape(s) && i < LEVELS
    ensures var r := MoveCursor(s, i);
      Shape(r) && Advance(s, i) == if r.wheels[i].cur != 0 then r else Advance(r, i + 1)
  {
  }

  lemma AdvanceEnd(s: Sys)
    requires Shape(s)
    ensures Advance(s, LEVELS) == s
  {
  }

  /** The distance of two times in microseconds, in whole milliseconds. */
  function TimeDiff(t1: int, t2: int): nat {
    if t1 > t2 then (t1 - t2) / 1000 else (t2 - t1) / 1000
  }

  /** So many whole milliseconds lie between the two times, which are in microseconds. */
  predicate Milliseconds(t1: int, t2: int, ms: nat) {
    1000 * ms <= (if t1 <= t2 then t2 - t1 else t1 - t2) < 1000 * ms + 1000
  }

  lemma WholeMilliseconds(t1: int, t2: int)
    ensures forall ms: nat :: Milliseconds(t1, t2, ms) <==> ms == TimeDiff(t1, t2)
  {
  }

  /** The wheels with the new timer agree with the table in which it is due in time. */
  lemma AddedInTime(s: Sys, t: Timer, ms: nat, interval: nat)
    requires Ready(s) && t !in s.recs && ms <= 12960000 && interval < Pow(LEVELS) && Level(if ms == 0 then 1 else ms) < LEVELS
    ensures var r := Arm(s, t, if ms == 0 then 1 else ms, interval);
      forall d: Ideal :: Agree(s, d) ==>
        Agree(r, d.(live := d.live[t :=
          Entry(if ms == 0 then d.n + 1 else FireAt(d.n, ms), if ms == 0 then 1 else ms, interval)]))
  {
    hide Agree, Arm, Pow, Level, FireAt, Recorded, AllSane;
    forall d: Ideal | Agree(s, d)
      ensures Agree(Arm(s, t, if ms == 0 then 1 else ms, interval), d.(live := d.live[t :=
        Entry(if ms == 0 then d.n + 1 else FireAt(d.n, ms), if ms == 0 then 1 else ms, interval)]))
    {
      FirstFiring(d.n, ms);
      AddAgrees(s, d, t, ms, interval);
    }
  }

  /** The ticks one slot of each wheel stands for. */
  lemma SlotWidths()
    ensures Pow(1) == 60 && Pow(2) == 3600 && Pow(3) == 216000 && Pow(4) == 12960000 && Pow(5) == 777600000
  {
  }

  class TimerWheel {
    const level: nat
    const tickNOneSlot: nat
    const owner: TimerWheels
    var slotCur: nat
    var slotVec: seq<seq<Timer>>

    constructor (level: nat, owner: TimerWheels, tickNOneSlot: nat)
      ensures this.level == level && this.owner == owner && this.tickNOneSlot == tickNOneSlot
      ensures View() == Wheel(0, seq(60, _ => []))
    {
      this.level, this.owner, this.tickNOneSlot := level, owner, tickNOneSlot;
      slotCur := 0;
      slotVec := seq(60, _ => []);
    }

    function View(): Wheel
      reads this
    {
      Wheel(slotCur, slotVec)
    }

    /** This wheel is one of a valid scheduler's. */
    ghost predicate Installed()
      reads this, owner, owner.wheelVec, owner.timers
    {
      level < LEVELS && owner.Valid() && owner.wheelVec[level] == this
    }

    /** Appends to the slot the timer has on record. */
    method AddTimer(timer: Timer)
      requires Installed() && timer in owner.timers
      modifies this`slotVec
      ensures Installed()
      ensures Shape(old(owner.Abs()))
      ensures var s := old(owner.Abs()); owner.Abs() == SetSlot(s, level, timer.slot, Slot(s, level, timer.slot) + [timer])
    {
      hide Pow, Level;
      owner.AbsReady();
      slotVec := slotVec[timer.slot := slotVec[timer.slot] + [timer]];
    }

    /** Sets the timer's level to this wheel's and appends the timer to one of its slots. */
    method Put(timer: Timer, slot: nat)
      requires Installed() && timer in owner.timers && slot < 60
      modifies this`slotVec, timer`level
      ensures Installed()
      ensures owner.Abs() == Place(old(owner.Abs()), timer, level, slot)
    {
      hide Pow, Level;
      owner.AbsReady();
      ghost var s := owner.Abs();
      timer.level := level;
      slotVec := slotVec[slot := slotVec[slot] + [timer]];
      assert owner.Abs().recs == s.recs[timer := s.recs[timer].(level := level)];
      assert owner.Abs().wheels == SetSlot(s, level, slot, Slot(s, level, slot) + [timer]).wheels;
    }

    method AddTimerToLower(timer: Timer)
      requires Installed() && timer in owner.timers
      modifies owner.wheelVec, timer
      ensures Installed()
      ensures owner.Abs() == AddLower(old(owner.Abs()), timer, level)
      decreases level
    {
      hide Pow, Level, Place, AddLower;
      owner.AbsReady();
      LowerCases(owner.Abs(), timer, level);
      var tickNum := timer.tickNum % tickNOneSlot;
      if level != 0 && tickNum == 0 {
        owner.wheelVec[level - 1].AddTimerToLower(timer);
      } else {
        Put(timer, (slotCur + tickNum) % 60);
      }
    }

    method DelTimer(timer: Timer)
      requires Installed() && timer in owner.timers && timer.level == level
      modifies this`slotVec
      ensures Installed()
      ensures owner.Abs() == Cancel(old(owner.Abs()), timer)
    {
      hide Pow, Level;
      owner.AbsReady();
      WithoutIn(slotVec[timer.slot], timer);
      slotVec := slotVec[timer.slot := Without(slotVec[timer.slot], timer)];
    }

    method Tick()
      requires Installed()
      modifies this`slotCur
      ensures Installed() && slotCur == (old(slotCur) + 1) % 60
    {
      slotCur := (slotCur + 1) % 60;
    }

    /** Empties the slot under the cursor. */
    method ClearCurSlot()
      requires Installed()
      modifies this`slotVec
      ensures Installed()
      ensures owner.Abs() == SetCurSlot(old(owner.Abs()), level, [])
    {
      hide Pow, Level;
      owner.AbsReady();
      slotVec := slotVec[slotCur := []];
    }

    /** Passes a timer of this wheel to the wheel below. */
    method HandDown(timer: Timer)
      requires Installed() && timer in owner.timers && level > 0
      modifies owner.wheelVec, timer
      ensures Installed() && View() == old(View())
      ensures Shape(old(owner.Abs())) && timer in old(owner.Abs()).recs
      ensures owner.Abs() == AddLower(old(owner.Abs()), timer, level - 1)
      ensures Shape(owner.Abs())
    {
      hide Pow, Level, AddLower;
      owner.AbsReady();
      owner.wheelVec[level - 1].AddTimerToLower(timer);
      owner.AbsReady();
      assert owner.Abs().wheels[level] == View();
    }

    /** The next timer of the current slot goes down. */
    method HandNext(it: nat)
      requires Installed() && level > 0 && slotCur < 60 && it < |slotVec[slotCur]|
      modifies owner.wheelVec, owner.timers
      ensures Installed() && View() == old(View()) && owner.Abs().recs.Keys == old(owner.Abs()).recs.Keys
      ensures Shape(old(owner.Abs())) && Shape(owner.Abs())
      ensures forall t :: t in slotVec[slotCur] ==> t in owner.Abs().recs
      ensures CascadeRest(owner.Abs(), level, slotVec[slotCur][it + 1..])
        == CascadeRest(old(owner.Abs()), level, old(slotVec[slotCur][it..]))
    {
      hide Pow, Level, AddLower, CheckSlot, SetCurSlot, Sane, CascadeRest;
      owner.AbsReady();
      CascadeOne(owner.Abs(), level, slotVec[slotCur], it);
      HandDown(slotVec[slotCur][it]);
    }

    method CheckCurSlot()
      requires Installed() && level > 0
      modifies owner.wheelVec, owner.timers
      ensures Installed()
      ensures owner.Abs() == CheckSlot(old(owner.Abs()), level)
    {
      hide Pow, Level, AddLower, CheckSlot, SetCurSlot, Sane, CascadeRest;
      owner.AbsReady();
      ghost var start := owner.Abs();
      ghost var l := slotVec[slotCur];
      var it := 0;
      CascadeStart(start, level);
      while it < |slotVec[slotCur]|
        invariant unchanged(owner) && Installed() && slotVec[slotCur] == l && it <= |l|
        invariant forall t :: t in l ==> t in owner.timers
        invariant owner.Abs().recs.Keys == start.recs.Keys
        invariant Shape(owner.Abs())
        invariant CascadeRest(owner.Abs(), level, l[it..]) == CascadeRest(start, level, l)
      {
        HandNext(it);
        it := it + 1;
      }
      CascadeEnd(owner.Abs(), level);
      ClearCurSlot();
    }

    method RunSlot()
      requires Installed() && level == 0
      modifies owner`called, owner.wheelVec, owner.timers
      ensures Installed()
      ensures owner.Abs() == TimerModel.RunSlot(old(owner.Abs()))
    {
      hide Pow, Level, Fire, TimerModel.RunSlot, SetCurSlot, Sane, RunRest;
      owner.AbsReady();
      ghost var start := owner.Abs();
      ghost var l := slotVec[slotCur];
      var it := 0;
      RunStart(start);
      while it < |slotVec[slotCur]|
        invariant unchanged(owner`wheelVec, owner`timers) && Installed() && slotVec[slotCur] == l && it <= |l|
        invariant owner.Abs().recs.Keys == start.recs.Keys
        invariant Shape(owner.Abs()) && AllSane(owner.Abs())
        invariant RunRest(owner.Abs(), l[it..]) == RunRest(start, l)
      {
        RunAt(it);
        it := it + 1;
      }
      RunEnd(owner.Abs());
      ClearCurSlot();
    }

    /** The next timer of the current slot runs. */
    method RunAt(it: nat)
      requires Installed() && level == 0 && slotCur < 60 && it < |slotVec[slotCur]|
      modifies owner`called, owner.wheelVec, owner.timers
      ensures Installed() && slotCur == old(slotCur) && slotVec[slotCur] == old(slotVec[slotCur])
      ensures owner.Abs().recs.Keys == old(owner.Abs()).recs.Keys
      ensures Shape(old(owner.Abs())) && AllSane(old(owner.Abs())) && Shape(owner.Abs()) && AllSane(owner.Abs())
      ensures forall t :: t in slotVec[slotCur] ==> t in owner.Abs().recs
      ensures RunRest(owner.Abs(), slotVec[slotCur][it + 1..]) == RunRest(old(owner.Abs()), old(slotVec[slotCur][it..]))
    {
      hide Pow, Level, Fire, TimerModel.RunSlot, SetCurSlot, Sane, RunRest;
      owner.AbsReady();
      RunOne(owner.Abs(), slotVec[slotCur], it);
      RunNext(slotVec[slotCur][it]);
    }

    /** Runs one timer of the current slot, which stays as it is. */
    method RunNext(timer: Timer)
      requires Installed() && timer in owner.timers && level == 0
      modifies owner`called, owner.wheelVec, timer
      ensures Installed() && slotCur == old(slotCur) && slotVec[slotCur] == old(slotVec[slotCur])
      ensures Shape(old(owner.Abs())) && AllSane(old(owner.Abs()))
      ensures owner.Abs() == Fire(old(owner.Abs()), timer)
      ensures Shape(owner.Abs()) && AllSane(owner.Abs())
    {
      hide Pow, Level, Fire;
      owner.AbsReady();
      RunTimer(timer);
      owner.AbsReady();
      assert owner.Abs().wheels[0] == View() && old(owner.Abs()).wheels[0] == old(View());
    }

    /** Runs one timer of the bottom wheel and arms it again if it repeats. */
    method RunTimer(timer: Timer)
      requires Installed() && timer in owner.timers
      modifies owner`called, owner.wheelVec, timer
      ensures Installed()
      ensures Shape(old(owner.Abs())) && AllSane(old(owner.Abs()))
      ensures owner.Abs() == Fire(old(owner.Abs()), timer)
    {
      hide Pow, Level, Lead, SetSlot, Slot, Arm;
      owner.AbsReady();
      if timer.level == 0 {
        ghost var s := owner.Abs();
        owner.called := owner.called + [timer];
        assert owner.Abs().wheels == s.wheels && owner.Abs().recs == s.recs;
        if timer.repeated {
          Rearm(timer);
        }
      }
    }

    method Rearm(timer: Timer)
      requires Installed() && timer in owner.timers && timer.interval > 0
      modifies owner.wheelVec, timer
      ensures Installed()
      ensures Shape(old(owner.Abs())) && AllSane(old(owner.Abs()))
      ensures owner.Abs() == Arm(old(owner.Abs()), timer, timer.interval, timer.interval)
    {
      hide Pow, Level, Lead, Arm, SetSlot, Slot;
      owner.AbsReady();
      ghost var s := owner.Abs();
      var interval := timer.interval;
      var slotToAdd, level := CalculatePosByTicks(interval);
      var slotCur := owner.wheelVec[level].slotCur;
      var slot := (slotCur + slotToAdd) % 60;
      Reposition(timer, interval, slot, level);
      ArmIs(s, owner.Abs(), timer, interval, interval, level, slot);
      owner.wheelVec[level].AddTimer(timer);
    }

    /** Sets the fields of a timer and nothing else. */
    method Reposition(timer: Timer, tickNum: nat, slot: nat, level: nat)
      requires Installed() && timer in owner.timers && slot < 60 && level < LEVELS
      modifies timer`tickNum, timer`slot, timer`level
      ensures Installed() && timer.slot == slot
      ensures owner.Abs() == old(owner.Abs()).(recs := old(owner.Abs()).recs[timer := Rec(tickNum, slot, level, timer.interval)])
    {
      hide Pow, Level;
      ghost var s := owner.Abs();
      timer.tickNum := tickNum;
      timer.slot := slot;
      timer.level := level;
      assert owner.Abs().wheels == s.wheels;
      assert owner.Abs().recs == s.recs[timer := Rec(tickNum, slot, level, timer.interval)];
    }
  }

  class TimerWheels {
    var wheelVec: seq<TimerWheel>
    /** The callbacks run so far. */
    var called: seq<Timer>
    /** Every timer this scheduler has made. */
    ghost var timers: set<Timer>

    ghost function Abs(): Sys
      reads this, wheelVec, timers
    {
      Sys(seq(|wheelVec|, i requires 0 <= i < |wheelVec| reads this, wheelVec => wheelVec[i].View()),
          map t | t in timers :: t.Fields(), called)
    }

    ghost predicate Valid()
      reads this, wheelVec, timers
    {
      && |wheelVec| == LEVELS
      && (forall i :: 0 <= i < LEVELS ==>
            && wheelVec[i].level == i && wheelVec[i].owner == this && wheelVec[i].tickNOneSlot == Pow(i + 1)
            && wheelVec[i].slotCur < 60 && |wheelVec[i].slotVec| == 60
            && forall j :: 0 <= j < 60 ==> forall t :: t in wheelVec[i].slotVec[j] ==> t in timers)
      && (forall t :: t in timers ==> Sane(t.Fields()))
    }

    lemma AbsReady()
      requires Valid()
      ensures Shape(Abs()) && Recorded(Abs()) && AllSane(Abs())
    {
    }

    constructor ()
      ensures Valid() && fresh(wheelVec)
      ensures Abs() == Init()
      ensures |wheelVec| == 5 && called == [] && timers == {}
      ensures forall i :: 0 <= i < 5 ==>
        && wheelVec[i].slotCur == 0 && wheelVec[i].slotVec == seq(60, _ => [])
        && wheelVec[i].tickNOneSlot == [60, 3600, 216000, 12960000, 777600000][i]
    {
      wheelVec, called, timers := [], [], {};
      new;
      var num := 60;
      for i := 0 to LEVELS
        invariant num == Pow(i + 1) && |wheelVec| == i && called == [] && timers == {} && fresh(wheelVec)
        invariant forall k :: 0 <= k < i ==>
          && wheelVec[k].level == k && wheelVec[k].owner == this && wheelVec[k].tickNOneSlot == Pow(k + 1)
          && wheelVec[k].View() == Wheel(0, seq(60, _ => []))
      {
        var wheel := new TimerWheel(i, this, num);
        wheelVec := wheelVec + [wheel];
        num := num * 60;
      }
      assert Abs().wheels == Init().wheels;
      SlotWidths();
    }

    /**
     * The delay is the distance of the two times in whole milliseconds, whichever comes first. Above 12960000 it is
     * refused; otherwise the timer is due in the call that the delay stands for, or in the next call but one if the
     * delay is 0, and all other timers stay due when they were.
     */
    method AddTimer(now: int, expiration: int, interval: nat) returns (timer: Timer?)
      requires Valid() && interval < Pow(LEVELS)
      modifies this`timers, wheelVec
      ensures Valid() && wheelVec == old(wheelVec)
      ensures timer == null ==> Abs() == old(Abs()) && timers == old(timers)
      ensures timer != null ==> fresh(timer) && timers == old(timers) + {timer}
      ensures forall ms: nat :: Milliseconds(now, expiration, ms) ==>
        && (timer == null <==> ms > 12960000)
        && (timer != null ==>
              && Shape(old(Abs())) && Level(if ms == 0 then 1 else ms) < LEVELS
              && Abs() == Arm(old(Abs()), timer, if ms == 0 then 1 else ms, interval))
      ensures forall ms: nat, d: Ideal :: Milliseconds(now, expiration, ms) && timer != null && Agree(old(Abs()), d) ==>
        Agree(Abs(), d.(live := d.live[timer :=
          Entry(if ms == 0 then d.n + 1 else FireAt(d.n, ms), if ms == 0 then 1 else ms, interval)]))
    {
      hide Pow, Level, Lead, Arm, SetSlot, Slot, Agree, Milliseconds, TimeDiff, FireAt;
      LevelInRange(interval);
      AbsReady();
      ghost var s := Abs();
      var ticks := TimeDiff(now, expiration);
      WholeMilliseconds(now, expiration);
      if ticks > TIMER_MAX {
        return null;
      } else if ticks <= 0 {
        ticks := 1;
      }
      ClampLevel(ticks);
      var slotToAdd, level := CalculatePosByTicks(ticks);
      var slot := (wheelVec[level].slotCur + slotToAdd) % 60;
      timer := Register(ticks, slot, level, interval);
      ArmIs(s, Abs(), timer, ticks, interval, level, slot);
      wheelVec[level].AddTimer(timer);
      AddedInTime(s, timer, TimeDiff(now, expiration), interval);
    }

    /** Makes a timer that is in no slot yet. */
    method Register(ticks: nat, slot: nat, level: nat, interval: nat) returns (t: Timer)
      requires Valid() && Level(interval) < LEVELS && level < LEVELS && slot < 60
      modifies this`timers
      ensures fresh(t) && Valid() && timers == old(timers) + {t}
      ensures t.slot == slot && t.level == level
      ensures Abs() == old(Abs()).(recs := old(Abs()).recs[t := Rec(ticks, slot, level, interval)])
    {
      hide Pow, Level;
      t := new Timer(ticks, slot, level, interval);
      timers := timers + {t};
      assert Abs().wheels == old(Abs()).wheels;
      assert Abs().recs == old(Abs()).recs[t := Rec(ticks, slot, level, interval)];
    }

    method DelTimer(timer: Timer)
      requires Valid() && timer in timers
      modifies wheelVec
      ensures Valid()
      ensures Shape(old(Abs())) && AllSane(old(Abs())) && Abs() == Cancel(old(Abs()), timer)
    {
      AbsReady();
      wheelVec[timer.level].DelTimer(timer);
    }

    method Tick()
      requires Valid()
      modifies this`called, wheelVec, timers
      ensures Valid() && Ready(old(Abs()))
      ensures Abs() == TimerModel.Tick(old(Abs()))
    {
      hide CheckAll, TimerModel.RunSlot, Advance, Sane, Level;
      AbsReady();
      CheckWheels();
      AbsReady();
      wheelVec[0].RunSlot();
      AbsReady();
      MoveCursors();
    }

    /** Cascades from the top wheel down. */
    method CheckWheels()
      requires Valid()
      modifies wheelVec, timers
      ensures Valid() && Ready(old(Abs()))
      ensures Abs() == CheckAll(old(Abs()), LEVELS - 1)
    {
      hide Pow, Level, CheckAll, CheckSlot, Sane;
      AbsReady();
      ghost var s := Abs();
      var i := |wheelVec| - 1;
      while i > 0
        invariant 0 <= i < LEVELS && Valid() && unchanged(this) && Ready(Abs())
        invariant CheckAll(Abs(), i) == CheckAll(s, LEVELS - 1)
      {
        CheckAllStep(Abs(), i);
        wheelVec[i].CheckCurSlot();
        AbsReady();
        i := i - 1;
      }
      CheckAllEnd(Abs());
    }

    /** Moves the bottom cursor and, as long as cursors wrap to 0, the next ones up. */
    method MoveCursors()
      requires Valid()
      modifies wheelVec
      ensures Valid() && Shape(old(Abs()))
      ensures Abs() == Advance(old(Abs()), 0)
    {
      hide Pow, Level, Advance, Sane;
      AbsReady();
      ghost var s := Abs();
      var i := 0;
      while i < |wheelVec|
        invariant i <= LEVELS && Valid() && unchanged(this) && Shape(Abs())
        invariant Advance(Abs(), i) == Advance(s, 0)
      {
        AdvanceStep(Abs(), i);
        StepCursor(i);
        if wheelVec[i].slotCur != 0 { return; }
        i := i + 1;
      }
      AdvanceEnd(Abs());
    }

    /** Moves one cursor. */
    method StepCursor(i: nat)
      requires Valid() && i < LEVELS
      modifies wheelVec
      ensures Valid() && Shape(old(Abs())) && Abs() == MoveCursor(old(Abs()), i)
      ensures wheelVec[i].slotCur == Abs().wheels[i].cur
    {
      hide Pow, Level;
      AbsReady();
      wheelVec[i].Tick();
      assert Abs().wheels == MoveCursor(old(Abs()), i).wheels;
    }
  }
}
