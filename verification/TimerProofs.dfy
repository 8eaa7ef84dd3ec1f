/** When a timer fires: each cascading step keeps the call that is due, so firing time is a closed form. */
module TimerProofs {
  import opened Radix
  import opened TimerModel

  /** What a live timer promises: the tick call that fires it, its delay, and its repeat interval. */
  datatype Entry = Entry(due: int, ticks: nat, interval: nat)

  /** The call that fires a timer of `ticks` ticks armed when call n is next (calls count from 0). */
  function FireAt(n: nat, ticks: nat): int {
    var p := Pow(Level(ticks));
    p * (n / p + ticks / p) + ticks % 60 * Ones(Level(ticks))
  }

  /** The call at which a live timer leaves wheel k, if it is there. */
  function DrainAt(e: Entry, k: nat): int {
    e.due - e.ticks % 60 * Ones(k)
  }

  function SlotAt(d: int, k: nat): nat {
    d / Pow(k) % 60
  }

  /** The cursor of wheel k reaches the slot of call d for the first time in call d itself. */
  ghost predicate Timely(n: nat, d: int, k: nat) {
    n <= d && d % Pow(k) == 0 && d / Pow(k) - n / Pow(k) < 60
  }

  /** A timer's fields, and the slot it sits in, agree with what it promises. */
  ghost predicate OnTime(rec: Rec, slot: nat, n: nat, e: Entry) {
    var top := Level(e.ticks);
    && 0 < e.ticks == rec.tickNum && rec.interval == e.interval
    && rec.level <= top < LEVELS
    && rec.slot == SlotAt(DrainAt(e, top), top)
    && Timely(n, DrainAt(e, rec.level), rec.level)
    && slot == SlotAt(DrainAt(e, rec.level), rec.level)
    && (rec.level < top ==> DrainAt(e, top) <= n && slot == e.ticks % 60)
  }

  ghost predicate NoDup(l: seq<Timer>) {
    forall a, b :: 0 <= a < b < |l| ==> l[a] != l[b]
  }

  /** The wheels hold exactly the timers of `seats`, each once, in the wheel and slot it maps to. */
  ghost predicate Seated(s: Sys, seats: map<Timer, (nat, nat)>) {
    && Shape(s)
    && (forall t :: t in seats ==>
          && t in s.recs && seats[t].0 == s.recs[t].level < LEVELS && seats[t].1 < 60
          && t in Slot(s, seats[t].0, seats[t].1))
    && (forall i, j, t :: 0 <= i < LEVELS && 0 <= j < 60 && t in Slot(s, i, j) ==> t in seats && seats[t] == (i, j))
    && (forall i, j :: 0 <= i < LEVELS && 0 <= j < 60 ==> NoDup(Slot(s, i, j)))
  }

  ghost predicate Cursors(s: Sys, n: nat)
    requires Shape(s)
  {
    forall i :: 0 <= i < LEVELS ==> s.wheels[i].cur == SlotAt(n, i)
  }

  /** Call n is next or under way; the live timers are those of `live`, each seated on time. */
  ghost predicate Inv(s: Sys, n: nat, live: map<Timer, Entry>, seats: map<Timer, (nat, nat)>) {
    && Seated(s, seats) && live.Keys == seats.Keys
    && AllSane(s) && Cursors(s, n)
    && forall t :: t in live ==> OnTime(s.recs[t], seats[t].1, n, live[t])
  }

  lemma InvRecorded(s: Sys, n: nat, live: map<Timer, Entry>, seats: map<Timer, (nat, nat)>)
    requires Inv(s, n, live, seats)
    ensures Shape(s) && Recorded(s) && AllSane(s)
    ensures forall i, t :: 0 <= i < LEVELS && t in CurSlot(s, i) ==> t in s.recs
  {
  }

  lemma InvCursors(s: Sys, n: nat, live: map<Timer, Entry>, seats: map<Timer, (nat, nat)>)
    requires Inv(s, n, live, seats)
    ensures Shape(s) && AllSane(s) && forall i :: 0 <= i < LEVELS ==> s.wheels[i].cur == SlotAt(n, i)
  {
    hide OnTime, SlotAt;
  }

  // ----- arithmetic of one move -----

  lemma ArmTimes(n: nat, ticks: nat, interval: nat)
    requires ticks > 0
    ensures var k, e := Level(ticks), Entry(FireAt(n, ticks), ticks, interval);
      && Timely(n, DrainAt(e, k), k) && n < DrainAt(e, k)
      && SlotAt(DrainAt(e, k), k) == (SlotAt(n, k) + Lead(ticks)) % 60
  {
    LeadingDigit(ticks);
    hide Pow, Level, Lead, Ones;
    var p, lead := Pow(Level(ticks)), Lead(ticks);
    BlockStart(p, n, lead);
    NextSlot(n / p, lead);
  }

  lemma NextSlot(q: nat, lead: nat)
    ensures (q + lead) % 60 == (q % 60 + lead) % 60
  {
  }

  /** A timer drained from wheel i in call n lands on time on whichever lower wheel takes it. */
  lemma CascadeTimes(n: nat, e: Entry, i: nat, k: nat)
    requires k < i && DrainAt(e, i) == n && Low(n, i) == 0
    requires k == i - 1 || e.ticks % 60 == 0
    ensures Timely(n, DrainAt(e, k), k)
    ensures SlotAt(DrainAt(e, k), k) == e.ticks % 60 == Turn(SlotAt(n, k), Low(e.ticks, k + 1))
  {
    MultipleDownTo(n, i, k);
    LowDigit(e.ticks, k);
    DrainBelow(e, i, k);
    Landing(n, DrainAt(e, k), Pow(k), e.ticks % 60, e.ticks % Pow(k + 1));
  }

  lemma Landing(n: nat, d: int, p: nat, r: nat, rest: nat)
    requires p > 0 && n % p == 0 && n / p % 60 == 0 && r < 60 && rest % 60 == r && d == n + r * p
    ensures n <= d && d % p == 0 && d / p - n / p < 60
    ensures d / p % 60 == r == (n / p % 60 + rest) % 60
  {
    BlocksOn(p, n, r);
  }

  lemma DrainBelow(e: Entry, i: nat, k: nat)
    requires k < i
    requires k == i - 1 || e.ticks % 60 == 0
    ensures DrainAt(e, k) == DrainAt(e, i) + e.ticks % 60 * Pow(k)
  {
    if k == i - 1 { Distribute(e.ticks % 60, Ones(k), Pow(k)); }
  }

  /** A slot is current exactly in the call that drains it. */
  lemma CurrentWhenDue(n: nat, d: int, k: nat)
    requires Timely(n, d, k)
    ensures SlotAt(d, k) == SlotAt(n, k) <==> d == n
  {
    var p := Pow(k);
    DivMono(n, d, p);
    if SlotAt(d, k) == SlotAt(n, k) {
      assert d / p == n / p;
    }
  }

  // ----- moving timers keeps them seated -----

  lemma RemoveSeats(s: Sys, seats: map<Timer, (nat, nat)>, t: Timer, i: nat, j: nat, l: seq<Timer>)
    requires Seated(s, seats) && i < LEVELS && j < 60 && t in Slot(s, i, j)
    requires NoDup(l) && forall u :: u in l <==> u in Slot(s, i, j) && u != t
    ensures Seated(SetSlot(s, i, j, l), seats - {t})
  {
    hide SetSlot, Slot, NoDup, Shape;
    var r := SetSlot(s, i, j, l);
    assert seats[t] == (i, j);
    forall u | u in seats - {t} ensures u in Slot(r, seats[u].0, seats[u].1) {
      assert u in Slot(s, seats[u].0, seats[u].1);
    }
    forall k, h, u | 0 <= k < LEVELS && 0 <= h < 60 && u in Slot(r, k, h) ensures u in seats - {t} && seats[u] == (k, h) {
      assert u in Slot(s, k, h);
    }
    forall k, h | 0 <= k < LEVELS && 0 <= h < 60 ensures NoDup(Slot(r, k, h)) {
    }
  }

  lemma PlaceSeats(s: Sys, r: Sys, seats: map<Timer, (nat, nat)>, t: Timer, i: nat, j: nat)
    requires Seated(s, seats) && t !in seats && i < LEVELS && j < 60
    requires Shape(r) && t in r.recs && r.recs == s.recs[t := r.recs[t]] && r.recs[t].level == i
    requires forall k, h :: 0 <= k < LEVELS && 0 <= h < 60 ==>
      Slot(r, k, h) == if k == i && h == j then Slot(s, k, h) + [t] else Slot(s, k, h)
    ensures Seated(r, seats[t := (i, j)])
  {
    hide SetSlot, Slot;
    assert t !in Slot(s, i, j);
  }

  lemma RemoveInv(s: Sys, n: nat, live: map<Timer, Entry>, seats: map<Timer, (nat, nat)>, t: Timer, i: nat, j: nat, l: seq<Timer>)
    requires Inv(s, n, live, seats) && i < LEVELS && j < 60 && t in Slot(s, i, j)
    requires NoDup(l) && forall u :: u in l <==> u in Slot(s, i, j) && u != t
    ensures Inv(SetSlot(s, i, j, l), n, live - {t}, seats - {t})
  {
    hide OnTime, SlotAt;
    RemoveSeats(s, seats, t, i, j, l);
  }

  lemma PlaceInv(s: Sys, r: Sys, n: nat, live: map<Timer, Entry>, seats: map<Timer, (nat, nat)>, t: Timer, e: Entry, i: nat, j: nat)
    requires Inv(s, n, live, seats) && t !in live && i < LEVELS && j < 60
    requires Shape(r) && t in r.recs && r.recs == s.recs[t := r.recs[t]] && r.recs[t].level == i
    requires OnTime(r.recs[t], j, n, e) && Sane(r.recs[t])
    requires forall k :: 0 <= k < LEVELS ==> r.wheels[k].cur == s.wheels[k].cur
    requires forall k, h :: 0 <= k < LEVELS && 0 <= h < 60 ==>
      Slot(r, k, h) == if k == i && h == j then Slot(s, k, h) + [t] else Slot(s, k, h)
    ensures Inv(r, n, live[t := e], seats[t := (i, j)])
  {
    hide OnTime, SlotAt;
    PlaceSeats(s, r, seats, t, i, j);
  }

  // ----- one call of tick -----

  lemma AddLowerInv(s: Sys, n: nat, live: map<Timer, Entry>, seats: map<Timer, (nat, nat)>,
      t: Timer, e: Entry, i: nat, k: nat)
    requires Inv(s, n, live, seats) && t in s.recs && t !in live
    requires 0 < e.ticks == s.recs[t].tickNum && e.interval == s.recs[t].interval
    requires k < i <= Level(e.ticks) < LEVELS && s.recs[t].slot == SlotAt(DrainAt(e, Level(e.ticks)), Level(e.ticks))
    requires DrainAt(e, Level(e.ticks)) <= n == DrainAt(e, i) && Low(n, i) == 0
    requires k == i - 1 || e.ticks % 60 == 0
    ensures var r := AddLower(s, t, k); Inv(r, n, live[t := e], seats[t := (r.recs[t].level, e.ticks % 60)])
  {
    InvRecorded(s, n, live, seats);
    hide Inv, AddLower, Shape, AllSane, Recorded, Pow, Low, DrainAt, Level, SlotAt;
    var m := LowestWheel(s, t, k);
    LowerLandInv(s, n, live, seats, t, e, i, m);
  }

  /** The wheel a timer that is handed down ends on. */
  lemma {:induction false} LowestWheel(s: Sys, t: Timer, k: nat) returns (m: nat)
    requires Shape(s) && k < LEVELS && t in s.recs
    ensures m <= k && AddLower(s, t, k) == AddLower(s, t, m)
    ensures m == 0 || Low(s.recs[t].tickNum, m + 1) != 0
    ensures m < k ==> s.recs[t].tickNum % 60 == 0
  {
    hide Shape, AddLower, Low;
    if k != 0 && Low(s.recs[t].tickNum, k + 1) == 0 {
      NoLowDigit(s.recs[t].tickNum, k);
      LowerSkips(s, t, k);
      m := LowestWheel(s, t, k - 1);
    } else {
      m := k;
    }
  }

  lemma LowerLandInv(s: Sys, n: nat, live: map<Timer, Entry>, seats: map<Timer, (nat, nat)>, t: Timer, e: Entry, i: nat, k: nat)
    requires Inv(s, n, live, seats) && t in s.recs && t !in live
    requires 0 < e.ticks == s.recs[t].tickNum && e.interval == s.recs[t].interval
    requires k < i <= Level(e.ticks) < LEVELS && s.recs[t].slot == SlotAt(DrainAt(e, Level(e.ticks)), Level(e.ticks))
    requires DrainAt(e, Level(e.ticks)) <= n == DrainAt(e, i) && Low(n, i) == 0
    requires k == i - 1 || e.ticks % 60 == 0
    requires k == 0 || Low(e.ticks, k + 1) != 0
    ensures var r := AddLower(s, t, k); Inv(r, n, live[t := e], seats[t := (r.recs[t].level, e.ticks % 60)])
  {
    InvCursors(s, n, live, seats);
    hide Inv, AddLower, Place, Shape, Pow, Low, Turn, DrainAt, Timely, Level, SlotAt;
    CascadeTimes(n, e, i, k);
    LowerPlaces(s, t, k);
    LandInv(s, n, live, seats, t, e, k, e.ticks % 60);
  }

  lemma NoLowDigit(x: nat, k: nat)
    requires Low(x, k + 1) == 0
    ensures x % 60 == 0
  {
    LowDigit(x, k);
  }

  lemma LowerSkips(s: Sys, t: Timer, k: nat)
    requires Shape(s) && 0 < k < LEVELS && t in s.recs && Low(s.recs[t].tickNum, k + 1) == 0
    ensures AddLower(s, t, k) == AddLower(s, t, k - 1)
  {
  }

  lemma LowerPlaces(s: Sys, t: Timer, k: nat)
    requires Shape(s) && k < LEVELS && t in s.recs && (k == 0 || Low(s.recs[t].tickNum, k + 1) != 0)
    ensures AddLower(s, t, k) == Place(s, t, k, Turn(s.wheels[k].cur, Low(s.recs[t].tickNum, k + 1)))
    ensures AddLower(s, t, k).recs[t].level == k
  {
  }

  /** A timer that is put where it is served next is on time there. */
  lemma LandInv(s: Sys, n: nat, live: map<Timer, Entry>, seats: map<Timer, (nat, nat)>, t: Timer, e: Entry, k: nat, j: nat)
    requires Inv(s, n, live, seats) && t in s.recs && t !in live && j == e.ticks % 60
    requires 0 < e.ticks == s.recs[t].tickNum && e.interval == s.recs[t].interval
    requires k < Level(e.ticks) < LEVELS && s.recs[t].slot == SlotAt(DrainAt(e, Level(e.ticks)), Level(e.ticks))
    requires DrainAt(e, Level(e.ticks)) <= n && Timely(n, DrainAt(e, k), k) && j == SlotAt(DrainAt(e, k), k)
    ensures Shape(s) && Inv(Place(s, t, k, j), n, live[t := e], seats[t := (k, j)])
  {
    InvCursors(s, n, live, seats);
    hide Inv, Timely, DrainAt, SlotAt, Level;
    PlaceInv(s, Place(s, t, k, j), n, live, seats, t, e, k, j);
  }

  /** Where a timer of a current slot stands. */
  lemma CurrentSeat(s: Sys, n: nat, live: map<Timer, Entry>, seats: map<Timer, (nat, nat)>, t: Timer, i: nat)
    requires Inv(s, n, live, seats) && i < LEVELS && t in CurSlot(s, i)
    ensures t in live && t in s.recs && s.recs[t].level == i && seats[t] == (i, s.wheels[i].cur)
    ensures OnTime(s.recs[t], SlotAt(n, i), n, live[t]) && s.wheels[i].cur == SlotAt(n, i)
  {
    hide OnTime, SlotAt;
    assert t in Slot(s, i, s.wheels[i].cur);
  }

  /** A timer stands in a current slot exactly when call n is the call that drains it. */
  lemma DrainsNow(rec: Rec, slot: nat, n: nat, e: Entry)
    requires OnTime(rec, slot, n, e)
    ensures 0 < e.ticks == rec.tickNum && e.interval == rec.interval && rec.level <= Level(e.ticks) < LEVELS
    ensures rec.slot == SlotAt(DrainAt(e, Level(e.ticks)), Level(e.ticks))
    ensures slot == SlotAt(n, rec.level) <==> DrainAt(e, rec.level) == n
    ensures DrainAt(e, rec.level) == n ==> Low(n, rec.level) == 0 && DrainAt(e, Level(e.ticks)) <= n
  {
    hide Pow, DrainAt, Level, Ones;
    CurrentWhenDue(n, DrainAt(e, rec.level), rec.level);
  }

  lemma StillToDo(s: Sys, t: Timer, i: nat, l: seq<Timer>)
    requires Shape(s) && 0 < i < LEVELS && t in s.recs
    ensures Shape(SetCurSlot(s, i, l)) && SetCurSlot(s, i, l).recs == s.recs
    ensures CurSlot(AddLower(SetCurSlot(s, i, l), t, i - 1), i) == l
  {
  }

  lemma HeadGone(l: seq<Timer>)
    requires NoDup(l) && l != []
    ensures NoDup(l[1..]) && forall u :: u in l[1..] <==> u in l && u != l[0]
  {
  }

  /** Taking the front timer off a current slot. */
  lemma RemoveHeadInv(s: Sys, n: nat, live: map<Timer, Entry>, seats: map<Timer, (nat, nat)>, i: nat)
    requires Inv(s, n, live, seats) && i < LEVELS && CurSlot(s, i) != []
    ensures var l := CurSlot(s, i); var r := SetCurSlot(s, i, l[1..]);
      && Shape(r) && Inv(r, n, live - {l[0]}, seats - {l[0]})
      && r.recs == s.recs && r.fired == s.fired
      && forall k :: 0 <= k < LEVELS ==> CurSlot(r, k) == if k == i then l[1..] else CurSlot(s, k)
  {
    hide OnTime, SlotAt;
    var j := s.wheels[i].cur;
    HeadGone(Slot(s, i, j));
    RemoveInv(s, n, live, seats, Slot(s, i, j)[0], i, j, Slot(s, i, j)[1..]);
  }

  /** Handing one timer down from a current slot. */
  lemma StepDown(s: Sys, n: nat, live: map<Timer, Entry>, seats: map<Timer, (nat, nat)>, i: nat)
    returns (seats': map<Timer, (nat, nat)>)
    requires Inv(s, n, live, seats) && 0 < i < LEVELS && CurSlot(s, i) != []
    ensures var l := CurSlot(s, i); l[0] in s.recs && Inv(AddLower(SetCurSlot(s, i, l[1..]), l[0], i - 1), n, live, seats')
  {
    hide Timely, DrainAt, SlotAt, Inv, CurSlot, SetCurSlot, AddLower, Level, Pow, Low, OnTime, Shape, AllSane;
    InvRecorded(s, n, live, seats);
    var l := CurSlot(s, i);
    var t := l[0];
    assert t in l;
    CurrentSeat(s, n, live, seats, t, i);
    var e := live[t];
    DrainsNow(s.recs[t], SlotAt(n, i), n, e);
    RemoveHeadInv(s, n, live, seats, i);
    AddLowerInv(SetCurSlot(s, i, l[1..]), n, live - {t}, seats - {t}, t, e, i, i - 1);
    assert (live - {t})[t := e] == live;
    seats' := (seats - {t})[t := (AddLower(SetCurSlot(s, i, l[1..]), t, i - 1).recs[t].level, e.ticks % 60)];
  }

  /** Cascading a slot moves its timers down without losing one and without changing what is due. */
  lemma {:induction false} CheckSlotInv(s: Sys, n: nat, live: map<Timer, Entry>, seats: map<Timer, (nat, nat)>, i: nat)
    returns (seats': map<Timer, (nat, nat)>)
    requires Inv(s, n, live, seats) && 0 < i < LEVELS
    ensures Inv(CheckSlot(s, i), n, live, seats') && CurSlot(CheckSlot(s, i), i) == []
    decreases |CurSlot(s, i)|
  {
    InvRecorded(s, n, live, seats);
    hide Inv, Shape, Recorded, AllSane, CurSlot, SetCurSlot, AddLower;
    var l := CurSlot(s, i);
    if l == [] { return seats; }
    assert l[0] in l;
    StillToDo(s, l[0], i, l[1..]);
    var seats1 := StepDown(s, n, live, seats, i);
    var s2 := AddLower(SetCurSlot(s, i, l[1..]), l[0], i - 1);
    InvRecorded(s2, n, live, seats1);
    seats' := CheckSlotInv(s2, n, live, seats1, i);
  }

  /** The current slots of wheels i and above are empty. */
  ghost predicate Drained(s: Sys, i: nat)
    requires Shape(s)
  {
    forall k :: i <= k < LEVELS ==> CurSlot(s, k) == []
  }

  lemma DrainedOneMore(s: Sys, r: Sys, i: nat)
    requires Shape(s) && Shape(r) && i < LEVELS && Drained(s, i + 1) && CurSlot(r, i) == []
    requires forall k :: i < k < LEVELS ==> r.wheels[k] == s.wheels[k]
    ensures Drained(r, i)
  {
    forall k | i < k < LEVELS ensures CurSlot(r, k) == [] {
      assert CurSlot(s, k) == [];
    }
  }

  lemma {:induction false} CheckAllInv(s: Sys, n: nat, live: map<Timer, Entry>, seats: map<Timer, (nat, nat)>, i: nat)
    returns (seats': map<Timer, (nat, nat)>)
    requires Inv(s, n, live, seats) && i < LEVELS && Drained(s, i + 1)
    ensures Inv(CheckAll(s, i), n, live, seats') && Drained(CheckAll(s, i), 1)
    ensures CheckAll(s, i).fired == s.fired
    decreases i
  {
    InvRecorded(s, n, live, seats);
    hide Inv, Shape, Recorded, AllSane, CurSlot, CheckSlot, Drained;
    if i == 0 {
      seats' := seats;
    } else {
      var seats1 := CheckSlotInv(s, n, live, seats, i);
      InvRecorded(CheckSlot(s, i), n, live, seats1);
      DrainedOneMore(s, CheckSlot(s, i), i);
      seats' := CheckAllInv(CheckSlot(s, i), n, live, seats1, i - 1);
    }
  }

  /** The ideal effect of call n: what is due goes, and comes back if it repeats. */
  ghost function After(live: map<Timer, Entry>, n: nat): map<Timer, Entry> {
    map t | t in live && (live[t].due != n || live[t].interval > 0) ::
      if live[t].due != n then live[t]
      else Entry(FireAt(n, live[t].interval), live[t].interval, live[t].interval)
  }

  lemma FiresLater(n: nat, ticks: nat)
    requires ticks > 0
    ensures n < FireAt(n, ticks)
  {
    ArmTimes(n, ticks, 0);
    MulMono(ticks % 60, 0, Ones(Level(ticks)));
  }

  lemma ArmInv(s: Sys, n: nat, live: map<Timer, Entry>, seats: map<Timer, (nat, nat)>, t: Timer, ticks: nat, interval: nat)
    returns (seats': map<Timer, (nat, nat)>)
    requires Inv(s, n, live, seats) && t !in live
    requires ticks > 0 && Level(ticks) < LEVELS && Level(interval) < LEVELS
    ensures Inv(Arm(s, t, ticks, interval), n, live[t := Entry(FireAt(n, ticks), ticks, interval)], seats')
  {
    ArmTimes(n, ticks, interval);
    var r, k := Arm(s, t, ticks, interval), Level(ticks);
    var j := (s.wheels[k].cur + Lead(ticks)) % 60;
    seats' := seats[t := (k, j)];
    PlaceInv(s, r, n, live, seats, t, Entry(FireAt(n, ticks), ticks, interval), k, j);
  }

  lemma DrainsBeforeDue(e: Entry, k: nat)
    ensures DrainAt(e, k) <= e.due && DrainAt(e, 0) == e.due
  {
    MulMono(e.ticks % 60, 0, Ones(k));
  }

  /** With the upper current slots empty, the bottom current slot holds exactly what is due now. */
  lemma BottomIsDue(s: Sys, n: nat, live: map<Timer, Entry>, seats: map<Timer, (nat, nat)>, t: Timer)
    requires Inv(s, n, live, seats) && Drained(s, 1)
    ensures t in CurSlot(s, 0) <==> t in live && live[t].due == n
  {
    hide Pow, SlotAt, Level, Ones, Timely;
    if t in CurSlot(s, 0) {
      CurrentSeat(s, n, live, seats, t, 0);
      DrainsNow(s.recs[t], s.wheels[0].cur, n, live[t]);
      DrainsBeforeDue(live[t], 0);
    }
    if t in live && live[t].due == n { DueIsCurrent(s, n, live, seats, t); }
  }

  lemma DueIsCurrent(s: Sys, n: nat, live: map<Timer, Entry>, seats: map<Timer, (nat, nat)>, t: Timer)
    requires Inv(s, n, live, seats) && Drained(s, 1) && t in live && live[t].due == n
    ensures t in CurSlot(s, 0)
  {
    hide Pow, SlotAt, Level, Ones, DrainAt;
    var k := s.recs[t].level;
    assert OnTime(s.recs[t], seats[t].1, n, live[t]);
    assert t in Slot(s, k, seats[t].1);
    DrainsBeforeDue(live[t], k);
    DrainsNow(s.recs[t], seats[t].1, n, live[t]);
    assert t in CurSlot(s, k);
  }

  /** Running the bottom slot fires each of its timers once and re-arms the repeating ones. */
  lemma {:induction false} RunSlotInv(s: Sys, n: nat, live: map<Timer, Entry>, seats: map<Timer, (nat, nat)>)
    returns (seats': map<Timer, (nat, nat)>)
    requires Inv(s, n, live, seats) && Drained(s, 1)
    ensures Inv(RunSlot(s), n, After(live, n), seats') && Drained(RunSlot(s), 0)
    ensures RunSlot(s).fired == s.fired + CurSlot(s, 0)
    decreases |CurSlot(s, 0)|
  {
    InvRecorded(s, n, live, seats);
    hide Inv, Shape, Recorded, AllSane, CurSlot, SetCurSlot, Fire, FireAt, Drained, After, Level;
    var l := CurSlot(s, 0);
    if l == [] {
      NothingDue(s, n, live, seats);
      return seats;
    }
    var live1, seats1 := FireHead(s, n, live, seats);
    var s1 := Fire(SetCurSlot(s, 0, l[1..]), l[0]);
    InvRecorded(s1, n, live1, seats1);
    seats' := RunSlotInv(s1, n, live1, seats1);
    FrontFirst(s.fired, l);
  }

  lemma FrontFirst(a: seq<Timer>, l: seq<Timer>)
    requires l != []
    ensures a + [l[0]] + l[1..] == a + l
  {
  }

  lemma NothingDue(s: Sys, n: nat, live: map<Timer, Entry>, seats: map<Timer, (nat, nat)>)
    requires Inv(s, n, live, seats) && Drained(s, 1) && CurSlot(s, 0) == []
    ensures Drained(s, 0) && After(live, n) == live
  {
    hide OnTime, SlotAt, FireAt;
    forall t | t in live ensures live[t].due != n { BottomIsDue(s, n, live, seats, t); }
  }

  /** Running one timer of the bottom slot. */
  lemma FireHead(s: Sys, n: nat, live: map<Timer, Entry>, seats: map<Timer, (nat, nat)>)
    returns (live': map<Timer, Entry>, seats': map<Timer, (nat, nat)>)
    requires Inv(s, n, live, seats) && Drained(s, 1) && CurSlot(s, 0) != []
    ensures var l := CurSlot(s, 0);
      && Shape(SetCurSlot(s, 0, l[1..])) && l[0] in SetCurSlot(s, 0, l[1..]).recs && Level(s.recs[l[0]].interval) < LEVELS
      && SetCurSlot(s, 0, l[1..]).recs == s.recs
      && var r := Fire(SetCurSlot(s, 0, l[1..]), l[0]);
      && Inv(r, n, live', seats') && Drained(r, 1) && CurSlot(r, 0) == l[1..]
      && r.fired == s.fired + [l[0]]
    ensures After(live', n) == After(live, n)
  {
    var l := CurSlot(s, 0);
    var t := l[0];
    BottomIsDue(s, n, live, seats, t);
    CurrentSeat(s, n, live, seats, t, 0);
    assert s.recs[t].interval == live[t].interval;
    RemoveHeadInv(s, n, live, seats, 0);
    hide OnTime, SlotAt, FireAt, Level, Fire, Inv, CurSlot, SetCurSlot;
    live', seats' := FireInv(SetCurSlot(s, 0, l[1..]), n, live - {t}, seats - {t}, t);
    AfterFire(live, n, t, live');
  }

  lemma AfterFire(live: map<Timer, Entry>, n: nat, t: Timer, live': map<Timer, Entry>)
    requires t in live && live[t].due == n
    requires var i := live[t].interval; live' == if i > 0 then (live - {t})[t := Entry(FireAt(n, i), i, i)] else live - {t}
    ensures After(live', n) == After(live, n)
  {
    hide FireAt;
    if live[t].interval > 0 { FiresLater(n, live[t].interval); }
  }

  lemma FiredInv(s: Sys, n: nat, live: map<Timer, Entry>, seats: map<Timer, (nat, nat)>, r: Sys)
    requires Inv(s, n, live, seats) && r.wheels == s.wheels && r.recs == s.recs
    ensures Inv(r, n, live, seats)
  {
    hide OnTime, SlotAt;
    assert forall k, h :: 0 <= k < LEVELS && 0 <= h < 60 ==> Slot(r, k, h) == Slot(s, k, h);
  }

  lemma FireInv(s: Sys, n: nat, live: map<Timer, Entry>, seats: map<Timer, (nat, nat)>, t: Timer)
    returns (live': map<Timer, Entry>, seats': map<Timer, (nat, nat)>)
    requires Inv(s, n, live, seats) && t in s.recs && t !in live && s.recs[t].level == 0
    ensures Inv(Fire(s, t), n, live', seats')
    ensures var i := s.recs[t].interval; live' == if i > 0 then live[t := Entry(FireAt(n, i), i, i)] else live
    ensures Fire(s, t).fired == s.fired + [t]
    ensures forall k :: 0 <= k < LEVELS ==> CurSlot(Fire(s, t), k) == CurSlot(s, k)
  {
    var i := s.recs[t].interval;
    var s1 := s.(fired := s.fired + [t]);
    FiredInv(s, n, live, seats, s1);
    live', seats' := live, seats;
    if i > 0 {
      live' := live[t := Entry(FireAt(n, i), i, i)];
      seats' := ArmInv(s1, n, live, seats, t, i, i);
      forall k | 0 <= k < LEVELS ensures CurSlot(Fire(s, t), k) == CurSlot(s, k) {
        ArmSparesCursor(s1, t, i, i, k);
      }
    }
  }

  // ----- moving the cursors -----

  /** No carry out of digit i: every higher quotient is unchanged. */
  lemma {:induction false} NoCarry(n: nat, i: nat, k: nat)
    requires i < k && (n + 1) % Pow(i) == 0 && (n + 1) / Pow(i) % 60 != 0
    ensures (n + 1) / Pow(k) == n / Pow(k)
    decreases k
  {
    DivPowSucc(n, k - 1);
    DivPowSucc(n + 1, k - 1);
    if i < k - 1 {
      NoCarry(n, i, k - 1);
    } else {
      NextBlock(n, Pow(i));
    }
  }

  lemma NextBlock(n: nat, p: nat)
    requires p > 0 && (n + 1) % p == 0
    ensures (n + 1) / p == n / p + 1
  {
    var q := (n + 1) / p;
    assert n == p * (q - 1) + (p - 1);
    DivUnique(n, p, q - 1, p - 1);
  }

  /** The cursors are the base-60 digits of the number of completed ticks, and ticking adds 1 to them. */
  lemma {:induction false} AdvanceCursors(s: Sys, n: nat, i: nat)
    requires Shape(s) && i <= LEVELS && (n + 1) % Pow(i) == 0
    requires forall k :: 0 <= k < LEVELS ==> s.wheels[k].cur == if k < i then SlotAt(n + 1, k) else SlotAt(n, k)
    ensures Cursors(Advance(s, i), n + 1)
    decreases LEVELS - i
  {
    hide Pow, SlotAt;
    if i < LEVELS {
      var c := (s.wheels[i].cur + 1) % 60;
      CarryOut(n, i);
      if c == 0 { AdvanceCursors(s.(wheels := s.wheels[i := s.wheels[i].(cur := c)]), n, i + 1); }
    }
  }

  lemma PlusOneMod(q: int)
    ensures (q + 1) % 60 == (q % 60 + 1) % 60
  {
  }

  /** Adding 1 at digit i: the digit moves on by one, and the digits above change only if it becomes 0. */
  lemma CarryOut(n: nat, i: nat)
    requires (n + 1) % Pow(i) == 0
    ensures SlotAt(n + 1, i) == (SlotAt(n, i) + 1) % 60
    ensures SlotAt(n + 1, i) == 0 ==> (n + 1) % Pow(i + 1) == 0
    ensures SlotAt(n + 1, i) != 0 ==> forall k :: k > i ==> SlotAt(n + 1, k) == SlotAt(n, k)
  {
    hide Pow;
    NextBlock(n, Pow(i));
    PlusOneMod(n / Pow(i));
    if SlotAt(n + 1, i) == 0 {
      DivPowSucc(n + 1, i);
    } else {
      forall k | k > i ensures SlotAt(n + 1, k) == SlotAt(n, k) { NoCarry(n, i, k); }
    }
  }

  /** Still on time one call later. */
  lemma OnTimeNext(rec: Rec, slot: nat, n: nat, e: Entry)
    requires OnTime(rec, slot, n, e) && slot != SlotAt(n, rec.level)
    ensures OnTime(rec, slot, n + 1, e)
  {
    hide Pow, DrainAt, Level, Ones;
    CurrentWhenDue(n, DrainAt(e, rec.level), rec.level);
    DivMono(n, n + 1, Pow(rec.level));
  }

  lemma AdvanceInv(s: Sys, n: nat, live: map<Timer, Entry>, seats: map<Timer, (nat, nat)>)
    requires Inv(s, n, live, seats) && Drained(s, 0)
    ensures Inv(Advance(s, 0), n + 1, live, seats)
  {
    hide OnTime, SlotAt, Advance;
    AdvanceStart(s, n);
    var r := Advance(s, 0);
    assert forall k, h :: 0 <= k < LEVELS && 0 <= h < 60 ==> Slot(r, k, h) == Slot(s, k, h);
    forall t | t in live ensures OnTime(r.recs[t], seats[t].1, n + 1, live[t]) {
      assert CurSlot(s, seats[t].0) == [];
      OnTimeNext(s.recs[t], seats[t].1, n, live[t]);
    }
  }

  lemma AdvanceStart(s: Sys, n: nat)
    requires Shape(s) && Cursors(s, n)
    ensures Cursors(Advance(s, 0), n + 1)
  {
    AdvanceCursors(s, n, 0);
  }

  /** Between calls, a timer that has cascaded left its first wheel in an earlier call. */
  ghost predicate Settled(s: Sys, n: nat, live: map<Timer, Entry>) {
    forall t :: t in live && t in s.recs && s.recs[t].level < Level(live[t].ticks) ==> DrainAt(live[t], Level(live[t].ticks)) < n
  }

  lemma InvSettled(s: Sys, n: nat, live: map<Timer, Entry>, seats: map<Timer, (nat, nat)>)
    requires Inv(s, n, live, seats)
    ensures Settled(s, n + 1, live)
  {
    hide Pow, DrainAt, Level, Ones, SlotAt, Timely, Seated, Cursors;
  }

  /**
   * One call of `tick` fires exactly the timers due in that call, each once, re-arms the repeating ones,
   * and leaves every other timer on time.
   */
  lemma TickInv(s: Sys, n: nat, live: map<Timer, Entry>, seats: map<Timer, (nat, nat)>)
    returns (batch: seq<Timer>, seats': map<Timer, (nat, nat)>)
    requires Inv(s, n, live, seats)
    ensures Recorded(s) && Inv(Tick(s), n + 1, After(live, n), seats') && Settled(Tick(s), n + 1, After(live, n))
    ensures Tick(s).fired == s.fired + batch && NoDup(batch)
    ensures forall t :: t in batch <==> t in live && live[t].due == n
  {
    InvRecorded(s, n, live, seats);
    hide Inv, OnTime, After, CheckAll, RunSlot, Advance;
    var seats1 := CheckAllInv(s, n, live, seats, LEVELS - 1);
    var s1 := CheckAll(s, LEVELS - 1);
    InvRecorded(s1, n, live, seats1);
    batch := CurSlot(s1, 0);
    BatchIsDue(s1, n, live, seats1);
    seats' := RunSlotInv(s1, n, live, seats1);
    AdvanceInv(RunSlot(s1), n, After(live, n), seats');
    InvSettled(RunSlot(s1), n, After(live, n), seats');
  }

  lemma BatchIsDue(s: Sys, n: nat, live: map<Timer, Entry>, seats: map<Timer, (nat, nat)>)
    requires Inv(s, n, live, seats) && Drained(s, 1)
    ensures NoDup(CurSlot(s, 0))
    ensures forall t :: t in CurSlot(s, 0) <==> t in live && live[t].due == n
  {
    hide OnTime, SlotAt;
    forall t ensures t in CurSlot(s, 0) <==> t in live && live[t].due == n { BottomIsDue(s, n, live, seats, t); }
  }

  // ----- cancelling -----

  lemma {:induction false} WithoutSpec(l: seq<Timer>, t: Timer)
    requires NoDup(l)
    ensures NoDup(Without(l, t)) && forall u :: u in Without(l, t) <==> u in l && u != t
    ensures t !in l ==> Without(l, t) == l
  {
    if l != [] {
      assert l[0] !in l[1..];
      WithoutSpec(l[1..], t);
    }
  }

  /**
   * Cancelling before call n takes effect: the timer is still on its first wheel, or happens to sit in the slot
   * it has on record.
   */
  ghost predicate CancelWorks(n: nat, e: Entry) {
    var top := Level(e.ticks);
    n <= DrainAt(e, top) || SlotAt(DrainAt(e, top), top) == e.ticks % 60
  }

  /** Cancelling removes the timer exactly when `CancelWorks` says so and otherwise changes nothing. */
  lemma CancelInv(s: Sys, n: nat, live: map<Timer, Entry>, seats: map<Timer, (nat, nat)>, t: Timer)
    returns (seats': map<Timer, (nat, nat)>)
    requires Inv(s, n, live, seats) && Settled(s, n, live)
    requires t in s.recs && Sane(s.recs[t])
    ensures Inv(Cancel(s, t), n, if t in live && CancelWorks(n, live[t]) then live - {t} else live, seats')
    ensures Cancel(s, t).recs == s.recs && Cancel(s, t).fired == s.fired
  {
    var i, j := s.recs[t].level, s.recs[t].slot;
    var l := Slot(s, i, j);
    InvRecorded(s, n, live, seats);
    CancelFinds(s, n, live, seats, t);
    hide Inv, Shape, OnTime, SlotAt, Settled, CancelWorks, SetSlot, Slot;
    WithoutSpec(l, t);
    if t in l {
      RemoveInv(s, n, live, seats, t, i, j, Without(l, t));
      seats' := seats - {t};
    } else {
      CancelNothing(s, t);
      seats' := seats;
    }
  }

  lemma CancelFinds(s: Sys, n: nat, live: map<Timer, Entry>, seats: map<Timer, (nat, nat)>, t: Timer)
    requires Inv(s, n, live, seats) && Settled(s, n, live)
    requires t in s.recs && Sane(s.recs[t])
    ensures NoDup(Slot(s, s.recs[t].level, s.recs[t].slot))
    ensures t in Slot(s, s.recs[t].level, s.recs[t].slot) <==> t in live && CancelWorks(n, live[t])
  {
    hide OnTime, SlotAt, CancelWorks;
    if t in live { CancelSeat(s.recs[t], seats[t].1, n, live[t]); }
  }

  lemma CancelNothing(s: Sys, t: Timer)
    requires Shape(s) && t in s.recs && Sane(s.recs[t])
    requires var l := Slot(s, s.recs[t].level, s.recs[t].slot); Without(l, t) == l
    ensures Cancel(s, t) == s
  {
    var i, j := s.recs[t].level, s.recs[t].slot;
    assert s.wheels[i].slots[j := Slot(s, i, j)] == s.wheels[i].slots;
    assert s.wheels[i := s.wheels[i]] == s.wheels;
  }

  lemma CancelSeat(rec: Rec, slot: nat, n: nat, e: Entry)
    requires OnTime(rec, slot, n, e) && (rec.level < Level(e.ticks) ==> DrainAt(e, Level(e.ticks)) < n)
    ensures slot == rec.slot <==> CancelWorks(n, e)
  {
    hide Pow, DrainAt, Level, Ones, SlotAt;
  }
}
