/** One group's counters over one day: what each event does to them, and what every
    run of events leaves true. */
module PacingDay {
  import opened Wrappers

  datatype Delivery = Imp | Clk

  // The pacing granularity; the first three count a day in slots.
  datatype Period = Quarter | Half | Hour | Day

  type HourOfDay = n: nat | n < 24
  type Minute = n: nat | n < 60

  // An accepted notice and the group's pacing settings when it is counted.
  datatype Event = Event(kind: Delivery, paced: Delivery, period: Period, hour: HourOfDay, minute: Minute,
      plan: seq<int>)

  // The numbers kept for a group.
  datatype Key =
    | Total(kind: Delivery)
    | HourSum(kind: Delivery, hour: HourOfDay)
    | Target(kind: Delivery, hour: HourOfDay)
    | DayTarget(kind: Delivery)
    | Finish(kind: Delivery, hour: HourOfDay)

  type Length = n: nat | n < 100
  datatype Slot = Slot(hour: HourOfDay, start: Minute, length: Length)
  datatype Pair = Pair(imp: int, clk: int)

  datatype Counters = Counters(counts: map<Key, int>, slots: map<Slot, Pair>)

  predicate WellPlanned(e: Event) {
    |e.plan| == 24
  }

  function Minutes(p: Period): (n: Length)
    requires p != Day
    ensures n > 0
  {
    match p
    case Quarter => 15
    case Half => 30
    case Hour => 60
  }

  function SlotOf(e: Event): Slot
    requires e.period != Day
  {
    Slot(e.hour, Minutes(e.period) * (e.minute / Minutes(e.period)), Minutes(e.period))
  }

  // What atoi of a stored number gives; a number not stored counts as zero.
  function At(counts: map<Key, int>, k: Key): int {
    if k in counts then counts[k] else 0
  }

  function Of(p: Pair, kind: Delivery): int {
    if kind == Imp then p.imp else p.clk
  }

  function One(kind: Delivery): Pair {
    if kind == Imp then Pair(1, 0) else Pair(0, 1)
  }

  function AddOne(p: Pair, kind: Delivery): Pair {
    if kind == Imp then p.(imp := p.imp + 1) else p.(clk := p.clk + 1)
  }

  function SlotAt(slots: map<Slot, Pair>, s: Slot): Pair {
    if s in slots then slots[s] else Pair(0, 0)
  }

  // The conversion of a 64-bit number to int.
  function Int32(n: int): int {
    (n + 0x8000_0000) % 0x1_0000_0000 - 0x8000_0000
  }

  lemma Int32Is(n: int)
    ensures -0x8000_0000 <= Int32(n) < 0x8000_0000 && (Int32(n) - n) % 0x1_0000_0000 == 0
  {
    var m := n + 0x8000_0000;
    assert m == m / 0x1_0000_0000 * 0x1_0000_0000 + m % 0x1_0000_0000;
    assert Int32(n) - n == -(m / 0x1_0000_0000) * 0x1_0000_0000;
  }

  // The slot of an event is the one of its period's length that holds its minute.
  lemma SlotHolds(e: Event, s: Slot)
    requires e.period != Day
    ensures s == SlotOf(e) <==>
              && s.hour == e.hour
              && s.length == (match e.period case Quarter => 15 case Half => 30 case _ => 60)
              && s.start % s.length == 0 && s.start <= e.minute < s.start + s.length
  {
    var n := Minutes(e.period);
    assert e.minute == n * (e.minute / n) + e.minute % n;
    if s.length == n && s.start % n == 0 && s.start <= e.minute < s.start + n {
      assert s.start == n * (s.start / n);
      assert e.minute / n == s.start / n;
    }
  }

  // ----- targets -----

  // The latest of hours 1, ..., i with a target, 0 if there is none: the search
  // never looks at hour 0.
  function LastActive(counts: map<Key, int>, kind: Delivery, i: int): (h: nat)
    ensures h == 0 || (h <= i && h < 24 && At(counts, Target(kind, h)) != 0)
    ensures forall j | h < j <= i && j < 24 :: At(counts, Target(kind, j)) == 0
    decreases i
  {
    if i <= 0 then 0
    else if i < 24 && At(counts, Target(kind, i)) != 0 then i
    else LastActive(counts, kind, i - 1)
  }

  // The planned number of an hour, and what the last active hour left over.
  function Rolled(counts: map<Key, int>, kind: Delivery, hour: HourOfDay, planned: int): int {
    var h := LastActive(counts, kind, hour - 1);
    planned + if h == 0 then 0 else At(counts, Target(kind, h)) - At(counts, HourSum(kind, h))
  }

  function HourTarget(counts: map<Key, int>, kind: Delivery, hour: HourOfDay, planned: int): int {
    if planned == 0 then 0
    else if Rolled(counts, kind, hour, planned) <= 0 then 1
    else Rolled(counts, kind, hour, planned)
  }

  function HourSums(counts: map<Key, int>, kind: Delivery, i: int): int
    requires i < 24
    decreases i + 1
  {
    if i < 0 then 0 else At(counts, HourSum(kind, i)) + HourSums(counts, kind, i - 1)
  }

  function DayLeft(counts: map<Key, int>, kind: Delivery, hour: HourOfDay, planned: int): int {
    if planned == 0 then 0 else planned - HourSums(counts, kind, hour)
  }

  // ----- one event -----

  function TargetKey(e: Event): Key {
    if e.period == Day then DayTarget(e.paced) else Target(e.paced, e.hour)
  }

  function First(e: Event): Counters
    requires WellPlanned(e)
  {
    var totals := map[Total(Imp) := One(e.kind).imp, Total(Clk) := One(e.kind).clk];
    if e.period == Day then Counters(totals[DayTarget(e.paced) := e.plan[0]], map[])
    else
      Counters(totals[HourSum(Imp, e.hour) := One(e.kind).imp][HourSum(Clk, e.hour) := One(e.kind).clk]
                     [Target(e.paced, e.hour) := e.plan[e.hour]],
               map[SlotOf(e) := One(e.kind)])
  }

  function Counted(counts: map<Key, int>, e: Event): map<Key, int> {
    counts[Total(e.kind) := At(counts, Total(e.kind)) + 1]
  }

  function Aimed(counts: map<Key, int>, e: Event): map<Key, int>
    requires WellPlanned(e)
  {
    if TargetKey(e) in counts then counts
    else if e.period == Day then counts[TargetKey(e) := Int32(DayLeft(counts, e.paced, e.hour, e.plan[0]))]
    else counts[TargetKey(e) := Int32(HourTarget(counts, e.paced, e.hour, e.plan[e.hour]))]
  }

  // Whether the hour's target of the paced kind is met by n deliveries.
  predicate Met(counts: map<Key, int>, e: Event, n: int) {
    e.paced == e.kind && 0 < At(counts, Target(e.kind, e.hour)) <= n
  }

  function Summed(counts: map<Key, int>, e: Event): map<Key, int> {
    var k := HourSum(e.kind, e.hour);
    if e.period == Day then counts
    else if k !in counts then counts[k := 1]
    else
      var summed := counts[k := counts[k] + 1];
      if Met(counts, e, counts[k] + 1) && Finish(e.paced, e.hour) !in counts
          then summed[Finish(e.paced, e.hour) := e.minute]
      else summed
  }

  function Step(c: Option<Counters>, e: Event): Counters
    requires WellPlanned(e)
  {
    match c
    case None => First(e)
    case Some(c) =>
      Counters(Summed(Aimed(Counted(c.counts, e), e), e),
               if e.period == Day then c.slots else c.slots[SlotOf(e) := AddOne(SlotAt(c.slots, SlotOf(e)), e.kind)])
  }

  predicate Planned(es: seq<Event>) {
    forall i | 0 <= i < |es| :: WellPlanned(es[i])
  }

  function Run(es: seq<Event>): Option<Counters>
    requires Planned(es)
  {
    if es == [] then None else Some(Step(Run(es[..|es| - 1]), es[|es| - 1]))
  }

  // ----- counting events -----

  function CountEvents(es: seq<Event>, p: Event -> bool): (n: nat)
    ensures n <= |es|
  {
    if es == [] then 0 else CountEvents(es[..|es| - 1], p) + if p(es[|es| - 1]) then 1 else 0
  }

  function OfKind(kind: Delivery): Event -> bool {
    (e: Event) => e.kind == kind
  }

  function InDaySlots(kind: Delivery): Event -> bool {
    (e: Event) => e.kind == kind && e.period != Day
  }

  function InHour(kind: Delivery, hour: HourOfDay): Event -> bool {
    (e: Event) => e.kind == kind && e.period != Day && e.hour == hour
  }

  function InSlot(kind: Delivery, s: Slot): Event -> bool {
    (e: Event) => e.kind == kind && e.period != Day && SlotOf(e) == s
  }

  // What a run has counted, number by number.
  predicate ExactAt(es: seq<Event>, c: Counters, kind: Delivery, h: HourOfDay, s: Slot) {
    && At(c.counts, Total(kind)) == CountEvents(es, OfKind(kind))
    && At(c.counts, HourSum(kind, h)) == CountEvents(es, InHour(kind, h))
    && Of(SlotAt(c.slots, s), kind) == CountEvents(es, InSlot(kind, s))
  }

  ghost predicate Exact(es: seq<Event>, c: Counters) {
    forall kind: Delivery, h: HourOfDay, s: Slot :: ExactAt(es, c, kind, h, s)
  }

  lemma {:induction false} CountsAreExact(es: seq<Event>)
    requires Planned(es) && es != []
    ensures Exact(es, Run(es).value)
  {
    var n := |es| - 1;
    if n == 0 {
      FirstIsExact(es[0]);
      assert es == [es[0]];
    } else {
      CountsAreExact(es[..n]);
      StepIsExact(es[..n], Run(es[..n]).value, es[n]);
      assert es == es[..n] + [es[n]];
    }
  }

  // What the first event of a day stores: both totals, and by its pacing the target of the
  // day, or both sums and the target of its hour and its slot.
  lemma FirstStores(e: Event, k: Key, s: Slot)
    requires WellPlanned(e)
    ensures k in First(e).counts
            <==> k.Total? || k == TargetKey(e) || (k.HourSum? && e.period != Day && k.hour == e.hour)
    ensures TargetKey(e) == if e.period == Day then DayTarget(e.paced) else Target(e.paced, e.hour)
    ensures First(e).counts[TargetKey(e)] == if e.period == Day then e.plan[0] else e.plan[e.hour]
    ensures s in First(e).slots <==> e.period != Day && s == SlotOf(e)
  {
    hide SlotOf;
    match k
    case Total(kind) => assert kind == Imp || kind == Clk;
    case HourSum(kind, h) => assert kind == Imp || kind == Clk;
    case _ =>
  }

  lemma FirstIsExact(e: Event)
    requires WellPlanned(e)
    ensures Exact([e], First(e))
  {
    assert [e][..0] == [];
  }

  lemma CountMore(es: seq<Event>, e: Event, p: Event -> bool)
    ensures CountEvents(es + [e], p) == CountEvents(es, p) + if p(e) then 1 else 0
  {
    assert (es + [e])[..|es|] == es;
  }

  // Each number moves by what the event adds to it.
  lemma StepAdds(c: Counters, e: Event, kind: Delivery, h: HourOfDay, s: Slot)
    requires WellPlanned(e)
    ensures var d := Step(Some(c), e);
            && At(d.counts, Total(kind)) == At(c.counts, Total(kind)) + (if OfKind(kind)(e) then 1 else 0)
            && At(d.counts, HourSum(kind, h)) == At(c.counts, HourSum(kind, h)) + (if InHour(kind, h)(e) then 1 else 0)
            && Of(SlotAt(d.slots, s), kind) == Of(SlotAt(c.slots, s), kind) + (if InSlot(kind, s)(e) then 1 else 0)
  {
    hide Int32, HourTarget, DayLeft;
  }

  lemma StepIsExact(es: seq<Event>, c: Counters, e: Event)
    requires Exact(es, c) && WellPlanned(e)
    ensures Exact(es + [e], Step(Some(c), e))
  {
    hide Step, At, SlotAt;
    forall kind: Delivery, h: HourOfDay, s: Slot ensures ExactAt(es + [e], Step(Some(c), e), kind, h, s) {
      assert ExactAt(es, c, kind, h, s);
      StepAdds(c, e, kind, h, s);
      CountMore(es, e, OfKind(kind));
      CountMore(es, e, InHour(kind, h));
      CountMore(es, e, InSlot(kind, s));
    }
  }

  // ----- conservation -----

  ghost function SlotSum(slots: map<Slot, Pair>, kind: Delivery): int {
    if slots == map[] then 0
    else
      var s :| s in slots;
      Of(slots[s], kind) + SlotSum(slots - {s}, kind)
  }

  lemma {:induction false} SlotSumOut(slots: map<Slot, Pair>, kind: Delivery, s: Slot)
    requires s in slots
    ensures SlotSum(slots, kind) == Of(slots[s], kind) + SlotSum(slots - {s}, kind)
    decreases |slots|
  {
    var t :| t in slots && SlotSum(slots, kind) == Of(slots[t], kind) + SlotSum(slots - {t}, kind);
    if s != t {
      SlotSumOut(slots - {t}, kind, s);
      SlotSumOut(slots - {s}, kind, t);
      assert slots - {t} - {s} == slots - {s} - {t};
    }
  }

  lemma SlotSumSet(slots: map<Slot, Pair>, kind: Delivery, s: Slot, p: Pair)
    ensures SlotSum(slots[s := p], kind) == SlotSum(slots, kind) - Of(SlotAt(slots, s), kind) + Of(p, kind)
  {
    SlotSumOut(slots[s := p], kind, s);
    if s in slots {
      SlotSumOut(slots, kind, s);
      assert slots[s := p] - {s} == slots - {s};
    } else {
      assert slots[s := p] - {s} == slots;
    }
  }

  lemma {:induction false} HourSumsExact(es: seq<Event>, c: Counters, kind: Delivery, i: nat)
    requires Exact(es, c) && i < 24
    ensures HourSums(c.counts, kind, i)
            == CountEvents(es, (e: Event) => e.kind == kind && e.period != Day && e.hour <= i)
  {
    assert ExactAt(es, c, kind, i, Slot(0, 0, 0));
    if i == 0 {
      assert HourSums(c.counts, kind, -1) == 0;
      SameCount(es, InHour(kind, 0), (e: Event) => e.kind == kind && e.period != Day && e.hour <= 0);
    } else {
      HourSumsExact(es, c, kind, i - 1);
      SplitCount(es, InHour(kind, i), (e: Event) => e.kind == kind && e.period != Day && e.hour <= i - 1,
                 (e: Event) => e.kind == kind && e.period != Day && e.hour <= i);
    }
  }

  lemma {:induction false} SameCount(es: seq<Event>, p: Event -> bool, q: Event -> bool)
    requires forall e :: p(e) == q(e)
    ensures CountEvents(es, p) == CountEvents(es, q)
  {
    if es != [] { SameCount(es[..|es| - 1], p, q); }
  }

  lemma {:induction false} SplitCount(es: seq<Event>, p: Event -> bool, q: Event -> bool, r: Event -> bool)
    requires forall e :: r(e) == (p(e) || q(e)) && !(p(e) && q(e))
    ensures CountEvents(es, r) == CountEvents(es, p) + CountEvents(es, q)
  {
    if es != [] { SplitCount(es[..|es| - 1], p, q, r); }
  }

  lemma {:induction false} SlotSumsExact(es: seq<Event>, kind: Delivery)
    requires Planned(es) && es != []
    ensures SlotSum(Run(es).value.slots, kind) == CountEvents(es, InDaySlots(kind))
  {
    var (n, e) := (|es| - 1, es[|es| - 1]);
    CountMore(es[..n], e, InDaySlots(kind));
    assert es == es[..n] + [e];
    if n == 0 {
      assert es[..0] == [];
      if e.period != Day { SlotSumSet(map[], kind, SlotOf(e), One(e.kind)); }
    } else {
      SlotSumsExact(es[..n], kind);
      var slots := Run(es[..n]).value.slots;
      if e.period != Day { SlotSumSet(slots, kind, SlotOf(e), AddOne(SlotAt(slots, SlotOf(e)), e.kind)); }
    }
  }

  // The day's total counts every event; the hours and the slots each count those
  // that were not paced by the day, once.
  lemma Conservation(es: seq<Event>, kind: Delivery)
    requires Planned(es) && es != []
    ensures var c := Run(es).value;
            && At(c.counts, Total(kind)) == CountEvents(es, OfKind(kind))
            && HourSums(c.counts, kind, 23) == SlotSum(c.slots, kind) == CountEvents(es, InDaySlots(kind))
            && ((forall i | 0 <= i < |es| :: es[i].period != Day) ==>
              At(c.counts, Total(kind)) == HourSums(c.counts, kind, 23) == SlotSum(c.slots, kind))
  {
    CountsAreExact(es);
    var c := Run(es).value;
    assert ExactAt(es, c, kind, 0, Slot(0, 0, 0));
    HourSumsExact(es, c, kind, 23);
    SameCount(es, InDaySlots(kind), (e: Event) => e.kind == kind && e.period != Day && e.hour <= 23);
    SlotSumsExact(es, kind);
    if forall i | 0 <= i < |es| :: es[i].period != Day { NoDayEvents(es, kind); }
  }

  lemma {:induction false} NoDayEvents(es: seq<Event>, kind: Delivery)
    requires forall i | 0 <= i < |es| :: es[i].period != Day
    ensures CountEvents(es, OfKind(kind)) == CountEvents(es, InDaySlots(kind))
  {
    if es != [] { NoDayEvents(es[..|es| - 1], kind); }
  }

  // ----- finish markers -----

  // A marker stands only where the hour met a target.
  ghost predicate MarkersEarned(c: Counters) {
    forall kind: Delivery, h: HourOfDay | Finish(kind, h) in c.counts ::
      0 < At(c.counts, Target(kind, h)) <= At(c.counts, HourSum(kind, h))
  }

  lemma {:induction false} MarkersAreEarned(es: seq<Event>)
    requires Planned(es) && es != []
    ensures MarkersEarned(Run(es).value)
  {
    var n := |es| - 1;
    if n > 0 {
      MarkersAreEarned(es[..n]);
      StepKeepsEarned(Run(es[..n]).value, es[n]);
    }
  }

  lemma StepKeepsEarned(c: Counters, e: Event)
    requires WellPlanned(e) && MarkersEarned(c)
    ensures MarkersEarned(Step(Some(c), e))
  {
    hide Int32, HourTarget, DayLeft;
  }

  // What one event can change: a target or a marker, once stored, stays as it is; a
  // marker is stored with the event's minute, by the event that finds the target met.
  lemma OneEvent(c: Counters, e: Event, kind: Delivery, h: HourOfDay)
    requires WellPlanned(e)
    ensures var d := Step(Some(c), e);
            && (Target(kind, h) in c.counts
                ==> Target(kind, h) in d.counts && d.counts[Target(kind, h)] == c.counts[Target(kind, h)])
            && (Finish(kind, h) in c.counts
                ==> Finish(kind, h) in d.counts && d.counts[Finish(kind, h)] == c.counts[Finish(kind, h)])
            && (Finish(kind, h) !in c.counts ==>
              (Finish(kind, h) in d.counts <==>
                && e.period != Day && e.kind == e.paced == kind && e.hour == h && HourSum(kind, h) in c.counts
                && 0 < At(d.counts, Target(kind, h)) <= At(d.counts, HourSum(kind, h))))
            && (Finish(kind, h) in d.counts && Finish(kind, h) !in c.counts ==> d.counts[Finish(kind, h)] == e.minute)
  {
    hide Int32, HourTarget, DayLeft;
  }

  lemma {:induction false} MarkersStay(es: seq<Event>, more: seq<Event>, kind: Delivery, h: HourOfDay)
    requires Planned(es + more) && es != []
    ensures Planned(es)
    ensures Finish(kind, h) in Run(es).value.counts ==>
              && Finish(kind, h) in Run(es + more).value.counts
              && Run(es + more).value.counts[Finish(kind, h)] == Run(es).value.counts[Finish(kind, h)]
  {
    assert forall i | 0 <= i < |es| :: es[i] == (es + more)[i];
    if more == [] {
      assert es + more == es;
    } else {
      var n := |more| - 1;
      assert (es + more)[..|es + more| - 1] == es + more[..n];
      assert Planned(es + more[..n]) by {
        assert forall i | 0 <= i < |es + more[..n]| :: (es + more[..n])[i] == (es + more)[i];
      }
      MarkersStay(es, more[..n], kind, h);
      assert more[n] == (es + more)[|es| + n];
      OneEvent(Run(es + more[..n]).value, more[n], kind, h);
    }
  }

  // ----- rolling targets -----

  function PlanSum(plan: seq<int>, h: int): int
    requires |plan| == 24 && h < 24
    decreases h + 1
  {
    if h < 0 then 0 else plan[h] + PlanSum(plan, h - 1)
  }

  // One kind, one hourly plan without negative numbers, and time that does not go back.
  predicate Steady(es: seq<Event>, kind: Delivery, plan: seq<int>) {
    && |plan| == 24 && (forall i | 0 <= i < 24 :: plan[i] >= 0) && PlanSum(plan, 23) < 0x8000_0000
    && (forall i | 0 <= i < |es| :: es[i].paced == kind && es[i].period != Day && es[i].plan == plan)
    && (forall i | 0 < i < |es| :: es[i - 1].hour <= es[i].hour)
  }

  // Hour h has a target other than zero.
  predicate Active(counts: map<Key, int>, kind: Delivery, h: HourOfDay) {
    At(counts, Target(kind, h)) != 0
  }

  // Every target so far is what the rule gives, and no hour after the clock's has one.
  predicate TargetsRolled(counts: map<Key, int>, kind: Delivery, plan: seq<int>, clock: HourOfDay)
    requires |plan| == 24
  {
    forall h: HourOfDay | Target(kind, h) in counts ::
      && h <= clock
      && 0 <= counts[Target(kind, h)] <= PlanSum(plan, h)
      && counts[Target(kind, h)] == HourTarget(counts, kind, h, plan[h])
  }

  lemma {:induction false} PlanSumGrows(plan: seq<int>, a: int, b: int)
    requires |plan| == 24 && (forall i | 0 <= i < 24 :: plan[i] >= 0) && a <= b < 24
    ensures 0 <= PlanSum(plan, a) <= PlanSum(plan, b)
    decreases b
  {
    if b >= 0 { PlanSumGrows(plan, if a < b then a else a - 1, b - 1); }
  }

  // A target depends on the hours before it only.
  lemma {:induction false} LastActiveSame(a: map<Key, int>, b: map<Key, int>, kind: Delivery, i: int)
    requires i < 24 && forall j: HourOfDay | j <= i :: At(a, Target(kind, j)) == At(b, Target(kind, j))
    ensures LastActive(a, kind, i) == LastActive(b, kind, i)
    decreases i
  {
    if i > 0 { LastActiveSame(a, b, kind, i - 1); }
  }

  lemma RolledSame(a: map<Key, int>, b: map<Key, int>, kind: Delivery, h: HourOfDay, planned: int)
    requires forall j: HourOfDay | j < h ::
               At(a, Target(kind, j)) == At(b, Target(kind, j)) && At(a, HourSum(kind, j)) == At(b, HourSum(kind, j))
    ensures HourTarget(a, kind, h, planned) == HourTarget(b, kind, h, planned)
  {
    LastActiveSame(a, b, kind, h - 1);
  }

  lemma TargetBound(counts: map<Key, int>, kind: Delivery, plan: seq<int>, clock: HourOfDay, h: HourOfDay)
    requires |plan| == 24 && (forall i | 0 <= i < 24 :: plan[i] >= 0) && TargetsRolled(counts, kind, plan, clock)
    requires forall j: HourOfDay :: At(counts, HourSum(kind, j)) >= 0
    ensures 0 <= HourTarget(counts, kind, h, plan[h]) <= PlanSum(plan, h)
  {
    var p := LastActive(counts, kind, h - 1);
    PlanSumGrows(plan, -1, h - 1);
    if p > 0 { PlanSumGrows(plan, p, h - 1); }
  }

  // The first number stored for an hour.
  lemma FirstTarget(e: Event, kind: Delivery, plan: seq<int>)
    requires Steady([e], kind, plan)
    ensures WellPlanned(e) && TargetsRolled(First(e).counts, kind, plan, e.hour)
  {
    assert [e][0] == e;
    var counts := First(e).counts;
    var p := LastActive(counts, kind, e.hour - 1);
    PlanSumGrows(plan, -1, e.hour - 1);
  }

  // What an event does to the targets and the hour sums of the kind it is paced by.
  lemma StepTargets(c: Counters, e: Event, kind: Delivery, h: HourOfDay)
    requires WellPlanned(e) && e.paced == kind && e.period != Day
    ensures var d := Step(Some(c), e).counts;
            && Target(kind, e.hour) in d
            && (h != e.hour ==>
              && (Target(kind, h) in d <==> Target(kind, h) in c.counts)
              && (Target(kind, h) in d ==> d[Target(kind, h)] == c.counts[Target(kind, h)])
              && At(d, Target(kind, h)) == At(c.counts, Target(kind, h))
              && At(d, HourSum(kind, h)) == At(c.counts, HourSum(kind, h)))
            && d[Target(kind, e.hour)] ==
               if Target(kind, e.hour) in c.counts then c.counts[Target(kind, e.hour)]
               else Int32(HourTarget(Counted(c.counts, e), kind, e.hour, e.plan[e.hour]))
  {
    hide Int32, HourTarget;
  }

  lemma SmallInt(n: int)
    requires 0 <= n < 0x8000_0000
    ensures Int32(n) == n
  {
  }

  lemma TargetsBeforeSame(c: Counters, e: Event, kind: Delivery, h: HourOfDay, planned: int)
    requires WellPlanned(e) && e.paced == kind && e.period != Day && h <= e.hour
    ensures HourTarget(c.counts, kind, h, planned) == HourTarget(Step(Some(c), e).counts, kind, h, planned)
    ensures HourTarget(c.counts, kind, h, planned) == HourTarget(Counted(c.counts, e), kind, h, planned)
  {
    RolledSame(c.counts, Counted(c.counts, e), kind, h, planned);
    var d := Step(Some(c), e).counts;
    hide *;
    forall j: HourOfDay | j < h
      ensures At(c.counts, Target(kind, j)) == At(d, Target(kind, j))
              && At(c.counts, HourSum(kind, j)) == At(d, HourSum(kind, j))
    {
      StepTargets(c, e, kind, j);
    }
    RolledSame(c.counts, d, kind, h, planned);
  }

  lemma StepKeepsTargets(c: Counters, e: Event, kind: Delivery, plan: seq<int>, clock: HourOfDay)
    requires Steady([e], kind, plan) && clock <= e.hour && TargetsRolled(c.counts, kind, plan, clock)
    requires forall j: HourOfDay :: At(c.counts, HourSum(kind, j)) >= 0
    ensures WellPlanned(e) && TargetsRolled(Step(Some(c), e).counts, kind, plan, e.hour)
  {
    assert [e][0] == e;
    var d := Step(Some(c), e).counts;
    hide Step, HourTarget, At, Counted, Int32, PlanSum;
    TargetBound(c.counts, kind, plan, clock, e.hour);
    PlanSumGrows(plan, e.hour, 23);
    SmallInt(HourTarget(c.counts, kind, e.hour, plan[e.hour]));
    forall h: HourOfDay | Target(kind, h) in d
      ensures h <= e.hour && 0 <= d[Target(kind, h)] <= PlanSum(plan, h)
      ensures d[Target(kind, h)] == HourTarget(d, kind, h, plan[h])
    {
      StepTargets(c, e, kind, h);
      TargetsBeforeSame(c, e, kind, h, plan[h]);
    }
  }

  lemma {:induction false} RunKeepsTargets(es: seq<Event>, kind: Delivery, plan: seq<int>)
    requires Steady(es, kind, plan) && es != []
    ensures Planned(es) && TargetsRolled(Run(es).value.counts, kind, plan, es[|es| - 1].hour)
  {
    hide TargetsRolled, PlanSum, Step, First;
    var (n, e) := (|es| - 1, es[|es| - 1]);
    if n == 0 {
      RunOfOne(e);
      assert es == [e];
      FirstTarget(e, kind, plan);
    } else {
      RunKeepsTargets(es[..n], kind, plan);
      CountsAreExact(es[..n]);
      var c := Run(es[..n]).value;
      forall j: HourOfDay ensures At(c.counts, HourSum(kind, j)) >= 0 {
        assert ExactAt(es[..n], c, kind, j, Slot(0, 0, 0));
      }
      StepKeepsTargets(c, e, kind, plan, es[n - 1].hour);
    }
  }

  lemma RunOfOne(e: Event)
    requires WellPlanned(e)
    ensures Run([e]) == Some(First(e))
  {
    assert [e][..0] == [];
  }

  // What the lower limit of 1 adds to an hour whose surplus used up its plan.
  function Gift(counts: map<Key, int>, kind: Delivery, h: HourOfDay, planned: int): int {
    if planned != 0 && Rolled(counts, kind, h, planned) <= 0 then 1 - Rolled(counts, kind, h, planned) else 0
  }

  // Sums over the active hours among 1, ..., h.
  function PlannedThrough(counts: map<Key, int>, kind: Delivery, plan: seq<int>, h: int): int
    requires |plan| == 24 && h < 24
    decreases h + 1
  {
    if h <= 0 then 0
    else PlannedThrough(counts, kind, plan, h - 1) + if Active(counts, kind, h) then plan[h] else 0
  }

  function DeliveredThrough(counts: map<Key, int>, kind: Delivery, h: int): int
    requires h < 24
    decreases h + 1
  {
    if h <= 0 then 0
    else DeliveredThrough(counts, kind, h - 1) + if Active(counts, kind, h) then At(counts, HourSum(kind, h)) else 0
  }

  function GiftsThrough(counts: map<Key, int>, kind: Delivery, plan: seq<int>, h: int): (g: int)
    requires |plan| == 24 && h < 24
    ensures g >= 0
    decreases h + 1
  {
    if h <= 0 then 0
    else GiftsThrough(counts, kind, plan, h - 1) + if Active(counts, kind, h) then Gift(counts, kind, h, plan[h]) else 0
  }

  // Hours without a target add nothing.
  lemma {:induction false} SumsOfActive(counts: map<Key, int>, kind: Delivery, plan: seq<int>, h: int)
    requires |plan| == 24 && h < 24
    ensures var p := LastActive(counts, kind, h);
            && PlannedThrough(counts, kind, plan, h) == PlannedThrough(counts, kind, plan, p)
            && DeliveredThrough(counts, kind, h) == DeliveredThrough(counts, kind, p)
            && GiftsThrough(counts, kind, plan, h) == GiftsThrough(counts, kind, plan, p)
    decreases h
  {
    if h > 0 && !Active(counts, kind, h) { SumsOfActive(counts, kind, plan, h - 1); }
  }

  lemma {:induction false} TargetsTelescope(counts: map<Key, int>, kind: Delivery, plan: seq<int>, clock: HourOfDay,
        h: HourOfDay)
    requires |plan| == 24 && (forall i | 0 <= i < 24 :: plan[i] >= 0) && TargetsRolled(counts, kind, plan, clock)
    requires h >= 1 && Active(counts, kind, h)
    ensures At(counts, Target(kind, h)) + DeliveredThrough(counts, kind, h - 1)
            == PlannedThrough(counts, kind, plan, h) + GiftsThrough(counts, kind, plan, h)
  {
    var p := LastActive(counts, kind, h - 1);
    SumsOfActive(counts, kind, plan, h - 1);
    if p > 0 { TargetsTelescope(counts, kind, plan, clock, p); }
  }

  // The lower limit of 1 was never needed up to hour h.
  ghost predicate NeverClamped(counts: map<Key, int>, kind: Delivery, plan: seq<int>, h: HourOfDay)
    requires |plan| == 24
  {
    forall j: HourOfDay | 1 <= j <= h && Active(counts, kind, j) :: Rolled(counts, kind, j, plan[j]) > 0
  }

  lemma {:induction false} NoGifts(counts: map<Key, int>, kind: Delivery, plan: seq<int>, h: HourOfDay)
    requires |plan| == 24
    requires forall j: HourOfDay | Active(counts, kind, j) :: plan[j] != 0
    ensures GiftsThrough(counts, kind, plan, h) == 0 <==> NeverClamped(counts, kind, plan, h)
  {
    if h > 0 { NoGifts(counts, kind, plan, h - 1); }
  }

  predicate InHours(es: seq<Event>, h: HourOfDay) {
    exists i | 0 <= i < |es| :: es[i].hour == h
  }

  // The hours that have a target are those of the events so far, and it is other than
  // zero exactly where the plan is.
  lemma {:induction false} TargetsStored(es: seq<Event>, kind: Delivery, plan: seq<int>, h: HourOfDay)
    requires Steady(es, kind, plan) && es != []
    ensures Planned(es)
    ensures var counts := Run(es).value.counts;
            && (Target(kind, h) in counts <==> InHours(es, h))
            && (Target(kind, h) in counts ==> (counts[Target(kind, h)] != 0 <==> plan[h] != 0))
  {
    hide TargetsRolled, Step, First, HourTarget, PlanSum;
    RunKeepsTargets(es, kind, plan);
    var (n, e) := (|es| - 1, es[|es| - 1]);
    var counts := Run(es).value.counts;
    if Target(kind, h) in counts {
      RolledTarget(counts, kind, plan, e.hour, h);
      TargetIsZeroIff(counts, kind, h, plan[h]);
    }
    if n == 0 {
      RunOfOne(e);
      assert es == [e];
      FirstHours(e, kind, h);
    } else {
      TargetsStored(es[..n], kind, plan, h);
      StepTargets(Run(es[..n]).value, e, kind, h);
      assert es == es[..n] + [e];
      HoursSplit(es[..n], e, h);
    }
  }

  lemma HoursSplit(es: seq<Event>, e: Event, h: HourOfDay)
    ensures InHours(es + [e], h) <==> InHours(es, h) || e.hour == h
  {
    var all := es + [e];
    assert all[|es|] == e && forall i | 0 <= i < |es| :: all[i] == es[i];
  }

  lemma FirstHours(e: Event, kind: Delivery, h: HourOfDay)
    requires WellPlanned(e) && e.paced == kind && e.period != Day
    ensures Target(kind, h) in First(e).counts <==> InHours([e], h)
  {
    assert [e][0] == e;
  }

  lemma RolledTarget(counts: map<Key, int>, kind: Delivery, plan: seq<int>, clock: HourOfDay, h: HourOfDay)
    requires |plan| == 24 && TargetsRolled(counts, kind, plan, clock) && Target(kind, h) in counts
    ensures counts[Target(kind, h)] == HourTarget(counts, kind, h, plan[h])
  {
  }

  lemma TargetIsZeroIff(counts: map<Key, int>, kind: Delivery, h: HourOfDay, planned: int)
    ensures HourTarget(counts, kind, h, planned) != 0 <==> planned != 0
    ensures planned != 0 ==> HourTarget(counts, kind, h, planned) >= 1
  {
  }

  // At every hour from 1 on that has an event and a plan: the target and what the earlier
  // active hours delivered make up at least their plans, exactly when no limit was needed.
  lemma RollingTargets(es: seq<Event>, kind: Delivery, plan: seq<int>, h: HourOfDay)
    requires Steady(es, kind, plan) && h >= 1 && InHours(es, h) && plan[h] != 0
    ensures Planned(es) && es != []
    ensures var counts := Run(es).value.counts;
            && Target(kind, h) in counts && counts[Target(kind, h)] >= 1
            && counts[Target(kind, h)] + DeliveredThrough(counts, kind, h - 1)
               >= PlannedThrough(counts, kind, plan, h)
            && (counts[Target(kind, h)] + DeliveredThrough(counts, kind, h - 1)
                == PlannedThrough(counts, kind, plan, h)
                <==> NeverClamped(counts, kind, plan, h))
  {
    TargetsStored(es, kind, plan, h);
    RunKeepsTargets(es, kind, plan);
    var counts := Run(es).value.counts;
    TargetsTelescope(counts, kind, plan, es[|es| - 1].hour, h);
    NoGifts(counts, kind, plan, h);
  }

  // Hour 0 takes no part in the rolling: counting it in, the plans are made up exactly
  // when its own deliveries, with what the limit added, reach its own plan.
  lemma HourZeroIff(es: seq<Event>, kind: Delivery, plan: seq<int>, h: HourOfDay)
    requires Steady(es, kind, plan) && h >= 1 && InHours(es, h) && plan[h] != 0
    ensures Planned(es) && es != []
    ensures var counts := Run(es).value.counts;
            At(counts, Target(kind, h)) + DeliveredThrough(counts, kind, h - 1) + At(counts, HourSum(kind, 0))
            >= PlannedThrough(counts, kind, plan, h) + plan[0]
            <==> At(counts, HourSum(kind, 0)) + GiftsThrough(counts, kind, plan, h) >= plan[0]
  {
    TargetsStored(es, kind, plan, h);
    RunKeepsTargets(es, kind, plan);
    TargetsTelescope(Run(es).value.counts, kind, plan, es[|es| - 1].hour, h);
  }

  // ----- the target of a day -----

  function UpTo(kind: Delivery, hour: HourOfDay): Event -> bool {
    (e: Event) => e.kind == kind && e.period != Day && e.hour <= hour
  }

  // Pacing by the day: the first such event stores the day's plan less what the hours so
  // far delivered, and later ones leave it.
  lemma DayTargetIs(es: seq<Event>, e: Event)
    requires Planned(es + [e]) && e.period == Day
    ensures Planned(es)
    ensures var d := Run(es + [e]).value.counts;
            && DayTarget(e.paced) in d
            && (es == [] ==> d[DayTarget(e.paced)] == e.plan[0])
            && (es != [] ==>
                  var was := Run(es).value.counts;
                  d[DayTarget(e.paced)] ==
                  if DayTarget(e.paced) in was then was[DayTarget(e.paced)]
                  else Int32(if e.plan[0] == 0 then 0 else e.plan[0] - CountEvents(es, UpTo(e.paced, e.hour))))
  {
    hide Step, Run, Exact, HourSums, Int32;
    RunMore(es, e);
    if es == [] {
      FirstDay(e);
    } else {
      CountsAreExact(es);
      var c := Run(es).value;
      HourSumsExact(es, c, e.paced, e.hour);
      SameCount(es, (x: Event) => x.kind == e.paced && x.period != Day && x.hour <= e.hour, UpTo(e.paced, e.hour));
      DayStep(c, e);
    }
  }

  lemma RunMore(es: seq<Event>, e: Event)
    requires Planned(es + [e])
    ensures Planned(es) && WellPlanned(e) && Run(es + [e]) == Some(Step(Run(es), e))
    ensures es == [] ==> Run(es) == None
    ensures es != [] ==> Run(es).Some?
  {
    hide Step;
    var all := es + [e];
    assert all[..|es|] == es && all[|es|] == e;
    assert forall i | 0 <= i < |es| :: es[i] == all[i];
  }

  lemma FirstDay(e: Event)
    requires WellPlanned(e) && e.period == Day
    ensures DayTarget(e.paced) in Step(None, e).counts && Step(None, e).counts[DayTarget(e.paced)] == e.plan[0]
  {
  }

  lemma DayStep(c: Counters, e: Event)
    requires WellPlanned(e) && e.period == Day
    ensures var d := Step(Some(c), e).counts;
            && DayTarget(e.paced) in d
            && d[DayTarget(e.paced)] ==
               if DayTarget(e.paced) in c.counts then c.counts[DayTarget(e.paced)]
               else Int32(if e.plan[0] == 0 then 0 else e.plan[0] - HourSums(c.counts, e.paced, e.hour))
  {
    hide Int32;
    HourSumsSame(c.counts, Counted(c.counts, e), e.paced, e.hour);
    hide HourSums;
  }

  lemma {:induction false} HourSumsSame(a: map<Key, int>, b: map<Key, int>, kind: Delivery, i: int)
    requires i < 24 && forall j: HourOfDay :: At(a, HourSum(kind, j)) == At(b, HourSum(kind, j))
    ensures HourSums(a, kind, i) == HourSums(b, kind, i)
    decreases i + 1
  {
    if i >= 0 { HourSumsSame(a, b, kind, i - 1); }
  }

  // Two impressions planned for hour 0 and one for hour 1.
  function SamplePlan(): (plan: seq<int>)
    ensures |plan| == 24
  {
    [2, 1, 0, 0, 0, 0, 0, 0, 0, 0, 0, 0, 0, 0, 0, 0, 0, 0, 0, 0, 0, 0, 0, 0]
  }

  function SampleEvent(hour: HourOfDay): Event {
    Event(Imp, Imp, Hour, hour, 0, SamplePlan())
  }

  // One is delivered in hour 0, yet the target of hour 1 is its own plan.
  lemma HourZeroIsNotRolled()
    ensures var es := [SampleEvent(0), SampleEvent(1)];
            && Planned(es)
            && var counts := Run(es).value.counts;
               && At(counts, Target(Imp, 0)) == 2 && At(counts, HourSum(Imp, 0)) == 1
               && At(counts, Target(Imp, 1)) == 1
  {
    var (a, b) := (SampleEvent(0), SampleEvent(1));
    assert [a, b][..1] == [a];
    RunOfOne(a);
    var c := First(a);
    hide Int32;
    StepTargets(c, b, Imp, 0);
    SmallInt(1);
    assert LastActive(Counted(c.counts, b), Imp, 0) == 0;
  }
}
