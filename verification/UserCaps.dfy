/** How often one user has been shown what: the counting rule and the cap it keeps. */
module UserCaps {
  import opened Wrappers
  import opened Units

  // Seconds since midnight.
  type Second = n: nat | n < 86400

  // The impressions counted in the period that began at starttime.
  datatype Count = Count(starttime: Uint32, imp: Uint32)

  type Counts = map<string, map<string, Count>>

  // What the caps are kept for: the whole group, or each creative, with one cap for
  // all or one for each.
  datatype Scope = Project | Creative1 | Creative2

  // The period of a cap; the two short ones are for groups and count as a day here.
  datatype Period = Quarter | Half | Hour | Day

  // A cap under an id; a list of them stands for a map in key order.
  datatype Cap = Cap(id: string, frequency: Uint32)

  datatype Event = Event(groupid: string, mapid: string, scope: Scope, period: Period, capping: seq<Cap>, now: Second)

  function Length(p: Period): (n: nat)
    ensures n > 0
  {
    if p == Hour then 3600 else 86400
  }

  // getStartTime
  function StartTime(p: Period, now: Second): Second {
    if p == Hour then now / 3600 * 3600 else 0
  }

  function Id(e: Event): string {
    if e.scope == Project then e.groupid else e.mapid
  }

  function FindCap(capping: seq<Cap>, id: string): Option<Uint32> {
    if capping == [] then None
    else if capping[0].id == id then Some(capping[0].frequency)
    else FindCap(capping[1..], id)
  }

  // The cap that applies, None where a creative has none of its own.
  function CapOf(e: Event): Option<Uint32>
    requires e.scope == Creative2 || e.capping != []
  {
    if e.scope == Creative2 then FindCap(e.capping, e.mapid) else Some(e.capping[0].frequency)
  }

  // The cap of an event, from the list itself: that of the first entry with the id of the
  // event's creative, or of the first entry where one is kept for all.
  predicate IsCap(e: Event, cap: Uint32) {
    if e.scope == Creative2 then
      exists k | 0 <= k < |e.capping| ::
        e.capping[k] == Cap(e.mapid, cap) && forall j | 0 <= j < k :: e.capping[j].id != e.mapid
    else e.capping != [] && e.capping[0].frequency == cap
  }

  predicate HasEntry(capping: seq<Cap>, id: string) {
    exists k | 0 <= k < |capping| :: capping[k].id == id
  }

  // The search gives the first entry of that id, or none where there is no such entry.
  lemma {:induction false} FindCapIs(capping: seq<Cap>, id: string, n: Uint32)
    ensures FindCap(capping, id) == Some(n)
            <==> exists k | 0 <= k < |capping| ::
                   capping[k] == Cap(id, n) && forall j | 0 <= j < k :: capping[j].id != id
    ensures FindCap(capping, id) == None <==> !HasEntry(capping, id)
  {
    if capping != [] {
      var rest := capping[1..];
      FindCapIs(rest, id, n);
      if capping[0].id != id {
        assert forall k | 0 <= k < |rest| :: rest[k] == capping[k + 1];
        if k :| 0 <= k < |rest| && rest[k] == Cap(id, n) && forall j | 0 <= j < k :: rest[j].id != id {
          assert capping[k + 1] == Cap(id, n);
          assert forall j | 0 <= j < k + 1 :: capping[j].id != id by {
            assert forall j | 0 < j < k + 1 :: capping[j] == rest[j - 1];
          }
        }
        if k :| 0 <= k < |capping| && capping[k] == Cap(id, n) && forall j | 0 <= j < k :: capping[j].id != id {
          assert rest[k - 1] == Cap(id, n);
          assert forall j | 0 <= j < k - 1 :: rest[j] == capping[j + 1];
        }
        if k :| 0 <= k < |rest| && rest[k].id == id { assert capping[k + 1].id == id; }
        if k :| 0 <= k < |capping| && capping[k].id == id { assert rest[k - 1].id == id; }
      } else {
        assert n == capping[0].frequency ==> capping[0] == Cap(id, n);
      }
    }
  }

  lemma CapOfIs(e: Event, cap: Uint32)
    requires e.scope == Creative2 || e.capping != []
    ensures CapOf(e) == Some(cap) <==> IsCap(e, cap)
    ensures CapOf(e) == None <==> e.scope == Creative2 && !HasEntry(e.capping, e.mapid)
  {
    FindCapIs(e.capping, e.mapid, cap);
    hide FindCap, HasEntry;
  }

  // Unsigned subtraction.
  function Minus(a: Uint32, b: Uint32): Uint32 {
    (a - b) % 0x1_0000_0000
  }

  // The same bits as an int.
  function Signed(a: Uint32): int {
    if a < 0x8000_0000 then a else a - 0x1_0000_0000
  }

  function Fresh(e: Event): Count {
    Count(StartTime(e.period, e.now), 1)
  }

  // The new count, None where the event is not to be counted.
  function Recount(c: Count, cap: Uint32, e: Event): Option<Count> {
    if c.imp >= cap then
      if Minus(e.now, c.starttime) < Length(e.period) then None else Some(Fresh(e))
    else if Signed(Minus(Minus(e.now, c.starttime), Length(e.period))) >= 0 then Some(Fresh(e))
    else Some(c.(imp := (c.imp + 1) % 0x1_0000_0000))
  }

  // The first cap is read only for a group that is there, and not for a cap of its own.
  predicate Ready(counts: Counts, e: Event) {
    e.groupid !in counts || e.scope == Creative2 || e.capping != []
  }

  // The counts after an event, None where nothing is written.
  function Step(counts: Counts, e: Event): Option<Counts>
    requires Ready(counts, e)
  {
    if e.groupid !in counts then Some(counts[e.groupid := map[Id(e) := Fresh(e)]])
    else
      var group := counts[e.groupid];
      match CapOf(e)
      case None => None
      case Some(cap) =>
        if Id(e) !in group then Some(counts[e.groupid := group[Id(e) := Fresh(e)]])
        else
          match Recount(group[Id(e)], cap, e)
          case None => None
          case Some(c) => Some(counts[e.groupid := group[Id(e) := c]])
  }

  function NewCounts(counts: Counts, e: Event): Counts
    requires Ready(counts, e)
  {
    if Step(counts, e).Some? then Step(counts, e).value else counts
  }

  predicate Capped(es: seq<Event>) {
    forall i | 0 <= i < |es| :: es[i].capping != []
  }

  function Run(es: seq<Event>): Counts
    requires Capped(es)
  {
    if es == [] then map[] else NewCounts(Run(es[..|es| - 1]), es[|es| - 1])
  }

  function Find(counts: Counts, groupid: string, id: string): Option<Count> {
    if groupid in counts && id in counts[groupid] then Some(counts[groupid][id]) else None
  }

  // ----- what is counted -----

  predicate Concerns(e: Event, groupid: string, id: string) {
    e.groupid == groupid && Id(e) == id
  }

  // Events of the key that were counted in period number q.
  function Recorded(es: seq<Event>, groupid: string, id: string, length: nat, q: int): nat
    requires Capped(es) && length > 0
  {
    if es == [] then 0
    else
      var (front, e) := (es[..|es| - 1], es[|es| - 1]);
      Recorded(front, groupid, id, length, q)
      + if Concerns(e, groupid, id) && e.now / length == q && Step(Run(front), e).Some? then 1 else 0
  }

  // One day, and one cap and period for the key; everything else may vary.
  predicate Steady(es: seq<Event>, groupid: string, id: string, period: Period, cap: Uint32) {
    && Capped(es)
    && (forall i | 0 <= i < |es| && Concerns(es[i], groupid, id) :: es[i].period == period && IsCap(es[i], cap))
    && (forall i | 0 < i < |es| :: es[i - 1].now <= es[i].now)
  }

  // An event leaves every other key as it is.
  lemma OtherKeysUntouched(counts: Counts, e: Event, groupid: string, id: string)
    requires Ready(counts, e) && !Concerns(e, groupid, id)
    ensures Find(NewCounts(counts, e), groupid, id) == Find(counts, groupid, id)
  {
  }

  // A first impression is counted whatever the cap is.
  function Limit(cap: Uint32): nat {
    if cap == 0 then 1 else cap
  }

  // The count stored for a key is of the latest period in which one was recorded;
  // recorded gives the number for each period.
  ghost predicate Tracks(c: Option<Count>, recorded: int -> nat, length: nat, cap: Uint32, now: int)
    requires length > 0
  {
    && (forall q :: recorded(q) <= Limit(cap))
    && match c
       case None => forall q :: recorded(q) == 0
       case Some(c) =>
         && c.starttime <= now && c.starttime % length == 0
         && 1 <= c.imp == recorded(c.starttime / length)
         && forall q | q > c.starttime / length :: recorded(q) == 0
  }

  ghost predicate InStep(es: seq<Event>, groupid: string, id: string, period: Period, cap: Uint32)
    requires Capped(es)
  {
    Tracks(Find(Run(es), groupid, id), q => Recorded(es, groupid, id, Length(period), q), Length(period), cap,
           if es == [] then -1 else es[|es| - 1].now)
  }

  lemma {:induction false} CapIsKept(es: seq<Event>, groupid: string, id: string, period: Period, cap: Uint32)
    requires Steady(es, groupid, id, period, cap)
    ensures InStep(es, groupid, id, period, cap)
  {
    if es != [] {
      var (front, e) := (es[..|es| - 1], es[|es| - 1]);
      CapIsKept(front, groupid, id, period, cap);
      if Concerns(e, groupid, id) {
        CapOfIs(e, cap);
        KeyStep(front, e, groupid, id, period, cap);
        assert front + [e] == es;
      } else {
        OtherKeysUntouched(Run(front), e, groupid, id);
        TracksSame(Find(Run(front), groupid, id), q => Recorded(front, groupid, id, Length(period), q),
                   q => Recorded(es, groupid, id, Length(period), q), Length(period), cap,
                   if front == [] then -1 else front[|front| - 1].now, e.now);
      }
    }
  }

  // What an event of the key does to its count.
  lemma CountStep(counts: Counts, e: Event, cap: Uint32)
    requires e.capping != [] && CapOf(e) == Some(cap)
    ensures var c := Find(counts, e.groupid, Id(e));
            var next := if c.None? then Some(Fresh(e)) else Recount(c.value, cap, e);
            && (Step(counts, e).Some? <==> next.Some?)
            && Find(NewCounts(counts, e), e.groupid, Id(e)) == if next.Some? then next else c
  {
    hide Recount, Fresh, CapOf;
  }

  // A creative that has no cap of its own is not counted in a group that is there.
  lemma NoCapNoCount(counts: Counts, e: Event)
    requires e.groupid in counts && e.scope == Creative2 && !HasEntry(e.capping, e.mapid)
    ensures Step(counts, e) == None
  {
    CapOfIs(e, 0);
    hide CapOf, HasEntry;
  }

  // The first event of a group is counted whatever caps there are, and so is the first of a
  // key that has one.
  lemma FirstIsCounted(counts: Counts, e: Event)
    requires Ready(counts, e) && Find(counts, e.groupid, Id(e)) == None
    requires e.groupid !in counts || e.scope != Creative2 || HasEntry(e.capping, e.mapid)
    ensures Step(counts, e).Some?
    ensures Find(Step(counts, e).value, e.groupid, Id(e)) == Some(Count(StartTime(e.period, e.now), 1))
  {
    if e.groupid in counts { CapOfIs(e, 0); }
    hide CapOf, HasEntry;
  }

  // Which key an event counts for: a cap for the group is shared by its creatives.
  lemma KeyOfEvent(e: Event, groupid: string, id: string)
    ensures e.scope == Project ==> (Concerns(e, groupid, id) <==> e.groupid == groupid == id)
    ensures e.scope != Project ==> (Concerns(e, groupid, id) <==> e.groupid == groupid && e.mapid == id)
  {
  }

  // Caps by the hour are kept in the hours of the day, all others in the whole day.
  lemma PeriodOf(p: Period, now: Second)
    ensures Length(p) == if p == Hour then 60 * 60 else 24 * 60 * 60
    ensures StartTime(p, now) % Length(p) == 0 && StartTime(p, now) <= now < StartTime(p, now) + Length(p)
  {
  }

  lemma SignedIs(a: Uint32)
    ensures -0x8000_0000 <= Signed(a) < 0x8000_0000 && (Signed(a) == a || Signed(a) == a - 0x1_0000_0000)
  {
  }

  // A count is of the current period exactly while the period's length has not passed.
  lemma SamePeriod(start: nat, now: Second, period: Period)
    requires start <= now && start % Length(period) == 0
    ensures Minus(now, start) == now - start
    ensures now - start < Length(period) <==> start / Length(period) == now / Length(period)
    ensures Signed(Minus(Minus(now, start), Length(period))) >= 0 <==> now - start >= Length(period)
    ensures StartTime(period, now) % Length(period) == 0
            && StartTime(period, now) / Length(period) == now / Length(period)
    ensures start / Length(period) <= now / Length(period)
  {
  }

  lemma TracksStep(c: Option<Count>, recorded: int -> nat, recorded': int -> nat, cap: Uint32, e: Event, before: int)
    requires Tracks(c, recorded, Length(e.period), cap, before) && before <= e.now
    requires var next := if c.None? then Some(Fresh(e)) else Recount(c.value, cap, e);
             forall q :: recorded'(q) == recorded(q) + if e.now / Length(e.period) == q && next.Some? then 1 else 0
    ensures var next := if c.None? then Some(Fresh(e)) else Recount(c.value, cap, e);
            Tracks(if next.Some? then next else c, recorded', Length(e.period), cap, e.now)
  {
    SamePeriod(if c.Some? then c.value.starttime else 0, e.now, e.period);
    hide StartTime, Length, Minus, Signed;
  }

  lemma KeyStep(front: seq<Event>, e: Event, groupid: string, id: string, period: Period, cap: Uint32)
    requires Capped(front) && InStep(front, groupid, id, period, cap)
    requires e.capping != [] && Concerns(e, groupid, id) && e.period == period && CapOf(e) == Some(cap)
    requires front != [] ==> front[|front| - 1].now <= e.now
    ensures Capped(front + [e]) && InStep(front + [e], groupid, id, period, cap)
  {
    var es := front + [e];
    var l := Length(period);
    assert es[..|es| - 1] == front && es[|es| - 1] == e;
    CountStep(Run(front), e, cap);
    TracksStep(Find(Run(front), groupid, id), q => Recorded(front, groupid, id, l, q),
        q => Recorded(es, groupid, id, l, q),
               cap, e, if front == [] then -1 else front[|front| - 1].now);
    assert Run(es) == NewCounts(Run(front), e);
    hide Tracks;
  }

  lemma TracksSame(c: Option<Count>, recorded: int -> nat, recorded': int -> nat, length: nat, cap: Uint32,
        before: int, now: int)
    requires length > 0 && Tracks(c, recorded, length, cap, before) && before <= now
    requires forall q :: recorded'(q) == recorded(q)
    ensures Tracks(c, recorded', length, cap, now)
  {
  }

  // In no period of the day is a key counted more often than a cap of 1 or more
  // allows, and the stored count is the number counted in the period it belongs to.
  lemma CapSafety(es: seq<Event>, groupid: string, id: string, period: Period, cap: Uint32, q: int)
    requires Steady(es, groupid, id, period, cap)
    ensures Recorded(es, groupid, id, Length(period), q) <= Limit(cap)
    ensures cap >= 1 ==> Recorded(es, groupid, id, Length(period), q) <= cap
    ensures var c := Find(Run(es), groupid, id);
            && (c.None? ==> Recorded(es, groupid, id, Length(period), q) == 0)
            && (c.Some? ==>
                  c.value.imp == Recorded(es, groupid, id, Length(period), c.value.starttime / Length(period)))
  {
    CapIsKept(es, groupid, id, period, cap);
    assert Tracks(Find(Run(es), groupid, id), p => Recorded(es, groupid, id, Length(period), p), Length(period), cap,
                  if es == [] then -1 else es[|es| - 1].now);
    hide *;
    TracksBound(Find(Run(es), groupid, id), p => Recorded(es, groupid, id, Length(period), p), Length(period), cap,
                if es == [] then -1 else es[|es| - 1].now, q);
  }

  lemma TracksBound(c: Option<Count>, recorded: int -> nat, length: nat, cap: Uint32, now: int, q: int)
    requires length > 0 && Tracks(c, recorded, length, cap, now)
    ensures recorded(q) <= Limit(cap) && (cap >= 1 ==> Limit(cap) == cap)
    ensures c.None? ==> recorded(q) == 0
    ensures c.Some? ==> c.value.imp == recorded(c.value.starttime / length)
  {
  }

  // An event is refused exactly when its period is full.
  lemma RefusedIffFull(es: seq<Event>, e: Event, groupid: string, id: string, period: Period, cap: Uint32)
    requires Steady(es + [e], groupid, id, period, cap) && Concerns(e, groupid, id)
    ensures Capped(es) && e.capping != []
    ensures Step(Run(es), e).None? <==> Recorded(es, groupid, id, Length(period), e.now / Length(period)) == Limit(cap)
  {
    SteadyFront(es, e, groupid, id, period, cap);
    CapIsKept(es, groupid, id, period, cap);
    CountStep(Run(es), e, cap);
    var c := Find(Run(es), groupid, id);
    SamePeriod(if c.Some? then c.value.starttime else 0, e.now, period);
    hide Step, Recorded, Run, Find, Length, StartTime, Minus, Signed, CapOf;
    FullPeriod(c, q => Recorded(es, groupid, id, Length(period), q), cap, e, if es == [] then -1 else es[|es| - 1].now);
  }

  lemma FullPeriod(c: Option<Count>, recorded: int -> nat, cap: Uint32, e: Event, before: int)
    requires Tracks(c, recorded, Length(e.period), cap, before) && before <= e.now
    ensures (c.Some? && Recount(c.value, cap, e).None?) <==> recorded(e.now / Length(e.period)) == Limit(cap)
  {
    SamePeriod(if c.Some? then c.value.starttime else 0, e.now, e.period);
    hide StartTime, Length, Minus, Signed;
  }

  lemma SteadyFront(es: seq<Event>, e: Event, groupid: string, id: string, period: Period, cap: Uint32)
    requires Steady(es + [e], groupid, id, period, cap)
    ensures Steady(es, groupid, id, period, cap)
    ensures e.capping != [] && (Concerns(e, groupid, id) ==> e.period == period && CapOf(e) == Some(cap))
    ensures es != [] ==> es[|es| - 1].now <= e.now
  {
    var all := es + [e];
    assert all[|es|] == e;
    assert forall i | 0 <= i < |es| :: all[i] == es[i];
    if Concerns(e, groupid, id) { CapOfIs(e, cap); }
    if es != [] { assert all[|es| - 1].now <= all[|es|].now; }
  }

  // Once an event of the key falls into a period, something is recorded in it: the first
  // such event finds nothing recorded, and no cap refuses that.
  lemma {:induction false} SomethingRecorded(es: seq<Event>, groupid: string, id: string, period: Period, cap: Uint32,
                                             i: nat)
    requires Steady(es, groupid, id, period, cap) && i < |es| && Concerns(es[i], groupid, id)
    ensures Recorded(es, groupid, id, Length(period), es[i].now / Length(period)) >= 1
  {
    hide Step, Run, Length, Recorded, CapOf, Id;
    var n := |es| - 1;
    var (front, e) := (es[..n], es[n]);
    assert es == front + [e];
    SteadyFront(front, e, groupid, id, period, cap);
    RecordedOn(front, e, groupid, id, Length(period), es[i].now / Length(period));
    if i < n {
      SomethingRecorded(front, groupid, id, period, cap, i);
    } else {
      RefusedIffFull(front, e, groupid, id, period, cap);
    }
  }

  lemma RecordedOn(front: seq<Event>, e: Event, groupid: string, id: string, length: nat, q: int)
    requires Capped(front + [e]) && length > 0
    ensures Capped(front) && e.capping != []
    ensures Recorded(front + [e], groupid, id, length, q)
            == Recorded(front, groupid, id, length, q)
               + if Concerns(e, groupid, id) && e.now / length == q && Step(Run(front), e).Some? then 1 else 0
  {
    hide Step, Run, Id;
    var es := front + [e];
    assert es[..|front|] == front && es[|front|] == e;
    assert forall i | 0 <= i < |front| :: es[i] == front[i];
  }

  lemma {:induction false} NothingRecorded(es: seq<Event>, groupid: string, id: string, length: nat, q: int)
    requires Capped(es) && length > 0
    requires forall i | 0 <= i < |es| && Concerns(es[i], groupid, id) :: es[i].now / length != q
    ensures Recorded(es, groupid, id, length, q) == 0
  {
    hide Step, Run;
    if es != [] { NothingRecorded(es[..|es| - 1], groupid, id, length, q); }
  }

  // A cap is kept in a period exactly when it is at least 1 or the period has no event.
  lemma CapIsKeptIff(es: seq<Event>, groupid: string, id: string, period: Period, cap: Uint32, q: int)
    requires Steady(es, groupid, id, period, cap)
    ensures Recorded(es, groupid, id, Length(period), q) <= cap
            <==> cap >= 1
                 || forall i | 0 <= i < |es| && Concerns(es[i], groupid, id) :: es[i].now / Length(period) != q
  {
    hide Step, Run, Length, Recorded, Find;
    CapSafety(es, groupid, id, period, cap, q);
    if forall i | 0 <= i < |es| && Concerns(es[i], groupid, id) :: es[i].now / Length(period) != q {
      NothingRecorded(es, groupid, id, Length(period), q);
    } else {
      var i :| 0 <= i < |es| && Concerns(es[i], groupid, id) && es[i].now / Length(period) == q;
      SomethingRecorded(es, groupid, id, period, cap, i);
    }
  }

  // A cap of 0 is not kept: the first event of a user is counted before any cap is read.
  lemma ZeroCapIsNotKept(groupid: string, mapid: string, now: Second)
    ensures var e := Event(groupid, mapid, Creative1, Hour, [Cap(mapid, 0)], now);
            Steady([e], groupid, mapid, Hour, 0) && Recorded([e], groupid, mapid, 3600, now / 3600) == 1
  {
    var e := Event(groupid, mapid, Creative1, Hour, [Cap(mapid, 0)], now);
    assert [e][..0] == [];
    assert Recorded([], groupid, mapid, 3600, now / 3600) == 0;
    assert Run([]) == map[];
  }
}
