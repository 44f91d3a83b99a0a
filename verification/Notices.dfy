/** De-duplication of win, impression and click notices by the bits of a flag. */
module Notices {

  // Flag bits; the first is set when the bid is made.
  const BID: nat := 1
  const PRICE: nat := 2
  const SHOW: nat := 4
  const CLICK: nat := 8

  datatype Notice = Win | Impression | Click

  // The commands that are queued for the writing connection.
  datatype Command = IncrBy(key: string, amount: nat) | SetEx(key: string, life: nat, value: nat)

  const FLAG_LIFE: nat := 3600

  function Bit(n: Notice): nat {
    match n
    case Win => PRICE
    case Impression => SHOW
    case Click => CLICK
  }

  // flag & Bit(n)
  predicate Has(flag: nat, n: Notice) {
    match n
    case Win => flag % 4 >= PRICE
    case Impression => flag % 8 >= SHOW
    case Click => flag % 16 >= CLICK
  }

  // flag | Bit(n)
  function Or(flag: nat, n: Notice): nat {
    if Has(flag, n) then flag else flag + Bit(n)
  }

  // Whether a notice is valid for the flag it reads.
  predicate Valid(flag: nat, n: Notice) {
    match n
    case Win => !Has(flag, Win)
    case Impression => !Has(flag, Impression)
    case Click => !Has(flag, Click) && Has(flag, Impression)
  }

  function CommandFor(key: string, flag: nat, n: Notice): Command {
    if n == Win then IncrBy(key, PRICE) else SetEx(key, FLAG_LIFE, Or(flag, n))
  }

  // ----- the system: stored flags and the queue -----

  datatype State = State(flags: map<string, nat>, queue: seq<Command>)

  // A notice arrives for a key, or the writer takes the next command.
  datatype Event = Arrive(key: string, n: Notice) | Write

  function Execute(flags: map<string, nat>, c: Command): map<string, nat> {
    match c
    case IncrBy(key, amount) => flags[key := (if key in flags then flags[key] else 0) + amount]
    case SetEx(key, _, value) => flags[key := value]
  }

  predicate Accepts(s: State, e: Event) {
    e.Arrive? && e.key in s.flags && Valid(s.flags[e.key], e.n)
  }

  function Step(s: State, e: Event): State {
    match e
    case Arrive(key, n) => if Accepts(s, e) then s.(queue := s.queue + [CommandFor(key, s.flags[key], n)]) else s
    case Write => if s.queue == [] then s else State(Execute(s.flags, s.queue[0]), s.queue[1..])
  }

  function Run(s: State, es: seq<Event>): State {
    if es == [] then s else Step(Run(s, es[..|es| - 1]), es[|es| - 1])
  }

  // The notices of a key that were marked valid, in order.
  function Accepted(s: State, es: seq<Event>, key: string): seq<Notice> {
    if es == [] then []
    else
      var (front, e) := (es[..|es| - 1], es[|es| - 1]);
      Accepted(s, front, key) + if e.Arrive? && e.key == key && Accepts(Run(s, front), e) then [e.n] else []
  }

  // The commands in the queue for a key.
  function Pending(queue: seq<Command>, key: string): seq<Command> {
    if queue == [] then []
    else
      var (front, c) := (queue[..|queue| - 1], queue[|queue| - 1]);
      Pending(front, key) + if c.key == key then [c] else []
  }

  // A notice is read in time: a win once no other win is still to be written, which
  // only adds its bit; the others, which write the whole flag, once nothing is.
  predicate Clear(pending: seq<Command>, n: Notice) {
    if n == Win then forall c | c in pending :: c.SetEx? else pending == []
  }

  // Every accepted notice of the key was read in time. What happens to other keys, and
  // to notices that are refused, does not matter.
  predicate Timely(s: State, es: seq<Event>, key: string) {
    es == []
    || (var (front, e) := (es[..|es| - 1], es[|es| - 1]);
        && Timely(s, front, key)
        && (e.Arrive? && e.key == key && Accepts(Run(s, front), e) ==> Clear(Pending(Run(s, front).queue, key), e.n)))
  }

  function Sum(ns: seq<Notice>): nat {
    if ns == [] then 0 else Sum(ns[..|ns| - 1]) + Bit(ns[|ns| - 1])
  }

  function FlagAfter(flag: nat, cs: seq<Command>): nat
    decreases |cs|
  {
    if cs == [] then flag
    else
      match cs[0]
      case IncrBy(_, amount) => FlagAfter(flag + amount, cs[1..])
      case SetEx(_, _, value) => FlagAfter(value, cs[1..])
  }

  // ----- bits -----

  lemma LowBits(q: nat, l: nat, n: Notice)
    requires l < 16
    ensures Has(16 * q + l, n) <==> Has(l, n)
  {
    match n
    case Win => assert (16 * q + l) / 4 == 4 * q + l / 4;
    case Impression => assert (16 * q + l) / 8 == 2 * q + l / 8;
    case Click =>
  }

  lemma SmallBits(l: nat, n: Notice, m: Notice)
    requires l < 16 && !Has(l, n)
    ensures l + Bit(n) < 16 && (Has(l + Bit(n), m) <==> m == n || Has(l, m))
  {
    assert l in {0, 1, 2, 3, 4, 5, 6, 7, 8, 9, 10, 11, 12, 13, 14, 15};
  }

  lemma BitsApart(flag: nat, n: Notice, m: Notice)
    requires !Has(flag, n)
    ensures Has(flag + Bit(n), m) <==> m == n || Has(flag, m)
  {
    hide *;
    var (q, l) := (flag / 16, flag % 16);
    LowBits(q, l, n);
    LowBits(q, l, m);
    SmallBits(l, n, m);
    LowBits(q, l + Bit(n), m);
  }

  // The bits of a flag, by their numbers.
  lemma BitsAre(flag: nat)
    ensures Bit(Win) == 2 && Bit(Impression) == 4 && Bit(Click) == 8
    ensures Has(flag, Win) <==> flag / 2 % 2 == 1
    ensures Has(flag, Impression) <==> flag / 4 % 2 == 1
    ensures Has(flag, Click) <==> flag / 8 % 2 == 1
  {
    var (a, b) := (flag / 2, flag / 4);
    assert flag % 4 == flag % 2 + 2 * (a % 2) by { assert flag == 4 * (a / 2) + 2 * (a % 2) + flag % 2; }
    assert flag % 8 == flag % 4 + 4 * (b % 2) by { assert flag == 8 * (b / 2) + 4 * (b % 2) + flag % 4; }
    EightBit(flag);
  }

  lemma EightBit(flag: nat)
    ensures flag % 16 == flag % 8 + 8 * (flag / 8 % 2)
  {
    assert flag == 16 * (flag / 8 / 2) + 8 * (flag / 8 % 2) + flag % 8;
  }

  // A notice is valid while its bit is clear, a click only once the impression's is set.
  lemma ValidIs(flag: nat)
    ensures Valid(flag, Win) <==> flag / 2 % 2 == 0
    ensures Valid(flag, Impression) <==> flag / 4 % 2 == 0
    ensures Valid(flag, Click) <==> flag / 8 % 2 == 0 && flag / 4 % 2 == 1
  {
    BitsAre(flag);
    hide Has, Bit;
  }

  // What is queued for a valid notice: a win adds its bit, the others write the flag with
  // their bit for an hour.
  lemma CommandIs(key: string, flag: nat, n: Notice)
    requires Valid(flag, n)
    ensures CommandFor(key, flag, n) == match n
                                        case Win => IncrBy(key, 2)
                                        case Impression => SetEx(key, 3600, flag + 4)
                                        case Click => SetEx(key, 3600, flag + 8)
    ensures n == Click ==> Has(flag, Impression)
    ensures !Has(flag, n)
  {
  }

  // ----- the state of one key -----

  predicate ShowsIn(start: nat, accepted: seq<Notice>, m: Notice) {
    Has(start + Sum(accepted), m) <==> Has(start, m) || m in accepted
  }

  // A command that writes the whole flag, with one bit more than the flag has.
  predicate Sets(flag: nat, c: Command) {
    c.SetEx? && exists m: Notice | m != Win :: !Has(flag, m) && c.value == flag + Bit(m)
  }

  predicate AddsWin(flag: nat, c: Command) {
    c.IncrBy? && c.amount == PRICE && !Has(flag, Win)
  }

  // What may still be to come: a whole flag, then a win.
  predicate MayPend(flag: nat, pending: seq<Command>) {
    || pending == []
    || (|pending| == 1 && (Sets(flag, pending[0]) || AddsWin(flag, pending[0])))
    || (|pending| == 2 && Sets(flag, pending[0]) && AddsWin(pending[0].value, pending[1]))
  }

  // The stored flag and the commands to come make up the initial flag and the bits of
  // the accepted notices, each accepted once.
  predicate InOrder(flag: nat, pending: seq<Command>, start: nat, accepted: seq<Notice>) {
    && MayPend(flag, pending) && FlagAfter(flag, pending) == start + Sum(accepted)
    && (forall m: Notice :: Has(start, m) ==> Has(flag, m))
    && (forall m: Notice :: ShowsIn(start, accepted, m))
    && (forall i, j | 0 <= i < j < |accepted| :: accepted[i] != accepted[j])
    && (forall m | m in accepted :: !Has(start, m))
    && (forall i | 0 <= i < |accepted| && accepted[i] == Click :: Has(start, Impression) || Impression in accepted[..i])
  }

  lemma FlagAfterAll(flag: nat, pending: seq<Command>)
    requires MayPend(flag, pending)
    ensures pending == [] ==> FlagAfter(flag, pending) == flag
    ensures pending != [] ==> FlagAfter(flag, pending) > flag
    ensures |pending| == 1 ==>
              FlagAfter(flag, pending) == if pending[0].SetEx? then pending[0].value else flag + PRICE
    ensures |pending| == 2 ==> FlagAfter(flag, pending) == pending[0].value + PRICE
  {
    if pending != [] {
      FlagAfterMore(flag, [], pending[0]);
      assert [] + [pending[0]] == [pending[0]];
      FlagAfterMore(flag, [pending[0]], pending[|pending| - 1]);
      assert |pending| == 1 ==> pending == [pending[0]];
      assert |pending| == 2 ==> pending == [pending[0]] + [pending[1]];
    }
  }

  lemma {:induction false} FlagAfterMore(flag: nat, pending: seq<Command>, c: Command)
    ensures FlagAfter(flag, pending + [c]) == if c.IncrBy? then FlagAfter(flag, pending) + c.amount else c.value
    decreases |pending|
  {
    if pending == [] {
      assert pending + [c] == [c] && [c][1..] == [];
    } else {
      var next := if pending[0].IncrBy? then flag + pending[0].amount else pending[0].value;
      assert (pending + [c])[1..] == pending[1..] + [c];
      FlagAfterMore(next, pending[1..], c);
    }
  }

  // A valid notice read in time has a bit that the commands to come do not set either.
  lemma ClearIsNew(flag: nat, pending: seq<Command>, n: Notice)
    requires MayPend(flag, pending) && Valid(flag, n) && Clear(pending, n)
    ensures !Has(FlagAfter(flag, pending), n)
    ensures n == Click ==> pending == [] && Has(FlagAfter(flag, pending), Impression)
  {
    hide Has, Bit;
    ValidIsNew(flag, n);
    FlagAfterAll(flag, pending);
    if pending != [] {
      var last := pending[|pending| - 1];
      assert last in pending && last.SetEx?;
      assert Sets(flag, pending[0]);
      var m: Notice :| m != Win && !Has(flag, m) && pending[0].value == flag + Bit(m);
      BitsApart(flag, m, n);
    }
  }

  lemma AcceptMayPend(flag: nat, pending: seq<Command>, key: string, n: Notice)
    requires MayPend(flag, pending) && Valid(flag, n) && Clear(pending, n)
    ensures MayPend(flag, pending + [CommandFor(key, flag, n)])
    ensures FlagAfter(flag, pending + [CommandFor(key, flag, n)]) == FlagAfter(flag, pending) + Bit(n)
  {
    var c := CommandFor(key, flag, n);
    ValidIsNew(flag, n);
    ClearIsNew(flag, pending, n);
    FlagAfterAll(flag, pending);
    FlagAfterMore(flag, pending, c);
    hide Has, FlagAfter;
    if n != Win {
      assert pending + [c] == [c] && c.value == flag + Bit(n);
      assert Sets(flag, c);
    } else if pending == [] {
      assert pending + [c] == [c];
    } else {
      assert pending[|pending| - 1] in pending;
    }
  }

  // A valid notice read too late breaks the sum or is a second win.
  lemma LateBreaks(flag: nat, pending: seq<Command>, start: nat, accepted: seq<Notice>, key: string, n: Notice)
    requires InOrder(flag, pending, start, accepted) && Valid(flag, n) && !Clear(pending, n)
    ensures FlagAfter(flag, pending + [CommandFor(key, flag, n)]) != start + Sum(accepted + [n]) || n in accepted
  {
    var c := CommandFor(key, flag, n);
    ValidIsNew(flag, n);
    FlagAfterAll(flag, pending);
    FlagAfterMore(flag, pending, c);
    assert (accepted + [n])[..|accepted|] == accepted;
    assert Sum(accepted + [n]) == Sum(accepted) + Bit(n);
    hide Has, Sum, FlagAfter, Valid;
    if n == Win {
      assert ShowsIn(start, accepted, Win);
      if |pending| == 2 {
        var m: Notice :| m != Win && !Has(flag, m) && pending[0].value == flag + Bit(m);
        BitsApart(flag, m, Win);
        BitsApart(pending[0].value, Win, Win);
      } else {
        BitsApart(flag, Win, Win);
      }
    }
  }

  lemma AcceptKeepsOrder(flag: nat, pending: seq<Command>, start: nat, accepted: seq<Notice>, key: string, n: Notice)
    requires InOrder(flag, pending, start, accepted) && Valid(flag, n) && Clear(pending, n)
    ensures InOrder(flag, pending + [CommandFor(key, flag, n)], start, accepted + [n])
  {
    AcceptMayPend(flag, pending, key, n);
    AcceptKeepsLists(flag, pending, start, accepted, n);
    ClearIsNew(flag, pending, n);
    assert (accepted + [n])[..|accepted|] == accepted;
    assert Sum(accepted + [n]) == Sum(accepted) + Bit(n);
    hide Has, Sum, FlagAfter, CommandFor, Bit, Valid, ShowsIn, MayPend;
    forall m: Notice ensures ShowsIn(start, accepted + [n], m) {
      assert ShowsIn(start, accepted, m);
      BitShows(start, accepted, n, m);
    }
  }

  lemma BitShows(start: nat, accepted: seq<Notice>, n: Notice, m: Notice)
    requires ShowsIn(start, accepted, m) && !Has(start + Sum(accepted), n)
    ensures ShowsIn(start, accepted + [n], m)
  {
    assert (accepted + [n])[..|accepted|] == accepted;
    BitsApart(start + Sum(accepted), n, m);
    hide Has, Bit;
  }

  lemma ValidIsNew(flag: nat, n: Notice)
    requires Valid(flag, n)
    ensures !Has(flag, n) && (n == Click ==> Has(flag, Impression))
  {
  }

  lemma AcceptKeepsLists(flag: nat, pending: seq<Command>, start: nat, accepted: seq<Notice>, n: Notice)
    requires InOrder(flag, pending, start, accepted) && Valid(flag, n) && Clear(pending, n)
    ensures var next := accepted + [n];
            && (forall i, j | 0 <= i < j < |next| :: next[i] != next[j])
            && (forall m | m in next :: !Has(start, m))
            && (forall i | 0 <= i < |next| && next[i] == Click :: Has(start, Impression) || Impression in next[..i])
  {
    var next := accepted + [n];
    ClearIsNew(flag, pending, n);
    hide Has, Sum, FlagAfter, Bit, Valid, MayPend;
    assert ShowsIn(start, accepted, n) && ShowsIn(start, accepted, Impression);
    assert !Has(start, n) && n !in accepted && (n == Click ==> Has(start, Impression) || Impression in accepted);
    forall i | 0 <= i < |next| && next[i] == Click ensures Has(start, Impression) || Impression in next[..i] {
      if i < |accepted| { assert next[..i] == accepted[..i]; } else { assert next[..i] == accepted; }
    }
  }

  lemma PendingAppend(queue: seq<Command>, c: Command, key: string)
    ensures Pending(queue + [c], key) == Pending(queue, key) + if c.key == key then [c] else []
  {
    assert (queue + [c])[..|queue|] == queue;
  }

  lemma {:induction false} PendingFirst(queue: seq<Command>, key: string)
    requires queue != []
    ensures Pending(queue, key) == (if queue[0].key == key then [queue[0]] else []) + Pending(queue[1..], key)
  {
    var n := |queue| - 1;
    if n > 0 {
      PendingFirst(queue[..n], key);
      assert queue[..n][1..] == queue[1..][..n - 1];
      assert queue[1..][|queue[1..]| - 1] == queue[n];
    }
  }

  // ----- runs -----

  lemma {:induction false} RunKeepsKey(s: State, es: seq<Event>, key: string)
    requires key in s.flags
    ensures key in Run(s, es).flags
  {
    if es != [] { RunKeepsKey(s, es[..|es| - 1], key); }
  }

  // The flag with what is to come is the sum, and no kind of notice is accepted twice.
  ghost predicate Counted(s: State, es: seq<Event>, key: string)
    requires key in s.flags
  {
    var (t, accepted) := (Run(s, es), Accepted(s, es, key));
    && key in t.flags && FlagAfter(t.flags[key], Pending(t.queue, key)) == s.flags[key] + Sum(accepted)
    && forall i, j | 0 <= i < j < |accepted| :: accepted[i] != accepted[j]
  }

  ghost predicate KeyInOrder(s: State, es: seq<Event>, key: string)
    requires key in s.flags
  {
    var t := Run(s, es);
    key in t.flags && InOrder(t.flags[key], Pending(t.queue, key), s.flags[key], Accepted(s, es, key))
  }

  lemma {:induction false} TimelyRunInOrder(s: State, es: seq<Event>, key: string)
    requires key in s.flags && Pending(s.queue, key) == [] && Timely(s, es, key)
    ensures KeyInOrder(s, es, key)
  {
    if es == [] {
      StartsInOrder(s.flags[key]);
    } else {
      var (front, e) := (es[..|es| - 1], es[|es| - 1]);
      TimelyRunInOrder(s, front, key);
      EventKeepsOrder(Run(s, front), e, key, s.flags[key], Accepted(s, front, key));
      hide InOrder, Step, Pending, Accepts, Timely, Clear;
    }
  }

  lemma StartsInOrder(flag: nat)
    ensures InOrder(flag, [], flag, [])
  {
  }

  lemma EventKeepsOrder(t: State, e: Event, key: string, start: nat, accepted: seq<Notice>)
    requires key in t.flags && InOrder(t.flags[key], Pending(t.queue, key), start, accepted)
    requires e.Arrive? && e.key == key && Accepts(t, e) ==> Clear(Pending(t.queue, key), e.n)
    ensures var u := Step(t, e);
            && key in u.flags
            && InOrder(u.flags[key], Pending(u.queue, key), start,
                       accepted + if e.Arrive? && e.key == key && Accepts(t, e) then [e.n] else [])
  {
    hide InOrder, Pending, Has, Clear;
    assert accepted + [] == accepted;
    match e
    case Arrive(k, n) =>
      if Accepts(t, e) {
        PendingAppend(t.queue, CommandFor(k, t.flags[k], n), key);
        if k == key {
          AcceptKeepsOrder(t.flags[key], Pending(t.queue, key), start, accepted, key, n);
        } else {
          assert Pending(t.queue, key) + [] == Pending(t.queue, key);
        }
      }
    case Write =>
      if t.queue != [] { WriteKeepsOrder(t, key, start, accepted); }
  }

  lemma WriteKeepsOrder(t: State, key: string, start: nat, accepted: seq<Notice>)
    requires t.queue != [] && key in t.flags && InOrder(t.flags[key], Pending(t.queue, key), start, accepted)
    ensures var u := Step(t, Write); key in u.flags && InOrder(u.flags[key], Pending(u.queue, key), start, accepted)
  {
    hide InOrder, Pending;
    PendingFirst(t.queue, key);
    var c := t.queue[0];
    assert [] + Pending(t.queue[1..], key) == Pending(t.queue[1..], key);
    if c.key == key {
      assert Pending(t.queue, key)[1..] == Pending(t.queue[1..], key);
      FirstIsWritten(t.flags[key], Pending(t.queue, key), start, accepted);
    }
  }

  lemma FirstIsWritten(flag: nat, pending: seq<Command>, start: nat, accepted: seq<Notice>)
    requires pending != [] && InOrder(flag, pending, start, accepted)
    ensures var next := if pending[0].IncrBy? then flag + pending[0].amount else pending[0].value;
            InOrder(next, pending[1..], start, accepted)
  {
    var c := pending[0];
    var next := if c.IncrBy? then flag + c.amount else c.value;
    hide Sum, Has, ShowsIn;
    if |pending| == 2 { assert pending[1..] == [pending[1]]; } else { assert pending[1..] == []; }
    forall m: Notice | Has(start, m) ensures Has(next, m) {
      if c.SetEx? {
        var k: Notice :| k != Win && !Has(flag, k) && c.value == flag + Bit(k);
        BitsApart(flag, k, m);
      } else {
        BitsApart(flag, Win, m);
      }
    }
  }

  ghost predicate AlwaysCounted(s: State, es: seq<Event>, key: string)
    requires key in s.flags
  {
    forall k | 0 <= k <= |es| :: Counted(s, es[..k], key)
  }

  lemma AlwaysCountedFront(s: State, front: seq<Event>, e: Event, key: string)
    requires key in s.flags && AlwaysCounted(s, front + [e], key)
    ensures AlwaysCounted(s, front, key) && Counted(s, front + [e], key)
  {
    hide Counted;
    var es := front + [e];
    assert es[..|es|] == es;
    forall k | 0 <= k <= |front| ensures Counted(s, front[..k], key) {
      assert front[..k] == es[..k];
    }
  }

  // The first notice that is read too late breaks the count at once.
  lemma {:induction false} CountedIsTimely(s: State, es: seq<Event>, key: string)
    requires key in s.flags && Pending(s.queue, key) == [] && AlwaysCounted(s, es, key)
    ensures Timely(s, es, key)
  {
    hide Counted, AlwaysCounted, KeyInOrder, Accepts, Run, Pending, Clear;
    if es != [] {
      var (front, e) := (es[..|es| - 1], es[|es| - 1]);
      assert es == front + [e];
      AlwaysCountedFront(s, front, e, key);
      CountedIsTimely(s, front, key);
      TimelyRunInOrder(s, front, key);
      if e.Arrive? && e.key == key && Accepts(Run(s, front), e) { LateIsNotCounted(s, front, e, key); }
    }
  }

  lemma LateIsNotCounted(s: State, front: seq<Event>, e: Event, key: string)
    requires key in s.flags && KeyInOrder(s, front, key)
    requires e.Arrive? && e.key == key && Accepts(Run(s, front), e)
    ensures Counted(s, front + [e], key) ==> Clear(Pending(Run(s, front).queue, key), e.n)
  {
    var (t, accepted, es) := (Run(s, front), Accepted(s, front, key), front + [e]);
    assert es[..|es| - 1] == front;
    assert Accepted(s, es, key) == accepted + [e.n];
    var (flag, pending) := (t.flags[key], Pending(t.queue, key));
    PendingAppend(t.queue, CommandFor(key, flag, e.n), key);
    hide InOrder, Accepted, Pending, Run, FlagAfter, Has, Sum, CommandFor;
    if !Clear(pending, e.n) {
      LateBreaks(flag, pending, s.flags[key], accepted, key, e.n);
      if e.n in accepted { AcceptedTwice(accepted, e.n); }
    }
  }

  lemma AcceptedTwice(accepted: seq<Notice>, n: Notice)
    requires n in accepted
    ensures exists i, j :: 0 <= i < j < |accepted + [n]| && (accepted + [n])[i] == (accepted + [n])[j]
  {
    var i :| 0 <= i < |accepted| && accepted[i] == n;
    assert (accepted + [n])[i] == (accepted + [n])[|accepted|];
  }

  lemma {:induction false} TimelyPrefix(s: State, es: seq<Event>, key: string, k: nat)
    requires k <= |es| && Timely(s, es, key)
    ensures Timely(s, es[..k], key)
  {
    if k < |es| {
      TimelyPrefix(s, es[..|es| - 1], key, k);
      assert es[..|es| - 1][..k] == es[..k];
    } else {
      assert es[..k] == es;
    }
  }

  lemma InOrderIsCounted(s: State, es: seq<Event>, key: string)
    requires key in s.flags && KeyInOrder(s, es, key)
    ensures Counted(s, es, key)
  {
  }

  // The flag stays the sum of its bits, and no kind of notice is accepted twice, at
  // every point of a run if and only if the key's accepted notices are read in time.
  lemma CountedOnceIff(s: State, es: seq<Event>, key: string)
    requires key in s.flags && Pending(s.queue, key) == []
    ensures AlwaysCounted(s, es, key) <==> Timely(s, es, key)
  {
    hide Counted, Timely, KeyInOrder;
    if AlwaysCounted(s, es, key) { CountedIsTimely(s, es, key); }
    if Timely(s, es, key) {
      forall k | 0 <= k <= |es| ensures Counted(s, es[..k], key) {
        TimelyPrefix(s, es, key, k);
        TimelyRunInOrder(s, es[..k], key);
        InOrderIsCounted(s, es[..k], key);
      }
    }
  }

  // In every run that reads a key's accepted notices in time: none is valid twice, a
  // click is valid only after an impression, and with nothing left to write the flag
  // is the initial flag and the bits of the valid notices.
  lemma NoticesCountOnce(s: State, es: seq<Event>, key: string)
    requires key in s.flags && Pending(s.queue, key) == [] && Timely(s, es, key)
    ensures var (accepted, t, start) := (Accepted(s, es, key), Run(s, es), s.flags[key]);
            && (forall i, j | 0 <= i < j < |accepted| :: accepted[i] != accepted[j])
            && (forall i | 0 <= i < |accepted| && accepted[i] == Click ::
                  Has(start, Impression) || Impression in accepted[..i])
            && key in t.flags
            && (Pending(t.queue, key) == [] ==> t.flags[key] == start + Sum(accepted))
            && FlagAfter(t.flags[key], Pending(t.queue, key)) == start + Sum(accepted)
  {
    TimelyRunInOrder(s, es, key);
  }

  // ----- two runs -----

  lemma OneMore(s: State, front: seq<Event>, e: Event, key: string)
    ensures var es := front + [e];
            && Run(s, es) == Step(Run(s, front), e)
            && Accepted(s, es, key)
               == Accepted(s, front, key)
                  + (if e.Arrive? && e.key == key && Accepts(Run(s, front), e) then [e.n] else [])
            && (Timely(s, es, key) <==>
                  && Timely(s, front, key)
                  && (e.Arrive? && e.key == key && Accepts(Run(s, front), e) ==>
                        Clear(Pending(Run(s, front).queue, key), e.n)))
  {
    assert (front + [e])[..|front|] == front;
  }

  lemma WriteOne(key: string, flag: nat, c: Command, rest: seq<Command>)
    requires c.key == key
    ensures Step(State(map[key := flag], [c] + rest), Write)
            == State(map[key := if c.IncrBy? then flag + c.amount else c.value], rest)
  {
    assert ([c] + rest)[1..] == rest;
  }

  lemma OnlyOne(s: State, e: Event, key: string)
    ensures Run(s, [e]) == Step(s, e)
    ensures Accepted(s, [e], key) == if e.Arrive? && e.key == key && Accepts(s, e) then [e.n] else []
    ensures Timely(s, [e], key) <==> (e.Arrive? && e.key == key && Accepts(s, e) ==> Clear(Pending(s.queue, key), e.n))
  {
    OneMore(s, [], e, key);
    assert [] + [e] == [e];
  }

  // Two notices of a key, then two writes.
  function TwoThenWrite(key: string, m: Notice, n: Notice): seq<Event> {
    [Arrive(key, m)] + [Arrive(key, n)] + [Write] + [Write]
  }

  lemma TwoRead(s: State, key: string, m: Notice, n: Notice)
    requires s == State(map[key := BID], []) && m in [Win, Impression] && n == Win
    ensures var (c, d, es) := (CommandFor(key, BID, m), CommandFor(key, BID, n), [Arrive(key, m)] + [Arrive(key, n)]);
            && Run(s, es) == s.(queue := [c, d]) && Accepted(s, es, key) == [m] + [n]
            && (Timely(s, es, key) <==> m == Impression)
  {
    var (a, b, c) := (Arrive(key, m), Arrive(key, n), CommandFor(key, BID, m));
    PendingAppend([], c, key);
    assert Pending([], key) == [] && [] + [c] == [c] && c in [c];
    var t := s.(queue := [c]);
    assert Accepts(s, a) && Step(s, a) == t && Clear([], m);
    assert Accepts(t, b) && Step(t, b) == s.(queue := [c] + [CommandFor(key, BID, n)]);
    assert Clear([c], n) <==> m == Impression;
    hide *;
    OnlyOne(s, a, key);
    OneMore(s, [a], b, key);
  }

  lemma TwoWritten(s: State, key: string, m: Notice, n: Notice)
    requires s == State(map[key := BID], []) && m in [Win, Impression] && n == Win
    ensures var (c, es) := (CommandFor(key, BID, m), TwoThenWrite(key, m, n));
            && Run(s, es) == State(map[key := (if c.IncrBy? then BID + c.amount else c.value) + PRICE], [])
            && Accepted(s, es, key) == [m] + [n] && (Timely(s, es, key) <==> m == Impression)
  {
    var (c, d, es) := (CommandFor(key, BID, m), CommandFor(key, BID, n), [Arrive(key, m)] + [Arrive(key, n)]);
    TwoRead(s, key, m, n);
    WriteOne(key, BID, c, [d]);
    WriteOne(key, if c.IncrBy? then BID + c.amount else c.value, d, []);
    assert [c] + [d] == [c, d] && [d] + [] == [d] && [m] + [n] + [] == [m] + [n];
    hide Run, Accepted, Timely, Pending, Step, CommandFor;
    OneMore(s, es, Write, key);
    OneMore(s, es + [Write], Write, key);
  }

  // An impression and then a win, both read before either is written, are in time.
  lemma ImpressionThenWin(key: string)
    ensures var (s, es) := (State(map[key := BID], []), TwoThenWrite(key, Impression, Win));
            && Timely(s, es, key) && Accepted(s, es, key) == [Impression, Win]
            && Run(s, es) == State(map[key := BID + SHOW + PRICE], [])
  {
    hide Run, Accepted, Timely, TwoThenWrite;
    TwoWritten(State(map[key := BID], []), key, Impression, Win);
  }

  // A win read before another is written is valid too, and its bit added twice reads as shown.
  lemma LateWritesCountTwice(key: string)
    ensures var (s, es) := (State(map[key := BID], []), TwoThenWrite(key, Win, Win));
            && !Timely(s, es, key) && Accepted(s, es, key) == [Win, Win]
            && Run(s, es) == State(map[key := BID + SHOW], [])
  {
    hide Run, Accepted, Timely, TwoThenWrite;
    TwoWritten(State(map[key := BID], []), key, Win, Win);
  }
}
