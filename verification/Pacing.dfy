/** GroupRestrictionCount: a group's counters kept as JSON text in Redis. */
module Pacing {
  import opened Wrappers
  import opened JsonTree
  import opened JsonFeed
  import opened JsonText
  import opened JsonRoundTrip
  import opened JsonFields
  import opened PacingDay
  import opened RedisStore

  // ----- labels -----

  // "%02d"
  function TwoDigits(n: nat): (s: string)
    requires n < 100
    ensures |s| == 2
  {
    [Digit(n / 10), Digit(n % 10)]
  }

  // Two decimal digits, the higher one first.
  lemma TwoDigitsAre(n: nat)
    requires n < 100
    ensures AllDigits(TwoDigits(n)) && Atoi(TwoDigits(n)) == n
  {
    DigitApart(n / 10, 0);
    DigitApart(n % 10, 0);
    hide Digit;
    var s := TwoDigits(n);
    assert s[0] as int - '0' as int == n / 10 && s[1] as int - '0' as int == n % 10;
    assert s[1..][0] == s[1] && s[1..][1..] == "";
    assert LeadingNumber(s, 0) == LeadingNumber(s[1..], n / 10) == LeadingNumber("", 10 * (n / 10) + n % 10);
  }

  function KindName(kind: Delivery): string {
    if kind == Imp then "imp" else "clk"
  }

  function Name(k: Key): string {
    match k
    case Total(kind) => "sum" + KindName(kind)
    case HourSum(kind, h) => "sum" + KindName(kind) + "-" + TwoDigits(h)
    case Target(kind, h) => "dst" + KindName(kind) + "-" + TwoDigits(h)
    case DayTarget(kind) => "dst" + KindName(kind)
    case Finish(kind, h) => "s_" + KindName(kind) + "_t_" + TwoDigits(h)
  }

  function SlotName(s: Slot): string {
    TwoDigits(s.hour) + TwoDigits(s.start) + "-" + TwoDigits(s.length)
  }

  lemma DigitsApart(a: nat, b: nat)
    requires a < 100 && b < 100
    ensures TwoDigits(a) == TwoDigits(b) <==> a == b
    ensures IsDigit(TwoDigits(a)[0]) && IsDigit(TwoDigits(a)[1])
  {
    DigitApart(a / 10, b / 10);
    DigitApart(a % 10, b % 10);
  }

  lemma DigitApart(a: nat, b: nat)
    requires a < 10 && b < 10
    ensures Digit(a) == Digit(b) <==> a == b
    ensures Digit(a) == '0' + a as char && IsDigit(Digit(a))
  {
  }

  // The hour in the last two characters of a key's name.
  function HourOf(k: Key): HourOfDay {
    match k
    case HourSum(_, h) => h
    case Target(_, h) => h
    case Finish(_, h) => h
    case _ => 0
  }

  lemma NamesApart(a: Key, b: Key)
    ensures Name(a) == Name(b) <==> a == b
  {
    hide TwoDigits;
    DigitsApart(HourOf(a), HourOf(b));
    if Name(a) == Name(b) {
      NameParts(a);
      NameParts(b);
    }
  }

  // The length tells hours from days; the rest is in the first five characters.
  lemma NameParts(k: Key)
    ensures |Name(k)| == if k.Total? || k.DayTarget? then 6 else if k.Finish? then 10 else 9
    ensures |Name(k)| != 6 ==> Name(k)[|Name(k)| - 2..] == TwoDigits(HourOf(k))
    ensures !k.Finish? ==>
              Name(k)[0] == (if k.Total? || k.HourSum? then 's' else 'd') && Name(k)[3] == KindName(k.kind)[0]
    ensures k.Finish? ==> Name(k)[2] == KindName(k.kind)[0]
    ensures !IsDigit(Name(k)[0])
  {
  }

  lemma SlotNamesApart(a: Slot, b: Slot)
    ensures SlotName(a) == SlotName(b) <==> a == b
    ensures IsDigit(SlotName(a)[0])
  {
    hide TwoDigits;
    DigitsApart(a.hour, b.hour);
    DigitsApart(a.start, b.start);
    DigitsApart(a.length, b.length);
    assert SlotName(a)[0..2] == TwoDigits(a.hour) && SlotName(a)[2..4] == TwoDigits(a.start)
        && SlotName(a)[5..7] == TwoDigits(a.length);
    assert SlotName(b)[0..2] == TwoDigits(b.hour) && SlotName(b)[2..4] == TwoDigits(b.start)
        && SlotName(b)[5..7] == TwoDigits(b.length);
  }

  // The labels as they are stored.
  lemma NamesAre(h: HourOfDay)
    ensures Name(Total(Imp)) == "sumimp" && Name(Total(Clk)) == "sumclk"
    ensures Name(DayTarget(Imp)) == "dstimp" && Name(DayTarget(Clk)) == "dstclk"
    ensures Name(HourSum(Imp, h)) == "sumimp-" + TwoDigits(h) && Name(HourSum(Clk, h)) == "sumclk-" + TwoDigits(h)
    ensures Name(Target(Imp, h)) == "dstimp-" + TwoDigits(h) && Name(Target(Clk, h)) == "dstclk-" + TwoDigits(h)
    ensures Name(Finish(Imp, h)) == "s_imp_t_" + TwoDigits(h) && Name(Finish(Clk, h)) == "s_clk_t_" + TwoDigits(h)
  {
    hide TwoDigits;
  }

  // A slot's label: the hour and the minute it starts at, a dash, and its minutes.
  lemma SlotNameIs(s: Slot)
    ensures var n := SlotName(s);
            && |n| == 7 && n[4] == '-'
            && Atoi(n[..2]) == s.hour && Atoi(n[2..4]) == s.start && Atoi(n[5..]) == s.length
  {
    TwoDigitsAre(s.hour);
    TwoDigitsAre(s.start);
    TwoDigitsAre(s.length);
    hide TwoDigits, Atoi;
    var n := SlotName(s);
    assert n[..2] == TwoDigits(s.hour) && n[2..4] == TwoDigits(s.start) && n[5..] == TwoDigits(s.length);
  }

  lemma NamesAndSlotsApart(k: Key, s: Slot)
    ensures Name(k) != SlotName(s) && Name(k) != "" && SlotName(s) != ""
  {
    NameParts(k);
    SlotNamesApart(s, s);
  }

  lemma NamesAreText(k: Key, s: Slot)
    ensures ValidStringText(Name(k)) && ValidStringText(SlotName(s))
  {
    NameIsText(k);
    DigitsApart(s.hour, s.start);
    DigitsApart(s.start, s.length);
    DigitsApart(s.length, s.length);
    hide TwoDigits, ValidStringText;
    PlainText(SlotName(s));
  }

  lemma NameIsText(k: Key)
    ensures ValidStringText(Name(k))
  {
    DigitsApart(HourOf(k), 0);
    hide TwoDigits, ValidStringText;
    PlainText(Name(k));
  }

  // ----- the record as a document -----

  function SlotTree(p: Pair): Tree {
    Added(Added(NO_FIELDS, "imp", Int(p.imp)), "clk", Int(p.clk))
  }

  ghost predicate ShowsKey(t: Tree, c: Counters, k: Key) {
    Lookup(t, Name(k)) == if k in c.counts then Some(Int(c.counts[k])) else None
  }

  ghost predicate ShowsSlot(t: Tree, c: Counters, s: Slot) {
    Lookup(t, SlotName(s)) == if s in c.slots then Some(SlotTree(c.slots[s])) else None
  }

  // The document holds these counters, each under its name.
  ghost predicate Shows(t: Tree, c: Counters) {
    && Whole(t) && Lookup(t, "") == None
    && (forall k: Key :: ShowsKey(t, c, k))
    && (forall s: Slot :: ShowsSlot(t, c, s))
  }

  lemma EmptyShows()
    ensures Shows(NO_FIELDS, Counters(map[], map[]))
  {
  }

  lemma KeyAdded(t: Tree, c: Counters, k: Key, n: int)
    requires Shows(t, c) && k !in c.counts
    ensures Shows(Added(t, Name(k), Int(n)), c.(counts := c.counts[k := n]))
  {
    hide Name, SlotName, Lookup, Whole, Added;
    var (t', c') := (Added(t, Name(k), Int(n)), c.(counts := c.counts[k := n]));
    assert ShowsKey(t, c, k);
    NamesAreText(k, Slot(0, 0, 0));
    DecimalIsValid(n);
    AddedIsWhole(t, Name(k), Int(n));
    NamesAndSlotsApart(k, Slot(0, 0, 0));
    AddedLookup(t, Name(k), Int(n), "");
    forall j: Key ensures ShowsKey(t', c', j) {
      assert ShowsKey(t, c, j);
      NamesApart(j, k);
      AddedLookup(t, Name(k), Int(n), Name(j));
    }
    forall s: Slot ensures ShowsSlot(t', c', s) {
      assert ShowsSlot(t, c, s);
      NamesAndSlotsApart(k, s);
      AddedLookup(t, Name(k), Int(n), SlotName(s));
    }
  }

  lemma KeyReplaced(t: Tree, c: Counters, k: Key, n: int)
    requires Shows(t, c) && k in c.counts
    ensures FirstLabel(t.kids, Name(k)) < |t.kids|
    ensures Shows(Replaced(t, FirstLabel(t.kids, Name(k)), Int(n)), c.(counts := c.counts[k := n]))
  {
    hide Name, SlotName, Lookup, Whole, Replaced;
    assert ShowsKey(t, c, k);
    LookupFound(t, Name(k));
    var i := FirstLabel(t.kids, Name(k));
    var (t', c') := (Replaced(t, i, Int(n)), c.(counts := c.counts[k := n]));
    DecimalIsValid(n);
    ReplacedIsWhole(t, i, Int(n));
    NamesAndSlotsApart(k, Slot(0, 0, 0));
    ReplacedLookup(t, Name(k), Int(n), "");
    forall j: Key ensures ShowsKey(t', c', j) {
      assert ShowsKey(t, c, j);
      NamesApart(j, k);
      ReplacedLookup(t, Name(k), Int(n), Name(j));
    }
    forall s: Slot ensures ShowsSlot(t', c', s) {
      assert ShowsSlot(t, c, s);
      NamesAndSlotsApart(k, s);
      ReplacedLookup(t, Name(k), Int(n), SlotName(s));
    }
  }

  lemma SlotIsValid(p: Pair)
    ensures Whole(SlotTree(p))
    ensures Lookup(SlotTree(p), "imp") == Some(Int(p.imp)) && Lookup(SlotTree(p), "clk") == Some(Int(p.clk))
  {
    DecimalIsValid(p.imp);
    DecimalIsValid(p.clk);
    PlainText("imp");
    PlainText("clk");
    assert ValidValue(Int(p.imp)) && ValidValue(Int(p.clk)) && Whole(NO_FIELDS);
    hide Decimal;
    var one := Added(NO_FIELDS, "imp", Int(p.imp));
    AddedIsWhole(NO_FIELDS, "imp", Int(p.imp));
    AddedIsWhole(one, "clk", Int(p.clk));
    hide ValidStringText, Whole;
    AddedLookup(NO_FIELDS, "imp", Int(p.imp), "imp");
    AddedLookup(NO_FIELDS, "imp", Int(p.imp), "clk");
    AddedLookup(one, "clk", Int(p.clk), "imp");
    AddedLookup(one, "clk", Int(p.clk), "clk");
  }

  lemma SlotAdded(t: Tree, c: Counters, s: Slot, p: Pair)
    requires Shows(t, c) && s !in c.slots
    ensures Shows(Added(t, SlotName(s), SlotTree(p)), c.(slots := c.slots[s := p]))
  {
    hide Name, SlotName, Lookup, Whole, Added, SlotTree;
    var (t', c') := (Added(t, SlotName(s), SlotTree(p)), c.(slots := c.slots[s := p]));
    assert ShowsSlot(t, c, s);
    NamesAreText(Total(Imp), s);
    WholeIsValue(p);
    AddedIsWhole(t, SlotName(s), SlotTree(p));
    NamesAndSlotsApart(Total(Imp), s);
    AddedLookup(t, SlotName(s), SlotTree(p), "");
    forall j: Key ensures ShowsKey(t', c', j) {
      assert ShowsKey(t, c, j);
      NamesAndSlotsApart(j, s);
      AddedLookup(t, SlotName(s), SlotTree(p), Name(j));
    }
    forall r: Slot ensures ShowsSlot(t', c', r) {
      assert ShowsSlot(t, c, r);
      SlotNamesApart(r, s);
      AddedLookup(t, SlotName(s), SlotTree(p), SlotName(r));
    }
  }

  lemma WholeIsValue(p: Pair)
    ensures ValidValue(SlotTree(p))
  {
    SlotIsValid(p);
  }

  lemma SlotReplaced(t: Tree, c: Counters, s: Slot, p: Pair)
    requires Shows(t, c) && s in c.slots
    ensures FirstLabel(t.kids, SlotName(s)) < |t.kids|
    ensures Shows(Replaced(t, FirstLabel(t.kids, SlotName(s)), SlotTree(p)), c.(slots := c.slots[s := p]))
  {
    hide Name, SlotName, Lookup, Whole, Replaced, SlotTree;
    assert ShowsSlot(t, c, s);
    LookupFound(t, SlotName(s));
    var i := FirstLabel(t.kids, SlotName(s));
    var (t', c') := (Replaced(t, i, SlotTree(p)), c.(slots := c.slots[s := p]));
    WholeIsValue(p);
    ReplacedIsWhole(t, i, SlotTree(p));
    NamesAndSlotsApart(Total(Imp), s);
    ReplacedLookup(t, SlotName(s), SlotTree(p), "");
    forall j: Key ensures ShowsKey(t', c', j) {
      assert ShowsKey(t, c, j);
      NamesAndSlotsApart(j, s);
      ReplacedLookup(t, SlotName(s), SlotTree(p), Name(j));
    }
    forall r: Slot ensures ShowsSlot(t', c', r) {
      assert ShowsSlot(t, c, r);
      SlotNamesApart(r, s);
      ReplacedLookup(t, SlotName(s), SlotTree(p), SlotName(r));
    }
  }

  // ----- the steps of GroupRestrictionCount -----

  // atoi of the number under a label, 0 where there is no such label.
  method NumberAt(root: Tree, ghost c: Counters, k: Key) returns (n: int)
    requires Shows(root, c)
    ensures n == At(c.counts, k)
  {
    hide Name, SlotName, Lookup, Whole, Atoi, Decimal;
    ShowsParts(root, c, k);
    LookupFound(root, Name(k));
    n := 0;
    var i := FindFirstLabel(root, Name(k));
    if i < |root.kids| {
      AtoiOfDecimal(c.counts[k]);
      n := Atoi(root.kids[i].kids[0].text);
    }
  }

  // One more under a label that may not be there yet.
  method CountUp(root: Tree, ghost c: Counters, k: Key) returns (root': Tree, n: int, found: bool)
    requires Shows(root, c)
    ensures n == At(c.counts, k) + 1 && found == (k in c.counts)
    ensures Shows(root', c.(counts := c.counts[k := n]))
  {
    hide Name, SlotName, Lookup, Whole, Atoi, Decimal, Shows, Added, Replaced;
    ShowsParts(root, c, k);
    LookupFound(root, Name(k));
    var i := FindFirstLabel(root, Name(k));
    found := i < |root.kids|;
    if found {
      AtoiOfDecimal(c.counts[k]);
      KeyReplaced(root, c, k, c.counts[k] + 1);
      n := Atoi(root.kids[i].kids[0].text) + 1;
      root' := Replaced(root, i, Int(n));
    } else {
      KeyAdded(root, c, k, 1);
      n := 1;
      root' := Added(root, Name(k), Int(n));
    }
  }

  lemma ShowsParts(t: Tree, c: Counters, k: Key)
    requires Shows(t, c)
    ensures ShowsKey(t, c, k) && Whole(t) && t.kind == Object
  {
  }

  method HourlyTarget(root: Tree, ghost c: Counters, paced: Delivery, hour: HourOfDay, planned: int)
      returns (target: int)
    requires Shows(root, c)
    ensures target == HourTarget(c.counts, paced, hour, planned)
  {
    hide Shows, Name, At;
    target := 0;
    var i := hour - 1;
    while i > 0
      invariant i <= hour - 1
      invariant LastActive(c.counts, paced, i) == LastActive(c.counts, paced, hour - 1)
      invariant target == 0
    {
      var dst := NumberAt(root, c, Target(paced, i));
      var sum := NumberAt(root, c, HourSum(paced, i));
      if dst != 0 {
        target := target + (dst - sum);
        break;
      }
      i := i - 1;
    }
    target := target + planned;
    if target <= 0 && planned != 0 { target := 1; }
    if planned == 0 { target := 0; }
  }

  method DailyTarget(root: Tree, ghost c: Counters, paced: Delivery, hour: HourOfDay, planned: int)
      returns (target: int)
    requires Shows(root, c)
    ensures target == DayLeft(c.counts, paced, hour, planned)
  {
    hide Shows, Name, At;
    var (i, sum) := (hour as int, 0);
    while i >= 0
      invariant -1 <= i <= hour
      invariant sum + HourSums(c.counts, paced, i) == HourSums(c.counts, paced, hour)
    {
      var n := NumberAt(root, c, HourSum(paced, i));
      sum := sum + n;
      i := i - 1;
    }
    target := planned - sum;
    if planned == 0 { target := 0; }
  }

  method SetTarget(root: Tree, ghost c: Counters, e: Event) returns (root': Tree)
    requires Shows(root, c) && WellPlanned(e)
    ensures Shows(root', c.(counts := Aimed(c.counts, e)))
  {
    hide Name, SlotName, Lookup, Whole, Shows, Added, HourTarget, DayLeft;
    var k := TargetKey(e);
    ShowsParts(root, c, k);
    LookupFound(root, Name(k));
    root' := root;
    var i := FindFirstLabel(root, Name(k));
    if i == |root.kids| {
      var target;
      if e.period == Day {
        target := DailyTarget(root, c, e.paced, e.hour, e.plan[0]);
      } else {
        target := HourlyTarget(root, c, e.paced, e.hour, e.plan[e.hour]);
      }
      KeyAdded(root, c, k, Int32(target));
      root' := Added(root, Name(k), Int(Int32(target)));
    }
  }

  method SumHour(root: Tree, ghost c: Counters, e: Event) returns (root': Tree)
    requires Shows(root, c)
    ensures Shows(root', c.(counts := Summed(c.counts, e)))
  {
    hide Name, SlotName, Lookup, Whole, Shows, Added, Replaced;
    if e.period == Day {
      NoEmptyName(root, c);
      var none := FindFirstLabel(root, "");
      return root;
    }
    var k := HourSum(e.kind, e.hour);
    var n, found;
    root', n, found := CountUp(root, c, k);
    ghost var c1 := c.(counts := c.counts[k := n]);
    if found && e.paced == e.kind {
      var target := NumberAt(root', c1, Target(e.kind, e.hour));
      if 0 < target <= n {
        var finish := Finish(e.paced, e.hour);
        ShowsParts(root', c1, finish);
        LookupFound(root', Name(finish));
        var j := FindFirstLabel(root', Name(finish));
        if j == |root'.kids| {
          KeyAdded(root', c1, finish, e.minute);
          root' := Added(root', Name(finish), Int(e.minute));
        }
      }
    }
  }

  lemma NoEmptyName(root: Tree, c: Counters)
    requires Shows(root, c)
    ensures Whole(root) && root.kind == Object && FirstLabel(root.kids, "") == |root.kids|
  {
    LookupFound(root, "");
  }

  method SumSlot(root: Tree, ghost c: Counters, e: Event) returns (root': Tree)
    requires Shows(root, c)
    ensures Shows(root', if e.period == Day then c
              else c.(slots := c.slots[SlotOf(e) := AddOne(SlotAt(c.slots, SlotOf(e)), e.kind)]))
  {
    hide Name, SlotName, Lookup, Whole, Shows, Added, Replaced, SlotTree, Atoi, Decimal;
    if e.period == Day {
      NoEmptyName(root, c);
      var none := FindFirstLabel(root, "");
      return root;
    }
    var s := SlotOf(e);
    SlotParts(root, c, s);
    LookupFound(root, SlotName(s));
    var i := FindFirstLabel(root, SlotName(s));
    if i < |root.kids| {
      var slot := root.kids[i].kids[0];
      ghost var p := c.slots[s];
      SlotIsValid(p);
      assert slot.kind == Object by { WholeIsObject(slot); }
      LookupFound(slot, KindName(e.kind));
      var j := FindFirstLabel(slot, KindName(e.kind));
      AtoiOfDecimal(Of(p, e.kind));
      var n := Atoi(slot.kids[j].kids[0].text);
      SlotBumped(p, e.kind);
      SlotReplaced(root, c, s, AddOne(p, e.kind));
      root' := Replaced(root, i, Replaced(slot, j, Int(n + 1)));
    } else {
      SlotAdded(root, c, s, One(e.kind));
      root' := Added(root, SlotName(s), SlotTree(One(e.kind)));
    }
  }

  lemma WholeIsObject(t: Tree)
    requires Whole(t)
    ensures t.kind == Object
  {
  }

  lemma SlotParts(t: Tree, c: Counters, s: Slot)
    requires Shows(t, c)
    ensures ShowsSlot(t, c, s) && Whole(t) && t.kind == Object
  {
  }

  lemma SlotBumped(p: Pair, kind: Delivery)
    ensures var i := FirstLabel(SlotTree(p).kids, KindName(kind));
            && i < 2 && |SlotTree(p).kids| == 2
            && SlotTree(p).kids[i] == Label(KindName(kind), Int(Of(p, kind)))
            && Replaced(SlotTree(p), i, Int(Of(p, kind) + 1)) == SlotTree(AddOne(p, kind))
  {
    hide Decimal;
    FirstLabelUnique(SlotTree(p).kids, KindName(kind), if kind == Imp then 0 else 1);
  }

  // ----- the stored text -----

  ghost predicate Stores(text: string, c: Counters) {
    exists t :: Shows(t, c) && Show(t, None) == Some(text)
  }

  lemma StoredText(text: string, c: Counters)
    requires Stores(text, c)
    ensures ParseDocument(text).1 == Ok && ParseDocument(text).0.Some? && Shows(ParseDocument(text).0.value, c)
  {
    hide Show, ParseDocument, Shows;
    var t :| Shows(t, c) && Show(t, None) == Some(text);
    ShowsParts(t, c, Total(Imp));
    PrintThenParse(t);
  }

  method Print(root: Tree, ghost c: Counters) returns (text: string)
    requires Shows(root, c)
    ensures Stores(text, c)
  {
    hide Show, Shows;
    ShowsParts(root, c, Total(Imp));
    PrintThenParse(root);
    text := Show(root, None).value;
  }

  method FirstRecord(e: Event) returns (root: Tree)
    requires WellPlanned(e)
    ensures Shows(root, First(e))
  {
    hide Name, SlotName, Shows, Added, SlotTree, Decimal;
    EmptyShows();
    var one := One(e.kind);
    ghost var c := Counters(map[], map[]);
    KeyAdded(NO_FIELDS, c, Total(Imp), one.imp);
    root := Added(NO_FIELDS, Name(Total(Imp)), Int(one.imp));
    c := c.(counts := c.counts[Total(Imp) := one.imp]);
    KeyAdded(root, c, Total(Clk), one.clk);
    root := Added(root, Name(Total(Clk)), Int(one.clk));
    c := c.(counts := c.counts[Total(Clk) := one.clk]);
    if e.period == Day {
      KeyAdded(root, c, DayTarget(e.paced), e.plan[0]);
      root := Added(root, Name(DayTarget(e.paced)), Int(e.plan[0]));
    } else {
      root, c := FirstHour(root, e, c);
      SlotAdded(root, c, SlotOf(e), one);
      root := Added(root, SlotName(SlotOf(e)), SlotTree(one));
    }
  }

  method FirstHour(root: Tree, e: Event, ghost c: Counters) returns (root': Tree, ghost c': Counters)
    requires WellPlanned(e) && Shows(root, c)
    requires forall k | k in c.counts :: k.Total?
    ensures c' == c.(counts := c.counts[HourSum(Imp, e.hour) := One(e.kind).imp]
                                   [HourSum(Clk, e.hour) := One(e.kind).clk]
                                       [Target(e.paced, e.hour) := e.plan[e.hour]])
    ensures Shows(root', c')
  {
    hide Name, SlotName, Shows, Added, Decimal;
    var one := One(e.kind);
    KeyAdded(root, c, HourSum(Imp, e.hour), one.imp);
    root' := Added(root, Name(HourSum(Imp, e.hour)), Int(one.imp));
    c' := c.(counts := c.counts[HourSum(Imp, e.hour) := one.imp]);
    KeyAdded(root', c', HourSum(Clk, e.hour), one.clk);
    root' := Added(root', Name(HourSum(Clk, e.hour)), Int(one.clk));
    c' := c'.(counts := c'.counts[HourSum(Clk, e.hour) := one.clk]);
    KeyAdded(root', c', Target(e.paced, e.hour), e.plan[e.hour]);
    root' := Added(root', Name(Target(e.paced, e.hour)), Int(e.plan[e.hour]));
    c' := c'.(counts := c'.counts[Target(e.paced, e.hour) := e.plan[e.hour]]);
  }

  // The record of a group, None before its first event.
  ghost predicate Keeps(redis: Redis, key: string, field: string, c: Option<Counters>)
    reads redis
  {
    match c
    case None => redis.GetField(key, field) == ""
    case Some(c) => Stores(redis.GetField(key, field), c)
  }

  // A stored text that is not a document stays as it is.
  predicate Broken(text: string) {
    text != "" && ParseDocument(text).0.None?
  }

  // ----- GroupRestrictionCount -----

  function KeysName(adx: nat, day: nat): string
    requires adx < 256 && day < 100
  {
    "dsp_group_frequency_" + (if adx < 100 then TwoDigits(adx) else Decimal(adx)) + "_" + TwoDigits(day)
  }

  // The key names the exchange and the day of the month, each with at least two digits.
  lemma KeysNameIs(adx: nat, day: nat)
    requires adx < 256 && day < 100
    ensures var (k, n) := (KeysName(adx, day), |KeysName(adx, day)|);
            && n >= 25 && k[..20] == "dsp_group_frequency_" && k[n - 3] == '_'
            && Atoi(k[20..n - 3]) == adx && AllDigits(k[20..n - 3])
            && Atoi(k[n - 2..]) == day && AllDigits(k[n - 2..])
  {
    var middle := if adx < 100 then TwoDigits(adx) else Decimal(adx);
    if adx < 100 { TwoDigitsAre(adx); } else { ThreeDigits(adx); }
    TwoDigitsAre(day);
    hide TwoDigits, Decimal, Atoi, AllDigits;
    var (k, n) := (KeysName(adx, day), |KeysName(adx, day)|);
    assert k == "dsp_group_frequency_" + middle + "_" + TwoDigits(day);
    assert k[20..n - 3] == middle && k[n - 2..] == TwoDigits(day);
  }

  lemma ThreeDigits(n: nat)
    requires n >= 100
    ensures |Decimal(n)| >= 2 && AllDigits(Decimal(n)) && Atoi(Decimal(n)) == n
  {
    DecimalIsDigits(n);
    AtoiOfDecimal(n);
    hide Atoi, AllDigits;
    assert Decimal(n / 10) != "" by { DecimalIsDigits(n / 10); }
  }

  // The stored numbers fit the ten bytes that each is printed into.
  predicate Fits(c: Option<Counters>) {
    c.Some? ==>
      && (forall k | k in c.value.counts && (k.Total? || k.HourSum?) :: c.value.counts[k] < 999_999_999)
      && (forall s | s in c.value.slots :: c.value.slots[s].imp < 999_999_999 && c.value.slots[s].clk < 999_999_999)
  }

  // One more than each of these numbers is printed, with its NUL, into ten bytes.
  lemma FitsTenBytes(c: Counters)
    requires (forall k | k in c.counts :: c.counts[k] >= 0)
             && forall s | s in c.slots :: c.slots[s].imp >= 0 && c.slots[s].clk >= 0
    ensures Fits(Some(c)) <==>
              && (forall k | k in c.counts && (k.Total? || k.HourSum?) :: |Decimal(c.counts[k] + 1)| + 1 <= 10)
              && (forall s | s in c.slots ::
                    |Decimal(c.slots[s].imp + 1)| + 1 <= 10 && |Decimal(c.slots[s].clk + 1)| + 1 <= 10)
  {
    hide Decimal;
    forall k | k in c.counts ensures c.counts[k] < 999_999_999 <==> |Decimal(c.counts[k] + 1)| + 1 <= 10 {
      NineDigits(c.counts[k] + 1);
    }
    forall s | s in c.slots
      ensures c.slots[s].imp < 999_999_999 <==> |Decimal(c.slots[s].imp + 1)| + 1 <= 10
      ensures c.slots[s].clk < 999_999_999 <==> |Decimal(c.slots[s].clk + 1)| + 1 <= 10
    {
      NineDigits(c.slots[s].imp + 1);
      NineDigits(c.slots[s].clk + 1);
    }
  }

  function Tens(k: nat): nat {
    if k == 0 then 1 else 10 * Tens(k - 1)
  }

  lemma {:induction false} DecimalLength(n: nat, k: nat)
    requires k >= 1
    ensures |Decimal(n)| <= k <==> n < Tens(k)
    decreases k
  {
    if k == 1 {
      assert Tens(1) == 10 * Tens(0);
      if n >= 10 { assert Decimal(n / 10) != "" by { DecimalIsDigits(n / 10); } }
    } else if n >= 10 {
      DecimalLength(n / 10, k - 1);
      assert n / 10 < Tens(k - 1) <==> n < 10 * Tens(k - 1);
    } else {
      TensGrow(k);
    }
  }

  lemma {:induction false} TensGrow(k: nat)
    requires k >= 1
    ensures Tens(k) >= 10
  {
    if k > 1 { TensGrow(k - 1); }
  }

  lemma NineDigits(n: nat)
    ensures |Decimal(n)| <= 9 <==> n < 1_000_000_000
  {
    DecimalLength(n, 9);
    assert Tens(3) == 1000 && Tens(6) == 1_000_000 && Tens(9) == 1_000_000_000;
  }

  method GroupRestrictionCount(redis: Redis, adx: nat, day: nat, groupid: string, mtype: char, e: Event,
        ghost c: Option<Counters>)
    requires adx < 256 && day < 100 && WellPlanned(e) && (mtype == 'i' ==> e.kind == Imp)
             && (mtype == 'c' ==> e.kind == Clk)
    requires Broken(redis.GetField(KeysName(adx, day), groupid))
             || (Keeps(redis, KeysName(adx, day), groupid, c) && Fits(c))
    modifies redis
    ensures redis.values == old(redis.values)
    ensures (mtype != 'i' && mtype != 'c') || old(Broken(redis.GetField(KeysName(adx, day), groupid))) ==>
              redis.hashes == old(redis.hashes)
    ensures (mtype == 'i' || mtype == 'c') && !old(Broken(redis.GetField(KeysName(adx, day), groupid))) ==>
              && Keeps(redis, KeysName(adx, day), groupid, Some(PacingDay.Step(c, e)))
              && redis.hashes
                 == old(redis.hashes)[(KeysName(adx, day), groupid) := redis.GetField(KeysName(adx, day), groupid)]
  {
    hide Shows, Stores, KeysName, Show, ParseDocument;
    if mtype != 'i' && mtype != 'c' { return; }
    var key := KeysName(adx, day);
    var value := redis.GetField(key, groupid);
    var text;
    if value == "" {
      if c.Some? { NotEmpty(c.value); }
      var root := FirstRecord(e);
      text := Print(root, First(e));
    } else {
      var parsed := ParseDocument(value).0;
      if parsed.None? { return; }
      StoredText(value, c.value);
      text := Update(parsed.value, c.value, e);
    }
    redis.SetField(key, groupid, text);
  }

  method Update(root: Tree, ghost c: Counters, e: Event) returns (text: string)
    requires Shows(root, c) && WellPlanned(e)
    ensures Stores(text, PacingDay.Step(Some(c), e))
  {
    hide Shows, Stores, Aimed, Summed;
    var root', n, found := CountUp(root, c, Total(e.kind));
    ghost var c1 := c.(counts := Counted(c.counts, e));
    root' := SetTarget(root', c1, e);
    ghost var c2 := c1.(counts := Aimed(c1.counts, e));
    root' := SumHour(root', c2, e);
    ghost var c3 := c2.(counts := Summed(c2.counts, e));
    root' := SumSlot(root', c3, e);
    text := Print(root', PacingDay.Step(Some(c), e));
  }

  lemma NotEmpty(c: Counters)
    ensures !Stores("", c)
  {
  }

  // Fewer than a billion events never overrun a printed number.
  lemma RunsFit(es: seq<Event>)
    requires Planned(es) && |es| < 999_999_999
    ensures Fits(Run(es))
  {
    if es != [] {
      CountsAreExact(es);
      var c := Run(es).value;
      forall k | k in c.counts && (k.Total? || k.HourSum?) ensures c.counts[k] < 999_999_999 {
        assert ExactAt(es, c, k.kind, HourOf(k), Slot(0, 0, 0));
      }
      forall s | s in c.slots ensures c.slots[s].imp < 999_999_999 && c.slots[s].clk < 999_999_999 {
        assert ExactAt(es, c, Imp, 0, s) && ExactAt(es, c, Clk, 0, s);
      }
    }
  }
}
