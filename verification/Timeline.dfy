/** Laying a project's issues out in time. */
module Timeline {
  import opened Calendar
  import opened Wrappers
  import GoInt

  /** Seconds since 1 January 1970, UTC. */
  type Instant = int

  /** The day a moment falls on. */
  function DateFromTime(t: Instant): (d: Date)
    ensures 86400 * d <= t < 86400 * (d + 1)
  {
    t / 86400
  }

  const COMPLETED_SPRINT_LIMIT := 12

  datatype Sprint = Sprint(id: int, startDate: Option<Instant>, endDate: Option<Instant>, completedAt: Option<Instant>)

  datatype Issue = Issue(
    id: int,
    inProgress: bool,
    createdAt: Instant,
    dueDate: Option<Date>,
    startedAt: Option<Instant>,
    completedAt: Option<Instant>)

  datatype Span = Span(start: Date, end: Date)

  // ----- Bars -----

  function SprintStart(sprint: Option<Sprint>): Option<Date> {
    if sprint.Some? && sprint.value.startDate.Some? then Some(DateFromTime(sprint.value.startDate.value)) else None
  }

  function SprintEnd(sprint: Option<Sprint>): Option<Date> {
    if sprint.Some? && sprint.value.endDate.Some? then Some(DateFromTime(sprint.value.endDate.value)) else None
  }

  /** The earliest known sign of work: its own start, failing that the sprint's, failing that its creation. */
  function WorkBegins(issue: Issue, sprint: Option<Sprint>): Date {
    if issue.startedAt.Some? then DateFromTime(issue.startedAt.value)
    else SprintStart(sprint).GetOr(DateFromTime(issue.createdAt))
  }

  /** What open work aims for: the due date takes precedence over the sprint's end. */
  function Planned(issue: Issue, sprint: Option<Sprint>): Option<Date> {
    if issue.dueDate.Some? then issue.dueDate else SprintEnd(sprint)
  }

  /** An issue's bar, or none: it runs forwards, ends where the work does, and reaches today while work is in progress. */
  predicate IsBar(issue: Issue, sprint: Option<Sprint>, today: Date, bar: Option<Span>) {
    && (bar == None <==> issue.completedAt == None && Planned(issue, sprint) == None && !issue.inProgress)
    && (bar.Some? ==>
          && bar.value.start <= bar.value.end
          && bar.value.start == GoInt.Min(WorkBegins(issue, sprint), bar.value.end)
          && (issue.completedAt.Some? ==> bar.value.end == DateFromTime(issue.completedAt.value))
          && (issue.completedAt == None && issue.inProgress ==>
                bar.value.end == GoInt.Max(today, Planned(issue, sprint).GetOr(today)))
          && (issue.completedAt == None && !issue.inProgress ==> Some(bar.value.end) == Planned(issue, sprint)))
  }

  method TimelineSpan(issue: Issue, sprint: Option<Sprint>, today: Date) returns (r: Option<Span>)
    ensures IsBar(issue, sprint, today, r)
    ensures var done, due := issue.completedAt, issue.dueDate;
            var sprintEnd := if sprint.Some? then sprint.value.endDate else None;
            if done.Some? then r.Some? && r.value.end == DateFromTime(done.value)
            else if due.Some? then
              r.Some? && r.value.end == if issue.inProgress && due.value < today then today else due.value
            else if sprintEnd.Some? then
              r.Some? && r.value.end ==
                         if issue.inProgress && DateFromTime(sprintEnd.value) < today then today
                         else DateFromTime(sprintEnd.value)
            else if issue.inProgress then r.Some? && r.value.end == today
            else r == None
    ensures r.Some? ==>
              var sprintStart := if sprint.Some? then sprint.value.startDate else None;
              var begun := DateFromTime(if issue.startedAt.Some? then issue.startedAt.value
                                        else if sprintStart.Some? then sprintStart.value else issue.createdAt);
              r.value.start == if r.value.end < begun then r.value.end else begun
  {
    var start, end, ok := 0, 0, false;
    if issue.startedAt.Some? {
      start := DateFromTime(issue.startedAt.value);
    } else if sprint.Some? && sprint.value.startDate.Some? {
      start := DateFromTime(sprint.value.startDate.value);
    } else {
      start := DateFromTime(issue.createdAt);
    }
    if issue.completedAt.Some? {
      end, ok := DateFromTime(issue.completedAt.value), true;
    } else if issue.dueDate.Some? {
      end, ok := issue.dueDate.value, true;
    } else if sprint.Some? && sprint.value.endDate.Some? {
      end, ok := DateFromTime(sprint.value.endDate.value), true;
    }
    if issue.completedAt == None && issue.inProgress && (!ok || end < today) {
      end, ok := today, true;
    }
    if !ok {
      return None;
    }
    if end < start {
      start := end;
    }
    return Some(Span(start, end));
  }

  // ----- The frame around every bar -----

  datatype Item = Item(issue: Issue, span: Option<Span>)

  datatype Group = Group(sprint: Option<Sprint>, items: seq<Item>)

  /** The days a group's sprint and bars cover. */
  function GroupExtents(g: Group): seq<Span> {
    (if SprintStart(g.sprint).Some? && SprintEnd(g.sprint).Some?
     then [Span(SprintStart(g.sprint).value, SprintEnd(g.sprint).value)] else [])
    + ItemExtents(g.items)
  }

  function ItemExtents(items: seq<Item>): seq<Span> {
    if items == [] then []
    else ItemExtents(items[..|items| - 1])
         + if items[|items| - 1].span.Some? then [items[|items| - 1].span.value] else []
  }

  function Extents(groups: seq<Group>): seq<Span> {
    if groups == [] then [] else Extents(groups[..|groups| - 1]) + GroupExtents(groups[|groups| - 1])
  }

  lemma {:induction false} ItemExtentsMean(items: seq<Item>, s: Span)
    ensures s in ItemExtents(items) <==> exists j :: 0 <= j < |items| && items[j].span == Some(s)
  {
    if items != [] {
      ItemExtentsMean(items[..|items| - 1], s);
    }
  }

  lemma GroupExtentsMean(g: Group, s: Span)
    ensures s in GroupExtents(g) <==>
            || (g.sprint.Some? && g.sprint.value.startDate.Some? && g.sprint.value.endDate.Some?
                && s == Span(DateFromTime(g.sprint.value.startDate.value), DateFromTime(g.sprint.value.endDate.value)))
            || exists j :: 0 <= j < |g.items| && g.items[j].span == Some(s)
  {
    ItemExtentsMean(g.items, s);
  }

  /** What a frame is drawn around: the days of every group's dated sprint, and every bar. */
  lemma {:induction false} ExtentsMean(groups: seq<Group>, s: Span)
    ensures s in Extents(groups) <==> exists i :: 0 <= i < |groups| && s in GroupExtents(groups[i])
  {
    hide GroupExtents;
    if groups != [] {
      ExtentsMean(groups[..|groups| - 1], s);
    }
  }

  /** The tightest frame: today and the week after it are inside, so is everything drawn, and each edge is touched. */
  predicate Frames(since: Option<Date>, today: Date, spans: seq<Span>, from: Date, to: Date) {
    && (since.Some? ==> from == since.value)
    && (since == None ==> from <= today && (forall s | s in spans :: from <= s.start)
                          && (from == today || exists s | s in spans :: s.start == from))
    && today + 7 <= to && (forall s | s in spans :: s.end <= to)
    && (to == today + 7 || exists s | s in spans :: s.end == to)
  }

  /** A frame shows today exactly when it is not asked to begin after it. */
  lemma FrameShowsToday(since: Option<Date>, today: Date, spans: seq<Span>, from: Date, to: Date)
    requires Frames(since, today, spans, from, to)
    ensures from <= today <= to <==> since == None || since.value <= today
  {
  }

  /** Asked to begin tomorrow, the frame of an empty timeline leaves today out. */
  lemma FrameMayMissToday(today: Date)
    ensures Frames(Some(today + 1), today, [], today + 1, today + 7) && !(today + 1 <= today <= today + 7)
  {
  }

  datatype InsightRange = TwoWeeks | ThirtyDays | NinetyDays | AllTime | UnknownRange

  function TimelineRangeDays(r: InsightRange): (days: nat) {
    match r
    case TwoWeeks => 14
    case ThirtyDays => 30
    case NinetyDays => 90
    case _ => 0
  }

  /** Where a project's timeline asks its frame to begin. */
  function RangeStart(r: InsightRange, today: Date): Option<Date> {
    if TimelineRangeDays(r) > 0 then Some(AddDays(today, 0 - TimelineRangeDays(r))) else None
  }

  /** The ranges reach 14, 30 or 90 days back; any other is for all time. */
  lemma RangesReachBack(today: Date)
    ensures RangeStart(TwoWeeks, today) == Some(today - 14) && RangeStart(ThirtyDays, today) == Some(today - 30)
    ensures RangeStart(NinetyDays, today) == Some(today - 90)
    ensures RangeStart(AllTime, today) == None && RangeStart(UnknownRange, today) == None
  {
    hide AddDays;
  }

  /** Every range a reader may ask for shows today. */
  lemma RangesShowToday(r: InsightRange, today: Date, spans: seq<Span>, from: Date, to: Date)
    requires Frames(RangeStart(r, today), today, spans, from, to)
    ensures from <= today <= to
  {
    FrameShowsToday(RangeStart(r, today), today, spans, from, to);
  }

  method Widen(since: Option<Date>, s: Span, from0: Date, to0: Date, ghost today: Date, ghost spans: seq<Span>)
    returns (from: Date, to: Date)
    requires Frames(since, today, spans, from0, to0)
    ensures Frames(since, today, spans + [s], from, to)
  {
    from, to := from0, to0;
    if since == None && s.start < from {
      from := s.start;
    }
    if to < s.end {
      to := s.end;
    }
    assert s in spans + [s];
    assert forall t | t in spans :: t in spans + [s];
  }

  method TimelineFrame(since: Option<Date>, today: Date, groups: seq<Group>) returns (from: Date, to: Date)
    ensures Frames(since, today, Extents(groups), from, to)
  {
    hide Frames, AddDays, SprintStart, SprintEnd, Extents, ItemExtents;
    from, to := today, AddDays(today, 7);
    if since.Some? {
      from := since.value;
    }
    EmptyFrame(since, today);
    assert groups[..0] == [];
    for i := 0 to |groups|
      invariant Frames(since, today, Extents(groups[..i]), from, to)
    {
      var group := groups[i];
      ghost var spans := Extents(groups[..i]);
      ExtentsStep(groups, i);
      if SprintStart(group.sprint).Some? && SprintEnd(group.sprint).Some? {
        var s := Span(SprintStart(group.sprint).value, SprintEnd(group.sprint).value);
        from, to := Widen(since, s, from, to, today, spans);
        spans := spans + [s];
      }
      ghost var framed := spans;
      assert group.items[..0] == [];
      for j := 0 to |group.items|
        invariant spans == framed + ItemExtents(group.items[..j])
        invariant Frames(since, today, spans, from, to)
      {
        ItemExtentsStep(group.items, j);
        var item := group.items[j];
        if item.span.Some? {
          from, to := Widen(since, item.span.value, from, to, today, spans);
          spans := spans + [item.span.value];
        }
      }
      assert group.items[..|group.items|] == group.items;
      assert spans == Extents(groups[..i]) + GroupExtents(group);
    }
    assert groups[..|groups|] == groups;
  }

  lemma ExtentsStep(groups: seq<Group>, i: nat)
    requires i < |groups|
    ensures Extents(groups[..i + 1]) == Extents(groups[..i]) + GroupExtents(groups[i])
  {
    assert groups[..i + 1][..i] == groups[..i];
  }

  lemma ItemExtentsStep(items: seq<Item>, j: nat)
    requires j < |items|
    ensures ItemExtents(items[..j + 1]) ==
            ItemExtents(items[..j]) + if items[j].span.Some? then [items[j].span.value] else []
  {
    assert items[..j + 1][..j] == items[..j];
  }

  lemma EmptyFrame(since: Option<Date>, today: Date)
    ensures Extents([]) == [] && ItemExtents([]) == []
    ensures Frames(since, today, [], since.GetOr(today), today + 7)
  {
  }

  // ----- Ordering a group -----

  /** Where an item sorts: by the start of its bar, undated items after every date. */
  function Key(item: Item): Option<Date> {
    if item.span.Some? then Some(item.span.value.start) else None
  }

  /** The comparison handed to the sort. */
  predicate Less(a: Item, b: Item) {
    if Key(a) == None || Key(b) == None then Key(a) != None else Key(a).value < Key(b).value
  }

  /** No dated item stands before an earlier one, or after an undated one. */
  predicate Ordered(items: seq<Item>) {
    forall i, j | 0 <= i < j < |items| ::
      items[j].span.Some? ==> items[i].span.Some? && items[i].span.value.start <= items[j].span.value.start
  }

  /** The items that sort alike, in the order they stand. */
  function WithKey(items: seq<Item>, key: Option<Date>): seq<Item> {
    if items == [] then []
    else (if Key(items[0]) == key then [items[0]] else []) + WithKey(items[1..], key)
  }

  /** sorted holds the same items as items, in order, with those that sort alike keeping their order. */
  ghost predicate StablySorted(items: seq<Item>, sorted: seq<Item>) {
    Ordered(sorted) && forall key :: WithKey(sorted, key) == WithKey(items, key)
  }

  function InsertStable(item: Item, sorted: seq<Item>): seq<Item> {
    if sorted != [] && Less(sorted[0], item) then [sorted[0]] + InsertStable(item, sorted[1..])
    else [item] + sorted
  }

  function SliceStable(items: seq<Item>): seq<Item> {
    if items == [] then [] else InsertStable(items[0], SliceStable(items[1..]))
  }

  lemma {:induction false} InsertKeepsAlike(item: Item, sorted: seq<Item>, key: Option<Date>)
    ensures WithKey(InsertStable(item, sorted), key) == (if Key(item) == key then [item] else []) + WithKey(sorted, key)
    ensures forall i | 0 <= i < |InsertStable(item, sorted)| ::
              InsertStable(item, sorted)[i] == item || InsertStable(item, sorted)[i] in sorted
  {
    if sorted != [] && Less(sorted[0], item) {
      InsertKeepsAlike(item, sorted[1..], key);
      assert InsertStable(item, sorted)[1..] == InsertStable(item, sorted[1..]);
    } else {
      assert InsertStable(item, sorted)[1..] == sorted;
    }
  }

  lemma {:induction false} InsertOrders(item: Item, sorted: seq<Item>)
    requires Ordered(sorted)
    ensures Ordered(InsertStable(item, sorted))
  {
    if sorted != [] && Less(sorted[0], item) {
      InsertOrders(item, sorted[1..]);
      InsertKeepsAlike(item, sorted[1..], None);
    }
  }

  lemma {:induction false} SliceStableSorts(items: seq<Item>)
    ensures StablySorted(items, SliceStable(items))
  {
    if items != [] {
      var rest := SliceStable(items[1..]);
      SliceStableSorts(items[1..]);
      InsertOrders(items[0], rest);
      forall key ensures WithKey(SliceStable(items), key) == WithKey(items, key) {
        InsertKeepsAlike(items[0], rest, key);
      }
    }
  }

  lemma {:induction false} KeyPresent(items: seq<Item>, i: nat)
    requires i < |items|
    ensures WithKey(items, Key(items[i])) != []
  {
    if i > 0 {
      KeyPresent(items[1..], i - 1);
    }
  }

  lemma {:induction false} KeyFound(items: seq<Item>, key: Option<Date>) returns (i: nat)
    requires WithKey(items, key) != []
    ensures i < |items| && Key(items[i]) == key
  {
    if Key(items[0]) == key {
      i := 0;
    } else {
      i := KeyFound(items[1..], key);
      i := i + 1;
    }
  }

  lemma WithKeyTail(items: seq<Item>, key: Option<Date>)
    requires items != []
    ensures WithKey(items[1..], key) ==
            if Key(items[0]) == key then WithKey(items, key)[1..] else WithKey(items, key)
  {
    if Key(items[0]) == key {
      assert ([items[0]] + WithKey(items[1..], key))[1..] == WithKey(items[1..], key);
    } else {
      assert [] + WithKey(items[1..], key) == WithKey(items[1..], key);
    }
  }

  lemma SameFirstKey(a: seq<Item>, b: seq<Item>, i: nat, j: nat)
    requires Ordered(a) && Ordered(b) && i < |b| && j < |a|
    requires Key(b[i]) == Key(a[0]) && Key(a[j]) == Key(b[0])
    ensures Key(a[0]) == Key(b[0])
  {
  }

  /** Any stable sort gives the same list, so nothing depends on how the library's works. */
  lemma {:induction false} StableSortUnique(items: seq<Item>, a: seq<Item>, b: seq<Item>)
    requires StablySorted(items, a) && StablySorted(items, b)
    ensures a == b
    decreases |a|
  {
    if a == [] {
      if b != [] {
        KeyPresent(b, 0);
        assert false;
      }
    } else {
      KeyPresent(a, 0);
      assert WithKey(b, Key(a[0])) == WithKey(a, Key(a[0]));
      var i := KeyFound(b, Key(a[0]));
      KeyPresent(b, 0);
      assert WithKey(a, Key(b[0])) == WithKey(b, Key(b[0]));
      var j := KeyFound(a, Key(b[0]));
      SameFirstKey(a, b, i, j);
      assert WithKey(a, Key(a[0]))[0] == a[0] && WithKey(b, Key(a[0]))[0] == b[0];
      forall key ensures WithKey(a[1..], key) == WithKey(b[1..], key) {
        assert WithKey(a, key) == WithKey(b, key);
        WithKeyTail(a, key);
        WithKeyTail(b, key);
      }
      StableSortUnique(a[1..], a[1..], b[1..]);
      assert a == [a[0]] + a[1..] && b == [b[0]] + b[1..];
    }
  }

  lemma {:induction false} CountWithKey(items: seq<Item>, x: Item)
    ensures multiset(items)[x] == multiset(WithKey(items, Key(x)))[x]
  {
    hide Key;
    if items != [] {
      var alike := WithKey(items[1..], Key(x));
      assert items == [items[0]] + items[1..];
      assert Key(items[0]) == Key(x) ==> multiset([items[0]] + alike) == multiset{items[0]} + multiset(alike);
      assert [] + alike == alike;
      CountWithKey(items[1..], x);
    }
  }

  /** A stable sort neither loses nor doubles an item. */
  lemma StableSortPermutes(items: seq<Item>, sorted: seq<Item>)
    requires StablySorted(items, sorted)
    ensures multiset(sorted) == multiset(items) && |sorted| == |items|
  {
    hide Ordered, WithKey;
    forall x ensures multiset(sorted)[x] == multiset(items)[x] {
      CountWithKey(items, x);
      CountWithKey(sorted, x);
      assert WithKey(sorted, Key(x)) == WithKey(items, Key(x));
    }
    assert |sorted| == |multiset(sorted)| && |items| == |multiset(items)|;
  }

  /** The items whose bars begin on a day, or those without a bar. */
  function Beginning(items: seq<Item>, day: Option<Date>): seq<Item> {
    if items == [] then []
    else
      var span := items[0].span;
      (if (span == None && day == None) || (span.Some? && day == Some(span.value.start)) then [items[0]] else [])
      + Beginning(items[1..], day)
  }

  lemma {:induction false} BeginningIsWithKey(items: seq<Item>, day: Option<Date>)
    ensures Beginning(items, day) == WithKey(items, day)
  {
    if items != [] {
      BeginningIsWithKey(items[1..], day);
    }
  }

  /** Bars that begin on one day stay in the order they were given, and so do items without a bar. */
  lemma TiesStay(items: seq<Item>, sorted: seq<Item>, day: Option<Date>)
    requires StablySorted(items, sorted)
    ensures Beginning(sorted, day) == Beginning(items, day)
  {
    BeginningIsWithKey(items, day);
    BeginningIsWithKey(sorted, day);
  }

  lemma SortedIsOrdered(items: seq<Item>, sorted: seq<Item>)
    requires StablySorted(items, sorted)
    ensures Ordered(sorted)
  {
  }

  lemma DatedByStart(sorted: seq<Item>)
    requires Ordered(sorted)
    ensures forall i, j | 0 <= i < j < |sorted| && sorted[j].span.Some? ::
              sorted[i].span.Some? && sorted[i].span.value.start <= sorted[j].span.value.start
  {
  }

  /** One item for each issue, in the order given, with that issue's bar. */
  ghost predicate Draws(issues: seq<Issue>, sprint: Option<Sprint>, today: Date, drawn: seq<Item>) {
    |drawn| == |issues|
    && forall i | 0 <= i < |issues| :: drawn[i].issue == issues[i] && IsBar(issues[i], sprint, today, drawn[i].span)
  }

  /** The group's layout: its bars ordered by where they begin, undated last, ties in the order given. */
  ghost predicate LaysOut(issues: seq<Issue>, sprint: Option<Sprint>, today: Date, items: seq<Item>) {
    exists drawn :: Draws(issues, sprint, today, drawn) && StablySorted(drawn, items)
  }

  lemma OneBar(issue: Issue, sprint: Option<Sprint>, today: Date, a: Option<Span>, b: Option<Span>)
    requires IsBar(issue, sprint, today, a) && IsBar(issue, sprint, today, b)
    ensures a == b
  {
    hide Planned, WorkBegins;
  }

  /** Issues, sprint and day leave one possible layout. */
  lemma LayoutUnique(issues: seq<Issue>, sprint: Option<Sprint>, today: Date, a: seq<Item>, b: seq<Item>)
    requires LaysOut(issues, sprint, today, a) && LaysOut(issues, sprint, today, b)
    ensures a == b
  {
    hide IsBar, StablySorted;
    var drawn: seq<Item> :| Draws(issues, sprint, today, drawn) && StablySorted(drawn, a);
    var again: seq<Item> :| Draws(issues, sprint, today, again) && StablySorted(again, b);
    forall i | 0 <= i < |issues| ensures drawn[i] == again[i] {
      OneBar(issues[i], sprint, today, drawn[i].span, again[i].span);
    }
    assert drawn == again;
    StableSortUnique(drawn, a, b);
  }

  method TimelineItems(issues: seq<Issue>, sprint: Option<Sprint>, today: Date) returns (sorted: seq<Item>)
    ensures LaysOut(issues, sprint, today, sorted) && |sorted| == |issues|
    ensures forall i, j | 0 <= i < j < |sorted| && sorted[j].span.Some? ::
              sorted[i].span.Some? && sorted[i].span.value.start <= sorted[j].span.value.start
  {
    hide IsBar, StablySorted;
    var items: seq<Item> := [];
    for i := 0 to |issues|
      invariant |items| == i
      invariant forall k | 0 <= k < i :: items[k].issue == issues[k] && IsBar(issues[k], sprint, today, items[k].span)
    {
      var span := TimelineSpan(issues[i], sprint, today);
      items := items + [Item(issues[i], span)];
    }
    SliceStableSorts(items);
    assert Draws(issues, sprint, today, items);
    sorted := SliceStable(items);
    StableSortPermutes(items, sorted);
    assert Ordered(sorted) by {
      SortedIsOrdered(items, sorted);
    }
    DatedByStart(sorted);
  }

  // ----- Choosing completed sprints -----

  predicate InRange(s: Sprint, since: Option<Instant>) {
    since == None || (s.completedAt.Some? && s.completedAt.value >= since.value)
  }

  /** The leading sprints in range, stopping at the first that is not. */
  function LeadingInRange(sprints: seq<Sprint>, since: Option<Instant>): seq<Sprint> {
    if sprints == [] || !InRange(sprints[0], since) then []
    else [sprints[0]] + LeadingInRange(sprints[1..], since)
  }

  function AllInRange(sprints: seq<Sprint>, since: Option<Instant>): seq<Sprint> {
    if sprints == [] then []
    else (if InRange(sprints[0], since) then [sprints[0]] else []) + AllInRange(sprints[1..], since)
  }

  function Reversed(s: seq<Sprint>): (r: seq<Sprint>)
    ensures |r| == |s| && forall i | 0 <= i < |s| :: r[i] == s[|s| - 1 - i]
  {
    seq(|s|, i requires 0 <= i < |s| => s[|s| - 1 - i])
  }

  function Newest(sprints: seq<Sprint>, n: nat): seq<Sprint> {
    if |sprints| <= n then sprints else sprints[..n]
  }

  lemma {:induction false} LeadingIsPrefix(sprints: seq<Sprint>, since: Option<Instant>, n: nat)
    requires n <= |sprints| && forall i | 0 <= i < n :: InRange(sprints[i], since)
    requires n == |sprints| || !InRange(sprints[n], since)
    ensures LeadingInRange(sprints, since) == sprints[..n]
  {
    if n > 0 {
      LeadingIsPrefix(sprints[1..], since, n - 1);
      assert sprints[..n] == [sprints[0]] + sprints[1..][..n - 1];
    }
  }

  /** Keeps the leading in-range sprints in place, cuts them to the limit and turns them oldest first. */
  method PickCompleted(page: array<Sprint>, since: Option<Instant>) returns (n: nat, more: bool)
    modifies page
    ensures n <= page.Length
    ensures page[..n] == Reversed(Newest(LeadingInRange(old(page[..]), since), 12))
    ensures more <==> |LeadingInRange(old(page[..]), since)| > 12
    ensures forall i | 0 <= i < n ::
              since == None || (page[i].completedAt.Some? && page[i].completedAt.value >= since.value)
    ensures n <= 12 && (n < 12 && n < page.Length ==>
              since.Some? && (old(page[n]).completedAt == None || old(page[n]).completedAt.value < since.value))
  {
    ghost var given := page[..];
    var kept := 0;
    var i := 0;
    while i < page.Length
          && (since == None || (page[i].completedAt.Some? && page[i].completedAt.value >= since.value))
      invariant 0 <= i == kept <= page.Length && page[..] == given
      invariant forall k | 0 <= k < i :: InRange(given[k], since)
    {
      page[kept] := page[i];
      kept := kept + 1;
      i := i + 1;
    }
    LeadingIsPrefix(given, since, kept);
    more := kept > COMPLETED_SPRINT_LIMIT;
    if more {
      kept := COMPLETED_SPRINT_LIMIT;
    }
    n := kept;
    ghost var chosen := given[..n];
    assert chosen == Newest(LeadingInRange(given, since), COMPLETED_SPRINT_LIMIT);
    ReverseInPlace(page, n);
  }

  datatype Picked = Picked(sprints: seq<Sprint>, moreCompleted: bool, morePlanned: bool)

  /**
   * The sprints a timeline groups by: completed ones oldest first, then the active one, then the planned. Each page is
   * what the store answers, or None where reading it fails.
   */
  method TimelineSprints(completed: Option<array<Sprint>>, since: Option<Instant>, active: Option<seq<Sprint>>,
                         planned: Option<(seq<Sprint>, bool)>)
    returns (r: Option<Picked>)
    modifies if completed.Some? then {completed.value} else {}
    ensures r == None <==> completed == None || active == None || planned == None
    ensures r.Some? ==>
              var inRange := LeadingInRange(old(completed.value[..]), since);
              && r.value.sprints ==
                 Reversed(Newest(inRange, 12)) + active.value + planned.value.0
              && (r.value.moreCompleted <==> |inRange| > 12)
              && r.value.morePlanned == planned.value.1
  {
    hide LeadingInRange;
    if completed == None {
      return None;
    }
    var n, moreCompleted := PickCompleted(completed.value, since);
    var inRange := completed.value[..n];
    if active == None || planned == None {
      return None;
    }
    return Some(Picked(inRange + active.value + planned.value.0, moreCompleted, planned.value.1));
  }

  method ReverseInPlace(page: array<Sprint>, n: nat)
    requires n <= page.Length
    modifies page
    ensures page[..n] == Reversed(old(page[..n]))
  {
    var i := 0;
    while i < n / 2
      invariant 0 <= i <= n / 2
      invariant forall k | 0 <= k < i :: page[k] == old(page[n - 1 - k]) && page[n - 1 - k] == old(page[k])
      invariant forall k | i <= k < n - i :: page[k] == old(page[k])
    {
      page[i], page[n - 1 - i] := page[n - 1 - i], page[i];
      i := i + 1;
    }
  }

  /** Newest first, with sprints that never completed after all that did. */
  predicate NewestFirst(sprints: seq<Sprint>) {
    forall i, j | 0 <= i < j < |sprints| ::
      sprints[j].completedAt.Some? ==>
        sprints[i].completedAt.Some? && sprints[i].completedAt.value >= sprints[j].completedAt.value
  }

  lemma {:induction false} NewestFirstLeads(sprints: seq<Sprint>, since: Option<Instant>)
    requires NewestFirst(sprints)
    ensures LeadingInRange(sprints, since) == AllInRange(sprints, since)
  {
    if sprints != [] {
      NewestFirstLeads(sprints[1..], since);
      if !InRange(sprints[0], since) {
        NoneInRange(sprints[1..], since);
      }
    }
  }

  lemma {:induction false} NoneInRange(sprints: seq<Sprint>, since: Option<Instant>)
    requires forall s | s in sprints :: !InRange(s, since)
    ensures AllInRange(sprints, since) == []
  {
    if sprints != [] {
      NoneInRange(sprints[1..], since);
    }
  }

  lemma {:induction false} LeadingOfPage(sprints: seq<Sprint>, since: Option<Instant>, n: nat)
    ensures LeadingInRange(Newest(sprints, n), since) == Newest(LeadingInRange(sprints, since), n)
  {
    if sprints != [] && n > 0 && InRange(sprints[0], since) {
      LeadingOfPage(sprints[1..], since, n - 1);
      assert Newest(sprints, n)[1..] == Newest(sprints[1..], n - 1);
    }
  }

  /**
   * Reading one page past the limit is enough: what is listed is the newest in-range sprints of the whole history,
   * oldest first, and the flag is right about the whole history too.
   */
  lemma PageSpeaksForAll(all: seq<Sprint>, since: Option<Instant>)
    requires NewestFirst(all)
    ensures var page := Newest(all, 13);
            var inRange := AllInRange(all, since);
            && Newest(LeadingInRange(page, since), 12) == Newest(inRange, 12)
            && (|LeadingInRange(page, since)| > 12 <==> |inRange| > 12)
  {
    NewestFirstLeads(all, since);
    LeadingOfPage(all, since, COMPLETED_SPRINT_LIMIT + 1);
  }

  // ----- The whole timeline -----

  datatype Layout = Layout(since: Option<Date>, groups: seq<Group>, from: Date, to: Date)

  /** A group laid out for its sprint, or for work in none. */
  ghost predicate GroupOf(group: Group, sprint: Option<Sprint>, issues: seq<Issue>, today: Date) {
    group.sprint == sprint && LaysOut(issues, sprint, today, group.items)
  }

  /** A group for each sprint in turn, one for work outside sprints if there is any or sprints are off, and today in the frame. */
  method ProjectTimeline(range: InsightRange, today: Date, sprintsEnabled: bool, picked: seq<Sprint>,
                         bySprint: map<int, seq<Issue>>, outside: seq<Issue>)
    returns (t: Layout)
    ensures t.since == RangeStart(range, today) && Frames(t.since, today, Extents(t.groups), t.from, t.to)
    ensures t.from <= today && today + 7 <= t.to
    ensures var sprints := if sprintsEnabled then picked else [];
            && |t.groups| == |sprints| + (if outside != [] || !sprintsEnabled then 1 else 0)
            && (forall i | 0 <= i < |sprints| ::
                  GroupOf(t.groups[i], Some(sprints[i]),
                          if sprints[i].id in bySprint then bySprint[sprints[i].id] else [], today))
            && (|t.groups| > |sprints| ==> GroupOf(t.groups[|sprints|], None, outside, today))
  {
    hide LaysOut, Extents, RangeStart, Frames;
    var since := RangeStart(range, today);
    var sprints := if sprintsEnabled then picked else [];
    var groups: seq<Group> := [];
    for i := 0 to |sprints|
      invariant |groups| == i
      invariant forall j | 0 <= j < i ::
                  GroupOf(groups[j], Some(sprints[j]), if sprints[j].id in bySprint then bySprint[sprints[j].id] else [], today)
    {
      var issues := if sprints[i].id in bySprint then bySprint[sprints[i].id] else [];
      var items := TimelineItems(issues, Some(sprints[i]), today);
      groups := groups + [Group(Some(sprints[i]), items)];
    }
    var items := TimelineItems(outside, None, today);
    if |items| > 0 || !sprintsEnabled {
      groups := groups + [Group(None, items)];
    }
    var from, to := TimelineFrame(since, today, groups);
    RangesShowToday(range, today, Extents(groups), from, to);
    WeekAhead(since, today, Extents(groups), from, to);
    t := Layout(since, groups, from, to);
  }

  lemma WeekAhead(since: Option<Date>, today: Date, spans: seq<Span>, from: Date, to: Date)
    requires Frames(since, today, spans, from, to)
    ensures today + 7 <= to
  {
  }
}
