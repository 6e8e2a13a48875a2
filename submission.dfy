/**
 * The weekly submission workflow: the worklog entry built for a day, the
 * grouping of the week's days by issue (an insertion-ordered dictionary
 * filled with `setdefault(...).append`), and the loops that post the missing
 * days, group by group, against oracle answers for each POST.
 */
module Submission {
  import opened Wrappers
  import opened Digits
  import opened Calendar
  import opened IssueRouting
  import opened Tracker

  // ---------------------------------------------------------------- entries

  /** Fixed start of every entry: 09:00 at UTC-3. */
  const StartTime := "T09:00:00.000-0300"

  /** The POST payload; `comment` is the text of the one-paragraph rich-text document. */
  datatype WorklogEntry = WorklogEntry(timeSpent: string, started: string, comment: string)

  /** The minutes logged on a day: the reduced amount on Friday, the normal one otherwise. */
  function MinutesFor(cfg: Config, d: Day): nat {
    if Weekday(d) == 4 then cfg.reducedMinutes else cfg.normalMinutes
  }

  /**
   * The entry posted for day `d`, whose `%Y-%m-%d` text is `date`: the
   * day's minutes followed by `m`, the date at 09:00 UTC-3, the comment.
   */
  function NewEntry(cfg: Config, d: Day, date: string): WorklogEntry {
    WorklogEntry(Decimal(MinutesFor(cfg, d)) + "m", date + StartTime, cfg.comment)
  }

  /**
   * The time spent is the day's minutes in decimal followed by `m` (the
   * reduced amount on Friday), the entry starts on `date`, and it carries
   * the configured comment.
   */
  lemma EntryShape(cfg: Config, d: Day, date: string)
    ensures var e := NewEntry(cfg, d, date);
      && |e.timeSpent| >= 2 && e.timeSpent[|e.timeSpent| - 1] == 'm'
      && AllDigits(e.timeSpent[..|e.timeSpent| - 1])
      && ValueOf(e.timeSpent[..|e.timeSpent| - 1]) == (if Weekday(d) == 4 then cfg.reducedMinutes else cfg.normalMinutes)
      && (|date| == 10 ==> StartedDay(e.started) == date && e.started[10..] == StartTime)
      && e.comment == cfg.comment
  {
    var e := NewEntry(cfg, d, date);
    assert e.timeSpent[..|e.timeSpent| - 1] == Decimal(MinutesFor(cfg, d));
    assert |date| == 10 ==> e.started[..10] == date;
  }

  /**
   * An entry posted by `me`, once listed among the issue's worklogs, makes
   * its day count as already logged: a later run does not post it again.
   */
  lemma PostedEntryIsFoundAgain(cfg: Config, me: string, d: Day, others: seq<Worklog>)
    ensures IsoDate(d) in ExistingDates(me,
      WorklogListing(200, others + [Worklog(NewEntry(cfg, d, IsoDate(d)).started, Some(me))]))
  {
    var ws := others + [Worklog(NewEntry(cfg, d, IsoDate(d)).started, Some(me))];
    assert ws[|others|].authorAccountId == Some(me);
  }

  lemma DefaultMinutesText()
    ensures Decimal(510) + "m" == "510m" && Decimal(360) + "m" == "360m"
  {
    assert Decimal(5) == "5" && Decimal(3) == "3";
    assert Decimal(51) == "51" && Decimal(36) == "36";
  }

  // ---------------------------------------------------------------- grouping

  predicate Increasing(days: seq<Day>) {
    forall i, j :: 0 <= i < j < |days| ==> days[i] < days[j]
  }

  predicate Distinct<T(==)>(s: seq<T>) {
    forall i, j :: 0 <= i < j < |s| ==> s[i] != s[j]
  }

  /**
   * Resolves a day to its issue, `None` when no issue is configured for it;
   * the run uses `d => IssueForDate(cfg, d)`.
   */
  type Resolver = Day -> Option<string>

  /** The issue a day is grouped under: none for a weekend day or an unresolved one. */
  function Resolved(resolve: Resolver, d: Day): (r: Option<string>)
    ensures Weekday(d) >= 5 ==> r.None?
    ensures Weekday(d) < 5 ==> r == resolve(d)
  {
    if Weekday(d) >= 5 then None else resolve(d)
  }

  /** The dictionary's keys in insertion order: resolved issues, each at its first day. */
  function IssueOrder(resolve: Resolver, days: seq<Day>): (order: seq<string>)
    ensures Distinct(order)
    ensures forall g :: g in order <==> exists i :: 0 <= i < |days| && Resolved(resolve, days[i]) == Some(g)
  {
    if days == [] then []
    else
      var init := days[..|days| - 1];
      assert forall i :: 0 <= i < |init| ==> init[i] == days[i];
      var prev, r := IssueOrder(resolve, init), Resolved(resolve, days[|days| - 1]);
      if r.None? || r.value in prev then prev else prev + [r.value]
  }

  /** The list of days appended under issue `g`. */
  function DatesFor(resolve: Resolver, days: seq<Day>, g: string): (ds: seq<Day>)
    ensures |ds| <= |days|
    ensures forall d :: d in ds <==> d in days && Resolved(resolve, d) == Some(g)
    ensures Increasing(days) ==> Increasing(ds)
  {
    if days == [] then []
    else
      var init, last := days[..|days| - 1], days[|days| - 1];
      assert days == init + [last];
      var prev := DatesFor(resolve, init, g);
      assert Increasing(days) ==> forall k :: 0 <= k < |prev| ==> prev[k] < last by {
        if Increasing(days) {
          forall k | 0 <= k < |prev|
            ensures prev[k] < last
          {
            assert prev[k] in init;
          }
        }
      }
      if Resolved(resolve, last) == Some(g) then prev + [last] else prev
  }

  /**
   * Groups the days by issue: each weekday with a configured issue is
   * appended to that issue's list, a new issue becoming the next key
   * (`dias_por_issue`, filled with `setdefault(...).append`). The
   * dictionary is its key order plus a map from key to list.
   */
  method GroupByIssue(resolve: Resolver, days: seq<Day>) returns (order: seq<string>, groups: map<string, seq<Day>>)
    ensures order == IssueOrder(resolve, days)
    ensures forall g :: g in groups <==> g in order
    ensures forall g :: g in groups ==> groups[g] == DatesFor(resolve, days, g)
  {
    order, groups := [], map[];
    for i := 0 to |days|
      invariant order == IssueOrder(resolve, days[..i])
      invariant forall g :: g in groups <==> g in order
      invariant forall g :: g in groups ==> groups[g] == DatesFor(resolve, days[..i], g)
    {
      var d := days[i];
      assert days[..i + 1] == days[..i] + [d];
      if Weekday(d) >= 5 {
        continue;  // weekend guard
      }
      var issue := resolve(d);
      if issue.None? {
        continue;  // no issue configured for this day
      }
      var g := issue.value;
      if g !in groups {
        NoDaysWithoutIssue(resolve, days[..i], g);
        order := order + [g];
        groups := groups[g := []];
      }
      groups := groups[g := groups[g] + [d]];
    }
    assert days[..|days|] == days;
  }

  /** An issue that is not among the keys has no days. */
  lemma NoDaysWithoutIssue(resolve: Resolver, days: seq<Day>, g: string)
    requires g !in IssueOrder(resolve, days)
    ensures DatesFor(resolve, days, g) == []
  {
  }

  /**
   * Grouping the days puts every day with a resolved issue in exactly the
   * group of that issue, and an unresolved day in none; each group keeps
   * the days' order, and an issue has a group exactly when some day has it.
   */
  lemma GroupingPartitions(resolve: Resolver, days: seq<Day>, d: Day, g: string)
    requires Increasing(days)
    ensures d in DatesFor(resolve, days, g) <==> d in days && Resolved(resolve, d) == Some(g)
    ensures Increasing(DatesFor(resolve, days, g))
    ensures g in IssueOrder(resolve, days) <==> |DatesFor(resolve, days, g)| > 0
  {
    var ds := DatesFor(resolve, days, g);
    if g in IssueOrder(resolve, days) {
      var i :| 0 <= i < |days| && Resolved(resolve, days[i]) == Some(g);
      assert days[i] in ds;
    }
    if |ds| > 0 {
      assert ds[0] in ds;
    }
  }

  /**
   * The keys are in order of first occurrence: the keys of any leading part
   * of the days are a prefix of the keys of all of them.
   */
  lemma {:induction false} IssueOrderPrefix(resolve: Resolver, days: seq<Day>, a: nat)
    requires a <= |days|
    ensures IssueOrder(resolve, days[..a]) <= IssueOrder(resolve, days)
    decreases |days|
  {
    if a < |days| {
      var init := days[..|days| - 1];
      assert init[..a] == days[..a];
      IssueOrderPrefix(resolve, init, a);
    } else {
      assert days[..a] == days;
    }
  }

  // ---------------------------------------------------------------- posting

  /**
   * The `%Y-%m-%d` text of a day; the run uses `IsoDate`. Taking it as a
   * value keeps the calendar arithmetic out of the loop proofs.
   */
  type Stamp = Day -> string

  predicate Injective(stamp: Stamp) {
    forall a: Day, b: Day :: stamp(a) == stamp(b) ==> a == b
  }

  lemma IsoDateStamps()
    ensures Injective(IsoDate)
  {
    forall a: Day, b: Day | IsoDate(a) == IsoDate(b)
      ensures a == b
    {
      IsoDateInjective(a, b);
    }
  }

  /**
   * What the submission loops read and do not change: the configuration,
   * the date rendering, the holidays, and the status answering the `k`-th
   * POST of the run.
   */
  datatype Env = Env(cfg: Config, stamp: Stamp, holidays: set<string>, postStatus: nat -> int)

  /** The status answering the `n`-th POST of the run. */
  function Answer(env: Env, n: nat): int {
    env.postStatus(n)
  }

  /**
   * One POST on `issue` of `entry` for `day`, whose text `date` is the
   * `fecha_str` the loop compares, and the status it was answered with.
   */
  datatype Post = Post(issue: string, day: Day, date: string, entry: WorklogEntry, status: int)

  /** Only a 201 answer counts as a created worklog. */
  predicate Created(p: Post) {
    p.status == 201
  }

  function CreatedCount(posts: seq<Post>): (n: nat)
    ensures n <= |posts|
  {
    if posts == [] then 0
    else CreatedCount(posts[..|posts| - 1]) + (if Created(posts[|posts| - 1]) then 1 else 0)
  }

  lemma {:induction false} CreatedCountAppend(a: seq<Post>, b: seq<Post>)
    ensures CreatedCount(a + b) == CreatedCount(a) + CreatedCount(b)
    decreases |b|
  {
    if b != [] {
      var b' := b[..|b| - 1];
      assert (a + b)[..|a + b| - 1] == a + b';
      CreatedCountAppend(a, b');
    } else {
      assert a + b == a;
    }
  }

  /** The dates of the POSTs answered 201. */
  function CreatedDates(posts: seq<Post>): (s: set<string>)
    ensures forall x :: x in s <==> exists k :: 0 <= k < |posts| && Created(posts[k]) && posts[k].date == x
  {
    if posts == [] then {}
    else
      var init, last := posts[..|posts| - 1], posts[|posts| - 1];
      var s := CreatedDates(init) + (if Created(last) then {last.date} else {});
      assert forall x :: x in s ==> exists k :: 0 <= k < |posts| && Created(posts[k]) && posts[k].date == x by {
        forall x | x in s
          ensures exists k :: 0 <= k < |posts| && Created(posts[k]) && posts[k].date == x
        {
          if x in CreatedDates(init) {
            var k :| 0 <= k < |init| && Created(init[k]) && init[k].date == x;
            assert posts[k] == init[k];
          } else {
            assert posts[|posts| - 1] == last;
          }
        }
      }
      assert forall k :: 0 <= k < |posts| && Created(posts[k]) ==> posts[k].date in s by {
        forall k | 0 <= k < |posts| && Created(posts[k])
          ensures posts[k].date in s
        {
          if k < |init| {
            assert posts[k] == init[k];
          }
        }
      }
      s
  }

  function Days(posts: seq<Post>): (ds: seq<Day>)
    ensures |ds| == |posts| && forall k :: 0 <= k < |posts| ==> ds[k] == posts[k].day
  {
    seq(|posts|, k requires 0 <= k < |posts| => posts[k].day)
  }

  /** The days of `dates` whose text is neither a holiday nor already logged, in order. */
  function Pending(stamp: Stamp, dates: seq<Day>, holidays: set<string>, existing: set<string>): (ps: seq<Day>)
    ensures forall d :: d in ps <==> d in dates && stamp(d) !in holidays && stamp(d) !in existing
  {
    if dates == [] then []
    else
      var init, last := dates[..|dates| - 1], dates[|dates| - 1];
      assert dates == init + [last];
      Pending(stamp, init, holidays, existing)
        + (if stamp(last) !in holidays && stamp(last) !in existing then [last] else [])
  }

  /** The pending days of increasing dates are increasing: the filter keeps the order of `dates`. */
  lemma {:induction false} PendingIncreasing(stamp: Stamp, dates: seq<Day>, holidays: set<string>, existing: set<string>)
    requires Increasing(dates)
    ensures Increasing(Pending(stamp, dates, holidays, existing))
    decreases |dates|
  {
    if dates != [] {
      var init, last := dates[..|dates| - 1], dates[|dates| - 1];
      assert dates == init + [last];
      PendingIncreasing(stamp, init, holidays, existing);
      var p := Pending(stamp, init, holidays, existing);
      forall d | d in p
        ensures d < last
      {
        var i :| 0 <= i < |init| && init[i] == d;
        assert dates[i] == d;
      }
      if stamp(last) !in holidays && stamp(last) !in existing {
        IncreasingSnoc(p, last);
      } else {
        assert Pending(stamp, dates, holidays, existing) == p + [];
      }
    }
  }

  /** Appending a day later than every day of an increasing list keeps it increasing. */
  lemma IncreasingSnoc(days: seq<Day>, last: Day)
    requires Increasing(days)
    requires forall d :: d in days ==> d < last
    ensures Increasing(days + [last])
  {
    var s := days + [last];
    forall i, j | 0 <= i < j < |s|
      ensures s[i] < s[j]
    {
      if j == |days| {
        assert s[i] == days[i] && days[i] in days;
      }
    }
  }

  /**
   * What the inner loop of one issue has done so far: the POSTs made, the
   * set `existentes` as it stands, and the number of worklogs created.
   */
  datatype Batch = Batch(posts: seq<Post>, logged: set<string>, created: nat)

  /**
   * One turn of the inner loop for day `d`: skip a holiday, skip a date
   * already in `existentes`, otherwise post the day's entry; a 201 counts
   * one more created worklog and adds the date to `existentes`, any other
   * status changes nothing else. `attempt0` POSTs were made before this issue.
   */
  function Visit(env: Env, issue: string, d: Day, attempt0: nat, b: Batch): Batch
  {
    var text := env.stamp(d);
    if text in env.holidays || text in b.logged then b
    else
      var status := Answer(env, attempt0 + |b.posts|);
      var post := Post(issue, d, text, NewEntry(env.cfg, d, text), status);
      if status == 201 then Batch(b.posts + [post], b.logged + {text}, b.created + 1)
      else Batch(b.posts + [post], b.logged, b.created)
  }

  /** The inner loop of one issue over `dates`, starting from the worklogs `existing`. */
  function GroupRun(env: Env, issue: string, dates: seq<Day>, existing: set<string>, attempt0: nat): Batch
    decreases |dates|
  {
    if dates == [] then Batch([], existing, 0)
    else Visit(env, issue, dates[|dates| - 1], attempt0, GroupRun(env, issue, dates[..|dates| - 1], existing, attempt0))
  }

  /**
   * Submits one issue's days in order: skips holidays and dates already
   * logged, posts the rest, and on a 201 counts the day and records its
   * date as logged (`for fecha in dias`).
   */
  method SubmitGroup(env: Env, issue: string, dates: seq<Day>, existing: set<string>, attempt0: nat)
    returns (created: nat, posts: seq<Post>, logged: set<string>)
    ensures Batch(posts, logged, created) == GroupRun(env, issue, dates, existing, attempt0)
  {
    created, posts, logged := 0, [], existing;
    for i := 0 to |dates|
      invariant Batch(posts, logged, created) == GroupRun(env, issue, dates[..i], existing, attempt0)
    {
      var d := dates[i];
      var text := env.stamp(d);
      assert dates[..i + 1][..i] == dates[..i];
      if text in env.holidays {
        continue;  // a public holiday
      }
      if text in logged {
        continue;  // already logged on this issue
      }
      var status := Answer(env, attempt0 + |posts|);
      posts := posts + [Post(issue, d, text, NewEntry(env.cfg, d, text), status)];
      if status == 201 {
        created := created + 1;
        logged := logged + {text};
      }
    }
    assert dates[..|dates|] == dates;
  }

  /**
   * The set `existentes` ends as the worklogs found before the loop plus
   * the dates of the POSTs answered 201, and the counter counts exactly
   * those POSTs.
   */
  lemma {:induction false} GroupRunCounts(env: Env, issue: string, dates: seq<Day>, existing: set<string>, attempt0: nat)
    ensures var b := GroupRun(env, issue, dates, existing, attempt0);
      && b.logged == existing + CreatedDates(b.posts)
      && b.created == CreatedCount(b.posts)
    decreases |dates|
  {
    if dates != [] {
      var init, d := dates[..|dates| - 1], dates[|dates| - 1];
      GroupRunCounts(env, issue, init, existing, attempt0);
      var b := GroupRun(env, issue, init, existing, attempt0);
      var text := env.stamp(d);
      if text !in env.holidays && text !in b.logged {
        PostAppended(b.posts, Post(issue, d, text, NewEntry(env.cfg, d, text), Answer(env, attempt0 + |b.posts|)));
      }
    }
  }

  /**
   * The `k`-th POST of an issue's loop: on the issue, written as its day's
   * text, with the day's entry, answered by its position in the run, and
   * for neither a holiday nor a date logged before the loop.
   */
  predicate GroupPosted(env: Env, issue: string, existing: set<string>, attempt0: nat, p: Post, k: nat) {
    && p.issue == issue
    && p.date == env.stamp(p.day)
    && p.entry == NewEntry(env.cfg, p.day, p.date)
    && p.status == Answer(env, attempt0 + k)
    && p.date !in env.holidays
    && p.date !in existing
  }

  /** Every POST of an issue's loop is for one of its days and is posted as `GroupPosted` says. */
  lemma {:induction false} GroupRunPosts(env: Env, issue: string, dates: seq<Day>, existing: set<string>, attempt0: nat)
    ensures var b := GroupRun(env, issue, dates, existing, attempt0);
      && |b.posts| <= |dates|
      && forall k :: 0 <= k < |b.posts| ==>
        b.posts[k].day in dates && GroupPosted(env, issue, existing, attempt0, b.posts[k], k)
    decreases |dates|
  {
    if dates != [] {
      var init, d := dates[..|dates| - 1], dates[|dates| - 1];
      assert dates == init + [d];
      GroupRunPosts(env, issue, init, existing, attempt0);
      GroupRunCounts(env, issue, init, existing, attempt0);
      var b := GroupRun(env, issue, init, existing, attempt0);
      assert forall k :: 0 <= k < |b.posts| ==> b.posts[k].day in dates;
      VisitPosts(env, issue, d, existing, attempt0, b, dates);
    }
  }

  /** One turn keeps every POST `GroupPosted` and adds at most one, for the day visited. */
  lemma VisitPosts(env: Env, issue: string, d: Day, existing: set<string>, attempt0: nat, b: Batch, dates: seq<Day>)
    requires existing <= b.logged && d in dates
    requires forall k :: 0 <= k < |b.posts| ==> b.posts[k].day in dates && GroupPosted(env, issue, existing, attempt0, b.posts[k], k)
    ensures var b' := Visit(env, issue, d, attempt0, b);
      && |b'.posts| <= |b.posts| + 1
      && forall k :: 0 <= k < |b'.posts| ==> b'.posts[k].day in dates && GroupPosted(env, issue, existing, attempt0, b'.posts[k], k)
  {
    var b' := Visit(env, issue, d, attempt0, b);
    forall k | 0 <= k < |b'.posts|
      ensures b'.posts[k].day in dates && GroupPosted(env, issue, existing, attempt0, b'.posts[k], k)
    {
      if k < |b.posts| {
        assert b'.posts[k] == b.posts[k];
      }
    }
  }

  /**
   * A 201 is never followed by another POST of the same date on the issue:
   * adding the date to `existentes` prevents a duplicate within the run.
   */
  lemma {:induction false} GroupRunNoRepeat(env: Env, issue: string, dates: seq<Day>, existing: set<string>, attempt0: nat)
    ensures var b := GroupRun(env, issue, dates, existing, attempt0);
      forall j, k :: 0 <= j < k < |b.posts| && b.posts[j].date == b.posts[k].date ==> !Created(b.posts[j])
    decreases |dates|
  {
    if dates != [] {
      var init, d := dates[..|dates| - 1], dates[|dates| - 1];
      GroupRunNoRepeat(env, issue, init, existing, attempt0);
      GroupRunCounts(env, issue, init, existing, attempt0);
      var b := GroupRun(env, issue, init, existing, attempt0);
      assert forall j :: 0 <= j < |b.posts| && Created(b.posts[j]) ==> b.posts[j].date in b.logged;
    }
  }

  /** A day not among the earlier ones has no created POST under its text. */
  lemma FreshDayNotCreated(stamp: Stamp, posts: seq<Post>, earlier: seq<Day>, d: Day)
    requires Injective(stamp) && d !in earlier
    requires forall k :: 0 <= k < |posts| ==> posts[k].day in earlier && posts[k].date == stamp(posts[k].day)
    ensures stamp(d) !in CreatedDates(posts)
  {
  }

  /**
   * With distinct days and an injective rendering, the issue is posted
   * exactly its days that are neither holidays nor already logged, in
   * order, each once.
   */
  lemma {:induction false} GroupRunPending(env: Env, issue: string, dates: seq<Day>, existing: set<string>, attempt0: nat)
    requires Injective(env.stamp) && Distinct(dates)
    ensures var b := GroupRun(env, issue, dates, existing, attempt0);
      Days(b.posts) == Pending(env.stamp, dates, env.holidays, existing) && Distinct(Days(b.posts))
    decreases |dates|
  {
    if dates != [] {
      var init, d := dates[..|dates| - 1], dates[|dates| - 1];
      DistinctSplit(dates);
      GroupRunPending(env, issue, init, existing, attempt0);
      GroupRunPosts(env, issue, init, existing, attempt0);
      GroupRunCounts(env, issue, init, existing, attempt0);
      var b := GroupRun(env, issue, init, existing, attempt0);
      FreshDayNotCreated(env.stamp, b.posts, init, d);
      VisitPending(env, issue, d, existing, attempt0, b, Pending(env.stamp, init, env.holidays, existing));
    }
  }

  /** One turn appends the visited day exactly when it is neither a holiday nor logged before the loop. */
  lemma VisitPending(env: Env, issue: string, d: Day, existing: set<string>, attempt0: nat, b: Batch, pending: seq<Day>)
    requires b.logged == existing + CreatedDates(b.posts)
    requires env.stamp(d) !in CreatedDates(b.posts)
    requires Days(b.posts) == pending && Distinct(pending) && d !in pending
    ensures var ds := Days(Visit(env, issue, d, attempt0, b).posts);
      && ds == pending + (if env.stamp(d) !in env.holidays && env.stamp(d) !in existing then [d] else [])
      && Distinct(ds)
  {
    var text := env.stamp(d);
    if text !in env.holidays && text !in existing {
      PostAppended(b.posts, Post(issue, d, text, NewEntry(env.cfg, d, text), Answer(env, attempt0 + |b.posts|)));
    } else {
      assert pending + [] == pending;
    }
  }

  // ---------------------------------------------------------------- all issues

  /**
   * What the outer loop has done so far: every POST in order, the running
   * `dias_cargados`, and the issues whose worklogs were listed.
   */
  datatype Progress = Progress(posts: seq<Post>, created: nat, queried: seq<string>)

  /** The POSTs made on issue `g`, in order. */
  function OnIssue(posts: seq<Post>, g: string): (ps: seq<Post>)
    ensures forall p :: p in ps <==> p in posts && p.issue == g
  {
    if posts == [] then []
    else
      var init, last := posts[..|posts| - 1], posts[|posts| - 1];
      assert posts == init + [last];
      OnIssue(init, g) + (if last.issue == g then [last] else [])
  }

  /**
   * The outer loop over the issues in `order`: list the issue's worklogs
   * once, then run its inner loop; the POSTs continue the run's numbering.
   */
  function AllRun(env: Env, me: string, listing: string -> WorklogListing, order: seq<string>,
                  groups: map<string, seq<Day>>): Progress
    requires forall g :: g in order ==> g in groups
    decreases |order|
  {
    if order == [] then Progress([], 0, [])
    else
      var init, g := order[..|order| - 1], order[|order| - 1];
      assert order == init + [g];
      var p := AllRun(env, me, listing, init, groups);
      var b := GroupRun(env, g, groups[g], ExistingDates(me, listing(g)), |p.posts|);
      Progress(p.posts + b.posts, p.created + b.created, p.queried + [g])
  }

  /**
   * Submits every issue in key order: lists the issue's worklogs once,
   * then runs its inner loop (`for issue_key, dias in dias_por_issue.items()`);
   * `listing(g)` is the answer to the GET of issue `g`'s worklogs.
   */
  method SubmitAll(env: Env, me: string, listing: string -> WorklogListing, order: seq<string>,
                   groups: map<string, seq<Day>>)
    returns (created: nat, posts: seq<Post>, queried: seq<string>)
    requires forall g :: g in order ==> g in groups
    ensures Progress(posts, created, queried) == AllRun(env, me, listing, order, groups)
  {
    created, posts, queried := 0, [], [];
    for i := 0 to |order|
      invariant Progress(posts, created, queried) == AllRun(env, me, listing, order[..i], groups)
    {
      var g := order[i];
      assert order[..i + 1] == order[..i] + [g];
      assert order[..i + 1][..i] == order[..i];
      var existing := ExistingDates(me, listing(g));
      queried := queried + [g];
      var c, ps, _ := SubmitGroup(env, g, groups[g], existing, |posts|);
      posts := posts + ps;
      created := created + c;
    }
    assert order[..|order|] == order;
  }

  /** The worklogs of each issue are listed exactly once, in the dictionary's order. */
  lemma {:induction false} AllRunQueries(env: Env, me: string, listing: string -> WorklogListing, order: seq<string>,
                                         groups: map<string, seq<Day>>)
    requires forall g :: g in order ==> g in groups
    ensures AllRun(env, me, listing, order, groups).queried == order
    decreases |order|
  {
    if order != [] {
      var init := order[..|order| - 1];
      assert order == init + [order[|order| - 1]];
      AllRunQueries(env, me, listing, init, groups);
    }
  }

  /** `dias_cargados` is the number of POSTs answered 201. */
  lemma {:induction false} AllRunCounts(env: Env, me: string, listing: string -> WorklogListing, order: seq<string>,
                                        groups: map<string, seq<Day>>)
    requires forall g :: g in order ==> g in groups
    ensures var p := AllRun(env, me, listing, order, groups);
      p.created == CreatedCount(p.posts)
    decreases |order|
  {
    if order != [] {
      var init, g := order[..|order| - 1], order[|order| - 1];
      assert order == init + [g];
      AllRunCounts(env, me, listing, init, groups);
      var p := AllRun(env, me, listing, init, groups);
      GroupRunCounts(env, g, groups[g], ExistingDates(me, listing(g)), |p.posts|);
      CreatedCountAppend(p.posts, GroupRun(env, g, groups[g], ExistingDates(me, listing(g)), |p.posts|).posts);
    }
  }

  /**
   * The `k`-th POST of the run is on an issue of the dictionary, for one of
   * that issue's days, written as the day's text, with the day's entry; it
   * is answered `postStatus(k)`, and its date is neither a holiday nor one
   * the issue's listing showed as already logged by `me`.
   */
  predicate WellPosted(env: Env, me: string, listing: string -> WorklogListing, groups: map<string, seq<Day>>,
                       p: Post, k: nat)
  {
    && p.issue in groups
    && p.day in groups[p.issue]
    && p.date == env.stamp(p.day)
    && p.entry == NewEntry(env.cfg, p.day, p.date)
    && p.status == Answer(env, k)
    && p.date !in env.holidays
    && p.date !in ExistingDates(me, listing(p.issue))
  }

  /** Every POST of the run is well posted, on one of the issues visited. */
  lemma {:induction false} AllRunPosts(env: Env, me: string, listing: string -> WorklogListing, order: seq<string>,
                                       groups: map<string, seq<Day>>)
    requires forall g :: g in order ==> g in groups
    ensures var p := AllRun(env, me, listing, order, groups);
      forall k :: 0 <= k < |p.posts| ==>
        p.posts[k].issue in order && WellPosted(env, me, listing, groups, p.posts[k], k)
    decreases |order|
  {
    if order != [] {
      var init, g := order[..|order| - 1], order[|order| - 1];
      assert order == init + [g];
      AllRunPosts(env, me, listing, init, groups);
      var p := AllRun(env, me, listing, init, groups);
      var existing := ExistingDates(me, listing(g));
      GroupRunPosts(env, g, groups[g], existing, |p.posts|);
      var b := GroupRun(env, g, groups[g], existing, |p.posts|);
      var all := p.posts + b.posts;
      assert AllRun(env, me, listing, order, groups).posts == all;
      forall k | 0 <= k < |all|
        ensures all[k].issue in order && WellPosted(env, me, listing, groups, all[k], k)
      {
        if k < |p.posts| {
          assert all[k] == AllRun(env, me, listing, init, groups).posts[k];
        } else {
          var j := k - |p.posts|;
          assert all[k] == b.posts[j];
          assert GroupPosted(env, g, existing, |p.posts|, b.posts[j], j);
        }
      }
    }
  }

  /** No POST answered 201 is followed by another POST of the same date on the same issue. */
  predicate NoRepostAfterCreated(posts: seq<Post>) {
    forall j, k :: 0 <= j < k < |posts| && posts[j].issue == posts[k].issue && posts[j].date == posts[k].date
      ==> !Created(posts[j])
  }

  /**
   * A 201 on an issue is never followed by another POST of the same date on
   * that issue, when each issue is visited once.
   */
  lemma {:induction false} AllRunNoRepeat(env: Env, me: string, listing: string -> WorklogListing, order: seq<string>,
                                          groups: map<string, seq<Day>>)
    requires forall g :: g in order ==> g in groups
    requires Distinct(order)
    ensures NoRepostAfterCreated(AllRun(env, me, listing, order, groups).posts)
    decreases |order|
  {
    if order != [] {
      var init, g := order[..|order| - 1], order[|order| - 1];
      DistinctSplit(order);
      AllRunNoRepeat(env, me, listing, init, groups);
      AllRunPosts(env, me, listing, init, groups);
      var p := AllRun(env, me, listing, init, groups);
      GroupRunPosts(env, g, groups[g], ExistingDates(me, listing(g)), |p.posts|);
      GroupRunNoRepeat(env, g, groups[g], ExistingDates(me, listing(g)), |p.posts|);
      var b := GroupRun(env, g, groups[g], ExistingDates(me, listing(g)), |p.posts|);
      forall j | 0 <= j < |p.posts|
        ensures p.posts[j].issue != g
      {
        assert AllRun(env, me, listing, init, groups).posts[j].issue in init;
      }
      NoRepeatJoin(p.posts, b.posts, g);
      assert AllRun(env, me, listing, order, groups).posts == p.posts + b.posts;
    }
  }

  /**
   * Joining a run on other issues with a run on `g`, neither of which posts
   * a date again on its issue after a 201, gives a run that does not either.
   */
  lemma NoRepeatJoin(a: seq<Post>, b: seq<Post>, g: string)
    requires NoRepostAfterCreated(a) && NoRepostAfterCreated(b)
    requires forall k :: 0 <= k < |a| ==> a[k].issue != g
    requires forall k :: 0 <= k < |b| ==> b[k].issue == g
    ensures NoRepostAfterCreated(a + b)
  {
    var all := a + b;
    forall j, k | 0 <= j < k < |all| && all[j].issue == all[k].issue && all[j].date == all[k].date
      ensures !Created(all[j])
    {
      if k < |a| {
        assert all[j] == a[j] && all[k] == a[k];
      } else if j >= |a| {
        assert all[j] == b[j - |a|] && all[k] == b[k - |a|];
      }
    }
  }

  lemma {:induction false} OnIssueAppend(a: seq<Post>, b: seq<Post>, g: string)
    ensures OnIssue(a + b, g) == OnIssue(a, g) + OnIssue(b, g)
    decreases |b|
  {
    if b == [] {
      assert a + b == a;
    } else {
      var b', x := b[..|b| - 1], b[|b| - 1];
      assert b == b' + [x];
      assert a + b == (a + b') + [x];
      OnIssueAppend(a, b', g);
      OnIssueSnoc(a + b', x, g);
      OnIssueSnoc(b', x, g);
      Regroup(OnIssue(a, g), OnIssue(b', g), if x.issue == g then [x] else []);
    }
  }

  /** Concatenation regroups freely. */
  lemma Regroup<T>(x: seq<T>, y: seq<T>, z: seq<T>)
    ensures (x + y) + z == x + (y + z)
  {
  }

  /** One more POST at the end is kept exactly when it is on the issue. */
  lemma OnIssueSnoc(posts: seq<Post>, x: Post, g: string)
    ensures OnIssue(posts + [x], g) == OnIssue(posts, g) + (if x.issue == g then [x] else [])
  {
    var ps := posts + [x];
    assert ps[..|ps| - 1] == posts;
  }

  /** A run of POSTs all on one issue is kept whole on it and dropped on any other. */
  lemma {:induction false} OnIssueUniform(posts: seq<Post>, g: string, h: string)
    requires forall k :: 0 <= k < |posts| ==> posts[k].issue == g
    ensures OnIssue(posts, h) == if h == g then posts else []
    decreases |posts|
  {
    if posts != [] {
      var init := posts[..|posts| - 1];
      assert posts == init + [posts[|posts| - 1]];
      OnIssueUniform(init, g, h);
    }
  }

  /**
   * With each issue visited once, distinct days per issue and an injective
   * rendering, the POSTs on each issue are exactly its days that are
   * neither holidays nor already logged, in order, each once; an issue
   * outside the dictionary gets none.
   */
  lemma {:induction false} AllRunPending(env: Env, me: string, listing: string -> WorklogListing, order: seq<string>,
                                         groups: map<string, seq<Day>>, h: string)
    requires forall g :: g in order ==> g in groups
    requires Injective(env.stamp) && Distinct(order)
    requires forall g :: g in order ==> Distinct(groups[g])
    ensures var p := AllRun(env, me, listing, order, groups);
      && (h in order ==>
            && Days(OnIssue(p.posts, h)) == Pending(env.stamp, groups[h], env.holidays, ExistingDates(me, listing(h)))
            && Distinct(Days(OnIssue(p.posts, h))))
      && (h !in order ==> OnIssue(p.posts, h) == [])
    decreases |order|
  {
    if order != [] {
      var init, g := order[..|order| - 1], order[|order| - 1];
      DistinctSplit(order);
      AllRunPending(env, me, listing, init, groups, h);
      var p := AllRun(env, me, listing, init, groups);
      var existing := ExistingDates(me, listing(g));
      GroupRunPosts(env, g, groups[g], existing, |p.posts|);
      var b := GroupRun(env, g, groups[g], existing, |p.posts|);
      assert AllRun(env, me, listing, order, groups).posts == p.posts + b.posts;
      OnIssueAppend(p.posts, b.posts, h);
      OnIssueUniform(b.posts, g, h);
      if h == g {
        GroupRunPending(env, g, groups[g], existing, |p.posts|);
        assert OnIssue(p.posts, h) == [];
        assert OnIssue(p.posts + b.posts, h) == b.posts;
      } else {
        assert OnIssue(p.posts + b.posts, h) == OnIssue(p.posts, h);
        assert h in order <==> h in init;
      }
    }
  }

  /**
   * When no day belongs to two issues' groups, no day is posted twice in
   * the whole run, whatever the answers.
   */
  lemma {:induction false} AllRunDistinctDays(env: Env, me: string, listing: string -> WorklogListing, order: seq<string>,
                                              groups: map<string, seq<Day>>)
    requires forall g :: g in order ==> g in groups
    requires Injective(env.stamp) && Distinct(order)
    requires forall g :: g in order ==> Distinct(groups[g])
    requires forall g, h, d :: g in order && h in order && d in groups[g] && d in groups[h] ==> g == h
    ensures Distinct(Days(AllRun(env, me, listing, order, groups).posts))
    decreases |order|
  {
    if order != [] {
      var init, g := order[..|order| - 1], order[|order| - 1];
      DistinctSplit(order);
      AllRunDistinctDays(env, me, listing, init, groups);
      AllRunPosts(env, me, listing, init, groups);
      var p := AllRun(env, me, listing, init, groups);
      var existing := ExistingDates(me, listing(g));
      GroupRunPosts(env, g, groups[g], existing, |p.posts|);
      GroupRunPending(env, g, groups[g], existing, |p.posts|);
      var b := GroupRun(env, g, groups[g], existing, |p.posts|);
      var all := p.posts + b.posts;
      assert AllRun(env, me, listing, order, groups).posts == all;
      forall j | 0 <= j < |p.posts|
        ensures all[j] == p.posts[j] && all[j].issue in init && all[j].day in groups[all[j].issue]
      {
        assert 0 <= j < |AllRun(env, me, listing, init, groups).posts|;
        assert AllRun(env, me, listing, init, groups).posts[j].issue in init;
      }
      forall k | |p.posts| <= k < |all|
        ensures all[k] == b.posts[k - |p.posts|] && all[k].day in groups[g]
      {
        assert b.posts[k - |p.posts|].day in groups[g];
      }
      forall j, k | 0 <= j < k < |all|
        ensures Days(all)[j] != Days(all)[k]
      {
        if k < |p.posts| {
          assert Days(p.posts)[j] == all[j].day && Days(p.posts)[k] == all[k].day;
        } else if j >= |p.posts| {
          assert Days(b.posts)[j - |p.posts|] == all[j].day && Days(b.posts)[k - |p.posts|] == all[k].day;
        } else {
          assert all[j].issue != g;
        }
      }
    }
  }

  /** A sequence without repeats drawn from the elements of `t` is no longer than `t`. */
  lemma {:induction false} DistinctWithin<T>(s: seq<T>, t: seq<T>)
    requires Distinct(s)
    requires forall i :: 0 <= i < |s| ==> s[i] in t
    ensures |s| <= |t|
  {
    DistinctWithinSet(s, set x | x in t);
    SetOfSeqBound(t);
  }

  lemma {:induction false} DistinctWithinSet<T>(s: seq<T>, u: set<T>)
    requires Distinct(s)
    requires forall i :: 0 <= i < |s| ==> s[i] in u
    ensures |s| <= |u|
    decreases |s|
  {
    if s != [] {
      var init, x := s[..|s| - 1], s[|s| - 1];
      DistinctSplit(s);
      assert forall i :: 0 <= i < |init| ==> init[i] == s[i];
      DistinctWithinSet(init, u - {x});
    }
  }

  lemma {:induction false} SetOfSeqBound<T>(t: seq<T>)
    ensures |set x | x in t| <= |t|
    decreases |t|
  {
    if t != [] {
      var init := t[..|t| - 1];
      assert t == init + [t[|t| - 1]];
      assert (set x | x in t) == (set x | x in init) + {t[|t| - 1]};
      SetOfSeqBound(init);
    }
  }

  /** The POSTs regrouped issue by issue, in the order of `order`. */
  function ByIssue(posts: seq<Post>, order: seq<string>): seq<Post>
    decreases |order|
  {
    if order == [] then []
    else ByIssue(posts, order[..|order| - 1]) + OnIssue(posts, order[|order| - 1])
  }

  /** Regrouping sees only the POSTs on the issues it regroups. */
  lemma {:induction false} ByIssueOthers(a: seq<Post>, b: seq<Post>, order: seq<string>)
    requires forall k :: 0 <= k < |b| ==> b[k].issue !in order
    ensures ByIssue(a + b, order) == ByIssue(a, order)
    decreases |order|
  {
    if order != [] {
      var init, g := order[..|order| - 1], order[|order| - 1];
      ByIssueOthers(a, b, init);
      OnIssueAppend(a, b, g);
      OnIssueNone(b, g);
    }
  }

  /** POSTs none of which is on `g` leave nothing on `g`. */
  lemma OnIssueNone(posts: seq<Post>, g: string)
    requires forall k :: 0 <= k < |posts| ==> posts[k].issue != g
    ensures OnIssue(posts, g) == []
  {
  }

  /**
   * The run POSTs every day of the first key before any day of the next:
   * its POSTs are those of each key in turn.
   */
  lemma {:induction false} AllRunIssueOrder(env: Env, me: string, listing: string -> WorklogListing, order: seq<string>,
                                            groups: map<string, seq<Day>>)
    requires forall g :: g in order ==> g in groups
    requires Distinct(order)
    ensures var p := AllRun(env, me, listing, order, groups);
      p.posts == ByIssue(p.posts, order)
    decreases |order|
  {
    if order != [] {
      var init, g := order[..|order| - 1], order[|order| - 1];
      DistinctSplit(order);
      AllRunIssueOrder(env, me, listing, init, groups);
      AllRunPosts(env, me, listing, init, groups);
      var p := AllRun(env, me, listing, init, groups);
      var existing := ExistingDates(me, listing(g));
      GroupRunPosts(env, g, groups[g], existing, |p.posts|);
      var b := GroupRun(env, g, groups[g], existing, |p.posts|);
      assert AllRun(env, me, listing, order, groups).posts == p.posts + b.posts;
      forall j | 0 <= j < |p.posts|
        ensures p.posts[j].issue in init
      {
        assert AllRun(env, me, listing, init, groups).posts[j].issue in init;
      }
      ByIssueStep(p.posts, b.posts, init, g);
    }
  }

  /** Appending a run of POSTs on a new issue extends the regrouping by that issue. */
  lemma ByIssueStep(a: seq<Post>, b: seq<Post>, init: seq<string>, g: string)
    requires g !in init
    requires forall k :: 0 <= k < |a| ==> a[k].issue in init
    requires forall k :: 0 <= k < |b| ==> b[k].issue == g
    requires a == ByIssue(a, init)
    ensures a + b == ByIssue(a + b, init + [g])
  {
    var order := init + [g];
    assert order[..|order| - 1] == init;
    ByIssueOthers(a, b, init);
    OnIssueAppend(a, b, g);
    OnIssueNone(a, g);
    OnIssueUniform(b, g, g);
    calc {
      ByIssue(a + b, order);
      ByIssue(a + b, init) + OnIssue(a + b, g);
      ByIssue(a, init) + (OnIssue(a, g) + OnIssue(b, g));
      a + ([] + b);
    }
    assert [] + b == b;
  }

  /** Dropping the last element of a sequence without repeats leaves one without repeats that lacks it. */
  lemma DistinctSplit<T>(s: seq<T>)
    requires s != [] && Distinct(s)
    ensures Distinct(s[..|s| - 1]) && s[|s| - 1] !in s[..|s| - 1]
    ensures s == s[..|s| - 1] + [s[|s| - 1]]
  {
    var init := s[..|s| - 1];
    forall i | 0 <= i < |init|
      ensures init[i] != s[|s| - 1]
    {
      assert s[i] == init[i];
    }
  }

  lemma PostAppended(posts: seq<Post>, post: Post)
    ensures CreatedCount(posts + [post]) == CreatedCount(posts) + (if Created(post) then 1 else 0)
    ensures CreatedDates(posts + [post]) == CreatedDates(posts) + (if Created(post) then {post.date} else {})
    ensures Days(posts + [post]) == Days(posts) + [post.day]
    ensures post.day !in Days(posts) && Distinct(Days(posts)) ==> Distinct(Days(posts + [post]))
  {
    assert (posts + [post])[..|posts|] == posts;
  }
}
