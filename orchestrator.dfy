/**
 * `registrar_horas`: the whole weekly run. The identity lookup gates it;
 * then the week is computed from "today", the holidays of the week's years
 * are loaded, the days are grouped by issue and each group is submitted.
 * Every HTTP answer is an input: the `/myself` reply, the holiday reply per
 * year, the worklog listing per issue and the status per POST.
 */
module Orchestrator {
  import opened Wrappers
  import opened Calendar
  import opened IssueRouting
  import opened Tracker
  import opened Week
  import opened Submission

  /** The resolver the grouping uses: a day's issue as its configured month, year or default gives it (`get_issue_for_date`). */
  function Router(cfg: Config): Resolver {
    (d: Day) => IssueForDate(cfg, d)
  }

  /** The holidays of the years `years`: the union of the holiday dates of every year's reply. */
  function HolidaysOf(years: seq<int>, lookup: int -> HolidayReply): set<string>
  {
    if years == [] then {}
    else HolidaysOf(years[..|years| - 1], lookup) + HolidayDates(lookup(years[|years| - 1]))
  }

  /** A date is a holiday of the run exactly when some queried year's reply lists it. */
  lemma {:induction false} HolidaysOfUnion(years: seq<int>, lookup: int -> HolidayReply, x: string)
    ensures x in HolidaysOf(years, lookup) <==> exists i :: 0 <= i < |years| && x in HolidayDates(lookup(years[i]))
    decreases |years|
  {
    if years != [] {
      var init, last := years[..|years| - 1], years[|years| - 1];
      HolidaysOfUnion(init, lookup, x);
      if x in HolidaysOf(init, lookup) {
        var i :| 0 <= i < |init| && x in HolidayDates(lookup(init[i]));
        assert years[i] == init[i];
      } else if x in HolidayDates(lookup(last)) {
        assert years[|years| - 1] == last;
      } else {
        forall i | 0 <= i < |years|
          ensures x !in HolidayDates(lookup(years[i]))
        {
          if i < |init| {
            assert years[i] == init[i];
          }
        }
      }
    }
  }

  /** The run's holidays, gathered one year at a time (`feriados |= ...`). */
  method LoadHolidays(years: seq<int>, lookup: int -> HolidayReply) returns (holidays: set<string>)
    ensures holidays == HolidaysOf(years, lookup)
  {
    holidays := {};
    for i := 0 to |years|
      invariant holidays == HolidaysOf(years[..i], lookup)
    {
      assert years[..i + 1][..i] == years[..i];
      holidays := holidays + HolidayDates(lookup(years[i]));
    }
    assert years[..|years|] == years;
  }

  /** What a run did: it stopped at the identity check, or it went through the week. */
  datatype Outcome =
    | Aborted(reason: AbortReason)
    | Completed(who: Identity, monday: Day, friday: Day, holidayYears: seq<int>, holidays: set<string>,
                queried: seq<string>, posts: seq<Post>, created: nat)

  /**
   * A POST of the run, as the week promises it: on a weekday of the week,
   * on the issue `resolve` gives that day, with the day's text as `stamp`
   * renders it and the day's entry, answered by its own position among the
   * POSTs, and neither on a holiday nor on a date the issue already had a
   * worklog of `me` for. The run passes `Router(cfg)` and `IsoDate`.
   */
  predicate Sound(resolve: Resolver, stamp: Stamp, cfg: Config, me: string, days: seq<Day>, holidays: set<string>,
                  listing: string -> WorklogListing, postStatus: nat -> int, p: Post, k: nat)
  {
    && p.day in days
    && Weekday(p.day) < 5
    && resolve(p.day) == Some(p.issue)
    && p.date == stamp(p.day)
    && p.entry == NewEntry(cfg, p.day, p.date)
    && p.status == postStatus(k)
    && p.date !in holidays
    && p.date !in ExistingDates(me, listing(p.issue))
  }

  /** Every POST of the run is `Sound` at its position. */
  predicate AllSound(resolve: Resolver, stamp: Stamp, cfg: Config, me: string, days: seq<Day>, holidays: set<string>,
                     listing: string -> WorklogListing, postStatus: nat -> int, posts: seq<Post>)
  {
    forall k :: 0 <= k < |posts| ==> Sound(resolve, stamp, cfg, me, days, holidays, listing, postStatus, posts[k], k)
  }

  /**
   * Each key receives exactly its days of the week that are neither
   * holidays nor already logged by `me`, in increasing order, so each
   * once; any other issue receives nothing.
   */
  ghost predicate EachIssuePending(resolve: Resolver, stamp: Stamp, me: string, days: seq<Day>, holidays: set<string>,
                                   listing: string -> WorklogListing, queried: seq<string>, posts: seq<Post>)
  {
    && (forall g :: g !in queried ==> OnIssue(posts, g) == [])
    && (forall g :: g in queried ==>
          && Days(OnIssue(posts, g)) == Pending(stamp, DatesFor(resolve, days, g), holidays, ExistingDates(me, listing(g)))
          && Increasing(Days(OnIssue(posts, g))))
  }

  /** The groups the run builds: each key of the week with its days. */
  function Groups(resolve: Resolver, days: seq<Day>): map<string, seq<Day>> {
    map g | g in IssueOrder(resolve, days) :: DatesFor(resolve, days, g)
  }

  /**
   * The week the run goes through once `who` is known: Monday of the week
   * holding `today`, its Friday, the years spanned, their holidays, the
   * days grouped by issue, and every issue's submission in key order.
   */
  function WeekRun(cfg: Config, who: Identity, today: Day, holidayLookup: int -> HolidayReply,
                   listing: string -> WorklogListing, postStatus: nat -> int): Outcome
  {
    var monday := WeekStart(today);
    var years := WeekYears(monday);
    var days := WorkWeek(monday);
    var order := IssueOrder(Router(cfg), days);
    var env := Env(cfg, IsoDate, HolidaysOf(years, holidayLookup), postStatus);
    var p := AllRun(env, who.accountId, listing, order, Groups(Router(cfg), days));
    Completed(who, monday, Friday(monday), years, env.holidays, p.queried, p.posts, p.created)
  }

  /**
   * The run. `today` stands for `datetime.now()`; `myself`, `holidayLookup`,
   * `listing` and `postStatus` stand for the answers of the HTTP calls. It
   * stops at the identity check, or goes through the week as `WeekRun`
   * describes; `WeekRunFacts` states what that run promises.
   */
  method RegisterHours(cfg: Config, today: Day, myself: MyselfReply, holidayLookup: int -> HolidayReply,
                       listing: string -> WorklogListing, postStatus: nat -> int)
    returns (outcome: Outcome)
    ensures IdentityGate(myself).Abort? ==> outcome == Aborted(IdentityGate(myself).reason)
    ensures IdentityGate(myself).Proceed? ==>
      outcome == WeekRun(cfg, IdentityGate(myself).who, today, holidayLookup, listing, postStatus)
  {
    var gate := IdentityGate(myself);
    if gate.Abort? {
      return Aborted(gate.reason);
    }
    var who := gate.who;
    var monday := WeekStart(today);
    var friday := Friday(monday);
    var years := WeekYears(monday);
    var holidays := LoadHolidays(years, holidayLookup);
    var days := WorkWeek(monday);
    var order, groups := GroupByIssue(Router(cfg), days);
    assert groups == Groups(Router(cfg), days);
    var env := Env(cfg, IsoDate, holidays, postStatus);
    var created, posts, queried := SubmitAll(env, who.accountId, listing, order, groups);
    outcome := Completed(who, monday, friday, years, holidays, queried, posts, created);
  }

  /**
   * What a run that gets through the identity check promises: the week
   * starting on the Monday of `today`; the holidays of exactly its years;
   * one worklog listing per key, in key order; POSTs that are all `Sound`,
   * key by key, each key's exactly its pending days; no repeat after a 201;
   * the count equal to the 201 answers; and at most 5 POSTs, one per day.
   */
  lemma WeekRunFacts(cfg: Config, who: Identity, today: Day, holidayLookup: int -> HolidayReply,
                     listing: string -> WorklogListing, postStatus: nat -> int)
    ensures var o := WeekRun(cfg, who, today, holidayLookup, listing, postStatus);
      && o.Completed?
      && o.who == who
      && o.monday == WeekStart(today)
      && o.friday == Friday(o.monday)
      && o.holidayYears == WeekYears(o.monday)
      && (forall x :: x in o.holidays <==>
            exists i :: 0 <= i < |o.holidayYears| && x in HolidayDates(holidayLookup(o.holidayYears[i])))
      && o.queried == IssueOrder(Router(cfg), WorkWeek(o.monday))
      && o.created == CreatedCount(o.posts)
      && AllSound(Router(cfg), IsoDate, cfg, who.accountId, WorkWeek(o.monday), o.holidays, listing, postStatus, o.posts)
      && NoRepostAfterCreated(o.posts)
      && EachIssuePending(Router(cfg), IsoDate, who.accountId, WorkWeek(o.monday), o.holidays, listing, o.queried, o.posts)
      && o.posts == ByIssue(o.posts, o.queried)
      && Distinct(Days(o.posts))
      && o.created <= |o.posts| <= 5
  {
    var monday := WeekStart(today);
    var years := WeekYears(monday);
    var days := WorkWeek(monday);
    var order := IssueOrder(Router(cfg), days);
    var groups := Groups(Router(cfg), days);
    var env := Env(cfg, IsoDate, HolidaysOf(years, holidayLookup), postStatus);
    var p := AllRun(env, who.accountId, listing, order, groups);
    forall x
      ensures x in env.holidays <==> exists i :: 0 <= i < |years| && x in HolidayDates(holidayLookup(years[i]))
    {
      HolidaysOfUnion(years, holidayLookup, x);
    }
    assert Increasing(days);
    RunFacts(cfg, env, who.accountId, listing, days, order, groups, p.created, p.posts, p.queried);
  }

  /** What the submission of the week's grouping gives, in terms of the run's own values. */
  lemma RunFacts(cfg: Config, env: Env, me: string, listing: string -> WorklogListing, days: seq<Day>,
                 order: seq<string>, groups: map<string, seq<Day>>, created: nat, posts: seq<Post>, queried: seq<string>)
    requires env.cfg == cfg && env.stamp == IsoDate
    requires Increasing(days)
    requires order == IssueOrder(Router(cfg), days)
    requires forall g :: g in groups <==> g in order
    requires forall g :: g in groups ==> groups[g] == DatesFor(Router(cfg), days, g)
    requires Progress(posts, created, queried) == AllRun(env, me, listing, order, groups)
    ensures queried == order
    ensures created == CreatedCount(posts)
    ensures AllSound(Router(cfg), IsoDate, cfg, me, days, env.holidays, listing, env.postStatus, posts)
    ensures NoRepostAfterCreated(posts)
    ensures EachIssuePending(Router(cfg), IsoDate, me, days, env.holidays, listing, queried, posts)
    ensures posts == ByIssue(posts, queried)
    ensures Distinct(Days(posts)) && created <= |posts| <= |days|
  {
    IsoDateStamps();
    AllRunQueries(env, me, listing, order, groups);
    AllRunCounts(env, me, listing, order, groups);
    AllRunIssueOrder(env, me, listing, order, groups);
    WeekSound(Router(cfg), env, me, listing, days, order, groups);
    WeekNoRepost(env, me, listing, order, groups);
    WeekPending(Router(cfg), env, me, listing, days, order, groups);
    WeekBound(Router(cfg), env, me, listing, days, order, groups);
  }

  /** Every POST of the week's run is on a day of the week, as configured, and skips holidays and logged dates. */
  lemma WeekSound(resolve: Resolver, env: Env, me: string, listing: string -> WorklogListing, days: seq<Day>,
                  order: seq<string>, groups: map<string, seq<Day>>)
    requires forall g :: g in groups <==> g in order
    requires forall g :: g in groups ==> groups[g] == DatesFor(resolve, days, g)
    ensures AllSound(resolve, env.stamp, env.cfg, me, days, env.holidays, listing, env.postStatus,
                     AllRun(env, me, listing, order, groups).posts)
  {
    assert forall g :: g in order ==> g in groups;
    AllRunPosts(env, me, listing, order, groups);
    var p := AllRun(env, me, listing, order, groups);
    assert forall k :: 0 <= k < |p.posts| ==> p.posts[k].issue in order;
    forall k | 0 <= k < |p.posts|
      ensures Sound(resolve, env.stamp, env.cfg, me, days, env.holidays, listing, env.postStatus, p.posts[k], k)
    {
      var post := AllRun(env, me, listing, order, groups).posts[k];
      assert post.issue in order && WellPosted(env, me, listing, groups, post, k);
      assert Resolved(resolve, post.day) == Some(post.issue);
    }
  }

  /** With each key visited once, a date answered 201 on an issue is never posted on it again. */
  lemma WeekNoRepost(env: Env, me: string, listing: string -> WorklogListing,
                     order: seq<string>, groups: map<string, seq<Day>>)
    requires forall g :: g in order ==> g in groups
    requires Distinct(order)
    ensures NoRepostAfterCreated(AllRun(env, me, listing, order, groups).posts)
  {
    AllRunNoRepeat(env, me, listing, order, groups);
  }

  /** Each key of the week's grouping receives exactly its pending days. */
  lemma WeekPending(resolve: Resolver, env: Env, me: string, listing: string -> WorklogListing, days: seq<Day>,
                    order: seq<string>, groups: map<string, seq<Day>>)
    requires Injective(env.stamp)
    requires Increasing(days)
    requires Distinct(order)
    requires forall g :: g in groups <==> g in order
    requires forall g :: g in groups ==> groups[g] == DatesFor(resolve, days, g)
    ensures EachIssuePending(resolve, env.stamp, me, days, env.holidays, listing, order,
                             AllRun(env, me, listing, order, groups).posts)
  {
    var p := AllRun(env, me, listing, order, groups);
    forall g | g in order
      ensures Distinct(groups[g])
    {
      IncreasingDistinct(groups[g]);
    }
    forall g
      ensures g !in order ==> OnIssue(p.posts, g) == []
      ensures g in order ==>
        && Days(OnIssue(p.posts, g)) == Pending(env.stamp, DatesFor(resolve, days, g), env.holidays, ExistingDates(me, listing(g)))
        && Increasing(Days(OnIssue(p.posts, g)))
    {
      AllRunPending(env, me, listing, order, groups, g);
      if g in order {
        PendingIncreasing(env.stamp, groups[g], env.holidays, ExistingDates(me, listing(g)));
      }
    }
  }

  /**
   * Each day of the week is posted at most once in the whole run, so there
   * are at most as many POSTs, and created worklogs, as days.
   */
  lemma WeekBound(resolve: Resolver, env: Env, me: string, listing: string -> WorklogListing, days: seq<Day>,
                  order: seq<string>, groups: map<string, seq<Day>>)
    requires Injective(env.stamp)
    requires Increasing(days)
    requires order == IssueOrder(resolve, days)
    requires forall g :: g in groups <==> g in order
    requires forall g :: g in groups ==> groups[g] == DatesFor(resolve, days, g)
    ensures var p := AllRun(env, me, listing, order, groups);
      && Distinct(Days(p.posts))
      && p.created <= |p.posts| <= |days|
  {
    var p := AllRun(env, me, listing, order, groups);
    forall g | g in order
      ensures Distinct(groups[g])
    {
      IncreasingDistinct(groups[g]);
    }
    forall g, h, d | g in order && h in order && d in groups[g] && d in groups[h]
      ensures g == h
    {
      assert Resolved(resolve, d) == Some(g) && Resolved(resolve, d) == Some(h);
    }
    AllRunDistinctDays(env, me, listing, order, groups);
    AllRunCounts(env, me, listing, order, groups);
    AllRunPosts(env, me, listing, order, groups);
    forall k | 0 <= k < |p.posts|
      ensures Days(p.posts)[k] in days
    {
      assert WellPosted(env, me, listing, groups, p.posts[k], k);
    }
    DistinctWithin(Days(p.posts), days);
  }

  /** Strictly increasing days have no repeats. */
  lemma IncreasingDistinct(days: seq<Day>)
    requires Increasing(days)
    ensures Distinct(days)
  {
  }
}
