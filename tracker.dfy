/**
 * What the run learns from its HTTP calls, as structured replies, and the
 * pure extraction of identity, holiday dates and already-logged dates from
 * them.
 */
module Tracker {
  import opened Wrappers
  import opened IssueRouting

  // ---------------------------------------------------------------- identity

  /** Reply of `GET /rest/api/3/myself`: status and, on 200, the decoded fields. */
  datatype MyselfReply = MyselfReply(status: int, accountId: Option<string>, displayName: Option<string>)

  /** Why a run stops before any holiday or worklog call. */
  datatype AbortReason =
    | LookupRaised      // non-200: the lookup returns None and unpacking it raises TypeError
    | MissingAccountId  // 200, but `accountId` absent or empty

  datatype Identity = Identity(accountId: string, displayName: Option<string>)

  datatype Gate = Proceed(who: Identity) | Abort(reason: AbortReason)

  /**
   * The identity lookup followed by its guard: a run proceeds exactly when
   * the lookup answered 200 with a non-empty `accountId`.
   */
  function IdentityGate(reply: MyselfReply): (g: Gate)
    ensures g.Proceed? <==> reply.status == 200 && Truthy(reply.accountId)
    ensures g.Proceed? ==>
      && g.who.accountId == reply.accountId.value
      && g.who.accountId != ""
      && g.who.displayName == reply.displayName
    ensures reply.status != 200 ==> g == Abort(LookupRaised)
    ensures reply.status == 200 && !Truthy(reply.accountId) ==> g == Abort(MissingAccountId)
  {
    if reply.status != 200 then Abort(LookupRaised)
    else if !Truthy(reply.accountId) then Abort(MissingAccountId)
    else Proceed(Identity(reply.accountId.value, reply.displayName))
  }

  // ---------------------------------------------------------------- holidays

  /**
   * Outcome of the public-holiday request for one year: the request raised
   * (network error, timeout, undecodable body), or it answered with a status
   * and the `date` field of each record (`None` where a record lacks it).
   */
  datatype HolidayReply = Raised | Answered(status: int, dates: seq<Option<string>>)

  predicate AllDated(records: seq<Option<string>>) {
    forall i :: 0 <= i < |records| ==> records[i].Some?
  }

  function DateSet(records: seq<Option<string>>): (s: set<string>)
    requires AllDated(records)
    ensures forall x :: x in s <==> exists i :: 0 <= i < |records| && records[i] == Some(x)
  {
    if records == [] then {}
    else
      var init := records[..|records| - 1];
      assert forall i :: 0 <= i < |init| ==> init[i] == records[i];
      DateSet(init) + {records[|records| - 1].value}
  }

  /**
   * The holiday dates of one year. Anything but a 200 answer whose every
   * record has a date yields the empty set (a missing `date` raises inside
   * the guarded block and is caught like a network error).
   */
  function HolidayDates(reply: HolidayReply): (s: set<string>)
    ensures forall x :: x in s <==>
      reply.Answered? && reply.status == 200 && AllDated(reply.dates) && Some(x) in reply.dates
  {
    if reply.Raised? || reply.status != 200 || !AllDated(reply.dates) then {}
    else DateSet(reply.dates)
  }

  // ---------------------------------------------------------------- worklogs

  /** One record of an issue's worklog list. */
  datatype Worklog = Worklog(started: string, authorAccountId: Option<string>)

  /** Reply of `GET /rest/api/3/issue/{key}/worklog`; a missing `worklogs` field is the empty list. */
  datatype WorklogListing = WorklogListing(status: int, worklogs: seq<Worklog>)

  /** `started[:10]`: Python slicing keeps a shorter string whole. */
  function StartedDay(started: string): (s: string)
    ensures |s| == if |started| < 10 then |started| else 10
    ensures s == started[..|s|]
  {
    if |started| <= 10 then started else started[..10]
  }

  function MyDates(me: string, ws: seq<Worklog>): (s: set<string>)
    ensures forall x :: x in s <==>
      exists i :: 0 <= i < |ws| && ws[i].authorAccountId == Some(me) && StartedDay(ws[i].started) == x
  {
    if ws == [] then {}
    else
      var init, last := ws[..|ws| - 1], ws[|ws| - 1];
      assert forall i :: 0 <= i < |init| ==> init[i] == ws[i];
      MyDates(me, init) + (if last.authorAccountId == Some(me) then {StartedDay(last.started)} else {})
  }

  /**
   * The dates `me` has already logged on an issue. A 401 (expired session)
   * and every other non-200 status give the empty set.
   */
  function ExistingDates(me: string, listing: WorklogListing): (s: set<string>)
    ensures forall x :: x in s <==>
      && listing.status == 200
      && exists i :: 0 <= i < |listing.worklogs|
           && listing.worklogs[i].authorAccountId == Some(me)
           && StartedDay(listing.worklogs[i].started) == x
  {
    if listing.status == 401 then {}
    else if listing.status != 200 then {}
    else MyDates(me, listing.worklogs)
  }

  /** Worklogs by anyone else never change what counts as already logged. */
  lemma {:induction false} OthersDoNotCount(me: string, ws: seq<Worklog>, other: Worklog)
    requires other.authorAccountId != Some(me)
    ensures MyDates(me, ws + [other]) == MyDates(me, ws)
  {
    assert (ws + [other])[..|ws|] == ws;
  }
}
