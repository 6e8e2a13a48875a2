/**
 * Which issue a day's hours are logged against: the monthly entry of the
 * issue mapping, else its yearly entry, else the default issue, where, as
 * with Python's `or`, a missing or empty value falls through to the next
 * choice.
 */
module IssueRouting {
  import opened Wrappers
  import opened Calendar
  import opened Digits

  /**
   * The run's configuration, read once from the environment. `issueMap` is
   * the already-decoded mapping JSON: `None` when the variable is unset or
   * empty, is not valid JSON, or does not decode to an object. The two
   * durations are whole minutes.
   */
  datatype Config = Config(
    defaultIssue: Option<string>,
    issueMap: Option<map<string, string>>,
    normalMinutes: nat,
    reducedMinutes: nat,
    comment: string)

  /** Python truthiness of an optional string: present and non-empty. */
  predicate Truthy(v: Option<string>) {
    v.Some? && v.value != ""
  }

  /** Python's `a or b` on optional strings. */
  function Or(a: Option<string>, b: Option<string>): Option<string> {
    if Truthy(a) then a else b
  }

  /** The value stored under `key`, or none when the key is absent (`dict.get(key)`). */
  function Get(m: map<string, string>, key: string): Option<string> {
    if key in m then Some(m[key]) else None
  }

  /** The mapping the run works with: a failed or non-object decode is the empty mapping. */
  function IssueMap(cfg: Config): (m: map<string, string>)
    ensures cfg.issueMap.None? ==> m == map[]
    ensures cfg.issueMap.Some? ==> m == cfg.issueMap.value
  {
    cfg.issueMap.GetOr(map[])
  }

  /**
   * The issue of a civil date, `None` when the chosen value is falsy (the
   * caller then skips the date).
   */
  function IssueForCivil(cfg: Config, c: Civil): (r: Option<string>)
    requires ValidCivil(c)
    ensures r.Some? ==> r.value != ""
    ensures var m, km, ky := IssueMap(cfg), MonthKey(c.year, c.month), YearKey(c.year);
      && (km in m && m[km] != "" ==> r == Some(m[km]))
      && (!(km in m && m[km] != "") && ky in m && m[ky] != "" ==> r == Some(m[ky]))
      && (!(km in m && m[km] != "") && !(ky in m && m[ky] != "") ==>
            r == (if Truthy(cfg.defaultIssue) then cfg.defaultIssue else None))
  {
    var m := IssueMap(cfg);
    var chosen := Or(Or(Get(m, MonthKey(c.year, c.month)), Get(m, YearKey(c.year))), cfg.defaultIssue);
    if Truthy(chosen) then chosen else None
  }

  function IssueForDate(cfg: Config, d: Day): Option<string> {
    IssueForCivil(cfg, ToCivil(d))
  }

  /** Whatever the mapping holds for other periods does not affect a date. */
  lemma OnlyOwnPeriodsMatter(cfg: Config, c: Civil, key: string, issue: string)
    requires ValidCivil(c) && cfg.issueMap.Some?
    requires key != MonthKey(c.year, c.month) && key != YearKey(c.year)
    ensures IssueForCivil(cfg.(issueMap := Some(cfg.issueMap.value[key := issue])), c)
         == IssueForCivil(cfg, c)
  {
  }

  /** An undecodable mapping routes every date exactly like an empty one. */
  lemma InvalidMappingIsEmpty(cfg: Config, c: Civil)
    requires ValidCivil(c)
    ensures IssueForCivil(cfg.(issueMap := None), c) == IssueForCivil(cfg.(issueMap := Some(map[])), c)
  {
  }

  /** The yearly keys the worked example below uses, spelled out digit by digit. */
  lemma YearKeysOfExample()
    ensures YearKey(2025) == "2025" && YearKey(2024) == "2024"
  {
    assert Padded(2, 1) == "2";
    assert Padded(20, 2) == "20";
    assert Padded(202, 3) == "202";
  }

  /** The two-digit month fields the worked example below uses. */
  lemma MonthDigitsOfExample()
    ensures Padded(12, 2) == "12" && Padded(11, 2) == "11"
  {
    assert Padded(1, 1) == "1";
  }

  /** The monthly keys the worked example below uses. */
  lemma MonthKeysOfExample()
    ensures MonthKey(2025, 12) == "2025-12" && MonthKey(2025, 11) == "2025-11"
  {
    YearKeysOfExample();
    MonthDigitsOfExample();
    assert MonthKey(2025, 12) == YearKey(2025) + "-" + "12";
    assert MonthKey(2025, 11) == YearKey(2025) + "-" + "11";
  }

  /** The worked example: monthly key wins over yearly key wins over the default. */
  lemma RoutingExample()
    ensures var cfg := Config(Some("C"), Some(map["2025-12" := "A", "2025" := "B"]), 510, 360, "");
      && IssueForCivil(cfg, Civil(2025, 12, 15)) == Some("A")
      && IssueForCivil(cfg, Civil(2025, 11, 15)) == Some("B")
      && IssueForCivil(cfg, Civil(2024, 1, 1)) == Some("C")
    ensures IssueForCivil(Config(None, None, 510, 360, ""), Civil(2024, 1, 1)) == None
  {
    YearKeysOfExample();
    MonthKeysOfExample();
    var m := map["2025-12" := "A", "2025" := "B"];
    assert "2025-11" !in m && "2024" !in m && "2024-01" !in m;
  }
}
