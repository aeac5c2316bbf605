/** The legacy progress and preference writes of `database.py`. They act on the
    same `reading_progress` and `user_preferences` tables as `db/progress.py`,
    with an older, narrower contract. */
module LegacyDatabase {
  import opened Text
  import opened Wrappers
  import opened Comics
  import opened Progress

  /** The legacy UPDATE: the page and the read time always; the total and the
      completion flag only when both are given. */
  function LegacyUpdated(row: ProgressRow, page: int, total: Option<int>, completed: Option<bool>, now: int): ProgressRow {
    if total.Some? && completed.Some? then
      row.(currentPage := page, totalPages := total.value, completed := completed.value, lastRead := now)
    else
      row.(currentPage := page, lastRead := now)
  }

  /** The legacy INSERT: `total_pages or 0`, `completed or False`; the reader
      columns take their default NULL and `seconds_read` its default 0. */
  function LegacyInserted(page: int, total: Option<int>, completed: Option<bool>, now: int): ProgressRow {
    ProgressRow(page, total.GetOr(0), completed.GetOr(false), now, None, None, None, 0)
  }

  /** The arguments of the current `update_reading_progress` that have the
      legacy effect. */
  function AsCurrentArgs(page: int, total: Option<int>, completed: Option<bool>, existing: bool): ProgressArgs {
    var both := total.Some? && completed.Some?;
    ProgressArgs(page,
                 if both || !existing then total else None,
                 if both || !existing then completed else None,
                 None, None, None, 0)
  }

  /** The legacy update is the current one with no reader settings and no
      time read, where a lone total or a lone completion flag is dropped. */
  lemma LegacyIsCurrentRestricted(row: ProgressRow, page: int, total: Option<int>, completed: Option<bool>, now: int)
    ensures LegacyUpdated(row, page, total, completed, now) == Updated(row, AsCurrentArgs(page, total, completed, true), now)
    ensures LegacyInserted(page, total, completed, now) == Inserted(AsCurrentArgs(page, total, completed, false), now)
  {
  }

  /** A total given without a completion flag (or the other way round) is
      ignored by the legacy update, while the current one writes it. */
  lemma LoneTotalIgnored(row: ProgressRow, page: int, total: int, now: int)
    requires total != row.totalPages
    ensures LegacyUpdated(row, page, Some(total), None, now).totalPages == row.totalPages
    ensures Updated(row, ProgressArgs(page, Some(total), None, None, None, None, 0), now).totalPages == total
  {
  }

  /** `update_reading_progress` of database.py. */
  method LegacyUpdateReadingProgress(t: ProgressTable, user: nat, comic: Path, page: int,
                                     total: Option<int>, completed: Option<bool>, now: int)
    modifies t
    ensures t.rows == old(t.rows)[(user, comic) :=
              if (user, comic) in old(t.rows) then LegacyUpdated(old(t.rows)[(user, comic)], page, total, completed, now)
              else LegacyInserted(page, total, completed, now)]
  {
    var key := (user, comic);
    if key in t.rows {
      var row := t.rows[key];
      if total.Some? && completed.Some? {
        t.rows := t.rows[key := row.(currentPage := page, totalPages := total.value, completed := completed.value, lastRead := now)];
      } else {
        t.rows := t.rows[key := row.(currentPage := page, lastRead := now)];
      }
    } else {
      t.rows := t.rows[key := ProgressRow(page, total.GetOr(0), completed.GetOr(false), now, None, None, None, 0)];
    }
  }

  /** `allowed_fields` of the legacy `update_user_preferences`. */
  const LegacyAllowedPreferences: seq<String> := [
    "theme", "default_view_mode", "default_nav_mode", "default_sort_by",
    "reader_direction", "reader_display", "reader_zoom"]

  /** Every field the legacy update writes, the current one writes too. */
  lemma LegacyFieldsStillAllowed(kwargs: map<String, PrefValue>)
    ensures forall f :: f in LegacyAllowedPreferences ==> f in AllowedPreferences
    ensures Whitelisted(LegacyAllowedPreferences, kwargs).Keys <= Whitelisted(AllowedPreferences, kwargs).Keys
  {
    forall f | f in LegacyAllowedPreferences ensures f in AllowedPreferences {
      assert f == "theme" || f == "default_view_mode" || f == "default_nav_mode" || f == "default_sort_by"
          || f == "reader_direction" || f == "reader_display" || f == "reader_zoom";
      assert AllowedPreferences[0] == "theme" && AllowedPreferences[2] == "default_view_mode"
          && AllowedPreferences[3] == "default_nav_mode" && AllowedPreferences[4] == "default_sort_by"
          && AllowedPreferences[5] == "reader_direction" && AllowedPreferences[6] == "reader_display"
          && AllowedPreferences[7] == "reader_zoom";
    }
  }

  /** `ereader` alone is written by the current update and refused by the legacy one. */
  lemma EreaderOnlyCurrent(v: PrefValue)
    ensures Whitelisted(LegacyAllowedPreferences, map["ereader" := v]) == map[]
    ensures Whitelisted(AllowedPreferences, map["ereader" := v]) == map["ereader" := v]
  {
    assert AllowedPreferences[1] == "ereader";
    assert "ereader" !in LegacyAllowedPreferences;
  }

  /** The CHECK constraints of the legacy `user_preferences` table
      (database.py:66-72): six checked columns. */
  function LegacyPrefCheck(column: String): Option<set<String>> {
    if column == "theme" then Some({"dark", "light"})
    else if column == "default_view_mode" then Some({"grid", "list", "detailed"})
    else if column == "default_nav_mode" then Some({"hierarchy", "flat"})
    else if column == "reader_direction" then Some({"ltr", "rtl"})
    else if column == "reader_display" then Some({"single", "double", "long"})
    else if column == "reader_zoom" then Some({"fit", "width", "height"})
    else None
  }

  /** On every field the legacy update writes, the legacy schema checks exactly
      what the current one checks, so the table's constraints stand for both. */
  lemma LegacyChecksAgree(f: String)
    requires f in LegacyAllowedPreferences
    ensures LegacyPrefCheck(f) == PrefCheck(f)
  {
    assert f == "theme" || f == "default_view_mode" || f == "default_nav_mode" || f == "default_sort_by"
        || f == "reader_direction" || f == "reader_display" || f == "reader_zoom";
  }

  /** `update_user_preferences` of database.py. */
  method LegacyUpdateUserPreferences(t: PreferencesTable, user: nat, kwargs: map<String, PrefValue>, now: int)
    returns (r: Result<bool, String>)
    requires t.Valid()
    modifies t
    ensures t.Valid()
    ensures r == Ok(false) <==> !exists k :: k in kwargs && k in LegacyAllowedPreferences
    ensures r.Err? <==> user in old(t.rows) && !MeetsChecks(Whitelisted(LegacyAllowedPreferences, kwargs))
    ensures r.Err? ==> r.error == CheckFailed
    ensures r != Ok(true) ==> t.rows == old(t.rows)
    ensures r == Ok(true) ==> t.rows == if user in old(t.rows)
                                         then old(t.rows)[user := PrefRow(old(t.rows)[user].values + Whitelisted(LegacyAllowedPreferences, kwargs), now)]
                                         else old(t.rows)
  {
    r := t.UpdateWith(LegacyAllowedPreferences, user, kwargs, now);
  }
}
