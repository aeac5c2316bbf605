/** The reader's own tables from `db/progress.py`: reading progress, user
    preferences and bookmarks. Each table is a map keyed by its UNIQUE
    constraint; `now` stands for CURRENT_TIMESTAMP. */
module Progress {
  import opened Text
  import opened Wrappers
  import opened Collections
  import opened Comics

  // ---------------------------------------------------------------------------
  // Reading progress
  // ---------------------------------------------------------------------------

  /** One `reading_progress` row, keyed by `(user_id, comic_id)`. */
  datatype ProgressRow = ProgressRow(
    currentPage: int,
    totalPages: int,
    completed: bool,
    lastRead: int,
    readerDisplay: Option<String>,
    readerDirection: Option<String>,
    readerZoom: Option<String>,
    secondsRead: int)

  /** The arguments of `update_reading_progress` after the key; `None` is Python's None. */
  datatype ProgressArgs = ProgressArgs(
    currentPage: int,
    totalPages: Option<int>,
    completed: Option<bool>,
    readerDisplay: Option<String>,
    readerDirection: Option<String>,
    readerZoom: Option<String>,
    additionalSeconds: int)

  /** One `column = ?` item of the UPDATE that `update_reading_progress` assembles. */
  datatype Assignment =
    | SetCurrentPage(page: int)
    | TouchLastRead
    | AddSeconds(seconds: int)
    | SetTotalPages(total: int)
    | SetCompleted(done: bool)
    | SetDisplay(display: String)
    | SetDirection(direction: String)
    | SetZoom(zoom: String)

  function Column(a: Assignment): String {
    match a
    case SetCurrentPage(_) => "current_page"
    case TouchLastRead => "last_read"
    case AddSeconds(_) => "seconds_read"
    case SetTotalPages(_) => "total_pages"
    case SetCompleted(_) => "completed"
    case SetDisplay(_) => "reader_display"
    case SetDirection(_) => "reader_direction"
    case SetZoom(_) => "reader_zoom"
  }

  /** The effect of one assignment; every right-hand side reads the old row. */
  function Apply(row: ProgressRow, a: Assignment, now: int): ProgressRow {
    match a
    case SetCurrentPage(p) => row.(currentPage := p)
    case TouchLastRead => row.(lastRead := now)
    case AddSeconds(s) => row.(secondsRead := row.secondsRead + s)
    case SetTotalPages(t) => row.(totalPages := t)
    case SetCompleted(c) => row.(completed := c)
    case SetDisplay(d) => row.(readerDisplay := Some(d))
    case SetDirection(d) => row.(readerDirection := Some(d))
    case SetZoom(z) => row.(readerZoom := Some(z))
  }

  /** The UPDATE statement: its assignments touch distinct columns, so applying
      them one after the other is what SQLite does. */
  function ApplyAll(row: ProgressRow, us: seq<Assignment>, now: int): ProgressRow
    decreases |us|
  {
    if us == [] then row else Apply(ApplyAll(row, us[..|us| - 1], now), us[|us| - 1], now)
  }

  predicate ColumnsDistinct(us: seq<Assignment>) {
    forall i, j :: 0 <= i < j < |us| ==> Column(us[i]) != Column(us[j])
  }

  /** What `update_reading_progress` promises for an existing row: the page and
      the read time are set, the seconds accumulate, and each optional column
      changes only when its argument is not None. */
  function Updated(row: ProgressRow, args: ProgressArgs, now: int): ProgressRow {
    ProgressRow(
      args.currentPage,
      if args.totalPages.Some? then args.totalPages.value else row.totalPages,
      if args.completed.Some? then args.completed.value else row.completed,
      now,
      if args.readerDisplay.Some? then args.readerDisplay else row.readerDisplay,
      if args.readerDirection.Some? then args.readerDirection else row.readerDirection,
      if args.readerZoom.Some? then args.readerZoom else row.readerZoom,
      row.secondsRead + args.additionalSeconds)
  }

  /** The row inserted when there is none: `total_pages or 0`, `completed or
      False`, and `additional_seconds` as the time read. */
  function Inserted(args: ProgressArgs, now: int): ProgressRow {
    ProgressRow(
      args.currentPage,
      if args.totalPages.Some? then args.totalPages.value else 0,
      if args.completed.Some? then args.completed.value else false,
      now,
      args.readerDisplay, args.readerDirection, args.readerZoom,
      args.additionalSeconds)
  }

  lemma ApplyAllSnoc(row: ProgressRow, us: seq<Assignment>, a: Assignment, now: int)
    ensures ApplyAll(row, us + [a], now) == Apply(ApplyAll(row, us, now), a, now)
  {
    assert (us + [a])[..|us|] == us;
  }

  /** Position of an assignment's column in the order the UPDATE lists them. */
  function Slot(a: Assignment): nat {
    match a
    case SetCurrentPage(_) => 0
    case TouchLastRead => 1
    case AddSeconds(_) => 2
    case SetTotalPages(_) => 3
    case SetCompleted(_) => 4
    case SetDisplay(_) => 5
    case SetDirection(_) => 6
    case SetZoom(_) => 7
  }

  /** `Updated` with only the first `n` optional columns considered. */
  function Stage(row: ProgressRow, args: ProgressArgs, now: int, n: nat): ProgressRow {
    ProgressRow(
      args.currentPage,
      if n >= 1 && args.totalPages.Some? then args.totalPages.value else row.totalPages,
      if n >= 2 && args.completed.Some? then args.completed.value else row.completed,
      now,
      if n >= 3 && args.readerDisplay.Some? then args.readerDisplay else row.readerDisplay,
      if n >= 4 && args.readerDirection.Some? then args.readerDirection else row.readerDirection,
      if n >= 5 && args.readerZoom.Some? then args.readerZoom else row.readerZoom,
      row.secondsRead + args.additionalSeconds)
  }

  /** `us` lists its columns in order, none past the `n`-th optional one, and
      has the effect of `Stage(n)`. */
  ghost predicate Built(us: seq<Assignment>, args: ProgressArgs, n: nat) {
    (forall i, j :: 0 <= i < j < |us| ==> Slot(us[i]) < Slot(us[j]))
    && (forall i :: 0 <= i < |us| ==> Slot(us[i]) < n + 3)
    && forall row, now :: ApplyAll(row, us, now) == Stage(row, args, now, n)
  }

  lemma ColumnsFollowSlots(us: seq<Assignment>)
    requires forall i, j :: 0 <= i < j < |us| ==> Slot(us[i]) < Slot(us[j])
    ensures ColumnsDistinct(us)
  {
    forall i, j | 0 <= i < j < |us| ensures Column(us[i]) != Column(us[j]) {
      var a, b := us[i], us[j];
      assert Column(a)[..2] != Column(b)[..2] || Column(a)[2..4] != Column(b)[2..4] || Column(a) != Column(b);
    }
  }

  /** The `updates`/`params` lists of the UPDATE branch. */
  method BuildAssignments(args: ProgressArgs) returns (us: seq<Assignment>)
    ensures ColumnsDistinct(us)
    ensures forall row, now :: ApplyAll(row, us, now) == Updated(row, args, now)
  {
    us := [SetCurrentPage(args.currentPage), TouchLastRead, AddSeconds(args.additionalSeconds)];
    FixedColumns(args);
    StagesFollow(args);
    us := AddIfGiven(us, args.totalPages.Some?, SetTotalPages(args.totalPages.GetOr(0)), args, 0);
    us := AddIfGiven(us, args.completed.Some?, SetCompleted(args.completed.GetOr(false)), args, 1);
    us := AddIfGiven(us, args.readerDisplay.Some?, SetDisplay(args.readerDisplay.GetOr([])), args, 2);
    us := AddIfGiven(us, args.readerDirection.Some?, SetDirection(args.readerDirection.GetOr([])), args, 3);
    us := AddIfGiven(us, args.readerZoom.Some?, SetZoom(args.readerZoom.GetOr([])), args, 4);
    ColumnsFollowSlots(us);
  }

  /** The three columns every UPDATE sets. */
  lemma FixedColumns(args: ProgressArgs)
    ensures Built([SetCurrentPage(args.currentPage), TouchLastRead, AddSeconds(args.additionalSeconds)], args, 0)
  {
    var us := [SetCurrentPage(args.currentPage), TouchLastRead, AddSeconds(args.additionalSeconds)];
    forall row, now ensures ApplyAll(row, us, now) == Stage(row, args, now, 0) {
      ApplyAllSnoc(row, us[..2], us[2], now);
      ApplyAllSnoc(row, us[..1], us[1], now);
      ApplyAllSnoc(row, [], us[0], now);
      assert us[..2][..1] == us[..1] && us[..2] + [us[2]] == us && us[..1] + [us[1]] == us[..2];
    }
  }

  /** Each optional column moves the stage on by one when its argument is given. */
  lemma StagesFollow(args: ProgressArgs)
    ensures forall row, now :: Stage(row, args, now, 1) ==
              if args.totalPages.Some? then Apply(Stage(row, args, now, 0), SetTotalPages(args.totalPages.GetOr(0)), now)
              else Stage(row, args, now, 0)
    ensures forall row, now :: Stage(row, args, now, 2) ==
              if args.completed.Some? then Apply(Stage(row, args, now, 1), SetCompleted(args.completed.GetOr(false)), now)
              else Stage(row, args, now, 1)
    ensures forall row, now :: Stage(row, args, now, 3) ==
              if args.readerDisplay.Some? then Apply(Stage(row, args, now, 2), SetDisplay(args.readerDisplay.GetOr([])), now)
              else Stage(row, args, now, 2)
    ensures forall row, now :: Stage(row, args, now, 4) ==
              if args.readerDirection.Some? then Apply(Stage(row, args, now, 3), SetDirection(args.readerDirection.GetOr([])), now)
              else Stage(row, args, now, 3)
    ensures forall row, now :: Stage(row, args, now, 5) ==
              if args.readerZoom.Some? then Apply(Stage(row, args, now, 4), SetZoom(args.readerZoom.GetOr([])), now)
              else Stage(row, args, now, 4)
    ensures forall row, now :: Stage(row, args, now, 5) == Updated(row, args, now)
  {
  }

  /** One `if <argument> is not None: updates.append(...)` of the UPDATE branch. */
  method AddIfGiven(us0: seq<Assignment>, given: bool, a: Assignment, ghost args: ProgressArgs, ghost n: nat)
    returns (us: seq<Assignment>)
    requires Built(us0, args, n) && Slot(a) == n + 3
    requires forall row, now :: Stage(row, args, now, n + 1) ==
               if given then Apply(Stage(row, args, now, n), a, now) else Stage(row, args, now, n)
    ensures Built(us, args, n + 1)
  {
    if given {
      us := AddAssignment(us0, a);
    } else {
      us := us0;
    }
  }

  /** `updates.append(...)`, for a column later than those already listed. */
  method AddAssignment(us0: seq<Assignment>, a: Assignment) returns (us: seq<Assignment>)
    requires forall i, j :: 0 <= i < j < |us0| ==> Slot(us0[i]) < Slot(us0[j])
    requires forall i :: 0 <= i < |us0| ==> Slot(us0[i]) < Slot(a)
    ensures us == us0 + [a]
    ensures forall i, j :: 0 <= i < j < |us| ==> Slot(us[i]) < Slot(us[j])
    ensures forall i :: 0 <= i < |us| ==> Slot(us[i]) <= Slot(a)
    ensures forall row, now :: ApplyAll(row, us, now) == Apply(ApplyAll(row, us0, now), a, now)
  {
    us := us0 + [a];
    forall row, now ensures ApplyAll(row, us, now) == Apply(ApplyAll(row, us0, now), a, now) {
      ApplyAllSnoc(row, us0, a, now);
    }
  }

  /** The statistics of `get_user_stats`, without the floating-point completion rate. */
  datatype UserStats = UserStats(totalComics: nat, completedComics: nat, totalPagesRead: int, totalSeconds: int)

  type ProgressKey = (nat, Path)

  function UserKeys(rows: map<ProgressKey, ProgressRow>, user: nat): set<ProgressKey> {
    set k | k in rows && k.0 == user
  }

  function CompletedKeys(rows: map<ProgressKey, ProgressRow>, user: nat): set<ProgressKey> {
    set k | k in rows && k.0 == user && rows[k].completed
  }

  /** `SUM(...)` over the rows `ks`, 0 when there are none (`or 0`). */
  ghost function SumOf(rows: map<ProgressKey, ProgressRow>, ks: set<ProgressKey>, f: ProgressRow -> int): int
    requires ks <= rows.Keys
    decreases |ks|
  {
    if ks == {} then 0
    else
      var k :| k in ks;
      f(rows[k]) + SumOf(rows, ks - {k}, f)
  }

  /** Any row can be taken out of a sum first. */
  lemma {:induction false} SumOfRemove(rows: map<ProgressKey, ProgressRow>, ks: set<ProgressKey>,
                                       f: ProgressRow -> int, k: ProgressKey)
    requires k in ks && ks <= rows.Keys
    ensures SumOf(rows, ks, f) == f(rows[k]) + SumOf(rows, ks - {k}, f)
    decreases |ks|
  {
    var j :| j in ks && SumOf(rows, ks, f) == f(rows[j]) + SumOf(rows, ks - {j}, f);
    if j != k {
      SumOfRemove(rows, ks - {j}, f, k);
      SumOfRemove(rows, ks - {k}, f, j);
      assert ks - {j} - {k} == ks - {k} - {j};
    }
  }

  /** A sum reads only the rows it sums. */
  lemma {:induction false} SumOfAgree(r1: map<ProgressKey, ProgressRow>, r2: map<ProgressKey, ProgressRow>,
                                      ks: set<ProgressKey>, f: ProgressRow -> int)
    requires ks <= r1.Keys && ks <= r2.Keys
    requires forall k :: k in ks ==> r1[k] == r2[k]
    ensures SumOf(r1, ks, f) == SumOf(r2, ks, f)
    decreases |ks|
  {
    if ks != {} {
      var k :| k in ks;
      SumOfRemove(r1, ks, f, k);
      SumOfRemove(r2, ks, f, k);
      SumOfAgree(r1, r2, ks - {k}, f);
    }
  }

  function PageOf(r: ProgressRow): int { r.currentPage }

  function SecondsOf(r: ProgressRow): int { r.secondsRead }

  /** The four aggregate queries of `get_user_stats`. */
  ghost function StatsOf(rows: map<ProgressKey, ProgressRow>, user: nat): UserStats {
    UserStats(|UserKeys(rows, user)|, |CompletedKeys(rows, user)|,
              SumOf(rows, UserKeys(rows, user), PageOf), SumOf(rows, UserKeys(rows, user), SecondsOf))
  }

  /** Completed comics are among the comics started. */
  lemma CompletedAtMostTotal(rows: map<ProgressKey, ProgressRow>, user: nat)
    ensures StatsOf(rows, user).completedComics <= StatsOf(rows, user).totalComics
  {
    assert CompletedKeys(rows, user) <= UserKeys(rows, user);
    CardDiff(UserKeys(rows, user), CompletedKeys(rows, user));
  }

  /** Upserting one comic of a user: the count grows by one iff the comic was
      new, and the pages read change by the new page minus the old one. */
  lemma UpsertStats(rows: map<ProgressKey, ProgressRow>, user: nat, comic: Path, row: ProgressRow)
    ensures var after := rows[(user, comic) := row];
            StatsOf(after, user).totalComics ==
              StatsOf(rows, user).totalComics + (if (user, comic) in rows then 0 else 1)
            && StatsOf(after, user).totalPagesRead ==
              StatsOf(rows, user).totalPagesRead + row.currentPage
              - (if (user, comic) in rows then rows[(user, comic)].currentPage else 0)
  {
    var key := (user, comic);
    var after := rows[key := row];
    var before, now := UserKeys(rows, user), UserKeys(after, user);
    var rest := before - {key};
    assert now == rest + {key};
    assert rest <= rows.Keys && rest <= after.Keys;
    SumOfAgree(rows, after, rest, PageOf);
    SumOfRemove(after, now, PageOf, key);
    assert now - {key} == rest;
    if key in rows {
      SumOfRemove(rows, before, PageOf, key);
      assert before == now;
    } else {
      assert before == rest;
    }
  }

  /** After clearing a user's history every statistic of that user is 0, and
      every other user's statistics are as before. */
  lemma ClearedStats(rows: map<ProgressKey, ProgressRow>, user: nat, other: nat)
    requires other != user
    ensures var after := map k | k in rows && k.0 != user :: rows[k];
            StatsOf(after, user) == UserStats(0, 0, 0, 0)
            && StatsOf(after, other) == StatsOf(rows, other)
  {
    var after := map k | k in rows && k.0 != user :: rows[k];
    assert UserKeys(after, user) == {};
    assert CompletedKeys(after, user) == {};
    assert UserKeys(after, other) == UserKeys(rows, other);
    assert CompletedKeys(after, other) == CompletedKeys(rows, other);
    SumOfAgree(after, rows, UserKeys(rows, other), PageOf);
    SumOfAgree(after, rows, UserKeys(rows, other), SecondsOf);
  }

  /** Two visits accumulate their seconds; the later visit's page wins. */
  lemma VisitsAccumulate(row: ProgressRow, a: ProgressArgs, b: ProgressArgs, t1: int, t2: int)
    ensures Updated(Updated(row, a, t1), b, t2).secondsRead == row.secondsRead + a.additionalSeconds + b.additionalSeconds
    ensures Updated(Updated(row, a, t1), b, t2).currentPage == b.currentPage
    ensures b.totalPages.None? ==> Updated(Updated(row, a, t1), b, t2).totalPages == Updated(row, a, t1).totalPages
  {
  }

  /** `reading_progress`. */
  class ProgressTable {
    var rows: map<ProgressKey, ProgressRow>

    constructor()
      ensures rows == map[]
    {
      rows := map[];
    }

    /** `get_reading_progress(user, comic)`: the row, or None. */
    method GetReadingProgress(user: nat, comic: Path) returns (r: Option<ProgressRow>)
      ensures r.Some? <==> (user, comic) in rows
      ensures r.Some? ==> r.value == rows[(user, comic)]
    {
      if (user, comic) in rows {
        r := Some(rows[(user, comic)]);
      } else {
        r := None;
      }
    }

    /** `get_reading_progress(user)`: the user's rows keyed by comic. */
    method GetAllProgress(user: nat) returns (m: map<Path, ProgressRow>)
      ensures forall c :: c in m <==> (user, c) in rows
      ensures forall c :: c in m ==> m[c] == rows[(user, c)]
    {
      m := map k | k in rows && k.0 == user :: k.1 := rows[k];
      forall c | (user, c) in rows ensures c in m {
        assert (user, c).1 == c;
      }
    }

    /** `update_reading_progress`: update the existing row through the assembled
        UPDATE, or insert a fresh one. */
    method UpdateReadingProgress(user: nat, comic: Path, args: ProgressArgs, now: int)
      modifies this
      ensures rows == old(rows)[(user, comic) :=
                if (user, comic) in old(rows) then Updated(old(rows)[(user, comic)], args, now)
                else Inserted(args, now)]
    {
      var key := (user, comic);
      if key in rows {
        var us := BuildAssignments(args);
        rows := rows[key := ApplyAll(rows[key], us, now)];
      } else {
        rows := rows[key := Inserted(args, now)];
      }
    }

    /** `clear_reading_progress`: every row of the user goes. */
    method ClearReadingProgress(user: nat)
      modifies this
      ensures rows == map k | k in old(rows) && k.0 != user :: old(rows)[k]
    {
      rows := map k | k in rows && k.0 != user :: rows[k];
    }

    /** `delete_reading_progress`: only the `(user, comic)` row goes. */
    method DeleteReadingProgress(user: nat, comic: Path)
      modifies this
      ensures rows == old(rows) - {(user, comic)}
    {
      rows := rows - {(user, comic)};
    }

    /** `get_user_stats`: the four aggregates, in one pass over the user's rows. */
    method GetUserStats(user: nat) returns (s: UserStats)
      ensures s == StatsOf(rows, user)
    {
      var rs := rows;
      var todo := UserKeys(rs, user);
      ghost var all := todo;
      ghost var done: set<ProgressKey> := {};
      s := UserStats(0, 0, 0, 0);
      while todo != {}
        invariant all <= rs.Keys
        invariant done !! todo && done + todo == all
        invariant s == Tally(rs, done)
        decreases |todo|
      {
        var k :| k in todo;
        var r := rs[k];
        StatsStep(rs, done, k);
        s := UserStats(s.totalComics + 1, s.completedComics + if r.completed then 1 else 0,
                       s.totalPagesRead + r.currentPage, s.totalSeconds + r.secondsRead);
        todo := todo - {k};
        done := done + {k};
      }
      CompletedAmongUser(rs, user);
    }
  }

  lemma CompletedAmongUser(rows: map<ProgressKey, ProgressRow>, user: nat)
    ensures CompletedAmong(rows, UserKeys(rows, user)) == CompletedKeys(rows, user)
  {
  }

  /** The four aggregates over the rows `ks`. */
  ghost function Tally(rows: map<ProgressKey, ProgressRow>, ks: set<ProgressKey>): UserStats
    requires ks <= rows.Keys
  {
    UserStats(|ks|, |CompletedAmong(rows, ks)|, SumOf(rows, ks, PageOf), SumOf(rows, ks, SecondsOf))
  }

  /** The completed rows among `ks`. */
  function CompletedAmong(rows: map<ProgressKey, ProgressRow>, ks: set<ProgressKey>): set<ProgressKey> {
    set k | k in ks && k in rows && rows[k].completed
  }

  /** Adding one row to the rows counted so far. */
  lemma StatsStep(rows: map<ProgressKey, ProgressRow>, done: set<ProgressKey>, k: ProgressKey)
    requires k in rows && k !in done && done <= rows.Keys
    ensures var t, r := Tally(rows, done), rows[k];
            Tally(rows, done + {k}) ==
              UserStats(t.totalComics + 1, t.completedComics + if r.completed then 1 else 0,
                        t.totalPagesRead + r.currentPage, t.totalSeconds + r.secondsRead)
  {
    var next := done + {k};
    assert next - {k} == done;
    SumOfRemove(rows, next, PageOf, k);
    SumOfRemove(rows, next, SecondsOf, k);
    if rows[k].completed {
      assert CompletedAmong(rows, next) == CompletedAmong(rows, done) + {k};
    } else {
      assert CompletedAmong(rows, next) == CompletedAmong(rows, done);
    }
  }

  // ---------------------------------------------------------------------------
  // User preferences
  // ---------------------------------------------------------------------------

  /** A preference value as the HTTP layer passes it. */
  datatype PrefValue = PrefText(text: String) | PrefNumber(n: int) | PrefFlag(flag: bool)

  /** One `user_preferences` row, keyed by `user_id` (UNIQUE): the preference
      columns that are set, and `updated_at`. */
  datatype PrefRow = PrefRow(values: map<String, PrefValue>, updatedAt: int)

  /** `allowed_fields` of `update_user_preferences`. */
  const AllowedPreferences: seq<String> := [
    "theme", "ereader", "default_view_mode", "default_nav_mode", "default_sort_by",
    "reader_direction", "reader_display", "reader_zoom", "title_card_style",
    "brightness", "contrast", "saturation", "invert", "tone_value", "tone_mode", "auto_advance_interval",
    "nsfw_mode"]

  /** `{k: v for k, v in kwargs.items() if k in allowed_fields}`. */
  function Whitelisted(allowed: seq<String>, kwargs: map<String, PrefValue>): (m: map<String, PrefValue>)
    ensures m.Keys <= kwargs.Keys
    ensures forall k :: k in m <==> k in kwargs && k in allowed
    ensures forall k :: k in m ==> m[k] == kwargs[k]
  {
    map k | k in kwargs && k in allowed :: kwargs[k]
  }

  /** The CHECK constraints of `user_preferences` (db/connection.py:111-127):
      the texts a checked column accepts, or None for a column without one. */
  function PrefCheck(column: String): Option<set<String>> {
    if column == "theme" then Some({"dark", "light"})
    else if column == "default_view_mode" then Some({"grid", "list", "detailed"})
    else if column == "default_nav_mode" then Some({"hierarchy", "flat"})
    else if column == "reader_direction" then Some({"ltr", "rtl"})
    else if column == "reader_display" then Some({"single", "double", "long"})
    else if column == "reader_zoom" then Some({"fit", "width", "height"})
    else if column == "title_card_style" then Some({"fan", "single"})
    else if column == "nsfw_mode" then Some({"off", "filter", "blur"})
    else None
  }

  /** A value passes its column's CHECK: a column without one takes anything, a
      checked column only one of its texts. A number or a flag is stored in the
      TEXT column as its digits, which are never among them. */
  predicate MeetsCheck(column: String, v: PrefValue) {
    PrefCheck(column).Some? ==> v.PrefText? && v.text in PrefCheck(column).value
  }

  /** Every column of a row passes its CHECK. */
  predicate MeetsChecks(values: map<String, PrefValue>) {
    forall k :: k in values ==> MeetsCheck(k, values[k])
  }

  /** The message of the `sqlite3.IntegrityError` a failing CHECK raises. */
  const CheckFailed: String := "CHECK constraint failed"

  /** SQLite checks the whole new row; when the stored row passes, the new row
      passes exactly when the assigned values do. */
  lemma MergedMeetsChecks(values: map<String, PrefValue>, updates: map<String, PrefValue>)
    requires MeetsChecks(values)
    ensures MeetsChecks(values + updates) <==> MeetsChecks(updates)
  {
    if MeetsChecks(updates) {
      forall k | k in values + updates ensures MeetsCheck(k, (values + updates)[k]) {
        if k in updates {
          assert (values + updates)[k] == updates[k];
        } else {
          assert (values + updates)[k] == values[k];
        }
      }
    } else {
      var k :| k in updates && !MeetsCheck(k, updates[k]);
      assert (values + updates)[k] == updates[k];
    }
  }

  /** A theme outside `('dark', 'light')` is refused, as is a flag for `nsfw_mode`;
      an allowed theme and any text for the unchecked `default_sort_by` pass. */
  lemma CheckExamples()
    ensures !MeetsChecks(map["theme" := PrefText("blue")])
    ensures MeetsChecks(map["theme" := PrefText("light")])
    ensures !MeetsChecks(map["nsfw_mode" := PrefFlag(true)])
    ensures MeetsChecks(map["default_sort_by" := PrefText("blue")])
  {
    var blue := map["theme" := PrefText("blue")];
    assert !MeetsCheck("theme", blue["theme"]) by {
      assert "blue" != "dark" && "blue" != "light";
    }
    var flag := map["nsfw_mode" := PrefFlag(true)];
    assert !MeetsCheck("nsfw_mode", flag["nsfw_mode"]);
    assert MeetsCheck("default_sort_by", PrefText("blue")) by {
      assert PrefCheck("default_sort_by") == None;
    }
  }

  /** `user_preferences`. */
  class PreferencesTable {
    var rows: map<nat, PrefRow>

    /** Every stored row passes the table's CHECK constraints. */
    ghost predicate Valid()
      reads this
    {
      forall u :: u in rows ==> MeetsChecks(rows[u].values)
    }

    constructor()
      ensures Valid() && rows == map[]
    {
      rows := map[];
    }

    /** `get_user_preferences`: the row, or None. */
    method GetUserPreferences(user: nat) returns (r: Option<PrefRow>)
      ensures r.Some? <==> user in rows
      ensures r.Some? ==> r.value == rows[user]
    {
      r := if user in rows then Some(rows[user]) else None;
    }

    /** The update of `update_user_preferences` for a given whitelist: nothing
        is written, and false returned, when no keyword is allowed. Otherwise
        the UPDATE runs: it changes nothing when the user has no row; it raises
        the CHECK error, writing nothing, when an assigned value is outside its
        column's set; else the row takes the values and the time, and true is
        returned. */
    method UpdateWith(allowed: seq<String>, user: nat, kwargs: map<String, PrefValue>, now: int)
      returns (r: Result<bool, String>)
      requires Valid()
      modifies this
      ensures Valid()
      ensures r == Ok(false) <==> !exists k :: k in kwargs && k in allowed
      ensures r.Err? <==> user in old(rows) && !MeetsChecks(Whitelisted(allowed, kwargs))
      ensures r.Err? ==> r.error == CheckFailed
      ensures r != Ok(true) ==> rows == old(rows)
      ensures r == Ok(true) ==> rows == if user in old(rows)
                                         then old(rows)[user := PrefRow(old(rows)[user].values + Whitelisted(allowed, kwargs), now)]
                                         else old(rows)
    {
      var updates := map k | k in kwargs && k in allowed :: kwargs[k];
      if updates == map[] {
        assert forall k :: k in kwargs && k in allowed ==> k in updates;
        return Ok(false);
      }
      if user in rows {
        var merged := rows[user].values + updates;
        MergedMeetsChecks(rows[user].values, updates);
        if !MeetsChecks(merged) {
          return Err(CheckFailed);
        }
        rows := rows[user := PrefRow(merged, now)];
      }
      return Ok(true);
    }

    /** `update_user_preferences`. */
    method UpdateUserPreferences(user: nat, kwargs: map<String, PrefValue>, now: int) returns (r: Result<bool, String>)
      requires Valid()
      modifies this
      ensures Valid()
      ensures r == Ok(false) <==> !exists k :: k in kwargs && k in AllowedPreferences
      ensures r.Err? <==> user in old(rows) && !MeetsChecks(Whitelisted(AllowedPreferences, kwargs))
      ensures r.Err? ==> r.error == CheckFailed
      ensures r != Ok(true) ==> rows == old(rows)
      ensures r == Ok(true) ==> rows == if user in old(rows)
                                         then old(rows)[user := PrefRow(old(rows)[user].values + Whitelisted(AllowedPreferences, kwargs), now)]
                                         else old(rows)
    {
      r := UpdateWith(AllowedPreferences, user, kwargs, now);
    }
  }

  // ---------------------------------------------------------------------------
  // Bookmarks
  // ---------------------------------------------------------------------------

  /** One `bookmarks` row, keyed by `(user_id, comic_id, page_number)`. */
  datatype BookmarkRow = BookmarkRow(note: Option<String>, createdAt: int)

  type BookmarkKey = (nat, Path, int)

  /** One bookmark as `get_bookmarks` returns it. */
  datatype Bookmark = Bookmark(comic: Path, page: int, note: Option<String>, createdAt: int)

  predicate PageLess(a: Bookmark, b: Bookmark) { a.page < b.page }

  predicate NewerFirst(a: Bookmark, b: Bookmark) { a.createdAt > b.createdAt }

  lemma BookmarkOrders()
    ensures StrictOrder(PageLess) && StrictOrder(NewerFirst)
  {
  }

  /** `b` is a stored bookmark of `user`, on `comic` when one is given. */
  predicate Lists(rows: map<BookmarkKey, BookmarkRow>, user: nat, comic: Option<Path>, b: Bookmark) {
    (user, b.comic, b.page) in rows
    && rows[(user, b.comic, b.page)] == BookmarkRow(b.note, b.createdAt)
    && (comic.Some? ==> b.comic == comic.value)
  }

  /** Bookmarks of one comic sorted by page have strictly increasing pages:
      the key makes the page unique per comic. */
  lemma {:induction false} PagesStrictlyIncrease(rows: map<BookmarkKey, BookmarkRow>, user: nat, comic: Path,
                                                 bs: seq<Bookmark>)
    requires Distinct(bs) && SortedBy(bs, PageLess)
    requires forall b :: b in bs ==> Lists(rows, user, Some(comic), b)
    ensures forall i, j :: 0 <= i < j < |bs| ==> bs[i].page < bs[j].page
  {
    forall i, j | 0 <= i < j < |bs| ensures bs[i].page < bs[j].page {
      assert bs[i] in bs && bs[j] in bs;
      assert bs[i] != bs[j];
    }
  }

  /** `bookmarks`. */
  class BookmarksTable {
    var rows: map<BookmarkKey, BookmarkRow>

    constructor()
      ensures rows == map[]
    {
      rows := map[];
    }

    /** `add_bookmark`: an existing `(user, comic, page)` raises IntegrityError
        and gives false with nothing written. */
    method AddBookmark(user: nat, comic: Path, page: int, note: Option<String>, now: int) returns (ok: bool)
      modifies this
      ensures ok <==> (user, comic, page) !in old(rows)
      ensures rows == if ok then old(rows)[(user, comic, page) := BookmarkRow(note, now)] else old(rows)
    {
      if (user, comic, page) in rows {
        return false;
      }
      rows := rows[(user, comic, page) := BookmarkRow(note, now)];
      return true;
    }

    /** `remove_bookmark`. */
    method RemoveBookmark(user: nat, comic: Path, page: int)
      modifies this
      ensures rows == old(rows) - {(user, comic, page)}
    {
      rows := rows - {(user, comic, page)};
    }

    /** `get_bookmarks`: one comic's bookmarks by page, or all of the user's
        bookmarks newest first. */
    method GetBookmarks(user: nat, comic: Option<Path>) returns (bs: seq<Bookmark>)
      ensures Distinct(bs)
      ensures forall b :: b in bs <==> Lists(rows, user, comic, b)
      ensures comic.Some? ==> forall i, j :: 0 <= i < j < |bs| ==> bs[i].page < bs[j].page
      ensures comic.None? ==> SortedBy(bs, NewerFirst)
    {
      var found := CollectBookmarks(user, comic);
      BookmarkOrders();
      if comic.Some? {
        bs := SortBy(found, PageLess);
      } else {
        bs := SortBy(found, NewerFirst);
      }
      DistinctPermutation(found, bs);
      if comic.Some? {
        PagesStrictlyIncrease(rows, user, comic.value, bs);
      }
    }

    /** The rows the WHERE clause selects, in some order. */
    method CollectBookmarks(user: nat, comic: Option<Path>) returns (bs: seq<Bookmark>)
      ensures Distinct(bs)
      ensures forall b :: b in bs <==> Lists(rows, user, comic, b)
    {
      bs := [];
      var todo := rows.Keys;
      while todo != {}
        invariant todo <= rows.Keys
        invariant Distinct(bs)
        invariant forall b :: b in bs <==> Lists(rows, user, comic, b) && (user, b.comic, b.page) !in todo
        decreases |todo|
      {
        var key :| key in todo;
        var (u, c, p) := key;
        if u == user && (comic.None? || c == comic.value) {
          var b := Bookmark(c, p, rows[key].note, rows[key].createdAt);
          assert b !in bs;
          bs := bs + [b];
        }
        todo := todo - {key};
      }
    }
  }
}
