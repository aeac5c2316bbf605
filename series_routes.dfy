/** The list computations of `routes/series.py`: the series detail page
    (prev/next links between comics, the reading statistics and the choice of
    the comic to continue with) and the range check of a rating. The series
    row and its comics come from `get_series_with_comics`, given as input. */
module SeriesRoutes {
  import opened Text
  import opened Wrappers
  import ListRoutes

  // ---------------------------------------------------------------------------
  // Rows
  // ---------------------------------------------------------------------------

  /** The user's `reading_progress` row for a comic. */
  datatype Progress = Progress(currentPage: int, completed: bool)

  /** A comic of the series as `get_series_with_comics` lists it, with the
      user's progress when there is a row. */
  datatype Comic = Comic(
    id: String,
    title: Option<String>,
    pages: Option<int>,
    volume: Option<real>,
    chapter: Option<real>,
    progress: Option<Progress>)

  /** A `prev_comic` or `next_comic` entry. */
  datatype Link = Link(id: String, title: Option<String>)

  /** A comic of the detail page with the links it was given. */
  datatype ComicView = ComicView(comic: Comic, prev: Option<Link>, next: Option<Link>)

  /** `series['stats']` without `progress_percentage`. */
  datatype Stats = Stats(totalComics: nat, totalPages: int, completedComics: nat,
                         inProgressComics: nat, readPages: int)

  /** `series['continue_reading']`. */
  datatype Resume = Resume(comicId: String, title: Option<String>, chapter: Option<real>,
                           volume: Option<real>, page: int)

  /** The keys the handler adds to the series. */
  datatype Detail = Detail(comics: seq<ComicView>, stats: Stats, continueReading: Option<Resume>)

  // ---------------------------------------------------------------------------
  // prev/next links
  // ---------------------------------------------------------------------------

  function LinkTo(c: Comic): Link {
    Link(c.id, c.title)
  }

  /** Comic `i` with a link back to comic `i - 1` and on to comic `i + 1`,
      where those exist. */
  function ViewAt(comics: seq<Comic>, i: nat): ComicView
    requires i < |comics|
  {
    ComicView(comics[i],
              if i > 0 then Some(LinkTo(comics[i - 1])) else None,
              if i < |comics| - 1 then Some(LinkTo(comics[i + 1])) else None)
  }

  /** The loop over `enumerate(comics)` adding the links. */
  method AddLinks(comics: seq<Comic>) returns (views: seq<ComicView>)
    ensures |views| == |comics|
    ensures forall i :: 0 <= i < |comics| ==> views[i] == ViewAt(comics, i)
  {
    views := [];
    for i := 0 to |comics|
      invariant |views| == i
      invariant forall j :: 0 <= j < i ==> views[j] == ViewAt(comics, j)
    {
      var prev: Option<Link> := None;
      var next: Option<Link> := None;
      if i > 0 {
        prev := Some(LinkTo(comics[i - 1]));
      }
      if i < |comics| - 1 {
        next := Some(LinkTo(comics[i + 1]));
      }
      views := views + [ComicView(comics[i], prev, next)];
    }
  }

  /** The links chain the comics in order: only the first has no previous
      comic, only the last has no next one, and going on from a comic and
      then back returns to it. */
  lemma LinksChain(comics: seq<Comic>, i: nat)
    requires i < |comics|
    ensures ViewAt(comics, i).prev.None? <==> i == 0
    ensures ViewAt(comics, i).next.None? <==> i == |comics| - 1
    ensures i + 1 < |comics| ==>
              ViewAt(comics, i).next == Some(LinkTo(ViewAt(comics, i + 1).comic))
              && ViewAt(comics, i + 1).prev == Some(LinkTo(ViewAt(comics, i).comic))
  {
  }

  // ---------------------------------------------------------------------------
  // Statistics
  // ---------------------------------------------------------------------------

  /** `c.get('pages') or 0`. */
  function PagesOf(c: Comic): int {
    match c.pages
    case Some(p) => p
    case None => 0
  }

  /** What the comic adds to `read_pages`: its current page when the user has
      progress on it. */
  function ReadOf(c: Comic): int {
    match c.progress
    case Some(p) => p.currentPage
    case None => 0
  }

  predicate IsCompleted(c: Comic) {
    c.progress.Some? && c.progress.value.completed
  }

  predicate IsInProgress(c: Comic) {
    c.progress.Some? && !c.progress.value.completed && c.progress.value.currentPage > 0
  }

  function SumOf(cs: seq<Comic>, f: Comic -> int): int
    decreases |cs|
  {
    if cs == [] then 0 else SumOf(cs[..|cs| - 1], f) + f(cs[|cs| - 1])
  }

  function CountOf(cs: seq<Comic>, p: Comic -> bool): (n: nat)
    ensures n <= |cs|
    decreases |cs|
  {
    if cs == [] then 0 else CountOf(cs[..|cs| - 1], p) + (if p(cs[|cs| - 1]) then 1 else 0)
  }

  /** The statistics of a list of comics. */
  function StatsOf(cs: seq<Comic>): Stats {
    Stats(|cs|, SumOf(cs, PagesOf), CountOf(cs, IsCompleted), CountOf(cs, IsInProgress),
          SumOf(cs, ReadOf))
  }

  /** `sum(...)` of the pages, then the loop over the progress rows. */
  method ComputeStats(comics: seq<Comic>) returns (stats: Stats)
    ensures stats == StatsOf(comics)
  {
    var totalPages := SumOf(comics, PagesOf);
    var readPages := 0;
    var completedCount := 0;
    var inProgressCount := 0;
    for i := 0 to |comics|
      invariant readPages == SumOf(comics[..i], ReadOf)
      invariant completedCount == CountOf(comics[..i], IsCompleted)
      invariant inProgressCount == CountOf(comics[..i], IsInProgress)
    {
      assert comics[..i + 1][..i] == comics[..i];
      var progress := comics[i].progress;
      if progress.Some? {
        readPages := readPages + progress.value.currentPage;
        if progress.value.completed {
          completedCount := completedCount + 1;
        } else if progress.value.currentPage > 0 {
          inProgressCount := inProgressCount + 1;
        }
      }
    }
    assert comics[..|comics|] == comics;
    stats := Stats(|comics|, totalPages, completedCount, inProgressCount, readPages);
  }

  lemma {:induction false} SumAppend(a: seq<Comic>, b: seq<Comic>, f: Comic -> int)
    ensures SumOf(a + b, f) == SumOf(a, f) + SumOf(b, f)
    decreases |b|
  {
    if b != [] {
      var init := b[..|b| - 1];
      SumAppend(a, init, f);
      assert (a + b)[..|a + b| - 1] == a + init;
    } else {
      assert a + b == a;
    }
  }

  lemma {:induction false} CountAppend(a: seq<Comic>, b: seq<Comic>, p: Comic -> bool)
    ensures CountOf(a + b, p) == CountOf(a, p) + CountOf(b, p)
    decreases |b|
  {
    if b != [] {
      var init := b[..|b| - 1];
      CountAppend(a, init, p);
      assert (a + b)[..|a + b| - 1] == a + init;
    } else {
      assert a + b == a;
    }
  }

  /** The statistics of two runs of comics add up. */
  lemma StatsAppend(a: seq<Comic>, b: seq<Comic>)
    ensures var s, sa, sb := StatsOf(a + b), StatsOf(a), StatsOf(b);
            s.totalComics == sa.totalComics + sb.totalComics
            && s.totalPages == sa.totalPages + sb.totalPages
            && s.completedComics == sa.completedComics + sb.completedComics
            && s.inProgressComics == sa.inProgressComics + sb.inProgressComics
            && s.readPages == sa.readPages + sb.readPages
  {
    SumAppend(a, b, PagesOf);
    SumAppend(a, b, ReadOf);
    CountAppend(a, b, IsCompleted);
    CountAppend(a, b, IsInProgress);
  }

  /** No comic counts as both completed and in progress. */
  lemma {:induction false} CountsDisjoint(cs: seq<Comic>)
    ensures StatsOf(cs).completedComics + StatsOf(cs).inProgressComics <= |cs|
    decreases |cs|
  {
    if cs != [] {
      CountsDisjoint(cs[..|cs| - 1]);
    }
  }

  /** A comic whose pages are unknown adds nothing to `total_pages`. */
  lemma UnknownPagesAddNothing(cs: seq<Comic>, c: Comic)
    requires c.pages.None?
    ensures StatsOf(cs + [c]).totalPages == StatsOf(cs).totalPages
  {
    assert (cs + [c])[..|cs|] == cs;
  }

  /** Without any progress row nothing is read, completed or in progress. */
  lemma {:induction false} UnreadSeries(cs: seq<Comic>)
    requires forall i :: 0 <= i < |cs| ==> cs[i].progress.None?
    ensures StatsOf(cs).completedComics == 0 && StatsOf(cs).inProgressComics == 0
            && StatsOf(cs).readPages == 0
    decreases |cs|
  {
    if cs != [] {
      UnreadSeries(cs[..|cs| - 1]);
    }
  }

  /** When every comic is completed, the completed count is the number of
      comics and none is in progress. */
  lemma {:induction false} FinishedSeries(cs: seq<Comic>)
    requires forall i :: 0 <= i < |cs| ==> IsCompleted(cs[i])
    ensures StatsOf(cs).completedComics == |cs| && StatsOf(cs).inProgressComics == 0
    decreases |cs|
  {
    if cs != [] {
      FinishedSeries(cs[..|cs| - 1]);
    }
  }

  // ---------------------------------------------------------------------------
  // Continue reading
  // ---------------------------------------------------------------------------

  /** The first loop's test: no progress, or started and not completed. */
  predicate Resumable(c: Comic) {
    c.progress.None? || (!c.progress.value.completed && c.progress.value.currentPage > 0)
  }

  /** The second loop's test: no progress. */
  predicate Unread(c: Comic) {
    c.progress.None?
  }

  /** The index of the first comic from `i` on that passes `p`. */
  function FirstFrom(cs: seq<Comic>, p: Comic -> bool, i: nat): (r: Option<nat>)
    requires i <= |cs|
    ensures r.Some? ==> i <= r.value < |cs| && p(cs[r.value])
                        && forall j :: i <= j < r.value ==> !p(cs[j])
    ensures r.None? ==> forall j :: i <= j < |cs| ==> !p(cs[j])
    decreases |cs| - i
  {
    if i == |cs| then None
    else if p(cs[i]) then Some(i)
    else FirstFrom(cs, p, i + 1)
  }

  function ResumeAt(c: Comic): Resume {
    Resume(c.id, c.title, c.chapter, c.volume, match c.progress case Some(p) => p.currentPage case None => 0)
  }

  /** The comic offered for "Continue Reading": the first resumable one,
      failing that the first unread one. */
  function ResumeOf(cs: seq<Comic>): Option<Resume> {
    match FirstFrom(cs, Resumable, 0)
    case Some(i) => Some(ResumeAt(cs[i]))
    case None =>
      match FirstFrom(cs, Unread, 0)
      case Some(i) => Some(ResumeAt(cs[i]))
      case None => None
  }

  /** The two choices: the first loop, then, when it found nothing, the
      second. */
  method ChooseResume(comics: seq<Comic>) returns (r: Option<Resume>)
    ensures r == ResumeOf(comics)
  {
    var found := FindFirst(comics, Resumable);
    if found.None? {
      found := FindFirst(comics, Unread);
    }
    r := if found.Some? then Some(ResumeAt(comics[found.value])) else None;
  }

  /** A `for comic in comics` loop that stops at the first comic passing
      `p`. */
  method FindFirst(comics: seq<Comic>, p: Comic -> bool) returns (found: Option<nat>)
    ensures found == FirstFrom(comics, p, 0)
  {
    var i := 0;
    while i < |comics|
      invariant 0 <= i <= |comics|
      invariant forall j :: 0 <= j < i ==> !p(comics[j])
    {
      if p(comics[i]) {
        return Some(i);
      }
      i := i + 1;
    }
    return None;
  }

  /** The fallback loop never finds anything: an unread comic already
      passes the first loop's test, so the choice is the first resumable
      comic. */
  lemma FallbackNeverFinds(cs: seq<Comic>)
    ensures FirstFrom(cs, Resumable, 0).None? ==> FirstFrom(cs, Unread, 0).None?
    ensures ResumeOf(cs) == match FirstFrom(cs, Resumable, 0)
                            case Some(i) => Some(ResumeAt(cs[i]))
                            case None => None
  {
    if FirstFrom(cs, Resumable, 0).None? {
      forall j | 0 <= j < |cs| ensures !Unread(cs[j]) {
        assert !Resumable(cs[j]);
      }
    }
  }

  /** A comic is offered iff some comic is unread or started and not
      completed; the one offered comes before every other such comic, and
      its page is where the user stopped, or 0 when unread. */
  lemma ResumeIsFirst(cs: seq<Comic>)
    ensures ResumeOf(cs).Some? <==> exists i :: 0 <= i < |cs| && Resumable(cs[i])
    ensures ResumeOf(cs).Some? ==>
              exists i :: 0 <= i < |cs| && Resumable(cs[i]) && ResumeOf(cs).value.comicId == cs[i].id
                          && ResumeOf(cs).value.page == ReadOf(cs[i])
                          && forall j :: 0 <= j < i ==> !Resumable(cs[j])
  {
    FallbackNeverFinds(cs);
  }

  /** When every comic is completed there is nothing to continue. */
  lemma NothingToResume(cs: seq<Comic>)
    requires forall i :: 0 <= i < |cs| ==> IsCompleted(cs[i])
    ensures ResumeOf(cs).None?
  {
    FallbackNeverFinds(cs);
  }

  // ---------------------------------------------------------------------------
  // GET /api/series/{series_name}
  // ---------------------------------------------------------------------------

  function NotFound(): ListRoutes.HttpError {
    ListRoutes.HttpError(404, "Series not found")
  }

  /** The detail page of a series with the given comics. */
  function DetailOf(comics: seq<Comic>): Detail {
    Detail(seq(|comics|, i requires 0 <= i < |comics| => ViewAt(comics, i)), StatsOf(comics), ResumeOf(comics))
  }

  /** `get_series_detail`: 404 when the series is not found, else the
      links, the statistics and the comic to continue with. */
  method GetSeriesDetail(found: Option<seq<Comic>>) returns (r: Result<Detail, ListRoutes.HttpError>)
    ensures found.None? <==> r == Err(NotFound())
    ensures found.Some? ==> r == Ok(DetailOf(found.value))
  {
    if found.None? {
      return Err(NotFound());
    }
    var comics := found.value;
    var views := AddLinks(comics);
    var stats := ComputeStats(comics);
    var resume := ChooseResume(comics);
    assert views == DetailOf(comics).comics;
    r := Ok(Detail(views, stats, resume));
  }

  // ---------------------------------------------------------------------------
  // POST /api/series/rating
  // ---------------------------------------------------------------------------

  function RatingRange(): ListRoutes.HttpError {
    ListRoutes.HttpError(400, "Rating must be between 1 and 5")
  }

  /** The `ratings` table: one rating per user and series. */
  class Ratings {
    var rows: map<(int, int), int>

    /** The table's CHECK constraint. */
    ghost predicate Valid()
      reads this
    {
      forall k :: k in rows ==> 1 <= rows[k] <= 5
    }

    constructor ()
      ensures rows == map[] && Valid()
    {
      rows := map[];
    }

    /** `get_user_rating`. */
    function UserRating(user: int, series: int): (r: Option<int>)
      reads this
      requires Valid()
      ensures r.Some? <==> (user, series) in rows
      ensures r.Some? ==> 1 <= r.value <= 5
    {
      if (user, series) in rows then Some(rows[(user, series)]) else None
    }

    /** `rate_series`: a rating outside 1..5 is refused with 400 before
        anything is written; otherwise `add_rating` inserts it or replaces
        the user's earlier rating of the series. */
    method RateSeries(user: int, series: int, rating: int) returns (r: Result<String, ListRoutes.HttpError>)
      requires Valid()
      modifies this
      ensures Valid()
      ensures !(1 <= rating <= 5) ==> r == Err(RatingRange()) && rows == old(rows)
      ensures 1 <= rating <= 5 ==> r == Ok("Rating saved") && rows == old(rows)[(user, series) := rating]
      ensures r.Ok? ==> UserRating(user, series) == Some(rating)
    {
      if !(1 <= rating <= 5) {
        return Err(RatingRange());
      }
      rows := rows[(user, series) := rating];
      r := Ok("Rating saved");
    }
  }
}
