/** The HTTP handlers of `routes/lists.py` over the tables of `Lists`: the
    visibility and ownership checks, the pagination of `GET /api/lists`, and
    the counting loop of the bulk add. The signed-in user is a parameter and
    the set of series ids stands for the `series` table. */
module ListRoutes {
  import opened Text
  import opened Wrappers
  import opened Collections
  import opened Lists

  /** An `HTTPException` (or, for status 500, an exception FastAPI turns into
      one). */
  datatype HttpError = HttpError(status: int, detail: String)

  function ListNotFound(): HttpError { HttpError(404, "List not found") }

  /** A handler that answers with a fixed success message. */
  datatype Done = Done

  /** The body of `GET /api/lists/{list_id}`. */
  datatype ListDetails = ListDetails(list: UserList, items: seq<ListItem>)

  /** The body of a bulk add. */
  datatype BulkCounts = BulkCounts(added: nat, skipped: nat)

  /** One entry of the `GET /api/lists` page: the list and its `item_count`. */
  datatype CountedList = CountedList(list: UserList, itemCount: nat)

  /** The body of `GET /api/lists`. */
  datatype ListsPage = ListsPage(items: seq<CountedList>, total: nat, limit: int, offset: int, hasMore: bool)

  // ---------------------------------------------------------------------------
  // Python slicing
  // ---------------------------------------------------------------------------

  /** A slice bound as Python reads it: negative counts from the end, then
      clamped to the sequence. */
  function PyBound(i: int, n: nat): (r: nat)
    ensures r <= n
    ensures 0 <= i <= n ==> r == i
  {
    if i < 0 then (if i + n < 0 then 0 else i + n) else if i > n then n else i
  }

  /** `xs[a:b]`. */
  function PySlice<T>(xs: seq<T>, a: int, b: int): (r: seq<T>)
    ensures |r| <= |xs|
  {
    var i, j := PyBound(a, |xs|), PyBound(b, |xs|);
    if i < j then xs[i..j] else []
  }

  /** With a non-negative offset and limit, a page holds the `limit` lists
      from `offset` on (fewer at the end), and `has_more` says exactly that
      lists remain after it. */
  lemma PageOfNonNegative<T>(all: seq<T>, limit: int, offset: int)
    requires 0 <= offset && 0 <= limit
    ensures var items := PySlice(all, offset, offset + limit);
            && |items| == (if offset >= |all| then 0 else if offset + limit <= |all| then limit else |all| - offset)
            && (forall i :: 0 <= i < |items| ==> items[i] == all[offset + i])
            && (offset + |items| < |all| <==> offset + limit < |all|)
  {
  }

  /** Consecutive pages of the same size cover the lists they span, in order,
      with nothing repeated or skipped. */
  lemma PagesConcatenate<T>(all: seq<T>, limit: int, offset: int)
    requires 0 <= offset && 0 <= limit
    ensures PySlice(all, offset, offset + limit) + PySlice(all, offset + limit, offset + 2 * limit)
            == PySlice(all, offset, offset + 2 * limit)
  {
    var n := |all|;
    var a, b, c := PyBound(offset, n), PyBound(offset + limit, n), PyBound(offset + 2 * limit, n);
    assert a <= b <= c;
    if a < b && b < c {
      assert all[a..b] + all[b..c] == all[a..c];
    }
  }

  /** A negative offset counts from the end: of ten lists, offset -5 and
      limit 20 give the last five, and `has_more` still says more follow. */
  lemma NegativeOffsetPage<T>(all: seq<T>)
    requires |all| == 10
    ensures PySlice(all, -5, -5 + 20) == all[5..]
    ensures -5 + |PySlice(all, -5, -5 + 20)| < |all|
  {
  }

  // ---------------------------------------------------------------------------
  // Handlers
  // ---------------------------------------------------------------------------

  /** The items of list `listId`. */
  function ItemCount(items: map<nat, ItemRow>, listId: nat): nat {
    |set k | k in items && items[k].listId == listId|
  }

  const Modify: String := "Not authorized to modify this list"

  /** The checks every handler on one list starts with: 404 when the caller
      cannot see the list, 403 with `denied` when it is visible but someone
      else's. */
  method Authorize(t: ListsTable, user: nat, listId: nat, denied: String) returns (e: Option<HttpError>)
    ensures e.None? <==> listId in t.lists && t.lists[listId].owner == user
    ensures e == Some(ListNotFound()) <==> !(listId in t.lists && Visible(t.lists[listId], Some(user)))
    ensures e.Some? && e != Some(ListNotFound()) ==> e.value == HttpError(403, denied)
  {
    var lst := t.GetList(listId, Some(user));
    if lst.None? {
      return Some(ListNotFound());
    }
    if lst.value.row.owner != user {
      return Some(HttpError(403, denied));
    }
    return None;
  }

  /** The item counts the loop of `get_lists` attaches to a page. */
  method CountItems(t: ListsTable, page: seq<UserList>) returns (r: seq<CountedList>)
    ensures |r| == |page|
    ensures forall i :: 0 <= i < |r| ==> r[i] == CountedList(page[i], ItemCount(t.items, page[i].id))
  {
    r := [];
    var its := t.items;
    for i := 0 to |page|
      invariant |r| == i
      invariant forall j :: 0 <= j < i ==> r[j] == CountedList(page[j], ItemCount(its, page[j].id))
    {
      var count := ItemCount(its, page[i].id);
      r := r + [CountedList(page[i], count)];
    }
  }

  /** `counted` is the page `all[offset:offset + limit]` with the item count
      of each list. */
  predicate CountedPage(counted: seq<CountedList>, all: seq<UserList>, items: map<nat, ItemRow>, limit: int, offset: int) {
    var slice := PySlice(all, offset, offset + limit);
    |counted| == |slice|
    && forall i :: 0 <= i < |counted| ==> counted[i] == CountedList(slice[i], ItemCount(items, slice[i].id))
  }

  /** `GET /api/lists`: the caller's lists and every public list, newest
      first, sliced as Python slices, with the total and `has_more`. */
  method GetLists(t: ListsTable, user: nat, limit: int, offset: int) returns (page: ListsPage)
    ensures exists all: seq<UserList> ::
              Distinct(all) && SortedBy(all, RecentFirst)
              && (forall l :: l in all <==> l.id in t.lists && l.row == t.lists[l.id] && Visible(l.row, Some(user)))
              && page.total == |all|
              && CountedPage(page.items, all, t.items, limit, offset)
    ensures page.limit == limit && page.offset == offset
    ensures page.hasMore <==> offset + |page.items| < page.total
  {
    var all := t.GetUserLists(user);
    var slice := PySlice(all, offset, offset + limit);
    var counted := CountItems(t, slice);
    page := ListsPage(counted, |all|, limit, offset, offset + |counted| < |all|);
    assert CountedPage(page.items, all, t.items, limit, offset);
  }

  /** `POST /api/lists`: 400 when the caller already has a list of that name. */
  method CreateListRoute(t: ListsTable, user: nat, name: String, description: Option<String>, isPublic: bool, now: int)
    returns (r: Result<nat, HttpError>)
    requires t.Valid()
    modifies t
    ensures t.Valid() && t.items == old(t.items)
    ensures r.Err? <==> NameUsed(old(t.lists), user, name)
    ensures r.Err? ==> r.error == HttpError(400, "List name already exists") && t.lists == old(t.lists)
    ensures r.Ok? ==> r.value !in old(t.lists)
                      && t.lists == old(t.lists)[r.value := ListRow(user, name, description, isPublic, now)]
  {
    var id := t.CreateList(user, name, description, isPublic, now);
    if id.None? {
      return Err(HttpError(400, "List name already exists"));
    }
    return Ok(id.value);
  }

  /** `GET /api/lists/{list_id}`: 404 unless the caller may see the list;
      otherwise the list and its items. */
  method GetListDetails(t: ListsTable, user: nat, listId: nat, series: map<nat, SeriesCard>)
    returns (r: Result<ListDetails, HttpError>)
    ensures r.Err? <==> !(listId in t.lists && Visible(t.lists[listId], Some(user)))
    ensures r.Err? ==> r.error == ListNotFound()
    ensures r.Ok? ==> r.value.list == UserList(listId, t.lists[listId])
                      && SortedBy(r.value.items, PositionBefore)
                      && forall x :: x in r.value.items <==> (x.id in t.items && x.item == t.items[x.id] && x.item.listId == listId
                                                              && x.item.seriesId in series && x.series == series[x.item.seriesId])
  {
    var lst := t.GetList(listId, Some(user));
    if lst.None? {
      return Err(ListNotFound());
    }
    var items := t.GetListItems(listId, series);
    return Ok(ListDetails(lst.value, items));
  }

  /** `PUT /api/lists/{list_id}`: only the given fields are passed on, so the
      description can never be set to NULL here; 400 when nothing was given,
      500 when a rename collides. */
  method UpdateListRoute(t: ListsTable, user: nat, listId: nat, name: Option<String>, description: Option<String>,
                         isPublic: Option<bool>, now: int)
    returns (r: Result<Done, HttpError>)
    requires t.Valid()
    modifies t
    ensures t.Valid() && t.items == old(t.items)
    ensures r.Ok? <==> listId in old(t.lists) && old(t.lists)[listId].owner == user
                       && (name.Some? || description.Some? || isPublic.Some?)
                       && !RenameCollides(old(t.lists), listId, ListEdit(name, if description.Some? then Some(description) else None, isPublic))
    ensures r.Ok? ==> t.lists == old(t.lists)[listId := Edited(old(t.lists)[listId],
                                                              ListEdit(name, if description.Some? then Some(description) else None, isPublic), now)]
    ensures r.Err? ==> t.lists == old(t.lists)
    ensures r.Err? && !(listId in old(t.lists) && old(t.lists)[listId].owner == user) ==> r.error.status in {403, 404}
    ensures r.Err? && r.error.status == 400 <==> listId in old(t.lists) && old(t.lists)[listId].owner == user
                                                 && name.None? && description.None? && isPublic.None?
    ensures r.Err? && r.error.status == 500 <==> listId in old(t.lists) && old(t.lists)[listId].owner == user
                                                 && (name.Some? || description.Some? || isPublic.Some?)
                                                 && RenameCollides(old(t.lists), listId, ListEdit(name, if description.Some? then Some(description) else None, isPublic))
  {
    var e := Authorize(t, user, listId, "Not authorized to update this list");
    if e.Some? {
      return Err(e.value);
    }
    var edit := ListEdit(name, if description.Some? then Some(description) else None, isPublic);
    var res := t.UpdateList(listId, user, edit, now);
    if res.Err? {
      return Err(HttpError(500, res.error));
    }
    if !res.value {
      return Err(HttpError(400, "Failed to update list"));
    }
    return Ok(Done);
  }

  /** `DELETE /api/lists/{list_id}`: the ownership check comes first, so a
      caller who does not own the list deletes none of its items. */
  method DeleteListRoute(t: ListsTable, user: nat, listId: nat) returns (r: Result<Done, HttpError>)
    requires t.Valid()
    modifies t
    ensures t.Valid()
    ensures r.Ok? <==> listId in old(t.lists) && old(t.lists)[listId].owner == user
    ensures r.Ok? ==> t.lists == old(t.lists) - {listId} && t.items == WithoutList(old(t.items), listId)
    ensures r.Err? ==> t.lists == old(t.lists) && t.items == old(t.items) && r.error.status in {403, 404}
  {
    var e := Authorize(t, user, listId, "Not authorized to delete this list");
    if e.Some? {
      return Err(e.value);
    }
    var ok := t.DeleteList(listId, user);
    if !ok {
      return Err(HttpError(400, "Failed to delete list"));
    }
    return Ok(Done);
  }

  /** `POST /api/lists/{list_id}/items`: 404/403 for the list, 404 for a
      missing series, 400 for a series already in the list. */
  method AddItemRoute(t: ListsTable, user: nat, listId: nat, seriesId: nat, position: Option<int>,
                      series: set<nat>, now: int)
    returns (r: Result<Done, HttpError>)
    requires t.Valid()
    modifies t
    ensures t.Valid()
    ensures r.Ok? <==> listId in old(t.lists) && old(t.lists)[listId].owner == user && seriesId in series
                       && !PairUsed(old(t.items), listId, seriesId)
    ensures r.Err? ==> t.lists == old(t.lists) && t.items == old(t.items)
    ensures r.Ok? ==> old(t.nextItem) !in old(t.items)
                      && t.items == old(t.items)[old(t.nextItem) := ItemRow(listId, seriesId,
                                                                            if position.Some? then position.value
                                                                            else NextPosition(old(t.items), listId), now)]
                      && t.lists == Touch(old(t.lists), listId, now)
  {
    var e := Authorize(t, user, listId, Modify);
    if e.Some? {
      return Err(e.value);
    }
    if seriesId !in series {
      return Err(HttpError(404, "Series not found"));
    }
    var ok := t.AddSeriesToList(listId, seriesId, position, now);
    if !ok {
      return Err(HttpError(400, "Series already in list or failed to add"));
    }
    return Ok(Done);
  }

  /** `DELETE /api/lists/{list_id}/items/{series_id}`: 404 when the series
      was not in the list (the list is touched all the same). */
  method RemoveItemRoute(t: ListsTable, user: nat, listId: nat, seriesId: nat, now: int)
    returns (r: Result<Done, HttpError>)
    requires t.Valid()
    modifies t
    ensures t.Valid()
    ensures r.Ok? <==> listId in old(t.lists) && old(t.lists)[listId].owner == user && PairUsed(old(t.items), listId, seriesId)
    ensures !(listId in old(t.lists) && old(t.lists)[listId].owner == user) ==> t.lists == old(t.lists) && t.items == old(t.items)
    ensures listId in old(t.lists) && old(t.lists)[listId].owner == user ==>
              t.items == WithoutPair(old(t.items), listId, seriesId) && t.lists == Touch(old(t.lists), listId, now)
  {
    var e := Authorize(t, user, listId, Modify);
    if e.Some? {
      return Err(e.value);
    }
    var ok := t.RemoveSeriesFromList(listId, seriesId, now);
    if !ok {
      return Err(HttpError(404, "Series not found in list"));
    }
    return Ok(Done);
  }

  /** `POST /api/lists/{list_id}/reorder`: 400 for an empty order. */
  method ReorderRoute(t: ListsTable, user: nat, listId: nat, order: seq<nat>, now: int)
    returns (r: Result<Done, HttpError>)
    requires t.Valid()
    modifies t
    ensures t.Valid()
    ensures r.Ok? <==> listId in old(t.lists) && old(t.lists)[listId].owner == user && order != []
    ensures r.Ok? ==> t.items == Reordered(old(t.items), listId, order) && t.lists == Touch(old(t.lists), listId, now)
    ensures r.Err? ==> t.items == old(t.items) && t.lists == old(t.lists)
  {
    var e := Authorize(t, user, listId, Modify);
    if e.Some? {
      return Err(e.value);
    }
    var ok := t.ReorderListItems(listId, order, now);
    if !ok {
      return Err(HttpError(400, "Failed to reorder items"));
    }
    return Ok(Done);
  }

  // ---------------------------------------------------------------------------
  // Bulk add
  // ---------------------------------------------------------------------------

  /** The series of list `listId`. */
  ghost function Members(items: map<nat, ItemRow>, listId: nat): set<nat> {
    set k | k in items && items[k].listId == listId :: items[k].seriesId
  }

  lemma MembersArePairs(items: map<nat, ItemRow>, listId: nat, s: nat)
    ensures s in Members(items, listId) <==> PairUsed(items, listId, s)
  {
    if PairUsed(items, listId, s) {
      var k :| k in items && items[k].listId == listId && items[k].seriesId == s;
      assert items[k].seriesId in Members(items, listId);
    }
  }

  /** The series a bulk add puts in: given, existing, and not yet in the list. */
  ghost function NewMembers(ids: seq<nat>, series: set<nat>, before: set<nat>): set<nat> {
    set s | s in ids && s in series && s !in before
  }

  /** One more id of a bulk add. */
  lemma NewMembersStep(ids: seq<nat>, s: nat, series: set<nat>, before: set<nat>)
    ensures NewMembers(ids + [s], series, before)
            == NewMembers(ids, series, before) + (if s in series && s !in before then {s} else {})
  {
  }

  /** What the loop of `bulk_add_series` keeps after the ids `done`. */
  ghost predicate BulkInv(items: map<nat, ItemRow>, listId: nat, before: set<nat>, done: seq<nat>, series: set<nat>, added: nat) {
    added == |NewMembers(done, series, before)|
    && Members(items, listId) == before + NewMembers(done, series, before)
  }

  /** One id of the bulk add: it is added exactly when its series exists and
      is not in the list yet, counting earlier ids of the same request. */
  lemma BulkStep(was: map<nat, ItemRow>, items: map<nat, ItemRow>, listId: nat, before: set<nat>, ids: seq<nat>,
                 i: nat, series: set<nat>, added: nat, ok: bool)
    requires i < |ids| && BulkInv(was, listId, before, ids[..i], series, added)
    requires ok ==> ids[i] in series && ids[i] !in Members(was, listId) && Members(items, listId) == Members(was, listId) + {ids[i]}
    requires !ok ==> items == was && (ids[i] !in series || ids[i] in Members(was, listId))
    ensures BulkInv(items, listId, before, ids[..i + 1], series, if ok then added + 1 else added)
  {
    var done, s := ids[..i], ids[i];
    assert ids[..i + 1] == done + [s];
    NewMembersStep(done, s, series, before);
    if ok {
      assert s !in NewMembers(done, series, before);
    } else {
      assert NewMembers(done + [s], series, before) == NewMembers(done, series, before);
    }
  }

  /** What a bulk add leaves of the tables it started from: every earlier item
      as it was, each new item in list `listId`, added at `now` after every
      earlier item of that list, and the list touched once anything was added. */
  ghost predicate BulkFrame(items0: map<nat, ItemRow>, items: map<nat, ItemRow>, lists0: map<nat, ListRow>,
                            lists: map<nat, ListRow>, listId: nat, now: int, added: nat)
  {
    lists == (if added > 0 then Touch(lists0, listId, now) else lists0)
    && (forall k :: k in items0 ==> k in items && items[k] == items0[k])
    && (forall k :: k in items && k !in items0 ==>
          items[k].listId == listId && items[k].addedAt == now
          && forall j :: j in items0 && items0[j].listId == listId ==> items0[j].position < items[k].position)
  }

  /** One `add_series_to_list` of the bulk add keeps the frame. */
  lemma BulkFrameStep(items0: map<nat, ItemRow>, was: map<nat, ItemRow>, items: map<nat, ItemRow>,
                      lists0: map<nat, ListRow>, wasLists: map<nat, ListRow>, lists: map<nat, ListRow>,
                      listId: nat, now: int, added: nat, k: nat, s: nat)
    requires BulkFrame(items0, was, lists0, wasLists, listId, now, added)
    requires k !in was && items == was[k := ItemRow(listId, s, NextPosition(was, listId), now)]
    requires lists == Touch(wasLists, listId, now)
    ensures BulkFrame(items0, items, lists0, lists, listId, now, added + 1)
  {
    forall j | j in items0 && items0[j].listId == listId
      ensures items0[j].position < items[k].position
    {
      assert was[j] == items0[j];
    }
  }

  /** One id of `bulk_add_series`: a missing series is skipped; otherwise
      `add_series_to_list` adds it after the list's items unless it is a member. */
  method BulkAddOne(t: ListsTable, listId: nat, s: nat, series: set<nat>, now: int) returns (ok: bool)
    requires t.Valid()
    modifies t
    ensures t.Valid()
    ensures ok ==> s in series && s !in Members(old(t.items), listId)
                   && Members(t.items, listId) == Members(old(t.items), listId) + {s}
                   && old(t.nextItem) !in old(t.items)
                   && t.items == old(t.items)[old(t.nextItem) := ItemRow(listId, s, NextPosition(old(t.items), listId), now)]
                   && t.lists == Touch(old(t.lists), listId, now)
    ensures !ok ==> t.items == old(t.items) && t.lists == old(t.lists)
                    && (s !in series || s in Members(old(t.items), listId))
  {
    ok := false;
    if s in series {
      ghost var was, newId := t.items, t.nextItem;
      MembersArePairs(was, listId, s);
      ok := t.AddSeriesToList(listId, s, None, now);
      if ok {
        AddedMember(was, newId, t.items[newId], listId);
      }
    }
  }

  /** The loop of `bulk_add_series`: each id counts once, as added when the
      series exists and was not yet in the list, as skipped otherwise. Items
      of other lists and other lists' rows are left as they were. */
  method BulkAddLoop(t: ListsTable, listId: nat, ids: seq<nat>, series: set<nat>, now: int)
    returns (added: nat, skipped: nat)
    requires t.Valid()
    modifies t
    ensures t.Valid()
    ensures added + skipped == |ids|
    ensures added == |NewMembers(ids, series, Members(old(t.items), listId))|
    ensures Members(t.items, listId) == Members(old(t.items), listId) + NewMembers(ids, series, Members(old(t.items), listId))
    ensures BulkFrame(old(t.items), t.items, old(t.lists), t.lists, listId, now, added)
  {
    ghost var before := Members(t.items, listId);
    ghost var items0, lists0 := t.items, t.lists;
    added, skipped := 0, 0;
    BulkLoopStart(items0, lists0, listId, now, ids, series);
    for i := 0 to |ids|
      invariant t.Valid()
      invariant BulkLoopInv(items0, lists0, t.items, t.lists, listId, now, before, ids, i, series, added, skipped)
    {
      ghost var was, wasLists, newId := t.items, t.lists, t.nextItem;
      var ok := BulkAddOne(t, listId, ids[i], series, now);
      BulkLoopStep(items0, lists0, was, wasLists, t.items, t.lists, listId, now, before, ids, i, series,
                   added, skipped, ok, newId);
      added, skipped := if ok then added + 1 else added, if ok then skipped else skipped + 1;
    }
    BulkLoopEnd(items0, lists0, t.items, t.lists, listId, now, before, ids, series, added, skipped);
  }

  /** Before the first id nothing is added or skipped. */
  lemma BulkLoopStart(items0: map<nat, ItemRow>, lists0: map<nat, ListRow>, listId: nat, now: int,
                      ids: seq<nat>, series: set<nat>)
    ensures BulkLoopInv(items0, lists0, items0, lists0, listId, now, Members(items0, listId), ids, 0, series, 0, 0)
  {
    assert ids[..0] == [];
  }

  /** After the last id the invariant speaks of the whole request. */
  lemma BulkLoopEnd(items0: map<nat, ItemRow>, lists0: map<nat, ListRow>, items: map<nat, ItemRow>,
                    lists: map<nat, ListRow>, listId: nat, now: int, before: set<nat>, ids: seq<nat>,
                    series: set<nat>, added: nat, skipped: nat)
    requires BulkLoopInv(items0, lists0, items, lists, listId, now, before, ids, |ids|, series, added, skipped)
    ensures added + skipped == |ids|
    ensures added == |NewMembers(ids, series, before)|
    ensures Members(items, listId) == before + NewMembers(ids, series, before)
    ensures BulkFrame(items0, items, lists0, lists, listId, now, added)
  {
    assert ids[..|ids|] == ids;
  }

  /** What the loop of `bulk_add_series` keeps after the first `i` ids. */
  ghost predicate BulkLoopInv(items0: map<nat, ItemRow>, lists0: map<nat, ListRow>, items: map<nat, ItemRow>,
                              lists: map<nat, ListRow>, listId: nat, now: int, before: set<nat>, ids: seq<nat>,
                              i: nat, series: set<nat>, added: nat, skipped: nat)
  {
    i <= |ids| && added + skipped == i
    && BulkInv(items, listId, before, ids[..i], series, added)
    && BulkFrame(items0, items, lists0, lists, listId, now, added)
  }

  /** One id of the loop, added or skipped, keeps the loop's invariant. */
  lemma BulkLoopStep(items0: map<nat, ItemRow>, lists0: map<nat, ListRow>, was: map<nat, ItemRow>,
                     wasLists: map<nat, ListRow>, items: map<nat, ItemRow>, lists: map<nat, ListRow>,
                     listId: nat, now: int, before: set<nat>, ids: seq<nat>, i: nat, series: set<nat>,
                     added: nat, skipped: nat, ok: bool, newId: nat)
    requires i < |ids| && BulkLoopInv(items0, lists0, was, wasLists, listId, now, before, ids, i, series, added, skipped)
    requires ok ==> ids[i] in series && ids[i] !in Members(was, listId)
                    && Members(items, listId) == Members(was, listId) + {ids[i]}
                    && newId !in was && items == was[newId := ItemRow(listId, ids[i], NextPosition(was, listId), now)]
                    && lists == Touch(wasLists, listId, now)
    requires !ok ==> items == was && lists == wasLists && (ids[i] !in series || ids[i] in Members(was, listId))
    ensures BulkLoopInv(items0, lists0, items, lists, listId, now, before, ids, i + 1, series,
                        if ok then added + 1 else added, if ok then skipped else skipped + 1)
  {
    BulkStep(was, items, listId, before, ids, i, series, added, ok);
    if ok {
      BulkFrameStep(items0, was, items, lists0, wasLists, lists, listId, now, added, newId, ids[i]);
    }
  }

  /** Adding an item of list `listId` adds its series to the members. */
  lemma AddedMember(items: map<nat, ItemRow>, k: nat, row: ItemRow, listId: nat)
    requires k !in items && row.listId == listId
    ensures Members(items[k := row], listId) == Members(items, listId) + {row.seriesId}
  {
    var m := items[k := row];
    forall s ensures s in Members(m, listId) <==> s in Members(items, listId) + {row.seriesId} {
      if s in Members(m, listId) {
        var j :| j in m && m[j].listId == listId && m[j].seriesId == s;
        if j != k {
          assert items[j].seriesId in Members(items, listId);
        }
      }
      if s in Members(items, listId) {
        var j :| j in items && items[j].listId == listId && items[j].seriesId == s;
        assert m[j].seriesId in Members(m, listId);
      }
      assert m[k].seriesId in Members(m, listId);
    }
  }

  /** `POST /api/lists/{list_id}/items/bulk`: 404/403 for the list, 400 for an
      empty id list; otherwise the added and skipped counts. */
  method BulkAddSeries(t: ListsTable, user: nat, listId: nat, ids: seq<nat>, series: set<nat>, now: int)
    returns (r: Result<BulkCounts, HttpError>)
    requires t.Valid()
    modifies t
    ensures t.Valid()
    ensures r.Ok? <==> listId in old(t.lists) && old(t.lists)[listId].owner == user && ids != []
    ensures r.Err? ==> t.items == old(t.items) && t.lists == old(t.lists)
    ensures r.Ok? ==> r.value.added + r.value.skipped == |ids|
                      && r.value.added == |NewMembers(ids, series, Members(old(t.items), listId))|
                      && Members(t.items, listId) == Members(old(t.items), listId) + NewMembers(ids, series, Members(old(t.items), listId))
                      && BulkFrame(old(t.items), t.items, old(t.lists), t.lists, listId, now, r.value.added)
  {
    var e := Authorize(t, user, listId, Modify);
    if e.Some? {
      return Err(e.value);
    }
    if ids == [] {
      return Err(HttpError(400, "No series IDs provided"));
    }
    var added, skipped := BulkAddLoop(t, listId, ids, series, now);
    return Ok(BulkCounts(added, skipped));
  }

  /** The counts of a bulk add depend only on which ids exist and which are
      in the list already: at most one addition per distinct new series, and
      every missing series is skipped. */
  lemma BulkCountsBound(ids: seq<nat>, series: set<nat>, before: set<nat>)
    ensures |NewMembers(ids, series, before)| <= |ids|
    ensures (forall s :: s in ids ==> s !in series) ==> NewMembers(ids, series, before) == {}
  {
    var n := NewMembers(ids, series, before);
    assert n <= Elems(ids);
    ElemsBound(ids);
    SubsetCard(n, Elems(ids));
  }

  /** A list has at most as many distinct elements as entries. */
  lemma {:induction false} ElemsBound<T>(xs: seq<T>)
    ensures |Elems(xs)| <= |xs|
    decreases |xs|
  {
    if xs != [] {
      var init, last := xs[..|xs| - 1], xs[|xs| - 1];
      ElemsBound(init);
      assert Elems(xs) == Elems(init) + {last} by {
        assert xs == init + [last];
      }
    }
  }
}
