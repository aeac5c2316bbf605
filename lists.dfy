/** User lists of series and their items (`db/lists.py`), over the tables
    `user_lists` (UNIQUE(user_id, name)) and `user_list_items`
    (UNIQUE(list_id, series_id)). Foreign keys are not enforced: the
    connection never enables them. */
module Lists {
  import opened Text
  import opened Wrappers
  import opened Collections

  /** A `user_lists` row; `id` is the map key. */
  datatype ListRow = ListRow(owner: nat, name: String, description: Option<String>, isPublic: bool, updatedAt: int)

  /** A `user_list_items` row; `id` is the map key. */
  datatype ItemRow = ItemRow(listId: nat, seriesId: nat, position: int, addedAt: int)

  /** A list as the readers return it. */
  datatype UserList = UserList(id: nat, row: ListRow)

  /** A row of `get_series_lists`. */
  datatype ListSummary = ListSummary(id: nat, name: String, isPublic: bool)

  /** The series columns `get_list_items` joins in. */
  datatype SeriesCard = SeriesCard(name: String, coverComicId: Option<String>)

  /** A row of `get_list_items`. */
  datatype ListItem = ListItem(id: nat, item: ItemRow, series: SeriesCard)

  /** The keyword arguments of `update_list` that pass the whitelist: a new
      name, a new description (which may be NULL), the truthiness of a new
      `is_public`. */
  datatype ListEdit = ListEdit(name: Option<String>, description: Option<Option<String>>, isPublic: Option<bool>)

  /** The error `update_list` lets escape when a rename collides. */
  const NameTaken: String := "UNIQUE constraint failed: user_lists.user_id, user_lists.name"

  /** `get_list`'s WHERE clause: public, or owned by the caller. */
  predicate Visible(row: ListRow, user: Option<nat>) {
    row.isPublic || (user.Some? && row.owner == user.value)
  }

  /** UNIQUE(user_id, name). */
  predicate NamesUnique(lists: map<nat, ListRow>) {
    forall a, b :: a in lists && b in lists && a != b ==> lists[a].owner != lists[b].owner || lists[a].name != lists[b].name
  }

  /** UNIQUE(list_id, series_id). */
  predicate PairsUnique(items: map<nat, ItemRow>) {
    forall a, b :: a in items && b in items && a != b ==> items[a].listId != items[b].listId || items[a].seriesId != items[b].seriesId
  }

  /** The user already has a list of that name. */
  predicate NameUsed(lists: map<nat, ListRow>, user: nat, name: String) {
    exists k :: k in lists && lists[k].owner == user && lists[k].name == name
  }

  /** The list already holds that series. */
  predicate PairUsed(items: map<nat, ItemRow>, listId: nat, seriesId: nat) {
    exists k :: k in items && items[k].listId == listId && items[k].seriesId == seriesId
  }

  /** `UPDATE user_lists SET updated_at = CURRENT_TIMESTAMP WHERE id = ?`. */
  function Touch(lists: map<nat, ListRow>, listId: nat, now: int): (r: map<nat, ListRow>)
    ensures r.Keys == lists.Keys
    ensures forall k :: k in lists ==> r[k] == if k == listId then lists[k].(updatedAt := now) else lists[k]
  {
    if listId in lists then lists[listId := lists[listId].(updatedAt := now)] else lists
  }

  /** Touching a list keeps every owner and name. */
  lemma TouchKeepsNames(lists: map<nat, ListRow>, listId: nat, now: int)
    requires NamesUnique(lists)
    ensures NamesUnique(Touch(lists, listId, now))
  {
  }

  /** The row `update_list` writes. */
  function Edited(row: ListRow, edit: ListEdit, now: int): (r: ListRow)
    ensures r.owner == row.owner && r.updatedAt == now
    ensures r.name == edit.name.GetOr(row.name)
    ensures r.isPublic == edit.isPublic.GetOr(row.isPublic)
    ensures r.description == if edit.description.Some? then edit.description.value else row.description
  {
    ListRow(row.owner, edit.name.GetOr(row.name),
            if edit.description.Some? then edit.description.value else row.description,
            edit.isPublic.GetOr(row.isPublic), now)
  }

  /** No whitelisted keyword was given. */
  predicate NoAllowedField(edit: ListEdit) {
    edit.name.None? && edit.description.None? && edit.isPublic.None?
  }

  /** A rename of list `listId` collides with another list of its owner. */
  predicate RenameCollides(lists: map<nat, ListRow>, listId: nat, edit: ListEdit)
    requires listId in lists
  {
    edit.name.Some? &&
    exists k :: k in lists && k != listId && lists[k].owner == lists[listId].owner && lists[k].name == edit.name.value
  }

  /** The items of list `listId` gone, as the first DELETE of `delete_list` does. */
  function WithoutList(items: map<nat, ItemRow>, listId: nat): (r: map<nat, ItemRow>)
    ensures forall k :: k in r <==> k in items && items[k].listId != listId
    ensures forall k :: k in r ==> r[k] == items[k]
  {
    map k | k in items && items[k].listId != listId :: items[k]
  }

  /** The item holding `seriesId` in list `listId` gone. */
  function WithoutPair(items: map<nat, ItemRow>, listId: nat, seriesId: nat): (r: map<nat, ItemRow>)
    ensures forall k :: k in r <==> k in items && (items[k].listId != listId || items[k].seriesId != seriesId)
    ensures forall k :: k in r ==> r[k] == items[k]
  {
    map k | k in items && (items[k].listId != listId || items[k].seriesId != seriesId) :: items[k]
  }

  // ---------------------------------------------------------------------------
  // Positions
  // ---------------------------------------------------------------------------

  /** The positions used in list `listId`. */
  function Positions(items: map<nat, ItemRow>, listId: nat): set<int> {
    set k | k in items && items[k].listId == listId :: items[k].position
  }

  /** A finite set of integers holding `x` has a largest element. */
  lemma MaxExists(s: set<int>, x: int)
    requires x in s
    ensures exists m :: m in s && forall q :: q in s ==> q <= m
    decreases |s|
  {
    var rest := s - {x};
    if y :| y in rest {
      MaxExists(rest, y);
      var m :| m in rest && forall q :: q in rest ==> q <= m;
      var top := if x > m then x else m;
      forall q | q in s ensures q <= top {
        if q != x {
          assert q in rest;
        }
      }
      assert top in s;
    } else {
      forall q | q in s ensures q == x {
        assert q !in rest;
      }
    }
  }

  /** `MAX(position) + 1`, or 0 when the list has no item. */
  ghost function NextPosition(items: map<nat, ItemRow>, listId: nat): (r: int)
    ensures forall k :: k in items && items[k].listId == listId ==> items[k].position < r
    ensures (forall k :: k in items ==> items[k].listId != listId) ==> r == 0
    ensures r == 0 || exists k :: k in items && items[k].listId == listId && items[k].position == r - 1
  {
    var ps := Positions(items, listId);
    assert forall k :: k in items && items[k].listId == listId ==> items[k].position in ps;
    if k :| k in items && items[k].listId == listId then
      MaxExists(ps, items[k].position);
      var m :| m in ps && forall q :: q in ps ==> q <= m;
      m + 1
    else 0
  }

  // ---------------------------------------------------------------------------
  // Reordering
  // ---------------------------------------------------------------------------

  /** The UPDATEs of `reorder_list_items` run in turn: position `i` for the
      `i`-th id when that item belongs to the list. */
  function Reordered(items: map<nat, ItemRow>, listId: nat, order: seq<nat>): (r: map<nat, ItemRow>)
    ensures r.Keys == items.Keys
    decreases |order|
  {
    if order == [] then items
    else
      var prev := Reordered(items, listId, order[..|order| - 1]);
      var id := order[|order| - 1];
      if id in prev && prev[id].listId == listId then prev[id := prev[id].(position := |order| - 1)] else prev
  }

  /** The index of the last occurrence of `id` in `order`, or -1. */
  function LastIndex(order: seq<nat>, id: nat): (i: int)
    ensures -1 <= i < |order|
    ensures i >= 0 ==> order[i] == id
    ensures i == -1 <==> id !in order
    ensures forall j :: i < j < |order| ==> order[j] != id
    decreases |order|
  {
    if order == [] then -1
    else if order[|order| - 1] == id then |order| - 1
    else LastIndex(order[..|order| - 1], id)
  }

  /** After reordering, an item of the list that appears in the order sits at
      the index of its last appearance; every other item is as it was. */
  lemma {:induction false} ReorderedAt(items: map<nat, ItemRow>, listId: nat, order: seq<nat>, id: nat)
    requires id in items
    ensures Reordered(items, listId, order)[id] ==
              if items[id].listId == listId && id in order then items[id].(position := LastIndex(order, id)) else items[id]
    decreases |order|
  {
    if order != [] {
      var init := order[..|order| - 1];
      ReorderedAt(items, listId, init, id);
      if order[|order| - 1] != id {
        assert id in order <==> id in init by {
          if id in order {
            var j :| 0 <= j < |order| && order[j] == id;
            assert init[j] == id;
          }
        }
      }
    }
  }

  /** Distinct ids end up at increasing positions in the order given, which
      is the order `get_list_items` then returns them in. */
  lemma ReorderFollowsOrder(items: map<nat, ItemRow>, listId: nat, order: seq<nat>, i: nat, j: nat)
    requires Distinct(order) && i < |order| && j < |order|
    requires order[i] in items && items[order[i]].listId == listId
    ensures Reordered(items, listId, order)[order[i]].position == i
    ensures i < j && order[j] in items && items[order[j]].listId == listId ==>
              Reordered(items, listId, order)[order[i]].position < Reordered(items, listId, order)[order[j]].position
  {
    ReorderedAt(items, listId, order, order[i]);
    assert order[i] in order;
    if i < j && order[j] in items && items[order[j]].listId == listId {
      ReorderedAt(items, listId, order, order[j]);
      assert order[j] in order;
    }
  }

  /** Reordering changes positions only: list, series and keys stay. */
  lemma ReorderKeepsPairs(items: map<nat, ItemRow>, listId: nat, order: seq<nat>)
    requires PairsUnique(items)
    ensures PairsUnique(Reordered(items, listId, order))
    ensures forall k :: k in items ==> (Reordered(items, listId, order)[k].listId == items[k].listId
                                        && Reordered(items, listId, order)[k].seriesId == items[k].seriesId)
  {
    forall k | k in items
      ensures Reordered(items, listId, order)[k].listId == items[k].listId
      ensures Reordered(items, listId, order)[k].seriesId == items[k].seriesId
    {
      ReorderedAt(items, listId, order, k);
    }
  }

  // ---------------------------------------------------------------------------
  // Orders of the readers
  // ---------------------------------------------------------------------------

  predicate RecentFirst(a: UserList, b: UserList) { a.row.updatedAt > b.row.updatedAt }

  predicate NameBefore(a: ListSummary, b: ListSummary) { LexLess(a.name, b.name) }

  predicate PositionBefore(a: ListItem, b: ListItem) { a.item.position < b.item.position }

  lemma ReaderOrders()
    ensures StrictOrder(RecentFirst) && StrictOrder(NameBefore) && StrictOrder(PositionBefore)
  {
    forall a: ListSummary ensures !NameBefore(a, a) {
      LexLessIrreflexive(a.name);
    }
    forall a: ListSummary, b: ListSummary, c: ListSummary | NameBefore(a, b) && NameBefore(b, c)
      ensures NameBefore(a, c)
    {
      LexLessTransitive(a.name, b.name, c.name);
    }
  }

  /** `LIMIT limit OFFSET offset` as SQLite reads them: a negative limit is no
      limit, a negative offset is no offset. */
  function Window<T>(xs: seq<T>, limit: int, offset: int): (r: seq<T>)
    ensures offset >= 0 && limit >= 0 ==> |r| == if offset >= |xs| then 0 else Min(limit, |xs| - offset)
    ensures r == [] || Max0(offset) + |r| <= |xs|
    ensures forall i :: 0 <= i < |r| ==> r[i] == xs[i + Max0(offset)]
  {
    var o := Max0(offset);
    var rest := if o <= |xs| then xs[o..] else [];
    if limit < 0 then rest else Take(rest, limit)
  }

  function Max0(x: int): nat { if x < 0 then 0 else x }

  function Min(a: int, b: int): int { if a < b then a else b }

  /** A sorted window of a sorted list stays sorted. */
  lemma WindowSorted<T>(xs: seq<T>, limit: int, offset: int, less: (T, T) -> bool)
    requires SortedBy(xs, less)
    ensures SortedBy(Window(xs, limit, offset), less)
  {
    var r := Window(xs, limit, offset);
    forall i, j | 0 <= i < j < |r| ensures !less(r[j], r[i]) {
      assert r[i] == xs[i + Max0(offset)] && r[j] == xs[j + Max0(offset)];
    }
  }

  // ---------------------------------------------------------------------------
  // The tables
  // ---------------------------------------------------------------------------

  class ListsTable {
    var lists: map<nat, ListRow>
    var items: map<nat, ItemRow>
    var nextList: nat
    var nextItem: nat

    /** The UNIQUE constraints, and AUTOINCREMENT ids above every id in use. */
    ghost predicate Valid()
      reads this
    {
      NamesUnique(lists) && PairsUnique(items)
      && (forall k :: k in lists ==> k < nextList)
      && (forall k :: k in items ==> k < nextItem)
    }

    constructor()
      ensures Valid() && lists == map[] && items == map[]
    {
      lists := map[];
      items := map[];
      nextList := 1;
      nextItem := 1;
    }

    /** `create_list`: the new id, or None when the user already has a list of
        that name. */
    method CreateList(user: nat, name: String, description: Option<String>, isPublic: bool, now: int)
      returns (id: Option<nat>)
      requires Valid()
      modifies this
      ensures Valid() && items == old(items)
      ensures id.None? <==> NameUsed(old(lists), user, name)
      ensures id.None? ==> lists == old(lists)
      ensures id.Some? ==> id.value !in old(lists)
                           && lists == old(lists)[id.value := ListRow(user, name, description, isPublic, now)]
    {
      if exists k :: k in lists && lists[k].owner == user && lists[k].name == name {
        return None;
      }
      id := Some(nextList);
      lists := lists[nextList := ListRow(user, name, description, isPublic, now)];
      nextList := nextList + 1;
    }

    /** `get_list`: the list when the caller may see it. */
    method GetList(listId: nat, user: Option<nat>) returns (r: Option<UserList>)
      ensures r.Some? <==> listId in lists && Visible(lists[listId], user)
      ensures r.Some? ==> r.value == UserList(listId, lists[listId])
    {
      if listId in lists && Visible(lists[listId], user) {
        r := Some(UserList(listId, lists[listId]));
      } else {
        r := None;
      }
    }

    /** `get_user_lists`: the user's lists and every public list, each once,
        most recently updated first. */
    method GetUserLists(user: nat) returns (ls: seq<UserList>)
      ensures Distinct(ls)
      ensures forall l :: l in ls <==> l.id in lists && l.row == lists[l.id] && Visible(l.row, Some(user))
      ensures SortedBy(ls, RecentFirst)
    {
      var rs := lists;
      var found := SetToSeq(set k | k in rs && Visible(rs[k], Some(user)) :: UserList(k, rs[k]));
      ReaderOrders();
      ls := SortBy(found, RecentFirst);
      DistinctPermutation(found, ls);
    }

    /** `get_public_lists`: the public lists, most recently updated first, cut
        by LIMIT and OFFSET. */
    method GetPublicLists(limit: int, offset: int) returns (ls: seq<UserList>)
      ensures exists all: seq<UserList> ::
                Distinct(all) && SortedBy(all, RecentFirst)
                && (forall l :: l in all <==> l.id in lists && l.row == lists[l.id] && l.row.isPublic)
                && ls == Window(all, limit, offset)
      ensures SortedBy(ls, RecentFirst)
    {
      var rs := lists;
      var found := SetToSeq(set k | k in rs && rs[k].isPublic :: UserList(k, rs[k]));
      ReaderOrders();
      var all := SortBy(found, RecentFirst);
      DistinctPermutation(found, all);
      ls := Window(all, limit, offset);
      WindowSorted(all, limit, offset, RecentFirst);
    }

    /** `update_list`: false with nothing written when no whitelisted field is
        given or the caller does not own the list; an error escapes when a
        rename collides; otherwise the fields given and `updated_at` are
        written and true returned. */
    method UpdateList(listId: nat, user: nat, edit: ListEdit, now: int) returns (r: Result<bool, String>)
      requires Valid()
      modifies this
      ensures Valid() && items == old(items)
      ensures r == Ok(true) <==> !NoAllowedField(edit) && listId in old(lists) && old(lists)[listId].owner == user
                                 && !RenameCollides(old(lists), listId, edit)
      ensures r.Err? <==> !NoAllowedField(edit) && listId in old(lists) && old(lists)[listId].owner == user
                          && RenameCollides(old(lists), listId, edit)
      ensures r.Err? ==> r.error == NameTaken
      ensures r == Ok(true) ==> lists == old(lists)[listId := Edited(old(lists)[listId], edit, now)]
      ensures r != Ok(true) ==> lists == old(lists)
    {
      if NoAllowedField(edit) {
        return Ok(false);
      }
      if listId !in lists || lists[listId].owner != user {
        return Ok(false);
      }
      if RenameCollides(lists, listId, edit) {
        return Err(NameTaken);
      }
      lists := lists[listId := Edited(lists[listId], edit, now)];
      r := Ok(true);
    }

    /** `delete_list`: the list's items go whoever calls; the list itself goes
        only for its owner, and true says it went. */
    method DeleteList(listId: nat, user: nat) returns (ok: bool)
      requires Valid()
      modifies this
      ensures Valid()
      ensures ok <==> listId in old(lists) && old(lists)[listId].owner == user
      ensures items == WithoutList(old(items), listId)
      ensures lists == if ok then old(lists) - {listId} else old(lists)
    {
      items := WithoutList(items, listId);
      ok := listId in lists && lists[listId].owner == user;
      if ok {
        lists := lists - {listId};
      }
    }

    /** `add_series_to_list`: a series already in the list gives false with
        nothing written; otherwise an item goes in at the given position or
        after every item of the list, and the list is touched. */
    method AddSeriesToList(listId: nat, seriesId: nat, position: Option<int>, now: int) returns (ok: bool)
      requires Valid()
      modifies this
      ensures Valid()
      ensures ok <==> !PairUsed(old(items), listId, seriesId)
      ensures !ok ==> lists == old(lists) && items == old(items)
      ensures ok ==> old(nextItem) !in old(items)
                     && items == old(items)[old(nextItem) := ItemRow(listId, seriesId,
                                                                     if position.Some? then position.value
                                                                     else NextPosition(old(items), listId), now)]
                     && lists == Touch(old(lists), listId, now)
    {
      var pos: int;
      if position.Some? {
        pos := position.value;
      } else {
        pos := MaxPositionPlusOne(listId);
      }
      if exists k :: k in items && items[k].listId == listId && items[k].seriesId == seriesId {
        return false;
      }
      items := items[nextItem := ItemRow(listId, seriesId, pos, now)];
      nextItem := nextItem + 1;
      TouchKeepsNames(lists, listId, now);
      lists := Touch(lists, listId, now);
      ok := true;
    }

    /** The default position of `add_series_to_list`: `MAX(position) + 1`
        over the list's items, or 0 when the maximum is NULL. */
    method MaxPositionPlusOne(listId: nat) returns (pos: int)
      ensures pos == NextPosition(items, listId)
    {
      var its := items;
      var ps := Positions(its, listId);
      if k :| k in its && its[k].listId == listId {
        MaxExists(ps, its[k].position);
        var m :| m in ps && forall q :: q in ps ==> q <= m;
        pos := m + 1;
        NextPositionIs(its, listId, m);
      } else {
        pos := 0;
      }
    }

    /** `remove_series_from_list`: true iff the item was there; the list is
        touched either way. */
    method RemoveSeriesFromList(listId: nat, seriesId: nat, now: int) returns (ok: bool)
      requires Valid()
      modifies this
      ensures Valid()
      ensures ok <==> PairUsed(old(items), listId, seriesId)
      ensures items == WithoutPair(old(items), listId, seriesId)
      ensures lists == Touch(old(lists), listId, now)
    {
      ok := exists k :: k in items && items[k].listId == listId && items[k].seriesId == seriesId;
      items := WithoutPair(items, listId, seriesId);
      TouchKeepsNames(lists, listId, now);
      lists := Touch(lists, listId, now);
    }

    /** `get_series_lists`: the caller's lists holding the series, each once,
        by name; names are unique per owner, so strictly by name. */
    method GetSeriesLists(seriesId: nat, user: nat) returns (ls: seq<ListSummary>)
      requires Valid()
      ensures Distinct(ls)
      ensures forall l :: l in ls <==> l.id in lists && lists[l.id].owner == user
                                       && l == ListSummary(l.id, lists[l.id].name, lists[l.id].isPublic)
                                       && PairUsed(items, l.id, seriesId)
      ensures forall i, j :: 0 <= i < j < |ls| ==> LexLess(ls[i].name, ls[j].name)
    {
      var rs, its := lists, items;
      var found := SetToSeq(set k | k in rs && rs[k].owner == user && PairUsed(its, k, seriesId)
                                  :: ListSummary(k, rs[k].name, rs[k].isPublic));
      ReaderOrders();
      ls := SortBy(found, NameBefore);
      DistinctPermutation(found, ls);
      NamesStrictlyIncrease(rs, user, ls);
    }

    /** `get_list_items`: the list's items whose series exists, with the
        series' name and cover, by position. */
    method GetListItems(listId: nat, series: map<nat, SeriesCard>) returns (r: seq<ListItem>)
      ensures Distinct(r)
      ensures forall x :: x in r <==> x.id in items && x.item == items[x.id] && x.item.listId == listId
                                      && x.item.seriesId in series && x.series == series[x.item.seriesId]
      ensures SortedBy(r, PositionBefore)
    {
      var its := items;
      var found := SetToSeq(set k | k in its && its[k].listId == listId && its[k].seriesId in series
                                  :: ListItem(k, its[k], series[its[k].seriesId]));
      ReaderOrders();
      r := SortBy(found, PositionBefore);
      DistinctPermutation(found, r);
    }

    /** `reorder_list_items`: false for an empty order; otherwise position `i`
        goes to the `i`-th id where that item is in the list, and the list is
        touched. */
    method ReorderListItems(listId: nat, order: seq<nat>, now: int) returns (ok: bool)
      requires Valid()
      modifies this
      ensures Valid()
      ensures ok <==> order != []
      ensures !ok ==> lists == old(lists) && items == old(items)
      ensures ok ==> items == Reordered(old(items), listId, order) && lists == Touch(old(lists), listId, now)
    {
      if order == [] {
        return false;
      }
      var i := 0;
      while i < |order|
        invariant 0 <= i <= |order|
        invariant items == Reordered(old(items), listId, order[..i])
        invariant lists == old(lists) && nextItem == old(nextItem) && nextList == old(nextList)
      {
        assert order[..i + 1][..i] == order[..i];
        var id := order[i];
        if id in items && items[id].listId == listId {
          items := items[id := items[id].(position := i)];
        }
        i := i + 1;
      }
      assert order[..i] == order;
      ReorderKeepsPairs(old(items), listId, order);
      TouchKeepsNames(lists, listId, now);
      lists := Touch(lists, listId, now);
      ok := true;
    }
  }

  /** The default position is `MAX(position) + 1` when the list has items. */
  lemma NextPositionIs(items: map<nat, ItemRow>, listId: nat, m: int)
    requires m in Positions(items, listId) && forall q :: q in Positions(items, listId) ==> q <= m
    ensures NextPosition(items, listId) == m + 1
  {
    var n := NextPosition(items, listId);
    var k :| k in items && items[k].listId == listId && items[k].position == m;
    assert m < n;
    if n != 0 {
      var k2 :| k2 in items && items[k2].listId == listId && items[k2].position == n - 1;
      assert n - 1 in Positions(items, listId);
    }
  }

  /** The lists of one owner sorted by name have strictly increasing names. */
  lemma NamesStrictlyIncrease(lists: map<nat, ListRow>, user: nat, ls: seq<ListSummary>)
    requires NamesUnique(lists) && Distinct(ls) && SortedBy(ls, NameBefore)
    requires forall l :: l in ls ==> l.id in lists && lists[l.id].owner == user && l.name == lists[l.id].name
                                     && l.isPublic == lists[l.id].isPublic
    ensures forall i, j :: 0 <= i < j < |ls| ==> LexLess(ls[i].name, ls[j].name)
  {
    forall i, j | 0 <= i < j < |ls| ensures LexLess(ls[i].name, ls[j].name) {
      assert ls[i] in ls && ls[j] in ls;
      assert ls[i] != ls[j];
      assert ls[i].id != ls[j].id;
      LexLessTotal(ls[i].name, ls[j].name);
    }
  }
}
