/** ai/cache.py: the request key hashed for de-duplication, and the
    `ai_recommendation_cache` table with its expiry. */
module AiCache {
  import opened Text
  import opened Wrappers
  import opened Collections
  import opened Json

  // ---------------------------------------------------------------------------
  // Normalising a request for hashing
  // ---------------------------------------------------------------------------

  /** `sorted(data.items())` on a dictionary: by key. */
  predicate KeyBefore(a: Field, b: Field) { LexLess(a.key, b.key) }

  lemma KeyOrder()
    ensures StrictOrder(KeyBefore)
  {
    forall a: Field ensures !KeyBefore(a, a) {
      LexLessIrreflexive(a.key);
    }
    forall a: Field, b: Field, c: Field | KeyBefore(a, b) && KeyBefore(b, c) ensures KeyBefore(a, c) {
      LexLessTransitive(a.key, b.key, c.key);
    }
  }

  /** A string as `_normalize_for_hash` writes it: stripped, then lower-cased. */
  function NormalText(s: String): String {
    LowerStr(Strip(s))
  }

  /** `_normalize_for_hash`: objects rebuilt in key order with normalised
      values, arrays element by element, strings stripped and lower-cased;
      null, booleans and integers unchanged. */
  function Normalize(v: Json): Json
    decreases v
  {
    match v
    case JStr(s) => JStr(NormalText(s))
    case JArr(items) => JArr(seq(|items|, i requires 0 <= i < |items| => Normalize(items[i])))
    case JObj(fields) =>
      var values := seq(|fields|, i requires 0 <= i < |fields| => Field(fields[i].key, Normalize(fields[i].value)));
      KeyOrder();
      JObj(SortBy(values, KeyBefore))
    case _ => v
  }

  /** A normal form: every string stripped and lower-case, every object's
      keys in order. */
  ghost predicate IsNormal(v: Json)
    decreases v
  {
    match v
    case JStr(s) => IsStripped(s) && IsLowered(s)
    case JArr(items) => forall i :: 0 <= i < |items| ==> IsNormal(items[i])
    case JObj(fields) => SortedBy(fields, KeyBefore) && forall i :: 0 <= i < |fields| ==> IsNormal(fields[i].value)
    case _ => true
  }

  /** Lower-casing keeps a stripped string stripped. */
  lemma NormalTextIsNormal(s: String)
    ensures IsStripped(NormalText(s)) && IsLowered(NormalText(s))
  {
    LowerStrIsLowered(Strip(s));
    LowerKeepsStripped(Strip(s));
  }

  lemma LowerKeepsStripped(t: String)
    requires IsStripped(t)
    ensures IsStripped(LowerStr(t))
  {
    if t != [] {
      var l := LowerStr(t);
      assert l[0] == Lower(t[0]) && l[|l| - 1] == Lower(t[|t| - 1]);
    }
  }

  /** What `_normalize_for_hash` returns is in normal form. */
  lemma {:induction false} NormalizeIsNormal(v: Json)
    ensures IsNormal(Normalize(v))
    decreases v
  {
    match v
    case JStr(s) =>
      NormalTextIsNormal(s);
    case JArr(items) =>
      forall i | 0 <= i < |items| ensures IsNormal(Normalize(items[i])) {
        NormalizeIsNormal(items[i]);
      }
    case JObj(fields) =>
      var values := seq(|fields|, i requires 0 <= i < |fields| => Field(fields[i].key, Normalize(fields[i].value)));
      KeyOrder();
      var sorted := SortBy(values, KeyBefore);
      assert Normalize(v) == JObj(sorted);
      forall j | 0 <= j < |sorted| ensures IsNormal(sorted[j].value) {
        assert sorted[j] in multiset(values);
        var i :| 0 <= i < |values| && values[i] == sorted[j];
        NormalizeIsNormal(fields[i].value);
      }
    case _ =>
  }

  /** A value in normal form is its own normalisation. */
  lemma {:induction false} NormalIsFixed(v: Json)
    requires IsNormal(v)
    ensures Normalize(v) == v
    decreases v
  {
    match v
    case JStr(s) =>
      StripOfStripped(s);
      LowerStrOfLowered(s);
    case JArr(items) =>
      forall i | 0 <= i < |items| ensures Normalize(items[i]) == items[i] {
        NormalIsFixed(items[i]);
      }
      assert seq(|items|, i requires 0 <= i < |items| => Normalize(items[i])) == items;
    case JObj(fields) =>
      var values := seq(|fields|, i requires 0 <= i < |fields| => Field(fields[i].key, Normalize(fields[i].value)));
      forall i | 0 <= i < |fields| ensures values[i] == fields[i] {
        NormalIsFixed(fields[i].value);
      }
      assert values == fields;
      KeyOrder();
      SortOfSorted(fields, KeyBefore);
    case _ =>
  }

  /** Normalising twice is normalising once. */
  lemma NormalizeIdempotent(v: Json)
    ensures Normalize(Normalize(v)) == Normalize(v)
  {
    NormalizeIsNormal(v);
    NormalIsFixed(Normalize(v));
  }

  // ---------------------------------------------------------------------------
  // hash_request
  // ---------------------------------------------------------------------------

  /** The dictionary `hash_request` serialises, its keys already in the
      order `sort_keys` puts them. A list of series is normalised element by
      element, which is `Normalize` of the list. */
  function RequestKey(series: Json, attributes: Json, customRequest: String): Json {
    JObj([Field("attributes", Normalize(attributes)),
          Field("custom_request", JStr(NormalText(customRequest))),
          Field("series", Normalize(series))])
  }

  /** `hash_request`, with SHA-256 of the UTF-8 text a function given as a
      parameter. */
  function HashRequest(sha: String -> String, series: Json, attributes: Json, customRequest: String): String {
    sha(Dumps(RequestKey(series, attributes, customRequest), false))
  }

  /** The key is in normal form throughout, so `json.dumps` with `sort_keys`
      and `ensure_ascii=False` writes it as `Dumps(_, false)` does. */
  lemma RequestKeyIsNormal(series: Json, attributes: Json, customRequest: String)
    ensures IsNormal(RequestKey(series, attributes, customRequest))
  {
    var fields := RequestKey(series, attributes, customRequest).fields;
    NormalizeIsNormal(series);
    NormalizeIsNormal(attributes);
    NormalTextIsNormal(customRequest);
    assert !LexLess("custom_request", "attributes");
    assert !LexLess("series", "attributes") && !LexLess("series", "custom_request");
    assert SortedBy(fields, KeyBefore);
  }

  /** Requests that differ only in spacing around or case of strings, or in
      the order of dictionary keys, hash alike: hashing a normalised
      request gives the same hash. */
  lemma HashOfNormalized(sha: String -> String, series: Json, attributes: Json, customRequest: String)
    ensures HashRequest(sha, Normalize(series), Normalize(attributes), customRequest)
            == HashRequest(sha, series, attributes, customRequest)
  {
    NormalizeIdempotent(series);
    NormalizeIdempotent(attributes);
  }

  /** The custom request is stripped and lower-cased before hashing: two
      requests that agree after that hash alike, and two that do not give
      different keys. */
  lemma CustomRequestNormalized(series: Json, attributes: Json, c1: String, c2: String)
    ensures RequestKey(series, attributes, c1) == RequestKey(series, attributes, c2) <==> NormalText(c1) == NormalText(c2)
  {
    if RequestKey(series, attributes, c1) == RequestKey(series, attributes, c2) {
      assert RequestKey(series, attributes, c1).fields[1] == RequestKey(series, attributes, c2).fields[1];
    }
  }

  // ---------------------------------------------------------------------------
  // The cache table
  // ---------------------------------------------------------------------------

  /** A row of `ai_recommendation_cache`: the recommendations as the list
      `json.dumps` wrote, and an expiry that may be NULL. Times are seconds
      on an integer clock. */
  datatype CacheRow = CacheRow(user: nat, hash: String, recommendations: seq<Json>, createdAt: int, expiresAt: Option<int>)

  predicate Keyed(r: CacheRow, user: nat, hash: String) { r.user == user && r.hash == hash }

  /** `datetime.now() > expires_at`; a NULL expiry never expires. */
  predicate Expired(r: CacheRow, now: int) { r.expiresAt.Some? && now > r.expiresAt.value }

  /** The row `SELECT ... WHERE user_id = ? AND request_hash = ?` fetches
      first: the earliest inserted, as an unindexed scan reads rows in
      rowid order. */
  function FirstKeyed(rows: seq<CacheRow>, user: nat, hash: String): (r: Option<nat>)
    ensures r.None? <==> forall j :: 0 <= j < |rows| ==> !Keyed(rows[j], user, hash)
    ensures r.Some? ==> r.value < |rows| && Keyed(rows[r.value], user, hash)
                        && forall j :: 0 <= j < r.value ==> !Keyed(rows[j], user, hash)
    decreases |rows|
  {
    if rows == [] then None
    else if Keyed(rows[0], user, hash) then Some(0)
    else
      match FirstKeyed(rows[1..], user, hash)
      case None => None
      case Some(k) => Some(k + 1)
  }

  /** What `get_cached_recommendations` returns: None on a miss or when the
      first row has expired, else its recommendations. */
  function Lookup(rows: seq<CacheRow>, user: nat, hash: String, now: int): (r: Option<seq<Json>>)
    ensures r.None? <==> FirstKeyed(rows, user, hash).None? || Expired(rows[FirstKeyed(rows, user, hash).value], now)
    ensures r.Some? ==> exists j :: 0 <= j < |rows| && Keyed(rows[j], user, hash) && !Expired(rows[j], now)
                                    && r.value == rows[j].recommendations
  {
    match FirstKeyed(rows, user, hash)
    case None => None
    case Some(j) => if Expired(rows[j], now) then None else Some(rows[j].recommendations)
  }

  /** `DELETE ... WHERE user_id = ? AND request_hash = ?`. */
  function WithoutKey(rows: seq<CacheRow>, user: nat, hash: String): (r: seq<CacheRow>)
    ensures forall j :: 0 <= j < |r| ==> !Keyed(r[j], user, hash)
    ensures forall x :: x in rows && !Keyed(x, user, hash) ==> x in r
    ensures forall x :: x in r ==> x in rows
  {
    Filter(rows, (x: CacheRow) => !Keyed(x, user, hash))
  }

  /** `DELETE ... WHERE user_id = ?`. */
  function WithoutUser(rows: seq<CacheRow>, user: nat): (r: seq<CacheRow>)
    ensures forall j :: 0 <= j < |r| ==> r[j].user != user
    ensures forall x :: x in rows && x.user != user ==> x in r
    ensures forall x :: x in r ==> x in rows
    ensures |r| <= |rows|
  {
    Filter(rows, (x: CacheRow) => x.user != user)
  }

  /** `expires_at < now`; a NULL expiry is never deleted. */
  predicate OutOfDate(r: CacheRow, now: int) { r.expiresAt.Some? && r.expiresAt.value < now }

  /** `DELETE ... WHERE expires_at < ?`. */
  function WithoutOutOfDate(rows: seq<CacheRow>, now: int): (r: seq<CacheRow>)
    ensures forall j :: 0 <= j < |r| ==> !OutOfDate(r[j], now)
    ensures forall x :: x in rows && !OutOfDate(x, now) ==> x in r
    ensures forall x :: x in r ==> x in rows
    ensures |r| <= |rows|
  {
    Filter(rows, (x: CacheRow) => !OutOfDate(x, now))
  }

  /** The row `cache_recommendations` inserts. */
  function NewRow(user: nat, hash: String, recommendations: seq<Json>, ttlHours: int, now: int): CacheRow {
    CacheRow(user, hash, recommendations, now, Some(now + ttlHours * 3600))
  }

  class CacheTable {
    var rows: seq<CacheRow>

    constructor()
      ensures rows == []
    {
      rows := [];
    }

    /** `get_cached_recommendations`: a miss leaves the table as it is; a
        first row that has expired deletes every row of the key. */
    method GetCachedRecommendations(user: nat, hash: String, now: int) returns (r: Option<seq<Json>>)
      modifies this
      ensures r == Lookup(old(rows), user, hash, now)
      ensures rows == if FirstKeyed(old(rows), user, hash).Some? && r.None? then WithoutKey(old(rows), user, hash) else old(rows)
    {
      var first := FirstKeyed(rows, user, hash);
      if first.None? {
        return None;
      }
      var row := rows[first.value];
      if Expired(row, now) {
        rows := WithoutKey(rows, user, hash);
        return None;
      }
      r := Some(row.recommendations);
    }

    /** `cache_recommendations`: INSERT OR REPLACE with no UNIQUE constraint
        but the id, so the row is appended next to any earlier row of the
        same key. */
    method CacheRecommendations(user: nat, hash: String, recommendations: seq<Json>, ttlHours: int, now: int)
      returns (ok: bool)
      modifies this
      ensures ok
      ensures rows == old(rows) + [NewRow(user, hash, recommendations, ttlHours, now)]
    {
      rows := rows + [NewRow(user, hash, recommendations, ttlHours, now)];
      ok := true;
    }

    /** INSERT OR REPLACE as it acts when (user_id, request_hash) is UNIQUE:
        earlier rows of the key are replaced. */
    method CacheRecommendationsReplacing(user: nat, hash: String, recommendations: seq<Json>, ttlHours: int, now: int)
      returns (ok: bool)
      modifies this
      ensures ok
      ensures rows == WithoutKey(old(rows), user, hash) + [NewRow(user, hash, recommendations, ttlHours, now)]
    {
      rows := WithoutKey(rows, user, hash) + [NewRow(user, hash, recommendations, ttlHours, now)];
      ok := true;
    }

    /** `clear_user_cache`: the number of rows deleted. */
    method ClearUserCache(user: nat) returns (count: nat)
      modifies this
      ensures rows == WithoutUser(old(rows), user)
      ensures count == |old(rows)| - |rows|
    {
      var before := |rows|;
      rows := WithoutUser(rows, user);
      count := before - |rows|;
    }

    /** `clear_expired_cache`: the number of rows deleted. */
    method ClearExpiredCache(now: int) returns (count: nat)
      modifies this
      ensures rows == WithoutOutOfDate(old(rows), now)
      ensures count == |old(rows)| - |rows|
    {
      var before := |rows|;
      rows := WithoutOutOfDate(rows, now);
      count := before - |rows|;
    }
  }

  /** After `clear_user_cache(user)` every lookup of that user misses. */
  lemma ClearedUserMisses(rows: seq<CacheRow>, user: nat, hash: String, now: int)
    ensures Lookup(WithoutUser(rows, user), user, hash, now).None?
  {
  }

  /** A row no earlier than its expiry is found again at once: caching into
      a table with no row of the key and then looking it up returns what
      was cached. */
  lemma CachedIsFound(rows: seq<CacheRow>, user: nat, hash: String, recs: seq<Json>, ttlHours: nat, now: int)
    requires forall j :: 0 <= j < |rows| ==> !Keyed(rows[j], user, hash)
    ensures Lookup(rows + [NewRow(user, hash, recs, ttlHours, now)], user, hash, now) == Some(recs)
  {
    var after := rows + [NewRow(user, hash, recs, ttlHours, now)];
    assert forall j :: 0 <= j < |rows| ==> after[j] == rows[j];
    assert Keyed(after[|rows|], user, hash);
  }

  /** Caching a second result for the same key keeps returning the first:
      the appended row sits behind the earlier one, which the lookup
      fetches. */
  lemma RecacheReturnsStale(rows: seq<CacheRow>, user: nat, hash: String, first: seq<Json>, second: seq<Json>,
                            ttlHours: nat, t1: int, t2: int, now: int)
    requires forall j :: 0 <= j < |rows| ==> !Keyed(rows[j], user, hash)
    requires now <= t1 + ttlHours * 3600
    ensures Lookup(rows + [NewRow(user, hash, first, ttlHours, t1)] + [NewRow(user, hash, second, ttlHours, t2)],
                   user, hash, now) == Some(first)
  {
    var after := rows + [NewRow(user, hash, first, ttlHours, t1)] + [NewRow(user, hash, second, ttlHours, t2)];
    assert forall j :: 0 <= j < |rows| ==> after[j] == rows[j];
    assert Keyed(after[|rows|], user, hash);
  }

  /** Once the first row expires the lookup deletes the key's rows, the
      fresh one included. */
  lemma ExpiryDropsFresh(rows: seq<CacheRow>, user: nat, hash: String, first: seq<Json>, second: seq<Json>,
                         ttlHours: nat, t1: int, t2: int, now: int)
    requires forall j :: 0 <= j < |rows| ==> !Keyed(rows[j], user, hash)
    requires t1 + ttlHours * 3600 < now
    ensures var after := rows + [NewRow(user, hash, first, ttlHours, t1)] + [NewRow(user, hash, second, ttlHours, t2)];
            Lookup(after, user, hash, now).None?
            && NewRow(user, hash, second, ttlHours, t2) !in WithoutKey(after, user, hash)
  {
    var after := rows + [NewRow(user, hash, first, ttlHours, t1)] + [NewRow(user, hash, second, ttlHours, t2)];
    assert forall j :: 0 <= j < |rows| ==> after[j] == rows[j];
    assert Keyed(after[|rows|], user, hash);
  }

  /** With the key replaced, the latest result is the one returned until it
      expires. */
  lemma LatestWins(rows: seq<CacheRow>, user: nat, hash: String, recs: seq<Json>, ttlHours: nat, t: int, now: int)
    requires now <= t + ttlHours * 3600
    ensures Lookup(WithoutKey(rows, user, hash) + [NewRow(user, hash, recs, ttlHours, t)], user, hash, now) == Some(recs)
  {
    var kept := WithoutKey(rows, user, hash);
    var after := kept + [NewRow(user, hash, recs, ttlHours, t)];
    assert forall j :: 0 <= j < |kept| ==> after[j] == kept[j];
    assert Keyed(after[|kept|], user, hash);
  }
}
