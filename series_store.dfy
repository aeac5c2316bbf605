/** The `series` table and `create_or_update_series`: a series is keyed by its
    unique name, and an update keeps every column for which the incoming value
    is NULL (SQL `COALESCE(?, column)`). */
module SeriesStore {
  import opened Text
  import opened Wrappers

  /** A value read from a `series.json` file. */
  datatype MetaValue =
    | MNull
    | MBool(b: bool)
    | MInt(i: int)
    | MReal(r: real)
    | MStr(s: String)
    | MList(items: seq<MetaValue>)

  /** The decoded `series.json` object. */
  type Metadata = map<String, MetaValue>

  /** A non-NULL cell of the `series` table. */
  datatype Cell =
    | CText(text: String)
    | CInt(n: int)
    | CReal(x: real)
    | CJson(list: seq<MetaValue>)   // a list stored as its JSON text
    | CId(path: seq<String>)        // a comic id (cover_comic_id)

  /** The columns filled from `series.json`, in the order the upsert lists them. */
  const MetaColumns: seq<String> := [
    "title", "title_english", "title_japanese", "synonyms", "authors", "synopsis",
    "genres", "tags", "demographics", "status", "total_volumes", "total_chapters",
    "release_year", "mal_id", "anilist_id"]

  /** The parameter bound for one metadata value: None for NULL, lists as JSON
      (`to_json`), booleans as 0/1 as SQLite stores them. */
  function ToCell(v: MetaValue): (c: Option<Cell>)
    ensures c.None? <==> v.MNull?
    ensures v.MList? ==> c == Some(CJson(v.items))
  {
    match v
    case MNull => None
    case MBool(b) => Some(CInt(if b then 1 else 0))
    case MInt(i) => Some(CInt(i))
    case MReal(r) => Some(CReal(r))
    case MStr(s) => Some(CText(s))
    case MList(items) => Some(CJson(items))
  }

  /** The non-NULL parameters of one upsert, by column. */
  function Incoming(metadata: Metadata, category: Option<String>, subcategory: Option<String>,
                    cover: Option<seq<String>>): map<String, Cell>
  {
    var fromMeta := map c | c in MetaColumns && c in metadata && ToCell(metadata[c]).Some? :: ToCell(metadata[c]).value;
    var withCategory := if category.Some? then fromMeta["category" := CText(category.value)] else fromMeta;
    var withSub := if subcategory.Some? then withCategory["subcategory" := CText(subcategory.value)] else withCategory;
    if cover.Some? then withSub["cover_comic_id" := CId(cover.value)] else withSub
  }

  /** The upsert binds exactly the non-NULL metadata columns, and the category,
      subcategory and cover when given. */
  lemma IncomingColumns(metadata: Metadata, category: Option<String>, subcategory: Option<String>,
                        cover: Option<seq<String>>, m: map<String, Cell>)
    requires m == Incoming(metadata, category, subcategory, cover)
    ensures forall c :: c in m ==> c in MetaColumns || c in {"cover_comic_id", "category", "subcategory"}
    ensures forall c :: c in MetaColumns ==> (c in m <==> c in metadata && !metadata[c].MNull?)
    ensures "category" in m <==> category.Some?
    ensures "subcategory" in m <==> subcategory.Some?
    ensures "cover_comic_id" in m <==> cover.Some?
  {
    ReservedColumns();
    var fromMeta := map c | c in MetaColumns && c in metadata && ToCell(metadata[c]).Some? :: ToCell(metadata[c]).value;
    assert forall c :: c in fromMeta <==> c in MetaColumns && c in metadata && !metadata[c].MNull?;
    assert "category" !in fromMeta && "subcategory" !in fromMeta && "cover_comic_id" !in fromMeta;
  }

  /** The category, subcategory and cover columns are not metadata columns and are distinct. */
  lemma ReservedColumns()
    ensures "category" !in MetaColumns && "subcategory" !in MetaColumns && "cover_comic_id" !in MetaColumns
    ensures "category" != "subcategory" && "category" != "cover_comic_id" && "subcategory" != "cover_comic_id"
  {
  }

  /** One `series` row: its id and its non-NULL columns. */
  datatype SeriesRow = SeriesRow(id: nat, cells: map<String, Cell>)

  /** `COALESCE(?, column)` applied to every column at once. */
  function Coalesce(old_cells: map<String, Cell>, incoming: map<String, Cell>): (r: map<String, Cell>)
    ensures r.Keys == old_cells.Keys + incoming.Keys
    ensures forall c :: c in incoming ==> r[c] == incoming[c]
    ensures forall c :: c in old_cells && c !in incoming ==> r[c] == old_cells[c]
  {
    old_cells + incoming
  }

  /** Upserting the same values twice leaves what upserting them once left. */
  lemma CoalesceIdempotent(cells: map<String, Cell>, incoming: map<String, Cell>)
    ensures Coalesce(Coalesce(cells, incoming), incoming) == Coalesce(cells, incoming)
  {
  }

  /** An update never clears a column: a value once stored stays non-NULL. */
  lemma CoalesceNeverClears(cells: map<String, Cell>, incoming: map<String, Cell>, c: String)
    requires c in cells
    ensures c in Coalesce(cells, incoming)
  {
  }

  /** The `series` table: rows keyed by the UNIQUE name, ids from AUTOINCREMENT. */
  class SeriesTable {
    var rows: map<String, SeriesRow>
    var nextId: nat

    /** Ids are distinct and all below the next id AUTOINCREMENT hands out. */
    ghost predicate Valid()
      reads this
    {
      nextId >= 1
      && (forall n :: n in rows ==> 1 <= rows[n].id < nextId)
      && (forall n, m :: n in rows && m in rows && n != m ==> rows[n].id != rows[m].id)
    }

    constructor()
      ensures Valid() && rows == map[]
    {
      rows := map[];
      nextId := 1;
    }

    /** `create_or_update_series`: an existing name keeps every column the
        incoming values leave NULL; a new name gets a fresh id. Returns the id. */
    method CreateOrUpdate(name: String, metadata: Option<Metadata>, category: Option<String>,
                          subcategory: Option<String>, cover: Option<seq<String>>) returns (id: nat)
      requires Valid()
      modifies this
      ensures Valid()
      ensures rows.Keys == old(rows).Keys + {name}
      ensures name in old(rows) ==>
                id == old(rows)[name].id
                && rows[name] == SeriesRow(id, Coalesce(old(rows)[name].cells,
                                                        Incoming(metadata.GetOr(map[]), category, subcategory, cover)))
      ensures name !in old(rows) ==>
                rows[name] == SeriesRow(id, Incoming(metadata.GetOr(map[]), category, subcategory, cover))
                && forall n :: n in old(rows) ==> old(rows)[n].id != id
      ensures forall n :: n in old(rows) && n != name ==> rows[n] == old(rows)[n]
    {
      var incoming := Incoming(metadata.GetOr(map[]), category, subcategory, cover);
      if name in rows {
        id := rows[name].id;
        var row := SeriesRow(id, Coalesce(rows[name].cells, incoming));
        rows := rows[name := row];
      } else {
        id := nextId;
        rows := rows[name := SeriesRow(id, incoming)];
        nextId := nextId + 1;
        assert forall n :: n in old(rows) ==> old(rows)[n].id < id;
      }
    }

    /** `DELETE FROM series`. */
    method DeleteAll()
      requires Valid()
      modifies this
      ensures Valid() && rows == map[]
    {
      rows := map[];
    }
  }
}
