/** The `comics` table: one row per archive, keyed by its id. A comic's id is
    the MD5 digest of its path; since only equality of ids matters, the model
    uses the path itself, written as its list of components. */
module Comics {
  import opened Text
  import opened Wrappers
  import opened Collections

  /** A path as its components below the file-system root. */
  type Path = seq<String>

  /** The columns of one `comics` row that the scanner reads or writes. */
  datatype ComicRow = ComicRow(
    title: String,
    series: String,
    category: String,
    filename: String,
    sizeBytes: nat,
    mtime: int,
    pages: Option<int>,      // NULL until the archive has been inspected
    processed: bool,
    hasThumbnail: bool,
    volume: Option<real>,
    chapter: Option<real>,
    seriesId: Option<nat>)

  /** One `(pages, processed, has_thumbnail, id)` tuple of the phase-two update. */
  datatype ScanWrite = ScanWrite(pages: nat, hasThumbnail: bool, id: Path)

  /** One `(size_str, size_bytes, mtime, id)` tuple of the phase-one reset. */
  datatype Reset = Reset(sizeBytes: nat, mtime: int, id: Path)

  function Min(a: nat, b: nat): nat { if a <= b then a else b }

  /** Ids of the rows still waiting for phase two (`processed = 0`). */
  function PendingIds(rows: map<Path, ComicRow>): (r: set<Path>)
    ensures forall id :: id in r <==> id in rows && !rows[id].processed
  {
    set id | id in rows && !rows[id].processed
  }

  /** A row after phase two inspected its archive. */
  function Inspected(row: ComicRow, pages: nat, thumb: bool): ComicRow {
    row.(pages := Some(pages), processed := true, hasThumbnail := thumb)
  }

  /** The table after `UPDATE comics SET pages, processed = 1, has_thumbnail WHERE id`
      ran once per tuple, in order. */
  function ApplyScanWrites(rows: map<Path, ComicRow>, ws: seq<ScanWrite>): (r: map<Path, ComicRow>)
    ensures r.Keys == rows.Keys
    decreases |ws|
  {
    if ws == [] then rows
    else
      var w := ws[|ws| - 1];
      var before := ApplyScanWrites(rows, ws[..|ws| - 1]);
      if w.id in before then before[w.id := Inspected(before[w.id], w.pages, w.hasThumbnail)] else before
  }

  /** A changed archive: new size and mtime, and queued again for phase two. */
  function ResetRow(row: ComicRow, sizeBytes: nat, mtime: int): ComicRow {
    row.(sizeBytes := sizeBytes, mtime := mtime, pages := None, processed := false, hasThumbnail := false)
  }

  function ApplyResets(rows: map<Path, ComicRow>, rs: seq<Reset>): (r: map<Path, ComicRow>)
    ensures r.Keys == rows.Keys
    decreases |rs|
  {
    if rs == [] then rows
    else
      var x := rs[|rs| - 1];
      var before := ApplyResets(rows, rs[..|rs| - 1]);
      if x.id in before then before[x.id := ResetRow(before[x.id], x.sizeBytes, x.mtime)] else before
  }

  /** Ids written by a list of phase-two tuples. */
  function WriteIds(ws: seq<ScanWrite>): set<Path> {
    set i | 0 <= i < |ws| :: ws[i].id
  }

  /** Every inspected comic leaves the pending set, and nothing else does. */
  lemma {:induction false} ScanWritesShrinkPending(rows: map<Path, ComicRow>, ws: seq<ScanWrite>)
    ensures PendingIds(ApplyScanWrites(rows, ws)) == PendingIds(rows) - WriteIds(ws)
    decreases |ws|
  {
    if ws != [] {
      var init := ws[..|ws| - 1];
      ScanWritesShrinkPending(rows, init);
      assert WriteIds(ws) == WriteIds(init) + {ws[|ws| - 1].id} by {
        forall id | id in WriteIds(ws) ensures id in WriteIds(init) + {ws[|ws| - 1].id} {
          var i :| 0 <= i < |ws| && ws[i].id == id;
          if i < |ws| - 1 { assert init[i] == ws[i]; }
        }
        forall id | id in WriteIds(init) ensures id in WriteIds(ws) {
          var i :| 0 <= i < |init| && init[i].id == id;
          assert ws[i] == init[i];
        }
      }
    }
  }

  /** A row that no tuple names keeps its contents. */
  lemma {:induction false} ScanWritesFrame(rows: map<Path, ComicRow>, ws: seq<ScanWrite>, id: Path)
    requires id in rows && id !in WriteIds(ws)
    ensures ApplyScanWrites(rows, ws)[id] == rows[id]
    decreases |ws|
  {
    if ws != [] {
      var init := ws[..|ws| - 1];
      assert WriteIds(init) <= WriteIds(ws) by {
        forall x | x in WriteIds(init) ensures x in WriteIds(ws) {
          var i :| 0 <= i < |init| && init[i].id == x;
          assert ws[i] == init[i];
        }
      }
      ScanWritesFrame(rows, init, id);
    }
  }

  /** With distinct ids, the row a tuple names ends up inspected with that tuple's values. */
  lemma {:induction false} ScanWritesHit(rows: map<Path, ComicRow>, ws: seq<ScanWrite>, k: nat)
    requires k < |ws| && ws[k].id in rows
    requires forall i, j :: 0 <= i < j < |ws| ==> ws[i].id != ws[j].id
    ensures ApplyScanWrites(rows, ws)[ws[k].id] == Inspected(rows[ws[k].id], ws[k].pages, ws[k].hasThumbnail)
    decreases |ws|
  {
    var init := ws[..|ws| - 1];
    if k == |ws| - 1 {
      forall i | 0 <= i < |init| ensures init[i].id != ws[k].id {
        assert init[i] == ws[i];
      }
      ScanWritesFrame(rows, init, ws[k].id);
    } else {
      assert init[k] == ws[k];
      ScanWritesHit(rows, init, k);
    }
  }

  /** Writing back a batch of distinct pending comics with the tuples `w`
      removes exactly that batch from the pending set. */
  lemma BatchPending(rows: map<Path, ComicRow>, batch: seq<Path>, w: Path -> ScanWrite)
    requires forall id :: w(id).id == id
    requires Distinct(batch) && forall i :: 0 <= i < |batch| ==> batch[i] in PendingIds(rows)
    ensures PendingIds(ApplyScanWrites(rows, MapSeq(w, batch))) == PendingIds(rows) - Elems(batch)
    ensures |PendingIds(ApplyScanWrites(rows, MapSeq(w, batch)))| == |PendingIds(rows)| - |batch|
  {
    var ws := MapSeq(w, batch);
    MapSeqLength(w, batch);
    var b := Elems(batch);
    assert WriteIds(ws) == b by {
      forall x | x in WriteIds(ws) ensures x in b {
        var i :| 0 <= i < |ws| && ws[i].id == x;
        MapSeqAt(w, batch, i);
      }
      forall x | x in b ensures x in WriteIds(ws) {
        var i :| 0 <= i < |batch| && batch[i] == x;
        MapSeqAt(w, batch, i);
        assert ws[i].id == x;
      }
    }
    ScanWritesShrinkPending(rows, ws);
    DistinctCard(batch);
    CardDiff(PendingIds(rows), b);
  }

  /** The rows after such a batch: each comic of the batch inspected with its own
      tuple, every other row as it was. */
  lemma BatchRows(rows: map<Path, ComicRow>, batch: seq<Path>, w: Path -> ScanWrite, id: Path)
    requires forall id :: w(id).id == id
    requires Distinct(batch) && id in rows
    ensures ApplyScanWrites(rows, MapSeq(w, batch))[id]
            == if id in batch then Inspected(rows[id], w(id).pages, w(id).hasThumbnail) else rows[id]
  {
    var ws := MapSeq(w, batch);
    MapSeqLength(w, batch);
    forall i, j | 0 <= i < j < |ws| ensures ws[i].id != ws[j].id {
      MapSeqAt(w, batch, i);
      MapSeqAt(w, batch, j);
    }
    if k :| 0 <= k < |batch| && batch[k] == id {
      MapSeqAt(w, batch, k);
      ScanWritesHit(rows, ws, k);
    } else {
      forall i | 0 <= i < |ws| ensures ws[i].id != id {
        MapSeqAt(w, batch, i);
      }
      ScanWritesFrame(rows, ws, id);
    }
  }

  /** The table after phase two inspected the comics of `done`, in that order, out
      of the ones pending in `rows0`, each with the tuple `w` gives it. */
  ghost predicate Drained(rows0: map<Path, ComicRow>, rows: map<Path, ComicRow>, done: seq<Path>, w: Path -> ScanWrite) {
    rows.Keys == rows0.Keys
    && Distinct(done)
    && (forall id :: id in done <==> id in PendingIds(rows0) && id !in PendingIds(rows))
    && PendingIds(rows) <= PendingIds(rows0)
    && (forall id :: id in rows0 ==>
          rows[id] == if id in done then Inspected(rows0[id], w(id).pages, w(id).hasThumbnail) else rows0[id])
    && |done| + |PendingIds(rows)| == |PendingIds(rows0)|
  }

  /** Once nothing is pending, the drained comics are exactly the ones pending at the start. */
  lemma DrainedAll(rows0: map<Path, ComicRow>, rows: map<Path, ComicRow>, done: seq<Path>, w: Path -> ScanWrite)
    requires Drained(rows0, rows, done, w) && PendingIds(rows) == {}
    ensures rows.Keys == rows0.Keys && |done| == |PendingIds(rows0)|
    ensures forall id :: id in done <==> id in PendingIds(rows0)
    ensures forall id :: id in rows0 ==>
              rows[id] == if id in PendingIds(rows0) then Inspected(rows0[id], w(id).pages, w(id).hasThumbnail) else rows0[id]
  {
  }

  /** A batch of distinct comics still pending moves the drained state forward by that batch. */
  lemma DrainedStep(rows0: map<Path, ComicRow>, rows: map<Path, ComicRow>, done: seq<Path>, batch: seq<Path>,
                    w: Path -> ScanWrite)
    requires forall id :: w(id).id == id
    requires Drained(rows0, rows, done, w)
    requires Distinct(batch) && forall i :: 0 <= i < |batch| ==> batch[i] in PendingIds(rows)
    ensures Drained(rows0, ApplyScanWrites(rows, MapSeq(w, batch)), done + batch, w)
  {
    var rows' := ApplyScanWrites(rows, MapSeq(w, batch));
    BatchPending(rows, batch, w);
    forall id | id in rows0
      ensures rows'[id] == if id in done + batch then Inspected(rows0[id], w(id).pages, w(id).hasThumbnail) else rows0[id]
    {
      BatchRows(rows, batch, w, id);
      if id in batch {
        assert id in PendingIds(rows);
      }
    }
    forall i, j | 0 <= i < j < |done + batch| ensures (done + batch)[i] != (done + batch)[j] {
      if j >= |done| && i < |done| {
        assert (done + batch)[j] in PendingIds(rows);
        assert (done + batch)[i] in done;
      }
    }
    assert rows'.Keys == rows.Keys;
  }

  /** The `comics` table. */
  class ComicsTable {
    var rows: map<Path, ComicRow>

    constructor()
      ensures rows == map[]
    {
      rows := map[];
    }

    /** `delete_comics_by_ids`: removes exactly the listed ids; an empty list changes nothing. */
    method DeleteByIds(ids: seq<Path>)
      modifies this
      ensures rows == map id | id in old(rows) && id !in ids :: old(rows)[id]
      ensures ids == [] ==> rows == old(rows)
    {
      if ids == [] {
        return;
      }
      rows := map id | id in rows && id !in ids :: rows[id];
    }

    /** `get_pending_comics(limit)`: up to `limit` distinct unprocessed rows, as
        (id, path) pairs. SQLite returns them in no promised order, so the model
        picks them in any order. */
    method GetPendingComics(limit: nat) returns (pending: seq<Path>)
      ensures |pending| == Min(limit, |PendingIds(rows)|)
      ensures forall i :: 0 <= i < |pending| ==> pending[i] in PendingIds(rows)
      ensures forall i, j :: 0 <= i < j < |pending| ==> pending[i] != pending[j]
    {
      pending := [];
      var remaining := PendingIds(rows);
      while |pending| < limit && remaining != {}
        invariant remaining <= PendingIds(rows)
        invariant |pending| + |remaining| == |PendingIds(rows)|
        invariant |pending| <= limit
        invariant forall i :: 0 <= i < |pending| ==> pending[i] in PendingIds(rows) && pending[i] !in remaining
        invariant forall i, j :: 0 <= i < j < |pending| ==> pending[i] != pending[j]
        decreases |remaining|
      {
        var id :| id in remaining;
        pending := pending + [id];
        remaining := remaining - {id};
      }
    }

    /** `update_comic_metadata(id, pages, processed)`: has_thumbnail takes the value of processed. */
    method UpdateComicMetadata(id: Path, pages: int, processed: bool)
      modifies this
      ensures id in old(rows) ==>
                rows == old(rows)[id := old(rows)[id].(pages := Some(pages), processed := processed, hasThumbnail := processed)]
      ensures id !in old(rows) ==> rows == old(rows)
    {
      if id in rows {
        rows := rows[id := rows[id].(pages := Some(pages), processed := processed, hasThumbnail := processed)];
      }
    }

    /** The phase-two `executemany` update. */
    method WriteScanResults(ws: seq<ScanWrite>)
      modifies this
      ensures rows == ApplyScanWrites(old(rows), ws)
    {
      var i := 0;
      while i < |ws|
        invariant 0 <= i <= |ws|
        invariant rows == ApplyScanWrites(old(rows), ws[..i])
      {
        assert ws[..i + 1][..i] == ws[..i];
        var w := ws[i];
        if w.id in rows {
          rows := rows[w.id := Inspected(rows[w.id], w.pages, w.hasThumbnail)];
        }
        i := i + 1;
      }
      assert ws[..|ws|] == ws;
    }

    /** The phase-one `executemany` reset of changed archives. */
    method ResetChanged(rs: seq<Reset>)
      modifies this
      ensures rows == ApplyResets(old(rows), rs)
    {
      var i := 0;
      while i < |rs|
        invariant 0 <= i <= |rs|
        invariant rows == ApplyResets(old(rows), rs[..i])
      {
        assert rs[..i + 1][..i] == rs[..i];
        var x := rs[i];
        if x.id in rows {
          rows := rows[x.id := ResetRow(rows[x.id], x.sizeBytes, x.mtime)];
        }
        i := i + 1;
      }
      assert rs[..|rs|] == rs;
    }

    /** One `INSERT INTO comics`: the id must be new (it is the primary key). */
    method Insert(id: Path, row: ComicRow)
      modifies this
      requires id !in rows
      ensures rows == old(rows)[id := row]
    {
      rows := rows[id := row];
    }

    /** `UPDATE comics SET processed = 0 WHERE processed = 1 AND (pages IS NULL OR pages = 0)`:
        archives that yielded no pages are queued again. */
    method RequeueEmpty()
      modifies this
      ensures rows.Keys == old(rows).Keys
      ensures forall id :: id in rows ==>
                rows[id] == (if old(rows)[id].processed && (old(rows)[id].pages.None? || old(rows)[id].pages == Some(0))
                             then old(rows)[id].(processed := false) else old(rows)[id])
    {
      rows := map id | id in rows ::
        if rows[id].processed && (rows[id].pages.None? || rows[id].pages == Some(0))
        then rows[id].(processed := false) else rows[id];
    }

    /** `DELETE FROM comics`. */
    method DeleteAll()
      modifies this
      ensures rows == map[]
    {
      rows := map[];
    }
  }
}
