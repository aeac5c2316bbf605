/** The `page_annotations` table of db/annotations.py: notes and highlights a
    user pins on a comic page, changed only by their owner. */
module Annotations {
  import opened Text
  import opened Wrappers
  import opened Collections

  /** A row of `page_annotations`. Coordinates are REAL columns and may be
      NULL. */
  datatype Annotation = Annotation(user: nat, comic: String, page: int, note: Option<String>, highlight: Option<String>,
                                   x: Option<real>, y: Option<real>, width: Option<real>, height: Option<real>,
                                   createdAt: int)

  /** An annotation with its id, as the reader returns it. */
  datatype AnnotationRow = AnnotationRow(id: nat, ann: Annotation)

  /** The whitelisted keyword arguments of `update_annotation`: None for a
      field not given, Some(None) for a field set to NULL. */
  datatype AnnotationEdit = AnnotationEdit(note: Option<Option<String>>, highlight: Option<Option<String>>,
                                           x: Option<Option<real>>, y: Option<Option<real>>,
                                           width: Option<Option<real>>, height: Option<Option<real>>)

  /** The error an INSERT or UPDATE lets escape on a taken position. */
  const PositionTaken: String := "UNIQUE constraint failed: page_annotations.user_id, page_annotations.comic_id, page_annotations.page_number, page_annotations.x, page_annotations.y"

  /** UNIQUE(user_id, comic_id, page_number, x, y) relates two rows only when
      both coordinates are non-NULL, as NULLs are distinct in SQLite. */
  predicate SamePosition(a: Annotation, b: Annotation) {
    a.user == b.user && a.comic == b.comic && a.page == b.page
    && a.x.Some? && a.y.Some? && a.x == b.x && a.y == b.y
  }

  /** The UNIQUE constraint over the whole table. */
  predicate PositionsUnique(rows: map<nat, Annotation>) {
    forall a, b :: a in rows && b in rows && a != b ==> !SamePosition(rows[a], rows[b])
  }

  /** Some row other than `except` is at the position of `a`. */
  predicate Clashes(rows: map<nat, Annotation>, a: Annotation, except: Option<nat>) {
    exists k :: k in rows && Some(k) != except && SamePosition(rows[k], a)
  }

  /** No whitelisted field was given. */
  predicate NoAllowedField(e: AnnotationEdit) {
    e.note.None? && e.highlight.None? && e.x.None? && e.y.None? && e.width.None? && e.height.None?
  }

  /** The row `update_annotation` writes over `a`. */
  function Edited(a: Annotation, e: AnnotationEdit): (r: Annotation)
    ensures r.user == a.user && r.comic == a.comic && r.page == a.page && r.createdAt == a.createdAt
    ensures r.note == e.note.GetOr(a.note) && r.highlight == e.highlight.GetOr(a.highlight)
    ensures r.x == e.x.GetOr(a.x) && r.y == e.y.GetOr(a.y)
    ensures r.width == e.width.GetOr(a.width) && r.height == e.height.GetOr(a.height)
  {
    a.(note := e.note.GetOr(a.note), highlight := e.highlight.GetOr(a.highlight),
       x := e.x.GetOr(a.x), y := e.y.GetOr(a.y),
       width := e.width.GetOr(a.width), height := e.height.GetOr(a.height))
  }

  /** Editing only the note, the highlight or the size keeps the position, so
      such an edit never clashes. */
  lemma TextEditKeepsPosition(rows: map<nat, Annotation>, id: nat, e: AnnotationEdit)
    requires PositionsUnique(rows) && id in rows && e.x.None? && e.y.None?
    ensures !Clashes(rows, Edited(rows[id], e), Some(id))
  {
    if Clashes(rows, Edited(rows[id], e), Some(id)) {
      var k :| k in rows && Some(k) != Some(id) && SamePosition(rows[k], Edited(rows[id], e));
      assert SamePosition(rows[k], rows[id]);
      assert false;
    }
  }

  /** The rows `get_annotations` selects. */
  ghost function Selected(rows: map<nat, Annotation>, user: nat, comic: String, page: Option<int>): set<AnnotationRow> {
    set k | k in rows && rows[k].user == user && rows[k].comic == comic && (page.None? || rows[k].page == page.value)
      :: AnnotationRow(k, rows[k])
  }

  /** Giving a page narrows the selection to that page; leaving it out gives
      every page of the comic. */
  lemma PageNarrows(rows: map<nat, Annotation>, user: nat, comic: String, p: int)
    ensures Selected(rows, user, comic, Some(p)) == set r | r in Selected(rows, user, comic, None) && r.ann.page == p
  {
    var a, b := Selected(rows, user, comic, Some(p)), set r | r in Selected(rows, user, comic, None) && r.ann.page == p;
    forall r | r in b ensures r in a {
      var k :| k in rows && rows[k].user == user && rows[k].comic == comic && r == AnnotationRow(k, rows[k]);
    }
  }

  /** `ORDER BY created_at DESC`. */
  predicate NewerFirst(a: AnnotationRow, b: AnnotationRow) { a.ann.createdAt > b.ann.createdAt }

  class AnnotationsTable {
    var rows: map<nat, Annotation>
    var nextId: nat

    /** The UNIQUE constraint and AUTOINCREMENT ids. */
    ghost predicate Valid()
      reads this
    {
      PositionsUnique(rows) && forall k :: k in rows ==> k < nextId
    }

    constructor()
      ensures Valid() && rows == map[]
    {
      rows := map[];
      nextId := 1;
    }

    /** `get_annotations`: the user's annotations on the comic, on one page
        when a page is given, newest first. */
    method GetAnnotations(user: nat, comic: String, page: Option<int>) returns (r: seq<AnnotationRow>)
      ensures Distinct(r)
      ensures forall a :: a in r <==> a in Selected(rows, user, comic, page)
      ensures SortedBy(r, NewerFirst)
    {
      var m := rows;
      var found := SetToSeq(set k | k in m && m[k].user == user && m[k].comic == comic && (page.None? || m[k].page == page.value)
                                  :: AnnotationRow(k, m[k]));
      assert StrictOrder(NewerFirst);
      r := SortBy(found, NewerFirst);
      DistinctPermutation(found, r);
    }

    /** `add_annotation`: a fresh id, or the UNIQUE error with nothing written
        when the user already has an annotation at that page and position. */
    method AddAnnotation(user: nat, comic: String, page: int, note: Option<String>, highlight: Option<String>,
                         x: Option<real>, y: Option<real>, width: Option<real>, height: Option<real>, now: int)
      returns (r: Result<nat, String>)
      requires Valid()
      modifies this
      ensures Valid()
      ensures r.Err? <==> Clashes(old(rows), Annotation(user, comic, page, note, highlight, x, y, width, height, now), None)
      ensures r.Err? ==> r.error == PositionTaken && rows == old(rows)
      ensures r.Ok? ==> r.value !in old(rows)
                        && rows == old(rows)[r.value := Annotation(user, comic, page, note, highlight, x, y, width, height, now)]
    {
      var a := Annotation(user, comic, page, note, highlight, x, y, width, height, now);
      if exists k :: k in rows && SamePosition(rows[k], a) {
        return Err(PositionTaken);
      }
      rows := rows[nextId := a];
      r := Ok(nextId);
      nextId := nextId + 1;
    }

    /** `delete_annotation`: only the owner's annotation goes; true iff it went. */
    method DeleteAnnotation(user: nat, id: nat) returns (deleted: bool)
      requires Valid()
      modifies this
      ensures Valid()
      ensures deleted <==> id in old(rows) && old(rows)[id].user == user
      ensures rows == if deleted then old(rows) - {id} else old(rows)
    {
      deleted := id in rows && rows[id].user == user;
      if deleted {
        rows := rows - {id};
      }
    }

    /** `update_annotation`: false with nothing written when no whitelisted
        field is given or the annotation is not the user's; the UNIQUE error
        when the new position is taken; otherwise the given fields are
        written and true returned. */
    method UpdateAnnotation(user: nat, id: nat, e: AnnotationEdit) returns (r: Result<bool, String>)
      requires Valid()
      modifies this
      ensures Valid()
      ensures r == Ok(true) <==> !NoAllowedField(e) && id in old(rows) && old(rows)[id].user == user
                                 && !Clashes(old(rows), Edited(old(rows)[id], e), Some(id))
      ensures r.Err? <==> !NoAllowedField(e) && id in old(rows) && old(rows)[id].user == user
                          && Clashes(old(rows), Edited(old(rows)[id], e), Some(id))
      ensures r.Err? ==> r.error == PositionTaken
      ensures r == Ok(true) ==> rows == old(rows)[id := Edited(old(rows)[id], e)]
      ensures r != Ok(true) ==> rows == old(rows)
    {
      if NoAllowedField(e) {
        return Ok(false);
      }
      if id !in rows || rows[id].user != user {
        return Ok(false);
      }
      var a := Edited(rows[id], e);
      if exists k :: k in rows && k != id && SamePosition(rows[k], a) {
        return Err(PositionTaken);
      }
      rows := rows[id := a];
      r := Ok(true);
    }
  }

  /** Annotations without coordinates never clash, however many share a page. */
  lemma UnplacedNeverClash(rows: map<nat, Annotation>, a: Annotation, except: Option<nat>)
    requires a.x.None? || a.y.None?
    ensures !Clashes(rows, a, except)
  {
  }
}
