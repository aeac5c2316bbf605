/** The `libraries` table of db/libraries.py: libraries with unique names and
    paths, of which at most one is the default. */
module Libraries {
  import opened Text
  import opened Wrappers
  import opened Collections

  /** A row of `libraries` (the creation time is not modelled). */
  datatype Library = Library(name: String, path: String, isDefault: bool)

  /** A library with its id, as the readers return it. */
  datatype LibraryRow = LibraryRow(id: nat, lib: Library)

  /** The whitelisted keyword arguments of `update_library`: None for a field
      not given. */
  datatype LibraryEdit = LibraryEdit(name: Option<String>, path: Option<String>, isDefault: Option<bool>)

  /** The error an INSERT or UPDATE lets escape on a taken name or path. */
  const NameOrPathTaken: String := "UNIQUE constraint failed: libraries"

  /** UNIQUE(name) and UNIQUE(path). */
  predicate Unique(libs: map<nat, Library>) {
    forall a, b :: a in libs && b in libs && a != b ==> libs[a].name != libs[b].name && libs[a].path != libs[b].path
  }

  /** At most one library is the default. */
  predicate OneDefault(libs: map<nat, Library>) {
    forall a, b :: a in libs && b in libs && libs[a].isDefault && libs[b].isDefault ==> a == b
  }

  /** Some library other than `except` has that name or that path. */
  predicate Taken(libs: map<nat, Library>, name: String, path: String, except: Option<nat>) {
    exists k :: k in libs && Some(k) != except && (libs[k].name == name || libs[k].path == path)
  }

  /** `UPDATE libraries SET is_default = 0 WHERE is_default = 1`. */
  function ClearDefaults(libs: map<nat, Library>): (r: map<nat, Library>)
    ensures r.Keys == libs.Keys
    ensures forall k :: k in r ==> r[k] == libs[k].(isDefault := false)
  {
    map k | k in libs :: libs[k].(isDefault := false)
  }

  /** The row `update_library` writes over `lib`. */
  function Edited(lib: Library, edit: LibraryEdit): (r: Library)
    ensures r.name == edit.name.GetOr(lib.name) && r.path == edit.path.GetOr(lib.path)
    ensures r.isDefault == edit.isDefault.GetOr(lib.isDefault)
  {
    Library(edit.name.GetOr(lib.name), edit.path.GetOr(lib.path), edit.isDefault.GetOr(lib.isDefault))
  }

  /** Clearing the defaults leaves none, and keeps names and paths. */
  lemma ClearDefaultsKeeps(libs: map<nat, Library>)
    requires Unique(libs)
    ensures Unique(ClearDefaults(libs))
    ensures forall k :: k in ClearDefaults(libs) ==> !ClearDefaults(libs)[k].isDefault
  {
  }

  /** `ORDER BY is_default DESC, name ASC`. */
  predicate LibraryBefore(a: LibraryRow, b: LibraryRow) {
    (a.lib.isDefault && !b.lib.isDefault) || (a.lib.isDefault == b.lib.isDefault && LexLess(a.lib.name, b.lib.name))
  }

  lemma LibraryOrder()
    ensures StrictOrder(LibraryBefore)
  {
    forall a: LibraryRow ensures !LibraryBefore(a, a) {
      LexLessIrreflexive(a.lib.name);
    }
    forall a: LibraryRow, b: LibraryRow, c: LibraryRow | LibraryBefore(a, b) && LibraryBefore(b, c)
      ensures LibraryBefore(a, c)
    {
      if a.lib.isDefault == b.lib.isDefault == c.lib.isDefault {
        LexLessTransitive(a.lib.name, b.lib.name, c.lib.name);
      }
    }
  }

  /** With unique names the order is total: of two different libraries one
      comes first, so the reader's order is fully determined. */
  lemma LibraryOrderTotal(libs: map<nat, Library>, a: LibraryRow, b: LibraryRow)
    requires Unique(libs)
    requires a.id in libs && libs[a.id] == a.lib && b.id in libs && libs[b.id] == b.lib && a != b
    ensures LibraryBefore(a, b) || LibraryBefore(b, a)
  {
    assert a.id != b.id;
    LexLessTotal(a.lib.name, b.lib.name);
  }

  /** The number of comics whose `library_id` is `libraryId`. */
  function ComicsIn(comicLibrary: map<String, Option<nat>>, libraryId: nat): nat {
    |set c | c in comicLibrary && comicLibrary[c] == Some(libraryId)|
  }

  class LibrariesTable {
    var libs: map<nat, Library>
    var nextId: nat

    /** The UNIQUE constraints, a single default, and AUTOINCREMENT ids. */
    ghost predicate Valid()
      reads this
    {
      Unique(libs) && OneDefault(libs) && forall k :: k in libs ==> k < nextId
    }

    constructor()
      ensures Valid() && libs == map[]
    {
      libs := map[];
      nextId := 1;
    }

    /** `get_libraries`: every library once, the default first, then by name. */
    method GetLibraries() returns (ls: seq<LibraryRow>)
      requires Valid()
      ensures Distinct(ls)
      ensures forall l :: l in ls <==> l.id in libs && l.lib == libs[l.id]
      ensures forall i, j :: 0 <= i < j < |ls| ==> LibraryBefore(ls[i], ls[j])
    {
      var m := libs;
      var found := SetToSeq(set k | k in m :: LibraryRow(k, m[k]));
      LibraryOrder();
      ls := SortBy(found, LibraryBefore);
      DistinctPermutation(found, ls);
      forall i, j | 0 <= i < j < |ls| ensures LibraryBefore(ls[i], ls[j]) {
        assert ls[i] in ls && ls[j] in ls;
        LibraryOrderTotal(m, ls[i], ls[j]);
      }
    }

    /** `get_library`. */
    method GetLibrary(id: nat) returns (r: Option<Library>)
      ensures r.Some? <==> id in libs
      ensures r.Some? ==> r.value == libs[id]
    {
      r := if id in libs then Some(libs[id]) else None;
    }

    /** `get_default_library`: the default, which is unique. */
    method GetDefaultLibrary() returns (r: Option<LibraryRow>)
      requires Valid()
      ensures r.None? <==> forall k :: k in libs ==> !libs[k].isDefault
      ensures r.Some? ==> r.value.id in libs && r.value.lib == libs[r.value.id] && r.value.lib.isDefault
      ensures r.Some? ==> forall k :: k in libs && libs[k].isDefault ==> k == r.value.id
    {
      var m := libs;
      if k :| k in m && m[k].isDefault {
        r := Some(LibraryRow(k, m[k]));
      } else {
        r := None;
      }
    }

    /** `create_library`: a taken name or path escapes as an error and nothing
        is written; otherwise a default first clears every other default, and
        the new row gets a fresh id. */
    method CreateLibrary(name: String, path: String, isDefault: bool) returns (r: Result<nat, String>)
      requires Valid()
      modifies this
      ensures Valid()
      ensures r.Err? <==> Taken(old(libs), name, path, None)
      ensures r.Err? ==> r.error == NameOrPathTaken && libs == old(libs)
      ensures r.Ok? ==> r.value !in old(libs)
                        && libs == (if isDefault then ClearDefaults(old(libs)) else old(libs))[r.value := Library(name, path, isDefault)]
    {
      if exists k :: k in libs && (libs[k].name == name || libs[k].path == path) {
        return Err(NameOrPathTaken);
      }
      var base := if isDefault then ClearDefaults(libs) else libs;
      libs := base[nextId := Library(name, path, isDefault)];
      r := Ok(nextId);
      nextId := nextId + 1;
    }

    /** `update_library`: false with nothing written when no whitelisted field
        is given. A truthy `is_default` clears every default first, and that
        write stands even when no row has the id; a taken name or path
        escapes as an error with nothing written; otherwise the given fields
        are written and true says the row exists. */
    method UpdateLibrary(id: nat, edit: LibraryEdit) returns (r: Result<bool, String>)
      requires Valid()
      modifies this
      ensures Valid()
      ensures r == Ok(true) <==> id in old(libs) && (edit.name.Some? || edit.path.Some? || edit.isDefault.Some?)
                                 && !Taken(old(libs), Edited(old(libs)[id], edit).name, Edited(old(libs)[id], edit).path, Some(id))
      ensures r.Err? <==> id in old(libs) && (edit.name.Some? || edit.path.Some? || edit.isDefault.Some?)
                          && Taken(old(libs), Edited(old(libs)[id], edit).name, Edited(old(libs)[id], edit).path, Some(id))
      ensures r.Err? ==> r.error == NameOrPathTaken && libs == old(libs)
      ensures r == Ok(true) ==> libs == (if edit.isDefault == Some(true) then ClearDefaults(old(libs)) else old(libs))
                                          [id := Edited(old(libs)[id], edit)]
      ensures r == Ok(false) ==> libs == if edit.isDefault == Some(true) then ClearDefaults(old(libs)) else old(libs)
    {
      if edit.name.None? && edit.path.None? && edit.isDefault.None? {
        return Ok(false);
      }
      if id !in libs {
        if edit.isDefault == Some(true) {
          ClearDefaultsKeeps(libs);
          libs := ClearDefaults(libs);
        }
        return Ok(false);
      }
      var row := Edited(libs[id], edit);
      if exists k :: k in libs && k != id && (libs[k].name == row.name || libs[k].path == row.path) {
        return Err(NameOrPathTaken);
      }
      var base := if edit.isDefault == Some(true) then ClearDefaults(libs) else libs;
      libs := base[id := row];
      r := Ok(true);
    }

    /** `delete_library`: true iff a row had the id. The comics' `library_id`
        is left as it is, since foreign keys are not enforced. */
    method DeleteLibrary(id: nat) returns (deleted: bool)
      requires Valid()
      modifies this
      ensures Valid()
      ensures deleted <==> id in old(libs)
      ensures libs == old(libs) - {id}
    {
      deleted := id in libs;
      libs := libs - {id};
    }

    /** `get_library_comics_count`. */
    method GetLibraryComicsCount(id: nat, comicLibrary: map<String, Option<nat>>) returns (n: nat)
      ensures n == ComicsIn(comicLibrary, id)
      ensures n <= |comicLibrary|
    {
      n := ComicsIn(comicLibrary, id);
      var hits := set c | c in comicLibrary && comicLibrary[c] == Some(id);
      SubsetCard(hits, comicLibrary.Keys);
    }
  }

  /** A new default library is the only default afterwards. */
  lemma CreatedDefaultIsOnly(libs: map<nat, Library>, id: nat, lib: Library, after: map<nat, Library>)
    requires id !in libs && lib.isDefault && after == ClearDefaults(libs)[id := lib]
    ensures OneDefault(after)
    ensures forall k :: k in after && after[k].isDefault ==> k == id
  {
  }

  /** Setting `is_default` on an id no row has still clears the default: the
      library had a default before and has none after, although the call
      returns false. */
  lemma UpdateMissingClearsDefault(libs: map<nat, Library>, id: nat, d: nat)
    requires id !in libs && d in libs && libs[d].isDefault
    ensures forall k :: k in ClearDefaults(libs) ==> !ClearDefaults(libs)[k].isDefault
    ensures ClearDefaults(libs) != libs
  {
    assert ClearDefaults(libs)[d] != libs[d];
  }
}
