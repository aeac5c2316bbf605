/** The archive inspector: what one comic archive contributes to a scan. The
    archive itself is reduced to the list of its entry names (or the reason it
    could not be read), and writing the thumbnail is an oracle that says, for
    each entry name, how saving it as the cover would end. */
module Archives {
  import opened Text
  import opened Wrappers
  import opened ScannerUtils

  /** The image suffixes a page may have (`IMG_EXTENSIONS`). */
  const ImageExtensions: seq<String> := [".jpg", ".jpeg", ".png", ".gif", ".bmp", ".webp"]

  /** `n.lower().endswith(IMG_EXTENSIONS)`. */
  predicate IsImageName(n: String) {
    exists e :: e in ImageExtensions && EndsWith(LowerStr(n), e)
  }

  /** The entries of an archive that count as pages, in archive order. */
  function ImageNames(names: seq<String>): (r: seq<String>)
    ensures |r| <= |names|
    ensures forall n :: n in r <==> n in names && IsImageName(n)
    ensures (forall i :: 0 <= i < |names| ==> IsImageName(names[i])) ==> r == names
  {
    if names == [] then []
    else if IsImageName(names[0]) then [names[0]] + ImageNames(names[1..])
    else ImageNames(names[1..])
  }

  /** The page shown as the cover: the image name that sorts first. */
  function Cover(images: seq<String>): (r: String)
    requires images != []
    ensures r in images
  {
    images[FirstInNaturalOrder(images)]
  }

  /** The last component of a path with '/' separators (`os.path.basename`). */
  function Basename(path: String): (r: String)
    ensures EndsWith(path, r)
    ensures forall i :: 0 <= i < |r| ==> r[i] != '/'
  {
    if path == [] || path[|path| - 1] == '/' then []
    else
      var b := Basename(path[..|path| - 1]);
      assert EndsWith(path[..|path| - 1], b);
      assert path[|path| - |b| - 1..] == path[..|path| - 1][|path| - 1 - |b|..] + [path[|path| - 1]];
      b + [path[|path| - 1]]
  }

  /** `os.path.splitext(filepath)[1].lower()`: only the last component has an extension. */
  function FileExt(path: String): String {
    LowerStr(Ext(Basename(path)))
  }

  predicate IsArchiveExt(path: String) {
    FileExt(path) == ".cbz" || FileExt(path) == ".cbr"
  }

  /** What the file system and the archive library would show for a comic path. */
  datatype Archive =
    | Missing                          // `os.path.exists` is false
    | Unreadable(reason: String)       // opening or listing the archive raises
    | Entries(names: seq<String>)      // the archive's entry names

  /** How saving one entry as the thumbnail ends. */
  datatype SaveOutcome =
    | Saved                  // image written to the cache path
    | NoCachePath            // no cache path for the comic
    | SaveRaised(e: String)  // decoding, resizing or writing raised
    | OpenRaised(e: String)  // opening the entry inside the archive raised

  /** `save_thumbnail`'s result: True/False, or the error text it returns instead of raising. */
  datatype ThumbResult = ThumbBool(ok: bool) | ThumbText(text: String)

  /** `save_thumbnail(f_img, comic_id, item_name)` once the entry is open. */
  function SaveThumbnail(item: String, outcome: SaveOutcome): (r: ThumbResult)
    requires !outcome.OpenRaised?
    ensures r == ThumbBool(true) <==> outcome == Saved
    ensures r == ThumbBool(false) <==> outcome == NoCachePath
    ensures r.ThumbText? ==> StartsWith(r.text, "Thumbnail error: " + item)
  {
    match outcome
    case Saved => ThumbBool(true)
    case NoCachePath => ThumbBool(false)
    case SaveRaised(e) =>
      assert ("Thumbnail error: " + item + " - " + e)[..|"Thumbnail error: " + item|] == "Thumbnail error: " + item;
      ThumbText("Thumbnail error: " + item + " - " + e)
  }

  /** `extract_cover_image`: the cover of a ".cbz"/".cbr" archive, or False
      whenever anything around the thumbnail step fails. */
  function ExtractCoverImage(filepath: String, archive: Archive, save: String -> SaveOutcome): (r: ThumbResult)
    ensures r == ThumbBool(true) <==>
              archive.Entries? && IsArchiveExt(filepath) && ImageNames(archive.names) != []
              && save(Cover(ImageNames(archive.names))) == Saved
    ensures r.ThumbText? ==>
              archive.Entries? && ImageNames(archive.names) != []
              && save(Cover(ImageNames(archive.names))).SaveRaised?
  {
    if !IsArchiveExt(filepath) then ThumbBool(false)
    else match archive
      case Missing => ThumbBool(false)
      case Unreadable(_) => ThumbBool(false)
      case Entries(names) =>
        var images := ImageNames(names);
        if images == [] then ThumbBool(false)
        else
          var cover := Cover(images);
          if save(cover).OpenRaised? then ThumbBool(false)
          else SaveThumbnail(cover, save(cover))
  }

  /** The record `_process_single_comic` returns. */
  datatype ComicScan = ComicScan(
    comicId: String,
    filepath: String,
    filename: String,
    pages: nat,
    hasThumb: bool,
    errors: seq<String>,
    fileMissing: bool)

  /** What `_process_single_comic` reports for one comic: the page count, whether
      the cover was saved, and every failure as an error line instead of an exception. */
  function SingleComicScan(comicId: String, filepath: String, archive: Archive, save: String -> SaveOutcome)
    : (r: ComicScan)
    ensures r.comicId == comicId && r.filepath == filepath && r.filename == Basename(filepath)
    ensures |r.errors| <= 1
    ensures r.fileMissing <==> archive.Missing?
    ensures archive.Missing? ==>
              r.pages == 0 && !r.hasThumb && r.errors == ["Comic file not found: " + filepath]
    ensures !archive.Missing? && !IsArchiveExt(filepath) ==> r.pages == 0 && !r.hasThumb && r.errors == []
    ensures archive.Unreadable? && IsArchiveExt(filepath) ==>
              r.pages == 0 && !r.hasThumb && r.errors == ["Error processing " + filepath + ": " + archive.reason]
    ensures archive.Entries? && IsArchiveExt(filepath) ==> r.pages == |ImageNames(archive.names)|
    ensures archive.Entries? && IsArchiveExt(filepath) && ImageNames(archive.names) == [] ==>
              !r.hasThumb && r.errors == []
    ensures archive.Entries? && IsArchiveExt(filepath) && ImageNames(archive.names) != []
            && save(Cover(ImageNames(archive.names))).OpenRaised? ==>
              !r.hasThumb && r.errors == ["Error processing " + filepath + ": " + save(Cover(ImageNames(archive.names))).e]
    ensures archive.Entries? && IsArchiveExt(filepath) && ImageNames(archive.names) != []
            && save(Cover(ImageNames(archive.names))).SaveRaised? ==>
              !r.hasThumb
              && r.errors == [SaveThumbnail(Cover(ImageNames(archive.names)), save(Cover(ImageNames(archive.names)))).text]
    ensures r.hasThumb <==> ExtractCoverImage(filepath, archive, save) == ThumbBool(true)
    ensures r.errors != [] && !archive.Missing? ==>
              archive.Unreadable? ||
              (archive.Entries? && ImageNames(archive.names) != [] &&
               !save(Cover(ImageNames(archive.names))).Saved? && !save(Cover(ImageNames(archive.names))).NoCachePath?)
  {
    var base := ComicScan(comicId, filepath, Basename(filepath), 0, false, [], false);
    if archive.Missing? then base.(errors := ["Comic file not found: " + filepath], fileMissing := true)
    else if !IsArchiveExt(filepath) then base
    else match archive
      case Unreadable(reason) => base.(errors := ["Error processing " + filepath + ": " + reason])
      case Entries(names) =>
        var images := ImageNames(names);
        if images == [] then base
        else
          var outcome := save(Cover(images));
          if outcome.OpenRaised? then base.(pages := |images|, errors := ["Error processing " + filepath + ": " + outcome.e])
          else match SaveThumbnail(Cover(images), outcome)
            case ThumbText(text) => base.(pages := |images|, errors := [text])
            case ThumbBool(ok) => base.(pages := |images|, hasThumb := ok)
  }

  /** `_process_single_comic`: fills the result record field by field. */
  method ProcessSingleComic(comicId: String, filepath: String, archive: Archive, save: String -> SaveOutcome)
    returns (r: ComicScan)
    ensures r == SingleComicScan(comicId, filepath, archive, save)
  {
    r := ComicScan(comicId, filepath, Basename(filepath), 0, false, [], false);
    if archive.Missing? {
      r := r.(errors := r.errors + ["Comic file not found: " + filepath], fileMissing := true);
      return;
    }
    var ext := FileExt(filepath);
    if ext == ".cbz" || ext == ".cbr" {
      match archive {
        case Unreadable(reason) =>
          r := r.(errors := r.errors + ["Error processing " + filepath + ": " + reason]);
        case Entries(names) =>
          var images := ImageNames(names);
          r := r.(pages := |images|);
          if images != [] {
            var cover := Cover(images);
            var outcome := save(cover);
            if outcome.OpenRaised? {
              r := r.(errors := r.errors + ["Error processing " + filepath + ": " + outcome.e]);
            } else {
              match SaveThumbnail(cover, outcome) {
                case ThumbText(text) => r := r.(errors := r.errors + [text]);
                case ThumbBool(ok) => r := r.(hasThumb := ok);
              }
            }
          }
      }
    }
  }

  /** The cover is an image entry of the archive, and every other image entry sorts no earlier. */
  lemma CoverIsFirstImage(names: seq<String>)
    requires ImageNames(names) != []
    ensures Cover(ImageNames(names)) in names && IsImageName(Cover(ImageNames(names)))
    ensures forall n :: n in ImageNames(names) ==>
              !KeyLess(NaturalSortKey(n), NaturalSortKey(Cover(ImageNames(names))))
  {
    var images := ImageNames(names);
    var k := FirstInNaturalOrder(images);
    assert images[k] in images;
    forall n | n in images
      ensures !KeyLess(NaturalSortKey(n), NaturalSortKey(images[k]))
    {
      var j :| 0 <= j < |images| && images[j] == n;
      if j < k {
        NaturalKeysSameShape(images[k], images[j]);
        KeyLessAsymmetric(NaturalSortKey(images[k]), NaturalSortKey(images[j]));
      } else if j == k {
        KeyLessIrreflexive(NaturalSortKey(n));
      }
    }
  }

  /** A thumbnail error comes back as text, which Python treats as true even
      though `extract_cover_image` is declared to return a boolean. */
  lemma ThumbnailErrorIsTruthy(filepath: String, names: seq<String>, save: String -> SaveOutcome)
    requires IsArchiveExt(filepath)
    requires ImageNames(names) != []
    requires save(Cover(ImageNames(names))).SaveRaised?
    ensures ExtractCoverImage(filepath, Entries(names), save).ThumbText?
  {
  }

  /** Corrected outcome of `extract_cover_image`: true exactly when the cover was saved. */
  function CoverSaved(filepath: String, archive: Archive, save: String -> SaveOutcome): (ok: bool)
    ensures ok <==> archive.Entries? && IsArchiveExt(filepath) && ImageNames(archive.names) != []
                    && save(Cover(ImageNames(archive.names))) == Saved
  {
    ExtractCoverImage(filepath, archive, save) == ThumbBool(true)
  }
}
