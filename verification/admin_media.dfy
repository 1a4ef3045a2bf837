/**
 * The media library admin screen: the category filter, the upload of an
 * image to `<category>/<timestamp>.<ext>` in the `site-images` bucket with
 * its `media_library` row, the edit of a row's title, category and alt
 * text, and the deletion of the stored object and its row. The table is a
 * map from id to row held by the screen; the clock (`Date.now()`), the
 * storage service's errors and public URL, the id the database assigns,
 * the confirmation dialog and the database's errors are parameters.
 */
module AdminMedia {
  import opened Wrappers
  import opened Text
  import opened Uploads
  import opened Crud

  /** The filter's values, in order; the first, "all", is a filter only. */
  const Categories: seq<string> := ["all", "hero", "logo", "mixtape", "portfolio", "event", "other"]

  const AllCategories := "all"
  const DefaultCategory := "other"

  /** `categories.slice(1)`: what the upload and edit selectors offer. */
  function UploadCategories(): (cats: seq<string>)
    ensures AllCategories !in cats
    ensures forall c :: c in Categories ==> (c in cats <==> c != AllCategories)
    ensures DefaultCategory in cats
  {
    Categories[1..]
  }

  /** A `media_library` row (the columns the screen reads or writes). */
  datatype MediaRow = MediaRow(
    title: string, fileName: string, filePath: string, fileSize: nat,
    mimeType: string, category: string, altText: Option<string>)

  /** A row as listed, with its id. */
  datatype MediaItem = MediaItem(id: string, row: MediaRow)

  /** The upload dialog's fields. */
  datatype UploadForm = UploadForm(title: string, category: string, altText: string)

  const EmptyUploadForm := UploadForm("", DefaultCategory, "")

  predicate Shown(item: MediaItem, selected: string) {
    selected == AllCategories || item.row.category == selected
  }

  /**
   * The listing query's `eq("category", selected)` unless "all" is
   * selected: the items of the selected category, in the listed order.
   */
  function Filter(items: seq<MediaItem>, selected: string): (r: seq<MediaItem>)
    ensures |r| <= |items|
    ensures forall x :: x in r <==> x in items && Shown(x, selected)
    ensures selected == AllCategories ==> r == items
    decreases |items|
  {
    if items == [] then []
    else
      var rest := Filter(items[1..], selected);
      if Shown(items[0], selected) then [items[0]] + rest else rest
  }

  /** Filtering distributes over concatenation, so the order of the listing is kept. */
  lemma {:induction false} FilterAppend(a: seq<MediaItem>, b: seq<MediaItem>, selected: string)
    ensures Filter(a + b, selected) == Filter(a, selected) + Filter(b, selected)
    decreases |a|
  {
    if a != [] {
      assert (a + b)[1..] == a[1..] + b;
      FilterAppend(a[1..], b, selected);
    } else {
      assert a + b == b;
    }
  }

  /** The upload button is enabled: a file is chosen, the title is not empty, no upload is pending. */
  predicate CanUpload(file: Option<File>, form: UploadForm, pending: bool) {
    file.Some? && form.title != "" && !pending
  }

  /** `${category}/${Date.now()}.${ext}`: where an uploaded image is stored. */
  function MediaPath(category: string, now: nat, file: File): (path: string)
    ensures |path| > |category| && path[..|category| + 1] == category + "/"
    ensures Extension(path) == Extension(file.name)
  {
    UploadPathKeepsExtension(category, NatToString(now), file);
    UploadPath(category, NatToString(now), file)
  }

  /** `alt_text || null`: an empty alt text is stored as null. */
  function StoredAltText(altText: string): (a: Option<string>)
    ensures a.None? <==> altText == ""
    ensures a.Some? ==> a.value == altText
  {
    if altText == "" then None else Some(altText)
  }

  /** The row an upload inserts. */
  function UploadedRow(form: UploadForm, file: File, url: string): (row: MediaRow)
    ensures row.title == form.title && row.category == form.category
    ensures row.fileName == file.name && row.fileSize == file.size && row.mimeType == file.mimeType
    ensures row.filePath == url && row.altText == StoredAltText(form.altText)
  {
    MediaRow(form.title, file.name, url, file.size, file.mimeType, form.category, StoredAltText(form.altText))
  }

  /** The row after an edit: only the title, the category and the alt text are written. */
  function Edited(stored: MediaRow, draft: MediaRow): (row: MediaRow)
    ensures row.title == draft.title && row.category == draft.category && row.altText == draft.altText
    ensures row.(title := stored.title, category := stored.category, altText := stored.altText) == stored
  {
    stored.(title := draft.title, category := draft.category, altText := draft.altText)
  }

  /** In `category/digits.ext`, with no '/' in the category or the extension, the only '/' follows the category. */
  lemma {:induction false} OneSlash(category: string, digits: string, ext: string)
    requires '/' !in category && AllDigits(digits) && '/' !in ext
    ensures var path := category + "/" + digits + "." + ext;
      forall i :: 0 <= i < |path| && path[i] == '/' ==> i == |category|
  {
    var path := category + "/" + digits + "." + ext;
    var dot := |category| + 1 + |digits|;
    assert forall i :: 0 <= i < |category| ==> path[i] == category[i];
    assert forall k :: 0 <= k < |digits| ==> path[|category| + 1 + k] == digits[k];
    assert path[dot] == '.';
    assert forall k :: 0 <= k < |ext| ==> path[dot + 1 + k] == ext[k];
  }

  /** The upload path holds no '/' besides the one after the category. */
  lemma {:induction false} MediaPathOneSlash(category: string, now: nat, file: File)
    requires '/' !in category && '/' !in file.name
    ensures var path := MediaPath(category, now, file);
      forall i :: 0 <= i < |path| && path[i] == '/' ==> i == |category|
  {
    var ext := Extension(file.name);
    ExtensionOmits(file.name, '/');
    OneSlash(category, NatToString(now), ext);
  }

  /**
   * Deleting an uploaded image removes the object it was stored as: the
   * stored public URL, the bucket's prefix and marker followed by the upload
   * path, gives that path back.
   */
  lemma {:induction false} DeleteFindsUploadedObject(prefix: string, category: string, now: nat, file: File)
    requires forall j: nat :: j < |prefix| ==> !OccursAt(prefix + Marker, Marker, j)
    requires '/' !in category && '/' !in file.name
    ensures StoragePath(prefix + Marker + MediaPath(category, now, file)) == Some(MediaPath(category, now, file))
  {
    var path := MediaPath(category, now, file);
    MediaPathOneSlash(category, now, file);
    NoMarkerWithOneSlash(path, |category|);
    StoragePathRecovers(prefix, path);
  }

  /** The offered categories are plain folder names. */
  lemma UploadCategoriesHaveNoSlash(category: string)
    requires category in UploadCategories()
    ensures '/' !in category
  {
  }

  class MediaScreen {
    var table: map<string, MediaRow>
    var selectedCategory: string
    var uploadFile: Option<File>
    var uploadData: UploadForm
    var editingItem: Option<MediaItem>
    var isUploadOpen: bool
    var isEditOpen: bool

    constructor (initial: map<string, MediaRow>)
      ensures table == initial && selectedCategory == AllCategories
      ensures uploadFile.None? && uploadData == EmptyUploadForm && editingItem.None?
      ensures !isUploadOpen && !isEditOpen
    {
      table := initial;
      selectedCategory := AllCategories;
      uploadFile := None;
      uploadData := EmptyUploadForm;
      editingItem := None;
      isUploadOpen := false;
      isEditOpen := false;
    }

    /**
     * `uploadMutation`: with no file chosen nothing happens. Otherwise the
     * file is stored under its path, then its row is inserted with the
     * stored object's public URL. On success the dialog closes and the
     * upload form is reset; on a failure at either step the table and the
     * form are as they were.
     */
    method Upload(now: nat, uploadError: Option<string>, publicUrl: string -> string,
                  newId: string, dbError: Option<string>)
      returns (path: Option<string>, ok: bool)
      requires newId !in table
      modifies this
      ensures old(uploadFile).None? ==> path.None?
      ensures old(uploadFile).Some? ==> path == Some(MediaPath(old(uploadData).category, now, old(uploadFile).value))
      ensures ok == (path.Some? && uploadError.None? && dbError.None?)
      // an upload started from the enabled button, with no error, inserts a titled row
      ensures CanUpload(old(uploadFile), old(uploadData), false) && uploadError.None? && dbError.None? ==>
                ok && newId in table && table[newId].title != ""
      ensures ok ==> table == old(table)[newId := UploadedRow(old(uploadData), old(uploadFile).value, publicUrl(path.value))]
      ensures ok ==> !isUploadOpen && uploadFile.None? && uploadData == EmptyUploadForm
      ensures !ok ==> table == old(table) && isUploadOpen == old(isUploadOpen)
                      && uploadFile == old(uploadFile) && uploadData == old(uploadData)
      ensures selectedCategory == old(selectedCategory) && editingItem == old(editingItem)
      ensures isEditOpen == old(isEditOpen)
    {
      path, ok := None, false;
      if uploadFile.Some? {
        var file, form := uploadFile.value, uploadData;
        var p := MediaPath(form.category, now, file);
        path := Some(p);
        if uploadError.None? && dbError.None? {
          table := table[newId := UploadedRow(form, file, publicUrl(p))];
          ok := true;
          isUploadOpen := false;
          uploadFile := None;
          uploadData := EmptyUploadForm;
        }
      }
    }

    /** The edit button: the listed item becomes the draft and the edit dialog opens. */
    method StartEdit(item: MediaItem)
      modifies this
      ensures editingItem == Some(item) && isEditOpen
      ensures table == old(table) && uploadData == old(uploadData) && uploadFile == old(uploadFile)
      ensures isUploadOpen == old(isUploadOpen) && selectedCategory == old(selectedCategory)
    {
      editingItem := Some(item);
      isEditOpen := true;
    }

    /** The title input of the edit dialog: only the draft's title changes. */
    method EditTitle(title: string)
      modifies this
      ensures old(editingItem).None? ==> editingItem.None?
      ensures old(editingItem).Some? ==>
        editingItem == Some(old(editingItem).value.(row := old(editingItem).value.row.(title := title)))
      ensures table == old(table) && isEditOpen == old(isEditOpen)
    {
      if editingItem.Some? {
        var item := editingItem.value;
        editingItem := Some(item.(row := item.row.(title := title)));
      }
    }

    /** The category select of the edit dialog: only the draft's category changes. */
    method EditCategory(category: string)
      modifies this
      ensures old(editingItem).None? ==> editingItem.None?
      ensures old(editingItem).Some? ==>
        editingItem == Some(old(editingItem).value.(row := old(editingItem).value.row.(category := category)))
      ensures table == old(table) && isEditOpen == old(isEditOpen)
    {
      if editingItem.Some? {
        var item := editingItem.value;
        editingItem := Some(item.(row := item.row.(category := category)));
      }
    }

    /**
     * The alt text box of the edit dialog: the draft's alt text becomes the
     * typed text, even when it is emptied (it stays "", not null); nothing
     * else changes.
     */
    method EditAltText(altText: string)
      modifies this
      ensures old(editingItem).None? ==> editingItem.None?
      ensures old(editingItem).Some? ==>
        editingItem == Some(old(editingItem).value.(row := old(editingItem).value.row.(altText := Some(altText))))
      ensures table == old(table) && isEditOpen == old(isEditOpen)
    {
      if editingItem.Some? {
        var item := editingItem.value;
        editingItem := Some(item.(row := item.row.(altText := Some(altText))));
      }
    }

    /**
     * `updateMutation`: writes the draft's title, category and alt text to
     * the row with the draft's id, and nothing else. Without a draft nothing
     * is written, yet the mutation succeeds. On success the edit dialog
     * closes and the draft is dropped; on failure nothing changes.
     */
    method Update(dbError: Option<string>) returns (wrote: bool, ok: bool)
      modifies this
      ensures wrote == (old(editingItem).Some? && dbError.None?)
      ensures ok == (old(editingItem).None? || dbError.None?)
      ensures table.Keys == old(table).Keys
      ensures wrote && old(editingItem).value.id in old(table) ==>
        table[old(editingItem).value.id] == Edited(old(table)[old(editingItem).value.id], old(editingItem).value.row)
      ensures forall k :: k in old(table) && !(wrote && k == old(editingItem).value.id) ==> table[k] == old(table)[k]
      ensures ok ==> !isEditOpen && editingItem.None?
      ensures !ok ==> isEditOpen == old(isEditOpen) && editingItem == old(editingItem)
      ensures uploadData == old(uploadData) && uploadFile == old(uploadFile) && isUploadOpen == old(isUploadOpen)
    {
      wrote, ok := false, false;
      if editingItem.Some? {
        if dbError.Some? {
          return;
        }
        var item := editingItem.value;
        if item.id in table {
          table := table[item.id := Edited(table[item.id], item.row)];
        }
        wrote := true;
      }
      ok := true;
      isEditOpen := false;
      editingItem := None;
    }

    /**
     * The delete button: after a confirmation, the stored object (the part
     * of the URL after the bucket's marker) is removed, then the row. A
     * declined confirmation does nothing; a storage failure keeps the row.
     */
    method Delete(item: MediaItem, confirmed: bool, storageError: Option<string>, dbError: Option<string>)
      returns (removedObject: Option<Option<string>>, ok: bool)
      modifies this
      ensures removedObject == if confirmed && storageError.None? then Some(StoragePath(item.row.filePath)) else None
      ensures ok == (removedObject.Some? && dbError.None?)
      ensures table == if ok then Removed(old(table), item.id) else old(table)
      ensures uploadData == old(uploadData) && uploadFile == old(uploadFile) && editingItem == old(editingItem)
      ensures isUploadOpen == old(isUploadOpen) && isEditOpen == old(isEditOpen)
    {
      removedObject, ok := None, false;
      if !confirmed || storageError.Some? {
        return;
      }
      removedObject := Some(StoragePath(item.row.filePath));
      if dbError.None? {
        table := Removed(table, item.id);
        ok := true;
      }
    }
  }
}
