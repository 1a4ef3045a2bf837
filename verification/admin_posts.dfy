/**
 * The posts admin screen: a form over a post, the submit that stamps
 * `published_at` when the post is published, the publish toggle, and
 * deletion. The `posts` table is a map from id to row held by the screen;
 * the clock (`new Date().toISOString()`), the id the database assigns to an
 * inserted row, the confirmation dialog and the database's errors are
 * parameters.
 */
module AdminPosts {
  import opened Wrappers
  import opened Text
  import opened Crud

  /** The form's fields. */
  datatype PostForm = PostForm(
    title: string, slug: string, content: string,
    category: string, featuredImage: string, published: bool)

  const EmptyForm := PostForm("", "", "", "", "", false)

  /** A `posts` row (the columns the screen reads or writes). */
  datatype PostRow = PostRow(
    title: string, slug: string, content: string,
    category: Option<string>, featuredImage: Option<string>,
    published: Option<bool>, publishedAt: Option<string>)

  /** What `handleSubmit` sends: the form plus `published_at`. */
  datatype PostPayload = PostPayload(form: PostForm, publishedAt: Option<string>)

  /** A row is consistent when it carries a publication time exactly when it is published. */
  predicate Consistent(row: PostRow) {
    row.publishedAt.Some? <==> row.published == Some(true)
  }

  predicate AllConsistent(table: map<string, PostRow>) {
    forall id :: id in table ==> Consistent(table[id])
  }

  /** `{ ...formData, published_at: formData.published ? now : null }`. */
  function PayloadOf(form: PostForm, now: string): (p: PostPayload)
    ensures p.form == form
    ensures p.publishedAt.Some? <==> form.published
    ensures p.publishedAt.Some? ==> p.publishedAt.value == now
  {
    PostPayload(form, if form.published then Some(now) else None)
  }

  /** The row a submitted payload leaves in the table. */
  function RowOf(p: PostPayload): (row: PostRow)
    ensures row.title == p.form.title && row.slug == p.form.slug && row.content == p.form.content
    ensures row.category == Some(p.form.category) && row.featuredImage == Some(p.form.featuredImage)
    ensures row.published == Some(p.form.published) && row.publishedAt == p.publishedAt
  {
    PostRow(p.form.title, p.form.slug, p.form.content, Some(p.form.category),
            Some(p.form.featuredImage), Some(p.form.published), p.publishedAt)
  }

  /** Every row a submit writes is consistent. */
  lemma SubmittedRowConsistent(form: PostForm, now: string)
    ensures Consistent(RowOf(PayloadOf(form, now)))
  {
  }

  /** `handleEdit`'s copy of a row: null text becomes "", a null `published` becomes false. */
  function FormOf(row: PostRow): (f: PostForm)
    ensures f.title == row.title && f.slug == row.slug && f.content == row.content
    ensures f.category == OrEmpty(row.category) && f.featuredImage == OrEmpty(row.featuredImage)
    ensures f.published <==> row.published == Some(true)
  {
    PostForm(row.title, row.slug, row.content, OrEmpty(row.category), OrEmpty(row.featuredImage),
             row.published == Some(true))
  }

  /**
   * Re-saving a published post stamps it with the time of the save, not the
   * time it was first published; an unpublished post keeps no time.
   */
  lemma ResaveRestamps(row: PostRow, now: string)
    ensures row.published == Some(true) ==> RowOf(PayloadOf(FormOf(row), now)).publishedAt == Some(now)
    ensures row.published != Some(true) ==> RowOf(PayloadOf(FormOf(row), now)).publishedAt.None?
  {
  }

  /**
   * `togglePublish(post)`: the stored row with `published` set to the
   * negation of the shown post's flag (null counts as false) and
   * `published_at` set to now exactly when that is true; nothing else of the
   * row changes.
   */
  function Toggled(stored: PostRow, shown: PostRow, now: string): (row: PostRow)
    ensures row.published == Some(shown.published != Some(true))
    ensures row.publishedAt == if shown.published != Some(true) then Some(now) else None
    ensures row.(published := stored.published, publishedAt := stored.publishedAt) == stored
    ensures Consistent(row)
  {
    var publish := shown.published != Some(true);
    stored.(published := Some(publish), publishedAt := if publish then Some(now) else None)
  }

  /** Toggling a post twice (each time from its current state) restores whether it is published. */
  lemma {:induction false} ToggleTwice(row: PostRow, t1: string, t2: string)
    ensures var once := Toggled(row, row, t1);
      var twice := Toggled(once, once, t2);
      (twice.published == Some(true)) == (row.published == Some(true)) &&
      twice.(published := row.published, publishedAt := row.publishedAt) == row
  {
    var once := Toggled(row, row, t1);
    assert once.published == Some(row.published != Some(true));
    var twice := Toggled(once, once, t2);
    assert twice.published == Some(once.published != Some(true));
  }

  /**
   * The table after a successful write: an insert adds the row under the
   * new id, an update replaces the row with the edited id when there is one
   * (an update matching no row changes nothing).
   */
  function AfterWrite(table: map<string, PostRow>, w: Write<PostPayload>, newId: string): (t: map<string, PostRow>)
    requires w.Insert? ==> newId !in table
    ensures w.Insert? ==> t.Keys == table.Keys + {newId} && t[newId] == RowOf(w.payload)
    ensures w.Update? ==> t.Keys == table.Keys && (w.id in table ==> t[w.id] == RowOf(w.payload))
    ensures forall id :: id in table && !(w.Update? && id == w.id) ==> t[id] == table[id]
  {
    match w
    case Insert(p) => table[newId := RowOf(p)]
    case Update(id, p) => if id in table then table[id := RowOf(p)] else table
  }

  /** A successful write keeps every row consistent. */
  lemma {:induction false} AfterWriteConsistent(table: map<string, PostRow>, form: PostForm, editingId: Option<string>,
                                                now: string, newId: string)
    requires AllConsistent(table)
    requires newId !in table
    ensures AllConsistent(AfterWrite(table, ChooseWrite(editingId, PayloadOf(form, now)), newId))
  {
    var w := ChooseWrite(editingId, PayloadOf(form, now));
    var t := AfterWrite(table, w, newId);
    SubmittedRowConsistent(form, now);
    forall id | id in t ensures Consistent(t[id]) {
      if !(id in table && !(w.Update? && id == w.id)) {
        assert t[id] == RowOf(PayloadOf(form, now));
      }
    }
  }

  class PostsScreen {
    var posts: map<string, PostRow>
    var dialogOpen: bool
    var editingId: Option<string>
    var formData: PostForm

    constructor (table: map<string, PostRow>)
      ensures posts == table && !dialogOpen && editingId.None? && formData == EmptyForm
    {
      posts := table;
      dialogOpen := false;
      editingId := None;
      formData := EmptyForm;
    }

    /** `handleEdit`: load a post into the form and open the dialog. */
    method HandleEdit(id: string, post: PostRow)
      modifies this
      ensures editingId == Some(id) && formData == FormOf(post) && dialogOpen
      ensures posts == old(posts)
    {
      editingId := Some(id);
      formData := FormOf(post);
      dialogOpen := true;
    }

    /** `resetForm`: the empty, unpublished form with nothing being edited. */
    method ResetForm()
      modifies this
      ensures editingId.None? && formData == EmptyForm
      ensures dialogOpen == old(dialogOpen) && posts == old(posts)
    {
      editingId := None;
      formData := EmptyForm;
    }

    /**
     * `handleSubmit`: the payload updates the edited post or is inserted
     * under the id the database assigns. On success the table holds the
     * written row, the dialog closes and the form resets; on failure
     * nothing changes. Every row stays consistent.
     */
    method HandleSubmit(now: string, newId: string, writeError: Option<string>)
      returns (write: Write<PostPayload>, reload: bool)
      requires newId !in posts
      modifies this
      ensures write == ChooseWrite(old(editingId), PayloadOf(old(formData), now))
      ensures reload == writeError.None?
      ensures reload ==> posts == AfterWrite(old(posts), write, newId)
      ensures reload ==> !dialogOpen && editingId.None? && formData == EmptyForm
      ensures !reload ==> posts == old(posts) && dialogOpen == old(dialogOpen)
                          && editingId == old(editingId) && formData == old(formData)
      ensures old(AllConsistent(posts)) ==> AllConsistent(posts)
    {
      write := ChooseWrite(editingId, PayloadOf(formData, now));
      reload := false;
      if writeError.None? {
        if AllConsistent(posts) {
          AfterWriteConsistent(posts, formData, editingId, now, newId);
        }
        posts := AfterWrite(posts, write, newId);
        dialogOpen := false;
        reload := true;
        ResetForm();
      }
    }

    /**
     * `togglePublish(post)`: flips the row with the shown post's id, from the
     * state shown; the table is otherwise unchanged, and unchanged on failure.
     */
    method TogglePublish(id: string, shown: PostRow, now: string, writeError: Option<string>)
      returns (reload: bool)
      modifies this
      ensures reload == writeError.None?
      ensures posts.Keys == old(posts).Keys
      ensures reload && id in old(posts) ==> posts[id] == Toggled(old(posts)[id], shown, now)
      ensures forall k :: k in old(posts) && (k != id || !reload) ==> posts[k] == old(posts)[k]
      ensures old(AllConsistent(posts)) ==> AllConsistent(posts)
      ensures dialogOpen == old(dialogOpen) && editingId == old(editingId) && formData == old(formData)
    {
      reload := writeError.None?;
      if reload && id in posts {
        posts := posts[id := Toggled(posts[id], shown, now)];
      }
    }

    /** `handleDelete`: a declined confirmation or a failed delete leaves the table as it was. */
    method HandleDelete(id: string, confirmed: bool, writeError: Option<string>)
      returns (reload: bool)
      modifies this
      ensures reload == (confirmed && writeError.None?)
      ensures posts == if reload then Removed(old(posts), id) else old(posts)
      ensures dialogOpen == old(dialogOpen) && editingId == old(editingId) && formData == old(formData)
    {
      reload := false;
      if confirmed && writeError.None? {
        posts := Removed(posts, id);
        reload := true;
      }
    }
  }
}
