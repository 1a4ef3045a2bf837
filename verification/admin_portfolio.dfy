/**
 * The portfolio admin screen: a form over a portfolio item's six fields and
 * the submit that sends the form, as it stands, to the `portfolio` table.
 * The database's answer is a parameter.
 */
module AdminPortfolio {
  import opened Wrappers
  import opened Text
  import opened Crud

  /** The kinds the type selector offers. */
  const TypeChoices: seq<string> := ["photo", "video", "flyer"]

  const DefaultType := "photo"

  /** The form's fields; the form is also the payload sent to the table. */
  datatype PortfolioForm = PortfolioForm(
    title: string, kind: string, mediaUrl: string,
    thumbnailUrl: string, eventName: string, eventDate: string)

  /** The initial form, and the one `resetForm` restores. */
  const EmptyForm := PortfolioForm("", DefaultType, "", "", "", "")

  /** A `portfolio` row as loaded. */
  datatype PortfolioRow = PortfolioRow(
    id: string, title: string, kind: string, mediaUrl: string,
    thumbnailUrl: Option<string>, eventName: Option<string>, eventDate: Option<string>)

  /** `handleEdit`'s copy of a row: an empty type becomes "photo", null text becomes "". */
  function FormOf(row: PortfolioRow): (f: PortfolioForm)
    ensures f.title == row.title && f.mediaUrl == row.mediaUrl
    ensures f.kind == if row.kind == "" then DefaultType else row.kind
    ensures f.thumbnailUrl == OrEmpty(row.thumbnailUrl)
    ensures f.eventName == OrEmpty(row.eventName) && f.eventDate == OrEmpty(row.eventDate)
  {
    PortfolioForm(row.title, OrElse(Some(row.kind), DefaultType), row.mediaUrl,
                  OrEmpty(row.thumbnailUrl), OrEmpty(row.eventName), OrEmpty(row.eventDate))
  }

  /**
   * A loaded form never has an empty type: a row whose type is one of the
   * offered kinds, or empty, shows one of the offered kinds, and an offered
   * kind is kept.
   */
  lemma FormKindIsOffered(row: PortfolioRow)
    requires row.kind == "" || row.kind in TypeChoices
    ensures FormOf(row).kind in TypeChoices
    ensures row.kind in TypeChoices ==> FormOf(row).kind == row.kind
  {
  }

  /** Editing a row and saving it unchanged updates that row with its own fields, nulls as "". */
  lemma EditThenSave(row: PortfolioRow)
    requires row.id != ""
    ensures ChooseWrite(Some(row.id), FormOf(row)) == Update(row.id, FormOf(row))
    ensures row.thumbnailUrl.Some? && row.eventName.Some? && row.eventDate.Some? && row.kind != "" ==>
      FormOf(row) == PortfolioForm(row.title, row.kind, row.mediaUrl,
                                   row.thumbnailUrl.value, row.eventName.value, row.eventDate.value)
  {
  }

  class PortfolioScreen {
    var dialogOpen: bool
    var editingId: Option<string>
    var formData: PortfolioForm

    constructor ()
      ensures !dialogOpen && editingId.None? && formData == EmptyForm
    {
      dialogOpen := false;
      editingId := None;
      formData := EmptyForm;
    }

    /** `handleEdit`: load a row into the form and open the dialog. */
    method HandleEdit(row: PortfolioRow)
      modifies this
      ensures editingId == Some(row.id) && formData == FormOf(row) && dialogOpen
    {
      editingId := Some(row.id);
      formData := FormOf(row);
      dialogOpen := true;
    }

    /** `resetForm`: back to the initial state of the form, nothing being edited. */
    method ResetForm()
      modifies this
      ensures editingId.None? && formData == EmptyForm
      ensures dialogOpen == old(dialogOpen)
    {
      editingId := None;
      formData := EmptyForm;
    }

    /**
     * `handleSubmit`: the form, verbatim, updates the edited item or is
     * inserted. On success the dialog closes, the list is reloaded and the
     * form is reset; on failure nothing changes.
     */
    method HandleSubmit(writeError: Option<string>) returns (write: Write<PortfolioForm>, reload: bool)
      modifies this
      ensures write == ChooseWrite(old(editingId), old(formData))
      ensures reload == writeError.None?
      ensures reload ==> !dialogOpen && editingId.None? && formData == EmptyForm
      ensures !reload ==> dialogOpen == old(dialogOpen) && editingId == old(editingId) && formData == old(formData)
    {
      write := ChooseWrite(editingId, formData);
      reload := false;
      if writeError.None? {
        dialogOpen := false;
        reload := true;
        ResetForm();
      }
    }
  }
}
