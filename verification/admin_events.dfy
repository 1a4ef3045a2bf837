/**
 * The events admin screen: a form over the six editable fields of an event,
 * an optional image file, and the submit that uploads the image and then
 * inserts or updates the event. The random file name, the storage service
 * (its error and its public URL) and the database's error are parameters.
 */
module AdminEvents {
  import opened Wrappers
  import opened Text
  import opened Uploads
  import opened Crud

  const ImageFolder := "event-images"

  /** The form's fields; this is also the shape of the payload sent to the table. */
  datatype EventForm = EventForm(
    title: string, venue: string, eventDate: string,
    eventTime: string, imageUrl: string, eventLink: string)

  const EmptyForm := EventForm("", "", "", "", "", "")

  /** An `events` row as loaded. */
  datatype EventRow = EventRow(
    id: string, title: string, venue: string, eventDate: string,
    eventTime: Option<string>, imageUrl: Option<string>, eventLink: Option<string>)

  /** `handleEdit`'s copy of a row into the form: each null field becomes "". */
  function FormOf(row: EventRow): (f: EventForm)
    ensures f.title == row.title && f.venue == row.venue && f.eventDate == row.eventDate
    ensures f.eventTime == (if row.eventTime.Some? then row.eventTime.value else "")
    ensures f.imageUrl == (if row.imageUrl.Some? then row.imageUrl.value else "")
    ensures f.eventLink == (if row.eventLink.Some? then row.eventLink.value else "")
  {
    EventForm(row.title, row.venue, row.eventDate,
              OrEmpty(row.eventTime), OrEmpty(row.imageUrl), OrEmpty(row.eventLink))
  }

  /** `{ ...formData, image_url: imageUrl }`: the form, with the image URL replaced only by an uploaded one. */
  function Payload(form: EventForm, uploadedUrl: Option<string>): (p: EventForm)
    ensures p.(imageUrl := form.imageUrl) == form
    ensures uploadedUrl.None? ==> p == form
    ensures uploadedUrl.Some? ==> p.imageUrl == uploadedUrl.value
  {
    form.(imageUrl := uploadedUrl.GetOr(form.imageUrl))
  }

  /** Editing a row and saving it unchanged writes the row back, with its nulls as "". */
  lemma EditThenSave(row: EventRow)
    ensures ChooseWrite(Some(row.id), Payload(FormOf(row), None)) ==
      (if row.id != "" then Update(row.id, FormOf(row)) else Insert(FormOf(row)))
  {
  }

  class EventsScreen {
    var dialogOpen: bool
    var editingId: Option<string>
    var formData: EventForm
    var imageFile: Option<File>
    var uploading: bool

    constructor ()
      ensures !dialogOpen && editingId.None? && formData == EmptyForm && imageFile.None? && !uploading
    {
      dialogOpen := false;
      editingId := None;
      formData := EmptyForm;
      imageFile := None;
      uploading := false;
    }

    /** The image input's `onChange`. */
    method ChooseImage(file: Option<File>)
      modifies this
      ensures imageFile == file
      ensures dialogOpen == old(dialogOpen) && editingId == old(editingId) && formData == old(formData)
      ensures uploading == old(uploading)
    {
      imageFile := file;
    }

    /** `handleEdit`: load a row into the form and open the dialog. */
    method HandleEdit(row: EventRow)
      modifies this
      ensures editingId == Some(row.id) && formData == FormOf(row) && dialogOpen
      ensures imageFile == old(imageFile) && uploading == old(uploading)
    {
      editingId := Some(row.id);
      formData := FormOf(row);
      dialogOpen := true;
    }

    /** `resetForm`: nothing is being edited, the fields are empty and no image is chosen. */
    method ResetForm()
      modifies this
      ensures editingId.None? && formData == EmptyForm && imageFile.None?
      ensures dialogOpen == old(dialogOpen) && uploading == old(uploading)
    {
      editingId := None;
      formData := EmptyForm;
      imageFile := None;
    }

    /**
     * `handleSubmit`. A chosen image is uploaded first, to
     * `event-images/<randomName>.<ext>`; a failed upload stops the submit.
     * Then the payload is inserted, or the edited event updated. On success
     * the dialog closes, the list is reloaded and the form is reset; on any
     * failure the form, the edited id, the chosen image and the dialog stay
     * as they were. The screen is not busy afterwards either way.
     */
    method HandleSubmit(randomName: string, uploadError: Option<string>,
                        publicUrl: string -> string, writeError: Option<string>)
      returns (uploadPath: Option<string>, write: Option<Write<EventForm>>, reload: bool)
      modifies this
      ensures !uploading
      ensures uploadPath == if old(imageFile).Some? then Some(UploadPath(ImageFolder, randomName, old(imageFile).value)) else None
      ensures write == if uploadPath.Some? && uploadError.Some? then None
                       else Some(ChooseWrite(old(editingId), Payload(old(formData), if uploadPath.Some? then Some(publicUrl(uploadPath.value)) else None)))
      ensures reload == (write.Some? && writeError.None?)
      ensures reload ==> !dialogOpen && editingId.None? && formData == EmptyForm && imageFile.None?
      ensures !reload ==> dialogOpen == old(dialogOpen) && editingId == old(editingId)
                          && formData == old(formData) && imageFile == old(imageFile)
    {
      uploading := true;
      uploadPath, write, reload := None, None, false;
      var imageUrl := formData.imageUrl;
      if imageFile.Some? {
        uploadPath := Some(UploadPath(ImageFolder, randomName, imageFile.value));
        if uploadError.Some? {
          uploading := false;
          return;
        }
        imageUrl := publicUrl(uploadPath.value);
      }
      var payload := formData.(imageUrl := imageUrl);
      write := Some(ChooseWrite(editingId, payload));
      if writeError.None? {
        dialogOpen := false;
        reload := true;
        ResetForm();
      }
      uploading := false;
    }
  }
}
