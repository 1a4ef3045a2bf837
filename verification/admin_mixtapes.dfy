/**
 * The mixtapes admin screen: a form over a mixtape's fields, an optional
 * cover and audio file, and the submit that uploads the files and then
 * inserts or updates the mixtape. The tracklist is JSON, whose parser and
 * printer are parameters (`parse` returns None where `JSON.parse` throws);
 * `J` is the type of parsed JSON values.
 */
module AdminMixtapes {
  import opened Wrappers
  import opened Text
  import opened Uploads
  import opened Crud

  const CoverFolder := "mixtape-covers"
  const AudioFolder := "mixtape-audio"

  /** The form's fields, all text except the `featured` checkbox. */
  datatype MixtapeForm = MixtapeForm(
    title: string, slug: string, genre: string, vibe: string, duration: string,
    audioUrl: string, coverUrl: string, tracklist: string, featured: bool)

  const EmptyForm := MixtapeForm("", "", "", "", "", "", "", "", false)

  /** The payload's `duration`: null, an integer, or NaN when the text holds no digits. */
  datatype Duration = NoDuration | Seconds(value: int) | NotANumber

  /** What is sent to the `mixtapes` table. */
  datatype Payload<J> = Payload(
    title: string, slug: string, genre: string, vibe: string,
    audioUrl: string, coverUrl: string, featured: bool,
    duration: Duration, tracklist: Option<J>)

  /** A `mixtapes` row as loaded (the fields the form shows). */
  datatype MixtapeRow<J> = MixtapeRow(
    id: string, title: string, slug: string,
    genre: Option<string>, vibe: Option<string>,
    audioUrl: Option<string>, coverUrl: Option<string>,
    duration: Option<int>, featured: Option<bool>, tracklist: Option<J>)

  /** `formData.duration ? parseInt(formData.duration) : null`. */
  function DurationOf(text: string): (d: Duration)
    ensures d == NoDuration <==> text == ""
    ensures d.Seconds? ==> ParseInt(text) == Some(d.value)
    ensures d == NotANumber <==> text != "" && ParseInt(text).None?
  {
    if text == "" then NoDuration
    else match ParseInt(text)
      case None => NotANumber
      case Some(n) => Seconds(n)
  }

  /**
   * The payload built from the form and the (possibly new) file URLs; None
   * where `JSON.parse` of a non-empty tracklist throws.
   */
  function BuildPayload<J>(form: MixtapeForm, coverUrl: string, audioUrl: string,
                           parse: string -> Option<J>): (r: Option<Payload<J>>)
    ensures r.None? <==> form.tracklist != "" && parse(form.tracklist).None?
    ensures r.Some? ==>
      r.value.title == form.title && r.value.slug == form.slug &&
      r.value.genre == form.genre && r.value.vibe == form.vibe &&
      r.value.featured == form.featured &&
      r.value.coverUrl == coverUrl && r.value.audioUrl == audioUrl &&
      r.value.duration == DurationOf(form.duration)
    ensures r.Some? ==> r.value.tracklist == (if form.tracklist == "" then None else parse(form.tracklist))
  {
    var tracklist := if form.tracklist == "" then None else parse(form.tracklist);
    if form.tracklist != "" && tracklist.None? then None
    else Some(Payload(form.title, form.slug, form.genre, form.vibe, audioUrl, coverUrl,
                      form.featured, DurationOf(form.duration), tracklist))
  }

  /** `handleEdit`'s copy of a row into the form: null text becomes "", a null `featured` becomes false. */
  function FormOf<J>(row: MixtapeRow<J>, stringify: J -> string): (f: MixtapeForm)
    ensures f.title == row.title && f.slug == row.slug
    ensures f.genre == OrEmpty(row.genre) && f.vibe == OrEmpty(row.vibe)
    ensures f.audioUrl == OrEmpty(row.audioUrl) && f.coverUrl == OrEmpty(row.coverUrl)
    ensures f.duration == if row.duration.Some? then IntToString(row.duration.value) else ""
    ensures f.featured == (row.featured == Some(true))
    ensures f.tracklist == if row.tracklist.Some? then stringify(row.tracklist.value) else ""
  {
    MixtapeForm(row.title, row.slug, OrEmpty(row.genre), OrEmpty(row.vibe),
                if row.duration.Some? then IntToString(row.duration.value) else "",
                OrEmpty(row.audioUrl), OrEmpty(row.coverUrl),
                if row.tracklist.Some? then stringify(row.tracklist.value) else "",
                row.featured == Some(true))
  }

  /**
   * Editing a row and saving it without changes sends back its duration and
   * tracklist unchanged (for a tracklist the JSON printer and parser
   * round-trip), while null text fields come back as "".
   */
  lemma {:induction false} EditThenSubmit<J>(row: MixtapeRow<J>, stringify: J -> string, parse: string -> Option<J>)
    requires row.tracklist.Some? ==>
      stringify(row.tracklist.value) != "" && parse(stringify(row.tracklist.value)) == row.tracklist
    ensures var p := BuildPayload(FormOf(row, stringify), OrEmpty(row.coverUrl), OrEmpty(row.audioUrl), parse);
      p.Some? &&
      p.value.duration == (if row.duration.Some? then Seconds(row.duration.value) else NoDuration) &&
      p.value.tracklist == row.tracklist &&
      p.value.featured == (row.featured == Some(true)) &&
      p.value.genre == OrEmpty(row.genre) && p.value.vibe == OrEmpty(row.vibe)
  {
    if row.duration.Some? {
      var d := row.duration.value;
      ParseIntOfIntToString(d);
      assert IntToString(d) != "" by {
        if d < 0 { assert |IntToString(d)| == 1 + |NatToString(-d)|; }
      }
    }
  }

  /** The URL a submit stores for one file slot: the uploaded file's public URL, or the form's text. */
  function SlotUrl(file: Option<File>, folder: string, baseName: string, current: string,
                   publicUrl: string -> string): (url: string)
    ensures file.None? ==> url == current
    ensures file.Some? ==> url == publicUrl(UploadPath(folder, baseName, file.value))
  {
    if file.Some? then publicUrl(UploadPath(folder, baseName, file.value)) else current
  }

  /** The object path a file slot is uploaded to, when a file was chosen for it. */
  function SlotPaths(file: Option<File>, folder: string, baseName: string): (paths: seq<string>)
    ensures |paths| <= 1 && (|paths| == 1 <==> file.Some?)
    ensures file.Some? ==> paths == [UploadPath(folder, baseName, file.value)]
  {
    if file.Some? then [UploadPath(folder, baseName, file.value)] else []
  }

  /**
   * One `if (file) url = await uploadFile(file, folder)` step: the upload is
   * attempted exactly when a file was chosen and fails when storage reports
   * an error; a skipped slot keeps the form's URL.
   */
  method UploadSlot(file: Option<File>, folder: string, baseName: string, error: Option<string>,
                    current: string, publicUrl: string -> string)
    returns (paths: seq<string>, stored: seq<string>, url: string, failed: bool)
    ensures paths == SlotPaths(file, folder, baseName)
    ensures failed <==> file.Some? && error.Some?
    ensures stored == if failed then [] else paths
    ensures !failed ==> url == SlotUrl(file, folder, baseName, current, publicUrl)
  {
    paths, stored, url, failed := [], [], current, false;
    if file.Some? {
      var path := UploadPath(folder, baseName, file.value);
      paths := [path];
      if error.Some? {
        failed := true;
      } else {
        stored := [path];
        url := publicUrl(path);
      }
    }
  }

  class MixtapesScreen<J> {
    var dialogOpen: bool
    var editingId: Option<string>
    var formData: MixtapeForm
    var coverFile: Option<File>
    var audioFile: Option<File>
    var uploading: bool

    constructor ()
      ensures !dialogOpen && editingId.None? && formData == EmptyForm
      ensures coverFile.None? && audioFile.None? && !uploading
    {
      dialogOpen := false;
      editingId := None;
      formData := EmptyForm;
      coverFile := None;
      audioFile := None;
      uploading := false;
    }

    /** The two file inputs' `onChange`. */
    method ChooseFiles(cover: Option<File>, audio: Option<File>)
      modifies this
      ensures coverFile == cover && audioFile == audio
      ensures dialogOpen == old(dialogOpen) && editingId == old(editingId)
      ensures formData == old(formData) && uploading == old(uploading)
    {
      coverFile, audioFile := cover, audio;
    }

    /** `handleEdit`: load a row into the form and open the dialog. */
    method HandleEdit(row: MixtapeRow<J>, stringify: J -> string)
      modifies this
      ensures editingId == Some(row.id) && formData == FormOf(row, stringify) && dialogOpen
      ensures coverFile == old(coverFile) && audioFile == old(audioFile) && uploading == old(uploading)
    {
      editingId := Some(row.id);
      formData := FormOf(row, stringify);
      dialogOpen := true;
    }

    /** `resetForm`: nothing is being edited, every text field is empty, not featured, no files. */
    method ResetForm()
      modifies this
      ensures editingId.None? && formData == EmptyForm && coverFile.None? && audioFile.None?
      ensures dialogOpen == old(dialogOpen) && uploading == old(uploading)
    {
      editingId := None;
      formData := EmptyForm;
      coverFile := None;
      audioFile := None;
    }

    /**
     * The upload phase of `handleSubmit`: the cover, then the audio file, each
     * when chosen. A failed upload stops the phase; otherwise each slot's URL
     * is the uploaded file's public URL, or the form's text when no file was
     * chosen.
     */
    method UploadChosenFiles(coverName: string, coverError: Option<string>,
                             audioName: string, audioError: Option<string>,
                             publicUrl: string -> string)
      returns (uploads: seq<string>, stored: seq<string>, coverUrl: string, audioUrl: string, failed: bool)
      ensures failed == ((coverFile.Some? && coverError.Some?) || (audioFile.Some? && audioError.Some?))
      ensures uploads == SlotPaths(coverFile, CoverFolder, coverName) +
                         (if coverFile.Some? && coverError.Some? then [] else SlotPaths(audioFile, AudioFolder, audioName))
      ensures stored == (if coverFile.Some? && coverError.Some? then [] else SlotPaths(coverFile, CoverFolder, coverName)) +
                        (if failed then [] else SlotPaths(audioFile, AudioFolder, audioName))
      ensures failed ==> |uploads| >= 1 && stored == uploads[..|uploads| - 1]
      ensures !failed ==> stored == uploads
      ensures !failed ==> coverUrl == SlotUrl(coverFile, CoverFolder, coverName, formData.coverUrl, publicUrl)
      ensures !failed ==> audioUrl == SlotUrl(audioFile, AudioFolder, audioName, formData.audioUrl, publicUrl)
    {
      var coverFailed, audioFailed;
      var coverPaths, coverStored, audioPaths, audioStored: seq<string>;
      coverPaths, coverStored, coverUrl, coverFailed :=
        UploadSlot(coverFile, CoverFolder, coverName, coverError, formData.coverUrl, publicUrl);
      if coverFailed {
        uploads, stored, audioUrl, failed := coverPaths, coverStored, formData.audioUrl, true;
        return;
      }
      audioPaths, audioStored, audioUrl, audioFailed :=
        UploadSlot(audioFile, AudioFolder, audioName, audioError, formData.audioUrl, publicUrl);
      uploads, stored, failed := coverPaths + audioPaths, coverStored + audioStored, audioFailed;
    }

    /**
     * `handleSubmit`. After the upload phase, the payload takes the uploaded
     * URLs; then the mixtape is inserted, or the edited one updated. On
     * success the dialog closes, the list is reloaded and the form reset; on
     * any failure (an upload, the tracklist's JSON, the write) the form, the
     * edited id, the files and the dialog are untouched. The screen is not
     * busy afterwards either way.
     */
    method HandleSubmit(coverName: string, coverError: Option<string>,
                        audioName: string, audioError: Option<string>,
                        publicUrl: string -> string, parse: string -> Option<J>,
                        writeError: Option<string>)
      returns (uploads: seq<string>, stored: seq<string>, write: Option<Write<Payload<J>>>, reload: bool)
      modifies this
      ensures !uploading
      ensures uploads == SlotPaths(old(coverFile), CoverFolder, coverName) +
                         (if old(coverFile).Some? && coverError.Some? then []
                          else SlotPaths(old(audioFile), AudioFolder, audioName))
      ensures stored == (if old(coverFile).Some? && coverError.Some? then []
                         else SlotPaths(old(coverFile), CoverFolder, coverName)) +
                        (if (old(coverFile).Some? && coverError.Some?) || (old(audioFile).Some? && audioError.Some?) then []
                         else SlotPaths(old(audioFile), AudioFolder, audioName))
      ensures var failed := (old(coverFile).Some? && coverError.Some?) || (old(audioFile).Some? && audioError.Some?);
        var payload := BuildPayload(old(formData),
                                    SlotUrl(old(coverFile), CoverFolder, coverName, old(formData).coverUrl, publicUrl),
                                    SlotUrl(old(audioFile), AudioFolder, audioName, old(formData).audioUrl, publicUrl),
                                    parse);
        write == if failed || payload.None? then None else Some(ChooseWrite(old(editingId), payload.value))
      ensures write.Some? ==> stored == uploads
      ensures reload == (write.Some? && writeError.None?)
      ensures reload ==> !dialogOpen && editingId.None? && formData == EmptyForm && coverFile.None? && audioFile.None?
      ensures !reload ==> dialogOpen == old(dialogOpen) && editingId == old(editingId) && formData == old(formData)
                          && coverFile == old(coverFile) && audioFile == old(audioFile)
    {
      uploading := true;
      write, reload := None, false;
      var coverUrl, audioUrl, failed;
      uploads, stored, coverUrl, audioUrl, failed := UploadChosenFiles(coverName, coverError, audioName, audioError, publicUrl);
      if !failed {
        var payload := BuildPayload(formData, coverUrl, audioUrl, parse);
        if payload.Some? {
          write := Some(ChooseWrite(editingId, payload.value));
          if writeError.None? {
            dialogOpen := false;
            reload := true;
            ResetForm();
          }
        }
      }
      uploading := false;
    }
  }
}
