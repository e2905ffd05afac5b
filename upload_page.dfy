/**
 * The upload form (frontend/src/pages/UploadPage.jsx): it refuses to submit without a file
 * or with a blank title, sends the fields exactly as typed, and on success clears them.
 * Whether the POST succeeds is a parameter.
 */
module Upload {
  import opened Wrappers
  import opened Text

  /** The browser `File` picked in the file input. */
  datatype FileRef = FileRef(name: string, size: nat)

  /** The multipart body `FormData`: title, description, tags and file, untrimmed. */
  datatype UploadRequest = UploadRequest(title: string, description: string, tags: string, file: FileRef)

  const MissingFieldsMessage: string := "Please provide a title and select a file."
  const UploadedMessage: string := "\U{2705} Upload successful!"
  const UploadFailedMessage: string := "Upload failed. Please try again."

  /** `!file || !title.trim()`: the submission is refused before any request is made. */
  predicate Refused(title: string, file: Option<FileRef>) {
    file.None? || IsBlank(title)
  }

  /** A submission is refused exactly when no file is chosen or the title trims to "". */
  lemma RefusedIffNoFileOrBlankTitle(title: string, file: Option<FileRef>)
    ensures Refused(title, file) <==> file.None? || Trim(title) == []
  {
    BlankIffTrimEmpty(title);
  }

  /** The page's state. */
  class UploadPage {
    var title: string
    var description: string
    var tags: string
    var file: Option<FileRef>
    var uploading: bool
    var message: string

    /** The initial `useState` values. */
    constructor ()
      ensures title == [] && description == [] && tags == [] && file == None
      ensures !uploading && message == []
    {
      title, description, tags, file := [], [], [], None;
      uploading, message := false, [];
    }

    /** The title input's `onChange`. */
    method SetTitle(value: string)
      modifies this
      ensures title == value
      ensures description == old(description) && tags == old(tags) && file == old(file)
      ensures uploading == old(uploading) && message == old(message)
    {
      title := value;
    }

    /** The description input's `onChange`. */
    method SetDescription(value: string)
      modifies this
      ensures description == value
      ensures title == old(title) && tags == old(tags) && file == old(file)
      ensures uploading == old(uploading) && message == old(message)
    {
      description := value;
    }

    /** The tags input's `onChange`. */
    method SetTags(value: string)
      modifies this
      ensures tags == value
      ensures title == old(title) && description == old(description) && file == old(file)
      ensures uploading == old(uploading) && message == old(message)
    {
      tags := value;
    }

    /** The file input's `onChange` (`e.target.files[0]`, absent when the selection is cleared). */
    method SetFile(value: Option<FileRef>)
      modifies this
      ensures file == value
      ensures title == old(title) && description == old(description) && tags == old(tags)
      ensures uploading == old(uploading) && message == old(message)
    {
      file := value;
    }

    /**
     * `handleSubmit(e)`. Returns the request sent, if any. A refused submission only sets
     * the message; a sent one ends with `uploading` false, and clears the fields on success
     * or keeps them on failure.
     */
    method HandleSubmit(uploadOk: bool) returns (request: Option<UploadRequest>)
      modifies this
      ensures Refused(old(title), old(file)) ==>
        && request == None && message == MissingFieldsMessage
        && title == old(title) && description == old(description) && tags == old(tags) && file == old(file)
        && uploading == old(uploading)
      ensures !Refused(old(title), old(file)) ==>
        && request == Some(UploadRequest(old(title), old(description), old(tags), old(file).value))
        && !uploading
        && (uploadOk ==> message == UploadedMessage && title == [] && description == [] && tags == [] && file == None)
        && (!uploadOk ==> && message == UploadFailedMessage
                          && title == old(title) && description == old(description)
                          && tags == old(tags) && file == old(file))
    {
      request := None;
      if file.None? || IsBlank(title) {
        message := MissingFieldsMessage;
        return;
      }
      request := Some(UploadRequest(title, description, tags, file.value));
      uploading := true;
      if uploadOk {
        message := UploadedMessage;
        title := [];
        description := [];
        tags := [];
        file := None;
      } else {
        message := UploadFailedMessage;
      }
      uploading := false;
    }
  }
}
