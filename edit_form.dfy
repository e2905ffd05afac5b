/**
 * The edit dialog for one resource (frontend/src/components/EditResourceForm.jsx): its
 * fields are loaded from the resource, edited one at a time, and submitted as a PUT
 * request unless the title is blank. The server's answer is a parameter; the timer that
 * closes the dialog afterwards is not modelled.
 */
module EditForm {
  import opened Wrappers
  import opened Text
  import opened ResourceModel

  /** `formData`: the three text fields of the form. */
  datatype EditFields = EditFields(title: string, description: string, tags: string)

  /** The `name` attribute of the input that fired `onChange`. */
  datatype Field = Title | Description | Tags

  /** The request `api.put("/resources/" + id, formData)`. */
  datatype UpdateRequest = UpdateRequest(id: ObjectId, body: EditFields)

  /** The server's answer to the PUT: the updated resource (`response.data.resource`), or a thrown error. */
  datatype UpdateOutcome = Updated(resource: StoredResource) | UpdateFailed

  const TitleRequiredMessage: string := "Title is required"
  const UpdatedMessage: string := "\U{2705} Resource updated successfully!"
  const UpdateFailedMessage: string := "\U{274C} Failed to update resource. Please try again."

  /** The fields loaded from a resource: title and description or "" when missing, the tags joined with ", ". */
  function InitialFields(r: StoredResource): EditFields {
    EditFields(r.data.title.GetOr([]), r.data.description.GetOr([]), Join(r.data.tags, ", "))
  }

  /** `{ ...formData, [name]: value }`. */
  function WithField(fields: EditFields, name: Field, value: string): EditFields {
    match name
    case Title => fields.(title := value)
    case Description => fields.(description := value)
    case Tags => fields.(tags := value)
  }

  /** Loading takes title and description from the resource ("" when missing), and the tags string is "" when there are no tags. */
  lemma InitialFieldsSpec(r: StoredResource)
    ensures InitialFields(r).title == (if r.data.title.Some? then r.data.title.value else "")
    ensures InitialFields(r).description == (if r.data.description.Some? then r.data.description.value else "")
    ensures r.data.tags == [] ==> InitialFields(r).tags == ""
    ensures |r.data.tags| == 1 ==> InitialFields(r).tags == r.data.tags[0]
  {
  }

  /** A change replaces the named field with the new value and leaves the other two as they were. */
  lemma WithFieldOnlyNamed(fields: EditFields, name: Field, value: string)
    ensures var f := WithField(fields, name, value);
      && f.title == (if name == Title then value else fields.title)
      && f.description == (if name == Description then value else fields.description)
      && f.tags == (if name == Tags then value else fields.tags)
  {
  }

  /** The component's state. `resource` is its prop; without one nothing is rendered, so nothing can be submitted. */
  class EditResourceForm {
    var resource: Option<StoredResource>
    var formData: EditFields
    var loading: bool
    var message: string

    /** The initial `useState` values, before the effect has run. */
    constructor (resource: Option<StoredResource>)
      ensures this.resource == resource
      ensures formData == EditFields([], [], []) && !loading && message == []
    {
      this.resource := resource;
      formData := EditFields([], [], []);
      loading := false;
      message := [];
    }

    /** The effect on `[resource]`: loads the fields from a resource, and does nothing without one. */
    method LoadResource(r: Option<StoredResource>)
      modifies this
      ensures resource == r
      ensures formData == if r.Some? then InitialFields(r.value) else old(formData)
      ensures loading == old(loading) && message == old(message)
    {
      resource := r;
      if r.Some? {
        formData := InitialFields(r.value);
      }
    }

    /** `handleChange(e)`. */
    method HandleChange(name: Field, value: string)
      modifies this
      ensures formData == WithField(old(formData), name, value)
      ensures resource == old(resource) && loading == old(loading) && message == old(message)
    {
      formData := WithField(formData, name, value);
    }

    /**
     * `handleSubmit(e)`. Returns the request sent (none when the title is blank) and the
     * resource handed to `onSuccess` (only after a successful update).
     */
    method HandleSubmit(outcome: UpdateOutcome) returns (request: Option<UpdateRequest>, delivered: Option<StoredResource>)
      requires resource.Some?
      modifies this
      ensures resource == old(resource) && formData == old(formData)
      ensures IsBlank(old(formData).title) ==>
        && request == None && delivered == None
        && message == TitleRequiredMessage && loading == old(loading)
      ensures !IsBlank(old(formData).title) ==>
        && request == Some(UpdateRequest(old(resource).value.id, old(formData)))
        && !loading
        && delivered == (if outcome.Updated? then Some(outcome.resource) else None)
        && message == (if outcome.Updated? then UpdatedMessage else UpdateFailedMessage)
    {
      request, delivered := None, None;
      if IsBlank(formData.title) {
        message := TitleRequiredMessage;
        return;
      }
      loading := true;
      message := [];
      request := Some(UpdateRequest(resource.value.id, formData));
      match outcome {
        case Updated(updated) =>
          message := UpdatedMessage;
          delivered := Some(updated);
        case UpdateFailed =>
          message := UpdateFailedMessage;
      }
      loading := false;
    }
  }
}
