/**
 * The resource list of the "My Resources" page (frontend/src/pages/MyResourcesPage.jsx)
 * and its two handlers: an edited resource replaces every entry with its `_id`, and a
 * deleted resource's `_id` is filtered out. Fetching the list is a network call and is
 * not modelled.
 */
module MyResources {
  import opened ResourceModel
  import opened Seqs

  /** `resources.map(res => res._id === updated._id ? updated : res)`. */
  function ReplaceById(resources: seq<StoredResource>, updated: StoredResource): seq<StoredResource> {
    if resources == [] then []
    else [if resources[0].id == updated.id then updated else resources[0]] + ReplaceById(resources[1..], updated)
  }

  /** `resources.filter(res => res._id !== id)`. */
  function RemoveById(resources: seq<StoredResource>, id: ObjectId): seq<StoredResource> {
    Filter(resources, (r: StoredResource) => r.id != id)
  }

  /**
   * Update keeps the length and the order of the list: at each position, an entry with the
   * updated `_id` becomes the updated resource and any other entry is left as it was.
   */
  lemma {:induction false} ReplaceByIdPointwise(resources: seq<StoredResource>, updated: StoredResource)
    ensures |ReplaceById(resources, updated)| == |resources|
    ensures forall i :: 0 <= i < |resources| ==>
      ReplaceById(resources, updated)[i] == if resources[i].id == updated.id then updated else resources[i]
  {
    if resources != [] {
      ReplaceByIdPointwise(resources[1..], updated);
    }
  }

  /** Every position keeps its `_id`, so the order of the entries is unchanged. */
  lemma ReplaceByIdKeepsIds(resources: seq<StoredResource>, updated: StoredResource)
    ensures |ReplaceById(resources, updated)| == |resources|
    ensures forall i :: 0 <= i < |resources| ==> ReplaceById(resources, updated)[i].id == resources[i].id
  {
    ReplaceByIdPointwise(resources, updated);
  }

  /** Updating with an `_id` that is not in the list leaves the list unchanged. */
  lemma ReplaceByIdAbsent(resources: seq<StoredResource>, updated: StoredResource)
    requires forall i :: 0 <= i < |resources| ==> resources[i].id != updated.id
    ensures ReplaceById(resources, updated) == resources
  {
    ReplaceByIdPointwise(resources, updated);
  }

  /** Applying the same update twice is applying it once. */
  lemma ReplaceByIdIdempotent(resources: seq<StoredResource>, updated: StoredResource)
    ensures ReplaceById(ReplaceById(resources, updated), updated) == ReplaceById(resources, updated)
  {
    ReplaceByIdPointwise(resources, updated);
    ReplaceByIdPointwise(ReplaceById(resources, updated), updated);
  }

  /**
   * After delete no entry has the deleted `_id`; every other entry is kept, in its original
   * relative order and as often as before; deleting an absent `_id` changes nothing.
   */
  lemma RemoveByIdSpec(resources: seq<StoredResource>, id: ObjectId)
    ensures forall i :: 0 <= i < |RemoveById(resources, id)| ==> RemoveById(resources, id)[i].id != id
    ensures forall r :: r in RemoveById(resources, id) <==> r in resources && r.id != id
    ensures forall r: StoredResource :: r.id != id ==> multiset(RemoveById(resources, id))[r] == multiset(resources)[r]
    ensures IsSubsequence(RemoveById(resources, id), resources)
    ensures (forall i :: 0 <= i < |resources| ==> resources[i].id != id) ==> RemoveById(resources, id) == resources
  {
    var keep := (r: StoredResource) => r.id != id;
    var result := RemoveById(resources, id);
    forall i | 0 <= i < |result| ensures result[i].id != id {
      assert result[i] in result;
    }
    forall r: StoredResource | r.id != id ensures multiset(result)[r] == multiset(resources)[r] {
      FilterMultiset(resources, keep, r);
    }
    FilterIsSubsequence(resources, keep);
    if forall i :: 0 <= i < |resources| ==> resources[i].id != id {
      FilterAllKept(resources, keep);
    }
  }

  /** Deleting twice is deleting once. */
  lemma RemoveByIdIdempotent(resources: seq<StoredResource>, id: ObjectId)
    ensures RemoveById(RemoveById(resources, id), id) == RemoveById(resources, id)
  {
    FilterIdempotent(resources, (r: StoredResource) => r.id != id);
  }

  /** The page's `resources` state. */
  class MyResourcesPage {
    var resources: seq<StoredResource>

    /** `useState([])`. */
    constructor ()
      ensures resources == []
    {
      resources := [];
    }

    /** `handleResourceUpdate(updatedResource)`, called when an edit succeeds. */
    method HandleResourceUpdate(updated: StoredResource)
      modifies this
      ensures resources == ReplaceById(old(resources), updated)
      ensures |resources| == |old(resources)|
    {
      ReplaceByIdPointwise(resources, updated);
      resources := ReplaceById(resources, updated);
    }

    /** `handleResourceDelete(resourceId)`, called when a delete succeeds. */
    method HandleResourceDelete(id: ObjectId)
      modifies this
      ensures resources == RemoveById(old(resources), id)
      ensures forall r :: r in resources ==> r.id != id
    {
      resources := RemoveById(resources, id);
    }
  }
}
