/** `shop/views/feedback.py`: the detail view's `put` and `delete`, each behind
    `check_permissions(get_feedback)` with the entry's author as its owner.

    `put` is modelled twice: `PutAsWritten` follows the view and controller as they
    stand, and `Put` is the edit they evidently intend, which the rest of the model
    relies on. */
module FeedbackViews {
  import opened Wrappers
  import opened Text
  import opened Store
  import opened Models
  import opened Permissions
  import Tools
  import FeedbackDal
  import FeedbackController

  /** The validated body of a `put` (`FeedbackInputSerializer`). The two image lists are optional
      and are absent from the validated data when they were not submitted. */
  datatype FeedbackInput = FeedbackInput(
    product: nat, title: string, content: string,
    images: Option<seq<string>>, imagesToDelete: Option<seq<nat>>)

  /** A handled request: the store after it, and the entry the response shows or the error it reports. */
  datatype Response = Response(db: Db, outcome: Result<Feedback>)

  /** The owner field the permission check compares with the requester. */
  function Author(f: Feedback): nat {
    f.author
  }

  /** Is `pk` readable, and is `requester` its author or a staff member? */
  predicate MayChange(db: Db, pk: nat, requester: Requester) {
    FeedbackController.GetFeedback(db, pk).Ok? &&
    HasObjectPermission(FeedbackController.GetFeedback(db, pk).value, Author, requester)
  }

  /** Python's message for a keyword argument the callee does not declare. */
  function UnexpectedKeywordMessage(keyword: string): string {
    "update_feedback() got an unexpected keyword argument '" + keyword + "'"
  }

  /** The first keyword of the validated data that `update_feedback` does not accept, if any. */
  function UnexpectedKeyword(input: FeedbackInput): Option<string> {
    if input.images.Some? then Some("images")
    else if input.imagesToDelete.Some? then Some("images_to_delete")
    else None
  }

  /** The body of `put` after the permission check, as written: the whole validated data is passed
      as keywords to `update_feedback`, and the edited entry is read back through `get_feedback`. */
  function EditAsWritten(db: Db, pk: nat, input: FeedbackInput): Response {
    match UnexpectedKeyword(input)
    case Some(keyword) => Response(db, Err(TypeError(UnexpectedKeywordMessage(keyword))))
    case None =>
      match FeedbackController.UpdateFeedback(db, pk, input.product, input.title, input.content)
      case Err(e) => Response(db, Err(e))
      case Ok(d) => Response(d, FeedbackController.GetFeedback(d, pk))
  }

  /** `FeedbackDetail.put` as written. A submitted image list stops it with a `TypeError` before
      anything is written; otherwise the edit is stored, sends the entry back to moderation, and the
      read-back that follows is `Http404`. So no request ever gets the edited entry back. */
  function PutAsWritten(db: Db, pk: nat, requester: Requester, input: FeedbackInput): (r: Response)
    ensures FeedbackController.GetFeedback(db, pk).Err? ==> r == Response(db, Err(NotFound))
    ensures FeedbackController.GetFeedback(db, pk).Ok? && !MayChange(db, pk, requester) ==>
      r == Response(db, Err(PermissionDenied))
    ensures MayChange(db, pk, requester) && input.images.Some? ==>
      r == Response(db, Err(TypeError(UnexpectedKeywordMessage("images"))))
    ensures MayChange(db, pk, requester) && input.images.None? && input.imagesToDelete.Some? ==>
      r == Response(db, Err(TypeError(UnexpectedKeywordMessage("images_to_delete"))))
    ensures MayChange(db, pk, requester) && input.images.None? && input.imagesToDelete.None? ==>
      Ok(r.db) == FeedbackController.UpdateFeedback(db, pk, input.product, input.title, input.content) &&
      r.outcome == Err(NotFound)
    ensures r.outcome.Err?
  {
    match CheckPermissions(db, pk, requester, FeedbackController.GetFeedback, Author,
      (d: Db, p: nat) => Ok(EditAsWritten(d, p, input)))
    case Err(e) => Response(db, Err(e))
    case Ok(response) => response
  }

  /** An edit by the author that submits no image list is stored, yet answered with `Http404`. */
  lemma PutAsWrittenStoresThenAnswersNotFound(db: Db, pk: nat, requester: Requester, input: FeedbackInput)
    requires MayChange(db, pk, requester)
    requires input.images.None? && input.imagesToDelete.None?
    ensures Get(PutAsWritten(db, pk, requester, input).db.feedback, pk) ==
      Ok(Feedback(Get(db.feedback, pk).value.author, input.product, input.title, input.content, false))
    ensures PutAsWritten(db, pk, requester, input).outcome == Err(NotFound)
  {
  }

  /** The edit as written deletes every listed image, including one attached to another owner. */
  lemma EditImagesDeletesForeignImage(db: Db, pk: nat, key: nat)
    requires Has(db.feedback, pk)
    requires Get(db.images, key).Ok? && !BelongsTo(Get(db.images, key).value, FeedbackType, pk)
    ensures Get(FeedbackDal.EditImages(db, pk, None, Some([key])), key) == Err(NotFound)
  {
  }

  /** Is every key listed for deletion an image of the feedback `pk`? */
  predicate OwnImages(db: Db, pk: nat, keys: seq<nat>) {
    forall i :: 0 <= i < |keys| ==> Get(db.images, keys[i]).Ok? && BelongsTo(Get(db.images, keys[i]).value, FeedbackType, pk)
  }

  /** The rule is `are_all_elements_in_list` applied to the listed keys and the keys of the
      entry's images. */
  lemma OwnImagesIsContainment(db: Db, pk: nat, keys: seq<nat>)
    ensures OwnImages(db, pk, keys) <==>
      Tools.AreAllElementsInList(keys, FeedbackDal.ImageKeysOf(db.images.rows, FeedbackType, pk))
  {
  }

  /** The first listed key that is not one of the entry's images, if any. */
  function FirstForeign(db: Db, pk: nat, keys: seq<nat>): (r: Option<nat>)
    ensures r.None? <==> OwnImages(db, pk, keys)
    ensures r.Some? ==> r.value in keys
  {
    if |keys| == 0 then None
    else if !(Get(db.images, keys[0]).Ok? && BelongsTo(Get(db.images, keys[0]).value, FeedbackType, pk)) then Some(keys[0])
    else
      var r := FirstForeign(db, pk, keys[1..]);
      assert OwnImages(db, pk, keys) <==> OwnImages(db, pk, keys[1..]) by {
        if OwnImages(db, pk, keys[1..]) {
          forall i | 1 <= i < |keys| ensures Get(db.images, keys[i]).Ok? && BelongsTo(Get(db.images, keys[i]).value, FeedbackType, pk) {
            assert keys[i] == keys[1..][i - 1];
          }
        }
      }
      r
  }

  /** The rejection of a key that names no image of the entry, in the words of a primary-key field. */
  function ForeignImageError(key: nat): Error {
    ValidationError(Some("images_to_delete"), "Invalid pk \"" + NatToString(key) + "\" - object does not exist.")
  }

  /** The body of `put` after the permission check, as intended: the listed keys must be images of
      this entry, and the image lists reach the data-access edit. */
  function Edit(db: Db, pk: nat, input: FeedbackInput): Response {
    var foreign := FirstForeign(db, pk, FeedbackDal.Keys(input.imagesToDelete));
    if foreign.Some? then Response(db, Err(ForeignImageError(foreign.value)))
    else if !Has(db.feedback, pk) then Response(db, Err(NotFound))
    else
      var d := FeedbackDal.UpdateFeedback(db, pk, input.product, input.title, input.content, input.images, input.imagesToDelete);
      Response(d, Get(d.feedback, pk))
  }

  /** `FeedbackDetail.put` as intended. Only the author or a staff member may edit a readable entry;
      a key to delete that is not one of its images rejects the whole request; an accepted edit stores
      the new fields and image lists, sends the entry back to moderation and answers with it. A
      rejected request writes nothing, and images of other owners are never touched. */
  function Put(db: Db, pk: nat, requester: Requester, input: FeedbackInput): (r: Response)
    ensures FeedbackController.GetFeedback(db, pk).Err? ==> r == Response(db, Err(NotFound))
    ensures FeedbackController.GetFeedback(db, pk).Ok? && !MayChange(db, pk, requester) ==>
      r == Response(db, Err(PermissionDenied))
    ensures MayChange(db, pk, requester) && input.imagesToDelete.Some? && !OwnImages(db, pk, input.imagesToDelete.value) ==>
      r.db == db && exists key :: key in input.imagesToDelete.value && r.outcome == Err(ForeignImageError(key))
    ensures r.outcome.Ok? <==>
      MayChange(db, pk, requester) && (input.imagesToDelete.None? || OwnImages(db, pk, input.imagesToDelete.value))
    ensures r.outcome.Err? ==> r.db == db
    ensures r.outcome.Ok? ==> Has(db.feedback, pk)
    ensures r.outcome.Ok? ==>
      r.db == FeedbackDal.UpdateFeedback(db, pk, input.product, input.title, input.content, input.images, input.imagesToDelete)
    ensures r.outcome.Ok? ==>
      r.outcome.value == Feedback(Get(db.feedback, pk).value.author, input.product, input.title, input.content, false)
    ensures forall k :: (Get(db.images, k).Ok? && !BelongsTo(Get(db.images, k).value, FeedbackType, pk) ==>
      Get(r.db.images, k) == Get(db.images, k))
  {
    match CheckPermissions(db, pk, requester, FeedbackController.GetFeedback, Author,
      (d: Db, p: nat) => Ok(Edit(d, p, input)))
    case Err(e) => Response(db, Err(e))
    case Ok(response) => response
  }

  /** `FeedbackDetail.delete`: only the author or a staff member may delete a readable entry, and then
      exactly the controller's delete happens. */
  function Delete(db: Db, pk: nat, requester: Requester): (r: Result<Db>)
    ensures FeedbackController.GetFeedback(db, pk).Err? ==> r == Err(NotFound)
    ensures FeedbackController.GetFeedback(db, pk).Ok? && !MayChange(db, pk, requester) ==> r == Err(PermissionDenied)
    ensures MayChange(db, pk, requester) ==> r == FeedbackController.DeleteFeedback(db, pk)
    ensures r.Ok? <==> MayChange(db, pk, requester)
  {
    CheckPermissions(db, pk, requester, FeedbackController.GetFeedback, Author, FeedbackController.DeleteFeedback)
  }
}
