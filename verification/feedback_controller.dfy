/** `shop/controllers/feedback.py`: the public side of feedback. Everything it reads goes
    through the moderated view, so an entry that is new or was just edited is not found
    until a moderator approves it. */
module FeedbackController {
  import opened Wrappers
  import opened Seqs
  import opened Store
  import opened Models
  import opened Managers
  import FeedbackDal

  /** `get_feedback_list`: exactly the moderated entries, in table order. */
  function GetFeedbackList(db: Db): (r: seq<Row<Feedback>>)
    ensures forall i :: 0 <= i < |r| ==> r[i].rec.isModerated && r[i] in db.feedback.rows
    ensures forall i :: 0 <= i < |db.feedback.rows| && db.feedback.rows[i].rec.isModerated ==> db.feedback.rows[i] in r
    ensures IsSubsequence(r, db.feedback.rows)
  {
    ModeratedFeedback(db.feedback.rows)
  }

  /** `get_feedback`: an entry is found exactly when the list shows it; a missing or
      unmoderated entry is `Http404`. */
  function GetFeedback(db: Db, pk: nat): (r: Result<Feedback>)
    ensures r.Ok? ==> Row(pk, r.value) in GetFeedbackList(db)
    ensures r.Err? ==> r == Err(NotFound) && forall f :: Row(pk, f) !in GetFeedbackList(db)
    ensures r.Ok? <==> Has(db.feedback, pk) && Get(db.feedback, pk).value.isModerated
    ensures r.Ok? ==> Get(db.feedback, pk) == r
  {
    var r := FeedbackDal.GetFeedbackByPk(db, pk);
    assert r.Ok? ==> Get(db.feedback, pk) == r by {
      if r.Ok? {
        GetRow(db.feedback, pk, r.value);
      }
    }
    assert r.Ok? ==> Row(pk, r.value) in GetFeedbackList(db) by {
      if r.Ok? {
        FeedbackDal.GetFeedbackByPkMatchesModeratedView(db, pk, r.value);
      }
    }
    assert r.Err? ==> forall f :: Row(pk, f) !in GetFeedbackList(db) by {
      if r.Err? {
        forall f ensures Row(pk, f) !in GetFeedbackList(db) {
          FeedbackDal.GetFeedbackByPkMatchesModeratedView(db, pk, f);
        }
      }
    }
    r
  }

  /** `create_feedback`: stores the entry under the next key with the given author, product,
      title and content, unmoderated and so not yet readable; no image is attached. */
  function CreateFeedback(db: Db, author: nat, product: nat, title: string, content: string): (db': Db)
    ensures db' == db.(feedback := db'.feedback)
    ensures Get(db'.feedback, db.feedback.nextId) == Ok(Feedback(author, product, title, content, false))
    ensures forall k :: k != db.feedback.nextId ==> Get(db'.feedback, k) == Get(db.feedback, k)
    ensures GetFeedback(db', db.feedback.nextId) == Err(NotFound)
  {
    FeedbackDal.InsertFeedback(db, author, product, title, content, None)
  }

  /** `update_feedback`: only a readable entry can be edited; the edit keeps its author, sends it
      back to moderation (so it is no longer readable) and attaches or removes no image. */
  function UpdateFeedback(db: Db, pk: nat, product: nat, title: string, content: string): (r: Result<Db>)
    ensures r.Ok? <==> GetFeedback(db, pk).Ok?
    ensures r.Err? ==> r.error == NotFound
    ensures r.Ok? ==> r.value == db.(feedback := r.value.feedback)
    ensures r.Ok? ==>
      Get(r.value.feedback, pk) == Ok(Feedback(GetFeedback(db, pk).value.author, product, title, content, false))
    ensures r.Ok? ==> forall k :: k != pk ==> Get(r.value.feedback, k) == Get(db.feedback, k)
    ensures r.Ok? ==> GetFeedback(r.value, pk) == Err(NotFound)
  {
    var f :- GetFeedback(db, pk);
    GetRow(db.feedback, pk, f);
    Ok(FeedbackDal.UpdateFeedback(db, pk, product, title, content, None, None))
  }

  /** `delete_feedback`: only a readable entry can be deleted; it goes together with its images. */
  function DeleteFeedback(db: Db, pk: nat): (r: Result<Db>)
    ensures r.Ok? <==> GetFeedback(db, pk).Ok?
    ensures r.Err? ==> r.error == NotFound
    ensures r.Ok? ==> !Has(r.value.feedback, pk)
    ensures r.Ok? ==> forall k :: k != pk ==> Get(r.value.feedback, k) == Get(db.feedback, k)
    ensures r.Ok? ==> r.value.(images := db.images, feedback := db.feedback) == db
    ensures r.Ok? ==> forall k :: (Get(r.value.images, k) ==
      if Get(db.images, k).Ok? && BelongsTo(Get(db.images, k).value, FeedbackType, pk) then Err(NotFound)
      else Get(db.images, k))
  {
    var _ :- GetFeedback(db, pk);
    Ok(FeedbackDal.DeleteFeedback(db, pk))
  }
}
