/** `shop/dal/feedback.py`: storing feedback, the moderated lookup, the edit that
    sends feedback back to moderation, and the images attached to an entry. */
module FeedbackDal {
  import opened Wrappers
  import opened Store
  import opened Models
  import opened Managers
  import opened Images

  /** The record `feedback.images.create(image=file)` saves for an uploaded file. */
  function FeedbackImage(feedbackPk: nat, file: string): Image {
    Image(ImageDirectoryPath(FeedbackType, feedbackPk, file), file, FeedbackType, feedbackPk)
  }

  /** `create_images`: one image per uploaded file, attached to the feedback `feedbackPk`,
      under consecutive fresh keys in upload order. `Image.save` refuses them all when
      the feedback entry does not exist. */
  function CreateImages(db: Db, feedbackPk: nat, files: seq<string>): (r: Result<Db>)
    ensures r.Ok? <==> |files| == 0 || Has(db.feedback, feedbackPk)
    ensures r.Err? ==> r.error == ValueError(MissingOwnerMessage)
    ensures r.Ok? ==> SameExceptImages(db, r.value)
    ensures r.Ok? ==> r.value.images.nextId == db.images.nextId + |files|
    ensures r.Ok? ==> forall k: nat :: (Get(r.value.images, k) ==
      if db.images.nextId <= k < db.images.nextId + |files| then Ok(FeedbackImage(feedbackPk, files[k - db.images.nextId]))
      else Get(db.images, k))
    decreases |files|
  {
    if |files| == 0 then Ok(db)
    else
      var img :- SaveImage(db, files[0], FeedbackType, feedbackPk);
      var db' := db.(images := Insert(db.images, img));
      var r := CreateImages(db', feedbackPk, files[1..]);
      assert forall i :: 0 <= i < |files[1..]| ==> files[1..][i] == files[i + 1];
      r
  }

  /** The keys of the images in `rows` attached to (`ct`, `objectId`). */
  function ImageKeysOf(rows: seq<Row<Image>>, ct: ContentType, objectId: nat): (ids: seq<nat>)
    requires Increasing(rows)
    ensures forall k :: k in ids <==> Find(rows, k).Some? && BelongsTo(Find(rows, k).value, ct, objectId)
  {
    if |rows| == 0 then []
    else
      var rest := ImageKeysOf(rows[1..], ct, objectId);
      assert Find(rows[1..], rows[0].id).None?;
      if BelongsTo(rows[0].rec, ct, objectId) then [rows[0].id] + rest else rest
  }

  /** `delete_images`: every image of the feedback `feedbackPk` is removed, and nothing else. */
  function DeleteImages(db: Db, feedbackPk: nat): (db': Db)
    ensures SameExceptImages(db, db')
    ensures forall k :: (Get(db'.images, k) ==
      if Get(db.images, k).Ok? && BelongsTo(Get(db.images, k).value, FeedbackType, feedbackPk) then Err(NotFound)
      else Get(db.images, k))
  {
    db.(images := DeleteAll(db.images, ImageKeysOf(db.images.rows, FeedbackType, feedbackPk)))
  }

  /** Afterwards the feedback has no images; when it had none the database is left exactly as it was. */
  lemma DeleteImagesLeavesNone(db: Db, feedbackPk: nat)
    ensures forall k :: Get(DeleteImages(db, feedbackPk).images, k).Ok? ==>
      !BelongsTo(Get(DeleteImages(db, feedbackPk).images, k).value, FeedbackType, feedbackPk)
    ensures (forall k :: Get(db.images, k).Ok? ==> !BelongsTo(Get(db.images, k).value, FeedbackType, feedbackPk)) ==>
      DeleteImages(db, feedbackPk) == db
  {
    var ids := ImageKeysOf(db.images.rows, FeedbackType, feedbackPk);
    if forall k :: Get(db.images, k).Ok? ==> !BelongsTo(Get(db.images, k).value, FeedbackType, feedbackPk) {
      assert forall k :: Find(db.images.rows, k).Some? ==> Get(db.images, k) == Ok(Find(db.images.rows, k).value);
      assert forall i :: 0 <= i < |ids| ==> !Has(db.images, ids[i]);
      DeleteAllMissing(db.images, ids);
    }
  }

  /** The uploads an optional list stands for: `None` means no uploads. */
  function Uploads(files: Option<seq<string>>): seq<string> {
    if files.Some? then files.value else []
  }

  /** The keys an optional deletion list stands for: `None` means none. */
  function Keys(ids: Option<seq<nat>>): seq<nat> {
    if ids.Some? then ids.value else []
  }

  /** `insert_feedback`: stores an unmoderated entry under the next key and attaches one image
      per uploaded file when a file list is given. */
  function InsertFeedback(db: Db, author: nat, product: nat, title: string, content: string, images: Option<seq<string>>): (db': Db)
    ensures forall k :: (Get(db'.feedback, k) ==
      if k == db.feedback.nextId then Ok(Feedback(author, product, title, content, false)) else Get(db.feedback, k))
    ensures images.None? ==> db' == db.(feedback := db'.feedback)
    ensures db'.(images := db.images, feedback := db.feedback) == db
    ensures db'.images.nextId == db.images.nextId + |Uploads(images)|
    ensures forall k: nat :: (Get(db'.images, k) ==
      if db.images.nextId <= k < db'.images.nextId then Ok(FeedbackImage(db.feedback.nextId, Uploads(images)[k - db.images.nextId]))
      else Get(db.images, k))
  {
    var pk := db.feedback.nextId;
    var db1 := db.(feedback := Insert(db.feedback, NewFeedback(author, product, title, content)));
    assert Has(db1.feedback, pk) by {
      assert Get(db1.feedback, pk).Ok?;
    }
    CreateImages(db1, pk, Uploads(images)).value
  }

  /** `get_feedback_by_pk`: a lookup through the moderated view, so unmoderated entries are missing. */
  function GetFeedbackByPk(db: Db, pk: nat): (r: Result<Feedback>)
    ensures r.Ok? <==> Has(db.feedback, pk) && Get(db.feedback, pk).value.isModerated
    ensures r.Ok? ==> Row(pk, r.value) in db.feedback.rows && r.value.isModerated
    ensures r.Err? ==> r.error == NotFound
  {
    var f :- Get(db.feedback, pk);
    if f.isModerated then Ok(f) else Err(NotFound)
  }

  /** The lookup by key sees exactly the rows the moderated manager lists. */
  lemma GetFeedbackByPkMatchesModeratedView(db: Db, pk: nat, f: Feedback)
    ensures GetFeedbackByPk(db, pk) == Ok(f) <==> Row(pk, f) in ModeratedFeedback(db.feedback.rows)
  {
    var view := ModeratedFeedback(db.feedback.rows);
    if Row(pk, f) in view {
      var i :| 0 <= i < |view| && view[i] == Row(pk, f);
      assert view[i].rec.isModerated;
      GetRow(db.feedback, pk, f);
    }
    if GetFeedbackByPk(db, pk) == Ok(f) {
      var i :| 0 <= i < |db.feedback.rows| && db.feedback.rows[i] == Row(pk, f);
      assert db.feedback.rows[i].rec.isModerated;
    }
  }

  /** The image table once one image per upload is attached to the stored feedback `pk`. */
  function UploadedImages(db: Db, pk: nat, files: seq<string>): (t: Table<Image>)
    requires Has(db.feedback, pk)
    ensures t.nextId == db.images.nextId + |files|
    ensures forall k: nat :: (Get(t, k) ==
      if db.images.nextId <= k < t.nextId then Ok(FeedbackImage(pk, files[k - db.images.nextId]))
      else Get(db.images, k))
  {
    var added := CreateImages(db, pk, files);
    assert added.Ok?;
    added.value.images
  }

  /** The image table after an edit of the feedback `pk`: the uploads attached first, then the
      listed keys deleted, whoever they belong to. */
  function EditImages(db: Db, pk: nat, images: Option<seq<string>>, imagesToDelete: Option<seq<nat>>): (t: Table<Image>)
    requires Has(db.feedback, pk)
    ensures t.nextId == db.images.nextId + |Uploads(images)|
    ensures forall k :: (Get(t, k) ==
      if k in Keys(imagesToDelete) then Err(NotFound) else Get(UploadedImages(db, pk, Uploads(images)), k))
  {
    DeleteAll(UploadedImages(db, pk, Uploads(images)), Keys(imagesToDelete))
  }

  /** `update_feedback` on a stored entry: product, title and content are overwritten, the author is
      kept and the entry goes back to moderation; then one image per upload is attached, then every
      listed image is deleted, whoever it belongs to. */
  function UpdateFeedback(
    db: Db, pk: nat, product: nat, title: string, content: string,
    images: Option<seq<string>>, imagesToDelete: Option<seq<nat>>): (db': Db)
    requires Has(db.feedback, pk)
    ensures forall k :: (Get(db'.feedback, k) ==
      if k == pk then Ok(Feedback(Get(db.feedback, pk).value.author, product, title, content, false))
      else Get(db.feedback, k))
    ensures db'.(images := db.images, feedback := db.feedback) == db
    ensures db'.images == EditImages(db, pk, images, imagesToDelete)
  {
    var stored := Get(db.feedback, pk).value;
    db.(images := EditImages(db, pk, images, imagesToDelete),
        feedback := Update(db.feedback, pk, Feedback(stored.author, product, title, content, false)))
  }

  /** `delete_feedback`: the entry goes, and with it the images attached to it through the
      generic relation. */
  function DeleteFeedback(db: Db, pk: nat): (db': Db)
    ensures forall k :: Get(db'.feedback, k) == if k == pk then Err(NotFound) else Get(db.feedback, k)
    ensures db'.(images := db.images, feedback := db.feedback) == db
    ensures forall k :: (Get(db'.images, k) ==
      if Get(db.images, k).Ok? && BelongsTo(Get(db.images, k).value, FeedbackType, pk) then Err(NotFound)
      else Get(db.images, k))
  {
    var db1 := DeleteImages(db, pk);
    db1.(feedback := Delete(db.feedback, pk))
  }
}
