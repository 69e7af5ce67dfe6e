/** `shop/controllers/image.py` over `shop/dal/image.py`: an image is validated as a
    saved candidate before anything is stored or changed, then saved through
    `Image.save`. A failed step returns an error and no database, so nothing is stored. */
module Images {
  import opened Wrappers
  import opened Text
  import opened Store
  import opened Models

  /** The text of the error `validate_image` raises for an owner that does not resolve. */
  function MissingOwnerValidationMessage(ct: ContentType, objectId: nat): string {
    Capitalize(VerboseName(ct)) + " object with primary key " + NatToString(objectId) + " doesn't exist"
  }

  /** `validate_image`: the candidate's owner must resolve. */
  function ValidateImage(db: Db, ct: ContentType, objectId: nat): (r: Result<()>)
    ensures r.Ok? <==> OwnerExists(db, ct, objectId)
    ensures r.Err? ==> r.error == ValidationError(None, MissingOwnerValidationMessage(ct, objectId))
  {
    if OwnerExists(db, ct, objectId) then Ok(())
    else Err(ValidationError(None, MissingOwnerValidationMessage(ct, objectId)))
  }

  /** The validation message names the owner's type and renders its id so that it reads back. */
  lemma MissingOwnerMessageNamesOwner(ct: ContentType, objectId: nat)
    ensures var m := MissingOwnerValidationMessage(ct, objectId);
      var head := Capitalize(VerboseName(ct)) + " object with primary key ";
      var tail := " doesn't exist";
      |m| == |head| + |NatToString(objectId)| + |tail| &&
      m[..|head|] == head && m[|m| - |tail|..] == tail &&
      AllDigits(m[|head|..|m| - |tail|]) && ParseNat(m[|head|..|m| - |tail|]) == objectId
  {
    var m := MissingOwnerValidationMessage(ct, objectId);
    var head := Capitalize(VerboseName(ct)) + " object with primary key ";
    var tail := " doesn't exist";
    var d := NatToString(objectId);
    assert m == head + d + tail;
    assert m[|head|..|m| - |tail|] == d;
    ParseNatToString(objectId);
  }

  /** Only the image table differs between two databases. */
  predicate SameExceptImages(db: Db, db': Db) {
    db'.(images := db.images) == db
  }

  /** `create_image`: validates the owner, saves through `Image.save` (which also rejects owners
      of other types) and stores the record under the next image key. */
  function CreateImage(db: Db, fileName: string, ct: ContentType, objectId: nat): (r: Result<Db>)
    ensures !OwnerExists(db, ct, objectId) ==>
      r == Err(ValidationError(None, MissingOwnerValidationMessage(ct, objectId)))
    ensures OwnerExists(db, ct, objectId) && !SupportsImages(ct) ==> r == Err(ValueError(UnsupportedOwnerMessage))
    ensures r.Ok? <==> OwnerExists(db, ct, objectId) && SupportsImages(ct)
    ensures r.Ok? ==> SameExceptImages(db, r.value)
    ensures r.Ok? ==> forall k :: (Get(r.value.images, k) ==
      if k == db.images.nextId then Ok(Image(ImageDirectoryPath(ct, objectId, fileName), fileName, ct, objectId))
      else Get(db.images, k))
  {
    var _ :- ValidateImage(db, ct, objectId);
    var img :- SaveImage(db, fileName, ct, objectId);
    Ok(db.(images := Insert(db.images, img)))
  }

  /** `get_image`: the stored image, or `Http404`. */
  function GetImage(db: Db, pk: nat): (r: Result<Image>)
    ensures r.Ok? ==> Row(pk, r.value) in db.images.rows
    ensures r.Err? ==> r == Err(NotFound) && !Has(db.images, pk)
  {
    Get(db.images, pk)
  }

  /** `update_image`: looks the image up first, validates a saved candidate for the new owner,
      and only then overwrites file, owner type and owner id of the stored record (re-deriving
      tip and path); its key is kept. */
  function UpdateImage(db: Db, pk: nat, fileName: string, ct: ContentType, objectId: nat): (r: Result<Db>)
    ensures !Has(db.images, pk) ==> r == Err(NotFound)
    ensures Has(db.images, pk) && !OwnerExists(db, ct, objectId) ==>
      r == Err(ValidationError(None, MissingOwnerValidationMessage(ct, objectId)))
    ensures Has(db.images, pk) && OwnerExists(db, ct, objectId) && !SupportsImages(ct) ==>
      r == Err(ValueError(UnsupportedOwnerMessage))
    ensures r.Ok? <==> Has(db.images, pk) && OwnerExists(db, ct, objectId) && SupportsImages(ct)
    ensures r.Ok? ==> SameExceptImages(db, r.value) && |r.value.images.rows| == |db.images.rows|
    ensures r.Ok? ==> forall k :: (Get(r.value.images, k) ==
      if k == pk then Ok(Image(ImageDirectoryPath(ct, objectId, fileName), fileName, ct, objectId))
      else Get(db.images, k))
  {
    var _ :- GetImage(db, pk);
    var _ :- ValidateImage(db, ct, objectId);
    var img :- SaveImage(db, fileName, ct, objectId);
    Ok(db.(images := Update(db.images, pk, img)))
  }

  /** `delete_image`: removes an existing image; an unknown key is `Http404` and removes nothing. */
  function DeleteImage(db: Db, pk: nat): (r: Result<Db>)
    ensures r.Ok? <==> Has(db.images, pk)
    ensures r.Err? ==> r.error == NotFound
    ensures r.Ok? ==> SameExceptImages(db, r.value)
    ensures r.Ok? ==> forall k :: Get(r.value.images, k) == if k == pk then Err(NotFound) else Get(db.images, k)
  {
    var _ :- GetImage(db, pk);
    Ok(db.(images := Delete(db.images, pk)))
  }

  /** Changing only the image table keeps every owner reference resolving as before. */
  lemma OwnersUnchanged(db: Db, db': Db, img: Image)
    requires SameExceptImages(db, db')
    ensures SupportsImages(img.contentType) ==> (WellOwned(db', img) <==> WellOwned(db, img))
  {
    assert db'.products == db.products && db'.feedback == db.feedback;
  }

  /** Creating an image keeps every stored image attached to an existing product or feedback entry. */
  lemma CreateImageKeepsOwnership(db: Db, fileName: string, ct: ContentType, objectId: nat)
    requires ImagesWellOwned(db)
    requires CreateImage(db, fileName, ct, objectId).Ok?
    ensures ImagesWellOwned(CreateImage(db, fileName, ct, objectId).value)
  {
    var db' := CreateImage(db, fileName, ct, objectId).value;
    forall k | Get(db'.images, k).Ok? ensures WellOwned(db', Get(db'.images, k).value) {
      var img := Get(db'.images, k).value;
      if k != db.images.nextId {
        assert Get(db.images, k) == Ok(img);
      }
      OwnersUnchanged(db, db', img);
    }
  }

  /** Updating an image keeps every stored image attached to an existing product or feedback entry. */
  lemma UpdateImageKeepsOwnership(db: Db, pk: nat, fileName: string, ct: ContentType, objectId: nat)
    requires ImagesWellOwned(db)
    requires UpdateImage(db, pk, fileName, ct, objectId).Ok?
    ensures ImagesWellOwned(UpdateImage(db, pk, fileName, ct, objectId).value)
  {
    var db' := UpdateImage(db, pk, fileName, ct, objectId).value;
    forall k | Get(db'.images, k).Ok? ensures WellOwned(db', Get(db'.images, k).value) {
      var img := Get(db'.images, k).value;
      if k != pk {
        assert Get(db.images, k) == Ok(img);
      }
      OwnersUnchanged(db, db', img);
    }
  }

  /** Deleting an image keeps every remaining image attached to an existing product or feedback entry. */
  lemma DeleteImageKeepsOwnership(db: Db, pk: nat)
    requires ImagesWellOwned(db)
    requires DeleteImage(db, pk).Ok?
    ensures ImagesWellOwned(DeleteImage(db, pk).value)
  {
    var db' := DeleteImage(db, pk).value;
    forall k | Get(db'.images, k).Ok? ensures WellOwned(db', Get(db'.images, k).value) {
      var img := Get(db'.images, k).value;
      assert Get(db.images, k) == Ok(img);
      OwnersUnchanged(db, db', img);
    }
  }
}
