/** The shop's records, the polymorphic image attachment and the save-time
    rules of `shop/models.py`.

    Django's `ContentType` reflection is replaced by a fixed enumeration of
    the shop's models; an image's owner is the pair (content type, object id)
    and it "resolves" when the table of that type holds a row with that id. */
module Models {
  import opened Wrappers
  import opened Text
  import opened Store

  /** The user on whose behalf a request runs; `AnonymousUser` has no primary key and is never staff. */
  datatype Requester = Anonymous | Member(pk: nat, isStaff: bool) {
    predicate IsStaff() {
      Member? && isStaff
    }

    /** `request.user` compared with the user stored under `userPk`. */
    predicate Is(userPk: nat) {
      Member? && pk == userPk
    }
  }

  datatype Flags = Flags(isStaff: bool, isSuperuser: bool, isActive: bool)

  datatype User = User(
    username: string, password: string, firstName: string, lastName: string,
    email: string, phoneNumber: string, flags: Flags)

  datatype AddressFields = AddressFields(
    country: string, region: string, city: string, street: string,
    houseNumber: string, flatNumber: string, postalCode: nat)

  datatype Address = Address(user: nat, fields: AddressFields)

  /** A category with no parent is a root of the category tree. */
  datatype Category = Category(name: string, parent: Option<nat>)

  datatype Product = Product(
    category: nat, name: string, description: string, size: string,
    stock: nat, isAvailable: bool)

  /** A material with the set of products it is linked to. */
  datatype Material = Material(name: string, products: set<nat>)

  datatype Feedback = Feedback(author: nat, product: nat, title: string, content: string, isModerated: bool)

  datatype Order = Order(user: nat, address: nat, isPaid: bool)

  datatype OrderItem = OrderItem(product: nat, order: nat, quantity: nat)

  /** The content types an image's owner reference can name. */
  datatype ContentType =
    | UserType | AddressType | CategoryType | ImageType | ProductType
    | MaterialType | FeedbackType | OrderType | OrderItemType

  /** An image attached to the owner (`contentType`, `objectId`): the stored file path and its display tip. */
  datatype Image = Image(path: string, tip: string, contentType: ContentType, objectId: nat)

  /** The whole database: one table per model. */
  datatype Db = Db(
    users: Table<User>, addresses: Table<Address>, categories: Table<Category>,
    products: Table<Product>, materials: Table<Material>, feedback: Table<Feedback>,
    images: Table<Image>, orders: Table<Order>, orderItems: Table<OrderItem>)

  /** `Model.__name__`. */
  function ClassName(ct: ContentType): string {
    match ct
    case UserType => "User"
    case AddressType => "Address"
    case CategoryType => "Category"
    case ImageType => "Image"
    case ProductType => "Product"
    case MaterialType => "ProductMaterial"
    case FeedbackType => "Feedback"
    case OrderType => "Order"
    case OrderItemType => "OrderItem"
  }

  /** `ContentType.name`, the model's verbose name (declared in `Meta` or derived from the class name). */
  function VerboseName(ct: ContentType): string {
    match ct
    case UserType => "user"
    case AddressType => "Address"
    case CategoryType => "Category"
    case ImageType => "image"
    case ProductType => "product"
    case MaterialType => "product material"
    case FeedbackType => "Feedback"
    case OrderType => "order"
    case OrderItemType => "order item"
  }

  /** `get_image_models()`: the only owner types images may be attached to, in this order. */
  const ImageModels: seq<ContentType> := [ProductType, FeedbackType]

  predicate SupportsImages(ct: ContentType) {
    ct in ImageModels
  }

  /** `content_type_choices()`: the lower-cased names of the image models, in order. */
  function ContentTypeChoices(): (r: seq<string>)
    ensures r == ["product", "feedback"]
  {
    assert Lower("Product") == "product";
    assert Lower("Feedback") == "feedback";
    seq(|ImageModels|, i requires 0 <= i < |ImageModels| => Lower(ClassName(ImageModels[i])))
  }

  /** A fresh feedback entry waits for moderation. */
  function NewFeedback(author: nat, product: nat, title: string, content: string): (f: Feedback)
    ensures !f.isModerated
    ensures f.author == author && f.product == product && f.title == title && f.content == content
  {
    Feedback(author, product, title, content, false)
  }

  /** `Category.__str__`. */
  function CategoryStr(c: Category): (s: string)
    ensures c.parent.None? ==> s == "Category " + c.name
    ensures c.parent.Some? ==> s == "Subcategory " + c.name
    ensures c.parent.Some? <==> |s| >= 12 && s[..12] == "Subcategory "
    ensures |s| >= |c.name| && s[|s| - |c.name|..] == c.name
  {
    var kind := if c.parent.Some? then "Subcategory " else "Category ";
    assert (kind + c.name)[|kind|..] == c.name;
    assert (kind + c.name)[0] == kind[0];
    kind + c.name
  }

  const ProductFolderPrefix := "product_images/product_"
  const FeedbackFolderPrefix := "feedback_images/feedback_"

  /** `image_directory_path`: where an uploaded file named `fileName` is stored for its owner,
      `<model>_images/<model>_<id>/<file>` with the model name lower-cased. */
  function ImageDirectoryPath(ct: ContentType, objectId: nat, fileName: string): (path: string)
    ensures ct == ProductType ==> path == ProductFolderPrefix + NatToString(objectId) + "/" + fileName
    ensures ct == FeedbackType ==> path == FeedbackFolderPrefix + NatToString(objectId) + "/" + fileName
  {
    LowerImageModelNames();
    var model := Lower(ClassName(ct));
    model + "_images/" + model + "_" + NatToString(objectId) + "/" + fileName
  }

  /** The lower-cased class names of the two image models. */
  lemma LowerImageModelNames()
    ensures Lower(ClassName(ProductType)) == "product"
    ensures Lower(ClassName(FeedbackType)) == "feedback"
  {
    assert Lower("Product") == "product";
    assert Lower("Feedback") == "feedback";
  }

  /** The number of decimal digits `s` starts with. */
  function DigitPrefixLength(s: string): (n: nat)
    ensures n <= |s| && AllDigits(s[..n])
    ensures n < |s| ==> !IsDigit(s[n])
  {
    if |s| == 0 || !IsDigit(s[0]) then 0
    else
      var m := DigitPrefixLength(s[1..]);
      assert s[..1 + m] == [s[0]] + s[1..][..m];
      1 + m
  }

  lemma {:induction false} DigitPrefixOfDigits(d: string, rest: string)
    requires AllDigits(d)
    requires |rest| > 0 && !IsDigit(rest[0])
    ensures DigitPrefixLength(d + rest) == |d|
    decreases |d|
  {
    if |d| > 0 {
      assert (d + rest)[1..] == d[1..] + rest;
      DigitPrefixOfDigits(d[1..], rest);
    } else {
      assert d + rest == rest;
    }
  }

  /** Reads the part of an upload path after its folder prefix: the owner id, a '/', the file name. */
  function ParseOwnerPath(ct: ContentType, s: string): Option<(ContentType, nat, string)> {
    var n := DigitPrefixLength(s);
    if 0 < n < |s| && s[n] == '/' then Some((ct, ParseNat(s[..n]), s[n + 1..])) else None
  }

  /** Reads an upload path of an image model back into its owner and file name. */
  function ParseImagePath(path: string): (r: Option<(ContentType, nat, string)>)
    ensures r.Some? ==> SupportsImages(r.value.0)
  {
    if |ProductFolderPrefix| <= |path| && path[..|ProductFolderPrefix|] == ProductFolderPrefix then
      ParseOwnerPath(ProductType, path[|ProductFolderPrefix|..])
    else if |FeedbackFolderPrefix| <= |path| && path[..|FeedbackFolderPrefix|] == FeedbackFolderPrefix then
      ParseOwnerPath(FeedbackType, path[|FeedbackFolderPrefix|..])
    else None
  }

  /** The part after the folder prefix reads back into the owner id and the file name. */
  lemma ParseOwnerPathRoundTrip(ct: ContentType, objectId: nat, fileName: string)
    ensures ParseOwnerPath(ct, NatToString(objectId) + "/" + fileName) == Some((ct, objectId, fileName))
  {
    var d := NatToString(objectId);
    var rest := d + "/" + fileName;
    assert rest == d + ("/" + fileName);
    DigitPrefixOfDigits(d, "/" + fileName);
    ParseNatToString(objectId);
    assert rest[..|d|] == d;
    assert rest[|d| + 1..] == fileName;
  }

  /** A path under the product folder is read as a product image. */
  lemma ProductPathParses(rest: string)
    ensures ParseImagePath(ProductFolderPrefix + rest) == ParseOwnerPath(ProductType, rest)
  {
    var path := ProductFolderPrefix + rest;
    assert path[..|ProductFolderPrefix|] == ProductFolderPrefix;
    assert path[|ProductFolderPrefix|..] == rest;
  }

  /** A path under the feedback folder is read as a feedback image. */
  lemma FeedbackPathParses(rest: string)
    ensures ParseImagePath(FeedbackFolderPrefix + rest) == ParseOwnerPath(FeedbackType, rest)
  {
    var path := FeedbackFolderPrefix + rest;
    assert path[0] == 'f';
    assert path[..|FeedbackFolderPrefix|] == FeedbackFolderPrefix;
    assert path[|FeedbackFolderPrefix|..] == rest;
  }

  /** An upload path names its owner: the model, the owner id and the file name read back. */
  lemma ImagePathRoundTrip(ct: ContentType, objectId: nat, fileName: string)
    requires SupportsImages(ct)
    ensures ParseImagePath(ImageDirectoryPath(ct, objectId, fileName)) == Some((ct, objectId, fileName))
  {
    var rest := NatToString(objectId) + "/" + fileName;
    ParseOwnerPathRoundTrip(ct, objectId, fileName);
    if ct == ProductType {
      assert ImageDirectoryPath(ct, objectId, fileName) == ProductFolderPrefix + rest;
      ProductPathParses(rest);
    } else {
      assert ImageDirectoryPath(ct, objectId, fileName) == FeedbackFolderPrefix + rest;
      FeedbackPathParses(rest);
    }
  }

  /** Two different image owners never share an upload path, whatever the file names. */
  lemma DistinctOwnersDistinctPaths(
    ct1: ContentType, id1: nat, f1: string, ct2: ContentType, id2: nat, f2: string)
    requires SupportsImages(ct1) && SupportsImages(ct2)
    requires ct1 != ct2 || id1 != id2
    ensures ImageDirectoryPath(ct1, id1, f1) != ImageDirectoryPath(ct2, id2, f2)
  {
    ImagePathRoundTrip(ct1, id1, f1);
    ImagePathRoundTrip(ct2, id2, f2);
  }

  /** Does the owner reference resolve to a row (`content_object` is not `None`)? */
  predicate OwnerExists(db: Db, ct: ContentType, objectId: nat) {
    match ct
    case UserType => Has(db.users, objectId)
    case AddressType => Has(db.addresses, objectId)
    case CategoryType => Has(db.categories, objectId)
    case ImageType => Has(db.images, objectId)
    case ProductType => Has(db.products, objectId)
    case MaterialType => Has(db.materials, objectId)
    case FeedbackType => Has(db.feedback, objectId)
    case OrderType => Has(db.orders, objectId)
    case OrderItemType => Has(db.orderItems, objectId)
  }

  const MissingOwnerMessage := "Such an object doesn't exist"
  const UnsupportedOwnerMessage := "This class does not support images"

  /** `Image.save`: checks the owner, then derives the tip from the uploaded file name and
      commits the file to its upload path. The result is the record that gets stored. */
  function SaveImage(db: Db, fileName: string, ct: ContentType, objectId: nat): (r: Result<Image>)
    ensures r.Ok? <==> OwnerExists(db, ct, objectId) && SupportsImages(ct)
    ensures !OwnerExists(db, ct, objectId) ==> r == Err(ValueError(MissingOwnerMessage))
    ensures OwnerExists(db, ct, objectId) && !SupportsImages(ct) ==> r == Err(ValueError(UnsupportedOwnerMessage))
    ensures r.Ok? ==> r.value.tip == fileName
    ensures r.Ok? ==> r.value.contentType == ct && r.value.objectId == objectId
    ensures r.Ok? ==> r.value.path == ImageDirectoryPath(ct, objectId, fileName)
    ensures r.Ok? ==> WellOwned(db, r.value)
  {
    if !OwnerExists(db, ct, objectId) then Err(ValueError(MissingOwnerMessage))
    else if !SupportsImages(ct) then Err(ValueError(UnsupportedOwnerMessage))
    else Ok(Image(ImageDirectoryPath(ct, objectId, fileName), fileName, ct, objectId))
  }

  /** Is `img` attached to the owner (`ct`, `objectId`)? */
  predicate BelongsTo(img: Image, ct: ContentType, objectId: nat) {
    img.contentType == ct && img.objectId == objectId
  }

  /** An image record whose owner resolves to a row of an image-supporting type. */
  predicate WellOwned(db: Db, img: Image) {
    SupportsImages(img.contentType) && OwnerExists(db, img.contentType, img.objectId)
  }

  /** Every stored image belongs to an existing owner of an image-supporting type. */
  ghost predicate ImagesWellOwned(db: Db) {
    forall k :: Get(db.images, k).Ok? ==> WellOwned(db, Get(db.images, k).value)
  }
}
