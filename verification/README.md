# Online shop backend: business rules in Dafny

This project models the rule-bearing core of a Django REST shop backend. The backend serves
products, categories, materials, feedback (reviews), addresses, orders, user accounts and
images attached to products or feedback. Most of it is HTTP and ORM plumbing. This project
models the decisions the controllers, data-access classes, managers, permissions, model
save hooks and helpers make on top of that plumbing, and proves properties about them.

The model is purely functional:

- **Store.** Every table is a `Store.Table<R>`: rows in primary-key order with an
  autoincrement counter. Keys are positive, so key 0, which the tests use as the "nonexistent"
  key, is never found. `objects.create`, `get(pk=…)`, `save()` and `delete()` become
  `Insert`, `Get`, `Update` and `Delete`. Each of these states in its contract what every key
  finds afterwards.
- **Database.** `Models.Db` holds one table per model.
- **Querysets.** A queryset is a sequence of rows. Filters can therefore state both which rows
  they keep and that the original order is kept.
- **Errors.** Exceptions become `Wrappers.Result` values:
  - `Http404` and `DoesNotExist` become `NotFound`.
  - DRF's `ValidationError` becomes `ValidationError(field, message)`.
  - `ValueError`, `KeyError` and `TypeError` keep their names.
  - A data-access or controller operation that fails returns no database, so its failure never
    changes the store. The feedback views are the exception: they return a `FeedbackViews.Response`
    that pairs the store with the outcome. `FeedbackViews.PutAsWritten` shows why. There, an edit is
    stored and the answer is still `NotFound`.
- **Requester.** The requesting user is a `Requester`: either anonymous or a member with a key
  and a staff flag.
- **Image owners.** Django's content types become the fixed enumeration
  `Models.ContentType`. An image's owner "resolves" when the table of its type holds a row
  with its id.

Modules, one per source component:

| module | file | models |
|---|---|---|
| `Tools` | tools.dfy | `shop/tools.py` |
| `Models` | models.dfy | `shop/models.py`: records, image rules, upload path, category text |
| `Managers` | managers.dfy | `shop/managers.py` |
| `Permissions` | permissions.dfy | `shop/permissions.py`, and the per-requester list scoping |
| `Users` | users.dfy | `shop/controllers/user.py` |
| `Images` | images.dfy | `shop/controllers/image.py` over `shop/dal/image.py` |
| `FeedbackDal` | feedback_dal.dfy | `shop/dal/feedback.py` |
| `FeedbackController` | feedback_controller.dfy | `shop/controllers/feedback.py` |
| `FeedbackViews` | feedback_views.dfy | the permission-guarded `put` and `delete` of `shop/views/feedback.py` |
| `Addresses`, `Orders` | addresses.dfy, orders.dfy | `shop/controllers/address.py`, `shop/controllers/order.py` |
| `Materials`, `Categories` | materials.dfy, categories.dfy | `shop/controllers/product_material.py`, `shop/controllers/category.py` |
| `Products` | products.dfy | `shop/dal/product.py` |
| `Serializers` | serializers.dfy | `shop/serializers/__init__.py` |
| `Wrappers`, `Seqs`, `Text`, `Store` | | helpers: results, order-preserving filter, decimal and case conversion, tables |

Where the code, its tests and its own declarations disagree, the model says which side it takes:

- **Feedback edit.** The detail view's `put` cannot succeed as written (shop/views/feedback.py:57-58).
  The tests expect the author and staff to get the edited entry back
  (shop/tests/test_views/test_feedback.py:150-176). `FeedbackViews.PutAsWritten` models the code
  as it stands, and `FeedbackViews.Put` models the intended edit (see "## Findings").
- **Images to delete.** The tests expect a request to be rejected when it lists an image of another
  entry, a nonexistent key, or any key for an entry without images
  (shop/tests/test_views/test_feedback.py:54-75 and 178-194). No code checks this:
  shop/dal/feedback.py:29-31 deletes every listed image, whoever owns it. `FeedbackDal.EditImages`
  models the code, and `FeedbackViews.Put` adds the check the tests expect.
- **Material links.** `ProductMaterial` has a single `product` foreign key
  (shop/models.py:114). The material controller and data-access class instead link a set of
  products (shop/dal/product_material.py:27-28). The model follows the controller: a material
  holds a set of product keys.
- **Moderated manager.** `Feedback` declares no `moderated_feedback` manager
  (shop/models.py:124-142), so shop/dal/feedback.py:15 and 19 would raise `AttributeError` as
  written. The manager tests use one (shop/tests/test_managers.py:8-12). Here the model follows the
  tests: it gives the manager the meaning of `ModeratedManager` (shop/managers.py:9-11).
- **Owner-type choices.** `content_type_choices()` puts a generator expression of the lower-cased
  class names under `model__in` (shop/models.py:59-60). The test compares that value with a list,
  `{'model__in': ['product', 'feedback']}` (shop/tests/test_models.py:82-83). A generator never
  equals a list in Python, so the test fails as the code is written. `Models.ContentTypeChoices`
  follows the test: it is the sequence of names the generator would yield, in order.
- **Product list.** `get_all_or_category_products` reads `Product.objects`, not the available
  view (shop/dal/product.py:8-9). The model follows the code and returns unavailable products too.

## Model

| member | source | states |
|---|---|---|
| Tools.AreAllElementsInList | shop/tools.py:1-2 | the check holds exactly when every element of the first list occurs in the second |
| Tools.ContainmentIsInclusion | shop/tools.py:1-2 | the check is set inclusion of the two lists' element sets |
| Tools.ContainmentIgnoresOrderAndRepeats | shop/tools.py:2 | lists with the same element sets get the same verdict, whatever their order or repetitions |
| Tools.ParseUnhandledValueMessage | shop/tools.py:5-6 | a message it accepts re-formats to exactly that message |
| Tools.ParseUnhandledValueRoundTrip | shop/tools.py:5-6 | the message "Unhandled value: <value> (<type>)" reads back to the value text and the type name |
| Tools.CreateUnhandledValueError | shop/tools.py:5-6 | the error is a ValueError whose message reads back to the value and its type name |
| Models.ContentTypeChoices | shop/models.py:59-60 | the allowed owner types are exactly ["product", "feedback"], in that order |
| Models.NewFeedback | shop/models.py:124-130 | new feedback starts unmoderated and keeps the given author, product, title and content |
| Models.CategoryStr | shop/models.py:44-46 | a root category reads exactly "Category <name>" and a subcategory exactly "Subcategory <name>", as shop/tests/test_models.py:18-27 expect; the "Subcategory " prefix appears exactly when there is a parent |
| Models.ImageDirectoryPath | shop/models.py:53-56 | a product image is stored under "product_images/product_<id>/<file>" and a feedback image under "feedback_images/feedback_<id>/<file>", with the id in decimal, as shop/tests/test_models.py:67-79 expect |
| Models.ImagePathRoundTrip | shop/models.py:53-56 | an upload path reads back into the owner's model, the owner id and the file name, whatever the file name |
| Models.DistinctOwnersDistinctPaths | shop/models.py:53-56 | two different image owners never share an upload path, whatever the file names |
| Models.SaveImage | shop/models.py:78-86 | a missing owner fails with "Such an object doesn't exist" before the type is checked; an owner of another type fails with "This class does not support images"; otherwise the tip is the file name and the record is well owned |
| Managers.AvailableProducts | shop/managers.py:4-6 | exactly the available products: every row kept is available, none available is dropped, and the order is kept |
| Managers.ModeratedFeedback | shop/managers.py:9-11 | exactly the moderated feedback: every row kept is moderated, none moderated is dropped, and the order is kept |
| Managers.AvailableProductsIdempotent | shop/managers.py:4-6 | filtering twice equals filtering once, and every available row keeps all its occurrences |
| Managers.ModeratedFeedbackIdempotent | shop/managers.py:9-11 | filtering twice equals filtering once, and every moderated row keeps all its occurrences |
| Permissions.HasObjectPermission | shop/permissions.py:6-8 | the owner is allowed, a staff member is allowed, anyone else is denied |
| Permissions.CheckPermissions | shop/permissions.py:11-19 | a failed fetch is the outcome; a denied check is PermissionDenied; an allowed requester gets exactly the handler's outcome; a success implies the fetch and the check passed |
| Users.ValidateSuperuserSettings | shop/controllers/user.py:64-66 | rejects exactly a superuser without staff status, under the non-field key with "Superuser must have is_staff=True." |
| Users.ComputeSuperuserSettings | shop/controllers/user.py:55-61 | a non-staff requester always gets (not staff, not superuser, active); a staff requester's consistent flags pass unchanged; inconsistent ones are rejected; the result is consistent, and staff or superuser only for a staff requester |
| Users.ComputeSuperuserSettingsIdempotent | shop/controllers/user.py:55-61 | computed flags are a fixed point for the same requester |
| Users.CreateUser | shop/controllers/user.py:16-20 | the new key holds the user with the computed flags; a flag error stores nothing; other keys are unchanged |
| Users.GetUser | shop/controllers/user.py:23-27 | returns the stored user, or NotFound when there is none |
| Users.UpdateUser | shop/controllers/user.py:30-34 | a flag error wins over a missing user; the update succeeds exactly when the flags compute and the user exists, and then every field of the user is overwritten, flags with the computed ones; other keys are unchanged |
| Users.DeleteUser | shop/controllers/user.py:37-38 | an existing user is removed and nothing else; an unknown key is NotFound |
| Users.RemoveUniqueValidator | shop/controllers/user.py:47-52 | removes the first uniqueness validator only and keeps the others in order; without one the list is unchanged |
| Users.RemoveUniqueValidatorCounts | shop/controllers/user.py:47-52 | exactly one uniqueness validator goes, and nothing else |
| Users.CheckUsernameField | shop/controllers/user.py:41-44 | the uniqueness check is dropped exactly when the submitted username equals the stored one; an unknown user is NotFound |
| Users.OwnUsernameDropsOneUniqueCheck | shop/controllers/user.py:41-44 | resubmitting one's own username removes one uniqueness check and leaves every other validator |
| Images.ValidateImage | shop/controllers/image.py:20-24 | fails exactly when the owner does not resolve, with "<Type> object with primary key <id> doesn't exist" |
| Images.MissingOwnerMessageNamesOwner | shop/controllers/image.py:22-24 | that message is the capitalised type name, the fixed text, the owner id in decimal (which reads back to the id) and " doesn't exist" |
| Images.CreateImage | shop/controllers/image.py:14-17 | succeeds exactly for an existing owner of an allowed type; validation failure comes first; on success only the new key is added, holding tip = file name and the derived path |
| Images.GetImage | shop/controllers/image.py:27-31 | returns the stored image, or NotFound when there is none |
| Images.UpdateImage | shop/controllers/image.py:34-37 | an unknown image is NotFound before the owner is validated; a fresh candidate is validated before anything changes; on success only that key's record changes, to the new file and owner |
| Images.DeleteImage | shop/controllers/image.py:40-41 | an existing image is removed and nothing else; an unknown key is NotFound |
| Images.CreateImageKeepsOwnership | shop/controllers/image.py:14-17 | creating an image keeps every stored image attached to an existing product or feedback entry |
| Images.UpdateImageKeepsOwnership | shop/controllers/image.py:34-37 | updating an image keeps every stored image attached to an existing product or feedback entry |
| Images.DeleteImageKeepsOwnership | shop/controllers/image.py:40-41 | deleting an image keeps every remaining image attached to an existing product or feedback entry |
| FeedbackDal.CreateImages | shop/dal/feedback.py:43-44 | one image per uploaded file, attached to this feedback, under consecutive fresh keys in upload order; nothing else changes |
| FeedbackDal.DeleteImages | shop/dal/feedback.py:39-40 | exactly the images of this feedback are removed |
| FeedbackDal.DeleteImagesLeavesNone | shop/dal/feedback.py:39-40 | afterwards the feedback has no image, and when it had none the database is unchanged |
| FeedbackDal.InsertFeedback | shop/dal/feedback.py:7-11 | the new entry is unmoderated; images are attached only when a list is given, one per file |
| FeedbackDal.GetFeedbackByPk | shop/dal/feedback.py:18-19 | finds an entry exactly when it is stored and moderated, and NotFound otherwise |
| FeedbackDal.GetFeedbackByPkMatchesModeratedView | shop/dal/feedback.py:14-19 | the lookup by key finds exactly the rows the moderated view lists |
| FeedbackDal.EditImages | shop/dal/feedback.py:27-31 | the uploads are attached first, then every listed key is deleted, whoever owns it |
| FeedbackDal.UpdateFeedback | shop/dal/feedback.py:22-32 | product, title and content are overwritten, the author is kept, and the entry becomes unmoderated whatever it was |
| FeedbackDal.DeleteFeedback | shop/dal/feedback.py:35-36 | the entry goes, and with it exactly its images |
| FeedbackController.GetFeedbackList | shop/controllers/feedback.py:9-11 | exactly the moderated feedback, in table order |
| FeedbackController.GetFeedback | shop/controllers/feedback.py:22-27 | finds an entry exactly when the list shows it, that is, when it is stored and moderated; a missing or unmoderated entry is NotFound |
| FeedbackController.CreateFeedback | shop/controllers/feedback.py:14-15 | the entry is stored with the given author, product, title and content, unmoderated and so not readable |
| FeedbackController.UpdateFeedback | shop/controllers/feedback.py:30-31 | only a readable entry can be edited; the author is kept and the entry is no longer readable afterwards; missing or unmoderated is NotFound |
| FeedbackController.DeleteFeedback | shop/controllers/feedback.py:38-39 | only a readable entry can be deleted; exactly that entry and exactly its images go, and every other table is unchanged; missing or unmoderated is NotFound |
| FeedbackViews.PutAsWritten | shop/views/feedback.py:53-60 | as written: an unreadable entry is NotFound and a stranger gets PermissionDenied; for the author or staff, a submitted image list is a TypeError with nothing written, and otherwise the edit is stored and the response is NotFound; no request gets the edited entry back |
| FeedbackViews.PutAsWrittenStoresThenAnswersNotFound | shop/views/feedback.py:57-58 | an allowed edit without image lists lands in the store and is still answered with NotFound |
| FeedbackViews.EditImagesDeletesForeignImage | shop/dal/feedback.py:29-31 | the data-access edit deletes a listed image that belongs to another owner |
| FeedbackViews.OwnImagesIsContainment | shop/tools.py:1-2 | the intended rule for keys to delete is `are_all_elements_in_list` applied to the listed keys and the keys of the entry's images |
| FeedbackViews.FirstForeign | shop/tests/test_views/test_feedback.py:178-194 | finds a listed key that is not an image of the entry exactly when there is one |
| FeedbackViews.Put | shop/views/feedback.py:53-60 | as intended: unreadable is NotFound, a stranger gets PermissionDenied, a key that is not an image of the entry is a ValidationError naming a listed key; every failure writes nothing; the author or staff otherwise get the edited, unmoderated entry back with the image lists applied; images of other owners are never touched |
| FeedbackViews.Delete | shop/views/feedback.py:62-66 | the delete succeeds exactly for the author or a staff member on a readable entry, and is then exactly the controller's delete; others get PermissionDenied and unreadable entries NotFound |
| Addresses.GetAddressList | shop/controllers/address.py:10-14 | staff see every address; anyone else sees exactly their own, in table order |
| Addresses.CreateAddress | shop/controllers/address.py:17-18 | the new address belongs to the requesting user |
| Addresses.GetAddress | shop/controllers/address.py:21-25 | returns the stored address, or NotFound when there is none |
| Addresses.UpdateAddress | shop/controllers/address.py:28-30 | the seven address fields are replaced and the owner is kept; an unknown key is NotFound |
| Addresses.DeleteAddress | shop/controllers/address.py:33-34 | an existing address is removed and nothing else; an unknown key is NotFound |
| Addresses.CreatedAddressIsListedForOwnerOnly | shop/controllers/address.py:10-18 | a new address appears in its owner's list and in no other non-staff requester's list |
| Orders.GetOrderList | shop/controllers/order.py:9-13 | staff see every order; anyone else sees exactly their own, in table order |
| Orders.CreateOrder | shop/controllers/order.py:16-17 | the new order belongs to the requesting user, has the given address and is unpaid |
| Orders.GetOrder | shop/controllers/order.py:20-24 | returns the stored order, or NotFound when there is none |
| Orders.UpdateOrder | shop/controllers/order.py:27-28 | only the address changes; owner and payment state are kept; an unknown key is NotFound |
| Orders.DeleteOrder | shop/controllers/order.py:31-32 | an existing order is removed and nothing else; an unknown key is NotFound |
| Materials.CreateMaterial | shop/controllers/product_material.py:13-16 | the new material has the given name and is linked to exactly the listed products (none when the list is missing or empty) |
| Materials.GetMaterial | shop/controllers/product_material.py:19-23 | returns the stored material, or NotFound when there is none |
| Materials.UpdateMaterial | shop/controllers/product_material.py:26-27 | only the name changes; product links are kept; an unknown key is NotFound |
| Materials.DeleteMaterial | shop/controllers/product_material.py:30-31 | an existing material is removed and nothing else; an unknown key is NotFound |
| Materials.IsTheSameName | shop/controllers/product_material.py:34-37 | true exactly when the new name is the stored name; an unknown key is NotFound |
| Materials.PutMaterial | shop/views/product_material.py:34-40 | the submitted name is compared as sent: an unchanged name succeeds without validation or change; otherwise a rejected input is the error, and an accepted one stores the serializer's cleaned name and keeps the product links |
| Materials.RenameToSameNameIsNoOp | shop/views/product_material.py:36-40 | renaming to the current name leaves the table exactly as it was, whatever the serializer would say |
| Categories.CreateCategory | shop/controllers/category.py:13-14 | the new category holds the given name and parent; without a parent it is a root and renders as "Category <name>" |
| Categories.GetCategory | shop/controllers/category.py:17-21 | returns the stored category, or NotFound when there is none |
| Categories.UpdateCategory | shop/controllers/category.py:24-25 | name and parent are replaced as given, so a call without a parent makes a root; an unknown key is NotFound |
| Categories.DeleteCategory | shop/controllers/category.py:28-29 | an existing category is removed and nothing else; an unknown key is NotFound |
| Categories.SelfParentIsAccepted | shop/dal/category.py:18-21 | no cycle check: an existing category can be made its own parent |
| Products.GetAllOrCategoryProducts | shop/dal/product.py:8-9 | with no category, every product; with one, exactly that category's products in order, and none for a category with no products |
| Products.GetProductByPk | shop/dal/product.py:12-16 | returns the stored product, or NotFound when there is none |
| Serializers.Without | shop/serializers/__init__.py:10-11 | a field name survives exactly when it was present and is not dropped |
| Serializers.WithoutKeepsOrder | shop/serializers/__init__.py:10-11 | the fields that are not named keep their definitions and their relative order |
| Serializers.WithoutUnique | shop/serializers/__init__.py:10-11 | removing fields from a map with unique names leaves a map with unique names |
| Serializers.WithoutWithout | shop/serializers/__init__.py:10-11 | removing one set of names and then another is the same as removing their union at once |
| Serializers.PopAll | shop/serializers/__init__.py:10-11 | popping names one by one succeeds exactly when each is present and none repeats; a failure is the KeyError of the first name that is absent or already popped, after every earlier pop succeeded |
| Serializers.Pop | shop/serializers/__init__.py:11 | removes the named field, or raises KeyError when it is absent |
| Serializers.RemoveFields | shop/serializers/__init__.py:5-11 | without a list the map is unchanged; otherwise it succeeds exactly when every name is present and none repeats, leaving exactly the other fields; a failure is the KeyError of the first name that is absent or already popped |

## Findings

| source | as written | input that shows it | evidently intended | confidence | as-written member | corrected member |
|---|---|---|---|---|---|---|
| shop/views/feedback.py:57 | the view passes the whole validated data to `update_feedback`, which accepts only product, title and content (shop/controllers/feedback.py:30); the serializer also declares `images` and `images_to_delete` (shop/serializers/feedback.py:29-34) | a PUT by the author of a moderated entry that submits `images` | the image lists reach the data-access edit, which accepts them (shop/dal/feedback.py:22) | high, not executed | FeedbackViews.PutAsWritten | FeedbackViews.Put |
| shop/views/feedback.py:58 | after the edit sends the entry back to moderation, the view reads it back through the moderated lookup, which raises `Http404`; the write has already landed | a PUT by the author of a moderated entry with product, title and content only | the response shows the edited entry, as the tests' 200 expects (shop/tests/test_views/test_feedback.py:151-176) | high, not executed | FeedbackViews.PutAsWrittenStoresThenAnswersNotFound | FeedbackViews.Put |
| shop/dal/feedback.py:29-31 | the loop has no check that a listed image belongs to the entry being edited. As written, the serializer's entries are integers (shop/serializers/feedback.py:30), and `ImageDAL.delete_image` calls `.delete()` on what it gets (shop/dal/image.py:30). So the first key raises `AttributeError`, after `create_images` (lines 27-28) has already saved the uploads: a partial write. A foreign image is deleted only under the model's reading, where a key stands for the image it names | `images_to_delete` holding the key of an image of another feedback entry | a key that is not an image of this entry rejects the request with a validation error, as the tests' 400 expects (shop/tests/test_views/test_feedback.py:178-194) | low: the foreign deletion holds only under the key reading; not executed | FeedbackViews.EditImagesDeletesForeignImage | FeedbackViews.Put |

## Left out

- Views, routing, HTTP status codes and the `Allow` header behaviour belong to Django and DRF.
  The exceptions are the feedback detail view's permission-guarded edit and delete, and the
  material view's rename flow. Those are modelled because they carry the permission and
  no-op rules.
- Input and output serializer schemas, admin and migrations are field declarations. Only the
  field-removal helper is modelled. The serializer's outcome enters `Materials.PutMaterial` as a
  parameter: its error, or the name it cleaned. The feedback views receive already validated
  input, so a malformed body or an invalid image file is not modelled there.
- Model `Meta` orderings are not modelled. Tables are kept in key order instead.
- Foreign-key cascades are not modelled, except that deleting a feedback entry removes its
  images, as the generic relation does.
- Image file validity (Pillow's check), file storage and upload I/O are not modelled. The
  upload path is computed but nothing is written.
- Passwords are stored as given, exactly as the user data-access class does. Hashing is not
  modelled.
- Price, weight and timestamps are left out. They are decimal, floating-point and clock values,
  and no core rule reads them.
- The e-mail notification placeholders in the feedback controller do nothing, so they are not
  modelled.
- The order-item controller, the unsupported product controller and the list pass-throughs
  (`get_user_list`, `get_image_list`, `get_material_list`, `get_category_list`) are left out.
  The list pass-throughs return the whole table, which `Store.Table` already is.
- The product controller calls a data-access method that does not exist, so it is left out.
  Only `shop/dal/product.py` is modelled.
- `shop/exceptions.py` is not part of this model.
- Tools.ParseUnhandledValueRoundTrip: the round trip is proved only for type names without "(".
  Python class names never contain one. The value is taken as its already-rendered `str()`
  text.
- Tools.CreateUnhandledValueError: its read-back promise has the same restriction on the type
  name.
- Images.ValidateImage: the error carries no field name. A `ValidationError` raised with a plain
  message outside a serializer has none.
- Materials.CreateMaterial: linking to a product key that does not exist would fail in the
  database. The input serializer rules that out, and the model does not check it.
- Materials.PutMaterial: a request body without a `name` key raises `KeyError` in the view. The
  model always receives a name.
- FeedbackDal.UpdateFeedback: it requires the entry to be stored. The data-access method is only
  ever passed an entry that was just read from the store.
- Products.GetAllOrCategoryProducts: the category argument is an optional key. Python's
  `not category` treats key 0 like a missing category. Keys start at 1, so that case never
  selects a real category.
- Text.Lower and Text.Capitalize cover ASCII only. Every class and verbose name they are applied
  to is ASCII.
- Permissions.HasObjectPermission: an anonymous requester is denied like any stranger. DRF reports
  that case as `NotAuthenticated` rather than `PermissionDenied`; both are answered with 403 here,
  and the model does not tell them apart.
- FeedbackViews.PutAsWritten: the `TypeError` text is the one older Python versions print. Newer
  versions prefix the function name with its class, `FeedbackController.`.
- FeedbackViews.Put: the source has no text for the rejection of a foreign key to delete. The model
  uses the wording of DRF's primary-key field for a key that names no allowed object.
- FeedbackDal.EditImages: the entries of the deletion list are image keys. `ImageDAL.delete_image`
  calls `delete()` on what it is given, so it expects image objects. The serializer produces
  integers, and no code in the repository converts them. As written, the first key therefore
  raises `AttributeError`, after the uploads are already saved and before the edited fields are
  saved. The model does not model that crash. It deletes the image a key names.
- FeedbackViews.EditImagesDeletesForeignImage: it holds under the same key reading. As written, the
  loop raises `AttributeError` before it deletes anything.
- Models.ContentTypeChoices: `content_type_choices()` puts a generator of the lower-cased class names
  under a `model__in` lookup. The model returns the names the generator yields, as a list, and
  leaves out the lookup wrapper. It does not model that a generator never equals the test's list.
