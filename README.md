# AquaticExotica backend: a verified model of its core logic

This project models the parts of the AquaticExotica Django backend whose
behaviour can be stated precisely, and proves properties about them in
Dafny. Those parts are:

- the PayU payment flow: starting a payment for an order, and reconciling
  PayU's callback against the reverse hash;
- the entity rules and money arithmetic of the shop models and serializers;
- the notification signals;
- the decision logic of the shop and account views;
- the two permission classes;
- the two camelCase/snake_case key conversions used by the middleware.

Database tables are maps (or, where iteration order matters, sequences)
held in classes. The views' and signals' in-place updates are methods on
these classes. Each method is proved equal to a pure function of the old
state, and the lemmas about those functions carry the properties.

Money is a whole number of cents (`Money.Cents`). Request fields read with
`.get()` are `Option<string>` (`Form.Field`). Python truthiness, `a or b`
and f-string rendering of `None` are spelt out in `Form`.

The PayU callback's hash check is modelled as written: the expected hash
is lower-cased and compared exactly with the received one
(payments/views.py:67-70), so a received hash in upper case is refused
(Payments.UpperCaseHashRejected).

Things outside the code's control are parameters:

- SHA-512 is a `string -> string` digest, and `slugify` is a `string -> string` function.
- The uuid4 hex string is an argument required to be 32 lower-case hex digits.
- Mail delivery is a boolean outcome.

Modules, one per file:

| file | module | models |
|---|---|---|
| wrappers.dfy | Wrappers | Option / Result |
| text.dfy | Text | ASCII `lower`, `title`, `strip`, `split`, `join` |
| json.dfy | Json | JSON values; dict comprehension with last-wins keys |
| boundaries.dfy | Boundaries | the regex "insert `_` at a boundary" rewriting |
| case_simple.dfy | SimpleCase | the single-rule middleware conversion (two identical files) |
| case_digit.dfy | DigitCase | the digit-aware middleware conversion |
| permissions.dfy | Permissions | `IsAdminOrReadOnly`, `RoleBasedSafeWritePermission` |
| money.dfy | Money | Decimal as cents; `round`, `int()`, `str()` |
| form.dfy | Form | request fields, truthiness, `or`, f-string rendering |
| models.dfy | Models | entities, derived values, address/image/user tables |
| serializers.dfy | Serializers | the computed serializer fields |
| signals.dfy | Signals | notification handlers, subscription/product/order tables |
| views.dfy | Views | `core/views.py` decisions |
| auth.dfy | Auth | `authapp/views.py` decisions |
| payments.dfy | Payments | the PayU views and the `PayUPayment` record |

## Model

| member | source | states |
|---|---|---|
| Permissions.IsAdminOrReadOnly | core/permissions.py:7-11 | GET, HEAD and OPTIONS are always allowed; any other method is allowed iff the user is staff |
| Permissions.NonStaffOnlyReads | core/permissions.py:9-11 | a non-staff or absent user is allowed exactly the read methods |
| Permissions.RoleBasedSafeWrite | aquaticexotica_backend/core/permissions.py:21-28 | reads always allowed; POST iff authenticated; PUT/PATCH/DELETE iff authenticated and staff; every other method denied |
| Permissions.StaffMonotone | aquaticexotica_backend/core/permissions.py:7-28 | granting staff never removes a permission, in either class |
| Permissions.AuthenticationMonotone | aquaticexotica_backend/core/permissions.py:21-28 | whatever an anonymous user may do, an authenticated user may do |
| Permissions.RoleBasedWithinAdminOrReadOnly | aquaticexotica_backend/core/permissions.py:7-28 | for consistent users the two classes agree on every recognised method except POST |
| Permissions.PostIsTheDifference | aquaticexotica_backend/core/permissions.py:11-25 | an authenticated non-staff POST passes the role-based class and fails IsAdminOrReadOnly |
| SimpleCase.CamelToSnake | aquaticexotica_backend/middleware/camelcase_middleware.py:6-7 | the result has no upper-case letter and is at least as long as the input |
| SimpleCase.CamelToSnakeIdempotent | aquaticexotica_backend/middleware/camelsnakecase_middleware.py:6-7 | converting a converted name changes nothing |
| SimpleCase.SnakeToCamel | aquaticexotica_backend/middleware/camelcase_middleware.py:10-12 | no `_` in the result; the first part is kept verbatim as its prefix |
| SimpleCase.RoundTrip | aquaticexotica_backend/middleware/camelcase_middleware.py:6-12 | lower-case letter runs joined by `_` survive snake→camel→snake |
| SimpleCase.ExampleUserId | aquaticexotica_backend/middleware/camelcase_middleware.py:7 | every capital is split off: "userID" becomes "user_i_d" |
| SimpleCase.ExampleName | aquaticexotica_backend/middleware/camelcase_middleware.py:7 | a leading capital gets no underscore: "Name" becomes "name" |
| SimpleCase.ExampleAddressLine | aquaticexotica_backend/middleware/camelsnakecase_middleware.py:7 | digits are not split off: "addressLine1" becomes "address_line1" |
| SimpleCase.ConvertKeysToSnakeCase | aquaticexotica_backend/middleware/camelcase_middleware.py:15-20 | scalars unchanged, lists keep their length, dicts get distinct keys with no upper-case letter |
| SimpleCase.ConvertKeysToCamelCase | aquaticexotica_backend/middleware/camelsnakecase_middleware.py:23-28 | scalars unchanged, lists keep their length, dicts get distinct keys with no `_` |
| Json.MapKeys | aquaticexotica_backend/middleware/camelcase_middleware.py:15-28 | structure preserved; the dict's keys are exactly the converted keys, without duplicates |
| Json.MapKeysListItem | aquaticexotica_backend/middleware/camelcase_middleware.py:18-19 | each list element is converted in place |
| Json.MapKeysLastWins | aquaticexotica_backend/aquaticexotica_backend/middleware/camelsnakecase_middleware.py:28 | when keys collide after conversion, the last entry's converted value is kept |
| Json.Collect | aquaticexotica_backend/aquaticexotica_backend/middleware/camelsnakecase_middleware.py:36 | a dict comprehension has distinct keys, the same key set, and for each key the last value |
| DigitCase.CamelToSnake | aquaticexotica_backend/aquaticexotica_backend/middleware/camelsnakecase_middleware.py:10-16 | the result has no upper-case letter and is at least as long as the input |
| DigitCase.MarkedSeparates | aquaticexotica_backend/aquaticexotica_backend/middleware/camelsnakecase_middleware.py:12-15 | after the three substitutions no letter touches a digit |
| DigitCase.CamelToSnakeIdempotent | aquaticexotica_backend/aquaticexotica_backend/middleware/camelsnakecase_middleware.py:10-16 | converting a converted name changes nothing |
| DigitCase.SnakeToCamel | aquaticexotica_backend/aquaticexotica_backend/middleware/camelsnakecase_middleware.py:19-23 | no `_` in the result; the first part is kept verbatim as its prefix |
| DigitCase.SnakeToCamelAgrees | aquaticexotica_backend/aquaticexotica_backend/middleware/camelsnakecase_middleware.py:19-23 | keeping digit parts verbatim gives the same result as title-casing every part |
| DigitCase.RoundTrip | aquaticexotica_backend/aquaticexotica_backend/middleware/camelsnakecase_middleware.py:10-23 | lower-case letter runs joined by `_`, inner runs of two or more letters, survive snake→camel→snake |
| DigitCase.RoundTripSingleLetter | aquaticexotica_backend/aquaticexotica_backend/middleware/camelsnakecase_middleware.py:12-22 | a one-letter inner part breaks the round trip: "a_b_c" → "aBC" → "a_bc" |
| DigitCase.ExampleAddressLine1 | aquaticexotica_backend/aquaticexotica_backend/middleware/camelsnakecase_middleware.py:12-16 | "addressLine1" becomes "address_line_1" |
| DigitCase.ExampleUserId | aquaticexotica_backend/aquaticexotica_backend/middleware/camelsnakecase_middleware.py:12-16 | a run of capitals stays together: "userID" becomes "user_id" |
| DigitCase.ConvertKeysToSnakeCase | aquaticexotica_backend/aquaticexotica_backend/middleware/camelsnakecase_middleware.py:26-31 | scalars unchanged, lists keep their length, dict keys distinct and free of upper case |
| DigitCase.ConvertKeysToCamelCase | aquaticexotica_backend/aquaticexotica_backend/middleware/camelsnakecase_middleware.py:34-39 | scalars unchanged, lists keep their length, dict keys distinct and free of `_` |
| Text.LowerStr | aquaticexotica_backend/aquaticexotica_backend/middleware/camelsnakecase_middleware.py:16 | `str.lower()`: same length, each character lowered, no upper case left |
| Text.SplitJoin | aquaticexotica_backend/middleware/camelcase_middleware.py:11 | splitting a join of separator-free parts gives the parts back |
| Text.JoinSplit | aquaticexotica_backend/middleware/camelcase_middleware.py:11 | joining a split gives the string back |
| Text.Words | authapp/views.py:23 | `str.split()`: every piece is a non-empty run without whitespace |
| Text.WordsOfJoin | authapp/views.py:23 | `str.split()` of space-joined words gives the words |
| Text.Strip | core/models.py:124 | `str.strip()`: the result has no surrounding whitespace and only characters of the input; a stripped string is unchanged |
| Text.StripMeaning | core/models.py:124 | the result sits in the input with nothing but whitespace before and after it, and is empty exactly when the input is all whitespace |
| Text.SplitAppend | core/models.py:124 | splitting `a + "," + b` on "," gives the pieces of a followed by the pieces of b |
| Money.RoundHalfEven | core/models.py:119 | `round()` of an exact ratio: the nearest integer, ties to the even one |
| Money.RoundHalfEvenUnique | core/models.py:119 | any integer meeting that contract is the rounded value |
| Money.TruncDiv | core/serializers.py:78 | `int()` of an exact ratio: truncation toward zero |
| Money.TruncNearRound | core/serializers.py:78 | truncation and rounding differ by at most one |
| Money.DecimalString | payments/views.py:40 | `str()` of a two-place Decimal: digits, a point and exactly two decimals, never a `|` |
| Money.DecimalStringRoundTrip | aquaticexotica_backend/payments/views.py:34 | the amount can be read back from its text |
| Models.DiscountPercentage | core/models.py:116-120 | 0 unless compare_at_price is set, non-zero and above price; otherwise round-half-even of the exact percentage saved |
| Models.DiscountPercentageInRange | core/models.py:116-120 | with a non-negative price the discount lies in 0..100 |
| Models.GetTagsList | core/models.py:122-124 | every tag is non-empty, stripped and free of commas |
| Models.TagsRoundTrip | core/models.py:122-124 | clean tags joined with commas are read back in order |
| Models.NoTags | core/models.py:124 | an empty tags field gives no tags |
| Models.TagsOfPiece | core/models.py:122-124 | a field without a comma is one tag, its stripped text, or no tag when it is all whitespace |
| Models.TagsOfConcat | core/models.py:122-124 | the tags of `a,b` are the tags of a followed by the tags of b |
| Models.RepricingReachesCartNotOrder | core/models.py:183-185 | a product repricing changes the cart line total but not the order line total (core/models.py:234-237) |
| Models.CartTotalItems | core/models.py:159-161 | an empty cart has 0 items |
| Models.CartTotalPrice | core/models.py:163-165 | an empty cart costs 0 |
| Models.CartTotalsSingle | core/models.py:159-165 | a one-line cart counts that line's quantity and costs that line's total |
| Models.CartTotalsAppend | core/serializers.py:176-180 | both cart totals are sums: they add over concatenated carts |
| Models.CartTotalsBounds | core/models.py:159-165 | with quantities ≥ 1 the item count is at least the number of lines, and non-negative prices give a non-negative total |
| Models.SaveCategory | core/models.py:72-75 | a missing slug is filled from the name; a present one is kept |
| Models.SaveCategoryIdempotent | core/models.py:72-75 | saving twice is saving once |
| Models.SaveAddress | core/models.py:47-53 | the address is stored; other rows change only in is_default, and only rows of the same user when the new one is default |
| Models.SavedDefaultIsOnlyDefault | core/models.py:49-52 | after saving a default address it is its user's only default |
| Models.SaveAddressKeepsOneDefault | core/models.py:47-53 | saving keeps at most one default address per user |
| Models.AddressBook.Save | core/models.py:47-53 | the table after save is SaveAddress of the old table |
| Models.SaveImage | core/models.py:140-144 | the image is stored; other rows change only in is_primary, and only rows of the same product when the new one is primary |
| Models.SavedPrimaryIsOnlyPrimary | core/models.py:141-143 | after saving a primary image it is its product's only primary image |
| Models.SaveImageKeepsOnePrimary | core/models.py:140-144 | saving keeps at most one primary image per product |
| Models.ImageGallery.Save | core/models.py:140-144 | the table after save is SaveImage of the old table |
| Serializers.SerializerDiscount | core/serializers.py:76-79 | 0 unless compare_at_price is set and above price; otherwise the percentage truncated toward zero |
| Serializers.SerializerDiscountBelowModel | core/serializers.py:76-79 | the serializer shows the model's discount or one less |
| Serializers.SerializerDiscountDiffers | core/serializers.py:78 | at 1.00 against 3.00 the model gives 67 and the serializer 66 |
| Serializers.OrderItemLineTotal | core/serializers.py:125-126 | the stored price times the quantity, as OrderItem.total_price |
| Serializers.CartItemLineTotal | core/serializers.py:162-163 | the live product price times the quantity, as CartItem.total_price |
| Serializers.OrderGrandTotal | core/serializers.py:149-150 | total_amount plus shipping_cost, as Order.grand_total (core/models.py:215-217) |
| Serializers.RemoveKey | core/serializers.py:94 | `dict.pop(key, None)`: the key is gone and every other key keeps its value |
| Serializers.ToRepresentation | core/serializers.py:81-95 | a truthy pk keeps the representation whole; otherwise only "images" is removed |
| Serializers.RemoveKeyRestores | core/serializers.py:81-95 | the list entry is the detail entry with just the images member taken out |
| Signals.OrderCreatedNotes | core/signals.py:37-55 | exactly two ORDER_CREATED notes, to the order's user and to the global feed, both carrying order_id |
| Signals.StatusChangeNotes | core/signals.py:62-96 | two notes iff a stored order exists and its status differs, else none; recipients, old and new status in the data |
| Signals.LowStockNotes | core/signals.py:103-115 | one global LOW_STOCK note iff stock < 5, on every save |
| Signals.BackInStockNotes | core/signals.py:122-137 | nothing when stock is 0 |
| Signals.Served | core/signals.py:124-140 | a subscription is marked notified iff it already was or it is for this product and stock > 0 |
| Signals.MarkNotified | core/signals.py:124-140 | every subscription is served; nothing else changes |
| Signals.NotesForCount | core/signals.py:124-137 | one note per pending subscription of the product |
| Signals.PendingRows | core/signals.py:124 | exactly the subscriptions of the table that are for the product and not yet notified |
| Signals.NotesForRecipients | core/signals.py:124-137 | one note per pending subscription, in table order: the i-th note is the "Back in Stock" note for the i-th pending subscription's user |
| Signals.NotesForPerSubscription | core/signals.py:124-137 | every pending subscription of the product gets its user's note, and every note comes from such a subscription |
| Signals.NotesForCons | core/signals.py:124-125 | the table is newest first (ordering `-created_at`, core/models.py:249), so the newest pending subscription's note comes first |
| Signals.NoneAfterMarking | core/signals.py:139-140 | after marking, no subscription of the product is pending |
| Signals.BackInStockAtMostOnce | core/signals.py:124-140 | a second save emits no further back-in-stock note |
| Signals.BackInStockIgnoresActive | core/signals.py:123 | the handler looks at stock only, not is_active |
| Signals.BackInStockIgnoresInStock | core/models.py:111-113 | `is_in_stock` (stock > 0 and is_active) is not the handler's test: an inactive product with stock still notifies, and any note means the product would be in stock once active |
| Signals.SubscriptionTable.NotifyBackInStock | core/signals.py:122-140 | the loop appends BackInStockNotes of the old rows and leaves MarkNotified of the old rows |
| Signals.NotificationLog.Append | core/signals.py:40-55 | notes are appended to the log |
| Signals.ProductTable.Save | core/signals.py:102-140 | the product is stored, the low-stock note then the back-in-stock notes are logged, subscriptions are marked |
| Signals.OrderTable.Save | core/signals.py:36-96 | the order is stored; the status-change notes, then the creation notes for a new row, are logged |
| Views.AsRequestUser | core/views.py:28 | a caller is authenticated iff present, staff iff present and staff |
| Views.Filter | core/views.py:99-101 | exactly the kept products, in order, without new ids |
| Views.CategoryMatches | core/views.py:99-101 | the visible products sharing a category, excluding the product itself |
| Views.TagMatches | core/views.py:108-110 | all products sharing a tag whose id is not excluded |
| Views.TakeKeeps | core/views.py:103 | slicing keeps membership and distinct ids |
| Views.RelatedProducts | core/views.py:95-116 | at most 5, never the product, no duplicates; category matches first, tag matches appended only when fewer than 5 and the product has tags; complete when short |
| Views.SetStaff | core/views.py:34-35 | only the target's is_staff changes |
| Views.SetStaffIdempotent | core/views.py:33-35 | granting (or revoking) twice is doing it once |
| Views.SetStaffKeepsUnique | core/views.py:34-35 | username and email stay unique |
| Views.SelfPromotionAsWritten | core/views.py:28-36 | an authenticated non-staff caller passes the view's permission and can make itself staff |
| Views.UserAdminAllowedNarrows | core/views.py:28 | the staff-only gate admits only callers the role-based class admits, and refuses every non-staff caller |
| Views.MakeAdmin | core/views.py:30-36 | 403 unless staff; 404 for a missing user; else 200 with the message and is_staff set |
| Views.RevokeAdmin | core/views.py:38-46 | 403 unless staff; 404 for a missing user; 400 and no change on oneself; else 200 and is_staff cleared |
| Views.VisibleOrders | core/views.py:194-200 | staff see every order; others exactly their own |
| Views.VisibleOrdersNested | core/views.py:197-200 | a user's own view is part of the staff view |
| Views.UpdateStatus | core/views.py:208-217 | 403 unless authenticated staff; 404 outside the visible orders; 400 with no change on a missing or empty status; else the status is stored verbatim and the status-change notes are logged |
| Views.Contact | core/views.py:223-248 | 400 iff a field is missing or the email has no '@'; 200 otherwise, thanking iff the mail was delivered |
| Views.Subscribe | core/views.py:254-265 | 400 on a missing field or an email without '@'; 500 for an unknown product; else one un-notified subscription is added as the newest row, at the front of the table |
| Views.WithoutProduct | core/views.py:277-289 | exactly the subscriptions of other products remain |
| Views.Notify | core/views.py:269-292 | 403 with no change unless the caller is authenticated staff; 400 on a missing field; 200 with no change when nobody subscribed; 500 with no change when mail fails; else the product's subscriptions are deleted |
| Auth.SplitFullName | authapp/views.py:23 | None (unpacking error) iff more than two words; two words give both names; otherwise the whole value and "" |
| Auth.SplitTwoWords | authapp/views.py:23 | "first last" gives (first, last) |
| Auth.SplitOneWord | authapp/views.py:23 | one word gives (word, "") |
| Auth.SplitThreeWords | authapp/views.py:23 | three words fail to unpack |
| Auth.NormalizeEmail | authapp/views.py:164-166 | `normalize_email`, which `create_user` applies: an address without '@' is stored as it is |
| Auth.NormalizeEmailMeaning | authapp/views.py:164-166 | an address with '@' is stored stripped, with the part before its last '@' kept exactly, no capital after it, and differing from the stripped address only in case |
| Auth.EmailDomainCase | authapp/views.py:164-166 | a stripped `name@domain` is stored as name@ followed by the lower-cased domain |
| Auth.NormalEmailFixed | authapp/views.py:164-166 | a stripped address with no capital in its domain is stored unchanged |
| Auth.NormalizeEmailIdempotent | authapp/views.py:164-166 | normalising a normalised address changes nothing |
| Auth.CreateUser | authapp/views.py:36-37 | the insert succeeds iff the username is non-empty, the username is free and the normalised email is free; the row stores the normalised email; both columns stay unique |
| Auth.SignupGate | authapp/views.py:19-33 | the split fails first (500); then missing fields and a taken username give 400; username falls back to email; on success the names are the split's first name (or "") and last name |
| Auth.SignupWith | authapp/views.py:19-42 | 201 iff the gate passes and the normalised stored email is free; on 201 the new row holds the username, the split's first name (or "") and last name, and that email, and is not staff; otherwise nothing changes |
| Auth.SignupAsWritten | authapp/views.py:36-37 | every created account has email "" |
| Auth.SignupLocksOutAsWritten | authapp/views.py:36-42 | after one signup every later signup fails |
| Auth.Signup | authapp/views.py:19-42 | the created account carries the request's email, normalised |
| Auth.SignupAdds | authapp/views.py:36-39 | a successful signup adds one row with the username (or the email) and the normalised email, and changes no other row |
| Auth.SignupSucceeds | authapp/views.py:19-39 | a request with username, password, a one- or two-word full name and a non-empty email, whose username and normalised email are free, gets 201 |
| Auth.SignupsCoexist | authapp/views.py:19-42 | two valid signups with different usernames and different normalised emails both succeed |
| Auth.SignupOn | authapp/views.py:19-42 | the table after signup is Signup of the old table, and stays valid |
| Auth.ApplyProfile | authapp/views.py:119-129 | each supplied field (even "") overwrites; absent fields, username, email and flags are kept |
| Auth.ApplyProfileIdempotent | authapp/views.py:124-130 | applying the same update twice is applying it once; an empty update changes nothing |
| Auth.ApplyProfileKeepsUnique | authapp/views.py:124-130 | username and email stay unique |
| Auth.UpdateProfile | authapp/views.py:111-132 | 403 for an anonymous caller; else 200 and only the caller's row is updated |
| Auth.CreateFirstAdmin | authapp/views.py:142-177 | checks in order: secret (403), name split (500), existing staff (403), taken username (409); success creates a staff superuser named by the email and holding it normalised; conversely the right secret, a full name that is present and has at most two words, no staff, and a non-empty email free as username and, normalised, as email give 201 |
| Auth.FirstAdminOnlyOnce | authapp/views.py:155-157 | after one success every later call is refused |
| Auth.CreateFirstAdminOn | authapp/views.py:142-177 | the table after the call is CreateFirstAdmin of the old table, and stays valid |
| Payments.NewPayment | aquaticexotica_backend/payments/models.py:9-22 | a new payment has status "initiated" (one of the four choices), verified false and no response |
| Payments.CreatePayment | aquaticexotica_backend/payments/models.py:16-19 | the insert fails iff the txnid is taken, the order already has a payment, or the amount does not fit 10 digits with 2 decimals; it keeps the table invariants |
| Payments.TxnId | payments/views.py:23 | the txnid is 20 lower-case hex characters |
| Payments.RequestHashIsJoin | payments/views.py:34 | the request hash string is the `|`-join of key, txnid, amount, productinfo, firstname, email, ten empty fields and the salt |
| Payments.RequestHashSplits | aquaticexotica_backend/payments/views.py:34 | that string gives back its 17 fields, so it determines them |
| Payments.ReverseHashIsJoin | payments/views.py:66 | the reverse hash string is the `|`-join of salt, status, ten empty fields, email, firstname, productinfo, amount, txnid and key |
| Payments.ReverseHashSplits | aquaticexotica_backend/payments/views.py:66 | that string gives back its 18 fields |
| Payments.FirstnameOf | payments/views.py:26 | never empty; the user's first name when it has one |
| Payments.Initiate | payments/views.py:18-48 | 403 when anonymous; 500 and nothing written when the order is missing or not the caller's, or the insert fails; else the payment is created with the defaults for grand_total, and the hash is the lower-cased digest of the request string |
| Payments.InitiateOncePerOrder | aquaticexotica_backend/payments/models.py:17 | a second initiation for the same order fails and writes nothing |
| Payments.Values | payments/views.py:74 | a name has values iff it was posted |
| Payments.FormGet | payments/views.py:56-59 | `QueryDict.get`: None iff the name was not posted, else its last value |
| Payments.AsDict | payments/views.py:74 | `dict(request.POST)`: exactly the posted names, each with all its values |
| Payments.OrderStatusAfter | payments/views.py:78-82 | success gives processing, failure gives cancelled, anything else keeps the status |
| Payments.ExpectedHash | payments/views.py:66-67 | the expected hash is lower case |
| Payments.Webhook | payments/views.py:55-84 | 400 and no change for a missing or unknown txnid; 403 and no change when the hash is not exactly the expected one; 200 iff authentic with a status, then the payment takes the status verbatim, verified and the form, and the order is saved with the mapped status |
| Payments.UpperCaseHashRejected | payments/views.py:67-70 | a received hash with an upper-case letter is always refused |
| Payments.WebhookKeepsStore | aquaticexotica_backend/payments/models.py:16-19 | a callback keeps txnid keys, one payment per order and fitting amounts |
| Payments.WebhookIdempotent | payments/views.py:72-82 | replaying an accepted callback gives the same payment and order |
| Payments.LaterCallbackOverwrites | aquaticexotica_backend/payments/views.py:72-75 | a later authentic callback overwrites the status of a verified payment |
| Payments.InitiateOn | payments/views.py:22-35 | the payment table after the call is Initiate of the old table |
| Payments.WebhookOn | payments/views.py:61-84 | the payment table, order table and log after the call are Webhook's outcome, with the status-change notes of the order save |

## Left out

- The second copies under aquaticexotica_backend/ of payments/views.py (identical) and of IsAdminOrReadOnly in core/permissions.py (the same class): each is modelled once, and its row cites the top-level copy.
- SHA-512, uuid4, slugify and mail delivery are parameters, because they are foreign library calls.
- Password hashing, JWT tokens and `authenticate` are left out for the same reason. The sign-in, logout, me and admin-status views only issue tokens or echo fields, so they are left out too.
- The middleware `__call__` bodies are left out. They do byte decoding, `json.loads`/`dumps` and header changes; only the conversion functions are modelled.
- The ORM is replaced by maps and sequences. Querysets, `prefetch_related`, pagination, filters, admin configuration, URL tables, migrations, `AllowedHostMiddleware` and `auth_middleware` are left out as framework configuration.
- The `user_signup_notification` handler is left out. It uses `full_name`, which the user model does not define.
- The notifications' message texts are left out; their kinds, recipients, titles and data are modelled. Of those texts only the admin order-created message (core/signals.py:53) uses `full_name`; the others are plain f-strings of the order id, the statuses and the product name.
- core/signals.py:6-12 imports `AppNotification` and `NotificationType`, which core/models.py does not define, so the module as written fails to import. The handlers are modelled as evidently intended, with the notification record and kinds defined in Signals.
- Views.RelatedProducts: models the action over many-to-many `categories` and `tags` relations, as evidently intended. Product (core/models.py:88-89) has a single `category` foreign key and a `tags` CharField instead, so as written `product.categories.all()` at core/views.py:100 raises AttributeError and the action returns 500.
- core/views.py:14-15 imports `Tag` from core/models.py and `RoleBasedSafeWritePermission` from core/permissions.py, and neither file defines them, so the module as written fails to import. `RoleBasedSafeWritePermission` is defined only in aquaticexotica_backend/core/permissions.py; Permissions.RoleBasedSafeWrite, the make-admin finding and Views.MakeAdmin/Views.RevokeAdmin rely on that copy.
- Views.Subscribe: models the view as if a subscription could be created from an email. `StockNotification` (core/models.py:240-249) has user and product but no email field, so the `create(email=...)` call at core/views.py:264 raises TypeError and every valid request gets 500 as written.
- Views.Notify: models the view as if subscriptions had an email column. `values_list("email")` at core/views.py:278 names a field `StockNotification` does not have, so as written the check at line 279 raises FieldError and the call gets 500 once the gate and the field checks pass.
- Concurrency and transactions are left out. Each request is one sequential step, and the two-step default-address update is one step.
- Unicode is left out: `lower`, `title`, `strip` and `split` are ASCII only (with Python's ASCII whitespace, including \x1c-\x1f).
- Field maximum lengths (phone 20, status 20, txnid 64) are not checked.
- The id fields of request bodies are natural numbers or absent. A non-numeric id is not modelled: `get_object_or_404(User, pk=...)` (core/views.py:33, 41) raises ValueError on it, which Django turns into 500.
- The 500 responses model only the status. The error page's text is not modelled.
- The per-view 401/403 choice is fixed at 403. DRF answers an anonymous caller 401 when the authenticator sends a WWW-Authenticate header, which depends on settings that are not part of this model. This affects Views.UpdateStatus, Views.MakeAdmin, Views.RevokeAdmin, Views.Notify, Auth.UpdateProfile and Payments.Initiate.
- DigitCase.RoundTrip: holds only when every inner part has at least two letters. With a one-letter inner part the code does not round-trip, as DigitCase.RoundTripSingleLetter shows.
- Models.DiscountPercentage: computes on the exact rational, not on Decimal's 28-digit context.
- Payments.Webhook: the stored status is not checked against the four choices, as in the code (`save()` does not validate choices). The model records the status verbatim.
- Views.MakeAdmin and Views.RevokeAdmin use the corrected staff-only gate of the second finding below, not the role-based class the view declares.

## Findings

| source | as written | input that shows it | evidently intended | confidence | as-written member | corrected member |
|---|---|---|---|---|---|---|
| authapp/views.py:36-37 | `create_user` is called without the email, so every account stores email "" in the unique email column | two signups with different usernames and emails: the second collides on email "" and gets 500 | store the request's email, so that distinct users can sign up | not executed | Auth.SignupLocksOutAsWritten | Auth.SignupsCoexist |
| core/views.py:28-36 | make-admin is guarded only by RoleBasedSafeWritePermission, which admits a POST from any authenticated user | an authenticated non-staff user POSTs make-admin with its own id and becomes staff | only staff may grant or revoke admin rights | not executed | Views.SelfPromotionAsWritten | Views.UserAdminAllowedNarrows |
