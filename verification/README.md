# Property-management console: the data rules of its views

The console is a React front end over a REST store of rental properties
(`/inmuebles`). Most of it is markup. This project lifts out the small
data rules the components embed and states them as pure Dafny functions over
immutable records and sequences:

- the property table (`PropertyList.jsx`): the four-way row filter and the
  list update after a delete;
- the dashboard (`Home.jsx`): the statistics fold over the collection and
  the three featured properties;
- the detail view (`PropertyDetail.jsx`): the load sequence, the base64
  data-URL mapping of image payloads, the wrap-around gallery index, the
  star rating, and the review submit guard and reset;
- the create/edit form (`PropertyForm.jsx`): loading a record into the
  form, feature-list and image edits, and the submit pipeline: validate,
  create or update, upload, then patch the image list.

Every request to the store is an abstract `Reply<T>` parameter (`Ok(value)`
or `Failed`). Each handler that talks to the store also returns the
`Request`s it issued, in order: most return an `Effect` (the state left and
those requests), and the form submit a `SubmitOutcome`. So "no request is
made" is stated as `calls == []`. The gallery and form-edit handlers send
no request and return the new state alone.

Modules, one per file:

| file | module | contents |
|---|---|---|
| `wrappers.dfy` | `Wrappers` | `Option`, `Reply` |
| `text.dfy` | `Text` | `toLowerCase` (ASCII), `includes`, `trim` |
| `seqs.dfy` | `Seqs` | array `filter` by predicate and by index; subsequences |
| `records.dfy` | `Records` | property, contract, request, review, form payload; store endpoints as `Request` |
| `property_list.dfy` | `PropertyList` | table filter and delete |
| `home.dfy` | `Home` | dashboard statistics and featured list |
| `property_detail.dfy` | `PropertyDetail` | detail load, gallery, review form |
| `property_form.dfy` | `PropertyForm` | form load, edits, submit |

The detail view loads in sequence. `fetchPropertyData`
(`PropertyDetail.jsx:39-66`) fetches the record, then its rental requests,
then its reviews, one after the other. Any failure sets the single load
error (`LoadDetail`). Images arrive inside the record as base64 payloads.
The review form sends whatever rating the star widget holds, and the widget
can only assign 1..5 (`RatingStaysInRange`).

## Model

| member | source | states |
|---|---|---|
| `PropertyList.FilteredProperties` | src/components/PropertyList.jsx:66-81 | The shown rows are an order-preserving subsequence of the loaded properties, so there are never more of them than the total in the results count. A row is shown exactly when it passes all four checks, and every copy of a passing property is kept. |
| `PropertyList.Matches` | src/components/PropertyList.jsx:66-80 | With an empty search and the initial filters every property matches. An availability value other than "all", "available" and "rented" matches nothing. |
| `PropertyList.NoFilterShowsAll` | src/components/PropertyList.jsx:68-78 | With an empty search, availability "all" and no price bounds, every property is shown, in order. |
| `PropertyList.AvailabilityFilter` | src/components/PropertyList.jsx:71-74 | "available" shows only available properties and "rented" only rented ones. Any value other than those two and "all" shows nothing. |
| `PropertyList.PriceBounds` | src/components/PropertyList.jsx:77-78 | A set minimum bounds every shown price from below, and a set maximum bounds it from above. |
| `PropertyList.SearchTermOccurs` | src/components/PropertyList.jsx:68 | Every shown property's lower-cased location contains the lower-cased search term at some position. |
| `PropertyList.HandleDelete` | src/components/PropertyList.jsx:38-48 | Without confirmation nothing is sent. Otherwise one DELETE is sent. On success no property with that id remains, every other property remains in order with all its copies, and the error banner is untouched. On failure the list is kept and the error is set. |
| `Text.ContainsIffOccurs` | src/components/PropertyList.jsx:68 | The substring scan succeeds exactly when the term occurs at some position of the text. |
| `Text.Contains` | src/components/PropertyList.jsx:68 | The empty term is found in every text, and a term longer than the text is never found. |
| `Text.Trim` | src/components/PropertyDetail.jsx:107 | A string trims to "" exactly when all its characters are JavaScript whitespace. Otherwise the result starts and ends with a non-whitespace character. The result occurs in the string with only whitespace before and after it. |
| `Seqs.FilterIsSubsequence` | src/components/PropertyList.jsx:66-81 | An array filter keeps elements in their original order. |
| `Seqs.FilterMultiset` | src/components/PropertyList.jsx:66-81 | An array filter keeps every copy of an element that passes and no copy of one that fails. |
| `Seqs.RemoveAt` | src/components/PropertyForm.jsx:81 | Filtering out index `i` drops exactly that element: earlier ones stay in place, later ones shift down by one. An index outside the array changes nothing. |
| `Home.SumOf` | src/components/Home.jsx:30-37 | The left-to-right `reduce` of a per-record count has a value exactly when every record's count does; a missing nested list stands for the `TypeError` it raises. |
| `Home.SumActive` | src/components/Home.jsx:30-33 | The active-contract fold has a value exactly when every record has a contract list. |
| `Home.SumPending` | src/components/Home.jsx:34-37 | The pending-request fold has a value exactly when every record has a request list. |
| `Home.StatsOf` | src/components/Home.jsx:27-38 | The statistics exist exactly when every record has both nested lists. When they exist, the total is the collection length, and the available count is the number of available properties and never exceeds the total. |
| `Home.EmptyStats` | src/components/Home.jsx:9-38 | An empty collection has all-zero statistics, which equal the initial ones. |
| `Home.StatsAdditive` | src/components/Home.jsx:28-37 | The statistics of `xs + ys` are the component-wise sum of those of `xs` and `ys`. They exist exactly when both parts' statistics do. |
| `Home.EmptyPropertyAddsNothing` | src/components/Home.jsx:30-37 | A property with no contracts and no requests adds 0 to both nested sums. |
| `Home.Featured` | src/components/Home.jsx:25 | The featured list is the first min(3, n) properties, in order. |
| `Home.LoadDashboard` | src/components/Home.jsx:20-42 | One GET is sent. On failure the dashboard is unchanged. On success the featured list is replaced. The statistics are replaced too, unless a record lacks a nested list, in which case the fold throws and the old statistics stay. |
| `Home.LoadShowsCounts` | src/components/Home.jsx:27-29 | A load from the initial dashboard shows the collection length and the number of available properties. |
| `PropertyDetail.ToDataUrls` | src/components/PropertyDetail.jsx:45-47 | A non-empty image list keeps its length, and element k becomes the JPEG base64 data-URL prefix followed by payload k. An empty or missing list is left as it is. |
| `PropertyDetail.DataUrlsInjective` | src/components/PropertyDetail.jsx:46 | The mapping loses nothing: equal URL lists come from equal payload lists. |
| `PropertyDetail.NextIndex` | src/components/PropertyDetail.jsx:136-140 | With n > 0 images the index lands in [0, n): one further, or 0 after the last image. With no images it is unchanged. |
| `PropertyDetail.PrevIndex` | src/components/PropertyDetail.jsx:142-146 | With n > 0 images the index lands in [0, n): one back, or the last image before the first. With no images it is unchanged. |
| `PropertyDetail.PrevNextInverse` | src/components/PropertyDetail.jsx:136-146 | For a valid index, prev(next(i)) = i and next(prev(i)) = i. |
| `PropertyDetail.AdvanceWraps` | src/components/PropertyDetail.jsx:136-140 | Pressing "next" k times from a valid index i reaches (i + k) mod n, so n presses return to the start. |
| `PropertyDetail.NextImage` | src/components/PropertyDetail.jsx:136-140 | `nextImage` changes only the image index. Without images it changes nothing. With images the index stays within the image count and advances with wrap-around. |
| `PropertyDetail.PrevImage` | src/components/PropertyDetail.jsx:142-146 | `prevImage` changes only the image index. Without images it changes nothing. With images the index stays within the image count and steps back with wrap-around. |
| `PropertyDetail.LoadDetail` | src/components/PropertyDetail.jsx:39-66 | The record, the requests and the reviews are fetched in sequence. The first failure stops the sequence and sets the one load error. Data stored before the failure stays, and the stored record has data-URL images. Only full success clears the error. |
| `PropertyDetail.LoadedImageCount` | src/components/PropertyDetail.jsx:45-49 | After a load the gallery cycles through exactly as many images as the record has. |
| `PropertyDetail.FirstLoad` | src/components/PropertyDetail.jsx:17-30 | After the first load the gallery is on image 0, a valid index whenever the record has images. The review form keeps its initial values, with a rating of 5. |
| `PropertyDetail.StarClick` | src/components/PropertyDetail.jsx:417-421 | Clicking star i (0..4) sets the rating to i + 1, which lies in [1, 5]. Tenant and comment are unchanged. |
| `PropertyDetail.EditComment` | src/components/PropertyDetail.jsx:431 | Typing replaces the comment and nothing else in the form. |
| `PropertyDetail.SubmitReview` | src/components/PropertyDetail.jsx:104-134 | A blank comment is refused with no request and no change. Otherwise the review is created, then the reviews are re-fetched. Only on full success is the list replaced and the form reset to an empty comment and 5 stars, with the same tenant. Any failure sets the error and keeps the form. |
| `PropertyDetail.RatingStaysInRange` | src/components/PropertyDetail.jsx:417-421 | The rating starts in [1, 5]. Star clicks, comment edits and submits keep it there. Every review sent carries a rating in [1, 5]. |
| `PropertyForm.LoadForm` | src/components/PropertyForm.jsx:32-54 | One GET is sent. On success the fields take the record's values. An empty feature list becomes `[""]`, a missing image list becomes `[]`, the previews show the record's images, and the error clears. On failure only the error changes. |
| `PropertyForm.ChangeFeature` | src/components/PropertyForm.jsx:64-71 | Only feature i changes, and it becomes v. The length and all other fields stay. |
| `PropertyForm.ChangeFeatureRestores` | src/components/PropertyForm.jsx:64-71 | Writing a feature's previous value back restores the form. |
| `PropertyForm.AddFeature` | src/components/PropertyForm.jsx:73-78 | Exactly one "" is appended, and the earlier features are untouched. |
| `PropertyForm.RemoveFeature` | src/components/PropertyForm.jsx:80-86 | Only feature i is removed and the rest keep their order. An index outside the list changes nothing. |
| `PropertyForm.AddThenRemoveFeature` | src/components/PropertyForm.jsx:73-86 | Removing the field just added restores the form. |
| `PropertyForm.AddImages` | src/components/PropertyForm.jsx:101-112 | Choosing no files changes nothing. Otherwise the files are staged after the earlier ones and their previews follow the earlier previews. |
| `PropertyForm.RemoveImage` | src/components/PropertyForm.jsx:88-99 | Index i is removed independently from the existing images, the previews and the staged files. Each list shrinks by one exactly when it has an index i. |
| `PropertyForm.RemoveImageMisaligns` | src/components/PropertyForm.jsx:88-111 | Take one existing image and one staged file. Removing the file's preview (index 1) leaves the file staged, and the next submit still uploads it. |
| `PropertyForm.RemoveImageAligned` | src/components/PropertyForm.jsx:88-99 | Preview i is removed together with the one existing image or staged file it shows, so previews stay paired with images and files. |
| `PropertyForm.AddThenRemoveImage` | src/components/PropertyForm.jsx:88-111 | Choosing one file and then removing its preview through the corrected handler unstages that file and restores the form. |
| `PropertyForm.AlignedInvariant` | src/components/PropertyForm.jsx:41-112 | The preview/image/file pairing holds initially. It is kept by loading before any file is staged, by choosing files, by the corrected image removal and by feature edits. |
| `PropertyForm.SubmittedFeaturesMeaning` | src/components/PropertyForm.jsx:145 | The features sent are the non-blank form features, in their original order. No blank feature is sent, and every copy of a non-blank one is sent. |
| `PropertyForm.RequiredFilled` | src/components/PropertyForm.jsx:139 | The form passes the required-fields check exactly when the location is not empty and the price is neither an empty text nor a loaded 0. A fresh form fails it. |
| `PropertyForm.PayloadOf` | src/components/PropertyForm.jsx:145-151 | The body sent keeps the location, price, availability and images. Its features are the form's features in order, minus the blank ones, with every copy of a non-blank one kept. |
| `PropertyForm.Upload` | src/components/PropertyForm.jsx:114-131 | With no staged files there is no request and the result is the empty list. Otherwise one upload is sent and its reply is returned. |
| `PropertyForm.Submit` | src/components/PropertyForm.jsx:133-175 | A missing location or price gives the required-fields error and no request. Otherwise the create or update goes first. Upload and patch follow only when files are staged, and the patch sets the images to existing ++ uploaded. A failure stops the remaining steps with the one save error. The view navigates exactly on success. The form's fields never change. |
| `PropertyForm.SubmitAddressesTarget` | src/components/PropertyForm.jsx:153-165 | Every request after the write is an upload or a patch. It addresses the edited record, or the id the create returned. |
| `PropertyForm.SubmitFailureStops` | src/components/PropertyForm.jsx:153-171 | A failed write sends nothing further, sets the save error and does not navigate. |
| `PropertyForm.SubmitNeedsLocationAndPrice` | src/components/PropertyForm.jsx:139-143 | A submit with an empty location or an empty or zero price sets the required-fields error, sends no create or update or any other request, and does not navigate. |
| `PropertyForm.SubmitSendsNonBlankFeatures` | src/components/PropertyForm.jsx:145-151 | The write's payload carries exactly the non-blank features, in order, each as often as it appears in the form. |

## Findings

| source | as written | input that shows it | evidently intended | confidence | as-written member | corrected member |
|---|---|---|---|---|---|---|
| src/components/PropertyForm.jsx:88-98 | `removeImage(index)` removes `index` from the existing images, the previews and the staged files alike. The previews list the existing images first and then one preview per staged file. | One existing image `a`, one staged file `f`, previews `[a, blob:f]`. Removing preview 1 gives previews `[a]` and files `[f]`, and the next submit uploads `f`. Removing preview 0 would drop both `a` and `f`. | Remove the one image or file that preview `index` shows. | high; not executed | `PropertyForm.RemoveImageMisaligns` | `PropertyForm.RemoveImageAligned` |

## Left out

- `src/services/api.js`: the HTTP client, its logging interceptors and one-line wrappers are not modelled. Each request is a `Request` value, and its answer is a `Reply` parameter.
- `src/App.jsx`, `src/components/Navbar.jsx`: routing and navigation markup, with no data rules. They are not part of this model.
- All rendering, CSS, `window.confirm` (a `confirmed` parameter), `alert`, `navigate` (the `navigated` flag), `URL.createObjectURL` (the preview URLs are a parameter), `FormData`, and number and date formatting. These are UI or host APIs.
- Loading and submitting flags, React state-setter timing, and the event loop. Each handler is one state transition with its replies given.
- `PropertyList` `fetchProperties`, `handleSearchChange`, `handleFilterChange` and `toggleFilters`. They copy a reply or an input value into state with no rule. The model takes the properties, search term and `Filters` as given.
- `PropertyForm` `handleChange`: a generic setter by input name. The fields are taken as given.
- `PropertyDetail` `handleRentalRequest`, the detail view's `handleDelete` (delete then navigate), and the approve/reject buttons. These are outside the core; the buttons have no handler at all.
- JavaScript `Number(...)` coercion. Price bounds are `Option<int>`, with `None` for an empty input. The form's price is a `PriceInput` that is sent as entered.
- `PropertyForm.PriceFilled`: follows `!formData.precio` for an empty text and for a loaded 0. A text that `Number` would turn into `NaN` is not singled out.
- `Text.ToLower`: lower-cases ASCII letters only, whereas `toLowerCase` covers all of Unicode.
- `PropertyForm.ChangeFeature`: requires an index inside the list. The view only passes indices of rendered fields, and JavaScript would pad the array with holes for any other index.
- Record shapes: the model's `Property` always carries `ubicacion`, `precio` and `caracteristicas`. A record without `ubicacion` throws only in the list filter (`PropertyList.jsx:68`). One without `precio` throws while rendering the list, the dashboard and the detail view (`PropertyList.jsx:163`, `Home.jsx:106`, `PropertyDetail.jsx:222`). One without `caracteristicas` throws while rendering the list and the dashboard (`PropertyList.jsx:166`, `Home.jsx:108`). The detail view guards it (`PropertyDetail.jsx:228`), and the form catches it as a load error (next line). In the form, a missing `ubicacion` or `precio` throws nowhere. `imagenes` is guarded wherever it is read. `contratos` is guarded in the detail view but not in the dashboard fold (`Home.jsx:31`). `solicitudes_renta` is read only there, unguarded (`Home.jsx:35`). These three are the model's `Option`s, and a missing nested list makes the fold throw, which is `Home.StatsOf` returning `None`.
- `PropertyForm.LoadForm`: a record without `caracteristicas` makes `fetchProperty` throw at `PropertyForm.jsx:41`, inside its `try`. The catch then shows the load error and leaves the fields as they were, even though the GET succeeded. The model's `Property` always has the list, so this outcome is not modelled.
