# Comp-analysis admin front end, modelled in Dafny

This project models the client-side logic of a single-page admin application for real-estate
"comp analysis". Users search for a property, pick up to five comparable sold properties,
enter repair and MAO (maximum allowable offer) inputs, and start an analysis. The server
streams the analysis back as progress events. The valuation itself runs on the server. What
the client does, and what is modelled here, is this:

- **The streaming client** (`AnalysisStream`). One POST is sent. The body arrives as text
  chunks, which are framed on blank lines. Only `data:` frames are parsed. The first
  `complete` event stops the reading, and a leftover tail gets one last parse. The proofs show
  that reading chunk by chunk agrees with reading the whole body at once, that the way the text
  is cut into chunks is invisible, and that events arrive in order.
- **The analysis run** (`AnalysisRun`) of the property details page:
  - the property id;
  - the id generated from the address;
  - picking comparables under the cap of five;
  - validation and progress reset when a run starts;
  - the fold of step events into the progress record;
  - what the settled call leaves in the view and the store.
- **The progress screen** (`ProgressView`): the done/active/pending status of each of the
  twelve steps, the listed steps and their labels, and the current-step banner.
- **The address parser** (`AddressParts`): the comma/regular-expression parser that reads the
  city, state and ZIP code out of a one-line US address. Its three patterns are written out by
  hand.
- **Comparable selection** (`ComparableSelection`): the repair-cost total, the subject's
  square footage, the selection checks and the checkbox handler.
- **The store slice** (`PropertyCompsSlice`): its merging reducers and its reset.
- **Search** (`PropertySearchForm`, `PropertySearchView`, `SearchResults`):
  - the search form;
  - the search page's outcomes;
  - the "widen the search" helper and the parameters it sends.
- **Utilities**: the validators, formatters and avatar helpers (`Validators`, `Formatters`,
  `Avatar`), and the browser-storage helpers over an abstract key-value map (`LocalStorage`).
- **Small state machines**:
  - pagination (`DataTable`);
  - the image carousel (`ImageSlider`);
  - the route guard (`ProtectedRoute`);
  - password strength (`CreatePassword`);
  - the users form (`UsersView`);
  - the comp form (`MainView`);
  - the media pickers (`UploadMedia`, `MediaUpload`);
  - the MAO input editor (`MaoInputEditor`).

`JsValues` and `JsText` give the JavaScript semantics the code relies on:
- truthiness, `||`, `??` and object spread;
- `parseInt`, `parseFloat` and `String(n)`;
- `trim`, `split`, `join` and UTF-16 lengths.

They are defined once and shared by every module. `Wrappers` holds `Option` and `Result`.

Numbers are exact reals. Thrown exceptions are `Err` results. `JSON.parse` and
`JSON.stringify` are parameters, as are preview-URL makers and the answers of network calls.

## Behaviour worth knowing

The model follows the code in each of these points.

- **The comparable in work.** Every step event sets it from the event's `address`
  (PropertyDetailsView.jsx line 762), so a step event without an address clears it.
- **Cancelling a run.** Nothing aborts the stream. Cancel (PropertyDetailsView.jsx lines 879-893)
  only resets the page's local state, and the stream keeps running.
- **Completion.** The stream call resolves with the whole complete event
  (analysisStream.js lines 43 and 60), and the page picks `data` out of it.
- **A complete event in the leftover tail.** When the complete event sits in the text left after
  the last chunk, the call reports it to the progress callback, resolves with it, and then calls
  `resolve(null)`, which has no effect.
- **The leftover tail.** The tail is parsed as bare JSON, without removing a `data:` prefix.
- **Decoding.** Multi-byte decoding across chunks is the browser's `TextDecoder`. Chunks enter
  the model already decoded.

## Model

| member | source | states |
|---|---|---|
| Validators.ValidatePostalCode | src/utils/validators.js:1-8 | a falsy value gives "Postal code is required"; otherwise the value is accepted exactly when its text is five ASCII digits, and refused with "Postal code must be 5 digits" |
| Validators.PostalCodeOfText | src/utils/validators.js:3-4 | a typed ZIP code is accepted exactly when it is five digits, so "02134" passes |
| Validators.PostalCodeOfNumber | src/utils/validators.js:3-5 | the ZIP code 02134 held as the number 2134 is checked as the four-character text "2134" and refused |
| Validators.ValidateBeds | src/utils/validators.js:10-17 | a falsy value gives "Beds is required"; otherwise the value is accepted exactly when its leading-integer parse lies in 1..10 |
| Validators.ValidateBaths | src/utils/validators.js:19-26 | a falsy value gives "Baths is required"; otherwise the value is accepted exactly when its decimal parse lies in [1, 10] |
| Validators.ValidateSqft | src/utils/validators.js:28-35 | a falsy value gives "Square footage is required"; otherwise the value is accepted exactly when its integer parse lies in 100..10000 |
| Validators.CountsOfIntegers | src/utils/validators.js:10-35 | for whole numbers the beds check accepts exactly 1..10 and the square-footage check exactly 100..10000 |
| Validators.BedsReadLeadingInteger | src/utils/validators.js:12-13 | a text such as "3.5" or "3 beds" is read by its leading digit and accepted as that many beds |
| Validators.BathsOfNaturals | src/utils/validators.js:19-26 | for natural numbers the baths check accepts exactly 1 to 10 |
| Validators.ValidatePriceRange | src/utils/validators.js:37-46 | the range errs, with "Max price must be greater than min price", exactly when both prices are truthy, both parse, and the maximum is not above the minimum |
| Validators.PriceRangeOfNaturals | src/utils/validators.js:37-46 | for two positive whole prices the range errs exactly when max <= min |
| Validators.MissingPriceNeverErrs | src/utils/validators.js:38 | a missing minimum or an empty maximum never produces a range error |
| Validators.ValidateSearchForm | src/utils/validators.js:48-75 | city and state entries are present exactly when the trimmed value is empty or missing; every other entry is exactly its validator's message; a city or state that is neither text nor null/undefined makes `trim` throw |
| Validators.EmptyFormLacksOnlyPriceRange | src/utils/validators.js:48-75 | a form whose filters are all empty fails every check except the price range |
| Validators.StoreStartsEmpty | src/features/propertyComps/rtk/propertyCompsSlice.js:7-18 | the store's starting search filters are all the empty string, so they form such an empty form |
| Validators.FilledFormHasNoErrors | src/utils/validators.js:48-75 | a form with city, state, a five-digit ZIP code and counts in range, and no minimum price, has no errors at all |
| Avatar.InitialOf | src/utils/avatar.js:13-20 | a missing or blank field gives no initial; a non-blank text gives the upper-cased first character of its trimmed form, which is one UTF-16 unit exactly when that character lies below U+10000; a truthy non-text value makes `trim` throw |
| Avatar.UserInitial | src/utils/avatar.js:12-22 | the initial is one character, one UTF-16 unit exactly when it lies below U+10000: from the name when it is not blank, else from the e-mail, else "U" |
| Avatar.PaddedNameInitial | src/utils/avatar.js:13-15 | the name "  jane doe" gives "J" whatever the e-mail |
| Avatar.MissingNamesGiveDefault | src/utils/avatar.js:21 | with neither name nor e-mail, including no user at all, the initial is "U" |
| Avatar.BlankNameUsesEmail | src/utils/avatar.js:13-19 | a whitespace-only name falls through to the e-mail's first character |
| Avatar.AvatarColor | src/utils/avatar.js:1-29 | the colour is always one of the eight palette entries: the first for an empty letter, otherwise the entry at the first code unit modulo 8 |
| Avatar.ColorFollowsFirstCodeUnit | src/utils/avatar.js:27-28 | only the first character decides the colour, and characters whose codes differ by a multiple of 8 share one |
| Avatar.DefaultInitialColor | src/utils/avatar.js:21-28 | the default initial "U" (code 85) is drawn with the sixth entry, indigo |
| ProtectedRoute.Guard | src/components/ProtectedRoute.jsx:3-16 | a falsy user is redirected to redirectUrl ("/sign-in" by default); a user whose role is outside a non-empty role list goes to "/create-new-comp"; an admitted user sees the children when given, else the nested outlet |
| ProtectedRoute.Admitted | src/components/ProtectedRoute.jsx:9-15 | only a truthy user is admitted; with no roles listed every truthy user is; with roles listed, a truthy user is admitted exactly when the role list includes their role |
| ProtectedRoute.RedirectsExactlyTheNotAdmitted | src/components/ProtectedRoute.jsx:9-15 | the guard redirects exactly the users it does not admit |
| ProtectedRoute.MoreRolesAdmitMore | src/components/ProtectedRoute.jsx:7-11 | an empty role list admits every truthy user, and adding roles to a non-empty list never turns an admitted user away |
| ProtectedRoute.AdminOnlyRoute | src/components/ProtectedRoute.jsx:11-13 | on an admin-only route an "admin" user passes and a "user" user is sent to "/create-new-comp" |
| Formatters.FormatCurrency | src/utils/formatters.js:1-4 | the result is the dash exactly when the value is falsy and not 0; otherwise it is "$" followed by the locale text of the value |
| Formatters.CurrencyOfMissing | src/utils/formatters.js:2 | zero is shown as an amount, while null, undefined, NaN and "" show the dash |
| Formatters.ColorsShareBand | src/utils/formatters.js:24-36 | text and background colour both come from the same band of the score (>= 80, >= 60, >= 40, else red), so they always match |
| Formatters.DealScoreColor | src/utils/formatters.js:24-29 | a score of at least 80 is green, at least 60 yellow, at least 40 orange, and anything lower or not a number red, comparing after number conversion |
| Formatters.DealScoreBgColor | src/utils/formatters.js:31-36 | the same four bands with the background classes |
| Formatters.BandIsMonotone | src/utils/formatters.js:24-36 | a higher score never falls in a lower band, and a score that is not a number gets the red band |
| Formatters.RecommendationLabel | src/utils/formatters.js:38-46 | a known key gets its label and any other input is returned unchanged |
| Formatters.KnownLabels | src/utils/formatters.js:39-44 | exactly the four keys strong-deal, good-negotiate, weak-lowball and pass have labels, and each label differs from its key |
| Formatters.RecommendationVariant | src/utils/formatters.js:48-53 | the badge is red exactly when the input is not one of the three named recommendations, so "pass" is red too |
| Formatters.FirstTruthy | src/utils/formatters.js:63-75 | the position found is the first truthy candidate, and nothing is found only when no candidate is truthy |
| Formatters.ImageSources | src/utils/formatters.js:63-69 | the candidates are images, imageUrls, photos, photoUrls, image and photo, in that order |
| Formatters.KeepImages | src/utils/formatters.js:88-94 | the filter never grows the list, and everything it keeps is a string whose trimmed form starts with http://, https:// or data: |
| Formatters.KeepImagesIsOrderedSelection | src/utils/formatters.js:88-94 | the filter's output is an order-preserving subsequence of its input that holds exactly the input's image URLs |
| Formatters.KeepImagesIsIdempotent | src/utils/formatters.js:88-94 | filtering twice gives the same list as filtering once |
| Formatters.PropertyImages | src/utils/formatters.js:59-95 | a missing property, or one with no truthy source, gives [], and every returned element is an image URL |
| Formatters.ImagesComeFromFirstSource | src/utils/formatters.js:72-94 | only the first truthy source is used: a string becomes a singleton before filtering, an array is filtered to a subsequence of itself, and any other value gives [] even when later sources exist |
| Formatters.AsNumber | src/utils/formatters.js:108-123 | a number is returned unchanged, and anything else becomes its decimal parse or NaN |
| Formatters.PropertyPrice | src/utils/formatters.js:101-112 | a missing property gives null, and any other result is a number or NaN |
| Formatters.PropertySalePrice | src/utils/formatters.js:117-127 | a missing property gives null, and any other result is a number or NaN |
| Formatters.PriceIsFirstTruthyField | src/utils/formatters.js:105-126 | the first truthy field gives the price; with none, the result is null exactly when the last field is null or undefined, so a zero there is kept |
| Formatters.NumericPriceIsKept | src/utils/formatters.js:105-108 | a non-zero numeric price is returned unchanged, whatever the other fields hold |
| Formatters.TextPriceIsParsed | src/utils/formatters.js:105-108 | a price stored as a digit string is returned as the number those digits spell |
| CreatePassword.PasswordStrength | src/features/auth/views/CreatePasswordView.jsx:19-24 | the strength is none exactly for the empty password, Weak below 6 UTF-16 units, Medium for 6 to 9, and Strong from 10 on |
| CreatePassword.StrengthIsMonotone | src/features/auth/views/CreatePasswordView.jsx:19-24 | a longer password is never rated weaker |
| CreatePassword.PasswordsDoNotMatch | src/features/auth/views/CreatePasswordView.jsx:27-28 | the flag holds exactly when the confirmation is non-empty and differs from the password |
| CreatePassword.MismatchNeedsADifferentConfirmation | src/features/auth/views/CreatePasswordView.jsx:27-28 | an empty or equal confirmation never shows the flag, and when both fields are filled the flag is symmetric |
| CreatePassword.StrengthLabel | src/features/auth/views/CreatePasswordView.jsx:68-80 | the label is shown exactly for a non-empty password, names its strength, and is red exactly when weak and green exactly when strong |
| LocalStorage.Stored | src/utils/localStorage.js:44-45 | an item counts as stored exactly when it is present and not the empty string, and then its text is what is read |
| LocalStorage.SaveSearchResults | src/utils/localStorage.js:16-36 | only a non-empty array is written; the filters are written only when truthy; no other key changes |
| LocalStorage.LoadSearchResults | src/utils/localStorage.js:42-54 | null when nothing is stored, when the text does not parse, or when it parses to null (reading its length throws and the catch returns null); otherwise the parsed value |
| LocalStorage.LoadSearchFilters | src/utils/localStorage.js:60-70 | null when nothing is stored or the text does not parse; otherwise the parsed value |
| LocalStorage.ClearSearchResults | src/utils/localStorage.js:75-83 | the results and the filters are removed, and every other key is kept as it was |
| LocalStorage.HasSearchResults | src/utils/localStorage.js:133-140 | any stored item counts, so a list that loading would find is always reported; only an absent key reports nothing |
| LocalStorage.SaveSelectedProperty | src/utils/localStorage.js:89-100 | a falsy property writes nothing; a truthy one is written under the selected-property key |
| LocalStorage.LoadSelectedProperty | src/utils/localStorage.js:106-116 | null when nothing is stored or the text does not parse; otherwise the parsed value |
| LocalStorage.ClearSelectedProperty | src/utils/localStorage.js:121-127 | only the selected property is removed |
| LocalStorage.SelectedPropertyRoundTrip | src/utils/localStorage.js:89-116 | saving a property and loading it gives it back, and the stored search results are unaffected |
| LocalStorage.SearchResultsRoundTrip | src/utils/localStorage.js:16-70 | saved results and filters load back as saved, and results are then reported present |
| LocalStorage.ClearRemovesResults | src/utils/localStorage.js:75-83 | after clearing, no results are reported, results and filters load as null, and the selected property is unchanged |
| LocalStorage.DefaultMatch | src/utils/localStorage.js:155-161 | an entry matches exactly when _id, zpid or id is truthy on both sides and strictly equal; a null entry, or a null update against an entry with a truthy id field, throws |
| LocalStorage.Matches | src/utils/localStorage.js:163-167 | the match results are collected per entry in order, and the whole update fails when some match throws |
| LocalStorage.MergeMatched | src/utils/localStorage.js:166-173 | the list keeps its length and order; matching entries become the merge with the update, and the others are unchanged |
| LocalStorage.UpdateInSearchResults | src/utils/localStorage.js:147-189 | with no stored results the store is unchanged and false is returned; on false nothing is written; on true only the results key changes |
| LocalStorage.UpdateRewritesMatches | src/utils/localStorage.js:164-184 | when the list parses and every match runs, the flag is true exactly when some entry matched, and then the merged list is written back |
| LocalStorage.MergedEntry | src/utils/localStorage.js:170 | a matched entry takes the update's fields and keeps its other own fields |
| LocalStorage.DefaultMatchSurvivesMerge | src/utils/localStorage.js:155-170 | under the default match, a merged entry still matches, and merging it again changes nothing |
| LocalStorage.MergeMatchedTwice | src/utils/localStorage.js:166-173 | applying the merge to the merged list finds the same matches and produces the same list |
| LocalStorage.MatchesOfAll | src/utils/localStorage.js:166-167 | when every entry's match runs, the collected results are exactly those answers, in order |
| LocalStorage.UpdateIsIdempotent | src/utils/localStorage.js:147-189 | repeating a successful update with the default match leaves the store as the first update left it |
| DataTable.TotalPages | src/components/DataTable.jsx:3-6 | the page count is the least number of pages of pageSize rows that hold all the rows, and it is 0 exactly for no data |
| DataTable.Slice | src/components/DataTable.jsx:8 | slicing within bounds gives exactly those rows, never more than the bounds span, and nothing from past the end |
| DataTable.PageRows | src/components/DataTable.jsx:7-8 | a page shows at most pageSize rows; it has rows when its start lies inside the data and none when it lies past the end |
| DataTable.PageRowIsDataRow | src/components/DataTable.jsx:7-8 | row i of page p is row (p - 1) * pageSize + i of the data |
| DataTable.PagesWithRows | src/components/DataTable.jsx:6-28 | a page has rows exactly when it is within the page count; a later page shows "No data available" |
| DataTable.FirstPagesArePrefix | src/components/DataTable.jsx:6-8 | pages 1..n together are the first n * pageSize rows of the data, or all of them |
| DataTable.PagesCoverData | src/components/DataTable.jsx:6-8 | concatenating pages 1..totalPages gives back the data in order |
| DataTable.Paginate | src/components/DataTable.jsx:6-8 | there are totalPages pages, each holding 1..pageSize rows, and together they give back the data |
| DataTable.PagerShown | src/components/DataTable.jsx:82 | the pager is shown exactly when there are more rows than fit on one page |
| DataTable.Prev | src/components/DataTable.jsx:87-93 | Prev is disabled on page 1 and otherwise moves one page back |
| DataTable.Next | src/components/DataTable.jsx:95-101 | Next is disabled on the last page and otherwise moves one page on |
| DataTable.ButtonsKeepPageInRange | src/components/DataTable.jsx:88-97 | from any page in 1..totalPages both buttons keep the page in that range |
| DataTable.PrevUndoesNext | src/components/DataTable.jsx:88-97 | below the last page, Next followed by Prev comes back to the same page |
| DataTable.NextPastTheEnd | src/components/DataTable.jsx:96-97 | when the page is already past the last one, Next stays enabled and moves further away, because the disabled check compares for equality only |
| ImageSlider.NextIndex | src/components/propertyComps/ImageSlider.jsx:23-28 | goToNext does nothing for a missing or empty list, and otherwise keeps a valid index within [0, n) |
| ImageSlider.PreviousIndex | src/components/propertyComps/ImageSlider.jsx:16-21 | goToPrevious does nothing for a missing or empty list, and otherwise keeps a valid index within [0, n) |
| ImageSlider.ArrowsMoveModulo | src/components/propertyComps/ImageSlider.jsx:16-28 | on n slides next goes to (i + 1) mod n, wrapping from the last to 0, and previous goes to (i - 1) mod n, wrapping from 0 to the last |
| ImageSlider.ArrowsAreInverse | src/components/propertyComps/ImageSlider.jsx:16-28 | previous undoes next and next undoes previous |
| ImageSlider.NextTimesIsModulo | src/components/propertyComps/ImageSlider.jsx:23-28 | k presses of next land k slides on, modulo the number of slides |
| ImageSlider.FullTurnReturns | src/components/propertyComps/ImageSlider.jsx:23-28 | n presses of next on n slides return to the starting slide |
| ImageSlider.TouchStart | src/components/propertyComps/ImageSlider.jsx:33-36 | a new touch records its start and clears the last end position |
| ImageSlider.TouchMove | src/components/propertyComps/ImageSlider.jsx:38-40 | a move records only the end position |
| ImageSlider.SwipeOf | src/components/propertyComps/ImageSlider.jsx:31-55 | a falsy start or end, 0 included, cancels the swipe; otherwise a distance above 50 is a left swipe and one below -50 a right swipe |
| ImageSlider.TouchEnd | src/components/propertyComps/ImageSlider.jsx:42-55 | only the slide can change; with both positions known, a drag of more than 50 pixels leftwards shows the next slide and more than 50 rightwards the previous one; otherwise the slide stays |
| ImageSlider.SwipeExamples | src/components/propertyComps/ImageSlider.jsx:42-55 | a drag from 300 to 200 moves on one slide, while a touch starting at x = 0 is ignored however long it is |
| ImageSlider.TouchEndKeepsIndexInRange | src/components/propertyComps/ImageSlider.jsx:42-55 | a finished gesture keeps the slide within the list |
| ImageSlider.ImagesChanged | src/components/propertyComps/ImageSlider.jsx:11-14 | a new image list resets the slide to 0 and empties the loaded set |
| ImageSlider.GoToSlide | src/components/propertyComps/ImageSlider.jsx:77-79 | a dot shows its own slide |
| ImageSlider.ImageLoaded | src/components/propertyComps/ImageSlider.jsx:81-83 | a loaded image adds its slide to the loaded set and changes nothing else |
| ImageSlider.Counter | src/components/propertyComps/ImageSlider.jsx:136-175 | the arrows and the counter appear exactly for more than one slide, and the counter reads index + 1 of n |
| ImageSlider.ResetThenBrowse | src/components/propertyComps/ImageSlider.jsx:11-28 | after a new list, any number of next presses shows a slide of that list |
| UsersView.SaveRequest | src/features/users/views/UsersView.jsx:41-66 | a save is refused exactly when first name, last name or e-mail is empty; with a truthy editing id it edits that user, otherwise it creates one with the whole form; both send "first last" as the name |
| UsersView.FullName | src/features/users/views/UsersView.jsx:53 | the name sent is the first name, one space, then the last name |
| UsersView.Save | src/features/users/views/UsersView.jsx:41-81 | a refused form or a failed request leaves the page unchanged; a successful save closes the modal, forgets the edited user and resets the form |
| UsersView.SaveResetsForm | src/features/users/views/UsersView.jsx:68-76 | after a successful save the form has empty fields, password "12345678" and an empty phone, and saving it again is refused |
| UsersView.EditForm | src/features/users/views/UsersView.jsx:101-108 | an edit pre-fills the first name with the text before the first space and the last name with the second space-separated token or "", and takes the e-mail and the placeholder password "...." |
| UsersView.Edit | src/features/users/views/UsersView.jsx:101-110 | an edit opens the modal on that user's id with the pre-filled form |
| UsersView.EditThenSaveKeepsTwoWordName | src/features/users/views/UsersView.jsx:53-105 | editing a user named "A B" and saving sends back "A B" to the same user |
| UsersView.EditThenSaveDropsThirdWord | src/features/users/views/UsersView.jsx:53-105 | editing a user named "A B C" and saving sends back "A B": the third token is lost |
| UsersView.OneWordNameCannotBeSaved | src/features/users/views/UsersView.jsx:41-110 | a one-word name leaves the last name empty, so saving the edit is refused |
| MainView.HandleChange | src/features/comp/views/MainView.jsx:33-35 | the named field takes the typed text and nothing else changes |
| MainView.ToggleAmenity | src/features/comp/views/MainView.jsx:37-44 | an unticked amenity is appended at the end, and a ticked one is filtered out with every copy; the other fields are untouched |
| MainView.ToggleFlipsOnlyItsAmenity | src/features/comp/views/MainView.jsx:37-44 | a toggle flips the amenity's membership and leaves every other amenity's count unchanged |
| MainView.ToggleTwice | src/features/comp/views/MainView.jsx:37-44 | toggling twice restores membership; an unticked amenity gives back the same form, and a ticked one moves to the end |
| MainView.TicksAppendInOrder | src/features/comp/views/MainView.jsx:42 | ticking distinct unticked amenities one after another appends them in click order |
| UploadMedia.EntriesOf | src/components/shared/UploadMedia.jsx:11-14 | one entry per file, in order, each with that file's preview |
| UploadMedia.AddFiles | src/components/shared/UploadMedia.jsx:10-17 | the existing entries are kept as a prefix, and the new files' entries follow them in the order chosen |
| UploadMedia.DeleteAt | src/components/shared/UploadMedia.jsx:32-34 | deleting removes exactly the entry at the index, and the rest keep their order; an index past the end removes nothing |
| UploadMedia.ReplaceAt | src/components/shared/UploadMedia.jsx:36-47 | with no chosen file nothing changes; otherwise the length is kept, and only the entry at the index takes the new file and preview |
| UploadMedia.ReplaceThenDelete | src/components/shared/UploadMedia.jsx:32-47 | deleting an entry just replaced gives the same list as deleting the original entry |
| UploadMedia.AddThenDeleteNew | src/components/shared/UploadMedia.jsx:10-34 | deleting one of the files just added is the same as never adding that file |
| UploadMedia.DeleteRemovesOne | src/components/shared/UploadMedia.jsx:32-34 | deleting removes exactly one occurrence of the entry's value |
| MediaUpload.HandleAddFiles | src/components/shared/MediaUpload.jsx:11-19 | the update carries the current images, or [] when missing, followed by one entry per new file |
| MediaUpload.HandleReplace | src/components/shared/MediaUpload.jsx:21-30 | with no chosen file there is no update; otherwise the length is kept, and only the entry at the index changes |
| MediaUpload.ReplaceAgreesWithPicker | src/components/shared/MediaUpload.jsx:25-27 | on a shown entry this replace gives the same list as the stand-alone picker's indexed write |
| MediaUpload.ReplacePastTheEnd | src/components/shared/MediaUpload.jsx:25-28 | a replace aimed past the end still sends the list, unchanged |
| MediaUpload.AskDelete | src/components/shared/MediaUpload.jsx:101-103 | a delete button records its index and opens the confirmation |
| MediaUpload.HandleDelete | src/components/shared/MediaUpload.jsx:32-36 | the update drops the chosen entry, or nothing while no index is chosen, and the confirmation closes |
| MediaUpload.AskThenConfirmDeletes | src/components/shared/MediaUpload.jsx:32-36 | asking to delete a shown entry and confirming removes exactly that entry and closes the confirmation |
| PropertyCompsSlice.Reduce | src/features/propertyComps/rtk/propertyCompsSlice.js:59-134 | setSelectedProperty and setSelectedCompIds install their payload, and the reset, written with its own literals, leaves the MAO inputs as they were |
| PropertyCompsSlice.OnlyTargetChanges | src/features/propertyComps/rtk/propertyCompsSlice.js:59-95 | every set* reducer leaves every top-level field other than its own unchanged |
| PropertyCompsSlice.MergeSpreads | src/features/propertyComps/rtk/propertyCompsSlice.js:60-92 | each merging reducer spreads its payload over its own sub-record, overwriting exactly the payload's keys and keeping the rest |
| PropertyCompsSlice.ReplaceInstalls | src/features/propertyComps/rtk/propertyCompsSlice.js:69-95 | setSelectedProperty and setSelectedCompIds replace their field wholesale |
| PropertyCompsSlice.ReduceIsIdempotent | src/features/propertyComps/rtk/propertyCompsSlice.js:59-134 | dispatching the same action twice gives the same state as dispatching it once |
| PropertyCompsSlice.ResetKeepsMaoInputs | src/features/propertyComps/rtk/propertyCompsSlice.js:5-134 | the reset's literals agree with the initial state's: after a reset every field equals its initial value, except maoInputs, which keeps the value it had |
| PropertyCompsSlice.ResetOfInitial | src/features/propertyComps/rtk/propertyCompsSlice.js:5-134 | resetting the initial state changes nothing: the reset's literals and the initial state's literals describe the same state |
| MaoInputEditor.InitialInputs | src/components/propertyComps/MAOInputEditor.jsx:8-14 | the editor starts with exactly the four amounts and the rule; each amount is the current value when truthy and 0 otherwise, and the rule is the current rule when truthy and "70%" otherwise |
| MaoInputEditor.StoreInputsAreShownAsIs | src/components/propertyComps/MAOInputEditor.jsx:8-14 | inputs shaped as the store keeps them open unchanged, since a zero amount falls back to the same zero |
| MaoInputEditor.MissingInputsStartAtDefaults | src/components/propertyComps/MAOInputEditor.jsx:8-14 | without current inputs the editor starts from the store's initial MAO inputs |
| MaoInputEditor.AmountOf | src/components/propertyComps/MAOInputEditor.jsx:20 | a typed amount is stored as its decimal parse, or 0 when it does not parse |
| MaoInputEditor.HandleChange | src/components/propertyComps/MAOInputEditor.jsx:16-22 | the rule is stored as typed and any other field as its parsed amount; no other field changes |
| MaoInputEditor.TypedAmounts | src/components/propertyComps/MAOInputEditor.jsx:20 | typed digits are stored as their value, and clearing a field stores 0 |
| MaoInputEditor.HandleSubmit | src/components/propertyComps/MAOInputEditor.jsx:24-29 | the current inputs go to onRecalculate exactly when it is given, and the editor always closes |
| MaoInputEditor.UneditedSubmitKeepsStore | src/components/propertyComps/MAOInputEditor.jsx:8-29 | opening the editor on the store's inputs and submitting without edits, then merging the result into the store, leaves the store unchanged |
| PropertySearchForm.AsObject | src/components/propertyComps/PropertySearchForm.jsx:36 | the dispatched payload carries exactly the form's fields, as text |
| PropertySearchForm.HandleChange | src/components/propertyComps/PropertySearchForm.jsx:14-21 | typing updates only the named field; a shown error for that field is cleared to null, and the other errors are untouched |
| PropertySearchForm.HandleSubmit | src/components/propertyComps/PropertySearchForm.jsx:23-42 | a blank address sets only "Address is required" and neither dispatches nor calls onSubmit; otherwise the errors are cleared, the form is dispatched as search filters, and it is passed to onSubmit when that is given |
| PropertySearchForm.SubmitGoesThroughIff | src/components/propertyComps/PropertySearchForm.jsx:27-36 | a submit dispatches exactly when the address has a character other than whitespace, and a refused submit shows an address error |
| PropertySearchForm.InitialIsRefused | src/components/propertyComps/PropertySearchForm.jsx:9-30 | submitting the untouched form is refused with the address message |
| PropertySearchForm.RefusedThenTypedClearsMessage | src/components/propertyComps/PropertySearchForm.jsx:17-30 | after a refused submit, typing into the address clears its message and keeps the other fields |
| PropertySearchForm.SubmitFilesFilters | src/components/propertyComps/PropertySearchForm.jsx:36 | a submit that goes through files the typed address in the store's filters, keeps every filter the form does not carry, and leaves results and MAO inputs alone |
| PropertySearchForm.TypeThenSubmit | src/components/propertyComps/PropertySearchForm.jsx:9-42 | typing a non-blank address into the fresh form and submitting changes exactly the store's address filter |
| PropertySearchView.ResultsPayload | src/features/propertyComps/views/PropertySearchView.jsx:44-62 | every results payload the page files has exactly the five fields of the store's results record, with the given values |
| PropertySearchView.FailureMessage | src/features/propertyComps/views/PropertySearchView.jsx:129-149 | the filed error is always truthy: the error's data.message, else data.error, else "Search failed"; a null response throws a TypeError without data and so gets "Search failed" |
| PropertySearchView.Settle | src/features/propertyComps/views/PropertySearchView.jsx:93-155 | the final payload has the five result fields with loading false; the shown list is the found property alone exactly when the response has success and property, and empty otherwise; count is the list's length; noResults is set exactly when nothing was found; an error is filed exactly when the lookup failed |
| PropertySearchView.LoadingIsOverwritten | src/features/propertyComps/views/PropertySearchView.jsx:43-51 | the loading payload filed first is wholly overwritten by the payload that follows it |
| PropertySearchView.Search | src/features/propertyComps/views/PropertySearchView.jsx:40-156 | the filters are remembered; a blank address files the "Address is required" payload and leaves the shown results alone; otherwise the lookup's settled payload is filed and its list is shown |
| PropertySearchView.AdjustedSearch | src/features/propertyComps/views/PropertySearchView.jsx:168-179 | the adjusted properties are shown and the remembered filters are kept |
| PropertySearchView.SearchFilesOnlyResults | src/features/propertyComps/views/PropertySearchView.jsx:40-156 | a search changes only the store's search results, which end with loading false, and keeps the results record's other fields |
| PropertySearchView.SearchSettles | src/features/propertyComps/views/PropertySearchView.jsx:93-155 | after a search past the address check, the store's list is the shown list and its count is that list's length |
| PropertySearchView.SearchOutcome | src/features/propertyComps/views/PropertySearchView.jsx:95-190 | after a search past the address check, the results panel is shown exactly when the lookup found the property, and then it is that single property; noResults is set otherwise, and an error only when the lookup failed |
| PropertySearchView.BlankAddressSkipsLookup | src/features/propertyComps/views/PropertySearchView.jsx:53-65 | with a blank address the lookup's answer makes no difference; the store records the error, noResults and an empty list, and the shown results stay |
| PropertySearchView.AdjustedSearchSettles | src/features/propertyComps/views/PropertySearchView.jsx:168-190 | an adjusted search files count = the number of properties with noResults false, and the panel is shown exactly when there is at least one |
| PropertySearchView.Mount | src/features/propertyComps/views/PropertySearchView.jsx:33-38 | on arrival the store's properties are shown when they are a non-empty list, and nothing else changes |
| PropertySearchView.ReturnShowsSameResults | src/features/propertyComps/views/PropertySearchView.jsx:29-38 | coming back to a page left settled shows the same results again |
| PropertySearchView.FreshStoreShowsNothing | src/features/propertyComps/views/PropertySearchView.jsx:33-38 | with the store as it starts, no results panel is shown on arrival |
| PropertySearchView.WithUploads | src/features/propertyComps/views/PropertySearchView.jsx:160-162 | with uploaded photos of truthy length, the property's fields are kept and both uploadedImages and images become the photos; otherwise the property passes through unchanged |
| PropertySearchView.SelectProperty | src/features/propertyComps/views/PropertySearchView.jsx:158-166 | the chosen property, with its uploads, is saved in browser storage and filed as the store's selected property; the shown results stay |
| PropertySearchView.SelectionSurvivesReload | src/features/propertyComps/views/PropertySearchView.jsx:163-164 | after choosing, loading the selected property from browser storage gives what the store holds |
| PropertySearchView.NoUploadsKeepsProperty | src/features/propertyComps/views/PropertySearchView.jsx:158-166 | since the store has no uploaded-photos field, the chosen property is filed exactly as it came |
| ComparableSelection.Round | src/components/propertyComps/ComparableSelection.jsx:16 | Math.round gives the integer within half a unit, with halves rounded up |
| ComparableSelection.RoundIsMonotone | src/components/propertyComps/ComparableSelection.jsx:16 | rounding never reverses the order of two amounts |
| ComparableSelection.Total | src/components/propertyComps/ComparableSelection.jsx:7-17 | the total is round((rate * sqft + roof if needsRoof + ac if needsAC + other) * (1.1 if addBuffer else 1)) |
| ComparableSelection.TotalRepair | src/components/propertyComps/ComparableSelection.jsx:7-17 | the total is within half a unit of (rehabPerSqft * area + roofCost if needsRoof + acCost if needsAC + otherRepair), times 1.1 when addBuffer is set, every amount read as a number or 0 |
| ComparableSelection.UnflaggedCostsAreIgnored | src/components/propertyComps/ComparableSelection.jsx:11-12 | a roof or AC cost whose flag is off has no effect on the total |
| ComparableSelection.EmptyFormTotalsZero | src/components/propertyComps/ComparableSelection.jsx:8-13 | missing amounts count as 0, so an empty form totals 0 whatever the area |
| ComparableSelection.ShownDefaultsAreNotCounted | src/components/propertyComps/ComparableSelection.jsx:7-17 | untouched fields show 25, 19000 and 7500, yet the form totals 0 whatever its flags, because the shown defaults are display only |
| ComparableSelection.UntouchedShowsDefault | src/components/propertyComps/ComparableSelection.jsx:178-235 | an untouched field shows its default |
| ComparableSelection.UntouchedTotalsZero | src/components/propertyComps/ComparableSelection.jsx:8-16 | a form whose four amounts are untouched totals 0 |
| ComparableSelection.TotalIsNonNegative | src/components/propertyComps/ComparableSelection.jsx:14-16 | non-negative amounts and area give a non-negative total, and turning the buffer on never lowers it |
| ComparableSelection.RepairsUpdate | src/components/propertyComps/ComparableSelection.jsx:45-50 | the total is sent to the MAO inputs as estimatedRepairs exactly when it is non-negative |
| ComparableSelection.SubjectSqft | src/components/propertyComps/ComparableSelection.jsx:34-38 | squareFootage when it is not null or undefined; otherwise square_footage when that is set; otherwise sqft when that is set; otherwise 0; the result is never nullish |
| ComparableSelection.RecordedZeroIsKept | src/components/propertyComps/ComparableSelection.jsx:34-38 | a recorded squareFootage of 0 is kept even when another field names a different area |
| ComparableSelection.SelectionTone | src/components/propertyComps/ComparableSelection.jsx:52-100 | the badge is green exactly when 1 to 5 comps are selected, yellow exactly when none is, and red exactly when more than 5 are |
| ComparableSelection.CanAnalyzeMatchesRun | src/components/propertyComps/ComparableSelection.jsx:52-55 | with a property id, a run starts exactly when the panel allows analysis, and its warning appears exactly when fewer than 3 comps are selected |
| ComparableSelection.HandleToggle | src/components/propertyComps/ComparableSelection.jsx:57-68 | a selected comp is deselected, and an unselected one is selected only while fewer than 5 are selected |
| ComparableSelection.Click | src/components/propertyComps/ComparableSelection.jsx:57-68 | a click removes a selected comp, appends an unselected one when there is room, and otherwise changes nothing |
| ComparableSelection.WithoutKeepsNoDuplicates | src/features/propertyComps/views/PropertyDetailsView.jsx:688-699 | removing a comp from a duplicate-free selection keeps it duplicate-free |
| ComparableSelection.ClickKeepsSelectionWellFormed | src/components/propertyComps/ComparableSelection.jsx:57-68 | clicking keeps the selection free of duplicates and within 5 |
| ComparableSelection.ClickTwiceRestores | src/components/propertyComps/ComparableSelection.jsx:57-68 | two clicks on an unselected comp, with room for it, give the selection back |
| AnalysisRun.PropertyId | src/features/propertyComps/views/PropertyDetailsView.jsx:55-58 | a falsy property has no id; otherwise the id is the first truthy of _id, zpid and id, and null when none is truthy |
| AnalysisRun.ApiPropertyId | src/features/propertyComps/views/PropertyDetailsView.jsx:710 | the id sent is the one getPropertyId found, and null when it found none |
| AnalysisRun.ApiIdIsPropertyId | src/features/propertyComps/views/PropertyDetailsView.jsx:710 | preferring _id a second time never changes the id the handlers send, once the property has any id |
| AnalysisRun.IdPiece | src/features/propertyComps/views/PropertyDetailsView.jsx:258 | each character becomes as many id characters as it has UTF-16 code units |
| AnalysisRun.ReplaceNonAlnum | src/features/propertyComps/views/PropertyDetailsView.jsx:258 | the replaced text has exactly as many characters as the address has UTF-16 code units |
| AnalysisRun.ReplaceNonAlnumIsIdText | src/features/propertyComps/views/PropertyDetailsView.jsx:258 | only ASCII letters, digits and dashes survive the replacement |
| AnalysisRun.ReplaceNonAlnumInPlace | src/features/propertyComps/views/PropertyDetailsView.jsx:258 | without characters above U+FFFF the replacement keeps every letter and digit in place and turns each other character into exactly one dash |
| AnalysisRun.ReplaceNonAlnumKeepsIdText | src/features/propertyComps/views/PropertyDetailsView.jsx:258 | text of letters, digits and dashes comes through the replacement unchanged |
| AnalysisRun.IdTextIsNarrow | src/features/propertyComps/views/PropertyDetailsView.jsx:258 | letters, digits and dashes are one UTF-16 code unit each |
| AnalysisRun.GeneratedIdShape | src/features/propertyComps/views/PropertyDetailsView.jsx:258 | a generated id is "property-" followed by one lower-case letter, digit or dash per UTF-16 code unit of the address |
| AnalysisRun.GeneratedId | src/features/propertyComps/views/PropertyDetailsView.jsx:258 | a generated id starts with "property-" and has one character per UTF-16 code unit of the address after it |
| AnalysisRun.GeneratedIdIsStable | src/features/propertyComps/views/PropertyDetailsView.jsx:258 | generating an id from the tail of a generated id gives the same id back |
| AnalysisRun.CityStateTextIsNotEmpty | src/features/propertyComps/views/PropertyDetailsView.jsx:255 | the city-state text keeps its middle dash through the trim, so it is never empty |
| AnalysisRun.AddressForId | src/features/propertyComps/views/PropertyDetailsView.jsx:253-255 | the address an id is generated from is always truthy |
| AnalysisRun.FindComparablesId | src/features/propertyComps/views/PropertyDetailsView.jsx:244-269 | a null or undefined property throws; a property with an id sends that id; otherwise the id is generated from the address, or the call throws when that address is not text; the "Property ID is required" error of lines 260-267 is never reached |
| AnalysisRun.Without | src/features/propertyComps/views/PropertyDetailsView.jsx:697 | removing a comp id drops every copy of it and keeps the count of every other id |
| AnalysisRun.ToggleComp | src/features/propertyComps/views/PropertyDetailsView.jsx:688-699 | a sixth selection is refused; any other selection appends the id; a deselection removes every copy of it |
| AnalysisRun.ToggleKeepsCap | src/features/propertyComps/views/PropertyDetailsView.jsx:688-699 | a selection of at most five stays at most five whatever is toggled |
| AnalysisRun.WithoutKeepsOthers | src/features/propertyComps/views/PropertyDetailsView.jsx:697 | after a deselection the id is gone, every other id is present exactly when it was before, and deselecting an unselected id changes nothing |
| AnalysisRun.SelectThenDeselect | src/features/propertyComps/views/PropertyDetailsView.jsx:688-699 | selecting a new comp while fewer than five are selected and then deselecting it restores the selection |
| AnalysisRun.WithoutAppend | src/features/propertyComps/views/PropertyDetailsView.jsx:697 | removing an id just appended, when it was not there before, gives the earlier list |
| AnalysisRun.CompBeingAnalyzed | src/features/propertyComps/views/PropertyDetailsView.jsx:762 | the comp in work is truthy exactly when the event's address is, and is then that address |
| AnalysisRun.ApplyEvent | src/features/propertyComps/views/PropertyDetailsView.jsx:756-770 | a step event is appended to the steps, sets the current step, and replaces each running figure it carries that is not null or undefined; any other event changes nothing; the subject and the completion flag never change |
| AnalysisRun.StepEvents | src/features/propertyComps/views/PropertyDetailsView.jsx:757 | the step events of a stream are never more than its events |
| AnalysisRun.ApplyAllAppend | src/features/propertyComps/views/PropertyDetailsView.jsx:756-770 | folding two batches of events is folding the first, then the second |
| AnalysisRun.ApplyAll | src/features/propertyComps/views/PropertyDetailsView.jsx:756-770 | folding events keeps the subject and the completion flag, only extends the step list, and changes nothing when no event is a step event |
| AnalysisRun.ApplyAllSteps | src/features/propertyComps/views/PropertyDetailsView.jsx:760 | after any events the steps are the earlier steps followed by exactly the step events, in arrival order |
| AnalysisRun.ApplyAllCurrent | src/features/propertyComps/views/PropertyDetailsView.jsx:761-762 | with no step events the record is unchanged; otherwise the current step and the comp in work come from the last step event |
| AnalysisRun.LastPresentSnoc | src/features/propertyComps/views/PropertyDetailsView.jsx:763-767 | one more event changes a figure's last present value exactly when the event carries a value for it that is not null or undefined |
| AnalysisRun.ApplyAllFigures | src/features/propertyComps/views/PropertyDetailsView.jsx:763-767 | each running figure ends as the last value that is not null or undefined among the step events for that key, or keeps its value from before |
| AnalysisRun.OrElse | src/features/propertyComps/views/PropertyDetailsView.jsx:741-745 | the value when it is truthy, otherwise the fallback |
| AnalysisRun.MaoPayloadOf | src/features/propertyComps/views/PropertyDetailsView.jsx:740-746 | each amount is sent as stored when truthy and as 0 otherwise; the rule is sent as stored when truthy and as "sop" otherwise |
| AnalysisRun.MaoPayloadIsStable | src/features/propertyComps/views/PropertyDetailsView.jsx:740-746 | building the payload from a payload gives it back, and the rule sent is always truthy |
| AnalysisRun.InitialInputsPayload | src/features/propertyComps/views/PropertyDetailsView.jsx:740-746 | the store's starting MAO inputs (propertyCompsSlice.js lines 52-58) are sent unchanged, with the "70%" rule rather than "sop" |
| AnalysisRun.SubjectImages | src/features/propertyComps/views/PropertyDetailsView.jsx:752 | the uploaded images when their length is truthy; otherwise the property's images when truthy; otherwise an empty list |
| AnalysisRun.UploadsReachTheRun | src/features/propertyComps/views/PropertyDetailsView.jsx:752 | photos attached when the property was chosen (PropertySearchView.jsx lines 159-162) are exactly the subject images the run sends; without uploads the choice does not change what is sent |
| AnalysisRun.StartRun | src/features/propertyComps/views/PropertyDetailsView.jsx:702-753 | a run is refused with "Property ID is required" exactly when the property has no id; otherwise it is refused with the selection message exactly when the selection is missing or not 1 to 5 long; a started run resets the progress to the first step with the selection's size as total, shows as subject the first truthy of formattedAddress, address and rawAddress (else ""), warns exactly when fewer than 3 are selected, and sends the property's id, the selection, the MAO payload of the stored inputs and the subject images |
| AnalysisRun.FewCompsWarning | src/features/propertyComps/views/PropertyDetailsView.jsx:718 | one comparable reads "Only 1 comparable selected…" and two read "Only 2 comparables selected…", with the same closing sentence |
| AnalysisRun.StartedRunFolds | src/features/propertyComps/views/PropertyDetailsView.jsx:724-770 | a started run's steps are exactly the step events streamed after it, and the run is not complete until it settles |
| AnalysisRun.ErrorText | src/features/propertyComps/views/PropertyDetailsView.jsx:796-806 | the text a failure shows or stores is always truthy, and it is the fallback when the body carries neither message nor error |
| AnalysisRun.CompletedDataIsEventOrData | src/features/propertyComps/views/PropertyDetailsView.jsx:772-779 | a complete event leaves its data in the store when that data is truthy, and otherwise the whole event; both are truthy |
| AnalysisRun.CompletedData | src/features/propertyComps/views/PropertyDetailsView.jsx:772-779 | the event's data when truthy, and otherwise the event itself |
| AnalysisRun.Settle | src/features/propertyComps/views/PropertyDetailsView.jsx:772-810 | the progress is marked complete, and the progress screen stays, exactly when the call resolves with a complete event; the store gets an analysis exactly when the call completes or fails: after completion the event's data (or the event) with no error and the success toast, after a failure the server's message or error or "Analysis failed" with no data and the status's failure toast; any other result gives "Analysis did not return results." |
| AnalysisRun.CompletionStoresResult | src/features/propertyComps/views/PropertyDetailsView.jsx:772-782 | a complete event stores its data when that is truthy and the whole event otherwise, with no error and the success toast |
| AnalysisRun.FailureNotice | src/features/propertyComps/views/PropertyDetailsView.jsx:791-801 | every failure toast is an error with text; 401 reads "Unauthorized. Please sign in again.", 404 reads "Property not found. Please try a different property.", 400 shows the server's message or error or else the comp-selection text, and any other failure the server's words or else "Failed to analyze property. Please try again." |
| AnalysisRun.FailureToasts | src/features/propertyComps/views/PropertyDetailsView.jsx:786-801 | a settled 401 or 404 shows its fixed text whatever the server sent, a 400 without a body shows the comp-selection text, and a network failure shows the generic text |
| AnalysisRun.SilentFailure | src/features/propertyComps/views/PropertyDetailsView.jsx:803-809 | a failure whose body carries no explanation stores "Analysis failed" |
| AnalysisStream.BuildRequest | src/utils/analysisStream.js:10-19 | the request is a credentialed POST to the stream endpoint with a JSON content type, carries a bearer header exactly when the token is truthy, has no other header, and sends the body given |
| AnalysisStream.ReadFrame | src/utils/analysisStream.js:55-65 | a piece without the data: prefix is skipped; a piece counts exactly when the text after the prefix, trimmed, parses to a value other than null; a counted piece completes exactly when its type is "complete" |
| AnalysisStream.FramesOf | src/utils/analysisStream.js:54 | the pieces are read one frame each, in order |
| AnalysisStream.FramesOfAppend | src/utils/analysisStream.js:54 | reading two runs of pieces is reading each in turn |
| AnalysisStream.ProgressBefore | src/utils/analysisStream.js:54-66 | the events delivered are never more than the pieces read |
| AnalysisStream.ProgressComesFromFrames | src/utils/analysisStream.js:63 | every event delivered is the payload of a progress frame of the stream |
| AnalysisStream.ProgressBeforeAppend | src/utils/analysisStream.js:58-63 | reading two runs of frames stops in the first when it holds a complete frame, and otherwise delivers the first run's events followed by the second's |
| AnalysisStream.DroppedPieceIsInvisible | src/utils/analysisStream.js:55-64 | a piece that is not data, does not parse or parses to null changes neither the events delivered nor the completion found |
| AnalysisStream.ConcatAppend | src/utils/analysisStream.js:51 | the text of two runs of chunks is the text of each in turn |
| AnalysisStream.Feed | src/utils/analysisStream.js:51-53 | feeding a chunk only ever appends pieces |
| AnalysisStream.FeedCutsAtSeparators | src/utils/analysisStream.js:51-53 | after a chunk the kept tail and every new piece hold no blank line, and joining them with blank lines gives back the old tail followed by the chunk |
| AnalysisStream.FeedAllSplits | src/utils/analysisStream.js:36-67 | feeding chunks one at a time cuts exactly the pieces, and leaves exactly the tail, that one split of all the text would |
| AnalysisStream.FeedAll | src/utils/analysisStream.js:50-53 | feeding chunks only adds pieces after the ones already cut, and feeding none changes nothing |
| AnalysisStream.ChunkingIsInvisible | src/utils/analysisStream.js:36-67 | any two ways of cutting the same body text into chunks give the same pieces and the same tail |
| AnalysisStream.Finish | src/utils/analysisStream.js:38-49 | a failed read rejects; at the end of the body a blank tail only resolves null; a tail that parses to a complete event resolves with it, reports it, and then resolves null; nothing else settles |
| AnalysisStream.ScanPieces | src/utils/analysisStream.js:54-66 | the loop over one chunk's pieces delivers exactly the progress events before the first complete frame and stops at that frame |
| AnalysisStream.CompletionIsFinal | src/utils/analysisStream.js:58-61 | once the text read holds a complete frame, no later text and no way the stream ends change what the caller observes |
| AnalysisStream.ReadStep | src/utils/analysisStream.js:51-53 | reading one more chunk appends its complete pieces to the frames read so far and replaces the tail |
| AnalysisStream.StopsAt | src/utils/analysisStream.js:58-61 | a complete frame within the first chunks decides the whole call |
| AnalysisStream.ReadStream | src/utils/analysisStream.js:31-71 | reading the body chunk by chunk observes exactly what reading the whole body text at once would; the reader is cancelled exactly when a complete frame arrives, and then on the first chunk that completes one; otherwise every chunk is read |
| AnalysisStream.AnalyzeSelectedCompsStream | src/utils/analysisStream.js:9-72 | a failed fetch rejects; a status outside 200-299 rejects with that status, the status text or "Analysis request failed", and the parsed error body; an OK reply is read as a stream |
| AnalysisStream.WholeText | src/utils/analysisStream.js:36-71 | reading the whole body text at once always settles the promise at least once: the reference the chunked reading is measured against |
| AnalysisStream.SettlesOnce | src/utils/analysisStream.js:35-71 | the promise is settled at least once and at most twice, and a second settle only follows a complete event found in the tail, so the promise keeps that event |
| AnalysisStream.ProgressIsInOrder | src/utils/analysisStream.js:54-66 | events reach the callback in stream order; when the stream is cut short by a complete frame, that event is never reported as progress |
| ProgressView.StepLabel | src/components/propertyComps/AnalysisProgressView.jsx:18-31 | a step has a label exactly when it is one of the twelve steps of the step order |
| ProgressView.IndexOf | src/components/propertyComps/AnalysisProgressView.jsx:47-48 | the index is -1 exactly when the value is absent, and otherwise the first position holding it |
| ProgressView.StepIndex | src/components/propertyComps/AnalysisProgressView.jsx:48 | a current step is found only when it is the text of a step, and then at that step's position |
| ProgressView.StepOrderIsDistinct | src/components/propertyComps/AnalysisProgressView.jsx:3-16 | no step appears twice in the step order |
| ProgressView.StepIndexOfStep | src/components/propertyComps/AnalysisProgressView.jsx:47 | every step is found at its own position |
| ProgressView.Statuses | src/components/propertyComps/AnalysisProgressView.jsx:46-52 | every step of the step order gets a status |
| ProgressView.StatusByPosition | src/components/propertyComps/AnalysisProgressView.jsx:46-52 | with a known current step, a step is done exactly when it comes before it, active exactly when it is it, and pending after it |
| ProgressView.StepStatus | src/components/propertyComps/AnalysisProgressView.jsx:46-52 | a step is active only when it is the current step, and a known step always is when current; no step is done while the current step is unknown |
| ProgressView.StatusesWhenKnown | src/components/propertyComps/AnalysisProgressView.jsx:46-52 | along the step order the statuses read done up to the current step, active on it, pending after it, and only the current step is active |
| ProgressView.StatusesWhenUnknown | src/components/propertyComps/AnalysisProgressView.jsx:46-52 | a current step that is null, not text or not a known step leaves every step pending |
| ProgressView.CompletedRunStatuses | src/components/propertyComps/AnalysisProgressView.jsx:46-52 | once the current step is "complete" every step but the last is done and the last is active |
| ProgressView.ListedSteps | src/components/propertyComps/AnalysisProgressView.jsx:106 | a step is listed exactly when it is in the step order and is not "comp", or a comp event has arrived; the listed rows keep the step order, skipping only the comp row |
| ProgressView.ListedStepsLength | src/components/propertyComps/AnalysisProgressView.jsx:106 | hiding "comp" removes exactly one row |
| ProgressView.RowLabel | src/components/propertyComps/AnalysisProgressView.jsx:110-112 | a row's label differs from its step's label exactly for the comp row once both counters are neither null nor undefined, and that row reads "Analyzing comparables (" index " of " total ")" with the counters' texts |
| ProgressView.CompRowReadsCounters | src/components/propertyComps/AnalysisProgressView.jsx:110-112 | with whole-number counters the comp row shows both in decimal, the index before the total |
| ProgressView.SecondOfFive | src/components/propertyComps/AnalysisProgressView.jsx:110-112 | counters 2 and 5 read "Analyzing comparables (2 of 5)" |
| ProgressView.RowOf | src/components/propertyComps/AnalysisProgressView.jsx:107-133 | a row's status is its step's status, and its badge is the check mark exactly when it is done |
| ProgressView.BannerLabel | src/components/propertyComps/AnalysisProgressView.jsx:79 | a known step is shown by its label |
| ProgressView.BannerAmount | src/components/propertyComps/AnalysisProgressView.jsx:80-94 | an amount is shown exactly when the current step is arv_done, mao_done or repairs_done and the matching figure is neither null nor undefined, and the amount shown is that figure |
| ProgressView.BannerOf | src/components/propertyComps/AnalysisProgressView.jsx:67-97 | the banner shows exactly when the comp in work or the current step is truthy and the run is not complete; it names the comp exactly during the comp step with a truthy comp, and then names that comp |
| ProgressView.SubjectLine | src/components/propertyComps/AnalysisProgressView.jsx:62 | the subject line is never empty: the address, or a dash |
| ProgressView.CompletedRunHidesBanner | src/components/propertyComps/AnalysisProgressView.jsx:67 | a run settled with a complete event hides the banner |
| AddressParts.NonEmpty | src/features/propertyComps/views/PropertyDetailsView.jsx:286-287 | a string becomes null exactly when it is empty |
| AddressParts.StateZip | src/features/propertyComps/views/PropertyDetailsView.jsx:282 | what the state/ZIP pattern accepts starts with two ASCII letters, which it captures as written, and any ZIP it captures is five digits or five plus four |
| AddressParts.StateZipSpells | src/features/propertyComps/views/PropertyDetailsView.jsx:282 | an accepted text is the two letters, then only whitespace, then the captured ZIP |
| AddressParts.StateZipAccepts | src/features/propertyComps/views/PropertyDetailsView.jsx:282 | every text made of two letters, a whitespace run and an optional ZIP is accepted, with exactly those groups |
| AddressParts.StateOnlyBranchIsDead | src/features/propertyComps/views/PropertyDetailsView.jsx:284-299 | whatever the state-only pattern accepts, the state/ZIP pattern has already accepted with the same letters and no ZIP, so lines 292-299 never decide anything |
| AddressParts.CityTail | src/features/propertyComps/views/PropertyDetailsView.jsx:304 | what follows the city group starts with whitespace |
| AddressParts.LazyEndIsShortest | src/features/propertyComps/views/PropertyDetailsView.jsx:304 | a lazy group stops at the shortest length after which the rest matches, and only within characters it may match |
| AddressParts.CityEnd | src/features/propertyComps/views/PropertyDetailsView.jsx:304 | the city group is non-empty and followed by a whitespace run and a state/ZIP tail |
| AddressParts.CityEndIsShortest | src/features/propertyComps/views/PropertyDetailsView.jsx:304 | the city group holds no line terminator and no shorter group is followed by a state/ZIP tail |
| AddressParts.CityStateZip | src/features/propertyComps/views/PropertyDetailsView.jsx:302-312 | a matching two-part text yields a state of two upper-case letters and a ZIP, if any, of five digits or five plus four |
| AddressParts.FallbackAt | src/features/propertyComps/views/PropertyDetailsView.jsx:317 | the fallback pattern matches at a position only at a word boundary before two ASCII letters, and always captures a ZIP |
| AddressParts.FirstSomeIsLeftmost | src/features/propertyComps/views/PropertyDetailsView.jsx:318 | the search finds the leftmost match, and finds none only when no position matches |
| AddressParts.Fallback | src/features/propertyComps/views/PropertyDetailsView.jsx:316-318 | a fallback match has two letters and a well-formed ZIP |
| AddressParts.FallbackIsLeftmost | src/features/propertyComps/views/PropertyDetailsView.jsx:316-318 | the fallback finds a match exactly when the pattern matches at some position, and then it is the match at the leftmost such position |
| AddressParts.CommaParts | src/features/propertyComps/views/PropertyDetailsView.jsx:276 | splitting on commas always gives at least one part |
| AddressParts.SplitAtFirstComma | src/features/propertyComps/views/PropertyDetailsView.jsx:276 | splitting on commas cuts a comma-free first piece off at the first comma |
| AddressParts.SplitNoComma | src/features/propertyComps/views/PropertyDetailsView.jsx:276 | a text without commas is a single part |
| AddressParts.ThreeParts | src/features/propertyComps/views/PropertyDetailsView.jsx:278-299 | the three-part branch answers only with three or more parts, with the second part (or null) as city, a state of two upper-case letters and a well-formed ZIP or none |
| AddressParts.TwoParts | src/features/propertyComps/views/PropertyDetailsView.jsx:300-314 | the two-part branch answers only with exactly two parts, with a state of two upper-case letters and a well-formed ZIP or none |
| AddressParts.ParseAddress | src/features/propertyComps/views/PropertyDetailsView.jsx:272-328 | an empty address gives all nulls; any state returned is two upper-case letters; any ZIP returned is five digits or five plus four and comes with a state; any city returned is non-empty and comes with a state |
| AddressParts.ParseAddressValue | src/features/propertyComps/views/PropertyDetailsView.jsx:272-276 | a falsy argument gives all nulls, a string is parsed, and any other truthy value makes split throw |
| AddressParts.ThreePartsDecide | src/features/propertyComps/views/PropertyDetailsView.jsx:278-290 | with three or more parts, whatever the third part matches is the answer, whatever the street or any later part says |
| AddressParts.TwoPartsDecide | src/features/propertyComps/views/PropertyDetailsView.jsx:300-312 | with exactly two parts, a match of the second part is the answer |
| AddressParts.ParseStreetCityStateZip | src/features/propertyComps/views/PropertyDetailsView.jsx:272-290 | "street, City, ST zip" gives back the city, the upper-cased state and the ZIP |
| AddressParts.CityStateZipOfWord | src/features/propertyComps/views/PropertyDetailsView.jsx:302-312 | "City ST zip" with a one-word city matches with that city, the upper-cased state and the ZIP |
| AddressParts.ParseStreetCityWordStateZip | src/features/propertyComps/views/PropertyDetailsView.jsx:272-312 | "street, City ST zip" with a one-word city gives back the city, the upper-cased state and the ZIP |
| SearchResults.Ceil | src/components/propertyComps/PropertySearchResults.jsx:44-55 | Math.ceil gives the least integer not below the number |
| SearchResults.IntOr | src/components/propertyComps/PropertySearchResults.jsx:31-32 | the figure is the fallback, or a non-zero integer the value's text parses to; a figure other than the fallback always comes from the value |
| SearchResults.RealOr | src/components/propertyComps/PropertySearchResults.jsx:33 | the figure is the fallback, or a non-zero number the value's text parses to |
| SearchResults.PriceBound | src/components/propertyComps/PropertySearchResults.jsx:34-54 | a price bound is used exactly when the field is truthy and parses to a non-zero number, and then it is that number |
| SearchResults.RangesOf | src/components/propertyComps/PropertySearchResults.jsx:43-48 | a positive area lies within its square-footage range; beds range from one less, but at least 1, to one more; baths of at least 1 lie within their range, whose lower bound is at least 1 |
| SearchResults.BathBoundsAreHalfSteps | src/components/propertyComps/PropertySearchResults.jsx:47-48 | both bath bounds are whole multiples of one half |
| SearchResults.RangeFields | src/components/propertyComps/PropertySearchResults.jsx:43-48 | the six range fields are written, and nothing else |
| SearchResults.PriceField | src/components/propertyComps/PropertySearchResults.jsx:51-56 | a used price bound contributes exactly its own field, holding the widened price; an unused one contributes nothing |
| SearchResults.MapOption | src/components/propertyComps/PropertySearchResults.jsx:51-56 | a price is widened exactly when a bound is used |
| SearchResults.RangeKeysAreNotPrices | src/components/propertyComps/PropertySearchResults.jsx:41-56 | the range fields and the two price fields are distinct keys |
| SearchResults.Adjust | src/components/propertyComps/PropertySearchResults.jsx:41-56 | the adjusted copy has the original keys plus the six range fields and each used price bound |
| SearchResults.AdjustWritesRanges | src/components/propertyComps/PropertySearchResults.jsx:43-48 | the six range fields of the copy hold the ranges |
| SearchResults.AdjustWritesPrices | src/components/propertyComps/PropertySearchResults.jsx:51-56 | a used price bound is written to its field |
| SearchResults.AdjustKeepsOthers | src/components/propertyComps/PropertySearchResults.jsx:41-42 | every field the helper does not write keeps its original value |
| SearchResults.AdjustedFilters | src/components/propertyComps/PropertySearchResults.jsx:28-59 | there is no adjusted copy exactly when the original filters are falsy; otherwise it is the original fields with the ranges and widened prices written over them |
| SearchResults.PricesWiden | src/components/propertyComps/PropertySearchResults.jsx:52-55 | the widened bounds contain the original positive prices |
| SearchResults.MissingFigures | src/components/propertyComps/PropertySearchResults.jsx:31-33 | missing figures fall back to 1500 sq ft, 3 beds and 2 baths |
| SearchResults.DefaultRanges | src/components/propertyComps/PropertySearchResults.jsx:31-48 | the fallback figures widen to 1200-1800 sq ft, 2-4 beds and 1-3 baths |
| SearchResults.PresentParts | src/components/propertyComps/PropertySearchResults.jsx:79-83 | only truthy address parts are kept, at most four |
| SearchResults.Texts | src/components/propertyComps/PropertySearchResults.jsx:85 | each part is joined as its text |
| SearchResults.LocationParams | src/components/propertyComps/PropertySearchResults.jsx:72-87 | with both city and state the location is structured: city and state always, area and ZIP exactly when truthy; otherwise it is at most one address field, present exactly when some part is, holding the present parts joined by ", " |
| SearchResults.ParamKeysAreDistinct | src/components/propertyComps/PropertySearchResults.jsx:70-97 | location keys, filter keys and isSold never collide |
| SearchResults.FilterParams | src/components/propertyComps/PropertySearchResults.jsx:90-94 | a filter field is sent exactly when it is truthy, and as it is |
| SearchResults.SearchParams | src/components/propertyComps/PropertySearchResults.jsx:70-97 | isSold is always false; each filter field is sent exactly when truthy; every location field is sent; nothing else is sent |
| SearchResults.MaxSqftIsNonZero | src/components/propertyComps/PropertySearchResults.jsx:44 | the upper bound around a non-zero area is never zero |
| SearchResults.SendsNumberField | src/components/propertyComps/PropertySearchResults.jsx:90-91 | a numeric range field is sent exactly when it is not zero |
| SearchResults.AdjustWritesSqft | src/components/propertyComps/PropertySearchResults.jsx:43-44 | the copy's square-footage fields hold the range's bounds |
| SearchResults.AdjustedSqftIsSent | src/components/propertyComps/PropertySearchResults.jsx:43-91 | around a non-zero area the adjusted search always sends the upper square-footage bound, and sends the lower one exactly when it does not round down to zero |
| SearchResults.AdjustedSearchSendsSqft | src/components/propertyComps/PropertySearchResults.jsx:28-97 | for any truthy original filters the adjusted search sends the upper square-footage bound, and the lower one exactly when it does not round down to zero |

## Left out

- The network and RTK Query: `fetch`, the stream reader and the endpoint tables are not modelled. A streamed reply is a status, a status text, an error body and a list of text chunks with an ending. Cancelling the reader is "stop reading". The answers of the search and lookup calls are parameters.
- `TextDecoder`: UTF-8 decoding across chunk boundaries is a browser service, so chunks enter the model as decoded text.
- `JSON.parse` and `JSON.stringify`: an opaque partial function and an opaque codec. No property depends on JSON's own grammar.
- Concurrency and cancellation: the Cancel button (PropertyDetailsView.jsx lines 879-893) only resets local state while the stream keeps running. Interleavings of a running stream with user actions are not modelled.
- Floating point: numbers are exact reals. JavaScript doubles can land on the other side of a `Math.round`, `Math.floor` or `Math.ceil` boundary after multiplying by 1.1, 0.8, 1.2 or 0.9. Infinity and -0 do not exist in the model.
- Number rendering: `String(n)` is exact for integers and short decimals. Other numbers render as a placeholder, because double-to-text conversion is not modelled.
- Locale formatting: `toLocaleString`, `formatDate` and `toFixed` depend on the runtime. `formatCurrency` is modelled only for its missing-value case.
- Browser storage and `URL.createObjectURL`: the storage is a map from keys to strings, and the preview URL maker is a parameter.
- Rendering, hooks, effects, toasts, navigation, maps and modal timers are not modelled. Toast and warning texts are kept where a handler's outcome is told apart by them.
- Presentation-only components are not part of this model. They compute nothing the model states.
- The request shaping in the property details page is not part of this model:
  - the de-duplication of detail fetches (lines 101-240);
  - the field-alias chains that build the find-comparables request (lines 330-539).

  The address parsing and id generation they call are modelled.
- Store wiring: the store registers neither the comps slice nor its API, and the slice does not export `setRepairInputs`. Repair inputs are therefore a plain record argument, with no reducer.
- The slice does not export `setSubjectUploadedImages` either, and its state has no `subjectUploadedImages` field. The upload step of the search (PropertySearchView.jsx lines 67-90) is therefore not modelled. In the code `handleSelectProperty` reads `subjectUploadedImages` from the store, where it is always `undefined`. In the model those photos are the `uploaded` parameter of `PropertySearchView.SelectProperty` and `PropertySearchView.WithUploads`. `PropertySearchView.Search` and the lookup answer carry no photos.
- `MediaUpload.jsx` renders `Modal` without importing it. Only its list operations and the confirmation state are modelled.
- UploadMedia.ReplaceAt: requires the index of a shown entry. The picker only offers replace buttons on shown entries. A write past the end, which would leave holes in a JavaScript array, is not modelled.
- DataTable members require a page size of at least 1. The table's default is 10, and no caller passes another value. A zero page size would make the page count infinite, which is not modelled.
- Avatar.InitialOf: upper-cases ASCII letters only. `toUpperCase` on other letters, including ones that grow to two characters, is not modelled.
- Avatar.InitialOf and Avatar.UserInitial: when the trimmed text starts with a character above U+FFFF, `charAt(0)` gives its lone high surrogate, which a Dafny character cannot hold. The model gives the whole character, two UTF-16 units, instead. The contracts state the one-unit length only below U+10000.
- JsValues.Spread: spreading something that is not an object contributes no fields. This matches `null`, `undefined`, numbers and booleans. Spreading a string or an array would contribute index keys, and the modelled code never does that.
- LocalStorage.UpdateInSearchResults: a caller-supplied match function is assumed not to throw. The only caller passes none.
- Formatters.RecommendationLabel: a recommendation named after a member of `Object.prototype` (such as "constructor", "toString" or "__proto__") would find that inherited member in the label table, and the code would return it. The model returns the recommendation itself, because functions and prototypes are not values of the model.
- ProgressView.BannerLabel: a current step named after a member of `Object.prototype` (such as "constructor") would find that member in the label table. This is not modelled.
- AnalysisStream.AnalyzeSelectedCompsStream: the progress callback is assumed not to throw. The page's callback only updates state.

