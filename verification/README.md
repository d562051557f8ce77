# A verified model of the omega-auto tyre classifieds client

This project models the client of a second-hand tyre marketplace. It covers:

- the Redux stores of the client: the listing feed with its filters, the single listing and favourites, the owner's listings, the profile, and the session;
- the API helpers' error handling;
- the home page's URL and storage synchronisation and its infinite scroll;
- the email and phone confirmation flows;
- image URL handling and the uploader;
- SEO metadata, the form validation rules, and the card and detail page logic;
- the "my listings" page and its loader, the status badge, the listing actions, and the edit-form mapping.

It is written in Dafny, with one module per source file:

- Each operation is a pure function over immutable data.
- Browser storage is an input and an output map.
- Server replies are inputs: `Remote<T>` holds a settled request, and `Api.HttpReply` holds the wire outcome.
- The clock is an integer number of milliseconds, passed in.

Contracts state what each step guarantees. Lemmas relate steps to each other: round trips, idempotence, ordering, and what a reload restores.

Shared helpers:

- `wrappers.dfy`: `Option` and `Remote`.
- `seqs.dfy`: filter and the first-occurrence de-duplication idiom.
- `strings.dfy`: ECMAScript whitespace, trimming, `\s+` collapsing, split/join, decimal formatting, substring search and lower-casing.
- `tyre_types.dfy`: the listing record and the filter fields.

## Model

| member | source | states |
|---|---|---|
| Seqs.Filter | src/pages/MyAdsPage.tsx:47 | keeps exactly the elements that pass the test, never adds any |
| Seqs.FilterConcat | src/hooks/useTyres.ts:49 | filtering keeps order: it distributes over concatenation |
| Seqs.DedupeBy | src/store/slices/tyres/tyreSlice.ts:149-156 | the result has distinct keys, only elements of the input, and every key of the input |
| Seqs.DedupeByDistinct | src/store/slices/tyres/tyreSlice.ts:149-156 | input that already has distinct keys is left as it is |
| Seqs.DedupeBySnoc | src/store/slices/tyres/tyreSlice.ts:149-156 | one more element at the end is kept exactly when its key was not seen before, and the earlier result is left as it was |
| Seqs.DedupeByFirstOccurrences | src/store/slices/tyres/tyreSlice.ts:149-156 | the result is exactly the first element of each key, in input order |
| Strings.TrimStart | src/pages/HomePage.tsx:143 | the result is what follows the leading whitespace, and starts with a non-space |
| Strings.TrimEnd | src/seo/TyreSeo.tsx:12 | the result is what precedes the trailing whitespace, and ends with a non-space |
| Strings.Trim | src/schemas/validationSchemas.ts:3 | a slice of the input with no whitespace at either end, empty exactly when the input is all whitespace |
| Strings.TrimOfTrimmed | src/schemas/validationSchemas.ts:10 | text with no whitespace at its ends is its own trim |
| Strings.TrimOfBounds | src/schemas/validationSchemas.ts:3-10 | whatever the bounds of the part between the leading and trailing whitespace, the trim is exactly that part |
| Strings.TrimmedLengthBounds | src/schemas/validationSchemas.ts:3-10 | the trim has at least n characters exactly when such bounds exist at least n apart |
| Strings.CollapseSpaces | src/seo/TyreSeo.tsx:12 | every run of whitespace becomes one plain space, so no two whitespace characters are adjacent and the plain space is the only whitespace left; the result starts with a space exactly when the text starts with whitespace, and otherwise with the text's first character; the non-space characters are kept in order |
| Strings.CollapseSpacesOfCollapsed | src/seo/TyreSeo.tsx:12 | text whose only whitespace is single plain spaces is left as it is |
| Strings.CollapseSpacesLast | src/seo/TyreSeo.tsx:12 | the collapse ends in a space exactly when the text ends in whitespace, and otherwise with the text's last character |
| Strings.Words | src/seo/TyreSeo.tsx:12 | the maximal runs of non-space characters: none is empty or holds whitespace, and there are none exactly when the text is all whitespace |
| Strings.WordsJoinRoundTrip | src/seo/TyreSeo.tsx:12 | words joined by single spaces split back into the same words |
| Strings.CollapseTrimJoinsWords | src/seo/TyreSeo.tsx:12 | collapsing the whitespace and trimming gives exactly the words of the text joined by single spaces: no word is lost, split, glued to its neighbour or reordered |
| Strings.Contains | src/pages/EmailConfirmationPage.tsx:35-36 | the scan finds the text exactly when it occurs at some position |
| Strings.ToLower | src/pages/EmailConfirmationPage.tsx:54 | lower-cases character by character, keeping the length |
| Strings.Split | src/utils/getImageUrl.ts:27 | never empty, and no part holds the separator |
| Strings.SplitJoin | src/utils/getImageUrl.ts:27-37 | splitting a join gives the parts back when none holds the separator |
| Strings.NatToString | src/utils/mapTyreToTyreForm.ts:23 | decimal digits without leading zeros |
| Strings.NatToStringRoundTrip | src/utils/mapTyreToTyreForm.ts:23 | reading the digits back gives the number |
| Strings.IntToStringInjective | src/components/ImageUploader/ImageUploader.tsx:123-124 | distinct numbers have distinct decimal texts |
| Api.CleanParams | src/api/api.ts:132-146 | a filter reaches the request exactly when its value is non-empty, with its value unchanged; the sort key is sent exactly when it is not the empty "none" option; page and limit pass through |
| Api.DefaultParamsArePageAndLimitOnly | src/api/api.ts:132-137 | with every argument left at its default the request carries only `page=1` and `limit=6` |
| Api.MyTyresParams | src/api/api.ts:163-164 | the owner's listing request sends no filters and no sort, only the given page and limit |
| Api.HandleError | src/api/api.ts:27-39 | a server answer yields its `message` or the caller's text; no answer yields the timeout text for `ECONNABORTED` and the caller's text otherwise; a non-empty caller text never gives an empty message |
| Api.CatchToMessage | src/api/api.ts:63-72 | the confirmation and resend helpers always resolve: with the reply's message, or with `handleError`'s text for a failure |
| Api.RethrowMessage | src/api/api.ts:63-66 | the corrected chain resolves exactly for a reply and rejects with `handleError`'s text for a failure, so a caller can tell the two apart |
| Api.GetFavorites | src/api/api.ts:197-216 | the favourite ids are the response body, and `[]` on a 401 or any other failure |
| Api.FetchTyresByIds | src/api/api.ts:218-226 | a request is sent exactly when the id list is non-empty; an empty list answers no listings |
| FilterStorage.Save | src/utils/localStorage.ts:2-8 | the slot holds the given filters afterwards, unless storage throws, in which case nothing changes |
| FilterStorage.Load | src/utils/localStorage.ts:10-17 | filters are returned exactly when storage works and the slot holds a parsable filter object, and they are the slot's content |
| FilterStorage.Clear | src/utils/localStorage.ts:19-25 | the slot is empty afterwards, unless storage throws, in which case nothing changes |
| FilterStorage.LoadAfterSave | src/utils/localStorage.ts:2-17 | loading after saving gives back exactly the saved filters, or nothing when storage throws |
| FilterStorage.LoadAfterClear | src/utils/localStorage.ts:10-25 | nothing loads after a clear |
| FilterStorage.Apply | src/store/slices/tyres/tyresSlice.ts:121-139 | a reducer's storage write is performed as the adapter's save or clear, and no write leaves storage alone |
| TyresSlice.InitialState | src/store/slices/tyres/tyresSlice.ts:8-39 | the feed starts empty at page 1 with more to load, not loading, no error, newest first, and with the filters storage held at load time or all seven empty |
| TyresSlice.SetSortBy | src/store/slices/tyres/tyresSlice.ts:115-120 | the new sort is set and the feed restarts at page 1 with an empty list; nothing else changes; the page stays positive |
| TyresSlice.SetFilters | src/store/slices/tyres/tyresSlice.ts:121-131 | nothing changes and nothing is written exactly when the field already holds the value; otherwise only that field changes, the feed restarts and the whole new filter map is persisted |
| TyresSlice.SetFiltersIdempotent | src/store/slices/tyres/tyresSlice.ts:121-131 | setting the same value twice equals setting it once, and the second call writes nothing |
| TyresSlice.SetFiltersThenLoad | src/store/slices/tyres/tyresSlice.ts:121-131 | after a changing call, a working storage loads back exactly the store's new filters |
| TyresSlice.ResetFilters | src/store/slices/tyres/tyresSlice.ts:132-139 | filters return to the map held at load time, the sort to newest, the feed to page 1, and storage is cleared; total, loading and error are kept |
| TyresSlice.ResetFiltersForgottenOnReload | src/store/slices/tyres/tyresSlice.ts:132-139 | after a reset nothing loads from storage, so the next start uses empty filters even when the reset kept persisted ones in memory |
| TyresSlice.IncrementPage | src/store/slices/tyres/tyresSlice.ts:140-142 | the page grows by exactly one and nothing else changes |
| TyresSlice.ResetTyresState | src/store/slices/tyres/tyresSlice.ts:143-149 | an empty feed at page 1 with more to load, total zero, not loading; filters, sort and error are kept |
| TyresSlice.ClearTyresError | src/store/slices/tyres/tyresSlice.ts:150-152 | only the error is cleared |
| TyresSlice.Pending | src/store/slices/tyres/tyresSlice.ts:156-159 | every pending case sets loading, clears the error and changes nothing else |
| TyresSlice.MergePage | src/store/slices/tyres/tyresSlice.ts:166-169 | the old list stays as a prefix, and a listing is appended exactly when it is in the response and its id is not already in the old list |
| TyresSlice.MergePageInResponseOrder | src/store/slices/tyres/tyresSlice.ts:166-169 | the appended part follows the response order: merging a split response appends the pieces one after the other |
| TyresSlice.MergePagePreservesDistinct | src/store/slices/tyres/tyresSlice.ts:166-169 | a duplicate-free list merged with a duplicate-free page stays duplicate-free |
| TyresSlice.MergePageKeepsDuplicatesWithinPage | src/store/slices/tyres/tyresSlice.ts:168 | two copies of a new listing in one page are both appended, so the feed can hold a duplicate |
| TyresSlice.FetchFulfilled | src/store/slices/tyres/tyresSlice.ts:160-174 | page 1 replaces the list and later pages merge; the total follows the response and there is more to load exactly when `page * 6 < total` |
| TyresSlice.FetchRejected | src/store/slices/tyres/tyresSlice.ts:175-178 | loading stops and the error is the failure's message or the default text; the list is kept |
| TyresSlice.FindIndex | src/store/slices/tyres/tyresSlice.ts:185 | the first position holding the id, and -1 exactly when no listing has it |
| TyresSlice.UpdateFirst | src/store/slices/tyres/tyresSlice.ts:183-236 | only the first listing with the id is changed; every other position keeps its listing |
| TyresSlice.RemoveFromActiveFulfilled | src/store/slices/tyres/tyresSlice.ts:183-190 | the first listing with the id is flagged deleted, the rest are unchanged, and loading stops |
| TyresSlice.RemoveFromActiveRejected | src/store/slices/tyres/tyresSlice.ts:191-194 | loading stops with the fixed deactivation error |
| TyresSlice.RemoveFulfilled | src/store/slices/tyres/tyresSlice.ts:199-202 | exactly the listings without the id remain, and no listing with the id is left |
| TyresSlice.RemoveKeepsOrder | src/store/slices/tyres/tyresSlice.ts:200 | removal keeps relative order: removing from a concatenation removes from each part |
| TyresSlice.QuietRejected | src/store/slices/tyres/tyresSlice.ts:203-242 | the delete, activate and renew failures stop loading and clear the error |
| TyresSlice.ActivateFulfilled | src/store/slices/tyres/tyresSlice.ts:211-219 | the first listing with the id becomes active and not deleted, the rest are unchanged |
| TyresSlice.RenewFulfilled | src/store/slices/tyres/tyresSlice.ts:228-238 | the first listing with the id gets the new dates and is active, not deleted and not expired; the rest are unchanged |
| TyresSlice.StatusChangesKeepIds | src/store/slices/tyres/tyresSlice.ts:183-238 | the status changes never add, drop or reorder listings |
| HomePage.QueryGet | src/pages/HomePage.tsx:54 | a key is missing exactly when no pair carries it, and a value found belongs to a pair with that key |
| HomePage.SeedFromUrl | src/pages/HomePage.tsx:50-61 | the startup loop changes nothing unless it seeds a field, never touches the sort, and leaves working storage holding the seeded filters |
| HomePage.SeedFromUrlFilters | src/pages/HomePage.tsx:53-61 | the loop reports an update exactly when some listed field's query value differs, sets exactly those fields to their query values and keeps every other field |
| HomePage.SeedFromAllFields | src/pages/HomePage.tsx:53-61 | over all seven filter fields, the loop seeds something exactly when some field's query value differs from the store |
| HomePage.SeedOrReset | src/pages/HomePage.tsx:50-65 | with a differing query value the differing fields are seeded and the sort kept; otherwise the filters return to their load-time values, the sort to newest, and storage is cleared |
| HomePage.Startup | src/pages/HomePage.tsx:50-73 | the mount effect seeds or resets, then empties the feed at page 1 and starts the first fetch |
| HomePage.StartupWithMatchingUrlClearsStorage | src/pages/HomePage.tsx:56-65 | a query that agrees with every stored filter seeds nothing, so startup resets and clears storage although the values stay the same in memory |
| HomePage.ProjectFields | src/pages/HomePage.tsx:84-90 | every pair of the mirrored query names a field with a non-empty value, and carries that value |
| HomePage.Project | src/pages/HomePage.tsx:83-90 | the mirrored query has at most seven pairs, each a non-empty field with its value |
| HomePage.ProjectFieldsGet | src/pages/HomePage.tsx:84-90 | over distinct fields, reading a field back from the mirror gives its non-empty value, and nothing for an unlisted field |
| HomePage.ProjectGet | src/pages/HomePage.tsx:84-90 | the mirror holds exactly the non-empty fields, each with its value |
| HomePage.ProjectHasNoSort | src/pages/HomePage.tsx:86-90 | the sort order never reaches the query string |
| HomePage.ProjectFieldsOnlySeesShown | src/pages/HomePage.tsx:86-90 | two filter maps with the same non-empty values mirror to the same query |
| HomePage.SyncUrl | src/pages/HomePage.tsx:92-98 | the query is rewritten exactly when it differs from the mirror of the filters, and then to that mirror |
| HomePage.UrlAfterSync | src/pages/HomePage.tsx:83-99 | after the mirror effect the query is the mirror of the filters |
| HomePage.SyncUrlIdempotent | src/pages/HomePage.tsx:83-99 | mirroring twice is mirroring once: the second run writes nothing |
| HomePage.UrlRoundTrip | src/pages/HomePage.tsx:50-99 | query to filters and back: seeding an all-empty filter map from the mirror of any filters and mirroring the result gives the same query |
| HomePage.ShownAfterSeedingEmpty | src/pages/HomePage.tsx:53-61 | seeding an empty field from a mirrored query shows the same non-empty value as the original filters |
| HomePage.HandleFilterChange | src/pages/HomePage.tsx:141-146 | the stored value is the typed text without its leading whitespace: it starts with a non-space (or is empty), and only whitespace was cut from the front |
| HomePage.OnIntersect | src/pages/HomePage.tsx:125-134 | the page advances by one and the in-flight flag is raised exactly when the sentinel is visible, nothing loads, more pages exist and no page request is open |
| HomePage.InFlightBlocksRequests | src/pages/HomePage.tsx:127-130 | while a page request is open, no intersection or page effect moves the page, and the flag stays up |
| HomePage.OneRequestPerFlag | src/pages/HomePage.tsx:127-130 | any intersections and page effects before a request settles advance the page at most once, and once they have, the flag is up |
| HomePage.OnPageChange | src/pages/HomePage.tsx:109-115 | a page above 1 starts a fetch; page 1 does nothing |
| HomePage.OnPageSettled | src/pages/HomePage.tsx:111-113 | a settled page fetch applies the list reducer's fulfilled or rejected case and lowers the in-flight flag |
| HomePage.ScrollCycle | src/pages/HomePage.tsx:109-139 | a full scroll cycle at page p loads page p + 1, keeps the old list as a prefix, and lets the next trigger fire exactly when the server reports more listings |
| HomePage.ActiveTyres | src/pages/HomePage.tsx:171-172 | the live view holds exactly the listings not yet expired and not deleted |
| HomePage.ActiveTyresKeepsOrder | src/pages/HomePage.tsx:172 | the live view keeps list order: it distributes over concatenation |
| TyreSlice.ClearTyre | src/store/slices/tyres/tyreSlice.ts:82-90 | every field returns to its initial value |
| TyreSlice.ClearTyreForgetsAll | src/store/slices/tyres/tyreSlice.ts:82-90 | any two states clear to the same state, and clearing twice is clearing once |
| TyreSlice.Pending | src/store/slices/tyres/tyreSlice.ts:95-98 | the favourites and by-id pending cases set loading, clear the error and change nothing else |
| TyreSlice.StoreFavorites | src/store/slices/tyres/tyreSlice.ts:106-108 | every payload listing's id is stored |
| TyreSlice.StoreFavoritesDomain | src/store/slices/tyres/tyreSlice.ts:106-108 | the stored ids are exactly the old ones and the payload's, and entries whose id is not in the payload are untouched |
| TyreSlice.StoreFavoritesFlags | src/store/slices/tyres/tyreSlice.ts:106-108 | every payload listing is stored flagged favourite |
| TyreSlice.StoreFavoritesKeys | src/store/slices/tyres/tyreSlice.ts:106-108 | storing the favourites keeps every entry under its own id |
| TyreSlice.StoreFavoritesLastWins | src/store/slices/tyres/tyreSlice.ts:106-108 | the stored copy of a favourite is the last payload listing with its id, flagged favourite |
| TyreSlice.FavoritesFulfilled | src/store/slices/tyres/tyreSlice.ts:99-109 | the favourites and their ids are the payload in order; each payload listing's stored flag agrees with the id list; entries stay keyed by id |
| TyreSlice.FavoritesRejected | src/store/slices/tyres/tyreSlice.ts:110-114 | loading stops, the favourites count as not loaded, and the error is the rejection's text or the default, never empty |
| TyreSlice.LoadFulfilled | src/store/slices/tyres/tyreSlice.ts:121-127 | the listing is stored under its id, flagged favourite exactly when its id is among the favourite ids; other entries are untouched |
| TyreSlice.LoadAfterFavorites | src/store/slices/tyres/tyreSlice.ts:99-127 | a listing loaded after the favourites arrived is flagged exactly when it was among them |
| TyreSlice.LoadRejected | src/store/slices/tyres/tyreSlice.ts:128-131 | loading stops with the rejection's text or the default, never empty |
| TyreSlice.TogglePending | src/store/slices/tyres/tyreSlice.ts:134-136 | only the toggle spinner is raised |
| TyreSlice.ToggleRejected | src/store/slices/tyres/tyreSlice.ts:159-161 | only the toggle spinner drops; no error is recorded |
| TyreSlice.ToggleFulfilled | src/store/slices/tyres/tyreSlice.ts:137-158 | a listing never loaded by id only drops the spinner; otherwise its stored copy takes the new flag, adding puts its id and listing in the lists once and removing drops every entry with the id |
| TyreSlice.ToggleAddIds | src/store/slices/tyres/tyreSlice.ts:148-149 | on a duplicate-free id list, adding appends the id once, or leaves the list alone when it is already there |
| TyreSlice.ToggleRemoveIds | src/store/slices/tyres/tyreSlice.ts:148-150 | removing filters the id out of the id list |
| TyreSlice.ToggleRemoveKeepsOrder | src/store/slices/tyres/tyreSlice.ts:150 | removing keeps the other ids in their order |
| TyreSlice.ToggleAddThenRemove | src/store/slices/tyres/tyreSlice.ts:137-158 | adding a new favourite and then removing it restores the id list |
| MyTyresSlice.Request | src/store/slices/tyres/myTyresSlice.ts:17-22 | the owner's-listings request asks for page 1 of 6, with no filters and no sort |
| MyTyresSlice.RequestIsLoaderFirstPage | src/store/slices/tyres/myTyresSlice.ts:21 | the store's request is the first page the profile loader asks for |
| MyTyresSlice.Pending | src/store/slices/tyres/myTyresSlice.ts:35-38 | loading is set, the error cleared and the list kept |
| MyTyresSlice.Fulfilled | src/store/slices/tyres/myTyresSlice.ts:39-42 | the list is replaced by the payload; the error is left as it was |
| MyTyresSlice.Rejected | src/store/slices/tyres/myTyresSlice.ts:43-46 | loading stops, the list is kept and the error is the payload text or the default, never empty |
| MyTyresSlice.RequestCycle | src/store/slices/tyres/myTyresSlice.ts:35-46 | a successful cycle shows exactly the payload with no error; a failed one keeps what was shown before |
| ProfileSlice.MapProfile | src/store/slices/profile/profileSlice.ts:47-59 | `_id` becomes the id and the ten listed fields are copied unchanged |
| ProfileSlice.MapProfileRoundTrip | src/store/slices/profile/profileSlice.ts:47-59 | the mapping loses only the extra fields: it is inverted by writing the profile back as a body, in both directions |
| ProfileSlice.MapProfileIgnoresExtras | src/store/slices/profile/profileSlice.ts:47-59 | two bodies that differ only in fields outside the list give the same profile |
| ProfileSlice.RejectPayload | src/store/slices/profile/profileSlice.ts:62-125 | a failed request rejects with the server's non-empty message, or else with its own text, never empty |
| ProfileSlice.ResetProfileState | src/store/slices/profile/profileSlice.ts:131-135 | the flags and the error are cleared, the profile is kept |
| ProfileSlice.Pending | src/store/slices/profile/profileSlice.ts:140-195 | every pending case sets loading and clears the error; the update and the password change also clear the success flag; the profile is kept |
| ProfileSlice.Rejected | src/store/slices/profile/profileSlice.ts:148-202 | loading stops with the profile and success flag kept; the password change stores its rejection value as it is, the others its non-empty message or their own text |
| ProfileSlice.FetchFulfilled | src/store/slices/profile/profileSlice.ts:144-147 | the fetched profile replaces the old one; error and success are left alone |
| ProfileSlice.UpdateFulfilled | src/store/slices/profile/profileSlice.ts:159-163 | the returned profile replaces the old one and the update counts as a success |
| ProfileSlice.ChangePasswordFulfilled | src/store/slices/profile/profileSlice.ts:173-176 | success with the profile untouched |
| ProfileSlice.PhoneFulfilled | src/store/slices/profile/profileSlice.ts:185-198 | the phone requests' fulfilled cases only stop loading |
| ProfileSlice.FailedRequestLeavesError | src/store/slices/profile/profileSlice.ts:62-202 | any failed request ends not loading, with the profile kept and a non-empty error that is the server's message or the thunk's own text |
| ProfileSlice.FailedChangeIsNoSuccess | src/store/slices/profile/profileSlice.ts:154-180 | an update or password change that fails leaves the success flag off |
| ProfileSlice.ResetKeepsLoadedProfile | src/store/slices/profile/profileSlice.ts:131-147 | resetting after a fetch restores the initial flags but keeps the fetched profile |
| UserSlice.StoredOrEmpty | src/store/slices/user/userSlice.ts:26-27 | a stored value is returned as it is, and a missing one reads as the empty text |
| UserSlice.InitialUserState | src/store/slices/user/userSlice.ts:24-34 | start-up always holds a user object whose token and id come from storage (empty when absent) and whose name and email are empty; not loading, no error, no pending email |
| UserSlice.Logout | src/store/slices/user/userSlice.ts:72-78 | no user, not loading, no pending email, and the error kept; token and id leave storage and every other key stays as it was |
| UserSlice.ClearError | src/store/slices/user/userSlice.ts:79-81 | only the error is cleared |
| UserSlice.SetPendingEmail | src/store/slices/user/userSlice.ts:82-84 | only the pending email changes, to the given address |
| UserSlice.ClearPendingEmail | src/store/slices/user/userSlice.ts:85-87 | only the pending email is cleared |
| UserSlice.SetThenClearPendingEmail | src/store/slices/user/userSlice.ts:82-87 | clearing undoes setting when nothing was pending before |
| UserSlice.RequestPending | src/store/slices/user/userSlice.ts:92-116 | the login and registration pending cases set loading and clear the error, keeping the user and the pending email |
| UserSlice.LoginFulfilled | src/store/slices/user/userSlice.ts:96-106 | the user is the reply's four fields, token and id are written to storage, and every other key is kept |
| UserSlice.RequestRejected | src/store/slices/user/userSlice.ts:107-124 | loading stops with the rejection's non-empty message or the fixed text, never an empty error |
| UserSlice.RegisterFulfilled | src/store/slices/user/userSlice.ts:117-120 | loading stops and the error is cleared; the user is left alone |
| UserSlice.ReloadAfterLogin | src/store/slices/user/userSlice.ts:24-34 | a reload after login restores the token and id but not the name and email |
| UserSlice.ReloadAfterLogout | src/store/slices/user/userSlice.ts:24-34 | a reload after logout starts with a user object whose token and id are empty rather than with no user |
| EmailConfirmation.Confirm | src/pages/EmailConfirmationPage.tsx:22-59 | a request goes out exactly for a non-empty token; a resolved message means expired exactly when it mentions an invalid or expired token (any case) and success otherwise; a rejection means expired exactly when its message mentions expiry; the pending email is forgotten exactly on success |
| EmailConfirmation.EmptyReplyIsSuccess | src/pages/EmailConfirmationPage.tsx:32-49 | an empty confirmation reply counts as success, shown with the default text |
| EmailConfirmation.InvalidTokenDependsOnChannel | src/pages/EmailConfirmationPage.tsx:32-58 | a message mentioning only an invalid token means "expired" when it resolves but "error" when it rejects |
| EmailConfirmation.WithoutKAndMSaysNeither | src/pages/EmailConfirmationPage.tsx:34-36 | a text without `к` or `м` in either case mentions neither phrase after lower-casing |
| EmailConfirmation.PlainReplyIsSuccess | src/pages/EmailConfirmationPage.tsx:32-49 | a resolved non-empty message with neither letter is taken as a successful confirmation |
| EmailConfirmation.NetworkFailureShownAsSuccess | src/api/api.ts:63-66 | as written, an unreachable server leads to the success screen with the helper's failure text, and the pending email is forgotten |
| EmailConfirmation.CheckLink | src/pages/EmailConfirmationPage.tsx:22-59 | with the failure rethrown, the page shows success exactly when the server accepted a non-empty token with a message mentioning neither phrase; the pending email is forgotten only then; a failure shows `handleError`'s text |
| EmailConfirmation.NetworkFailureShownAsError | src/pages/EmailConfirmationPage.tsx:51-58 | with the failure rethrown, an unreachable server ends on the error screen with the helper's text and the pending email is kept |
| EmailConfirmation.PlainRejectionIsError | src/pages/EmailConfirmationPage.tsx:51-58 | a rejection whose message has neither letter ends on the error screen with that message |
| EmailConfirmation.ResendAddress | src/pages/EmailConfirmationPage.tsx:20 | the resend address is the store's non-empty pending email, else the non-empty stored one, and missing exactly when neither is there |
| EmailSent.ElapsedSeconds | src/pages/EmailSentConfirmation.tsx:29 | the whole seconds elapsed, rounded down also for a negative difference |
| EmailSent.Open | src/pages/EmailSentConfirmation.tsx:17-36 | without a pending email the page leaves for registration; otherwise the countdown resumes at what remains of the 60 seconds since the stored start, and is zero without a readable start or with nothing left |
| EmailSent.OpenCooldownAtMostSixty | src/pages/EmailSentConfirmation.tsx:26-35 | with the clock not behind the stored start, a resumed countdown lies between 0 and 60 |
| EmailSent.OpenWithFutureStart | src/pages/EmailSentConfirmation.tsx:26-35 | a start stored more than a second in the future gives a countdown above 60 seconds |
| EmailSent.Tick | src/pages/EmailSentConfirmation.tsx:43-53 | a tick counts down by one, and at one or below sets zero and removes the stored start |
| EmailSent.CountdownEnds | src/pages/EmailSentConfirmation.tsx:38-56 | a countdown of c seconds ends after c ticks with nothing left in storage |
| EmailSent.Resend | src/pages/EmailSentConfirmation.tsx:58-76 | nothing is sent without an email or during the countdown; a resolved resend toasts success and restarts the 60-second countdown from now; a rejected one toasts an error and changes nothing |
| EmailSent.FailedResendStartsCooldown | src/pages/EmailSentConfirmation.tsx:65-70 | as written, a failed resend is toasted as a success with the failure's text and still starts the countdown |
| EmailSent.ResendOver | src/pages/EmailSentConfirmation.tsx:58-76 | with the failure rethrown, the countdown starts exactly when the server accepted the resend, and a failure is toasted as an error with the helper's text |
| EmailSent.ReloadResumesCooldown | src/pages/EmailSentConfirmation.tsx:26-35 | reopening the page k whole seconds after an accepted resend resumes at 60 - k, and at zero once the minute is over |
| PhoneVerification.AllDigitsFrom | src/hooks/usePhoneVerification.ts:47 | the scan answers yes exactly when every character from the given position on is an ASCII digit |
| PhoneVerification.MatchPhone | src/hooks/usePhoneVerification.ts:47 | the matcher accepts exactly the texts of `^(\+?38)?0\d{9}$`: an optional `38` or `+38`, then `0` and nine digits |
| PhoneVerification.SendCode | src/hooks/usePhoneVerification.ts:46-60 | a code is requested exactly when the number matches the pattern; a refused or failed request changes nothing; on success the code field opens and the timer starts at 300 |
| PhoneVerification.Tick | src/hooks/usePhoneVerification.ts:28-36 | a tick counts down by one, and at one or below sets zero and stops the interval |
| PhoneVerification.AfterTicksCountsDown | src/hooks/usePhoneVerification.ts:26-44 | from any start, n ticks leave start - n seconds, never less than zero |
| PhoneVerification.ResendTimerRunsFiveMinutes | src/hooks/usePhoneVerification.ts:26-56 | the resend timer shows one second after 299 ticks and reaches zero after exactly 300 |
| PhoneVerification.VerifyCode | src/hooks/usePhoneVerification.ts:62-78 | the check is requested exactly when the code is not blank after trimming; only when both the check and the profile reload succeed does the flow close and the code field clear; otherwise nothing changes |
| PhoneVerification.ReloadFailureKeepsFlowOpen | src/hooks/usePhoneVerification.ts:68-77 | an accepted code followed by a failed profile reload leaves the flow open |
| PhoneVerification.VerifiedThenBlank | src/hooks/usePhoneVerification.ts:62-78 | after a successful confirmation the code field is empty, so a second confirmation sends nothing and changes nothing |
| ImageUrl.FirstVersionIndex | src/utils/getImageUrl.ts:31 | the first segment starting with `v`, and -1 exactly when none does |
| ImageUrl.StripExtension | src/utils/getImageUrl.ts:36 | the result is a prefix of the text, and when shorter it stops at a `.` followed by a non-empty tail without `.` or `/` |
| ImageUrl.StripExtensionOf | src/utils/getImageUrl.ts:36 | stripping `name.ext` gives back `name` for any extension free of `.` and `/` |
| ImageUrl.PublicIdFromPath | src/utils/getImageUrl.ts:27-38 | an id is recovered exactly when some non-empty segment starts with `v` and at least one segment follows it |
| ImageUrl.PublicIdOfParts | src/utils/getImageUrl.ts:31-37 | when the segments are a version and then others, the id is those others joined by `/` with the last one's extension stripped |
| ImageUrl.PublicIdOfCloudPath | src/utils/getImageUrl.ts:25-38 | recovering the id inverts the cloud URL layout: `/v<version>/<folders>/<name>.<ext>` yields `<folders>/<name>` |
| ImageUrl.PathPartsOf | src/utils/getImageUrl.ts:27 | the non-empty segments of a cloud image path are the version, the folders and the file name |
| ImageUrl.PublicId | src/utils/getImageUrl.ts:21-42 | an explicit non-empty id is used as is; otherwise the id recovered from a parsable URL path; nothing without a URL or when the URL does not parse; never an empty id |
| ImageUrl.SrcSetEntries | src/utils/getImageUrl.ts:52 | one entry per rendition width, in order, each the variant link followed by its width |
| ImageUrl.GetImageUrls | src/utils/getImageUrl.ts:9-61 | the logo without a `srcSet` exactly when there is no image, no base URL or no usable id; otherwise the 800-wide variant as `src` and the 400, 800 and 1200 entries joined by `, ` as `srcSet` |
| ImageUrl.ExplicitIdIgnoresUrl | src/utils/getImageUrl.ts:21-23 | with an explicit id the URL is never parsed, so the result does not depend on the URL parser |
| ImageUrl.GetImageUrlsSet | src/utils/getImageUrl.ts:63-66 | a missing or empty group gives the logo; otherwise the URLs of the group's first image |
| ImageUploader.SuccessfulGroups | src/components/ImageUploader/ImageUploader.tsx:89-91 | the kept groups are exactly the non-empty groups of successful uploads, none of them empty |
| ImageUploader.SuccessfulGroupsConcat | src/components/ImageUploader/ImageUploader.tsx:67-93 | groups are kept in file order: the outcome of a longer selection extends the shorter one's |
| ImageUploader.ReadFiles | src/components/ImageUploader/ImageUploader.tsx:54-100 | counted from and appended to the picture list of the render that took the selection: at eight or more nothing is sent and a warning is shown; otherwise only as many files as free slots are sent; an upload that throws keeps the list, else the good groups are appended; a list of at most eight stays within eight; `onImagesChange` is called exactly below the limit when no sent upload threw, and otherwise the list is left as it was |
| ImageUploader.SettleIsReadFiles | src/components/ImageUploader/ImageUploader.tsx:54-100 | one settle step writes exactly when `readFiles` calls `onImagesChange`, and then writes what `readFiles` computed from its snapshot; otherwise the list is unchanged |
| ImageUploader.SettlesWithoutWrites | src/components/ImageUploader/ImageUploader.tsx:54-100 | as written, when every selection hits the limit or has an upload throw, the list is left as it was |
| ImageUploader.SettlesKeepOnlyLast | src/components/TyreFormComponent/TyreFormComponent.tsx:170-180 | as written, the list is what the last selection that calls `onImagesChange` wrote, its own snapshot plus its groups; earlier writes are overwritten and later selections that hit the limit or throw change nothing |
| ImageUploader.ThrowingSelectionWritesNothing | src/components/ImageUploader/ImageUploader.tsx:94-99 | as written, a selection whose upload throws after another one wrote leaves that write in place |
| ImageUploader.SettlesStayBounded | src/components/TyreFormComponent/TyreFormComponent.tsx:170-180 | as written, selections settling in any order never take the list past eight |
| ImageUploader.OverlappingSelectionsLoseFirst | src/components/ImageUploader/ImageUploader.tsx:54-93 | six pictures and two one-file selections from the same render: the list ends with seven, without the first selection's picture |
| ImageUploader.ReadFilesToLatest | src/components/ImageUploader/ImageUploader.tsx:54-100 | with the updater applied to the latest list: it keeps that list in front, appends a prefix of what the selection contributes, never passes eight, appends all of it when it fits, and equals the as-written upload when the count was taken from that list |
| ImageUploader.LatestSettlesStayBounded | src/components/ImageUploader/ImageUploader.tsx:54-93 | appended to the latest list, selections settling in any order keep at most eight pictures and never drop one already there |
| ImageUploader.OverlappingSelectionsKeepBoth | src/components/ImageUploader/ImageUploader.tsx:54-93 | the two overlapping selections that lose a picture as written keep both when appended to the latest list |
| ImageUploader.UploadRoundsStayBounded | src/components/ImageUploader/ImageUploader.tsx:32-93 | selections handled one after another, each by a render that shows the previous one's pictures, end with at most eight, never fewer than before |
| ImageUploader.RoundsAgreeWithLatest | src/components/TyreFormComponent/TyreFormComponent.tsx:170-180 | for selections one after another, the as-written list and the latest-list correction are the same |
| ImageUploader.DeleteImage | src/components/ImageUploader/ImageUploader.tsx:102-104 | exactly the group at the index is removed; an index outside the list changes nothing |
| ImageUploader.DeleteThenReinsert | src/components/ImageUploader/ImageUploader.tsx:102-104 | putting the deleted group back at its index restores the list |
| ImageUploader.IndexOfId | src/components/ImageUploader/ImageUploader.tsx:123-124 | the first position whose decimal text is the id, and -1 exactly when no position has it |
| ImageUploader.IndexOfOwnId | src/components/ImageUploader/ImageUploader.tsx:123-124 | every position is found by its own id |
| ImageUploader.DragEnd | src/components/ImageUploader/ImageUploader.tsx:119-127 | a drop over the dragged item changes nothing; otherwise the move goes from the dragged item's position to the position under the cursor, or to -1 |
| ImageUploader.DragBetweenItems | src/components/ImageUploader/ImageUploader.tsx:119-127 | dragging item i onto a different item j asks to move from i to j |
| TyreSeo.Title | src/seo/TyreSeo.tsx:10 | the title is the fixed prefix, then brand, model and size separated by single spaces, then the site name |
| TyreSeo.RawDescription | src/seo/TyreSeo.tsx:11 | at most 160 characters: the description's first 160 when it is present and non-empty, else the default text |
| TyreSeo.Description | src/seo/TyreSeo.tsx:11-12 | the meta description is exactly the words of the raw text (its first 160 characters, or the default text), in order, joined by single plain spaces: at most 160 characters, no whitespace at either end, no two adjacent whitespace characters, and every non-space character kept in order |
| TyreSeo.DescriptionKeepsWords | src/seo/TyreSeo.tsx:11-12 | splitting the description into words gives back the words of the raw text |
| TyreSeo.DescriptionDefault | src/seo/TyreSeo.tsx:11-12 | a listing without a description shows the default text verbatim, since that text is already normalised |
| TyreSeo.DefaultDescriptionIsNormal | src/seo/TyreSeo.tsx:11 | the default text has single plain spaces between words and none at the ends |
| TyreSeo.SeparatedWordsAreNormal | src/seo/TyreSeo.tsx:12 | a text of plain spaces and Cyrillic letters whose spaces are neither adjacent nor at the ends is left unchanged by the normalisation's rules |
| TyreSeo.BlankDescriptionIsEmpty | src/seo/TyreSeo.tsx:11-12 | a description of whitespace only does not fall back to the default: the meta description comes out empty |
| TyreSeo.FirstWithWidth | src/seo/TyreSeo.tsx:15 | the first picture of the group with the given width, and none exactly when no picture has it |
| TyreSeo.Image | src/seo/TyreSeo.tsx:14-17 | the preview is the first 800-wide picture's URL in the first group when non-empty, else a non-empty URL of that group's first picture, else none |
| TyreSeo.ImageLooksAtFirstPreviewOnly | src/seo/TyreSeo.tsx:15-16 | when the first 800-wide picture has an empty URL the group's first picture is used, even if a later 800-wide picture has a URL |
| TyreSeo.UrlsOf | src/seo/TyreSeo.tsx:21 | the URL of every picture of a group, in order |
| TyreSeo.GroupUrls | src/seo/TyreSeo.tsx:21 | the group's URLs without the empty ones |
| TyreSeo.GroupUrlsIsFilter | src/seo/TyreSeo.tsx:21 | a group's URLs are the filter of its URLs by non-emptiness, order and duplicates kept |
| TyreSeo.GroupUrlsKeepsAll | src/seo/TyreSeo.tsx:21 | a group whose URLs are all non-empty gives all of them, in order |
| TyreSeo.GroupUrlsConcat | src/seo/TyreSeo.tsx:19-22 | the URLs of two groups of renditions in a row are the first's followed by the second's |
| TyreSeo.AllImages | src/seo/TyreSeo.tsx:19-22 | the structured-data images hold no empty URL |
| TyreSeo.AllImagesConcat | src/seo/TyreSeo.tsx:19-22 | the image list distributes over the groups, which keeps group order |
| TyreSeo.AllImagesMembers | src/seo/TyreSeo.tsx:19-22 | a URL is listed exactly when it is non-empty and some picture of some group has it |
| TyreSeo.ImageIsListed | src/seo/TyreSeo.tsx:14-22 | the preview image is one of the structured-data images |
| TyreSeo.OfferAvailability | src/seo/TyreSeo.tsx:43 | the offer is in stock exactly when the listing is active |
| Validation.Matches | src/schemas/validationSchemas.ts:14-17 | a one-class pattern such as `/[a-z]/` matches exactly when some character of the text is in the class |
| Validation.PasswordFailures | src/schemas/validationSchemas.ts:12-17 | each rule is reported exactly when it is broken: fewer than six characters, or no ASCII lower-case letter, upper-case letter, digit or other character |
| Validation.AlphanumericPasswordRefused | src/schemas/validationSchemas.ts:17 | a password made only of ASCII letters and digits is refused for lacking a special character, whatever its length |
| Validation.NewPasswordValidIff | src/schemas/validationSchemas.ts:12-17 | a new password is accepted exactly when it has at least six characters and one character of each of the four classes |
| Validation.ConfirmValid | src/schemas/validationSchemas.ts:21-24 | the confirmation is accepted exactly when it is non-empty and equal to the password it refers to |
| Validation.NameValid | src/schemas/validationSchemas.ts:3 | a name is accepted exactly when the part between its leading and trailing whitespace has at least two characters; an accepted name is not blank |
| Validation.CityValid | src/schemas/validationSchemas.ts:10 | a city is accepted exactly when the part between its leading and trailing whitespace has at least four characters; an accepted city is not blank |
| Validation.TrimmedLengthAtLeast | src/schemas/validationSchemas.ts:3-10 | the trimmed-length rule holds exactly when the part between the leading and trailing whitespace is long enough; text without surrounding whitespace is judged by its own length |
| Validation.PaddedShortNameRefused | src/schemas/validationSchemas.ts:3 | " a " is refused although it has three characters |
| Validation.TyreFailures | src/schemas/validationSchemas.ts:54-84 | a rule of the new-listing form is reported exactly when the form values break it |
| Validation.AcceptedTyreInput | src/schemas/validationSchemas.ts:54-84 | an accepted form has a year between 1900 and the current year, a positive quantity and price, and a non-zero tread depth or percentage within its range |
| Validation.ZeroTreadDepthAloneRefused | src/schemas/validationSchemas.ts:62-83 | a tread depth of 0 is within its range but falsy, so with no tread percentage the form is refused for missing tread information |
| Validation.YearRuleMonotone | src/schemas/validationSchemas.ts:58-61 | a year accepted in one calendar year stays accepted in every later one |
| TyreCard.IsOwner | src/hooks/useTyreCardLogic.ts:12 | the card's viewer owns the listing exactly when both the listing and the user are there and the ids match |
| TyreCard.ContainsId | src/hooks/useTyreCardLogic.ts:19-20 | the id is found exactly when some favourites entry, bare id or listing, carries it |
| TyreCard.IsFavorite | src/hooks/useTyreCardLogic.ts:14-21 | the card is a favourite exactly when there is a listing and some favourites entry carries its id |
| TyreCard.IsFavoriteEitherShape | src/hooks/useTyreCardLogic.ts:19 | a bare id and a listing carrying the id count the same, wherever they sit in the list |
| TyreCard.IsViewed | src/hooks/useTyreCardLogic.ts:23-26 | the read fails exactly on a corrupt slot, and the listing counts as viewed exactly when the stored list holds its id |
| TyreCard.DifferenceInDays | src/hooks/useTyreCardLogic.ts:29 | whole days between two instants, truncated toward zero in both directions |
| TyreCard.ExpiringSoonMeaning | src/hooks/useTyreCardLogic.ts:28-29 | expiring soon means less than 72 hours left, and every expired listing is also expiring soon |
| ViewedStorage.ParseViewed | src/hooks/useTyreDetailLogic.ts:69 | a missing slot reads as the empty list, a stored list as itself, and only a corrupt slot fails |
| TyreDetail.IsOwner | src/hooks/useTyreDetailLogic.ts:23-25 | the detail page decides ownership by the same rule as the listing card: false when the listing or the user id is missing |
| TyreDetail.ShouldFetchFavorites | src/hooks/useTyreDetailLogic.ts:32-36 | the favourites are fetched exactly while the id list is empty |
| TyreDetail.FavoritesEffectFetches | src/hooks/useTyreDetailLogic.ts:32-36 | the effect fetches only for an empty list, on mount whenever the list is empty, and never when the id count is unchanged since the last render |
| TyreDetail.FavoritesFetchTriggers | src/hooks/useTyreDetailLogic.ts:32-36 | on mount a cleared store fetches; clearing fetches again exactly when the store held ids; a favourites answer fetches again exactly when it empties a list that had ids |
| TyreDetail.EmptyFavoritesFetchedOnce | src/hooks/useTyreDetailLogic.ts:32-36 | on an empty store the favourites are fetched once, and neither the pending state nor an empty answer fetches again |
| TyreDetail.HandleToggleFavorite | src/hooks/useTyreDetailLogic.ts:48-57 | nothing is dispatched exactly when the user id is missing or empty or no listing is loaded; otherwise the listing's id and current flag |
| TyreDetail.ToggleFlipsFlag | src/hooks/useTyreDetailLogic.ts:48-57 | a dispatched toggle that succeeds flips the stored listing's flag and keeps it in step with the favourite ids |
| TyreDetail.MarkViewed | src/hooks/useTyreDetailLogic.ts:65-78 | the id is in the list afterwards; a known id changes nothing, a new one is appended, and a missing or corrupt list starts over with just the id |
| TyreDetail.MarkViewedIdempotent | src/hooks/useTyreDetailLogic.ts:65-78 | marking twice is marking once |
| TyreDetail.MarkViewedThenCard | src/hooks/useTyreDetailLogic.ts:65-78 | once marked, the card reads the listing as viewed, and other listings keep their status unless the list was corrupt |
| TyreDetail.MarkViewedKeepsDistinct | src/hooks/useTyreDetailLogic.ts:74-77 | a duplicate-free viewed list stays duplicate-free |
| UseTyres.Reset | src/hooks/useTyres.ts:18-22 | a new user or tab empties the list, goes back to page 1 and expects more, leaving the loading flags alone |
| UseTyres.LoadStart | src/hooks/useTyres.ts:24-47 | a load does nothing exactly when there is no user id, nothing more or a fetch in flight; otherwise page 1 raises the initial flag and later pages the fetching flag, and the favourites tab asks for the favourite ids while the others ask for the owner's page of six |
| UseTyres.StringIds | src/hooks/useTyres.ts:38 | keeps exactly the ids that are text, and never grows the list |
| UseTyres.TyresOrEmpty | src/hooks/useTyres.ts:42 | a failed request yields nothing, a reply without listings the empty list, any other reply its listings |
| UseTyres.FetchData | src/hooks/useTyres.ts:34-47 | the favourites tab asks for listings only when some favourite id is text and otherwise loads the empty list; other tabs take the owner's page |
| UseTyres.FavoritesWithoutStringIds | src/hooks/useTyres.ts:36-43 | favourites with no text id load the empty list without a second request |
| UseTyres.NoStringIds | src/hooks/useTyres.ts:38 | filtering a list of non-text ids leaves nothing |
| UseTyres.LoadSettle | src/hooks/useTyres.ts:49-61 | on success the old list (empty on page 1) is kept as a prefix and followed by exactly the new listings whose ids were not shown; more is expected only after a full page outside the favourites tab; a failure changes only the flags, and both flags drop either way |
| UseTyres.LoadSettleAppendsUnseen | src/hooks/useTyres.ts:49-51 | when no fetched listing was shown before, all of them are appended, in order, after the kept list |
| UseTyres.LoadSettleKeepsOrder | src/hooks/useTyres.ts:49-51 | the appended part of a fetched page is the appended part of its front followed by that of its back, so the fetched order is kept |
| UseTyres.FirstLoadAfterReset | src/hooks/useTyres.ts:18-51 | after a reset the first successful load shows exactly what the server sent |
| UseTyres.FavoritesLoadOnce | src/hooks/useTyres.ts:25-55 | after a successful favourites load no further load starts |
| MyAdsPage.RestoreTab | src/pages/MyAdsPage.tsx:15-18 | a saved value naming a tab restores that tab; anything else, or nothing, gives the active tab |
| MyAdsPage.RestoreSavedTab | src/pages/MyAdsPage.tsx:15-32 | the tab the page saves is the tab a reload restores |
| MyAdsPage.Filtered | src/pages/MyAdsPage.tsx:44-63 | the favourites tab shows the favourites as they are; any other tab shows exactly the owner's listings that pass the tab's test |
| MyAdsPage.ExactlyOneTab | src/pages/MyAdsPage.tsx:53-59 | each listing passes exactly one of the active, expired and deleted tests |
| MyAdsPage.TabsPartition | src/pages/MyAdsPage.tsx:44-63 | the active, expired and deleted tabs together show every listing exactly once |
| MyAdsPage.FilteredKeepsOrder | src/pages/MyAdsPage.tsx:47 | a tab keeps the listings in their order: filtering a concatenation is concatenating the filtered parts |
| StatusLabel.Choose | src/components/TyreStatusLabel/TyreStatusLabel.tsx:12-44 | expired wins over expiring soon, which wins over deleted, which wins over active; no badge exactly when no flag is set |
| StatusLabel.CardBadge | src/components/TyreStatusLabel/TyreStatusLabel.tsx:12-42 | on a card, a past expiry shows "ended", less than 72 hours left shows "ending soon", and "active" appears exactly for a live, undeleted listing with at least three days left |
| TyreActions.DeleteCommand | src/hooks/useTyreActions.ts:39 | an already deleted listing is removed for good, any other is moved to the deleted ones |
| TyreActions.OnConfirm | src/hooks/useTyreActions.ts:29-73 | no modal does nothing and never sets the flag; an activation past expiry dispatches nothing; otherwise the modal's action goes first, the owner's list is refetched exactly after it succeeds, `onRemove` (when the card was given one) is called exactly after a successful delete, and the flag ends false |
| TyreActions.DeleteEscalates | src/hooks/useTyreActions.ts:38-41 | once a soft delete has been applied to the feed, confirming delete on the same listing removes it for good |
| TyreForm.Stringify | src/utils/mapTyreToTyreForm.ts:23 | a missing value gives the empty text, text stays as it is, and a number gives non-empty decimal text |
| TyreForm.StringifyAgreesWithShow | src/utils/mapTyreToTyreForm.ts:23 | the form's text of a value differs from its template-literal text exactly when the value is missing |
| TyreForm.StringifyNumberReadsBack | src/utils/mapTyreToTyreForm.ts:23 | a non-negative number's form text is all digits and reads back as the same number |
| TyreForm.LiftUrls | src/utils/mapTyreToTyreForm.ts:14 | each legacy URL becomes its own one-picture group of width 500, in order |
| TyreForm.ConvertImages | src/utils/mapTyreToTyreForm.ts:4-18 | missing images give none, groups are kept as they are, and a flat URL list is lifted group by group |
| TyreForm.FirstUrls | src/utils/mapTyreToTyreForm.ts:14 | the first picture's URL of each group, in order |
| TyreForm.LiftUrlsRoundTrip | src/utils/mapTyreToTyreForm.ts:13-15 | lifting loses nothing: each group holds one picture and the first URLs are the legacy list |
| TyreForm.ConvertImagesIdempotent | src/utils/mapTyreToTyreForm.ts:4-18 | converting already converted images changes nothing |
| TyreForm.MapTyreToTyreForm | src/utils/mapTyreToTyreForm.ts:20-38 | every form field carries the listing's field: texts as they are, numbers as text, missing contact and description as empty |
| TyreForm.FormKeepsSize | src/utils/mapTyreToTyreForm.ts:23-25 | the width, height and radius read back from the form as the numbers stored |

## Left out

- Thunk bodies, axios and HTTP transport are not modelled; a request's outcome is an input.
- Timers are not modelled, and neither are `setInterval`/`setTimeout` scheduling or the debounce of the search field. A countdown is modelled as a sequence of ticks.
- The IntersectionObserver is not modelled; it is reduced to the "sentinel visible" event of the home page.
- `arrayMove`'s internals are not modelled; the drag handler is modelled up to the move it asks for.
- yup's email format check is not modelled; only the length, pattern and required rules are.
- JSON parsing of arbitrary stored values is not modelled. A stored filter object is a map whose keys are the known fields; a viewed list is either a list of ids or corrupt.
- The iteration order of `Object.entries` is not modelled; the URL is built in the fixed field order of the filter record.
- UTF-16 code units are not modelled: strings are sequences of characters, so lengths and `slice` count characters.
- `toLowerCase` is not modelled beyond ASCII and the Cyrillic letters of Ukrainian and Russian.
- `differenceInDays` is modelled as a millisecond difference truncated toward zero; daylight-saving shifts are ignored.
- Numbers are integers; fractional prices and tread depths are not modelled.
- The SEO image rule is modelled for grouped images only; the flat legacy image format is handled by the edit-form mapping only.
- `priceValidUntil` in the SEO offer depends on `Date.now` and is not modelled.
- HomePage.UrlRoundTrip: treats the query string as a list of key/value pairs. URL encoding and decoding are not modelled.
- The form's renders are not modelled: each image selection carries the picture list of the render that took it. When its upload settles without throwing and below the limit, that list plus its groups is what it writes back; otherwise it writes nothing.
- UseTyres.LoadSettle: a load is one step from the state it started in. The stale `tyres` captured by the callback between renders is not modelled.
- ProfileSlice.UpdateFulfilled: the update reply is taken as already in the client's profile shape (the source stores it without mapping `_id`).
- EmailSent.Open: the stored start time is modelled as a number or unreadable text. The `toString`/`parseInt` round trip of the stored value is not modelled.
- Api.HandleError: a reply body without `message` is not modelled separately; the body's message is a string, possibly empty.
- The resend button of the confirmation page (`EmailConfirmationPage.tsx` lines 61-75) is not modelled. It toasts success whatever the helper returns, for the same reason as the second finding below.
- EmailConfirmation.Confirm: a rejection whose message is the empty string is shown by the source as that empty string; the model shows the unknown-error text.
- Login, registration and the other API helpers outside the stores above are not modelled, nor are the admin pages and statistics.

## Findings

| source | as written | input that shows it | evidently intended | confidence | as-written member | corrected member |
|---|---|---|---|---|---|---|
| src/api/api.ts:63-66 | `confirmEmail` catches every failure and returns `handleError`'s text, so it never rejects; the confirmation page treats any resolved text without "токен недійсний" or "протермінований" as success and clears the pending email | the server is unreachable (`ERR_NETWORK`): the page shows "Не вдалося підтвердити пошту" on the success screen and forgets the pending email | a failure is rethrown as an error carrying that text, so the page shows the error screen and keeps the pending email | high, not executed | EmailConfirmation.NetworkFailureShownAsSuccess | EmailConfirmation.NetworkFailureShownAsError |
| src/api/api.ts:69-72 | `resendEmailConfirmation` catches every failure and returns `handleError`'s text, so the page's error branch is never taken | any failed resend: the failure text is toasted as a success and the 60-second cooldown starts and is stored | a failure is rethrown as an `Error` whose `message` is that text (the page reads `err.message`), so it is toasted as an error and no cooldown starts | high, not executed | EmailSent.FailedResendStartsCooldown | EmailSent.ResendOver |
| src/components/ImageUploader/ImageUploader.tsx:54-93 | `readFiles` counts the free slots from, and appends to, the picture list of the render that took the selection: the form resolves the `prev =>` updater against that render's `values.images` (TyreFormComponent.tsx lines 170-180), and nothing stops a second selection while the first is uploading | six pictures; drop one image, and drop another while the first is still uploading: each settled upload writes six plus its own picture, so the list ends with seven and the first picture is lost | every uploaded picture is kept, up to the limit of eight | medium, not executed | ImageUploader.OverlappingSelectionsLoseFirst | ImageUploader.ReadFilesToLatest |
