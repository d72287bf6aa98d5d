# VueDB2SpringBoot photo gallery — a Dafny model

The system is a photo gallery. A Spring Boot back end keeps users, photos and
galleries in a relational database and serves them over HTTP. A Vue front end
keeps the signed-in session and the current page of photos in two stores. This
project models the core of both sides and proves what each operation promises.

The back end is modelled like this:

- **Store records.** A photo, a user and a gallery are datatypes. The database
  is the class `Store.Database`. It has one `map` per table and one identity
  counter per table. `TablesValid` states the integrity rules every write
  keeps. Some come from the schema: the unique username and email columns
  of `User`, and owners and galleries that exist. Two are application
  invariants that the services' own checks keep: gallery names are unique
  per user (`createGallery`, `updateGallery`), and a filed photo has the
  same owner as its gallery (`movePhotos`).
- **Operations.** Every service and controller operation that writes is a
  method that `modifies` the database. Its `ensures` gives the whole new state
  as a function of the old one, separately for each error path and for
  success. Every such method also keeps `Valid()`. Lemmas over the table
  values prove that each write keeps the integrity rules.
- **Queries.** Repository queries are functions over the tables. Each states
  which rows it returns and in what order. Spring's `Page` is the `Paging`
  module: one slice of an ordered result.

The front end is modelled like this:

- **Stores.** `photoStore` and `authStore` are classes whose fields are the
  stores' refs. `localStorage` and `sessionStorage` are fields too.
- **Answers from outside.** The server's answers, the clock, the token payload
  parser and the base64 encoder are parameters. Each store action states its
  new state through a pure transition function, and lemmas prove what those
  functions keep.
- **Utilities.** The JWT helpers (`decodeJwt`, `getUserIdFromToken`,
  `isTokenExpired`, `getTokenExpiration`) and the default avatar generator are
  pure functions.

Errors the source raises are modelled as values:

- A `ResponseStatusException` is `Err` or `Failed`, carrying the HTTP status
  it names.
- A `RuntimeException` is labelled with the kind its message names. This
  covers the gallery service's exceptions and the "User not found" of
  `userService.getCurrentUser`, which is `NotFound`.
- A `NullPointerException` on a photo without an owner is `Internal`.
- A thrown front-end error is `Threw`, carrying its message.

## Model

| member | source | states |
|---|---|---|
| Entities.NewUser | backend/src/main/java/com/redligot/backend/model/User.java:63-66 | the no-argument constructor stamps createdAt and updatedAt with the two clock readings and leaves username, email, password and the picture null |
| Entities.NewUserWith | backend/src/main/java/com/redligot/backend/model/User.java:69-74 | the three-argument constructor keeps the given username, email and password, with both timestamps set |
| Entities.PreUpdateOnlyStamps | backend/src/main/java/com/redligot/backend/model/User.java:165-168 | preUpdate changes nothing but updatedAt: createdAt survives, and the column constraints hold after it exactly when they held before |
| Entities.FlushUpdateStampsOnlyChanges | backend/src/main/java/com/redligot/backend/model/User.java:165-168 | a save that changes no field keeps the row as loaded; a changed row is stored as given with updatedAt set to now, createdAt and the column constraints kept |
| Dtos.PhotoDtoOf | backend/src/main/java/com/redligot/backend/dto/PhotoDto.java:19-27 | the DTO copies id, title, description, filename, content type and size, and carries no owner or gallery |
| GalleryRepository.FindByIdAndUserId | backend/src/main/java/com/redligot/backend/repository/GalleryRepository.java:21 | a gallery is returned exactly when both its id and its owner match, and it is the stored one |
| GalleryRepository.ExistsByNameIsPerUser | backend/src/main/java/com/redligot/backend/repository/GalleryRepository.java:23 | a gallery always collides with its own name under its own owner; a name used only by other users is free |
| GalleryRepository.UserGalleryIdsNewestFirst | backend/src/main/java/com/redligot/backend/repository/GalleryRepository.java:17 | exactly the ids of the user's galleries, each once, ordered by createdAt descending |
| GalleryRepository.FindByUserIdOrderByCreatedAtDesc | backend/src/main/java/com/redligot/backend/repository/GalleryRepository.java:17 | one entry per gallery of the user: the stored gallery under each id of the newest-first id list, in that order |
| GalleryRepository.PhotoIdsOfGallery | backend/src/main/java/com/redligot/backend/repository/GalleryRepository.java:28-32 | exactly the ids of the photos filed in the gallery, ascending (ORDER BY p.id ASC) |
| GalleryRepository.PhotoCountIsGallerySize | backend/src/main/java/com/redligot/backend/repository/GalleryRepository.java:25 | COUNT(p) equals the number of photos filed in the gallery, and the listed ids are exactly those photos |
| GalleryRepository.FindGalleriesWithPhotoCountByUserId | backend/src/main/java/com/redligot/backend/repository/GalleryRepository.java:25-26 | one row per gallery of the user, an empty gallery included with count 0, each count the gallery's photo count, rows newest first |
| GalleryRepository.FindByIdAndUserIdWithFirstPhotos | backend/src/main/java/com/redligot/backend/repository/GalleryRepository.java:28-29 | present exactly when the owner-scoped lookup finds the gallery; it comes with its photos by ascending id |
| GalleryRepository.GalleryPhotos | backend/src/main/java/com/redligot/backend/repository/GalleryRepository.java:28-32 | the photos under the gallery's listed ids (exactly its photos, ascending), one for each id, in that order |
| GalleryRepository.FindGalleriesWithPhotosByUserId | backend/src/main/java/com/redligot/backend/repository/GalleryRepository.java:31-32 | one entry per gallery of the user, every one of them, newest first, each paired with all its photos by ascending id |
| GalleryService.ConvertToDto | backend/src/main/java/com/redligot/backend/service/GalleryService.java:163-173 | the gallery's id, name, description, owner, createdAt and updatedAt, with its photo count and no photo list |
| GalleryService.ConvertToDtoCountsPhotos | backend/src/main/java/com/redligot/backend/service/GalleryService.java:169 | the reported photoCount is the number of photos filed in the gallery |
| GalleryService.ConvertPhotoToDto | backend/src/main/java/com/redligot/backend/service/GalleryService.java:186-197 | the photo's descriptive fields plus its owner id; galleryId is null exactly when the photo has no gallery |
| GalleryService.GalleryPhotoDtos | backend/src/main/java/com/redligot/backend/service/GalleryService.java:175-184 | every photo of the gallery as a DTO, by ascending id, each tagged with the gallery and the gallery's owner, as many as photoCount |
| GalleryService.GalleryPhotoDtosComplete | backend/src/main/java/com/redligot/backend/service/GalleryService.java:175-184 | the listed photos are exactly the photos filed in the gallery, each once, ids strictly ascending |
| GalleryService.GetGallery | backend/src/main/java/com/redligot/backend/service/GalleryService.java:77-82 | NotFound exactly when the gallery is missing or another user's; otherwise convertToDto of the gallery with all its photos as previewPhotos, as many as photoCount |
| GalleryService.GetGalleryPreview | backend/src/main/java/com/redligot/backend/service/GalleryService.java:84-98 | the same answer as getGallery but with the first min(4, photoCount) photos of the full list |
| GalleryService.GetGalleriesForDropdown | backend/src/main/java/com/redligot/backend/service/GalleryService.java:156-161 | one DTO per gallery of the user, newest first: convertToDto of the gallery under each id of the newest-first id list |
| GalleryService.DropdownListsEachGalleryOnce | backend/src/main/java/com/redligot/backend/service/GalleryService.java:156-161 | in valid tables no gallery is listed twice, and the list is as long as the user has galleries |
| GalleryService.GetUserGalleries | backend/src/main/java/com/redligot/backend/service/GalleryService.java:49-59 | one entry per gallery of the user, newest first: convertToDto of the gallery under each id, with the count of its photos (0 for an empty gallery) |
| GalleryService.OverviewMatchesDropdown | backend/src/main/java/com/redligot/backend/service/GalleryService.java:49-59 | the overview lists the same galleries in the same order as the dropdown |
| GalleryService.GetUserGalleriesPage | backend/src/main/java/com/redligot/backend/service/GalleryService.java:72-75 | the paged variant is exactly the requested page of the dropdown list |
| GalleryService.PageOfConverted | backend/src/main/java/com/redligot/backend/service/GalleryService.java:72-75 | Page.map(convertToDto) of a page is the same page of the converted list |
| GalleryService.AddGalleryKeepsValid | backend/src/main/java/com/redligot/backend/service/GalleryService.java:43-44 | a new gallery of an existing user under a name the user does not use keeps every integrity rule |
| GalleryService.RenameGalleryKeepsValid | backend/src/main/java/com/redligot/backend/service/GalleryService.java:105-113 | renaming to the gallery's own name or to a name its owner does not use keeps every integrity rule |
| GalleryService.CreateGallery | backend/src/main/java/com/redligot/backend/service/GalleryService.java:35-47 | NotFound exactly when the user is absent, Conflict exactly when the user already has that name, both changing nothing; otherwise exactly one gallery is added, with that name, description and owner |
| GalleryService.UpdateGallery | backend/src/main/java/com/redligot/backend/service/GalleryService.java:100-115 | NotFound exactly when the gallery is missing or foreign; Conflict exactly when the name changes to one the user already uses; on success only that gallery's name and description change |
| GalleryService.DeleteGalleryKeepsValid | backend/src/main/java/com/redligot/backend/service/GalleryService.java:117-131 | both deletion branches keep every integrity rule (no photo left pointing at the removed gallery) |
| GalleryService.ListedPhotosAreGalleryPhotos | backend/src/main/java/com/redligot/backend/service/GalleryService.java:121-128 | deleting or unfiling the photos the gallery lists is deleting or unfiling exactly the photos filed in it |
| GalleryService.DeleteGalleryOutcomes | backend/src/main/java/com/redligot/backend/service/GalleryService.java:121-130 | with deletePhotos every photo of the gallery is removed and no other; without it every photo survives, those of the gallery with gallery = null and nothing else changed |
| GalleryService.DeleteGallery | backend/src/main/java/com/redligot/backend/service/GalleryService.java:117-131 | NotFound exactly for a missing or foreign gallery, changing nothing; otherwise the gallery is removed and its photos deleted or unfiled |
| GalleryService.OwnershipCheck | backend/src/main/java/com/redligot/backend/service/GalleryService.java:135-140 | passes exactly when every found photo is the user's; a failure is the internal error of an ownerless photo or the refusal of a foreign one |
| GalleryService.CheckOwnership | backend/src/main/java/com/redligot/backend/service/GalleryService.java:136-140 | the forEach check stops at the first photo without an owner or with another owner, with the same verdict as OwnershipCheck |
| GalleryService.ReassignedOutcome | backend/src/main/java/com/redligot/backend/service/GalleryService.java:152-153 | after a move every requested photo is filed under the target (or unfiled), nothing else about it changes, and other photos are untouched |
| GalleryService.ReassigningFoundIds | backend/src/main/java/com/redligot/backend/service/GalleryService.java:135 | moving the photos findAllById found is moving the requested ids: ids that match no photo change nothing |
| GalleryService.MoveKeepsValid | backend/src/main/java/com/redligot/backend/service/GalleryService.java:152-153 | moving the user's own photos into the user's gallery, or out of any gallery, keeps every integrity rule |
| GalleryService.MovePhotos | backend/src/main/java/com/redligot/backend/service/GalleryService.java:133-154 | the ownership check comes first, then the target gallery check (NotFound); a failure changes nothing; success reassigns exactly the found photos |
| PhotoRepository.FindById | backend/src/main/java/com/redligot/backend/service/PhotoService.java:71-75 | the stored row exactly when the id is present, otherwise NotFound; also the account lookup of the owner-scoped controller |
| PhotoRepository.FindAllById | backend/src/main/java/com/redligot/backend/service/GalleryService.java:135 | the requested ids that are stored, each once, and every requested stored id |
| PhotoRepository.Insert | backend/src/main/java/com/redligot/backend/service/PhotoService.java:112 | save of a new photo stores it under the next identity, which it now carries, and keeps the store valid |
| PhotoRepository.DeleteAll | backend/src/main/java/com/redligot/backend/service/PhotoService.java:266 | deleteAllById removes exactly the listed photos |
| PhotoRepository.SetGalleryAll | backend/src/main/java/com/redligot/backend/service/GalleryService.java:126-127 | setGallery on each listed photo then saveAll: the listed stored photos point at the target, nothing else changes |
| PhotoService.ValidateUpload | backend/src/main/java/com/redligot/backend/service/PhotoService.java:91-101 | a file over 8 MiB is FileTooLarge; otherwise a null or non-"image/" content type is NotAnImage; otherwise the file passes |
| PhotoService.SizeLimitIsInclusive | backend/src/main/java/com/redligot/backend/service/PhotoService.java:91 | an image of exactly 8 MiB passes and one byte more fails |
| PhotoService.NewPhoto | backend/src/main/java/com/redligot/backend/service/PhotoService.java:103-110 | the new photo holds the title, description, filename, content type, size, bytes and owner verbatim, with no gallery |
| PhotoService.NewPhotoInvariant | backend/src/main/java/com/redligot/backend/model/Photo.java:21-62 | the created photo meets the column constraints exactly when title, description, filename and content type fit them |
| PhotoService.Create | backend/src/main/java/com/redligot/backend/service/PhotoService.java:88-117 | a rejected upload returns the validation error and changes nothing; an accepted one adds exactly that photo under the next id |
| PhotoService.FilenameWithoutExtension | backend/src/main/java/com/redligot/backend/service/PhotoService.java:188-192 | "Untitled" for no name; the prefix before the last '.' when that dot is past index 0; the whole name otherwise |
| PhotoService.BulkTitleChoice | backend/src/main/java/com/redligot/backend/service/PhotoService.java:142-144 | the title is the trimmed titles[i] when present and non-blank, else the filename without extension |
| PhotoService.BulkDescription | backend/src/main/java/com/redligot/backend/service/PhotoService.java:147 | descriptions[i] when i is in range, else null |
| PhotoService.FirstInvalidUpload | backend/src/main/java/com/redligot/backend/service/PhotoService.java:138-161 | every file before the returned index passes validation and the file at it fails |
| PhotoService.SavedIntoContents | backend/src/main/java/com/redligot/backend/service/PhotoService.java:172 | after saving k photos the earlier photos are untouched and ids base..base+k-1 hold the built photos in order |
| PhotoService.SaveBulkFile | backend/src/main/java/com/redligot/backend/service/PhotoService.java:139-172 | one iteration: a failing file changes nothing, a passing one is saved under the next id |
| PhotoService.SaveFiles | backend/src/main/java/com/redligot/backend/service/PhotoService.java:138-177 | the loop saves the files before the first invalid one, in order, and stops there with that file's error |
| PhotoService.BulkCreate | backend/src/main/java/com/redligot/backend/service/PhotoService.java:130-180 | null or no files is BadRequest with nothing saved; otherwise one saved photo per file in order, or the first invalid file's error after the earlier ones were saved |
| PhotoService.UpdateKeepsIdentity | backend/src/main/java/com/redligot/backend/service/PhotoService.java:204-235 | update keeps id, owner, gallery and createdAt, always sets title and description, and replaces the file fields only for a non-empty file |
| PhotoService.Update | backend/src/main/java/com/redligot/backend/service/PhotoService.java:204-236 | NotFound exactly for a missing id; a non-empty file is validated as in create; a rejection changes nothing; success replaces only that photo |
| PhotoService.DeleteById | backend/src/main/java/com/redligot/backend/service/PhotoService.java:244-250 | NotFound exactly for a missing id, changing nothing; otherwise exactly that photo is removed |
| PhotoService.AllExist | backend/src/main/java/com/redligot/backend/service/PhotoService.java:260-265 | the existence loop passes exactly when every id is stored |
| PhotoService.BulkDeleteByIds | backend/src/main/java/com/redligot/backend/service/PhotoService.java:258-267 | NotFound with nothing deleted when any id is missing; otherwise exactly the listed photos are removed |
| PhotoService.GetMetadata | backend/src/main/java/com/redligot/backend/service/PhotoService.java:276-286 | NotFound exactly for a missing id; otherwise the stored fields without the bytes |
| PhotoService.GetImageResource | backend/src/main/java/com/redligot/backend/service/PhotoService.java:295-302 | NotFound exactly for a missing photo or null bytes; a zero-length array is returned as it is |
| PhotoService.CreateReadsBack | backend/src/main/java/com/redligot/backend/service/PhotoService.java:103-112 | what create stores reads back through getMetadata and getImageResource as the submitted fields and bytes |
| PhotoService.UpdateReadsBack | backend/src/main/java/com/redligot/backend/service/PhotoService.java:225-228 | what update stores with a non-empty file reads back as the new title, description, file fields and bytes |
| PhotoController.OwnedPhoto | backend/src/main/java/com/redligot/backend/controller/PhotoController.java:123-127 | NotFound exactly for a missing photo, checked first; an internal error for an ownerless one; Forbidden exactly for another user's photo; the photo itself only for its owner |
| PhotoController.Get | backend/src/main/java/com/redligot/backend/controller/PhotoController.java:120-129 | the photo's DTO only for its owner; otherwise the gate's error |
| PhotoController.GetMetadata | backend/src/main/java/com/redligot/backend/controller/PhotoController.java:325-335 | the service's metadata only for the owner; otherwise the gate's error |
| PhotoController.Create | backend/src/main/java/com/redligot/backend/controller/PhotoController.java:155-164 | NotFound with nothing saved for a principal without an account; otherwise the service's create for that user |
| PhotoController.BulkCreate | backend/src/main/java/com/redligot/backend/controller/PhotoController.java:189-212 | NotFound with nothing saved for a principal without an account; otherwise the service's bulkCreate for that user; users, galleries and their counters never change |
| PhotoController.Update | backend/src/main/java/com/redligot/backend/controller/PhotoController.java:235-249 | a refused gate changes nothing and returns its error; otherwise the service's update |
| PhotoController.Delete | backend/src/main/java/com/redligot/backend/controller/PhotoController.java:266-276 | a refused gate changes nothing; otherwise exactly that photo is removed |
| PhotoController.FirstRejected | backend/src/main/java/com/redligot/backend/controller/PhotoController.java:298-304 | every id before the returned index passes the gate and the id at it does not |
| PhotoController.CheckAllOwned | backend/src/main/java/com/redligot/backend/controller/PhotoController.java:298-306 | the pre-check loop returns the gate's error for the first refused id, and passes when none is refused |
| PhotoController.CheckPassesIffAllOwned | backend/src/main/java/com/redligot/backend/controller/PhotoController.java:298-304 | the pre-check passes exactly when every id is a stored photo of the principal |
| PhotoController.BulkDelete | backend/src/main/java/com/redligot/backend/controller/PhotoController.java:294-308 | one missing or foreign id fails with nothing deleted; otherwise exactly the listed photos are removed |
| PhotoController.AttachmentOf | backend/src/main/java/com/redligot/backend/controller/PhotoController.java:361-366 | filename "photo-"+id when the original name is null, octet-stream for a null type, the stored size or else the data length |
| PhotoController.FallbackFilenameNamesPhoto | backend/src/main/java/com/redligot/backend/controller/PhotoController.java:361-362 | the fallback filename spells the photo id in decimal, which reads back as the id |
| PhotoController.Download | backend/src/main/java/com/redligot/backend/controller/PhotoController.java:352-368 | the owner gets the bytes with the fallback headers; the gate's error otherwise, and NotFound for null bytes |
| PhotoController.FromPage | backend/src/main/java/com/redligot/backend/controller/PhotoController.java:60-75 | totalElements, totalPages, size, number, first, last and numberOfElements copied unchanged, content mapped element-wise |
| PhotoController.FromPageLastReachesEnd | backend/src/main/java/com/redligot/backend/controller/PhotoController.java:60-75 | for a page in range, last is set exactly when the page reaches the end of the result list |
| Paging.TotalPages | backend/src/main/java/com/redligot/backend/controller/PhotoController.java:60-75 | the page count is the least number of pages holding every element |
| Paging.LastPageReachesEnd | backend/src/main/java/com/redligot/backend/controller/PhotoController.java:60-75 | a page in range is the last one exactly when it reaches the end of the list |
| LegacyPhotoController.AllPhotoIds | backend/src/main/java/com/redligot/backend/PhotoController.java:31-34 | every stored photo id, once each, ascending |
| LegacyPhotoController.List | backend/src/main/java/com/redligot/backend/PhotoController.java:31-34 | findAll: every stored photo, each as stored, ordered by id |
| LegacyPhotoController.Get | backend/src/main/java/com/redligot/backend/PhotoController.java:42-47 | the stored photo, or NotFound exactly for a missing id |
| LegacyPhotoController.GetMetadata | backend/src/main/java/com/redligot/backend/PhotoController.java:55-68 | NotFound exactly for a missing id; otherwise id, title, description, filename, content type and size |
| LegacyPhotoController.LegacyPhotoIsUnowned | backend/src/main/java/com/redligot/backend/PhotoController.java:101-108 | the legacy record is the owned create's photo without an owner, so it breaks the owner constraint |
| LegacyPhotoController.Create | backend/src/main/java/com/redligot/backend/PhotoController.java:96-110 | every upload is stored verbatim with no size or type check, with no owner and no gallery, under the next id |
| LegacyPhotoController.UpdatedPhotoKeepsValid | backend/src/main/java/com/redligot/backend/PhotoController.java:128-142 | the unchecked update keeps every integrity rule |
| LegacyPhotoController.Update | backend/src/main/java/com/redligot/backend/PhotoController.java:122-143 | NotFound exactly for a missing id; otherwise new title and description, file fields only for a non-empty file, no validation |
| LegacyPhotoController.Delete | backend/src/main/java/com/redligot/backend/PhotoController.java:151-158 | NotFound exactly for a missing id, nothing changed; otherwise exactly that photo is removed |
| LegacyPhotoController.Download | backend/src/main/java/com/redligot/backend/PhotoController.java:166-181 | NotFound for a missing photo and for null or empty bytes; otherwise the bytes with the same header fallbacks |
| LegacyPhotoController.EmptyImageDownloads | backend/src/main/java/com/redligot/backend/PhotoController.java:170-172 | on a stored empty image the legacy download says NotFound while the service hands out the empty bytes |
| AuthController.AddUserKeepsValid | backend/src/main/java/com/redligot/backend/controller/AuthController.java:84-96 | an account with a fresh username and email under the next id keeps every integrity rule |
| AuthController.RegisterUser | backend/src/main/java/com/redligot/backend/controller/AuthController.java:80-99 | a taken username is refused first, then a taken email, neither saving anything; success stores the user with the encoded password |
| AuthController.RegisteredAccountIsUnique | backend/src/main/java/com/redligot/backend/controller/AuthController.java:84-96 | after signup the new account is the only one with that username and that email |
| AuthController.Account | backend/src/main/java/com/redligot/backend/controller/AuthController.java:109-118 | Unauthorized exactly without a principal, NotFound exactly for a principal without an account |
| AuthController.GetCurrentUser | backend/src/main/java/com/redligot/backend/controller/AuthController.java:108-133 | 401 and 404 as above; otherwise the account's fields, hasProfilePicture exactly when the picture bytes are non-null and non-empty |
| AuthController.GetProfilePicture | backend/src/main/java/com/redligot/backend/controller/AuthController.java:142-161 | 404 when the picture bytes are null or empty; otherwise the stored bytes with their media type |
| AuthController.ProfileConflict | backend/src/main/java/com/redligot/backend/controller/AuthController.java:204-213 | a username conflict exactly when it changes and is taken, then an email conflict exactly when it changes and is taken |
| AuthController.ProfileConflictIsAnotherAccount | backend/src/main/java/com/redligot/backend/controller/AuthController.java:204-213 | submitting one's own values never conflicts; under the unique columns a conflict means another account holds the value |
| AuthController.ApplyProfileFields | backend/src/main/java/com/redligot/backend/controller/AuthController.java:216-256 | new username and email; the password re-encoded only when non-blank; a null picture clears all four fields, a non-empty one replaces them, an empty one keeps them |
| AuthController.ProfileUpdateKeepsValid | backend/src/main/java/com/redligot/backend/controller/AuthController.java:204-258 | saving the profile after the checks passed keeps every integrity rule |
| AuthController.UnchangedProfileKeepsAccount | backend/src/main/java/com/redligot/backend/controller/AuthController.java:181-283 | resubmitting one's own username and email with no new password and no picture change leaves the stored account as it was, updatedAt included |
| AuthController.UpdateProfile | backend/src/main/java/com/redligot/backend/controller/AuthController.java:181-283 | 401/404 first, then the two conflicts, all changing nothing; success saves the account with the updated fields, and updatedAt is refreshed only when some field changed |
| PhotoStore.Initial | frontend/src/stores/photoStore.ts:7-15 | the store opens with no photos, on the first page, with no further page |
| PhotoStore.PageFlags | frontend/src/stores/photoStore.ts:23-26 | isFirstPage is not hasPreviousPage; within range isLastPage is not hasNextPage; with no pages neither is set |
| PhotoStore.FetchedOutcomes | frontend/src/stores/photoStore.ts:35-45 | a successful fetch copies content, number, size, totalElements and totalPages; a failed one sets the error and keeps the photos; loading is false after both |
| PhotoStore.FileRejection | frontend/src/stores/photoStore.ts:68-74 | a file is accepted exactly when it is at most 8 MiB and its type starts with "image/" |
| PhotoStore.FileChecksAgree | frontend/src/stores/photoStore.ts:68-74 | the client-side check accepts exactly the files the server-side validation accepts |
| PhotoStore.FindIndex | frontend/src/stores/photoStore.ts:110 | findIndex is the first position holding that id, or -1 exactly when none does |
| PhotoStore.ReplaceFirstChangesOneEntry | frontend/src/stores/photoStore.ts:110-113 | only the first entry with that id is replaced; the length and all other entries are unchanged |
| PhotoStore.Without | frontend/src/stores/photoStore.ts:130 | the entries kept are exactly those with another id |
| PhotoStore.WithoutKeepsOrder | frontend/src/stores/photoStore.ts:130 | filter keeps the order: filtering a concatenation concatenates the two filtered parts |
| PhotoStore.WithoutSingle | frontend/src/stores/photoStore.ts:130 | a single entry is kept exactly when its id differs |
| PhotoStore.WithoutKeepsMultiplicity | frontend/src/stores/photoStore.ts:130 | every entry of another id is kept as often as it occurs, and none of that id |
| PhotoStore.WithoutAbsentIsIdentity | frontend/src/stores/photoStore.ts:130 | deleting an id that is not listed leaves the list as it was |
| PhotoStore.AfterDeleteOutcomes | frontend/src/stores/photoStore.ts:130-135 | every entry with that id is gone; the previous page is fetched only when the list became empty off the first page |
| PhotoStore.Store.constructor | frontend/src/stores/photoStore.ts:7-15 | the refs start in the initial state |
| PhotoStore.Store.FetchPhotos | frontend/src/stores/photoStore.ts:29-46 | requests the given page and size (0 and 10 by default) and ends in the fetched state for the answer |
| PhotoStore.Store.FetchNextPage | frontend/src/stores/photoStore.ts:48-52 | fetches page currentPage+1 only when hasNextPage; otherwise no request and no change |
| PhotoStore.Store.FetchPreviousPage | frontend/src/stores/photoStore.ts:54-58 | requests page currentPage-1, and takes in the answer, only when hasPreviousPage; otherwise no request |
| PhotoStore.Store.GoToPage | frontend/src/stores/photoStore.ts:60-64 | fetches only when 0 <= page < totalPages; otherwise no request and no change |
| PhotoStore.Store.AddPhoto | frontend/src/stores/photoStore.ts:66-90 | a rejected file throws before any state change; a created photo is followed by a request for the current page and size, whose answer is taken in; a failed create records its error and requests nothing |
| PhotoStore.Store.UpdatePhoto | frontend/src/stores/photoStore.ts:92-121 | a rejected file throws before any state change; otherwise the first matching entry is replaced by the answer, or a failure records its error |
| PhotoStore.Store.DeletePhoto | frontend/src/stores/photoStore.ts:123-142 | on success the entries with that id are removed; when that empties a page after the first, page currentPage-1 is requested and its answer taken in; a failure only records the error |
| PhotoStore.Store.ClearError | frontend/src/stores/photoStore.ts:144-146 | only the error is cleared |
| AuthStore.AuthHeaders | frontend/src/stores/authStore.ts:72-74 | an Authorization header "Bearer <token>" exactly when a non-empty token is held, and no other header |
| AuthStore.CurrentUserId | frontend/src/stores/authStore.ts:76-78 | null without a token, otherwise the token's user id |
| AuthStore.LoginRejection | frontend/src/stores/authStore.ts:38-45 | login accepts exactly an unexpired token whose user id is non-zero and equals userData.id; an expired token is reported first |
| AuthStore.EmptyTokenHasNoPayload | frontend/src/utils/jwt.ts:19-22 | the empty string has no payload |
| AuthStore.AcceptedTokenAuthenticates | frontend/src/stores/authStore.ts:24-50 | a token login accepts is held and yields the logged-in user's id |
| AuthStore.Store.constructor | frontend/src/stores/authStore.ts:20-21 | the token starts from the persisted one, with no user and the computed not yet evaluated |
| AuthStore.Store.Logout | frontend/src/stores/authStore.ts:52-57 | user, token, the persisted token and the session storage are cleared; clearing a held token makes isAuthenticated stale |
| AuthStore.Store.IsAuthenticated | frontend/src/stores/authStore.ts:24-33 | a cached value is returned unchanged, without reading the clock; a stale one is recomputed: false without a token, false and a logout for an expired one, true with nothing else changed otherwise; a cached true always means a token is held |
| AuthStore.Store.Login | frontend/src/stores/authStore.ts:36-50 | a rejection throws its message and changes nothing; success sets the user and the token, persists the token, and makes isAuthenticated stale when the token changed |
| AuthStore.Store.SetUser | frontend/src/stores/authStore.ts:68-70 | sets the user only; the cached isAuthenticated is kept |
| Jwt.PadCount | frontend/src/utils/jwt.ts:27 | fewer than 4 padding characters, making the length a multiple of 4 |
| Jwt.Pad | frontend/src/utils/jwt.ts:27 | the payload followed by only '=' characters, fewer than 4, up to a multiple of 4 |
| Jwt.ReplaceAll | frontend/src/utils/jwt.ts:28 | each occurrence of one character replaced, every other character kept |
| Jwt.Base64TextIsAlphabetMapping | frontend/src/utils/jwt.ts:27-28 | '-' becomes '+', '_' becomes '/', other characters are kept, then padding follows |
| Jwt.Base64TextRoundTrip | frontend/src/utils/jwt.ts:27-28 | mapping the base64 characters back recovers the base64url payload |
| Jwt.DecodeJwt | frontend/src/utils/jwt.ts:16-35 | null unless the token has exactly three '.'-separated parts; otherwise the parse of the converted middle part |
| Jwt.SplitCount | frontend/src/utils/jwt.ts:19 | a string splits into one more part than it has separators |
| Jwt.ThreePartsIffTwoDots | frontend/src/utils/jwt.ts:19-22 | three parts exactly when the token has two dots; any other token decodes to null |
| Jwt.DecodesCompactPayload | frontend/src/utils/jwt.ts:19-28 | a header.payload.signature token decodes to the parse of its payload |
| Jwt.ParseIntReadsDigits | frontend/src/utils/jwt.ts:47-48 | parseInt of digits followed by anything else reads the digits' value |
| Jwt.ParseIntReadsSign | frontend/src/utils/jwt.ts:47-48 | a leading '-' negates the value |
| Jwt.ParseIntRoundTrip | frontend/src/utils/jwt.ts:47-48 | parseInt reads back a decimal numeral as its value |
| Jwt.UserIdFromToken | frontend/src/utils/jwt.ts:42-50 | null without a payload, without a non-empty sub, or when sub does not parse; otherwise parseInt of sub |
| Jwt.UserIdOfDecimalSubject | frontend/src/utils/jwt.ts:42-50 | a token whose sub is a decimal numeral yields exactly that id |
| Jwt.IsTokenExpired | frontend/src/utils/jwt.ts:57-65 | expired without a payload or a non-zero exp; otherwise exp is compared with the current whole second |
| Jwt.ExpiredIffSecondPassed | frontend/src/utils/jwt.ts:61-64 | expired exactly when (exp+1)*1000 <= now in milliseconds, so exp equal to the current second is not expired |
| Jwt.TokenExpiration | frontend/src/utils/jwt.ts:72-79 | null without a payload or a non-zero exp, otherwise exp*1000 |
| Jwt.ExpirationAgreesWithExpiry | frontend/src/utils/jwt.ts:57-79 | no expiration means expired; otherwise expired exactly when the expiration is <= now minus the current millisecond fraction |
| Avatar.FirstLetter | frontend/src/utils/avatar.ts:26 | charAt(0) upper-cased: empty for an empty word, otherwise the ASCII-upper-cased first character |
| Avatar.FirstTwoLetters | frontend/src/utils/avatar.ts:26-28 | at most two characters, none a lower-case ASCII letter |
| Avatar.InitialsOfWords | frontend/src/utils/avatar.ts:24-28 | for space-free words the initials are the first letters of the first two words |
| Avatar.InitialsOfFullName | frontend/src/utils/avatar.ts:24-28 | "first last" gives the two capitals |
| Avatar.ColorIndex | frontend/src/utils/avatar.ts:31-32 | username.length (UTF-16 code units) mod 12, always a valid palette index |
| Avatar.Utf16Length | frontend/src/utils/avatar.ts:31 | between one and two code units per character |
| Avatar.Utf16LengthOfConcat | frontend/src/utils/avatar.ts:31 | the length of a concatenation is the sum of the lengths |
| Avatar.CharacterAddsItsCodeUnits | frontend/src/utils/avatar.ts:31 | an appended character adds two units above U+FFFF and one otherwise |
| Avatar.ColorIndexOfBmp | frontend/src/utils/avatar.ts:31 | for text inside the Basic Multilingual Plane the slot is the character count mod 12 |
| Avatar.ColorIndexCountsCodeUnits | frontend/src/utils/avatar.ts:31 | "ab cd" and an emoji has length 8, so it gets slot 8 |
| Avatar.SvgShowsColorAndInitials | frontend/src/utils/avatar.ts:35-42 | the SVG fills its circle with the chosen colour and shows the initials, each at a fixed place |
| Avatar.GenerateDefaultAvatar | frontend/src/utils/avatar.ts:22-45 | "data:image/svg+xml;base64," followed by the encoded SVG; it throws where the encoder throws |
| Avatar.WideInitialThrows | frontend/src/utils/avatar.ts:24-44 | with an encoder that rejects exactly the text above U+00FF, as btoa does, a username starting with such a character makes generation throw |
| Avatar.GetDefaultAvatarUrl | frontend/src/utils/avatar.ts:52-54 | equals generateDefaultAvatar for the same username |

## Left out

- I/O, HTTP, JSON and multipart decoding, Spring Security filters, CORS and
  JPA mapping are not modelled. The authenticated principal is modelled as an
  optional user id.
- Transactions, concurrency, and interleavings of the front end's `async`
  actions are left out: each operation runs atomically.
- The database's own behaviour is left out. This covers Bean Validation
  annotations, and the constraint violations a save could raise. The
  integrity rules are instead proved to hold after every modelled write.
- Password hashing (BCrypt) is an `encode` parameter.
- JWT signing is left out, and so is the sign-in endpoint that issues tokens,
  because their cryptography cannot be modelled here.
- `atob` with `JSON.parse` is the `parse` parameter. `btoa` is a parameter
  that returns None where it would throw.
- `Date.now()` is the `nowMs` parameter, and `LocalDateTime.now()` is a
  `Time` argument.
- `Jwt.UserIdFromToken`: `parseInt` returns a double, so a `sub` above 2^53
  is rounded (9007199254740993 reads as 9007199254740992), and a very long
  numeral becomes Infinity. The model reads the digits exactly, because
  floating point is not modelled.
- `Jwt.IsTokenExpired`: a non-integer `exp` is not modelled, because the
  payload's `exp` is an integer here.
- `Avatar.FirstLetter`: `toUpperCase` is restricted to ASCII letters, because
  Unicode case mapping is not available. This changes whether `btoa` throws
  for some initials. 'ÿ' (U+00FF) and 'µ' (U+00B5) upper-case to characters
  above U+00FF, so the source throws and the model does not. 'ı' (U+0131)
  and 'ſ' (U+017F) upper-case to 'I' and 'S', so the source succeeds and the
  model throws. 'ß' upper-cases to the two letters "SS" in the source.
- `Avatar.FirstLetter`: for a word starting outside the Basic Multilingual
  Plane, `charAt(0)` takes a lone surrogate, which a Dafny `char` cannot hold.
  The model keeps the whole character instead. Both lie above U+00FF, so
  `btoa` throws on either. `Avatar.WideInitialThrows` proves that generation
  throws in the model too.
- `Jwt.Pad`: the padding counts characters, where `length` counts UTF-16
  units. The two differ only on text outside the Basic Multilingual Plane,
  which `atob` rejects either way.
- `authStore.logout` calls `photoStore.clearStore` inside a try/catch. That
  action does not exist in `photoStore`, so the call throws and the error is
  swallowed. The model therefore leaves the photo store unchanged on logout.
- `GalleryService.GetGallery`: the gallery's photo collection is taken in
  ascending id order. `findByIdAndUserId` has no ORDER BY, and the order of
  `gallery.getPhotos()` is set by the Gallery entity mapping, which is not
  part of this model.
- `GalleryService.UpdateGallery`: the Gallery entity's lifecycle callbacks
  are not part of this model. Creation stamps createdAt and updatedAt with
  the same instant, and a rename keeps updatedAt.
- `GalleryService.GetUserGalleries`: `previewPhotos` is left empty (None).
  The four-photo preview comes from `photoRepository.findFirst4ByGalleryOrderByIdAsc`,
  which `PhotoRepository` does not declare: it declares only `findByUserId`.
- The owner-scoped controller's photo list is left out. It calls
  `findByUserIdAndGalleryId`, which `PhotoService` does not declare.
- The owner-scoped controller's `create`, `bulkCreate` and `update` pass a
  `galleryId` to five-argument service overloads that `PhotoService` does not
  declare. The model calls the four-argument operations and ignores
  `galleryId`.
- `PhotoService.findAll(Pageable)` and `findByUserId(userId, Pageable)` are
  covered only by `Paging.PageOf`, the slice a Spring `Page` holds.
- The front end's `getAllPhotos(page, size)` request and the other API calls
  are parameters: each store action takes the server's answer as an argument.
- The `MediaType.parseMediaType` failure on a malformed stored content type is
  left out. A stored content type is used as it is.
- `Photo.createdAt` is never assigned by the code modelled here, so a new
  photo's `createdAt` stays None. The column is declared `nullable = false`,
  so an insert depends on the database filling the column, and no such
  default is part of this model. `Entities.PhotoInvariant` therefore covers
  only the constraints on title, description, filename, content type and
  owner, and leaves out the NOT NULL constraint on created_at.
- The legacy `PhotoRepository` and the legacy controller's photo class are
  modelled on the same photo table. The legacy controller stores ownerless
  photos.
- The Gallery entity class is not part of this model. Its fields are taken
  from their uses in `GalleryService` and `GalleryRepository`.
- Records are values, so aliasing between entity objects (a user shared by
  several photos) is not modelled: a write replaces the record in its table.
- `modalStore`, `api.ts`, the router, `useProfilePicture`, the
  configuration classes, `FileStorageService`, `UserService` and
  `HealthController` are outside the modelled core.
