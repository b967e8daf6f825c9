# circle-share: membership and authorization core, in Dafny

circle-share is a file-sharing service organised in *circles*, which are groups of users. The creator of a circle is its owner. Other users join a public circle by its id, or a private circle with an 8-character invitation code. Members upload video, audio and image files into a circle and organise them in folders. Files may be sold through payment orders.

This project models the server side of the service:

- the five tables of the relational schema, together with their foreign keys, cascades, unique columns and defaults;
- the data-access layer, as a `Store` class whose methods read and update those tables;
- the RPC handlers of the `circles`, `files` and `folders` routers, `fileShare.getByToken`, the payment order life cycle, and the administrator's self-check.

The handlers are modelled one by one. Each handler is a method that takes the store and the id of the signed-in caller. It returns either a value or a typed error: `NotFound`, `Forbidden`, `BadRequest`, `NotImplemented`, or `InternalServerError` for a database constraint failure. The handlers' error messages are the source's own. The two messages of `InternalServerError`, "foreign key constraint fails" and "duplicate entry for invitationCode", stand in for the database driver's errors, which the source passes on unchanged.

The central result is a store invariant, `Invariants.Integrity`. It has these parts:

- every foreign key resolves;
- `openId` and `invitationCode` are unique;
- a circle has a well-formed invitation code exactly when it is private;
- each (circle, user) pair has at most one membership row;
- every circle has exactly one `"owner"` row, its creator's.

Every state-changing handler requires `Valid()` and ensures it again. The membership index in the schema is not unique, so only the handlers' checks keep membership unique. `DuplicateInsertBreaksUniqueness` shows what skipping a check would do.

Layout:

| file | contents |
|---|---|
| `errors.dfy` | `Option`, `Result` and the error codes |
| `text.dfy` | string helpers: `split`/`join` and decimal rendering of ids |
| `schema.dfy` | row datatypes, enums, defaults, the `DeleteCircle`/`DeleteUser` cascades and `DetachFolders` (`ON DELETE SET NULL`) |
| `helpers.dfy` | pure pieces of the handlers: input bounds, JavaScript `x \|\| null`, MIME classification, file extension, storage key, invitation codes, share-link expiry, the admin gate |
| `invariants.dfy` | `Integrity` and one preservation lemma per table transition |
| `db.dfy` | the `upsertUser` merge rules, the list queries, and class `Store` |
| `routers_*.dfy` | one module per router |

Nondeterminism and the outside world become inputs:

- `Math.random` becomes `draws`, a sequence of reals in [0, 1);
- `nanoid()` becomes `nanoId`;
- `storagePut`'s URL becomes `url`;
- `new Date()` becomes `now` or `month`;
- `ENV.ownerOpenId` becomes `ownerOpenId`;
- the share-link row that `getFileShareLinkByToken` finds becomes `link`.

Two behaviours of the code are kept as written:

- `circles.join` accepts any existing circle id, public or private (server/routers.ts:171-191). `CirclesRouter.Join` models this as written: its success condition does not mention `isPublic`.
- `payment.createOrder` passes the file id to `getPaymentOrder` (server/routers.ts:635). `getOrder` and `completeOrder` pass an order id to the same function (lines 664 and 683). The store looks orders up by order id. `createOrder` therefore inspects the order whose id equals the file id, and `OwnershipCheckMissesPurchase` shows a completed purchase that this check misses.

## Model

| member | source | states |
|---|---|---|
| Text.StartsWith | server/routers.ts:251-255 | `startsWith`: the string is the prefix followed by the rest of the string |
| Text.Utf16Length | server/routers.ts:27 | the length JavaScript and zod count: between one and two code units per character, and one per character when no character lies outside the Basic Multilingual Plane |
| Text.Split | server/routers.ts:262 | `split(".")`: at least one piece, no piece contains the separator, and joining the pieces gives back the string |
| Text.JoinLast | server/routers.ts:262 | joining n ≥ 2 pieces is the join of all but the last, then the separator, then the last piece |
| Text.NatToString | server/routers.ts:263 | the decimal text of an id is nonempty and all digits |
| Text.ParseNatToString | server/routers.ts:263 | reading the decimal text of an id back gives the id |
| Text.NatToStringInjective | server/routers.ts:263 | distinct ids have distinct decimal texts |
| Schema.DetachFolders | drizzle/schema.ts:84 | set-null: the same file ids remain; a file in a removed folder gets `folderId` null and keeps every other column; every other file is unchanged |
| Schema.DeleteCircle | drizzle/schema.ts:46-84 | deleting a circle removes exactly its membership rows, folders and files; the users, other circles, other memberships and other folders remain unchanged; a surviving file filed in one of its folders gets `folderId` null, and every other surviving file is unchanged |
| Schema.DeleteUser | drizzle/schema.ts:28-85 | deleting a user removes the user, the circles they created (with those circles' cascades), their memberships, the folders they created and the files they uploaded; every surviving row is unchanged, except that a surviving file filed in a removed folder gets `folderId` null |
| Helpers.NameInRange | server/routers.ts:27 | `min(1).max(255)` in UTF-16 code units: a passing name has 1 to 255 characters, and every name of 1 to 127 characters passes |
| Helpers.CodeInRange | server/routers.ts:67 | `min(1).max(64)` in UTF-16 code units: a passing code has 1 to 64 characters, and every code of 1 to 32 characters passes |
| Helpers.PublicOrDefault | server/routers.ts:29 | `default(true)`: the circle is public unless the request says `false` |
| Helpers.NullIfEmpty | server/routers.ts:43 | `description \|\| null`: null exactly when the input is absent or empty; otherwise the input unchanged |
| Helpers.FolderOrNull | server/routers.ts:269 | `folderId \|\| null`: null exactly when the input is absent or 0 |
| Helpers.ClassifyMime | server/routers.ts:250-259 | Video / Audio / Image exactly when the MIME type starts with `video/` / `audio/` / `image/`, checked in that order; None ("Unsupported file type") otherwise |
| Helpers.FileExtension | server/routers.ts:262 | the extension is never empty and contains no dot |
| Helpers.DotFreeTailIsUnique | server/routers.ts:262 | the text after the last dot is the only dot-free tail that follows a dot or begins the name |
| Helpers.ExtensionIsTextAfterLastDot | server/routers.ts:262 | for a name `prefix.tail` with a dot-free tail, the extension is `tail`, or `"bin"` when `tail` is empty |
| Helpers.FileKey | server/routers.ts:263 | the storage key starts with `circles/<circleId>/` |
| Helpers.KeyKeepsExtension | server/routers.ts:262-263 | the extension of the storage key is the extension of the uploaded file name |
| Helpers.KeyDirectoryNamesCircle | server/routers.ts:263 | keys of different circles lie under different directories |
| Helpers.PickCodeChar | server/routers.ts:37 | `chars.charAt(Math.floor(r * 36))` is a character of the 36-character alphabet |
| Helpers.CodeFromDraws | server/routers.ts:36-38 | one alphabet character per draw, in order |
| Helpers.GenerateInvitationCode | server/routers.ts:35-38 | eight draws give a code of exactly 8 characters over `[A-Z0-9]` |
| Helpers.DrawForIndex | server/routers.ts:37 | every alphabet position is picked by some draw in [0, 1) |
| Helpers.EveryCodeCanBeDrawn | server/routers.ts:35-38 | every 8-character code over the alphabet comes from some eight draws |
| Helpers.IsExpired | server/routers.ts:447 | a link without an expiry date is never expired; one with a date is expired exactly when the date lies before now |
| Helpers.ExpiryIsMonotone | server/routers.ts:447 | once a link has expired it stays expired, and a link with no expiry date never expires |
| Helpers.DisableUserCheck | server/routers.ts:592-597 | a non-admin gets Forbidden "Admin access required"; an admin naming themself gets BadRequest "Cannot disable yourself"; only otherwise does the call proceed |
| Invariants.ExactlyOneOwner | server/routers.ts:49-53 | under the invariant, every circle has exactly one owner row, and it is the creator's |
| Invariants.OwnerIsCreator | server/routers.ts:44-53 | the owner of a circle is exactly its creator |
| Invariants.DuplicateInsertBreaksUniqueness | drizzle/schema.ts:53 | the non-unique index lets a second row for an existing pair in, and that breaks membership uniqueness |
| Invariants.CreateMidpointHasNoOwner | server/routers.ts:41-53 | between its two inserts, `create` leaves a circle with no owner row |
| Invariants.FoundRowDecidesOwnership | server/db.ts:156-167 | with unique membership, the row `getCircleMember` finds has role owner exactly when the pair has an owner row |
| Invariants.JoinThenLeaveRestores | server/routers.ts:184-205 | joining with a fresh row and then leaving gives back the membership table as it was |
| Invariants.CodeHolderIsPrivate | server/routers.ts:32-46 | a circle that holds an invitation code is private, and its code is well formed |
| Invariants.CreateKeepsIntegrity | server/routers.ts:41-53 | a new circle together with its creator's owner row keeps the invariant |
| Invariants.JoinKeepsIntegrity | server/routers.ts:179-188 | one `"member"` row for a pair that had none keeps the invariant |
| Invariants.WithoutMembership | server/db.ts:191-196 | `removeCircleMember` drops exactly the rows matching both circleId and userId; every other row is unchanged |
| Invariants.RemoveMemberKeepsIntegrity | server/routers.ts:201-205 | removing a pair whose row is a `"member"` row keeps the invariant |
| Invariants.UpdateCircleKeepsIntegrity | server/routers.ts:134-138 | changing only a circle's name and description keeps the invariant |
| Invariants.DeleteCircleKeepsIntegrity | drizzle/schema.ts:46-84 | the circle cascade leaves no dangling reference and no circle without its owner |
| Invariants.DeleteUserKeepsFileReferences | drizzle/schema.ts:28-85 | after the user cascade, every remaining file's circle, uploader and folder exist |
| Invariants.DeleteUserKeepsOwners | drizzle/schema.ts:28-85 | after the user cascade, every remaining circle keeps its creator's owner row |
| Invariants.DeleteUserKeepsIntegrity | drizzle/schema.ts:28-85 | the user cascade keeps the invariant |
| Invariants.UploadKeepsIntegrity | server/routers.ts:267-277 | a file row with resolving references and a type derived from its MIME type keeps the invariant |
| Invariants.DeleteFileKeepsIntegrity | server/routers.ts:310 | removing one file keeps the invariant |
| Invariants.CreateFolderKeepsIntegrity | server/routers.ts:332-337 | a folder of an existing circle, created by an existing user, keeps the invariant |
| Invariants.RenameFolderKeepsIntegrity | server/routers.ts:369 | renaming a folder keeps the invariant |
| Invariants.DeleteFolderKeepsIntegrity | server/db.ts:327-330 | detaching a folder's files and then deleting the folder keeps the invariant |
| Invariants.UpsertKeepsIntegrity | server/db.ts:70-72 | inserting under a fresh openId, or updating a row without changing its openId, keeps the invariant |
| Db.WrittenIsEmpty | server/db.ts:40-60 | nothing is written before the defaults exactly when name, email, loginMethod, lastSignedIn and role are all absent and the openId is not the owner's |
| Db.InsertedRow | server/db.ts:70 | the inserted row carries the openId; a text column not in `values` is null; empty `values` give the defaults: no texts, role user, signed in now |
| Db.UpdatedRow | server/db.ts:70-72 | the updated row keeps its openId and every text column not in the update set; an empty update set changes nothing |
| Db.UpsertRow | server/db.ts:62-72 | the row keeps the openId it is stored under; an update that writes nothing only refreshes `lastSignedIn` |
| Db.UpsertRoleRule | server/db.ts:54-60 | an explicit role wins; otherwise the owner's openId gets admin; otherwise an insert defaults to user and an update keeps the old role |
| Db.UpsertTextRule | server/db.ts:40-48 | for name, email and loginMethod, a string is stored, null is stored as null, and an undefined field is left as it was (null on insert) |
| Db.UpsertSignInRule | server/db.ts:50-68 | a given lastSignedIn is stored; otherwise an insert stamps now, and an update stamps now exactly when it writes nothing else |
| Db.PrepareUpsert | server/db.ts:32-68 | the `forEach` over the text fields, followed by the lastSignedIn, role and default steps, builds exactly the `values` and `updateSet` dictionaries that the rules above describe |
| Db.Store.UpsertUser | server/db.ts:20-79 | an empty openId throws "User openId is required for upsert" and changes nothing; a fresh openId inserts the row from `values`; a taken openId updates that row with `updateSet`; the invariant is kept |
| Db.MemberCount | server/db.ts:123 | the count is at most the number of membership rows, and zero exactly when no row names the circle |
| Db.MemberCountPositive | server/db.ts:123 | under the invariant, a listed circle's member count is at least 1 |
| Db.MembersOf | server/db.ts:169-189 | exactly the membership rows of the circle |
| Db.FilesOf | server/db.ts:215-240 | exactly the file rows of the circle |
| Db.FoldersOf | server/db.ts:292-313 | exactly the folders of the circle |
| Db.CirclesByUserId | server/db.ts:110-131 | one listing per membership row of the user whose circle exists, carrying that row's role and the circle's member count, and no other listing |
| Db.ListedIffMember | server/db.ts:125-127 | a circle appears in a user's list exactly when the user has a membership row in it |
| Db.PublicCircles | server/db.ts:361-380 | exactly the circles with `isPublic = 1`, each with its member count |
| Db.PublicCirclesHaveNoCode | server/db.ts:376 | no public listing carries an invitation code |
| Db.Store.constructor | drizzle/schema.ts:6-101 | the store starts with empty tables and satisfies the invariant |
| Db.Store.GetCircleMember | server/db.ts:156-167 | undefined exactly when the pair has no row; otherwise some stored row whose circleId and userId both match |
| Db.Store.GetCircleByInvitationCode | server/db.ts:382-393 | undefined exactly when no circle holds that code; otherwise a circle whose code equals it |
| Db.Store.GetUserByOpenId | server/db.ts:81-91 | undefined exactly when no user has that openId; otherwise such a user |
| Db.Store.CreateCircle | server/db.ts:94-100 | succeeds exactly when the creator exists and the code is not already taken; it then inserts under the next id; a failure changes nothing |
| Db.Store.AddCircleMember | server/db.ts:148-154 | succeeds exactly when the circle and the user exist, even if the pair already has a row; it then inserts under the next id |
| Db.Store.RemoveCircleMember | server/db.ts:191-196 | the membership table becomes `WithoutMembership` of the old one |
| Db.Store.UpdateCircle | server/db.ts:133-138 | only the given columns of that circle change; a missing circle means no change |
| Db.Store.DeleteCircle | server/db.ts:140-145 | the tables become the schema cascade `DeleteCircle` of the old tables |
| Db.Store.CreateFile | server/db.ts:199-205 | succeeds exactly when the circle, the uploader and any given folder exist; it then inserts under the next id |
| Db.Store.DeleteFile | server/db.ts:268-273 | exactly that file row is removed |
| Db.Store.CreateFolder | server/db.ts:276-282 | succeeds exactly when the circle and the creator exist; it then inserts under the next id |
| Db.Store.UpdateFolderName | server/db.ts:315-320 | only that folder's name changes |
| Db.Store.DeleteFolder | server/db.ts:322-331 | files pointing at the folder get `folderId := null`, no file is deleted, and then the folder is removed |
| Db.Store.GetPaymentOrder | server/routers.ts:664 | the order under that id, or undefined |
| Db.Store.CreatePaymentOrder | server/routers.ts:645-654 | the order is inserted under the next id |
| Db.Store.UpdatePaymentOrder | server/routers.ts:693-697 | only the status and transaction id of that order change |
| Db.Store.SetTransactionCount | server/routers.ts:716-719 | only that month's transaction count changes |
| CirclesRouter.NewCircle | server/routers.ts:32-47 | a public circle has `isPublic = 1` and no code; a private one has `isPublic = 0` and an 8-character code; an empty description becomes null |
| CirclesRouter.Create | server/routers.ts:25-56 | an omitted `isPublic` means public; a name outside 1..255 code units is rejected; otherwise the circle is inserted and then the creator's owner row, unless the drawn code is taken; on failure nothing changes; the invariant is kept |
| CirclesRouter.List | server/routers.ts:58-60 | the caller's list names exactly the circles they belong to, each with its member count, which is at least 1, and with role owner exactly when the caller created it |
| CirclesRouter.ListPublic | server/routers.ts:62-64 | every public circle is listed, only public circles are listed, none of them carries a code, and each carries its member count, which is at least 1 |
| CirclesRouter.SearchByInvitationCode | server/routers.ts:66-74 | a code outside 1..64 is rejected; an unknown code gives NotFound "Invalid invitation code"; otherwise the private circle holding it |
| CirclesRouter.JoinByInvitationCode | server/routers.ts:76-96 | NotFound for an unknown code; BadRequest "Already a member of this circle" for a member; otherwise exactly one `"member"` row is added and the circle id is returned |
| CirclesRouter.Get | server/routers.ts:98-120 | NotFound "Circle not found"; Forbidden "You are not a member of this circle"; otherwise the circle, its members and files, and a role that is owner exactly for the creator |
| CirclesRouter.CheckOwner | server/routers.ts:129-132 | the owner gate passes exactly when the caller's row has role owner, which means the caller is the creator |
| CirclesRouter.Update | server/routers.ts:122-140 | Forbidden "Only circle owner can update" unless the caller is the owner; otherwise only the given name and description change, and an empty description becomes null |
| CirclesRouter.Delete | server/routers.ts:142-152 | Forbidden "Only circle owner can delete" unless the caller is the owner; otherwise the tables become the circle cascade of the old ones |
| CirclesRouter.AddMember | server/routers.ts:154-169 | never succeeds: NotImplemented for the owner, Forbidden "Only circle owner can add members" for anyone else |
| CirclesRouter.Join | server/routers.ts:171-191 | NotFound "Circle not found"; BadRequest "Already a member" for a member; otherwise exactly one `"member"` row is added |
| CirclesRouter.RemoveMembership | server/routers.ts:205 | removing a pair whose row is a `"member"` row keeps the invariant |
| CirclesRouter.Leave | server/routers.ts:193-207 | NotFound "Not a member"; BadRequest "Owner cannot leave. Delete the circle instead." for the owner; otherwise only the caller's rows go and all other rows are unchanged |
| CirclesRouter.RemoveMember | server/routers.ts:209-231 | Forbidden unless the caller is the owner; NotFound "Member not found"; BadRequest "Cannot remove owner"; otherwise only the target's rows go |
| FilesRouter.UploadedFile | server/routers.ts:261-277 | the inserted row has a key under `circles/<circleId>/` that keeps the file's extension, folder 0 becomes no folder, and it is not for sale |
| FilesRouter.Upload | server/routers.ts:235-280 | Forbidden "Not a member of this circle"; BadRequest "Unsupported file type" with no row created; an insert error for a missing folder; otherwise exactly one new file row with the derived type |
| FilesRouter.List | server/routers.ts:282-291 | Forbidden for non-members; otherwise exactly the circle's files |
| FilesRouter.Delete | server/routers.ts:293-312 | NotFound "File not found"; Forbidden for non-members; Forbidden "Only uploader or circle owner can delete"; otherwise exactly that file row is removed |
| FoldersRouter.Create | server/routers.ts:320-340 | a name outside 1..255 is rejected; Forbidden for non-members; otherwise one new folder row |
| FoldersRouter.List | server/routers.ts:342-351 | Forbidden for non-members; otherwise exactly the circle's folders |
| FoldersRouter.Rename | server/routers.ts:353-371 | NotFound "Folder not found"; Forbidden for non-members of the folder's circle; otherwise only the folder's name changes |
| FoldersRouter.Delete | server/routers.ts:373-388 | NotFound "Folder not found"; Forbidden for non-members; otherwise the folder goes and its files stay with no folder, with no file deleted |
| FileShareRouter.GetByToken | server/routers.ts:437-453 | NotFound "Share link not found"; BadRequest "Share link has expired" when the expiry lies before now; otherwise the link and its file, if any |
| PaymentRouter.ForSale | server/routers.ts:630 | a file is not for sale exactly when `isPaid` is 0 or its price is null or empty |
| PaymentRouter.OwnershipCheckMissesPurchase | server/routers.ts:634-638 | a completed order for a file, stored under an id other than the file id, does not count as owning it |
| PaymentRouter.CreateOrder | server/routers.ts:619-657 | NotFound "File not found"; BadRequest "This file is not for sale"; BadRequest "You already own this file" when the order whose id is the file id is completed; otherwise one pending order by the caller |
| PaymentRouter.GetOrder | server/routers.ts:659-675 | NotFound "Order not found"; Forbidden unless the caller is the buyer or the seller |
| PaymentRouter.CompleteOrder | server/routers.ts:677-722 | NotFound "Order not found"; BadRequest "Order is not pending"; otherwise the order becomes completed with its transaction id and the month's count goes up by exactly 1 |
| PaymentRouter.CompleteTwice | server/routers.ts:688-697 | the second completion of the same order fails and counts nothing |

## Left out

- Timestamps are not kept: `createdAt`, `updatedAt`, `joinedAt` and `uploadedAt` carry no rule the handlers check. `lastSignedIn` is an integer and the clock is an input.
- Ordering and display joins: the queries order by a timestamp and join the user or circle names. The model returns sets and maps of whole rows.
- Db.CirclesByUserId: returns whole circle rows rather than the selected columns, as an unordered set.
- Db.PublicCircles: returns whole circle rows rather than the selected columns, as an unordered set.
- Db.Store.UpdateCircle: an update with no columns to set is treated as no change. The ORM's behaviour for an empty `set` is not modelled.
- Db.Store.GetCircleByInvitationCode: equality is exact. Case-insensitive or space-padded database collations are not modelled.
- Payment amounts: the 0.1% fee, seller and platform earnings, and their read-modify-write are floating point over strings. Only the order status and the monthly transaction count are kept.
- The payment tables are not declared in drizzle/schema.ts; server/routers.ts:630-719 reads and writes them through db functions that server/db.ts does not define. The store keeps orders by order id, with only the columns the status checks read. `isPaid` and `price` on files exist only for the for-sale test.
- The store performs no checks of its own on payment orders. `completeOrder` does not check who the caller is, and the model keeps that as written.
- Object storage (`storagePut`) and base64 decoding of the upload are left out: the URL is an input. An object stored before a failing insert is left out too.
- Share links: only `getByToken`'s checks are modelled. `createLink`, `deleteLink`, the token lookup and the download count are not part of this model.
- `admin.disableUser`: only its two checks (`Helpers.DisableUserCheck`) are modelled. `disableUser`, `logAdminAction`, `getAllUsers` and `getAdminLogs` are not part of this model.
- `files.myUploads`, `search.*`, categories, activity logs, announcements and `auth.*` are not part of this model.
- Input validation is modelled only for the length bounds on names (1..255) and codes (1..64), counted in UTF-16 code units as zod does, as BadRequest "Invalid input". The exact zod error message is not modelled.
- The column defaults `isPublic = 1` and member role `"member"` are not modelled: every insert the handlers make sets both columns. `circles.create`'s own default for an omitted `isPublic` is modelled (`Helpers.PublicOrDefault`).
- `userEmail` format (`z.string().email()`) is not modelled, because `addMember` never succeeds either way.
- Non-integer numbers that `z.number()` accepts are not modelled: ids are integers.
- Column length limits (such as a 500-character filename or a 100-character MIME type) are not modelled: an over-long value, which the database would reject, is accepted here.
- The `_db` connection singleton and its "Database not available" paths are left out: the database is always available.
- Concurrency and atomicity are left out: each handler runs alone. `Invariants.CreateMidpointHasNoOwner` shows the state between `create`'s two inserts.
- No handler deletes users. `Schema.DeleteUser` and its lemmas state the schema's cascade without a caller.
- Db.Store.UpsertUser: returns the row it wrote rather than re-reading it by openId. The two are the same row.
