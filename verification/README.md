# Members API user lifecycle, in Dafny

This project models the account-lifecycle part of the members service's user
controller (`members_api/src/api/controller/user/user.controller.js`). It covers:

- **deleteOne**: the cascading delete of a user and everything the user owns.
- **create**: provisioning a user together with its Favorites and Cart.
- **deleteProfileImage**: clearing a managed profile image.
- **changePassword** and the password split in **updateOne**.

The document database is an immutable `Store` value with one sequence per
collection (`records.dfy`). Each database primitive the controller calls is
a pure function on one collection (`record_store.dfy`):

- `deleteMany` keeps the documents that do not match.
- `find` keeps the documents that match.
- `findOneAndDelete` drops the first match only.
- `create` appends.
- `findById` finds the first user with that id.
- `save` / `findByIdAndUpdate` overwrite that user in place.

The controller actions are in `user_controller.dfy`. `DeleteOne`, `Create` and
`UpdateOne` take the store and return a `Reply`: the store they leave behind
plus an `Outcome`. A write made before a failure stays in the returned store,
as it does in the database. `DeleteProfileImage` and `ChangePassword` act on
the authenticated user instead. They return that user as updated, with the
outcome, and do not touch the store.

`lifecycle.dfy` defines what a consistent store is:

- user, album and post ids are unique;
- each user has at most one Favorites and at most one Cart;
- every owned document names an existing user;
- every Photo names an existing album, and every Comment an existing post.

It then relates the actions to each other:

- create and delete are inverses;
- a second delete finds nothing;
- an update keeps the store consistent;
- a cascade that stops after any number of its writes leaves no orphan, and
  a retry of the delete completes it.

Inputs stand in for everything outside the controller:

- the media host's `destroy` answer (`DestroyResult`);
- the password check (`matches`, the model's `matchPassword`);
- schema validation and the duplicate-key check (`accepts`).

## Model

| member | source | states |
|---|---|---|
| UserController.DeleteOne | members_api/src/api/controller/user/user.controller.js:187-224 | A missing user gives NotFound and leaves the store as it was; otherwise the call succeeds. After success: exactly the user's Addresses, Companies, Todos, Albums and Posts are gone. Exactly the Photos of albums and the Comments of posts the user owned before the call are gone. One Favorites, one Cart and one user document with that id are gone. Other users' Favorites, Carts and user documents keep their multiplicities. |
| UserController.CascadeRemovesOwned | members_api/src/api/controller/user/user.controller.js:194-219 | After the cascade, a direct child is present exactly when it was present before and belongs to another user. |
| UserController.CascadeRemovesGrandchildren | members_api/src/api/controller/user/user.controller.js:201-217 | Photo ids and post ids are enumerated before their parents are deleted. A Photo or Comment survives exactly when its album or post was not the user's before the call. |
| UserController.CascadeRemovesOne | members_api/src/api/controller/user/user.controller.js:198-221 | findOneAndDelete lowers the user's Favorites, Cart and user-document counts by one each, or leaves a zero count at zero. |
| UserController.CascadeSparesOthers | members_api/src/api/controller/user/user.controller.js:198-221 | Favorites, Carts and user documents of other users keep their multiplicity. |
| UserController.Create | members_api/src/api/controller/user/user.controller.js:143-154 | Succeeds exactly when validation accepts the body and the id is unused. On refusal nothing is written. On success the store gains the user, one Favorites naming it and one Cart naming it, and nothing else changes. |
| UserController.DeleteProfileImage | members_api/src/api/controller/user/user.controller.js:113-138 | destroy is called exactly when a photo is set and contains `/members-api/users_profiles/`, and always with public id `members-api/users_profiles/<id>`. The call succeeds exactly when destroy was not needed or answered `result === 'ok'`, and success clears the photo. On failure the user is unchanged. A resolved non-ok answer fails with ImageNotDeleted (the 503). |
| UserController.ChangePassword | members_api/src/api/controller/user/user.controller.js:62-72 | Succeeds exactly when the current password matches. A mismatch fails with IncorrectPassword (the 400) and the user is unchanged. A match sets the new password and changes nothing else. |
| UserController.UpdateOne | members_api/src/api/controller/user/user.controller.js:159-182 | A missing user gives NotFound with no write. Only the addressed user changes. The outcome is Ok exactly when validation accepts the body, minus the password if that was split out. On success the user ends with the body's password and photo where the body carries them, and the body's other fields merged in. If the bulk update is refused, a non-empty body password is already saved, while the photo and other fields are unchanged. |
| RecordStore.DeleteMany | members_api/src/api/controller/user/user.controller.js:194-196 | A document survives exactly when it does not match the filter; none that match remain. |
| RecordStore.Find | members_api/src/api/controller/user/user.controller.js:201 | A document is returned exactly when it matches; as many are returned as there are matches. |
| RecordStore.FindOneAndDelete | members_api/src/api/controller/user/user.controller.js:198-199 | With no match nothing changes. Otherwise exactly one match goes: length and match count drop by one. Counts under other keys are unchanged, and so are the multiplicities of non-matching documents. |
| RecordStore.KeysOwnedBy | members_api/src/api/controller/user/user.controller.js:201-204 | The enumerated ids are exactly the ids of the documents the user owns. |
| RecordStore.PurgeChildren | members_api/src/api/controller/user/user.controller.js:203-207 | After the per-parent loop, a child survives exactly when its parent id is not among the enumerated ids. |
| RecordStore.PurgeIsWithout | members_api/src/api/controller/user/user.controller.js:203-207 | The loop of deleteManys equals a single delete of every child whose parent is in the enumerated set. |
| RecordStore.PurgeIdempotent | members_api/src/api/controller/user/user.controller.js:203-207 | Running the per-parent loop again over the same ids changes nothing. |
| RecordStore.DeleteManyIdempotent | members_api/src/api/controller/user/user.controller.js:194-196 | Repeating a deleteMany changes nothing. |
| RecordStore.DeleteManyFindPartition | members_api/src/api/controller/user/user.controller.js:201-209 | find and deleteMany with the same filter split the collection: the two multisets add up to the original. |
| RecordStore.FindOneAndDeleteAppended | members_api/src/api/controller/user/user.controller.js:198-199 | Appending a document under a fresh key and then calling findOneAndDelete on that key gives back the original collection. |
| RecordStore.FindUser | members_api/src/api/controller/user/user.controller.js:188-192 | findById finds nothing exactly when no user has that id; a found user is stored and has that id. |
| RecordStore.SetUser | members_api/src/api/controller/user/user.controller.js:169-171 | A save overwrites the stored user with the same id. Users with other ids stay in place. The new value is found under the id afterwards, and nothing changes when the id is absent. |
| RecordStore.SetUserKeepsCounts | members_api/src/api/controller/user/user.controller.js:169-179 | Overwriting a user never changes how many users carry any id. |
| Text.Includes | members_api/src/api/controller/user/user.controller.js:114 | `includes` holds exactly when the substring occurs at some index. |
| Lifecycle.DeleteOnePreservesConsistency | members_api/src/api/controller/user/user.controller.js:187-224 | A consistent store stays consistent after a delete: ids stay unique, singletons stay single, and no orphan appears at either level. |
| Lifecycle.DeleteOneSparesOthersChildren | members_api/src/api/controller/user/user.controller.js:201-217 | With unique album and post ids, Photos of another user's album and Comments on another user's post survive. |
| Lifecycle.DeleteOneTwice | members_api/src/api/controller/user/user.controller.js:188-192 | With unique user ids, deleting the same user again gives NotFound and writes nothing. |
| Lifecycle.CreatePreservesConsistency | members_api/src/api/controller/user/user.controller.js:143-154 | A successful create keeps the store consistent and gives the new user exactly one Favorites and exactly one Cart. |
| Lifecycle.CreateThenDeleteOne | members_api/src/api/controller/user/user.controller.js:143-224 | On a store where every owned document names an existing user, deleting a just-created user succeeds and restores exactly the store before the create. |
| Lifecycle.CascadeOfFresh | members_api/src/api/controller/user/user.controller.js:194-221 | The cascade of a user that owns nothing and was appended last, with its Favorites and Cart, removes exactly those three documents. |
| Lifecycle.CascadeOfAbsent | members_api/src/api/controller/user/user.controller.js:194-221 | With no orphans, the cascade for an id that no user has writes nothing. |
| Lifecycle.Interrupted | members_api/src/api/controller/user/user.controller.js:194-221 | The store after the first k cascade writes. The user document goes last, so it is still present until the final write, and all the writes together are the full cascade. |
| Lifecycle.InterruptedKeepsNoOrphans | members_api/src/api/controller/user/user.controller.js:194-221 | Wherever the cascade stops, no document is orphaned: children go before their parents and the user goes last. |
| Lifecycle.RetryAfterInterruption | members_api/src/api/controller/user/user.controller.js:187-224 | When each user has at most one Favorites and one Cart, a cascade cut short after any write can be finished by calling deleteOne again. The retry ends in the same store and outcome as an uninterrupted delete. |
| Lifecycle.UpdateOneKeepsUserCounts | members_api/src/api/controller/user/user.controller.js:159-182 | An update, successful or refused, never changes how many users carry any id. |
| Lifecycle.UpdateOnePreservesConsistency | members_api/src/api/controller/user/user.controller.js:159-182 | An update, including the partial write left by a refused bulk update, keeps a consistent store consistent. |
| Lifecycle.DeleteProfileImageIdempotent | members_api/src/api/controller/user/user.controller.js:113-138 | Once the image is cleared, a second removal calls no destroy, succeeds and changes nothing. |
| Lifecycle.ChangePasswordUndo | members_api/src/api/controller/user/user.controller.js:62-72 | Changing the password back, with the new one as the current one, restores the original user. |

## Left out

- HTTP handling is reduced to the `Error` values: routing, JSON bodies, status codes and `ErrorResponseBuilder`. The codes are noted beside each error.
- Password hashing and `matchPassword` are the opaque `matches` predicate. Stored passwords are compared as plain values.
- Schema validation (`runValidators`) and the duplicate-key refusal are the opaque `accepts` predicate.
- The media host's `destroy` call is I/O. Only its answer is modelled, as an input.
- `changeProfileImage` (lines 77-108) is upload plumbing and is not modelled. As written, it goes on to store a null photo when the upload fails.
- `getAll`, `getOne`, `getMe` and `updateMe` (lines 17-57) are single store calls with no logic of their own.
- Async ordering is not modelled; actions run sequentially. The saves at lines 69 and 171 are not awaited, and the model treats them as completed before the next step.
- `getOne` and `updateOne` call an undefined `next` when the user is missing (lines 30 and 163), which throws instead of answering 404. `UpdateOne` models the intended NotFound.
- UserController.Create: the Favorites and Cart creates are taken to succeed. A failure after the user exists would leave a user without them, and that partial state is not modelled.
- UserController.DeleteProfileImage and UserController.ChangePassword: these return the updated user. The `request.user.save()` that writes it back (lines 69 and 135) is not modelled as a write to the `Store`.
- UserController.DeleteProfileImage: a rejected `destroy` promise escapes the handler and is modelled as `Uncaught`, not as the 503.
- UserController.UpdateOne: a refused bulk update is not caught by the handler either and is modelled as `Uncaught`. The password saved before it stays written, as the code does, so a refused update is not free of writes.
- UserController.DeleteOne: a database failure part-way through the cascade is not an outcome of `DeleteOne`. Those states are `Lifecycle.Interrupted`, and `Lifecycle.RetryAfterInterruption` covers how a retry ends.
- Document fields other than ids, owner references, the photo and the password are collapsed into the user's `profile` map or dropped.
