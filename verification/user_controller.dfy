/** The user controller's account lifecycle: provisioning a user with its
    singleton side-records, the cascading delete of everything a user owns,
    clearing a managed profile image, and the two password paths.  Each action
    takes the store (or the authenticated user) and returns what it becomes
    together with the action's outcome; writes made before a failure stay in
    the returned store, as they do in the database.
 */
module UserController {
  import opened Records
  import opened RecordStore
  import opened Text

  /** Why an action fails.  The HTTP status the controller answers with is noted
      where it sends one. */
  datatype Error =
    | NotFound            // 404 'User not found'
    | IncorrectPassword   // 400 'Password is incorrect'
    | ImageNotDeleted     // 503 the profile image could not be deleted
    | Rejected            // the store refused the document (validation, duplicate key)
    | Uncaught            // a rejected promise escapes the handler

  datatype Outcome = Ok | Err(error: Error)

  /** The store after an action, and how the action ended. */
  datatype Reply = Reply(store: Store, outcome: Outcome)

  /** The authenticated user after an action on its own document, and how it ended. */
  datatype UserReply = UserReply(user: User, outcome: Outcome)

  // ---------------------------------------------------------------------------
  // Cascading delete

  /** `u` owns an album whose id is `a`. */
  ghost predicate OwnsAlbum(st: Store, u: Id, a: Id)
  {
    exists al :: al in st.albums && al.user == u && al.id == a
  }

  /** `u` owns a post whose id is `p`. */
  ghost predicate OwnsPost(st: Store, u: Id, p: Id)
  {
    exists po :: po in st.posts && po.user == u && po.id == p
  }

  /** Direct children: exactly the user's Addresses, Companies, Todos, Albums
      and Posts are gone from `s`, and every other one is still there. */
  ghost predicate RemovesOwned(st: Store, u: Id, s: Store)
  {
    && (forall a :: a in s.addresses <==> a in st.addresses && a.user != u)
    && (forall c :: c in s.companies <==> c in st.companies && c.user != u)
    && (forall t :: t in s.todos <==> t in st.todos && t.user != u)
    && (forall al :: al in s.albums <==> al in st.albums && al.user != u)
    && (forall po :: po in s.posts <==> po in st.posts && po.user != u)
  }

  /** Grandchildren: exactly the Photos and Comments whose album or post the
      user owned in `st` are gone from `s`. */
  ghost predicate RemovesGrandchildren(st: Store, u: Id, s: Store)
  {
    && (forall ph :: ph in s.photos <==> ph in st.photos && !OwnsAlbum(st, u, ph.album))
    && (forall c :: c in s.comments <==> c in st.comments && !OwnsPost(st, u, c.post))
  }

  /** How many of `u`'s documents a findOneAndDelete leaves: one fewer, or none. */
  function OneFewer(n: nat): nat
  {
    if n == 0 then 0 else n - 1
  }

  /** Singletons and the user document: one match of `u` went from each. */
  ghost predicate RemovesOneEach(st: Store, u: Id, s: Store)
  {
    && Count(s.favorites, FavoritesOwner, u) == OneFewer(Count(st.favorites, FavoritesOwner, u))
    && Count(s.carts, CartOwner, u) == OneFewer(Count(st.carts, CartOwner, u))
    && Count(s.users, UserKey, u) == OneFewer(Count(st.users, UserKey, u))
  }

  /** Other users' Favorites, Carts and user documents keep their multiplicity. */
  ghost predicate SparesOthers(st: Store, u: Id, s: Store)
  {
    && (forall f: Favorites :: f.user != u ==> multiset(s.favorites)[f] == multiset(st.favorites)[f])
    && (forall c: Cart :: c.user != u ==> multiset(s.carts)[c] == multiset(st.carts)[c])
    && (forall x: User :: x.id != u ==> multiset(s.users)[x] == multiset(st.users)[x])
  }

  /** `DELETE /api/users/:id`.  Missing user: 404 and nothing is touched.
      Otherwise, in order: every Address, Company and Todo of the user; one
      Favorites and one Cart; the Photos of every album the user owns, then
      those albums; the Comments of every post the user owns, then those posts;
      and last the user document itself. */
  function DeleteOne(st: Store, u: Id): (r: Reply)
    ensures FindUser(st.users, u).None? ==> r == Reply(st, Err(NotFound))
    ensures FindUser(st.users, u).Some? ==> r.outcome == Ok
    ensures r.outcome.Ok? ==>
      && RemovesOwned(st, u, r.store)
      && RemovesGrandchildren(st, u, r.store)
      && RemovesOneEach(st, u, r.store)
    ensures SparesOthers(st, u, r.store)
  {
    match FindUser(st.users, u)
    case None => Reply(st, Err(NotFound))
    case Some(_) =>
      CascadeRemovesOwned(st, u);
      CascadeRemovesGrandchildren(st, u);
      CascadeRemovesOne(st, u);
      CascadeSparesOthers(st, u);
      Reply(Cascade(st, u), Ok)
  }

  /** The writes of the cascade for a user known to exist.  The album and post
      ids are enumerated from the store before any album or post is removed. */
  function Cascade(st: Store, u: Id): Store
  {
    var albumIds := KeysOwnedBy(st.albums, AlbumOwner, AlbumKey, u);
    var postIds := KeysOwnedBy(st.posts, PostOwner, PostKey, u);
    Store(
      users := FindOneAndDelete(st.users, UserKey, u),
      addresses := DeleteMany(st.addresses, AddressOwner, u),
      companies := DeleteMany(st.companies, CompanyOwner, u),
      todos := DeleteMany(st.todos, TodoOwner, u),
      favorites := FindOneAndDelete(st.favorites, FavoritesOwner, u),
      carts := FindOneAndDelete(st.carts, CartOwner, u),
      albums := DeleteMany(st.albums, AlbumOwner, u),
      photos := PurgeChildren(st.photos, PhotoAlbum, albumIds),
      posts := DeleteMany(st.posts, PostOwner, u),
      comments := PurgeChildren(st.comments, CommentPost, postIds))
  }

  /** The five deleteMany steps remove the user's direct children only. */
  lemma CascadeRemovesOwned(st: Store, u: Id)
    ensures RemovesOwned(st, u, Cascade(st, u))
  {
  }

  /** The per-album and per-post loops remove exactly the grandchildren. */
  lemma CascadeRemovesGrandchildren(st: Store, u: Id)
    ensures RemovesGrandchildren(st, u, Cascade(st, u))
  {
    var s := Cascade(st, u);
    var albumIds := KeysOwnedBy(st.albums, AlbumOwner, AlbumKey, u);
    var postIds := KeysOwnedBy(st.posts, PostOwner, PostKey, u);
    assert s.photos == PurgeChildren(st.photos, PhotoAlbum, albumIds);
    assert s.comments == PurgeChildren(st.comments, CommentPost, postIds);
    assert forall ph :: ph in s.photos <==> ph in st.photos && !OwnsAlbum(st, u, ph.album);
    assert forall c :: c in s.comments <==> c in st.comments && !OwnsPost(st, u, c.post);
  }

  /** The three findOneAndDelete steps remove one match each. */
  lemma CascadeRemovesOne(st: Store, u: Id)
    ensures RemovesOneEach(st, u, Cascade(st, u))
  {
  }

  /** The findOneAndDelete steps touch no other user's documents. */
  lemma CascadeSparesOthers(st: Store, u: Id)
    ensures SparesOthers(st, u, Cascade(st, u))
  {
  }

  // ---------------------------------------------------------------------------
  // Provisioning

  /** `POST /api/users`.  `User.create(body)` is refused when `accepts` (the
      schema validators) says no or the id is already taken (duplicate key);
      then nothing is written.  Otherwise the user is appended, followed by one
      Favorites and one Cart that reference it. */
  function Create(st: Store, nu: User, accepts: User -> bool): (r: Reply)
    ensures r.outcome.Ok? <==> accepts(nu) && Count(st.users, UserKey, nu.id) == 0
    ensures r.outcome.Err? ==> r == Reply(st, Err(Rejected))
    ensures r.outcome.Ok? ==>
      && multiset(r.store.users) == multiset(st.users) + multiset{nu}
      && multiset(r.store.favorites) == multiset(st.favorites) + multiset{Favorites(nu.id)}
      && multiset(r.store.carts) == multiset(st.carts) + multiset{Cart(nu.id)}
      && Count(r.store.favorites, FavoritesOwner, nu.id) == Count(st.favorites, FavoritesOwner, nu.id) + 1
      && Count(r.store.carts, CartOwner, nu.id) == Count(st.carts, CartOwner, nu.id) + 1
      && r.store.(users := st.users, favorites := st.favorites, carts := st.carts) == st
  {
    if !accepts(nu) || FindUser(st.users, nu.id).Some? then
      Reply(st, Err(Rejected))
    else
      CountAppend(st.favorites, FavoritesOwner, Favorites(nu.id), nu.id);
      CountAppend(st.carts, CartOwner, Cart(nu.id), nu.id);
      Reply(Provision(st, nu), Ok)
  }

  /** The writes of a successful provisioning: the user, then its Favorites,
      then its Cart, each appended to its collection. */
  function Provision(st: Store, nu: User): Store
  {
    st.(users := st.users + [nu],
        favorites := st.favorites + [Favorites(nu.id)],
        carts := st.carts + [Cart(nu.id)])
  }

  // ---------------------------------------------------------------------------
  // Profile image

  /** URLs containing this path are images the service uploaded itself. */
  const ManagedFolder: string := "/members-api/users_profiles/"

  /** The public id a user's managed image is destroyed under. */
  function AssetId(u: Id): string
  {
    "members-api/users_profiles/" + u
  }

  /** What the media host's `destroy` call came back with: a response whose
      `result` field may be missing, or a rejected promise. */
  datatype DestroyResult = Resolved(result: Option<string>) | Failed

  /** The user after clearing the image, the public id `destroy` was called
      with (None when it was not called), and the outcome. */
  datatype ImageReply = ImageReply(user: User, destroyed: Option<string>, outcome: Outcome)

  /** `DELETE /api/users/me/profile_image` on the authenticated user `me`.  A
      managed photo is destroyed first; the field is cleared only when destroy
      answered `result === 'ok'`, or when there was no managed photo. */
  function DeleteProfileImage(me: User, destroy: DestroyResult): (r: ImageReply)
    ensures r.destroyed.Some? <==> me.photo.Some? && exists i :: OccursAt(me.photo.value, ManagedFolder, i)
    ensures r.destroyed.Some? ==> r.destroyed.value == AssetId(me.id)
    ensures r.outcome.Ok? <==> r.destroyed.None? || destroy == Resolved(Some("ok"))
    ensures r.outcome.Ok? ==> r.user == me.(photo := None)
    ensures r.outcome.Err? ==> r.user == me
    ensures r.outcome.Err? && destroy.Resolved? ==> r.outcome.error == ImageNotDeleted
  {
    if me.photo.Some? && Includes(me.photo.value, ManagedFolder) then
      match destroy
      case Failed => ImageReply(me, Some(AssetId(me.id)), Err(Uncaught))
      case Resolved(result) =>
        if result == Some("ok") then ImageReply(me.(photo := None), Some(AssetId(me.id)), Ok)
        else ImageReply(me, Some(AssetId(me.id)), Err(ImageNotDeleted))
    else
      ImageReply(me.(photo := None), None, Ok)
  }

  // ---------------------------------------------------------------------------
  // Passwords

  /** `PUT /api/users/me/change_password` on the authenticated user `me`.
      `matches(stored, candidate)` is the user model's `matchPassword`. */
  function ChangePassword(me: User, current: string, newPassword: string, matches: (string, string) -> bool): (r: UserReply)
    ensures r.outcome.Ok? <==> matches(me.password, current)
    ensures r.outcome.Err? ==> r == UserReply(me, Err(IncorrectPassword))
    ensures r.outcome.Ok? ==> r.user.password == newPassword && r.user.(password := me.password) == me
  {
    if !matches(me.password, current) then UserReply(me, Err(IncorrectPassword))
    else UserReply(me.(password := newPassword), Ok)
  }

  /** A request body for `PUT /api/users/:id`: an optional password, an
      optional photo (`Some(None)` is an explicit unset) and the other fields. */
  datatype Patch = Patch(password: Option<string>, photo: Option<Option<string>>, fields: map<string, string>)

  /** The bulk `findByIdAndUpdate` assignment of a body to a user document:
      every field the body carries overwrites the stored one. */
  function ApplyPatch(u: User, p: Patch): User
  {
    u.(password := if p.password.Some? then p.password.value else u.password,
       photo := if p.photo.Some? then p.photo.value else u.photo,
       profile := u.profile + p.fields)
  }

  /** Whether the update saves `body`'s password on its own first: it is
      present, non-empty (JavaScript truthy) and differs from the stored one. */
  predicate SplitsPassword(before: User, body: Patch)
  {
    body.password.Some? && body.password.value != "" && body.password.value != before.password
  }

  /** `PUT /api/users/:id`.  A non-empty password that differs from the stored
      one is assigned and saved on its own, then dropped from the body; the rest
      goes through one validated bulk update, which `accepts` may refuse; that
      refusal is not caught by the handler. */
  function UpdateOne(st: Store, id: Id, body: Patch, accepts: Patch -> bool): (r: Reply)
    ensures FindUser(st.users, id).None? ==> r == Reply(st, Err(NotFound))
    ensures r.outcome.Err? ==> r.outcome.error in {NotFound, Uncaught}
    ensures r.store.(users := st.users) == st
    ensures |r.store.users| == |st.users|
    ensures forall i :: 0 <= i < |st.users| && st.users[i].id != id ==> r.store.users[i] == st.users[i]
    // the bulk update sees the body without a split-out password, and decides the outcome
    ensures FindUser(st.users, id).Some? ==>
      var before := FindUser(st.users, id).value;
      (r.outcome.Ok? <==> accepts(if SplitsPassword(before, body) then body.(password := None) else body))
    ensures FindUser(st.users, id).Some? ==>
      var before := FindUser(st.users, id).value;
      && FindUser(r.store.users, id).Some?
      && var after := FindUser(r.store.users, id).value;
      && (r.outcome.Ok? ==>
            && after.password == (if body.password.Some? then body.password.value else before.password)
            && after.photo == (if body.photo.Some? then body.photo.value else before.photo)
            && after.profile == before.profile + body.fields)
      && (r.outcome.Err? ==>
            && after.password == (if body.password.Some? && body.password.value != "" then body.password.value else before.password)
            && after.photo == before.photo
            && after.profile == before.profile)
  {
    match FindUser(st.users, id)
    case None => Reply(st, Err(NotFound))
    case Some(before) =>
      var split := SplitsPassword(before, body);
      var saved := if split then before.(password := body.password.value) else before;
      var users := SetUser(st.users, saved);
      var rest := if split then body.(password := None) else body;
      if !accepts(rest) then Reply(st.(users := users), Err(Uncaught))
      else Reply(st.(users := SetUser(users, ApplyPatch(saved, rest))), Ok)
  }
}
