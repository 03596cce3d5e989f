/** What the account lifecycle keeps true of the whole store, and how the
    lifecycle actions relate to each other: create and delete are inverse,
    deleting twice finds nothing the second time, and a cascade interrupted
    after any of its writes never leaves an orphan and is finished by a retry.
 */
module Lifecycle {
  import opened Records
  import opened RecordStore
  import opened UserController

  /** Ids are unique within the users, albums and posts collections. */
  ghost predicate UniqueIds(st: Store)
  {
    && (forall v :: Count(st.users, UserKey, v) <= 1)
    && (forall v :: Count(st.albums, AlbumKey, v) <= 1)
    && (forall v :: Count(st.posts, PostKey, v) <= 1)
  }

  /** Every user has at most one Favorites and at most one Cart. */
  ghost predicate Singletons(st: Store)
  {
    && (forall v :: Count(st.favorites, FavoritesOwner, v) <= 1)
    && (forall v :: Count(st.carts, CartOwner, v) <= 1)
  }

  /** Every document a user owns directly names an existing user. */
  ghost predicate OwnersExist(st: Store)
  {
    && (forall a :: a in st.addresses ==> Count(st.users, UserKey, a.user) > 0)
    && (forall c :: c in st.companies ==> Count(st.users, UserKey, c.user) > 0)
    && (forall t :: t in st.todos ==> Count(st.users, UserKey, t.user) > 0)
    && (forall f :: f in st.favorites ==> Count(st.users, UserKey, f.user) > 0)
    && (forall c :: c in st.carts ==> Count(st.users, UserKey, c.user) > 0)
    && (forall al :: al in st.albums ==> Count(st.users, UserKey, al.user) > 0)
    && (forall po :: po in st.posts ==> Count(st.users, UserKey, po.user) > 0)
  }

  /** Every Photo names an existing album and every Comment an existing post. */
  ghost predicate ParentsExist(st: Store)
  {
    && (forall ph :: ph in st.photos ==> Count(st.albums, AlbumKey, ph.album) > 0)
    && (forall c :: c in st.comments ==> Count(st.posts, PostKey, c.post) > 0)
  }

  /** No orphans at either level of ownership. */
  ghost predicate NoOrphans(st: Store)
  {
    OwnersExist(st) && ParentsExist(st)
  }

  ghost predicate Consistent(st: Store)
  {
    UniqueIds(st) && Singletons(st) && NoOrphans(st)
  }

  /** The owned-id enumeration is empty when the owner owns nothing. */
  lemma NothingOwned<T(!new)>(s: seq<T>, owner: T -> Id, key: T -> Id, u: Id)
    requires Count(s, owner, u) == 0
    ensures KeysOwnedBy(s, owner, key, u) == []
  {
    var ids := KeysOwnedBy(s, owner, key, u);
    if |ids| > 0 {
      assert false;
    }
  }

  // ---------------------------------------------------------------------------
  // Deleting a user

  /** The cascade keeps ids unique: it only ever removes documents. */
  lemma DeleteOneKeepsUniqueIds(st: Store, u: Id)
    requires UniqueIds(st)
    ensures UniqueIds(DeleteOne(st, u).store)
  {
    var r := DeleteOne(st, u);
    if r.outcome.Ok? {
      var s := r.store;
      forall v ensures Count(s.users, UserKey, v) <= 1 {
        assert s.users == FindOneAndDelete(st.users, UserKey, u);
      }
      forall v ensures Count(s.albums, AlbumKey, v) <= 1 {
        CountWithout(st.albums, AlbumOwner, {u}, AlbumKey, v);
      }
      forall v ensures Count(s.posts, PostKey, v) <= 1 {
        CountWithout(st.posts, PostOwner, {u}, PostKey, v);
      }
    }
  }

  /** The cascade keeps at most one Favorites and one Cart per user. */
  lemma DeleteOneKeepsSingletons(st: Store, u: Id)
    requires Singletons(st)
    ensures Singletons(DeleteOne(st, u).store)
  {
    var r := DeleteOne(st, u);
    if r.outcome.Ok? {
      var s := r.store;
      assert s.favorites == FindOneAndDelete(st.favorites, FavoritesOwner, u);
      assert s.carts == FindOneAndDelete(st.carts, CartOwner, u);
    }
  }

  /** After deleteMany of `u`'s documents and the removal of `u`'s user
      document, every remaining document still names an existing user. */
  lemma DeleteManyKeepsOwners<T(!new)>(s: seq<T>, owner: T -> Id, users: seq<User>, u: Id)
    requires forall x :: x in s ==> Count(users, UserKey, owner(x)) > 0
    ensures forall x :: x in DeleteMany(s, owner, u) ==> Count(FindOneAndDelete(users, UserKey, u), UserKey, owner(x)) > 0
  {
  }

  /** The same for a singleton collection emptied with findOneAndDelete. */
  lemma FindOneAndDeleteKeepsOwners<T(!new)>(s: seq<T>, owner: T -> Id, users: seq<User>, u: Id)
    requires forall x :: x in s ==> Count(users, UserKey, owner(x)) > 0
    requires Count(s, owner, u) <= 1
    ensures forall x :: x in FindOneAndDelete(s, owner, u) ==> Count(FindOneAndDelete(users, UserKey, u), UserKey, owner(x)) > 0
  {
    var r := FindOneAndDelete(s, owner, u);
    forall x | x in r ensures Count(FindOneAndDelete(users, UserKey, u), UserKey, owner(x)) > 0 {
      assert owner(x) != u;
      assert multiset(r)[x] > 0;
      assert x in s;
    }
  }

  /** The cascade leaves no direct child of the user, and the other users'
      documents keep their owners. */
  lemma DeleteOneKeepsOwners(st: Store, u: Id)
    requires Singletons(st) && OwnersExist(st)
    ensures OwnersExist(DeleteOne(st, u).store)
  {
    if FindUser(st.users, u).Some? {
      DeleteManyKeepsOwners(st.addresses, AddressOwner, st.users, u);
      DeleteManyKeepsOwners(st.companies, CompanyOwner, st.users, u);
      DeleteManyKeepsOwners(st.todos, TodoOwner, st.users, u);
      DeleteManyKeepsOwners(st.albums, AlbumOwner, st.users, u);
      DeleteManyKeepsOwners(st.posts, PostOwner, st.users, u);
      FindOneAndDeleteKeepsOwners(st.favorites, FavoritesOwner, st.users, u);
      FindOneAndDeleteKeepsOwners(st.carts, CartOwner, st.users, u);
    }
  }

  /** The cascade leaves no Photo of an album it removed. */
  lemma CascadeKeepsAlbums(st: Store, u: Id)
    requires forall ph :: ph in st.photos ==> Count(st.albums, AlbumKey, ph.album) > 0
    ensures var s := Cascade(st, u);
      forall ph :: ph in s.photos ==> Count(s.albums, AlbumKey, ph.album) > 0
  {
    var s := Cascade(st, u);
    CascadeRemovesOwned(st, u);
    CascadeRemovesGrandchildren(st, u);
    forall ph | ph in s.photos ensures Count(s.albums, AlbumKey, ph.album) > 0 {
      var al :| al in st.albums && al.id == ph.album;
      assert al in s.albums;
    }
  }

  /** The cascade leaves no Comment on a post it removed. */
  lemma CascadeKeepsPosts(st: Store, u: Id)
    requires forall c :: c in st.comments ==> Count(st.posts, PostKey, c.post) > 0
    ensures var s := Cascade(st, u);
      forall c :: c in s.comments ==> Count(s.posts, PostKey, c.post) > 0
  {
    var s := Cascade(st, u);
    CascadeRemovesOwned(st, u);
    CascadeRemovesGrandchildren(st, u);
    forall c | c in s.comments ensures Count(s.posts, PostKey, c.post) > 0 {
      var po :| po in st.posts && po.id == c.post;
      assert po in s.posts;
    }
  }

  /** The cascade leaves no Photo of an album it removed and no Comment on a
      post it removed. */
  lemma DeleteOneKeepsParents(st: Store, u: Id)
    requires ParentsExist(st)
    ensures ParentsExist(DeleteOne(st, u).store)
  {
    CascadeKeepsAlbums(st, u);
    CascadeKeepsPosts(st, u);
  }

  /** The cascade keeps the whole store consistent. */
  lemma DeleteOnePreservesConsistency(st: Store, u: Id)
    requires Consistent(st)
    ensures Consistent(DeleteOne(st, u).store)
  {
    DeleteOneKeepsUniqueIds(st, u);
    DeleteOneKeepsSingletons(st, u);
    DeleteOneKeepsOwners(st, u);
    DeleteOneKeepsParents(st, u);
  }

  /** With unique album and post ids, the Photos of another user's album and
      the Comments on another user's post survive the cascade. */
  lemma DeleteOneSparesOthersChildren(st: Store, u: Id, al: Album, ph: Photo, po: Post, c: Comment)
    requires UniqueIds(st)
    requires al in st.albums && al.user != u && ph in st.photos && ph.album == al.id
    requires po in st.posts && po.user != u && c in st.comments && c.post == po.id
    ensures ph in DeleteOne(st, u).store.photos
    ensures c in DeleteOne(st, u).store.comments
  {
    if OwnsAlbum(st, u, al.id) {
      var other :| other in st.albums && other.user == u && other.id == al.id;
      CountTwo(st.albums, AlbumKey, al, other);
      assert false;
    }
    if OwnsPost(st, u, po.id) {
      var other :| other in st.posts && other.user == u && other.id == po.id;
      CountTwo(st.posts, PostKey, po, other);
      assert false;
    }
  }

  /** With unique user ids, a user once deleted is gone: a second delete
      answers 404 and writes nothing. */
  lemma DeleteOneTwice(st: Store, u: Id)
    requires UniqueIds(st)
    requires FindUser(st.users, u).Some?
    ensures DeleteOne(DeleteOne(st, u).store, u) == Reply(DeleteOne(st, u).store, Err(NotFound))
  {
    assert Count(DeleteOne(st, u).store.users, UserKey, u) == 0;
  }

  // ---------------------------------------------------------------------------
  // Creating a user

  /** Appending a document under a key not yet used keeps every key's count
      at most one, and gives the new key a count of exactly one. */
  lemma AppendFresh<T>(s: seq<T>, key: T -> Id, x: T)
    requires forall v :: Count(s, key, v) <= 1
    requires Count(s, key, key(x)) == 0
    ensures forall v :: Count(s + [x], key, v) <= 1
    ensures Count(s + [x], key, key(x)) == 1
  {
    forall v ensures Count(s + [x], key, v) == Count(s, key, v) + (if key(x) == v then 1 else 0) {
      CountAppend(s, key, x, v);
    }
  }

  /** Appending a user keeps every existing owner reference valid. */
  lemma AppendUserKeepsOwners<T(!new)>(s: seq<T>, owner: T -> Id, users: seq<User>, nu: User)
    requires forall x :: x in s ==> Count(users, UserKey, owner(x)) > 0
    ensures forall x :: x in s ==> Count(users + [nu], UserKey, owner(x)) > 0
  {
    forall x | x in s ensures Count(users + [nu], UserKey, owner(x)) > 0 {
      CountAppend(users, UserKey, nu, owner(x));
    }
  }

  /** Provisioning a fresh id keeps ids unique. */
  lemma ProvisionKeepsUniqueIds(st: Store, nu: User)
    requires UniqueIds(st) && Count(st.users, UserKey, nu.id) == 0
    ensures UniqueIds(Provision(st, nu))
  {
    AppendFresh(st.users, UserKey, nu);
  }

  /** Provisioning a user that has no Favorites or Cart yet gives it exactly
      one of each and keeps every other user's at most one. */
  lemma ProvisionKeepsSingletons(st: Store, nu: User)
    requires Singletons(st)
    requires Count(st.favorites, FavoritesOwner, nu.id) == 0 && Count(st.carts, CartOwner, nu.id) == 0
    ensures Singletons(Provision(st, nu))
    ensures Count(Provision(st, nu).favorites, FavoritesOwner, nu.id) == 1
    ensures Count(Provision(st, nu).carts, CartOwner, nu.id) == 1
  {
    AppendFresh(st.favorites, FavoritesOwner, Favorites(nu.id));
    AppendFresh(st.carts, CartOwner, Cart(nu.id));
  }

  /** Appending a user together with its Favorites and Cart keeps every
      Favorites and Cart owner valid, the new ones included. */
  lemma AppendSideRecordsOwned(favorites: seq<Favorites>, carts: seq<Cart>, users: seq<User>, nu: User)
    requires forall f :: f in favorites ==> Count(users, UserKey, f.user) > 0
    requires forall c :: c in carts ==> Count(users, UserKey, c.user) > 0
    ensures forall f :: f in favorites + [Favorites(nu.id)] ==> Count(users + [nu], UserKey, f.user) > 0
    ensures forall c :: c in carts + [Cart(nu.id)] ==> Count(users + [nu], UserKey, c.user) > 0
  {
    AppendUserKeepsOwners(favorites, FavoritesOwner, users, nu);
    AppendUserKeepsOwners(carts, CartOwner, users, nu);
    CountAppend(users, UserKey, nu, nu.id);
  }

  /** Provisioning keeps every owner reference valid, and the new Favorites
      and Cart name the new user. */
  lemma ProvisionKeepsOwners(st: Store, nu: User)
    requires OwnersExist(st)
    ensures OwnersExist(Provision(st, nu))
  {
    AppendSideRecordsOwned(st.favorites, st.carts, st.users, nu);
    AppendUserKeepsOwners(st.addresses, AddressOwner, st.users, nu);
    AppendUserKeepsOwners(st.companies, CompanyOwner, st.users, nu);
    AppendUserKeepsOwners(st.todos, TodoOwner, st.users, nu);
    AppendUserKeepsOwners(st.albums, AlbumOwner, st.users, nu);
    AppendUserKeepsOwners(st.posts, PostOwner, st.users, nu);
  }

  /** Provisioning creates no orphan. */
  lemma ProvisionKeepsNoOrphans(st: Store, nu: User)
    requires NoOrphans(st)
    ensures NoOrphans(Provision(st, nu))
  {
    ProvisionKeepsOwners(st, nu);
    assert ParentsExist(Provision(st, nu));
  }

  /** Provisioning keeps the store consistent, and the new user owns exactly
      one Favorites and one Cart. */
  lemma CreatePreservesConsistency(st: Store, nu: User, accepts: User -> bool)
    requires Consistent(st)
    requires Create(st, nu, accepts).outcome.Ok?
    ensures Consistent(Create(st, nu, accepts).store)
    ensures Count(Create(st, nu, accepts).store.favorites, FavoritesOwner, nu.id) == 1
    ensures Count(Create(st, nu, accepts).store.carts, CartOwner, nu.id) == 1
  {
    var u := nu.id;
    assert Count(st.favorites, FavoritesOwner, u) == 0;
    assert Count(st.carts, CartOwner, u) == 0;
    ProvisionKeepsUniqueIds(st, nu);
    ProvisionKeepsSingletons(st, nu);
    ProvisionKeepsNoOrphans(st, nu);
  }

  /** The cascade's deletes by owner find nothing for a user that owns nothing. */
  lemma UnownedUntouched(st: Store, u: Id)
    requires forall a :: a in st.addresses ==> a.user != u
    requires forall c :: c in st.companies ==> c.user != u
    requires forall t :: t in st.todos ==> t.user != u
    requires forall al :: al in st.albums ==> al.user != u
    requires forall po :: po in st.posts ==> po.user != u
    ensures DeleteMany(st.addresses, AddressOwner, u) == st.addresses
    ensures DeleteMany(st.companies, CompanyOwner, u) == st.companies
    ensures DeleteMany(st.todos, TodoOwner, u) == st.todos
    ensures DeleteMany(st.albums, AlbumOwner, u) == st.albums
    ensures DeleteMany(st.posts, PostOwner, u) == st.posts
    ensures PurgeChildren(st.photos, PhotoAlbum, KeysOwnedBy(st.albums, AlbumOwner, AlbumKey, u)) == st.photos
    ensures PurgeChildren(st.comments, CommentPost, KeysOwnedBy(st.posts, PostOwner, PostKey, u)) == st.comments
  {
    WithoutNone(st.addresses, AddressOwner, {u});
    WithoutNone(st.companies, CompanyOwner, {u});
    WithoutNone(st.todos, TodoOwner, {u});
    WithoutNone(st.albums, AlbumOwner, {u});
    WithoutNone(st.posts, PostOwner, {u});
    NothingOwned(st.albums, AlbumOwner, AlbumKey, u);
    NothingOwned(st.posts, PostOwner, PostKey, u);
  }

  /** The cascade for a user that owns nothing and whose user document,
      Favorites and Cart were the last appended removes exactly those three. */
  lemma CascadeOfFresh(st: Store, nu: User)
    requires Count(st.users, UserKey, nu.id) == 0
    requires Count(st.favorites, FavoritesOwner, nu.id) == 0 && Count(st.carts, CartOwner, nu.id) == 0
    requires forall a :: a in st.addresses ==> a.user != nu.id
    requires forall c :: c in st.companies ==> c.user != nu.id
    requires forall t :: t in st.todos ==> t.user != nu.id
    requires forall al :: al in st.albums ==> al.user != nu.id
    requires forall po :: po in st.posts ==> po.user != nu.id
    ensures Cascade(Provision(st, nu), nu.id) == st
  {
    var u := nu.id;
    FindOneAndDeleteAppended(st.users, UserKey, nu);
    FindOneAndDeleteAppended(st.favorites, FavoritesOwner, Favorites(u));
    FindOneAndDeleteAppended(st.carts, CartOwner, Cart(u));
    UnownedUntouched(st, u);
  }

  /** Create and delete are inverse: deleting a user just created on a
      store without orphans gives back exactly the store it was created on. */
  lemma CreateThenDeleteOne(st: Store, nu: User, accepts: User -> bool)
    requires OwnersExist(st)
    requires Create(st, nu, accepts).outcome.Ok?
    ensures DeleteOne(Create(st, nu, accepts).store, nu.id) == Reply(st, Ok)
  {
    CountAppend(st.users, UserKey, nu, nu.id);
    CascadeOfFresh(st, nu);
  }

  // ---------------------------------------------------------------------------
  // An interrupted cascade

  /** How many store writes the cascade issues for `u`: five single-collection
      deletes, one per album, the albums, one per post, the posts, the user. */
  function CascadeLength(st: Store, u: Id): nat
  {
    8 + |KeysOwnedBy(st.albums, AlbumOwner, AlbumKey, u)| + |KeysOwnedBy(st.posts, PostOwner, PostKey, u)|
  }

  /** `n` clamped into `0..hi`. */
  function Clamp(n: int, hi: nat): (c: nat)
    ensures c <= hi
  {
    if n < 0 then 0 else if n > hi then hi else n
  }

  /** The store after the first `k` writes of `deleteOne(u)` when the next
      write throws: every collection the cascade has reached is cleaned, the
      Photo loop has handled the first albums only, and so on. */
  function Interrupted(st: Store, u: Id, k: nat): (r: Store)
    ensures k < CascadeLength(st, u) ==> r.users == st.users
    ensures k >= CascadeLength(st, u) ==> r == Cascade(st, u)
  {
    var albumIds := KeysOwnedBy(st.albums, AlbumOwner, AlbumKey, u);
    var postIds := KeysOwnedBy(st.posts, PostOwner, PostKey, u);
    var albumsDone := Clamp(k - 5, |albumIds|);
    var postsDone := Clamp(k - 6 - |albumIds|, |postIds|);
    assert albumIds[..|albumIds|] == albumIds;
    assert postIds[..|postIds|] == postIds;
    Store(
      users := if k >= 8 + |albumIds| + |postIds| then FindOneAndDelete(st.users, UserKey, u) else st.users,
      addresses := if k >= 1 then DeleteMany(st.addresses, AddressOwner, u) else st.addresses,
      companies := if k >= 2 then DeleteMany(st.companies, CompanyOwner, u) else st.companies,
      todos := if k >= 3 then DeleteMany(st.todos, TodoOwner, u) else st.todos,
      favorites := if k >= 4 then FindOneAndDelete(st.favorites, FavoritesOwner, u) else st.favorites,
      carts := if k >= 5 then FindOneAndDelete(st.carts, CartOwner, u) else st.carts,
      photos := PurgeChildren(st.photos, PhotoAlbum, albumIds[..albumsDone]),
      albums := if k >= 6 + |albumIds| then DeleteMany(st.albums, AlbumOwner, u) else st.albums,
      comments := PurgeChildren(st.comments, CommentPost, postIds[..postsDone]),
      posts := if k >= 7 + |albumIds| + |postIds| then DeleteMany(st.posts, PostOwner, u) else st.posts)
  }

  /** Purging a prefix of the ids and then all of them is purging all of them. */
  lemma PurgePrefixThenAll<T(!new)>(s: seq<T>, key: T -> Id, ids: seq<Id>, j: nat)
    requires j <= |ids|
    ensures PurgeChildren(PurgeChildren(s, key, ids[..j]), key, ids) == PurgeChildren(s, key, ids)
  {
    var pre := set p | p in ids[..j];
    var all := set p | p in ids;
    PurgeIsWithout(s, key, ids[..j]);
    PurgeIsWithout(PurgeChildren(s, key, ids[..j]), key, ids);
    PurgeIsWithout(s, key, ids);
    WithoutWithout(s, key, pre, all);
    assert pre + all == all;
  }

  /** Removing the only match twice removes it once. */
  lemma FindOneAndDeleteSingleton<T(!new)>(s: seq<T>, key: T -> Id, v: Id)
    requires Count(s, key, v) <= 1
    ensures FindOneAndDelete(FindOneAndDelete(s, key, v), key, v) == FindOneAndDelete(s, key, v)
  {
  }

  /** Purging the children of an owner that no longer owns anything is a no-op. */
  lemma PurgeNothingOwned<T(!new), C(!new)>(parents: seq<T>, owner: T -> Id, key: T -> Id, u: Id, children: seq<C>, parent: C -> Id)
    ensures PurgeChildren(children, parent, KeysOwnedBy(DeleteMany(parents, owner, u), owner, key, u)) == children
  {
    NothingOwned(DeleteMany(parents, owner, u), owner, key, u);
  }

  /** However far the cascade got, no Photo outlives its album and no Comment
      its post: the children of the enumerated parents go before the parents. */
  lemma InterruptedKeepsParents(st: Store, u: Id, k: nat)
    requires ParentsExist(st)
    ensures ParentsExist(Interrupted(st, u, k))
  {
    var s := Interrupted(st, u, k);
    var albumIds := KeysOwnedBy(st.albums, AlbumOwner, AlbumKey, u);
    var postIds := KeysOwnedBy(st.posts, PostOwner, PostKey, u);
    if k >= 6 + |albumIds| {
      assert albumIds[..Clamp(k - 5, |albumIds|)] == albumIds;
      forall ph | ph in s.photos ensures Count(s.albums, AlbumKey, ph.album) > 0 {
        var al :| al in st.albums && al.id == ph.album;
        assert ph.album !in albumIds;
        assert al in s.albums;
      }
    }
    if k >= 7 + |albumIds| + |postIds| {
      assert postIds[..Clamp(k - 6 - |albumIds|, |postIds|)] == postIds;
      forall c | c in s.comments ensures Count(s.posts, PostKey, c.post) > 0 {
        var po :| po in st.posts && po.id == c.post;
        assert c.post !in postIds;
        assert po in s.posts;
      }
    }
  }

  /** Before its last write the cascade has only removed documents and has not
      touched the user, so every remaining document keeps its owner. */
  lemma InterruptedKeepsOwners(st: Store, u: Id, k: nat)
    requires OwnersExist(st)
    requires k < CascadeLength(st, u)
    ensures OwnersExist(Interrupted(st, u, k))
  {
    var s := Interrupted(st, u, k);
    assert s.users == st.users;
    assert forall x :: x in s.favorites ==> x in st.favorites;
    assert forall x :: x in s.carts ==> x in st.carts;
  }

  /** With no user `u` and nothing owned by `u`, the cascade writes nothing. */
  lemma CascadeOfAbsent(st: Store, u: Id)
    requires OwnersExist(st)
    requires Count(st.users, UserKey, u) == 0
    ensures Cascade(st, u) == st
  {
    assert Count(st.favorites, FavoritesOwner, u) == 0;
    assert Count(st.carts, CartOwner, u) == 0;
    UnownedUntouched(st, u);
  }

  /** A cascade interrupted at any point leaves no orphan: Photos and Comments
      go before their albums and posts, and the user goes last. */
  lemma InterruptedKeepsNoOrphans(st: Store, u: Id, k: nat)
    requires Singletons(st) && NoOrphans(st)
    ensures NoOrphans(Interrupted(st, u, k))
  {
    InterruptedKeepsParents(st, u, k);
    if k < CascadeLength(st, u) {
      InterruptedKeepsOwners(st, u, k);
    } else if FindUser(st.users, u).Some? {
      DeleteOneKeepsOwners(st, u);
    } else {
      CascadeOfAbsent(st, u);
    }
  }

  /** The Photo purge of a retried cascade ends where an uninterrupted one does. */
  lemma RetryPhotos(st: Store, u: Id, k: nat)
    ensures var s := Interrupted(st, u, k);
            PurgeChildren(s.photos, PhotoAlbum, KeysOwnedBy(s.albums, AlbumOwner, AlbumKey, u))
            == PurgeChildren(st.photos, PhotoAlbum, KeysOwnedBy(st.albums, AlbumOwner, AlbumKey, u))
  {
    var s := Interrupted(st, u, k);
    var albumIds := KeysOwnedBy(st.albums, AlbumOwner, AlbumKey, u);
    if k >= 6 + |albumIds| {
      assert albumIds[..Clamp(k - 5, |albumIds|)] == albumIds;
      PurgeNothingOwned(st.albums, AlbumOwner, AlbumKey, u, s.photos, PhotoAlbum);
    } else {
      PurgePrefixThenAll(st.photos, PhotoAlbum, albumIds, Clamp(k - 5, |albumIds|));
    }
  }

  /** The Comment purge of a retried cascade ends where an uninterrupted one does. */
  lemma RetryComments(st: Store, u: Id, k: nat)
    ensures var s := Interrupted(st, u, k);
            PurgeChildren(s.comments, CommentPost, KeysOwnedBy(s.posts, PostOwner, PostKey, u))
            == PurgeChildren(st.comments, CommentPost, KeysOwnedBy(st.posts, PostOwner, PostKey, u))
  {
    var s := Interrupted(st, u, k);
    var albumIds := KeysOwnedBy(st.albums, AlbumOwner, AlbumKey, u);
    var postIds := KeysOwnedBy(st.posts, PostOwner, PostKey, u);
    if k >= 7 + |albumIds| + |postIds| {
      assert postIds[..Clamp(k - 6 - |albumIds|, |postIds|)] == postIds;
      PurgeNothingOwned(st.posts, PostOwner, PostKey, u, s.comments, CommentPost);
    } else {
      PurgePrefixThenAll(st.comments, CommentPost, postIds, Clamp(k - 6 - |albumIds|, |postIds|));
    }
  }

  /** The single-collection writes of a retried cascade end where an
      uninterrupted cascade's do: deleteMany repeats as a no-op, and with at
      most one Favorites and Cart so does findOneAndDelete. */
  lemma RetryDirect(st: Store, u: Id, k: nat)
    requires Singletons(st)
    requires k < CascadeLength(st, u)
    ensures var s := Interrupted(st, u, k);
      && FindOneAndDelete(s.users, UserKey, u) == FindOneAndDelete(st.users, UserKey, u)
      && DeleteMany(s.addresses, AddressOwner, u) == DeleteMany(st.addresses, AddressOwner, u)
      && DeleteMany(s.companies, CompanyOwner, u) == DeleteMany(st.companies, CompanyOwner, u)
      && DeleteMany(s.todos, TodoOwner, u) == DeleteMany(st.todos, TodoOwner, u)
      && FindOneAndDelete(s.favorites, FavoritesOwner, u) == FindOneAndDelete(st.favorites, FavoritesOwner, u)
      && FindOneAndDelete(s.carts, CartOwner, u) == FindOneAndDelete(st.carts, CartOwner, u)
      && DeleteMany(s.albums, AlbumOwner, u) == DeleteMany(st.albums, AlbumOwner, u)
      && DeleteMany(s.posts, PostOwner, u) == DeleteMany(st.posts, PostOwner, u)
  {
    var s := Interrupted(st, u, k);
    assert s.users == st.users;
    assert DeleteMany(s.addresses, AddressOwner, u) == DeleteMany(st.addresses, AddressOwner, u) by {
      DeleteManyIdempotent(st.addresses, AddressOwner, u);
    }
    assert DeleteMany(s.companies, CompanyOwner, u) == DeleteMany(st.companies, CompanyOwner, u) by {
      DeleteManyIdempotent(st.companies, CompanyOwner, u);
    }
    assert DeleteMany(s.todos, TodoOwner, u) == DeleteMany(st.todos, TodoOwner, u) by {
      DeleteManyIdempotent(st.todos, TodoOwner, u);
    }
    assert DeleteMany(s.albums, AlbumOwner, u) == DeleteMany(st.albums, AlbumOwner, u) by {
      DeleteManyIdempotent(st.albums, AlbumOwner, u);
    }
    assert DeleteMany(s.posts, PostOwner, u) == DeleteMany(st.posts, PostOwner, u) by {
      DeleteManyIdempotent(st.posts, PostOwner, u);
    }
    assert FindOneAndDelete(s.favorites, FavoritesOwner, u) == FindOneAndDelete(st.favorites, FavoritesOwner, u) by {
      FindOneAndDeleteSingleton(st.favorites, FavoritesOwner, u);
    }
    assert FindOneAndDelete(s.carts, CartOwner, u) == FindOneAndDelete(st.carts, CartOwner, u) by {
      FindOneAndDeleteSingleton(st.carts, CartOwner, u);
    }
  }

  /** Retrying a cascade that was interrupted after any number of writes ends
      in exactly the store one uninterrupted cascade produces: every step is
      safe to repeat, and the user, removed last, is still there to be found. */
  lemma RetryAfterInterruption(st: Store, u: Id, k: nat)
    requires Singletons(st)
    requires FindUser(st.users, u).Some?
    requires k < CascadeLength(st, u)
    ensures DeleteOne(Interrupted(st, u, k), u) == DeleteOne(st, u)
  {
    RetryDirect(st, u, k);
    RetryPhotos(st, u, k);
    RetryComments(st, u, k);
  }

  // ---------------------------------------------------------------------------
  // Updating a user

  /** An update rewrites one user in place and never changes how many users
      carry any id. */
  lemma UpdateOneKeepsUserCounts(st: Store, id: Id, body: Patch, accepts: Patch -> bool, w: Id)
    ensures Count(UpdateOne(st, id, body, accepts).store.users, UserKey, w) == Count(st.users, UserKey, w)
  {
    match FindUser(st.users, id)
    case None =>
    case Some(before) =>
      var split := SplitsPassword(before, body);
      var saved := if split then before.(password := body.password.value) else before;
      var rest := if split then body.(password := None) else body;
      SetUserKeepsCounts(st.users, saved, w);
      SetUserKeepsCounts(SetUser(st.users, saved), ApplyPatch(saved, rest), w);
  }

  /** A store that differs only in its users, with the same number of users
      per id, is exactly as consistent. */
  lemma SameUserCounts(st: Store, s: Store)
    requires Consistent(st)
    requires s.(users := st.users) == st
    requires forall w :: Count(s.users, UserKey, w) == Count(st.users, UserKey, w)
    ensures Consistent(s)
  {
  }

  /** Updating a user, whether it succeeds or is refused after the password
      save, keeps the store consistent. */
  lemma UpdateOnePreservesConsistency(st: Store, id: Id, body: Patch, accepts: Patch -> bool)
    requires Consistent(st)
    ensures Consistent(UpdateOne(st, id, body, accepts).store)
  {
    var s := UpdateOne(st, id, body, accepts).store;
    forall w ensures Count(s.users, UserKey, w) == Count(st.users, UserKey, w) {
      UpdateOneKeepsUserCounts(st, id, body, accepts, w);
    }
    SameUserCounts(st, s);
  }

  // ---------------------------------------------------------------------------
  // Profile image and password

  /** Once the image is cleared, a second removal has nothing to destroy and
      succeeds without changing the user, whatever the media host would say. */
  lemma DeleteProfileImageIdempotent(me: User, first: DestroyResult, second: DestroyResult)
    ensures var r := DeleteProfileImage(me, first);
      r.outcome.Ok? ==> DeleteProfileImage(r.user, second) == ImageReply(r.user, None, Ok)
  {
  }

  /** A password change is undone by changing back with the new password as
      the current one, provided the hash check accepts it. */
  lemma ChangePasswordUndo(me: User, current: string, newPassword: string, matches: (string, string) -> bool)
    requires matches(me.password, current) && matches(newPassword, newPassword)
    ensures var r := ChangePassword(me, current, newPassword, matches);
      ChangePassword(r.user, newPassword, me.password, matches) == UserReply(me, Ok)
  {
  }
}
