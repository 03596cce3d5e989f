/** The record-store primitives the controller drives, as pure functions on a
    collection: `deleteMany` is a filter-out, `find` a filter-select,
    `findOneAndDelete` removes the first match only, and `create` is an append.
    Every primitive is generic in the collection and takes the filtered field
    as a key function.
 */
module RecordStore {
  import opened Records

  /** How many documents of `s` have `key` equal to `v`. */
  function Count<T>(s: seq<T>, key: T -> Id, v: Id): (n: nat)
    ensures n <= |s|
    ensures n == 0 <==> forall x :: x in s ==> key(x) != v
  {
    if |s| == 0 then 0
    else (if key(s[0]) == v then 1 else 0) + Count(s[1..], key, v)
  }

  /** The documents of `s` whose key is not in `keys`, in their original order
      (a deleteMany with an `$in` filter). */
  function Without<T(!new)>(s: seq<T>, key: T -> Id, keys: set<Id>): (r: seq<T>)
    ensures forall x :: x in r <==> x in s && key(x) !in keys
    ensures |r| <= |s|
  {
    if |s| == 0 then []
    else if key(s[0]) in keys then Without(s[1..], key, keys)
    else [s[0]] + Without(s[1..], key, keys)
  }

  /** `Model.deleteMany({ field: v })`. */
  function DeleteMany<T(!new)>(s: seq<T>, key: T -> Id, v: Id): (r: seq<T>)
    ensures forall x :: x in r <==> x in s && key(x) != v
    ensures Count(r, key, v) == 0
  {
    Without(s, key, {v})
  }

  /** `Model.find({ field: v })`. */
  function Find<T(!new)>(s: seq<T>, key: T -> Id, v: Id): (r: seq<T>)
    ensures forall x :: x in r <==> x in s && key(x) == v
    ensures |r| == Count(s, key, v)
  {
    if |s| == 0 then []
    else if key(s[0]) == v then [s[0]] + Find(s[1..], key, v)
    else Find(s[1..], key, v)
  }

  /** `Model.findOneAndDelete({ field: v })` (and `findByIdAndDelete`): only the
      first matching document goes. */
  function FindOneAndDelete<T(!new)>(s: seq<T>, key: T -> Id, v: Id): (r: seq<T>)
    ensures Count(s, key, v) == 0 ==> r == s
    ensures Count(s, key, v) > 0 ==> |r| == |s| - 1 && Count(r, key, v) == Count(s, key, v) - 1
    ensures forall w :: w != v ==> Count(r, key, w) == Count(s, key, w)
    ensures forall x :: key(x) != v ==> multiset(r)[x] == multiset(s)[x]
    ensures forall x :: x in r ==> x in s
  {
    if |s| == 0 then []
    else
      assert s == [s[0]] + s[1..];
      if key(s[0]) == v then s[1..]
      else [s[0]] + FindOneAndDelete(s[1..], key, v)
  }

  /** The ids of a list of documents, in order (the `_id` of each found album or post). */
  function Keys<T>(s: seq<T>, key: T -> Id): (ids: seq<Id>)
    ensures |ids| == |s|
    ensures forall i :: 0 <= i < |s| ==> ids[i] == key(s[i])
  {
    if |s| == 0 then [] else [key(s[0])] + Keys(s[1..], key)
  }

  /** The ids (under `key`) of the documents of `s` whose `owner` is `u`, in
      store order: the `_id`s of `await Model.find({ user: u })`. */
  function KeysOwnedBy<T(!new)>(s: seq<T>, owner: T -> Id, key: T -> Id, u: Id): (ids: seq<Id>)
    ensures forall k :: k in ids <==> exists x :: x in s && owner(x) == u && key(x) == k
  {
    var found := Find(s, owner, u);
    var ids := Keys(found, key);
    assert forall k :: k in ids ==> exists x :: x in s && owner(x) == u && key(x) == k by {
      forall k | k in ids ensures exists x :: x in s && owner(x) == u && key(x) == k {
        var i :| 0 <= i < |ids| && ids[i] == k;
        assert found[i] in found;
      }
    }
    assert forall x :: x in s && owner(x) == u ==> key(x) in ids by {
      forall x | x in s && owner(x) == u ensures key(x) in ids {
        assert x in found;
        var i :| 0 <= i < |found| && found[i] == x;
        assert ids[i] == key(x);
      }
    }
    ids
  }

  /** The `for (const parent of parents) await Child.deleteMany({ parent: parent._id })`
      loop: one deleteMany per enumerated parent id, in enumeration order. */
  function PurgeChildren<T(!new)>(s: seq<T>, key: T -> Id, parents: seq<Id>): (r: seq<T>)
    ensures forall x :: x in r <==> x in s && key(x) !in parents
    decreases |parents|
  {
    if |parents| == 0 then s
    else PurgeChildren(DeleteMany(s, key, parents[0]), key, parents[1..])
  }

  /** `Model.findById(id)`: the first user with that id, if any. */
  function FindUser(users: seq<User>, id: Id): (r: Option<User>)
    ensures r.None? <==> Count(users, UserKey, id) == 0
    ensures r.Some? ==> r.value in users && r.value.id == id
  {
    if |users| == 0 then None
    else if users[0].id == id then Some(users[0])
    else FindUser(users[1..], id)
  }

  /** Writes `u` back over the first stored user with the same id (a `save` or a
      `findByIdAndUpdate`); the collection is unchanged when there is none. */
  function SetUser(users: seq<User>, u: User): (r: seq<User>)
    ensures |r| == |users|
    ensures forall i :: 0 <= i < |users| && users[i].id != u.id ==> r[i] == users[i]
    ensures FindUser(users, u.id).Some? ==> FindUser(r, u.id) == Some(u)
    ensures FindUser(users, u.id).None? ==> r == users
  {
    if |users| == 0 then []
    else if users[0].id == u.id then
      assert ([u] + users[1..])[1..] == users[1..];
      [u] + users[1..]
    else
      var rest := SetUser(users[1..], u);
      assert ([users[0]] + rest)[1..] == rest;
      [users[0]] + rest
  }

  /** Overwriting a user in place keeps how many users carry each id. */
  lemma {:induction false} SetUserKeepsCounts(users: seq<User>, u: User, w: Id)
    ensures Count(SetUser(users, u), UserKey, w) == Count(users, UserKey, w)
  {
    if |users| > 0 {
      var r := SetUser(users, u);
      assert r[1..] == (if users[0].id == u.id then users[1..] else SetUser(users[1..], u));
      if users[0].id != u.id {
        SetUserKeepsCounts(users[1..], u, w);
      } else {
        assert r[0].id == users[0].id;
      }
    }
  }

  /** Appending a document adds one to its own key's count and nothing to any other. */
  lemma {:induction false} CountAppend<T>(s: seq<T>, key: T -> Id, x: T, v: Id)
    ensures Count(s + [x], key, v) == Count(s, key, v) + (if key(x) == v then 1 else 0)
  {
    if |s| == 0 {
      assert [x][1..] == [];
    } else {
      assert (s + [x])[1..] == s[1..] + [x];
      CountAppend(s[1..], key, x, v);
    }
  }

  /** Filtering never adds documents under any key. */
  lemma {:induction false} CountWithout<T(!new)>(s: seq<T>, key: T -> Id, keys: set<Id>, other: T -> Id, v: Id)
    ensures Count(Without(s, key, keys), other, v) <= Count(s, other, v)
  {
    if |s| > 0 {
      CountWithout(s[1..], key, keys, other, v);
      if key(s[0]) !in keys {
        assert ([s[0]] + Without(s[1..], key, keys))[1..] == Without(s[1..], key, keys);
      }
    }
  }

  /** Two different documents under the same key make that key's count at least two. */
  lemma {:induction false} CountTwo<T>(s: seq<T>, key: T -> Id, x: T, y: T)
    requires x in s && y in s && x != y && key(x) == key(y)
    ensures Count(s, key, key(x)) >= 2
  {
    if s[0] == x {
      assert y in s[1..];
    } else if s[0] == y {
      assert x in s[1..];
    } else {
      assert x in s[1..] && y in s[1..];
      CountTwo(s[1..], key, x, y);
    }
  }

  /** Filtering by one set of keys and then another is filtering by their union. */
  lemma {:induction false} WithoutWithout<T(!new)>(s: seq<T>, key: T -> Id, a: set<Id>, b: set<Id>)
    ensures Without(Without(s, key, a), key, b) == Without(s, key, a + b)
  {
    if |s| > 0 {
      WithoutWithout(s[1..], key, a, b);
      if key(s[0]) !in a && key(s[0]) !in b {
        assert ([s[0]] + Without(s[1..], key, a))[1..] == Without(s[1..], key, a);
      } else if key(s[0]) !in a {
        assert ([s[0]] + Without(s[1..], key, a))[1..] == Without(s[1..], key, a);
      }
    }
  }

  /** A filter that removes nothing leaves the collection as it was. */
  lemma {:induction false} WithoutNone<T(!new)>(s: seq<T>, key: T -> Id, keys: set<Id>)
    requires forall x :: x in s ==> key(x) !in keys
    ensures Without(s, key, keys) == s
  {
    if |s| > 0 {
      assert s[0] in s;
      assert forall x :: x in s[1..] ==> x in s;
      WithoutNone(s[1..], key, keys);
      assert [s[0]] + s[1..] == s;
    }
  }

  /** The per-parent loop removes exactly what one deleteMany over all the
      enumerated ids would: the order of the loop does not matter. */
  lemma {:induction false} PurgeIsWithout<T(!new)>(s: seq<T>, key: T -> Id, parents: seq<Id>)
    ensures PurgeChildren(s, key, parents) == Without(s, key, set p | p in parents)
    decreases |parents|
  {
    if |parents| == 0 {
      assert (set p | p in parents) == {};
      WithoutNone(s, key, {});
    } else {
      var rest := set p | p in parents[1..];
      PurgeIsWithout(DeleteMany(s, key, parents[0]), key, parents[1..]);
      WithoutWithout(s, key, {parents[0]}, rest);
      assert {parents[0]} + rest == set p | p in parents by {
        assert parents == [parents[0]] + parents[1..];
      }
    }
  }

  /** deleteMany and find split a collection: every document is either kept by
      the first or returned by the second, with its multiplicity. */
  lemma {:induction false} DeleteManyFindPartition<T(!new)>(s: seq<T>, key: T -> Id, v: Id)
    ensures multiset(DeleteMany(s, key, v)) + multiset(Find(s, key, v)) == multiset(s)
  {
    if |s| > 0 {
      var d, f := DeleteMany(s[1..], key, v), Find(s[1..], key, v);
      DeleteManyFindPartition(s[1..], key, v);
      assert s == [s[0]] + s[1..];
      assert multiset(s) == multiset{s[0]} + multiset(s[1..]);
      if key(s[0]) == v {
        assert Find(s, key, v) == [s[0]] + f;
        assert DeleteMany(s, key, v) == d;
        assert multiset([s[0]] + f) == multiset{s[0]} + multiset(f);
      } else {
        assert Find(s, key, v) == f;
        assert DeleteMany(s, key, v) == [s[0]] + d;
        assert multiset([s[0]] + d) == multiset{s[0]} + multiset(d);
      }
    }
  }

  /** Repeating a deleteMany is a no-op: a retried cascade step succeeds without
      further effect. */
  lemma DeleteManyIdempotent<T(!new)>(s: seq<T>, key: T -> Id, v: Id)
    ensures DeleteMany(DeleteMany(s, key, v), key, v) == DeleteMany(s, key, v)
  {
    WithoutWithout(s, key, {v}, {v});
    assert {v} + {v} == {v};
  }

  /** Repeating the per-parent purge over the same ids is a no-op. */
  lemma PurgeIdempotent<T(!new)>(s: seq<T>, key: T -> Id, parents: seq<Id>)
    ensures PurgeChildren(PurgeChildren(s, key, parents), key, parents) == PurgeChildren(s, key, parents)
  {
    var ids := set p | p in parents;
    PurgeIsWithout(s, key, parents);
    PurgeIsWithout(PurgeChildren(s, key, parents), key, parents);
    WithoutWithout(s, key, ids, ids);
    assert ids + ids == ids;
  }

  /** Removing the single match of a key whose last copy was just appended gives
      back the collection before the append (create followed by delete). */
  lemma {:induction false} FindOneAndDeleteAppended<T(!new)>(s: seq<T>, key: T -> Id, x: T)
    requires Count(s, key, key(x)) == 0
    ensures FindOneAndDelete(s + [x], key, key(x)) == s
  {
    var sx := s + [x];
    if |s| == 0 {
      assert sx == [x];
      assert sx[1..] == [];
    } else {
      assert key(s[0]) != key(x) by {
        assert s[0] in s;
      }
      assert sx[0] == s[0];
      assert sx[1..] == s[1..] + [x];
      assert Count(s[1..], key, key(x)) == 0;
      FindOneAndDeleteAppended(s[1..], key, x);
      assert FindOneAndDelete(sx, key, key(x)) == [s[0]] + FindOneAndDelete(s[1..] + [x], key, key(x));
      assert [s[0]] + s[1..] == s;
    }
  }
}
