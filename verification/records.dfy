/** The documents of the members service, one datatype per collection, and the
    record store that holds them.  Only the fields the user controller reads or
    writes are kept: ids, owner references, the profile photo and the password.
 */
module Records {

  /** An opaque document id (a Mongo ObjectId, written out as text). */
  type Id = string

  datatype Option<+T> = None | Some(value: T)

  /** A member.  `photo` is the profile image URL (undefined when absent);
      `profile` stands for every other schema field (name, email, phone, ...). */
  datatype User = User(id: Id, photo: Option<string>, password: string, profile: map<string, string>)

  // Collections owned directly by a user through their `user` field.
  datatype Address = Address(id: Id, user: Id)
  datatype Company = Company(id: Id, user: Id)
  datatype Todo = Todo(id: Id, user: Id)
  datatype Album = Album(id: Id, user: Id)
  datatype Post = Post(id: Id, user: Id)

  // The two singleton side-records created with every user: `{ user: new_user._id }`.
  datatype Favorites = Favorites(user: Id)
  datatype Cart = Cart(user: Id)

  // Second-level children: a Photo belongs to an Album, a Comment to a Post.
  datatype Photo = Photo(id: Id, album: Id)
  datatype Comment = Comment(id: Id, post: Id)

  /** The whole document store: one sequence of documents per collection. */
  datatype Store = Store(
    users: seq<User>,
    addresses: seq<Address>,
    companies: seq<Company>,
    todos: seq<Todo>,
    favorites: seq<Favorites>,
    carts: seq<Cart>,
    albums: seq<Album>,
    photos: seq<Photo>,
    posts: seq<Post>,
    comments: seq<Comment>)

  // The fields the store filters on, as named functions so that a filter is
  // always the same function value wherever it is written.
  function UserKey(u: User): Id { u.id }
  function AddressOwner(a: Address): Id { a.user }
  function CompanyOwner(c: Company): Id { c.user }
  function TodoOwner(t: Todo): Id { t.user }
  function FavoritesOwner(f: Favorites): Id { f.user }
  function CartOwner(c: Cart): Id { c.user }
  function AlbumOwner(a: Album): Id { a.user }
  function AlbumKey(a: Album): Id { a.id }
  function PhotoAlbum(p: Photo): Id { p.album }
  function PostOwner(p: Post): Id { p.user }
  function PostKey(p: Post): Id { p.id }
  function CommentPost(c: Comment): Id { c.post }
}
