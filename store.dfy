/**
 * The document store behind the backend: the Users and Blogs collections.
 * Users are keyed by e-mail; ids are drawn from counters that stand for the
 * database's own id generation.
 */
module Store {
  import opened Wrappers

  type UserId = nat

  /** A user record; `password` holds the hash, never the plain text. */
  datatype User = User(id: UserId, name: string, email: string, password: string)

  datatype Blog = Blog(
    id: nat, title: string, category: string, content: string, image: Option<string>,
    author: string, userId: UserId, createdAt: int)

  /** A store operation that throws: each handler turns it into a 500 answer. */
  datatype StoreFault = Healthy | FindThrows | CreateThrows

  /** No two users share an id. */
  ghost predicate IdsUnique(users: map<string, User>) {
    forall e1, e2 :: e1 in users && e2 in users && users[e1].id == users[e2].id ==> e1 == e2
  }

  /** `User.findById(id)`. */
  function FindById(users: map<string, User>, id: UserId): (r: Option<User>)
    requires IdsUnique(users)
    ensures r.Some? <==> exists e :: e in users && users[e].id == id
    ensures r.Some? ==> r.value.id == id && r.value in users.Values
  {
    if exists e :: e in users && users[e].id == id then
      var e :| e in users && users[e].id == id;
      Some(users[e])
    else None
  }

  class Database {
    var users: map<string, User>
    var blogs: seq<Blog>
    var nextUserId: nat
    var nextBlogId: nat

    ghost predicate Valid()
      reads this
    {
      && (forall e :: e in users ==> users[e].email == e && users[e].id < nextUserId)
      && IdsUnique(users)
      && (forall i :: 0 <= i < |blogs| ==> blogs[i].id < nextBlogId)
      && (forall i, j :: 0 <= i < j < |blogs| ==> blogs[i].id != blogs[j].id)
    }

    constructor ()
      ensures Valid() && users == map[] && blogs == []
    {
      users, blogs := map[], [];
      nextUserId, nextBlogId := 0, 0;
    }
  }
}
