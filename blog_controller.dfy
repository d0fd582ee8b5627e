/**
 * The blog handlers of the backend: listing with optional category/author
 * equality filters, newest first, and creation by the authenticated user with
 * the author name copied from the user record.
 */
module BlogController {
  import opened Wrappers
  import opened Store
  import opened Http
  import Jwt

  const CategoryKey := "category"
  const AuthorKey := "author"
  const Fetched := "Blogs fetched successfully"
  const FetchFailed := "Error fetching blogs"
  const Created := "Blog created successfully"
  const CreateFailed := "Error creating blog"
  const UserNotFound := "User not found"

  /** The two query parameters the list handler reads, each a single value or absent. */
  datatype Query = Query(category: Option<string>, author: Option<string>)

  /** The body of a create request. */
  datatype BlogInput = BlogInput(title: string, category: string, content: string, image: Option<string>)

  /** The equality filter of the list handler: a key per truthy query value and no other key. */
  method BuildFilter(q: Query) returns (filter: map<string, string>)
    ensures CategoryKey in filter <==> Truthy(q.category)
    ensures AuthorKey in filter <==> Truthy(q.author)
    ensures filter.Keys <= {CategoryKey, AuthorKey}
    ensures CategoryKey in filter ==> filter[CategoryKey] == q.category.value
    ensures AuthorKey in filter ==> filter[AuthorKey] == q.author.value
  {
    filter := map[];
    if Truthy(q.category) {
      filter := filter[CategoryKey := q.category.value];
    }
    if Truthy(q.author) {
      filter := filter[AuthorKey := q.author.value];
    }
  }

  /** A blog satisfies every field of the filter (the two fields are combined with AND). */
  predicate Matches(b: Blog, filter: map<string, string>) {
    && (CategoryKey in filter ==> b.category == filter[CategoryKey])
    && (AuthorKey in filter ==> b.author == filter[AuthorKey])
  }

  /** `Blog.find(filter)`: the matching blogs, in store order. */
  function Select(blogs: seq<Blog>, filter: map<string, string>): (r: seq<Blog>)
    ensures |r| <= |blogs|
    ensures forall b :: multiset(r)[b] == if Matches(b, filter) then multiset(blogs)[b] else 0
    ensures forall b :: b in r <==> b in blogs && Matches(b, filter)
  {
    if blogs == [] then []
    else
      assert blogs == [blogs[0]] + blogs[1..];
      if Matches(blogs[0], filter) then [blogs[0]] + Select(blogs[1..], filter)
      else Select(blogs[1..], filter)
  }

  /** With every blog matching, the selection is the whole collection. */
  lemma {:induction false} SelectAll(blogs: seq<Blog>, filter: map<string, string>)
    requires forall b :: b in blogs ==> Matches(b, filter)
    ensures Select(blogs, filter) == blogs
  {
    if blogs != [] {
      SelectAll(blogs[1..], filter);
    }
  }

  /** `createdAt` never increases along the sequence. */
  predicate NewestFirst(s: seq<Blog>) {
    forall i, j :: 0 <= i < j < |s| ==> s[i].createdAt >= s[j].createdAt
  }

  /** Inserts `b` before the first blog that is not newer than it. */
  function Insert(b: Blog, s: seq<Blog>): seq<Blog> {
    if s == [] || s[0].createdAt <= b.createdAt then [b] + s else [s[0]] + Insert(b, s[1..])
  }

  lemma {:induction false} InsertPermutes(b: Blog, s: seq<Blog>)
    ensures multiset(Insert(b, s)) == multiset(s) + multiset{b}
  {
    if s != [] && s[0].createdAt > b.createdAt {
      InsertPermutes(b, s[1..]);
      assert s == [s[0]] + s[1..];
    }
  }

  lemma {:induction false} InsertKeepsOrder(b: Blog, s: seq<Blog>)
    requires NewestFirst(s)
    ensures NewestFirst(Insert(b, s))
    ensures Insert(b, s)[0] == b || Insert(b, s)[0] == s[0]
  {
    if s != [] && s[0].createdAt > b.createdAt {
      InsertKeepsOrder(b, s[1..]);
      var rest := Insert(b, s[1..]);
      assert s[0].createdAt >= rest[0].createdAt;
      assert Insert(b, s) == [s[0]] + rest;
    }
  }

  /** Inserting the head into the sorted tail gives a sorted permutation of the whole. */
  lemma InsertHead(b: Blog, tail: seq<Blog>, rest: seq<Blog>)
    requires NewestFirst(rest) && multiset(rest) == multiset(tail)
    ensures NewestFirst(Insert(b, rest))
    ensures multiset(Insert(b, rest)) == multiset([b] + tail)
  {
    InsertKeepsOrder(b, rest);
    InsertPermutes(b, rest);
  }

  /** `.sort({ createdAt: -1 })`: the store's ordering, here a stable insertion sort. */
  function SortNewestFirst(s: seq<Blog>): (r: seq<Blog>)
    ensures NewestFirst(r)
    ensures multiset(r) == multiset(s)
  {
    if s == [] then []
    else
      var rest := SortNewestFirst(s[1..]);
      InsertHead(s[0], s[1..], rest);
      assert s == [s[0]] + s[1..];
      Insert(s[0], rest)
  }

  /** The blog satisfies every truthy query value. */
  predicate MatchesQuery(b: Blog, q: Query) {
    && (Truthy(q.category) ==> b.category == q.category.value)
    && (Truthy(q.author) ==> b.author == q.author.value)
  }

  /** `getAllBlogs`: the blogs matching the truthy query values, newest first. */
  method GetAllBlogs(db: Database, q: Query, fault: StoreFault) returns (res: Response)
    ensures fault == FindThrows ==> res == Response(500, Message(FetchFailed))
    ensures fault != FindThrows ==> res.status == 200 && res.body.BlogList? && res.body.message == Fetched
    ensures res.status == 200 ==>
              && NewestFirst(res.body.data)
              && (forall b :: multiset(res.body.data)[b] == if MatchesQuery(b, q) then multiset(db.blogs)[b] else 0)
              && (forall b :: b in res.body.data <==> b in db.blogs && MatchesQuery(b, q))
    ensures res.status == 200 && !Truthy(q.category) && !Truthy(q.author) ==>
              multiset(res.body.data) == multiset(db.blogs)
  {
    var filter := BuildFilter(q);
    if fault == FindThrows {
      return Response(500, Message(FetchFailed));
    }
    var selected := Select(db.blogs, filter);
    var blogs := SortNewestFirst(selected);
    if !Truthy(q.category) && !Truthy(q.author) {
      SelectAll(db.blogs, filter);
    }
    forall b ensures multiset(blogs)[b] == if MatchesQuery(b, q) then multiset(db.blogs)[b] else 0 {
      assert Matches(b, filter) == MatchesQuery(b, q);
    }
    forall b ensures b in blogs <==> b in db.blogs && MatchesQuery(b, q) {
      assert b in blogs <==> b in multiset(blogs);
      assert b in selected <==> b in multiset(selected);
    }
    res := Response(200, BlogList(Fetched, blogs));
  }

  /** `createBlog`: the token's user must exist; the new blog copies that user's name as its author. */
  method CreateBlog(db: Database, input: BlogInput, claims: Jwt.Claims, now: int, fault: StoreFault)
    returns (res: Response)
    requires db.Valid()
    modifies db
    ensures db.Valid() && db.users == old(db.users)
    ensures fault == FindThrows ==> res == Response(500, Message(CreateFailed))
    ensures fault != FindThrows && FindById(db.users, claims.userId).None? ==> res == Response(404, Message(UserNotFound))
    ensures res.status == 201 <==> fault == Healthy && FindById(db.users, claims.userId).Some?
    ensures res.status == 201 ==>
              var blog := Blog(old(db.nextBlogId), input.title, input.category, input.content, input.image,
                               FindById(db.users, claims.userId).value.name, claims.userId, now);
              res.body == BlogCreated(Created, blog) && db.blogs == old(db.blogs) + [blog]
    ensures res.status != 201 ==> db.blogs == old(db.blogs)
    ensures res.status == 500 <==> fault != Healthy && (fault == FindThrows || FindById(db.users, claims.userId).Some?)
  {
    if fault == FindThrows {
      return Response(500, Message(CreateFailed));
    }
    var user := FindById(db.users, claims.userId);
    if user.None? {
      return Response(404, Message(UserNotFound));
    }
    if fault == CreateThrows {
      return Response(500, Message(CreateFailed));
    }
    var blog := Blog(db.nextBlogId, input.title, input.category, input.content, input.image,
                     user.value.name, claims.userId, now);
    db.blogs := db.blogs + [blog];
    db.nextBlogId := db.nextBlogId + 1;
    res := Response(201, BlogCreated(Created, blog));
  }

  /**
   * A blog created by an existing user shows up in the unfiltered list with the
   * given title, category and content and with the creator's stored name as author.
   */
  method CreateThenList(db: Database, input: BlogInput, claims: Jwt.Claims, now: int)
    returns (created: Response, listed: Response)
    requires db.Valid() && FindById(db.users, claims.userId).Some?
    modifies db
    ensures db.Valid() && db.users == old(db.users)
    ensures created.status == 201 && listed.status == 200 && listed.body.BlogList?
    ensures exists b :: b in listed.body.data && b.title == input.title && b.category == input.category &&
                        b.content == input.content && b.author == FindById(db.users, claims.userId).value.name
  {
    created := CreateBlog(db, input, claims, now, Healthy);
    listed := GetAllBlogs(db, Query(None, None), Healthy);
    var blog := created.body.blog;
    assert blog == db.blogs[|db.blogs| - 1];
  }
}
