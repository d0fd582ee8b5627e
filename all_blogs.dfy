/**
 * The blog list page: two multi-selections (categories and authors) that use the
 * sentinel "All" for "no filter", the query string built from them, the count of
 * active filters, and the option lists rebuilt from the fetched blogs.
 */
module AllBlogs {
  import opened Wrappers
  import UrlEncoding

  const All := "All"
  const BlogsPath := "/api/blogs"
  const CategoryParam := "category"
  const AuthorParam := "author"

  const Predefined: seq<string> := [
    "Technology", "Travel", "Food & Cooking", "Health & Wellness", "Personal Development",
    "Business", "Arts & Culture", "Education", "Science"]

  // ---------------------------------------------------------------- selections

  /** `list.filter((x) => x !== v)`. */
  function Without(s: seq<string>, v: string): (r: seq<string>)
    ensures forall x :: x in r <==> x in s && x != v
    ensures |r| <= |s|
  {
    if s == [] then []
    else if s[0] == v then Without(s[1..], v)
    else [s[0]] + Without(s[1..], v)
  }

  lemma {:induction false} WithoutAbsent(s: seq<string>, v: string)
    requires v !in s
    ensures Without(s, v) == s
  {
    if s != [] {
      WithoutAbsent(s[1..], v);
      assert s == [s[0]] + s[1..];
    }
  }

  lemma {:induction false} WithoutAppend(a: seq<string>, b: seq<string>, v: string)
    ensures Without(a + b, v) == Without(a, v) + Without(b, v)
  {
    if a != [] {
      var t := a[1..];
      WithoutAppend(t, b, v);
      var ab := a + b;
      assert ab != [] && ab[0] == a[0] && ab[1..] == t + b;
      if a[0] == v {
        calc {
          Without(ab, v);
          Without(t + b, v);
          Without(t, v) + Without(b, v);
          Without(a, v) + Without(b, v);
        }
      } else {
        calc {
          Without(ab, v);
          [a[0]] + Without(t + b, v);
          [a[0]] + (Without(t, v) + Without(b, v));
          ([a[0]] + Without(t, v)) + Without(b, v);
          Without(a, v) + Without(b, v);
        }
      }
    } else {
      assert a + b == b;
    }
  }

  /** The shape every selection keeps: exactly ["All"], or a non-empty list without "All". */
  predicate WellFormed(s: seq<string>) {
    s == [All] || (s != [] && All !in s)
  }

  /** The selection after `toggleCategory(v)` / `toggleAuthor(v)`. */
  function Toggled(s: seq<string>, v: string): seq<string> {
    if v == All then [All]
    else
      var base := Without(s, All);
      if v in base then
        var rest := Without(base, v);
        if rest == [] then [All] else rest
      else base + [v]
  }

  /**
   * `toggleCategory` and `toggleAuthor`: "All" resets the selection; any other value
   * is removed when selected and appended when not, and "All" is dropped meanwhile.
   */
  method Toggle(selected: seq<string>, value: string) returns (result: seq<string>)
    ensures result == Toggled(selected, value)
    ensures WellFormed(result)
    ensures value == All ==> result == [All]
    ensures value != All ==> (value in result <==> value !in selected)
    ensures value != All && value !in selected ==> result == Without(selected, All) + [value]
    ensures value != All ==> forall x :: x != All && x != value ==> (x in result <==> x in selected)
  {
    if value == All {
      return [All];
    }
    var next := selected;
    next := Without(next, All);
    if value in next {
      next := Without(next, value);
      if |next| == 0 {
        next := [All];
      }
    } else {
      next := next + [value];
    }
    result := next;
  }

  /** Toggling a value twice, starting from a well-formed selection without it, restores the selection. */
  lemma {:induction false} ToggleTwiceRestores(s: seq<string>, v: string)
    requires WellFormed(s) && v != All && v !in s
    ensures Toggled(Toggled(s, v), v) == s
  {
    var base := Without(s, All);
    if s == [All] {
      assert base == [];
      assert Toggled(s, v) == [v];
      assert Without([v], All) == [v];
      assert Without([v], v) == [];
    } else {
      WithoutAbsent(s, All);
      assert Toggled(s, v) == s + [v];
      WithoutAbsent(s + [v], All);
      WithoutAppend(s, [v], v);
      WithoutAbsent(s, v);
      assert Without([v], v) == [];
      assert Without(s + [v], v) == s;
    }
  }

  /** The selection after `removeFilter(type, v)` in that dimension. */
  function AfterRemoval(s: seq<string>, v: string): (r: seq<string>)
    ensures Without(s, v) != [] ==> r == Without(s, v)
    ensures Without(s, v) == [] ==> r == [All]
    ensures WellFormed(s) ==> WellFormed(r)
    ensures r != [All] ==> forall x :: x in r <==> x in s && x != v
    ensures v !in r || v == All
  {
    var rest := Without(s, v);
    if rest == [] then [All] else rest
  }

  /** `totalActiveFilters`. */
  function ActiveCount(categories: seq<string>, authors: seq<string>): (n: nat)
    ensures n == 0 <==> (All in categories || categories == []) && (All in authors || authors == [])
  {
    (if All in categories then 0 else |categories|) + (if All in authors then 0 else |authors|)
  }

  // ---------------------------------------------------------------- the query

  /** Each value of a dimension as one `name=value` parameter, in order. */
  function Tagged(name: string, values: seq<string>): (r: seq<(string, string)>)
    ensures |r| == |values|
    ensures forall i :: 0 <= i < |values| ==> r[i] == (name, values[i])
  {
    seq(|values|, i requires 0 <= i < |values| => (name, values[i]))
  }

  /** The parameters `fetchBlogs` appends: none for a dimension holding "All", else one per value. */
  function QueryParams(categories: seq<string>, authors: seq<string>): seq<(string, string)> {
    (if All in categories then [] else Tagged(CategoryParam, categories)) +
    (if All in authors then [] else Tagged(AuthorParam, authors))
  }

  /** The two `forEach` loops of `fetchBlogs` that fill the `URLSearchParams`. */
  method BuildQuery(categories: seq<string>, authors: seq<string>) returns (params: seq<(string, string)>)
    ensures params == QueryParams(categories, authors)
    ensures |params| == ActiveCount(categories, authors)
  {
    params := [];
    if All !in categories {
      for i := 0 to |categories|
        invariant params == Tagged(CategoryParam, categories[..i])
      {
        params := params + [(CategoryParam, categories[i])];
      }
      assert categories[..|categories|] == categories;
    }
    var before := params;
    if All !in authors {
      for i := 0 to |authors|
        invariant params == before + Tagged(AuthorParam, authors[..i])
      {
        params := params + [(AuthorParam, authors[i])];
      }
      assert authors[..|authors|] == authors;
    }
  }

  /** The endpoint `fetchBlogs` requests: the query string is attached only when it is not empty. */
  function Endpoint(params: seq<(string, string)>): (url: string)
    ensures '?' in url <==> params != []
    ensures params == [] ==> url == BlogsPath
  {
    var query := UrlEncoding.Serialize(params);
    if query != [] then BlogsPath + "?" + query else BlogsPath
  }

  // ---------------------------------------------------------------- option lists

  /** No value occurs twice. */
  predicate Distinct(s: seq<string>) {
    forall i, j :: 0 <= i < j < |s| ==> s[i] != s[j]
  }

  /** `Array.from(new Set(s))`: the values of `s`, each once, in order of first appearance. */
  function Dedup(s: seq<string>): (r: seq<string>)
    ensures Distinct(r)
    ensures forall x :: x in r <==> x in s
  {
    if s == [] then []
    else
      var d := Dedup(s[..|s| - 1]);
      assert forall x :: x in s <==> x in s[..|s| - 1] || x == s[|s| - 1] by {
        assert s == s[..|s| - 1] + [s[|s| - 1]];
      }
      if s[|s| - 1] in d then d else d + [s[|s| - 1]]
  }

  /** The index of the first occurrence of `x`. */
  function FirstIndex(s: seq<string>, x: string): (k: nat)
    requires x in s
    ensures k < |s| && s[k] == x && x !in s[..k]
  {
    if s[0] == x then 0 else 1 + FirstIndex(s[1..], x)
  }

  lemma FirstIndexInPrefix(s: seq<string>, n: nat, x: string)
    requires n <= |s| && x in s[..n]
    ensures FirstIndex(s, x) == FirstIndex(s[..n], x)
  {
  }

  /** The de-duplicated values appear in the order of their first occurrence. */
  lemma {:induction false} DedupKeepsFirstOrder(s: seq<string>)
    ensures forall i, j :: 0 <= i < j < |Dedup(s)| ==> FirstIndex(s, Dedup(s)[i]) < FirstIndex(s, Dedup(s)[j])
  {
    if s != [] {
      var n := |s| - 1;
      var init := s[..n];
      DedupKeepsFirstOrder(init);
      var d := Dedup(init);
      forall x | x in d ensures FirstIndex(s, x) == FirstIndex(init, x) < n {
        FirstIndexInPrefix(s, n, x);
      }
      var r := Dedup(s);
      if s[n] in d {
        assert r == d;
      } else {
        assert r == d + [s[n]];
        assert s[n] !in init;
        assert FirstIndex(s, s[n]) == n;
        forall i, j | 0 <= i < j < |r| ensures FirstIndex(s, r[i]) < FirstIndex(s, r[j]) {
          assert r[i] == d[i] && r[i] in d;
          if j < |d| {
            assert r[j] == d[j];
          }
        }
      }
    }
  }

  /** De-duplicating a list without repetitions leaves it as it is. */
  lemma {:induction false} DedupDistinct(s: seq<string>)
    requires Distinct(s)
    ensures Dedup(s) == s
  {
    if s != [] {
      var n := |s| - 1;
      DedupDistinct(s[..n]);
      assert s[n] !in s[..n];
      assert s == s[..n] + [s[n]];
    }
  }

  /** De-duplication keeps a repetition-free prefix in place. */
  lemma {:induction false} DedupKeepsDistinctPrefix(p: seq<string>, q: seq<string>)
    requires Distinct(p)
    ensures |Dedup(p + q)| >= |p| && Dedup(p + q)[..|p|] == p
  {
    if q == [] {
      assert p + q == p;
      DedupDistinct(p);
    } else {
      var n := |q| - 1;
      DedupKeepsDistinctPrefix(p, q[..n]);
      assert (p + q)[..|p + q| - 1] == p + q[..n];
    }
  }

  /** One fetched blog as the page reads it: its category and the populated owner's name, if any. */
  datatype ListedBlog = ListedBlog(category: string, ownerName: Option<string>)

  function Categories(data: seq<ListedBlog>): (r: seq<string>)
    ensures |r| == |data| && forall i :: 0 <= i < |data| ==> r[i] == data[i].category
  {
    if data == [] then [] else [data[0].category] + Categories(data[1..])
  }

  /** `data.map((blog) => blog.userId?.name).filter(Boolean)`. */
  function OwnerNames(data: seq<ListedBlog>): (r: seq<string>)
    ensures forall x :: x in r <==> x != "" && exists i :: 0 <= i < |data| && data[i].ownerName == Some(x)
  {
    if data == [] then []
    else
      var rest := OwnerNames(data[1..]);
      assert forall i :: 1 <= i < |data| ==> data[i] == data[1..][i - 1];
      match data[0].ownerName
      case Some(n) => if n != "" then [n] + rest else rest
      case None => rest
  }

  /** The position of the first blog whose owner is named `x`. */
  function FirstOwner(data: seq<ListedBlog>, x: string): (k: nat)
    requires exists b :: b in data && b.ownerName == Some(x)
    ensures k < |data| && data[k].ownerName == Some(x)
    ensures forall j :: 0 <= j < k ==> data[j].ownerName != Some(x)
  {
    if data[0].ownerName == Some(x) then 0
    else
      assert exists b :: b in data[1..] && b.ownerName == Some(x) by {
        var b :| b in data && b.ownerName == Some(x);
        assert data == [data[0]] + data[1..];
      }
      1 + FirstOwner(data[1..], x)
  }

  /** The names keep the order of the blogs: a name listed earlier first appears on an earlier blog. */
  lemma {:induction false} OwnerNamesKeepOrder(data: seq<ListedBlog>, x: string, y: string)
    requires x in OwnerNames(data) && y in OwnerNames(data)
    requires FirstIndex(OwnerNames(data), x) < FirstIndex(OwnerNames(data), y)
    ensures FirstOwner(data, x) < FirstOwner(data, y)
  {
    var names := OwnerNames(data);
    var rest := OwnerNames(data[1..]);
    var head := data[0].ownerName;
    if head.Some? && head.value != "" {
      assert names == [head.value] + rest;
      assert names[1..] == rest;
      if x != head.value {
        assert y != head.value;
        OwnerNamesKeepOrder(data[1..], x, y);
      }
    } else {
      assert names == rest;
      OwnerNamesKeepOrder(data[1..], x, y);
    }
  }

  /** The category options: "All", the predefined list, then the new categories of the data. */
  function MergedCategories(data: seq<ListedBlog>): seq<string> {
    Dedup([All] + Predefined + Dedup(Categories(data)))
  }

  /** The author options: "All" followed by the distinct non-empty owner names. */
  function MergedAuthors(data: seq<ListedBlog>): seq<string> {
    [All] + Dedup(OwnerNames(data))
  }

  lemma MergedCategoriesShape(data: seq<ListedBlog>)
    ensures var r := MergedCategories(data);
            && |r| >= 1 + |Predefined| && r[..1 + |Predefined|] == [All] + Predefined
            && Distinct(r)
            && forall x :: x in r <==> x == All || x in Predefined || exists b :: b in data && b.category == x
  {
    var fixed := [All] + Predefined;
    FixedOptionsDistinct();
    DedupKeepsDistinctPrefix(fixed, Dedup(Categories(data)));
    CategoriesMembers(data);
  }

  lemma FixedOptionsDistinct()
    ensures Distinct([All] + Predefined)
  {
  }

  lemma CategoriesMembers(data: seq<ListedBlog>)
    ensures forall x :: x in Categories(data) <==> exists b :: b in data && b.category == x
  {
    forall x ensures x in Categories(data) <==> exists b :: b in data && b.category == x {
      if x in Categories(data) {
        var i :| 0 <= i < |data| && Categories(data)[i] == x;
        assert data[i] in data;
      }
    }
  }

  lemma MergedAuthorsShape(data: seq<ListedBlog>)
    ensures var r := MergedAuthors(data);
            && r[0] == All && Distinct(r[1..])
            && (forall x :: x in r[1..] <==> x != "" && exists b :: b in data && b.ownerName == Some(x))
            && forall i, j :: 1 <= i < j < |r| ==> FirstOwner(data, r[i]) < FirstOwner(data, r[j])
  {
    var r := MergedAuthors(data);
    var names := OwnerNames(data);
    var d := Dedup(names);
    assert r[1..] == d;
    DedupKeepsFirstOrder(names);
    forall i, j | 1 <= i < j < |r| ensures FirstOwner(data, r[i]) < FirstOwner(data, r[j]) {
      assert r[i] == d[i - 1] && r[j] == d[j - 1];
      OwnerNamesKeepOrder(data, d[i - 1], d[j - 1]);
    }
    forall x ensures (exists i :: 0 <= i < |data| && data[i].ownerName == Some(x)) <==>
                     (exists b :: b in data && b.ownerName == Some(x)) {
      if exists b :: b in data && b.ownerName == Some(x) {
        var b :| b in data && b.ownerName == Some(x);
        var i :| 0 <= i < |data| && data[i] == b;
      }
    }
  }

  // ---------------------------------------------------------------- page state

  /** The answer of the list request: the blogs, or a transport failure with its message. */
  datatype FetchReply = Loaded(data: seq<ListedBlog>) | Failed(message: string)

  class BlogsPage {
    var blogs: seq<ListedBlog>
    var categories: seq<string>
    var authors: seq<string>
    var selectedCategories: seq<string>
    var selectedAuthors: seq<string>
    var error: Option<string>

    constructor ()
      ensures blogs == [] && categories == [All] && authors == [All]
      ensures selectedCategories == [All] && selectedAuthors == [All] && error == None
    {
      blogs, categories, authors := [], [All], [All];
      selectedCategories, selectedAuthors := [All], [All];
      error := None;
    }

    /**
     * The state a fetch for the given selections leaves behind: a failure sets the
     * error and keeps the blogs; an answer replaces the blogs and keeps the error;
     * the option lists are rebuilt from the answer exactly when both selections
     * hold "All", and otherwise stay as they were.
     */
    twostate predicate Refetched(reply: FetchReply, categoryFilters: seq<string>, authorFilters: seq<string>)
      reads this`blogs, this`categories, this`authors, this`error
    {
      && (reply.Failed? ==> error == Some(reply.message) && blogs == old(blogs))
      && (reply.Loaded? ==> blogs == reply.data && error == old(error))
      && (reply.Loaded? && All in categoryFilters && All in authorFilters ==>
            categories == MergedCategories(reply.data) && authors == MergedAuthors(reply.data))
      && (!(reply.Loaded? && All in categoryFilters && All in authorFilters) ==>
            categories == old(categories) && authors == old(authors))
    }

    /**
     * `fetchBlogs(categoryFilters, authorFilters)`: request the endpoint built from the
     * selections, keep the answer, and rebuild the option lists only when neither
     * dimension filters.
     */
    method FetchBlogs(categoryFilters: seq<string>, authorFilters: seq<string>, reply: FetchReply)
      returns (endpoint: string)
      modifies this`blogs, this`categories, this`authors, this`error
      ensures endpoint == Endpoint(QueryParams(categoryFilters, authorFilters))
      ensures Refetched(reply, categoryFilters, authorFilters)
    {
      var params := BuildQuery(categoryFilters, authorFilters);
      endpoint := Endpoint(params);
      match reply
      case Failed(message) =>
        error := Some(message);
      case Loaded(data) =>
        blogs := data;
        if All in categoryFilters && All in authorFilters {
          categories := MergedCategories(data);
          authors := MergedAuthors(data);
        }
    }

    /** `removeFilter("category", v)`: drop `v`, fall back to "All" when nothing is left, and refetch. */
    method RemoveCategory(value: string, reply: FetchReply) returns (endpoint: string)
      modifies this
      ensures selectedCategories == AfterRemoval(old(selectedCategories), value)
      ensures selectedAuthors == old(selectedAuthors)
      ensures endpoint == Endpoint(QueryParams(selectedCategories, selectedAuthors))
      ensures Refetched(reply, selectedCategories, selectedAuthors)
    {
      var remaining := Without(selectedCategories, value);
      selectedCategories := if |remaining| > 0 then remaining else [All];
      assert selectedCategories == AfterRemoval(old(selectedCategories), value);
      endpoint := FetchBlogs(selectedCategories, selectedAuthors, reply);
    }

    /** `removeFilter("author", v)`: the same for the author dimension. */
    method RemoveAuthor(value: string, reply: FetchReply) returns (endpoint: string)
      modifies this
      ensures selectedAuthors == AfterRemoval(old(selectedAuthors), value)
      ensures selectedCategories == old(selectedCategories)
      ensures endpoint == Endpoint(QueryParams(selectedCategories, selectedAuthors))
      ensures Refetched(reply, selectedCategories, selectedAuthors)
    {
      var remaining := Without(selectedAuthors, value);
      selectedAuthors := if |remaining| > 0 then remaining else [All];
      assert selectedAuthors == AfterRemoval(old(selectedAuthors), value);
      endpoint := FetchBlogs(selectedCategories, selectedAuthors, reply);
    }

    /** `handleApply`: the modal's selections become the page's and are fetched. */
    method ApplyFilters(tempCategories: seq<string>, tempAuthors: seq<string>, reply: FetchReply)
      returns (endpoint: string)
      modifies this
      ensures selectedCategories == tempCategories && selectedAuthors == tempAuthors
      ensures endpoint == Endpoint(QueryParams(tempCategories, tempAuthors))
      ensures Refetched(reply, tempCategories, tempAuthors)
    {
      selectedCategories := tempCategories;
      selectedAuthors := tempAuthors;
      endpoint := FetchBlogs(selectedCategories, selectedAuthors, reply);
    }

    /** `resetFilters`: both selections back to "All"; the plain endpoint is fetched and the options rebuilt. */
    method ResetFilters(reply: FetchReply) returns (endpoint: string)
      modifies this
      ensures selectedCategories == [All] && selectedAuthors == [All]
      ensures endpoint == BlogsPath
      ensures Refetched(reply, [All], [All])
      ensures reply.Loaded? ==> categories == MergedCategories(reply.data) && authors == MergedAuthors(reply.data)
    {
      selectedCategories, selectedAuthors := [All], [All];
      endpoint := FetchBlogs([All], [All], reply);
    }
  }

  /** The badge count is the number of parameters the next fetch sends. */
  lemma CountMatchesQuery(categories: seq<string>, authors: seq<string>)
    ensures |QueryParams(categories, authors)| == ActiveCount(categories, authors)
  {
  }
}
