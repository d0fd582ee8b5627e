/** The client's route table entries for a single blog, and how a concrete path is formed from them. */
module ApiRoutes {
  import opened Wrappers
  import opened Text

  /** The path pattern of the update and delete routes; `:id` stands for the blog's id. */
  const ItemPattern := "/api/blogs/:id"
  const IdPlaceholder := ":id"

  /** `path.replace(":id", id)`: the id is a replacement text, so its `$` patterns are expanded. */
  function ItemPath(id: string): string {
    Replace(ItemPattern, IdPlaceholder, id)
  }

  /**
   * The placeholder is the pattern's suffix: the path is the collection path, a
   * slash and the expanded id, which is the id itself when it holds no "$".
   */
  lemma ItemPathAppendsId(id: string)
    ensures ItemPath(id) == "/api/blogs/" + Expand(id, IdPlaceholder, "/api/blogs/", "")
    ensures '$' !in id ==> ItemPath(id) == "/api/blogs/" + id
  {
    assert OccursAt(ItemPattern, IdPlaceholder, 11);
    assert forall j :: 0 <= j < 11 ==> !OccursAt(ItemPattern, IdPlaceholder, j) by {
      forall j | 0 <= j < 11 ensures !OccursAt(ItemPattern, IdPlaceholder, j) {
        assert ItemPattern[j..j + 3][0] == ItemPattern[j] != ':';
      }
    }
    assert IndexOf(ItemPattern, IdPlaceholder) == Some(11);
    assert ItemPattern[..11] == "/api/blogs/" && ItemPattern[14..] == [];
  }

  /**
   * Ids holding replacement patterns do not reach the route they name: "$&"
   * puts the placeholder back, "$'" (the empty rest of the pattern) drops the
   * id, "$`" repeats the collection path and "$$" leaves a single "$".
   */
  lemma DollarIdsExpand()
    ensures ItemPath("$&") == "/api/blogs/" + IdPlaceholder
    ensures ItemPath("$'") == "/api/blogs/"
    ensures ItemPath("$`") == "/api/blogs/" + "/api/blogs/"
    ensures ItemPath("$$") == "/api/blogs/" + "$"
  {
    ExpandedPath('&', IdPlaceholder);
    ExpandedPath('\'', "");
    assert "/api/blogs/" + "" == "/api/blogs/";
    ExpandedPath('`', "/api/blogs/");
    ExpandedPath('$', "$");
  }

  /** An id that is a single two-character pattern is replaced by what the pattern stands for. */
  lemma ExpandedPath(c: char, meaning: string)
    requires c in "$&`'"
    requires meaning == (match c case '$' => "$" case '&' => IdPlaceholder case '`' => "/api/blogs/" case _ => "")
    ensures ItemPath(['$', c]) == "/api/blogs/" + meaning
  {
    var id := ['$', c];
    ItemPathAppendsId(id);
    assert id[2..] == [];
    assert Expand(id, IdPlaceholder, "/api/blogs/", "") == meaning + Expand([], IdPlaceholder, "/api/blogs/", "");
  }
}
