/**
 * The blog detail page: the reading-time estimate, the delete confirmation
 * dialog and the check that decides whether the viewer wrote the post.
 */
module BlogDetail {
  import opened Wrappers
  import opened Text
  import opened ApiRoutes

  const WordsPerMinute := 200
  const TitleMismatch := "Title does not match. Please try again."

  // ---------------------------------------------------------------- reading time

  /** The number of words a `split(/\s+/)` of the trimmed content yields. */
  function WordsIn(content: string): nat {
    |SplitSpaces(Trim(content))|
  }

  /** `Math.ceil(words / 200)`. */
  function Minutes(words: nat): (m: nat)
    ensures WordsPerMinute * (m - 1) < words <= WordsPerMinute * m
    ensures words >= 1 ==> m >= 1
  {
    (words + WordsPerMinute - 1) / WordsPerMinute
  }

  /** `calculateReadingTime`. */
  function ReadingTime(content: string): string {
    NatToString(Minutes(WordsIn(content))) + " min read"
  }

  /** Starts of white-space runs; `afterSpace` says whether the character before `s` was white space. */
  function SpaceRuns(s: string, afterSpace: bool): nat {
    if s == [] then 0
    else (if IsSpace(s[0]) && !afterSpace then 1 else 0) + SpaceRuns(s[1..], IsSpace(s[0]))
  }

  /** Starts of words, a word being a maximal run of non-white-space characters. */
  function Words(s: string, afterSpace: bool): nat {
    if s == [] then 0
    else (if !IsSpace(s[0]) && afterSpace then 1 else 0) + Words(s[1..], IsSpace(s[0]))
  }

  /** Whether the last character read, or else the one before `s`, is white space. */
  function EndsInSpace(s: string, afterSpace: bool): bool {
    if s == [] then afterSpace else IsSpace(s[|s| - 1])
  }

  lemma {:induction false} SkipSpacesRuns(s: string)
    ensures SpaceRuns(s, true) == SpaceRuns(TrimStart(s), false)
  {
    if s != [] && IsSpace(s[0]) {
      SkipSpacesRuns(s[1..]);
    }
  }

  /** A split on white-space runs yields one piece more than there are runs. */
  lemma {:induction false} SplitSpacesCount(s: string)
    ensures |SplitSpaces(s)| == 1 + SpaceRuns(s, false)
    decreases |s|
  {
    if s != [] {
      if IsSpace(s[0]) {
        var t := TrimStart(s);
        assert t == TrimStart(s[1..]);
        SplitSpacesCount(t);
        SkipSpacesRuns(s[1..]);
      } else {
        SplitSpacesCount(s[1..]);
      }
    }
  }

  /** Word starts and space-run starts alternate. */
  lemma {:induction false} WordsAndRuns(s: string, afterSpace: bool)
    ensures Words(s, afterSpace) + (if EndsInSpace(s, afterSpace) then 1 else 0)
         == SpaceRuns(s, afterSpace) + (if afterSpace then 1 else 0)
  {
    if s != [] {
      WordsAndRuns(s[1..], IsSpace(s[0]));
      assert EndsInSpace(s[1..], IsSpace(s[0])) == EndsInSpace(s, afterSpace);
    }
  }

  lemma {:induction false} WordsConcat(a: string, b: string, afterSpace: bool)
    ensures Words(a + b, afterSpace) == Words(a, afterSpace) + Words(b, EndsInSpace(a, afterSpace))
  {
    if a != [] {
      assert (a + b)[1..] == a[1..] + b;
      WordsConcat(a[1..], b, IsSpace(a[0]));
      assert EndsInSpace(a[1..], IsSpace(a[0])) == EndsInSpace(a, afterSpace);
    } else {
      assert a + b == b;
    }
  }

  lemma {:induction false} BlankHasNoWords(s: string, afterSpace: bool)
    requires Blank(s)
    ensures Words(s, afterSpace) == 0
  {
    if s != [] {
      BlankHasNoWords(s[1..], true);
    }
  }

  lemma {:induction false} LeadingSpacesHaveNoWords(s: string)
    ensures Words(s, true) == Words(TrimStart(s), true)
  {
    if s != [] && IsSpace(s[0]) {
      LeadingSpacesHaveNoWords(s[1..]);
    }
  }

  /** Trimming removes no word. */
  lemma TrimKeepsWords(s: string)
    ensures Words(Trim(s), true) == Words(s, true)
  {
    var t := TrimStart(s);
    var r := TrimEnd(t);
    LeadingSpacesHaveNoWords(s);
    TrimEndShape(t);
    assert t == r + t[|r|..];
    WordsConcat(r, t[|r|..], true);
    BlankHasNoWords(t[|r|..], EndsInSpace(r, true));
  }

  /**
   * The count the page divides by 200 is the number of words of the content,
   * except that empty or white-space-only content counts as one word.
   */
  lemma WordsInCountsWords(content: string)
    ensures WordsIn(content) == if Blank(content) then 1 else Words(content, true)
  {
    var t := Trim(content);
    TrimEmptyIffBlank(content);
    TrimKeepsWords(content);
    TrimShape(content);
    SplitSpacesCount(t);
    if t != [] {
      WordsAndRuns(t, true);
      WordsAndRuns(t, false);
      assert SpaceRuns(t, true) == SpaceRuns(t, false);
    }
  }

  /** Blank content still reads as "1 min read". */
  lemma BlankContentReadsInOneMinute(content: string)
    requires Blank(content)
    ensures ReadingTime(content) == "1 min read"
  {
    BlankIsOneWord(content);
    OneWordOneMinute(content);
    OneMinuteText();
  }

  lemma OneWordOneMinute(content: string)
    requires WordsIn(content) == 1
    ensures ReadingTime(content) == NatToString(1) + " min read"
  {
    assert Minutes(WordsIn(content)) == 1;
  }

  lemma OneMinuteText()
    ensures NatToString(1) + " min read" == "1 min read"
  {
  }

  lemma BlankIsOneWord(content: string)
    requires Blank(content)
    ensures WordsIn(content) == 1
  {
    TrimEmptyIffBlank(content);
    assert SplitSpaces(Trim(content)) == [[]];
  }

  /** 1 to 200 words read in one minute; the 201st word starts a second one. */
  lemma MinuteBoundary()
    ensures Minutes(1) == 1 && Minutes(200) == 1 && Minutes(201) == 2
  {
  }

  // ---------------------------------------------------------------- delete dialog

  datatype DeleteRequest = DeleteRequest(path: string, authenticate: Option<bool>)

  /** The delete confirmation modal of one blog. */
  class DeleteDialog {
    const title: string
    const blogId: string
    var show: bool
    var confirmTitle: string
    var deleteError: string

    constructor (title: string, blogId: string)
      ensures this.title == title && this.blogId == blogId
      ensures !show && confirmTitle == "" && deleteError == ""
    {
      this.title, this.blogId := title, blogId;
      show, confirmTitle, deleteError := false, "", "";
    }

    /** The delete button's `disabled` attribute. */
    predicate DeleteDisabled()
      reads this
    {
      confirmTitle != title
    }

    method Open()
      modifies this
      ensures show && confirmTitle == old(confirmTitle) && deleteError == old(deleteError)
    {
      show := true;
    }

    /** The confirmation input's `onChange`. */
    method Type(value: string)
      modifies this
      ensures confirmTitle == value && show == old(show) && deleteError == old(deleteError)
      ensures DeleteDisabled() <==> value != title
    {
      confirmTitle := value;
    }

    /**
     * `handleDeleteConfirm`: the request goes out exactly when the button
     * would be enabled; otherwise the mismatch message is shown.
     */
    method ConfirmDelete() returns (request: Option<DeleteRequest>)
      modifies this
      ensures request.None? <==> old(DeleteDisabled())
      ensures request.None? ==> deleteError == TitleMismatch
      ensures request.Some? ==>
                request.value == DeleteRequest("/api/blogs/" + Expand(blogId, IdPlaceholder, "/api/blogs/", ""), Some(true))
      ensures request.Some? && '$' !in blogId ==> request.value.path == "/api/blogs/" + blogId
      ensures request.Some? ==> deleteError == old(deleteError)
      ensures show == old(show) && confirmTitle == old(confirmTitle)
    {
      if confirmTitle != title {
        deleteError := TitleMismatch;
        return None;
      }
      ItemPathAppendsId(blogId);
      request := Some(DeleteRequest(ItemPath(blogId), Some(true)));
    }

    /** A failed delete shows the error's message. */
    method DeleteFailed(message: string)
      modifies this
      ensures deleteError == message && show == old(show) && confirmTitle == old(confirmTitle)
    {
      deleteError := message;
    }

    /** The Cancel button: closes the modal and clears the typed title and the error. */
    method Cancel()
      modifies this
      ensures !show && confirmTitle == "" && deleteError == ""
      ensures DeleteDisabled() <==> title != ""
    {
      show, confirmTitle, deleteError := false, "", "";
    }
  }

  // ---------------------------------------------------------------- authorship

  /** The blog's `userId` field as the page receives it. */
  datatype Owner =
    | NoOwner                          // no blog data, or no `userId` field
    | OwnerId(id: string)              // the id as a string
    | OwnerRecord(recordId: Option<string>)  // a populated user object, with or without `_id`

  /** The value `blogData?.userId?._id || blogData?.userId` evaluates to. */
  datatype AuthorRef = Undefined | IdText(text: string) | ObjectValue

  function AuthorIdOf(owner: Owner): (a: AuthorRef)
    ensures a.IdText? ==> owner.OwnerId? || (owner.OwnerRecord? && owner.recordId == Some(a.text) && a.text != "")
    ensures a.Undefined? <==> owner.NoOwner?
  {
    match owner
    case NoOwner => Undefined
    case OwnerId(id) => IdText(id)
    case OwnerRecord(rid) => if rid.Some? && rid.value != "" then IdText(rid.value) else ObjectValue
  }

  /** The parsed session user; `userId` is None when the stored object has no such field. */
  datatype SessionUser = SessionUser(userId: Option<string>)

  /** What `JSON.parse` does with the stored text: a value, or an error with its message. */
  datatype Parsed = Parsed(user: SessionUser) | Threw(message: string)

  /** What the author check sets: `isAuthor`, or the page's `error` from the caught exception. */
  datatype AuthorCheck = SetAuthor(isAuthor: bool) | SetError(message: string)

  /** `userId === authorId` for a string-or-undefined user id. */
  predicate StrictEquals(userId: Option<string>, author: AuthorRef) {
    match author
    case Undefined => userId.None?
    case IdText(t) => userId == Some(t)
    case ObjectValue => false
  }

  /**
   * The author check as written. `stored` is `sessionStorage.getItem("user")`
   * and `parse` is `JSON.parse`; when it throws, the catch puts the exception's
   * message into the page's error and `isAuthor` keeps its value.
   */
  function IsAuthor(stored: Option<string>, parse: string -> Parsed, owner: Owner): (r: AuthorCheck)
    ensures (stored.None? || stored == Some("")) ==> r == SetAuthor(false)
    ensures r.SetError? <==> stored.Some? && stored.value != "" && parse(stored.value).Threw?
    ensures r.SetError? ==> r.message == parse(stored.value).message
    ensures r == SetAuthor(true) ==>
      (stored.Some? && parse(stored.value).Parsed? &&
       var u := parse(stored.value).user;
       (u.userId.None? <==> owner.NoOwner?) && (u.userId.Some? ==> AuthorIdOf(owner) == IdText(u.userId.value)))
    ensures stored.Some? && stored.value != "" && parse(stored.value).Parsed? ==>
      var u := parse(stored.value).user;
      r == SetAuthor((u.userId.None? && owner.NoOwner?) || (u.userId.Some? && AuthorIdOf(owner) == IdText(u.userId.value)))
  {
    if stored.None? || stored.value == "" then SetAuthor(false)
    else match parse(stored.value)
      case Threw(message) => SetError(message)
      case Parsed(user) => SetAuthor(StrictEquals(user.userId, AuthorIdOf(owner)))
  }

  /**
   * Sign-in stores the user as `{name, email}`, with no `userId`. With such a
   * session, the viewer is never the author of a blog that names its owner.
   */
  lemma SignedInAuthorNotRecognised(stored: string, parse: string -> Parsed, id: string)
    requires stored != "" && parse(stored) == Parsed(SessionUser(None))
    ensures IsAuthor(Some(stored), parse, OwnerId(id)) == SetAuthor(false)
  {
  }

  /** ... and is taken for the author of a blog without owner data, as undefined equals undefined. */
  lemma UnownedBlogLooksAuthored(stored: string, parse: string -> Parsed)
    requires stored != "" && parse(stored) == Parsed(SessionUser(None))
    ensures IsAuthor(Some(stored), parse, NoOwner) == SetAuthor(true)
  {
  }

  /** For a session that does carry a user id, the check as written agrees with the intended one. */
  lemma KnownIdAgreesWithIntended(stored: string, parse: string -> Parsed, owner: Owner)
    requires stored != "" && parse(stored).Parsed? && parse(stored).user.userId.Some?
    ensures IsAuthor(Some(stored), parse, owner) == SetAuthor(IsAuthorIntended(parse(stored).user.userId, owner))
  {
  }

  /** The author check as intended: a known user id equal to the blog owner's id. */
  function IsAuthorIntended(userId: Option<string>, owner: Owner): (r: bool)
    ensures r ==> userId.Some? && AuthorIdOf(owner) == IdText(userId.value)
    ensures owner.NoOwner? ==> !r
    ensures userId.Some? && owner == OwnerRecord(userId) && userId.value != "" ==> r
    ensures userId.Some? && owner == OwnerId(userId.value) ==> r
  {
    userId.Some? && StrictEquals(userId, AuthorIdOf(owner))
  }
}
