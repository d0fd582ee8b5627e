/**
 * The editor state the create and edit pages share, and the handlers that
 * change it: choosing a cover image, picking a category, loading a post to
 * edit, removing the cover, and saving.
 */
module BlogEditor {
  import opened Wrappers
  import opened ApiRoutes
  import opened Text

  /** The largest cover image accepted, in bytes: 5 MiB. */
  const MaxImageBytes := 5 * 1024 * 1024
  const CreatePath := "/api/blogs"

  const Morning := "Good morning! Share your thoughts with the world..."
  const Afternoon := "What's on your mind this afternoon?"
  const Evening := "Evening thoughts tend to be the most reflective..."

  /** The categories the menu offers. */
  const Categories := [
    "Technology", "Travel", "Food & Cooking", "Health & Wellness", "Personal Development",
    "Business", "Arts & Culture", "Education", "Science"]

  /** A chosen file: its size and the data URL the file reader produces for it. */
  datatype ImageFile = ImageFile(size: nat, dataUrl: string)

  /** The body of a save request: exactly these four fields. */
  datatype BlogPayload = BlogPayload(title: string, content: string, category: string, image: Option<string>)

  datatype Verb = Post | Put

  datatype SaveRequest = SaveRequest(verb: Verb, path: string, body: BlogPayload, authenticate: Option<bool>)

  /** The blog handed to the edit page by the page that opened it. */
  datatype PassedBlog = PassedBlog(title: string, content: string, category: string, image: Option<string>)

  /** `getPlaceholderText`, given the local hour. */
  function Placeholder(hour: int): (text: string)
    ensures text == Morning <==> hour < 12
    ensures text == Afternoon <==> 12 <= hour < 18
    ensures text == Evening <==> hour >= 18
  {
    if hour < 12 then Morning
    else if hour < 18 then Afternoon
    else Evening
  }

  class Editor {
    var title: string
    var content: string
    var category: string
    var image: Option<string>
    var preview: Option<string>
    var isSubmitting: bool
    var isSaved: bool
    var showCategoryMenu: bool

    constructor ()
      ensures title == "" && content == "" && category == ""
      ensures image.None? && preview.None?
      ensures !isSubmitting && !isSaved && !showCategoryMenu
    {
      title, content, category := "", "", "";
      image, preview := None, None;
      isSubmitting, isSaved, showCategoryMenu := false, false, false;
    }

    /** The `formData` object built from the current state. */
    function Payload(): (p: BlogPayload)
      reads this
      ensures p.title == title && p.content == content && p.category == category && p.image == image
    {
      BlogPayload(title, content, category, image)
    }

    /** The text fields are unchanged by a call. */
    twostate predicate TextUnchanged()
      reads this
    {
      title == old(title) && content == old(content) && category == old(category)
    }

    /**
     * `handleImageChange`. No file changes nothing; a file over 5 MiB is
     * refused and changes nothing; otherwise the image and its preview both
     * become the file's data URL.
     */
    method ChooseImage(file: Option<ImageFile>) returns (accepted: bool)
      modifies this
      ensures accepted <==> file.Some? && file.value.size <= MaxImageBytes
      ensures accepted ==> image == Some(file.value.dataUrl) && preview == image
      ensures !accepted ==> image == old(image) && preview == old(preview)
      ensures TextUnchanged()
      ensures isSubmitting == old(isSubmitting) && isSaved == old(isSaved)
      ensures showCategoryMenu == old(showCategoryMenu)
    {
      if file.None? {
        return false;
      }
      if file.value.size > MaxImageBytes {
        return false;
      }
      preview := Some(file.value.dataUrl);
      image := Some(file.value.dataUrl);
      return true;
    }

    /** The category button: opens or closes the menu. */
    method ToggleCategoryMenu()
      modifies this`showCategoryMenu
      ensures showCategoryMenu == !old(showCategoryMenu)
    {
      showCategoryMenu := !showCategoryMenu;
    }

    /** A menu entry: sets the category and closes the menu. */
    method PickCategory(cat: string)
      modifies this`category, this`showCategoryMenu
      ensures category == cat && !showCategoryMenu
    {
      category := cat;
      showCategoryMenu := false;
    }

    /** The edit page's remove-cover button. */
    method RemoveCover()
      modifies this`image, this`preview
      ensures image.None? && preview.None?
    {
      preview := None;
      image := None;
    }

    /** The edit page's load from the passed blog: the image is taken only when it is truthy. */
    method LoadPassed(data: PassedBlog)
      modifies this
      ensures title == data.title && content == data.content && category == data.category
      ensures Truthy(data.image) ==> image == data.image && preview == data.image
      ensures !Truthy(data.image) ==> image == old(image) && preview == old(preview)
      ensures isSubmitting == old(isSubmitting) && isSaved == old(isSaved)
      ensures showCategoryMenu == old(showCategoryMenu)
    {
      title := data.title;
      content := data.content;
      category := data.category;
      if data.image.Some? && data.image.value != "" {
        image := data.image;
        preview := data.image;
      }
    }

    /**
     * The save shared by `publishPost` and `updatePost`: nothing is sent while
     * the title or the content is empty; otherwise the current payload goes to
     * `path`. `succeeded` is whether the server accepted it.
     */
    method Save(verb: Verb, path: string, succeeded: bool) returns (sent: Option<SaveRequest>)
      modifies this`isSubmitting, this`isSaved
      ensures sent.Some? <==> title != "" && content != ""
      ensures sent.Some? ==> sent.value == SaveRequest(verb, path, Payload(), Some(true)) && !isSubmitting
      ensures sent.None? ==> isSubmitting == old(isSubmitting)
      ensures isSaved == (old(isSaved) || (sent.Some? && succeeded))
    {
      var formData := BlogPayload(title, content, category, image);
      if title == "" || content == "" {
        return None;
      }
      isSubmitting := true;
      sent := Some(SaveRequest(verb, path, formData, Some(true)));
      if succeeded {
        isSaved := true;
      }
      isSubmitting := false;
    }

    /** `publishPost`: a POST to the collection. */
    method Publish(succeeded: bool) returns (sent: Option<SaveRequest>)
      modifies this`isSubmitting, this`isSaved
      ensures sent.Some? <==> title != "" && content != ""
      ensures sent.Some? ==> sent.value == SaveRequest(Post, CreatePath, Payload(), Some(true))
      ensures sent.None? ==> isSubmitting == old(isSubmitting)
      ensures sent.Some? ==> !isSubmitting
      ensures isSaved == (old(isSaved) || (sent.Some? && succeeded))
    {
      sent := Save(Post, CreatePath, succeeded);
    }

    /** `updatePost`: a PUT to the blog's own path. */
    method Update(id: string, succeeded: bool) returns (sent: Option<SaveRequest>)
      modifies this`isSubmitting, this`isSaved
      ensures sent.Some? <==> title != "" && content != ""
      ensures sent.Some? ==>
                sent.value == SaveRequest(Put, "/api/blogs/" + Expand(id, IdPlaceholder, "/api/blogs/", ""), Payload(), Some(true))
      ensures sent.Some? && '$' !in id ==> sent.value.path == "/api/blogs/" + id
      ensures sent.None? ==> isSubmitting == old(isSubmitting)
      ensures sent.Some? ==> !isSubmitting
      ensures isSaved == (old(isSaved) || (sent.Some? && succeeded))
    {
      ItemPathAppendsId(id);
      sent := Save(Put, ItemPath(id), succeeded);
    }
  }
}
