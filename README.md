# Blogify, modelled in Dafny

Blogify is a small blogging application. An Express backend offers sign-up, sign-in and a JWT-protected blog collection (list with filters, create). A React frontend offers the sign-up and sign-in forms, a filterable blog list, a detail page with a delete dialog, and editors for new and existing posts.

This project models the decision logic of both halves:

- **Backend.**
  - The auth handlers work over a user store keyed by e-mail.
  - The bearer-token gate takes the token out of the `Authorization` header (section 2.1 of RFC 6750) and checks its `exp` claim (section 4.1.4 of RFC 7519).
  - The blog handlers build a filter, order the list newest first and copy the author's name into a new post.
- **Frontend.**
  - The request interceptor adds the bearer header.
  - The route guard checks token expiry and removes a bad token.
  - The form validators include an exact model of the e-mail regular expression, as a predicate and as the automaton that decides it.
  - The sign-in status-to-message mapping and its session writes.
  - The filter-selection algebra and the query string of the blog list.
  - The reading time, the delete-by-title dialog and the author check of the detail page.
  - The "time ago" label and the avatar initials of a blog card.
  - The shared editor state: image size rule, category menu, load from a passed post, publish and update.

Modelling choices:

- **Collaborators.** bcrypt, the JWT signer, the database and the browser's `sessionStorage` are explicit collaborators:
  - the hasher and the token codec are records of functions;
  - the store is a class holding a map and a sequence;
  - session storage is a class holding a map.
- **Page state.** Every page whose handlers update state is a class with those fields.
- **Time.** Clock readings are integer parameters.
- **Failures.** A store that throws is a `StoreFault` parameter. A foreign call that can throw (the password hasher, `JSON.parse`) returns an optional or error-carrying result. A failed or missing HTTP answer is a reply datatype.

Modules, one file each:

| Module | Models |
|---|---|
| `Store`, `Http`, `Jwt` | the collections, the answers, the token codec |
| `AuthController` | backend `signup` and `signin` |
| `AuthMiddleware` | backend bearer-token gate |
| `BlogController` | backend `getAllBlogs` and `createBlog` |
| `ApiService`, `Browser` | client interceptor, session storage |
| `ProtectedRoute` | client route guard |
| `AllBlogs`, `UrlEncoding` | blog list page, `URLSearchParams` serialisation |
| `EmailPattern`, `FormRules`, `SignUp`, `SignIn` | form validation and the two auth pages |
| `BlogDetail`, `BlogCard`, `ApiRoutes` | detail page, card helpers, `:id` paths |
| `BlogEditor` | shared state of the create and edit pages |
| `Text` | JavaScript string operations |
| `EndToEnd` | properties that span client and server |

## Model

| member | source | states |
|---|---|---|
| Jwt.Verify | backend/middlewares/authMiddleware.js:9 | verification succeeds exactly when the token decodes and, if an `exp` is present, the time is strictly before it; the result is then the decoded claims |
| Jwt.IssuedTokenLifetime | backend/controllers/authController.js:35-37 | a token issued at t verifies to `{userId, iat t, exp t+7200}` at every time before t+7200 and fails from then on |
| Jwt.Issue | backend/controllers/authController.js:35-37 | no contract of its own: `Jwt.IssuedTokenLifetime` states that the token carries the user id, the issue time and an expiry two hours later, and verifies exactly before that expiry |
| AuthController.Signup | backend/controllers/authController.js:5-22 | a known e-mail gives 400 "User already exists" and changes nothing. A fresh e-mail with a working hash and store gives 201 and adds exactly one user, with the hash (not the password) stored. Every thrown failure gives 500 and adds no user. The blogs are untouched. |
| AuthController.Signin | backend/controllers/authController.js:24-44 | a store failure, or a hash comparison that throws, gives 500 with the sign-in failure message, and nothing else does. An unknown e-mail gives 404. A password the hash comparison refuses gives 400. Otherwise the answer is 200 with a token issued for that user's id and a user object with exactly name and e-mail. The store is only read. |
| AuthController.SignupThenSignin | backend/controllers/authController.js:5-44 | sign-up with a fresh e-mail followed by sign-in with the same password succeeds, and the token verifies to the new user's id with a two-hour expiry |
| AuthMiddleware.ExtractToken | backend/middlewares/authMiddleware.js:4 | a missing header gives no token; a header without "Bearer " is used unchanged; otherwise the token is the header with its first "Bearer " occurrence cut out, and nothing else changed |
| AuthMiddleware.Authenticate | backend/middlewares/authMiddleware.js:3-15 | an empty or missing token gives 401 "No token, access denied"; a token that fails verification gives 401 "Invalid Token"; `next` happens exactly when the token verifies, and then `req.user` holds the verified claims; a rejection leaves `req.user` unchanged |
| AuthMiddleware.BearerRoundTrip | backend/middlewares/authMiddleware.js:4 | a header built as "Bearer " + t yields exactly t |
| AuthMiddleware.BarePrefixIsNoToken | backend/middlewares/authMiddleware.js:4-7 | the header "Bearer " yields the empty token, which the gate rejects as missing |
| Store.FindById | backend/controllers/blogController.js:32 | a user is found exactly when some stored user has that id, and the result is that user |
| BlogController.BuildFilter | backend/controllers/blogController.js:5-12 | the filter has a category key exactly when the category query value is truthy, an author key exactly when the author value is truthy, holds those values and has no other key |
| BlogController.Matches | backend/controllers/blogController.js:14 | no contract of its own: the Mongo equality filter. `BlogController.Select` keeps exactly the blogs it accepts, and `BlogController.GetAllBlogs` shows it accepts exactly what `MatchesQuery` accepts |
| BlogController.MatchesQuery | backend/controllers/blogController.js:5-14 | no contract of its own: a blog satisfies each truthy query value. `BlogController.BuildFilter` and `BlogController.GetAllBlogs` tie it to the filter and the answer |
| BlogController.Select | backend/controllers/blogController.js:14 | every stored blog that matches the filter is kept as often as it is stored, and no other blog is kept |
| BlogController.SelectAll | backend/controllers/blogController.js:6-14 | when every blog matches (the empty filter), selection returns the collection unchanged |
| BlogController.InsertPermutes | backend/controllers/blogController.js:15 | insertion adds exactly the one blog to the multiset |
| BlogController.Insert | backend/controllers/blogController.js:15 | no contract of its own: `BlogController.InsertPermutes` and `BlogController.InsertKeepsOrder` state that it adds exactly one blog and keeps newest-first order |
| BlogController.InsertKeepsOrder | backend/controllers/blogController.js:15 | insertion into a newest-first list keeps it newest first |
| BlogController.SortNewestFirst | backend/controllers/blogController.js:15 | the result is ordered by `createdAt` descending and is a permutation of the input |
| BlogController.GetAllBlogs | backend/controllers/blogController.js:4-25 | a store failure gives 500. Otherwise the answer is 200 with the matching blogs, newest first. Each blog that matches the supplied query values appears as often as it is stored, and no other blog appears. An empty query returns every blog. |
| BlogController.CreateBlog | backend/controllers/blogController.js:27-53 | a token user id not in the store gives 404 and no blog. Success gives 201 and appends one blog, with the body's fields, the stored user's name as author and the token's user id. Failures give 500 and no blog. Users are untouched. |
| BlogController.CreateThenList | backend/controllers/blogController.js:4-53 | a blog created by an existing user appears in the unfiltered list, with its author being the creator's stored name |
| ApiService.InterceptRequest | frontend/src/services/ApiService.jsx:10-19 | the headers gain `Authorization: Bearer <token>` exactly when `authenticate` is strictly true and a non-empty token is stored; nothing else in the config changes |
| ApiService.AddsBearer | frontend/src/services/ApiService.jsx:13 | no contract of its own: the condition `config.authenticate === true && token`. `ApiService.InterceptRequest` sets the header exactly when it holds |
| ApiService.Unwrap | frontend/src/services/ApiService.jsx:21-24 | no contract of its own: callers receive `response.data`. `EndToEnd.Deliver` states what a caller then sees |
| Browser.SessionStorage.GetItem | frontend/src/utils/ProtectedRoute.jsx:5 | an item is returned exactly when the key is stored, and it is the stored value |
| Browser.SessionStorage.SetItem | frontend/src/pages/SignIn.jsx:82-83 | the key maps to the value and every other item is kept |
| Browser.SessionStorage.RemoveItem | frontend/src/utils/ProtectedRoute.jsx:17 | the key is gone and every other item is kept |
| ProtectedRoute.Decide | frontend/src/utils/ProtectedRoute.jsx:5-26 | the children render exactly when a non-empty token is stored, decodes, and is not expired; every other case redirects to "/" |
| ProtectedRoute.Expired | frontend/src/utils/ProtectedRoute.jsx:13-15 | no contract of its own: `decoded.exp && decoded.exp < Date.now() / 1000`. `ProtectedRoute.ExpiryIsStrict` and `ProtectedRoute.NoExpiryAlwaysAccepted` state its boundary and its missing-`exp` case |
| ProtectedRoute.Guard | frontend/src/utils/ProtectedRoute.jsx:4-27 | returns the decision above. The stored token is removed exactly when it was present but undecodable or expired. With no token, or on the accept path, storage is unchanged. |
| ProtectedRoute.ExpiryIsStrict | frontend/src/utils/ProtectedRoute.jsx:15 | a token whose `exp` equals the current time is still accepted |
| ProtectedRoute.NoExpiryAlwaysAccepted | frontend/src/utils/ProtectedRoute.jsx:15-21 | a decodable token without `exp` is accepted at every time |
| Text.TrimStart | frontend/src/pages/SignUp.jsx:51 | the result is never longer than the input |
| Text.TrimStartShape | frontend/src/pages/SignUp.jsx:51 | `trimStart` removes exactly the leading white space: what is left is a suffix of the input whose removed prefix is blank and which does not start with white space |
| Text.TrimEnd | frontend/src/pages/SignUp.jsx:51 | the result is never longer than the input |
| Text.TrimEndShape | frontend/src/pages/SignUp.jsx:51 | `trimEnd` removes exactly the trailing white space: what is left is a prefix of the input whose removed suffix is blank and which does not end with white space |
| Text.TrimShape | frontend/src/pages/SignUp.jsx:51 | `trim` keeps the infix between the blank leading and trailing runs; the result neither starts nor ends with white space |
| Text.Trim | frontend/src/pages/SignUp.jsx:51 | no contract of its own: `Text.TrimShape` states that it keeps the infix between the blank runs, and `Text.TrimEmptyIffBlank` that it is empty exactly for blank text |
| Text.TrimEmptyIffBlank | frontend/src/pages/SignUp.jsx:51 | trimming gives "" exactly when the text is empty or all white space |
| Text.IndexFrom | backend/middlewares/authMiddleware.js:4 | the result is the first occurrence at or after the start, or none exists there |
| Text.IndexOf | backend/middlewares/authMiddleware.js:4 | the result is the first occurrence of the pattern, or none exists |
| Text.ReplaceFirst | backend/middlewares/authMiddleware.js:4 | the splice under `replace`: without an occurrence the text is unchanged; otherwise only the first occurrence gives way to the given text |
| Text.Expand | frontend/src/pages/EditBlog.jsx:179 | the replacement text of `replace` with its `$` patterns expanded: "$$", "$&", "$`" and "$'" become "$", the match, the text before and the text after; a text without "$" comes out unchanged |
| Text.Replace | frontend/src/pages/EditBlog.jsx:179 | `replace` with a string pattern: without an occurrence the text is unchanged; otherwise the first occurrence gives way to the expanded replacement and the rest is kept; with no "$" in the replacement it is the plain first-occurrence replacement |
| Text.ReplaceLeadingPrefix | backend/middlewares/authMiddleware.js:4 | removing a pattern from pattern + t gives t |
| Text.NatToString | frontend/src/components/BlogCard.jsx:14 | a non-empty string of decimal digits without a leading zero, unless the number is 0 |
| Text.SplitOn | frontend/src/components/BlogCard.jsx:20 | at least one part, and no part holds the separator |
| Text.SplitJoin | frontend/src/components/BlogCard.jsx:20 | joining the parts with the separator gives back the text |
| Text.SplitSpaces | frontend/src/components/BlogDetail.jsx:87 | a split on white-space runs yields at least one part |
| Text.Utf16Length | frontend/src/pages/SignUp.jsx:65 | `length` counts UTF-16 code units: between one and two per character |
| UrlEncoding.Utf8 | frontend/src/pages/AllBlogs.jsx:57 | one to four bytes, one exactly for ASCII, with continuation bytes above 0x7F |
| UrlEncoding.HexDigit | frontend/src/pages/AllBlogs.jsx:57 | a hex digit is an unreserved character |
| UrlEncoding.EncodeByte | frontend/src/pages/AllBlogs.jsx:57 | a byte becomes one character or a three-character %-escape, using only unreserved characters, '+' and '%' |
| UrlEncoding.EncodeBytes | frontend/src/pages/AllBlogs.jsx:57 | encoded bytes use only unreserved characters, '+' and '%' |
| UrlEncoding.EncodeComponent | frontend/src/pages/AllBlogs.jsx:57 | an encoded name or value uses only unreserved characters, '+' and '%' |
| UrlEncoding.ComponentHasNoSeparator | frontend/src/pages/AllBlogs.jsx:57 | an encoded component holds no '&' and no '=' |
| UrlEncoding.ComponentHasNoQuestionMark | frontend/src/pages/AllBlogs.jsx:57-60 | an encoded component holds no '?' |
| UrlEncoding.Serialize | frontend/src/pages/AllBlogs.jsx:57-60 | the query string is empty exactly when there are no parameters, and holds no '?' |
| UrlEncoding.SerializeSplits | frontend/src/pages/AllBlogs.jsx:40-57 | splitting the query string on '&' and each piece on '=' gives back every parameter's encoded name and value, in order |
| UrlEncoding.PairSplits | frontend/src/pages/AllBlogs.jsx:45 | one encoded pair splits on '=' into its name and value |
| UrlEncoding.NoSeparatorSplitsWhole | frontend/src/pages/AllBlogs.jsx:57 | a text without the separator splits into itself |
| UrlEncoding.SplitAround | frontend/src/pages/AllBlogs.jsx:57 | a separator-free head followed by the separator splits off as the first part |
| AllBlogs.Without | frontend/src/pages/AllBlogs.jsx:153 | the filter keeps exactly the elements different from the value |
| AllBlogs.WithoutAbsent | frontend/src/pages/AllBlogs.jsx:153 | filtering out an absent value changes nothing |
| AllBlogs.WithoutAppend | frontend/src/pages/AllBlogs.jsx:153 | filtering distributes over concatenation |
| AllBlogs.Toggle | frontend/src/pages/AllBlogs.jsx:144-168 | toggling "All" gives ["All"]. Otherwise the value is selected afterwards exactly when it was not before, an unselected value is appended after dropping "All", and every other value keeps its membership. The result is ["All"] or a non-empty list without "All". |
| AllBlogs.Toggled | frontend/src/pages/AllBlogs.jsx:144-168 | no contract of its own: the selection after a toggle. `AllBlogs.Toggle` states its cases and `AllBlogs.ToggleTwiceRestores` its inverse |
| AllBlogs.ToggleTwiceRestores | frontend/src/pages/AllBlogs.jsx:150-167 | toggling an absent value twice, starting from a well-formed selection, restores the selection |
| AllBlogs.AfterRemoval | frontend/src/pages/AllBlogs.jsx:122-123 | the result is the selection without the value when anything remains, and ["All"] otherwise; the removed value is gone (or it was "All"); well-formedness is kept |
| AllBlogs.ActiveCount | frontend/src/pages/AllBlogs.jsx:383-385 | the badge shows zero exactly when each dimension holds "All" or is empty |
| AllBlogs.Tagged | frontend/src/pages/AllBlogs.jsx:44-46 | one `(name, value)` pair per selected value, in order |
| AllBlogs.BuildQuery | frontend/src/pages/AllBlogs.jsx:40-54 | a dimension holding "All" adds no parameters; otherwise one parameter per selected value in order; the number of parameters is the badge count |
| AllBlogs.QueryParams | frontend/src/pages/AllBlogs.jsx:40-54 | no contract of its own: the query parameters in order. `AllBlogs.BuildQuery` shows the loops produce it and `AllBlogs.CountMatchesQuery` that its length is the badge count |
| AllBlogs.Endpoint | frontend/src/pages/AllBlogs.jsx:56-60 | the endpoint has a '?' exactly when there is a parameter, and is the plain path otherwise |
| AllBlogs.Dedup | frontend/src/pages/AllBlogs.jsx:74-81 | the result has no duplicates and holds exactly the input's elements |
| AllBlogs.FirstIndex | frontend/src/pages/AllBlogs.jsx:74-81 | the first position holding the element |
| AllBlogs.FirstIndexInPrefix | frontend/src/pages/AllBlogs.jsx:74-81 | an element's first position is the same in any prefix that holds it |
| AllBlogs.DedupKeepsFirstOrder | frontend/src/pages/AllBlogs.jsx:74-81 | the distinct elements appear in the order of their first appearance |
| AllBlogs.DedupDistinct | frontend/src/pages/AllBlogs.jsx:74-81 | a list without duplicates is kept as it is |
| AllBlogs.DedupKeepsDistinctPrefix | frontend/src/pages/AllBlogs.jsx:79-81 | a duplicate-free head survives de-duplication unchanged in front |
| AllBlogs.Categories | frontend/src/pages/AllBlogs.jsx:75 | the categories of the fetched blogs, one per blog, in order |
| AllBlogs.OwnerNames | frontend/src/pages/AllBlogs.jsx:86 | exactly the non-empty owner names of the fetched blogs, in the order of the blogs (`AllBlogs.OwnerNamesKeepOrder`) |
| AllBlogs.OwnerNamesKeepOrder | frontend/src/pages/AllBlogs.jsx:86 | the names keep the order of the blogs: a name that first appears earlier in the list first appears on an earlier blog |
| AllBlogs.FirstOwner | frontend/src/pages/AllBlogs.jsx:84-87 | the index of the first blog whose owner has the name: that blog has it and no earlier one does |
| AllBlogs.MergedCategoriesShape | frontend/src/pages/AllBlogs.jsx:72-82 | the category options are "All", then the predefined list, then the new data categories, with no duplicates and nothing else |
| AllBlogs.MergedCategories | frontend/src/pages/AllBlogs.jsx:72-82 | no contract of its own: `AllBlogs.MergedCategoriesShape` states its prefix, distinctness and members |
| AllBlogs.MergedAuthorsShape | frontend/src/pages/AllBlogs.jsx:84-88 | the author options are "All" followed by the distinct non-empty owner names, and nothing else, in the order in which the names first appear on the blogs |
| AllBlogs.MergedAuthors | frontend/src/pages/AllBlogs.jsx:84-88 | no contract of its own: `AllBlogs.MergedAuthorsShape` states its head, distinctness, members and order |
| AllBlogs.BlogsPage.FetchBlogs | frontend/src/pages/AllBlogs.jsx:32-98 | the request goes to the endpoint built from the selections. A failure stores its message and keeps the blogs. A success stores the blogs and keeps the error. The option lists are rebuilt from the answer exactly when it is a success and both dimensions hold "All"; otherwise they are kept. |
| AllBlogs.BlogsPage.RemoveCategory | frontend/src/pages/AllBlogs.jsx:120-127 | the category selection loses the value (falling back to ["All"]), the author selection is untouched. The new selections are fetched, leaving blogs, error and option lists as a fetch of them does. |
| AllBlogs.BlogsPage.RemoveAuthor | frontend/src/pages/AllBlogs.jsx:128-132 | the author selection loses the value (falling back to ["All"]), the category selection is untouched. The new selections are fetched, leaving blogs, error and option lists as a fetch of them does. |
| AllBlogs.BlogsPage.ApplyFilters | frontend/src/pages/AllBlogs.jsx:197-202 | the modal's selections become the page's and exactly they are fetched, leaving blogs, error and option lists as a fetch of them does |
| AllBlogs.BlogsPage.ResetFilters | frontend/src/pages/AllBlogs.jsx:112-117 | both selections become ["All"] and the plain path is fetched. On success the blogs are replaced and the option lists rebuilt; on failure the error is set and everything else is kept. |
| AllBlogs.CountMatchesQuery | frontend/src/pages/AllBlogs.jsx:383-385 | the badge count equals the number of query parameters the next fetch sends |
| EmailPattern.SplitAtUnique | frontend/src/pages/SignUp.jsx:58 | a match has only one possible '@' position |
| EmailPattern.FirstAt | frontend/src/pages/SignUp.jsx:58 | the position of the first '@', or the length when there is none |
| EmailPattern.SplitAtIsFirstAt | frontend/src/pages/SignUp.jsx:58 | the '@' of a match is the first '@' |
| EmailPattern.DomainStep | frontend/src/pages/SignUp.jsx:58 | the automaton's domain states follow one more character of the domain |
| EmailPattern.StepMatches | frontend/src/pages/SignUp.jsx:58 | one step of the automaton moves from the state expected for a prefix to the state expected for the prefix extended by one character |
| EmailPattern.StepFromStart | frontend/src/pages/SignUp.jsx:58 | a first character that is plain starts the local part; any other first character rejects |
| EmailPattern.StepFromLocal | frontend/src/pages/SignUp.jsx:58 | after a local part, '@' starts the domain, another plain character extends the local part, and anything else rejects |
| EmailPattern.StepFromSplit | frontend/src/pages/SignUp.jsx:58 | after the '@', the next character moves the domain state as the automaton does |
| EmailPattern.ExtendedDomain | frontend/src/pages/SignUp.jsx:58 | after the '@', a plain character leads to the state of the domain extended by it |
| EmailPattern.SplitExtends | frontend/src/pages/SignUp.jsx:58 | a plain character appended after the '@' keeps that '@' as the first and only one and extends the domain |
| EmailPattern.SplitBroken | frontend/src/pages/SignUp.jsx:58 | white space or a second '@' after the '@' rejects for good |
| EmailPattern.StepFromDead | frontend/src/pages/SignUp.jsx:58 | a text that is already rejected stays rejected whatever follows |
| EmailPattern.SplitAtShrinks | frontend/src/pages/SignUp.jsx:58 | an '@' position valid for a longer text and before its last character is already valid, and the first '@', for the shorter text |
| EmailPattern.SplitAtLast | frontend/src/pages/SignUp.jsx:58 | a text ending in its only '@' has plain characters before it |
| EmailPattern.RunFromExpected | frontend/src/pages/SignUp.jsx:58 | running the automaton over a text ends in the state expected for the whole text |
| EmailPattern.RunToMatches | frontend/src/pages/SignUp.jsx:58 | `IsEmail`, the automaton, accepts exactly the texts of the form local "@" domain, where the domain holds a '.' with text on both sides and no part holds white space or '@' |
| EmailPattern.IsEmail | frontend/src/pages/SignUp.jsx:58 | no contract of its own: the automaton run. `EmailPattern.RunToMatches` states it accepts exactly what `EmailPattern.Matches` describes |
| EmailPattern.Matches | frontend/src/pages/SignIn.jsx:50 | no contract of its own: the reference reading of `/^[^\s@]+@[^\s@]+\.[^\s@]+$/`, which `EmailPattern.RunToMatches` ties to the automaton |
| EmailPattern.MatchReachesAccept | frontend/src/pages/SignUp.jsx:58 | a matching text drives the automaton to its accepting state |
| EmailPattern.AcceptIsMatch | frontend/src/pages/SignUp.jsx:58 | a text that drives the automaton to its accepting state matches |
| EmailPattern.SurroundingSpaceRejected | frontend/src/pages/SignUp.jsx:56-58 | the pattern is tested on the untrimmed text, so leading or trailing white space makes an e-mail invalid |
| EmailPattern.OneAtSign | frontend/src/pages/SignUp.jsx:58 | a valid e-mail holds exactly one '@' |
| FormRules.EmailRules | frontend/src/pages/SignUp.jsx:56-60 | the e-mail error is absent exactly when the pattern matches; it is "Email is required" exactly when the text is blank, and "Please enter a valid email" otherwise |
| FormRules.EmailError | frontend/src/pages/SignIn.jsx:47-52 | no contract of its own: `FormRules.EmailRules` states when each message appears |
| FormRules.MatchIsNotBlank | frontend/src/pages/SignUp.jsx:56-60 | a matching e-mail is never blank, so the two e-mail errors never both apply |
| FormRules.Shown | frontend/src/pages/SignUp.jsx:83-84 | the stored error object has the same keys as the validation result, each holding its message |
| SignUp.SignupForm.With | frontend/src/pages/SignUp.jsx:32-35 | the named field takes the value and every other field keeps its own |
| SignUp.PasswordError | frontend/src/pages/SignUp.jsx:63-67 | no error exactly when the password is at least 8 UTF-16 code units long; "Password is required" exactly when it is empty; otherwise the length message |
| SignUp.FieldRules | frontend/src/pages/SignUp.jsx:51-72 | the name error appears exactly for blank names. The e-mail error is absent exactly for matching addresses. The password error is absent exactly at 8 or more code units. The mismatch error appears exactly when the two passwords differ. |
| SignUp.FieldError | frontend/src/pages/SignUp.jsx:52-72 | no contract of its own: `SignUp.FieldRules` states each field's rule |
| SignUp.Collect | frontend/src/pages/SignUp.jsx:47-75 | the error object holds a key exactly for each field that has an error, with that error, and no server key |
| SignUp.ErrorsByField | frontend/src/pages/SignUp.jsx:47-75 | each field has at most one error: the object's entry for a field is that field's error |
| SignUp.Errors | frontend/src/pages/SignUp.jsx:48-75 | no contract of its own: `SignUp.ErrorsByField` and `SignUp.ErrorsEmptyIffAcceptable` state its keys and when it is empty; `SignUp.ValidateForm` computes it |
| SignUp.ErrorsEmptyIffAcceptable | frontend/src/pages/SignUp.jsx:47-75 | the error object is empty exactly when every check passes |
| SignUp.MismatchIndependent | frontend/src/pages/SignUp.jsx:70-72 | the mismatch error depends on the two password fields alone |
| SignUp.ValidateForm | frontend/src/pages/SignUp.jsx:47-75 | the field-by-field fill produces exactly the error object above |
| SignUp.SignUpPage.HandleChange | frontend/src/pages/SignUp.jsx:30-44 | only the named field changes, and only that field's shown error is cleared |
| SignUp.SignUpPage.HandleSubmit | frontend/src/pages/SignUp.jsx:78-103 | a request is sent exactly when validation returns an empty error object (`SignUp.ErrorsEmptyIffAcceptable` says when that is), and it carries no `authenticate` option. Otherwise the errors are stored and nothing else changes. A failed request shows the network message. |
| SignIn.SigninForm.With | frontend/src/pages/SignIn.jsx:29-32 | the named field takes the value and the other keeps its own |
| SignIn.FieldRules | frontend/src/pages/SignIn.jsx:47-57 | the e-mail error is absent exactly for a matching address and otherwise is the required or the invalid message as the text is blank or not; the password error is absent exactly when a password was typed |
| SignIn.FieldError | frontend/src/pages/SignIn.jsx:48-57 | no contract of its own: `SignIn.FieldRules` states each field's rule |
| SignIn.Collect | frontend/src/pages/SignIn.jsx:44-60 | the error object holds a key exactly for each field that has an error, with that error, and no server key |
| SignIn.ErrorsEmptyIffAcceptable | frontend/src/pages/SignIn.jsx:44-60 | no errors exactly when the address matches and a password was typed |
| SignIn.Errors | frontend/src/pages/SignIn.jsx:45-60 | no contract of its own: `SignIn.ErrorsEmptyIffAcceptable` states when it is empty; `SignIn.ValidateForm` computes it |
| SignIn.ValidateForm | frontend/src/pages/SignIn.jsx:44-60 | the field-by-field fill produces exactly the error object above |
| SignIn.FailureMessage | frontend/src/pages/SignIn.jsx:87-95 | 404 shows the user-not-found message and 400 the invalid-password message, in both directions; any other status, or no response, shows the network message |
| SignIn.SignInPage.HandleChange | frontend/src/pages/SignIn.jsx:27-41 | only the named field changes, and only that field's shown error is cleared |
| SignIn.SignInPage.HandleSubmit | frontend/src/pages/SignIn.jsx:63-103 | a request is sent exactly when validation returns an empty error object (`SignIn.ErrorsEmptyIffAcceptable` says when that is); otherwise the errors are stored and nothing else changes. On success the token and the serialised user are stored under "token" and "user". On failure storage is untouched and the server error is the status message. |
| SignIn.SameEmailRuleAsSignUp | frontend/src/pages/SignIn.jsx:48-52 | the sign-in e-mail error is the sign-up e-mail error for every address |
| SignIn.NoLengthRule | frontend/src/pages/SignIn.jsx:55-57 | a one-character password passes sign-in validation but fails sign-up validation |
| BlogCard.DayDiff | frontend/src/components/BlogCard.jsx:8-11 | the whole number of days in the absolute distance: floor(\|now − post\| / 86 400 000) |
| BlogCard.TimeAgo | frontend/src/components/BlogCard.jsx:7-15 | "Today" exactly under one day, "Yesterday" exactly from one to two days, otherwise "n days ago" with n the day difference |
| BlogCard.TimeAgoSymmetric | frontend/src/components/BlogCard.jsx:10 | a post d ms in the future is labelled like one d ms in the past |
| BlogCard.FirstChars | frontend/src/components/BlogCard.jsx:18-23 | at most one character per part |
| BlogCard.FirstCharsOfSplit | frontend/src/components/BlogCard.jsx:18-23 | the first characters of the space-separated parts are the characters that start a word |
| BlogCard.InitialsAreWordStarts | frontend/src/components/BlogCard.jsx:18-23 | the initials are the first characters of the words of the name, in order |
| BlogCard.Initials | frontend/src/components/BlogCard.jsx:18-23 | no contract of its own: `BlogCard.InitialsAreWordStarts`, `BlogCard.InitialsLength` and `BlogCard.SingleWordInitial` state what it gives |
| BlogCard.InitialsLength | frontend/src/components/BlogCard.jsx:19-22 | empty parts contribute nothing: the initials' length is the number of non-empty parts |
| BlogCard.SingleWordInitial | frontend/src/components/BlogCard.jsx:18-23 | a name without spaces yields just its first character |
| BlogCard.NoSpaceNoWordStart | frontend/src/components/BlogCard.jsx:18-23 | inside a word no further word starts |
| ApiRoutes.ItemPathAppendsId | frontend/src/utils/ApiRoutes.jsx:18-25 | replacing ":id" in the item route gives "/api/blogs/" followed by the id with its `$` patterns expanded, which is the id itself when it holds no "$" |
| ApiRoutes.ItemPath | frontend/src/pages/EditBlog.jsx:179 | no contract of its own: `ApiRoutes.ItemPathAppendsId` and `ApiRoutes.DollarIdsExpand` state the path it gives |
| ApiRoutes.DollarIdsExpand | frontend/src/components/BlogDetail.jsx:67 | ids holding "$&", "$'", "$`" or "$$" give the placeholder back, drop the id, repeat the collection path, or leave one "$" |
| ApiRoutes.ExpandedPath | frontend/src/components/BlogDetail.jsx:67 | an id that is one two-character pattern is replaced by what the pattern stands for |
| BlogDetail.Minutes | frontend/src/components/BlogDetail.jsx:88 | the ceiling of words / 200: the least m with words ≤ 200·m |
| BlogDetail.SkipSpacesRuns | frontend/src/components/BlogDetail.jsx:87 | leading white space opens no extra run |
| BlogDetail.SplitSpacesCount | frontend/src/components/BlogDetail.jsx:87 | `split(/\s+/)` yields one part more than there are white-space runs |
| BlogDetail.WordsAndRuns | frontend/src/components/BlogDetail.jsx:87 | words and white-space runs alternate |
| BlogDetail.WordsConcat | frontend/src/components/BlogDetail.jsx:87 | word counts add up over concatenation |
| BlogDetail.BlankHasNoWords | frontend/src/components/BlogDetail.jsx:87 | blank text has no word |
| BlogDetail.LeadingSpacesHaveNoWords | frontend/src/components/BlogDetail.jsx:87 | leading white space holds no word |
| BlogDetail.TrimKeepsWords | frontend/src/components/BlogDetail.jsx:87 | trimming removes no word |
| BlogDetail.WordsInCountsWords | frontend/src/components/BlogDetail.jsx:87 | the count divided by 200 is the number of words, except that blank content counts as one word |
| BlogDetail.WordsIn | frontend/src/components/BlogDetail.jsx:87 | no contract of its own: `BlogDetail.WordsInCountsWords` states that it is the word count, or 1 for blank content |
| BlogDetail.BlankContentReadsInOneMinute | frontend/src/components/BlogDetail.jsx:85-90 | empty or white-space-only content reads "1 min read" |
| BlogDetail.ReadingTime | frontend/src/components/BlogDetail.jsx:85-90 | no contract of its own: `BlogDetail.BlankContentReadsInOneMinute`, `BlogDetail.OneMinuteText` and `BlogDetail.MinuteBoundary` state the label it gives |
| BlogDetail.BlankIsOneWord | frontend/src/components/BlogDetail.jsx:87 | blank content counts as one word |
| BlogDetail.OneWordOneMinute | frontend/src/components/BlogDetail.jsx:88-89 | one word reads in one minute |
| BlogDetail.OneMinuteText | frontend/src/components/BlogDetail.jsx:89 | one minute is written "1 min read" |
| BlogDetail.MinuteBoundary | frontend/src/components/BlogDetail.jsx:88 | 1 and 200 words read in one minute, 201 in two |
| BlogDetail.DeleteDialog.Open | frontend/src/components/BlogDetail.jsx:265 | the dialog shows and keeps the typed title and error |
| BlogDetail.DeleteDialog.Type | frontend/src/components/BlogDetail.jsx:325 | the typed title changes; the delete button is disabled exactly when it differs from the blog title |
| BlogDetail.DeleteDialog.ConfirmDelete | frontend/src/components/BlogDetail.jsx:58-69 | a request goes out exactly when the typed title equals the blog title (the button's enabled state), to "/api/blogs/" followed by the id with its `$` patterns expanded (the id itself when it holds no "$"), with authentication. Otherwise the mismatch message is set. |
| BlogDetail.DeleteDialog.DeleteFailed | frontend/src/components/BlogDetail.jsx:72-75 | a failed delete shows its message |
| BlogDetail.DeleteDialog.Cancel | frontend/src/components/BlogDetail.jsx:334-338 | the dialog closes and the typed title and error become empty |
| BlogDetail.AuthorIdOf | frontend/src/components/BlogDetail.jsx:35 | the owner id is the populated record's non-empty `_id`, else the raw `userId`; it is undefined exactly when the blog names no owner |
| BlogDetail.IsAuthor | frontend/src/components/BlogDetail.jsx:27-44 | no stored user gives false. Exactly when parsing the stored user throws, the page error is set to the exception's message and the flag is left as it was. Otherwise the flag is set to whether the session `userId` strictly equals the owner id, both undefined included, in both directions. |
| BlogDetail.SignedInAuthorNotRecognised | frontend/src/components/BlogDetail.jsx:28-41 | with the `{name, email}` object sign-in stores, the viewer is never the author of a blog with an owner |
| BlogDetail.UnownedBlogLooksAuthored | frontend/src/components/BlogDetail.jsx:28-41 | with that object, a blog without owner data is taken as the viewer's own |
| BlogDetail.IsAuthorIntended | frontend/src/components/BlogDetail.jsx:28-41 | the viewer is the author only when a known user id equals the owner id, and is the author when the owner is that id or a record with that `_id`; an unowned blog has no author |
| BlogDetail.KnownIdAgreesWithIntended | frontend/src/components/BlogDetail.jsx:28-38 | when the session user does carry a user id, the check as written gives what the intended check gives |
| BlogEditor.Placeholder | frontend/src/pages/CreateBlog.jsx:141-150 | the morning text exactly before 12, the afternoon text exactly from 12 to 17, the evening text exactly from 18 |
| BlogEditor.Editor.Payload | frontend/src/pages/CreateBlog.jsx:110-115 | the payload is exactly the title, content, category and image of the editor |
| BlogEditor.Editor.ChooseImage | frontend/src/pages/CreateBlog.jsx:74-91 | a file is accepted exactly when one is chosen and it is at most 5 MiB. The image and preview then become its data URL. Otherwise they are unchanged. |
| BlogEditor.Editor.ToggleCategoryMenu | frontend/src/pages/CreateBlog.jsx:165 | the menu flips open or closed |
| BlogEditor.Editor.PickCategory | frontend/src/pages/CreateBlog.jsx:178-181 | the category is set and the menu closes |
| BlogEditor.Editor.RemoveCover | frontend/src/pages/EditBlog.jsx:317-320 | image and preview both become null |
| BlogEditor.Editor.LoadPassed | frontend/src/pages/EditBlog.jsx:91-100 | title, content and category are taken from the passed post; image and preview only when its image is truthy |
| BlogEditor.Editor.Save | frontend/src/pages/CreateBlog.jsx:109-138 | a request is sent exactly when title and content are non-empty, with the payload and authentication; success marks the post saved |
| BlogEditor.Editor.Publish | frontend/src/pages/CreateBlog.jsx:109-138 | a POST to "/api/blogs" with exactly the payload, sent exactly when title and content are non-empty; otherwise nothing is sent and `isSubmitting` keeps its value |
| BlogEditor.Editor.Update | frontend/src/pages/EditBlog.jsx:161-198 | a PUT to "/api/blogs/" followed by the id with its `$` patterns expanded (the id itself when it holds no "$"), with exactly the payload, sent exactly when title and content are non-empty |
| EndToEnd.AuthorizedCall | frontend/src/services/ApiService.jsx:10-16 | a request passes the gate exactly when the interceptor added a bearer header and the stored token verifies, and `req.user` is then its claims. Without the header the gate answers "No token". |
| EndToEnd.Deliver | frontend/src/services/ApiService.jsx:21-30 | a 2xx answer resolves with its token and user, and any other status rejects carrying that status |
| EndToEnd.SignInRoundTrip | frontend/src/pages/SignIn.jsx:63-103 | a request leaves the page exactly when validation returns an empty error object; then, from the page through the handler and back: an unknown e-mail shows the not-found message, a wrong password the invalid-password message, and a failing store or hasher the network message. A correct password stores the token issued for that user and the public user. |
| EndToEnd.IssuedTokenClientAndServer | frontend/src/utils/ProtectedRoute.jsx:13-19 | for a token issued at sign-in, the guard renders up to and including the expiry millisecond; the gate accepts strictly before it |
| EndToEnd.SecondsBeforeExpiry | frontend/src/utils/ProtectedRoute.jsx:13 | on a clock floored to seconds, being before `exp` is being before `exp·1000` ms |
| EndToEnd.ExpiryMillisecondDisagrees | frontend/src/utils/ProtectedRoute.jsx:15 | at the expiry millisecond the page still renders while the gate refuses every request |

## Left out

- **Foreign libraries.** bcrypt, `jsonwebtoken` and `jwt-decode` internals (salting, cost, signature algorithm, base64): the hasher and the token codec are parameters. `hash` and `compare` return None where they throw. The only properties assumed are that `compare` accepts its own hash and that decoding a signed token gives back its claims. The guard's decoder is taken to read the same claims as the server's verifier.
- **Database.** MongoDB and Mongoose: the connection, `populate`, ObjectId strings (ids are natural numbers from a counter), and query semantics for array-valued parameters (a filter value is a single string).
- **Platform.** Server start-up, environment variables, CORS and the route tables are not part of this model.
- **Client side effects.** The axios transport, `toast`, `alert`, `console`, `navigate` and `setTimeout` redirects. A request appears only as the value a handler returns, and an answer only as a reply parameter.
- **Concurrency.** Each handler's `await` steps run in sequence; nothing interleaves.
- **Time.** Wall-clock time is an integer in milliseconds (or seconds on the server), and the hour of `getHours()` is an integer parameter.
- **Update and delete on the server.** The blog routes import `updateBlog` and `deleteBlog`, which the controller does not define, and the blog routes are never mounted. The client requests for them are modelled; no server behaviour exists to model.
- **EditBlog fetch.** The edit page's fallback fetch when no post is passed is not part of this model. It reads `ApiRoutes.Get_Blog`, which `frontend/src/utils/ApiRoutes.jsx` does not define, so that path throws before any request.
- **Presentation.** Animations, navigation bar, hero section, logout hook and styling.
- ApiService.Unwrap: the response interceptor's success path only hands back `response.data`. It has no contract beyond its definition. The error path (a toast, then a rethrow) is represented by the reply datatypes.
- BlogCard.FirstChars: JavaScript's `n[0]` is the first UTF-16 code unit, while the model takes the first character (code point). The two differ for names starting with a character outside the Basic Multilingual Plane.

## Findings

| source | as written | input that shows it | evidently intended | confidence | as-written member | corrected member |
|---|---|---|---|---|---|---|
| frontend/src/components/BlogDetail.jsx:28-41 | compares the session user's `userId` with the blog owner's id, but sign-in stores the user as `{name, email}` (frontend/src/pages/SignIn.jsx:83, from backend/controllers/authController.js:38-40), so the session `userId` is undefined | a signed-in author viewing their own blog `{userId: "u1"}` gets `isAuthor` false; any signed-in user viewing a blog without `userId` gets `isAuthor` true (undefined === undefined) | the viewer is the author exactly when a known session user id equals the owner id | high (not executed) | BlogDetail.SignedInAuthorNotRecognised, BlogDetail.UnownedBlogLooksAuthored | BlogDetail.IsAuthorIntended |
