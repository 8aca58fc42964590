# Social video front end: forms and feed, modelled in Dafny

This project models the browser-side logic of a short-video application's
three screens. The screens are a registration form, a login form and a
scrolling video feed.

- **Registration** (`Register`). The four password rules are checked and
  their flags recorded. The email address is checked against the pattern
  `^[a-zA-Z0-9._%+-]+@[a-zA-Z0-9.-]+\.[a-zA-Z]{2,}$`. The Register button is
  enabled under a fixed condition. A registration attempt leaves a message
  behind, and that message is coloured red or green.
- **Login** (`Login`). The form uses the same email check and the same
  field error flag. A successful sign-in makes its calls in a fixed order:
  it stores the token, shows an alert, runs the login callback, then
  navigates. A failed sign-in does nothing.
- **Feed** (`Feed`). The feed keeps a list of videos, with one like slot
  and one comment list per video. Fetched URLs are moved from `http:` to
  `https:`. A like slot toggles between 0 and 1. A comment is appended to
  the current video's list. The visibility observer moves the current
  index and writes a CSS filter to each video it finds in view. The CSS
  filter comes from a total mapping of filter names. The module also
  covers the Content-Type test before an audio download and the one-based
  download file names.
- **Shared modules**. `Email` holds the email pattern. It has a computed
  reading (the first `@` and the last `.` are the separators) and a
  reference reading (some split fits the pattern), and a lemma proves the
  two equal. `Text` holds character classes, `includes`, `indexOf` and
  `lastIndexOf` (with `-1` for "not found"), and decimal numerals.
  `Common` holds the optional value, the ordered effect trace and the
  lookup of the stored token.

Each React component is a class. Its state variables are fields, and each
event handler is a method that changes only the fields its `modifies`
clause names. Every handler runs as one atomic transition. The one
exception is the registration handler: its `await` splits it into
`BeginRegister` (the message is cleared) and `FinishRegister` (the reply is
handled). These parts are parameters, not modelled code:

- HTTP replies;
- the contents of local storage (a `map`);
- the HEAD response's Content-Type;
- the observer's entries and the list of video elements.

Registration stores no token; a successful one navigates to `/login`. A
failed login shows nothing at all; it only logs to the console.

JavaScript measures strings in UTF-16 units, so the password length rule
counts a character above U+FFFF twice (`Text.Utf16Length`). The character
classes the forms test are all ASCII, so testing them character by
character agrees with testing them unit by unit.

## Model

| member | source | states |
|---|---|---|
| Text.Contains | src/components/Register.js:49-51 | `/[k]/.test(s)` holds iff some character of `s` is in class `k` |
| Text.All | src/components/Register.js:79 | a run matches `[k]*` iff every character is in class `k` |
| Text.Includes | src/components/videoList.js:151 | `s.includes(sub)` holds iff `sub` occurs in `s` at some position |
| Text.IndexOf | src/components/videoList.js:182 | `indexOf` gives -1 iff the element is absent, else a position holding it with none before it |
| Text.IndexOfIs | src/components/videoList.js:182 | a position holding the element with none before it is the one `indexOf` returns |
| Text.LastIndexOf | src/components/Register.js:79 | the last position holding the element (none after it), or -1 iff absent; it is the only '.' that `\.[a-zA-Z]{2,}$` can use |
| Text.LastIndexOfAtLeast | src/components/Register.js:79 | every position holding the element is at or before the one the last-occurrence search finds |
| Text.Utf16Length | src/components/Register.js:48 | `.length` counts UTF-16 units: between the number of characters and twice it, and equal to it iff no character lies above U+FFFF |
| Text.Decimal | src/components/videoList.js:112 | the numeral of a number is non-empty, all digits, with no leading zero |
| Text.DecimalRoundTrip | src/components/videoList.js:112 | reading back the numeral of `n` gives `n` |
| Common.StoredToken | src/components/videoList.js:59 | `getItem("authToken")` is present iff the key is stored, with the stored value |
| Common.HasToken | src/components/videoList.js:58-60 | the `if (!token)` guard of the like and comment handlers passes iff "authToken" is stored with a non-empty value |
| Email.FieldError | src/components/Login.js:215 | the email field is flagged iff it is non-empty and does not match the pattern, in both forms (also Register.js:155) |
| Email.HelperText | src/components/Register.js:156 | the helper text is either empty or "Invalid email address", and it is the latter iff the field is flagged (also Login.js:216) |
| Email.ValidIffMatchesPattern | src/components/Register.js:79 | the split at the first `@` and the last `.` fits exactly when some split of the pattern fits |
| Email.IsValid | src/components/Register.js:79 | `isEmailValid`, computed from the first `@` and the last `.`, holds iff the address matches the pattern (proved through `Email.ValidIffMatchesPattern`) |
| Email.SeparatorsAreUnique | src/components/Login.js:164 | any fitting split uses the first `@` and the last `.` |
| Email.ValidHasOneAt | src/components/Register.js:79 | an accepted address contains exactly one `@` |
| Email.SplitHasOneAt | src/components/Register.js:79 | any string the pattern fits, at whichever split, contains exactly one `@` |
| Email.ValidShape | src/components/Login.js:164 | an accepted address is non-empty; its local part and domain are non-empty; after its last `.` come two or more ASCII letters and no `.` |
| Email.EmptyIsInvalid | src/components/Register.js:79 | the empty string is rejected, by both readings |
| Email.AcceptedExample | src/components/Register.js:79 | `j.d+f@m-x.org` is accepted |
| Email.ShortTopLevelRejected | src/components/Register.js:79 | every string whose second-to-last character is '.' (a one-letter top-level part) is rejected |
| Email.ShortTopLevelExample | src/components/Register.js:79 | for example, `jo@ex.c` is rejected |
| Email.DoubleAtRejected | src/components/Login.js:164 | an address whose first `@` is followed by another `@` is rejected |
| Email.SecondAtRejected | src/components/Login.js:164 | `jo@@ex.org` is rejected |
| Email.EmptyLocalPartRejected | src/components/Login.js:164 | every string starting with `@` (an empty local part) is rejected |
| Email.EmptyLocalPartExample | src/components/Login.js:164 | for example, `@ex.org` is rejected |
| Register.RulesOf | src/components/Register.js:47-58 | the length flag holds iff the password is 8 or more UTF-16 units long; each other flag holds iff it has a digit, a symbol from the fixed set, an ASCII capital |
| Register.IsStrongPassword | src/components/Register.js:60 | a password is valid iff it is 8 or more UTF-16 units long, has a digit, one of the twenty fixed symbols and an ASCII capital |
| Register.AstralPasswordAccepted | src/components/Register.js:48-60 | "Aa1!" followed by three characters above U+FFFF is ten units long and is accepted, although it has only seven characters |
| Register.RegisterForm.ValidatePassword | src/components/Register.js:47-61 | records exactly the four flags for `p` and returns their conjunction, which is password validity |
| Register.RegisterForm.HandlePasswordChange | src/components/Register.js:63-71 | stores the value; an empty value keeps the error and rule flags, else the error flag is "not valid" |
| Register.RegisterForm.HandleEmailChange | src/components/Register.js:73-76 | stores the email |
| Register.RegisterForm.HandleUsernameChange | src/components/Register.js:130 | stores the username |
| Register.RegisterForm.SubmitDisabled | src/components/Register.js:221 | the Register button is enabled iff the email matches the pattern and the password error flag is off |
| Register.RegisterForm.BeginRegister | src/components/Register.js:23-27 | the message is cleared before the request; the request carries username, email and password |
| Register.RegisterForm.FinishRegister | src/components/Register.js:29-43 | the message becomes the reply's message; navigation to `/login` happens iff a 201 reply carries a message |
| Register.RegisterMessage | src/components/Register.js:25-43 | a 201 reply with a message gives that message; any other reply gives the fixed failure text; a thrown error gives its `error` field if present, else the fixed text; the result is never empty |
| Register.MessageColor | src/components/Register.js:119 | the message is red iff it contains "failed", green otherwise |
| Register.FallbackShownRed | src/components/Register.js:33 | the fixed failure text, which every failure without a message of its own ends in, is shown in red |
| Register.RegisterForm.constructor | src/components/Register.js:8-18 | empty fields, no password error, all rule flags false |
| Login.SignInEffects | src/components/Login.js:153-157 | a sign-in stores the token under "authToken", then alerts the server's message, then calls login with the token, then navigates to "/upload"; login is called only with that token and never first or last |
| Login.LoginForm.HandleSubmit | src/components/Login.js:148-161 | takes any email, with no validity requirement; on success stores the token and records the four calls in order; on failure stores nothing and records nothing |
| Login.LoginForm.HandleEmailChange | src/components/Login.js:163 | stores the email |
| Login.LoginForm.HandlePasswordChange | src/components/Login.js:237 | stores the password |
| Login.LoginForm.constructor | src/components/Login.js:141-146 | empty fields, given storage, no calls yet |
| Login.SignInEnablesFeed | src/components/Login.js:153 | after a sign-in, the feed's token guard passes iff the token is non-empty |
| Feed.ToHttps | src/components/videoList.js:48 | a leading `http:` becomes `https:` with the same remainder; any other URL is unchanged; the result never starts with `http:` |
| Feed.ToHttpsIdempotent | src/components/videoList.js:48 | rewriting twice equals rewriting once |
| Feed.WithHttps | src/components/videoList.js:46-49 | only the URL of a descriptor changes; the id and all other fields are preserved |
| Feed.Toggle | src/components/videoList.js:66 | the new slot is 0 or 1, and it is 1 iff the old slot was not 1 |
| Feed.ToggleTwice | src/components/videoList.js:66 | toggling a 0/1 slot twice restores it |
| Feed.Liked | src/components/videoList.js:64-68 | slot `index` is toggled and every other slot is kept; the length is kept when `index` is in range; past the end the array grows, with holes reading as 0 and the new slot 1 |
| Feed.LikeTwiceRestores | src/components/videoList.js:64-68 | liking the same in-range 0/1 slot twice restores all likes |
| Feed.Commented | src/components/videoList.js:87-92 | the comment is appended to the end of list `index`; the number of lists and every other list are unchanged |
| Feed.CssFilter | src/components/videoList.js:162-174 | "B&W" gives `grayscale(100%)`, "Blur" gives `blur(5px)`, and every other name, "Sharp" and "" included, gives `none` |
| Feed.HasAudio | src/components/videoList.js:147-156 | true iff the Content-Type is present and contains `audio/` or `video/`; false on a failed request |
| Feed.NumberedName | src/components/videoList.js:112 | a file name is the prefix, digits without a leading zero that read as `index + 1`, then the suffix |
| Feed.FileNamesDistinct | src/components/videoList.js:135 | different positions get different `video-N.mp4` and `audio-N.mp3` names, and a video name is never an audio name |
| Feed.VideoFileName | src/components/videoList.js:112 | the download is named `video-`, the one-based position in digits without a leading zero, then `.mp4` |
| Feed.AudioFileName | src/components/videoList.js:135 | the audio download is named `audio-`, the one-based position in digits without a leading zero, then `.mp3` |
| Feed.FoundIndices | src/components/videoList.js:182-183 | every position the observer finds is the position of a video element |
| Feed.ObservedIndex | src/components/videoList.js:180-185 | the index after the callback's `forEach` over the entries is either the old index or a position of a video element |
| Feed.ObserveOneMore | src/components/videoList.js:180 | handling one more entry applies one observer step to the index and to the found positions |
| Feed.PaintedOneMore | src/components/videoList.js:189 | writing the filter at one more position is the same as painting the enlarged set |
| Feed.PaintOneMore | src/components/videoList.js:181-190 | after one more entry, the entry's position gets the filter iff the entry is in view and found; otherwise the styles stay as they were |
| Feed.ObservedIndexIsFound | src/components/videoList.js:180-184 | after a callback, the index is unchanged or is the first position of an in-view entry's target; it is never -1 |
| Feed.NothingInViewKeepsIndex | src/components/videoList.js:181 | a callback with no entry in view changes neither the index nor any style |
| Feed.FeedPage.constructor | src/components/videoList.js:29-38 | the feed starts empty at index 0, with the dialog closed, no comment text and no filter |
| Feed.FeedPage.FetchVideos | src/components/videoList.js:43-56 | after a fetch, videos are the rewritten descriptors; likes and comments have the same length, all 0 and all empty; a failed fetch changes nothing |
| Feed.FeedPage.HandleLike | src/components/videoList.js:58-69 | with a token the likes become `Liked(old likes, index)`; without one they are unchanged; the comment/video parallelism and the 0/1 slots are kept |
| Feed.FeedPage.HandleCommentClick | src/components/videoList.js:71 | opens the comment dialog |
| Feed.FeedPage.CloseCommentDialog | src/components/videoList.js:362 | closes the comment dialog |
| Feed.FeedPage.HandleCommentTextChange | src/components/videoList.js:358 | stores the comment text |
| Feed.FeedPage.SetFilter | src/components/videoList.js:248-264 | stores the selected filter name |
| Feed.FeedPage.CurrentVideoId | src/components/videoList.js:81 | the id of the current video, absent iff the index is past the end |
| Feed.FeedPage.HandleCommentSubmit | src/components/videoList.js:73-98 | a request is sent iff a token is stored; an accepted post appends the text to the current list, clears the text and closes the dialog; otherwise comments, text and dialog are unchanged |
| Feed.FeedPage.OnIntersection | src/components/videoList.js:179-193 | the index becomes the observer's fold over the entries; the current filter's CSS is written to exactly the found positions |
| Feed.FeedPage.ShownLikes | src/components/videoList.js:282 | the displayed like count is 0 or 1, and 1 iff the current slot exists and is 1 |
| Feed.FeedPage.CurrentUrl | src/components/videoList.js:101-102 | the current video's URL is present iff there is a current video with a non-empty URL |
| Feed.FeedPage.HandleDownload | src/components/videoList.js:100-119 | a file is saved iff there is a current URL and the fetch succeeds; it is named `video-(index+1).mp4` |
| Feed.FeedPage.HandleAudioDownload | src/components/videoList.js:121-145 | audio is saved, as `audio-(index+1).mp3`, iff there is a URL, the Content-Type announces audio or video, and the fetch succeeds; the "no audio" alert appears iff there is a URL and no such type |

## Left out

- The HTTP calls are not modelled; the model takes their outcomes as parameters. This covers the video list, comments, registration, login and the HEAD and media fetches. Request URLs, headers and the API base URL are not modelled.
- Local storage is a `map` passed in or held by the login form. The login form holds it as a field and records its calls as `Common.Effect` entries, because the order of its store, alert, login and navigate calls is what it promises. The registration form makes a single route change, so a list of routes is enough. The feed's handlers only read the token, so storage is a parameter there. The feed's two login alerts ("You must be logged in to like." and "You must be logged in to submit a comment."), all `console` logging, and the `state` payload passed to `navigate` after login are left out.
- The IntersectionObserver's registration and disconnection are not modelled, and nor is its 0.5 threshold. The DOM writes to `playbackRate`, `playsinline`, `muted` and `poster` are left out too. They are browser effects with no bearing on the state modelled here.
- Blob and object-URL handling and `link.click()` are left out. A download is modelled as the file name it would be saved under.
- All rendering and styling is left out (MUI components, `sx` objects, icons, dialog layout, autoplay of the current video). The exceptions are the derived values modelled above: the email flag and its text, the disabled condition, the message colour and the like count shown.
- The commented-out first login component at src/components/Login.js:1-130 is dead code and is not modelled.
- React's scheduling is not modelled: effect dependency lists, memoised callbacks, batching, and how separate handlers interleave across `await`. The `filter` the observer's callback captured is taken to be the current one. The observer's effect depends on `[filter, applyFilter]` and not on the video list, so on the first render it observes no element: the fetch has not resolved yet. Until the selected filter changes, `Feed.FeedPage.OnIntersection` is never called and the current index stays 0.
- Feed.FeedPage.HandleCommentSubmit: when no video is current, the source's state updater calls `push` on `undefined` and throws while rendering. The model leaves the comment lists unchanged in that case. Text and dialog are still reset.
- Feed.FeedPage.HandleCommentSubmit: the source appends the comment with `push` into the inner array, which the previous state shares. The model treats comment lists as values, so it does not capture that aliasing. It also does not capture a development-mode double run of the updater.
- Feed.FeedPage.FetchVideos: a descriptor without a `videoUrl` makes `replace` throw, so the whole fetch is discarded. The model's descriptors always carry a URL string.
- Feed.Liked: the holes that writing past the end of a JavaScript array leaves are modelled as 0. The feed displays and toggles such a hole exactly as it does 0.
- Login.LoginForm.HandleSubmit: a reply without a token would store the text "undefined". The model's successful reply always carries a token string.
- The browser's own validation of `required` fields, which can block a submission, is not modelled.
