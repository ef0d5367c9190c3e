# Kolab route rules in Dafny

Kolab is an Express/Mongoose backend for a professional social network:
registration and login, one profile per user with experience and education
lists, and a feed of posts with likes and comments. This project models the
decision logic of its four route files (`routes/api/users.js`,
`routes/api/auth.js`, `routes/api/profile.js`, `routes/api/posts.js`) as pure
functions over immutable data, and proves what those handlers promise.

How the model is laid out:

- Every handler that can fail is a function from the stores and the request
  to a `Step` (the stores afterwards, plus the reply) or to a `Result` (the
  reply alone). The current-user lookup cannot fail and returns an `Option`,
  where `None` is the `null` it sends.
  A reply is `Ok(value)` for a 200 JSON reply, or `Err(Failure(status, body))`,
  where the body is `{errors: [...]}`, `{msg}`, or the plain text
  `Server error` sent from every catch block.
- The user and profile collections are sequences in natural order. They are
  queried by a non-key field (`email`, `user`), and `findOne` returns the first
  match. The post collection is a map keyed by post id, because it is only
  queried by `_id`.
- A request body is a map from field name to string. A missing key is
  `undefined`, and a field is truthy when it is present and not `""`.
- The caller id is an input: it is the id the auth guard resolved from the
  bearer token. Ids the store would generate (new users, posts, comments and
  list entries) are also inputs.
- Library calls are fields of `Foreign.Env`, a record of uninterpreted total
  functions. These are validator's e-mail check, `gravatar.url`, `bcrypt.hash`,
  `bcrypt.compare`, and whether Mongoose can cast a path parameter to an
  ObjectId. Validator's e-mail check is taken to reject `""`; the rest of it is
  left open.
- JavaScript's `indexOf`, `find`, `map`, `splice(start, 1)`, `trim` and
  `split` are modelled with their ECMAScript meaning in `JsArray` and
  `JsString`. That includes negative `splice` starts and the full set of
  whitespace code points `trim` removes.
- Reading a field of a missing document throws, the catch block answers 500,
  and the model returns 500 at each such site: creating a post as a missing
  user, liking or unliking a post id that is well formed but unknown,
  commenting on a missing post or as a missing user, and adding or removing an
  experience or education entry without a profile.
- Saving a post or a user under an id that is already taken is refused by
  the store's unique `_id` index, which also ends in the catch block as 500.

Three behaviours of the code are modelled as written:

- `GET /api/auth` for a user that no longer exists sends `null` with status 200
  (`res.json(null)`).
- Deleting an experience or education entry with an id that no entry has
  removes the last entry: `indexOf` gives -1, and `splice(-1, 1)` drops the
  last element.
- Deleting a comment with an unknown id reads a field of `undefined` and
  answers 500.

## Model

| member | source | states |
|---|---|---|
| `Validation.Passes` | routes/api/users.js:16-19 | `.not().isEmpty()` passes exactly on a present, non-empty field, and `.isEmail()` exactly on a present, non-empty field the e-mail check accepts; `.isLength({min})` compares the length, a missing field counting as empty; `.exists()` passes exactly when the field is present, even when it is empty |
| `Validation.Violations` | routes/api/users.js:16-27 | Every declared rule is checked and every violated one is reported, in declaration order; the report is empty exactly when all rules pass |
| `Validation.ViolationsConcat` | routes/api/users.js:16-19 | Validation does not short-circuit: the report for two rule lists is the report of the first followed by that of the second |
| `JsString.Trim` | routes/api/users.js:56-57 | `trim` returns an infix of the input with no whitespace at either end, and only whitespace is cut on either side |
| `JsString.TrimCharacterization` | routes/api/users.js:56-57 | Any whitespace-free-ended core surrounded only by whitespace is exactly what `trim` returns; this pins `trim` down uniquely |
| `JsString.TrimOfTrimmed` | routes/api/users.js:56-57 | A value with no whitespace at either end is stored unchanged by `trim` |
| `JsString.TrimIdempotent` | routes/api/profile.js:109 | Trimming twice is trimming once |
| `JsString.Split` | routes/api/profile.js:109 | `split(',')` yields one more piece than there are commas, and no piece contains a comma |
| `JsString.JoinSplit` | routes/api/profile.js:109 | Joining the pieces of a split with the same separator restores the string |
| `JsString.SplitJoin` | routes/api/profile.js:109 | Splitting a join of comma-free pieces restores the pieces |
| `JsArray.IndexOf` | routes/api/posts.js:184 | `indexOf` is -1 exactly when the value is absent, otherwise the first index holding it |
| `JsArray.Find` | routes/api/posts.js:265 | `find` is `undefined` exactly when no element matches, otherwise a matching element |
| `JsArray.FindFirst` | routes/api/posts.js:265 | `find` returns the element at the first matching index |
| `JsArray.Splice1` | routes/api/profile.js:312 | `splice(start, 1)` removes the element at `start`; a negative start counts from the end, so -1 removes the last element; a start at or past the end removes nothing; a start before `-length` removes the first element |
| `Users.IndexOfId` | routes/api/auth.js:18 | `findById` (and `findOneAndRemove({_id})`) finds the first user with that id, or none when no user has it |
| `Users.IndexOfEmail` | routes/api/users.js:34 | `findOne({email})` finds the first user with that e-mail, or none when no user has it |
| `Users.Register` | routes/api/users.js:14-93 | Invalid input gives 400 with all violations; a taken e-mail gives 400 "User already exists"; a taken id makes `save()` fail with 500; every failure leaves the store unchanged. Otherwise exactly one user is appended, with trimmed names, password `hash(password, salt)`, an avatar from the e-mail alone, and a token `{user: {id}}` with expiresIn 360000 |
| `Users.RegisterPreservesUniqueness` | routes/api/users.js:34-62 | Registration keeps e-mails unique and ids unique across users |
| `Users.RegisterSameEmailTwice` | routes/api/users.js:34-39 | After a successful registration, any valid registration with the same e-mail fails with "User already exists" and stores nothing |
| `Auth.WithoutPassword` | routes/api/auth.js:18 | `.select('-password')` keeps the id, names, e-mail and avatar unchanged and drops the hash |
| `Foreign.IssueToken` | routes/api/users.js:64-75 | The token payload carries the user id as its only claim, and `expiresIn` is 360000 |
| `Auth.CurrentUser` | routes/api/auth.js:15-26 | The reply is the caller's user document without its password, or `null` when the caller has none |
| `Auth.CurrentUserIgnoresPasswords` | routes/api/auth.js:18 | Two stores that differ only in password hashes give the same current-user reply |
| `Auth.Login` | routes/api/auth.js:31-90 | Invalid input gives 400 with the violations. An unknown e-mail and a password that does not match the first user with the e-mail both give 400 "Invalid credentials". A match gives a token `{user: {id}}` for that user. Login only reads the user store |
| `Auth.LoginFailuresIndistinguishable` | routes/api/auth.js:47-59 | A store without the e-mail and a store where the password is wrong produce the identical reply, so the reply does not reveal whether an account exists |
| `Auth.RegisterThenLogin` | routes/api/auth.js:47-80 | After a registration, logging in with the same e-mail and password yields a token for the new user, and the current-user lookup finds that user |
| `Engagement.LikeCount` | routes/api/posts.js:144 | The filter count of a user's likes is that user's multiplicity in the list; it is zero exactly when the user has no like |
| `Engagement.AddLike` | routes/api/posts.js:144-149 | Refuses with 400 "Post already liked" exactly when the user already likes the post. Otherwise the new like is first and the old likes follow in order |
| `Engagement.RemoveLike` | routes/api/posts.js:178-186 | Refuses with 400 "Post has not yet been liked" exactly when the user has no like. Otherwise exactly the first like by the user is removed, and the rest keep their order |
| `Engagement.AddLikeKeepsUnique` | routes/api/posts.js:144-149 | Liking keeps at most one like per user |
| `Engagement.RemoveLikeKeepsUnique` | routes/api/posts.js:178-186 | Unliking keeps at most one like per user and leaves the user with no like |
| `Engagement.UnlikeUndoesLike` | routes/api/posts.js:144-186 | For a user with no like, like then unlike restores the original list |
| `Engagement.UnlikeTwiceFails` | routes/api/posts.js:178-181 | With one like per user, a second unlike in a row is refused with "Post has not yet been liked" |
| `Engagement.DuplicateLikeSurvivesUnlike` | routes/api/posts.js:184-186 | Without that invariant, one unlike is not enough: for any list where a user has two or more likes, the unlike succeeds and the user still has a like afterwards |
| `Engagement.FindAgreesWithIndexOf` | routes/api/posts.js:265-273 | `find` by comment id and `indexOf` on the comment ids pick the same comment |
| `Engagement.DeleteCommentAsWritten` | routes/api/posts.js:265-275 | An unknown comment id gives 500. A comment by someone else gives 401 "User not authorized". Otherwise exactly the first comment with the id is removed |
| `Engagement.DeleteComment` | routes/api/posts.js:265-275 | Corrected rule: an unknown comment id gives 404 and never 500; a success removes one comment by the caller with that id |
| `Engagement.DeleteCommentAgreesWhenPresent` | routes/api/posts.js:265-275 | The corrected and as-written rules agree whenever the comment id is present |
| `Engagement.UnknownCommentFaults` | routes/api/posts.js:265-267 | A concrete post with comment `c1`: deleting `c2` gives 500 as written, and 404 under the corrected rule |
| `Posts.CreatePost` | routes/api/posts.js:13-49 | Empty text gives 400 with the violations and stores nothing. Valid text succeeds exactly when the author has a user document and the id is free. The new post carries the author's first name, last name and avatar and `user` set to the caller, has no likes or comments, and is the only post added, under an id that was not taken before. A missing author or a taken id gives 500 with the store unchanged |
| `Posts.GetPost` | routes/api/posts.js:72-95 | A malformed id and an unknown id both give 404 "Post not found"; otherwise the reply is the stored post |
| `Posts.CreateThenGetPost` | routes/api/posts.js:40-42 | Read after write: when creating a post succeeds, reading its id returns exactly the created post |
| `Posts.DeletePost` | routes/api/posts.js:101-131 | A missing post gives 404 and a non-author gives 401 "User not authorized", both with the store unchanged; only the author's delete removes the post, and no other post changes |
| `Posts.LikePost` | routes/api/posts.js:137-165 | A malformed id gives 404; an unknown well-formed id gives 500; otherwise the like rule decides, and only that post's likes change |
| `Posts.UnlikePost` | routes/api/posts.js:171-202 | The same failures as liking; otherwise the unlike rule decides, and only that post's likes change |
| `Posts.LikeRoutesKeepLikesUnique` | routes/api/posts.js:137-202 | Like and unlike keep every post at one like per user |
| `Posts.CreatePostKeepsLikesUnique` | routes/api/posts.js:31-40 | Creating a post keeps every post at one like per user |
| `Posts.CommentRoutesKeepLikes` | routes/api/posts.js:101-285 | Deleting a post and adding or deleting comments keep every post at one like per user |
| `Posts.CommentOnPost` | routes/api/posts.js:208-247 | Empty text gives 400. A malformed id, a missing post or a missing user give 500. Otherwise one comment is put first, with the author snapshot and `user` set to the caller; the older comments keep their order |
| `Posts.DeleteCommentOnPost` | routes/api/posts.js:253-285 | A malformed post id gives 500 and a missing post gives 404; otherwise the as-written comment rule decides, and only that post's comments change |
| `ProfileFields.SkillList` | routes/api/profile.js:107-110 | The skills list has one entry per comma-separated piece, in order; each entry is that piece trimmed and contains no comma |
| `ProfileFields.SkillListOfJoin` | routes/api/profile.js:109 | Trimmed, comma-free skills joined with ',' come back unchanged |
| `ProfileFields.BuildFields` | routes/api/profile.js:71-141 | `user` is always the caller. Each optional top-level field is set exactly when the body has it truthy, and then to its value. Skills are set exactly when truthy. `social` is always present and holds exactly the truthy links |
| `ProfileFields.ValidBodyHasStatusAndSkills` | routes/api/profile.js:42-52 | A body that passes validation always yields a status and a skills list |
| `Profiles.IndexOfOwner` | routes/api/profile.js:145 | `findOne({user})` finds the first profile of that user, or none |
| `Profiles.ApplyFields` | routes/api/profile.js:149 | `$set` replaces each field the built object carries, replaces `social` as a whole, and keeps every other stored field, including the experience and education lists |
| `Profiles.NewProfile` | routes/api/profile.js:156-158 | A created profile carries exactly the built fields, with empty experience and education lists |
| `Profiles.SaveProfile` | routes/api/profile.js:38-167 | Missing status or skills gives 400 with the store unchanged. An existing profile is updated in place, with every other profile unchanged. Otherwise exactly one new profile is appended |
| `Profiles.SaveProfileKeepsOnePerUser` | routes/api/profile.js:145-160 | Saving keeps one profile per user, and a later `GET /me` returns exactly the saved profile |
| `Profiles.GetMe` | routes/api/profile.js:14-31 | Fails with 400 "There is no profile for this user" exactly when the caller has no profile; otherwise the reply is the caller's profile |
| `Profiles.GetByUser` | routes/api/profile.js:192-215 | A malformed id and an absent profile both give 400 "Profile not found"; otherwise the reply is that user's profile |
| `Profiles.SaveThenGetByUser` | routes/api/profile.js:196 | Read after write: with one profile per user, a saved profile is what the lookup by the caller's id returns |
| `Profiles.RemoveAt` | routes/api/profile.js:227-230 | `findOneAndRemove` drops the matched document and keeps the others in order, or changes nothing when none matches |
| `Profiles.DeleteAccount` | routes/api/profile.js:222-238 | Removes the caller's first profile, then the caller's user document; everything else keeps its order; the reply is "User deleted" |
| `Profiles.DeleteAccountRemovesCaller` | routes/api/profile.js:226-230 | With one profile per user and unique user ids, no profile or user of the caller remains, and every other profile and user survives |
| `Profiles.AddExperience` | routes/api/profile.js:245-297 | A missing title, company, from or to gives 400, and a caller without a profile gives 500. A valid body from a caller with a profile always succeeds: the new entry is first and the previous entries follow in order; nothing else changes |
| `Profiles.AddEducation` | routes/api/profile.js:329-380 | A missing school, degree, fieldofstudy, from or to gives 400, and a caller without a profile gives 500. A valid body from a caller with a profile always succeeds: the new entry is first and the previous entries follow in order; nothing else changes |
| `Profiles.RemoveEntry` | routes/api/profile.js:310-312 | As written: the first entry with the id is removed; when no entry has it, the last entry of a non-empty list is removed |
| `Profiles.RemoveEntryIfPresent` | routes/api/profile.js:310-312 | Corrected rule: an unknown id leaves the list unchanged; a known id removes exactly its first entry |
| `Profiles.AbsentIdDropsLast` | routes/api/profile.js:393-395 | Two education entries `e1`, `e2`: removing an unknown id leaves only `e1` as written, and both entries under the corrected rule |
| `Profiles.RemoveExperience` | routes/api/profile.js:303-323 | A caller without a profile gives 500; otherwise the caller's experience list is edited by the as-written removal and nothing else changes |
| `Profiles.RemoveEducation` | routes/api/profile.js:386-406 | A caller without a profile gives 500; otherwise the caller's education list is edited by the as-written removal and nothing else changes |
| `Profiles.AddExperienceKeepsOnePerUser` | routes/api/profile.js:284-288 | Adding an experience entry keeps one profile per user |
| `Profiles.AddEducationKeepsOnePerUser` | routes/api/profile.js:367-371 | Adding an education entry keeps one profile per user |
| `Profiles.RemoveEntryKeepsOnePerUser` | routes/api/profile.js:307-314 | Removing an experience or education entry keeps one profile per user |

## Left out

- MongoDB and Mongoose I/O are replaced by sequence and map operations. Store failures (the other 500 paths) are not modelled. Schema casting and defaults are also left out, apart from empty lists in new documents.
- `populate('user', ['name', 'avatar'])` on profile reads is left out; it is a store-side join. The user documents have no `name` field, so that join could only add the avatar.
- `GET /api/profile` and `GET /api/posts` are left out. They return the whole collection, and the posts are sorted by date on the store side. Dates are not modelled.
- Signing the token is left out. The model returns the payload and the `expiresIn` handed to `jwt.sign`. The secret, the signature, and the rethrown signing error are not modelled.
- bcrypt, gravatar and the e-mail syntax check are uninterpreted parameters. The salt from `genSalt(10)` is a parameter of `Users.Register`, so the cost factor does not appear in the model.
- The auth middleware is not part of this model. Every private route takes the caller id it resolved.
- express-validator also looks for a field in the query, params, cookies and headers. The model looks only in the body. JSON values other than strings (booleans, arrays, numbers) are not modelled, so `current` is kept as the string it was sent as.
- Validation.Violations: an error entry carries only the parameter and message. The offending value and its location are not modelled.
- Mongoose's own `_id` on each like is not modelled: a like is just its user.
- Concurrent read-modify-write races between requests on the same document are left out. Each handler is modelled as one sequential step.
- The React client (`Register.js`, `Login.js`, `Landing.js`, `Navbar.js`) and `server.js` are not part of this model. They are UI and server wiring only.

## Findings

| source | as written | input that shows it | evidently intended | confidence | as-written member | corrected member |
|---|---|---|---|---|---|---|
| routes/api/profile.js:310-312 | `splice(indexOf(id), 1)` with no check for -1 | deleting experience or education id `missing` from a list `[e1, e2]` leaves `[e1]` | an unknown id leaves the list unchanged | high, not executed | `Profiles.RemoveEntry` (shown by `Profiles.AbsentIdDropsLast`) | `Profiles.RemoveEntryIfPresent` |
| routes/api/posts.js:265-267 | reads `comment.user` without checking that `find` found a comment | deleting comment `c2` from a post whose only comment is `c1` gives 500 | 404 for an unknown comment | high, not executed | `Engagement.DeleteCommentAsWritten` (shown by `Engagement.UnknownCommentFaults`) | `Engagement.DeleteComment` |

The route handlers (`Profiles.RemoveExperience`, `Profiles.RemoveEducation`
and `Posts.DeleteCommentOnPost`) model the code as written. The corrected
rules sit beside the as-written ones. Lemmas relate the two:
`Engagement.DeleteCommentAgreesWhenPresent` and the contract of
`Profiles.RemoveEntryIfPresent`.
