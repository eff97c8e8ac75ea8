# Blog API core in Dafny

This project models the behavioural core of a small Django REST blog:

- **Rate limiter** (`RateLimit`). The fixed-window limiter wraps a view handler.
  - It picks the client key from `X-Forwarded-For` or `REMOTE_ADDR`.
  - It parses a rate `"N/p"`.
  - It keeps one `{count, start_time}` record per handler and client key, in a cache that expires entries.
  - Each request is admitted, opens a new window, or gets 429.
  - The shared cache is the field of the class `RateLimiter`.
  - The method `Wrapper` is proved against the pure step `Wrap`. The counting invariant and the bound of N requests per window are proved about `Wrap` over any run of requests.
- **Permission** (`Permissions`). `IsAuthorOrReadOnly`: reads are open, writes need an authenticated caller, and object writes need the author.
- **Accounts** (`UserModel`, `UserManager`). The `CustomUser` record has:
  - its defaults;
  - its unique e-mail;
  - its name bounds;
  - `__str__`.

  `CustomUserManager.create_user` and `create_superuser` are modelled with:
  - their guards;
  - e-mail normalisation (an opaque hook);
  - the password hash (an opaque hook);
  - the superuser flag defaults;
  - their save into the user table, which the UNIQUE constraint can refuse.
- **Registration, login and token refresh** (`AuthSerializers`, `AuthViews`):
  - the REST framework's field checks the serializers rely on (`Fields`);
  - the serializers' `validate`, `create` and `get_tokens`;
  - the three actions of `AuthViewSet`, mapped to status codes and bodies.

  Registration saves into the store class `Database.Store`.
- **Content store** (`TimeStamps`, `BlogModels`, `BlogRules`, `Database`):
  - the five tables (users, categories, tags, posts, comments);
  - their UNIQUE constraints and foreign keys;
  - the time stamps every row inherits;
  - the on-delete rules: CASCADE, SET NULL, and tag links that go with either end;
  - the intended soft delete, as an operation of its own.

  `Database.Store` holds the tables and a key counter. Its methods are proved against the pure transforms of `BlogModels`, and every one keeps the store sound (`Integrity`).
- **Output projections** (`BlogSerializers`, `UserSerializers`, `DateFormat`):
  - the fields each representation shows;
  - the read-only fields of the post write serializer;
  - validation of post input;
  - the `"%H:%M %d-%m-%Y"` time format over the UTC calendar.

`Text`, `Decimal` and `JsonValues` supply the Python built-ins the core depends on:
- `str.split` and `str.strip`;
- `int()` and `str()` on integers;
- zero-padded fields;
- request and response bodies.

Clocks, the cache's time, tokens, `authenticate`, `normalize_email` and the password hasher are all parameters.

The model follows the code, not the project's own description, in three places:
- **Registration never succeeds.** The view is documented to answer 201, but the code never does (see Findings).
- **Deleting a row is a hard delete.** The soft-delete override sits inside `class Meta`, so it never replaces `Model.delete`. The delete operations cascade, and soft delete is the separate operation `SoftDelete`.
- **Slugs are inputs.** There is no slug derivation: the post views are empty, so slugs are parameters.

## Model

| member | source | states |
|---|---|---|
| RateLimit.ClientIp | backend/apps/abstract/ratelimit.py:13-19 | A present, non-empty X-Forwarded-For gives its prefix up to, not including, the first comma, untrimmed. Otherwise the result is REMOTE_ADDR, which may be missing. |
| RateLimit.PeriodSeconds | backend/apps/abstract/ratelimit.py:31-37 | s, m, h and d give 1, 60, 3600 and 86400 seconds. Every other unit gives 60. |
| RateLimit.ParseRate | backend/apps/abstract/ratelimit.py:29-30 | Parsing succeeds exactly when the rate holds one "/" and the part before it is a Python integer literal. |
| RateLimit.RateRoundTrip | backend/apps/abstract/ratelimit.py:29-37 | `str(N) + "/" + p` parses back to N requests per the period of p. |
| RateLimit.CacheKeyInjective | backend/apps/abstract/ratelimit.py:39-40 | For handler names without a colon, two cache keys are equal only for the same handler and client key. |
| RateLimit.Wrap | backend/apps/abstract/ratelimit.py:26-59 | One call changes at most the request's own cache entry. Every other entry stays as it was. |
| RateLimit.FilteredMethodBypasses | backend/apps/abstract/ratelimit.py:27-28 | With a method filter other than ALL and a different request method, the handler runs and the cache is untouched. |
| RateLimit.MalformedRateRaises | backend/apps/abstract/ratelimit.py:29-30 | A selected request with a malformed rate raises the parse error, and the cache is untouched. |
| RateLimit.Get | backend/apps/abstract/ratelimit.py:42-43 | `cache.get` with the default: a live slot's record, else count 0 starting now. Its meaning is stated by WindowOverResets, InsideWindowCounts and ExpiredEntryOpensWindow. |
| RateLimit.Set | backend/apps/abstract/ratelimit.py:46-53 | `cache.set(key, data, timeout)`: the record is kept until now plus the timeout. Stated by WindowOverResets and InsideWindowCounts. |
| RateLimit.Window | backend/apps/abstract/ratelimit.py:42-59 | The window decision for one counted request. The three lemmas below state each branch, and WindowKeepsFit and AtMostNPerWindow its invariant and bound. |
| RateLimit.WindowOverResets | backend/apps/abstract/ratelimit.py:45-48 | This applies once elapsed time reaches the period. The entry becomes count 1, starting now, for one period, and the handler runs. |
| RateLimit.InsideWindowCounts | backend/apps/abstract/ratelimit.py:50-54 | This applies inside the window and under N. The count goes up by one and the start stays. The timeout `period - elapsed` is positive and ends exactly with the window. The handler runs. |
| RateLimit.FullWindowRejects | backend/apps/abstract/ratelimit.py:56-59 | Inside the window at N, the answer is 429 "Too many requests. Try again later." and the cache is unchanged. |
| RateLimit.WindowKeepsFit | backend/apps/abstract/ratelimit.py:43-59 | Every step keeps the slot shape, and an admitted request leaves `1 <= count <= N` for N >= 1. |
| RateLimit.LiveSlotIsInsideWindow | backend/apps/abstract/ratelimit.py:43-47 | On the model's one integer clock, a live slot that fits is inside its window, so the reset branch is reached only through the default record of a dropped entry. |
| RateLimit.ExpiredEntryOpensWindow | backend/apps/abstract/ratelimit.py:42-53 | With N >= 1, a request that finds no live entry writes the same slot as the reset branch: count 1 from now, for one period, and the handler runs. |
| RateLimit.InsideWindowBound | backend/apps/abstract/ratelimit.py:50-59 | Take any sequence of calls through the shared cache: any handlers, clients, verbs and keys, interleaved. Before a slot at count c expires, at most N - c of the calls counted on its key reach their handler. Calls on other keys and calls the method filter skips leave the slot alone. |
| RateLimit.AtMostNPerWindow | backend/apps/abstract/ratelimit.py:42-59 | A counted call that finds no live entry opens a window. Until the window closes, at most N calls counted on that cache key reach their handler. This holds for any calls that share the key, such as other verbs under "ALL", other forwarded chains with the same first piece, or other addresses the key function maps the same way, with calls on other keys interleaved. |
| RateLimit.RateLimiter.constructor | backend/apps/abstract/ratelimit.py:6 | The shared cache starts empty. |
| RateLimit.RateLimiter.Wrapper | backend/apps/abstract/ratelimit.py:26-59 | The verdict and the new cache are exactly those `Wrap` gives for the old cache. |
| Text.Split | backend/apps/abstract/ratelimit.py:16 | `str.split(sep)` gives at least one piece. The pieces hold no separator, and joined with it they give the input back. |
| Text.SplitLength | backend/apps/abstract/ratelimit.py:29 | There is one more piece than there are separators. |
| Text.SplitFirst | backend/apps/abstract/ratelimit.py:16 | The first piece is the longest separator-free prefix. |
| Text.TrimLeft | backend/apps/users/auth/serializers.py:35-42 | The result is a suffix that does not start with white space. Everything cut off is white space. |
| Text.TrimRight | backend/apps/users/auth/serializers.py:35-42 | The result is a prefix that does not end with white space. Everything cut off is white space. |
| Text.Strip | backend/apps/users/auth/serializers.py:35-42 | The trimmed text is no longer than the input and has no white space at either end. |
| Text.StripIsSlice | backend/apps/users/auth/serializers.py:35-42 | The trimmed text is a slice of the input between a white-space prefix and a white-space suffix. |
| Text.StripAllSpace | backend/apps/users/auth/serializers.py:35-42 | All-white-space input trims to the empty string, so it counts as blank. |
| Text.StripIdempotent | backend/apps/users/auth/serializers.py:35-42 | Trimming twice is trimming once. |
| Decimal.DigitsOf | backend/apps/blog/serializers.py:70 | `%Y` writes the year's digits without leading zeros, and their value is the year. |
| Decimal.Fixed | backend/apps/blog/serializers.py:70 | A zero-padded field of exactly the given width whose digits have the value n. |
| Decimal.ParseInt | backend/apps/abstract/ratelimit.py:30 | `int(text)` succeeds exactly on an optional sign followed by digits. |
| Decimal.IntToString | backend/apps/abstract/ratelimit.py:30 | `str(i)` is never empty. |
| Decimal.IntRoundTrip | backend/apps/abstract/ratelimit.py:30 | `int(str(i)) == i`. |
| Permissions.HasPermission | backend/apps/blog/permissions.py:13-20 | `has_permission`. Stated by SafeMethodsAlwaysPass and UnsafeNeedsAuthentication. |
| Permissions.HasObjectPermission | backend/apps/blog/permissions.py:22-29 | `has_object_permission`. Stated by SafeMethodsAlwaysPass, UnsafeNeedsAuthorship and OnlyAuthorMayModify. |
| Permissions.SafeMethodsAlwaysPass | backend/apps/blog/permissions.py:18-28 | GET, HEAD and OPTIONS pass both checks for every caller, anonymous included. |
| Permissions.UnsafeNeedsAuthentication | backend/apps/blog/permissions.py:20 | Any other method passes `has_permission` exactly when the caller is authenticated. |
| Permissions.UnsafeNeedsAuthorship | backend/apps/blog/permissions.py:29 | Any other method passes `has_object_permission` exactly when the caller is the object's author. |
| Permissions.OnlyAuthorMayModify | backend/apps/blog/permissions.py:5-29 | A write passes both checks exactly for the author, and never for the anonymous user. |
| Permissions.ViewIsIgnored | backend/apps/blog/permissions.py:13-29 | Neither decision depends on the view. |
| UserModel.Str | backend/apps/users/models.py:91-92 | `CustomUser.__str__`. Stated by StrLayout. |
| UserModel.StrLayout | backend/apps/users/models.py:91-92 | `__str__` is "Email: ", the e-mail, ", Fullname: ", the first name, a space and the last name, each at its position. |
| UserManager.CreateUser | backend/apps/users/manager.py:26-63 | `create_user` on the user table. Stated by MissingNames, EmailCheckedFirst, PasswordRequired, CreateUserOutcome and CreationKeepsTableValid. |
| UserManager.CreateSuperuser | backend/apps/users/manager.py:65-112 | `create_superuser`. Stated by SuperuserExtra, EmailCheckedFirst, PasswordRequired, CreateSuperuserOutcome and CreationKeepsTableValid. |
| UserManager.MissingNames | backend/apps/users/manager.py:26-34 | The call lacks no positional argument exactly when both names are passed. |
| UserManager.Build | backend/apps/users/manager.py:55-61 | The record carries the given e-mail, names, hash and keyword arguments, takes the model defaults for the rest, and has fresh time stamps. |
| UserManager.SuperuserExtra | backend/apps/users/manager.py:94-100 | `is_staff` and `is_superuser` default to True. An explicit False refuses with the matching message, `is_staff` first. |
| UserManager.EmailCheckedFirst | backend/apps/users/manager.py:50-51 | An empty e-mail fails with "Email is required" in `create_user` and in the superuser path's copy of the check (lines 89-90), before the password is looked at. |
| UserManager.PasswordRequired | backend/apps/users/manager.py:52-53 | A non-empty e-mail with an empty password fails with "Password is required", in both paths (the superuser check is at lines 91-92). |
| UserManager.CreateUserOutcome | backend/apps/users/manager.py:26-63 | `create_user` succeeds exactly when both names are passed, e-mail and password are non-empty, and the normalised e-mail is free. Then one row is added under the fresh key and returned. |
| UserManager.CreateSuperuserOutcome | backend/apps/users/manager.py:65-112 | `create_superuser` succeeds under the same guards plus the flag checks, and stores the e-mail as given, not normalised. The saved user is staff and superuser. |
| UserManager.CreationKeepsTableValid | backend/apps/users/models.py:55-57 | Both creation paths keep e-mails unique and every row under its own key. |
| TimeStamps.OnCreate | backend/apps/abstract/models.py:18-28 | A new row has created and updated set to now, and no deletion time. |
| TimeStamps.OnSave | backend/apps/abstract/models.py:21-23 | A save moves only `updated_at`, to now. |
| TimeStamps.SoftDeleted | backend/apps/abstract/models.py:33-47 | The intended soft delete sets `deleted_at` to now and leaves both other stamps alone. |
| TimeStamps.HistoryKeepsCreation | backend/apps/abstract/models.py:18-28 | After any sequence of saves, `created_at` is the first time, `updated_at` the last time, and `deleted_at` is unset. |
| BlogModels.Without | backend/apps/blog/models.py:107-111 | Removing one tag from a post's links keeps exactly the other links, each still once. |
| BlogModels.Distinct | backend/apps/blog/models.py:107-111 | `tags.set(...)` links each given tag exactly once. |
| BlogModels.InsertCategory | backend/apps/blog/models.py:35-39 | Saving a category under a fresh key. Stated by InsertCategoryRule. |
| BlogModels.InsertTag | backend/apps/blog/models.py:57-62 | Saving a tag under a fresh key. Stated by InsertTagRule. |
| BlogModels.InsertPost | backend/apps/blog/models.py:89-117 | Saving a post and its tag links. Stated by InsertPostSucceeds, InsertPostRule, InsertPostStores and InsertPostKeepsStatuses. |
| BlogModels.UpdatePost | backend/apps/blog/models.py:89-117 | `post.save()` after an update. Stated by UpdatePostRule and UpdatePostKeepsIntegrity. |
| BlogModels.InsertComment | backend/apps/blog/models.py:138-150 | Saving a comment. Stated by InsertCommentRule. |
| BlogModels.InsertUser | backend/apps/users/models.py:55-57 | Saving a user row. Stated by InsertUserRule. |
| BlogModels.DeleteComment | backend/apps/blog/models.py:123-150 | `comment.delete()`. Stated by DeleteCommentRule and DeleteCommentKeepsIntegrity. |
| BlogModels.DeletePost | backend/apps/blog/models.py:138-142 | `post.delete()` with its CASCADE. Stated by DeletePostRule, DeletePostReferences and DeletePostKeepsIntegrity. |
| BlogModels.DeleteUser | backend/apps/blog/models.py:89-148 | `user.delete()` with both CASCADE paths. Stated by DeleteUserRule, DeleteUserReferences, DeleteUserKeepsIntegrity and DeleteUserTakesOthersComments. |
| BlogModels.DeleteCategory | backend/apps/blog/models.py:99-105 | `category.delete()` with SET NULL. Stated by DeleteCategoryRule, DeleteCategoryRelinks, DeleteCategoryLinks and DeleteCategoryKeepsIntegrity. |
| BlogModels.DeleteTag | backend/apps/blog/models.py:107-111 | `tag.delete()` and its links. Stated by DeleteTagRule, DeleteTagRelinks, DeleteTagLinks and DeleteTagKeepsIntegrity. |
| BlogModels.SoftDelete | backend/apps/abstract/models.py:33-47 | The intended soft delete. Stated by SoftDeleteRule and SoftDeleteKeepsIntegrity. |
| BlogRules.StorePost | backend/apps/blog/models.py:89-111 | Storing a post whose author, category and tags exist and whose slug is free keeps the store sound. |
| BlogRules.InsertCategoryRule | backend/apps/blog/models.py:35-39 | A category is stored exactly when its name and slug are both free. It is then the only change, and the store stays sound. |
| BlogRules.InsertTagRule | backend/apps/blog/models.py:57-62 | A tag is stored exactly when its name and slug are both free. It is then the only change, and the store stays sound. |
| BlogRules.InsertPostSucceeds | backend/apps/blog/models.py:89-111 | A post is stored exactly when its author, category and tags exist and its slug is free. |
| BlogRules.InsertPostRule | backend/apps/blog/models.py:85-117 | A new post keeps the store sound and changes no other row. It has the given author and slug, the given title and body (empty when left out), the given category (none when left out), the given status or "draft", each given tag once, and fresh stamps. |
| BlogRules.InsertPostStores | backend/apps/blog/models.py:89-96 | A stored post is under its key with its author and slug. |
| BlogRules.InsertPostKeepsStatuses | backend/apps/blog/models.py:85-117 | If every status is draft or published, a post written with a status among the choices (or the default) keeps it so. |
| BlogRules.UpdatePostRule | backend/apps/abstract/models.py:18-23 | A save changes only that post. Author, slug and `created_at` stay, and `updated_at` becomes now. Title, body, status and category take the given values or keep the old ones, and the linked tags are exactly the given ones or the old ones. A save that touches no link always succeeds. |
| BlogRules.UpdatePostKeepsIntegrity | backend/apps/blog/models.py:89-111 | A saved post still names stored rows and keeps a free slug. |
| BlogRules.InsertCommentRule | backend/apps/blog/models.py:138-148 | A comment is stored exactly when its post and author exist. It is the only change, and the store stays sound. |
| BlogRules.InsertUserRule | backend/apps/users/models.py:55-57 | A new user with a fresh key and a free e-mail keeps the store sound. |
| BlogRules.DeleteCommentRule | backend/apps/blog/models.py:123-150 | Deleting a comment removes that row and changes nothing else. |
| BlogRules.DeleteCommentKeepsIntegrity | backend/apps/blog/models.py:138-148 | Deleting a comment keeps the store sound and the key bound. |
| BlogRules.DeletePostRule | backend/apps/blog/models.py:138-142 | Deleting a post removes it and exactly the comments on it, and keeps every other row unchanged. |
| BlogRules.DeletePostReferences | backend/apps/blog/models.py:138-142 | After deleting a post, no comment names it. |
| BlogRules.DeletePostKeepsIntegrity | backend/apps/blog/models.py:138-142 | Deleting a post keeps the store sound and the key bound. |
| BlogRules.DeleteUserRule | backend/apps/blog/models.py:89-148 | Deleting a user removes the user, the user's posts, and every comment written by the user or placed on those posts. Nothing else goes, and what stays is unchanged. |
| BlogRules.DeleteUserReferences | backend/apps/blog/models.py:89-148 | After deleting a user, no post or comment names the user or a removed post. |
| BlogRules.DeleteUserKeepsIntegrity | backend/apps/blog/models.py:89-148 | Deleting a user keeps the store sound and the key bound. |
| BlogRules.DeleteUserTakesOthersComments | backend/apps/blog/models.py:89-142 | Another user's comment on a post by the deleted user goes too: the two cascades compose. |
| BlogRules.DeleteCategoryRule | backend/apps/blog/models.py:99-105 | Deleting a category keeps every post. Its posts lose the category and are otherwise unchanged, `updated_at` included. Other posts are untouched. |
| BlogRules.DeleteCategoryKeepsIntegrity | backend/apps/blog/models.py:99-105 | Deleting a category keeps the store sound and the key bound. |
| BlogRules.DeleteCategoryRelinks | backend/apps/blog/models.py:99-105 | Deleting a category only clears links and removes that category. |
| BlogRules.DeleteCategoryLinks | backend/apps/blog/models.py:99-105 | After deleting a category, every post's links name stored rows. |
| BlogRules.DeleteTagRule | backend/apps/blog/models.py:107-111 | Deleting a tag keeps every post. Each loses exactly that tag from its links and is otherwise unchanged. |
| BlogRules.DeleteTagKeepsIntegrity | backend/apps/blog/models.py:107-111 | Deleting a tag keeps the store sound and the key bound. |
| BlogRules.DeleteTagRelinks | backend/apps/blog/models.py:107-111 | Deleting a tag only drops links and removes that tag. |
| BlogRules.DeleteTagLinks | backend/apps/blog/models.py:107-111 | After deleting a tag, every post links only stored tags, each once. |
| BlogRules.SoftDeleteRule | backend/apps/abstract/models.py:33-47 | A soft delete removes no row. For each of the five tables, the marked row is its old value with `deleted_at` set to now, and every other row is unchanged. |
| BlogRules.SoftDeleteKeepsIntegrity | backend/apps/abstract/models.py:33-47 | A soft delete keeps the store sound. |
| Database.Store.constructor | backend/apps/blog/models.py:23-150 | The store starts empty and sound. |
| Database.Store.CreateUser | backend/apps/users/manager.py:26-63 | The store changes exactly as `create_user` says: one new user under the next key, or no change with the error. |
| Database.Store.CreateSuperuser | backend/apps/users/manager.py:65-112 | The store changes exactly as `create_superuser` says, and stays sound. |
| Database.Store.Commit | backend/apps/users/manager.py:61-62 | Saving a manager outcome adds its row or changes nothing, and keeps the store sound. |
| Database.Store.AddCategory | backend/apps/blog/models.py:35-39 | The category insert as `InsertCategory` says: the next key on success, nothing changed on failure. |
| Database.Store.AddTag | backend/apps/blog/models.py:57-62 | The tag insert as `InsertTag` says. |
| Database.Store.AddPost | backend/apps/blog/models.py:89-117 | The post insert as `InsertPost` says. |
| Database.Store.SavePost | backend/apps/abstract/models.py:21-23 | A post save as `UpdatePost` says. The key counter is unchanged. |
| Database.Store.AddComment | backend/apps/blog/models.py:138-148 | The comment insert as `InsertComment` says. |
| Database.Store.RemoveComment | backend/apps/blog/models.py:123-150 | The tables become `DeleteComment` of the old ones, and the store stays sound. |
| Database.Store.RemovePost | backend/apps/blog/models.py:138-142 | The tables become `DeletePost` of the old ones, and the store stays sound. |
| Database.Store.RemoveUser | backend/apps/blog/models.py:89-148 | The tables become `DeleteUser` of the old ones, and the store stays sound. |
| Database.Store.RemoveCategory | backend/apps/blog/models.py:99-105 | The tables become `DeleteCategory` of the old ones, and the store stays sound. |
| Database.Store.RemoveTag | backend/apps/blog/models.py:107-111 | The tables become `DeleteTag` of the old ones, and the store stays sound. |
| Database.Store.MarkDeleted | backend/apps/abstract/models.py:33-47 | The tables become `SoftDelete` of the old ones, and the store stays sound. |
| Fields.Absent | backend/apps/blog/serializers.py:89-110 | A missing field is skipped exactly on a partial write or when it is optional. Otherwise it is "This field is required." |
| Fields.TextValue | backend/apps/users/auth/serializers.py:35-42 | A string or integer whose trimmed text is non-blank is accepted as that trimmed text. Null, blank and other types are refused. |
| Fields.CharErrors | backend/apps/users/auth/serializers.py:35-42 | No message exactly when the text is within both bounds and has no NUL character. |
| Fields.CharField | backend/apps/users/auth/serializers.py:35-42 | A `CharField` yields the trimmed text exactly when it is non-blank, within the bounds and free of NUL. It is skipped exactly when absent and not needed. |
| Fields.EmailField | backend/apps/users/auth/serializers.py:84 | An `EmailField` accepts the trimmed text exactly when it is free (if checked), within the length, free of NUL, and an address. |
| Fields.TakenEmailFirst | backend/apps/users/models.py:55-57 | A stored address is refused, and the uniqueness message comes first. |
| Fields.TooShortRefused | backend/apps/users/auth/serializers.py:35-42 | A text below the minimum gets the minimum-length message alone. |
| Fields.ChoiceField | backend/apps/blog/models.py:113-117 | A choice field accepts `str(input)` exactly when it is one of the choices. |
| Fields.PkValue | backend/apps/blog/serializers.py:100-110 | A primary-key lookup succeeds exactly for an integer, or integer text, naming a stored row. |
| Fields.NullablePkField | backend/apps/blog/models.py:99-105 | For the nullable category: null and the empty string clear it, and any other value must name a stored row. |
| Fields.PkItems | backend/apps/blog/models.py:107-111 | A list is accepted exactly when every item names a stored row, and then gives those keys in order. |
| Fields.PkListField | backend/apps/blog/models.py:107-111 | A tag list is accepted exactly when it is a list of stored keys. |
| AuthSerializers.ValidateRegistration | backend/apps/users/auth/serializers.py:20-53 | `RegistrationSerializer.is_valid()`. Stated by RegistrationFieldsRequired, RegistrationAccepted, MismatchRefused, ShortPasswordRefused and TakenEmailRefused. |
| AuthSerializers.ValidateLogin | backend/apps/users/auth/serializers.py:71-107 | `LoginSerializer.is_valid()`. Stated by LoginOutcome and LoginJson. |
| AuthSerializers.TokensJson | backend/apps/users/auth/serializers.py:63-68 | `get_tokens` has exactly `access` and `refresh`. |
| AuthSerializers.RegistrationFieldsRequired | backend/apps/users/auth/serializers.py:35-48 | E-mail, password and confirmation are never skipped. The field errors are empty exactly when all three pass. |
| AuthSerializers.RegistrationAccepted | backend/apps/users/auth/serializers.py:35-53 | A registration is accepted exactly when the body is an object, the address is free and valid, both passwords pass and they match. The values are the trimmed inputs: at least 8 characters, a free e-mail of at most 254. |
| AuthSerializers.MismatchRefused | backend/apps/users/auth/serializers.py:50-53 | Valid fields with differing passwords give the one error `password: "Passwords must match!"`. |
| AuthSerializers.ShortPasswordRefused | backend/apps/users/auth/serializers.py:35-38 | A password under 8 characters is refused with the minimum-length message, whatever the other fields say. |
| AuthSerializers.TakenEmailRefused | backend/apps/users/models.py:55-57 | A stored e-mail is refused first, on `email`, with the uniqueness message. |
| AuthSerializers.CreateAsWrittenFails | backend/apps/users/auth/serializers.py:55-61 | `create` as written always fails. The manager lacks `first_name` and `last_name`, and nothing is saved. |
| AuthSerializers.AcceptedRegistrationNonEmpty | backend/apps/users/manager.py:50-53 | An accepted registration has a non-empty e-mail and a password of at least 8 characters, so it passes the manager's guards. |
| AuthSerializers.CreateFixedOutcome | backend/apps/users/manager.py:26-63 | With the names passed, the user is saved exactly when the normalised e-mail is free, otherwise IntegrityError. The user is active and not staff, with the hashed password. |
| AuthSerializers.RegistrationJson | backend/apps/users/auth/serializers.py:44-48 | The registration output has exactly `email` and `tokens`, and `tokens` is `get_tokens`. |
| AuthSerializers.RegistrationShowsOnlyEmail | backend/apps/users/auth/serializers.py:35-48 | Apart from the tokens, the output depends on the saved user's e-mail alone. |
| AuthSerializers.LoginOutcome | backend/apps/users/auth/serializers.py:90-107 | A login succeeds exactly when the fields pass and `authenticate` finds a user. A missing user gives the single error "Invalid email or password". Success gives that user's e-mail and the tokens minted for it. |
| AuthSerializers.LoginJson | backend/apps/users/auth/serializers.py:103-107 | The login data has exactly `email`, `access` and `refresh`. |
| AuthSerializers.OutputsHaveNoPassword | backend/apps/users/auth/serializers.py:35-107 | No output field names a password. |
| AuthViews.LoginView | backend/apps/users/auth/views.py:33-54 | `login`. Stated by LoginStatus and NotAnObjectAnswers. |
| AuthViews.RegisterAsWritten | backend/apps/users/auth/views.py:62-83 | `register` as written. Stated by RegisterNeverCreates and NotAnObjectAnswers. |
| AuthViews.RegisterResponse | backend/apps/users/auth/views.py:74-83 | The corrected `register` answer. Stated by RegisterFixedRule. |
| AuthViews.RefreshView | backend/apps/users/auth/views.py:91-112 | `token`. Stated by RefreshStatus and NotAnObjectAnswers. |
| AuthViews.NotAnObjectAnswers | backend/apps/users/auth/views.py:45-112 | A body that is not an object gets 400 from all three actions. The one `non_field_errors` message is "No data provided" for `null`, and the expected-a-dictionary message otherwise. |
| AuthViews.LoginStatus | backend/apps/users/auth/views.py:33-54 | For a request without a bearer header, login answers 200 or 400. It is 200 exactly when the fields pass and a user is found, with that user's login data and those keys only. Bad credentials give 400 with the generic error. |
| AuthViews.Register | backend/apps/users/auth/views.py:62-83 | Registration as written answers `RegisterAsWritten` and leaves the store exactly as it was. |
| AuthViews.RegisterNeverCreates | backend/apps/users/auth/views.py:74-83 | As written, registration never answers 201. For a request without a bearer header it is 400 exactly for an invalid body and 500 exactly for a valid one. |
| AuthViews.RegisterFixed | backend/apps/users/auth/views.py:74-83 | Corrected registration answers `RegisterResponse`. It saves one user under the next key on success and nothing otherwise. |
| AuthViews.RegisterFixedRule | backend/apps/users/auth/views.py:74-83 | It is 400 exactly for an invalid body, and 201 exactly for a valid body whose normalised e-mail is free. A collision raises IntegrityError. On success it adds one user under the next key and answers the e-mail and tokens. |
| AuthViews.RefreshStatus | backend/apps/users/auth/views.py:91-112 | For a request without a bearer header, refresh answers 200, 400 or 401. It is not 400 exactly when `refresh` is a usable string. It is 200 with the token pair exactly when the library refreshes it. A TokenError gives 401 with the message and code `token_not_valid`. |
| DateFormat.FromTimestamp | backend/settings/base.py:188-190 | Every instant maps to a valid UTC calendar time from 1970 on. |
| DateFormat.TimestampRoundTrip | backend/settings/base.py:188-190 | The calendar time converts back to the same instant. |
| DateFormat.CalendarRoundTrip | backend/settings/base.py:188-190 | Every calendar time from 1970 is the conversion of exactly one instant. |
| DateFormat.Format | backend/apps/blog/serializers.py:70-71 | `strftime("%H:%M %d-%m-%Y")`. Stated by Two, FormatLayout, FormatRoundTrip and FormatInjective. |
| DateFormat.Show | backend/apps/users/serializers.py:18-21 | An instant in the display format. Stated by ProfileDateJoined and FormatInjective. |
| DateFormat.Two | backend/apps/blog/serializers.py:70 | `%H`, `%M`, `%d` and `%m` are two zero-padded digits with the field's value. |
| DateFormat.FormatLayout | backend/apps/blog/serializers.py:70-71 | The separators are `:`, space, `-`, `-` at positions 2, 5, 8 and 11, with digits elsewhere. A four-digit year gives 16 characters. |
| DateFormat.FormatRoundTrip | backend/apps/blog/serializers.py:70-71 | Reading the text back gives the time to the minute. |
| DateFormat.FormatInjective | backend/apps/users/serializers.py:18-21 | Two times print the same exactly when they agree to the minute. |
| UserSerializers.Profile | backend/apps/users/serializers.py:13-36 | The profile representation. Stated by ProfileKeys, ProfileFieldsPublic, ProfileDateJoined and ProfileShowsOnlyPublicFields. |
| UserSerializers.ValidateProfile | backend/apps/users/serializers.py:13-32 | What the serializer accepts as a change. Stated by EmailInput, ProfileReadOnlyIgnored, AvatarChange and AcceptedChange. |
| UserSerializers.ApplyProfile | backend/apps/users/serializers.py:23-32 | The accepted change assigned to the user. Stated by ProfileReadOnlyIgnored, AvatarChange and ProfileChangeKeepsTable. |
| UserSerializers.AvatarInput | backend/apps/users/models.py:77-81 | The optional, nullable `avatar` input: absent is skipped, null is accepted as no picture, and any other value is refused with the not-a-file message. |
| UserSerializers.AvatarJson | backend/apps/users/models.py:77-81 | The avatar is null exactly when there is no file or an empty name. |
| UserSerializers.ProfileKeys | backend/apps/users/serializers.py:23-32 | The profile has exactly `id`, `email`, `first_name`, `last_name`, `avatar` and `date_joined`, in order. |
| UserSerializers.ProfileFieldsPublic | backend/apps/users/serializers.py:23-32 | None of those keys is the password, a flag or the last login. |
| UserSerializers.ProfileDateJoined | backend/apps/users/serializers.py:18-21 | `date_joined` is the join time written as `"%H:%M %d-%m-%Y"`, and reads back to that time to the minute. |
| UserSerializers.ProfileShowsOnlyPublicFields | backend/apps/users/serializers.py:23-36 | Users who agree on the public fields have the same profile, whatever their password or flags. `to_representation` changes nothing. |
| UserSerializers.EmailInput | backend/apps/users/models.py:55-57 | An accepted e-mail change names no other user's address. |
| UserSerializers.ProfileReadOnlyIgnored | backend/apps/users/serializers.py:18-21 | Input for `id`, `date_joined` or undeclared keys changes nothing (`avatar` is writable; see AvatarChange). An accepted change keeps the key, join time, password and flags. |
| UserSerializers.AvatarChange | backend/apps/users/serializers.py:23-32 | A non-null `avatar` is refused with the not-a-file message. An accepted change with `avatar` clears the picture, and one without it keeps it. |
| UserSerializers.AcceptedChange | backend/apps/users/models.py:55-64 | An accepted change carries a free e-mail and names of at most 50 characters. |
| UserSerializers.ProfileChangeKeepsTable | backend/apps/users/models.py:55-64 | Applying an accepted change keeps the e-mails unique and the names within bounds. |
| UserSerializers.StoreKeepsUnique | backend/apps/users/models.py:55-57 | Replacing a row keeps e-mails unique when no other row has the new e-mail. |
| BlogSerializers.AuthorJson | backend/apps/blog/serializers.py:17-30 | `AuthorSerializer`. Stated by AuthorIsPublic, AuthorShowsOnlyPublicFields and RepresentationKeys. |
| BlogSerializers.CategoryJson | backend/apps/blog/serializers.py:33-44 | `CategorySerializer`. Stated by RepresentationKeys and PostGetCategory. |
| BlogSerializers.TagJson | backend/apps/blog/serializers.py:47-58 | `TagSerializer`. Stated by RepresentationKeys and PostGetTags. |
| BlogSerializers.PostGet | backend/apps/blog/serializers.py:61-86 | `PostGetSerializer`. Stated by PostGetValues, PostGetMember, PostGetAuthor, PostGetCategory, PostGetTags and PostFieldsAgree. |
| BlogSerializers.PostWrite | backend/apps/blog/serializers.py:89-110 | The `PostCreateUpdateSerializer` representation. Stated by TagKeys, PostWriteLinks and PostFieldsAgree. |
| BlogSerializers.ValidatePost | backend/apps/blog/serializers.py:89-110 | `PostCreateUpdateSerializer.is_valid()`. Stated by FieldsAccepted, ReadOnlyIgnored, TitleRequired, BodyRequired, NotAnObjectRefused and ValidatedPostIsWellFormed. |
| BlogSerializers.CategoryOf | backend/apps/blog/serializers.py:67 | The nested category is null exactly when the post has none. |
| BlogSerializers.TagsOf | backend/apps/blog/serializers.py:68 | The nested tags are each linked tag's `TagSerializer` form, in link order. |
| BlogSerializers.PostGetValues | backend/apps/blog/serializers.py:61-86 | The GET values are the nested author at 1, the category at 5 and the tags at 6. |
| BlogSerializers.TagKeys | backend/apps/blog/serializers.py:100-110 | The written tags are their keys, in link order. |
| BlogSerializers.RepresentationKeys | backend/apps/blog/serializers.py:17-110 | Every representation (author, category, tag, post GET, post write) has exactly its declared fields, in order. |
| BlogSerializers.AuthorIsPublic | backend/apps/blog/serializers.py:17-30 | No author field is the password, a flag or the last login. |
| BlogSerializers.AuthorShowsOnlyPublicFields | backend/apps/blog/serializers.py:17-30 | Authors who agree on id, e-mail, names and avatar render the same. |
| BlogSerializers.PostFieldsAgree | backend/apps/blog/serializers.py:75-110 | The GET fields are the write fields plus `updated_at`, which the write form lacks. |
| BlogSerializers.PostGetMember | backend/apps/blog/serializers.py:61-86 | Each GET member pairs its field name with its value. |
| BlogSerializers.PostGetAuthor | backend/apps/blog/serializers.py:66 | The GET form nests the author's `AuthorSerializer` form. |
| BlogSerializers.PostGetCategory | backend/apps/blog/serializers.py:67 | The GET form nests the category's form, or null. |
| BlogSerializers.PostGetTags | backend/apps/blog/serializers.py:68 | The GET form nests the tags' forms, in link order. |
| BlogSerializers.PostWriteLinks | backend/apps/blog/serializers.py:94-110 | The write form shows author, category and tags as keys. |
| BlogSerializers.ReadOnlyIgnored | backend/apps/blog/serializers.py:94-96 | Values sent for `author`, `slug`, `created_at`, `id` or undeclared keys make no difference to validation. |
| BlogSerializers.TitleWellFormed | backend/apps/blog/models.py:95 | An accepted title has 1 to 200 characters and no surrounding white space. |
| BlogSerializers.BodyWellFormed | backend/apps/blog/models.py:97 | An accepted body is not blank and is trimmed. |
| BlogSerializers.ValidatedPostIsWellFormed | backend/apps/blog/serializers.py:89-110 | Accepted content has a bounded trimmed title, a non-blank body, a status among the choices, and an existing category and tags. A full write has title and body. |
| BlogSerializers.FieldsAccepted | backend/apps/blog/serializers.py:89-110 | Validation succeeds exactly when no writable field is invalid, and then carries each field's value. |
| BlogSerializers.TitleRequired | backend/apps/blog/serializers.py:100-110 | A full write without a title is refused, first with `title: "This field is required."`. |
| BlogSerializers.BodyRequired | backend/apps/blog/serializers.py:100-110 | A full write without a body is refused with `body: "This field is required."`. |
| BlogSerializers.EmptyCategoryIsNull | backend/apps/blog/models.py:99-105 | A category sent as the empty string validates exactly as `null`, so an accepted post has no category. |
| BlogSerializers.NotAnObjectRefused | backend/apps/blog/serializers.py:89-110 | A body that is not an object is refused as a whole under `non_field_errors`: with "No data provided" for `null`, and with the expected-a-dictionary message for any other value. |
| BlogSerializers.CreatedPostBelongsToUser | backend/apps/blog/serializers.py:94-95 | A post created from validated input belongs to the given user and has the given slug, whatever `author` the client sent. |
| BlogSerializers.CreatedPostStatusValid | backend/apps/blog/models.py:85-117 | A post created from validated input keeps every status draft or published. |
| BlogSerializers.AcceptedStatus | backend/apps/blog/models.py:113-117 | An accepted status is one of the choices. |

## Left out

- Concurrency of the rate limiter: the cache reads and writes are not atomic. Only sequential behaviour is modelled.
- Cache culling: LocMemCache evicts entries when it is full. Only expiry is modelled.
- Clock: `int(time.time())` is an integer parameter.
- RateLimit.AtMostNPerWindow: stated for calls counted on the key that all parse to one rate. The key holds `func.__name__`, so two rate-limited handlers with the same name but different rates would share a key, and the bound is not stated for them.
- RateLimit.LiveSlotIsInsideWindow: holds on the model's one integer clock. The cache expires entries on the fractional `time.time() + timeout`, while `start_time` is whole seconds, so a still-live entry can reach the reset branch in the last fraction of a second of its window. ExpiredEntryOpensWindow shows that this writes the same slot as a dropped entry.
- Where the limiter is used: no view of the repository applies the decorator, so it is modelled unapplied.
- Key function: `key_func` is a parameter returning an optional string. Its f-string rendering shows `None` as "None".
- Rate N: `int()` of N is modelled on the ASCII sign-and-digits form. Surrounding white space and `_` separators are not accepted.
- Fields.PkValue: a primary key sent as text is read with the same sign-and-digits form, where Django's `int()` also accepts surrounding white space and `_` separators (for example " 5").
- Token contents: issuance, verification, expiry, rotation and blacklisting belong to the JWT library and are opaque. A refresh outcome is a parameter.
- DRF serializer internals: the refresh serializer is reduced to its one `refresh` field and the library's verdict.
- Foreign Django calls: `authenticate()`, `normalize_email` and the password hasher are opaque functions.
- E-mail address check: the address check of `EmailField` is a parameter.
- White space: `str.strip()` is restricted to ASCII white space. There is no Unicode white space.
- Representations: `repr` of a string does not model escapes. Request bodies have no floats or nested objects.
- Slugs: derivation and the list-visibility rules are not implemented by the code (the post views are empty), so slugs are inputs.
- BlogSerializers.CreatedPostBelongsToUser: stated over inserting the validated input with the requesting user as author. The post view that would call `save(author=...)` is empty.
- Avatar: upload and storage belong to the storage backend. The URL of a stored file is a parameter.
- UserSerializers.AvatarInput: request bodies are JSON values and carry no uploaded file, so only null is accepted. Multipart uploads of a picture are not modelled.
- BlogModels.InsertPost: checks the foreign keys before the slug's UNIQUE constraint, and writes the post row and its tag links as one step. On SQLite, foreign keys are checked at commit, so UNIQUE fails first, and `tags.set` runs after the row is saved. The serializer has already checked the links, so the two orders differ only under concurrent writes.
- Keys: one counter hands out primary keys for all tables, where the database keeps one sequence per table.
- Tag order: the order of a post's tags is the link order. The database does not promise one.
- Name and title lengths: these bounds are checked only where a serializer validates. SQLite does not enforce varchar lengths on save.
- Post status: the choice is enforced only where a serializer validates.
- Dates: Python's `datetime` stops at year 9999, while the model's calendar has no upper bound. The format is proved for any year, and has sixteen characters for four-digit years.
- Soft delete: the override nested in `class Meta` has no effect, so deletes are hard. The intended soft delete is the separate `SoftDelete`.
- Callers of the soft delete: which rows the access layer soft-deletes is not part of this model.
- Profile changes: the profile view is read-only. Profile validation is stated over an object body only.
- Authentication: the auth views use `AllowAny`, but the configured JWT authentication still runs before any view body. A request whose `Authorization: Bearer` token is invalid or expired gets 401 `token_not_valid` from login, register and refresh alike. JWT verification is outside the model, and the view answers are those for requests without a bearer header.
- Outside the core: pagination, admin, Redis notifications, URL routing and settings are not part of this model.

## Findings

| source | as written | input that shows it | evidently intended | confidence | as-written member | corrected member |
|---|---|---|---|---|---|---|
| backend/apps/users/auth/serializers.py:55-61 | `create` calls `create_user(email=..., password=...)`, but `create_user` (backend/apps/users/manager.py:26-34) requires `first_name` and `last_name` positionally. Every valid registration raises TypeError, answers 500 and saves nothing. | `{"email": "a@x.com", "password": "longpass1", "password_confirm": "longpass1"}` on an empty user table | a valid registration creates the user and answers 201 with the e-mail and tokens | not executed | AuthSerializers.CreateAsWrittenFails, AuthViews.Register, AuthViews.RegisterNeverCreates | AuthSerializers.CreateFixedOutcome, AuthViews.RegisterFixed, AuthViews.RegisterFixedRule |
