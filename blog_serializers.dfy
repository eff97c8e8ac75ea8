/**
 * The blog's serializers: how authors, categories, tags and posts are
 * shown, which post fields a client may write, and how those inputs are
 * validated before a post is saved.
 */
module BlogSerializers {
  import opened Wrappers
  import opened UserModel
  import opened BlogModels
  import opened JsonValues
  import Fields
  import DateFormat
  import Text
  import UserSerializers
  import BlogRules

  const AuthorFields: seq<string> := ["id", "email", "first_name", "last_name", "avatar"]
  const CategoryFields: seq<string> := ["id", "name", "slug"]
  const TagFields: seq<string> := ["id", "name", "slug"]
  const PostWriteFields: seq<string> :=
    ["id", "author", "title", "slug", "body", "category", "tags", "status", "created_at"]
  const PostGetFields: seq<string> :=
    ["id", "author", "title", "slug", "body", "category", "tags", "status", "created_at", "updated_at"]
  /** Shown by the create/update serializer but never taken from its input. */
  const PostReadOnly: set<string> := {"id", "author", "slug", "created_at"}
  /** The only post fields a client can set. */
  const PostWritable: set<string> := {"title", "body", "category", "tags", "status"}

  /** `AuthorSerializer`. */
  function AuthorJson(u: CustomUser, url: string -> string): (j: Json)
  {
    Record(AuthorFields, [
      JInt(u.id), JStr(u.email), JStr(u.firstName), JStr(u.lastName), UserSerializers.AvatarJson(u.avatar, url)])
  }

  /** `CategorySerializer`. */
  function CategoryJson(c: Category): (j: Json)
  {
    Record(CategoryFields, [JInt(c.id), JStr(c.name), JStr(c.slug)])
  }

  /** `TagSerializer`. */
  function TagJson(g: Tag): (j: Json)
  {
    Record(TagFields, [JInt(g.id), JStr(g.name), JStr(g.slug)])
  }

  /** The links of a post exist: what the foreign keys guarantee. */
  predicate Linked(t: Tables, p: Post)
  {
    && p.author in t.users
    && (p.category.Some? ==> p.category.value in t.categories)
    && (forall g | g in p.tags :: g in t.tags)
  }

  /** The nested category: `null` when the post has none. */
  function CategoryOf(t: Tables, c: Option<nat>): (j: Json)
    requires c.Some? ==> c.value in t.categories
    ensures j == JNull <==> c.None?
  {
    if c.Some? then CategoryJson(t.categories[c.value]) else JNull
  }

  /** The nested tags, in link order. */
  function TagsOf(t: Tables, tags: seq<nat>): (j: Json)
    requires forall g | g in tags :: g in t.tags
    ensures j.JArr? && |j.items| == |tags|
    ensures forall i | 0 <= i < |tags| :: j.items[i] == TagJson(t.tags[tags[i]])
  {
    JArr(seq(|tags|, i requires 0 <= i < |tags| => TagJson(t.tags[tags[i]])))
  }

  /** The values `PostGet` pairs with its fields, in order, given the two stamps as shown. */
  function PostGetValues(t: Tables, p: Post, url: string -> string, created: string, updated: string): (v: seq<Json>)
    requires Linked(t, p)
    ensures |v| == |PostGetFields|
    ensures v[1] == AuthorJson(t.users[p.author], url)
    ensures v[5] == CategoryOf(t, p.category) && v[6] == TagsOf(t, p.tags)
  {
    [JInt(p.id), AuthorJson(t.users[p.author], url), JStr(p.title), JStr(p.slug), JStr(p.body),
     CategoryOf(t, p.category), TagsOf(t, p.tags), JStr(p.status),
     JStr(created), JStr(updated)]
  }

  /** `PostGetSerializer`: author, category and tags nested, both stamps shown. */
  function PostGet(t: Tables, p: Post, url: string -> string): (j: Json)
    requires Linked(t, p)
  {
    Record(PostGetFields,
      PostGetValues(t, p, url, DateFormat.Show(p.stamps.createdAt), DateFormat.Show(p.stamps.updatedAt)))
  }

  /** The tags as `PrimaryKeyRelatedField(many=True)` shows them: their keys, in link order. */
  function TagKeys(tags: seq<nat>): (j: Json)
    ensures j.JArr? && |j.items| == |tags|
    ensures forall i | 0 <= i < |tags| :: j.items[i] == JInt(tags[i])
  {
    JArr(seq(|tags|, i requires 0 <= i < |tags| => JInt(tags[i])))
  }

  /** `PostCreateUpdateSerializer`'s output: relations as keys, no `updated_at`. */
  function PostWrite(p: Post): (j: Json)
  {
    Record(PostWriteFields, [
      JInt(p.id), JInt(p.author), JStr(p.title), JStr(p.slug), JStr(p.body),
      if p.category.Some? then JInt(p.category.value) else JNull, TagKeys(p.tags),
      JStr(p.status), JStr(DateFormat.Show(p.stamps.createdAt))])
  }

  /** Each representation shows exactly its declared fields, in order. */
  lemma RepresentationKeys(t: Tables, u: CustomUser, c: Category, g: Tag, p: Post, url: string -> string)
    requires Linked(t, p)
    ensures Keys(AuthorJson(u, url).members) == AuthorFields
    ensures Keys(CategoryJson(c).members) == CategoryFields
    ensures Keys(TagJson(g).members) == TagFields
    ensures Keys(PostGet(t, p, url).members) == PostGetFields
    ensures Keys(PostWrite(p).members) == PostWriteFields
  {
  }

  /** No field an author shows is private. */
  lemma AuthorIsPublic()
    ensures forall k | k in AuthorFields :: k !in UserSerializers.Private
  {
  }

  /** An author is shown by the public fields alone: password and flags make no difference. */
  lemma AuthorShowsOnlyPublicFields(u: CustomUser, v: CustomUser, url: string -> string)
    requires u.id == v.id && u.email == v.email && u.firstName == v.firstName
    requires u.lastName == v.lastName && u.avatar == v.avatar
    ensures AuthorJson(u, url) == AuthorJson(v, url)
  {
  }

  /** The two post representations share their first nine fields; the read one adds `updated_at`. */
  lemma PostFieldsAgree()
    ensures PostGetFields == PostWriteFields + ["updated_at"] && "updated_at" !in PostWriteFields
  {
  }

  lemma PostGetMember(t: Tables, p: Post, url: string -> string, i: nat)
    requires Linked(t, p) && i < |PostGetFields|
    ensures var v := PostGetValues(t, p, url, DateFormat.Show(p.stamps.createdAt), DateFormat.Show(p.stamps.updatedAt));
      |v| == |PostGetFields| && PostGet(t, p, url).members[i] == (PostGetFields[i], v[i])
  {
  }

  /** The read representation nests the post's author as `AuthorSerializer` shows it. */
  lemma PostGetAuthor(t: Tables, p: Post, url: string -> string)
    requires Linked(t, p)
    ensures PostGet(t, p, url).members[1].1 == AuthorJson(t.users[p.author], url)
  {
    PostGetMember(t, p, url, 1);
  }

  /** It nests the post's category, or `null` for none. */
  lemma PostGetCategory(t: Tables, p: Post, url: string -> string)
    requires Linked(t, p)
    ensures PostGet(t, p, url).members[5].1 == (if p.category.Some? then CategoryJson(t.categories[p.category.value]) else JNull)
  {
    PostGetMember(t, p, url, 5);
  }

  /** It nests the post's tags in link order. */
  lemma PostGetTags(t: Tables, p: Post, url: string -> string)
    requires Linked(t, p)
    ensures var g := PostGet(t, p, url).members[6].1;
      && g.JArr? && |g.items| == |p.tags|
      && forall i | 0 <= i < |p.tags| :: g.items[i] == TagJson(t.tags[p.tags[i]])
  {
    PostGetMember(t, p, url, 6);
  }

  /** The write representation gives the same links as keys, tags in link order. */
  lemma PostWriteLinks(p: Post)
    ensures var w := PostWrite(p).members;
      && w[1].1 == JInt(p.author)
      && w[5].1 == (if p.category.Some? then JInt(p.category.value) else JNull)
      && w[6].1.JArr? && |w[6].1.items| == |p.tags|
      && forall i | 0 <= i < |p.tags| :: w[6].1.items[i] == JInt(p.tags[i])
  {
  }

  /** The five writable fields as `ModelSerializer` derives them from the model. */
  function TitleField(f: map<string, Value>, partial: bool): Fields.Outcome<string>
  {
    Fields.CharField(Fields.Lookup(f, "title"), true, partial, Some(PostTitleMaxLength), None)
  }

  function BodyField(f: map<string, Value>, partial: bool): Fields.Outcome<string>
  {
    Fields.CharField(Fields.Lookup(f, "body"), true, partial, None, None)
  }

  function CategoryField(t: Tables, f: map<string, Value>, partial: bool): Fields.Outcome<Option<nat>>
  {
    Fields.NullablePkField(Fields.Lookup(f, "category"), t.categories.Keys, false, partial)
  }

  function TagsField(t: Tables, f: map<string, Value>, partial: bool): Fields.Outcome<seq<nat>>
  {
    Fields.PkListField(Fields.Lookup(f, "tags"), t.tags.Keys, false, partial)
  }

  function StatusField(f: map<string, Value>, partial: bool): Fields.Outcome<string>
  {
    Fields.ChoiceField(Fields.Lookup(f, "status"), StatusChoices, false, partial)
  }

  /**
   * `PostCreateUpdateSerializer(data=…, partial=…).is_valid()`: field by
   * field, then the validated content. Read-only and undeclared keys are
   * not looked at.
   */
  function ValidatePost(t: Tables, body: Body, partial: bool): Result<PostInput, Errors>
  {
    match body
    case Other(v) => Failure([(NonFieldErrors, Fields.NotAnObjectMessages(v))])
    case Object(f) =>
      var title, text := TitleField(f, partial), BodyField(f, partial);
      var category, tags, status := CategoryField(t, f, partial), TagsField(t, f, partial), StatusField(f, partial);
      var errors := Fields.Note("title", title) + Fields.Note("body", text) + Fields.Note("category", category)
                    + Fields.Note("tags", tags) + Fields.Note("status", status);
      if errors != [] then Failure(errors)
      else Success(PostInput(Fields.ValueOf(title), Fields.ValueOf(text), Fields.ValueOf(category),
                             Fields.ValueOf(tags), Fields.ValueOf(status)))
  }

  /**
   * What a client sends for `author`, `slug`, `created_at`, `id` or any
   * undeclared key makes no difference to the outcome.
   */
  lemma ReadOnlyIgnored(t: Tables, f: map<string, Value>, partial: bool, k: string, v: Value)
    requires k !in PostWritable
    ensures ValidatePost(t, Object(f[k := v]), partial) == ValidatePost(t, Object(f), partial)
  {
    var g := f[k := v];
    assert Fields.Lookup(g, "title") == Fields.Lookup(f, "title") && Fields.Lookup(g, "body") == Fields.Lookup(f, "body");
    assert Fields.Lookup(g, "category") == Fields.Lookup(f, "category") && Fields.Lookup(g, "tags") == Fields.Lookup(f, "tags");
    assert Fields.Lookup(g, "status") == Fields.Lookup(f, "status");
  }

  /** An accepted title has 1 to 200 characters and no surrounding whitespace. */
  lemma TitleWellFormed(f: map<string, Value>, partial: bool)
    ensures var o := TitleField(f, partial);
      o.Valid? ==> 1 <= |o.value| <= PostTitleMaxLength && Text.Strip(o.value) == o.value
  {
    if TitleField(f, partial).Valid? { Text.StripIdempotent(JsonValues.Str(f["title"])); }
  }

  /** An accepted body is not blank and has no surrounding whitespace. */
  lemma BodyWellFormed(f: map<string, Value>, partial: bool)
    ensures var o := BodyField(f, partial);
      o.Valid? ==> o.value != [] && Text.Strip(o.value) == o.value
  {
    if BodyField(f, partial).Valid? { Text.StripIdempotent(JsonValues.Str(f["body"])); }
  }

  /**
   * Accepted content is well formed: a title of 1 to 200 characters and a
   * non-blank body, both trimmed; a status among the choices; a category
   * and tags that exist. A full (non-partial) write always has title and body.
   */
  predicate WellFormedInput(t: Tables, c: PostInput, partial: bool)
  {
    && (c.title.Some? ==> 1 <= |c.title.value| <= PostTitleMaxLength && Text.Strip(c.title.value) == c.title.value)
    && (c.body.Some? ==> c.body.value != [] && Text.Strip(c.body.value) == c.body.value)
    && (c.status.Some? ==> c.status.value in StatusChoices)
    && (c.category.Some? && c.category.value.Some? ==> c.category.value.value in t.categories)
    && (c.tags.Some? ==> forall g | g in c.tags.value :: g in t.tags)
    && (!partial ==> c.title.Some? && c.body.Some?)
  }

  /** Whatever validation accepts is well formed in the sense of `WellFormedInput`. */
  lemma ValidatedPostIsWellFormed(t: Tables, body: Body, partial: bool)
    ensures var r := ValidatePost(t, body, partial);
      r.Success? ==> WellFormedInput(t, r.value, partial)
  {
    var r := ValidatePost(t, body, partial);
    if r.Success? {
      var f := body.fields;
      TitleWellFormed(f, partial);
      BodyWellFormed(f, partial);
      FieldsAccepted(t, f, partial);
      if !partial {
        var title, text := TitleField(f, partial), BodyField(f, partial);
        assert title.Valid? && text.Valid?;
        assert r.value.title == Fields.ValueOf(title) && r.value.body == Fields.ValueOf(text);
      }
    }
  }

  /** Validation succeeds exactly when no field is invalid, and then carries each field's value. */
  lemma FieldsAccepted(t: Tables, f: map<string, Value>, partial: bool)
    ensures var r := ValidatePost(t, Object(f), partial);
      && (r.Success? <==>
            && !TitleField(f, partial).Invalid? && !BodyField(f, partial).Invalid?
            && !CategoryField(t, f, partial).Invalid? && !TagsField(t, f, partial).Invalid?
            && !StatusField(f, partial).Invalid?)
      && (r.Success? ==>
            r.value == PostInput(Fields.ValueOf(TitleField(f, partial)), Fields.ValueOf(BodyField(f, partial)),
                                 Fields.ValueOf(CategoryField(t, f, partial)), Fields.ValueOf(TagsField(t, f, partial)),
                                 Fields.ValueOf(StatusField(f, partial))))
  {
  }

  /** A full write without a title is refused, the title first, with "This field is required." */
  lemma TitleRequired(t: Tables, f: map<string, Value>)
    requires "title" !in f
    ensures var r := ValidatePost(t, Object(f), false);
      r.Failure? && |r.error| > 0 && r.error[0] == ("title", [Fields.Required])
  {
  }

  /** A full write without a body is refused with "This field is required." for the body. */
  lemma BodyRequired(t: Tables, f: map<string, Value>)
    requires "body" !in f
    ensures var r := ValidatePost(t, Object(f), false);
      r.Failure? && ("body", [Fields.Required]) in r.error
  {
    var title := TitleField(f, false);
    var n := Fields.Note("title", title);
    assert ("body", [Fields.Required]) == (n + Fields.Note("body", BodyField(f, false)))[|n|];
  }

  /** An empty-string category validates exactly as `null` does: the post gets no category. */
  lemma EmptyCategoryIsNull(t: Tables, f: map<string, Value>, partial: bool)
    ensures ValidatePost(t, Object(f["category" := VStr("")]), partial)
         == ValidatePost(t, Object(f["category" := VNull]), partial)
    ensures var r := ValidatePost(t, Object(f["category" := VStr("")]), partial);
      r.Success? ==> r.value.category == Some(None)
  {
    var e, n := f["category" := VStr("")], f["category" := VNull];
    assert Fields.Lookup(e, "title") == Fields.Lookup(n, "title");
    assert Fields.Lookup(e, "body") == Fields.Lookup(n, "body");
    assert Fields.Lookup(e, "tags") == Fields.Lookup(n, "tags");
    assert Fields.Lookup(e, "status") == Fields.Lookup(n, "status");
    assert CategoryField(t, e, partial) == Fields.Valid(None) == CategoryField(t, n, partial);
  }

  /**
   * A body that is not an object is refused as a whole: a `null` body with
   * "No data provided", any other with the expected-a-dictionary message.
   */
  lemma NotAnObjectRefused(t: Tables, v: Value, partial: bool)
    ensures v.VNull? ==> ValidatePost(t, Other(v), partial) == Failure([(NonFieldErrors, [Fields.NoDataProvided])])
    ensures !v.VNull? ==>
      ValidatePost(t, Other(v), partial) == Failure([(NonFieldErrors, [Fields.NotADictionaryMessage(v)])])
  {
  }

  /**
   * `serializer.save(author=request.user, slug=…)` inserts the validated
   * content: the post belongs to the requesting user whatever `author` the
   * client sent, and it has the slug it was given.
   */
  lemma CreatedPostBelongsToUser(t: Tables, id: nat, user: nat, slug: string, f: map<string, Value>,
                                 claimed: Value, now: nat)
    ensures var v := ValidatePost(t, Object(f["author" := claimed]), false);
      v.Success? ==>
        var r := InsertPost(t, id, user, slug, v.value, now);
        r.Success? ==> id in r.value.posts && r.value.posts[id].author == user && r.value.posts[id].slug == slug
  {
    var v := ValidatePost(t, Object(f["author" := claimed]), false);
    if v.Success? {
      BlogRules.InsertPostStores(t, id, user, slug, v.value, now);
    }
  }

  /** A post created from validated content has one of the status choices, like every other post. */
  lemma CreatedPostStatusValid(t: Tables, id: nat, user: nat, slug: string, body: Body, now: nat)
    requires StatusesValid(t)
    ensures var v := ValidatePost(t, body, false);
      v.Success? ==>
        var r := InsertPost(t, id, user, slug, v.value, now);
        r.Success? ==> StatusesValid(r.value)
  {
    var v := ValidatePost(t, body, false);
    if v.Success? {
      AcceptedStatus(t, body, false);
      BlogRules.InsertPostKeepsStatuses(t, id, user, slug, v.value, now);
    }
  }

  lemma AcceptedStatus(t: Tables, body: Body, partial: bool)
    ensures var v := ValidatePost(t, body, partial);
      v.Success? && v.value.status.Some? ==> v.value.status.value in StatusChoices
  {
    if body.Object? { FieldsAccepted(t, body.fields, partial); }
  }
}
