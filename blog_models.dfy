/**
 * The blog's stored records (Category, Tag, Post, Comment) beside the user
 * table, the constraints the schema declares on them, and what saving and
 * deleting rows does to the five tables together:
 *
 *  - post -> author and comment -> author, comment -> post: ON DELETE CASCADE;
 *  - post -> category: ON DELETE SET NULL;
 *  - post <-> tag: a many-to-many link, whose rows go with either end.
 */
module BlogModels {
  import opened Wrappers
  import opened UserModel
  import TimeStamps

  const CategoryMaxNameLength: nat := 100
  const TagMaxNameLength: nat := 50
  const PostTitleMaxLength: nat := 200
  const StatusMaxLength: nat := 10

  /** `Post.Status`, and the default of `Post.status`. */
  const Draft: string := "draft"
  const Published: string := "published"
  const StatusChoices: set<string> := {"draft", "published"}
  const DefaultStatus: string := Draft

  datatype Category = Category(id: nat, name: string, slug: string, stamps: TimeStamps.Stamps)

  datatype Tag = Tag(id: nat, name: string, slug: string, stamps: TimeStamps.Stamps)

  datatype Post = Post(
    id: nat,
    author: nat,
    title: string,
    slug: string,
    body: string,
    category: Option<nat>,
    tags: seq<nat>,           // the linked tags, in link order, each once
    status: string,
    stamps: TimeStamps.Stamps)

  datatype Comment = Comment(id: nat, post: nat, author: nat, body: string, stamps: TimeStamps.Stamps)

  datatype Tables = Tables(
    users: UserTable,
    categories: map<nat, Category>,
    tags: map<nat, Tag>,
    posts: map<nat, Post>,
    comments: map<nat, Comment>)

  /** The declared lengths; SQLite, the configured database, does not enforce them. */
  predicate CategoryWithinBounds(c: Category) { |c.name| <= CategoryMaxNameLength }
  predicate TagWithinBounds(g: Tag) { |g.name| <= TagMaxNameLength }
  predicate PostWithinBounds(p: Post) { |p.title| <= PostTitleMaxLength && |p.status| <= StatusMaxLength }

  predicate NoDuplicates(s: seq<nat>)
  {
    forall i, j | 0 <= i < j < |s| :: s[i] != s[j]
  }

  /** The post's author, category and tags are stored, and it links no tag twice. */
  predicate PostLinks(t: Tables, p: Post)
  {
    && p.author in t.users
    && (p.category.Some? ==> p.category.value in t.categories)
    && (forall g | g in p.tags :: g in t.tags)
    && NoDuplicates(p.tags)
  }

  /** The comment's post and author are stored. */
  predicate CommentLinks(t: Tables, c: Comment)
  {
    c.post in t.posts && c.author in t.users
  }

  /** Every foreign key names a stored row. */
  predicate References(t: Tables)
  {
    && (forall p | p in t.posts :: PostLinks(t, t.posts[p]))
    && (forall c | c in t.comments :: CommentLinks(t, t.comments[c]))
  }

  predicate CategoriesUnique(cs: map<nat, Category>)
  {
    forall a, b | a in cs && b in cs && a != b :: cs[a].name != cs[b].name && cs[a].slug != cs[b].slug
  }

  predicate TagsUnique(gs: map<nat, Tag>)
  {
    forall a, b | a in gs && b in gs && a != b :: gs[a].name != gs[b].name && gs[a].slug != gs[b].slug
  }

  predicate PostSlugsUnique(ps: map<nat, Post>)
  {
    forall a, b | a in ps && b in ps && a != b :: ps[a].slug != ps[b].slug
  }

  /** The UNIQUE constraints: user e-mail, category and tag name and slug, post slug. */
  predicate Unique(t: Tables)
  {
    EmailsUnique(t.users) && CategoriesUnique(t.categories) && TagsUnique(t.tags) && PostSlugsUnique(t.posts)
  }

  /** Every row is stored under its own primary key. */
  predicate KeysMatchAll(t: Tables)
  {
    && KeysMatch(t.users)
    && (forall k | k in t.categories :: t.categories[k].id == k)
    && (forall k | k in t.tags :: t.tags[k].id == k)
    && (forall k | k in t.posts :: t.posts[k].id == k)
    && (forall k | k in t.comments :: t.comments[k].id == k)
  }

  predicate Integrity(t: Tables)
  {
    References(t) && Unique(t) && KeysMatchAll(t)
  }

  predicate StatusesValid(t: Tables)
  {
    forall p | p in t.posts :: t.posts[p].status in StatusChoices
  }

  lemma ConsNoDuplicates(x: nat, s: seq<nat>)
    ensures x !in s && NoDuplicates(s) ==> NoDuplicates([x] + s)
  {
    if x in s || !NoDuplicates(s) { return; }
    forall i, j | 0 <= i < j < |[x] + s|
      ensures ([x] + s)[i] != ([x] + s)[j]
    {
      if i > 0 {
        assert ([x] + s)[i] == s[i - 1] && ([x] + s)[j] == s[j - 1];
      } else {
        assert ([x] + s)[j] == s[j - 1];
      }
    }
  }

  /** `s` without `x`, otherwise in the same order. */
  function Without(s: seq<nat>, x: nat): (r: seq<nat>)
    ensures forall y :: y in r <==> y in s && y != x
    ensures NoDuplicates(s) ==> NoDuplicates(r)
    ensures |r| <= |s|
  {
    if s == [] then []
    else if s[0] == x then Without(s[1..], x)
    else
      var rest := Without(s[1..], x);
      assert NoDuplicates(s) ==> NoDuplicates(s[1..]) && s[0] !in s[1..] by {
        if NoDuplicates(s) {
          forall i, j | 0 <= i < j < |s[1..]| ensures s[1..][i] != s[1..][j] {
            assert s[1..][i] == s[i + 1] && s[1..][j] == s[j + 1];
          }
          forall k | 0 <= k < |s[1..]| ensures s[1..][k] != s[0] {
            assert s[1..][k] == s[k + 1];
          }
        }
      }
      ConsNoDuplicates(s[0], rest);
      [s[0]] + rest
  }

  /** The distinct elements of `s` in order of first occurrence: what `post.tags.set(s)` links. */
  function Distinct(s: seq<nat>): (r: seq<nat>)
    ensures forall y :: y in r <==> y in s
    ensures NoDuplicates(r)
    decreases |s|
  {
    if s == [] then []
    else
      var rest := Without(Distinct(s[1..]), s[0]);
      ConsNoDuplicates(s[0], rest);
      [s[0]] + rest
  }

  datatype DbError =
    | UniqueViolation(column: string)
    | ForeignKeyViolation(column: string)

  predicate CategoryNameTaken(t: Tables, name: string) { exists k | k in t.categories :: t.categories[k].name == name }
  predicate CategorySlugTaken(t: Tables, slug: string) { exists k | k in t.categories :: t.categories[k].slug == slug }
  predicate TagNameTaken(t: Tables, name: string) { exists k | k in t.tags :: t.tags[k].name == name }
  predicate TagSlugTaken(t: Tables, slug: string) { exists k | k in t.tags :: t.tags[k].slug == slug }
  predicate PostSlugTaken(t: Tables, slug: string) { exists k | k in t.posts :: t.posts[k].slug == slug }

  function InsertCategory(t: Tables, id: nat, name: string, slug: string, now: nat): Result<Tables, DbError>
  {
    if CategoryNameTaken(t, name) then Failure(UniqueViolation("name"))
    else if CategorySlugTaken(t, slug) then Failure(UniqueViolation("slug"))
    else Success(t.(categories := t.categories[id := Category(id, name, slug, TimeStamps.OnCreate(now))]))
  }

  function InsertTag(t: Tables, id: nat, name: string, slug: string, now: nat): Result<Tables, DbError>
  {
    if TagNameTaken(t, name) then Failure(UniqueViolation("name"))
    else if TagSlugTaken(t, slug) then Failure(UniqueViolation("slug"))
    else Success(t.(tags := t.tags[id := Tag(id, name, slug, TimeStamps.OnCreate(now))]))
  }

  /** The writable content of a post; a field left out of the input is `None`. */
  datatype PostInput = PostInput(
    title: Option<string>,
    body: Option<string>,
    category: Option<Option<nat>>,
    tags: Option<seq<nat>>,
    status: Option<string>)

  /** The foreign keys a post's content names, checked when the row is written. */
  function CheckPostLinks(t: Tables, category: Option<nat>, tags: seq<nat>): Option<DbError>
  {
    if category.Some? && category.value !in t.categories then Some(ForeignKeyViolation("category_id"))
    else if exists g | g in tags :: g !in t.tags then Some(ForeignKeyViolation("tag_id"))
    else None
  }

  /**
   * `Post.objects.create(author=…, slug=…, **content)` followed by
   * `post.tags.set(…)`: unset fields take their defaults (empty body and
   * title, no category, no tags, status "draft").
   */
  function InsertPost(t: Tables, id: nat, author: nat, slug: string, input: PostInput, now: nat)
    : Result<Tables, DbError>
  {
    var category := input.category.GetOr(None);
    var tags := input.tags.GetOr([]);
    if author !in t.users then Failure(ForeignKeyViolation("author_id"))
    else if CheckPostLinks(t, category, tags).Some? then Failure(CheckPostLinks(t, category, tags).value)
    else if PostSlugTaken(t, slug) then Failure(UniqueViolation("slug"))
    else
      var post := Post(id, author, input.title.GetOr(""), slug, input.body.GetOr(""), category,
                       Distinct(tags), input.status.GetOr(DefaultStatus), TimeStamps.OnCreate(now));
      Success(t.(posts := t.posts[id := post]))
  }

  /** `post.save()` after a partial update of its writable fields. */
  function UpdatePost(t: Tables, id: nat, input: PostInput, now: nat): Result<Tables, DbError>
    requires id in t.posts
  {
    var before := t.posts[id];
    var category := input.category.GetOr(before.category);
    var tags := input.tags.GetOr(before.tags);
    if CheckPostLinks(t, category, tags).Some? then Failure(CheckPostLinks(t, category, tags).value)
    else
      var post := before.(title := input.title.GetOr(before.title), body := input.body.GetOr(before.body),
                        category := category, tags := Distinct(tags),
                        status := input.status.GetOr(before.status),
                        stamps := TimeStamps.OnSave(before.stamps, now));
      Success(t.(posts := t.posts[id := post]))
  }

  function InsertComment(t: Tables, id: nat, post: nat, author: nat, body: string, now: nat)
    : Result<Tables, DbError>
  {
    if post !in t.posts then Failure(ForeignKeyViolation("post_id"))
    else if author !in t.users then Failure(ForeignKeyViolation("author_id"))
    else Success(t.(comments := t.comments[id := Comment(id, post, author, body, TimeStamps.OnCreate(now))]))
  }

  /** A new user row, as the manager builds it, joins the table. */
  function InsertUser(t: Tables, u: CustomUser): Tables
  {
    t.(users := t.users[u.id := u])
  }

  function DeleteComment(t: Tables, c: nat): Tables
  {
    t.(comments := t.comments - {c})
  }

  /** Deleting a post deletes its comments (CASCADE) and its tag links. */
  function DeletePost(t: Tables, p: nat): Tables
  {
    t.(posts := t.posts - {p},
       comments := map c | c in t.comments && t.comments[c].post != p :: t.comments[c])
  }

  /**
   * Deleting a user deletes the user's posts and comments (CASCADE), and with
   * those posts every comment on them, whoever wrote it.
   */
  function DeleteUser(t: Tables, u: nat): Tables
  {
    var posts := map p | p in t.posts && t.posts[p].author != u :: t.posts[p];
    t.(users := t.users - {u},
       posts := posts,
       comments := map c | c in t.comments && t.comments[c].author != u && t.comments[c].post in posts
                     :: t.comments[c])
  }

  /**
   * Deleting a category keeps its posts and clears their category (SET NULL,
   * an UPDATE that leaves `updated_at` alone).
   */
  function DeleteCategory(t: Tables, g: nat): Tables
  {
    t.(categories := t.categories - {g},
       posts := map p | p in t.posts ::
         if t.posts[p].category == Some(g) then t.posts[p].(category := None) else t.posts[p])
  }

  /** Deleting a tag removes its links to posts and no post. */
  function DeleteTag(t: Tables, g: nat): Tables
  {
    t.(tags := t.tags - {g},
       posts := map p | p in t.posts :: t.posts[p].(tags := Without(t.posts[p].tags, g)))
  }

  /** The table a record lives in. */
  datatype Kind = UserRow | CategoryRow | TagRow | PostRow | CommentRow

  /**
   * The intended soft delete, as an operation of its own: only the row's
   * `deleted_at` changes, and the row stays in its table.
   */
  function SoftDelete(t: Tables, kind: Kind, id: nat, now: nat): Tables
  {
    match kind
    case UserRow =>
      if id in t.users then t.(users := t.users[id := t.users[id].(stamps := TimeStamps.SoftDeleted(t.users[id].stamps, now))]) else t
    case CategoryRow =>
      if id in t.categories then t.(categories := t.categories[id := t.categories[id].(stamps := TimeStamps.SoftDeleted(t.categories[id].stamps, now))]) else t
    case TagRow =>
      if id in t.tags then t.(tags := t.tags[id := t.tags[id].(stamps := TimeStamps.SoftDeleted(t.tags[id].stamps, now))]) else t
    case PostRow =>
      if id in t.posts then t.(posts := t.posts[id := t.posts[id].(stamps := TimeStamps.SoftDeleted(t.posts[id].stamps, now))]) else t
    case CommentRow =>
      if id in t.comments then t.(comments := t.comments[id := t.comments[id].(stamps := TimeStamps.SoftDeleted(t.comments[id].stamps, now))]) else t
  }
}
