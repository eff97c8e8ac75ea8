/**
 * What the schema promises about the content store: every write keeps the
 * foreign keys, UNIQUE constraints and primary keys intact, and each delete
 * takes with it exactly the rows its on-delete rules name.
 */
module BlogRules {
  import opened Wrappers
  import opened UserModel
  import opened BlogModels
  import TimeStamps

  /** Every row of `t` has a key below `next`: `next` is free in every table. */
  predicate KeysBelow(t: Tables, next: nat)
  {
    && (forall k | k in t.users :: k < next)
    && (forall k | k in t.categories :: k < next)
    && (forall k | k in t.tags :: k < next)
    && (forall k | k in t.posts :: k < next)
    && (forall k | k in t.comments :: k < next)
  }


  /** Storing `post` under `id` (new or replacing) keeps the store sound when its links hold. */
  lemma StorePost(t: Tables, id: nat, post: Post)
    requires Integrity(t) && post.id == id
    requires post.author in t.users
    requires post.category.Some? ==> post.category.value in t.categories
    requires forall g | g in post.tags :: g in t.tags
    requires NoDuplicates(post.tags)
    requires forall k | k in t.posts && k != id :: t.posts[k].slug != post.slug
    ensures Integrity(t.(posts := t.posts[id := post]))
  {
    var ps := t.posts[id := post];
    var r := t.(posts := ps);
    forall a, b | a in ps && b in ps && a != b ensures ps[a].slug != ps[b].slug {
      if a != id && b != id { assert ps[a] == t.posts[a] && ps[b] == t.posts[b]; }
    }
    forall k | k in ps ensures PostLinks(r, ps[k]) && ps[k].id == k {
      if k != id { assert PostLinks(t, t.posts[k]); }
    }
    forall c | c in r.comments ensures CommentLinks(r, r.comments[c]) {
      assert CommentLinks(t, t.comments[c]);
    }
  }

  predicate SameUsers(a: UserTable, b: UserTable)
  {
    b.Keys == a.Keys && forall k | k in a :: b[k] == a[k].(stamps := b[k].stamps)
  }

  predicate SameCategories(a: map<nat, Category>, b: map<nat, Category>)
  {
    b.Keys == a.Keys && forall k | k in a :: b[k] == a[k].(stamps := b[k].stamps)
  }

  predicate SameTags(a: map<nat, Tag>, b: map<nat, Tag>)
  {
    b.Keys == a.Keys && forall k | k in a :: b[k] == a[k].(stamps := b[k].stamps)
  }

  predicate SamePosts(a: map<nat, Post>, b: map<nat, Post>)
  {
    b.Keys == a.Keys && forall k | k in a :: b[k] == a[k].(stamps := b[k].stamps)
  }

  predicate SameComments(a: map<nat, Comment>, b: map<nat, Comment>)
  {
    b.Keys == a.Keys && forall k | k in a :: b[k] == a[k].(stamps := b[k].stamps)
  }

  /**
   * `r` holds the same rows as `t` under the same keys, differing at most in
   * their time stamps.
   */
  predicate SameButStamps(t: Tables, r: Tables)
  {
    && SameUsers(t.users, r.users)
    && SameCategories(t.categories, r.categories)
    && SameTags(t.tags, r.tags)
    && SamePosts(t.posts, r.posts)
    && SameComments(t.comments, r.comments)
  }

  lemma SameButStampsUnique(t: Tables, r: Tables)
    requires Unique(t) && SameButStamps(t, r)
    ensures Unique(r)
  {
    forall a, b | a in r.users && b in r.users && a != b ensures r.users[a].email != r.users[b].email {
      assert r.users[a].email == t.users[a].email && r.users[b].email == t.users[b].email;
    }
    forall a, b | a in r.categories && b in r.categories && a != b
      ensures r.categories[a].name != r.categories[b].name && r.categories[a].slug != r.categories[b].slug
    {
      assert r.categories[a].name == t.categories[a].name && r.categories[b].name == t.categories[b].name;
      assert r.categories[a].slug == t.categories[a].slug && r.categories[b].slug == t.categories[b].slug;
    }
    forall a, b | a in r.tags && b in r.tags && a != b
      ensures r.tags[a].name != r.tags[b].name && r.tags[a].slug != r.tags[b].slug
    {
      assert r.tags[a].name == t.tags[a].name && r.tags[b].name == t.tags[b].name;
      assert r.tags[a].slug == t.tags[a].slug && r.tags[b].slug == t.tags[b].slug;
    }
    forall a, b | a in r.posts && b in r.posts && a != b ensures r.posts[a].slug != r.posts[b].slug {
      assert r.posts[a].slug == t.posts[a].slug && r.posts[b].slug == t.posts[b].slug;
    }
  }

  lemma SameButStampsReferences(t: Tables, r: Tables)
    requires References(t) && SameButStamps(t, r)
    ensures References(r)
  {
    forall p | p in r.posts ensures PostLinks(r, r.posts[p]) {
      assert PostLinks(t, t.posts[p]);
      assert r.posts[p].author == t.posts[p].author && r.posts[p].category == t.posts[p].category;
      assert r.posts[p].tags == t.posts[p].tags;
    }
    forall c | c in r.comments ensures CommentLinks(r, r.comments[c]) {
      assert CommentLinks(t, t.comments[c]);
      assert r.comments[c].post == t.comments[c].post && r.comments[c].author == t.comments[c].author;
    }
  }

  lemma SameButStampsKeys(t: Tables, r: Tables)
    requires KeysMatchAll(t) && SameButStamps(t, r)
    ensures KeysMatchAll(r)
  {
    forall k | k in r.users ensures r.users[k].id == k { assert r.users[k].id == t.users[k].id; }
    forall k | k in r.categories ensures r.categories[k].id == k { assert r.categories[k].id == t.categories[k].id; }
    forall k | k in r.tags ensures r.tags[k].id == k { assert r.tags[k].id == t.tags[k].id; }
    forall k | k in r.posts ensures r.posts[k].id == k { assert r.posts[k].id == t.posts[k].id; }
    forall k | k in r.comments ensures r.comments[k].id == k { assert r.comments[k].id == t.comments[k].id; }
  }

  /** Each table of `r` keeps some of the rows of `t`, under the same keys and unchanged. */
  predicate SubTables(t: Tables, r: Tables)
  {
    && (forall k | k in r.users :: k in t.users && r.users[k] == t.users[k])
    && (forall k | k in r.categories :: k in t.categories && r.categories[k] == t.categories[k])
    && (forall k | k in r.tags :: k in t.tags && r.tags[k] == t.tags[k])
    && (forall k | k in r.posts :: k in t.posts && r.posts[k] == t.posts[k])
    && (forall k | k in r.comments :: k in t.comments && r.comments[k] == t.comments[k])
  }

  /** Removing rows cannot break a UNIQUE constraint. */
  lemma SubTablesUnique(t: Tables, r: Tables)
    requires Unique(t) && SubTables(t, r)
    ensures Unique(r)
  {
    forall a, b | a in r.users && b in r.users && a != b ensures r.users[a].email != r.users[b].email {
      assert r.users[a] == t.users[a] && r.users[b] == t.users[b];
    }
    forall a, b | a in r.categories && b in r.categories && a != b
      ensures r.categories[a].name != r.categories[b].name && r.categories[a].slug != r.categories[b].slug
    {
      assert r.categories[a] == t.categories[a] && r.categories[b] == t.categories[b];
    }
    forall a, b | a in r.tags && b in r.tags && a != b
      ensures r.tags[a].name != r.tags[b].name && r.tags[a].slug != r.tags[b].slug
    {
      assert r.tags[a] == t.tags[a] && r.tags[b] == t.tags[b];
    }
    forall a, b | a in r.posts && b in r.posts && a != b ensures r.posts[a].slug != r.posts[b].slug {
      assert r.posts[a] == t.posts[a] && r.posts[b] == t.posts[b];
    }
  }

  /** Removing rows keeps every row under its own key, and every key below a bound. */
  lemma SubTablesKeys(t: Tables, r: Tables, next: nat)
    requires KeysMatchAll(t) && KeysBelow(t, next) && SubTables(t, r)
    ensures KeysMatchAll(r) && KeysBelow(r, next)
  {
  }

  /**
   * `r` has the rows of `t`, except that some categories or tags are gone
   * and posts may have other category and tag links.
   */
  predicate RelinksPosts(t: Tables, r: Tables)
  {
    && r.users == t.users && r.comments == t.comments
    && (forall k | k in r.categories :: k in t.categories && r.categories[k] == t.categories[k])
    && (forall k | k in r.tags :: k in t.tags && r.tags[k] == t.tags[k])
    && r.posts.Keys == t.posts.Keys
    && (forall k | k in t.posts :: r.posts[k] == t.posts[k].(category := r.posts[k].category, tags := r.posts[k].tags))
  }

  /** Relinking posts keeps the UNIQUE constraints, the primary keys and the comments' links. */
  lemma RelinkedKeeps(t: Tables, r: Tables, next: nat)
    requires Integrity(t) && KeysBelow(t, next) && RelinksPosts(t, r)
    ensures Unique(r) && KeysMatchAll(r) && KeysBelow(r, next)
    ensures forall c | c in r.comments :: CommentLinks(r, r.comments[c])
    ensures forall k | k in r.posts :: r.posts[k].author in r.users
  {
    forall a, b | a in r.categories && b in r.categories && a != b
      ensures r.categories[a].name != r.categories[b].name && r.categories[a].slug != r.categories[b].slug
    {
      assert r.categories[a] == t.categories[a] && r.categories[b] == t.categories[b];
    }
    forall a, b | a in r.tags && b in r.tags && a != b
      ensures r.tags[a].name != r.tags[b].name && r.tags[a].slug != r.tags[b].slug
    {
      assert r.tags[a] == t.tags[a] && r.tags[b] == t.tags[b];
    }
    forall a, b | a in r.posts && b in r.posts && a != b ensures r.posts[a].slug != r.posts[b].slug {
      assert r.posts[a].slug == t.posts[a].slug && r.posts[b].slug == t.posts[b].slug;
    }
    forall k | k in r.posts ensures r.posts[k].id == k && r.posts[k].author in r.users {
      assert r.posts[k].id == t.posts[k].id && r.posts[k].author == t.posts[k].author;
      assert PostLinks(t, t.posts[k]);
    }
    forall c | c in r.comments ensures CommentLinks(r, r.comments[c]) {
      assert CommentLinks(t, t.comments[c]);
    }
  }

  lemma SameButStampsItself(t: Tables)
    ensures SameUsers(t.users, t.users) && SameCategories(t.categories, t.categories)
    ensures SameTags(t.tags, t.tags) && SamePosts(t.posts, t.posts) && SameComments(t.comments, t.comments)
  {
  }

  lemma SoftDeleteSameButStamps(t: Tables, kind: Kind, id: nat, now: nat)
    ensures SameButStamps(t, SoftDelete(t, kind, id, now))
  {
    SameButStampsItself(t);
    match kind
    case UserRow =>
      if id in t.users { RestampUser(t.users, id, TimeStamps.SoftDeleted(t.users[id].stamps, now)); }
    case CategoryRow =>
      if id in t.categories {
        RestampCategory(t.categories, id, TimeStamps.SoftDeleted(t.categories[id].stamps, now));
      }
    case TagRow =>
      if id in t.tags { RestampTag(t.tags, id, TimeStamps.SoftDeleted(t.tags[id].stamps, now)); }
    case PostRow =>
      if id in t.posts { RestampPost(t.posts, id, TimeStamps.SoftDeleted(t.posts[id].stamps, now)); }
    case CommentRow =>
      if id in t.comments { RestampComment(t.comments, id, TimeStamps.SoftDeleted(t.comments[id].stamps, now)); }
  }

  lemma RestampUser(a: UserTable, id: nat, s: TimeStamps.Stamps)
    requires id in a
    ensures SameUsers(a, a[id := a[id].(stamps := s)])
  {
  }

  lemma RestampCategory(a: map<nat, Category>, id: nat, s: TimeStamps.Stamps)
    requires id in a
    ensures SameCategories(a, a[id := a[id].(stamps := s)])
  {
  }

  lemma RestampTag(a: map<nat, Tag>, id: nat, s: TimeStamps.Stamps)
    requires id in a
    ensures SameTags(a, a[id := a[id].(stamps := s)])
  {
  }

  lemma RestampPost(a: map<nat, Post>, id: nat, s: TimeStamps.Stamps)
    requires id in a
    ensures SamePosts(a, a[id := a[id].(stamps := s)])
  {
  }

  lemma RestampComment(a: map<nat, Comment>, id: nat, s: TimeStamps.Stamps)
    requires id in a
    ensures SameComments(a, a[id := a[id].(stamps := s)])
  {
  }

  lemma InsertCategoryRule(t: Tables, id: nat, name: string, slug: string, now: nat)
    requires Integrity(t) && id !in t.categories
    ensures var r := InsertCategory(t, id, name, slug, now);
      && (r.Success? <==> !CategoryNameTaken(t, name) && !CategorySlugTaken(t, slug))
      && (r.Success? ==>
            && Integrity(r.value)
            && r.value == t.(categories := t.categories[id := Category(id, name, slug, TimeStamps.OnCreate(now))]))
  {
  }

  lemma InsertTagRule(t: Tables, id: nat, name: string, slug: string, now: nat)
    requires Integrity(t) && id !in t.tags
    ensures var r := InsertTag(t, id, name, slug, now);
      && (r.Success? <==> !TagNameTaken(t, name) && !TagSlugTaken(t, slug))
      && (r.Success? ==>
            && Integrity(r.value)
            && r.value == t.(tags := t.tags[id := Tag(id, name, slug, TimeStamps.OnCreate(now))]))
  {
  }

  /**
   * A post is stored exactly when its author, category and tags exist and
   * its slug is free.
   */
  lemma InsertPostSucceeds(t: Tables, id: nat, author: nat, slug: string, input: PostInput, now: nat)
    ensures InsertPost(t, id, author, slug, input, now).Success? <==>
      && author in t.users
      && (input.category.Some? && input.category.value.Some? ==> input.category.value.value in t.categories)
      && (input.tags.Some? ==> forall g | g in input.tags.value :: g in t.tags)
      && !PostSlugTaken(t, slug)
  {
    if input.category.Some? { assert input.category.GetOr(None) == input.category.value; }
    if input.tags.Some? { assert input.tags.GetOr([]) == input.tags.value; }
  }

  /**
   * A stored post carries its author and slug, the given title, body and
   * category (empty or none when left out), the given status or "draft",
   * each given tag once and fresh time stamps; no other row changes.
   */
  lemma InsertPostRule(t: Tables, id: nat, author: nat, slug: string, input: PostInput, now: nat)
    requires Integrity(t) && id !in t.posts
    ensures var r := InsertPost(t, id, author, slug, input, now);
      r.Success? ==>
        && Integrity(r.value)
        && r.value.users == t.users && r.value.comments == t.comments
        && r.value.categories == t.categories && r.value.tags == t.tags
        && r.value.posts == t.posts[id := r.value.posts[id]]
        && var p := r.value.posts[id];
           && p.author == author && p.slug == slug
           && p.title == input.title.GetOr("") && p.body == input.body.GetOr("")
           && p.category == input.category.GetOr(None)
           && p.status == input.status.GetOr(Draft)
           && (forall g :: g in p.tags <==> input.tags.Some? && g in input.tags.value)
           && p.stamps == TimeStamps.OnCreate(now)
  {
    var r := InsertPost(t, id, author, slug, input, now);
    if r.Success? {
      if input.tags.Some? { assert input.tags.GetOr([]) == input.tags.value; }
      assert !PostSlugTaken(t, slug);
      StorePost(t, id, r.value.posts[id]);
    }
  }

  /** A successful insert stores the post under its key with the given author and slug. */
  lemma InsertPostStores(t: Tables, id: nat, author: nat, slug: string, input: PostInput, now: nat)
    ensures var r := InsertPost(t, id, author, slug, input, now);
      r.Success? ==> id in r.value.posts && r.value.posts[id].author == author && r.value.posts[id].slug == slug
  {
  }

  /** A post written through the interface keeps every status among the choices. */
  lemma InsertPostKeepsStatuses(t: Tables, id: nat, author: nat, slug: string, input: PostInput, now: nat)
    requires StatusesValid(t)
    requires input.status.Some? ==> input.status.value in StatusChoices
    ensures var r := InsertPost(t, id, author, slug, input, now);
      r.Success? ==> StatusesValid(r.value)
  {
    if input.status.Some? { assert input.status.GetOr(Draft) == input.status.value; }
  }

  /**
   * Saving a post changes that post alone: its author, slug and creation
   * time stay, `updated_at` becomes `now`, and the fields given take the
   * new values.
   */
  lemma UpdatePostRule(t: Tables, id: nat, input: PostInput, now: nat)
    requires Integrity(t) && id in t.posts
    ensures var r := UpdatePost(t, id, input, now);
      r.Success? ==>
        && r.value.users == t.users && r.value.comments == t.comments
        && r.value.categories == t.categories && r.value.tags == t.tags
        && r.value.posts.Keys == t.posts.Keys
        && (forall k | k in t.posts && k != id :: r.value.posts[k] == t.posts[k])
        && var p, q := t.posts[id], r.value.posts[id];
           && q.id == p.id && q.author == p.author && q.slug == p.slug
           && q.stamps.createdAt == p.stamps.createdAt && q.stamps.updatedAt == now
           && q.title == input.title.GetOr(p.title)
           && q.body == input.body.GetOr(p.body)
           && q.status == input.status.GetOr(p.status)
           && q.category == input.category.GetOr(p.category)
           && (forall g :: g in q.tags <==> g in input.tags.GetOr(p.tags))
    ensures var r := UpdatePost(t, id, input, now);
      (input.category.None? && input.tags.None?) ==> r.Success?
  {
    var r := UpdatePost(t, id, input, now);
    if input.tags.None? {
      assert input.tags.GetOr(t.posts[id].tags) == t.posts[id].tags;
    }
    if input.category.None? {
      assert input.category.GetOr(t.posts[id].category) == t.posts[id].category;
    }
  }

  /** A saved post still names stored rows and keeps a free slug. */
  lemma UpdatePostKeepsIntegrity(t: Tables, id: nat, input: PostInput, now: nat)
    requires Integrity(t) && id in t.posts
    ensures var r := UpdatePost(t, id, input, now);
      r.Success? ==> Integrity(r.value) && r.value.posts.Keys == t.posts.Keys
  {
    var r := UpdatePost(t, id, input, now);
    if r.Success? {
      StorePost(t, id, r.value.posts[id]);
    }
  }

  lemma InsertCommentRule(t: Tables, id: nat, post: nat, author: nat, body: string, now: nat)
    requires Integrity(t) && id !in t.comments
    ensures var r := InsertComment(t, id, post, author, body, now);
      && (r.Success? <==> post in t.posts && author in t.users)
      && (r.Success? ==>
            && Integrity(r.value)
            && r.value == t.(comments := t.comments[id := Comment(id, post, author, body, TimeStamps.OnCreate(now))]))
  {
  }

  /** A new user row under a fresh key with a free e-mail keeps the store sound. */
  lemma InsertUserRule(t: Tables, u: CustomUser)
    requires Integrity(t) && u.id !in t.users && !EmailTaken(t.users, u.email)
    ensures Integrity(InsertUser(t, u))
  {
  }

  lemma DeleteCommentRule(t: Tables, c: nat)
    ensures var r := DeleteComment(t, c);
      && r.comments.Keys == t.comments.Keys - {c}
      && (forall k | k in r.comments :: r.comments[k] == t.comments[k])
      && r.users == t.users && r.posts == t.posts && r.categories == t.categories && r.tags == t.tags
  {
  }

  /** Deleting a comment leaves nothing dangling, and only removes a row. */
  lemma DeleteCommentKeepsIntegrity(t: Tables, c: nat, next: nat)
    requires Integrity(t) && KeysBelow(t, next)
    ensures Integrity(DeleteComment(t, c)) && KeysBelow(DeleteComment(t, c), next)
  {
    var r := DeleteComment(t, c);
    forall k | k in r.comments ensures CommentLinks(r, r.comments[k]) {
      assert CommentLinks(t, t.comments[k]);
    }
    forall k | k in r.posts ensures PostLinks(r, r.posts[k]) {
      assert PostLinks(t, t.posts[k]);
    }
    assert SubTables(t, r);
    SubTablesUnique(t, r);
    SubTablesKeys(t, r, next);
  }

  /**
   * Deleting a post removes it and exactly the comments on it; every other
   * row is kept unchanged.
   */
  lemma DeletePostRule(t: Tables, p: nat)
    ensures var r := DeletePost(t, p);
      && r.posts.Keys == t.posts.Keys - {p}
      && (forall k | k in r.posts :: r.posts[k] == t.posts[k])
      && (forall k :: k in r.comments <==> k in t.comments && t.comments[k].post != p)
      && (forall k | k in r.comments :: r.comments[k] == t.comments[k])
      && r.users == t.users && r.categories == t.categories && r.tags == t.tags
  {
  }

  /** Deleting a post leaves no comment pointing at it. */
  lemma DeletePostReferences(t: Tables, p: nat)
    requires References(t)
    ensures References(DeletePost(t, p))
  {
    var r := DeletePost(t, p);
    forall k | k in r.posts ensures PostLinks(r, r.posts[k]) {
      assert PostLinks(t, t.posts[k]);
    }
    forall k | k in r.comments ensures CommentLinks(r, r.comments[k]) {
      assert CommentLinks(t, t.comments[k]);
    }
  }

  /** Deleting a post keeps the store sound: it only removes rows, and leaves none dangling. */
  lemma DeletePostKeepsIntegrity(t: Tables, p: nat, next: nat)
    requires Integrity(t) && KeysBelow(t, next)
    ensures Integrity(DeletePost(t, p)) && KeysBelow(DeletePost(t, p), next)
  {
    var r := DeletePost(t, p);
    DeletePostReferences(t, p);
    assert SubTables(t, r);
    SubTablesUnique(t, r);
    SubTablesKeys(t, r, next);
  }

  /**
   * Deleting a user removes the user, every post the user wrote, and every
   * comment either written by the user or placed on one of those posts;
   * nothing else goes, and nothing that stays is changed.
   */
  lemma DeleteUserRule(t: Tables, u: nat)
    requires References(t)
    ensures var r := DeleteUser(t, u);
      && r.users.Keys == t.users.Keys - {u}
      && (forall k :: k in r.posts <==> k in t.posts && t.posts[k].author != u)
      && (forall k :: k in r.comments <==>
            && k in t.comments
            && t.comments[k].author != u
            && t.posts[t.comments[k].post].author != u)
      && (forall k | k in r.users :: r.users[k] == t.users[k])
      && (forall k | k in r.posts :: r.posts[k] == t.posts[k])
      && (forall k | k in r.comments :: r.comments[k] == t.comments[k])
      && r.categories == t.categories && r.tags == t.tags
  {
  }

  /** After deleting a user no post or comment names the user or a removed post. */
  lemma DeleteUserReferences(t: Tables, u: nat)
    requires References(t)
    ensures References(DeleteUser(t, u))
  {
    var r := DeleteUser(t, u);
    forall k | k in r.posts ensures PostLinks(r, r.posts[k]) {
      assert PostLinks(t, t.posts[k]);
    }
    forall k | k in r.comments ensures CommentLinks(r, r.comments[k]) {
      assert CommentLinks(t, t.comments[k]);
    }
  }

  /** Deleting a user keeps the store sound: it only removes rows, and leaves none dangling. */
  lemma DeleteUserKeepsIntegrity(t: Tables, u: nat, next: nat)
    requires Integrity(t) && KeysBelow(t, next)
    ensures Integrity(DeleteUser(t, u)) && KeysBelow(DeleteUser(t, u), next)
  {
    var r := DeleteUser(t, u);
    DeleteUserReferences(t, u);
    assert SubTables(t, r);
    SubTablesUnique(t, r);
    SubTablesKeys(t, r, next);
  }

  /**
   * Deleting a user also deletes other users' comments on the user's
   * posts: the two cascades compose.
   */
  lemma DeleteUserTakesOthersComments(t: Tables, u: nat, c: nat)
    requires Integrity(t) && c in t.comments
    requires t.posts[t.comments[c].post].author == u
    ensures c !in DeleteUser(t, u).comments
  {
  }

  /**
   * Deleting a category keeps every post: those that were in it are now in
   * no category, unchanged otherwise (even `updated_at`), and the others
   * are untouched.
   */
  lemma DeleteCategoryRule(t: Tables, g: nat)
    ensures var r := DeleteCategory(t, g);
      && r.categories.Keys == t.categories.Keys - {g}
      && r.posts.Keys == t.posts.Keys
      && (forall k | k in t.posts ::
            if t.posts[k].category == Some(g) then r.posts[k] == t.posts[k].(category := None)
            else r.posts[k] == t.posts[k])
      && r.users == t.users && r.tags == t.tags && r.comments == t.comments
  {
  }

  /** Deleting a category keeps the store sound: no post is left in it. */
  lemma DeleteCategoryKeepsIntegrity(t: Tables, g: nat, next: nat)
    requires Integrity(t) && KeysBelow(t, next)
    ensures Integrity(DeleteCategory(t, g)) && KeysBelow(DeleteCategory(t, g), next)
  {
    var r := DeleteCategory(t, g);
    DeleteCategoryRelinks(t, g);
    RelinkedKeeps(t, r, next);
    DeleteCategoryLinks(t, g);
  }

  /** Deleting a category only clears links. */
  lemma DeleteCategoryRelinks(t: Tables, g: nat)
    ensures RelinksPosts(t, DeleteCategory(t, g))
  {
  }

  /** After deleting a category every post's links name stored rows. */
  lemma DeleteCategoryLinks(t: Tables, g: nat)
    requires References(t)
    ensures var r := DeleteCategory(t, g);
      forall k | k in r.posts :: PostLinks(r, r.posts[k])
  {
    var r := DeleteCategory(t, g);
    forall k | k in r.posts ensures PostLinks(r, r.posts[k]) {
      assert PostLinks(t, t.posts[k]);
    }
  }

  /**
   * Deleting a tag keeps every post; each loses the link to that tag, keeps
   * its other links in order, and is otherwise unchanged.
   */
  lemma DeleteTagRule(t: Tables, g: nat)
    ensures var r := DeleteTag(t, g);
      && r.tags.Keys == t.tags.Keys - {g}
      && r.posts.Keys == t.posts.Keys
      && (forall k | k in t.posts ::
            && r.posts[k] == t.posts[k].(tags := r.posts[k].tags)
            && (forall x :: x in r.posts[k].tags <==> x in t.posts[k].tags && x != g))
      && r.users == t.users && r.categories == t.categories && r.comments == t.comments
  {
  }

  /** Deleting a tag keeps the store sound: no post keeps a link to it. */
  lemma DeleteTagKeepsIntegrity(t: Tables, g: nat, next: nat)
    requires Integrity(t) && KeysBelow(t, next)
    ensures Integrity(DeleteTag(t, g)) && KeysBelow(DeleteTag(t, g), next)
  {
    var r := DeleteTag(t, g);
    DeleteTagRelinks(t, g);
    RelinkedKeeps(t, r, next);
    DeleteTagLinks(t, g);
  }

  /** Deleting a tag only drops links. */
  lemma DeleteTagRelinks(t: Tables, g: nat)
    ensures RelinksPosts(t, DeleteTag(t, g))
  {
  }

  /** After deleting a tag every post's links name stored rows, each tag once. */
  lemma DeleteTagLinks(t: Tables, g: nat)
    requires References(t)
    ensures var r := DeleteTag(t, g);
      forall k | k in r.posts :: PostLinks(r, r.posts[k])
  {
    var r := DeleteTag(t, g);
    forall k | k in r.posts ensures PostLinks(r, r.posts[k]) {
      assert PostLinks(t, t.posts[k]);
    }
  }

  /**
   * A soft delete removes nothing: every table keeps its keys, the marked row
   * becomes its old self with `deleted_at` set to now, and every other row of
   * every table stays equal to its old value.
   */
  lemma SoftDeleteRule(t: Tables, kind: Kind, id: nat, now: nat)
    ensures var r := SoftDelete(t, kind, id, now);
      && r.users.Keys == t.users.Keys && r.categories.Keys == t.categories.Keys
      && r.tags.Keys == t.tags.Keys && r.posts.Keys == t.posts.Keys
      && r.comments.Keys == t.comments.Keys
      && (kind == UserRow && id in t.users ==>
            r.users[id] == t.users[id].(stamps := t.users[id].stamps.(deletedAt := Some(now))))
      && (kind == CategoryRow && id in t.categories ==>
            r.categories[id] == t.categories[id].(stamps := t.categories[id].stamps.(deletedAt := Some(now))))
      && (kind == TagRow && id in t.tags ==>
            r.tags[id] == t.tags[id].(stamps := t.tags[id].stamps.(deletedAt := Some(now))))
      && (kind == PostRow && id in t.posts ==>
            r.posts[id] == t.posts[id].(stamps := t.posts[id].stamps.(deletedAt := Some(now))))
      && (kind == CommentRow && id in t.comments ==>
            r.comments[id] == t.comments[id].(stamps := t.comments[id].stamps.(deletedAt := Some(now))))
      && (forall k | k in t.users && !(kind == UserRow && k == id) :: r.users[k] == t.users[k])
      && (forall k | k in t.categories && !(kind == CategoryRow && k == id) :: r.categories[k] == t.categories[k])
      && (forall k | k in t.tags && !(kind == TagRow && k == id) :: r.tags[k] == t.tags[k])
      && (forall k | k in t.posts && !(kind == PostRow && k == id) :: r.posts[k] == t.posts[k])
      && (forall k | k in t.comments && !(kind == CommentRow && k == id) :: r.comments[k] == t.comments[k])
  {
    match kind
    case UserRow =>
    case CategoryRow =>
    case TagRow =>
    case PostRow =>
    case CommentRow =>
  }

  /** A soft delete keeps the store sound. */
  lemma SoftDeleteKeepsIntegrity(t: Tables, kind: Kind, id: nat, now: nat)
    requires Integrity(t)
    ensures Integrity(SoftDelete(t, kind, id, now))
  {
    var r := SoftDelete(t, kind, id, now);
    SoftDeleteSameButStamps(t, kind, id, now);
    SameButStampsUnique(t, r);
    SameButStampsReferences(t, r);
    SameButStampsKeys(t, r);
  }
}
