/**
 * The database the ORM writes to: five tables updated in place, and one
 * key counter handing out primary keys. Each method is the pure operation
 * of `BlogModels` or `UserManager` applied to the current tables, and each
 * keeps the store sound.
 */
module Database {
  import opened Wrappers
  import opened UserModel
  import opened BlogModels
  import opened BlogRules
  import UserManager

  class Store {
    var users: UserTable
    var categories: map<nat, Category>
    var tags: map<nat, Tag>
    var posts: map<nat, Post>
    var comments: map<nat, Comment>
    var nextId: nat

    function Snapshot(): Tables
      reads this
    {
      Tables(users, categories, tags, posts, comments)
    }

    /** The declared constraints hold, and `nextId` is free in every table. */
    predicate Valid()
      reads this
    {
      Integrity(Snapshot()) && KeysBelow(Snapshot(), nextId)
    }

    constructor ()
      ensures Valid() && Snapshot() == Tables(map[], map[], map[], map[], map[]) && nextId == 1
    {
      users, categories, tags, posts, comments := map[], map[], map[], map[], map[];
      nextId := 1;
    }

    /**
     * The store's write helper: installs sound tables and a key counter above
     * every key, as one write.
     */
    method Load(t: Tables, next: nat)
      requires Integrity(t) && KeysBelow(t, next)
      modifies this
      ensures Valid() && Snapshot() == t && nextId == next
    {
      users, categories, tags, posts, comments := t.users, t.categories, t.tags, t.posts, t.comments;
      nextId := next;
    }

    /** `CustomUser.objects.create_user(…)`: the row is saved under the next key, or nothing changes. */
    method CreateUser(hooks: UserManager.Hooks, args: UserManager.UserArgs, now: nat)
      returns (r: Result<CustomUser, UserManager.ManagerError>)
      requires Valid()
      modifies this
      ensures Valid()
      ensures match UserManager.CreateUser(old(users), old(nextId), hooks, args, now)
        case Success(saved) =>
          r == Success(saved.user) && Snapshot() == old(Snapshot()).(users := saved.users)
          && nextId == old(nextId) + 1
        case Failure(e) => r == Failure(e) && Snapshot() == old(Snapshot()) && nextId == old(nextId)
    {
      var res := UserManager.CreateUser(users, nextId, hooks, args, now);
      Commit(res, hooks, args, now, false);
      r := if res.Success? then Success(res.value.user) else Failure(res.error);
    }

    /** `CustomUser.objects.create_superuser(…)`. */
    method CreateSuperuser(hooks: UserManager.Hooks, args: UserManager.UserArgs, now: nat)
      returns (r: Result<CustomUser, UserManager.ManagerError>)
      requires Valid()
      modifies this
      ensures Valid()
      ensures match UserManager.CreateSuperuser(old(users), old(nextId), hooks, args, now)
        case Success(saved) =>
          r == Success(saved.user) && Snapshot() == old(Snapshot()).(users := saved.users)
          && nextId == old(nextId) + 1
        case Failure(e) => r == Failure(e) && Snapshot() == old(Snapshot()) && nextId == old(nextId)
    {
      var res := UserManager.CreateSuperuser(users, nextId, hooks, args, now);
      Commit(res, hooks, args, now, true);
      r := if res.Success? then Success(res.value.user) else Failure(res.error);
    }

    /** Stores the outcome of one of the manager's two creation paths. */
    method Commit(res: Result<UserManager.Saved, UserManager.ManagerError>, hooks: UserManager.Hooks,
                  args: UserManager.UserArgs, now: nat, super: bool)
      requires Valid()
      requires res == if super then UserManager.CreateSuperuser(users, nextId, hooks, args, now)
                      else UserManager.CreateUser(users, nextId, hooks, args, now)
      modifies this
      ensures Valid()
      ensures res.Success? ==> Snapshot() == old(Snapshot()).(users := res.value.users) && nextId == old(nextId) + 1
      ensures res.Failure? ==> Snapshot() == old(Snapshot()) && nextId == old(nextId)
    {
      if res.Success? {
        if super {
          UserManager.CreateSuperuserOutcome(users, nextId, hooks, args, now);
        } else {
          UserManager.CreateUserOutcome(users, nextId, hooks, args, now);
        }
        var u := res.value.user;
        assert res.value.users == users[nextId := u] && u.id == nextId;
        assert !EmailTaken(users, u.email);
        InsertUserRule(Snapshot(), u);
        users := res.value.users;
        nextId := nextId + 1;
      }
    }

    method AddCategory(name: string, slug: string, now: nat) returns (r: Result<nat, DbError>)
      requires Valid()
      modifies this
      ensures Valid()
      ensures match InsertCategory(old(Snapshot()), old(nextId), name, slug, now)
        case Success(t) => r == Success(old(nextId)) && Snapshot() == t && nextId == old(nextId) + 1
        case Failure(e) => r == Failure(e) && Snapshot() == old(Snapshot()) && nextId == old(nextId)
    {
      var res := InsertCategory(Snapshot(), nextId, name, slug, now);
      if res.Failure? { return Failure(res.error); }
      InsertCategoryRule(Snapshot(), nextId, name, slug, now);
      r := Success(nextId);
      Load(res.value, nextId + 1);
    }

    method AddTag(name: string, slug: string, now: nat) returns (r: Result<nat, DbError>)
      requires Valid()
      modifies this
      ensures Valid()
      ensures match InsertTag(old(Snapshot()), old(nextId), name, slug, now)
        case Success(t) => r == Success(old(nextId)) && Snapshot() == t && nextId == old(nextId) + 1
        case Failure(e) => r == Failure(e) && Snapshot() == old(Snapshot()) && nextId == old(nextId)
    {
      var res := InsertTag(Snapshot(), nextId, name, slug, now);
      if res.Failure? { return Failure(res.error); }
      InsertTagRule(Snapshot(), nextId, name, slug, now);
      r := Success(nextId);
      Load(res.value, nextId + 1);
    }

    /** `Post.objects.create(author=…, slug=…, **content)` and the tag links. */
    method AddPost(author: nat, slug: string, input: PostInput, now: nat) returns (r: Result<nat, DbError>)
      requires Valid()
      modifies this
      ensures Valid()
      ensures match InsertPost(old(Snapshot()), old(nextId), author, slug, input, now)
        case Success(t) => r == Success(old(nextId)) && Snapshot() == t && nextId == old(nextId) + 1
        case Failure(e) => r == Failure(e) && Snapshot() == old(Snapshot()) && nextId == old(nextId)
    {
      var res := InsertPost(Snapshot(), nextId, author, slug, input, now);
      if res.Failure? { return Failure(res.error); }
      InsertPostRule(Snapshot(), nextId, author, slug, input, now);
      r := Success(nextId);
      Load(res.value, nextId + 1);
    }

    /** `post.save()` after a partial update. */
    method SavePost(id: nat, input: PostInput, now: nat) returns (r: Option<DbError>)
      requires Valid() && id in posts
      modifies this
      ensures Valid() && nextId == old(nextId)
      ensures match UpdatePost(old(Snapshot()), id, input, now)
        case Success(t) => r == None && Snapshot() == t
        case Failure(e) => r == Some(e) && Snapshot() == old(Snapshot())
    {
      var res := UpdatePost(Snapshot(), id, input, now);
      if res.Failure? { return Some(res.error); }
      UpdatePostKeepsIntegrity(Snapshot(), id, input, now);
      Load(res.value, nextId);
      r := None;
    }

    method AddComment(post: nat, author: nat, body: string, now: nat) returns (r: Result<nat, DbError>)
      requires Valid()
      modifies this
      ensures Valid()
      ensures match InsertComment(old(Snapshot()), old(nextId), post, author, body, now)
        case Success(t) => r == Success(old(nextId)) && Snapshot() == t && nextId == old(nextId) + 1
        case Failure(e) => r == Failure(e) && Snapshot() == old(Snapshot()) && nextId == old(nextId)
    {
      var res := InsertComment(Snapshot(), nextId, post, author, body, now);
      if res.Failure? { return Failure(res.error); }
      InsertCommentRule(Snapshot(), nextId, post, author, body, now);
      r := Success(nextId);
      Load(res.value, nextId + 1);
    }

    /** `comment.delete()`. */
    method RemoveComment(c: nat)
      requires Valid()
      modifies this
      ensures Valid() && Snapshot() == DeleteComment(old(Snapshot()), c) && nextId == old(nextId)
    {
      DeleteCommentKeepsIntegrity(Snapshot(), c, nextId);
      comments := comments - {c};
    }

    /** `post.delete()`: the post, then every comment that named it. */
    method RemovePost(p: nat)
      requires Valid()
      modifies this
      ensures Valid() && Snapshot() == DeletePost(old(Snapshot()), p) && nextId == old(nextId)
    {
      DeletePostKeepsIntegrity(Snapshot(), p, nextId);
      comments := map c | c in comments && comments[c].post != p :: comments[c];
      posts := posts - {p};
    }

    /** `user.delete()`: the user's posts, the comments on them, the user's comments, the user. */
    method RemoveUser(u: nat)
      requires Valid()
      modifies this
      ensures Valid() && Snapshot() == DeleteUser(old(Snapshot()), u) && nextId == old(nextId)
    {
      DeleteUserKeepsIntegrity(Snapshot(), u, nextId);
      posts := map p | p in posts && posts[p].author != u :: posts[p];
      comments := map c | c in comments && comments[c].author != u && comments[c].post in posts :: comments[c];
      users := users - {u};
    }

    /** `category.delete()`: its posts stay, with no category. */
    method RemoveCategory(g: nat)
      requires Valid()
      modifies this
      ensures Valid() && Snapshot() == DeleteCategory(old(Snapshot()), g) && nextId == old(nextId)
    {
      DeleteCategoryKeepsIntegrity(Snapshot(), g, nextId);
      posts := map p | p in posts :: if posts[p].category == Some(g) then posts[p].(category := None) else posts[p];
      categories := categories - {g};
    }

    /** `tag.delete()`: the links go, the posts stay. */
    method RemoveTag(g: nat)
      requires Valid()
      modifies this
      ensures Valid() && Snapshot() == DeleteTag(old(Snapshot()), g) && nextId == old(nextId)
    {
      DeleteTagKeepsIntegrity(Snapshot(), g, nextId);
      posts := map p | p in posts :: posts[p].(tags := Without(posts[p].tags, g));
      tags := tags - {g};
    }

    /** The intended soft delete: `deleted_at := now`, saved alone. */
    method MarkDeleted(kind: Kind, id: nat, now: nat)
      requires Valid()
      modifies this
      ensures Valid() && Snapshot() == SoftDelete(old(Snapshot()), kind, id, now) && nextId == old(nextId)
    {
      SoftDeleteKeepsIntegrity(Snapshot(), kind, id, now);
      Load(SoftDelete(Snapshot(), kind, id, now), nextId);
    }
  }
}
