/** The three tables the handlers read and write, as created by the
    migrations: users (with unique email), posts (owned by a user) and
    comments (on a post, by a user). Timestamps are integers in milliseconds
    since the epoch; a NULL column is `None`. Row ids are natural numbers
    standing for the UUIDs the database generates. */
module Schema {
  import opened Basics

  type UserId = nat
  type PostId = nat
  type CommentId = nat

  /** The `role` column: 'user' (the default) or 'admin'. */
  datatype Role = User | Admin

  datatype Account = Account(
    name: string,
    email: string,
    passwordHash: string,
    role: Role,
    isActive: bool,
    isEmailVerified: bool,
    otp: Option<string>,
    otpExpiresAt: Option<int>,
    passwordResetToken: Option<string>,
    passwordResetTokenExpiresAt: Option<int>,
    passwordChangedAt: Option<int>,
    createdAt: int)

  datatype Post = Post(userId: UserId, title: string, content: string, createdAt: int)

  datatype Comment = Comment(postId: PostId, userId: UserId, content: string, createdAt: int)

  datatype Tables = Tables(
    users: map<UserId, Account>,
    posts: map<PostId, Post>,
    comments: map<CommentId, Comment>)

  /** The row a fresh signup inserts: column defaults role 'user', isActive
      TRUE, isEmailVerified FALSE, no reset token, passwordChangedAt NULL. */
  function NewAccount(name: string, email: string, passwordHash: string,
                      otp: string, otpExpiresAt: int, now: int): (a: Account)
    ensures a.role == User && a.isActive && !a.isEmailVerified
    ensures a.otp == Some(otp) && a.otpExpiresAt == Some(otpExpiresAt)
    ensures a.passwordResetToken.None? && a.passwordResetTokenExpiresAt.None?
    ensures a.passwordChangedAt.None?
  {
    Account(name, email, passwordHash, User, true, false,
            Some(otp), Some(otpExpiresAt), None, None, None, now)
  }

  /** The UNIQUE constraint on users.email. */
  predicate EmailsUnique(users: map<UserId, Account>)
  {
    forall a, b :: a in users && b in users && users[a].email == users[b].email ==> a == b
  }

  /** A one-time code and its expiry are set and cleared together, and so
      are a reset token and its expiry. */
  predicate Paired(a: Account)
  {
    && (a.otp.Some? <==> a.otpExpiresAt.Some?)
    && (a.passwordResetToken.Some? <==> a.passwordResetTokenExpiresAt.Some?)
  }

  /** Every row of every table has an id below `next`, the next id the model hands out. */
  predicate IdsBelow(t: Tables, next: nat)
  {
    && (forall id :: id in t.users ==> id < next)
    && (forall id :: id in t.posts ==> id < next)
    && (forall id :: id in t.comments ==> id < next)
  }

  /** The foreign keys posts.user_id, comments.post_id and comments.user_id. */
  predicate ReferencesExist(t: Tables)
  {
    && (forall p :: p in t.posts ==> t.posts[p].userId in t.users)
    && (forall c :: c in t.comments ==> t.comments[c].postId in t.posts && t.comments[c].userId in t.users)
  }

  predicate TablesValid(t: Tables, next: nat)
  {
    && IdsBelow(t, next)
    && EmailsUnique(t.users)
    && (forall id :: id in t.users ==> Paired(t.users[id]))
    && ReferencesExist(t)
  }

  /** `SELECT ... FROM users WHERE email = $1`: the row, if any (at most one,
      by the UNIQUE constraint). */
  function UserByEmail(users: map<UserId, Account>, email: string): (r: Option<UserId>)
    requires EmailsUnique(users)
    ensures r.Some? ==> r.value in users && users[r.value].email == email
    ensures r.None? ==> forall id :: id in users ==> users[id].email != email
  {
    if exists id :: id in users && users[id].email == email then
      var id :| id in users && users[id].email == email; Some(id)
    else None
  }

  /** The lookup finds the one row that has the email. */
  lemma UserByEmailFinds(users: map<UserId, Account>, email: string, id: UserId)
    requires EmailsUnique(users) && id in users && users[id].email == email
    ensures UserByEmail(users, email) == Some(id)
  {
  }

  /** Every (id, row) of `users` receives `f`'s update: an UPDATE without WHERE. */
  function UpdateAll(users: map<UserId, Account>, f: Account -> Account): (r: map<UserId, Account>)
    ensures r.Keys == users.Keys
    ensures forall id :: id in users ==> r[id] == f(users[id])
  {
    map id | id in users :: f(users[id])
  }

  /** Replacing a user's row by one with the same email and paired fields
      keeps the tables valid. */
  lemma ReplaceAccountValid(t: Tables, next: nat, id: UserId, a: Account)
    requires TablesValid(t, next) && id in t.users
    requires a.email == t.users[id].email && Paired(a)
    ensures TablesValid(t.(users := t.users[id := a]), next)
  {
    var u := t.users[id := a];
    forall x, y | x in u && y in u && u[x].email == u[y].email
      ensures x == y
    {
      assert u[x].email == t.users[x].email && u[y].email == t.users[y].email;
    }
  }

  /** Inserting a fresh user whose email is not taken keeps the tables valid. */
  lemma InsertAccountValid(t: Tables, next: nat, id: UserId, a: Account)
    requires TablesValid(t, next) && id < next && id !in t.users
    requires forall x :: x in t.users ==> t.users[x].email != a.email
    requires Paired(a)
    ensures TablesValid(t.(users := t.users[id := a]), next)
  {
  }

  /** Applying to every user an update that keeps its email and pairing
      keeps the tables valid. */
  lemma UpdateAllValid(t: Tables, next: nat, f: Account -> Account)
    requires TablesValid(t, next)
    requires forall x :: x in t.users ==> f(t.users[x]).email == t.users[x].email && Paired(f(t.users[x]))
    ensures TablesValid(t.(users := UpdateAll(t.users, f)), next)
  {
    var u := UpdateAll(t.users, f);
    forall x, y | x in u && y in u && u[x].email == u[y].email
      ensures x == y
    {
      assert u[x].email == t.users[x].email && u[y].email == t.users[y].email;
    }
  }

  /** `DELETE FROM posts WHERE id = $1`: the post goes, and with it, by
      `ON DELETE CASCADE`, every comment on it. */
  function RemovePost(t: Tables, pid: PostId): (r: Tables)
    ensures r.users == t.users && r.posts == t.posts - {pid}
    ensures forall c :: c in r.comments <==> c in t.comments && t.comments[c].postId != pid
    ensures forall c :: c in r.comments ==> r.comments[c] == t.comments[c]
  {
    t.(posts := t.posts - {pid},
       comments := map c | c in t.comments && t.comments[c].postId != pid :: t.comments[c])
  }

  lemma DeletePostValid(t: Tables, next: nat, pid: PostId)
    requires TablesValid(t, next)
    ensures TablesValid(RemovePost(t, pid), next)
  {
  }

  /** Inserting a post by an existing user under a fresh id keeps the tables valid. */
  lemma InsertPostValid(t: Tables, next: nat, id: PostId, p: Post)
    requires TablesValid(t, next) && id < next && p.userId in t.users
    ensures TablesValid(t.(posts := t.posts[id := p]), next)
  {
  }

  /** Rewriting a post without changing its author keeps the tables valid. */
  lemma ReplacePostValid(t: Tables, next: nat, id: PostId, p: Post)
    requires TablesValid(t, next) && id in t.posts && p.userId == t.posts[id].userId
    ensures TablesValid(t.(posts := t.posts[id := p]), next)
  {
  }

  /** The next id is free in every table, and the invariant still holds
      once the counter moves past it. */
  lemma NextIdFree(t: Tables, next: nat)
    requires TablesValid(t, next)
    ensures next !in t.users && next !in t.posts && next !in t.comments
    ensures TablesValid(t, next + 1)
  {
  }

  /** Inserting a comment on an existing post by an existing user keeps the
      tables valid. */
  lemma InsertCommentValid(t: Tables, next: nat, id: CommentId, c: Comment)
    requires TablesValid(t, next) && id < next && c.postId in t.posts && c.userId in t.users
    ensures TablesValid(t.(comments := t.comments[id := c]), next)
  {
  }

  lemma ReplaceCommentValid(t: Tables, next: nat, id: CommentId, c: Comment)
    requires TablesValid(t, next) && id in t.comments
    requires c.postId == t.comments[id].postId && c.userId == t.comments[id].userId
    ensures TablesValid(t.(comments := t.comments[id := c]), next)
  {
  }

  lemma DeleteCommentValid(t: Tables, next: nat, id: CommentId)
    requires TablesValid(t, next)
    ensures TablesValid(t.(comments := t.comments - {id}), next)
  {
  }
}
