/** The post handlers, all behind protectRoute: create, read one, list,
    update and delete.

    createPost never records its client in `req.pgClient`. updatePost and
    deletePost issue no BEGIN, so their statements take effect as they run
    and their COMMIT only warns. */
module PostController {
  import opened Basics
  import opened Schema
  import opened Http
  import opened Runtime
  import opened ApiFeatures
  import UserController

  const TitleAndContentRequired := "Title and content are required."
  const PostNotFound := "Post not found."
  const FieldRequired := "At least one field is required."
  const MissingAuthorText := "insert or update on table \"posts\" violates foreign key constraint"

  /** posts.user_id REFERENCES users(id): the author does not exist. */
  function MissingAuthor(): (e: Failure)
    ensures e.code == "23503"
  {
    DatabaseError("23503", "", MissingAuthorText)
  }

  // ================================================================ createPost

  /** `POST /posts`. */
  function CreatePostSpec(t: Tables, me: Identity, newId: PostId, title: string, content: string,
                          now: int): Outcome
  {
    if title == "" || content == "" then Outcome(t, Reject(TitleAndContentRequired, 400), Unconnected)
    else if me.id !in t.users then Outcome(t, Fail(MissingAuthor()), InTxnUnrecorded)
    else
      Outcome(t.(posts := t.posts[newId := Post(me.id, title, content, now)]),
              Respond(201, PostCreated(newId, title, content, me.name, now), KeepCookie),
              ReleasedUnrecorded)
  }

  method CreatePost(db: Database, req: Request, title: string, content: string, now: int)
    returns (r: HandlerResult)
    requires db.Idle() && req.user.Some?
    modifies db, req
    ensures db.Valid() && req.user == old(req.user)
    ensures var o := CreatePostSpec(old(db.tables), old(req.user).value, old(db.nextId), title, content, now);
      && r == o.result && db.tables == o.tables
      && Left(o.reach, old(db.tables), old(db.nextLease), old(req.pgClient), req.pgClient, db.leased, db.txn)
  {
    if title == "" || content == "" {
      return Reject(TitleAndContentRequired, 400);
    }
    var id := req.user.value.id;
    var name := req.user.value.name;
    var client := db.Connect();
    db.Begin(client);

    if id !in db.tables.users {
      return Fail(MissingAuthor());
    }
    var newPostId := db.FreshId();
    var post := Post(id, title, content, now);
    InsertPostValid(db.tables, db.nextId, newPostId, post);
    db.Store(db.tables.(posts := db.tables.posts[newPostId := post]));
    db.Commit(client);
    var released := db.Release(client);
    r := Respond(201, PostCreated(newPostId, title, content, name, now), KeepCookie);
  }

  /** createPost adds exactly one post, by the caller, under a fresh id, and
      leaves users and comments alone. */
  lemma CreatePostAddsOne(t: Tables, next: nat, me: Identity, title: string, content: string, now: int)
    requires TablesValid(t, next)
    ensures var o := CreatePostSpec(t, me, next, title, content, now);
      && (o.result.Respond? <==> title != "" && content != "" && me.id in t.users)
      && (o.result.Respond? ==>
            && next !in t.posts
            && o.tables == t.(posts := t.posts[next := Post(me.id, title, content, now)])
            && TablesValid(o.tables, next + 1))
      && (!o.result.Respond? ==> o.tables == t)
  {
    if title != "" && content != "" && me.id in t.users {
      InsertPostValid(t, next + 1, next, Post(me.id, title, content, now));
    }
  }

  // ================================================================ getPost

  /** `GET /posts/:postId`: the post joined with its author. */
  function GetPostSpec(t: Tables, postId: IdParam): Outcome
  {
    if postId.NotUuid? then Outcome(t, Fail(BadUuid()), InTxn)
    else if postId.Absent? || postId.id !in t.posts || t.posts[postId.id].userId !in t.users then
      Outcome(t, Reject(PostNotFound, 404), InTxn)
    else
      var p := t.posts[postId.id];
      var author := t.users[p.userId];
      Outcome(t, Respond(200, PostView(postId.id, p.title, p.content, p.createdAt, author.name, author.email),
                         KeepCookie), Released)
  }

  method GetPost(db: Database, req: Request, postId: IdParam) returns (r: HandlerResult)
    requires db.Idle()
    modifies db, req
    ensures db.Valid() && req.user == old(req.user)
    ensures var o := GetPostSpec(old(db.tables), postId);
      && r == o.result && db.tables == o.tables
      && Left(o.reach, old(db.tables), old(db.nextLease), old(req.pgClient), req.pgClient, db.leased, db.txn)
  {
    var client := db.Connect();
    req.pgClient := Some(client);
    db.Begin(client);

    if postId.NotUuid? {
      return Fail(BadUuid());
    }
    if !postId.Given? || postId.id !in db.tables.posts || db.tables.posts[postId.id].userId !in db.tables.users {
      return Reject(PostNotFound, 404);
    }
    var p := db.tables.posts[postId.id];
    var author := db.tables.users[p.userId];
    db.Commit(client);
    var released := db.Release(client);
    r := Respond(200, PostView(postId.id, p.title, p.content, p.createdAt, author.name, author.email), KeepCookie);
  }

  /** On valid tables every stored post is found with its author's name and
      email, and nothing else is: an id that is not a UUID comes back as
      SQLSTATE 22P02, and a missing or unknown id is a 404. */
  lemma GetPostFinds(t: Tables, next: nat, postId: IdParam)
    requires TablesValid(t, next)
    ensures var o := GetPostSpec(t, postId);
      && o.tables == t
      && (postId.NotUuid? ==> o.result == Fail(BadUuid()) && o.result.error.code == "22P02")
      && (!postId.NotUuid? && !o.result.Respond? ==> o.result == Reject(PostNotFound, 404))
      && (o.result.Respond? <==> postId.Given? && postId.id in t.posts)
      && (o.result.Respond? ==>
            var p := t.posts[postId.id];
            o.result.payload == PostView(postId.id, p.title, p.content, p.createdAt,
                                         t.users[p.userId].name, t.users[p.userId].email))
  {
  }

  // ================================================================ getAllPosts

  const PostColumns := "SELECT posts.id, posts.title, posts.content, posts.created_at, users.name AS author"
  const PostsFrom := "\n    FROM posts \n    JOIN users ON posts.user_id = users.id\n    "

  /** The select list getAllPosts builds from `fields`, then discards. */
  function RequestedColumns(selectedFields: string): string
  {
    "SELECT " + selectedFields + ", posts.id, posts.title, posts.content, posts.created_at, users.name AS author"
  }

  /** The statement getAllPosts sends. The column list it builds from
      `fields` is overwritten by the fixed one before use. */
  function PostsSql(q: Query, whereByClause: string): string
  {
    "\n    " + PostColumns + PostsFrom + whereByClause
    + "\n    " + ApplySorting(q) + " \n    " + ApplyPagination(q) + "\n  "
  }

  /** The statement getAllPosts sends and its parameter values, built from
      the query string as the handler builds them. */
  method PostsStatement(q: Query) returns (sql: string, values: seq<Param>)
    ensures var kept := Retained(q);
      && sql == PostsSql(q, WhereClause(FilterTexts(KeysOf(kept), 1)))
      && |values| == |kept| && (forall i :: 0 <= i < |kept| ==> values[i] == Coerce(kept[i].1))
  {
    var selectedFields := ApplyFieldLimiting(q);
    var whereByClause;
    whereByClause, values := ApplyFiltering(q);
    var limitClause := ApplyPagination(q);
    var orderByClause := ApplySorting(q);

    var selectQuery := "";
    if selectedFields != "" {
      selectQuery := RequestedColumns(selectedFields);
    }
    selectQuery := PostColumns;
    sql := "\n    " + selectQuery + PostsFrom + whereByClause + "\n    " + orderByClause + " \n    " + limitClause + "\n  ";
  }

  /** `GET /posts`. */
  method GetAllPosts(db: Database, req: Request, q: Query, answer: UserController.SqlAnswer)
    returns (r: HandlerResult, sql: string, values: seq<Param>)
    requires db.Idle() && req.user.Some?
    modifies db, req
    ensures db.Valid() && req.user == old(req.user)
    ensures var kept := Retained(q);
      && sql == PostsSql(q, WhereClause(FilterTexts(KeysOf(kept), 1)))
      && |values| == |kept| && (forall i :: 0 <= i < |kept| ==> values[i] == Coerce(kept[i].1))
    ensures var o := UserController.AnswerSpec(old(db.tables), answer);
      && r == o.result && db.tables == o.tables
      && Left(o.reach, old(db.tables), old(db.nextLease), old(req.pgClient), req.pgClient, db.leased, db.txn)
  {
    var client := db.Connect();
    req.pgClient := Some(client);
    db.Begin(client);

    sql, values := PostsStatement(q);

    if answer.SqlError? {
      return Fail(DatabaseError(answer.code, answer.column, answer.message)), sql, values;
    }
    if answer.count == 0 {
      return Reject(UserController.NoMatchingRecords, 404), sql, values;
    }
    db.Commit(client);
    var released := db.Release(client);
    r := Respond(200, Rows(answer.count), KeepCookie);
  }

  /** getAllPosts ignores `fields`: queries that differ only in it send the
      same statement. */
  lemma PostsSqlIgnoresFields(q: Query, fields: string)
    requires forall i :: 0 <= i < |q| ==> q[i].0 != "fields"
    ensures var q2 := q + [("fields", fields)];
      PostsSql(q2, WhereClause(FilterTexts(KeysOf(Retained(q2)), 1))) ==
      PostsSql(q, WhereClause(FilterTexts(KeysOf(Retained(q)), 1)))
  {
    var q2 := q + [("fields", fields)];
    AppendedKeyUnseen(q, ("fields", fields), "sort");
    AppendedKeyUnseen(q, ("fields", fields), "page");
    AppendedKeyUnseen(q, ("fields", fields), "limit");
    UserController.SameSort(q2, q);
    UserController.SamePages(q2, q);
    RetainedDropsExcludedTail(q, ("fields", fields));
  }

  /** Appending a pair under another key does not change what `key` reads. */
  lemma {:induction false} AppendedKeyUnseen(q: Query, pair: (string, string), key: string)
    requires pair.0 != key
    ensures Get(q + [pair], key) == Get(q, key)
    decreases |q|
  {
    if |q| == 0 {
      assert Get([pair], key) == Get([], key);
    } else {
      assert (q + [pair])[1..] == q[1..] + [pair];
      AppendedKeyUnseen(q[1..], pair, key);
    }
  }

  lemma {:induction false} RetainedDropsExcludedTail(q: Query, pair: (string, string))
    requires pair.0 == "fields"
    ensures Retained(q + [pair]) == Retained(q)
    decreases |q|
  {
    if |q| == 0 {
      assert [pair][1..] == [];
      assert Retained([pair]) == [] + Retained([]);
    } else {
      assert (q + [pair])[1..] == q[1..] + [pair];
      RetainedDropsExcludedTail(q[1..], pair);
    }
  }

  // ================================================================ updatePost

  /** `PATCH /posts/:postId`: any signed-in user may edit any post. A field
      left empty keeps its stored value. */
  function UpdatePostSpec(t: Tables, postId: IdParam, title: string, content: string): Outcome
  {
    if title == "" && content == "" then Outcome(t, Reject(FieldRequired, 400), Unconnected)
    else if postId.NotUuid? then Outcome(t, Fail(BadUuid()), Held)
    else if postId.Absent? || postId.id !in t.posts then Outcome(t, Reject(PostNotFound, 404), Held)
    else
      var p := t.posts[postId.id];
      var updated := p.(title := if title != "" then title else p.title,
                        content := if content != "" then content else p.content);
      Outcome(t.(posts := t.posts[postId.id := updated]), Respond(200, PostRow(postId.id, updated), KeepCookie),
              Released)
  }

  method UpdatePost(db: Database, req: Request, postId: IdParam, title: string, content: string)
    returns (r: HandlerResult)
    requires db.Idle()
    modifies db, req
    ensures db.Valid() && req.user == old(req.user)
    ensures var o := UpdatePostSpec(old(db.tables), postId, title, content);
      && r == o.result && db.tables == o.tables
      && Left(o.reach, old(db.tables), old(db.nextLease), old(req.pgClient), req.pgClient, db.leased, db.txn)
  {
    if title == "" && content == "" {
      return Reject(FieldRequired, 400);
    }
    var client := db.Connect();
    req.pgClient := Some(client);

    if postId.NotUuid? {
      return Fail(BadUuid());
    }
    if !postId.Given? || postId.id !in db.tables.posts {
      return Reject(PostNotFound, 404);
    }
    var p := db.tables.posts[postId.id];
    var updatedTitle := if title != "" then title else p.title;
    var updatedContent := if content != "" then content else p.content;
    var updated := p.(title := updatedTitle, content := updatedContent);
    ReplacePostValid(db.tables, db.nextId, postId.id, updated);
    db.Store(db.tables.(posts := db.tables.posts[postId.id := updated]));
    db.Commit(client);
    var released := db.Release(client);
    r := Respond(200, PostRow(postId.id, updated), KeepCookie);
  }

  /** updatePost rewrites the title and content given, keeps the author,
      the creation time and every other row, and succeeds for any existing
      post whoever asks (the handler does not read `req.user`). */
  lemma UpdatePostRewrites(t: Tables, next: nat, postId: IdParam, title: string, content: string)
    requires TablesValid(t, next)
    ensures var o := UpdatePostSpec(t, postId, title, content);
      && (o.result.Respond? <==> (title != "" || content != "") && postId.Given? && postId.id in t.posts)
      && (o.result.Respond? ==>
            var p := t.posts[postId.id];
            && o.tables.posts.Keys == t.posts.Keys
            && o.tables.posts[postId.id].userId == p.userId
            && o.tables.posts[postId.id].createdAt == p.createdAt
            && o.tables.posts[postId.id].title == (if title != "" then title else p.title)
            && o.tables.posts[postId.id].content == (if content != "" then content else p.content)
            && (forall id :: id in t.posts && id != postId.id ==> o.tables.posts[id] == t.posts[id])
            && o.tables.users == t.users && o.tables.comments == t.comments)
      && (!o.result.Respond? ==> o.tables == t)
      && TablesValid(o.tables, next)
  {
    var o := UpdatePostSpec(t, postId, title, content);
    if o.result.Respond? {
      ReplacePostValid(t, next, postId.id, o.tables.posts[postId.id]);
    }
  }

  // ================================================================ deletePost

  /** `DELETE /posts/:postId` (and `DELETE /posts`, where postId is absent). */
  function DeletePostSpec(t: Tables, me: Identity, postId: IdParam): Outcome
  {
    if postId.NotUuid? then Outcome(t, Fail(BadUuid()), Held)
    else if postId.Absent? || postId.id !in t.posts || t.posts[postId.id].userId != me.id then
      Outcome(t, Reject(PostNotFound, 404), Held)
    else Outcome(RemovePost(t, postId.id), Respond(204, NoData, KeepCookie), Released)
  }

  method DeletePost(db: Database, req: Request, postId: IdParam) returns (r: HandlerResult)
    requires db.Idle() && req.user.Some?
    modifies db, req
    ensures db.Valid() && req.user == old(req.user)
    ensures var o := DeletePostSpec(old(db.tables), old(req.user).value, postId);
      && r == o.result && db.tables == o.tables
      && Left(o.reach, old(db.tables), old(db.nextLease), old(req.pgClient), req.pgClient, db.leased, db.txn)
  {
    var userId := req.user.value.id;
    var client := db.Connect();
    req.pgClient := Some(client);

    if postId.NotUuid? {
      return Fail(BadUuid());
    }
    // DELETE FROM posts WHERE id = $1 AND user_id = $2
    if !postId.Given? || postId.id !in db.tables.posts || db.tables.posts[postId.id].userId != userId {
      return Reject(PostNotFound, 404);
    }
    DeletePostValid(db.tables, db.nextId, postId.id);
    db.Store(RemovePost(db.tables, postId.id));
    db.Commit(client);
    var released := db.Release(client);
    r := Respond(204, NoData, KeepCookie);
  }

  /** Only a post's author can delete it; the post and every comment on it
      go, and nothing else changes. Someone else's post, or no post, is
      answered 404 alike. */
  lemma DeletePostOwnerOnly(t: Tables, next: nat, me: Identity, postId: IdParam)
    requires TablesValid(t, next)
    ensures var o := DeletePostSpec(t, me, postId);
      && (o.result.Respond? <==> postId.Given? && postId.id in t.posts && t.posts[postId.id].userId == me.id)
      && (o.result.Respond? ==>
            && o.tables.posts == t.posts - {postId.id}
            && o.tables.users == t.users
            && (forall c :: c in o.tables.comments <==> c in t.comments && t.comments[c].postId != postId.id)
            && (forall c :: c in o.tables.comments ==> o.tables.comments[c] == t.comments[c]))
      && (!o.result.Respond? ==> o.tables == t)
      && (postId.Given? && postId.id in t.posts && t.posts[postId.id].userId != me.id ==>
            o.result == Reject(PostNotFound, 404))
      && TablesValid(o.tables, next)
  {
    if postId.Given? {
      DeletePostValid(t, next, postId.id);
    }
  }
}
