/** The user and follow tables: users are unique by e-mail (the login field)
    and by username and are listed by username; a follow is a bare
    (follower, author) pair listed by author id, newest author first. */
module UserModels {
  import opened Seqs
  import opened Ordering

  type UserId = nat

  datatype User = User(id: UserId, email: string, username: string, firstName: string, lastName: string)

  /** One row of the follow table: `user` follows `author`. The table has
      no unique constraint and no check that the two differ. */
  datatype Follow = Follow(user: UserId, author: UserId)

  const UsernameMaxLength := 100
  const FirstNameMaxLength := 50
  const LastNameMaxLength := 50

  /** Ids, e-mails and usernames are each unique across the table. */
  ghost predicate UsersUnique(users: seq<User>)
  {
    forall i, j :: 0 <= i < j < |users| ==>
      users[i].id != users[j].id && users[i].email != users[j].email && users[i].username != users[j].username
  }

  function UserIds(users: seq<User>): set<UserId>
  {
    set u | u in users :: u.id
  }

  datatype IntegrityError = UniqueViolation

  /** Inserting a user row: the database refuses an e-mail or a username
      that is already taken. The id comes from the table's sequence and is
      fresh. */
  function InsertUser(users: seq<User>, u: User): (r: Result<seq<User>, IntegrityError>)
    requires u.id !in UserIds(users)
    requires UsersUnique(users)
    ensures r.Ok? <==> forall v :: v in users ==> v.email != u.email && v.username != u.username
    ensures r.Ok? ==> r.value == users + [u] && UsersUnique(r.value)
  {
    if exists v :: v in users && (v.email == u.email || v.username == u.username) then Err(UniqueViolation)
    else
      var r := users + [u];
      assert forall i :: 0 <= i < |users| ==> users[i] in users && users[i].id in UserIds(users);
      Ok(r)
  }

  /** The user an e-mail address logs in as, if any. */
  function FindByEmail(users: seq<User>, email: string): (r: Option<User>)
    ensures r.Some? ==> r.value in users && r.value.email == email
    ensures r.None? ==> forall u :: u in users ==> u.email != email
  {
    if users == [] then None
    else if users[0].email == email then Some(users[0])
    else FindByEmail(users[1..], email)
  }

  /** Because e-mails are unique, every user's own e-mail finds that user. */
  lemma {:induction false} LoginIdentifiesUser(users: seq<User>, u: User)
    requires UsersUnique(users)
    requires u in users
    ensures FindByEmail(users, u.email) == Some(u)
  {
    if users[0] != u {
      var k :| 0 <= k < |users| && users[k] == u;
      assert k > 0;
      assert users[0].email != u.email;
      assert UsersUnique(users[1..]) by {
        var t := users[1..];
        forall i, j | 0 <= i < j < |t|
          ensures t[i].id != t[j].id && t[i].email != t[j].email && t[i].username != t[j].username
        {
          assert t[i] == users[i + 1] && t[j] == users[j + 1];
        }
      }
      assert users[1..][k - 1] == u;
      LoginIdentifiesUser(users[1..], u);
    }
  }

  function UsernameLe(a: User, b: User): bool
  {
    StrLe(a.username, b.username)
  }

  /** A follow with a larger author id goes first (`-author_id`). */
  function AuthorDescLe(a: Follow, b: Follow): bool
  {
    a.author >= b.author
  }

  lemma UsernameLeIsTotalPreorder()
    ensures TotalPreorder(UsernameLe)
  {
    forall a: User, b: User ensures UsernameLe(a, b) || UsernameLe(b, a) {
      StrLeTotal(a.username, b.username);
    }
    forall a: User, b: User, c: User | UsernameLe(a, b) && UsernameLe(b, c) ensures UsernameLe(a, c) {
      StrLeTrans(a.username, b.username, c.username);
    }
  }

  /** The users in their default order, ascending by username. */
  function OrderedUsers(users: seq<User>): (r: seq<User>)
    ensures multiset(r) == multiset(users)
    ensures forall i, j :: 0 <= i < j < |r| ==> StrLe(r[i].username, r[j].username)
  {
    UsernameLeIsTotalPreorder();
    Sort(users, UsernameLe)
  }

  /** The follows in their default order, descending by author id. */
  function OrderedFollows(follows: seq<Follow>): (r: seq<Follow>)
    ensures multiset(r) == multiset(follows)
    ensures forall i, j :: 0 <= i < j < |r| ==> r[i].author >= r[j].author
  {
    assert TotalPreorder(AuthorDescLe);
    Sort(follows, AuthorDescLe)
  }

  /** The follow rows that survive deleting user `uid`: both foreign keys
      cascade, so every row naming `uid` as follower or as author goes. */
  function FollowsAfterUserDelete(follows: seq<Follow>, uid: UserId): (r: seq<Follow>)
    ensures forall f :: f in r <==> f in follows && f.user != uid && f.author != uid
    ensures forall f :: multiset(r)[f] == if f.user != uid && f.author != uid then multiset(follows)[f] else 0
  {
    var keep := (f: Follow) => f.user != uid && f.author != uid;
    FilterCounts(follows, keep);
    Filter(follows, keep)
  }
}
