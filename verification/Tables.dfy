/** The five tables of the `contested` database and the statements the server sends to them.
    Rows of users, contest and images are numbered 1, 2, 3, ... in order of insertion; no dispatched
    request deletes one. Each statement takes full effect or fails without effect. */
module Tables {
  import opened FriendQueries

  datatype User = User(name: string, password: string, email: string)

  datatype Contest = Contest(user1: int, user2: int, title: string, score1: nat, score2: nat,
                             image1: int, image2: int, thumb1: int, thumb2: int,
                             permissions: int, endtime: string)

  datatype Image = Image(owner: int, text: string)

  datatype Tables = Tables(users: seq<User>, contests: seq<Contest>, images: seq<Image>,
                           friends: seq<Edge>, voted: set<(int, int)>)
  {
    predicate IsUser(id: int) { 1 <= id <= |users| }

    predicate IsContest(id: int) { 1 <= id <= |contests| }

    predicate IsImage(id: int) { 1 <= id <= |images| }

    function NameOf(id: int): string
      requires IsUser(id)
    {
      users[id - 1].name
    }

    function ContestRow(id: int): Contest
      requires IsContest(id)
    {
      contests[id - 1]
    }

    function ImageRow(id: int): Image
      requires IsImage(id)
    {
      images[id - 1]
    }

    function WithContest(id: int, row: Contest): Tables
      requires IsContest(id)
    {
      this.(contests := contests[id - 1 := row])
    }
  }

  const EMPTY := Tables([], [], [], [], {})

  /** What the repository leaves open about the schema: whether user names and friend pairs carry a
      UNIQUE key. `reserved` is the reserved-word list of the string filter. */
  datatype Schema = Schema(uniqueNames: bool, uniqueFriends: bool, reserved: seq<string>)

  datatype Statement =
    | SelectUser(name: string)
    | InsertUser(name: string, password: string, email: string)
    | SelectContest(contest: int)
    | InsertContest(creator: int, title: string, permissions: int, endtime: string)
    | InsertImage(owner: int, text: string)
    | SelectLastId
    | UpdateSlot(contest: int, slot: int, image: int, user: int, thumb: int)
    | InsertVoted(user: int, contest: int)
    | AddVote(contest: int, slot: int)
    | SelectScores(contest: int)
    | SelectImageId(contest: int, slot: int)
    | SelectImage(image: int)
    | InsertFriend(user: int, friend: int)
    | DeleteFriend(user: int, friend: int)
    | SelectFriends(user: int)
    | SelectRequests(user: int)
    | NoStatement

  /** What the client sees of a statement. `Failure` and `EmailTaken` are an SQLException, the
      second one naming the key email_address_UNIQUE. A missing row is None, or user id 0. */
  datatype Result =
    | Failure
    | EmailTaken
    | Success
    | Account(id: int, name: string, password: string)
    | NoContest
    | ContestFound(row: Contest)
    | LastId(id: int)
    | Scores(score1: nat, score2: nat)
    | ImageId(id: int)
    | NoImage
    | ImageFound(text: string)
    | People(ids: set<int>)

  /** Effect of a statement: the tables after it, what the client sees, and the value its session's
      LAST_INSERT_ID() takes (`key`, when `setsKey`). */
  datatype Outcome = Outcome(tables: Tables, result: Result, setsKey: bool, key: int)

  function Seen(T: Tables, r: Result): Outcome {
    Outcome(T, r, false, 0)
  }

  /** The id of the last row with this user name, or 0: what a cursor loop over the result rows
      that keeps overwriting one variable is left with. */
  function FindUser(users: seq<User>, name: string): (id: int)
    ensures 0 <= id <= |users|
    ensures id != 0 ==> users[id - 1].name == name
    ensures forall i :: id <= i < |users| ==> users[i].name != name
  {
    if users == [] then 0
    else if users[|users| - 1].name == name then |users|
    else FindUser(users[..|users| - 1], name)
  }

  predicate EmailUsed(users: seq<User>, email: string) {
    exists u :: u in users && u.email == email
  }

  /** Statement `st` on tables `T`, in a session whose LAST_INSERT_ID() is `last`. `ok` is false
      when the server reports a failure that the statement itself does not explain. */
  function Execute(schema: Schema, T: Tables, last: int, st: Statement, ok: bool): Outcome {
    if !ok then Seen(T, Failure)
    else
      match st
      case SelectUser(name) =>
        var id := FindUser(T.users, name);
        Seen(T, if id == 0 then Account(0, "", "") else Account(id, name, T.users[id - 1].password))
      case InsertUser(name, password, email) =>
        if EmailUsed(T.users, email) then Seen(T, EmailTaken)
        else if schema.uniqueNames && FindUser(T.users, name) != 0 then Seen(T, Failure)
        else Outcome(T.(users := T.users + [User(name, password, email)]), Success, true, |T.users| + 1)
      case SelectContest(c) =>
        Seen(T, if T.IsContest(c) then ContestFound(T.ContestRow(c)) else NoContest)
      case InsertContest(creator, title, permissions, endtime) =>
        var row := Contest(creator, 0, title, 0, 0, 0, 0, 0, 0, permissions, endtime);
        Outcome(T.(contests := T.contests + [row]), Success, true, |T.contests| + 1)
      case InsertImage(owner, text) =>
        Outcome(T.(images := T.images + [Image(owner, text)]), Success, true, |T.images| + 1)
      case SelectLastId =>
        Seen(T, LastId(last))
      case UpdateSlot(c, slot, image, user, thumb) =>
        if !T.IsContest(c) then Seen(T, Success)
        else
          var row := T.ContestRow(c);
          Seen(T.WithContest(c, if slot == 1 then row.(image1 := image, user1 := user, thumb1 := thumb)
                                else row.(image2 := image, user2 := user, thumb2 := thumb)), Success)
      case InsertVoted(user, c) =>
        if (user, c) in T.voted then Seen(T, Failure)
        else Seen(T.(voted := T.voted + {(user, c)}), Success)
      case AddVote(c, slot) =>
        if !T.IsContest(c) then Seen(T, Success)
        else
          var row := T.ContestRow(c);
          if slot == 1 then Outcome(T.WithContest(c, row.(score1 := row.score1 + 1)), Success, true, row.score1 + 1)
          else Outcome(T.WithContest(c, row.(score2 := row.score2 + 1)), Success, true, row.score2 + 1)
      case SelectScores(c) =>
        Seen(T, if T.IsContest(c) then Scores(T.ContestRow(c).score1, T.ContestRow(c).score2) else NoContest)
      case SelectImageId(c, slot) =>
        Seen(T, if !T.IsContest(c) then NoContest
                else ImageId(if slot == 1 then T.ContestRow(c).image1 else T.ContestRow(c).image2))
      case SelectImage(image) =>
        Seen(T, if T.IsImage(image) then ImageFound(T.ImageRow(image).text) else NoImage)
      case InsertFriend(user, friend) =>
        if schema.uniqueFriends && Edge(user, friend) in T.friends then Seen(T, Failure)
        else Seen(T.(friends := T.friends + [Edge(user, friend)]), Success)
      case DeleteFriend(user, friend) =>
        Seen(T.(friends := Without(T.friends, Edge(user, friend))), Success)
      case SelectFriends(user) =>
        Seen(T, People(MutualFriends(T.friends, user)))
      case SelectRequests(user) =>
        Seen(T, People(Requesters(T.friends, user)))
      case NoStatement =>
        Seen(T, Success)
  }

  /** The rows that a DELETE naming one row value leaves. */
  function Without(rows: seq<Edge>, e: Edge): (r: seq<Edge>)
    ensures e !in r
    ensures forall x :: x != e ==> (x in r <==> x in rows)
  {
    if rows == [] then []
    else
      var rest := Without(rows[..|rows| - 1], e);
      assert rows == rows[..|rows| - 1] + [rows[|rows| - 1]];
      if rows[|rows| - 1] == e then rest else rest + [rows[|rows| - 1]]
  }

  /** What no statement ever undoes: accounts and images are only appended, ballots only added, a
      contest keeps its permission, title and end time, and its scores never go down. */
  ghost predicate Grows(T: Tables, U: Tables) {
    && T.users <= U.users
    && T.images <= U.images
    && T.voted <= U.voted
    && |T.contests| <= |U.contests|
    && forall c :: T.IsContest(c) ==> KeepsTerms(T.ContestRow(c), U.ContestRow(c))
  }

  predicate KeepsTerms(before: Contest, after: Contest) {
    && after.permissions == before.permissions
    && after.title == before.title
    && after.endtime == before.endtime
    && before.score1 <= after.score1
    && before.score2 <= after.score2
  }

  lemma ExecuteGrows(schema: Schema, T: Tables, last: int, st: Statement, ok: bool)
    ensures Grows(T, Execute(schema, T, last, st, ok).tables)
  {
  }

  lemma GrowsTransitive(T: Tables, U: Tables, V: Tables)
    requires Grows(T, U) && Grows(U, V)
    ensures Grows(T, V)
  {
    forall c | T.IsContest(c)
      ensures KeepsTerms(T.ContestRow(c), V.ContestRow(c))
    {
      assert U.IsContest(c);
    }
  }
}
