/** The two joins over the friends table (source/srv_db.cpp:843-846 and 898-901), evaluated row by
    row as SQL defines them, and the set-level meaning they have. */
module FriendQueries {

  /** One row of the friends table. The table may hold the same row many times. */
  datatype Edge = Edge(userid: int, friendid: int)

  function Reverse(e: Edge): Edge {
    Edge(e.friendid, e.userid)
  }

  /** Rows f2 with `f2.userid = f1.friendid and f2.friendid = f1.userid`. */
  function Matching(f1: Edge, rows: seq<Edge>): seq<Edge> {
    if rows == [] then []
    else
      var rest := Matching(f1, rows[..|rows| - 1]);
      var f2 := rows[|rows| - 1];
      if f2.userid == f1.friendid && f2.friendid == f1.userid then rest + [f2] else rest
  }

  /** `f1 inner join f2 ... where f1.userid = user`, projected to f1: one row per matching pair. */
  function InnerJoin(left: seq<Edge>, rows: seq<Edge>, user: int): seq<Edge> {
    if left == [] then []
    else
      var rest := InnerJoin(left[..|left| - 1], rows, user);
      var f1 := left[|left| - 1];
      if f1.userid == user then rest + seq(|Matching(f1, rows)|, _ => f1) else rest
  }

  /** One result row of the left join; `Unpaired` has NULLs for f2. */
  datatype Joined = Paired(f1: Edge, f2: Edge) | Unpaired(f1: Edge)

  /** `f1 left join f2 ... where f1.friendid = user`. */
  function LeftJoin(left: seq<Edge>, rows: seq<Edge>, user: int): seq<Joined> {
    if left == [] then []
    else
      var rest := LeftJoin(left[..|left| - 1], rows, user);
      var f1 := left[|left| - 1];
      var m := Matching(f1, rows);
      if f1.friendid != user then rest
      else if m == [] then rest + [Unpaired(f1)]
      else rest + seq(|m|, i requires 0 <= i < |m| => Paired(f1, m[i]))
  }

  /** The result of the getMyFriends query: `select distinct` keeps one of each row. */
  function MutualFriends(rows: seq<Edge>, user: int): set<int> {
    set e | e in InnerJoin(rows, rows, user) :: e.friendid
  }

  /** The result of the getFriendRequests query: `distinct`, and `f2.userid is null`. */
  function Requesters(rows: seq<Edge>, user: int): set<int> {
    set j | j in LeftJoin(rows, rows, user) && j.Unpaired? :: j.f1.userid
  }

  lemma {:induction false} MatchingMeaning(f1: Edge, rows: seq<Edge>)
    ensures Matching(f1, rows) != [] <==> Reverse(f1) in rows
  {
    if rows != [] {
      MatchingMeaning(f1, rows[..|rows| - 1]);
      assert rows == rows[..|rows| - 1] + [rows[|rows| - 1]];
    }
  }

  lemma {:induction false} InnerJoinMeaning(left: seq<Edge>, rows: seq<Edge>, user: int, e: Edge)
    ensures e in InnerJoin(left, rows, user) <==> e in left && e.userid == user && Reverse(e) in rows
  {
    if left != [] {
      var f1 := left[|left| - 1];
      InnerJoinMeaning(left[..|left| - 1], rows, user, e);
      MatchingMeaning(f1, rows);
      assert left == left[..|left| - 1] + [f1];
      var copies := seq(|Matching(f1, rows)|, _ => f1);
      assert copies != [] ==> copies[0] == f1;
    }
  }

  lemma {:induction false} LeftJoinMeaning(left: seq<Edge>, rows: seq<Edge>, user: int, e: Edge)
    ensures Unpaired(e) in LeftJoin(left, rows, user) <==>
            e in left && e.friendid == user && Reverse(e) !in rows
  {
    if left != [] {
      var f1 := left[|left| - 1];
      LeftJoinMeaning(left[..|left| - 1], rows, user, e);
      MatchingMeaning(f1, rows);
      assert left == left[..|left| - 1] + [f1];
    }
  }

  /** b is listed as a friend of a exactly when both directed rows are stored. */
  lemma MutualFriendsMeaning(rows: seq<Edge>, a: int, b: int)
    ensures b in MutualFriends(rows, a) <==> Edge(a, b) in rows && Edge(b, a) in rows
  {
    InnerJoinMeaning(rows, rows, a, Edge(a, b));
    forall e | e in InnerJoin(rows, rows, a) && e.friendid == b
      ensures e == Edge(a, b)
    {
      InnerJoinMeaning(rows, rows, a, e);
    }
  }

  /** a is listed as asking b exactly when a's row is stored and b's answer is not. */
  lemma RequestersMeaning(rows: seq<Edge>, b: int, a: int)
    ensures a in Requesters(rows, b) <==> Edge(a, b) in rows && Edge(b, a) !in rows
  {
    LeftJoinMeaning(rows, rows, b, Edge(a, b));
    forall j | j in LeftJoin(rows, rows, b) && j.Unpaired? && j.f1.userid == a
      ensures j == Unpaired(Edge(a, b))
    {
      LeftJoinMeaning(rows, rows, b, j.f1);
    }
  }

  /** The two lists split the incoming edges of a user in two, and friendship is symmetric. */
  lemma FriendListsPartition(rows: seq<Edge>, user: int)
    ensures MutualFriends(rows, user) !! Requesters(rows, user)
    ensures MutualFriends(rows, user) + Requesters(rows, user) ==
            set e | e in rows && e.friendid == user :: e.userid
    ensures forall other :: other in MutualFriends(rows, user) <==> user in MutualFriends(rows, other)
  {
    var incoming := set e | e in rows && e.friendid == user :: e.userid;
    forall other
      ensures other in MutualFriends(rows, user) <==> Edge(other, user) in rows && Edge(user, other) in rows
      ensures other in Requesters(rows, user) <==> Edge(other, user) in rows && Edge(user, other) !in rows
      ensures other in MutualFriends(rows, user) <==> user in MutualFriends(rows, other)
      ensures other in incoming <==> Edge(other, user) in rows
    {
      MutualFriendsMeaning(rows, user, other);
      MutualFriendsMeaning(rows, other, user);
      RequestersMeaning(rows, user, other);
      assert Edge(other, user) in rows ==> Edge(other, user).userid in incoming;
    }
  }
}
