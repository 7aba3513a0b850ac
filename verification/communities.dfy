/** Communities: the page's search filter, and the hook's listing with
    membership flags, creation, joining, leaving and soft deletion, over a
    model of the two tables involved. */
module Communities {
  import opened Wrappers
  import Text

  /** A community row; `isMember` is filled in by the listing for a signed-in user. */
  datatype Community = Community(
    id: string, name: string, description: Option<string>, creatorId: string, createdAt: string,
    isActive: bool, memberCount: int, messageCount: int, isMember: Option<bool>)

  datatype Membership = Membership(communityId: string, userId: string)

  /** The `communities` and `community_members` tables. */
  datatype Db = Db(communities: seq<Community>, members: seq<Membership>)

  // ---------------------------------------------------------------------------
  // The search filter
  // ---------------------------------------------------------------------------

  /** The search keeps a community when its name, or its description if it
      has one, contains the query, ignoring case. */
  predicate Keeps(c: Community, q: string) {
    Text.Contains(Text.Lower(c.name), Text.Lower(q))
    || (c.description.Some? && Text.Contains(Text.Lower(c.description.value), Text.Lower(q)))
  }

  /** `a` is `b` with some elements left out, the rest in their order. */
  predicate Subsequence<T(==)>(a: seq<T>, b: seq<T>)
    decreases |b|
  {
    if a == [] then true
    else if b == [] then false
    else if a[0] == b[0] then Subsequence(a[1..], b[1..])
    else Subsequence(a, b[1..])
  }

  /** `filteredCommunities`. */
  function Search(cs: seq<Community>, q: string): (r: seq<Community>)
    ensures |r| <= |cs|
    ensures forall i :: 0 <= i < |r| ==> Keeps(r[i], q)
    ensures forall c :: c in r <==> c in cs && Keeps(c, q)
    ensures Subsequence(r, cs)
  {
    if cs == [] then []
    else
      var rest := Search(cs[1..], q);
      if Keeps(cs[0], q) then
        var r := [cs[0]] + rest;
        assert r[1..] == rest;
        r
      else
        assert rest != [] ==> rest[0] != cs[0];
        rest
  }

  /** The empty query keeps every community. */
  lemma {:induction false} EmptyQueryKeepsAll(cs: seq<Community>)
    ensures Search(cs, "") == cs
    decreases |cs|
  {
    if cs != [] {
      Text.ContainsEmpty(Text.Lower(cs[0].name));
      assert Text.Lower("") == "";
      EmptyQueryKeepsAll(cs[1..]);
    }
  }

  /** The query's case does not matter. */
  lemma {:induction false} SearchIgnoresQueryCase(cs: seq<Community>, q: string)
    ensures Search(cs, Text.Lower(q)) == Search(cs, q)
    decreases |cs|
  {
    Text.LowerIdempotent(q);
    if cs != [] {
      SearchIgnoresQueryCase(cs[1..], q);
    }
  }

  /** Without a description only the name is searched. */
  lemma NameAloneDecides(c: Community, q: string)
    requires c.description.None?
    ensures Search([c], q) == (if Text.Contains(Text.Lower(c.name), Text.Lower(q)) then [c] else [])
  {
  }

  // ---------------------------------------------------------------------------
  // Listing
  // ---------------------------------------------------------------------------

  /** The rows the listing query returns: the active ones. */
  function ActiveOnly(cs: seq<Community>): (r: seq<Community>)
    ensures forall c :: c in r <==> c in cs && c.isActive
    ensures Subsequence(r, cs)
  {
    if cs == [] then []
    else
      var rest := ActiveOnly(cs[1..]);
      if cs[0].isActive then
        var r := [cs[0]] + rest;
        assert r[1..] == rest;
        r
      else
        assert rest != [] ==> rest[0] != cs[0];
        rest
  }

  /** The communities `user` belongs to, by id. */
  function MemberOf(members: seq<Membership>, user: string): set<string> {
    set m | m in members && m.userId == user :: m.communityId
  }

  /** The membership enrichment: every row gets whether its id is among the
      user's memberships, and nothing else changes. */
  function Enrich(cs: seq<Community>, ids: set<string>): (r: seq<Community>)
    ensures |r| == |cs|
    ensures forall i :: 0 <= i < |r| ==> r[i] == cs[i].(isMember := Some(cs[i].id in ids))
  {
    seq(|cs|, i requires 0 <= i < |cs| => cs[i].(isMember := Some(cs[i].id in ids)))
  }

  /** `fetchCommunities`: `listOk` is whether the listing query succeeds (a
      failure keeps the previous list); `membersOk` is whether the membership
      query succeeds (a failure counts as no memberships). */
  function FetchCommunities(prev: seq<Community>, db: Db, user: Option<string>, listOk: bool, membersOk: bool)
    : (r: seq<Community>)
    ensures !listOk ==> r == prev
    ensures listOk && user.None? ==> r == ActiveOnly(db.communities)
    ensures listOk && user.Some? ==>
              |r| == |ActiveOnly(db.communities)|
              && forall i :: 0 <= i < |r| ==>
                   var c := ActiveOnly(db.communities)[i];
                   r[i] == c.(isMember := Some(membersOk && Membership(c.id, user.value) in db.members))
  {
    if !listOk then prev
    else
      var rows := ActiveOnly(db.communities);
      match user
      case None => rows
      case Some(u) =>
        var ids := if membersOk then MemberOf(db.members, u) else {};
        forall c | c in rows
          ensures c.id in ids <==> membersOk && Membership(c.id, u) in db.members
        {
          if membersOk && Membership(c.id, u) in db.members {
            assert c.id in MemberOf(db.members, u);
          }
        }
        Enrich(rows, ids)
  }

  // ---------------------------------------------------------------------------
  // Creating, joining, leaving, deleting
  // ---------------------------------------------------------------------------

  /** The columns the database fills in for a new community. */
  datatype Assigned = Assigned(id: string, createdAt: string)

  /** The tables after `createCommunity`, and the row it returns. */
  datatype Created = Created(db: Db, row: Option<Community>)

  /** `createCommunity`: inserts the trimmed name and description with the
      caller as creator, then adds the caller as a member through the same
      membership insert that joining uses (its outcome is not checked;
      `joinFailure` is a database error it may meet). Returns the new row, or
      `None` when no one is signed in or the community insert fails. */
  function CreateCommunity(db: Db, user: Option<string>, name: string, description: string,
                           newRow: Assigned, insertOk: bool, joinFailure: Option<string>): (r: Created)
    ensures r.row.None? <==> user.None? || !insertOk
    ensures r.row.None? ==> r.db == db
    ensures r.row.Some? ==>
              && r.row.value.name == Text.Trim(name) && r.row.value.description == Some(Text.Trim(description))
              && r.row.value.creatorId == user.value && r.row.value.isActive && r.row.value.id == newRow.id
              && r.db.communities == db.communities + [r.row.value]
    // The creator becomes a member unless the membership insert fails; a
    // membership that already exists is never duplicated.
    ensures r.row.Some? ==>
              var m := Membership(newRow.id, user.value);
              r.db.members == (if joinFailure.None? && m !in db.members then db.members + [m] else db.members)
  {
    if user.None? || !insertOk then Created(db, None)
    else
      var u := user.value;
      var c := Community(newRow.id, Text.Trim(name), Some(Text.Trim(description)), u, newRow.createdAt,
                         true, 0, 0, None);
      var (members, _) := InsertMembership(db.members, Membership(newRow.id, u), joinFailure);
      Created(Db(db.communities + [c], members), Some(c))
  }

  /** Trimming is the only change made to the name and description: text
      without surrounding white space is stored as typed however much white
      space surrounds it. */
  lemma CreatedTextTrimmed(db: Db, u: string, w1: string, name: string, w2: string, description: string,
                           newRow: Assigned, joinFailure: Option<string>)
    requires Text.AllSpace(w1) && Text.AllSpace(w2)
    requires name == [] || (!Text.IsSpace(name[0]) && !Text.IsSpace(name[|name| - 1]))
    requires description == [] || (!Text.IsSpace(description[0]) && !Text.IsSpace(description[|description| - 1]))
    ensures var c := CreateCommunity(db, Some(u), w1 + name + w2, w2 + description + w1, newRow, true, joinFailure).row.value;
            c.name == name && c.description == Some(description)
  {
    Text.TrimUnwraps(w1, name, w2);
    Text.TrimUnwraps(w2, description, w1);
  }

  /** Every active row is listed, flagged by the user's membership. */
  lemma ActiveIsListed(db: Db, u: string, c: Community)
    requires c in db.communities && c.isActive
    ensures c.(isMember := Some(Membership(c.id, u) in db.members)) in FetchCommunities([], db, Some(u), true, true)
  {
    var rows := ActiveOnly(db.communities);
    var i :| 0 <= i < |rows| && rows[i] == c;
    var listed := FetchCommunities([], db, Some(u), true, true);
    assert listed[i] == c.(isMember := Some(Membership(c.id, u) in db.members));
  }

  /** A community created by a signed-in user shows up in their next listing,
      marked as joined when the membership insert succeeded or they were
      already a member. */
  lemma CreatedIsListed(db: Db, u: string, name: string, description: string, newRow: Assigned,
                        joinFailure: Option<string>)
    ensures var created := CreateCommunity(db, Some(u), name, description, newRow, true, joinFailure);
            var listed := FetchCommunities([], created.db, Some(u), true, true);
            created.row.value.(isMember := Some(joinFailure.None? || Membership(newRow.id, u) in db.members)) in listed
  {
    var created := CreateCommunity(db, Some(u), name, description, newRow, true, joinFailure);
    var c := created.row.value;
    assert c == created.db.communities[|db.communities|];
    ActiveIsListed(created.db, u, c);
    assert Membership(c.id, u) in created.db.members <==> joinFailure.None? || Membership(newRow.id, u) in db.members;
  }

  /** What `joinCommunity` reports. */
  datatype JoinNotice = SignInRequired | Joined | AlreadyMember | JoinFailed

  /** The error code of a unique-constraint violation. */
  const UniqueViolation: string := "23505"

  /** The membership insert: a second membership of the same user in the same
      community violates the table's unique key; `failure` is any other
      database error. */
  function InsertMembership(members: seq<Membership>, m: Membership, failure: Option<string>)
    : (r: (seq<Membership>, Option<string>))
    ensures r.1.None? ==> r.0 == members + [m]
    ensures r.1.Some? ==> r.0 == members
    ensures m in members ==> r.1 == Some(UniqueViolation)
  {
    if m in members then (members, Some(UniqueViolation))
    else if failure.Some? then (members, failure)
    else (members + [m], None)
  }

  /** `joinCommunity`: the error code 23505 is reported as already a member. */
  function JoinCommunity(db: Db, user: Option<string>, communityId: string, failure: Option<string>)
    : (r: (Db, JoinNotice))
    ensures user.None? ==> r == (db, SignInRequired)
    ensures r.1 == Joined ==> r.0.members == db.members + [Membership(communityId, user.value)]
    ensures r.1 != Joined ==> r.0 == db
    ensures r.1 == AlreadyMember <==>
              user.Some? && (Membership(communityId, user.value) in db.members || failure == Some(UniqueViolation))
    // An insert that meets no error joins; any other error is a plain failure.
    ensures user.Some? && failure.None? && Membership(communityId, user.value) !in db.members ==> r.1 == Joined
    ensures r.1 == JoinFailed <==>
              user.Some? && Membership(communityId, user.value) !in db.members
              && failure.Some? && failure != Some(UniqueViolation)
  {
    match user
    case None => (db, SignInRequired)
    case Some(u) =>
      var (members, err) := InsertMembership(db.members, Membership(communityId, u), failure);
      match err
      case None => (db.(members := members), Joined)
      case Some(code) => (db, if code == UniqueViolation then AlreadyMember else JoinFailed)
  }

  /** Joining twice: the second join reports the user is already a member and changes nothing. */
  lemma JoinTwice(db: Db, u: string, communityId: string, failure: Option<string>)
    ensures var (db1, n1) := JoinCommunity(db, Some(u), communityId, None);
            JoinCommunity(db1, Some(u), communityId, failure) == (db1, AlreadyMember)
  {
    var (db1, n1) := JoinCommunity(db, Some(u), communityId, None);
    assert Membership(communityId, u) in db1.members;
  }

  /** `leaveCommunity`: deletes the caller's memberships of the community;
      `ok` is whether the delete succeeds. */
  function LeaveCommunity(db: Db, user: Option<string>, communityId: string, ok: bool): (r: Db)
    ensures user.None? || !ok ==> r == db
    ensures r.communities == db.communities
    ensures forall m :: m in r.members <==>
              m in db.members && !(user.Some? && ok && m == Membership(communityId, user.value))
  {
    match user
    case None => db
    case Some(u) =>
      if !ok then db
      else db.(members := RemoveAll(db.members, Membership(communityId, u)))
  }

  function RemoveAll(xs: seq<Membership>, x: Membership): (r: seq<Membership>)
    ensures forall y :: y in r <==> y in xs && y != x
  {
    if xs == [] then []
    else if xs[0] == x then RemoveAll(xs[1..], x)
    else [xs[0]] + RemoveAll(xs[1..], x)
  }

  /** Leaving then listing shows the community as not joined. */
  lemma LeftIsNotMember(db: Db, u: string, communityId: string)
    ensures var listed := FetchCommunities([], LeaveCommunity(db, Some(u), communityId, true), Some(u), true, true);
            forall i :: 0 <= i < |listed| && listed[i].id == communityId ==> listed[i].isMember == Some(false)
  {
  }

  /** `deleteCommunity`: a soft delete, clearing `isActive` on the rows with
      that id created by the caller; `ok` is whether the update succeeds. */
  function DeleteCommunity(db: Db, user: Option<string>, communityId: string, ok: bool): (r: Db)
    ensures user.None? || !ok ==> r == db
    ensures r.members == db.members && |r.communities| == |db.communities|
    ensures forall i :: 0 <= i < |r.communities| ==>
              r.communities[i] == db.communities[i].(isActive := db.communities[i].isActive
                && !(user.Some? && ok && db.communities[i].id == communityId && db.communities[i].creatorId == user.value))
  {
    match user
    case None => db
    case Some(u) =>
      if !ok then db
      else
        var cs := db.communities;
        db.(communities := seq(|cs|, i requires 0 <= i < |cs| =>
                                 if cs[i].id == communityId && cs[i].creatorId == u
                                 then cs[i].(isActive := false) else cs[i]))
  }

  /** After its creator deletes a community it is no longer listed; a delete
      by anyone else lists exactly what was listed before. */
  lemma DeletedNotListed(db: Db, u: string, communityId: string)
    ensures forall c :: c in ActiveOnly(DeleteCommunity(db, Some(u), communityId, true).communities) ==>
              !(c.id == communityId && c.creatorId == u)
    ensures (forall c :: c in db.communities && c.id == communityId ==> c.creatorId != u) ==>
              DeleteCommunity(db, Some(u), communityId, true) == db
  {
    var r := DeleteCommunity(db, Some(u), communityId, true);
    forall c | c in ActiveOnly(r.communities)
      ensures !(c.id == communityId && c.creatorId == u)
    {
      var i :| 0 <= i < |r.communities| && r.communities[i] == c;
    }
    if forall c :: c in db.communities && c.id == communityId ==> c.creatorId != u {
      forall i | 0 <= i < |db.communities|
        ensures r.communities[i] == db.communities[i]
      {
        assert db.communities[i] in db.communities;
      }
    }
  }
}
