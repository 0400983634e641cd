/** The in-memory fake of the helpdesk API: two tables, two id counters,
    and the route handlers over them, each called directly with the
    request URL, the request body and the current time. */
module MockServer {
  import opened Json
  import opened Url
  import opened Tables
  import opened Records

  /** A reply: its status code and its JSON body, None for an empty one. */
  datatype Response = Response(status: int, body: Option<Value>)

  const UserNotFound: string := "User not found"
  const TicketNotFound: string := "Ticket not found"

  /** The 404 reply `{error: message}`. */
  function NotFound(message: string): Response {
    Response(404, Some(Obj(map["error" := Str(message)])))
  }

  /** `log` holds the ids a counter has handed out since the last reset:
      1, 2, ..., next - 1, in that order. */
  ghost predicate IssuedInOrder(log: seq<int>, next: int) {
    |log| == next - 1 && forall k :: 0 <= k < |log| ==> log[k] == k + 1
  }

  class MockStore {
    var users: seq<Record>
    var tickets: seq<Record>
    var nextUserId: int
    var nextTicketId: int

    /** The ids each counter has allocated since the last reset. */
    ghost var issuedUserIds: seq<int>
    ghost var issuedTicketIds: seq<int>

    ghost predicate Valid()
      reads this
    {
      IssuedInOrder(issuedUserIds, nextUserId) && IssuedInOrder(issuedTicketIds, nextTicketId)
    }

    /** The module state when the file is loaded. */
    constructor ()
      ensures Valid()
      ensures users == [] && tickets == []
      ensures nextUserId == 1 && nextTicketId == 1
    {
      users, tickets := [], [];
      nextUserId, nextTicketId := 1, 1;
      issuedUserIds, issuedTicketIds := [], [];
    }

    /** `setupMockServer`: empties both tables and restarts both counters. */
    method Setup()
      modifies this
      ensures Valid()
      ensures users == [] && tickets == []
      ensures nextUserId == 1 && nextTicketId == 1
      ensures issuedUserIds == [] && issuedTicketIds == []
    {
      users, tickets := [], [];
      nextUserId, nextTicketId := 1, 1;
      issuedUserIds, issuedTicketIds := [], [];
    }

    /** POST /users: takes the next user id, stores
        `{id, ...body, createdAt: now}` at the end of the table and
        replies 201 with it. No body is refused. */
    method CreateUser(body: Record, now: string) returns (resp: Response)
      requires Valid()
      modifies this
      ensures Valid()
      ensures nextUserId == old(nextUserId) + 1
      ensures old(nextUserId) !in old(issuedUserIds)
      ensures issuedUserIds == old(issuedUserIds) + [old(nextUserId)]
      ensures users == old(users) + [NewUser(old(nextUserId), body, now)]
      ensures tickets == old(tickets) && nextTicketId == old(nextTicketId)
      ensures issuedTicketIds == old(issuedTicketIds)
      ensures resp == Response(201, Some(Obj(users[|users| - 1])))
    {
      var id := nextUserId;
      nextUserId := nextUserId + 1;
      issuedUserIds := issuedUserIds + [id];
      var user := NewUser(id, body, now);
      users := users + [user];
      resp := Response(201, Some(Obj(user)));
    }

    /** GET /users/:id: the first user whose `id` is the number in the
        last URL segment (200), or 404 when there is none. */
    method GetUser(url: string) returns (resp: Response)
      ensures resp.status == 200 || resp == NotFound(UserNotFound)
      ensures resp.status == 200 <==>
                exists j :: 0 <= j < |users| && HasId(users[j], IdFromUrl(url))
      ensures resp.status == 200 ==>
                exists i :: 0 <= i < |users| && resp.body == Some(Obj(users[i]))
                            && HasId(users[i], IdFromUrl(url))
                            && forall j :: 0 <= j < i ==> !HasId(users[j], IdFromUrl(url))
    {
      var user := Find(users, IdFromUrl(url));
      if user.Some? {
        resp := Response(200, Some(Obj(user.value)));
      } else {
        resp := NotFound(UserNotFound);
      }
    }

    /** PUT /users/:id: replaces the first matching user by
        `{...user, ...body, updatedAt: now}` and replies 200 with it;
        404 and no change when no user matches. */
    method UpdateUser(url: string, body: Record, now: string) returns (resp: Response)
      requires Valid()
      modifies this
      ensures Valid()
      ensures var i := FindIndex(old(users), IdFromUrl(url));
              if i == -1 then
                users == old(users) && resp == NotFound(UserNotFound)
              else
                users == old(users)[i := Updated(old(users)[i], body, now)]
                && resp == Response(200, Some(Obj(users[i])))
      ensures tickets == old(tickets)
      ensures nextUserId == old(nextUserId) && nextTicketId == old(nextTicketId)
      ensures issuedUserIds == old(issuedUserIds) && issuedTicketIds == old(issuedTicketIds)
    {
      var i := FindIndex(users, IdFromUrl(url));
      if i != -1 {
        users := users[i := Updated(users[i], body, now)];
        resp := Response(200, Some(Obj(users[i])));
      } else {
        resp := NotFound(UserNotFound);
      }
    }

    /** DELETE /users/:id: removes the first matching user and replies
        204 with no body; 404 and no change when no user matches. The
        counter is left alone, so the id is not handed out again. */
    method DeleteUser(url: string) returns (resp: Response)
      requires Valid()
      modifies this
      ensures Valid()
      ensures var i := FindIndex(old(users), IdFromUrl(url));
              if i == -1 then
                users == old(users) && resp == NotFound(UserNotFound)
              else
                users == RemoveAt(old(users), i) && resp == Response(204, None)
      ensures tickets == old(tickets)
      ensures nextUserId == old(nextUserId) && nextTicketId == old(nextTicketId)
      ensures issuedUserIds == old(issuedUserIds) && issuedTicketIds == old(issuedTicketIds)
    {
      var i := FindIndex(users, IdFromUrl(url));
      if i != -1 {
        users := RemoveAt(users, i);
        resp := Response(204, None);
      } else {
        resp := NotFound(UserNotFound);
      }
    }

    /** POST /tickets: takes the next ticket id, stores
        `{id, ...body, status: body.status || 'Open', createdAt: now}` at
        the end of the table and replies 201 with it. No body is refused,
        and `userId` is not looked up. */
    method CreateTicket(body: Record, now: string) returns (resp: Response)
      requires Valid()
      modifies this
      ensures Valid()
      ensures nextTicketId == old(nextTicketId) + 1
      ensures old(nextTicketId) !in old(issuedTicketIds)
      ensures issuedTicketIds == old(issuedTicketIds) + [old(nextTicketId)]
      ensures tickets == old(tickets) + [NewTicket(old(nextTicketId), body, now)]
      ensures users == old(users) && nextUserId == old(nextUserId)
      ensures issuedUserIds == old(issuedUserIds)
      ensures resp == Response(201, Some(Obj(tickets[|tickets| - 1])))
    {
      var id := nextTicketId;
      nextTicketId := nextTicketId + 1;
      issuedTicketIds := issuedTicketIds + [id];
      var ticket := NewTicket(id, body, now);
      tickets := tickets + [ticket];
      resp := Response(201, Some(Obj(ticket)));
    }

    /** GET /tickets/:id: the first ticket whose `id` is the number in
        the last URL segment (200), or 404 when there is none. */
    method GetTicket(url: string) returns (resp: Response)
      ensures resp.status == 200 || resp == NotFound(TicketNotFound)
      ensures resp.status == 200 <==>
                exists j :: 0 <= j < |tickets| && HasId(tickets[j], IdFromUrl(url))
      ensures resp.status == 200 ==>
                exists i :: 0 <= i < |tickets| && resp.body == Some(Obj(tickets[i]))
                            && HasId(tickets[i], IdFromUrl(url))
                            && forall j :: 0 <= j < i ==> !HasId(tickets[j], IdFromUrl(url))
    {
      var ticket := Find(tickets, IdFromUrl(url));
      if ticket.Some? {
        resp := Response(200, Some(Obj(ticket.value)));
      } else {
        resp := NotFound(TicketNotFound);
      }
    }

    /** PUT /tickets/:id: replaces the first matching ticket by
        `{...ticket, ...body, updatedAt: now}` and replies 200 with it;
        404 and no change when no ticket matches. */
    method UpdateTicket(url: string, body: Record, now: string) returns (resp: Response)
      requires Valid()
      modifies this
      ensures Valid()
      ensures var i := FindIndex(old(tickets), IdFromUrl(url));
              if i == -1 then
                tickets == old(tickets) && resp == NotFound(TicketNotFound)
              else
                tickets == old(tickets)[i := Updated(old(tickets)[i], body, now)]
                && resp == Response(200, Some(Obj(tickets[i])))
      ensures users == old(users)
      ensures nextUserId == old(nextUserId) && nextTicketId == old(nextTicketId)
      ensures issuedUserIds == old(issuedUserIds) && issuedTicketIds == old(issuedTicketIds)
    {
      var i := FindIndex(tickets, IdFromUrl(url));
      if i != -1 {
        tickets := tickets[i := Updated(tickets[i], body, now)];
        resp := Response(200, Some(Obj(tickets[i])));
      } else {
        resp := NotFound(TicketNotFound);
      }
    }

    /** DELETE /tickets/:id: removes the first matching ticket and
        replies 204 with no body; 404 and no change when no ticket
        matches. */
    method DeleteTicket(url: string) returns (resp: Response)
      requires Valid()
      modifies this
      ensures Valid()
      ensures var i := FindIndex(old(tickets), IdFromUrl(url));
              if i == -1 then
                tickets == old(tickets) && resp == NotFound(TicketNotFound)
              else
                tickets == RemoveAt(old(tickets), i) && resp == Response(204, None)
      ensures users == old(users)
      ensures nextUserId == old(nextUserId) && nextTicketId == old(nextTicketId)
      ensures issuedUserIds == old(issuedUserIds) && issuedTicketIds == old(issuedTicketIds)
    {
      var i := FindIndex(tickets, IdFromUrl(url));
      if i != -1 {
        tickets := RemoveAt(tickets, i);
        resp := Response(204, None);
      } else {
        resp := NotFound(TicketNotFound);
      }
    }
  }

  /** Get after create: when no earlier record carries id n and the body
      does not set its own `id`, the record just created with n is the
      one a lookup of n finds, at the end of the table. */
  lemma FoundAfterCreate(t: seq<Record>, n: int, body: Record, now: string)
    requires "id" !in body
    requires FindIndex(t, Some(n)) == -1
    ensures FindIndex(t + [NewUser(n, body, now)], Some(n)) == |t|
    ensures FindIndex(t + [NewTicket(n, body, now)], Some(n)) == |t|
  {
    FindIndexAfterPush(t, NewUser(n, body, now), Some(n));
    FindIndexAfterPush(t, NewTicket(n, body, now), Some(n));
  }

  /** Get after update: a body without `id` keeps the updated record
      where a lookup of the same id finds it, and the reply of that
      lookup is the merged record. */
  lemma FoundAfterUpdate(t: seq<Record>, id: Option<int>, body: Record, now: string)
    requires "id" !in body
    requires FindIndex(t, id) != -1
    ensures var i := FindIndex(t, id);
            FindIndex(t[i := Updated(t[i], body, now)], id) == i
  {
    var i := FindIndex(t, id);
    var r := Updated(t[i], body, now);
    assert r["id"] == t[i]["id"];
    FindIndexAfterReplace(t, r, id);
  }

  /** Two users created, the second deleted twice, then a third created:
      the second delete finds nothing, and the third user gets id 3,
      not the freed id 2. */
  method DeletedUserIdIsNotReused() returns (second: Response, third: Response)
    ensures second == NotFound(UserNotFound)
    ensures third.status == 201
    ensures third.body == Some(Obj(map["id" := Num(3), "createdAt" := Str("t3")]))
  {
    var store := new MockStore();
    var u1, u2 := NewUser(1, map[], "t1"), NewUser(2, map[], "t2");
    var r := store.CreateUser(map[], "t1");
    r := store.CreateUser(map[], "t2");
    assert store.users == [u1, u2];
    IdFromUrlOfPath("/users", 2);
    assert IntToString(2) == "2";
    assert "/users" + "/" + IntToString(2) == "/users/2";
    assert IdFromUrl("/users/2") == Some(2);
    assert !HasId(u1, Some(2)) && HasId(u2, Some(2));
    assert FindIndex([u1, u2], Some(2)) == 1;
    r := store.DeleteUser("/users/2");
    assert store.users == [u1];
    assert FindIndex([u1], Some(2)) == -1;
    second := store.DeleteUser("/users/2");
    third := store.CreateUser(map[], "t3");
    NewUserOfEmptyBody(3, "t3");
  }

  /** With an empty body the stored user holds exactly `id` and
      `createdAt`. */
  lemma NewUserOfEmptyBody(n: int, now: string)
    ensures NewUser(n, map[], now) == map["id" := Num(n), "createdAt" := Str(now)]
  {
  }
}
