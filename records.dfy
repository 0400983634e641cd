/** The records the create and update handlers build by object spread. */
module Records {
  import opened Json

  /** `status: body.status || 'Open'`: the body's own status when it is
      truthy, "Open" otherwise. */
  function TicketStatus(body: Record): (s: Value)
    ensures ("status" !in body || body["status"] in FalsyValues) ==> s == Str("Open")
    ensures ("status" in body && body["status"] !in FalsyValues) ==> s == body["status"]
  {
    var given := Get(body, "status");
    if Truthy(given) then given.value else Str("Open")
  }

  /** `{id: id, ...body, createdAt: now}`, the record a user create stores. */
  function NewUser(id: int, body: Record, now: string): (r: Record)
    ensures r.Keys == body.Keys + {"id", "createdAt"}
    ensures r["createdAt"] == Str(now)
    ensures r["id"] == if "id" in body then body["id"] else Num(id)
    ensures forall k :: k in body && k != "createdAt" ==> r[k] == body[k]
  {
    Spread(Spread(map["id" := Num(id)], body), map["createdAt" := Str(now)])
  }

  /** `{id: id, ...body, status: body.status || 'Open', createdAt: now}`,
      the record a ticket create stores. */
  function NewTicket(id: int, body: Record, now: string): (r: Record)
    ensures r.Keys == body.Keys + {"id", "status", "createdAt"}
    ensures r["createdAt"] == Str(now)
    ensures r["status"] == TicketStatus(body)
    ensures r["id"] == if "id" in body then body["id"] else Num(id)
    ensures forall k :: k in body && k != "status" && k != "createdAt" ==> r[k] == body[k]
  {
    Spread(Spread(map["id" := Num(id)], body),
           map["status" := TicketStatus(body), "createdAt" := Str(now)])
  }

  /** `{...current, ...body, updatedAt: now}`, the record an update
      stores in place of `current`. */
  function Updated(current: Record, body: Record, now: string): (r: Record)
    ensures r.Keys == current.Keys + body.Keys + {"updatedAt"}
    ensures r["updatedAt"] == Str(now)
    ensures forall k :: k in body && k != "updatedAt" ==> r[k] == body[k]
    ensures forall k :: k in current && k !in body && k != "updatedAt" ==> r[k] == current[k]
  {
    Spread(Spread(current, body), map["updatedAt" := Str(now)])
  }
}
