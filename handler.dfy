/**
 * Message dispatch (`handler.HandleMessage`): a body is decoded as a JSON
 * envelope and routed by its exact `type` tag; a body that does not decode
 * is handled as raw text. Every route reports success.
 *
 * JSON decoding belongs to `encoding/json` and is a parameter here:
 * `decode(body)` is `Some(m)` exactly when `json.Unmarshal` succeeds.
 */
module Handler {
  import opened Wrappers
  import opened Errors

  /** The open `data` field of an envelope (Go `any`). */
  datatype Json =
    | Null
    | Bool(b: bool)
    | Number(literal: string)
    | Str(s: string)
    | Array(items: seq<Json>)
    | Object(members: seq<(string, Json)>)

  /** The decoded envelope; a field missing from the JSON object is Go's zero value. */
  datatype Message = Message(id: string, typ: string, data: Json, timestamp: string)

  type Decoder = string -> Option<Message>

  /** The five handling paths. */
  datatype Route = Raw | Task | Notification | DataSync | Unknown

  /** The `switch` of `HandleMessage`: exact string comparison on the type tag. */
  function Classify(decoded: Option<Message>): (r: Route)
    ensures r == Raw <==> decoded.None?
    ensures r == Unknown <==> decoded.Some? && decoded.value.typ !in {"task", "notification", "data-sync"}
  {
    match decoded
    case None => Raw
    case Some(m) =>
      if m.typ == "task" then Task
      else if m.typ == "notification" then Notification
      else if m.typ == "data-sync" then DataSync
      else Unknown
  }

  /** What handling a body did: the path it took and the error it returned. */
  datatype Handled = Handled(route: Route, outcome: Outcome)

  // The handling paths. Each logs and, for three of them, sleeps to simulate
  // work; neither is modelled. Each returns nil, and reports the path taken.
  function ProcessRawMessage(body: string): (r: Handled)
    ensures r.route == Raw && r.outcome.Ok?
  {
    Handled(Raw, Ok)
  }

  function ProcessTaskMessage(m: Message): (r: Handled)
    ensures r.route == Task && r.outcome.Ok?
  {
    Handled(Task, Ok)
  }

  function ProcessNotificationMessage(m: Message): (r: Handled)
    ensures r.route == Notification && r.outcome.Ok?
  {
    Handled(Notification, Ok)
  }

  function ProcessDataSyncMessage(m: Message): (r: Handled)
    ensures r.route == DataSync && r.outcome.Ok?
  {
    Handled(DataSync, Ok)
  }

  function ProcessUnknownMessage(m: Message): (r: Handled)
    ensures r.route == Unknown && r.outcome.Ok?
  {
    Handled(Unknown, Ok)
  }

  /** `HandleMessage`: decode, then the path `Classify` selects. It never fails. */
  function HandleMessage(decode: Decoder, body: string): (r: Handled)
    ensures r.route == Classify(decode(body))
    ensures r.outcome == Ok
  {
    match decode(body)
    case None => ProcessRawMessage(body)
    case Some(m) =>
      if m.typ == "task" then ProcessTaskMessage(m)
      else if m.typ == "notification" then ProcessNotificationMessage(m)
      else if m.typ == "data-sync" then ProcessDataSyncMessage(m)
      else ProcessUnknownMessage(m)
  }

  /** The type tag each named route answers to. */
  function Tag(route: Route): string
    requires route in {Task, Notification, DataSync}
  {
    match route
    case Task => "task"
    case Notification => "notification"
    case DataSync => "data-sync"
  }

  /** The dispatch table as a registry: tag to route. */
  const Registry: map<string, Route> := map["task" := Task, "notification" := Notification, "data-sync" := DataSync]

  /**
   * The `switch` agrees with the registry: a registered tag selects its
   * route, and any other tag, "" and differently-cased tags included,
   * selects Unknown.
   */
  lemma ClassifyIsRegistryLookup(m: Message)
    ensures Classify(Some(m)) == if m.typ in Registry then Registry[m.typ] else Unknown
  {
  }

  /** Tags and routes are inverse on the three named routes. */
  lemma TagSelectsRoute(m: Message, route: Route)
    requires route in {Task, Notification, DataSync}
    ensures Classify(Some(m.(typ := Tag(route)))) == route
    ensures Classify(Some(m)) == route <==> m.typ == Tag(route)
  {
  }

  /** A body that does not decode takes the raw path and succeeds. */
  lemma UndecodableIsRaw(decode: Decoder, body: string)
    requires decode(body).None?
    ensures HandleMessage(decode, body) == Handled(Raw, Ok)
  {
  }

  lemma TaskRoute(decode: Decoder, body: string)
    requires decode(body).Some? && decode(body).value.typ == "task"
    ensures HandleMessage(decode, body) == Handled(Task, Ok)
  {
  }

  lemma NotificationRoute(decode: Decoder, body: string)
    requires decode(body).Some? && decode(body).value.typ == "notification"
    ensures HandleMessage(decode, body) == Handled(Notification, Ok)
  {
  }

  lemma DataSyncRoute(decode: Decoder, body: string)
    requires decode(body).Some? && decode(body).value.typ == "data-sync"
    ensures HandleMessage(decode, body) == Handled(DataSync, Ok)
  {
  }

  /** Any other decoded tag takes the unknown path, and still succeeds. */
  lemma UnknownRoute(decode: Decoder, body: string)
    requires decode(body).Some?
    requires decode(body).value.typ !in {"task", "notification", "data-sync"}
    ensures HandleMessage(decode, body) == Handled(Unknown, Ok)
  {
  }

  /** Matching is exact: a missing tag and a capitalised tag are unknown. */
  lemma ExactTagMatch(m: Message)
    ensures Classify(Some(m.(typ := ""))) == Unknown
    ensures Classify(Some(m.(typ := "Task"))) == Unknown
    ensures Classify(Some(m.(typ := "task "))) == Unknown
  {
  }

  /**
   * The route depends on the type tag alone: the id, the data and the
   * timestamp of the envelope play no part in it.
   */
  lemma RouteDependsOnTagOnly(decode: Decoder, body1: string, body2: string)
    requires decode(body1).Some? && decode(body2).Some?
    requires decode(body1).value.typ == decode(body2).value.typ
    ensures HandleMessage(decode, body1) == HandleMessage(decode, body2)
  {
  }
}
