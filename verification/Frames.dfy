/** The frames two logical peers exchange, and the control-plane codec that carries them. */
module Frames {
  import opened Common

  newtype Byte = x: int | 0 <= x < 256

  /** What a frame may carry: nothing, bytes, or an object that only an in-process queue can pass. */
  datatype Payload = Absent | Bytes(data: seq<Byte>) | Object(repr: string)

  /** `Unknown` is a kind name outside the four that the protocol defines. */
  datatype Kind = Request | Response | Event | Cancel | Unknown(name: string)

  /** `route` is the method name of a request or an event. */
  datatype LogicalFrame = LogicalFrame(
    id: int,
    kind: Kind,
    route: Option<string>,
    payload: Payload,
    error: Option<string>)

  /** The protobuf message: every field is present, and an absent one is its empty value. */
  datatype ControlFrame = ControlFrame(
    id: int,
    kind: string,
    route: string,
    payload: seq<Byte>,
    error: string)

  function KindName(k: Kind): string {
    match k
    case Request => "request"
    case Response => "response"
    case Event => "event"
    case Cancel => "cancel"
    case Unknown(name) => name
  }

  function KindOfName(name: string): Option<Kind> {
    if name == "request" then Some(Request)
    else if name == "response" then Some(Response)
    else if name == "event" then Some(Event)
    else if name == "cancel" then Some(Cancel)
    else None
  }

  function OrEmpty(text: Option<string>): string {
    match text case None => "" case Some(t) => t
  }

  function OrNone(text: string): Option<string> {
    if text == "" then None else Some(text)
  }

  /** `_logical_to_control`. */
  function Encode(f: LogicalFrame): Result<ControlFrame> {
    var payload := if f.payload.Absent? then Bytes([]) else f.payload;
    if !payload.Bytes? then Err("control frame payloads must be bytes")
    else Ok(ControlFrame(f.id, KindName(f.kind), OrEmpty(f.route), payload.data, OrEmpty(f.error)))
  }

  /** `_control_to_logical`. */
  function Decode(c: ControlFrame): Result<LogicalFrame> {
    match KindOfName(c.kind)
    case None => Err("unknown control frame kind")
    case Some(kind) => Ok(LogicalFrame(c.id, kind, OrNone(c.route), Bytes(c.payload), OrNone(c.error)))
  }

  /** What comes out of the wire when `f` is put in, when anything does. */
  function OverTheWire(f: LogicalFrame): Option<LogicalFrame> {
    match Encode(f)
    case Err(_) => None
    case Ok(c) =>
      match Decode(c)
      case Err(_) => None
      case Ok(g) => Some(g)
  }

  lemma KindNamesRoundTrip(k: Kind)
    ensures !k.Unknown? ==> KindOfName(KindName(k)) == Some(k)
    ensures forall name :: KindOfName(name).Some? ==> KindName(KindOfName(name).value) == name
    ensures forall name :: KindOfName(name).Some? ==> !KindOfName(name).value.Unknown?
  {
  }

  /** Every field goes to the field of its own name, and the four kinds to their names. */
  lemma FieldsKeepTheirNames(f: LogicalFrame)
    ensures Encode(f).Err? <==> f.payload.Object?
    ensures Encode(f).Ok? ==>
              var c := Encode(f).value;
              && c.id == f.id
              && (f.route.Some? ==> c.route == f.route.value) && (f.error.Some? ==> c.error == f.error.value)
              && (f.payload.Bytes? ==> c.payload == f.payload.data)
              && (f.route.None? ==> c.route == "") && (f.error.None? ==> c.error == "") && (f.payload.Absent? ==> c.payload == [])
              && (f.kind.Request? ==> c.kind == "request") && (f.kind.Response? ==> c.kind == "response")
              && (f.kind.Event? ==> c.kind == "event") && (f.kind.Cancel? ==> c.kind == "cancel")
  {
  }

  /** Encoding undoes decoding on every control frame that decodes. */
  lemma EncodeAfterDecode(c: ControlFrame)
    ensures Decode(c).Ok? <==> KindOfName(c.kind).Some?
    ensures Decode(c).Ok? ==> Encode(Decode(c).value) == Ok(c)
  {
  }

  /** A frame crosses the wire unchanged exactly when nothing in it is spelled as the empty value. */
  lemma DecodeAfterEncode(f: LogicalFrame)
    ensures OverTheWire(f) == Some(f)
            <==> f.payload.Bytes? && !f.kind.Unknown? && f.route != Some("") && f.error != Some("")
  {
  }

  /** What the wire does to any frame at all: it arrives unless its payload is an object, the id and
      the kind are kept, and absent and empty text become the same thing. */
  lemma WireNormalises(f: LogicalFrame)
    requires !f.kind.Unknown?
    ensures OverTheWire(f).Some? <==> !f.payload.Object?
    ensures OverTheWire(f).Some? ==>
              var g := OverTheWire(f).value;
              && g.id == f.id && g.kind == f.kind
              && g.route == OrNone(OrEmpty(f.route)) && g.error == OrNone(OrEmpty(f.error))
              && g.payload == (if f.payload.Absent? then Bytes([]) else f.payload)
              && OverTheWire(g) == Some(g)
  {
  }
}
