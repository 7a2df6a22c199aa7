/**
 The status cell of the post service and the three operations that touch it:
 the one-shot bootstrap from the key-value store, the per-message update of the
 pub/sub listener, and the gate that turns the cell into an HTTP response.

 The cell is a plain string; any string the transport delivers is accepted
 verbatim, and only the exact token "up" opens the gate.
 */
module StatusCache {

  /** The safe default the cell holds when the process starts. */
  const Default: string := "down"

  /** The one token that makes the service report itself available. */
  const Up: string := "up"

  /** The pub/sub message type that carries a payload; every other type
      (subscribe confirmations and the like) is a control message. */
  const DataKind: string := "message"

  /** Outcome of reading the status key from the store at startup:
      a decoded string, no value (the key is absent), or a store error
      (connection failure, timeout). */
  datatype StoreRead = Value(s: string) | Missing | StoreError

  /** A message delivered by the subscription: its type and its payload. */
  datatype Message = Message(kind: string, data: string)

  /** An HTTP response: status code and the text under the "message" key
      of the JSON body. */
  datatype Response = Response(code: int, message: string)

  const Available: Response := Response(200, "hello from post service")
  const NotAvailable: Response := Response(503, "not available")

  /** The cell of a freshly started process. */
  function Initial(): (cell: string)
    ensures cell != Up
  {
    Default
  }

  /** Python truthiness of the value read at startup: `None` and the empty
      string are falsy, every other string is truthy. A store error yields
      no value at all. */
  predicate Truthy(read: StoreRead)
  {
    read.Value? && read.s != ""
  }

  /** Bootstrap: a truthy value read from the store replaces the cell; a
      missing value, an empty string or a store error leave it alone. */
  function Bootstrap(cell: string, read: StoreRead): (r: string)
    ensures Truthy(read) ==> r == read.s
    ensures !Truthy(read) ==> r == cell
    ensures r == cell || (read.Value? && r == read.s && r != "")
  {
    match read
    case Value(s) => if s != "" then s else cell
    case Missing => cell
    case StoreError => cell
  }

  /** Whether the listener acts on a message at all. */
  predicate IsData(m: Message)
  {
    m.kind == DataKind
  }

  /** Listener step: a data message overwrites the cell with its payload,
      unvalidated; a control message is skipped. */
  function Apply(cell: string, m: Message): (r: string)
    ensures IsData(m) ==> r == m.data
    ensures !IsData(m) ==> r == cell
  {
    if m.kind != DataKind then cell else m.data
  }

  /** The endpoint's gate: 200 with the greeting exactly when the cell is
      "up", otherwise 503 "not available". It reads the cell and returns
      no new cell, so serving a request never changes the status. */
  function Respond(cell: string): (r: Response)
    ensures r.code == 200 <==> cell == Up
    ensures r == Available || r == NotAvailable
    ensures r.code == 200 ==> r.message == "hello from post service"
    ensures r.code != 200 ==> r.code == 503 && r.message == "not available"
  {
    if cell == Up then Available else NotAvailable
  }

  /** Default safety: a fresh cell is answered with 503. */
  lemma DefaultIsUnavailable()
    ensures Respond(Initial()) == NotAvailable
  {
  }

  /** The gate is an exact string match: near misses are all unavailable. */
  lemma GateIsExactMatch()
    ensures Respond("up") == Available
    ensures Respond("down") == NotAvailable
    ensures Respond("") == NotAvailable
    ensures Respond("Up") == NotAvailable
    ensures Respond("up ") == NotAvailable
    ensures Respond("degraded") == NotAvailable
  {
  }

  /** A present, non-empty value at startup behaves exactly like a data
      message carrying that value. */
  lemma BootstrapIsDataWrite(cell: string, read: StoreRead)
    requires Truthy(read)
    ensures Bootstrap(cell, read) == Apply(cell, Message(DataKind, read.s))
  {
  }

  /** The two writers differ on the empty string: the bootstrap treats it as
      missing, while a data message stores it verbatim. */
  lemma EmptyPayloadAsymmetry(cell: string)
    ensures Bootstrap(cell, Value("")) == cell
    ensures Apply(cell, Message(DataKind, "")) == ""
  {
  }

  /** Error isolation: a failed or empty store read leaves any cell as it
      was, and in particular a fresh process keeps answering 503. */
  lemma BootstrapFailureKeepsCell(cell: string, read: StoreRead)
    requires read.StoreError? || read.Missing? || read == Value("")
    ensures Bootstrap(cell, read) == cell
    ensures Respond(Bootstrap(Initial(), read)) == NotAvailable
  {
  }

  /** Applying the same message twice is the same as applying it once. */
  lemma ApplyIdempotent(cell: string, m: Message)
    ensures Apply(Apply(cell, m), m) == Apply(cell, m)
    ensures Respond(Apply(Apply(cell, m), m)) == Respond(Apply(cell, m))
  {
  }
}
