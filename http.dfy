/**
 * The part of every store action that runs once `fetch` has answered: read the
 * body text, strip a byte-order mark and trim it, treat an empty body as null,
 * parse it, and choose the error message the store keeps or the action throws.
 * The network itself is an `Outcome` value and `JSON.parse` a `Parser`.
 */
module Http {
  import opened Wrappers
  import opened Text
  import opened Js

  /** `JSON.parse`, left abstract: `None` stands for the SyntaxError it throws. */
  type Parser = string -> Option<Json>

  /** A thrown JavaScript error: its `name` and its `message`, if it has one. */
  datatype JsError = JsError(name: string, message: Option<string>)

  /** What a `fetch` call (and the `res.text()` after it) came back with. */
  datatype Outcome =
    | Response(status: int, statusText: string, body: string)
    | Thrown(err: JsError)

  /** `res.ok`. */
  predicate IsOk(status: int) {
    200 <= status <= 299
  }

  /** `err?.name === 'AbortError'`: the request was cancelled by its 15-second timer. */
  predicate IsAbort(e: JsError) {
    e.name == "AbortError"
  }

  const Bom: char := '\U{FEFF}'
  const InvalidJson: string := "Invalid JSON from server"
  const CreateTimedOut: string := "Request timed out. Is the backend running?"

  /** `text.charCodeAt(0) === 0xfeff ? text.slice(1) : text`. */
  function StripBom(text: string): string {
    if |text| > 0 && text[0] == Bom then text[1..] else text
  }

  /** The body after BOM stripping and `trim()`. */
  function CleanBody(text: string): string {
    Trim(StripBom(text))
  }

  /** The BOM is white space to `trim`, so stripping it first never changes the cleaned body. */
  lemma CleanBodyIsTrim(text: string)
    ensures CleanBody(text) == Trim(text)
  {
    if |text| > 0 && text[0] == Bom {
      assert text == [Bom] + text[1..];
      TrimPadded([Bom], text[1..], []);
      assert text[1..] + [] == text[1..];
    }
  }

  /** The parsed body: null for an empty body, `None` when `JSON.parse` throws. */
  function ReadBody(text: string, parse: Parser): Option<Json> {
    var t := CleanBody(text);
    if t == "" then Some(Null) else parse(t)
  }

  /** A body with a BOM and white space around it reads exactly like the bare body. */
  lemma PaddedBodyReadsAlike(pad: string, text: string, tail: string, parse: Parser)
    requires AllSpace(pad) && AllSpace(tail)
    ensures ReadBody([Bom] + pad + text + tail, parse) == ReadBody(text, parse)
  {
    assert [Bom] + pad + text + tail == ([Bom] + pad) + text + tail;
    TrimPadded([Bom] + pad, text, tail);
    CleanBodyIsTrim([Bom] + pad + text + tail);
    CleanBodyIsTrim(text);
  }

  /**
   * What an action has to work with once `fetch` has settled and the body has
   * been read: the error `fetch` (or `res.text()`) threw, a body `JSON.parse`
   * rejected, or the status with the parsed body.
   */
  datatype Reply =
    | Failed(err: JsError)
    | Unparsable
    | Answered(status: int, statusText: string, raw: Json)

  /** The reply an action sees for the outcome `o`. */
  function Receive(o: Outcome, parse: Parser): Reply {
    match o
    case Thrown(e) => Failed(e)
    case Response(status, statusText, body) =>
      match ReadBody(body, parse)
      case None => Unparsable
      case Some(raw) => Answered(status, statusText, raw)
  }

  /** An empty or all-white-space body is an answer with a null body; `JSON.parse` is never asked. */
  lemma BlankBodyIsNull(status: int, statusText: string, body: string, parse: Parser)
    requires IsBlank(body)
    ensures Receive(Response(status, statusText, body), parse) == Answered(status, statusText, Null)
  {
  }

  /** A BOM and white space around a body make no difference to the reply. */
  lemma PaddedBodyReceivedAlike(status: int, statusText: string, pad: string, text: string, tail: string, parse: Parser)
    requires AllSpace(pad) && AllSpace(tail)
    ensures Receive(Response(status, statusText, [Bom] + pad + text + tail), parse)
         == Receive(Response(status, statusText, text), parse)
  {
    PaddedBodyReadsAlike(pad, text, tail, parse);
  }

  /**
   * The error a collection load keeps for a non-OK response: the body's
   * `message` member if it has one, else its `error` member if it has one,
   * else the status text; a chosen member that holds null gives
   * `Failed to load <what> (<status>)`.
   */
  function LoadFailureMessage(raw: Json, status: int, statusText: string, what: string): (r: string)
    ensures !HasField(raw, "message") && !HasField(raw, "error") ==> r == statusText
    ensures HasField(raw, "message") && raw.fields["message"].Str? ==> r == raw.fields["message"].s
    ensures HasField(raw, "message") && raw.fields["message"].Null? ==>
      r == LoadFailedText(what) + " (" + IntToString(status) + ")"
    ensures !HasField(raw, "message") && HasField(raw, "error") && raw.fields["error"].Str? ==>
      r == raw.fields["error"].s
    ensures !HasField(raw, "message") && HasField(raw, "error") && raw.fields["error"].Null? ==>
      r == LoadFailedText(what) + " (" + IntToString(status) + ")"
  {
    var msg :=
      if HasField(raw, "message") then raw.fields["message"]
      else if HasField(raw, "error") then raw.fields["error"]
      else Str(statusText);
    if msg.Null? then LoadFailedText(what) + " (" + IntToString(status) + ")" else ToJsString(msg)
  }

  /** The message of a failed load that has nothing better to say. */
  function LoadFailedText(what: string): string {
    "Failed to load " + what
  }

  /** A collection store's `items` and `error` after a load. */
  datatype Loaded<T> = Loaded(items: seq<T>, error: Option<string>)

  /**
   * The new `items` and `error` after `load*()` has seen `reply`. `what` names
   * the collection in messages; `timeoutAware` is set for the loader that runs
   * under an abort timer and reports an abort as a timeout. An OK response
   * with an empty body loads the empty list.
   */
  function LoadCollection<T>(reply: Reply, toArray: Json -> seq<T>, what: string, timeoutAware: bool)
    : (r: Loaded<T>)
    ensures r.error.Some? ==> r.items == []
    ensures r.error.None? <==> reply.Answered? && IsOk(reply.status)
    ensures reply.Failed? && timeoutAware && IsAbort(reply.err) ==> r.error == Some("Request timed out")
    ensures reply.Failed? && !(timeoutAware && IsAbort(reply.err)) && reply.err.message.None? ==>
      r.error == Some(LoadFailedText(what))
    ensures reply.Unparsable? ==> r.error == Some(InvalidJson)
    ensures reply.Answered? && IsOk(reply.status) && reply.raw.Null? ==> r.items == toArray(Arr([]))
  {
    match reply
    case Failed(e) =>
      Loaded([], Some(if timeoutAware && IsAbort(e) then "Request timed out" else e.message.GetOr(LoadFailedText(what))))
    case Unparsable => Loaded([], Some(InvalidJson))
    case Answered(status, statusText, raw) =>
      if !IsOk(status) then Loaded([], Some(LoadFailureMessage(raw, status, statusText, what)))
      else Loaded(toArray(if raw.Null? then Arr([]) else raw), None)
  }

  /** The texts a single-record lookup shows for 403, 404 and other failures. */
  datatype LookupTexts = LookupTexts(forbidden: string, notFound: string, failed: string)

  /**
   * The error a lookup keeps for a non-OK response: the body's `message`
   * member when it has one (null when that member is null), otherwise a text
   * chosen by the status.
   */
  function LookupFailureMessage(raw: Json, status: int, texts: LookupTexts): (r: Option<string>)
    ensures !HasField(raw, "message") ==> r.Some?
    ensures !HasField(raw, "message") && status == 403 ==> r == Some(texts.forbidden)
    ensures !HasField(raw, "message") && status == 404 ==> r == Some(texts.notFound)
    ensures !HasField(raw, "message") && status != 403 && status != 404 ==>
      r == Some(texts.failed + " (" + IntToString(status) + ")")
    ensures HasField(raw, "message") && raw.fields["message"].Str? ==> r == Some(raw.fields["message"].s)
    ensures HasField(raw, "message") ==> (r.None? <==> raw.fields["message"].Null?)
  {
    if HasField(raw, "message") then OptionalString(raw.fields["message"])
    else if status == 403 then Some(texts.forbidden)
    else if status == 404 then Some(texts.notFound)
    else Some(texts.failed + " (" + IntToString(status) + ")")
  }

  /** A lookup store's current record and its error after a lookup. */
  datatype Fetched<T> = Fetched(record: Option<T>, error: Option<string>)

  /**
   * The new current record and its error after `get*BySlug()` has seen
   * `reply`: a record only for an OK answer whose body is an object (or an
   * array), and then exactly what `normalize` makes of it.
   */
  function LoadRecord<T>(reply: Reply, normalize: Json -> T, texts: LookupTexts): (r: Fetched<T>)
    ensures r.error.Some? ==> r.record.None?
    ensures r.record.Some? <==> reply.Answered? && IsOk(reply.status) && IsObjectLike(reply.raw)
    ensures r.record.Some? ==> r.record.value == normalize(reply.raw)
    ensures reply.Failed? ==> r.error.Some?
    ensures reply.Unparsable? ==> r.error == Some(InvalidJson)
    ensures reply.Answered? && IsOk(reply.status) ==> r.error.None?
  {
    match reply
    case Failed(e) => Fetched(None, Some(e.message.GetOr(texts.failed)))
    case Unparsable => Fetched(None, Some(InvalidJson))
    case Answered(status, _, raw) =>
      if !IsOk(status) then Fetched(None, LookupFailureMessage(raw, status, texts))
      else if IsObjectLike(raw) then Fetched(Some(normalize(raw)), None)
      else Fetched(None, None)
  }

  /** The text of the error `create*()` throws for a non-OK status whose body has no usable message. */
  function CreateFailedText(status: int): string {
    "Create failed (" + IntToString(status) + ")"
  }

  /**
   * The message of the error `create*()` throws for the POST reply, or `None`
   * when the item was created. `networkHint` is the text used for a network
   * failure without a message.
   */
  function CreateFailure(reply: Reply, networkHint: string): (r: Option<string>)
    requires networkHint != CreateTimedOut
    ensures r.None? <==> reply.Answered? && IsOk(reply.status)
    ensures reply.Failed? ==> (r == Some(CreateTimedOut) <==> IsAbort(reply.err) || reply.err.message == Some(CreateTimedOut))
    ensures reply.Failed? && !IsAbort(reply.err) && reply.err.message.None? ==> r == Some(networkHint)
    ensures reply.Unparsable? ==> r == Some(InvalidJson)
    ensures reply.Answered? && !IsOk(reply.status) && !HasField(reply.raw, "message") ==> r == Some(reply.statusText)
  {
    match reply
    case Failed(e) => Some(if IsAbort(e) then CreateTimedOut else e.message.GetOr(networkHint))
    case Unparsable => Some(InvalidJson)
    case Answered(status, statusText, raw) =>
      if IsOk(status) then None
      else
        var msg := if HasField(raw, "message") then raw.fields["message"] else Str(statusText);
        Some(if msg.Null? then CreateFailedText(status) else ToJsString(msg))
  }
}
