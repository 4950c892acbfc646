/**
 * The HTTP log input of package `input` (input/http.go): how the body of a
 * `POST /logs` request becomes the Message that is published to the hub, and
 * what the client is answered.
 *
 * The handler is a function from the outcome of reading the body, the JSON
 * decoder and the current time to an Ingest record: the status and body
 * written, and the message published, if any. `HandleIngest` then publishes
 * that message on a hub.
 */
module Input {
  import opened Wrappers
  import opened Transform

  // ---------------------------------------------------------------------------
  // Strings
  // ---------------------------------------------------------------------------

  /** `sub` occurs in `s` starting at index `i`. */
  predicate OccursAt(s: string, sub: string, i: int) {
    0 <= i && i + |sub| <= |s| && s[i..i + |sub|] == sub
  }

  /** `strings.Contains`: whether `sub` occurs anywhere in `s`. */
  function Contains(s: string, sub: string): bool
    decreases |s|
  {
    if |s| < |sub| then false
    else if s[..|sub|] == sub then true
    else Contains(s[1..], sub)
  }

  lemma {:induction false} ContainsOccurs(s: string, sub: string)
    ensures Contains(s, sub) <==> exists i :: OccursAt(s, sub, i)
  {
    if |s| < |sub| {
    } else if s[..|sub|] == sub {
      assert OccursAt(s, sub, 0);
    } else {
      ContainsOccurs(s[1..], sub);
      if exists i :: OccursAt(s, sub, i) {
        var i :| OccursAt(s, sub, i);
        assert i != 0;
        assert s[1..][i - 1..i - 1 + |sub|] == s[i..i + |sub|];
        assert OccursAt(s[1..], sub, i - 1);
      }
      if exists i :: OccursAt(s[1..], sub, i) {
        var i :| OccursAt(s[1..], sub, i);
        assert s[1..][i..i + |sub|] == s[i + 1..i + 1 + |sub|];
        assert OccursAt(s, sub, i + 1);
      }
    }
  }

  /** Go's `string(b)`: the same bytes, read as a string. */
  function BytesToString(b: seq<byte>): (s: string)
    ensures |s| == |b|
    ensures forall i :: 0 <= i < |b| ==> s[i] as int == b[i] as int
  {
    seq(|b|, i requires 0 <= i < |b| => (b[i] as int) as char)
  }

  // ---------------------------------------------------------------------------
  // The handler
  // ---------------------------------------------------------------------------

  /**
   * What `json.Unmarshal(body, &msg)` leaves behind: the message as far as it
   * was filled in (starting from the zero Message), and the error text if it
   * returned an error.
   */
  datatype Decoded = Decoded(msg: Message, err: Option<string>)

  /** The status and body written, and the message published with `WriteMessage`, if any. */
  datatype Ingest = Ingest(status: int, body: string, published: Option<Message>)

  /** The priority and tag given to a body that is not JSON. */
  const RawPriority := 2
  const RawTag := "http-raw"

  /**
   * The message a body becomes before it is stamped: the decoded message, or,
   * when the decoder rejected the body as not JSON, the body itself as the
   * content with the fixed raw priority and tag.
   */
  function FromBody(body: seq<byte>, decoded: Decoded): (m: Message)
    ensures decoded.err.None? ==> m == decoded.msg
    ensures decoded.err.Some? ==>
              && m.content == BytesToString(body)
              && m.priority == RawPriority
              && m.tag == [RawTag]
              && m == decoded.msg.(content := m.content, priority := m.priority, tag := m.tag)
  {
    if decoded.err.None? then decoded.msg
    else decoded.msg.(content := BytesToString(body), priority := RawPriority, tag := [RawTag])
  }

  /**
   * The `POST /logs` handler. A body that cannot be read, or a decoding error
   * other than an invalid character, is answered with status 500 and nothing
   * is published; otherwise exactly one message is published, with its type
   * defaulted to `logType` and its time set to `now`, and the client is
   * answered with status 200 and "success!\n".
   */
  function HttpInput(read: Result<seq<byte>, string>, unmarshal: seq<byte> -> Decoded, now: Time, logType: string)
    : (r: Ingest)
    ensures read.Failure? ==> r == Ingest(500, "", None)
    ensures read.Success? && unmarshal(read.value).err.Some? && !Contains(unmarshal(read.value).err.value, "invalid character") ==>
              r == Ingest(500, unmarshal(read.value).err.value, None)
    ensures r.status == 200 <==>
              && read.Success?
              && (unmarshal(read.value).err.None? || Contains(unmarshal(read.value).err.value, "invalid character"))
    ensures r.published.Some? <==> r.status == 200
    ensures r.status == 200 || r.status == 500
    ensures r.status == 200 ==> r.body == "success!\n"
    ensures r.published.Some? ==>
              && read.Success?
              && var m := FromBody(read.value, unmarshal(read.value));
              && r.published.value == m.(kind := r.published.value.kind, time := now, utime := now.unixNano)
              && (m.kind != "" ==> r.published.value.kind == m.kind)
              && (m.kind == "" ==> r.published.value.kind == logType)
  {
    match read
    case Failure(_) => Ingest(500, "", None)
    case Success(body) =>
      var decoded := unmarshal(body);
      if decoded.err.Some? && !Contains(decoded.err.value, "invalid character") then
        Ingest(500, decoded.err.value, None)
      else
        var msg := FromBody(body, decoded);
        var msg := if msg.kind == "" then msg.(kind := logType) else msg;
        var msg := msg.(time := now, utime := now.unixNano);
        Ingest(200, "success!\n", Some(msg))
  }

  /**
   * A body that is not JSON is published whole as the content of a message
   * with the raw priority and tag, the default type and the current time.
   */
  lemma RawBodyPublished(body: seq<byte>, errText: string, unmarshal: seq<byte> -> Decoded, now: Time, logType: string)
    requires unmarshal(body) == Decoded(ZeroMessage, Some("invalid character '" + errText))
    ensures HttpInput(Success(body), unmarshal, now, logType)
            == Ingest(200, "success!\n", Some(Message(now, now.unixNano, "", [RawTag], logType, RawPriority, BytesToString(body), [])))
  {
  }

  /**
   * Runs the handler and publishes what it produced on `hub`: every registered
   * output receives the published message once, or nothing when the request
   * failed.
   */
  method HandleIngest(hub: LogAgg, read: Result<seq<byte>, string>, unmarshal: seq<byte> -> Decoded, now: Time, logType: string)
    returns (status: int, body: string)
    requires hub.Valid()
    modifies hub.outputs.Values
    ensures hub.Valid()
    ensures var r := HttpInput(read, unmarshal, now, logType);
            && status == r.status && body == r.body
            && (r.published.Some? ==> hub.Logs() == Broadcast(old(hub.Logs()), r.published.value))
            && (r.published.None? ==> hub.Logs() == old(hub.Logs()))
  {
    var r := HttpInput(read, unmarshal, now, logType);
    if r.published.Some? {
      hub.WriteMessage(r.published.value);
    }
    status, body := r.status, r.body;
  }
}
