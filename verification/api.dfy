/**
 * The archive read endpoint of package `api` (api/api.go): how the query
 * string of `GET /logs` is defaulted and validated before the archive's
 * `Slice` is asked for messages, and what the response is.
 *
 * The endpoint is a function from the query values to a Response, which
 * records the `Slice` calls it makes. The library calls it relies on
 * (`strconv.ParseInt`, `strconv.Atoi`, `lumber.LvlInt`, the archive's
 * `Slice`, `json.Marshal`) are parameters.
 */
module Api {
  import opened Wrappers
  import opened Transform

  newtype int64 = x: int | -0x8000_0000_0000_0000 <= x < 0x8000_0000_0000_0000

  /** `url.Values`: every value given for each query key, in order. */
  type QueryValues = map<string, seq<string>>

  /** `url.Values.Get`: the first value given for `key`, or "" when there is none. */
  function Get(q: QueryValues, key: string): string {
    if key in q && |q[key]| > 0 then q[key][0] else ""
  }

  /** `q[key]`: all values given for `key`; none when the key is absent. */
  function All(q: QueryValues, key: string): seq<string> {
    if key in q then q[key] else []
  }

  function OrDefault(v: string, default: string): string {
    if v == "" then default else v
  }

  /** The query parameters after defaulting, still unparsed. */
  datatype Params = Params(
    host: string, tags: seq<string>, kind: string,
    start: string, end: string, limit: string, level: string)

  /**
   * Reads the parameters. A missing or empty `type`, `start`, `end`, `limit`
   * or `level` takes its default (`logType`, "0", "0", "100", "TRACE");
   * a given one is kept; `id` and `tag` are taken as given.
   */
  function Defaults(q: QueryValues, logType: string): (p: Params)
    ensures p.host == Get(q, "id") && p.tags == All(q, "tag")
    ensures Get(q, "type") != "" ==> p.kind == Get(q, "type")
    ensures Get(q, "type") == "" ==> p.kind == logType
    ensures Get(q, "start") != "" ==> p.start == Get(q, "start")
    ensures Get(q, "start") == "" ==> p.start == "0"
    ensures Get(q, "end") != "" ==> p.end == Get(q, "end")
    ensures Get(q, "end") == "" ==> p.end == "0"
    ensures Get(q, "limit") != "" ==> p.limit == Get(q, "limit")
    ensures Get(q, "limit") == "" ==> p.limit == "100"
    ensures Get(q, "level") != "" ==> p.level == Get(q, "level")
    ensures Get(q, "level") == "" ==> p.level == "TRACE"
    ensures p.start != "" && p.end != "" && p.limit != "" && p.level != ""
  {
    Params(
      Get(q, "id"), All(q, "tag"), OrDefault(Get(q, "type"), logType),
      OrDefault(Get(q, "start"), "0"), OrDefault(Get(q, "end"), "0"),
      OrDefault(Get(q, "limit"), "100"), OrDefault(Get(q, "level"), "TRACE"))
  }

  /**
   * The library parsers: `ParseInt(s, 0, 64)` and `Atoi` give None where Go
   * returns an error; Go's `int` is taken to be 64 bits wide.
   */
  datatype Parsers = Parsers(
    parseInt: string -> Option<int64>,
    atoi: string -> Option<int64>,
    lvlInt: string -> int)

  /** The arguments of one `Slice(name, host, tag, offset, end, limit, level)` call. */
  datatype SliceArgs = SliceArgs(
    name: string, host: string, tags: seq<string>,
    offset: int64, end: int64, limit: int64, level: int)

  /**
   * Parses the numeric parameters in the order start, end, limit; the first
   * one that does not parse decides the error. The level never fails.
   */
  function Validate(p: Params, ps: Parsers): (r: Result<SliceArgs, string>)
    ensures ps.parseInt(p.start).None? ==> r == Failure("bad start offset")
    ensures ps.parseInt(p.start).Some? && ps.parseInt(p.end).None? ==> r == Failure("bad end value")
    ensures ps.parseInt(p.start).Some? && ps.parseInt(p.end).Some? && ps.atoi(p.limit).None? ==>
              r == Failure("bad limit")
    ensures r.Success? <==> ps.parseInt(p.start).Some? && ps.parseInt(p.end).Some? && ps.atoi(p.limit).Some?
    ensures r.Success? ==> r.value == SliceArgs(
              p.kind, p.host, p.tags,
              ps.parseInt(p.start).value, ps.parseInt(p.end).value, ps.atoi(p.limit).value,
              ps.lvlInt(p.level))
  {
    var level := ps.lvlInt(p.level);
    match ps.parseInt(p.start)
    case None => Failure("bad start offset")
    case Some(offset) =>
      match ps.parseInt(p.end)
      case None => Failure("bad end value")
      case Some(end) =>
        match ps.atoi(p.limit)
        case None => Failure("bad limit")
        case Some(limit) => Success(SliceArgs(p.kind, p.host, p.tags, offset, end, limit, level))
  }

  /** The archive as the endpoint sees it: its `Slice`, and `json.Marshal` of what it returns. */
  datatype Archive = Archive(
    slice: SliceArgs -> Result<seq<Message>, string>,
    marshal: seq<Message> -> Result<string, string>)

  /** The status and body written, and every `Slice` call made on the way. */
  datatype Response = Response(status: int, body: string, sliceCalls: seq<SliceArgs>)

  /**
   * The `GET /logs` handler. `Slice` is called exactly when validation
   * passes, then exactly once; a validation, `Slice` or marshalling error
   * yields status 500 with its text, and success yields status 200 with the
   * marshalled messages followed by a newline.
   */
  function ArchiveEndpoint(q: QueryValues, logType: string, ps: Parsers, archive: Archive): (r: Response)
    ensures r.status == 200 || r.status == 500
    ensures |r.sliceCalls| <= 1
    ensures Validate(Defaults(q, logType), ps).Failure? ==>
              r == Response(500, Validate(Defaults(q, logType), ps).error, [])
    ensures Validate(Defaults(q, logType), ps).Success? ==>
              r.sliceCalls == [Validate(Defaults(q, logType), ps).value]
    ensures r.status == 200 <==>
              && r.sliceCalls != []
              && archive.slice(r.sliceCalls[0]).Success?
              && archive.marshal(archive.slice(r.sliceCalls[0]).value).Success?
    ensures r.sliceCalls != [] && archive.slice(r.sliceCalls[0]).Failure? ==>
              r.body == archive.slice(r.sliceCalls[0]).error
    ensures r.sliceCalls != [] && archive.slice(r.sliceCalls[0]).Success? &&
            archive.marshal(archive.slice(r.sliceCalls[0]).value).Failure? ==>
              r.body == archive.marshal(archive.slice(r.sliceCalls[0]).value).error
    ensures r.status == 200 ==>
              r.body == archive.marshal(archive.slice(r.sliceCalls[0]).value).value + "\n"
  {
    match Validate(Defaults(q, logType), ps)
    case Failure(e) => Response(500, e, [])
    case Success(args) =>
      match archive.slice(args)
      case Failure(e) => Response(500, e, [args])
      case Success(slices) =>
        match archive.marshal(slices)
        case Failure(e) => Response(500, e, [args])
        case Success(body) => Response(200, body + "\n", [args])
  }

  /**
   * The `level` parameter never causes a rejection: whatever level is given
   * (or none), the request reaches `Slice` exactly when it would have with
   * any other level, with the same arguments except the mapped level.
   */
  lemma LevelNeverRejects(q: QueryValues, level: seq<string>, logType: string, ps: Parsers, archive: Archive)
    ensures var r := ArchiveEndpoint(q, logType, ps, archive);
            var r' := ArchiveEndpoint(q["level" := level], logType, ps, archive);
            && (r'.sliceCalls != [] <==> r.sliceCalls != [])
            && (r.sliceCalls != [] ==>
                  r'.sliceCalls[0] == r.sliceCalls[0].(level := ps.lvlInt(Defaults(q["level" := level], logType).level)))
  {
  }

  /**
   * The request `/logs?type=app&id=log-test&start=0&limit=1`: with "0" and "1"
   * parsing to 0 and 1, `Slice` is asked for at most one "app" message from
   * host "log-test", from offset 0 with no end, at level TRACE.
   */
  lemma GetLogsRequest(ps: Parsers, archive: Archive)
    requires ps.parseInt("0") == Some(0) && ps.atoi("1") == Some(1)
    ensures ArchiveEndpoint(
              map["type" := ["app"], "id" := ["log-test"], "start" := ["0"], "limit" := ["1"]],
              "app", ps, archive).sliceCalls
            == [SliceArgs("app", "log-test", [], 0, 0, 1, ps.lvlInt("TRACE"))]
  {
  }

  /** A start offset that does not parse is refused before anything else is looked at. */
  lemma BadStartRefused(q: QueryValues, logType: string, ps: Parsers, archive: Archive)
    requires Get(q, "start") != "" && ps.parseInt(Get(q, "start")).None?
    ensures ArchiveEndpoint(q, logType, ps, archive) == Response(500, "bad start offset", [])
  {
  }
}
