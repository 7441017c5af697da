/**
 * The converter from a WARC archive of recorded HTTP exchanges to a HAR log.
 * Each exchange is stored as a request, a response and a metadata record; the
 * three are gathered into one HAR entry, and the entries are ordered by the
 * recorded `_order`. Records arrive already parsed.
 */
module Warc2Har {
  import opened Wrappers
  import opened Strings
  import opened Records
  import PollyHeaders

  /** The parts of a parsed WARC record the converter reads. */
  datatype WarcRecord = WarcRecord(
    warcType: string,
    warcHeaders: map<string, string>,
    contentText: string,
    statusLine: string,
    httpHeaders: seq<(string, string)>,
    bodyLength: nat)

  /** A WARC header field of the record; `null` when the record has no such field. */
  function WarcHeader(record: WarcRecord, name: string): Option<string> {
    if name in record.warcHeaders then Some(record.warcHeaders[name]) else None
  }

  /** An HTTP header of the record, read through its headers object: the value of the last header of that name, if any. */
  function HttpHeader(record: WarcRecord, name: string): (r: Option<string>)
    ensures r.Some? <==> name in KeysOf(record.httpHeaders)
    ensures forall i :: LastForKey(record.httpHeaders, i) && record.httpHeaders[i].0 == name ==>
      r == Some(record.httpHeaders[i].1)
  {
    var headers := Assign(map[], record.httpHeaders);
    AssignKeys(map[], record.httpHeaders);
    forall i | LastForKey(record.httpHeaders, i)
      ensures headers[record.httpHeaders[i].0] == record.httpHeaders[i].1
    {
      AssignLastWins(map[], record.httpHeaders, i);
    }
    if name in headers then Some(headers[name]) else None
  }

  datatype Error =
    | AssertionFailed(message: string)
    | MissingValue
    | TypeError(reason: string)
    | JsonSyntaxError(field: string)
    | UnspecifiedOrder

  /* ---------------------------------------------------------------- WARC fields */

  type Fields = map<string, Option<string>>

  /** `Object.fromEntries` reads an entry's first two elements; a missing second one is `undefined`. */
  function FieldEntry(parts: seq<string>): (string, Option<string>)
    requires |parts| >= 1
  {
    (parts[0], if |parts| > 1 then Some(parts[1]) else None)
  }

  function FieldEntries(lines: seq<string>): seq<(string, Option<string>)> {
    seq(|lines|, i requires 0 <= i < |lines| => FieldEntry(Split(lines[i], ": ")))
  }

  /** The fields of a `application/warc-fields` body: CRLF-separated `name: value` lines, a later name winning. */
  function FieldsOfText(content: string): Fields {
    Assign(map[], FieldEntries(Split(content, PollyHeaders.CRLF)))
  }

  const WarcFieldsType := "application/warc-fields"
  const WrongContentType := "Wrong content type for record"

  /** `parseWARCFields`: refuses any content type but `application/warc-fields`. */
  function ParseWarcFields(record: WarcRecord): (r: Result<Fields, Error>)
    ensures r.Err? <==> WarcHeader(record, "Content-Type") != Some(WarcFieldsType)
    ensures r.Err? ==> r.error == AssertionFailed(WrongContentType)
    ensures r.Ok? ==> r.value == FieldsOfText(record.contentText)
  {
    if WarcHeader(record, "Content-Type") != Some(WarcFieldsType) then Err(AssertionFailed(WrongContentType))
    else Ok(FieldsOfText(record.contentText))
  }

  /** The names read from a fields body are the text before the first `": "` of each line. */
  lemma FieldNames(content: string)
    ensures FieldsOfText(content).Keys == set line | line in Split(content, PollyHeaders.CRLF) :: Split(line, ": ")[0]
  {
    var lines := Split(content, PollyHeaders.CRLF);
    var entries := FieldEntries(lines);
    AssignKeys(map[], entries);
    forall k | k in KeysOf(entries) ensures k in set line | line in lines :: Split(line, ": ")[0] {
      var i :| 0 <= i < |entries| && entries[i].0 == k;
      assert lines[i] in lines;
    }
    forall line | line in lines ensures Split(line, ": ")[0] in KeysOf(entries) {
      var i :| 0 <= i < |lines| && lines[i] == line;
      assert entries[i].0 == Split(line, ": ")[0];
    }
  }

  /** A header name that a fields line can carry unchanged: no carriage return and no colon. */
  predicate PlainName(s: string) {
    forall i :: 0 <= i < |s| ==> s[i] != '\r' && s[i] != ':'
  }

  /** A header value that a fields line can carry unchanged: no carriage return and no `": "`. */
  ghost predicate PlainValue(s: string) {
    PollyHeaders.NoCR(s) && !Contains(s, ": ")
  }

  function SomeValues(pairs: seq<(string, string)>): seq<(string, Option<string>)> {
    seq(|pairs|, i requires 0 <= i < |pairs| => (pairs[i].0, Some(pairs[i].1)))
  }

  lemma ParseFieldLine(name: string, value: string)
    requires PlainName(name) && PlainValue(value)
    ensures FieldEntry(Split(name + ": " + value, ": ")) == (name, Some(value))
  {
    var sep := ": ";
    assert sep[1..][0] == ' ' && sep[..1][0] == ':';
    assert Unbordered(sep);
    NoCharNoMatch(name, sep);
    FirstMatchAfter(name, sep, value);
    var line := name + sep + value;
    assert line[..|name|] == name;
    assert line[|name| + |sep|..] == value;
    NoMatchNoSplit(value, sep);
    assert Split(line, sep) == [name] + Split(value, sep);
  }

  /**
   * Headers written as CRLF lines read back, as WARC fields, to every name
   * with its last value: the two text formats agree.
   */
  lemma WarcFieldsOfCrlfHeaders(headers: seq<(string, PollyHeaders.HeaderValue)>)
    requires PollyHeaders.ValueCount(headers) > 0
    requires forall i :: 0 <= i < |PollyHeaders.FieldPairs(headers)| ==>
      PlainName(PollyHeaders.FieldPairs(headers)[i].0) && PlainValue(PollyHeaders.FieldPairs(headers)[i].1)
    ensures FieldsOfText(PollyHeaders.CrlfFromPollyHeaders(headers)) == Assign(map[], SomeValues(PollyHeaders.FieldPairs(headers)))
  {
    var pairs := PollyHeaders.FieldPairs(headers);
    PollyHeaders.CrlfLinesSplit(headers);
    var lines := PollyHeaders.HeaderLines(headers);
    forall i | 0 <= i < |lines| ensures FieldEntries(lines)[i] == SomeValues(pairs)[i] {
      ParseFieldLine(pairs[i].0, pairs[i].1);
    }
    assert FieldEntries(lines) == SomeValues(pairs);
  }

  /* ---------------------------------------------------------------- status lines */

  function Part(parts: seq<string>, i: nat): Option<string> {
    if i < |parts| then Some(parts[i]) else None
  }

  /** The first three space-separated words of a request line; the second and third may be missing. */
  datatype RequestLine = RequestLine(httpMethod: string, path: Option<string>, httpVersion: Option<string>)

  /** The method is the text before the first space; there is a path exactly when there is a space. */
  function ParseRequestLine(line: string): (r: RequestLine)
    ensures r.path.Some? <==> Contains(line, " ")
    ensures StartsWith(line, r.httpMethod) && !Contains(r.httpMethod, " ")
  {
    var parts := Split(line, " ");
    SplitFirst(line, " ");
    RequestLine(parts[0], Part(parts, 1), Part(parts, 2))
  }

  /** A status line's first two words, and everything after them rejoined with single spaces. */
  datatype StatusLine = StatusLine(httpVersion: string, status: Option<string>, statusText: string)

  /** The HTTP version is the text before the first space; there is a status exactly when there is a space. */
  function ParseStatusLine(line: string): (r: StatusLine)
    ensures r.status.Some? <==> Contains(line, " ")
    ensures StartsWith(line, r.httpVersion) && !Contains(r.httpVersion, " ")
  {
    var parts := Split(line, " ");
    SplitFirst(line, " ");
    StatusLine(parts[0], Part(parts, 1), if |parts| > 2 then Join(parts[2..], " ") else "")
  }

  /** A request line of three words is exactly those three, space-separated. */
  lemma RequestLineRejoin(line: string)
    requires |Split(line, " ")| == 3
    ensures var r := ParseRequestLine(line);
      r.path.Some? && r.httpVersion.Some? && r.httpMethod + " " + r.path.value + " " + r.httpVersion.value == line
  {
    var parts := Split(line, " ");
    var r := ParseRequestLine(line);
    assert r.httpMethod == parts[0] && r.path == Some(parts[1]) && r.httpVersion == Some(parts[2]);
    JoinSplit(line, " ");
    JoinTwoHeads(parts, " ");
    assert Join(parts[2..], " ") == parts[2];
  }

  /** The three pieces of a response status line put back together give the line. */
  lemma StatusLineRejoin(line: string)
    ensures var r := ParseStatusLine(line); var n := |Split(line, " ")|;
      && (n == 1 ==> r.httpVersion == line && r.status == None && r.statusText == "")
      && (n == 2 ==> r.status.Some? && r.httpVersion + " " + r.status.value == line && r.statusText == "")
      && (n >= 3 ==> r.status.Some? && r.httpVersion + " " + r.status.value + " " + r.statusText == line)
  {
    var parts := Split(line, " ");
    var r := ParseStatusLine(line);
    assert r.httpVersion == parts[0] && r.status == Part(parts, 1);
    JoinSplit(line, " ");
    if |parts| == 2 {
      JoinPair(parts, " ");
    } else if |parts| >= 3 {
      assert r.statusText == Join(parts[2..], " ");
      JoinTwoHeads(parts, " ");
    }
  }

  lemma JoinPair(parts: seq<string>, t: string)
    requires |parts| == 2
    ensures Join(parts, t) == parts[0] + t + parts[1]
  {
    assert Join(parts[1..], t) == parts[1];
  }

  lemma JoinTwoHeads(parts: seq<string>, t: string)
    requires |parts| >= 3
    ensures Join(parts, t) == parts[0] + t + parts[1] + t + Join(parts[2..], t)
  {
    var tail := parts[1..];
    assert tail[1..] == parts[2..];
    assert Join(tail, t) == parts[1] + t + Join(parts[2..], t);
  }

  /* ---------------------------------------------------------------- parseInt */

  predicate IsDigit(c: char) {
    '0' <= c <= '9'
  }

  function LeadingDigits(s: string): (n: nat)
    ensures n <= |s| && forall i :: 0 <= i < n ==> IsDigit(s[i])
    decreases |s|
  {
    if |s| > 0 && IsDigit(s[0]) then 1 + LeadingDigits(s[1..]) else 0
  }

  function DecimalValue(ds: string): nat
    requires forall i :: 0 <= i < |ds| ==> IsDigit(ds[i])
    decreases |ds|
  {
    if |ds| == 0 then 0
    else
      assert IsDigit(ds[|ds| - 1]);
      10 * DecimalValue(ds[..|ds| - 1]) + (ds[|ds| - 1] as int - '0' as int)
  }

  function UnsignedPrefix(s: string): Option<nat> {
    var n := LeadingDigits(s);
    if n == 0 then None else Some(DecimalValue(s[..n]))
  }

  /** `parseInt` of a string: an optional sign and the leading decimal digits; `NaN` (None) when there are none. */
  function ParseInt(s: Option<string>): Option<int> {
    match s
    case None => None
    case Some(t) =>
      if |t| > 0 && t[0] == '-' then
        match UnsignedPrefix(t[1..]) case None => None case Some(v) => Some(0 - v)
      else if |t| > 0 && t[0] == '+' then
        match UnsignedPrefix(t[1..]) case None => None case Some(v) => Some(v)
      else
        match UnsignedPrefix(t) case None => None case Some(v) => Some(v)
  }

  function DigitChar(d: nat): (c: char)
    requires d < 10
    ensures IsDigit(c) && c as int - '0' as int == d
  {
    ('0' as int + d) as char
  }

  /** The decimal numeral of `n`, without leading zeros. */
  function NatText(n: nat): (s: string)
    ensures |s| > 0 && forall i :: 0 <= i < |s| ==> IsDigit(s[i])
    decreases n
  {
    if n < 10 then [DigitChar(n)] else NatText(n / 10) + [DigitChar(n % 10)]
  }

  lemma {:induction false} DecimalValueNatText(n: nat)
    ensures DecimalValue(NatText(n)) == n
    decreases n
  {
    if n >= 10 {
      var s := NatText(n);
      assert s[..|s| - 1] == NatText(n / 10);
      DecimalValueNatText(n / 10);
    }
  }

  lemma {:induction false} LeadingDigitsOf(ds: string, rest: string)
    requires forall i :: 0 <= i < |ds| ==> IsDigit(ds[i])
    requires |rest| == 0 || !IsDigit(rest[0])
    ensures LeadingDigits(ds + rest) == |ds|
    decreases |ds|
  {
    if |ds| > 0 {
      assert (ds + rest)[0] == ds[0];
      assert (ds + rest)[1..] == ds[1..] + rest;
      LeadingDigitsOf(ds[1..], rest);
    } else {
      assert ds + rest == rest;
    }
  }

  /**
   * A decimal numeral, with or without a minus sign, reads back as its value,
   * whatever non-digit text follows it.
   */
  lemma ParseIntNatText(n: nat, rest: string)
    requires |rest| == 0 || !IsDigit(rest[0])
    ensures ParseInt(Some(NatText(n) + rest)) == Some(n)
    ensures ParseInt(Some("-" + NatText(n) + rest)) == Some(0 - n)
  {
    var ds := NatText(n);
    LeadingDigitsOf(ds, rest);
    DecimalValueNatText(n);
    assert (ds + rest)[..|ds|] == ds;
    assert (ds + rest)[0] == ds[0];
    assert ("-" + ds + rest)[1..] == ds + rest;
  }

  /* ---------------------------------------------------------------- HAR values */

  datatype HarRequest = HarRequest(
    httpMethod: Option<string>,
    httpVersion: Option<string>,
    url: Option<string>,
    bodySize: Option<int>,
    headers: Option<seq<(string, string)>>,
    queryString: Option<string>,
    headersSize: Option<int>,
    cookies: Option<string>)

  datatype HarContent = HarContent(mimeType: Option<string>, size: Option<int>, encoding: Option<string>)

  datatype HarResponse = HarResponse(
    httpVersion: Option<string>,
    status: Option<int>,
    statusText: Option<string>,
    bodySize: Option<int>,
    headers: Option<seq<(string, string)>>,
    headersSize: Option<int>,
    cookies: Option<string>,
    content: Option<HarContent>)

  /** A HAR entry. JSON-valued fields hold their JSON text. */
  datatype HarEntry = HarEntry(
    id: Option<string>,
    order: Option<int>,
    startedDateTime: Option<string>,
    time: Option<int>,
    cache: string,
    timings: Option<string>,
    responseDecoded: Option<string>,
    request: HarRequest,
    response: HarResponse)

  datatype HarLog = HarLog(
    version: Option<string>,
    creator: Option<string>,
    recordingName: Option<string>,
    entries: seq<HarEntry>)

  datatype Har = Har(log: HarLog)

  const EmptyRequest := HarRequest(None, None, None, None, None, None, None, None)
  const EmptyResponse := HarResponse(None, None, None, None, None, None, None, None)

  /** A new entry: an empty cache object and an empty request and response, nothing else set. */
  const EmptyEntry := HarEntry(None, None, None, None, "{}", None, None, EmptyRequest, EmptyResponse)

  const EmptyLog := HarLog(None, None, None, [])

  /** A named field; `undefined` when the name is absent or had no value. */
  function Field(fields: Fields, name: string): Option<string> {
    if name in fields then fields[name] else None
  }

  /** A field read as JSON: `JSON.parse` throws on `undefined`; the JSON text itself is kept as it is. */
  function JsonField(fields: Fields, name: string): (r: Result<string, Error>)
    ensures r.Err? <==> Field(fields, name).None?
    ensures r.Ok? ==> Field(fields, name) == Some(r.value)
  {
    match Field(fields, name)
    case None => Err(JsonSyntaxError(name))
    case Some(text) => Ok(text)
  }

  /** A defined, non-empty string is truthy. */
  function Truthy(s: Option<string>): Option<string> {
    if s.Some? && s.value != "" then s else None
  }

  /* ---------------------------------------------------------------- populating */

  /** `populateHarLogInfo`: the HAR version, the creator and the recording name. */
  function PopulateHarLogInfo(log: HarLog, record: WarcRecord): (r: Result<HarLog, Error>)
    ensures r.Err? <==> (ParseWarcFields(record).Err?
      || Field(ParseWarcFields(record).value, "harCreator").None?
      || WarcHeader(record, "WARC-Filename").None?)
    ensures r.Ok? ==> r.value.entries == log.entries && r.value.recordingName == WarcHeader(record, "WARC-Filename")
    ensures r.Ok? ==> r.value.version == Field(ParseWarcFields(record).value, "harVersion")
    ensures r.Ok? ==> r.value.creator == Field(ParseWarcFields(record).value, "harCreator")
  {
    var fields :- ParseWarcFields(record);
    var creator :- JsonField(fields, "harCreator");
    match WarcHeader(record, "WARC-Filename")
    case None => Err(MissingValue)
    case Some(filename) =>
      Ok(log.(version := Field(fields, "harVersion"), creator := Some(creator), recordingName := Some(filename)))
  }

  /** One of the metadata fields that `populateEntryMetadata` passes to `JSON.parse` is undefined. */
  predicate MissingJsonField(fields: Fields) {
    || Field(fields, "cache").None?
    || Field(fields, "timings").None?
    || Field(fields, "responseDecoded").None?
    || Field(fields, "warcRequestCookies").None?
    || Field(fields, "warcResponseCookies").None?
  }

  /** `populateEntryMetadata`: the entry's own fields, the header sizes and cookies, and an empty response content. */
  function PopulateEntryMetadata(entry: HarEntry, record: WarcRecord): (r: Result<HarEntry, Error>)
    ensures r.Err? <==> (ParseWarcFields(record).Err? || MissingJsonField(ParseWarcFields(record).value))
    ensures r.Ok? ==>
      var fields := ParseWarcFields(record).value;
      && r.value.id == Field(fields, "harEntryId")
      && r.value.startedDateTime == Field(fields, "startedDateTime")
      && r.value.time == ParseInt(Field(fields, "time"))
      && Some(r.value.cache) == Field(fields, "cache")
      && r.value.timings == Field(fields, "timings")
      && r.value.responseDecoded == Field(fields, "responseDecoded")
      && r.value.order == ParseInt(Field(fields, "harEntryOrder"))
      && r.value.request == entry.request.(headersSize := ParseInt(Field(fields, "warcRequestHeadersSize")),
                                          cookies := Field(fields, "warcRequestCookies"))
      && r.value.response == entry.response.(headersSize := ParseInt(Field(fields, "warcResponseHeadersSize")),
                                            cookies := Field(fields, "warcResponseCookies"),
                                            content := Some(HarContent(None, None, Truthy(Field(fields, "warcResponseContentEncoding")))))
  {
    var fields :- ParseWarcFields(record);
    var cache :- JsonField(fields, "cache");
    var timings :- JsonField(fields, "timings");
    var responseDecoded :- JsonField(fields, "responseDecoded");
    var requestCookies :- JsonField(fields, "warcRequestCookies");
    var responseCookies :- JsonField(fields, "warcResponseCookies");
    var request := entry.request.(
      headersSize := ParseInt(Field(fields, "warcRequestHeadersSize")),
      cookies := Some(requestCookies));
    var response := entry.response.(
      cookies := Some(responseCookies),
      headersSize := ParseInt(Field(fields, "warcResponseHeadersSize")),
      content := Some(HarContent(None, None, Truthy(Field(fields, "warcResponseContentEncoding")))));
    Ok(entry.(
      id := Field(fields, "harEntryId"),
      order := ParseInt(Field(fields, "harEntryOrder")),
      cache := cache,
      startedDateTime := Field(fields, "startedDateTime"),
      time := ParseInt(Field(fields, "time")),
      timings := Some(timings),
      responseDecoded := Some(responseDecoded),
      request := request,
      response := response))
  }

  /**
   * The text the query-string parser reads: the piece of the path between its
   * first and second `?`. Without a `?` it is `undefined`, which parses to the
   * same empty list as `""`, so it is `""` here.
   */
  function QueryText(path: string): (q: string)
    ensures !Contains(path, "?") ==> q == ""
  {
    match Part(Split(path, "?"), 1)
    case None => ""
    case Some(q) => q
  }

  /** The query text is the second piece of the path. */
  lemma QueryTextPiece(path: string, pieces: seq<string>)
    requires Split(path, "?") == pieces && |pieces| >= 2
    ensures QueryText(path) == pieces[1]
  {
  }

  lemma QueryTextAfterFirst(p: string, tail: string)
    requires !Contains(p, "?")
    ensures Split(p + "?" + tail, "?") == [p] + Split(tail, "?")
  {
    assert Unbordered("?");
    SplitAfter(p, "?", tail);
  }

  lemma QueryTextOfOne(p: string, q: string)
    requires !Contains(p, "?") && !Contains(q, "?")
    ensures QueryText(p + "?" + q) == q
  {
    QueryTextAfterFirst(p, q);
    NoMatchNoSplit(q, "?");
    QueryTextPiece(p + "?" + q, [p] + [q]);
  }

  lemma QueryTextOfTwo(p: string, q: string, rest: string)
    requires !Contains(p, "?") && !Contains(q, "?")
    ensures QueryText(p + "?" + (q + "?" + rest)) == q
  {
    var tail := q + "?" + rest;
    QueryTextAfterFirst(q, rest);
    QueryTextAfterFirst(p, tail);
    QueryTextPiece(p + "?" + tail, [p] + ([q] + Split(rest, "?")));
  }

  /** The query text is what follows the first `?`, up to a second one if there is one. */
  lemma QueryTextOf(p: string, q: string, rest: string)
    requires !Contains(p, "?") && !Contains(q, "?")
    ensures QueryText(p + "?" + q) == q
    ensures QueryText(p + "?" + q + "?" + rest) == q
  {
    QueryTextOfOne(p, q);
    QueryTextOfTwo(p, q, rest);
    assert p + "?" + q + "?" + rest == p + "?" + (q + "?" + rest);
  }

  /**
   * `populateEntryRequest`: method and HTTP version from the request line,
   * body size 0, the target URI, the headers and the query part of the path.
   * The request fields set earlier are kept.
   */
  function PopulateEntryRequest(entry: HarEntry, record: WarcRecord): (r: Result<HarEntry, Error>)
    ensures r.Err? <==> ParseRequestLine(record.statusLine).path.None?
    ensures r.Ok? ==>
      var line := ParseRequestLine(record.statusLine);
      && r.value == entry.(request := r.value.request)
      && r.value.request.httpMethod == Some(line.httpMethod)
      && r.value.request.httpVersion == line.httpVersion
      && r.value.request.bodySize == Some(0)
      && r.value.request.url == WarcHeader(record, "WARC-Target-URI")
      && r.value.request.headers == Some(record.httpHeaders)
      && r.value.request.queryString == Some(QueryText(line.path.value))
      && r.value.request.headersSize == entry.request.headersSize
      && r.value.request.cookies == entry.request.cookies
  {
    var line := ParseRequestLine(record.statusLine);
    match line.path
    case None => Err(TypeError("path is undefined"))
    case Some(path) =>
      Ok(entry.(request := entry.request.(
        httpVersion := line.httpVersion,
        httpMethod := Some(line.httpMethod),
        bodySize := Some(0),
        url := WarcHeader(record, "WARC-Target-URI"),
        headers := Some(record.httpHeaders),
        queryString := Some(QueryText(path)))))
  }

  /**
   * `populateEntryResponse`: the status line, body size and headers, and the
   * MIME type and size stored in the response content that the metadata record
   * created. Fails without a `content-type` header, and when there is no
   * content object yet.
   */
  function PopulateEntryResponse(entry: HarEntry, record: WarcRecord): (r: Result<HarEntry, Error>)
    ensures r.Err? <==> HttpHeader(record, "content-type").None? || entry.response.content.None?
    ensures r.Ok? ==>
      var line := ParseStatusLine(record.statusLine);
      && r.value == entry.(response := r.value.response)
      && r.value.response.httpVersion == Some(line.httpVersion)
      && r.value.response.status == ParseInt(line.status)
      && r.value.response.statusText == Some(line.statusText)
      && r.value.response.bodySize == Some(record.bodyLength)
      && r.value.response.headers == Some(record.httpHeaders)
      && r.value.response.headersSize == entry.response.headersSize
      && r.value.response.cookies == entry.response.cookies
      && r.value.response.content == Some(entry.response.content.value.(
        mimeType := HttpHeader(record, "content-type"), size := Some(record.bodyLength)))
  {
    var line := ParseStatusLine(record.statusLine);
    match HttpHeader(record, "content-type")
    case None => Err(MissingValue)
    case Some(mimeType) =>
      match entry.response.content
      case None => Err(TypeError("response.content is undefined"))
      case Some(content) =>
        Ok(entry.(response := entry.response.(
          bodySize := Some(record.bodyLength),
          headers := Some(record.httpHeaders),
          httpVersion := Some(line.httpVersion),
          status := ParseInt(line.status),
          statusText := Some(line.statusText),
          content := Some(content.(mimeType := Some(mimeType), size := Some(record.bodyLength))))))
  }

  /* ---------------------------------------------------------------- dispatch */

  datatype RecordKind = WarcInfo | RequestRecord | ResponseRecord | MetadataRecord | Unsupported

  function KindOf(record: WarcRecord): RecordKind {
    match record.warcType
    case "warcinfo" => WarcInfo
    case "request" => RequestRecord
    case "response" => ResponseRecord
    case "metadata" => MetadataRecord
    case _ => Unsupported
  }

  predicate IsEntryRecord(record: WarcRecord) {
    KindOf(record) == RequestRecord || KindOf(record) == ResponseRecord || KindOf(record) == MetadataRecord
  }

  /** The WARC field naming an entry: the response's own ID, which the other two records refer to. */
  function EntryKey(record: WarcRecord): Option<string>
    requires IsEntryRecord(record)
  {
    if KindOf(record) == ResponseRecord then WarcHeader(record, "WARC-Record-ID")
    else WarcHeader(record, "WARC-Concurrent-To")
  }

  /** The request and metadata records that refer to a response land in that response's entry. */
  lemma ExchangeSharesEntry(request: WarcRecord, response: WarcRecord, metadata: WarcRecord, id: string)
    requires request.warcType == "request" && response.warcType == "response" && metadata.warcType == "metadata"
    requires WarcHeader(response, "WARC-Record-ID") == Some(id)
    requires WarcHeader(request, "WARC-Concurrent-To") == Some(id)
    requires WarcHeader(metadata, "WARC-Concurrent-To") == Some(id)
    ensures IsEntryRecord(request) && IsEntryRecord(response) && IsEntryRecord(metadata)
    ensures EntryKey(request) == EntryKey(response) == EntryKey(metadata) == Some(id)
  {
  }

  function Populate(entry: HarEntry, record: WarcRecord): Result<HarEntry, Error>
    requires IsEntryRecord(record)
  {
    match KindOf(record)
    case RequestRecord => PopulateEntryRequest(entry, record)
    case ResponseRecord => PopulateEntryResponse(entry, record)
    case MetadataRecord => PopulateEntryMetadata(entry, record)
  }

  /** The keys of the entries a sequence of records names. */
  ghost function EntryKeys(records: seq<WarcRecord>): set<string> {
    set record | record in records && IsEntryRecord(record) && EntryKey(record).Some? :: EntryKey(record).value
  }

  /* ---------------------------------------------------------------- the entry map */

  predicate Distinct(keys: seq<string>) {
    forall i, j :: 0 <= i < j < |keys| ==> keys[i] != keys[j]
  }

  lemma {:induction false} DistinctCardinality(keys: seq<string>)
    requires Distinct(keys)
    ensures |set k | k in keys| == |keys|
    decreases |keys|
  {
    if |keys| > 0 {
      var init, last := keys[..|keys| - 1], keys[|keys| - 1];
      DistinctCardinality(init);
      assert (set k | k in keys) == (set k | k in init) + {last};
      assert last !in (set k | k in init);
    }
  }

  function MapValues(keys: seq<string>, m: map<string, HarEntry>): seq<HarEntry>
    requires forall k :: k in keys ==> k in m
  {
    seq(|keys|, i requires 0 <= i < |keys| => m[keys[i]])
  }

  /** The contents of a JavaScript `Map` of entries: its keys in insertion order, and the entry under each. */
  datatype EntryTable = EntryTable(keys: seq<string>, entries: map<string, HarEntry>) {
    ghost predicate Valid() {
      Distinct(keys) && forall k :: k in entries <==> k in keys
    }

    /** The entries in insertion order, as spreading the map's values gives them. */
    function Values(): (vs: seq<HarEntry>)
      requires Valid()
      ensures |vs| == |keys| == |entries|
      ensures forall i :: 0 <= i < |keys| ==> vs[i] == entries[keys[i]]
    {
      DistinctCardinality(keys);
      assert (set k | k in keys) == entries.Keys;
      MapValues(keys, entries)
    }
  }

  /** The entry stored under `key`, or a new empty one. */
  function EntryOrEmpty(table: EntryTable, key: string): HarEntry {
    if key in table.entries then table.entries[key] else EmptyEntry
  }

  /**
   * One request, response or metadata record: the entry under the record's key,
   * a new empty one appended to the insertion order when there is none, updated
   * by the record. Fails without a key, or when the update fails.
   */
  function AddEntry(table: EntryTable, record: WarcRecord): (r: Result<EntryTable, Error>)
    requires IsEntryRecord(record)
    ensures r.Err? <==> EntryKey(record).None? || Populate(EntryOrEmpty(table, EntryKey(record).value), record).Err?
    ensures r.Ok? ==> r.value.entries.Keys == table.entries.Keys + {EntryKey(record).value}
    ensures r.Ok? ==>
      var key := EntryKey(record).value;
      r.value.entries[key] == Populate(EntryOrEmpty(table, key), record).value
      && forall k :: k in table.entries && k != key ==> r.value.entries[k] == table.entries[k]
    ensures r.Ok? && table.Valid() ==> r.value.Valid()
    ensures r.Ok? ==> (r.value.keys ==
      table.keys + if EntryKey(record).value in table.entries then [] else [EntryKey(record).value])
  {
    match EntryKey(record)
    case None => Err(MissingValue)
    case Some(key) =>
      var updated :- Populate(EntryOrEmpty(table, key), record);
      var keys := if key in table.entries then table.keys else table.keys + [key];
      Ok(EntryTable(keys, table.entries[key := updated]))
  }

  /** An insertion-ordered string-keyed map of entries, as a JavaScript `Map` is. */
  class EntryMap {
    var keys: seq<string>
    var entries: map<string, HarEntry>

    function Table(): EntryTable
      reads this
    {
      EntryTable(keys, entries)
    }

    ghost predicate Valid()
      reads this
    {
      Table().Valid()
    }

    constructor ()
      ensures Valid() && keys == [] && entries == map[]
    {
      keys, entries := [], map[];
    }

    /** `getOrCreateEntry`: the entry under `recordId`, a fresh empty one when there is none; fails on `null`. */
    method GetOrCreateEntry(recordId: Option<string>) returns (r: Result<HarEntry, Error>)
      requires Valid()
      modifies this
      ensures Valid()
      ensures recordId.None? ==> r == Err(MissingValue) && keys == old(keys) && entries == old(entries)
      ensures recordId.Some? && recordId.value in old(entries) ==>
        r == Ok(old(entries)[recordId.value]) && keys == old(keys) && entries == old(entries)
      ensures recordId.Some? && recordId.value !in old(entries) ==>
        r == Ok(EmptyEntry) && keys == old(keys) + [recordId.value]
        && entries == old(entries)[recordId.value := EmptyEntry]
    {
      if recordId.None? {
        return Err(MissingValue);
      }
      var id := recordId.value;
      if id !in entries {
        keys := keys + [id];
        entries := entries[id := EmptyEntry];
      }
      r := Ok(entries[id]);
    }

    /** Stores an updated entry under a key already present. */
    method SetEntry(key: string, entry: HarEntry)
      requires Valid() && key in entries
      modifies this
      ensures Valid() && keys == old(keys) && entries == old(entries)[key := entry]
    {
      entries := entries[key := entry];
    }
  }

  /* ---------------------------------------------------------------- ordering */

  predicate HasOrder(entries: seq<HarEntry>) {
    forall i :: 0 <= i < |entries| ==> entries[i].order.Some?
  }

  /** Every entry has an order, and each is no greater than the next. */
  ghost predicate SortedByOrder(entries: seq<HarEntry>) {
    HasOrder(entries) && forall i :: 0 <= i < |entries| - 1 ==> entries[i].order.value <= entries[i + 1].order.value
  }

  /** Sorted neighbour by neighbour means sorted pair by pair. */
  lemma {:induction false} SortedPairwise(entries: seq<HarEntry>, i: nat, j: nat)
    requires SortedByOrder(entries) && i <= j < |entries|
    ensures entries[i].order.value <= entries[j].order.value
    decreases j - i
  {
    if i < j {
      SortedPairwise(entries, i + 1, j);
    }
  }

  /** Places `entry` before the first entry of `sorted` whose order is not smaller. */
  function InsertByOrder(entry: HarEntry, sorted: seq<HarEntry>): (r: seq<HarEntry>)
    requires entry.order.Some? && SortedByOrder(sorted)
    ensures SortedByOrder(r)
    ensures multiset(r) == multiset(sorted) + multiset{entry}
    ensures r[0] == entry || (|sorted| > 0 && r[0] == sorted[0])
    decreases |sorted|
  {
    if |sorted| == 0 || entry.order.value <= sorted[0].order.value then
      ConsSorted(entry, sorted);
      [entry] + sorted
    else
      var tail := sorted[1..];
      assert SortedByOrder(tail);
      var rest := InsertByOrder(entry, tail);
      assert sorted == [sorted[0]] + tail;
      assert sorted[0].order.value <= rest[0].order.value;
      ConsSorted(sorted[0], rest);
      [sorted[0]] + rest
  }

  /** An entry no later than the first of sorted entries can go in front of them. */
  lemma ConsSorted(head: HarEntry, sorted: seq<HarEntry>)
    requires head.order.Some? && SortedByOrder(sorted)
    requires |sorted| > 0 ==> head.order.value <= sorted[0].order.value
    ensures SortedByOrder([head] + sorted)
  {
    var r := [head] + sorted;
    assert forall i :: 1 <= i < |r| ==> r[i] == sorted[i - 1];
  }

  /** The entries sorted ascending by `_order`. */
  function SortByOrder(entries: seq<HarEntry>): (r: seq<HarEntry>)
    requires HasOrder(entries)
    ensures SortedByOrder(r)
    ensures multiset(r) == multiset(entries)
    decreases |entries|
  {
    if |entries| == 0 then []
    else
      assert entries == [entries[0]] + entries[1..];
      InsertByOrder(entries[0], SortByOrder(entries[1..]))
  }

  /* ---------------------------------------------------------------- warc2har */

  lemma EntryKeysSnoc(records: seq<WarcRecord>, record: WarcRecord)
    ensures EntryKeys(records + [record]) ==
      EntryKeys(records) + if IsEntryRecord(record) && EntryKey(record).Some? then {EntryKey(record).value} else {}
  {
    assert forall x :: x in records + [record] <==> x in records || x == record;
  }

  /** The converter's state between records: the HAR log and the entry map. */
  datatype Conversion = Conversion(log: HarLog, table: EntryTable)

  /** One record of the archive: `warcinfo` fills the log, the exchange records an entry; others are skipped. */
  function Step(c: Conversion, record: WarcRecord): (r: Result<Conversion, Error>)
    ensures r.Ok? && c.table.Valid() ==> r.value.table.Valid()
    ensures r.Ok? ==> (r.value.table.entries.Keys ==
      c.table.entries.Keys + if IsEntryRecord(record) && EntryKey(record).Some? then {EntryKey(record).value} else {})
    ensures r.Ok? && IsEntryRecord(record) ==> EntryKey(record).Some?
    ensures r.Ok? && !IsEntryRecord(record) ==> r.value.table == c.table
    ensures r.Ok? && KindOf(record) != WarcInfo ==> r.value.log == c.log
  {
    if KindOf(record) == WarcInfo then
      var log :- PopulateHarLogInfo(c.log, record);
      Ok(c.(log := log))
    else if IsEntryRecord(record) then
      var table :- AddEntry(c.table, record);
      Ok(c.(table := table))
    else
      Ok(c)
  }

  /** The state after every record, in order, starting from an empty log and map; the first failure ends it. */
  function Process(records: seq<WarcRecord>): (r: Result<Conversion, Error>)
    ensures r.Ok? ==> r.value.table.Valid()
    ensures r.Ok? ==> r.value.table.entries.Keys == EntryKeys(records)
    ensures r.Ok? ==> forall record :: record in records && IsEntryRecord(record) ==> EntryKey(record).Some?
    decreases |records|
  {
    if |records| == 0 then Ok(Conversion(EmptyLog, EntryTable([], map[])))
    else
      var init, last := records[..|records| - 1], records[|records| - 1];
      var c :- Process(init);
      EntryKeysSnoc(init, last);
      assert records == init + [last];
      assert forall record :: record in records ==> record in init || record == last;
      Step(c, last)
  }

  /** A failure on a prefix of the records is the failure of the whole conversion. */
  lemma {:induction false} ProcessFailurePersists(records: seq<WarcRecord>, k: nat)
    requires k <= |records| && Process(records[..k]).Err?
    ensures Process(records) == Err(Process(records[..k]).error)
    decreases |records|
  {
    if k == |records| {
      assert records[..k] == records;
    } else {
      var init := records[..|records| - 1];
      assert init[..k] == records[..k];
      ProcessFailurePersists(init, k);
    }
  }

  /** Processing one more record is one more step. */
  lemma ProcessSnoc(records: seq<WarcRecord>, i: nat, c: Conversion)
    requires i < |records| && Process(records[..i]) == Ok(c)
    ensures Process(records[..i + 1]) == Step(c, records[i])
  {
    assert records[..i + 1][..i] == records[..i];
  }

  /**
   * The HAR document for a final state: the log, with the entries in insertion
   * order sorted by `_order`. Among two or more entries, one without an order
   * leaves the order to the JavaScript engine, which the model refuses.
   */
  function Finish(c: Conversion): (r: Result<Har, Error>)
    requires c.table.Valid()
    ensures r.Err? <==> |c.table.keys| > 1 && !HasOrder(c.table.Values())
    ensures r.Ok? ==> multiset(r.value.log.entries) == multiset(c.table.Values())
    ensures r.Ok? ==> r.value.log == c.log.(entries := r.value.log.entries)
    ensures r.Ok? ==> |r.value.log.entries| <= 1 || SortedByOrder(r.value.log.entries)
    ensures r.Ok? ==> |r.value.log.entries| == |c.table.entries|
  {
    var values := c.table.Values();
    if |values| <= 1 then Ok(Har(c.log.(entries := values)))
    else if !HasOrder(values) then Err(UnspecifiedOrder)
    else
      var sorted := SortByOrder(values);
      assert |sorted| == |multiset(sorted)| == |multiset(values)| == |values|;
      Ok(Har(c.log.(entries := sorted)))
  }

  /** The HAR document for the records. */
  function Convert(records: seq<WarcRecord>): (r: Result<Har, Error>)
    ensures var c := Process(records);
      r.Err? <==> (c.Err? || (|c.value.table.keys| > 1 && !HasOrder(c.value.table.Values())))
    ensures r.Ok? ==> var c := Process(records).value;
      && multiset(r.value.log.entries) == multiset(c.table.Values())
      && r.value.log == c.log.(entries := r.value.log.entries)
    ensures r.Ok? ==> |r.value.log.entries| <= 1 || SortedByOrder(r.value.log.entries)
    ensures r.Ok? ==> |r.value.log.entries| == |EntryKeys(records)|
    ensures r.Ok? ==> forall record :: record in records && IsEntryRecord(record) ==> EntryKey(record).Some?
  {
    var c :- Process(records);
    Finish(c)
  }

  /**
   * One request, response or metadata record applied to the entry map: the
   * entry under the record's key (fresh when new) updated by the record.
   */
  method AddEntryRecord(entryMap: EntryMap, record: WarcRecord) returns (r: Result<HarEntry, Error>)
    requires IsEntryRecord(record) && entryMap.Valid()
    modifies entryMap
    ensures entryMap.Valid()
    ensures var added := AddEntry(old(entryMap.Table()), record);
      && (r.Err? <==> added.Err?)
      && (r.Err? ==> r.error == added.error)
      && (r.Ok? ==> entryMap.Table() == added.value && r.value == added.value.entries[EntryKey(record).value])
  {
    ghost var table := entryMap.Table();
    var key := EntryKey(record);
    var got := entryMap.GetOrCreateEntry(key);
    if got.Err? {
      return Err(got.error);
    }
    assert got.value == EntryOrEmpty(table, key.value);
    var updated := Populate(got.value, record);
    if updated.Err? {
      return Err(updated.error);
    }
    entryMap.SetEntry(key.value, updated.value);
    assert entryMap.keys == if key.value in table.entries then table.keys else table.keys + [key.value];
    assert entryMap.entries == table.entries[key.value := updated.value];
    r := Ok(updated.value);
  }

  /** One record of the archive applied to the log and the entry map, as `Step` describes. */
  method ApplyRecord(entryMap: EntryMap, log: HarLog, record: WarcRecord) returns (r: Result<HarLog, Error>)
    requires entryMap.Valid()
    modifies entryMap
    ensures entryMap.Valid()
    ensures var step := Step(Conversion(log, old(entryMap.Table())), record);
      && (r.Err? <==> step.Err?)
      && (r.Err? ==> r.error == step.error)
      && (r.Ok? ==> step.value == Conversion(r.value, entryMap.Table()))
  {
    if KindOf(record) == WarcInfo {
      r := PopulateHarLogInfo(log, record);
    } else if IsEntryRecord(record) {
      var added := AddEntryRecord(entryMap, record);
      if added.Err? {
        return Err(added.error);
      }
      r := Ok(log);
    } else {
      r := Ok(log);
    }
  }

  /** `warc2har`: the records converted in order into a HAR log. */
  method Warc2Har(records: seq<WarcRecord>) returns (r: Result<Har, Error>)
    ensures r == Convert(records)
  {
    var log := EmptyLog;
    var entryMap := new EntryMap();
    var i := 0;
    while i < |records|
      invariant 0 <= i <= |records|
      invariant fresh(entryMap) && entryMap.Valid()
      invariant Process(records[..i]) == Ok(Conversion(log, entryMap.Table()))
    {
      ghost var before := Conversion(log, entryMap.Table());
      ProcessSnoc(records, i, before);
      var next := ApplyRecord(entryMap, log, records[i]);
      if next.Err? {
        ProcessFailurePersists(records, i + 1);
        return Err(next.error);
      }
      log := next.value;
      i := i + 1;
    }
    assert records[..i] == records;
    r := Finish(Conversion(log, entryMap.Table()));
  }
}
