/**
 * Conversions between the three header representations the HTTP test
 * fixtures use: a record of the recording library (a value is one string or
 * an array of strings), the `fetch` headers, and CRLF-separated header lines.
 */
module PollyHeaders {
  import opened Wrappers
  import opened Strings
  import opened Records

  datatype HeaderValue = Single(value: string) | Multiple(values: seq<string>)

  /** A scalar value counts as a list of one. */
  function ValuesOf(v: HeaderValue): seq<string> {
    match v
    case Single(s) => [s]
    case Multiple(vs) => vs
  }

  /** The number of values over all headers. */
  function ValueCount(headers: seq<(string, HeaderValue)>): nat
    decreases |headers|
  {
    if |headers| == 0 then 0 else |ValuesOf(headers[0].1)| + ValueCount(headers[1..])
  }

  /** One name/value pair per value of one header, in array order. */
  function Expand(header: (string, HeaderValue)): seq<(string, string)> {
    var vs := ValuesOf(header.1);
    seq(|vs|, i requires 0 <= i < |vs| => (header.0, vs[i]))
  }

  /** The flattening of the headers, header by header: the `flatMap` of the conversion. */
  function FieldPairs(headers: seq<(string, HeaderValue)>): seq<(string, string)>
    decreases |headers|
  {
    if |headers| == 0 then [] else Expand(headers[0]) + FieldPairs(headers[1..])
  }

  function FieldLine(pair: (string, string)): string {
    pair.0 + ": " + pair.1
  }

  function HeaderLines(headers: seq<(string, HeaderValue)>): seq<string> {
    var pairs := FieldPairs(headers);
    seq(|pairs|, i requires 0 <= i < |pairs| => FieldLine(pairs[i]))
  }

  const CRLF := "\r\n"

  /** The headers as `name: value` lines separated by CRLF (`CRLFHeaders.fromPollyHeaders`). */
  function CrlfFromPollyHeaders(headers: seq<(string, HeaderValue)>): string {
    Join(HeaderLines(headers), CRLF)
  }

  /** The flattening of two header lists is the flattening of each, in order. */
  lemma {:induction false} FieldPairsAppend(a: seq<(string, HeaderValue)>, b: seq<(string, HeaderValue)>)
    ensures FieldPairs(a + b) == FieldPairs(a) + FieldPairs(b)
    decreases |a|
  {
    if |a| > 0 {
      assert (a + b)[0] == a[0];
      assert (a + b)[1..] == a[1..] + b;
      FieldPairsAppend(a[1..], b);
    } else {
      assert a + b == b;
    }
  }

  /** There is one line per value. */
  lemma {:induction false} LineCount(headers: seq<(string, HeaderValue)>)
    ensures |HeaderLines(headers)| == |FieldPairs(headers)| == ValueCount(headers)
    decreases |headers|
  {
    if |headers| > 0 {
      LineCount(headers[1..]);
    }
  }

  /**
   * Value `m` of header `j` becomes the line `name: value` at the position that
   * follows all values of the earlier headers and the earlier values of its own.
   */
  lemma {:induction false} LineAt(headers: seq<(string, HeaderValue)>, j: nat, m: nat)
    requires j < |headers| && m < |ValuesOf(headers[j].1)|
    ensures ValueCount(headers[..j]) + m < |FieldPairs(headers)|
    ensures FieldPairs(headers)[ValueCount(headers[..j]) + m] == (headers[j].0, ValuesOf(headers[j].1)[m])
    ensures HeaderLines(headers)[ValueCount(headers[..j]) + m] == headers[j].0 + ": " + ValuesOf(headers[j].1)[m]
    decreases j
  {
    var first, rest := headers[0], headers[1..];
    assert FieldPairs(headers) == Expand(first) + FieldPairs(rest);
    if j > 0 {
      assert headers[..j][0] == first;
      assert headers[..j][1..] == rest[..j - 1];
      assert ValueCount(headers[..j]) == |ValuesOf(first.1)| + ValueCount(rest[..j - 1]);
      assert rest[j - 1] == headers[j];
      LineAt(rest, j - 1, m);
    }
  }

  /** Headers with no values at all give the empty string. */
  lemma NoValuesNoText(headers: seq<(string, HeaderValue)>)
    requires ValueCount(headers) == 0
    ensures CrlfFromPollyHeaders(headers) == ""
  {
    LineCount(headers);
  }

  /** No `\r` in a string. */
  predicate NoCR(s: string) {
    forall i :: 0 <= i < |s| ==> s[i] != '\r'
  }

  /**
   * Lines are separated by CRLF and nothing else: splitting the text on CRLF
   * gives back exactly the lines, when no name or value holds a carriage return.
   */
  lemma CrlfLinesSplit(headers: seq<(string, HeaderValue)>)
    requires ValueCount(headers) > 0
    requires forall i :: 0 <= i < |FieldPairs(headers)| ==> NoCR(FieldPairs(headers)[i].0) && NoCR(FieldPairs(headers)[i].1)
    ensures Split(CrlfFromPollyHeaders(headers), CRLF) == HeaderLines(headers)
  {
    LineCount(headers);
    var lines := HeaderLines(headers);
    forall i | 0 <= i < |lines| ensures !Contains(lines[i], CRLF) {
      var pair := FieldPairs(headers)[i];
      assert NoCR(FieldLine(pair));
      NoCharNoMatch(lines[i], CRLF);
    }
    assert |lines| > 0;
    assert Unbordered(CRLF) by {
      assert CRLF[1..][0] == '\n' && CRLF[..1][0] == '\r';
    }
    SplitJoin(lines, CRLF);
  }

  /** The first value: a scalar itself, the first element of an array, `undefined` for an empty array. */
  function FirstValue(v: HeaderValue): Option<string> {
    match v
    case Single(s) => Some(s)
    case Multiple(vs) => if |vs| > 0 then Some(vs[0]) else None
  }

  function FirstValues(headers: seq<(string, HeaderValue)>): seq<(string, Option<string>)> {
    seq(|headers|, i requires 0 <= i < |headers| => (headers[i].0, FirstValue(headers[i].1)))
  }

  /**
   * The init record of `FetchHeaders.fromPollyHeaders`: every header is kept,
   * with its first value when it has several.
   */
  method FetchHeadersFromPollyHeaders(headers: seq<(string, HeaderValue)>) returns (init: map<string, Option<string>>)
    ensures init.Keys == KeysOf(headers)
    ensures forall i :: LastForKey(headers, i) ==> init[headers[i].0] == FirstValue(headers[i].1)
  {
    var pairs := FirstValues(headers);
    init := map[];
    var i := 0;
    while i < |headers|
      invariant 0 <= i <= |headers|
      invariant init == Assign(map[], pairs[..i])
    {
      var (k, v) := headers[i];
      assert pairs[..i + 1] == pairs[..i] + [(k, FirstValue(v))];
      AssignSnoc(map[], pairs[..i], (k, FirstValue(v)));
      init := init[k := FirstValue(v)];
      i := i + 1;
    }
    assert pairs[..i] == pairs;
    AssignKeys(map[], pairs);
    assert KeysOf(pairs) == KeysOf(headers) by {
      forall k | k in KeysOf(headers) ensures k in KeysOf(pairs) {
        var j :| 0 <= j < |headers| && headers[j].0 == k;
        assert pairs[j].0 == k;
      }
    }
    forall i | LastForKey(headers, i) ensures init[headers[i].0] == FirstValue(headers[i].1) {
      AssignLastWins(map[], pairs, i);
    }
  }

  /**
   * `PollyHeaders.fromFetchHeaders`: a record holding every iterated pair, a
   * later pair for a name overwriting an earlier one.
   */
  method PollyHeadersFromFetchHeaders(fetchHeaders: seq<(string, string)>) returns (record: map<string, string>)
    ensures record.Keys == KeysOf(fetchHeaders)
    ensures forall i :: LastForKey(fetchHeaders, i) ==> record[fetchHeaders[i].0] == fetchHeaders[i].1
  {
    record := map[];
    var i := 0;
    while i < |fetchHeaders|
      invariant 0 <= i <= |fetchHeaders|
      invariant record == Assign(map[], fetchHeaders[..i])
    {
      var (k, v) := fetchHeaders[i];
      assert fetchHeaders[..i + 1] == fetchHeaders[..i] + [(k, v)];
      AssignSnoc(map[], fetchHeaders[..i], (k, v));
      record := record[k := v];
      i := i + 1;
    }
    assert fetchHeaders[..i] == fetchHeaders;
    AssignKeys(map[], fetchHeaders);
    forall i | LastForKey(fetchHeaders, i) ensures record[fetchHeaders[i].0] == fetchHeaders[i].1 {
      AssignLastWins(map[], fetchHeaders, i);
    }
  }
}
