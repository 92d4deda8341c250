/**
 * The status-text parser: `parse_client` turns one tab-separated
 * `CLIENT_LIST` line into a client record, and `parse_status_output` turns
 * the whole response of the `status` command into a roster keyed by client
 * name. Where the Rust code panics (an out-of-range field index, an
 * `unwrap` on a failed parse) the model returns `Err`, and the caller treats
 * that as the end of the process.
 */
module Status {
  import opened Wrappers
  import opened Text

  /** Tag of the lines that describe one connected client. */
  const StartLine: string := "CLIENT_LIST"
  /** Name the server gives to a placeholder row that is no real client. */
  const Undef: string := "UNDEF"

  /**
   * One observed session. The byte counters are kept as the text of their
   * fields (checked to be valid `f64` syntax), never as numbers.
   */
  datatype Client = Client(
    name: string,
    address: string,
    connectedSince: int,
    bytesReceived: string,
    bytesSent: string)

  /** Client name to the record last seen under that name. */
  type Roster = map<string, Client>

  /** Why `parse_client` would panic on a line. */
  datatype ParseError =
    | MissingField(index: nat)
    | BadTimestamp(field: string)
    | BadByteCount(index: nat, field: string)

  /** Every record is filed under its own name, and no name is the placeholder. */
  predicate WellFormedRoster(r: Roster) {
    forall n :: n in r ==> r[n].name == n && n != Undef
  }

  // ---------------------------------------------------------------------------
  // parse_client
  // ---------------------------------------------------------------------------

  /** The fields of a status line, split on tabs. */
  function Fields(line: string): seq<string> {
    Split(line, '\t')
  }

  /**
   * `parse_client`: field 1 is the name, field 2 up to its first colon the
   * address, field 8 the session start in epoch seconds, fields 5 and 6 the
   * byte counters. The fields are consulted in the order 1, 2, 8, 5, 6, so a
   * short line fails at the first index it lacks.
   */
  function ParseClient(line: string): (r: Result<Client, ParseError>)
    ensures r.Ok? ==>
      && '\t' !in r.value.name
      && ':' !in r.value.address && '\t' !in r.value.address
      && I64Min <= r.value.connectedSince <= I64Max
  {
    var fields := Fields(line);
    if |fields| < 2 then Err(MissingField(1))
    else if |fields| < 3 then Err(MissingField(2))
    else if |fields| < 9 then Err(MissingField(8))
    else
      match ParseI64(fields[8])
      case None => Err(BadTimestamp(fields[8]))
      case Some(t) =>
        if !IsFloatText(fields[5]) then Err(BadByteCount(5, fields[5]))
        else if !IsFloatText(fields[6]) then Err(BadByteCount(6, fields[6]))
        else Ok(Client(fields[1], HostPart(fields[2]), t, fields[5], fields[6]))
  }

  /**
   * What `parse_client` reads from where: it succeeds exactly when the line
   * has at least nine fields, field 8 is an `i64` and fields 5 and 6 are
   * floats; the name is field 1, the address is field 2 up to its first
   * colon, the start time is the value of field 8; a short line fails at the
   * first of the indices 1, 2 and 8 it lacks.
   */
  lemma ParseClientFields(line: string)
    ensures var fs := Fields(line); var r := ParseClient(line);
      && (r.Ok? <==> |fs| >= 9 && ParseI64(fs[8]).Some? && IsFloatText(fs[5]) && IsFloatText(fs[6]))
      && (r.Ok? ==>
          && r.value.name == fs[1]
          && r.value.address <= fs[2]
          && (|r.value.address| < |fs[2]| ==> fs[2][|r.value.address|] == ':')
          && ParseI64(fs[8]) == Some(r.value.connectedSince)
          && r.value.bytesReceived == fs[5] && r.value.bytesSent == fs[6])
      && (|fs| < 9 ==> r == Err(MissingField(if |fs| < 2 then 1 else if |fs| < 3 then 2 else 8)))
  {
  }

  /** A record the status line format can carry: no field separators inside fields. */
  predicate Encodable(c: Client) {
    && '\t' !in c.name && '\n' !in c.name
    && '\t' !in c.address && '\n' !in c.address && ':' !in c.address
    && '\t' !in c.bytesReceived && '\n' !in c.bytesReceived && IsFloatText(c.bytesReceived)
    && '\t' !in c.bytesSent && '\n' !in c.bytesSent && IsFloatText(c.bytesSent)
    && I64Min <= c.connectedSince <= I64Max
  }

  /**
   * The line a server writes for `c` connected from source port `port`:
   * tag, name, `address:port`, the two virtual addresses (left empty), the
   * byte counters, the human-readable start time (left empty) and the start
   * time in epoch seconds.
   */
  function StatusLineFields(c: Client, port: nat): seq<string> {
    [StartLine, c.name, c.address + [':'] + DecimalString(port), "", "",
     c.bytesReceived, c.bytesSent, "", IntString(c.connectedSince)]
  }

  function StatusLine(c: Client, port: nat): string {
    Join(StatusLineFields(c, port), '\t')
  }

  /** `parse_client` recovers every encodable record from the line written for it. */
  lemma ParseStatusLine(c: Client, port: nat)
    requires Encodable(c)
    ensures ParseClient(StatusLine(c, port)) == Ok(c)
  {
    var fs := StatusLineFields(c, port);
    var line := StatusLine(c, port);
    FieldsAvoid(c, port);
    SplitJoin(fs, '\t');
    assert Fields(line) == fs;
    HostPartOf(c.address, DecimalString(port));
    IntStringRoundTrip(c.connectedSince);
  }

  /** The line written for a record is tagged and holds no newline. */
  lemma StatusLineShape(c: Client, port: nat)
    requires Encodable(c)
    ensures StartLine <= StatusLine(c, port) && '\n' !in StatusLine(c, port)
  {
    var fs := StatusLineFields(c, port);
    FieldsAvoid(c, port);
    JoinPrefix(fs, '\t');
    JoinAvoids(fs, '\t', '\n');
  }

  lemma FieldsAvoid(c: Client, port: nat)
    requires Encodable(c)
    ensures var fs := StatusLineFields(c, port);
      |fs| == 9 && forall i :: 0 <= i < |fs| ==> '\t' !in fs[i] && '\n' !in fs[i]
  {
    var d := DecimalString(port);
    var t := IntString(c.connectedSince);
    assert forall k :: 0 <= k < |d| ==> IsDigit(d[k]);
    assert '\t' !in t && '\n' !in t;
  }

  /** A join starts with its first piece. */
  lemma JoinPrefix(parts: seq<string>, sep: char)
    requires |parts| >= 1
    ensures parts[0] <= Join(parts, sep)
  {
  }

  /** A join of pieces free of `c` is free of `c`, unless `c` is the separator. */
  lemma {:induction false} JoinAvoids(parts: seq<string>, sep: char, c: char)
    requires |parts| >= 1 && c != sep
    requires forall i :: 0 <= i < |parts| ==> c !in parts[i]
    ensures c !in Join(parts, sep)
    decreases |parts|
  {
    if |parts| > 1 {
      JoinAvoids(parts[1..], sep, c);
    }
  }

  // ---------------------------------------------------------------------------
  // parse_status_output
  // ---------------------------------------------------------------------------

  /** The record a line contributes to the roster, if any. */
  function LineRecord(line: string): Option<Client> {
    if StartLine <= line then
      match ParseClient(line)
      case Ok(c) => if c.name != Undef then Some(c) else None
      case Err(_) => None
    else None
  }

  /**
   * One turn of the loop of `parse_status_output`: a line that does not
   * start with the `CLIENT_LIST` tag is skipped, a tagged line that does not
   * parse aborts the whole parse, a placeholder record is dropped, and a
   * record replaces an earlier one of the same name.
   */
  function AddLine(acc: Result<Roster, ParseError>, line: string): Result<Roster, ParseError> {
    if acc.Err? || !(StartLine <= line) then acc
    else
      match ParseClient(line)
      case Err(e) => Err(e)
      case Ok(c) => if c.name == Undef then acc else Ok(acc.value[c.name := c])
  }

  /** The roster built from `lines` in order, one `AddLine` per line. */
  function CollectClients(lines: seq<string>): (r: Result<Roster, ParseError>)
    ensures r.Ok? ==> WellFormedRoster(r.value)
  {
    if lines == [] then Ok(map[])
    else AddLine(CollectClients(lines[..|lines| - 1]), lines[|lines| - 1])
  }

  /** Parsing one more line is one more turn of the loop. */
  lemma CollectSnoc(lines: seq<string>, line: string)
    ensures CollectClients(lines + [line]) == AddLine(CollectClients(lines), line)
  {
    assert (lines + [line])[..|lines|] == lines;
  }

  /**
   * `parse_status_output`: split the response on newlines and fold the
   * lines into a roster.
   */
  method ParseStatusOutput(output: string) returns (r: Result<Roster, ParseError>)
    ensures r == CollectClients(Split(output, '\n'))
  {
    var lines := Split(output, '\n');
    var roster: Roster := map[];
    for i := 0 to |lines|
      invariant CollectClients(lines[..i]) == Ok(roster)
    {
      var line := lines[i];
      assert lines[..i + 1][..i] == lines[..i];
      if StartLine <= line {
        var client := ParseClient(line);
        if client.Err? {
          CollectErrorSticks(lines, i + 1);
          return Err(client.error);
        }
        if client.value.name != Undef {
          roster := roster[client.value.name := client.value];
        }
      }
    }
    assert lines[..|lines|] == lines;
    r := Ok(roster);
  }

  /** Once a prefix of the lines fails, the whole parse fails with the same error. */
  lemma {:induction false} CollectErrorSticks(lines: seq<string>, k: nat)
    requires k <= |lines| && CollectClients(lines[..k]).Err?
    ensures CollectClients(lines) == CollectClients(lines[..k])
    decreases |lines| - k
  {
    if k < |lines| {
      assert lines[..k + 1][..k] == lines[..k];
      CollectErrorSticks(lines, k + 1);
    } else {
      assert lines[..k] == lines;
    }
  }

  /** The parse fails exactly when some tagged line fails to parse. */
  lemma {:induction false} CollectFails(lines: seq<string>)
    ensures CollectClients(lines).Err? <==>
      exists i :: 0 <= i < |lines| && StartLine <= lines[i] && ParseClient(lines[i]).Err?
  {
    if lines != [] {
      var init := lines[..|lines| - 1];
      CollectFails(init);
      if CollectClients(init).Err? {
        var i :| 0 <= i < |init| && StartLine <= init[i] && ParseClient(init[i]).Err?;
        assert lines[i] == init[i];
      } else {
        forall i | 0 <= i < |init| && StartLine <= lines[i]
          ensures ParseClient(lines[i]).Ok?
        {
          assert lines[i] == init[i];
        }
      }
    }
  }

  /** Only tagged lines matter: dropping every other line gives the same result. */
  function Tagged(lines: seq<string>): (t: seq<string>)
    ensures forall i :: 0 <= i < |t| ==> StartLine <= t[i]
  {
    if lines == [] then []
    else
      var last := lines[|lines| - 1];
      Tagged(lines[..|lines| - 1]) + (if StartLine <= last then [last] else [])
  }

  lemma {:induction false} CollectOnlyTagged(lines: seq<string>)
    ensures CollectClients(lines) == CollectClients(Tagged(lines))
  {
    if lines != [] {
      var init := lines[..|lines| - 1];
      var last := lines[|lines| - 1];
      CollectOnlyTagged(init);
      if StartLine <= last {
        assert Tagged(lines) == Tagged(init) + [last];
        CollectSnoc(Tagged(init), last);
      } else {
        assert Tagged(lines) == Tagged(init);
      }
    }
  }

  /** One step of a successful parse: the last line adds its record, if it has one. */
  lemma CollectStep(lines: seq<string>)
    requires lines != [] && CollectClients(lines).Ok?
    ensures var init := CollectClients(lines[..|lines| - 1]); var rec := LineRecord(lines[|lines| - 1]);
      && init.Ok?
      && CollectClients(lines).value ==
         if rec.Some? then init.value[rec.value.name := rec.value] else init.value
  {
  }

  /** Every record line's name is a key of a successfully parsed roster. */
  lemma {:induction false} CollectKeepsRecord(lines: seq<string>, i: nat)
    requires CollectClients(lines).Ok?
    requires i < |lines| && LineRecord(lines[i]).Some?
    ensures LineRecord(lines[i]).value.name in CollectClients(lines).value
    decreases |lines|
  {
    var init := lines[..|lines| - 1];
    CollectStep(lines);
    if i < |lines| - 1 {
      assert init[i] == lines[i];
      CollectKeepsRecord(init, i);
    }
  }

  /**
   * Later lines win: the record stored under a name is the one from the last
   * line that carries that name.
   */
  lemma {:induction false} CollectLastWins(lines: seq<string>, i: nat)
    requires CollectClients(lines).Ok?
    requires i < |lines| && LineRecord(lines[i]).Some?
    requires forall j :: i < j < |lines| && LineRecord(lines[j]).Some? ==>
      LineRecord(lines[j]).value.name != LineRecord(lines[i]).value.name
    ensures var m := CollectClients(lines).value; var rec := LineRecord(lines[i]).value;
      rec.name in m && m[rec.name] == rec
    decreases |lines|
  {
    var init := lines[..|lines| - 1];
    var last := LineRecord(lines[|lines| - 1]);
    var rec := LineRecord(lines[i]).value;
    CollectStep(lines);
    if i < |lines| - 1 {
      assert init[i] == lines[i];
      assert last.Some? ==> last.value.name != rec.name;
      forall j | i < j < |init| && LineRecord(init[j]).Some?
        ensures LineRecord(init[j]).value.name != rec.name
      {
        assert init[j] == lines[j];
      }
      CollectLastWins(init, i);
    }
  }

  /** Every key of a successfully parsed roster comes from some record line. */
  lemma {:induction false} CollectKeyHasLine(lines: seq<string>, n: string)
    requires CollectClients(lines).Ok? && n in CollectClients(lines).value
    ensures exists i :: 0 <= i < |lines| && LineRecord(lines[i]) == Some(CollectClients(lines).value[n])
    decreases |lines|
  {
    var init := lines[..|lines| - 1];
    var last := lines[|lines| - 1];
    var m := CollectClients(lines).value;
    CollectStep(lines);
    if LineRecord(last).Some? && LineRecord(last).value.name == n {
      assert LineRecord(lines[|lines| - 1]) == Some(m[n]);
    } else {
      CollectKeyHasLine(init, n);
      var i :| 0 <= i < |init| && LineRecord(init[i]) == Some(CollectClients(init).value[n]);
      assert lines[i] == init[i];
    }
  }

  // ---------------------------------------------------------------------------
  // Round trip through the status text
  // ---------------------------------------------------------------------------

  /** The roster of a sequence of records, a later record replacing an earlier one. */
  function RosterOf(cs: seq<Client>): Roster {
    if cs == [] then map[]
    else RosterOf(cs[..|cs| - 1])[cs[|cs| - 1].name := cs[|cs| - 1]]
  }

  /** One status line per record, each from source port `port`. */
  function StatusLines(cs: seq<Client>, port: nat): (lines: seq<string>)
    ensures |lines| == |cs|
  {
    seq(|cs|, i requires 0 <= i < |cs| => StatusLine(cs[i], port))
  }

  /** Parsing the lines written for encodable, non-placeholder records gives their roster. */
  lemma {:induction false} CollectStatusLines(cs: seq<Client>, port: nat)
    requires forall i :: 0 <= i < |cs| ==> Encodable(cs[i]) && cs[i].name != Undef
    ensures CollectClients(StatusLines(cs, port)) == Ok(RosterOf(cs))
  {
    if cs != [] {
      var init := cs[..|cs| - 1];
      var lines := StatusLines(cs, port);
      assert lines[..|lines| - 1] == StatusLines(init, port);
      CollectStatusLines(init, port);
      ParseStatusLine(cs[|cs| - 1], port);
    }
  }

  /**
   * A whole response, a header line, one line per record and the `END`
   * terminator, parses to the roster of the records.
   */
  lemma StatusOutputRoundTrip(cs: seq<Client>, port: nat, header: string)
    requires forall i :: 0 <= i < |cs| ==> Encodable(cs[i]) && cs[i].name != Undef
    requires '\n' !in header && !(StartLine <= header)
    ensures CollectClients(Split(Join([header] + StatusLines(cs, port) + ["END"], '\n'), '\n'))
      == Ok(RosterOf(cs))
  {
    var body := StatusLines(cs, port);
    StatusLinesShape(cs, port);
    WrappedAvoidsNewline(body, header);
    SplitJoin([header] + body + ["END"], '\n');
    CollectWrapped(body, header);
    CollectStatusLines(cs, port);
  }

  /** No line of a wrapped body holds a newline when neither the header nor the body does. */
  lemma WrappedAvoidsNewline(body: seq<string>, header: string)
    requires '\n' !in header
    requires forall i :: 0 <= i < |body| ==> '\n' !in body[i]
    ensures var lines := [header] + body + ["END"];
      forall i :: 0 <= i < |lines| ==> '\n' !in lines[i]
  {
    var lines := [header] + body + ["END"];
    forall i | 0 <= i < |lines| ensures '\n' !in lines[i] {
      if 0 < i < |lines| - 1 {
        assert lines[i] == body[i - 1];
      }
    }
  }

  /** An untagged header and the terminator around tagged lines change nothing in the roster. */
  lemma CollectWrapped(body: seq<string>, header: string)
    requires !(StartLine <= header)
    requires forall i :: 0 <= i < |body| ==> StartLine <= body[i]
    ensures CollectClients([header] + body + ["END"]) == CollectClients(body)
  {
    CollectOnlyTagged([header] + body + ["END"]);
    TaggedSkip(body, header);
    TaggedKeepsAll(body);
    CollectOnlyTagged(body);
  }

  lemma StatusLinesShape(cs: seq<Client>, port: nat)
    requires forall i :: 0 <= i < |cs| ==> Encodable(cs[i])
    ensures forall i :: 0 <= i < |cs| ==>
      '\n' !in StatusLines(cs, port)[i] && StartLine <= StatusLines(cs, port)[i]
  {
    forall i | 0 <= i < |cs|
      ensures '\n' !in StatusLines(cs, port)[i] && StartLine <= StatusLines(cs, port)[i]
    {
      StatusLineShape(cs[i], port);
    }
  }

  lemma {:induction false} TaggedKeepsAll(lines: seq<string>)
    requires forall i :: 0 <= i < |lines| ==> StartLine <= lines[i]
    ensures Tagged(lines) == lines
  {
    if lines != [] {
      TaggedKeepsAll(lines[..|lines| - 1]);
    }
  }

  /** Tagging a header-and-terminator wrapped body keeps only the body's tagged lines. */
  lemma TaggedSkip(body: seq<string>, header: string)
    requires !(StartLine <= header)
    ensures Tagged([header] + body + ["END"]) == Tagged(body)
  {
    assert ([header] + body + ["END"])[..|body| + 1] == [header] + body;
    TaggedSkipHead(body, header);
  }

  lemma {:induction false} TaggedSkipHead(body: seq<string>, header: string)
    requires !(StartLine <= header)
    ensures Tagged([header] + body) == Tagged(body)
  {
    if body != [] {
      var init := body[..|body| - 1];
      assert ([header] + body)[..|body|] == [header] + init;
      TaggedSkipHead(init, header);
    }
  }
}
