/** The first-generation server (`src/server.js`): its serial listener keeps
    the last line that parsed as JSON, or as two comma-separated digit fields
    `analog, digital`, in `latest`. There is no collecting switch and no
    capture gate. `JSON.parse` is the oracle `decode`, as in `LineParser`;
    `isNull` tells which decoded values are the JSON literal `null`. */
module LegacyServer {
  import opened Base
  import opened Text
  import Csv

  /** What a non-null `latest` can hold: the parsed JSON value itself, or the
      record `{ analog, digital, t }` built from a two-field line. `None` is
      `latest === null`. */
  datatype Latest<J> = Parsed(value: J) | AnalogDigital(analog: nat, digital: nat, t: int)

  /** The serial listener receiving `line` at time `now`. `latest = obj` with
      `obj` the parsed `null` empties the cache again. */
  function OnLine<J>(latest: Option<Latest<J>>, line: string, now: int, decode: string -> Option<J>,
                     isNull: J -> bool): (r: Option<Latest<J>>)
    ensures r.None? && latest.Some? ==> decode(Trim(line)).Some? && isNull(decode(Trim(line)).value)
    ensures r.Some? && r != latest ==> decode(Trim(line)).Some? || Csv.Fields(Trim(line), 2).Some?
  {
    var s := Trim(line);
    match decode(s)
    case Some(obj) => if isNull(obj) then None else Some(Parsed(obj))
    case None =>
      match Csv.Fields(s, 2)
      case Some(vs) => Some(AnalogDigital(vs[0], vs[1], now))
      case None => latest
  }

  /** The line `null` is valid JSON: it clears whatever `latest` held, so the
      server answers as if no reading had ever arrived. */
  lemma JsonNullClears<J>(latest: Option<Latest<J>>, line: string, now: int, decode: string -> Option<J>,
                          isNull: J -> bool)
    requires decode(Trim(line)).Some? && isNull(decode(Trim(line)).value)
    ensures OnLine(latest, line, now, decode, isNull).None?
  {
  }

  /** JSON takes precedence: a line whose trimmed text decodes to anything but
      `null` replaces `latest` with exactly the decoded value, with no time stamp added, and the
      comma-separated pattern is never consulted. */
  lemma JsonReplaces<J>(latest: Option<Latest<J>>, line: string, now: int, decode: string -> Option<J>,
                        isNull: J -> bool)
    requires decode(Trim(line)).Some? && !isNull(decode(Trim(line)).value)
    ensures OnLine(latest, line, now, decode, isNull) == Some(Parsed(decode(Trim(line)).value))
  {
  }

  /** A non-JSON line of two digit fields `a, b` stores `{ analog: a, digital: b, t: now }`. */
  lemma TwoFieldsReplace<J>(latest: Option<Latest<J>>, line: string, now: int, decode: string -> Option<J>,
                            isNull: J -> bool)
    requires decode(Trim(line)).None? && Csv.Fields(Trim(line), 2).Some?
    ensures var vs := Csv.Fields(Trim(line), 2).value;
      OnLine(latest, line, now, decode, isNull) == Some(AnalogDigital(vs[0], vs[1], now))
  {
  }

  /** The end-to-end version: two numbers printed with any white space padding
      come back as `analog` and `digital`. */
  lemma TwoNumbers<J>(latest: Option<Latest<J>>, a: nat, b: nat, pre: string, post: string, now: int,
                      decode: string -> Option<J>, isNull: J -> bool)
    requires AllSpace(pre) && AllSpace(post)
    requires decode(Csv.Render([a, b])).None?
    ensures OnLine(latest, pre + Csv.Render([a, b]) + post, now, decode, isNull) == Some(AnalogDigital(a, b, now))
  {
    var line := Csv.Render([a, b]);
    Csv.RenderTrimmed([a, b]);
    TrimPadded(pre, line, post);
    Csv.FieldsOfRender([a, b]);
  }

  /** Any other line leaves `latest` as it was. */
  lemma OtherLinesIgnored<J>(latest: Option<Latest<J>>, line: string, now: int, decode: string -> Option<J>,
                             isNull: J -> bool)
    requires decode(Trim(line)).None? && Csv.Fields(Trim(line), 2).None?
    ensures OnLine(latest, line, now, decode, isNull) == latest
  {
  }
}
