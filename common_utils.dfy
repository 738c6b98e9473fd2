/**
 * The run-report helpers: load-generator strings, field access on the run
 * record, the hh:mm:ss duration, list chunking and the five-row report
 * table.
 */
module CommonUtils {
  import opened Wrappers
  import opened Text
  import opened Json
  import Rows
  import TablePrinter

  /** A decoded run record (the run's JSON object). */
  type Record = map<string, Value>

  // ------------------------------------------------------- load generators

  /** An entry as `parse_lgs` keeps it: not blank, and without surrounding whitespace. */
  predicate Clean(e: string)
  {
    e != [] && Strip(e) == e
  }

  /** A segment is kept when it is not blank; it is kept stripped. */
  function KeepStripped(parts: seq<string>): (r: seq<string>)
    ensures |r| <= |parts|
  {
    if parts == [] then []
    else (if Strip(parts[0]) != [] then [Strip(parts[0])] else []) + KeepStripped(parts[1..])
  }

  lemma {:induction false} KeepStrippedClean(parts: seq<string>)
    ensures forall i :: 0 <= i < |KeepStripped(parts)| ==> Clean(KeepStripped(parts)[i])
  {
    if parts != [] {
      var head := if Strip(parts[0]) != [] then [Strip(parts[0])] else [];
      var rest := KeepStripped(parts[1..]);
      assert KeepStripped(parts) == head + rest;
      KeepStrippedClean(parts[1..]);
      StripIdempotent(parts[0]);
      forall i | 0 <= i < |head + rest| ensures Clean((head + rest)[i]) {
        if i >= |head| {
          assert (head + rest)[i] == rest[i - |head|];
        }
      }
    }
  }

  lemma {:induction false} KeepStrippedAppend(a: seq<string>, b: seq<string>)
    ensures KeepStripped(a + b) == KeepStripped(a) + KeepStripped(b)
  {
    if a == [] {
      assert a + b == b;
    } else {
      var head := if Strip(a[0]) != [] then [Strip(a[0])] else [];
      var x, y := KeepStripped(a[1..]), KeepStripped(b);
      assert (a + b)[0] == a[0];
      assert (a + b)[1..] == a[1..] + b;
      KeepStrippedAppend(a[1..], b);
      assert KeepStripped(a + b) == head + (x + y);
      assert KeepStripped(a) == head + x;
      assert head + (x + y) == (head + x) + y;
    }
  }

  /** Kept segments come from the segments: a character absent from every segment is absent from them. */
  lemma {:induction false} KeepStrippedAvoids(parts: seq<string>, c: char)
    requires forall k :: 0 <= k < |parts| ==> c !in parts[k]
    ensures forall i :: 0 <= i < |KeepStripped(parts)| ==> c !in KeepStripped(parts)[i]
  {
    if parts != [] {
      var head := if Strip(parts[0]) != [] then [Strip(parts[0])] else [];
      var rest := KeepStripped(parts[1..]);
      assert KeepStripped(parts) == head + rest;
      KeepStrippedAvoids(parts[1..], c);
      StripSlice(parts[0]);
      assert c !in parts[0];
      forall i | 0 <= i < |head + rest| ensures c !in (head + rest)[i] {
        if i >= |head| {
          assert (head + rest)[i] == rest[i - |head|];
        }
      }
    }
  }

  /** Segments that are already stripped and not blank are kept as they are. */
  lemma {:induction false} KeepStrippedKeeps(parts: seq<string>)
    requires forall k :: 0 <= k < |parts| ==> Clean(parts[k])
    ensures KeepStripped(parts) == parts
  {
    if parts != [] {
      assert Clean(parts[0]);
      assert KeepStripped(parts) == [parts[0]] + KeepStripped(parts[1..]);
      KeepStrippedKeeps(parts[1..]);
    }
  }

  /** The stripped, non-blank `;`-separated entries of a load-generator string. */
  function LgsEntries(raw: string): (r: seq<string>)
    ensures forall i :: 0 <= i < |r| ==> Clean(r[i]) && ';' !in r[i]
  {
    SplitSegments(raw, ';');
    KeepStrippedAvoids(Split(raw, ';'), ';');
    KeepStrippedClean(Split(raw, ';'));
    KeepStripped(Split(raw, ';'))
  }

  /** `parse_lgs`: the entries joined with `", "`; the empty string for an empty input. */
  function ParseLgs(raw: string): string
  {
    if raw == [] then "" else Join(LgsEntries(raw), ", ")
  }

  /** `_get(key)`: the empty string for a missing or `None` value, `str(value)` otherwise. */
  function Get(run: Record, key: string): string
  {
    var value := if key in run then run[key] else Str("");
    if value.Null? then "" else Show(value)
  }

  /** `get_lgs_list`: the entries of the record's `LGs` field. */
  function GetLgsList(run: Record): (r: seq<string>)
    ensures forall i :: 0 <= i < |r| ==> Clean(r[i]) && ';' !in r[i]
  {
    var raw := Get(run, "LGs");
    if raw == [] then [] else LgsEntries(raw)
  }

  /** Joining the list with `", "` gives the one-line form. */
  lemma LgsListJoin(run: Record)
    ensures Join(GetLgsList(run), ", ") == ParseLgs(Get(run, "LGs"))
  {
  }

  /**
   * The API's form, each entry followed by `;`, reads back as the entries,
   * and the one-line form is their `", "`-join.
   */
  lemma LgsRoundTrip(entries: seq<string>)
    requires forall i :: 0 <= i < |entries| ==> Clean(entries[i]) && ';' !in entries[i]
    ensures LgsEntries(Join(entries + [""], ";")) == entries
    ensures ParseLgs(Join(entries + [""], ";")) == Join(entries, ", ")
  {
    var parts := entries + [""];
    SplitJoin(parts, ';');
    KeepStrippedAppend(entries, [""]);
    KeepStrippedKeeps(entries);
    if entries == [] {
      assert ParseLgs(Join(parts, ";")) == "";
    } else {
      assert |Join(parts, ";")| >= 1 by {
        assert parts[0] == entries[0];
        JoinStartsWith(parts, ";");
      }
    }
  }

  lemma JoinStartsWith(parts: seq<string>, sep: string)
    requires parts != []
    ensures |Join(parts, sep)| >= |parts[0]|
  {
  }

  /** The example of the function's documentation: no space is inserted before `(`. */
  lemma ParseLgsExample()
    ensures ParseLgs("vm012.net(9);vm013.net(9);") == "vm012.net(9), vm013.net(9)"
  {
    var a := "vm012.net(9)";
    var b := "vm013.net(9)";
    assert !IsSpace(a[0]) && !IsSpace(a[|a| - 1]) && ';' !in a;
    assert !IsSpace(b[0]) && !IsSpace(b[|b| - 1]) && ';' !in b;
    StripUnchanged(a);
    StripUnchanged(b);
    var raw := "vm012.net(9);vm013.net(9);";
    assert Join([b, ""], ";") == b + ";";
    assert Join([a, b, ""], ";") == a + ";" + (b + ";") == raw;
    assert [a, b] + [""] == [a, b, ""];
    LgsRoundTrip([a, b]);
    assert ParseLgs(raw) == Join([a, b], ", ");
    assert [a, b][1..] == [b];
    assert Join([a, b], ", ") == a + ", " + b;
    ExampleJoined();
  }

  lemma ExampleJoined()
    ensures "vm012.net(9)" + ", " + "vm013.net(9)" == "vm012.net(9), vm013.net(9)"
  {
  }

  /** A string or integer field reads back as itself. */
  lemma GetShowsField(run: Record, key: string)
    requires key in run
    ensures run[key].Str? ==> Get(run, key) == run[key].s
    ensures run[key].Int? ==> IntOfString(Get(run, key)) == Some(run[key].i)
    ensures run[key].Null? ==> Get(run, key) == ""
  {
    if run[key].Int? {
      IntOfShowInt(run[key].i);
    }
  }

  // -------------------------------------------------------------- duration

  /** Seconds as whole hours, minutes and seconds, with Python's floor `//` and `%`. */
  function Decompose(diff: int): (hms: (int, int, int))
    ensures hms.0 * 3600 + hms.1 * 60 + hms.2 == diff
    ensures 0 <= hms.1 < 60 && 0 <= hms.2 < 60
  {
    var h := diff / 3600;
    var rest := diff % 3600;
    var m := rest / 60;
    var s := diff % 60;
    assert rest == m * 60 + rest % 60;
    assert diff % 60 == rest % 60 by {
      assert diff == (h * 60) * 60 + rest;
      ModShift(h * 60, rest);
    }
    (h, m, s)
  }

  lemma ModShift(q: int, rest: int)
    ensures (q * 60 + rest) % 60 == rest % 60
  {
  }

  /** Hours, minutes and seconds with minutes and seconds below 60 are unique. */
  lemma DecomposeUnique(diff: int, h: int, m: int, s: int)
    requires h * 3600 + m * 60 + s == diff
    requires 0 <= m < 60 && 0 <= s < 60
    ensures Decompose(diff) == (h, m, s)
  {
    var d := Decompose(diff);
    assert 0 <= m * 60 + s < 3600;
    assert 0 <= d.1 * 60 + d.2 < 3600;
    assert (h - d.0) * 3600 == (d.1 * 60 + d.2) - (m * 60 + s);
    assert h == d.0;
    assert (m - d.1) * 60 == d.2 - s;
  }

  /** `f"{n:02d}"`: zero-padded to two characters when it has one digit. */
  function Pad2(n: int): string
  {
    if 0 <= n < 10 then "0" + ShowInt(n) else ShowInt(n)
  }

  /** A padded field reads back as its number and holds no `:`. */
  lemma Pad2ReadBack(n: int)
    ensures IntOfString(Pad2(n)) == Some(n)
    ensures ':' !in Pad2(n)
  {
    var r := Pad2(n);
    if 0 <= n < 10 {
      assert r == ['0', DigitChar(n)];
      DigitRoundTrip(n);
      assert r[..1] == ['0'];
      assert DigitsValue(r) == DigitsValue(r[..1]) * 10 + n;
      StripUnchanged(r);
    } else {
      IntOfShowInt(n);
      ShowIntNoColon(n);
    }
  }

  lemma ShowIntNoColon(n: int)
    ensures ':' !in ShowInt(n)
  {
    var s := ShowInt(n);
    ShowIntChars(n);
    assert forall k :: 0 <= k < |s| ==> s[k] != ':';
  }

  /** `datetime.fromisoformat`, given as the instant in whole seconds, or `None` when it raises. */
  type TimeParser = string -> Option<int>

  /** `safe_parse_time`: the empty string parses to nothing. */
  function ParseTime(s: string, fromIso: TimeParser): Option<int>
  {
    if s == [] then None else fromIso(s)
  }

  /** `hh:mm:ss` of a number of seconds. */
  function FormatDuration(diff: int): string
  {
    var hms := Decompose(diff);
    Pad2(hms.0) + ":" + Pad2(hms.1) + ":" + Pad2(hms.2)
  }

  /** What `compute_duration` answers when either time does not parse. */
  const ZeroDuration: string := "00:00:00"

  /** Seconds from the first parsed time to the second, zero when either is missing. */
  function Elapsed(t1: Option<int>, t2: Option<int>): int
  {
    if t1.Some? && t2.Some? then t2.value - t1.value else 0
  }

  /**
   * `compute_duration`. The early `"00:00:00"` answer is the formatting of
   * zero seconds, so both branches are one formatting of `Elapsed`.
   */
  function ComputeDuration(start: string, end: string, fromIso: TimeParser): (r: string)
    ensures ParseTime(start, fromIso).None? || ParseTime(end, fromIso).None? ==> r == ZeroDuration
  {
    ZeroFormat();
    FormatDuration(Elapsed(ParseTime(start, fromIso), ParseTime(end, fromIso)))
  }

  /** Zero seconds format as `"00:00:00"`. */
  lemma ZeroFormat()
    ensures FormatDuration(0) == ZeroDuration
  {
  }

  /** Reading an `hh:mm:ss` string back as seconds. */
  function ReadDuration(s: string): Option<int>
  {
    ReadFields(Split(s, ':'))
  }

  /** Three integer fields as hours, minutes and seconds. */
  function ReadFields(parts: seq<string>): Option<int>
  {
    if |parts| != 3 then None
    else match (IntOfString(parts[0]), IntOfString(parts[1]), IntOfString(parts[2]))
      case (Some(h), Some(m), Some(sec)) => Some(h * 3600 + m * 60 + sec)
      case _ => None
  }

  /** Three separator-free fields joined by the separator split back apart. */
  lemma SplitThree(a: string, b: string, c: string, sep: char)
    requires sep !in a && sep !in b && sep !in c
    ensures Split(a + [sep] + b + [sep] + c, sep) == [a, b, c]
  {
    var parts := [a, b, c];
    assert parts[1..][1..] == [c];
    assert Join(parts[1..], [sep]) == b + [sep] + c;
    assert Join(parts, [sep]) == a + [sep] + b + [sep] + c;
    SplitJoin(parts, sep);
  }

  /** Three padded fields joined by `:` read back as the seconds they stand for. */
  lemma ReadBackFields(h: int, m: int, sec: int)
    ensures ReadDuration(Pad2(h) + ":" + Pad2(m) + ":" + Pad2(sec)) == Some(h * 3600 + m * 60 + sec)
  {
    var a, b, c := Pad2(h), Pad2(m), Pad2(sec);
    Pad2ReadBack(h);
    Pad2ReadBack(m);
    Pad2ReadBack(sec);
    SplitThree(a, b, c, ':');
    ReadFieldsOf(a, b, c, h, m, sec);
  }

  /** Three integer fields read as that many hours, minutes and seconds. */
  lemma ReadFieldsOf(a: string, b: string, c: string, h: int, m: int, sec: int)
    requires IntOfString(a) == Some(h) && IntOfString(b) == Some(m) && IntOfString(c) == Some(sec)
    ensures ReadFields([a, b, c]) == Some(h * 3600 + m * 60 + sec)
  {
    var parts := [a, b, c];
    assert parts[0] == a && parts[1] == b && parts[2] == c;
  }

  /** The `hh:mm:ss` form reads back as the seconds it was made from, negative ones included. */
  lemma FormatReadBack(diff: int)
    ensures ReadDuration(FormatDuration(diff)) == Some(diff)
  {
    var hms := Decompose(diff);
    ReadBackFields(hms.0, hms.1, hms.2);
  }

  /** The duration string reads back as the seconds from start to end. */
  lemma DurationRoundTrip(start: string, end: string, fromIso: TimeParser)
    requires ParseTime(start, fromIso).Some? && ParseTime(end, fromIso).Some?
    ensures ReadDuration(ComputeDuration(start, end, fromIso))
            == Some(ParseTime(end, fromIso).value - ParseTime(start, fromIso).value)
  {
    var diff := Elapsed(ParseTime(start, fromIso), ParseTime(end, fromIso));
    assert diff == ParseTime(end, fromIso).value - ParseTime(start, fromIso).value;
    FormatReadBack(diff);
  }

  // -------------------------------------------------------------- chunking

  /** `range` raises `ValueError` when its step is zero. */
  datatype ChunkError = ZeroStep

  /**
   * `chunk_list`, its chunks collected: slices of `size` items from the
   * front, the last one shorter when the items run out. A negative size
   * yields nothing.
   */
  method ChunkList<T>(items: seq<T>, size: int) returns (r: Result<seq<seq<T>>, ChunkError>)
    ensures r.Err? <==> size == 0
    ensures size < 0 ==> r == Ok([])
    ensures size > 0 ==> r.Ok? && Rows.Flatten(r.value) == items
    ensures size > 0 ==> (r.value == [] <==> items == [])
    ensures size > 0 ==> forall i :: 0 <= i < |r.value| ==> 1 <= |r.value[i]| <= size
    ensures size > 0 ==> forall i :: 0 <= i < |r.value| - 1 ==> |r.value[i]| == size
  {
    if size == 0 {
      return Err(ZeroStep);
    }
    if size < 0 {
      return Ok([]);
    }
    var chunks: seq<seq<T>> := [];
    var i := 0;
    while i < |items|
      invariant 0 <= i <= |items|
      invariant Rows.Flatten(chunks) == items[..i]
      invariant chunks == [] <==> i == 0
      invariant forall k :: 0 <= k < |chunks| ==> 1 <= |chunks[k]| <= size
      invariant forall k :: 0 <= k < |chunks| - 1 ==> |chunks[k]| == size
      invariant i < |items| ==> forall k :: 0 <= k < |chunks| ==> |chunks[k]| == size
      decreases |items| - i
    {
      var j := if i + size < |items| then i + size else |items|;
      Rows.FlattenSnoc(chunks, items[i..j]);
      assert items[..i] + items[i..j] == items[..j];
      chunks := chunks + [items[i..j]];
      i := j;
    }
    assert items[..i] == items;
    return Ok(chunks);
  }

  // ------------------------------------------------------------ report rows

  /** `getattr(settings, name, '')` formatted: empty when there are no settings or no such attribute. */
  function Setting(settings: Option<Record>, name: string): string
  {
    if settings.Some? && name in settings.value then Show(settings.value[name]) else ""
  }

  /** The label that starts each cell of the report table, row by row. */
  const Labels: seq<seq<string>> := [
    ["Domain: ", "Project: ", "Test Name: ", "Test Id: "],
    ["Run Name: ", "Start Time: ", "End Time: ", "Duration: "],
    ["Run ID: ", "Run Status: ", "Controller: ", "Test Instance Id: "],
    ["Vusers Involved: ", "Trans Passed: ", "Trans Failed: ", "Errors: "],
    ["Trans/sec: ", "Hits/sec: ", "Throughput Avg: ", ""]]

  /** The value shown after each label, row by row; the last cell has none. */
  function Values(run: Record, settings: Option<Record>, fromIso: TimeParser): (vs: seq<seq<string>>)
    ensures |vs| == 5 && forall i :: 0 <= i < 5 ==> |vs[i]| == 4
    ensures vs[4][3] == ""
  {
    [
      [Setting(settings, "lre_domain"), Setting(settings, "lre_project"), Get(run, "TestName"), Get(run, "TestId")],
      [Get(run, "Name"), Get(run, "Start"), Get(run, "End"),
       ComputeDuration(Get(run, "Start"), Get(run, "End"), fromIso)],
      [Setting(settings, "lre_run_id"), Get(run, "State"), Get(run, "Controller"), Get(run, "TestInstanceId")],
      [Get(run, "VusersInvolved"), Get(run, "TransPassed"), Get(run, "TransFailed"), Get(run, "Errors")],
      [Get(run, "TransPerSec"), Get(run, "HitsPerSec"), Get(run, "ThroughputAvg"), ""]
    ]
  }

  /**
   * `build_rows`: five rows of four cells, each cell its label followed by
   * its value; the last cell is empty.
   */
  function BuildRows(run: Record, settings: Option<Record>, fromIso: TimeParser): (rows: seq<seq<string>>)
    ensures |rows| == 5 && forall i :: 0 <= i < 5 ==> |rows[i]| == 4
    ensures forall i, j :: 0 <= i < 5 && 0 <= j < 4 ==> Labels[i][j] <= rows[i][j]
    ensures rows[4][3] == ""
  {
    var vs := Values(run, settings, fromIso);
    assert Labels[4][3] + vs[4][3] == "";
    seq(5, i requires 0 <= i < 5 => seq(4, j requires 0 <= j < 4 => Labels[i][j] + vs[i][j]))
  }

  /** The duration cell holds the run's start and end times' difference. */
  lemma DurationCell(run: Record, settings: Option<Record>, fromIso: TimeParser)
    ensures BuildRows(run, settings, fromIso)[1][3] == "Duration: " + ComputeDuration(Get(run, "Start"), Get(run, "End"), fromIso)
  {
  }

  /** The report table always prints: five rows and two borders, all of one length. */
  lemma ReportPrints(run: Record, settings: Option<Record>, fromIso: TimeParser)
    ensures var rows := BuildRows(run, settings, fromIso);
            var out := TablePrinter.Layout(rows);
            out.Ok? && |out.value| == 7 &&
            forall i :: 0 <= i < 7 ==> |out.value[i]| == |out.value[0]|
  {
    var rows := BuildRows(run, settings, fromIso);
    TablePrinter.LayoutLineLengths(rows);
  }
}
