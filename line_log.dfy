/**
  The append-only vacancy log: one JSON document per line, appended one at a
  time and read back line by line.
*/
module LineLog {
  import opened Wrappers
  import opened PyValues

  /** A line of the file: a JSON document `json.loads` accepts, or one it rejects. */
  datatype Line<T> = Encoded(record: T) | Garbled

  /** `[json.loads(line) for line in file]`: the first bad line aborts the whole read. */
  function Decode<T>(lines: seq<Line<T>>): (r: Result<seq<T>, PyError>)
    ensures r.Ok? <==> forall i :: 0 <= i < |lines| ==> lines[i].Encoded?
    ensures r.Ok? ==> |r.value| == |lines| && forall i :: 0 <= i < |lines| ==> r.value[i] == lines[i].record
    ensures r.Err? ==> r.error == JsonDecodeError
  {
    if lines == [] then Ok([])
    else if lines[0].Garbled? then Err(JsonDecodeError)
    else
      match Decode(lines[1..])
      case Ok(rest) => Ok([lines[0].record] + rest)
      case Err(e) => Err(e)
  }

  /** Appending a line adds its record at the end of what reads back, or keeps the read failing. */
  lemma {:induction false} DecodeAppend<T>(lines: seq<Line<T>>, record: T)
    ensures Decode(lines + [Encoded(record)]) ==
              if Decode(lines).Ok? then Ok(Decode(lines).value + [record]) else Decode(lines)
    decreases |lines|
  {
    if lines == [] {
      assert Decode([Encoded(record)]) == Ok([record] + []);
      assert [record] + [] == [] + [record];
    } else {
      assert (lines + [Encoded(record)])[1..] == lines[1..] + [Encoded(record)];
      DecodeAppend(lines[1..], record);
      if lines[0].Encoded? && Decode(lines[1..]).Ok? {
        assert [lines[0].record] + (Decode(lines[1..]).value + [record])
            == ([lines[0].record] + Decode(lines[1..]).value) + [record];
      }
    }
  }

  /** There is no duplicate check: adding the same record twice stores it twice. */
  lemma AddTwiceKeepsBoth<T>(lines: seq<Line<T>>, record: T)
    requires Decode(lines).Ok?
    ensures Decode(lines + [Encoded(record)] + [Encoded(record)]) == Ok(Decode(lines).value + [record, record])
  {
    DecodeAppend(lines, record);
    DecodeAppend(lines + [Encoded(record)], record);
    assert Decode(lines).value + [record] + [record] == Decode(lines).value + [record, record];
  }

  /** The log file. */
  class JsonLinesHandler {
    /** The lines of the file, in order. */
    var lines: seq<Line<Record>>
    /** False when the file does not exist yet. */
    var present: bool
    /**
      False when the file exists but cannot be opened for reading (its
      permissions allow appending only); an append does not change this.
    */
    var readable: bool

    ghost predicate Valid()
      reads this
    {
      !present ==> lines == []
    }

    constructor (lines: seq<Line<Record>>, present: bool, readable: bool)
      requires present || lines == []
      ensures Valid() && this.lines == lines && this.present == present && this.readable == readable
    {
      this.lines := lines;
      this.present := present;
      this.readable := readable;
    }

    /**
      `add_vacancy`: open for appending (creating the file if needed) and
      write one line; a failed write is caught and reported, and changes
      nothing.
    */
    method AddVacancy(vacancy: Record, writeOk: bool)
      requires Valid()
      modifies this
      ensures Valid()
      ensures readable == old(readable)
      ensures writeOk ==> present && lines == old(lines) + [Encoded(vacancy)]
      ensures !writeOk ==> present == old(present) && lines == old(lines)
      ensures writeOk && Decode(old(lines)).Ok? ==> Decode(lines) == Ok(Decode(old(lines)).value + [vacancy])
    {
      DecodeAppend(lines, vacancy);
      if writeOk {
        lines := lines + [Encoded(vacancy)];
        present := true;
      }
    }

    /**
      `get_vacancies`: one record per line in file order; `[]` when the file
      cannot be opened (missing or unreadable); a bad line raises, as only
      `IOError` is caught.
    */
    method GetVacancies() returns (r: Result<seq<Record>, PyError>)
      requires Valid()
      ensures !present || !readable ==> r == Ok([])
      ensures present && readable ==> r == Decode(lines)
      ensures r.Ok? && present && readable ==> |r.value| == |lines|
      ensures r.Err? <==> present && readable && exists i :: 0 <= i < |lines| && lines[i].Garbled?
    {
      if !present || !readable {
        r := Ok([]);
      } else {
        r := Decode(lines);
      }
    }
  }
}
