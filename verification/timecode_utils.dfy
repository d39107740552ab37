/** `format_timecode` from src/utils/timecode_utils.py: normalise a chapter start
    such as "1:20.12" or "00:01:20;12" to four colon-separated fields
    "HH:MM:SS:FF". A ';' separates the frames field; failing that a '.'; with
    neither the frames field is "00". */
module TimecodeUtils {
  import opened Wrappers
  import opened Strings

  datatype TimecodeError = IllegalTimecode

  /** The time part and the frames part, as the loop over the delimiters
      ";" then "." finds them. */
  function Delimit(s: string): Result<(string, string), TimecodeError>
  {
    var bySemicolon := Split(s, ';');
    if |bySemicolon| > 2 then Failure(IllegalTimecode)
    else if |bySemicolon| == 2 then Success((bySemicolon[0], bySemicolon[1]))
    else
      var byDot := Split(s, '.');
      if |byDot| > 2 then Failure(IllegalTimecode)
      else if |byDot| == 2 then Success((byDot[0], byDot[1]))
      else Success((s, "00"))
  }

  /** The fields before padding: the time part split on ':', then the frames part. */
  function RawFields(s: string): Result<seq<string>, TimecodeError>
  {
    match Delimit(s)
    case Failure(e) => Failure(e)
    case Success(parts) => Success(Split(parts.0, ':') + [parts.1])
  }

  function Zeros(k: nat): (z: seq<string>)
    ensures |z| == k && forall i :: 0 <= i < k ==> z[i] == "00"
  {
    if k == 0 then [] else ["00"] + Zeros(k - 1)
  }

  /** Left-pad with "00" fields up to four fields; longer lists are kept whole. */
  function Pad(parts: seq<string>): seq<string>
  {
    if |parts| >= 4 then parts else Zeros(4 - |parts|) + parts
  }

  function Fields(s: string): Result<seq<string>, TimecodeError>
  {
    match RawFields(s)
    case Failure(e) => Failure(e)
    case Success(parts) => Success(Pad(parts))
  }

  /** What `format_timecode(s)` returns, or the error it raises. */
  function Normalized(s: string): Result<string, TimecodeError>
  {
    match Fields(s)
    case Failure(e) => Failure(e)
    case Success(fields) => Success(Join(fields, ':'))
  }

  /** The for/else over the delimiters ";" then ".": the first that splits the
      string in two gives the time and frames parts, a split in more than two
      is illegal, and with neither the frames part is "00". */
  method SplitDelimited(timecode: string) returns (r: Result<(string, string), TimecodeError>)
    ensures r == Delimit(timecode)
  {
    var delimiters := [';', '.'];
    var k := 0;
    while k < |delimiters|
      invariant 0 <= k <= |delimiters|
      invariant forall j :: 0 <= j < k ==> |Split(timecode, delimiters[j])| == 1
    {
      var parts := Split(timecode, delimiters[k]);
      if |parts| > 2 {
        assert k == 1 ==> |Split(timecode, delimiters[0])| == 1;
        return Failure(IllegalTimecode);
      }
      if |parts| == 2 {
        assert k == 1 ==> |Split(timecode, delimiters[0])| == 1;
        return Success((parts[0], parts[1]));
      }
      k := k + 1;
    }
    // the `else` of the for loop: no delimiter split the string in two
    assert |Split(timecode, delimiters[0])| == 1 && |Split(timecode, delimiters[1])| == 1;
    return Success((timecode, "00"));
  }

  /** `parts.insert(0, '00')` until there are four fields. */
  method PadFields(raw: seq<string>) returns (parts: seq<string>)
    ensures parts == Pad(raw)
  {
    parts := raw;
    ghost var added := 0;
    while |parts| < 4
      invariant parts == Zeros(added) + raw
      invariant added > 0 ==> |parts| <= 4
      decreases 4 - |parts|
    {
      parts := ["00"] + parts;
      added := added + 1;
    }
    assert added == (if |raw| >= 4 then 0 else 4 - |raw|);
  }

  /** `format_timecode`. */
  method FormatTimecode(timecode: string) returns (r: Result<string, TimecodeError>)
    ensures r == Normalized(timecode)
  {
    var delimited := SplitDelimited(timecode);
    if delimited.Failure? {
      return Failure(delimited.error);
    }
    var time, frames := delimited.value.0, delimited.value.1;
    var parts := PadFields(Split(time, ':') + [frames]);
    r := Success(Join(parts, ':'));
  }

  /** More than one ';' is illegal; with no ';', more than one '.' is illegal;
      nothing else is. */
  lemma IllegalExactly(s: string)
    ensures Normalized(s).Failure? <==> Count(s, ';') > 1 || (Count(s, ';') == 0 && Count(s, '.') > 1)
  {
  }

  /** With exactly one ';' the dots are never looked at: the split on ';' gives
      the time and frames parts, whatever dots the string holds. */
  lemma SemicolonFirst(s: string)
    requires Count(s, ';') == 1
    ensures RawFields(s) == Success(Split(Split(s, ';')[0], ':') + [Split(s, ';')[1]])
  {
  }

  /** With neither delimiter the frames field is "00" and the time part is the
      whole string. */
  lemma NoDelimiterMeansZeroFrames(s: string)
    requires ';' !in s && '.' !in s
    ensures Fields(s).Success?
    ensures Fields(s).value[|Fields(s).value| - 1] == "00"
    ensures RawFields(s) == Success(Split(s, ':') + ["00"])
  {
  }

  /** The result has at least four fields, never fewer than the input had, the
      input fields in order at its end and only "00" before them. */
  lemma {:induction false} PaddedShape(s: string)
    requires RawFields(s).Success?
    ensures var raw := RawFields(s).value; var fields := Fields(s).value;
      |fields| == (if |raw| >= 4 then |raw| else 4)
      && fields[|fields| - |raw|..] == raw
      && forall i :: 0 <= i < |fields| - |raw| ==> fields[i] == "00"
  {
  }

  lemma JoinFour(a: string, b: string, c: string, d: string)
    ensures Join([a, b, c, d], ':') == a + ":" + b + ":" + c + ":" + d
  {
    assert [c, d][1..] == [d];
    assert Join([c, d], ':') == c + ":" + d;
    assert [b, c, d][1..] == [c, d];
    assert Join([b, c, d], ':') == b + ":" + (c + ":" + d);
    assert [a, b, c, d][1..] == [b, c, d];
    assert Join([a, b, c, d], ':') == a + ":" + (b + ":" + (c + ":" + d));
  }

  /** "SS": seconds only, as in "12" -> "00:00:12:00". */
  lemma SecondsOnly(t: string)
    requires ';' !in t && '.' !in t && ':' !in t
    ensures Normalized(t) == Success("00:00:" + t + ":00")
  {
    SplitNone(t, ';');
    SplitNone(t, '.');
    assert Delimit(t) == Success((t, "00"));
    SplitNone(t, ':');
    assert Split(t, ':') + ["00"] == [t, "00"];
    assert RawFields(t) == Success([t, "00"]);
    assert Zeros(2) == ["00", "00"];
    assert Pad([t, "00"]) == ["00", "00"] + [t, "00"] == ["00", "00", t, "00"];
    assert Fields(t) == Success(["00", "00", t, "00"]);
    JoinFour("00", "00", t, "00");
    assert "00" + ":" + "00" + ":" == "00:00:";
    assert "00:00:" + t + ":" + "00" == "00:00:" + t + ":00";
  }

  /** With no ';', the time part before a single '.' and the frames part after it. */
  lemma DelimitDot(t: string, f: string)
    requires ';' !in t && ';' !in f && '.' !in t && '.' !in f
    ensures Delimit(t + "." + f) == Success((t, f))
  {
    var s := t + "." + f;
    assert ';' !in s;
    SplitNone(s, ';');
    SplitAtJoint(t, f, '.');
    SplitNone(f, '.');
    assert Split(s, '.') == [t, f];
  }

  /** "SS.FF": seconds and frames after a dot, as in "00.12" -> "00:00:00:12". */
  lemma DotFrames(t: string, f: string)
    requires ';' !in t && ';' !in f && '.' !in t && '.' !in f && ':' !in t
    ensures Normalized(t + "." + f) == Success("00:00:" + t + ":" + f)
  {
    var s := t + "." + f;
    DelimitDot(t, f);
    SplitNone(t, ':');
    assert RawFields(s) == Success([t] + [f]);
    assert [t] + [f] == [t, f];
    assert Zeros(2) == ["00", "00"];
    assert Pad([t, f]) == ["00", "00", t, f];
    assert Fields(s) == Success(["00", "00", t, f]);
    JoinFour("00", "00", t, f);
    assert "00" + ":" + "00" + ":" == "00:00:";
  }

  /** "MM:SS.FF": minutes, seconds and frames after a dot, as in
      "00:00.12" -> "00:00:00:12". */
  lemma MinutesDotFrames(m: string, t: string, f: string)
    requires ';' !in m && ';' !in t && ';' !in f && '.' !in m && '.' !in t && '.' !in f
    requires ':' !in m && ':' !in t
    ensures Normalized(m + ":" + t + "." + f) == Success("00" + ":" + m + ":" + t + ":" + f)
  {
    var time := m + ":" + t;
    var s := time + "." + f;
    assert Delimit(s) == Success((time, f)) by {
      assert ';' !in time && '.' !in time;
      DelimitDot(time, f);
    }
    assert Split(time, ':') == [m, t] by {
      SplitAtJoint(m, t, ':');
      SplitNone(t, ':');
    }
    assert RawFields(s) == Success([m, t, f]) by {
      assert [m, t] + [f] == [m, t, f];
    }
    assert Fields(s) == Success(["00", m, t, f]) by {
      assert Zeros(1) == ["00"];
      assert ["00"] + [m, t, f] == ["00", m, t, f];
    }
    JoinFour("00", m, t, f);
    assert s == m + ":" + t + "." + f;
  }

  /** The first example the module prints when run as a script, "00.12". */
  lemma ExampleDot()
    ensures Normalized("00.12") == Success("00:00:00:12")
  {
    DotFrames("00", "12");
    assert "00" + "." + "12" == "00.12";
    assert "00:00:" + "00" + ":" + "12" == "00:00:00:12";
  }

  /** The second example, "12". */
  lemma ExampleSeconds()
    ensures Normalized("12") == Success("00:00:12:00")
  {
    SecondsOnly("12");
    assert "00:00:" + "12" + ":00" == "00:00:12:00";
  }

  lemma SplitAtJoint(a: string, b: string, d: char)
    requires d !in a
    ensures Split(a + [d] + b, d) == [a] + Split(b, d)
  {
    var s := a + [d] + b;
    assert s[..|a|] == a && s[|a| + 1..] == b;
    SplitFirst(s, d, |a|);
  }

  lemma SplitThree(h: string, m: string, sec: string)
    requires ':' !in h && ':' !in m && ':' !in sec
    ensures Split(h + ":" + m + ":" + sec, ':') == [h, m, sec]
  {
    SplitAtJoint(m, sec, ':');
    SplitNone(sec, ':');
    assert Split(m + ":" + sec, ':') == [m, sec];
    assert h + ":" + m + ":" + sec == h + [':'] + (m + ":" + sec);
    SplitAtJoint(h, m + ":" + sec, ':');
  }

  /** The time part before a single ';' and the frames part after it. */
  lemma DelimitSemicolon(time: string, f: string)
    requires ';' !in time && ';' !in f
    ensures Delimit(time + ";" + f) == Success((time, f))
  {
    SplitAtJoint(time, f, ';');
    SplitNone(f, ';');
    assert Split(time + ";" + f, ';') == [time, f];
  }

  /** "HH:MM:SS;FF": a full timecode with frames after a ';' is kept as it is,
      the ';' becoming a ':', as in "00:01:20;12" -> "00:01:20:12". */
  lemma SemicolonFrames(h: string, m: string, sec: string, f: string)
    requires ':' !in h && ':' !in m && ':' !in sec
    requires ';' !in h && ';' !in m && ';' !in sec && ';' !in f
    ensures Normalized(h + ":" + m + ":" + sec + ";" + f) == Success(h + ":" + m + ":" + sec + ":" + f)
  {
    var time := h + ":" + m + ":" + sec;
    assert ';' !in time;
    DelimitSemicolon(time, f);
    SplitThree(h, m, sec);
    var s := time + ";" + f;
    assert RawFields(s) == Success([h, m, sec] + [f]);
    assert [h, m, sec] + [f] == [h, m, sec, f];
    assert Fields(s) == Success([h, m, sec, f]);
    JoinFour(h, m, sec, f);
  }
}
