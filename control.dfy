/**
  Interpretation of the relaxation control file (input.dat): lines starting
  with '#' are skipped; a line that mentions "PSTRESS" or "pstress" sets the
  target pressure, a line that mentions "fmax" sets the force threshold, each
  to the number written in the line's second '='-separated field, between
  its first '=' and the next one (or the line's end). Later lines override
  earlier ones. The file's contents arrive as the list of its lines; the
  conversion of a field to a number (Python's `float`) is a parameter.
 */
module Control {

  type Line = string

  datatype Option<T> = None | Some(value: T)

  /** The two ways the source's loop can raise. */
  datatype ControlError =
    | MissingValue             // a key line without '=': `split("=")[1]` is out of range
    | BadNumber(text: string)  // `float` rejects the second '='-separated field

  datatype Result<T> = Ok(value: T) | Err(error: ControlError)

  datatype Settings = Settings(fmax: real, pstress: real)

  datatype Key = Pstress | Fmax

  const DefaultFmax: real := 0.01
  const DefaultPstress: real := 0.0

  function Get(st: Settings, key: Key): real {
    match key
    case Pstress => st.pstress
    case Fmax => st.fmax
  }

  /** Python's `pat in s` on strings: `pat` is found only where it has room. */
  function Contains(s: string, pat: string): (c: bool)
    ensures c ==> |pat| <= |s|
  {
    pat <= s || (s != [] && Contains(s[1..], pat))
  }

  /** `pat` sits in `s` at index `i`. */
  predicate OccursAt(s: string, pat: string, i: int) {
    0 <= i <= |s| - |pat| && s[i..i + |pat|] == pat
  }

  /** A string that contains `pat` holds it, exactly, at some index. */
  lemma {:induction false} ContainsOnlyIf(s: string, pat: string) returns (i: nat)
    requires Contains(s, pat)
    ensures OccursAt(s, pat, i)
  {
    if pat <= s {
      i := 0;
      assert s[..|pat|] == pat;
    } else {
      var j := ContainsOnlyIf(s[1..], pat);
      i := j + 1;
      assert s[i..i + |pat|] == s[1..][j..j + |pat|];
    }
  }

  /** `pat` is found wherever it sits inside `s`. */
  lemma {:induction false} ContainsEmbedded(a: string, pat: string, b: string)
    ensures Contains(a + pat + b, pat)
  {
    if a != [] {
      ContainsEmbedded(a[1..], pat, b);
      assert (a + pat + b)[1..] == a[1..] + pat + b;
    }
  }

  predicate IsComment(line: Line)
    requires line != []
  {
    line[0] == '#'
  }

  /** The key tests of the loop: `'PSTRESS' in line or 'pstress' in line`, and `'fmax' in line`. */
  function Mentions(line: Line, key: Key): (m: bool)
    ensures m ==> |line| >= 4
  {
    match key
    case Pstress => Contains(line, "PSTRESS") || Contains(line, "pstress")
    case Fmax => Contains(line, "fmax")
  }

  /** The key word of `key` sits in `line` at index `i`, in the exact case tested. */
  predicate KeyAt(line: Line, key: Key, i: int) {
    match key
    case Pstress => OccursAt(line, "PSTRESS", i) || OccursAt(line, "pstress", i)
    case Fmax => OccursAt(line, "fmax", i)
  }

  lemma ContainsAt(s: string, pat: string, i: int)
    requires OccursAt(s, pat, i)
    ensures Contains(s, pat)
  {
    ContainsEmbedded(s[..i], pat, s[i + |pat|..]);
    assert s == s[..i] + pat + s[i + |pat|..];
  }

  /** Both directions: a line mentions a key iff the key word sits in it at some index. */
  lemma MentionsIff(line: Line, key: Key)
    ensures Mentions(line, key) <==> exists i :: KeyAt(line, key, i)
  {
    if Mentions(line, key) {
      var i: nat;
      match key {
        case Fmax =>
          i := ContainsOnlyIf(line, "fmax");
        case Pstress =>
          if Contains(line, "PSTRESS") {
            i := ContainsOnlyIf(line, "PSTRESS");
          } else {
            i := ContainsOnlyIf(line, "pstress");
          }
      }
      assert KeyAt(line, key, i);
    } else if i :| KeyAt(line, key, i) {
      match key
      case Fmax => ContainsAt(line, "fmax", i);
      case Pstress =>
        if OccursAt(line, "PSTRESS", i) {
          ContainsAt(line, "PSTRESS", i);
        } else {
          ContainsAt(line, "pstress", i);
        }
    }
  }

  /**
    The key words are found anywhere in a line, with anything around them,
    and only in the exact case the source tests: `FMAX` and `Pstress` are
    not keys.
   */
  lemma KeyMatch(a: string, b: string)
    ensures Mentions(a + "fmax" + b, Fmax)
    ensures Mentions(a + "PSTRESS" + b, Pstress) && Mentions(a + "pstress" + b, Pstress)
    ensures !Mentions("FMAX", Fmax) && !Mentions("Pstress", Pstress)
  {
    ContainsEmbedded(a, "fmax", b);
    ContainsEmbedded(a, "PSTRESS", b);
    ContainsEmbedded(a, "pstress", b);
    assert "FMAX"[0] != "fmax"[0] && "FMAX"[1..] == "MAX";
    assert "Pstress"[1] != "PSTRESS"[1] && "Pstress"[0] != "pstress"[0];
    assert "Pstress"[1..] == "stress";
  }

  /** Python's `str.join` with a one-character separator. */
  function Join(fields: seq<string>, sep: char): string
    requires |fields| >= 1
  {
    if |fields| == 1 then fields[0] else fields[0] + [sep] + Join(fields[1..], sep)
  }

  /** Python's `s.split(sep)` with a one-character separator. */
  function Split(s: string, sep: char): (fields: seq<string>)
    ensures |fields| >= 1
    ensures |fields| == 1 <==> sep !in s
    ensures forall k :: 0 <= k < |fields| ==> sep !in fields[k]
    ensures Join(fields, sep) == s
  {
    if s == [] then [""]
    else
      var rest := Split(s[1..], sep);
      assert s == [s[0]] + s[1..];
      if s[0] == sep then [""] + rest
      else [[s[0]] + rest[0]] + rest[1..]
  }

  /**
    `float(line.split("=")[1])`: the line must hold an '=', and the text
    between its first '=' and the next one (or its end) must convert.
   */
  function Value(line: Line, parse: string -> Option<real>): (r: Result<real>)
    ensures r == Err(MissingValue) <==> '=' !in line
    ensures r.Err? && r.error.BadNumber? ==> '=' !in r.error.text && parse(r.error.text).None?
    ensures r.Ok? ==> '=' in line && parse(Split(line, '=')[1]) == Some(r.value)
  {
    var fields := Split(line, '=');
    if |fields| < 2 then Err(MissingValue)
    else match parse(fields[1])
      case Some(v) => Ok(v)
      case None => Err(BadNumber(fields[1]))
  }

  /**
    The effect of one line on the settings. A line that mentions both keys
    sets both to the same value; a key line whose value cannot be read stops
    the whole interpretation.
   */
  function Step(st: Settings, line: Line, parse: string -> Option<real>): (r: Result<Settings>)
    requires line != []
    ensures IsComment(line) ==> r == Ok(st)
    ensures r.Err? <==> Faulty(line, parse)
    ensures r.Err? ==> r.error == Value(line, parse).error
    ensures r.Ok? ==> forall key :: Get(r.value, key) ==
                        (if !IsComment(line) && Mentions(line, key) then Value(line, parse).value else Get(st, key))
  {
    if IsComment(line) || (!Mentions(line, Pstress) && !Mentions(line, Fmax)) then Ok(st)
    else match Value(line, parse)
      case Err(e) => Err(e)
      case Ok(v) => Ok(Settings(if Mentions(line, Fmax) then v else st.fmax,
                                if Mentions(line, Pstress) then v else st.pstress))
  }

  predicate NonEmptyLines(lines: seq<Line>) {
    forall k :: 0 <= k < |lines| ==> lines[k] != []
  }

  /** The settings after reading `lines` from the defaults, one line after the other. */
  function Interpret(lines: seq<Line>, parse: string -> Option<real>): (r: Result<Settings>)
    requires NonEmptyLines(lines)
    ensures r.Err? ==> exists k :: 0 <= k < |lines| && Faulty(lines[k], parse) && r.error == Value(lines[k], parse).error
  {
    if lines == [] then Ok(Settings(DefaultFmax, DefaultPstress))
    else match Interpret(lines[..|lines| - 1], parse)
      case Err(e) => Err(e)
      case Ok(st) => Step(st, lines[|lines| - 1], parse)
  }

  /** A line that makes the source raise, whatever was read before it. */
  predicate Faulty(line: Line, parse: string -> Option<real>)
    requires line != []
  {
    !IsComment(line) && (Mentions(line, Pstress) || Mentions(line, Fmax)) && Value(line, parse).Err?
  }

  /** Once the interpretation of a prefix fails, so does that of the whole file. */
  lemma {:induction false} ErrorPersists(lines: seq<Line>, i: nat, parse: string -> Option<real>)
    requires NonEmptyLines(lines) && i <= |lines|
    requires Interpret(lines[..i], parse).Err?
    ensures Interpret(lines, parse) == Interpret(lines[..i], parse)
  {
    if i < |lines| {
      var p := lines[..|lines| - 1];
      assert p[..i] == lines[..i];
      ErrorPersists(p, i, parse);
    } else {
      assert lines[..i] == lines;
    }
  }

  /**
    read_stress_fmax, after the file has been read into `lines` (Python's
    `readlines` never yields an empty line, which `line[0]` relies on).
   */
  method ReadStressFmax(lines: seq<Line>, parse: string -> Option<real>) returns (r: Result<Settings>)
    requires NonEmptyLines(lines)
    ensures r == Interpret(lines, parse)
  {
    var pstress := DefaultPstress;
    var fmax := DefaultFmax;
    for i := 0 to |lines|
      invariant Interpret(lines[..i], parse) == Ok(Settings(fmax, pstress))
    {
      var line := lines[i];
      assert lines[..i + 1][..i] == lines[..i];
      if line[0] == '#' {
        continue;
      }
      if Mentions(line, Pstress) {
        var v := Value(line, parse);
        if v.Err? {
          ErrorPersists(lines, i + 1, parse);
          return Err(v.error);
        }
        pstress := v.value;
      }
      if Mentions(line, Fmax) {
        var v := Value(line, parse);
        if v.Err? {
          ErrorPersists(lines, i + 1, parse);
          return Err(v.error);
        }
        fmax := v.value;
      }
    }
    assert lines[..|lines|] == lines;
    return Ok(Settings(fmax, pstress));
  }

  /** Comment lines change nothing, wherever they stand. */
  lemma {:induction false} CommentIgnored(p: seq<Line>, c: Line, q: seq<Line>, parse: string -> Option<real>)
    requires NonEmptyLines(p) && NonEmptyLines(q)
    requires c != [] && IsComment(c)
    ensures NonEmptyLines(p + [c] + q) && NonEmptyLines(p + q)
    ensures Interpret(p + [c] + q, parse) == Interpret(p + q, parse)
  {
    if q == [] {
      assert (p + [c])[..|p|] == p;
      assert p + [c] + q == p + [c];
      assert p + q == p;
    } else {
      var q' := q[..|q| - 1];
      CommentIgnored(p, c, q', parse);
      assert (p + [c] + q)[..|p + [c] + q| - 1] == p + [c] + q';
      assert (p + q)[..|p + q| - 1] == p + q';
    }
  }

  /** A successful interpretation hit no faulty line, and conversely. */
  lemma {:induction false} OkIffNoFaultyLine(lines: seq<Line>, parse: string -> Option<real>)
    requires NonEmptyLines(lines)
    ensures Interpret(lines, parse).Ok? <==> forall k :: 0 <= k < |lines| ==> !Faulty(lines[k], parse)
  {
    if lines != [] {
      var p := lines[..|lines| - 1];
      OkIffNoFaultyLine(p, parse);
      assert forall k :: 0 <= k < |p| ==> p[k] == lines[k];
    }
  }

  /** The error reported is that of the first faulty line. */
  lemma {:induction false} ErrorOfFirstFaultyLine(lines: seq<Line>, k: nat, parse: string -> Option<real>)
    requires NonEmptyLines(lines) && k < |lines|
    requires Faulty(lines[k], parse)
    requires forall j :: 0 <= j < k ==> !Faulty(lines[j], parse)
    ensures Interpret(lines, parse) == Err(Value(lines[k], parse).error)
  {
    var p := lines[..|lines| - 1];
    if k == |lines| - 1 {
      PrefixBeforeFaultyLineOk(lines, k, parse);
      StepOnFaultyLine(Interpret(p, parse).value, lines[k], parse);
    } else {
      ErrorOfFirstFaultyLine(p, k, parse);
    }
  }

  lemma PrefixBeforeFaultyLineOk(lines: seq<Line>, k: nat, parse: string -> Option<real>)
    requires NonEmptyLines(lines) && k <= |lines|
    requires forall j :: 0 <= j < k ==> !Faulty(lines[j], parse)
    ensures NonEmptyLines(lines[..k]) && Interpret(lines[..k], parse).Ok?
  {
    var p := lines[..k];
    forall j | 0 <= j < |p|
      ensures !Faulty(p[j], parse)
    {
      assert p[j] == lines[j];
    }
    OkIffNoFaultyLine(p, parse);
  }

  lemma StepOnFaultyLine(st: Settings, line: Line, parse: string -> Option<real>)
    requires line != [] && Faulty(line, parse)
    ensures Step(st, line, parse) == Err(Value(line, parse).error)
  {
  }

  /**
    A key that no non-comment line mentions keeps its default: 0 for the
    pressure, 0.01 for fmax.
   */
  lemma {:induction false} UnmentionedKeyKeepsDefault(lines: seq<Line>, key: Key, parse: string -> Option<real>)
    requires NonEmptyLines(lines)
    requires forall k :: 0 <= k < |lines| ==> IsComment(lines[k]) || !Mentions(lines[k], key)
    requires Interpret(lines, parse).Ok?
    ensures Get(Interpret(lines, parse).value, key) == (if key == Pstress then DefaultPstress else DefaultFmax)
  {
    if lines != [] {
      UnmentionedKeyKeepsDefault(lines[..|lines| - 1], key, parse);
    }
  }

  /**
    The last non-comment line that mentions a key decides its value: it is
    the number in that line's second '='-separated field.
   */
  lemma {:induction false} LastMentionWins(lines: seq<Line>, k: nat, key: Key, parse: string -> Option<real>)
    requires NonEmptyLines(lines) && k < |lines|
    requires !IsComment(lines[k]) && Mentions(lines[k], key)
    requires forall j :: k < j < |lines| ==> IsComment(lines[j]) || !Mentions(lines[j], key)
    requires Interpret(lines, parse).Ok?
    ensures Value(lines[k], parse) == Ok(Get(Interpret(lines, parse).value, key))
  {
    var p := lines[..|lines| - 1];
    if k < |lines| - 1 {
      LastMentionWins(p, k, key, parse);
    }
  }

  /** Python's `split` undoes `join` when no field holds the separator. */
  lemma {:induction false} SplitJoin(fields: seq<string>, sep: char)
    requires |fields| >= 1
    requires forall k :: 0 <= k < |fields| ==> sep !in fields[k]
    ensures Split(Join(fields, sep), sep) == fields
  {
    if |fields| == 1 {
      SplitNoSeparator(fields[0], sep);
    } else {
      SplitJoin(fields[1..], sep);
      SplitAfterSeparator(fields[0], Join(fields[1..], sep), sep);
      assert fields == [fields[0]] + fields[1..];
    }
  }

  lemma {:induction false} SplitNoSeparator(s: string, sep: char)
    requires sep !in s
    ensures Split(s, sep) == [s]
  {
    if s != [] {
      SplitNoSeparator(s[1..], sep);
      assert s == [s[0]] + s[1..];
    }
  }

  lemma {:induction false} SplitAfterSeparator(a: string, b: string, sep: char)
    requires sep !in a
    ensures Split(a + [sep] + b, sep) == [a] + Split(b, sep)
  {
    var s := a + [sep] + b;
    if a == [] {
      assert s[0] == sep && s[1..] == b;
    } else {
      assert s[0] == a[0] && s[0] != sep;
      assert s[1..] == a[1..] + [sep] + b;
      SplitAfterSeparator(a[1..], b, sep);
      var rest := Split(s[1..], sep);
      assert rest[0] == a[1..] && rest[1..] == Split(b, sep);
      assert Split(s, sep) == [[a[0]] + rest[0]] + rest[1..];
      assert [a[0]] + a[1..] == a;
    }
  }

  /** The value of `KEY = text` is `float(text)` when neither side holds a further '='. */
  lemma ValueOfAssignment(key: string, text: string, parse: string -> Option<real>)
    requires '=' !in key && '=' !in text
    ensures Value(key + "=" + text, parse) ==
              match parse(text) case Some(v) => Ok(v) case None => Err(BadNumber(text))
  {
    SplitAfterSeparator(key, text, '=');
    SplitNoSeparator(text, '=');
  }

  /**
    Only the second '='-separated field is read: whatever follows a second
    '=' is dropped, so `fmax = 0.1 = 2` reads `float(" 0.1 ")`.
   */
  lemma ValueIgnoresLaterFields(key: string, text: string, rest: string, parse: string -> Option<real>)
    requires '=' !in key && '=' !in text
    ensures Value(key + "=" + text + "=" + rest, parse) == Value(key + "=" + text, parse)
  {
    assert key + "=" + text + "=" + rest == key + ['='] + (text + ['='] + rest);
    assert key + "=" + text == key + ['='] + text;
    SplitAfterSeparator(key, text + ['='] + rest, '=');
    SplitAfterSeparator(text, rest, '=');
    SplitAfterSeparator(key, text, '=');
    SplitNoSeparator(text, '=');
  }
}
