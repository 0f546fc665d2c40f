/**
 * The two string-to-list functions of the text module: `parse_config_list`,
 * which reads a comma-separated list of channel ids, and the filter that
 * `load_greetings` applies to the contents of the greetings file.
 */
module Text {
  import opened Opt
  import opened PyStr

  // ---------------------------------------------------------------------
  // Integer literals, as `int()` accepts them
  // ---------------------------------------------------------------------

  predicate IsDigit(c: char) {
    '0' <= c <= '9'
  }

  predicate AllDigits(d: string) {
    forall i :: 0 <= i < |d| ==> IsDigit(d[i])
  }

  /** The value of a string of decimal digits, most significant first. */
  function DigitsValue(d: string): (v: nat)
    requires AllDigits(d)
    decreases |d|
  {
    if d == [] then 0 else DigitsValue(d[..|d| - 1]) * 10 + (d[|d| - 1] as int - '0' as int)
  }

  /** `int(t)` for a string that has already been stripped: an optional sign
      and at least one decimal digit; `None` where `int` raises `ValueError`. */
  function ParseInt(t: string): (r: Option<int>)
    ensures r.Some? <==> IsIntLiteral(t)
  {
    if t != [] && (t[0] == '+' || t[0] == '-') then
      var d := t[1..];
      if d != [] && AllDigits(d) then
        var v: int := DigitsValue(d);
        Some(if t[0] == '-' then -v else v)
      else None
    else if t != [] && AllDigits(t) then Some(DigitsValue(t))
    else None
  }

  /** An integer literal: optional sign, then one or more digits. */
  predicate IsIntLiteral(t: string) {
    var d := if t != [] && (t[0] == '+' || t[0] == '-') then t[1..] else t;
    d != [] && AllDigits(d)
  }

  /** The decimal digits of `n`, most significant first, no leading zero. */
  function ShowNat(n: nat): (d: string)
    ensures d != [] && AllDigits(d)
    decreases n
  {
    if n < 10 then [('0' as int + n) as char]
    else ShowNat(n / 10) + [('0' as int + n % 10) as char]
  }

  /** `str(n)`: the decimal rendering of an integer. */
  function Show(n: int): (s: string)
    ensures s != [] && Stripped(s) && ',' !in s
  {
    if n < 0 then "-" + ShowNat(-n) else ShowNat(n)
  }

  lemma {:induction false} ShowNatValue(n: nat)
    ensures DigitsValue(ShowNat(n)) == n
    decreases n
  {
    if n >= 10 {
      var d := ShowNat(n);
      ShowNatValue(n / 10);
      assert d[..|d| - 1] == ShowNat(n / 10);
    }
  }

  /** Every integer reads back from its decimal rendering. */
  lemma ParseShow(n: int)
    ensures ParseInt(Show(n)) == Some(n)
  {
    var t := Show(n);
    if n < 0 {
      var d := ShowNat(-n);
      ShowNatValue(-n);
      assert t == "-" + d && t[0] == '-' && t[1..] == d;
      var v: int := DigitsValue(d);
      assert ParseInt(t) == Some(-v);
    } else {
      ShowNatValue(n);
      assert t == ShowNat(n) && t[0] != '+' && t[0] != '-';
    }
  }

  // ---------------------------------------------------------------------
  // parse_config_list
  // ---------------------------------------------------------------------

  /** A field `int(x.strip())` accepts, or one the comprehension skips as blank. */
  predicate FieldOk(f: string) {
    Strip(f) == [] || ParseInt(Strip(f)).Some?
  }

  /** The stripped non-blank fields, in order: those the comprehension converts. */
  function NonBlank(fields: seq<string>): (r: seq<string>)
    ensures |r| <= |fields|
    ensures forall k :: 0 <= k < |r| ==> r[k] != []
    decreases |fields|
  {
    if fields == [] then []
    else if Strip(fields[0]) == [] then NonBlank(fields[1..])
    else [Strip(fields[0])] + NonBlank(fields[1..])
  }

  /** The comprehension over the fields; `None` where one of them raises. */
  function ParseFields(fields: seq<string>): (r: Option<seq<int>>)
    ensures r.Some? <==> forall k :: 0 <= k < |fields| ==> FieldOk(fields[k])
    ensures r.Some? ==> |r.value| == |NonBlank(fields)|
    decreases |fields|
  {
    if fields == [] then Some([])
    else
      var t := Strip(fields[0]);
      var rest := ParseFields(fields[1..]);
      FieldsOkCons(fields);
      if t == [] then rest
      else match ParseInt(t)
        case None => None
        case Some(n) => if rest.None? then None else Some([n] + rest.value)
  }

  /** Every field is fine exactly when the first one is and every later one is. */
  lemma FieldsOkCons(fields: seq<string>)
    requires fields != []
    ensures (forall k :: 0 <= k < |fields| ==> FieldOk(fields[k])) <==>
      FieldOk(fields[0]) && forall k :: 0 <= k < |fields[1..]| ==> FieldOk(fields[1..][k])
  {
    assert forall k :: 1 <= k < |fields| ==> fields[k] == fields[1..][k - 1];
  }

  /** When the comprehension succeeds, each value is the integer of the
      non-blank field in the same position. */
  lemma {:induction false} ParseFieldsValues(fields: seq<string>)
    ensures ParseFields(fields).Some? ==> forall k :: 0 <= k < |ParseFields(fields).value| ==>
      ParseInt(NonBlank(fields)[k]) == Some(ParseFields(fields).value[k])
    decreases |fields|
  {
    if fields != [] && ParseFields(fields).Some? {
      var t := Strip(fields[0]);
      var rest := ParseFields(fields[1..]);
      assert rest.Some?;
      ParseFieldsValues(fields[1..]);
      var nb, vs := NonBlank(fields[1..]), rest.value;
      if t == [] {
        assert NonBlank(fields) == nb && ParseFields(fields) == rest;
      } else {
        var n := ParseInt(t).value;
        assert NonBlank(fields) == [t] + nb;
        assert ParseFields(fields).value == [n] + vs;
        forall k | 0 <= k < |vs| + 1
          ensures ParseInt(([t] + nb)[k]) == Some(([n] + vs)[k])
        {
          if k > 0 {
            assert ([t] + nb)[k] == nb[k - 1] && ([n] + vs)[k] == vs[k - 1];
          }
        }
      }
    }
  }

  /** `parse_config_list`: the value of every non-blank comma-separated field,
      in order, or `[]` as soon as one field is not an integer. */
  function ParseConfigList(s: string): (r: seq<int>)
    ensures (forall k :: 0 <= k < |Split(s, ',')| ==> FieldOk(Split(s, ',')[k])) ==>
      |r| == |NonBlank(Split(s, ','))|
      && forall k :: 0 <= k < |r| ==> ParseInt(NonBlank(Split(s, ','))[k]) == Some(r[k])
    ensures (exists k :: 0 <= k < |Split(s, ',')| && !FieldOk(Split(s, ',')[k])) ==> r == []
  {
    match ParseFields(Split(s, ','))
    case Some(values) => ParseFieldsValues(Split(s, ',')); values
    case None => []
  }

  /** `",".join(str(x) for x in xs)` is read back as `xs`. */
  lemma ParseConfigListShow(xs: seq<int>)
    ensures ParseConfigList(Join(ShowAll(xs), ',')) == xs
  {
    if xs == [] {
      assert Split("", ',') == [""];
      StripEmptyIff("");
    } else {
      SplitJoin(ShowAll(xs), ',');
      ParseFieldsShow(xs);
    }
  }

  function ShowAll(xs: seq<int>): (r: seq<string>)
    ensures |r| == |xs|
    ensures forall k :: 0 <= k < |r| ==> r[k] == Show(xs[k])
    decreases |xs|
  {
    if xs == [] then [] else [Show(xs[0])] + ShowAll(xs[1..])
  }

  lemma {:induction false} ParseFieldsShow(xs: seq<int>)
    ensures ParseFields(ShowAll(xs)) == Some(xs)
    decreases |xs|
  {
    if xs != [] {
      var t, tail := Show(xs[0]), xs[1..];
      assert ShowAll(xs) == [t] + ShowAll(tail);
      ParseFieldsShow(tail);
      StripOfStripped(t);
      ParseShow(xs[0]);
      ParseFieldsCons(t, ShowAll(tail), xs[0], tail);
      assert [xs[0]] + tail == xs;
    }
  }

  /** A leading field that is a stripped integer literal puts its value in front. */
  lemma ParseFieldsCons(t: string, fields: seq<string>, n: int, values: seq<int>)
    requires Strip(t) == t && t != [] && ParseInt(t) == Some(n)
    requires ParseFields(fields) == Some(values)
    ensures ParseFields([t] + fields) == Some([n] + values)
  {
    assert ([t] + fields)[0] == t && ([t] + fields)[1..] == fields;
  }

  /** A trailing comma adds a blank field, which is skipped. */
  lemma {:induction false} ParseConfigListTrailingComma(s: string)
    ensures ParseConfigList(s + ",") == ParseConfigList(s)
  {
    SplitAppendSep(s, ',');
    ParseFieldsBlankLast(Split(s, ','));
  }

  lemma {:induction false} SplitAppendSep(s: string, sep: char)
    ensures Split(s + [sep], sep) == Split(s, sep) + [""]
    decreases |s|
  {
    if s == [] {
      assert Split([sep], sep) == [""] + Split([], sep);
    } else {
      assert (s + [sep])[1..] == s[1..] + [sep];
      SplitAppendSep(s[1..], sep);
      var rest := Split(s[1..], sep);
      if s[0] != sep {
        assert (rest + [""])[1..] == rest[1..] + [""];
      }
    }
  }

  lemma {:induction false} ParseFieldsBlankLast(fields: seq<string>)
    ensures ParseFields(fields + [""]) == ParseFields(fields)
    decreases |fields|
  {
    StripEmptyIff("");
    if fields == [] {
      assert ParseFields([""]) == ParseFields([]);
    } else {
      assert (fields + [""])[0] == fields[0];
      assert (fields + [""])[1..] == fields[1..] + [""];
      ParseFieldsBlankLast(fields[1..]);
    }
  }

  /** An empty, blank or comma-only setting means no channels. */
  lemma {:induction false} ParseConfigListBlank(s: string)
    requires forall i :: 0 <= i < |s| ==> s[i] == ',' || IsSpace(s[i])
    ensures ParseConfigList(s) == []
  {
    var fields := Split(s, ',');
    BlankSplit(s);
    NonBlankAllBlank(fields);
  }

  /** Every field of such a string is white space only. */
  lemma {:induction false} BlankSplit(s: string)
    requires forall i :: 0 <= i < |s| ==> s[i] == ',' || IsSpace(s[i])
    ensures forall k :: 0 <= k < |Split(s, ',')| ==> AllSpace(Split(s, ',')[k])
    decreases |s|
  {
    if s != [] {
      BlankSplit(s[1..]);
      var rest := Split(s[1..], ',');
      if s[0] != ',' {
        var f := [s[0]] + rest[0];
        assert forall i :: 0 < i < |f| ==> f[i] == rest[0][i - 1];
      }
    }
  }

  lemma {:induction false} NonBlankAllBlank(fields: seq<string>)
    requires forall k :: 0 <= k < |fields| ==> AllSpace(fields[k])
    ensures NonBlank(fields) == []
    decreases |fields|
  {
    if fields != [] {
      StripEmptyIff(fields[0]);
      NonBlankAllBlank(fields[1..]);
    }
  }

  // ---------------------------------------------------------------------
  // The greeting filter of load_greetings
  // ---------------------------------------------------------------------

  const MinGreetingLength: nat := 25

  /** What the filter keeps: a stripped line of at least 25 characters. */
  predicate IsGreeting(g: string) {
    |g| >= MinGreetingLength && Stripped(g)
  }

  /** `[line.strip() for line in lines if line.strip() and len(line.strip()) >= 25]`. */
  function KeepGreetings(lines: seq<string>): (r: seq<string>)
    ensures |r| <= |lines|
    ensures forall k :: 0 <= k < |r| ==> IsGreeting(r[k])
    decreases |lines|
  {
    if lines == [] then []
    else
      KeepHead(lines[0]) + KeepGreetings(lines[1..])
  }

  /** What the filter makes of one line: its strip, or nothing. */
  function KeepHead(line: string): (r: seq<string>)
    ensures |r| <= 1
    ensures forall k :: 0 <= k < |r| ==> IsGreeting(r[k])
  {
    var t := Strip(line);
    if t != [] && |t| >= MinGreetingLength then [t] else []
  }

  /** The greetings read from the contents of the greetings file. */
  function FilterGreetings(content: string): (r: seq<string>)
    ensures forall k :: 0 <= k < |r| ==> IsGreeting(r[k]) && '\n' !in r[k]
  {
    var lines := Split(content, '\n');
    KeepGreetingsSingleLine(lines);
    KeepGreetings(lines)
  }

  /** Every kept greeting is the strip of one of the lines. */
  lemma {:induction false} KeepGreetingsFrom(lines: seq<string>)
    ensures forall k :: 0 <= k < |KeepGreetings(lines)| ==>
      exists i :: 0 <= i < |lines| && KeepGreetings(lines)[k] == Strip(lines[i])
    decreases |lines|
  {
    if lines != [] {
      KeepGreetingsFrom(lines[1..]);
      var r := KeepGreetings(lines);
      var rest := KeepGreetings(lines[1..]);
      var head := KeepHead(lines[0]);
      assert r == head + rest;
      forall k | 0 <= k < |r|
        ensures exists i :: 0 <= i < |lines| && r[k] == Strip(lines[i])
      {
        if k < |head| {
          assert r[k] == Strip(lines[0]);
        } else {
          assert r[k] == rest[k - |head|];
          var i :| 0 <= i < |lines[1..]| && rest[k - |head|] == Strip(lines[1..][i]);
          assert r[k] == Strip(lines[i + 1]);
        }
      }
    } else {
      assert KeepGreetings(lines) == [];
    }
  }

  /** No kept greeting holds a line break when no line does. */
  lemma {:induction false} KeepGreetingsSingleLine(lines: seq<string>)
    requires forall i :: 0 <= i < |lines| ==> '\n' !in lines[i]
    ensures forall k :: 0 <= k < |KeepGreetings(lines)| ==> '\n' !in KeepGreetings(lines)[k]
    decreases |lines|
  {
    if lines != [] {
      var tail := lines[1..];
      assert forall i :: 0 <= i < |tail| ==> tail[i] == lines[i + 1];
      KeepGreetingsSingleLine(tail);
      StripNoBreak(lines[0]);
      var head, rest := KeepHead(lines[0]), KeepGreetings(tail);
      assert KeepGreetings(lines) == head + rest;
      forall k | 0 <= k < |head| + |rest|
        ensures '\n' !in (head + rest)[k]
      {
        if k < |head| {
          assert (head + rest)[k] == Strip(lines[0]);
        } else {
          assert (head + rest)[k] == rest[k - |head|];
        }
      }
    }
  }

  /** Stripping a line cannot introduce a line break. */
  lemma StripNoBreak(line: string)
    requires '\n' !in line
    ensures '\n' !in Strip(line)
  {
    StripDecomposes(line);
    SubstringFree(line, Lead(line), Strip(line), Trail(line));
  }

  lemma SubstringFree(s: string, a: string, t: string, b: string)
    requires s == a + t + b && '\n' !in s
    ensures '\n' !in t
  {
    assert forall i :: 0 <= i < |t| ==> t[i] == s[|a| + i];
  }

  /** The filter keeps lines independently and in order: filtering two runs of
      lines is filtering each and concatenating. With the single-line case
      below it determines the filter completely. */
  lemma {:induction false} KeepGreetingsAppend(a: seq<string>, b: seq<string>)
    ensures KeepGreetings(a + b) == KeepGreetings(a) + KeepGreetings(b)
    decreases |a|
  {
    if a != [] {
      assert (a + b)[0] == a[0];
      assert (a + b)[1..] == a[1..] + b;
      KeepGreetingsAppend(a[1..], b);
      Assoc(KeepHead(a[0]), KeepGreetings(a[1..]), KeepGreetings(b));
    } else {
      assert a + b == b;
    }
  }

  /** One line is kept, stripped, exactly when its strip has 25 characters or more. */
  lemma KeepGreetingsOne(line: string)
    ensures KeepGreetings([line]) ==
      if |Strip(line)| >= MinGreetingLength then [Strip(line)] else []
  {
    assert [line][1..] == [];
  }

  /** Writing a list of greetings one per line and loading the file again gives
      back the same list. */
  lemma {:induction false} FilterGreetingsJoin(gs: seq<string>)
    requires forall k :: 0 <= k < |gs| ==> IsGreeting(gs[k]) && '\n' !in gs[k]
    ensures FilterGreetings(Join(gs, '\n')) == gs
  {
    if gs == [] {
      assert Split("", '\n') == [""];
      StripEmptyIff("");
    } else {
      SplitJoin(gs, '\n');
      KeepGreetingsOfGreetings(gs);
    }
  }

  lemma {:induction false} KeepGreetingsOfGreetings(gs: seq<string>)
    requires forall k :: 0 <= k < |gs| ==> IsGreeting(gs[k])
    ensures KeepGreetings(gs) == gs
    decreases |gs|
  {
    if gs != [] {
      StripOfStripped(gs[0]);
      assert KeepHead(gs[0]) == [gs[0]];
      KeepGreetingsOfGreetings(gs[1..]);
      assert KeepGreetings(gs) == [gs[0]] + gs[1..];
      assert [gs[0]] + gs[1..] == gs;
    }
  }

  /** The list `load_greetings` falls back to when reading the file fails. */
  function FallbackGreetings(): (r: seq<string>)
    ensures |r| == 1 && IsGreeting(r[0])
  {
    ["Keep grinding, you got this!"]
  }

  /** `load_greetings` on the outcome of reading the file: its contents, or
      `None` when opening or decoding it raised. */
  function LoadGreetings(content: Option<string>): (r: seq<string>)
    ensures content.None? ==> |r| == 1
    ensures forall k :: 0 <= k < |r| ==> IsGreeting(r[k])
  {
    match content
    case None => FallbackGreetings()
    case Some(c) => FilterGreetings(c)
  }
}
