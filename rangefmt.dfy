/**
 * `_represent_range_object`: the display string of a `range`, which leaves
 * out a default start (0) and a default step (1). `ParseRange` reads such a
 * string back; the round trip shows the display loses nothing.
 */
module RangeFormat {
  import opened Wrappers
  import opened PyStr

  /** `_represent_range_object` for a range with the given attributes. */
  function RepresentRange(start: int, stop: int, step: int): string {
    if step == 1 then
      if start == 0 then "range(" + IntToString(stop) + ")"
      else "range(" + IntToString(start) + ", " + IntToString(stop) + ")"
    else "range(" + IntToString(start) + ", " + IntToString(stop) + ", " + IntToString(step) + ")"
  }

  /** `int(s)` for an optional minus sign followed by decimal digits. */
  function ParseInt(s: string): Option<int> {
    if |s| > 1 && s[0] == '-' && AllDigits(s[1..]) then Some(-(DigitsValue(s[1..]) as int))
    else if s != [] && AllDigits(s) then Some(DigitsValue(s) as int)
    else None
  }

  /** An argument after the first one, which the display precedes by a space. */
  function ParseArg(s: string): Option<int> {
    if s != [] && s[0] == ' ' then ParseInt(s[1..]) else None
  }

  /** The `(start, stop, step)` a range display stands for, with the defaults
      Python's `range` fills in. */
  function ParseRange(text: string): Option<(int, int, int)> {
    if |text| < 7 || text[..6] != "range(" || text[|text| - 1] != ')' then None
    else ParseRangeArgs(Split(text[6..|text| - 1], ','))
  }

  /** The comma-separated arguments between the parentheses. */
  function ParseRangeArgs(parts: seq<string>): Option<(int, int, int)> {
    if |parts| == 1 then
      match ParseInt(parts[0])
      case Some(stop) => Some((0, stop, 1))
      case None => None
    else if |parts| == 2 then
      match (ParseInt(parts[0]), ParseArg(parts[1]))
      case (Some(start), Some(stop)) => Some((start, stop, 1))
      case _ => None
    else if |parts| == 3 then
      match (ParseInt(parts[0]), ParseArg(parts[1]), ParseArg(parts[2]))
      case (Some(start), Some(stop), Some(step)) => Some((start, stop, step))
      case _ => None
    else None
  }

  /** `str(n)` reads back as `n`. */
  lemma IntToStringParses(n: int)
    ensures ParseInt(IntToString(n)) == Some(n)
    ensures ParseArg(" " + IntToString(n)) == Some(n)
  {
    var s := IntToString(n);
    var d := NatToString(if n < 0 then -n else n);
    NatToStringValue(if n < 0 then -n else n);
    if n < 0 {
      assert s == "-" + d && s[0] == '-' && s[1..] == d;
    } else {
      assert s == d && IsDigit(s[0]);
    }
    ParseArgOfSpace(s);
  }

  lemma ParseArgOfSpace(s: string)
    ensures ParseArg(" " + s) == ParseInt(s)
  {
    assert (" " + s)[0] == ' ' && (" " + s)[1..] == s;
  }

  /** `str(n)` holds no comma. */
  lemma IntToStringCommaFree(n: int)
    ensures forall j :: 0 <= j < |IntToString(n)| ==> IntToString(n)[j] != ','
    ensures forall j :: 0 <= j < |" " + IntToString(n)| ==> (" " + IntToString(n))[j] != ','
  {
    var d := NatToString(if n < 0 then -n else n);
    assert forall j :: 0 <= j < |d| ==> d[j] != ',';
  }

  /** A text without the separator splits into itself. */
  lemma SplitFree(s: string, sep: char)
    requires forall j :: 0 <= j < |s| ==> s[j] != sep
    ensures Split(s, sep) == [s]
  {
  }

  /** A separator-free piece, the separator, then the rest: the piece comes first. */
  lemma SplitFront(x: string, sep: char, y: string)
    requires forall j :: 0 <= j < |x| ==> x[j] != sep
    ensures Split(x + [sep] + y, sep) == [x] + Split(y, sep)
  {
    var s := x + [sep] + y;
    var k := IndexOf(s, sep, 0);
    assert forall j :: 0 <= j < |x| ==> s[j] == x[j];
    assert s[|x|] == sep;
    assert k == |x|;
    assert s[..k] == x;
    assert s[k + 1..] == y;
  }

  /** A display is `range(` and its arguments in parentheses. */
  lemma ParseRangeOf(inner: string)
    ensures ParseRange("range(" + inner + ")") == ParseRangeArgs(Split(inner, ','))
  {
    var text := "range(" + inner + ")";
    assert text[..6] == "range(";
    assert text[6..|text| - 1] == inner;
  }

  lemma ParsesOneArg(stop: int)
    ensures ParseRange("range(" + IntToString(stop) + ")") == Some((0, stop, 1))
  {
    IntToStringParses(stop);
    IntToStringCommaFree(stop);
    ParseRangeOf(IntToString(stop));
    SplitFree(IntToString(stop), ',');
  }

  lemma ParsesTwoArgs(start: int, stop: int)
    ensures ParseRange("range(" + IntToString(start) + ", " + IntToString(stop) + ")") == Some((start, stop, 1))
  {
    var a, b := IntToString(start), IntToString(stop);
    var inner := a + [','] + (" " + b);
    assert "range(" + a + ", " + b + ")" == "range(" + inner + ")";
    ParseRangeOf(inner);
    SplitTwo(start, stop);
    IntToStringParses(start);
    IntToStringParses(stop);
  }

  lemma SplitTwo(start: int, stop: int)
    ensures var a, b := IntToString(start), IntToString(stop);
            Split(a + [','] + (" " + b), ',') == [a, " " + b]
  {
    var a, b := IntToString(start), IntToString(stop);
    IntToStringCommaFree(start);
    IntToStringCommaFree(stop);
    SplitFront(a, ',', " " + b);
    SplitFree(" " + b, ',');
  }

  lemma ParsesThreeArgs(start: int, stop: int, step: int)
    ensures ParseRange("range(" + IntToString(start) + ", " + IntToString(stop) + ", " + IntToString(step) + ")")
         == Some((start, stop, step))
  {
    var a, b, c := IntToString(start), IntToString(stop), IntToString(step);
    var inner := a + [','] + (" " + b + [','] + (" " + c));
    assert "range(" + a + ", " + b + ", " + c + ")" == "range(" + inner + ")";
    ParseRangeOf(inner);
    SplitThree(start, stop, step);
    IntToStringParses(start);
    IntToStringParses(stop);
    IntToStringParses(step);
    var parts := [a, " " + b, " " + c];
    assert |parts| == 3 && parts[0] == a && parts[1] == " " + b && parts[2] == " " + c;
  }

  lemma SplitThree(start: int, stop: int, step: int)
    ensures var a, b, c := IntToString(start), IntToString(stop), IntToString(step);
            Split(a + [','] + (" " + b + [','] + (" " + c)), ',') == [a, " " + b, " " + c]
  {
    var a, b, c := IntToString(start), IntToString(stop), IntToString(step);
    IntToStringCommaFree(start);
    IntToStringCommaFree(stop);
    IntToStringCommaFree(step);
    SplitFront(a, ',', " " + b + [','] + (" " + c));
    SplitFront(" " + b, ',', " " + c);
    SplitFree(" " + c, ',');
  }

  /** The display of a range reads back as that range: two ranges with
      different attributes are never displayed alike, and the omitted start
      and step are exactly Python's defaults. */
  lemma RepresentRangeRoundTrip(start: int, stop: int, step: int)
    ensures ParseRange(RepresentRange(start, stop, step)) == Some((start, stop, step))
  {
    if step == 1 && start == 0 {
      ParsesOneArg(stop);
    } else if step == 1 {
      ParsesTwoArgs(start, stop);
    } else {
      ParsesThreeArgs(start, stop, step);
    }
  }
}
