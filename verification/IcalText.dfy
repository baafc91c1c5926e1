/** The iCalendar scanners: line unfolding, TEXT unescaping and property lines. */
module IcalText {

  /** `find`: the first `c` at or after `from`, or the length. */
  function Find(s: string, c: char, from: nat): (i: nat)
    requires from <= |s|
    ensures from <= i <= |s| && (i < |s| ==> s[i] == c)
    ensures forall k :: from <= k < i ==> s[k] != c
    decreases |s| - from
  {
    if from == |s| || s[from] == c then from else Find(s, c, from + 1)
  }

  // ----- unfolding -----

  predicate IsBlank(c: char) { c == ' ' || c == '\t' }

  function StripCr(raw: string): string {
    if raw != [] && raw[|raw| - 1] == '\r' then raw[..|raw| - 1] else raw
  }

  function Flush(lines: seq<string>, current: string): seq<string> {
    if current == [] then lines else lines + [current]
  }

  /** Finished logical lines and the one under construction. */
  datatype Lines = Lines(finished: seq<string>, current: string) {
    /** One physical line more. */
    function Absorb(raw0: string): Lines {
      var raw := StripCr(raw0);
      if raw != [] && IsBlank(raw[0]) then Lines(finished, current + raw[1..])
      else Lines(Flush(finished, current), raw)
    }
  }

  /** The physical lines from `i` on, absorbed one by one. */
  function Scan<S>(absorb: (S, string) -> S, ics: string, i: nat, state: S): S
    requires i <= |ics|
    decreases |ics| - i
  {
    if i == |ics| then state
    else
      var eol := Find(ics, '\n', i);
      Scan(absorb, ics, if eol == |ics| then eol else eol + 1, absorb(state, ics[i..eol]))
  }

  function AbsorbInto(): (Lines, string) -> Lines {
    (lines: Lines, raw: string) => lines.Absorb(raw)
  }

  function Unfolded(ics: string): seq<string> {
    var lines := Scan(AbsorbInto(), ics, 0, Lines([], []));
    Flush(lines.finished, lines.current)
  }

  /** One iteration of the unfolding loop. */
  method AbsorbLine(raw0: string, finished: seq<string>, current: string) returns (lines: seq<string>, next: string)
    ensures Lines(lines, next) == Lines(finished, current).Absorb(raw0)
  {
    var raw := raw0;
    lines, next := finished, current;
    if raw != [] && raw[|raw| - 1] == '\r' {
      raw := raw[..|raw| - 1];
    }
    if raw != [] && IsBlank(raw[0]) {
      next := next + raw[1..];
    } else {
      if next != [] {
        lines := lines + [next];
      }
      next := raw;
    }
  }

  method Unfold(ics: string) returns (lines: seq<string>)
    ensures lines == Unfolded(ics)
  {
    lines := [];
    var current := [];
    var i := 0;
    while i < |ics|
      invariant 0 <= i <= |ics|
      invariant Scan(AbsorbInto(), ics, i, Lines(lines, current)) == Scan(AbsorbInto(), ics, 0, Lines([], []))
    {
      var eol := Find(ics, '\n', i);
      lines, current := AbsorbLine(ics[i..eol], lines, current);
      i := if eol == |ics| then eol else eol + 1;
    }
    if current != [] {
      lines := lines + [current];
    }
  }

  // ----- TEXT values -----

  /** The characters a backslash and `next` stand for. */
  function Unescaped(next: char): char {
    if next == 'n' || next == 'N' then '\n' else next
  }

  function UnescapeFrom(value: string, i: nat, out: string): string
    requires i <= |value|
    decreases |value| - i
  {
    if i == |value| then out
    else if value[i] == '\\' && i + 1 < |value| then UnescapeFrom(value, i + 2, out + [Unescaped(value[i + 1])])
    else UnescapeFrom(value, i + 1, out + [value[i]])
  }

  function Unescape(value: string): string {
    UnescapeFrom(value, 0, [])
  }

  method UnescapeText(value: string) returns (out: string)
    ensures out == Unescape(value)
  {
    out := [];
    var i := 0;
    while i < |value|
      invariant 0 <= i <= |value|
      invariant UnescapeFrom(value, i, out) == Unescape(value)
    {
      if value[i] == '\\' && i + 1 < |value| {
        i := i + 1;
        match value[i] {
          case 'n' => out := out + ['\n'];
          case 'N' => out := out + ['\n'];
          case _ => out := out + [value[i]];
        }
      } else {
        out := out + [value[i]];
      }
      i := i + 1;
    }
  }

  // ----- property lines -----

  datatype PropertyLine = PropertyLine(name: string, tzid: string, valueIsDate: bool, value: string)

  const NO_PROPERTY := PropertyLine([], [], false, [])

  function ReadParam(prop: PropertyLine, param: string): PropertyLine {
    var eq := Find(param, '=', 0);
    if eq == |param| then prop
    else if param[..eq] == "TZID" then prop.(tzid := param[eq + 1..])
    else if param[..eq] == "VALUE" && param[eq + 1..] == "DATE" then prop.(valueIsDate := true)
    else prop
  }

  /** The parameters behind the semicolon at `pos`, if there is one. */
  function ReadParams(head: string, pos: nat, prop: PropertyLine): PropertyLine
    requires pos <= |head|
    decreases |head| - pos
  {
    if pos == |head| then prop
    else
      var next := Find(head, ';', pos + 1);
      ReadParams(head, next, ReadParam(prop, head[pos + 1..next]))
  }

  function Property(line: string): PropertyLine {
    var colon := Find(line, ':', 0);
    if colon == |line| then NO_PROPERTY
    else
      var head := line[..colon];
      var semi := Find(head, ';', 0);
      ReadParams(head, semi, PropertyLine(head[..semi], [], false, line[colon + 1..]))
  }

  method ParseProperty(line: string) returns (prop: PropertyLine)
    ensures prop == Property(line)
  {
    prop := NO_PROPERTY;
    var colon := Find(line, ':', 0);
    if colon == |line| {
      return;
    }
    var head := line[..colon];
    var pos := Find(head, ';', 0);
    prop := prop.(name := head[..pos], value := line[colon + 1..]);
    while pos != |head|
      invariant 0 <= pos <= |head|
      invariant ReadParams(head, pos, prop) == Property(line)
      decreases |head| - pos
    {
      var start := pos + 1;
      var next := Find(head, ';', start);
      var param := head[start..next];
      var eq := Find(param, '=', 0);
      if eq != |param| {
        var key, val := param[..eq], param[eq + 1..];
        if key == "TZID" {
          prop := prop.(tzid := val);
        } else if key == "VALUE" && val == "DATE" {
          prop := prop.(valueIsDate := true);
        }
      }
      pos := next;
    }
  }

  // ----- numbers and recurrence rules -----

  predicate IsDigit(c: char) { '0' <= c <= '9' }

  function DigitsEnd(s: string, from: nat): (i: nat)
    requires from <= |s|
    ensures from <= i <= |s|
    decreases |s| - from
  {
    if from < |s| && IsDigit(s[from]) then DigitsEnd(s, from + 1) else from
  }

  function DigitValue(c: char): int {
    if IsDigit(c) then c as int - '0' as int else 0
  }

  function Decimal(digits: string): nat {
    if digits == [] then 0
    else 10 * Decimal(digits[..|digits| - 1]) + DigitValue(digits[|digits| - 1])
  }

  const INT_MAX: int := 0x7FFF_FFFF

  /** `toInt`: an optional minus and the digits after it; 0 without digits or out of the range of `int`. */
  function ToInt(s: string): int {
    var start := if s != [] && s[0] == '-' then 1 else 0;
    var end := DigitsEnd(s, start);
    var magnitude: int := Decimal(s[start..end]);
    var value := if start == 1 then -magnitude else magnitude;
    if end == start || !(-INT_MAX - 1 <= value <= INT_MAX) then 0 else value
  }
}
