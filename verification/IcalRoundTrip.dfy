/** Folding and escaping as sections 3.1 and 3.3.11 of RFC 5545 describe them, undone by the parser. */
module IcalRoundTrip {
  import opened Wrappers
  import opened IcalText
  import opened IcalEvents
  import opened IcalRules
  import opened Recurrence

  // ----- folded lines -----

  /** A continuation: a line break, a space or tab, and more of the line. */
  datatype Fold = Fold(blank: char, text: string, crlf: bool)

  /** A line in pieces; `crlf` says how each piece ends. */
  datatype FoldedLine = FoldedLine(first: string, crlf: bool, folds: seq<Fold>)

  function Eol(crlf: bool): string {
    if crlf then "\r\n" else "\n"
  }

  function RenderFold(f: Fold): string {
    [f.blank] + f.text + Eol(f.crlf)
  }

  function RenderFolds(folds: seq<Fold>): string {
    if folds == [] then [] else RenderFold(folds[0]) + RenderFolds(folds[1..])
  }

  function Render(l: FoldedLine): string {
    l.first + Eol(l.crlf) + RenderFolds(l.folds)
  }

  function RenderAll(ls: seq<FoldedLine>): string {
    if ls == [] then [] else Render(ls[0]) + RenderAll(ls[1..])
  }

  function JoinFolds(folds: seq<Fold>): string {
    if folds == [] then [] else folds[0].text + JoinFolds(folds[1..])
  }

  /** The line the pieces were cut from. */
  function Logical(l: FoldedLine): string {
    l.first + JoinFolds(l.folds)
  }

  function LogicalLines(ls: seq<FoldedLine>): seq<string> {
    if ls == [] then [] else [Logical(ls[0])] + LogicalLines(ls[1..])
  }

  predicate WellFolds(folds: seq<Fold>) {
    folds == [] || ((folds[0].blank == ' ' || folds[0].blank == '\t') && '\n' !in folds[0].text && WellFolds(folds[1..]))
  }

  predicate WellFolded(l: FoldedLine) {
    '\n' !in l.first && (l.first == [] || (l.first[0] != ' ' && l.first[0] != '\t')) && WellFolds(l.folds)
  }

  // ----- what unfolding reads -----

  /** A bare line feed takes a carriage return before it along. */
  function Kept(text: string, crlf: bool): string {
    if crlf then text else StripCr(text)
  }

  function KeptFolds(folds: seq<Fold>): string {
    if folds == [] then [] else Kept(folds[0].text, folds[0].crlf) + KeptFolds(folds[1..])
  }

  function KeptLine(l: FoldedLine): string {
    Kept(l.first, l.crlf) + KeptFolds(l.folds)
  }

  function KeptLines(ls: seq<FoldedLine>): seq<string> {
    if ls == [] then []
    else (if KeptLine(ls[0]) == [] then [] else [KeptLine(ls[0])]) + KeptLines(ls[1..])
  }

  /** The end of the physical line at `from`, and the start of the next. */
  function NextLine(s: string, from: nat): (next: nat)
    requires from < |s|
    ensures from < next <= |s|
  {
    var eol := Find(s, '\n', from);
    if eol == |s| then eol else eol + 1
  }

  lemma ScanOne<S>(absorb: (S, string) -> S, s: string, from: nat, state: S)
    requires from < |s|
    ensures Scan(absorb, s, from, state)
         == Scan(absorb, s, NextLine(s, from), absorb(state, s[from..Find(s, '\n', from)]))
  {
  }

  lemma LineShifts(s: string, i: nat, from: nat)
    requires i <= from < |s|
    ensures NextLine(s[i..], from - i) == NextLine(s, from) - i
    ensures s[i..][from - i..Find(s[i..], '\n', from - i)] == s[from..Find(s, '\n', from)]
  {
    FindShifts(s, i, from);
  }

  lemma {:induction false} ScanShifts<S>(absorb: (S, string) -> S, s: string, i: nat, from: nat, state: S)
    requires i <= from <= |s|
    ensures Scan(absorb, s, from, state) == Scan(absorb, s[i..], from - i, state)
    decreases |s| - from
  {
    if from < |s| {
      ScanOne(absorb, s, from, state);
      ScanOne(absorb, s[i..], from - i, state);
      LineShifts(s, i, from);
      ScanShifts(absorb, s, i, NextLine(s, from), absorb(state, s[from..Find(s, '\n', from)]));
    }
  }

  lemma FindShifts(s: string, i: nat, from: nat)
    requires i <= from <= |s|
    ensures Find(s[i..], '\n', from - i) + i == Find(s, '\n', from)
  {
    assert forall k :: 0 <= k < |s| - i ==> s[i..][k] == s[i + k];
  }

  /** One physical line, ended by a line feed. */
  lemma ScanPhysical<S>(absorb: (S, string) -> S, raw: string, post: string, state: S)
    requires '\n' !in raw
    ensures Scan(absorb, raw + ['\n'] + post, 0, state) == Scan(absorb, post, 0, absorb(state, raw))
  {
    var s := raw + ['\n'] + post;
    assert s[|raw|] == '\n';
    assert forall k :: 0 <= k < |raw| ==> s[k] in raw;
    assert Find(s, '\n', 0) == |raw|;
    assert s[0..|raw|] == raw && s[|raw| + 1..] == post;
    ScanShifts(absorb, s, |raw| + 1, |raw| + 1, absorb(state, raw));
  }

  /** Scanning a text from its start. */
  function ScanText(s: string, lines: Lines): Lines {
    Scan(AbsorbInto(), s, 0, lines)
  }

  /** A piece with its line end. */
  lemma ScanPiece(text: string, crlf: bool, post: string, lines: Lines)
    requires '\n' !in text
    ensures ScanText(text + Eol(crlf) + post, lines)
         == ScanText(post, lines.Absorb(if crlf then text + ['\r'] else text))
  {
    var raw := if crlf then text + ['\r'] else text;
    assert text + Eol(crlf) == raw + ['\n'];
    ScanPhysical(AbsorbInto(), raw, post, lines);
  }

  lemma ScanFold(f: Fold, post: string, lines: Lines)
    requires (f.blank == ' ' || f.blank == '\t') && '\n' !in f.text
    ensures ScanText(RenderFold(f) + post, lines)
         == ScanText(post, Lines(lines.finished, lines.current + Kept(f.text, f.crlf)))
  {
    var text := [f.blank] + f.text;
    var raw := StripCr(if f.crlf then text + ['\r'] else text);
    ScanPiece(text, f.crlf, post, lines);
    assert raw == [f.blank] + Kept(f.text, f.crlf);
    assert raw[1..] == Kept(f.text, f.crlf);
  }

  lemma {:induction false} ScanFolds(folds: seq<Fold>, post: string, lines: Lines)
    requires WellFolds(folds)
    ensures ScanText(RenderFolds(folds) + post, lines)
         == ScanText(post, Lines(lines.finished, lines.current + KeptFolds(folds)))
    decreases folds
  {
    if folds == [] {
      assert RenderFolds(folds) + post == post;
      assert lines.current + KeptFolds(folds) == lines.current;
    } else {
      var f, rest := folds[0], folds[1..];
      var next := lines.current + Kept(f.text, f.crlf);
      assert RenderFolds(folds) + post == RenderFold(f) + (RenderFolds(rest) + post);
      ScanFold(f, RenderFolds(rest) + post, lines);
      ScanFolds(rest, post, Lines(lines.finished, next));
      assert next + KeptFolds(rest) == lines.current + KeptFolds(folds);
    }
  }

  /** A whole folded line replaces the line under construction by what is kept of it. */
  lemma ScanLine(l: FoldedLine, post: string, lines: Lines)
    requires WellFolded(l)
    ensures ScanText(Render(l) + post, lines)
         == ScanText(post, Lines(Flush(lines.finished, lines.current), KeptLine(l)))
  {
    var raw := if l.crlf then l.first + ['\r'] else l.first;
    var start := Lines(Flush(lines.finished, lines.current), Kept(l.first, l.crlf));
    assert Render(l) + post == l.first + Eol(l.crlf) + (RenderFolds(l.folds) + post);
    ScanPiece(l.first, l.crlf, RenderFolds(l.folds) + post, lines);
    assert StripCr(raw) == Kept(l.first, l.crlf);
    ScanFolds(l.folds, post, start);
  }

  function Finish(lines: Lines): seq<string> {
    Flush(lines.finished, lines.current)
  }

  function KeptInto(ls: seq<FoldedLine>, lines: Lines): Lines
    decreases ls
  {
    if ls == [] then lines else KeptInto(ls[1..], Lines(Finish(lines), KeptLine(ls[0])))
  }

  lemma {:induction false} ScanLines(ls: seq<FoldedLine>, lines: Lines)
    requires forall l <- ls :: WellFolded(l)
    ensures ScanText(RenderAll(ls), lines) == KeptInto(ls, lines)
    decreases ls
  {
    if ls != [] {
      ScanLine(ls[0], RenderAll(ls[1..]), lines);
      ScanLines(ls[1..], Lines(Finish(lines), KeptLine(ls[0])));
    }
  }

  lemma {:induction false} KeptIntoFinishes(ls: seq<FoldedLine>, lines: Lines)
    ensures Finish(KeptInto(ls, lines)) == Finish(lines) + KeptLines(ls)
    decreases ls
  {
    if ls != [] {
      KeptIntoFinishes(ls[1..], Lines(Finish(lines), KeptLine(ls[0])));
    }
  }

  /** Unfolding gives the lines less the carriage returns a bare line feed takes along, and no empty line. */
  lemma UnfoldReadsFolds(ls: seq<FoldedLine>)
    requires forall l <- ls :: WellFolded(l)
    ensures Unfolded(RenderAll(ls)) == KeptLines(ls)
  {
    ScanLines(ls, Lines([], []));
    KeptIntoFinishes(ls, Lines([], []));
  }

  // ----- when unfolding gives back the lines -----

  /** No carriage return stands right before a bare line feed. */
  predicate CrSafe(text: string, crlf: bool) {
    crlf || text == [] || text[|text| - 1] != '\r'
  }

  predicate CrSafeLine(l: FoldedLine) {
    CrSafe(l.first, l.crlf) && forall f <- l.folds :: CrSafe(f.text, f.crlf)
  }

  lemma {:induction false} KeptFoldsLength(folds: seq<Fold>)
    ensures |KeptFolds(folds)| <= |JoinFolds(folds)|
    ensures |KeptFolds(folds)| == |JoinFolds(folds)| <==> forall f <- folds :: CrSafe(f.text, f.crlf)
    ensures (forall f <- folds :: CrSafe(f.text, f.crlf)) ==> KeptFolds(folds) == JoinFolds(folds)
  {
    if folds != [] {
      assert folds == [folds[0]] + folds[1..];
      KeptFoldsLength(folds[1..]);
    }
  }

  lemma KeptLineLength(l: FoldedLine)
    ensures |KeptLine(l)| <= |Logical(l)|
    ensures KeptLine(l) == Logical(l) <==> CrSafeLine(l)
    ensures |KeptLine(l)| == |Logical(l)| ==> CrSafeLine(l)
  {
    KeptFoldsLength(l.folds);
  }

  function TotalLength(lines: seq<string>): nat {
    if lines == [] then 0 else |lines[0]| + TotalLength(lines[1..])
  }

  lemma {:induction false} KeptLinesLength(ls: seq<FoldedLine>)
    requires forall l <- ls :: Logical(l) != []
    ensures TotalLength(KeptLines(ls)) <= TotalLength(LogicalLines(ls))
    ensures TotalLength(KeptLines(ls)) == TotalLength(LogicalLines(ls)) ==> forall l <- ls :: CrSafeLine(l)
    ensures (forall l <- ls :: CrSafeLine(l)) ==> KeptLines(ls) == LogicalLines(ls)
  {
    if ls != [] {
      assert ls == [ls[0]] + ls[1..];
      KeptLineLength(ls[0]);
      KeptLinesLength(ls[1..]);
      var head := if KeptLine(ls[0]) == [] then [] else [KeptLine(ls[0])];
      assert (head + KeptLines(ls[1..]))[|head|..] == KeptLines(ls[1..]);
      assert TotalLength(KeptLines(ls)) == |KeptLine(ls[0])| + TotalLength(KeptLines(ls[1..]));
    }
  }

  /** Unfolding undoes folding exactly when no piece that a bare line feed ends has a carriage return last. */
  lemma UnfoldUndoesFolding(ls: seq<FoldedLine>)
    requires forall l <- ls :: WellFolded(l) && Logical(l) != []
    ensures Unfolded(RenderAll(ls)) == LogicalLines(ls) <==> forall l <- ls :: CrSafeLine(l)
  {
    UnfoldReadsFolds(ls);
    KeptLinesLength(ls);
  }

  // ----- TEXT values -----

  function EscapeChar(c: char): string {
    if c == '\n' then "\\n" else if c == '\\' || c == ';' || c == ',' then ['\\', c] else [c]
  }

  function Escape(text: string): string {
    if text == [] then [] else EscapeChar(text[0]) + Escape(text[1..])
  }

  predicate NeedsEscape(c: char) {
    c == '\n' || c == '\\' || c == ';' || c == ','
  }

  lemma UnescapeChar(s: string, i: nat, c: char, out: string)
    requires i + |EscapeChar(c)| <= |s| && s[i..i + |EscapeChar(c)|] == EscapeChar(c)
    ensures UnescapeFrom(s, i, out) == UnescapeFrom(s, i + |EscapeChar(c)|, out + [c])
  {
    assert s[i] == EscapeChar(c)[0];
    if |EscapeChar(c)| == 2 {
      assert s[i + 1] == EscapeChar(c)[1];
    }
  }

  lemma EscapedHead(s: string, i: nat, text: string)
    requires i <= |s| && text != [] && s[i..] == Escape(text)
    ensures var k := i + |EscapeChar(text[0])|;
            k <= |s| && s[i..k] == EscapeChar(text[0]) && s[k..] == Escape(text[1..])
  {
    var k := i + |EscapeChar(text[0])|;
    assert s[i..][..k - i] == EscapeChar(text[0]) && s[i..][k - i..] == s[k..];
  }

  lemma HeadThenRest(out: string, text: string)
    requires text != []
    ensures out + [text[0]] + text[1..] == out + text
  {
  }

  lemma {:induction false} UnescapeFromEscape(s: string, i: nat, text: string, out: string)
    requires i <= |s| && s[i..] == Escape(text)
    ensures UnescapeFrom(s, i, out) == out + text
    decreases text
  {
    if text == [] {
      assert out + text == out;
    } else {
      EscapedHead(s, i, text);
      UnescapeChar(s, i, text[0], out);
      UnescapeFromEscape(s, i + |EscapeChar(text[0])|, text[1..], out + [text[0]]);
      HeadThenRest(out, text);
    }
  }

  /** Unescaping undoes escaping, for every text. */
  lemma UnescapeUndoesEscape(text: string)
    ensures Unescape(Escape(text)) == text
  {
    UnescapeFromEscape(Escape(text), 0, text, []);
  }

  lemma {:induction false} EscapeLength(text: string)
    ensures |Escape(text)| >= |text|
    ensures |Escape(text)| == |text| ==> forall c <- text :: !NeedsEscape(c)
    ensures (forall c <- text :: !NeedsEscape(c)) ==> Escape(text) == text
  {
    if text != [] {
      assert text == [text[0]] + text[1..];
      EscapeLength(text[1..]);
      if forall c <- text :: !NeedsEscape(c) {
        assert text[0] in text;
        assert Escape(text) == [text[0]] + text[1..];
      }
    }
  }

  // ----- property lines -----

  /** `name;params:value`; `params` is empty or starts with its semicolon. */
  function PropertyText(name: string, params: string, value: string): string {
    name + params + [':'] + value
  }

  predicate PlainName(name: string) {
    ':' !in name && ';' !in name
  }

  predicate PlainParams(params: string) {
    ':' !in params && (params == [] || params[0] == ';')
  }

  lemma FindBefore(a: string, c: char, b: string)
    requires c !in a && (b == [] || b[0] == c)
    ensures Find(a + b, c, 0) == |a|
  {
    var s := a + b;
    assert forall k :: 0 <= k < |a| ==> s[k] in a;
    if b != [] {
      assert s[|a|] == c;
    }
  }

  lemma {:induction false} ReadParamsKeeps(head: string, pos: nat, prop: PropertyLine)
    requires pos <= |head|
    ensures ReadParams(head, pos, prop).name == prop.name && ReadParams(head, pos, prop).value == prop.value
    decreases |head| - pos
  {
    if pos < |head| {
      var next := Find(head, ';', pos + 1);
      ReadParamsKeeps(head, next, ReadParam(prop, head[pos + 1..next]));
    }
  }

  lemma PropertyIsRead(name: string, params: string, value: string)
    requires PlainName(name) && PlainParams(params)
    ensures Property(PropertyText(name, params, value)).name == name
    ensures Property(PropertyText(name, params, value)).value == value
  {
    var line, head := PropertyText(name, params, value), name + params;
    assert line == head + ([':'] + value);
    FindBefore(head, ':', [':'] + value);
    assert line[..|head|] == head && line[|head| + 1..] == value;
    FindBefore(name, ';', params);
    assert head[..|name|] == name;
    ReadParamsKeeps(head, |name|, PropertyLine(name, [], false, value));
  }

  // ----- parameters -----

  /** `key=value`, behind a semicolon. */
  datatype Param = Param(key: string, val: string)

  predicate PlainParam(p: Param) {
    ';' !in p.key && ':' !in p.key && '=' !in p.key && ';' !in p.val && ':' !in p.val
  }

  function ParamText(p: Param): string {
    p.key + ['='] + p.val
  }

  function ParamsText(params: seq<Param>): string {
    if params == [] then [] else [';'] + ParamText(params[0]) + ParamsText(params[1..])
  }

  /** The value of the last parameter with the key. */
  function LastValue(params: seq<Param>, key: string): Option<string> {
    if params == [] then None
    else
      var last := params[|params| - 1];
      if last.key == key then Some(last.val) else LastValue(params[..|params| - 1], key)
  }

  lemma ParamIsRead(prop: PropertyLine, p: Param)
    requires PlainParam(p)
    ensures ReadParam(prop, ParamText(p))
         == if p.key == "TZID" then prop.(tzid := p.val)
            else if p == Param("VALUE", "DATE") then prop.(valueIsDate := true)
            else prop
  {
    var text := ParamText(p);
    assert text == p.key + (['='] + p.val);
    FindBefore(p.key, '=', ['='] + p.val);
    assert text[..|p.key|] == p.key && text[|p.key| + 1..] == p.val;
  }

  /** What the parameters say, added to what was read before. */
  function WithParams(prop: PropertyLine, params: seq<Param>): PropertyLine
    decreases params
  {
    if params == [] then prop
    else WithParams(ReadParam(prop, ParamText(params[0])), params[1..])
  }

  lemma {:induction false} ParamsTextIsPlain(params: seq<Param>)
    requires forall p <- params :: PlainParam(p)
    ensures PlainParams(ParamsText(params))
    decreases params
  {
    if params != [] {
      assert params[0] in params && forall p <- params[1..] :: p in params;
      ParamsTextIsPlain(params[1..]);
      assert ':' !in ParamText(params[0]);
    }
  }

  lemma {:induction false} ParamsFromAreRead(head: string, pos: nat, prop: PropertyLine, params: seq<Param>)
    requires pos <= |head| && head[pos..] == ParamsText(params) && forall p <- params :: PlainParam(p)
    ensures ReadParams(head, pos, prop) == WithParams(prop, params)
    decreases params
  {
    if params == [] {
      NoParams(head, pos, prop);
    } else {
      PlainTail(params);
      var next := FirstParam(head, pos, prop, params);
      ParamsFromAreRead(head, next, ReadParam(prop, ParamText(params[0])), params[1..]);
    }
  }

  lemma NoParams(head: string, pos: nat, prop: PropertyLine)
    requires pos <= |head| && head[pos..] == []
    ensures ReadParams(head, pos, prop) == prop
  {
    assert pos == |head|;
  }

  lemma FirstParam(head: string, pos: nat, prop: PropertyLine, params: seq<Param>) returns (next: nat)
    requires pos <= |head| && params != [] && head[pos..] == ParamsText(params) && PlainParam(params[0])
    ensures next <= |head| && head[next..] == ParamsText(params[1..])
    ensures ReadParams(head, pos, prop) == ReadParams(head, next, ReadParam(prop, ParamText(params[0])))
  {
    next := ParamEnds(head, pos, ParamText(params[0]), ParamsText(params[1..]));
    NextParam(head, pos, next, prop, ParamText(params[0]));
  }

  lemma PlainTail(params: seq<Param>)
    requires params != [] && forall p <- params :: PlainParam(p)
    ensures PlainParam(params[0]) && forall p <- params[1..] :: PlainParam(p)
  {
    assert params[0] in params && forall p <- params[1..] :: p in params;
  }

  lemma NextParam(head: string, pos: nat, next: nat, prop: PropertyLine, text: string)
    requires pos < |head| && next == Find(head, ';', pos + 1) && text == head[pos + 1..next]
    ensures ReadParams(head, pos, prop) == ReadParams(head, next, ReadParam(prop, text))
  {
  }

  lemma ParamEnds(head: string, pos: nat, text: string, rest: string) returns (next: nat)
    requires pos <= |head| && head[pos..] == [';'] + text + rest
    requires ';' !in text && (rest == [] || rest[0] == ';')
    ensures pos < |head| && next <= |head| && Find(head, ';', pos + 1) == next
    ensures head[pos + 1..next] == text && head[next..] == rest
  {
    var tail := head[pos..];
    next := pos + 1 + |text|;
    assert tail[1..][..|text|] == text && tail[1..][|text|..] == rest;
    assert head[pos + 1..next] == text && head[next..] == rest;
    assert forall k :: pos + 1 <= k < next ==> head[k] == text[k - pos - 1];
    if rest != [] {
      assert head[next] == rest[0] == ';';
    }
  }

  lemma {:induction false} WithParamsIs(prop: PropertyLine, params: seq<Param>)
    requires forall p <- params :: PlainParam(p)
    ensures WithParams(prop, params).name == prop.name && WithParams(prop, params).value == prop.value
    ensures WithParams(prop, params).tzid
         == if LastValue(params, "TZID").Some? then LastValue(params, "TZID").value else prop.tzid
    ensures WithParams(prop, params).valueIsDate <==> prop.valueIsDate || Param("VALUE", "DATE") in params
    decreases params
  {
    if params != [] {
      PlainTail(params);
      ParamIsRead(prop, params[0]);
      WithParamsIs(ReadParam(prop, ParamText(params[0])), params[1..]);
      LastValueFirst(params, "TZID");
      FirstOrLater(params, Param("VALUE", "DATE"));
    }
  }

  lemma FirstOrLater<T>(s: seq<T>, x: T)
    requires s != []
    ensures x in s <==> x == s[0] || x in s[1..]
  {
    assert s == [s[0]] + s[1..];
  }

  lemma {:induction false} LastValueFirst(params: seq<Param>, key: string)
    requires params != []
    ensures LastValue(params, key)
         == if LastValue(params[1..], key).Some? then LastValue(params[1..], key)
            else if params[0].key == key then Some(params[0].val) else None
    decreases params
  {
    if |params| > 1 {
      var n := |params| - 1;
      assert params[..n][1..] == params[1..][..n - 1];
      LastValueFirst(params[..n], key);
    }
  }

  /** The zone of a property is that of its last TZID, and its value a date exactly when a VALUE=DATE says so. */
  lemma ParamsAreRead(name: string, params: seq<Param>, value: string)
    requires PlainName(name) && forall p <- params :: PlainParam(p)
    ensures var prop := Property(PropertyText(name, ParamsText(params), value));
            && prop.name == name && prop.value == value
            && prop.tzid == (if LastValue(params, "TZID").Some? then LastValue(params, "TZID").value else [])
            && (prop.valueIsDate <==> Param("VALUE", "DATE") in params)
  {
    var text, line, head := ParamsText(params), PropertyText(name, ParamsText(params), value), name + ParamsText(params);
    ParamsTextIsPlain(params);
    assert line == head + ([':'] + value);
    FindBefore(head, ':', [':'] + value);
    assert line[..|head|] == head && line[|head| + 1..] == value;
    FindBefore(name, ';', text);
    assert head[..|name|] == name && head[|name|..] == text;
    ParamsFromAreRead(head, |name|, PropertyLine(name, [], false, value), params);
    WithParamsIs(PropertyLine(name, [], false, value), params);
  }

  // ----- the lines of an event -----

  /** A property of an event; `Other` is one the parser does not know, such as DESCRIPTION. */
  datatype EventProperty =
    | Uid(text: string)
    | Summary(text: string)
    | Location(text: string)
    | Start(value: string)
    | End(value: string)
    | Recurs(value: string)
    | RecurrenceId(value: string)
    | Excludes(pieces: seq<string>)
    | Other(name: string, value: string)
  {
    function Name(): string {
      match this
      case Uid(_) => "UID"
      case Summary(_) => "SUMMARY"
      case Location(_) => "LOCATION"
      case Start(_) => "DTSTART"
      case End(_) => "DTEND"
      case Recurs(_) => "RRULE"
      case RecurrenceId(_) => "RECURRENCE-ID"
      case Excludes(_) => "EXDATE"
      case Other(name, _) => name
    }

    /** As RFC 5545 writes it: every TEXT value escaped, UID among them. */
    function Written(): string {
      match this
      case Uid(text) => Escape(text)
      case Summary(text) => Escape(text)
      case Location(text) => Escape(text)
      case Excludes(pieces) => Joined(pieces, ',')
      case _ => value
    }
  }

  predicate KnownName(name: string) {
    name == "UID" || name == "SUMMARY" || name == "LOCATION" || name == "DTSTART" || name == "DTEND" || name == "RRULE"
    || name == "RECURRENCE-ID" || name == "EXDATE"
  }

  /** With whatever parameters. */
  datatype EventLine = EventLine(property: EventProperty, params: string) {
    function Text(): string {
      PropertyText(property.Name(), params, property.Written())
    }

    function Read(): PropertyLine {
      Property(Text())
    }
  }

  ghost predicate PlainLine(l: EventLine) {
    && PlainParams(l.params)
    && (l.property.Excludes? ==> Pieces(l.property.pieces, ','))
    && (l.property.Other? ==>
          PlainName(l.property.name) && !KnownName(l.property.name) && l.Text() != "BEGIN:VEVENT" && l.Text() != "END:VEVENT")
  }

  predicate SameProperty(a: EventProperty, b: EventProperty) {
    (a.Uid? && b.Uid?) || (a.Summary? && b.Summary?) || (a.Location? && b.Location?) || (a.Start? && b.Start?)
    || (a.End? && b.End?) || (a.Recurs? && b.Recurs?) || (a.RecurrenceId? && b.RecurrenceId?)
  }

  /** Properties in any order, none twice but EXDATE and those the parser does not know. */
  ghost predicate PlainLines(lines: seq<EventLine>) {
    (forall l <- lines :: PlainLine(l))
    && forall i, j :: 0 <= i < j < |lines| ==> !SameProperty(lines[i].property, lines[j].property)
  }

  function DateOf(dates: DateReader, l: EventLine): Option<DateTime> {
    dates(l.Read())
  }

  predicate Gives(dates: DateReader, l: EventLine) {
    DateOf(dates, l).Some?
  }

  function ZoneOf(dt: DateTime): Option<RecurrenceZone> {
    if !dt.allDay && dt.zone.Some? then Some(RecurrenceZone(dt.zone.value, dt.civilDay, dt.timeOfDay)) else None
  }

  /** The instants of all EXDATE lines, in order. */
  function ExdatesOf(dates: DateReader, lines: seq<EventLine>): seq<int> {
    if lines == [] then []
    else
      var last := lines[|lines| - 1];
      ExdatesOf(dates, lines[..|lines| - 1])
      + if last.property.Excludes? then Instants(dates, last.Read(), last.property.pieces) else []
  }

  // ----- reading them -----

  /** The draft has what the line says. */
  ghost predicate Says(dates: DateReader, l: EventLine, d: Draft) {
    var e := d.current.event;
    match l.property
    case Uid(text) => e.id == Escape(text)
    case Summary(text) => e.title == text
    case Location(text) => e.location == text
    case Start(_) =>
      Gives(dates, l) ==>
        var dt := DateOf(dates, l).value;
        d.haveStart && e.start == dt.instant && d.startAllDay == dt.allDay && d.current.zone == ZoneOf(dt)
    case End(_) => Gives(dates, l) ==> d.haveEnd && e.end == DateOf(dates, l).value.instant
    case Recurs(value) => d.current.rrule == value
    case RecurrenceId(_) => Gives(dates, l) ==> d.current.recurrenceId == Some(DateOf(dates, l).value.instant)
    case _ => true
  }

  /** The draft has what the lines say, in whatever order, and nothing else. */
  ghost predicate Describes(dates: DateReader, lines: seq<EventLine>, d: Draft) {
    (forall l <- lines :: Says(dates, l, d)) && Defaults(dates, lines, d) && d.current.exdates == ExdatesOf(dates, lines)
  }

  function ReadAll(dates: DateReader, d: Draft, lines: seq<EventLine>): Draft {
    if lines == [] then d
    else ReadProperty(dates, ReadAll(dates, d, lines[..|lines| - 1]), lines[|lines| - 1].Read())
  }

  /** The draft once one more line is read, said without names. */
  function With(dates: DateReader, d: Draft, l: EventLine): Draft {
    var e := d.current;
    match l.property
    case Uid(text) => d.(current := e.(event := e.event.(id := Escape(text))))
    case Summary(text) => d.(current := e.(event := e.event.(title := text)))
    case Location(text) => d.(current := e.(event := e.event.(location := text)))
    case Start(_) =>
      if !Gives(dates, l) then d
      else
        var dt := DateOf(dates, l).value;
        d.(current := e.(event := e.event.(start := dt.instant), zone := if ZoneOf(dt).Some? then ZoneOf(dt) else e.zone),
           startAllDay := dt.allDay, haveStart := true)
    case End(_) =>
      if !Gives(dates, l) then d
      else d.(current := e.(event := e.event.(end := DateOf(dates, l).value.instant)), haveEnd := true)
    case Recurs(value) => d.(current := e.(rrule := value))
    case RecurrenceId(_) =>
      if !Gives(dates, l) then d else d.(current := e.(recurrenceId := Some(DateOf(dates, l).value.instant)))
    case Excludes(pieces) => d.(current := e.(exdates := e.exdates + Instants(dates, l.Read(), pieces)))
    case Other(_, _) => d
  }

  lemma NameIsRead(l: EventLine)
    requires PlainLine(l)
    ensures l.Read().name == l.property.Name() && l.Read().value == l.property.Written()
  {
    PropertyIsRead(l.property.Name(), l.params, l.property.Written());
  }

  lemma LineIsRead(dates: DateReader, d: Draft, l: EventLine)
    requires PlainLine(l)
    ensures ReadProperty(dates, d, l.Read()) == With(dates, d, l)
  {
    NameIsRead(l);
    match l.property
    case Summary(text) => TextIsRead(dates, d, l);
    case Location(text) => TextIsRead(dates, d, l);
    case Excludes(pieces) => ExdatesAreRead(dates, d, l);
    case _ => DateOrNameIsRead(dates, d, l);
  }

  lemma TextIsRead(dates: DateReader, d: Draft, l: EventLine)
    requires l.property.Summary? || l.property.Location?
    requires l.Read().name == l.property.Name() && l.Read().value == Escape(l.property.text)
    ensures ReadProperty(dates, d, l.Read()) == With(dates, d, l)
  {
    UnescapeUndoesEscape(l.property.text);
  }

  lemma ExdatesAreRead(dates: DateReader, d: Draft, l: EventLine)
    requires l.property.Excludes? && Pieces(l.property.pieces, ',')
    requires l.Read().name == "EXDATE" && l.Read().value == Joined(l.property.pieces, ',')
    ensures ReadProperty(dates, d, l.Read()) == With(dates, d, l)
  {
    ExdateListIsRead(dates, l.Read(), l.property.pieces, d.current.exdates);
  }

  lemma DateOrNameIsRead(dates: DateReader, d: Draft, l: EventLine)
    requires !l.property.Summary? && !l.property.Location? && !l.property.Excludes?
    requires l.property.Other? ==> !KnownName(l.property.name)
    requires l.Read().name == l.property.Name() && l.Read().value == l.property.Written()
    ensures ReadProperty(dates, d, l.Read()) == With(dates, d, l)
  {
  }

  /** What the line does not set is as before. */
  ghost predicate Framed(dates: DateReader, l: EventLine, d: Draft, n: Draft) {
    && (!l.property.Uid? ==> n.current.event.id == d.current.event.id)
    && (!l.property.Summary? ==> n.current.event.title == d.current.event.title)
    && (!l.property.Location? ==> n.current.event.location == d.current.event.location)
    && (!(l.property.Start? && Gives(dates, l)) ==>
          n.haveStart == d.haveStart && n.current.event.start == d.current.event.start
          && n.startAllDay == d.startAllDay && n.current.zone == d.current.zone)
    && (!(l.property.End? && Gives(dates, l)) ==> n.haveEnd == d.haveEnd && n.current.event.end == d.current.event.end)
    && (!l.property.Recurs? ==> n.current.rrule == d.current.rrule)
    && (!(l.property.RecurrenceId? && Gives(dates, l)) ==> n.current.recurrenceId == d.current.recurrenceId)
    && n.current.exdates == d.current.exdates
                            + if l.property.Excludes? then Instants(dates, l.Read(), l.property.pieces) else []
  }

  lemma OthersStay(dates: DateReader, l: EventLine, d: Draft)
    ensures Framed(dates, l, d, With(dates, d, l))
  {
  }

  lemma KeepsSaying(dates: DateReader, b: EventLine, l: EventLine, d: Draft, n: Draft)
    requires Says(dates, b, d) && !SameProperty(b.property, l.property) && Framed(dates, l, d, n)
    ensures Says(dates, b, n)
  {
  }

  lemma LineSays(dates: DateReader, l: EventLine, d: Draft)
    requires l.property.Start? ==> d.current.zone == None
    ensures Says(dates, l, With(dates, d, l))
  {
  }

  /** What is missing has its default. */
  ghost predicate Defaults(dates: DateReader, lines: seq<EventLine>, d: Draft) {
    && ((forall l <- lines :: !l.property.Uid?) ==> d.current.event.id == [])
    && ((forall l <- lines :: !l.property.Summary?) ==> d.current.event.title == [])
    && ((forall l <- lines :: !l.property.Location?) ==> d.current.event.location == [])
    && ((forall l <- lines :: l.property.Start? ==> !Gives(dates, l)) ==> !d.haveStart && d.current.zone == None)
    && ((forall l <- lines :: l.property.End? ==> !Gives(dates, l)) ==> !d.haveEnd)
    && ((forall l <- lines :: !l.property.Recurs?) ==> d.current.rrule == [])
    && ((forall l <- lines :: l.property.RecurrenceId? ==> !Gives(dates, l)) ==> d.current.recurrenceId == None)
  }

  lemma DefaultsStay(dates: DateReader, before: seq<EventLine>, l: EventLine, d: Draft, n: Draft)
    requires Defaults(dates, before, d) && Framed(dates, l, d, n)
    ensures Defaults(dates, before + [l], n)
  {
    var lines := before + [l];
    assert l in lines && forall b <- before :: b in lines;
  }

  lemma LineDescribes(dates: DateReader, before: seq<EventLine>, l: EventLine, d: Draft)
    requires Describes(dates, before, d) && PlainLine(l) && forall b <- before :: !SameProperty(b.property, l.property)
    ensures Describes(dates, before + [l], With(dates, d, l))
  {
    var lines := before + [l];
    OthersStay(dates, l, d);
    forall b | b in lines
      ensures Says(dates, b, With(dates, d, l))
    {
      if b in before {
        KeepsSaying(dates, b, l, d, With(dates, d, l));
      } else {
        LineSays(dates, l, d);
      }
    }
    DefaultsStay(dates, before, l, d, With(dates, d, l));
    assert lines[..|lines| - 1] == before;
  }

  lemma {:induction false} AllLinesAreRead(dates: DateReader, lines: seq<EventLine>)
    requires PlainLines(lines)
    ensures Describes(dates, lines, ReadAll(dates, NEW_DRAFT, lines))
    decreases lines
  {
    if lines != [] {
      var before, last := lines[..|lines| - 1], lines[|lines| - 1];
      assert lines == before + [last] && last in lines && forall l <- before :: l in lines;
      forall b | b in before
        ensures !SameProperty(b.property, last.property)
      {
        var i :| 0 <= i < |before| && before[i] == b;
        assert lines[i] == b;
      }
      AllLinesAreRead(dates, before);
      LineIsRead(dates, ReadAll(dates, NEW_DRAFT, before), last);
      LineDescribes(dates, before, last, ReadAll(dates, NEW_DRAFT, before));
    }
  }

  // ----- a whole event -----

  function Texts(lines: seq<EventLine>): seq<string> {
    if lines == [] then [] else Texts(lines[..|lines| - 1]) + [lines[|lines| - 1].Text()]
  }

  datatype TextEvent = TextEvent(lines: seq<EventLine>)

  function EventLines(v: TextEvent): seq<string> {
    ["BEGIN:VEVENT"] + Texts(v.lines) + ["END:VEVENT"]
  }

  lemma NamesDiffer(name: string, params: string, value: string, other: string, rest: string)
    requires PlainName(name) && PlainParams(params) && PlainName(other) && name != other
    ensures PropertyText(name, params, value) != PropertyText(other, [], rest)
  {
    PropertyIsRead(name, params, value);
    PropertyIsRead(other, [], rest);
  }

  lemma NotADelimiter(l: EventLine)
    requires PlainLine(l)
    ensures l.Text() != "BEGIN:VEVENT" && l.Text() != "END:VEVENT"
  {
    if !l.property.Other? {
      NamesDiffer(l.property.Name(), l.params, l.property.Written(), "BEGIN", "VEVENT");
      NamesDiffer(l.property.Name(), l.params, l.property.Written(), "END", "VEVENT");
      assert PropertyText("BEGIN", [], "VEVENT") == "BEGIN:VEVENT";
      assert PropertyText("END", [], "VEVENT") == "END:VEVENT";
    }
  }

  lemma {:induction false} BodyIsRead(dates: DateReader, r: Reader, lines: seq<EventLine>)
    requires r.inEvent && forall l <- lines :: PlainLine(l)
    ensures ReadLines(dates, r, Texts(lines)) == r.(draft := ReadAll(dates, r.draft, lines))
    decreases lines
  {
    if lines != [] {
      var before, last := lines[..|lines| - 1], lines[|lines| - 1];
      assert last in lines && forall l <- before :: l in lines;
      BodyIsRead(dates, r, before);
      NotADelimiter(last);
      FoldSplits(LineReader(dates), r, Texts(before), [last.Text()]);
      OneLine(dates, r.(draft := ReadAll(dates, r.draft, before)), last.Text());
    }
  }

  lemma OneLine(dates: DateReader, r: Reader, line: string)
    ensures ReadLines(dates, r, [line]) == ReadLine(dates, r, line)
  {
    assert [line][1..] == [] && LineReader(dates)(r, line) == ReadLine(dates, r, line);
    assert IcalEvents.Fold(LineReader(dates), ReadLine(dates, r, line), []) == ReadLine(dates, r, line);
  }

  /** The parsed event has what the line says; a UID comes back escaped. */
  ghost predicate Tells(dates: DateReader, l: EventLine, p: VEvent) {
    match l.property
    case Uid(text) => p.event.id == Escape(text)
    case Summary(text) => p.event.title == text
    case Location(text) => p.event.location == text
    case Start(_) =>
      Gives(dates, l) ==>
        var dt := DateOf(dates, l).value;
        p.event.start == dt.instant && p.event.allDay == dt.allDay && p.zone == ZoneOf(dt)
    case End(_) => Gives(dates, l) ==> p.event.end == DateOf(dates, l).value.instant
    case Recurs(value) => p.rrule == value
    case RecurrenceId(_) => Gives(dates, l) ==> p.recurrenceId == Some(DateOf(dates, l).value.instant)
    case _ => true
  }

  /** The parsed event has what the lines say, and nothing else; without an end that can be read it ends when it
      starts. */
  ghost predicate Carries(dates: DateReader, p: VEvent, v: TextEvent) {
    && (forall l <- v.lines :: Tells(dates, l, p))
    && ((forall l <- v.lines :: !l.property.Uid?) ==> p.event.id == [])
    && ((forall l <- v.lines :: !l.property.Summary?) ==> p.event.title == [])
    && ((forall l <- v.lines :: !l.property.Location?) ==> p.event.location == [])
    && ((forall l <- v.lines :: l.property.End? ==> !Gives(dates, l)) ==> p.event.end == p.event.start)
    && ((forall l <- v.lines :: !l.property.Recurs?) ==> p.rrule == [])
    && ((forall l <- v.lines :: l.property.RecurrenceId? ==> !Gives(dates, l)) ==> p.recurrenceId == None)
    && p.exdates == ExdatesOf(dates, v.lines)
  }

  ghost predicate Starts(dates: DateReader, v: TextEvent) {
    exists l :: l in v.lines && l.property.Start? && Gives(dates, l)
  }

  ghost predicate Extends(dates: DateReader, after: seq<VEvent>, before: seq<VEvent>, v: TextEvent) {
    |after| == |before| + 1 && after[..|before|] == before && Carries(dates, after[|before|], v)
  }

  lemma CompletedCarries(dates: DateReader, d: Draft, v: TextEvent)
    requires Describes(dates, v.lines, d)
    ensures Starts(dates, v) <==> d.haveStart
    ensures Starts(dates, v) ==> Carries(dates, Completed(d), v)
  {
    forall l | l in v.lines
      ensures Starts(dates, v) ==> Tells(dates, l, Completed(d))
    {
      assert Says(dates, l, d);
    }
  }

  /** One event read, whatever was read before; without a start that can be read there is none. */
  lemma EventIsRead(dates: DateReader, r: Reader, v: TextEvent)
    requires PlainLines(v.lines)
    ensures Starts(dates, v) ==> Extends(dates, ReadLines(dates, r, EventLines(v)).parsed, r.parsed, v)
    ensures !Starts(dates, v) ==> ReadLines(dates, r, EventLines(v)).parsed == r.parsed
  {
    var begun := Reader(r.parsed, true, NEW_DRAFT);
    var body := Texts(v.lines);
    var d := ReadAll(dates, NEW_DRAFT, v.lines);
    FoldSplits(LineReader(dates), r, ["BEGIN:VEVENT"] + body, ["END:VEVENT"]);
    FoldSplits(LineReader(dates), r, ["BEGIN:VEVENT"], body);
    OneLine(dates, r, "BEGIN:VEVENT");
    BodyIsRead(dates, begun, v.lines);
    OneLine(dates, begun.(draft := d), "END:VEVENT");
    AllLinesAreRead(dates, v.lines);
    CompletedCarries(dates, d, v);
  }

  function Concat(lines: TextEvent -> seq<string>, vs: seq<TextEvent>): seq<string> {
    if vs == [] then [] else Concat(lines, vs[..|vs| - 1]) + lines(vs[|vs| - 1])
  }

  function AllEventLines(vs: seq<TextEvent>): seq<string> {
    Concat((v: TextEvent) => EventLines(v), vs)
  }

  ghost predicate AllCarried(dates: DateReader, parsed: seq<VEvent>, vs: seq<TextEvent>) {
    |parsed| == |vs| && forall i :: 0 <= i < |vs| ==> Carries(dates, parsed[i], vs[i])
  }

  lemma ExtendsAll(dates: DateReader, after: seq<VEvent>, before: seq<VEvent>, vs: seq<TextEvent>, v: TextEvent)
    requires AllCarried(dates, before, vs) && Extends(dates, after, before, v)
    ensures AllCarried(dates, after, vs + [v])
  {
    forall i | 0 <= i < |vs| + 1
      ensures Carries(dates, after[i], (vs + [v])[i])
    {
      if i < |vs| {
        SameBefore(after, before, i);
        assert (vs + [v])[i] == vs[i];
      } else {
        assert (vs + [v])[i] == v;
      }
    }
  }

  lemma SameBefore<T>(after: seq<T>, before: seq<T>, i: nat)
    requires |before| <= |after| && after[..|before|] == before && i < |before|
    ensures after[i] == before[i]
  {
    assert after[..|before|][i] == after[i];
  }

  lemma {:induction false} EventsAreRead(dates: DateReader, r: Reader, lines: TextEvent -> seq<string>, vs: seq<TextEvent>)
    requires r.parsed == []
    requires forall v, s :: v in vs ==> Extends(dates, ReadLines(dates, s, lines(v)).parsed, s.parsed, v)
    ensures AllCarried(dates, ReadLines(dates, r, Concat(lines, vs)).parsed, vs)
  {
    if vs != [] {
      var init, last := vs[..|vs| - 1], vs[|vs| - 1];
      var s := ReadLines(dates, r, Concat(lines, init));
      assert vs == init + [last];
      EventsAreRead(dates, r, lines, init);
      FoldSplits(LineReader(dates), r, Concat(lines, init), lines(last));
      ExtendsAll(dates, ReadLines(dates, s, lines(last)).parsed, s.parsed, init, last);
    }
  }

  /** Events written with every TEXT value escaped and their properties in any order, cut anywhere and folded with either
      line end and either blank, are read back with all that their lines say; the UID alone keeps its escapes. */
  lemma TextRoundTrip(dates: DateReader, vs: seq<TextEvent>, ls: seq<FoldedLine>)
    requires forall v <- vs :: PlainLines(v.lines) && Starts(dates, v)
    requires LogicalLines(ls) == AllEventLines(vs)
    requires forall l <- ls :: WellFolded(l) && CrSafeLine(l) && Logical(l) != []
    ensures AllCarried(dates, Parsed(dates, RenderAll(ls)), vs)
    ensures forall i, l :: 0 <= i < |vs| && l in vs[i].lines && l.property.Uid? ==>
      (Parsed(dates, RenderAll(ls))[i].event.id == l.property.text <==> forall c <- l.property.text :: !NeedsEscape(c))
  {
    UnfoldUndoesFolding(ls);
    forall v, s | v in vs
      ensures Extends(dates, ReadLines(dates, s, EventLines(v)).parsed, s.parsed, v)
    {
      EventIsRead(dates, s, v);
    }
    EventsAreRead(dates, NEW_READER, (v: TextEvent) => EventLines(v), vs);
    forall i, l | 0 <= i < |vs| && l in vs[i].lines && l.property.Uid?
      ensures Parsed(dates, RenderAll(ls))[i].event.id == l.property.text <==> forall c <- l.property.text :: !NeedsEscape(c)
    {
      TellsUid(dates, l, Parsed(dates, RenderAll(ls))[i], vs[i]);
      EscapeLength(l.property.text);
    }
  }

  lemma EscapedComma()
    ensures Escape("a,b") == "a\\,b"
  {
    assert "a,b"[1..] == ",b" && ",b"[1..] == "b" && "b"[1..] == "";
    assert Escape("") == "" && Escape("b") == "b";
    assert Escape(",b") == "\\,b";
  }

  /** A UID with a comma comes back with the backslash that escapes it. */
  lemma CommaInUidStaysEscaped(dates: DateReader, v: TextEvent, l: EventLine, ls: seq<FoldedLine>)
    requires PlainLines(v.lines) && Starts(dates, v) && LogicalLines(ls) == AllEventLines([v])
    requires l in v.lines && l.property == Uid("a,b")
    requires forall l <- ls :: WellFolded(l) && CrSafeLine(l) && Logical(l) != []
    ensures |Parsed(dates, RenderAll(ls))| == 1 && Parsed(dates, RenderAll(ls))[0].event.id == "a\\,b"
  {
    var one, parsed := [v], Parsed(dates, RenderAll(ls));
    TextRoundTrip(dates, one, ls);
    assert Carries(dates, parsed[0], one[0]);
    TellsUid(dates, l, parsed[0], one[0]);
    EscapedComma();
  }

  lemma TellsUid(dates: DateReader, l: EventLine, p: VEvent, v: TextEvent)
    requires Carries(dates, p, v) && l in v.lines && l.property.Uid?
    ensures p.event.id == Escape(l.property.text)
  {
    assert Tells(dates, l, p);
  }
}
