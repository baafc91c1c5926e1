/** Recurrence rules written in the form of section 3.3.10 of RFC 5545 are read back. */
module IcalRules {
  import opened Wrappers
  import opened IcalText
  import opened IcalEvents
  import opened Recurrence

  // ----- lists -----

  function Joined(pieces: seq<string>, c: char): string {
    if pieces == [] then [] else if |pieces| == 1 then pieces[0] else pieces[0] + [c] + Joined(pieces[1..], c)
  }

  /** A scan for the separator finds the first piece, and goes on with the others. */
  lemma FirstPiece(val: string, p: nat, c: char, pieces: seq<string>)
    requires p <= |val| && pieces != [] && val[p..] == Joined(pieces, c) && c !in pieces[0]
    ensures var end := Find(val, c, p);
            val[p..end] == pieces[0] && After(val, end) <= |val| && val[After(val, end)..] == Joined(pieces[1..], c)
  {
    var first, end := pieces[0], p + |pieces[0]|;
    var rest := val[p..];
    assert rest[..|first|] == first;
    assert val[p..end] == first;
    assert forall k :: p <= k < end ==> val[k] == first[k - p];
    if |pieces| == 1 {
      assert |val| == end;
    } else {
      assert rest[|first|] == c && val[end] == c;
      assert rest[|first| + 1..] == Joined(pieces[1..], c);
      assert val[end + 1..] == rest[|first| + 1..];
    }
  }

  ghost predicate Pieces(pieces: seq<string>, c: char) {
    forall i :: 0 <= i < |pieces| ==> pieces[i] != [] && c !in pieces[i]
  }

  lemma JoinedIsEmpty(pieces: seq<string>, c: char)
    requires Pieces(pieces, c)
    ensures Joined(pieces, c) == [] <==> pieces == []
  {
    if pieces != [] {
      assert pieces[0] != [];
    }
  }

  // ----- BYDAY -----

  /** The weekdays the tokens name, in their order; other tokens name none. */
  function Weekdays(tokens: seq<string>, days: seq<int>): (r: seq<int>)
    requires forall w <- days :: 1 <= w <= 7
    ensures forall w <- r :: 1 <= w <= 7
  {
    if tokens == [] then days else Weekdays(tokens[1..], AddWeekday(days, tokens[0]))
  }

  lemma {:induction false} ByDayReadsTokens(val: string, p: nat, tokens: seq<string>, days: seq<int>)
    requires p <= |val| && val[p..] == Joined(tokens, ',') && Pieces(tokens, ',')
    requires forall w <- days :: 1 <= w <= 7
    ensures ByDayFrom(val, p, days) == Weekdays(tokens, days)
    decreases tokens
  {
    JoinedIsEmpty(tokens, ',');
    if tokens != [] {
      FirstPiece(val, p, ',', tokens);
      ByDayReadsTokens(val, After(val, Find(val, ',', p)), tokens[1..], AddWeekday(days, tokens[0]));
    }
  }

  function DayName(w: int): string {
    match w
    case 1 => "MO"
    case 2 => "TU"
    case 3 => "WE"
    case 4 => "TH"
    case 5 => "FR"
    case 6 => "SA"
    case _ => "SU"
  }

  function DayNames(days: seq<int>): (names: seq<string>)
    ensures |names| == |days| && forall i :: 0 <= i < |days| ==> names[i] == DayName(days[i])
  {
    if days == [] then [] else [DayName(days[0])] + DayNames(days[1..])
  }

  lemma DayNameIsRead(w: int)
    requires 1 <= w <= 7
    ensures WeekdayToken(DayName(w)) == Some(w) && DayName(w) != [] && ',' !in DayName(w) && ';' !in DayName(w)
  {
  }

  predicate Numeric(c: char) { c == '+' || c == '-' || '0' <= c <= '9' }

  lemma {:induction false} SkipNumberIs(t: string, prefix: string, name: string)
    requires t == prefix + name && (forall c <- prefix :: Numeric(c)) && (name == [] || !Numeric(name[0]))
    ensures SkipNumber(t) == name
    decreases prefix
  {
    if prefix == [] {
      assert t == name;
    } else {
      assert prefix[0] in prefix && t[0] == prefix[0] && t[1..] == prefix[1..] + name;
      assert forall c <- prefix[1..] :: c in prefix;
      SkipNumberIs(t[1..], prefix[1..], name);
    }
  }

  lemma {:induction false} NumberBefore(t: string) returns (prefix: string)
    ensures t == prefix + SkipNumber(t) && forall c <- prefix :: Numeric(c)
    decreases t
  {
    if t != [] && Numeric(t[0]) {
      var more := NumberBefore(t[1..]);
      prefix := [t[0]] + more;
    } else {
      prefix := [];
    }
  }

  /** A token names a weekday exactly when it is the name, with signs and digits before it or none. */
  lemma TokenNames(t: string, w: int)
    requires 1 <= w <= 7
    ensures WeekdayToken(t) == Some(w)
       <==> |t| >= 2 && t[|t| - 2..] == DayName(w) && forall k :: 0 <= k < |t| - 2 ==> Numeric(t[k])
  {
    if |t| >= 2 && t[|t| - 2..] == DayName(w) && forall k :: 0 <= k < |t| - 2 ==> Numeric(t[k]) {
      SkipNumberIs(t, t[..|t| - 2], t[|t| - 2..]);
    }
    if WeekdayToken(t) == Some(w) {
      var prefix := NumberBefore(t);
      assert |SkipNumber(t)| == 2 && SkipNumber(t) == DayName(w);
      assert t[..|t| - 2] == prefix && t[|t| - 2..] == SkipNumber(t);
      forall k | 0 <= k < |t| - 2
        ensures Numeric(t[k])
      {
        assert t[k] == prefix[k] && prefix[k] in prefix;
      }
    }
  }

  /** Tokens that each name a day give the days. */
  lemma {:induction false} NamedDays(tokens: seq<string>, named: seq<int>, days: seq<int>)
    requires |tokens| == |named| && (forall w <- days :: 1 <= w <= 7)
    requires forall i :: 0 <= i < |tokens| ==> WeekdayToken(tokens[i]) == Some(named[i]) && 1 <= named[i] <= 7
    ensures Weekdays(tokens, days) == days + named
    decreases tokens
  {
    if tokens != [] {
      NamedDays(tokens[1..], named[1..], days + [named[0]]);
      assert days + [named[0]] + named[1..] == days + named;
    }
  }

  lemma DayNamesAreRead(days: seq<int>)
    requires forall w <- days :: 1 <= w <= 7
    ensures ByDayFrom(Joined(DayNames(days), ','), 0, []) == days
  {
    var names, text := DayNames(days), Joined(DayNames(days), ',');
    forall i | 0 <= i < |names|
      ensures WeekdayToken(names[i]) == Some(days[i]) && 1 <= days[i] <= 7 && names[i] != [] && ',' !in names[i]
    {
      assert days[i] in days;
      DayNameIsRead(days[i]);
    }
    NamedDays(names, days, []);
    assert text[0..] == text;
    ByDayReadsTokens(text, 0, names, []);
  }

  // ----- EXDATE -----

  /** The instants of the pieces that can be read, each with the parameters of the line. */
  function Instants(dates: DateReader, prop: PropertyLine, pieces: seq<string>): seq<int> {
    if pieces == [] then []
    else
      var dt := dates(prop.(value := pieces[0]));
      (if dt.Some? then [dt.value.instant] else []) + Instants(dates, prop, pieces[1..])
  }

  function AddInstant(dates: DateReader, prop: PropertyLine, exdates: seq<int>, piece: string): seq<int> {
    var dt := dates(prop.(value := piece));
    if dt.Some? then exdates + [dt.value.instant] else exdates
  }

  lemma OneMoreInstant(dates: DateReader, prop: PropertyLine, pieces: seq<string>, exdates: seq<int>)
    requires pieces != []
    ensures AddInstant(dates, prop, exdates, pieces[0]) + Instants(dates, prop, pieces[1..]) == exdates + Instants(dates, prop, pieces)
  {
  }

  lemma NextExdate(dates: DateReader, prop: PropertyLine, p: nat, exdates: seq<int>)
    requires p < |prop.value|
    ensures var comma := Find(prop.value, ',', p);
            ExdatesFrom(dates, prop, p, exdates)
            == ExdatesFrom(dates, prop, After(prop.value, comma), AddInstant(dates, prop, exdates, prop.value[p..comma]))
  {
  }

  lemma {:induction false} ExdatesReadPieces(dates: DateReader, prop: PropertyLine, p: nat, pieces: seq<string>, exdates: seq<int>)
    requires p <= |prop.value| && prop.value[p..] == Joined(pieces, ',') && Pieces(pieces, ',')
    ensures ExdatesFrom(dates, prop, p, exdates) == exdates + Instants(dates, prop, pieces)
    decreases pieces
  {
    JoinedIsEmpty(pieces, ',');
    if pieces == [] {
      assert exdates + [] == exdates;
    } else {
      FirstPiece(prop.value, p, ',', pieces);
      NextExdate(dates, prop, p, exdates);
      var next, more := After(prop.value, Find(prop.value, ',', p)), AddInstant(dates, prop, exdates, pieces[0]);
      ExdatesReadPieces(dates, prop, next, pieces[1..], more);
      OneMoreInstant(dates, prop, pieces, exdates);
    }
  }

  /** A comma-separated EXDATE gives the instants of its pieces, in order. */
  lemma ExdateListIsRead(dates: DateReader, prop: PropertyLine, pieces: seq<string>, exdates: seq<int>)
    requires prop.value == Joined(pieces, ',') && Pieces(pieces, ',')
    ensures ExdatesFrom(dates, prop, 0, exdates) == exdates + Instants(dates, prop, pieces)
  {
    assert prop.value[0..] == prop.value;
    ExdatesReadPieces(dates, prop, 0, pieces, exdates);
  }

  // ----- numbers -----

  function Digits(n: nat): (s: string)
    ensures s != [] && forall c <- s :: IsDigit(c)
  {
    (if n < 10 then [] else Digits(n / 10)) + [('0' as int + n % 10) as char]
  }

  lemma {:induction false} DecimalOfDigits(n: nat)
    ensures Decimal(Digits(n)) == n
    decreases n
  {
    var s := Digits(n);
    var last := ('0' as int + n % 10) as char;
    assert DigitValue(last) == n % 10;
    if n >= 10 {
      DecimalOfDigits(n / 10);
      assert s[..|s| - 1] == Digits(n / 10);
    } else {
      assert s[..|s| - 1] == [];
    }
  }

  lemma {:induction false} DigitsToEnd(s: string, from: nat)
    requires from <= |s| && forall c <- s :: IsDigit(c)
    ensures DigitsEnd(s, from) == |s|
    decreases |s| - from
  {
    if from < |s| {
      assert s[from] in s;
      DigitsToEnd(s, from + 1);
    }
  }

  lemma NumberIsRead(n: nat)
    requires n <= IcalText.INT_MAX
    ensures ToInt(Digits(n)) == n && ';' !in Digits(n)
  {
    var s := Digits(n);
    assert s[0] in s;
    DigitsToEnd(s, 0);
    DecimalOfDigits(n);
    assert s[0..|s|] == s;
  }

  lemma {:induction false} ZerosBefore(zeros: string, digits: string)
    requires forall k :: 0 <= k < |zeros| ==> zeros[k] == '0'
    ensures Decimal(zeros + digits) == Decimal(digits)
    decreases |zeros| + |digits|
  {
    var all := zeros + digits;
    if digits != [] {
      assert all[..|all| - 1] == zeros + digits[..|digits| - 1];
      ZerosBefore(zeros, digits[..|digits| - 1]);
    } else if zeros != [] {
      assert all[..|all| - 1] == zeros[..|zeros| - 1] + digits;
      ZerosBefore(zeros[..|zeros| - 1], digits);
    }
  }

  lemma {:induction false} DigitsStop(s: string, from: nat, end: nat)
    requires from <= end <= |s| && (forall k :: from <= k < end ==> IsDigit(s[k])) && (end == |s| || !IsDigit(s[end]))
    ensures DigitsEnd(s, from) == end
    decreases end - from
  {
    if from < end {
      DigitsStop(s, from + 1, end);
    }
  }

  function InRange(value: int): int {
    if -0x8000_0000 <= value <= 0x7FFF_FFFF then value else 0
  }

  lemma DigitsFrom(s: string, start: nat, end: nat, digits: string)
    requires start < end <= |s| && digits == s[start..end] && start == if s[0] == '-' then 1 else 0
    requires (forall k :: start <= k < end ==> IsDigit(s[k])) && (end == |s| || !IsDigit(s[end]))
    ensures ToInt(s) == InRange(if start == 1 then 0 - Decimal(digits) else Decimal(digits))
  {
    DigitsStop(s, start, end);
  }

  lemma SignedDigits(sign: string, digits: string, rest: string)
    requires sign == [] || sign == ['-']
    requires digits != [] && (forall k :: 0 <= k < |digits| ==> IsDigit(digits[k])) && (rest == [] || !IsDigit(rest[0]))
    ensures ToInt(sign + digits + rest) == InRange(if sign == [] then Decimal(digits) else 0 - Decimal(digits))
  {
    var s := sign + digits + rest;
    DigitsStand(s, sign, digits, rest);
    DigitsFrom(s, |sign|, |sign| + |digits|, digits);
  }

  lemma DigitsStand(s: string, sign: string, digits: string, rest: string)
    requires s == sign + digits + rest && (sign == [] || sign == ['-']) && digits != []
    requires (forall k :: 0 <= k < |digits| ==> IsDigit(digits[k])) && (rest == [] || !IsDigit(rest[0]))
    ensures var start, end := |sign|, |sign| + |digits|;
            && end <= |s| && digits == s[start..end] && start == (if s[0] == '-' then 1 else 0)
            && (forall k :: start <= k < end ==> IsDigit(s[k])) && (end == |s| || !IsDigit(s[end]))
  {
    var start, end := |sign|, |sign| + |digits|;
    assert s[0] == if sign == [] then digits[0] else '-';
    forall k | start <= k < end
      ensures IsDigit(s[k])
    {
      assert s[k] == digits[k - start];
    }
    assert rest != [] ==> s[end] == rest[0];
  }

  /** A number with zeros before it and anything but a digit behind it: it is read with its sign, and as 0 when it does not
      fit an `int`. */
  lemma IntegerIsRead(zeros: string, n: nat, rest: string)
    requires (forall k :: 0 <= k < |zeros| ==> zeros[k] == '0') && (rest == [] || !IsDigit(rest[0]))
    ensures ToInt([] + (zeros + Digits(n)) + rest) == InRange(n)
    ensures ToInt(['-'] + (zeros + Digits(n)) + rest) == InRange(0 - n)
  {
    var digits := zeros + Digits(n);
    forall k | 0 <= k < |digits|
      ensures IsDigit(digits[k])
    {
      assert digits[k] == if k < |zeros| then '0' else Digits(n)[k - |zeros|];
      assert k >= |zeros| ==> digits[k] in Digits(n);
    }
    ZerosBefore(zeros, Digits(n));
    DecimalOfDigits(n);
    SignedDigits([], digits, rest);
    SignedDigits(['-'], digits, rest);
  }

  /** Without a digit at the front, or behind a minus at the front, there is no number: 0. */
  lemma NoInteger(s: string)
    requires s == [] || (!IsDigit(s[0]) && (s[0] == '-' ==> |s| == 1 || !IsDigit(s[1])))
    ensures ToInt(s) == 0
  {
  }

  /** A frequency that is not known leaves the one before. */
  lemma UnknownFreqStays(val: string, freq: Freq)
    requires val !in {"DAILY", "WEEKLY", "MONTHLY", "YEARLY"}
    ensures FreqNamed(val, freq) == freq
  {
  }

  // ----- parts -----

  /** The parts of a rule read one after another. */
  function ReadAll(dates: DateReader, parts: seq<string>, rule: RRule): (r: RRule)
    requires ValidRule(rule)
    ensures ValidRule(r)
  {
    if parts == [] then rule else ReadAll(dates, parts[1..], ReadPart(dates, rule, parts[0]))
  }

  lemma {:induction false} PartsAreRead(dates: DateReader, value: string, pos: nat, parts: seq<string>, rule: RRule)
    requires pos <= |value| && value[pos..] == Joined(parts, ';') && Pieces(parts, ';') && ValidRule(rule)
    ensures PartsFrom(dates, value, pos, rule) == ReadAll(dates, parts, rule)
    decreases parts
  {
    JoinedIsEmpty(parts, ';');
    if parts != [] {
      FirstPiece(value, pos, ';', parts);
      PartsAreRead(dates, value, After(value, Find(value, ';', pos)), parts[1..], ReadPart(dates, rule, parts[0]));
    }
  }

  function Part(key: string, val: string): string {
    key + "=" + val
  }

  /** The key and the value, without searching for them. */
  function ReadKey(dates: DateReader, rule: RRule, key: string, val: string): (r: RRule)
    requires ValidRule(rule)
  {
    if key == "FREQ" then rule.(freq := FreqNamed(val, rule.freq))
    else if key == "INTERVAL" then rule.(interval := if ToInt(val) < 1 then 1 else ToInt(val))
    else if key == "COUNT" then rule.(count := ToInt(val))
    else if key == "UNTIL" then
      match dates(NO_PROPERTY.(value := val)) {
        case Some(dt) => rule.(until := Some(dt.instant))
        case None => rule
      }
    else if key == "BYDAY" then rule.(byDay := ByDayFrom(val, 0, rule.byDay))
    else rule
  }

  lemma PartIsRead(dates: DateReader, rule: RRule, key: string, val: string)
    requires ValidRule(rule) && '=' !in key
    ensures ReadPart(dates, rule, Part(key, val)) == ReadKey(dates, rule, key, val)
  {
    var part := Part(key, val);
    var eq := Find(part, '=', 0);
    assert part[|key|] == '=';
    assert forall k :: 0 <= k < |key| ==> part[k] == key[k];
    assert eq == |key|;
    assert part[..eq] == key && part[eq + 1..] == val;
  }

  function FreqName(freq: Freq): string
    requires freq != NoFreq
  {
    match freq
    case Daily => "DAILY"
    case Weekly => "WEEKLY"
    case Monthly => "MONTHLY"
    case Yearly => "YEARLY"
    case _ => ""
  }

  lemma FreqIsRead(dates: DateReader, rule: RRule, freq: Freq)
    requires ValidRule(rule) && freq != NoFreq
    ensures ReadPart(dates, rule, Part("FREQ", FreqName(freq))) == rule.(freq := freq)
  {
    PartIsRead(dates, rule, "FREQ", FreqName(freq));
  }

  lemma IntervalIsRead(dates: DateReader, rule: RRule, n: nat)
    requires ValidRule(rule) && 1 <= n <= IcalText.INT_MAX
    ensures ReadPart(dates, rule, Part("INTERVAL", Digits(n))) == rule.(interval := n)
  {
    PartIsRead(dates, rule, "INTERVAL", Digits(n));
    NumberIsRead(n);
  }

  lemma CountIsRead(dates: DateReader, rule: RRule, n: nat)
    requires ValidRule(rule) && n <= IcalText.INT_MAX
    ensures ReadPart(dates, rule, Part("COUNT", Digits(n))) == rule.(count := n)
  {
    PartIsRead(dates, rule, "COUNT", Digits(n));
    NumberIsRead(n);
  }

  lemma UntilIsRead(dates: DateReader, rule: RRule, text: string)
    requires ValidRule(rule) && dates(NO_PROPERTY.(value := text)).Some?
    ensures ReadPart(dates, rule, Part("UNTIL", text)) == rule.(until := Some(dates(NO_PROPERTY.(value := text)).value.instant))
  {
    PartIsRead(dates, rule, "UNTIL", text);
  }

  lemma ByDayIsRead(dates: DateReader, rule: RRule, days: seq<int>)
    requires ValidRule(rule) && rule.byDay == [] && forall w <- days :: 1 <= w <= 7
    ensures ReadPart(dates, rule, Part("BYDAY", Joined(DayNames(days), ','))) == rule.(byDay := days)
  {
    PartIsRead(dates, rule, "BYDAY", Joined(DayNames(days), ','));
    DayNamesAreRead(days);
  }

  lemma {:induction false} NoSemicolon(days: seq<int>)
    requires forall w <- days :: 1 <= w <= 7
    ensures ';' !in Joined(DayNames(days), ',')
    decreases days
  {
    if days != [] {
      assert days[0] in days && forall w <- days[1..] :: w in days;
      DayNameIsRead(days[0]);
      NoSemicolon(days[1..]);
    }
  }

  lemma ReadOne(dates: DateReader, part: string, rule: RRule, r: RRule)
    requires ValidRule(rule) && ReadPart(dates, rule, part) == r
    ensures ReadAll(dates, [part], rule) == r
  {
  }

  lemma {:induction false} ReadMore(dates: DateReader, a: seq<string>, b: seq<string>, rule: RRule)
    requires ValidRule(rule)
    ensures ReadAll(dates, a + b, rule) == ReadAll(dates, b, ReadAll(dates, a, rule))
    decreases a
  {
    if a == [] {
      assert a + b == b;
    } else {
      assert (a + b)[1..] == a[1..] + b;
      ReadMore(dates, a[1..], b, ReadPart(dates, rule, a[0]));
    }
  }

  lemma PartIsApart(key: string, val: string)
    requires key != [] && ';' !in key && ';' !in val
    ensures Part(key, val) != [] && ';' !in Part(key, val)
  {
  }

  // ----- whole rules -----

  /** A part of a rule; `Other` is one the parser does not know. */
  datatype RulePart =
    | FreqPart(freq: Freq)
    | IntervalPart(n: nat)
    | CountPart(n: nat)
    | UntilPart(text: string)
    | ByDayPart(days: seq<int>)
    | OtherPart(key: string, val: string)

  function TextOf(part: RulePart): string
    requires part.FreqPart? ==> part.freq != NoFreq
  {
    match part
    case FreqPart(freq) => Part("FREQ", FreqName(freq))
    case IntervalPart(n) => Part("INTERVAL", Digits(n))
    case CountPart(n) => Part("COUNT", Digits(n))
    case UntilPart(text) => Part("UNTIL", text)
    case ByDayPart(days) => Part("BYDAY", Joined(DayNames(days), ','))
    case OtherPart(key, val) => Part(key, val)
  }

  predicate KnownKey(key: string) {
    key == "FREQ" || key == "INTERVAL" || key == "COUNT" || key == "UNTIL" || key == "BYDAY"
  }

  /** The part can be written, in the form of section 3.3.10 of RFC 5545. */
  predicate WellFormedPart(dates: DateReader, part: RulePart) {
    match part
    case FreqPart(freq) => freq != NoFreq
    case IntervalPart(n) => 1 <= n <= IcalText.INT_MAX
    case CountPart(n) => 1 <= n <= IcalText.INT_MAX
    case UntilPart(text) => ';' !in text && dates(NO_PROPERTY.(value := text)).Some?
    case ByDayPart(days) => days != [] && forall w <- days :: 1 <= w <= 7
    case OtherPart(key, val) => key != [] && ';' !in key && '=' !in key && ';' !in val && !KnownKey(key)
  }

  predicate SameKind(a: RulePart, b: RulePart) {
    (a.FreqPart? && b.FreqPart?) || (a.IntervalPart? && b.IntervalPart?) || (a.CountPart? && b.CountPart?)
    || (a.UntilPart? && b.UntilPart?) || (a.ByDayPart? && b.ByDayPart?)
  }

  /** No part is given twice. */
  ghost predicate WellFormedParts(dates: DateReader, parts: seq<RulePart>) {
    && (forall p <- parts :: WellFormedPart(dates, p))
    && forall i, j :: 0 <= i < j < |parts| ==> !SameKind(parts[i], parts[j])
  }

  /** The rule has what the part says. */
  predicate Says(dates: DateReader, part: RulePart, rule: RRule) {
    match part
    case FreqPart(freq) => rule.freq == freq
    case IntervalPart(n) => rule.interval == n
    case CountPart(n) => rule.count == n
    case UntilPart(text) =>
      var dt := dates(NO_PROPERTY.(value := text));
      dt.Some? && rule.until == Some(dt.value.instant)
    case ByDayPart(days) => rule.byDay == days
    case OtherPart(_, _) => true
  }

  /** The parts, in whatever order, say what the rule has, and what they do not say it has as the format's default. */
  ghost predicate Describes(dates: DateReader, parts: seq<RulePart>, rule: RRule) {
    && (forall p <- parts :: Says(dates, p, rule))
    && ((forall p <- parts :: !p.FreqPart?) ==> rule.freq == NoFreq)
    && ((forall p <- parts :: !p.IntervalPart?) ==> rule.interval == 1)
    && ((forall p <- parts :: !p.CountPart?) ==> rule.count == 0)
    && ((forall p <- parts :: !p.UntilPart?) ==> rule.until == None)
    && ((forall p <- parts :: !p.ByDayPart?) ==> rule.byDay == [])
  }

  /** The rule with what one more part says. */
  function With(dates: DateReader, rule: RRule, part: RulePart): (r: RRule)
    requires ValidRule(rule) && WellFormedPart(dates, part)
    ensures ValidRule(r)
  {
    match part
    case FreqPart(freq) => rule.(freq := freq)
    case IntervalPart(n) => rule.(interval := n)
    case CountPart(n) => rule.(count := n)
    case UntilPart(text) => rule.(until := Some(dates(NO_PROPERTY.(value := text)).value.instant))
    case ByDayPart(days) => rule.(byDay := days)
    case OtherPart(_, _) => rule
  }

  lemma OnePartIsRead(dates: DateReader, rule: RRule, part: RulePart)
    requires ValidRule(rule) && WellFormedPart(dates, part) && (part.ByDayPart? ==> rule.byDay == [])
    ensures ReadPart(dates, rule, TextOf(part)) == With(dates, rule, part)
  {
    match part
    case FreqPart(freq) => FreqIsRead(dates, rule, freq);
    case IntervalPart(n) => IntervalIsRead(dates, rule, n);
    case CountPart(n) => CountIsRead(dates, rule, n);
    case UntilPart(text) => UntilIsRead(dates, rule, text);
    case ByDayPart(days) => ByDayIsRead(dates, rule, days);
    case OtherPart(key, val) => PartIsRead(dates, rule, key, val);
  }

  lemma TextIsApart(dates: DateReader, part: RulePart)
    requires WellFormedPart(dates, part)
    ensures TextOf(part) != [] && ';' !in TextOf(part)
  {
    match part
    case FreqPart(freq) => PartIsApart("FREQ", FreqName(freq));
    case IntervalPart(n) =>
      NumberIsRead(n);
      PartIsApart("INTERVAL", Digits(n));
    case CountPart(n) =>
      NumberIsRead(n);
      PartIsApart("COUNT", Digits(n));
    case UntilPart(text) => PartIsApart("UNTIL", text);
    case ByDayPart(days) =>
      NoSemicolon(days);
      PartIsApart("BYDAY", Joined(DayNames(days), ','));
    case OtherPart(key, val) => PartIsApart(key, val);
  }

  function Texts(parts: seq<RulePart>): (texts: seq<string>)
    requires forall p <- parts :: p.FreqPart? ==> p.freq != NoFreq
    ensures |texts| == |parts| && forall i :: 0 <= i < |parts| ==> texts[i] == TextOf(parts[i])
  {
    if parts == [] then [] else Texts(parts[..|parts| - 1]) + [TextOf(parts[|parts| - 1])]
  }

  lemma PartsBefore(dates: DateReader, before: seq<RulePart>, last: RulePart)
    requires WellFormedParts(dates, before + [last])
    ensures WellFormedParts(dates, before) && WellFormedPart(dates, last) && forall p <- before :: !SameKind(p, last)
  {
    var parts := before + [last];
    assert last in parts && forall p <- before :: p in parts;
    assert forall i :: 0 <= i < |before| ==> parts[i] == before[i];
    forall p | p in before
      ensures !SameKind(p, last)
    {
      var i :| 0 <= i < |before| && before[i] == p;
      assert parts[i] == p && parts[|before|] == last;
    }
  }

  lemma LastIsRead(dates: DateReader, before: seq<RulePart>, last: RulePart, r: RRule)
    requires WellFormedParts(dates, before + [last]) && ValidRule(r) && Describes(dates, before, r)
    requires (forall p <- before :: p.FreqPart? ==> p.freq != NoFreq) && r == ReadAll(dates, Texts(before), NO_RULE)
    requires WellFormedPart(dates, last)
    ensures ReadAll(dates, Texts(before) + [TextOf(last)], NO_RULE) == With(dates, r, last)
  {
    PartsBefore(dates, before, last);
    OnePartIsRead(dates, r, last);
    ReadMore(dates, Texts(before), [TextOf(last)], NO_RULE);
    ReadOne(dates, TextOf(last), r, With(dates, r, last));
  }

  lemma {:induction false} AllPartsAreRead(dates: DateReader, parts: seq<RulePart>) returns (rule: RRule)
    requires WellFormedParts(dates, parts)
    ensures rule == ReadAll(dates, Texts(parts), NO_RULE) && ValidRule(rule) && Describes(dates, parts, rule)
    decreases parts
  {
    if parts == [] {
      rule := NO_RULE;
    } else {
      var before, last := parts[..|parts| - 1], parts[|parts| - 1];
      assert parts == before + [last];
      PartsBefore(dates, before, last);
      var r := AllPartsAreRead(dates, before);
      LastIsRead(dates, before, last, r);
      LastDescribes(dates, before, last, r);
      rule := With(dates, r, last);
    }
  }

  lemma LastDescribes(dates: DateReader, before: seq<RulePart>, last: RulePart, r: RRule)
    requires Describes(dates, before, r) && ValidRule(r) && WellFormedPart(dates, last)
    requires forall p <- before :: !SameKind(p, last)
    ensures Describes(dates, before + [last], With(dates, r, last))
  {
    assert last in before + [last] && forall p <- before :: p in before + [last];
    forall p | p in before + [last]
      ensures Says(dates, p, With(dates, r, last))
    {
      assert p == last || p in before;
    }
  }

  lemma OneIsDescribed(dates: DateReader, parts: seq<RulePart>, a: RRule, b: RRule)
    requires Describes(dates, parts, a) && Describes(dates, parts, b)
    ensures a == b
  {
    assert (exists p :: p in parts && p.FreqPart?) ==> a.freq == b.freq;
    assert (exists p :: p in parts && p.IntervalPart?) ==> a.interval == b.interval;
    assert (exists p :: p in parts && p.CountPart?) ==> a.count == b.count;
    assert (exists p :: p in parts && p.UntilPart?) ==> a.until == b.until;
    assert (exists p :: p in parts && p.ByDayPart?) ==> a.byDay == b.byDay;
  }

  /** A rule written out in parts, in any order and with any of them left out, is read back as it was. */
  lemma RuleReadsBack(dates: DateReader, parts: seq<RulePart>, rule: RRule)
    requires WellFormedParts(dates, parts) && Describes(dates, parts, rule)
    ensures Rule(dates, Joined(Texts(parts), ';')) == rule
  {
    var texts, text := Texts(parts), Joined(Texts(parts), ';');
    forall i | 0 <= i < |texts|
      ensures texts[i] != [] && ';' !in texts[i]
    {
      TextIsApart(dates, parts[i]);
    }
    assert text[0..] == text;
    PartsAreRead(dates, text, 0, texts, NO_RULE);
    var r := AllPartsAreRead(dates, parts);
    OneIsDescribed(dates, parts, r, rule);
  }

  /** The shortest writing of a rule; `until` is the text of its UNTIL. */
  function Written(rule: RRule, until: string): seq<RulePart>
    requires rule.interval >= 0 && rule.count >= 0
  {
    [FreqPart(rule.freq)]
    + (if rule.interval != 1 then [IntervalPart(rule.interval)] else [])
    + (if rule.count != 0 then [CountPart(rule.count)] else [])
    + (if rule.until.Some? then [UntilPart(until)] else [])
    + (if rule.byDay != [] then [ByDayPart(rule.byDay)] else [])
  }

  function Rank(part: RulePart): nat {
    match part
    case FreqPart(_) => 0
    case IntervalPart(_) => 1
    case CountPart(_) => 2
    case UntilPart(_) => 3
    case ByDayPart(_) => 4
    case OtherPart(_, _) => 5
  }

  /** These parts say this rule, and all rank below `k`. */
  ghost predicate SaysBelow(dates: DateReader, parts: seq<RulePart>, rule: RRule, k: nat) {
    ValidRule(rule) && WellFormedParts(dates, parts) && Describes(dates, parts, rule) && forall p <- parts :: Rank(p) < k
  }

  lemma SaysMore(dates: DateReader, parts: seq<RulePart>, rule: RRule, part: RulePart)
    requires WellFormedPart(dates, part) && SaysBelow(dates, parts, rule, Rank(part))
    ensures SaysBelow(dates, parts + [part], With(dates, rule, part), Rank(part) + 1)
  {
    forall p | p in parts
      ensures !SameKind(p, part)
    {
    }
    LastDescribes(dates, parts, part, rule);
    var more := parts + [part];
    forall i, j | 0 <= i < j < |more|
      ensures !SameKind(more[i], more[j])
    {
      assert i < |parts| && more[i] == parts[i] && more[i] in parts;
      assert j < |parts| ==> more[j] == parts[j];
    }
  }

  lemma SaysMoreOrNot(dates: DateReader, parts: seq<RulePart>, rule: RRule, part: RulePart, given: bool)
    requires SaysBelow(dates, parts, rule, Rank(part)) && (given ==> WellFormedPart(dates, part))
    ensures SaysBelow(dates, parts + if given then [part] else [], if given then With(dates, rule, part) else rule, Rank(part) + 1)
  {
    if given {
      SaysMore(dates, parts, rule, part);
    } else {
      assert parts + [] == parts;
    }
  }

  /** Every rule the expansion supports can be written so. */
  lemma EveryRuleIsWritten(dates: DateReader, rule: RRule, until: string)
    requires rule.freq != NoFreq && ValidRule(rule) && rule.interval <= IcalText.INT_MAX && 0 <= rule.count <= IcalText.INT_MAX
    requires rule.until.Some? ==> WellFormedPart(dates, UntilPart(until)) && Says(dates, UntilPart(until), rule)
    ensures WellFormedParts(dates, Written(rule, until)) && Describes(dates, Written(rule, until), rule)
    ensures Rule(dates, Joined(Texts(Written(rule, until)), ';')) == rule
  {
    var interval, count, byDay := IntervalPart(rule.interval), CountPart(rule.count), ByDayPart(rule.byDay);
    var p0, r0 := [FreqPart(rule.freq)], NO_RULE.(freq := rule.freq);
    assert [] + p0 == p0;
    SaysMore(dates, [], NO_RULE, FreqPart(rule.freq));
    SaysMoreOrNot(dates, p0, r0, interval, rule.interval != 1);
    var p1, r1 := p0 + (if rule.interval != 1 then [interval] else []), r0.(interval := rule.interval);
    SaysMoreOrNot(dates, p1, r1, count, rule.count != 0);
    var p2, r2 := p1 + (if rule.count != 0 then [count] else []), r1.(count := rule.count);
    SaysMoreOrNot(dates, p2, r2, UntilPart(until), rule.until.Some?);
    var p3, r3 := p2 + (if rule.until.Some? then [UntilPart(until)] else []), r2.(until := rule.until);
    SaysMoreOrNot(dates, p3, r3, byDay, rule.byDay != []);
    RuleReadsBack(dates, Written(rule, until), rule);
  }
}
