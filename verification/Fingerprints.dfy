/** The fingerprint of the legacy issues of a configuration: the hashes of the issues, joined by commas. */
module Fingerprints {
  import opened Wrappers

  type Hash = n: nat | n < 0x1_0000_0000_0000_0000

  const DIGITS := "0123456789abcdef"

  /** `n` digits of base sixteen, most significant first: `{:016x}` for sixteen. */
  function Hex(value: nat, n: nat): (text: string)
    ensures |text| == n && ',' !in text
  {
    if n == 0 then "" else Hex(value / 16, n - 1) + [DIGITS[value % 16]]
  }

  function Power16(n: nat): nat {
    if n == 0 then 1 else 16 * Power16(n - 1)
  }

  lemma DigitsDiffer(i: nat, j: nat)
    requires i < 16 && j < 16 && DIGITS[i] == DIGITS[j]
    ensures i == j
  {
  }

  lemma {:induction false} HexIsInjective(a: nat, b: nat, n: nat)
    requires a < Power16(n) && b < Power16(n) && Hex(a, n) == Hex(b, n)
    ensures a == b
    decreases n
  {
    if n > 0 {
      var s, t := Hex(a, n), Hex(b, n);
      assert s[..n - 1] == Hex(a / 16, n - 1) && t[..n - 1] == Hex(b / 16, n - 1);
      assert s[n - 1] == DIGITS[a % 16] && t[n - 1] == DIGITS[b % 16];
      DigitsDiffer(a % 16, b % 16);
      HexIsInjective(a / 16, b / 16, n - 1);
    }
  }

  function DigitOf(c: char): int {
    if '0' <= c <= '9' then c as int - '0' as int else c as int - 'a' as int + 10
  }

  function NumberOf(digits: string): int {
    if digits == "" then 0 else 16 * NumberOf(digits[..|digits| - 1]) + DigitOf(digits[|digits| - 1])
  }

  lemma DigitIs(d: nat)
    requires d < 16
    ensures DigitOf(DIGITS[d]) == d
  {
  }

  /** The digits are those of the number. */
  lemma {:induction false} HexReadsBack(value: nat, n: nat)
    requires value < Power16(n)
    ensures NumberOf(Hex(value, n)) == value
    decreases n
  {
    if n > 0 {
      var s := Hex(value, n);
      assert s[..n - 1] == Hex(value / 16, n - 1) && s[n - 1] == DIGITS[value % 16];
      DigitIs(value % 16);
      HexReadsBack(value / 16, n - 1);
    }
  }

  // ----- joining and splitting -----

  function SetOf<T>(s: seq<T>): set<T> {
    set e | e in s
  }

  predicate Entry(e: string) {
    e != "" && ',' !in e
  }

  function Join(entries: seq<string>): string {
    if entries == [] then ""
    else
      var before, last := Join(entries[..|entries| - 1]), entries[|entries| - 1];
      if before != "" then before + "," + last else last
  }

  /** The entries a text has closed with a comma, and the one it is in. */
  datatype Reading = Reading(entries: set<string>, current: string) {
    function Closed(): set<string> {
      if current != "" then entries + {current} else entries
    }
  }

  function Read(text: string): Reading {
    if text == "" then Reading({}, "")
    else
      var before, c := Read(text[..|text| - 1]), text[|text| - 1];
      if c == ',' then Reading(before.Closed(), "") else before.(current := before.current + [c])
  }

  /** The non-empty pieces of the text between commas. */
  function Pieces(text: string): set<string> {
    Read(text).Closed()
  }

  lemma {:induction false} ReadWithoutComma(text: string, piece: string)
    requires ',' !in piece
    ensures Read(text + piece) == Read(text).(current := Read(text).current + piece)
    ensures Read(text).current == "" ==> Read(text + piece) == Read(text).(current := piece)
    decreases piece
  {
    if piece == "" {
      assert text + piece == text;
    } else {
      var shorter, c := piece[..|piece| - 1], piece[|piece| - 1];
      assert (text + piece)[..|text + piece| - 1] == text + shorter;
      ReadWithoutComma(text, shorter);
      assert shorter + [c] == piece;
      assert Read(text).current + shorter + [c] == Read(text).current + piece;
    }
  }

  lemma ReadComma(text: string)
    ensures Read(text + ",") == Reading(Pieces(text), "")
  {
    assert (text + ",")[..|text|] == text;
  }

  lemma ReadPiece(text: string, start: nat, end: nat)
    requires start <= end <= |text| && ',' !in text[start..end] && Read(text[..start]).current == ""
    ensures Read(text[..end]) == Read(text[..start]).(current := text[start..end])
  {
    ReadWithoutComma(text[..start], text[start..end]);
    SliceJoins(text, start, end);
  }

  lemma SliceJoins<T>(s: seq<T>, start: nat, end: nat)
    requires start <= end <= |s|
    ensures s[..start] + s[start..end] == s[..end]
  {
  }

  lemma ReadNext(text: string, end: nat)
    requires end < |text| && text[end] == ','
    ensures Read(text[..end + 1]) == Reading(Pieces(text[..end]), "")
  {
    assert text[..end + 1][..end] == text[..end];
  }

  /** Where the next comma is, from `start`, or the end. */
  method FindComma(text: string, start: nat) returns (end: nat)
    requires start <= |text|
    ensures start <= end <= |text| && ',' !in text[start..end] && (end < |text| ==> text[end] == ',')
  {
    end := start;
    while end < |text| && text[end] != ','
      invariant start <= end <= |text| && ',' !in text[start..end]
    {
      end := end + 1;
    }
  }

  method SplitFingerprint(fingerprint: string) returns (entries: set<string>)
    ensures entries == Pieces(fingerprint)
  {
    entries := {};
    var start := 0;
    while start < |fingerprint|
      invariant 0 <= start <= |fingerprint| && Read(fingerprint[..start]) == Reading(entries, "")
    {
      var end := FindComma(fingerprint, start);
      var piece := fingerprint[start..end];
      ReadPiece(fingerprint, start, end);
      if end > start {
        entries := entries + {piece};
      }
      if end == |fingerprint| {
        assert fingerprint[..end] == fingerprint;
        return;
      }
      ReadNext(fingerprint, end);
      start := end + 1;
    }
    assert fingerprint[..start] == fingerprint;
  }

  /** Splitting undoes joining. */
  lemma {:induction false} SplitOfJoin(entries: seq<string>)
    requires forall e <- entries :: Entry(e)
    ensures Pieces(Join(entries)) == SetOf(entries)
    ensures Join(entries) == "" <==> entries == []
    decreases entries
  {
    if entries != [] {
      var before, last := entries[..|entries| - 1], entries[|entries| - 1];
      SplitOfJoin(before);
      assert entries == before + [last] && last in entries;
      if Join(before) != "" {
        ReadComma(Join(before));
        ReadWithoutComma(Join(before) + ",", last);
      } else {
        ReadWithoutComma("", last);
        assert "" + last == last;
      }
    }
  }

  // ----- fingerprints -----

  lemma SetOfAppended<T>(s: seq<T>, e: T)
    ensures SetOf(s + [e]) == SetOf(s) + {e}
  {
  }

  function HexOf(h: Hash): string {
    Hex(h, 16)
  }

  function HexSet(hashes: set<Hash>): set<string> {
    set h | h in hashes :: HexOf(h)
  }

  ghost predicate Lists(list: seq<string>, hashes: set<Hash>) {
    SetOf(list) == HexSet(hashes)
  }

  lemma SplitOfListed(list: seq<string>, hashes: set<Hash>)
    requires Lists(list, hashes)
    ensures Pieces(Join(list)) == HexSet(hashes)
  {
    forall e | e in list
      ensures Entry(e)
    {
      assert e in SetOf(list);
    }
    SplitOfJoin(list);
  }

  /** `legacyConfigIssueFingerprint`: the hashes in hexadecimal, each once, whatever their order. */
  method Fingerprint(hashes: seq<Hash>) returns (fingerprint: string, ghost list: seq<string>)
    ensures Lists(list, SetOf(hashes)) && fingerprint == Join(list)
    ensures forall i, j :: 0 <= i < j < |list| ==> list[i] != list[j]
    ensures Pieces(fingerprint) == HexSet(SetOf(hashes))
  {
    var entries: set<string> := {};
    var i := 0;
    while i < |hashes|
      invariant 0 <= i <= |hashes|
      invariant entries == HexSet(SetOf(hashes[..i]))
    {
      assert hashes[..i + 1] == hashes[..i] + [hashes[i]];
      entries := entries + {HexOf(hashes[i])};
      i := i + 1;
    }
    assert hashes[..i] == hashes;
    fingerprint, list := "", [];
    ghost var all := entries;
    while entries != {}
      invariant entries <= all && SetOf(list) == all - entries
      invariant fingerprint == Join(list)
      invariant forall i, j :: 0 <= i < j < |list| ==> list[i] != list[j]
      decreases entries
    {
      var entry :| entry in entries;
      entries := entries - {entry};
      assert entry !in SetOf(list);
      ghost var longer := list + [entry];
      assert longer[..|list|] == list;
      if fingerprint != "" {
        fingerprint := fingerprint + ",";
      }
      fingerprint := fingerprint + entry;
      SetOfAppended(list, entry);
      list := longer;
    }
    SplitOfListed(list, SetOf(hashes));
  }

  method HasNewIssues(currentFingerprint: string, previousFingerprint: string) returns (hasNew: bool)
    ensures hasNew <==> !(Pieces(currentFingerprint) <= Pieces(previousFingerprint))
  {
    var current := SplitFingerprint(currentFingerprint);
    var previous := SplitFingerprint(previousFingerprint);
    hasNew := exists e :: e in current && e !in previous;
  }

  lemma HexPower()
    ensures Power16(16) == 0x1_0000_0000_0000_0000
  {
    assert Power16(4) == 0x1_0000;
    assert Power16(8) == 0x1_0000_0000;
    assert Power16(12) == 0x1_0000_0000_0000;
  }

  /** There are new issues exactly when some hash was not there before. */
  lemma NewIssuesAreNewHashes(current: seq<string>, previous: seq<string>, now: set<Hash>, before: set<Hash>)
    requires Lists(current, now) && Lists(previous, before)
    ensures Pieces(Join(current)) <= Pieces(Join(previous)) <==> now <= before
  {
    SplitOfListed(current, now);
    SplitOfListed(previous, before);
    if HexSet(now) <= HexSet(before) {
      forall h | h in now
        ensures h in before
      {
        assert HexOf(h) in HexSet(now);
        var g :| g in before && HexOf(g) == HexOf(h);
        HexPower();
        HexIsInjective(h, g, 16);
      }
    }
  }
}
