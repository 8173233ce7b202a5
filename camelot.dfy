/** The harmonic distance of utils/setlist_order.py (`camelot_distance`):
    a 0/1/2 compatibility score between two keys written in Camelot notation
    ("8A", "12B"). The score is total: a key it cannot read scores 2. */
module Camelot {
  import opened Tracks
  import Text

  predicate IsDigit(c: char) { '0' <= c <= '9' }

  function DigitValue(c: char): nat
    requires IsDigit(c)
  {
    c as int - '0' as int
  }

  function DigitChar(d: nat): (c: char)
    requires d < 10
    ensures IsDigit(c) && DigitValue(c) == d
  {
    ('0' as int + d) as char
  }

  /** The value of the part of a base-10 literal that Python's `int()`
      reads after the sign: ASCII digits, single underscores allowed between
      two digits. None for anything else. */
  function DigitRun(s: string): Option<nat>
    decreases |s|
  {
    if s == [] || !IsDigit(s[|s| - 1]) then None
    else
      var d := DigitValue(s[|s| - 1]);
      var rest := s[..|s| - 1];
      if rest == [] then Some(d)
      else
        var prefix := if rest[|rest| - 1] == '_' then rest[..|rest| - 1] else rest;
        match DigitRun(prefix)
        case None => None
        case Some(v) => Some(10 * v + d)
  }

  /** The whitespace `int()` skips around a number: space and `\t`..`\r`
      only. Unlike `str.strip()` it does not skip the separators 0x1C..0x1F. */
  predicate IntSpace(c: char) { c == ' ' || ('\t' <= c <= '\r') }

  /** Python's `int(text)`, with None standing for the ValueError it raises:
      surrounding whitespace is skipped, then an optional sign and a digit
      run. */
  function ParseInt(text: string): Option<int>
    decreases |text|
  {
    if text != [] && IntSpace(text[0]) then ParseInt(text[1..])
    else if text != [] && IntSpace(text[|text| - 1]) then ParseInt(text[..|text| - 1])
    else if text != [] && (text[0] == '+' || text[0] == '-') then
      match DigitRun(text[1..])
      case None => None
      case Some(n) => var v: int := n; Some(if text[0] == '-' then -v else v)
    else
      match DigitRun(text)
      case None => None
      case Some(n) => Some(n)
  }

  function Abs(x: int): nat { if x < 0 then -x else x }

  /** The score: 0 for identical keys, 2 when exactly one key is empty or a
      number prefix does not parse, 1 for the same number in the other mode
      or a neighbouring number (12 and 1 being neighbours) in the same mode,
      and 2 otherwise. */
  function Distance(key1: string, key2: string): (d: int)
    ensures 0 <= d <= 2
    ensures d == 0 <==> key1 == key2
  {
    if key1 == [] || key2 == [] || key1 == key2 then
      (if key1 == key2 then 0 else 2)
    else
      match (ParseInt(key1[..|key1| - 1]), ParseInt(key2[..|key2| - 1]))
      case (Some(num1), Some(num2)) =>
        var let1, let2 := key1[|key1| - 1], key2[|key2| - 1];
        if num1 == num2 && let1 != let2 then 1
        else if let1 == let2 && (Abs(num1 - num2) == 1 || {num1, num2} == {1, 12}) then 1
        else 2
      case _ => 2
  }

  lemma DistanceSymmetric(key1: string, key2: string)
    ensures Distance(key1, key2) == Distance(key2, key1)
  {
    assert forall a: int, b: int :: {a, b} == {b, a};
  }

  /** Exactly one unknown (empty) key is the worst score. */
  lemma EmptyKeyIsWorst(key1: string, key2: string)
    requires (key1 == []) != (key2 == [])
    ensures Distance(key1, key2) == 2
  {
  }

  /** A key whose number prefix `int()` rejects scores 2 against any other key
      instead of raising. */
  lemma UnreadableKeyIsWorst(key1: string, key2: string)
    requires key1 != [] && key2 != [] && key1 != key2
    requires ParseInt(key1[..|key1| - 1]).None? || ParseInt(key2[..|key2| - 1]).None?
    ensures Distance(key1, key2) == 2
  {
  }

  /** A digit run must start with a digit. */
  lemma {:induction false} DigitRunNeedsLeadingDigit(s: string)
    requires s != [] && !IsDigit(s[0])
    ensures DigitRun(s) == None
    decreases |s|
  {
    if IsDigit(s[|s| - 1]) {
      var rest := s[..|s| - 1];
      var prefix := if rest[|rest| - 1] == '_' then rest[..|rest| - 1] else rest;
      if prefix != [] {
        assert prefix[0] == s[0];
        DigitRunNeedsLeadingDigit(prefix);
      }
    }
  }

  /** `int()` rejects a number that starts with one of the separators
      0x1C..0x1F, although `str.strip()` would have skipped it. */
  lemma {:induction false} SeparatorIsNotInt(text: string)
    requires text != [] && 28 <= text[0] as int <= 31
    ensures ParseInt(text) == None
    decreases |text|
  {
    if IntSpace(text[|text| - 1]) {
      SeparatorIsNotInt(text[..|text| - 1]);
    } else {
      DigitRunNeedsLeadingDigit(text);
    }
  }

  // ---------------------------------------------------------------------
  // An independent reading of the score on the Camelot wheel itself

  datatype Mode = Minor | Major  // the letters A and B

  /** A position on the Camelot wheel: a number 1..12 and a mode. */
  datatype WheelKey = WheelKey(number: int, mode: Mode)

  predicate OnWheel(k: WheelKey) { 1 <= k.number <= 12 }

  /** Neighbouring numbers on the twelve-step wheel. */
  predicate WheelNeighbours(n1: int, n2: int)
  {
    (n1 - n2) % 12 == 1 || (n2 - n1) % 12 == 1
  }

  /** The compatibility DJs read off the wheel: the same key, the same number
      in the other mode, or a neighbouring number in the same mode. */
  function WheelDistance(k1: WheelKey, k2: WheelKey): nat
  {
    if k1 == k2 then 0
    else if k1.number == k2.number then 1
    else if k1.mode == k2.mode && WheelNeighbours(k1.number, k2.number) then 1
    else 2
  }

  /** Decimal digits of n without leading zeros. */
  function Decimal(n: nat): (s: string)
    ensures |s| > 0
    decreases n
  {
    if n < 10 then [DigitChar(n)] else Decimal(n / 10) + [DigitChar(n % 10)]
  }

  /** The usual spelling of a wheel position: "8A", "12B". */
  function Notation(k: WheelKey): (s: string)
    requires OnWheel(k)
    ensures |s| >= 2
  {
    Decimal(k.number) + [if k.mode == Minor then 'A' else 'B']
  }

  lemma {:induction false} DecimalIsDigits(n: nat)
    ensures forall i :: 0 <= i < |Decimal(n)| ==> IsDigit(Decimal(n)[i])
    ensures DigitRun(Decimal(n)) == Some(n)
    decreases n
  {
    if n >= 10 {
      DecimalIsDigits(n / 10);
      var s := Decimal(n);
      assert s[..|s| - 1] == Decimal(n / 10);
    }
  }

  /** `int()` reads back what Decimal writes. */
  lemma ParseDecimal(n: nat)
    ensures ParseInt(Decimal(n)) == Some(n)
  {
    DecimalIsDigits(n);
    var s := Decimal(n);
    assert IsDigit(s[0]) && IsDigit(s[|s| - 1]);
  }

  /** The number prefix of a wheel key's notation parses to its number. */
  lemma NotationParts(k: WheelKey)
    requires OnWheel(k)
    ensures var s := Notation(k);
      ParseInt(s[..|s| - 1]) == Some(k.number) &&
      s[|s| - 1] == (if k.mode == Minor then 'A' else 'B')
  {
    var s := Notation(k);
    assert s[..|s| - 1] == Decimal(k.number);
    ParseDecimal(k.number);
  }

  lemma NotationInjective(k1: WheelKey, k2: WheelKey)
    requires OnWheel(k1) && OnWheel(k2)
    ensures Notation(k1) == Notation(k2) ==> k1 == k2
  {
    NotationParts(k1);
    NotationParts(k2);
  }

  /** On the wheel, the source's neighbour test (difference 1, or the pair
      {1, 12}) is adjacency on the twelve-step circle. */
  lemma NeighbourTestIsWheelAdjacency(n1: int, n2: int)
    requires 1 <= n1 <= 12 && 1 <= n2 <= 12
    ensures (Abs(n1 - n2) == 1 || {n1, n2} == {1, 12}) <==> WheelNeighbours(n1, n2)
  {
    if {n1, n2} == {1, 12} {
      assert n1 in {1, 12} && n2 in {1, 12} && 1 in {n1, n2} && 12 in {n1, n2};
    }
    if (n1 == 1 && n2 == 12) || (n1 == 12 && n2 == 1) {
      assert {n1, n2} == {1, 12};
    }
  }

  /** The score of two distinct non-empty keys whose number prefixes parse. */
  lemma DistanceOfParsedKeys(key1: string, key2: string, num1: int, num2: int)
    requires key1 != [] && key2 != [] && key1 != key2
    requires ParseInt(key1[..|key1| - 1]) == Some(num1)
    requires ParseInt(key2[..|key2| - 1]) == Some(num2)
    ensures var let1, let2 := key1[|key1| - 1], key2[|key2| - 1];
      Distance(key1, key2) ==
        if num1 == num2 && let1 != let2 then 1
        else if let1 == let2 && (Abs(num1 - num2) == 1 || {num1, num2} == {1, 12}) then 1
        else 2
  {
  }

  /** For keys written in the usual notation, the score is the wheel
      compatibility. */
  lemma DistanceOnWheel(k1: WheelKey, k2: WheelKey)
    requires OnWheel(k1) && OnWheel(k2)
    ensures Distance(Notation(k1), Notation(k2)) == WheelDistance(k1, k2)
  {
    if k1 != k2 {
      NotationParts(k1);
      NotationParts(k2);
      NotationInjective(k1, k2);
      DistanceOfParsedKeys(Notation(k1), Notation(k2), k1.number, k2.number);
      NeighbourTestIsWheelAdjacency(k1.number, k2.number);
    }
  }

  /** The scores listed for the metric on well-formed keys: the same key,
      the relative key, a neighbour, the 12/1 wrap-around and an unrelated
      key. */
  lemma WheelExamples()
    ensures Distance("8A", "8A") == 0
    ensures Distance("8A", "8B") == 1
    ensures Distance("8A", "9A") == 1
    ensures Distance("1A", "12A") == 1
    ensures Distance("8A", "3B") == 2
  {
    var k8A, k8B, k9A := WheelKey(8, Minor), WheelKey(8, Major), WheelKey(9, Minor);
    var k1A, k12A, k3B := WheelKey(1, Minor), WheelKey(12, Minor), WheelKey(3, Major);
    assert Notation(k8A) == "8A" && Notation(k8B) == "8B" && Notation(k9A) == "9A";
    assert Notation(k1A) == "1A" && Notation(k3B) == "3B";
    assert Decimal(12) == "12";
    assert Notation(k12A) == "12A";
    DistanceOnWheel(k8A, k8B);
    DistanceOnWheel(k8A, k9A);
    DistanceOnWheel(k1A, k12A);
    DistanceOnWheel(k8A, k3B);
  }

  /** Unknown keys, a key with no number and a zero-padded number. */
  lemma IrregularExamples()
    ensures Distance("", "") == 0
    ensures Distance("", "5A") == 2
    ensures Distance("A", "8A") == 2
    ensures Distance("08A", "8A") == 2
    ensures Distance("\U{1C}8A", "9A") == 2
  {
    assert ParseInt("") == None;
    assert "A"[..0] == "";
    UnreadableKeyIsWorst("A", "8A");
    var z := "08";
    assert z[..1] == "0";
    assert DigitRun(z) == Some(8);
    assert "08A"[..2] == z;
    NotationParts(WheelKey(8, Minor));
    assert Notation(WheelKey(8, Minor)) == "8A";
    DistanceOfParsedKeys("08A", "8A", 8, 8);
    var sep := "\U{1C}8A";
    assert sep[..|sep| - 1] == "\U{1C}8";
    SeparatorIsNotInt("\U{1C}8");
    UnreadableKeyIsWorst(sep, "9A");
  }
}
