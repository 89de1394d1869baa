/**
 The text of a template: lines, key and value, and numbers as the two loaders read them.

 A template is a sequence of lines without their line feeds. Both loaders agree by
 definition only on plain numbers; on any other text each has its own library, given here
 as an oracle.
 */
module TemplateText {
  import opened EdgeTypes

  datatype Libraries = Libraries(
    strtoul: string -> Option<nat>, strtod: string -> Option<Double>,
    pyInt: string -> Option<int>, pyFloat: string -> Option<Double>,
    decimal: string -> Double, decimalFits: string -> bool)

  const ULONG_LIMIT: nat := 0x1_0000_0000_0000_0000

  predicate IsDigit(c: char) { '0' <= c <= '9' }

  predicate AllDigits(s: string) { s != "" && forall i :: 0 <= i < |s| ==> IsDigit(s[i]) }

  function DecimalValue(s: string): nat
    requires forall i :: 0 <= i < |s| ==> IsDigit(s[i])
  {
    if s == "" then 0
    else
      assert IsDigit(s[|s| - 1]);
      DecimalValue(s[..|s| - 1]) * 10 + (s[|s| - 1] as int - '0' as int)
  }

  // Digits, at most one point between digits, at most one leading minus sign.
  predicate PlainDecimal(s: string) {
    if s != "" && s[0] == '-' then PlainMagnitude(s[1..]) else PlainMagnitude(s)
  }

  predicate PlainMagnitude(s: string) {
    AllDigits(s) || exists k :: 0 < k < |s| && s[k] == '.' && AllDigits(s[..k]) && AllDigits(s[k + 1..])
  }

  function ParseUnsigned(lib: Libraries, s: string): Option<nat> {
    if AllDigits(s) then (if DecimalValue(s) < ULONG_LIMIT then Some(DecimalValue(s)) else None)
    else lib.strtoul(s)
  }

  function ParseDouble(lib: Libraries, s: string): Option<Double> {
    if PlainDecimal(s) then (if lib.decimalFits(s) then Some(lib.decimal(s)) else None)
    else lib.strtod(s)
  }

  function PyInt(lib: Libraries, s: string): Option<int> {
    if AllDigits(s) then Some(DecimalValue(s)) else lib.pyInt(s)
  }

  function PyFloat(lib: Libraries, s: string): Option<Double> {
    if PlainDecimal(s) then Some(lib.decimal(s)) else lib.pyFloat(s)
  }

  // The index of the first equals sign, or the length.
  function FirstEquals(s: string): (k: nat)
    ensures k <= |s| && (k < |s| ==> s[k] == '=') && forall i :: 0 <= i < k ==> s[i] != '='
  {
    if s == "" then 0 else if s[0] == '=' then 0 else 1 + FirstEquals(s[1..])
  }

  datatype KeyValue = KeyValue(key: string, value: string)

  function SplitAt(s: string): KeyValue
    requires FirstEquals(s) < |s|
  {
    KeyValue(s[..FirstEquals(s)], s[FirstEquals(s) + 1..])
  }

  predicate IsLineEnd(c: char) { c == '\r' || c == '\n' }

  // The longest prefix that does not end in a carriage return or a line feed.
  function TrimNewline(s: string): (r: string)
    ensures r <= s && (forall i :: |r| <= i < |s| ==> IsLineEnd(s[i])) && (r == "" || !IsLineEnd(r[|r| - 1]))
  {
    if s != "" && IsLineEnd(s[|s| - 1]) then TrimNewline(s[..|s| - 1]) else s
  }

  // White space, as str.strip sees it.
  predicate IsSpace(c: char) {
    var u := c as int;
    || 9 <= u <= 13 || 28 <= u <= 32 || u == 0x85 || u == 0xA0 || u == 0x1680
    || 0x2000 <= u <= 0x200A || u == 0x2028 || u == 0x2029 || u == 0x202F || u == 0x205F || u == 0x3000
  }

  function StripLeft(s: string): string {
    if s != "" && IsSpace(s[0]) then StripLeft(s[1..]) else s
  }

  function StripRight(s: string): string {
    if s != "" && IsSpace(s[|s| - 1]) then StripRight(s[..|s| - 1]) else s
  }

  function Strip(s: string): string { StripRight(StripLeft(s)) }

  // Stripping takes blanks off both ends, all of them and nothing else.
  lemma StripExactly(s: string) returns (left: string, right: string)
    ensures s == left + Strip(s) + right
    ensures (forall i :: 0 <= i < |left| ==> IsSpace(left[i])) && (forall i :: 0 <= i < |right| ==> IsSpace(right[i]))
    ensures Strip(s) != "" ==> !IsSpace(Strip(s)[0]) && !IsSpace(Strip(s)[|Strip(s)| - 1])
  {
    left := LeftBlanks(s);
    right := RightBlanks(StripLeft(s));
    assert Strip(s) != "" ==> Strip(s)[0] == StripLeft(s)[0];
  }

  lemma {:induction false} LeftBlanks(s: string) returns (left: string)
    ensures s == left + StripLeft(s) && forall i :: 0 <= i < |left| ==> IsSpace(left[i])
    ensures StripLeft(s) != "" ==> !IsSpace(StripLeft(s)[0])
  {
    left := "";
    if s != "" && IsSpace(s[0]) {
      left := LeftBlanks(s[1..]);
      left := [s[0]] + left;
    }
  }

  lemma {:induction false} RightBlanks(s: string) returns (right: string)
    ensures s == StripRight(s) + right && forall i :: 0 <= i < |right| ==> IsSpace(right[i])
    ensures StripRight(s) != "" ==> !IsSpace(StripRight(s)[|StripRight(s)| - 1])
  {
    right := "";
    if s != "" && IsSpace(s[|s| - 1]) {
      right := RightBlanks(s[..|s| - 1]);
      right := right + [s[|s| - 1]];
    }
  }

  lemma StripTight(s: string)
    requires s == "" || (!IsSpace(s[0]) && !IsSpace(s[|s| - 1]))
    ensures Strip(s) == s
  {
  }

  // Stripping keeps the first character of a line that does not start with a blank.
  lemma StripKeepsHead(s: string)
    requires s != "" && !IsSpace(s[0])
    ensures Strip(s) != "" && Strip(s)[0] == s[0]
  {
    assert StripLeft(s) == s;
    StripRightKeepsHead(s);
  }

  lemma {:induction false} StripRightKeepsHead(s: string)
    requires s != "" && !IsSpace(s[0])
    ensures StripRight(s) != "" && StripRight(s)[0] == s[0]
  {
    if IsSpace(s[|s| - 1]) { StripRightKeepsHead(s[..|s| - 1]); }
  }
}
