// Go string helpers on byte strings: each char stands for one byte.
module Text {
  import opened Prelude

  ghost predicate Bytes(s: string) {
    forall i :: 0 <= i < |s| ==> s[i] as int < 256
  }

  predicate IsAsciiSpace(c: char) {
    c == ' ' || '\t' <= c <= '\r'
  }

  // unicode.IsSpace(rune(b)) for a single byte b
  predicate IsSpaceByte(c: char) {
    IsAsciiSpace(c) || c == '\U{85}' || c == '\U{A0}'
  }

  // The two- and three-byte UTF-8 encodings of white space beyond ASCII.
  predicate IsWide2(a: char, b: char) {
    a == '\U{C2}' && (b == '\U{85}' || b == '\U{A0}')
  }

  predicate IsWide3(a: char, b: char, c: char) {
    || (a == '\U{E1}' && b == '\U{9A}' && c == '\U{80}')
    || (a == '\U{E2}' && b == '\U{80}'
        && ('\U{80}' <= c <= '\U{8A}' || c == '\U{A8}' || c == '\U{A9}' || c == '\U{AF}'))
    || (a == '\U{E2}' && b == '\U{81}' && c == '\U{9F}')
    || (a == '\U{E3}' && b == '\U{80}' && c == '\U{80}')
  }

  // The length of the white-space rune s starts with, or 0.
  function SpaceAtStart(s: string): (n: nat)
    ensures n <= |s|
  {
    if |s| >= 1 && IsAsciiSpace(s[0]) then 1
    else if |s| >= 2 && IsWide2(s[0], s[1]) then 2
    else if |s| >= 3 && IsWide3(s[0], s[1], s[2]) then 3
    else 0
  }

  function SpaceAtEnd(s: string): (n: nat)
    ensures n <= |s|
  {
    if |s| >= 1 && IsAsciiSpace(s[|s| - 1]) then 1
    else if |s| >= 2 && IsWide2(s[|s| - 2], s[|s| - 1]) then 2
    else if |s| >= 3 && IsWide3(s[|s| - 3], s[|s| - 2], s[|s| - 1]) then 3
    else 0
  }

  function TrimLeft(s: string): (r: string)
    ensures |r| <= |s|
    ensures SpaceAtStart(s) > 0 ==> |r| < |s|
    ensures SpaceAtStart(s) == 0 ==> r == s
    decreases |s|
  {
    if SpaceAtStart(s) > 0 then TrimLeft(s[SpaceAtStart(s)..]) else s
  }

  function TrimRight(s: string): (r: string)
    ensures |r| <= |s|
    ensures SpaceAtEnd(s) > 0 ==> |r| < |s|
    ensures SpaceAtEnd(s) == 0 ==> r == s
    decreases |s|
  {
    if SpaceAtEnd(s) > 0 then TrimRight(s[..|s| - SpaceAtEnd(s)]) else s
  }

  // strings.TrimSpace
  function TrimSpace(s: string): (r: string)
    ensures |r| <= |s|
    ensures r == s <==> SpaceAtStart(s) == 0 && SpaceAtEnd(s) == 0
  {
    TrimRight(TrimLeft(s))
  }

  // strings.IndexByte, with |s| for absent
  function IndexByte(s: string, c: char): (n: nat)
    ensures n <= |s| && (n < |s| ==> s[n] == c)
    ensures forall i :: 0 <= i < n ==> s[i] != c
  {
    if |s| == 0 || s[0] == c then 0
    else
      var n := IndexByte(s[1..], c);
      assert forall i :: 1 <= i < n + 1 ==> s[i] == s[1..][i - 1];
      n + 1
  }

  // strings.EqualFold(s, target) for a lower-case ASCII target.  The long s
  // (bytes C5 BF) folds to s, the Kelvin sign (E2 84 AA) to k.
  predicate EqualFold(s: string, target: string) {
    FoldsFrom(s, 0, target, 0)
  }

  // The same, for what is left of s from i and of target from j.
  predicate FoldsFrom(s: string, i: nat, target: string, j: nat)
    requires i <= |s| && j <= |target|
    decreases |target| - j
  {
    if j == |target| then i == |s|
    else if i == |s| then false
    else
      var c, t := s[i], target[j];
      if c == t || ('a' <= t <= 'z' && c == t - 'a' + 'A') then
        FoldsFrom(s, i + 1, target, j + 1)
      else if t == 's' && i + 2 <= |s| && c == '\U{C5}' && s[i + 1] == '\U{BF}' then
        FoldsFrom(s, i + 2, target, j + 1)
      else if t == 'k' && i + 3 <= |s| && c == '\U{E2}' && s[i + 1] == '\U{84}' && s[i + 2] == '\U{AA}' then
        FoldsFrom(s, i + 3, target, j + 1)
      else
        false
  }

  function LowerChar(c: char): char {
    if 'A' <= c <= 'Z' then c - 'A' + 'a' else c
  }

  // strings.ToLower, ASCII letters
  function ToLower(s: string): (r: string)
    ensures |r| == |s| && forall i :: 0 <= i < |s| ==> r[i] == LowerChar(s[i])
  {
    if |s| == 0 then "" else [LowerChar(s[0])] + ToLower(s[1..])
  }

  function UpperChar(c: char): char {
    if 'a' <= c <= 'z' then c - 'a' + 'A' else c
  }

  // strings.ToUpper on an HTTP method
  function ToUpper(s: string): (r: string)
    ensures |r| == |s| && forall i :: 0 <= i < |s| ==> r[i] == UpperChar(s[i])
  {
    if |s| == 0 then "" else [UpperChar(s[0])] + ToUpper(s[1..])
  }

  // firstNonEmpty of two
  function Or(a: string, b: string): string {
    if a != "" then a else b
  }

  /* Form percent-encoding (section 2.1 of RFC 3986, and '+' for a space) */

  predicate IsHex(c: char) {
    '0' <= c <= '9' || 'a' <= c <= 'f' || 'A' <= c <= 'F'
  }

  function Unhex(c: char): (n: nat)
    requires IsHex(c)
    ensures n < 16
  {
    if c <= '9' then c as int - '0' as int
    else if c <= 'F' then c as int - 'A' as int + 10
    else c as int - 'a' as int + 10
  }

  function HexDigit(n: nat): (c: char)
    requires n < 16
    ensures IsHex(c) && Unhex(c) == n
  {
    if n < 10 then ('0' as int + n) as char else ('A' as int + n - 10) as char
  }

  // url.QueryUnescape; None is its error
  function QueryUnescape(s: string): Option<string> {
    if |s| == 0 then Some("")
    else if s[0] == '%' then
      if |s| < 3 || !IsHex(s[1]) || !IsHex(s[2]) then None
      else
        var rest := QueryUnescape(s[3..]);
        if rest.None? then None else Some([(16 * Unhex(s[1]) + Unhex(s[2])) as char] + rest.value)
    else
      var rest := QueryUnescape(s[1..]);
      if rest.None? then None else Some([if s[0] == '+' then ' ' else s[0]] + rest.value)
  }
}
