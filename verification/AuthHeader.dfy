// The MediaBrowser authorization header: an index-driven scanner over
// comma-separated key="value" pairs, and the identifiers read from a request.
module AuthHeader {
  import opened Prelude
  import opened Text

  /* What the scanner computes, on the text still to be read */

  // Commas and white space between pairs.
  function DropSeparators(s: string): (r: string)
    ensures |r| <= |s|
  {
    if |s| > 0 && (s[0] == ',' || IsSpaceByte(s[0])) then DropSeparators(s[1..]) else s
  }

  function DropSpaces(s: string): (r: string)
    ensures |r| <= |s|
  {
    if |s| > 0 && IsSpaceByte(s[0]) then DropSpaces(s[1..]) else s
  }

  // The text up to the closing quote, unescaped, and what follows the quote.
  function Quoted(s: string, escaped: bool): (r: (string, string))
    ensures |r.1| <= |s|
  {
    if |s| == 0 then ("", "")
    else if escaped || (s[0] != '\\' && s[0] != '"') then
      var (v, rest) := Quoted(s[1..], false);
      ([s[0]] + v, rest)
    else if s[0] == '\\' then Quoted(s[1..], true)
    else ("", s[1..])
  }

  // A value, quoted or not, and the text after it.
  function Value(s: string): (r: (string, string))
    ensures |r.1| <= |s|
  {
    if |s| > 0 && s[0] == '"' then Quoted(s[1..], false)
    else (TrimSpace(s[..IndexByte(s, ',')]), s[IndexByte(s, ',')..])
  }

  // A value is form-decoded when it can be, and kept as it is otherwise.
  function Decoded(v: string): string {
    match QueryUnescape(v) case Some(d) => d case None => v
  }

  function Enter(out: map<string, string>, key: string, val: string): map<string, string> {
    if key == "" then out else out[key := Decoded(val)]
  }

  // The next key, its raw value and the text after them, if there is a next '='.
  function NextPair(s: string): (r: Option<(string, string, string)>)
    ensures r.Some? ==> |r.value.2| < |s|
  {
    var t := DropSeparators(s);
    var eq := IndexByte(t, '=');
    if eq == |t| then None
    else
      var (val, rest) := Value(DropSpaces(t[eq + 1..]));
      Some((TrimSpace(t[..eq]), val, rest))
  }

  function Scan(s: string, out: map<string, string>): map<string, string>
    decreases |s|
  {
    match NextPair(s)
    case None => out
    case Some((key, val, rest)) => Scan(rest, Enter(out, key, val))
  }

  function NamedValues(s: string): Option<map<string, string>> {
    var out := Scan(TrimSpace(s), map[]);
    if out == map[] then None else Some(out)
  }

  function MediaBrowser(header: string): Option<map<string, string>> {
    var h := TrimSpace(header);
    var sp := IndexByte(h, ' ');
    if h == "" || sp == |h| then None
    else if !EqualFold(h[..sp], "mediabrowser") && !EqualFold(h[..sp], "emby") then None
    else NamedValues(h[sp + 1..])
  }

  /* The scanner as it runs */

  method SkipSeparators(s: string, at: nat) returns (i: nat)
    requires at <= |s|
    ensures at <= i <= |s| && s[i..] == DropSeparators(s[at..])
  {
    i := at;
    while i < |s| && (s[i] == ',' || IsSpaceByte(s[i]))
      invariant at <= i <= |s|
      invariant DropSeparators(s[i..]) == DropSeparators(s[at..])
    {
      assert s[i..][1..] == s[i + 1..];
      i := i + 1;
    }
  }

  method SkipSpaces(s: string, at: nat) returns (i: nat)
    requires at <= |s|
    ensures at <= i <= |s| && s[i..] == DropSpaces(s[at..])
  {
    i := at;
    while i < |s| && IsSpaceByte(s[i])
      invariant at <= i <= |s|
      invariant DropSpaces(s[i..]) == DropSpaces(s[at..])
    {
      assert s[i..][1..] == s[i + 1..];
      i := i + 1;
    }
  }

  method FindByte(s: string, at: nat, c: char) returns (i: nat)
    requires at <= |s|
    ensures at <= i <= |s| && i == at + IndexByte(s[at..], c)
  {
    i := at;
    while i < |s| && s[i] != c
      invariant at <= i <= |s|
      invariant at + IndexByte(s[at..], c) == i + IndexByte(s[i..], c)
    {
      assert s[i..][1..] == s[i + 1..];
      i := i + 1;
    }
  }

  lemma SlicesOf(s: string, start: nat, i: nat)
    requires start <= i < |s|
    ensures s[start..][..i - start] == s[start..i] && s[start..][i - start + 1..] == s[i + 1..]
  {
  }

  lemma NextPairIs(s: string, eq: nat, val: string, rest: string)
    requires eq == IndexByte(DropSeparators(s), '=') < |DropSeparators(s)|
    requires (val, rest) == Value(DropSpaces(DropSeparators(s)[eq + 1..]))
    ensures NextPair(s) == Some((TrimSpace(DropSeparators(s)[..eq]), val, rest))
  {
  }

  // The value after the '=' at eq.
  method ParseAfter(s: string, eq: nat) returns (val: string, i: nat)
    requires eq < |s|
    ensures eq < i <= |s| && (val, s[i..]) == Value(DropSpaces(s[eq + 1..]))
  {
    i := SkipSpaces(s, eq + 1);
    val, i := ParseValue(s, i);
  }

  method ParsePair(s: string, at: nat) returns (found: bool, key: string, val: string, i: nat)
    requires at <= |s|
    ensures found ==> at < i <= |s|
    ensures NextPair(s[at..]) == if found then Some((key, val, s[i..])) else None
  {
    var start := SkipSeparators(s, at);
    var eq := FindByte(s, start, '=');
    if eq >= |s| {
      return false, "", "", eq;
    }
    key := TrimSpace(s[start..eq]);
    val, i := ParseAfter(s, eq);
    found := true;
    ghost var t := DropSeparators(s[at..]);
    assert t[..eq - start] == s[start..eq] && t[eq - start + 1..] == s[eq + 1..] by {
      SlicesOf(s, start, eq);
    }
    NextPairIs(s[at..], eq - start, val, s[i..]);
  }

  method ParseNamedValues(text: string) returns (r: Option<map<string, string>>)
    ensures r == NamedValues(text)
  {
    var out: map<string, string> := map[];
    var s := TrimSpace(text);
    var i := 0;
    assert s[0..] == s;
    while i < |s|
      invariant 0 <= i <= |s|
      invariant Scan(s[i..], out) == Scan(s, map[])
      decreases |s| - i
    {
      var found, key, val, next := ParsePair(s, i);
      if !found {
        break;
      }
      i := next;
      if key != "" {
        var dec := QueryUnescape(val);
        if dec.Some? {
          val := dec.value;
        }
        out := out[key := val];
      }
    }
    assert i == |s| ==> s[i..] == "";
    if out == map[] {
      return None;
    }
    return Some(out);
  }

  method ParseValue(s: string, at: nat) returns (val: string, i: nat)
    requires at <= |s|
    ensures at <= i <= |s|
    ensures (val, s[i..]) == Value(s[at..])
  {
    if at < |s| && s[at] == '"' {
      assert s[at..][1..] == s[at + 1..];
      val, i := ParseQuoted(s, at + 1);
    } else {
      val, i := ParseBare(s, at);
    }
  }

  method ParseBare(s: string, at: nat) returns (val: string, i: nat)
    requires at <= |s|
    ensures at <= i <= |s|
    ensures var t := s[at..]; (val, s[i..]) == (TrimSpace(t[..IndexByte(t, ',')]), t[IndexByte(t, ',')..])
  {
    i := FindByte(s, at, ',');
    ghost var t := s[at..];
    assert t[..i - at] == s[at..i] && t[i - at..] == s[i..];
    val := TrimSpace(s[at..i]);
  }

  method ParseQuoted(s: string, at: nat) returns (b: string, i: nat)
    requires at <= |s|
    ensures at <= i <= |s|
    ensures (b, s[i..]) == Quoted(s[at..], false)
  {
    i := at;
    b := "";
    var escaped := false;
    ghost var all := Quoted(s[at..], false);
    assert "" + all.0 == all.0;
    while i < |s|
      invariant at <= i <= |s|
      invariant b + Quoted(s[i..], escaped).0 == all.0 && Quoted(s[i..], escaped).1 == all.1
    {
      var c := s[i];
      assert s[i..][1..] == s[i + 1..];
      i := i + 1;
      assert forall v: string :: b + ([c] + v) == (b + [c]) + v;
      if escaped {
        b := b + [c];
        escaped := false;
        continue;
      }
      if c == '\\' {
        escaped := true;
        continue;
      }
      if c == '"' {
        assert b + "" == b;
        break;
      }
      b := b + [c];
    }
    assert i == |s| ==> s[i..] == "";
    assert b + "" == b;
  }
}
