// Printing key="value" pairs and scanning them back.
module HeaderRoundTrip {
  import opened Prelude
  import opened Text
  import opened AuthHeader

  /* A printer */

  predicate Unreserved(c: char) {
    'A' <= c <= 'Z' || 'a' <= c <= 'z' || '0' <= c <= '9' || c == '-' || c == '_' || c == '.' || c == '~'
  }

  // One byte in form percent-encoding; a quote is left for the backslash.
  function EncodeByte(c: char): string
    requires c as int < 256
  {
    if Unreserved(c) || c == '"' then [c]
    else if c == ' ' then "+"
    else ['%', HexDigit(c as int / 16), HexDigit(c as int % 16)]
  }

  function Encode(v: string): string
    requires Bytes(v)
  {
    if |v| == 0 then "" else EncodeByte(v[0]) + Encode(v[1..])
  }

  // One byte inside the quotes.
  function EscapeByte(c: char): string {
    if c == '"' || c == '\\' then ['\\', c] else [c]
  }

  // Backslash before quotes and backslashes.
  function Escape(e: string): string {
    if |e| == 0 then ""
    else EscapeByte(e[0]) + Escape(e[1..])
  }

  datatype Pair = Pair(key: string, value: string)

  function PrintPair(p: Pair): string
    requires Bytes(p.value)
  {
    p.key + "=\"" + Escape(Encode(p.value)) + "\""
  }

  ghost predicate Printable(pairs: seq<Pair>) {
    forall i :: 0 <= i < |pairs| ==> ValidKey(pairs[i].key) && Bytes(pairs[i].value)
  }

  // Keys the scheme can carry: non-empty, no '=', no leading comma or white
  // space byte, nothing strings.TrimSpace would take off.
  predicate ValidKey(k: string) {
    k != "" && '=' !in k && k[0] != ',' && !IsSpaceByte(k[0]) && TrimSpace(k) == k
  }

  function Print(pairs: seq<Pair>): string
    requires Printable(pairs)
    decreases |pairs|, 1
  {
    if |pairs| == 0 then "" else PrintPair(pairs[0]) + Rest(pairs)
  }

  // What follows the first pair in print.
  function Rest(pairs: seq<Pair>): string
    requires Printable(pairs) && |pairs| > 0
    decreases |pairs|, 0
  {
    if |pairs| == 1 then "" else ", " + Print(pairs[1..])
  }

  // The pairs as a map; a later pair with the same key wins.
  function Collect(pairs: seq<Pair>, out: map<string, string>): map<string, string> {
    if |pairs| == 0 then out else Collect(pairs[1..], out[pairs[0].key := pairs[0].value])
  }

  /* Scanning what was printed */

  lemma {:induction false} UnescapeEncode(v: string)
    requires Bytes(v)
    ensures QueryUnescape(Encode(v)) == Some(v)
  {
    if |v| != 0 {
      var c, tail := v[0], Encode(v[1..]);
      assert Bytes(v[1..]);
      UnescapeEncode(v[1..]);
      var e := EncodeByte(c);
      if Unreserved(c) || c == '"' || c == ' ' {
        assert (e + tail)[0] == e[0] && (e + tail)[1..] == tail;
      } else {
        var hi, lo := HexDigit(c as int / 16), HexDigit(c as int % 16);
        assert (e + tail)[0] == '%' && (e + tail)[1] == hi && (e + tail)[2] == lo && (e + tail)[3..] == tail;
        assert 16 * Unhex(hi) + Unhex(lo) == c as int;
      }
      assert v == [c] + v[1..];
    }
  }

  lemma QuotedPlain(c: char, s: string)
    requires c != '"' && c != '\\'
    ensures Quoted([c] + s, false) == ([c] + Quoted(s, false).0, Quoted(s, false).1)
  {
    assert ([c] + s)[1..] == s;
  }

  lemma QuotedBackslash(c: char, s: string)
    ensures Quoted(['\\', c] + s, false) == ([c] + Quoted(s, false).0, Quoted(s, false).1)
  {
    assert (['\\', c] + s)[1..] == [c] + s && ([c] + s)[1..] == s;
  }

  lemma Regroup(front: string, others: string, rest: string)
    ensures front + others + "\"" + rest == front + (others + "\"" + rest)
  {
    var a, b := front + others + "\"" + rest, front + (others + "\"" + rest);
    assert |a| == |b|;
    forall i | 0 <= i < |a| ensures a[i] == b[i] {
      if i < |front| {
        assert a[i] == front[i];
      } else if i < |front| + |others| {
        assert a[i] == others[i - |front|];
      }
    }
  }

  lemma EscapeFirst(e: string, rest: string)
    requires |e| > 0
    ensures Escape(e) + "\"" + rest == EscapeByte(e[0]) + (Escape(e[1..]) + "\"" + rest)
  {
    assert Escape(e) == EscapeByte(e[0]) + Escape(e[1..]);
    Regroup(EscapeByte(e[0]), Escape(e[1..]), rest);
  }

  lemma {:induction false} QuotedEscape(e: string, rest: string)
    ensures Quoted(Escape(e) + "\"" + rest, false) == (e, rest)
  {
    if |e| == 0 {
      assert (Escape(e) + "\"" + rest)[1..] == rest;
    } else {
      var tail := Escape(e[1..]) + "\"" + rest;
      QuotedEscape(e[1..], rest);
      EscapeFirst(e, rest);
      QuotedBackslash(e[0], tail);
      if e[0] != '"' && e[0] != '\\' {
        QuotedPlain(e[0], tail);
      }
      assert e == [e[0]] + e[1..];
    }
  }

  lemma {:induction false} IndexAfter(k: string, rest: string)
    requires '=' !in k
    ensures IndexByte(k + "=" + rest, '=') == |k|
  {
    var s := k + "=" + rest;
    assert s[|k|] == '=';
    assert forall i :: 0 <= i < |k| ==> s[i] == k[i] && k[i] in k;
  }

  lemma NextPairParts(s: string, eq: nat, key: string, after: string, val: string, rest: string)
    requires DropSeparators(s) == s && IndexByte(s, '=') == eq < |s|
    requires TrimSpace(s[..eq]) == key && s[eq + 1..] == after
    requires DropSpaces(after) == after && Value(after) == (val, rest)
    ensures NextPair(s) == Some((key, val, rest))
  {
  }

  lemma QuotedValue(e: string, rest: string)
    ensures var after := "\"" + (Escape(e) + "\"" + rest);
      DropSpaces(after) == after && Value(after) == (e, rest)
  {
    var quoted := Escape(e) + "\"" + rest;
    var after := "\"" + quoted;
    assert after[0] == '"' && after[1..] == quoted;
    QuotedEscape(e, rest);
  }

  // One printed pair is scanned as that pair, whatever follows it.
  lemma NextPairPrinted(p: Pair, rest: string)
    requires ValidKey(p.key) && Bytes(p.value)
    ensures NextPair(PrintPair(p) + rest) == Some((p.key, Encode(p.value), rest))
  {
    var k, e := p.key, Encode(p.value);
    var after := "\"" + (Escape(e) + "\"" + rest);
    var s := k + "=" + after;
    assert PrintPair(p) + rest == s;
    assert s[0] == k[0] && DropSeparators(s) == s;
    IndexAfter(k, after);
    assert s[..|k|] == k && s[|k| + 1..] == after;
    QuotedValue(e, rest);
    NextPairParts(s, |k|, k, after, e, rest);
  }

  lemma DropOne(c: char, s: string)
    requires c == ',' || IsSpaceByte(c)
    ensures DropSeparators([c] + s) == DropSeparators(s)
  {
    assert ([c] + s)[1..] == s;
  }

  lemma SeparatorSkipped(s: string)
    ensures NextPair(", " + s) == NextPair(s)
  {
    assert ", " + s == [','] + ([' '] + s);
    DropOne(',', [' '] + s);
    DropOne(' ', s);
  }

  lemma ScanUnfold(s: string, out: map<string, string>, key: string, val: string, rest: string)
    requires NextPair(s) == Some((key, val, rest))
    ensures Scan(s, out) == Scan(rest, Enter(out, key, val))
  {
  }

  lemma FirstScanned(pairs: seq<Pair>, out: map<string, string>)
    requires Printable(pairs) && |pairs| > 0
    ensures var out', rest := out[pairs[0].key := pairs[0].value], Rest(pairs);
      Scan(Print(pairs), out) == Scan(rest, out') && Scan(", " + Print(pairs), out) == Scan(rest, out')
  {
    var p := pairs[0];
    UnescapeEncode(p.value);
    NextPairPrinted(p, Rest(pairs));
    SeparatorSkipped(Print(pairs));
    ScanUnfold(Print(pairs), out, p.key, Encode(p.value), Rest(pairs));
    ScanUnfold(", " + Print(pairs), out, p.key, Encode(p.value), Rest(pairs));
  }

  lemma {:induction false} ScanPrinted(pairs: seq<Pair>, out: map<string, string>)
    requires Printable(pairs) && |pairs| > 0
    ensures Scan(Print(pairs), out) == Collect(pairs, out)
    decreases |pairs|
  {
    FirstScanned(pairs, out);
    var out' := out[pairs[0].key := pairs[0].value];
    if |pairs| == 1 {
      assert Scan("", out') == out';
      assert Collect(pairs[1..], out') == out';
    } else {
      ScanPrinted(pairs[1..], out');
      FirstScanned(pairs[1..], out');
    }
  }

  // Printed pairs neither start nor end with white space.
  lemma {:induction false} PrintNeedsNoTrim(pairs: seq<Pair>)
    requires Printable(pairs)
    ensures TrimSpace(Print(pairs)) == Print(pairs)
  {
    if |pairs| != 0 {
      var k, value := pairs[0].key, pairs[0].value;
      var tail := "\"" + Escape(Encode(value)) + "\"" + Rest(pairs);
      assert Print(pairs) == k + "=" + tail;
      StartsLikeKey(k, tail);
      EndsInQuote(pairs);
    }
  }

  lemma StartsLikeKey(k: string, tail: string)
    requires ValidKey(k)
    ensures SpaceAtStart(k + "=" + tail) == 0
  {
    var s := k + "=" + tail;
    assert s[0] == k[0] && s[|k|] == '=';
    assert |k| >= 2 ==> s[1] == k[1];
    assert |k| >= 3 ==> s[2] == k[2];
    assert SpaceAtStart(k) == 0;
  }

  lemma {:induction false} EndsInQuote(pairs: seq<Pair>)
    requires Printable(pairs) && |pairs| > 0
    ensures |Print(pairs)| > 0 && Print(pairs)[|Print(pairs)| - 1] == '"'
    ensures SpaceAtEnd(Print(pairs)) == 0
    decreases |pairs|
  {
    var s, first, rest := Print(pairs), PrintPair(pairs[0]), Rest(pairs);
    assert first[|first| - 1] == '"';
    if |pairs| == 1 {
      assert rest == "" && s == first;
    } else {
      var others := Print(pairs[1..]);
      EndsInQuote(pairs[1..]);
      assert rest == ", " + others && s == first + rest;
      assert s[|s| - 1] == rest[|rest| - 1] == others[|others| - 1];
    }
  }

  // Round trip: every list of printable pairs with arbitrary byte-string values
  // reads back as exactly its pairs, a later duplicate winning.
  lemma RoundTrip(pairs: seq<Pair>)
    requires Printable(pairs)
    ensures NamedValues(Print(pairs)) == if |pairs| == 0 then None else Some(Collect(pairs, map[]))
  {
    PrintNeedsNoTrim(pairs);
    if |pairs| != 0 {
      ScanPrinted(pairs, map[]);
      CollectHas(pairs, map[], 0);
    }
  }

  lemma {:induction false} CollectHas(pairs: seq<Pair>, out: map<string, string>, i: nat)
    requires i < |pairs|
    ensures pairs[i].key in Collect(pairs, out)
    ensures forall k :: k in out ==> k in Collect(pairs, out)
    decreases |pairs|
  {
    var out' := out[pairs[0].key := pairs[0].value];
    if |pairs| > 1 {
      CollectHas(pairs[1..], out', if i == 0 then 0 else i - 1);
    }
    assert pairs[0].key in out';
  }

  // With distinct keys that map holds each pair, and nothing else.
  lemma {:induction false} CollectDistinct(pairs: seq<Pair>, out: map<string, string>)
    requires forall i, j :: 0 <= i < j < |pairs| ==> pairs[i].key != pairs[j].key
    ensures forall i :: 0 <= i < |pairs| ==>
      pairs[i].key in Collect(pairs, out) && Collect(pairs, out)[pairs[i].key] == pairs[i].value
    ensures forall k :: k in Collect(pairs, out) ==> k in out || exists i :: 0 <= i < |pairs| && pairs[i].key == k
    ensures forall k :: k in out && (forall i :: 0 <= i < |pairs| ==> pairs[i].key != k) ==>
      k in Collect(pairs, out) && Collect(pairs, out)[k] == out[k]
  {
    if |pairs| != 0 {
      var out', tail := out[pairs[0].key := pairs[0].value], pairs[1..];
      assert forall i :: 0 <= i < |tail| ==> tail[i] == pairs[i + 1];
      CollectDistinct(tail, out');
      forall i | 0 <= i < |pairs|
        ensures pairs[i].key in Collect(pairs, out) && Collect(pairs, out)[pairs[i].key] == pairs[i].value
      {
        if i > 0 {
          assert tail[i - 1] == pairs[i];
        }
      }
      forall k | k in Collect(pairs, out) ensures k in out || exists i :: 0 <= i < |pairs| && pairs[i].key == k {
        if k !in out && k != pairs[0].key {
          var i :| 0 <= i < |tail| && tail[i].key == k;
          assert pairs[i + 1].key == k;
        }
      }
    }
  }
}
