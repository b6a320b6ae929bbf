// The header HAP itself sends when it warms the library cache after a login, and
// which tokens it carries.
module WarmHeader {
  import opened Prelude
  import opened Text
  import opened AuthHeader
  import opened HeaderRoundTrip
  import opened Identifiers

  const SCHEME := "MediaBrowser"

  // What warmOne sends.
  function WarmHeader(token: string): string {
    SCHEME + " " + WarmPair(token)
  }

  function WarmPair(token: string): string {
    "Token" + "=" + ("\"" + (token + "\"" + ""))
  }

  lemma {:induction false} UnescapeShrinks(s: string)
    ensures var d := QueryUnescape(s);
      d.Some? ==>
        && |d.value| <= |s|
        && ('%' in s ==> |d.value| < |s|)
        && ('%' !in s ==>
              |d.value| == |s| && forall i :: 0 <= i < |s| ==> d.value[i] == if s[i] == '+' then ' ' else s[i])
  {
    if |s| != 0 {
      assert s == [s[0]] + s[1..];
      if s[0] == '%' {
        if |s| >= 3 {
          UnescapeShrinks(s[3..]);
        }
      } else {
        UnescapeShrinks(s[1..]);
      }
    }
  }

  // Decoding leaves a value alone exactly when it is malformed or has nothing to decode.
  lemma DecodedIsSame(v: string)
    ensures Decoded(v) == v <==> QueryUnescape(v).None? || ('%' !in v && '+' !in v)
  {
    UnescapeShrinks(v);
    var d := QueryUnescape(v);
    if d.Some? && '%' !in v && '+' in v {
      var i :| 0 <= i < |v| && v[i] == '+';
      assert d.value[i] == ' ';
    }
  }

  lemma {:induction false} QuotedVerbatim(v: string, rest: string)
    requires '"' !in v && '\\' !in v
    ensures Quoted(v + "\"" + rest, false) == (v, rest)
  {
    if |v| == 0 {
      assert (v + "\"" + rest)[1..] == rest;
    } else {
      assert v == [v[0]] + v[1..];
      QuotedVerbatim(v[1..], rest);
      QuotedPlain(v[0], v[1..] + "\"" + rest);
      assert v + "\"" + rest == [v[0]] + (v[1..] + "\"" + rest);
    }
  }

  lemma TokenPair(token: string)
    requires '"' !in token && '\\' !in token
    ensures NamedValues(WarmPair(token)) == Some(map["Token" := Decoded(token)])
  {
    var after := "\"" + (token + "\"" + "");
    var s, out := WarmPair(token), map["Token" := Decoded(token)];
    assert TrimSpace(s) == s by {
      assert s[0] == 'T' && s[|s| - 1] == '"';
    }
    IndexAfter("Token", after);
    assert NextPair(s) == Some(("Token", token, "")) by {
      assert s[0] == 'T' && s[..5] == "Token" && s[6..] == after;
      QuotedVerbatim(token, "");
      assert after[0] == '"' && after[1..] == token + "\"" + "";
      NextPairParts(s, 5, "Token", after, token, "");
    }
    ScanUnfold(s, map[], "Token", token, "");
    assert Scan("", out) == out by {
      assert NextPair("") == None;
    }
    assert Enter(map[], "Token", token) == out && "Token" in out;
  }

  lemma SchemeSplit(scheme: string, rest: string)
    requires scheme != "" && ' ' !in scheme && EqualFold(scheme, "mediabrowser") && 'A' <= scheme[0] <= 'z'
    requires rest != "" && rest[|rest| - 1] == '"'
    ensures MediaBrowser(scheme + " " + rest) == NamedValues(rest)
  {
    var h := scheme + " " + rest;
    HeaderTrims(scheme, rest);
    SpaceAfter(scheme, rest);
    assert h[..|scheme|] == scheme && h[|scheme| + 1..] == rest by {
      Halves(scheme, rest);
    }
    assert |h| > |scheme|;
  }

  lemma HeaderTrims(scheme: string, rest: string)
    requires scheme != "" && 'A' <= scheme[0] <= 'z' && rest != "" && rest[|rest| - 1] == '"'
    ensures TrimSpace(scheme + " " + rest) == scheme + " " + rest
  {
    var h := scheme + " " + rest;
    assert h[0] == scheme[0] && h[|h| - 1] == '"';
  }

  lemma Halves(a: string, b: string)
    ensures (a + " " + b)[..|a|] == a && (a + " " + b)[|a| + 1..] == b
  {
  }

  lemma SpaceAfter(k: string, rest: string)
    requires ' ' !in k
    ensures IndexByte(k + " " + rest, ' ') == |k|
  {
    var s := k + " " + rest;
    assert s[|k|] == ' ';
    assert forall i :: 0 <= i < |k| ==> s[i] == k[i] && k[i] in k;
  }

  lemma {:induction false} FoldsLetterwise(s: string, target: string, i: nat)
    requires i <= |s| == |target|
    requires forall i :: 0 <= i < |s| ==>
      'a' <= target[i] <= 'z' && (s[i] == target[i] || s[i] == target[i] - 'a' + 'A')
    ensures FoldsFrom(s, i, target, i)
    decreases |s| - i
  {
    if i < |s| {
      FoldsLetterwise(s, target, i + 1);
    }
  }

  /* Tokens with a quote or a backslash */

  predicate Special(t: string) {
    '"' in t || '\\' in t
  }

  // What the scanner reads of a token inside the quotes, and what is left after it.
  function Read(t: string): (string, string) {
    Quoted(t + "\"", false)
  }

  lemma ReadStep(t: string)
    requires |t| > 0
    ensures t[0] == '"' ==> Read(t).0 == ""
    ensures t == "\\" ==> Read(t) == ("\"", "")
    ensures t[0] == '\\' && |t| > 1 ==> Read(t) == ([t[1]] + Read(t[2..]).0, Read(t[2..]).1)
    ensures t[0] != '"' && t[0] != '\\' ==> Read(t) == ([t[0]] + Read(t[1..]).0, Read(t[1..]).1)
  {
    var s := t + "\"";
    assert s[1..] == t[1..] + "\"";
    if t[0] == '\\' && |t| > 1 {
      assert s == ['\\', t[1]] + (t[2..] + "\"");
      QuotedBackslash(t[1], t[2..] + "\"");
    } else if t[0] == '\\' {
      assert t == "\\";
      assert s == ['\\', '"'] + "";
      QuotedBackslash('"', "");
      assert Quoted("", false) == ("", "") && ['"'] + "" == "\"";
    } else if t[0] != '"' {
      assert s == [t[0]] + (t[1..] + "\"");
      QuotedPlain(t[0], t[1..] + "\"");
    }
  }

  // Never longer, and with a special byte either shorter or ending in the closing
  // quote where the token ends in a backslash.
  lemma {:induction false} ReadShrinks(t: string)
    ensures |Read(t).0| <= |t| && |Read(t).1| <= |t|
    ensures var q := Read(t).0;
      Special(t) ==> |q| < |t| || (|q| == |t| > 0 && q[|q| - 1] == '"' && t[|t| - 1] == '\\')
    decreases |t|
  {
    if |t| == 0 {
      assert t + "\"" == "\"" && "\""[1..] == "";
    } else {
      ReadStep(t);
      assert t == [t[0]] + t[1..];
      if t[0] == '\\' {
        if |t| > 1 {
          ReadShrinks(t[2..]);
        }
      } else if t[0] != '"' {
        ReadShrinks(t[1..]);
      }
    }
  }

  lemma DecodedShrinks(v: string)
    ensures |Decoded(v)| <= |v|
    ensures |v| > 0 && |Decoded(v)| == |v| && v[|v| - 1] == '"' ==> Decoded(v)[|v| - 1] == '"'
  {
    UnescapeShrinks(v);
  }

  lemma SpecialIsLost(t: string)
    requires Special(t)
    ensures Decoded(Read(t).0) != t
  {
    ReadShrinks(t);
    DecodedShrinks(Read(t).0);
  }

  // No value is longer than the text it is scanned from.
  lemma {:induction false} ScannedIsShorter(s: string, out: map<string, string>, key: string)
    requires key in Scan(s, out)
    ensures (key in out && Scan(s, out)[key] == out[key]) || |Scan(s, out)[key]| < |s|
    decreases |s|
  {
    var next := NextPair(s);
    if next.Some? {
      var (k, val, rest) := next.value;
      PairIsShorter(s);
      DecodedShrinks(val);
      ScannedIsShorter(rest, Enter(out, k, val), key);
    }
  }

  lemma PairIsShorter(s: string)
    requires NextPair(s).Some?
    ensures |NextPair(s).value.1| < |s|
  {
    var t := DropSeparators(s);
    var eq := IndexByte(t, '=');
    ValueIsShorter(DropSpaces(t[eq + 1..]));
  }

  lemma ValueIsShorter(s: string)
    ensures |Value(s).0| <= |s|
  {
    if |s| > 0 && s[0] == '"' {
      QuotedIsShorter(s[1..], false);
    }
  }

  lemma {:induction false} QuotedIsShorter(s: string, escaped: bool)
    ensures |Quoted(s, escaped).0| <= |s|
  {
    if |s| > 0 {
      QuotedIsShorter(s[1..], false);
      QuotedIsShorter(s[1..], true);
    }
  }

  lemma ReadPair(token: string)
    ensures NextPair(WarmPair(token)) == Some(("Token", Read(token).0, Read(token).1))
  {
    var after := "\"" + (token + "\"" + "");
    var s := WarmPair(token);
    IndexAfter("Token", after);
    assert s[0] == 'T' && s[..5] == "Token" && s[6..] == after;
    assert Value(after) == Read(token) && DropSpaces(after) == after by {
      assert after[0] == '"' && after[1..] == token + "\"";
    }
    NextPairParts(s, 5, "Token", after, Read(token).0, Read(token).1);
  }

  // What the server reads is then never the token.
  lemma SpecialTokenIsLost(token: string)
    requires Special(token)
    ensures Part(NamedValues(WarmPair(token)), "Token") != token
  {
    var s := WarmPair(token);
    assert TrimSpace(s) == s by {
      assert s[0] == 'T' && s[|s| - 1] == '"';
    }
    var (v, rest) := Read(token);
    var out := Enter(map[], "Token", v);
    assert Scan(s, map[]) == Scan(rest, out) by {
      ReadPair(token);
      ScanUnfold(s, map[], "Token", v, rest);
    }
    assert |rest| <= |token| && Decoded(v) != token by {
      ReadShrinks(token);
      SpecialIsLost(token);
    }
    LaterIsLost(token, v, rest);
  }

  lemma LaterIsLost(token: string, v: string, rest: string)
    requires |rest| <= |token| && Decoded(v) != token
    ensures var out := Scan(rest, Enter(map[], "Token", v));
      "Token" in out ==> out["Token"] != token
  {
    var out := Enter(map[], "Token", v);
    assert out == map["Token" := Decoded(v)];
    if "Token" in Scan(rest, out) {
      ScannedIsShorter(rest, out, "Token");
    }
  }

  // For every token: it survives the warm-login header exactly when it has no quote, no
  // backslash, and nothing form decoding would change; every alphanumeric token does.
  lemma WarmHeaderCarriesToken(token: string)
    ensures Part(MediaBrowser(WarmHeader(token)), "Token") == token <==>
      !Special(token) && (QueryUnescape(token).None? || ('%' !in token && '+' !in token))
    ensures !Special(token) ==> MediaBrowser(WarmHeader(token)) == Some(map["Token" := Decoded(token)])
  {
    assert MediaBrowser(WarmHeader(token)) == NamedValues(WarmPair(token)) by {
      FoldsLetterwise(SCHEME, "mediabrowser", 0);
      var rest := WarmPair(token);
      assert rest[|rest| - 1] == '"';
      SchemeSplit(SCHEME, rest);
    }
    if Special(token) {
      SpecialTokenIsLost(token);
    } else {
      TokenPair(token);
      DecodedIsSame(token);
    }
  }
}
