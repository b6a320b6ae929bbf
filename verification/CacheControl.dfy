// How long a 200 image may be stored, from its Cache-Control header and the
// configured limits, in the source's 64-bit nanoseconds.
module CacheControl {
  import opened Prelude
  import opened Text

  // strings.Split
  function Split(s: string, sep: char): (parts: seq<string>)
    ensures |parts| > 0
    decreases |s|
  {
    var n := IndexByte(s, sep);
    if n == |s| then [s] else [s[..n]] + Split(s[n + 1..], sep)
  }

  // The header's list members, lower-cased.
  function Members(cacheControl: string): seq<string> {
    Split(ToLower(cacheControl), ',')
  }

  // The directive name of a member: what stands before '=', trimmed.
  function Directive(member: string): string {
    var m := TrimSpace(member);
    TrimSpace(m[..IndexByte(m, '=')])
  }

  predicate Forbidding(directive: string) {
    directive == "no-store" || directive == "private" || directive == "no-cache"
  }

  predicate Forbids(member: string) {
    Forbidding(Directive(member))
  }

  predicate AnyForbids(members: seq<string>) {
    exists i :: 0 <= i < |members| && Forbids(members[i])
  }

  predicate IsMaxAge(member: string) {
    var m := TrimSpace(member);
    IndexByte(m, '=') < |m| && Directive(member) == "max-age"
  }

  function Argument(member: string): string
    requires IsMaxAge(member)
  {
    var m := TrimSpace(member);
    TrimSpace(m[IndexByte(m, '=') + 1..])
  }

  /* strconv.ParseInt(s, 10, 64) */

  predicate AllDigits(s: string) {
    forall i :: 0 <= i < |s| ==> '0' <= s[i] <= '9'
  }

  function Decimal(s: string): nat
    requires AllDigits(s)
  {
    if |s| == 0 then 0 else 10 * Decimal(s[..|s| - 1]) + (s[|s| - 1] as int - '0' as int)
  }

  function ParseInt(s: string): (r: Option<int>)
    ensures r.Some? ==> MIN_INT64 <= r.value <= MAX_INT64
  {
    var signed := |s| > 0 && (s[0] == '+' || s[0] == '-');
    var digits := if signed then s[1..] else s;
    if digits == "" || !AllDigits(digits) then None
    else
      var size: int := Decimal(digits);
      var n := if signed && s[0] == '-' then -size else size;
      if MIN_INT64 <= n <= MAX_INT64 then Some(n) else None
  }

  /* The rule */

  // The lifetime a max-age of n seconds is given; None is a refusal.
  function FromMaxAge(n: int, maxTTL: int): Option<int> {
    var ttl := Wrap64(n * SECOND);
    var capped := if maxTTL > 0 && ttl > maxTTL then maxTTL else ttl;
    if capped <= 0 then None else Some(capped)
  }

  // The number of the first max-age member; None also when it is malformed.
  function FirstMaxAge(members: seq<string>): Option<int> {
    if |members| == 0 then None
    else if IsMaxAge(members[0]) then ParseInt(Argument(members[0]))
    else FirstMaxAge(members[1..])
  }

  function Lifetime(cacheControl: string, defaultTTL: int, maxTTL: int): Option<int> {
    if AnyForbids(Members(cacheControl)) then None
    else match FirstMaxAge(Members(cacheControl))
      case Some(n) => FromMaxAge(n, maxTTL)
      case None => if defaultTTL <= 0 then None else Some(defaultTTL)
  }

  /* The source's loops */

  method ScanForbids(members: seq<string>) returns (forbids: bool)
    ensures forbids <==> AnyForbids(members)
  {
    for i := 0 to |members|
      invariant forall j :: 0 <= j < i ==> !Forbids(members[j])
    {
      if Forbids(members[i]) {
        return true;
      }
    }
    return false;
  }

  method CacheControlForbids(cacheControl: string) returns (forbids: bool)
    ensures forbids <==> AnyForbids(Members(cacheControl))
  {
    forbids := ScanForbids(Members(cacheControl));
  }

  method CacheControlMaxAge(cacheControl: string) returns (n: Option<int>)
    ensures n == FirstMaxAge(Members(cacheControl))
  {
    var ms := Members(cacheControl);
    for i := 0 to |ms|
      invariant FirstMaxAge(ms) == FirstMaxAge(ms[i..])
    {
      assert ms[i..][0] == ms[i] && ms[i..][1..] == ms[i + 1..];
      if IsMaxAge(ms[i]) {
        return ParseInt(Argument(ms[i]));
      }
    }
    return None;
  }

  method StoreTTL(cacheControl: string, defaultTTL: int, maxTTL: int) returns (ttl: Option<int>)
    ensures ttl == Lifetime(cacheControl, defaultTTL, maxTTL)
  {
    var forbids := CacheControlForbids(cacheControl);
    if forbids {
      return None;
    }
    var maxAge := CacheControlMaxAge(cacheControl);
    if maxAge.Some? {
      var d := Wrap64(maxAge.value * SECOND);
      if maxTTL > 0 && d > maxTTL {
        d := maxTTL;
      }
      if d <= 0 {
        return None;
      }
      return Some(d);
    }
    if defaultTTL <= 0 {
      return None;
    }
    return Some(defaultTTL);
  }

  /* What it promises */

  // One forbidding list member anywhere, whatever its argument, refuses storage.
  lemma ForbiddenIsNeverStored(cacheControl: string, defaultTTL: int, maxTTL: int, i: nat)
    requires i < |Members(cacheControl)| && Forbids(Members(cacheControl)[i])
    ensures Lifetime(cacheControl, defaultTTL, maxTTL) == None
  {
  }

  // Splitting loses nothing: joined by commas, the members are the header again.
  lemma {:induction false} SplitCovers(s: string, sep: char)
    ensures Join(Split(s, sep), sep) == s
    ensures forall i :: 0 <= i < |Split(s, sep)| ==> sep !in Split(s, sep)[i]
    decreases |s|
  {
    var n := IndexByte(s, sep);
    if n < |s| {
      SplitCovers(s[n + 1..], sep);
      var rest := Split(s[n + 1..], sep);
      assert Split(s, sep)[1..] == rest;
      assert s == s[..n] + [sep] + s[n + 1..];
    } else {
      assert [s][0] == s;
    }
  }

  function Join(parts: seq<string>, sep: char): string {
    if |parts| == 0 then "" else if |parts| == 1 then parts[0] else parts[0] + [sep] + Join(parts[1..], sep)
  }

  // And a list of comma-free members, joined, splits into exactly those members.
  lemma {:induction false} SplitJoin(parts: seq<string>, sep: char)
    requires |parts| > 0 && forall i :: 0 <= i < |parts| ==> sep !in parts[i]
    ensures Split(Join(parts, sep), sep) == parts
  {
    var first := parts[0];
    if |parts| > 1 {
      var rest := Join(parts[1..], sep);
      SplitJoin(parts[1..], sep);
      SplitAfter(first, rest, sep);
      assert Split(Join(parts, sep), sep) == [first] + parts[1..] == parts;
    } else {
      assert parts == [first];
      assert IndexByte(first, sep) == |first|;
    }
  }

  lemma SplitAfter(first: string, rest: string, sep: char)
    requires sep !in first
    ensures Split(first + [sep] + rest, sep) == [first] + Split(rest, sep)
  {
    var s := first + [sep] + rest;
    assert s[|first|] == sep;
    assert forall i :: 0 <= i < |first| ==> s[i] == first[i] && first[i] in first;
    assert IndexByte(s, sep) == |first|;
    assert s[..|first|] == first && s[|first| + 1..] == rest;
  }

  function Lowered(parts: seq<string>): seq<string> {
    seq(|parts|, i requires 0 <= i < |parts| => ToLower(parts[i]))
  }

  lemma {:induction false} LowerJoin(parts: seq<string>)
    requires |parts| > 0
    ensures ToLower(Join(parts, ',')) == Join(Lowered(parts), ',')
  {
    if |parts| == 1 {
      assert Lowered(parts) == [ToLower(parts[0])];
    } else {
      var low, tail := Lowered(parts), Join(parts[1..], ',');
      LowerJoin(parts[1..]);
      assert low[1..] == Lowered(parts[1..]) && low[0] == ToLower(parts[0]);
      JoinStep(parts);
      JoinStep(low);
      LowerConcat(parts[0] + [','], tail);
      LowerConcat(parts[0], [',']);
      assert ToLower([',']) == [','];
    }
  }

  lemma JoinStep(parts: seq<string>)
    requires |parts| > 1
    ensures Join(parts, ',') == parts[0] + [','] + Join(parts[1..], ',')
  {
  }

  lemma LowerConcat(a: string, b: string)
    ensures ToLower(a + b) == ToLower(a) + ToLower(b)
  {
  }

  lemma LowerNoComma(s: string)
    requires ',' !in s
    ensures ',' !in ToLower(s)
  {
    forall k | 0 <= k < |s| ensures ToLower(s)[k] != ',' {
      assert s[k] in s;
    }
  }

  // So one forbidding directive in a printed list, in any case and at any place,
  // refuses storage.
  lemma DirectiveListForbids(parts: seq<string>, i: nat, defaultTTL: int, maxTTL: int)
    requires i < |parts| && Forbids(ToLower(parts[i]))
    requires forall j :: 0 <= j < |parts| ==> ',' !in parts[j]
    ensures Lifetime(Join(parts, ','), defaultTTL, maxTTL) == None
  {
    LowerJoin(parts);
    forall j | 0 <= j < |parts| ensures ',' !in Lowered(parts)[j] {
      LowerNoComma(parts[j]);
    }
    SplitJoin(Lowered(parts), ',');
    assert Members(Join(parts, ',')) == Lowered(parts);
    ForbiddenIsNeverStored(Join(parts, ','), defaultTTL, maxTTL, i);
  }

  // A max-age lifetime is positive and within the cap, even when the product wraps.
  lemma GrantedWithinCap(n: int, maxTTL: int)
    ensures FromMaxAge(n, maxTTL).Some? ==>
      0 < FromMaxAge(n, maxTTL).value <= MAX_INT64 && (maxTTL > 0 ==> FromMaxAge(n, maxTTL).value <= maxTTL)
  {
  }

  // The lifetime without machine arithmetic: min(n seconds, cap) if positive.
  function Intended(n: int, maxTTL: int): Option<int> {
    var ttl := if maxTTL > 0 && n * SECOND > maxTTL then maxTTL else n * SECOND;
    if ttl <= 0 then None else Some(ttl)
  }

  // Exactly when 64-bit arithmetic still gives the intended lifetime: the product
  // fits, or it wraps to something the cap or the refusal hides.
  lemma IntendedExactlyWhen(n: int, maxTTL: int)
    requires MIN_INT64 <= n <= MAX_INT64 && maxTTL <= MAX_INT64
    ensures FromMaxAge(n, maxTTL) == Intended(n, maxTTL) <==>
      || MIN_INT64 <= n * SECOND <= MAX_INT64
      || (n > 0 && 0 < maxTTL <= Wrap64(n * SECOND))
      || (n < 0 && Wrap64(n * SECOND) <= 0)
  {
  }

  // So every max-age up to 9223372036 seconds behaves as intended ...
  lemma SmallMaxAge(n: int, maxTTL: int)
    requires -9223372036 <= n <= 9223372036
    ensures FromMaxAge(n, maxTTL) == Intended(n, maxTTL)
  {
  }

  // ... and the next one is refused although it asks for longer.
  lemma FirstWrappedMaxAge(maxTTL: int)
    ensures FromMaxAge(9223372037, maxTTL) == None && Intended(9223372037, maxTTL).Some?
  {
    assert 9223372037 * SECOND == 9223372037000000000;
    assert Wrap64(9223372037000000000) == 9223372037000000000 - 0x1_0000_0000_0000_0000;
  }

  /* The same for a whole header */

  predicate Allowed(cacheControl: string) {
    !AnyForbids(Members(cacheControl))
  }

  // Member i is the first max-age of the header.
  ghost predicate FirstIs(members: seq<string>, i: nat) {
    i < |members| && IsMaxAge(members[i]) && forall j :: 0 <= j < i ==> !IsMaxAge(members[j])
  }

  lemma {:induction false} FirstMaxAgeAt(members: seq<string>, i: nat)
    requires FirstIs(members, i)
    ensures FirstMaxAge(members) == ParseInt(Argument(members[i]))
  {
    if i > 0 {
      var rest := members[1..];
      assert rest[i - 1] == members[i];
      assert forall j :: 0 <= j < i - 1 ==> rest[j] == members[j + 1];
      FirstMaxAgeAt(rest, i - 1);
      assert !IsMaxAge(members[0]) && FirstMaxAge(members) == FirstMaxAge(rest);
    }
  }

  lemma {:induction false} NoMaxAge(members: seq<string>)
    requires forall i :: 0 <= i < |members| ==> !IsMaxAge(members[i])
    ensures FirstMaxAge(members) == None
  {
    if |members| > 0 {
      NoMaxAge(members[1..]);
    }
  }

  // A header that does not forbid storage and whose first max-age reads as n: the
  // lifetime is min(n seconds, cap), refused when not positive, exactly when 64-bit
  // arithmetic allows; whatever n is, a lifetime granted is positive and within the cap.
  lemma HeaderLifetime(cacheControl: string, i: nat, n: int, defaultTTL: int, maxTTL: int)
    requires Allowed(cacheControl) && FirstIs(Members(cacheControl), i) && maxTTL <= MAX_INT64
    requires ParseInt(Argument(Members(cacheControl)[i])) == Some(n)
    ensures var ttl := Lifetime(cacheControl, defaultTTL, maxTTL);
      && (ttl == Intended(n, maxTTL) <==>
            || MIN_INT64 <= n * SECOND <= MAX_INT64
            || (n > 0 && 0 < maxTTL <= Wrap64(n * SECOND))
            || (n < 0 && Wrap64(n * SECOND) <= 0))
      && (ttl.Some? ==> 0 < ttl.value <= MAX_INT64 && (maxTTL > 0 ==> ttl.value <= maxTTL))
  {
    FirstMaxAgeAt(Members(cacheControl), i);
    IntendedExactlyWhen(n, maxTTL);
    GrantedWithinCap(n, maxTTL);
  }

  // Without a max-age, or when the first one is malformed or no int64, the default
  // lifetime counts, even if a later max-age is well formed.
  lemma DefaultLifetime(cacheControl: string, defaultTTL: int, maxTTL: int)
    requires var ms := Members(cacheControl);
      && Allowed(cacheControl)
      && forall i: nat :: FirstIs(ms, i) ==> ParseInt(Argument(ms[i])).None?
    ensures Lifetime(cacheControl, defaultTTL, maxTTL) == if defaultTTL <= 0 then None else Some(defaultTTL)
  {
    var ms := Members(cacheControl);
    if i: nat :| i < |ms| && IsMaxAge(ms[i]) {
      var k := FindFirst(ms, i);
      FirstMaxAgeAt(ms, k);
    } else {
      NoMaxAge(ms);
    }
  }

  lemma {:induction false} FindFirst(members: seq<string>, i: nat) returns (k: nat)
    requires i < |members| && IsMaxAge(members[i])
    ensures FirstIs(members, k)
  {
    k := i;
    if j: nat :| j < i && IsMaxAge(members[j]) {
      k := FindFirst(members, j);
    }
  }

  /* Printed directives */

  function Digits(n: nat): (s: string)
    ensures s != "" && AllDigits(s) && Decimal(s) == n
  {
    var last := [('0' as int + n % 10) as char];
    if n < 10 then assert last[..0] == ""; last
    else
      var s := Digits(n / 10) + last;
      assert s[..|s| - 1] == Digits(n / 10);
      s
  }

  const MAX_AGE := "max-age"

  function MaxAgeHeader(n: nat): string {
    MAX_AGE + "=" + Digits(n)
  }

  // The header max-age=n as any server prints it: read back as n when n is an int64,
  // ignored when it is not.
  lemma PrintedMaxAge(n: nat, defaultTTL: int, maxTTL: int)
    ensures Lifetime(MaxAgeHeader(n), defaultTTL, maxTTL) ==
      if n <= MAX_INT64 then FromMaxAge(n, maxTTL) else if defaultTTL <= 0 then None else Some(defaultTTL)
  {
    var m := MaxAgeHeader(n);
    assert Members(m) == [m] && Allowed(m) by {
      OneMember(n);
      MemberParts(n);
    }
    assert FirstMaxAge(Members(m)) == ParseInt(Digits(n)) by {
      MemberParts(n);
      FirstMaxAgeAt(Members(m), 0);
    }
    DigitsParse(n);
  }

  lemma DigitsParse(n: nat)
    ensures ParseInt(Digits(n)) == if n <= MAX_INT64 then Some(n) else None
  {
    assert '0' <= Digits(n)[0] <= '9';
  }

  lemma EqualsAt7(n: nat)
    ensures var m := MaxAgeHeader(n);
      IndexByte(m, '=') == 7 && m[..7] == MAX_AGE && m[8..] == Digits(n)
  {
    var m := MaxAgeHeader(n);
    assert m[7] == '=';
    assert forall i :: 0 <= i < 7 ==> m[i] == MAX_AGE[i] && MAX_AGE[i] != '=';
  }

  lemma MemberParts(n: nat)
    ensures var m := MaxAgeHeader(n);
      IsMaxAge(m) && Argument(m) == Digits(n) && !Forbids(m)
  {
    var m := MaxAgeHeader(n);
    EqualsAt7(n);
    TrimsToItself(m);
    TrimsToItself(MAX_AGE);
    TrimsToItself(Digits(n));
    assert Directive(m) == MAX_AGE && MAX_AGE[0] == 'm';
  }

  lemma TrimsToItself(s: string)
    requires s != "" && '-' <= s[0] <= 'z' && '-' <= s[|s| - 1] <= 'z'
    ensures TrimSpace(s) == s
  {
    assert SpaceAtStart(s) == 0 && SpaceAtEnd(s) == 0;
  }

  lemma OneMember(n: nat)
    ensures Members(MaxAgeHeader(n)) == [MaxAgeHeader(n)]
  {
    var m := MaxAgeHeader(n);
    forall i | 0 <= i < |m| ensures LowerChar(m[i]) == m[i] != ',' {
      if i < 7 {
        assert m[i] == MAX_AGE[i];
      } else if i > 7 {
        assert m[i] == Digits(n)[i - 8];
      }
    }
    assert ToLower(m) == m;
  }
}
