// Backend names: their byte order, sorting, and the hash that spreads clients.
module Names {
  // Go's < on strings
  predicate Less(a: string, b: string) {
    if |b| == 0 then false
    else if |a| == 0 then true
    else a[0] < b[0] || (a[0] == b[0] && Less(a[1..], b[1..]))
  }

  lemma {:induction false} LessTotal(a: string, b: string)
    ensures Less(a, b) || Less(b, a) || a == b
    ensures !(Less(a, b) && Less(b, a))
    ensures !Less(a, a)
  {
    if |a| != 0 && |b| != 0 {
      LessTotal(a[1..], b[1..]);
      assert a == [a[0]] + a[1..] && b == [b[0]] + b[1..];
    }
    if |a| != 0 {
      LessTotal(a[1..], a[1..]);
    }
  }

  lemma {:induction false} LessTransitive(a: string, b: string, c: string)
    requires Less(a, b) && Less(b, c)
    ensures Less(a, c)
  {
    if |a| != 0 && a[0] == b[0] == c[0] {
      LessTransitive(a[1..], b[1..], c[1..]);
    }
  }

  predicate Sorted(s: seq<string>) {
    forall i, j :: 0 <= i < j < |s| ==> !Less(s[j], s[i])
  }

  function InsertName(s: seq<string>, n: string): seq<string> {
    if |s| == 0 then [n] else if Less(n, s[0]) then [n] + s else [s[0]] + InsertName(s[1..], n)
  }

  // sort.Strings
  function SortNames(s: seq<string>): seq<string> {
    if |s| == 0 then [] else InsertName(SortNames(s[1..]), s[0])
  }

  lemma {:induction false} InsertSorts(s: seq<string>, n: string)
    requires Sorted(s)
    ensures Sorted(InsertName(s, n)) && multiset(InsertName(s, n)) == multiset(s) + multiset{n}
  {
    if |s| == 0 {
    } else if Less(n, s[0]) {
      var t := [n] + s;
      forall j | 0 < j < |t| ensures !Less(t[j], n) {
        LessTotal(n, s[0]);
        if j > 1 && Less(t[j], n) {
          LessTransitive(t[j], n, s[0]);
        }
      }
    } else {
      var head, rest := s[0], InsertName(s[1..], n);
      InsertSorts(s[1..], n);
      assert s == [head] + s[1..];
      forall x | x in rest ensures !Less(x, head) {
        assert x in multiset(rest);
        if x != n {
          assert x in s[1..];
        }
      }
      var t := [head] + rest;
      assert forall j :: 0 < j < |t| ==> t[j] == rest[j - 1] && t[j] in rest;
    }
  }

  lemma {:induction false} SortSorts(s: seq<string>)
    ensures Sorted(SortNames(s)) && multiset(SortNames(s)) == multiset(s) && |SortNames(s)| == |s|
  {
    if |s| != 0 {
      var rest := SortNames(s[1..]);
      SortSorts(s[1..]);
      InsertSorts(rest, s[0]);
      assert SortNames(s) == InsertName(rest, s[0]);
      assert multiset(SortNames(s)) == multiset(s) by {
        assert s == [s[0]] + s[1..];
      }
      assert |SortNames(s)| == |multiset(SortNames(s))|;
    }
  }

  lemma SortedHead(s: seq<string>, x: string)
    requires Sorted(s) && x in s
    ensures !Less(x, s[0])
  {
    LessTotal(x, x);
  }

  lemma SameHead(a: seq<string>, b: seq<string>)
    requires Sorted(a) && Sorted(b) && |a| > 0 && |b| > 0 && multiset(a) == multiset(b)
    ensures a[0] == b[0]
  {
    assert a[0] in multiset(b) && b[0] in multiset(a);
    SortedHead(a, b[0]);
    SortedHead(b, a[0]);
    LessTotal(a[0], b[0]);
  }

  lemma TailMultiset(a: seq<string>)
    requires |a| > 0
    ensures multiset(a[1..]) == multiset(a) - multiset{a[0]}
  {
    assert a == [a[0]] + a[1..];
  }

  lemma {:induction false} SortedUnique(a: seq<string>, b: seq<string>)
    requires Sorted(a) && Sorted(b) && multiset(a) == multiset(b)
    ensures a == b
  {
    assert |a| == |multiset(a)| == |multiset(b)| == |b|;
    if |a| != 0 {
      SameHead(a, b);
      TailMultiset(a);
      TailMultiset(b);
      SortedUnique(a[1..], b[1..]);
      assert a == [a[0]] + a[1..] == [b[0]] + b[1..] == b;
    }
  }

  // Sorting does not depend on the order it is given.
  lemma SortIgnoresOrder(a: seq<string>, b: seq<string>)
    requires multiset(a) == multiset(b)
    ensures SortNames(a) == SortNames(b)
  {
    SortSorts(a);
    SortSorts(b);
    SortedUnique(SortNames(a), SortNames(b));
  }

  ghost predicate NoRepeats<T>(s: seq<T>) {
    forall i, j :: 0 <= i < j < |s| ==> s[i] != s[j]
  }

  lemma {:induction false} CountedOnce<T>(s: seq<T>, x: T)
    requires NoRepeats(s)
    ensures multiset(s)[x] == if x in s then 1 else 0
  {
    if |s| != 0 {
      assert s == s[..|s| - 1] + [s[|s| - 1]];
      CountedOnce(s[..|s| - 1], x);
    }
  }

  lemma BothEmpty<T(!new)>(a: seq<T>, b: seq<T>)
    requires forall x :: x in a <==> x in b
    ensures |a| == 0 <==> |b| == 0
  {
    if |a| > 0 {
      assert a[0] in b;
    }
    if |b| > 0 {
      assert b[0] in a;
    }
  }

  // Two lists without repetitions and with the same elements are permutations.
  lemma SameElements<T(!new)>(a: seq<T>, b: seq<T>)
    requires NoRepeats(a) && NoRepeats(b) && forall x :: x in a <==> x in b
    ensures multiset(a) == multiset(b)
  {
    forall x ensures multiset(a)[x] == multiset(b)[x] {
      CountedOnce(a, x);
      CountedOnce(b, x);
    }
  }

  /* FNV-1a, 32 bit */

  function Fnv(s: string): bv32 {
    if |s| == 0 then 0x811C_9DC5 else FnvByte(Fnv(s[..|s| - 1]), s[|s| - 1])
  }

  function FnvByte(h: bv32, c: char): bv32 {
    (h ^ ((c as int % 256) as bv32)) * 0x0100_0193
  }

  method Sum32(key: string) returns (h: bv32)
    ensures h == Fnv(key)
  {
    h := 0x811C_9DC5;
    for i := 0 to |key|
      invariant h == Fnv(key[..i])
    {
      assert key[..i + 1][..i] == key[..i];
      h := FnvByte(h, key[i]);
    }
    assert key[..|key|] == key;
  }

  // The hash, modulo their number, is the index into the sorted names; always in range
  // where int holds a uint32.
  function HashName(key: string, names: seq<string>): (n: string)
    requires |names| > 0
    ensures n in names
  {
    SortSorts(names);
    var sorted := SortNames(names);
    var n := sorted[Fnv(key) as int % |sorted|];
    assert n in multiset(sorted);
    n
  }

  lemma HashIgnoresOrder(key: string, a: seq<string>, b: seq<string>)
    requires |a| > 0 && multiset(a) == multiset(b)
    ensures |b| > 0 && HashName(key, a) == HashName(key, b)
  {
    assert a[0] in multiset(b);
    SortIgnoresOrder(a, b);
  }

  // The published FNV-1a values of "" and "a".
  lemma FnvVectors()
    ensures Fnv("") == 0x811C_9DC5 && Fnv("a") == 0xE40C_292C
  {
    assert "a"[..0] == "";
    assert Fnv("a") == FnvByte(Fnv(""), 'a');
    FnvOfA();
  }

  lemma FnvOfA()
    ensures FnvByte(0x811C_9DC5, 'a') == 0xE40C_292C
  {
    assert (0x811C_9DC5 as bv32 ^ 0x61) == 0x811C_9DA4;
    assert 0x811C_9DA4 as bv32 * 0x0100_0193 == 0xE40C_292C;
  }
}
