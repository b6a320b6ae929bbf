// Recency lists: the container/list + index + byte counter that both image
// cache tiers and the library cache keep.  Index 0 is the most recently used.
module Recency {
  import opened Prelude

  datatype Cell<+V> = Cell(key: string, size: nat, val: V)

  ghost function Keys<V(!new)>(s: seq<Cell<V>>): set<string> {
    set c | c in s :: c.key
  }

  ghost predicate Distinct<V(!new)>(s: seq<Cell<V>>) {
    forall i, j :: 0 <= i < j < |s| ==> s[i].key != s[j].key
  }

  function Total<V(!new)>(s: seq<Cell<V>>): nat {
    if |s| == 0 then 0 else s[0].size + Total(s[1..])
  }

  // Where key is held, or |s|.
  function IndexOf<V(!new)>(s: seq<Cell<V>>, key: string): (i: nat)
    ensures i <= |s|
    ensures i < |s| ==> s[i].key == key
    ensures forall j :: 0 <= j < i ==> s[j].key != key
  {
    if |s| == 0 || s[0].key == key then 0
    else
      var i := IndexOf(s[1..], key);
      assert forall j :: 0 < j < i + 1 ==> s[j] == s[1..][j - 1];
      i + 1
  }

  // list.Remove of the element holding key, if there is one.
  function Without<V(!new)>(s: seq<Cell<V>>, key: string): seq<Cell<V>> {
    var i := IndexOf(s, key);
    if i < |s| then s[..i] + s[i + 1..] else s
  }

  // Eviction from the back until at most room bytes are left.
  function Fit<V(!new)>(s: seq<Cell<V>>, room: int): seq<Cell<V>> {
    if |s| == 0 || Total(s) <= room then s else Fit(s[..|s| - 1], room)
  }

  function Find<V(!new)>(s: seq<Cell<V>>, key: string): (r: Option<Cell<V>>)
    ensures r.Some? ==> r.value in s && r.value.key == key
    ensures r.None? <==> key !in Keys(s)
  {
    var i := IndexOf(s, key);
    if i < |s| then Some(s[i]) else None
  }

  // A store: the key's old cell goes, the coldest cells go until c fits, and c
  // comes to the front.
  function Insert<V(!new)>(s: seq<Cell<V>>, c: Cell<V>, max: int): seq<Cell<V>> {
    [c] + Fit(Without(s, c.key), max - c.size)
  }

  // MoveToFront of the element holding c's key, its value replaced by c.
  function Touch<V(!new)>(s: seq<Cell<V>>, c: Cell<V>): seq<Cell<V>> {
    [c] + Without(s, c.key)
  }

  // The index and the counter agree with the list.
  ghost predicate Agree<V(!new)>(s: seq<Cell<V>>, idx: map<string, Cell<V>>, n: int) {
    && Distinct(s)
    && n == Total(s)
    && idx.Keys == Keys(s)
    && forall k :: k in idx ==> idx[k] in s && idx[k].key == k
  }

  // Every cell was used later than the cells behind it.
  ghost predicate MostRecentFirst<V(!new)>(s: seq<Cell<V>>, use: map<string, nat>) {
    && (forall c :: c in s ==> c.key in use)
    && forall i, j :: 0 <= i < j < |s| ==> use[s[i].key] > use[s[j].key]
  }

  lemma {:induction false} TotalAppend<V(!new)>(a: seq<Cell<V>>, b: seq<Cell<V>>)
    ensures Total(a + b) == Total(a) + Total(b)
  {
    if |a| == 0 {
      assert a + b == b;
    } else {
      assert (a + b)[0] == a[0] && (a + b)[1..] == a[1..] + b;
      TotalAppend(a[1..], b);
    }
  }

  lemma FindUnique<V(!new)>(s: seq<Cell<V>>, c: Cell<V>)
    requires Distinct(s) && c in s
    ensures Find(s, c.key) == Some(c)
  {
    var j :| 0 <= j < |s| && s[j] == c;
    assert IndexOf(s, c.key) == j;
  }

  lemma WithoutAt<V(!new)>(s: seq<Cell<V>>, key: string)
    ensures var r := Without(s, key);
      forall j :: 0 <= j < |r| ==> r[j] == s[if j < IndexOf(s, key) then j else j + 1]
  {
    var i, r := IndexOf(s, key), Without(s, key);
    if i < |s| {
      var a, b := s[..i], s[i + 1..];
      assert r == a + b;
      forall j | 0 <= j < |r| ensures r[j] == s[if j < i then j else j + 1] {
        if j < i {
          assert r[j] == a[j];
        } else {
          assert r[j] == b[j - i];
        }
      }
    }
  }

  lemma WithoutTotal<V(!new)>(s: seq<Cell<V>>, key: string)
    ensures Total(Without(s, key)) == Total(s) - (if Find(s, key).Some? then Find(s, key).value.size else 0)
  {
    var i := IndexOf(s, key);
    if i < |s| {
      var c := s[i];
      assert s == s[..i] + ([c] + s[i + 1..]);
      TotalAppend(s[..i], [c] + s[i + 1..]);
      TotalAppend(s[..i], s[i + 1..]);
      assert ([c] + s[i + 1..])[1..] == s[i + 1..];
    }
  }

  lemma WithoutMembers<V(!new)>(s: seq<Cell<V>>, key: string)
    requires Distinct(s)
    ensures forall c :: c in Without(s, key) <==> c in s && c.key != key
  {
    var i, r := IndexOf(s, key), Without(s, key);
    WithoutAt(s, key);
    if i < |s| {
      forall c | c in s && c.key != key ensures c in r {
        var j :| 0 <= j < |s| && s[j] == c;
        assert c == r[if j < i then j else j - 1];
      }
      forall c | c in r ensures c in s && c.key != key {
        var j :| 0 <= j < |r| && r[j] == c;
        var j' := if j < i then j else j + 1;
        assert c == s[j'] && j' != i;
      }
    } else {
      forall c | c in s ensures c.key != key {
        assert c.key in Keys(s);
      }
    }
  }

  lemma WithoutDistinct<V(!new)>(s: seq<Cell<V>>, key: string)
    requires Distinct(s)
    ensures Distinct(Without(s, key))
  {
    WithoutAt(s, key);
  }

  lemma WithoutKeys<V(!new)>(s: seq<Cell<V>>, key: string)
    requires Distinct(s)
    ensures Keys(Without(s, key)) == Keys(s) - {key}
  {
    WithoutMembers(s, key);
    forall k ensures k in Keys(Without(s, key)) <==> k in Keys(s) && k != key {
      if k in Keys(s) && k != key {
        var c :| c in s && c.key == k;
        assert c in Without(s, key);
      }
    }
  }

  // Removing a key takes out its one cell and gives back exactly its bytes;
  // the other cells keep their order.
  lemma WithoutKeeps<V(!new)>(s: seq<Cell<V>>, key: string)
    requires Distinct(s)
    ensures var r := Without(s, key);
      && Distinct(r)
      && Keys(r) == Keys(s) - {key}
      && (forall c :: c in r <==> c in s && c.key != key)
      && Total(r) == Total(s) - (if Find(s, key).Some? then Find(s, key).value.size else 0)
  {
    WithoutTotal(s, key);
    WithoutMembers(s, key);
    WithoutDistinct(s, key);
    WithoutKeys(s, key);
  }

  lemma WithoutAbsent<V(!new)>(s: seq<Cell<V>>, key: string)
    requires key !in Keys(s)
    ensures Without(s, key) == s && Find(s, key) == None
  {
    assert Find(s, key).None?;
  }

  lemma WithoutKeepsOrder<V(!new)>(s: seq<Cell<V>>, key: string, use: map<string, nat>)
    requires MostRecentFirst(s, use)
    ensures MostRecentFirst(Without(s, key), use)
  {
    WithoutAt(s, key);
  }

  // Fit keeps the longest prefix, that is, drops the shortest least recently
  // used suffix, that brings the total down to room.
  lemma {:induction false} FitIsLongestPrefix<V(!new)>(s: seq<Cell<V>>, room: int)
    requires 0 <= room
    ensures var r := Fit(s, room);
      && r <= s
      && Total(r) <= room
      && (forall m :: |r| < m <= |s| ==> Total(s[..m]) > room)
  {
    if |s| != 0 && Total(s) > room {
      var t := s[..|s| - 1];
      FitIsLongestPrefix(t, room);
      var r := Fit(t, room);
      forall m | |r| < m <= |s| ensures Total(s[..m]) > room {
        if m == |s| {
          assert s[..m] == s;
        } else {
          assert t[..m] == s[..m];
        }
      }
    }
  }

  lemma PrefixKeeps<V(!new)>(s: seq<Cell<V>>, r: seq<Cell<V>>)
    requires r <= s
    ensures Distinct(s) ==> Distinct(r)
    ensures forall c :: c in r ==> c in s
    ensures Keys(r) <= Keys(s)
  {
    assert forall i :: 0 <= i < |r| ==> r[i] == s[i];
  }

  // A new front cell whose key is not in the list.
  lemma PushKeeps<V(!new)>(c: Cell<V>, s: seq<Cell<V>>)
    requires Distinct(s) && c.key !in Keys(s)
    ensures Distinct([c] + s)
    ensures Total([c] + s) == c.size + Total(s)
    ensures Keys([c] + s) == {c.key} + Keys(s)
    ensures forall d :: d in [c] + s <==> d == c || d in s
  {
    var t := [c] + s;
    assert t[1..] == s;
    forall i, j | 0 <= i < j < |t| ensures t[i].key != t[j].key {
      assert t[j] == s[j - 1];
      if i == 0 {
        assert s[j - 1] in s;
      } else {
        assert t[i] == s[i - 1];
      }
    }
    assert forall d :: d in t <==> d == c || d in s;
  }

  lemma InsertKeeps<V(!new)>(s: seq<Cell<V>>, c: Cell<V>, max: int)
    requires Distinct(s) && c.size <= max
    ensures var r := Insert(s, c, max);
      && Distinct(r) && Total(r) <= max
      && (forall d :: d in r ==> d == c || (d in s && d.key != c.key))
  {
    var w := Without(s, c.key);
    WithoutKeeps(s, c.key);
    FitIsLongestPrefix(w, max - c.size);
    PrefixKeeps(w, Fit(w, max - c.size));
    PushKeeps(c, Fit(w, max - c.size));
  }

  lemma TouchKeeps<V(!new)>(s: seq<Cell<V>>, c: Cell<V>, c': Cell<V>)
    requires Distinct(s) && c in s && c'.key == c.key && c'.size == c.size
    ensures var r := Touch(s, c');
      && Distinct(r) && Total(r) == Total(s) && Keys(r) == Keys(s)
      && (forall d :: d in r <==> d == c' || (d in s && d.key != c.key))
  {
    WithoutKeeps(s, c.key);
    FindUnique(s, c);
    PushKeeps(c', Without(s, c.key));
    assert c.key in Keys(s);
  }

  // kept is w without its victims, the cells behind it: exactly the least recently
  // used ones, and not one more than the budget left by size bytes asks for.
  ghost predicate EvictedExactly<V(!new)>(w: seq<Cell<V>>, kept: seq<Cell<V>>, use: map<string, nat>, size: nat,
                                          max: int)
  {
    && MostRecentFirst(w, use) && kept <= w
    && Total(kept) + size <= max
    && (forall i, j :: 0 <= j < |kept| <= i < |w| ==> use[w[i].key] < use[w[j].key])
    && (|kept| < |w| ==> Total(kept) + w[|kept|].size + size > max)
  }

  lemma FitEvictsExactly<V(!new)>(w: seq<Cell<V>>, use: map<string, nat>, size: nat, max: int)
    requires MostRecentFirst(w, use) && size <= max
    ensures EvictedExactly(w, Fit(w, max - size), use, size, max)
  {
    var kept := Fit(w, max - size);
    FitIsLongestPrefix(w, max - size);
    if |kept| < |w| {
      assert w[..|kept| + 1] == kept + [w[|kept|]];
      TotalAppend(kept, [w[|kept|]]);
      assert Total([w[|kept|]]) == w[|kept|].size;
    }
  }

  lemma InsertEvictsExactly<V(!new)>(s: seq<Cell<V>>, c: Cell<V>, max: int, use: map<string, nat>)
    requires MostRecentFirst(s, use) && c.size <= max
    ensures var r := Insert(s, c, max);
      && |r| > 0 && r[0] == c
      && EvictedExactly(Without(s, c.key), r[1..], use, c.size, max)
  {
    WithoutKeepsOrder(s, c.key, use);
    FitEvictsExactly(Without(s, c.key), use, c.size, max);
    assert Insert(s, c, max)[1..] == Fit(Without(s, c.key), max - c.size);
  }

  // The front cell is the one used at tick, later than anything before.
  lemma PushIsMostRecent<V(!new)>(c: Cell<V>, s: seq<Cell<V>>, use: map<string, nat>, tick: nat)
    requires MostRecentFirst(s, use)
    requires forall k :: k in use ==> use[k] < tick
    requires c.key !in Keys(s)
    ensures MostRecentFirst([c] + s, use[c.key := tick])
  {
    var t, use' := [c] + s, use[c.key := tick];
    assert forall d :: d in s ==> d.key in Keys(s);
    forall i, j | 0 <= i < j < |t| ensures use'[t[i].key] > use'[t[j].key] {
      assert t[j] == s[j - 1] && s[j - 1] in s;
      if i > 0 {
        assert t[i] == s[i - 1] && s[i - 1] in s;
      }
    }
  }

  lemma InsertOrdered<V(!new)>(s: seq<Cell<V>>, c: Cell<V>, max: int, use: map<string, nat>, tick: nat)
    requires Distinct(s) && MostRecentFirst(s, use) && c.size <= max
    requires forall k :: k in use ==> use[k] < tick
    ensures MostRecentFirst(Insert(s, c, max), use[c.key := tick])
  {
    var w := Without(s, c.key);
    WithoutKeeps(s, c.key);
    WithoutKeepsOrder(s, c.key, use);
    FitIsLongestPrefix(w, max - c.size);
    PrefixKeeps(w, Fit(w, max - c.size));
    PushIsMostRecent(c, Fit(w, max - c.size), use, tick);
  }

  lemma FrontOrdered<V(!new)>(s: seq<Cell<V>>, c: Cell<V>, use: map<string, nat>, tick: nat)
    requires Distinct(s) && MostRecentFirst(s, use)
    requires forall k :: k in use ==> use[k] < tick
    ensures MostRecentFirst(Touch(s, c), use[c.key := tick])
  {
    WithoutKeeps(s, c.key);
    WithoutKeepsOrder(s, c.key, use);
    PushIsMostRecent(c, Without(s, c.key), use, tick);
  }

  // list.Remove with delete(idx, key) and the counter; it never goes negative.
  lemma AgreeRemove<V(!new)>(s: seq<Cell<V>>, idx: map<string, Cell<V>>, n: int, c: Cell<V>)
    requires Agree(s, idx, n) && c in s
    ensures Agree(Without(s, c.key), idx - {c.key}, n - c.size) && n - c.size >= 0
    ensures c.key !in Keys(Without(s, c.key)) && Without(Without(s, c.key), c.key) == Without(s, c.key)
  {
    WithoutKeeps(s, c.key);
    FindUnique(s, c);
    WithoutAbsent(Without(s, c.key), c.key);
  }

  lemma RemoveLast<V(!new)>(s: seq<Cell<V>>)
    requires Distinct(s) && |s| > 0
    ensures var last := |s| - 1; s[last] in s && Without(s, s[last].key) == s[..last]
  {
    FindUnique(s, s[|s| - 1]);
  }

  lemma AgreePush<V(!new)>(s: seq<Cell<V>>, idx: map<string, Cell<V>>, n: int, c: Cell<V>)
    requires Agree(s, idx, n) && c.key !in Keys(s)
    ensures Agree([c] + s, idx[c.key := c], n + c.size)
  {
    PushKeeps(c, s);
  }

  // MoveToFront, with the cell's value replaced.
  lemma AgreeFront<V(!new)>(s: seq<Cell<V>>, idx: map<string, Cell<V>>, n: int, c: Cell<V>, c': Cell<V>)
    requires Agree(s, idx, n) && c in s && c'.key == c.key && c'.size == c.size
    ensures Agree(Touch(s, c'), idx[c.key := c'], n)
    ensures Find(s, c.key) == Some(c)
  {
    TouchKeeps(s, c, c');
    FindUnique(s, c);
    assert c.key in Keys(s);
    var r, idx' := Touch(s, c'), idx[c.key := c'];
    assert idx'.Keys == Keys(r);
    forall k | k in idx' ensures idx'[k] in r && idx'[k].key == k {
      if k != c.key {
        assert idx[k] in s && idx[k].key == k;
      }
    }
  }

  lemma AgreeLookup<V(!new)>(s: seq<Cell<V>>, idx: map<string, Cell<V>>, n: int, key: string)
    requires Agree(s, idx, n)
    ensures key in idx ==> Find(s, key) == Some(idx[key]) && idx[key] in s && idx[key].key == key
    ensures key !in idx ==> Find(s, key) == None && key !in Keys(s) && Without(s, key) == s
  {
    if key in idx {
      FindUnique(s, idx[key]);
    } else {
      WithoutAbsent(s, key);
    }
  }
}
