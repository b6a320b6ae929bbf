// The cache keys are newline-joined strings.  A decoded path may itself contain
// newlines; the other components cannot.
module CacheKeys {
  import opened Text

  predicate OneLine(s: string) { '\n' !in s }

  // libcache.Key
  function LibraryKey(backend: string, tokenHash: string, method_: string, path: string, rawQuery: string): string {
    backend + "\n" + (tokenHash + "\n" + (ToUpper(method_) + "\n" + (path + "\n" + rawQuery)))
  }

  // imgcache.Key
  function ImageKey(backend: string, path: string, rawQuery: string, accept: string): string {
    backend + "\n" + (path + "\n" + (rawQuery + "\n" + accept))
  }

  // DropToken recognises the keys of a token by their prefix.
  predicate OfToken(key: string, backend: string, tokenHash: string) {
    backend + "\n" + (tokenHash + "\n") <= key
  }

  // The first newline ends the first component.
  lemma SplitLeft(a: string, x: string, b: string, y: string)
    requires OneLine(a) && OneLine(b) && a + "\n" + x == b + "\n" + y
    ensures a == b && x == y
  {
    var s := a + "\n" + x;
    assert s[|a|] == '\n' && s[|b|] == '\n';
    assert forall i :: 0 <= i < |a| ==> s[i] == a[i];
    assert forall i :: 0 <= i < |b| ==> s[i] == b[i];
    assert |a| == |b|;
    assert s[..|a|] == a && s[..|b|] == b && s[|a| + 1..] == x && s[|b| + 1..] == y;
  }

  // The last newline starts the last component.
  lemma SplitRight(x: string, a: string, y: string, b: string)
    requires OneLine(a) && OneLine(b) && x + "\n" + a == y + "\n" + b
    ensures a == b && x == y
  {
    var s := x + "\n" + a;
    assert s[|x|] == '\n' && s[|y|] == '\n';
    assert forall i :: |x| < i < |s| ==> s[i] == a[i - |x| - 1];
    assert forall i :: |y| < i < |s| ==> s[i] == b[i - |y| - 1];
    assert |x| == |y|;
    assert s[..|x|] == x && s[..|y|] == y && s[|x| + 1..] == a && s[|y| + 1..] == b;
  }

  // Two library keys are equal exactly when backend, token hash, upper-cased
  // method, path and query are; the path is arbitrary.
  lemma LibraryKeySeparates(b: string, h: string, m: string, p: string, q: string,
                            b': string, h': string, m': string, p': string, q': string)
    requires OneLine(b) && OneLine(h) && OneLine(ToUpper(m)) && OneLine(q)
    requires OneLine(b') && OneLine(h') && OneLine(ToUpper(m')) && OneLine(q')
    ensures LibraryKey(b, h, m, p, q) == LibraryKey(b', h', m', p', q') <==>
      b == b' && h == h' && ToUpper(m) == ToUpper(m') && p == p' && q == q'
  {
    if LibraryKey(b, h, m, p, q) == LibraryKey(b', h', m', p', q') {
      var t, t' := p + "\n" + q, p' + "\n" + q';
      var u, u' := ToUpper(m) + "\n" + t, ToUpper(m') + "\n" + t';
      SplitLeft(b, h + "\n" + u, b', h' + "\n" + u');
      SplitLeft(h, u, h', u');
      SplitLeft(ToUpper(m), t, ToUpper(m'), t');
      SplitRight(p, q, p', q');
    }
  }

  lemma ImageKeySeparates(b: string, p: string, q: string, a: string, b': string, p': string, q': string, a': string)
    requires OneLine(b) && OneLine(q) && OneLine(a) && OneLine(b') && OneLine(q') && OneLine(a')
    ensures ImageKey(b, p, q, a) == ImageKey(b', p', q', a') <==> b == b' && p == p' && q == q' && a == a'
  {
    if ImageKey(b, p, q, a) == ImageKey(b', p', q', a') {
      SplitLeft(b, p + "\n" + (q + "\n" + a), b', p' + "\n" + (q' + "\n" + a'));
      assert p + "\n" + (q + "\n" + a) == (p + "\n" + q) + "\n" + a;
      assert p' + "\n" + (q' + "\n" + a') == (p' + "\n" + q') + "\n" + a';
      SplitRight(p + "\n" + q, a, p' + "\n" + q', a');
      SplitRight(p, q, p', q');
    }
  }

  // Image and library requests share one flight group; their keys never meet,
  // because a path starts with '/' and a hex token hash does not.
  lemma FamiliesNeverCollide(b: string, h: string, m: string, p: string, q: string,
                             b': string, p': string, q': string, a': string)
    requires OneLine(b) && OneLine(b') && |h| > 0 && h[0] != '/' && |p'| > 0 && p'[0] == '/'
    ensures LibraryKey(b, h, m, p, q) != ImageKey(b', p', q', a')
  {
    var u, u' := h + "\n" + (ToUpper(m) + "\n" + (p + "\n" + q)), p' + "\n" + (q' + "\n" + a');
    assert u[0] == h[0] && u'[0] == p'[0];
    if LibraryKey(b, h, m, p, q) == ImageKey(b', p', q', a') {
      SplitLeft(b, u, b', u');
    }
  }

  // The prefix test finds exactly the keys whose first two components are these.
  lemma PrefixIsToken(b: string, h: string, m: string, p: string, q: string, backend: string, tokenHash: string)
    requires OneLine(b) && OneLine(h) && OneLine(backend) && OneLine(tokenHash)
    ensures OfToken(LibraryKey(b, h, m, p, q), backend, tokenHash) <==> b == backend && h == tokenHash
  {
    var key, prefix := LibraryKey(b, h, m, p, q), backend + "\n" + (tokenHash + "\n");
    var rest := ToUpper(m) + "\n" + (p + "\n" + q);
    if prefix <= key {
      var tail := key[|prefix|..];
      assert key == prefix + tail == backend + "\n" + (tokenHash + "\n" + tail);
      assert key == b + "\n" + (h + "\n" + rest);
      SplitLeft(b, h + "\n" + rest, backend, tokenHash + "\n" + tail);
      SplitLeft(h, rest, tokenHash, tail);
    }
    if b == backend && h == tokenHash {
      assert key == prefix + rest;
    }
  }
}
